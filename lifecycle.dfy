/** The alert investigation lifecycle of the backend: the `alerts`,
    `alert_investigations`, `cases` and `case_user_responses` tables, the
    handlers that claim, release, escalate, close, reopen and bulk-reset
    alerts and store scenario answers, and the three queues read from the
    same tables. */
module Lifecycle {
  import opened Base
  import opened Text

  type AlertId = int
  type UserId = int
  type RowId = nat

  /** One row of `alerts`, restricted to the columns the lifecycle reads or
      writes. `severityListed` says whether its `severity_id` names a row of
      `severity_levels`: the main queue and my queue join that table with an
      inner join, so an alert without one is in neither. */
  datatype Alert = Alert(
    ruleName: string,
    severityListed: bool,
    eventTime: Stamp,
    status: string,
    expectedResult: Option<string>,
    isClosed: bool,
    closedAt: Stamp,
    closedBy: Option<UserId>,
    closureReason: Option<string>,
    closureResult: Option<string>,
    assessmentCorrect: Option<bool>,
    maliciousEntity: Option<string>,
    feedback: Option<string>,
    answersProvided: bool,
    answersCorrect: bool,
    answersSummary: Option<string>,
    updatedAt: Stamp)

  /** One row of `alert_investigations`: a user's claim on an alert. */
  datatype Investigation = Investigation(alertId: AlertId, userId: UserId, isActive: bool, startedAt: int)

  /** One row of `cases`. */
  datatype Case = Case(
    title: string,
    description: Option<string>,
    priority: int,
    statusId: Option<int>,
    assignedTo: UserId,
    createdBy: UserId,
    alertId: AlertId,
    isClosed: bool,
    closedAt: Stamp)

  /** One row of `case_user_responses`, keyed by (case, user). */
  datatype Response = Response(answers: string, totalPoints: int)

  /** The error responses of the lifecycle handlers. */
  datatype Failure =
    | InvalidParam           // 400: the path id is not a number
    | NotFound               // 404: no such alert or case
    | AlreadyOwnedBySelf     // 400: the caller already holds the alert
    | AlreadyOwnedByOther    // 409: another user holds the alert
    | NoActiveInvestigation  // 404: nothing to release
    | Internal               // 500: the database rejected the statement

  function StatusCode(f: Failure): int {
    match f
    case InvalidParam => 400
    case NotFound => 404
    case AlreadyOwnedBySelf => 400
    case AlreadyOwnedByOther => 409
    case NoActiveInvestigation => 404
    case Internal => 500
  }

  datatype Outcome<T> = Ok(value: T) | Err(failure: Failure)

  // ---------------------------------------------------------------------
  // Closure verdict and points

  /** The closure verdict of close-alert: the submitted result matches the
      alert's expected result after trimming and lower-casing; false when
      either of them is missing or empty. */
  function Verdict(expected: Option<string>, submitted: Option<string>): (r: bool)
    ensures r ==> Truthy(expected) && Truthy(submitted)
    ensures Truthy(expected) && Truthy(submitted) ==> (r <==> SameAnswer(submitted.value, expected.value))
  {
    if Truthy(expected) && Truthy(submitted) then SameAnswer(submitted.value, expected.value)
    else false
  }

  lemma VerdictNeedsBoth(expected: Option<string>, submitted: Option<string>)
    ensures Verdict(expected, submitted) ==> Truthy(expected) && Truthy(submitted)
    ensures Truthy(expected) && Truthy(submitted) && submitted.value == expected.value
            ==> Verdict(expected, submitted)
  {
  }

  /** The verdict is insensitive to case and to whitespace padding of the
      submitted result. */
  lemma VerdictIgnoresCaseAndPadding(expected: Option<string>, lead: string, r: string, trail: string)
    requires AllWhitespace(lead) && AllWhitespace(trail) && r != []
    ensures Verdict(expected, Some(lead + Lower(r) + trail)) == Verdict(expected, Some(r))
  {
    var p := lead + Lower(r) + trail;
    SameAnswerIgnoresPadding(lead, Lower(r), trail);
    SameAnswerIgnoresCase(r);
    assert Normalize(p) == Normalize(r);
    assert Truthy(Some(p)) && Truthy(Some(r));
  }

  /** Points of the closed queue and of the alert detail view. */
  function Points(verdict: Option<bool>): (p: int)
    ensures p == 5 <==> verdict == Some(true)
    ensures p == -2 <==> verdict == Some(false)
    ensures p == 0 <==> verdict.None?
  {
    match verdict
    case Some(true) => 5
    case Some(false) => -2
    case None => 0
  }

  // ---------------------------------------------------------------------
  // Investigation rows

  predicate IsActiveRow(inv: Investigation, a: AlertId, u: UserId) {
    inv.alertId == a && inv.userId == u && inv.isActive
  }

  /** An inactive row of `u` on `a`, which release deletes. */
  predicate IsStaleRow(inv: Investigation, a: AlertId, u: UserId) {
    inv.alertId == a && inv.userId == u && !inv.isActive
  }

  /** `u` holds an active investigation on `a`. */
  predicate ActiveOn(invs: map<RowId, Investigation>, a: AlertId, u: UserId) {
    exists id :: id in invs && IsActiveRow(invs[id], a, u)
  }

  /** Somebody holds an active investigation on `a`. */
  predicate Claimed(invs: map<RowId, Investigation>, a: AlertId) {
    exists id :: id in invs && invs[id].alertId == a && invs[id].isActive
  }

  /** The invariant the claim pre-check keeps: at most one active
      investigation per alert. */
  ghost predicate AtMostOneActive(invs: map<RowId, Investigation>) {
    forall i, j :: (i in invs && j in invs && invs[i].isActive && invs[j].isActive
                    && invs[i].alertId == invs[j].alertId) ==> i == j
  }

  /** The first statement of unassign: the caller's inactive rows on the alert are deleted. */
  function WithoutStale(invs: map<RowId, Investigation>, a: AlertId, u: UserId): map<RowId, Investigation> {
    map id | id in invs && !IsStaleRow(invs[id], a, u) :: invs[id]
  }

  /** The second statement of unassign: the caller's active rows on the alert become inactive. */
  function Deactivated(invs: map<RowId, Investigation>, a: AlertId, u: UserId): map<RowId, Investigation> {
    map id | id in invs :: if IsActiveRow(invs[id], a, u) then invs[id].(isActive := false) else invs[id]
  }

  function Released(invs: map<RowId, Investigation>, a: AlertId, u: UserId): map<RowId, Investigation> {
    Deactivated(WithoutStale(invs, a, u), a, u)
  }

  /** Unassign leaves the caller without an active investigation on the
      alert, keeps exactly the rows of other users or other alerts, and
      keeps the rows it deactivated, now inactive. */
  lemma ReleasedEffect(invs: map<RowId, Investigation>, a: AlertId, u: UserId)
    ensures !ActiveOn(Released(invs, a, u), a, u)
    ensures forall id :: id in invs && (invs[id].alertId != a || invs[id].userId != u)
               ==> id in Released(invs, a, u) && Released(invs, a, u)[id] == invs[id]
    ensures forall id :: id in invs && IsActiveRow(invs[id], a, u)
               ==> id in Released(invs, a, u) && Released(invs, a, u)[id] == invs[id].(isActive := false)
    ensures forall id :: id in Released(invs, a, u) ==> id in invs
    ensures forall id :: id in invs && IsStaleRow(invs[id], a, u) ==> id !in Released(invs, a, u)
  {
  }

  /** Unassign never creates a second active row, and when the caller held
      the alert, the alert is free afterwards: a claim by anyone succeeds. */
  lemma {:induction false} ReleaseFreesAlert(invs: map<RowId, Investigation>, a: AlertId, u: UserId)
    requires AtMostOneActive(invs)
    ensures AtMostOneActive(Released(invs, a, u))
    ensures ActiveOn(invs, a, u) ==> !Claimed(Released(invs, a, u), a)
  {
    var r := Released(invs, a, u);
    forall i, j | i in r && j in r && r[i].isActive && r[j].isActive && r[i].alertId == r[j].alertId
      ensures i == j
    {
      assert r[i] == invs[i] && r[j] == invs[j];
    }
    if ActiveOn(invs, a, u) {
      var k :| k in invs && IsActiveRow(invs[k], a, u);
      if Claimed(r, a) {
        var m :| m in r && r[m].alertId == a && r[m].isActive;
        assert false;
      }
    }
  }

  /** Deactivation of every investigation, the second statement of reset-alerts. */
  function DeactivateAll(invs: map<RowId, Investigation>): (r: map<RowId, Investigation>)
    ensures r.Keys == invs.Keys
    ensures forall id :: id in r ==> !r[id].isActive && r[id].(isActive := true) == invs[id].(isActive := true)
  {
    map id | id in invs :: invs[id].(isActive := false)
  }

  // ---------------------------------------------------------------------
  // Queues

  /** Main queue: open alerts with a listed severity that are not in the
      `NOT IN` subquery of the requester's active investigations. Claims by
      other users do not hide an alert. */
  function MainQueueIds(alerts: map<AlertId, Alert>, invs: map<RowId, Investigation>, u: UserId): (s: set<AlertId>)
    ensures forall a :: a in s <==>
              && a in alerts && !alerts[a].isClosed && alerts[a].severityListed
              && forall id :: id in invs && invs[id].alertId == a && invs[id].userId == u ==> !invs[id].isActive
    ensures forall a :: a in alerts && !alerts[a].isClosed && alerts[a].severityListed && !Claimed(invs, a) ==> a in s
  {
    set a | a in alerts && !alerts[a].isClosed && alerts[a].severityListed && !ActiveOn(invs, a, u)
  }

  /** My queue: open alerts with a listed severity that join an active
      investigation of the requester. */
  function MyQueueIds(alerts: map<AlertId, Alert>, invs: map<RowId, Investigation>, u: UserId): (s: set<AlertId>)
    ensures forall a :: a in s <==>
              && a in alerts && !alerts[a].isClosed && alerts[a].severityListed
              && exists id :: id in invs && invs[id].alertId == a && invs[id].userId == u && invs[id].isActive
    ensures forall a :: a in s ==> Claimed(invs, a)
  {
    set a | a in alerts && !alerts[a].isClosed && alerts[a].severityListed && ActiveOn(invs, a, u)
  }

  /** Closed queue: closed alerts the requester closed. Its joins are outer
      joins, so the severity does not matter. */
  function ClosedQueueIds(alerts: map<AlertId, Alert>, u: UserId): (s: set<AlertId>)
    ensures s <= alerts.Keys
    ensures forall a :: a in s ==> alerts[a].isClosed && alerts[a].closedBy == Some(u)
    ensures forall a :: a in alerts && alerts[a].isClosed && alerts[a].closedBy == Some(u) ==> a in s
  {
    set a | a in alerts && alerts[a].isClosed && alerts[a].closedBy == Some(u)
  }

  /** Every open alert with a listed severity is in exactly one of the
      requester's main queue and my queue; closed alerts and alerts without a
      listed severity are in neither. */
  lemma QueuesPartitionOpenAlerts(alerts: map<AlertId, Alert>, invs: map<RowId, Investigation>, u: UserId)
    ensures MainQueueIds(alerts, invs, u) !! MyQueueIds(alerts, invs, u)
    ensures MainQueueIds(alerts, invs, u) + MyQueueIds(alerts, invs, u)
            == set a | a in alerts && !alerts[a].isClosed && alerts[a].severityListed
    ensures ClosedQueueIds(alerts, u) !! MainQueueIds(alerts, invs, u) + MyQueueIds(alerts, invs, u)
  {
  }

  function EventTimes(alerts: map<AlertId, Alert>): (m: map<AlertId, Stamp>)
    ensures m.Keys == alerts.Keys
  {
    map a | a in alerts :: alerts[a].eventTime
  }

  function ClosedTimes(alerts: map<AlertId, Alert>): (m: map<AlertId, Stamp>)
    ensures m.Keys == alerts.Keys
  {
    map a | a in alerts :: alerts[a].closedAt
  }

  /** `s` lists `members` once each, in `ORDER BY key DESC` order. */
  ghost predicate IsListing(s: seq<AlertId>, members: set<AlertId>, key: map<AlertId, Stamp>) {
    && (forall x :: x in s <==> x in members)
    && (forall i, j :: 0 <= i < j < |s| ==> s[i] != s[j])
    && (forall i, j :: 0 <= i < j < |s| ==> s[i] in key && s[j] in key && PrecedesDesc(key[s[i]], key[s[j]]))
  }

  ghost predicate IsFirst(m: AlertId, members: set<AlertId>, key: map<AlertId, Stamp>)
    requires members <= key.Keys
  {
    m in members && forall x :: x in members ==> PrecedesDesc(key[m], key[x])
  }

  lemma {:induction false} FirstExists(members: set<AlertId>, key: map<AlertId, Stamp>)
    requires members <= key.Keys && members != {}
    ensures exists m :: IsFirst(m, members, key)
    decreases |members|
  {
    var y := PickMember(members);
    var rest := members - {y};
    if rest == {} {
      assert members == {y};
      assert IsFirst(y, members, key);
    } else {
      FirstExists(rest, key);
      var m :| IsFirst(m, rest, key);
      if PrecedesDesc(key[m], key[y]) {
        assert IsFirst(m, members, key);
      } else {
        assert IsFirst(y, members, key);
      }
    }
  }

  /** A listing of `members` in descending `key` order, as `ORDER BY ... DESC`
      returns it (ties in any order). */
  ghost function Listing(members: set<AlertId>, key: map<AlertId, Stamp>): (s: seq<AlertId>)
    requires members <= key.Keys
    ensures IsListing(s, members, key)
    decreases |members|
  {
    if members == {} then []
    else
      FirstExists(members, key);
      var m :| IsFirst(m, members, key);
      var rest := Listing(members - {m}, key);
      assert forall i :: 0 <= i < |rest| ==> rest[i] in members - {m};
      [m] + rest
  }

  /** GET /api/alerts: the main queue by event time, newest first. */
  ghost function MainQueue(alerts: map<AlertId, Alert>, invs: map<RowId, Investigation>, u: UserId): (s: seq<AlertId>)
    ensures forall a :: a in s <==> a in MainQueueIds(alerts, invs, u)
    ensures forall i, j :: 0 <= i < j < |s| ==>
              s[i] != s[j] && s[i] in alerts && s[j] in alerts
              && PrecedesDesc(alerts[s[i]].eventTime, alerts[s[j]].eventTime)
  {
    Listing(MainQueueIds(alerts, invs, u), EventTimes(alerts))
  }

  /** GET /api/investigation-alerts (unfiltered): my queue by event time, newest first. */
  ghost function MyQueue(alerts: map<AlertId, Alert>, invs: map<RowId, Investigation>, u: UserId): (s: seq<AlertId>)
    ensures forall a :: a in s <==> a in MyQueueIds(alerts, invs, u)
    ensures forall i, j :: 0 <= i < j < |s| ==>
              s[i] != s[j] && s[i] in alerts && s[j] in alerts
              && PrecedesDesc(alerts[s[i]].eventTime, alerts[s[j]].eventTime)
  {
    Listing(MyQueueIds(alerts, invs, u), EventTimes(alerts))
  }

  /** GET /api/cases?status=closed: the closed queue by closing time, latest first. */
  ghost function ClosedQueue(alerts: map<AlertId, Alert>, u: UserId): (s: seq<AlertId>)
    ensures forall a :: a in s <==> a in ClosedQueueIds(alerts, u)
    ensures forall i, j :: 0 <= i < j < |s| ==> s[i] != s[j]
  {
    Listing(ClosedQueueIds(alerts, u), ClosedTimes(alerts))
  }

  /** The closed queue holds exactly the requester's closed alerts, each once,
      latest closing first. */
  lemma ClosedQueueOrdered(alerts: map<AlertId, Alert>, u: UserId)
    ensures forall a :: a in ClosedQueue(alerts, u)
              <==> a in alerts && alerts[a].isClosed && alerts[a].closedBy == Some(u)
    ensures forall i, j :: 0 <= i < j < |ClosedQueue(alerts, u)| ==>
              PrecedesDesc(alerts[ClosedQueue(alerts, u)[i]].closedAt, alerts[ClosedQueue(alerts, u)[j]].closedAt)
  {
    var s := ClosedQueue(alerts, u);
    var key := ClosedTimes(alerts);
    forall i, j | 0 <= i < j < |s|
      ensures PrecedesDesc(alerts[s[i]].closedAt, alerts[s[j]].closedAt)
    {
      assert PrecedesDesc(key[s[i]], key[s[j]]);
    }
  }

  // ---------------------------------------------------------------------
  // Row updates

  /** The row close-alert writes: the closing fields, the closer, status
      'Closed', and the submitted fields with empty values stored as NULL. */
  function ClosedAlert(x: Alert, caller: UserId, now: int, reason: Option<string>, result: Option<string>,
                       entity: Option<string>, feedback: Option<string>): (y: Alert)
    ensures y.isClosed && y.closedBy == Some(caller) && y.closedAt == At(now) && y.status == "Closed"
    ensures y.assessmentCorrect == Some(Verdict(x.expectedResult, result))
    ensures y.closureResult.Some? <==> Truthy(result)
    ensures y.ruleName == x.ruleName && y.severityListed == x.severityListed && y.eventTime == x.eventTime
    ensures y.expectedResult == x.expectedResult && y.answersProvided == x.answersProvided
    ensures y.answersCorrect == x.answersCorrect && y.answersSummary == x.answersSummary
  {
    x.(isClosed := true, closedAt := At(now), closedBy := Some(caller), status := "Closed",
       closureReason := OrNull(reason), closureResult := OrNull(result),
       assessmentCorrect := Some(Verdict(x.expectedResult, result)),
       maliciousEntity := OrNull(entity), feedback := OrNull(feedback), updatedAt := At(now))
  }

  /** The second statement of close-alert: every case of the alert is closed. */
  function ClosedCases(cases: map<RowId, Case>, a: AlertId, now: int): (r: map<RowId, Case>)
    ensures r.Keys == cases.Keys
    ensures forall id :: id in r && cases[id].alertId == a ==>
              r[id].isClosed && r[id].closedAt == At(now)
              && r[id].(isClosed := false, closedAt := Null) == cases[id].(isClosed := false, closedAt := Null)
    ensures forall id :: id in r && cases[id].alertId != a ==> r[id] == cases[id]
  {
    map id | id in cases :: if cases[id].alertId == a then cases[id].(isClosed := true, closedAt := At(now)) else cases[id]
  }

  /** The second statement of reopen: every case of the alert is open again. */
  function ReopenedCases(cases: map<RowId, Case>, a: AlertId): (r: map<RowId, Case>)
    ensures r.Keys == cases.Keys
    ensures forall id :: id in r && cases[id].alertId == a ==>
              !r[id].isClosed && r[id].(isClosed := true) == cases[id].(isClosed := true)
    ensures forall id :: id in r && cases[id].alertId != a ==> r[id] == cases[id]
  {
    map id | id in cases :: if cases[id].alertId == a then cases[id].(isClosed := false) else cases[id]
  }

  /** The row reset-alerts writes on a closed alert. */
  function ResetAlert(x: Alert, now: int): Alert {
    x.(isClosed := false, status := "Open", closedAt := Null, closedBy := None,
       closureReason := None, closureResult := None, expectedResult := None,
       assessmentCorrect := None, answersProvided := false, answersCorrect := false,
       answersSummary := None, maliciousEntity := None, feedback := None, updatedAt := At(now))
  }

  function ResetAlerts(alerts: map<AlertId, Alert>, now: int): (r: map<AlertId, Alert>)
    ensures r.Keys == alerts.Keys
    ensures forall a :: a in r ==> !r[a].isClosed && r[a].ruleName == alerts[a].ruleName
                                   && r[a].severityListed == alerts[a].severityListed
                                   && r[a].eventTime == alerts[a].eventTime
    ensures forall a :: a in r && alerts[a].isClosed ==>
              && r[a].status == "Open" && r[a].closedBy.None? && r[a].closedAt == Null
              && r[a].expectedResult.None? && r[a].assessmentCorrect.None? && r[a].closureResult.None?
              && !r[a].answersProvided && !r[a].answersCorrect && r[a].answersSummary.None?
              && r[a].closureReason.None? && r[a].maliciousEntity.None? && r[a].feedback.None?
              && r[a].updatedAt == At(now)
    ensures forall a :: a in r && !alerts[a].isClosed ==> r[a] == alerts[a]
  {
    map a | a in alerts :: if alerts[a].isClosed then ResetAlert(alerts[a], now) else alerts[a]
  }

  /** Closing an alert takes it out of every main queue and every my queue
      and puts it in the closer's closed queue, and in nobody else's; a
      closed alert always scores 5 or -2. */
  lemma CloseMovesToClosedQueue(alerts: map<AlertId, Alert>, invs: map<RowId, Investigation>, a: AlertId,
                                caller: UserId, now: int, reason: Option<string>, result: Option<string>,
                                entity: Option<string>, feedback: Option<string>, u: UserId)
    requires a in alerts
    ensures var after := alerts[a := ClosedAlert(alerts[a], caller, now, reason, result, entity, feedback)];
            && a !in MainQueueIds(after, invs, u)
            && a !in MyQueueIds(after, invs, u)
            && (a in ClosedQueueIds(after, u) <==> u == caller)
            && Points(after[a].assessmentCorrect) != 0
  {
  }

  /** Reopen clears only `is_closed`: the closer, the status and the closure
      fields stay, and the alert goes back to the closer's my queue when the
      closer's investigation is still active (and to the main queue of every
      user without one), not to the closed queue. */
  lemma ReopenAfterClose(alerts: map<AlertId, Alert>, invs: map<RowId, Investigation>, a: AlertId,
                         caller: UserId, now: int, reason: Option<string>, result: Option<string>,
                         entity: Option<string>, feedback: Option<string>)
    requires a in alerts
    ensures var closed := ClosedAlert(alerts[a], caller, now, reason, result, entity, feedback);
            var after := alerts[a := closed.(isClosed := false)];
            && after[a].closedBy == Some(caller) && after[a].status == "Closed"
            && after[a].closureResult == OrNull(result)
            && (a in MyQueueIds(after, invs, caller) <==> ActiveOn(invs, a, caller) && alerts[a].severityListed)
            && (forall u :: !ActiveOn(invs, a, u) && alerts[a].severityListed ==> a in MainQueueIds(after, invs, u))
            && a !in ClosedQueueIds(after, caller)
  {
  }

  /** After reset-alerts every alert with a listed severity is in every
      user's main queue, and my queue and the closed queue are empty. */
  lemma ResetEmptiesQueues(alerts: map<AlertId, Alert>, invs: map<RowId, Investigation>, now: int, u: UserId)
    ensures MainQueueIds(ResetAlerts(alerts, now), DeactivateAll(invs), u)
            == set a | a in alerts && alerts[a].severityListed
    ensures MyQueueIds(ResetAlerts(alerts, now), DeactivateAll(invs), u) == {}
    ensures ClosedQueueIds(ResetAlerts(alerts, now), u) == {}
  {
    var after := ResetAlerts(alerts, now);
    var invs' := DeactivateAll(invs);
    forall a | a in alerts && alerts[a].severityListed ensures a in MainQueueIds(after, invs', u) {
      assert !after[a].isClosed;
      assert !ActiveOn(invs', a, u);
    }
    assert forall a :: a in after ==> !after[a].isClosed;
  }

  /** A reset alert has no expected result, so closing it afterwards always
      records the verdict false (-2 points), whatever is submitted. */
  lemma CloseAfterResetIsIncorrect(x: Alert, now: int, caller: UserId, later: int, reason: Option<string>,
                                   result: Option<string>, entity: Option<string>, feedback: Option<string>)
    ensures var y := ClosedAlert(ResetAlert(x, now), caller, later, reason, result, entity, feedback);
            y.assessmentCorrect == Some(false) && Points(y.assessmentCorrect) == -2
  {
  }

  /** A claim hides the alert from the claimer's main queue only: every
      other user's main queue is unchanged. */
  lemma ClaimHidesOnlyFromClaimer(alerts: map<AlertId, Alert>, invs: map<RowId, Investigation>, id: RowId,
                                  a: AlertId, caller: UserId, now: int, u: UserId)
    requires id !in invs && a in alerts && !alerts[a].isClosed
    ensures var after := invs[id := Investigation(a, caller, true, now)];
            && a !in MainQueueIds(alerts, after, caller)
            && (a in MyQueueIds(alerts, after, caller) <==> alerts[a].severityListed)
            && (u != caller ==> MainQueueIds(alerts, after, u) == MainQueueIds(alerts, invs, u))
  {
    var after := invs[id := Investigation(a, caller, true, now)];
    assert IsActiveRow(after[id], a, caller);
    if u != caller {
      forall b | b in alerts ensures ActiveOn(after, b, u) <==> ActiveOn(invs, b, u) {
        if ActiveOn(after, b, u) {
          var k :| k in after && IsActiveRow(after[k], b, u);
          assert k != id && k in invs;
        }
        if ActiveOn(invs, b, u) {
          var k :| k in invs && IsActiveRow(invs[k], b, u);
          assert k in after && after[k] == invs[k];
        }
      }
    }
  }

  /** The status row escalation links a case to: a `case_status` row named
      'open' in any letter case (`ILIKE 'open'`). */
  predicate IsOpenStatus(name: string) {
    Lower(name) == "open"
  }

  /** The case create-case inserts, with the body's defaults applied. */
  function NewCase(a: AlertId, caller: UserId, title: Option<string>, description: Option<string>,
                   priority: Option<int>, assignedTo: Option<int>, statusId: Option<int>): Case
  {
    Case(
      title := if Truthy(title) then title.value else "Case for alert " + Decimal(a),
      description := OrNull(description),
      priority := if priority.Some? && priority.value != 0 then priority.value else 3,
      statusId := statusId,
      assignedTo := if assignedTo.Some? && assignedTo.value != 0 then assignedTo.value else caller,
      createdBy := caller,
      alertId := a,
      isClosed := false,
      closedAt := Null)
  }

  /** With every optional field omitted, the case is titled "Case for alert N",
      has priority 3, no description, and is assigned to and created by the
      caller; supplied values are kept. */
  lemma NewCaseDefaults(a: AlertId, caller: UserId, statusId: Option<int>, title: string, priority: int, assignee: int)
    ensures var c := NewCase(a, caller, None, None, None, None, statusId);
            && c.title == "Case for alert " + Decimal(a) && c.priority == 3 && c.description.None?
            && c.assignedTo == caller && c.createdBy == caller && c.alertId == a && !c.isClosed
    ensures var c := NewCase(a, caller, Some(title), None, Some(priority), Some(assignee), statusId);
            && (title != "" ==> c.title == title)
            && (priority != 0 ==> c.priority == priority)
            && (assignee != 0 ==> c.assignedTo == assignee)
  {
  }

  // ---------------------------------------------------------------------
  // The store

  class Store {
    var alerts: map<AlertId, Alert>
    var investigations: map<RowId, Investigation>
    var nextInvestigationId: RowId
    var cases: map<RowId, Case>
    var nextCaseId: RowId
    var caseStatuses: map<int, string>
    var responses: map<(RowId, UserId), Response>

    /** Serial ids are fresh, and at most one investigation per alert is active. */
    ghost predicate Valid()
      reads this
    {
      && (forall id :: id in investigations ==> id < nextInvestigationId)
      && (forall id :: id in cases ==> id < nextCaseId)
      && AtMostOneActive(investigations)
    }

    constructor (alerts: map<AlertId, Alert>, caseStatuses: map<int, string>)
      ensures Valid()
      ensures this.alerts == alerts && this.caseStatuses == caseStatuses
      ensures investigations == map[] && cases == map[] && responses == map[]
    {
      this.alerts := alerts;
      this.caseStatuses := caseStatuses;
      investigations, cases, responses := map[], map[], map[];
      nextInvestigationId, nextCaseId := 0, 0;
    }

    /** POST /api/alerts/:alertId/start-investigation. */
    method Claim(param: Option<AlertId>, caller: UserId, now: int) returns (r: Outcome<RowId>)
      requires Valid()
      modifies this
      ensures Valid()
      ensures param.None? ==> r == Err(Internal)
      ensures param.Some? && param.value !in old(alerts) ==> r == Err(NotFound)
      ensures param.Some? && param.value in old(alerts) ==>
                && (ActiveOn(old(investigations), param.value, caller) <==> r == Err(AlreadyOwnedBySelf))
                && (Claimed(old(investigations), param.value) && !ActiveOn(old(investigations), param.value, caller)
                    <==> r == Err(AlreadyOwnedByOther))
                && (!Claimed(old(investigations), param.value) <==> r.Ok?)
      ensures r.Err? ==> unchanged(this)
      ensures r.Ok? ==>
                && r.value == old(nextInvestigationId)
                && investigations == old(investigations)[r.value := Investigation(param.value, caller, true, now)]
                && nextInvestigationId == old(nextInvestigationId) + 1
                && alerts == old(alerts) && cases == old(cases) && nextCaseId == old(nextCaseId)
                && caseStatuses == old(caseStatuses) && responses == old(responses)
      ensures r.Ok? ==> param.value !in MainQueueIds(alerts, investigations, caller)
                        && (param.value in MyQueueIds(alerts, investigations, caller)
                            <==> !alerts[param.value].isClosed && alerts[param.value].severityListed)
    {
      if param.None? {
        return Err(Internal);
      }
      var a := param.value;
      if a !in alerts {
        return Err(NotFound);
      }
      if Claimed(investigations, a) {
        var k :| k in investigations && investigations[k].alertId == a && investigations[k].isActive;
        if investigations[k].userId == caller {
          return Err(AlreadyOwnedBySelf);
        }
        assert !ActiveOn(investigations, a, caller);
        return Err(AlreadyOwnedByOther);
      }
      var id := nextInvestigationId;
      investigations := investigations[id := Investigation(a, caller, true, now)];
      nextInvestigationId := nextInvestigationId + 1;
      assert IsActiveRow(investigations[id], a, caller);
      r := Ok(id);
    }

    /** POST /api/alerts/:alertId/unassign: the deletion of the caller's
        inactive rows is committed even when nothing is then deactivated. */
    method Release(param: Option<AlertId>, caller: UserId) returns (r: Outcome<RowId>)
      requires Valid()
      modifies this
      ensures Valid()
      ensures param.None? ==> r == Err(Internal) && unchanged(this)
      ensures param.Some? ==>
                && investigations == Released(old(investigations), param.value, caller)
                && (r.Ok? <==> ActiveOn(old(investigations), param.value, caller))
                && (r.Err? ==> r == Err(NoActiveInvestigation))
                && (r.Ok? ==> r.value in old(investigations)
                              && IsActiveRow(old(investigations)[r.value], param.value, caller))
                && alerts == old(alerts) && cases == old(cases) && responses == old(responses)
                && nextInvestigationId == old(nextInvestigationId) && nextCaseId == old(nextCaseId)
                && caseStatuses == old(caseStatuses)
    {
      if param.None? {
        return Err(Internal);
      }
      var a := param.value;
      ReleaseFreesAlert(investigations, a, caller);
      assert ActiveOn(WithoutStale(investigations, a, caller), a, caller) <==> ActiveOn(investigations, a, caller) by {
        if ActiveOn(investigations, a, caller) {
          var k :| k in investigations && IsActiveRow(investigations[k], a, caller);
          assert k in WithoutStale(investigations, a, caller);
        }
      }
      investigations := WithoutStale(investigations, a, caller);
      if ActiveOn(investigations, a, caller) {
        var k :| k in investigations && IsActiveRow(investigations[k], a, caller);
        r := Ok(k);
      } else {
        r := Err(NoActiveInvestigation);
      }
      investigations := Deactivated(investigations, a, caller);
    }

    /** POST /api/alerts/:alertId/create-case: no ownership check and no
        check for an existing case of the alert. */
    method Escalate(param: Option<AlertId>, caller: UserId, title: Option<string>, description: Option<string>,
                    priority: Option<int>, assignedTo: Option<int>, now: int) returns (r: Outcome<RowId>)
      requires Valid()
      modifies this
      ensures Valid()
      ensures param.None? ==> r == Err(InvalidParam)
      ensures param.Some? && param.value !in old(alerts) ==> r == Err(NotFound)
      ensures r.Err? ==> unchanged(this)
      ensures param.Some? && param.value in old(alerts) ==> r.Ok?
      ensures r.Ok? ==>
                && r.value == old(nextCaseId) && nextCaseId == old(nextCaseId) + 1
                && r.value in cases && cases == old(cases)[r.value := cases[r.value]]
                && cases[r.value] == NewCase(param.value, caller, title, description, priority, assignedTo,
                                             cases[r.value].statusId)
                && (cases[r.value].statusId.Some? <==> exists s :: s in caseStatuses && IsOpenStatus(caseStatuses[s]))
                && (cases[r.value].statusId.Some? ==>
                      cases[r.value].statusId.value in caseStatuses
                      && IsOpenStatus(caseStatuses[cases[r.value].statusId.value]))
                && alerts == old(alerts)[param.value := old(alerts)[param.value].(status := "Under Investigation",
                                                                                updatedAt := At(now))]
                && investigations == old(investigations) && nextInvestigationId == old(nextInvestigationId)
                && responses == old(responses) && caseStatuses == old(caseStatuses)
    {
      if param.None? {
        return Err(InvalidParam);
      }
      var a := param.value;
      if a !in alerts {
        return Err(NotFound);
      }
      var statusId: Option<int> := None;
      if exists s :: s in caseStatuses && IsOpenStatus(caseStatuses[s]) {
        var s :| s in caseStatuses && IsOpenStatus(caseStatuses[s]);
        statusId := Some(s);
      }
      var id := nextCaseId;
      cases := cases[id := NewCase(a, caller, title, description, priority, assignedTo, statusId)];
      nextCaseId := nextCaseId + 1;
      alerts := alerts[a := alerts[a].(status := "Under Investigation", updatedAt := At(now))];
      assert statusId.Some? <==> exists s :: s in caseStatuses && IsOpenStatus(caseStatuses[s]);
      r := Ok(id);
    }

    /** POST /api/alerts/:alertId/close-alert: ownership is not checked and
        investigation rows are left as they are. */
    method Close(param: Option<AlertId>, caller: UserId, reason: Option<string>, result: Option<string>,
                 entity: Option<string>, feedback: Option<string>, now: int) returns (r: Outcome<Alert>)
      requires Valid()
      modifies this
      ensures Valid()
      ensures param.None? ==> r == Err(InvalidParam)
      ensures param.Some? && param.value !in old(alerts) ==> r == Err(NotFound)
      ensures r.Err? ==> unchanged(this)
      ensures param.Some? && param.value in old(alerts) ==> r.Ok?
      ensures r.Ok? ==>
                && r.value == ClosedAlert(old(alerts)[param.value], caller, now, reason, result, entity, feedback)
                && alerts == old(alerts)[param.value := r.value]
                && cases == ClosedCases(old(cases), param.value, now)
                && investigations == old(investigations) && responses == old(responses)
                && nextInvestigationId == old(nextInvestigationId) && nextCaseId == old(nextCaseId)
                && caseStatuses == old(caseStatuses)
      ensures r.Ok? ==> r.value.isClosed && r.value.closedBy == Some(caller)
                        && r.value.assessmentCorrect == Some(Verdict(old(alerts)[param.value].expectedResult, result))
                        && (forall id :: id in cases && cases[id].alertId == param.value ==> cases[id].isClosed)
    {
      if param.None? {
        return Err(InvalidParam);
      }
      var a := param.value;
      if a !in alerts {
        return Err(NotFound);
      }
      var closed := ClosedAlert(alerts[a], caller, now, reason, result, entity, feedback);
      alerts := alerts[a := closed];
      cases := ClosedCases(cases, a, now);
      r := Ok(closed);
    }

    /** PATCH /api/cases/:alertId/reopen: clears `is_closed` on the alert and
        its cases and nothing else; a missing alert is a silent success. */
    method Reopen(param: Option<AlertId>) returns (r: Outcome<()>)
      requires Valid()
      modifies this
      ensures Valid()
      ensures param.None? ==> r == Err(Internal) && unchanged(this)
      ensures param.Some? ==>
                && r == Ok(())
                && alerts == (if param.value in old(alerts)
                              then old(alerts)[param.value := old(alerts)[param.value].(isClosed := false)]
                              else old(alerts))
                && cases == ReopenedCases(old(cases), param.value)
                && investigations == old(investigations) && responses == old(responses)
                && nextInvestigationId == old(nextInvestigationId) && nextCaseId == old(nextCaseId)
                && caseStatuses == old(caseStatuses)
    {
      if param.None? {
        return Err(Internal);
      }
      var a := param.value;
      if a in alerts {
        alerts := alerts[a := alerts[a].(isClosed := false)];
      }
      cases := ReopenedCases(cases, a);
      r := Ok(());
    }

    /** POST /api/reset-alerts, one transaction: every closed alert is
        reopened with its closure fields cleared, and no investigation stays active. */
    method BulkReset(now: int)
      requires Valid()
      modifies this
      ensures Valid()
      ensures alerts == ResetAlerts(old(alerts), now)
      ensures investigations == DeactivateAll(old(investigations))
      ensures cases == old(cases) && responses == old(responses) && caseStatuses == old(caseStatuses)
      ensures nextInvestigationId == old(nextInvestigationId) && nextCaseId == old(nextCaseId)
      ensures forall a :: a in alerts ==> !alerts[a].isClosed
      ensures forall a :: a in old(alerts) && !old(alerts)[a].isClosed ==> alerts[a] == old(alerts)[a]
      ensures forall id :: id in investigations ==> !investigations[id].isActive
    {
      alerts := ResetAlerts(alerts, now);
      investigations := DeactivateAll(investigations);
    }

    /** POST /api/cases/:caseId/answers: insert, or overwrite on the
        (case, user) conflict; one response per user and case. */
    method UpsertAnswers(param: Option<RowId>, caller: UserId, answers: Option<string>, totalPoints: Option<int>)
      returns (r: Outcome<()>)
      requires Valid()
      modifies this
      ensures Valid()
      ensures param.None? ==> r == Err(InvalidParam)
      ensures param.Some? && param.value !in old(cases) ==> r == Err(NotFound)
      ensures r.Err? ==> unchanged(this)
      ensures param.Some? && param.value in old(cases) ==>
                && r == Ok(())
                && responses == old(responses)[(param.value, caller) :=
                     Response(if answers.Some? then answers.value else "{}", totalPoints.GetOr(0))]
                && alerts == old(alerts) && cases == old(cases) && investigations == old(investigations)
                && nextInvestigationId == old(nextInvestigationId) && nextCaseId == old(nextCaseId)
                && caseStatuses == old(caseStatuses)
    {
      if param.None? {
        return Err(InvalidParam);
      }
      var c := param.value;
      if c !in cases {
        return Err(NotFound);
      }
      responses := responses[(c, caller) := Response(if answers.Some? then answers.value else "{}", totalPoints.GetOr(0))];
      r := Ok(());
    }
  }
}
