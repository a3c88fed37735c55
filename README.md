# ProvingGrounds alert lifecycle, in Dafny

ProvingGrounds is a training application for security-operations analysts.
Alerts wait in a main queue. An analyst claims an alert, which moves it to
their own queue ("my queue"). The analyst may escalate it to a case, answer a
scenario of questions about it, and close it with a verdict. Closed alerts are
listed in the analyst's closed queue with points for the verdict. A reset
reopens everything. Beside the lifecycle sit:

- a log browser (server-side search with paging),
- a threat-intelligence lookup that classifies a query as an IP address, a
  domain or a file hash and tallies the engines that flag it,
- the registration form with its password requirements.

This project models that core and proves what it promises:

- `base.dfy`: optional values, the SQL timestamps a queue is ordered by, and
  JavaScript truthiness of strings (`x || null`).
- `text.dfy`: the JavaScript string operations the core relies on. These are
  `trim` (with its whole whitespace set), ASCII `toLowerCase`, `includes`, and
  the decimal rendering of an integer in a template literal.
- `lifecycle.dfy`: the backend handlers over the `alerts`,
  `alert_investigations`, `cases` and `case_user_responses` tables.
  - They are methods of a `Store` class whose fields are those tables, as maps
    from row id to row.
  - Each handler is one atomic step. A failed request leaves the store
    unchanged, except unassign: its 404 keeps the deletion of the caller's
    inactive rows.
  - Beside the handlers: the closure verdict, the points, and the three queues
    as functions of the tables.
- `logs.dfy`: `GET /api/logs`. It covers page and limit clamping, the field
  allow-list, the operator-to-pattern mapping, and the `LIMIT`/`OFFSET`
  placeholder numbering. A model of SQL `LIKE` states what a search selects.
- `threat_intel.dfy`: the query classifier of the VirusTotal scan route, and the
  loop that tallies malicious engine verdicts.
- `pager.dfy`: the page arithmetic of the log browser and its button row, and
  the component state its handlers change.
- `scenario.dfy`: the investigation panel. It covers scenario selection by rule
  name, the branching question walk, the answer summary, and the create-case
  and close requests the panel sends.
- `register.dfy`: the password requirements, the live handlers of the
  registration form, and the order in which a submission is checked.

Behaviours of the code that a reader may not expect, each proved about the
model:

- Reopening an alert clears only `is_closed` on the alert and its cases. The
  closer, the status `'Closed'` and the closure fields stay. So
  `Lifecycle.ReopenAfterClose` proves the alert returns to the closer's my
  queue while their investigation is active.
- The main queue hides an alert only from the user who claimed it. Other
  users still see it (`Lifecycle.ClaimHidesOnlyFromClaimer`).
- The main queue and my queue join `severity_levels` with an inner join, so
  an open alert whose severity is not listed there is in neither. The closed
  queue uses a left join and lists it. The model records this as the
  `severityListed` field of an alert.
- Escalation checks neither ownership nor an existing case of the alert, and
  closing does not check ownership.
- The close handler reads only `reason`, `result`, `malicious_entity` and
  `feedback` from the body. The answer summary and `answers_correct` that the
  panel sends are ignored.
- The panel never resets `currentScenario` after a walk. Closing is therefore
  refused once any scenario with questions was opened, and a close request can
  only carry an empty summary with `answers_correct` true
  (`Scenario.InvestigationPanel.CloseNeedsEmptyScenario`,
  `Scenario.WalkThenClose`).
- A `limit` of 0 falls back to 10, while a negative limit becomes 1
  (`LogQuery.ClampParam`).
- The special-character class of the password check contains the range `+-=`,
  that is every character from `+` to `=`. So any digit also meets the special
  requirement (`Register.DigitMeetsSpecial`).
- The IP pattern has no range check on its groups
  (`ThreatIntel.IpWithoutRangeCheck`). The three patterns are pairwise
  disjoint, so the order in which they are tried changes nothing
  (`ThreatIntel.PatternsAreDisjoint`).

A path parameter that `parseInt` cannot read is modelled as `None`. Where a
handler tests `isNaN` (create-case, close-alert, answers), it answers such a
request with 400. The other handlers (start-investigation, unassign, reopen)
pass the raw text to the database, and a text the database cannot read gives
500. The three `isNaN` handlers pass the number `parseInt` read, so `12abc`
reaches the database as 12. A number too large for the id column would give
500 from the database. Ids are unbounded here, so that case is not modelled.
Times are abstract integers, and `NULL` timestamps sort first under
`ORDER BY ... DESC`, as in PostgreSQL.

## Model

| member | source | states |
|---|---|---|
| `Base.OrNull` | backend/server.js:858-862 | `x \|\| null`: a value is stored exactly when it is a non-empty string, and then unchanged |
| `Text.Trim` | backend/server.js:835-836 | the result has no JavaScript whitespace at either end and is no longer than the input |
| `Text.TrimPadded` | src/features/playground/InvestigationCases.js:75 | trimming whitespace padding around a trimmed core gives back exactly the core |
| `Text.TrimDecompose` | backend/server.js:835-836 | every text is its trimmed form between a whitespace prefix and a whitespace suffix, so trimming removes only padding |
| `Text.TrimIdempotent` | backend/server.js:835-836 | trimming twice is trimming once |
| `Text.Lower` | backend/server.js:835-836 | `toLowerCase` keeps the length and lowers each character in place |
| `Text.LowerIdempotent` | backend/server.js:835-836 | lower-casing twice is lower-casing once |
| `Text.NormalizeIdempotent` | backend/server.js:835-836 | trim-then-lower is idempotent |
| `Text.TrimLowerCommute` | backend/server.js:835-836 | trimming and lower-casing commute |
| `Text.SameAnswerIgnoresPadding` | src/features/playground/InvestigationCases.js:75 | an answer padded with whitespace is the same answer |
| `Text.SameAnswerIgnoresCase` | src/features/playground/InvestigationCases.js:75 | an answer in lower case is the same answer |
| `Text.IncludesCorrect` | src/features/playground/InvestigationCases.js:178 | `s.includes(sub)` holds exactly when `sub` occurs at some position of `s` |
| `Text.DecimalNat` | backend/server.js:774 | the decimal rendering of a natural number is all digits, has no leading zero and reads back as the number |
| `Text.Decimal` | backend/server.js:561 | the rendering of an integer starts with `-` exactly when the integer is negative; a natural number renders as digits that read back as the number, and a negative one as `-` followed by digits that read back as its magnitude |
| `Lifecycle.Verdict` | backend/server.js:832-837 | the verdict holds only when both the expected and the submitted result are non-empty, and then exactly when they agree up to padding and case |
| `Lifecycle.VerdictNeedsBoth` | backend/server.js:832-837 | the verdict is false unless both the expected and the submitted result are non-empty, and true when they are equal |
| `Lifecycle.VerdictIgnoresCaseAndPadding` | backend/server.js:833-836 | the verdict does not change when the submitted result is lower-cased and padded with whitespace |
| `Lifecycle.Points` | backend/server.js:513-517 | 5 points exactly for a correct verdict, -2 exactly for an incorrect one, 0 exactly for none |
| `Lifecycle.ReleasedEffect` | backend/server.js:698-720 | after unassign the caller holds no active investigation on the alert; other users' and other alerts' rows are kept unchanged; the caller's active rows are kept but inactive; the caller's inactive rows are deleted; no row is added |
| `Lifecycle.ReleaseFreesAlert` | backend/server.js:698-720 | unassign keeps at most one active investigation per alert, and an alert the caller held is claimed by nobody afterwards |
| `Lifecycle.MainQueueIds` | backend/server.js:378-391 | the main queue holds exactly the open alerts with a listed severity on which the requester has no active investigation; an open, listed alert claimed by nobody is in everyone's |
| `Lifecycle.MyQueueIds` | backend/server.js:440-450 | my queue holds exactly the open alerts with a listed severity on which the requester has an active investigation, so each is claimed |
| `Lifecycle.ClosedQueueIds` | backend/server.js:946-949 | the closed queue holds exactly the closed alerts whose closer is the requester, whatever their severity |
| `Lifecycle.Listing` | backend/server.js:421 | the listing of a set of alerts holds each member once and nothing else, in `ORDER BY ... DESC` order of the given key |
| `Lifecycle.MainQueue` | backend/server.js:421 | the main queue as listed: exactly its alerts, each once, latest event first |
| `Lifecycle.MyQueue` | backend/server.js:474 | my queue as listed: exactly its alerts, each once, latest event first |
| `Lifecycle.ClosedQueue` | backend/server.js:950 | the closed queue as listed: exactly its alerts, each once |
| `Lifecycle.QueuesPartitionOpenAlerts` | backend/server.js:378-391 | each open alert with a listed severity is in exactly one of the requester's main queue and my queue; closed and unlisted alerts are in neither |
| `Lifecycle.FirstExists` | backend/server.js:950 | every non-empty set of alerts has a first element under `ORDER BY ... DESC` |
| `Lifecycle.ClosedQueueOrdered` | backend/server.js:948-950 | the closed queue lists exactly the alerts the requester closed, latest closing first |
| `Lifecycle.CloseMovesToClosedQueue` | backend/server.js:840-865 | a closed alert leaves every main queue and my queue, enters the closer's closed queue and no other, and scores 5 or -2 |
| `Lifecycle.ReopenAfterClose` | backend/server.js:894-912 | after close then reopen, the closer, the status and the closure result remain; the alert is back in the closer's my queue exactly while their investigation is active and its severity is listed, in the main queue of every user without one when its severity is listed, and out of the closed queue |
| `Lifecycle.ResetEmptiesQueues` | backend/server.js:1164-1203 | after reset every alert with a listed severity is in every user's main queue and no other alert is, and every my queue and closed queue is empty |
| `Lifecycle.CloseAfterResetIsIncorrect` | backend/server.js:833 | a reset alert has no expected result, so closing it records verdict false and -2 points whatever is submitted |
| `Lifecycle.ClaimHidesOnlyFromClaimer` | backend/server.js:378-391 | a new claim takes the alert out of the claimer's main queue, puts it in their my queue exactly when its severity is listed, and leaves every other user's main queue unchanged |
| `Lifecycle.ClosedAlert` | backend/server.js:840-865 | the closing row: closed by the caller at that time with status 'Closed', the verdict recorded, the result stored exactly when non-empty, and the rule, severity, event time, expected result and answer fields kept |
| `Lifecycle.ClosedCases` | backend/server.js:868-875 | every case of the alert is closed at that time with its other fields kept, and every other case is unchanged |
| `Lifecycle.ReopenedCases` | backend/server.js:903-906 | every case of the alert has `is_closed` cleared and nothing else changed, and every other case is unchanged |
| `Lifecycle.ResetAlerts` | backend/server.js:1168-1187 | no alert is closed afterwards; each closed alert is reopened with status 'Open' and every closure, expected-result and answer field cleared; open alerts are unchanged; rule, severity and event time are kept |
| `Lifecycle.DeactivateAll` | backend/server.js:1190-1194 | every investigation is inactive afterwards, with its other fields kept, and none is added or removed |
| `Lifecycle.NewCaseDefaults` | backend/server.js:773-778 | a case with no optional fields gets the title "Case for alert N", priority 3, no description, and the caller as assignee and creator; supplied non-empty values are kept |
| `Lifecycle.Store.Claim` | backend/server.js:635-684 | a missing alert gives 404; the caller's own active claim gives 400 and another user's gives 409, with nothing changed; otherwise exactly one active investigation (alert, caller) is added under a fresh id and nothing else changes, and the alert is in the caller's my queue exactly when it is open with a listed severity |
| `Lifecycle.Store.Release` | backend/server.js:692-729 | the caller's inactive rows are deleted, then their active row is deactivated; 404 when nothing was active, with the deletion kept; the other tables are unchanged |
| `Lifecycle.Store.Escalate` | backend/server.js:737-801 | a missing alert gives 404 with nothing changed; otherwise exactly one case is added with the defaults applied and an 'open' status when one exists, and the alert becomes 'Under Investigation' |
| `Lifecycle.Store.Close` | backend/server.js:808-885 | a missing alert gives 404 with nothing changed; otherwise the alert is closed by the caller with the verdict and the submitted fields (empty as NULL), every case of the alert is closed, and investigations are untouched |
| `Lifecycle.Store.Reopen` | backend/server.js:894-912 | only `is_closed` is cleared, on the alert and on its cases; a missing alert is a silent success |
| `Lifecycle.Store.BulkReset` | backend/server.js:1164-1203 | every closed alert becomes open with its closure fields cleared, open alerts stay as they were, and no investigation is active afterwards |
| `Lifecycle.Store.UpsertAnswers` | backend/server.js:1104-1133 | a missing case gives 404 with nothing changed; otherwise the (case, caller) response is inserted or overwritten, with defaults `{}` and 0 |
| `LogQuery.ClampParam` | backend/server.js:548-549 | the result is at least 1; a value of at least 1 is kept, a missing or zero value falls back to the default, and a negative value becomes 1 |
| `LogQuery.PageWindow` | backend/server.js:548-550 | page and limit are at least 1, and the offset is the exact multiple `(page - 1) * limit` of the limit |
| `LogQuery.PagesAreAdjacent` | backend/server.js:550 | page p + 1 starts exactly where page p ends |
| `LogQuery.BuildFilter` | backend/server.js:552-572 | there is a WHERE clause exactly when the field is allowed and the value non-empty; it compares the column (`event_id` cast to text) by equality exactly for `equals`, and binds one parameter |
| `LogQuery.BuildListQuery` | backend/server.js:579-586 | the filter parameters come first, and the LIMIT and OFFSET placeholders name the two parameters after them, bound to the limit and the offset |
| `LogQuery.PlaceholdersResolve` | backend/server.js:579-594 | without a filter LIMIT and OFFSET are `$1` and `$2`; with one, `$1` is the filter value and they are `$2` and `$3` |
| `LogQuery.LikeLiteral` | backend/server.js:563 | a pattern without wildcards matches only itself |
| `LogQuery.LikePrefix` | backend/server.js:567 | `v%` matches exactly the texts that start with `v` |
| `LogQuery.LikeLeadingPercent` | backend/server.js:568 | `%q` matches exactly when `q` matches some suffix |
| `LogQuery.LikeSuffix` | backend/server.js:568 | `%v` matches exactly the texts that end with `v` |
| `LogQuery.LikeContains` | backend/server.js:566 | `%v%` matches exactly the texts that contain `v` |
| `LogQuery.SearchMeaning` | backend/server.js:552-572 | for an allowed field and a non-empty value, a row is selected exactly when its column equals the value, or (case-insensitively) starts with, ends with or contains it as the operator says; otherwise every row is selected |
| `ThreatIntel.SplitDots` | backend/server.js:1024 | splitting at dots gives at least one piece |
| `ThreatIntel.JoinSplit` | backend/server.js:1024 | joining the pieces with dots gives back the text |
| `ThreatIntel.SplitJoin` | backend/server.js:1024 | splitting dot-free pieces joined with dots gives back the pieces |
| `ThreatIntel.IsIpCorrect` | backend/server.js:1024 | the IP test holds exactly for four dot-separated groups of one to three digits |
| `ThreatIntel.IpHasDots` | backend/server.js:1024 | every accepted IP contains a dot |
| `ThreatIntel.IpWithoutRangeCheck` | backend/server.js:1024 | `999.999.999.999` is accepted as an IP |
| `ThreatIntel.TrailingLetters` | backend/server.js:1025 | the count is the length of the longest run of letters ending the text |
| `ThreatIntel.IsDomainCorrect` | backend/server.js:1025 | the domain test holds exactly for a non-empty run of letters, digits, dots and hyphens, a dot, then two or more letters |
| `ThreatIntel.PatternsAreDisjoint` | backend/server.js:1024-1026 | no query is both an IP and a domain, an IP and a hash, or a domain and a hash |
| `ThreatIntel.Classify` | backend/server.js:1005-1039 | a missing query gives 400, then a missing key 500; otherwise the kind is IP, domain or file exactly when the query has that shape, the URL is the kind's prefix followed by the query, and anything else is rejected as an invalid format |
| `ThreatIntel.MaliciousEntries` | backend/server.js:338-339 | the malicious entries are entries of the results, each flagged malicious |
| `ThreatIntel.EntriesMap` | backend/server.js:341-345 | the map has a key exactly for each engine of the entries |
| `ThreatIntel.Tally` | backend/server.js:338-347 | the loop counts the malicious entries and maps each of their engines to its verdict |
| `ThreatIntel.MaliciousDistinct` | backend/server.js:338-347 | with distinct engines the malicious entries have distinct engines too |
| `ThreatIntel.EntriesMapValues` | backend/server.js:341-345 | with distinct engines the map has one key per entry, mapped to that entry's verdict |
| `ThreatIntel.TallyReport` | backend/server.js:338-347 | the detection count equals the number of listed engines and is at most the number of engines; an engine is listed exactly when it flagged the query malicious, and it is listed with its own verdict |
| `ThreatIntel.MaliciousComplete` | backend/server.js:338-347 | every malicious entry of the results is among the malicious entries |
| `Pager.CeilDiv` | src/features/playground/LogManagement.js:96 | the result is the least count of `limit`-sized pages that holds `total` |
| `Pager.TotalPages` | src/features/playground/LogManagement.js:96 | there is at least one page; the pages hold the total; with rows, one page fewer would not; with no rows, there is exactly one page |
| `Pager.Range` | src/features/playground/LogManagement.js:101 | the range has `hi - lo + 1` entries (none when `hi < lo`), the k-th being `lo + k` |
| `Pager.PageNumbers` | src/features/playground/LogManagement.js:99-101 | the loop builds the contiguous ascending range from the window start to the window end |
| `Pager.WindowBounds` | src/features/playground/LogManagement.js:99-101 | the window has at most five ascending pages, all within `1..totalPages` for a positive page, and contains the page exactly when it exists |
| `Pager.ButtonsLayout` | src/features/playground/LogManagement.js:218-228 | the buttons run from 1 to the last page in ascending order, are consecutive except right after the first and right before the last, and an ellipsis is drawn exactly where pages are skipped |
| `Pager.PrevNextClamp` | src/features/playground/LogManagement.js:217-229 | previous and next stay within `1..totalPages`, move by one when enabled, and are disabled exactly when they would not move |
| `Pager.LogBrowser.constructor` | src/features/playground/LogManagement.js:29-34 | the browser starts on page 1 of 10 rows, with the default field and operator and an empty value |
| `Pager.LogBrowser.Search` | src/features/playground/LogManagement.js:91-94 | searching returns to page 1 and changes nothing else |
| `Pager.LogBrowser.Clear` | src/features/playground/LogManagement.js:135 | clearing restores the default field, operator and empty value on page 1 |
| `Pager.LogBrowser.ChangeLimit` | src/features/playground/LogManagement.js:140 | a new page size returns to page 1 |
| `Pager.LogBrowser.FetchFailed` | src/features/playground/LogManagement.js:58-61 | a failed fetch shows the error with no rows, a total of 0, and so one page |
| `Pager.LogBrowser.FetchSucceeded` | src/features/playground/LogManagement.js:56-57 | a successful fetch takes the rows and the total of the payload, empty and 0 when absent |
| `Pager.LogBrowser.PrevPage` | src/features/playground/LogManagement.js:217 | the previous button, drawn only while there is no error, moves back one page but not below 1 |
| `Pager.LogBrowser.ChangeField` | src/features/playground/LogManagement.js:110 | a new column is selected and the page is kept |
| `Pager.LogBrowser.ChangeOp` | src/features/playground/LogManagement.js:117 | a new operator is selected and the page is kept |
| `Pager.LogBrowser.ChangeValue` | src/features/playground/LogManagement.js:128 | a new value is typed and the page is kept |
| `Pager.LogBrowser.NextPage` | src/features/playground/LogManagement.js:229 | the next button, drawn only while there is no error and enabled only before the last page, moves on exactly one page, which exists |
| `Pager.LogBrowser.GoTo` | src/features/playground/LogManagement.js:218-228 | any button drawn while there is no error takes the browser to an existing page |
| `Pager.LogBrowser.RequestKeepsWindow` | src/features/playground/LogManagement.js:44-45 | the page and limit the browser renders in decimal into the query string, read back as decimal numbers and clamped on the server, give rows `(page - 1) * limit` onwards |
| `Scenario.FirstMatch` | src/features/playground/InvestigationCases.js:177-179 | the result is the first catalog position from `from` whose key occurs in the rule name, ignoring case, and none when no key does |
| `Scenario.SelectScenario` | src/features/playground/InvestigationCases.js:177-181 | a chosen scenario is that of the first matching key, which is non-empty; none is chosen exactly when no key matches or the first matching key is empty |
| `Scenario.SelectScenarioSpec` | src/features/playground/InvestigationCases.js:177-181 | the scenario chosen is that of the first non-empty key whose lower-cased form occurs in the lower-cased rule name, and there is none when no key occurs |
| `Scenario.AnswersSummary` | src/features/playground/InvestigationCases.js:72-83 | one entry per answer, numbered from 1, with its question's text and the answer, correct exactly when it equals the correct answer up to case and padding |
| `Scenario.AllAnswered` | src/features/playground/InvestigationCases.js:68-70 | every question is answered exactly when the answers are no more than the questions and the summary has one entry per question |
| `Scenario.AnswersCorrectMeaning` | src/features/playground/InvestigationCases.js:243-244 | `answers_correct` holds exactly when every answer matches its question's correct answer, and holds when there are no answers |
| `Scenario.CorrectOptionScores` | src/features/playground/InvestigationCases.js:75 | choosing the correct answer in lower case is scored correct |
| `Scenario.InvestigationPanel.constructor` | src/features/playground/InvestigationCases.js:13-28 | the panel starts with no alert, no open modal, no walk and no request sent |
| `Scenario.InvestigationPanel.CreateCaseClick` | src/features/playground/InvestigationCases.js:175-191 | with a scenario the question modal opens on it at the first question; without one the case is created at once with no answers |
| `Scenario.InvestigationPanel.AnswerQuestion` | src/features/playground/InvestigationCases.js:193-215 | the answer is recorded with the question text; a branch for it replaces the scenario from its first question; otherwise the walk advances, or at the end closes the modal, creates the case with every answer and clears them |
| `Scenario.InvestigationPanel.QuestionModalClose` | src/features/playground/InvestigationCases.js:217-221 | the modal closes, the index returns to 0 and the answers are cleared |
| `Scenario.InvestigationPanel.CloseAlertClick` | src/features/playground/InvestigationCases.js:223-226 | the alert is selected and the close form opens |
| `Scenario.InvestigationPanel.CloseModalClose` | src/features/playground/InvestigationCases.js:228-233 | the close form closes, the selection is cleared and the result returns to "True Positive" |
| `Scenario.InvestigationPanel.CloseAlert` | src/features/playground/InvestigationCases.js:235-259 | nothing happens without an alert; without every question answered a message is shown and no request is sent; otherwise the close request carries the summary and whether every answer is correct |
| `Scenario.InvestigationPanel.CloseNeedsEmptyScenario` | src/features/playground/InvestigationCases.js:68-70 | with the question modal shut, every question counts as answered exactly when the current scenario is empty, and the summary is then empty and all correct |
| `Scenario.WalkThenClose` | src/features/playground/InvestigationCases.js:193-244 | after walking a one-question scenario the case is created with the recorded answer, and the close that follows is refused |
| `Register.AnyInClass` | src/auth/Register.js:35-38 | a character-class test holds exactly when some character of the text is in the class |
| `Register.CheckPasswordRequirements` | src/auth/Register.js:32-40 | the length flag holds exactly for 8 or more characters, and each class flag exactly when some character is in its class |
| `Register.DigitMeetsSpecial` | src/auth/Register.js:38 | any digit meets both the number and the special requirement |
| `Register.LettersAndDigitSuffice` | src/auth/Register.js:34-38 | eight characters with an upper-case letter, a lower-case letter and a digit meet every requirement |
| `Register.FirstFailure` | src/auth/Register.js:85-106 | a submission fails on a short trimmed username first, then on unmet requirements, then on a mismatch, then on a non-empty invalid e-mail, and passes exactly when none applies |
| `Register.RegisterForm.constructor` | src/auth/Register.js:7-27 | the form starts empty, with no requirement met and the box hidden |
| `Register.RegisterForm.UsernameChange` | src/auth/Register.js:165 | the username input stores what is typed and changes nothing else |
| `Register.RegisterForm.EmailChange` | src/auth/Register.js:175 | the e-mail input stores what is typed and changes nothing else |
| `Register.RegisterForm.PasswordFocus` | src/auth/Register.js:43-47 | the box shows exactly when the current password misses a requirement |
| `Register.RegisterForm.PasswordChange` | src/auth/Register.js:50-64 | the requirements follow the new password, the box shows exactly while one is unmet, and the error clears once the passwords match |
| `Register.RegisterForm.ConfirmPasswordChange` | src/auth/Register.js:67-77 | the mismatch message shows exactly while a typed password differs from the confirmation |
| `Register.RegisterForm.Submit` | src/auth/Register.js:79-115 | with no request pending (the button is disabled while loading, line 219), the first failed check sets its message and sends nothing, and unmet requirements force the box open; otherwise one request with the trimmed username and e-mail is sent and loading starts |
| `Register.RegisterForm.RegistrationSucceeded` | src/auth/Register.js:119-132 | the success message is shown, every field is cleared, every requirement flag reset and the box hidden |
| `Register.RegisterForm.RegistrationRejected` | src/auth/Register.js:140-142 | the server's message, or "Registration failed.", is shown |
| `Register.RegisterForm.RequestError` | src/auth/Register.js:143-147 | a request that fails shows the generic error and stops loading |

## Left out

- Routing, the connection pool, CORS and upload handling are not modelled. Each transaction is one atomic method.
- JWT verification and bcrypt are not modelled. The caller's user id is a parameter, and the 401 answer to an unreadable user id is not modelled.
- Concurrent requests are not modelled. The check-then-insert race of start-investigation is outside a model of sequential, atomic requests.
- `NOW()` and `CURRENT_TIMESTAMP` become an integer time passed in; date formatting is not modelled.
- The VirusTotal HTTP request, its response parsing and the MD5 of uploaded files are foreign I/O. Only the classifier and the tally are modelled.
- The severity, status and text filters of the main queue and of my queue are not modelled. The my-queue filters build placeholders without `$`, and the panel never sends them.
- `GET /api/cases` for statuses other than closed is not modelled, nor any other read route besides the three queues and the log search.
- Lifecycle.Store.Escalate: the title, description and priority are taken as already-parsed values, and a string body value that is not a number is not modelled.
- Lifecycle.Store.UpsertAnswers: `answers` is the serialised body value, with `None` standing for every falsy one, and `total_points` is taken as an integer.
- Lifecycle.Store.Close: a non-string `result` passed through `String(...)` is not modelled.
- Text.Lower: only ASCII letters are lower-cased. Unicode case mapping is outside the model.
- Text.Trim: lengths are counted in characters, not in UTF-16 code units. The same holds for the length checks of `Register.CheckPasswordRequirements` and `Register.FirstFailure`, where a character outside the Basic Multilingual Plane counts once here and twice in JavaScript.
- Pager.LogBrowser.PrevPage, Pager.LogBrowser.NextPage and Pager.LogBrowser.GoTo: the buttons are drawn only while nothing is loading and there is no error (src/features/playground/LogManagement.js:148-149). The model requires the absence of an error; the loading flag is not modelled, because a fetch is one atomic step here.
- LogQuery.SearchMeaning: it is stated for values without `%`, `_` or `\`. A value that carries these LIKE metacharacters is passed to the database unescaped, and what it then selects is not characterised.
- LogQuery.ClampParam: `parseInt` is a parameter (`None` for NaN), and values repeated in the query string are not modelled.
- The browser's own form validation is not modelled. This covers `required` on the username and `type="email"` on the e-mail input, which can stop a submission before the handler runs.
- The e-mail pattern of the registration form is regular-expression detail. Its verdict is a parameter of `Register.FirstFailure` and `Register.RegisterForm.Submit`.
- The redirect after a successful registration is a timer and navigation, and is not modelled.
- The responses of the create-case and close requests are not modelled. This covers the answers request that follows case creation, the success and error messages, and the list refresh. The requests the panel sends are recorded in order, and the constant title and description of the create-case body are not.
- The panel's check that the alert is still listed before creating a case is not modelled.
- The pages, navigation bar, theme switcher, settings, login, password reset, the threat-intelligence page and the closed-case list are presentation only.
- The scenario catalog is static data. Only its shape is used: questions, options, correct answer and optional branches.
