/** The investigation panel of the front end: the choice of the question
    scenario for an alert, the walk through its questions (which may branch
    on an answer), the summary of the answers, and the requests the panel
    sends to create a case or close the alert. */
module Scenario {
  import opened Base
  import opened Text

  /** One scenario question: its text, the offered options, the correct
      answer, and for some options the questions that follow instead. */
  datatype Question = Question(text: string, options: seq<string>, correctAnswer: string,
                               branches: map<string, seq<Question>>)

  /** The catalog of scenarios, keyed by a rule-name fragment, in key order. */
  type Catalog = seq<(string, seq<Question>)>

  /** One recorded answer: the question shown and the option chosen. */
  datatype Answer = Answer(question: string, answer: string)

  /** One entry of the summary sent with a close request. */
  datatype SummaryEntry = SummaryEntry(questionId: int, questionText: string, answer: string, isCorrect: bool)

  /** The alert a handler works on. */
  datatype AlertRef = AlertRef(alertId: int, ruleName: string)

  /** The requests the panel sends. `handleCreateCase` posts the answers
      only when there are some, so `answers == []` stands for "no answers". */
  datatype Request =
    | CreateCaseRequest(alertId: int, answers: seq<Answer>)
    | CloseRequest(alertId: int, reason: string, result: string, maliciousEntity: string, feedback: string,
                   summary: seq<SummaryEntry>, answersCorrect: bool)

  // ---------------------------------------------------------------------
  // Scenario selection

  /** `ruleName.toLowerCase().includes(key.toLowerCase())`. */
  predicate KeyMatches(ruleName: string, key: string) {
    Includes(Lower(ruleName), Lower(key))
  }

  /** `Object.keys(catalog).find(...)`, from position `from` on. */
  function FirstMatch(ruleName: string, catalog: Catalog, from: nat): (r: Option<nat>)
    requires from <= |catalog|
    ensures r.Some? ==> from <= r.value < |catalog| && KeyMatches(ruleName, catalog[r.value].0)
    ensures r.Some? ==> forall j :: from <= j < r.value ==> !KeyMatches(ruleName, catalog[j].0)
    ensures r.None? ==> forall j :: from <= j < |catalog| ==> !KeyMatches(ruleName, catalog[j].0)
    decreases |catalog| - from
  {
    if from == |catalog| then None
    else if KeyMatches(ruleName, catalog[from].0) then Some(from)
    else FirstMatch(ruleName, catalog, from + 1)
  }

  /** The scenario of an alert: that of the first key occurring in the rule
      name; none when no key occurs, or when the key found is the empty
      string, which is falsy. */
  function SelectScenario(ruleName: string, catalog: Catalog): (r: Option<seq<Question>>)
    ensures r.Some? ==> exists i :: && 0 <= i < |catalog| && catalog[i].0 != "" && catalog[i].1 == r.value
                                   && KeyMatches(ruleName, catalog[i].0)
                                   && forall j :: 0 <= j < i ==> !KeyMatches(ruleName, catalog[j].0)
    ensures r.None? ==> forall i :: && 0 <= i < |catalog| && KeyMatches(ruleName, catalog[i].0)
                                   && (forall j :: 0 <= j < i ==> !KeyMatches(ruleName, catalog[j].0))
                                   ==> catalog[i].0 == ""
    ensures (forall j :: 0 <= j < |catalog| ==> !KeyMatches(ruleName, catalog[j].0)) ==> r.None?
  {
    match FirstMatch(ruleName, catalog, 0)
    case Some(i) => if catalog[i].0 != "" then Some(catalog[i].1) else None
    case None => None
  }

  /** The scenario chosen is that of the first key whose lower-cased form
      occurs in the lower-cased rule name, and there is none when no key occurs. */
  lemma SelectScenarioSpec(ruleName: string, catalog: Catalog)
    ensures forall q :: SelectScenario(ruleName, catalog) == Some(q) <==>
              exists i :: && 0 <= i < |catalog| && catalog[i].0 != "" && catalog[i].1 == q
                          && OccursIn(Lower(catalog[i].0), Lower(ruleName))
                          && forall j :: 0 <= j < i ==> !OccursIn(Lower(catalog[j].0), Lower(ruleName))
    ensures (forall j :: 0 <= j < |catalog| ==> !OccursIn(Lower(catalog[j].0), Lower(ruleName)))
            ==> SelectScenario(ruleName, catalog).None?
  {
    forall j | 0 <= j < |catalog| ensures KeyMatches(ruleName, catalog[j].0) <==> OccursIn(Lower(catalog[j].0), Lower(ruleName)) {
      IncludesCorrect(Lower(ruleName), Lower(catalog[j].0));
    }
    var r := FirstMatch(ruleName, catalog, 0);
    forall q ensures SelectScenario(ruleName, catalog) == Some(q) <==>
              exists i :: && 0 <= i < |catalog| && catalog[i].0 != "" && catalog[i].1 == q
                          && OccursIn(Lower(catalog[i].0), Lower(ruleName))
                          && forall j :: 0 <= j < i ==> !OccursIn(Lower(catalog[j].0), Lower(ruleName))
    {
      if exists i :: && 0 <= i < |catalog| && catalog[i].0 != "" && catalog[i].1 == q
                     && OccursIn(Lower(catalog[i].0), Lower(ruleName))
                     && forall j :: 0 <= j < i ==> !OccursIn(Lower(catalog[j].0), Lower(ruleName)) {
        var i :| && 0 <= i < |catalog| && catalog[i].0 != "" && catalog[i].1 == q
                 && OccursIn(Lower(catalog[i].0), Lower(ruleName))
                 && forall j :: 0 <= j < i ==> !OccursIn(Lower(catalog[j].0), Lower(ruleName));
        assert r == Some(i);
      }
    }
  }

  // ---------------------------------------------------------------------
  // Answers

  /** `validateAllAnswered`: one recorded answer per question of the current scenario. */
  predicate AllAnswered(scenario: seq<Question>, answers: seq<Answer>)
    ensures AllAnswered(scenario, answers) <==>
              |answers| <= |scenario| && |AnswersSummary(scenario, answers)| == |scenario|
  {
    |scenario| == |answers|
  }

  /** `computeAnswersSummary`: the i-th answer scored against the i-th
      question of the current scenario. */
  function AnswersSummary(scenario: seq<Question>, answers: seq<Answer>): (r: seq<SummaryEntry>)
    requires |answers| <= |scenario|
    ensures |r| == |answers|
    ensures forall i :: 0 <= i < |r| ==>
              && r[i].questionId == i + 1 && r[i].questionText == scenario[i].text
              && r[i].answer == answers[i].answer
              && (r[i].isCorrect <==> SameAnswer(answers[i].answer, scenario[i].correctAnswer))
  {
    seq(|answers|, i requires 0 <= i < |answers| =>
      SummaryEntry(i + 1, scenario[i].text, answers[i].answer,
                   Normalize(answers[i].answer) == Normalize(scenario[i].correctAnswer)))
  }

  /** `answers.every(a => a.isCorrect)`. */
  predicate AllCorrect(summary: seq<SummaryEntry>) {
    forall i :: 0 <= i < |summary| ==> summary[i].isCorrect
  }

  /** The flag sent with a close request holds exactly when every answer
      agrees with its question's correct answer up to case and padding; with
      no answers it holds vacuously. */
  lemma AnswersCorrectMeaning(scenario: seq<Question>, answers: seq<Answer>)
    requires |answers| <= |scenario|
    ensures AllCorrect(AnswersSummary(scenario, answers)) <==>
              forall i :: 0 <= i < |answers| ==> SameAnswer(answers[i].answer, scenario[i].correctAnswer)
    ensures answers == [] ==> AllCorrect(AnswersSummary(scenario, answers))
  {
  }

  /** Choosing the correct option, even in another letter case, scores. */
  lemma CorrectOptionScores(scenario: seq<Question>, answers: seq<Answer>, i: int)
    requires |answers| <= |scenario| && 0 <= i < |answers|
    requires answers[i].answer == Lower(scenario[i].correctAnswer)
    ensures AnswersSummary(scenario, answers)[i].isCorrect
  {
    SameAnswerIgnoresCase(scenario[i].correctAnswer);
  }

  // ---------------------------------------------------------------------
  // The panel

  const DefaultCloseResult := "True Positive"
  const AnswerAllMessage := "Please answer all scenario questions before closing."

  class InvestigationPanel {
    var selectedAlert: Option<AlertRef>
    var questionModalOpen: bool
    var currentQuestionIndex: int
    var scenarioAnswers: seq<Answer>
    var currentScenario: seq<Question>
    var closeModalOpen: bool
    var closeReason: string
    var closeResult: string
    var maliciousEntity: string
    var feedback: string
    var message: Option<string>
    /** The requests sent so far, oldest first. */
    var sent: seq<Request>

    /** The index points at a question of the current scenario, an open
        question modal belongs to an alert, and a closed question modal
        leaves no walk half done. */
    ghost predicate Valid()
      reads this
    {
      && 0 <= currentQuestionIndex
      && (|currentScenario| > 0 ==> currentQuestionIndex < |currentScenario|)
      && (|currentScenario| == 0 ==> currentQuestionIndex == 0)
      && (questionModalOpen ==> selectedAlert.Some?)
      && (!questionModalOpen ==> currentQuestionIndex == 0 && scenarioAnswers == [])
    }

    constructor ()
      ensures Valid()
      ensures selectedAlert == None && !questionModalOpen && !closeModalOpen
      ensures currentQuestionIndex == 0 && scenarioAnswers == [] && currentScenario == []
      ensures closeReason == "" && closeResult == DefaultCloseResult && maliciousEntity == "" && feedback == ""
      ensures message == None && sent == []
    {
      selectedAlert, questionModalOpen, closeModalOpen := None, false, false;
      currentQuestionIndex, scenarioAnswers, currentScenario := 0, [], [];
      closeReason, closeResult, maliciousEntity, feedback := "", DefaultCloseResult, "", "";
      message, sent := None, [];
    }

    /** `handleCreateCaseClick`: with a scenario, open the question modal on
        it; without one, create the case at once, with no answers. */
    method CreateCaseClick(alert: AlertRef, catalog: Catalog)
      requires Valid() && !questionModalOpen
      modifies this
      ensures Valid()
      ensures SelectScenario(alert.ruleName, catalog).Some? ==>
                && selectedAlert == Some(alert) && currentScenario == SelectScenario(alert.ruleName, catalog).value
                && questionModalOpen && currentQuestionIndex == 0 && scenarioAnswers == []
                && sent == old(sent)
      ensures SelectScenario(alert.ruleName, catalog).None? ==>
                && sent == old(sent) + [CreateCaseRequest(alert.alertId, [])]
                && selectedAlert == old(selectedAlert) && currentScenario == old(currentScenario)
                && !questionModalOpen
      ensures closeModalOpen == old(closeModalOpen) && closeReason == old(closeReason)
      ensures closeResult == old(closeResult) && maliciousEntity == old(maliciousEntity)
      ensures feedback == old(feedback) && message == old(message)
    {
      var scenario := SelectScenario(alert.ruleName, catalog);
      if scenario.Some? {
        selectedAlert := Some(alert);
        currentScenario := scenario.value;
        questionModalOpen := true;
      } else {
        sent := sent + [CreateCaseRequest(alert.alertId, [])];
      }
    }

    /** `handleAnswerQuestion`, on an option of the question the modal shows. */
    method AnswerQuestion(answer: string)
      requires Valid() && questionModalOpen && |currentScenario| > 0
      modifies this
      ensures Valid()
      ensures var q := old(currentScenario)[old(currentQuestionIndex)];
              var recorded := old(scenarioAnswers) + [Answer(q.text, answer)];
              && (answer in q.branches ==>
                    && currentScenario == q.branches[answer] && currentQuestionIndex == 0
                    && scenarioAnswers == recorded && questionModalOpen && sent == old(sent))
              && (answer !in q.branches && old(currentQuestionIndex) + 1 < |old(currentScenario)| ==>
                    && currentQuestionIndex == old(currentQuestionIndex) + 1
                    && currentScenario == old(currentScenario)
                    && scenarioAnswers == recorded && questionModalOpen && sent == old(sent))
              && (answer !in q.branches && old(currentQuestionIndex) + 1 == |old(currentScenario)| ==>
                    && !questionModalOpen && currentQuestionIndex == 0 && scenarioAnswers == []
                    && currentScenario == old(currentScenario)
                    && sent == old(sent) + [CreateCaseRequest(old(selectedAlert).value.alertId, recorded)])
      ensures selectedAlert == old(selectedAlert) && closeModalOpen == old(closeModalOpen)
      ensures closeReason == old(closeReason) && closeResult == old(closeResult)
      ensures maliciousEntity == old(maliciousEntity) && feedback == old(feedback) && message == old(message)
    {
      var q := currentScenario[currentQuestionIndex];
      var newAnswers := scenarioAnswers + [Answer(q.text, answer)];
      scenarioAnswers := newAnswers;
      if answer in q.branches {
        currentScenario := q.branches[answer];
        currentQuestionIndex := 0;
      } else {
        var next := currentQuestionIndex + 1;
        if next < |currentScenario| {
          currentQuestionIndex := next;
        } else {
          questionModalOpen := false;
          currentQuestionIndex := 0;
          sent := sent + [CreateCaseRequest(selectedAlert.value.alertId, newAnswers)];
          scenarioAnswers := [];
        }
      }
    }

    /** `handleQuestionModalClose`: the walk is abandoned. */
    method QuestionModalClose()
      requires Valid()
      modifies this
      ensures Valid()
      ensures !questionModalOpen && currentQuestionIndex == 0 && scenarioAnswers == []
      ensures currentScenario == old(currentScenario) && selectedAlert == old(selectedAlert)
      ensures closeModalOpen == old(closeModalOpen) && closeReason == old(closeReason)
      ensures closeResult == old(closeResult) && maliciousEntity == old(maliciousEntity)
      ensures feedback == old(feedback) && message == old(message) && sent == old(sent)
    {
      questionModalOpen := false;
      currentQuestionIndex := 0;
      scenarioAnswers := [];
    }

    /** `handleCloseAlertClick`. */
    method CloseAlertClick(alert: AlertRef)
      requires Valid() && !questionModalOpen
      modifies this
      ensures Valid()
      ensures selectedAlert == Some(alert) && closeModalOpen
      ensures questionModalOpen == old(questionModalOpen) && currentQuestionIndex == old(currentQuestionIndex)
      ensures scenarioAnswers == old(scenarioAnswers) && currentScenario == old(currentScenario)
      ensures closeReason == old(closeReason) && closeResult == old(closeResult)
      ensures maliciousEntity == old(maliciousEntity) && feedback == old(feedback)
      ensures message == old(message) && sent == old(sent)
    {
      selectedAlert := Some(alert);
      closeModalOpen := true;
    }

    /** `handleModalClose`: the close form is dismissed and reset. */
    method CloseModalClose()
      requires Valid() && !questionModalOpen
      modifies this
      ensures Valid()
      ensures !closeModalOpen && selectedAlert == None && closeReason == "" && closeResult == DefaultCloseResult
      ensures questionModalOpen == old(questionModalOpen) && currentQuestionIndex == old(currentQuestionIndex)
      ensures scenarioAnswers == old(scenarioAnswers) && currentScenario == old(currentScenario)
      ensures maliciousEntity == old(maliciousEntity) && feedback == old(feedback)
      ensures message == old(message) && sent == old(sent)
    {
      closeModalOpen := false;
      selectedAlert := None;
      closeReason := "";
      closeResult := DefaultCloseResult;
    }

    /** `handleCloseAlert`: nothing without a selected alert; a message and no
        request unless every question of the current scenario is answered;
        otherwise the close request with the summary and the
        all-correct flag. */
    method CloseAlert()
      requires Valid() && !questionModalOpen
      modifies this
      ensures Valid()
      ensures old(selectedAlert).None? ==> sent == old(sent) && message == old(message)
      ensures old(selectedAlert).Some? && !AllAnswered(old(currentScenario), old(scenarioAnswers)) ==>
                sent == old(sent) && message == Some(AnswerAllMessage)
      ensures old(selectedAlert).Some? && AllAnswered(old(currentScenario), old(scenarioAnswers)) ==>
                var summary := AnswersSummary(old(currentScenario), old(scenarioAnswers));
                sent == old(sent) + [CloseRequest(old(selectedAlert).value.alertId, closeReason, closeResult,
                                                  maliciousEntity, feedback, summary, AllCorrect(summary))]
                && message == old(message)
      ensures selectedAlert == old(selectedAlert) && questionModalOpen == old(questionModalOpen)
      ensures currentQuestionIndex == old(currentQuestionIndex) && scenarioAnswers == old(scenarioAnswers)
      ensures currentScenario == old(currentScenario) && closeModalOpen == old(closeModalOpen)
      ensures closeReason == old(closeReason) && closeResult == old(closeResult)
      ensures maliciousEntity == old(maliciousEntity) && feedback == old(feedback)
    {
      if selectedAlert.None? {
        return;
      }
      if !AllAnswered(currentScenario, scenarioAnswers) {
        message := Some(AnswerAllMessage);
        return;
      }
      var summary := AnswersSummary(currentScenario, scenarioAnswers);
      var answersCorrect := AllCorrect(summary);
      sent := sent + [CloseRequest(selectedAlert.value.alertId, closeReason, closeResult,
                                   maliciousEntity, feedback, summary, answersCorrect)];
    }

    /** With the question modal shut no answers are pending, so the close
        request goes out only while the current scenario is empty, that is
        before any scenario was opened in the panel, and then it carries no
        answers and the flag true. After a scenario with questions was
        opened, closing is refused. */
    lemma CloseNeedsEmptyScenario()
      requires Valid() && !questionModalOpen && selectedAlert.Some?
      ensures AllAnswered(currentScenario, scenarioAnswers) <==> currentScenario == []
      ensures currentScenario == [] ==>
                AnswersSummary(currentScenario, scenarioAnswers) == []
                && AllCorrect(AnswersSummary(currentScenario, scenarioAnswers))
    {
    }
  }

  /** A walk through a one-question scenario followed by a close: the case
      is created with the recorded answer, and the close is refused. */
  method WalkThenClose(alert: AlertRef, q: Question, key: string) returns (sent: seq<Request>, message: Option<string>)
    requires key != "" && KeyMatches(alert.ruleName, key) && q.options != [] && q.options[0] !in q.branches
    ensures sent == [CreateCaseRequest(alert.alertId, [Answer(q.text, q.options[0])])]
    ensures message == Some(AnswerAllMessage)
  {
    var panel := new InvestigationPanel();
    assert FirstMatch(alert.ruleName, [(key, [q])], 0) == Some(0);
    panel.CreateCaseClick(alert, [(key, [q])]);
    assert panel.currentScenario == [q] && panel.currentQuestionIndex == 0 && panel.sent == [];
    assert panel.scenarioAnswers == [] && panel.selectedAlert == Some(alert) && panel.questionModalOpen;
    assert [] + [Answer(q.text, q.options[0])] == [Answer(q.text, q.options[0])];
    panel.AnswerQuestion(q.options[0]);
    assert panel.sent == [CreateCaseRequest(alert.alertId, [Answer(q.text, q.options[0])])];
    panel.CloseAlertClick(alert);
    panel.CloseAlert();
    sent, message := panel.sent, panel.message;
  }
}
