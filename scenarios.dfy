/** Lemmas that state the candidate flow end to end on the fixed data the mocked AI
    service returns: the two possible résumé extractions and the six-question
    list (two Easy, two Medium, two Hard). */
module Scenarios {
  import opened Wrappers
  import opened InterviewSlice
  import opened IntervieweeTab

  const AliceInfo: CandidateInfo :=
    CandidateInfo(Some("Alice Johnson"), Some("alice.j@example.com"), Some("123-456-7890"))

  const BobInfo: CandidateInfo := CandidateInfo(Some("Bob Smith"), None, None)

  const SampleQuestions: seq<Question> := [
    Question(1, "What is the difference between `let`, `const`, and `var` in JavaScript?", Easy),
    Question(2, "Explain the concept of component state in React.", Easy),
    Question(3, "Describe the CSS box model.", Medium),
    Question(4, "What are Promises and why are they useful in Node.js?", Medium),
    Question(5, "Explain the concept of middleware in the context of Express.js.", Hard),
    Question(6, "How would you optimize the performance of a slow React application?", Hard)
  ]

  /** A complete résumé leads straight to ready-to-start; the interview on
      the six questions then ends completed after six answers, the pointer on
      the sixth question. */
  lemma CompleteResumeSession(typed: seq<string>)
    requires |typed| == 6
    ensures DispatchAll(InitialState(), FileChangeActions(true, Ok(AliceInfo))).status == ReadyToStart
    ensures DispatchAll(DispatchAll(InitialState(), FileChangeActions(true, Ok(AliceInfo))),
                        StartActions(Ok(SampleQuestions)) + Submits(AnswerTexts(typed))).status == Completed
    ensures DispatchAll(DispatchAll(InitialState(), FileChangeActions(true, Ok(AliceInfo))),
                        StartActions(Ok(SampleQuestions)) + Submits(AnswerTexts(typed))).currentQuestionIndex == 5
    ensures |DispatchAll(DispatchAll(InitialState(), FileChangeActions(true, Ok(AliceInfo))),
                         StartActions(Ok(SampleQuestions)) + Submits(AnswerTexts(typed))).answers| == 6
  {
    var ready := DispatchAll(InitialState(), FileChangeActions(true, Ok(AliceInfo)));
    FileChangeOutcome(InitialState(), Ok(AliceInfo));
    assert StartActions(Ok(SampleQuestions)) == [StartInterview(SampleQuestions)];
    InterviewRun(ready, SampleQuestions, AnswerTexts(typed));
  }

  /** A résumé missing email and phone asks for them; confirming the form
      with both typed in makes the session ready, keeping the extracted name. */
  lemma MissingDetailsSession(email: string, phone: string)
    requires email != "" && phone != ""
    ensures DispatchAll(InitialState(), FileChangeActions(true, Ok(BobInfo))).status == AwaitingInfo
    ensures DispatchAll(DispatchAll(InitialState(), FileChangeActions(true, Ok(BobInfo))),
                        FormSubmitActions(BobInfo, Prefill(BobInfo).(email := email, phone := phone))).status
            == ReadyToStart
    ensures DispatchAll(DispatchAll(InitialState(), FileChangeActions(true, Ok(BobInfo))),
                        FormSubmitActions(BobInfo, Prefill(BobInfo).(email := email, phone := phone))).candidateInfo
            == CandidateInfo(Some("Bob Smith"), Some(email), Some(phone))
  {
    var s := DispatchAll(InitialState(), FileChangeActions(true, Ok(BobInfo)));
    FileChangeOutcome(InitialState(), Ok(BobInfo));
    var form := Prefill(BobInfo).(email := email, phone := phone);
    FormSubmitOutcome(s, form);
    assert FormValue(form, Name) == "Bob Smith";
    assert forall f :: Present(Get(s.candidateInfo, f)) || FormValue(form, f) != "";
    var merged := Merged(BobInfo, form);
    assert Get(merged, Name) == Some("Bob Smith");
    assert Get(merged, Email) == Some(email);
    assert Get(merged, Phone) == Some(phone);
  }

  /** A timer that fires after the last answer was already submitted records
      a seventh answer, "No answer provided.", and the session stays completed. */
  lemma LateTimerAfterCompletion(typed: seq<string>)
    requires |typed| == 6
    ensures DispatchAll(InitialState(),
                        StartActions(Ok(SampleQuestions)) + Submits(AnswerTexts(typed)) + Submits([AnswerText("")])).answers
            == AnswerTexts(typed) + [NoAnswerText]
    ensures DispatchAll(InitialState(),
                        StartActions(Ok(SampleQuestions)) + Submits(AnswerTexts(typed)) + Submits([AnswerText("")])).status
            == Completed
  {
    assert StartActions(Ok(SampleQuestions)) == [StartInterview(SampleQuestions)];
    InterviewOverrun(InitialState(), SampleQuestions, AnswerTexts(typed), [AnswerText("")]);
  }
}
