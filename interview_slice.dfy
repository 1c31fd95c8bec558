/** The interview session slice: the single live session of the candidate
    flow and the seven reducers that move it through
    idle -> parsing_resume -> awaiting_info / ready_to_start -> in_progress -> completed.

    Every reducer applies unconditionally, whatever the current status: there
    is no "ignore a trigger that is invalid here" rule. The pure functions
    `Reduce*` give each reducer's effect on a state value; the class
    `InterviewStore` holds the state in fields and performs the same updates in
    place, as the reducers do on their draft state. */
module InterviewSlice {
  import opened Wrappers

  datatype Status = Idle | ParsingResume | AwaitingInfo | ReadyToStart | InProgress | Completed

  datatype Difficulty = Easy | Medium | Hard

  datatype Question = Question(id: int, text: string, difficulty: Difficulty)

  /** Contact fields; each one may be missing (null). */
  datatype CandidateInfo = CandidateInfo(name: Option<string>, email: Option<string>, phone: Option<string>)

  /** The keys of CandidateInfo, in declaration order. */
  datatype Field = Name | Email | Phone

  datatype InterviewState = InterviewState(
    status: Status,
    candidateInfo: CandidateInfo,
    error: Option<string>,
    questions: seq<Question>,
    answers: seq<string>,
    currentQuestionIndex: nat)

  /** The actions the slice exports, one per reducer. */
  datatype Action =
    | SetParsingStatus
    | SetCandidateInfo(info: CandidateInfo)
    | SetInterviewError(message: string)
    | UpdateCandidateField(field: Field, value: string)
    | ValidateCandidateInfo
    | StartInterview(questions: seq<Question>)
    | SubmitAnswer(answer: string)

  const MissingFieldsMessage: string := "Please fill in all required fields."

  /** JavaScript truthiness of a `string | null` value: null and '' are both falsy. */
  predicate Present(v: Option<string>) {
    v.Some? && v.value != ""
  }

  predicate Complete(info: CandidateInfo) {
    Present(info.name) && Present(info.email) && Present(info.phone)
  }

  function Get(info: CandidateInfo, f: Field): Option<string> {
    match f
    case Name => info.name
    case Email => info.email
    case Phone => info.phone
  }

  /** `candidateInfo[field] = v`: exactly the named field changes. */
  function With(info: CandidateInfo, f: Field, v: Option<string>): (r: CandidateInfo)
    ensures Get(r, f) == v
    ensures forall g :: g != f ==> Get(r, g) == Get(info, g)
  {
    match f
    case Name => info.(name := v)
    case Email => info.(email := v)
    case Phone => info.(phone := v)
  }

  lemma CompleteIffAllPresent(info: CandidateInfo)
    ensures Complete(info) <==> forall f :: Present(Get(info, f))
  {
    if Complete(info) {
      forall f ensures Present(Get(info, f)) {
        match f
        case Name =>
        case Email =>
        case Phone =>
      }
    } else {
      if !Present(info.name) {
        assert !Present(Get(info, Name));
      } else if !Present(info.email) {
        assert !Present(Get(info, Email));
      } else {
        assert !Present(Get(info, Phone));
      }
    }
  }

  function InitialState(): (s: InterviewState)
    ensures s.status == Idle && s.error == None
    ensures s.candidateInfo == CandidateInfo(None, None, None)
    ensures s.questions == [] && s.answers == [] && s.currentQuestionIndex == 0
  {
    InterviewState(Idle, CandidateInfo(None, None, None), None, [], [], 0)
  }

  /** The question pointer and the answer list agree: the pointer stays inside
      the question list, an answer is recorded for every question passed, and
      while in progress exactly those answers are recorded. Every reachable
      state satisfies it (InitialConsistent, DispatchAll). */
  predicate Consistent(s: InterviewState) {
    && (s.currentQuestionIndex == 0 || s.currentQuestionIndex < |s.questions|)
    && s.currentQuestionIndex <= |s.answers|
    && (s.status == InProgress ==> |s.answers| == s.currentQuestionIndex)
    && (s.status == Completed ==>
          s.currentQuestionIndex < |s.answers| && |s.questions| <= s.currentQuestionIndex + 1)
  }

  lemma InitialConsistent()
    ensures Consistent(InitialState())
  {
  }

  // ---------------------------------------------------------------------------
  // The reducers, on state values
  // ---------------------------------------------------------------------------

  function ReduceSetParsingStatus(s: InterviewState): (r: InterviewState)
    ensures r.status == ParsingResume && r.error == None
    ensures r.candidateInfo == s.candidateInfo && r.questions == s.questions
    ensures r.answers == s.answers && r.currentQuestionIndex == s.currentQuestionIndex
    ensures Consistent(s) ==> Consistent(r)
  {
    s.(status := ParsingResume, error := None)
  }

  function ReduceSetCandidateInfo(s: InterviewState, info: CandidateInfo): (r: InterviewState)
    ensures r.candidateInfo == info
    ensures r.status == ReadyToStart <==> Complete(info)
    ensures r.status == AwaitingInfo <==> !Complete(info)
    ensures r.error == s.error && r.questions == s.questions
    ensures r.answers == s.answers && r.currentQuestionIndex == s.currentQuestionIndex
    ensures Consistent(s) ==> Consistent(r)
  {
    var status := if !Present(info.name) || !Present(info.email) || !Present(info.phone)
                  then AwaitingInfo else ReadyToStart;
    s.(candidateInfo := info, status := status)
  }

  function ReduceSetInterviewError(s: InterviewState, message: string): (r: InterviewState)
    ensures r.status == Idle && r.error == Some(message)
    ensures r.candidateInfo == s.candidateInfo && r.questions == s.questions
    ensures r.answers == s.answers && r.currentQuestionIndex == s.currentQuestionIndex
    ensures Consistent(s) ==> Consistent(r)
  {
    s.(status := Idle, error := Some(message))
  }

  /** No status guard and no "was it missing" guard: any field can be written in any state. */
  function ReduceUpdateCandidateField(s: InterviewState, f: Field, value: string): (r: InterviewState)
    ensures Get(r.candidateInfo, f) == Some(value)
    ensures forall g :: g != f ==> Get(r.candidateInfo, g) == Get(s.candidateInfo, g)
    ensures r.status == s.status && r.error == s.error && r.questions == s.questions
    ensures r.answers == s.answers && r.currentQuestionIndex == s.currentQuestionIndex
    ensures Consistent(s) ==> Consistent(r)
  {
    s.(candidateInfo := With(s.candidateInfo, f, Some(value)))
  }

  function ReduceValidateCandidateInfo(s: InterviewState): (r: InterviewState)
    ensures Complete(s.candidateInfo) ==> r.status == ReadyToStart && r.error == None
    ensures !Complete(s.candidateInfo) ==> r.status == s.status && r.error == Some(MissingFieldsMessage)
    ensures r.candidateInfo == s.candidateInfo && r.questions == s.questions
    ensures r.answers == s.answers && r.currentQuestionIndex == s.currentQuestionIndex
    ensures Consistent(s) ==> Consistent(r)
  {
    var info := s.candidateInfo;
    if Present(info.name) && Present(info.email) && Present(info.phone) then
      s.(status := ReadyToStart, error := None)
    else
      s.(error := Some(MissingFieldsMessage))
  }

  /** Whatever the prior state, the interview (re)starts on the given list. */
  function ReduceStartInterview(s: InterviewState, questions: seq<Question>): (r: InterviewState)
    ensures r.status == InProgress && r.questions == questions
    ensures r.answers == [] && r.currentQuestionIndex == 0
    ensures r.candidateInfo == s.candidateInfo && r.error == s.error
    ensures Consistent(r)
  {
    s.(questions := questions, answers := [], currentQuestionIndex := 0, status := InProgress)
  }

  /** Always records the answer (no status guard); moves to the next question
      if there is one, else marks the interview completed. */
  function ReduceSubmitAnswer(s: InterviewState, answer: string): (r: InterviewState)
    ensures r.answers == s.answers + [answer]
    ensures s.currentQuestionIndex + 1 < |s.questions| ==>
              r.currentQuestionIndex == s.currentQuestionIndex + 1 && r.status == s.status
    ensures s.currentQuestionIndex + 1 >= |s.questions| ==>
              r.currentQuestionIndex == s.currentQuestionIndex && r.status == Completed
    ensures r.candidateInfo == s.candidateInfo && r.error == s.error && r.questions == s.questions
    ensures Consistent(s) ==> Consistent(r)
  {
    var s' := s.(answers := s.answers + [answer]);
    if s.currentQuestionIndex < |s.questions| - 1 then
      s'.(currentQuestionIndex := s.currentQuestionIndex + 1)
    else
      s'.(status := Completed)
  }

  /** The slice's reducer: one action applied to one state. */
  function Reduce(s: InterviewState, a: Action): (r: InterviewState)
    ensures Consistent(s) ==> Consistent(r)
  {
    match a
    case SetParsingStatus => ReduceSetParsingStatus(s)
    case SetCandidateInfo(info) => ReduceSetCandidateInfo(s, info)
    case SetInterviewError(message) => ReduceSetInterviewError(s, message)
    case UpdateCandidateField(f, value) => ReduceUpdateCandidateField(s, f, value)
    case ValidateCandidateInfo => ReduceValidateCandidateInfo(s)
    case StartInterview(questions) => ReduceStartInterview(s, questions)
    case SubmitAnswer(answer) => ReduceSubmitAnswer(s, answer)
  }

  /** Dispatching a sequence of actions, first to last. */
  function DispatchAll(s: InterviewState, actions: seq<Action>): (r: InterviewState)
    ensures Consistent(s) ==> Consistent(r)
    decreases |actions|
  {
    if actions == [] then s else DispatchAll(Reduce(s, actions[0]), actions[1..])
  }

  lemma {:induction false} DispatchAllAppend(s: InterviewState, a: seq<Action>, b: seq<Action>)
    ensures DispatchAll(s, a + b) == DispatchAll(DispatchAll(s, a), b)
    decreases |a|
  {
    if a == [] {
      assert a + b == b;
    } else {
      assert (a + b)[0] == a[0];
      assert (a + b)[1..] == a[1..] + b;
      DispatchAllAppend(Reduce(s, a[0]), a[1..], b);
    }
  }

  lemma DispatchOne(s: InterviewState, a: Action)
    ensures DispatchAll(s, [a]) == Reduce(s, a)
  {
    assert [a][1..] == [];
  }

  /** One SubmitAnswer action per answer, in order. */
  function Submits(answers: seq<string>): (r: seq<Action>)
    ensures |r| == |answers|
    ensures forall i :: 0 <= i < |answers| ==> r[i] == SubmitAnswer(answers[i])
  {
    if answers == [] then [] else [SubmitAnswer(answers[0])] + Submits(answers[1..])
  }

  /** Submitting a list of answers is submitting the first, then the rest. */
  lemma SubmitsCons(s: InterviewState, answers: seq<string>)
    requires answers != []
    ensures DispatchAll(s, Submits(answers))
            == DispatchAll(ReduceSubmitAnswer(s, answers[0]), Submits(answers[1..]))
  {
    var acts := Submits(answers);
    assert acts[0] == SubmitAnswer(answers[0]);
    assert acts[1..] == Submits(answers[1..]);
  }

  lemma AppendFirst(a: seq<string>, xs: seq<string>)
    requires xs != []
    ensures a + xs == (a + [xs[0]]) + xs[1..]
  {
    assert xs == [xs[0]] + xs[1..];
  }

  // ---------------------------------------------------------------------------
  // Properties of the reducers
  // ---------------------------------------------------------------------------

  /** Every state reachable from the initial state by any actions keeps the
      pointer/answers invariant. */
  lemma ReachableConsistent(actions: seq<Action>)
    ensures Consistent(DispatchAll(InitialState(), actions))
  {
    InitialConsistent();
  }

  /** Validation is idempotent: a second confirm changes nothing. */
  lemma ValidateIdempotent(s: InterviewState)
    ensures ReduceValidateCandidateInfo(ReduceValidateCandidateInfo(s)) == ReduceValidateCandidateInfo(s)
  {
  }

  /** Whatever the status, every submission appends its answer and no
      submission changes the questions. */
  lemma {:induction false} SubmitsRecord(s: InterviewState, answers: seq<string>)
    ensures DispatchAll(s, Submits(answers)).answers == s.answers + answers
    ensures DispatchAll(s, Submits(answers)).questions == s.questions
    decreases |answers|
  {
    if answers == [] {
      assert s.answers + answers == s.answers;
    } else {
      var s1 := ReduceSubmitAnswer(s, answers[0]);
      SubmitsCons(s, answers);
      SubmitsRecord(s1, answers[1..]);
      AppendFirst(s.answers, answers);
    }
  }

  /** Submitting answers from question k of an interview in progress: the
      answers are appended in order; the pointer advances by one per answer
      until the last question, whose answer completes the interview. */
  lemma {:induction false} SubmitsInProgress(s: InterviewState, answers: seq<string>)
    requires s.status == InProgress && |s.answers| == s.currentQuestionIndex
    requires s.currentQuestionIndex < |s.questions|
    requires s.currentQuestionIndex + |answers| <= |s.questions|
    ensures DispatchAll(s, Submits(answers)).answers == s.answers + answers
    ensures DispatchAll(s, Submits(answers)).questions == s.questions
    ensures s.currentQuestionIndex + |answers| < |s.questions| ==>
              DispatchAll(s, Submits(answers)).status == InProgress
              && DispatchAll(s, Submits(answers)).currentQuestionIndex == s.currentQuestionIndex + |answers|
    ensures s.currentQuestionIndex + |answers| == |s.questions| ==>
              DispatchAll(s, Submits(answers)).status == Completed
              && DispatchAll(s, Submits(answers)).currentQuestionIndex == |s.questions| - 1
    decreases |answers|
  {
    SubmitsRecord(s, answers);
    if answers != [] {
      var s1 := ReduceSubmitAnswer(s, answers[0]);
      SubmitsCons(s, answers);
      if s.currentQuestionIndex + 1 < |s.questions| {
        SubmitsInProgress(s1, answers[1..]);
      } else {
        SubmitLast(s, answers);
      }
    }
  }

  /** The answer to the last question completes the interview. */
  lemma SubmitLast(s: InterviewState, answers: seq<string>)
    requires |answers| == 1 && s.currentQuestionIndex + 1 == |s.questions|
    ensures DispatchAll(ReduceSubmitAnswer(s, answers[0]), Submits(answers[1..])).status == Completed
    ensures DispatchAll(ReduceSubmitAnswer(s, answers[0]), Submits(answers[1..])).currentQuestionIndex
            == |s.questions| - 1
  {
    assert Submits(answers[1..]) == [];
  }

  /** Once completed, every further submission still appends its answer
      (nothing guards against a late timer firing) and nothing else moves. */
  lemma {:induction false} SubmitsAfterCompletion(s: InterviewState, answers: seq<string>)
    requires s.status == Completed && Consistent(s)
    ensures DispatchAll(s, Submits(answers)) == s.(answers := s.answers + answers)
    decreases |answers|
  {
    if answers == [] {
      assert s.answers + answers == s.answers;
    } else {
      assert s.currentQuestionIndex + 1 >= |s.questions|;
      var s1 := ReduceSubmitAnswer(s, answers[0]);
      assert s1 == s.(answers := s.answers + [answers[0]]);
      SubmitsCons(s, answers);
      SubmitsAfterCompletion(s1, answers[1..]);
      AppendFirst(s.answers, answers);
    }
  }

  /** A whole interview on n >= 1 questions: after k < n answers it is in
      progress at question k with exactly the k answers; after n answers it is
      completed at the last question; the pointer never passes n - 1. */
  lemma InterviewRun(s: InterviewState, questions: seq<Question>, answers: seq<string>)
    requires 1 <= |questions| && |answers| <= |questions|
    ensures DispatchAll(s, [StartInterview(questions)] + Submits(answers)).questions == questions
    ensures DispatchAll(s, [StartInterview(questions)] + Submits(answers)).answers == answers
    ensures DispatchAll(s, [StartInterview(questions)] + Submits(answers)).currentQuestionIndex
              <= |questions| - 1
    ensures |answers| < |questions| ==>
              DispatchAll(s, [StartInterview(questions)] + Submits(answers)).status == InProgress
              && DispatchAll(s, [StartInterview(questions)] + Submits(answers)).currentQuestionIndex == |answers|
    ensures |answers| == |questions| ==>
              DispatchAll(s, [StartInterview(questions)] + Submits(answers)).status == Completed
              && DispatchAll(s, [StartInterview(questions)] + Submits(answers)).currentQuestionIndex == |questions| - 1
  {
    var started := ReduceStartInterview(s, questions);
    DispatchAllAppend(s, [StartInterview(questions)], Submits(answers));
    assert DispatchAll(s, [StartInterview(questions)]) == started by {
      assert [StartInterview(questions)][1..] == [];
    }
    SubmitsInProgress(started, answers);
  }

  /** Answers submitted beyond the last question are all recorded: with
      m >= n submissions the interview is completed, holds all m answers and
      the pointer rests on the last question. */
  lemma InterviewOverrun(s: InterviewState, questions: seq<Question>, answers: seq<string>, late: seq<string>)
    requires 1 <= |questions| && |answers| == |questions|
    ensures DispatchAll(s, [StartInterview(questions)] + Submits(answers) + Submits(late)).status == Completed
    ensures DispatchAll(s, [StartInterview(questions)] + Submits(answers) + Submits(late)).answers == answers + late
    ensures DispatchAll(s, [StartInterview(questions)] + Submits(answers) + Submits(late)).currentQuestionIndex
              == |questions| - 1
  {
    var done := DispatchAll(s, [StartInterview(questions)] + Submits(answers));
    InterviewRun(s, questions, answers);
    DispatchAllAppend(s, [StartInterview(questions)] + Submits(answers), Submits(late));
    assert Consistent(done) by {
      assert DispatchAll(s, [StartInterview(questions)]) == ReduceStartInterview(s, questions) by {
        assert [StartInterview(questions)][1..] == [];
      }
      DispatchAllAppend(s, [StartInterview(questions)], Submits(answers));
    }
    SubmitsAfterCompletion(done, late);
  }

  // ---------------------------------------------------------------------------
  // The store: the same reducers as in-place updates of one session object
  // ---------------------------------------------------------------------------

  class InterviewStore {
    var status: Status
    var candidateInfo: CandidateInfo
    var error: Option<string>
    var questions: seq<Question>
    var answers: seq<string>
    var currentQuestionIndex: nat

    ghost function Snapshot(): InterviewState
      reads this
    {
      InterviewState(status, candidateInfo, error, questions, answers, currentQuestionIndex)
    }

    ghost predicate Valid()
      reads this
    {
      Consistent(Snapshot())
    }

    constructor ()
      ensures Valid() && Snapshot() == InitialState()
    {
      status := Idle;
      candidateInfo := CandidateInfo(None, None, None);
      error := None;
      questions := [];
      answers := [];
      currentQuestionIndex := 0;
    }

    method SetParsingStatus()
      requires Valid()
      modifies this
      ensures Valid() && Snapshot() == ReduceSetParsingStatus(old(Snapshot()))
    {
      status := ParsingResume;
      error := None;
    }

    method SetCandidateInfo(info: CandidateInfo)
      requires Valid()
      modifies this
      ensures Valid() && Snapshot() == ReduceSetCandidateInfo(old(Snapshot()), info)
    {
      candidateInfo := info;
      if !Present(info.name) || !Present(info.email) || !Present(info.phone) {
        status := AwaitingInfo;
      } else {
        status := ReadyToStart;
      }
    }

    method SetInterviewError(message: string)
      requires Valid()
      modifies this
      ensures Valid() && Snapshot() == ReduceSetInterviewError(old(Snapshot()), message)
    {
      status := Idle;
      error := Some(message);
    }

    method UpdateCandidateField(f: Field, value: string)
      requires Valid()
      modifies this
      ensures Valid() && Snapshot() == ReduceUpdateCandidateField(old(Snapshot()), f, value)
    {
      match f
      case Name => candidateInfo := candidateInfo.(name := Some(value));
      case Email => candidateInfo := candidateInfo.(email := Some(value));
      case Phone => candidateInfo := candidateInfo.(phone := Some(value));
    }

    method ValidateCandidateInfo()
      requires Valid()
      modifies this
      ensures Valid() && Snapshot() == ReduceValidateCandidateInfo(old(Snapshot()))
    {
      if Present(candidateInfo.name) && Present(candidateInfo.email) && Present(candidateInfo.phone) {
        status := ReadyToStart;
        error := None;
      } else {
        error := Some(MissingFieldsMessage);
      }
    }

    method StartInterview(qs: seq<Question>)
      requires Valid()
      modifies this
      ensures Valid() && Snapshot() == ReduceStartInterview(old(Snapshot()), qs)
    {
      questions := qs;
      answers := [];
      currentQuestionIndex := 0;
      status := InProgress;
    }

    method SubmitAnswer(answer: string)
      requires Valid()
      modifies this
      ensures Valid() && Snapshot() == ReduceSubmitAnswer(old(Snapshot()), answer)
    {
      answers := answers + [answer];
      if currentQuestionIndex < |questions| - 1 {
        currentQuestionIndex := currentQuestionIndex + 1;
      } else {
        status := Completed;
      }
    }

    /** Dispatch of one action to the store. */
    method Dispatch(a: Action)
      requires Valid()
      modifies this
      ensures Valid() && Snapshot() == Reduce(old(Snapshot()), a)
    {
      match a
      case SetParsingStatus => SetParsingStatus();
      case SetCandidateInfo(info) => SetCandidateInfo(info);
      case SetInterviewError(message) => SetInterviewError(message);
      case UpdateCandidateField(f, value) => UpdateCandidateField(f, value);
      case ValidateCandidateInfo => ValidateCandidateInfo();
      case StartInterview(qs) => StartInterview(qs);
      case SubmitAnswer(answer) => SubmitAnswer(answer);
    }
  }
}
