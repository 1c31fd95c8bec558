/** The candidate-facing handlers: each turns one user event (a chosen
    résumé file, the missing-details form, the start button, an answer) into
    the actions it dispatches to the interview slice. The awaited calls
    (résumé extraction, question generation) are inputs: their resolved value
    or their failure is passed in. */
module IntervieweeTab {
  import opened Wrappers
  import opened InterviewSlice

  // ---------------------------------------------------------------------------
  // Answering
  // ---------------------------------------------------------------------------

  /** Seconds allowed for a question. */
  function TimerDuration(d: Difficulty): (seconds: nat)
    ensures d == Easy ==> seconds == 20
    ensures d == Medium ==> seconds == 60
    ensures d == Hard ==> seconds == 120
  {
    if d == Easy then 20
    else if d == Medium then 60
    else 120
  }

  function DifficultyRank(d: Difficulty): nat {
    match d
    case Easy => 0
    case Medium => 1
    case Hard => 2
  }

  /** A harder question always gets strictly more time. */
  lemma TimerDurationIncreasing(d1: Difficulty, d2: Difficulty)
    ensures DifficultyRank(d1) < DifficultyRank(d2) <==> TimerDuration(d1) < TimerDuration(d2)
  {
  }

  const NoAnswerText: string := "No answer provided."

  /** `answer || "No answer provided."`: what the submit button and the
      timer's expiry dispatch. */
  function AnswerText(typed: string): (r: string)
    ensures r != ""
    ensures typed != "" ==> r == typed
    ensures typed == "" ==> r == NoAnswerText
  {
    if typed != "" then typed else NoAnswerText
  }

  function AnswerTexts(typed: seq<string>): (r: seq<string>)
    ensures |r| == |typed|
    ensures forall i :: 0 <= i < |typed| ==> r[i] == AnswerText(typed[i]) && r[i] != ""
  {
    if typed == [] then [] else [AnswerText(typed[0])] + AnswerTexts(typed[1..])
  }

  /** What handleSubmit dispatches: exactly one submitAnswer, whose answer is
      never empty and is the typed text whenever something was typed. */
  function SubmitActions(typed: string): (acts: seq<Action>)
    ensures |acts| == 1 && acts[0].SubmitAnswer? && acts[0].answer != ""
    ensures typed != "" ==> acts[0].answer == typed
    ensures typed == "" ==> acts[0].answer == NoAnswerText
  {
    [SubmitAnswer(AnswerText(typed))]
  }

  method HandleSubmit(store: InterviewStore, typed: string)
    requires store.Valid()
    modifies store
    ensures store.Valid()
    ensures store.Snapshot() == DispatchAll(old(store.Snapshot()), SubmitActions(typed))
    ensures store.Snapshot() == ReduceSubmitAnswer(old(store.Snapshot()), AnswerText(typed))
  {
    ghost var before := store.Snapshot();
    store.SubmitAnswer(AnswerText(typed));
    DispatchOne(before, SubmitAnswer(AnswerText(typed)));
  }

  /** Whatever the candidate types (or leaves empty) for each of the n
      questions, the interview ends completed with one non-empty answer per
      question. */
  lemma AnsweredInterview(s: InterviewState, questions: seq<Question>, typed: seq<string>)
    requires 1 <= |questions| && |typed| == |questions|
    ensures DispatchAll(s, [StartInterview(questions)] + Submits(AnswerTexts(typed))).status == Completed
    ensures DispatchAll(s, [StartInterview(questions)] + Submits(AnswerTexts(typed))).answers
              == AnswerTexts(typed)
    ensures forall i :: 0 <= i < |questions| ==>
              DispatchAll(s, [StartInterview(questions)] + Submits(AnswerTexts(typed))).answers[i] != ""
  {
    InterviewRun(s, questions, AnswerTexts(typed));
  }

  // ---------------------------------------------------------------------------
  // The missing-details form
  // ---------------------------------------------------------------------------

  /** The form's three text inputs; never null, '' when left blank. */
  datatype FormData = FormData(name: string, email: string, phone: string)

  function FormValue(form: FormData, f: Field): string {
    match f
    case Name => form.name
    case Email => form.email
    case Phone => form.phone
  }

  /** `Object.keys(formData)`. */
  const FormKeys: seq<Field> := [Name, Email, Phone]

  /** Whether the form writes field f: it was filled in and the stored value is missing. */
  predicate Writes(info: CandidateInfo, form: FormData, f: Field) {
    FormValue(form, f) != "" && !Present(Get(info, f))
  }

  /** The update dispatched for one key, if any. */
  function FieldUpdate(info: CandidateInfo, form: FormData, f: Field): seq<Action> {
    if Writes(info, form, f) then [UpdateCandidateField(f, FormValue(form, f))] else []
  }

  /** The updates dispatched for the given keys, in order. */
  function FieldUpdates(info: CandidateInfo, form: FormData, keys: seq<Field>): (acts: seq<Action>)
    ensures forall i :: 0 <= i < |acts| ==>
              acts[i].UpdateCandidateField? && Writes(info, form, acts[i].field)
              && acts[i].value == FormValue(form, acts[i].field)
  {
    if keys == [] then []
    else FieldUpdates(info, form, keys[..|keys| - 1]) + FieldUpdate(info, form, keys[|keys| - 1])
  }

  /** Everything the confirm button dispatches: the updates, then exactly one
      validation, last. */
  function FormSubmitActions(info: CandidateInfo, form: FormData): (acts: seq<Action>)
    ensures acts != [] && acts[|acts| - 1] == ValidateCandidateInfo
    ensures forall i :: 0 <= i < |acts| - 1 ==>
              acts[i].UpdateCandidateField? && Writes(info, form, acts[i].field)
  {
    FieldUpdates(info, form, FormKeys) + [ValidateCandidateInfo]
  }

  /** The contact fields after the form is applied: filled-in blanks take the
      typed value, everything else is kept. */
  function Merged(info: CandidateInfo, form: FormData): (r: CandidateInfo)
    ensures forall f :: Get(r, f) == if Writes(info, form, f) then Some(FormValue(form, f)) else Get(info, f)
  {
    var m := (f: Field) => if Writes(info, form, f) then Some(FormValue(form, f)) else Get(info, f);
    CandidateInfo(m(Name), m(Email), m(Phone))
  }

  lemma {:induction false} FieldUpdatesEffect(s: InterviewState, info: CandidateInfo, form: FormData, keys: seq<Field>)
    ensures DispatchAll(s, FieldUpdates(info, form, keys))
            == s.(candidateInfo := DispatchAll(s, FieldUpdates(info, form, keys)).candidateInfo)
    ensures forall f ::
              Get(DispatchAll(s, FieldUpdates(info, form, keys)).candidateInfo, f)
              == if f in keys && Writes(info, form, f) then Some(FormValue(form, f)) else Get(s.candidateInfo, f)
    decreases |keys|
  {
    if keys != [] {
      var init, k := keys[..|keys| - 1], keys[|keys| - 1];
      assert keys == init + [k];
      FieldUpdatesEffect(s, info, form, init);
      var mid := DispatchAll(s, FieldUpdates(info, form, init));
      DispatchAllAppend(s, FieldUpdates(info, form, init), FieldUpdate(info, form, k));
      if Writes(info, form, k) {
        DispatchOne(mid, UpdateCandidateField(k, FormValue(form, k)));
      }
      forall f ensures f in keys <==> f in init || f == k {
      }
    }
  }

  /** handleFormSubmit: fields already present are never overwritten, blanks
      the candidate filled in are stored, and validation then decides: ready
      to start when every field is present or filled in, otherwise the status
      stays and the fixed "missing fields" error is shown. */
  lemma FormSubmitOutcome(s: InterviewState, form: FormData)
    ensures DispatchAll(s, FormSubmitActions(s.candidateInfo, form)).candidateInfo
            == Merged(s.candidateInfo, form)
    ensures forall f :: Present(Get(s.candidateInfo, f)) ==>
              Get(DispatchAll(s, FormSubmitActions(s.candidateInfo, form)).candidateInfo, f)
              == Get(s.candidateInfo, f)
    ensures (forall f :: Present(Get(s.candidateInfo, f)) || FormValue(form, f) != "") ==>
              DispatchAll(s, FormSubmitActions(s.candidateInfo, form)).status == ReadyToStart
              && DispatchAll(s, FormSubmitActions(s.candidateInfo, form)).error == None
    ensures !(forall f :: Present(Get(s.candidateInfo, f)) || FormValue(form, f) != "") ==>
              DispatchAll(s, FormSubmitActions(s.candidateInfo, form)).status == s.status
              && DispatchAll(s, FormSubmitActions(s.candidateInfo, form)).error == Some(MissingFieldsMessage)
    ensures s.status == AwaitingInfo ==>
              (DispatchAll(s, FormSubmitActions(s.candidateInfo, form)).status == ReadyToStart
               <==> forall f :: Present(Get(s.candidateInfo, f)) || FormValue(form, f) != "")
    ensures DispatchAll(s, FormSubmitActions(s.candidateInfo, form)).questions == s.questions
    ensures DispatchAll(s, FormSubmitActions(s.candidateInfo, form)).answers == s.answers
    ensures DispatchAll(s, FormSubmitActions(s.candidateInfo, form)).currentQuestionIndex
            == s.currentQuestionIndex
  {
    var info := s.candidateInfo;
    var updates := FieldUpdates(info, form, FormKeys);
    FieldUpdatesEffect(s, info, form, FormKeys);
    var mid := DispatchAll(s, updates);
    DispatchAllAppend(s, updates, [ValidateCandidateInfo]);
    DispatchOne(mid, ValidateCandidateInfo);
    forall f ensures f in FormKeys {
      match f
      case Name => assert FormKeys[0] == Name;
      case Email => assert FormKeys[1] == Email;
      case Phone => assert FormKeys[2] == Phone;
    }
    var merged := Merged(info, form);
    assert mid.candidateInfo == merged by {
      assert Get(mid.candidateInfo, Name) == Get(merged, Name);
      assert Get(mid.candidateInfo, Email) == Get(merged, Email);
      assert Get(mid.candidateInfo, Phone) == Get(merged, Phone);
    }
    CompleteIffAllPresent(merged);
    assert (forall f :: Present(Get(merged, f))) <==> (forall f :: Present(Get(info, f)) || FormValue(form, f) != "");
  }

  /** Dispatching the update for one key writes that field exactly when the
      form writes it. */
  lemma FieldUpdateEffect(s: InterviewState, info: CandidateInfo, form: FormData, f: Field)
    ensures DispatchAll(s, FieldUpdate(info, form, f))
            == if Writes(info, form, f) then ReduceUpdateCandidateField(s, f, FormValue(form, f)) else s
  {
    if Writes(info, form, f) {
      DispatchOne(s, UpdateCandidateField(f, FormValue(form, f)));
    }
  }

  /** One more key: the updates so far, then that key's update. */
  lemma FieldUpdatesStep(s: InterviewState, info: CandidateInfo, form: FormData, i: nat)
    requires i < |FormKeys|
    ensures DispatchAll(s, FieldUpdates(info, form, FormKeys[..i + 1]))
            == DispatchAll(DispatchAll(s, FieldUpdates(info, form, FormKeys[..i])), FieldUpdate(info, form, FormKeys[i]))
  {
    assert FormKeys[..i + 1][..i] == FormKeys[..i];
    DispatchAllAppend(s, FieldUpdates(info, form, FormKeys[..i]), FieldUpdate(info, form, FormKeys[i]));
  }

  /** handleFormSubmit, run on the store. The form is checked against the
      contact fields as they were when the form was shown. */
  method HandleFormSubmit(store: InterviewStore, form: FormData)
    requires store.Valid()
    modifies store
    ensures store.Valid()
    ensures store.Snapshot() == DispatchAll(old(store.Snapshot()), FormSubmitActions(old(store.candidateInfo), form))
  {
    var info := store.candidateInfo;
    ghost var s0 := store.Snapshot();
    var i := 0;
    while i < |FormKeys|
      invariant 0 <= i <= |FormKeys|
      invariant store.Valid()
      invariant store.Snapshot() == DispatchAll(s0, FieldUpdates(info, form, FormKeys[..i]))
    {
      var f := FormKeys[i];
      ghost var before := store.Snapshot();
      if FormValue(form, f) != "" && !Present(Get(info, f)) {
        store.UpdateCandidateField(f, FormValue(form, f));
      }
      FieldUpdateEffect(before, info, form, f);
      FieldUpdatesStep(s0, info, form, i);
      i := i + 1;
    }
    ghost var mid := store.Snapshot();
    store.ValidateCandidateInfo();
    assert FormKeys[..|FormKeys|] == FormKeys;
    DispatchOne(mid, ValidateCandidateInfo);
    DispatchAllAppend(s0, FieldUpdates(info, form, FormKeys), [ValidateCandidateInfo]);
  }

  // ---------------------------------------------------------------------------
  // Choosing a résumé
  // ---------------------------------------------------------------------------

  /** `x || ''` for each extracted field: the form starts with what was found. */
  function Prefill(info: CandidateInfo): (form: FormData)
    ensures forall f :: FormValue(form, f) != "" <==> Present(Get(info, f))
    ensures forall f :: Present(Get(info, f)) ==> FormValue(form, f) == Get(info, f).value
  {
    var v := (x: Option<string>) => if x.Some? then x.value else "";
    FormData(v(info.name), v(info.email), v(info.phone))
  }

  /** What handleFileChange dispatches: nothing without a file; otherwise the
      parsing status, then the extracted details or the extraction error —
      exactly one of the two. */
  function FileChangeActions(hasFile: bool, extraction: Result<CandidateInfo, string>): (acts: seq<Action>)
    ensures !hasFile ==> acts == []
    ensures hasFile ==> |acts| == 2 && acts[0] == SetParsingStatus
    ensures hasFile ==> (acts[1].SetCandidateInfo? <==> extraction.Ok?)
    ensures hasFile ==> (acts[1].SetInterviewError? <==> extraction.Err?)
    ensures hasFile && extraction.Ok? ==> acts[1] == SetCandidateInfo(extraction.value)
    ensures hasFile && extraction.Err? ==> acts[1] == SetInterviewError(extraction.error)
  {
    if !hasFile then []
    else
      match extraction
      case Ok(info) => [SetParsingStatus, SetCandidateInfo(info)]
      case Err(message) => [SetParsingStatus, SetInterviewError(message)]
  }

  /** After a résumé is read the session holds exactly the extracted details,
      with no error, ready to start iff all three are present; after a failed
      read it is idle with the failure's message and its details untouched. */
  lemma FileChangeOutcome(s: InterviewState, extraction: Result<CandidateInfo, string>)
    ensures extraction.Ok? ==>
              DispatchAll(s, FileChangeActions(true, extraction)).candidateInfo == extraction.value
              && DispatchAll(s, FileChangeActions(true, extraction)).error == None
              && (DispatchAll(s, FileChangeActions(true, extraction)).status == ReadyToStart
                  <==> Complete(extraction.value))
              && (DispatchAll(s, FileChangeActions(true, extraction)).status == AwaitingInfo
                  <==> !Complete(extraction.value))
    ensures extraction.Err? ==>
              DispatchAll(s, FileChangeActions(true, extraction)).status == Idle
              && DispatchAll(s, FileChangeActions(true, extraction)).error == Some(extraction.error)
              && DispatchAll(s, FileChangeActions(true, extraction)).candidateInfo == s.candidateInfo
    ensures DispatchAll(s, FileChangeActions(true, extraction)).questions == s.questions
    ensures DispatchAll(s, FileChangeActions(true, extraction)).answers == s.answers
    ensures DispatchAll(s, FileChangeActions(true, extraction)).currentQuestionIndex == s.currentQuestionIndex
  {
    var acts := FileChangeActions(true, extraction);
    assert acts == [acts[0]] + [acts[1]];
    DispatchAllAppend(s, [acts[0]], [acts[1]]);
    DispatchOne(s, acts[0]);
    DispatchOne(Reduce(s, acts[0]), acts[1]);
  }

  /** Confirming the pre-filled form unchanged stores nothing new, so the
      session is ready to start exactly when the résumé gave all three fields. */
  lemma PrefilledFormUnchanged(s: InterviewState, info: CandidateInfo)
    requires s.candidateInfo == info
    ensures DispatchAll(s, FormSubmitActions(info, Prefill(info))).candidateInfo == info
    ensures Complete(info) ==>
              DispatchAll(s, FormSubmitActions(info, Prefill(info))).status == ReadyToStart
    ensures !Complete(info) ==>
              DispatchAll(s, FormSubmitActions(info, Prefill(info))).status == s.status
  {
    var form := Prefill(info);
    FormSubmitOutcome(s, form);
    forall f ensures !Writes(info, form, f) {
    }
    var merged := Merged(info, form);
    assert Get(merged, Name) == Get(info, Name);
    assert Get(merged, Email) == Get(info, Email);
    assert Get(merged, Phone) == Get(info, Phone);
    CompleteIffAllPresent(info);
  }

  method HandleFileChange(store: InterviewStore, hasFile: bool, extraction: Result<CandidateInfo, string>,
                          form: FormData) returns (form': FormData)
    requires store.Valid()
    modifies store
    ensures store.Valid()
    ensures store.Snapshot() == DispatchAll(old(store.Snapshot()), FileChangeActions(hasFile, extraction))
    ensures form' == if hasFile && extraction.Ok? then Prefill(extraction.value) else form
  {
    form' := form;
    if hasFile {
      ghost var s0 := store.Snapshot();
      store.SetParsingStatus();
      ghost var s1 := store.Snapshot();
      match extraction {
        case Ok(info) =>
          store.SetCandidateInfo(info);
          form' := Prefill(info);
        case Err(message) =>
          store.SetInterviewError(message);
      }
      var acts := FileChangeActions(hasFile, extraction);
      assert acts == [acts[0]] + [acts[1]];
      DispatchAllAppend(s0, [acts[0]], [acts[1]]);
      DispatchOne(s0, acts[0]);
      DispatchOne(s1, acts[1]);
    }
  }

  // ---------------------------------------------------------------------------
  // Starting the interview
  // ---------------------------------------------------------------------------

  const GenerationFailedMessage: string := "Failed to generate interview questions. Please try again."

  /** What handleStartInterview dispatches: one action, the start on the
      generated list or the fixed failure message (the thrown error is not shown). */
  function StartActions(generated: Result<seq<Question>, string>): (acts: seq<Action>)
    ensures |acts| == 1
    ensures generated.Ok? ==> acts[0] == StartInterview(generated.value)
    ensures generated.Err? ==> acts[0] == SetInterviewError(GenerationFailedMessage)
  {
    match generated
    case Ok(questions) => [StartInterview(questions)]
    case Err(_) => [SetInterviewError(GenerationFailedMessage)]
  }

  /** Starting either puts the interview in progress on the generated list
      with no answers at the first question, or leaves the session idle with
      the fixed message and its previous questions and answers; no status in
      between is ever set. */
  lemma StartOutcome(s: InterviewState, generated: Result<seq<Question>, string>)
    ensures generated.Ok? ==>
              DispatchAll(s, StartActions(generated)).status == InProgress
              && DispatchAll(s, StartActions(generated)).questions == generated.value
              && DispatchAll(s, StartActions(generated)).answers == []
              && DispatchAll(s, StartActions(generated)).currentQuestionIndex == 0
    ensures generated.Err? ==>
              DispatchAll(s, StartActions(generated)).status == Idle
              && DispatchAll(s, StartActions(generated)).error == Some(GenerationFailedMessage)
              && DispatchAll(s, StartActions(generated)).questions == s.questions
              && DispatchAll(s, StartActions(generated)).answers == s.answers
    ensures DispatchAll(s, StartActions(generated)).candidateInfo == s.candidateInfo
  {
    DispatchOne(s, StartActions(generated)[0]);
  }

  method HandleStartInterview(store: InterviewStore, generated: Result<seq<Question>, string>)
    requires store.Valid()
    modifies store
    ensures store.Valid()
    ensures store.Snapshot() == DispatchAll(old(store.Snapshot()), StartActions(generated))
  {
    ghost var s0 := store.Snapshot();
    match generated {
      case Ok(questions) => store.StartInterview(questions);
      case Err(_) => store.SetInterviewError(GenerationFailedMessage);
    }
    DispatchOne(s0, StartActions(generated)[0]);
  }
}
