# Interview assistant: session state machine, archive and dashboard view

This project models the behaviour behind a browser interview assistant in Dafny. The assistant has two sides:

- The candidate side reads a résumé, asks for any missing contact fields and runs a timed question-and-answer session.
- The interviewer side lists completed sessions, with a search box, sortable columns and summary figures.

The project models four parts:

- **`InterviewSlice`** (`interview_slice.dfy`) is the Redux slice for the live session. `InterviewState` has six fields: status, candidate info (three nullable strings), error, questions, answers and the current-question pointer.
  - Each of the seven reducers is a pure function `Reduce*`. `Reduce` dispatches one `Action` and `DispatchAll` applies a sequence of actions.
  - The class `InterviewStore` holds the same six fields. Its methods make the Immer-style in-place updates, and each is proved to equal the matching `Reduce*` function.
  - Every reducer applies in every status, as in the code. "Present" means JavaScript truthiness: `null` and `''` both count as missing.
  - `Consistent` is the pointer/answers invariant, and every reachable state satisfies it. The pointer is 0 or inside the question list. At least one answer is recorded per question already passed. While in progress, exactly those answers are recorded. Once completed, the pointer is on the last question, if there is one, and its answer is recorded; a submission with no questions at all completes the session with the pointer at 0.
- **`CandidatesSlice`** (`candidates_slice.dfy`) is the archive of completed profiles, newest first. `CandidatesStore.AddCandidateProfile` performs the `unshift`. There is no duplicate-id guard.
- **`InterviewerTab`** (`interviewer_tab.dfy`) is the dashboard's derived view:
  - the case-insensitive name search;
  - the comparator for name, score or date in either direction;
  - a stable sort, proved to be the only sorted, tie-order-preserving permutation;
  - the column-header toggle;
  - the count and the rounded average score.
- **`IntervieweeTab`** (`interviewee_tab.dfy`) holds the candidate handlers. Each handler is a function that gives the actions it dispatches, plus a method that runs them on an `InterviewStore`. The handlers are the résumé upload, the missing-details form, the start button and answer submission. It also holds the per-difficulty timer lengths and the "No answer provided." default.
- **`Scenarios`** (`scenarios.dfy`) states the flow end to end, as lemmas, on the mock service's fixed data: the two résumé extractions and the six questions.

The awaited calls are inputs: résumé extraction and question generation. Their resolved value or their failure is passed in as a `Result`.

## Model

| member | source | states |
|---|---|---|
| `InterviewSlice.InitialState` | src/app/slices/InterviewSlice.ts:38-46 | the session starts idle, all three contact fields null, no error, no questions or answers, pointer 0 |
| `InterviewSlice.InitialConsistent` | src/app/slices/InterviewSlice.ts:38-46 | the initial session satisfies the pointer/answers invariant |
| `InterviewSlice.With` | src/app/slices/InterviewSlice.ts:71 | writing one contact field sets that field and leaves the other two as they were |
| `InterviewSlice.CompleteIffAllPresent` | src/app/slices/InterviewSlice.ts:74 | "name && email && phone" holds exactly when every field is truthy |
| `InterviewSlice.ReduceSetParsingStatus` | src/app/slices/InterviewSlice.ts:53-56 | status becomes parsing_resume and error is cleared; contact fields, questions, answers and pointer are unchanged; the invariant is kept |
| `InterviewSlice.ReduceSetCandidateInfo` | src/app/slices/InterviewSlice.ts:57-64 | contact fields become the payload; status is ready_to_start iff all three are truthy, else awaiting_info; error, questions, answers and pointer are untouched |
| `InterviewSlice.ReduceSetInterviewError` | src/app/slices/InterviewSlice.ts:65-68 | from any status the session becomes idle with the message as error; contact fields, questions, answers and pointer are unchanged |
| `InterviewSlice.ReduceUpdateCandidateField` | src/app/slices/InterviewSlice.ts:69-72 | exactly the named field takes the value, with no status or was-missing guard; the other fields and all other state are unchanged |
| `InterviewSlice.ReduceValidateCandidateInfo` | src/app/slices/InterviewSlice.ts:73-80 | all fields truthy: ready_to_start with error cleared; otherwise status unchanged and error is "Please fill in all required fields." |
| `InterviewSlice.ValidateIdempotent` | src/app/slices/InterviewSlice.ts:73-80 | validating twice gives the same session as validating once |
| `InterviewSlice.ReduceStartInterview` | src/app/slices/InterviewSlice.ts:82-87 | whatever the prior state: questions become the payload, answers empty, pointer 0, status in_progress; the invariant holds afterwards |
| `InterviewSlice.ReduceSubmitAnswer` | src/app/slices/InterviewSlice.ts:89-96 | always appends exactly the one answer; advances the pointer if a next question exists, else marks the session completed with the pointer left in place; the invariant is kept |
| `InterviewSlice.Reduce` | src/app/slices/InterviewSlice.ts:52-97 | every action keeps the pointer/answers invariant |
| `InterviewSlice.DispatchAll` | src/app/slices/InterviewSlice.ts:52-97 | any sequence of dispatched actions keeps the invariant |
| `InterviewSlice.ReachableConsistent` | src/app/slices/InterviewSlice.ts:38-97 | every state reachable from the initial one satisfies the invariant |
| `InterviewSlice.SubmitsRecord` | src/app/slices/InterviewSlice.ts:89-96 | in any status, a run of submissions appends exactly those answers in order and leaves the questions unchanged |
| `InterviewSlice.SubmitsInProgress` | src/app/slices/InterviewSlice.ts:89-96 | from question k in progress, j more answers (k + j <= n) are appended in order; before the last question the session stays in progress at k + j, and the last one completes it at n - 1 |
| `InterviewSlice.SubmitsAfterCompletion` | src/app/slices/InterviewSlice.ts:89-96 | once completed, every further submission still appends its answer and changes nothing else |
| `InterviewSlice.InterviewRun` | src/app/slices/InterviewSlice.ts:82-96 | after starting on n >= 1 questions and k answers: if k < n, in progress with pointer k and exactly those k answers; if k = n, completed with pointer n - 1; the pointer never exceeds n - 1 |
| `InterviewSlice.InterviewOverrun` | src/app/slices/InterviewSlice.ts:82-96 | answers submitted after the last question are all recorded; the session stays completed with the pointer on the last question |
| `InterviewSlice.InterviewStore.constructor` | src/app/slices/InterviewSlice.ts:38-46 | a new store holds the initial session |
| `InterviewSlice.InterviewStore.SetParsingStatus` | src/app/slices/InterviewSlice.ts:53-56 | the in-place update equals ReduceSetParsingStatus on the previous session and keeps the invariant |
| `InterviewSlice.InterviewStore.SetCandidateInfo` | src/app/slices/InterviewSlice.ts:57-64 | the in-place update equals ReduceSetCandidateInfo and keeps the invariant |
| `InterviewSlice.InterviewStore.SetInterviewError` | src/app/slices/InterviewSlice.ts:65-68 | the in-place update equals ReduceSetInterviewError and keeps the invariant |
| `InterviewSlice.InterviewStore.UpdateCandidateField` | src/app/slices/InterviewSlice.ts:69-72 | the in-place write of one field equals ReduceUpdateCandidateField and keeps the invariant |
| `InterviewSlice.InterviewStore.ValidateCandidateInfo` | src/app/slices/InterviewSlice.ts:73-80 | the in-place update equals ReduceValidateCandidateInfo and keeps the invariant |
| `InterviewSlice.InterviewStore.StartInterview` | src/app/slices/InterviewSlice.ts:82-87 | the in-place update equals ReduceStartInterview and keeps the invariant |
| `InterviewSlice.InterviewStore.SubmitAnswer` | src/app/slices/InterviewSlice.ts:89-96 | the push and the pointer increment or completion equal ReduceSubmitAnswer and keep the invariant |
| `InterviewSlice.InterviewStore.Dispatch` | src/app/slices/InterviewSlice.ts:52-97 | dispatching any action to the store has the effect Reduce gives |
| `CandidatesSlice.CandidatesStore.constructor` | src/app/slices/candidatesSlice.ts:30-32 | the archive starts empty |
| `CandidatesSlice.CandidatesStore.AddCandidateProfile` | src/app/slices/candidatesSlice.ts:43-51 | the new profile becomes element 0; the length grows by exactly one; the previous profiles follow unchanged and in order |
| `CandidatesSlice.AddCountsId` | src/app/slices/candidatesSlice.ts:50 | adding a profile raises the count of its id by exactly one and leaves every other id's count alone |
| `CandidatesSlice.AddDuplicateId` | src/app/slices/candidatesSlice.ts:43-51 | with no uniqueness check, adding a profile whose id is already archived leaves at least two entries with that id |
| `InterviewerTab.Lower` | src/pages/InterviewerTab.tsx:40 | the lower-cased string has the same length and no capital letter A-Z left; each capital becomes its lower-case letter and every other character stays where it was |
| `InterviewerTab.LowerIdempotent` | src/pages/InterviewerTab.tsx:40 | lower-casing an already lower-cased string changes nothing |
| `InterviewerTab.Matches` | src/pages/InterviewerTab.tsx:40 | a profile matches only when its name is non-null and at least as long as the search term |
| `InterviewerTab.MatchesLowerTerm` | src/pages/InterviewerTab.tsx:40 | the search ignores the case of the term: a term matches a profile exactly when its lower-cased form does |
| `InterviewerTab.Filter` | src/pages/InterviewerTab.tsx:39-41 | keeps each profile whose name is non-null and whose lower-cased name contains the lower-cased term, with its full multiplicity, and no other profile |
| `InterviewerTab.FilterAppend` | src/pages/InterviewerTab.tsx:39-41 | filtering keeps relative order: filtering a concatenation gives the concatenation of the filtered parts |
| `InterviewerTab.FilterEmptyTerm` | src/pages/InterviewerTab.tsx:39-41 | with an empty term exactly the profiles with a non-null name are shown, so null-name profiles are dropped |
| `InterviewerTab.NameOrEmptyAlike` | src/pages/InterviewerTab.tsx:50-51 | for the name column a null name sorts as '', exactly like an empty name, and a present name sorts as itself |
| `InterviewerTab.Compare` | src/pages/InterviewerTab.tsx:49-68 | the comparator returns 0 exactly when the two profiles have equal name (null read as ''), score or date for the chosen column |
| `InterviewerTab.KeyFacts` | src/pages/InterviewerTab.tsx:62-67 | the column's `<` is asymmetric, and two values tie exactly when neither is below the other |
| `InterviewerTab.CompareAntisymmetric` | src/pages/InterviewerTab.tsx:62-68 | swapping the arguments negates the comparator's result |
| `InterviewerTab.CompareTransitive` | src/pages/InterviewerTab.tsx:62-68 | "may come first" is transitive, so the comparator is consistent |
| `InterviewerTab.StrLessIrreflexive` | src/pages/InterviewerTab.tsx:62-65 | no string is below itself under string `<` |
| `InterviewerTab.StrLessProperPrefix` | src/pages/InterviewerTab.tsx:62-65 | a proper prefix is below the longer string under string `<` |
| `InterviewerTab.StrLessTransitive` | src/pages/InterviewerTab.tsx:62-65 | string `<` is transitive |
| `InterviewerTab.StrLessTotal` | src/pages/InterviewerTab.tsx:62-65 | of two different strings, one is below the other |
| `InterviewerTab.SortProfiles` | src/pages/InterviewerTab.tsx:45-69 | the sorted copy is a permutation of the filtered list (same length, same elements with multiplicity) and is sorted by the comparator |
| `InterviewerTab.SortStable` | src/pages/InterviewerTab.tsx:45-69 | elements on which the comparator returns 0 keep their order from the filtered list |
| `InterviewerTab.StableSortUnique` | src/pages/InterviewerTab.tsx:45-69 | two sorted permutations of the same elements that order every group of ties the same way are equal |
| `InterviewerTab.SortProfilesIsStableSort` | src/pages/InterviewerTab.tsx:45-69 | any sorted permutation that keeps tied elements in input order, as a stable sort returns, equals SortProfiles' result |
| `InterviewerTab.SortedMeaning` | src/pages/InterviewerTab.tsx:49-67 | sorted by score or date: non-decreasing for asc, non-increasing for desc; by name: the same in string order, a null name read as '' |
| `InterviewerTab.SortedProfiles` | src/pages/InterviewerTab.tsx:37-70 | the table holds each matching profile as often as it is archived, no other profile, and is sorted by the comparator |
| `InterviewerTab.SortedProfilesSpec` | src/pages/InterviewerTab.tsx:37-70 | the table holds exactly the matching profiles with their multiplicity, sorted, ties in archive order |
| `InterviewerTab.DefaultSortClicks` | src/pages/InterviewerTab.tsx:32 | the table starts sorted by score, descending; from there the first click on Score sorts it ascending and the first click on any other column sorts that column descending |
| `InterviewerTab.HandleSort` | src/pages/InterviewerTab.tsx:73-79 | the new column is the clicked one; direction is asc exactly when that column was already sorted desc, else desc |
| `InterviewerTab.HandleSortFlips` | src/pages/InterviewerTab.tsx:73-79 | clicking the same header twice in a row always flips the direction |
| `InterviewerTab.SumScores` | src/pages/InterviewerTab.tsx:85 | the left-to-right fold of `reduce` gives the same total as summing from the front: the first score plus the sum of the rest |
| `InterviewerTab.SumScoresAppend` | src/pages/InterviewerTab.tsx:85 | the sum over two consecutive parts of the archive is the sum of the parts' sums |
| `InterviewerTab.RoundDiv` | src/pages/InterviewerTab.tsx:85 | the result is the integer nearest to num/den, halves rounded up, as Math.round does |
| `InterviewerTab.DashboardStats` | src/pages/InterviewerTab.tsx:82-86 | total and completed counts both equal the archive length; the average is 0 for an empty archive, else the score sum over the count rounded half-up |
| `InterviewerTab.SumScoresBounds` | src/pages/InterviewerTab.tsx:85 | with every score in 0..100 the sum lies in 0..100 times the count |
| `InterviewerTab.AverageInRange` | src/pages/InterviewerTab.tsx:82-86 | with every score in 0..100 the average is in 0..100 |
| `IntervieweeTab.TimerDuration` | src/pages/IntervieweeTab.tsx:211-215 | Easy gets 20 seconds, Medium 60, Hard 120 |
| `IntervieweeTab.TimerDurationIncreasing` | src/pages/IntervieweeTab.tsx:211-215 | a harder question gets strictly more time, and only a harder one does |
| `IntervieweeTab.AnswerText` | src/pages/IntervieweeTab.tsx:220 | the dispatched answer is the typed text, or "No answer provided." when nothing was typed; it is never empty |
| `IntervieweeTab.AnswerTexts` | src/pages/IntervieweeTab.tsx:218-222 | one non-empty dispatched answer per typed text, in order |
| `IntervieweeTab.SubmitActions` | src/pages/IntervieweeTab.tsx:218-222 | submitting dispatches exactly one submitAnswer; its answer is never empty, is the typed text when something was typed and "No answer provided." otherwise |
| `IntervieweeTab.HandleSubmit` | src/pages/IntervieweeTab.tsx:218-222 | the handler's effect on the store equals SubmitActions: submitAnswer with the typed text or the default text |
| `IntervieweeTab.AnsweredInterview` | src/pages/IntervieweeTab.tsx:218-222 | whatever is typed for each of the n questions, the interview ends completed with one non-empty answer per question |
| `IntervieweeTab.FieldUpdates` | src/pages/IntervieweeTab.tsx:65-69 | every dispatched update writes a field that was filled in the form and missing in the stored details, with the form's value |
| `IntervieweeTab.FormSubmitActions` | src/pages/IntervieweeTab.tsx:64-71 | the confirm button dispatches only such updates, then exactly one validation, last |
| `IntervieweeTab.Merged` | src/pages/IntervieweeTab.tsx:66-67 | a field takes the form's value exactly when the form value is non-empty and the stored field is missing; otherwise it keeps its stored value |
| `IntervieweeTab.FieldUpdatesEffect` | src/pages/IntervieweeTab.tsx:65-69 | the updates for a list of keys change only the contact fields: each listed field the form writes gets its form value, and every other field is kept |
| `IntervieweeTab.FormSubmitOutcome` | src/pages/IntervieweeTab.tsx:64-71 | present fields are never overwritten. When every field was present or filled in, the status becomes ready_to_start and the error is cleared. Otherwise the status stays and the error is the fixed message. From awaiting_info: ready iff every field was present or filled |
| `IntervieweeTab.HandleFormSubmit` | src/pages/IntervieweeTab.tsx:64-71 | the loop over the three keys and the final validation have exactly the effect of FormSubmitActions, checked against the details as shown |
| `IntervieweeTab.Prefill` | src/pages/IntervieweeTab.tsx:55 | a form value is non-empty exactly when the extracted field is present, and it is that field's value; a missing field gives '' |
| `IntervieweeTab.FileChangeActions` | src/pages/IntervieweeTab.tsx:47-60 | with no file nothing is dispatched; otherwise setParsingStatus, then exactly one of setCandidateInfo (extraction succeeded) or setInterviewError (it failed) |
| `IntervieweeTab.FileChangeOutcome` | src/pages/IntervieweeTab.tsx:47-60 | on success the session holds the extracted details with no error, ready_to_start iff all three are present, else awaiting_info; on failure it is idle with the message and the details untouched |
| `IntervieweeTab.PrefilledFormUnchanged` | src/pages/IntervieweeTab.tsx:53-70 | confirming the pre-filled form as it is stores nothing new, so the session is ready exactly when the résumé gave all three fields |
| `IntervieweeTab.HandleFileChange` | src/pages/IntervieweeTab.tsx:47-60 | the handler's effect on the store equals FileChangeActions; the form is pre-filled only after a successful extraction |
| `IntervieweeTab.StartActions` | src/pages/IntervieweeTab.tsx:74-81 | exactly one action: startInterview with the generated list, or setInterviewError with "Failed to generate interview questions. Please try again." |
| `IntervieweeTab.StartOutcome` | src/pages/IntervieweeTab.tsx:74-81 | success: in progress on the generated list, no answers, pointer 0. Failure: idle with the fixed message, previous questions and answers kept. No status in between is set |
| `IntervieweeTab.HandleStartInterview` | src/pages/IntervieweeTab.tsx:74-81 | the handler's effect on the store equals StartActions |
| `Scenarios.CompleteResumeSession` | src/lib/gemini.ts:56-63 | a complete résumé gives ready_to_start; six answers to the six sample questions then complete the session with six answers and the pointer on question 6 |
| `Scenarios.MissingDetailsSession` | src/lib/gemini.ts:38 | a résumé without email and phone gives awaiting_info; confirming the form with both typed in gives ready_to_start and keeps the extracted name |
| `Scenarios.LateTimerAfterCompletion` | src/pages/IntervieweeTab.tsx:232-236 | a timer firing after the last answer adds a seventh answer, "No answer provided.", and the session stays completed |

## Left out

- Persistence is not modelled: the redux-persist store and browser storage in src/app/store.ts are library calls. That file also leaves the candidates reducer commented out, so in the code the archive is not wired into the store. Here `CandidatesStore` stands on its own.
- Nothing in the modelled files dispatches `addCandidateProfile`. There is no finalize step and no scoring call. The scoring mock in src/lib/gemini.ts is not part of this model.
- src/App.tsx is not part of this model: routing and the welcome-back dialog. It imports a `resetInterview` action that the interview slice does not define, so no reset transition is modelled.
- Résumé text extraction (pdfjs) and the mocked AI calls (`setTimeout`, `Math.random`) are not modelled. Their outcomes are `Result` parameters of the handlers.
- The countdown timer is not modelled: `setInterval`, `useEffect` and the race between timer expiry and a manual submit are timing. Only the effect of the `submitAnswer` it dispatches is modelled, and a late one appends another answer (`InterviewOverrun`).
- Rendering, animation and styling are not modelled: `renderContent`, `CandidateDetailModal`, `StatCard`, the badge and header components. This includes the fixed "In Progress: 0" card and showing 'N/A' for an average of 0.
- `InterviewerTab.Lower`: `toLowerCase` is modelled for ASCII letters only; other case mappings are not.
- `InterviewerTab.StrLess`: JavaScript compares strings by UTF-16 code units. The model compares characters, which agrees except for characters outside the Basic Multilingual Plane.
- `InterviewerTab.Compare`: the date column compares `date` as an integer timestamp. Parsing date strings with `new Date(...)` and the behaviour of unparsable dates (NaN) are not modelled.
- `InterviewerTab.DashboardStats`: scores are unbounded integers and the average is exact integer rounding of sum/count. Floating-point error in the division is not modelled.
- `InterviewerTab.SortProfiles` is an insertion sort, not the engine's sorting algorithm. `SortProfilesIsStableSort` shows that any stable sort with this comparator gives the same result.
- `IntervieweeTab.HandleFileChange` takes whether a file was chosen and the extraction's outcome as inputs. The file object itself is not modelled.
