# Quiz engine of nidoe-study, modelled in Dafny

nidoe-study turns study material into quizzes. A quiz is made of questions of four kinds:
- multiple choice;
- short answer;
- matching terms to shuffled definitions;
- step-by-step puzzles.

Each quiz is generated question by question by a language model, normalised on the way in, played in a runner that keeps a ledger of answers, and graded. The result is shown on a summary page and listed on a dashboard and in a history of activity. A guest may generate two quizzes without an account.

This project models the pure logic of that engine as immutable datatypes and total functions, and proves properties about them:
- the answer widgets and their in-place graders (`AnswerBlock`);
- the answer ledger, its grading, ordering and scoring (`Ledger`);
- the quiz runner's session: navigation, saved progress with its 24-hour staleness rule, completion, results and the practice quiz built from wrong answers (`QuizContainer`);
- the ingestion normalisers and validators: the generator in `Gemini`, the document store in `Firestore`, the quiz page in `QuizPage`, and the upload page in `UploadPage`;
- the formatters and the small record logic of the pages, in `Utils`, `SummaryPage`, `DashboardPage`, `HistoryPage`, `SettingsContext`, `SettingsPage` and `LoginPage`.

Clock readings, the shuffle permutation, `JSON.parse`, storage reads, the generator's replies and the authentication outcome are all parameters of the functions that use them.

Helper modules:
- `Wrappers` holds `Option` and `Result`.
- `Text` holds JavaScript's trimming (all of its white space and line terminators), lower-casing of the ASCII and Latin-1 letters, `indexOf`, `split` and `join`, and digit strings.
- `JsValues` holds a JSON-like value type with JavaScript truthiness.
- `JsMath` holds `Math.floor`, `Math.round` and `%` on integers.
- `Selection` holds order-preserving filtering.
- `Counting` holds cardinality facts about distinct sequences.

## Model

| member | source | states |
|---|---|---|
| AnswerBlock.ChoiceInit | src/components/quiz/AnswerBlock.tsx:127-128 | a widget opened on a saved option shows it selected and submitted; without one it is open and unselected |
| AnswerBlock.ChoiceReopenRestoresSelection | src/components/quiz/AnswerBlock.tsx:127-150 | reopening the widget on the option it reported gives back exactly the state the selection left |
| AnswerBlock.SelectOption | src/components/quiz/AnswerBlock.tsx:142-150 | a selection is reported exactly when the widget is not yet submitted; afterwards the widget is submitted, and a second selection changes nothing |
| AnswerBlock.ChoiceRunAfterSubmit | src/components/quiz/AnswerBlock.tsx:127-150 | on a submitted widget, any run of clicks reports nothing and leaves the state as it was |
| AnswerBlock.ChoiceFirstSelectionWins | src/components/quiz/AnswerBlock.tsx:142-150 | over any run of clicks on a fresh widget, only the first click is reported, and it stays selected |
| AnswerBlock.ShortSubmit | src/components/quiz/AnswerBlock.tsx:240-255 | a submission happens iff the text is not blank and the widget is not submitted; the untrimmed text is reported and graded by the trim-and-lower-case rule |
| AnswerBlock.ShortInit | src/components/quiz/AnswerBlock.tsx:221-238 | a widget opened on a non-empty saved text shows it submitted and graded by the same rule; without one (or with the empty text) it opens fresh |
| AnswerBlock.ShortReopenRestoresSubmission | src/components/quiz/AnswerBlock.tsx:221-255 | reopening the widget on the text it reported gives back exactly the state the submission left |
| AnswerBlock.ExactAnswerAccepted | src/components/quiz/AnswerBlock.tsx:240-246 | `checkAnswer` accepts an accepted answer typed exactly, when it has no white space at either end |
| AnswerBlock.PaddedAnswerNeverMatches | src/components/quiz/AnswerBlock.tsx:240-246 | accepted answers are not trimmed, so one stored with leading white space is never matched by any typed text |
| AnswerBlock.ShortAnswerNormalisationInvariant | src/components/quiz/AnswerBlock.tsx:240-246 | grading the typed text gives the same verdict as grading its trimmed, lower-cased form |
| AnswerBlock.TrimIdempotent | src/components/quiz/AnswerBlock.tsx:242 | trimming twice equals trimming once |
| AnswerBlock.LowerIdempotent | src/components/quiz/AnswerBlock.tsx:242-243 | lower-casing twice equals lower-casing once |
| AnswerBlock.ShortAnswerExample | src/components/quiz/AnswerBlock.tsx:240-246 | "CAFÉ" padded with an ideographic space is accepted for the answer "café": Unicode white space is trimmed and the comparison ignores the case of accented capitals |
| AnswerBlock.ShuffledDefinitions | src/components/quiz/AnswerBlock.tsx:361-367 | slot i shows the definition of pair perm[i] and records that pair's index |
| AnswerBlock.EachDefinitionShownOnce | src/components/quiz/AnswerBlock.tsx:361-367 | for any permutation, every pair index appears in exactly one slot |
| AnswerBlock.HandleMatch | src/components/quiz/AnswerBlock.tsx:389-396 | before submission the term is set to the slot and every other entry is kept; after submission nothing changes |
| AnswerBlock.HandleMatchOverwrites | src/components/quiz/AnswerBlock.tsx:389-396 | matching the same term twice keeps only the later slot |
| AnswerBlock.MatchSubmitAsWritten | src/components/quiz/AnswerBlock.tsx:398-417 | a submission happens iff the number of matched keys equals the number of slots and the widget is not submitted; the verdict is the slot-origin check, and the raw slot indices are reported |
| AnswerBlock.PairIndices | src/components/quiz/AnswerBlock.tsx:401-404 | the translation of a slot answer into pair indices keeps the keys and maps each slot to its original pair index |
| AnswerBlock.MatchSubmit | src/components/quiz/AnswerBlock.tsx:398-417 | the corrected submission: the same state change and condition as written, reporting pair indices instead of slots |
| AnswerBlock.SlotOf | src/components/quiz/AnswerBlock.tsx:412-417 | the slot that shows a pair's definition, or -1 exactly when none does |
| AnswerBlock.TermKeysCard | src/components/quiz/AnswerBlock.tsx:398-399 | there are exactly n term keys for n pairs |
| AnswerBlock.CorrectSubmissionIsInverse | src/components/quiz/AnswerBlock.tsx:398-417 | a full answer that `checkMatches` (CheckMatches) accepts names every term once and sends each term to the slot showing its own definition: the inverse of the shuffle |
| AnswerBlock.PlaceholderFillsCount | src/components/quiz/AnswerBlock.tsx:398-399 | choosing the "Match with..." placeholder adds a NaN key that counts toward the number of matches, so an incomplete answer is submitted and judged wrong |
| AnswerBlock.TypeStepAnswer | src/components/quiz/AnswerBlock.tsx:584-588 | typing changes only the current step's text |
| AnswerBlock.StepTransition | src/components/quiz/AnswerBlock.tsx:590-606 | a step submit never changes the typed answers and ignores an empty answer |
| AnswerBlock.StepSubmitPreservesInv | src/components/quiz/AnswerBlock.tsx:590-606 | a submit keeps the puzzle's shape: a correct non-last step advances the cursor by one, a correct last step completes the puzzle, and a wrong step stays put without completing |
| AnswerBlock.PuzzleInit | src/components/quiz/AnswerBlock.tsx:553-560 | a fresh puzzle has every text empty and every step unattempted, the cursor on the first step, and is not complete |
| AnswerBlock.PuzzleRestore | src/components/quiz/AnswerBlock.tsx:553-582 | a saved array jumps to the last step and marks the puzzle completed while every status stays unattempted and every text empty, a state outside the fresh puzzle's shape but in the restored shape; any other saved value leaves the fresh puzzle |
| AnswerBlock.RestoredSubmitStaysRestored | src/components/quiz/AnswerBlock.tsx:590-606 | on a restored puzzle a submit only grades the last step, solved or wrong, and the puzzle stays on the last step, marked complete, with the earlier steps unattempted |
| AnswerBlock.SubmitKeepsShape | src/components/quiz/AnswerBlock.tsx:590-606 | an enabled submit keeps a fresh puzzle in the fresh shape and a restored one in the restored shape |
| AnswerBlock.StatusFlags | src/components/quiz/AnswerBlock.tsx:608 | the reported flag of a step is true exactly when its status is correct |
| AnswerBlock.StepSubmitAsWritten | src/components/quiz/AnswerBlock.tsx:590-612 | as written, a report is made on a wrong step and on the last correct step, and it maps the statuses from before the step was graded |
| AnswerBlock.StepSubmit | src/components/quiz/AnswerBlock.tsx:590-612 | the corrected submit reports the statuses after the step is graded, under the same condition |
| AnswerBlock.StaleReportHasFalse | src/components/quiz/AnswerBlock.tsx:597-611 | as written, every report contains a false flag |
| AnswerBlock.FreshReportOnCompletion | src/components/quiz/AnswerBlock.tsx:597-611 | corrected, solving the last step reports all true, and a wrong step reports false for that step |
| AnswerBlock.PuzzleEventStep | src/components/quiz/AnswerBlock.tsx:584-681 | typing and submitting keep a fresh puzzle in the fresh shape and a restored one in the restored shape; typing never reports, is ignored on a solved step (its input is disabled) and otherwise changes only the current text; a submit disabled by `SubmitEnabled` (no text, or the step already solved) changes nothing |
| AnswerBlock.PuzzleRun | src/components/quiz/AnswerBlock.tsx:584-612 | any sequence of typing and submitting keeps a fresh puzzle in the fresh shape and a restored one in the restored shape |
| AnswerBlock.AsWrittenEventNeverAllTrue | src/components/quiz/AnswerBlock.tsx:608-611 | no single event reports all steps as correct, as written |
| AnswerBlock.AsWrittenNeverReportsAllTrue | src/components/quiz/AnswerBlock.tsx:608-611 | over any run of events from a fresh or a restored puzzle, no report has all steps correct, as written |
| AnswerBlock.AsWrittenRestoredNeverReportsAllTrue | src/components/quiz/AnswerBlock.tsx:553-611 | a widget opened on a saved puzzle answer never reports all steps correct, as written: its last step stays submittable and the report shows it unsolved |
| AnswerBlock.OneStepPuzzleExample | src/components/quiz/AnswerBlock.tsx:590-612 | solving a one-step puzzle reports [false] as written and [true] corrected |
| Ledger.GradeMatchingFrom | src/components/quiz/QuizContainer.tsx:242-247 | walking the entries in key order gives true exactly when every remaining entry pairs equal definitions, and throws only on an entry that names no pair |
| Ledger.GradeMatching | src/components/quiz/QuizContainer.tsx:242-247 | a matching answer is graded true iff every entry's term and value are pair indices with equal definitions; it throws only if some entry names no pair |
| Ledger.GradeIndexedFrom | src/components/quiz/QuizContainer.tsx:242-247 | the entries of a string or an array grade true iff each position and its value (a digit, white space as 0, a boolean as 0 or 1) name pairs of equal definition; it throws only if some entry names no pair |
| Ledger.Grade | src/components/quiz/QuizContainer.tsx:233-251 | multiple choice is correct iff the index equals `correctAnswer`; short answer uses the widget's rule on the answer's text; matching uses the pair rule on a matching record, passes a number, and grades a string or an array position by position; a puzzle is correct iff every flag is true and throws on a non-array; any other type is false |
| Ledger.ShortAnswerGradeAgreesWithWidget | src/components/quiz/QuizContainer.tsx:237-241 | the ledger's verdict on a reported short answer equals the widget's own |
| Ledger.ChoiceGradeAgreesWithWidget | src/components/quiz/QuizContainer.tsx:235-236 | the ledger's verdict on a selected option equals the widget's own |
| Ledger.MatchingReportMisgraded | src/components/quiz/QuizContainer.tsx:246 | as written, a correct matching answer over a shuffled board is accepted by the widget and graded wrong by the ledger |
| Ledger.CorrectedMatchingReportAgrees | src/components/quiz/QuizContainer.tsx:242-247 | with pair indices reported, a widget-accepted answer is graded correct; with distinct definitions the two verdicts agree both ways |
| Ledger.AsWrittenPuzzleNeverGradedCorrect | src/components/quiz/QuizContainer.tsx:248-251 | as written, the ledger grades every puzzle report wrong |
| Ledger.CorrectedPuzzleGraded | src/components/quiz/QuizContainer.tsx:248-251 | corrected, a solved puzzle is graded correct and a wrong step is graded wrong |
| Ledger.GradeEntry | src/components/quiz/QuizContainer.tsx:230-257 | an entry is graded at its own question index, or at its position when it has none; it throws when that question does not exist or grading throws |
| Ledger.GradeUpTo | src/components/quiz/QuizContainer.tsx:229-258 | the graded prefix has one graded entry per position, or the grading throws |
| Ledger.Insert | src/components/quiz/QuizContainer.tsx:260-265 | inserting into a sorted ledger keeps it sorted and adds exactly that entry |
| Ledger.SortByIndex | src/components/quiz/QuizContainer.tsx:260-265 | the result is sorted by question index and is a permutation of the input |
| Ledger.EvaluateAnswers | src/components/quiz/QuizContainer.tsx:228-270 | evaluation succeeds iff every entry can be graded; it keeps the count and returns a sorted permutation of the graded entries |
| Ledger.InsertAtEnd | src/components/quiz/QuizContainer.tsx:260-265 | an entry no smaller than all others is inserted at the end |
| Ledger.SortSortedIdentity | src/components/quiz/QuizContainer.tsx:260-265 | sorting an already sorted ledger changes nothing |
| Ledger.EvaluatedEntries | src/components/quiz/QuizContainer.tsx:228-270 | every evaluated entry names an existing question and carries that question's verdict |
| Ledger.RegradeEntry | src/components/quiz/QuizContainer.tsx:230-257 | re-grading an evaluated entry gives it back unchanged |
| Ledger.RegradeAll | src/components/quiz/QuizContainer.tsx:229-258 | re-grading a fully evaluated ledger gives it back unchanged |
| Ledger.EvaluateIdempotent | src/components/quiz/QuizContainer.tsx:228-270 | evaluating an evaluated ledger gives the same ledger |
| Ledger.Score | src/components/quiz/QuizContainer.tsx:276 | the score never exceeds the number of entries |
| Ledger.ScoreAppend | src/components/quiz/QuizContainer.tsx:276 | the score of a concatenation is the sum of the scores |
| Ledger.ScorePermutation | src/components/quiz/QuizContainer.tsx:261-276 | reordering the ledger does not change the score |
| Ledger.EvaluatedScore | src/components/quiz/QuizContainer.tsx:228-276 | the score after sorting equals the number of correct graded entries before sorting, and is at most the ledger's length |
| Ledger.FindIndexFor | src/components/quiz/QuizContainer.tsx:193-196 | the position found is the first entry standing for the question, or -1 exactly when there is none |
| Ledger.RecordAnswer | src/components/quiz/QuizContainer.tsx:193-212 | recording replaces the entry for the question in place or appends a new one; every other entry is unchanged, and the ledger grows by at most one |
| Ledger.RecordThenRead | src/components/quiz/QuizContainer.tsx:193-212 | after recording an answer for a question, that question's answer is the recorded one |
| Ledger.RecordLeavesOthers | src/components/quiz/QuizContainer.tsx:193-212 | recording for one question does not change the answer read for any other |
| Ledger.RecordOverwrites | src/components/quiz/QuizContainer.tsx:193-212 | recording twice for the same question equals recording the later answer once |
| Ledger.RecordPreservesWellFormed | src/components/quiz/QuizContainer.tsx:193-212 | recording keeps every entry naming a valid question, with no question named twice |
| Ledger.CountIndexed | src/components/quiz/QuizContainer.tsx:221 | the number of entries with a question index equals the ledger length iff every entry has one |
| Ledger.Indices | src/components/quiz/QuizContainer.tsx:221 | the list of question indices of the ledger, one per entry |
| Ledger.AnsweredIffIndexed | src/components/quiz/QuizContainer.tsx:193-221 | in a well-formed ledger, a question has an answer iff its index appears among the entries |
| Ledger.FullCountIffAllAnswered | src/components/quiz/QuizContainer.tsx:221 | in a well-formed ledger, the indexed count equals the number of questions iff every question has an answer |
| QuizContainer.Next | src/components/quiz/QuizContainer.tsx:357-373 | the cursor moves forward by one exactly when it is before the last question, so it stays in range |
| QuizContainer.Prev | src/components/quiz/QuizContainer.tsx:375-391 | the cursor moves back by one exactly when it is past the first question |
| QuizContainer.NextPrevInverse | src/components/quiz/QuizContainer.tsx:357-391 | inside the quiz, going forward and then back, or back and then forward, returns to the same question |
| QuizContainer.NextTimesReaches | src/components/quiz/QuizContainer.tsx:357-373 | k presses of Next reach question cursor+k, or stop at the last question |
| QuizContainer.ProgressKeyInjective | src/components/quiz/QuizContainer.tsx:73 | progress documents of different users or different quizzes have different keys when user ids contain no underscore |
| QuizContainer.FirstUnderscore | src/components/quiz/QuizContainer.tsx:73 | the user id is everything before the key's first underscore |
| QuizContainer.WithIndices | src/components/quiz/QuizContainer.tsx:158-161 | the saved ledger keeps every answer and verdict, gives every entry an index, and names the same questions |
| QuizContainer.WithIndicesKeepsAnswers | src/components/quiz/QuizContainer.tsx:158-161 | stamping indices does not change the answer read for any question |
| QuizContainer.WithIndicesIdempotent | src/components/quiz/QuizContainer.tsx:158-161 | stamping indices twice equals stamping them once |
| QuizContainer.SaveProgress | src/components/quiz/QuizContainer.tsx:149-173 | without a user or a quiz id nothing is saved; otherwise the progress document holds the indexed ledger, the time and the cursor |
| QuizContainer.SaveCursor | src/components/quiz/QuizContainer.tsx:362-371 | navigation updates only the cursor and time of an existing progress document and touches nothing else |
| QuizContainer.Restore | src/components/quiz/QuizContainer.tsx:65-91 | a session is restored exactly for a user, a quiz id and a progress document younger than 24 hours, and then resumes its cursor and answers, completed iff it holds one answer per question |
| QuizContainer.SaveThenRestore | src/components/quiz/QuizContainer.tsx:65-91 | a save restored within 24 hours gives back the cursor and the answers, completed iff every question was answered; an older save gives a fresh start |
| QuizContainer.SaveCursorThenRestore | src/components/quiz/QuizContainer.tsx:65-91 | after moving the cursor, restoring gives the moved cursor with the saved answers |
| QuizContainer.HandleAnswered | src/components/quiz/QuizContainer.tsx:188-226 | answering records the answer for the current question and saves progress; the quiz completes exactly when the last question is answered with every entry indexed and grading succeeds, and then the ledger is the graded, sorted record; otherwise it is the recorded ledger, which holds the new answer; the store is unchanged without a user or a quiz id, and otherwise is the old store with only the attempt's snapshot replaced by the final ledger |
| QuizContainer.SaveTwiceKeepsLast | src/components/quiz/QuizContainer.tsx:149-173 | a second `setDoc` of the same attempt overwrites the first, so answering the last question leaves only the graded snapshot |
| QuizContainer.CompletionIffAllAnswered | src/components/quiz/QuizContainer.tsx:221-224 | an answer completes the quiz only when every question has an answer; on the last question, with all earlier ones answered and grading possible, it does complete |
| QuizContainer.SubmitQuiz | src/components/quiz/QuizContainer.tsx:617-628 | Submit, shown (SubmitVisible) only on the answered last question of an open quiz, completes it exactly when grading succeeds; the ledger is then the graded, sorted record, saved as progress for a user with a quiz id; otherwise nothing changes |
| QuizContainer.ResultAnswers | src/components/quiz/QuizContainer.tsx:284-291 | one result per ledger entry |
| QuizContainer.SummaryRecordFor | src/components/quiz/QuizContainer.tsx:300-311 | the record for the summary page carries the quiz title and questions, the score, the total, the time, and per graded entry its question index (0 when missing), whether it is correct, and the answer given |
| QuizContainer.Finish | src/components/quiz/QuizContainer.tsx:274-316 | finishing grades the ledger and saves it as progress; the score counts the correct entries; time is in whole seconds; results are stored only for a user with a quiz id and name the quiz's id; the summary record carries the title, questions, score, total, time and each answer; the route carries score, total and quiz id |
| QuizContainer.ScoreIsCountCorrect | src/components/quiz/QuizContainer.tsx:276-291 | the score equals the number of results marked correct |
| QuizContainer.FinishScoreConsistent | src/components/quiz/QuizContainer.tsx:276-291 | the stored score equals both the correct results and the correct graded entries before sorting |
| QuizContainer.ResultsPercent | src/components/quiz/QuizContainer.tsx:473 | before completion the percentage is 0; after it, the correct share of the questions rounded to the nearest whole percent, within 0 to 100 |
| QuizContainer.ScoreWithinQuestions | src/components/quiz/QuizContainer.tsx:145-147 | the score of a well-formed ledger never exceeds the number of questions |
| QuizContainer.WrongPositions | src/components/quiz/QuizContainer.tsx:322-324 | the positions selected are exactly those with an entry not marked correct, in increasing order |
| QuizContainer.WrongFrom | src/components/quiz/QuizContainer.tsx:322-324 | the same selection from a given position on |
| QuizContainer.MakePracticeQuiz | src/components/quiz/QuizContainer.tsx:319-337 | no practice quiz without wrong answers; otherwise it holds the wrong questions in order, titled "Practice Quiz: " plus the title, owned by the user or "anonymous" |
| QuizContainer.PracticeRoute | src/components/quiz/QuizContainer.tsx:339-352 | a user goes to the new quiz's page, a guest to the practice page |
| QuizContainer.PracticeSelectsWrongQuestions | src/components/quiz/QuizContainer.tsx:319-337 | on a sorted, complete ledger, selection by position agrees with selection by question index |
| QuizContainer.PracticeExample | src/components/quiz/QuizContainer.tsx:319-337 | with answers right, wrong, right, wrong, right, the practice quiz holds questions 2 and 4 |
| Utils.UnitSeconds | src/lib/utils.ts:27-48 | every unit lasts a positive number of seconds |
| Utils.BucketIsLargestFittingUnit | src/lib/utils.ts:21-48 | the unit chosen is the largest that fits the difference, and the count is the difference divided by it, rounded down, at least 1 |
| Utils.FormatDistanceToNow | src/lib/utils.ts:14-48 | an invalid date reads "unknown time ago"; under a minute, future times included, "just now"; otherwise the count and word of the fitting unit |
| Utils.AgoPlural | src/lib/utils.ts:29-48 | the unit word takes an "s" exactly when the count is above 1 |
| Utils.DistanceExamples | src/lib/utils.ts:21-34 | 90 seconds ago reads "1 min ago", two hours "2 hours ago", a future time "just now" |
| Utils.Parts | src/lib/utils.ts:60-78 | a duration splits into seconds, into minutes and seconds, or into hours and minutes with the seconds dropped |
| Utils.FormatTimeSpent | src/lib/utils.ts:54-79 | a missing or negative duration reads "0 sec"; under a minute, the seconds; under an hour, whole minutes and the leftover seconds unless zero; from an hour up, whole hours and the leftover minutes unless zero |
| Utils.TimeSpentExamples | src/lib/utils.ts:60-78 | 125 s reads "2m 5s", 120 s "2m", 3659 s "1h", 7260 s "2h 1m", -3 s "0 sec" |
| Gemini.TitleBase | src/lib/gemini.ts:40-43 | the title is the trimmed first line cut to 50 characters when that line is longer than 10, otherwise the material's first 50 characters |
| Gemini.QuizTitle | src/lib/gemini.ts:40-48 | an ellipsis is added exactly when the base is shorter than the material, so the title has at most 53 characters |
| Gemini.TitleExamples | src/lib/gemini.ts:40-48 | short material is its own title |
| Gemini.TitleFromFirstLine | src/lib/gemini.ts:40-48 | a first line of 11 to 50 characters, without edge spaces, followed by more text, gives that line and an ellipsis |
| Gemini.ExtractJson | src/lib/gemini.ts:108-120 | extraction succeeds iff some "{" precedes some "}"; it yields the text from the first "{" to the last "}" inclusive |
| Gemini.FirstBeforeLast | src/lib/gemini.ts:111 | if any "{" precedes any "}", the first "{" precedes the last "}" |
| Gemini.ExtractWrapped | src/lib/gemini.ts:108-120 | an object wrapped in brace-free text is extracted exactly |
| Gemini.WithDefaultType | src/lib/gemini.ts:127-129 | a falsy type becomes "multipleChoice", a truthy one is kept, and every other field is kept |
| Gemini.ParseQuestion | src/lib/gemini.ts:105-137 | a reply is accepted only if it passes validation; an object passes iff its fields do; text without braces or with unparsable JSON fails with the matching message |
| Gemini.Validate | src/lib/gemini.ts:127-137 | a value passes iff it is an object with question text, at least two options, a numeric answer and an explanation; its type is then defaulted |
| Gemini.ValidateWellFormed | src/lib/gemini.ts:127-137 | a well-formed question passes parsing and validation unchanged |
| Gemini.TextReplyRoundTrip | src/lib/gemini.ts:105-137 | a well-formed question sent as JSON inside brace-free text is parsed back to itself |
| Gemini.Fallback | src/lib/gemini.ts:148-159 | the fallback question is well formed, with four options and answer 0 |
| Gemini.QuestionFor | src/lib/gemini.ts:101-164 | each reply becomes the parsed question when parsing succeeds and the fallback otherwise, so the result is always well formed |
| Gemini.AskQuestions | src/lib/gemini.ts:66-170 | the loop succeeds iff every request succeeds; it then yields one question per request, in order, with progress 1, 2, ...; a failing request ends the run with its error |
| Gemini.GetGeminiQuiz | src/lib/gemini.ts:27-180 | without a key the run fails at once; otherwise it returns the derived title and exactly questionCount well-formed questions, or the first request's error |
| Firestore.NormalizeQuestion | src/lib/firebase/firestore.ts:199-205 | each of question, options, option index, explanation and type keeps a present value and otherwise gets its default ("No question text", one "No options available" option, 0, "No explanation provided", "multipleChoice"); exactly five fields; throws only on null or undefined |
| Firestore.NormalQuestionIsFixed | src/lib/firebase/firestore.ts:199-205 | a question already in normal shape normalises to itself, field for field |
| Firestore.NormalizeQuestionIdempotent | src/lib/firebase/firestore.ts:199-205 | normalising a normalised question changes nothing |
| Firestore.NormalizeAll | src/lib/firebase/firestore.ts:199-205 | the questions keep their number and order, or the whole map throws when one of them is null or undefined |
| Firestore.AsObjects | src/lib/firebase/firestore.ts:199 | each normalised question becomes one object value, in order |
| Firestore.NormalizeQuiz | src/lib/firebase/firestore.ts:179-217 | the quiz always has an id, title, creation time and an array of normalised questions |
| Firestore.NormalizeQuizFields | src/lib/firebase/firestore.ts:184-205 | the document's own fields win over the defaults, even falsy ones; "Untitled Quiz" survives only when there is no title field; questions keep their number and order |
| Firestore.NullQuestionGivesErrorQuiz | src/lib/firebase/firestore.ts:208-217 | a null question turns the whole quiz into the "Error Loading Quiz" placeholder |
| Firestore.NormalizeQuizIdempotent | src/lib/firebase/firestore.ts:184-217 | normalising a normalised quiz changes nothing |
| Firestore.FetchQuizById | src/lib/firebase/firestore.ts:174-221 | no document gives null; otherwise the normalised quiz |
| Firestore.SubscribeToQuiz | src/lib/firebase/firestore.ts:234-284 | the listener delivers the same quiz as a fetch, and null for a missing document or a listener error |
| QuizPage.LoadQuestion | src/app/quiz/page.tsx:33-39 | each of type, question, options, answer index and explanation keeps a present value and otherwise gets its default ("multipleChoice", "Unknown question", one "No options available" option, 0, "No explanation provided"); exactly five fields; throws only on null or undefined |
| QuizPage.LoadQuestionIdempotent | src/app/quiz/page.tsx:33-39 | loading a loaded question changes nothing |
| QuizPage.LoadQuiz | src/app/quiz/page.tsx:18-58 | no stored quiz gives "No quiz found"; a bad shape gives "Invalid quiz format"; a parse failure gives the load error; a loaded quiz has a truthy title and normalised questions |
| QuizPage.LoadQuizKeepsQuestions | src/app/quiz/page.tsx:25-46 | a well-shaped stored quiz keeps its title and its question count and order, and gets the current time when it has no creation time |
| SummaryPage.FormatCompletionTime | src/app/summary/page.tsx:97-111 | 0 or a missing time reads "N/A"; otherwise the minutes and remaining seconds, with "1 minute" in the singular |
| SummaryPage.CompletionTimeParts | src/app/summary/page.tsx:101-102 | the minutes and the remainder recompose the time, with the remainder below 60 |
| SummaryPage.CompletionTimeExamples | src/app/summary/page.tsx:97-111 | 125 s reads "2 minutes 5 seconds" and 0 reads "N/A" |
| SummaryPage.OneMinuteCompletionTime | src/app/summary/page.tsx:106-107 | 60 s reads "1 minute 0 seconds" |
| SummaryPage.NegativeCompletionTime | src/app/summary/page.tsx:97-111 | -30 s reads "-1 minutes -30 seconds" |
| SummaryPage.ToNumber | src/app/summary/page.tsx:334 | a digit string reads as a number, and nothing else does |
| SummaryPage.ToNumberRoundTrip | src/app/summary/page.tsx:334 | a number written as decimal digits reads back as itself |
| SummaryPage.SelectView | src/app/summary/page.tsx:238-252 | a missing or empty score or total shows "Invalid Summary"; otherwise the score view |
| SummaryPage.VerdictFor | src/app/summary/page.tsx:334-338 | "Perfect" iff score equals total; otherwise "Great job" iff score is at least 70% of the total; "Keep studying" in every other case |
| SummaryPage.GreatIsMonotone | src/app/summary/page.tsx:334-338 | a higher score that is still not perfect keeps "Great job" |
| SummaryPage.FinishedRouteShowsVerdict | src/app/summary/page.tsx:334-338 | the route the runner builds shows the score view with the verdict of the true score and total |
| SummaryPage.LoadResults | src/app/summary/page.tsx:58-79 | stored results are accepted iff they parse to a truthy object; text that does not parse gives "Error loading quiz results", a parsed value that is not a truthy object gives "Invalid quiz results format", and no stored text gives no results |
| SummaryPage.FinishedRecordLoads | src/app/summary/page.tsx:58-79 | the record a finished attempt writes, parsed back, loads with the attempt's title, score, question count and time |
| DashboardPage.CompletedPendingPartition | src/app/dashboard/page.tsx:56-57 | the completed and pending lists split the quizzes by the flag, each in the list's order |
| DashboardPage.CompletionRate | src/app/dashboard/page.tsx:60-61 | the rate is 0 without quizzes, and otherwise the completed share of the quizzes rounded to the nearest whole percent, within 0 to 100 |
| DashboardPage.CompletionRateExtremes | src/app/dashboard/page.tsx:60-61 | all completed gives 100, none completed gives 0 |
| DashboardPage.SumScoresBounds | src/app/dashboard/page.tsx:62-64 | scores between lo and hi sum to between n times lo and n times hi |
| DashboardPage.AverageScore | src/app/dashboard/page.tsx:62-64 | 0 when nothing is completed; otherwise the nearest integer to the mean score, a missing score counting as 0 |
| DashboardPage.AverageWithinScores | src/app/dashboard/page.tsx:62-64 | the average lies between the lowest and the highest completed score |
| DashboardPage.CardFooterFor | src/app/dashboard/page.tsx:389-404 | a card shows score over total exactly when the quiz is completed with results; otherwise the question count |
| HistoryPage.FilterItems | src/app/history/page.tsx:54-56 | without a filter every item is shown; with one, only items of that type |
| HistoryPage.FilterByTypeSelects | src/app/history/page.tsx:54-56 | the filter keeps exactly the items of the chosen type, in history order |
| HistoryPage.FilterSplitsHistory | src/app/history/page.tsx:54-56 | the items of a type and the items of other types together account for the whole history |
| HistoryPage.GroupByDate | src/app/history/page.tsx:68-75 | every day group holds at least one item |
| HistoryPage.GroupByDateIsFilter | src/app/history/page.tsx:68-75 | a day has a group iff some item falls on it, and the group is exactly that day's items in history order |
| HistoryPage.GroupsHoldEachItemOnce | src/app/history/page.tsx:68-75 | every item sits in its own day's group and in no other |
| HistoryPage.GroupKeepsOrder | src/app/history/page.tsx:68-75 | a group lists its items in the order they appear in the history |
| HistoryPage.DayOrder | src/app/history/page.tsx:68-75 | the days the groups are created for: each once, exactly the days some item falls on |
| HistoryPage.DayOrderIsFirstAppearance | src/app/history/page.tsx:68-75 | a day listed later first appears later: each of its items comes after some item of every earlier day |
| HistoryPage.GroupedEntriesInOrder | src/app/history/page.tsx:174 | the groups are rendered one per day, each day once, in order of first appearance (newest day first for the newest-first history), each holding exactly that day's items in history order |
| HistoryPage.OrText | src/app/history/page.tsx:204-222 | a missing or empty text falls back to the default |
| HistoryPage.CardTitle | src/app/history/page.tsx:194-230 | each activity type has its own title prefix with a fallback name |
| HistoryPage.LinkedQuiz | src/app/history/page.tsx:201-230 | a card has a quiz to link to exactly when its quiz id is present and not empty |
| HistoryPage.CardLinkAsWritten | src/app/history/page.tsx:201-230 | only completed, started and created quizzes with a quiz id get a link; a completed one goes to the summary with only its id |
| HistoryPage.CompletedLinkShowsInvalidSummary | src/app/history/page.tsx:206 | as written, a completed quiz's link opens the "Invalid Summary" view |
| HistoryPage.CardLink | src/app/history/page.tsx:201-230 | corrected, a completed quiz's link carries the score and total; the other links are unchanged |
| HistoryPage.CompletedLinkShowsScore | src/app/history/page.tsx:206 | corrected, the link has the runner's format and shows the score view with the true verdict |
| SettingsContext.DefaultSettings | src/lib/context/settings-context.tsx:9-35 | the defaults have exactly the four groups, each an object |
| SettingsContext.LoadSettings | src/lib/context/settings-context.tsx:61-90 | without stored settings, or when a guest's text does not parse, the defaults load; otherwise the stored top-level fields are spread over the defaults, so a stored group replaces a whole default group and default groups not stored are kept |
| SettingsContext.ShallowMergeDropsDefaults | src/lib/context/settings-context.tsx:77-81 | a stored partial group drops the default flags it leaves out |
| SettingsContext.UpdateSettings | src/lib/context/settings-context.tsx:111-118 | the given groups replace the current ones and the others are kept |
| SettingsContext.SetInGroup | src/lib/context/settings-context.tsx:121-170 | one key of one group is set; the rest of the group and every other group are kept |
| SettingsContext.UpdateQuizType | src/lib/context/settings-context.tsx:121-131 | sets the quiz-type flag, keeping every other flag and group |
| SettingsContext.UpdateFeature | src/lib/context/settings-context.tsx:134-144 | sets the feature flag, keeping every other flag and group |
| SettingsContext.UpdateUiPreference | src/lib/context/settings-context.tsx:147-157 | sets the display preference, keeping every other key and group |
| SettingsContext.UpdateStudyPreference | src/lib/context/settings-context.tsx:160-170 | sets the study preference, keeping every other key and group |
| SettingsContext.UpdateQuizTypeChangesOneKey | src/lib/context/settings-context.tsx:121-131 | on loaded settings, the update changes exactly one key of the quiz-type group |
| SettingsContext.SetToCurrentValueIsNoop | src/lib/context/settings-context.tsx:121-170 | setting a key to its current value changes nothing |
| SettingsContext.SetInGroupOverwrites | src/lib/context/settings-context.tsx:121-170 | setting a key twice keeps only the later value |
| SettingsContext.UpdatesInDifferentGroupsCommute | src/lib/context/settings-context.tsx:121-170 | updates to different groups can be applied in either order |
| SettingsContext.ResetToDefaults | src/lib/context/settings-context.tsx:173-176 | a reset gives exactly the settings loaded when nothing is stored |
| SettingsPage.SplitName | src/app/settings/page.tsx:47-51 | the first name has no space and starts the display name; with a space the two names rejoin to the display name; without one the last name is empty |
| SettingsPage.NameRoundTrip | src/app/settings/page.tsx:47-51 | a name without edge spaces survives splitting and saving unchanged |
| SettingsPage.NamesFromDisplayName | src/app/settings/page.tsx:47-51 | without a display name the names are empty; otherwise they are its split |
| SettingsPage.LoadProfileAsWritten | src/app/settings/page.tsx:46-61 | as written, a user document's empty names overwrite the split display name with ""; preferences default to "medium" and "10" |
| SettingsPage.LoadProfile | src/app/settings/page.tsx:46-61 | corrected, a name missing from the user document falls back to the split display name |
| SettingsPage.AsWrittenLoadLosesNames | src/app/settings/page.tsx:57-58 | as written, such a user sees empty names and saving stores an empty display name; corrected, saving stores the original name |
| SettingsPage.EmptyNamesSaveEmpty | src/app/settings/page.tsx:98 | two empty names save an empty display name |
| SettingsPage.LoadThenSaveKeepsDisplayName | src/app/settings/page.tsx:46-61 | corrected, loading and saving keeps a display name the user document does not override |
| SettingsPage.PhotoActionFor | src/app/settings/page.tsx:79-95 | a new file is uploaded; otherwise a cleared preview with an existing photo deletes it; otherwise the photo is kept |
| SettingsPage.PhotoUrlAfterSave | src/app/settings/page.tsx:79-95 | the saved photo is the uploaded one, null after a deletion, or the current one |
| UploadPage.MaterialFor | src/app/upload/page.tsx:65-77 | the file tab needs a supported file; the text tab needs non-blank text, passed on untrimmed; otherwise "Please provide study material" |
| UploadPage.EnabledSubmitHasMaterial | src/app/upload/page.tsx:370 | when the button is enabled (not SubmitDisabled), the material check passes unless the file type is unsupported |
| UploadPage.ProgressTick | src/app/upload/page.tsx:81-84 | a tick adds one and never passes the question count |
| UploadPage.TicksCount | src/app/upload/page.tsx:80-85 | after n ticks the counter shows n, capped at the question count |
| UploadPage.NormalizeGenerated | src/app/upload/page.tsx:100-108 | a question keeps exactly the five fields, with the type and explanation defaulted |
| UploadPage.NormalizedQuestionLoadsUnchanged | src/app/upload/page.tsx:100-108 | a generated question, normalised, is left unchanged by the quiz page's loader |
| UploadPage.AlertFor | src/app/upload/page.tsx:146 | the alert is the error message, or the fallback text when the message is empty |
| UploadPage.NormalizeAll | src/app/upload/page.tsx:110-113 | the questions keep their number and order, or the map throws on a null or undefined question |
| UploadPage.Submit | src/app/upload/page.tsx:56-150 | a guest past two plays (GuestBlocked) is stopped first, then bad material; a generator error alerts its message or the fallback, and a null question alerts the TypeError; a success saves for a user the document with the user id, title, normalised questions in order, difficulty, question count and `completed: false`, route "/quiz/" plus id, or for a guest the quiz with title, normalised questions and time, route "/quiz", with one more free play |
| UploadPage.GuestQuiz | src/app/upload/page.tsx:135-139 | the guest's stored quiz has exactly the title, the questions in order and the creation time |
| UploadPage.FreePlayCounter | src/app/upload/page.tsx:116-140 | the free-play count stays within 0 to 2, never changes for a user, and grows by exactly one only on a guest's success |
| UploadPage.GuestQuizLoadsBack | src/app/upload/page.tsx:129-140 | the quiz a guest stores loads back on the quiz page with the same title, questions and creation time |
| LoginPage.EmailAuth | src/app/login/page.tsx:82-130 | in sign-up mode a mismatch is reported first, then missing names; in both modes empty fields; only then is the request made |
| LoginPage.LoginIgnoresSignUpFields | src/app/login/page.tsx:88-99 | in login mode the names and the confirmation play no part |
| LoginPage.AuthErrorText | src/app/login/page.tsx:127 | the error shown is the service's message, or the fallback when it is empty |
| LoginPage.ToggleLoginMode | src/app/login/page.tsx:133-140 | the mode flips and the error clears; names clear only when leaving login mode |
| LoginPage.ToggleTwice | src/app/login/page.tsx:133-140 | toggling twice returns to the same mode with the credentials kept |
| LoginPage.ProviderAuth | src/app/login/page.tsx:64-80 | any provider other than "google" gives an "Unsupported provider" error; for google, an error only if the sign-in fails |
| LoginPage.GuestBanner | src/app/login/page.tsx:156-159 | the banner shows only below two plays, with 2 minus the used plays remaining, in the singular exactly when one is left |
| LoginPage.BannerMatchesGate | src/app/login/page.tsx:156-159 | the banner shows exactly when the upload page would let a guest generate a quiz |
| LoginPage.ContinueAsGuestAsWritten | src/app/login/page.tsx:161-166 | as written, the button spends a free play and goes to the upload page |
| LoginPage.ContinueAsGuest | src/app/login/page.tsx:161-166 | corrected, the button only goes to the upload page |
| LoginPage.AsWrittenGuestGetsOneQuiz | src/app/login/page.tsx:159-166 | as written, a new guest is promised two quizzes, but after one the next is refused |
| LoginPage.GuestGetsTwoQuizzes | src/app/login/page.tsx:159-166 | corrected, after the first quiz a guest may make a second, and the banner says one is left |

## Left out

- Storage, network and authentication: document reads and writes, `sessionStorage`, `localStorage`, the generator's HTTP calls and the sign-in popups. Their results are parameters. The progress snapshots, the quiz results and the summary record the runner writes are returned values; the store of saved progress is a map keyed by `"{uid}_{quizId}"`.
- QuizContainer.SaveProgress: the `inProgress` flag and time stamp that each save also writes to the quiz document are not modelled; nothing in the model reads them back.
- Concurrency: fire-and-forget saves and their interleavings are not modelled. Writes are taken to complete in program order.
- Clocks and timers: `Date.now`, `new Date()`, `setTimeout` and `setInterval`. Times are millisecond or second parameters, and the upload page's progress interval is a count of ticks.
- Randomness: the `Math.random` shuffle of matching definitions is an arbitrary permutation parameter.
- Locale and dates: `toDateString`, `toLocaleDateString` and `formatDate`. Grouping by day takes the day key as a function parameter.
- Floating point: percentages and widths in the markup. Dashboard rates and averages are exact rounded rational arithmetic. The summary verdict's `>= 0.7 * total` is `10 * score >= 7 * total`. The history card's percentage text is not modelled.
- `Number(...)` on query parameters: only decimal digit strings are read as numbers. Signs, decimals, exponents and white space are not modelled.
- JSX rendering and styling, the PDF, print and share features of the summary page, the redirect effects of the login and dashboard pages, and the image-upload component.
- The file parser: only its list of supported MIME types is modelled. The text of a parsed file is a parameter.
- Gemini.QuizTitle: the catch that would set the title to "Study Quiz" is left out, because nothing in the title code can throw for a string input.
- Gemini.GetGeminiQuiz: the prompt text and the pause between requests are not modelled; they do not affect the result.
- UploadPage.Submit: `addDoc`'s server time stamp is not modelled. The document carries the client-side fields only.
- UploadPage.Submit: the stored free-play count is taken as a number. `parseInt` of a malformed stored value is not modelled.
- SettingsContext.LoadSettings: only object values contribute fields when spread; the index keys that spreading a string or an array would add are left out.
- SettingsPage.LoadProfileAsWritten: names in the user document are strings; non-string values are not modelled.
- LoginPage.EmailAuth: the HTML `required` attributes of the form inputs are not modelled. They stop empty fields in the browser before this code runs.
- LoginPage.ProviderAuth: only the outcome message is modelled; the redirect after a successful sign-in is left out.
- QuizContainer.ResultsPercent: the rounding of the percentage is exact integer arithmetic, not floating point.
- AnswerBlock.ShortSubmit: lower-casing maps only the ASCII and Latin-1 capitals; `toLowerCase` maps every Unicode capital (Greek, Cyrillic, and letters such as "İ" whose lower case is two characters), and those are compared case-sensitively here. The same holds for the puzzle's step comparison.
- Ledger.Grade: a short answer is compared with the same partial lower-casing as AnswerBlock.ShortSubmit, so an answer differing from an accepted one only in the case of, say, a Greek letter is graded wrong here and right in the application.
- Gemini.TitleBase: strings are sequences of Unicode code points, so the 50-character cut counts code points where `substring` counts UTF-16 units; a first line with characters outside the Basic Multilingual Plane (emoji) is cut later here than in the application.
- Gemini.QuizTitle: the 53-character bound and the ellipsis test compare lengths in code points, not in the UTF-16 units `length` counts.
- AnswerBlock.MatchSubmit: the widget reopened on a saved matching answer is not modelled; it re-grades the saved slots against the shuffle drawn when the widget mounted, which is a fresh random permutation.

## Findings

| source | as written | input that shows it | evidently intended | confidence | as-written member | corrected member |
|---|---|---|---|---|---|---|
| src/components/quiz/QuizContainer.tsx:246 with src/components/quiz/AnswerBlock.tsx:403-408 | the matching widget reports the shuffled slot chosen for each term, and the ledger reads those values as original pair indices | pairs A→1, B→2 shown as slots [2, 1]; the correct answer {0: 1, 1: 0} is accepted by the widget and graded wrong by the ledger | both sides use the same index space, so a correct answer is graded correct | medium (not executed) | Ledger.MatchingReportMisgraded | Ledger.CorrectedMatchingReportAgrees |
| src/components/quiz/AnswerBlock.tsx:608, 611 | the step flags are mapped from the statuses as they were before the current step was graded | a one-step puzzle "2+2?" answered "4" reports [false] | the report reflects the step just graded, so a solved puzzle reports all true | medium (not executed) | AnswerBlock.AsWrittenNeverReportsAllTrue | AnswerBlock.FreshReportOnCompletion |
| src/app/settings/page.tsx:57-58 | a user document without names falls back to the form's state captured when the effect started, which is still empty, so the names split from the display name are replaced by "" | display name "Ada Lovelace" with a user document without name fields: the form shows empty names, and saving stores an empty display name | a missing name falls back to the split display name | medium (not executed) | SettingsPage.AsWrittenLoadLosesNames | SettingsPage.LoadThenSaveKeepsDisplayName |
| src/app/login/page.tsx:163-165 with src/app/upload/page.tsx:130-131 | "Continue as guest" adds one to the free-play count, and the upload page adds one more per quiz | a new guest is told 2 quizzes remain, presses the button, and generates one quiz; the next attempt is refused | the count grows only when a quiz is generated, so a guest gets the two quizzes promised | medium (not executed) | LoginPage.AsWrittenGuestGetsOneQuiz | LoginPage.GuestGetsTwoQuizzes |
| src/app/history/page.tsx:206 with src/app/summary/page.tsx:238-252 | a completed quiz's history card links to `/summary?quizId=…` without score or total, which the summary page shows as "Invalid Summary" | any completed-quiz item with a quiz id | the link carries the score and total, as the runner's redirect does | medium (not executed) | HistoryPage.CompletedLinkShowsInvalidSummary | HistoryPage.CompletedLinkShowsScore |
