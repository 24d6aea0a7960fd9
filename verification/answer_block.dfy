/** The four question variants and the answer widgets that grade them in
    place (src/components/quiz/AnswerBlock.tsx): multiple-choice selection,
    the short-answer box, the matching board over shuffled definitions and
    the step-by-step puzzle. Each widget is a state record with pure event
    handlers; a handler's second result is the value it passes to
    `onAnswered`, if it calls it. */
module AnswerBlock {
  import opened Wrappers
  import opened Text
  import Counting

  datatype Pair = Pair(term: string, definition: string)

  datatype Step = Step(prompt: string, answer: string, hint: Option<string>)

  /** The tagged union of question variants. `Unsupported` is a question
      whose `type` tag is none of the four (ingestion lets any tag through);
      the dispatcher renders "Unsupported question type" for it. */
  datatype Question =
    | MultipleChoice(question: string, options: seq<string>, correctAnswer: int, explanation: string)
    | ShortAnswer(question: string, answers: seq<string>, explanation: string)
    | Matching(question: string, pairs: seq<Pair>, explanation: string)
    | Puzzle(question: string, steps: seq<Step>, explanation: string)
    | Unsupported(tag: string, question: string)

  /** A key of the matching record: a term index, or the placeholder entry
      "Match with...", whose empty value `parseInt` turns into NaN. */
  datatype TermKey = TermIndex(index: nat) | Placeholder

  /** The values the widgets pass to `onAnswered`. */
  datatype Answer =
    | ChoiceAnswer(index: int)
    | TextAnswer(text: string)
    | MatchAnswer(matches: map<TermKey, int>)
    | StepsAnswer(steps: seq<bool>)

  predicate AllTrue(bs: seq<bool>) {
    forall i :: 0 <= i < |bs| ==> bs[i]
  }

  // ---------------------------------------------------------------------
  // Multiple choice

  datatype ChoiceState = ChoiceState(selected: Option<int>, submitted: bool)

  /** A widget opened on a previously saved answer starts submitted. */
  function ChoiceInit(previous: Option<int>): (r: ChoiceState)
    ensures r.submitted <==> previous.Some?
    ensures r.selected == previous
  {
    ChoiceState(previous, previous.Some?)
  }

  /** `handleOptionSelect`: the first selection is recorded and submitted. */
  function SelectOption(s: ChoiceState, index: int): (r: (ChoiceState, Option<Answer>))
    ensures r.1.Some? <==> !s.submitted
    ensures r.0.submitted
    ensures !s.submitted ==> r.0.selected == Some(index) && r.1 == Some(ChoiceAnswer(index))
    ensures s.submitted ==> r.0 == s
  {
    if !s.submitted then (ChoiceState(Some(index), true), Some(ChoiceAnswer(index))) else (s, None)
  }

  /** Reopening the widget on the option it reported gives back exactly
      the state that selection left. */
  lemma ChoiceReopenRestoresSelection(index: int)
    ensures SelectOption(ChoiceInit(None), index) == (ChoiceInit(Some(index)), Some(ChoiceAnswer(index)))
  {
  }

  /** The widget's own verdict. */
  predicate ChoiceCorrect(q: Question, s: ChoiceState)
    requires q.MultipleChoice?
  {
    s.selected == Some(q.correctAnswer)
  }

  /** The answers a handler passed to `onAnswered`, as a list. */
  function Reported<T>(out: Option<T>): seq<T> {
    if out.Some? then [out.value] else []
  }

  /** A run of clicks: the final state and the answers reported, in order. */
  function ChoiceRun(s: ChoiceState, clicks: seq<int>): (ChoiceState, seq<Answer>)
    decreases |clicks|
  {
    if clicks == [] then (s, [])
    else
      var first := SelectOption(s, clicks[0]);
      var rest := ChoiceRun(first.0, clicks[1..]);
      (rest.0, Reported(first.1) + rest.1)
  }

  lemma {:induction false} ChoiceRunAfterSubmit(s: ChoiceState, clicks: seq<int>)
    requires s.submitted
    ensures ChoiceRun(s, clicks) == (s, [])
    decreases |clicks|
  {
    if clicks != [] {
      assert SelectOption(s, clicks[0]) == (s, None);
      ChoiceRunAfterSubmit(s, clicks[1..]);
      assert Reported<Answer>(None) + [] == [];
    }
  }

  /** Selection is terminal: over any run of clicks on a fresh widget, only
      the first click is reported, and it stays selected. */
  lemma ChoiceFirstSelectionWins(clicks: seq<int>)
    requires |clicks| > 0
    ensures ChoiceRun(ChoiceInit(None), clicks).1 == [ChoiceAnswer(clicks[0])]
    ensures ChoiceRun(ChoiceInit(None), clicks).0.selected == Some(clicks[0])
  {
    var first := SelectOption(ChoiceInit(None), clicks[0]);
    ChoiceRunAfterSubmit(first.0, clicks[1..]);
  }

  // ---------------------------------------------------------------------
  // Short answer

  datatype ShortState = ShortState(answer: string, submitted: bool, isCorrect: bool)

  /** `checkAnswer`: the typed text, trimmed and lower-cased, equals the
      lower-cased form of some accepted answer (accepted answers are not
      trimmed). */
  predicate CheckShortAnswer(accepted: seq<string>, userAnswer: string) {
    exists i :: 0 <= i < |accepted| && Lower(accepted[i]) == Lower(Trim(userAnswer))
  }

  /** An accepted answer without white space at either end is accepted
      when typed exactly. */
  lemma ExactAnswerAccepted(accepted: seq<string>, i: nat)
    requires i < |accepted|
    requires accepted[i] == [] || (!IsSpace(accepted[i][0]) && !IsSpace(accepted[i][|accepted[i]| - 1]))
    ensures CheckShortAnswer(accepted, accepted[i])
  {
    TrimOfTrimmed(accepted[i]);
  }

  /** Lower-casing never turns a visible character into white space. */
  lemma LowerKeepsNonSpace(c: char)
    ensures !IsSpace(c) ==> !IsSpace(LowerChar(c))
  {
  }

  /** Accepted answers are not trimmed, so one stored with leading white
      space can never be matched by any typed text. */
  lemma PaddedAnswerNeverMatches(accepted: seq<string>, i: nat, userAnswer: string)
    requires i < |accepted| && accepted[i] != [] && IsSpace(accepted[i][0])
    ensures Lower(accepted[i]) != Lower(Trim(userAnswer))
  {
    var t := Trim(userAnswer);
    assert Lower(accepted[i])[0] == accepted[i][0];
    if t != [] {
      LowerKeepsNonSpace(TrimStart(userAnswer)[0]);
      assert t[0] == TrimStart(userAnswer)[0];
      assert Lower(t)[0] == LowerChar(t[0]);
    }
  }

  /** `handleSubmit`: only non-blank text, and only once; the untrimmed
      text is what is reported. */
  function ShortSubmit(accepted: seq<string>, s: ShortState): (r: (ShortState, Option<Answer>))
    ensures r.1.Some? <==> !IsBlank(s.answer) && !s.submitted
    ensures r.1.Some? ==> (r.0 == ShortState(s.answer, true, CheckShortAnswer(accepted, s.answer))
                           && r.1 == Some(TextAnswer(s.answer)))
    ensures r.1.None? ==> r.0 == s
  {
    if !IsBlank(s.answer) && !s.submitted then
      (ShortState(s.answer, true, CheckShortAnswer(accepted, s.answer)), Some(TextAnswer(s.answer)))
    else (s, None)
  }

  /** The widget opened on the saved answer of its question: a non-empty
      saved text is shown, submitted and graded again; no saved text (or
      the empty, falsy one) gives a fresh widget. */
  function ShortInit(accepted: seq<string>, previous: Option<string>): (r: ShortState)
    ensures r.submitted <==> previous.Some? && previous.value != []
    ensures r.submitted ==> r.answer == previous.value && (r.isCorrect <==> CheckShortAnswer(accepted, previous.value))
    ensures !r.submitted ==> r == ShortState([], false, false)
  {
    if previous.Some? && previous.value != [] then
      ShortState(previous.value, true, CheckShortAnswer(accepted, previous.value))
    else ShortState([], false, false)
  }

  /** Reopening the widget on the text it reported restores the state it
      was left in after the submission. */
  lemma ShortReopenRestoresSubmission(accepted: seq<string>, s: ShortState)
    requires ShortSubmit(accepted, s).1.Some?
    ensures ShortInit(accepted, Some(ShortSubmit(accepted, s).1.value.text)) == ShortSubmit(accepted, s).0
  {
  }

  lemma TrimIdempotent(s: string)
    ensures Trim(Trim(s)) == Trim(s)
  {
    TrimOfTrimmed(Trim(s));
  }

  lemma LowerIdempotent(s: string)
    ensures Lower(Lower(s)) == Lower(s)
  {
  }

  /** Grading ignores surrounding white space and letter case of the typed
      text: it depends only on the normalised form. */
  lemma ShortAnswerNormalisationInvariant(accepted: seq<string>, userAnswer: string)
    ensures CheckShortAnswer(accepted, userAnswer)
        <==> CheckShortAnswer(accepted, Lower(Trim(userAnswer)))
  {
    TrimLowerCommute(Trim(userAnswer));
    TrimIdempotent(userAnswer);
    LowerIdempotent(Trim(userAnswer));
    assert Lower(Trim(Lower(Trim(userAnswer)))) == Lower(Trim(userAnswer));
  }

  /** Input padded with an ideographic space and written in capitals,
      accented ones included, is graded like the lower-case word. */
  lemma ShortAnswerExample()
    ensures CheckShortAnswer(["café"], "\U{3000}CAFÉ")
  {
    PaddedCapitalsTrim();
    CapitalsLower();
    var accepted := ["café"];
    assert Lower(accepted[0]) == Lower(Trim("\U{3000}CAFÉ"));
  }

  lemma PaddedCapitalsTrim()
    ensures Trim("\U{3000}CAFÉ") == "CAFÉ"
  {
    var u, w := "\U{3000}CAFÉ", "CAFÉ";
    assert u[1..] == w;
    assert !IsSpace(w[0]) && !IsSpace(w[3]);
    assert TrimStart(w) == w;
    assert TrimStart(u) == w;
    TrimOfTrimmed(w);
  }

  lemma CapitalsLower()
    ensures Lower("CAFÉ") == "café" && Lower("café") == "café"
  {
    var l := Lower("CAFÉ");
    assert l[0] == 'c' && l[1] == 'a' && l[2] == 'f' && l[3] == 'é';
    var a := Lower("café");
    assert a[0] == 'c' && a[1] == 'a' && a[2] == 'f' && a[3] == 'é';
  }

  // ---------------------------------------------------------------------
  // Matching

  /** A definition as displayed: its text and the index of its pair. */
  datatype Slot = Slot(text: string, originalIndex: nat)

  /** The random shuffle, taken as a parameter: a permutation of 0..n-1. */
  predicate IsPermutation(perm: seq<int>, n: nat) {
    |perm| == n && Counting.Distinct(perm) && forall i :: 0 <= i < n ==> 0 <= perm[i] < n
  }

  /** The definitions in shuffled display order. */
  function ShuffledDefinitions(pairs: seq<Pair>, perm: seq<int>): (slots: seq<Slot>)
    requires IsPermutation(perm, |pairs|)
    ensures |slots| == |pairs|
    ensures forall i :: 0 <= i < |slots| ==>
      slots[i].originalIndex == perm[i] && slots[i].text == pairs[perm[i]].definition
  {
    seq(|pairs|, i requires 0 <= i < |pairs| => Slot(pairs[perm[i]].definition, perm[i]))
  }

  function SlotOrigins(slots: seq<Slot>): seq<int> {
    seq(|slots|, i requires 0 <= i < |slots| => slots[i].originalIndex as int)
  }

  /** Every pair's definition is shown in exactly one slot. */
  lemma EachDefinitionShownOnce(pairs: seq<Pair>, perm: seq<int>, j: nat)
    requires IsPermutation(perm, |pairs|) && j < |pairs|
    ensures exists i :: 0 <= i < |pairs| && ShuffledDefinitions(pairs, perm)[i].originalIndex == j
    ensures forall i, k :: 0 <= i < k < |pairs| ==>
      ShuffledDefinitions(pairs, perm)[i].originalIndex != ShuffledDefinitions(pairs, perm)[k].originalIndex
  {
    Counting.DistinctBelowCoversRange(perm, |pairs|);
    assert j in Counting.Values(perm);
    var i :| 0 <= i < |perm| && perm[i] == j;
    assert ShuffledDefinitions(pairs, perm)[i].originalIndex == j;
  }

  datatype MatchState = MatchState(matches: map<TermKey, int>, submitted: bool, isCorrect: bool)

  /** `handleMatch`: record or overwrite the slot chosen for one term. */
  function HandleMatch(s: MatchState, term: TermKey, slot: int): (r: MatchState)
    ensures s.submitted ==> r == s
    ensures !s.submitted ==> r.matches.Keys == s.matches.Keys + {term} && r.matches[term] == slot
    ensures forall k :: k in s.matches && k != term ==> k in r.matches && r.matches[k] == s.matches[k]
    ensures r.submitted == s.submitted && r.isCorrect == s.isCorrect
  {
    if !s.submitted then s.(matches := s.matches[term := slot]) else s
  }

  /** Choosing again for the same term overwrites the earlier choice. */
  lemma HandleMatchOverwrites(s: MatchState, term: TermKey, a: int, b: int)
    ensures HandleMatch(HandleMatch(s, term, a), term, b) == HandleMatch(s, term, b)
  {
  }

  /** Every chosen slot is a displayed slot (the only values the board offers). */
  predicate SlotsInRange(matches: map<TermKey, int>, n: nat) {
    forall k :: k in matches ==> 0 <= matches[k] < n
  }

  /** `checkMatches`: each entry's slot shows the definition of its own
      term. A placeholder key never matches. */
  predicate CheckMatches(slots: seq<Slot>, matches: map<TermKey, int>)
    requires SlotsInRange(matches, |slots|)
  {
    forall k :: k in matches ==> k.TermIndex? && slots[matches[k]].originalIndex == k.index
  }

  /** `handleSubmit` AS WRITTEN: only when as many keys as pairs are
      present; it reports the record of chosen slot positions. */
  function MatchSubmitAsWritten(slots: seq<Slot>, s: MatchState): (r: (MatchState, Option<Answer>))
    requires SlotsInRange(s.matches, |slots|)
    ensures r.1.Some? <==> |s.matches.Keys| == |slots| && !s.submitted
    ensures r.1.Some? ==> (r.0 == MatchState(s.matches, true, CheckMatches(slots, s.matches))
                           && r.1 == Some(MatchAnswer(s.matches)))
    ensures r.1.None? ==> r.0 == s
  {
    if |s.matches.Keys| == |slots| && !s.submitted then
      (s.(submitted := true, isCorrect := CheckMatches(slots, s.matches)), Some(MatchAnswer(s.matches)))
    else (s, None)
  }

  /** Each chosen slot replaced by the index of the pair it shows. */
  function PairIndices(slots: seq<Slot>, m: map<TermKey, int>): (r: map<TermKey, int>)
    requires SlotsInRange(m, |slots|)
    ensures r.Keys == m.Keys
    ensures forall k :: k in m ==> r[k] == slots[m[k]].originalIndex
  {
    map k | k in m :: slots[m[k]].originalIndex as int
  }

  /** `handleSubmit` CORRECTED: the same state change, but the report
      names, for every term, the pair whose definition was chosen, which
      is what the ledger compares. */
  function MatchSubmit(slots: seq<Slot>, s: MatchState): (r: (MatchState, Option<Answer>))
    requires SlotsInRange(s.matches, |slots|)
    ensures r.0 == MatchSubmitAsWritten(slots, s).0
    ensures r.1.Some? <==> |s.matches.Keys| == |slots| && !s.submitted
    ensures r.1.Some? ==> r.1 == Some(MatchAnswer(PairIndices(slots, s.matches)))
  {
    var (state, out) := MatchSubmitAsWritten(slots, s);
    if out.Some? then (state, Some(MatchAnswer(PairIndices(slots, s.matches)))) else (state, None)
  }

  function TermKeys(n: nat): set<TermKey> {
    set t | 0 <= t < n :: TermIndex(t)
  }

  lemma {:induction false} TermKeysCard(n: nat)
    ensures |TermKeys(n)| == n
  {
    if n > 0 {
      TermKeysCard(n - 1);
      assert TermKeys(n) == TermKeys(n - 1) + {TermIndex(n - 1)};
    }
  }

  /** The slot that shows term t's definition. */
  function SlotOf(slots: seq<Slot>, t: nat): (i: int)
    ensures -1 <= i < |slots|
    ensures i >= 0 ==> slots[i].originalIndex == t
    ensures i < 0 ==> forall j :: 0 <= j < |slots| ==> slots[j].originalIndex != t
    decreases |slots|
  {
    if |slots| == 0 then -1
    else if slots[|slots| - 1].originalIndex == t then |slots| - 1
    else SlotOf(slots[..|slots| - 1], t)
  }

  /** A correct submission is exactly the inverse of the shuffle: every
      term is matched, the placeholder is absent, and each term points at
      the one slot showing its own definition. */
  lemma CorrectSubmissionIsInverse(pairs: seq<Pair>, perm: seq<int>, s: MatchState)
    requires IsPermutation(perm, |pairs|)
    requires SlotsInRange(s.matches, |pairs|)
    requires |s.matches.Keys| == |pairs|
    requires CheckMatches(ShuffledDefinitions(pairs, perm), s.matches)
    ensures s.matches.Keys == TermKeys(|pairs|)
    ensures forall t :: 0 <= t < |pairs| ==> s.matches[TermIndex(t)] == SlotOf(ShuffledDefinitions(pairs, perm), t)
  {
    var slots := ShuffledDefinitions(pairs, perm);
    var n := |pairs|;
    assert s.matches.Keys <= TermKeys(n) by {
      forall k | k in s.matches
        ensures k in TermKeys(n)
      {
        assert slots[s.matches[k]].originalIndex == k.index;
      }
    }
    TermKeysCard(n);
    assert |TermKeys(n) - s.matches.Keys| == 0;
    forall t | 0 <= t < n
      ensures TermIndex(t) in s.matches && s.matches[TermIndex(t)] == SlotOf(slots, t)
    {
      assert TermIndex(t) in TermKeys(n);
      var d := s.matches[TermIndex(t)];
      var i := SlotOf(slots, t);
      assert slots[d].originalIndex == t;
      assert i >= 0;
      assert perm[i] == perm[d];
    }
  }

  /** The placeholder key counts toward the submission threshold, so a
      board with a term left unmatched can still be submitted (and is then
      graded wrong). */
  lemma PlaceholderFillsCount()
    ensures var slots := [Slot("d0", 0)];
            var s := MatchState(map[Placeholder := 0], false, false);
            && SlotsInRange(s.matches, |slots|)
            && TermIndex(0) !in s.matches
            && MatchSubmit(slots, s).1.Some?
            && !MatchSubmit(slots, s).0.isCorrect
  {
    var slots := [Slot("d0", 0)];
    var m := map[Placeholder := 0];
    assert m.Keys == {Placeholder};
  }

  // ---------------------------------------------------------------------
  // Puzzle

  datatype Status = Unattempted | Correct | Incorrect

  datatype PuzzleState = PuzzleState(currentStep: nat, answers: seq<string>, status: seq<Status>, allCompleted: bool)

  function PuzzleInit(n: nat): (r: PuzzleState)
    ensures n > 0 ==> PuzzleInv(r, n) && r.currentStep == 0 && !r.allCompleted
    ensures |r.answers| == n && |r.status| == n
    ensures forall i :: 0 <= i < n ==> r.answers[i] == "" && r.status[i] == Unattempted
  {
    PuzzleState(0, seq(n, _ => ""), seq(n, _ => Unattempted), false)
  }

  /** The puzzle widget opened with a saved answer: an array jumps to the
      last step and marks the puzzle completed while the typed answers and
      the statuses keep their fresh values; any other saved value leaves
      the fresh puzzle. A puzzle has at least one step (the widget reads
      the current step's prompt). */
  function PuzzleRestore(n: nat, previous: Option<Answer>): (r: PuzzleState)
    requires n > 0
    ensures previous.Some? && previous.value.StepsAnswer? ==>
      r.currentStep == n - 1 && r.allCompleted
      && r.answers == PuzzleInit(n).answers && r.status == PuzzleInit(n).status
    ensures !(previous.Some? && previous.value.StepsAnswer?) ==> r == PuzzleInit(n)
    ensures PuzzleReachable(r, n)
    ensures previous.Some? && previous.value.StepsAnswer? ==> RestoredInv(r, n) && !PuzzleInv(r, n)
  {
    if previous.Some? && previous.value.StepsAnswer? then
      PuzzleInit(n).(currentStep := n - 1, allCompleted := true)
    else PuzzleInit(n)
  }

  /** The sizes every state of an n-step puzzle has. */
  predicate PuzzleShape(s: PuzzleState, n: nat) {
    n > 0 && |s.answers| == n && |s.status| == n && s.currentStep < n
  }

  /** The shape every state reached from a fresh n-step puzzle has: the
      steps before the cursor are solved, the ones after it untouched, and
      the puzzle is complete exactly when the cursor's step is solved. */
  predicate PuzzleInv(s: PuzzleState, n: nat) {
    && PuzzleShape(s, n)
    && (forall i :: 0 <= i < s.currentStep ==> s.status[i] == Correct)
    && (forall i :: s.currentStep < i < n ==> s.status[i] == Unattempted)
    && (s.allCompleted <==> s.status[s.currentStep] == Correct)
    && (s.allCompleted ==> s.currentStep == n - 1)
  }

  /** The shape every state reached from a restored puzzle has: the cursor
      stays on the last step and the puzzle stays marked complete, while
      the earlier steps stay unattempted and the last step's input and
      submit button stay enabled until it is solved. */
  predicate RestoredInv(s: PuzzleState, n: nat) {
    && PuzzleShape(s, n)
    && s.currentStep == n - 1 && s.allCompleted
    && (forall i :: 0 <= i < n - 1 ==> s.status[i] == Unattempted)
  }

  /** Every state the widget can be in: opened fresh or restored. */
  predicate PuzzleReachable(s: PuzzleState, n: nat) {
    PuzzleShape(s, n) && (PuzzleInv(s, n) || RestoredInv(s, n))
  }

  /** `handleAnswerChange`: edit the current step's text. */
  function TypeStepAnswer(s: PuzzleState, value: string): (r: PuzzleState)
    requires s.currentStep < |s.answers|
    ensures r.answers == s.answers[s.currentStep := value]
    ensures r.currentStep == s.currentStep && r.status == s.status && r.allCompleted == s.allCompleted
  {
    s.(answers := s.answers[s.currentStep := value])
  }

  /** The form both sides of a puzzle step are compared in. */
  function Normalize(a: string): string {
    Trim(Lower(a))
  }

  /** A step is solved when both sides agree after lower-casing and trimming. */
  predicate StepMatches(steps: seq<Step>, s: PuzzleState)
    requires s.currentStep < |s.answers| && s.currentStep < |steps|
  {
    Normalize(s.answers[s.currentStep]) == Normalize(steps[s.currentStep].answer)
  }

  /** The state change of `handleStepSubmit`, common to the code as written
      and to its correction: an empty answer is ignored; otherwise the step
      is graded, and a solved step moves the cursor on, or completes the
      puzzle when it is the last. */
  function StepTransition(steps: seq<Step>, s: PuzzleState): (r: PuzzleState)
    requires PuzzleShape(s, |steps|)
    ensures r.answers == s.answers && |r.status| == |s.status|
    ensures s.answers[s.currentStep] == "" ==> r == s
  {
    var cur := s.currentStep;
    if s.answers[cur] == "" then s
    else if StepMatches(steps, s) then
      var newStatus := s.status[cur := Correct];
      if cur < |steps| - 1 then PuzzleState(cur + 1, s.answers, newStatus, s.allCompleted)
      else PuzzleState(cur, s.answers, newStatus, true)
    else PuzzleState(cur, s.answers, s.status[cur := Incorrect], s.allCompleted)
  }

  /** The submit button is enabled: there is text and the step is not yet solved. */
  predicate SubmitEnabled(s: PuzzleState)
    requires s.currentStep < |s.answers| && s.currentStep < |s.status|
  {
    s.answers[s.currentStep] != "" && s.status[s.currentStep] != Correct
  }

  function StatusFlags(status: seq<Status>): (bs: seq<bool>)
    ensures |bs| == |status|
    ensures forall i :: 0 <= i < |bs| ==> (bs[i] <==> status[i] == Correct)
  {
    seq(|status|, i requires 0 <= i < |status| => status[i] == Correct)
  }

  /** `handleStepSubmit` AS WRITTEN: `onAnswered` gets the statuses from
      before the current step was graded, and is called unless a non-last
      step was just solved. */
  function StepSubmitAsWritten(steps: seq<Step>, s: PuzzleState): (r: (PuzzleState, Option<seq<bool>>))
    requires PuzzleShape(s, |steps|)
    ensures r.0 == StepTransition(steps, s)
    ensures r.1.Some? ==> r.1.value == StatusFlags(s.status)
    ensures r.1.Some? <==> (s.answers[s.currentStep] != ""
                            && !(StepMatches(steps, s) && s.currentStep < |steps| - 1))
  {
    var cur := s.currentStep;
    var t := StepTransition(steps, s);
    if s.answers[cur] == "" then (s, None)
    else if StepMatches(steps, s) && cur < |steps| - 1 then (t, None)
    else (t, Some(StatusFlags(s.status)))
  }

  /** `handleStepSubmit` CORRECTED: report the statuses including the step
      just graded. */
  function StepSubmit(steps: seq<Step>, s: PuzzleState): (r: (PuzzleState, Option<seq<bool>>))
    requires PuzzleShape(s, |steps|)
    ensures r.0 == StepTransition(steps, s)
    ensures r.1.Some? ==> r.1.value == StatusFlags(r.0.status)
    ensures r.1.Some? <==> (s.answers[s.currentStep] != ""
                            && !(StepMatches(steps, s) && s.currentStep < |steps| - 1))
  {
    var cur := s.currentStep;
    var t := StepTransition(steps, s);
    if s.answers[cur] == "" then (s, None)
    else if StepMatches(steps, s) && cur < |steps| - 1 then (t, None)
    else (t, Some(StatusFlags(t.status)))
  }

  /** An enabled submit keeps the puzzle in shape: a solved non-last step
      moves the cursor on by one, a solved last step completes the puzzle,
      and a wrong answer leaves the cursor where it is. */
  lemma StepSubmitPreservesInv(steps: seq<Step>, s: PuzzleState)
    requires PuzzleInv(s, |steps|) && SubmitEnabled(s)
    ensures PuzzleInv(StepTransition(steps, s), |steps|)
    ensures StepMatches(steps, s) && s.currentStep < |steps| - 1 ==>
      StepTransition(steps, s).currentStep == s.currentStep + 1
    ensures StepMatches(steps, s) && s.currentStep == |steps| - 1 ==>
      StepTransition(steps, s).allCompleted
    ensures !StepMatches(steps, s) ==>
      StepTransition(steps, s).currentStep == s.currentStep && !StepTransition(steps, s).allCompleted
  {
    var n := |steps|;
    var cur := s.currentStep;
    var t := StepTransition(steps, s);
    assert !s.allCompleted;
    if StepMatches(steps, s) {
      if cur < n - 1 {
        assert t == PuzzleState(cur + 1, s.answers, s.status[cur := Correct], false);
        assert t.status[cur + 1] == Unattempted;
      } else {
        assert t == PuzzleState(cur, s.answers, s.status[cur := Correct], true);
      }
    } else {
      assert t == PuzzleState(cur, s.answers, s.status[cur := Incorrect], false);
    }
  }

  /** A submit on a restored puzzle keeps it restored: only the last
      step's status changes, to solved or wrong, and the puzzle stays
      marked complete. */
  lemma RestoredSubmitStaysRestored(steps: seq<Step>, s: PuzzleState)
    requires RestoredInv(s, |steps|)
    ensures RestoredInv(StepTransition(steps, s), |steps|)
    ensures SubmitEnabled(s) ==>
      StepTransition(steps, s).status[s.currentStep] == (if StepMatches(steps, s) then Correct else Incorrect)
  {
  }

  /** As written, every report from an enabled submit has the current step
      false, so the ledger can never grade the puzzle correct. */
  lemma StaleReportHasFalse(steps: seq<Step>, s: PuzzleState)
    requires PuzzleShape(s, |steps|) && SubmitEnabled(s)
    requires StepSubmitAsWritten(steps, s).1.Some?
    ensures !AllTrue(StepSubmitAsWritten(steps, s).1.value)
  {
    var rep := StepSubmitAsWritten(steps, s).1.value;
    assert !rep[s.currentStep];
  }

  /** Corrected: the submit that solves the last step reports every step
      true; a wrong submit reports the current step false. */
  lemma FreshReportOnCompletion(steps: seq<Step>, s: PuzzleState)
    requires PuzzleInv(s, |steps|) && SubmitEnabled(s)
    ensures StepMatches(steps, s) && s.currentStep == |steps| - 1 ==>
      StepSubmit(steps, s).1.Some? && AllTrue(StepSubmit(steps, s).1.value)
    ensures !StepMatches(steps, s) ==>
      StepSubmit(steps, s).1.Some? && !StepSubmit(steps, s).1.value[s.currentStep]
  {
    var t := StepTransition(steps, s);
    if StepMatches(steps, s) && s.currentStep == |steps| - 1 {
      assert forall i :: 0 <= i < |steps| ==> t.status[i] == Correct;
    }
  }

  /** Typing changes only the current text, so both shapes are kept. */
  lemma TypingKeepsShape(s: PuzzleState, n: nat, v: string)
    requires PuzzleShape(s, n)
    ensures PuzzleInv(s, n) ==> PuzzleInv(TypeStepAnswer(s, v), n)
    ensures RestoredInv(s, n) ==> RestoredInv(TypeStepAnswer(s, v), n)
  {
  }

  /** An enabled submit keeps a fresh puzzle fresh and a restored one restored. */
  lemma SubmitKeepsShape(steps: seq<Step>, s: PuzzleState)
    requires PuzzleReachable(s, |steps|) && SubmitEnabled(s)
    ensures PuzzleInv(s, |steps|) ==> PuzzleInv(StepTransition(steps, s), |steps|)
    ensures RestoredInv(s, |steps|) ==> RestoredInv(StepTransition(steps, s), |steps|)
  {
    if PuzzleInv(s, |steps|) {
      StepSubmitPreservesInv(steps, s);
    }
    if RestoredInv(s, |steps|) {
      RestoredSubmitStaysRestored(steps, s);
    }
  }

  datatype PuzzleEvent = TypeText(value: string) | ClickSubmit

  /** One UI event: typing edits the current answer unless its step is
      already solved (the input is disabled then); a click on the submit
      button does nothing while it is disabled. `corrected` selects the
      corrected report. */
  function PuzzleEventStep(steps: seq<Step>, s: PuzzleState, e: PuzzleEvent, corrected: bool)
    : (r: (PuzzleState, Option<seq<bool>>))
    requires PuzzleReachable(s, |steps|)
    ensures PuzzleInv(s, |steps|) ==> PuzzleInv(r.0, |steps|)
    ensures RestoredInv(s, |steps|) ==> RestoredInv(r.0, |steps|)
    ensures e.TypeText? ==> r.1.None?
    ensures e.TypeText? && s.status[s.currentStep] == Correct ==> r.0 == s
    ensures e.TypeText? && s.status[s.currentStep] != Correct ==>
      r.0.answers == s.answers[s.currentStep := e.value] && r.0.status == s.status
    ensures e.ClickSubmit? && !SubmitEnabled(s) ==> r == (s, None)
  {
    match e
    case TypeText(v) =>
      if s.status[s.currentStep] == Correct then (s, None)
      else
        TypingKeepsShape(s, |steps|, v);
        (TypeStepAnswer(s, v), None)
    case ClickSubmit =>
      if !SubmitEnabled(s) then (s, None)
      else
        SubmitKeepsShape(steps, s);
        if corrected then StepSubmit(steps, s) else StepSubmitAsWritten(steps, s)
  }

  /** A run of UI events: the final state and the reports in order. */
  function PuzzleRun(steps: seq<Step>, s: PuzzleState, events: seq<PuzzleEvent>, corrected: bool)
    : (r: (PuzzleState, seq<seq<bool>>))
    requires PuzzleReachable(s, |steps|)
    ensures PuzzleInv(s, |steps|) ==> PuzzleInv(r.0, |steps|)
    ensures RestoredInv(s, |steps|) ==> RestoredInv(r.0, |steps|)
    decreases |events|
  {
    if events == [] then (s, [])
    else
      var first := PuzzleEventStep(steps, s, events[0], corrected);
      var rest := PuzzleRun(steps, first.0, events[1..], corrected);
      (rest.0, Reported(first.1) + rest.1)
  }

  /** As written, no single event reports a puzzle whose steps are all true. */
  lemma AsWrittenEventNeverAllTrue(steps: seq<Step>, s: PuzzleState, e: PuzzleEvent)
    requires PuzzleReachable(s, |steps|)
    ensures var out := PuzzleEventStep(steps, s, e, false).1;
            out.Some? ==> !AllTrue(out.value)
  {
    if e.ClickSubmit? && SubmitEnabled(s) && StepSubmitAsWritten(steps, s).1.Some? {
      StaleReportHasFalse(steps, s);
    }
  }

  /** As written, no sequence of UI events reports a puzzle whose steps
      are all true, whether the widget was opened fresh or restored. */
  lemma {:induction false} AsWrittenNeverReportsAllTrue(steps: seq<Step>, s: PuzzleState, events: seq<PuzzleEvent>)
    requires PuzzleReachable(s, |steps|)
    ensures forall i :: 0 <= i < |PuzzleRun(steps, s, events, false).1| ==>
      !AllTrue(PuzzleRun(steps, s, events, false).1[i])
    decreases |events|
  {
    if events != [] {
      var first := PuzzleEventStep(steps, s, events[0], false);
      AsWrittenEventNeverAllTrue(steps, s, events[0]);
      AsWrittenNeverReportsAllTrue(steps, first.0, events[1..]);
    }
  }

  /** In particular, a widget opened on a saved puzzle answer never
      reports all steps true, as written. */
  lemma AsWrittenRestoredNeverReportsAllTrue(steps: seq<Step>, previous: Option<Answer>, events: seq<PuzzleEvent>)
    requires |steps| > 0
    ensures var reports := PuzzleRun(steps, PuzzleRestore(|steps|, previous), events, false).1;
            forall i :: 0 <= i < |reports| ==> !AllTrue(reports[i])
  {
    AsWrittenNeverReportsAllTrue(steps, PuzzleRestore(|steps|, previous), events);
  }

  /** A one-step puzzle answered correctly: as written it reports [false],
      corrected it reports [true]. */
  lemma OneStepPuzzleExample()
    ensures var events := [TypeText("4"), ClickSubmit];
            && PuzzleRun(TwoPlusTwo, PuzzleInit(1), events, false).1 == [[false]]
            && PuzzleRun(TwoPlusTwo, PuzzleInit(1), events, true).1 == [[true]]
  {
    OneStepRun(false);
    OneStepRun(true);
  }

  const TwoPlusTwo := [Step("2+2?", "4", None)]

  lemma OneStepRun(corrected: bool)
    ensures PuzzleRun(TwoPlusTwo, PuzzleInit(1), [TypeText("4"), ClickSubmit], corrected).1 == [[corrected]]
  {
    var s1 := PuzzleState(0, ["4"], [Unattempted], false);
    var s2 := PuzzleState(0, ["4"], [Correct], true);
    OneStepTyping(corrected);
    OneStepSubmitting(corrected);
    var events := [TypeText("4"), ClickSubmit];
    assert events[1..] == [ClickSubmit];
    assert [ClickSubmit][1..] == [];
    assert PuzzleRun(TwoPlusTwo, s2, [], corrected).1 == [];
    assert PuzzleRun(TwoPlusTwo, s1, [ClickSubmit], corrected).1 == [[corrected]];
  }

  lemma OneStepTyping(corrected: bool)
    ensures PuzzleEventStep(TwoPlusTwo, PuzzleInit(1), TypeText("4"), corrected)
            == (PuzzleState(0, ["4"], [Unattempted], false), None)
  {
    var s0 := PuzzleInit(1);
    assert s0 == PuzzleState(0, [""], [Unattempted], false);
    assert PuzzleInv(s0, 1) && s0.status[0] != Correct;
    assert [""][0 := "4"] == ["4"];
    assert TypeStepAnswer(s0, "4") == PuzzleState(0, ["4"], [Unattempted], false);
  }

  lemma OneStepSubmitting(corrected: bool)
    ensures PuzzleEventStep(TwoPlusTwo, PuzzleState(0, ["4"], [Unattempted], false), ClickSubmit, corrected)
            == (PuzzleState(0, ["4"], [Correct], true), Some([corrected]))
  {
    var s1 := PuzzleState(0, ["4"], [Unattempted], false);
    assert Normalize("4") == "4" by {
      assert Lower("4") == "4";
      TrimOfTrimmed("4");
    }
    assert StepMatches(TwoPlusTwo, s1);
    assert PuzzleInv(s1, 1) && SubmitEnabled(s1);
    var s2 := PuzzleState(0, ["4"], [Correct], true);
    assert StepTransition(TwoPlusTwo, s1) == s2;
    assert StatusFlags(s1.status) == [false];
    assert StatusFlags(s2.status) == [true];
    if corrected {
      assert StepSubmit(TwoPlusTwo, s1) == (s2, Some([true]));
    } else {
      assert StepSubmitAsWritten(TwoPlusTwo, s1) == (s2, Some([false]));
    }
  }
}
