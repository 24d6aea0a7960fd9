/** The answer ledger of the quiz runner (src/components/quiz/QuizContainer.tsx):
    the list of answers the widgets reported, how an answer is recorded
    for the current question, and how the ledger is graded and ordered
    when the quiz is completed. */
module Ledger {
  import opened Wrappers
  import opened Text
  import opened AnswerBlock
  import Counting

  /** One ledger entry. `questionIndex` is absent only on entries that
      never went through `handleAnswered`; such an entry stands for the
      question at its own position. `isCorrect` is absent until graded. */
  datatype Entry = Entry(answer: Answer, questionIndex: Option<int>, isCorrect: Option<bool>)

  type Entries = seq<Entry>

  /** The question an entry stands for: its own index, else its position. */
  function EffectiveIndex(l: Entries, i: nat): int
    requires i < |l|
  {
    l[i].questionIndex.GetOr(i)
  }

  // ---------------------------------------------------------------------
  // Grading one answer

  function BoolText(b: bool): string {
    if b then "true" else "false"
  }

  /** `String(answer)`: how a reported answer reads as text. */
  function AnswerToString(a: Answer): string {
    match a
    case ChoiceAnswer(i) => IntToString(i)
    case TextAnswer(t) => t
    case MatchAnswer(_) => "[object Object]"
    case StepsAnswer(bs) => Join(seq(|bs|, i requires 0 <= i < |bs| => BoolText(bs[i])), ",")
  }

  /** An entry of a matching answer whose term and definition both name a pair. */
  predicate EntryInRange(pairs: seq<Pair>, m: map<TermKey, int>, k: TermKey)
    requires k in m
  {
    k.TermIndex? && k.index < |pairs| && 0 <= m[k] < |pairs|
  }

  /** The ledger's notion of a correct matching answer: every entry pairs
      a term with a pair index whose definition equals the term's own. */
  predicate PairwiseCorrect(pairs: seq<Pair>, m: map<TermKey, int>) {
    forall k :: k in m ==>
      EntryInRange(pairs, m, k) && pairs[k.index].definition == pairs[m[k]].definition
  }

  /** The `every` over `Object.entries` of a matching answer, from term
      index `t` on. Entries come in ascending term order, the placeholder
      key after them; an entry whose term or definition names no pair
      reads `undefined.definition` and throws (`None`), and the first
      mismatch stops the walk with `false`. */
  function GradeMatchingFrom(pairs: seq<Pair>, m: map<TermKey, int>, t: nat): (r: Option<bool>)
    requires t <= |pairs|
    ensures r == Some(true) <==>
      (m.Keys <= TermKeys(|pairs|)
       && forall k :: k in m && k.TermIndex? && k.index >= t ==>
            0 <= m[k] < |pairs| && pairs[k.index].definition == pairs[m[k]].definition)
    ensures r.None? ==> exists k :: k in m && !EntryInRange(pairs, m, k)
    ensures (forall k :: k in m ==> EntryInRange(pairs, m, k)) ==> r.Some?
    decreases |pairs| - t
  {
    if t == |pairs| then
      if m.Keys <= TermKeys(|pairs|) then Some(true) else None
    else if TermIndex(t) in m then
      var d := m[TermIndex(t)];
      if !(0 <= d < |pairs|) then None
      else if pairs[t].definition != pairs[d].definition then Some(false)
      else GradeMatchingFrom(pairs, m, t + 1)
    else GradeMatchingFrom(pairs, m, t + 1)
  }

  function GradeMatching(pairs: seq<Pair>, m: map<TermKey, int>): (r: Option<bool>)
    ensures r == Some(true) <==> PairwiseCorrect(pairs, m)
    ensures r.None? ==> exists k :: k in m && !EntryInRange(pairs, m, k)
    ensures (forall k :: k in m ==> EntryInRange(pairs, m, k)) ==> r.Some?
  {
    GradeMatchingFrom(pairs, m, 0)
  }

  /** `Number(v)` of one entry value of a string or an array: a digit
      character is its digit, a white-space character is 0, any other
      character is NaN (`None`); `true` is 1 and `false` is 0. */
  function CharNumber(c: char): Option<int> {
    if IsDigit(c) then Some(DigitValue(c)) else if IsSpace(c) then Some(0) else None
  }

  /** The values `Object.entries` lists for a string or an array answer,
      keyed by position, as the numbers `evaluateAnswers` reads them as. Other
      answers have no such entries. */
  function IndexedValues(a: Answer): seq<Option<int>> {
    match a
    case TextAnswer(t) => seq(|t|, i requires 0 <= i < |t| => CharNumber(t[i]))
    case StepsAnswer(bs) => seq(|bs|, i requires 0 <= i < |bs| => Some(if bs[i] then 1 else 0))
    case _ => []
  }

  /** Entry `i` of a positional answer names two pairs. */
  predicate IndexedInRange(pairs: seq<Pair>, vs: seq<Option<int>>, i: nat)
    requires i < |vs|
  {
    i < |pairs| && vs[i].Some? && 0 <= vs[i].value < |pairs|
  }

  /** Every positional entry pairs a term with a pair of equal definition. */
  predicate IndexedCorrect(pairs: seq<Pair>, vs: seq<Option<int>>) {
    forall i :: 0 <= i < |vs| ==>
      IndexedInRange(pairs, vs, i) && pairs[i].definition == pairs[vs[i].value].definition
  }

  /** The `every` over the entries of a string or an array, from position
      `t` on: an entry naming no pair throws (`None`) and the first
      mismatch stops the walk with `false`. */
  function GradeIndexedFrom(pairs: seq<Pair>, vs: seq<Option<int>>, t: nat): (r: Option<bool>)
    requires t <= |vs|
    ensures r == Some(true) <==>
      forall i :: t <= i < |vs| ==>
        IndexedInRange(pairs, vs, i) && pairs[i].definition == pairs[vs[i].value].definition
    ensures r.None? ==> exists i :: t <= i < |vs| && !IndexedInRange(pairs, vs, i)
    ensures (forall i :: t <= i < |vs| ==> IndexedInRange(pairs, vs, i)) ==> r.Some?
    decreases |vs| - t
  {
    if t == |vs| then Some(true)
    else if !IndexedInRange(pairs, vs, t) then None
    else if pairs[t].definition != pairs[vs[t].value].definition then Some(false)
    else GradeIndexedFrom(pairs, vs, t + 1)
  }

  /** How `evaluateAnswers` grades one answer against its question;
      `None` is a thrown TypeError. A multiple-choice answer is strictly
      equal to the correct index; a short answer is compared as text; a
      matching answer by its entries (a number has no entries and passes;
      a string or an array lists its positions with their characters or
      booleans as entries); a puzzle answer must be an array of all-true
      steps; any other question type is wrong. */
  function Grade(q: Question, a: Answer): (r: Option<bool>)
    ensures q.MultipleChoice? ==> r == Some(a == ChoiceAnswer(q.correctAnswer))
    ensures q.ShortAnswer? ==> r == Some(CheckShortAnswer(q.answers, AnswerToString(a)))
    ensures q.Matching? && a.MatchAnswer? ==> r == GradeMatching(q.pairs, a.matches)
    ensures q.Matching? && a.ChoiceAnswer? ==> r == Some(true)
    ensures q.Matching? && (a.TextAnswer? || a.StepsAnswer?) ==>
      (r == Some(true) <==> IndexedCorrect(q.pairs, IndexedValues(a)))
      && (r.None? ==> exists i :: 0 <= i < |IndexedValues(a)| && !IndexedInRange(q.pairs, IndexedValues(a), i))
      && ((forall i :: 0 <= i < |IndexedValues(a)| ==> IndexedInRange(q.pairs, IndexedValues(a), i)) ==> r.Some?)
    ensures q.Puzzle? ==> (r.Some? <==> a.StepsAnswer?)
    ensures q.Puzzle? && a.StepsAnswer? ==> (r == Some(true) <==> AllTrue(a.steps))
    ensures q.Unsupported? ==> r == Some(false)
  {
    match q
    case MultipleChoice(_, _, correct, _) => Some(a == ChoiceAnswer(correct))
    case ShortAnswer(_, accepted, _) => Some(CheckShortAnswer(accepted, AnswerToString(a)))
    case Matching(_, pairs, _) =>
      (match a
       case MatchAnswer(m) => GradeMatching(pairs, m)
       case ChoiceAnswer(_) => Some(true)
       case _ => GradeIndexedFrom(pairs, IndexedValues(a), 0))
    case Puzzle(_, _, _) =>
      if a.StepsAnswer? then Some(AllTrue(a.steps)) else None
    case Unsupported(_, _) => Some(false)
  }

  /** The ledger and the widgets agree on a short answer: both compare the
      trimmed, lower-cased text with the lower-cased accepted answers. */
  lemma ShortAnswerGradeAgreesWithWidget(q: Question, s: ShortState)
    requires q.ShortAnswer?
    requires ShortSubmit(q.answers, s).1.Some?
    ensures Grade(q, ShortSubmit(q.answers, s).1.value) == Some(ShortSubmit(q.answers, s).0.isCorrect)
  {
  }

  /** The ledger and the widget agree on a multiple-choice answer. */
  lemma ChoiceGradeAgreesWithWidget(q: Question, s: ChoiceState, index: int)
    requires q.MultipleChoice? && !s.submitted
    ensures Grade(q, SelectOption(s, index).1.value) == Some(ChoiceCorrect(q, SelectOption(s, index).0))
  {
  }

  /** As written, a correctly solved matching board is graded wrong: with
      two pairs shown in swapped order, the widget reports slot positions
      and the ledger reads them as pair indices. */
  lemma MatchingReportMisgraded()
    ensures var pairs := [Pair("A", "1"), Pair("B", "2")];
            var slots := ShuffledDefinitions(pairs, [1, 0]);
            var s := MatchState(map[TermIndex(0) := 1, TermIndex(1) := 0], false, false);
            && SlotsInRange(s.matches, |slots|)
            && MatchSubmitAsWritten(slots, s).1.Some?
            && MatchSubmitAsWritten(slots, s).0.isCorrect
            && Grade(Matching("q", pairs, "e"), MatchSubmitAsWritten(slots, s).1.value) == Some(false)
  {
    var pairs := [Pair("A", "1"), Pair("B", "2")];
    var slots := ShuffledDefinitions(pairs, [1, 0]);
    var m := map[TermIndex(0) := 1, TermIndex(1) := 0];
    assert m.Keys == {TermIndex(0), TermIndex(1)};
    assert slots == [Slot("2", 1), Slot("1", 0)];
    assert GradeMatchingFrom(pairs, m, 0) == Some(false);
  }

  /** Corrected, a board the widget finds correct is graded correct by
      the ledger; when the definitions are pairwise different, the two
      verdicts agree both ways. */
  lemma CorrectedMatchingReportAgrees(pairs: seq<Pair>, perm: seq<int>, s: MatchState)
    requires IsPermutation(perm, |pairs|)
    requires SlotsInRange(s.matches, |pairs|)
    requires MatchSubmit(ShuffledDefinitions(pairs, perm), s).1.Some?
    ensures var (state, out) := MatchSubmit(ShuffledDefinitions(pairs, perm), s);
            state.isCorrect ==> Grade(Matching("q", pairs, "e"), out.value) == Some(true)
    ensures var (state, out) := MatchSubmit(ShuffledDefinitions(pairs, perm), s);
            DistinctDefinitions(pairs) ==>
              (Grade(Matching("q", pairs, "e"), out.value) == Some(true) <==> state.isCorrect)
  {
    var slots := ShuffledDefinitions(pairs, perm);
    var r := PairIndices(slots, s.matches);
    if CheckMatches(slots, s.matches) {
      assert PairwiseCorrect(pairs, r);
    }
    if DistinctDefinitions(pairs) && PairwiseCorrect(pairs, r) {
      forall k | k in s.matches
        ensures k.TermIndex? && slots[s.matches[k]].originalIndex == k.index
      {
        assert EntryInRange(pairs, r, k);
      }
    }
  }

  predicate DistinctDefinitions(pairs: seq<Pair>) {
    forall i, j :: 0 <= i < j < |pairs| ==> pairs[i].definition != pairs[j].definition
  }

  /** As written, the ledger grades every report of a puzzle wrong. */
  lemma AsWrittenPuzzleNeverGradedCorrect(q: Question, s: PuzzleState, events: seq<PuzzleEvent>)
    requires q.Puzzle? && PuzzleReachable(s, |q.steps|)
    ensures var reports := PuzzleRun(q.steps, s, events, false).1;
            forall i :: 0 <= i < |reports| ==> Grade(q, StepsAnswer(reports[i])) == Some(false)
  {
    AsWrittenNeverReportsAllTrue(q.steps, s, events);
  }

  /** Corrected, the submit that solves the last step is graded correct,
      and a wrong step submit is graded wrong. */
  lemma CorrectedPuzzleGraded(q: Question, s: PuzzleState)
    requires q.Puzzle? && PuzzleInv(s, |q.steps|) && SubmitEnabled(s)
    ensures StepMatches(q.steps, s) && s.currentStep == |q.steps| - 1 ==>
      Grade(q, StepsAnswer(StepSubmit(q.steps, s).1.value)) == Some(true)
    ensures !StepMatches(q.steps, s) ==>
      Grade(q, StepsAnswer(StepSubmit(q.steps, s).1.value)) == Some(false)
  {
    FreshReportOnCompletion(q.steps, s);
  }

  // ---------------------------------------------------------------------
  // Evaluating the whole ledger

  /** The entry `evaluateAnswers` makes of position `i`, or `None` when it
      throws: the question index is out of range (`question.type` of
      `undefined`) or grading throws. */
  function GradeEntry(qs: seq<Question>, l: Entries, i: nat): (r: Option<Entry>)
    requires i < |l|
    ensures r.Some? <==> 0 <= EffectiveIndex(l, i) < |qs| && Grade(qs[EffectiveIndex(l, i)], l[i].answer).Some?
    ensures r.Some? ==> (r.value.answer == l[i].answer
                         && r.value.questionIndex == Some(EffectiveIndex(l, i))
                         && r.value.isCorrect == Grade(qs[EffectiveIndex(l, i)], l[i].answer))
  {
    var qi := EffectiveIndex(l, i);
    if 0 <= qi < |qs| then
      match Grade(qs[qi], l[i].answer)
      case None => None
      case Some(b) => Some(Entry(l[i].answer, Some(qi), Some(b)))
    else None
  }

  /** An entry as grading leaves it: it names a question and carries the
      verdict grading that question gives its answer. */
  predicate Evaluated(qs: seq<Question>, e: Entry) {
    && e.questionIndex.Some? && 0 <= e.questionIndex.value < |qs|
    && e.isCorrect.Some?
    && Grade(qs[e.questionIndex.value], e.answer) == e.isCorrect
  }

  /** The `map` step of `evaluateAnswers` over the first `k` positions. */
  function GradeUpTo(qs: seq<Question>, l: Entries, k: nat): (r: Option<Entries>)
    requires k <= |l|
    ensures r.Some? <==> forall i :: 0 <= i < k ==> GradeEntry(qs, l, i).Some?
    ensures r.Some? ==> (|r.value| == k
                         && forall i :: 0 <= i < k ==> r.value[i] == GradeEntry(qs, l, i).value)
  {
    if k == 0 then Some([])
    else
      match GradeUpTo(qs, l, k - 1)
      case None => None
      case Some(prefix) =>
        match GradeEntry(qs, l, k - 1)
        case None => None
        case Some(e) => Some(prefix + [e])
  }

  /** The sort key: the question index, 0 when absent. */
  function Key(e: Entry): int {
    e.questionIndex.GetOr(0)
  }

  predicate SortedByIndex(l: Entries) {
    forall i, j :: 0 <= i < j < |l| ==> Key(l[i]) <= Key(l[j])
  }

  /** Insert `e` after every entry whose key is not larger (keeps ties in
      arrival order, as a stable sort does). */
  function Insert(sorted: Entries, e: Entry): (r: Entries)
    requires SortedByIndex(sorted)
    ensures SortedByIndex(r)
    ensures multiset(r) == multiset(sorted) + multiset{e}
    ensures |r| == |sorted| + 1
    ensures forall i :: 0 <= i < |r| ==> r[i] == e || r[i] in sorted
    decreases |sorted|
  {
    if sorted == [] then [e]
    else
      var last := sorted[|sorted| - 1];
      if Key(last) <= Key(e) then sorted + [e]
      else
        var init := sorted[..|sorted| - 1];
        assert sorted == init + [last];
        assert forall j :: 0 <= j < |init| ==> Key(init[j]) <= Key(last);
        var mid := Insert(init, e);
        assert forall i :: 0 <= i < |mid| ==> Key(mid[i]) <= Key(last);
        mid + [last]
  }

  /** The stable sort by question index that `evaluateAnswers` applies. */
  function SortByIndex(l: Entries): (r: Entries)
    ensures SortedByIndex(r)
    ensures multiset(r) == multiset(l)
    ensures |r| == |l|
    decreases |l|
  {
    if l == [] then []
    else
      assert l == l[..|l| - 1] + [l[|l| - 1]];
      Insert(SortByIndex(l[..|l| - 1]), l[|l| - 1])
  }

  /** `evaluateAnswers`: grade every entry, then order by question index.
      `None` when grading any entry throws. */
  function EvaluateAnswers(qs: seq<Question>, l: Entries): (r: Option<Entries>)
    ensures r.Some? <==> forall i :: 0 <= i < |l| ==> GradeEntry(qs, l, i).Some?
    ensures r.Some? ==> (|r.value| == |l| && SortedByIndex(r.value)
                         && multiset(r.value) == multiset(GradeUpTo(qs, l, |l|).value))
  {
    match GradeUpTo(qs, l, |l|)
    case None => None
    case Some(graded) => Some(SortByIndex(graded))
  }

  lemma {:induction false} InsertAtEnd(sorted: Entries, e: Entry)
    requires SortedByIndex(sorted) && SortedByIndex(sorted + [e])
    ensures Insert(sorted, e) == sorted + [e]
  {
    if sorted != [] {
      assert Key(sorted[|sorted| - 1]) <= Key(e) by {
        assert (sorted + [e])[|sorted| - 1] == sorted[|sorted| - 1];
        assert (sorted + [e])[|sorted|] == e;
      }
    }
  }

  /** Sorting an ordered ledger leaves it as it is. */
  lemma {:induction false} SortSortedIdentity(l: Entries)
    requires SortedByIndex(l)
    ensures SortByIndex(l) == l
    decreases |l|
  {
    if l != [] {
      var init := l[..|l| - 1];
      assert l == init + [l[|l| - 1]];
      assert SortedByIndex(init);
      SortSortedIdentity(init);
      assert SortByIndex(l) == Insert(init, l[|l| - 1]);
      InsertAtEnd(init, l[|l| - 1]);
    }
  }

  /** Every entry of an evaluated ledger is graded. */
  lemma EvaluatedEntries(qs: seq<Question>, l: Entries)
    requires EvaluateAnswers(qs, l).Some?
    ensures forall e :: e in EvaluateAnswers(qs, l).value ==> Evaluated(qs, e)
  {
    var graded := GradeUpTo(qs, l, |l|).value;
    var r := EvaluateAnswers(qs, l).value;
    forall e | e in r
      ensures Evaluated(qs, e)
    {
      assert e in multiset(r);
      assert e in multiset(graded);
      var i :| 0 <= i < |graded| && graded[i] == e;
      assert e == GradeEntry(qs, l, i).value;
    }
  }

  /** Grading an entry that is already graded gives it back. */
  lemma RegradeEntry(qs: seq<Question>, r: Entries, i: nat)
    requires i < |r| && Evaluated(qs, r[i])
    ensures GradeEntry(qs, r, i) == Some(r[i])
  {
  }

  /** Grading a ledger of graded entries gives it back. */
  lemma RegradeAll(qs: seq<Question>, r: Entries)
    requires forall e :: e in r ==> Evaluated(qs, e)
    ensures GradeUpTo(qs, r, |r|) == Some(r)
  {
    forall i | 0 <= i < |r|
      ensures GradeEntry(qs, r, i) == Some(r[i])
    {
      assert r[i] in r;
      RegradeEntry(qs, r, i);
    }
    var again := GradeUpTo(qs, r, |r|).value;
    assert again == r;
  }

  /** Evaluating an evaluated ledger changes nothing: completing a quiz
      twice gives the same ledger. */
  lemma EvaluateIdempotent(qs: seq<Question>, l: Entries)
    requires EvaluateAnswers(qs, l).Some?
    ensures EvaluateAnswers(qs, EvaluateAnswers(qs, l).value) == EvaluateAnswers(qs, l)
  {
    var r := EvaluateAnswers(qs, l).value;
    EvaluatedEntries(qs, l);
    RegradeAll(qs, r);
    SortSortedIdentity(r);
  }

  // ---------------------------------------------------------------------
  // Scores

  /** The number of entries graded correct (`filter(a => a.isCorrect).length`). */
  function Score(l: Entries): (r: nat)
    ensures r <= |l|
  {
    if l == [] then 0
    else Score(l[..|l| - 1]) + (if l[|l| - 1].isCorrect == Some(true) then 1 else 0)
  }

  lemma {:induction false} ScoreAppend(a: Entries, b: Entries)
    ensures Score(a + b) == Score(a) + Score(b)
    decreases |b|
  {
    if b == [] {
      assert a + b == a;
    } else {
      var init := b[..|b| - 1];
      assert (a + b)[..|a + b| - 1] == a + init;
      ScoreAppend(a, init);
    }
  }

  /** The score depends only on which entries there are, not their order. */
  lemma {:induction false} ScorePermutation(a: Entries, b: Entries)
    requires multiset(a) == multiset(b)
    ensures Score(a) == Score(b)
    decreases |a|
  {
    if a != [] {
      var x := a[0];
      assert x in multiset(b);
      var j :| 0 <= j < |b| && b[j] == x;
      var rest := b[..j] + b[j + 1..];
      assert b == b[..j] + [x] + b[j + 1..];
      assert a == [x] + a[1..];
      calc {
        multiset(b);
        multiset(b[..j] + [x] + b[j + 1..]);
        multiset(b[..j]) + multiset{x} + multiset(b[j + 1..]);
        multiset{x} + multiset(rest);
      }
      assert multiset(a) == multiset{x} + multiset(a[1..]);
      assert multiset(a[1..]) == multiset(a) - multiset{x};
      assert multiset(rest) == multiset(b) - multiset{x};
      ScorePermutation(a[1..], rest);
      ScoreAppend([x], a[1..]);
      ScoreAppend(b[..j] + [x], b[j + 1..]);
      ScoreAppend(b[..j], [x]);
      ScoreAppend(b[..j], b[j + 1..]);
      assert Score([x]) == (if x.isCorrect == Some(true) then 1 else 0) by {
        assert [x][..0] == [];
      }
    }
  }

  /** The final score is the number of answers grading finds correct,
      whatever order the ledger was in. */
  lemma EvaluatedScore(qs: seq<Question>, l: Entries)
    requires EvaluateAnswers(qs, l).Some?
    ensures Score(EvaluateAnswers(qs, l).value) == Score(GradeUpTo(qs, l, |l|).value)
    ensures Score(EvaluateAnswers(qs, l).value) <= |l|
  {
    ScorePermutation(EvaluateAnswers(qs, l).value, GradeUpTo(qs, l, |l|).value);
  }

  // ---------------------------------------------------------------------
  // Recording answers

  /** The position of the first entry that stands for question `c`, or -1
      (the `findIndex` of `handleAnswered`, the `find` of
      `getAnswerForCurrentQuestion`). */
  function FindIndexFor(l: Entries, c: int): (r: int)
    ensures -1 <= r < |l|
    ensures r >= 0 ==> EffectiveIndex(l, r) == c && forall j :: 0 <= j < r ==> EffectiveIndex(l, j) != c
    ensures r < 0 ==> forall j :: 0 <= j < |l| ==> EffectiveIndex(l, j) != c
  {
    FindFrom(l, c, 0)
  }

  function FindFrom(l: Entries, c: int, from: nat): (r: int)
    requires from <= |l|
    requires forall j :: 0 <= j < from ==> EffectiveIndex(l, j) != c
    ensures -1 <= r < |l|
    ensures r >= 0 ==> EffectiveIndex(l, r) == c && forall j :: 0 <= j < r ==> EffectiveIndex(l, j) != c
    ensures r < 0 ==> forall j :: 0 <= j < |l| ==> EffectiveIndex(l, j) != c
    decreases |l| - from
  {
    if from == |l| then -1
    else if EffectiveIndex(l, from) == c then from
    else FindFrom(l, c, from + 1)
  }

  /** The answer on record for question `c`, if any. */
  function AnswerFor(l: Entries, c: int): Option<Answer> {
    var k := FindIndexFor(l, c);
    if k < 0 then None else Some(l[k].answer)
  }

  /** `handleAnswered`'s update: replace the answer of the entry standing
      for question `c` (keeping its grade) and stamp it with `c`, or append
      a new entry. */
  function RecordAnswer(l: Entries, c: int, a: Answer): (r: Entries)
    ensures |r| == |l| || |r| == |l| + 1
    ensures forall j :: 0 <= j < |l| ==> EffectiveIndex(r, j) == EffectiveIndex(l, j)
    ensures forall j :: 0 <= j < |l| && EffectiveIndex(l, j) != c ==> r[j] == l[j]
    ensures |r| == |l| + 1 <==> forall j :: 0 <= j < |l| ==> EffectiveIndex(l, j) != c
    ensures |r| == |l| + 1 ==> r[|l|] == Entry(a, Some(c), None)
  {
    var k := FindIndexFor(l, c);
    if k >= 0 then l[k := Entry(a, Some(c), l[k].isCorrect)]
    else l + [Entry(a, Some(c), None)]
  }

  /** Reading back the question just answered gives the new answer. */
  lemma RecordThenRead(l: Entries, c: int, a: Answer)
    ensures AnswerFor(RecordAnswer(l, c, a), c) == Some(a)
  {
    var k := FindIndexFor(l, c);
    var r := RecordAnswer(l, c, a);
    if k >= 0 {
      assert EffectiveIndex(r, k) == c;
      assert FindIndexFor(r, c) == k;
    } else {
      assert EffectiveIndex(r, |l|) == c;
      assert FindIndexFor(r, c) == |l|;
    }
  }

  /** Recording an answer leaves every other question's answer alone. */
  lemma RecordLeavesOthers(l: Entries, c: int, a: Answer, c2: int)
    requires c2 != c
    ensures AnswerFor(RecordAnswer(l, c, a), c2) == AnswerFor(l, c2)
  {
    var r := RecordAnswer(l, c, a);
    var k2 := FindIndexFor(l, c2);
    var r2 := FindIndexFor(r, c2);
    if |r| == |l| + 1 {
      assert EffectiveIndex(r, |l|) == c;
    }
    if k2 >= 0 {
      assert r2 == k2;
    } else {
      assert r2 < 0;
    }
  }

  /** Answering the same question twice keeps only the second answer. */
  lemma RecordOverwrites(l: Entries, c: int, a: Answer, b: Answer)
    ensures RecordAnswer(RecordAnswer(l, c, a), c, b) == RecordAnswer(l, c, b)
  {
    var k := FindIndexFor(l, c);
    var r := RecordAnswer(l, c, a);
    if k >= 0 {
      assert FindIndexFor(r, c) == k;
    } else {
      assert EffectiveIndex(r, |l|) == c;
      assert FindIndexFor(r, c) == |l|;
    }
  }

  // ---------------------------------------------------------------------
  // Completion

  /** The shape of a ledger for n questions built by `handleAnswered`:
      every entry names a question, and no question twice. */
  predicate WellFormed(l: Entries, n: nat) {
    && (forall i :: 0 <= i < |l| ==> l[i].questionIndex.Some? && 0 <= l[i].questionIndex.value < n)
    && (forall i, j :: 0 <= i < j < |l| ==> l[i].questionIndex != l[j].questionIndex)
  }

  lemma RecordPreservesWellFormed(l: Entries, n: nat, c: int, a: Answer)
    requires WellFormed(l, n) && 0 <= c < n
    ensures WellFormed(RecordAnswer(l, c, a), n)
  {
    var r := RecordAnswer(l, c, a);
    forall i, j | 0 <= i < j < |r|
      ensures r[i].questionIndex != r[j].questionIndex
    {
      assert EffectiveIndex(r, i) == r[i].questionIndex.value;
      assert EffectiveIndex(r, j) == r[j].questionIndex.value;
      if j == |l| {
        assert EffectiveIndex(l, i) != c;
      } else if EffectiveIndex(l, i) == c || EffectiveIndex(l, j) == c {
        assert EffectiveIndex(l, i) != EffectiveIndex(l, j);
      }
    }
  }

  /** The number of entries that carry a question index (the "n/N Answered" count). */
  function CountIndexed(l: Entries): (r: nat)
    ensures r <= |l|
    ensures r == |l| <==> forall i :: 0 <= i < |l| ==> l[i].questionIndex.Some?
  {
    if l == [] then 0
    else CountIndexed(l[..|l| - 1]) + (if l[|l| - 1].questionIndex.Some? then 1 else 0)
  }

  function Indices(l: Entries): (s: seq<int>)
    requires forall i :: 0 <= i < |l| ==> l[i].questionIndex.Some?
    ensures |s| == |l| && forall i :: 0 <= i < |l| ==> s[i] == l[i].questionIndex.value
  {
    seq(|l|, i requires 0 <= i < |l| => l[i].questionIndex.value)
  }

  lemma AnsweredIffIndexed(l: Entries, n: nat, q: int)
    requires WellFormed(l, n)
    ensures AnswerFor(l, q).Some? <==> q in Counting.Values(Indices(l))
  {
    var k := FindIndexFor(l, q);
    if q in Counting.Values(Indices(l)) {
      var i :| 0 <= i < |l| && Indices(l)[i] == q;
      assert EffectiveIndex(l, i) == q;
    }
    if k >= 0 {
      assert Indices(l)[k] == q;
    }
  }

  /** On a well-formed ledger for n questions, the indexed count reaches n
      exactly when every question has an answer on record. */
  lemma FullCountIffAllAnswered(l: Entries, n: nat)
    requires WellFormed(l, n)
    ensures CountIndexed(l) == n <==> forall q :: 0 <= q < n ==> AnswerFor(l, q).Some?
  {
    var s := Indices(l);
    assert Counting.Distinct(s);
    forall q | 0 <= q < n
      ensures AnswerFor(l, q).Some? <==> q in Counting.Values(s)
    {
      AnsweredIffIndexed(l, n, q);
    }
    if CountIndexed(l) == n {
      Counting.DistinctBelowCoversRange(s, n);
    }
    if forall q :: 0 <= q < n ==> AnswerFor(l, q).Some? {
      Counting.CoveringDistinctHasLength(s, n);
    }
  }
}
