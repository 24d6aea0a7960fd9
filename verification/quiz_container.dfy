/** The quiz runner (src/components/quiz/QuizContainer.tsx): the session
    of one attempt (cursor, ledger, completion flag), navigation, the
    progress document it saves and restores, the final results and the
    practice quiz built from wrong answers. The document store is a map
    from document id to snapshot; clocks are parameters in milliseconds. */
module QuizContainer {
  import opened Wrappers
  import opened Text
  import opened AnswerBlock
  import opened Ledger
  import opened JsMath
  import Counting

  datatype Quiz = Quiz(id: Option<string>, title: string, questions: seq<Question>, createdAt: string)

  /** `quiz.id` is truthy: present and not empty. */
  predicate HasId(quiz: Quiz) {
    quiz.id.Some? && quiz.id.value != ""
  }

  /** The runner renders the "Invalid Quiz Data" view unless there is at
      least one question. */
  predicate Playable(quiz: Quiz) {
    |quiz.questions| > 0
  }

  datatype Session = Session(cursor: int, answers: Entries, completed: bool)

  function Start(): Session {
    Session(0, [], false)
  }

  // ---------------------------------------------------------------------
  // Navigation

  /** `goToNextQuestion`: move on unless at the last question. */
  function Next(cursor: int, n: nat): (r: int)
    ensures 0 <= cursor < n ==> 0 <= r < n
    ensures r == cursor || r == cursor + 1
    ensures r == cursor + 1 <==> cursor < n - 1
  {
    if cursor < n - 1 then cursor + 1 else cursor
  }

  /** `goToPreviousQuestion`: move back unless at the first question. */
  function Prev(cursor: int): (r: int)
    ensures cursor >= 0 ==> r >= 0
    ensures r == cursor || r == cursor - 1
    ensures r == cursor - 1 <==> cursor > 0
  {
    if cursor > 0 then cursor - 1 else cursor
  }

  /** Next and previous undo each other wherever they move. */
  lemma NextPrevInverse(cursor: int, n: nat)
    ensures 0 <= cursor < n - 1 ==> Prev(Next(cursor, n)) == cursor
    ensures 0 < cursor < n ==> Next(Prev(cursor), n) == cursor
  {
  }

  /** Pressing next k times from the first question reaches question
      min(k, n - 1). */
  function NextTimes(cursor: int, n: nat, k: nat): int
    decreases k
  {
    if k == 0 then cursor else NextTimes(Next(cursor, n), n, k - 1)
  }

  lemma {:induction false} NextTimesReaches(n: nat, k: nat, cursor: int)
    requires 0 <= cursor < n
    ensures NextTimes(cursor, n, k) == if cursor + k < n then cursor + k else n - 1
    decreases k
  {
    if k > 0 {
      NextTimesReaches(n, k - 1, Next(cursor, n));
    }
  }

  // ---------------------------------------------------------------------
  // Saved progress

  /** The `userQuizProgress` document. */
  datatype Snapshot = Snapshot(quizId: string, answers: Entries, lastUpdated: int, cursor: int)

  type Store = map<string, Snapshot>

  /** Saved progress older than a day is ignored. */
  const DayMs: int := 24 * 60 * 60 * 1000

  /** The progress document id, `${uid}_${quizId}`. */
  function ProgressKey(uid: string, quizId: string): string {
    uid + "_" + quizId
  }

  /** Two users without an underscore in their ids never share a progress
      document, and one user's quizzes never share one either. */
  lemma ProgressKeyInjective(u1: string, q1: string, u2: string, q2: string)
    requires '_' !in u1 && '_' !in u2
    requires ProgressKey(u1, q1) == ProgressKey(u2, q2)
    ensures u1 == u2 && q1 == q2
  {
    var k := ProgressKey(u1, q1);
    FirstUnderscore(u1, q1);
    FirstUnderscore(u2, q2);
    assert u1 == k[..|u1|];
    assert u2 == k[..|u2|];
    assert q1 == k[|u1| + 1..];
    assert q2 == k[|u2| + 1..];
  }

  lemma FirstUnderscore(u: string, q: string)
    requires '_' !in u
    ensures IndexOf(ProgressKey(u, q), '_') == |u|
  {
    var k := ProgressKey(u, q);
    assert forall i :: 0 <= i < |u| ==> k[i] == u[i];
    IndexOfFirst(k, '_', |u|);
  }

  /** The ledger as `saveProgress` writes it: every entry stamped with the
      question it stands for. */
  function WithIndices(l: Entries): (r: Entries)
    ensures |r| == |l|
    ensures forall i :: 0 <= i < |l| ==>
      r[i].answer == l[i].answer && r[i].isCorrect == l[i].isCorrect && r[i].questionIndex.Some?
    ensures forall i :: 0 <= i < |l| ==> EffectiveIndex(r, i) == EffectiveIndex(l, i)
  {
    seq(|l|, i requires 0 <= i < |l| => l[i].(questionIndex := Some(EffectiveIndex(l, i))))
  }

  /** Stamping indices changes no question's recorded answer. */
  lemma WithIndicesKeepsAnswers(l: Entries, c: int)
    ensures AnswerFor(WithIndices(l), c) == AnswerFor(l, c)
  {
    var r := WithIndices(l);
    var k := FindIndexFor(l, c);
    if k >= 0 {
      assert FindIndexFor(r, c) == k;
    } else {
      assert FindIndexFor(r, c) < 0;
    }
  }

  lemma WithIndicesIdempotent(l: Entries)
    ensures WithIndices(WithIndices(l)) == WithIndices(l)
  {
  }

  /** `saveProgress`: only for a signed-in user and a quiz with an id. */
  function SaveProgress(store: Store, uid: Option<string>, quiz: Quiz, cursor: int, l: Entries, now: int): (r: Store)
    ensures uid.None? || !HasId(quiz) ==> r == store
    ensures uid.Some? && HasId(quiz) ==>
      r == store[ProgressKey(uid.value, quiz.id.value) := Snapshot(quiz.id.value, WithIndices(l), now, cursor)]
  {
    if uid.Some? && HasId(quiz) then
      store[ProgressKey(uid.value, quiz.id.value) := Snapshot(quiz.id.value, WithIndices(l), now, cursor)]
    else store
  }

  /** A second save of the same attempt overwrites the first. */
  lemma SaveTwiceKeepsLast(store: Store, uid: Option<string>, quiz: Quiz, cursor: int, l1: Entries, l2: Entries, now: int)
    ensures SaveProgress(SaveProgress(store, uid, quiz, cursor, l1, now), uid, quiz, cursor, l2, now)
            == SaveProgress(store, uid, quiz, cursor, l2, now)
  {
    if uid.Some? && HasId(quiz) {
      var k := ProgressKey(uid.value, quiz.id.value);
      var v1 := Snapshot(quiz.id.value, WithIndices(l1), now, cursor);
      var v2 := Snapshot(quiz.id.value, WithIndices(l2), now, cursor);
      assert store[k := v1][k := v2] == store[k := v2];
    }
  }

  /** The cursor update after navigation: `updateDoc` on an existing
      progress document; a missing document makes it fail, which is
      ignored. */
  function SaveCursor(store: Store, uid: Option<string>, quiz: Quiz, cursor: int, now: int): (r: Store)
    ensures r.Keys == store.Keys
    ensures forall k :: (k in store && (uid.None? || !HasId(quiz) || k != ProgressKey(uid.value, quiz.id.value))
                         ==> r[k] == store[k])
    ensures uid.Some? && HasId(quiz) && ProgressKey(uid.value, quiz.id.value) in store ==>
      var k := ProgressKey(uid.value, quiz.id.value);
      r[k].cursor == cursor && r[k].lastUpdated == now
      && r[k].answers == store[k].answers && r[k].quizId == store[k].quizId
  {
    if uid.Some? && HasId(quiz) && ProgressKey(uid.value, quiz.id.value) in store then
      var k := ProgressKey(uid.value, quiz.id.value);
      store[k := store[k].(cursor := cursor, lastUpdated := now)]
    else store
  }

  /** `loadSavedAnswers`: resume a signed-in user's progress if it was
      saved less than a day ago; it is complete when it holds as many
      answers as there are questions. */
  function Restore(quiz: Quiz, uid: Option<string>, store: Store, now: int): (r: Session)
    ensures uid.None? || !HasId(quiz) ==> r == Start()
    ensures r != Start() ==>
      uid.Some? && HasId(quiz) && ProgressKey(uid.value, quiz.id.value) in store
      && now - store[ProgressKey(uid.value, quiz.id.value)].lastUpdated < DayMs
    ensures uid.Some? && HasId(quiz) && ProgressKey(uid.value, quiz.id.value) in store ==>
      var snap := store[ProgressKey(uid.value, quiz.id.value)];
      now - snap.lastUpdated < DayMs ==>
        r == Session(snap.cursor, snap.answers, |snap.answers| == |quiz.questions|)
  {
    if uid.None? || !HasId(quiz) then Start()
    else
      var key := ProgressKey(uid.value, quiz.id.value);
      if key !in store then Start()
      else
        var snap := store[key];
        if now - snap.lastUpdated < DayMs then
          Session(snap.cursor, snap.answers, |snap.answers| == |quiz.questions|)
        else Start()
  }

  /** Saving and then reloading within a day resumes the same question
      with the same answers; after a day the attempt starts afresh. */
  lemma SaveThenRestore(store: Store, uid: string, quiz: Quiz, cursor: int, l: Entries, saved: int, now: int)
    requires HasId(quiz)
    ensures var r := Restore(quiz, Some(uid), SaveProgress(store, Some(uid), quiz, cursor, l, saved), now);
            now - saved < DayMs ==>
              r == Session(cursor, WithIndices(l), |l| == |quiz.questions|)
              && forall c :: AnswerFor(r.answers, c) == AnswerFor(l, c)
    ensures now - saved >= DayMs ==>
      Restore(quiz, Some(uid), SaveProgress(store, Some(uid), quiz, cursor, l, saved), now) == Start()
  {
    forall c {
      WithIndicesKeepsAnswers(l, c);
    }
  }

  /** Moving after a save keeps the answers and moves the resumed cursor. */
  lemma SaveCursorThenRestore(store: Store, uid: string, quiz: Quiz, cursor: int, l: Entries, saved: int,
                              moved: int, now: int)
    requires HasId(quiz) && now - saved >= 0 && now - saved < DayMs
    ensures var s1 := SaveProgress(store, Some(uid), quiz, cursor, l, saved);
            Restore(quiz, Some(uid), SaveCursor(s1, Some(uid), quiz, moved, saved), now)
              == Session(moved, WithIndices(l), |l| == |quiz.questions|)
  {
  }

  // ---------------------------------------------------------------------
  // Answering

  /** `handleAnswered`: record the answer for the current question and
      save; when the last question is answered and every entry carries a
      question index, grade the ledger, save it again and complete. If
      grading throws, the recorded ledger stands and nothing completes. */
  function HandleAnswered(quiz: Quiz, uid: Option<string>, store: Store, s: Session, a: Answer, now: int)
    : (r: (Session, Store))
    ensures r.0.cursor == s.cursor
    ensures s.cursor != |quiz.questions| - 1 ==>
      r.0 == Session(s.cursor, RecordAnswer(s.answers, s.cursor, a), s.completed)
    ensures r.0.completed && !s.completed ==>
      SortedByIndex(r.0.answers) && forall e :: e in r.0.answers ==> Evaluated(quiz.questions, e)
    ensures var l := RecordAnswer(s.answers, s.cursor, a);
      var completes := s.cursor == |quiz.questions| - 1 && CountIndexed(l) == |quiz.questions|
                       && EvaluateAnswers(quiz.questions, l).Some?;
      && (r.0.completed <==> s.completed || completes)
      && r.0.answers == (if completes then EvaluateAnswers(quiz.questions, l).value else l)
      && (!completes ==> AnswerFor(r.0.answers, s.cursor) == Some(a))
    ensures uid.None? || !HasId(quiz) ==> r.1 == store
    ensures uid.Some? && HasId(quiz) ==>
      r.1 == store[ProgressKey(uid.value, quiz.id.value)
                     := Snapshot(quiz.id.value, WithIndices(r.0.answers), now, s.cursor)]
  {
    var n := |quiz.questions|;
    var l := RecordAnswer(s.answers, s.cursor, a);
    RecordThenRead(s.answers, s.cursor, a);
    var saved := SaveProgress(store, uid, quiz, s.cursor, l, now);
    if s.cursor == n - 1 && CountIndexed(l) == n then
      match EvaluateAnswers(quiz.questions, l)
      case Some(e) =>
        EvaluatedEntries(quiz.questions, l);
        SaveTwiceKeepsLast(store, uid, quiz, s.cursor, l, e, now);
        (Session(s.cursor, e, true), SaveProgress(saved, uid, quiz, s.cursor, e, now))
      case None => (Session(s.cursor, l, s.completed), saved)
    else (Session(s.cursor, l, s.completed), saved)
  }

  /** Answering completes the attempt only once every question has an
      answer; and answering the last question when all others are answered
      does complete it, unless grading throws. */
  lemma CompletionIffAllAnswered(quiz: Quiz, uid: Option<string>, store: Store, s: Session, a: Answer, now: int)
    requires WellFormed(s.answers, |quiz.questions|) && 0 <= s.cursor < |quiz.questions|
    requires !s.completed
    ensures var l := RecordAnswer(s.answers, s.cursor, a);
            HandleAnswered(quiz, uid, store, s, a, now).0.completed ==>
              forall q :: 0 <= q < |quiz.questions| ==> AnswerFor(l, q).Some?
    ensures var l := RecordAnswer(s.answers, s.cursor, a);
            s.cursor == |quiz.questions| - 1
            && (forall q :: 0 <= q < |quiz.questions| - 1 ==> AnswerFor(s.answers, q).Some?)
            && EvaluateAnswers(quiz.questions, l).Some?
            ==> HandleAnswered(quiz, uid, store, s, a, now).0.completed
  {
    var n := |quiz.questions|;
    var l := RecordAnswer(s.answers, s.cursor, a);
    RecordPreservesWellFormed(s.answers, n, s.cursor, a);
    FullCountIffAllAnswered(l, n);
    RecordThenRead(s.answers, s.cursor, a);
    forall q | 0 <= q < n && q != s.cursor
      ensures AnswerFor(l, q) == AnswerFor(s.answers, q)
    {
      RecordLeavesOthers(s.answers, s.cursor, a, q);
    }
  }

  /** The final Submit button: shown on the last question once it is
      answered, before completion. */
  predicate SubmitVisible(quiz: Quiz, s: Session) {
    AnswerFor(s.answers, s.cursor).Some? && s.cursor == |quiz.questions| - 1 && !s.completed
  }

  /** Pressing Submit grades the ledger, saves the graded ledger as the
      progress snapshot and completes the attempt; if grading throws,
      nothing changes and nothing is saved. */
  function SubmitQuiz(quiz: Quiz, uid: Option<string>, store: Store, s: Session, now: int): (r: (Session, Store))
    ensures !SubmitVisible(quiz, s) ==> r == (s, store)
    ensures r.0.cursor == s.cursor
    ensures SubmitVisible(quiz, s) ==> (r.0.completed <==> EvaluateAnswers(quiz.questions, s.answers).Some?)
    ensures r.0.completed && !s.completed ==>
      r.0.answers == EvaluateAnswers(quiz.questions, s.answers).value
      && SortedByIndex(r.0.answers) && |r.0.answers| == |s.answers|
      && forall e :: e in r.0.answers ==> Evaluated(quiz.questions, e)
    ensures !r.0.completed || s.completed ==> r == (s, store)
    ensures r.0.completed && !s.completed && uid.Some? && HasId(quiz) ==>
      r.1 == store[ProgressKey(uid.value, quiz.id.value) := Snapshot(quiz.id.value, WithIndices(r.0.answers), now, s.cursor)]
    ensures uid.None? || !HasId(quiz) ==> r.1 == store
  {
    if !SubmitVisible(quiz, s) then (s, store)
    else
      match EvaluateAnswers(quiz.questions, s.answers)
      case Some(e) =>
        EvaluatedEntries(quiz.questions, s.answers);
        (Session(s.cursor, e, true), SaveProgress(store, uid, quiz, s.cursor, e, now))
      case None => (s, store)
  }

  // ---------------------------------------------------------------------
  // Results

  datatype ResultAnswer = ResultAnswer(questionIndex: int, isCorrect: bool)

  /** The `results` object written to the quiz document. */
  datatype Results = Results(quizId: string, score: nat, totalQuestions: nat, answers: seq<ResultAnswer>, timeSpent: int)

  /** One answer of the record kept for the summary page. */
  datatype SummaryAnswer = SummaryAnswer(questionIndex: int, isCorrect: bool, userAnswer: Answer)

  /** The `quizResults` record written to session storage for the
      summary page. */
  datatype SummaryRecord = SummaryRecord(title: string, score: nat, totalQuestions: nat, questions: seq<Question>,
                                         answers: seq<SummaryAnswer>, timeSpent: int)

  /** What finishing produces: the graded ledger, the progress store after
      grading saved it, the results, whether they are written to the quiz
      document, the record for the summary page, and the summary route. */
  datatype Finished = Finished(ledger: Entries, progress: Store, results: Results, storedInQuiz: bool,
                               summary: SummaryRecord, route: string)

  /** A summary answer carries what the result row carries, and the
      answer itself. */
  function ToSummaryAnswer(e: Entry): (r: SummaryAnswer)
    ensures r.questionIndex == ToResultAnswer(e).questionIndex && r.isCorrect == ToResultAnswer(e).isCorrect
    ensures r.userAnswer == e.answer
  {
    SummaryAnswer(e.questionIndex.GetOr(0), e.isCorrect == Some(true), e.answer)
  }

  function ToResultAnswer(e: Entry): ResultAnswer {
    ResultAnswer(e.questionIndex.GetOr(0), e.isCorrect == Some(true))
  }

  function ResultAnswers(l: Entries): (rs: seq<ResultAnswer>)
    ensures |rs| == |l|
  {
    seq(|l|, i requires 0 <= i < |l| => ToResultAnswer(l[i]))
  }

  function CountCorrect(rs: seq<ResultAnswer>): nat {
    if rs == [] then 0
    else CountCorrect(rs[..|rs| - 1]) + (if rs[|rs| - 1].isCorrect then 1 else 0)
  }

  /** The query string `/summary?score=…&total=…&quizId=…`, with `custom`
      for a quiz without an id. */
  function SummaryRoute(score: nat, total: nat, quiz: Quiz): string {
    "/summary?score=" + NatToString(score) + "&total=" + NatToString(total)
    + "&quizId=" + (if HasId(quiz) then quiz.id.value else "custom")
  }

  /** The `quizResults` record for a graded ledger. */
  function SummaryRecordFor(quiz: Quiz, e: Entries, score: nat, spent: int): (r: SummaryRecord)
    ensures r.title == quiz.title && r.questions == quiz.questions
    ensures r.score == score && r.totalQuestions == |quiz.questions| && r.timeSpent == spent
    ensures |r.answers| == |e| && forall i :: 0 <= i < |e| ==> r.answers[i] == ToSummaryAnswer(e[i])
  {
    SummaryRecord(quiz.title, score, |quiz.questions|, quiz.questions,
                  seq(|e|, i requires 0 <= i < |e| => ToSummaryAnswer(e[i])), spent)
  }

  /** `redirectToSummary`: grade (which saves the graded ledger as
      progress), count, time the attempt in whole seconds, build the
      results and the summary record; `None` when grading throws. */
  function Finish(quiz: Quiz, uid: Option<string>, store: Store, cursor: int, l: Entries, startMs: int, nowMs: int)
    : (r: Option<Finished>)
    ensures r.Some? <==> EvaluateAnswers(quiz.questions, l).Some?
    ensures r.Some? ==>
      var f := r.value;
      && f.ledger == EvaluateAnswers(quiz.questions, l).value
      && f.results.score == Score(f.ledger) <= |l|
      && f.results.totalQuestions == |quiz.questions|
      && |f.results.answers| == |l|
      && (forall i :: 0 <= i < |l| ==> f.results.answers[i] == ToResultAnswer(f.ledger[i]))
      && f.results.timeSpent * 1000 <= nowMs - startMs < (f.results.timeSpent + 1) * 1000
      && (f.storedInQuiz <==> uid.Some? && HasId(quiz))
      && f.route == SummaryRoute(f.results.score, |quiz.questions|, quiz)
    ensures r.Some? && uid.Some? && HasId(quiz) ==>
      r.value.progress
        == store[ProgressKey(uid.value, quiz.id.value) := Snapshot(quiz.id.value, WithIndices(r.value.ledger), nowMs, cursor)]
    ensures r.Some? && (uid.None? || !HasId(quiz)) ==> r.value.progress == store
    ensures r.Some? ==> r.value.results.quizId == (if HasId(quiz) then quiz.id.value else "")
    ensures r.Some? ==>
      var f := r.value;
      && f.summary.title == quiz.title && f.summary.questions == quiz.questions
      && f.summary.score == f.results.score && f.summary.totalQuestions == |quiz.questions|
      && f.summary.timeSpent == f.results.timeSpent
      && |f.summary.answers| == |f.ledger|
      && forall i :: 0 <= i < |f.ledger| ==> f.summary.answers[i] == ToSummaryAnswer(f.ledger[i])
  {
    match EvaluateAnswers(quiz.questions, l)
    case None => None
    case Some(e) =>
      var score := Score(e);
      var answers := ResultAnswers(e);
      var spent := FloorDiv(nowMs - startMs, 1000);
      var id := if HasId(quiz) then quiz.id.value else "";
      var summary := SummaryRecordFor(quiz, e, score, spent);
      Some(Finished(e, SaveProgress(store, uid, quiz, cursor, e, nowMs), Results(id, score, |quiz.questions|, answers, spent),
                    uid.Some? && HasId(quiz), summary, SummaryRoute(score, |quiz.questions|, quiz)))
  }

  lemma {:induction false} ScoreIsCountCorrect(l: Entries)
    ensures Score(l) == CountCorrect(ResultAnswers(l))
    decreases |l|
  {
    if l != [] {
      var init := l[..|l| - 1];
      ScoreIsCountCorrect(init);
      var rs := ResultAnswers(l);
      assert rs[..|rs| - 1] == ResultAnswers(init);
    }
  }

  /** The reported score is the number of results marked correct, and is
      the number of answers grading found correct. */
  lemma FinishScoreConsistent(quiz: Quiz, uid: Option<string>, store: Store, cursor: int, l: Entries,
                               startMs: int, nowMs: int)
    requires Finish(quiz, uid, store, cursor, l, startMs, nowMs).Some?
    ensures var f := Finish(quiz, uid, store, cursor, l, startMs, nowMs).value;
            f.results.score == CountCorrect(f.results.answers)
            && f.results.score == Score(GradeUpTo(quiz.questions, l, |l|).value)
  {
    var e := EvaluateAnswers(quiz.questions, l).value;
    ScoreIsCountCorrect(e);
    EvaluatedScore(quiz.questions, l);
  }

  /** The in-page results view: the rounded percentage of correct answers,
      counted only once the attempt is complete. */
  function ResultsPercent(s: Session, n: nat): (r: int)
    requires n > 0
    ensures !s.completed ==> r == 0
    ensures s.completed && Score(s.answers) <= n ==> 0 <= r <= 100
    ensures s.completed ==> 2 * n * r <= 2 * (100 * Score(s.answers)) + n < 2 * n * (r + 1)
  {
    var correct := if s.completed then Score(s.answers) else 0;
    if correct <= n then
      RoundedPercentBounds(correct, n);
      RoundDiv(100 * correct, n)
    else RoundDiv(100 * correct, n)
  }

  /** On a well-formed ledger the score never exceeds the question count. */
  lemma ScoreWithinQuestions(l: Entries, n: nat)
    requires WellFormed(l, n)
    ensures Score(l) <= n
  {
    Counting.DistinctBelowBound(Indices(l), n);
  }

  // ---------------------------------------------------------------------
  // Practice quiz from wrong answers

  /** The question positions `createNewQuizFromWrongAnswers` keeps: those
      whose ledger entry AT THE SAME POSITION exists and is not graded
      correct. */
  function WrongPositions(n: nat, l: Entries): (r: seq<int>)
    ensures Counting.StrictlyIncreasing(r)
    ensures forall i :: i in r <==> 0 <= i < n && i < |l| && l[i].isCorrect != Some(true)
    ensures forall k :: 0 <= k < |r| ==> 0 <= r[k] < n
  {
    WrongFrom(n, l, 0)
  }

  function WrongFrom(n: nat, l: Entries, from: nat): (r: seq<int>)
    requires from <= n
    ensures Counting.StrictlyIncreasing(r)
    ensures forall i :: i in r <==> from <= i < n && i < |l| && l[i].isCorrect != Some(true)
    ensures forall k :: 0 <= k < |r| ==> from <= r[k] < n
    decreases n - from
  {
    if from == n then []
    else
      var rest := WrongFrom(n, l, from + 1);
      if from < |l| && l[from].isCorrect != Some(true) then [from] + rest else rest
  }

  datatype PracticeQuiz = PracticeQuiz(title: string, questions: seq<Question>, userId: string)

  /** The practice quiz; `None` when every question was answered
      correctly (the "all correct" alert). The owner is the user's id, or
      "anonymous". */
  function MakePracticeQuiz(quiz: Quiz, l: Entries, uid: Option<string>): (r: Option<PracticeQuiz>)
    ensures r.None? <==> WrongPositions(|quiz.questions|, l) == []
    ensures r.Some? ==>
      var w := WrongPositions(|quiz.questions|, l);
      && r.value.title == "Practice Quiz: " + quiz.title
      && |r.value.questions| == |w|
      && (forall k :: 0 <= k < |w| ==> r.value.questions[k] == quiz.questions[w[k]])
      && r.value.userId == (if uid.Some? && uid.value != "" then uid.value else "anonymous")
  {
    var w := WrongPositions(|quiz.questions|, l);
    if w == [] then None
    else
      Some(PracticeQuiz("Practice Quiz: " + quiz.title,
                        seq(|w|, k requires 0 <= k < |w| => quiz.questions[w[k]]),
                        if uid.Some? && uid.value != "" then uid.value else "anonymous"))
  }

  /** Where the practice quiz opens: the new document for a signed-in
      user, else the session-stored practice page. */
  function PracticeRoute(uid: Option<string>, newDocId: string): (r: string)
    ensures uid.Some? ==> r == "/quiz/" + newDocId
    ensures uid.None? ==> r == "/practice-quiz"
  {
    if uid.Some? then "/quiz/" + newDocId else "/practice-quiz"
  }

  /** On a graded, complete ledger (ordered, one entry per question), the
      entry at position q is the one for question q, so selecting by
      position selects exactly the questions answered wrongly. */
  lemma PracticeSelectsWrongQuestions(n: nat, l: Entries)
    requires WellFormed(l, n) && SortedByIndex(l) && |l| == n
    ensures forall i :: 0 <= i < n ==> l[i].questionIndex == Some(i)
    ensures forall q :: q in WrongPositions(n, l) <==>
      0 <= q < n && exists i :: 0 <= i < |l| && l[i].questionIndex == Some(q) && l[i].isCorrect != Some(true)
  {
    var s := Indices(l);
    assert Counting.StrictlyIncreasing(s) by {
      forall i, j | 0 <= i < j < |s|
        ensures s[i] < s[j]
      {
        assert Key(l[i]) <= Key(l[j]);
        assert l[i].questionIndex != l[j].questionIndex;
      }
    }
    Counting.IncreasingFillsRange(s);
    forall q
      ensures q in WrongPositions(n, l) <==>
        0 <= q < n && exists i :: 0 <= i < |l| && l[i].questionIndex == Some(q) && l[i].isCorrect != Some(true)
    {
      if 0 <= q < n && exists i :: 0 <= i < |l| && l[i].questionIndex == Some(q) && l[i].isCorrect != Some(true) {
        var i :| 0 <= i < |l| && l[i].questionIndex == Some(q) && l[i].isCorrect != Some(true);
        assert s[i] == i;
      }
      if q in WrongPositions(n, l) {
        assert s[q] == q;
      }
    }
  }

  /** Five questions, two answered wrongly: the practice quiz holds
      exactly those two, in order. */
  lemma PracticeExample(qs: seq<Question>)
    requires |qs| == 5
    ensures var verdicts := [true, false, true, false, true];
            var l := seq(5, i requires 0 <= i < 5 => Entry(ChoiceAnswer(0), Some(i), Some(verdicts[i])));
            var p := MakePracticeQuiz(Quiz(Some("q1"), "Cells", qs, "t"), l, None);
            p.Some? && p.value.questions == [qs[1], qs[3]] && p.value.title == "Practice Quiz: Cells"
            && p.value.userId == "anonymous"
  {
    var verdicts := [true, false, true, false, true];
    var l := seq(5, i requires 0 <= i < 5 => Entry(ChoiceAnswer(0), Some(i), Some(verdicts[i])));
    assert WrongFrom(5, l, 4) == [];
    assert WrongFrom(5, l, 3) == [3];
    assert WrongFrom(5, l, 2) == [3];
    assert WrongFrom(5, l, 1) == [1, 3];
    assert WrongPositions(5, l) == [1, 3];
  }
}
