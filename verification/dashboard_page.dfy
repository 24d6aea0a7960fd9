/** The statistics and card logic of the dashboard
    (src/app/dashboard/page.tsx): the user's quizzes split into completed
    and pending, the completion rate, the average score, and what a quiz
    card shows. The quiz list read from the store is a parameter. */
module DashboardPage {
  import opened Wrappers
  import opened JsMath
  import opened Selection

  /** The results stored on a completed quiz; `score` is `None` when the
      field is missing or not a number. */
  datatype QuizResult = QuizResult(score: Option<int>, totalQuestions: int)

  datatype QuizData = QuizData(title: string, completed: bool, questionCount: int, results: Option<QuizResult>)

  predicate IsCompleted(q: QuizData) {
    q.completed
  }

  predicate IsPending(q: QuizData) {
    !q.completed
  }

  function CompletedQuizzes(qs: seq<QuizData>): seq<QuizData> {
    Filter(qs, IsCompleted)
  }

  function PendingQuizzes(qs: seq<QuizData>): seq<QuizData> {
    Filter(qs, IsPending)
  }

  /** Every quiz is either completed or pending, never both, and each list
      keeps the order of the quiz list. */
  lemma CompletedPendingPartition(qs: seq<QuizData>)
    ensures |CompletedQuizzes(qs)| + |PendingQuizzes(qs)| == |qs|
    ensures multiset(CompletedQuizzes(qs)) + multiset(PendingQuizzes(qs)) == multiset(qs)
    ensures forall k :: 0 <= k < |CompletedQuizzes(qs)| ==> CompletedQuizzes(qs)[k].completed
    ensures forall k :: 0 <= k < |PendingQuizzes(qs)| ==> !PendingQuizzes(qs)[k].completed
    ensures |CompletedQuizzes(qs)| == |Where(qs, IsCompleted)|
    ensures forall k :: 0 <= k < |CompletedQuizzes(qs)| ==> CompletedQuizzes(qs)[k] == qs[Where(qs, IsCompleted)[k]]
    ensures |PendingQuizzes(qs)| == |Where(qs, IsPending)|
    ensures forall k :: 0 <= k < |PendingQuizzes(qs)| ==> PendingQuizzes(qs)[k] == qs[Where(qs, IsPending)[k]]
  {
    FilterPartition(qs, IsCompleted, IsPending);
    FilterIsSelection(qs, IsCompleted);
    FilterIsSelection(qs, IsPending);
  }

  /** `completionRate`: 0 without quizzes, otherwise the completed share
      as a rounded percentage, always within [0, 100]. */
  function CompletionRate(qs: seq<QuizData>): (r: int)
    ensures 0 <= r <= 100
    ensures |qs| == 0 ==> r == 0
    ensures var c := |CompletedQuizzes(qs)|;
      |qs| > 0 ==> 2 * |qs| * r <= 2 * (100 * c) + |qs| < 2 * |qs| * (r + 1)
  {
    if |qs| == 0 then 0
    else
      var c := |CompletedQuizzes(qs)|;
      var t := |qs|;
      assert c <= t;
      RoundedPercentBounds(c, t);
      RoundDiv(100 * c, t)
  }

  /** All quizzes completed is a rate of 100, none completed a rate of 0. */
  lemma CompletionRateExtremes(qs: seq<QuizData>)
    requires |qs| > 0
    ensures |CompletedQuizzes(qs)| == |qs| ==> CompletionRate(qs) == 100
    ensures |CompletedQuizzes(qs)| == 0 ==> CompletionRate(qs) == 0
  {
    var c := |CompletedQuizzes(qs)|;
    var t := |qs|;
    if c == t {
      assert 2 * t * 100 <= 2 * (100 * c) + t < 2 * t * (100 + 1);
      RoundDivUnique(100 * c, t, 100);
    }
    if c == 0 {
      RoundDivUnique(100 * c, t, 0);
    }
  }

  /** `quiz.results?.score || 0`. */
  function ScoreOf(q: QuizData): int {
    if q.results.Some? && q.results.value.score.Some? then q.results.value.score.value else 0
  }

  function SumScores(qs: seq<QuizData>): int {
    if qs == [] then 0 else SumScores(qs[..|qs| - 1]) + ScoreOf(qs[|qs| - 1])
  }

  /** Scores between `lo` and `hi` sum to between `n*lo` and `n*hi`. */
  lemma {:induction false} SumScoresBounds(qs: seq<QuizData>, lo: int, hi: int)
    requires forall i :: 0 <= i < |qs| ==> lo <= ScoreOf(qs[i]) <= hi
    ensures |qs| * lo <= SumScores(qs) <= |qs| * hi
  {
    if qs != [] {
      SumScoresBounds(qs[..|qs| - 1], lo, hi);
    }
  }

  /** `averageScore`: 0 with nothing completed, otherwise the rounded mean
      score of the completed quizzes, a missing score counting as 0. */
  function AverageScore(qs: seq<QuizData>): (r: int)
    ensures |CompletedQuizzes(qs)| == 0 ==> r == 0
    ensures var c := CompletedQuizzes(qs);
      |c| > 0 ==> 2 * |c| * r <= 2 * SumScores(c) + |c| < 2 * |c| * (r + 1)
  {
    var c := CompletedQuizzes(qs);
    if |c| == 0 then 0 else RoundDiv(SumScores(c), |c|)
  }

  /** The average lies between the lowest and the highest completed score. */
  lemma AverageWithinScores(qs: seq<QuizData>, lo: int, hi: int)
    requires |CompletedQuizzes(qs)| > 0
    requires forall k :: 0 <= k < |CompletedQuizzes(qs)| ==> lo <= ScoreOf(CompletedQuizzes(qs)[k]) <= hi
    ensures lo <= AverageScore(qs) <= hi
  {
    var c := CompletedQuizzes(qs);
    SumScoresBounds(c, lo, hi);
    RoundDivBetween(SumScores(c), |c|, lo, hi);
  }

  datatype CardFooter = ScoreShown(score: Option<int>, total: int) | QuestionCountShown(count: int)

  /** A card shows `score/total` only for a completed quiz with results,
      and the question count otherwise. */
  function CardFooterFor(q: QuizData): (r: CardFooter)
    ensures r.ScoreShown? <==> q.completed && q.results.Some?
    ensures r.ScoreShown? ==> r.score == q.results.value.score && r.total == q.results.value.totalQuestions
    ensures r.QuestionCountShown? ==> r.count == q.questionCount
  {
    if q.completed && q.results.Some? then ScoreShown(q.results.value.score, q.results.value.totalQuestions)
    else QuestionCountShown(q.questionCount)
  }
}
