/** The logic of the results page (src/app/summary/page.tsx): its own
    duration format, the guard on the `score` and `total` query parameters,
    the verdict line, and the check on the results read back from session
    storage. The query parameters, the stored text and `JSON.parse` are
    parameters. */
module SummaryPage {
  import opened Wrappers
  import opened Text
  import opened JsMath
  import QuizContainer
  import Ledger
  import opened JsValues

  // ---------------------------------------------------------------------
  // Completion time

  /** The page's `formatTimeSpent(seconds)` on a whole number of seconds;
      `None` is undefined, null or NaN. Falsy input (including 0) is "N/A";
      otherwise whole minutes by `Math.floor` and the rest by `%`, which for
      a negative input is negative too. */
  function FormatCompletionTime(seconds: Option<int>): (r: string)
    ensures seconds.None? || seconds.value == 0 ==> r == "N/A"
    ensures seconds.Some? && 0 < seconds.value < 60 ==> r == NatToString(seconds.value) + " seconds"
    ensures seconds.Some? && 60 <= seconds.value < 120 ==>
      r == "1 minute " + NatToString(seconds.value - 60) + " seconds"
    ensures seconds.Some? && seconds.value >= 120 ==>
      var m := FloorDiv(seconds.value, 60);
      m >= 2 && 0 <= seconds.value - 60 * m < 60
      && r == NatToString(m) + " minutes " + NatToString(seconds.value - 60 * m) + " seconds"
  {
    if seconds.None? || seconds.value == 0 then "N/A"
    else
      var s := seconds.value;
      var mins := FloorDiv(s, 60);
      var secs := JsRem(s, 60);
      if mins == 0 then IntToString(secs) + " seconds"
      else if mins == 1 then "1 minute " + IntToString(secs) + " seconds"
      else IntToString(mins) + " minutes " + IntToString(secs) + " seconds"
  }

  /** For a positive duration the minutes and seconds shown add back up
      to the duration. */
  lemma CompletionTimeParts(s: int)
    requires s > 0
    ensures var m := FloorDiv(s, 60);
      60 * m + JsRem(s, 60) == s && 0 <= JsRem(s, 60) < 60 && m >= 0
  {
    var m := FloorDiv(s, 60);
    FloorDivUnique(s, 60, TruncDiv(s, 60));
  }

  /** Two minutes five seconds; zero seconds is falsy. */
  lemma CompletionTimeExamples()
    ensures FormatCompletionTime(Some(125)) == "2 minutes 5 seconds"
    ensures FormatCompletionTime(Some(0)) == "N/A"
  {
    assert FloorDiv(125, 60) == 2;
    assert JsRem(125, 60) == 5;
    assert IntToString(2) == "2";
    assert IntToString(5) == "5";
  }

  /** Exactly one minute keeps its zero seconds. */
  lemma OneMinuteCompletionTime()
    ensures FormatCompletionTime(Some(60)) == "1 minute 0 seconds"
  {
    assert FloorDiv(60, 60) == 1;
    assert JsRem(60, 60) == 0;
    assert IntToString(0) == "0";
  }

  /** A negative time is split by the floor and the remainder into two
      negative parts. */
  lemma NegativeCompletionTime()
    ensures FormatCompletionTime(Some(-30)) == "-1 minutes -30 seconds"
  {
    assert FloorDiv(-30, 60) == -1;
    assert JsRem(-30, 60) == -30;
    assert NatToString(1) == "1";
    assert NatToString(30) == NatToString(3) + "0";
  }

  // ---------------------------------------------------------------------
  // Query parameters and verdict

  /** `Number(s)` on the digit strings the quiz writes into the address;
      anything else is NaN (`None`). */
  function ToNumber(s: string): (r: Option<nat>)
    ensures r.Some? <==> s != [] && forall i :: 0 <= i < |s| ==> IsDigit(s[i])
  {
    if s != [] && forall i :: 0 <= i < |s| ==> IsDigit(s[i]) then Some(DigitsValue(s)) else None
  }

  /** A number written into the address reads back as itself. */
  lemma ToNumberRoundTrip(n: nat)
    ensures ToNumber(NatToString(n)) == Some(n)
  {
    NatToStringRoundTrip(n);
  }

  datatype View = InvalidSummary | ScoreView(score: string, total: string)

  /** `searchParams.get` gives `null` (`None`) for a missing parameter; a
      missing or empty `score` or `total` selects the invalid-summary view. */
  function SelectView(score: Option<string>, total: Option<string>): (r: View)
    ensures r.InvalidSummary? <==> score.None? || score.value == [] || total.None? || total.value == []
    ensures r.ScoreView? ==> r.score == score.value && r.total == total.value
  {
    if score.None? || score.value == [] || total.None? || total.value == [] then InvalidSummary
    else ScoreView(score.value, total.value)
  }

  datatype Verdict = Perfect | GreatJob | KeepStudying

  /** The verdict line: perfect when the numbers are equal, great from
      70% up, keep studying otherwise or when either is NaN. */
  function VerdictFor(score: Option<nat>, total: Option<nat>): (r: Verdict)
    ensures r == Perfect <==> score.Some? && total.Some? && score.value == total.value
    ensures r == GreatJob <==>
      score.Some? && total.Some? && score.value != total.value && 10 * score.value >= 7 * total.value
    ensures r == KeepStudying <==>
      score.None? || total.None? || (score.value != total.value && 10 * score.value < 7 * total.value)
  {
    if score.None? || total.None? then KeepStudying
    else if score.value == total.value then Perfect
    else if 10 * score.value >= 7 * total.value then GreatJob
    else KeepStudying
  }

  /** Raising a score that was already great, short of a perfect one,
      keeps it great. */
  lemma GreatIsMonotone(s: nat, s2: nat, t: nat)
    requires VerdictFor(Some(s), Some(t)) == GreatJob
    requires s <= s2 && s2 != t
    ensures VerdictFor(Some(s2), Some(t)) == GreatJob
  {
  }

  /** The address the quiz redirects to after grading always shows the
      score view, with the verdict of the numbers it was given. */
  lemma FinishedRouteShowsVerdict(score: nat, total: nat)
    ensures SelectView(Some(NatToString(score)), Some(NatToString(total))) == ScoreView(NatToString(score), NatToString(total))
    ensures VerdictFor(ToNumber(NatToString(score)), ToNumber(NatToString(total))) == VerdictFor(Some(score), Some(total))
  {
    ToNumberRoundTrip(score);
    ToNumberRoundTrip(total);
  }

  // ---------------------------------------------------------------------
  // Stored results

  datatype ResultsLoad = NoResults | Loaded(results: Value) | LoadFailed(message: string)

  /** `loadResults`: nothing when storage holds no (or an empty) entry; an
      error when the text does not parse or is not a non-null object
      (arrays are objects here); the parsed value otherwise. */
  function LoadResults(stored: Option<string>, parse: string -> Option<Value>): (r: ResultsLoad)
    ensures r.NoResults? <==> stored.None? || stored.value == []
    ensures r.Loaded? <==> (stored.Some? && stored.value != [] && parse(stored.value).Some?
                            && Truthy(parse(stored.value).value) && IsObjectType(parse(stored.value).value))
    ensures r.Loaded? ==> (r.results.Obj? || r.results.Arr?) && r.results == parse(stored.value).value
    ensures r.LoadFailed? ==> r.message in {"Invalid quiz results format", "Error loading quiz results"}
    ensures stored.Some? && stored.value != [] && parse(stored.value).None? ==>
      r == LoadFailed("Error loading quiz results")
    ensures stored.Some? && stored.value != [] && parse(stored.value).Some?
            && !(Truthy(parse(stored.value).value) && IsObjectType(parse(stored.value).value)) ==>
      r == LoadFailed("Invalid quiz results format")
  {
    if stored.None? || stored.value == [] then NoResults
    else
      match parse(stored.value)
      case None => LoadFailed("Error loading quiz results")
      case Some(v) =>
        if !Truthy(v) || !IsObjectType(v) then LoadFailed("Invalid quiz results format") else Loaded(v)
  }

  /** The value `JSON.parse` gives back for the `quizResults` record the
      quiz page writes: an object holding the record's title, score,
      question count and time; the question list and the answer rows are
      carried as the given values, since their encoding is not read here. */
  function SummaryJson(rec: QuizContainer.SummaryRecord, questions: Value, answers: Value): Value {
    Obj(map["title" := Str(rec.title), "score" := Num(rec.score), "totalQuestions" := Num(rec.totalQuestions),
            "questions" := questions, "answers" := answers, "timeSpent" := Num(rec.timeSpent)])
  }

  /** A stored record that parses back loads, with its fields intact. */
  lemma SummaryJsonLoads(rec: QuizContainer.SummaryRecord, questions: Value, answers: Value,
                         text: string, parse: string -> Option<Value>)
    requires text != [] && parse(text) == Some(SummaryJson(rec, questions, answers))
    ensures var r := LoadResults(Some(text), parse);
      && r.Loaded?
      && Get(r.results, "title") == Some(Str(rec.title))
      && Get(r.results, "score") == Some(Num(rec.score))
      && Get(r.results, "totalQuestions") == Some(Num(rec.totalQuestions))
      && Get(r.results, "timeSpent") == Some(Num(rec.timeSpent))
      && Get(r.results, "questions") == Some(questions)
      && Get(r.results, "answers") == Some(answers)
  {
  }

  /** The record a finished attempt stores loads on the results page, and
      its fields read back as the attempt's title, score, question count
      and time, whenever the stored text parses back to that record. */
  lemma FinishedRecordLoads(quiz: QuizContainer.Quiz, uid: Option<string>, store: QuizContainer.Store, cursor: int,
                            l: Ledger.Entries, startMs: int, nowMs: int,
                            questions: Value, answers: Value, text: string, parse: string -> Option<Value>)
    requires QuizContainer.Finish(quiz, uid, store, cursor, l, startMs, nowMs).Some?
    requires text != []
    requires parse(text)
             == Some(SummaryJson(QuizContainer.Finish(quiz, uid, store, cursor, l, startMs, nowMs).value.summary,
                                 questions, answers))
    ensures var f := QuizContainer.Finish(quiz, uid, store, cursor, l, startMs, nowMs).value;
      var r := LoadResults(Some(text), parse);
      && r.Loaded?
      && Get(r.results, "title") == Some(Str(quiz.title))
      && Get(r.results, "score") == Some(Num(f.results.score))
      && Get(r.results, "totalQuestions") == Some(Num(|quiz.questions|))
      && Get(r.results, "timeSpent") == Some(Num(f.results.timeSpent))
  {
    var f := QuizContainer.Finish(quiz, uid, store, cursor, l, startMs, nowMs).value;
    SummaryJsonLoads(f.summary, questions, answers, text, parse);
  }
}
