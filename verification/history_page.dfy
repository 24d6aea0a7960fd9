/** The activity history page (src/app/history/page.tsx): the filter by
    activity type, the grouping by calendar day, and what a history card
    shows and links to. The history list read from the store and the
    conversion of a time stamp to its day (`toDateString`) are parameters. */
module HistoryPage {
  import opened Wrappers
  import opened Text
  import opened Selection
  import SummaryPage

  datatype ActivityType = QuizCompleted | QuizStarted | QuizCreated | Upload | Login

  function TypeName(t: ActivityType): string {
    match t
    case QuizCompleted => "quiz_completed"
    case QuizStarted => "quiz_started"
    case QuizCreated => "quiz_created"
    case Upload => "upload"
    case Login => "login"
  }

  /** The optional details of an activity; an absent one is `None`. */
  datatype Details = Details(
    title: Option<string>, score: Option<nat>, totalQuestions: Option<nat>,
    fileName: Option<string>, fileType: Option<string>, quizId: Option<string>)

  datatype HistoryItem = HistoryItem(id: string, kind: ActivityType, timestamp: string, details: Details)

  // ---------------------------------------------------------------------
  // Filter

  function OfType(t: ActivityType): HistoryItem -> bool {
    (item: HistoryItem) => item.kind == t
  }

  /** `filteredItems`: every item without a filter, otherwise the items of
      the chosen type. */
  function FilterItems(items: seq<HistoryItem>, filter: Option<ActivityType>): (r: seq<HistoryItem>)
    ensures filter.None? ==> r == items
    ensures filter.Some? ==> forall k :: 0 <= k < |r| ==> r[k].kind == filter.value
  {
    if filter.None? then items else Filter(items, OfType(filter.value))
  }

  /** With a filter the page lists exactly the items of that type, in the
      order of the history: the k-th listed item is the history's item at
      the k-th matching position, and every matching position is used. */
  lemma FilterByTypeSelects(items: seq<HistoryItem>, t: ActivityType)
    ensures var r := FilterItems(items, Some(t));
      var pos := Where(items, OfType(t));
      && |r| == |pos|
      && (forall k :: 0 <= k < |r| ==> r[k] == items[pos[k]])
      && (forall i :: 0 <= i < |items| && items[i].kind == t ==> i in pos)
  {
    FilterIsSelection(items, OfType(t));
  }

  /** The filters for different types pick out disjoint parts: together
      with everything else they account for the whole history. */
  lemma FilterSplitsHistory(items: seq<HistoryItem>, t: ActivityType)
    ensures |FilterItems(items, Some(t))| + |Filter(items, (item: HistoryItem) => item.kind != t)| == |items|
  {
    FilterPartition(items, OfType(t), (item: HistoryItem) => item.kind != t);
  }

  // ---------------------------------------------------------------------
  // Grouping by day

  function OnDay(dayKey: HistoryItem -> string, day: string): HistoryItem -> bool {
    (item: HistoryItem) => dayKey(item) == day
  }

  /** The `reduce` that groups the listed items by the day of their time
      stamp, appending each item to its day's group. */
  function GroupByDate(items: seq<HistoryItem>, dayKey: HistoryItem -> string): (r: map<string, seq<HistoryItem>>)
    ensures forall day :: day in r ==> r[day] != []
  {
    if items == [] then map[]
    else
      var acc := GroupByDate(items[..|items| - 1], dayKey);
      var item := items[|items| - 1];
      var day := dayKey(item);
      acc[day := (if day in acc then acc[day] else []) + [item]]
  }

  /** A day has a group exactly when some item falls on it, and its group
      is the history filtered to that day: every item of the day, in
      history order, and nothing else. */
  lemma {:induction false} GroupByDateIsFilter(items: seq<HistoryItem>, dayKey: HistoryItem -> string, day: string)
    ensures day in GroupByDate(items, dayKey) <==> exists i :: 0 <= i < |items| && dayKey(items[i]) == day
    ensures day in GroupByDate(items, dayKey) ==> GroupByDate(items, dayKey)[day] == Filter(items, OnDay(dayKey, day))
  {
    if items != [] {
      var init := items[..|items| - 1];
      var item := items[|items| - 1];
      var acc := GroupByDate(init, dayKey);
      GroupByDateIsFilter(init, dayKey, day);
      assert forall i :: 0 <= i < |init| ==> init[i] == items[i];
      if (exists i :: 0 <= i < |init| && dayKey(init[i]) == day) {
        var i :| 0 <= i < |init| && dayKey(init[i]) == day;
        assert dayKey(items[i]) == day;
      }
      if dayKey(item) == day {
        assert dayKey(items[|items| - 1]) == day;
        if day !in acc {
          assert forall i :: 0 <= i < |init| ==> !OnDay(dayKey, day)(init[i]);
          FilterKeepsNone(init, OnDay(dayKey, day));
        }
      } else {
        if (exists i :: 0 <= i < |items| && dayKey(items[i]) == day) {
          var i :| 0 <= i < |items| && dayKey(items[i]) == day;
          assert i < |init| && dayKey(init[i]) == day;
        }
      }
    }
  }

  /** Every listed item is in the group of its own day, and only there. */
  lemma GroupsHoldEachItemOnce(items: seq<HistoryItem>, dayKey: HistoryItem -> string, i: nat)
    requires i < |items|
    ensures var groups := GroupByDate(items, dayKey);
      && dayKey(items[i]) in groups
      && items[i] in groups[dayKey(items[i])]
      && forall day :: day in groups && day != dayKey(items[i]) ==> items[i] !in groups[day]
  {
    var groups := GroupByDate(items, dayKey);
    var day := dayKey(items[i]);
    var p := OnDay(dayKey, day);
    GroupByDateIsFilter(items, dayKey, day);
    forall other | other in groups && other != day
      ensures items[i] !in groups[other]
    {
      GroupByDateIsFilter(items, dayKey, other);
    }
    FilterIsSelection(items, p);
    var pos := Where(items, p);
    assert i in pos;
    var k :| 0 <= k < |pos| && pos[k] == i;
    assert groups[day][k] == items[i];
  }

  /** Within a day the items keep the order of the history list. */
  lemma GroupKeepsOrder(items: seq<HistoryItem>, dayKey: HistoryItem -> string, day: string)
    requires day in GroupByDate(items, dayKey)
    ensures var g := GroupByDate(items, dayKey)[day];
      var pos := Where(items, OnDay(dayKey, day));
      |g| == |pos| && forall k :: 0 <= k < |g| ==> g[k] == items[pos[k]]
  {
    GroupByDateIsFilter(items, dayKey, day);
    FilterIsSelection(items, OnDay(dayKey, day));
  }

  /** The days of the listed items in order of first appearance: the
      order in which the `reduce` creates the day groups, which is the
      order `Object.entries` lists them in (a `toDateString` key is never
      an array index, so insertion order applies). */
  function DayOrder(items: seq<HistoryItem>, dayKey: HistoryItem -> string): (d: seq<string>)
    ensures forall a, b :: 0 <= a < b < |d| ==> d[a] != d[b]
    ensures forall day :: day in d <==> exists i :: 0 <= i < |items| && dayKey(items[i]) == day
  {
    if items == [] then []
    else
      var init := items[..|items| - 1];
      var d0 := DayOrder(init, dayKey);
      var day := dayKey(items[|items| - 1]);
      assert forall i :: 0 <= i < |init| ==> init[i] == items[i];
      if day in d0 then d0 else d0 + [day]
  }

  /** Some item before position `j` falls on `day`. */
  predicate SeenBefore(items: seq<HistoryItem>, dayKey: HistoryItem -> string, day: string, j: int) {
    exists i :: 0 <= i < j && i < |items| && dayKey(items[i]) == day
  }

  /** A day listed later first appears later: every item of a later group
      comes after some item of each earlier group. */
  predicate FirstAppearanceOrder(items: seq<HistoryItem>, dayKey: HistoryItem -> string, d: seq<string>) {
    forall a, b, j :: 0 <= a < b < |d| && 0 <= j < |items| && dayKey(items[j]) == d[b] ==>
      SeenBefore(items, dayKey, d[a], j)
  }

  lemma {:induction false} DayOrderIsFirstAppearance(items: seq<HistoryItem>, dayKey: HistoryItem -> string)
    ensures FirstAppearanceOrder(items, dayKey, DayOrder(items, dayKey))
  {
    if items != [] {
      var init := items[..|items| - 1];
      var last := |items| - 1;
      DayOrderIsFirstAppearance(init, dayKey);
      var d0 := DayOrder(init, dayKey);
      var d := DayOrder(items, dayKey);
      var day := dayKey(items[last]);
      assert forall i :: 0 <= i < |init| ==> init[i] == items[i];
      forall a, b, j | 0 <= a < b < |d| && 0 <= j < |items| && dayKey(items[j]) == d[b]
        ensures SeenBefore(items, dayKey, d[a], j)
      {
        assert d[a] in d0;
        if b < |d0| {
          assert d[a] == d0[a] && d[b] == d0[b];
          var j' := j;
          if j == last {
            assert d0[b] in d0;
            j' :| 0 <= j' < |init| && dayKey(init[j']) == d0[b];
          }
          assert dayKey(init[j']) == d0[b];
          assert SeenBefore(init, dayKey, d0[a], j');
          var i :| 0 <= i < j' && i < |init| && dayKey(init[i]) == d0[a];
          assert dayKey(items[i]) == d[a];
        } else {
          assert d == d0 + [day] && d[b] == day && day !in d0;
          assert j == last;
          var i :| 0 <= i < |init| && dayKey(init[i]) == d0[a];
          assert dayKey(items[i]) == d[a];
        }
      }
    }
  }

  /** `Object.entries(groupedByDate)`: the day groups as the page renders
      them, one per day in order of first appearance. */
  function GroupedEntries(items: seq<HistoryItem>, dayKey: HistoryItem -> string): seq<(string, seq<HistoryItem>)> {
    var g := GroupByDate(items, dayKey);
    var d := DayOrder(items, dayKey);
    seq(|d|, k requires 0 <= k < |d| => (d[k], if d[k] in g then g[d[k]] else []))
  }

  /** The rendered groups: every day once, in order of first appearance
      (so newest day first for the newest-first history), each holding
      exactly that day's items in history order. */
  lemma GroupedEntriesInOrder(items: seq<HistoryItem>, dayKey: HistoryItem -> string)
    ensures var r := GroupedEntries(items, dayKey);
      && (forall a, b :: 0 <= a < b < |r| ==> r[a].0 != r[b].0)
      && (forall i :: 0 <= i < |items| ==> exists k :: 0 <= k < |r| && r[k].0 == dayKey(items[i]))
      && (forall k :: 0 <= k < |r| ==> r[k].1 == Filter(items, OnDay(dayKey, r[k].0)) && r[k].1 != [])
      && (forall a, b, j :: 0 <= a < b < |r| && 0 <= j < |items| && dayKey(items[j]) == r[b].0 ==>
            SeenBefore(items, dayKey, r[a].0, j))
  {
    var r := GroupedEntries(items, dayKey);
    var d := DayOrder(items, dayKey);
    DayOrderIsFirstAppearance(items, dayKey);
    forall k | 0 <= k < |r|
      ensures r[k].1 == Filter(items, OnDay(dayKey, r[k].0)) && r[k].1 != []
    {
      assert d[k] in d;
      GroupByDateIsFilter(items, dayKey, d[k]);
      var i :| 0 <= i < |items| && dayKey(items[i]) == d[k];
      GroupsHoldEachItemOnce(items, dayKey, i);
    }
    forall i | 0 <= i < |items|
      ensures exists k :: 0 <= k < |r| && r[k].0 == dayKey(items[i])
    {
      assert dayKey(items[i]) in d;
      var k :| 0 <= k < |d| && d[k] == dayKey(items[i]);
      assert r[k].0 == dayKey(items[i]);
    }
  }

  // ---------------------------------------------------------------------
  // History card

  /** `value || fallback` on an optional string. */
  function OrText(s: Option<string>, fallback: string): (r: string)
    ensures s.Some? && s.value != [] ==> r == s.value
    ensures s.None? || s.value == [] ==> r == fallback
  {
    if s.Some? && s.value != [] then s.value else fallback
  }

  /** The card heading of each activity type. */
  function CardTitle(item: HistoryItem): (r: string)
    ensures item.kind == QuizCompleted ==> r == "Completed: " + OrText(item.details.title, "Quiz")
    ensures item.kind == QuizStarted ==> r == "Started: " + OrText(item.details.title, "Quiz")
    ensures item.kind == QuizCreated ==> r == "Created: " + OrText(item.details.title, "Quiz")
    ensures item.kind == Upload ==> r == "Uploaded: " + OrText(item.details.fileName, "File")
    ensures item.kind == Login ==> r == "Logged in"
  {
    match item.kind
    case QuizCompleted => "Completed: " + OrText(item.details.title, "Quiz")
    case QuizStarted => "Started: " + OrText(item.details.title, "Quiz")
    case QuizCreated => "Created: " + OrText(item.details.title, "Quiz")
    case Upload => "Uploaded: " + OrText(item.details.fileName, "File")
    case Login => "Logged in"
  }

  /** Where a card's "View" link points: the results page, with the
      query parameters it carries, or a quiz. */
  datatype Link =
    | SummaryLink(score: Option<string>, total: Option<string>, quizId: string)
    | QuizLink(quizId: string)

  function Href(link: Link): string {
    match link
    case QuizLink(id) => "/quiz/" + id
    case SummaryLink(score, total, id) =>
      "/summary?"
      + (if score.Some? then "score=" + score.value + "&" else "")
      + (if total.Some? then "total=" + total.value + "&" else "")
      + "quizId=" + id
  }

  /** The quiz id of an item, when it is not empty. */
  function LinkedQuiz(item: HistoryItem): (r: Option<string>)
    ensures r.Some? <==> item.details.quizId.Some? && item.details.quizId.value != []
    ensures r.Some? ==> r == item.details.quizId
  {
    if item.details.quizId.Some? && item.details.quizId.value != [] then item.details.quizId else None
  }

  /** The card's link as written: a completed quiz goes to the results page
      with only its id; a started or created quiz to the quiz itself;
      uploads and logins have no link, and neither has an item without a
      quiz id. */
  function CardLinkAsWritten(item: HistoryItem): (r: Option<Link>)
    ensures r.Some? <==> item.kind in {QuizCompleted, QuizStarted, QuizCreated} && LinkedQuiz(item).Some?
    ensures r.Some? && item.kind == QuizCompleted ==> r.value == SummaryLink(None, None, LinkedQuiz(item).value)
    ensures r.Some? && item.kind != QuizCompleted ==> r.value == QuizLink(LinkedQuiz(item).value)
  {
    match LinkedQuiz(item)
    case None => None
    case Some(id) =>
      match item.kind
      case QuizCompleted => Some(SummaryLink(None, None, id))
      case QuizStarted => Some(QuizLink(id))
      case QuizCreated => Some(QuizLink(id))
      case Upload => None
      case Login => None
  }

  /** The results page opened from a completed quiz's card, as written,
      finds no `score` or `total` in its address and shows the
      invalid-summary view, whatever the item records. */
  lemma CompletedLinkShowsInvalidSummary(item: HistoryItem)
    requires item.kind == QuizCompleted && LinkedQuiz(item).Some?
    ensures var link := CardLinkAsWritten(item).value;
      && Href(link) == "/summary?quizId=" + LinkedQuiz(item).value
      && SummaryPage.SelectView(link.score, link.total) == SummaryPage.InvalidSummary
  {
  }

  /** The card's link as evidently intended: a completed quiz's results
      link carries the recorded score and total, as the link the quiz
      itself redirects to does. */
  function CardLink(item: HistoryItem): (r: Option<Link>)
    ensures r.Some? <==> item.kind in {QuizCompleted, QuizStarted, QuizCreated} && LinkedQuiz(item).Some?
    ensures r.Some? && item.kind == QuizCompleted ==>
      r.value == SummaryLink(
        if item.details.score.Some? then Some(NatToString(item.details.score.value)) else None,
        if item.details.totalQuestions.Some? then Some(NatToString(item.details.totalQuestions.value)) else None,
        LinkedQuiz(item).value)
    ensures r.Some? && item.kind != QuizCompleted ==> r == CardLinkAsWritten(item)
  {
    match CardLinkAsWritten(item)
    case Some(SummaryLink(_, _, id)) =>
      var d := item.details;
      Some(SummaryLink(
        if d.score.Some? then Some(NatToString(d.score.value)) else None,
        if d.totalQuestions.Some? then Some(NatToString(d.totalQuestions.value)) else None,
        id))
    case other => other
  }

  /** With the corrected link, a completed quiz that recorded its score
      opens the results page on the score view with the verdict of that
      score, through the same address the quiz redirects to. */
  lemma CompletedLinkShowsScore(item: HistoryItem)
    requires item.kind == QuizCompleted && LinkedQuiz(item).Some?
    requires item.details.score.Some? && item.details.totalQuestions.Some?
    ensures var link := CardLink(item).value;
      var s := item.details.score.value;
      var t := item.details.totalQuestions.value;
      && Href(link) == "/summary?score=" + NatToString(s) + "&total=" + NatToString(t) + "&quizId=" + LinkedQuiz(item).value
      && SummaryPage.SelectView(link.score, link.total) == SummaryPage.ScoreView(NatToString(s), NatToString(t))
      && SummaryPage.VerdictFor(SummaryPage.ToNumber(link.score.value), SummaryPage.ToNumber(link.total.value))
         == SummaryPage.VerdictFor(Some(s), Some(t))
  {
    var s := item.details.score.value;
    var t := item.details.totalQuestions.value;
    SummaryPage.FinishedRouteShowsVerdict(s, t);
    assert "/summary?" + ("score=" + NatToString(s) + "&") + ("total=" + NatToString(t) + "&") + "quizId=" + LinkedQuiz(item).value
      == "/summary?score=" + NatToString(s) + "&total=" + NatToString(t) + "&quizId=" + LinkedQuiz(item).value;
  }
}
