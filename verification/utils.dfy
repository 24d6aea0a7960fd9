/** The shared formatters of src/lib/utils.ts: how long ago something
    happened, and a duration in seconds in compact form. Dates are
    millisecond timestamps; an invalid date is `None`, and the current
    time is a parameter. */
module Utils {
  import opened Wrappers
  import opened Text
  import opened JsMath

  datatype Unit = JustNow | Minute | Hour | Day | Month | Year

  /** How many seconds one of a unit stands for (a month is 30 days, a
      year 12 such months). */
  function UnitSeconds(u: Unit): (r: int)
    ensures r > 0
  {
    match u
    case JustNow => 1
    case Minute => 60
    case Hour => 60 * 60
    case Day => 60 * 60 * 24
    case Month => 60 * 60 * 24 * 30
    case Year => 60 * 60 * 24 * 30 * 12
  }

  function UnitWord(u: Unit): string {
    match u
    case JustNow => "just now"
    case Minute => "min"
    case Hour => "hour"
    case Day => "day"
    case Month => "month"
    case Year => "year"
  }

  datatype Distance = Distance(unit: Unit, count: int)

  /** The bucketing of `formatDistanceToNow`: each count is the floor of
      the previous one over its factor, and the first bucket under its
      limit wins. */
  function Bucket(seconds: int): Distance {
    if seconds < 60 then Distance(JustNow, seconds)
    else
      var minutes := FloorDiv(seconds, 60);
      if minutes < 60 then Distance(Minute, minutes)
      else
        var hours := FloorDiv(minutes, 60);
        if hours < 24 then Distance(Hour, hours)
        else
          var days := FloorDiv(hours, 24);
          if days < 30 then Distance(Day, days)
          else
            var months := FloorDiv(days, 30);
            if months < 12 then Distance(Month, months)
            else Distance(Year, FloorDiv(months, 12))
  }

  /** The chosen bucket is the largest unit that fits, and its count is
      the number of whole units in the difference. */
  lemma BucketIsLargestFittingUnit(seconds: int)
    ensures var d := Bucket(seconds);
      && (d.unit == JustNow <==> seconds < 60)
      && (d.unit == Minute <==> 60 <= seconds < 60 * 60)
      && (d.unit == Hour <==> 60 * 60 <= seconds < 60 * 60 * 24)
      && (d.unit == Day <==> 60 * 60 * 24 <= seconds < 60 * 60 * 24 * 30)
      && (d.unit == Month <==> 60 * 60 * 24 * 30 <= seconds < 60 * 60 * 24 * 30 * 12)
      && (d.unit == Year <==> 60 * 60 * 24 * 30 * 12 <= seconds)
      && (d.unit != JustNow ==> d.count == FloorDiv(seconds, UnitSeconds(d.unit)) && d.count >= 1)
  {
    FloorDivNested(seconds, 60, 60);
    FloorDivNested(seconds, 60 * 60, 24);
    FloorDivNested(seconds, 60 * 60 * 24, 30);
    FloorDivNested(seconds, 60 * 60 * 24 * 30, 12);
    FloorDivNested(FloorDiv(seconds, 60), 60, 24);
    FloorDivNested(FloorDiv(seconds, 60 * 60), 24, 30);
    FloorDivNested(FloorDiv(seconds, 60 * 60 * 24), 30, 12);
  }

  /** `count unit(s) ago`, with the plural `s` only for counts above one. */
  function Ago(count: int, word: string): string {
    IntToString(count) + " " + word + (if count > 1 then "s" else "") + " ago"
  }

  /** `formatDistanceToNow(date)` at time `nowMs`. */
  function FormatDistanceToNow(dateMs: Option<int>, nowMs: int): (r: string)
    ensures dateMs.None? ==> r == "unknown time ago"
    ensures dateMs.Some? && nowMs - dateMs.value < 60 * 1000 ==> r == "just now"
    ensures dateMs.Some? && nowMs - dateMs.value >= 60 * 1000 ==>
      var d := Bucket(FloorDiv(nowMs - dateMs.value, 1000));
      d.unit != JustNow && d.count >= 1 && r == Ago(d.count, UnitWord(d.unit))
  {
    match dateMs
    case None => "unknown time ago"
    case Some(date) =>
      var seconds := FloorDiv(nowMs - date, 1000);
      BucketIsLargestFittingUnit(seconds);
      var d := Bucket(seconds);
      if d.unit == JustNow then "just now" else Ago(d.count, UnitWord(d.unit))
  }

  /** A count of one is singular, every larger count plural. */
  lemma AgoPlural(count: int, word: string)
    requires count >= 1
    ensures count == 1 ==> Ago(count, word) == "1 " + word + " ago"
    ensures count > 1 ==> Ago(count, word) == IntToString(count) + " " + word + "s ago"
  {
  }

  /** Ninety seconds ago reads "1 min ago"; two hours ago "2 hours ago". */
  lemma DistanceExamples(now: int)
    ensures FormatDistanceToNow(Some(now - 90 * 1000), now) == "1 min ago"
    ensures FormatDistanceToNow(Some(now - 2 * 3600 * 1000), now) == "2 hours ago"
    ensures FormatDistanceToNow(Some(now + 5000), now) == "just now"
  {
    assert FloorDiv(90 * 1000, 1000) == 90;
    assert Bucket(90) == Distance(Minute, 1);
    assert FloorDiv(2 * 3600 * 1000, 1000) == 7200;
    assert Bucket(7200) == Distance(Hour, 2);
  }

  // ---------------------------------------------------------------------
  // Durations

  /** The parts `formatTimeSpent` shows. */
  datatype Shown = Secs(secs: int) | MinSec(mins: int, secs: int) | HourMin(hours: int, mins: int)

  /** The split of a non-negative whole number of seconds into displayed
      parts: seconds alone under a minute, minutes and seconds under an
      hour, hours and minutes (seconds dropped) from an hour up. */
  function Parts(seconds: int): (r: Shown)
    requires seconds >= 0
    ensures seconds < 60 ==> r == Secs(seconds)
    ensures 60 <= seconds < 3600 ==>
      r.MinSec? && 60 * r.mins + r.secs == seconds && 0 <= r.secs < 60 && 1 <= r.mins < 60
    ensures seconds >= 3600 ==>
      r.HourMin? && 3600 * r.hours + 60 * r.mins <= seconds < 3600 * r.hours + 60 * r.mins + 60
      && 0 <= r.mins < 60 && r.hours >= 1
  {
    if seconds < 60 then Secs(seconds)
    else
      var minutes := seconds / 60;
      var rest := seconds % 60;
      if minutes < 60 then MinSec(minutes, rest)
      else HourMin(minutes / 60, minutes % 60)
  }

  /** From an hour up, the hours and the leftover minutes are the quotient
      by 3600 and the whole minutes of its remainder. */
  lemma HourPartsByDivision(v: int)
    requires v >= 0
    ensures v >= 3600 ==> Parts(v) == HourMin(v / 3600, v % 3600 / 60)
  {
    if v < 3600 { return; }
    var h, rem := v / 3600, v % 3600;
    var mm, ss := rem / 60, rem % 60;
    assert v == 60 * (60 * h + mm) + ss;
    assert v / 60 == 60 * h + mm;
    assert (60 * h + mm) / 60 == h;
    assert (60 * h + mm) % 60 == mm;
  }

  /** `formatTimeSpent(seconds)` on a whole number of seconds; `None` is
      undefined, null or NaN. A zero part is left out. */
  function FormatTimeSpent(seconds: Option<int>): (r: string)
    ensures seconds.None? || seconds.value < 0 ==> r == "0 sec"
    ensures seconds.Some? && 0 <= seconds.value < 60 ==> r == IntToString(seconds.value) + " sec"
    ensures seconds.Some? && 60 <= seconds.value < 3600 ==>
      var v := seconds.value;
      r == IntToString(v / 60) + "m" + (if v % 60 > 0 then " " + IntToString(v % 60) + "s" else "")
    ensures seconds.Some? && seconds.value >= 3600 ==>
      var v := seconds.value;
      r == IntToString(v / 3600) + "h" + (if v % 3600 / 60 > 0 then " " + IntToString(v % 3600 / 60) + "m" else "")
  {
    if seconds.None? || seconds.value < 0 then "0 sec"
    else
      HourPartsByDivision(seconds.value);
      match Parts(seconds.value)
      case Secs(s) => IntToString(s) + " sec"
      case MinSec(m, s) => if s > 0 then IntToString(m) + "m " + IntToString(s) + "s" else IntToString(m) + "m"
      case HourMin(h, m) => if m > 0 then IntToString(h) + "h " + IntToString(m) + "m" else IntToString(h) + "h"
  }

  /** Whole minutes and whole hours are shown without a zero part. */
  lemma TimeSpentExamples()
    ensures FormatTimeSpent(Some(125)) == "2m 5s"
    ensures FormatTimeSpent(Some(120)) == "2m"
    ensures FormatTimeSpent(Some(3600 + 59)) == "1h"
    ensures FormatTimeSpent(Some(7260)) == "2h 1m"
    ensures FormatTimeSpent(Some(-3)) == "0 sec"
  {
    assert Parts(125) == MinSec(2, 5);
    assert Parts(120) == MinSec(2, 0);
    assert Parts(3659) == HourMin(1, 0);
    assert Parts(7260) == HourMin(2, 1);
  }
}
