/**
 * lib/date.ts: `isUpcoming` and `formatTimeAgo`. A date string is read
 * through `ts`, the milliseconds `new Date(s).getTime()` gives, and the
 * clock is the parameter `now`. The phrase rendering is shared with the
 * project card's relative-time formatter.
 */
module Dates {
  import opened Strings

  const SecondMs: int := 1000
  const MinuteMs: int := 60000
  const HourMs: int := 3600000
  const DayMs: int := 86400000

  /** `Math.ceil(ms / 1000)` for a positive number of milliseconds. */
  function CeilSeconds(ms: int): (s: int)
    requires ms > 0
    ensures (s - 1) * 1000 < ms <= s * 1000
  {
    (ms + 999) / 1000
  }

  datatype TimeUnit = Minute | Hour | Day | Week | Month | Year

  function UnitName(u: TimeUnit): string
  {
    match u
    case Minute => "minute"
    case Hour => "hour"
    case Day => "day"
    case Week => "week"
    case Month => "month"
    case Year => "year"
  }

  /** A relative time: "just now", or a positive count of some unit. */
  datatype Elapsed = JustNow | Ago(count: nat, unit: TimeUnit)

  /** `${n} unit${plural ? 's' : ''} ago`, or "just now". */
  function Phrase(e: Elapsed, plural: bool): (r: string)
    ensures e.JustNow? ==> r == "just now"
    ensures e.Ago? ==> |NatToString(e.count)| <= |r| && r[..|NatToString(e.count)|] == NatToString(e.count)
    ensures e.Ago? ==> EndsWith(r, " ago")
    ensures e.Ago? ==> (EndsWith(r, "s ago") <==> plural)
  {
    match e
    case JustNow => "just now"
    case Ago(n, u) =>
      var name := UnitName(u);
      var r := NatToString(n) + " " + name + (if plural then "s" else "") + " ago";
      assert r[|r| - 4..] == " ago";
      assert r[|r| - 5] == if plural then 's' else name[|name| - 1];
      assert r[|r| - 5..] == [r[|r| - 5]] + " ago";
      r
  }

  /**
   * Reading a phrase back: split on spaces it is exactly the count, the
   * unit word (with its plural "s" when asked for) and "ago", and the first
   * word parses back to the count.
   */
  lemma PhraseReadsBack(e: Elapsed, plural: bool)
    requires e.Ago?
    ensures var w := Split(Phrase(e, plural), " ");
      |w| == 3 && ParseDigits(w[0]) == e.count && w[1] == UnitName(e.unit) + (if plural then "s" else "") && w[2] == "ago"
  {
    var n := NatToString(e.count);
    var u := UnitName(e.unit) + (if plural then "s" else "");
    var parts := [n, u, "ago"];
    assert Join(parts, " ") == Phrase(e, plural) by {
      assert parts[1..][1..] == ["ago"];
      assert Join(parts[1..], " ") == u + " " + "ago";
    }
    forall k | 0 <= k < |parts|
      ensures !Contains(parts[k], " ")
    {
      ContainsChar(parts[k], ' ');
      if k == 0 {
        assert forall i :: 0 <= i < |n| ==> IsDigit(n[i]);
      }
    }
    SplitJoin(parts, " ");
    ParseNatToString(e.count);
  }

  // ---------------------------------------------------------------------------
  // formatTimeAgo
  // ---------------------------------------------------------------------------

  /** The length of one unit in `formatTimeAgo`: a month is 30 days and a year twelve of those. */
  function AgoUnitMs(u: TimeUnit): int
  {
    match u
    case Minute => MinuteMs
    case Hour => HourMs
    case Day => DayMs
    case Week => 7 * DayMs
    case Month => 30 * DayMs
    case Year => 360 * DayMs
  }

  /**
   * The cascade of `Math.floor` divisions. Dafny's `/` rounds toward minus
   * infinity for a positive divisor, as `Math.floor(x / d)` does.
   */
  function TimeAgo(elapsedMs: int): (r: Elapsed)
    ensures r.JustNow? <==> elapsedMs < MinuteMs
    ensures r.Ago? ==> r.count >= 1 && r.unit != Week
    ensures r.Ago? ==> r.count == elapsedMs / AgoUnitMs(r.unit) && AgoUnitMs(r.unit) <= elapsedMs
    ensures r.Ago? && r.unit != Year ==> elapsedMs < AgoUnitMs(NextAgoUnit(r.unit))
  {
    var seconds := elapsedMs / 1000;
    if seconds < 60 then JustNow
    else
      var minutes := seconds / 60;
      if minutes < 60 then Ago(minutes, Minute)
      else
        var hours := minutes / 60;
        if hours < 24 then Ago(hours, Hour)
        else
          var days := hours / 24;
          if days < 30 then Ago(days, Day)
          else
            var months := days / 30;
            if months < 12 then Ago(months, Month)
            else Ago(months / 12, Year)
  }

  /** The unit after `u` in `formatTimeAgo`'s cascade (weeks are skipped). */
  function NextAgoUnit(u: TimeUnit): TimeUnit
  {
    match u
    case Minute => Hour
    case Hour => Day
    case Day => Month
    case Week => Month
    case Month => Year
    case Year => Year
  }

  /** `formatTimeAgo(dateString)` at time `now`. */
  function FormatTimeAgo(ts: string -> int, dateString: string, now: int): (r: string)
    ensures r == "just now" <==> now - ts(dateString) < MinuteMs
    ensures var e := TimeAgo(now - ts(dateString));
      e.Ago? ==> (EndsWith(r, "s ago") <==> e.count != 1)
    ensures var e := TimeAgo(now - ts(dateString));
      e.Ago? ==> r == NatToString(e.count) + " " + UnitName(e.unit) + (if e.count != 1 then "s" else "") + " ago"
  {
    var e := TimeAgo(now - ts(dateString));
    var r := Phrase(e, e.Ago? && e.count != 1);
    assert e.Ago? ==> r != "just now" by {
      if e.Ago? {
        assert EndsWith(r, " ago");
        assert "just now"[|"just now"| - 4..] != " ago";
      }
    }
    r
  }

  /** `isUpcoming`: the date lies strictly after `now`. */
  function IsUpcoming(ts: string -> int, dateString: string, now: int): bool
  {
    ts(dateString) > now
  }

  /** A date still to come is "just now" for `formatTimeAgo`. */
  lemma UpcomingIsJustNow(ts: string -> int, dateString: string, now: int)
    ensures IsUpcoming(ts, dateString, now) ==> FormatTimeAgo(ts, dateString, now) == "just now"
  {
  }

  /** The position of an elapsed time on the scale: later means a larger unit, or the same unit and a count no smaller. */
  predicate NoLater(a: Elapsed, b: Elapsed)
  {
    match a
    case JustNow => true
    case Ago(n, u) => b.Ago? && (UnitRank(u) < UnitRank(b.unit) || (u == b.unit && n <= b.count))
  }

  function UnitRank(u: TimeUnit): nat
  {
    match u
    case Minute => 0
    case Hour => 1
    case Day => 2
    case Week => 3
    case Month => 4
    case Year => 5
  }

  /** Whole units of elapsed time grow with the elapsed time. */
  lemma DivMono(a: int, b: int, u: TimeUnit)
    requires a <= b
    ensures a / AgoUnitMs(u) <= b / AgoUnitMs(u)
  {
    match u
    case Minute => assert a / 60000 <= b / 60000;
    case Hour => assert a / 3600000 <= b / 3600000;
    case Day => assert a / 86400000 <= b / 86400000;
    case Week => assert a / 604800000 <= b / 604800000;
    case Month => assert a / 2592000000 <= b / 2592000000;
    case Year => assert a / 31104000000 <= b / 31104000000;
  }

  /** More elapsed time never reads as less. */
  lemma TimeAgoMonotone(a: int, b: int)
    requires a <= b
    ensures NoLater(TimeAgo(a), TimeAgo(b))
  {
    var ea := TimeAgo(a);
    var eb := TimeAgo(b);
    if ea.Ago? && eb.Ago? && ea.unit == eb.unit {
      DivMono(a, b, ea.unit);
    }
  }
}
