/**
 * components/projects/ProjectCard.tsx: the card's relative "last updated"
 * time and the truncated tool list.
 */
module ProjectCard {
  import opened Wrappers
  import opened Strings
  import opened Seqs
  import opened Dates

  /** The length of one unit in `formatRelativeTime`: weeks of 7, months of 30 and years of 365 days. */
  function CardUnitMs(u: TimeUnit): int
  {
    match u
    case Minute => MinuteMs
    case Hour => HourMs
    case Day => DayMs
    case Week => 7 * DayMs
    case Month => 30 * DayMs
    case Year => 365 * DayMs
  }

  /** The next larger unit of the card's scale. */
  function NextCardUnit(u: TimeUnit): TimeUnit
  {
    match u
    case Minute => Hour
    case Hour => Day
    case Day => Week
    case Week => Month
    case Month => Year
    case Year => Year
  }

  /**
   * The first positive count among years, months, weeks, days, hours and
   * minutes, each a floor division of the elapsed days, hours or minutes.
   */
  function RelativeTime(diffMs: int): (r: Elapsed)
    ensures r.JustNow? <==> diffMs < MinuteMs
    ensures r.Ago? ==> r.count >= 1
    ensures r.Ago? ==> r.count == diffMs / CardUnitMs(r.unit) && CardUnitMs(r.unit) <= diffMs
    ensures r.Ago? && r.unit != Year ==> diffMs < CardUnitMs(NextCardUnit(r.unit))
  {
    var seconds := diffMs / 1000;
    var minutes := seconds / 60;
    var hours := minutes / 60;
    var days := hours / 24;
    var weeks := days / 7;
    var months := days / 30;
    var years := days / 365;
    if years > 0 then Ago(years, Year)
    else if months > 0 then Ago(months, Month)
    else if weeks > 0 then Ago(weeks, Week)
    else if days > 0 then Ago(days, Day)
    else if hours > 0 then Ago(hours, Hour)
    else if minutes > 0 then Ago(minutes, Minute)
    else JustNow
  }

  /** `formatRelativeTime(isoDate)` at time `now`; the suffix is added when the count exceeds one. */
  function FormatRelativeTime(ts: string -> int, isoDate: string, now: int): (r: string)
    ensures r == "just now" <==> now - ts(isoDate) < MinuteMs
    ensures var e := RelativeTime(now - ts(isoDate));
      e.Ago? ==> (EndsWith(r, "s ago") <==> e.count != 1)
    ensures var e := RelativeTime(now - ts(isoDate));
      e.Ago? ==> r == NatToString(e.count) + " " + UnitName(e.unit) + (if e.count > 1 then "s" else "") + " ago"
  {
    var e := RelativeTime(now - ts(isoDate));
    var r := Phrase(e, e.Ago? && e.count > 1);
    assert e.Ago? ==> r != "just now" by {
      if e.Ago? {
        assert EndsWith(r, " ago");
        assert "just now"[|"just now"| - 4..] != " ago";
      }
    }
    r
  }

  /** Ten days read as one week, and 360 to 364 days as twelve months. */
  lemma WeeksAndMonthsOfTheCard(days: int)
    ensures RelativeTime(10 * DayMs) == Ago(1, Week)
    ensures 360 <= days < 365 ==> RelativeTime(days * DayMs) == Ago(12, Month)
  {
  }

  /** Below seven days the card and `formatTimeAgo` say the same thing. */
  lemma CardAgreesWithTimeAgoBelowAWeek(diffMs: int)
    requires diffMs < 7 * DayMs
    ensures RelativeTime(diffMs) == TimeAgo(diffMs)
  {
  }

  const MaxToolsVisible: nat := 4

  /** The tool chips: the first four tools and, when more remain, the "+N more" chip. */
  datatype ToolChips = ToolChips(visible: seq<string>, more: Option<string>)

  /** The tool list as the card shows it. */
  function ToolsDisplay(tools: seq<string>): (r: ToolChips)
    ensures |r.visible| == if |tools| < MaxToolsVisible then |tools| else MaxToolsVisible
    ensures tools[..|r.visible|] == r.visible
    ensures r.more.Some? <==> |tools| > MaxToolsVisible
    ensures r.more.Some? ==> r.more.value == "+" + IntToString(|tools| - |r.visible|) + " more"
  {
    var remaining := |tools| - MaxToolsVisible;
    ToolChips(Slice(tools, 0, MaxToolsVisible), if remaining > 0 then Some("+" + IntToString(remaining) + " more") else None)
  }
}
