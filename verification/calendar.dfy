/**
 * lib/calendar.ts: turning a Google Calendar event into a site event, and
 * finding the RSVP link in an event description. The two regular
 * expressions of `extractRsvpUrl` are replaced by leftmost scanners.
 */
module Calendar {
  import opened Wrappers
  import opened Seqs
  import opened Strings
  import opened Types
  import EventSync

  /**
   * Position `i` holds the lower-case pattern character `c`; when `ci` (the
   * `/i` flag) its upper-case form matches too.
   */
  predicate CharIs(s: string, i: nat, c: char, ci: bool)
  {
    i < |s| && (s[i] == c || (ci && s[i] == UpperChar(c)))
  }

  /** `://` at `i`. */
  predicate ColonSlashesAt(s: string, i: nat)
  {
    CharIs(s, i, ':', false) && CharIs(s, i + 1, '/', false) && CharIs(s, i + 2, '/', false)
  }

  /** Where `https?:\/\/` matched at `q` ends, if it does. */
  function SchemeEnd(s: string, q: nat, ci: bool): (r: Option<nat>)
    ensures r.Some? ==> r.value <= |s| && (r.value == q + 7 || r.value == q + 8)
  {
    if !(CharIs(s, q, 'h', ci) && CharIs(s, q + 1, 't', ci) && CharIs(s, q + 2, 't', ci) && CharIs(s, q + 3, 'p', ci)) then None
    else if CharIs(s, q + 4, 's', ci) && ColonSlashesAt(s, q + 5) then Some(q + 8)
    else if ColonSlashesAt(s, q + 4) then Some(q + 7)
    else None
  }

  /** The end of the run of whitespace starting at `i` (`\s*`). */
  function SkipSpaces(s: string, i: nat): (j: nat)
    requires i <= |s|
    decreases |s| - i
    ensures i <= j <= |s|
    ensures forall k :: i <= k < j ==> IsSpace(s[k])
    ensures j < |s| ==> !IsSpace(s[j])
  {
    if i < |s| && IsSpace(s[i]) then SkipSpaces(s, i + 1) else i
  }

  /** The end of the run of non-whitespace starting at `i` (`[^\s]*`, greedy). */
  function NonSpaceEnd(s: string, i: nat): (j: nat)
    requires i <= |s|
    decreases |s| - i
    ensures i <= j <= |s|
    ensures forall k :: i <= k < j ==> !IsSpace(s[k])
    ensures j < |s| ==> IsSpace(s[j])
  {
    if i < |s| && !IsSpace(s[i]) then NonSpaceEnd(s, i + 1) else i
  }

  /** `https?:\/\/[^\s]+` matches at `q`: the scheme followed by at least one non-space. */
  predicate UrlAt(s: string, q: nat, ci: bool)
  {
    var e := SchemeEnd(s, q, ci);
    e.Some? && e.value < |s| && !IsSpace(s[e.value])
  }

  /**
   * The URL a match at `q` captures, trimmed as the source does: everything
   * up to the next whitespace, so trimming changes nothing.
   */
  function UrlFrom(s: string, q: nat): (r: string)
    requires q <= |s|
    ensures r == s[q..NonSpaceEnd(s, q)]
    ensures forall k :: 0 <= k < |r| ==> !IsSpace(r[k])
  {
    var url := s[q..NonSpaceEnd(s, q)];
    assert forall k :: 0 <= k < |url| ==> url[k] == s[q + k];
    TrimNoop(url);
    Trim(url)
  }

  /** `RSVP:` at `p`, ignoring case. */
  predicate LabelAt(s: string, p: nat)
  {
    CharIs(s, p, 'r', true) && CharIs(s, p + 1, 's', true) && CharIs(s, p + 2, 'v', true) &&
    CharIs(s, p + 3, 'p', true) && CharIs(s, p + 4, ':', true)
  }

  /** Where the URL after an `RSVP:` label at `p` would start. */
  function AfterLabel(s: string, p: nat): (q: nat)
    requires LabelAt(s, p)
    ensures p + 5 <= q <= |s|
  {
    SkipSpaces(s, p + 5)
  }

  /** `/RSVP:\s*(https?:\/\/[^\s]+)/i` matches at `p`. */
  predicate RsvpAt(s: string, p: nat)
  {
    LabelAt(s, p) && UrlAt(s, AfterLabel(s, p), true)
  }

  function RsvpAtFn(s: string): nat -> bool
  {
    (p: nat) => RsvpAt(s, p)
  }

  function PlainUrlAtFn(s: string): nat -> bool
  {
    (q: nat) => UrlAt(s, q, false)
  }

  /** The leftmost `RSVP:` match. */
  function FirstRsvp(s: string): (r: Option<nat>)
    ensures r.Some? ==> r.value < |s| && RsvpAt(s, r.value) && forall p :: 0 <= p < r.value ==> !RsvpAt(s, p)
    ensures r.None? ==> forall p :: 0 <= p < |s| ==> !RsvpAt(s, p)
  {
    var m := FirstIndex(|s|, RsvpAtFn(s), 0);
    if m.None? then
      assert forall p :: 0 <= p < |s| ==> !RsvpAt(s, p) by {
        forall p | 0 <= p < |s|
          ensures !RsvpAt(s, p)
        {
          assert !RsvpAtFn(s)(p);
        }
      }
      m
    else
      assert RsvpAtFn(s)(m.value);
      assert forall p :: 0 <= p < m.value ==> !RsvpAt(s, p) by {
        forall p | 0 <= p < m.value
          ensures !RsvpAt(s, p)
        {
          assert !RsvpAtFn(s)(p);
        }
      }
      m
  }

  /** The leftmost plain (case-sensitive) URL match. */
  function FirstPlainUrl(s: string): (r: Option<nat>)
    ensures r.Some? ==> r.value < |s| && UrlAt(s, r.value, false) && forall q :: 0 <= q < r.value ==> !UrlAt(s, q, false)
    ensures r.None? ==> forall q :: 0 <= q < |s| ==> !UrlAt(s, q, false)
  {
    var m := FirstIndex(|s|, PlainUrlAtFn(s), 0);
    if m.None? then
      assert forall q :: 0 <= q < |s| ==> !UrlAt(s, q, false) by {
        forall q | 0 <= q < |s|
          ensures !UrlAt(s, q, false)
        {
          assert !PlainUrlAtFn(s)(q);
        }
      }
      m
    else
      assert PlainUrlAtFn(s)(m.value);
      assert forall q :: 0 <= q < m.value ==> !UrlAt(s, q, false) by {
        forall q | 0 <= q < m.value
          ensures !UrlAt(s, q, false)
        {
          assert !PlainUrlAtFn(s)(q);
        }
      }
      m
  }

  /**
   * `extractRsvpUrl`: the URL of the leftmost `RSVP:` match, else the
   * leftmost plain `http(s)://` URL, else nothing; a missing or empty
   * description gives nothing.
   */
  function ExtractRsvpUrl(description: Option<string>): (r: Option<string>)
    ensures !Truthy(description) ==> r.None?
    ensures Truthy(description) ==>
      (r.None? <==> (forall p :: 0 <= p < |description.value| ==> !RsvpAt(description.value, p) && !UrlAt(description.value, p, false)))
  {
    if !Truthy(description) then None
    else
      var s := description.value;
      match FirstRsvp(s)
      case Some(p) => Some(UrlFrom(s, AfterLabel(s, p)))
      case None =>
        match FirstPlainUrl(s)
        case Some(q) => Some(UrlFrom(s, q))
        case None => None
  }

  /** A URL after `RSVP:` wins over every other URL, even one that comes earlier. */
  lemma RsvpPreferred(s: string, p: nat)
    requires p < |s| && RsvpAt(s, p)
    requires forall p' :: 0 <= p' < p ==> !RsvpAt(s, p')
    ensures ExtractRsvpUrl(Some(s)) == Some(UrlFrom(s, AfterLabel(s, p)))
  {
    assert FirstRsvp(s) == Some(p) by {
      var m := FirstRsvp(s);
      assert m.Some?;
      assert !(m.value < p);
      assert !(p < m.value);
    }
  }

  /** With no `RSVP:` match, the leftmost case-sensitive `http://` or `https://` URL is returned. */
  lemma FirstUrlFallback(s: string, q: nat)
    requires forall p :: 0 <= p < |s| ==> !RsvpAt(s, p)
    requires q < |s| && UrlAt(s, q, false)
    requires forall q' :: 0 <= q' < q ==> !UrlAt(s, q', false)
    ensures ExtractRsvpUrl(Some(s)) == Some(UrlFrom(s, q))
  {
    assert FirstRsvp(s).None?;
    assert FirstPlainUrl(s) == Some(q) by {
      var m := FirstPlainUrl(s);
      assert m.Some?;
      assert !(m.value < q);
      assert !(q < m.value);
    }
  }

  /** `url` occurs in `s` at `start`, holds no whitespace and starts with an http(s) scheme. */
  predicate FoundUrl(s: string, start: nat, url: string)
  {
    && start + |url| <= |s| && s[start..start + |url|] == url
    && (forall k :: 0 <= k < |url| ==> !IsSpace(url[k]))
    && SchemeEnd(url, 0, true).Some?
  }

  /**
   * Any result is an infix of the description, holds no whitespace, and
   * starts with `http://` or `https://` (in any letter case).
   */
  lemma RsvpUrlShape(s: string) returns (start: nat)
    requires ExtractRsvpUrl(Some(s)).Some?
    ensures FoundUrl(s, start, ExtractRsvpUrl(Some(s)).value)
  {
    match FirstRsvp(s)
    case Some(p) =>
      start := AfterLabel(s, p);
      UrlFromShape(s, start, true);
      assert ExtractRsvpUrl(Some(s)).value == UrlFrom(s, start);
    case None =>
      start := FirstPlainUrl(s).value;
      UrlFromShape(s, start, false);
      assert ExtractRsvpUrl(Some(s)).value == UrlFrom(s, start);
  }

  /** A URL found at `q` is the whitespace-free run there, and it starts with its scheme. */
  lemma UrlFromShape(s: string, q: nat, ci: bool)
    requires q <= |s| && UrlAt(s, q, ci)
    ensures FoundUrl(s, q, UrlFrom(s, q))
  {
    SchemeInUrl(s, q, ci);
  }

  /** The letters and punctuation of a scheme are not whitespace, whatever their case. */
  lemma SchemeCharNotSpace(s: string, i: nat, c: char, ci: bool)
    requires CharIs(s, i, c, ci)
    requires IsLowerAscii(c) || c == ':' || c == '/'
    ensures !IsSpace(s[i])
  {
  }

  /** The matched scheme contains no whitespace. */
  lemma SchemeNotSpace(s: string, q: nat, ci: bool)
    requires SchemeEnd(s, q, ci).Some?
    ensures forall k :: q <= k < SchemeEnd(s, q, ci).value ==> !IsSpace(s[k])
  {
    var e := SchemeEnd(s, q, ci).value;
    SchemeCharNotSpace(s, q, 'h', ci);
    SchemeCharNotSpace(s, q + 1, 't', ci);
    SchemeCharNotSpace(s, q + 2, 't', ci);
    SchemeCharNotSpace(s, q + 3, 'p', ci);
    if e == q + 8 {
      SchemeCharNotSpace(s, q + 4, 's', ci);
      SchemeCharNotSpace(s, q + 5, ':', false);
      SchemeCharNotSpace(s, q + 6, '/', false);
      SchemeCharNotSpace(s, q + 7, '/', false);
    } else {
      SchemeCharNotSpace(s, q + 4, ':', false);
      SchemeCharNotSpace(s, q + 5, '/', false);
      SchemeCharNotSpace(s, q + 6, '/', false);
    }
  }

  /** A character matched with or without the `/i` flag is also matched with it. */
  lemma CharIsCopied(s: string, i: nat, t: string, k: nat, c: char, ci: bool)
    requires CharIs(s, i, c, ci) && k < |t| && t[k] == s[i]
    requires IsLowerAscii(c) || c == ':' || c == '/'
    ensures CharIs(t, k, c, true)
  {
  }

  /** A URL match extends past its scheme. */
  lemma UrlPastScheme(s: string, q: nat, ci: bool)
    requires q <= |s| && UrlAt(s, q, ci)
    ensures SchemeEnd(s, q, ci).value < NonSpaceEnd(s, q)
  {
    var e := SchemeEnd(s, q, ci).value;
    SchemeNotSpace(s, q, ci);
  }

  /** The scheme read again at the start of a string that begins with the same characters. */
  lemma SchemeCopied(s: string, q: nat, ci: bool, url: string)
    requires SchemeEnd(s, q, ci).Some?
    requires SchemeEnd(s, q, ci).value - q <= |url|
    requires forall k :: 0 <= k < SchemeEnd(s, q, ci).value - q ==> url[k] == s[q + k]
    ensures SchemeEnd(url, 0, true).Some?
  {
    var e := SchemeEnd(s, q, ci).value;
    CharIsCopied(s, q, url, 0, 'h', ci);
    CharIsCopied(s, q + 1, url, 1, 't', ci);
    CharIsCopied(s, q + 2, url, 2, 't', ci);
    CharIsCopied(s, q + 3, url, 3, 'p', ci);
    if e == q + 8 {
      CharIsCopied(s, q + 4, url, 4, 's', ci);
      CharIsCopied(s, q + 5, url, 5, ':', false);
      CharIsCopied(s, q + 6, url, 6, '/', false);
      CharIsCopied(s, q + 7, url, 7, '/', false);
    } else {
      CharIsCopied(s, q + 4, url, 4, ':', false);
      CharIsCopied(s, q + 5, url, 5, '/', false);
      CharIsCopied(s, q + 6, url, 6, '/', false);
    }
  }

  /** A scheme matched in `s` at `q` is matched case-insensitively at the start of the captured URL. */
  lemma SchemeInUrl(s: string, q: nat, ci: bool)
    requires q <= |s| && UrlAt(s, q, ci)
    ensures SchemeEnd(UrlFrom(s, q), 0, true).Some?
  {
    UrlPastScheme(s, q, ci);
    var url := UrlFrom(s, q);
    assert forall k :: 0 <= k < |url| ==> url[k] == s[q + k];
    SchemeCopied(s, q, ci, url);
  }

  // ---------------------------------------------------------------------------
  // Mapping a calendar event
  // ---------------------------------------------------------------------------

  /** `isAllDayEvent`: the start has a date and no date-time. */
  predicate IsAllDayEvent(event: GoogleCalendarEvent)
  {
    Truthy(event.start.date) && !Truthy(event.start.dateTime)
  }

  /**
   * `mapGoogleEventToEventItem`, with the fresh id the source draws from
   * `uuidv4()` passed in.
   */
  function MapGoogleEvent(event: GoogleCalendarEvent, freshId: string): (r: EventItem)
    ensures r.id == freshId && r.calendarEventId == Some(event.id)
    ensures r.title == if Truthy(event.summary) then event.summary.value else "Untitled Event"
    ensures Truthy(event.start.dateTime) ==> r.startsAt == event.start.dateTime.value
    ensures !Truthy(event.start.dateTime) && Truthy(event.start.date) ==> r.startsAt == event.start.date.value
    ensures !Truthy(event.start.dateTime) && !Truthy(event.start.date) ==> r.startsAt == ""
    ensures Truthy(event.end.dateTime) ==> r.endsAt == event.end.dateTime
    ensures !Truthy(event.end.dateTime) ==> r.endsAt == event.end.date
    ensures r.location == event.location && r.description == event.description
    ensures r.rsvpUrl == ExtractRsvpUrl(event.description)
  {
    EventItem(
      id := freshId,
      title := OrElse(event.summary, "Untitled Event"),
      startsAt := OrElse(event.start.dateTime, OrElse(event.start.date, "")),
      endsAt := if Truthy(event.end.dateTime) then event.end.dateTime else event.end.date,
      location := event.location,
      description := event.description,
      rsvpUrl := ExtractRsvpUrl(event.description),
      calendarEventId := Some(event.id))
  }

  /** The `items.map(...)` of `fetchCalendarEvents`, one fresh id per item. */
  function MapGoogleEvents(items: seq<GoogleCalendarEvent>, freshIds: seq<string>): (r: seq<EventItem>)
    requires |freshIds| == |items|
    ensures |r| == |items|
    ensures forall i :: 0 <= i < |items| ==> r[i] == MapGoogleEvent(items[i], freshIds[i])
  {
    seq(|items|, i requires 0 <= i < |items| => MapGoogleEvent(items[i], freshIds[i]))
  }

  /** An all-day event starts on its date; a timed one at its date-time. */
  lemma AllDayStartsOnDate(event: GoogleCalendarEvent, freshId: string)
    ensures IsAllDayEvent(event) ==> MapGoogleEvent(event, freshId).startsAt == event.start.date.value
    ensures !IsAllDayEvent(event) && MapGoogleEvent(event, freshId).startsAt != "" ==>
      MapGoogleEvent(event, freshId).startsAt == event.start.dateTime.value
  {
  }

  /** Every mapped event with a non-empty Google id counts as calendar-sourced when events are synced. */
  lemma MappedEventsFromCalendar(items: seq<GoogleCalendarEvent>, freshIds: seq<string>)
    requires |freshIds| == |items|
    requires forall i :: 0 <= i < |items| ==> items[i].id != ""
    ensures forall e :: e in MapGoogleEvents(items, freshIds) ==> EventSync.FromCalendar(e)
  {
  }
}
