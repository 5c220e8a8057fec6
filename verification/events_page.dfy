/**
 * app/events/page.tsx: the events file in either of its stored formats, and
 * the list of upcoming events: those starting after now, earliest first,
 * cut to a limit. The clock is the parameter `now` and the parsing of a
 * date string is the parameter `ts`.
 */
module EventsPage {
  import opened Wrappers
  import opened Seqs
  import opened Sorting
  import opened Types
  import opened Dates

  const EventsPageLimit: nat := 6

  /** The events file: the older bare array, or an object with the events and the time of the last sync. */
  datatype EventsData =
    | EventList(list: seq<EventItem>)
    | EventsObject(lastSyncedAt: Option<string>, events: seq<EventItem>)

  /** The events of either format. */
  function EventsOf(data: EventsData): (r: seq<EventItem>)
    ensures data.EventList? ==> r == data.list
    ensures data.EventsObject? ==> r == data.events
  {
    match data
    case EventList(list) => list
    case EventsObject(_, events) => events
  }

  /** The last sync time, which only the object format carries. */
  function LastSyncedAt(data: EventsData): (r: Option<string>)
    ensures data.EventList? ==> r.None?
    ensures data.EventsObject? ==> r == data.lastSyncedAt
  {
    match data
    case EventList(_) => None
    case EventsObject(lastSyncedAt, _) => lastSyncedAt
  }

  function UpcomingFn(ts: string -> int, now: int): EventItem -> bool
  {
    (e: EventItem) => IsUpcoming(ts, e.startsAt, now)
  }

  function StartKey(ts: string -> int): EventItem -> int
  {
    (e: EventItem) => ts(e.startsAt)
  }

  /** Every upcoming event, earliest start first, ties in file order. */
  function UpcomingSorted(events: seq<EventItem>, ts: string -> int, now: int): (r: seq<EventItem>)
    ensures multiset(r) == multiset(Filter(events, UpcomingFn(ts, now)))
    ensures forall i :: 0 <= i < |r| ==> r[i] in events && ts(r[i].startsAt) > now
    ensures forall i, j :: 0 <= i < j < |r| ==> ts(r[i].startsAt) <= ts(r[j].startsAt)
  {
    ByKeyTotal(StartKey(ts));
    var kept := Filter(events, UpcomingFn(ts, now));
    var r := Sort(kept, ByKey(StartKey(ts)));
    assert forall i :: 0 <= i < |r| ==> r[i] in events && ts(r[i].startsAt) > now by {
      forall i | 0 <= i < |r|
        ensures r[i] in events && ts(r[i].startsAt) > now
      {
        assert r[i] in multiset(kept);
      }
    }
    assert forall i, j :: 0 <= i < j < |r| ==> ts(r[i].startsAt) <= ts(r[j].startsAt) by {
      forall i, j | 0 <= i < j < |r|
        ensures ts(r[i].startsAt) <= ts(r[j].startsAt)
      {
        assert ByKey(StartKey(ts))(r[i], r[j]);
      }
    }
    r
  }

  /** The upcoming events, earliest start first, at most `limit` of them. */
  function Upcoming(events: seq<EventItem>, ts: string -> int, now: int, limit: nat): (r: seq<EventItem>)
    ensures var n := |Filter(events, UpcomingFn(ts, now))|; |r| == if limit < n then limit else n
    ensures forall i :: 0 <= i < |r| ==> r[i] in events && ts(r[i].startsAt) > now
    ensures forall i, j :: 0 <= i < j < |r| ==> ts(r[i].startsAt) <= ts(r[j].startsAt)
  {
    var sorted := UpcomingSorted(events, ts, now);
    assert |sorted| == |Filter(events, UpcomingFn(ts, now))| by {
      assert |multiset(sorted)| == |multiset(Filter(events, UpcomingFn(ts, now)))|;
    }
    Take(sorted, limit)
  }

  /**
   * No upcoming event is passed over: each one is listed, or the list is
   * full and every listed event starts no later than it.
   */
  lemma UpcomingComplete(events: seq<EventItem>, ts: string -> int, now: int, limit: nat, e: EventItem)
    requires e in events && ts(e.startsAt) > now
    ensures var r := Upcoming(events, ts, now, limit);
      e in r || (|r| == limit && forall i :: 0 <= i < |r| ==> ts(r[i].startsAt) <= ts(e.startsAt))
  {
    var kept := Filter(events, UpcomingFn(ts, now));
    var sorted := UpcomingSorted(events, ts, now);
    var r := Upcoming(events, ts, now, limit);
    assert r == Take(sorted, limit);
    var i :| 0 <= i < |events| && events[i] == e;
    assert UpcomingFn(ts, now)(events[i]);
    assert e in multiset(sorted);
    var k :| 0 <= k < |sorted| && sorted[k] == e;
    if k < limit {
      assert r[k] == e;
    } else {
      forall j | 0 <= j < |r|
        ensures ts(r[j].startsAt) <= ts(e.startsAt)
      {
        assert r[j] == sorted[j];
      }
    }
  }

  /**
   * The events page lists the six earliest upcoming events (all of them when
   * there are fewer) from whichever format the file has.
   */
  function EventsPageList(data: EventsData, ts: string -> int, now: int): (r: seq<EventItem>)
    ensures var n := |Filter(EventsOf(data), UpcomingFn(ts, now))|;
      |r| == if EventsPageLimit < n then EventsPageLimit else n
    ensures forall i :: 0 <= i < |r| ==> r[i] in EventsOf(data) && IsUpcoming(ts, r[i].startsAt, now)
    ensures forall i, j :: 0 <= i < j < |r| ==> ts(r[i].startsAt) <= ts(r[j].startsAt)
    ensures forall e :: e in EventsOf(data) && ts(e.startsAt) > now ==>
      e in r || (|r| == EventsPageLimit && forall i :: 0 <= i < |r| ==> ts(r[i].startsAt) <= ts(e.startsAt))
  {
    UpcomingAllComplete(EventsOf(data), ts, now, EventsPageLimit);
    Upcoming(EventsOf(data), ts, now, EventsPageLimit)
  }

  /** `UpcomingComplete` for every upcoming event at once. */
  lemma UpcomingAllComplete(events: seq<EventItem>, ts: string -> int, now: int, limit: nat)
    ensures var r := Upcoming(events, ts, now, limit);
      forall e :: e in events && ts(e.startsAt) > now ==>
        e in r || (|r| == limit && forall i :: 0 <= i < |r| ==> ts(r[i].startsAt) <= ts(e.startsAt))
  {
    forall e | e in events && ts(e.startsAt) > now
      ensures var r := Upcoming(events, ts, now, limit);
        e in r || (|r| == limit && forall i :: 0 <= i < |r| ==> ts(r[i].startsAt) <= ts(e.startsAt))
    {
      UpcomingComplete(events, ts, now, limit, e);
    }
  }

  /** The two stored formats list the same events. */
  lemma FormatsAgree(list: seq<EventItem>, lastSyncedAt: Option<string>, ts: string -> int, now: int)
    ensures EventsPageList(EventList(list), ts, now) == EventsPageList(EventsObject(lastSyncedAt, list), ts, now)
    ensures LastSyncedAt(EventList(list)).None?
  {
  }

  /** A shorter limit gives a prefix of the longer list. */
  lemma UpcomingPrefix(events: seq<EventItem>, ts: string -> int, now: int, small: nat, large: nat)
    requires small <= large
    ensures Upcoming(events, ts, now, small) == Take(Upcoming(events, ts, now, large), small)
  {
    var sorted := UpcomingSorted(events, ts, now);
    assert Upcoming(events, ts, now, small) == Take(sorted, small);
    assert Upcoming(events, ts, now, large) == Take(sorted, large);
  }
}
