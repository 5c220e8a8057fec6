/**
 * The calendar reconciliation behind `POST /api/events/sync`: stored events
 * are split into manual ones and calendar-sourced ones, calendar events are
 * matched by their Google `calendarEventId`, matched ones are refreshed from
 * the calendar but keep the stored internal id, vanished ones are dropped,
 * new ones are appended, and the whole list is sorted by start time.
 *
 * `ts` stands for `new Date(s).getTime()`.
 */
module EventSync {
  import opened Wrappers
  import opened Seqs
  import opened Sorting
  import opened Types

  /** An event came from the calendar when its `calendarEventId` is truthy. */
  predicate FromCalendar(e: EventItem)
  {
    Truthy(e.calendarEventId)
  }

  predicate IsManual(e: EventItem)
  {
    !FromCalendar(e)
  }

  function CalId(e: EventItem): string
    requires FromCalendar(e)
  {
    e.calendarEventId.value
  }

  /** No two calendar events of `s` share a `calendarEventId`. */
  predicate DistinctCalendarIds(s: seq<EventItem>)
  {
    forall i, j :: 0 <= i < j < |s| && FromCalendar(s[i]) && FromCalendar(s[j]) ==> CalId(s[i]) != CalId(s[j])
  }

  /** Every entry of a lookup map is a calendar event filed under its own id. */
  predicate WellKeyed(m: map<string, EventItem>)
  {
    forall c :: c in m ==> FromCalendar(m[c]) && CalId(m[c]) == c
  }

  /** The lookup map from calendar id to fetched event, filled in list order so the last duplicate wins. */
  function LookupMap(fetched: seq<EventItem>): (m: map<string, EventItem>)
    ensures WellKeyed(m)
    ensures forall c :: c in m ==> m[c] in fetched
    ensures forall e :: e in fetched && FromCalendar(e) ==> CalId(e) in m
  {
    if fetched == [] then map[]
    else
      var last := fetched[|fetched| - 1];
      assert fetched == fetched[..|fetched| - 1] + [last];
      var m := LookupMap(fetched[..|fetched| - 1]);
      if FromCalendar(last) then m[CalId(last) := last] else m
  }

  /** The map holds the last fetched event carrying each calendar id. */
  lemma {:induction false} LookupLastWins(fetched: seq<EventItem>, i: nat)
    requires i < |fetched| && FromCalendar(fetched[i])
    requires forall j :: i < j < |fetched| && FromCalendar(fetched[j]) ==> CalId(fetched[j]) != CalId(fetched[i])
    ensures LookupMap(fetched)[CalId(fetched[i])] == fetched[i]
  {
    var n := |fetched| - 1;
    var init := fetched[..n];
    var last := fetched[n];
    var c := CalId(fetched[i]);
    assert LookupMap(fetched) == if FromCalendar(last) then LookupMap(init)[CalId(last) := last] else LookupMap(init);
    if i < n {
      assert init[i] == fetched[i];
      assert forall j :: i < j < |init| && FromCalendar(init[j]) ==> CalId(init[j]) != c by {
        forall j | i < j < |init| && FromCalendar(init[j]) ensures CalId(init[j]) != c {
          assert init[j] == fetched[j];
        }
      }
      LookupLastWins(init, i);
      assert FromCalendar(last) ==> CalId(last) != c;
    }
  }

  lemma LookupDistinct(fetched: seq<EventItem>, e: EventItem)
    requires DistinctCalendarIds(fetched) && e in fetched && FromCalendar(e)
    ensures LookupMap(fetched)[CalId(e)] == e
  {
    var i :| 0 <= i < |fetched| && fetched[i] == e;
    LookupLastWins(fetched, i);
  }

  /** A stored calendar event is still listed when the fetched list has an event with its id. */
  function StillListed(m: map<string, EventItem>): EventItem -> bool
  {
    e => FromCalendar(e) && CalId(e) in m
  }

  /** A stored calendar event has vanished when no fetched event carries its id. */
  function Vanished(m: map<string, EventItem>): EventItem -> bool
  {
    e => FromCalendar(e) && CalId(e) !in m
  }

  /**
   * The id the source writes into the shared fetched record for calendar id
   * `c`: every matching stored event assigns its own id to the same object,
   * so the last one in stored order wins. `none` is returned when nothing matches.
   */
  function LastIdFor(stored: seq<EventItem>, c: string, none: string): string
  {
    if stored == [] then none
    else
      var last := stored[|stored| - 1];
      if FromCalendar(last) && CalId(last) == c then last.id
      else LastIdFor(stored[..|stored| - 1], c, none)
  }

  /** When all stored events carrying `c` have the same id, that id is the one kept. */
  lemma {:induction false} LastIdUniform(stored: seq<EventItem>, c: string, x: string, none: string)
    requires forall e :: e in stored && FromCalendar(e) && CalId(e) == c ==> e.id == x
    requires none == x || exists e :: e in stored && FromCalendar(e) && CalId(e) == c
    ensures LastIdFor(stored, c, none) == x
  {
    if stored != [] {
      var last := stored[|stored| - 1];
      var init := stored[..|stored| - 1];
      assert stored == init + [last];
      if !(FromCalendar(last) && CalId(last) == c) {
        if none != x {
          var e :| e in stored && FromCalendar(e) && CalId(e) == c;
          assert e in init;
        }
        LastIdUniform(init, c, x, none);
      }
    }
  }

  /** With distinct stored calendar ids, the stored event's own id is kept. */
  lemma LastIdDistinct(stored: seq<EventItem>, o: EventItem, none: string)
    requires DistinctCalendarIds(stored) && o in stored && FromCalendar(o)
    ensures LastIdFor(stored, CalId(o), none) == o.id
  {
    forall e | e in stored && FromCalendar(e) && CalId(e) == CalId(o)
      ensures e.id == o.id
    {
      var i :| 0 <= i < |stored| && stored[i] == e;
      var j :| 0 <= j < |stored| && stored[j] == o;
      assert i == j;
    }
    LastIdUniform(stored, CalId(o), o.id, none);
  }

  /** The fetched record for a still-listed stored event, with the preserved internal id. */
  function Refresh(m: map<string, EventItem>, stored: seq<EventItem>, o: EventItem): (u: EventItem)
    requires WellKeyed(m) && StillListed(m)(o)
    ensures FromCalendar(u) && CalId(u) == CalId(o)
  {
    m[CalId(o)].(id := LastIdFor(stored, CalId(o), o.id))
  }

  /** The updated list: one refreshed record per still-listed stored calendar event, in stored order. */
  function Updated(stored: seq<EventItem>, m: map<string, EventItem>): (r: seq<EventItem>)
    requires WellKeyed(m)
    ensures |r| == |Filter(stored, StillListed(m))|
    ensures forall i :: 0 <= i < |r| ==> StillListed(m)(Filter(stored, StillListed(m))[i])
  {
    var kept := Filter(stored, StillListed(m));
    seq(|kept|, i requires 0 <= i < |kept| => Refresh(m, stored, kept[i]))
  }

  /** The calendar ids that were matched (`updatedEventIds`). */
  function Seen(stored: seq<EventItem>, m: map<string, EventItem>): set<string>
  {
    set o | o in stored && StillListed(m)(o) :: CalId(o)
  }

  function NotSeen(seen: set<string>): EventItem -> bool
  {
    e => FromCalendar(e) && CalId(e) !in seen
  }

  /** Fetched calendar events whose id was not matched, duplicates included. */
  function NewEvents(fetched: seq<EventItem>, seen: set<string>): seq<EventItem>
  {
    Filter(fetched, NotSeen(seen))
  }

  /** Manual events, then updated ones, then new ones, before sorting. */
  function Merged(stored: seq<EventItem>, fetched: seq<EventItem>): seq<EventItem>
  {
    var m := LookupMap(fetched);
    Filter(stored, IsManual) + Updated(stored, m) + NewEvents(fetched, Seen(stored, m))
  }

  function StartOrder(ts: string -> int): (EventItem, EventItem) -> bool
  {
    ByKey((e: EventItem) => ts(e.startsAt))
  }

  datatype SyncStats = SyncStats(total: nat, fromCalendar: nat, manual: nat, added: nat, updated: nat, removed: int, synced: nat)

  datatype Reconciled = Reconciled(events: seq<EventItem>, stats: SyncStats)

  /** The merge and its statistics. */
  function Reconcile(stored: seq<EventItem>, fetched: seq<EventItem>, ts: string -> int): (r: Reconciled)
    ensures multiset(r.events) == multiset(Merged(stored, fetched))
    ensures forall i, j :: 0 <= i < j < |r.events| ==> ts(r.events[i].startsAt) <= ts(r.events[j].startsAt)
    ensures r.stats.total == |r.events| == r.stats.manual + r.stats.updated + r.stats.added
    ensures r.stats.fromCalendar == r.stats.updated + r.stats.added
    ensures r.stats.synced == |fetched|
    ensures r.stats.manual == |Filter(stored, IsManual)|
    ensures r.stats.updated == |Filter(stored, StillListed(LookupMap(fetched)))|
    ensures r.stats.added == |NewEvents(fetched, Seen(stored, LookupMap(fetched)))|
    ensures r.stats.removed == |Filter(stored, Vanished(LookupMap(fetched)))|
  {
    var m := LookupMap(fetched);
    CalendarSplit(stored, m);
    var manual := Filter(stored, IsManual);
    var oldCalendar := Filter(stored, FromCalendar);
    var updated := Updated(stored, m);
    var added := NewEvents(fetched, Seen(stored, m));
    ByKeyTotal((e: EventItem) => ts(e.startsAt));
    var all := Sort(manual + updated + added, StartOrder(ts));
    Reconciled(all, SyncStats(
      total := |all|,
      fromCalendar := |updated| + |added|,
      manual := |manual|,
      added := |added|,
      updated := |updated|,
      removed := |oldCalendar| - |updated|,
      synced := |fetched|))
  }

  /** Sorting only reorders: an event is in the output exactly when it is in the merge. */
  lemma InOutput(stored: seq<EventItem>, fetched: seq<EventItem>, ts: string -> int, u: EventItem)
    ensures u in Reconcile(stored, fetched, ts).events <==> u in Merged(stored, fetched)
  {
    var out := Reconcile(stored, fetched, ts).events;
    assert u in out <==> u in multiset(out);
  }

  /** Manual events (falsy `calendarEventId`) come through unchanged, with their multiplicities. */
  lemma ManualEventsKept(stored: seq<EventItem>, fetched: seq<EventItem>, ts: string -> int)
    ensures multiset(Filter(Reconcile(stored, fetched, ts).events, IsManual)) == multiset(Filter(stored, IsManual))
  {
    var m := LookupMap(fetched);
    var manual := Filter(stored, IsManual);
    var upd := Updated(stored, m);
    var added := NewEvents(fetched, Seen(stored, m));
    ManualOfMerged(manual, upd, added);
    FilterPermutation(Reconcile(stored, fetched, ts).events, Merged(stored, fetched), IsManual);
  }

  lemma ManualOfMerged(manual: seq<EventItem>, upd: seq<EventItem>, added: seq<EventItem>)
    requires forall i :: 0 <= i < |manual| ==> IsManual(manual[i])
    requires forall i :: 0 <= i < |upd| ==> FromCalendar(upd[i])
    requires forall x :: x in added ==> FromCalendar(x)
    ensures Filter(manual + upd + added, IsManual) == manual
  {
    FilterConcat(manual + upd, added, IsManual);
    FilterConcat(manual, upd, IsManual);
    FilterKeepsAll(manual, IsManual);
    FilterNone(upd, IsManual);
    FilterNone(added, IsManual);
  }

  /** The matching id is the same whatever fallback is given, once some stored event carries it. */
  lemma {:induction false} LastIdIgnoresNone(stored: seq<EventItem>, c: string, none1: string, none2: string)
    requires exists e :: e in stored && FromCalendar(e) && CalId(e) == c
    ensures LastIdFor(stored, c, none1) == LastIdFor(stored, c, none2)
  {
    var last := stored[|stored| - 1];
    var init := stored[..|stored| - 1];
    assert stored == init + [last];
    if !(FromCalendar(last) && CalId(last) == c) {
      var e :| e in stored && FromCalendar(e) && CalId(e) == c;
      assert e in init;
      LastIdIgnoresNone(init, c, none1, none2);
    }
  }

  /** A still-listed stored calendar event is replaced by the fetched record carrying the preserved id. */
  lemma CalendarEventRefreshed(stored: seq<EventItem>, fetched: seq<EventItem>, ts: string -> int, o: EventItem)
    requires o in stored && StillListed(LookupMap(fetched))(o)
    ensures Refresh(LookupMap(fetched), stored, o) in Reconcile(stored, fetched, ts).events
  {
    var m := LookupMap(fetched);
    var kept := Filter(stored, StillListed(m));
    var upd := Updated(stored, m);
    assert o in kept;
    var k :| 0 <= k < |kept| && kept[k] == o;
    assert upd[k] == Refresh(m, stored, o);
    InOutput(stored, fetched, ts, Refresh(m, stored, o));
  }

  /** With distinct stored calendar ids, a still-listed event keeps exactly its own internal id. */
  lemma IdentityContinuity(stored: seq<EventItem>, fetched: seq<EventItem>, ts: string -> int, o: EventItem)
    requires DistinctCalendarIds(stored) && o in stored && FromCalendar(o) && CalId(o) in LookupMap(fetched)
    ensures LookupMap(fetched)[CalId(o)].(id := o.id) in Reconcile(stored, fetched, ts).events
  {
    CalendarEventRefreshed(stored, fetched, ts, o);
    LastIdDistinct(stored, o, o.id);
  }

  /**
   * Two stored events with the same calendar id both become the same record:
   * the fetched event carrying the id of the last of them.
   */
  lemma AliasedRefresh(stored: seq<EventItem>, fetched: seq<EventItem>, o1: EventItem, o2: EventItem)
    requires o1 in stored && o2 in stored
    requires StillListed(LookupMap(fetched))(o1) && StillListed(LookupMap(fetched))(o2) && CalId(o1) == CalId(o2)
    ensures Refresh(LookupMap(fetched), stored, o1) == Refresh(LookupMap(fetched), stored, o2)
  {
    LastIdIgnoresNone(stored, CalId(o1), o1.id, o2.id);
  }

  /** Every calendar event in the output carries an id that the calendar still lists. */
  lemma OnlyListedIds(stored: seq<EventItem>, fetched: seq<EventItem>, ts: string -> int, u: EventItem)
    requires u in Reconcile(stored, fetched, ts).events && FromCalendar(u)
    ensures CalId(u) in LookupMap(fetched)
  {
    var m := LookupMap(fetched);
    InOutput(stored, fetched, ts, u);
    var upd := Updated(stored, m);
    if u in upd {
      var i :| 0 <= i < |upd| && upd[i] == u;
    }
  }

  /** A stored calendar event whose id the calendar no longer lists is gone from the output. */
  lemma VanishedDropped(stored: seq<EventItem>, fetched: seq<EventItem>, ts: string -> int, o: EventItem)
    requires o in stored && Vanished(LookupMap(fetched))(o)
    ensures o !in Reconcile(stored, fetched, ts).events
  {
    if o in Reconcile(stored, fetched, ts).events {
      OnlyListedIds(stored, fetched, ts, o);
    }
  }

  /** A fetched calendar event whose id no stored event carries is appended, duplicates included. */
  lemma NewEventAppended(stored: seq<EventItem>, fetched: seq<EventItem>, ts: string -> int, e: EventItem)
    requires e in fetched && FromCalendar(e)
    requires forall o :: o in stored && FromCalendar(o) ==> CalId(o) != CalId(e)
    ensures e in Reconcile(stored, fetched, ts).events
  {
    var m := LookupMap(fetched);
    assert CalId(e) !in Seen(stored, m);
    assert e in NewEvents(fetched, Seen(stored, m));
    InOutput(stored, fetched, ts, e);
  }

  /** Every calendar id in the fetched list is represented in the merge. */
  lemma FetchedIdsCovered(stored: seq<EventItem>, fetched: seq<EventItem>, e: EventItem)
    requires e in fetched && FromCalendar(e)
    ensures exists u :: u in Merged(stored, fetched) && FromCalendar(u) && CalId(u) == CalId(e)
  {
    var m := LookupMap(fetched);
    var seen := Seen(stored, m);
    if CalId(e) in seen {
      var o :| o in stored && StillListed(m)(o) && CalId(o) == CalId(e);
      var kept := Filter(stored, StillListed(m));
      assert o in kept;
      var k :| 0 <= k < |kept| && kept[k] == o;
      assert Updated(stored, m)[k] == Refresh(m, stored, o);
      assert Refresh(m, stored, o) in Merged(stored, fetched);
    } else {
      assert e in NewEvents(fetched, seen);
      assert e in Merged(stored, fetched);
    }
  }

  lemma {:induction false} CalendarSplit(s: seq<EventItem>, m: map<string, EventItem>)
    ensures |Filter(s, FromCalendar)| == |Filter(s, StillListed(m))| + |Filter(s, Vanished(m))|
  {
    if s != [] {
      CalendarSplit(s[1..], m);
    }
  }

  /** `removed` counts exactly the stored calendar events whose id the calendar no longer lists. */
  lemma RemovedCount(stored: seq<EventItem>, fetched: seq<EventItem>, ts: string -> int)
    ensures Reconcile(stored, fetched, ts).stats.removed == |Filter(stored, Vanished(LookupMap(fetched)))|
  {
    CalendarSplit(stored, LookupMap(fetched));
  }

  /** Every calendar event of `s` is its lookup record up to the internal id. */
  predicate Canonical(s: seq<EventItem>, m: map<string, EventItem>)
  {
    forall u :: u in s && FromCalendar(u) ==> CalId(u) in m && u == m[CalId(u)].(id := u.id)
  }

  /** Calendar events of `s` that share a calendar id are identical. */
  predicate Uniform(s: seq<EventItem>)
  {
    forall u, v :: u in s && v in s && FromCalendar(u) && FromCalendar(v) && CalId(u) == CalId(v) ==> u == v
  }

  /** Every updated record is the fetched record under the id kept for its calendar id. */
  lemma UpdatedCanonical(stored: seq<EventItem>, m: map<string, EventItem>)
    requires WellKeyed(m)
    ensures forall u :: u in Updated(stored, m) ==>
      FromCalendar(u) && CalId(u) in m && CalId(u) in Seen(stored, m) && u == m[CalId(u)].(id := LastIdFor(stored, CalId(u), ""))
  {
    var kept := Filter(stored, StillListed(m));
    var upd := Updated(stored, m);
    forall u | u in upd
      ensures FromCalendar(u) && CalId(u) in m && CalId(u) in Seen(stored, m)
      ensures u == m[CalId(u)].(id := LastIdFor(stored, CalId(u), ""))
    {
      var k :| 0 <= k < |upd| && upd[k] == u;
      var o := kept[k];
      assert o in stored;
      assert u == Refresh(m, stored, o);
      LastIdIgnoresNone(stored, CalId(o), o.id, "");
    }
  }

  /** With distinct fetched ids, every new event is the record the lookup map holds for its id. */
  lemma AddedCanonical(fetched: seq<EventItem>, seen: set<string>)
    requires DistinctCalendarIds(fetched)
    ensures forall u :: u in NewEvents(fetched, seen) ==>
      FromCalendar(u) && CalId(u) !in seen && CalId(u) in LookupMap(fetched) && LookupMap(fetched)[CalId(u)] == u
  {
    forall u | u in NewEvents(fetched, seen)
      ensures FromCalendar(u) && CalId(u) !in seen && CalId(u) in LookupMap(fetched) && LookupMap(fetched)[CalId(u)] == u
    {
      LookupDistinct(fetched, u);
    }
  }

  lemma MergedCanonical(stored: seq<EventItem>, fetched: seq<EventItem>)
    requires DistinctCalendarIds(fetched)
    ensures Canonical(Merged(stored, fetched), LookupMap(fetched))
    ensures Uniform(Merged(stored, fetched))
  {
    var m := LookupMap(fetched);
    var manual := Filter(stored, IsManual);
    var upd := Updated(stored, m);
    var seen := Seen(stored, m);
    var added := NewEvents(fetched, seen);
    var merged := Merged(stored, fetched);
    assert merged == manual + upd + added;
    UpdatedCanonical(stored, m);
    AddedCanonical(fetched, seen);
    assert forall u :: u in merged && FromCalendar(u) ==> u in upd || u in added;
  }

  /** Reconciling a canonical, covering list against the same fetch changes nothing but the order. */
  lemma ReconcileFixpoint(out: seq<EventItem>, fetched: seq<EventItem>)
    requires Canonical(out, LookupMap(fetched)) && Uniform(out)
    requires forall e :: e in fetched && FromCalendar(e) ==> exists u :: u in out && FromCalendar(u) && CalId(u) == CalId(e)
    ensures Updated(out, LookupMap(fetched)) == Filter(out, FromCalendar)
    ensures NewEvents(fetched, Seen(out, LookupMap(fetched))) == []
    ensures multiset(Merged(out, fetched)) == multiset(out)
  {
    var m := LookupMap(fetched);
    var kept := Filter(out, StillListed(m));
    var upd := Updated(out, m);
    forall i | 0 <= i < |kept|
      ensures upd[i] == kept[i]
    {
      var o := kept[i];
      LastIdUniform(out, CalId(o), o.id, o.id);
    }
    assert upd == kept;
    FilterAgree(out, StillListed(m), FromCalendar);
    var seen := Seen(out, m);
    forall e | e in fetched
      ensures !NotSeen(seen)(e)
    {
      if FromCalendar(e) {
        var u :| u in out && FromCalendar(u) && CalId(u) == CalId(e);
        assert CalId(u) in seen;
      }
    }
    FilterNone(fetched, NotSeen(seen));
    FilterPartition(out, IsManual, FromCalendar);
  }

  /**
   * Sorting the manual events of a sync result followed by its calendar
   * events gives the result back: both the merge and the sort keep every
   * group of events with equal start times in the same order.
   */
  lemma ResortOutput(stored: seq<EventItem>, fetched: seq<EventItem>, ts: string -> int)
    ensures TotalPreorder(StartOrder(ts))
    ensures var out := Reconcile(stored, fetched, ts).events;
      Sort(Filter(out, IsManual) + Filter(out, FromCalendar), StartOrder(ts)) == out
  {
    var m := LookupMap(fetched);
    var le := StartOrder(ts);
    ByKeyTotal((e: EventItem) => ts(e.startsAt));
    var a := Filter(stored, IsManual);
    var b := Updated(stored, m) + NewEvents(fetched, Seen(stored, m));
    var out := ReconcileSides(stored, fetched, ts);
    forall c
      ensures Filter(Filter(out, FromCalendar), Tied(le, c)) == Filter(b, Tied(le, c))
    {
      SortStable(a + b, le, c);
      FilterSideRight(out, a, b, FromCalendar, Tied(le, c));
    }
    ResortSides(a, b, Filter(out, FromCalendar), IsManual, le);
  }

  /** The sync result is the sort of the manual events followed by the calendar ones, all of which come from the calendar. */
  lemma ReconcileSides(stored: seq<EventItem>, fetched: seq<EventItem>, ts: string -> int) returns (out: seq<EventItem>)
    ensures TotalPreorder(StartOrder(ts))
    ensures var m := LookupMap(fetched);
      var b := Updated(stored, m) + NewEvents(fetched, Seen(stored, m));
      out == Reconcile(stored, fetched, ts).events && out == Sort(Filter(stored, IsManual) + b, StartOrder(ts)) &&
      forall x :: x in b ==> FromCalendar(x)
  {
    var m := LookupMap(fetched);
    ByKeyTotal((e: EventItem) => ts(e.startsAt));
    var a := Filter(stored, IsManual);
    var upd := Updated(stored, m);
    var added := NewEvents(fetched, Seen(stored, m));
    assert a + upd + added == a + (upd + added);
    out := Reconcile(stored, fetched, ts).events;
    forall x | x in upd + added
      ensures FromCalendar(x)
    {
      if x in upd {
        var i :| 0 <= i < |upd| && upd[i] == x;
      }
    }
  }

  /**
   * Re-running the sync on its own output with the same calendar listing
   * (distinct calendar ids) gives back the identical list, with the same
   * internal ids in the same order, and reports nothing new and nothing removed.
   */
  lemma ReconcileIdempotent(stored: seq<EventItem>, fetched: seq<EventItem>, ts: string -> int)
    requires DistinctCalendarIds(fetched)
    ensures var out := Reconcile(stored, fetched, ts).events;
      var again := Reconcile(out, fetched, ts);
      again.events == out && again.stats.added == 0 && again.stats.removed == 0
  {
    var m := LookupMap(fetched);
    var out := Reconcile(stored, fetched, ts).events;
    var merged := Merged(stored, fetched);
    MergedCanonical(stored, fetched);
    forall u | u in out
      ensures u in merged
    {
      InOutput(stored, fetched, ts, u);
    }
    forall e | e in fetched && FromCalendar(e)
      ensures exists u :: u in out && FromCalendar(u) && CalId(u) == CalId(e)
    {
      FetchedIdsCovered(stored, fetched, e);
      var u :| u in merged && FromCalendar(u) && CalId(u) == CalId(e);
      InOutput(stored, fetched, ts, u);
    }
    ReconcileFixpoint(out, fetched);
    ResortOutput(stored, fetched, ts);
    assert Filter(out, IsManual) + Updated(out, m) + NewEvents(fetched, Seen(out, m))
        == Filter(out, IsManual) + Filter(out, FromCalendar);
  }
}
