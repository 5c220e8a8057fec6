/**
 * The sorts the site relies on. `Array.prototype.sort` is stable since ES2019,
 * so every comparator sort is modelled by a stable insertion sort over a
 * "less than or equal" relation that must be a total preorder.
 */
module Sorting {
  import opened Seqs
  import opened Strings

  /** `le` is total and transitive: every comparator used by the site induces one. */
  ghost predicate TotalPreorder<T(!new)>(le: (T, T) -> bool)
  {
    (forall a, b :: le(a, b) || le(b, a)) &&
    (forall a, b, c :: le(a, b) && le(b, c) ==> le(a, c))
  }

  predicate SortedBy<T>(s: seq<T>, le: (T, T) -> bool)
  {
    forall i, j :: 0 <= i < j < |s| ==> le(s[i], s[j])
  }

  /** Inserts `x` before the first element it is `le` to, so equal elements keep their order. */
  function Insert<T>(x: T, s: seq<T>, le: (T, T) -> bool): (r: seq<T>)
    ensures multiset(r) == multiset(s) + multiset{x}
    ensures |r| == |s| + 1
  {
    if s == [] || le(x, s[0]) then [x] + s
    else
      assert s == [s[0]] + s[1..];
      [s[0]] + Insert(x, s[1..], le)
  }

  lemma {:induction false} InsertSorted<T(!new)>(x: T, s: seq<T>, le: (T, T) -> bool)
    requires TotalPreorder(le) && SortedBy(s, le)
    ensures SortedBy(Insert(x, s, le), le)
  {
    if s != [] && !le(x, s[0]) {
      var t := Insert(x, s[1..], le);
      InsertSorted(x, s[1..], le);
      assert le(s[0], x);
      forall y | y in t ensures le(s[0], y) {
        assert y in multiset(t);
        if y != x {
          assert y in multiset(s[1..]);
        }
      }
    }
  }

  /** A stable sort (see `SortStable`): a permutation of `s` that is ordered by `le`. */
  function Sort<T(!new)>(s: seq<T>, le: (T, T) -> bool): (r: seq<T>)
    requires TotalPreorder(le)
    ensures multiset(r) == multiset(s)
    ensures |r| == |s|
    ensures SortedBy(r, le)
  {
    if s == [] then []
    else
      assert s == [s[0]] + s[1..];
      InsertSorted(s[0], Sort(s[1..], le), le);
      Insert(s[0], Sort(s[1..], le), le)
  }

  /** Sorting what is already sorted changes nothing: ties are never reordered. */
  lemma {:induction false} SortSortedIdentity<T(!new)>(s: seq<T>, le: (T, T) -> bool)
    requires TotalPreorder(le) && SortedBy(s, le)
    ensures Sort(s, le) == s
  {
    if s != [] {
      var tail := s[1..];
      SortedTail(s, le);
      SortSortedIdentity(tail, le);
      SortStep(s, le);
      InsertAtHead(s, le);
    }
  }

  /** One step of `Sort`: the head is inserted into the sorted tail. */
  lemma SortStep<T(!new)>(s: seq<T>, le: (T, T) -> bool)
    requires TotalPreorder(le) && s != []
    ensures Sort(s, le) == Insert(s[0], Sort(s[1..], le), le)
  {
  }

  /** The head of a sorted list inserted back into its tail lands in front. */
  lemma InsertAtHead<T>(s: seq<T>, le: (T, T) -> bool)
    requires SortedBy(s, le) && s != []
    ensures Insert(s[0], s[1..], le) == s
  {
    var tail := s[1..];
    if tail != [] {
      assert le(s[0], s[1]);
      assert tail[0] == s[1];
    }
    assert [s[0]] + tail == s;
  }

  /** The elements `le` cannot tell apart from `c`: the tie group of `c`. */
  function Tied<T>(le: (T, T) -> bool, c: T): T -> bool
  {
    x => le(x, c) && le(c, x)
  }

  /** Inserting `x` adds it at the front of its tie group and leaves every tie group otherwise as it was. */
  lemma {:induction false} InsertTied<T(!new)>(x: T, s: seq<T>, le: (T, T) -> bool, c: T)
    requires TotalPreorder(le)
    ensures Filter(Insert(x, s, le), Tied(le, c)) == (if Tied(le, c)(x) then [x] else []) + Filter(s, Tied(le, c))
  {
    if s == [] || le(x, s[0]) {
      assert Insert(x, s, le) == [x] + s;
      FilterCons(x, s, Tied(le, c));
    } else {
      InsertTied(x, s[1..], le, c);
      assert !(Tied(le, c)(x) && Tied(le, c)(s[0])) by {
        if Tied(le, c)(x) && Tied(le, c)(s[0]) {
          TransitiveStep(le, x, c, s[0]);
        }
      }
      InsertPast(x, s, le, c);
    }
  }

  /** One filtering step over a list with a given head. */
  lemma FilterCons<T>(x: T, s: seq<T>, t: T -> bool)
    ensures Filter([x] + s, t) == (if t(x) then [x] else []) + Filter(s, t)
  {
    var r := [x] + s;
    assert r[0] == x && r[1..] == s;
  }

  /** `x` goes past a head it is not `le` to and that lies outside `x`'s tie group. */
  lemma InsertPast<T>(x: T, s: seq<T>, le: (T, T) -> bool, c: T)
    requires s != [] && !le(x, s[0]) && !(Tied(le, c)(x) && Tied(le, c)(s[0]))
    requires Filter(Insert(x, s[1..], le), Tied(le, c)) == (if Tied(le, c)(x) then [x] else []) + Filter(s[1..], Tied(le, c))
    ensures Filter(Insert(x, s, le), Tied(le, c)) == (if Tied(le, c)(x) then [x] else []) + Filter(s, Tied(le, c))
  {
    var t := Tied(le, c);
    var rest := Insert(x, s[1..], le);
    var hx := if t(x) then [x] else [];
    var h0 := if t(s[0]) then [s[0]] else [];
    var tail := Filter(s[1..], t);
    calc {
      Filter(Insert(x, s, le), t);
      { assert Insert(x, s, le) == [s[0]] + rest; }
      Filter([s[0]] + rest, t);
      { FilterCons(s[0], rest, t); }
      h0 + (hx + tail);
      { assert hx == [] || h0 == []; }
      hx + (h0 + tail);
      { FilterHeadStep(s, t); }
      hx + Filter(s, t);
    }
  }

  /** Filtering a non-empty list is the head's contribution followed by the filtered tail. */
  lemma FilterHeadStep<T>(s: seq<T>, t: T -> bool)
    requires s != []
    ensures Filter(s, t) == (if t(s[0]) then [s[0]] else []) + Filter(s[1..], t)
  {
  }

  lemma TransitiveStep<T(!new)>(le: (T, T) -> bool, a: T, b: T, c: T)
    requires TotalPreorder(le) && le(a, b) && le(b, c)
    ensures le(a, c)
  {
  }

  /**
   * `Sort` is stable: within each tie group the elements come out in the
   * order they went in.
   */
  lemma {:induction false} SortStable<T(!new)>(s: seq<T>, le: (T, T) -> bool, c: T)
    requires TotalPreorder(le)
    ensures Filter(Sort(s, le), Tied(le, c)) == Filter(s, Tied(le, c))
  {
    if s != [] {
      SortStable(s[1..], le, c);
      InsertTied(s[0], Sort(s[1..], le), le, c);
    }
  }

  /** The first element of a sorted list is tied with the first of any sorted list holding the same tie groups. */
  lemma HeadsTied<T(!new)>(a: seq<T>, b: seq<T>, le: (T, T) -> bool)
    requires TotalPreorder(le) && SortedBy(a, le) && SortedBy(b, le) && a != [] && b != []
    requires Filter(a, Tied(le, b[0])) == Filter(b, Tied(le, b[0]))
    requires Filter(a, Tied(le, a[0])) == Filter(b, Tied(le, a[0]))
    ensures Tied(le, a[0])(b[0])
  {
    var y := Filter(b, Tied(le, a[0]))[0];
    var j :| 0 <= j < |b| && b[j] == y;
    assert le(b[0], b[j]) by {
      if j > 0 {
        assert le(b[0], b[j]);
      }
    }
    var z := Filter(a, Tied(le, b[0]))[0];
    var i :| 0 <= i < |a| && a[i] == z;
    assert le(a[0], a[i]) by {
      if i > 0 {
        assert le(a[0], a[i]);
      }
    }
  }

  /** Two sorted lists with the same elements in every tie group, in the same order, are equal. */
  lemma {:induction false} SortedTiesDetermine<T(!new)>(a: seq<T>, b: seq<T>, le: (T, T) -> bool)
    requires TotalPreorder(le) && SortedBy(a, le) && SortedBy(b, le)
    requires forall c :: Filter(a, Tied(le, c)) == Filter(b, Tied(le, c))
    ensures a == b
  {
    if a == [] || b == [] {
      EmptyTies(a, b, le);
    } else {
      assert Filter(a, Tied(le, b[0])) == Filter(b, Tied(le, b[0]));
      assert Filter(a, Tied(le, a[0])) == Filter(b, Tied(le, a[0]));
      HeadsTied(a, b, le);
      HeadsEqual(a, b, le);
      forall c
        ensures Filter(a[1..], Tied(le, c)) == Filter(b[1..], Tied(le, c))
      {
        TailFilter(a, b, Tied(le, c));
      }
      SortedTail(a, le);
      SortedTail(b, le);
      SortedTiesDetermine(a[1..], b[1..], le);
      assert a == [a[0]] + a[1..] && b == [b[0]] + b[1..];
    }
  }

  /** Only the empty list has the empty list's tie groups. */
  lemma EmptyTies<T>(a: seq<T>, b: seq<T>, le: (T, T) -> bool)
    requires a == [] || b == []
    requires forall c :: Filter(a, Tied(le, c)) == Filter(b, Tied(le, c))
    requires forall x :: le(x, x)
    ensures a == b
  {
    if a != [] {
      HeadInOwnGroup(a, le);
      assert false;
    } else if b != [] {
      HeadInOwnGroup(b, le);
      assert false;
    }
  }

  /** A non-empty list's head belongs to its own tie group. */
  lemma HeadInOwnGroup<T>(s: seq<T>, le: (T, T) -> bool)
    requires s != [] && le(s[0], s[0])
    ensures Filter(s, Tied(le, s[0])) != []
  {
    assert Tied(le, s[0])(s[0]);
  }

  /** Tied heads of lists with the same head tie group are equal. */
  lemma HeadsEqual<T>(a: seq<T>, b: seq<T>, le: (T, T) -> bool)
    requires a != [] && b != [] && Tied(le, a[0])(b[0]) && le(a[0], a[0])
    requires Filter(a, Tied(le, a[0])) == Filter(b, Tied(le, a[0]))
    ensures a[0] == b[0]
  {
    var t0 := Tied(le, a[0]);
    assert t0(a[0]) && t0(b[0]);
    FilterKeptHead(a, t0);
    FilterKeptHead(b, t0);
  }

  /** A head that passes the filter is the first element kept. */
  lemma FilterKeptHead<T>(s: seq<T>, t: T -> bool)
    requires s != [] && t(s[0])
    ensures Filter(s, t) != [] && Filter(s, t)[0] == s[0]
  {
    FilterHeadStep(s, t);
  }

  /** Equal heads and equal filtered lists give equal filtered tails. */
  lemma TailFilter<T>(a: seq<T>, b: seq<T>, t: T -> bool)
    requires a != [] && b != [] && a[0] == b[0]
    requires Filter(a, t) == Filter(b, t)
    ensures Filter(a[1..], t) == Filter(b[1..], t)
  {
    var h := if t(a[0]) then [a[0]] else [];
    FilterDrop(a, t);
    FilterDrop(b, t);
  }

  /** Filtering the tail drops the head's contribution from the front. */
  lemma FilterDrop<T>(a: seq<T>, t: T -> bool)
    requires a != []
    ensures var h := if t(a[0]) then 1 else 0;
      h <= |Filter(a, t)| && Filter(a[1..], t) == Filter(a, t)[h..]
  {
    var h := if t(a[0]) then [a[0]] else [];
    assert Filter(a, t) == h + Filter(a[1..], t);
    assert (h + Filter(a[1..], t))[|h|..] == Filter(a[1..], t);
  }

  lemma SortedTail<T>(a: seq<T>, le: (T, T) -> bool)
    requires SortedBy(a, le) && a != []
    ensures SortedBy(a[1..], le)
  {
    var a' := a[1..];
    forall i, j | 0 <= i < j < |a'| ensures le(a'[i], a'[j]) {
      assert a'[i] == a[i + 1] && a'[j] == a[j + 1];
    }
  }

  /** Inputs that agree on the order within every tie group sort to the same list. */
  lemma SortByTies<T(!new)>(a: seq<T>, b: seq<T>, le: (T, T) -> bool)
    requires TotalPreorder(le)
    requires forall c :: Filter(a, Tied(le, c)) == Filter(b, Tied(le, c))
    ensures Sort(a, le) == Sort(b, le)
  {
    forall c
      ensures Filter(Sort(a, le), Tied(le, c)) == Filter(Sort(b, le), Tied(le, c))
    {
      SortStable(a, le, c);
      SortStable(b, le, c);
    }
    SortedTiesDetermine(Sort(a, le), Sort(b, le), le);
  }

  /**
   * Sorting `a + b`, then splitting the result back into the `a` side and
   * another list holding `b`'s tie groups in `b`'s order, and sorting again,
   * gives the first result back.
   */
  lemma ResortSides<T(!new)>(a: seq<T>, b: seq<T>, b2: seq<T>, p: T -> bool, le: (T, T) -> bool)
    requires TotalPreorder(le)
    requires forall x :: x in a ==> p(x)
    requires forall x :: x in b ==> !p(x)
    requires forall c :: Filter(b2, Tied(le, c)) == Filter(b, Tied(le, c))
    ensures Sort(Filter(Sort(a + b, le), p) + b2, le) == Sort(a + b, le)
  {
    var out := Sort(a + b, le);
    var again := Filter(out, p) + b2;
    forall c
      ensures Filter(again, Tied(le, c)) == Filter(a + b, Tied(le, c))
    {
      var t := Tied(le, c);
      SortStable(a + b, le, c);
      FilterSide(out, a, b, p, t);
      FilterConcat(Filter(out, p), b2, t);
      FilterConcat(a, b, t);
    }
    SortByTies(again, a + b, le);
  }

  /** Ascending by an integer key: `(a, b) => key(a) - key(b)`. */
  function ByKey<T>(key: T -> int): (T, T) -> bool
  {
    (a, b) => key(a) <= key(b)
  }

  /** Descending by an integer key: `(a, b) => key(b) - key(a)`. */
  function ByKeyDesc<T>(key: T -> int): (T, T) -> bool
  {
    (a, b) => key(b) <= key(a)
  }

  lemma ByKeyTotal<T(!new)>(key: T -> int)
    ensures TotalPreorder(ByKey(key)) && TotalPreorder(ByKeyDesc(key))
  {
  }

  /** Ordered by an ascending key means the keys are non-decreasing. */
  lemma SortByKeyAscending<T(!new)>(s: seq<T>, key: T -> int)
    ensures TotalPreorder(ByKey(key))
    ensures var r := Sort(s, ByKey(key));
      forall i, j :: 0 <= i < j < |r| ==> key(r[i]) <= key(r[j])
  {
    ByKeyTotal(key);
  }

  lemma SortByKeyDescending<T(!new)>(s: seq<T>, key: T -> int)
    ensures TotalPreorder(ByKeyDesc(key))
    ensures var r := Sort(s, ByKeyDesc(key));
      forall i, j :: 0 <= i < j < |r| ==> key(r[j]) <= key(r[i])
  {
    ByKeyTotal(key);
  }

  /** Ascending by a real-valued key. */
  function ByRealKey<T>(key: T -> real): (T, T) -> bool
  {
    (a, b) => key(a) <= key(b)
  }

  /** Descending by a real-valued key. */
  function ByRealKeyDesc<T>(key: T -> real): (T, T) -> bool
  {
    (a, b) => key(b) <= key(a)
  }

  lemma ByRealKeyTotal<T(!new)>(key: T -> real)
    ensures TotalPreorder(ByRealKey(key)) && TotalPreorder(ByRealKeyDesc(key))
  {
  }

  /** Comparing by a projection: `(a, b) => le(f(a), f(b))`. */
  function On<T, U>(le: (U, U) -> bool, f: T -> U): (T, T) -> bool
  {
    (a, b) => le(f(a), f(b))
  }

  /** The reverse order: `(a, b) => le(b, a)`, as a comparator with its arguments swapped. */
  function Reversed<T>(le: (T, T) -> bool): (T, T) -> bool
  {
    (a, b) => le(b, a)
  }

  lemma OnTotal<T(!new), U(!new)>(le: (U, U) -> bool, f: T -> U)
    requires TotalPreorder(le)
    ensures TotalPreorder(On(le, f))
  {
    assert forall a, b :: On(le, f)(a, b) == le(f(a), f(b));
  }

  lemma ReversedTotal<T(!new)>(le: (T, T) -> bool)
    requires TotalPreorder(le)
    ensures TotalPreorder(Reversed(le))
  {
    assert forall a, b :: Reversed(le)(a, b) == le(b, a);
  }

  /** `Array.from(set).sort()`: the distinct values in ascending code-point order. */
  function SortedDistinct(s: seq<string>): (r: seq<string>)
    ensures Distinct(r) && SortedBy(r, StrLe)
    ensures forall x :: x in r <==> x in s
  {
    StrLeOrder();
    var u := Unique(s);
    var r := Sort(u, StrLe);
    DistinctPermutation(u, r);
    assert forall x :: x in r <==> x in multiset(u);
    r
  }

  lemma StrLeOrder()
    ensures TotalPreorder(StrLe)
  {
    forall a, b ensures StrLe(a, b) || StrLe(b, a) { StrLeTotal(a, b); }
    forall a, b, c | StrLe(a, b) && StrLe(b, c) ensures StrLe(a, c) { StrLeTransitive(a, b, c); }
  }
}
