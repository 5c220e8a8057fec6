/** Sequence helpers shared by the list pipelines: filtering, de-duplication, JavaScript `slice`. */
module Seqs {
  import opened Wrappers


  /** `Array.prototype.filter`: keeps the elements satisfying `p`, in order. */
  function Filter<T>(s: seq<T>, p: T -> bool): (r: seq<T>)
    ensures |r| <= |s|
    ensures forall x :: x in r ==> x in s && p(x)
    ensures forall i :: 0 <= i < |s| && p(s[i]) ==> s[i] in r
  {
    if s == [] then [] else (if p(s[0]) then [s[0]] else []) + Filter(s[1..], p)
  }

  /** Filtering keeps exactly the copies of the elements that satisfy `p`. */
  lemma {:induction false} FilterCount<T>(s: seq<T>, p: T -> bool, x: T)
    ensures multiset(Filter(s, p))[x] == if p(x) then multiset(s)[x] else 0
  {
    if s != [] {
      FilterCount(s[1..], p, x);
      assert s == [s[0]] + s[1..];
    }
  }

  /** Filtering a permutation yields a permutation of the filtered original. */
  lemma FilterPermutation<T(!new)>(a: seq<T>, b: seq<T>, p: T -> bool)
    requires multiset(a) == multiset(b)
    ensures multiset(Filter(a, p)) == multiset(Filter(b, p))
  {
    forall x: T
      ensures multiset(Filter(a, p))[x] == multiset(Filter(b, p))[x]
    {
      FilterCount(a, p, x);
      FilterCount(b, p, x);
    }
  }

  /** The elements kept by `p` and those rejected by it together make up the input. */
  lemma FilterPartition<T(!new)>(s: seq<T>, p: T -> bool, q: T -> bool)
    requires forall x :: q(x) == !p(x)
    ensures multiset(Filter(s, p)) + multiset(Filter(s, q)) == multiset(s)
  {
    forall x: T
      ensures (multiset(Filter(s, p)) + multiset(Filter(s, q)))[x] == multiset(s)[x]
    {
      FilterCount(s, p, x);
      FilterCount(s, q, x);
    }
  }

  /** Filtering distributes over concatenation, so it never reorders what it keeps. */
  lemma {:induction false} FilterConcat<T>(a: seq<T>, b: seq<T>, p: T -> bool)
    ensures Filter(a + b, p) == Filter(a, p) + Filter(b, p)
  {
    if a != [] {
      assert (a + b)[0] == a[0];
      assert (a + b)[1..] == a[1..] + b;
      FilterConcat(a[1..], b, p);
      var h := if p(a[0]) then [a[0]] else [];
      calc {
        Filter(a + b, p);
        { assert a + b != []; }
        h + Filter(a[1..] + b, p);
        h + (Filter(a[1..], p) + Filter(b, p));
        (h + Filter(a[1..], p)) + Filter(b, p);
      }
    } else {
      assert a + b == b;
    }
  }

  /** Two filters can be applied in either order. */
  lemma {:induction false} FilterCommute<T>(s: seq<T>, p: T -> bool, q: T -> bool)
    ensures Filter(Filter(s, p), q) == Filter(Filter(s, q), p)
  {
    if s != [] {
      FilterCommute(s[1..], p, q);
      var hp := if p(s[0]) then [s[0]] else [];
      var hq := if q(s[0]) then [s[0]] else [];
      FilterConcat(hp, Filter(s[1..], p), q);
      FilterConcat(hq, Filter(s[1..], q), p);
      assert Filter(hp, q) == Filter(hq, p);
    }
  }

  /**
   * When `x` has the `t`-part of `a + b`, with `a` all `p` and `b` none,
   * the `p`-part of `x` has the `t`-part of `a`.
   */
  lemma FilterSide<T>(x: seq<T>, a: seq<T>, b: seq<T>, p: T -> bool, t: T -> bool)
    requires Filter(x, t) == Filter(a + b, t)
    requires forall y :: y in a ==> p(y)
    requires forall y :: y in b ==> !p(y)
    ensures Filter(Filter(x, p), t) == Filter(a, t)
  {
    calc {
      Filter(Filter(x, p), t);
      { FilterCommute(x, p, t); }
      Filter(Filter(a + b, t), p);
      { FilterCommute(a + b, t, p); }
      Filter(Filter(a + b, p), t);
      { FilterConcat(a, b, p); FilterKeepsAll(a, p); FilterNone(b, p); assert a + [] == a; }
      Filter(a, t);
    }
  }

  /** The mirror of `FilterSide`: the `q`-part of `x` has the `t`-part of `b` when `b` is all `q` and `a` none. */
  lemma FilterSideRight<T>(x: seq<T>, a: seq<T>, b: seq<T>, q: T -> bool, t: T -> bool)
    requires Filter(x, t) == Filter(a + b, t)
    requires forall y :: y in a ==> !q(y)
    requires forall y :: y in b ==> q(y)
    ensures Filter(Filter(x, q), t) == Filter(b, t)
  {
    calc {
      Filter(Filter(x, q), t);
      { FilterCommute(x, q, t); }
      Filter(Filter(a + b, t), q);
      { FilterCommute(a + b, t, q); }
      Filter(Filter(a + b, q), t);
      { FilterConcat(a, b, q); FilterNone(a, q); FilterKeepsAll(b, q); assert [] + b == b; }
      Filter(b, t);
    }
  }

  /** A filter every element passes returns its input unchanged. */
  lemma {:induction false} FilterKeepsAll<T>(s: seq<T>, p: T -> bool)
    requires forall i :: 0 <= i < |s| ==> p(s[i])
    ensures Filter(s, p) == s
  {
    if s != [] {
      FilterKeepsAll(s[1..], p);
    }
  }

  /** The head of a non-empty filter is the first element that passes it. */
  lemma {:induction false} FilterHead<T>(s: seq<T>, p: T -> bool)
    requires Filter(s, p) != []
    ensures exists i :: (0 <= i < |s| && s[i] == Filter(s, p)[0] && p(s[i]) &&
      forall k :: 0 <= k < i ==> !p(s[k]))
  {
    if p(s[0]) {
      assert s[0] == Filter(s, p)[0];
    } else {
      assert Filter(s, p) == Filter(s[1..], p);
      FilterHead(s[1..], p);
      var i :| 0 <= i < |s[1..]| && s[1..][i] == Filter(s[1..], p)[0] && p(s[1..][i]) &&
        forall k :: 0 <= k < i ==> !p(s[1..][k]);
      assert s[i + 1] == s[1..][i];
      forall k | 0 <= k < i + 1
        ensures !p(s[k])
      {
        if k > 0 {
          assert s[k] == s[1..][k - 1];
        }
      }
    }
  }

  /** Nothing passes the filter when no element satisfies the predicate. */
  lemma {:induction false} FilterNone<T>(s: seq<T>, p: T -> bool)
    requires forall x :: x in s ==> !p(x)
    ensures Filter(s, p) == []
  {
    if s != [] {
      assert s[0] in s;
      FilterNone(s[1..], p);
    }
  }

  /** Filtering a permutation of `a + b` by a predicate that holds on all of `a` and none of `b` recovers `a`. */
  lemma FilterLeftSide<T(!new)>(out: seq<T>, a: seq<T>, b: seq<T>, p: T -> bool)
    requires multiset(out) == multiset(a + b)
    requires forall x :: x in a ==> p(x)
    requires forall x :: x in b ==> !p(x)
    ensures multiset(Filter(out, p)) == multiset(a)
  {
    FilterPermutation(out, a + b, p);
    FilterConcat(a, b, p);
    FilterKeepsAll(a, p);
    FilterNone(b, p);
    assert a + [] == a;
  }

  /** Filtering by a predicate stronger than an earlier filter's is the same as filtering once. */
  lemma {:induction false} FilterFilter<T>(s: seq<T>, p: T -> bool, q: T -> bool)
    requires forall x :: q(x) ==> p(x)
    ensures Filter(Filter(s, p), q) == Filter(s, q)
  {
    if s != [] {
      FilterFilter(s[1..], p, q);
      var h := if p(s[0]) then [s[0]] else [];
      FilterConcat(h, Filter(s[1..], p), q);
    }
  }

  /** Two predicates that agree on every element select the same subsequence. */
  lemma {:induction false} FilterAgree<T>(s: seq<T>, p: T -> bool, q: T -> bool)
    requires forall i :: 0 <= i < |s| ==> p(s[i]) == q(s[i])
    ensures Filter(s, p) == Filter(s, q)
  {
    if s != [] {
      FilterAgree(s[1..], p, q);
    }
  }

  /** No two positions hold the same value. */
  predicate Distinct<T(==)>(s: seq<T>)
  {
    forall i, j :: 0 <= i < j < |s| ==> s[i] != s[j]
  }

  /** Adding to a JavaScript `Set`: appended unless already present. */
  function AddUnique<T(==)>(s: seq<T>, x: T): (r: seq<T>)
    ensures Distinct(s) ==> Distinct(r)
    ensures x in r
    ensures forall y :: y in s ==> y in r
    ensures forall y :: y in r ==> y in s || y == x
    ensures |s| <= |r| <= |s| + 1
    ensures r[..|s|] == s
  {
    if x in s then s else s + [x]
  }

  /** Adds the elements of `xs` in order, skipping those already present, as successive `Set.add` calls do. */
  function AddAllUnique<T(==)>(acc: seq<T>, xs: seq<T>): (r: seq<T>)
    decreases |xs|
    ensures Distinct(acc) ==> Distinct(r)
    ensures forall y :: y in acc ==> y in r
    ensures forall y :: y in xs ==> y in r
    ensures forall y :: y in r ==> y in acc || y in xs
    ensures |acc| <= |r| <= |acc| + |xs| && r[..|acc|] == acc
  {
    if xs == [] then acc
    else
      var r := AddAllUnique(AddUnique(acc, xs[0]), xs[1..]);
      assert forall y :: y in xs ==> y == xs[0] || y in xs[1..];
      r
  }

  /** Adding elements that are all new and pairwise distinct simply appends them. */
  lemma {:induction false} AddAllFresh<T>(acc: seq<T>, xs: seq<T>)
    requires Distinct(acc + xs)
    decreases |xs|
    ensures AddAllUnique(acc, xs) == acc + xs
  {
    if xs != [] {
      assert (acc + xs)[|acc|] == xs[0];
      assert xs[0] !in acc by {
        forall i | 0 <= i < |acc|
          ensures acc[i] != xs[0]
        {
          assert (acc + xs)[i] == acc[i];
        }
      }
      assert AddUnique(acc, xs[0]) + xs[1..] == acc + xs;
      AddAllFresh(acc + [xs[0]], xs[1..]);
    }
  }

  /** `Array.from(new Set(s))`: the first occurrence of each element, in order. */
  function Unique<T(==)>(s: seq<T>): (r: seq<T>)
    ensures Distinct(r)
    ensures forall y :: y in s ==> y in r
    ensures forall y :: y in r ==> y in s
    ensures |r| <= |s|
  {
    AddAllUnique([], s)
  }

  /** Adding `a + b` is adding `a`, then `b`. */
  lemma {:induction false} AddAllSplit<T>(acc: seq<T>, a: seq<T>, b: seq<T>)
    decreases |a|
    ensures AddAllUnique(acc, a + b) == AddAllUnique(AddAllUnique(acc, a), b)
  {
    if a == [] {
      assert a + b == b;
    } else {
      assert (a + b)[1..] == a[1..] + b;
      AddAllSplit(AddUnique(acc, a[0]), a[1..], b);
    }
  }

  /** De-duplicating a prefix gives a prefix of the de-duplicated whole. */
  lemma UniquePrefix<T>(c: seq<T>, k: nat)
    requires k <= |c|
    ensures |Unique(c[..k])| <= |Unique(c)| && Unique(c)[..|Unique(c[..k])|] == Unique(c[..k])
  {
    assert c == c[..k] + c[k..];
    AddAllSplit([], c[..k], c[k..]);
  }

  /**
   * The first `n` distinct values keep arrival order: when a value first
   * seen after position `k` is among them, so is every value seen before `k`.
   */
  lemma EarlierCandidateKept<T>(c: seq<T>, n: nat, k: nat, x: T, y: T)
    requires k <= |c|
    requires y in c[..k] && x !in c[..k]
    requires x in Take(Unique(c), n)
    ensures y in Take(Unique(c), n)
  {
    var u := Unique(c);
    var pre := Unique(c[..k]);
    UniquePrefix(c, k);
    var t := Take(u, n);
    var m :| 0 <= m < |t| && t[m] == x;
    assert u[m] == x;
    var iy :| 0 <= iy < |pre| && pre[iy] == y;
    assert u[iy] == y;
    assert t[iy] == y;
  }

  /**
   * `Array.from(new Set(c))` lists values in the order of their first
   * occurrence: a value listed before another occurs in `c` before every
   * occurrence of the later one.
   */
  lemma UniqueOrder<T>(c: seq<T>, i: nat, j: nat, k: nat)
    requires i < j < |Unique(c)| && k < |c| && c[k] == Unique(c)[j]
    ensures Unique(c)[i] in c[..k]
  {
    assert c[..k + 1][k] == c[k];
    UniqueEarlierInPrefix(c, k + 1, i, j);
    DistinctAt(Unique(c), i, j);
    InPrefixBefore(c, k, Unique(c)[i]);
  }

  /** The same for the values a filter keeps: they are listed in the order `s` first presents them. */
  lemma UniqueFilterOrder<T>(s: seq<T>, p: T -> bool, i: nat, j: nat, k: nat)
    requires i < j < |Unique(Filter(s, p))| && k < |s|
    requires s[k] == Unique(Filter(s, p))[j]
    ensures Unique(Filter(s, p))[i] in s[..k]
  {
    assert p(s[k]) by {
      assert s[k] in Filter(s, p);
    }
    FilterUpTo(s, p, k);
    UniqueOrder(Filter(s, p), i, j, |Filter(s[..k], p)|);
    KeptIn(s[..k], p, Unique(Filter(s, p))[i]);
  }

  /** Filtering up to a kept element: the filtered prefix, then that element. */
  lemma FilterUpTo<T>(s: seq<T>, p: T -> bool, k: nat)
    requires k < |s| && p(s[k])
    ensures |Filter(s[..k], p)| < |Filter(s, p)|
    ensures Filter(s, p)[|Filter(s[..k], p)|] == s[k]
    ensures Filter(s, p)[..|Filter(s[..k], p)|] == Filter(s[..k], p)
  {
    assert s[..k + 1] == s[..k] + [s[k]];
    FilterSnoc(s[..k], s[k], p);
    FilterPrefix(s, p, k + 1);
    PrefixSnoc(Filter(s, p), Filter(s[..k], p), s[k]);
  }

  /** A prefix ending in `x` after `a`: `x` sits at `|a|`, and `a` is the shorter prefix. */
  lemma PrefixSnoc<T>(f: seq<T>, a: seq<T>, x: T)
    requires |a| + 1 <= |f| && f[..|a| + 1] == a + [x]
    ensures f[|a|] == x && f[..|a|] == a
  {
    assert f[|a|] == f[..|a| + 1][|a|];
    assert f[..|a|] == f[..|a| + 1][..|a|];
  }

  /** Concatenation is associative; stated on its own so that proofs need not rediscover it in a large context. */
  lemma ConcatAssoc<T>(a: seq<T>, b: seq<T>, c: seq<T>)
    ensures a + (b + c) == (a + b) + c
  {
    assert |a + (b + c)| == |(a + b) + c|;
    forall i | 0 <= i < |a + b + c|
      ensures (a + (b + c))[i] == ((a + b) + c)[i]
    {
    }
  }

  /** Filtering past one more kept element appends it. */
  lemma FilterSnoc<T>(a: seq<T>, x: T, p: T -> bool)
    requires p(x)
    ensures Filter(a + [x], p) == Filter(a, p) + [x]
  {
    FilterConcat(a, [x], p);
    assert Filter([x], p) == [x] by {
      assert [x][1..] == [];
    }
  }

  /** What a filter keeps comes from its input. */
  lemma KeptIn<T>(s: seq<T>, p: T -> bool, x: T)
    requires x in Filter(s, p)
    ensures x in s
  {
  }

  /** Distinct positions of a distinct sequence hold different values. */
  lemma DistinctAt<T>(s: seq<T>, i: nat, j: nat)
    requires Distinct(s) && i < j < |s|
    ensures s[i] != s[j]
  {
  }

  /** A value listed by `Unique(c)` before one that occurs in `c[..n]` occurs there too. */
  lemma UniqueEarlierInPrefix<T>(c: seq<T>, n: nat, i: nat, j: nat)
    requires n <= |c| && i < j < |Unique(c)| && Unique(c)[j] in c[..n]
    ensures Unique(c)[i] in c[..n]
  {
    var u := Unique(c);
    var pre := Unique(c[..n]);
    UniquePrefix(c, n);
    var t :| 0 <= t < |pre| && pre[t] == u[j];
    assert u[t] == u[j];
    assert t == j;
    assert u[i] == pre[i];
  }

  /** An element of `s[..k + 1]` other than `s[k]` is in `s[..k]`. */
  lemma InPrefixBefore<T>(s: seq<T>, k: nat, x: T)
    requires k < |s| && x in s[..k + 1] && x != s[k]
    ensures x in s[..k]
  {
    assert s[..k + 1] == s[..k] + [s[k]];
  }

  /** Filtering a prefix gives a prefix of the filtered whole. */
  lemma FilterPrefix<T>(s: seq<T>, p: T -> bool, j: nat)
    requires j <= |s|
    ensures |Filter(s[..j], p)| <= |Filter(s, p)|
    ensures Filter(s, p)[..|Filter(s[..j], p)|] == Filter(s[..j], p)
  {
    assert s == s[..j] + s[j..];
    FilterConcat(s[..j], s[j..], p);
  }

  /**
   * Filtering and then keeping the first `n` distinct values keeps input
   * order: with `s[j]` kept, every earlier `s[i]` passing the filter is kept.
   */
  lemma FirstMatchesKept<T>(s: seq<T>, p: T -> bool, n: nat, i: nat, j: nat)
    requires i < j < |s| && p(s[i])
    requires s[j] !in s[..j]
    requires s[j] in Take(Unique(Filter(s, p)), n)
    ensures s[i] in Take(Unique(Filter(s, p)), n)
  {
    var found := Filter(s, p);
    var before := Filter(s[..j], p);
    FilterPrefix(s, p, j);
    assert s[i] in before by {
      assert s[..j][i] == s[i];
    }
    EarlierCandidateKept(found, n, |before|, s[j], s[i]);
  }

  /** A sequence whose values are all distinct holds each value at most once. */
  lemma {:induction false} DistinctCount<T>(s: seq<T>, x: T)
    requires Distinct(s)
    ensures multiset(s)[x] <= 1
  {
    if s != [] {
      assert s == [s[0]] + s[1..];
      DistinctCount(s[1..], x);
      if s[0] == x {
        assert x !in s[1..];
      }
    }
  }

  /** Two positions holding the same value give that value at least two copies. */
  lemma RepeatedCount<T>(s: seq<T>, i: nat, j: nat)
    requires i < j < |s| && s[i] == s[j]
    ensures multiset(s)[s[i]] >= 2
  {
    assert s == s[..i] + [s[i]] + s[i + 1..j] + [s[j]] + s[j + 1..];
  }

  /** Any rearrangement of a distinct sequence is distinct. */
  lemma DistinctPermutation<T>(a: seq<T>, b: seq<T>)
    requires Distinct(a) && multiset(a) == multiset(b)
    ensures Distinct(b)
  {
    forall i, j | 0 <= i < j < |b|
      ensures b[i] != b[j]
    {
      if b[i] == b[j] {
        RepeatedCount(b, i, j);
        DistinctCount(a, b[i]);
        assert false;
      }
    }
  }

  /** `Array.prototype.slice(start, end)`: negative indices count from the end, all indices are clamped. */
  function Slice<T>(s: seq<T>, start: int, end: int): (r: seq<T>)
    ensures |r| <= |s|
  {
    var a := ClampIndex(start, |s|);
    var b := ClampIndex(end, |s|);
    if a < b then s[a..b] else []
  }

  /** Index normalisation shared by `slice`. */
  function ClampIndex(k: int, len: nat): (r: nat)
    ensures r <= len
    ensures 0 <= k <= len ==> r == k
  {
    if k < 0 then (if len + k < 0 then 0 else len + k) else if k > len then len else k
  }

  /** `slice(0, n)`: the prefix of length min(n, |s|). */
  function Take<T>(s: seq<T>, n: nat): (r: seq<T>)
    ensures |r| == if n < |s| then n else |s|
    ensures r == s[..|r|]
  {
    if n < |s| then s[..n] else s
  }

  /** A prefix keeps distinctness and holds only elements of the whole; a long enough cut is the whole. */
  lemma TakeKeeps<T>(s: seq<T>, n: nat)
    ensures Distinct(s) ==> Distinct(Take(s, n))
    ensures forall x :: x in Take(s, n) ==> x in s
    ensures |s| <= n ==> Take(s, n) == s
  {
    var r := Take(s, n);
    if Distinct(s) {
      forall i, j | 0 <= i < j < |r| ensures r[i] != r[j] {
        assert r[i] == s[i] && r[j] == s[j];
      }
    }
    forall x | x in r ensures x in s {
      var i :| 0 <= i < |r| && r[i] == x;
      assert s[i] == x;
    }
  }

  /** The concatenation of a sequence of sequences (`flatMap`). */
  function Flatten<T>(ss: seq<seq<T>>): (r: seq<T>)
    ensures forall i, x :: 0 <= i < |ss| && x in ss[i] ==> x in r
    ensures forall x :: x in r ==> exists i :: 0 <= i < |ss| && x in ss[i]
  {
    if ss == [] then [] else
      var r := ss[0] + Flatten(ss[1..]);
      assert forall i :: 1 <= i < |ss| ==> ss[i] == ss[1..][i - 1];
      r
  }

  /** The first position in `from..n` where `p` holds: the leftmost match of a scanner. */
  function FirstIndex(n: nat, p: nat -> bool, from: nat): (r: Option<nat>)
    decreases n - from
    ensures r.Some? ==> from <= r.value < n && p(r.value)
    ensures r.Some? ==> forall q :: from <= q < r.value ==> !p(q)
    ensures r.None? ==> forall q :: from <= q < n ==> !p(q)
  {
    if from >= n then None
    else if p(from) then Some(from)
    else FirstIndex(n, p, from + 1)
  }
}
