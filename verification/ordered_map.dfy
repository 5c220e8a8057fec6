/**
 * A JavaScript `Map`: key/value pairs in insertion order, each key once.
 * Setting an existing key replaces its value in place; a new key goes last.
 */
module OrderedMap {
  import opened Wrappers
  import opened Seqs

  type OMap<K, V> = seq<(K, V)>

  function Keys<K, V>(m: OMap<K, V>): (r: seq<K>)
    ensures |r| == |m| && forall i :: 0 <= i < |m| ==> r[i] == m[i].0
  {
    seq(|m|, i requires 0 <= i < |m| => m[i].0)
  }

  predicate WellFormed<K(==), V>(m: OMap<K, V>)
  {
    Distinct(Keys(m))
  }

  /** `map.get(k)`. */
  function Get<K(==), V>(m: OMap<K, V>, k: K): (r: Option<V>)
    ensures r.None? <==> k !in Keys(m)
    ensures r.Some? ==> exists i :: 0 <= i < |m| && m[i] == (k, r.value)
  {
    if m == [] then None
    else if m[0].0 == k then Some(m[0].1)
    else
      var r := Get(m[1..], k);
      assert Keys(m) == [m[0].0] + Keys(m[1..]);
      assert r.Some? ==> exists i :: 0 <= i < |m[1..]| && m[1..][i] == (k, r.value);
      r
  }

  /** `map.set(k, v)`. */
  function Put<K(==), V>(m: OMap<K, V>, k: K, v: V): (r: OMap<K, V>)
    ensures Keys(r) == if k in Keys(m) then Keys(m) else Keys(m) + [k]
  {
    if m == [] then [(k, v)]
    else if m[0].0 == k then
      KeysCons(m[0], m[1..]);
      KeysCons((k, v), m[1..]);
      [(k, v)] + m[1..]
    else
      var rest := Put(m[1..], k, v);
      KeysCons(m[0], m[1..]);
      KeysCons(m[0], rest);
      [m[0]] + rest
  }

  lemma KeysCons<K, V>(p: (K, V), m: OMap<K, V>)
    ensures Keys([p] + m) == [p.0] + Keys(m)
  {
    var pm := [p] + m;
    var a, b := Keys(pm), [p.0] + Keys(m);
    forall i | 0 <= i < |a| ensures a[i] == b[i] {
      if i > 0 {
        assert pm[i] == m[i - 1];
      }
    }
  }

  /** `set` keeps the keys distinct. */
  lemma PutWellFormed<K, V>(m: OMap<K, V>, k: K, v: V)
    requires WellFormed(m)
    ensures WellFormed(Put(m, k, v))
  {
    var ks := Keys(Put(m, k, v));
    if k !in Keys(m) {
      forall i, j | 0 <= i < j < |ks| ensures ks[i] != ks[j] {
        if j == |ks| - 1 {
          assert ks[i] in Keys(m);
        }
      }
    }
  }

  /** After `set`, the key holds the new value. */
  lemma {:induction false} PutGetSame<K, V>(m: OMap<K, V>, k: K, v: V)
    ensures Get(Put(m, k, v), k) == Some(v)
  {
    if m != [] && m[0].0 != k {
      var rest := Put(m[1..], k, v);
      assert Put(m, k, v) == [m[0]] + rest;
      assert ([m[0]] + rest)[1..] == rest;
      PutGetSame(m[1..], k, v);
    }
  }

  /** `set` leaves every other key's value alone. */
  lemma {:induction false} PutGetOther<K, V>(m: OMap<K, V>, k: K, v: V, other: K)
    requires other != k
    ensures Get(Put(m, k, v), other) == Get(m, other)
  {
    if m != [] && m[0].0 != k {
      var rest := Put(m[1..], k, v);
      assert Put(m, k, v) == [m[0]] + rest;
      assert ([m[0]] + rest)[1..] == rest;
      PutGetOther(m[1..], k, v, other);
    } else if m != [] {
      assert Put(m, k, v) == [(k, v)] + m[1..];
      assert ([(k, v)] + m[1..])[1..] == m[1..];
    }
  }

  /** After `set`, the key holds the new value and every other key is untouched. */
  lemma PutGet<K, V>(m: OMap<K, V>, k: K, v: V, other: K)
    requires WellFormed(m)
    ensures WellFormed(Put(m, k, v))
    ensures Get(Put(m, k, v), k) == Some(v)
    ensures other != k ==> Get(Put(m, k, v), other) == Get(m, other)
  {
    PutWellFormed(m, k, v);
    PutGetSame(m, k, v);
    if other != k {
      PutGetOther(m, k, v, other);
    }
  }

  /** `map.size` is the number of keys. */
  function Size<K, V>(m: OMap<K, V>): (r: nat)
    ensures r == |Keys(m)|
  {
    |m|
  }
}
