/**
 * The part of the platform's `URLSearchParams` that the tag and pagination
 * links use, over the list of key/value pairs in query order. Percent
 * encoding is not modelled: a pair serialises as `key=value`.
 */
module SearchParams {
  import opened Wrappers
  import opened Seqs
  import opened Strings

  type Params = seq<(string, string)>

  function KeyIs(name: string): ((string, string)) -> bool
  {
    (p: (string, string)) => p.0 == name
  }

  function KeyIsNot(name: string): ((string, string)) -> bool
  {
    (p: (string, string)) => p.0 != name
  }

  predicate Has(ps: Params, name: string)
  {
    exists i :: 0 <= i < |ps| && ps[i].0 == name
  }

  /** `params.delete(name)`: every pair with that key is removed. */
  function Delete(ps: Params, name: string): (r: Params)
    ensures !Has(r, name)
  {
    var r := Filter(ps, KeyIsNot(name));
    assert forall i :: 0 <= i < |r| ==> r[i] in r;
    r
  }

  /**
   * `params.set(name, value)`: the first pair with the key takes the value
   * and later ones are removed; with no such pair, one is appended.
   */
  function Set(ps: Params, name: string, value: string): (r: Params)
    ensures Filter(r, KeyIs(name)) == [(name, value)]
  {
    if Has(ps, name) then ReplaceFirst(ps, name, value)
    else
      FilterNone(ps, KeyIs(name));
      FilterConcat(ps, [(name, value)], KeyIs(name));
      ps + [(name, value)]
  }

  function ReplaceFirst(ps: Params, name: string, value: string): (r: Params)
    requires Has(ps, name)
    ensures Filter(r, KeyIs(name)) == [(name, value)]
  {
    if ps[0].0 == name then
      var rest := Delete(ps[1..], name);
      FilterNone(rest, KeyIs(name));
      [(name, value)] + rest
    else
      assert Has(ps[1..], name) by {
        var i :| 0 <= i < |ps| && ps[i].0 == name;
        assert ps[1..][i - 1] == ps[i];
      }
      [ps[0]] + ReplaceFirst(ps[1..], name, value)
  }

  /** Deleting a key leaves the pairs selected by any predicate that rejects that key as they were. */
  lemma DeleteKeepsOthers(ps: Params, name: string, q: ((string, string)) -> bool)
    requires forall x: (string, string) :: q(x) ==> x.0 != name
    ensures Filter(Delete(ps, name), q) == Filter(ps, q)
  {
    FilterFilter(ps, KeyIsNot(name), q);
  }

  /** Setting a key leaves the pairs selected by any predicate that rejects that key, in order, as they were. */
  lemma {:induction false} SetKeepsOthers(ps: Params, name: string, value: string, q: ((string, string)) -> bool)
    requires forall x: (string, string) :: q(x) ==> x.0 != name
    ensures Filter(Set(ps, name, value), q) == Filter(ps, q)
  {
    if Has(ps, name) {
      ReplaceKeepsOthers(ps, name, value, q);
    } else {
      FilterConcat(ps, [(name, value)], q);
    }
  }

  lemma {:induction false} ReplaceKeepsOthers(ps: Params, name: string, value: string, q: ((string, string)) -> bool)
    requires Has(ps, name)
    requires forall x: (string, string) :: q(x) ==> x.0 != name
    ensures Filter(ReplaceFirst(ps, name, value), q) == Filter(ps, q)
  {
    assert ps == [ps[0]] + ps[1..];
    FilterConcat([ps[0]], ps[1..], q);
    if ps[0].0 == name {
      FilterConcat([(name, value)], Delete(ps[1..], name), q);
      DeleteKeepsOthers(ps[1..], name, q);
    } else {
      assert Has(ps[1..], name) by {
        var i :| 0 <= i < |ps| && ps[i].0 == name;
        assert ps[1..][i - 1] == ps[i];
      }
      FilterConcat([ps[0]], ReplaceFirst(ps[1..], name, value), q);
      ReplaceKeepsOthers(ps[1..], name, value, q);
    }
  }

  /** `params.get(name)`: the value of the first pair with the key. */
  function Get(ps: Params, name: string): (r: Option<string>)
    ensures r.None? <==> !Has(ps, name)
    ensures r.Some? ==> exists i :: (0 <= i < |ps| && ps[i] == (name, r.value) &&
      forall k :: 0 <= k < i ==> ps[k].0 != name)
  {
    var f := Filter(ps, KeyIs(name));
    assert Has(ps, name) ==> f != [] by {
      if Has(ps, name) {
        var i :| 0 <= i < |ps| && ps[i].0 == name;
        assert KeyIs(name)(ps[i]);
      }
    }
    assert f != [] ==> Has(ps, name) by {
      if f != [] {
        assert f[0] in f;
        var i :| 0 <= i < |ps| && ps[i] == f[0];
      }
    }
    assert f != [] ==> exists i :: (0 <= i < |ps| && ps[i] == (name, f[0].1) &&
      forall k :: 0 <= k < i ==> ps[k].0 != name) by {
      if f != [] {
        FilterHead(ps, KeyIs(name));
        var i :| 0 <= i < |ps| && ps[i] == f[0] && KeyIs(name)(ps[i]) &&
          forall k :: 0 <= k < i ==> !KeyIs(name)(ps[k]);
        assert ps[i] == (name, f[0].1);
      }
    }
    if f == [] then None else Some(f[0].1)
  }

  /** The leading run of decimal digits. */
  function LeadingDigits(s: string): (r: string)
    ensures |r| <= |s| && r == s[..|r|] && AllDigits(r)
    ensures |r| < |s| ==> !IsDigit(s[|r|])
  {
    if s != [] && IsDigit(s[0]) then [s[0]] + LeadingDigits(s[1..]) else []
  }

  /**
   * `parseInt(params.page || '1', 10)`: the leading decimal digits, 1 when
   * the parameter is missing or empty, and no number (`NaN`) when the
   * value does not start with a digit.
   */
  function ReadPage(ps: Params): (r: Option<int>)
    ensures !Truthy(Get(ps, "page")) ==> r == Some(1)
    ensures r.Some? ==> r.value >= 0
    ensures Truthy(Get(ps, "page")) ==> (r.None? <==> Get(ps, "page").value == [] || !IsDigit(Get(ps, "page").value[0]))
    ensures Truthy(Get(ps, "page")) && r.Some? ==> r.value == ParseDigits(LeadingDigits(Get(ps, "page").value))
  {
    var v := OrElse(Get(ps, "page"), "1");
    var digits := LeadingDigits(v);
    assert v == "1" ==> digits == "1" by {
      if v == "1" {
        assert LeadingDigits(v[1..]) == [];
      }
    }
    assert ParseDigits("1") == 1 by {
      assert "1"[..0] == [];
    }
    if digits == [] then None else Some(ParseDigits(digits))
  }

  /** A value made of digits reads back as itself. */
  lemma LeadingDigitsOfNumber(n: nat)
    ensures LeadingDigits(NatToString(n)) == NatToString(n)
  {
  }

  /** `params.toString()` without percent-encoding. */
  function Serialize(ps: Params): (r: string)
    ensures ps == [] <==> r == ""
  {
    if ps == [] then ""
    else if |ps| == 1 then ps[0].0 + "=" + ps[0].1
    else ps[0].0 + "=" + ps[0].1 + "&" + Serialize(ps[1..])
  }

  /** `params.toString() ? `${pathname}?${params}` : pathname`. */
  function WithQuery(pathname: string, ps: Params): (r: string)
    ensures ps == [] ==> r == pathname
    ensures ps != [] ==> r == pathname + "?" + Serialize(ps) && |r| > |pathname|
  {
    if Serialize(ps) != "" then pathname + "?" + Serialize(ps) else pathname
  }

  /** `key=value` for one pair. */
  function PairText(p: (string, string)): string
  {
    p.0 + "=" + p.1
  }

  function PairTexts(ps: Params): (r: seq<string>)
    ensures |r| == |ps| && forall i :: 0 <= i < |ps| ==> r[i] == PairText(ps[i])
  {
    seq(|ps|, i requires 0 <= i < |ps| => PairText(ps[i]))
  }

  /** The serialisation is the pairs joined by "&". */
  lemma {:induction false} SerializeJoins(ps: Params)
    ensures Serialize(ps) == Join(PairTexts(ps), "&")
  {
    if |ps| > 1 {
      SerializeJoins(ps[1..]);
      assert PairTexts(ps)[1..] == PairTexts(ps[1..]);
    }
  }

  /** One `key=value` piece read back: the key is what precedes the first "=". */
  function ParsePair(piece: string): (r: (string, string))
  {
    match IndexOfFrom(piece, "=", 0)
    case None => (piece, "")
    case Some(i) => (piece[..i], piece[i + 1..])
  }

  /** A query string read as pairs (without percent-decoding). */
  function ParseQuery(q: string): (r: Params)
  {
    if q == "" then []
    else
      var pieces := Split(q, "&");
      seq(|pieces|, i requires 0 <= i < |pieces| => ParsePair(pieces[i]))
  }

  /** Keys free of "=" and "&" and values free of "&" survive serialisation. */
  predicate Plain(ps: Params)
  {
    forall i :: 0 <= i < |ps| ==> '=' !in ps[i].0 && '&' !in ps[i].0 && '&' !in ps[i].1
  }

  lemma PairRoundTrip(p: (string, string))
    requires '=' !in p.0
    ensures ParsePair(PairText(p)) == p
  {
    ContainsChar(p.0, '=');
    FirstSeparator(p.0, "=", p.1);
    var s := PairText(p);
    assert s[..|p.0|] == p.0;
    assert s[|p.0| + 1..] == p.1;
  }

  /** Reading a serialised query gives back its pairs. */
  lemma ParseSerialize(ps: Params)
    requires Plain(ps)
    ensures ParseQuery(Serialize(ps)) == ps
  {
    if ps != [] {
      var texts := PairTexts(ps);
      SerializeJoins(ps);
      forall k | 0 <= k < |texts|
        ensures !Contains(texts[k], "&")
      {
        assert '&' !in texts[k] by {
          assert texts[k] == ps[k].0 + "=" + ps[k].1;
        }
        ContainsChar(texts[k], '&');
      }
      SplitJoin(texts, "&");
      forall i | 0 <= i < |ps|
        ensures ParsePair(texts[i]) == ps[i]
      {
        PairRoundTrip(ps[i]);
      }
    }
  }
}
