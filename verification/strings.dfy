/**
 * Strings as sequences of characters, with the handful of JavaScript string
 * operations the site relies on: case mapping (ASCII letters only), substring
 * search, `trim`, `split`/`join`, decimal rendering of integers and the default
 * code-point order used by `Array.prototype.sort()`.
 */
module Strings {
  import opened Wrappers

  /** The characters matched by the JavaScript class `\s` and removed by `trim()`. */
  predicate IsSpace(c: char)
  {
    || c == ' ' || ('\t' <= c <= '\r')
    || c == '\U{00A0}' || c == '\U{1680}' || ('\U{2000}' <= c <= '\U{200A}')
    || c == '\U{2028}' || c == '\U{2029}' || c == '\U{202F}' || c == '\U{205F}'
    || c == '\U{3000}' || c == '\U{FEFF}'
  }

  predicate IsUpperAscii(c: char) { 'A' <= c <= 'Z' }
  predicate IsLowerAscii(c: char) { 'a' <= c <= 'z' }
  predicate IsAsciiLetter(c: char) { IsUpperAscii(c) || IsLowerAscii(c) }
  predicate IsDigit(c: char) { '0' <= c <= '9' }

  function LowerChar(c: char): char
  {
    if IsUpperAscii(c) then (c as int + 32) as char else c
  }

  function UpperChar(c: char): char
  {
    if IsLowerAscii(c) then (c as int - 32) as char else c
  }

  /** `toLowerCase()` on ASCII letters; every other character is kept. */
  function Lower(s: string): (r: string)
    ensures |r| == |s|
    ensures forall i :: 0 <= i < |s| ==> r[i] == LowerChar(s[i])
  {
    seq(|s|, i requires 0 <= i < |s| => LowerChar(s[i]))
  }

  /** `toUpperCase()` on ASCII letters; every other character is kept. */
  function Upper(s: string): (r: string)
    ensures |r| == |s|
    ensures forall i :: 0 <= i < |s| ==> r[i] == UpperChar(s[i])
  {
    seq(|s|, i requires 0 <= i < |s| => UpperChar(s[i]))
  }

  /** `pat` occurs in `s` at index `i`. */
  predicate StartsAt(s: string, i: nat, pat: string)
  {
    i + |pat| <= |s| && s[i..i + |pat|] == pat
  }

  /** `s.indexOf(pat, from)`: the first occurrence at or after `from`. */
  function IndexOfFrom(s: string, pat: string, from: nat): (r: Option<nat>)
    decreases |s| - from
    ensures r.Some? ==> from <= r.value && StartsAt(s, r.value, pat)
    ensures r.Some? ==> forall j :: from <= j < r.value ==> !StartsAt(s, j, pat)
    ensures r.None? ==> forall j :: from <= j ==> !StartsAt(s, j, pat)
  {
    if from + |pat| > |s| then None
    else if StartsAt(s, from, pat) then Some(from)
    else IndexOfFrom(s, pat, from + 1)
  }

  /** `s.includes(pat)`. */
  predicate Contains(s: string, pat: string)
  {
    IndexOfFrom(s, pat, 0).Some?
  }

  /** `includes` holds exactly when some index starts an occurrence. */
  lemma ContainsIff(s: string, pat: string)
    ensures Contains(s, pat) <==> exists i: nat :: StartsAt(s, i, pat)
  {
  }

  /** A one-character pattern occurs exactly when the character does. */
  lemma ContainsChar(s: string, c: char)
    ensures Contains(s, [c]) <==> c in s
  {
    if c in s {
      var i :| 0 <= i < |s| && s[i] == c;
      assert StartsAt(s, i, [c]);
    }
    if Contains(s, [c]) {
      var i := IndexOfFrom(s, [c], 0).value;
      assert s[i..i + 1][0] == s[i];
    }
  }

  /** An occurrence inside a window of `s` is an occurrence in `s`. */
  lemma ContainsInfix(s: string, a: nat, b: nat, pat: string)
    requires a <= b <= |s|
    requires Contains(s[a..b], pat)
    ensures Contains(s, pat)
  {
    var w := s[a..b];
    var i := IndexOfFrom(w, pat, 0).value;
    assert w[i..i + |pat|] == pat;
    var x, y := s[a + i..a + i + |pat|], w[i..i + |pat|];
    assert x == y by {
      forall t | 0 <= t < |pat| ensures x[t] == y[t] {
        assert w[i + t] == s[a + i + t];
      }
    }
    assert StartsAt(s, a + i, pat);
  }

  /** `s.endsWith(suffix)`. */
  predicate EndsWith(s: string, suffix: string)
  {
    |suffix| <= |s| && s[|s| - |suffix|..] == suffix
  }

  /** `trimStart()`: drops the leading whitespace. */
  function TrimStart(s: string): (r: string)
    ensures |r| <= |s| && r == s[|s| - |r|..]
    ensures r == [] || !IsSpace(r[0])
    ensures forall k :: 0 <= k < |s| - |r| ==> IsSpace(s[k])
  {
    if s != [] && IsSpace(s[0]) then TrimStart(s[1..]) else s
  }

  /** `trimEnd()`: drops the trailing whitespace. */
  function TrimEnd(s: string): (r: string)
    ensures |r| <= |s| && r == s[..|r|]
    ensures r == [] || !IsSpace(r[|r| - 1])
    ensures forall k :: |r| <= k < |s| ==> IsSpace(s[k])
  {
    if s != [] && IsSpace(s[|s| - 1]) then TrimEnd(s[..|s| - 1]) else s
  }

  /** `trim()`: the longest infix that neither starts nor ends with whitespace. */
  function Trim(s: string): (r: string)
    ensures r == [] || (!IsSpace(r[0]) && !IsSpace(r[|r| - 1]))
    ensures |r| <= |s|
  {
    TrimEnd(TrimStart(s))
  }

  /** Everything of `s` outside the window `s[a..b]` is whitespace. */
  predicate WhitespaceAround(s: string, a: nat, b: nat)
  {
    a <= b <= |s| && (forall k :: 0 <= k < a ==> IsSpace(s[k])) && (forall k :: b <= k < |s| ==> IsSpace(s[k]))
  }

  /** `trim()` keeps a contiguous window of its input and drops only whitespace around it. */
  lemma TrimWindow(s: string) returns (a: nat)
    ensures a + |Trim(s)| <= |s| && Trim(s) == s[a..a + |Trim(s)|]
    ensures WhitespaceAround(s, a, a + |Trim(s)|)
  {
    var t := TrimStart(s);
    a := |s| - |t|;
    var e := TrimEnd(t);
    assert Trim(s) == e;
    assert e == s[a..a + |e|] by {
      assert t == s[a..];
      assert e == t[..|e|];
      assert s[a..][..|e|] == s[a..a + |e|];
    }
    TrailingSpaces(s, t, a, |e|);
  }

  /** Whitespace after position `b` of a suffix `s[a..]` is whitespace of `s`. */
  lemma TrailingSpaces(s: string, t: string, a: nat, b: nat)
    requires a <= |s| && t == s[a..] && b <= |t|
    requires forall k :: b <= k < |t| ==> IsSpace(t[k])
    ensures forall k :: a + b <= k < |s| ==> IsSpace(s[k])
  {
    forall k | a + b <= k < |s|
      ensures IsSpace(s[k])
    {
      assert s[k] == t[k - a];
    }
  }

  /** Trimming a string that neither starts nor ends with whitespace changes nothing. */
  lemma TrimNoop(s: string)
    requires s == [] || (!IsSpace(s[0]) && !IsSpace(s[|s| - 1]))
    ensures Trim(s) == s
  {
  }

  /** `parts.join(sep)`. */
  function Join(parts: seq<string>, sep: string): string
  {
    if |parts| == 0 then ""
    else if |parts| == 1 then parts[0]
    else parts[0] + sep + Join(parts[1..], sep)
  }

  /** `s.split(sep)` for a non-empty separator: the pieces between non-overlapping occurrences, left to right. */
  function Split(s: string, sep: string): (r: seq<string>)
    requires |sep| > 0
    decreases |s|
    ensures |r| >= 1
    ensures forall k :: 0 <= k < |r| ==> !Contains(r[k], sep)
    ensures Contains(s, sep) <==> |r| > 1
    ensures |r| == 1 ==> r[0] == s
  {
    match IndexOfFrom(s, sep, 0)
    case None => [s]
    case Some(i) =>
      PrefixBeforeFirst(s, sep, i);
      var rest := Split(s[i + |sep|..], sep);
      assert forall k :: 1 <= k < |rest| + 1 ==> ([s[..i]] + rest)[k] == rest[k - 1];
      [s[..i]] + rest
  }

  /** The text before the first occurrence of `sep` contains no occurrence. */
  lemma PrefixBeforeFirst(s: string, sep: string, i: nat)
    requires |sep| > 0 && IndexOfFrom(s, sep, 0) == Some(i)
    ensures !Contains(s[..i], sep)
  {
    var r := IndexOfFrom(s[..i], sep, 0);
    if r.Some? {
      var j := r.value;
      assert StartsAt(s[..i], j, sep);
      assert j + |sep| <= i;
      assert s[..i][j..j + |sep|] == s[j..j + |sep|];
      assert StartsAt(s, j, sep);
      assert false;
    }
  }

  /** Joining two or more pieces puts the separator right before the last one. */
  lemma {:induction false} JoinLast(parts: seq<string>, sep: string)
    requires |parts| > 1
    ensures Join(parts, sep) == Join(parts[..|parts| - 1], sep) + sep + parts[|parts| - 1]
  {
    if |parts| > 2 {
      var tail := parts[1..];
      JoinLast(tail, sep);
      assert tail[..|tail| - 1] == parts[..|parts| - 1][1..];
      assert tail[|tail| - 1] == parts[|parts| - 1];
    }
  }

  /** The last piece of a split is what follows some occurrence `k` of the separator. */
  lemma SplitLastPiece(s: string, sep: string) returns (k: nat)
    requires |sep| > 0 && |Split(s, sep)| > 1
    ensures StartsAt(s, k, sep)
    ensures Split(s, sep)[|Split(s, sep)| - 1] == s[k + |sep|..]
  {
    var parts := Split(s, sep);
    var last := parts[|parts| - 1];
    var init := Join(parts[..|parts| - 1], sep);
    JoinSplit(s, sep);
    JoinLast(parts, sep);
    assert s == init + sep + last;
    k := |init|;
    assert s[k..k + |sep|] == sep;
    assert s[k + |sep|..] == last;
  }

  /** Joining the pieces of a split with the same separator gives back the string. */
  lemma {:induction false} JoinSplit(s: string, sep: string)
    requires |sep| > 0
    decreases |s|
    ensures Join(Split(s, sep), sep) == s
  {
    match IndexOfFrom(s, sep, 0)
    case None =>
    case Some(i) =>
      var rest := Split(s[i + |sep|..], sep);
      assert Split(s, sep) == [s[..i]] + rest;
      JoinSplit(s[i + |sep|..], sep);
      assert s[i..i + |sep|] == sep;
      assert s == s[..i] + sep + s[i + |sep|..];
  }

  /** When the first occurrence of `sep` follows `p`, the split is `p` and then the pieces of what follows. */
  lemma SplitAfterFirst(p: string, sep: string, t: string)
    requires |sep| > 0 && IndexOfFrom(p + sep + t, sep, 0) == Some(|p|)
    ensures Split(p + sep + t, sep) == [p] + Split(t, sep)
  {
    var s := p + sep + t;
    assert s[..|p|] == p;
    assert s[|p| + |sep|..] == t;
  }

  /** Splitting a join of pieces free of a one-character separator recovers the pieces. */
  lemma {:induction false} SplitJoin(parts: seq<string>, sep: string)
    requires |sep| == 1 && |parts| >= 1
    requires forall k :: 0 <= k < |parts| ==> !Contains(parts[k], sep)
    ensures Split(Join(parts, sep), sep) == parts
  {
    if |parts| == 1 {
      assert IndexOfFrom(parts[0], sep, 0).None?;
    } else {
      var p := parts[0];
      var tail := Join(parts[1..], sep);
      assert Join(parts, sep) == p + sep + tail;
      FirstSeparator(p, sep, tail);
      assert (p + sep + tail)[..|p|] == p;
      assert (p + sep + tail)[|p| + |sep|..] == tail;
      SplitJoin(parts[1..], sep);
    }
  }

  /** In `p + sep + t`, where `p` holds no occurrence of the one-character `sep`, the first occurrence is right after `p`. */
  lemma FirstSeparator(p: string, sep: string, t: string)
    requires |sep| == 1 && !Contains(p, sep)
    ensures IndexOfFrom(p + sep + t, sep, 0) == Some(|p|)
  {
    var s := p + sep + t;
    assert s[|p|..|p| + 1] == sep;
    forall j: nat | j < |p|
      ensures !StartsAt(s, j, sep)
    {
      assert s[j..j + 1] == p[j..j + 1];
      assert StartsAt(s, j, sep) ==> StartsAt(p, j, sep);
    }
    IndexOfFromFirst(s, sep, 0, |p|);
  }

  /** The first-occurrence search finds the first index that starts an occurrence. */
  lemma {:induction false} IndexOfFromFirst(s: string, pat: string, from: nat, i: nat)
    requires from <= i && StartsAt(s, i, pat)
    requires forall j :: from <= j < i ==> !StartsAt(s, j, pat)
    decreases i - from
    ensures IndexOfFrom(s, pat, from) == Some(i)
  {
    if from < i {
      IndexOfFromFirst(s, pat, from + 1, i);
    }
  }

  /** `s.replace(c, "")` with a one-character pattern: removes the first occurrence only. */
  function RemoveFirst(s: string, c: char): (r: string)
    ensures c !in s ==> r == s
    ensures c in s ==> |r| == |s| - 1
  {
    if s == [] then s else if s[0] == c then s[1..] else [s[0]] + RemoveFirst(s[1..], c)
  }

  /** The index of the last occurrence of `c`, if any. */
  function LastIndexOf(s: string, c: char): (r: Option<nat>)
    ensures r.Some? ==> r.value < |s| && s[r.value] == c && c !in s[r.value + 1..]
    ensures r.None? <==> c !in s
  {
    if s == [] then None
    else if s[|s| - 1] == c then Some(|s| - 1)
    else
      var r := LastIndexOf(s[..|s| - 1], c);
      assert s == s[..|s| - 1] + [s[|s| - 1]];
      r
  }

  function DigitChar(d: nat): char
    requires d < 10
  {
    ('0' as int + d) as char
  }

  function DigitValue(c: char): nat
  {
    if IsDigit(c) then c as int - '0' as int else 0
  }

  predicate AllDigits(s: string)
  {
    forall i :: 0 <= i < |s| ==> IsDigit(s[i])
  }

  /** `String(n)` for a non-negative integer: its decimal digits, most significant first, no leading zeros. */
  function NatToString(n: nat): (r: string)
    ensures |r| >= 1 && AllDigits(r)
    ensures (r[0] == '0') <==> n == 0
  {
    if n < 10 then [DigitChar(n)] else NatToString(n / 10) + [DigitChar(n % 10)]
  }

  /** `parseInt(s, 10)` on a string of decimal digits. */
  function ParseDigits(s: string): nat
  {
    if s == [] then 0 else ParseDigits(s[..|s| - 1]) * 10 + DigitValue(s[|s| - 1])
  }

  /** Decimal rendering and parsing are inverse. */
  lemma {:induction false} ParseNatToString(n: nat)
    ensures ParseDigits(NatToString(n)) == n
  {
    if n >= 10 {
      var r := NatToString(n);
      assert r[..|r| - 1] == NatToString(n / 10);
      ParseNatToString(n / 10);
    }
  }

  /** `String(n)` for any integer. */
  function IntToString(n: int): (r: string)
    ensures |r| >= 1
  {
    if n < 0 then "-" + NatToString(-n) else NatToString(n)
  }

  /** The order of `Array.prototype.sort()` without a comparator, taken lexicographically by character. */
  predicate StrLe(a: string, b: string)
  {
    if a == [] then true
    else if b == [] then false
    else if a[0] != b[0] then a[0] < b[0]
    else StrLe(a[1..], b[1..])
  }

  lemma {:induction false} StrLeTotal(a: string, b: string)
    ensures StrLe(a, b) || StrLe(b, a)
  {
    if a != [] && b != [] && a[0] == b[0] {
      StrLeTotal(a[1..], b[1..]);
    }
  }

  lemma {:induction false} StrLeTransitive(a: string, b: string, c: string)
    requires StrLe(a, b) && StrLe(b, c)
    ensures StrLe(a, c)
  {
    if a != [] && b != [] && c != [] && a[0] == b[0] && b[0] == c[0] {
      StrLeTransitive(a[1..], b[1..], c[1..]);
    }
  }

  lemma {:induction false} StrLeAntisymmetric(a: string, b: string)
    requires StrLe(a, b) && StrLe(b, a)
    ensures a == b
  {
    if a != [] && b != [] {
      StrLeAntisymmetric(a[1..], b[1..]);
      assert a == [a[0]] + a[1..] && b == [b[0]] + b[1..];
    }
  }
}
