/**
 * How the Drive sync derives a resource's category, file type, display title,
 * tags and fallback description from a Drive file's name and MIME type.
 * Regular expressions of the original are replaced by scanners over the string.
 */
module DriveNames {
  import opened Wrappers
  import opened Seqs
  import opened Strings
  import opened Types

  // ---------------------------------------------------------------------------
  // determineCategory
  // ---------------------------------------------------------------------------

  /** Filename rules are tried first, on the lowercased name, in this order. */
  function DetermineCategory(mimeType: string, fileName: string): ResourceCategory
  {
    var name := Lower(fileName);
    if EndsWith(name, ".pptx") || EndsWith(name, ".ppt") || Contains(name, "slides") then Presentation
    else if EndsWith(name, ".pdf") || EndsWith(name, ".docx") || EndsWith(name, ".doc") then Document
    else if EndsWith(name, ".mp4") || EndsWith(name, ".mov") || EndsWith(name, ".avi") then Video
    else if Contains(name, "template") || EndsWith(name, ".zip") then Template
    else if EndsWith(name, ".csv") || EndsWith(name, ".json") || Contains(name, "dataset") then Dataset
    else if EndsWith(name, ".py") || EndsWith(name, ".ipynb") || EndsWith(name, ".js") then Code
    else if Contains(mimeType, "presentation") then Presentation
    else if Contains(mimeType, "spreadsheet") then Dataset
    else if Contains(mimeType, "document") then Document
    else if Contains(mimeType, "video") then Video
    else if Contains(mimeType, "zip") || Contains(mimeType, "compressed") then Template
    else Other
  }

  /** A classification rule: the category, the name suffixes and the name infixes that select it. */
  datatype NameRule = NameRule(category: ResourceCategory, suffixes: seq<string>, infixes: seq<string>)

  datatype MimeRule = MimeRule(category: ResourceCategory, infixes: seq<string>)

  const NameRules: seq<NameRule> := [
    NameRule(Presentation, [".pptx", ".ppt"], ["slides"]),
    NameRule(Document, [".pdf", ".docx", ".doc"], []),
    NameRule(Video, [".mp4", ".mov", ".avi"], []),
    NameRule(Template, [".zip"], ["template"]),
    NameRule(Dataset, [".csv", ".json"], ["dataset"]),
    NameRule(Code, [".py", ".ipynb", ".js"], [])
  ]

  const MimeRules: seq<MimeRule> := [
    MimeRule(Presentation, ["presentation"]),
    MimeRule(Dataset, ["spreadsheet"]),
    MimeRule(Document, ["document"]),
    MimeRule(Video, ["video"]),
    MimeRule(Template, ["zip", "compressed"])
  ]

  /** `s` ends with one of the suffixes. */
  predicate AnyEndsWith(s: string, suffixes: seq<string>)
  {
    suffixes != [] && (EndsWith(s, suffixes[0]) || AnyEndsWith(s, suffixes[1..]))
  }

  /** `s` contains one of the infixes. */
  predicate AnyContains(s: string, infixes: seq<string>)
  {
    infixes != [] && (Contains(s, infixes[0]) || AnyContains(s, infixes[1..]))
  }

  predicate NameRuleMatches(r: NameRule, name: string)
  {
    AnyEndsWith(name, r.suffixes) || AnyContains(name, r.infixes)
  }

  predicate MimeRuleMatches(r: MimeRule, mimeType: string)
  {
    AnyContains(mimeType, r.infixes)
  }

  /** The category of the first filename rule from index `k` on that matches. */
  function FirstNameRule(rules: seq<NameRule>, name: string, k: nat): Option<ResourceCategory>
    decreases |rules| - k
  {
    if k >= |rules| then None
    else if NameRuleMatches(rules[k], name) then Some(rules[k].category)
    else FirstNameRule(rules, name, k + 1)
  }

  function FirstMimeRule(rules: seq<MimeRule>, mimeType: string, k: nat): Option<ResourceCategory>
    decreases |rules| - k
  {
    if k >= |rules| then None
    else if MimeRuleMatches(rules[k], mimeType) then Some(rules[k].category)
    else FirstMimeRule(rules, mimeType, k + 1)
  }

  /** The rule lookup answers with the first matching rule, and with None only when none matches. */
  lemma {:induction false} FirstNameRuleIsFirst(rules: seq<NameRule>, name: string, k: nat)
    decreases |rules| - k
    ensures var c := FirstNameRule(rules, name, k);
      (c.None? <==> forall j :: k <= j < |rules| ==> !NameRuleMatches(rules[j], name)) &&
      (c.Some? ==> exists j :: (k <= j < |rules| && NameRuleMatches(rules[j], name) && rules[j].category == c.value &&
        forall i :: k <= i < j ==> !NameRuleMatches(rules[i], name)))
  {
    if k < |rules| && !NameRuleMatches(rules[k], name) {
      FirstNameRuleIsFirst(rules, name, k + 1);
    }
  }

  lemma EndsWithOne(s: string, a: string)
    ensures AnyEndsWith(s, [a]) <==> EndsWith(s, a)
  {
    assert [a][1..] == [];
  }

  lemma EndsWithTwo(s: string, a: string, b: string)
    ensures AnyEndsWith(s, [a, b]) <==> EndsWith(s, a) || EndsWith(s, b)
  {
    assert [a, b][1..] == [b];
    EndsWithOne(s, b);
  }

  lemma EndsWithThree(s: string, a: string, b: string, c: string)
    ensures AnyEndsWith(s, [a, b, c]) <==> EndsWith(s, a) || EndsWith(s, b) || EndsWith(s, c)
  {
    assert [a, b, c][1..] == [b, c];
    EndsWithTwo(s, b, c);
  }

  lemma ContainsOne(s: string, a: string)
    ensures AnyContains(s, [a]) <==> Contains(s, a)
  {
    assert [a][1..] == [];
  }

  lemma ContainsTwo(s: string, a: string, b: string)
    ensures AnyContains(s, [a, b]) <==> Contains(s, a) || Contains(s, b)
  {
    assert [a, b][1..] == [b];
    ContainsOne(s, b);
  }

  /** The classifier is "first matching filename rule, else first matching MIME rule, else other". */
  lemma CategoryByRuleTable(mimeType: string, fileName: string)
    ensures var name := Lower(fileName);
      var byName := FirstNameRule(NameRules, name, 0);
      var byMime := FirstMimeRule(MimeRules, mimeType, 0);
      DetermineCategory(mimeType, fileName) ==
        if byName.Some? then byName.value else if byMime.Some? then byMime.value else Other
  {
    var name := Lower(fileName);
    EndsWithTwo(name, ".pptx", ".ppt");
    ContainsOne(name, "slides");
    EndsWithThree(name, ".pdf", ".docx", ".doc");
    EndsWithThree(name, ".mp4", ".mov", ".avi");
    EndsWithOne(name, ".zip");
    ContainsOne(name, "template");
    EndsWithTwo(name, ".csv", ".json");
    ContainsOne(name, "dataset");
    EndsWithThree(name, ".py", ".ipynb", ".js");
    ContainsOne(mimeType, "presentation");
    ContainsOne(mimeType, "spreadsheet");
    ContainsOne(mimeType, "document");
    ContainsOne(mimeType, "video");
    ContainsTwo(mimeType, "zip", "compressed");
    assert FirstNameRule(NameRules, name, 6) == None;
    assert FirstNameRule(NameRules, name, 5) == if NameRuleMatches(NameRules[5], name) then Some(Code) else None;
    assert FirstNameRule(NameRules, name, 4) == if NameRuleMatches(NameRules[4], name) then Some(Dataset) else FirstNameRule(NameRules, name, 5);
    assert FirstNameRule(NameRules, name, 3) == if NameRuleMatches(NameRules[3], name) then Some(Template) else FirstNameRule(NameRules, name, 4);
    assert FirstNameRule(NameRules, name, 2) == if NameRuleMatches(NameRules[2], name) then Some(Video) else FirstNameRule(NameRules, name, 3);
    assert FirstNameRule(NameRules, name, 1) == if NameRuleMatches(NameRules[1], name) then Some(Document) else FirstNameRule(NameRules, name, 2);
    assert FirstMimeRule(MimeRules, mimeType, 5) == None;
    assert FirstMimeRule(MimeRules, mimeType, 4) == if MimeRuleMatches(MimeRules[4], mimeType) then Some(Template) else None;
    assert FirstMimeRule(MimeRules, mimeType, 3) == if MimeRuleMatches(MimeRules[3], mimeType) then Some(Video) else FirstMimeRule(MimeRules, mimeType, 4);
    assert FirstMimeRule(MimeRules, mimeType, 2) == if MimeRuleMatches(MimeRules[2], mimeType) then Some(Document) else FirstMimeRule(MimeRules, mimeType, 3);
    assert FirstMimeRule(MimeRules, mimeType, 1) == if MimeRuleMatches(MimeRules[1], mimeType) then Some(Dataset) else FirstMimeRule(MimeRules, mimeType, 2);
  }

  /** Whenever a filename rule matches, the MIME type plays no part. */
  lemma NameRulesIgnoreMime(mime1: string, mime2: string, fileName: string)
    requires FirstNameRule(NameRules, Lower(fileName), 0).Some?
    ensures DetermineCategory(mime1, fileName) == DetermineCategory(mime2, fileName)
  {
    CategoryByRuleTable(mime1, fileName);
    CategoryByRuleTable(mime2, fileName);
  }

  // ---------------------------------------------------------------------------
  // getFileExtension
  // ---------------------------------------------------------------------------

  /** The last '.'-separated piece, lowercased, or "file" when there is no '.'. */
  function GetFileExtension(fileName: string): (r: string)
    ensures '.' !in fileName ==> r == "file"
  {
    ContainsChar(fileName, '.');
    var parts := Split(fileName, ".");
    if |parts| > 1 then Lower(parts[|parts| - 1]) else "file"
  }

  /** With a '.', the extension is the lowercased text after the last '.'. */
  lemma ExtensionAfterLastDot(fileName: string) returns (k: nat)
    requires '.' in fileName
    ensures k < |fileName| && fileName[k] == '.' && '.' !in fileName[k + 1..]
    ensures GetFileExtension(fileName) == Lower(fileName[k + 1..])
  {
    ContainsChar(fileName, '.');
    var parts := Split(fileName, ".");
    k := SplitLastPiece(fileName, ".");
    assert fileName[k..k + 1][0] == fileName[k];
    ContainsChar(parts[|parts| - 1], '.');
  }

  // ---------------------------------------------------------------------------
  // cleanFileName
  // ---------------------------------------------------------------------------

  /** `k` starts what `/\.[^/.]+$/` matches: a '.' followed by at least one character, none of them '.' or '/'. */
  predicate ExtensionAt(s: string, k: int)
  {
    0 <= k < |s| - 1 && s[k] == '.' && forall j :: k < j < |s| ==> s[j] != '.' && s[j] != '/'
  }

  /** `replace(/\.[^/.]+$/, '')`. */
  function StripExtension(s: string): (r: string)
    ensures forall k :: ExtensionAt(s, k) ==> r == s[..k]
    ensures (forall k :: !ExtensionAt(s, k)) ==> r == s
  {
    match LastIndexOf(s, '.')
    case None => s
    case Some(k) =>
      if k + 1 < |s| && '/' !in s[k + 1..] then
        assert forall j :: k < j < |s| ==> s[j] in s[k + 1..];
        assert ExtensionAt(s, k);
        s[..k]
      else
        s
  }

  function DashToSpace(c: char): char
  {
    if c == '_' || c == '-' then ' ' else c
  }

  /** `replace(/_/g, ' ').replace(/-/g, ' ')`. */
  function SpaceSeparators(s: string): (r: string)
    ensures |r| == |s|
    ensures forall i :: 0 <= i < |s| ==> r[i] == DashToSpace(s[i])
  {
    seq(|s|, i requires 0 <= i < |s| => DashToSpace(s[i]))
  }

  predicate NotSpace(c: char)
  {
    !IsSpace(c)
  }

  /** No two neighbouring characters are whitespace. */
  predicate NoDoubleSpace(s: string)
  {
    forall i :: 0 <= i < |s| - 1 ==> !(IsSpace(s[i]) && IsSpace(s[i + 1]))
  }

  /** The only whitespace character is the plain space. */
  predicate PlainSpaces(s: string)
  {
    forall i :: 0 <= i < |s| && IsSpace(s[i]) ==> s[i] == ' '
  }

  /** Words separated by single plain spaces, with no '_' or '-' and no whitespace at either end. */
  predicate WordsShape(s: string)
  {
    '_' !in s && '-' !in s && NoDoubleSpace(s) && PlainSpaces(s) &&
    (s == [] || (!IsSpace(s[0]) && !IsSpace(s[|s| - 1])))
  }

  /** `replace(/\s+/g, ' ')`: every maximal run of whitespace becomes one space. */
  function Collapse(s: string): (r: string)
    ensures Filter(r, NotSpace) == Filter(s, NotSpace)
    ensures PlainSpaces(r) && NoDoubleSpace(r)
    ensures r == [] <==> s == []
    ensures s != [] ==> (IsSpace(r[0]) <==> IsSpace(s[0]))
    ensures forall c :: c in r ==> c in s || c == ' '
  {
    SqueezeHead(s);
    SqueezeKeepsWords(s);
    SqueezeSpaces(s);
    SqueezeChars(s);
    Squeeze(s)
  }

  /**
   * The scan behind `Collapse`: a whitespace character followed by another
   * is dropped, one followed by a non-space (or the end) becomes ' '. It
   * carries no contract so that the lemmas below reason about it cheaply.
   */
  function Squeeze(s: string): string
  {
    if s == [] then []
    else
      var rest := Squeeze(s[1..]);
      if IsSpace(s[0]) then
        if |s| > 1 && IsSpace(s[1]) then rest else [' '] + rest
      else [s[0]] + rest
  }

  lemma {:induction false} SqueezeHead(s: string)
    ensures Squeeze(s) == [] <==> s == []
    ensures s != [] ==> (IsSpace(Squeeze(s)[0]) <==> IsSpace(s[0]))
  {
    if |s| > 1 {
      SqueezeHead(s[1..]);
    }
  }

  lemma {:induction false} SqueezeKeepsWords(s: string)
    ensures Filter(Squeeze(s), NotSpace) == Filter(s, NotSpace)
  {
    if s != [] {
      SqueezeKeepsWords(s[1..]);
      var rest := Squeeze(s[1..]);
      if IsSpace(s[0]) {
        assert !NotSpace(' ') && !NotSpace(s[0]);
        assert Filter([' '] + rest, NotSpace) == Filter(rest, NotSpace) by {
          assert ([' '] + rest)[1..] == rest;
        }
      } else {
        assert NotSpace(s[0]);
        assert Filter([s[0]] + rest, NotSpace) == [s[0]] + Filter(rest, NotSpace) by {
          assert ([s[0]] + rest)[1..] == rest;
        }
      }
    }
  }

  lemma {:induction false} SqueezeSpaces(s: string)
    ensures PlainSpaces(Squeeze(s)) && NoDoubleSpace(Squeeze(s))
  {
    if s != [] {
      SqueezeSpaces(s[1..]);
      SqueezeHead(s[1..]);
      var rest := Squeeze(s[1..]);
      if IsSpace(s[0]) && !(|s| > 1 && IsSpace(s[1])) {
        ConsSpaces(' ', rest);
      } else if !IsSpace(s[0]) {
        ConsSpaces(s[0], rest);
      }
    }
  }

  /** Putting a character ahead of squeezed text keeps it plain and single-spaced when no two spaces meet. */
  lemma ConsSpaces(c: char, rest: string)
    requires PlainSpaces(rest) && NoDoubleSpace(rest)
    requires IsSpace(c) ==> c == ' ' && (rest == [] || !IsSpace(rest[0]))
    ensures PlainSpaces([c] + rest) && NoDoubleSpace([c] + rest)
  {
    var t := [c] + rest;
    forall i | 0 <= i < |t|
      ensures IsSpace(t[i]) ==> t[i] == ' '
    {
      if i > 0 {
        assert t[i] == rest[i - 1];
      }
    }
    forall i | 0 <= i < |t| - 1
      ensures !(IsSpace(t[i]) && IsSpace(t[i + 1]))
    {
      if i > 0 {
        assert t[i] == rest[i - 1] && t[i + 1] == rest[i];
      }
    }
  }

  lemma {:induction false} SqueezeChars(s: string)
    ensures forall c :: c in Squeeze(s) ==> c in s || c == ' '
  {
    if s != [] {
      SqueezeChars(s[1..]);
      forall c | c in Squeeze(s[1..])
        ensures c in s || c == ' '
      {
        if c != ' ' {
          var i :| 0 <= i < |s[1..]| && s[1..][i] == c;
          assert s[i + 1] == c;
        }
      }
    }
  }

  /** Text ending in a non-space squeezes independently of what follows it. */
  lemma {:induction false} SqueezeAppend(x: string, z: string)
    requires x != [] && !IsSpace(x[|x| - 1])
    ensures Squeeze(x + z) == Squeeze(x) + Squeeze(z)
  {
    if |x| == 1 {
      assert x + z == [x[0]] + z;
      assert ([x[0]] + z)[1..] == z;
      assert x[1..] == [];
    } else {
      SqueezeAppend(x[1..], z);
      assert x == [x[0]] + x[1..];
      ConcatAssoc([x[0]], x[1..], z);
      SqueezeHeadStep(x[0], x[1..], z);
    }
  }

  /** One step of the append law: what happens to the head does not depend on what follows the non-empty rest. */
  lemma SqueezeHeadStep(c: char, t: string, z: string)
    requires t != [] && Squeeze(t + z) == Squeeze(t) + Squeeze(z)
    ensures Squeeze([c] + (t + z)) == Squeeze([c] + t) + Squeeze(z)
  {
    var a := [c] + (t + z);
    var b := [c] + t;
    assert a[1..] == t + z && b[1..] == t;
    assert a[0] == c && b[0] == c && a[1] == t[0] && b[1] == t[0];
    if !IsSpace(c) || !IsSpace(t[0]) {
      var h := if IsSpace(c) then ' ' else c;
      assert Squeeze(a) == [h] + Squeeze(t + z);
      assert Squeeze(b) == [h] + Squeeze(t);
      ConcatAssoc([h], Squeeze(t), Squeeze(z));
    }
  }

  /** A non-empty whitespace run before a non-space (or the end) squeezes to one space. */
  lemma {:induction false} SqueezeRun(w: string, y: string)
    requires w != [] && forall i :: 0 <= i < |w| ==> IsSpace(w[i])
    requires y == [] || !IsSpace(y[0])
    ensures Squeeze(w + y) == " " + Squeeze(y)
  {
    assert (w + y)[1..] == w[1..] + y;
    if |w| > 1 {
      SqueezeRun(w[1..], y);
      assert (w + y)[1] == w[1];
    } else {
      assert w[1..] + y == y;
    }
  }

  /** Between two words, a whitespace run of any length becomes exactly one plain space. */
  lemma CollapseBetweenWords(x: string, w: string, y: string)
    requires x != [] && !IsSpace(x[|x| - 1])
    requires w != [] && forall i :: 0 <= i < |w| ==> IsSpace(w[i])
    requires y == [] || !IsSpace(y[0])
    ensures Collapse(x + w + y) == Collapse(x) + " " + Collapse(y)
  {
    ConcatAssoc(x, w, y);
    SqueezeAppend(x, w + y);
    SqueezeRun(w, y);
    ConcatAssoc(Squeeze(x), " ", Squeeze(y));
  }

  /** `w.charAt(0).toUpperCase() + w.slice(1).toLowerCase()`. */
  function Capitalize(w: string): string
  {
    if w == [] then [] else [UpperChar(w[0])] + Lower(w[1..])
  }

  function CapitalizeAll(ws: seq<string>): (r: seq<string>)
    ensures |r| == |ws| && forall i :: 0 <= i < |ws| ==> r[i] == Capitalize(ws[i])
  {
    seq(|ws|, i requires 0 <= i < |ws| => Capitalize(ws[i]))
  }

  /** Title case, character by character: upper case after a space or at the start, lower case elsewhere. */
  function TitleCase(t: string): (r: string)
    ensures |r| == |t|
    ensures forall i :: 0 <= i < |t| ==> r[i] == if i == 0 || t[i - 1] == ' ' then UpperChar(t[i]) else LowerChar(t[i])
  {
    seq(|t|, i requires 0 <= i < |t| => if i == 0 || t[i - 1] == ' ' then UpperChar(t[i]) else LowerChar(t[i]))
  }

  /** A word without spaces is title-cased by capitalising it. */
  lemma CapitalizeWord(w: string)
    requires ' ' !in w
    ensures Capitalize(w) == TitleCase(w)
  {
    if w != [] {
      forall j | 0 <= j < |w|
        ensures w[j] != ' '
      {
        assert w[j] in w;
      }
    }
  }

  /** Title case of "word space rest" is the capitalised word, a space, and the title case of the rest. */
  lemma TitleCaseAfterWord(w: string, rest: string)
    requires ' ' !in w
    ensures TitleCase(w + " " + rest) == Capitalize(w) + " " + TitleCase(rest)
  {
    CapitalizeWord(w);
    var t := w + " " + rest;
    var lhs := TitleCase(t);
    var rhs := TitleCase(w) + " " + TitleCase(rest);
    forall j | 0 <= j < |t|
      ensures lhs[j] == rhs[j]
    {
      if j < |w| {
        assert t[j] == w[j];
        if j > 0 {
          assert t[j - 1] == w[j - 1];
        }
      } else if j > |w| {
        assert t[j] == rest[j - |w| - 1];
        assert t[j - 1] == if j == |w| + 1 then ' ' else rest[j - |w| - 2];
      }
    }
  }

  /** Capitalising space-free words and joining them with spaces is title case of their join. */
  lemma {:induction false} CapitalizeJoin(parts: seq<string>)
    requires forall k :: 0 <= k < |parts| ==> ' ' !in parts[k]
    ensures Join(CapitalizeAll(parts), " ") == TitleCase(Join(parts, " "))
  {
    if |parts| == 1 {
      CapitalizeWord(parts[0]);
    } else if |parts| > 1 {
      var caps := CapitalizeAll(parts);
      assert caps[1..] == CapitalizeAll(parts[1..]);
      CapitalizeJoin(parts[1..]);
      TitleCaseAfterWord(parts[0], Join(parts[1..], " "));
    }
  }

  /** `split(' ').map(capitalize).join(' ')` is title case. */
  lemma CapitalizeWordsIsTitleCase(t: string)
    ensures Join(CapitalizeAll(Split(t, " ")), " ") == TitleCase(t)
  {
    var parts := Split(t, " ");
    forall k | 0 <= k < |parts| ensures ' ' !in parts[k] {
      ContainsChar(parts[k], ' ');
    }
    CapitalizeJoin(parts);
    JoinSplit(t, " ");
  }

  /** The name without its extension, with separators turned into single spaces and trimmed. */
  function SpacedName(fileName: string): string
  {
    Trim(Collapse(SpaceSeparators(StripExtension(fileName))))
  }

  /** The display title of a Drive file. */
  function CleanFileName(fileName: string): string
  {
    Join(CapitalizeAll(Split(SpacedName(fileName), " ")), " ")
  }

  /** Case mapping never turns a non-space into whitespace or the reverse. */
  lemma CaseKeepsSpaces(c: char)
    ensures IsSpace(UpperChar(c)) == IsSpace(c) && IsSpace(LowerChar(c)) == IsSpace(c)
    ensures (UpperChar(c) == ' ') == (c == ' ') && (LowerChar(c) == ' ') == (c == ' ')
    ensures c != '_' && c != '-' ==> UpperChar(c) != '_' && UpperChar(c) != '-' && LowerChar(c) != '_' && LowerChar(c) != '-'
  {
  }

  lemma SeparatorsGone(s: string)
    ensures '_' !in SpaceSeparators(s) && '-' !in SpaceSeparators(s)
  {
  }

  lemma CollapseKeepsAbsent(s: string, x: char)
    requires x !in s && x != ' '
    ensures x !in Collapse(s)
  {
  }

  /** A window of a string inherits its single plain spaces and its absent characters. */
  lemma WindowShape(c: string, a: nat, t: string)
    requires a + |t| <= |c| && t == c[a..a + |t|]
    requires '_' !in c && '-' !in c && NoDoubleSpace(c) && PlainSpaces(c)
    ensures '_' !in t && '-' !in t && NoDoubleSpace(t) && PlainSpaces(t)
  {
    forall i | 0 <= i < |t|
      ensures t[i] == c[a + i]
    {
    }
  }

  /** The spaced name has no '_' or '-', single plain spaces, and no whitespace at either end. */
  lemma SpacedNameShape(fileName: string)
    ensures WordsShape(SpacedName(fileName))
  {
    var m := SpaceSeparators(StripExtension(fileName));
    SeparatorsGone(StripExtension(fileName));
    var c := Collapse(m);
    CollapseKeepsAbsent(m, '_');
    CollapseKeepsAbsent(m, '-');
    TrimShape(c);
  }

  /** Trimming keeps a string free of separators and of doubled or non-plain spaces. */
  lemma TrimShape(c: string)
    requires '_' !in c && '-' !in c && NoDoubleSpace(c) && PlainSpaces(c)
    ensures var t := Trim(c);
      '_' !in t && '-' !in t && NoDoubleSpace(t) && PlainSpaces(t)
  {
    var a := TrimWindow(c);
    WindowShape(c, a, Trim(c));
  }

  /** Title case keeps every whitespace position and introduces no '_' or '-'. */
  lemma TitleCaseKeepsShape(t: string)
    requires WordsShape(t)
    ensures WordsShape(TitleCase(t))
  {
    var r := TitleCase(t);
    forall i | 0 <= i < |r|
      ensures r[i] != '_' && r[i] != '-'
      ensures IsSpace(r[i]) == IsSpace(t[i])
      ensures IsSpace(r[i]) ==> r[i] == ' '
    {
      assert t[i] in t;
      CaseKeepsSpaces(t[i]);
    }
  }

  /**
   * A cleaned title is words in title case separated by single spaces: no
   * '_' or '-', no leading, trailing or doubled whitespace, and no whitespace
   * other than ' '. It is the title case of the collapsed, trimmed name.
   */
  lemma CleanFileNameShape(fileName: string)
    ensures CleanFileName(fileName) == TitleCase(SpacedName(fileName))
    ensures WordsShape(CleanFileName(fileName))
  {
    var t := SpacedName(fileName);
    CapitalizeWordsIsTitleCase(t);
    SpacedNameShape(fileName);
    TitleCaseKeepsShape(t);
  }

  // ---------------------------------------------------------------------------
  // extractTagsFromFileName
  // ---------------------------------------------------------------------------

  /** The tag vocabulary, in the order tags are added. */
  const Keywords: seq<string> := [
    "machine learning", "ml", "ai", "artificial intelligence",
    "deep learning", "neural network", "python", "tensorflow",
    "pytorch", "sklearn", "scikit-learn", "numpy", "pandas",
    "data science", "statistics", "algorithm", "model",
    "tutorial", "workshop", "lecture", "assignment", "project",
    "beginner", "intermediate", "advanced", "introduction", "intro",
    "nlp", "computer vision", "cv", "reinforcement learning",
    "classification", "regression", "clustering", "prediction"
  ]

  /** A keyword is found when the name contains it, or contains it with its first space removed. */
  predicate KeywordFound(name: string, keyword: string)
  {
    Contains(name, RemoveFirst(keyword, ' ')) || Contains(name, keyword)
  }

  function FoundIn(name: string): string -> bool
  {
    keyword => KeywordFound(name, keyword)
  }

  predicate LettersAt(s: string, p: nat, n: nat)
  {
    p + n <= |s| && forall i :: p <= i < p + n ==> IsAsciiLetter(s[i])
  }

  predicate DigitsAt(s: string, p: nat, n: nat)
  {
    p + n <= |s| && forall i :: p <= i < p + n ==> IsDigit(s[i])
  }

  /** `/[a-z]{2,4}\s?\d{3}/i` matches at `p` with `letters` letters and `space` (0 or 1) whitespace characters. */
  predicate CourseWith(s: string, p: nat, letters: nat, space: nat)
  {
    LettersAt(s, p, letters) && (space == 1 ==> p + letters < |s| && IsSpace(s[p + letters])) &&
    DigitsAt(s, p + letters + space, 3)
  }

  /**
   * The (letters, whitespace) shapes in the order the backtracking matcher
   * tries them: greedy on the letters (4, then 3, then 2) and, for each,
   * on the optional whitespace (1, then 0).
   */
  const CourseShapes: seq<(nat, nat)> := [(4, 1), (4, 0), (3, 1), (3, 0), (2, 1), (2, 0)]

  /** The course-code match at `p` succeeds with the `k`-th shape tried. */
  predicate CourseShapeMatches(s: string, p: nat, k: nat)
    requires k < |CourseShapes|
  {
    CourseWith(s, p, CourseShapes[k].0, CourseShapes[k].1)
  }

  /**
   * The length of the course-code match at `p`, if any: the length of the
   * first shape in `CourseShapes` that matches there.
   */
  function CourseLengthAt(s: string, p: nat): (r: Option<nat>)
    ensures r.None? <==>
      !CourseWith(s, p, 4, 1) && !CourseWith(s, p, 4, 0) && !CourseWith(s, p, 3, 1) &&
      !CourseWith(s, p, 3, 0) && !CourseWith(s, p, 2, 1) && !CourseWith(s, p, 2, 0)
    ensures r.Some? ==> exists k :: (0 <= k < |CourseShapes| && CourseShapeMatches(s, p, k) &&
      (forall m :: 0 <= m < k ==> !CourseShapeMatches(s, p, m)) &&
      r.value == CourseShapes[k].0 + CourseShapes[k].1 + 3)
    ensures r.Some? ==> 5 <= r.value <= 8 && p + r.value <= |s| && LettersAt(s, p, 2) && DigitsAt(s, p + r.value - 3, 3)
  {
    if CourseWith(s, p, 4, 1) then FirstShapeAt(s, p, 0); Some(8)
    else if CourseWith(s, p, 4, 0) then FirstShapeAt(s, p, 1); Some(7)
    else if CourseWith(s, p, 3, 1) then FirstShapeAt(s, p, 2); Some(7)
    else if CourseWith(s, p, 3, 0) then FirstShapeAt(s, p, 3); Some(6)
    else if CourseWith(s, p, 2, 1) then FirstShapeAt(s, p, 4); Some(6)
    else if CourseWith(s, p, 2, 0) then FirstShapeAt(s, p, 5); Some(5)
    else None
  }

  /** When the `k`-th shape is the first to match, it witnesses the first-match clause of `CourseLengthAt`. */
  lemma FirstShapeAt(s: string, p: nat, k: nat)
    requires k < |CourseShapes| && CourseShapeMatches(s, p, k)
    requires forall m :: 0 <= m < k ==> !CourseWith(s, p, CourseShapes[m].0, CourseShapes[m].1)
    ensures exists j :: (0 <= j < |CourseShapes| && CourseShapeMatches(s, p, j) &&
      (forall m :: 0 <= m < j ==> !CourseShapeMatches(s, p, m)) &&
      CourseShapes[j].0 + CourseShapes[j].1 + 3 == CourseShapes[k].0 + CourseShapes[k].1 + 3)
  {
  }

  function CourseAt(s: string): nat -> bool
  {
    (p: nat) => CourseLengthAt(s, p).Some?
  }

  /** The first course code, upper-cased, if the name has one. */
  function CourseTag(name: string): (r: seq<string>)
    ensures |r| <= 1
    ensures r == [] <==> forall p :: 0 <= p < |name| ==> CourseLengthAt(name, p).None?
    ensures r != [] ==> |r[0]| >= 5 && IsDigit(r[0][|r[0]| - 1])
    ensures r != [] ==> (exists p :: 0 <= p < |name| && CourseLengthAt(name, p).Some? &&
                          (forall q :: 0 <= q < p ==> CourseLengthAt(name, q).None?) &&
                          r[0] == Upper(name[p..p + CourseLengthAt(name, p).value]))
  {
    match FirstIndex(|name|, CourseAt(name), 0)
    case None =>
      assert forall p :: 0 <= p < |name| ==> CourseLengthAt(name, p).None? by {
        forall p | 0 <= p < |name|
          ensures CourseLengthAt(name, p).None?
        {
          assert !CourseAt(name)(p);
        }
      }
      []
    case Some(p) =>
      var len := CourseLengthAt(name, p).value;
      var tag := Upper(name[p..p + len]);
      assert name[p + len - 1] == name[p..p + len][len - 1];
      assert forall q :: 0 <= q < p ==> CourseLengthAt(name, q).None? by {
        forall q | 0 <= q < p
          ensures CourseLengthAt(name, q).None?
        {
          assert !CourseAt(name)(q);
        }
      }
      [tag]
  }

  /** `/20\d{2}/` matches at `p`. */
  predicate YearAt(s: string, p: nat)
  {
    p + 4 <= |s| && s[p] == '2' && s[p + 1] == '0' && IsDigit(s[p + 2]) && IsDigit(s[p + 3])
  }

  function YearAtFn(s: string): nat -> bool
  {
    (p: nat) => YearAt(s, p)
  }

  /** The first four-digit year starting "20", if the name has one. */
  function YearTag(name: string): (r: seq<string>)
    ensures |r| <= 1
    ensures r == [] <==> forall p :: 0 <= p < |name| ==> !YearAt(name, p)
    ensures r != [] ==> |r[0]| == 4 && r[0][..2] == "20" && IsDigit(r[0][3]) && Contains(name, r[0])
    ensures r != [] ==> (exists p :: 0 <= p < |name| && YearAt(name, p) &&
                          (forall q :: 0 <= q < p ==> !YearAt(name, q)) && r[0] == name[p..p + 4])
  {
    match FirstIndex(|name|, YearAtFn(name), 0)
    case None =>
      assert forall p :: 0 <= p < |name| ==> !YearAt(name, p) by {
        forall p | 0 <= p < |name|
          ensures !YearAt(name, p)
        {
          assert !YearAtFn(name)(p);
        }
      }
      []
    case Some(p) =>
      var y := name[p..p + 4];
      assert StartsAt(name, p, y);
      assert y[..2] == "20";
      assert forall q :: 0 <= q < p ==> !YearAt(name, q) by {
        forall q | 0 <= q < p
          ensures !YearAt(name, q)
        {
          assert !YearAtFn(name)(q);
        }
      }
      [y]
  }

  /** The fixed tags suggested by words in the name. */
  function CategoryTags(name: string): (r: seq<string>)
    ensures "presentation" in r <==> Contains(name, "slides") || Contains(name, "presentation")
    ensures "jupyter" in r <==> Contains(name, "notebook") || Contains(name, ".ipynb")
    ensures "dataset" in r <==> Contains(name, "dataset") || Contains(name, "data")
    ensures "template" in r <==> Contains(name, "template")
    ensures forall t :: t in r ==> t in ["presentation", "jupyter", "dataset", "template"]
  {
    (if Contains(name, "slides") || Contains(name, "presentation") then ["presentation"] else []) +
    (if Contains(name, "notebook") || Contains(name, ".ipynb") then ["jupyter"] else []) +
    (if Contains(name, "dataset") || Contains(name, "data") then ["dataset"] else []) +
    (if Contains(name, "template") then ["template"] else [])
  }

  /** Every tag candidate in the order it is added to the set. */
  function TagCandidates(name: string): seq<string>
  {
    Filter(Keywords, FoundIn(name)) + CourseTag(name) + YearTag(name) + CategoryTags(name)
  }

  /** A `Set` filled from `cands` in order, turned into an array and cut to its first `n` entries. */
  function FirstDistinct(cands: seq<string>, n: nat): (r: seq<string>)
    ensures |r| == if |Unique(cands)| < n then |Unique(cands)| else n
    ensures r == Unique(cands)[..|r|]
    ensures Distinct(r)
    ensures forall t :: t in r ==> t in cands
    ensures |Unique(cands)| <= n ==> forall t :: t in cands ==> t in r
  {
    var all := Unique(cands);
    TakeKeeps(all, n);
    Take(all, n)
  }

  /**
   * The kept values are the earliest arrivals: when a value first added
   * after position `k` is kept, so is every value added before `k`.
   */
  lemma FirstDistinctKeepsEarliest(cands: seq<string>, n: nat, k: nat, x: string, y: string)
    requires k <= |cands| && y in cands[..k] && x !in cands[..k]
    requires x in FirstDistinct(cands, n)
    ensures y in FirstDistinct(cands, n)
  {
    EarlierCandidateKept(cands, n, k, x, y);
  }

  /** `extractTagsFromFileName`: the candidates, de-duplicated in insertion order, then the first 10. */
  function ExtractTagsFromFileName(fileName: string): (r: seq<string>)
    ensures var u := Unique(TagCandidates(Lower(fileName)));
      |r| == (if |u| < 10 then |u| else 10) && r == u[..|r|]
    ensures Distinct(r)
    ensures forall t :: t in r ==> t in TagCandidates(Lower(fileName))
    ensures |Unique(TagCandidates(Lower(fileName)))| <= 10 ==> forall t :: t in TagCandidates(Lower(fileName)) ==> t in r
  {
    FirstDistinct(TagCandidates(Lower(fileName)), 10)
  }

  /**
   * Every returned tag is a vocabulary entry the name mentions, the first
   * course code, the first year, or a category word whose trigger occurs.
   */
  lemma TagOrigins(fileName: string, t: string)
    requires t in ExtractTagsFromFileName(fileName)
    ensures var name := Lower(fileName);
      (t in Keywords && KeywordFound(name, t)) || t in CourseTag(name) || t in YearTag(name) || t in CategoryTags(name)
  {
    var name := Lower(fileName);
    var kws := Filter(Keywords, FoundIn(name));
    assert t in kws + CourseTag(name) + YearTag(name) + CategoryTags(name);
    if t in kws {
      assert FoundIn(name)(t);
    }
  }

  /**
   * Which ten tags survive: a candidate added to the set before a kept
   * tag was first added is kept too. With `k` the number of found
   * vocabulary keywords, a kept course, year or category tag that is not
   * itself a keyword means every found keyword was kept.
   */
  lemma EarlierTagsKept(fileName: string, k: nat, x: string, y: string)
    requires var cands := TagCandidates(Lower(fileName));
      k <= |cands| && y in cands[..k] && x !in cands[..k]
    requires x in ExtractTagsFromFileName(fileName)
    ensures y in ExtractTagsFromFileName(fileName)
  {
    FirstDistinctKeepsEarliest(TagCandidates(Lower(fileName)), 10, k, x, y);
  }

  // ---------------------------------------------------------------------------
  // generateDescription
  // ---------------------------------------------------------------------------

  /** The text before and after the cleaned name in each category's description. */
  function DescriptionFrame(category: ResourceCategory): (string, string)
  {
    match category
    case Presentation => ("Presentation slides on ", "")
    case Document => ("Document covering ", "")
    case Video => ("Video tutorial on ", "")
    case Template => ("", " template for projects and assignments")
    case Dataset => ("Dataset for ", " analysis and experiments")
    case Code => ("Code implementation for ", "")
    case Other => ("Resource file: ", "")
  }

  /** The category's sentence around a given name. */
  function Describe(name: string, category: ResourceCategory): (r: string)
    ensures var (before, after) := DescriptionFrame(category);
      r == before + name + after
  {
    match category
    case Presentation => "Presentation slides on " + name
    case Document => "Document covering " + name
    case Video => "Video tutorial on " + name
    case Template => name + " template for projects and assignments"
    case Dataset => "Dataset for " + name + " analysis and experiments"
    case Code => "Code implementation for " + name
    case Other => "Resource file: " + name
  }

  /** The fallback description: the cleaned name inside the category's sentence. */
  function GenerateDescription(fileName: string, category: ResourceCategory): (r: string)
    ensures var (before, after) := DescriptionFrame(category);
      r == before + CleanFileName(fileName) + after
  {
    Describe(CleanFileName(fileName), category)
  }

  /** Different categories never produce the same description for one file. */
  lemma DescriptionsDistinguishCategories(fileName: string, c1: ResourceCategory, c2: ResourceCategory)
    requires c1 != c2
    ensures GenerateDescription(fileName, c1) != GenerateDescription(fileName, c2)
  {
    var d1 := GenerateDescription(fileName, c1);
    var d2 := GenerateDescription(fileName, c2);
    if |d1| == |d2| {
      assert {c1, c2} == {Document, Video};
      assert d1[0] != d2[0];
    }
  }
}
