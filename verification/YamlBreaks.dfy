/** Printed documents with any strings, line breaks included: what is read from their lines. */
module YamlBreaks {
  import opened Json
  import opened Text
  import opened YamlText
  import opened YamlScalar
  import opened YamlWriter
  import opened YamlReader
  import opened YamlLineProofs
  import opened YamlScalarProofs
  import opened YamlRoundTrip
  import opened YamlWeight

  // ------------------------------------------------------------------ light lines are fine

  lemma {:induction false} ScalarIsFine(x: string, m: nat)
    requires Weight(Trimmed(x)) < m
    ensures ScalarFine(x, m)
  {
    ScalarWeight(x);
    hide Weight, Trimmed, IsGood, IsInteger, IntegerValue, FitsInt64, Unescaped, Undoubled;
  }

  lemma {:induction false} LightEntry(text: string, m: nat)
    requires Weight(text) < m
    ensures EntryFine(text, m) && ScalarFine(text, m)
  {
    hide Weight, ColonAt, ScalarFine, Trimmed;
    var p := ColonAt(text, 0, OUTSIDE);
    TrimmedWeight(text);
    ScalarIsFine(text, m);
    if p < |text| {
      SuffixWeight(text, p + 1);
      TrimmedWeight(text[p + 1..]);
      ScalarIsFine(text[p + 1..], m);
    }
  }

  lemma {:induction false} LightItem(x: string, m: nat)
    requires Weight(x) < m
    ensures ItemFine(x, m) && ScalarFine(x, m)
  {
    hide Weight, ColonAt, ScalarFine, EntryFine, StripRight;
    var first := StripRight(x, BlankOrTab);
    PrefixWeight(x, |first|);
    LightEntry(first, m);
    LightEntry(x, m);
  }

  lemma {:induction false} LightLine(text: string, m: nat)
    requires Weight(text) < m
    ensures LineFine(text, m)
  {
    hide Weight, ItemFine, EntryFine;
    LightEntry(text, m);
    if |text| >= 2 {
      SuffixWeight(text, 2);
      LightItem(text[2..], m);
    }
  }

  // ------------------------------------------------------------------ raw lines

  predicate RawFine(raw: string, m: nat) {
    LinesFine(LineOf(raw), m)
  }

  /** Every line of a text that may contain line breaks is fine. */
  predicate RawsFine(s: string, m: nat)
    decreases |s|
  {
    var k := FindChar(s, '\n', 0);
    RawFine(s[..k], m) && (k < |s| ==> RawsFine(s[k + 1..], m))
  }

  lemma {:induction false} ChopWeight(s: string)
    ensures Weight(ChopCR(s)) <= Weight(s)
  {
    hide Weight;
    if s != "" { PrefixWeight(s, |s| - 1); }
  }

  lemma {:induction false} CutWeight(s: string, first: nat)
    requires first <= |s|
    ensures Weight(CutComment(s, first)) <= Weight(s)
  {
    hide Weight, StripRight;
    var k := HashAt(s, first, OUTSIDE);
    PrefixWeight(s, k);
    PrefixWeight(s[..k], |StripRight(s[..k], Blank)|);
  }

  lemma {:induction false} CleanWeight(s: string)
    ensures Weight(Clean(s)) <= Weight(s)
  {
    hide Weight, CutComment, ChopCR;
    ChopWeight(s);
    CutWeight(ChopCR(s), 0);
  }

  lemma {:induction false} LightRaw(raw: string, m: nat)
    requires Weight(raw) < m
    ensures RawFine(raw, m)
  {
    hide Weight, CutComment, ChopCR, LineFine, SkipForward;
    var s := ChopCR(raw);
    var n := SkipForward(s, 0, Blank);
    ChopWeight(raw);
    CutWeight(s, n);
    if n < |s| && s[n] != '#' {
      var c := CutComment(s, n);
      assert s[n] != ' ' && n < |c|;
      SuffixWeight(c, n);
      LightLine(c[n..], m);
    }
  }

  lemma {:induction false} LightRaws(s: string, m: nat)
    requires Weight(s) < m
    ensures RawsFine(s, m)
    decreases |s|
  {
    hide Weight, RawFine, FindChar;
    var k := FindChar(s, '\n', 0);
    PrefixWeight(s, k);
    LightRaw(s[..k], m);
    if k < |s| {
      SuffixWeight(s, k + 1);
      LightRaws(s[k + 1..], m);
    }
  }

  lemma {:induction false} LineEndIs(src: string, i: nat, n: nat)
    requires i <= n < |src| && src[n] == '\n' && forall j :: i <= j < n ==> src[j] != '\n'
    ensures LineEnd(src, i) == n
  {
    hide LineEnd;
    var e := LineEnd(src, i);
    assert e == n;
  }

  lemma {:induction false} LinesConcat(a: seq<Line>, b: seq<Line>, m: nat)
    requires LinesFine(a, m) && LinesFine(b, m)
    ensures LinesFine(a + b, m)
  {
    hide LineFine;
  }

  /** The first raw line of a text that stands somewhere in a document. */
  lemma {:induction false} FirstBreak(src: string, i: nat, s: string, rest: string, k: nat)
    requires i <= |src| && src[i..] == s + "\n" + rest && k == FindChar(s, '\n', 0)
    ensures LineEnd(src, i) == i + k < |src| && src[i..i + k] == s[..k]
    ensures k < |s| ==> src[i + k + 1..] == s[k + 1..] + "\n" + rest
  {
    hide FindChar;
    var t := src[i..];
    assert forall j :: 0 <= j < |s| ==> t[j] == s[j] && src[i + j] == t[j];
    assert t[|s|] == '\n' && src[i + |s|] == t[|s|];
    LineEndIs(src, i, i + k);
    assert src[i..i + k] == t[..k] == s[..k];
    if k < |s| { assert src[i + k + 1..] == t[k + 1..] == s[k + 1..] + "\n" + rest; }
  }

  /** The lines of a text and of what follows it. */
  lemma {:induction false} RawLines(src: string, i: nat, s: string, rest: string, m: nat)
    requires i <= |src| && src[i..] == s + "\n" + rest
    requires RawsFine(s, m) && LinesFine(LinesOf(src, |src| - |rest|), m)
    ensures LinesFine(LinesOf(src, i), m)
    decreases |s|
  {
    hide LineOf, LinesFine, FindChar, LineEnd;
    var k := FindChar(s, '\n', 0);
    FirstBreak(src, i, s, rest, k);
    if k < |s| { RawLines(src, i + k + 1, s[k + 1..], rest, m); }
    LinesConcat(LineOf(s[..k]), LinesOf(src, i + k + 1), m);
  }

  predicate LinesSound(ls: seq<Line>, m: nat) {
    forall i :: 0 <= i < |ls| ==> RawsFine(Spaces(ls[i].indent) + ls[i].text, m)
  }

  lemma {:induction false} PrintedFine(src: string, i: nat, ls: seq<Line>, m: nat)
    requires i <= |src| && src[i..] == Unlines(ls) && LinesSound(ls, m)
    ensures LinesFine(LinesOf(src, i), m)
    decreases |ls|
  {
    hide RawsFine, LineOf, LineEnd, LineFine;
    if ls != [] {
      var s, rest := Spaces(ls[0].indent) + ls[0].text, Unlines(ls[1..]);
      assert src[i..] == s + "\n" + rest;
      var j := |src| - |rest|;
      assert src[j..] == src[i..][j - i..] == rest;
      PrintedFine(src, j, ls[1..], m);
      RawLines(src, i, s, rest, m);
    }
  }

  // ------------------------------------------------------------------ the printed text of a scalar

  /** Plain keys throughout, and integers that fit. */
  predicate IsShaped(v: Json)
    decreases v
  {
    match v
    case JInt(n) => FitsInt64(n)
    case JArray(items) => forall i :: 0 <= i < |items| ==> IsShaped(items[i])
    case JObject(fields) => forall i :: 0 <= i < |fields| ==> IsPlainKey(fields[i].key) && IsShaped(fields[i].value)
    case _ => true
  }

  /** A string that is neither quoted nor survives loses some of its weight. */
  lemma {:induction false} PlainLosesWeight(s: string)
    requires !NeedsQuoting(s) && !Survives(s)
    ensures Weight(Trimmed(Clean(s))) < Weight(s)
  {
    hide Weight, NeedsQuoting, Trimmed, CutComment, HashAt;
    assert s != "" by { EmptyIsQuoted(); }
    var t := ChopCR(s);
    TrimmedWeight(Clean(s));
    CutWeight(t, 0);
    LastWeight(s);
    if s[|s| - 1] != '\r' {
      if HashAt(s, 0, OUTSIDE) < |s| {
        CommentWeight(s);
      } else {
        assert Clean(s) == s by { NoComment(s); }
        EndsWeight(s);
      }
    }
  }

  lemma {:induction false} LastWeight(s: string)
    requires s != ""
    ensures Weight(s) == Weight(s[..|s| - 1]) + if IsQuote(s[|s| - 1]) then 0 else 1
  {
  }

  lemma {:induction false} NoComment(s: string)
    requires HashAt(s, 0, OUTSIDE) == |s|
    ensures CutComment(s, 0) == s
  {
  }

  lemma {:induction false} CommentWeight(s: string)
    requires HashAt(s, 0, OUTSIDE) < |s|
    ensures Weight(CutComment(s, 0)) < Weight(s)
  {
    hide Weight, StripRight;
    var k := HashAt(s, 0, OUTSIDE);
    assert s[..k + 1][..k] == s[..k];
    PrefixWeight(s, k + 1);
    LastWeight(s[..k + 1]);
    PrefixWeight(s[..k], |StripRight(s[..k], Blank)|);
  }

  lemma {:induction false} EndsWeight(s: string)
    requires s != "" && (In(s[0], White) || In(s[|s| - 1], White))
    ensures Weight(Trimmed(s)) < Weight(s)
  {
    hide Weight, SkipBack, SkipForward;
    var i := SkipForward(s, 0, White);
    var j := SkipBack(s, i, |s|, White);
    WeightSlice(s, i, j);
    assert s[0..] == s;
    if i > 0 {
      LastWeight(s[..i]);
    } else {
      DropWeight(s, j);
    }
  }

  lemma {:induction false} QuotedWeight(s: string)
    ensures Weight(Quoted(s)) == Weight(s)
  {
    hide Weight;
    DoubledWeight(s);
    WeightOne('\'');
    WeightConcat("'", Doubled(s));
    WeightConcat("'" + Doubled(s), "'");
  }

  lemma {:induction false} DoubledWeight(s: string)
    ensures Weight(Doubled(s)) == Weight(s)
    decreases |s|
  {
    hide Weight;
    if s != "" {
      var n := |s| - 1;
      DoubledWeight(s[..n]);
      LastWeight(s);
      WeightOne(s[n]);
      WeightConcat(Doubled(s[..n]), [s[n]]);
      ConsWeight('\'', "'");
      WeightOne('\'');
      assert "''" == ['\''] + "'";
      WeightConcat(Doubled(s[..n]), "''");
    }
  }

  lemma {:induction false} DoubledKeepsBreak(s: string)
    requires '\n' in s
    ensures '\n' in Doubled(s)
    decreases |s|
  {
    if s[|s| - 1] != '\n' { DoubledKeepsBreak(s[..|s| - 1]); }
  }

  lemma {:induction false} BrokenIsQuoted(s: string)
    requires '\n' in s
    ensures NeedsQuoting(s) && '\n' in Quoted(s)
  {
    DoubledKeepsBreak(s);
  }

  lemma {:induction false} GoodTextFine(s: string, m: nat)
    requires IsGood(s)
    ensures var x := Clean(ScalarText(JString(s))); ScalarFine(x, m) && ItemFine(x, m)
  {
    hide ScalarOf, Clean, ScalarText, ColonAt, StripRight, Survives;
    StringReadsBack(s);
    ItemReadsBack(s);
  }

  lemma {:induction false} PlainTextFine(s: string, m: nat)
    requires !NeedsQuoting(s) && !Survives(s) && Weight(s) <= m
    ensures ScalarFine(Clean(s), m) && ItemFine(Clean(s), m)
  {
    hide Weight, NeedsQuoting, Survives, Clean, ColonAt, StripRight, ScalarFine, Trimmed;
    var x := Clean(s);
    PlainLosesWeight(s);
    ScalarIsFine(x, m);
    CleanWeight(s);
    var first := StripRight(x, BlankOrTab);
    var p := ColonAt(first, 0, OUTSIDE);
    if p < |first| {
      PrefixWeight(x, |first|);
      SuffixWeight(first, p);
      DropWeight(first, p);
      LightEntry(first[p + 1..], m);
    }
  }

  lemma {:induction false} OtherTextFine(v: Json, m: nat)
    requires !IsNested(v) && IsShaped(v) && !v.JString?
    ensures ScalarFine(Clean(ScalarText(v)), m) && ItemFine(Clean(ScalarText(v)), m)
  {
    hide ScalarOf, Clean, ScalarText, ColonAt, StripRight;
    if v.JArray? || v.JObject? { BracketsFine(v, m); } else { ScalarReadsBack(v); }
  }

  lemma {:induction false} BracketsFine(v: Json, m: nat)
    requires (v.JArray? || v.JObject?) && !IsNested(v)
    ensures ScalarFine(Clean(ScalarText(v)), m) && ItemFine(Clean(ScalarText(v)), m)
  {
    hide Clean, ColonAt, StripRight, IsGood, ScalarOf;
    var t := ScalarText(v);
    InertReads(t);
    StripRightIs(t, |t|, BlankOrTab);
    BracketsAreGood(t);
    BracketsRead(t);
  }

  lemma {:induction false} BracketsAreGood(t: string)
    requires t == "[]" || t == "{}"
    ensures IsGood(t)
  {
    hide HashAt, HasColonSpace, IsInteger;
    assert IsSpecial(t[0]);
  }

  lemma {:induction false} BracketsRead(t: string)
    requires |t| == 2 && (t[0] == '[' || t[0] == '{') && (t[1] == ']' || t[1] == '}')
    ensures ScalarOf(t) == JString(t)
  {
    hide Trimmed, Unescaped, Undoubled, IntegerValue;
    TrimmedFixed(t);
    assert !IsDigit(t[0]);
  }

  lemma {:induction false} WholeTextFine(v: Json, m: nat)
    requires !IsNested(v) && IsShaped(v) && StringsFine(v, m + 1) && '\n' !in ScalarText(v)
    ensures ScalarFine(Clean(ScalarText(v)), m) && ItemFine(Clean(ScalarText(v)), m)
  {
    hide Clean, NeedsQuoting, Survives, Weight, ScalarFine, ItemFine, Quoted;
    if v.JString? {
      if IsGood(v.s) {
        GoodTextFine(v.s, m);
      } else {
        if '\n' in v.s { BrokenIsQuoted(v.s); }
        if NeedsQuoting(v.s) { QuotedSurvives(v.s); }
        PlainTextFine(v.s, m);
      }
    } else {
      OtherTextFine(v, m);
    }
  }

  // ------------------------------------------------------------------ what stands before a scalar

  /** A prefix of a printed line that hands on what follows it. */
  ghost predicate Carries(p: string, m: nat) {
    p != "" && p[0] != ' ' && p[0] != '\r' && IsPlain(p) && '\n' !in p
    && forall x: string :: ScalarFine(x, m) && ItemFine(x, m) ==> LineFine(p + x, m)
  }

  lemma {:induction false} AfterBlank(x: string)
    ensures ScalarOf(" " + x) == ScalarOf(x)
    ensures ScalarOf(StripRight(" " + x, BlankOrTab)) == ScalarOf(x)
  {
    hide ScalarOf, Trimmed, StripRight;
    TrimmedAfterBlank(x);
    TrimmedStripped(" " + x, BlankOrTab);
    ScalarOfTrimmed(x);
    ScalarOfTrimmed(" " + x);
    ScalarOfTrimmed(StripRight(" " + x, BlankOrTab));
  }

  lemma {:induction false} KeyedFine(key: string, x: string, m: nat)
    requires IsPlainKey(key) && ScalarFine(x, m)
    ensures EntryFine(key + ":" + (" " + x), m)
    ensures EntryFine(key + ":" + StripRight(" " + x, BlankOrTab), m)
  {
    hide ScalarOf, ColonAt, StripRight, StringsFine, IsPlainKey;
    KeyFacts(key);
    AfterBlank(x);
    var w := StripRight(" " + x, BlankOrTab);
    KeyColon(key, " " + x, 0);
    KeyColon(key, w, 0);
    assert (key + ":" + (" " + x))[|key| + 1..] == " " + x;
    assert (key + ":" + w)[|key| + 1..] == w;
  }

  lemma {:induction false} KeyCarries(key: string, m: nat)
    requires IsPlainKey(key)
    ensures Carries(key + ": ", m)
  {
    hide ScalarFine, ItemFine, EntryFine;
    KeyFacts(key);
    var p := key + ": ";
    assert p[0] == key[0];
    forall x: string | ScalarFine(x, m) && ItemFine(x, m)
      ensures LineFine(p + x, m)
    {
      KeyedFine(key, x, m);
      assert p + x == key + ":" + (" " + x);
    }
  }

  lemma {:induction false} DashCarries(m: nat)
    ensures Carries("- ", m)
  {
    hide ScalarFine, ItemFine, EntryFine;
    forall x: string | ScalarFine(x, m) && ItemFine(x, m)
      ensures LineFine("- " + x, m)
    {
      assert ("- " + x)[2..] == x;
    }
  }

  lemma {:induction false} DashKeyCarries(key: string, m: nat)
    requires IsPlainKey(key)
    ensures Carries("- " + key + ": ", m)
  {
    hide ScalarFine, ItemFine, EntryFine, IsPlainKey;
    KeyFacts(key);
    var p := "- " + key + ": ";
    forall x: string | ScalarFine(x, m) && ItemFine(x, m)
      ensures LineFine(p + x, m)
    {
      DashKeyedFine(key, x, m);
      assert (p + x)[2..] == key + ":" + (" " + x);
    }
  }

  lemma {:induction false} DashKeyedFine(key: string, x: string, m: nat)
    requires IsPlainKey(key) && ScalarFine(x, m)
    ensures ItemFine(key + ":" + (" " + x), m)
  {
    hide ScalarFine, EntryFine, IsPlainKey, StripRight, ColonAt;
    var w := StripRight(" " + x, BlankOrTab);
    KeyFacts(key);
    StripRightAfter(key + ":", " " + x, BlankOrTab);
    KeyColon(key, w, 0);
    KeyedFine(key, x, m);
  }

  // ------------------------------------------------------------------ the lines of a printed value

  lemma {:induction false} OneRaw(s: string, m: nat)
    requires '\n' !in s && RawFine(s, m)
    ensures RawsFine(s, m)
  {
    hide RawFine;
    FindCharIs(s, '\n', 0, |s|);
    assert s[..|s|] == s;
  }

  lemma {:induction false} FirstRaw(s: string, k: nat, m: nat)
    requires k < |s| && s[k] == '\n' && '\n' !in s[..k] && RawFine(s[..k], m) && RawsFine(s[k + 1..], m)
    ensures RawsFine(s, m)
  {
    hide RawFine;
    assert forall i :: 0 <= i < k ==> s[i] == s[..k][i];
    FindCharIs(s, '\n', 0, k);
  }

  lemma {:induction false} PrefixedRaw(n: nat, p: string, x: string, m: nat)
    requires Carries(p, m) && x != "" && x[0] != '#' && x[0] != ' ' && '\n' !in x
    requires ScalarFine(Clean(x), m) && ItemFine(Clean(x), m)
    ensures '\n' !in Spaces(n) + (p + x) && RawFine(Spaces(n) + (p + x), m)
  {
    hide Clean, ScalarFine, ItemFine, LineFine, LineOf;
    var l := Line(n, p + x);
    assert p[0] in p;
    LineOfPrinted(l);
    CleanAfter(p, x);
  }

  lemma {:induction false} TextSound(n: nat, p: string, v: Json, m: nat)
    requires Carries(p, m) && !IsNested(v) && IsShaped(v) && StringsFine(v, m + 1)
    ensures RawsFine(Spaces(n) + (p + ScalarText(v)), m)
  {
    hide Carries, Clean, ScalarFine, ItemFine, RawFine, RawsFine, Quoted, NeedsQuoting, IsShaped, Spaces;
    ScalarTextStart(v);
    var t := ScalarText(v);
    if '\n' !in t {
      WholeTextFine(v, m);
      PrefixedRaw(n, p, t, m);
      OneRaw(Spaces(n) + (p + t), m);
    } else {
      TextWithBreak(v);
      BrokenSound(n, p, v.s, m);
    }
  }

  lemma {:induction false} TextWithBreak(v: Json)
    requires !IsNested(v) && '\n' in ScalarText(v)
    ensures v.JString? && NeedsQuoting(v.s) && '\n' in v.s && !IsGood(v.s)
  {
    hide Survives, NeedsQuoting, Doubled;
    if v.JInt? { IntegerTextShape(v.n); }
    if v.JString? {
      if '\n' in v.s { BrokenIsQuoted(v.s); } else { DoubledNoNewline(v.s); }
    }
  }

  lemma {:induction false} BrokenSound(n: nat, p: string, u: string, m: nat)
    requires Carries(p, m) && '\n' in Quoted(u) && Weight(u) <= m
    ensures RawsFine(Spaces(n) + (p + Quoted(u)), m)
  {
    hide Carries, Clean, ScalarFine, ItemFine, RawFine, RawsFine, Weight, Spaces, FindChar;
    var q := Quoted(u);
    var j := FindChar(q, '\n', 0);
    assert q[j] == '\n' && j > 0 && q[0] == '\'';
    FragmentsLight(u, j);
    var x := q[..j];
    CleanWeight(x);
    LightItem(Clean(x), m);
    PrefixedRaw(n, p, x, m);
    LightRaws(q[j + 1..], m);
    var s := Spaces(n) + (p + q);
    var k := |Spaces(n)| + |p| + j;
    assert s[..k] == Spaces(n) + (p + x) && s[k] == '\n' && s[k + 1..] == q[j + 1..];
    FirstRaw(s, k, m);
  }

  lemma {:induction false} FragmentsLight(u: string, j: nat)
    requires j < |Quoted(u)| && Quoted(u)[j] == '\n'
    ensures Weight(Quoted(u)[..j]) < Weight(u) && Weight(Quoted(u)[j + 1..]) < Weight(u)
  {
    hide Weight, Quoted;
    var q := Quoted(u);
    QuotedWeight(u);
    WeightSlice(q, j, j + 1);
    assert q[j..j + 1] == [q[j]];
    WeightOne(q[j]);
  }

  lemma {:induction false} NestedSound(n: nat, key: string, m: nat)
    requires IsPlainKey(key)
    ensures RawsFine(Spaces(n) + (key + ":"), m) && RawsFine(Spaces(n) + ("- " + key + ":"), m)
  {
    hide Clean, RawsFine, LineFine, LineOf;
    KeyFacts(key);
    var a, b := key + ":", "- " + key + ":";
    assert a[0] == key[0] && key[0] in key;
    CleanPlain(a);
    CleanPlain(b);
    LineOfPrinted(Line(n, a));
    LineOfPrinted(Line(n, b));
    NestedLine(key, m);
    OneRaw(Spaces(n) + a, m);
    OneRaw(Spaces(n) + b, m);
  }

  lemma {:induction false} NestedLine(key: string, m: nat)
    requires IsPlainKey(key)
    ensures LineFine(key + ":", m) && LineFine("- " + key + ":", m)
  {
    hide IsPlainKey, StripRight, ColonAt;
    KeyFacts(key);
    var a := key + ":";
    KeyColon(key, "", 0);
    assert a + "" == a && a[|key| + 1..] == "";
    StripRightIs(a, |a|, BlankOrTab);
    assert a[..|a|] == a && ("- " + key + ":")[2..] == a;
    TrimmedFixed("");
  }

  lemma {:induction false} DashSound(n: nat, m: nat)
    ensures RawsFine(Spaces(n) + "-", m)
  {
    hide Clean, RawsFine, LineOf;
    CleanPlain("-");
    LineOfPrinted(Line(n, "-"));
    OneRaw(Spaces(n) + "-", m);
  }

  lemma {:induction false} SoundConcat(a: seq<Line>, b: seq<Line>, m: nat)
    requires LinesSound(a, m) && LinesSound(b, m)
    ensures LinesSound(a + b, m)
  {
    hide RawsFine;
  }

  /** The first line of an entry, alone and behind a dash. */
  lemma {:induction false} HeadSound(f: Field, n: nat, m: nat)
    requires IsPlainKey(f.key) && IsShaped(f.value) && StringsFine(f.value, m + 1)
    ensures RawsFine(Spaces(n) + (f.key + ":" + EntryTail(f.value)), m)
    ensures RawsFine(Spaces(n) + ("- " + (f.key + ":" + EntryTail(f.value))), m)
  {
    hide RawsFine, Carries, IsPlainKey, IsShaped, StringsFine, ScalarText, Spaces;
    var key, t := f.key, ScalarText(f.value);
    if IsNested(f.value) {
      NestedSound(n, key, m);
      assert key + ":" + "" == key + ":" && "- " + (key + ":") == "- " + key + ":";
    } else {
      KeyCarries(key, m);
      DashKeyCarries(key, m);
      TextSound(n, key + ": ", f.value, m);
      TextSound(n, "- " + key + ": ", f.value, m);
      assert key + ":" + (" " + t) == key + ": " + t;
      assert "- " + (key + ":" + (" " + t)) == "- " + key + ": " + t;
    }
  }

  lemma {:induction false} EntrySound(f: Field, indent: nat, m: nat)
    requires IsPlainKey(f.key) && IsShaped(f.value) && StringsFine(f.value, m + 1)
    ensures LinesSound(EntryLines(f, indent), m)
    decreases f, 1
  {
    hide RawsFine, EntryLines, IsPlainKey, EntryTail, Spaces;
    EntryShape(f, indent);
    HeadSound(f, indent, m);
    if IsNested(f.value) {
      if f.value.JArray? { ItemsSound(f.value.items, indent, m); } else { MapSound(f.value.fields, indent + 2, m); }
    }
    SoundConcat([Line(indent, f.key + ":" + EntryTail(f.value))], EntryRest(f.value, indent), m);
  }

  lemma {:induction false} MapSound(fields: seq<Field>, indent: nat, m: nat)
    requires forall i :: 0 <= i < |fields| ==>
      IsPlainKey(fields[i].key) && IsShaped(fields[i].value) && StringsFine(fields[i].value, m + 1)
    ensures LinesSound(MapLines(fields, indent), m)
    decreases fields, 0
  {
    hide RawsFine, EntryLines, IsPlainKey, IsShaped, StringsFine;
    if fields != [] {
      EntrySound(fields[0], indent, m);
      MapSound(fields[1..], indent, m);
      SoundConcat(EntryLines(fields[0], indent), MapLines(fields[1..], indent), m);
    }
  }

  lemma {:induction false} ItemsSound(items: seq<Json>, indent: nat, m: nat)
    requires forall i :: 0 <= i < |items| ==> IsShaped(items[i]) && StringsFine(items[i], m + 1)
    ensures LinesSound(ItemLines(items, indent), m)
    decreases items, 0
  {
    hide RawsFine, OneItemLines, IsShaped, StringsFine;
    if items != [] {
      ItemSound(items[0], indent, m);
      ItemsSound(items[1..], indent, m);
      SoundConcat(OneItemLines(items[0], indent), ItemLines(items[1..], indent), m);
    }
  }

  lemma {:induction false} ItemSound(v: Json, indent: nat, m: nat)
    requires IsShaped(v) && StringsFine(v, m + 1)
    ensures LinesSound(OneItemLines(v, indent), m)
    decreases v, 1
  {
    hide RawsFine, IsPlainKey, EntryTail, EntryLines, Spaces, ScalarText, Carries;
    if v.JObject? && v.fields != [] {
      var f := v.fields[0];
      MapSound(v.fields, indent + 2, m);
      EntryShape(f, indent + 2);
      HeadSound(f, indent, m);
    } else if v.JArray? && v.items != [] {
      DashSound(indent, m);
      ItemsSound(v.items, indent + 2, m);
      SoundConcat([Line(indent, "-")], ItemLines(v.items, indent + 2), m);
    } else {
      DashCarries(m);
      TextSound(indent, "- ", v, m);
    }
  }

  /** Printing and reading makes every string that does not survive lighter. */
  lemma {:induction false} ReadsLighter(v: Json, m: nat)
    requires IsNested(v) && IsShaped(v) && StringsFine(v, m + 1)
    ensures var r := YamlValue(YamlDocument(v)); r.Success? ==> StringsFine(r.value, m)
  {
    hide RawsFine, ItemLines, MapLines, LinesOf, Document, LinesFine, IsPlainKey;
    var src := YamlDocument(v);
    assert src[0..] == src;
    if v.JArray? { ItemsSound(v.items, 0, m); } else { MapSound(v.fields, 0, m); }
    PrintedFine(src, 0, YamlLines(v), m);
    DocumentFine(LinesOf(src, 0), m);
  }

  // ------------------------------------------------------------------ the round trip of values

  /** What the writer can print line by line, but for line breaks in strings: 64-bit integers, plain
      distinct keys, and no non-empty array directly inside an array. */
  predicate IsFormed(v: Json)
    decreases v
  {
    match v
    case JInt(n) => FitsInt64(n)
    case JArray(items) =>
      forall i :: 0 <= i < |items| ==> IsFormed(items[i]) && !(items[i].JArray? && items[i].items != [])
    case JObject(fields) =>
      (forall i :: 0 <= i < |fields| ==> IsPlainKey(fields[i].key) && IsFormed(fields[i].value))
      && DistinctKeys(fields)
    case _ => true
  }

  predicate HasSingleLines(v: Json)
    decreases v
  {
    match v
    case JString(s) => '\n' !in s
    case JArray(items) => forall i :: 0 <= i < |items| ==> HasSingleLines(items[i])
    case JObject(fields) => forall i :: 0 <= i < |fields| ==> HasSingleLines(fields[i].value)
    case _ => true
  }

  lemma {:induction false} FormedIsShaped(v: Json)
    requires IsFormed(v)
    ensures IsShaped(v)
    ensures IsWritable(v) <==> HasSingleLines(v)
    decreases v
  {
    hide IsPlainKey, DistinctKeys;
    if v.JArray? {
      forall i | 0 <= i < |v.items|
        ensures IsShaped(v.items[i]) && (IsWritable(v.items[i]) <==> HasSingleLines(v.items[i]))
      {
        FormedIsShaped(v.items[i]);
      }
    } else if v.JObject? {
      forall i | 0 <= i < |v.fields|
        ensures IsShaped(v.fields[i].value) && (IsWritable(v.fields[i].value) <==> HasSingleLines(v.fields[i].value))
      {
        FormedIsShaped(v.fields[i].value);
      }
    }
  }

  /** Some bound is good for all strings of a value. */
  lemma {:induction false} SomeBound(v: Json) returns (m: nat)
    ensures StringsFine(v, m)
    decreases v, 0
  {
    hide Weight, IsGood;
    m := 0;
    match v {
      case JString(s) => m := Weight(s) + 1;
      case JArray(items) => m := ItemsBound(items);
      case JObject(fields) => m := FieldsBound(fields);
      case _ =>
    }
  }

  lemma {:induction false} ItemsBound(items: seq<Json>) returns (m: nat)
    ensures StringsFine(JArray(items), m)
    decreases items, 1
  {
    m := 0;
    if items != [] {
      var a := SomeBound(items[0]);
      var b := ItemsBound(items[1..]);
      m := a + b;
      MoreIsFine(items[0], a, m);
      MoreIsFine(JArray(items[1..]), b, m);
      assert forall i :: 1 <= i < |items| ==> items[i] == items[1..][i - 1];
    }
  }

  lemma {:induction false} FieldsBound(fields: seq<Field>) returns (m: nat)
    ensures StringsFine(JObject(fields), m)
    decreases fields, 1
  {
    m := 0;
    if fields != [] {
      var a := SomeBound(fields[0].value);
      var b := FieldsBound(fields[1..]);
      m := a + b;
      MoreIsFine(fields[0].value, a, m);
      MoreIsFine(JObject(fields[1..]), b, m);
      assert forall i :: 1 <= i < |fields| ==> fields[i] == fields[1..][i - 1];
    }
  }

  lemma {:induction false} MoreIsFine(v: Json, m: nat, more: nat)
    requires StringsFine(v, m) && m <= more
    ensures StringsFine(v, more)
    decreases v
  {
    hide Weight, IsGood;
    if v.JArray? {
      forall i | 0 <= i < |v.items|
        ensures StringsFine(v.items[i], more)
      {
        MoreIsFine(v.items[i], m, more);
      }
    } else if v.JObject? {
      forall i | 0 <= i < |v.fields|
        ensures StringsFine(v.fields[i].value, more)
      {
        MoreIsFine(v.fields[i].value, m, more);
      }
    }
  }

  lemma {:induction false} SameHasLightStrings(v: Json, m: nat)
    requires IsNested(v) && IsShaped(v) && StringsFine(v, m) && YamlValue(YamlDocument(v)) == Success(v)
    ensures StringsFine(v, 0)
  {
    hide IsShaped, StringsFine, YamlValue, YamlDocument;
    if m > 0 {
      ReadsLighter(v, m - 1);
      SameHasLightStrings(v, m - 1);
    }
  }

  lemma {:induction false} LightIsSingle(v: Json)
    requires StringsFine(v, 0)
    ensures HasSingleLines(v)
    decreases v
  {
    hide Survives;
    if v.JArray? {
      forall i | 0 <= i < |v.items|
        ensures HasSingleLines(v.items[i])
      {
        LightIsSingle(v.items[i]);
      }
    } else if v.JObject? {
      forall i | 0 <= i < |v.fields|
        ensures HasSingleLines(v.fields[i].value)
      {
        LightIsSingle(v.fields[i].value);
      }
    }
  }

  /** The round trip with any strings: a printed document reads back as the same value if and only if
      every string is a single line that survives and there is no empty array or object. */
  lemma {:induction false} RoundTripExactly(v: Json)
    requires IsFormed(v) && IsNested(v)
    ensures YamlValue(YamlDocument(v)) == Success(v) <==> AllSurvive(v) && HasSingleLines(v)
  {
    hide IsFormed, IsShaped, IsWritable, HasSingleLines, StringsFine, YamlValue, YamlDocument, AllSurvive;
    FormedIsShaped(v);
    if YamlValue(YamlDocument(v)) == Success(v) {
      var m := SomeBound(v);
      SameHasLightStrings(v, m);
      LightIsSingle(v);
    }
    if HasSingleLines(v) { RoundTrip(v); }
  }
}
