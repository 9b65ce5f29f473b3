/** The scalar layer of the round trip: what the reader makes of the text the writer prints
    for a single value, and exactly which strings survive. */
module YamlScalarProofs {
  import opened Json
  import opened Numerals
  import opened Text
  import opened YamlText
  import opened YamlScalar
  import opened YamlLineProofs

  // ------------------------------------------------------------------ trimming facts

  lemma {:induction false} TrimmedIs(s: string, i: nat, j: nat)
    requires i <= j <= |s|
    requires forall m :: 0 <= m < i ==> In(s[m], White)
    requires forall m :: j <= m < |s| ==> In(s[m], White)
    requires i < j ==> !In(s[i], White) && !In(s[j - 1], White)
    requires i == j ==> j == |s|
    ensures Trimmed(s) == s[i..j]
  {
    var a := SkipForward(s, 0, White);
    if i < j { assert a == i; } else { assert a == |s|; }
  }

  lemma {:induction false} TrimmedFixed(s: string)
    requires s != [] ==> !In(s[0], White) && !In(s[|s| - 1], White)
    ensures Trimmed(s) == s
  {
    if s == [] { TrimmedIs(s, 0, 0); } else { TrimmedIs(s, 0, |s|); }
  }

  lemma {:induction false} StrippedIsWhite(s: string, p: Class)
    ensures forall m :: |StripRight(s, p)| <= m < |s| ==> In(s[m], p) && In(s[m], White)
  {
  }

  /** Dropping blanks on the right first does not matter. */
  lemma {:induction false} TrimmedStripped(s: string, p: Class)
    ensures Trimmed(StripRight(s, p)) == Trimmed(s)
  {
    hide SkipForward, SkipBack, In, StripRight, Trimmed;
    var i, j := TrimmedEnds(s);
    var r := StripRight(s, p);
    StrippedIsWhite(s, p);
    if i == |s| {
      TrimmedIs(r, |r|, |r|);
    } else {
      InBoth(s[j - 1], p);
      assert j <= |r|;
      assert forall m :: 0 <= m < |r| ==> r[m] == s[m];
      TrimmedIs(r, i, j);
      assert r[i..j] == s[i..j];
    }
  }

  /** Where the trimmed text stands. */
  lemma {:induction false} TrimmedEnds(s: string) returns (i: nat, j: nat)
    ensures i <= j <= |s| && Trimmed(s) == s[i..j]
    ensures forall m :: 0 <= m < i || j <= m < |s| ==> In(s[m], White)
    ensures if i == |s| then j == |s| else i < j && !In(s[i], White) && !In(s[j - 1], White)
  {
    hide SkipForward, SkipBack, In;
    i := SkipForward(s, 0, White);
    j := SkipBack(s, i, |s|, White);
  }

  lemma {:induction false} BlankIsWhite()
    ensures In(' ', White)
  {
  }

  lemma {:induction false} InBoth(c: char, p: Class)
    requires !In(c, White)
    ensures !In(c, p)
  {
  }

  /** Neither does one blank on the left. */
  lemma {:induction false} TrimmedAfterBlank(s: string)
    ensures Trimmed(" " + s) == Trimmed(s)
  {
    hide SkipForward, SkipBack, In, Trimmed;
    var i, j := TrimmedEnds(s);
    var b := " " + s;
    assert In(b[0], White) by { BlankIsWhite(); }
    assert forall m :: 1 <= m < |b| ==> b[m] == s[m - 1];
    if i == |s| {
      TrimmedIs(b, |b|, |b|);
    } else {
      TrimmedIs(b, i + 1, j + 1);
      assert b[i + 1..j + 1] == s[i..j];
    }
  }

  lemma {:induction false} ScalarOfTrimmed(s: string)
    ensures ScalarOf(Trimmed(s)) == ScalarOf(s)
    ensures Trimmed(s) == [] ==> ScalarOf(s) == JNull
  {
    hide Trimmed;
    TrimmedFixed(Trimmed(s));
  }

  /** A string read from a line is never longer than the line. */
  lemma {:induction false} ScalarOfLength(s: string)
    ensures ScalarOf(s).JString? ==> |ScalarOf(s).s| <= |Trimmed(s)|
  {
  }

  // ------------------------------------------------------------------ quoted strings

  lemma {:induction false} DoubledSnoc(s: string, c: char)
    ensures Doubled(s + [c]) == Doubled(s) + (if c == '\'' then "''" else [c])
  {
    assert (s + [c])[..|s|] == s;
  }

  lemma {:induction false} DoubledCons(c: char, s: string)
    ensures Doubled([c] + s) == (if c == '\'' then "''" else [c]) + Doubled(s)
  {
    if s == [] {
      assert [c] + s == [] + [c];
      DoubledSnoc([], c);
    } else {
      var t, d := s[..|s| - 1], s[|s| - 1];
      assert s == t + [d] && [c] + s == ([c] + t) + [d];
      DoubledCons(c, t);
      DoubledSnoc([c] + t, d);
      DoubledSnoc(t, d);
    }
  }

  lemma {:induction false} UndoubledStep(b: string, i: nat, c: char, rest: string)
    requires i <= |b| && b[i..] == (if c == '\'' then "''" else [c]) + rest
    ensures Undoubled(b, i) == [c] + Undoubled(b, |b| - |rest|)
  {
    if c == '\'' {
      assert b[i..][0] == '\'' && b[i..][1] == '\'';
    } else {
      assert b[i..][0] == c;
    }
  }

  /** Halving the doubled quotes gives the string back. */
  lemma {:induction false} UndoubledDoubled(s: string, b: string, i: nat)
    requires i <= |b| && b[i..] == Doubled(s)
    ensures Undoubled(b, i) == s
    decreases |s|
  {
    if s != [] {
      var rest := Doubled(s[1..]);
      DoubledCons(s[0], s[1..]);
      assert [s[0]] + s[1..] == s;
      UndoubledStep(b, i, s[0], rest);
      var j := |b| - |rest|;
      assert b[j..] == rest by {
        assert b[j..] == b[i..][j - i..];
      }
      UndoubledDoubled(s[1..], b, j);
    }
  }

  // Inside single quotes neither a colon nor a `#` is seen.
  const QUOTED := Quotes(false, true)

  lemma {:induction false} QuotedChar(b: string, i: nat)
    requires i < |b| && b[i] != '\''
    ensures HashAt(b, i, QUOTED) == HashAt(b, i + 1, QUOTED)
    ensures ColonAt(b, i, QUOTED) == ColonAt(b, i + 1, QUOTED)
  {
  }

  lemma {:induction false} QuotedPair(b: string, i: nat)
    requires i + 1 < |b| && b[i] == '\'' && b[i + 1] == '\''
    ensures HashAt(b, i, QUOTED) == HashAt(b, i + 2, QUOTED)
    ensures ColonAt(b, i, QUOTED) == ColonAt(b, i + 2, QUOTED)
  {
  }

  lemma {:induction false} ScanQuoted(b: string, i: nat, s: string, end: string)
    requires i <= |b| && b[i..] == Doubled(s) + end
    ensures HashAt(b, i, QUOTED) == HashAt(b, |b| - |end|, QUOTED)
    ensures ColonAt(b, i, QUOTED) == ColonAt(b, |b| - |end|, QUOTED)
    decreases |s|
  {
    hide HashAt, ColonAt;
    if s == [] {
      assert |b| - |end| == i;
    } else {
      hide Doubled;
      var rest := Doubled(s[1..]);
      DoubledCons(s[0], s[1..]);
      assert [s[0]] + s[1..] == s;
      if s[0] == '\'' {
        assert b[i..] == "''" + (rest + end);
        assert b[i] == b[i..][0] == '\'' && b[i + 1] == b[i..][1] == '\'';
        assert b[i + 2..] == b[i..][2..] == rest + end;
        QuotedPair(b, i);
        ScanQuoted(b, i + 2, s[1..], end);
      } else {
        assert b[i..] == [s[0]] + (rest + end);
        assert b[i] == b[i..][0] == s[0];
        assert b[i + 1..] == b[i..][1..] == rest + end;
        QuotedChar(b, i);
        ScanQuoted(b, i + 1, s[1..], end);
      }
    }
  }

  lemma {:induction false} DoubledNoNewline(s: string)
    requires '\n' !in s
    ensures '\n' !in Doubled(s)
  {
    if s != [] { DoubledNoNewline(s[..|s| - 1]); }
  }

  /** A quoted string is untouched by comment cutting and colon search and reads back whole. */
  lemma {:induction false} QuotedReads(s: string)
    ensures Clean(Quoted(s)) == Quoted(s)
    ensures ColonAt(Quoted(s), 0, OUTSIDE) == |Quoted(s)|
    ensures ScalarOf(Quoted(s)) == JString(s)
  {
    hide Doubled;
    var b := Quoted(s);
    var n := |b|;
    assert b[1..] == Doubled(s) + "'";
    ScanQuoted(b, 1, s, "'");
    assert HashAt(b, 0, OUTSIDE) == HashAt(b, 1, QUOTED) == HashAt(b, n - 1, QUOTED) == n;
    assert ColonAt(b, 0, OUTSIDE) == ColonAt(b, 1, QUOTED) == ColonAt(b, n - 1, QUOTED) == n;
    TrimmedFixed(b);
    assert b[1..n - 1] == Doubled(s);
    assert b[1..n - 1][0..] == Doubled(s);
    UndoubledDoubled(s, b[1..n - 1], 0);
  }

  // ------------------------------------------------------------------ plain text

  /** Text the scanners pass over: no quotes, colons or `#`. */
  predicate IsInert(s: string) {
    IsPlain(s) && ':' !in s
  }

  lemma {:induction false} NoColon(s: string, k: nat, q: Quotes)
    requires ':' !in s && k <= |s|
    ensures ColonAt(s, k, q) == |s|
    decreases |s| - k
  {
    if k < |s| {
      assert s[k] in s;
      NoColon(s, k + 1, Toggle(q, s[k]));
    }
  }

  lemma {:induction false} InertReads(s: string)
    requires IsInert(s) && s != [] && !In(s[|s| - 1], White)
    ensures Clean(s) == s && ColonAt(s, 0, OUTSIDE) == |s|
  {
    CleanPlain(s);
    NoColon(s, 0, OUTSIDE);
  }

  // ------------------------------------------------------------------ integers

  lemma {:induction false} IntegerTextShape(n: int)
    ensures var s, d := IntegerText(n), Numeral(if n < 0 then -n else n, 10);
            s != [] && s[SignLength(s)..] == d && d != [] && IsInteger(s)
            && (s[0] == '-' <==> n < 0) && s[|s| - 1] == d[|d| - 1]
    ensures forall c :: c in IntegerText(n) ==> c == '-' || IsDigit(c)
  {
    var s, d := IntegerText(n), Numeral(if n < 0 then -n else n, 10);
    assert forall c :: c in d ==> IsDigit(c);
    assert d[0] in d;
    assert SignLength(s) == if n < 0 then 1 else 0;
    assert forall i :: SignLength(s) <= i < |s| ==> s[i] == d[i - SignLength(s)] && s[i] in d;
  }

  lemma {:induction false} IntegerReads(n: int)
    requires FitsInt64(n)
    ensures ScalarOf(IntegerText(n)) == JInt(n)
    ensures IsInert(IntegerText(n)) && IntegerText(n) != []
    ensures forall c :: c in IntegerText(n) ==> c == '-' || IsDigit(c)
  {
    hide Trimmed, Value, Numeral, IntegerText, SignLength;
    var s := IntegerText(n);
    ValueOfNumeral(if n < 0 then -n else n, 10);
    IntegerTextShape(n);
    assert s[0] in s && s[|s| - 1] in s;
    TrimmedFixed(s);
    assert IsInteger(s) && IntegerValue(s) == n;
  }

  // ------------------------------------------------------------------ which strings survive

  /** A string the reader gets back from its printed form: it is quoted, or it has no white
      space at its ends and nothing in it looks like a comment. */
  predicate Survives(s: string) {
    NeedsQuoting(s) || (!In(s[0], White) && !In(s[|s| - 1], White) && HashAt(s, 0, OUTSIDE) == |s|)
  }

  lemma {:induction false} ColonInPlain(s: string, k: nat, q: Quotes)
    requires k <= |s| && !NeedsQuoting(s)
    ensures ColonAt(s, k, q) == |s|
    decreases |s| - k
  {
    if k < |s| {
      assert !(s[k] == ':' && (k + 1 == |s| || s[k + 1] == ' '));
      ColonInPlain(s, k + 1, Toggle(q, s[k]));
    }
  }

  lemma {:induction false} PlainClean(s: string)
    requires !NeedsQuoting(s) && Survives(s)
    ensures Clean(s) == s && StripRight(s, BlankOrTab) == s
  {
    hide HashAt, NeedsQuoting;
    assert s != [] by { EmptyIsQuoted(); }
    InBoth(s[|s| - 1], BlankOrTab);
    StripRightIs(s, |s|, BlankOrTab);
  }

  lemma {:induction false} EmptyIsQuoted()
    ensures NeedsQuoting([])
  {
  }

  /** No keyword, number or quote is left unquoted. */
  lemma {:induction false} PlainShape(s: string)
    requires !NeedsQuoting(s)
    ensures s != [] && s[0] != '"' && s[0] != '\'' && !IsInteger(s)
    ensures s != "true" && s != "True" && s != "TRUE" && s != "false" && s != "False" && s != "FALSE"
    ensures s != "null" && s != "Null" && s != "NULL" && s != "~"
  {
    hide IsInteger, HasColonSpace;
    assert s !in RESERVED;
    assert IsSpecial('"') && IsSpecial('\'');
  }

  lemma {:induction false} PlainReads(s: string)
    requires !NeedsQuoting(s) && Survives(s)
    ensures Clean(s) == s && ScalarOf(s) == JString(s)
    ensures StripRight(s, BlankOrTab) == s && ColonAt(s, 0, OUTSIDE) == |s|
  {
    hide Clean, StripRight, Trimmed, HashAt, ColonAt, NeedsQuoting, IsInteger;
    PlainClean(s);
    PlainShape(s);
    TrimmedFixed(s);
    ColonInPlain(s, 0, OUTSIDE);
  }

  /** A plain text that loses a comment or white space cannot read back as itself. */
  lemma {:induction false} PlainLoses(s: string)
    requires !NeedsQuoting(s) && !Survives(s)
    ensures |Trimmed(Clean(s))| < |s|
  {
    var c := Clean(s);
    if |c| == |s| {
      assert c == s;
      var i := SkipForward(s, 0, White);
      var j := SkipBack(s, i, |s|, White);
      assert HashAt(s, 0, OUTSIDE) == |s|;
      assert i > 0 || j < |s|;
    }
  }

  /** Exactly the surviving strings read back as themselves, as a mapping value. */
  lemma {:induction false} StringReadsBack(s: string)
    ensures ScalarOf(Clean(ScalarText(JString(s)))) == JString(s) <==> Survives(s)
  {
    hide ScalarOf, Trimmed, Clean, NeedsQuoting, Survives;
    if NeedsQuoting(s) {
      QuotedReads(s);
      assert Survives(s) by { QuotedSurvives(s); }
    } else if Survives(s) {
      PlainReads(s);
    } else {
      PlainLoses(s);
      ScalarOfLength(Clean(s));
    }
  }

  lemma {:induction false} QuotedSurvives(s: string)
    requires NeedsQuoting(s)
    ensures Survives(s)
  {
  }

  // ------------------------------------------------------------------ scalars in a sequence

  /** What the reader makes of the text after `- `: a text with a colon becomes a mapping. */
  function ItemOf(c: string): Json {
    var first := StripRight(c, BlankOrTab);
    var p := ColonAt(first, 0, OUTSIDE);
    if p == |first| then ScalarOf(c)
    else JObject([Field(Trimmed(first[..p]), ScalarOf(first[p + 1..]))])
  }

  /** Exactly the surviving strings read back as themselves, as a sequence item. */
  lemma {:induction false} ItemReadsBack(s: string)
    ensures ItemOf(Clean(ScalarText(JString(s)))) == JString(s) <==> Survives(s)
  {
    hide ScalarOf, Trimmed, Clean, NeedsQuoting, Survives, ColonAt;
    if NeedsQuoting(s) {
      QuotedReads(s);
      assert StripRight(Quoted(s), BlankOrTab) == Quoted(s) by {
        StripRightIs(Quoted(s), |Quoted(s)|, BlankOrTab);
      }
      assert Survives(s) by { QuotedSurvives(s); }
    } else if Survives(s) {
      PlainReads(s);
    } else {
      PlainLoses(s);
      ScalarOfLength(Clean(s));
    }
  }

  /** Other scalars read back as themselves in both positions; empty containers do not. */
  lemma {:induction false} ScalarReadsBack(v: Json)
    requires v.JNull? || v.JBool? || (v.JInt? && FitsInt64(v.n))
    ensures ScalarOf(Clean(ScalarText(v))) == v
    ensures ItemOf(Clean(ScalarText(v))) == v
  {
    hide Trimmed, Clean, Value;
    var t := ScalarText(v);
    if v.JInt? { IntegerReads(v.n); }
    assert t != [] && IsInert(t) && !In(t[|t| - 1], White) by {
      if v.JInt? { assert t[|t| - 1] in t; }
    }
    InertReads(t);
    StripRightIs(t, |t|, BlankOrTab);
    if !v.JInt? { TrimmedFixed(t); }
  }
}
