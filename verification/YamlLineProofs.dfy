/** The line layer of the round trip: splitting a printed document gives back its lines,
    each cleaned of a trailing CR and of what looks like a comment. */
module YamlLineProofs {
  import opened Text
  import opened YamlText
  import opened YamlWriter

  lemma {:induction false} StripRightIs(s: string, k: nat, p: Class)
    requires k <= |s| && (k == 0 || !In(s[k - 1], p))
    requires forall m :: k <= m < |s| ==> In(s[m], p)
    ensures StripRight(s, p) == s[..k]
  {
  }

  lemma {:induction false} StripRightAfter(a: string, u: string, p: Class)
    requires (u != [] && !In(u[0], p)) || (a != [] && !In(a[|a| - 1], p))
    ensures StripRight(a + u, p) == a + StripRight(u, p)
  {
    var k := SkipBack(u, 0, |u|, p);
    StripRightIs(a + u, |a| + k, p);
    assert (a + u)[..|a| + k] == a + u[..k];
  }

  lemma {:induction false} HashShift(a: string, t: string, k: nat, q: Quotes)
    requires k <= |t| && (k == 0 && t != [] ==> t[0] != '#')
    ensures HashAt(a + t, |a| + k, q) == |a| + HashAt(t, k, q)
    decreases |t| - k
  {
    if k < |t| {
      assert (a + t)[|a| + k] == t[k];
      assert k > 0 ==> (a + t)[|a| + k - 1] == t[k - 1];
      HashShift(a, t, k + 1, Toggle(q, t[k]));
    }
  }

  /** Text without quotes or `#`: scanning it changes no state. */
  predicate IsPlain(a: string) {
    '"' !in a && '\'' !in a && '#' !in a
  }

  lemma {:induction false} HashSkip(a: string, t: string, k: nat)
    requires IsPlain(a) && k <= |a|
    ensures HashAt(a + t, k, OUTSIDE) == HashAt(a + t, |a|, OUTSIDE)
    decreases |a| - k
  {
    if k < |a| {
      assert (a + t)[k] == a[k] && a[k] in a;
      HashSkip(a, t, k + 1);
    }
  }

  lemma {:induction false} CutCommentAfter(a: string, t: string, first: nat)
    requires t != [] ==> t[0] != '#' && t[0] != ' '
    requires first <= |a|
    requires HashAt(a + t, first, OUTSIDE) == HashAt(a + t, |a|, OUTSIDE)
    ensures CutComment(a + t, first) == a + CutComment(t, 0)
  {
    hide HashAt, StripRight;
    HashShift(a, t, 0, OUTSIDE);
    var k := HashAt(t, 0, OUTSIDE);
    if k < |t| {
      assert k > 0 && t[..k][0] == t[0];
      assert (a + t)[..|a| + k] == a + t[..k];
      StripRightAfter(a, t[..k], Blank);
    }
  }

  lemma {:induction false} ChopAfter(a: string, t: string)
    requires t != []
    ensures ChopCR(a + t) == a + ChopCR(t)
    ensures ChopCR(t) != [] ==> ChopCR(t)[0] == t[0]
  {
  }

  /** Cleaning a line does not reach a plain prefix such as `key: ` or `- `. */
  lemma {:induction false} CleanAfter(a: string, t: string)
    requires IsPlain(a) && t != [] && t[0] != '#' && t[0] != ' '
    ensures Clean(a + t) == a + Clean(t)
  {
    hide HashAt, StripRight;
    ChopAfter(a, t);
    var u := ChopCR(t);
    HashSkip(a, u, 0);
    CutCommentAfter(a, u, 0);
  }

  lemma {:induction false} CleanPlain(a: string)
    requires IsPlain(a) && (a == [] || a[|a| - 1] != '\r')
    ensures Clean(a) == a
  {
    HashSkip(a, "", 0);
    assert a + "" == a;
  }

  /** What every printed line satisfies. */
  predicate Printable(l: Line) {
    l.text != [] && l.text[0] != ' ' && l.text[0] != '#' && l.text[0] != '\r' && '\n' !in l.text
  }

  function Cleaned(ls: seq<Line>): (r: seq<Line>)
    ensures |r| == |ls|
    ensures forall i :: 0 <= i < |ls| ==> r[i] == Line(ls[i].indent, Clean(ls[i].text))
  {
    if ls == [] then [] else [Line(ls[0].indent, Clean(ls[0].text))] + Cleaned(ls[1..])
  }

  lemma {:induction false} LineOfPrinted(l: Line)
    requires Printable(l)
    ensures LineOf(Spaces(l.indent) + l.text) == [Line(l.indent, Clean(l.text))]
  {
    hide HashAt, StripRight;
    var a := Spaces(l.indent);
    ChopAfter(a, l.text);
    var u := ChopCR(l.text);
    assert u != [] && u[0] == l.text[0];
    var n := SkipForward(a + u, 0, Blank);
    assert n == |a| by {
      assert (a + u)[|a|] == u[0];
      assert forall m :: 0 <= m < |a| ==> (a + u)[m] == ' ';
    }
    CutCommentAfter(a, u, |a|);
    assert (a + CutComment(u, 0))[|a|..] == CutComment(u, 0);
  }

  lemma {:induction false} FirstLine(src: string, i: nat, l: Line, rest: string)
    requires Printable(l) && i <= |src|
    requires src[i..] == LineText(l) + rest
    ensures LineEnd(src, i) == i + l.indent + |l.text| < |src|
    ensures src[i..i + l.indent + |l.text|] == Spaces(l.indent) + l.text
    ensures src[i + l.indent + |l.text| + 1..] == rest
  {
    var raw := Spaces(l.indent) + l.text;
    var n := i + |raw|;
    assert src[i..] == raw + "\n" + rest;
    assert src[i..][..|raw|] == raw && src[i..][|raw|] == '\n' && src[i..][|raw| + 1..] == rest;
    assert src[i..n] == raw && src[n] == '\n';
    assert src[n + 1..] == rest;
    assert '\n' !in raw;
    assert forall j :: i <= j < n ==> src[j] == raw[j - i];
  }

  lemma {:induction false} NoLines(src: string)
    ensures LinesOf(src, |src|) == []
  {
  }

  lemma {:induction false} LinesStep(src: string, i: nat)
    requires i < |src|
    ensures var n := LineEnd(src, i);
            LinesOf(src, i) == LineOf(src[i..n]) + LinesOf(src, if n < |src| then n + 1 else n)
  {
    hide LineOf, LineEnd;
  }

  /** The reader's lines of a printed document are its printed lines, cleaned. */
  lemma {:induction false} LinesOfPrinted(src: string, i: nat, ls: seq<Line>)
    requires i <= |src| && src[i..] == Unlines(ls)
    requires forall l :: l in ls ==> Printable(l)
    ensures LinesOf(src, i) == Cleaned(ls)
    decreases |ls|
  {
    hide LineOf, Printable, LineEnd, LineText, Clean, Spaces, LinesOf;
    if ls == [] {
      assert LinesOf(src, i) == [] by { NoLines(src); }
    } else {
      var l := ls[0];
      assert Printable(l);
      var n := i + l.indent + |l.text|;
      FirstLine(src, i, l, Unlines(ls[1..]));
      hide Unlines;
      LineOfPrinted(l);
      LinesOfPrinted(src, n + 1, ls[1..]);
      LinesStep(src, i);
    }
  }
}
