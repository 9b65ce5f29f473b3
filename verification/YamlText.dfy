/** The line layer of the YAML reader: trimming, quote tracking, comment cutting and
    the splitting of a document into indented lines. */
module YamlText {
  import opened Text

  function Trimmed(s: string): (r: string)
    ensures |r| <= |s|
    ensures r != [] ==> !In(r[0], White) && !In(r[|r| - 1], White)
  {
    var i := SkipForward(s, 0, White);
    s[i..SkipBack(s, i, |s|, White)]
  }

  method Trim(s: string) returns (r: string)
    ensures r == Trimmed(s)
  {
    var start := 0;
    while start < |s| && In(s[start], White)
      invariant 0 <= start <= |s|
      invariant SkipForward(s, start, White) == SkipForward(s, 0, White)
    {
      start := start + 1;
    }
    var end := |s|;
    while start < end && In(s[end - 1], White)
      invariant start <= end <= |s|
      invariant SkipBack(s, start, end, White) == SkipBack(s, start, |s|, White)
    {
      end := end - 1;
    }
    r := s[start..end];
  }

  // ------------------------------------------------------------------ quote tracking

  datatype Quotes = Quotes(dq: bool, sq: bool)

  const OUTSIDE := Quotes(false, false)

  /** Quote state after reading `c`; a quote inside the other kind of quote is plain text. */
  function Toggle(q: Quotes, c: char): Quotes {
    if c == '"' && !q.sq then q.(dq := !q.dq)
    else if c == '\'' && !q.dq then q.(sq := !q.sq)
    else q
  }

  /** The first colon from `k` on that is outside quotes and ends `s` or precedes a space;
      `|s|` if there is none. */
  function ColonAt(s: string, k: nat, q: Quotes): (r: nat)
    requires k <= |s|
    ensures k <= r <= |s|
    ensures r < |s| ==> s[r] == ':' && (r + 1 == |s| || s[r + 1] == ' ')
    decreases |s| - k
  {
    if k == |s| then k
    else if s[k] == ':' && q == OUTSIDE && (k + 1 == |s| || s[k + 1] == ' ') then k
    else ColonAt(s, k + 1, Toggle(q, s[k]))
  }

  /** The first `#` from `k` on that is outside quotes and has a space before it; `|s|` if
      there is none. */
  function HashAt(s: string, k: nat, q: Quotes): (r: nat)
    requires k <= |s|
    ensures k <= r <= |s|
    ensures r < |s| ==> s[r] == '#'
    decreases |s| - k
  {
    if k == |s| then k
    else if s[k] == '#' && q == OUTSIDE && k > 0 && s[k - 1] == ' ' then k
    else HashAt(s, k + 1, Toggle(q, s[k]))
  }

  method FindColon(s: string) returns (k: nat)
    ensures k == ColonAt(s, 0, OUTSIDE)
  {
    var dq, sq := false, false;
    k := 0;
    while k < |s|
      invariant 0 <= k <= |s|
      invariant ColonAt(s, 0, OUTSIDE) == ColonAt(s, k, Quotes(dq, sq))
    {
      var c := s[k];
      if c == '"' && !sq {
        dq := !dq;
      } else if c == '\'' && !dq {
        sq := !sq;
      } else if c == ':' && !dq && !sq {
        if k + 1 == |s| || s[k + 1] == ' ' {
          return;
        }
      }
      k := k + 1;
    }
  }

  // ------------------------------------------------------------------ lines

  datatype Line = Line(indent: nat, text: string)

  function ChopCR(s: string): (r: string) {
    if s != [] && s[|s| - 1] == '\r' then s[..|s| - 1] else s
  }

  function CutComment(s: string, first: nat): (r: string)
    requires first <= |s|
    ensures first < |s| && s[first] != ' ' && s[first] != '#' ==> first < |r|
  {
    var k := HashAt(s, first, OUTSIDE);
    if k < |s| then StripRight(s[..k], Blank) else s
  }

  /** What the parser sees of a line of text that starts with neither a blank nor `#`. */
  function Clean(s: string): string {
    CutComment(ChopCR(s), 0)
  }

  /** A raw line without its newline; blank and comment-only lines vanish. */
  function LineOf(raw: string): seq<Line> {
    var s := ChopCR(raw);
    var n := SkipForward(s, 0, Blank);
    if n == |s| || s[n] == '#' then [] else [Line(n, CutComment(s, n)[n..])]
  }

  function LineEnd(src: string, i: nat): (n: nat)
    requires i <= |src|
    ensures i <= n <= |src|
    ensures n < |src| ==> src[n] == '\n'
    ensures forall j :: i <= j < n ==> src[j] != '\n'
    decreases |src| - i
  {
    if i == |src| || src[i] == '\n' then i else LineEnd(src, i + 1)
  }

  function LinesOf(src: string, i: nat): seq<Line>
    requires i <= |src|
    decreases |src| - i
  {
    if i == |src| then []
    else
      var n := LineEnd(src, i);
      LineOf(src[i..n]) + LinesOf(src, if n < |src| then n + 1 else n)
  }

  method ReadLine(raw: string) returns (out: seq<Line>)
    ensures out == LineOf(raw)
  {
    var content := ChopCR(raw);
    var first := 0;
    while first < |content| && content[first] == ' '
      invariant 0 <= first <= |content|
      invariant SkipForward(content, 0, Blank) == SkipForward(content, first, Blank)
    {
      first := first + 1;
    }
    if first == |content| || content[first] == '#' {
      return [];
    }
    var dq, sq := false, false;
    var cut, k := |content|, first;
    while k < |content|
      invariant first <= k <= |content| == cut
      invariant HashAt(content, first, OUTSIDE) == HashAt(content, k, Quotes(dq, sq))
    {
      var c := content[k];
      if c == '"' && !sq {
        dq := !dq;
      } else if c == '\'' && !dq {
        sq := !sq;
      } else if c == '#' && !dq && !sq && k > 0 && content[k - 1] == ' ' {
        cut := k;
        break;
      }
      k := k + 1;
    }
    assert HashAt(content, first, OUTSIDE) == cut;
    if cut < |content| {
      content := content[..cut];
      var end := |content|;
      while end > 0 && content[end - 1] == ' '
        invariant 0 <= end <= |content|
        invariant SkipBack(content, 0, |content|, Blank) == SkipBack(content, 0, end, Blank)
      {
        end := end - 1;
      }
      content := content[..end];
    }
    out := [Line(first, content[first..])];
  }

  method FindNewline(src: string, start: nat) returns (i: nat)
    requires start <= |src|
    ensures i == LineEnd(src, start)
  {
    i := start;
    while i < |src| && src[i] != '\n'
      invariant start <= i <= |src|
      invariant LineEnd(src, start) == LineEnd(src, i)
    {
      i := i + 1;
    }
  }

  lemma {:induction false} Regroup<T>(a: seq<T>, b: seq<T>, c: seq<T>)
    ensures a + (b + c) == a + b + c
  {
  }

  method SplitLines(src: string) returns (out: seq<Line>)
    ensures out == LinesOf(src, 0)
  {
    hide LineOf;
    out := [];
    var i := 0;
    while i < |src|
      invariant 0 <= i <= |src|
      invariant LinesOf(src, 0) == out + LinesOf(src, i)
    {
      var start := i;
      i := FindNewline(src, i);
      var line := ReadLine(src[start..i]);
      ghost var rest := LinesOf(src, if i < |src| then i + 1 else i);
      assert LinesOf(src, start) == line + rest;
      Regroup(out, line, rest);
      if i < |src| {
        i := i + 1;
      }
      out := out + line;
    }
  }
}
