/** Which cuts of a serialized form read back: exactly those whose first bytes that arrive hold the
    whole opening boundary line. */
module MultipartCuts {
  import opened Text
  import opened Json
  import opened Http
  import opened MultipartHeaders
  import opened Multipart
  import opened MultipartProofs

  // ------------------------------------------------------------------ positions as tails

  /** `rest` is the end of `whole` and starts at least `d` characters into it. */
  predicate IsTail(rest: string, whole: string, d: nat) {
    |rest| + d <= |whole| && whole[|whole| - |rest|..] == rest
  }

  lemma {:induction false} TailOfTail(skipped: string, rest: string, whole: string, d: nat)
    requires IsTail(skipped + rest, whole, d)
    ensures IsTail(rest, whole, d + |skipped|)
  {
    var t := whole[|whole| - |skipped + rest|..];
    assert t[|skipped|..] == rest;
    assert whole[|whole| - |rest|..] == t[|skipped|..];
  }

  /** A tail of a concatenation that is no longer than its second part is a tail of that. */
  lemma {:induction false} TailOfPart(rest: string, a: string, c: string, d: nat)
    requires IsTail(rest, a + c, d) && |rest| <= |c|
    ensures c[|c| - |rest|..] == rest
  {
    var whole := a + c;
    assert whole[|whole| - |rest|..] == c[|c| - |rest|..];
  }

  function BodyOf(items: seq<Part>, i: nat, b: string): string
    requires i < |items|
  {
    Body(items[i].content, items[i + 1..], b)
  }

  // ------------------------------------------------------------------ boundaries among header lines

  predicate IsOneLine(l: string) {
    '\r' !in l && l != "" && l[0] != '-'
  }

  /** No delimiter of contents starts in the header lines. */
  lemma {:induction false} NoStopInLines(lines: seq<string>, more: string, b: string, e: nat)
    requires forall l :: l in lines ==> IsOneLine(l)
    requires e < |LinesText(lines)|
    ensures !At(LinesText(lines) + CRLF + more, Stop(b), e)
    decreases |lines|
  {
    var all := LinesText(lines) + CRLF + more;
    var l, after := lines[0], LinesText(lines[1..]) + CRLF + more;
    assert l in lines;
    assert all == l + CRLF + after;
    assert after[0] != '-' by { LinesStart(lines[1..], more); }
    var stop := Stop(b);
    assert stop[0] == '\r' && stop[2] == '-';
    assert e + |stop| <= |all| ==> all[e..e + |stop|][0] == all[e] && all[e..e + |stop|][2] == all[e + 2];
    if e >= |l| + 2 {
      var e' := e - |l| - 2;
      NoStopInLines(lines[1..], more, b, e');
      assert e + |stop| <= |all| ==> after[e'..e' + |stop|] == all[e..e + |stop|];
    } else {
      assert e < |l| ==> all[e] == l[e] && l[e] in l;
      assert all[|l| + 1] == '\n' && all[|l| + 2] == after[0];
    }
  }

  lemma {:induction false} LinesStart(lines: seq<string>, more: string)
    requires forall l :: l in lines ==> IsOneLine(l)
    ensures (LinesText(lines) + CRLF + more)[0] != '-'
  {
    if lines != [] { assert lines[0] in lines; }
  }

  predicate EndsInBoundary(l: string, b: string) {
    |l| >= |b| + 2 && l[|l| - |b| - 2..] == DASH + b
  }

  /** A boundary line found among lines is the end of one of them. */
  lemma {:induction false} LineInLines(lines: seq<string>, more: string, b: string, e: nat) returns (j: nat)
    requires forall l :: l in lines ==> '\r' !in l
    requires '\r' !in b && e < |LinesText(lines)| + 2 && At(LinesText(lines) + CRLF + more, Line(b), e)
    ensures j < |lines| && EndsInBoundary(lines[j], b)
    ensures (LinesText(lines) + CRLF + more)[e + |Line(b)|..] == LinesText(lines[j + 1..]) + CRLF + more
    ensures j == 0 ==> e + |b| + 2 == |lines[0]|
    decreases |lines|
  {
    var all, line := LinesText(lines) + CRLF + more, Line(b);
    if lines == [] {
      NoLineAtCrlf(more, b, e);
      assert false;
    } else {
      var l, after := lines[0], LinesText(lines[1..]) + CRLF + more;
      assert l in lines;
      assert all == l + CRLF + after;
      if e < |l| {
        j := 0;
        BoundaryEndsLine(l, after, b, e);
      } else {
        BehindLine(l, after, line, e);
        var e' := e - |l| - 2;
        var j' := LineInLines(lines[1..], more, b, e');
        j := j' + 1;
        assert all[e + |line|..] == after[e' + |line|..];
        assert lines[j + 1..] == lines[1..][j' + 1..];
      }
    }
  }

  lemma {:induction false} BehindLine(l: string, after: string, line: string, e: nat)
    requires line != "" && line[0] == '-' && |l| <= e && At(l + CRLF + after, line, e)
    ensures e >= |l| + 2 && At(after, line, e - |l| - 2)
    ensures (l + CRLF + after)[e + |line|..] == after[e - |l| - 2 + |line|..]
  {
    var all := l + CRLF + after;
    assert all[e] == all[e..e + |line|][0] == '-';
    assert all[|l|] == '\r' && all[|l| + 1] == '\n';
    var e' := e - |l| - 2;
    assert after[e'..e' + |line|] == all[e..e + |line|];
  }

  lemma {:induction false} NoLineAtCrlf(more: string, b: string, e: nat)
    requires e < 2
    ensures !At(LinesText([]) + CRLF + more, Line(b), e)
  {
    var all, line := LinesText([]) + CRLF + more, Line(b);
    assert all == CRLF + more;
    assert line[0] == '-' && (e + |line| <= |all| ==> all[e..e + |line|][0] == all[e]);
  }

  lemma {:induction false} BoundaryEndsLine(l: string, after: string, b: string, e: nat)
    requires '\r' !in l && '\r' !in b && e < |l| && At(l + CRLF + after, Line(b), e)
    ensures e + |b| + 2 == |l| && EndsInBoundary(l, b)
    ensures (l + CRLF + after)[e + |Line(b)|..] == after
  {
    var all, line := l + CRLF + after, Line(b);
    assert all[e..e + |line|] == line;
    assert forall k :: e <= k < e + |line| ==> all[k] == line[k - e];
    assert forall i :: 0 <= i < |l| ==> all[i] == l[i] && l[i] in l;
    assert forall i :: 0 <= i < |b| + 2 ==> line[i] == (DASH + b)[i] && line[i] != '\r' by {
      assert forall i :: 2 <= i < |b| + 2 ==> line[i] == b[i - 2] && b[i - 2] in b;
    }
    assert line[|b| + 2] == '\r' && all[|l|] == '\r';
    assert e + |b| + 2 == |l|;
    assert l[e..] == DASH + b by { assert all[e..|l|] == line[..|b| + 2]; }
  }

  // ------------------------------------------------------------------ where a late start can be

  /** The serialized form as lines, an empty one, and the first content with what follows it. */
  lemma {:induction false} FormShape(items: seq<Part>, b: string)
    requires items != []
    ensures Serialized(items, b)
         == LinesText([DASH + b] + HeaderLines(items[0].file)) + CRLF + BodyOf(items, 0, b)
  {
    hide Serialized, After, HeaderLines;
    SerializedIs(items, b);
    AfterShape(items, 0, b);
    var lines := HeaderLines(items[0].file);
    assert ([DASH + b] + lines)[1..] == lines;
    assert items[0..] == items;
  }

  lemma {:induction false} AfterShape(items: seq<Part>, i: nat, b: string)
    requires i < |items|
    ensures After(items[i..], b) == CRLF + (LinesText(HeaderLines(items[i].file)) + CRLF + BodyOf(items, i, b))
  {
    hide HeaderLines, Body;
    assert items[i..][1..] == items[i + 1..];
  }

  /** The names in a disposition line that ends in a boundary are not both empty. */
  lemma {:induction false} BoundaryNeedsName(f: File, b: string)
    requires EndsInBoundary(DispositionLine(f), b)
    ensures f.name != "" || f.filename != ""
  {
    hide DispositionLine, EndsInBoundary;
    DashesAtEnd(DispositionLine(f), b);
    SameLine(f);
    NoDashes();
  }

  lemma {:induction false} SameLine(f: File)
    ensures f.name == "" && f.filename == "" ==> DispositionLine(f) == DispositionLine(NO_FILE)
  {
  }

  lemma {:induction false} DashesAtEnd(l: string, b: string)
    requires EndsInBoundary(l, b)
    ensures var k := |l| - |b| - 2; 0 <= k && k + 1 < |l| && l[k] == '-' && l[k + 1] == '-'
  {
    var k := |l| - |b| - 2;
    assert l[k] == l[k..][0] && l[k + 1] == l[k..][1];
  }

  lemma {:induction false} NoDashes()
    ensures var l := DispositionLine(NO_FILE);
            forall i :: 0 <= i < |l| - 1 && l[i] == '-' ==> l[i + 1] != '-'
  {
  }

  // ------------------------------------------------------------------ a parser that started late

  /** The complete parts reported so far are the first ones of the form. */
  predicate AreFirst(parts: seq<Part>, items: seq<Part>) {
    |parts| <= |items| && parts == items[..|parts|]
  }

  /** So are all but the last, and the last may still become the next one. */
  predicate MayBeFirst(parts: seq<Part>, items: seq<Part>) {
    parts != [] && |parts| <= |items|
    && (var m := |parts| - 1;
        parts[..m] == items[..m] && parts[m].file == items[m].file && parts[m].content <= items[m].content)
  }

  /** Header lines of the first part are being read, the one that would name it having been missed. */
  predicate Misnames(file: File, j: nat, rest: string, items: seq<Part>, b: string) {
    items != []
    && (var f := items[0].file;
        1 <= j <= |HeaderLines(f)| && file.name == "" && file.filename == ""
        && rest == LinesText(HeaderLines(f)[j..]) + CRLF + BodyOf(items, 0, b)
        && (f.name != "" || f.filename != "" || (j == 2 && file.contentType == "")))
  }

  /** The next part's headers begin later than they should: the rest is too short. */
  predicate HeadersLate(m: nat, rest: string, items: seq<Part>, b: string) {
    m < |items| && IsTail(CRLF + rest, BodyOf(items, m, b), |b| + 2)
  }

  predicate BoundaryLate(m: nat, rest: string, items: seq<Part>, b: string) {
    m < |items| && IsTail(rest, BodyOf(items, m, b), |b| + 2)
  }

  predicate ContentLate(parts: seq<Part>, rest: string, items: seq<Part>, b: string) {
    parts != [] && |parts| <= |items|
    && IsTail(CRLF + CRLF + parts[|parts| - 1].content + rest, BodyOf(items, |parts| - 1, b), |b| + 2)
  }

  /** What holds of a parser that missed the opening boundary line, when `rest` is still unread:
      either the parts it reports are wrong already, or too little is left for the right ones. */
  ghost predicate IsLate(p: Parser, rest: string, items: seq<Part>, b: string) {
    match p.state
    case 0 => p.parts == [] && IsTail(rest, Serialized(items, b), 1)
    case 1 =>
      (AreFirst(p.parts, items) ==> HeadersLate(|p.parts|, rest, items, b))
      || (p.parts == [] && exists j :: Misnames(NO_FILE, j, rest, items, b))
    case 2 =>
      (AreFirst(p.parts, items) ==> HeadersLate(|p.parts|, rest, items, b))
      || (p.parts == [] && exists j :: Misnames(p.file, j, rest, items, b))
    case 3 =>
      MayBeFirst(p.parts, items) ==>
        ContentLate(p.parts, rest, items, b)
        && (p.parts[|p.parts| - 1].content != "" ==> |p.buf| >= |Stop(b)|)
    case 4 => AreFirst(p.parts, items) ==> BoundaryLate(|p.parts|, rest, items, b)
    case _ => false
  }

  /** Headers whose files can be carried, and a boundary on one line. */
  predicate IsCarriable(items: seq<Part>, b: string) {
    '\r' !in b && forall i :: 0 <= i < |items| ==> IsPlainFile(items[i].file) && !Occurs(items[i].content, Stop(b))
  }

  lemma {:induction false} LinesAreLines(f: File)
    requires IsPlainFile(f)
    ensures forall l :: l in HeaderLines(f) ==> IsOneLine(l)
  {
    hide DispositionLine, TypeLine, IsPlainFile;
    LinesAreSingle(f);
    LinesBeginWithC(f);
  }

  lemma {:induction false} LinesBeginWithC(f: File)
    ensures DispositionLine(f) != "" && DispositionLine(f)[0] == 'C' && TypeLine(f)[0] == 'C'
  {
  }

  /** A boundary line later than the opening one is in or behind the first content, or the end of a
      header line of the first part. */
  lemma {:induction false} LaterLine(items: seq<Part>, b: string, at: nat) returns (j: nat)
    requires items != [] && IsCarriable(items, b)
    requires at >= 1 && At(Serialized(items, b), Line(b), at)
    ensures var rest := Serialized(items, b)[at + |Line(b)|..];
            HeadersLate(0, rest, items, b) || Misnames(NO_FILE, j, rest, items, b)
  {
    hide Serialized, HeaderLines, Body, At, LinesText;
    var f, body := items[0].file, BodyOf(items, 0, b);
    var lines := [DASH + b] + HeaderLines(f);
    var all := Serialized(items, b);
    FormShape(items, b);
    j := 0;
    if at < |LinesText(lines)| + 2 {
      BoundaryLinesSingle(f, b);
      var k := LineInLines(lines, body, b, at);
      j := k;
      assert k >= 1;
      assert lines[k..][1..] == lines[k + 1..] && HeaderLines(f)[k..] == lines[k + 1..];
      assert lines[k] == HeaderLines(f)[k - 1];
      MissedLineNames(f, b, k);
    } else {
      LateBody(LinesText(lines) + CRLF, body, b, at);
    }
  }

  lemma {:induction false} BoundaryLinesSingle(f: File, b: string)
    requires IsPlainFile(f) && '\r' !in b
    ensures forall l :: l in [DASH + b] + HeaderLines(f) ==> '\r' !in l
  {
    hide HeaderLines, IsPlainFile;
    LinesAreSingle(f);
    assert '\r' !in DASH + b;
  }

  /** If the missed line is the disposition, the names were in it; else the type was. */
  lemma {:induction false} MissedLineNames(f: File, b: string, k: nat)
    requires 1 <= k <= |HeaderLines(f)| && EndsInBoundary(HeaderLines(f)[k - 1], b)
    ensures f.name != "" || f.filename != "" || k == 2
  {
    hide DispositionLine, TypeLine, EndsInBoundary;
    if k == 1 { BoundaryNeedsName(f, b); }
  }

  lemma {:induction false} LateBody(head: string, body: string, b: string, at: nat)
    requires |head| <= at && At(head + body, Line(b), at)
    ensures IsTail(CRLF + (head + body)[at + |Line(b)|..], body, |b| + 2)
  {
    var all, line := head + body, Line(b);
    assert all[at..at + |line|] == line;
    var rest := all[at + |line|..];
    assert all[at + |line| - 2..] == CRLF + rest by {
      assert all[at + |line| - 2..at + |line|] == line[|line| - 2..] == CRLF;
    }
    assert body[|body| - |CRLF + rest|..] == all[at + |line| - 2..];
  }

  // ------------------------------------------------------------------ one round of a late parser

  lemma {:induction false} LateInitial(p: Parser, future: string, items: seq<Part>, b: string)
    requires p.state == 0 && p.buf != "" && items != [] && IsCarriable(items, b)
    requires IsLate(p, p.buf + future, items, b)
    ensures var r := Round(p, b); IsLate(r.0, r.0.buf + future, items, b)
  {
    hide Round, Find, Serialized, HeadersLate, Misnames, IsCarriable;
    RoundInitial(p, b);
    var all, line, rest := Serialized(items, b), Line(b), p.buf + future;
    var pos := Find(p.buf, line, 0);
    assert rest == p.buf[..pos] + (p.buf[pos..] + future);
    TailOfTail(p.buf[..pos], p.buf[pos..] + future, all, 1);
    if |line| <= |p.buf[pos..]| {
      assert p.buf[pos..pos + |line|] == line;
      var at := |all| - |rest| + pos;
      assert all[at..at + |line|] == rest[pos..pos + |line|] == p.buf[pos..pos + |line|];
      var j := LaterLine(items, b, at);
      assert p.buf[pos..][|line|..] + future == rest[pos + |line|..] == all[at + |line|..];
    }
  }

  /** State 2 with the right parts so far: late headers stay late, and the content after them is. */
  lemma {:induction false} LateHeaders(p: Parser, future: string, items: seq<Part>, b: string)
    requires p.state == 2
    requires AreFirst(p.parts, items) ==> HeadersLate(|p.parts|, p.buf + future, items, b)
    ensures var r := Headers(p); IsLate(r.0, r.0.buf + future, items, b)
    decreases |p.buf|
  {
    hide Headers, Find, HeaderEffect, HeadersLate;
    HeadersStep(p);
    var pos := Find(p.buf, CRLF, 0);
    if pos < |p.buf| {
      FoundHere(p.buf, CRLF, pos);
      var line, rest := p.buf[..pos], p.buf[pos + 2..] + future;
      assert p.buf + future == line + CRLF + rest;
      if pos == 0 {
        NewContent(p, future, items, b);
      } else if HeaderEffect(line, p.file).Some? {
        if AreFirst(p.parts, items) { LateLine(|p.parts|, line, rest, items, b); }
        LateHeaders(p.(file := HeaderEffect(line, p.file).value, buf := p.buf[pos + 2..]), future, items, b);
      }
    }
  }

  lemma {:induction false} LateLine(m: nat, line: string, rest: string, items: seq<Part>, b: string)
    requires HeadersLate(m, line + CRLF + rest, items, b)
    ensures HeadersLate(m, rest, items, b)
  {
    hide Body;
    var whole := BodyOf(items, m, b);
    assert CRLF + (line + CRLF + rest) == (CRLF + line) + (CRLF + rest);
    TailOfTail(CRLF + line, CRLF + rest, whole, |b| + 2);
  }

  lemma {:induction false} NewContent(p: Parser, future: string, items: seq<Part>, b: string)
    requires p.state == 2 && |p.buf| >= 2 && p.buf[..2] == CRLF
    requires AreFirst(p.parts, items) ==> HeadersLate(|p.parts|, p.buf + future, items, b)
    ensures var q := p.(state := 3, parts := p.parts + [Part(p.file, "")], buf := p.buf[2..]);
            IsLate(q, q.buf + future, items, b)
  {
    hide Body;
    var parts, rest := p.parts + [Part(p.file, "")], p.buf[2..] + future;
    assert p.buf + future == CRLF + rest;
    assert parts[..|p.parts|] == p.parts;
    assert CRLF + (CRLF + rest) == CRLF + CRLF + "" + rest;
  }

  /** State 2 when the line that names the first part was missed. */
  lemma {:induction false} MisnamedHeaders(p: Parser, future: string, j: nat, items: seq<Part>, b: string)
    requires p.state == 2 && p.parts == [] && IsCarriable(items, b) && Misnames(p.file, j, p.buf + future, items, b)
    ensures var r := Headers(p); IsLate(r.0, r.0.buf + future, items, b)
    decreases |p.buf|
  {
    hide Headers, Find, HeaderEffect, IsPlainFile, HeaderLines, LinesText, Body;
    var f, body := items[0].file, BodyOf(items, 0, b);
    var lines := HeaderLines(f);
    HeadersStep(p);
    LineCount(f);
    assert IsPlainFile(f);
    LinesAreLines(f);
    if j == |lines| {
      assert lines[j..] == [];
      NoLines();
      assert p.buf + future == "" + CRLF + body;
      FindLineEnd(p.buf, future, "", body);
      if |p.buf| >= 2 { WrongName(p, future, j, items, b); } else { StillMisnames(p, future, j, items, b); }
    } else {
      var line, more := lines[j], LinesText(lines[j + 1..]) + CRLF + body;
      NextLine(lines, j, body);
      assert p.buf + future == line + CRLF + more;
      assert line in lines;
      FindLineEnd(p.buf, future, line, more);
      if |p.buf| >= |line| + 2 {
        Advance(p.buf, future, line + CRLF, more);
        assert p.buf[..|line|] == line by { assert p.buf[..|line + CRLF|][..|line|] == line; }
        TypeRead(f, p.file);
        var q := p.(file := p.file.(contentType := f.contentType), buf := p.buf[|line| + 2..]);
        assert Misnames(q.file, j + 1, q.buf + future, items, b);
        MisnamedHeaders(q, future, j + 1, items, b);
      } else {
        StillMisnames(p, future, j, items, b);
      }
    }
  }

  lemma {:induction false} NoLines()
    ensures LinesText([]) == ""
  {
  }

  lemma {:induction false} LineCount(f: File)
    ensures 1 <= |HeaderLines(f)| <= 2 && (|HeaderLines(f)| == 2 ==> f.contentType != "")
  {
  }

  lemma {:induction false} NextLine(lines: seq<string>, j: nat, body: string)
    requires j < |lines|
    ensures LinesText(lines[j..]) + CRLF + body == lines[j] + CRLF + (LinesText(lines[j + 1..]) + CRLF + body)
  {
    assert lines[j..][1..] == lines[j + 1..];
  }

  lemma {:induction false} TypeRead(f: File, g: File)
    requires IsPlainFile(f)
    ensures |HeaderLines(f)| == 2 ==>
      HeaderEffect(HeaderLines(f)[1], g) == Some(g.(contentType := f.contentType))
  {
    hide HeaderEffect, TypeLine, DispositionLine;
    if f.contentType != "" { TypeReadsBack(f, g); }
  }

  lemma {:induction false} StillMisnames(p: Parser, future: string, j: nat, items: seq<Part>, b: string)
    requires p.state == 2 && p.parts == [] && Misnames(p.file, j, p.buf + future, items, b)
    ensures IsLate(p, p.buf + future, items, b)
  {
    hide Misnames;
  }

  lemma {:induction false} WrongName(p: Parser, future: string, j: nat, items: seq<Part>, b: string)
    requires p.state == 2 && p.parts == [] && |p.buf| >= 2 && items != [] && j == |HeaderLines(items[0].file)|
    requires Misnames(p.file, j, p.buf + future, items, b)
    ensures var q := p.(state := 3, parts := p.parts + [Part(p.file, "")], buf := p.buf[2..]);
            IsLate(q, q.buf + future, items, b)
  {
    hide LinesText, Body;
    LineCount(items[0].file);
    hide HeaderLines;
    assert p.file != items[0].file;
  }

  /** Complete parts stay wrong once they are. */
  lemma {:induction false} MoreContent(parts: seq<Part>, piece: string, items: seq<Part>)
    requires parts != []
    ensures var more := AppendContent(parts, piece);
            && |more| == |parts|
            && more[|more| - 1].content == parts[|parts| - 1].content + piece
            && (MayBeFirst(more, items) ==> MayBeFirst(parts, items))
            && (AreFirst(more, items) ==> MayBeFirst(parts, items))
            && (AreFirst(more, items) ==> more[|more| - 1].content == items[|more| - 1].content)
  {
    var more, m := AppendContent(parts, piece), |parts| - 1;
    assert more[..m] == parts[..m];
    if MayBeFirst(more, items) { assert parts[m].content <= more[m].content; }
    if AreFirst(more, items) {
      assert more[m] == items[m];
      assert items[..|more|][..m] == items[..m];
    }
  }

  /** A delimiter found after the line break that follows an earlier one starts with the line break
      before the next content, or later. */
  lemma {:induction false} StopAfterLines(lines: seq<string>, body: string, b: string, rest: string)
    requires forall l :: l in lines ==> IsOneLine(l)
    requires IsTail(Stop(b) + rest, LinesText(lines) + CRLF + body, 0)
    ensures IsTail(rest, body, |b| + 2)
  {
    hide LinesText;
    var all, stop := LinesText(lines) + CRLF + body, Stop(b);
    var e := |all| - |stop + rest|;
    assert all[e..] == stop + rest;
    assert all[e..e + |stop|] == all[e..][..|stop|] == stop;
    assert e >= |LinesText(lines)| by {
      if e < |LinesText(lines)| { NoStopInLines(lines, body, b, e); }
    }
    assert all[|all| - |rest|..] == all[e..][|stop|..];
    assert body[|body| - |rest|..] == all[|all| - |rest|..];
  }

  /** The delimiter that ends the right content too late is that of a later part. */
  lemma {:induction false} LateStop(items: seq<Part>, i: nat, b: string, rest: string)
    requires IsCarriable(items, b) && i < |items|
    requires IsTail(CRLF + CRLF + items[i].content + (Stop(b) + rest), BodyOf(items, i, b), |b| + 2)
    ensures BoundaryLate(i + 1, rest, items, b)
  {
    hide Body, HeaderLines, LinesText, IsPlainFile, After, IsTail;
    var c, after, stop := items[i].content, After(items[i + 1..], b), Stop(b);
    BodyShape(items, i, b);
    TailOfTail(CRLF + CRLF + c, stop + rest, BodyOf(items, i, b), |b| + 2);
    assert i + 1 < |items| by { LastStopFits(items, i, b, rest); }
    AfterShape(items, i + 1, b);
    var lines, body := HeaderLines(items[i + 1].file), BodyOf(items, i + 1, b);
    assert BodyOf(items, i, b) == (c + stop + CRLF) + (LinesText(lines) + CRLF + body);
    TailBehind(stop + rest, c + stop + CRLF, LinesText(lines) + CRLF + body, |b| + 2 + 4 + |c|);
    LinesAreLines(items[i + 1].file);
    StopAfterLines(lines, body, b, rest);
  }

  lemma {:induction false} TailBehind(rest: string, head: string, tail: string, d: nat)
    requires IsTail(rest, head + tail, d) && |head| <= d
    ensures IsTail(rest, tail, 0)
  {
    TailOfPart(rest, head, tail, d);
  }

  /** Nothing that long follows the last content. */
  lemma {:induction false} LastStopFits(items: seq<Part>, i: nat, b: string, rest: string)
    requires i < |items|
    requires IsTail(Stop(b) + rest, BodyOf(items, i, b), |b| + 2 + |CRLF + CRLF + items[i].content|)
    ensures i + 1 < |items|
  {
    hide After;
    if i + 1 == |items| { NoItems(items, b); }
  }

  lemma {:induction false} NoItems(items: seq<Part>, b: string)
    ensures After(items[|items|..], b) == DASH + CRLF
  {
  }

  lemma {:induction false} BodyShape(items: seq<Part>, i: nat, b: string)
    requires i < |items|
    ensures BodyOf(items, i, b) == items[i].content + Stop(b) + After(items[i + 1..], b)
  {
    hide After;
  }

  /** State 3. */
  lemma {:induction false} LateContent(p: Parser, future: string, items: seq<Part>, b: string)
    requires p.state == 3 && p.buf != "" && p.parts != [] && IsCarriable(items, b)
    requires IsLate(p, p.buf + future, items, b)
    ensures var r := Round(p, b); IsLate(r.0, r.0.buf + future, items, b)
  {
    hide Round, Find, AppendContent, MayBeFirst, AreFirst, ContentLate, BoundaryLate, IsCarriable;
    RoundBody(p, b);
    var stop := Stop(b);
    var pos, len := Find(p.buf, stop, 0), |p.buf| - |stop|;
    if |stop| <= |p.buf| {
      if pos < |p.buf| {
        FoundHere(p.buf, stop, pos);
        MoreContent(p.parts, p.buf[..pos], items);
        if AreFirst(AppendContent(p.parts, p.buf[..pos]), items) { ContentEnds(p, future, pos, items, b); }
      } else if len > 0 {
        MoreContent(p.parts, p.buf[..len], items);
        ContentGrows(p, future, len, items, b);
      }
    }
  }

  lemma {:induction false} ContentEnds(p: Parser, future: string, pos: nat, items: seq<Part>, b: string)
    requires p.parts != [] && IsCarriable(items, b) && ContentLate(p.parts, p.buf + future, items, b)
    requires pos + |Stop(b)| <= |p.buf| && p.buf[pos..pos + |Stop(b)|] == Stop(b)
    requires p.parts[|p.parts| - 1].content + p.buf[..pos] == items[|p.parts| - 1].content
    ensures BoundaryLate(|p.parts|, p.buf[pos + |Stop(b)|..] + future, items, b)
  {
    hide Body, IsCarriable;
    var i, stop, rest := |p.parts| - 1, Stop(b), p.buf[pos + |Stop(b)|..] + future;
    assert p.buf + future == p.buf[..pos] + (stop + rest);
    var seen := p.parts[i].content;
    assert CRLF + CRLF + seen + (p.buf + future) == CRLF + CRLF + (seen + p.buf[..pos]) + (stop + rest);
    LateStop(items, i, b, rest);
  }

  lemma {:induction false} ContentGrows(p: Parser, future: string, len: nat, items: seq<Part>, b: string)
    requires p.parts != [] && len <= |p.buf|
    ensures ContentLate(p.parts, p.buf + future, items, b) ==>
            ContentLate(AppendContent(p.parts, p.buf[..len]), p.buf[len..] + future, items, b)
  {
    hide Body;
    var seen, more := p.parts[|p.parts| - 1].content, AppendContent(p.parts, p.buf[..len]);
    assert CRLF + CRLF + seen + (p.buf + future) == CRLF + CRLF + (seen + p.buf[..len]) + (p.buf[len..] + future);
    assert more[|more| - 1].content == seen + p.buf[..len];
  }

  /** State 4. */
  lemma {:induction false} LateBoundary(p: Parser, future: string, items: seq<Part>, b: string)
    requires p.state == 4 && p.buf != "" && IsLate(p, p.buf + future, items, b)
    ensures var r := Round(p, b); IsLate(r.0, r.0.buf + future, items, b)
  {
    hide Round, Body, AreFirst;
    RoundBoundary(p, b);
    if |p.buf| >= 2 && p.buf[..2] == CRLF {
      assert p.buf + future == CRLF + (p.buf[2..] + future);
    } else if |p.buf| >= 2 && p.buf[..2] == DASH && AreFirst(p.parts, items) {
      TailOfTail(p.buf, future, BodyOf(items, |p.parts|, b), |b| + 2);
      assert "" + future == future;
    }
  }

  lemma {:induction false} LateRound(p: Parser, future: string, items: seq<Part>, b: string)
    requires p.buf != "" && items != [] && IsCarriable(items, b) && IsLate(p, p.buf + future, items, b)
    requires p.state == 3 ==> p.parts != []
    ensures var r := Round(p, b);
            IsLate(r.0, r.0.buf + future, items, b) && (r.0.state == 3 ==> r.0.parts != [])
  {
    hide Find, Headers, Misnames, HeadersLate, AreFirst, IsCarriable, MayBeFirst, ContentLate;
    HeadersReport(p);
    if p.state == 0 {
      LateInitial(p, future, items, b);
    } else if p.state == 2 {
      if AreFirst(p.parts, items) ==> HeadersLate(|p.parts|, p.buf + future, items, b) {
        LateHeaders(p, future, items, b);
      } else {
        var j :| Misnames(p.file, j, p.buf + future, items, b);
        MisnamedHeaders(p, future, j, items, b);
      }
    } else if p.state == 3 {
      LateContent(p, future, items, b);
    } else if p.state == 4 {
      LateBoundary(p, future, items, b);
    }
  }

  lemma {:induction false} HeadersReport(p: Parser)
    ensures var r := Headers(p); (r.0.state == 3 && p.state != 3 ==> r.0.parts != []) && |r.0.parts| >= |p.parts|
    decreases |p.buf|
  {
    hide Headers, Find, HeaderEffect;
    HeadersStep(p);
    var pos := Find(p.buf, CRLF, 0);
    if 0 < pos < |p.buf| && HeaderEffect(p.buf[..pos], p.file).Some? {
      HeadersReport(p.(file := HeaderEffect(p.buf[..pos], p.file).value, buf := p.buf[pos + 2..]));
    }
  }

  // ------------------------------------------------------------------ all rounds, all chunks

  lemma {:induction false} LateRounds(p: Parser, future: string, items: seq<Part>, b: string)
    requires items != [] && IsCarriable(items, b) && IsLate(p, p.buf + future, items, b)
    requires p.state == 3 ==> p.parts != []
    ensures var r := Rounds(p, b);
            IsLate(r.0, r.0.buf + future, items, b) && (r.0.state == 3 ==> r.0.parts != [])
    decreases |p.buf|, Rank(p)
  {
    hide Round, IsLate, IsCarriable;
    if p.buf != "" {
      RoundDecreases(p, b);
      LateRound(p, future, items, b);
      var r := Round(p, b);
      if r.1.Again? { LateRounds(r.0, future, items, b); }
    }
  }

  lemma {:induction false} LaterInput(p: Parser, chunk: string, rest: string, items: seq<Part>, b: string)
    requires IsLate(p, rest, items, b)
    ensures IsLate(p.(buf := p.buf + chunk), rest, items, b)
  {
    hide Misnames, HeadersLate, BoundaryLate, ContentLate, MayBeFirst, AreFirst;
  }

  /** At the end of its input a parser that started late has not reported the form. */
  lemma {:induction false} LateIsWrong(p: Parser, items: seq<Part>, b: string)
    requires items != [] && IsLate(p, p.buf, items, b)
    ensures p.parts != items
  {
    hide Misnames;
    if p.parts == items {
      assert AreFirst(p.parts, items) by { assert items[..|items|] == items; }
      hide AreFirst;
      if p.state == 3 {
        assert MayBeFirst(items, items);
        LastContent(items, p.buf, b);
      }
    }
  }

  /** Behind the last content there is no room for another line break, an empty line and a
      delimiter that might still come. */
  lemma {:induction false} LastContent(items: seq<Part>, buf: string, b: string)
    requires items != []
    ensures !(ContentLate(items, buf, items, b) && (items[|items| - 1].content != "" ==> |buf| >= |Stop(b)|))
  {
    hide After;
    var n := |items| - 1;
    var c, body := items[n].content, BodyOf(items, n, b);
    BodyShape(items, n, b);
    NoItems(items, b);
    assert items[n + 1..] == items[|items|..];
    assert body == c + Stop(b) + (DASH + CRLF);
    if c == "" { NoEmptyLine(Stop(b), buf); }
    assert c == "" ==> CRLF + CRLF + c + buf == CRLF + CRLF + buf && body == Stop(b) + (DASH + CRLF);
  }

  lemma {:induction false} NoEmptyLine(stop: string, buf: string)
    ensures |buf| <= 2 ==> !IsTail(CRLF + CRLF + buf, stop + (DASH + CRLF), 0)
  {
    var whole, rest := stop + (DASH + CRLF), CRLF + CRLF + buf;
    assert whole[|whole| - 3] == '-';
    assert |rest| <= |whole| ==> whole[|whole| - |rest|..][|rest| - 3] == whole[|whole| - 3];
    assert |buf| <= 2 ==> rest[|rest| - 3] == (CRLF + CRLF)[1 + |buf|];
  }

  lemma {:induction false} LateFeed(p: Parser, chunks: seq<string>, items: seq<Part>, b: string)
    requires items != [] && IsCarriable(items, b) && IsLate(p, p.buf + Flatten(chunks), items, b)
    requires p.state == 3 ==> p.parts != []
    ensures var r := FeedAll(p, chunks, b); r.1 ==> r.0.parts != items
    decreases |chunks|
  {
    hide Rounds, IsLate, IsCarriable;
    if chunks == [] {
      assert p.buf + Flatten(chunks) == p.buf;
      LateIsWrong(p, items, b);
    } else {
      var q, future := p.(buf := p.buf + chunks[0]), Flatten(chunks[1..]);
      assert p.buf + Flatten(chunks) == q.buf + future;
      LaterInput(p, chunks[0], q.buf + future, items, b);
      LateRounds(q, future, items, b);
      var r := Rounds(q, b);
      if r.1 { LateFeed(r.0, chunks[1..], items, b); }
    }
  }

  // ------------------------------------------------------------------ exactly the whole first lines

  /** The first bytes that arrive at all. */
  function FirstPiece(chunks: seq<string>): string {
    if chunks == [] then "" else if chunks[0] != "" then chunks[0] else FirstPiece(chunks[1..])
  }

  /** The form is accepted, and reported whole and valid. */
  predicate ReadsBack(chunks: seq<string>, items: seq<Part>, b: string) {
    var r := FeedAll(START, chunks, b);
    r.1 && r.0.valid && r.0.parts == items
  }

  lemma {:induction false} EmptyChunk(chunks: seq<string>, b: string)
    requires chunks != [] && chunks[0] == ""
    ensures FeedAll(START, chunks, b) == FeedAll(START, chunks[1..], b)
  {
    hide Round;
    assert START.(buf := START.buf + "") == START;
  }

  /** A first piece that is too short is forgotten, and what follows never reads back. */
  lemma {:induction false} ShortPieceLost(items: seq<Part>, chunks: seq<string>, b: string)
    requires items != [] && IsCarriable(items, b) && Flatten(chunks) == Serialized(items, b)
    requires chunks != [] && 0 < |chunks[0]| < |Line(b)|
    ensures !ReadsBack(chunks, items, b)
  {
    hide Rounds, Serialized, IsCarriable;
    ShortFirstChunkIsForgotten(chunks[0], b);
    var rest := Flatten(chunks[1..]);
    assert START.buf + rest == rest;
    assert Serialized(items, b)[|chunks[0]|..] == rest;
    LateFeed(START, chunks[1..], items, b);
  }

  /** The multipart round trip, exactly.  However the serialized form is cut, it reads back if and
      only if the first bytes that arrive hold the whole opening boundary line. */
  lemma {:induction false} FormReadsBackExactly(items: seq<Part>, chunks: seq<string>, b: string)
    requires items != [] && IsPlainForm(items, b) && Flatten(chunks) == Serialized(items, b)
    ensures ReadsBack(chunks, items, b) <==> |FirstPiece(chunks)| >= |Line(b)|
    decreases |chunks|
  {
    hide FeedAll, Serialized, IsPlainForm, IsCarriable;
    assert IsCarriable(items, b) by { PlainIsCarriable(items, b); }
    if chunks == [] {
      NotNothing(items, b);
      assert false;
    } else if chunks[0] == "" {
      EmptyChunk(chunks, b);
      assert Flatten(chunks) == Flatten(chunks[1..]);
      FormReadsBackExactly(items, chunks[1..], b);
    } else if |chunks[0]| < |Line(b)| {
      ShortPieceLost(items, chunks, b);
    } else {
      FormReadsBack(items, chunks, b);
    }
  }

  lemma {:induction false} PlainIsCarriable(items: seq<Part>, b: string)
    requires IsPlainForm(items, b)
    ensures IsCarriable(items, b)
  {
    hide IsPlainFile, Occurs;
    forall i | 0 <= i < |items|
      ensures IsPlainFile(items[i].file) && !Occurs(items[i].content, Stop(b))
    {
      assert IsPlainPart(items[i], b);
    }
  }

  lemma {:induction false} NotNothing(items: seq<Part>, b: string)
    ensures Serialized(items, b) != ""
  {
    hide After;
    SerializedIs(items, b);
  }
}
