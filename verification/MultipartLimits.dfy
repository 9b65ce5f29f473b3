/** The limit on header lines, and the form without parts. */
module MultipartLimits {
  import opened Text
  import opened Http
  import opened MultipartHeaders
  import opened Multipart
  import opened MultipartProofs
  import opened MultipartCuts

  // ------------------------------------------------------------------ feeding whole parts

  lemma {:induction false} FeedAppend(p: Parser, first: seq<string>, more: seq<string>, b: string)
    ensures var r := FeedAll(p, first, b);
            FeedAll(p, first + more, b) == if r.1 then FeedAll(r.0, more, b) else r
    decreases |first|
  {
    hide Rounds;
    if first == [] {
      assert first + more == more;
    } else {
      assert (first + more)[1..] == first[1..] + more;
      var r := Rounds(p.(buf := p.buf + first[0]), b);
      if r.1 { FeedAppend(r.0, first[1..], more, b); }
    }
  }

  lemma {:induction false} FlattenAppend(first: seq<string>, more: seq<string>)
    ensures Flatten(first + more) == Flatten(first) + Flatten(more)
    decreases |first|
  {
    if first == [] {
      assert first + more == more;
    } else {
      assert (first + more)[1..] == first[1..] + more;
      FlattenAppend(first[1..], more);
    }
  }

  lemma {:induction false} RoundsNext(p: Parser, b: string)
    requires p.buf != ""
    ensures var r := Round(p, b); Rounds(p, b) == if r.1.Again? then Rounds(r.0, b) else (r.0, r.1.Wait?)
  {
    hide Round;
  }

  lemma {:induction false} RoundsStop(p: Parser, b: string)
    requires p.buf == ""
    ensures Rounds(p, b) == (p, true)
  {
  }

  predicate Fits(part: Part) {
    forall h :: h in HeaderLines(part.file) ==> |h| < HEADER_MAX_LENGTH
  }

  /** A part from its header lines to the line break behind its boundary. */
  function Piece(part: Part, b: string): string {
    LinesText(HeaderLines(part.file)) + CRLF + (part.content + Stop(b) + CRLF)
  }

  /** All header lines at once, and the empty line behind them. */
  lemma {:induction false} HeadersWhole(p: Parser, f: File, j: nat, tail: string)
    requires IsPlainFile(f) && j <= |HeaderLines(f)| && p.state == 2 && p.file == FileAfter(f, j)
    requires p.buf == LinesText(HeaderLines(f)[j..]) + CRLF + tail
    ensures Headers(p) == (p.(state := 3, file := f, parts := p.parts + [Part(f, "")], buf := tail), Again)
    decreases |HeaderLines(f)| - j
  {
    hide Headers, Find, HeaderEffect, FileAfter, HeaderLines, LinesText, IsPlainFile;
    var lines := HeaderLines(f);
    HeadersStep(p);
    if j == |lines| {
      AllLines(f);
      assert lines[j..] == [];
      assert p.buf + "" == "" + CRLF + tail;
      FindLineEnd(p.buf, "", "", tail);
      assert p.buf[2..] == tail;
    } else {
      LinesFrom(f, j);
      NextLine(lines, j, tail);
      var line, more := lines[j], LinesText(lines[j + 1..]) + CRLF + tail;
      assert p.buf + "" == line + CRLF + more;
      FindLineEnd(p.buf, "", line, more);
      assert p.buf[..|line|] == line && p.buf[|line| + 2..] == more;
      HeadersWhole(p.(file := FileAfter(f, j + 1), buf := more), f, j + 1, tail);
    }
  }

  lemma {:induction false} FirstLineEnd(p: Parser, f: File, tail: string)
    requires IsPlainFile(f) && p.buf == LinesText(HeaderLines(f)) + CRLF + tail
    ensures Find(p.buf, CRLF, 0) == |HeaderLines(f)[0]|
  {
    hide Find, HeaderLines, LinesText, IsPlainFile, FileAfter, HeaderEffect;
    AllLines(f);
    LinesFrom(f, 0);
    assert HeaderLines(f)[0..] == HeaderLines(f);
    NextLine(HeaderLines(f), 0, tail);
    var line, more := HeaderLines(f)[0], LinesText(HeaderLines(f)[1..]) + CRLF + tail;
    assert p.buf + "" == line + CRLF + more;
    FindLineEnd(p.buf, "", line, more);
  }

  /** A parser that expects headers and is fed one whole part reports it and expects headers again. */
  lemma {:induction false} PieceRead(p: Parser, part: Part, b: string)
    requires p.state == 1 && p.buf == "" && '\r' !in b
    requires IsPlainFile(part.file) && !Occurs(part.content, Stop(b)) && Fits(part)
    ensures Rounds(p.(buf := p.buf + Piece(part, b)), b)
         == (p.(file := part.file, parts := p.parts + [part]), true)
  {
    hide Rounds, Round, Find, Headers, HeaderLines, LinesText, IsPlainFile, Fits, Occurs, AppendContent;
    var f, c := part.file, part.content;
    var tail := c + Stop(b) + CRLF;
    var p1 := p.(buf := p.buf + Piece(part, b));
    assert p1.buf == LinesText(HeaderLines(f)) + CRLF + tail;
    assert p1.buf != "";
    RoundsNext(p1, b);
    var p2 := p1.(state := 2, file := NO_FILE);
    assert Round(p1, b) == (p2, Again) by { NewEntryRound(p1, b); }
    RoundsNext(p2, b);
    FirstLineEnd(p2, f, tail);
    FirstFits(part);
    assert HeaderLines(f)[0..] == HeaderLines(f);
    NothingRead(f);
    HeadersWhole(p2, f, 0, tail);
    var p3 := p2.(state := 3, file := f, parts := p.parts + [Part(f, "")], buf := tail);
    assert Round(p2, b) == (p3, Again) by { HeadersRound(p2, b); }
    ContentRead(p3, p.parts, f, c, b);
  }

  lemma {:induction false} NothingRead(f: File)
    ensures FileAfter(f, 0) == NO_FILE
  {
  }

  lemma {:induction false} NewEntryRound(p: Parser, b: string)
    requires p.buf != "" && p.state == 1
    ensures Round(p, b) == (p.(state := 2, file := NO_FILE), Again)
  {
    hide Find, Headers;
  }

  lemma {:induction false} HeadersRound(p: Parser, b: string)
    requires p.buf != "" && p.state == 2
    ensures Round(p, b) == if Find(p.buf, CRLF, 0) > HEADER_MAX_LENGTH then (p, Reject) else Headers(p)
  {
    hide Find, Headers;
  }

  lemma {:induction false} FirstFits(part: Part)
    requires Fits(part)
    ensures |HeaderLines(part.file)| > 0 && |HeaderLines(part.file)[0]| < HEADER_MAX_LENGTH
  {
    hide DispositionLine, TypeLine;
    assert HeaderLines(part.file)[0] in HeaderLines(part.file);
  }

  lemma {:induction false} ContentRead(p: Parser, before: seq<Part>, f: File, c: string, b: string)
    requires p.state == 3 && p.buf == c + Stop(b) + CRLF && p.parts == before + [Part(f, "")]
    requires '\r' !in b && !Occurs(c, Stop(b))
    ensures Rounds(p, b) == (p.(state := 1, parts := before + [Part(f, c)], buf := ""), true)
  {
    hide Rounds, Round, Find, Occurs;
    var stop := Stop(b);
    RoundsNext(p, b);
    RoundBody(p, b);
    assert p.buf + "" == c + stop + CRLF;
    FindStop(p.buf, "", c, CRLF, b);
    assert p.buf[..|c|] == c && p.buf[|c| + |stop|..] == CRLF;
    assert AppendContent(p.parts, c) == before + [Part(f, c)] by { assert "" + c == c; }
    var p4 := p.(state := 4, parts := before + [Part(f, c)], buf := CRLF);
    RoundsNext(p4, b);
    RoundBoundary(p4, b);
    assert CRLF[2..] == "";
    RoundsStop(p4.(state := 1, buf := ""), b);
  }

  // ------------------------------------------------------------------ a cut that fails

  /** The opening boundary line and the first `k` parts, each as one chunk. */
  function Whole(items: seq<Part>, k: nat, b: string): seq<string>
    requires k <= |items|
  {
    if k == 0 then [Line(b)] else Whole(items, k - 1, b) + [Piece(items[k - 1], b)]
  }

  lemma {:induction false} OpeningRead(b: string)
    ensures Rounds(START.(buf := START.buf + Line(b)), b) == (START.(state := 1), true)
  {
    hide Rounds, Round, Find;
    var line := Line(b);
    var p := START.(buf := START.buf + line);
    assert p.buf == line;
    RoundsNext(p, b);
    RoundInitial(p, b);
    FindIs(line, line, 0);
    assert line[0..] == line && line[|line|..] == "";
    RoundsStop(START.(state := 1), b);
  }

  /** After the first `k` parts the parser has them, and expects headers with nothing buffered. */
  lemma {:induction false} WholeRead(items: seq<Part>, k: nat, b: string)
    requires IsCarriable(items, b) && k <= |items| && forall i :: 0 <= i < k ==> Fits(items[i])
    ensures var r := FeedAll(START, Whole(items, k, b), b);
            r.1 && r.0.state == 1 && r.0.buf == "" && r.0.parts == items[..k]
  {
    hide Rounds, Piece, IsPlainFile, Fits, Occurs;
    if k == 0 {
      OpeningRead(b);
      OneChunk(START, Line(b), b);
    } else {
      WholeRead(items, k - 1, b);
      var p := FeedAll(START, Whole(items, k - 1, b), b).0;
      FeedAppend(START, Whole(items, k - 1, b), [Piece(items[k - 1], b)], b);
      OneChunk(p, Piece(items[k - 1], b), b);
      PieceRead(p, items[k - 1], b);
      assert items[..k] == items[..k - 1] + [items[k - 1]];
    }
  }

  lemma {:induction false} OneChunk(p: Parser, chunk: string, b: string)
    ensures FeedAll(p, [chunk], b) == Rounds(p.(buf := p.buf + chunk), b)
  {
    hide Rounds;
    var r := Rounds(p.(buf := p.buf + chunk), b);
    assert FeedAll(r.0, [], b) == (r.0, true);
  }

  lemma {:induction false} WholeText(items: seq<Part>, k: nat, b: string)
    requires k < |items|
    ensures Flatten(Whole(items, k, b)) + LinesText(HeaderLines(items[k].file)) + CRLF + BodyOf(items, k, b)
         == Serialized(items, b)
  {
    hide HeaderLines, LinesText, Body, Serialized, After;
    var lines := LinesText(HeaderLines(items[k].file));
    if k == 0 {
      assert Flatten([Line(b)]) == Line(b) by { FlattenOne(Line(b)); }
      SerializedIs(items, b);
      AfterShape(items, 0, b);
      assert items[0..] == items;
    } else {
      var before, piece := Whole(items, k - 1, b), Piece(items[k - 1], b);
      WholeText(items, k - 1, b);
      FlattenAppend(before, [piece]);
      FlattenOne(piece);
      BodyShape(items, k - 1, b);
      AfterShape(items, k, b);
      PieceThenRest(LinesText(HeaderLines(items[k - 1].file)), items[k - 1].content, lines, BodyOf(items, k, b), b);
    }
  }

  lemma {:induction false} FlattenOne(piece: string)
    ensures Flatten([piece]) == piece
  {
    assert Flatten([]) == "";
  }

  lemma {:induction false} PieceThenRest(h: string, c: string, lines: string, body: string, b: string)
    ensures h + CRLF + (c + Stop(b) + (CRLF + (lines + CRLF + body)))
         == h + CRLF + (c + Stop(b) + CRLF) + (lines + CRLF + body)
  {
  }

  /** A header line that is too long is refused when all of it but its LF has arrived alone. */
  lemma {:induction false} LongLineRefused(p: Parser, h: string, b: string)
    requires (p.state == 1 || p.state == 2) && p.buf == "" && |h| >= HEADER_MAX_LENGTH && '\r' !in h
    ensures !Rounds(p.(buf := p.buf + (h + "\r")), b).1
  {
    hide Rounds, Round, Find, Headers;
    var q := p.(buf := p.buf + (h + "\r"));
    assert q.buf == h + "\r";
    NoCrlf(h);
    RoundsNext(q, b);
    if p.state == 1 {
      NewEntryRound(q, b);
      var q2 := q.(state := 2, file := NO_FILE);
      RoundsNext(q2, b);
      HeadersRound(q2, b);
    } else {
      HeadersRound(q, b);
    }
  }

  /** The first header line of a part alone: the parser goes on waiting for header lines. */
  lemma {:induction false} OneLineRead(p: Parser, f: File, b: string)
    requires p.state == 1 && p.buf == "" && IsPlainFile(f) && |HeaderLines(f)[0]| < HEADER_MAX_LENGTH
    ensures var r := Rounds(p.(buf := p.buf + (HeaderLines(f)[0] + CRLF)), b);
            r.1 && r.0.state == 2 && r.0.buf == ""
  {
    hide Rounds, Round, Find, Headers, HeaderEffect, FileAfter, HeaderLines, IsPlainFile;
    AllLines(f);
    LinesFrom(f, 0);
    NothingRead(f);
    var h := HeaderLines(f)[0];
    var q := p.(buf := p.buf + (h + CRLF));
    assert q.buf == h + CRLF;
    RoundsNext(q, b);
    NewEntryRound(q, b);
    var q2 := q.(state := 2, file := NO_FILE);
    RoundsNext(q2, b);
    HeadersRound(q2, b);
    HeadersStep(q2);
    NoCrlf(h);
    assert q2.buf[..|h|] == h && q2.buf[|h| + 2..] == "";
    HeadersStep(q2.(file := FileAfter(f, 1), buf := ""));
  }

  /** A cut of the form whose first bytes hold the opening boundary line. */
  predicate IsWholeCut(chunks: seq<string>, items: seq<Part>, b: string) {
    Flatten(chunks) == Serialized(items, b) && |FirstPiece(chunks)| >= |Line(b)|
  }

  lemma {:induction false} WholeStarts(items: seq<Part>, k: nat, more: seq<string>, b: string)
    requires k <= |items|
    ensures FirstPiece(Whole(items, k, b) + more) == Line(b)
  {
    hide Piece;
    WholeFirst(items, k, b);
    assert (Whole(items, k, b) + more)[0] == Line(b);
  }

  lemma {:induction false} WholeFirst(items: seq<Part>, k: nat, b: string)
    requires k <= |items|
    ensures Whole(items, k, b) != [] && Whole(items, k, b)[0] == Line(b)
  {
    hide Piece;
    if k > 0 { WholeFirst(items, k - 1, b); }
  }

  /** The chunks of `first`, one more, and the rest of the form in one. */
  lemma {:induction false} CutAfter(all: string, first: seq<string>, chunk: string, rest: string)
    requires all == Flatten(first) + (chunk + rest)
    ensures Flatten(first + [chunk, rest]) == all
  {
    FlattenAppend(first, [chunk, rest]);
    assert [chunk, rest][1..] == [rest];
    FlattenOne(rest);
  }

  /** The cut that fails when the first line of part `k` is too long. */
  lemma {:induction false} FirstLineFails(items: seq<Part>, k: nat, b: string) returns (chunks: seq<string>)
    requires IsCarriable(items, b) && k < |items| && forall i :: 0 <= i < k ==> Fits(items[i])
    requires |HeaderLines(items[k].file)[0]| >= HEADER_MAX_LENGTH
    ensures IsWholeCut(chunks, items, b) && !ReadsBack(chunks, items, b)
  {
    hide Serialized, HeaderLines, LinesText, Body, FeedAll, Rounds, IsPlainFile, Fits, Occurs, FirstPiece;
    var f, body, whole := items[k].file, BodyOf(items, k, b), Whole(items, k, b);
    LinesOneByOne(f);
    var h, more := HeaderLines(f)[0], LinesText(HeaderLines(f)[1..]) + CRLF + body;
    NextLine(HeaderLines(f), 0, body);
    WholeText(items, k, b);
    assert HeaderLines(f)[0..] == HeaderLines(f);
    var rest := "\n" + more;
    chunks := whole + [h + "\r", rest];
    assert Serialized(items, b) == Flatten(whole) + ((h + "\r") + rest) by {
      BreakInTwo(Flatten(whole), LinesText(HeaderLines(f)), h, body, more);
    }
    CutAfter(Serialized(items, b), whole, h + "\r", rest);
    WholeStarts(items, k, [h + "\r", rest], b);
    WholeRead(items, k, b);
    var p := FeedAll(START, whole, b).0;
    FeedAppend(START, whole, [h + "\r", rest], b);
    LongLineRefused(p, h, b);
    Refused(p, h + "\r", rest, b);
  }

  lemma {:induction false} LinesOneByOne(f: File)
    requires IsPlainFile(f)
    ensures 1 <= |HeaderLines(f)| <= 2 && forall l :: l in HeaderLines(f) ==> '\r' !in l
    ensures '\r' !in HeaderLines(f)[0] && (|HeaderLines(f)| == 2 ==> '\r' !in HeaderLines(f)[1])
  {
    hide DispositionLine, TypeLine, IsPlainFile;
    LinesAreSingle(f);
    assert HeaderLines(f)[0] in HeaderLines(f);
  }

  lemma {:induction false} BreakInTwo(head: string, lines: string, h: string, body: string, more: string)
    requires lines + CRLF + body == h + CRLF + more
    ensures head + lines + CRLF + body == head + ((h + "\r") + ("\n" + more))
  {
    assert head + lines + CRLF + body == head + (lines + CRLF + body);
    assert h + CRLF + more == (h + "\r") + ("\n" + more);
  }

  lemma {:induction false} Refused(p: Parser, chunk: string, rest: string, b: string)
    requires !Rounds(p.(buf := p.buf + chunk), b).1
    ensures !FeedAll(p, [chunk, rest], b).1
  {
    hide Rounds;
  }

  /** The cut that fails when the second line of part `k` is too long. */
  lemma {:induction false} SecondLineFails(items: seq<Part>, k: nat, b: string) returns (chunks: seq<string>)
    requires IsCarriable(items, b) && k < |items| && forall i :: 0 <= i < k ==> Fits(items[i])
    requires |HeaderLines(items[k].file)[0]| < HEADER_MAX_LENGTH
    requires |HeaderLines(items[k].file)| == 2 && |HeaderLines(items[k].file)[1]| >= HEADER_MAX_LENGTH
    ensures IsWholeCut(chunks, items, b) && !ReadsBack(chunks, items, b)
  {
    hide Serialized, HeaderLines, LinesText, Body, FeedAll, Rounds, IsPlainFile, Fits, Occurs, FirstPiece;
    var f, body, whole := items[k].file, BodyOf(items, k, b), Whole(items, k, b);
    LinesOneByOne(f);
    var lines := HeaderLines(f);
    var h0, h1 := lines[0], lines[1];
    NextLine(lines, 0, body);
    NextLine(lines, 1, body);
    WholeText(items, k, b);
    assert lines[0..] == lines;
    var first, rest := whole + [h0 + CRLF], "\n" + (LinesText(lines[2..]) + CRLF + body);
    chunks := first + [h1 + "\r", rest];
    FlattenAppend(whole, [h0 + CRLF]);
    FlattenOne(h0 + CRLF);
    assert Serialized(items, b) == Flatten(first) + ((h1 + "\r") + rest) by {
      BreakLater(Flatten(whole), LinesText(lines), h0, h1, body, LinesText(lines[1..]),
                 LinesText(lines[2..]) + CRLF + body);
    }
    CutAfter(Serialized(items, b), first, h1 + "\r", rest);
    assert chunks == whole + ([h0 + CRLF] + [h1 + "\r", rest]);
    WholeStarts(items, k, [h0 + CRLF] + [h1 + "\r", rest], b);
    WholeRead(items, k, b);
    var p := FeedAll(START, whole, b).0;
    FeedAppend(START, whole, [h0 + CRLF], b);
    OneChunk(p, h0 + CRLF, b);
    OneLineRead(p, f, b);
    var q := FeedAll(START, first, b).0;
    FeedAppend(START, first, [h1 + "\r", rest], b);
    LongLineRefused(q, h1, b);
    Refused(q, h1 + "\r", rest, b);
  }

  lemma {:induction false} BreakLater(head: string, lines: string, h0: string, h1: string, body: string,
                                      tail: string, more: string)
    requires lines + CRLF + body == h0 + CRLF + (tail + CRLF + body)
    requires tail + CRLF + body == h1 + CRLF + more
    ensures head + lines + CRLF + body == head + (h0 + CRLF) + ((h1 + "\r") + ("\n" + more))
  {
    assert head + lines + CRLF + body == head + (lines + CRLF + body);
    assert h1 + CRLF + more == (h1 + "\r") + ("\n" + more);
  }

  lemma {:induction false} FirstMisfit(items: seq<Part>) returns (k: nat)
    requires exists i :: 0 <= i < |items| && !Fits(items[i])
    ensures k < |items| && !Fits(items[k]) && forall i :: 0 <= i < k ==> Fits(items[i])
  {
    hide Fits;
    k := 0;
    while Fits(items[k])
      invariant k < |items| && (forall i :: 0 <= i < k ==> Fits(items[i]))
      invariant exists i :: k <= i < |items| && !Fits(items[i])
      decreases |items| - k
    {
      k := k + 1;
    }
  }

  /** The limit on header lines, exactly.  A form reads back under every cut that keeps the opening
      boundary line whole if and only if all its header lines are shorter than the limit. */
  lemma {:induction false} EveryCutReadsBack(items: seq<Part>, b: string)
    requires items != [] && IsCarriable(items, b)
    ensures (forall chunks :: IsWholeCut(chunks, items, b) ==> ReadsBack(chunks, items, b))
            <==> forall i :: 0 <= i < |items| ==> Fits(items[i])
  {
    hide IsCarriable, ReadsBack, IsWholeCut, Fits;
    if forall i :: 0 <= i < |items| ==> Fits(items[i]) {
      FittingIsPlain(items, b);
      forall chunks | IsWholeCut(chunks, items, b)
        ensures ReadsBack(chunks, items, b)
      {
        WholeCutReads(items, chunks, b);
      }
    } else {
      var k := FirstMisfit(items);
      var lines := HeaderLines(items[k].file);
      MisfitLine(items[k]);
      var chunks;
      if |lines[0]| >= HEADER_MAX_LENGTH {
        chunks := FirstLineFails(items, k, b);
      } else {
        chunks := SecondLineFails(items, k, b);
      }
      assert IsWholeCut(chunks, items, b) && !ReadsBack(chunks, items, b);
    }
  }

  lemma {:induction false} WholeCutReads(items: seq<Part>, chunks: seq<string>, b: string)
    requires items != [] && IsPlainForm(items, b) && IsWholeCut(chunks, items, b)
    ensures ReadsBack(chunks, items, b)
  {
    hide IsPlainForm, ReadsBack, Serialized, FirstPiece;
    FormReadsBackExactly(items, chunks, b);
  }

  lemma {:induction false} FittingIsPlain(items: seq<Part>, b: string)
    requires IsCarriable(items, b) && forall i :: 0 <= i < |items| ==> Fits(items[i])
    ensures IsPlainForm(items, b)
  {
    hide IsPlainFile, Occurs, HeaderLines;
    forall i | 0 <= i < |items|
      ensures IsPlainPart(items[i], b)
    {
      assert Fits(items[i]);
    }
  }

  lemma {:induction false} MisfitLine(part: Part)
    requires !Fits(part)
    ensures var lines := HeaderLines(part.file);
            1 <= |lines| <= 2
            && (|lines[0]| >= HEADER_MAX_LENGTH || (|lines| == 2 && |lines[1]| >= HEADER_MAX_LENGTH))
  {
    hide DispositionLine, TypeLine;
  }

  // ------------------------------------------------------------------ the form without parts

  /** What a parser can be while it reads the form without parts. */
  predicate SeesNothing(p: Parser, rest: string, b: string) {
    !p.valid && p.parts == []
    && ((p.state == 0 && IsTail(rest, DASH + b + DASH + CRLF, 0)) || (p.state == 1 && rest == ""))
  }

  /** The text has a single CR, near its end. */
  lemma {:induction false} OnlyBreak(rest: string, b: string)
    requires '\r' !in b && IsTail(rest, DASH + b + DASH + CRLF, 0)
    requires |Line(b)| <= |rest| && rest[..|Line(b)|] == Line(b)
    ensures rest[|Line(b)|..] == ""
  {
    var all, line := DASH + b + DASH + CRLF, Line(b);
    assert forall i :: 0 <= i < |all| - 2 ==> all[i] != '\r' by {
      assert forall i :: 2 <= i < |b| + 2 ==> all[i] == b[i - 2] && b[i - 2] in b;
    }
    var k := |all| - |rest| + |b| + 2;
    assert all[k] == all[|all| - |rest|..][|b| + 2] == rest[..|line|][|b| + 2] == '\r';
    assert all[|all| - 1] == '\n';
  }

  lemma {:induction false} TailIsTail(rest: string, whole: string, d: nat)
    requires IsTail(rest, whole, d)
    ensures IsTail(rest, whole, 0)
  {
  }

  lemma {:induction false} NothingFound(buf: string, future: string, pos: nat, b: string)
    requires '\r' !in b && pos <= |buf| && IsTail(buf + future, DASH + b + DASH + CRLF, 0)
    requires pos < |buf| ==> At(buf, Line(b), pos)
    ensures IsTail(buf[pos..] + future, DASH + b + DASH + CRLF, 0)
    ensures |Line(b)| <= |buf[pos..]| ==> buf[pos..][|Line(b)|..] + future == ""
  {
    hide IsTail;
    var line, all, here := Line(b), DASH + b + DASH + CRLF, buf[pos..];
    assert buf + future == buf[..pos] + (here + future);
    TailOfTail(buf[..pos], here + future, all, 0);
    TailIsTail(here + future, all, pos);
    if |line| <= |here| {
      assert here[..|line|] == buf[pos..pos + |line|];
      LineIsLast(here, future, b);
    }
  }

  lemma {:induction false} LineIsLast(here: string, future: string, b: string)
    requires '\r' !in b && IsTail(here + future, DASH + b + DASH + CRLF, 0)
    requires |Line(b)| <= |here| && here[..|Line(b)|] == Line(b)
    ensures here[|Line(b)|..] + future == ""
  {
    hide IsTail;
    var rest := here + future;
    assert rest[..|Line(b)|] == Line(b);
    OnlyBreak(rest, b);
    assert rest[|Line(b)|..] == here[|Line(b)|..] + future;
  }

  lemma {:induction false} NothingRound(p: Parser, future: string, b: string)
    requires '\r' !in b && p.buf != "" && SeesNothing(p, p.buf + future, b)
    ensures var r := Round(p, b); !r.1.Reject? && SeesNothing(r.0, r.0.buf + future, b)
  {
    hide Round, Find, At, IsTail;
    RoundInitial(p, b);
    NothingFound(p.buf, future, Find(p.buf, Line(b), 0), b);
  }

  lemma {:induction false} NothingRounds(p: Parser, future: string, b: string)
    requires '\r' !in b && SeesNothing(p, p.buf + future, b)
    ensures var r := Rounds(p, b); r.1 && SeesNothing(r.0, r.0.buf + future, b)
    decreases |p.buf|, Rank(p)
  {
    hide Round, SeesNothing;
    if p.buf != "" {
      RoundDecreases(p, b);
      NothingRound(p, future, b);
      var r := Round(p, b);
      if r.1.Again? { NothingRounds(r.0, future, b); }
    }
  }

  lemma {:induction false} NothingFed(p: Parser, chunks: seq<string>, b: string)
    requires '\r' !in b && SeesNothing(p, p.buf + Flatten(chunks), b)
    ensures var r := FeedAll(p, chunks, b); r.1 && !r.0.valid && r.0.parts == []
    decreases |chunks|
  {
    hide Rounds;
    if chunks != [] {
      var q, future := p.(buf := p.buf + chunks[0]), Flatten(chunks[1..]);
      assert p.buf + Flatten(chunks) == q.buf + future;
      NothingRounds(q, future, b);
      NothingFed(Rounds(q, b).0, chunks[1..], b);
    }
  }

  /** A form without parts has no opening boundary line: under no cut does it become valid. */
  lemma {:induction false} EmptyFormIsInvalid(chunks: seq<string>, b: string)
    requires '\r' !in b && Flatten(chunks) == Serialized([], b)
    ensures var r := FeedAll(START, chunks, b); r.1 && !r.0.valid && r.0.parts == []
  {
    hide FeedAll;
    var all := Serialized([], b);
    assert all[0..] == all && "" + all == all;
    NothingFed(START, chunks, b);
  }
}
