/** The multipart round trip: however a serialized form is cut into chunks, the streaming parser
    reports its parts. */
module MultipartProofs {
  import opened Text
  import opened Http
  import opened Json
  import opened MultipartHeaders
  import opened Multipart

  // ------------------------------------------------------------------ the forms covered

  function Line(b: string): string {
    DASH + b + CRLF
  }

  function Stop(b: string): string {
    CRLF + DASH + b
  }

  predicate Occurs(s: string, p: string) {
    exists i :: 0 <= i < |s| && At(s, p, i)
  }

  /** A plain header, every header line short enough, and content without CRLF--boundary. */
  predicate IsPlainPart(part: Part, b: string) {
    IsPlainFile(part.file)
    && (forall h :: h in HeaderLines(part.file) ==> |h| < HEADER_MAX_LENGTH)
    && !Occurs(part.content, Stop(b))
  }

  predicate IsPlainForm(items: seq<Part>, b: string) {
    '\r' !in b && forall i :: 0 <= i < |items| ==> IsPlainPart(items[i], b)
  }

  // ------------------------------------------------------------------ the text still to come

  /** What follows a boundary when `items` are still to come. */
  function After(items: seq<Part>, b: string): string
    decreases |items|, 0
  {
    if items == [] then DASH + CRLF
    else CRLF + LinesText(HeaderLines(items[0].file)) + CRLF + Body(items[0].content, items[1..], b)
  }

  /** The rest of a part's content and what follows it. */
  function Body(content: string, items: seq<Part>, b: string): string
    decreases |items|, 1
  {
    content + Stop(b) + After(items, b)
  }

  lemma {:induction false} SerializedIs(items: seq<Part>, b: string)
    ensures Serialized(items, b) == DASH + b + After(items, b)
  {
    if items == [] {
      assert DASH + b + DASH + CRLF == DASH + b + (DASH + CRLF);
    } else {
      SerializedIs(items[1..], b);
      ItemPrinted(items, b);
      hide LinesText, HeaderLines, Serialized, After;
      Regroup(DASH + b, LinesText(HeaderLines(items[0].file)), items[0].content, After(items[1..], b));
    }
  }

  lemma {:induction false} ItemPrinted(items: seq<Part>, b: string)
    requires items != []
    ensures var h, c := LinesText(HeaderLines(items[0].file)), items[0].content;
            && Serialized(items, b) == DASH + b + CRLF + h + CRLF + c + CRLF + Serialized(items[1..], b)
            && After(items, b) == CRLF + h + CRLF + (c + (CRLF + (DASH + b)) + After(items[1..], b))
  {
    hide LinesText, HeaderLines;
    assert CRLF + DASH + b == CRLF + (DASH + b);
  }

  lemma {:induction false} Regroup(p: string, h: string, c: string, rest: string)
    ensures p + CRLF + h + CRLF + c + CRLF + (p + rest) == p + (CRLF + h + CRLF + (c + (CRLF + p) + rest))
  {
  }

  // ------------------------------------------------------------------ where the parser stands

  /** What the first `j` header lines of a part have set. */
  function FileAfter(f: File, j: nat): File {
    if j == 0 then NO_FILE else if j == 1 then File(f.name, f.filename, "") else f
  }

  predicate HeadersAt(p: Parser, rest: string, items: seq<Part>, k: nat, j: nat, b: string) {
    k < |items| && p.parts == items[..k] && j <= |HeaderLines(items[k].file)|
    && p.file == FileAfter(items[k].file, j)
    && rest == LinesText(HeaderLines(items[k].file)[j..]) + CRLF + Body(items[k].content, items[k + 1..], b)
  }

  predicate BodyAt(p: Parser, rest: string, items: seq<Part>, k: nat, b: string) {
    k < |items| && |p.parts| == k + 1 && p.parts[..k] == items[..k] && p.parts[k].file == items[k].file
    && p.parts[k].content <= items[k].content
    && rest == Body(items[k].content[|p.parts[k].content|..], items[k + 1..], b)
  }

  /** Everything is reported; only the closing CRLF may remain. */
  predicate IsDone(p: Parser, rest: string, items: seq<Part>) {
    p.valid && p.parts == items
    && ((p.state == 4 && (rest == CRLF || rest == "\n" || rest == "")) || (p.state == 1 && rest == ""))
  }

  /** `rest`, the unread bytes, is the part of the serialized form that this parser state still
      has to see when `k` parts are complete. */
  predicate Expects(p: Parser, rest: string, items: seq<Part>, k: nat, b: string) {
    match p.state
    case 0 => k == 0 && items != [] && p.parts == [] && rest == DASH + b + After(items, b) && |p.buf| >= |Line(b)|
    case 1 => IsDone(p, rest, items)
              || (k < |items| && p.parts == items[..k]
                  && rest == LinesText(HeaderLines(items[k].file)) + CRLF + Body(items[k].content, items[k + 1..], b))
    case 2 => exists j :: 0 <= j <= 2 && HeadersAt(p, rest, items, k, j, b)
    case 3 => BodyAt(p, rest, items, k, b)
    case 4 => IsDone(p, rest, items)
              || (k <= |items| && p.parts == items[..k] && rest == After(items[k..], b))
    case _ => false
  }

  // ------------------------------------------------------------------ finding things

  lemma {:induction false} FindIs(s: string, p: string, k: nat)
    requires p != "" && (At(s, p, k) || (k == |s|)) && k <= |s|
    requires forall j :: 0 <= j < k ==> !At(s, p, j)
    ensures Find(s, p, 0) == k
  {
    var r := Find(s, p, 0);
    assert r < |s| ==> At(s, p, r);
  }

  /** The line break after a header line, as far as the buffer shows it. */
  lemma {:induction false} FindLineEnd(buf: string, future: string, line: string, more: string)
    requires '\r' !in line && buf + future == line + CRLF + more
    ensures Find(buf, CRLF, 0) == if |buf| >= |line| + 2 then |line| else |buf|
  {
    hide Find;
    var all := buf + future;
    assert forall i :: 0 <= i < |buf| ==> buf[i] == all[i];
    assert forall i :: 0 <= i < |line| ==> all[i] == line[i] && line[i] in line;
    assert all[|line|] == '\r' && all[|line| + 1] == '\n';
    forall j | 0 <= j < |buf| && j != |line|
      ensures j < |line| ==> !At(buf, CRLF, j)
    {
      assert j + 2 <= |buf| ==> buf[j..j + 2][0] == buf[j];
      assert j < |line| ==> buf[j] != '\r';
    }
    if |buf| >= |line| + 2 {
      assert buf[|line|..|line| + 2] == CRLF;
      FindIs(buf, CRLF, |line|);
    } else {
      FindIs(buf, CRLF, |buf|);
    }
  }

  /** The boundary after content, as far as the buffer shows it. */
  lemma {:induction false} FindStop(buf: string, future: string, c: string, more: string, b: string)
    requires '\r' !in b && !Occurs(c, Stop(b)) && buf + future == c + Stop(b) + more
    ensures Find(buf, Stop(b), 0) == if |buf| >= |c| + |Stop(b)| then |c| else |buf|
  {
    hide Find;
    var all, stop := buf + future, Stop(b);
    assert forall i :: 0 <= i < |buf| ==> buf[i] == all[i];
    forall j | 0 <= j < |c|
      ensures !At(buf, stop, j)
    {
      NoEarlierStop(buf, future, c, more, b, j);
    }
    if |buf| >= |c| + |stop| {
      assert buf[|c|..|c| + |stop|] == all[|c|..|c| + |stop|] == stop;
      FindIs(buf, stop, |c|);
    } else {
      FindIs(buf, stop, |buf|);
    }
  }

  /** An occurrence before the end of the content would lie in the content or put a CR into the
      boundary. */
  lemma {:induction false} NoEarlierStop(buf: string, future: string, c: string, more: string, b: string, j: nat)
    requires '\r' !in b && !Occurs(c, Stop(b)) && buf + future == c + Stop(b) + more
    requires j < |c|
    ensures !At(buf, Stop(b), j)
  {
    var all, stop := buf + future, Stop(b);
    if j + |stop| <= |c| {
      assert !At(c, stop, j);
      assert c[j..j + |stop|] == all[j..j + |stop|];
      assert j + |stop| <= |buf| ==> buf[j..j + |stop|] == all[j..j + |stop|];
    } else {
      var m := |c| - j;
      assert stop[m] == if m == 1 then '\n' else if m < 4 then '-' else b[m - 4];
      assert m >= 4 ==> b[m - 4] in b;
      assert all[|c|] == '\r';
      assert j + |stop| <= |buf| ==> buf[j..j + |stop|][m] == buf[|c|] == all[|c|];
    }
  }

  // ------------------------------------------------------------------ one round

  lemma {:induction false} LinesFrom(f: File, j: nat)
    requires IsPlainFile(f) && j < |HeaderLines(f)|
    ensures LinesText(HeaderLines(f)[j..]) == HeaderLines(f)[j] + CRLF + LinesText(HeaderLines(f)[j + 1..])
    ensures HeaderEffect(HeaderLines(f)[j], FileAfter(f, j)) == Some(FileAfter(f, j + 1))
    ensures HeaderLines(f)[j] != "" && '\r' !in HeaderLines(f)[j]
  {
    hide HeaderEffect, DispositionLine, TypeLine;
    LinesAreSingle(f);
    assert HeaderLines(f)[j..][1..] == HeaderLines(f)[j + 1..];
    assert HeaderLines(f)[j] in HeaderLines(f);
    if j == 0 {
      DispositionReadsBack(f);
      if |HeaderLines(f)| == 1 { assert f == File(f.name, f.filename, ""); }
    } else {
      TypeReadsBack(f, FileAfter(f, 1));
    }
  }

  lemma {:induction false} Advance(buf: string, future: string, head: string, more: string)
    requires buf + future == head + more && |buf| >= |head|
    ensures buf[|head|..] + future == more && buf[..|head|] == head
  {
    assert (buf + future)[|head|..] == more;
    assert (buf + future)[..|head|] == head;
  }

  lemma {:induction false} HeadersKeep(p: Parser, future: string, items: seq<Part>, k: nat, j: nat, b: string)
    requires p.state == 2 && IsPlainForm(items, b) && HeadersAt(p, p.buf + future, items, k, j, b)
    ensures var r := Headers(p);
            !r.1.Reject? && (r.1.Again? ==> r.0.state == 3) && (r.1.Wait? ==> r.0.state == 2 && future != "")
            && Expects(r.0, r.0.buf + future, items, k, b)
    ensures Find(p.buf, CRLF, 0) <= HEADER_MAX_LENGTH
    decreases |HeaderLines(items[k].file)| - j
  {
    hide Find, Headers, HeaderEffect, FileAfter, HeaderLines, LinesText, IsPlainPart, Body;
    var f := items[k].file;
    var lines := HeaderLines(f);
    var tail := CRLF + Body(items[k].content, items[k + 1..], b);
    assert IsPlainPart(items[k], b);
    HeadersStep(p);
    if j < |lines| {
      HeaderLineFits(items[k], b, j);
      PlainFileOf(items[k], b);
      LinesFrom(f, j);
      var line, more := lines[j], LinesText(lines[j + 1..]) + tail;
      assert LinesText(lines[j..]) + tail == line + CRLF + more;
      assert p.buf + future == line + CRLF + more;
      FindLineEnd(p.buf, future, line, more);
      if |p.buf| >= |line| + 2 {
        Advance(p.buf, future, line + CRLF, more);
        assert p.buf[..|line|] == line by { assert p.buf[..|line + CRLF|][..|line|] == line; }
        var q := p.(file := FileAfter(f, j + 1), buf := p.buf[|line| + 2..]);
        assert q.buf + future == LinesText(lines[j + 1..]) + CRLF + Body(items[k].content, items[k + 1..], b);
        HeadersKeep(q, future, items, k, j + 1, b);
      } else {
        StillAt(p, future, items, k, j, b);
      }
    } else {
      AllLines(f);
      assert lines[j..] == [];
      var body := Body(items[k].content, items[k + 1..], b);
      assert p.buf + future == "" + CRLF + body;
      FindLineEnd(p.buf, future, "", body);
      if |p.buf| >= 2 {
        Advance(p.buf, future, CRLF, body);
        var q := p.(state := 3, parts := p.parts + [Part(p.file, "")], buf := p.buf[2..]);
        BodyStarts(q, q.buf + future, items, k, b);
      } else {
        StillAt(p, future, items, k, j, b);
      }
    }
  }

  lemma {:induction false} HeaderLineFits(part: Part, b: string, j: nat)
    requires IsPlainPart(part, b) && j < |HeaderLines(part.file)|
    ensures |HeaderLines(part.file)[j]| < HEADER_MAX_LENGTH
  {
    hide HeaderLines;
    assert HeaderLines(part.file)[j] in HeaderLines(part.file);
  }

  lemma {:induction false} PlainFileOf(part: Part, b: string)
    requires IsPlainPart(part, b)
    ensures IsPlainFile(part.file)
  {
  }

  lemma {:induction false} AllLines(f: File)
    ensures LinesText([]) == "" && FileAfter(f, |HeaderLines(f)|) == f
    ensures 1 <= |HeaderLines(f)| <= 2
  {
    hide DispositionLine, TypeLine;
  }

  lemma {:induction false} StillAt(p: Parser, future: string, items: seq<Part>, k: nat, j: nat, b: string)
    requires p.state == 2 && HeadersAt(p, p.buf + future, items, k, j, b)
    ensures Expects(p, p.buf + future, items, k, b)
  {
    hide HeadersAt;
    assert j <= 2 by { HeaderCount(p, p.buf + future, items, k, j, b); }
  }

  lemma {:induction false} HeaderCount(p: Parser, rest: string, items: seq<Part>, k: nat, j: nat, b: string)
    requires HeadersAt(p, rest, items, k, j, b)
    ensures j <= 2
  {
    AllLines(items[k].file);
  }

  lemma {:induction false} BodyStarts(q: Parser, rest: string, items: seq<Part>, k: nat, b: string)
    requires k < |items| && q.state == 3 && q.parts == items[..k] + [Part(items[k].file, "")]
    requires rest == Body(items[k].content, items[k + 1..], b)
    ensures BodyAt(q, rest, items, k, b)
  {
    hide Body;
    assert items[k].content[0..] == items[k].content;
  }

  /** State 0: the opening boundary line, whole in the buffer. */
  lemma {:induction false} InitialKeeps(p: Parser, future: string, items: seq<Part>, b: string)
    requires p.state == 0 && IsPlainForm(items, b) && Expects(p, p.buf + future, items, 0, b)
    ensures p.buf != ""
    ensures var r := Round(p, b); r.1.Again? && Expects(r.0, r.0.buf + future, items, 0, b)
  {
    hide Find, LinesText, HeaderLines, Body, Round, IsPlainForm;
    RoundInitial(p, b);
    var line := Line(b);
    var more := LinesText(HeaderLines(items[0].file)) + CRLF + Body(items[0].content, items[1..], b);
    assert DASH + b + (CRLF + more) == line + more;
    assert After(items, b) == CRLF + more;
    Advance(p.buf, future, line, more);
    FindIs(p.buf, line, 0);
    assert p.buf[0..] == p.buf;
    assert items[..0] == [];
  }

  lemma {:induction false} AppendLast(parts: seq<Part>, k: nat, piece: string)
    requires |parts| == k + 1
    ensures var r := AppendContent(parts, piece);
            |r| == k + 1 && r[..k] == parts[..k] && r[k] == Part(parts[k].file, parts[k].content + piece)
  {
  }

  lemma {:induction false} SuffixHasNoStop(c: string, i: nat, stop: string)
    requires !Occurs(c, stop) && i <= |c| && stop != ""
    ensures !Occurs(c[i..], stop)
  {
    forall j | 0 <= j < |c[i..]|
      ensures !At(c[i..], stop, j)
    {
      assert !At(c, stop, i + j);
      assert i + j + |stop| <= |c| ==> c[i..][j..j + |stop|] == c[i + j..i + j + |stop|];
    }
  }

  /** State 3: content is handed on, or the boundary after it is consumed. */
  lemma {:induction false} BodyKeeps(p: Parser, future: string, items: seq<Part>, k: nat, b: string)
    returns (k': nat)
    requires p.state == 3 && p.buf != "" && IsPlainForm(items, b) && BodyAt(p, p.buf + future, items, k, b)
    ensures var r := Round(p, b);
            !r.1.Reject? && (r.1.Wait? ==> future != "") && Expects(r.0, r.0.buf + future, items, k', b)
  {
    hide Find, After, AppendContent, IsPlainPart;
    var stop := Stop(b);
    var seen, whole := p.parts[k].content, items[k].content;
    var c, more := whole[|seen|..], After(items[k + 1..], b);
    assert whole == seen + c;
    assert IsPlainPart(items[k], b);
    assert !Occurs(whole, stop) by { ContentPlain(items[k], b); }
    SuffixHasNoStop(whole, |seen|, stop);
    FindStop(p.buf, future, c, more, b);
    k' := k;
    if |stop| <= |p.buf| {
      if |p.buf| >= |c| + |stop| {
        Advance(p.buf, future, c + stop, more);
        assert p.buf[..|c|] == c by { assert p.buf[..|c + stop|][..|c|] == c; }
        AppendLast(p.parts, k, c);
        PartDone(AppendContent(p.parts, c), items, k);
        k' := k + 1;
      } else {
        BodyWaits(p, future, items, k, b);
      }
    }
  }

  lemma {:induction false} ContentPlain(part: Part, b: string)
    requires IsPlainPart(part, b)
    ensures !Occurs(part.content, Stop(b))
  {
  }

  lemma {:induction false} PartDone(parts: seq<Part>, items: seq<Part>, k: nat)
    requires k < |items| && |parts| == k + 1 && parts[..k] == items[..k] && parts[k] == items[k]
    ensures parts == items[..k + 1]
  {
    assert parts == parts[..k] + [parts[k]];
  }

  /** State 3 without a boundary in sight: all but the last bytes are content. */
  lemma {:induction false} BodyWaits(p: Parser, future: string, items: seq<Part>, k: nat, b: string)
    requires p.state == 3 && BodyAt(p, p.buf + future, items, k, b) && |Stop(b)| <= |p.buf|
    requires |p.buf| < |items[k].content| - |p.parts[k].content| + |Stop(b)|
    ensures var len := |p.buf| - |Stop(b)|;
            var q := if len > 0 then p.(parts := AppendContent(p.parts, p.buf[..len]), buf := p.buf[len..]) else p;
            future != "" && BodyAt(q, q.buf + future, items, k, b)
  {
    hide After, AppendContent;
    var len := |p.buf| - |Stop(b)|;
    var seen, whole := p.parts[k].content, items[k].content;
    var c, more := whole[|seen|..], After(items[k + 1..], b);
    assert p.buf + future == c[..len] + (c[len..] + Stop(b) + more);
    Advance(p.buf, future, c[..len], c[len..] + Stop(b) + more);
    AppendLast(p.parts, k, c[..len]);
    assert seen + c[..len] == whole[..|seen| + len];
    assert whole[|seen| + len..] == c[len..];
    assert |p.buf + future| == |c| + |Stop(b)| + |more|;
  }

  /** State 4: another part, the end of the form, or its closing CRLF. */
  lemma {:induction false} BoundaryKeeps(p: Parser, future: string, items: seq<Part>, k: nat, b: string)
    requires p.state == 4 && p.buf != "" && Expects(p, p.buf + future, items, k, b)
    ensures var r := Round(p, b);
            !r.1.Reject? && (r.1.Wait? && future == "" ==> IsDone(r.0, r.0.buf, items))
            && Expects(r.0, r.0.buf + future, items, k, b)
  {
    hide Body, LinesText, HeaderLines, Round;
    RoundBoundary(p, b);
    var rest := p.buf + future;
    assert forall i :: 0 <= i < |p.buf| ==> p.buf[i] == rest[i];
    if IsDone(p, rest, items) {
      if |p.buf| >= 2 {
        assert rest == CRLF && p.buf == CRLF && future == "";
        assert p.buf[2..] + future == "";
      }
    } else if k == |items| {
      assert rest == DASH + CRLF && items[k..] == [];
      if |p.buf| >= 2 {
        assert p.buf[..2] == rest[..2] == DASH;
        assert rest[2..] == CRLF && p.buf[2..] + future == CRLF;
        assert future == CRLF[|p.buf| - 2..];
        assert items[..k] == items && "" + future == future;
        EndOfCrlf(future, |p.buf| - 2);
      }
    } else {
      assert items[k..][1..] == items[k + 1..];
      var more := LinesText(HeaderLines(items[k].file)) + CRLF + Body(items[k].content, items[k + 1..], b);
      assert rest == CRLF + more;
      if |p.buf| >= 2 {
        Advance(p.buf, future, CRLF, more);
      }
    }
  }

  lemma {:induction false} EndOfCrlf(s: string, n: nat)
    requires n <= 2 && s == CRLF[n..]
    ensures s == CRLF || s == "\n" || s == ""
  {
  }

  /** One round keeps the parser's place in the form, and waits at the end of the input only
      when everything is reported. */
  lemma {:induction false} RoundKeeps(p: Parser, future: string, items: seq<Part>, k: nat, b: string)
    returns (k': nat)
    requires p.buf != "" && IsPlainForm(items, b) && Expects(p, p.buf + future, items, k, b)
    ensures var r := Round(p, b);
            !r.1.Reject? && (r.1.Wait? && future == "" ==> IsDone(r.0, r.0.buf, items))
            && Expects(r.0, r.0.buf + future, items, k', b)
  {
    hide Find, Headers, Body, HeaderLines, LinesText, IsPlainForm, After;
    k' := k;
    if p.state == 0 {
      InitialKeeps(p, future, items, b);
    } else if p.state == 1 {
      NewEntry(p, future, items, k, b);
    } else if p.state == 2 {
      var j :| 0 <= j <= 2 && HeadersAt(p, p.buf + future, items, k, j, b);
      HeadersKeep(p, future, items, k, j, b);
    } else if p.state == 3 {
      k' := BodyKeeps(p, future, items, k, b);
    } else {
      BoundaryKeeps(p, future, items, k, b);
    }
  }

  lemma {:induction false} NewEntry(p: Parser, future: string, items: seq<Part>, k: nat, b: string)
    requires p.state == 1 && p.buf != "" && Expects(p, p.buf + future, items, k, b)
    ensures var r := Round(p, b); r.1.Again? && Expects(r.0, r.0.buf + future, items, k, b)
  {
    hide Find, Headers, Body, HeaderLines, LinesText;
    var lines := HeaderLines(items[k].file);
    assert lines[0..] == lines;
    var q := p.(state := 2, file := NO_FILE);
    assert HeadersAt(q, q.buf + future, items, k, 0, b);
  }

  // ------------------------------------------------------------------ all rounds, all chunks

  lemma {:induction false} EmptyMeansDone(p: Parser, items: seq<Part>, k: nat, b: string)
    requires Expects(p, "", items, k, b)
    ensures IsDone(p, "", items)
  {
    hide LinesText, HeaderLines, HeadersAt;
    if p.state == 2 {
      var j :| 0 <= j <= 2 && HeadersAt(p, "", items, k, j, b);
      NotEmptyHeaders(p, items, k, j, b);
    }
  }

  lemma {:induction false} NotEmptyHeaders(p: Parser, items: seq<Part>, k: nat, j: nat, b: string)
    ensures !HeadersAt(p, "", items, k, j, b)
  {
    hide LinesText, HeaderLines;
  }

  lemma {:induction false} RoundsKeep(p: Parser, future: string, items: seq<Part>, k: nat, b: string)
    returns (k': nat)
    requires IsPlainForm(items, b) && Expects(p, p.buf + future, items, k, b)
    ensures var r := Rounds(p, b);
            r.1 && (future == "" ==> IsDone(r.0, r.0.buf, items)) && Expects(r.0, r.0.buf + future, items, k', b)
    decreases |p.buf|, Rank(p)
  {
    hide Round, Expects, IsDone, IsPlainForm;
    if p.buf == "" {
      k' := k;
      if future == "" {
        assert p.buf + future == "";
        EmptyMeansDone(p, items, k, b);
      }
    } else {
      RoundDecreases(p, b);
      var r := Round(p, b);
      k' := RoundKeeps(p, future, items, k, b);
      if r.1.Again? {
        k' := RoundsKeep(r.0, future, items, k', b);
      }
    }
  }

  lemma {:induction false} FeedKeeps(p: Parser, chunks: seq<string>, items: seq<Part>, k: nat, b: string)
    requires chunks != [] && IsPlainForm(items, b)
    requires Expects(p.(buf := p.buf + chunks[0]), p.buf + Flatten(chunks), items, k, b)
    ensures var r := FeedAll(p, chunks, b);
            r.1 && IsDone(r.0, r.0.buf, items)
    decreases |chunks|
  {
    hide Rounds, Expects, IsDone, IsPlainForm;
    var q, future := p.(buf := p.buf + chunks[0]), Flatten(chunks[1..]);
    assert p.buf + Flatten(chunks) == q.buf + future;
    var k' := RoundsKeep(q, future, items, k, b);
    var r := Rounds(q, b).0;
    if chunks[1..] != [] {
      var next := chunks[1..];
      MoreInput(r, next[0], r.buf + future, items, k', b);
      FeedKeeps(r, next, items, k', b);
    } else {
      assert FeedAll(r, [], b) == (r, true);
    }
  }

  /** More bytes in the buffer do not change what is expected. */
  lemma {:induction false} MoreInput(p: Parser, chunk: string, rest: string, items: seq<Part>, k: nat, b: string)
    requires Expects(p, rest, items, k, b)
    ensures Expects(p.(buf := p.buf + chunk), rest, items, k, b)
  {
    hide After, Body, LinesText, HeaderLines;
    if p.state == 2 {
      var j :| 0 <= j <= 2 && HeadersAt(p, rest, items, k, j, b);
      assert HeadersAt(p.(buf := p.buf + chunk), rest, items, k, j, b);
    }
  }

  /** The multipart round trip.  Every form with at least one part, plain headers and contents
      free of CRLF--boundary is reported whole and ends valid, however its serialized text is
      cut into chunks, as long as the first chunk holds the opening boundary line. */
  lemma {:induction false} FormReadsBack(items: seq<Part>, chunks: seq<string>, b: string)
    requires items != [] && IsPlainForm(items, b)
    requires Flatten(chunks) == Serialized(items, b)
    requires chunks != [] && |chunks[0]| >= |Line(b)|
    ensures var r := FeedAll(START, chunks, b);
            r.1 && r.0.valid && r.0.parts == items
  {
    hide FeedAll, After, IsPlainForm;
    SerializedIs(items, b);
    assert START.buf + Flatten(chunks) == Flatten(chunks);
    assert |START.buf + chunks[0]| == |chunks[0]|;
    FeedKeeps(START, chunks, items, 0, b);
  }

  /** What a shorter first chunk does: its bytes are forgotten, as if the form began after it. */
  lemma {:induction false} ShortFirstChunkIsForgotten(chunk: string, b: string)
    requires |chunk| < |Line(b)|
    ensures Rounds(START.(buf := START.buf + chunk), b) == (START, true)
  {
    hide Find;
    assert START.buf + chunk == chunk;
    if chunk != "" {
      var at := Find(chunk, Line(b), 0);
      NotThere(chunk, Line(b));
      assert chunk[|chunk|..] == "";
    }
  }

  lemma {:induction false} NotThere(s: string, p: string)
    requires p != "" && |s| < |p|
    ensures Find(s, p, 0) == |s|
  {
  }

  /** The limit on header lines counts what has arrived: a line of exactly that length is refused
      when the chunk ends between its CR and its LF, and passes when they come together. */
  lemma {:induction false} HeaderAtLimit(p: Parser, h: string, b: string)
    requires p.state == 2 && |h| == HEADER_MAX_LENGTH && '\r' !in h && HeaderEffect(h, p.file).Some?
    ensures !Rounds(p.(buf := h + "\r"), b).1
    ensures Rounds(p.(buf := h + CRLF), b).1
  {
    hide Find, HeaderEffect, Headers;
    var cut, whole := h + "\r", h + CRLF;
    NoCrlf(h);
    assert whole[..|h|] == h && whole[|h| + 2..] == "";
    HeadersStep(p.(buf := whole));
    HeadersStep(p.(file := HeaderEffect(h, p.file).value, buf := ""));
  }

  lemma {:induction false} NoCrlf(h: string)
    requires '\r' !in h
    ensures Find(h + "\r", CRLF, 0) == |h| + 1
    ensures Find(h + CRLF, CRLF, 0) == |h|
  {
    hide Find;
    var cut, whole := h + "\r", h + CRLF;
    forall i | 0 <= i < |cut|
      ensures !At(cut, CRLF, i)
    {
      if i < |h| { assert cut[i] == h[i] && h[i] in h; }
    }
    FindIs(cut, CRLF, |cut|);
    forall i | 0 <= i < |h|
      ensures !At(whole, CRLF, i)
    {
      assert whole[i] == h[i] && h[i] in h;
      assert i + 2 <= |whole| ==> whole[i..i + 2][0] == whole[i];
    }
    assert whole[|h|..|h| + 2] == CRLF;
    FindIs(whole, CRLF, |h|);
  }
}
