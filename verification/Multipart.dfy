/** The streaming multipart parser and the serializer of multipart forms. */
module Multipart {
  import opened Http
  import opened MultipartHeaders

  const DASH := "--"

  datatype Part = Part(file: File, content: string)

  // ------------------------------------------------------------------ searching

  predicate At(s: string, p: string, i: nat) {
    i + |p| <= |s| && s[i..i + |p|] == p
  }

  /** The first occurrence of `p` in `s` from `i` on, or `|s|`. */
  function Find(s: string, p: string, i: nat): (r: nat)
    requires i <= |s| && p != ""
    ensures i <= r <= |s|
    ensures r < |s| ==> At(s, p, r)
    ensures forall j :: i <= j < r ==> !At(s, p, j)
    decreases |s| - i
  {
    if i + |p| > |s| then |s|
    else if At(s, p, i) then i
    else Find(s, p, i + 1)
  }

  // ------------------------------------------------------------------ the parser on values

  // 0 initial boundary, 1 new entry, 2 headers, 3 body, 4 boundary
  datatype Parser = Parser(state: nat, valid: bool, file: File, parts: seq<Part>, buf: string)

  const START := Parser(0, false, NO_FILE, [], "")

  datatype Verdict = Again | Wait | Reject

  function AppendContent(parts: seq<Part>, piece: string): seq<Part> {
    if parts == [] then parts
    else parts[|parts| - 1 := parts[|parts| - 1].(content := parts[|parts| - 1].content + piece)]
  }

  /** The header lines available in the buffer, up to and including the empty one. */
  function Headers(p: Parser): (r: (Parser, Verdict))
    ensures |r.0.buf| <= |p.buf| && (r.0.state == p.state || (r.0.state == 3 && |r.0.buf| < |p.buf|))
    decreases |p.buf|
  {
    var pos := Find(p.buf, CRLF, 0);
    if pos == |p.buf| then (p, Wait)
    else if pos == 0 then
      (p.(state := 3, parts := p.parts + [Part(p.file, "")], buf := p.buf[2..]), Again)
    else
      var f := HeaderEffect(p.buf[..pos], p.file);
      if f.None? then (p.(valid := false), Reject)
      else Headers(p.(file := f.value, buf := p.buf[pos + 2..]))
  }

  /** One round of the parser's loop with boundary `b`. */
  function Round(p: Parser, b: string): (Parser, Verdict)
    requires p.buf != ""
  {
    var line := DASH + b + CRLF;
    var stop := CRLF + DASH + b;
    match p.state
    case 0 =>
      var buf := p.buf[Find(p.buf, line, 0)..];
      if |line| > |buf| then (p.(buf := buf), Wait)
      else (p.(state := 1, buf := buf[|line|..]), Again)
    case 1 => (p.(state := 2, file := NO_FILE), Again)
    case 2 =>
      if Find(p.buf, CRLF, 0) > HEADER_MAX_LENGTH then (p, Reject) else Headers(p)
    case 3 =>
      if |stop| > |p.buf| then (p, Wait)
      else
        var pos := Find(p.buf, stop, 0);
        if pos < |p.buf| then
          (p.(state := 4, parts := AppendContent(p.parts, p.buf[..pos]), buf := p.buf[pos + |stop|..]), Again)
        else
          var len := |p.buf| - |stop|;
          (if len > 0 then p.(parts := AppendContent(p.parts, p.buf[..len]), buf := p.buf[len..]) else p, Wait)
    case _ =>
      if 2 > |p.buf| then (p, Wait)
      else if p.buf[..2] == CRLF then (p.(state := 1, buf := p.buf[2..]), Again)
      else if p.buf[..2] == DASH then (p.(valid := true, buf := ""), Again)
      else (p, Wait)
  }

  function Rank(p: Parser): nat {
    if p.state == 1 then 1 else 0
  }

  lemma {:induction false} RoundDecreases(p: Parser, b: string)
    requires p.buf != ""
    ensures var r := Round(p, b);
            r.1.Again? ==> |r.0.buf| < |p.buf| || (|r.0.buf| == |p.buf| && Rank(r.0) < Rank(p))
  {
    hide HeaderEffect;
  }

  /** The parser's loop: rounds until the buffer is empty or a round stops it. */
  function Rounds(p: Parser, b: string): (Parser, bool)
    decreases |p.buf|, Rank(p)
  {
    if p.buf == "" then (p, true)
    else
      RoundDecreases(p, b);
      var r := Round(p, b);
      if r.1.Again? then Rounds(r.0, b) else (r.0, r.1.Wait?)
  }

  /** Feeding chunks one after another; a rejected chunk ends it. */
  function FeedAll(p: Parser, chunks: seq<string>, b: string): (Parser, bool)
    decreases |chunks|
  {
    if chunks == [] then (p, true)
    else
      var r := Rounds(p.(buf := p.buf + chunks[0]), b);
      if r.1 then FeedAll(r.0, chunks[1..], b) else r
  }

  // ------------------------------------------------------------------ the serializer

  function LinesText(lines: seq<string>): string {
    if lines == [] then "" else lines[0] + CRLF + LinesText(lines[1..])
  }

  function ItemBegin(f: File, b: string): string {
    DASH + b + CRLF + LinesText(HeaderLines(f)) + CRLF
  }

  function Serialized(items: seq<Part>, b: string): string {
    if items == [] then DASH + b + DASH + CRLF
    else ItemBegin(items[0].file, b) + items[0].content + CRLF + Serialized(items[1..], b)
  }

  method SerializeDisposition(f: File) returns (line: string)
    ensures line == DispositionLine(f)
  {
    line := "Content-Disposition: form-data; name=\"" + f.name + "\"";
    if f.filename != "" {
      line := line + "; filename=\"" + f.filename + "\"";
    }
  }

  method SerializeItemBegin(item: Part, b: string) returns (body: string)
    ensures body == ItemBegin(item.file, b)
  {
    hide DispositionLine, LinesText, HeaderLines;
    var f := item.file;
    body := "--" + b + "\r\n";
    var line := SerializeDisposition(f);
    body := body + line;
    body := body + "\r\n";
    if f.contentType != "" {
      body := body + "Content-Type: " + f.contentType + "\r\n";
    }
    body := body + "\r\n";
    HeaderText(f);
    assert body == "--" + b + "\r\n" + LinesText(HeaderLines(f)) + CRLF;
  }

  lemma {:induction false} HeaderText(f: File)
    ensures LinesText(HeaderLines(f))
         == DispositionLine(f) + CRLF + (if f.contentType != "" then TypeLine(f) + CRLF else "")
  {
    hide DispositionLine, TypeLine;
    if f.contentType != "" {
      assert HeaderLines(f)[1..] == [TypeLine(f)] && [TypeLine(f)][1..] == [];
      assert LinesText([TypeLine(f)]) == TypeLine(f) + CRLF + LinesText([]);
    } else {
      assert HeaderLines(f)[1..] == [];
    }
    assert LinesText(HeaderLines(f)) == DispositionLine(f) + CRLF + LinesText(HeaderLines(f)[1..]);
  }

  method Serialize(items: seq<Part>, b: string) returns (body: string)
    ensures body == Serialized(items, b)
  {
    hide ItemBegin;
    body := "";
    assert items[0..] == items;
    for i := 0 to |items|
      invariant Serialized(items, b) == body + Serialized(items[i..], b)
    {
      assert items[i..][1..] == items[i + 1..];
      var begin := SerializeItemBegin(items[i], b);
      ghost var rest := Serialized(items[i + 1..], b);
      assert body + (begin + items[i].content + CRLF + rest) == body + begin + (items[i].content + "\r\n") + rest;
      body := body + begin;
      body := body + (items[i].content + "\r\n");
    }
    body := body + ("--" + b + "--\r\n");
  }

  // ------------------------------------------------------------------ the parser object

  class MultipartFormDataParser {
    const boundary: string
    const dashBoundaryCrlf: string
    const crlfDashBoundary: string
    var state: nat
    var isValid: bool
    var file: File
    // what the header and content callbacks have received
    var parts: seq<Part>
    var buf: array<char>
    var spos: nat
    var epos: nat

    ghost predicate Valid()
      reads this
    {
      dashBoundaryCrlf == DASH + boundary + CRLF && crlfDashBoundary == CRLF + DASH + boundary
      && spos <= epos <= buf.Length
    }

    ghost function Contents(): string
      reads this, buf
      requires Valid()
    {
      buf[spos..epos]
    }

    ghost function View(): Parser
      reads this, buf
      requires Valid()
    {
      Parser(state, isValid, file, parts, Contents())
    }

    constructor (b: string)
      ensures Valid() && boundary == b && fresh(buf)
      ensures View() == START
    {
      boundary := b;
      dashBoundaryCrlf := DASH + b + CRLF;
      crlfDashBoundary := CRLF + DASH + b;
      state, isValid, file, parts := 0, false, NO_FILE, [];
      buf := new char[0];
      spos, epos := 0, 0;
    }

    method StartWith(pos: nat, s: string) returns (r: bool)
      requires Valid() && spos <= pos <= epos
      ensures r <==> pos + |s| <= epos && Contents()[pos - spos..pos - spos + |s|] == s
    {
      if epos - pos < |s| {
        return false;
      }
      ghost var here := Contents()[pos - spos..pos - spos + |s|];
      for i := 0 to |s|
        invariant forall j :: 0 <= j < i ==> here[j] == s[j]
      {
        assert here[i] == buf[pos + i];
        if buf[pos + i] != s[i] {
          return false;
        }
      }
      return true;
    }

    method BufFind(s: string) returns (r: nat)
      requires Valid() && s != ""
      ensures r == Find(Contents(), s, 0)
    {
      hide Find, At;
      ghost var all := Contents();
      var c := s[0];
      var off := spos;
      while off < epos
        invariant spos <= off <= epos
        invariant Find(all, s, 0) == Find(all, s, off - spos)
        decreases epos - off
      {
        var pos := FindByte(c, off, s);
        assert Find(all, s, 0) == Find(all, s, pos - spos);
        if pos == epos || |s| > epos - pos {
          NothingLeft(all, s, pos - spos);
          return epos - spos;
        }
        var here := StartWith(pos, s);
        FindStep(all, s, pos - spos);
        if here {
          return pos - spos;
        }
        off := pos + 1;
      }
      NothingLeft(all, s, off - spos);
      return epos - spos;
    }

    /** The inner loop of `buf_find`: the next byte equal to the first of `s`. */
    method FindByte(c: char, off: nat, ghost s: string) returns (pos: nat)
      requires Valid() && spos <= off <= epos && s != "" && c == s[0]
      ensures off <= pos <= epos
      ensures Find(Contents(), s, off - spos) == Find(Contents(), s, pos - spos)
    {
      hide Find, At;
      pos := off;
      while pos < epos && buf[pos] != c
        invariant off <= pos <= epos
        invariant Find(Contents(), s, off - spos) == Find(Contents(), s, pos - spos)
      {
        FirstCharDiffers(Contents(), s, pos - spos);
        pos := pos + 1;
      }
    }

    /** Moves the unread bytes to the front. */
    method ShiftDown()
      requires Valid()
      modifies this`spos, this`epos, buf
      ensures Valid() && spos == 0 && epos == old(epos - spos)
      ensures Contents() == old(Contents())
    {
      var remaining := epos - spos;
      ghost var was := buf[..];
      if remaining > 0 && spos > 0 {
        for i := 0 to remaining
          invariant spos == old(spos) && epos == old(epos)
          invariant forall j :: 0 <= j < i ==> buf[j] == was[spos + j]
          invariant forall j :: i <= j < buf.Length ==> buf[j] == was[j]
        {
          buf[i] := buf[spos + i];
        }
      }
      spos := 0;
      epos := remaining;
    }

    /** `buf_.resize`: keeps the bytes in use. */
    method Grow(n: nat)
      requires Valid() && spos == 0 && epos <= n
      modifies this`buf
      ensures Valid() && fresh(buf) && buf.Length == n && Contents() == old(Contents())
    {
      var bigger := new char[n];
      for i := 0 to epos
        invariant fresh(bigger) && buf == old(buf)
        invariant bigger[..i] == buf[..i]
      {
        bigger[i] := buf[i];
      }
      buf := bigger;
    }

    method BufAppend(data: string)
      requires Valid()
      modifies this`buf, this`spos, this`epos, buf
      ensures Valid() && (buf == old(buf) || fresh(buf))
      ensures Contents() == old(Contents()) + data
    {
      ShiftDown();
      if epos + |data| > buf.Length {
        Grow(epos + |data|);
      }
      ghost var kept := Contents();
      CopyIn(data);
      epos := epos + |data|;
      assert buf[0..epos] == buf[..|kept|] + buf[|kept|..epos];
    }

    /** Writes the bytes behind those in use. */
    method CopyIn(data: string)
      requires Valid() && spos == 0 && epos + |data| <= buf.Length
      modifies buf
      ensures buf[..epos] == old(buf[..epos]) && buf[epos..epos + |data|] == data
    {
      ghost var was := buf[..];
      for i := 0 to |data|
        invariant forall j :: 0 <= j < epos ==> buf[j] == was[j]
        invariant forall j :: 0 <= j < i ==> buf[epos + j] == data[j]
      {
        buf[epos + i] := data[i];
      }
    }

    method BufErase(n: nat)
      requires Valid() && n <= epos - spos
      modifies this`spos
      ensures Valid() && Contents() == old(Contents())[n..]
    {
      spos := spos + n;
    }

    method BufStartWith(s: string) returns (r: bool)
      requires Valid()
      ensures r <==> |s| <= epos - spos && Contents()[..|s|] == s
    {
      r := StartWith(spos, s);
      assert |s| <= epos - spos ==> Contents()[0..|s|] == Contents()[..|s|];
    }

    method BufHead(n: nat) returns (s: string)
      requires Valid() && n <= epos - spos
      ensures s == Contents()[..n]
    {
      s := buf[spos..spos + n];
    }

    /** State 2: consumes the header lines in the buffer. */
    method ParseHeaders() returns (ok: bool)
      requires Valid() && Contents() != "" && state == 2
      modifies this`state, this`isValid, this`file, this`parts, this`spos
      ensures Valid()
      ensures var r := Headers(old(View()));
              View() == r.0 && (ok <==> !r.1.Reject?) && (state == 3 <==> r.1.Again?)
    {
      hide HeaderEffect, Find, Headers;
      var pos := BufFind(CRLF);
      while pos < epos - spos
        invariant Valid() && state == 2 && pos == Find(Contents(), CRLF, 0)
        invariant Headers(old(View())) == Headers(View())
        decreases epos - spos
      {
        HeadersStep(View());
        if pos == 0 {
          parts := parts + [Part(file, "")];
          BufErase(2);
          state := 3;
          return true;
        }
        var header := BufHead(pos);
        var f := HeaderEffect(header, file);
        if f.None? {
          isValid := false;
          return false;
        }
        file := f.value;
        BufErase(pos + 2);
        pos := BufFind(CRLF);
      }
      HeadersStep(View());
      return true;
    }

    /** Hands the next `n` bytes to the content callback. */
    method Content(n: nat)
      requires Valid() && n <= epos - spos
      modifies this`parts
      ensures Valid() && parts == AppendContent(old(parts), Contents()[..n])
    {
      var piece := BufHead(n);
      if parts != [] {
        var last := parts[|parts| - 1];
        parts := parts[|parts| - 1 := last.(content := last.content + piece)];
      }
    }

    /** One pass through the switch; `again` says whether the loop goes on. */
    method ParseRound() returns (again: bool, ok: bool)
      requires Valid() && Contents() != ""
      modifies this`state, this`isValid, this`file, this`parts, this`spos
      ensures Valid()
      ensures var r := Round(old(View()), boundary);
              View() == r.0 && (again <==> r.1.Again?) && (ok <==> !r.1.Reject?)
    {
      hide Find, Headers;
      if state == 0 {
        again := ParseInitial();
        ok := true;
      } else if state == 1 {
        file := NO_FILE;
        state := 2;
        return true, true;
      } else if state == 2 {
        var pos := BufFind(CRLF);
        if pos > HEADER_MAX_LENGTH {
          return false, false;
        }
        ok := ParseHeaders();
        again := ok && state == 3;
      } else if state == 3 {
        again := ParseBody();
        ok := true;
      } else {
        again := ParseBoundary();
        ok := true;
      }
    }

    /** State 0: drops everything before the first boundary line. */
    method ParseInitial() returns (again: bool)
      requires Valid() && Contents() != "" && state == 0
      modifies this`state, this`spos
      ensures Valid()
      ensures var r := Round(old(View()), boundary);
              View() == r.0 && (again <==> r.1.Again?) && !r.1.Reject?
    {
      hide Find, At, Round;
      RoundInitial(View(), boundary);
      var at := BufFind(dashBoundaryCrlf);
      BufErase(at);
      if |dashBoundaryCrlf| > epos - spos {
        return false;
      }
      BufErase(|dashBoundaryCrlf|);
      state := 1;
      return true;
    }

    /** State 4: what follows a boundary. */
    method ParseBoundary() returns (again: bool)
      requires Valid() && Contents() != "" && state >= 4
      modifies this`state, this`isValid, this`spos
      ensures Valid()
      ensures var r := Round(old(View()), boundary);
              View() == r.0 && (again <==> r.1.Again?) && !r.1.Reject?
    {
      hide Round, AppendContent;
      RoundBoundary(View(), boundary);
      if 2 > epos - spos {
        return false;
      }
      var crlf := BufStartWith(CRLF);
      if crlf {
        BufErase(2);
        state := 1;
        return true;
      }
      var dash := BufStartWith(DASH);
      if dash {
        BufErase(2);
        isValid := true;
        BufErase(epos - spos);
        assert Contents() == "";
        return true;
      }
      return false;
    }

    /** State 3: hands over content up to the next boundary, or all that cannot be part of one. */
    method ParseBody() returns (again: bool)
      requires Valid() && Contents() != "" && state == 3
      modifies this`state, this`parts, this`spos
      ensures Valid()
      ensures var r := Round(old(View()), boundary);
              View() == r.0 && (again <==> r.1.Again?) && !r.1.Reject?
    {
      hide Find, Round, AppendContent;
      RoundBody(View(), boundary);
      if |crlfDashBoundary| > epos - spos {
        return false;
      }
      var pos := BufFind(crlfDashBoundary);
      if pos < epos - spos {
        Content(pos);
        BufErase(pos + |crlfDashBoundary|);
        state := 4;
        return true;
      }
      var len := epos - spos - |crlfDashBoundary|;
      if len > 0 {
        Content(len);
        BufErase(len);
      }
      return false;
    }

    method Parse(data: string) returns (ok: bool)
      requires Valid()
      modifies this, buf
      ensures Valid() && (buf == old(buf) || fresh(buf))
      ensures var r := Rounds(old(View()).(buf := old(Contents()) + data), boundary);
              View() == r.0 && ok == r.1
    {
      hide Round;
      BufAppend(data);
      ghost var begin := View();
      while epos - spos > 0
        invariant Valid() && (buf == old(buf) || fresh(buf))
        invariant Rounds(begin, boundary) == Rounds(View(), boundary)
        decreases |Contents()|, Rank(View())
      {
        ghost var now := View();
        RoundDecreases(now, boundary);
        var again, fine := ParseRound();
        if !again {
          return fine;
        }
      }
      return true;
    }
  }

  lemma {:induction false} RoundInitial(p: Parser, b: string)
    requires p.buf != "" && p.state == 0
    ensures var line := DASH + b + CRLF;
            var buf := p.buf[Find(p.buf, line, 0)..];
            Round(p, b) ==
            if |line| > |buf| then (p.(buf := buf), Wait) else (p.(state := 1, buf := buf[|line|..]), Again)
  {
    hide Find, Headers;
  }

  lemma {:induction false} RoundBoundary(p: Parser, b: string)
    requires p.buf != "" && p.state >= 4
    ensures Round(p, b) ==
            if 2 > |p.buf| then (p, Wait)
            else if p.buf[..2] == CRLF then (p.(state := 1, buf := p.buf[2..]), Again)
            else if p.buf[..2] == DASH then (p.(valid := true, buf := ""), Again)
            else (p, Wait)
  {
    hide Find, Headers;
  }

  lemma {:induction false} RoundBody(p: Parser, b: string)
    requires p.buf != "" && p.state == 3
    ensures var stop := CRLF + DASH + b;
            var pos, len := Find(p.buf, stop, 0), |p.buf| - |stop|;
            && (|stop| > |p.buf| ==> Round(p, b) == (p, Wait))
            && (|stop| <= |p.buf| && pos < |p.buf| ==>
              pos + |stop| <= |p.buf|
              && Round(p, b) == (p.(state := 4, parts := AppendContent(p.parts, p.buf[..pos]),
                                    buf := p.buf[pos + |stop|..]), Again))
            && (|stop| <= |p.buf| && pos == |p.buf| ==>
              Round(p, b) == (if len > 0 then p.(parts := AppendContent(p.parts, p.buf[..len]), buf := p.buf[len..])
                              else p, Wait))
  {
    hide Find, Headers, AppendContent;
    FoundHere(p.buf, CRLF + DASH + b, Find(p.buf, CRLF + DASH + b, 0));
  }

  /** One header line. */
  lemma {:induction false} HeadersStep(p: Parser)
    ensures var pos := Find(p.buf, CRLF, 0);
            pos < |p.buf| ==> pos + 2 <= |p.buf|
    ensures var pos := Find(p.buf, CRLF, 0);
            Headers(p) ==
            if pos == |p.buf| then (p, Wait)
            else if pos == 0 then (p.(state := 3, parts := p.parts + [Part(p.file, "")], buf := p.buf[2..]), Again)
            else if HeaderEffect(p.buf[..pos], p.file).None? then (p.(valid := false), Reject)
            else Headers(p.(file := HeaderEffect(p.buf[..pos], p.file).value, buf := p.buf[pos + 2..]))
  {
    hide HeaderEffect;
  }

  lemma {:induction false} FindStep(all: string, s: string, i: nat)
    requires s != "" && i + |s| <= |all|
    ensures Find(all, s, i) == if all[i..i + |s|] == s then i else Find(all, s, i + 1)
  {
  }

  lemma {:induction false} FirstCharDiffers(all: string, s: string, i: nat)
    requires s != "" && i < |all| && all[i] != s[0]
    ensures Find(all, s, i) == Find(all, s, i + 1)
  {
    if i + |s| <= |all| {
      assert all[i..i + |s|][0] == all[i];
    }
  }

  lemma {:induction false} NothingLeft(all: string, s: string, i: nat)
    requires s != "" && i <= |all| && i + |s| > |all|
    ensures Find(all, s, i) == |all|
  {
  }

  lemma {:induction false} FoundHere(all: string, s: string, at: nat)
    requires s != "" && at == Find(all, s, 0)
    ensures at < |all| ==> at + |s| <= |all| && all[at..at + |s|] == s
  {
  }
}
