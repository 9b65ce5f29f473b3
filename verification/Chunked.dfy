/** The chunked transfer coding (section 7.1 of RFC 9112): the writer's sink, the line reader with
    its fixed buffer, and the reader of a chunked body. */
module Chunked {
  import opened Text
  import opened Json
  import opened Numerals
  import opened Http
  import opened Lists

  const ULONG_MAX := 0xffff_ffff_ffff_ffff
  const RECEIVE_SIZE := 4096

  // ------------------------------------------------------------------ chunk sizes

  /** The end of the run of hexadecimal digits from `i`. */
  function DigitsEnd(s: string, i: nat): (k: nat)
    requires i <= |s|
    ensures i <= k <= |s|
    ensures forall j :: i <= j < k ==> DigitValue(s[j]) < 16
    ensures k < |s| ==> DigitValue(s[k]) == 16
    decreases |s| - i
  {
    if i < |s| && DigitValue(s[i]) < 16 then DigitsEnd(s, i + 1) else i
  }

  /** Where the digits begin: after white space, a sign and a radix prefix. */
  function DigitsStart(s: string): (k: nat)
    ensures k <= |s|
  {
    var i := SkipForward(s, 0, White);
    var j := if i < |s| && (s[i] == '-' || s[i] == '+') then i + 1 else i;
    if j + 2 < |s| && s[j] == '0' && (s[j + 1] == 'x' || s[j + 1] == 'X') && DigitValue(s[j + 2]) < 16
    then j + 2
    else j
  }

  /** `std::strtoul(s, &end, 16)`: nothing when no digits are found; a number too large becomes
      `ULONG_MAX`, and a minus sign negates in 64 bits. */
  function StringToULong(s: string): Option<nat> {
    var k := DigitsStart(s);
    var e := DigitsEnd(s, k);
    var i := SkipForward(s, 0, White);
    if e == k then None
    else
      var v := Value(s[k..e], 16);
      if v > ULONG_MAX then Some(ULONG_MAX)
      else if s[i] == '-' then Some((ULONG_MAX + 1 - v) % (ULONG_MAX + 1))
      else Some(v)
  }

  method HexDigits(n: nat) returns (ret: string)
    ensures ret == Numeral(n, 16)
  {
    ret := [DigitChar(n % 16)];
    var m := n / 16;
    NumeralStep(n);
    while m > 0
      invariant Numeral(n, 16) == (if m > 0 then Numeral(m, 16) else "") + ret
    {
      NumeralStep(m);
      ghost var was := ret;
      ret := [DigitChar(m % 16)] + ret;
      assert Numeral(m, 16) + was == (if m / 16 > 0 then Numeral(m / 16, 16) else "") + ret;
      m := m / 16;
    }
  }

  lemma {:induction false} NumeralStep(n: nat)
    ensures Numeral(n, 16) == (if n / 16 > 0 then Numeral(n / 16, 16) else "") + [DigitChar(n % 16)]
  {
    if n >= 16 { Shrinks(n, 16); }
  }

  // ------------------------------------------------------------------ lines

  datatype LineRead = GotLine(line: string, rest: string) | NoLine

  /** A line up to and including its line feed, or up to the end of the input. */
  function GetLine(input: string): LineRead {
    var e := FindChar(input, '\n', 0);
    if input == "" then NoLine
    else if e < |input| then GotLine(input[..e + 1], input[e + 1..])
    else GotLine(input, "")
  }

  lemma {:induction false} LineReads(line: string, rest: string)
    requires '\n' !in line
    ensures GetLine(line + "\n" + rest) == GotLine(line + "\n", rest)
  {
    var input := line + "\n" + rest;
    var e := FindChar(input, '\n', 0);
    assert forall i :: 0 <= i < |line| ==> input[i] == line[i];
    assert input[|line|] == '\n';
    assert input[..|line| + 1] == line + "\n" && input[|line| + 1..] == rest;
  }

  // ------------------------------------------------------------------ reading, on values

  /** What reading a chunked body does: whether it succeeds, the content the receiver gets (also
      from a body that turns out to be broken), the trailer lines, and the bytes left unread. */
  datatype Body = Body(ok: bool, content: string, trailers: seq<string>, rest: string)

  const BROKEN := Body(false, "", [], "")

  function After(content: string, b: Body): Body {
    b.(content := content + b.content)
  }

  /** A line without its terminator; a bare line feed holds no header. */
  function Unterminated(line: string): string {
    if |line| < 2 then "" else line[..|line| - 2]
  }

  function WithTrailers(lines: seq<string>, b: Body): Body {
    b.(trailers := lines + b.trailers)
  }

  /** The trailer section of which one line has just been read. */
  function TrailersFrom(line: string, input: string): (b: Body)
    ensures b.content == ""
    decreases |input|
  {
    if line == CRLF then Body(true, "", [], input)
    else if |line| > HEADER_MAX_LENGTH then BROKEN
    else
      match GetLine(input)
      case NoLine => WithTrailers([Unterminated(line)], BROKEN)
      case GotLine(next, rest) => WithTrailers([Unterminated(line)], TrailersFrom(next, rest))
  }

  function Trailers(input: string): (b: Body)
    ensures b.content == ""
  {
    match GetLine(input)
    case NoLine => BROKEN
    case GotLine(line, rest) => TrailersFrom(line, rest)
  }

  /** The body whose chunk-size line has just been read. */
  function Chunks(line: string, input: string): Body
    decreases |input|, 1
  {
    match StringToULong(line)
    case None => BROKEN
    case Some(size) =>
      if size == ULONG_MAX then BROKEN
      else if size == 0 then Trailers(input)
      else ChunkData(size, input)
  }

  function ChunkData(size: nat, input: string): Body
    requires size > 0
    decreases |input|, 0
  {
    if |input| < size then BROKEN.(content := input) else After(input[..size], AfterChunk(input[size..]))
  }

  /** The rest of a body, from the line break that ends a chunk. */
  function AfterChunk(input: string): Body
    decreases |input|, 2
  {
    match GetLine(input)
    case NoLine => BROKEN
    case GotLine(end, next) =>
      if end != CRLF then BROKEN
      else
        match GetLine(next)
        case NoLine => BROKEN
        case GotLine(line, rest) => Chunks(line, rest)
  }

  function ReadBody(input: string): Body {
    match GetLine(input)
    case NoLine => BROKEN
    case GotLine(line, rest) => Chunks(line, rest)
  }

  // ------------------------------------------------------------------ writing, on values

  datatype SinkCall = Write(data: string) | Done(trailer: seq<Header>)

  datatype Header = Header(name: string, value: string)

  function Chunk(data: string): string {
    if data == "" then "" else Numeral(|data|, 16) + CRLF + data + CRLF
  }

  function ChunkAll(writes: seq<string>): string {
    if writes == [] then "" else Chunk(writes[0]) + ChunkAll(writes[1..])
  }

  function HeaderText(h: Header): string {
    h.name + ": " + h.value
  }

  function HeaderBlock(trailer: seq<Header>): string {
    if trailer == [] then "" else HeaderText(trailer[0]) + CRLF + HeaderBlock(trailer[1..])
  }

  function LastChunk(trailer: seq<Header>): string {
    "0\r\n" + HeaderBlock(trailer) + CRLF
  }

  function HeaderLines(trailer: seq<Header>): (lines: seq<string>)
    ensures |lines| == |trailer| && forall i :: 0 <= i < |lines| ==> lines[i] == HeaderText(trailer[i]) + CRLF
  {
    seq(|trailer|, i requires 0 <= i < |trailer| => HeaderText(trailer[i]) + CRLF)
  }

  /** The pieces in which the last chunk is written. */
  function LastPieces(trailer: seq<Header>): seq<string> {
    ["0\r\n"] + HeaderLines(trailer) + [CRLF]
  }

  /** What reaches the stream of some pieces when the given numbers of their bytes go out. */
  function SentAll(pieces: seq<string>, sents: seq<nat>): string
    requires |sents| == |pieces|
  {
    if pieces == [] then ""
    else
      var last := |pieces| - 1;
      SentAll(pieces[..last], sents[..last]) + UpTo(pieces[last], sents[last])
  }

  predicate AllOut(pieces: seq<string>, sents: seq<nat>)
    requires |sents| == |pieces|
  {
    forall i :: 0 <= i < |pieces| ==> sents[i] >= |pieces[i]|
  }

  lemma {:induction false} NothingSent()
    ensures SentAll([], []) == "" && AllOut([], [])
  {
  }

  lemma {:induction false} SentSnoc(pieces: seq<string>, sents: seq<nat>, piece: string, sent: nat)
    requires |sents| == |pieces|
    ensures SentAll(pieces + [piece], sents + [sent]) == SentAll(pieces, sents) + UpTo(piece, sent)
    ensures AllOut(pieces + [piece], sents + [sent]) <==> AllOut(pieces, sents) && sent >= |piece|
  {
    hide UpTo;
    var ps, ns := pieces + [piece], sents + [sent];
    assert ps[..|pieces|] == pieces && ns[..|pieces|] == sents;
    assert ps[|pieces|] == piece && ns[|pieces|] == sent;
    if AllOut(ps, ns) { assert forall i :: 0 <= i < |pieces| ==> ps[i] == pieces[i] && ns[i] == sents[i]; }
  }

  lemma {:induction false} FlattenSnoc(pieces: seq<string>, piece: string)
    ensures Flatten(pieces + [piece]) == Flatten(pieces) + piece
    decreases |pieces|
  {
    if pieces == [] {
      assert [] + [piece] == [piece];
    } else {
      FlattenSnoc(pieces[1..], piece);
      assert (pieces + [piece])[1..] == pieces[1..] + [piece];
    }
  }

  /** When no write fails, all the pieces are there. */
  lemma {:induction false} AllSent(pieces: seq<string>, sents: seq<nat>)
    requires |sents| == |pieces| && AllOut(pieces, sents)
    ensures SentAll(pieces, sents) == Flatten(pieces)
    decreases |pieces|
  {
    hide Flatten;
    if pieces == [] {
      assert Flatten(pieces) == "" by { FlattenNothing(); }
    } else {
      var last := |pieces| - 1;
      AllSent(pieces[..last], sents[..last]);
      FlattenSnoc(pieces[..last], pieces[last]);
      assert pieces[..last] + [pieces[last]] == pieces;
    }
  }

  lemma {:induction false} FlattenNothing()
    ensures Flatten([]) == ""
  {
  }

  lemma {:induction false} LinesText(trailer: seq<Header>)
    ensures Flatten(HeaderLines(trailer) + [CRLF]) == HeaderBlock(trailer) + CRLF
    decreases |trailer|
  {
    hide HeaderText;
    if trailer == [] {
      assert HeaderLines(trailer) + [CRLF] == [CRLF];
      assert [CRLF][1..] == [];
    } else {
      LinesText(trailer[1..]);
      var lines := HeaderLines(trailer) + [CRLF];
      assert lines[1..] == HeaderLines(trailer[1..]) + [CRLF];
      assert lines[0] == HeaderText(trailer[0]) + CRLF;
    }
  }

  lemma {:induction false} LastPiecesText(trailer: seq<Header>)
    ensures Flatten(LastPieces(trailer)) == LastChunk(trailer)
  {
    hide HeaderBlock;
    LinesText(trailer);
    var more := HeaderLines(trailer) + [CRLF];
    assert LastPieces(trailer) == ["0\r\n"] + more;
    assert (["0\r\n"] + more)[1..] == more;
  }

  // ------------------------------------------------------------------ round trip

  lemma {:induction false} DigitsEndAt(s: string, i: nat, k: nat)
    requires i <= k < |s|
    requires forall j :: i <= j < k ==> DigitValue(s[j]) < 16
    requires DigitValue(s[k]) == 16
    ensures DigitsEnd(s, i) == k
  {
  }

  /** Parsing a chunk-size line gives the size that was printed. */
  lemma {:induction false} SizeReadsBack(n: nat)
    requires n <= ULONG_MAX
    ensures StringToULong(Numeral(n, 16) + CRLF) == Some(n)
  {
    hide Value, Numeral;
    var h := Numeral(n, 16);
    var s := h + CRLF;
    assert forall i :: 0 <= i < |h| ==> s[i] == h[i] && s[i] in h;
    assert SkipForward(s, 0, White) == 0 by { assert !In(s[0], White); }
    assert DigitsStart(s) == 0;
    DigitsEndAt(s, 0, |h|);
    assert s[0..|h|] == h;
    ValueOfNumeral(n, 16);
  }

  lemma {:induction false} SizeLineReads(n: nat, rest: string)
    ensures GetLine(Numeral(n, 16) + CRLF + rest) == GotLine(Numeral(n, 16) + CRLF, rest)
  {
    hide GetLine, Numeral;
    var line := Numeral(n, 16) + "\r";
    LineReads(line, rest);
    assert line + "\n" == Numeral(n, 16) + CRLF;
    assert line + "\n" + rest == Numeral(n, 16) + CRLF + rest;
  }

  lemma {:induction false} CrlfReads(rest: string)
    ensures GetLine(CRLF + rest) == GotLine(CRLF, rest)
  {
    hide GetLine;
    LineReads("\r", rest);
    assert "\r" + "\n" + rest == CRLF + rest;
  }

  /** Reading the chunk of one write gives its data and goes on with the next size line. */
  lemma {:induction false} ChunkReads(data: string, more: string)
    requires 0 < |data| < ULONG_MAX
    ensures ReadBody(Chunk(data) + more) == After(data, ReadBody(more))
  {
    hide GetLine, StringToULong, Numeral, Trailers, Chunks;
    var size := Numeral(|data|, 16) + CRLF;
    var input := data + CRLF + more;
    assert Chunk(data) + more == Numeral(|data|, 16) + CRLF + input;
    SizeLineReads(|data|, input);
    SizeReadsBack(|data|);
    ChunksStep(size, input, |data|);
    assert input[..|data|] == data && input[|data|..] == CRLF + more;
    CrlfReads(more);
  }

  lemma {:induction false} ChunksStep(line: string, input: string, size: nat)
    requires StringToULong(line) == Some(size) && 0 < size < ULONG_MAX && size <= |input|
    ensures Chunks(line, input) == After(input[..size], AfterChunk(input[size..]))
  {
    hide StringToULong, AfterChunk, Trailers;
  }

  /** A header the trailer can carry: on one line and within the length the reader accepts. */
  predicate IsLineHeader(h: Header) {
    '\n' !in h.name && '\n' !in h.value
  }

  predicate Fits(h: Header) {
    |HeaderText(h)| + 2 <= HEADER_MAX_LENGTH
  }

  function HeaderTexts(trailer: seq<Header>): seq<string> {
    if trailer == [] then [] else [HeaderText(trailer[0])] + HeaderTexts(trailer[1..])
  }

  lemma {:induction false} TrailerReads(h: Header, more: string)
    requires IsLineHeader(h)
    ensures var later := Trailers(more);
            Trailers(HeaderText(h) + CRLF + more)
            == if Fits(h) then WithTrailers([HeaderText(h)], later) else BROKEN
  {
    hide GetLine;
    var line := HeaderText(h) + "\r";
    LineReads(line, more);
    assert line + "\n" == HeaderText(h) + CRLF;
    assert line + "\n" + more == HeaderText(h) + CRLF + more;
    assert (HeaderText(h) + CRLF)[..|HeaderText(h)|] == HeaderText(h);
    assert |HeaderText(h)| >= 2;
  }

  lemma {:induction false} TrailersRead(trailer: seq<Header>, rest: string)
    requires forall h :: h in trailer ==> IsLineHeader(h)
    ensures var b := Trailers(HeaderBlock(trailer) + CRLF + rest);
            && b.content == ""
            && (b.ok <==> forall h :: h in trailer ==> Fits(h))
            && (b.ok ==> b == Body(true, "", HeaderTexts(trailer), rest))
    decreases |trailer|
  {
    hide IsLineHeader, Fits, HeaderText;
    if trailer == [] {
      assert HeaderBlock(trailer) + CRLF + rest == CRLF + rest;
      CrlfReads(rest);
      hide GetLine;
    } else {
      hide GetLine, Trailers;
      var more := HeaderBlock(trailer[1..]) + CRLF + rest;
      assert HeaderBlock(trailer) + CRLF + rest == HeaderText(trailer[0]) + CRLF + more;
      TrailerReads(trailer[0], more);
      TrailersRead(trailer[1..], rest);
      assert forall h :: h in trailer <==> h == trailer[0] || h in trailer[1..];
    }
  }

  lemma {:induction false} LastChunkReads(trailer: seq<Header>, rest: string)
    ensures ReadBody(LastChunk(trailer) + rest) == Trailers(HeaderBlock(trailer) + CRLF + rest)
  {
    hide GetLine, StringToULong, Trailers, HeaderBlock;
    var input := HeaderBlock(trailer) + CRLF + rest;
    assert Numeral(0, 16) == "0";
    assert LastChunk(trailer) + rest == Numeral(0, 16) + CRLF + input;
    SizeLineReads(0, input);
    SizeReadsBack(0);
  }

  /** Round trip: whatever was written in non-empty pieces, and whatever follows on the connection,
      the reader receives exactly the concatenation; it succeeds exactly when every trailer field
      fits, and then it has the fields and stops right after the final line break. */
  lemma {:induction false} BodyReadsBack(writes: seq<string>, trailer: seq<Header>, rest: string)
    requires forall w :: w in writes ==> 0 < |w| < ULONG_MAX
    requires forall h :: h in trailer ==> IsLineHeader(h)
    ensures var b := ReadBody(ChunkAll(writes) + LastChunk(trailer) + rest);
            && b.content == Flatten(writes)
            && (b.ok <==> forall h :: h in trailer ==> Fits(h))
            && (b.ok ==> b == Body(true, Flatten(writes), HeaderTexts(trailer), rest))
    decreases |writes|
  {
    hide ReadBody, LastChunk, Chunk, HeaderBlock, Trailers, IsLineHeader, Fits;
    if writes == [] {
      assert ChunkAll(writes) + LastChunk(trailer) + rest == LastChunk(trailer) + rest;
      LastChunkReads(trailer, rest);
      TrailersRead(trailer, rest);
    } else {
      var more := ChunkAll(writes[1..]) + LastChunk(trailer) + rest;
      assert ChunkAll(writes) + LastChunk(trailer) + rest == Chunk(writes[0]) + more;
      ChunkReads(writes[0], more);
      BodyReadsBack(writes[1..], trailer, rest);
    }
  }

  // ------------------------------------------------------------------ the stream and the line reader

  class Stream {
    // what is still to be read, and what has been written
    var input: string
    var output: string

    constructor (bytes: string)
      ensures input == bytes && output == ""
    {
      input, output := bytes, "";
    }

    /** A read returns at least one byte and possibly fewer than asked, until the end. */
    method Read(max: nat) returns (data: string)
      requires max > 0
      modifies this`input
      ensures old(input) == data + input && |data| <= max
      ensures data == "" <==> old(input) == ""
    {
      if input == "" {
        data := "";
      } else {
        var n: nat :| 1 <= n <= max && n <= |input|;
        data := input[..n];
        input := input[n..];
      }
    }

    method IsWritable() returns (r: bool) {
      r := *;
    }

    /** Writes everything, unless a write fails; each write may take fewer bytes than offered. */
    method WriteData(data: string) returns (ok: bool, ghost sent: nat)
      modifies this`output
      ensures output == old(output) + UpTo(data, sent)
      ensures ok <==> sent >= |data|
    {
      var offset := 0;
      while offset < |data|
        invariant 0 <= offset <= |data|
        invariant output == old(output) + data[..offset]
      {
        var length: int :| -1 <= length <= |data| - offset && length != 0;
        if length < 0 {
          return false, offset;
        }
        output := output + data[offset..offset + length];
        offset := offset + length;
      }
      ok, sent := true, offset;
    }
  }

  class StreamLineReader {
    const strm: Stream
    const fixed: array<char>
    var used: nat
    var growable: string

    /** The fixed buffer holds its used part and a NUL; once a line outgrows it, the other one
        holds the whole line. */
    ghost predicate Valid()
      reads this, fixed
    {
      && fixed.Length >= 2 && used < fixed.Length
      && (used > 0 ==> fixed[used] == '\0')
      && (growable != "" ==> |growable| >= fixed.Length)
    }

    function Line(): string
      requires Valid()
      reads this, fixed
    {
      if growable == "" then fixed[..used] else growable
    }

    constructor (stream: Stream, size: nat)
      requires size >= 2
      ensures Valid() && Line() == "" && strm == stream && fresh(fixed)
    {
      strm := stream;
      fixed := new char[size];
      used, growable := 0, "";
    }

    method Append(c: char)
      requires Valid() && (growable != "" ==> used == fixed.Length - 1)
      modifies this, fixed
      ensures Valid() && (growable != "" ==> used == fixed.Length - 1)
      ensures Line() == old(Line()) + [c]
    {
      if used < fixed.Length - 1 {
        fixed[used] := c;
        used := used + 1;
        fixed[used] := '\0';
      } else {
        if growable == "" {
          assert fixed[used] == '\0';
          growable := fixed[..used];
        }
        growable := growable + [c];
      }
    }

    /** One byte of the stream, appended; none at its end. */
    method ReadByte() returns (byte: Option<char>)
      requires Valid() && (growable != "" ==> used == fixed.Length - 1)
      modifies this, fixed, strm`input
      ensures Valid() && (growable != "" ==> used == fixed.Length - 1)
      ensures byte.None? <==> old(strm.input) == ""
      ensures byte.None? ==> Line() == old(Line()) && strm.input == ""
      ensures byte.Some? ==> Line() == old(Line()) + [byte.value] && old(strm.input) == [byte.value] + strm.input
    {
      byte := None;
      var data := strm.Read(1);
      if data != "" {
        Append(data[0]);
        byte := Some(data[0]);
      }
    }

    /** `getline`: one line, whatever its length. */
    method ReadLine() returns (ok: bool)
      requires Valid()
      modifies this, fixed, strm`input
      ensures Valid()
      ensures ok <==> GetLine(old(strm.input)).GotLine?
      ensures ok ==> GetLine(old(strm.input)) == GotLine(Line(), strm.input)
    {
      hide GetLine;
      used, growable := 0, "";
      ghost var all := strm.input;
      var i := 0;
      while true
        invariant Valid() && (growable != "" ==> used == fixed.Length - 1)
        invariant all == Line() + strm.input && '\n' !in Line() && |Line()| == i
        decreases |strm.input|
      {
        ghost var line := Line();
        var byte := ReadByte();
        if byte.None? {
          assert all == line;
          NoFeed(all);
          if i == 0 { return false; }
          break;
        }
        ghost var rest := strm.input;
        assert all == line + [byte.value] + rest;
        if byte.value == '\n' {
          LineReads(line, rest);
          break;
        }
        i := i + 1;
      }
      ok := true;
    }
  }

  lemma {:induction false} NoFeed(input: string)
    requires '\n' !in input
    ensures GetLine(input) == if input == "" then NoLine else GotLine(input, "")
  {
  }

  // ------------------------------------------------------------------ reading, step by step

  method ReadContentWithLength(strm: Stream, len: nat) returns (ok: bool, received: string)
    modifies strm`input
    ensures ok <==> len <= |old(strm.input)|
    ensures ok ==> received == old(strm.input)[..len] && strm.input == old(strm.input)[len..]
    ensures !ok ==> received == old(strm.input)
  {
    received := "";
    ghost var all := strm.input;
    while |received| < len
      invariant |received| <= len && received + strm.input == all
    {
      var rest := len - |received|;
      var data := strm.Read(if rest <= RECEIVE_SIZE then rest else RECEIVE_SIZE);
      if data == "" {
        assert received == all;
        return false, received;
      }
      received := received + data;
    }
    ok := true;
    assert all[..len] == received && all[len..] == strm.input;
  }

  /** The lines of the trailer section, after the last chunk. */
  method ReadTrailers(strm: Stream, reader: StreamLineReader) returns (ok: bool, trailers: seq<string>)
    requires reader.Valid() && reader.strm == strm
    modifies reader, reader.fixed, strm`input
    ensures ok == Trailers(old(strm.input)).ok
    ensures trailers == Trailers(old(strm.input)).trailers
    ensures ok ==> strm.input == Trailers(old(strm.input)).rest
  {
    hide GetLine, TrailersFrom;
    ghost var target := Trailers(strm.input);
    trailers := [];
    ok := reader.ReadLine();
    if !ok { return; }
    while reader.Line() != CRLF
      invariant reader.Valid() && target == WithTrailers(trailers, TrailersFrom(reader.Line(), strm.input))
      decreases |strm.input|
    {
      TrailersStep(reader.Line(), strm.input);
      if |reader.Line()| > HEADER_MAX_LENGTH { return false, trailers; }
      trailers := trailers + [Unterminated(reader.Line())];
      ok := reader.ReadLine();
      if !ok { return; }
    }
    TrailersStep(reader.Line(), strm.input);
    ok := true;
  }

  lemma {:induction false} TrailersStep(line: string, input: string)
    ensures var b := TrailersFrom(line, input);
            && (line == CRLF ==> b == Body(true, "", [], input))
            && (line != CRLF && |line| > HEADER_MAX_LENGTH ==> b == BROKEN)
            && (line != CRLF && |line| <= HEADER_MAX_LENGTH ==>
              match GetLine(input)
              case NoLine => b == WithTrailers([Unterminated(line)], BROKEN)
              case GotLine(next, rest) =>
                |rest| < |input| && b == WithTrailers([Unterminated(line)], TrailersFrom(next, rest)))
  {
  }

  /** The data of a chunk, the line break behind it and the next size line. */
  method ReadChunk(strm: Stream, reader: StreamLineReader, size: nat) returns (ok: bool, data: string)
    requires size > 0 && reader.Valid() && reader.strm == strm
    modifies reader, reader.fixed, strm`input
    ensures reader.Valid()
    ensures ok ==> |strm.input| < |old(strm.input)|
    ensures ok ==> ChunkData(size, old(strm.input)) == After(data, Chunks(reader.Line(), strm.input))
    ensures !ok ==> ChunkData(size, old(strm.input)) == BROKEN.(content := data)
  {
    hide GetLine, Chunks, AfterChunk;
    ok, data := ReadContentWithLength(strm, size);
    if !ok { return; }
    AfterChunkNext(strm.input);
    ok := reader.ReadLine();
    if !ok { return; }
    if reader.Line() != CRLF { return false, data; }
    ok := reader.ReadLine();
  }

  /** `read_content_chunked`: however the reads are cut, the receiver gets the content that the
      bytes on the stream spell, and nothing beyond the body is consumed. */
  method ReadContentChunked(strm: Stream) returns (ok: bool, received: string, trailers: seq<string>)
    modifies strm`input
    ensures ok == ReadBody(old(strm.input)).ok
    ensures received == ReadBody(old(strm.input)).content
    ensures trailers == ReadBody(old(strm.input)).trailers
    ensures ok ==> strm.input == ReadBody(old(strm.input)).rest
  {
    hide GetLine, Chunks, ChunkData, StringToULong, Trailers;
    ghost var target := ReadBody(strm.input);
    received, trailers := "", [];
    var reader := new StreamLineReader(strm, 16);
    ok := reader.ReadLine();
    if !ok { return; }
    while true
      invariant reader.Valid() && target == After(received, Chunks(reader.Line(), strm.input))
      decreases |strm.input|
    {
      ChunksNext(reader.Line(), strm.input);
      var size := StringToULong(reader.Line());
      if size == None || size == Some(ULONG_MAX) { return false, received, trailers; }
      if size.value == 0 { break; }
      var data;
      ok, data := ReadChunk(strm, reader, size.value);
      received := received + data;
      if !ok { return; }
    }
    ok, trailers := ReadTrailers(strm, reader);
  }

  lemma {:induction false} ChunksNext(line: string, input: string)
    ensures var b := Chunks(line, input);
            match StringToULong(line)
            case None => b == BROKEN
            case Some(size) =>
              && (size == ULONG_MAX ==> b == BROKEN)
              && (size == 0 ==> b == Trailers(input))
              && (0 < size != ULONG_MAX ==> b == ChunkData(size, input))
  {
    hide ChunkData, Trailers, StringToULong;
  }

  lemma {:induction false} AfterChunkNext(input: string)
    ensures var b := AfterChunk(input);
            match GetLine(input)
            case NoLine => b == BROKEN
            case GotLine(end, next) =>
              && (end != CRLF ==> b == BROKEN)
              && (end == CRLF ==>
                match GetLine(next)
                case NoLine => b == BROKEN
                case GotLine(line, rest) => |rest| < |input| && b == Chunks(line, rest))
  {
    hide Chunks;
  }

  // ------------------------------------------------------------------ writing, step by step

  /** The sink a content provider writes to, without compression; once a write has failed it
      takes nothing more. */
  class DataSink {
    const strm: Stream
    var dataAvailable: bool
    var offset: nat
    var ok: bool

    constructor (stream: Stream)
      ensures strm == stream && dataAvailable && offset == 0 && ok
    {
      strm := stream;
      dataAvailable, offset, ok := true, 0, true;
    }

    method Write(data: string) returns (r: bool, ghost sent: nat)
      modifies this, strm`output
      ensures r == ok
      ensures !old(ok) ==>
        !ok && dataAvailable == old(dataAvailable) && offset == old(offset) && strm.output == old(strm.output)
      ensures old(ok) ==>
        && dataAvailable == (|data| > 0) && offset == old(offset) + |data|
        && strm.output == old(strm.output) + UpTo(Chunk(data), sent) && (ok <==> sent >= |Chunk(data)|)
    {
      sent := 0;
      if ok {
        dataAvailable := |data| > 0;
        offset := offset + |data|;
        if |data| > 0 {
          var size := HexDigits(|data|);
          ok := strm.IsWritable();
          if ok {
            ok, sent := strm.WriteData(size + CRLF + data + CRLF);
          }
        }
      }
      r := ok;
    }

    /** The last chunk, piece by piece; a piece that fails does not keep the later ones back. */
    method Done(trailer: seq<Header>) returns (ghost sents: seq<nat>)
      modifies this`dataAvailable, this`ok, strm`output
      ensures !old(ok) ==> !ok && dataAvailable == old(dataAvailable) && strm.output == old(strm.output)
      ensures old(ok) ==>
        && !dataAvailable && |sents| == |LastPieces(trailer)|
        && strm.output == old(strm.output) + SentAll(LastPieces(trailer), sents)
        && (ok <==> AllOut(LastPieces(trailer), sents))
    {
      hide SentAll, AllOut, UpTo;
      sents := [];
      if !ok { return; }
      dataAvailable := false;
      ghost var pieces, sent := LastPieces(trailer), 0;
      var good;
      NothingSent();
      good, sent := strm.WriteData("0\r\n");
      if !good { ok := false; }
      SentSnoc([], sents, "0\r\n", sent);
      sents := sents + [sent];
      assert [] + ["0\r\n"] == pieces[..1] && [] + sents == sents;
      for i := 0 to |trailer|
        invariant !dataAvailable && |sents| == i + 1
        invariant strm.output == old(strm.output) + SentAll(pieces[..i + 1], sents)
        invariant ok <==> AllOut(pieces[..i + 1], sents)
      {
        var line := trailer[i].name + ": " + trailer[i].value + CRLF;
        good, sent := strm.WriteData(line);
        if !good { ok := false; }
        SentSnoc(pieces[..i + 1], sents, line, sent);
        assert pieces[..i + 2] == pieces[..i + 1] + [line];
        sents := sents + [sent];
      }
      good, sent := strm.WriteData(CRLF);
      if !good { ok := false; }
      SentSnoc(pieces[..|trailer| + 1], sents, CRLF, sent);
      assert pieces == pieces[..|trailer| + 1] + [CRLF];
      sents := sents + [sent];
    }
  }

  /** One call of the content provider: what it does to the sink, and whether it returns true. */
  datatype Turn = Turn(calls: seq<SinkCall>, ok: bool)

  datatype Outcome = Success | Canceled | WriteError

  function CallText(call: SinkCall): string {
    match call
    case Write(data) => Chunk(data)
    case Done(trailer) => LastChunk(trailer)
  }

  function CallsText(calls: seq<SinkCall>): string {
    if calls == [] then "" else CallText(calls[0]) + CallsText(calls[1..])
  }

  /** Whether data is still to come after these calls. */
  function Available(calls: seq<SinkCall>, before: bool): bool {
    if calls == [] then before
    else
      var last := calls[|calls| - 1];
      last.Write? && last.data != ""
  }

  /** What a run of the writer puts on the stream: the provider is called while data is available. */
  function Written(turns: seq<Turn>, available: bool): string {
    if turns == [] || !available then ""
    else CallsText(turns[0].calls)
         + if turns[0].ok then Written(turns[1..], Available(turns[0].calls, available)) else ""
  }

  /** How that run ends: canceled as soon as the provider, being called, returns false. */
  function Outcomes(turns: seq<Turn>, available: bool): Outcome {
    if turns == [] || !available then Success
    else if !turns[0].ok then Canceled
    else Outcomes(turns[1..], Available(turns[0].calls, available))
  }

  // ------------------------------------------------------------------ when a write fails

  /** The pieces in which a call is written. */
  function CallPieces(call: SinkCall): seq<string> {
    match call
    case Write(data) => [Chunk(data)]
    case Done(trailer) => LastPieces(trailer)
  }

  /** What is left of a call in which a write failed. */
  ghost predicate IsPartOf(part: string, call: SinkCall) {
    exists sents: seq<nat> :: IsSentPart(part, call, sents)
  }

  predicate IsSentPart(part: string, call: SinkCall, sents: seq<nat>) {
    |sents| == |CallPieces(call)| && !AllOut(CallPieces(call), sents) && part == SentAll(CallPieces(call), sents)
  }

  // Before a turn the stream is not writable, or a write fails in one of the calls of the turn.
  datatype Fault = Refused(turn: nat) | Failed(turn: nat, call: nat, part: string)

  /** Does the writer come to this turn, if no write fails? */
  predicate Reaches(turns: seq<Turn>, n: nat) {
    n <= |turns| && forall i :: 0 <= i < n ==> turns[i].ok && Available(turns[i].calls, true)
  }

  ghost predicate IsFault(turns: seq<Turn>, f: Fault) {
    f.turn < |turns| && Reaches(turns, f.turn)
    && (f.Failed? ==> f.call < |turns[f.turn].calls| && IsPartOf(f.part, turns[f.turn].calls[f.call]))
  }

  /** What is on the stream after a fault: the calls before it, and its part of a call. */
  function BeforeFault(turns: seq<Turn>, f: Fault): string
    requires f.turn < |turns| && (f.Failed? ==> f.call <= |turns[f.turn].calls|)
  {
    CallsText(Calls(turns[..f.turn]))
    + if f.Refused? then "" else CallsText(turns[f.turn].calls[..f.call]) + f.part
  }

  /** A fault ends the run after its turn, where a provider that returned false comes first. */
  function FaultOutcome(turns: seq<Turn>, f: Fault): Outcome
    requires f.turn < |turns|
  {
    if f.Failed? && !turns[f.turn].ok then Canceled else WriteError
  }

  /** `write_content_chunked`; the server begins to shut down when the turns run out. */
  method WriteContentChunked(strm: Stream, turns: seq<Turn>) returns (outcome: Outcome, ghost fault: Option<Fault>)
    modifies strm`output
    ensures fault.None? ==> strm.output == old(strm.output) + Written(turns, true) && outcome == Outcomes(turns, true)
    ensures fault.Some? ==>
      && IsFault(turns, fault.value) && outcome == FaultOutcome(turns, fault.value)
      && strm.output == old(strm.output) + BeforeFault(turns, fault.value)
  {
    hide CallsText, Available, Written, Outcomes, Calls, IsPartOf;
    fault := None;
    var sink := new DataSink(strm);
    var i := 0;
    assert turns[0..] == turns && turns[..0] == [];
    NoCalls();
    NobodyCalls();
    while sink.dataAvailable && i < |turns|
      invariant 0 <= i <= |turns| && fault == None && sink.ok && (sink.dataAvailable ==> Reaches(turns, i))
      invariant strm.output == old(strm.output) + CallsText(Calls(turns[..i]))
      invariant strm.output + Written(turns[i..], sink.dataAvailable) == old(strm.output) + Written(turns, true)
      invariant Outcomes(turns[i..], sink.dataAvailable) == Outcomes(turns, true)
    {
      var writable := strm.IsWritable();
      if !writable { return WriteError, Some(Refused(i)); }
      NextTurn(turns, i);
      CallsNext(turns, i);
      ghost var n, part := Provide(sink, turns[i].calls);
      assert turns[i].calls[..|turns[i].calls|] == turns[i].calls;
      if !sink.ok { fault := Some(Failed(i, n, part)); }
      if !turns[i].ok { return Canceled, fault; }
      if !sink.ok { return WriteError, fault; }
      i := i + 1;
    }
    NoTurn(turns[i..], sink.dataAvailable);
    outcome := Success;
  }

  lemma {:induction false} CallsAppend(a: seq<Turn>, b: seq<Turn>)
    ensures Calls(a + b) == Calls(a) + Calls(b)
    decreases |a|
  {
    if a == [] {
      assert a + b == b;
    } else {
      CallsAppend(a[1..], b);
      assert (a + b)[1..] == a[1..] + b;
    }
  }

  lemma {:induction false} CallsNext(turns: seq<Turn>, i: nat)
    requires i < |turns|
    ensures CallsText(Calls(turns[..i + 1])) == CallsText(Calls(turns[..i])) + CallsText(turns[i].calls)
  {
    hide CallsText, Calls;
    CallsAppend(turns[..i], [turns[i]]);
    assert turns[..i + 1] == turns[..i] + [turns[i]];
    assert Calls([turns[i]]) == turns[i].calls by { OneTurn(turns[i]); }
    CallsTextAppend(Calls(turns[..i]), turns[i].calls);
  }

  lemma {:induction false} NobodyCalls()
    ensures Calls([]) == []
  {
  }

  lemma {:induction false} OneTurn(turn: Turn)
    ensures Calls([turn]) == turn.calls
  {
    assert [turn][1..] == [];
    assert Calls([turn]) == turn.calls + Calls([]);
  }

  lemma {:induction false} NextTurn(turns: seq<Turn>, i: nat)
    requires i < |turns|
    ensures var calls, ok, rest := turns[i].calls, turns[i].ok, turns[i + 1..];
            && Written(turns[i..], true)
               == CallsText(calls) + (if ok then Written(rest, Available(calls, true)) else "")
            && Outcomes(turns[i..], true) == (if ok then Outcomes(rest, Available(calls, true)) else Canceled)
  {
    hide CallsText, Available;
    assert turns[i..][1..] == turns[i + 1..];
  }

  lemma {:induction false} NoTurn(turns: seq<Turn>, available: bool)
    requires turns == [] || !available
    ensures Written(turns, available) == "" && Outcomes(turns, available) == Success
  {
  }

  /** One call on the sink: the whole of it goes out, or a part, or nothing once a write has failed. */
  method Call(sink: DataSink, call: SinkCall) returns (ghost part: string)
    modifies sink, sink.strm`output
    ensures !old(sink.ok) ==> !sink.ok && part == ""
    ensures sink.strm.output == old(sink.strm.output) + part
    ensures sink.ok ==> part == CallText(call) && sink.dataAvailable == Available([call], old(sink.dataAvailable))
    ensures old(sink.ok) && !sink.ok ==> IsPartOf(part, call)
  {
    hide Chunk, LastChunk, SentAll, AllOut, LastPieces;
    part := "";
    ghost var were := sink.ok;
    match call {
      case Write(data) =>
        var _, sent := sink.Write(data);
        if were {
          part := UpTo(Chunk(data), sent);
          ChunkSent(data, sent);
          assert !sink.ok ==> IsSentPart(part, call, [sent]);
        }
      case Done(trailer) =>
        ghost var sents := sink.Done(trailer);
        if were {
          part := SentAll(LastPieces(trailer), sents);
          assert !sink.ok ==> IsSentPart(part, call, sents);
          if sink.ok {
            AllSent(LastPieces(trailer), sents);
            LastPiecesText(trailer);
          }
        }
    }
  }

  lemma {:induction false} ChunkSent(data: string, sent: nat)
    ensures SentAll([Chunk(data)], [sent]) == UpTo(Chunk(data), sent)
    ensures AllOut([Chunk(data)], [sent]) <==> sent >= |Chunk(data)|
  {
    hide SentAll, AllOut, UpTo, Chunk;
    NothingSent();
    SentSnoc([], [], Chunk(data), sent);
    assert [] + [Chunk(data)] == [Chunk(data)] && [] + [sent] == [sent];
  }

  method Provide(sink: DataSink, calls: seq<SinkCall>) returns (ghost n: nat, ghost part: string)
    requires sink.ok
    modifies sink, sink.strm`output
    ensures n <= |calls| && (sink.ok <==> n == |calls|)
    ensures sink.strm.output == old(sink.strm.output) + CallsText(calls[..n]) + part
    ensures sink.ok ==> part == "" && sink.dataAvailable == Available(calls, old(sink.dataAvailable))
    ensures !sink.ok ==> n < |calls| && IsPartOf(part, calls[n])
  {
    hide CallText, CallsText, IsPartOf;
    n, part := 0, "";
    assert calls[..0] == [];
    NoCalls();
    for i := 0 to |calls|
      invariant if sink.ok then n == i && part == "" else n < i && IsPartOf(part, calls[n])
      invariant sink.strm.output == old(sink.strm.output) + CallsText(calls[..n]) + part
      invariant sink.ok ==> sink.dataAvailable == Available(calls[..i], old(sink.dataAvailable))
    {
      ghost var was := sink.ok;
      ghost var sent := Call(sink, calls[i]);
      NextCall(calls, i);
      if sink.ok { n := i + 1; } else if was { part := sent; }
    }
    assert calls[..|calls|] == calls;
  }

  lemma {:induction false} NextCall(calls: seq<SinkCall>, i: nat)
    requires i < |calls|
    ensures CallsText(calls[..i + 1]) == CallsText(calls[..i]) + CallText(calls[i])
  {
    hide CallText;
    CallsTextAppend(calls[..i], [calls[i]]);
    assert calls[..i + 1] == calls[..i] + [calls[i]];
    assert [calls[i]][1..] == [];
    assert CallsText([calls[i]]) == CallText(calls[i]) + CallsText([]);
  }

  // ------------------------------------------------------------------ end to end

  function Calls(turns: seq<Turn>): seq<SinkCall> {
    if turns == [] then [] else turns[0].calls + Calls(turns[1..])
  }

  function Writes(writes: seq<string>): (calls: seq<SinkCall>)
    ensures |calls| == |writes| && forall i :: 0 <= i < |writes| ==> calls[i] == Write(writes[i])
  {
    seq(|writes|, i requires 0 <= i < |writes| => Write(writes[i]))
  }

  lemma {:induction false} CallsTextAppend(a: seq<SinkCall>, b: seq<SinkCall>)
    ensures CallsText(a + b) == CallsText(a) + CallsText(b)
    decreases |a|
  {
    hide CallText;
    if a == [] {
      assert a + b == b;
    } else {
      CallsTextAppend(a[1..], b);
      assert (a + b)[1..] == a[1..] + b;
    }
  }

  lemma {:induction false} WritesText(writes: seq<string>)
    ensures CallsText(Writes(writes)) == ChunkAll(writes)
    decreases |writes|
  {
    hide Chunk;
    if writes != [] {
      WritesText(writes[1..]);
      assert Writes(writes)[1..] == Writes(writes[1..]);
    }
  }

  /** A provider that keeps returning true and leaves the sink with data available until its last
      call is heard in full. */
  lemma {:induction false} AllIsWritten(turns: seq<Turn>, writes: seq<string>, trailer: seq<Header>)
    requires turns != [] && turns[|turns| - 1].calls != [] && forall t :: t in turns ==> t.ok
    requires Calls(turns) == Writes(writes) + [Done(trailer)]
    requires forall w :: w in writes ==> w != ""
    ensures Written(turns, true) == CallsText(Calls(turns))
    decreases |turns|
  {
    hide CallText, CallsText;
    var head, tail := turns[0].calls, turns[1..];
    CallsTextAppend(head, Calls(tail));
    if tail == [] {
      assert head + Calls(tail) == head;
      assert CallsText([]) == "" by { NoCalls(); }
    } else {
      TailCalls(tail);
      var k := |head|;
      assert k <= |writes| by { assert |Calls(turns)| == k + |Calls(tail)| == |writes| + 1; }
      assert head == Calls(turns)[..k];
      assert Calls(tail) == Calls(turns)[k..] == Writes(writes[k..]) + [Done(trailer)];
      assert forall w :: w in writes[k..] ==> w in writes;
      AllIsWritten(tail, writes[k..], trailer);
      assert k > 0 ==> head[k - 1] == Write(writes[k - 1]) && writes[k - 1] in writes;
      assert Available(head, true);
    }
  }

  lemma {:induction false} NoCalls()
    ensures CallsText([]) == ""
  {
  }

  lemma {:induction false} TailCalls(turns: seq<Turn>)
    requires turns != [] && turns[|turns| - 1].calls != []
    ensures Calls(turns) != []
    decreases |turns|
  {
    if |turns| > 1 { TailCalls(turns[1..]); }
  }

  /** Writer and reader together, over any turns of the provider: what arrives is what was written. */
  lemma {:induction false} TransferReadsBack(
    turns: seq<Turn>, writes: seq<string>, trailer: seq<Header>, rest: string)
    requires turns != [] && turns[|turns| - 1].calls != [] && forall t :: t in turns ==> t.ok
    requires Calls(turns) == Writes(writes) + [Done(trailer)]
    requires forall w :: w in writes ==> 0 < |w| < ULONG_MAX
    requires forall h :: h in trailer ==> IsLineHeader(h)
    ensures var b := ReadBody(Written(turns, true) + rest);
            && b.content == Flatten(writes)
            && (b.ok <==> forall h :: h in trailer ==> Fits(h))
            && (b.ok ==> b == Body(true, Flatten(writes), HeaderTexts(trailer), rest))
  {
    hide ReadBody, Written, LastChunk, IsLineHeader, Fits, Calls;
    AllIsWritten(turns, writes, trailer);
    CallsTextAppend(Writes(writes), [Done(trailer)]);
    WritesText(writes);
    assert CallsText([Done(trailer)]) == LastChunk(trailer);
    BodyReadsBack(writes, trailer, rest);
  }
}
