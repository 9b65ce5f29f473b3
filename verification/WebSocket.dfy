/** WebSocket framing of the RELAY transport (RFC 6455, sections 5.2, 5.3 and 5.5): writing and
    reading frames, and the read loop. */
module WebSocket {
  import opened Json
  import opened Bytes
  import opened Lists

  const MAX_LENGTH := 0x1_0000_0000_0000_0000

  type Mask = m: seq<byte> | |m| == 4 witness [0, 0, 0, 0]

  function Masked(payload: seq<byte>, mask: Mask): (r: seq<byte>)
    ensures |r| == |payload|
    ensures forall i :: 0 <= i < |r| ==> r[i] == Xor(payload[i], mask[i % 4])
  {
    seq(|payload|, i requires 0 <= i < |payload| => Xor(payload[i], mask[i % 4]))
  }

  lemma {:induction false} MaskedTwice(payload: seq<byte>, mask: Mask)
    ensures Masked(Masked(payload, mask), mask) == payload
  {
    forall i | 0 <= i < |payload|
      ensures Masked(Masked(payload, mask), mask)[i] == payload[i]
    {
      XorTwice(payload[i], mask[i % 4]);
    }
  }

  // ------------------------------------------------------------------ writing

  /** The masked length field of a text frame: 7, 16 or 64 bits. */
  function LengthField(n: nat): seq<byte>
    requires n < MAX_LENGTH
  {
    if n <= 125 then [128 + n] else if n <= 65535 then [254] + BigEndian(n, 2) else [255] + BigEndian(n, 8)
  }

  /** The length field of a control frame has no 64-bit form: longer lengths lose high bits. */
  function ControlLengthField(n: nat): seq<byte> {
    if n <= 125 then [128 + n] else [254] + BigEndian(n % 65536, 2)
  }

  function TextFrame(payload: seq<byte>, mask: Mask): seq<byte>
    requires |payload| < MAX_LENGTH
  {
    [0x81] + LengthField(|payload|) + mask + Masked(payload, mask)
  }

  function PongFrame(payload: seq<byte>, mask: Mask): seq<byte> {
    [0x8A] + ControlLengthField(|payload|) + mask + Masked(payload, mask)
  }

  // ------------------------------------------------------------------ the bytes of a frame

  /** A length in 16 bits from the third byte on, most significant byte first. */
  predicate IsLength16(frame: seq<byte>, n: nat) {
    |frame| >= 4 && frame[1] == 254 && (frame[2] as int) * 256 + frame[3] == n
  }

  /** A length in 64 bits from the third byte on, most significant byte first. */
  predicate IsLength64(frame: seq<byte>, n: nat) {
    && |frame| >= 10 && frame[1] == 255
    && (frame[2] as int) * 0x100_0000_0000_0000 + (frame[3] as int) * 0x1_0000_0000_0000
       + (frame[4] as int) * 0x100_0000_0000 + (frame[5] as int) * 0x1_0000_0000
       + (frame[6] as int) * 0x100_0000 + (frame[7] as int) * 0x1_0000
       + (frame[8] as int) * 0x100 + frame[9] == n
  }

  /** From `h` on stand the mask and the payload under it, and nothing more. */
  predicate IsBodyAt(frame: seq<byte>, h: nat, payload: seq<byte>, mask: Mask) {
    && |frame| == h + 4 + |payload| && frame[h..h + 4] == mask
    && forall i :: 0 <= i < |payload| ==> frame[h + 4 + i] == Xor(payload[i], mask[i % 4])
  }

  /** A final text frame, byte by byte. */
  predicate IsTextFrame(frame: seq<byte>, payload: seq<byte>, mask: Mask) {
    var n := |payload|;
    && |frame| >= 2 && frame[0] == 0x81
    && (n <= 125 ==> frame[1] == 128 + n && IsBodyAt(frame, 2, payload, mask))
    && (125 < n <= 65535 ==> IsLength16(frame, n) && IsBodyAt(frame, 4, payload, mask))
    && (65535 < n ==> IsLength64(frame, n) && IsBodyAt(frame, 10, payload, mask))
  }

  /** A final pong frame, byte by byte; longer lengths lose their high bits. */
  predicate IsPongFrame(frame: seq<byte>, payload: seq<byte>, mask: Mask) {
    var n := |payload|;
    && |frame| >= 2 && frame[0] == 0x8A
    && (n <= 125 ==> frame[1] == 128 + n && IsBodyAt(frame, 2, payload, mask))
    && (125 < n ==> IsLength16(frame, n % 65536) && IsBodyAt(frame, 4, payload, mask))
  }

  lemma {:induction false} BodyAt(head: seq<byte>, payload: seq<byte>, mask: Mask)
    ensures IsBodyAt(head + mask + Masked(payload, mask), |head|, payload, mask)
  {
    hide Xor;
    var frame := head + mask + Masked(payload, mask);
    forall i | 0 <= i < |payload|
      ensures frame[|head| + 4 + i] == Xor(payload[i], mask[i % 4])
    {
      assert frame[|head| + 4 + i] == Masked(payload, mask)[i];
    }
  }

  lemma {:induction false} Length16(head: seq<byte>, n: nat, rest: seq<byte>)
    requires n < 65536 && |head| == 1
    ensures IsLength16(head + ([254] + BigEndian(n, 2)) + rest, n)
  {
    hide BigEndian, BigValue;
    var bs := BigEndian(n, 2);
    LengthReads(n, 2);
    BigValueOfTwo(bs);
    var frame := head + ([254] + bs) + rest;
    assert frame[2] == bs[0] && frame[3] == bs[1];
  }

  lemma {:induction false} Length64(head: seq<byte>, n: nat, rest: seq<byte>)
    requires n < MAX_LENGTH && |head| == 1
    ensures IsLength64(head + ([255] + BigEndian(n, 8)) + rest, n)
  {
    hide BigEndian, BigValue;
    var bs := BigEndian(n, 8);
    LengthReads(n, 8);
    BigValueOfEight(bs);
    var frame := head + ([255] + bs) + rest;
    assert forall i :: 0 <= i < 8 ==> frame[2 + i] == bs[i];
    assert frame[2] == bs[0] && frame[3] == bs[1] && frame[4] == bs[2] && frame[5] == bs[3];
    assert frame[6] == bs[4] && frame[7] == bs[5] && frame[8] == bs[6] && frame[9] == bs[7];
  }

  lemma {:induction false} TextFrameBytes(payload: seq<byte>, mask: Mask)
    requires |payload| < MAX_LENGTH
    ensures IsTextFrame(TextFrame(payload, mask), payload, mask)
  {
    hide BigEndian, Masked, IsBodyAt, IsLength16, IsLength64;
    var n, body := |payload|, mask + Masked(payload, mask);
    BodyAt([0x81] + LengthField(n), payload, mask);
    assert TextFrame(payload, mask) == [0x81] + LengthField(n) + body;
    if 125 < n <= 65535 { Length16([0x81], n, body); }
    if n > 65535 { Length64([0x81], n, body); }
  }

  lemma {:induction false} PongFrameBytes(payload: seq<byte>, mask: Mask)
    ensures IsPongFrame(PongFrame(payload, mask), payload, mask)
  {
    hide BigEndian, Masked, IsBodyAt, IsLength16;
    var n, body := |payload|, mask + Masked(payload, mask);
    BodyAt([0x8A] + ControlLengthField(n), payload, mask);
    assert PongFrame(payload, mask) == [0x8A] + ControlLengthField(n) + body;
    if n > 125 { Length16([0x8A], n % 65536, body); }
  }

  // ------------------------------------------------------------------ reading

  datatype Frame = Frame(opcode: nat, payload: seq<byte>)

  datatype Read = Got(frame: Frame, rest: seq<byte>) | Lost

  /** How many bytes of extended length follow a 7-bit length. */
  function ExtensionSize(len7: nat): nat {
    if len7 == 126 then 2 else if len7 == 127 then 8 else 0
  }

  /** The payload length: the 7-bit one, or the big-endian one behind it. */
  function LengthOf(len7: nat, input: seq<byte>): nat
    requires len7 < 128 && 2 + ExtensionSize(len7) <= |input|
  {
    if ExtensionSize(len7) == 0 then len7 else BigValue(input[2..2 + ExtensionSize(len7)])
  }

  function ReadBody(input: seq<byte>, opcode: nat, masked: bool, from: nat, len: nat): Read
    requires from <= |input|
  {
    var at := from + if masked then 4 else 0;
    if |input| < at + len then Lost
    else
      var data := input[at..at + len];
      Got(Frame(opcode, if masked then Masked(data, input[from..at]) else data), input[at + len..])
  }

  function ReadFrame(input: seq<byte>): Read {
    if |input| < 2 then Lost
    else
      var len7 := input[1] % 128;
      var from := 2 + ExtensionSize(len7);
      if |input| < from then Lost
      else ReadBody(input, input[0] % 16, input[1] >= 128, from, LengthOf(len7, input))
  }

  // ------------------------------------------------------------------ the read loop on values

  datatype Close = Close(code: nat, reason: seq<byte>)

  function CloseOf(payload: seq<byte>): Close {
    if |payload| < 2 then Close(1000, []) else Close((payload[0] as int) * 256 + payload[1], payload[2..])
  }

  /** The code of a close frame is its first two bytes in network order, the rest is the reason; without two
      bytes it is 1000 without a reason. */
  lemma {:induction false} CloseReads(code: nat, reason: seq<byte>)
    requires code < 65536
    ensures CloseOf([code / 256, code % 256] + reason) == Close(code, reason)
    ensures |reason| < 2 ==> CloseOf(reason) == Close(1000, [])
  {
    var payload: seq<byte> := [code / 256, code % 256] + reason;
    assert payload[2..] == reason;
  }

  const CONNECTION_LOST: seq<byte> := [67, 111, 110, 110, 101, 99, 116, 105, 111, 110, 32, 108, 111, 115, 116]

  // A stream ends with a close frame of the peer, or it is lost.
  datatype End = Closed(close: Close) | ConnectionLost

  /** What a stream of bytes says: text messages, pings to answer, and how it ends. */
  datatype Report = Report(messages: seq<seq<byte>>, pings: seq<seq<byte>>, end: End)

  /** The closes that are reported: one, unless the client is closing itself and the stream is lost. */
  function ClosesFor(end: End, closing: bool): seq<Close> {
    match end
    case Closed(close) => [close]
    case ConnectionLost => if closing then [] else [Close(1006, CONNECTION_LOST)]
  }

  /** A close frame is always reported, a lost stream as 1006 with its reason in words unless the client is
      closing. */
  lemma {:induction false} LossIsReported(close: Close, closing: bool, i: nat)
    requires i < |"Connection lost"|
    ensures ClosesFor(Closed(close), closing) == [close]
    ensures ClosesFor(ConnectionLost, false) == [Close(1006, CONNECTION_LOST)] && ClosesFor(ConnectionLost, true) == []
    ensures |CONNECTION_LOST| == |"Connection lost"| && CONNECTION_LOST[i] == "Connection lost"[i] as int
  {
  }

  function WithFrame(f: Frame, later: Report): Report {
    if f.opcode == 1 then later.(messages := [f.payload] + later.messages)
    else if f.opcode == 9 then later.(pings := [f.payload] + later.pings)
    else later
  }

  function Listen(input: seq<byte>): Report
    decreases |input|
  {
    match ReadFrame(input)
    case Lost => Report([], [], ConnectionLost)
    case Got(f, rest) =>
      if f.opcode == 8 then Report([], [], Closed(CloseOf(f.payload))) else WithFrame(f, Listen(rest))
  }

  /** One turn of the loop, on values. */
  lemma {:induction false} ListenStep(input: seq<byte>)
    ensures var read := ReadFrame(input);
            && (read.Lost? ==> Listen(input) == Report([], [], ConnectionLost))
            && (read.Got? ==>
              && |read.rest| < |input|
              && Listen(input) == (if read.frame.opcode == 8 then Report([], [], Closed(CloseOf(read.frame.payload)))
                                   else WithFrame(read.frame, Listen(read.rest))))
  {
  }

  /** How a ping was answered: under which mask, and how many bytes of the pong went out. */
  datatype Answer = Answer(mask: Mask, sent: nat)

  /** The answers to a list of pings, each as far as it went out. */
  function Pongs(pings: seq<seq<byte>>, answers: seq<Answer>): seq<byte>
    requires |pings| == |answers|
  {
    if pings == [] then []
    else
      var last := |pings| - 1;
      Pongs(pings[..last], answers[..last]) + UpTo(PongFrame(pings[last], answers[last].mask), answers[last].sent)
  }

  /** No write failed. */
  predicate AllSent(pings: seq<seq<byte>>, answers: seq<Answer>)
    requires |pings| == |answers|
  {
    forall i :: 0 <= i < |pings| ==> answers[i].sent >= |PongFrame(pings[i], answers[i].mask)|
  }

  lemma {:induction false} NoPongs()
    ensures Pongs([], []) == []
  {
  }

  lemma {:induction false} PongsSnoc(pings: seq<seq<byte>>, answers: seq<Answer>, ping: seq<byte>, answer: Answer)
    requires |pings| == |answers|
    ensures Pongs(pings + [ping], answers + [answer])
         == Pongs(pings, answers) + UpTo(PongFrame(ping, answer.mask), answer.sent)
  {
    hide PongFrame;
    assert (pings + [ping])[..|pings|] == pings && (answers + [answer])[..|pings|] == answers;
  }

  // ------------------------------------------------------------------ frames on the wire

  /** A frame as any peer may send it: any first byte, masked or not, and any of the three
      length forms that can hold the length. */
  datatype WireFrame = WireFrame(first: byte, payload: seq<byte>, mask: Option<Mask>, extension: nat)

  predicate IsWireFrame(w: WireFrame) {
    (w.extension == 0 && |w.payload| <= 125)
    || (w.extension == 2 && |w.payload| < 65536)
    || (w.extension == 8 && |w.payload| < MAX_LENGTH)
  }

  /** The bytes of a frame between its first byte and its masking key. */
  function WireLength(w: WireFrame): (s: seq<byte>)
    requires IsWireFrame(w)
    ensures |s| == 1 + w.extension
  {
    var bit := if w.mask.Some? then 128 else 0;
    if w.extension == 0 then [bit + |w.payload|]
    else if w.extension == 2 then [bit + 126] + BigEndian(|w.payload|, 2)
    else [bit + 127] + BigEndian(|w.payload|, 8)
  }

  function Key(w: WireFrame): (key: seq<byte>)
    ensures |key| == if w.mask.Some? then 4 else 0
  {
    if w.mask.Some? then w.mask.value else []
  }

  function Data(w: WireFrame): (data: seq<byte>)
    ensures |data| == |w.payload|
  {
    if w.mask.Some? then Masked(w.payload, w.mask.value) else w.payload
  }

  function Wire(w: WireFrame): seq<byte>
    requires IsWireFrame(w)
  {
    [w.first] + WireLength(w) + Key(w) + Data(w)
  }

  function WireAll(ws: seq<WireFrame>): seq<byte>
    requires forall w :: w in ws ==> IsWireFrame(w)
  {
    if ws == [] then [] else Wire(ws[0]) + WireAll(ws[1..])
  }

  /** What a list of frames says, read off the list: everything before its first close frame. */
  function Heard(ws: seq<WireFrame>): Report {
    if ws == [] then Report([], [], ConnectionLost)
    else if ws[0].first % 16 == 8 then Report([], [], Closed(CloseOf(ws[0].payload)))
    else
      var later := Heard(ws[1..]);
      if ws[0].first % 16 == 1 then later.(messages := [ws[0].payload] + later.messages)
      else if ws[0].first % 16 == 9 then later.(pings := [ws[0].payload] + later.pings)
      else later
  }

  // ------------------------------------------------------------------ frame round trips

  lemma {:induction false} LengthReads(n: nat, extension: nat)
    requires (extension == 2 && n < 65536) || (extension == 8 && n < MAX_LENGTH)
    ensures BigValue(BigEndian(n, extension)) == n
  {
    Pow256Values();
    BigEndianReads(n, extension);
  }

  lemma {:induction false} LengthFieldReads(w: WireFrame, input: seq<byte>)
    requires IsWireFrame(w) && |input| >= 2 + w.extension && input[1..2 + w.extension] == WireLength(w)
    ensures input[1] >= 128 <==> w.mask.Some?
    ensures ExtensionSize(input[1] % 128) == w.extension
    ensures w.extension == 0 ==> input[1] % 128 == |w.payload|
    ensures w.extension != 0 ==> BigValue(input[2..2 + w.extension]) == |w.payload|
  {
    hide BigEndian, BigValue;
    var len := WireLength(w);
    assert input[1] == len[0];
    if w.extension != 0 {
      LengthReads(|w.payload|, w.extension);
      assert input[2..2 + w.extension] == len[1..];
      assert len[1..] == BigEndian(|w.payload|, w.extension);
    }
  }

  lemma {:induction false} FourParts(a: seq<byte>, b: seq<byte>, key: seq<byte>, data: seq<byte>, rest: seq<byte>)
    ensures var input := a + b + key + data + rest;
            var from := |a| + |b|;
            var at := from + |key|;
            && |input| == at + |data| + |rest|
            && input[|a|..from] == b && input[from..at] == key
            && input[at..at + |data|] == data && input[at + |data|..] == rest
  {
  }

  lemma {:induction false} WireParts(w: WireFrame, rest: seq<byte>)
    requires IsWireFrame(w)
    ensures var from := 2 + w.extension;
            var at := from + if w.mask.Some? then 4 else 0;
            var input := Wire(w) + rest;
            && |input| == at + |w.payload| + |rest|
            && input[0] == w.first && input[1..from] == WireLength(w)
            && input[from..at] == Key(w) && input[at..at + |w.payload|] == Data(w)
            && input[at + |w.payload|..] == rest
  {
    hide WireLength, Key, Data, IsWireFrame;
    FourParts([w.first], WireLength(w), Key(w), Data(w), rest);
  }

  /** Reading inverts writing for every frame, whatever follows it. */
  lemma {:induction false} FrameReadsBack(w: WireFrame, rest: seq<byte>)
    requires IsWireFrame(w)
    ensures ReadFrame(Wire(w) + rest) == Got(Frame(w.first % 16, w.payload), rest)
  {
    hide BigEndian, BigValue, Masked, Wire, WireLength, ExtensionSize;
    WireParts(w, rest);
    LengthFieldReads(w, Wire(w) + rest);
    if w.mask.Some? { MaskedTwice(w.payload, w.mask.value); }
  }

  /** `read_frame` inverts `encode_frame` across all three length forms. */
  lemma {:induction false} TextFrameReadsBack(payload: seq<byte>, mask: Mask, rest: seq<byte>)
    requires |payload| < MAX_LENGTH
    ensures ReadFrame(TextFrame(payload, mask) + rest) == Got(Frame(1, payload), rest)
  {
    hide BigEndian, ReadFrame, Masked;
    var w := WireFrame(0x81, payload, Some(mask), if |payload| <= 125 then 0 else if |payload| <= 65535 then 2 else 8);
    FrameReadsBack(w, rest);
    assert TextFrame(payload, mask) == Wire(w);
  }

  lemma {:induction false} ShortPongReadsBack(payload: seq<byte>, mask: Mask, rest: seq<byte>)
    requires |payload| <= 65535
    ensures ReadFrame(PongFrame(payload, mask) + rest) == Got(Frame(10, payload), rest)
  {
    hide BigEndian, Masked, BigValue, ReadFrame;
    var w := WireFrame(0x8A, payload, Some(mask), if |payload| <= 125 then 0 else 2);
    FrameReadsBack(w, rest);
    assert PongFrame(payload, mask) == Wire(w);
  }

  lemma {:induction false} LongPongIsCut(payload: seq<byte>, mask: Mask, rest: seq<byte>)
    requires |payload| > 65535
    ensures var read := ReadFrame(PongFrame(payload, mask) + rest);
            read.Got? && |read.frame.payload| == |payload| % 65536
  {
    hide BigEndian, Masked, BigValue;
    var input := PongFrame(payload, mask) + rest;
    var n := |payload| % 65536;
    LengthReads(n, 2);
    assert input[1] == 254 && input[2..4] == BigEndian(n, 2);
    assert LengthOf(126, input) == n;
  }

  /** A pong echoes its ping exactly when the payload fits the 16-bit length, as that of every
      legal control frame does. */
  lemma {:induction false} PongReadsBack(payload: seq<byte>, mask: Mask, rest: seq<byte>)
    ensures ReadFrame(PongFrame(payload, mask) + rest) == Got(Frame(10, payload), rest) <==> |payload| <= 65535
  {
    hide PongFrame, ReadFrame;
    if |payload| <= 65535 { ShortPongReadsBack(payload, mask, rest); } else { LongPongIsCut(payload, mask, rest); }
  }

  /** All the frames that can be read from some bytes. */
  function ReadAll(input: seq<byte>): seq<Frame>
    decreases |input|
  {
    match ReadFrame(input)
    case Lost => []
    case Got(f, rest) => [f] + ReadAll(rest)
  }

  function Echoes(pings: seq<seq<byte>>): (frames: seq<Frame>)
    ensures |frames| == |pings|
    ensures forall i :: 0 <= i < |pings| ==> frames[i] == Frame(10, pings[i])
  {
    seq(|pings|, i requires 0 <= i < |pings| => Frame(10, pings[i]))
  }

  lemma {:induction false} PongRead(ping: seq<byte>, mask: Mask, rest: seq<byte>)
    requires |ping| <= 65535
    ensures ReadAll(PongFrame(ping, mask) + rest) == [Frame(10, ping)] + ReadAll(rest)
  {
    hide PongFrame, ReadFrame;
    ShortPongReadsBack(ping, mask, rest);
  }

  /** If no write fails, the peer reads the answers to its pings as one pong for each, in order and
      with its payload. */
  lemma {:induction false} PongsReadBack(pings: seq<seq<byte>>, answers: seq<Answer>, rest: seq<byte>)
    requires |pings| == |answers| && AllSent(pings, answers)
    requires forall ping :: ping in pings ==> |ping| <= 65535
    ensures ReadAll(Pongs(pings, answers) + rest) == Echoes(pings) + ReadAll(rest)
    decreases |pings|
  {
    hide PongFrame, ReadAll, Pongs, Echoes, AllSent;
    var n := |pings|;
    if n == 0 {
      assert Pongs(pings, answers) + rest == rest by { NoPongs(); }
    } else {
      var front, fronts, last := pings[..n - 1], answers[..n - 1], [Frame(10, pings[n - 1])];
      var pong := PongFrame(pings[n - 1], answers[n - 1].mask);
      LastPong(pings, answers, rest);
      PongsReadBack(front, fronts, pong + rest);
      PongRead(pings[n - 1], answers[n - 1].mask, rest);
      EchoesSnoc(pings);
      assert Echoes(front) + (last + ReadAll(rest)) == Echoes(front) + last + ReadAll(rest);
    }
  }

  /** The last pong of several is whole and comes last. */
  lemma {:induction false} LastPong(pings: seq<seq<byte>>, answers: seq<Answer>, rest: seq<byte>)
    requires |pings| == |answers| && AllSent(pings, answers) && pings != []
    ensures var n := |pings| - 1;
            && AllSent(pings[..n], answers[..n])
            && Pongs(pings, answers) + rest
               == Pongs(pings[..n], answers[..n]) + (PongFrame(pings[n], answers[n].mask) + rest)
  {
    hide PongFrame;
    var n := |pings| - 1;
    assert UpTo(PongFrame(pings[n], answers[n].mask), answers[n].sent) == PongFrame(pings[n], answers[n].mask);
  }

  lemma {:induction false} EchoesSnoc(pings: seq<seq<byte>>)
    requires pings != []
    ensures Echoes(pings) == Echoes(pings[..|pings| - 1]) + [Frame(10, pings[|pings| - 1])]
  {
  }

  /** Stream refinement: for any list of frames, any masks and length forms, the loop delivers
      exactly the text payloads before the first close frame, in order, sees exactly the pings
      before it, and ends with the code and reason of that frame, or with the loss. */
  lemma {:induction false} ListenHears(ws: seq<WireFrame>)
    requires forall w :: w in ws ==> IsWireFrame(w)
    ensures Listen(WireAll(ws)) == Heard(ws)
  {
    hide Wire, ReadFrame, IsWireFrame;
    if ws == [] {
      assert ReadFrame([]) == Lost by { NothingToRead(); }
    } else {
      FrameReadsBack(ws[0], WireAll(ws[1..]));
      ListenHears(ws[1..]);
    }
  }

  lemma {:induction false} NothingToRead()
    ensures ReadFrame([]) == Lost
  {
  }

  // ------------------------------------------------------------------ the client object

  class WebSocketClient {
    // the bytes the peer sends, and those sent to it
    var input: seq<byte>
    var output: seq<byte>
    var connected: bool
    var closing: bool
    // what the callbacks have received
    var messages: seq<seq<byte>>
    var closes: seq<Close>

    constructor (stream: seq<byte>)
      ensures input == stream && output == [] && connected && !closing && messages == [] && closes == []
    {
      input, output := stream, [];
      connected, closing := true, false;
      messages, closes := [], [];
    }

    /** Reads exactly `len` bytes; each read of the socket may return fewer than asked. */
    method RawRead(len: nat) returns (ok: bool, data: seq<byte>)
      modifies this`input
      ensures ok <==> len <= |old(input)|
      ensures ok ==> data == old(input)[..len] && input == old(input)[len..]
    {
      data := [];
      while |data| < len
        invariant |data| <= len && data + input == old(input)
      {
        if input == [] {
          return false, data;
        }
        var n: nat :| 1 <= n <= len - |data| && n <= |input|;
        data := data + input[..n];
        input := input[n..];
      }
      ok := true;
      assert old(input)[..len] == data && old(input)[len..] == input;
    }

    /** Writes everything, unless a write fails; each write may take fewer bytes than offered. */
    method RawWrite(data: seq<byte>) returns (ok: bool, ghost sent: nat)
      modifies this`output
      ensures output == old(output) + UpTo(data, sent)
      ensures ok <==> sent >= |data|
    {
      var total := 0;
      while total < |data|
        invariant 0 <= total <= |data|
        invariant output == old(output) + data[..total]
      {
        var n: int :| -1 <= n <= |data| - total;
        if n <= 0 {
          return false, total;
        }
        output := output + data[total..total + n];
        total := total + n;
      }
      ok, sent := true, total;
    }

    method RandomMask() returns (mask: Mask)
    {
      var a: byte, b: byte, c: byte, d: byte := *, *, *, *;
      mask := [a, b, c, d];
    }

    /** Appends the masked payload byte by byte. */
    method PushMasked(start: seq<byte>, payload: seq<byte>, mask: Mask) returns (frame: seq<byte>)
      ensures frame == start + mask + Masked(payload, mask)
    {
      hide Xor;
      frame := start + mask;
      for i := 0 to |payload|
        invariant frame == start + mask + Masked(payload, mask)[..i]
      {
        frame := frame + [Xor(payload[i], mask[i % 4])];
      }
      assert Masked(payload, mask)[..|payload|] == Masked(payload, mask);
    }

    method PushBigEndian(start: seq<byte>, len: nat, k: nat) returns (frame: seq<byte>)
      ensures frame == start + BigEndian(len, k)
    {
      // len >> 8 * i for i from k - 1 down to 0
      if k == 0 {
        frame := start;
      } else {
        frame := PushBigEndian(start, len / 256, k - 1);
        frame := frame + [len % 256];
      }
    }

    method EncodeFrame(payload: seq<byte>) returns (frame: seq<byte>, mask: Mask)
      requires |payload| < MAX_LENGTH
      ensures frame == TextFrame(payload, mask) && IsTextFrame(frame, payload, mask)
    {
      hide BigEndian, Masked, IsTextFrame;
      frame := [0x81];
      var len := |payload|;
      if len <= 125 {
        frame := frame + [128 + len];
      } else if len <= 65535 {
        frame := frame + [254];
        frame := PushBigEndian(frame, len, 2);
      } else {
        frame := frame + [255];
        frame := PushBigEndian(frame, len, 8);
      }
      mask := RandomMask();
      frame := PushMasked(frame, payload, mask);
      TextFrameBytes(payload, mask);
    }

    method EncodePong(payload: seq<byte>) returns (pong: seq<byte>, mask: Mask)
      ensures pong == PongFrame(payload, mask) && IsPongFrame(pong, payload, mask)
    {
      hide BigEndian, Masked, IsPongFrame;
      pong := [0x8A];
      if |payload| <= 125 {
        pong := pong + [128 + |payload|];
      } else {
        pong := pong + [254];
        pong := PushBigEndian(pong, |payload| % 65536, 2);
      }
      mask := RandomMask();
      pong := PushMasked(pong, payload, mask);
      PongFrameBytes(payload, mask);
    }

    method Unmask(payload: seq<byte>, key: Mask) returns (r: seq<byte>)
      ensures r == Masked(payload, key)
    {
      hide Xor;
      r := payload;
      for i := 0 to |payload|
        invariant |r| == |payload|
        invariant forall j :: 0 <= j < i ==> r[j] == Masked(payload, key)[j]
        invariant forall j :: i <= j < |payload| ==> r[j] == payload[j]
      {
        r := r[i := Xor(r[i], key[i % 4])];
      }
    }

    /** Sends a text message: true means that the whole frame went out, and only then. */
    method Send(message: seq<byte>) returns (ok: bool, ghost mask: Mask, ghost sent: nat)
      requires |message| < MAX_LENGTH
      modifies this`output
      ensures !connected ==> !ok && output == old(output)
      ensures connected ==> output == old(output) + UpTo(TextFrame(message, mask), sent)
      ensures connected ==> (ok <==> sent >= |TextFrame(message, mask)|)
    {
      hide TextFrame;
      ok, mask, sent := false, [0, 0, 0, 0], 0;
      if !connected { return; }
      var frame, m := EncodeFrame(message);
      mask := m;
      ok, sent := RawWrite(frame);
    }

    /** Reads the extended length, if the 7-bit length asks for one. */
    method ReadLength(len7: nat, ghost all: seq<byte>) returns (ok: bool, len: nat)
      requires len7 < 128 && 2 <= |all| && input == all[2..]
      modifies this`input
      ensures ok <==> 2 + ExtensionSize(len7) <= |all|
      ensures ok ==> input == all[2 + ExtensionSize(len7)..]
      ensures ok ==> len == LengthOf(len7, all)
    {
      hide BigValue;
      ok, len := true, len7;
      if len7 == 126 || len7 == 127 {
        var ext;
        ok, ext := RawRead(if len7 == 126 then 2 else 8);
        if !ok { return; }
        assert ext == all[2..2 + ExtensionSize(len7)];
        assert input == all[2 + ExtensionSize(len7)..];
        len := BigValue(ext);
      }
    }

    /** Reads the masking key, if there is one, and the payload, and unmasks it. */
    method ReadBodyFrom(opcode: nat, masked: bool, len: nat, ghost all: seq<byte>, ghost from: nat)
      returns (ok: bool, frame: Frame)
      requires from <= |all| && input == all[from..]
      modifies this`input
      ensures ok <==> ReadBody(all, opcode, masked, from, len).Got?
      ensures ok ==> ReadBody(all, opcode, masked, from, len) == Got(frame, input)
    {
      hide Masked;
      frame := Frame(0, []);
      var key: Mask := [0, 0, 0, 0];
      ghost var at := from;
      if masked {
        var bytes;
        ok, bytes := RawRead(4);
        if !ok { return; }
        key := bytes;
        at := from + 4;
        assert key == all[from..at] && input == all[at..];
      }
      var payload;
      ok, payload := RawRead(len);
      if !ok { return; }
      assert payload == all[at..at + len] && input == all[at + len..];
      if masked {
        payload := Unmask(payload, key);
      }
      frame := Frame(opcode, payload);
    }

    method ReadFrameFrom() returns (ok: bool, frame: Frame)
      modifies this`input
      ensures ok <==> ReadFrame(old(input)).Got?
      ensures ok ==> ReadFrame(old(input)) == Got(frame, input)
    {
      hide LengthOf, ReadBody, ExtensionSize;
      frame := Frame(0, []);
      ghost var all := input;
      var header, len;
      ok, header := RawRead(2);
      if !ok { return; }
      var opcode, masked, len7 := header[0] % 16, header[1] >= 128, header[1] % 128;
      ok, len := ReadLength(len7, all);
      if !ok { return; }
      ok, frame := ReadBodyFrom(opcode, masked, len, all, 2 + ExtensionSize(len7));
    }

    /** Answers a ping; the pong is written while holding the write lock, and nobody asks whether
        that failed. */
    method AnswerPing(payload: seq<byte>) returns (ghost answer: Answer)
      modifies this`output
      ensures output == old(output) + UpTo(PongFrame(payload, answer.mask), answer.sent)
    {
      hide PongFrame;
      var pong, mask := EncodePong(payload);
      var _, sent := RawWrite(pong);
      answer := Answer(mask, sent);
    }

    method ReportClose(close: Close)
      modifies this`connected, this`closes
      ensures !connected && closes == old(closes) + [close]
    {
      connected := false;
      closes := closes + [close];
    }

    /** The read loop until it ends: everything the stream says is reported once and in order, and
        every ping is answered with its payload, as far as the writes succeed. */
    method ReadLoop() returns (ghost answers: seq<Answer>)
      modifies this
      ensures closing == old(closing)
      ensures !old(connected) ==>
        !connected && messages == old(messages) && closes == old(closes) && output == old(output)
      ensures old(connected) ==>
        var report := Listen(old(input));
        && connected == (closing && report.end.ConnectionLost?)
        && messages == old(messages) + report.messages
        && closes == old(closes) + ClosesFor(report.end, closing)
        && |answers| == |report.pings| && output == old(output) + Pongs(report.pings, answers)
    {
      hide ReadFrame, PongFrame, CloseOf, Listen, Pongs;
      answers := [];
      NoPongs();
      ghost var pings: seq<seq<byte>> := [];
      ghost var report := Listen(input);
      while connected
        invariant closing == old(closing) && (connected ==> old(connected))
        invariant |answers| == |pings|
        invariant output == old(output) + Pongs(pings, answers)
        invariant connected ==>
          && closes == old(closes)
          && old(messages) + report.messages == messages + Listen(input).messages
          && report.pings == pings + Listen(input).pings
          && report.end == Listen(input).end
        invariant !connected && old(connected) ==>
          && report.end.Closed? && closes == old(closes) + [report.end.close]
          && old(messages) + report.messages == messages
          && report.pings == pings
        invariant !old(connected) ==> messages == old(messages) && closes == old(closes) && pings == []
        decreases if connected then 1 + |input| else 0
      {
        ghost var was := input;
        var ok, frame := ReadFrameFrom();
        ListenStep(was);
        if !ok {
          if connected && !closing {
            ReportClose(Close(1006, CONNECTION_LOST));
          }
          break;
        }
        if frame.opcode == 1 {
          messages := messages + [frame.payload];
        } else if frame.opcode == 8 {
          ReportClose(CloseOf(frame.payload));
        } else if frame.opcode == 9 {
          ghost var answer := AnswerPing(frame.payload);
          PongsSnoc(pings, answers, frame.payload, answer);
          pings, answers := pings + [frame.payload], answers + [answer];
        }
      }
      assert old(connected) ==> pings == report.pings;
    }
  }
}
