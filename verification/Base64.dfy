/** Base64 (section 4 of RFC 4648): the rolling encoder and decoder of the library, with their
    wrapping 32-bit accumulator, and the encoder of the WebSocket key, which works on groups. */
module Base64 {
  import opened Bytes
  import opened Division

  type sextet = q: int | 0 <= q < 64

  /** What a signed 32-bit integer holds after an operation that wraps around. */
  function Wrapped(x: int): (r: int)
    ensures -0x8000_0000 <= r < 0x8000_0000
    ensures (x - r) % 0x1_0000_0000 == 0
  {
    (x + 0x8000_0000) % 0x1_0000_0000 - 0x8000_0000
  }

  function Digit(q: sextet): (c: char)
    ensures c != '='
  {
    if q < 26 then 'A' + q as char
    else if q < 52 then 'a' + (q - 26) as char
    else if q < 62 then '0' + (q - 52) as char
    else if q == 62 then '+' else '/'
  }

  /** The decoding table, with -1 for every other character. */
  function DigitValue(c: char): (v: int)
    ensures -1 <= v < 64
  {
    if 'A' <= c <= 'Z' then c as int - 'A' as int
    else if 'a' <= c <= 'z' then c as int - 'a' as int + 26
    else if '0' <= c <= '9' then c as int - '0' as int + 52
    else if c == '+' then 62 else if c == '/' then 63 else -1
  }

  lemma {:induction false} DigitReadsBack(q: sextet)
    ensures DigitValue(Digit(q)) == q
  {
  }

  // ------------------------------------------------------------------ encoding, on values

  /** The sextets that become complete with the byte `c` at position `i`, after the byte `p`. */
  function Emitted(i: nat, p: byte, c: byte): seq<sextet> {
    if i % 3 == 0 then [c / 4]
    else if i % 3 == 1 then [p % 4 * 16 + c / 16]
    else [p % 16 * 4 + c / 64, c % 64]
  }

  function Last(data: seq<byte>): byte {
    if data == [] then 0 else data[|data| - 1]
  }

  function Sextets(data: seq<byte>): seq<sextet> {
    if data == [] then []
    else
      var front := data[..|data| - 1];
      Sextets(front) + Emitted(|front|, Last(front), Last(data))
  }

  /** The bits left over at the end, filled up with zeros. */
  function Tail(data: seq<byte>): seq<sextet> {
    if |data| % 3 == 0 then [] else if |data| % 3 == 1 then [Last(data) % 4 * 16] else [Last(data) % 16 * 4]
  }

  function Padding(n: nat): string {
    if n % 3 == 0 then "" else if n % 3 == 1 then "==" else "="
  }

  function Text(qs: seq<sextet>): (s: string)
    ensures |s| == |qs| && forall i :: 0 <= i < |s| ==> s[i] == Digit(qs[i])
  {
    seq(|qs|, i requires 0 <= i < |qs| => Digit(qs[i]))
  }

  function Encoded(data: seq<byte>): string {
    Text(Sextets(data) + Tail(data)) + Padding(|data|)
  }

  // ------------------------------------------------------------------ decoding, on values

  function Completed(i: nat, p: sextet, c: sextet): seq<byte> {
    if i % 4 == 0 then []
    else if i % 4 == 1 then [p * 4 + c / 16]
    else if i % 4 == 2 then [p % 16 * 16 + c / 4]
    else [p % 4 * 64 + c]
  }

  function LastSextet(qs: seq<sextet>): sextet {
    if qs == [] then 0 else qs[|qs| - 1]
  }

  function Octets(qs: seq<sextet>): seq<byte> {
    if qs == [] then []
    else
      var front := qs[..|qs| - 1];
      Octets(front) + Completed(|front|, LastSextet(front), LastSextet(qs))
  }

  /** The sextets of a text up to its first character outside the alphabet. */
  function Values(s: string): (qs: seq<sextet>)
    ensures |qs| <= |s|
  {
    if s == "" || DigitValue(s[0]) == -1 then [] else [DigitValue(s[0])] + Values(s[1..])
  }

  function Decoded(s: string): seq<byte> {
    Octets(Values(s))
  }

  // ------------------------------------------------------------------ decoding inverts encoding

  lemma {:induction false} OctetsSnoc(qs: seq<sextet>, q: sextet)
    ensures Octets(qs + [q]) == Octets(qs) + Completed(|qs|, LastSextet(qs), q)
  {
    assert (qs + [q])[..|qs|] == qs;
  }

  lemma {:induction false} SextetsSnoc(data: seq<byte>, c: byte)
    ensures Sextets(data + [c]) == Sextets(data) + Emitted(|data|, Last(data), c)
  {
    assert (data + [c])[..|data|] == data;
  }

  /** What the last sextet still holds of the last byte. */
  predicate Holds(data: seq<byte>, q: sextet) {
    && (|data| % 3 == 1 ==> q == Last(data) / 4)
    && (|data| % 3 == 2 ==> q % 16 == Last(data) / 16)
  }

  lemma {:induction false} ByteFromSextets(p: byte, c: byte)
    ensures p / 4 * 4 + (p % 4 * 16 + c / 16) / 16 == p
    ensures (p % 4 * 16 + c / 16) % 16 == c / 16
  {
    DivModIs(p % 4 * 16 + c / 16, 16, p % 4, c / 16);
  }

  lemma {:induction false} BytesFromSextets(q: sextet, p: byte, c: byte)
    requires q % 16 == p / 16
    ensures q % 16 * 16 + (p % 16 * 4 + c / 64) / 4 == p
    ensures (p % 16 * 4 + c / 64) % 4 * 64 + c % 64 == c
  {
    DivModIs(p % 16 * 4 + c / 64, 4, p % 16, c / 64);
  }

  lemma {:induction false} NothingDecodes()
    ensures Sextets([]) == [] && Octets([]) == [] && Text([]) == ""
  {
  }

  /** Decoding the complete sextets gives back all bytes but the one that is not complete yet. */
  lemma {:induction false} SextetsDecode(data: seq<byte>)
    ensures |Sextets(data)| % 4 == |data| % 3
    ensures Holds(data, LastSextet(Sextets(data)))
    ensures Octets(Sextets(data)) == if |data| % 3 == 0 then data else data[..|data| - 1]
    decreases |data|
  {
    hide Sextets, Octets;
    if data == [] {
      NothingDecodes();
    } else {
      var front := data[..|data| - 1];
      SextetsDecode(front);
      assert data == front + [Last(data)];
      if |front| % 3 == 0 {
        FirstByte(front, Last(data));
      } else if |front| % 3 == 1 {
        SecondByte(front, Last(data));
      } else {
        ThirdByte(front, Last(data));
      }
    }
  }

  lemma {:induction false} FirstByte(front: seq<byte>, c: byte)
    requires |front| % 3 == 0 && |Sextets(front)| % 4 == 0 && Octets(Sextets(front)) == front
    ensures var qs := Sextets(front + [c]);
            |qs| % 4 == 1 && LastSextet(qs) == c / 4 && Octets(qs) == front
  {
    hide Octets, Sextets;
    SextetsSnoc(front, c);
    OctetsSnoc(Sextets(front), c / 4);
  }

  lemma {:induction false} SecondByte(front: seq<byte>, c: byte)
    requires |front| % 3 == 1 && |Sextets(front)| % 4 == 1
    requires LastSextet(Sextets(front)) == Last(front) / 4 && Octets(Sextets(front)) == front[..|front| - 1]
    ensures var qs := Sextets(front + [c]);
            |qs| % 4 == 2 && LastSextet(qs) % 16 == c / 16 && Octets(qs) == front
  {
    hide Octets, Sextets;
    SextetsSnoc(front, c);
    OctetsSnoc(Sextets(front), Last(front) % 4 * 16 + c / 16);
    ByteFromSextets(Last(front), c);
  }

  lemma {:induction false} LastTwo(n: nat, q: sextet, p: byte, c: byte)
    requires n % 4 == 2 && q % 16 == p / 16
    ensures var e := p % 16 * 4 + c / 64;
            Completed(n, q, e) == [p] && Completed(n + 1, e, c % 64) == [c]
  {
    BytesFromSextets(q, p, c);
  }

  lemma {:induction false} ThirdByte(front: seq<byte>, c: byte)
    requires |front| % 3 == 2 && |Sextets(front)| % 4 == 2
    requires LastSextet(Sextets(front)) % 16 == Last(front) / 16 && Octets(Sextets(front)) == front[..|front| - 1]
    ensures var qs := Sextets(front + [c]);
            |qs| % 4 == 0 && Octets(qs) == front + [c]
  {
    hide Octets, Sextets, Completed, LastSextet;
    var qs, p := Sextets(front), Last(front);
    var e: sextet := p % 16 * 4 + c / 64;
    ThirdSextets(front, c);
    TwoMoreOctets(qs, e, c % 64);
    LastTwo(|qs|, LastSextet(qs), p, c);
    assert front == front[..|front| - 1] + [p];
  }

  /** What each byte of a group of three adds to the sextets. */
  lemma {:induction false} FirstSextets(front: seq<byte>, c: byte)
    requires |front| % 3 == 0
    ensures Sextets(front + [c]) == Sextets(front) + [c / 4]
  {
    hide Sextets;
    SextetsSnoc(front, c);
  }

  lemma {:induction false} SecondSextets(front: seq<byte>, c: byte)
    requires |front| % 3 == 1
    ensures Sextets(front + [c]) == Sextets(front) + [Last(front) % 4 * 16 + c / 16]
  {
    hide Sextets;
    SextetsSnoc(front, c);
  }

  lemma {:induction false} ThirdSextets(front: seq<byte>, c: byte)
    requires |front| % 3 == 2
    ensures Sextets(front + [c]) == Sextets(front) + [Last(front) % 16 * 4 + c / 64, c % 64]
  {
    hide Sextets;
    SextetsSnoc(front, c);
  }

  lemma {:induction false} TwoMoreOctets(qs: seq<sextet>, d: sextet, e: sextet)
    ensures Octets(qs + [d, e]) == Octets(qs) + Completed(|qs|, LastSextet(qs), d) + Completed(|qs| + 1, d, e)
  {
    hide Octets, Completed;
    OctetsSnoc(qs, d);
    OctetsSnoc(qs + [d], e);
    assert qs + [d, e] == qs + [d] + [e];
  }

  lemma {:induction false} TailDecodes(data: seq<byte>)
    ensures Octets(Sextets(data) + Tail(data)) == data
  {
    hide Octets, Sextets;
    var qs, p := Sextets(data), Last(data);
    SextetsDecode(data);
    if |data| % 3 == 0 {
      assert qs + Tail(data) == qs;
    } else {
      OctetsSnoc(qs, Tail(data)[0]);
      ByteFromSextets(p, 0);
      BytesFromSextets(LastSextet(qs), if |data| % 3 == 2 then p else LastSextet(qs) % 16 * 16, 0);
      assert data == data[..|data| - 1] + [p];
    }
  }

  lemma {:induction false} ValuesOfText(qs: seq<sextet>, end: string)
    requires end == "" || end[0] == '='
    ensures Values(Text(qs) + end) == qs
    decreases |qs|
  {
    var s := Text(qs) + end;
    if qs == [] {
      assert s == end;
    } else {
      DigitReadsBack(qs[0]);
      assert s[0] == Digit(qs[0]);
      assert s[1..] == Text(qs[1..]) + end;
      ValuesOfText(qs[1..], end);
    }
  }

  /** The decoder inverts the encoder on all byte strings. */
  lemma {:induction false} DecodedEncoded(data: seq<byte>)
    ensures Decoded(Encoded(data)) == data
  {
    hide Sextets, Tail, Octets, Values, Text;
    ValuesOfText(Sextets(data) + Tail(data), Padding(|data|));
    TailDecodes(data);
  }

  // ------------------------------------------------------------------ the rolling loops

  /** The low 16 bits of the accumulator survive wrapping. */
  lemma {:induction false} LowBits(val: int, p: byte, c: byte)
    requires val % 256 == p
    ensures Wrapped(val * 256 + c) % 65536 == p * 256 + c
    ensures Wrapped(val * 256 + c) % 256 == c
  {
    var x := val * 256 + c;
    WrappedLow(x);
    DivModIs(x, 65536, val / 256, p * 256 + c);
    DivModIs(x, 256, val, c);
  }

  lemma {:induction false} WrappedLow(x: int)
    ensures Wrapped(x) % 65536 == x % 65536
    ensures Wrapped(x) % 256 == x % 256
    ensures Wrapped(x) % 4096 == x % 4096
    ensures Wrapped(x) % 64 == x % 64
  {
    var w := Wrapped(x);
    var m := (x - w) / 0x1_0000_0000;
    assert w == x - m * 0x1_0000_0000;
    DivModIs(w, 65536, x / 65536 - 65536 * m, x % 65536);
    DivModIs(w, 256, x / 256 - 0x100_0000 * m, x % 256);
    DivModIs(w, 4096, x / 4096 - 0x10_0000 * m, x % 4096);
    DivModIs(w, 64, x / 64 - 0x400_0000 * m, x % 64);
  }

  /** A window of six bits in the low 16 bits of an accumulator. */
  lemma {:induction false} Window4(v: int, p: byte, c: byte)
    requires v % 65536 == p * 256 + c
    ensures v / 4 % 64 == c / 4
  {
    var q := v / 65536;
    DivModIs(v, 4, 16384 * q + 64 * p + c / 4, c % 4);
    DivModIs(v / 4, 64, 256 * q + p, c / 4);
  }

  lemma {:induction false} Window16(v: int, p: byte, c: byte)
    requires v % 65536 == p * 256 + c
    ensures v / 16 % 64 == p % 4 * 16 + c / 16
  {
    var q := v / 65536;
    DivModIs(v, 16, 4096 * q + 16 * p + c / 16, c % 16);
    DivModIs(v / 16, 64, 64 * q + p / 4, p % 4 * 16 + c / 16);
  }

  lemma {:induction false} Window64(v: int, p: byte, c: byte)
    requires v % 65536 == p * 256 + c
    ensures v / 64 % 64 == p % 16 * 4 + c / 64
    ensures v % 64 == c % 64
  {
    var q := v / 65536;
    DivModIs(v, 64, 1024 * q + 4 * p + c / 64, c % 64);
    DivModIs(v / 64, 64, 16 * q + p / 16, p % 16 * 4 + c / 64);
  }

  /** `val >> n`, the arithmetic shift of a signed integer. */
  function ShiftRight(val: int, n: nat): int {
    if n == 0 then val else if n == 2 then val / 4 else if n == 4 then val / 16 else if n == 6 then val / 64
    else val / Pow2(n)
  }

  /** One turn of the inner loop of the encoder. */
  lemma {:induction false} EmitsNext(val: int, i: nat, p: byte, c: byte, k: nat)
    requires val % 65536 == p * 256 + c && k < |Emitted(i, p, c)|
    ensures ShiftRight(val, 2 + i % 3 * 2 - k * 6) % 64 == Emitted(i, p, c)[k]
  {
    if i % 3 == 0 { Window4(val, p, c); } else if i % 3 == 1 { Window16(val, p, c); } else { Window64(val, p, c); }
  }

  lemma {:induction false} EmitCount(i: nat, p: byte, c: byte)
    ensures |Emitted(i, p, c)| == if i % 3 == 2 then 2 else 1
    ensures (i + 1) % 3 == if i % 3 == 2 then 0 else i % 3 + 1
  {
    DivModIs(i + 1, 3, if i % 3 == 2 then i / 3 + 1 else i / 3, if i % 3 == 2 then 0 else i % 3 + 1);
  }

  lemma {:induction false} TextAppend(a: seq<sextet>, b: seq<sextet>)
    ensures Text(a + b) == Text(a) + Text(b)
  {
  }

  /** The inner loop: what becomes complete with one more byte. */
  method Emit(val: int, valb: int, out: string, ghost i: nat, ghost p: byte, ghost c: byte)
    returns (outNew: string, valbNew: int)
    requires val % 65536 == p * 256 + c && valb == 2 + i % 3 * 2
    ensures outNew == out + Text(Emitted(i, p, c))
    ensures valbNew == (i + 1) % 3 * 2 - 6
  {
    hide Emitted, ShiftRight, Text;
    ghost var es, k := Emitted(i, p, c), 0;
    EmitCount(i, p, c);
    NothingDecodes();
    outNew, valbNew := out, valb;
    while valbNew >= 0
      invariant k <= |es| && valbNew == valb - 6 * k
      invariant outNew == out + Text(es[..k])
    {
      EmitsNext(val, i, p, c, k);
      TextAppend(es[..k], [es[k]]);
      assert es[..k] + [es[k]] == es[..k + 1];
      outNew := outNew + [Digit(ShiftRight(val, valbNew) % 64)];
      valbNew, k := valbNew - 6, k + 1;
    }
    assert es[..k] == es;
  }

  /** The encoder of the library, with its 32-bit accumulator. */
  method Encode(data: seq<byte>) returns (out: string)
    ensures out == Encoded(data)
  {
    hide Sextets, Text, Emitted, Wrapped, ShiftRight;
    out := "";
    var val, valb := 0, -6;
    NothingDecodes();
    for i := 0 to |data|
      invariant out == Text(Sextets(data[..i]))
      invariant valb == i % 3 * 2 - 6 && val % 256 == Last(data[..i])
    {
      var c := data[i];
      ghost var front := data[..i];
      assert data[..i + 1] == front + [c];
      SextetsSnoc(front, c);
      TextAppend(Sextets(front), Emitted(i, Last(front), c));
      LowBits(val, Last(front), c);
      val := Wrapped(val * 256 + c);
      out, valb := Emit(val, valb + 8, out, i, Last(front), c);
    }
    assert data[..|data|] == data;
    out := Finish(out, val, valb, data);
  }

  /** The bits left over and the padding. */
  method Finish(text: string, val: int, valb: int, ghost data: seq<byte>) returns (out: string)
    requires text == Text(Sextets(data)) && valb == |data| % 3 * 2 - 6 && val % 256 == Last(data)
    ensures out == Encoded(data)
  {
    hide Sextets, Text, Wrapped, ShiftRight, Octets, Holds, Tail, Padding, Digit;
    out := text;
    TextLength(data);
    TextAppend(Sextets(data), Tail(data));
    NoTailBits(data);
    if valb > -6 {
      LowBits(val, Last(data), 0);
      TailBits(data, Wrapped(val * 256));
      out := out + [Digit(ShiftRight(Wrapped(val * 256), valb + 8) % 64)];
    }
    out := Pad(out, |data|);
  }

  /** The length of the text in the terms of the padding loop. */
  lemma {:induction false} TextLength(data: seq<byte>)
    ensures |Text(Sextets(data))| % 4 == |data| % 3
    ensures |Text(Sextets(data)) + Text(Tail(data))| % 4 == if |data| % 3 == 0 then 0 else |data| % 3 + 1
  {
    hide Sextets, Octets;
    SextetsDecode(data);
  }

  lemma {:induction false} NoTailBits(data: seq<byte>)
    ensures |data| % 3 == 0 ==> Text(Tail(data)) == ""
  {
  }

  lemma {:induction false} TailBits(data: seq<byte>, v: int)
    requires |data| % 3 != 0 && v % 65536 == Last(data) * 256
    ensures Text(Tail(data)) == [Digit(ShiftRight(v, |data| % 3 * 2 + 2) % 64)]
  {
    if |data| % 3 == 1 { Window16(v, Last(data), 0); } else { Window64(v, Last(data), 0); }
  }

  method Pad(text: string, ghost n: nat) returns (out: string)
    requires |text| % 4 == (if n % 3 == 0 then 0 else n % 3 + 1)
    ensures out == text + Padding(n)
  {
    out := text;
    while |out| % 4 != 0
      invariant |text| <= |out| <= |text| + |Padding(n)| && out == text + Padding(n)[..|out| - |text|]
      invariant |text| + |Padding(n)| == (|text| + 3) / 4 * 4
      decreases |text| + |Padding(n)| - |out|
    {
      out := out + "=";
    }
  }

  lemma {:induction false} LowSextets(val: int, p: sextet, c: sextet)
    requires val % 64 == p
    ensures Wrapped(val * 64 + c) % 4096 == p * 64 + c
    ensures Wrapped(val * 64 + c) % 64 == c
  {
    var x := val * 64 + c;
    WrappedLow(x);
    DivModIs(x, 4096, val / 64, p * 64 + c);
    DivModIs(x, 64, val, c);
  }

  /** A window of eight bits in the low 12 bits of an accumulator. */
  lemma {:induction false} OctetWindow(v: int, p: sextet, c: sextet)
    requires v % 4096 == p * 64 + c
    ensures v / 16 % 256 == p * 4 + c / 16
    ensures v / 4 % 256 == p % 16 * 16 + c / 4
    ensures v % 256 == p % 4 * 64 + c
  {
    var q := v / 4096;
    DivModIs(v, 16, 256 * q + 4 * p + c / 16, c % 16);
    DivModIs(v / 16, 256, q, p * 4 + c / 16);
    DivModIs(v, 4, 1024 * q + 16 * p + c / 4, c % 4);
    DivModIs(v / 4, 256, 4 * q + p / 16, p % 16 * 16 + c / 4);
    DivModIs(v, 256, 16 * q + p / 4, p % 4 * 64 + c);
  }

  lemma {:induction false} Completes(v: int, i: nat, p: sextet, c: sextet)
    requires v % 4096 == p * 64 + c && i % 4 != 0
    ensures Completed(i, p, c) == [ShiftRight(v, 6 - i % 4 * 2) % 256]
  {
    OctetWindow(v, p, c);
  }

  function ValuesFrom(s: string, i: nat): (qs: seq<sextet>)
    requires i <= |s|
  {
    Values(s[i..])
  }

  lemma {:induction false} ValuesStep(s: string, i: nat)
    requires i < |s|
    ensures ValuesFrom(s, i) == if DigitValue(s[i]) == -1 then [] else [DigitValue(s[i])] + ValuesFrom(s, i + 1)
  {
    assert s[i..][1..] == s[i + 1..];
  }

  /** The bits the decoder holds, as its counter says, after some sextets. */
  function BitsHeld(n: nat): int {
    if n % 4 == 0 then -8 else n % 4 * -2
  }

  lemma {:induction false} NextBitsHeld(n: nat)
    ensures BitsHeld(n + 1) == if n % 4 == 0 then BitsHeld(n) + 6 else BitsHeld(n) - 2
  {
  }

  /** One turn of the decoder. */
  method Take(val: int, valb: int, out: seq<byte>, ghost i: nat, ghost p: sextet, ghost c: sextet)
    returns (outNew: seq<byte>, valbNew: int)
    requires val % 4096 == p * 64 + c && valb == BitsHeld(i) + 6
    ensures outNew == out + Completed(i, p, c) && valbNew == BitsHeld(i + 1)
  {
    hide ShiftRight;
    NextBitsHeld(i);
    outNew, valbNew := out, valb;
    if valb >= 0 {
      Completes(val, i, p, c);
      outNew, valbNew := out + [ShiftRight(val, valb) % 256], valb - 8;
    }
  }

  /** The decoder of the library; it stops at the first character outside the alphabet. */
  method Decode(input: string) returns (out: seq<byte>)
    ensures out == Decoded(input)
  {
    hide Values, Octets, Completed, Wrapped, BitsHeld, DigitValue;
    out := [];
    var val, valb := 0, -8;
    ghost var qs: seq<sextet> := [];
    assert input[0..] == input;
    NothingDecodes();
    assert BitsHeld(0) == -8 by { NoBitsHeld(); }
    for i := 0 to |input|
      invariant out == Octets(qs) && Values(input) == qs + ValuesFrom(input, i)
      invariant valb == BitsHeld(|qs|) && val % 64 == LastSextet(qs)
    {
      var c := DigitValue(input[i]);
      ValuesStep(input, i);
      if c == -1 { break; }
      OctetsSnoc(qs, c);
      LowSextets(val, LastSextet(qs), c);
      val := Wrapped(val * 64 + c);
      out, valb := Take(val, valb + 6, out, |qs|, LastSextet(qs), c);
      qs := qs + [c];
    }
    NoValues();
    assert Values(input) == qs;
  }

  lemma {:induction false} NoBitsHeld()
    ensures BitsHeld(0) == -8
  {
  }

  lemma {:induction false} NoValues()
    ensures Values("") == []
  {
  }

  // ------------------------------------------------------------------ the encoder by groups

  lemma {:induction false} GroupBits(a: byte, b: byte, c: byte)
    ensures var n := a * 65536 + b * 256 + c;
            && n / 262144 % 64 == a / 4
            && n / 4096 % 64 == a % 4 * 16 + b / 16
            && n / 64 % 64 == b % 16 * 4 + c / 64
            && n % 64 == c % 64
  {
    var n := a * 65536 + b * 256 + c;
    DivModIs(n, 262144, a / 4, a % 4 * 65536 + b * 256 + c);
    DivModIs(n, 4096, a * 16 + b / 16, b % 16 * 256 + c);
    DivModIs(a * 16 + b / 16, 64, a / 4, a % 4 * 16 + b / 16);
    DivModIs(n, 64, a * 1024 + b * 4 + c / 64, c % 64);
    DivModIs(a * 1024 + b * 4 + c / 64, 64, a * 16 + b / 16, b % 16 * 4 + c / 64);
  }

  /** What one turn of the group encoder appends. */
  function Group(data: seq<byte>, i: nat): string
    requires i < |data|
  {
    var n := (data[i] as int) * 65536 + (if i + 1 < |data| then (data[i + 1] as int) * 256 else 0)
             + if i + 2 < |data| then data[i + 2] as int else 0;
    [Digit(n / 262144 % 64), Digit(n / 4096 % 64),
     if i + 1 < |data| then Digit(n / 64 % 64) else '=',
     if i + 2 < |data| then Digit(n % 64) else '=']
  }

  lemma {:induction false} WholeGroup(data: seq<byte>, i: nat)
    requires i + 3 <= |data| && i % 3 == 0
    ensures Text(Sextets(data[..i + 3])) == Text(Sextets(data[..i])) + Group(data, i)
  {
    hide Sextets, Group, Text;
    var front, a, b, c := data[..i], data[i], data[i + 1], data[i + 2];
    assert data[..i + 3] == front + [a] + [b] + [c];
    ThreeBytes(front, a, b, c);
    WholeGroupText(data, i);
    TextAppend(Sextets(front), [a / 4, a % 4 * 16 + b / 16, b % 16 * 4 + c / 64, c % 64]);
  }

  lemma {:induction false} ThreeBytes(front: seq<byte>, a: byte, b: byte, c: byte)
    requires |front| % 3 == 0
    ensures Sextets(front + [a] + [b]) == Sextets(front) + [a / 4, a % 4 * 16 + b / 16]
    ensures Sextets(front + [a] + [b] + [c])
         == Sextets(front) + [a / 4, a % 4 * 16 + b / 16, b % 16 * 4 + c / 64, c % 64]
  {
    hide Sextets, Last;
    var s, two := Sextets(front), front + [a] + [b];
    FirstSextets(front, a);
    LastIs(front, a);
    LastIs(front + [a], b);
    assert |front + [a]| % 3 == 1 && |two| % 3 == 2;
    SecondSextets(front + [a], b);
    assert s + [a / 4] + [a % 4 * 16 + b / 16] == s + [a / 4, a % 4 * 16 + b / 16];
    ThirdSextets(two, c);
  }

  lemma {:induction false} LastIs(data: seq<byte>, c: byte)
    ensures Last(data + [c]) == c
  {
  }

  lemma {:induction false} WholeGroupText(data: seq<byte>, i: nat)
    requires i + 3 <= |data|
    ensures var a, b, c := data[i], data[i + 1], data[i + 2];
            Group(data, i) == Text([a / 4, a % 4 * 16 + b / 16, b % 16 * 4 + c / 64, c % 64])
  {
    GroupBits(data[i], data[i + 1], data[i + 2]);
  }

  lemma {:induction false} OneByteLeft(data: seq<byte>, i: nat)
    requires |data| == i + 1 && i % 3 == 0
    ensures Encoded(data) == Text(Sextets(data[..i])) + Group(data, i)
  {
    hide Sextets;
    var front, a := data[..i], data[i];
    SextetsSnoc(front, a);
    assert data == front + [a];
    GroupBits(a, 0, 0);
  }

  lemma {:induction false} TwoBytesLeft(data: seq<byte>, i: nat)
    requires |data| == i + 2 && i % 3 == 0
    ensures Encoded(data) == Text(Sextets(data[..i])) + Group(data, i)
  {
    hide Sextets, Group, Text;
    var front, a, b := data[..i], data[i], data[i + 1];
    assert data == front + [a] + [b];
    ThreeBytes(front, a, b, 0);
    ShortGroupText(data, i);
    var qs := [a / 4, a % 4 * 16 + b / 16, b % 16 * 4];
    assert Sextets(data) + Tail(data) == Sextets(front) + qs;
    TextAppend(Sextets(front), qs);
  }

  lemma {:induction false} ShortGroupText(data: seq<byte>, i: nat)
    requires |data| == i + 2
    ensures var a, b := data[i], data[i + 1];
            Group(data, i) == Text([a / 4, a % 4 * 16 + b / 16, b % 16 * 4]) + "="
  {
    GroupBits(data[i], data[i + 1], 0);
  }

  method EncodeGroup(data: seq<byte>, i: nat) returns (group: string)
    requires i < |data|
    ensures group == Group(data, i)
  {
    var n := (data[i] as int) * 65536;
    if i + 1 < |data| { n := n + (data[i + 1] as int) * 256; }
    if i + 2 < |data| { n := n + data[i + 2] as int; }
    group := [Digit(n / 262144 % 64)];
    group := group + [Digit(n / 4096 % 64)];
    group := group + [if i + 1 < |data| then Digit(n / 64 % 64) else '='];
    group := group + [if i + 2 < |data| then Digit(n % 64) else '='];
  }

  /** The WebSocket handshake's own encoder computes the same text. */
  method EncodeGroups(data: seq<byte>) returns (result: string)
    ensures result == Encoded(data)
  {
    hide Sextets, Text, Group;
    result := "";
    NothingDecodes();
    var i := 0;
    while i < |data|
      invariant i < |data| + 3 && i % 3 == 0
      invariant i <= |data| ==> result == Text(Sextets(data[..i]))
      invariant i > |data| ==> result == Encoded(data)
    {
      if i + 3 <= |data| { WholeGroup(data, i); }
      if i + 2 == |data| { TwoBytesLeft(data, i); }
      if i + 1 == |data| { OneByteLeft(data, i); }
      var group := EncodeGroup(data, i);
      result := result + group;
      i := i + 3;
    }
    if i == |data| { NoPartialGroup(data); }
  }

  lemma {:induction false} NoPartialGroup(data: seq<byte>)
    requires |data| % 3 == 0
    ensures Encoded(data) == Text(Sextets(data[..|data|]))
  {
    hide Sextets;
    assert data[..|data|] == data;
    assert Sextets(data) + [] == Sextets(data);
  }
}
