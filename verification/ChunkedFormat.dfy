/** The bytes of the chunked transfer coding, as section 7.1 of RFC 9112 has them. */
module ChunkedFormat {
  import opened Chunked
  import opened Numerals
  import opened Text
  import opened Json

  predicate IsHexDigit(c: char) {
    '0' <= c <= '9' || 'a' <= c <= 'f' || 'A' <= c <= 'F'
  }

  predicate AreHexDigits(s: string) {
    forall i :: 0 <= i < |s| ==> IsHexDigit(s[i])
  }

  function HexDigit(c: char): nat {
    if '0' <= c <= '9' then c as nat - '0' as nat
    else if 'a' <= c <= 'f' then 10 + c as nat - 'a' as nat
    else if 'A' <= c <= 'F' then 10 + c as nat - 'A' as nat
    else 0
  }

  function HexValue(s: string): nat {
    if s == "" then 0 else HexValue(s[..|s| - 1]) * 16 + HexDigit(s[|s| - 1])
  }

  lemma {:induction false} HexValueSnoc(s: string, c: char)
    ensures HexValue(s + [c]) == HexValue(s) * 16 + HexDigit(c)
  {
    assert (s + [c])[..|s|] == s;
  }

  /** Hexadecimal digits in lower case without a leading zero. */
  lemma {:induction false} SizeIsHex(n: nat)
    requires n > 0
    ensures var digits := Numeral(n, 16);
            && AreHexDigits(digits)
            && HexValue(digits) == n
            && digits[0] != '0'
            && forall i :: 0 <= i < |digits| ==> !('A' <= digits[i] <= 'F')
  {
    hide Numeral;
    if n < 16 {
      NumeralSnoc(0, n, 16);
      OneDigit(n);
    } else {
      Shrinks(n, 16);
      SizeIsHex(n / 16);
      NumeralSnoc(n / 16, n % 16, 16);
      OneDigit(n % 16);
      HexValueSnoc(Numeral(n / 16, 16), LOWER[n % 16]);
    }
  }

  lemma {:induction false} OneDigit(d: nat)
    requires d < 16
    ensures HexValue([LOWER[d]]) == HexDigit(LOWER[d]) == d
    ensures AreHexDigits([LOWER[d]]) && !('A' <= LOWER[d] <= 'F')
    ensures d > 0 ==> LOWER[d] != '0'
  {
    HexValueSnoc("", LOWER[d]);
    assert "" + [LOWER[d]] == [LOWER[d]];
  }

  // ------------------------------------------------------------------ writing

  /** A write: its length in hexadecimal, a line break, the data, a line break.  An empty write is nothing,
      since a chunk of length zero would end the body. */
  lemma {:induction false} ChunkBytes(data: string) returns (digits: string)
    ensures Chunk("") == ""
    ensures data != "" ==>
      && Chunk(data) == digits + "\r\n" + data + "\r\n"
      && digits != "" && AreHexDigits(digits) && HexValue(digits) == |data| && digits[0] != '0'
  {
    hide Numeral, AreHexDigits, HexValue;
    digits := Numeral(|data|, 16);
    if data != "" { SizeIsHex(|data|); }
  }

  /** The writes follow each other. */
  lemma {:induction false} ChunksFollow(writes: seq<string>, data: string)
    ensures ChunkAll([]) == "" && ChunkAll(writes + [data]) == ChunkAll(writes) + Chunk(data)
  {
    hide Chunk;
    if writes == [] {
      assert writes + [data] == [data] && [data][1..] == [];
    } else {
      ChunksFollow(writes[1..], data);
      assert (writes + [data])[1..] == writes[1..] + [data];
    }
  }

  /** The end of a body: a zero, a line for each trailer field, and an empty line. */
  lemma {:induction false} LastChunkBytes(trailer: seq<Header>, h: Header) returns (before: string)
    ensures LastChunk([]) == "0\r\n\r\n"
    ensures LastChunk(trailer) == before + "\r\n"
    ensures LastChunk(trailer + [h]) == before + h.name + ": " + h.value + "\r\n\r\n"
  {
    hide HeaderBlock;
    BlockGrows(trailer, h);
    NoBlock();
    before := "0\r\n" + HeaderBlock(trailer);
  }

  lemma {:induction false} NoBlock()
    ensures HeaderBlock([]) == ""
  {
  }

  lemma {:induction false} BlockGrows(trailer: seq<Header>, h: Header)
    ensures HeaderBlock(trailer + [h]) == HeaderBlock(trailer) + h.name + ": " + h.value + "\r\n"
  {
    if trailer == [] {
      assert trailer + [h] == [h] && [h][1..] == [];
    } else {
      BlockGrows(trailer[1..], h);
      assert (trailer + [h])[1..] == trailer[1..] + [h];
    }
  }

  /** The trailer fields a reader accepts: no line longer than 8192 bytes. */
  lemma {:induction false} FieldFits(h: Header)
    ensures Fits(h) <==> |h.name| + |h.value| + 4 <= 8192
    ensures HeaderTexts([h]) == [h.name + ": " + h.value]
  {
    assert [h][1..] == [];
  }

  // ------------------------------------------------------------------ reading

  /** Digits of either case, up to the first other character: a chunk extension, say. */
  lemma {:induction false} SizeLineSays(digits: string, after: string)
    requires digits != "" && AreHexDigits(digits)
    requires after != "" && !IsHexDigit(after[0]) && (digits == "0" ==> after[0] != 'x' && after[0] != 'X')
    ensures StringToULong(digits + after) ==
      Some(if HexValue(digits) < 0x1_0000_0000_0000_0000 then HexValue(digits) else 0xFFFF_FFFF_FFFF_FFFF)
  {
    hide Value, HexValue, SkipForward, DigitsEnd;
    var s := digits + after;
    assert s[0] == digits[0] && IsHexDigit(s[0]);
    assert SkipForward(s, 0, White) == 0;
    assert DigitsStart(s) == 0 by { StartsAtOnce(digits, after); }
    assert forall i :: 0 <= i < |digits| ==> DigitValue(s[i]) < 16 by { DigitsHaveValues(digits, after); }
    assert DigitValue(s[|digits|]) == 16;
    DigitsEndAt(s, 0, |digits|);
    assert s[0..|digits|] == digits;
    ValueIsHex(digits);
  }

  lemma {:induction false} DigitsHaveValues(digits: string, after: string)
    requires AreHexDigits(digits)
    ensures forall i :: 0 <= i < |digits| ==> DigitValue((digits + after)[i]) < 16
  {
  }

  lemma {:induction false} StartsAtOnce(digits: string, after: string)
    requires digits != "" && AreHexDigits(digits)
    requires after != "" && !IsHexDigit(after[0]) && (digits == "0" ==> after[0] != 'x' && after[0] != 'X')
    ensures DigitsStart(digits + after) == 0
  {
    hide SkipForward, DigitValue;
    var s := digits + after;
    assert s[0] == digits[0] && IsHexDigit(s[0]);
    assert SkipForward(s, 0, White) == 0;
    if |digits| > 1 {
      assert s[1] == digits[1] && IsHexDigit(s[1]);
    } else {
      assert s[1] == after[0];
    }
  }

  lemma {:induction false} ValueIsHex(s: string)
    requires AreHexDigits(s)
    ensures Value(s, 16) == HexValue(s)
  {
    if s != "" { ValueIsHex(s[..|s| - 1]); }
  }

  /** A chunk with an extension behind its size is read like one without. */
  lemma {:induction false} ExtensionIsIgnored(digits: string, extension: string, data: string, more: string)
    requires digits != "" && AreHexDigits(digits) && HexValue(digits) == |data|
    requires 0 < |data| < 0xFFFF_FFFF_FFFF_FFFF
    requires '\n' !in extension && extension != "" && extension[0] == ';'
    ensures ReadBody(digits + extension + "\r\n" + data + "\r\n" + more) == After(data, ReadBody(more))
  {
    hide GetLine, StringToULong, Chunks, Trailers, HexValue;
    var line, input := digits + extension + "\r", data + "\r\n" + more;
    assert '\n' !in digits;
    LineReads(line, input);
    assert line + "\n" == digits + (extension + "\r\n");
    assert line + "\n" + input == digits + extension + "\r\n" + data + "\r\n" + more;
    SizeLineSays(digits, extension + "\r\n");
    ChunksStep(line + "\n", input, |data|);
    assert input[..|data|] == data && input[|data|..] == "\r\n" + more;
    CrlfReads(more);
  }
}
