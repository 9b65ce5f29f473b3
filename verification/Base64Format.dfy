/** The format of section 4 of RFC 4648, written out: the alphabet as a string, and the four
    characters of every group as the base-64 digits of its 24-bit number. */
module Base64Format {
  import opened Bytes
  import opened Division
  import opened Base64

  const TABLE := "ABCDEFGHIJKLMNOPQRSTUVWXYZ" + "abcdefghijklmnopqrstuvwxyz" + "0123456789+/"

  // ------------------------------------------------------------------ the alphabet

  lemma {:induction false} UpperLetters(q: nat)
    requires q < 26
    ensures |TABLE| == 64 && TABLE[q] == 'A' + q as char
  {
  }

  lemma {:induction false} LowerLetters(q: nat)
    requires 26 <= q < 52
    ensures |TABLE| == 64 && TABLE[q] == 'a' + (q - 26) as char
  {
  }

  lemma {:induction false} OtherDigits(q: nat)
    requires 52 <= q < 64
    ensures |TABLE| == 64
    ensures q < 62 ==> TABLE[q] == '0' + (q - 52) as char
    ensures (q == 62 ==> TABLE[q] == '+') && (q == 63 ==> TABLE[q] == '/')
  {
  }

  /** Both encoders print the digits of the table. */
  lemma {:induction false} DigitIsTable(q: sextet)
    ensures |TABLE| == 64 && Digit(q) == TABLE[q]
  {
    if q < 26 { UpperLetters(q); } else if q < 52 { LowerLetters(q); } else { OtherDigits(q); }
  }

  /** The decoder gives the position of a character in the table, and -1 for all others. */
  lemma {:induction false} DigitValueIsPosition(c: char)
    ensures |TABLE| == 64
    ensures forall k :: 0 <= k < 64 ==> (DigitValue(c) == k <==> TABLE[k] == c)
    ensures DigitValue(c) == -1 <==> c !in TABLE
  {
    hide Digit, DigitValue;
    forall k | 0 <= k < 64
      ensures |TABLE| == 64 && (DigitValue(c) == k <==> TABLE[k] == c)
    {
      DigitIsTable(k);
      DigitReadsBack(k);
      if DigitValue(c) == k { ValueReadsBack(c); }
    }
    if c in TABLE {
      var k :| 0 <= k < |TABLE| && TABLE[k] == c;
      assert DigitValue(c) == k;
    } else if DigitValue(c) != -1 {
      ValueInTable(c);
    }
  }

  lemma {:induction false} ValueInTable(c: char)
    requires DigitValue(c) != -1
    ensures c in TABLE
  {
    hide Digit, DigitValue;
    ValueReadsBack(c);
    DigitIsTable(DigitValue(c));
    assert TABLE[DigitValue(c)] in TABLE;
  }

  lemma {:induction false} ValueReadsBack(c: char)
    requires DigitValue(c) != -1
    ensures Digit(DigitValue(c)) == c
  {
  }

  // ------------------------------------------------------------------ encoding

  /** The number of the group of bytes at `i`, zeros standing for bytes that are missing. */
  function GroupNumber(data: seq<byte>, i: nat): (n: nat)
    requires i < |data|
    ensures n < 0x100_0000
  {
    (data[i] as int) * 65536 + (if i + 1 < |data| then (data[i + 1] as int) * 256 else 0)
    + if i + 2 < |data| then data[i + 2] as int else 0
  }

  /** From `j` on stand the base-64 digits of the group at `i`, padded with `=`. */
  predicate IsGroupAt(s: string, j: nat, data: seq<byte>, i: nat)
    requires i < |data|
  {
    var n := GroupNumber(data, i);
    && |TABLE| == 64 && j + 4 <= |s|
    && s[j] == TABLE[n / 262144] && s[j + 1] == TABLE[n / 4096 % 64]
    && s[j + 2] == (if i + 1 < |data| then TABLE[n / 64 % 64] else '=')
    && s[j + 3] == (if i + 2 < |data| then TABLE[n % 64] else '=')
  }

  lemma {:induction false} GroupIs(data: seq<byte>, i: nat)
    requires i < |data|
    ensures |Group(data, i)| == 4 && IsGroupAt(Group(data, i), 0, data, i)
  {
    hide Digit;
    var n := GroupNumber(data, i);
    assert n / 262144 % 64 == n / 262144;
    DigitIsTable(n / 262144);
    DigitIsTable(n / 4096 % 64);
    DigitIsTable(n / 64 % 64);
    DigitIsTable(n % 64);
  }

  lemma {:induction false} SextetCount(data: seq<byte>)
    ensures |Sextets(data)| == |data| / 3 * 4 + |data| % 3
  {
    if data != [] {
      var front := data[..|data| - 1];
      SextetCount(front);
      EmitCount(|front|, Last(front), Last(data));
    }
  }

  lemma {:induction false} SextetsPrefix(data: seq<byte>, k: nat)
    requires k <= |data|
    ensures Sextets(data[..k]) <= Sextets(data)
    decreases |data|
  {
    if k == |data| {
      assert data[..k] == data;
    } else {
      var front := data[..|data| - 1];
      assert front[..k] == data[..k];
      hide Emitted;
      SextetsPrefix(front, k);
    }
  }

  lemma {:induction false} TextPrefix(a: seq<sextet>, b: seq<sextet>)
    requires a <= b
    ensures Text(a) <= Text(b)
  {
  }

  /** What stands before a group and what the group adds. */
  lemma {:induction false} GroupInEncoded(data: seq<byte>, i: nat)
    requires i < |data| && i % 3 == 0
    ensures |Text(Sextets(data[..i]))| == i / 3 * 4
    ensures Text(Sextets(data[..i])) + Group(data, i) <= Encoded(data)
  {
    hide Sextets, Text, Group;
    SextetCount(data[..i]);
    if i + 3 <= |data| {
      WholeGroup(data, i);
      SextetsPrefix(data, i + 3);
      TextPrefix(Sextets(data[..i + 3]), Sextets(data));
      TextAppend(Sextets(data), Tail(data));
    } else if i + 2 == |data| {
      TwoBytesLeft(data, i);
    } else {
      OneByteLeft(data, i);
    }
  }

  lemma {:induction false} EncodedLength(data: seq<byte>)
    ensures |Encoded(data)| == (|data| + 2) / 3 * 4
  {
    hide Sextets;
    SextetCount(data);
  }

  lemma {:induction false} GroupMoves(a: string, g: string, s: string, data: seq<byte>, i: nat)
    requires a + g <= s && i < |data| && |g| == 4 && IsGroupAt(g, 0, data, i)
    ensures IsGroupAt(s, |a|, data, i)
  {
    hide GroupNumber;
    assert forall k :: 0 <= k < 4 ==> s[|a| + k] == (a + g)[|a| + k] == g[k];
  }

  /** The encoded text is exactly the groups of the data: four characters for every three bytes or
      part of three, each group the base-64 digits of its number. */
  lemma {:induction false} EncodedExactly(data: seq<byte>)
    ensures |Encoded(data)| == (|data| + 2) / 3 * 4
    ensures forall i :: 0 <= i < |data| && i % 3 == 0 ==> IsGroupAt(Encoded(data), i / 3 * 4, data, i)
  {
    hide Sextets, Text, Group, Encoded, IsGroupAt;
    EncodedLength(data);
    forall i | 0 <= i < |data| && i % 3 == 0
      ensures IsGroupAt(Encoded(data), i / 3 * 4, data, i)
    {
      GroupInEncoded(data, i);
      GroupIs(data, i);
      GroupMoves(Text(Sextets(data[..i])), Group(data, i), Encoded(data), data, i);
    }
  }

  // ------------------------------------------------------------------ decoding

  /** The first characters of the text are in the alphabet. */
  predicate InAlphabet(s: string) {
    forall i :: 0 <= i < |s| ==> s[i] in TABLE
  }

  lemma {:induction false} ValuesAre(s: string)
    requires InAlphabet(s)
    ensures |Values(s)| == |s| && forall i :: 0 <= i < |s| ==> Values(s)[i] == DigitValue(s[i])
  {
    hide DigitValue;
    if s != "" {
      assert s[0] in TABLE;
      DigitValueIsPosition(s[0]);
      ValuesAre(s[1..]);
    }
  }

  lemma {:induction false} ValuesStop(s: string, k: nat)
    requires k < |s| && s[k] !in TABLE && InAlphabet(s[..k])
    ensures Values(s) == Values(s[..k])
    decreases k
  {
    hide DigitValue;
    DigitValueIsPosition(s[0]);
    if k > 0 {
      var front := s[..k];
      assert front[0] == s[0] && front[1..] == s[1..][..k - 1];
      ValuesStop(s[1..], k - 1);
    }
  }

  /** Decoding stops at the first character outside the alphabet. */
  lemma {:induction false} DecodingStops(s: string, k: nat)
    requires k < |s| && s[k] !in TABLE && InAlphabet(s[..k])
    ensures Decoded(s) == Decoded(s[..k])
  {
    ValuesStop(s, k);
  }

  lemma {:induction false} OctetCount(qs: seq<sextet>)
    ensures |Octets(qs)| == |qs| * 3 / 4
  {
    if qs != [] {
      var n := |qs| - 1;
      OctetCount(qs[..n]);
      CountStep(n);
    }
  }

  lemma {:induction false} CountStep(n: nat)
    ensures (n + 1) * 3 / 4 == n * 3 / 4 + if n % 4 == 0 then 0 else 1
  {
    var q, r := n / 4, n % 4;
    DivModIs(n * 3, 4, 3 * q + r * 3 / 4, r * 3 % 4);
    DivModIs((n + 1) * 3, 4, 3 * q + (r + 1) * 3 / 4, (r + 1) * 3 % 4);
  }

  lemma {:induction false} OctetsPrefix(qs: seq<sextet>, k: nat)
    requires k <= |qs|
    ensures Octets(qs[..k]) <= Octets(qs)
    decreases |qs|
  {
    if k == |qs| {
      assert qs[..k] == qs;
    } else {
      hide Completed;
      var front := qs[..|qs| - 1];
      assert front[..k] == qs[..k];
      OctetsPrefix(front, k);
    }
  }

  /** Four sextets make the three bytes of their number. */
  lemma {:induction false} FourSextets(qs: seq<sextet>, a: sextet, b: sextet, c: sextet, d: sextet)
    requires |qs| % 4 == 0
    ensures var n := a * 262144 + b * 4096 + c * 64 + d;
            Octets(qs + [a, b, c, d]) == Octets(qs) + [n / 65536, n / 256 % 256, n % 256]
  {
    hide Octets, LastSextet;
    FirstTwo(qs, a, b);
    var q2 := qs + [a, b];
    TwoMoreOctets(q2, c, d);
    assert qs + [a, b, c, d] == q2 + [c, d];
    assert LastSextet(q2) == b by { LastOf(qs + [a], b); assert q2 == qs + [a] + [b]; }
    NumberBytes(a, b, c, d);
    var o := Octets(qs);
    assert o + [a * 4 + b / 16] + [b % 16 * 16 + c / 4] + [c % 4 * 64 + d]
        == o + [a * 4 + b / 16, b % 16 * 16 + c / 4, c % 4 * 64 + d];
  }

  lemma {:induction false} LastOf(qs: seq<sextet>, q: sextet)
    ensures LastSextet(qs + [q]) == q
  {
  }

  lemma {:induction false} FirstTwo(qs: seq<sextet>, a: sextet, b: sextet)
    requires |qs| % 4 == 0
    ensures Octets(qs + [a, b]) == Octets(qs) + [a * 4 + b / 16]
  {
    hide Octets, LastSextet;
    TwoMoreOctets(qs, a, b);
  }

  lemma {:induction false} NumberBytes(a: sextet, b: sextet, c: sextet, d: sextet)
    ensures var n := a * 262144 + b * 4096 + c * 64 + d;
            && n / 65536 == a * 4 + b / 16 && n / 256 % 256 == b % 16 * 16 + c / 4 && n % 256 == c % 4 * 64 + d
  {
    var n := a * 262144 + b * 4096 + c * 64 + d;
    DivModIs(n, 65536, a * 4 + b / 16, b % 16 * 4096 + c * 64 + d);
    DivModIs(n, 256, a * 1024 + b * 16 + c / 4, c % 4 * 64 + d);
    DivModIs(a * 1024 + b * 16 + c / 4, 256, a * 4 + b / 16, b % 16 * 16 + c / 4);
  }

  lemma {:induction false} ValueAt(s: string, i: nat, a: sextet)
    requires i < |s| && InAlphabet(s) && |TABLE| == 64 && s[i] == TABLE[a]
    ensures |Values(s)| == |s| && Values(s)[i] == a
  {
    hide DigitValue, Values;
    ValuesAre(s);
    DigitValueIsPosition(s[i]);
  }

  /** The number with four given base-64 digits. */
  function FourDigits(a: nat, b: nat, c: nat, d: nat): nat {
    a * 262144 + b * 4096 + c * 64 + d
  }

  /** The octets at the place of four sextets. */
  lemma {:induction false} OctetsAt(qs: seq<sextet>, j: nat)
    requires j % 4 == 0 && j + 4 <= |qs|
    ensures var n, at := FourDigits(qs[j], qs[j + 1], qs[j + 2], qs[j + 3]), j / 4 * 3;
            && |Octets(qs)| == |qs| * 3 / 4 && at + 3 <= |Octets(qs)|
            && Octets(qs)[at..at + 3] == [n / 65536, n / 256 % 256, n % 256]
  {
    hide Octets;
    assert qs[..j + 4] == qs[..j] + [qs[j], qs[j + 1], qs[j + 2], qs[j + 3]];
    FourSextets(qs[..j], qs[j], qs[j + 1], qs[j + 2], qs[j + 3]);
    OctetsPrefix(qs, j + 4);
    OctetCount(qs);
    OctetCount(qs[..j]);
    DivModIs(j * 3, 4, j / 4 * 3, 0);
  }

  /** Every four characters of the alphabet decode to the three bytes of the number they spell. */
  lemma {:induction false} DecodedGroup(s: string, j: nat, a: sextet, b: sextet, c: sextet, d: sextet)
    requires j % 4 == 0 && j + 4 <= |s| && InAlphabet(s) && |TABLE| == 64
    requires s[j] == TABLE[a] && s[j + 1] == TABLE[b] && s[j + 2] == TABLE[c] && s[j + 3] == TABLE[d]
    ensures var n, at := FourDigits(a, b, c, d), j / 4 * 3;
            && |Decoded(s)| == |s| * 3 / 4 && at + 3 <= |Decoded(s)|
            && Decoded(s)[at..at + 3] == [n / 65536, n / 256 % 256, n % 256]
  {
    hide Octets, Values, InAlphabet;
    ValueAt(s, j, a);
    ValueAt(s, j + 1, b);
    ValueAt(s, j + 2, c);
    ValueAt(s, j + 3, d);
    OctetsAt(Values(s), j);
  }

  lemma {:induction false} ShortNumbers(a: sextet, b: sextet, c: sextet)
    ensures FourDigits(a, b, 0, 0) / 65536 == a * 4 + b / 16
    ensures FourDigits(a, b, c, 0) / 65536 == a * 4 + b / 16
    ensures FourDigits(a, b, c, 0) / 256 % 256 == b % 16 * 16 + c / 4
  {
    NumberBytes(a, b, 0, 0);
    NumberBytes(a, b, c, 0);
  }

  lemma {:induction false} OctetsEnd(qs: seq<sextet>, a: sextet, b: sextet, c: sextet)
    requires |qs| % 4 == 0
    ensures Octets(qs + [a]) == Octets(qs)
    ensures Octets(qs + [a, b]) == Octets(qs) + [FourDigits(a, b, 0, 0) / 65536]
    ensures var n := FourDigits(a, b, c, 0);
            Octets(qs + [a, b, c]) == Octets(qs) + [n / 65536, n / 256 % 256]
  {
    hide Octets, FourDigits;
    OctetsSnoc(qs, a);
    FirstTwo(qs, a, b);
    OctetsSnoc(qs + [a, b], c);
    assert qs + [a, b, c] == qs + [a, b] + [c];
    assert LastSextet(qs + [a, b]) == b;
    ShortNumbers(a, b, c);
    assert Octets(qs) + [a * 4 + b / 16] + [b % 16 * 16 + c / 4] == Octets(qs) + [a * 4 + b / 16, b % 16 * 16 + c / 4];
  }

  /** One, two or three characters at the end decode to the whole bytes they hold. */
  lemma {:induction false} DecodedEnd(s: string, a: sextet, b: sextet, c: sextet)
    requires InAlphabet(s) && |s| % 4 == 0 && |TABLE| == 64
    ensures Decoded(s + [TABLE[a]]) == Decoded(s)
    ensures Decoded(s + [TABLE[a], TABLE[b]]) == Decoded(s) + [FourDigits(a, b, 0, 0) / 65536]
    ensures var n := FourDigits(a, b, c, 0);
            Decoded(s + [TABLE[a], TABLE[b], TABLE[c]]) == Decoded(s) + [n / 65536, n / 256 % 256]
  {
    hide Octets, Values, InAlphabet, FourDigits;
    var qs := Values(s);
    ValuesSnoc(s, a);
    ValuesSnoc(s + [TABLE[a]], b);
    ValuesSnoc(s + [TABLE[a]] + [TABLE[b]], c);
    assert s + [TABLE[a], TABLE[b]] == s + [TABLE[a]] + [TABLE[b]] && qs + [a, b] == qs + [a] + [b];
    assert s + [TABLE[a], TABLE[b], TABLE[c]] == s + [TABLE[a]] + [TABLE[b]] + [TABLE[c]];
    assert qs + [a, b, c] == qs + [a] + [b] + [c];
    ValuesAre(s);
    OctetsEnd(qs, a, b, c);
  }

  lemma {:induction false} ValuesSnoc(s: string, a: sextet)
    requires InAlphabet(s) && |TABLE| == 64
    ensures InAlphabet(s + [TABLE[a]]) && Values(s + [TABLE[a]]) == Values(s) + [a]
  {
    hide DigitValue, Values;
    var t := s + [TABLE[a]];
    assert t[|s|] == TABLE[a] && TABLE[a] in TABLE;
    assert InAlphabet(t);
    ValuesAre(s);
    ValuesAre(t);
    DigitValueIsPosition(TABLE[a]);
  }
}
