/** Percent-decoding in the bundled HTTP library, with its four-digit Unicode escapes. */
module UrlDecoding {
  import opened Json
  import Numerals
  import Query
  import Utf8

  /** `cnt` hexadecimal digits from position `i`. */
  function HexAt(s: string, i: nat, cnt: nat): (v: Option<nat>)
    decreases cnt
  {
    if i + cnt > |s| then None
    else if cnt == 0 then Some(0)
    else
      var front, d := HexAt(s, i, cnt - 1), Numerals.DigitValue(s[i + cnt - 1]);
      if front.None? || d == 16 then None else Some(front.value * 16 + d)
  }

  lemma {:induction false} HexBound(s: string, i: nat, cnt: nat)
    requires cnt == 2 || cnt == 4
    ensures var v := HexAt(s, i, cnt); v.Some? ==> v.value < if cnt == 2 then 256 else 65536
  {
    if i + cnt <= |s| {
      var v1 := HexAt(s, i, 1);
      assert v1.Some? ==> v1.value < 16;
      var v2 := HexAt(s, i, 2);
      assert v2.Some? ==> v2.value < 256;
      if cnt == 4 {
        var v3 := HexAt(s, i, 3);
        assert v3.Some? ==> v3.value < 4096;
      }
    }
  }

  /** UTF-8 of a code of at most four hexadecimal digits; nothing for a surrogate. */
  function Encoding(code: nat): (r: string)
    requires code < 65536
    ensures |r| <= 3
  {
    if code < 0x80 then [code as char]
    else if code < 0x800 then [(0xC0 + code / 64) as char, (0x80 + code % 64) as char]
    else if 0xD800 <= code < 0xE000 then ""
    else [(0xE0 + code / 4096) as char, (0x80 + code / 64 % 64) as char, (0x80 + code % 64) as char]
  }

  /** The escape at the beginning of a text: what it stands for and its length. */
  function Escape(s: string): (e: Option<(string, nat)>)
    ensures e.Some? ==> 3 <= e.value.1 <= |s| && |e.value.0| <= 3
  {
    if |s| < 2 || s[0] != '%' then None
    else if s[1] == 'u' then
      HexBound(s, 2, 4);
      if HexAt(s, 2, 4).None? then None else Some((Encoding(HexAt(s, 2, 4).value), 6))
    else
      HexBound(s, 1, 2);
      if HexAt(s, 1, 2).None? then None else Some(([HexAt(s, 1, 2).value as char], 3))
  }

  function DecodedUrl(s: string, plusIsSpace: bool): string {
    if s == "" then ""
    else
      match Escape(s)
      case Some(e) => e.0 + DecodedUrl(s[e.1..], plusIsSpace)
      case None => [if plusIsSpace && s[0] == '+' then ' ' else s[0]] + DecodedUrl(s[1..], plusIsSpace)
  }

  /** Decoding never makes a text longer. */
  lemma {:induction false} DecodedShorter(s: string, plusIsSpace: bool)
    ensures |DecodedUrl(s, plusIsSpace)| <= |s|
    decreases |s|
  {
    hide Escape;
    if s != "" {
      var e := Escape(s);
      DecodedShorter(if e.Some? then s[e.value.1..] else s[1..], plusIsSpace);
    }
  }

  /** A four-digit escape stands for well-formed UTF-8. */
  lemma {:induction false} EncodingIsUtf8(code: nat)
    requires code < 65536
    ensures Utf8.IsUtf8(Encoding(code))
  {
    hide Utf8.IsUtf8;
    var s := Encoding(code);
    OneCharacter(s);
  }

  lemma {:induction false} OneCharacter(s: string)
    requires s == "" || Utf8.CharLength(s) == |s|
    ensures Utf8.IsUtf8(s)
  {
  }

  // ------------------------------------------------------------------ the loops

  method FromHexToI(s: string, i: nat, cnt: nat) returns (ok: bool, val: nat)
    ensures ok <==> HexAt(s, i, cnt).Some? && i < |s|
    ensures ok ==> HexAt(s, i, cnt) == Some(val)
  {
    val := 0;
    if i >= |s| { return false, val; }
    for k := 0 to cnt
      invariant HexAt(s, i, k) == Some(val)
    {
      // the string ends in a NUL
      if i + k == |s| || Numerals.DigitValue(s[i + k]) == 16 {
        NoHexBeyond(s, i, k + 1, cnt);
        return false, val;
      }
      val := val * 16 + Numerals.DigitValue(s[i + k]);
    }
    ok := true;
  }

  lemma {:induction false} NoHexBeyond(s: string, i: nat, k: nat, cnt: nat)
    requires k <= cnt && HexAt(s, i, k).None?
    ensures HexAt(s, i, cnt).None?
    decreases cnt
  {
    if k < cnt { NoHexBeyond(s, i, k, cnt - 1); }
  }

  /** One turn of the loop: what is appended, and how far it goes on. */
  method DecodeAt(s: string, i: nat, plusIsSpace: bool) returns (piece: string, length: nat)
    requires i < |s|
    ensures var e := Escape(s[i..]);
            && (e.Some? ==> piece == e.value.0 && length == e.value.1)
            && (e.None? ==> piece == [if plusIsSpace && s[i] == '+' then ' ' else s[i]] && length == 1)
  {
    hide HexAt, Escape, Encoding;
    EscapeAt(s, i);
    length := 1;
    if s[i] == '%' && i + 1 < |s| {
      if s[i + 1] == 'u' {
        var ok, val := FromHexToI(s, i + 2, 4);
        if ok {
          return Encoding(val), 6;
        }
      } else {
        var ok, val := FromHexToI(s, i + 1, 2);
        if ok {
          return [val as char], 3;
        }
      }
      piece := [s[i]];
    } else if plusIsSpace && s[i] == '+' {
      piece := " ";
    } else {
      piece := [s[i]];
    }
  }

  method DecodeUrl(s: string, plusIsSpace: bool) returns (result: string)
    ensures result == DecodedUrl(s, plusIsSpace)
  {
    hide HexAt, DecodedUrl, Escape, Encoding;
    result := "";
    assert s[0..] == s;
    var i := 0;
    while i < |s|
      invariant 0 <= i <= |s| && result + DecodedUrl(s[i..], plusIsSpace) == DecodedUrl(s, plusIsSpace)
    {
      DecodedStep(s, i, plusIsSpace);
      ghost var was := result;
      var piece, length := DecodeAt(s, i, plusIsSpace);
      result := result + piece;
      i := i + length;
      assert was + (piece + DecodedUrl(s[i..], plusIsSpace)) == result + DecodedUrl(s[i..], plusIsSpace);
    }
    assert s[|s|..] == "";
    DecodedNothing(plusIsSpace);
  }

  lemma {:induction false} DecodedNothing(plusIsSpace: bool)
    ensures DecodedUrl("", plusIsSpace) == ""
  {
  }

  lemma {:induction false} DecodedStep(s: string, i: nat, plusIsSpace: bool)
    requires i < |s|
    ensures var e := Escape(s[i..]);
            && (e.Some? ==> DecodedUrl(s[i..], plusIsSpace) == e.value.0 + DecodedUrl(s[i + e.value.1..], plusIsSpace))
            && (e.None? ==> DecodedUrl(s[i..], plusIsSpace)
                            == [if plusIsSpace && s[i] == '+' then ' ' else s[i]] + DecodedUrl(s[i + 1..], plusIsSpace))
  {
    hide Escape;
    var t, e := s[i..], Escape(s[i..]);
    assert t[1..] == s[i + 1..];
    if e.Some? { assert t[e.value.1..] == s[i + e.value.1..]; }
  }

  lemma {:induction false} HexShift(s: string, i: nat, j: nat, cnt: nat)
    requires i <= |s|
    ensures HexAt(s[i..], j, cnt) == HexAt(s, i + j, cnt)
    decreases cnt
  {
    if cnt > 0 { HexShift(s, i, j, cnt - 1); }
  }

  lemma {:induction false} HexInside(s: string, i: nat, cnt: nat)
    requires HexAt(s, i, cnt).Some?
    ensures i + cnt <= |s|
  {
  }

  /** The escape at a position, as the loop finds it. */
  lemma {:induction false} EscapeAt(s: string, i: nat)
    requires i < |s|
    ensures var e := Escape(s[i..]);
            && (e.Some? ==> s[i] == '%' && i + 1 < |s|)
            && (s[i] == '%' && i + 1 < |s| && s[i + 1] == 'u' ==>
                  var v := HexAt(s, i + 2, 4);
                  && (v.None? <==> e.None?)
                  && (v.Some? ==> i + 6 <= |s| && v.value < 65536 && e == Some((Encoding(v.value), 6))))
            && (s[i] == '%' && i + 1 < |s| && s[i + 1] != 'u' ==>
                  var v := HexAt(s, i + 1, 2);
                  && (v.None? <==> e.None?)
                  && (v.Some? ==> i + 3 <= |s| && v.value < 256 && e == Some(([v.value as char], 3))))
  {
    hide HexAt, Encoding;
    HexShift(s, i, 2, 4);
    HexShift(s, i, 1, 2);
    HexBound(s, i + 2, 4);
    HexBound(s, i + 1, 2);
    if HexAt(s, i + 2, 4).Some? { HexInside(s, i + 2, 4); }
    if HexAt(s, i + 1, 2).Some? { HexInside(s, i + 1, 2); }
  }

  // ------------------------------------------------------------------ round trip

  lemma {:induction false} EscapeReads(c: char, rest: string)
    requires c < 256 as char && !Query.IsUnreserved(c)
    ensures Escape(Query.EncodedChar(c) + rest) == Some(([c], 3))
  {
    var t, n := Query.EncodedChar(c) + rest, c as nat;
    assert t[1] == Query.UpperHex(n / 16) && t[2] == Query.UpperHex(n % 16);
    assert HexAt(t, 1, 0) == Some(0);
    assert HexAt(t, 1, 1) == Some(n / 16);
    assert HexAt(t, 1, 2) == Some(n / 16 * 16 + n % 16);
  }

  /** What the REST client encodes the bundled server decodes, `%` and `+` included. */
  lemma {:induction false} DecodedEncoded(s: string, plusIsSpace: bool)
    requires Query.IsBytes(s)
    ensures DecodedUrl(Query.Encoded(s), plusIsSpace) == s
    decreases |s|
  {
    hide Escape, Query.UpperHex, Query.IsUnreserved;
    if s != "" {
      var rest := Query.Encoded(s[1..]);
      DecodedEncoded(s[1..], plusIsSpace);
      if Query.IsUnreserved(s[0]) {
        assert Query.Encoded(s) == [s[0]] + rest;
        assert s[0] != '%' && s[0] != '+' by { Unescaped(s[0]); }
        assert Escape([s[0]] + rest) == None by { NoEscape([s[0]] + rest); }
        assert ([s[0]] + rest)[1..] == rest;
      } else {
        EscapeReads(s[0], rest);
        assert (Query.EncodedChar(s[0]) + rest)[3..] == rest;
      }
    }
  }

  lemma {:induction false} Unescaped(c: char)
    requires Query.IsUnreserved(c)
    ensures c != '%' && c != '+'
  {
  }

  lemma {:induction false} NoEscape(s: string)
    requires s != "" && s[0] != '%'
    ensures Escape(s) == None
  {
  }
}
