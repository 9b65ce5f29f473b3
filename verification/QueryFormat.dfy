/** What stands in encoded texts and query strings, character by character, and what is read from them. */
module QueryFormat {
  import opened Json
  import opened Numerals
  import opened Query
  import opened Text
  import opened UrlDecoding
  import Utf8

  // ------------------------------------------------------------------ encoding

  /** The characters that stand for themselves. */
  const UNRESERVED: string := A_TO_M + N_TO_Z + CAPITAL_A_TO_M + CAPITAL_N_TO_Z + ZERO_TO_NINE + MARKS
  const A_TO_M := "abcdefghijklm"
  const N_TO_Z := "nopqrstuvwxyz"
  const CAPITAL_A_TO_M := "ABCDEFGHIJKLM"
  const CAPITAL_N_TO_Z := "NOPQRSTUVWXYZ"
  const ZERO_TO_NINE := "0123456789"
  const MARKS := "-_.~"

  predicate Runs(s: string, first: char) {
    forall i :: 0 <= i < |s| ==> s[i] as nat == first as nat + i
  }

  lemma {:induction false} InRun(c: char, s: string, first: char)
    requires Runs(s, first)
    ensures c in s <==> first as nat <= c as nat < first as nat + |s|
  {
    if first as nat <= c as nat < first as nat + |s| {
      assert s[c as nat - first as nat] == c;
    }
  }

  lemma {:induction false} SmallRuns()
    ensures Runs(A_TO_M, 'a') && |A_TO_M| == 13
    ensures Runs(N_TO_Z, 'n') && |N_TO_Z| == 13
  {
  }

  lemma {:induction false} CapitalRuns()
    ensures Runs(CAPITAL_A_TO_M, 'A') && |CAPITAL_A_TO_M| == 13
    ensures Runs(CAPITAL_N_TO_Z, 'N') && |CAPITAL_N_TO_Z| == 13
  {
  }

  lemma {:induction false} OtherRuns(c: char)
    ensures Runs(ZERO_TO_NINE, '0') && |ZERO_TO_NINE| == 10
    ensures c in MARKS <==> c == '-' || c == '_' || c == '.' || c == '~'
  {
  }

  lemma {:induction false} Listed(c: char)
    ensures c in UNRESERVED <==>
      c in A_TO_M || c in N_TO_Z || c in CAPITAL_A_TO_M || c in CAPITAL_N_TO_Z || c in ZERO_TO_NINE || c in MARKS
  {
    hide A_TO_M, N_TO_Z, CAPITAL_A_TO_M, CAPITAL_N_TO_Z, ZERO_TO_NINE, MARKS;
  }

  lemma {:induction false} UnreservedIsListed(c: char)
    ensures IsUnreserved(c) <==> c in UNRESERVED
  {
    hide UNRESERVED, A_TO_M, N_TO_Z, CAPITAL_A_TO_M, CAPITAL_N_TO_Z, ZERO_TO_NINE, MARKS, Runs;
    Listed(c);
    SmallRuns();
    CapitalRuns();
    OtherRuns(c);
    InRun(c, A_TO_M, 'a');
    InRun(c, N_TO_Z, 'n');
    InRun(c, CAPITAL_A_TO_M, 'A');
    InRun(c, CAPITAL_N_TO_Z, 'N');
    InRun(c, ZERO_TO_NINE, '0');
  }

  /** What a byte is encoded as: itself or a percent sign and its two digits. */
  lemma {:induction false} EncodedOne(c: char)
    requires c < 256 as char
    ensures Encoded([c]) ==
      if c in UNRESERVED then [c] else ['%', UPPER[c as nat / 16], UPPER[c as nat % 16]]
  {
    hide UNRESERVED, UpperHex, IsUnreserved;
    var n := c as nat;
    UnreservedIsListed(c);
    UpperIsTable(n / 16);
    UpperIsTable(n % 16);
    assert [c][1..] == "";
  }

  lemma {:induction false} UpperIsTable(d: nat)
    requires d < 16
    ensures UpperHex(d) == UPPER[d]
  {
  }

  /** Each byte is encoded by itself. */
  lemma {:induction false} EncodedOfTwo(s: string, t: string)
    requires IsBytes(s) && IsBytes(t)
    ensures IsBytes(s + t) && Encoded(s + t) == Encoded(s) + Encoded(t)
  {
    hide EncodedChar;
    if s == "" {
      assert s + t == t;
    } else {
      EncodedOfTwo(s[1..], t);
      assert (s + t)[1..] == s[1..] + t;
    }
  }

  // ------------------------------------------------------------------ query strings

  /** A query string begins with a question mark, and the parameters are written `key=value` with `&`
      between them. */
  lemma {:induction false} QueryStringGrows(ps: seq<Param>, p: Param)
    requires AreBytes(ps) && IsBytes(p.key) && IsBytes(p.value)
    ensures QueryString([]) == "" && AreBytes(ps + [p])
    ensures QueryString(ps + [p]) ==
      (if ps == [] then "?" else QueryString(ps) + "&") + Encoded(p.key) + "=" + Encoded(p.value)
  {
    hide Encoded, IsBytes, Joined;
    if ps == [] {
      assert ps + [p] == [p];
      JoinedOne(p);
    } else {
      JoinedGrows(ps, p);
      assert "?" + Joined(ps) + "&" + Pair(p) == "?" + (Joined(ps) + "&" + Pair(p));
    }
  }

  lemma {:induction false} JoinedOne(p: Param)
    requires IsBytes(p.key) && IsBytes(p.value)
    ensures Joined([p]) == Pair(p)
  {
  }

  lemma {:induction false} JoinedGrows(ps: seq<Param>, p: Param)
    requires ps != [] && AreBytes(ps) && IsBytes(p.key) && IsBytes(p.value)
    ensures AreBytes(ps + [p]) && Joined(ps + [p]) == Joined(ps) + "&" + Pair(p)
  {
    hide Pair, IsBytes;
    if |ps| == 1 {
      JoinedOne(p);
      assert (ps + [p])[1..] == [p];
    } else {
      JoinedGrows(ps[1..], p);
      assert (ps + [p])[1..] == ps[1..] + [p];
    }
  }

  // ------------------------------------------------------------------ parsing

  /** What one piece of a query says: `key=value`, a key alone, or nothing. */
  lemma {:induction false} StoredSays(out: map<string, string>, key: string, value: string)
    requires Lacks(key, '=')
    ensures Stored(out, key + "=" + value) == out[Decoded(key) := Decoded(value)]
    ensures Stored(out, key) == if key == "" then out else out[Decoded(key) := ""]
  {
    hide Decoded;
    var pair := key + "=" + value;
    FindCharIs(pair, '=', 0, |key|);
    FindCharIs(key, '=', 0, |key|);
    assert pair[..|key|] == key && pair[|key| + 1..] == value;
  }

  lemma {:induction false} ParsedFromGrows(qs: string, start: nat, out: map<string, string>, pair: string)
    requires start <= |qs| && Lacks(pair, '&')
    ensures ParsedFrom(qs + "&" + pair, start, out) == Stored(ParsedFrom(qs, start, out), pair)
    decreases |qs| - start
  {
    hide Stored, FindChar;
    var all := qs + "&" + pair;
    var end := FindChar(qs, '&', start);
    assert forall j :: start <= j < end ==> all[j] == qs[j];
    FindCharIs(all, '&', start, end);
    assert all[start..end] == qs[start..end];
    if end < |qs| {
      ParsedFromGrows(qs, end + 1, Stored(out, qs[start..end]), pair);
    } else {
      FindCharIs(all, '&', end + 1, |all|);
      assert all[end + 1..|all|] == pair;
    }
  }

  lemma {:induction false} ParsedIs(path: string, qs: string)
    requires Lacks(path, '?') && Lacks(qs, '#')
    ensures Parsed(path + "?" + qs) == ParsedFrom(qs, 0, map[])
  {
    hide ParsedFrom;
    var url := path + "?" + qs;
    FindCharIs(url, '?', 0, |path|);
    assert url[|path| + 1..] == qs;
    FindCharIs(qs, '#', 0, |qs|);
    assert qs[..|qs|] == qs;
  }

  /** The pieces of a query are what stands between the `&`, a later one overriding an earlier one of the
      same key. */
  lemma {:induction false} ParsedGrows(path: string, qs: string, pair: string)
    requires Lacks(path, '?') && Lacks(qs, '#') && Lacks(pair, '#') && Lacks(pair, '&')
    ensures Parsed(path + "?" + pair) == Stored(map[], pair)
    ensures Parsed(path + "?" + qs + "&" + pair) == Stored(Parsed(path + "?" + qs), pair)
  {
    hide Stored, Parsed;
    ParsedIs(path, pair);
    ParsedIs(path, qs);
    ParsedIs(path, qs + "&" + pair);
    assert path + "?" + qs + "&" + pair == path + "?" + (qs + "&" + pair);
    ParsedFromGrows(qs, 0, map[], pair);
    PairParses("", pair, "", map[]);
    assert "" + pair == pair;
  }

  /** There are no parameters without a question mark, and a fragment is none. */
  lemma {:induction false} FragmentIsIgnored(path: string, qs: string, fragment: string)
    requires Lacks(path, '?') && Lacks(qs, '#')
    ensures Parsed(path) == map[]
    ensures Parsed(path + "?" + qs + "#" + fragment) == Parsed(path + "?" + qs)
  {
    hide ParsedFrom;
    var url := path + "?" + qs + "#" + fragment;
    FindCharIs(path, '?', 0, |path|);
    FindCharIs(url, '?', 0, |path|);
    var query := url[|path| + 1..];
    assert query == qs + "#" + fragment;
    FindCharIs(query, '#', 0, |qs|);
    assert query[..|qs|] == qs;
    ParsedIs(path, qs);
  }

  // ------------------------------------------------------------------ decoding

  /** A hexadecimal digit of either case. */
  predicate IsDigit(c: char, d: nat) {
    d < 16 && (c == LOWER[d] || c == UPPER[d])
  }

  lemma {:induction false} DigitIs(c: char, d: nat)
    requires IsDigit(c, d)
    ensures d < 16 && Numerals.DigitValue(c) == d
  {
    hide Numerals.DigitValue;
    DigitsAreTables(c, d);
  }

  /** The query decoder: a plus sign is a blank, a percent sign with two digits is a byte, and everything
      else stands for itself. */
  lemma {:induction false} DecodedReads(c: char, x: char, y: char, i: nat, j: nat, t: string)
    requires IsDigit(x, i) && IsDigit(y, j)
    ensures Decoded("") == "" && Decoded("+" + t) == " " + Decoded(t)
    ensures Decoded(['%', x, y] + t) == [(i * 16 + j) as char] + Decoded(t)
    ensures c != '+' && c != '%' ==> Decoded([c] + t) == [c] + Decoded(t)
  {
    hide Decoded, IsDigit;
    DigitIs(x, i);
    DigitIs(y, j);
    Query.DecodedNothing();
    DecodedFirst("+" + t);
    DecodedFirst(['%', x, y] + t);
    DecodedFirst([c] + t);
    var escaped := ['%', x, y] + t;
    assert escaped[1] == x && escaped[2] == y && escaped[3..] == t;
    assert ("+" + t)[1..] == t && ([c] + t)[1..] == t;
  }

  lemma {:induction false} DecodedFirst(s: string)
    requires s != ""
    ensures s[0] == '+' ==> Decoded(s) == " " + Decoded(s[1..])
    ensures s[0] == '%' && |s| > 2 && IsHex(s[1]) && IsHex(s[2]) ==>
      Decoded(s) == [(Numerals.DigitValue(s[1]) * 16 + Numerals.DigitValue(s[2])) as char] + Decoded(s[3..])
    ensures s[0] != '+' && s[0] != '%' ==> Decoded(s) == [s[0]] + Decoded(s[1..])
  {
  }

  /** What is left of an escape that is cut off or has no digit: the percent sign stands for itself. */
  lemma {:induction false} NotAnEscape(s: string)
    requires s != "" && s[0] == '%'
    requires |s| < 3 || forall d :: 0 <= d < 16 ==> !IsDigit(s[1], d) && !IsDigit(s[2], d)
    ensures Decoded(s) == "%" + Decoded(s[1..])
  {
    hide IsDigit, Numerals.DigitValue;
    if |s| >= 3 {
      NoDigit(s[1]);
      NoDigit(s[2]);
    }
  }

  lemma {:induction false} NoDigit(c: char)
    requires forall d :: 0 <= d < 16 ==> !IsDigit(c, d)
    ensures Numerals.DigitValue(c) == 16
  {
    hide Numerals.DigitValue, IsDigit;
    if Numerals.DigitValue(c) < 16 {
      SomeDigit(c, Numerals.DigitValue(c));
      assert false;
    }
  }

  lemma {:induction false} SomeDigit(c: char, d: nat)
    requires Numerals.DigitValue(c) == d < 16
    ensures IsDigit(c, d)
  {
    hide Numerals.DigitValue;
    DigitsAreTables(c, d);
  }

  // ------------------------------------------------------------------ the decoder of the server

  /** The same escapes in the server's decoder. */
  lemma {:induction false} ServerReads(c: char, x: char, y: char, i: nat, j: nat, t: string, plusIsSpace: bool)
    requires IsDigit(x, i) && IsDigit(y, j)
    ensures DecodedUrl("", plusIsSpace) == ""
    ensures DecodedUrl("+" + t, plusIsSpace) == (if plusIsSpace then " " else "+") + DecodedUrl(t, plusIsSpace)
    ensures DecodedUrl(['%', x, y] + t, plusIsSpace) == [(i * 16 + j) as char] + DecodedUrl(t, plusIsSpace)
    ensures c != '+' && c != '%' ==> DecodedUrl([c] + t, plusIsSpace) == [c] + DecodedUrl(t, plusIsSpace)
  {
    hide DecodedUrl, Escape, IsDigit;
    TwoDigits(x, y, i, j, t);
    NoEscape("+" + t);
    if c != '%' { NoEscape([c] + t); }
    UrlDecoding.DecodedNothing(plusIsSpace);
    ServerStep("+" + t, plusIsSpace);
    ServerStep(['%', x, y] + t, plusIsSpace);
    ServerStep([c] + t, plusIsSpace);
    assert ("+" + t)[1..] == t && (['%', x, y] + t)[3..] == t && ([c] + t)[1..] == t;
  }

  lemma {:induction false} ServerStep(s: string, plusIsSpace: bool)
    requires s != ""
    ensures var e := Escape(s);
            && (e.Some? ==> DecodedUrl(s, plusIsSpace) == e.value.0 + DecodedUrl(s[e.value.1..], plusIsSpace))
            && (e.None? ==> DecodedUrl(s, plusIsSpace)
                            == [if plusIsSpace && s[0] == '+' then ' ' else s[0]] + DecodedUrl(s[1..], plusIsSpace))
  {
    hide Escape;
  }

  lemma {:induction false} TwoDigits(x: char, y: char, i: nat, j: nat, t: string)
    requires IsDigit(x, i) && IsDigit(y, j)
    ensures i * 16 + j < 256 && Escape(['%', x, y] + t) == Some(([(i * 16 + j) as char], 3))
  {
    hide Numerals.DigitValue, IsDigit;
    DigitIs(x, i);
    DigitIs(y, j);
    var s := ['%', x, y] + t;
    assert x != 'u' by { NotU(x, i); }
    assert HexAt(s, 1, 0) == Some(0);
    assert HexAt(s, 1, 1) == Some(i);
    assert HexAt(s, 1, 2) == Some(i * 16 + j);
  }

  lemma {:induction false} NotU(x: char, i: nat)
    requires IsDigit(x, i)
    ensures x != 'u' && i < 16
  {
  }

  /** `%u` and four digits spell a character of that number in UTF-8, or nothing for a surrogate. */
  lemma {:induction false} FourDigits(x: string, d: seq<nat>, t: string)
    requires |x| == |d| == 4 && forall i :: 0 <= i < 4 ==> IsDigit(x[i], d[i])
    ensures var code := d[0] * 4096 + d[1] * 256 + d[2] * 16 + d[3];
            && code < 65536
            && Escape("%u" + x + t) == Some((Encoding(code), 6))
  {
    hide Numerals.DigitValue, IsDigit, Encoding;
    DigitIs(x[0], d[0]);
    DigitIs(x[1], d[1]);
    DigitIs(x[2], d[2]);
    DigitIs(x[3], d[3]);
    NotU(x[0], d[0]);
    NotU(x[1], d[1]);
    NotU(x[2], d[2]);
    NotU(x[3], d[3]);
    var s := "%u" + x + t;
    assert HexAt(s, 2, 0) == Some(0);
    assert HexAt(s, 2, 1) == Some(d[0]);
    assert HexAt(s, 2, 2) == Some(d[0] * 16 + d[1]);
    assert HexAt(s, 2, 3) == Some(d[0] * 256 + d[1] * 16 + d[2]);
  }

  /** What it spells is the character of that number. */
  lemma {:induction false} EncodingSpells(code: nat)
    requires code < 65536
    ensures 0xD800 <= code <= 0xDFFF ==> Encoding(code) == ""
    ensures !(0xD800 <= code <= 0xDFFF) ==>
      Utf8.IsCharacter(Encoding(code), |Encoding(code)|)
      && Utf8.CodePoint(Encoding(code), |Encoding(code)|) == code
  {
    hide Utf8.IsCharacter, Utf8.CodePoint, Encoding;
    if code < 0x80 {
      EncodingOne(code);
    } else if code < 0x800 {
      EncodingTwo(code);
    } else {
      EncodingThree(code);
    }
  }

  lemma {:induction false} EncodingOne(code: nat)
    requires code < 0x80
    ensures |Encoding(code)| == 1 && Utf8.IsCharacter(Encoding(code), 1) && Utf8.CodePoint(Encoding(code), 1) == code
  {
  }

  lemma {:induction false} EncodingTwo(code: nat)
    requires 0x80 <= code < 0x800
    ensures |Encoding(code)| == 2 && Utf8.IsCharacter(Encoding(code), 2) && Utf8.CodePoint(Encoding(code), 2) == code
  {
    var r := Encoding(code);
    assert r[0] as int == 0xC0 + code / 64 && Utf8.Low(r[1]) == code % 64;
  }

  lemma {:induction false} EncodingThree(code: nat)
    requires 0x800 <= code < 65536
    ensures 0xD800 <= code <= 0xDFFF ==> Encoding(code) == ""
    ensures !(0xD800 <= code <= 0xDFFF) ==>
      |Encoding(code)| == 3 && Utf8.IsCharacter(Encoding(code), 3) && Utf8.CodePoint(Encoding(code), 3) == code
  {
    if !(0xD800 <= code <= 0xDFFF) {
      var r := Encoding(code);
      assert r[0] as int == 0xE0 + code / 4096;
      assert Utf8.Low(r[1]) == code / 64 % 64 && Utf8.Low(r[2]) == code % 64;
      assert code / 4096 == code / 64 / 64;
      assert code / 64 / 64 * 64 + code / 64 % 64 == code / 64;
    }
  }
}
