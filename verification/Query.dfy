/** Query strings of the REST client: percent-encoding (sections 2.1 and 2.3 of RFC 3986), building
    a query string from parameters and parsing one from the link to a next page. */
module Query {
  import opened Text
  import opened Json
  import opened Numerals

  /** A string of bytes. */
  predicate IsBytes(s: string) {
    forall i :: 0 <= i < |s| ==> s[i] < 256 as char
  }

  datatype Param = Param(key: string, value: string)

  // ------------------------------------------------------------------ encoding

  predicate IsUnreserved(c: char) {
    'a' <= c <= 'z' || 'A' <= c <= 'Z' || '0' <= c <= '9' || c == '-' || c == '_' || c == '.' || c == '~'
  }

  function UpperHex(d: nat): (c: char)
    requires d < 16
    ensures Numerals.DigitValue(c) == d && ('0' <= c <= '9' || 'A' <= c <= 'F')
  {
    if d < 10 then '0' + d as char else 'A' + (d - 10) as char
  }

  function EncodedChar(c: char): string
    requires c < 256 as char
  {
    if IsUnreserved(c) then [c] else ['%', UpperHex(c as nat / 16), UpperHex(c as nat % 16)]
  }

  function Encoded(s: string): string
    requires IsBytes(s)
  {
    if s == "" then "" else EncodedChar(s[0]) + Encoded(s[1..])
  }

  method UrlEncode(value: string) returns (escaped: string)
    requires IsBytes(value)
    ensures escaped == Encoded(value)
  {
    hide Encoded;
    escaped := "";
    assert value[0..] == value;
    for i := 0 to |value|
      invariant escaped + Encoded(value[i..]) == Encoded(value)
    {
      var c := value[i];
      EncodedStep(value, i);
      if IsUnreserved(c) {
        escaped := escaped + [c];
      } else {
        escaped := escaped + ['%'] + [UpperHex(c as nat / 16)] + [UpperHex(c as nat % 16)];
      }
    }
    assert value[|value|..] == "";
    EncodedNothing();
  }

  lemma {:induction false} EncodedNothing()
    ensures Encoded("") == ""
  {
  }

  lemma {:induction false} EncodedStep(s: string, i: nat)
    requires IsBytes(s) && i < |s|
    ensures Encoded(s[i..]) == EncodedChar(s[i]) + Encoded(s[i + 1..])
  {
    hide EncodedChar;
    assert s[i..][1..] == s[i + 1..];
  }

  // ------------------------------------------------------------------ decoding

  predicate IsHex(c: char) {
    Numerals.DigitValue(c) < 16
  }

  /** `std::stoi` with radix 16 on two characters, cut down to a byte: nothing when it throws. */
  function TwoHex(a: char, b: char): Option<char> {
    if IsHex(a) && IsHex(b) then Some((Numerals.DigitValue(a) * 16 + Numerals.DigitValue(b)) as char)
    else if IsHex(a) then Some(Numerals.DigitValue(a) as char)
    else if (In(a, White) || a == '+') && IsHex(b) then Some(Numerals.DigitValue(b) as char)
    else if a == '-' && IsHex(b) then Some(((256 - Numerals.DigitValue(b)) % 256) as char)
    else None
  }

  function Decoded(t: string): string {
    if t == "" then ""
    else if t[0] == '+' then " " + Decoded(t[1..])
    else if t[0] == '%' && |t| > 2 && TwoHex(t[1], t[2]).Some? then [TwoHex(t[1], t[2]).value] + Decoded(t[3..])
    else [t[0]] + Decoded(t[1..])
  }

  method DecodeOne(s: string) returns (out: string)
    ensures out == Decoded(s)
  {
    hide Decoded, TwoHex;
    out := "";
    assert s[0..] == s;
    var i := 0;
    while i < |s|
      invariant 0 <= i <= |s| && out + Decoded(s[i..]) == Decoded(s)
    {
      DecodedStep(s, i);
      if s[i] == '+' {
        out := out + " ";
      } else if s[i] == '%' && i + 2 < |s| {
        var hex := TwoHex(s[i + 1], s[i + 2]);
        if hex.Some? {
          out := out + [hex.value];
          i := i + 2;
        } else {
          out := out + [s[i]];
        }
      } else {
        out := out + [s[i]];
      }
      i := i + 1;
    }
    assert s[i..] == "";
    DecodedNothing();
  }

  lemma {:induction false} DecodedNothing()
    ensures Decoded("") == ""
  {
  }

  lemma {:induction false} DecodedStep(s: string, i: nat)
    requires i < |s|
    ensures var escaped := s[i] == '%' && i + 2 < |s| && TwoHex(s[i + 1], s[i + 2]).Some?;
            && (escaped ==> Decoded(s[i..]) == [TwoHex(s[i + 1], s[i + 2]).value] + Decoded(s[i + 3..]))
            && (!escaped ==> Decoded(s[i..]) == [if s[i] == '+' then ' ' else s[i]] + Decoded(s[i + 1..]))
  {
    hide TwoHex;
    assert s[i..][1..] == s[i + 1..];
    if i + 2 < |s| { assert s[i..][3..] == s[i + 3..]; }
  }

  // ------------------------------------------------------------------ building

  predicate AreBytes(ps: seq<Param>) {
    forall p :: p in ps ==> IsBytes(p.key) && IsBytes(p.value)
  }

  function Pair(p: Param): string
    requires IsBytes(p.key) && IsBytes(p.value)
  {
    Encoded(p.key) + "=" + Encoded(p.value)
  }

  function Joined(ps: seq<Param>): string
    requires ps != [] && AreBytes(ps)
  {
    if |ps| == 1 then Pair(ps[0]) else Pair(ps[0]) + "&" + Joined(ps[1..])
  }

  function QueryString(ps: seq<Param>): string
    requires AreBytes(ps)
  {
    if ps == [] then "" else "?" + Joined(ps)
  }

  /** The parameters come in the order in which the map lists them. */
  method BuildQueryString(ps: seq<Param>) returns (qs: string)
    requires AreBytes(ps)
    ensures qs == QueryString(ps)
  {
    hide Encoded, Joined, IsBytes;
    if ps == [] { return ""; }
    qs := "?";
    var first := true;
    assert ps[0..] == ps;
    for i := 0 to |ps|
      invariant first <==> i == 0
      invariant "?" + Joined(ps) == qs + if i == |ps| then "" else (if first then "" else "&") + Joined(ps[i..])
    {
      JoinedStep(ps, i);
      assert ps[i] in ps;
      if !first { qs := qs + "&"; }
      var k := UrlEncode(ps[i].key);
      var v := UrlEncode(ps[i].value);
      qs := qs + k + "=" + v;
      first := false;
    }
  }

  lemma {:induction false} JoinedStep(ps: seq<Param>, i: nat)
    requires i < |ps| && AreBytes(ps)
    ensures Joined(ps[i..]) == Pair(ps[i]) + if i + 1 == |ps| then "" else "&" + Joined(ps[i + 1..])
  {
    hide Pair, IsBytes;
    assert ps[i..][1..] == ps[i + 1..];
  }

  // ------------------------------------------------------------------ parsing

  function Stored(out: map<string, string>, pair: string): map<string, string> {
    var eq := FindChar(pair, '=', 0);
    if pair == "" then out
    else if eq == |pair| then out[Decoded(pair) := ""]
    else out[Decoded(pair[..eq]) := Decoded(pair[eq + 1..])]
  }

  function ParsedFrom(qs: string, start: nat, out: map<string, string>): map<string, string>
    requires start <= |qs|
    decreases |qs| - start
  {
    var end := FindChar(qs, '&', start);
    var stored := Stored(out, qs[start..end]);
    if end == |qs| then stored else ParsedFrom(qs, end + 1, stored)
  }

  function Parsed(url: string): map<string, string> {
    var q := FindChar(url, '?', 0);
    if q == |url| then map[]
    else
      var qs := url[q + 1..];
      ParsedFrom(qs[..FindChar(qs, '#', 0)], 0, map[])
  }

  method ParseQueryString(url: string) returns (out: map<string, string>)
    ensures out == Parsed(url)
  {
    hide Stored, FindChar;
    out := map[];
    var q := FindChar(url, '?', 0);
    if q == |url| { return; }
    var qs := url[q + 1..];
    qs := qs[..FindChar(qs, '#', 0)];
    var start := 0;
    while true
      invariant start <= |qs| && ParsedFrom(qs, start, out) == Parsed(url)
      decreases |qs| - start
    {
      var end := FindChar(qs, '&', start);
      out := StorePair(out, qs[start..end]);
      if end == |qs| { break; }
      start := end + 1;
    }
  }

  method StorePair(out: map<string, string>, pair: string) returns (r: map<string, string>)
    ensures r == Stored(out, pair)
  {
    hide Decoded;
    r := out;
    if pair != "" {
      var eq := FindChar(pair, '=', 0);
      if eq == |pair| {
        var key := DecodeOne(pair);
        r := r[key := ""];
      } else {
        var key := DecodeOne(pair[..eq]);
        var value := DecodeOne(pair[eq + 1..]);
        r := r[key := value];
      }
    }
  }

  // ------------------------------------------------------------------ round trip

  /** What an encoded string is made of. */
  predicate IsSafe(c: char) {
    IsUnreserved(c) || c == '%'
  }

  predicate AllSafe(s: string) {
    forall i :: 0 <= i < |s| ==> IsSafe(s[i])
  }

  lemma {:induction false} EncodedSafe(s: string)
    requires IsBytes(s)
    ensures AllSafe(Encoded(s))
  {
    if s != "" { EncodedSafe(s[1..]); }
  }

  lemma {:induction false} CharReadsBack(c: char)
    requires c < 256 as char && !IsUnreserved(c)
    ensures TwoHex(EncodedChar(c)[1], EncodedChar(c)[2]) == Some(c)
  {
    var n := c as nat;
    assert n / 16 * 16 + n % 16 == n;
  }

  /** Decoding inverts encoding. */
  lemma {:induction false} DecodedEncoded(s: string)
    requires IsBytes(s)
    ensures Decoded(Encoded(s)) == s
  {
    hide TwoHex, UpperHex;
    if s != "" {
      var t := Encoded(s);
      DecodedEncoded(s[1..]);
      if IsUnreserved(s[0]) {
        assert t[1..] == Encoded(s[1..]);
      } else {
        CharReadsBack(s[0]);
        assert t[..3] == EncodedChar(s[0]);
        assert t[3..] == Encoded(s[1..]);
      }
    }
  }

  /** One parameter, read back. */
  lemma {:induction false} PairStored(p: Param, out: map<string, string>)
    requires IsBytes(p.key) && IsBytes(p.value)
    ensures Stored(out, Pair(p)) == out[p.key := p.value]
  {
    hide Encoded, Decoded, IsUnreserved;
    var k, v := Encoded(p.key), Encoded(p.value);
    EncodedSafe(p.key);
    Reserved();
    FindCharIs(Pair(p), '=', 0, |k|);
    assert Pair(p)[..|k|] == k && Pair(p)[|k| + 1..] == v;
    DecodedEncoded(p.key);
    DecodedEncoded(p.value);
  }

  lemma {:induction false} Reserved()
    ensures !IsSafe('=') && !IsSafe('&') && !IsSafe('#') && !IsSafe('?') && !IsSafe('+')
  {
  }

  function Added(out: map<string, string>, ps: seq<Param>): map<string, string>
    decreases |ps|
  {
    if ps == [] then out else Added(out[ps[0].key := ps[0].value], ps[1..])
  }

  predicate Lacks(s: string, c: char) {
    forall i :: 0 <= i < |s| ==> s[i] != c
  }

  lemma {:induction false} PairLacks(p: Param)
    requires IsBytes(p.key) && IsBytes(p.value)
    ensures Lacks(Pair(p), '&') && Lacks(Pair(p), '#')
  {
    hide Encoded, IsUnreserved;
    EncodedSafe(p.key);
    EncodedSafe(p.value);
    Reserved();
  }

  lemma {:induction false} JoinedLacks(ps: seq<Param>)
    requires ps != [] && AreBytes(ps)
    ensures Lacks(Joined(ps), '#')
    decreases |ps|
  {
    hide Pair;
    PairLacks(ps[0]);
    if |ps| > 1 { JoinedLacks(ps[1..]); }
  }

  /** One pair, read from where it starts: the last one, or one with others behind it. */
  lemma {:induction false} PairParses(before: string, pair: string, more: string, out: map<string, string>)
    requires Lacks(pair, '&')
    ensures ParsedFrom(before + pair, |before|, out) == Stored(out, pair)
    ensures var qs := before + pair + "&" + more;
            ParsedFrom(qs, |before|, out) == ParsedFrom(qs, |before + pair + "&"|, Stored(out, pair))
  {
    hide Stored, FindChar;
    var last, qs, end := before + pair, before + pair + "&" + more, |before| + |pair|;
    assert forall j :: |before| <= j < end ==> last[j] == pair[j - |before|] && qs[j] == pair[j - |before|];
    FindCharIs(last, '&', |before|, end);
    FindCharIs(qs, '&', |before|, end);
    assert last[|before|..end] == pair && qs[|before|..end] == pair;
  }

  lemma {:induction false} JoinedParses(before: string, ps: seq<Param>, out: map<string, string>)
    requires ps != [] && AreBytes(ps)
    ensures ParsedFrom(before + Joined(ps), |before|, out) == Added(out, ps)
    decreases |ps|
  {
    hide Pair, Stored, IsBytes, FindChar, ParsedFrom, Lacks;
    var pair, rest := Pair(ps[0]), ps[1..];
    PairLacks(ps[0]);
    PairStored(ps[0], out);
    if rest == [] {
      PairParses(before, pair, "", out);
    } else {
      PairParses(before, pair, Joined(rest), out);
      assert before + Joined(ps) == before + pair + "&" + Joined(rest);
      JoinedParses(before + pair + "&", rest, out[ps[0].key := ps[0].value]);
    }
  }

  /** Round trip: whatever parameters are appended to a path without a question mark, parsing the
      result gives exactly them; the last one wins if a key is repeated. */
  lemma {:induction false} QueryReadsBack(path: string, ps: seq<Param>)
    requires Lacks(path, '?') && AreBytes(ps)
    ensures Parsed(path + QueryString(ps)) == Added(map[], ps)
  {
    hide Joined, ParsedFrom;
    var url := path + QueryString(ps);
    FindCharIs(url, '?', 0, |path|);
    if ps != [] {
      var qs := url[|path| + 1..];
      assert qs == Joined(ps);
      JoinedLacks(ps);
      FindCharIs(qs, '#', 0, |qs|);
      assert qs[..|qs|] == "" + Joined(ps);
      JoinedParses("", ps, map[]);
    }
  }

  /** A listing of a map: every key once, with its value. */
  predicate Lists(ps: seq<Param>, m: map<string, string>) {
    && (forall i :: 0 <= i < |ps| ==> ps[i].key in m && m[ps[i].key] == ps[i].value)
    && (forall k :: k in m ==> Param(k, m[k]) in ps)
  }

  lemma {:induction false} AddedLookup(out: map<string, string>, ps: seq<Param>, m: map<string, string>)
    requires forall i :: 0 <= i < |ps| ==> ps[i].key in m && m[ps[i].key] == ps[i].value
    requires forall k :: k in out ==> k in m && out[k] == m[k]
    ensures forall k :: k in Added(out, ps) ==> k in m && Added(out, ps)[k] == m[k]
    ensures forall k :: k in out ==> k in Added(out, ps)
    ensures forall i :: 0 <= i < |ps| ==> ps[i].key in Added(out, ps)
    decreases |ps|
  {
    if ps != [] { AddedLookup(out[ps[0].key := ps[0].value], ps[1..], m); }
  }

  /** In particular a map comes back as itself, in whatever order it is listed. */
  lemma {:induction false} MapReadsBack(path: string, ps: seq<Param>, m: map<string, string>)
    requires Lacks(path, '?') && AreBytes(ps) && Lists(ps, m)
    ensures Parsed(path + QueryString(ps)) == m
  {
    hide Parsed, QueryString;
    QueryReadsBack(path, ps);
    AddedLookup(map[], ps, m);
    assert forall k :: k in m ==> Param(k, m[k]).key in Added(map[], ps);
  }
}
