/** UTF-8 (section 4 of RFC 3629): the grammar, and the automaton with which the JSON printer checks it. */
module Utf8 {
  // ------------------------------------------------------------------ the grammar

  predicate IsByteIn(s: string, i: nat, lo: nat, hi: nat) {
    i < |s| && lo <= s[i] as nat <= hi
  }

  predicate IsTail(s: string, i: nat) {
    IsByteIn(s, i, 0x80, 0xBF)
  }

  predicate IsTwo(s: string) {
    IsByteIn(s, 0, 0xC2, 0xDF) && IsTail(s, 1)
  }

  predicate IsThree(s: string) {
    IsTail(s, 2)
    && ((IsByteIn(s, 0, 0xE0, 0xE0) && IsByteIn(s, 1, 0xA0, 0xBF))
        || (IsByteIn(s, 0, 0xE1, 0xEC) && IsTail(s, 1))
        || (IsByteIn(s, 0, 0xED, 0xED) && IsByteIn(s, 1, 0x80, 0x9F))
        || (IsByteIn(s, 0, 0xEE, 0xEF) && IsTail(s, 1)))
  }

  predicate IsFour(s: string) {
    IsTail(s, 2) && IsTail(s, 3)
    && ((IsByteIn(s, 0, 0xF0, 0xF0) && IsByteIn(s, 1, 0x90, 0xBF))
        || (IsByteIn(s, 0, 0xF1, 0xF3) && IsTail(s, 1))
        || (IsByteIn(s, 0, 0xF4, 0xF4) && IsByteIn(s, 1, 0x80, 0x8F)))
  }

  /** The length of the character at the beginning of a text; 0 when there is none. */
  function CharLength(s: string): (n: nat)
    ensures n <= |s| && n <= 4
  {
    if IsByteIn(s, 0, 0, 0x7F) then 1
    else if IsTwo(s) then 2
    else if IsThree(s) then 3
    else if IsFour(s) then 4
    else 0
  }

  /** A text is a sequence of characters. */
  predicate IsUtf8(s: string)
    decreases |s|
  {
    s == "" || (CharLength(s) > 0 && IsUtf8(s[CharLength(s)..]))
  }

  // ------------------------------------------------------------------ the automaton

  const ACCEPT := 0
  const REJECT := 1

  /** The type of a byte, as the first half of the printer's table gives it. */
  function ByteType(c: char): (t: nat)
    ensures t < 12
  {
    var b := c as nat;
    if b <= 0x7F then 0
    else if b <= 0x8F then 1
    else if b <= 0x9F then 9
    else if b <= 0xBF then 7
    else if b <= 0xC1 then 8
    else if b <= 0xDF then 2
    else if b == 0xE0 then 10
    else if b == 0xED then 4
    else if b <= 0xEF then 3
    else if b == 0xF0 then 11
    else if b <= 0xF3 then 6
    else if b == 0xF4 then 5
    else 8
  }

  /** The next state, as the second half of the table gives it. */
  function Next(state: nat, t: nat): (r: nat)
    requires state <= 8
    ensures r <= 8
  {
    match state
    case 0 =>
      if t == 0 then 0 else if t == 2 then 2 else if t == 3 then 3 else if t == 4 then 5 else if t == 5 then 8
      else if t == 6 then 7 else if t == 10 then 4 else if t == 11 then 6 else REJECT
    case 1 => REJECT
    case 2 => if t == 1 || t == 7 || t == 9 then ACCEPT else REJECT
    case 3 => if t == 1 || t == 7 || t == 9 then 2 else REJECT
    case 4 => if t == 7 then 2 else REJECT
    case 5 => if t == 1 || t == 9 then 2 else REJECT
    case 6 => if t == 7 || t == 9 then 3 else REJECT
    case 7 => if t == 1 || t == 7 || t == 9 then 3 else REJECT
    case 8 => if t == 1 then 3 else REJECT
  }

  /** The automaton reaches the accepting state at the end. */
  predicate Accepts(state: nat, s: string)
    requires state <= 8
    decreases |s|
  {
    if s == "" then state == ACCEPT else Accepts(Next(state, ByteType(s[0])), s[1..])
  }

  /** What `dump_escaped` does with a text, escapes aside: it throws at the first byte the automaton
      rejects, or at the end of an incomplete text. */
  method CheckText(s: string) returns (ok: bool)
    ensures ok <==> IsUtf8(s)
  {
    hide Accepts, Next, ByteType, IsUtf8;
    AcceptsUtf8(s);
    var state: nat := ACCEPT;
    assert s[0..] == s;
    for i := 0 to |s|
      invariant state <= 8 && (Accepts(state, s[i..]) <==> Accepts(ACCEPT, s))
    {
      AcceptsNext(state, s, i);
      state := Next(state, ByteType(s[i]));
      if state == REJECT {
        RejectStays(s[i + 1..]);
        return false;
      }
    }
    AcceptsEnd(state, s[|s|..]);
    ok := state == ACCEPT;
  }

  lemma {:induction false} AcceptsNext(state: nat, s: string, i: nat)
    requires state <= 8 && i < |s|
    ensures Accepts(state, s[i..]) <==> Accepts(Next(state, ByteType(s[i])), s[i + 1..])
  {
    hide Next, ByteType;
    assert s[i..][1..] == s[i + 1..];
  }

  lemma {:induction false} AcceptsEnd(state: nat, s: string)
    requires state <= 8 && s == ""
    ensures Accepts(state, s) <==> state == ACCEPT
  {
  }

  lemma {:induction false} RejectStays(s: string)
    ensures !Accepts(REJECT, s)
  {
    hide ByteType;
    if s != "" { RejectStays(s[1..]); }
  }

  // ------------------------------------------------------------------ the automaton accepts the grammar

  lemma {:induction false} OneLeft(s: string, i: nat)
    requires i <= |s|
    ensures Accepts(2, s[i..]) <==> IsTail(s, i) && Accepts(ACCEPT, s[i + 1..])
  {
    if i < |s| {
      AcceptsNext(2, s, i);
      RejectStays(s[i + 1..]);
    }
    hide Accepts;
    if i == |s| { AcceptsEnd(2, s[i..]); }
  }

  /** States 3, 4 and 5 differ in what they accept next. */
  lemma {:induction false} TwoLeft(s: string, i: nat)
    requires i <= |s|
    ensures Accepts(3, s[i..]) <==> IsTail(s, i) && Accepts(2, s[i + 1..])
    ensures Accepts(4, s[i..]) <==> IsByteIn(s, i, 0xA0, 0xBF) && Accepts(2, s[i + 1..])
    ensures Accepts(5, s[i..]) <==> IsByteIn(s, i, 0x80, 0x9F) && Accepts(2, s[i + 1..])
  {
    hide Accepts;
    if i < |s| {
      AcceptsNext(3, s, i);
      AcceptsNext(4, s, i);
      AcceptsNext(5, s, i);
      RejectStays(s[i + 1..]);
    } else {
      AcceptsEnd(3, s[i..]);
      AcceptsEnd(4, s[i..]);
      AcceptsEnd(5, s[i..]);
    }
  }

  /** States 6, 7 and 8 differ in what they accept next. */
  lemma {:induction false} ThreeLeft(s: string, i: nat)
    requires i <= |s|
    ensures Accepts(6, s[i..]) <==> IsByteIn(s, i, 0x90, 0xBF) && Accepts(3, s[i + 1..])
    ensures Accepts(7, s[i..]) <==> IsTail(s, i) && Accepts(3, s[i + 1..])
    ensures Accepts(8, s[i..]) <==> IsByteIn(s, i, 0x80, 0x8F) && Accepts(3, s[i + 1..])
  {
    hide Accepts;
    if i < |s| {
      AcceptsNext(6, s, i);
      AcceptsNext(7, s, i);
      AcceptsNext(8, s, i);
      RejectStays(s[i + 1..]);
    } else {
      AcceptsEnd(6, s[i..]);
      AcceptsEnd(7, s[i..]);
      AcceptsEnd(8, s[i..]);
    }
  }

  /** From the start the automaton accepts one character and starts again. */
  lemma {:induction false} StartAccepts(s: string)
    requires s != ""
    ensures Accepts(ACCEPT, s) <==> CharLength(s) > 0 && Accepts(ACCEPT, s[CharLength(s)..])
  {
    hide Accepts;
    assert s[0..] == s;
    AcceptsNext(ACCEPT, s, 0);
    RejectStays(s[1..]);
    var b := s[0] as nat;
    if 0xC2 <= b <= 0xDF {
      OneLeft(s, 1);
    } else if 0xE0 <= b <= 0xEF {
      StartsThree(s);
    } else if 0xF0 <= b <= 0xF4 {
      StartsFour(s);
    }
  }

  lemma {:induction false} StartsThree(s: string)
    requires IsByteIn(s, 0, 0xE0, 0xEF)
    ensures Accepts(Next(ACCEPT, ByteType(s[0])), s[1..]) <==> IsThree(s) && Accepts(ACCEPT, s[3..])
  {
    hide Accepts;
    TwoLeft(s, 1);
    if |s| > 1 { OneLeft(s, 2); }
  }

  lemma {:induction false} StartsFour(s: string)
    requires IsByteIn(s, 0, 0xF0, 0xF4)
    ensures Accepts(Next(ACCEPT, ByteType(s[0])), s[1..]) <==> IsFour(s) && Accepts(ACCEPT, s[4..])
  {
    hide Accepts;
    ThreeLeft(s, 1);
    if |s| > 1 { TwoLeft(s, 2); }
    if |s| > 2 { OneLeft(s, 3); }
  }

  /** The automaton accepts exactly the grammar. */
  lemma {:induction false} AcceptsUtf8(s: string)
    ensures Accepts(ACCEPT, s) <==> IsUtf8(s)
    decreases |s|
  {
    hide Accepts, CharLength;
    if s == "" {
      AcceptsEnd(ACCEPT, s);
    } else {
      StartAccepts(s);
      if CharLength(s) > 0 { AcceptsUtf8(s[CharLength(s)..]); }
    }
  }

  // ------------------------------------------------------------------ what the bytes of a character say

  /** The value of a byte after the first, and whether it is one. */
  function Low(c: char): int {
    c as int - 0x80
  }

  predicate AreTails(s: string, n: nat) {
    n <= |s| && forall i :: 1 <= i < n ==> 0 <= Low(s[i]) < 64
  }

  /** The code point that `n` bytes spell: the bits of the first byte below its mark, and six bits in each
      of the others. */
  function CodePoint(s: string, n: nat): int
    requires n <= |s|
  {
    if n == 1 then s[0] as int
    else if n == 2 then (s[0] as int - 0xC0) * 64 + Low(s[1])
    else if n == 3 then (s[0] as int - 0xE0) * 4096 + Low(s[1]) * 64 + Low(s[2])
    else if n == 4 then (s[0] as int - 0xF0) * 262144 + Low(s[1]) * 4096 + Low(s[2]) * 64 + Low(s[3])
    else -1
  }

  /** The fewest bytes that can spell a code point. */
  function Shortest(code: int): nat {
    if code < 0x80 then 1 else if code < 0x800 then 2 else if code < 0x10000 then 3 else 4
  }

  predicate IsScalar(code: int) {
    0 <= code <= 0x10FFFF && !(0xD800 <= code <= 0xDFFF)
  }

  /** `n` bytes that spell a Unicode scalar value, and no fewer would do. */
  predicate IsCharacter(s: string, n: nat) {
    && 1 <= n <= 4
    && AreTails(s, n)
    && IsScalar(CodePoint(s, n))
    && Shortest(CodePoint(s, n)) == n
  }

  lemma {:induction false} TwoAre(s: string)
    ensures IsTwo(s) <==> IsCharacter(s, 2)
  {
  }

  lemma {:induction false} ThreeAre(s: string)
    ensures IsThree(s) <==> IsCharacter(s, 3)
  {
  }

  lemma {:induction false} FourAre(s: string)
    ensures IsFour(s) <==> IsCharacter(s, 4)
  {
  }

  /** The grammar has exactly the shortest spellings of the Unicode scalar values. */
  lemma {:induction false} CharactersAreScalars(s: string, n: nat)
    ensures n > 0 ==> (CharLength(s) == n <==> IsCharacter(s, n))
  {
    hide IsCharacter, IsTwo, IsThree, IsFour;
    OneIs(s);
    TwoAre(s);
    ThreeAre(s);
    FourAre(s);
    OneOnly(s);
    if n > 4 { assert !IsCharacter(s, n) by { AtMostFour(s, n); } }
  }

  lemma {:induction false} OneIs(s: string)
    ensures IsByteIn(s, 0, 0, 0x7F) <==> IsCharacter(s, 1)
  {
  }

  lemma {:induction false} AtMostFour(s: string, n: nat)
    requires n > 4
    ensures !IsCharacter(s, n)
  {
  }

  /** The first bytes tell the lengths apart. */
  lemma {:induction false} OneOnly(s: string)
    ensures IsTwo(s) ==> IsByteIn(s, 0, 0xC2, 0xDF)
    ensures IsThree(s) ==> IsByteIn(s, 0, 0xE0, 0xEF)
    ensures IsFour(s) ==> IsByteIn(s, 0, 0xF0, 0xF4)
  {
  }
}
