/** Bytes as small integers, with exclusive-or computed bit by bit. */
module Bytes {
  import opened Division

  type byte = b: int | 0 <= b < 256

  function XorBits(a: nat, b: nat, bits: nat): (r: nat) {
    if bits == 0 then 0 else 2 * XorBits(a / 2, b / 2, bits - 1) + (a + b) % 2
  }

  function Pow2(n: nat): (p: nat)
    ensures p >= 1
  {
    if n == 0 then 1 else 2 * Pow2(n - 1)
  }

  lemma {:induction false} XorBound(a: nat, b: nat, bits: nat)
    ensures XorBits(a, b, bits) < Pow2(bits)
  {
    if bits > 0 { XorBound(a / 2, b / 2, bits - 1); }
  }

  function Xor(a: byte, b: byte): (r: byte) {
    XorBound(a, b, 8);
    assert Pow2(8) == 256 by { assert Pow2(4) == 16; assert Pow2(6) == 64; }
    XorBits(a, b, 8)
  }

  lemma {:induction false} Halves(q: nat, r: nat)
    requires r < 2
    ensures (2 * q + r) / 2 == q && (2 * q + r) % 2 == r
  {
  }

  lemma {:induction false} ParityTwice(a: nat, m: nat)
    ensures ((a + m) % 2 + m) % 2 == a % 2
  {
  }

  lemma {:induction false} XorBitsStep(a: nat, b: nat, bits: nat)
    requires bits > 0
    ensures XorBits(a, b, bits) / 2 == XorBits(a / 2, b / 2, bits - 1)
    ensures XorBits(a, b, bits) % 2 == (a + b) % 2
  {
    Halves(XorBits(a / 2, b / 2, bits - 1), (a + b) % 2);
  }

  lemma {:induction false} SameParity(x: nat, y: nat, m: nat)
    requires x % 2 == y % 2
    ensures (x + m) % 2 == (y + m) % 2
  {
  }

  lemma {:induction false} XorBitsTwice(a: nat, m: nat, bits: nat)
    requires a < Pow2(bits)
    ensures XorBits(XorBits(a, m, bits), m, bits) == a
  {
    if bits > 0 {
      var x := XorBits(a, m, bits);
      XorBitsStep(a, m, bits);
      XorBitsTwice(a / 2, m / 2, bits - 1);
      SameParity(x, (a + m) % 2, m);
      ParityTwice(a, m);
      assert XorBits(x, m, bits) == 2 * XorBits(x / 2, m / 2, bits - 1) + (x + m) % 2;
    }
  }

  /** Unmasking undoes masking. */
  lemma {:induction false} XorTwice(a: byte, m: byte)
    ensures Xor(Xor(a, m), m) == a
  {
    assert Pow2(8) == 256 by { assert Pow2(4) == 16; assert Pow2(6) == 64; }
    XorBitsTwice(a, m, 8);
  }

  /** The bit of weight two to the `k`. */
  function Bit(x: nat, k: nat): nat {
    x / Pow2(k) % 2
  }

  lemma {:induction false} BitOfHalf(x: nat, k: nat)
    requires k > 0
    ensures Bit(x, k) == Bit(x / 2, k - 1)
  {
    var p := Pow2(k - 1);
    Euclid(x, 2);
    Euclid(x / 2, p);
    var q, r, s := x / 2 / p, x / 2 % p, x % 2;
    assert x == 2 * (q * p + r) + s;
    assert 2 * (q * p) == q * (2 * p) by { Regroup(q, p); }
    DivModIs(x, 2 * p, q, 2 * r + s);
  }

  lemma {:induction false} Regroup(q: nat, p: nat)
    ensures 2 * (q * p) == q * (2 * p)
  {
  }

  lemma {:induction false} XorBitOf(a: nat, m: nat, bits: nat, k: nat)
    requires k < bits
    ensures Bit(XorBits(a, m, bits), k) == (Bit(a, k) + Bit(m, k)) % 2
    decreases k
  {
    hide XorBits, Bit;
    XorBitsStep(a, m, bits);
    if k == 0 {
      LowestBit(XorBits(a, m, bits));
      LowestBit(a);
      LowestBit(m);
      SumParity(a, m);
    } else {
      BitOfHalf(XorBits(a, m, bits), k);
      BitOfHalf(a, k);
      BitOfHalf(m, k);
      XorBitOf(a / 2, m / 2, bits - 1, k - 1);
    }
  }

  lemma {:induction false} LowestBit(x: nat)
    ensures Bit(x, 0) == x % 2
  {
  }

  lemma {:induction false} SumParity(a: nat, m: nat)
    ensures (a + m) % 2 == (a % 2 + m % 2) % 2
  {
  }

  /** A bit of the exclusive-or is set exactly when the two bits differ. */
  lemma {:induction false} XorBitByBit(a: byte, m: byte, k: nat)
    requires k < 8
    ensures Bit(Xor(a, m), k) == 1 <==> Bit(a, k) != Bit(m, k)
  {
    XorBitOf(a, m, 8, k);
  }

  lemma {:induction false} EvenSum(q: nat, r: nat, s: nat)
    requires r < 2 && s < 2
    ensures (4 * q + r + s) % 2 == 0 <==> r == s
  {
    if r == s { Halves(2 * q + r, 0); } else { Halves(2 * q, 1); }
  }

  lemma {:induction false} SameHalves(a: nat, b: nat)
    ensures a == b <==> a / 2 == b / 2 && (a + b) % 2 == 0
  {
    if a / 2 == b / 2 {
      EvenSum(a / 2, a % 2, b % 2);
      assert a + b == 4 * (a / 2) + a % 2 + b % 2;
    }
  }

  lemma {:induction false} XorBitsZero(a: nat, b: nat, bits: nat)
    requires a < Pow2(bits) && b < Pow2(bits)
    ensures XorBits(a, b, bits) == 0 <==> a == b
  {
    if bits > 0 {
      XorBitsZero(a / 2, b / 2, bits - 1);
      SameHalves(a, b);
      hide XorBits;
      XorBitsStep(a, b, bits);
    }
  }

  /** Two bytes differ exactly when their exclusive-or is not zero. */
  lemma {:induction false} XorZero(a: byte, b: byte)
    ensures Xor(a, b) == 0 <==> a == b
  {
    assert Pow2(8) == 256 by { assert Pow2(4) == 16; assert Pow2(6) == 64; }
    XorBitsZero(a, b, 8);
  }

  function OrBits(a: nat, b: nat, bits: nat): (r: nat) {
    if bits == 0 then 0
    else 2 * OrBits(a / 2, b / 2, bits - 1) + if a % 2 == 0 && b % 2 == 0 then 0 else 1
  }

  lemma {:induction false} OrBitsZero(a: nat, b: nat, bits: nat)
    requires a < Pow2(bits) && b < Pow2(bits)
    ensures OrBits(a, b, bits) < Pow2(bits)
    ensures OrBits(a, b, bits) == 0 <==> a == 0 && b == 0
  {
    if bits > 0 { OrBitsZero(a / 2, b / 2, bits - 1); }
  }

  function Or(a: byte, b: byte): (r: byte)
    ensures r == 0 <==> a == 0 && b == 0
  {
    assert Pow2(8) == 256 by { assert Pow2(4) == 16; assert Pow2(6) == 64; }
    OrBitsZero(a, b, 8);
    OrBits(a, b, 8)
  }

  // ------------------------------------------------------------------ big-endian numbers

  function BigEndian(n: nat, k: nat): (bs: seq<byte>)
    ensures |bs| == k
  {
    if k == 0 then [] else BigEndian(n / 256, k - 1) + [n % 256]
  }

  function BigValue(bs: seq<byte>): nat {
    if bs == [] then 0 else BigValue(bs[..|bs| - 1]) * 256 + bs[|bs| - 1]
  }

  function Pow256(k: nat): (p: nat)
    ensures p >= 1
  {
    if k == 0 then 1 else 256 * Pow256(k - 1)
  }

  lemma {:induction false} BigEndianReads(n: nat, k: nat)
    requires n < Pow256(k)
    ensures BigValue(BigEndian(n, k)) == n
  {
    if k > 0 {
      BigEndianReads(n / 256, k - 1);
      var s := BigEndian(n / 256, k - 1);
      assert (s + [n % 256])[..k - 1] == s;
    }
  }

  lemma {:induction false} BigValueSnoc(bs: seq<byte>, b: byte)
    ensures BigValue(bs + [b]) == BigValue(bs) * 256 + b
  {
    assert (bs + [b])[..|bs|] == bs;
  }

  /** The most significant byte comes first. */
  lemma {:induction false} BigValueOfTwo(bs: seq<byte>)
    requires |bs| == 2
    ensures BigValue(bs) == (bs[0] as int) * 256 + bs[1]
  {
    BigValueSnoc([], bs[0]);
    BigValueSnoc([bs[0]], bs[1]);
    assert [] + [bs[0]] == [bs[0]] && bs == [bs[0]] + [bs[1]];
  }

  lemma {:induction false} BigValueConcat(a: seq<byte>, b: seq<byte>)
    ensures BigValue(a + b) == BigValue(a) * Pow256(|b|) + BigValue(b)
    decreases |b|
  {
    if b == [] {
      assert a + b == a;
    } else {
      var front, last := b[..|b| - 1], b[|b| - 1];
      assert a + b == (a + front) + [last] && b == front + [last];
      hide BigValue;
      BigValueSnoc(a + front, last);
      BigValueSnoc(front, last);
      BigValueConcat(a, front);
      Weighted(BigValue(a), Pow256(|front|), BigValue(front), last);
    }
  }

  lemma {:induction false} Weighted(a: nat, p: nat, f: nat, last: nat)
    ensures (a * p + f) * 256 + last == a * (256 * p) + (f * 256 + last)
  {
  }

  lemma {:induction false} BigValueOfEight(bs: seq<byte>)
    requires |bs| == 8
    ensures BigValue(bs) == (bs[0] as int) * 0x100_0000_0000_0000 + (bs[1] as int) * 0x1_0000_0000_0000
                            + (bs[2] as int) * 0x100_0000_0000 + (bs[3] as int) * 0x1_0000_0000
                            + (bs[4] as int) * 0x100_0000 + (bs[5] as int) * 0x1_0000
                            + (bs[6] as int) * 0x100 + bs[7]
  {
    hide BigValue, Pow256;
    var a, b, c, d := bs[..2], bs[2..4], bs[4..6], bs[6..];
    BigValueOfTwo(a);
    BigValueOfTwo(b);
    BigValueOfTwo(c);
    BigValueOfTwo(d);
    Pow256Values();
    BigValueConcat(a, b);
    BigValueConcat(a + b, c);
    BigValueConcat(a + b + c, d);
    assert bs == a + b + c + d;
  }

  lemma {:induction false} Pow256Values()
    ensures Pow256(2) == 0x1_0000 && Pow256(8) == 0x1_0000_0000_0000_0000
  {
    assert Pow256(2) == 256 * Pow256(1);
    assert Pow256(4) == 0x1_0000_0000;
    assert Pow256(6) == 0x1_0000_0000_0000;
  }
}
