/** Quotients and remainders, named by their defining equation. */
module Division {
  lemma {:induction false} Distribute(a: int, b: int, d: int)
    ensures (a - b) * d == a * d - b * d
  {
  }

  lemma {:induction false} AtLeast(k: int, d: int)
    requires d > 0
    ensures k > 0 ==> k * d >= d
    ensures k < 0 ==> k * d <= -d
  {
    Distribute(k, 1, d);
    Distribute(-1, k, d);
  }

  lemma {:induction false} Euclid(x: int, d: int)
    requires d > 0
    ensures x == x / d * d + x % d && 0 <= x % d < d
  {
  }

  lemma {:induction false} DivModIs(x: int, d: int, q: int, r: int)
    requires d > 0 && x == q * d + r && 0 <= r < d
    ensures x / d == q && x % d == r
  {
    Euclid(x, d);
    var y, z := x / d, x % d;
    Distribute(y, q, d);
    AtLeast(y - q, d);
  }
}
