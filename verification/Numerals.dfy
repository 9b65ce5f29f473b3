/** Positional numerals, shared by decimal printing (`std::to_string`) and
    hexadecimal chunk sizes (`from_i_to_hex`). */
module Numerals {
  import Division

  function DigitChar(d: nat): (c: char)
    requires d < 16
    ensures '0' <= c <= '9' || 'a' <= c <= 'f'
    ensures DigitValue(c) == d
  {
    if d < 10 then '0' + d as char else 'a' + (d - 10) as char
  }

  function DigitValue(c: char): (d: nat)
    ensures d <= 16
  {
    if '0' <= c <= '9' then c as nat - '0' as nat
    else if 'a' <= c <= 'f' then c as nat - 'a' as nat + 10
    else if 'A' <= c <= 'F' then c as nat - 'A' as nat + 10
    else 16
  }

  /** Every character is a digit of the given radix. */
  predicate IsNumeral(s: string, radix: nat) {
    forall c :: c in s ==> DigitValue(c) < radix
  }

  function Value(s: string, radix: nat): nat {
    if s == [] then 0 else Value(s[..|s| - 1], radix) * radix + DigitValue(s[|s| - 1])
  }

  function Numeral(n: nat, radix: nat): (s: string)
    requires radix == 10 || radix == 16
    ensures s != [] && IsNumeral(s, radix)
    ensures forall c :: c in s ==> '0' <= c <= '9' || 'a' <= c <= 'f'
  {
    if n < radix then [DigitChar(n)] else Shrinks(n, radix); Numeral(n / radix, radix) + [DigitChar(n % radix)]
  }

  /** `std::to_string` of a signed integer. */
  function IntegerText(n: int): string {
    if n < 0 then "-" + Numeral(-n, 10) else Numeral(n, 10)
  }

  lemma {:induction false} Shrinks(n: nat, radix: nat)
    requires (radix == 10 || radix == 16) && radix <= n
    ensures 0 <= n / radix < n && 0 <= n % radix < radix && n == n / radix * radix + n % radix
  {
    if radix == 10 {
      assert n == n / 10 * 10 + n % 10;
    } else {
      assert n == n / 16 * 16 + n % 16;
    }
  }

  lemma {:induction false} ValueSnoc(s: string, c: char, radix: nat)
    ensures Value(s + [c], radix) == Value(s, radix) * radix + DigitValue(c)
  {
    assert (s + [c])[..|s|] == s;
  }

  /** Reading a printed numeral gives the number back. */
  lemma {:induction false} ValueOfNumeral(n: nat, radix: nat)
    requires radix == 10 || radix == 16
    ensures Value(Numeral(n, radix), radix) == n
  {
    if n < radix {
      ValueSnoc([], DigitChar(n), radix);
    } else {
      Shrinks(n, radix);
      ValueSnoc(Numeral(n / radix, radix), DigitChar(n % radix), radix);
      ValueOfNumeral(n / radix, radix);
    }
  }

  // ------------------------------------------------------------------ the digits

  const LOWER := "0123456789abcdef"
  const UPPER := "0123456789ABCDEF"

  /** The digits stand in the two tables at their values, and nothing else is a digit. */
  lemma {:induction false} DigitsAreTables(c: char, d: nat)
    requires d < 16
    ensures DigitChar(d) == LOWER[d]
    ensures DigitValue(c) == d <==> c == LOWER[d] || c == UPPER[d]
    ensures c in LOWER || c in UPPER || DigitValue(c) == 16
  {
    InTable(c);
  }

  lemma {:induction false} InTable(c: char)
    ensures '0' <= c <= '9' ==> LOWER[c as nat - '0' as nat] == c
    ensures 'a' <= c <= 'f' ==> LOWER[c as nat - 'a' as nat + 10] == c
    ensures 'A' <= c <= 'F' ==> UPPER[c as nat - 'A' as nat + 10] == c
  {
  }

  /** A number in positional notation: the digits of the quotient by the radix, and then the remainder.
      Zero has one digit, and no other numeral begins with it. */
  lemma {:induction false} NumeralSnoc(n: nat, d: nat, radix: nat)
    requires (radix == 10 || radix == 16) && d < radix
    ensures Numeral(d, radix) == [LOWER[d]]
    ensures n > 0 ==> Numeral(n * radix + d, radix) == Numeral(n, radix) + [LOWER[d]]
  {
    hide Numeral, DigitValue, DigitChar, IsNumeral;
    DigitsAreTables('0', d);
    NumeralStep(d, radix);
    if n > 0 {
      assert n * radix >= radix;
      NumeralStep(n * radix + d, radix);
      Division.DivModIs(n * radix + d, radix, n, d);
    }
  }

  lemma {:induction false} NumeralStep(n: nat, radix: nat)
    requires radix == 10 || radix == 16
    ensures n < radix ==> Numeral(n, radix) == [DigitChar(n)]
    ensures n >= radix ==> Numeral(n, radix) == Numeral(n / radix, radix) + [DigitChar(n % radix)]
  {
    hide DigitChar;
    if n >= radix { Shrinks(n, radix); }
  }

  // ------------------------------------------------------------------ reading decimal digits

  predicate IsDecimalDigit(c: char) {
    '0' <= c <= '9'
  }

  function Decimal(s: string): nat {
    if s == "" then 0
    else Decimal(s[..|s| - 1]) * 10 + if IsDecimalDigit(s[|s| - 1]) then s[|s| - 1] as nat - '0' as nat else 0
  }

  lemma {:induction false} DecimalSnoc(s: string, c: char)
    requires IsDecimalDigit(c)
    ensures Decimal(s + [c]) == Decimal(s) * 10 + (c as nat - '0' as nat)
  {
    assert (s + [c])[..|s|] == s;
  }

  /** Printed numbers are decimal numbers. */
  lemma {:induction false} PrintedIsDecimal(n: nat)
    ensures Numeral(n, 10) != "" && forall c :: c in Numeral(n, 10) ==> IsDecimalDigit(c)
    ensures Decimal(Numeral(n, 10)) == n
    ensures n > 0 ==> Numeral(n, 10)[0] != '0'
  {
    if n < 10 {
      DecimalSnoc("", DigitChar(n));
      assert Numeral(n, 10) == "" + [DigitChar(n)];
    } else {
      Shrinks(n, 10);
      PrintedIsDecimal(n / 10);
      DecimalSnoc(Numeral(n / 10, 10), DigitChar(n % 10));
    }
  }

  /** A minus sign and the digits of the absolute value. */
  lemma {:induction false} IntegerSays(n: int)
    ensures n >= 0 ==> IntegerText(n) != "" && IntegerText(n)[0] != '-' && Decimal(IntegerText(n)) == n
    ensures n < 0 ==> IntegerText(n) != "" && IntegerText(n)[0] == '-' && Decimal(IntegerText(n)[1..]) == -n
  {
    hide Numeral, Decimal;
    var m := if n < 0 then -n else n;
    PrintedIsDecimal(m);
    assert Numeral(m, 10)[0] in Numeral(m, 10);
    assert ("-" + Numeral(m, 10))[1..] == Numeral(m, 10);
  }
}
