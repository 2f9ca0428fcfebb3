/** Decimal numerals: fixed width with leading zeros, and as short as they can be. */
module Decimals {
  predicate IsDigit(c: char) {
    '0' <= c <= '9'
  }

  predicate AllDigits(s: string) {
    forall i :: 0 <= i < |s| ==> IsDigit(s[i])
  }

  function Power10(n: nat): nat {
    if n == 0 then 1 else 10 * Power10(n - 1)
  }

  function Digit(n: nat): char {
    ('0' as int + n % 10) as char
  }

  function Digits(value: nat, width: nat): (r: string)
    ensures |r| == width && AllDigits(r)
  {
    if width == 0 then "" else Digits(value / 10, width - 1) + [Digit(value)]
  }

  function Number(s: string): nat
    requires AllDigits(s)
  {
    if s == "" then 0 else Number(s[..|s| - 1]) * 10 + (s[|s| - 1] as int - '0' as int)
  }

  lemma {:induction false} DigitsReadBack(value: nat, width: nat)
    requires value < Power10(width)
    ensures Number(Digits(value, width)) == value
  {
    if width > 0 {
      DigitsReadBack(value / 10, width - 1);
      var r := Digits(value, width);
      assert r[..|r| - 1] == Digits(value / 10, width - 1);
    }
  }

  /** `%d` of a number that is not negative. */
  function Decimal(n: nat): (r: string)
    ensures r != "" && AllDigits(r)
  {
    if n < 10 then [Digit(n)] else Decimal(n / 10) + [Digit(n)]
  }

  lemma {:induction false} DecimalReadsBack(n: nat)
    ensures Number(Decimal(n)) == n
  {
    var r := Decimal(n);
    if n < 10 {
      assert r[..0] == "";
    } else {
      DecimalReadsBack(n / 10);
      assert r[..|r| - 1] == Decimal(n / 10);
    }
  }
}
