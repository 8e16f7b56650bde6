/** Decimal numerals. */
module Decimals {
  function Digit(d: nat): char
    requires d < 10
  {
    '0' + d as char
  }

  function Decimal(n: nat): (s: string)
    ensures s != [] && forall i {:trigger s[i]} | 0 <= i < |s| :: '0' <= s[i] <= '9'
  {
    (if n < 10 then [] else Decimal(n / 10)) + [Digit(n % 10)]
  }

  lemma {:induction false} DecimalLength(n: nat, k: nat)
    requires n < Power(10, k) && k > 0
    ensures |Decimal(n)| <= k
    decreases k
  {
    if n >= 10 {
      assert n / 10 < Power(10, k - 1) && k > 1;
      DecimalLength(n / 10, k - 1);
    }
  }

  function Power(b: nat, k: nat): nat { if k == 0 then 1 else b * Power(b, k - 1) }
}
