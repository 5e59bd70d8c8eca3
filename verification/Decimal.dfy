/** Decimal numerals as `%ld` prints them. */
module Decimal {

  const DECIMAL := "0123456789"

  predicate Digit(c: char) {
    '0' <= c <= '9'
  }

  function Digits(n: nat): (s: string)
    ensures s != ""
  {
    if n < 10 then [DECIMAL[n]] else Digits(n / 10) + [DECIMAL[n % 10]]
  }

  lemma {:induction false} DigitValues()
    ensures forall d :: 0 <= d < 10 ==> Digit(DECIMAL[d]) && DECIMAL[d] as int - '0' as int == d
  {
  }

  lemma {:induction false} DigitsAreDigits(n: nat)
    ensures forall i :: 0 <= i < |Digits(n)| ==> Digit(Digits(n)[i])
    decreases n
  {
    DigitValues();
    if n >= 10 {
      DigitsAreDigits(n / 10);
    }
  }
}
