/** Numbers written with decimal digits. */
module Decimals {

  const DIGITS := "0123456789"

  function Decimal(n: nat): (s: string)
    ensures s != []
  {
    if n < 10 then [DIGITS[n]] else Decimal(n / 10) + [DIGITS[n % 10]]
  }

  lemma DigitChar(d: nat)
    requires d < 10
    ensures |DIGITS| == 10 && DIGITS[d] as int == '0' as int + d
  {
  }

  lemma {:induction false} DecimalChars(n: nat)
    ensures forall i | 0 <= i < |Decimal(n)| :: '0' <= Decimal(n)[i] <= '9'
  {
    DigitChar(n % 10);
    if n >= 10 { DecimalChars(n / 10); }
  }
}
