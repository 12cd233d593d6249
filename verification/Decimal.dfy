/** Decimal numbers as text. */
module Decimal {

  predicate IsDigit(c: char) {
    '0' <= c <= '9'
  }

  function Digit(d: nat): (c: char)
    requires d < 10
    ensures IsDigit(c) && DigitValue(c) == d
  {
    ('0' as int + d) as char
  }

  function DigitValue(c: char): nat {
    if IsDigit(c) then c as int - '0' as int else 0
  }

  /** `n` without leading zeros. */
  function Text(n: nat): (text: string)
    ensures text != []
  {
    if n < 10 then [Digit(n)] else Text(n / 10) + [Digit(n % 10)]
  }

  /** The number a run of digits writes. */
  function Value(text: string): nat {
    if text == [] then 0 else 10 * Value(text[..|text| - 1]) + DigitValue(text[|text| - 1])
  }

  predicate AllDigits(text: string) {
    forall c :: c in text ==> IsDigit(c)
  }

  lemma {:induction false} TextIsDigits(n: nat)
    ensures AllDigits(Text(n))
  {
    if n >= 10 {
      TextIsDigits(n / 10);
    }
  }

  lemma {:induction false} ValueOfText(n: nat)
    ensures Value(Text(n)) == n
  {
    if n < 10 {
      assert Text(n)[..0] == [];
    } else {
      ValueOfText(n / 10);
      assert Text(n)[..|Text(n)| - 1] == Text(n / 10);
    }
  }

  lemma {:induction false} NoZeroInFront(n: nat)
    requires n > 0
    ensures Text(n)[0] != '0'
  {
    if n >= 10 {
      NoZeroInFront(n / 10);
    }
  }
}
