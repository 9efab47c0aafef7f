/** Decimal digits: reading and printing them. */
module Decimal {

  predicate IsDigit(c: char) {
    '0' <= c <= '9'
  }

  predicate AllDigits(s: string) {
    forall i :: 0 <= i < |s| ==> IsDigit(s[i])
  }

  function DigitsValue(s: string): nat
    requires AllDigits(s)
  {
    if s == [] then 0 else 10 * DigitsValue(s[..|s| - 1]) + (s[|s| - 1] as int - '0' as int)
  }

  function Digit(n: nat): char
    requires n < 10
  {
    (48 + n) as char
  }

  // Decimal digits, padded with zeros to at least `width`.
  function PadNat(n: nat, width: nat): (s: string) {
    if n < 10 && width <= 1 then [Digit(n)]
    else PadNat(n / 10, if width > 0 then width - 1 else 0) + [Digit(n % 10)]
  }

  // Reading decimal digits inverts printing, with any zeros in front.
  lemma {:induction false} DigitsOfPad(n: nat, width: nat)
    ensures PadNat(n, width) != "" && AllDigits(PadNat(n, width)) && DigitsValue(PadNat(n, width)) == n
    decreases n, width
  {
    if n < 10 && width <= 1 {
      OneDigit(n, "");
      assert "" + [Digit(n)] == [Digit(n)];
    } else {
      DigitsOfPad(n / 10, if width > 0 then width - 1 else 0);
      OneDigit(n % 10, PadNat(n / 10, if width > 0 then width - 1 else 0));
    }
  }

  lemma OneDigit(d: nat, front: string)
    requires d < 10 && AllDigits(front)
    ensures AllDigits(front + [Digit(d)]) && DigitsValue(front + [Digit(d)]) == 10 * DigitsValue(front) + d
  {
    assert (front + [Digit(d)])[..|front|] == front;
  }
}
