/** ASCII decimal digits and fixed-width decimal numerals: what the `[0-9]`
    character class of the identifier masks and the `%Y%m%d%H%M%S` fields of
    the certificate timestamp read and write. */
module Decimal {

  predicate IsDigit(c: char) {
    '0' <= c <= '9'
  }

  predicate AllDigits(s: string) {
    forall i :: 0 <= i < |s| ==> IsDigit(s[i])
  }

  function DigitValue(c: char): (n: nat)
    requires IsDigit(c)
    ensures n < 10
  {
    (c as int - '0' as int) as nat
  }

  function DigitChar(n: nat): (c: char)
    requires n < 10
    ensures IsDigit(c) && DigitValue(c) == n
  {
    ('0' as int + n) as char
  }

  function Pow10(w: nat): (p: nat)
    ensures p >= 1
  {
    if w == 0 then 1 else 10 * Pow10(w - 1)
  }

  /** The number a string of decimal digits denotes, most significant first. */
  function Value(s: string): nat
    requires AllDigits(s)
  {
    if s == [] then 0 else Value(s[..|s| - 1]) * 10 + DigitValue(s[|s| - 1])
  }

  /** `n` written in exactly `w` decimal digits with leading zeros; digits
      above the `w`-th are dropped. */
  function Numeral(n: nat, w: nat): (s: string)
    ensures |s| == w && AllDigits(s)
  {
    if w == 0 then [] else Numeral(n / 10, w - 1) + [DigitChar(n % 10)]
  }

  /** Reading back a numeral wide enough for its number gives that number. */
  lemma {:induction false} ValueOfNumeral(n: nat, w: nat)
    requires n < Pow10(w)
    ensures Value(Numeral(n, w)) == n
  {
    if w > 0 {
      var s := Numeral(n, w);
      assert s[..|s| - 1] == Numeral(n / 10, w - 1);
      assert n / 10 < Pow10(w - 1);
      ValueOfNumeral(n / 10, w - 1);
    }
  }

  /** Writing the value of a digit string in its own width gives the string back. */
  lemma {:induction false} NumeralOfValue(s: string)
    requires AllDigits(s)
    ensures Numeral(Value(s), |s|) == s
  {
    if s != [] {
      var init := s[..|s| - 1];
      var n := Value(s);
      assert n / 10 == Value(init) && n % 10 == DigitValue(s[|s| - 1]);
      NumeralOfValue(init);
      assert s == init + [s[|s| - 1]];
    }
  }
}
