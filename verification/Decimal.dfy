/** Decimal numerals: writing a number and reading it back. */
module Decimal {

  predicate IsDigit(c: char) {
    '0' <= c <= '9'
  }

  predicate AllDigits(s: string) {
    forall i :: 0 <= i < |s| ==> IsDigit(s[i])
  }

  function DigitOf(d: nat): (c: char)
    requires d < 10
    ensures IsDigit(c)
  {
    '0' + (d as char)
  }

  function DigitValue(c: char): nat
    requires IsDigit(c)
  {
    (c - '0') as nat
  }

  function Digits(n: nat): (s: string)
    ensures s != "" && AllDigits(s)
  {
    if n < 10 then [DigitOf(n)] else Digits(n / 10) + [DigitOf(n % 10)]
  }

  function Value(s: string): nat
    requires AllDigits(s)
  {
    if s == "" then 0 else 10 * Value(s[..|s| - 1]) + DigitValue(s[|s| - 1])
  }

  lemma {:induction false} ValueOfDigits(n: nat)
    ensures Value(Digits(n)) == n
  {
    if n < 10 {
      assert Digits(n)[..0] == "";
    } else {
      var s := Digits(n);
      assert s[..|s| - 1] == Digits(n / 10);
      ValueOfDigits(n / 10);
    }
  }

  /** A numeral is no longer than the number it stands for. */
  lemma {:induction false} DigitsShort(n: nat)
    requires n > 0
    ensures |Digits(n)| <= n
  {
    if n >= 10 {
      DigitsShort(n / 10);
    }
  }

  /** A numeral given as bytes. */
  function Numeral(l: seq<int>): (s: string)
    requires forall i :: 0 <= i < |l| ==> 48 <= l[i] <= 57
    ensures |s| == |l| && AllDigits(s)
  {
    seq(|l|, i requires 0 <= i < |l| => l[i] as char)
  }
}
