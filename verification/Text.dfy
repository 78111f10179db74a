/** Digits, and decimal numerals as text and back. */
module Text {

  predicate IsDigit(c: char) { '0' <= c <= '9' }

  function DigitChar(d: nat): (c: char)
    requires d < 10
    ensures IsDigit(c) && DigitValue(c) == d
  {
    "0123456789"[d]
  }

  function DigitValue(c: char): nat
    requires IsDigit(c)
  {
    c as nat - '0' as nat
  }

  function HexDigit(d: nat): (c: char)
    requires d < 16
  {
    "0123456789abcdef"[d]
  }

  /** The decimal numeral of n, without leading zeros. */
  function Numeral(n: nat): (s: string)
    ensures s != [] && forall i | 0 <= i < |s| :: IsDigit(s[i])
  {
    if n < 10 then [DigitChar(n)] else Numeral(n / 10) + [DigitChar(n % 10)]
  }

  function ReadNumeral(s: string): nat
    requires forall i | 0 <= i < |s| :: IsDigit(s[i])
  {
    if s == [] then 0 else 10 * ReadNumeral(s[..|s| - 1]) + DigitValue(s[|s| - 1])
  }

  lemma {:induction false} NumeralRoundTrip(n: nat)
    ensures ReadNumeral(Numeral(n)) == n
  {
    var s := Numeral(n);
    if n < 10 {
      assert s[..|s| - 1] == [];
    } else {
      assert s[..|s| - 1] == Numeral(n / 10);
      NumeralRoundTrip(n / 10);
    }
  }

  lemma {:induction false} NoLeadingZero(n: nat)
    ensures |Numeral(n)| > 1 ==> Numeral(n)[0] != '0'
  {
    if n >= 10 {
      NoLeadingZero(n / 10);
      assert n < 100 ==> Numeral(n / 10) == [DigitChar(n / 10)];
      assert |Numeral(n / 10)| == 1 ==> n < 100;
    }
  }

  lemma NumeralInjective(a: nat, b: nat)
    ensures Numeral(a) == Numeral(b) ==> a == b
  {
    NumeralRoundTrip(a);
    NumeralRoundTrip(b);
  }
}
