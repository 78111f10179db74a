/**
 The delta-percent cell of the consolidated report.

 Amounts are integers of cents. The code divides under Python's default decimal context
 (28 significant digits, half-even), multiplies by 100, and quantizes half-up to one decimal.
 The main result is that the two roundings together are one exact half-up rounding.
*/
module DeltaPct {
  import opened Common
  import opened Rounding
  import opened Text

  /** Columns are Numeric(18, 2): fewer than 10^18 cents in absolute value. */
  const AMOUNT_LIMIT: nat := 1_000_000_000_000_000_000

  /** 10^27: a coefficient of 28 significant digits is at least this and below ten times this. */
  const SMALLEST_COEFFICIENT: nat := 1_000_000_000_000_000_000_000_000_000

  /** The non-negative decimal coefficient * 10^down / 10^up. */
  datatype Quotient = Quotient(coefficient: nat, up: nat, down: nat)

  datatype Shift = Shift(up: nat, down: nat)

  function Abs(x: int): nat { if x < 0 then -x else x }

  /** num * 10^up / (den * 10^down) has exactly 28 integer digits. */
  predicate Has28Digits(num: nat, den: nat, up: nat, down: nat) {
    SMALLEST_COEFFICIENT * (den * Pow10(down)) <= num * Pow10(up) < 10 * SMALLEST_COEFFICIENT * (den * Pow10(down))
  }

  /** The power of ten that brings num/den to exactly 28 integer digits. */
  function Normalize(num: nat, den: nat): (s: Shift)
    requires num > 0 && den > 0
    ensures Has28Digits(num, den, s.up, s.down)
    ensures num < 10 * SMALLEST_COEFFICIENT * den ==> s.down == 0
    decreases if num < SMALLEST_COEFFICIENT * den then SMALLEST_COEFFICIENT * den - num
              else if num >= 10 * SMALLEST_COEFFICIENT * den then num - SMALLEST_COEFFICIENT * den else 0
  {
    if num < SMALLEST_COEFFICIENT * den then
      var s := Normalize(10 * num, den);
      ShiftUp(num, den, s.up, s.down);
      Shift(s.up + 1, s.down)
    else if num >= 10 * SMALLEST_COEFFICIENT * den then
      var s := Normalize(num, 10 * den);
      ShiftDown(num, den, s.up, s.down);
      Shift(s.up, s.down + 1)
    else
      Shift(0, 0)
  }

  lemma TimesTen(x: int, p: int)
    ensures (10 * x) * p == x * (10 * p)
  {
  }

  lemma ShiftUp(num: nat, den: nat, up: nat, down: nat)
    ensures Has28Digits(10 * num, den, up, down) <==> Has28Digits(num, den, up + 1, down)
  {
    TimesTen(num, Pow10(up));
  }

  lemma ShiftDown(num: nat, den: nat, up: nat, down: nat)
    ensures Has28Digits(num, 10 * den, up, down) <==> Has28Digits(num, den, up, down + 1)
  {
    TimesTen(den, Pow10(down));
  }

  /** Decimal division of non-negative operands: 28 significant digits, half-even. */
  function Divide(num: nat, den: nat): Quotient
    requires den > 0
  {
    if num == 0 then Quotient(0, 0, 0)
    else
      var s := Normalize(num, den);
      Quotient(RoundHalfEven(num * Pow10(s.up), den * Pow10(s.down)), s.up, s.down)
  }

  /** `q * 100` is exact (it only moves the decimal point); quantize then rounds half-up to 0.1. */
  function QuantizePercent(q: Quotient): nat
  {
    RoundHalfUp(1000 * q.coefficient * Pow10(q.down), Pow10(q.up))
  }

  /** Text of a decimal with exponent -1, as Python renders it; a negative zero keeps its sign. */
  function TenthsText(negative: bool, tenths: nat): string
  {
    (if negative then "-" else "") + Numeral(tenths / 10) + "." + [DigitChar(tenths % 10)]
  }

  function FormatDeltaPct(delta: Option<int>, actual: Option<int>): string
  {
    if actual.None? || actual.value == 0 || delta.None? then "N/A"
    else
      TenthsText((delta.value < 0) != (actual.value < 0),
                 QuantizePercent(Divide(Abs(delta.value), Abs(actual.value))))
  }

  // ------------------------------------------------------------------ the intermediate rounding

  /** The quotient is an integer multiple of 1/u, and 1000 units of 1/u are below 1/den. */
  lemma QuotientError(num: nat, den: nat)
    requires 0 < num < 1_000_000 * AMOUNT_LIMIT && den > 0
    ensures var q := Divide(num, den);
            var u := Pow10(q.up);
            && 1000 * den < u
            && q.down == 0
            && q.coefficient == RoundHalfEven(num * u, den)
  {
    var q := Divide(num, den);
    var u := Pow10(q.up);
    assert Pow10(0) == 1;
    assert q.down == 0 && den * 1 == den;
    ScaleBound(num, den, u);
  }

  /** 10^27 * den <= num * u < 10^24 * u */
  lemma ScaleBound(num: nat, den: nat, u: nat)
    requires num < 1_000_000 * AMOUNT_LIMIT && u > 0 && SMALLEST_COEFFICIENT * den <= num * u
    ensures 1000 * den < u
  {
    assert 1_000_000 * AMOUNT_LIMIT * 1000 == SMALLEST_COEFFICIENT;
    assert (num + 1) * u == num * u + u;
    MulMono(num + 1, 1_000_000 * AMOUNT_LIMIT, u);
  }

  /** (x * y) * z == x * (y * z), kept apart so the larger proofs stay linear. */
  lemma Assoc(x: int, y: int, z: int)
    ensures (x * y) * z == x * (y * z) == (x * z) * y
  {
  }

  lemma Bracket(m: int, d: int, u: int)
    ensures (2 * (m * d) - d) * u == (2 * (m * u) - u) * d
    ensures (2 * (m * d) + d) * u == (2 * (m * u) + u) * d
  {
    Assoc(m, d, u);
    assert (2 * (m * d) - d) * u == 2 * ((m * d) * u) - d * u;
    assert (2 * (m * u) - u) * d == 2 * ((m * u) * d) - u * d;
    assert (2 * (m * d) + d) * u == 2 * ((m * d) * u) + d * u;
    assert (2 * (m * u) + u) * d == 2 * ((m * u) * d) + u * d;
  }

  /** A tie scaled by a multiple of 10^4 is a whole multiple of den. */
  lemma TieIsWhole(num: nat, den: nat, m: nat, w: nat)
    requires 2000 * num == 2 * (m * den) - den
    ensures num * (10000 * w) == (5 * w * (2 * m - 1)) * den
  {
    assert num * (10000 * w) == 5 * w * (2000 * num);
    assert 2 * (m * den) - den == (2 * m - 1) * den;
    Assoc(5 * w, 2 * m - 1, den);
  }

  lemma EnoughDigits(den: nat, up: nat)
    requires den > 0 && 1000 * den < Pow10(up)
    ensures up >= 4 && Pow10(up) == 10000 * Pow10(up - 4)
  {
    assert Pow10(3) == 1000 && Pow10(4) == 10000;
    if up < 4 {
      Pow10Grows(up, 3);
    }
    Pow10Add(4, up - 4);
  }

  /** When the exact percentage is a tie, the quotient has few enough digits to be exact. */
  lemma TieIsExact(num: nat, den: nat, m: nat)
    requires 0 < num < 1_000_000 * AMOUNT_LIMIT && den > 0
    requires 2000 * num == 2 * (m * den) - den
    ensures var q := Divide(num, den); q.coefficient * den == num * Pow10(q.up)
  {
    var q := Divide(num, den);
    QuotientError(num, den);
    EnoughDigits(den, q.up);
    var w := Pow10(q.up - 4);
    TieIsWhole(num, den, m, w);
    WholeIsExact(num * Pow10(q.up), den, 5 * w * (2 * m - 1));
  }

  lemma WholeIsExact(num: nat, den: nat, k: int)
    requires den > 0 && num == k * den
    ensures RoundHalfEven(num, den) == k
  {
    MulCancel(0, k, den);
    RoundHalfEvenUnique(num, den, k);
  }

  /** Rounding the quotient never drops below a rounding boundary of the exact percentage. */
  lemma LowerBoundary(num: nat, den: nat, m: nat)
    requires 0 < num < 1_000_000 * AMOUNT_LIMIT && den > 0
    requires 2 * (m * den) - den <= 2000 * num
    ensures var q := Divide(num, den);
            2 * (m * Pow10(q.up)) - Pow10(q.up) <= 2000 * q.coefficient
  {
    var q := Divide(num, den);
    var u, c := Pow10(q.up), q.coefficient;
    QuotientError(num, den);
    var edge := 2 * (m * den) - den;
    Assoc(2000, num, u);
    Assoc(2000, c, den);
    if edge == 2000 * num {
      TieIsExact(num, den, m);
    } else {
      MulMono(edge + 1, 2000 * num, u);
      assert (edge + 1) * u == edge * u + u;
    }
    assert edge * u <= 2000 * (c * den);
    Bracket(m, den, u);
    MulCancel(2 * (m * u) - u, 2000 * c, den);
  }

  /** A coefficient within half a unit of num * u / den stays below a boundary that num * u does not reach. */
  lemma BelowBoundary(num: nat, den: nat, m: nat, u: nat, c: nat)
    requires den > 0 && 1000 * den < u
    requires 2 * (c * den) <= 2 * (num * u) + den
    requires 2000 * num + 1 <= 2 * (m * den) + den
    ensures 2000 * c < 2 * (m * u) + u
  {
    var edge := 2 * (m * den) + den;
    MulMono(2000 * num + 1, edge, u);
    assert (2000 * num + 1) * u == 2000 * (num * u) + u;
    assert 2000 * (c * den) < edge * u;
    Bracket(m, den, u);
    Assoc(2000, c, den);
    if 2 * (m * u) + u <= 2000 * c {
      MulMono(2 * (m * u) + u, 2000 * c, den);
    }
  }

  /** It never reaches the next boundary from below either, so no tie is created. */
  lemma UpperBoundary(num: nat, den: nat, m: nat)
    requires 0 < num < 1_000_000 * AMOUNT_LIMIT && den > 0
    requires 2000 * num < 2 * (m * den) + den
    ensures var q := Divide(num, den);
            2000 * q.coefficient < 2 * (m * Pow10(q.up)) + Pow10(q.up)
  {
    var q := Divide(num, den);
    QuotientError(num, den);
    BelowBoundary(num, den, m, Pow10(q.up), q.coefficient);
  }

  /** Two roundings are one: for any fraction with numerator below 10^24, not only for amounts. */
  lemma TwoRoundingsAreOne(num: nat, den: nat)
    requires num < 1_000_000 * AMOUNT_LIMIT && den > 0
    ensures QuantizePercent(Divide(num, den)) == RoundHalfUp(1000 * num, den)
  {
    var m := RoundHalfUp(1000 * num, den);
    assert Pow10(0) == 1;
    if num == 0 {
      RoundHalfUpUnique(0, den, 0);
    } else {
      var q := Divide(num, den);
      QuotientError(num, den);
      LowerBoundary(num, den, m);
      UpperBoundary(num, den, m);
      RoundHalfUpUnique(1000 * q.coefficient * Pow10(q.down), Pow10(q.up), m);
    }
  }

  // ------------------------------------------------------------------ main results

  /** For every budget and every non-zero actual the column can hold, the cell is the exact percentage
      100 * (budget - actual) / actual rounded once, half-up, with the sign of the exact quotient. */
  lemma DeltaPctIsExactlyRounded(budget: int, actual: int)
    requires Abs(budget) < AMOUNT_LIMIT && Abs(actual) < AMOUNT_LIMIT && actual != 0
    ensures FormatDeltaPct(Some(budget - actual), Some(actual))
         == TenthsText((budget < actual) != (actual < 0), RoundHalfUp(1000 * Abs(budget - actual), Abs(actual)))
  {
    TwoRoundingsAreOne(Abs(budget - actual), Abs(actual));
  }

  /** The text is a number with one decimal: a minus sign or none, a numeral without leading zeros, the point, and
      one digit; and the number is so many tenths. */
  predicate ReadsAs(text: string, negative: bool, tenths: nat) {
    var skip := if negative then 1 else 0;
    && |text| >= skip + 3 && text[|text| - 2] == '.' && IsDigit(text[|text| - 1])
    && (text[0] == '-' <==> negative)
    && (forall i | skip <= i < |text| - 2 :: IsDigit(text[i]))
    && (|text| > skip + 3 ==> text[skip] != '0')
    && 10 * ReadNumeral(text[skip..|text| - 2]) + DigitValue(text[|text| - 1]) == tenths
  }

  lemma TenthsTextReads(negative: bool, tenths: nat)
    ensures ReadsAs(TenthsText(negative, tenths), negative, tenths)
  {
    var text, skip := TenthsText(negative, tenths), if negative then 1 else 0;
    assert text[skip..|text| - 2] == Numeral(tenths / 10);
    assert forall i | skip <= i < |text| - 2 :: text[i] == Numeral(tenths / 10)[i - skip];
    NumeralRoundTrip(tenths / 10);
    NoLeadingZero(tenths / 10);
  }

  /** What the cell of a budget and a non-zero actual reads as: 100 * (budget - actual) / actual to the nearest
      tenth, a half going away from zero, with the sign of the exact quotient. */
  ghost predicate ReadsAsPercentage(text: string, budget: int, actual: int) {
    exists tenths: nat ::
      && ReadsAs(text, (budget < actual) != (actual < 0), tenths)
      && 2 * (tenths * Abs(actual)) - Abs(actual) <= 2000 * Abs(budget - actual)
      && 2000 * Abs(budget - actual) < 2 * (tenths * Abs(actual)) + Abs(actual)
  }

  lemma DeltaPctReads(budget: int, actual: int)
    requires Abs(budget) < AMOUNT_LIMIT && Abs(actual) < AMOUNT_LIMIT && actual != 0
    ensures ReadsAsPercentage(FormatDeltaPct(Some(budget - actual), Some(actual)), budget, actual)
  {
    DeltaPctIsExactlyRounded(budget, actual);
    var tenths := RoundHalfUp(1000 * Abs(budget - actual), Abs(actual));
    TenthsTextReads((budget < actual) != (actual < 0), tenths);
  }

  /** 1,200.00 against 1,100.00. */
  lemma HundredOverElevenHundred()
    ensures FormatDeltaPct(Some(120_000 - 110_000), Some(110_000)) == "9.1"
  {
    DeltaPctIsExactlyRounded(120_000, 110_000);
    RoundHalfUpUnique(10_000_000, 110_000, 91);
    assert Numeral(9) == "9";
  }

  /** The text determines the sign and the tenths: nothing is lost in rendering. */
  lemma TenthsTextInjective(n1: bool, t1: nat, n2: bool, t2: nat)
    requires TenthsText(n1, t1) == TenthsText(n2, t2)
    ensures n1 == n2 && t1 == t2
  {
    var s1, s2 := TenthsText(n1, t1), TenthsText(n2, t2);
    assert s1[0] == (if n1 then '-' else Numeral(t1 / 10)[0]);
    assert s2[0] == (if n2 then '-' else Numeral(t2 / 10)[0]);
    var skip := if n1 then 1 else 0;
    assert s1[skip..|s1| - 2] == Numeral(t1 / 10);
    assert s2[skip..|s2| - 2] == Numeral(t2 / 10);
    NumeralInjective(t1 / 10, t2 / 10);
    assert DigitValue(s1[|s1| - 1]) == t1 % 10 && DigitValue(s2[|s2| - 1]) == t2 % 10;
  }

  /** A cell reads "-0.0" exactly when the quotient is a signed zero or rounds to zero from below. */
  lemma NegativeZeroCell(budget: int, actual: int)
    requires Abs(budget) < AMOUNT_LIMIT && Abs(actual) < AMOUNT_LIMIT && actual != 0
    ensures FormatDeltaPct(Some(budget - actual), Some(actual)) == "-0.0"
       <==> (budget < actual) != (actual < 0) && 2000 * Abs(budget - actual) < Abs(actual)
  {
    DeltaPctIsExactlyRounded(budget, actual);
    var n, d := Abs(budget - actual), Abs(actual);
    var negative := (budget < actual) != (actual < 0);
    assert TenthsText(true, 0) == "-0.0" by { assert Numeral(0) == "0"; }
    RoundsToZero(1000 * n, d);
    if TenthsText(negative, RoundHalfUp(1000 * n, d)) == TenthsText(true, 0) {
      TenthsTextInjective(negative, RoundHalfUp(1000 * n, d), true, 0);
    }
  }

  /** A budget one cent below an actual of 10,000.00 shows it, and so does a budget equal to a negative actual. */
  lemma ReadsNegativeZero()
    ensures FormatDeltaPct(Some(999_999 - 1_000_000), Some(1_000_000)) == "-0.0"
    ensures FormatDeltaPct(Some(-5 - -5), Some(-5)) == "-0.0"
  {
    NegativeZeroCell(999_999, 1_000_000);
    NegativeZeroCell(-5, -5);
  }

  /** A rendered percentage is never taken for the "N/A" cell: it ends in a digit. */
  lemma TenthsTextIsNotNA(negative: bool, tenths: nat)
    ensures TenthsText(negative, tenths) != "N/A"
  {
    var text := TenthsText(negative, tenths);
    assert text[|text| - 1] == DigitChar(tenths % 10);
  }

  lemma RoundsToZero(num: nat, den: nat)
    requires den > 0
    ensures RoundHalfUp(num, den) == 0 <==> 2 * num < den
  {
    if 2 * num < den {
      RoundHalfUpUnique(num, den, 0);
    }
  }
}
