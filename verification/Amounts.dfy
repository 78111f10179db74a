/** Cell cleaning and money parsing shared by every importer. */
module Amounts {
  import opened Common
  import opened Rounding

  // ------------------------------------------------------------------ clean_cell

  /** The characters Python's str.strip() removes. */
  predicate IsSpace(c: char) {
    var k := c as int;
    9 <= k <= 13 || 28 <= k <= 32 || k == 0x85 || k == 0xA0 || k == 0x1680 || 0x2000 <= k <= 0x200A
    || k == 0x2028 || k == 0x2029 || k == 0x202F || k == 0x205F || k == 0x3000
  }

  /** Space, tab, the line ends and the no-break space are blank; no printed ASCII character is. */
  lemma UsualBlanks(c: char)
    ensures IsSpace(' ') && IsSpace('\t') && IsSpace('\n') && IsSpace('\r') && IsSpace(0xA0 as char)
    ensures '!' <= c <= '~' ==> !IsSpace(c)
  {
  }

  function Strip(s: string): string
  {
    if s == [] then []
    else if IsSpace(s[0]) then Strip(s[1..])
    else if IsSpace(s[|s| - 1]) then Strip(s[..|s| - 1])
    else s
  }

  /** What is left starts and ends with a character that is not blank; nothing is left of blank text only. */
  lemma {:induction false} StripLeavesNoBlankEnds(s: string)
    ensures Strip(s) != [] ==> !IsSpace(Strip(s)[0]) && !IsSpace(Strip(s)[|Strip(s)| - 1])
    ensures Strip(s) == [] <==> forall c | c in s :: IsSpace(c)
  {
    if s != [] {
      if IsSpace(s[0]) {
        StripLeavesNoBlankEnds(s[1..]);
      } else if IsSpace(s[|s| - 1]) {
        assert s[0] in s[..|s| - 1] && s == s[..|s| - 1] + [s[|s| - 1]];
        StripLeavesNoBlankEnds(s[..|s| - 1]);
      } else {
        assert s[0] in s;
      }
    }
  }

  /** What strip takes off is blank, at both ends. */
  lemma {:induction false} StripTakesBlanks(s: string) returns (before: string, after: string)
    ensures s == before + Strip(s) + after
    ensures (forall c | c in before :: IsSpace(c)) && forall c | c in after :: IsSpace(c)
  {
    if s == [] {
      before, after := [], [];
    } else if IsSpace(s[0]) {
      before, after := StripTakesBlanks(s[1..]);
      before := [s[0]] + before;
    } else if IsSpace(s[|s| - 1]) {
      before, after := StripTakesBlanks(s[..|s| - 1]);
      after := after + [s[|s| - 1]];
    } else {
      before, after := [], [];
    }
  }

  predicate Blank(s: string) { forall c | c in s :: IsSpace(c) }

  lemma {:induction false} StripDropsBlankStart(p: string, s: string)
    requires Blank(p)
    ensures Strip(p + s) == Strip(s)
  {
    if p == [] {
      assert p + s == s;
    } else {
      assert (p + s)[1..] == p[1..] + s;
      StripDropsBlankStart(p[1..], s);
    }
  }

  lemma {:induction false} StripDropsBlankEnd(s: string, q: string)
    requires Blank(q)
    ensures Strip(s + q) == Strip(s)
    decreases |s| + |q|
  {
    if q == [] {
      assert s + q == s;
    } else if s == [] {
      assert s + q == q;
      StripLeavesNoBlankEnds(q);
    } else if IsSpace(s[0]) {
      assert (s + q)[1..] == s[1..] + q;
      StripDropsBlankEnd(s[1..], q);
    } else {
      assert (s + q)[..|s + q| - 1] == s + q[..|q| - 1] && (s + q)[|s + q| - 1] == q[|q| - 1];
      StripDropsBlankEnd(s, q[..|q| - 1]);
    }
  }

  /** Blanks around a text do not matter. */
  lemma StripIgnoresPadding(p: string, s: string, q: string)
    requires Blank(p) && Blank(q)
    ensures Strip(p + s + q) == Strip(s)
  {
    StripDropsBlankEnd(p + s, q);
    StripDropsBlankStart(p, s);
  }

  function CleanCell(value: Option<string>): (r: Option<string>)
  {
    if value.None? then None
    else
      var stripped := Strip(value.value);
      if stripped == [] then None else Some(stripped)
  }

  /** Cleaning is idempotent, and yields a value exactly when some character is not blank. */
  lemma CleanCellNormalizes(value: Option<string>)
    ensures CleanCell(CleanCell(value)) == CleanCell(value)
    ensures CleanCell(value).Some? <==> value.Some? && exists c | c in value.value :: !IsSpace(c)
  {
    if value.Some? {
      StripLeavesNoBlankEnds(value.value);
    }
  }

  // ------------------------------------------------------------------ parse_amount

  /** A decimal number: (-1)^negative * coefficient * 10^exponent. */
  datatype Decimal = Finite(negative: bool, coefficient: nat, exponent: int) | NotFinite

  /** A raw cell. A float carries the decimal its shortest text denotes; text carries what
      the decimal constructor makes of it, None when it is not a numeral. */
  datatype Cell =
    | Missing
    | Flag(b: bool)
    | Whole(n: int)
    | Float(shortest: Decimal)
    | Exact(d: Decimal)
    | Text(text: string, numeral: Option<Decimal>)
    | Unsupported

  datatype AmountError =
    | AmountEmpty | AmountIsBool | AmountNotNumeric | AmountUnsupported
    | AmountNotFinite | AmountNegative | AmountZero | AmountOverflow

  /** A quantized coefficient must fit the 28 digits of the default decimal context. */
  const QUANTIZE_LIMIT: nat := 10_000_000_000_000_000_000_000_000_000

  function AsDecimal(cell: Cell): Result<Decimal, AmountError>
  {
    match cell
    case Missing => Err(AmountEmpty)
    case Flag(_) => Err(AmountIsBool)
    case Exact(d) => Ok(d)
    case Whole(n) => Ok(Finite(n < 0, if n < 0 then -n else n, 0))
    case Float(d) => Ok(d)
    case Text(t, numeral) =>
      if Strip(t) == [] then Err(AmountEmpty)
      else if numeral.None? then Err(AmountNotNumeric)
      else Ok(numeral.value)
    case Unsupported => Err(AmountUnsupported)
  }

  /** The magnitude in cents as a fraction num/den. */
  function CentsNum(d: Decimal): nat
    requires d.Finite?
  {
    if d.exponent >= -2 then d.coefficient * Pow10(d.exponent + 2) else d.coefficient
  }

  function CentsDen(d: Decimal): (den: nat)
    requires d.Finite?
    ensures den > 0
  {
    if d.exponent >= -2 then 1 else Pow10(-2 - d.exponent)
  }

  function Quantize(d: Decimal): nat
    requires d.Finite?
  {
    RoundHalfEven(CentsNum(d), CentsDen(d))
  }

  predicate IsNegative(d: Decimal)
    requires d.Finite?
  {
    d.negative && d.coefficient > 0
  }

  /** The amount in cents. The zero test precedes rounding, as in the source. */
  function ParseAmount(cell: Cell, allowZero: bool): Result<nat, AmountError>
  {
    var parsed := AsDecimal(cell);
    if parsed.Err? then Err(parsed.error)
    else
      var d := parsed.value;
      if d.NotFinite? then Err(AmountNotFinite)
      else if IsNegative(d) then Err(AmountNegative)
      else if d.coefficient == 0 && !allowZero then Err(AmountZero)
      else if Quantize(d) >= QUANTIZE_LIMIT then Err(AmountOverflow)
      else Ok(Quantize(d))
  }

  function Distance(a: int, b: int): nat { if a < b then b - a else a - b }

  // ------------------------------------------------------------------ what a cell is worth

  /** 10^k */
  function TenTo(k: int): real { if k >= 0 then Pow10(k) as real else 1.0 / Pow10(-k) as real }

  /** The number a decimal denotes. */
  function ValueOf(d: Decimal): real
    requires d.Finite?
  {
    (if d.negative then -1.0 else 1.0) * (d.coefficient as real * TenTo(d.exponent))
  }

  /** The amount a cell states, None for cells that state none: a whole number is itself, a float and a decimal are
      the decimal they show, and text that is not blank is the decimal it spells. */
  function StatedAmount(cell: Cell): Option<real>
  {
    match cell
    case Whole(n) => Some(n as real)
    case Float(d) => if d.Finite? then Some(ValueOf(d)) else None
    case Exact(d) => if d.Finite? then Some(ValueOf(d)) else None
    case Text(t, Some(d)) => if d.Finite? && exists c | c in t :: !IsSpace(c) then Some(ValueOf(d)) else None
    case _ => None
  }

  lemma HundredTimes(k: nat)
    ensures Pow10(k + 2) == 100 * Pow10(k)
  {
    assert Pow10(k + 2) == 10 * Pow10(k + 1) == 10 * (10 * Pow10(k));
  }

  lemma CentsTenTo(k: int)
    ensures k >= -2 ==> Pow10(k + 2) as real == 100.0 * TenTo(k)
    ensures k < -2 ==> 1.0 == 100.0 * TenTo(k) * Pow10(-2 - k) as real
  {
    if k >= 0 {
      HundredTimes(k);
    } else if k < -2 {
      HundredTimes(-2 - k);
      var p := Pow10(-2 - k) as real;
      assert 100.0 * (1.0 / (100.0 * p)) * p == 1.0;
    } else {
      assert Pow10(0) == 1 && Pow10(1) == 10 && Pow10(2) == 100;
    }
  }

  /** num/den is the magnitude in cents. */
  lemma CentsAreHundredths(d: Decimal)
    requires d.Finite?
    ensures CentsNum(d) as real == 100.0 * (d.coefficient as real * TenTo(d.exponent)) * CentsDen(d) as real
  {
    CentsTenTo(d.exponent);
    var c := d.coefficient as real;
    if d.exponent >= -2 {
      assert CentsNum(d) as real == c * (100.0 * TenTo(d.exponent));
      assert CentsDen(d) as real == 1.0;
    } else {
      ScaledCents(c, TenTo(d.exponent), CentsDen(d) as real);
    }
  }

  lemma ScaledCents(c: real, t: real, p: real)
    requires 1.0 == 100.0 * t * p
    ensures c == 100.0 * (c * t) * p
  {
    assert 100.0 * (c * t) * p == c * (100.0 * t * p);
  }

  lemma TenToIsPositive(k: int)
    ensures TenTo(k) > 0.0
  {
  }

  lemma SignOfValue(d: Decimal)
    requires d.Finite?
    ensures ValueOf(d) < 0.0 <==> IsNegative(d)
    ensures ValueOf(d) == 0.0 <==> d.coefficient == 0
  {
    TenToIsPositive(d.exponent);
    var m := d.coefficient as real * TenTo(d.exponent);
    if d.coefficient > 0 {
      assert m > 0.0;
    } else {
      assert m == 0.0;
    }
  }

  /** A finite decimal is read off exactly the cells that state an amount, and it is that amount. */
  lemma AsDecimalStates(cell: Cell)
    ensures StatedAmount(cell).Some? <==> AsDecimal(cell).Ok? && AsDecimal(cell).value.Finite?
    ensures StatedAmount(cell).Some? ==> StatedAmount(cell).value == ValueOf(AsDecimal(cell).value)
  {
    if cell.Text? {
      StripLeavesNoBlankEnds(cell.text);
    }
    if cell.Whole? {
      assert TenTo(0) == 1.0;
      var d := AsDecimal(cell).value;
      assert d.coefficient as real * TenTo(d.exponent) == d.coefficient as real;
    }
  }

  /** Exactly when each outcome is given. */
  lemma ParseAmountIff(cell: Cell, allowZero: bool)
    ensures var (result, stated) := (ParseAmount(cell, allowZero), StatedAmount(cell));
            && (result == Err(AmountEmpty)
                <==> cell.Missing? || (cell.Text? && forall c | c in cell.text :: IsSpace(c)))
            && (result == Err(AmountIsBool) <==> cell.Flag?)
            && (result == Err(AmountUnsupported) <==> cell.Unsupported?)
            && (result == Err(AmountNotNumeric) <==>
                  cell.Text? && cell.numeral.None? && exists c | c in cell.text :: !IsSpace(c))
            && (result == Err(AmountNotFinite) <==>
                  || cell == Float(NotFinite) || cell == Exact(NotFinite)
                  || (cell.Text? && cell.numeral == Some(NotFinite) && exists c | c in cell.text :: !IsSpace(c)))
            && (result == Err(AmountNegative) <==> stated.Some? && stated.value < 0.0)
            && (result == Err(AmountZero) <==> stated == Some(0.0) && !allowZero)
            && (result == Err(AmountOverflow) <==>
                  stated.Some? && 100.0 * stated.value >= 10_000_000_000_000_000_000_000_000_000.0 - 0.5)
  {
    AsDecimalStates(cell);
    if cell.Text? {
      StripLeavesNoBlankEnds(cell.text);
    }
    if StatedAmount(cell).Some? {
      var d := AsDecimal(cell).value;
      SignOfValue(d);
      if ValueOf(d) >= 0.0 {
        OverflowIff(d);
      }
    }
  }

  lemma OverflowIff(d: Decimal)
    requires d.Finite? && ValueOf(d) >= 0.0
    ensures Quantize(d) >= QUANTIZE_LIMIT <==> 100.0 * ValueOf(d) >= 10_000_000_000_000_000_000_000_000_000.0 - 0.5
  {
    NonNegativeCents(d);
    ReachesLimit(CentsNum(d), CentsDen(d), QUANTIZE_LIMIT);
    LimitAsReal(CentsNum(d), CentsDen(d), 100.0 * ValueOf(d), QUANTIZE_LIMIT);
  }

  /** Rounding half to even reaches an even limit from half a unit below it. */
  lemma ReachesLimit(n: nat, den: nat, limit: nat)
    requires den > 0 && limit % 2 == 0
    ensures RoundHalfEven(n, den) >= limit <==> 2 * n >= 2 * (limit * den) - den
  {
    var r := RoundHalfEven(n, den);
    if r >= limit {
      MulMono(limit, r, den);
    } else {
      MulMono(r + 1, limit, den);
      assert (r + 1) * den == r * den + den;
      if 2 * n >= 2 * (limit * den) - den {
        assert 2 * n == 2 * (r * den) + den;
        assert limit * den == (r + 1) * den;
        EqCancel(limit, r + 1, den);
      }
    }
  }

  lemma RealTimes(a: nat, b: nat)
    ensures (a * b) as real == a as real * b as real
  {
  }

  lemma FactorOut(v: real, limit: real, d: real)
    ensures 2.0 * (v * d) - (2.0 * (limit * d) - d) == (2.0 * (v - (limit - 0.5))) * d
    ensures 2.0 * (limit * d) + d - 2.0 * (v * d) == (2.0 * (limit + 0.5 - v)) * d
  {
  }

  lemma LimitAsReal(n: nat, den: nat, v: real, limit: nat)
    requires den > 0 && n as real == v * den as real
    ensures 2 * n >= 2 * (limit * den) - den <==> v >= limit as real - 0.5
    ensures 2 * n <= 2 * (limit * den) + den <==> v <= limit as real + 0.5
  {
    var d, m := den as real, limit * den;
    RealTimes(limit, den);
    FactorOut(v, limit as real, d);
    SignTimes(2.0 * (v - (limit as real - 0.5)), d);
    SignTimes(2.0 * (limit as real + 0.5 - v), d);
    assert 2 * n >= 2 * m - den <==> 2.0 * n as real - (2.0 * m as real - d) >= 0.0;
    assert 2 * n <= 2 * m + den <==> 2.0 * m as real + d - 2.0 * n as real >= 0.0;
  }

  lemma SignTimes(x: real, d: real)
    requires d > 0.0
    ensures x * d >= 0.0 <==> x >= 0.0
  {
    if x < 0.0 {
      assert x * d < 0.0;
    }
  }

  function RealDistance(a: real, b: real): real { if a < b then b - a else a - b }

  /** An accepted amount is the cent nearest to what the cell states: it is within half a cent, no other whole
      number of cents is nearer, and ties go to the even one. */
  lemma NearestCent(cell: Cell, allowZero: bool, k: nat)
    requires ParseAmount(cell, allowZero).Ok?
    ensures StatedAmount(cell).Some?
    ensures var (cents, r) := (100.0 * StatedAmount(cell).value, ParseAmount(cell, allowZero).value);
            && RealDistance(cents, r as real) <= 0.5
            && RealDistance(cents, r as real) <= RealDistance(cents, k as real)
            && (k != r && RealDistance(cents, r as real) == RealDistance(cents, k as real) ==> r % 2 == 0)
  {
    AsDecimalStates(cell);
    SignOfValue(AsDecimal(cell).value);
    QuantizeIsNearest(AsDecimal(cell).value, k);
  }

  lemma QuantizeIsNearest(d: Decimal, k: nat)
    requires d.Finite? && ValueOf(d) >= 0.0
    ensures var (v, r) := (100.0 * ValueOf(d), Quantize(d));
            && RealDistance(v, r as real) <= 0.5
            && RealDistance(v, r as real) <= RealDistance(v, k as real)
            && (k != r && RealDistance(v, r as real) == RealDistance(v, k as real) ==> r % 2 == 0)
  {
    NonNegativeCents(d);
    NearestToFraction(CentsNum(d), CentsDen(d), 100.0 * ValueOf(d), k);
  }

  lemma NonNegativeCents(d: Decimal)
    requires d.Finite? && ValueOf(d) >= 0.0
    ensures CentsNum(d) as real == (100.0 * ValueOf(d)) * CentsDen(d) as real
  {
    SignOfValue(d);
    CentsAreHundredths(d);
    assert d.negative ==> d.coefficient == 0;
    assert ValueOf(d) == d.coefficient as real * TenTo(d.exponent);
  }

  lemma NearestToFraction(n: nat, den: nat, v: real, k: nat)
    requires den > 0 && n as real == v * den as real
    ensures var r := RoundHalfEven(n, den);
            && RealDistance(v, r as real) <= 0.5
            && RealDistance(v, r as real) <= RealDistance(v, k as real)
            && (k != r && RealDistance(v, r as real) == RealDistance(v, k as real) ==> r % 2 == 0)
  {
    var r := RoundHalfEven(n, den);
    LimitAsReal(n, den, v, r);
    if RealDistance(v, r as real) == 0.5 {
      TieIsExactHalf(n, den, v, r);
    }
    assert k != r ==> RealDistance(k as real, r as real) >= 1.0;
  }

  lemma TieIsExactHalf(n: nat, den: nat, v: real, r: nat)
    requires den > 0 && n as real == v * den as real && (v == r as real + 0.5 || v == r as real - 0.5)
    ensures 2 * n == 2 * (r * den) + den || 2 * n == 2 * (r * den) - den
  {
    var d, m := den as real, r * den;
    RealTimes(r, den);
    FactorOut(v, r as real, d);
    if v == r as real + 0.5 {
      assert 2.0 * n as real == 2.0 * m as real + d;
    } else {
      assert 2.0 * n as real == 2.0 * m as real - d;
    }
  }

  /** A whole number of currency units. */
  lemma WholeNumbers(n: int, allowZero: bool)
    ensures n < 0 ==> ParseAmount(Whole(n), allowZero) == Err(AmountNegative)
    ensures 0 < 100 * n < 10_000_000_000_000_000_000_000_000_000 ==> ParseAmount(Whole(n), allowZero) == Ok(100 * n)
    ensures ParseAmount(Whole(0), allowZero) == if allowZero then Ok(0) else Err(AmountZero)
  {
    ParseAmountIff(Whole(n), allowZero);
    assert Pow10(2) == 100 * Pow10(0) by { HundredTimes(0); }
    if n >= 0 {
      RoundHalfEvenUnique(100 * n, 1, 100 * n);
    }
    RoundHalfEvenUnique(0, 1, 0);
  }

  /** However a decimal is entered, as a number or as text with blanks around it or not, it parses alike. */
  lemma EntriesParseAlike(d: Decimal, text: string, allowZero: bool)
    requires exists c | c in text :: !IsSpace(c)
    ensures ParseAmount(Exact(d), allowZero) == ParseAmount(Float(d), allowZero)
    ensures ParseAmount(Text(text, Some(d)), allowZero) == ParseAmount(Exact(d), allowZero)
  {
    StripLeavesNoBlankEnds(text);
  }

  /** The order of two non-negative finite decimals, by cross-multiplying their values in cents. */
  predicate AtMost(a: Decimal, b: Decimal)
    requires a.Finite? && b.Finite?
  {
    CentsNum(a) * CentsDen(b) <= CentsNum(b) * CentsDen(a)
  }

  lemma AtMostIff(a: Decimal, b: Decimal)
    requires a.Finite? && b.Finite? && ValueOf(a) >= 0.0 && ValueOf(b) >= 0.0
    ensures ValueOf(a) <= ValueOf(b) <==> AtMost(a, b)
  {
    NonNegativeCents(a);
    NonNegativeCents(b);
    CrossMultiply(CentsNum(a), CentsDen(a), 100.0 * ValueOf(a), CentsNum(b), CentsDen(b), 100.0 * ValueOf(b));
  }

  lemma CrossMultiply(n: nat, d: nat, v: real, m: nat, e: nat, w: real)
    requires d > 0 && e > 0 && n as real == v * d as real && m as real == w * e as real
    ensures v <= w <==> n * e <= m * d
  {
    var (x, y) := (d as real, e as real);
    RealTimes(n, e);
    RealTimes(m, d);
    CrossDifference(v, w, x, y);
    SignTimes(w - v, x * y);
    assert (m * d) as real - (n * e) as real == (w - v) * (x * y);
  }

  lemma CrossDifference(v: real, w: real, x: real, y: real)
    requires x > 0.0 && y > 0.0
    ensures x * y > 0.0 && w * y * x - v * x * y == (w - v) * (x * y)
  {
  }

  /** A larger entry never parses to a smaller amount; equal values parse alike however written. */
  lemma ParseAmountMonotone(x: Cell, y: Cell, allowX: bool, allowY: bool)
    requires ParseAmount(x, allowX).Ok? && ParseAmount(y, allowY).Ok?
    requires StatedAmount(x).Some? && StatedAmount(y).Some? ==> StatedAmount(x).value <= StatedAmount(y).value
    ensures ParseAmount(x, allowX).value <= ParseAmount(y, allowY).value
  {
    AsDecimalStates(x);
    AsDecimalStates(y);
    var a, b := AsDecimal(x).value, AsDecimal(y).value;
    SignOfValue(a);
    SignOfValue(b);
    AtMostIff(a, b);
    RoundHalfEvenMonotone(CentsNum(a), CentsDen(a), CentsNum(b), CentsDen(b));
  }

  /** A parsed amount, written back as a two-decimal value, parses to itself. */
  lemma ParseAmountIdempotent(cell: Cell, allowZero: bool)
    requires ParseAmount(cell, allowZero).Ok?
    ensures ParseAmount(Exact(Finite(false, ParseAmount(cell, allowZero).value, -2)), true)
         == ParseAmount(cell, allowZero)
  {
    var r := ParseAmount(cell, allowZero).value;
    assert Pow10(0) == 1;
    RoundHalfEvenUnique(r, 1, r);
  }

  /** Exactly which positive entries collapse to 0.00: those of at most half a cent, which the
      strictly-positive rule lets through because it tests before rounding. */
  lemma ZeroFromPositive(cell: Cell, allowZero: bool)
    requires ParseAmount(cell, allowZero).Ok? && StatedAmount(cell).Some? && StatedAmount(cell).value > 0.0
    ensures ParseAmount(cell, allowZero).value == 0 <==> StatedAmount(cell).value <= 0.005
  {
    NearestCent(cell, allowZero, 0);
    NearestCent(cell, allowZero, 1);
  }

  /** "strictly positive" does not mean a positive amount results: 0.004 is accepted and becomes 0.00, which
      the line tables' own CHECK (amount > 0) refuses only at the commit. */
  lemma StrictlyPositiveCanYieldZero()
    ensures ParseAmount(Exact(Finite(false, 4, -3)), false) == Ok(0)
  {
    assert Pow10(1) == 10 * Pow10(0) == 10;
    RoundHalfEvenUnique(4, 10, 0);
  }
}
