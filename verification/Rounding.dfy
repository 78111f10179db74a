/** Integer forms of the two decimal rounding modes the backend uses. */
module Rounding {

  function Pow10(k: nat): (p: nat)
    ensures p >= 1
  {
    if k == 0 then 1 else 10 * Pow10(k - 1)
  }

  lemma {:induction false} Pow10Add(a: nat, b: nat)
    ensures Pow10(a + b) == Pow10(a) * Pow10(b)
  {
    if a > 0 {
      Pow10Add(a - 1, b);
    }
  }

  lemma {:induction false} Pow10Grows(k: nat, n: nat)
    requires k <= n
    ensures Pow10(k) <= Pow10(n)
  {
    if k < n {
      Pow10Grows(k, n - 1);
    }
  }

  /** ROUND_HALF_EVEN of the non-negative fraction num/den to an integer. */
  function RoundHalfEven(num: nat, den: nat): (r: nat)
    requires den > 0
    ensures 2 * (r * den) - den <= 2 * num <= 2 * (r * den) + den
    ensures 2 * num == 2 * (r * den) + den || 2 * num == 2 * (r * den) - den ==> r % 2 == 0
  {
    var q := num / den;
    var r := HalfEvenStep(q, num % den, den);
    assert num == q * den + num % den;
    assert (q + 1) * den == q * den + den;
    r
  }

  /** Keep the quotient or take the next one, on the strength of the remainder. */
  function HalfEvenStep(q: nat, rem: nat, den: nat): (r: nat)
    requires rem < den
    ensures (r == q && 2 * rem <= den) || (r == q + 1 && 2 * rem >= den)
    ensures 2 * rem == den ==> r % 2 == 0
  {
    if 2 * rem < den || (2 * rem == den && q % 2 == 0) then q else q + 1
  }

  /** ROUND_HALF_UP (ties away from zero) of the non-negative fraction num/den. */
  function RoundHalfUp(num: nat, den: nat): (r: nat)
    requires den > 0
    ensures 2 * (r * den) - den <= 2 * num < 2 * (r * den) + den
  {
    var q := num / den;
    var rem := num % den;
    assert num == q * den + rem;
    if 2 * rem >= den then
      assert (q + 1) * den == q * den + den;
      q + 1
    else q
  }

  lemma MulMono(a: int, b: int, c: nat)
    requires a <= b
    ensures a * c <= b * c
  {
    assert (b - a) * c >= 0;
    assert b * c == a * c + (b - a) * c;
  }

  lemma MulCancel(a: int, b: int, c: nat)
    requires c > 0
    requires a * c <= b * c
    ensures a <= b
  {
    assert (b + 1) * c == b * c + c;
    if b < a {
      MulMono(b + 1, a, c);
    }
  }

  /** The half-up bracket pins the result down: no other integer satisfies it. */
  lemma RoundHalfUpUnique(num: nat, den: nat, r: nat)
    requires den > 0
    requires 2 * (r * den) - den <= 2 * num < 2 * (r * den) + den
    ensures r == RoundHalfUp(num, den)
  {
    var m := RoundHalfUp(num, den);
    assert (r + 1) * den == r * den + den;
    assert (m + 1) * den == m * den + den;
    if r < m {
      MulMono(r + 1, m, den);
    } else if m < r {
      MulMono(m + 1, r, den);
    }
  }

  /** The same for the half-even bracket, once the tie rule is added. */
  lemma RoundHalfEvenUnique(num: nat, den: nat, r: nat)
    requires den > 0
    requires 2 * (r * den) - den <= 2 * num <= 2 * (r * den) + den
    requires 2 * num == 2 * (r * den) + den || 2 * num == 2 * (r * den) - den ==> r % 2 == 0
    ensures r == RoundHalfEven(num, den)
  {
    var m := RoundHalfEven(num, den);
    if r < m {
      HalfEvenGap(num, den, r, m);
    } else if m < r {
      HalfEvenGap(num, den, m, r);
    }
  }

  /** Two candidates can share a fraction only when it is a tie between neighbours. */
  lemma HalfEvenGap(num: nat, den: nat, low: nat, high: nat)
    requires den > 0 && low < high
    requires 2 * num <= 2 * (low * den) + den
    requires 2 * (high * den) - den <= 2 * num
    ensures high == low + 1
    ensures 2 * num == 2 * (low * den) + den == 2 * (high * den) - den
  {
    assert (low + 1) * den == low * den + den;
    MulMono(low + 1, high, den);
    MulCancel(high, low + 1, den);
  }

  /** Half-even rounding depends only on the value of the fraction and never reverses order. */
  lemma RoundHalfEvenMonotone(a: nat, b: nat, c: nat, d: nat)
    requires b > 0 && d > 0
    requires a * d <= c * b
    ensures RoundHalfEven(a, b) <= RoundHalfEven(c, d)
  {
    var r, s := RoundHalfEven(a, b), RoundHalfEven(c, d);
    if s < r {
      // a/b >= r - 1/2 >= s + 1/2 >= c/d, so all are equal and both results broke a tie.
      LowerTimes(r, b, a, d);
      UpperTimes(s, d, c, b);
      assert d * b == b * d;
      HalfEvenGap(a * d, b * d, s, r);
      TieOf(r * b, b, a, d, r);
      TieOf(s * d, d, c, b, s);
    }
  }

  lemma LowerTimes(r: nat, b: nat, a: nat, d: nat)
    requires 2 * (r * b) - b <= 2 * a
    ensures 2 * (r * (b * d)) - b * d <= 2 * (a * d)
  {
    MulMono(2 * (r * b) - b, 2 * a, d);
    assert (2 * (r * b) - b) * d == 2 * (r * (b * d)) - b * d;
  }

  lemma UpperTimes(s: nat, d: nat, c: nat, b: nat)
    requires 2 * c <= 2 * (s * d) + d
    ensures 2 * (c * b) <= 2 * (s * (d * b)) + d * b
  {
    MulMono(2 * c, 2 * (s * d) + d, b);
    assert (2 * (s * d) + d) * b == 2 * (s * (d * b)) + d * b;
  }

  /** A tie seen after scaling by w is a tie before it. */
  lemma TieOf(rb: nat, b: nat, a: nat, w: nat, r: nat)
    requires w > 0 && rb == r * b
    ensures 2 * (r * (b * w)) - b * w == 2 * (a * w) ==> 2 * rb - b == 2 * a
    ensures 2 * (r * (b * w)) + b * w == 2 * (a * w) ==> 2 * rb + b == 2 * a
  {
    assert r * (b * w) == rb * w;
    assert (2 * rb - b) * w == 2 * (rb * w) - b * w;
    assert (2 * rb + b) * w == 2 * (rb * w) + b * w;
    assert (2 * a) * w == 2 * (a * w);
    EqCancel(2 * rb - b, 2 * a, w);
    EqCancel(2 * rb + b, 2 * a, w);
  }

  lemma EqCancel(a: int, b: int, c: nat)
    requires c > 0
    ensures a * c == b * c ==> a == b
  {
    if a * c == b * c {
      MulCancel(a, b, c);
      MulCancel(b, a, c);
    }
  }
}
