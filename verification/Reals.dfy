/**
 * Exact reals: products and quotients under names, so that proofs handle them as units and unfold them only
 * in the lemmas below; and rounding.
 */
module Reals {

  function Times(a: real, b: real): real { a * b }

  function Over(a: real, b: real): real
    requires b > 0.0
  {
    a / b
  }

  lemma TimesOrder(a: real, b: real, c: real)
    requires a <= b && c >= 0.0
    ensures Times(a, c) <= Times(b, c)
  {
    assert (b - a) * c >= 0.0;
  }

  lemma TimesStrict(a: real, b: real, c: real)
    requires a < b && c > 0.0
    ensures Times(a, c) < Times(b, c)
  {
    assert (b - a) * c > 0.0;
  }

  lemma TimesUnit(a: real)
    ensures Times(0.0, a) == 0.0 && Times(1.0, a) == a
  {
  }

  lemma TimesSum(a: real, b: real, c: real)
    ensures Times(a + b, c) == Times(a, c) + Times(b, c)
  {
  }

  lemma TimesRegroup(a: real, b: real, c: real)
    ensures Times(Times(a, b), c) == Times(a, Times(c, b))
  {
  }

  lemma OverTimes(a: real, b: real)
    requires b > 0.0
    ensures Times(Over(a, b), b) == a
  {
  }

  /** A quotient is determined by what it multiplies back to. */
  lemma OverIs(a: real, b: real, q: real)
    requires b > 0.0 && Times(q, b) == a
    ensures Over(a, b) == q
  {
    OverTimes(a, b);
    Cancel(Over(a, b), q, b);
  }

  lemma Cancel(p: real, q: real, b: real)
    requires b > 0.0
    ensures Times(p, b) == Times(q, b) ==> p == q
    ensures Times(p, b) <= Times(q, b) ==> p <= q
  {
    if p < q {
      TimesStrict(p, q, b);
    } else if q < p {
      TimesStrict(q, p, b);
    }
  }

  lemma OverOrder(a: real, b: real, c: real)
    requires a <= b && c > 0.0
    ensures Over(a, c) <= Over(b, c)
  {
    OverTimes(a, c);
    OverTimes(b, c);
    Cancel(Over(a, c), Over(b, c), c);
  }

  lemma OverPositive(a: real, b: real)
    requires a > 0.0 && b > 0.0
    ensures Over(a, b) > 0.0
  {
    OverTimes(a, b);
    TimesUnit(b);
    Cancel(Over(a, b), 0.0, b);
  }

  lemma OverSum(x: real, h: real, d: real)
    requires d > 0.0
    ensures Over(Times(x, d) + h, d) == x + Over(h, d)
  {
    OverTimes(h, d);
    TimesSum(x, Over(h, d), d);
    OverIs(Times(x, d) + h, d, x + Over(h, d));
  }

  function Clamp(x: real, low: real, high: real): real {
    if x < low then low else if high < x then high else x
  }

  /** Rounding to the nearest integer, halves away from zero. */
  function Round(x: real): int {
    if x >= 0.0 then (x + 0.5).Floor else -((0.5 - x).Floor)
  }

  lemma RoundIsNearest(x: real)
    ensures x - 0.5 <= Round(x) as real <= x + 0.5
  {
  }

  lemma RoundIsMonotone(x: real, y: real)
    requires x <= y
    ensures Round(x) <= Round(y)
  {
  }

  lemma RoundNear(x: real, k: int)
    requires k as real - 0.5 < x < k as real + 0.5
    ensures Round(x) == k
  {
    RoundIsNearest(x);
  }

  /** The integer a number rounds to: halves go away from zero. */
  lemma RoundExactly(x: real, k: int)
    ensures x >= 0.0 ==> (Round(x) == k <==> k as real - 0.5 <= x < k as real + 0.5)
    ensures x < 0.0 ==> (Round(x) == k <==> k as real - 0.5 < x <= k as real + 0.5)
  {
  }

  /** The nearest multiple of 1/d. */
  function Quantize(x: real, d: real): real
    requires d > 0.0
  {
    Over(Round(Times(x, d)) as real, d)
  }

  lemma QuantizeIsMonotone(x: real, y: real, d: real)
    requires d > 0.0 && x <= y
    ensures Quantize(x, d) <= Quantize(y, d)
  {
    TimesOrder(x, y, d);
    RoundIsMonotone(Times(x, d), Times(y, d));
    OverOrder(Round(Times(x, d)) as real, Round(Times(y, d)) as real, d);
  }

  /** A value whose nearest multiple of 1/d is k/d. */
  lemma QuantizeNear(x: real, d: real, k: int)
    requires d > 0.0 && k as real - 0.5 < Times(x, d) < k as real + 0.5
    ensures Quantize(x, d) == Over(k as real, d)
  {
    RoundNear(Times(x, d), k);
  }

  lemma QuantizeGrid(k: int, d: real)
    requires d > 0.0
    ensures Quantize(Over(k as real, d), d) == Over(k as real, d)
  {
    OverTimes(k as real, d);
    QuantizeNear(Over(k as real, d), d, k);
  }

  lemma QuantizeKeepsUnit(x: real, n: nat)
    requires n > 0 && 0.0 <= x <= 1.0
    ensures 0.0 <= Quantize(x, n as real) <= 1.0
  {
    TimesUnit(n as real);
    OverIs(0.0, n as real, 0.0);
    OverIs(n as real, n as real, 1.0);
    QuantizeGrid(0, n as real);
    QuantizeGrid(n, n as real);
    QuantizeIsMonotone(0.0, x, n as real);
    QuantizeIsMonotone(x, 1.0, n as real);
  }

  lemma QuantizeError(x: real, d: real)
    requires d > 0.0
    ensures x + Over(-0.5, d) <= Quantize(x, d) <= x + Over(0.5, d)
  {
    RoundIsNearest(Times(x, d));
    OverOrder(Times(x, d) + -0.5, Round(Times(x, d)) as real, d);
    OverOrder(Round(Times(x, d)) as real, Times(x, d) + 0.5, d);
    OverSum(x, -0.5, d);
    OverSum(x, 0.5, d);
  }
}
