/**
 * The double-precision numbers of the source as 64-bit patterns (IEEE 754, format binary64): one sign bit, eleven
 * exponent bits, 52 fraction bits. Only what the session store needs: which patterns are numbers, and the two
 * conversions between numbers and integers.
 */
module Doubles {
  import opened WordArithmetic

  /** 2^52, the number of fractions under one exponent. */
  const FRACTIONS: nat := 0x10_0000_0000_0000
  const SIGN: nat := 0x8000_0000_0000_0000

  /** The pattern of infinity; those of the other numbers that are not finite follow it. */
  const INFINITY: nat := 0x7FF0_0000_0000_0000

  type Double = Word64

  predicate Finite(d: Double) { d < INFINITY || SIGN <= d < SIGN + INFINITY }

  type FiniteDouble = d: Double | Finite(d)

  const ZERO: FiniteDouble := 0

  function Doubled(n: nat, times: nat): nat
    decreases times
  {
    if times == 0 then n else Doubled(2 * n, times - 1)
  }

  function Halved(n: nat, times: nat): nat { if times == 0 then n else Halved(n, times - 1) / 2 }

  /** The integer part of the number with this pattern, its sign bit cleared; subnormal numbers are below one. */
  function IntegerPart(p: nat): nat {
    var exponent, significand := p / FRACTIONS, p % FRACTIONS + FRACTIONS;
    if exponent == 0 then 0
    else if exponent >= 1075 then Doubled(significand, exponent - 1075)
    else Halved(significand, 1075 - exponent)
  }

  /** Toward zero, as a cast to an integer does. */
  function Truncate(d: FiniteDouble): int {
    if d >= SIGN then 0 - IntegerPart(d - SIGN) else IntegerPart(d)
  }

  function BitLength(m: nat): nat { if m == 0 then 0 else 1 + BitLength(m / 2) }

  lemma {:induction false} BitLengthBounds(m: nat, n: nat)
    requires m < Pow2(n)
    ensures BitLength(m) <= n
    ensures m > 0 ==> Pow2(BitLength(m) - 1) <= m < Pow2(BitLength(m))
  {
    if m > 1 {
      BitLengthBounds(m / 2, n - 1);
    } else if m == 1 {
      assert BitLength(m) == 1 + BitLength(0);
      assert Pow2(1) == 2 * Pow2(0);
    }
  }

  /** The 53 leading bits of m, zeros appended where there are fewer. */
  function Leading(m: nat): nat {
    var length := BitLength(m);
    if length <= 53 then Doubled(m, 53 - length) else Halved(m, length - 53)
  }

  lemma {:induction false} LengthDoubled(n: nat, times: nat)
    requires n > 0
    ensures BitLength(Doubled(n, times)) == BitLength(n) + times
    ensures Halved(Doubled(n, times), times) == n
    decreases times
  {
    if times > 0 {
      LengthDoubled(2 * n, times - 1);
      assert BitLength(2 * n) == 1 + BitLength(2 * n / 2);
    }
  }

  lemma {:induction false} LengthHalved(n: nat, times: nat)
    requires times <= BitLength(n)
    ensures BitLength(Halved(n, times)) == BitLength(n) - times
  {
    if times > 0 {
      LengthHalved(n, times - 1);
    }
  }

  lemma {:induction false} SmallerThanPow2(m: nat)
    ensures m < Pow2(m)
  {
    if m > 0 {
      SmallerThanPow2(m - 1);
    }
  }

  lemma LeadingBounds(m: nat)
    requires m > 0
    ensures FRACTIONS <= Leading(m) < 2 * FRACTIONS
  {
    var length := BitLength(m);
    if length <= 53 {
      LengthDoubled(m, 53 - length);
    } else {
      LengthHalved(m, length - 53);
    }
    SmallerThanPow2(Leading(m));
    BitLengthBounds(Leading(m), Leading(m));
    FractionsArePow2(BitLength(Leading(m)));
  }

  lemma FractionsArePow2(n: nat)
    requires n == 53
    ensures Pow2(n - 1) == FRACTIONS && Pow2(n) == 2 * FRACTIONS
  {
    var zero := 0;
    Pow2By16(zero);
    Pow2By16(zero + 16);
    Pow2By16(zero + 32);
    Pow2By4(zero + 48);
  }

  lemma LengthOfWord(m: nat)
    requires m < WORD
    ensures BitLength(m) <= 64
  {
    WordIsPow2();
    BitLengthBounds(m, 64);
  }

  /** To the nearest, a tie to the even one: what is left after the leading bits, against the weight of their last. */
  predicate RoundsUp(q: nat, rest: int, weight: nat) { 2 * rest + q % 2 > weight }

  /** The leading bits, rounded if some have been dropped. */
  function Rounded(m: nat): nat {
    var q, dropped := Leading(m), BitLength(m) - 53;
    if dropped > 0 && RoundsUp(q, m - Doubled(q, dropped), Doubled(1, dropped)) then q + 1 else q
  }

  /** The pattern of a positive integer: to the nearest double, ties to even. */
  function Pattern(m: nat): (p: nat)
    requires 0 < m < WORD
    ensures p < INFINITY
  {
    LengthOfWord(m);
    LeadingBounds(m);
    (1021 + BitLength(m)) * FRACTIONS + Rounded(m)
  }

  /** The double of an integer, as a conversion in the source gives it. */
  function Nearest(n: int): FiniteDouble
    requires -0x1_0000_0000_0000_0000 < n < 0x1_0000_0000_0000_0000
  {
    if n == 0 then ZERO
    else if n < 0 then SIGN + Pattern(-n)
    else Pattern(n)
  }

  lemma SmallIntegerPart(m: nat)
    requires 0 < m < 0x20_0000_0000_0000
    ensures IntegerPart(Pattern(m)) == m
  {
    var bits := 53;
    FractionsArePow2(bits);
    BitLengthBounds(m, bits);
    LengthDoubled(m, bits - BitLength(m));
    LeadingBounds(m);
    var p, exponent := Pattern(m), 1022 + BitLength(m);
    assert p == exponent * FRACTIONS + (Leading(m) - FRACTIONS);
    assert p / FRACTIONS == exponent && p % FRACTIONS == Leading(m) - FRACTIONS;
    assert exponent < 1075 ==> 1075 - exponent == bits - BitLength(m);
  }

  /** Integers of at most 53 bits come back from their doubles. */
  lemma SmallIntegersSurvive(n: int)
    requires -0x20_0000_0000_0000 < n < 0x20_0000_0000_0000
    ensures Truncate(Nearest(n)) == n
  {
    if n > 0 {
      SmallIntegerPart(n);
      assert Nearest(n) < SIGN;
    } else if n < 0 {
      SmallIntegerPart(-n);
      assert Nearest(n) - SIGN == Pattern(-n);
    }
  }

  // ------------------------------------------------------------------ rounding

  lemma {:induction false} DoubledSum(a: nat, b: nat, times: nat)
    ensures Doubled(a + b, times) == Doubled(a, times) + Doubled(b, times)
    decreases times
  {
    if times > 0 {
      DoubledSum(2 * a, 2 * b, times - 1);
    }
  }

  lemma {:induction false} HalvedBounds(m: nat, times: nat)
    ensures Doubled(Halved(m, times), times) <= m < Doubled(Halved(m, times) + 1, times)
  {
    if times > 0 {
      var x := Halved(m, times - 1);
      HalvedBounds(m, times - 1);
      DoubledSum(2 * (x / 2), x % 2, times - 1);
      DoubledSum(x + 1, 1 - x % 2, times - 1);
      assert 2 * (x / 2 + 1) == x + 1 + (1 - x % 2);
    }
  }

  /** The parts of a pattern; one that is out of the significand's range carries into the exponent. */
  lemma PatternParts(exponent: nat, q: nat)
    requires FRACTIONS <= q <= 2 * FRACTIONS
    ensures var p := exponent * FRACTIONS + q;
            if q == 2 * FRACTIONS then p / FRACTIONS == exponent + 2 && p % FRACTIONS == 0
            else p / FRACTIONS == exponent + 1 && p % FRACTIONS == q - FRACTIONS
  {
  }

  lemma PatternValue(exponent: nat, q: nat)
    requires FRACTIONS <= q <= 2 * FRACTIONS && exponent >= 1074
    ensures IntegerPart(exponent * FRACTIONS + q) == Doubled(q, exponent - 1074)
  {
    PatternParts(exponent, q);
    if q == 2 * FRACTIONS {
      var times := exponent - 1073;
      assert Doubled(FRACTIONS, times) == Doubled(2 * FRACTIONS, times - 1);
    }
  }

  /** A long integer becomes its leading bits, rounded, at the weight of the last of them; a carry changes nothing. */
  lemma LongIntegerPart(m: nat, exponent: nat, q: nat)
    requires 0 < m < WORD && exponent == 1021 + BitLength(m) > 1074 && q == Rounded(m)
    ensures Pattern(m) == exponent * FRACTIONS + q
    ensures IntegerPart(Pattern(m)) == Doubled(q, exponent - 1074)
  {
    LeadingBounds(m);
    PatternValue(exponent, q);
  }

  lemma LastBit(exponent: nat, q: nat)
    ensures (exponent * FRACTIONS + q) % 2 == q % 2
  {
    assert exponent * FRACTIONS == 2 * (exponent * 0x8_0000_0000_0000);
  }

  lemma HalfStep(q: nat, rest: nat, weight: nat)
    requires rest < weight
    ensures var up := RoundsUp(q, rest, weight);
            var e := (if up then weight else 0) - rest;
            && 0 - weight <= 2 * e <= weight
            && (2 * e == weight || 2 * e == 0 - weight ==> (if up then q + 1 else q) % 2 == 0)
  {
  }

  /** The distance between neighbouring doubles around an integer of this size, or 1 if that is less. */
  function Spacing(m: nat): nat { if BitLength(m) > 53 then Doubled(1, BitLength(m) - 53) else 1 }

  lemma LongIsHalfStep(m: nat, dropped: nat)
    requires 0 < m < WORD && dropped == BitLength(m) - 53 && dropped > 0
    ensures var e := IntegerPart(Pattern(m)) - m;
            && 0 - Spacing(m) <= 2 * e <= Spacing(m)
            && (2 * e == Spacing(m) || 2 * e == 0 - Spacing(m) ==> Pattern(m) % 2 == 0)
  {
    var q, weight := Leading(m), Doubled(1, dropped);
    LongIntegerPart(m, dropped + 1074, Rounded(m));
    LastBit(dropped + 1074, Rounded(m));
    HalvedBounds(m, dropped);
    DoubledSum(q, 1, dropped);
    HalfStep(q, m - Doubled(q, dropped), weight);
  }

  /**
   * Every integer of the library becomes a double within half the distance of two neighbours from it, and one with
   * an even last bit if it is exactly half.
   */
  lemma NearestWithinHalfStep(n: int)
    requires -0x1_0000_0000_0000_0000 < n < 0x1_0000_0000_0000_0000
    ensures var spacing := Spacing(if n < 0 then -n else n);
            var e := Truncate(Nearest(n)) - n;
            && 0 - spacing <= 2 * e <= spacing
            && (2 * e == spacing || 2 * e == 0 - spacing ==> Nearest(n) % 2 == 0)
  {
    var m := if n < 0 then -n else n;
    if BitLength(m) <= 53 {
      ShortIsSmall(m);
      SmallIntegersSurvive(n);
    } else {
      LongIsHalfStep(m, BitLength(m) - 53);
      SignIsSeparate(n);
    }
  }

  lemma ShortIsSmall(m: nat)
    requires m < WORD && BitLength(m) <= 53
    ensures m < 0x20_0000_0000_0000
  {
    if m > 0 {
      SmallerThanPow2(m);
      BitLengthBounds(m, m);
      var bits := 53;
      FractionsArePow2(bits);
      PowersGrow(BitLength(m), bits);
    }
  }

  lemma {:induction false} PowersGrow(a: nat, b: nat)
    requires a <= b
    ensures Pow2(a) <= Pow2(b)
  {
    if a < b {
      PowersGrow(a, b - 1);
    }
  }

  lemma SignIsSeparate(n: int)
    requires n != 0 && -0x1_0000_0000_0000_0000 < n < 0x1_0000_0000_0000_0000
    ensures var m := if n < 0 then -n else n;
            && Truncate(Nearest(n)) == (if n < 0 then 0 - IntegerPart(Pattern(m)) else IntegerPart(Pattern(m)))
            && Nearest(n) % 2 == Pattern(m) % 2
  {
    if n > 0 {
      assert Nearest(n) < SIGN;
    } else {
      assert Nearest(n) - SIGN == Pattern(-n);
    }
  }

  // ------------------------------------------------------------------ truncation

  lemma {:induction false} DoubledIsTimes(n: nat, times: nat)
    ensures Doubled(n, times) == n * Pow2(times)
    decreases times
  {
    if times > 0 {
      DoubledIsTimes(2 * n, times - 1);
      assert 2 * n * Pow2(times - 1) == n * (2 * Pow2(times - 1));
    }
  }

  /** The exponent field of a number, whatever its sign. */
  function ExponentField(d: Double): nat { (d % 0x8000_0000_0000_0000) / 0x10_0000_0000_0000 }

  /** The significand: the fraction field, and one more bit in front of it unless the number is subnormal. */
  function Significand(d: Double): nat {
    d % 0x10_0000_0000_0000 + if ExponentField(d) == 0 then 0 else 0x10_0000_0000_0000
  }

  /** The pattern is a number unless its exponent field is all ones. */
  lemma FiniteExactly(d: Double)
    ensures Finite(d) <==> ExponentField(d) < 2047
  {
  }

  lemma FieldsOf(d: Double)
    ensures var p := if d >= SIGN then d - SIGN else d;
            p / FRACTIONS == ExponentField(d) && p % FRACTIONS == d % 0x10_0000_0000_0000
  {
    var p := if d >= SIGN then d - SIGN else d;
    assert p == d % 0x8000_0000_0000_0000;
    assert SIGN % FRACTIONS == 0;
  }

  /**
   * A number of significand s and exponent field e is s times 2^(e - 1075), below zero if the sign bit is set. It is
   * truncated toward zero: to the integer of its sign whose size is the whole part.
   */
  lemma TruncatesTowardZero(d: FiniteDouble)
    ensures var s, e := Significand(d), ExponentField(d);
            var t := if d >= 0x8000_0000_0000_0000 then 0 - Truncate(d) else Truncate(d);
            && (e >= 1075 ==> t == s * Pow2(e - 1075))
            && (1 <= e < 1075 ==> t * Pow2(1075 - e) <= s < (t + 1) * Pow2(1075 - e))
            && (e == 0 ==> t == 0)
  {
    var s, e := Significand(d), ExponentField(d);
    FieldsOf(d);
    if e >= 1075 {
      DoubledIsTimes(s, e - 1075);
    } else if e > 0 {
      HalvedBounds(s, 1075 - e);
      DoubledIsTimes(Halved(s, 1075 - e), 1075 - e);
      DoubledIsTimes(Halved(s, 1075 - e) + 1, 1075 - e);
    }
  }
}
