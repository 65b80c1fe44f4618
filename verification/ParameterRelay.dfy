/** Relaying a parameter value from one endpoint's range to the other's, in exact reals. */
module ParameterRelay {
  import opened Reals

  datatype Curve = Linear | Stepped

  datatype EndpointMapping = EndpointMapping(
    parameterId: string, minimum: real, maximum: real, steps: nat, readable: bool, writable: bool)

  predicate Ordered(e: EndpointMapping) { e.maximum > e.minimum }

  predicate InRange(e: EndpointMapping, value: real) { e.minimum <= value <= e.maximum }

  /** The conversion rounds to the steps of the endpoint. */
  predicate Snaps(e: EndpointMapping, curve: Curve) { curve.Stepped? && e.steps > 1 }

  function Span(e: EndpointMapping): real { e.maximum - e.minimum }

  function Intervals(e: EndpointMapping): real
    requires e.steps > 1
  {
    (e.steps - 1) as real
  }

  function Normalize(e: EndpointMapping, curve: Curve, value: real): real
    requires Ordered(e)
  {
    var normalized := Clamp(Over(value - e.minimum, Span(e)), 0.0, 1.0);
    if Snaps(e, curve) then Over(Round(Times(normalized, Intervals(e))) as real, Intervals(e)) else normalized
  }

  function Interval(e: EndpointMapping): (width: real)
    requires Ordered(e) && e.steps > 1
    ensures width > 0.0
  {
    OverPositive(Span(e), Intervals(e));
    Over(Span(e), Intervals(e))
  }

  function Denormalize(e: EndpointMapping, curve: Curve, value: real): real
    requires Ordered(e)
  {
    var target := e.minimum + Times(Clamp(value, 0.0, 1.0), Span(e));
    var stepped :=
      if Snaps(e, curve) then e.minimum + Times(Round(Over(target - e.minimum, Interval(e))) as real, Interval(e))
      else target;
    Clamp(stepped, e.minimum, e.maximum)
  }

  function Relay(source: EndpointMapping, target: EndpointMapping, curve: Curve, value: real): real
    requires Ordered(source) && Ordered(target)
  {
    Denormalize(target, curve, Normalize(source, curve, value))
  }

  // ------------------------------------------------------------------ the two conversions on the unit interval

  function Position(e: EndpointMapping, value: real): real
    requires Ordered(e)
  {
    Over(value - e.minimum, Span(e))
  }

  lemma PositionInUnit(e: EndpointMapping, value: real)
    requires Ordered(e) && InRange(e, value)
    ensures 0.0 <= Position(e, value) <= 1.0
  {
    TimesUnit(Span(e));
    OverIs(0.0, Span(e), 0.0);
    OverIs(Span(e), Span(e), 1.0);
    OverOrder(0.0, value - e.minimum, Span(e));
    OverOrder(value - e.minimum, Span(e), Span(e));
  }

  /** Rounding to the steps of an endpoint, where the curve asks for it. */
  function Snap(e: EndpointMapping, curve: Curve, x: real): real {
    if Snaps(e, curve) then Quantize(x, Intervals(e)) else x
  }

  lemma SnapKeepsUnit(e: EndpointMapping, curve: Curve, x: real)
    requires 0.0 <= x <= 1.0
    ensures 0.0 <= Snap(e, curve, x) <= 1.0
  {
    if Snaps(e, curve) {
      QuantizeKeepsUnit(x, e.steps - 1);
    }
  }

  lemma SnapIsMonotone(e: EndpointMapping, curve: Curve, x: real, y: real)
    requires x <= y
    ensures Snap(e, curve, x) <= Snap(e, curve, y)
  {
    if Snaps(e, curve) {
      QuantizeIsMonotone(x, y, Intervals(e));
    }
  }

  lemma NormalizeIs(e: EndpointMapping, curve: Curve, value: real)
    requires Ordered(e)
    ensures Normalize(e, curve, value) == Snap(e, curve, Clamp(Position(e, value), 0.0, 1.0))
    ensures 0.0 <= Normalize(e, curve, value) <= 1.0
  {
    SnapKeepsUnit(e, curve, Clamp(Position(e, value), 0.0, 1.0));
  }

  /** Counting whole steps of a range is counting whole steps of the unit interval. */
  lemma StepsOfRange(e: EndpointMapping, x: real)
    requires Ordered(e) && e.steps > 1
    ensures Over(Times(x, Span(e)), Interval(e)) == Times(x, Intervals(e))
    ensures Times(Round(Times(x, Intervals(e))) as real, Interval(e)) == Times(Quantize(x, Intervals(e)), Span(e))
  {
    var r := Round(Times(x, Intervals(e))) as real;
    OverTimes(Span(e), Intervals(e));
    TimesRegroup(x, Intervals(e), Interval(e));
    OverIs(Times(x, Span(e)), Interval(e), Times(x, Intervals(e)));
    OverTimes(r, Intervals(e));
    TimesRegroup(Over(r, Intervals(e)), Intervals(e), Interval(e));
  }

  /** Denormalising lands at the point of the range whose position is the (snapped) value, and never clamps. */
  lemma DenormalizeIs(e: EndpointMapping, curve: Curve, value: real)
    requires Ordered(e) && 0.0 <= value <= 1.0
    ensures Denormalize(e, curve, value) == e.minimum + Times(Snap(e, curve, value), Span(e))
    ensures InRange(e, Denormalize(e, curve, value))
  {
    SnapKeepsUnit(e, curve, value);
    TimesUnit(Span(e));
    TimesOrder(0.0, Snap(e, curve, value), Span(e));
    TimesOrder(Snap(e, curve, value), 1.0, Span(e));
    if Snaps(e, curve) {
      StepsOfRange(e, value);
      assert e.minimum + Times(value, Span(e)) - e.minimum == Times(value, Span(e));
    }
  }

  // ------------------------------------------------------------------ relaying

  /** Where a relayed value lands, as a position in the target range. */
  lemma RelayPosition(source: EndpointMapping, target: EndpointMapping, curve: Curve, value: real)
    requires Ordered(source) && Ordered(target)
    ensures Position(target, Relay(source, target, curve, value))
         == Snap(target, curve, Normalize(source, curve, value))
    ensures InRange(target, Relay(source, target, curve, value))
  {
    var x := Snap(target, curve, Normalize(source, curve, value));
    NormalizeIs(source, curve, value);
    DenormalizeIs(target, curve, Normalize(source, curve, value));
    assert target.minimum + Times(x, Span(target)) - target.minimum == Times(x, Span(target));
    OverIs(Times(x, Span(target)), Span(target), x);
  }

  /** Whatever the value, the relayed value is inside the target range. */
  lemma RelayStaysInRange(source: EndpointMapping, target: EndpointMapping, curve: Curve, value: real)
    requires Ordered(source) && Ordered(target)
    ensures InRange(target, Relay(source, target, curve, value))
  {
    RelayPosition(source, target, curve, value);
  }

  /** Relaying never reverses an order. */
  lemma RelayIsMonotone(source: EndpointMapping, target: EndpointMapping, curve: Curve, v: real, w: real)
    requires Ordered(source) && Ordered(target) && v <= w
    ensures Relay(source, target, curve, v) <= Relay(source, target, curve, w)
  {
    var p, q := Normalize(source, curve, v), Normalize(source, curve, w);
    OverOrder(v - source.minimum, w - source.minimum, Span(source));
    NormalizeIs(source, curve, v);
    NormalizeIs(source, curve, w);
    SnapIsMonotone(source, curve, Clamp(Position(source, v), 0.0, 1.0), Clamp(Position(source, w), 0.0, 1.0));
    DenormalizeIs(target, curve, p);
    DenormalizeIs(target, curve, q);
    SnapIsMonotone(target, curve, p, q);
    TimesOrder(Snap(target, curve, p), Snap(target, curve, q), Span(target));
  }

  /** The error of a stepped relay, as a fraction of the range, is at most half a step of each side. */
  lemma SteppedRelayError(source: EndpointMapping, target: EndpointMapping, value: real)
    requires Ordered(source) && Ordered(target) && InRange(source, value)
    requires source.steps > 1 && target.steps > 1
    ensures var landed := Position(target, Relay(source, target, Stepped, value));
            && landed <= Position(source, value) + Over(0.5, Intervals(target)) + Over(0.5, Intervals(source))
            && landed >= Position(source, value) + Over(-0.5, Intervals(target)) + Over(-0.5, Intervals(source))
  {
    PositionInUnit(source, value);
    NormalizeIs(source, Stepped, value);
    RelayPosition(source, target, Stepped, value);
    QuantizeError(Position(source, value), Intervals(source));
    QuantizeError(Normalize(source, Stepped, value), Intervals(target));
  }

  /**
   * A linear relay, or a stepped one between endpoints without steps, keeps the position exactly, and comes back to
   * the value it started from.
   */
  lemma LinearRelayIsExact(source: EndpointMapping, target: EndpointMapping, curve: Curve, value: real)
    requires Ordered(source) && Ordered(target) && InRange(source, value)
    requires curve == Linear || (source.steps <= 1 && target.steps <= 1)
    ensures Position(target, Relay(source, target, curve, value)) == Position(source, value)
    ensures Relay(target, source, curve, Relay(source, target, curve, value)) == value
  {
    var there := Relay(source, target, curve, value);
    PositionInUnit(source, value);
    NormalizeIs(source, curve, value);
    RelayPosition(source, target, curve, value);
    NormalizeIs(target, curve, there);
    DenormalizeIs(source, curve, Position(source, value));
    OverTimes(value - source.minimum, Span(source));
  }

  // ------------------------------------------------------------------ the stepped round trip

  /** The value at step k of an endpoint. */
  function GridValue(e: EndpointMapping, k: nat): real
    requires e.steps > 1
  {
    e.minimum + Times(Over(k as real, Intervals(e)), Span(e))
  }

  /** The step that step k of one side is relayed to. */
  function RelayedStep(source: EndpointMapping, target: EndpointMapping, k: nat): int
    requires source.steps > 1 && target.steps > 1
  {
    Round(Times(Over(k as real, Intervals(source)), Intervals(target)))
  }

  lemma FractionInUnit(k: nat, n: nat)
    requires n > 0 && k <= n
    ensures 0.0 <= Over(k as real, n as real) <= 1.0
  {
    TimesUnit(n as real);
    OverIs(0.0, n as real, 0.0);
    OverIs(n as real, n as real, 1.0);
    OverOrder(0.0, k as real, n as real);
    OverOrder(k as real, n as real, n as real);
  }

  lemma RelayedStepInRange(source: EndpointMapping, target: EndpointMapping, k: nat)
    requires source.steps > 1 && target.steps > 1 && k < source.steps
    ensures 0 <= RelayedStep(source, target, k) < target.steps
  {
    FractionInUnit(k, source.steps - 1);
    var x := Over(k as real, Intervals(source));
    TimesUnit(Intervals(target));
    TimesOrder(0.0, x, Intervals(target));
    TimesOrder(x, 1.0, Intervals(target));
    RoundIsMonotone(0.0, Times(x, Intervals(target)));
    RoundIsMonotone(Times(x, Intervals(target)), Intervals(target));
  }

  lemma RelayedStepIsMonotone(source: EndpointMapping, target: EndpointMapping, j: nat, k: nat)
    requires source.steps > 1 && target.steps > 1 && j <= k
    ensures RelayedStep(source, target, j) <= RelayedStep(source, target, k)
  {
    OverOrder(j as real, k as real, Intervals(source));
    TimesOrder(Over(j as real, Intervals(source)), Over(k as real, Intervals(source)), Intervals(target));
    RoundIsMonotone(Times(Over(j as real, Intervals(source)), Intervals(target)),
                    Times(Over(k as real, Intervals(source)), Intervals(target)));
  }

  lemma GridPosition(e: EndpointMapping, k: nat)
    requires Ordered(e) && e.steps > 1 && k < e.steps
    ensures Position(e, GridValue(e, k)) == Over(k as real, Intervals(e))
    ensures Normalize(e, Stepped, GridValue(e, k)) == Over(k as real, Intervals(e))
  {
    var x := Over(k as real, Intervals(e));
    FractionInUnit(k, e.steps - 1);
    assert GridValue(e, k) - e.minimum == Times(x, Span(e));
    OverIs(Times(x, Span(e)), Span(e), x);
    NormalizeIs(e, Stepped, GridValue(e, k));
    QuantizeGrid(k, Intervals(e));
  }

  /** A stepped relay of a grid value is the grid value of the relayed step. */
  lemma RelayOfGridValue(source: EndpointMapping, target: EndpointMapping, k: nat)
    requires Ordered(source) && Ordered(target)
    requires source.steps > 1 && target.steps > 1 && k < source.steps
    ensures 0 <= RelayedStep(source, target, k) < target.steps
    ensures Relay(source, target, Stepped, GridValue(source, k)) == GridValue(target, RelayedStep(source, target, k))
  {
    FractionInUnit(k, source.steps - 1);
    GridPosition(source, k);
    DenormalizeIs(target, Stepped, Over(k as real, Intervals(source)));
    RelayedStepInRange(source, target, k);
  }

  /** Step k is the nearest to the point x of the steps 0, 1, 2, ..., the higher one if two are equally near. */
  predicate NearestStep(x: real, k: nat) { k as real - 0.5 <= x < k as real + 0.5 }

  /**
   * Where any value of the source range lands under a stepped relay: step i is the source step nearest to it, and
   * step j the target step nearest to where step i stands; halfway, the higher step is taken both times.
   */
  lemma SteppedRelayExactly(source: EndpointMapping, target: EndpointMapping, value: real, i: nat, j: nat)
    requires Ordered(source) && Ordered(target) && InRange(source, value)
    requires source.steps > 1 && target.steps > 1
    requires NearestStep(Times(Position(source, value), Intervals(source)), i)
    requires NearestStep(Times(Over(i as real, Intervals(source)), Intervals(target)), j)
    ensures i < source.steps && j < target.steps
    ensures Relay(source, target, Stepped, value) == GridValue(target, j)
    ensures Relay(source, target, Stepped, value) == Relay(source, target, Stepped, GridValue(source, i))
  {
    var m := Intervals(source);
    var x := Position(source, value);
    PositionInUnit(source, value);
    TimesUnit(m);
    TimesOrder(0.0, x, m);
    TimesOrder(x, 1.0, m);
    RoundExactly(Times(x, m), i);
    FractionInUnit(i, source.steps - 1);
    TimesUnit(Intervals(target));
    TimesOrder(0.0, Over(i as real, m), Intervals(target));
    RoundExactly(Times(Over(i as real, m), Intervals(target)), j);
    RelayOfGridValue(source, target, i);
    NormalizeIs(source, Stepped, value);
    NormalizeIs(source, Stepped, GridValue(source, i));
    GridPosition(source, i);
  }

  /** A source step that stands exactly between the target steps j and j + 1 is relayed to step j + 1. */
  lemma StepBetweenGoesUp(source: EndpointMapping, target: EndpointMapping, k: nat, j: nat)
    requires Ordered(source) && Ordered(target)
    requires source.steps > 1 && target.steps > 1 && k < source.steps
    requires Times(Over(k as real, Intervals(source)), Intervals(target)) == j as real + 0.5
    ensures Relay(source, target, Stepped, GridValue(source, k)) == GridValue(target, j + 1)
  {
    RoundExactly(j as real + 0.5, j + 1);
    RelayOfGridValue(source, target, k);
  }

  /** A value exactly between the source steps i and i + 1 is relayed like step i + 1. */
  lemma ValueBetweenGoesUp(source: EndpointMapping, target: EndpointMapping, value: real, i: nat)
    requires Ordered(source) && Ordered(target) && InRange(source, value)
    requires source.steps > 1 && target.steps > 1
    requires Times(Position(source, value), Intervals(source)) == i as real + 0.5
    ensures i + 1 < source.steps
    ensures Relay(source, target, Stepped, value) == Relay(source, target, Stepped, GridValue(source, i + 1))
  {
    PositionInUnit(source, value);
    TimesUnit(Intervals(source));
    TimesOrder(Position(source, value), 1.0, Intervals(source));
    RelayedStepInRange(source, target, i + 1);
    var j := RelayedStep(source, target, i + 1);
    FractionInUnit(i + 1, source.steps - 1);
    TimesUnit(Intervals(target));
    TimesOrder(0.0, Over((i + 1) as real, Intervals(source)), Intervals(target));
    RoundExactly(Times(Over((i + 1) as real, Intervals(source)), Intervals(target)), j);
    SteppedRelayExactly(source, target, value, i + 1, j);
  }

  lemma GridValuesDiffer(e: EndpointMapping, j: nat, k: nat)
    requires Ordered(e) && e.steps > 1
    ensures GridValue(e, j) == GridValue(e, k) ==> j == k
  {
    Cancel(Over(j as real, Intervals(e)), Over(k as real, Intervals(e)), Span(e));
    OverTimes(j as real, Intervals(e));
    OverTimes(k as real, Intervals(e));
  }

  ghost predicate StepReturns(source: EndpointMapping, target: EndpointMapping, k: nat)
    requires Ordered(source) && Ordered(target) && source.steps > 1 && target.steps > 1
  {
    Relay(target, source, Stepped, Relay(source, target, Stepped, GridValue(source, k))) == GridValue(source, k)
  }

  lemma StepReturnsIs(source: EndpointMapping, target: EndpointMapping, k: nat)
    requires Ordered(source) && Ordered(target)
    requires source.steps > 1 && target.steps > 1 && k < source.steps
    ensures 0 <= RelayedStep(source, target, k) < target.steps
    ensures StepReturns(source, target, k) <==> RelayedStep(target, source, RelayedStep(source, target, k)) == k
  {
    RelayOfGridValue(source, target, k);
    var j := RelayedStep(source, target, k);
    RelayOfGridValue(target, source, j);
    GridValuesDiffer(source, RelayedStep(target, source, j), k);
  }

  /** Rounded up and back, a step of the coarser side is found again. */
  lemma FinerTargetReturns(source: EndpointMapping, target: EndpointMapping, k: nat)
    requires source.steps > 1 && target.steps >= source.steps && k < source.steps
    ensures 0 <= RelayedStep(source, target, k)
    ensures RelayedStep(target, source, RelayedStep(source, target, k)) == k
  {
    var m, n := Intervals(source), Intervals(target);
    RelayedStepInRange(source, target, k);
    var j := RelayedStep(source, target, k);
    var there := Times(Over(k as real, m), n);
    RoundIsNearest(there);
    // k == there / n * m, and there is within a half of j.
    var y := Over(j as real, n);
    OverTimes(j as real, n);
    OverTimes(k as real, m);
    if target.steps == source.steps {
      RoundNear(there, k);
    } else {
      BackWithinHalf(k as real, j as real, m, n);
      RoundNear(Times(y, m), k);
    }
  }

  /** If j is within a half of k n / m and n > m, then j m / n is strictly within a half of k. */
  lemma BackWithinHalf(k: real, j: real, m: real, n: real)
    requires 0.0 < m < n
    requires j - 0.5 <= Times(Over(k, m), n) <= j + 0.5
    ensures k - 0.5 < Times(Over(j, n), m) < k + 0.5
  {
    var x, y := Over(k, m), Over(j, n);
    OverTimes(k, m);
    OverTimes(j, n);
    // |x n - y n| <= 1/2, so |x m - y m| < 1/2.
    NearProducts(x, y, m, n);
  }

  lemma NearProducts(x: real, y: real, m: real, n: real)
    requires 0.0 < m < n
    requires Times(y, n) - 0.5 <= Times(x, n) <= Times(y, n) + 0.5
    ensures Times(x, m) - 0.5 < Times(y, m) < Times(x, m) + 0.5
  {
    var d := x - y;
    TimesSum(y, d, n);
    TimesSum(y, d, m);
    assert y + d == x;
    assert -0.5 <= Times(d, n) <= 0.5;
    SmallerFactor(d, m, n);
    SmallerFactor(-d, m, n);
    assert Times(-d, n) == -Times(d, n) && Times(-d, m) == -Times(d, m);
  }

  lemma SmallerFactor(d: real, m: real, n: real)
    requires 0.0 < m < n
    ensures Times(d, n) <= 0.5 ==> Times(d, m) < 0.5
  {
    if d > 0.0 {
      TimesStrict(m, n, d);
      assert Times(m, d) == Times(d, m) && Times(n, d) == Times(d, n);
    } else {
      TimesOrder(d, 0.0, m);
      TimesUnit(m);
    }
  }

  /** The step that comes back is the one that was sent. */
  predicate ComesBack(source: EndpointMapping, target: EndpointMapping, i: nat)
    requires source.steps > 1 && target.steps > 1
  {
    0 <= RelayedStep(source, target, i) && RelayedStep(target, source, RelayedStep(source, target, i)) == i
  }

  lemma NextStepClimbs(source: EndpointMapping, target: EndpointMapping, k: nat)
    requires source.steps > 1 && target.steps > 1 && k > 0
    requires ComesBack(source, target, k - 1) && ComesBack(source, target, k)
    ensures RelayedStep(source, target, k) > RelayedStep(source, target, k - 1)
  {
    RelayedStepIsMonotone(source, target, k - 1, k);
  }

  /** If every step came back from a coarser target, relayed steps would climb past the last target step. */
  lemma {:induction false} ReturningStepsClimb(source: EndpointMapping, target: EndpointMapping, k: nat)
    requires source.steps > 1 && target.steps > 1 && k < source.steps
    requires forall i: nat :: i < source.steps ==> ComesBack(source, target, i)
    ensures RelayedStep(source, target, k) >= k
  {
    if k > 0 {
      ReturningStepsClimb(source, target, k - 1);
      assert ComesBack(source, target, k - 1) && ComesBack(source, target, k);
      NextStepClimbs(source, target, k);
    } else {
      assert ComesBack(source, target, 0);
    }
  }

  /** A relay there and back returns every step of the source exactly when the target has at least as many steps. */
  lemma SteppedRoundTripExactly(source: EndpointMapping, target: EndpointMapping)
    requires Ordered(source) && Ordered(target) && source.steps > 1 && target.steps > 1
    ensures (forall k: nat :: k < source.steps ==> StepReturns(source, target, k)) <==> target.steps >= source.steps
  {
    if target.steps >= source.steps {
      forall k: nat | k < source.steps
        ensures StepReturns(source, target, k)
      {
        StepReturnsIs(source, target, k);
        FinerTargetReturns(source, target, k);
      }
    } else if forall k: nat :: k < source.steps ==> StepReturns(source, target, k) {
      forall i: nat | i < source.steps
        ensures ComesBack(source, target, i)
      {
        assert StepReturns(source, target, i);
        StepReturnsIs(source, target, i);
      }
      ReturningStepsClimb(source, target, source.steps - 1);
      RelayedStepInRange(source, target, source.steps - 1);
      assert false;
    }
  }
}
