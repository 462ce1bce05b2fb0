/** `adoptionProgress`: the fraction of the total doublings reached at a
    forecast step, for one of four adoption shapes. */
module Adoption {
  import opened MathLaws

  datatype Shape = Linear | Front | Back | SCurve

  /** The `switch (shape)`: any name other than the three listed takes the
      default (linear) case. */
  function ShapeOf(name: string): Shape
  {
    if name == "front" then Front
    else if name == "back" then Back
    else if name == "s-curve" then SCurve
    else Linear
  }

  /** The logistic curve centred at t = 0.5 with steepness 6. */
  function Logistic(m: MathFns, t: real): real
    requires m.ExpLaws()
  {
    1.0 / (1.0 + m.exp(-6.0 * (t - 0.5)))
  }

  /** The logistic's value at t = 0 (`min` in the source). */
  function SCurveLow(m: MathFns): real
    requires m.ExpLaws()
  {
    1.0 / (1.0 + m.exp(3.0))
  }

  /** The logistic's value at t = 1 (`max` in the source). */
  function SCurveHigh(m: MathFns): real
    requires m.ExpLaws()
  {
    1.0 / (1.0 + m.exp(-3.0))
  }

  /** The normalising denominator of the s-curve is positive, so the
      quotient is always a finite number. */
  lemma SCurveSpread(m: MathFns)
    requires m.ExpLaws()
    ensures SCurveLow(m) < SCurveHigh(m)
  {
    assert m.exp(-3.0) < m.exp(3.0);
    ReciprocalStrictlyAntitone(1.0 + m.exp(-3.0), 1.0 + m.exp(3.0));
  }

  /** The logistic rescaled so that it runs from its value at 0 to its
      value at 1. */
  function SCurveValue(m: MathFns, t: real): real
    requires m.ExpLaws()
  {
    SCurveSpread(m);
    (Logistic(m, t) - SCurveLow(m)) / (SCurveHigh(m) - SCurveLow(m))
  }

  /** Progress at step `index` of `total` steps. */
  function AdoptionProgress(m: MathFns, index: int, total: int, shape: string): real
    requires m.ExpLaws()
  {
    if total <= 1 then 1.0
    else
      var t := index as real / (total - 1) as real;
      match ShapeOf(shape)
      case Front => m.pow(t, 0.65)
      case Back => m.pow(t, 1.75)
      case SCurve => SCurveValue(m, t)
      case Linear => t
  }

  // ---------------------------------------------------------------------
  // Real-number helpers

  lemma ReciprocalStrictlyAntitone(a: real, b: real)
    requires 0.0 < a < b
    ensures 1.0 / b < 1.0 / a
  {
    assert (1.0 / a) * a == 1.0;
    assert (1.0 / b) * b == 1.0;
  }

  lemma ReciprocalAntitone(a: real, b: real)
    requires 0.0 < a <= b
    ensures 1.0 / b <= 1.0 / a
  {
    if a < b {
      ReciprocalStrictlyAntitone(a, b);
    }
  }

  lemma QuotientMonotone(a: real, b: real, c: real)
    requires a <= b && 0.0 < c
    ensures a / c <= b / c
  {
    assert (b / c - a / c) * c == b - a;
  }

  lemma QuotientInUnit(a: real, c: real)
    requires 0.0 <= a <= c && 0.0 < c
    ensures 0.0 <= a / c <= 1.0
  {
    QuotientMonotone(0.0, a, c);
    QuotientMonotone(a, c, c);
  }

  /** t = index / (total - 1) lies in [0, 1] for an index within the horizon. */
  lemma PositionInUnit(index: int, total: int)
    requires 2 <= total && 0 <= index < total
    ensures 0.0 <= index as real / (total - 1) as real <= 1.0
  {
    QuotientInUnit(index as real, (total - 1) as real);
  }

  /** 1/(1+x) + 1/(1+y) == 1 when x * y == 1. */
  lemma ReciprocalPair(x: real, y: real)
    requires 0.0 < x && 0.0 < y && x * y == 1.0
    ensures 1.0 / (1.0 + x) + 1.0 / (1.0 + y) == 1.0
  {
    assert 1.0 / (1.0 + y) == x / (x + 1.0) by {
      assert (1.0 + y) * x == x + 1.0;
    }
    assert 1.0 / (1.0 + x) + x / (x + 1.0) == (1.0 + x) / (1.0 + x);
  }

  // ---------------------------------------------------------------------
  // The logistic

  lemma LogisticMonotone(m: MathFns, s: real, t: real)
    requires m.ExpLaws() && s <= t
    ensures Logistic(m, s) <= Logistic(m, t)
  {
    var a, b := -6.0 * (s - 0.5), -6.0 * (t - 0.5);
    assert b <= a;
    assert m.exp(b) <= m.exp(a) by {
      if b < a {
        assert m.ExpIncreasing();
      }
    }
    ReciprocalAntitone(1.0 + m.exp(b), 1.0 + m.exp(a));
  }

  /** The logistic at t and at 1 - t add up to 1. */
  lemma LogisticReflect(m: MathFns, t: real)
    requires m.ExpLaws()
    ensures Logistic(m, t) + Logistic(m, 1.0 - t) == 1.0
  {
    var a, b := -6.0 * (t - 0.5), -6.0 * ((1.0 - t) - 0.5);
    assert a + b == 0.0;
    assert m.exp(a) * m.exp(b) == 1.0 by {
      assert m.ExpReflects();
    }
    ReciprocalPair(m.exp(a), m.exp(b));
  }

  lemma SCurveEnds(m: MathFns)
    requires m.ExpLaws()
    ensures Logistic(m, 0.0) == SCurveLow(m) && Logistic(m, 1.0) == SCurveHigh(m)
    ensures SCurveValue(m, 0.0) == 0.0 && SCurveValue(m, 1.0) == 1.0
  {
    assert -6.0 * (0.0 - 0.5) == 3.0;
    assert -6.0 * (1.0 - 0.5) == -3.0;
    SCurveSpread(m);
  }

  // ---------------------------------------------------------------------
  // Properties of adoptionProgress

  /** A horizon of at most one step is fully arrived, whatever the index and shape. */
  lemma SingleStepIsComplete(m: MathFns, index: int, total: int, shape: string)
    requires m.ExpLaws() && total <= 1
    ensures AdoptionProgress(m, index, total, shape) == 1.0
  {
  }

  /** The linear (default) shape is the position index / (total - 1) itself. */
  lemma LinearProgress(m: MathFns, index: int, total: int, shape: string)
    requires m.ExpLaws() && ShapeOf(shape) == Linear
    requires 2 <= total && 0 <= index < total
    ensures AdoptionProgress(m, index, total, shape) == index as real / (total - 1) as real
    ensures 0.0 <= AdoptionProgress(m, index, total, shape) <= 1.0
  {
    PositionInUnit(index, total);
  }

  /** Every shape starts at exactly 0 and ends at exactly 1. */
  lemma ProgressEndpoints(m: MathFns, total: int, shape: string)
    requires m.Lawful() && 2 <= total
    ensures AdoptionProgress(m, 0, total, shape) == 0.0
    ensures AdoptionProgress(m, total - 1, total, shape) == 1.0
  {
    assert 0 as real / (total - 1) as real == 0.0;
    assert (total - 1) as real / (total - 1) as real == 1.0;
    SCurveEnds(m);
  }

  /** Every shape stays within [0, 1] over the horizon. */
  lemma ProgressInUnitInterval(m: MathFns, index: int, total: int, shape: string)
    requires m.Lawful()
    requires total <= 1 || 0 <= index < total
    ensures 0.0 <= AdoptionProgress(m, index, total, shape) <= 1.0
  {
    if 1 < total {
      var t := index as real / (total - 1) as real;
      PositionInUnit(index, total);
      match ShapeOf(shape)
      case Front =>
        assert m.pow(t, 0.65) <= m.pow(1.0, 0.65);
      case Back =>
        assert m.pow(t, 1.75) <= m.pow(1.0, 1.75);
      case SCurve =>
        SCurveEnds(m);
        SCurveSpread(m);
        LogisticMonotone(m, 0.0, t);
        LogisticMonotone(m, t, 1.0);
        QuotientInUnit(Logistic(m, t) - SCurveLow(m), SCurveHigh(m) - SCurveLow(m));
      case Linear =>
    }
  }

  /** Every shape is non-decreasing over the horizon. */
  lemma ProgressMonotone(m: MathFns, i: int, j: int, total: int, shape: string)
    requires m.Lawful()
    requires 0 <= i <= j < total
    ensures AdoptionProgress(m, i, total, shape) <= AdoptionProgress(m, j, total, shape)
  {
    if 1 < total {
      var ti := i as real / (total - 1) as real;
      var tj := j as real / (total - 1) as real;
      QuotientMonotone(i as real, j as real, (total - 1) as real);
      PositionInUnit(i, total);
      match ShapeOf(shape)
      case Front =>
        assert m.pow(ti, 0.65) <= m.pow(tj, 0.65);
      case Back =>
        assert m.pow(ti, 1.75) <= m.pow(tj, 1.75);
      case SCurve =>
        SCurveSpread(m);
        LogisticMonotone(m, ti, tj);
        QuotientMonotone(Logistic(m, ti) - SCurveLow(m), Logistic(m, tj) - SCurveLow(m), SCurveHigh(m) - SCurveLow(m));
      case Linear =>
    }
  }

  /** The s-curve is point-symmetric about the middle of the horizon:
      progress at step i and at step total - 1 - i add up to 1. */
  lemma {:induction false} SCurveSymmetric(m: MathFns, index: int, total: int, shape: string)
    requires m.ExpLaws() && ShapeOf(shape) == SCurve && 2 <= total
    ensures AdoptionProgress(m, index, total, shape) + AdoptionProgress(m, total - 1 - index, total, shape) == 1.0
  {
    var t := index as real / (total - 1) as real;
    var u := (total - 1 - index) as real / (total - 1) as real;
    MirroredPosition(index, total);
    LogisticReflect(m, t);
    SCurveEnds(m);
    LogisticReflect(m, 0.0);
    SCurveSpread(m);
    var low, high := SCurveLow(m), SCurveHigh(m);
    QuotientsAddUp(Logistic(m, t) - low, Logistic(m, u) - low, high - low);
  }

  /** Step total - 1 - i sits as far from the end as step i from the start. */
  lemma MirroredPosition(index: int, total: int)
    requires 2 <= total
    ensures (total - 1 - index) as real / (total - 1) as real == 1.0 - index as real / (total - 1) as real
  {
    var n := (total - 1) as real;
    var q := index as real / n;
    assert q * n == index as real;
    assert (total - 1 - index) as real == (1.0 - q) * n;
    QuotientUnique((total - 1 - index) as real, n, 1.0 - q);
  }

  /** Division by a positive number has a unique result. */
  lemma QuotientUnique(x: real, n: real, y: real)
    requires 0.0 < n && y * n == x
    ensures x / n == y
  {
    assert (x / n) * n == x;
    assert (x / n - y) * n == 0.0;
  }

  lemma QuotientsAddUp(a: real, b: real, d: real)
    requires 0.0 < d && a + b == d
    ensures a / d + b / d == 1.0
  {
    assert a / d + b / d == (a + b) / d;
  }

  /** With eleven steps the s-curve is exactly one half at the middle step. */
  lemma SCurveMidpoint(m: MathFns)
    requires m.ExpLaws()
    ensures AdoptionProgress(m, 5, 11, "s-curve") == 0.5
  {
    SCurveSymmetric(m, 5, 11, "s-curve");
  }
}
