/** `computeCost`: the experience-curve (Wright's Law) cost of a chemistry
    after a number of production doublings, clamped at its materials floor. */
module Cost {
  import opened Basics
  import opened MathLaws
  import opened Chemistries

  /** The share of the above-floor cost kept per doubling: 1 - learningRate,
      clamped to [0, 1]. */
  function Retention(learningRate: real): (r: real)
    ensures 0.0 <= r <= 1.0
    ensures 0.0 <= 1.0 - learningRate <= 1.0 ==> r == 1.0 - learningRate
    ensures 1.0 <= learningRate ==> r == 0.0
    ensures learningRate <= 0.0 ==> r == 1.0
  {
    Max(0.0, Min(1.0, 1.0 - learningRate))
  }

  /** floor + (baseline - floor) * ratio^doublings, never below the floor. */
  function ComputeCost(m: MathFns, chem: Chemistry, doublings: real): (c: real)
    ensures chem.floorCost <= c
  {
    var ratio := Retention(chem.learningRate);
    var rawCost := chem.floorCost + (chem.baselineCost - chem.floorCost) * m.pow(ratio, doublings);
    Max(chem.floorCost, rawCost)
  }

  lemma ProductNonNegative(a: real, b: real)
    requires 0.0 <= a && 0.0 <= b
    ensures 0.0 <= a * b
  {
  }

  /** ratio^d lies in [0, 1] for a ratio in [0, 1] and d >= 0. */
  lemma PowInUnit(m: MathFns, r: real, d: real)
    requires m.PowLaws() && 0.0 <= r <= 1.0 && 0.0 <= d
    ensures 0.0 <= m.pow(r, d) <= 1.0
  {
    assert m.pow(r, 0.0) == 1.0 by {
      assert m.PowWhole() && m.pow(r, 0 as real) == IntPow(r, 0);
    }
    assert m.pow(r, d) <= m.pow(r, 0.0) by {
      assert m.PowAntitoneInExponent();
    }
  }

  /** With no doublings the cost is the larger of baseline and floor, so
      exactly the baseline whenever the baseline is not below the floor. */
  lemma CostAtZeroDoublings(m: MathFns, chem: Chemistry)
    requires m.PowLaws()
    ensures ComputeCost(m, chem, 0.0) == Max(chem.floorCost, chem.baselineCost)
    ensures chem.floorCost <= chem.baselineCost ==> ComputeCost(m, chem, 0.0) == chem.baselineCost
  {
    var r := Retention(chem.learningRate);
    PowInUnit(m, r, 0.0);
    assert m.pow(r, 0.0) == 1.0 by {
      assert m.PowWhole() && m.pow(r, 0 as real) == IntPow(r, 0);
    }
    assert (chem.baselineCost - chem.floorCost) * 1.0 == chem.baselineCost - chem.floorCost;
  }

  /** A chemistry above its floor stays between floor and baseline. */
  lemma CostWithinBand(m: MathFns, chem: Chemistry, doublings: real)
    requires m.PowLaws() && chem.floorCost <= chem.baselineCost && 0.0 <= doublings
    ensures chem.floorCost <= ComputeCost(m, chem, doublings) <= chem.baselineCost
  {
    var r := Retention(chem.learningRate);
    PowInUnit(m, r, doublings);
    var gap := chem.baselineCost - chem.floorCost;
    var p := m.pow(r, doublings);
    ProductNonNegative(gap, 1.0 - p);
    assert gap * p <= gap;
  }

  /** More doublings never raise the cost, for every chemistry. */
  lemma CostNonIncreasing(m: MathFns, chem: Chemistry, d1: real, d2: real)
    requires m.PowLaws() && 0.0 <= d1 <= d2
    ensures ComputeCost(m, chem, d2) <= ComputeCost(m, chem, d1)
  {
    var r := Retention(chem.learningRate);
    var gap := chem.baselineCost - chem.floorCost;
    var p1, p2 := m.pow(r, d1), m.pow(r, d2);
    assert p2 <= p1 by {
      assert m.PowAntitoneInExponent();
    }
    assert 0.0 <= p2 by {
      assert m.PowNonNegative();
    }
    if 0.0 <= gap {
      ProductNonNegative(gap, p1 - p2);
      assert gap * p2 <= gap * p1;
    } else {
      ProductNonNegative(-gap, p2);
      assert gap * p2 <= 0.0;
    }
  }

  /** A chemistry whose baseline is at or below its floor is pinned at the
      floor: the cost does not move towards it, it is there from the start. */
  lemma CostPinnedAtFloor(m: MathFns, chem: Chemistry, doublings: real)
    requires m.PowLaws() && chem.baselineCost <= chem.floorCost && 0.0 <= doublings
    ensures ComputeCost(m, chem, doublings) == chem.floorCost
  {
    var r := Retention(chem.learningRate);
    var p := m.pow(r, doublings);
    assert 0.0 <= p by {
      assert m.PowNonNegative();
    }
    assert (chem.baselineCost - chem.floorCost) * p <= 0.0;
  }

  /** Wright's Law at whole doublings: after n doublings the above-floor part
      of the cost is the baseline's multiplied by the ratio n times. */
  lemma CostAtWholeDoublings(m: MathFns, chem: Chemistry, n: nat)
    requires m.PowWhole() && chem.floorCost <= chem.baselineCost
    ensures ComputeCost(m, chem, n as real)
            == chem.floorCost + (chem.baselineCost - chem.floorCost) * IntPow(Retention(chem.learningRate), n)
  {
    var r := Retention(chem.learningRate);
    assert m.pow(r, n as real) == IntPow(r, n);
    IntPowNonNegative(r, n);
    CostAboveFloor(m, chem, n as real);
  }

  /** Where the power is non-negative, a chemistry above its floor costs the
      unclamped law. */
  lemma CostAboveFloor(m: MathFns, chem: Chemistry, doublings: real)
    requires chem.floorCost <= chem.baselineCost
    requires 0.0 <= m.pow(Retention(chem.learningRate), doublings)
    ensures ComputeCost(m, chem, doublings)
            == chem.floorCost + (chem.baselineCost - chem.floorCost) * m.pow(Retention(chem.learningRate), doublings)
  {
    ProductNonNegative(chem.baselineCost - chem.floorCost, m.pow(Retention(chem.learningRate), doublings));
  }

  /** Each further doubling keeps exactly the retention ratio of the
      above-floor cost. */
  lemma CostMarginShrinks(m: MathFns, chem: Chemistry, n: nat)
    requires m.PowWhole() && chem.floorCost <= chem.baselineCost
    ensures ComputeCost(m, chem, (n + 1) as real) - chem.floorCost
            == Retention(chem.learningRate) * (ComputeCost(m, chem, n as real) - chem.floorCost)
  {
    var r := Retention(chem.learningRate);
    PowStep(m, r, n);
    CostAboveFloor(m, chem, n as real);
    CostAboveFloor(m, chem, (n + 1) as real);
    MarginStep(chem.floorCost, chem.baselineCost - chem.floorCost, r, m.pow(r, n as real),
               ComputeCost(m, chem, n as real), ComputeCost(m, chem, (n + 1) as real));
  }

  /** One more whole doubling multiplies the power by the ratio once more. */
  lemma PowStep(m: MathFns, r: real, n: nat)
    requires m.PowWhole() && 0.0 <= r
    ensures m.pow(r, (n + 1) as real) == r * m.pow(r, n as real)
    ensures 0.0 <= m.pow(r, n as real) && 0.0 <= m.pow(r, (n + 1) as real)
  {
    assert m.pow(r, n as real) == IntPow(r, n);
    assert m.pow(r, (n + 1) as real) == IntPow(r, n + 1);
    IntPowStep(r, n);
    IntPowNonNegative(r, n);
    IntPowNonNegative(r, n + 1);
  }

  /** The algebra of one more doubling, apart from the cost law itself. */
  lemma MarginStep(floor: real, gap: real, r: real, p: real, c0: real, c1: real)
    requires c0 == floor + gap * p && c1 == floor + gap * (r * p)
    ensures c1 - floor == r * (c0 - floor)
  {
    assert gap * (r * p) == r * (gap * p);
  }

  /** LFP at its defaults (59, 22.2, 20%): one doubling costs 51.64. */
  lemma LfpAfterOneDoubling(m: MathFns)
    requires m.PowWhole()
    ensures ComputeCost(m, Default(Lfp), 1.0) == 51.64
  {
    CostAtWholeDoublings(m, Default(Lfp), 1);
  }

  /** LFP at its defaults: five doublings cost 22.2 + 36.8 * 0.8^5 = 34.258624. */
  lemma LfpAfterFiveDoublings(m: MathFns)
    requires m.PowWhole()
    ensures ComputeCost(m, Default(Lfp), 5.0) == 34.258624
  {
    CostAtWholeDoublings(m, Default(Lfp), 5);
    assert IntPow(0.8, 5) == 0.32768;
  }
}
