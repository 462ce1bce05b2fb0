/** JavaScript's Math.pow and Math.exp are not defined here. Every operation
    that calls them takes a `MathFns` value, and every proof names the laws
    of the two functions that it relies on. `LawsAreSatisfiable` exhibits a
    pair of functions that obeys all of the laws at once, so no proof built
    on them is vacuous. */
module MathLaws {

  /** `r` multiplied by itself `n` times. */
  function IntPow(r: real, n: nat): real
  {
    if n == 0 then 1.0 else r * IntPow(r, n - 1)
  }

  datatype MathFns = MathFns(pow: (real, real) -> real, exp: real -> real)
  {
    /** The properties of Math.pow(base, exponent) used by the proofs, all of
        them for a non-negative base. */
    ghost predicate PowLaws()
    {
      && PowWhole() && PowNonNegative() && PowAntitoneInExponent()
      && PowMonotoneInBase() && PowOfZero() && PowOfOne()
    }

    /** A whole exponent means repeated multiplication (so pow(r, 0) == 1). */
    ghost predicate PowWhole()
    {
      forall r, n: nat {:trigger IntPow(r, n)} :: 0.0 <= r ==> pow(r, n as real) == IntPow(r, n)
    }

    ghost predicate PowNonNegative()
    {
      forall r, d :: 0.0 <= r && 0.0 <= d ==> 0.0 <= pow(r, d)
    }

    /** For a base in [0, 1] a larger exponent never gives a larger power. */
    ghost predicate PowAntitoneInExponent()
    {
      forall r, d1, d2 :: 0.0 <= r <= 1.0 && 0.0 <= d1 <= d2 ==> pow(r, d2) <= pow(r, d1)
    }

    /** For a positive exponent the power grows with the base. */
    ghost predicate PowMonotoneInBase()
    {
      forall a, b, p :: 0.0 <= a <= b && 0.0 < p ==> pow(a, p) <= pow(b, p)
    }

    ghost predicate PowOfZero()
    {
      forall p :: 0.0 < p ==> pow(0.0, p) == 0.0
    }

    ghost predicate PowOfOne()
    {
      forall p :: 0.0 < p ==> pow(1.0, p) == 1.0
    }

    /** The properties of Math.exp used by the proofs. */
    ghost predicate ExpLaws()
    {
      ExpPositive() && ExpIncreasing() && ExpReflects()
    }

    ghost predicate ExpPositive()
    {
      forall x :: 0.0 < exp(x)
    }

    ghost predicate ExpIncreasing()
    {
      forall x, y :: x < y ==> exp(x) < exp(y)
    }

    /** exp(-x) * exp(x) == 1 */
    ghost predicate ExpReflects()
    {
      forall x, y :: x + y == 0.0 ==> exp(x) * exp(y) == 1.0
    }

    ghost predicate Lawful()
    {
      PowLaws() && ExpLaws()
    }
  }

  // ---------------------------------------------------------------------
  // A witness that the laws are consistent: stand-ins that obey them all.

  function Ceiling(d: real): int
  {
    -((-d).Floor)
  }

  /** Rounds the exponent up to a whole number and multiplies. */
  function StandInPow(r: real, d: real): real
  {
    if d <= 0.0 then 1.0 else IntPow(r, if Ceiling(d) < 0 then 0 else Ceiling(d))
  }

  /** A positive, strictly increasing function with f(-x) * f(x) == 1. */
  function StandInExp(x: real): real
  {
    if 0.0 <= x then 1.0 + x else 1.0 / (1.0 - x)
  }

  lemma {:induction false} IntPowNonNegative(r: real, n: nat)
    requires 0.0 <= r
    ensures 0.0 <= IntPow(r, n)
  {
    if n > 0 {
      IntPowNonNegative(r, n - 1);
    }
  }

  lemma IntPowStep(r: real, n: nat)
    ensures IntPow(r, n + 1) == r * IntPow(r, n)
  {
  }

  lemma {:induction false} IntPowOfOne(n: nat)
    ensures IntPow(1.0, n) == 1.0
  {
    if n > 0 {
      IntPowOfOne(n - 1);
    }
  }

  lemma {:induction false} IntPowAtMostOne(r: real, n: nat)
    requires 0.0 <= r <= 1.0
    ensures 0.0 <= IntPow(r, n) <= 1.0
  {
    if n > 0 {
      var below := IntPow(r, n - 1);
      IntPowAtMostOne(r, n - 1);
      assert IntPow(r, n) == r * below;
      assert 0.0 <= r * below <= below;
    }
  }

  lemma {:induction false} IntPowAntitoneInExponent(r: real, m: nat, n: nat)
    requires 0.0 <= r <= 1.0 && m <= n
    ensures IntPow(r, n) <= IntPow(r, m)
  {
    if m < n {
      IntPowAntitoneInExponent(r, m, n - 1);
      IntPowAtMostOne(r, n - 1);
      assert r * IntPow(r, n - 1) <= IntPow(r, n - 1);
    }
  }

  lemma {:induction false} IntPowMonotoneInBase(a: real, b: real, n: nat)
    requires 0.0 <= a <= b
    ensures IntPow(a, n) <= IntPow(b, n)
  {
    if n > 0 {
      IntPowMonotoneInBase(a, b, n - 1);
      IntPowNonNegative(a, n - 1);
      assert a * IntPow(a, n - 1) <= b * IntPow(a, n - 1) <= b * IntPow(b, n - 1);
    }
  }

  lemma StandInExpIncreasing(x: real, y: real)
    requires x < y
    ensures StandInExp(x) < StandInExp(y)
  {
    if y < 0.0 {
      assert 0.0 < 1.0 - y < 1.0 - x;
      assert 1.0 / (1.0 - x) < 1.0 / (1.0 - y) by {
        assert (1.0 / (1.0 - x)) * (1.0 - x) == 1.0;
        assert (1.0 / (1.0 - y)) * (1.0 - y) == 1.0;
      }
    } else if x < 0.0 {
      assert 1.0 < 1.0 - x;
      assert (1.0 / (1.0 - x)) * (1.0 - x) == 1.0;
    }
  }

  lemma StandInExpReflect(x: real, y: real)
    requires x + y == 0.0
    ensures StandInExp(x) * StandInExp(y) == 1.0
  {
    if x < 0.0 {
      assert StandInExp(x) * (1.0 - x) == 1.0;
    } else if y < 0.0 {
      assert StandInExp(y) * (1.0 - y) == 1.0;
    }
  }

  lemma StandInPowWhole(r: real, n: nat)
    requires 0.0 <= r
    ensures StandInPow(r, n as real) == IntPow(r, n)
  {
    if n > 0 {
      assert (-(n as real)).Floor == -(n as int);
    }
  }

  lemma StandInPowAntitone(r: real, d1: real, d2: real)
    requires 0.0 <= r <= 1.0 && 0.0 <= d1 <= d2
    ensures StandInPow(r, d2) <= StandInPow(r, d1)
  {
    if 0.0 < d1 {
      assert (-d2).Floor <= (-d1).Floor;
      IntPowAntitoneInExponent(r, Ceiling(d1), Ceiling(d2));
    } else if 0.0 < d2 {
      IntPowAtMostOne(r, Ceiling(d2));
    }
  }

  lemma StandInPowLaws()
    ensures MathFns(StandInPow, StandInExp).PowLaws()
  {
    var m := MathFns(StandInPow, StandInExp);
    assert m.PowWhole() by {
      forall r, n: nat | 0.0 <= r
        ensures StandInPow(r, n as real) == IntPow(r, n)
      {
        StandInPowWhole(r, n);
      }
    }
    assert m.PowNonNegative() by {
      forall r, d | 0.0 <= r && 0.0 <= d
        ensures 0.0 <= StandInPow(r, d)
      {
        if 0.0 < d {
          IntPowNonNegative(r, Ceiling(d));
        }
      }
    }
    assert m.PowAntitoneInExponent() by {
      forall r, d1, d2 | 0.0 <= r <= 1.0 && 0.0 <= d1 <= d2
        ensures StandInPow(r, d2) <= StandInPow(r, d1)
      {
        StandInPowAntitone(r, d1, d2);
      }
    }
    assert m.PowMonotoneInBase() by {
      forall a, b, p | 0.0 <= a <= b && 0.0 < p
        ensures StandInPow(a, p) <= StandInPow(b, p)
      {
        IntPowMonotoneInBase(a, b, Ceiling(p));
      }
    }
    assert m.PowOfOne() by {
      forall p | 0.0 < p
        ensures StandInPow(1.0, p) == 1.0
      {
        IntPowOfOne(Ceiling(p));
      }
    }
  }

  lemma StandInExpPositive(x: real)
    ensures 0.0 < StandInExp(x)
  {
    if x < 0.0 {
      assert StandInExp(x) * (1.0 - x) == 1.0;
    }
  }

  lemma StandInExpAlwaysPositive()
    ensures MathFns(StandInPow, StandInExp).ExpPositive()
  {
    forall x
      ensures 0.0 < StandInExp(x)
    {
      StandInExpPositive(x);
    }
  }

  lemma StandInExpAlwaysIncreasing()
    ensures MathFns(StandInPow, StandInExp).ExpIncreasing()
  {
    forall x, y | x < y
      ensures StandInExp(x) < StandInExp(y)
    {
      StandInExpIncreasing(x, y);
    }
  }

  lemma StandInExpAlwaysReflects()
    ensures MathFns(StandInPow, StandInExp).ExpReflects()
  {
    forall x, y | x + y == 0.0
      ensures StandInExp(x) * StandInExp(y) == 1.0
    {
      StandInExpReflect(x, y);
    }
  }

  /** The laws are jointly satisfiable. */
  lemma LawsAreSatisfiable()
    ensures exists m: MathFns :: m.Lawful()
  {
    StandInPowLaws();
    StandInExpAlwaysPositive();
    StandInExpAlwaysIncreasing();
    StandInExpAlwaysReflects();
    assert MathFns(StandInPow, StandInExp).Lawful();
  }
}
