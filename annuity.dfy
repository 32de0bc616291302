/** The level-payment (annuity) formula shared by the amortization engine, both phases
    of the mixed mortgage and the comparator's payment display, together with the
    natural power it is written with.  The source's `(1 + r) ** (-n)` is `1 / Pow(1 + r, n)`. */
module Annuity {

  /** x raised to the natural power k. */
  function Pow(x: real, k: nat): real {
    if k == 0 then 1.0 else x * Pow(x, k - 1)
  }

  /** Powers of a base of at least 1 are at least 1, and above 1 for a base above 1. */
  lemma {:induction false} PowAtLeastOne(x: real, k: nat)
    requires x >= 1.0
    ensures Pow(x, k) >= 1.0
    ensures x > 1.0 && k > 0 ==> Pow(x, k) > 1.0
  {
    if k > 0 {
      PowAtLeastOne(x, k - 1);
      var p := Pow(x, k - 1);
      assert x * p - p == (x - 1.0) * p;
      assert (x - 1.0) * p >= 0.0 by { MulNonNegative(x - 1.0, p); }
    }
  }

  /** Powers of a positive base are positive. */
  lemma {:induction false} PowPositive(x: real, k: nat)
    requires x > 0.0
    ensures Pow(x, k) > 0.0
  {
    if k > 0 {
      PowPositive(x, k - 1);
      MulPositive(x, Pow(x, k - 1));
    }
  }

  lemma PowUnfold(x: real, k: nat)
    requires k > 0
    ensures Pow(x, k) == x * Pow(x, k - 1)
  {
  }

  /** 1 + q + ... + q^(k-1), written by Horner's rule. */
  function Geometric(q: real, k: nat): real {
    if k == 0 then 0.0 else q * Geometric(q, k - 1) + 1.0
  }

  lemma GeometricUnfold(q: real, k: nat)
    requires k > 0
    ensures Geometric(q, k) == q * Geometric(q, k - 1) + 1.0
  {
  }

  /** The geometric sum: (1 + q + ... + q^(k-1)) * r == q^k - 1 with q = 1 + r. */
  lemma {:induction false} GeometricSum(r: real, k: nat)
    ensures Geometric(1.0 + r, k) * r == Pow(1.0 + r, k) - 1.0
  {
    if k > 0 {
      GeometricSum(r, k - 1);
      var g := Geometric(1.0 + r, k - 1);
      assert (g * (1.0 + r) + 1.0) * r == (1.0 + r) * (g * r) + r;
    }
  }

  /** Powers add their exponents. */
  lemma {:induction false} PowAdd(x: real, a: nat, b: nat)
    ensures Pow(x, a + b) == Pow(x, a) * Pow(x, b)
  {
    if a > 0 {
      PowAdd(x, a - 1, b);
      assert Pow(x, a + b) == x * Pow(x, (a - 1) + b);
      MulAssociates(x, Pow(x, a - 1), Pow(x, b));
    }
  }

  lemma MulAssociates(x: real, y: real, z: real)
    ensures x * (y * z) == (x * y) * z
  {
  }

  /** A base above 1 gives strictly increasing powers. */
  lemma {:induction false} PowStrictlyIncreasing(x: real, a: nat, b: nat)
    requires x > 1.0 && a < b
    ensures Pow(x, a) < Pow(x, b)
  {
    if a < b - 1 {
      PowStrictlyIncreasing(x, a, b - 1);
    }
    var p := Pow(x, b - 1);
    PowAtLeastOne(x, b - 1);
    assert Pow(x, b) == x * p;
    MulPositive(x - 1.0, p);
    assert x * p - p == (x - 1.0) * p;
  }

  lemma MulPositive(a: real, b: real)
    requires a > 0.0 && b > 0.0
    ensures a * b > 0.0
  {
  }

  lemma MulNonNegative(a: real, b: real)
    requires a >= 0.0 && b >= 0.0
    ensures a * b >= 0.0
  {
  }

  /** A base of at least 1 gives non-decreasing powers. */
  lemma PowMonotone(x: real, a: nat, b: nat)
    requires x >= 1.0 && a <= b
    ensures Pow(x, a) <= Pow(x, b)
  {
    if x == 1.0 {
      PowOfOne(a);
      PowOfOne(b);
    } else if a < b {
      PowStrictlyIncreasing(x, a, b);
    }
  }

  lemma {:induction false} PowOfOne(k: nat)
    ensures Pow(1.0, k) == 1.0
  {
    if k > 0 {
      PowOfOne(k - 1);
    }
  }

  /** The monthly instalment that repays principal P over n months at monthly rate r
      (calculadora.py:164-167, repeated at 205-208, 223-226 and 466-469, 475-478). */
  function LevelPayment(P: real, r: real, n: int): real
    requires r >= 0.0 && n > 0
  {
    if r == 0.0 then
      P / n as real
    else
      PowAtLeastOne(1.0 + r, n);
      P * r / (1.0 - 1.0 / Pow(1.0 + r, n))
  }

  /** The annuity equation the level payment solves: at rate 0 the n instalments add up to
      P; at a positive rate pay * (q^n - 1) == P * r * q^n with q = 1 + r, i.e. the
      instalments discounted at r are worth exactly P. */
  lemma LevelPaymentEquation(P: real, r: real, n: int)
    requires r >= 0.0 && n > 0
    ensures r == 0.0 ==> LevelPayment(P, r, n) * (n as real) == P
    ensures r > 0.0 ==>
      LevelPayment(P, r, n) * (Pow(1.0 + r, n) - 1.0) == P * r * Pow(1.0 + r, n)
  {
    if r > 0.0 {
      var q := Pow(1.0 + r, n);
      PowAtLeastOne(1.0 + r, n);
      var d := 1.0 - 1.0 / q;
      assert d * q == q - 1.0;
      var pay := LevelPayment(P, r, n);
      assert pay == P * r / d;
      assert pay * d == P * r;
      assert pay * (q - 1.0) == (pay * d) * q;
    }
  }

  /** For a positive loan the instalment is positive and exceeds the first month's
      interest P * r, so the first month repays some principal; that every later month
      does too is ExactAmortization.LevelBalanceDecreases and ScheduleRepaysEveryMonth. */
  lemma LevelPaymentCoversInterest(P: real, r: real, n: int)
    requires r >= 0.0 && n > 0 && P > 0.0
    ensures LevelPayment(P, r, n) > P * r
    ensures LevelPayment(P, r, n) > 0.0
  {
    var pay := LevelPayment(P, r, n);
    if r > 0.0 {
      var q := Pow(1.0 + r, n);
      PowAtLeastOne(1.0 + r, n);
      var d := 1.0 - 1.0 / q;
      assert 0.0 < d < 1.0;
      assert pay * d == P * r;
      MulPositive(P, r);
      assert pay > 0.0;
      assert pay - pay * d == pay * (1.0 - d);
      MulPositive(pay, 1.0 - d);
    }
  }
}
