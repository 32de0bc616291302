/** The rate solver `solve_r2_for_equal_interest` (calculadora.py:238-285): the phase-2
    rate that makes the mixed mortgage's total interest equal the fixed loan's, found by
    widening an upper bound and then bisecting. */
module RateSolver {
  import opened Wrappers
  import opened Annuity
  import opened Amortization
  import opened MixedMortgage

  /** The bisection stops early once |f(mid)| falls below 1e-8. */
  const Tolerance: real := 0.00000001
  /** The first upper bound, 2/12 per month (about 200% a year). */
  const InitialHi: real := 2.0 / 12.0
  const MaxExpansions: nat := 20
  const MaxBisections: nat := 80

  /** What the solver returns: the rate (None when not found), the target, and the mixed
      mortgage's total and per-phase interest at the rate returned. */
  datatype SolverResult = SolverResult(rate: Option<real>, target: real, total: real, interestP1: real, interestP2: real)

  /** The solver's objective f(r2): mixed total interest minus the fixed loan's. */
  function Gap(P: real, n: int, rFixed: real, r1: real, m1: int, r2: real): real
    requires rFixed >= 0.0 && r1 >= 0.0 && r2 >= 0.0
  {
    MixedTotal(P, n, r1, m1, r2).total - FixedInterest(P, rFixed, n)
  }

  /** The upper bound after k widenings by 1.5; it never drops below the first bound. */
  function ExpandedHi(k: nat): (h: real)
    ensures h >= InitialHi
  {
    PowAtLeastOne(1.5, k);
    InitialHi * Pow(1.5, k)
  }

  /** Widening more often never gives a smaller bound. */
  lemma ExpandedHiMonotone(a: nat, b: nat)
    requires a <= b
    ensures ExpandedHi(a) <= ExpandedHi(b)
  {
    PowMonotone(1.5, a, b);
  }

  /** f takes the same strict sign at both points: the source's `f_lo * f_hi > 0`. */
  predicate SameSign(a: real, b: real) {
    a * b > 0.0
  }

  /** The bracket is at most 2^-80 times the widest bound the widening can reach. */
  predicate Narrow(lo: real, hi: real) {
    (hi - lo) * Pow(2.0, MaxBisections) <= ExpandedHi(MaxExpansions)
  }

  function Abs(x: real): real {
    if x < 0.0 then -x else x
  }

  /** If a keeps the sign of b but not of c, then b and c do not share a sign. */
  lemma SignTransfer(a: real, b: real, c: real)
    requires SameSign(a, b) && !SameSign(a, c)
    ensures !SameSign(b, c)
  {
    if a > 0.0 {
      assert b > 0.0;
      assert c <= 0.0;
    } else {
      assert a < 0.0;
      assert b < 0.0;
      assert c >= 0.0;
    }
  }

  /** Halving the bracket doubles the scale it is measured against. */
  lemma HalveWidth(lo: real, hi: real, scale: real, w0: real)
    requires (hi - lo) * scale == w0
    ensures (hi - (lo + hi) / 2.0) * (2.0 * scale) == w0
    ensures ((lo + hi) / 2.0 - lo) * (2.0 * scale) == w0
  {
    assert hi - (lo + hi) / 2.0 == (hi - lo) / 2.0;
    assert (lo + hi) / 2.0 - lo == (hi - lo) / 2.0;
  }

  /** The widening loop of calculadora.py:262-266 over the objective f: hi grows by 1.5
      while f(lo) * f(hi) > 0, at most 20 times.  On exit either the bracket changes sign
      or all 21 bounds tried kept the sign of f(lo). */
  method ExpandBracket(f: real --> real, fLo: real) returns (hi: real, fHi: real, attempts: nat)
    requires forall x :: x >= 0.0 ==> f.requires(x)
    ensures attempts <= MaxExpansions && hi == ExpandedHi(attempts)
    ensures fHi == f(hi)
    ensures forall k :: 0 <= k < attempts ==> SameSign(fLo, f(ExpandedHi(k)))
    ensures SameSign(fLo, fHi) ==> attempts == MaxExpansions
  {
    hi := InitialHi;
    fHi := f(hi);
    assert hi == ExpandedHi(0);
    attempts := 0;
    while fLo * fHi > 0.0 && attempts < MaxExpansions
      invariant attempts <= MaxExpansions
      invariant hi == ExpandedHi(attempts)
      invariant fHi == f(hi)
      invariant forall k :: 0 <= k < attempts ==> SameSign(fLo, f(ExpandedHi(k)))
      decreases MaxExpansions - attempts
    {
      hi := hi * 1.5;
      assert hi == ExpandedHi(attempts + 1);
      fHi := f(hi);
      attempts := attempts + 1;
    }
  }

  /** The bisection loop of calculadora.py:270-282 over the objective f: at most 80
      halvings of a bracket on which f changes sign, stopping early, with both bounds at
      mid, once |f(mid)| < 1e-8. */
  method Bisect(f: real --> real, lo0: real, hi0: real, fLo0: real, fHi0: real)
    returns (lo: real, hi: real, ghost converged: bool)
    requires forall x :: x >= 0.0 ==> f.requires(x)
    requires 0.0 <= lo0 <= hi0 && fLo0 == f(lo0) && fHi0 == f(hi0) && !SameSign(fLo0, fHi0)
    ensures lo0 <= lo <= hi <= hi0
    ensures converged ==> lo == hi && Abs(f(lo)) < Tolerance
    ensures !converged ==> !SameSign(f(lo), f(hi)) && (hi - lo) * Pow(2.0, MaxBisections) == hi0 - lo0
  {
    lo, hi := lo0, hi0;
    var fLo, fHi := fLo0, fHi0;
    converged := false;
    ghost var scale := 1.0;
    for i := 0 to MaxBisections
      invariant lo0 <= lo <= hi <= hi0
      invariant fLo == f(lo) && fHi == f(hi) && !SameSign(fLo, fHi)
      invariant scale == Pow(2.0, i) && (hi - lo) * scale == hi0 - lo0
      invariant !converged
    {
      var mid := (lo + hi) / 2.0;
      var fMid := f(mid);
      if Abs(fMid) < Tolerance {
        lo, hi := mid, mid;
        converged := true;
        break;
      }
      HalveWidth(lo, hi, scale, hi0 - lo0);
      scale := 2.0 * scale;
      if fLo * fMid <= 0.0 {
        hi, fHi := mid, fMid;
      } else {
        SignTransfer(fLo, fMid, fHi);
        lo, fLo := mid, fMid;
      }
    }
  }

  /** calculadora.py:238-285.  The rate is None exactly when phase 1 covers the term or
      f(0) * f(hi) stays positive through all 21 bounds tried; then the mixed figures are
      those at rate 0.  Otherwise the rate is non-negative, the figures are the mixed
      mortgage's at that rate, and it is the midpoint of a final bracket [lo, hi] that either
      collapsed onto a point where |f| < 1e-8, or is proper, still has
      f(lo) * f(hi) <= 0 and is at most 2^-80 times the widest bound wide. */
  method SolveR2ForEqualInterest(P: real, n: int, rFixed: real, r1: real, m1: int)
    returns (res: SolverResult, ghost lo': real, ghost hi': real)
    requires P > 0.0 && n > 0 && rFixed >= 0.0 && r1 >= 0.0
    ensures res.target == FixedInterest(P, rFixed, n)
    ensures res.rate.None? <==>
      (m1 >= n || forall k :: 0 <= k <= MaxExpansions ==>
         SameSign(Gap(P, n, rFixed, r1, m1, 0.0), Gap(P, n, rFixed, r1, m1, ExpandedHi(k))))
    ensures res.rate.None? ==>
      var mixed := MixedTotal(P, n, r1, m1, 0.0);
      res.total == mixed.total && res.interestP1 == mixed.interestP1 && res.interestP2 == mixed.interestP2
    ensures res.rate.Some? ==> 0.0 <= lo' <= res.rate.value <= hi' && res.rate.value == (lo' + hi') / 2.0
    ensures res.rate.Some? ==>
      var mixed := MixedTotal(P, n, r1, m1, res.rate.value);
      res.total == mixed.total && res.interestP1 == mixed.interestP1 && res.interestP2 == mixed.interestP2
    ensures res.rate.Some? && lo' == hi' ==> Abs(Gap(P, n, rFixed, r1, m1, res.rate.value)) < Tolerance
    ensures res.rate.Some? && lo' < hi' ==>
      !SameSign(Gap(P, n, rFixed, r1, m1, lo'), Gap(P, n, rFixed, r1, m1, hi'))
    ensures res.rate.Some? && lo' < hi' ==> Narrow(lo', hi')
  {
    var fixedRows := AmortizationSchedule(P, rFixed, n);
    var target := SumInterest(fixedRows);
    lo', hi' := 0.0, 0.0;

    if m1 >= n {
      var mixed := MixedTotalInterest(P, n, r1, m1, 0.0);
      return SolverResult(None, target, mixed.total, mixed.interestP1, mixed.interestP2), lo', hi';
    }

    var f := (r2: real) requires r2 >= 0.0 => MixedTotal(P, n, r1, m1, r2).total - target;
    assert forall x :: x >= 0.0 ==> f(x) == Gap(P, n, rFixed, r1, m1, x);
    var lo := 0.0;
    var fLo := f(lo);
    var hi, fHi, attempts := ExpandBracket(f, fLo);

    var mixed := MixedTotalInterest(P, n, r1, m1, lo);
    if fLo * fHi > 0.0 {
      return SolverResult(None, target, mixed.total, mixed.interestP1, mixed.interestP2), lo', hi';
    }

    ghost var w0 := hi - lo;
    assert InitialHi <= w0 <= ExpandedHi(MaxExpansions) by { ExpandedHiMonotone(attempts, MaxExpansions); }
    ghost var converged;
    lo, hi, converged := Bisect(f, lo, hi, fLo, fHi);
    var rate := (lo + hi) / 2.0;
    mixed := MixedTotalInterest(P, n, r1, m1, rate);
    lo', hi' := lo, hi;
    res := SolverResult(Some(rate), target, mixed.total, mixed.interestP1, mixed.interestP2);
    if converged {
      assert rate == lo && lo' == hi';
    } else {
      assert (hi - lo) * Pow(2.0, MaxBisections) == w0;
      assert Narrow(lo', hi');
    }
  }

  /** With the same rate in phase 1 as the fixed loan, that rate is a root of the solver's
      objective, whatever the switch month. */
  lemma FixedRateIsRoot(P: real, n: int, r: real, m1: int)
    requires P > 0.0 && n > 0 && r >= 0.0 && 0 <= m1 <= n
    ensures Gap(P, n, r, r, m1, r) == 0.0
  {
    EqualRatesIsFixed(P, n, r, m1);
  }

  /** When both the fixed rate and the phase-1 rate are 0, f(0) == 0, so the first bracket
      already has f(lo) * f(hi) <= 0 and a rate is always returned. */
  lemma ZeroRatesSolvable(P: real, n: int, m1: int)
    requires P > 0.0 && n > 0 && 0 <= m1 < n
    ensures !SameSign(Gap(P, n, 0.0, 0.0, m1, 0.0), Gap(P, n, 0.0, 0.0, m1, ExpandedHi(0)))
  {
    FixedRateIsRoot(P, n, 0.0, m1);
  }
}
