/** The mixed mortgage `mixed_total_interest` (calculadora.py:194-236): phase 1 pays, for
    m1 months, the instalment computed at rate r1 over the whole term n; phase 2 recomputes
    a level instalment at rate r2 on the balance left, over the remaining n - m1 months.
    Also the instalments the comparator displays for both phases (calculadora.py:462-480). */
module MixedMortgage {
  import opened Wrappers
  import opened Annuity
  import opened Amortization
  import opened ExactAmortization

  /** The 4-tuple (intereses_totales, intereses_periodo1, intereses_periodo2, saldo_tras_p1). */
  datatype MixedResult = MixedResult(total: real, interestP1: real, interestP2: real, balanceP1: real)

  /** Balance owed after the m1 months of phase 1. */
  function Phase1Balance(P: real, n: int, r1: real, m1: nat): real
    requires r1 >= 0.0 && n > 0
  {
    BalanceAfter(P, r1, LevelPayment(P, r1, n), m1)
  }

  /** The level instalment of phase 2, over the n - m1 remaining months. */
  function Phase2Payment(P: real, n: int, r1: real, m1: nat, r2: real): real
    requires r1 >= 0.0 && r2 >= 0.0 && m1 < n
  {
    LevelPayment(Phase1Balance(P, n, r1, m1), r2, n - m1)
  }

  /** What `mixed_total_interest(P, n, r1, m1, r2)` returns.  Invalid arguments give
      (0, 0, 0, P); a phase 1 covering the whole term gives (ip1, ip1, 0, 0); otherwise
      the fourth component is the balance after phase 1, and the total is always the sum
      of the two phases' interest. */
  function MixedTotal(P: real, n: int, r1: real, m1: int, r2: real): (res: MixedResult)
    requires r1 >= 0.0 && r2 >= 0.0
    ensures P <= 0.0 || n <= 0 || m1 < 0 || m1 > n ==> res == MixedResult(0.0, 0.0, 0.0, P)
    ensures res.total == res.interestP1 + res.interestP2
    ensures P > 0.0 && n > 0 && m1 == n ==> res.interestP2 == 0.0 && res.balanceP1 == 0.0
  {
    if P <= 0.0 || n <= 0 || m1 < 0 || m1 > n then
      MixedResult(0.0, 0.0, 0.0, P)
    else
      var ip1 := InterestAccrued(P, r1, LevelPayment(P, r1, n), m1);
      if n - m1 <= 0 then
        MixedResult(ip1, ip1, 0.0, 0.0)
      else
        var b1 := Phase1Balance(P, n, r1, m1);
        var ip2 := InterestAccrued(b1, r2, Phase2Payment(P, n, r1, m1, r2), n - m1);
        MixedResult(ip1 + ip2, ip1, ip2, b1)
  }

  /** calculadora.py:194-236, the two phase loops with the source's branches. */
  method MixedTotalInterest(P: real, n: int, r1: real, m1: int, r2: real) returns (res: MixedResult)
    requires r1 >= 0.0 && r2 >= 0.0
    ensures res == MixedTotal(P, n, r1, m1, r2)
  {
    if P <= 0.0 || n <= 0 || m1 < 0 || m1 > n {
      return MixedResult(0.0, 0.0, 0.0, P);
    }
    var payment1 := LevelPayment(P, r1, n);
    var balance := P;
    var interestP1 := 0.0;
    for i := 0 to m1
      invariant balance == BalanceAfter(P, r1, payment1, i)
      invariant interestP1 == InterestAccrued(P, r1, payment1, i)
    {
      var interest := if r1 != 0.0 then balance * r1 else 0.0;
      var principalPay := if r1 != 0.0 then payment1 - interest else payment1;
      SourceBranches(balance, r1, payment1);
      balance := balance - principalPay;
      interestP1 := interestP1 + interest;
    }
    var n2 := n - m1;
    if n2 <= 0 {
      return MixedResult(interestP1, interestP1, 0.0, 0.0);
    }
    var payment2 := LevelPayment(balance, r2, n2);
    var interestP2 := 0.0;
    var bal := balance;
    for i := 0 to n2
      invariant bal == BalanceAfter(balance, r2, payment2, i)
      invariant interestP2 == InterestAccrued(balance, r2, payment2, i)
    {
      var interest := if r2 != 0.0 then bal * r2 else 0.0;
      var principalPay := if r2 != 0.0 then payment2 - interest else payment2;
      SourceBranches(bal, r2, payment2);
      bal := bal - principalPay;
      interestP2 := interestP2 + interest;
    }
    return MixedResult(interestP1 + interestP2, interestP1, interestP2, balance);
  }

  // ---------------------------------------------------------------------------
  // Properties of the mixed mortgage
  // ---------------------------------------------------------------------------

  /** Phase 1 is the start of the fixed schedule at r1: its interest is the sum of that
      schedule's first m1 Intereses values, and the fourth result is the loan less the
      principal those m1 rows repaid, a positive balance while months remain. */
  lemma Phase1IsSchedulePrefix(P: real, n: int, r1: real, m1: int, r2: real)
    requires r1 >= 0.0 && r2 >= 0.0 && P > 0.0 && n > 0 && 0 <= m1 <= n
    ensures |Schedule(P, r1, n)| == n
    ensures MixedTotal(P, n, r1, m1, r2).interestP1 == SumInterest(Schedule(P, r1, n)[..m1])
    ensures m1 < n ==> MixedTotal(P, n, r1, m1, r2).balanceP1 == P - SumPrincipal(Schedule(P, r1, n)[..m1])
    ensures m1 < n ==> MixedTotal(P, n, r1, m1, r2).balanceP1 > 0.0
  {
    SchedulePrefixIsTake(P, r1, n, m1);
    PrefixInterest(P, r1, n, m1);
    if m1 < n {
      PrefixPrincipal(P, r1, n, m1);
      LevelPaymentClears(P, r1, n, m1);
    }
  }

  /** A phase 1 covering the whole term is the fixed loan at r1, whatever r2 is. */
  lemma WholeTermIsFixed(P: real, n: int, r1: real, r2: real)
    requires r1 >= 0.0 && r2 >= 0.0 && P > 0.0 && n > 0
    ensures MixedTotal(P, n, r1, n, r2).total == FixedInterest(P, r1, n)
  {
    PrefixInterest(P, r1, n, n);
  }

  /** Over exact arithmetic the uncorrected phase-2 loop ends owing exactly nothing, and
      owes a positive amount before its last month. */
  lemma Phase2Clears(P: real, n: int, r1: real, m1: int, r2: real, k: nat)
    requires r1 >= 0.0 && r2 >= 0.0 && P > 0.0 && 0 <= m1 < n && k <= n - m1
    ensures k == n - m1 ==> BalanceAfter(Phase1Balance(P, n, r1, m1), r2, Phase2Payment(P, n, r1, m1, r2), k) == 0.0
    ensures k < n - m1 ==> BalanceAfter(Phase1Balance(P, n, r1, m1), r2, Phase2Payment(P, n, r1, m1, r2), k) > 0.0
  {
    LevelPaymentClears(P, r1, n, m1);
    LevelPaymentClears(Phase1Balance(P, n, r1, m1), r2, n - m1, k);
  }

  /** Plain algebra behind SameRatePayment: with Q = Qm * Q2, the annuity equation for
      term n and the closed-form balance after m months, the level instalment for the
      remaining term equals the original one. */
  lemma SameRateAlgebra(P: real, r: real, pay1: real, b1: real, pay2: real, Q: real, Qm: real, Q2: real)
    requires Q == Qm * Q2 && Q > 1.0 && Q2 > 1.0
    requires AnnuityHolds(pay1, P, r, Q)
    requires ClosedForm(b1, P, Q, Qm)
    requires AnnuityHolds(pay2, b1, r, Q2)
    ensures pay2 == pay1
  {
    var X := b1 * r * Q2;
    calc {
      X * (Q - 1.0);
      r * Q2 * (b1 * (Q - 1.0));
      r * Q2 * (P * (Q - Qm));
      P * r * (Q2 * (Q - Qm));
      { assert Q2 * (Q - Qm) == Q * (Q2 - 1.0); }
      P * r * Q * (Q2 - 1.0);
      pay1 * (Q - 1.0) * (Q2 - 1.0);
    }
    assert (pay2 * (Q2 - 1.0)) * (Q - 1.0) == (pay1 * (Q2 - 1.0)) * (Q - 1.0);
    CancelPositive(pay2 * (Q2 - 1.0), pay1 * (Q2 - 1.0), Q - 1.0);
    CancelPositive(pay2, pay1, Q2 - 1.0);
  }

  lemma CancelPositive(a: real, b: real, d: real)
    requires d > 0.0 && a * d == b * d
    ensures a == b
  {
    assert (a - b) * d == 0.0;
  }

  /** Recomputing the level instalment after m1 months at the unchanged rate, over the
      remaining term, gives back the original instalment. */
  lemma SameRatePayment(P: real, r: real, n: int, m1: nat)
    requires r >= 0.0 && m1 < n
    ensures Phase2Payment(P, n, r, m1, r) == LevelPayment(P, r, n)
  {
    if r == 0.0 {
      var pay1 := LevelPayment(P, r, n);
      var b1 := Phase1Balance(P, n, r, m1);
      var pay2 := Phase2Payment(P, n, r, m1, r);
      LevelPaymentEquation(P, r, n);
      LevelPaymentEquation(b1, r, n - m1);
      BalanceZeroRate(P, pay1, m1);
      ZeroRateAlgebra(P, pay1, b1, pay2, n, m1);
    } else {
      SameRatePaymentPositive(P, r, n, m1);
    }
  }

  /** Plain algebra behind SameRatePayment at rate 0: n instalments pay1 repay P, and the
      n - m1 instalments pay2 repay what m1 instalments pay1 left. */
  lemma ZeroRateAlgebra(P: real, pay1: real, b1: real, pay2: real, n: int, m1: nat)
    requires m1 < n
    requires pay1 * (n as real) == P && b1 == P - (m1 as real) * pay1
    requires pay2 * ((n - m1) as real) == b1
    ensures pay2 == pay1
  {
    assert b1 == pay1 * ((n - m1) as real);
    CancelPositive(pay2, pay1, (n - m1) as real);
  }

  lemma SameRatePaymentPositive(P: real, r: real, n: int, m1: nat)
    requires r > 0.0 && m1 < n
    ensures Phase2Payment(P, n, r, m1, r) == LevelPayment(P, r, n)
  {
    var pay1 := LevelPayment(P, r, n);
    var b1 := Phase1Balance(P, n, r, m1);
    var pay2 := LevelPayment(b1, r, n - m1);
    var Q, Qm, Q2 := Pow(1.0 + r, n), Pow(1.0 + r, m1), Pow(1.0 + r, n - m1);
    AnnuityFact(P, r, n, pay1, Q);
    AnnuityFact(b1, r, n - m1, pay2, Q2);
    ClosedFormFact(P, r, pay1, n, m1, b1, Q, Qm);
    PowSplitFact(r, n, m1, Q, Qm, Q2);
    SameRateAlgebra(P, r, pay1, b1, pay2, Q, Qm, Q2);
  }

  /** The annuity equation at a positive rate, over plain values. */
  lemma AnnuityFact(P: real, r: real, n: int, pay: real, Q: real)
    requires r > 0.0 && n > 0 && pay == LevelPayment(P, r, n) && Q == Pow(1.0 + r, n)
    ensures AnnuityHolds(pay, P, r, Q)
  {
    LevelPaymentEquation(P, r, n);
  }

  /** The closed-form balance, over plain values. */
  lemma ClosedFormFact(P: real, r: real, pay: real, n: nat, k: nat, b: real, Q: real, qk: real)
    requires AnnuityHolds(pay, P, r, Q) && Q == Pow(1.0 + r, n)
    requires b == BalanceAfter(P, r, pay, k) && qk == Pow(1.0 + r, k)
    ensures ClosedForm(b, P, Q, qk)
  {
    BalanceClosedForm(P, r, pay, n, k);
  }

  /** q^n == q^m * q^(n-m), with both powers above 1, over plain values. */
  lemma PowSplitFact(r: real, n: int, m: nat, Q: real, Qm: real, Q2: real)
    requires r > 0.0 && m < n
    requires Q == Pow(1.0 + r, n) && Qm == Pow(1.0 + r, m) && Q2 == Pow(1.0 + r, n - m)
    ensures Q == Qm * Q2 && Q > 1.0 && Q2 > 1.0
  {
    PowAdd(1.0 + r, m, n - m);
    PowAtLeastOne(1.0 + r, n);
    PowAtLeastOne(1.0 + r, n - m);
  }

  /** With the same rate in both phases the mixed loan is the fixed loan: its total
      interest equals that of `amortization_schedule(P, r, n)`, for every switch month. */
  lemma EqualRatesIsFixed(P: real, n: int, r: real, m1: int)
    requires r >= 0.0 && P > 0.0 && n > 0 && 0 <= m1 <= n
    ensures MixedTotal(P, n, r, m1, r).total == FixedInterest(P, r, n)
  {
    var pay := LevelPayment(P, r, n);
    PrefixInterest(P, r, n, n);
    if m1 < n {
      SameRatePayment(P, r, n, m1);
      InterestShift(P, r, pay, m1, n - m1);
    }
  }

  /** The comparator's instalments cuota_p1 and cuota_p2. */
  datatype Instalments = Instalments(phase1: real, phase2: real)

  /** The instalments the comparator computes (calculadora.py:462-480): the phase-1
      instalment at r1 over the whole term, and, when a phase 2 exists, the level
      instalment on the phase-1 balance at the solved rate, computed at rate 0 when no
      rate was found (what the page then shows is Phase2Shown).  For a positive loan the
      phase-1 instalment is positive, and when the solved rate is r1 again the two phases
      get the same instalment. */
  function ComparatorPayments(P: real, n: int, r1: real, m1: int, r2: Option<real>): (c: Instalments)
    requires r1 >= 0.0 && n > 0 && r2.GetOr(0.0) >= 0.0
    ensures c.phase1 == LevelPayment(P, r1, n)
    ensures m1 >= n ==> c.phase2 == 0.0
    ensures P > 0.0 ==> c.phase1 > 0.0
    ensures P > 0.0 && 0 <= m1 < n && r2 == Some(r1) ==> c.phase2 == c.phase1
  {
    var n2 := if n - m1 > 0 then n - m1 else 0;
    var rate := r2.GetOr(0.0);
    var cuota2 := if n2 > 0 then LevelPayment(MixedTotal(P, n, r1, m1, rate).balanceP1, rate, n2) else 0.0;
    var c := Instalments(LevelPayment(P, r1, n), cuota2);
    if P <= 0.0 then c
    else
      LevelPaymentCoversInterest(P, r1, n);
      if 0 <= m1 < n && r2 == Some(r1) then
        SameRatePayment(P, r1, n, m1);
        c
      else
        c
  }

  /** With a phase 2, the computed phase-2 instalment is the recomputed level instalment of
      the mixed loan at the solved rate, or at rate 0 when no rate was found. */
  lemma ComparatorPhase2(P: real, n: int, r1: real, m1: int, r2: Option<real>)
    requires r1 >= 0.0 && r2.GetOr(0.0) >= 0.0 && P > 0.0 && 0 <= m1 < n
    ensures ComparatorPayments(P, n, r1, m1, r2).phase2 == Phase2Payment(P, n, r1, m1, r2.GetOr(0.0))
  {
  }

  /** The two places the comparator shows the phase-2 instalment: the "Cuota mensual
      periodo 2" card and the summary table row; None is the "—" shown instead. */
  datatype Phase2Display = Phase2Display(card: Option<real>, table: Option<real>)

  /** What the page shows for the phase-2 instalment (calculadora.py:529-540 and 581-592):
      the card only when a phase 2 exists and a rate was found, the table row whenever a
      rate was found.  A shown instalment is the level instalment at the solved rate,
      never the rate-0 stand-in, and with no phase 2 the table shows 0. */
  function Phase2Shown(P: real, n: int, r1: real, m1: int, r2: Option<real>): (d: Phase2Display)
    requires r1 >= 0.0 && n > 0 && r2.GetOr(0.0) >= 0.0
    ensures d.card.Some? <==> m1 < n && r2.Some?
    ensures d.table.Some? <==> r2.Some?
    ensures d.card.Some? ==> d.table == d.card
    ensures P > 0.0 && 0 <= m1 < n && r2.Some? ==> d.card == Some(Phase2Payment(P, n, r1, m1, r2.value))
    ensures m1 >= n && r2.Some? ==> d.table == Some(0.0)
  {
    var c := ComparatorPayments(P, n, r1, m1, r2);
    var card := if n - m1 > 0 && r2.Some? then Some(c.phase2) else None;
    Phase2Display(card, if r2.Some? then Some(c.phase2) else None)
  }
}
