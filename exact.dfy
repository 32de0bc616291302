/** What the amortization loop computes over exact arithmetic: the level payment leaves
    exactly nothing owed after n months, so the source's last-month correction
    (calculadora.py:174-177) is a no-op on real numbers and only absorbs floating-point
    drift; the same closed form shows that the uncorrected phase-2 loop of the mixed
    mortgage also ends at exactly 0. */
module ExactAmortization {
  import opened Annuity
  import opened Amortization

  /** One month of the loop at a positive rate: B_k = B_(k-1) * (1 + r) - pay. */
  lemma BalanceRecurrence(P: real, r: real, pay: real, k: nat)
    requires k > 0
    ensures BalanceAfter(P, r, pay, k) == BalanceAfter(P, r, pay, k - 1) * (1.0 + r) - pay
  {
  }

  /** The expanded form of a balance: b == P * p - pay * g for the growth p of the principal
      and the growth g of the instalments. */
  predicate Expanded(b: real, P: real, pay: real, p: real, g: real) {
    b == P * p - pay * g
  }

  /** One month of the expanded form, as plain algebra. */
  lemma ExpandStep(P: real, r: real, pay: real, b: real, b': real, p: real, p': real, g: real, g': real)
    requires Expanded(b, P, pay, p, g) && b' == b * (1.0 + r) - pay
    requires p' == (1.0 + r) * p && g' == (1.0 + r) * g + 1.0
    ensures Expanded(b', P, pay, p', g')
  {
    assert b * (1.0 + r) == (P * p - pay * g) * (1.0 + r);
  }

  lemma ExpandMonth(P: real, r: real, pay: real, k: nat, b: real, b': real)
    requires k > 0
    requires Expanded(b, P, pay, Pow(1.0 + r, k - 1), Geometric(1.0 + r, k - 1))
    requires b' == b * (1.0 + r) - pay
    ensures Expanded(b', P, pay, Pow(1.0 + r, k), Geometric(1.0 + r, k))
  {
    PowUnfold(1.0 + r, k);
    GeometricUnfold(1.0 + r, k);
    ExpandStep(P, r, pay, b, b', Pow(1.0 + r, k - 1), Pow(1.0 + r, k),
      Geometric(1.0 + r, k - 1), Geometric(1.0 + r, k));
  }

  /** The balance is the principal grown by interest less the instalments grown by
      interest: B_k == P * q^k - pay * (1 + q + ... + q^(k-1)) with q = 1 + r. */
  lemma {:induction false} BalanceExpanded(P: real, r: real, pay: real, k: nat)
    ensures Expanded(BalanceAfter(P, r, pay, k), P, pay, Pow(1.0 + r, k), Geometric(1.0 + r, k))
  {
    if k > 0 {
      BalanceExpanded(P, r, pay, k - 1);
      BalanceRecurrence(P, r, pay, k);
      ExpandMonth(P, r, pay, k, BalanceAfter(P, r, pay, k - 1), BalanceAfter(P, r, pay, k));
    }
  }

  /** The annuity equation pay * (Q - 1) == P * r * Q, with Q = (1 + r)^n for the term n. */
  predicate AnnuityHolds(pay: real, P: real, r: real, Q: real) {
    pay * (Q - 1.0) == P * r * Q
  }

  /** The closed form of the balance, b * (q^n - 1) == P * (q^n - q^k), with Q = q^n and
      qk = q^k. */
  predicate ClosedForm(b: real, P: real, Q: real, qk: real) {
    b * (Q - 1.0) == P * (Q - qk)
  }

  /** The closed form from the expanded form and the annuity equation, as plain algebra. */
  lemma ClosedFormAlgebra(P: real, r: real, pay: real, Q: real, qk: real, gk: real, b: real)
    requires Expanded(b, P, pay, qk, gk)
    requires gk * r == qk - 1.0
    requires AnnuityHolds(pay, P, r, Q)
    ensures ClosedForm(b, P, Q, qk)
  {
    calc {
      b * (Q - 1.0);
      (P * qk - pay * gk) * (Q - 1.0);
      P * qk * (Q - 1.0) - gk * (pay * (Q - 1.0));
      P * qk * (Q - 1.0) - gk * (P * r * Q);
      P * qk * (Q - 1.0) - P * Q * (gk * r);
      P * qk * (Q - 1.0) - P * Q * (qk - 1.0);
      P * (Q - qk);
    }
  }

  /** Closed form of the balance under any instalment solving the annuity equation for
      term n: B_k * (q^n - 1) == P * (q^n - q^k). */
  lemma BalanceClosedForm(P: real, r: real, pay: real, n: nat, k: nat)
    requires AnnuityHolds(pay, P, r, Pow(1.0 + r, n))
    ensures ClosedForm(BalanceAfter(P, r, pay, k), P, Pow(1.0 + r, n), Pow(1.0 + r, k))
  {
    BalanceExpanded(P, r, pay, k);
    GeometricSum(r, k);
    var Q, qk, gk, b := Pow(1.0 + r, n), Pow(1.0 + r, k), Geometric(1.0 + r, k), BalanceAfter(P, r, pay, k);
    ClosedFormAlgebra(P, r, pay, Q, qk, gk, b);
  }

  /** Closed form at rate 0: B_k == P - k * pay. */
  lemma {:induction false} BalanceZeroRate(P: real, pay: real, k: nat)
    ensures BalanceAfter(P, 0.0, pay, k) == P - (k as real) * pay
  {
    if k > 0 {
      BalanceZeroRate(P, pay, k - 1);
    }
  }

  /** b * d == P * e with d > 0 makes b vanish with e and share P's sign. */
  lemma SignOfClosedForm(b: real, P: real, d: real, e: real)
    requires d > 0.0 && b * d == P * e
    ensures e == 0.0 ==> b == 0.0
    ensures P > 0.0 && e > 0.0 ==> b > 0.0
  {
    if P > 0.0 && e > 0.0 {
      MulPositive(P, e);
    }
  }

  /** At a positive rate, an instalment solving the annuity equation clears the balance in
      exactly n months and leaves a positive balance before. */
  lemma PositiveRateClears(P: real, r: real, pay: real, n: nat, k: nat)
    requires r > 0.0 && n > 0 && k <= n
    requires pay * (Pow(1.0 + r, n) - 1.0) == P * r * Pow(1.0 + r, n)
    ensures k == n ==> BalanceAfter(P, r, pay, k) == 0.0
    ensures P > 0.0 && k < n ==> BalanceAfter(P, r, pay, k) > 0.0
  {
    BalanceClosedForm(P, r, pay, n, k);
    PowAtLeastOne(1.0 + r, n);
    if k < n {
      PowStrictlyIncreasing(1.0 + r, k, n);
    }
    SignOfPowClosedForm(BalanceAfter(P, r, pay, k), P, Pow(1.0 + r, n), Pow(1.0 + r, k));
  }

  /** b * (Q - 1) == P * (Q - qk) with Q > 1 makes b vanish when qk == Q and share P's sign
      when qk < Q. */
  lemma SignOfPowClosedForm(b: real, P: real, Q: real, qk: real)
    requires Q > 1.0 && ClosedForm(b, P, Q, qk)
    ensures qk == Q ==> b == 0.0
    ensures P > 0.0 && qk < Q ==> b > 0.0
  {
    SignOfClosedForm(b, P, Q - 1.0, Q - qk);
  }

  /** At rate 0, n instalments of P / n clear the balance in exactly n months. */
  lemma ZeroRateClears(P: real, pay: real, n: nat, k: nat)
    requires n > 0 && k <= n && pay * (n as real) == P
    ensures k == n ==> BalanceAfter(P, 0.0, pay, k) == 0.0
    ensures P > 0.0 && k < n ==> BalanceAfter(P, 0.0, pay, k) > 0.0
  {
    BalanceZeroRate(P, pay, k);
    var b := BalanceAfter(P, 0.0, pay, k);
    assert b * (n as real) == P * ((n - k) as real);
    SignOfClosedForm(b, P, n as real, (n - k) as real);
  }

  /** Over exact arithmetic the level payment leaves nothing owed after n months, and a
      positive balance after every earlier month. */
  lemma LevelPaymentClears(P: real, r: real, n: int, k: nat)
    requires r >= 0.0 && n > 0 && k <= n
    ensures k == n ==> BalanceAfter(P, r, LevelPayment(P, r, n), k) == 0.0
    ensures P > 0.0 && k < n ==> BalanceAfter(P, r, LevelPayment(P, r, n), k) > 0.0
  {
    LevelPaymentEquation(P, r, n);
    if r == 0.0 {
      ZeroRateClears(P, LevelPayment(P, r, n), n, k);
    } else {
      PositiveRateClears(P, r, LevelPayment(P, r, n), n, k);
    }
  }

  /** Over exact arithmetic row m pays the level instalment, the corrected last row too. */
  lemma RowPaysLevel(P: real, r: real, n: int, m: int)
    requires r >= 0.0 && 1 <= m <= n
    ensures RowAt(P, r, n, m).payment == LevelPayment(P, r, n)
  {
    if m == n {
      LevelPaymentClears(P, r, n, n);
      BalanceRecurrence(P, r, LevelPayment(P, r, n), n);
    }
  }

  /** Over exact arithmetic the displayed balance of row m is the balance actually owed. */
  lemma RowBalanceIsOwed(P: real, r: real, n: int, m: int)
    requires r >= 0.0 && P > 0.0 && 1 <= m <= n
    ensures RowAt(P, r, n, m).balance == BalanceAfter(P, r, LevelPayment(P, r, n), m)
    ensures m < n ==> RowAt(P, r, n, m).balance > 0.0
  {
    LevelPaymentClears(P, r, n, m);
  }

  /** Over exact arithmetic the last-month correction changes nothing: every row pays the
      level instalment, and every displayed balance is the balance actually owed, which
      stays positive until the last row. */
  lemma ExactSchedule(P: real, r: real, n: int)
    requires r >= 0.0 && P > 0.0 && n > 0
    ensures |Schedule(P, r, n)| == n
    ensures forall j :: 0 <= j < n ==> Schedule(P, r, n)[j].payment == LevelPayment(P, r, n)
    ensures forall j :: 0 <= j < n ==>
      Schedule(P, r, n)[j].balance == BalanceAfter(P, r, LevelPayment(P, r, n), j + 1)
    ensures forall j :: 0 <= j < n - 1 ==> Schedule(P, r, n)[j].balance > 0.0
  {
    SchedulePrefixAt(P, r, n, n);
    forall m | 1 <= m <= n
      ensures RowAt(P, r, n, m).payment == LevelPayment(P, r, n)
      ensures RowAt(P, r, n, m).balance == BalanceAfter(P, r, LevelPayment(P, r, n), m)
      ensures m < n ==> RowAt(P, r, n, m).balance > 0.0
    {
      RowPaysLevel(P, r, n, m);
      RowBalanceIsOwed(P, r, n, m);
    }
  }

  /** Before the last month the balance owed never exceeds the loan, the level instalment
      repays some principal, and so the balance strictly goes down. */
  lemma {:induction false} LevelBalanceDecreases(P: real, r: real, n: int, k: nat)
    requires r >= 0.0 && P > 0.0 && k < n
    ensures BalanceAfter(P, r, LevelPayment(P, r, n), k) <= P
    ensures Repaid(LevelPayment(P, r, n), BalanceAfter(P, r, LevelPayment(P, r, n), k), r) > 0.0
    ensures BalanceAfter(P, r, LevelPayment(P, r, n), k + 1) < BalanceAfter(P, r, LevelPayment(P, r, n), k)
  {
    var pay := LevelPayment(P, r, n);
    var b := BalanceAfter(P, r, pay, k);
    if k > 0 {
      LevelBalanceDecreases(P, r, n, k - 1);
    }
    LevelPaymentCoversInterest(P, r, n);
    MulNonNegative(P - b, r);
    assert Interest(b, r) <= P * r;
  }

  /** Row m repays a positive amount of principal and shows a balance no larger than the
      loan, and strictly smaller than the row before it. */
  lemma RowRepays(P: real, r: real, n: int, m: int)
    requires r >= 0.0 && P > 0.0 && 1 <= m <= n
    ensures RowAt(P, r, n, m).principal > 0.0
    ensures RowAt(P, r, n, m).balance <= P
    ensures m < n ==> RowAt(P, r, n, m + 1).balance < RowAt(P, r, n, m).balance
  {
    LevelBalanceDecreases(P, r, n, m - 1);
    LevelPaymentClears(P, r, n, m - 1);
    RowBalanceIsOwed(P, r, n, m);
    if m < n {
      LevelBalanceDecreases(P, r, n, m);
      RowBalanceIsOwed(P, r, n, m + 1);
    }
  }

  /** Every row of the schedule repays a positive amount of principal, and the displayed
      balance goes strictly down from row to row and never exceeds the loan. */
  lemma ScheduleRepaysEveryMonth(P: real, r: real, n: int)
    requires r >= 0.0 && P > 0.0 && n > 0
    ensures |Schedule(P, r, n)| == n
    ensures forall j :: 0 <= j < n ==> Schedule(P, r, n)[j].principal > 0.0
    ensures forall j :: 0 <= j < n ==> Schedule(P, r, n)[j].balance <= P
    ensures forall j :: 0 <= j < n - 1 ==> Schedule(P, r, n)[j + 1].balance < Schedule(P, r, n)[j].balance
  {
    SchedulePrefixAt(P, r, n, n);
    forall m | 1 <= m <= n
      ensures RowAt(P, r, n, m).principal > 0.0
      ensures RowAt(P, r, n, m).balance <= P
      ensures m < n ==> RowAt(P, r, n, m + 1).balance < RowAt(P, r, n, m).balance
    {
      RowRepays(P, r, n, m);
    }
  }

  /** Sum of payments over a prefix is the number of months times the instalment. */
  lemma PrefixPayments(P: real, r: real, n: int, k: nat)
    requires r >= 0.0 && n > 0 && k <= n
    ensures SumPayment(SchedulePrefix(P, r, n, k)) == (k as real) * LevelPayment(P, r, n)
  {
    PrefixPaysLevel(P, r, n, k);
    LevelRowsSum(SchedulePrefix(P, r, n, k), LevelPayment(P, r, n), k);
  }

  /** Every row of a prefix pays the level instalment. */
  lemma PrefixPaysLevel(P: real, r: real, n: int, k: nat)
    requires r >= 0.0 && n > 0 && k <= n
    ensures |SchedulePrefix(P, r, n, k)| == k
    ensures PaysEach(SchedulePrefix(P, r, n, k), LevelPayment(P, r, n))
  {
    SchedulePrefixAt(P, r, n, k);
    forall m | 1 <= m <= k
      ensures RowAt(P, r, n, m).payment == LevelPayment(P, r, n)
    {
      RowPaysLevel(P, r, n, m);
    }
  }

  /** Every row pays the instalment pay. */
  predicate PaysEach(rows: seq<Row>, pay: real) {
    forall j :: 0 <= j < |rows| ==> rows[j].payment == pay
  }

  /** The rows pay k instalments pay in all. */
  predicate PaidInAll(rows: seq<Row>, pay: real, k: nat) {
    SumPayment(rows) == (k as real) * pay
  }

  /** Rows that all pay the same instalment add up to that many instalments. */
  lemma {:induction false} LevelRowsSum(rows: seq<Row>, pay: real, k: nat)
    requires |rows| == k && PaysEach(rows, pay)
    ensures PaidInAll(rows, pay, k)
  {
    if k > 0 {
      var init := rows[..k - 1];
      assert forall j :: 0 <= j < k - 1 ==> init[j] == rows[j];
      LevelRowsSum(init, pay, k - 1);
      OneMorePayment(SumPayment(init), pay, k);
    }
  }

  /** k - 1 instalments and one more are k instalments. */
  lemma OneMorePayment(sum: real, pay: real, k: nat)
    requires k > 0 && sum == ((k - 1) as real) * pay
    ensures sum + pay == (k as real) * pay
  {
  }

  /** Total interest of a fixed loan is n instalments minus the principal. */
  lemma FixedInterestClosedForm(P: real, r: real, n: int)
    requires r >= 0.0 && P > 0.0 && n > 0
    ensures FixedInterest(P, r, n) == (n as real) * LevelPayment(P, r, n) - P
  {
    ScheduleRows(P, r, n);
    SumsSplit(Schedule(P, r, n));
    PrincipalSumsToLoan(P, r, n);
    PrefixPayments(P, r, n, n);
  }
}
