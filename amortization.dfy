/** The amortization engine `amortization_schedule` (calculadora.py:160-192): the
    month-by-month schedule of a constant-rate loan paid with level instalments, the
    last month being forced to clear whatever balance is left. */
module Amortization {
  import opened Annuity

  /** One schedule row: the columns Mes, Cuota, Intereses, Amortización and Saldo final. */
  datatype Row = Row(month: int, payment: real, interest: real, principal: real, balance: real)

  function Max(a: real, b: real): real {
    if a >= b then a else b
  }

  /** Interest of one month on balance b.  The source special-cases r == 0 (interest 0.0,
      principal equal to the instalment); over exact arithmetic that gives the same values,
      and the loops, which keep the source's branches, are proved equal to these. */
  function Interest(b: real, r: real): real {
    b * r
  }

  /** Principal an uncorrected instalment `pay` repays on balance b. */
  function Repaid(pay: real, b: real, r: real): real {
    pay - Interest(b, r)
  }

  /** Balance owed after k uncorrected instalments `pay`, starting from P: what the loop
      keeps in `balance` (and what the phase loops of the mixed mortgage keep). */
  function BalanceAfter(P: real, r: real, pay: real, k: nat): real {
    if k == 0 then P
    else
      var b := BalanceAfter(P, r, pay, k - 1);
      b - Repaid(pay, b, r)
  }

  /** Interest accrued over k uncorrected instalments `pay`, starting from P. */
  function InterestAccrued(P: real, r: real, pay: real, k: nat): real {
    if k == 0 then 0.0 else InterestAccrued(P, r, pay, k - 1) + Interest(BalanceAfter(P, r, pay, k - 1), r)
  }

  /** The row month m of an n-month schedule records, given the instalment and the
      balance b owed at the start of the month; month n repays b in full. */
  function RowOf(m: int, n: int, pay: real, b: real, r: real): Row {
    var i := Interest(b, r);
    if m == n then Row(m, b + i, i, b, 0.0)
    else Row(m, pay, i, Repaid(pay, b, r), Max(b - Repaid(pay, b, r), 0.0))
  }

  /** Row m (1-based) of the schedule of loan P at rate r over n months. */
  function RowAt(P: real, r: real, n: int, m: int): Row
    requires r >= 0.0 && 1 <= m <= n
  {
    var pay := LevelPayment(P, r, n);
    RowOf(m, n, pay, BalanceAfter(P, r, pay, m - 1), r)
  }

  /** The first k rows of the schedule. */
  function SchedulePrefix(P: real, r: real, n: int, k: nat): seq<Row>
    requires r >= 0.0 && k <= n
  {
    if k == 0 then [] else SchedulePrefix(P, r, n, k - 1) + [RowAt(P, r, n, k)]
  }

  /** The schedule `amortization_schedule(P, r, n)` returns; empty for a non-positive
      principal or term. */
  function Schedule(P: real, r: real, n: int): seq<Row>
    requires r >= 0.0
  {
    if P <= 0.0 || n <= 0 then [] else SchedulePrefix(P, r, n, n)
  }

  /** Sum of the Intereses column (pandas `df["Intereses"].sum()`). */
  function SumInterest(rows: seq<Row>): real {
    if |rows| == 0 then 0.0 else SumInterest(rows[..|rows| - 1]) + rows[|rows| - 1].interest
  }

  /** Sum of the Amortización column. */
  function SumPrincipal(rows: seq<Row>): real {
    if |rows| == 0 then 0.0 else SumPrincipal(rows[..|rows| - 1]) + rows[|rows| - 1].principal
  }

  /** Sum of the Cuota column. */
  function SumPayment(rows: seq<Row>): real {
    if |rows| == 0 then 0.0 else SumPayment(rows[..|rows| - 1]) + rows[|rows| - 1].payment
  }

  /** Total interest of the fixed loan, `amortization_schedule(P, r, n)["Intereses"].sum()`. */
  function FixedInterest(P: real, r: real, n: int): real
    requires r >= 0.0
  {
    SumInterest(Schedule(P, r, n))
  }

  /** The source's r == 0 branches compute Interest and Repaid. */
  lemma SourceBranches(b: real, r: real, pay: real)
    ensures (if r != 0.0 then b * r else 0.0) == Interest(b, r)
    ensures (if r != 0.0 then pay - b * r else pay) == Repaid(pay, b, r)
  {
  }

  /** calculadora.py:160-192: one row appended per month, the balance carried along. */
  method AmortizationSchedule(P: real, r: real, n: int) returns (rows: seq<Row>)
    requires r >= 0.0
    ensures rows == Schedule(P, r, n)
  {
    if P <= 0.0 || n <= 0 {
      return [];
    }
    var payment := LevelPayment(P, r, n);
    var balance := P;
    rows := [];
    for m := 1 to n + 1
      invariant rows == SchedulePrefix(P, r, n, m - 1)
      invariant m <= n ==> balance == BalanceAfter(P, r, payment, m - 1)
    {
      var interest := if r != 0.0 then balance * r else 0.0;
      var principalPay := if r != 0.0 then payment - interest else payment;
      SourceBranches(balance, r, payment);
      var paymentEff, balanceEnd;
      if m == n {
        principalPay := balance;
        paymentEff := principalPay + interest;
        balanceEnd := 0.0;
      } else {
        paymentEff := payment;
        balanceEnd := balance - principalPay;
      }
      rows := rows + [Row(m, paymentEff, interest, principalPay, Max(balanceEnd, 0.0))];
      balance := balanceEnd;
    }
  }

  // ---------------------------------------------------------------------------
  // Properties of the schedule
  // ---------------------------------------------------------------------------

  /** The prefix has k rows and row j is RowAt(j + 1). */
  lemma {:induction false} SchedulePrefixAt(P: real, r: real, n: int, k: nat)
    requires r >= 0.0 && k <= n
    ensures |SchedulePrefix(P, r, n, k)| == k
    ensures forall j :: 0 <= j < k ==> SchedulePrefix(P, r, n, k)[j] == RowAt(P, r, n, j + 1)
  {
    if k > 0 {
      SchedulePrefixAt(P, r, n, k - 1);
    }
  }

  /** The schedule is empty exactly when the principal or the term is not positive;
      otherwise it has n rows whose Mes runs 1..n. */
  lemma ScheduleShape(P: real, r: real, n: int)
    requires r >= 0.0
    ensures Schedule(P, r, n) == [] <==> (P <= 0.0 || n <= 0)
    ensures P > 0.0 && n > 0 ==> |Schedule(P, r, n)| == n
    ensures forall j :: 0 <= j < |Schedule(P, r, n)| ==> Schedule(P, r, n)[j].month == j + 1
  {
    if P > 0.0 && n > 0 {
      SchedulePrefixAt(P, r, n, n);
    }
  }

  /** Every row pays its interest plus its principal; no displayed balance is negative;
      every row but the last pays the level instalment; the last row repays exactly the
      balance still owed and ends at 0. */
  lemma ScheduleRows(P: real, r: real, n: int)
    requires r >= 0.0 && P > 0.0 && n > 0
    ensures |Schedule(P, r, n)| == n
    ensures forall j :: 0 <= j < n ==>
      Schedule(P, r, n)[j].payment == Schedule(P, r, n)[j].interest + Schedule(P, r, n)[j].principal
    ensures forall j :: 0 <= j < n ==> Schedule(P, r, n)[j].balance >= 0.0
    ensures forall j :: 0 <= j < n - 1 ==> Schedule(P, r, n)[j].payment == LevelPayment(P, r, n)
    ensures Schedule(P, r, n)[n - 1].principal == BalanceAfter(P, r, LevelPayment(P, r, n), n - 1)
    ensures Schedule(P, r, n)[n - 1].balance == 0.0
  {
    SchedulePrefixAt(P, r, n, n);
  }

  /** At rate 0 no interest accrues and every row but the last pays P / n. */
  lemma ZeroRateSchedule(P: real, n: int)
    requires P > 0.0 && n > 0
    ensures |Schedule(P, 0.0, n)| == n
    ensures forall j :: 0 <= j < n ==> Schedule(P, 0.0, n)[j].interest == 0.0
    ensures forall j :: 0 <= j < n - 1 ==> Schedule(P, 0.0, n)[j].payment == P / n as real
  {
    SchedulePrefixAt(P, 0.0, n, n);
  }

  /** Before the last month, the principal repaid so far is what the balance went down by. */
  lemma {:induction false} PrefixPrincipal(P: real, r: real, n: int, k: nat)
    requires r >= 0.0 && k < n
    ensures SumPrincipal(SchedulePrefix(P, r, n, k)) == P - BalanceAfter(P, r, LevelPayment(P, r, n), k)
  {
    if k > 0 {
      PrefixPrincipal(P, r, n, k - 1);
      var s := SchedulePrefix(P, r, n, k);
      assert s[..|s| - 1] == SchedulePrefix(P, r, n, k - 1);
    }
  }

  /** The principal portions telescope: together they repay exactly P. */
  lemma PrincipalSumsToLoan(P: real, r: real, n: int)
    requires r >= 0.0 && P > 0.0 && n > 0
    ensures SumPrincipal(Schedule(P, r, n)) == P
  {
    PrefixPrincipal(P, r, n, n - 1);
    var s := SchedulePrefix(P, r, n, n);
    assert s[..|s| - 1] == SchedulePrefix(P, r, n, n - 1);
  }

  /** The interest column of the first k rows is the interest accrued over k uncorrected
      months: the last-month correction never touches the interest. */
  lemma {:induction false} PrefixInterest(P: real, r: real, n: int, k: nat)
    requires r >= 0.0 && n > 0 && k <= n
    ensures SumInterest(SchedulePrefix(P, r, n, k)) == InterestAccrued(P, r, LevelPayment(P, r, n), k)
  {
    if k > 0 {
      PrefixInterest(P, r, n, k - 1);
      var s := SchedulePrefix(P, r, n, k);
      assert s[..|s| - 1] == SchedulePrefix(P, r, n, k - 1);
    }
  }

  /** The first k rows of the schedule are its first k rows truncated. */
  lemma SchedulePrefixIsTake(P: real, r: real, n: int, k: nat)
    requires r >= 0.0 && P > 0.0 && n > 0 && k <= n
    ensures |Schedule(P, r, n)| == n
    ensures Schedule(P, r, n)[..k] == SchedulePrefix(P, r, n, k)
  {
    SchedulePrefixAt(P, r, n, n);
    SchedulePrefixAt(P, r, n, k);
  }

  /** The rows' interest, principal and payment columns sum consistently. */
  lemma {:induction false} SumsSplit(rows: seq<Row>)
    requires forall j :: 0 <= j < |rows| ==> rows[j].payment == rows[j].interest + rows[j].principal
    ensures SumPayment(rows) == SumInterest(rows) + SumPrincipal(rows)
  {
    if |rows| > 0 {
      SumsSplit(rows[..|rows| - 1]);
    }
  }
  /** Running k more months from the balance left after a months is running a + k months. */
  lemma {:induction false} BalanceShift(P: real, r: real, pay: real, a: nat, k: nat)
    ensures BalanceAfter(BalanceAfter(P, r, pay, a), r, pay, k) == BalanceAfter(P, r, pay, a + k)
  {
    if k > 0 {
      BalanceShift(P, r, pay, a, k - 1);
    }
  }

  /** The interest of a + k months splits into that of the first a months and that of the
      k months run from the balance they leave. */
  lemma {:induction false} InterestShift(P: real, r: real, pay: real, a: nat, k: nat)
    ensures InterestAccrued(P, r, pay, a + k)
         == InterestAccrued(P, r, pay, a) + InterestAccrued(BalanceAfter(P, r, pay, a), r, pay, k)
  {
    if k > 0 {
      InterestShift(P, r, pay, a, k - 1);
      BalanceShift(P, r, pay, a, k - 1);
    }
  }
}
