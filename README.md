# Mortgage calculator core, modelled in Dafny

This project models the loan arithmetic of the mortgage calculator `calculadora.py`:

- **Amortization engine** (`amortization_schedule`): the month-by-month schedule of a constant-rate loan with level (annuity) instalments. The last month is forced to repay whatever is still owed.
- **Mixed mortgage** (`mixed_total_interest`): a two-phase loan. Phase 1 pays, for m1 months, the instalment computed at rate r1 over the whole term. Phase 2 recomputes a level instalment at rate r2 on the balance left, over the remaining months. Also modelled: the two instalments the fixed-versus-mixed comparator computes, and where the page shows the phase-2 instalment or a "—" instead.
- **Rate solver** (`solve_r2_for_equal_interest`): finds the phase-2 rate that makes the mixed loan cost as much interest as a reference fixed loan. It widens an upper bound up to 20 times by ×1.5, then bisects up to 80 times with an early stop at abs(f) < 1e-8.
- **Investment arithmetic**: the calendar month and year of a schedule row, the initial contribution of an investment purchase, the annual cashflow, the cash-on-cash return and the guard of the compound-equivalent rate (`comp_equiv`).

All arithmetic is exact (`real`). The source's `(1 + r) ** (-n)` is written `1 / Pow(1 + r, n)` with a recursive natural power. Rates are required to be non-negative, as the input forms guarantee.

The loops of the source are kept as methods:
- `Amortization.AmortizationSchedule`;
- `MixedMortgage.MixedTotalInterest`;
- `RateSolver.SolveR2ForEqualInterest`, with its two loops in `RateSolver.ExpandBracket` and `RateSolver.Bisect`.

Each one keeps the source's branches (including the `r == 0` special cases) and is proved equal to a recursive specification function, or proved against the bracket invariants. The properties are then proved about those functions.

Files:
- `wrappers.dfy`: `Option`.
- `annuity.dfy`: powers, geometric sums and the level payment.
- `amortization.dfy`: the schedule.
- `exact.dfy`: the closed form of the balance over exact arithmetic.
- `mixed.dfy`: the mixed mortgage and the comparator's instalments.
- `solver.dfy`: the rate solver.
- `investment.dfy`: the script arithmetic.

Over exact arithmetic the level payment leaves exactly nothing owed after n months. So the source's last-month correction changes nothing on real numbers; it only absorbs floating-point drift. The same closed form shows that the uncorrected phase-2 loop of the mixed mortgage also ends owing exactly 0 (`MixedMortgage.Phase2Clears`).

## Model

| member | source | states |
|---|---|---|
| Annuity.LevelPaymentEquation | calculadora.py:164-167 | The instalment solves the annuity equation: n instalments add up to P at rate 0, and pay·(q^n − 1) = P·r·q^n with q = 1 + r at a positive rate. |
| Annuity.LevelPaymentCoversInterest | calculadora.py:164-167 | For a positive loan the instalment is positive and exceeds the first month's interest P·r. |
| Annuity.GeometricSum | calculadora.py:167 | (1 + q + … + q^(k−1))·r = q^k − 1 for q = 1 + r: the identity behind the annuity formula. |
| Amortization.SourceBranches | calculadora.py:172-173 | The source's `r_m != 0` branches compute the same interest and principal as the branch-free formulas. |
| Amortization.AmortizationSchedule | calculadora.py:160-192 | The loop returns exactly the schedule `Schedule(P, r, n)`. |
| Amortization.ScheduleShape | calculadora.py:162-184 | The schedule is empty exactly when P <= 0 or n <= 0; otherwise it has n rows with Mes running 1..n. |
| Amortization.ScheduleRows | calculadora.py:164-191 | Every row has Cuota = Intereses + Amortización and a non-negative Saldo final. Every row but the last pays the level instalment. The last row repays exactly the balance still owed and ends at 0. |
| Amortization.ZeroRateSchedule | calculadora.py:164-173 | At rate 0 every interest is 0 and every row but the last pays P / n. |
| Amortization.PrincipalSumsToLoan | calculadora.py:174-187 | The Amortización column sums to exactly P. |
| Amortization.PrefixPrincipal | calculadora.py:173-191 | Before the last month, the principal repaid by the first k rows is P less the balance owed after k months. |
| Amortization.PrefixInterest | calculadora.py:172-186 | The Intereses of the first k rows are the interest accrued over k uncorrected months; the correction never changes interest. |
| Amortization.SchedulePrefixIsTake | calculadora.py:171-190 | The first k rows of the schedule are the k-row prefix the loop has built after k months. |
| Amortization.SumsSplit | calculadora.py:176-187 | For rows with Cuota = Intereses + Amortización, the Cuota column sums to the sum of the other two. |
| Amortization.BalanceShift | calculadora.py:210-234 | Running k more months from the balance left after a months is running a + k months. |
| Amortization.InterestShift | calculadora.py:210-234 | The interest of a + k months is that of the first a months plus that of k months run from the balance they leave. |
| ExactAmortization.BalanceExpanded | calculadora.py:172-180 | The balance after k months is P·q^k − pay·(1 + q + … + q^(k−1)) (the predicate `Expanded`). |
| ExactAmortization.BalanceClosedForm | calculadora.py:167-180 | Under any instalment solving the annuity equation pay·(q^n − 1) = P·r·q^n (the predicate `AnnuityHolds`), B_k·(q^n − 1) = P·(q^n − q^k) (the predicate `ClosedForm`). |
| ExactAmortization.BalanceZeroRate | calculadora.py:165-173 | At rate 0 the balance after k months is P − k·pay. |
| ExactAmortization.LevelPaymentClears | calculadora.py:164-180 | With the level instalment, the balance is exactly 0 after n months and positive after every earlier month. |
| ExactAmortization.RowPaysLevel | calculadora.py:174-177 | Over exact arithmetic the corrected last row pays the level instalment too. |
| ExactAmortization.RowBalanceIsOwed | calculadora.py:180-188 | Each displayed Saldo final is the balance actually owed, and is positive before the last row. |
| ExactAmortization.ExactSchedule | calculadora.py:171-191 | Every row pays the level instalment, every Saldo final is the balance owed after that month, and it is positive before the last row. |
| ExactAmortization.LevelBalanceDecreases | calculadora.py:172-180 | Before the last month the balance owed is at most P, the level instalment repays a positive amount of principal, and the balance strictly decreases. |
| ExactAmortization.RowRepays | calculadora.py:173-188 | Row m repays positive principal and shows a balance at most P and strictly below the previous row's. |
| ExactAmortization.ScheduleRepaysEveryMonth | calculadora.py:171-191 | Every row repays a positive amount of principal; the displayed balance never exceeds the loan and strictly decreases from row to row. |
| ExactAmortization.PrefixPayments | calculadora.py:185 | The first k rows pay k level instalments in all. |
| ExactAmortization.FixedInterestClosedForm | calculadora.py:244-245 | The total interest of a fixed loan is n instalments minus the principal. |
| MixedMortgage.MixedTotal | calculadora.py:201-236 | Invalid arguments give (0, 0, 0, P). The total is always phase-1 plus phase-2 interest. A phase 1 covering the whole term leaves no phase-2 interest and a fourth result of 0. |
| MixedMortgage.MixedTotalInterest | calculadora.py:194-236 | The two phase loops return exactly `MixedTotal`. |
| MixedMortgage.Phase1IsSchedulePrefix | calculadora.py:205-236 | Phase-1 interest is the sum of the first m1 Intereses of the fixed schedule at r1. The fourth result is P less the principal of those rows: the balance after phase 1, positive while months remain. |
| MixedMortgage.WholeTermIsFixed | calculadora.py:218-220 | When m1 = n the total is the fixed loan's total interest at r1, whatever r2 is. |
| MixedMortgage.Phase2Clears | calculadora.py:222-234 | The uncorrected phase-2 loop owes exactly 0 after its n − m1 months, and a positive amount before. |
| MixedMortgage.SameRatePayment | calculadora.py:205-226 | Recomputing the instalment after m1 months at the same rate, over the remaining months, gives back the original instalment. |
| MixedMortgage.EqualRatesIsFixed | calculadora.py:194-236 | With r2 = r1 the mixed loan's total interest equals the fixed loan's, for every switch month. |
| MixedMortgage.ComparatorPayments | calculadora.py:464-480 | The computed phase-1 instalment is the level instalment at r1 over the whole term, positive for a positive loan; with no phase 2 the computed phase-2 instalment is 0; when the solved rate equals r1 both phases get the same instalment. |
| MixedMortgage.ComparatorPhase2 | calculadora.py:472-478 | With a phase 2, the computed phase-2 instalment is the level instalment on the phase-1 balance at the solved rate, computed at rate 0 when no rate was found. |
| MixedMortgage.Phase2Shown | calculadora.py:529-592 | The card shows a phase-2 instalment exactly when a phase 2 exists and a rate was found, the summary table exactly when a rate was found, and "—" otherwise; for a positive loan and a switch month in 0..n−1 the shown instalment is the level instalment at the solved rate, never the rate-0 stand-in; with no phase 2 and a rate found the table shows 0. |
| RateSolver.ExpandedHi | calculadora.py:256-262 | The upper bound after k widenings is never below 2/12. |
| RateSolver.ExpandedHiMonotone | calculadora.py:262 | More widenings never give a smaller bound. |
| RateSolver.ExpandBracket | calculadora.py:256-264 | hi is 2/12·1.5^attempts with f_hi = f(hi). Every earlier bound kept the sign of f(lo). If f(lo)·f(hi) > 0 on exit, all 20 widenings were used. |
| RateSolver.Bisect | calculadora.py:270-282 | The bracket stays within the original and only shrinks. If abs(f(mid)) < 1e-8 both bounds collapse to mid. Otherwise f(lo)·f(hi) <= 0 still holds and the width is the original's divided by 2^80. |
| RateSolver.SolveR2ForEqualInterest | calculadora.py:238-285 | The target is the fixed loan's total interest. The rate is None exactly when m1 >= n or f(0)·f(hi) > 0 for all 21 bounds tried; then the figures are the mixed loan's at rate 0. Otherwise the rate is non-negative and is the midpoint (lo + hi)/2 of the final bracket, the figures are the mixed loan's at that rate, and either abs(f(rate)) < 1e-8 or the bracket still changes sign and is at most 2^-80 of the widest bound. |
| RateSolver.FixedRateIsRoot | calculadora.py:251-253 | When r1 equals the fixed rate, that rate is a root of the solver's objective, for every switch month. |
| RateSolver.ZeroRatesSolvable | calculadora.py:255-268 | When the fixed and phase-1 rates are both 0, the first bracket already changes sign, so no widening is needed and a rate is returned. |
| Investment.CalendarRange | calculadora.py:354-355 | The calendar month is in 1..12 and the year is at least 1; the first row falls in the start month of year 1. |
| Investment.CalendarRoundTrip | calculadora.py:354-355 | (year − 1)·12 + month recovers Mes + start month − 1. |
| Investment.CalendarNextYear | calculadora.py:354-355 | Twelve months later is the same calendar month of the next year. |
| Investment.CalendarStep | calculadora.py:354-355 | One month later the calendar month advances, wrapping from December to January, and the year advances exactly on the wrap. |
| Investment.RegionRatesBounded | calculadora.py:687-706 | Every region's transfer tax is 6–10%, its stamp duty 0.5–1.5%, and their sum at most 11.5%. |
| Investment.RegionTaxesBounded | calculadora.py:709-714 | With a listed region's rates, the taxes are between 6.5% and 11.5% of the price. |
| Investment.DownPaymentPlusFinanced | calculadora.py:711-712 | The down payment plus the financed amount is the price. |
| Investment.ContributionTotal | calculadora.py:711-738 | The total is the sum of its items. It equals price + taxes + 2300 + extra − 98% of the financed amount. With inputs in the form's ranges it is at least 2300 plus the down payment. |
| Investment.AnnualMortgageCostIsLevel | calculadora.py:859-863 | The annual mortgage cost is twelve level instalments, or 0 when no schedule was produced. |
| Investment.CashflowOfInvestment | calculadora.py:857-872 | The annual cashflow is 12·(rent − community fee − insurance − instalment) − IBI − maintenance. |
| Investment.CashOnCashMeaning | calculadora.py:922 | The return is 0 for a non-positive contribution; otherwise return × contribution = cashflow, and the return has the cashflow's sign. |
| Investment.CompEquivGuard | calculadora.py:978-980 | For a horizon n >= 1 (n = 0 divides by zero in the source), the undefined marker appears exactly when 1 + n·r <= 0; a defined radicand is positive. |
| Investment.UndefinedHasNoRate | calculadora.py:978-980 | When the marker appears, no compound rate above −100% compounded over n years gives 1 + n·r. |
| Investment.RatiosTable | calculadora.py:982-986 | The table has one entry per year 1..horizon, and year y's entry is undefined exactly when 1 + y·r <= 0. |
| Investment.RatiosTableUndefinedSuffix | calculadora.py:982-986 | A non-negative return is defined every year; once a year is undefined, every later year is too. |

## Left out

- Streamlit page setup, CSS, forms, tabs, metrics, the image tab and the plotly figures. These are presentation and I/O. The values the forms would supply are parameters of the modelled functions.
- pandas `DataFrame` and `groupby(...).sum().round(2)` (calculadora.py:356). A row is a datatype and a schedule a `seq`. Decimal rounding is presentation.
- Currency and percent formatting (`eur`, `_fmt_pct`, `fmt_pct`). It depends on Python's format-spec behaviour.
- Floating-point behaviour. Arithmetic is exact; IEEE drift is not modelled. The 1e-8 stopping tolerance is kept as an exact comparison.
- No premium table or interpolation exists in calculadora.py, so there is nothing to model.
- The worked numeric scenarios (for example, a 100000 loan at 3% over 240 months). Evaluating q^240 exactly is not a proof about the model.
- Investment.CompEquivBase: returns only the radicand 1 + n·r, or None for NaN. The n-th root (calculadora.py:980) has no counterpart over Dafny reals.
- The unguarded compound rate `r_comp` (calculadora.py:923) is not modelled; in Python a negative base there yields a complex number.
- Investment.AnnualMortgageCost: the `NameError` fallback (calculadora.py:860-863) is modelled as "0 when the schedule is empty". That is the only way the name stays undefined.
- RateSolver.SolveR2ForEqualInterest: requires P > 0 and n > 0. With no schedule the source's `df_fixed["Intereses"]` raises a KeyError, and the only caller checks these bounds first.
- RateSolver.SolveR2ForEqualInterest: does not promise that the final bracket contains an exact root. That would need continuity of the objective, which is not modelled. The contract states the sign-change and width invariants instead.
- RateSolver.Bisect: after the early stop the source leaves f_lo and f_hi stale. The model states the sign invariant only for the non-converged exit.
- The solver's two loops are split into `ExpandBracket` and `Bisect`; the objective f is passed to them as a function value. The source keeps both loops in one function with a local closure.
- Amortization.Interest: branch-free (b·r). `SourceBranches` proves it equal to the source's `r_m != 0` branches, and the loop methods keep those branches.
- The tax-rate dictionary (calculadora.py:687-706) is constant configuration (`Investment.Regions`). The region names are kept as strings.
