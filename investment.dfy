/** The arithmetic of the calculator's script sections, lifted into functions: the calendar
    month and year of a schedule row, the initial contribution of an investment purchase,
    its annual cashflow, the cash-on-cash return and the guard of the compound-equivalent
    rate. */
module Investment {
  import opened Wrappers
  import opened Annuity
  import opened Amortization
  import opened ExactAmortization

  // ---------------------------------------------------------------------------
  // Calendar month and year of a schedule row (calculadora.py:354-355)
  // ---------------------------------------------------------------------------

  /** Calendar month (1..12) of schedule month `mes` for a loan starting in `startMonth`.
      Python's `%` with divisor 12 is Dafny's Euclidean `%`. */
  function CalendarMonth(mes: int, startMonth: int): int {
    ((mes - 1 + (startMonth - 1)) % 12) + 1
  }

  /** Year (1-based) of schedule month `mes`; Python's `//` with divisor 12 is Dafny's `/`. */
  function CalendarYear(mes: int, startMonth: int): int {
    ((mes - 1 + (startMonth - 1)) / 12) + 1
  }

  /** The month is always in 1..12; for a schedule month and a start month of the
      selector, the year is at least 1, and the first row falls in the start month of
      year 1. */
  lemma CalendarRange(mes: int, startMonth: int)
    ensures 1 <= CalendarMonth(mes, startMonth) <= 12
    ensures mes >= 1 && startMonth >= 1 ==> CalendarYear(mes, startMonth) >= 1
    ensures 1 <= startMonth <= 12 ==> CalendarMonth(1, startMonth) == startMonth && CalendarYear(1, startMonth) == 1
  {
  }

  /** Month and year together recover the schedule month: twelve months per year, the
      start month counting as the first. */
  lemma CalendarRoundTrip(mes: int, startMonth: int)
    ensures (CalendarYear(mes, startMonth) - 1) * 12 + CalendarMonth(mes, startMonth) == mes + startMonth - 1
  {
  }

  /** Twelve months later is the same calendar month of the next year. */
  lemma CalendarNextYear(mes: int, startMonth: int)
    ensures CalendarMonth(mes + 12, startMonth) == CalendarMonth(mes, startMonth)
    ensures CalendarYear(mes + 12, startMonth) == CalendarYear(mes, startMonth) + 1
  {
    CalendarRoundTrip(mes, startMonth);
    CalendarRoundTrip(mes + 12, startMonth);
    CalendarRange(mes, startMonth);
    CalendarRange(mes + 12, startMonth);
  }

  /** One month later the calendar month advances, wrapping from December to January,
      and the year advances exactly when it wraps. */
  lemma CalendarStep(mes: int, startMonth: int)
    ensures CalendarMonth(mes + 1, startMonth) == if CalendarMonth(mes, startMonth) == 12 then 1 else CalendarMonth(mes, startMonth) + 1
    ensures CalendarYear(mes + 1, startMonth) == if CalendarMonth(mes, startMonth) == 12 then CalendarYear(mes, startMonth) + 1 else CalendarYear(mes, startMonth)
  {
    CalendarRoundTrip(mes, startMonth);
    CalendarRoundTrip(mes + 1, startMonth);
    CalendarRange(mes, startMonth);
    CalendarRange(mes + 1, startMonth);
  }

  // ---------------------------------------------------------------------------
  // Initial contribution (calculadora.py:648, 687-714, 726-738)
  // ---------------------------------------------------------------------------

  const RegistryAndNotary: real := 1500.0
  const Appraisal: real := 400.0
  const Agency: real := 400.0
  /** The opening fee is 2% of the financed amount. */
  const OpeningFeeRate: real := 0.02

  /** Transfer (ITP, or VAT on a new home) and stamp duty (AJD) rates by region. */
  const Regions: map<string, (real, real)> := map[
    "IVA (Vivienda nueva)" := (0.10, 0.012),
    "Andalucía" := (0.07, 0.015),
    "Aragón" := (0.085, 0.012),
    "Asturias" := (0.08, 0.015),
    "Baleares" := (0.08, 0.0075),
    "Canarias" := (0.065, 0.015),
    "Cantabria" := (0.08, 0.015),
    "Castilla León" := (0.08, 0.015),
    "Castilla la Mancha" := (0.09, 0.015),
    "Cataluña" := (0.10, 0.015),
    "Comunidad Valenciana" := (0.10, 0.015),
    "Extremadura" := (0.08, 0.015),
    "Galicia" := (0.10, 0.015),
    "Comunidad de Madrid" := (0.06, 0.0075),
    "Murcia" := (0.08, 0.015),
    "Navarra" := (0.06, 0.005),
    "País Vasco" := (0.07, 0.005),
    "La Rioja" := (0.07, 0.01)
  ]

  /** Every region's transfer rate lies in 6%..10% and its stamp duty in 0.5%..1.5%, and
      together they never exceed 11.5%. */
  lemma RegionRatesBounded(region: string)
    requires region in Regions
    ensures 0.06 <= Regions[region].0 <= 0.10
    ensures 0.005 <= Regions[region].1 <= 0.015
    ensures Regions[region].0 + Regions[region].1 <= 0.115
  {
  }

  /** `importe_financiado`: the financed share of the price. */
  function Financed(price: real, pctFinanced: real): real {
    price * pctFinanced / 100.0
  }

  /** `entrada_eur`: the share of the price not financed. */
  function DownPayment(price: real, pctFinanced: real): real {
    price * (100.0 - pctFinanced) / 100.0
  }

  /** The itemised initial contribution of the summary table. */
  datatype Contribution = Contribution(
    downPayment: real, taxes: real, registryAndNotary: real, appraisal: real, agency: real,
    openingFee: real, extra: real, total: real)

  /** `aportacion_total` and its items for price, financing percentage, the region's
      rates and the optional extra contribution. */
  function InitialContribution(price: real, pctFinanced: real, itp: real, ajd: real, extra: real): Contribution {
    var down := DownPayment(price, pctFinanced);
    var taxes := price * (itp + ajd);
    var fee := Financed(price, pctFinanced) * OpeningFeeRate;
    var fixedFees := RegistryAndNotary + Appraisal + Agency;
    Contribution(down, taxes, RegistryAndNotary, Appraisal, Agency, fee, extra, down + taxes + fixedFees + fee + extra)
  }

  /** The down payment and the financed amount make up the price, whatever the percentage. */
  lemma DownPaymentPlusFinanced(price: real, pctFinanced: real)
    ensures DownPayment(price, pctFinanced) + Financed(price, pctFinanced) == price
  {
  }

  /** The total is the sum of the items of the summary table, and equals the price plus
      taxes, the 2300 of fixed fees and the extra, less the 98% of the financed amount
      that the bank pays beyond its 2% fee. With inputs in the form's ranges it is at
      least the fixed fees plus the down payment. */
  lemma ContributionTotal(price: real, pctFinanced: real, itp: real, ajd: real, extra: real)
    ensures var c := InitialContribution(price, pctFinanced, itp, ajd, extra);
      c.total == c.downPayment + c.taxes + c.registryAndNotary + c.appraisal + c.agency + c.openingFee + c.extra
    ensures InitialContribution(price, pctFinanced, itp, ajd, extra).total
         == price + price * (itp + ajd) + 2300.0 + extra - 0.98 * Financed(price, pctFinanced)
    ensures price >= 0.0 && 0.0 <= pctFinanced <= 100.0 && itp >= 0.0 && ajd >= 0.0 && extra >= 0.0 ==>
      InitialContribution(price, pctFinanced, itp, ajd, extra).total >= 2300.0 + DownPayment(price, pctFinanced)
  {
    DownPaymentPlusFinanced(price, pctFinanced);
    if price >= 0.0 && 0.0 <= pctFinanced <= 100.0 && itp >= 0.0 && ajd >= 0.0 {
      MulNonNegative(price, itp + ajd);
      MulNonNegative(price, pctFinanced);
    }
  }

  /** With the rates of a listed region, the taxes of a purchase are at least 6.5% and at
      most 11.5% of the price. */
  lemma RegionTaxesBounded(region: string, price: real, pctFinanced: real, extra: real)
    requires region in Regions && price >= 0.0
    ensures var c := InitialContribution(price, pctFinanced, Regions[region].0, Regions[region].1, extra);
      0.065 * price <= c.taxes <= 0.115 * price
  {
    RegionRatesBounded(region);
    var (itp, ajd) := Regions[region];
    MulNonNegative(price, 0.115 - (itp + ajd));
    MulNonNegative(price, (itp + ajd) - 0.065);
  }

  // ---------------------------------------------------------------------------
  // Annual cashflow (calculadora.py:650-655, 857-872)
  // ---------------------------------------------------------------------------

  /** `hipoteca_anual`: twelve times the first instalment of the schedule, or 0 when no
      schedule was produced (the source's `NameError` fallback). */
  function AnnualMortgageCost(schedule: seq<Row>): real {
    if |schedule| == 0 then 0.0 else 12.0 * schedule[0].payment
  }

  /** For a financed amount the annual mortgage cost is twelve level instalments; with
      nothing financed it is 0. */
  lemma AnnualMortgageCostIsLevel(financed: real, r: real, n: int)
    requires r >= 0.0
    ensures financed > 0.0 && n > 0 ==> AnnualMortgageCost(Schedule(financed, r, n)) == 12.0 * LevelPayment(financed, r, n)
    ensures financed <= 0.0 || n <= 0 ==> AnnualMortgageCost(Schedule(financed, r, n)) == 0.0
  {
    if financed > 0.0 && n > 0 {
      ExactSchedule(financed, r, n);
    }
  }

  datatype Cashflow = Cashflow(income: real, mortgage: real, otherExpenses: real, totalExpenses: real, cashflow: real)

  /** `cashflow_anual` and its parts, from the monthly rent, community fee and insurance,
      the yearly IBI and maintenance, and the annual mortgage cost. */
  function AnnualCashflow(rent: real, community: real, insurance: real, ibi: real, maintenance: real, mortgage: real): Cashflow {
    var income := rent * 12.0;
    var other := ibi + community * 12.0 + maintenance + insurance * 12.0;
    var total := other + mortgage;
    Cashflow(income, mortgage, other, total, income - total)
  }

  /** The yearly cashflow is twelve months of rent net of the monthly charges and of the
      level instalment, less the yearly charges. */
  lemma CashflowOfInvestment(rent: real, community: real, insurance: real, ibi: real, maintenance: real,
                             financed: real, r: real, n: int)
    requires r >= 0.0 && financed > 0.0 && n > 0
    ensures AnnualCashflow(rent, community, insurance, ibi, maintenance, AnnualMortgageCost(Schedule(financed, r, n))).cashflow
         == 12.0 * (rent - community - insurance - LevelPayment(financed, r, n)) - ibi - maintenance
  {
    AnnualMortgageCostIsLevel(financed, r, n);
  }

  // ---------------------------------------------------------------------------
  // Returns (calculadora.py:922, 978-986)
  // ---------------------------------------------------------------------------

  /** `r_simple`, the cash-on-cash return: 0 for a non-positive contribution. */
  function CashOnCash(cashflow: real, contribution: real): real {
    if contribution <= 0.0 then 0.0 else cashflow / contribution
  }

  /** For a positive contribution the return times the contribution is the cashflow, and
      the return has the cashflow's sign; otherwise it is 0. */
  lemma CashOnCashMeaning(cashflow: real, contribution: real)
    ensures contribution <= 0.0 ==> CashOnCash(cashflow, contribution) == 0.0
    ensures contribution > 0.0 ==> CashOnCash(cashflow, contribution) * contribution == cashflow
    ensures contribution > 0.0 ==> (CashOnCash(cashflow, contribution) >= 0.0 <==> cashflow >= 0.0)
  {
  }

  /** The radicand 1 + n * r of `comp_equiv(r, n)`, whose n-th root less 1 is the compound
      rate; None is the source's NaN, returned when the radicand is not positive.  The
      horizon is at least one year: for n == 0 the source divides by zero. */
  function CompEquivBase(r: real, n: int): Option<real>
    requires n >= 1
  {
    var base := 1.0 + (n as real) * r;
    if base > 0.0 then Some(base) else None
  }

  /** The undefined marker appears exactly when 1 + n * r <= 0, and a defined radicand is
      positive. */
  lemma CompEquivGuard(r: real, n: int)
    requires n >= 1
    ensures CompEquivBase(r, n).None? <==> 1.0 + (n as real) * r <= 0.0
    ensures CompEquivBase(r, n).Some? ==> CompEquivBase(r, n).value > 0.0
  {
  }

  /** Undefined is the only sensible answer: no compound rate c > -1 compounded over n
      years reaches a non-positive growth factor. */
  lemma UndefinedHasNoRate(r: real, n: nat, c: real)
    requires n >= 1 && CompEquivBase(r, n).None? && c > -1.0
    ensures Pow(1.0 + c, n) != 1.0 + (n as real) * r
  {
    PowPositive(1.0 + c, n);
  }

  /** The year-by-year table of compound-equivalent rates for years 1..horizon: the entry
      of year y is undefined exactly when 1 + y * r <= 0. */
  function RatiosTable(r: real, horizon: nat): (t: seq<Option<real>>)
    ensures |t| == horizon
    ensures forall i :: 0 <= i < horizon ==> t[i] == CompEquivBase(r, i + 1)
    ensures forall i :: 0 <= i < horizon ==> (t[i].None? <==> 1.0 + ((i + 1) as real) * r <= 0.0)
  {
    seq(horizon, i requires 0 <= i => CompEquivBase(r, i + 1))
  }

  /** A non-negative return is defined in every year; and once a year is undefined, every
      later year is too. */
  lemma RatiosTableUndefinedSuffix(r: real, horizon: nat, i: nat, j: nat)
    requires i <= j < horizon
    ensures r >= 0.0 ==> RatiosTable(r, horizon)[i].Some?
    ensures RatiosTable(r, horizon)[i].None? ==> RatiosTable(r, horizon)[j].None?
  {
    if r >= 0.0 {
      MulNonNegative((i + 1) as real, r);
    }
    if r < 0.0 {
      assert ((j + 1) as real) * r <= ((i + 1) as real) * r by {
        MulNonNegative(((j - i) as real), -r);
      }
    }
  }
}
