/** The spending policies `SpendingModule['variableSpending']` and
    `SpendingModule['percentOfPortfolio']`: each computes one year's withdrawal from the form and
    the cycles simulated so far, `calcSpending(form, sim, cycleIndex, yearIndex)`. Money is `real`. */
module SpendingModule {
  import opened Options
  import opened Clamps

  datatype Portfolio = Portfolio(start: real)

  /** Year `k` of cycle `c`, `sim[c][k]`: the portfolio at the start of that year, the cumulative
      inflation factor since retirement began and the amount spent, the last two possibly absent. */
  datatype YearRecord = YearRecord(portfolio: Portfolio, cumulativeInflation: Option<real>, spending: Option<real>)

  /** All cycles simulated so far; `None` stands for the `null` passed before any year exists. */
  type Sim = Option<seq<seq<YearRecord>>>

  predicate InCycle(sim: Sim, c: nat, i: nat)
  {
    sim.Some? && c < |sim.value| && i < |sim.value[c]|
  }

  function Year(sim: Sim, c: nat, i: nat): YearRecord
    requires InCycle(sim, c, i)
  {
    sim.value[c][i]
  }

  // ---------------------------------------------------------------------------------------------
  // variableSpending

  /** `form.spending.floor` and `form.spending.ceiling`: `"definedValue"` or absent. */
  datatype BoundType = NoBound | DefinedValue

  /** The `form.spending` fields read by `variableSpending`: `initial`, `variableSpendingZValue`,
      `floor`, `floorValue`, `ceiling` and `ceilingValue`. */
  datatype VariableSpendingForm = VariableSpendingForm(
    initial: real,
    zValue: Option<real>,
    floor: BoundType, floorValue: Option<real>,
    ceiling: BoundType, ceilingValue: Option<real>)

  /** A `"definedValue"` bound with its value present, in the nominal terms of inflation factor `ci`. */
  function DefinedBound(kind: BoundType, value: Option<real>, ci: real): Option<real>
  {
    if kind == DefinedValue && value.Some? then Some(value.value * ci) else None
  }

  /** Year 0 needs nothing; a later year needs the z-value, year `i`'s cumulative inflation and a
      non-zero divisor `P_0 * CI_i`. */
  predicate VariableSpendingDefined(form: VariableSpendingForm, sim: Sim, c: nat, i: nat)
  {
    i == 0 ||
    (InCycle(sim, c, i) && form.zValue.Some? && Year(sim, c, i).cumulativeInflation.Some? &&
     Year(sim, c, 0).portfolio.start * Year(sim, c, i).cumulativeInflation.value != 0.0)
  }

  /** The initial spending, in today's money, adjusted by `z` times the real change of the portfolio
      `p` against its first-year value `p0`, and expressed in year-`i` money by the factor `ci`.
      A portfolio that kept pace with inflation, or `z == 0`, gives inflation-indexed spending; with
      `z == 1` spending moves in proportion to the portfolio. */
  function AdjustedSpending(initial: real, z: real, p0: real, p: real, ci: real): (r: real)
    requires p0 * ci != 0.0
    ensures p == p0 * ci ==> r == initial * ci
    ensures z == 0.0 ==> r == initial * ci
    ensures z == 1.0 ==> r == initial * p / p0
  {
    ((p / (p0 * ci) - 1.0) * z + 1.0) * initial * ci
  }

  /** The base spending of year `i > 0`: the cycle's first year is the reference portfolio and the
      form's initial spending the base amount. */
  function VariableBase(form: VariableSpendingForm, sim: Sim, c: nat, i: nat): real
    requires i > 0 && VariableSpendingDefined(form, sim, c, i)
  {
    AdjustedSpending(form.initial, form.zValue.value, Year(sim, c, 0).portfolio.start,
                     Year(sim, c, i).portfolio.start, Year(sim, c, i).cumulativeInflation.value)
  }

  function VariableFloor(form: VariableSpendingForm, sim: Sim, c: nat, i: nat): Option<real>
    requires i > 0 && VariableSpendingDefined(form, sim, c, i)
  {
    DefinedBound(form.floor, form.floorValue, Year(sim, c, i).cumulativeInflation.value)
  }

  function VariableCeiling(form: VariableSpendingForm, sim: Sim, c: nat, i: nat): Option<real>
    requires i > 0 && VariableSpendingDefined(form, sim, c, i)
  {
    DefinedBound(form.ceiling, form.ceilingValue, Year(sim, c, i).cumulativeInflation.value)
  }

  /** `variableSpending.calcSpending(form, sim, c, i)`. Year 0 spends the initial amount (`sim` may be
      `null`); a later year spends the adjusted amount, kept at or above a defined floor and at or
      below a defined ceiling, each scaled by the year's cumulative inflation. */
  function VariableSpending(form: VariableSpendingForm, sim: Sim, c: nat, i: nat): (r: real)
    requires VariableSpendingDefined(form, sim, c, i)
    ensures i == 0 ==> r == form.initial
    ensures i > 0 ==>
      var base, lo, hi := VariableBase(form, sim, c, i), VariableFloor(form, sim, c, i), VariableCeiling(form, sim, c, i);
      (Consistent(lo, hi) ==> Within(r, lo, hi)) &&
      (hi.Some? ==> r <= hi.value) &&
      (Within(base, lo, hi) ==> r == base) &&
      (Consistent(lo, hi) && lo.Some? && base < lo.value ==> r == lo.value) &&
      (hi.Some? && hi.value < base ==> r == hi.value)
  {
    if i == 0 then form.initial
    else Clamp(VariableBase(form, sim, c, i), VariableFloor(form, sim, c, i), VariableCeiling(form, sim, c, i))
  }

  /** With no floor or ceiling in effect (absent, or `"definedValue"` without a value), later years
      spend exactly the adjusted amount. */
  lemma VariableUnbounded(form: VariableSpendingForm, sim: Sim, c: nat, i: nat)
    requires i > 0 && VariableSpendingDefined(form, sim, c, i)
    requires form.floor == NoBound || form.floorValue.None?
    requires form.ceiling == NoBound || form.ceilingValue.None?
    ensures VariableSpending(form, sim, c, i) ==
      AdjustedSpending(form.initial, form.zValue.value, Year(sim, c, 0).portfolio.start,
                       Year(sim, c, i).portfolio.start, Year(sim, c, i).cumulativeInflation.value)
  {
  }

  /** A defined floor alone: the larger of the adjusted amount and `floorValue * CI_i`. */
  lemma VariableFloorOnly(form: VariableSpendingForm, sim: Sim, c: nat, i: nat)
    requires i > 0 && VariableSpendingDefined(form, sim, c, i)
    requires form.floor == DefinedValue && form.floorValue.Some?
    requires form.ceiling == NoBound || form.ceilingValue.None?
    ensures var r, base, lo := VariableSpending(form, sim, c, i), VariableBase(form, sim, c, i),
                               form.floorValue.value * Year(sim, c, i).cumulativeInflation.value;
      r >= base && r >= lo && (r == base || r == lo)
  {
  }

  /** A defined ceiling alone: the smaller of the adjusted amount and `ceilingValue * CI_i`. */
  lemma VariableCeilingOnly(form: VariableSpendingForm, sim: Sim, c: nat, i: nat)
    requires i > 0 && VariableSpendingDefined(form, sim, c, i)
    requires form.ceiling == DefinedValue && form.ceilingValue.Some?
    requires form.floor == NoBound || form.floorValue.None?
    ensures var r, base, hi := VariableSpending(form, sim, c, i), VariableBase(form, sim, c, i),
                               form.ceilingValue.value * Year(sim, c, i).cumulativeInflation.value;
      r <= base && r <= hi && (r == base || r == hi)
  {
  }

  lemma MulLeftMonotone(a: real, b: real, k: real)
    requires a <= b && k >= 0.0
    ensures a * k <= b * k
  {
  }

  lemma DivMonotone(p: real, q: real, k: real)
    requires p <= q && k > 0.0
    ensures p / k <= q / k
  {
  }

  /** With a non-negative z-value and initial spending and positive reference values, a larger
      portfolio never yields smaller adjusted spending. */
  lemma AdjustedSpendingMonotone(initial: real, z: real, p0: real, ci: real, p: real, q: real)
    requires z >= 0.0 && initial >= 0.0 && p0 > 0.0 && ci > 0.0 && p <= q
    ensures AdjustedSpending(initial, z, p0, p, ci) <= AdjustedSpending(initial, z, p0, q, ci)
  {
    var k := p0 * ci;
    MulLeftMonotone(0.0, p0, ci);
    var a, b := p / k, q / k;
    DivMonotone(p, q, k);
    MulLeftMonotone(a - 1.0, b - 1.0, z);
    MulLeftMonotone(0.0, initial, ci);
    MulLeftMonotone((a - 1.0) * z + 1.0, (b - 1.0) * z + 1.0, initial * ci);
    assert ((a - 1.0) * z + 1.0) * initial * ci == ((a - 1.0) * z + 1.0) * (initial * ci);
    assert ((b - 1.0) * z + 1.0) * initial * ci == ((b - 1.0) * z + 1.0) * (initial * ci);
  }

  /** Holding everything else fixed, a larger portfolio in year `i` never lowers that year's variable
      spending, bounds included. */
  lemma VariableSpendingMonotone(form: VariableSpendingForm, sim1: Sim, sim2: Sim, c: nat, i: nat)
    requires i > 0 && VariableSpendingDefined(form, sim1, c, i) && VariableSpendingDefined(form, sim2, c, i)
    requires form.zValue.value >= 0.0 && form.initial >= 0.0
    requires Year(sim1, c, 0) == Year(sim2, c, 0) && Year(sim1, c, 0).portfolio.start > 0.0
    requires Year(sim1, c, i).cumulativeInflation == Year(sim2, c, i).cumulativeInflation
    requires Year(sim1, c, i).cumulativeInflation.value > 0.0
    requires Year(sim1, c, i).portfolio.start <= Year(sim2, c, i).portfolio.start
    ensures VariableSpending(form, sim1, c, i) <= VariableSpending(form, sim2, c, i)
  {
    AdjustedSpendingMonotone(form.initial, form.zValue.value, Year(sim1, c, 0).portfolio.start,
                             Year(sim1, c, i).cumulativeInflation.value,
                             Year(sim1, c, i).portfolio.start, Year(sim2, c, i).portfolio.start);
    ClampMonotone(VariableBase(form, sim1, c, i), VariableBase(form, sim2, c, i),
                  VariableFloor(form, sim1, c, i), VariableCeiling(form, sim1, c, i));
  }

  /** Two simulations that agree on years 0 .. i of cycle `c` (but may differ elsewhere). */
  predicate SamePast(sim1: Sim, sim2: Sim, c: nat, i: nat)
  {
    InCycle(sim1, c, i) && InCycle(sim2, c, i) && sim1.value[c][..i + 1] == sim2.value[c][..i + 1]
  }

  lemma SamePastYear(sim1: Sim, sim2: Sim, c: nat, i: nat, k: nat)
    requires SamePast(sim1, sim2, c, i) && k <= i
    ensures Year(sim1, c, k) == Year(sim2, c, k)
  {
    assert Year(sim1, c, k) == sim1.value[c][..i + 1][k];
  }

  /** Year `i`'s variable spending reads no later year and no other cycle. */
  lemma VariableSpendingReadsOnlyPast(form: VariableSpendingForm, sim1: Sim, sim2: Sim, c: nat, i: nat)
    requires SamePast(sim1, sim2, c, i) && VariableSpendingDefined(form, sim1, c, i)
    ensures VariableSpendingDefined(form, sim2, c, i)
    ensures VariableSpending(form, sim1, c, i) == VariableSpending(form, sim2, c, i)
  {
    SamePastYear(sim1, sim2, c, i, 0);
    SamePastYear(sim1, sim2, c, i, i);
  }

  // ---------------------------------------------------------------------------------------------
  // percentOfPortfolio

  /** `form.spending.percentageOfPortfolioType`. */
  datatype PercentageOfPortfolioType = Constant | WithFloorAndCeiling

  /** `form.spending.percentageOfPortfolioFloorType`. */
  datatype PortfolioFloorType = FloorNone | FloorPercentageOfPortfolio | FloorPercentageOfPreviousYear

  /** `form.spending.percentageOfPortfolioCeilingType`. */
  datatype PortfolioCeilingType = CeilingNone | CeilingPercentageOfPortfolio

  /** The `form.spending` fields read by `percentOfPortfolio`: `percentageOfPortfolioPercentage`,
      `percentageOfPortfolioType` and the floor and ceiling types and percentages. */
  datatype PercentOfPortfolioForm = PercentOfPortfolioForm(
    percentage: real,
    percentageType: PercentageOfPortfolioType,
    floorType: Option<PortfolioFloorType>, floorPercentage: Option<real>,
    ceilingType: Option<PortfolioCeilingType>, ceilingPercentage: Option<real>)

  /** A floor is in effect: bounds are enabled, a floor type other than `"none"` is set and its percentage is present. */
  predicate PercentFloorActive(form: PercentOfPortfolioForm)
  {
    form.percentageType == WithFloorAndCeiling &&
    form.floorType.Some? && form.floorType.value != FloorNone && form.floorPercentage.Some?
  }

  /** A ceiling is in effect: bounds are enabled, the `"percentageOfPortfolio"` type and its percentage are set. */
  predicate PercentCeilingActive(form: PercentOfPortfolioForm)
  {
    form.percentageType == WithFloorAndCeiling &&
    form.ceilingType == Some(CeilingPercentageOfPortfolio) && form.ceilingPercentage.Some?
  }

  /** The fields a floor in effect reads: this year's cumulative inflation for a
      `"percentageOfPortfolio"` floor, the previous year's spending for a `"percentageOfPreviousYear"` one. */
  predicate PercentFloorInputs(form: PercentOfPortfolioForm, prev: YearRecord, cur: YearRecord)
  {
    (form.floorType == Some(FloorPercentageOfPortfolio) ==> cur.cumulativeInflation.Some?) &&
    (form.floorType == Some(FloorPercentageOfPreviousYear) ==> prev.spending.Some?)
  }

  /** Year `i` exists; a bound in effect needs a previous year and the fields it reads. */
  predicate PercentOfPortfolioDefined(form: PercentOfPortfolioForm, sim: Sim, c: nat, i: nat)
  {
    InCycle(sim, c, i) &&
    (PercentFloorActive(form) ==> i > 0 && PercentFloorInputs(form, Year(sim, c, i - 1), Year(sim, c, i))) &&
    (PercentCeilingActive(form) ==> i > 0 && Year(sim, c, i).cumulativeInflation.Some?)
  }

  /** The unbounded amount: `percentage` percent of this year's starting portfolio. */
  function PercentRaw(form: PercentOfPortfolioForm, sim: Sim, c: nat, i: nat): real
    requires InCycle(sim, c, i)
  {
    Year(sim, c, i).portfolio.start * form.percentage / 100.0
  }

  // The portfolio-relative bounds are taken from year i - 1, as the type name
  // "percentageOfPreviousYear" suggests; at yearIndex 1, the only index exercised, this is
  // also the cycle's first year.

  /** The floor: a percentage of the previous year's starting portfolio in this year's money, or a
      percentage of the previous year's spending. */
  function PercentFloorValue(form: PercentOfPortfolioForm, prev: YearRecord, cur: YearRecord): real
    requires PercentFloorActive(form) && PercentFloorInputs(form, prev, cur)
  {
    if form.floorType.value == FloorPercentageOfPortfolio then
      prev.portfolio.start * form.floorPercentage.value / 100.0 * cur.cumulativeInflation.value
    else
      prev.spending.value * form.floorPercentage.value / 100.0
  }

  /** The ceiling: a percentage of the previous year's starting portfolio in this year's money. */
  function PercentCeilingValue(form: PercentOfPortfolioForm, prev: YearRecord, cur: YearRecord): real
    requires PercentCeilingActive(form) && cur.cumulativeInflation.Some?
  {
    prev.portfolio.start * form.ceilingPercentage.value / 100.0 * cur.cumulativeInflation.value
  }

  function PercentFloorBound(form: PercentOfPortfolioForm, sim: Sim, c: nat, i: nat): Option<real>
    requires PercentOfPortfolioDefined(form, sim, c, i)
  {
    if PercentFloorActive(form) then Some(PercentFloorValue(form, Year(sim, c, i - 1), Year(sim, c, i))) else None
  }

  function PercentCeilingBound(form: PercentOfPortfolioForm, sim: Sim, c: nat, i: nat): Option<real>
    requires PercentOfPortfolioDefined(form, sim, c, i)
  {
    if PercentCeilingActive(form) then Some(PercentCeilingValue(form, Year(sim, c, i - 1), Year(sim, c, i))) else None
  }

  /** `percentOfPortfolio.calcSpending(form, sim, c, i)`: a fixed percentage of this year's starting
      portfolio, unbounded under `"constant"`, and kept between the floor and the ceiling in effect
      under `"withFloorAndCeiling"`. */
  function PercentOfPortfolio(form: PercentOfPortfolioForm, sim: Sim, c: nat, i: nat): (r: real)
    requires PercentOfPortfolioDefined(form, sim, c, i)
    ensures form.percentageType == Constant ==> r == Year(sim, c, i).portfolio.start * form.percentage / 100.0
    ensures form.percentageType == WithFloorAndCeiling ==>
      var raw, lo, hi := PercentRaw(form, sim, c, i), PercentFloorBound(form, sim, c, i), PercentCeilingBound(form, sim, c, i);
      (Consistent(lo, hi) ==> Within(r, lo, hi)) &&
      (hi.Some? ==> r <= hi.value) &&
      (Within(raw, lo, hi) ==> r == raw) &&
      (Consistent(lo, hi) && lo.Some? && raw < lo.value ==> r == lo.value) &&
      (hi.Some? && hi.value < raw ==> r == hi.value)
  {
    var raw := PercentRaw(form, sim, c, i);
    if form.percentageType == Constant then raw
    else Clamp(raw, PercentFloorBound(form, sim, c, i), PercentCeilingBound(form, sim, c, i))
  }

  /** Under `"constant"` only year `i`'s own portfolio counts: earlier years and other cycles are ignored. */
  lemma PercentConstantIgnoresEarlierYears(form: PercentOfPortfolioForm, sim1: Sim, sim2: Sim, c1: nat, c2: nat, i1: nat, i2: nat)
    requires form.percentageType == Constant
    requires PercentOfPortfolioDefined(form, sim1, c1, i1) && PercentOfPortfolioDefined(form, sim2, c2, i2)
    requires Year(sim1, c1, i1).portfolio == Year(sim2, c2, i2).portfolio
    ensures PercentOfPortfolio(form, sim1, c1, i1) == PercentOfPortfolio(form, sim2, c2, i2)
  {
  }

  /** A `"percentageOfPortfolio"` floor alone: the larger of the raw amount and
      `P_{i-1} * floorPct / 100 * CI_i`. */
  lemma PercentFloorOfPortfolio(form: PercentOfPortfolioForm, sim: Sim, c: nat, i: nat)
    requires PercentOfPortfolioDefined(form, sim, c, i)
    requires PercentFloorActive(form) && form.floorType.value == FloorPercentageOfPortfolio
    requires !PercentCeilingActive(form)
    ensures var r, raw := PercentOfPortfolio(form, sim, c, i), PercentRaw(form, sim, c, i);
      var lo := Year(sim, c, i - 1).portfolio.start * form.floorPercentage.value / 100.0 *
                Year(sim, c, i).cumulativeInflation.value;
      r >= raw && r >= lo && (r == raw || r == lo)
  {
  }

  /** A `"percentageOfPreviousYear"` floor alone: the larger of the raw amount and
      `spending_{i-1} * floorPct / 100`. */
  lemma PercentFloorOfPreviousYear(form: PercentOfPortfolioForm, sim: Sim, c: nat, i: nat)
    requires PercentOfPortfolioDefined(form, sim, c, i)
    requires PercentFloorActive(form) && form.floorType.value == FloorPercentageOfPreviousYear
    requires !PercentCeilingActive(form)
    ensures var r, raw := PercentOfPortfolio(form, sim, c, i), PercentRaw(form, sim, c, i);
      var lo := Year(sim, c, i - 1).spending.value * form.floorPercentage.value / 100.0;
      r >= raw && r >= lo && (r == raw || r == lo)
  {
  }

  /** A `"percentageOfPortfolio"` ceiling alone: the smaller of the raw amount and
      `P_{i-1} * ceilingPct / 100 * CI_i`. */
  lemma PercentCeilingOfPortfolio(form: PercentOfPortfolioForm, sim: Sim, c: nat, i: nat)
    requires PercentOfPortfolioDefined(form, sim, c, i)
    requires PercentCeilingActive(form) && !PercentFloorActive(form)
    ensures var r, raw := PercentOfPortfolio(form, sim, c, i), PercentRaw(form, sim, c, i);
      var hi := Year(sim, c, i - 1).portfolio.start * form.ceilingPercentage.value / 100.0 *
                Year(sim, c, i).cumulativeInflation.value;
      r <= raw && r <= hi && (r == raw || r == hi)
  {
  }

  /** A bound whose type is `"none"` or absent, or whose percentage is absent, clamps nothing. */
  lemma PercentUnclamped(form: PercentOfPortfolioForm, sim: Sim, c: nat, i: nat)
    requires PercentOfPortfolioDefined(form, sim, c, i)
    requires form.floorType in {None, Some(FloorNone)} || form.floorPercentage.None?
    requires form.ceilingType in {None, Some(CeilingNone)} || form.ceilingPercentage.None?
    ensures PercentOfPortfolio(form, sim, c, i) == PercentRaw(form, sim, c, i)
  {
  }

  /** Year `i`'s percent-of-portfolio spending reads only years `i - 1` and `i` of its own cycle:
      two simulations that agree on those two records give the same amount. */
  lemma PercentOfPortfolioReadsOnlyPast(form: PercentOfPortfolioForm, sim1: Sim, sim2: Sim, c: nat, i: nat)
    requires InCycle(sim1, c, i) && InCycle(sim2, c, i)
    requires Year(sim1, c, i) == Year(sim2, c, i)
    requires i > 0 ==> Year(sim1, c, i - 1) == Year(sim2, c, i - 1)
    requires PercentOfPortfolioDefined(form, sim1, c, i)
    ensures PercentOfPortfolioDefined(form, sim2, c, i)
    ensures PercentOfPortfolio(form, sim1, c, i) == PercentOfPortfolio(form, sim2, c, i)
  {
    assert PercentRaw(form, sim1, c, i) == PercentRaw(form, sim2, c, i);
    assert PercentFloorBound(form, sim1, c, i) == PercentFloorBound(form, sim2, c, i);
    assert PercentCeilingBound(form, sim1, c, i) == PercentCeilingBound(form, sim2, c, i);
  }
}
