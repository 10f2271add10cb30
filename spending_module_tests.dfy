/** The cases of test/spendingModuleTests.js, one lemma per `it(...)`: each evaluates a policy on
    the case's literal form and simulation and states the expected amount. */
module SpendingModuleTests {
  import opened Options
  import opened SpendingModule

  /** A year whose record carries only `portfolio.start`. */
  function Start(p: real): YearRecord
  {
    YearRecord(Portfolio(p), None, None)
  }

  /** A year whose record carries `portfolio.start` and `cumulativeInflation`. */
  function Inflated(p: real, ci: real): YearRecord
  {
    YearRecord(Portfolio(p), Some(ci), None)
  }

  function Variable(floor: BoundType, floorValue: Option<real>, ceiling: BoundType, ceilingValue: Option<real>): VariableSpendingForm
  {
    VariableSpendingForm(40000.0, Some(0.5), floor, floorValue, ceiling, ceilingValue)
  }

  function Bounded(floorType: Option<PortfolioFloorType>, floorPercentage: Option<real>,
                   ceilingType: Option<PortfolioCeilingType>, ceilingPercentage: Option<real>): PercentOfPortfolioForm
  {
    PercentOfPortfolioForm(4.0, WithFloorAndCeiling, floorType, floorPercentage, ceilingType, ceilingPercentage)
  }

  function Constant4(): PercentOfPortfolioForm
  {
    PercentOfPortfolioForm(4.0, Constant, None, None, None, None)
  }

  // variableSpending

  lemma VariableFirstYearIsInitial()
    ensures VariableSpending(VariableSpendingForm(40000.0, None, NoBound, None, NoBound, None), None, 0, 0) == 40000.0
  {
  }

  lemma VariableDecreaseAdjusts()
    ensures VariableSpending(Variable(NoBound, None, NoBound, None),
                             Some([[Start(1000000.0), Inflated(900000.0, 1.05)]]), 0, 1)
            == (((900000.0 / (1000000.0 * 1.05) - 1.0) * 0.5) + 1.0) * 40000.0 * 1.05
  {
  }

  lemma VariableDecreaseHitsFloor()
    ensures VariableSpending(Variable(DefinedValue, Some(40000.0), NoBound, None),
                             Some([[Start(1000000.0), Inflated(900000.0, 1.05)]]), 0, 1)
            == 40000.0 * 1.05
  {
  }

  lemma VariableDecreaseFloorNull()
    ensures VariableSpending(Variable(DefinedValue, None, NoBound, None),
                             Some([[Start(1000000.0), Inflated(900000.0, 1.05)]]), 0, 1)
            == (((900000.0 / (1000000.0 * 1.05) - 1.0) * 0.5) + 1.0) * 40000.0 * 1.05
  {
  }

  lemma VariableDecreaseBelowCeiling()
    ensures VariableSpending(Variable(NoBound, None, DefinedValue, Some(60000.0)),
                             Some([[Start(1000000.0), Start(3000000.0), Inflated(1000000.0, 1.05)]]), 0, 2)
            == (((1000000.0 / (1000000.0 * 1.05) - 1.0) * 0.5) + 1.0) * 40000.0 * 1.05
  {
  }

  lemma VariableDecreaseCeilingNull()
    ensures VariableSpending(Variable(NoBound, None, DefinedValue, None),
                             Some([[Start(1000000.0), Inflated(2000000.0, 1.05)]]), 0, 1)
            == (((2000000.0 / (1000000.0 * 1.05) - 1.0) * 0.5) + 1.0) * 40000.0 * 1.05
  {
  }

  lemma VariableIncreaseAdjusts()
    ensures VariableSpending(Variable(NoBound, None, NoBound, None),
                             Some([[Start(1000000.0), Inflated(1100000.0, 1.0)]]), 0, 1)
            == 42000.0
  {
  }

  lemma VariableIncreaseAboveFloor()
    ensures VariableSpending(Variable(DefinedValue, Some(40000.0), NoBound, None),
                             Some([[Start(1000000.0), Start(900000.0), Inflated(1100000.0, 1.0)]]), 0, 2)
            == 42000.0
  {
  }

  lemma VariableIncreaseHitsCeiling()
    ensures VariableSpending(Variable(NoBound, None, DefinedValue, Some(60000.0)),
                             Some([[Start(1000000.0), Inflated(3000000.0, 1.05)]]), 0, 1)
            == 60000.0 * 1.05
  {
  }

  // percentOfPortfolio

  lemma PercentConstantDecrease()
    ensures PercentOfPortfolio(Constant4(), Some([[Start(1000000.0), Start(900000.0)]]), 0, 1) == 900000.0 * 0.04
  {
  }

  lemma PercentPortfolioFloorHit()
    ensures PercentOfPortfolio(Bounded(Some(FloorPercentageOfPortfolio), Some(3.0), Some(CeilingNone), None),
                               Some([[Start(1000000.0), Inflated(500000.0, 1.1)]]), 0, 1)
            == 1000000.0 * 0.03 * 1.1
  {
  }

  lemma PercentPreviousYearFloorHit()
    ensures PercentOfPortfolio(Bounded(Some(FloorPercentageOfPreviousYear), Some(95.0), Some(CeilingNone), None),
                               Some([[YearRecord(Portfolio(1000000.0), None, Some(40000.0)), Start(900000.0)]]), 0, 1)
            == 40000.0 * 0.95
  {
  }

  lemma PercentFloorNoLimit()
    ensures PercentOfPortfolio(Bounded(Some(FloorNone), None, Some(CeilingNone), None),
                               Some([[Start(1000000.0), Start(900000.0)]]), 0, 1)
            == 900000.0 * 0.04
  {
  }

  lemma PercentNoFloorPercentage()
    ensures PercentOfPortfolio(Bounded(Some(FloorPercentageOfPortfolio), None, None, None),
                               Some([[Start(1000000.0), Start(900000.0)]]), 0, 1)
            == 900000.0 * 0.04
  {
  }

  lemma PercentNoFloorPercentagePreviousYear()
    ensures PercentOfPortfolio(Bounded(Some(FloorPercentageOfPreviousYear), None, None, None),
                               Some([[Start(1000000.0), Start(900000.0)]]), 0, 1)
            == 900000.0 * 0.04
  {
  }

  lemma PercentConstantIncrease()
    ensures PercentOfPortfolio(Constant4(), Some([[Start(1000000.0), Start(1100000.0)]]), 0, 1) == 1100000.0 * 0.04
  {
  }

  lemma PercentPortfolioCeilingHit()
    ensures PercentOfPortfolio(Bounded(Some(FloorNone), None, Some(CeilingPercentageOfPortfolio), Some(6.0)),
                               Some([[Start(1000000.0), Inflated(2000000.0, 1.1)]]), 0, 1)
            == 1000000.0 * 0.06 * 1.1
  {
  }

  lemma PercentCeilingNoLimit()
    ensures PercentOfPortfolio(Bounded(Some(FloorNone), None, Some(CeilingNone), None),
                               Some([[Start(1000000.0), Start(2000000.0)]]), 0, 1)
            == 2000000.0 * 0.04
  {
  }

  lemma PercentNoCeilingPercentage()
    ensures PercentOfPortfolio(Bounded(None, None, Some(CeilingPercentageOfPortfolio), None),
                               Some([[Start(1000000.0), Start(900000.0)]]), 0, 1)
            == 900000.0 * 0.04
  {
  }
}
