# cFIREsim-open: cycle generator and spending policies in Dafny

This project models the two pieces of logic at the heart of cFIREsim-open, a retirement
simulator that replays historical market data:

- **The rolling-window cycle generator** (`simulation` and `cycle` in `js/cFIREsimOpen.js`).
  The form gives a retirement start year and end year. From them, `simulation` works out the
  window length `years`. It then cuts the historical dataset into one *cycle* per start offset.
  `cycle(start, end, data)` copies the `Date` of records `start` to `end - 1`.
  The model is imperative (`simulation_engine.dfy`). The methods `Cycle` and `Simulation` grow a
  sequence in a `while` loop, as the JavaScript pushes into an array. The dataset is an
  `array`, and neither method has a `modifies` clause, so the verifier checks that the data is only
  read. The loop invariants tie the result to the specification functions `CycleOf` and `Windows`.
- **The spending policies** `SpendingModule['variableSpending']` and
  `SpendingModule['percentOfPortfolio']`. Each computes one year's withdrawal with
  `calcSpending(form, sim, cycleIndex, yearIndex)`. They are pure functions over `real`
  (`spending_module.dfy`). The floor and ceiling clamps they share are in `clamps.dfy`. The form
  fields and record fields that may be absent are `Option`s (`options.dfy`). A `null` `sim` is
  `None`.
  - `variableSpending`: year 0 spends `form.spending.initial`. A later year `i` spends
    `((P_i / (P_0 * CI_i) - 1) * z + 1) * initial * CI_i`. Here `P_k` is year `k`'s starting
    portfolio in the cycle, `CI_i` is year `i`'s cumulative inflation and `z` is the z-value.
    The result is then kept at or above `floorValue * CI_i` and at or below `ceilingValue * CI_i`,
    each only when its type is `"definedValue"` and its value is present.
  - `percentOfPortfolio`: spends `P_i * percentage / 100`. Under `"withFloorAndCeiling"` the amount
    is kept between the floor and the ceiling that are in effect. The floor is either
    `P_{i-1} * floorPct / 100 * CI_i` or `spending_{i-1} * floorPct / 100`. The ceiling is
    `P_{i-1} * ceilingPct / 100 * CI_i`.

The implementation file of `SpendingModule` is not part of this model. Its behaviour is pinned
by the assertions of `test/spendingModuleTests.js`. Every `it(...)` case there is a lemma in
`spending_module_tests.dfy` that evaluates the model on the case's literal inputs.

Choices the code and tests fix (the model follows them):

- Cycle count: `js/cFIREsimOpen.js:21` loops to `data.length - years`, which generates one
  window fewer than the `data.length - years + 1` full windows the dataset holds. The model
  follows the code; see "## Findings".
- Variable spending reference: the tests at year index 2 (`test/spendingModuleTests.js:79-99`,
  `:144-163`) only hold when the reference portfolio is the cycle's first year and the base is
  `form.spending.initial`, not the previous year's portfolio and spending. The model uses those.
- `percentOfPortfolio` takes its floor and ceiling from year `i - 1`. The tests only use year
  index 1, where year `i - 1` and the cycle's first year coincide.
- The JavaScript `simulation` returns nothing and only logs `sim`. The model returns `sim`.
- Inside a cycle there is no per-year spending or portfolio update: `js/cFIREsimOpen.js` has no
  such loop, so the model has none.

## Model

| member | source | states |
|---|---|---|
| SimulationEngine.WindowLength | js/cFIREsimOpen.js:20 | the window runs from the start year to the end year inclusive (`start + years - 1 == end`); it is non-empty exactly when start <= end |
| SimulationEngine.CycleOf | js/cFIREsimOpen.js:30-36 | a cycle from `start` to `end` has `max(0, end - start)` entries, and entry `j` is `data[start + j].Date` |
| SimulationEngine.Cycle | js/cFIREsimOpen.js:30-37 | the loop pushes exactly `CycleOf(data, start, end)`; it reads only records inside `data` and changes none |
| SimulationEngine.Windows | js/cFIREsimOpen.js:21-26 | `count` windows (none when count <= 0); window `i` is the cycle from `i` to `i + years`, so cycles appear in ascending start-offset order |
| SimulationEngine.Simulation | js/cFIREsimOpen.js:19-28 | as written: the result is `Windows(data, years, data.length - years)`, so there are `max(0, data.length - years)` cycles and none when `data.length <= years`; `data` is only read |
| SimulationEngine.AsWrittenReadIndices | js/cFIREsimOpen.js:21-34 | as written with `years > 0`: entry `j` of cycle `i` is record `i + j`, and every index read lies in `0 .. data.length - 2` |
| SimulationEngine.LastRecordNeverRead | js/cFIREsimOpen.js:21-34 | as written: dropping the final record leaves every generated cycle unchanged |
| SimulationEngine.AsWrittenMissesLastWindow | js/cFIREsimOpen.js:21 | as written: the full window at offset `data.length - years` fits, yet only offsets below it are generated |
| SimulationEngine.AsWrittenThreeRecordsThreeYears | js/cFIREsimOpen.js:20-21 | three records and retirement 2020-2022: a full window fits, but no cycle is generated |
| SimulationEngine.SimulationAllWindows | js/cFIREsimOpen.js:19-28 | with the bound `data.length - years + 1`: the result is `Windows(data, years, data.length - years + 1)` |
| SimulationEngine.AllWindowsCovered | js/cFIREsimOpen.js:21 | with the corrected bound, an offset is generated exactly when its full window fits inside the data |
| SimulationEngine.AllWindowsReadLastRecord | js/cFIREsimOpen.js:21-24 | with the corrected bound, the last cycle ends with the final record's date |
| SimulationEngine.AllWindowsThreeRecordsThreeYears | js/cFIREsimOpen.js:21-24 | three records, three years: the corrected bound yields the one window `[1960, 1961, 1962]` |
| Clamps.ApplyFloor | test/spendingModuleTests.js:36-77 | a floor gives the larger of the amount and the floor; an absent floor leaves the amount |
| Clamps.ApplyCeiling | test/spendingModuleTests.js:79-122 | a ceiling gives the smaller of the amount and the ceiling; an absent ceiling leaves the amount |
| Clamps.Clamp | test/spendingModuleTests.js:36-185 | the result respects the ceiling; it respects the floor when floor <= ceiling; it is the amount itself when within both bounds, the floor when the amount is below a floor <= ceiling, and the ceiling when the amount is above it; so with consistent bounds it is fully determined |
| Clamps.ClampIdempotent | test/spendingModuleTests.js:36-185 | re-applying a floor, a ceiling or both to a clamped amount changes nothing |
| Clamps.ClampOrderIrrelevant | test/spendingModuleTests.js:36-185 | when floor <= ceiling, clamping ceiling-first gives the same amount as floor-first |
| Clamps.ClampOrderMatters | test/spendingModuleTests.js:36-185 | with a floor above the ceiling the order is observable: floor-first yields the ceiling |
| Clamps.ClampMonotone | test/spendingModuleTests.js:36-185 | clamping never reverses the order of two amounts |
| SpendingModule.AdjustedSpending | test/spendingModuleTests.js:18-34 | spending keeps its real value (`initial * CI`) when the portfolio kept pace with inflation or when z = 0; with z = 1 it is `initial * P_i / P_0` |
| SpendingModule.VariableSpending | test/spendingModuleTests.js:5-185 | year 0 gives `initial` even with a null `sim`; a later year gives the adjusted amount when it is within the defined floor and ceiling, the floor when the adjusted amount is below a floor <= ceiling, and the ceiling when it is above the ceiling; it never exceeds a defined ceiling, and it stays at or above a defined floor when floor <= ceiling |
| SpendingModule.VariableUnbounded | test/spendingModuleTests.js:18-34 | with no defined floor or ceiling, or a `"definedValue"` bound without a value, year `i > 0` spends `((P_i/(P_0*CI_i) - 1)*z + 1) * initial * CI_i` |
| SpendingModule.VariableFloorOnly | test/spendingModuleTests.js:36-55 | a defined floor alone gives `max(adjusted, floorValue * CI_i)` |
| SpendingModule.VariableCeilingOnly | test/spendingModuleTests.js:166-185 | a defined ceiling alone gives `min(adjusted, ceilingValue * CI_i)` |
| SpendingModule.AdjustedSpendingMonotone | test/spendingModuleTests.js:18-142 | with z >= 0, initial >= 0 and positive `P_0` and `CI`, a larger portfolio never gives a smaller adjusted amount |
| SpendingModule.VariableSpendingMonotone | test/spendingModuleTests.js:18-185 | the same holds for the whole policy, floor and ceiling included, when only year `i`'s portfolio grows |
| SpendingModule.VariableSpendingReadsOnlyPast | test/spendingModuleTests.js:79-99 | year `i`'s variable spending depends only on years `0 .. i` of its own cycle |
| SpendingModule.PercentOfPortfolio | test/spendingModuleTests.js:189-430 | `"constant"` gives exactly `P_i * pct / 100`; `"withFloorAndCeiling"` gives that amount when it is within the bounds in effect, the floor when the amount is below a floor <= ceiling, and the ceiling when it is above the ceiling; it never exceeds the ceiling, and respects the floor when floor <= ceiling |
| SpendingModule.PercentConstantIgnoresEarlierYears | test/spendingModuleTests.js:193-208 | under `"constant"` two years with the same portfolio give the same spending, whatever the earlier years or other cycles hold |
| SpendingModule.PercentFloorOfPortfolio | test/spendingModuleTests.js:212-233 | a `"percentageOfPortfolio"` floor alone gives `max(raw, P_{i-1} * floorPct/100 * CI_i)` |
| SpendingModule.PercentFloorOfPreviousYear | test/spendingModuleTests.js:238-259 | a `"percentageOfPreviousYear"` floor alone gives `max(raw, spending_{i-1} * floorPct/100)` |
| SpendingModule.PercentCeilingOfPortfolio | test/spendingModuleTests.js:357-378 | a `"percentageOfPortfolio"` ceiling alone gives `min(raw, P_{i-1} * ceilingPct/100 * CI_i)` |
| SpendingModule.PercentUnclamped | test/spendingModuleTests.js:262-333 | a bound whose type is `"none"` or missing, or whose percentage is missing, leaves `raw` unclamped |
| SpendingModule.PercentOfPortfolioReadsOnlyPast | test/spendingModuleTests.js:210-260 | two simulations that agree on records `i - 1` and `i` of cycle `c` (only record `i` at year index 0) give the same percent-of-portfolio spending in year `i`; no other year or cycle is read |
| SpendingModuleTests.VariableFirstYearIsInitial | test/spendingModuleTests.js:5-14 | year 0 with a null `sim` spends 40000 |
| SpendingModuleTests.VariableDecreaseAdjusts | test/spendingModuleTests.js:18-34 | 1,000,000 to 900,000 with CI 1.05 and z 0.5 gives the adjusted amount |
| SpendingModuleTests.VariableDecreaseHitsFloor | test/spendingModuleTests.js:38-54 | the same year with floor 40000 gives `40000 * 1.05` |
| SpendingModuleTests.VariableDecreaseFloorNull | test/spendingModuleTests.js:59-76 | a `"definedValue"` floor without a value applies no floor |
| SpendingModuleTests.VariableDecreaseBelowCeiling | test/spendingModuleTests.js:81-99 | at year 2 the reference is year 0, and the ceiling of 60000 is not hit |
| SpendingModuleTests.VariableDecreaseCeilingNull | test/spendingModuleTests.js:104-121 | a `"definedValue"` ceiling without a value applies no ceiling |
| SpendingModuleTests.VariableIncreaseAdjusts | test/spendingModuleTests.js:127-142 | 1,000,000 to 1,100,000 with CI 1 and z 0.5 gives 42000 |
| SpendingModuleTests.VariableIncreaseAboveFloor | test/spendingModuleTests.js:146-163 | at year 2, floor 40000, the result is 42000 |
| SpendingModuleTests.VariableIncreaseHitsCeiling | test/spendingModuleTests.js:168-185 | 1,000,000 to 3,000,000 hits the ceiling `60000 * 1.05` |
| SpendingModuleTests.PercentConstantDecrease | test/spendingModuleTests.js:193-208 | `"constant"` 4% of 900,000 |
| SpendingModuleTests.PercentPortfolioFloorHit | test/spendingModuleTests.js:212-233 | a 3% portfolio floor with CI 1.1 gives `1000000 * 0.03 * 1.1` |
| SpendingModuleTests.PercentPreviousYearFloorHit | test/spendingModuleTests.js:238-259 | a 95% previous-year floor gives `40000 * 0.95` |
| SpendingModuleTests.PercentFloorNoLimit | test/spendingModuleTests.js:264-284 | floor type `"none"` gives 4% of 900,000 |
| SpendingModuleTests.PercentNoFloorPercentage | test/spendingModuleTests.js:289-308 | a portfolio floor without a percentage gives 4% of 900,000 |
| SpendingModuleTests.PercentNoFloorPercentagePreviousYear | test/spendingModuleTests.js:313-332 | a previous-year floor without a percentage gives 4% of 900,000 |
| SpendingModuleTests.PercentConstantIncrease | test/spendingModuleTests.js:338-353 | `"constant"` 4% of 1,100,000 |
| SpendingModuleTests.PercentPortfolioCeilingHit | test/spendingModuleTests.js:357-378 | a 6% portfolio ceiling with CI 1.1 gives `1000000 * 0.06 * 1.1` |
| SpendingModuleTests.PercentCeilingNoLimit | test/spendingModuleTests.js:383-403 | ceiling type `"none"` gives 4% of 2,000,000 |
| SpendingModuleTests.PercentNoCeilingPercentage | test/spendingModuleTests.js:408-427 | a portfolio ceiling without a percentage gives 4% of 900,000 |

## Left out

- The jQuery ready and click handlers and the `$.ajax` POST to `getData.php` (js/cFIREsimOpen.js:1-17) are not modelled. They are network I/O, and they pass an undefined global `formData`.
- `console.log(sim)` (js/cFIREsimOpen.js:27) is output. The model returns `sim` instead.
- `retirementStartYear: new Date().getFullYear()` in the test forms reads the clock and affects no asserted value, so it is omitted.
- IEEE double rounding is not modelled: money is `real`, and the expected values are compared exactly.
- The lookup `SpendingModule[policy]` by string key is not modelled. Each policy is its own function, and an unknown policy name cannot be expressed.
- Inputs the tests do not pin are excluded by preconditions:
  - `VariableSpendingDefined`, at a year index above 0: a missing z-value or `cumulativeInflation` (the source may default the latter to 1), and `P_0 * CI_i == 0`. Year index 0 needs nothing: it returns `initial`, unclamped, even with a null `sim`;
  - `PercentOfPortfolioDefined`: a floor or ceiling in effect at year index 0, where no previous year exists, and a missing `cumulativeInflation` or previous-year `spending` that a bound in effect reads.
- A `"percentageOfPreviousYear"` ceiling type is not modelled. No test exercises it.
- JavaScript truthiness (a `floorValue` of 0) is not modelled. A field is either absent or present.
- VariableSpending: when the floor lies above the ceiling, the result is the ceiling, because the floor is applied first. The tests do not pin this order; `ClampOrderIrrelevant` shows that the order matters only in that case.
- PercentOfPortfolio: the same floor-then-ceiling order is a choice of the model, for the same reason.
- A fixed-spending policy, portfolio growth between years, and the per-year update of a cycle are not modelled. None of them is in the modelled source.

## Findings

| source | as written | input that shows it | evidently intended | confidence | as-written member | corrected member |
|---|---|---|---|---|---|---|
| js/cFIREsimOpen.js:21 | `cycles = data.length - years`, so the offsets are `0 .. data.length - years - 1` and the final record is never read | three records and retirement 2020-2022 (`years == 3`): no cycle, although records 0-2 form a full window | `data.length - years + 1` cycles: every full window, including the one ending at the last record | medium, not executed | SimulationEngine.AsWrittenMissesLastWindow | SimulationEngine.AllWindowsCovered |
