# Battery cost decline model in Dafny

This project models the computational core of the battery-cost forecasting widget (`script.js`). The widget tracks three battery chemistries: LFP, NMC-811 and sodium-ion. Each chemistry has three parameters:

- a baseline cost per kWh;
- a materials floor;
- a learning rate.

The widget projects each chemistry's cost over a forecast horizon using the experience-curve law (Wright's Law):

  cost = floor + (baseline − floor) · (1 − learningRate)^doublings

The result is clamped at the floor. The number of production doublings reached by each forecast year follows one of four adoption shapes:

- linear;
- front-loaded (`front`);
- back-loaded (`back`);
- a normalised logistic (`s-curve`).

Every change to the controls or to a chemistry card recomputes the whole forecast. The recomputation:

- raises the start year to at least 2024 and writes it back to its control;
- builds the list of forecast years and the doublings of each year;
- computes one cost series per chemistry (`costMap`);
- merges the sorted, de-duplicated historical years with the forecast years;
- gives each year of the merged timeline a plotted value and a "history" flag;
- reports the percentage change of the final cost against the baseline.

The modules follow the structure of the program:

| file | module | what it holds |
|---|---|---|
| `basics.dfy` | `Basics` | `Option` (number or null), `Math.max`/`Math.min`, `new Map(entries)`, `filter` against a list |
| `math_laws.dfy` | `MathLaws` | `Math.pow` and `Math.exp` as a parameter `MathFns` together with the laws the proofs use. A concrete pair of functions satisfies every law at once (`LawsAreSatisfiable`), so the laws are consistent. |
| `chemistries.dfy` | `Chemistries` | the default chemistries and the per-field edit |
| `adoption.dfy` | `Adoption` | `adoptionProgress` and its properties |
| `cost.dfy` | `Cost` | `computeCost` and its properties |
| `history.dfy` | `History` | the historical series, `historyYears` and the per-chemistry history lookup |
| `forecast.dfy` | `Forecast` | the computation of `updateModel`, as functions over sequences with lemmas |
| `dashboard.dfy` | `Dashboard` | the loop filling `costMap` and the mutable widget state (`class Model`): recompute, guarded field edit, reset to defaults |

Two consequences of the final `Math.max` in `computeCost` are worth stating plainly:

- At zero doublings the cost is `max(floor, baseline)` (`Cost.CostAtZeroDoublings`).
- A baseline at or below the floor is pinned at the floor for every doubling count (`Cost.CostPinnedAtFloor`).

## Model

| member | source | states |
|---|---|---|
| Basics.Max | script.js:421 | `Math.max`: the result is at least both arguments and is one of them |
| Basics.Min | script.js:419 | `Math.min`: the result is at most both arguments and is one of them |
| Basics.MapOfEntries | script.js:518 | `new Map(entries)`: a key is present iff some entry carries it, and it maps to the value of the last entry with that key |
| Basics.Without | script.js:521 | `filter((y) => !excluded.includes(y))`: exactly the elements not excluded, with ascending order and distinctness preserved |
| Chemistries.Default | script.js:1-29 | each default chemistry carries its own id |
| Chemistries.Defaults | script.js:1-31 | the default table holds every chemistry under its own id, each equal to its default |
| Chemistries.DefaultsWellBehaved | script.js:1-29 | every default baseline is above its floor, and every default learning rate is strictly between 0 and 1 |
| Chemistries.StoredValue | script.js:189 | both branches of the conditional store the parsed value unchanged |
| Chemistries.WithField | script.js:189 | setting a field changes exactly that field and keeps the id |
| Chemistries.Edited | script.js:185-191 | an edit sets the field of that chemistry, leaves its other fields and every other chemistry unchanged, and keeps every chemistry present |

| Adoption.ShapeOf | script.js:401-413 | the `switch (shape)`: "front", "back" and "s-curve" pick their cases and every other name the default (linear) case; its effect is stated by `LinearProgress` and the other progress lemmas |
| Adoption.Logistic | script.js:407 | the logistic term; `LogisticMonotone` and `LogisticReflect` state its properties |
| Adoption.SCurveLow | script.js:408 | `min`; `SCurveEnds` states that it is the logistic at t = 0 |
| Adoption.SCurveHigh | script.js:409 | `max`; `SCurveEnds` states that it is the logistic at t = 1 |
| Adoption.SCurveValue | script.js:406-411 | the normalised s-curve; `SCurveSpread`, `SCurveEnds` and `SCurveSymmetric` state its contract |
| Adoption.AdoptionProgress | script.js:398-415 | `adoptionProgress`; its contract is stated by `SingleStepIsComplete`, `LinearProgress`, `ProgressEndpoints`, `ProgressInUnitInterval`, `ProgressMonotone` and `SCurveSymmetric` |
| Adoption.SCurveSpread | script.js:407-410 | `max − min` is positive, so the s-curve quotient is defined and the `\|\| 0` fallback never fires |

| Adoption.SCurveEnds | script.js:406-411 | the logistic at t = 0 and t = 1 coincides with `min` and `max`, so the s-curve is exactly 0 at t = 0 and exactly 1 at t = 1 |
| Adoption.LogisticMonotone | script.js:407 | the logistic never decreases in t |
| Adoption.LogisticReflect | script.js:407 | logistic(t) + logistic(1 − t) = 1 |
| Adoption.SingleStepIsComplete | script.js:398-399 | progress is 1 whenever `total <= 1`, whatever the index and shape |
| Adoption.LinearProgress | script.js:400-413 | for the linear/default shape, progress is `index / (total − 1)` and lies in [0, 1] |
| Adoption.ProgressEndpoints | script.js:398-415 | for every shape, progress is 0 at index 0 and 1 at the last index |
| Adoption.ProgressInUnitInterval | script.js:398-415 | for every shape, progress stays within [0, 1] over the horizon |
| Adoption.ProgressMonotone | script.js:398-415 | for every shape, progress never decreases along the horizon |
| Adoption.SCurveSymmetric | script.js:406-411 | the s-curve is point-symmetric: progress at step i and at step total − 1 − i add up to 1 |
| Adoption.SCurveMidpoint | script.js:406-411 | with 11 steps the s-curve is exactly 0.5 at the middle step |
| Cost.Retention | script.js:419 | the retention ratio always lies in [0, 1]: it is 1 − learningRate inside that range, 0 for a learning rate of 1 or more, and 1 for a non-positive learning rate |
| Cost.ComputeCost | script.js:417-422 | the cost is never below the floor, for any inputs |
| Cost.CostAtZeroDoublings | script.js:417-422 | at 0 doublings the cost is `max(floor, baseline)`, and exactly the baseline when the baseline is not below the floor |
| Cost.CostWithinBand | script.js:417-422 | a chemistry whose baseline is not below its floor costs between floor and baseline for any non-negative doublings |
| Cost.CostNonIncreasing | script.js:417-422 | more doublings never raise the cost, for every chemistry |
| Cost.CostPinnedAtFloor | script.js:420-421 | a chemistry whose baseline is at or below its floor costs exactly the floor |
| Cost.CostAboveFloor | script.js:420-421 | wherever the power is non-negative, a chemistry at or above its floor costs the unclamped law, so the `Math.max` never bites |
| Cost.CostAtWholeDoublings | script.js:420 | after n whole doublings, the part of the cost above the floor is the baseline's part times ratioⁿ |
| Cost.CostMarginShrinks | script.js:420 | each further doubling keeps exactly the retention ratio of the part of the cost above the floor |
| Cost.LfpAfterOneDoubling | script.js:417-422 | default LFP costs 51.64 after one doubling |
| Cost.LfpAfterFiveDoublings | script.js:417-422 | default LFP costs 34.258624 after five doublings |
| History.HistoricalData | script.js:35-69 | the recorded (year, cost) series of each chemistry, value for value; `HistoryYearsSpec` and `HistoryLookupSpec` state what is derived from them |
| History.AllObservedYears | script.js:72-74 | the `flatMap` over the three series; `ObservedYearsListed` states its contents |
| History.HistoryYears | script.js:71-77 | `historyYears`; its contract is `HistoryYearsSpec` |
| History.HistoryLookup | script.js:529 | `historyLookup`; its contract is `HistoryLookupSpec` |
| History.UpTo | script.js:75 | the filter keeps exactly the years up to the bound |
| History.Insert | script.js:76-77 | inserting into a strictly ascending list keeps it strictly ascending and adds exactly the new year |
| History.SortedDistinct | script.js:71-77 | `Array.from(new Set(s)).sort(...)`: strictly ascending, with exactly the elements of s |
| History.AscendingDeterminedByElements | script.js:71-77 | a strictly ascending list is determined by its elements, so the result does not depend on the order in which the set and the sort visit them |
| History.ObservedYearsListed | script.js:72-74 | the flattened list holds exactly the years observed for some chemistry |
| History.HistoryYearsSpec | script.js:71-77 | `historyYears` is strictly ascending, ends no later than 2024, and holds exactly the observed years up to 2024 |
| History.HistoryLookupSpec | script.js:529 | the lookup has a year iff the series observes it, and then gives that observation's cost when the year occurs once |
| Forecast.EffectiveStart | script.js:509-512 | the effective start year is `max(startYear, 2024)` |
| Forecast.ForecastYears | script.js:514 | `forecastYears`; its contract is `ForecastYearsSpec` |
| Forecast.ForecastYearsSpec | script.js:514 | `forecastYears` has length `years`, element i is start + i, it is strictly ascending, and it holds exactly the years in [start, start + years) |
| Forecast.Progresses | script.js:515-517 | the adoption progress of every forecast step; its contract is `ProgressesSpec` |
| Forecast.Scaled | script.js:516 | the multiplication of each progress by `totalDoublings`; its contract is `ScaledSpec` |
| Forecast.ScaledSpec | script.js:516 | scaling by non-negative total doublings keeps the order of the entries and maps [0, 1] into [0, total] |
| Forecast.DoublingsByYear | script.js:515-517 | `doublingsByYear`; its contract is stated by `DoublingsAt` and `DoublingsSpec` |
| Forecast.DoublingsAt | script.js:515-517 | `doublingsByYear[i] = adoptionProgress(i, years, shape) · totalDoublings` |
| Forecast.ProgressesSpec | script.js:515-517 | the progress of the steps starts at 0, ends at 1, never decreases and stays within [0, 1] |
| Forecast.DoublingsSpec | script.js:515-517 | with non-negative total doublings, the doublings start at 0, reach the total in the last year, never decrease and stay within [0, total] |
| Forecast.CostSeries | script.js:528 | `costs`; its contract is stated by `ForecastCostsAt` and `ForecastCostsSpec` |
| Forecast.ForecastCostsAt | script.js:528 | each chemistry's cost list is aligned index for index with the forecast years, holding the cost at that year's doublings |
| Forecast.ForecastCostsSpec | script.js:528 | each forecast cost is at least the floor; the costs never rise; the first is `max(floor, baseline)`; the last is the cost at the total doublings; and the costs stay at most the baseline when the baseline is not below the floor |
| Forecast.ForecastIndexByYear | script.js:518 | `forecastIndexByYear`; its contract is `ForecastIndexSpec` |
| Forecast.ForecastIndexSpec | script.js:518 | `forecastIndexByYear` holds exactly the forecast years, each mapped to its offset from the start |
| Forecast.CombinedYears | script.js:519-522 | `combinedYears`; its contract is stated by `CombinedYearsSpec` and `CombinedYearsAscending` |
| Forecast.CombinedYearsSpec | script.js:519-522 | the merged timeline holds exactly the historical and forecast years, starts with the historical years unchanged, and repeats no year when neither input does |
| Forecast.CombinedYearsAscending | script.js:519-522 | with history ending at or before 2024 and the forecast starting at or after it, the merged timeline is strictly ascending |
| Forecast.CostAt | script.js:541-546 | `costs[i]` is a number exactly for an index inside the series |
| Forecast.Get | script.js:544 | `Map.get` finds exactly the present keys |
| Forecast.PointFor | script.js:533-555 | the point of one timeline year; its contract is stated by `PointValue`, `PointPrecedence` and, inside a forecast, `ForecastPoints` |
| Forecast.PointValue | script.js:533-555 | a point takes the indexed cost when its year is in the index. Otherwise it takes the baseline at 2024, the recorded cost or null before 2024, and null after 2024. The history flag is `year <= 2024`. |
| Forecast.PointPrecedence | script.js:533-555 | for an index that maps exactly the forecast years to their offsets, as `forecastIndexByYear` does (`ForecastIndexSpec`), a forecast year takes its forecast cost, overriding history and baseline. Otherwise 2024 takes the current baseline and an earlier year its historical cost or null. A later year outside the forecast is null, because the branch at lines 543-547 never assigns. The history flag holds exactly for years up to 2024. |
| Forecast.Dataset | script.js:533-555 | `dataset.data`, one point per timeline year; `ForecastSeries` and `ForecastPoints` state its contents |
| Forecast.ForecastPoints | script.js:533-555 | in a forecast, the point of each timeline year has that year as x. A forecast year takes its forecast cost, ahead of history and baseline. Otherwise 2024 takes the current baseline, an earlier year its recorded cost or null, and a later year null. The history flag holds exactly for years up to 2024. |
| Forecast.PercentChange | script.js:430-431 | the change exists exactly when there is a final cost and the baseline is non-zero |
| Forecast.ChangeDirection | script.js:430-434 | with a positive baseline, the change is non-negative (down arrow) exactly when the final cost is at or below the baseline |
| Forecast.ForecastChangeBounds | script.js:430-431 | for a chemistry above its floor, the reported fall lies between 0 and the floor's headroom `(baseline − floor) / baseline · 100` |
| Forecast.SeriesFor | script.js:526-558 | one chemistry's costs, points and change; `ForecastSeries` and `ForecastPoints` state them |
| Forecast.SeriesMap | script.js:524-559 | `costMap` with every chemistry's series; `CollectSeries` and `SeriesMapUnique` state that the loop builds it |
| Forecast.SeriesMapUnique | script.js:524-559 | a map holding the series of every chemistry is `costMap` |
| Forecast.ForecastWith | script.js:504-559 | the computation of `updateModel` over a given list of historical years; its contract is stated by `ForecastTimeline`, `ForecastSeries` and `ForecastPoints` |
| Forecast.ForecastOf | script.js:504-559 | the same over `historyYears`; `ForecastTimelineOfHistory` and `DefaultScenario` state its contract |
| Forecast.Recompute | script.js:504-559 | `updateModel` as a whole. It gives no forecast exactly when there are no forecast years, because the first chemistry's summary then calls `toFixed` on an undefined last cost (lines 430-432, reached from line 558) and throws. Otherwise it gives the full forecast. |
| Forecast.ForecastTimeline | script.js:504-522 | a forecast starts at the clamped year and covers the requested number of consecutive years. The merged timeline keeps the historical years in front and adds every forecast year, and it is strictly ascending when the history is strictly ascending and ends no later than 2024. |
| Forecast.ForecastTimelineOfHistory | script.js:519-522 | over the recorded history, the merged timeline is strictly ascending and holds exactly the observed years up to 2024 and the forecast years |
| Forecast.ForecastSeries | script.js:524-559 | every chemistry has a series. Its costs are the cost law over the forecast doublings, one per forecast year. Its points follow the merged timeline one for one. Its change compares the final cost with its baseline. |
| Forecast.DefaultScenario | script.js:574-577 | with the default controls (2024, 12 years, 5 doublings, linear), LFP costs 59 in the first forecast year and 34.258624 in the last |
| Dashboard.CollectSeries | script.js:524-559 | the `forEach` loop fills `costMap` with exactly the series of every chemistry |
| Dashboard.BuildForecast | script.js:504-559 | the step-by-step recomputation (clamp, timeline, loop) yields the forecast the specification functions define |
| Dashboard.Model.constructor | script.js:31 | the state starts from a copy of the default chemistries |
| Dashboard.Model.UpdateModel | script.js:504-559 | the recomputation writes the clamped start year back and leaves the chemistries alone. It returns `Recompute` of the current state: nothing when there are no forecast years, the forecast otherwise. The result equals the one before the clamp. |
| Dashboard.Model.EditField | script.js:184-192 | a non-finite parse changes nothing. A finite one edits only that field of that chemistry and then recomputes, with the result of `updateModel`. |
| Dashboard.Model.ResetDefaults | script.js:568-581 | reset makes every chemistry equal to its default and restores the default controls. It then recomputes, and with twelve forecast years it always yields the forecast. |

## Left out

- DOM and display: card construction, refreshing, summary cards, the forecast and history tables, the value labels and the event-listener wiring. `toFixed` formatting and the arrow glyphs are also left out, and so are a chemistry's display name, badge and colour. These only render values the model computes.
- Chart.js: the chart configuration, `chart.update` and the materials chart. This code belongs to an external library.
- The colour helpers `hexToRgb`, `mixWithWhite` and `withAlpha`. They only affect display.
- `Math.pow` and `Math.exp`: they are not defined here. They enter as a parameter together with the laws the proofs use: whole exponents, non-negativity, monotonicity, and the values at 0 and 1 for `pow`; positivity, strict increase and exp(−x) · exp(x) = 1 for `exp`. Their real analysis is not modelled.
- IEEE floating point: costs, doublings and progress are exact reals. Rounding, NaN and infinities are not modelled.
- The limit of the cost as doublings grow without bound. It needs real analysis of `Math.pow`.
- `parseFloat` and `Number.isFinite`. An edit receives its input already parsed, as a finite number or as not finite.
- The controls' values are read as numbers. The number of forecast years is a whole non-negative number, as its range input yields. The controls' initial values come from the page markup, which is not part of this model, so they are a constructor parameter.
- PercentChange: where JavaScript gives ±Infinity or NaN for a zero baseline, the model gives no value.
- The aborted recomputation with no forecast years: the source redraws the first chemistry's dataset, then throws in its summary. The other chemistries, the chart, the summary cards and the tables are not updated. The model gives no forecast (`Recompute`) and does not model the partial redraw.
- The `|| 0` fallback of the s-curve is not a separate branch. Over the reals the quotient is always defined (`SCurveSpread`), and a zero quotient already gives 0.
