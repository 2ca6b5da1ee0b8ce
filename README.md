# Energy hub optimisation: cash flows and hourly dispatch rules

The energy hub script sizes an offshore hub with floating PV, wind turbines, a battery, an electrolyser, two hydrogen compressors and a hydrogen buffer. It then dispatches the hub hour by hour and evaluates the result financially. This project models the two deterministic parts of that script and proves their properties. It does not model the optimiser.

- **Cash flows** (`cashflow.dfy`, module `CashFlow`). These are the script's array primitives and the cash flows it builds from them.
  - `costs_production_flow` builds a flow of `lifetime + 1` years. Year 0 is kept for CAPEX.
  - `np_calculator` discounts a flow at rate `r`.
  - The three stack-replacement loops add the electrolyser stack cost in place at multiples of the stack lifetime. The first loop uses `<=` and the two later ones use `<`.
  - The LCOE, LCOH and total-cost flows put CAPEX in year 0 and OPEX in later years.
  - The project NPV is taken over the net flow, revenue minus costs.
  - Each method is proved against a specification function: `Npv`, `BuildFlow`, `WithReplacements` or `Annuity`. Lemmas then give the closed forms of those functions, their linearity and the number of replacement years.
- **Hourly dispatch rules** (`dispatch.dfy`, module `Dispatch`). These are the per-hour constraint rules that the script posts to its optimisation model, turned into a feasibility check of a candidate plan. A plan is the six sizing variables plus one record of flows per hour.
  - There is one predicate per constraint family: generation, electricity balance, battery state of charge, export, hydrogen routing, electrolyser and ramp, hydrogen storage, hydrogen export, compressors, and area.
  - `Feasible` is the conjunction of these predicates over the horizon.
  - `CheckPlan` walks the hours and reports the first failing hour. It returns `Accepted` exactly when the plan is feasible from empty stores.
- **What a feasible plan guarantees** (`dispatch_properties.dfy`, module `DispatchProperties`):
  - hourly conservation of electricity and hydrogen;
  - the storage step guards keep the level within its bounds;
  - the ramp limit bounds the electrolyser load's drift;
  - the area rule holds;
  - the stores never give up more than they took in.

  The last of these holds only once the hour-1 gap described under Findings is closed.

Money and energy are `real`s. Hours are numbered from 0 in the model: element `i` of a plan is hour `t = i + 1` of the script, and it reads row `i` of the hourly input series. The script reads row `t - 1`. The stack-replacement loops are one method with a `Boundary` parameter: `Inclusive` stands for `<=` and `Exclusive` for `<`. The replacement cost passed in is `CAPEX_stack` for the first loop and `CAPEX_stack * x4` for the two later ones.

## Model

| member | source | states |
|---|---|---|
| CashFlow.NpCalculator | Energy_Hub_Optimization_REV3.py:50-54 | The discounting loop returns the net present value `Npv(c[..], r)`, the sum of `c[k] / (1 + r)^k` over every year of the flow. |
| CashFlow.CostsProductionFlow | Energy_Hub_Optimization_REV3.py:57-60 | Returns a fresh array of `lifetime + 1` years: 0 in year 0 and `value` in every year 1..lifetime. |
| CashFlow.AddStackReplacements | Energy_Hub_Optimization_REV3.py:104-107 | Adds the cost in place at every year `lifetimeStack * i` (i >= 1) up to the horizon, included for `<=` and excluded for `<` (the same loop at 565-568 and 583-586). Every other year is unchanged. The loop terminates when the stack lifetime is positive. |
| CashFlow.CapexOpexFlow | Energy_Hub_Optimization_REV3.py:546-547 | The LCOE, LCOH and total-cost flow has `capex` in year 0 and `opex` in years 1..lifetime, so it is the production flow with year 0 overwritten. |
| CashFlow.ProjectNpv | Energy_Hub_Optimization_REV3.py:576-590 | The NPV of revenue minus costs is the revenue annuity, minus the OPEX annuity, minus CAPEX, minus the present value of the stack replacements before the last year. |
| CashFlow.NpvZeroRate | Energy_Hub_Optimization_REV3.py:50-54 | At discount rate 0 the NPV of any flow is its plain sum. |
| CashFlow.NpvDifference | Energy_Hub_Optimization_REV3.py:588-590 | NPV is linear: `NPV(revenue - costs) == NPV(revenue) - NPV(costs)` for flows of equal length. |
| CashFlow.NpvUpdate | Energy_Hub_Optimization_REV3.py:547 | Overwriting year j of a flow with x changes its NPV by `(x - s[j]) / (1 + r)^j`. |
| CashFlow.NpvBuildFlow | Energy_Hub_Optimization_REV3.py:541-542 | A flow of `value` in years 1..lifetime is worth the annuity of `value` over `lifetime` years. |
| CashFlow.NpvCapexOpex | Energy_Hub_Optimization_REV3.py:562-563 | A flow with CAPEX in year 0 and OPEX after it is worth `capex + Annuity(opex, r, lifetime)`. |
| CashFlow.NpvAddWhere | Energy_Hub_Optimization_REV3.py:106 | Adding a cost in any set of years adds exactly the present value of those payments to the NPV. |
| CashFlow.NpvWithReplacements | Energy_Hub_Optimization_REV3.py:104-108 | The stack replacements raise the electrolyser cost NPV by the present value of the replacement payments and by nothing else. |
| CashFlow.UndiscountedPayments | Energy_Hub_Optimization_REV3.py:106 | Without discounting, the payments in the marked years sum to the cost times the number of marked years. |
| CashFlow.MultipleMod | Energy_Hub_Optimization_REV3.py:105 | A year is reached by stepping the stack lifetime from 0 exactly when the stack lifetime divides it. |
| CashFlow.ReplacementYearsBelow | Energy_Hub_Optimization_REV3.py:105-106 | The number of replacement years below m is the number of positive multiples of the stack lifetime up to the last year the loop may touch. |
| CashFlow.ReplacementsCounted | Energy_Hub_Optimization_REV3.py:565-568 | Over a whole flow the loop pays `horizon / lifetimeStack` replacements with `<=` and `(horizon - 1) / lifetimeStack` with `<` (none for an empty horizon). |
| CashFlow.SumAddWhere | Energy_Hub_Optimization_REV3.py:104-107 | The undiscounted total of a flow after the replacements is the old total plus the cost times the number of replacement years. |
| CashFlow.BoundariesDiffer | Energy_Hub_Optimization_REV3.py:583-586 | The `<` loops never touch the last year. The `<=` loop adds the cost there exactly when the horizon is a positive multiple of the stack lifetime. Every earlier year is the same under both. |
| CashFlow.Npv | Energy_Hub_Optimization_REV3.py:50-54 | Reference definition of the discounting loop: the sum of `s[k] / (1 + r)^k` over every year of the flow. |
| CashFlow.BuildFlow | Energy_Hub_Optimization_REV3.py:57-60 | Reference definition of the built flow: `lifetime + 1` years, 0 in year 0 and `value` in every later year. |
| CashFlow.WithReplacements | Energy_Hub_Optimization_REV3.py:104-107 | Reference definition of the replacement loops: the flow plus the cost in every year that is a positive multiple of the stack lifetime, within the horizon under the loop's `<=` or `<`. |
| Dispatch.Generation | Energy_Hub_Optimization_REV3.py:221-225 | PV output is the PV area times the hour's yield, and wind output is the number of turbines times the hour's turbine yield. |
| Dispatch.ElectricityBalance | Energy_Hub_Optimization_REV3.py:227-231 | Used electricity is generation minus curtailment, split between grid, battery and hydrogen. |
| Dispatch.Battery | Energy_Hub_Optimization_REV3.py:235-268 | The state-of-charge rules SoC1 to SoC7, with their hour-1 cases as written. |
| Dispatch.ExportBalance | Energy_Hub_Optimization_REV3.py:272-273 | Exported electricity is the direct grid supply plus the battery's grid supply. |
| Dispatch.HydrogenRouting | Energy_Hub_Optimization_REV3.py:277-278 | Electricity for hydrogen is split between the electrolyser and the compressors. |
| Dispatch.Electrolyser | Energy_Hub_Optimization_REV3.py:282-313 | Electrolyser load, ramp, hydrogen output and routing, and capacity, with the hour-1 ramp reset. |
| Dispatch.HydrogenStorage | Energy_Hub_Optimization_REV3.py:316-332 | The hydrogen storage level recurrence, its bound by x6 and its step guards, with the hour-1 reset. |
| Dispatch.HydrogenExport | Energy_Hub_Optimization_REV3.py:335-338 | Exported hydrogen is direct plus stored hydrogen, within 85% of the pipe capacity. |
| Dispatch.Compressors | Energy_Hub_Optimization_REV3.py:344-370 | The loads of the two compressor duties: their direct and battery sources, their hydrogen-times-specific-power values and their capacities. |
| Dispatch.HydrogenElectricity | Energy_Hub_Optimization_REV3.py:373-374 | Electricity for hydrogen in total is both compressor loads plus the electrolyser load. |
| Dispatch.Area | Energy_Hub_Optimization_REV3.py:377-378 | The PV and wind footprint is at most 90% of the hub area. |
| Dispatch.Feasible | Energy_Hub_Optimization_REV3.py:382-418 | Every rule is posted for every hour of the horizon, together with the variable bounds. |
| Dispatch.CheckPlan | Energy_Hub_Optimization_REV3.py:221-378 | It reports a missing wind row, a wrong horizon or bad sizing exactly when these occur. It reports the first violated hour with all earlier hours satisfied. It returns Accepted if and only if the plan satisfies every rule and draws nothing from an empty store at hour 1. A plan that meets every rule as written but draws at hour 1 is reported separately. |
| DispatchProperties.HourlyConservation | Energy_Hub_Optimization_REV3.py:227-345 | In every hour of a feasible plan, generation is exactly curtailment, direct export, battery charge and direct supply to the electrolyser and compressors. Hydrogen produced is exactly direct export plus storage intake. |
| DispatchProperties.StorageGuardsBoundLevel | Energy_Hub_Optimization_REV3.py:316-332 | The storage guards keep the hydrogen level in [0, x6] at every hour: empty at hour 1, outflow at most the previous level, inflow at most the room left. |
| DispatchProperties.BatteryGuardsBoundCharge | Energy_Hub_Optimization_REV3.py:235-264 | From hour 2 on, the charge guard keeps the state of charge at or below 90% of capacity whenever the previous charge is non-negative and self-discharge does not add charge. |
| DispatchProperties.RampBoundsDrift | Energy_Hub_Optimization_REV3.py:288-302 | In a feasible plan the electrolyser load at hour i+1 lies within `10 * i` of its hour-1 load. |
| DispatchProperties.FeasibleFitsHub | Energy_Hub_Optimization_REV3.py:377-378 | Every feasible plan over at least one hour has a PV and wind footprint of at most 90% of the hub area. |
| DispatchProperties.EmptyHorizonIgnoresArea | Energy_Hub_Optimization_REV3.py:418 | The area rule is posted once per hour, so with no hours every sizing within its bounds is feasible, whatever its footprint. |
| DispatchProperties.HourOneDrawsFromEmptyStores | Energy_Hub_Optimization_REV3.py:316-327 | As written, a one-hour plan satisfies every rule while exporting hydrogen it never produced and selling battery energy it never charged. The intended rules reject it. |
| DispatchProperties.TotalSplit | Energy_Hub_Optimization_REV3.py:335-336 | An hourly identity `a = b + c` carries over to the totals over the horizon. |
| DispatchProperties.StorageBalance | Energy_Hub_Optimization_REV3.py:316-327 | In a plan feasible from empty stores, up to any hour, hydrogen taken from storage plus the current level is at most the hydrogen put in. |
| DispatchProperties.ExportWithinProduction | Energy_Hub_Optimization_REV3.py:306-336 | In a plan feasible from empty stores, hydrogen exported over the horizon never exceeds hydrogen produced. |
| DispatchProperties.BatteryStart | Energy_Hub_Optimization_REV3.py:237-238 | At hour 1 of a feasible plan the battery is empty. |
| DispatchProperties.BatteryStartFromEmpty | Energy_Hub_Optimization_REV3.py:237-258 | At hour 1 of a plan feasible from empty stores the battery is empty, nothing is drawn from it and nothing negative is charged into it. |
| DispatchProperties.BatteryStep | Energy_Hub_Optimization_REV3.py:240 | From hour 2 on, the state of charge is the previous charge times self-discharge, plus charge times the charge rate, minus discharge over the discharge rate. |
| DispatchProperties.BatteryBalance | Energy_Hub_Optimization_REV3.py:235-258 | In a plan feasible from empty stores, up to any hour, energy drawn from the battery plus the current charge is at most the energy charged in. |
| DispatchProperties.DrawnWithinCharged | Energy_Hub_Optimization_REV3.py:235-258 | In a plan feasible from empty stores, the battery never gives up more energy over the horizon than it took in. |

## Left out

- Reading the Excel workbooks (Energy_Hub_Optimization_REV3.py:22-40) is I/O. The parameters and hourly series are the inputs `Params` and `Sizing`, and the yearly totals are inputs of `CashFlow.ProjectNpv`.
- Building the optimisation model, its objective, the solver call and the sensitivity re-solves (121-217, 425-429, 794-801) are a foreign solver. The model checks feasibility of a given plan and never claims a plan is optimal.
- `power_compressor` (62-86) is floating-point numerics with a fractional exponent. The two specific compressor powers are plain real parameters.
- The IRR (589) comes from a foreign root finder.
- The LCOE and LCOH ratios (550, 571) are single divisions of two modelled NPVs.
- Console output, result lists kept for plots, and plotting (436-530, 602-910) are not modelled.
- Floating-point rounding is not modelled: all quantities are exact reals.
- CashFlow.NpCalculator: requires `1 + r != 0`. At `r = -1` the script divides by zero.
- CashFlow.AddStackReplacements: requires a positive stack lifetime. With 0 the script's loop never ends: it keeps adding the cost to year 0. With a negative whole number the loop guard at 105, 566 and 584 always holds. Numpy then reads the negative index from the end of the array, so the script adds the cost at years counted back from the last year. It stops with an index error once the index passes -(lifetime + 1). The model does not capture that behaviour.
- CashFlow.AddStackReplacements: does not cover a stack lifetime that is not a whole number. The script would fail to index the array with it.
- CashFlow.AddStackReplacements: takes a whole-number horizon, the length of the flow minus 1. The script's loops compare against the raw `system_lifetime` (105, 566, 584), while the flow length uses `int(system_lifetime)`. With a fractional system lifetime the two differ. For example, with system lifetime 25.5 and stack lifetime 25, the `<` loop at 584 pays in year 25, which `Exclusive` with horizon 25 never does. CashFlow.ProjectNpv inherits this.
- CashFlow.CostsProductionFlow: takes a natural-number lifetime. In the script a lifetime of -1 gives an empty array (`np.zeros(0)`), and anything lower raises an error.
- Dispatch.CheckPlan: requires `Params.Nonsingular()`, a non-zero discharge rate and electrolyser efficiency. Every rule predicate that divides by them requires it too. The script divides by these at 240, 258, 268 and 307 and would fail with either one zero.
- CashFlow.ProjectNpv: the yearly revenue and OPEX totals are parameters, because the script computes them from solver results.
- DispatchProperties.BatteryGuardsBoundCharge: additionally assumes a self-discharge factor of at most 1, which the script does not check.
- DispatchProperties.BatteryStartFromEmpty: additionally assumes a non-negative charge rate, which the script does not check.
- DispatchProperties.BatteryBalance: additionally assumes a self-discharge factor of at most 1 and a non-negative charge rate, which the script does not check.
- DispatchProperties.DrawnWithinCharged: additionally assumes a self-discharge factor of at most 1 and a non-negative charge rate, which the script does not check.
- The compressor rules in force (355-363) set the total load of each duty, direct plus battery, to the hydrogen sent through it times the specific power. The commented-out variants at 353-354 and 360-361 set only the direct load. The model follows the rules in force.

## Findings

| source | as written | input that shows it | evidently intended | confidence | as-written member | corrected member |
|---|---|---|---|---|---|---|
| Energy_Hub_Optimization_REV3.py:323-327 | At hour 1 the storage draw-down guard is replaced by "level == 0", and the battery's guard at 254-258 likewise. Only the throughput limits then bound what leaves either store in the first hour. For the battery this is the discharge limit at 268, `x3 * charge_discharge_power` after the discharge rate. For the hydrogen store it is the pipe limit at 338, `0.85 * pipe_capacity`. | One hour with a 1 kWh battery. Set battery to grid = 1 kWh and storage to pipe = 1 kg, with every other flow 0. Take charge_discharge_power = discharge_rate = 1 and pipe_capacity = 2, as in `DispatchProperties.OneHour`, so that `charge_discharge_power * discharge_rate >= 1` and `0.85 * pipe_capacity >= 1`. Every rule holds, yet 1 kg of hydrogen is exported that was never produced, and 1 kWh is sold from a battery that was never charged. | Nothing leaves an empty store at hour 1. Over the horizon, exported hydrogen is then at most produced hydrogen, and energy drawn from the battery at most energy charged. | not executed | DispatchProperties.HourOneDrawsFromEmptyStores | DispatchProperties.ExportWithinProduction, DispatchProperties.DrawnWithinCharged |
