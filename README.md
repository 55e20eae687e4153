# EcoFly dashboard: emissions trajectory and SAF blend solver in Dafny

This project models the numeric core of the EcoFly decarbonisation dashboard.
The dashboard fits a quadratic CO2e target trajectory through three anchors:
the 2025 fleet baseline, half of it in 2050 and zero in 2070. It computes the
CO2e and cost of a fleet whose fuel is a blend of Jet-A1 and one of four
Sustainable Aviation Fuel (SAF) pathways: HEFA, Gas-to-Liquid, Alcohol-to-Jet
and Synthetic. It inverts the CO2e formula to find the blend each year needs
to stay on target. Finally, it builds the record lists behind its three
charts.

Files and modules:

- `pathways.dfy` (`Pathways`): the fuel constants. These are Jet-A1's
  coefficient 3.84 and price 1.3, and each SAF pathway's coefficient and
  price. It also holds the `saf_types` dictionary of the trajectory chart.
- `trajectory.dfy` (`Trajectory`): the three-anchor fit of smp.py as an
  exact solve, its closed-form solution, and `co2_for_year` as written. It
  also holds the corrected curve `Co2Target`.
- `mixer.dfy` (`Mixer`): one mixer function `Blend` over a pathway record,
  with the CO2e and cost branches. The four source functions `hefa`, `gas`,
  `alc` and `syn` are written out as in data.py, each proved to be `Blend`
  at its pathway.
- `solver.dfy` (`Solver`): `saf_for_year`, the inversion of the mixer
  against the hard-coded target `co2_for_year`, capped from above at 1. It
  also holds the same solver against the corrected curve.
- `sweeps.dfy` (`Sweeps`): the loops of `safplot`, `costplot` and
  `saf_ratio_over_time_plot` as methods that append to a list, with loop
  invariants.

The fleet's annual fuel burn is an aggregate of a spreadsheet column in the
source. Here it is the parameter `fuel`. The mixer accepts any value; the
solver and the sign and monotonicity lemmas require `fuel > 0`. All
arithmetic is exact `real` arithmetic.

The cost formula is modelled as written. Half the CO2e is added as a carbon
surcharge, and it is added again when the CO2e is positive. The cost is
therefore fuel cost + co2 when co2 > 0, and fuel cost + 0.5·co2 otherwise
(`Mixer.Cost`). `saf_for_year` is also modelled as written: it caps
at 1 and has no lower bound, so a target above pure Jet-A1 gives a negative
ratio (`Solver.NegativeWhenAlreadyMet`).

## Model

| member | source | states |
|---|---|---|
| `Trajectory.FitThrough` | smp.py:12-17 | the three anchor equations have a unique solution exactly when the anchor years are pairwise distinct; otherwise the result is None |
| `Trajectory.FitMeetsAnchors` | smp.py:12-14 | whenever the years are distinct, the solved quadratic satisfies all three anchor equations |
| `Trajectory.FitUnique` | smp.py:17 | any quadratic through three anchors with distinct years is the solved one, so the system has exactly one solution |
| `Trajectory.FitIsClosedForm` | smp.py:7-25 | for the anchors (2025, Y), (2050, Y/2), (2070, 0) the solution is a = -Y/9000, b = 779Y/1800, c = -1679Y/4; it is concave with its vertex at 1947.5; the printed decimals agree with it, and c equals -260986211759.750 exactly |
| `Trajectory.Co2ForYear` | data.py:96-97 | the hard-coded curve lies between 2.2497 and 2.25 kg above the exact fit for every year from 1 to 2070 |
| `Trajectory.AsWrittenCoefficients` | data.py:97 | the hard-coded a equals the fitted a; b is the fitted b minus 127/1189607400; c is the fitted c plus 9/4 |
| `Trajectory.AsWrittenMissesAnchors` | data.py:97 | the hard-coded curve misses each of the three anchors by 2.2497 to 2.25 kg; in particular it is not zero in 2070 |
| `Trajectory.Co2Target` | smp.py:7-9 | the corrected target curve (the exact fit) takes the values Y in 2025, Y/2 in 2050 and 0 in 2070 |
| `Trajectory.TargetDecreasing` | data.py:97 | both the exact and the hard-coded target strictly fall from any year to any later year in 2025..2070, and each later year is below 2025 |
| `Trajectory.TargetWithinBaseline` | smp.py:7-9 | over 2025..2070 the exact target stays between 0 and the 2025 baseline |
| `Pathways.CoefficientsMatchCatalogue` | data.py:223-228 | the trajectory chart's dictionary lists the same four pathways, in the same order and with the same coefficients, as the mixer functions |
| `Pathways.SafCleanerThanFossil` | data.py:105-153 | every SAF coefficient set in hefa, gas, alc and syn (data.py lines 105-106, 122-123, 137-138 and 152-153) is below Jet-A1's 3.84; only HEFA has Jet-A1's price |
| `Mixer.Hefa` | data.py:103-117 | `hefa` with and without the cost flag is the generic mixer at HEFA's record (1.3, 1.3) |
| `Mixer.Gas` | data.py:120-132 | `gas` is the generic mixer at Gas-to-Liquid's record (-0.51, 3.2) |
| `Mixer.Alc` | data.py:135-147 | `alc` is the generic mixer at Alcohol-to-Jet's record (-0.86, 3.2) |
| `Mixer.Syn` | data.py:150-162 | `syn` is the generic mixer at Synthetic's record (1.14, 3.2) |
| `Mixer.PathwayFunction` | data.py:172-175 | positions 0..3 of the sweep order call hefa, gas, alc and syn, each the mixer at the matching registered pathway |
| `Mixer.Co2` | data.py:109 | the blended CO2e is fuel·3.84 at ratio 0 (and at any ratio when k = 3.84) and fuel·k at ratio 1 |
| `Mixer.Cost` | data.py:111-116 | the cost is the fuel cost plus the full CO2e when the CO2e is positive, plus half of it otherwise; it is never below either rate, and it exceeds the single half-rate surcharge by 0.5·co2 exactly when co2 > 0 |
| `Mixer.Blend` | data.py:103-162 | the shared shape of the four pathway functions: with the cost flag off it is the CO2e; with it on, the fuel cost plus the full or half CO2e by the CO2e's sign |
| `Mixer.Co2Endpoints` | data.py:109 | at ratio 0 the CO2e is fuel·3.84 for any SAF coefficient; at ratio 1 it is fuel·k |
| `Mixer.RegisteredEndpoints` | data.py:103-162 | the boundary identities for hefa, gas, alc and syn: all give fuel·3.84 at ratio 0, and fuel·1.3, fuel·-0.51, fuel·-0.86 and fuel·1.14 at ratio 1 |
| `Mixer.Co2Slope` | data.py:109 | moving the ratio from r to s changes CO2e by fuel·(k - 3.84)·(s - r) |
| `Mixer.Co2Affine` | data.py:109 | CO2e is affine in the ratio: a weighted mean of ratios gives the same weighted mean of CO2e |
| `Mixer.Co2Monotone` | data.py:109 | for positive fuel, raising the ratio lowers CO2e if and only if k < 3.84, keeps it equal if and only if k = 3.84, and raises it if and only if k > 3.84 |
| `Mixer.RegisteredPathwaysDecrease` | data.py:103-162 | CO2e strictly falls as the ratio grows for each of hefa, gas, alc and syn |
| `Mixer.HefaCost` | data.py:103-117 | HEFA's fuel cost is fuel·1.3 at every ratio; on [0, 1] its CO2e is positive, its cost is fuel·1.3 + co2, and pure HEFA is the cheapest point |
| `Solver.Invert` | data.py:218 | blending at the inverted ratio gives exactly the requested CO2e |
| `Solver.InvertIsInverse` | data.py:218 | the inversion formula is the exact inverse of the mixer: a ratio meets a target if and only if it is the inverted ratio |
| `Solver.SafForYear` | data.py:215-219 | the result never exceeds 1; it is 1 if and only if the uncapped ratio is at least 1; otherwise it is the uncapped ratio, negative values included |
| `Solver.SafForYearRoundTrip` | data.py:215-219 | when the cap does not apply, blending at the returned ratio gives exactly the year's `co2_for_year` value |
| `Solver.CappedMeansShortfall` | data.py:219 | when the cap applies to a pathway cleaner than Jet-A1, the result is 1, and even pure SAF emits more than the target |
| `Solver.NegativeWhenAlreadyMet` | data.py:218-219 | there is no lower cap: for k < 3.84 the result is negative if and only if the target is above fuel·3.84 |
| `Solver.RequiredRatioGrows` | data.py:215-219 | over 2025..2070, for k < 3.84, the uncapped ratio strictly grows from year to year and the capped one never falls |
| `Solver.InvertAntitone` | data.py:218 | for k < 3.84 and positive fuel, a strictly lower target needs a strictly higher ratio |
| `Solver.SafForYearCorrected` | data.py:215-219 | the solver against the exact fit: never above 1, 1 exactly when the uncapped ratio reaches 1, and otherwise a ratio whose CO2e is exactly the corrected target |
| `Solver.CorrectionRaisesRatio` | data.py:215-219 | over 2025..2070, for k < 3.84 and when the cap does not apply, the hard-coded curve asks for strictly less SAF than the exact fit |
| `Sweeps.RatioSweep` | data.py:166-175 | the `safplot` list (cost flag off) and the `costplot` list (cost flag on, data.py:191-200) have 404 records; record j is for grid ratio (j/4)/100 and pathway j%4 in the order HEFA, Gas-to-Liquid, Alcohol-to-Jet, Synthetic, valued by that pathway's function |
| `Sweeps.RatioRowEndpoints` | data.py:171-175 | in the CO2e list the first record of every pathway is at 0 percent with fuel·3.84, and the last is at 100 percent with fuel·k |
| `Sweeps.RatioSeriesDecreasing` | data.py:171-175 | within one pathway's series, later records have a higher percentage and strictly lower CO2e |
| `Sweeps.Kept` | data.py:234 | a coefficient is kept if and only if it is at most 3.83 or at least 3.85; a kept coefficient is never 3.84 |
| `Sweeps.SafRatioOverTime` | data.py:221-237 | the trajectory list equals the year-major specification; it has 46·4 = 184 records, with record j for year 2025 + j/4 and dictionary entry j%4; no entry is skipped |
| `Sweeps.SafRatioOverTimeRows` | data.py:222-237 | for every end year, the dictionary sweep has 4 records per year in dictionary order, and every coefficient passes the skip guard |
| `Sweeps.KeptTypesSound` | data.py:234-235 | every entry the guard keeps comes from the dictionary and is not 3.84, so the solver never divides by zero; every entry the guard accepts is kept; a dictionary the guard fully accepts is kept whole |
| `Sweeps.YearRowsAreKept` | data.py:233-237 | one year's records are exactly the kept entries, in dictionary order, each with that year and its required blend |
| `Sweeps.TrajectoryRowsLength` | data.py:232-237 | for any dictionary the sweep has (years) × (kept entries) records |
| `Sweeps.TrajectoryRowsYearMajor` | data.py:232-233 | every record's year lies in the range, and years never decrease along the list |
| `Sweeps.TrajectoryRowsFromKept` | data.py:234-237 | no record comes from a skipped coefficient, and no required blend exceeds 100 percent |

## Findings

| source | as written | input that shows it | evidently intended | confidence | as-written member | corrected member |
|---|---|---|---|---|---|---|
| data.py:97 | constant term -1043944847030/4, a 9 dropped to 0; the linear term is also 127/1189607400 (about 1.07e-7) below the fitted one | year 2070: the curve gives about 2.2498 kg instead of 0; 2025 and 2050 miss by about the same amount (2.2497 to 2.25 kg, `Trajectory.AsWrittenMissesAnchors`) | -1043944847039/4 = -260986211759.750, the value the fit prints (smp.py:25), so that the curve passes through the anchors of smp.py:7-9 | high; not executed | `Trajectory.Co2ForYear`, shown by `Trajectory.AsWrittenMissesAnchors`; `Solver.SafForYear` inverts it, and `Solver.CorrectionRaisesRatio` shows it asks for less SAF than the exact curve | `Trajectory.Co2Target`, whose contract meets the anchors exactly (closed form in `Trajectory.FitIsClosedForm`), and `Solver.SafForYearCorrected`, whose contract meets it exactly |

`Solver.SafForYear` and the trajectory sweep follow data.py and use the
hard-coded `Co2ForYear`. `Solver.SafForYearCorrected` is the same solver
against the corrected `Co2Target`.

## Left out

- Spreadsheet and CSV reading and writing at import time (data.py:18-35, 39): file I/O. The fleet fuel total `KPI["Fuel/y"].sum()` becomes the parameter `fuel`.
- All plotting: `strategy_costs`, `plot_pie_chart`, `fleet_renewal`, and the chart code after each record list is built (data.py:37-93, 178-188, 202-212, 240-260). This includes the list of target values for the chart's second axis (data.py:252-254), which only evaluates the target per year.
- Python float behaviour. `round(x, 2)` on every mixer result is not modelled, and values are exact reals. The `np.linspace(0, 1, 101)` grid is the exact grid i/100.
- sympy's `solve` and `Rational(...).limit_denominator()` (smp.py:17, 28-30) are replaced by an exact divided-difference solve and its proved closed form. On a singular system (repeated anchor years), sympy's empty or parametric answer becomes `None`. The `print` calls are output only.
- app.py, the dashboard UI, is not part of this model. Its `safperct` text output calls `saf_for_year(input.year())` with one argument (app.py:82), while the function takes two, so that call does not reach the solver.
- Solver.SafForYear: requires `fuel > 0` and a coefficient other than 3.84. The source divides by both, and its only working caller, in data.py, skips coefficients within 0.01 of 3.84.
- Ratio validation (rejecting ratios outside [0, 1]) and lookup of pathways by name are not performed by the source, so the mixer accepts any ratio and there is no lookup operation.
