# StudyCockpit Élec — cable-sizing calculator and dashboard total, in Dafny

This project models the part of the StudyCockpit Élec dashboard that does any
computing. That part has two pieces:

- **The cable-sizing demo page.** It estimates the load current from the power,
  the voltage, the power factor, the efficiency and the phase count. It then
  picks a conductor cross-section from a fixed ampacity table with a 25 %
  safety margin, and computes the voltage drop over the cable run.
- **The dashboard's "total power" metric.** This is Σ qty × power_w over a
  project's circuits, where a missing value counts as 0. It is shown
  truncated to an integer, with the digits grouped in threes by spaces.

Everything here is pure, so the model is datatypes, functions and lemmas,
with exact `real` arithmetic.

- `wrappers.dfy` — `Option`, for nullable database columns.
- `formulas.dfy` (module `Formulas`) — single- and three-phase current, the
  phase dispatch, and the voltage-drop percentage. The source computes √3 as
  `3**0.5`. Here √3 is a parameter `s` constrained by `IsSqrt3(s)`
  (`s > 0`, `s * s == 3`), so no square root is ever computed. Every
  property is proved from those two facts alone (`Sqrt3Bounds` gives
  1.732 < s < 1.7321).
- `ampacity.dfy` (module `Ampacity`) — the nine-row table, the first-fit
  search (the pandas boolean filter plus `head(1)`), the fallback to the last
  row (`tail(1)`), sortedness and monotonicity.
- `cable_demo.dfy` (module `CableDemo`) — the whole calculation of the page,
  plus two worked input scenarios.
- `dashboard.dfy` (module `Dashboard`) — circuits as `Option` columns, the
  total with NaN-to-0, Python's `int()` truncation toward zero, and
  `f"{n:,}".replace(","," ")` grouping with its inverse.

Modelling choices:
- The SQL query results are an input sequence of `Circuit` rows.
- The rated current column `A` holds integers, so it is a `nat`. The
  cross-section and the mV/A/m coefficient are `real`.
- The margin comparison `A >= 1.25*I` is done exactly.
- The phase flag is an `int`. The code takes the three-phase formula exactly
  when `phases == 3` and the single-phase formula otherwise.

The code does not round the current before using it. For 5 kW, three-phase,
400 V, pf 0.9, η 1 and 50 m, the current is 5000/(360·√3) ≈ 8.019 A. The drop
is then 5000·29·50 / (1000·360·√3·400)·100 ≈ 2.907 %. That comes out as
2.90 % only if the current is first rounded to 8.01 A. `ThreePhaseScenario`
proves 8.01 < I < 8.02 and 2.90 < ΔU% < 2.91.

## Model

| member | source | states |
|---|---|---|
| Formulas.SinglePhaseCurrent | app.py:51-52 | The result I satisfies I·(U·pf·η) = P·1000, so the delivered power balances the load. I is positive for a positive load and 0 for no load. |
| Formulas.ThreePhaseCurrent | app.py:48-49 | The result I satisfies √3·(U·pf·η)·I = P·1000. I is positive for a positive load and 0 for no load. |
| Formulas.ThreePhaseIsSinglePhaseOverSqrt3 | app.py:48-52 | For the same inputs, the three-phase current times √3 equals the single-phase current. For a positive load it is strictly smaller. |
| Formulas.LoadCurrent | app.py:78 | With `phases == 3` the result satisfies the three-phase power balance. With any other phase count it satisfies the single-phase one. A positive load gives a positive current. |
| Formulas.VoltageDropPercent | app.py:54-55 | The percentage p satisfies p·10·U = I·m·L, so p = I·m·L/(10·U). As a fraction of U, p is the drop in volts, I·m·L/1000. |
| Formulas.VoltageDropZeroCurrent | app.py:54-55 | No current gives no drop. |
| Formulas.VoltageDropLinearInCurrent | app.py:54-55 | The drop is linear in the current: ΔU%(a·I1 + b·I2) = a·ΔU%(I1) + b·ΔU%(I2). |
| Formulas.VoltageDropLinearInLength | app.py:54-55 | The drop is linear in the cable length in the same sense. |
| Ampacity.TableSorted | app.py:57-67 | Over any two rows of the table `Table` (the nine rows of the literal, in order), the cross-section strictly increases, the rated current strictly increases and the mV/A/m coefficient strictly decreases. |
| Ampacity.Fits | app.py:81 | The `A >= 1.25*I` test (`Margin` = 1.25): a row qualifies exactly when the current is at most 80 % of its rating. |
| Ampacity.FirstFit | app.py:81 | A returned index is a row with A ≥ 1.25·I, and no earlier row has that property. None is returned exactly when no row qualifies. |
| Ampacity.SelectIndex | app.py:81-83 | The index is in range. It is the first qualifying row when one exists. When none qualifies it is the last row. |
| Ampacity.FirstFitUnique | app.py:81 | Any index that is a first fit is the index selected. |
| Ampacity.SelectIndexMonotone | app.py:81-83 | For any table, I1 ≤ I2 implies index(I1) ≤ index(I2). |
| Ampacity.SelectBand | app.py:57-81 | In any table whose ratings strictly increase, row k is selected when it qualifies and row k−1 does not. No ordering of the other columns is needed. |
| Ampacity.SelectRow | app.py:81-85 | The chosen row is a table row. It qualifies, or it is the 50 mm² / 0.93 mV/A/m row and no row qualifies. No qualifying row has a smaller cross-section. |
| Ampacity.SelectFallback | app.py:82-83 | When 1.25·I > 140 A, the selection is the last row: 50 mm², 140 A, 0.93 mV/A/m. |
| Ampacity.SelectRowMonotone | app.py:57-83 | I1 ≤ I2 implies a cross-section and rating at least as large, and a coefficient at most as large. |
| Ampacity.SelectZeroCurrent | app.py:57-81 | I = 0 selects the 1.5 mm² / 15 A / 29 mV/A/m row. |
| Ampacity.SelectSixSquare | app.py:57-81 | 28 < 1.25·I ≤ 36 selects 6 mm² / 36 A / 7.3 mV/A/m. |
| CableDemo.SizeCable | app.py:78-86 | The current is the phase-dispatched current. The cross-section and the coefficient come from the same table row. That row qualifies, or it is the fallback last row when none does. No qualifying row has a smaller section, and the row is exactly the one `SelectRow` picks (`head(1)` of the filter). The drop is computed from that current and that row's coefficient. |
| CableDemo.ThreePhaseScenario | app.py:48-86 | Input 5 kW, three-phase, 400 V, pf 0.9, η 1, 50 m. Result: 8.01 < I < 8.02, 1.5 mm², 29.0 mV/A/m, 2.90 < ΔU% < 2.91. |
| CableDemo.SinglePhaseScenario | app.py:51-86 | Input 5 kW, single-phase, 230 V, pf 0.9, η 1, 50 m. Result: I = 5000/207, 6 mm², 7.3 mV/A/m, 3.83 < ΔU% < 3.84. |
| Dashboard.Contribution | app.py:40 | A row missing qty or power_w contributes 0 (the NaN that `fillna(0)` replaces). Every row contributes what the reference sum of complete-row products gives for that row alone. |
| Dashboard.TotalPower | app.py:40 | An empty circuit list has total 0. |
| Dashboard.TotalIsSum | app.py:40 | The empty-list guard agrees with the plain sum of per-row contributions. |
| Dashboard.TotalPowerAppend | app.py:40 | The total of a concatenation is the sum of the totals. |
| Dashboard.IncompleteRowAddsNothing | app.py:40 | Adding a row with a missing qty or power_w, at either end, leaves the total unchanged. |
| Dashboard.TotalPowerIsSumOfCompleteRows | app.py:40 | The total equals the plain sum of qty × power_w over exactly the rows that have both values. |
| Dashboard.NoCompleteRowMeansZero | app.py:40 | When no row has both values, the total is 0. |
| Dashboard.TotalPowerNonNegative | app.py:40 | Non-negative quantities and powers give a non-negative total. |
| Dashboard.TotalPowerOrderIndependent | app.py:33-40 | Two row lists that are permutations of each other have the same total. The circuits query has no ORDER BY. |
| Dashboard.TwoCircuitExample | app.py:40 | Circuits {qty 2, 100 W} and {qty 1, no power} total 200 W. |
| Dashboard.TruncateTowardZero | app.py:41 | `int()` truncates toward zero. For x ≥ 0: n ≤ x < n+1. For x < 0: n−1 < x ≤ n. |
| Dashboard.Decimal | app.py:41 | The decimal digits of n, non-empty and without a leading zero, whose value is n. |
| Dashboard.GroupThousands | app.py:41 | Grouping adds ⌊(d−1)/3⌋ separators to d digits. |
| Dashboard.GroupThousandsSeparators | app.py:41 | In the grouped text, the spaces sit exactly at distances 4, 8, 12, … from the end. |
| Dashboard.StripGroupThousands | app.py:41 | Removing the spaces gives back the digits. |
| Dashboard.FormatThousandsRoundTrip | app.py:41 | Parsing the formatted integer returns it, negative values included. |
| Dashboard.FormatThousands | app.py:41 | The text starts with '-' exactly for a negative integer. After the sign comes a digit, with no leading zero unless the text is "0". After the sign, the spaces sit exactly at distances 4, 8, 12, … from the end. With `FormatThousandsRoundTrip`, this fixes the text of `f"{n:,}"` with spaces as separators. |
| Dashboard.DisplayPower | app.py:41 | The text is the grouped format of `int()` of the total: spaces every fourth character from the end, after any sign. It parses back to `int()` of the total. It has a minus sign exactly when the total is at most −1, since `int()` truncates toward zero. |
| Dashboard.DisplayLargeExample | app.py:41 | 1234567.9 is shown as "1 234 567". |
| Dashboard.DisplayNegativeExample | app.py:41 | −1234.5 is shown as "-1 234" (truncation toward zero, sign kept). |
| Dashboard.DisplayTwoCircuitExample | app.py:40-41 | The two-circuit example is shown as "200". |

## Left out

- Streamlit rendering is not modelled. That covers page config, tabs, widgets,
  metrics, expanders, tables and captions. It is presentation only. The
  input clamps of the number widgets appear only as the positivity
  precondition `ValidSupply` (U, pf, η > 0).
- SQLite access and pandas `read_sql_query` are not modelled. They are I/O
  behind libraries. The circuits of the selected project are an input
  sequence, and project selection and BOM counting are not modelled.
- `ensure_db` is not modelled. It only creates a directory and copies the
  seed file.
- IEEE floating point is not modelled. The arithmetic is exact `real`, and √3
  is a constrained parameter instead of `3**0.5`.
- The rounding of the displayed current and drop (`:.1f`, `:.2f`) and the
  `float` printing of the cross-section and the coefficient are not modelled.
  They are display formatting.
- The default arguments `pf=0.9, eff=1.0` of the two current formulas are not
  modelled. The only call site passes all four values, so the defaults are
  never used.
- Division by zero and negative U, pf or η are not modelled. The source has
  no error path for them, so the formulas require positive values.
- A NaN or infinite total is not modelled. `fillna(0)`
  removes the NaN, and an infinite total cannot arise from exact reals.
