# Amortization with one-off payment overrides

This project models, in Dafny, the loan amortization engine of the loan
management front end.

The engine takes four inputs:
- a principal `PV`;
- a monthly rate `r`;
- a term of `n` months;
- a sparse map from period number to a payment typed by the user for that month alone.

It produces the base equal payment `pmt(PV, r, n)` and one schedule row per month. Each row holds:
- the period number;
- the beginning balance;
- the interest;
- the payment;
- the ending balance;
- the equal payment suggested for that month.

Each month works as follows:
1. It pays the typed override if there is one, otherwise the current equal payment.
2. It trims the payment to what closes the loan that month.
3. After the month, it re-amortizes: it recomputes the equal payment on the new balance over the months still to go, so the loan still ends on its original month.

The engine exists twice:
- in the routed page, `src/SimulationPage.tsx`;
- in the older standalone page, `src/App.jsx`.

The two copies differ only in how a month's ending balance is snapped:
- the routed page clamps it at zero;
- the standalone page sets anything below 1e-8 to exactly zero.

The model is one engine with a `SnapPolicy` parameter: `ClampAtZero` for the routed page and `DustToZero` for the standalone page.

Modules:
- `Finance` (`finance.dfy`): the payment formula `pmt`, with `(1 + r)^(-m)` written as `1 / Pow(1 + r, m)` over exact reals. It also holds the algebra of re-amortization. Two facts are proved here:
  - On a zero rate or a rate on the annuity branch, paying the equal payment for one month and recomputing it gives the same payment back.
  - Inside the straight-line band (`0 < |r| < 1e-12`), where the formula is replaced by `pv / m`, it drifts by exactly the interest spread over the months left.
- `Overrides` (`overrides.dfy`): the override map and its two transitions, `setOverride` and `clearOverrides`. The cell text is abstracted to `Entry`: blank, a finite number, or not a finite number.
- `Engine` (`engine.dfy`):
  - `Simulate` is the engine as a function of its inputs, over the recursive `RowsFrom`.
  - `ComputeSchedule` is the engine as the pages run it: a loop that updates the balance, the remaining horizon and the active payment, and appends a row. It is proved equal to `Simulate`.
- `ScheduleProperties` (`schedule_properties.dfy`): what the schedule promises. This covers:
  - shape and chaining;
  - the payment rule;
  - the ending rule;
  - re-amortization;
  - payoff at term;
  - the level payment without overrides;
  - the locality of overrides.
- `Aggregates` (`aggregates.dfy`):
  - `totalInterest` as a left fold, equal to the sum of the interests;
  - `chartData` as a map;
  - conservation of money: principal plus total interest equals total payments plus the final balance. This is exact on the routed page, and within 1e-8 per month on the standalone page.

## Model

The engine, the override transitions and the aggregates appear in both pages; each row cites one copy and names the other.

| member | source | states |
|---|---|---|
| Finance.Pmt | src/SimulationPage.tsx:75-79 | `pmt` is zero for an empty horizon, never negative for a non-negative principal and strictly positive for a positive principal over one or more periods |
| Finance.PmtAnnuityProduct | src/SimulationPage.tsx:78 | off the straight-line band, the payment `p` over `m` periods satisfies `p ((1+rate)^m - 1) = rate * pv * (1+rate)^m`, i.e. it is the annuity that repays `pv` |
| Finance.PmtOnePeriod | src/SimulationPage.tsx:75-79 | over one period `pmt` is the balance plus its interest on the annuity branch and the balance alone in the straight-line band |
| Finance.PmtRepays | src/SimulationPage.tsx:75-79 | paying `pmt(b, rate, m)` in each of `m` periods leaves a zero balance, for a zero rate and for every rate on the annuity branch |
| Finance.PmtReamortizes | src/SimulationPage.tsx:110-115 | after one period paid at the equal payment the balance left is non-negative and the equal payment recomputed on it over `m - 1` periods is the same payment (zero rate or annuity branch) |
| Finance.StraightLineDrift | src/SimulationPage.tsx:77 | inside the straight-line band the recomputed payment differs from the original by exactly `rate * b / (m - 1)` |
| Overrides.SetOverride | src/SimulationPage.tsx:47-59 | (same at src/App.jsx:25-35) a blank cell removes period `k` only; a finite amount of zero or more sets `k` to it; a negative or non-finite entry leaves the map unchanged; no other period changes |
| Overrides.ClearOverrides | src/SimulationPage.tsx:61 | (same at src/App.jsx:37) clearing yields the empty map |
| Overrides.SetOverridePreservesNonNegative | src/SimulationPage.tsx:55-58 | every override the map holds stays non-negative after any `setOverride` |
| Overrides.BlankUndoesSet | src/SimulationPage.tsx:47-59 | blanking a period's cell undoes setting it when it had no override: "no override" stays distinct from "an override of 0" |
| Overrides.SetOverrideIdempotent | src/SimulationPage.tsx:47-59 | typing the same entry into a cell twice has the effect of typing it once |
| Engine.Snap | src/SimulationPage.tsx:97 | the recorded ending is never negative; under `ClampAtZero` it is the raw ending exactly when that is non-negative, otherwise 0; under `DustToZero` (src/App.jsx:71-72) it is 0 exactly when the raw ending is below 1e-8, otherwise the raw ending |
| Engine.RowsFrom | src/SimulationPage.tsx:86-116 | the loop from period `k` records one row for each period `k..n` |
| Engine.Simulate | src/SimulationPage.tsx:71-73 | invalid inputs (principal or term not positive) give no rows; valid ones give exactly `n` rows |
| Engine.ComputeSchedule | src/SimulationPage.tsx:63-119 | (same at src/App.jsx:39-94) the loop over `bal`, `remaining` and `activePMT` returns exactly `Simulate`'s base payment and schedule, and `basePMT = 0` with an empty schedule for invalid inputs |
| ScheduleProperties.ScheduleShape | src/SimulationPage.tsx:81-118 | (same at src/App.jsx:54-93) `n` rows numbered `1..n` in order, row 1 begins at `PV`, every later row begins at the previous row's ending, and `basePMT = pmt(PV, r, n)` whatever the overrides |
| ScheduleProperties.Reamortization | src/SimulationPage.tsx:84-115 | (same at src/App.jsx:57-90) row 1 suggests `pmt(PV, r, n)` and row `i + 1` suggests `pmt(ending_i, r, n - i)` |
| ScheduleProperties.PaymentRule | src/SimulationPage.tsx:88-95 | (same at src/App.jsx:61-68) each row's interest is `r * beginning`; its payment is the period's override if present and its suggestion otherwise, trimmed to `beginning * (1 + r)`, never above it |
| ScheduleProperties.EndingRule | src/App.jsx:71-72 | beginnings, endings and raw endings are all non-negative; under `DustToZero` every ending is beginning + interest - payment unless that is below 1e-8, when it is exactly 0; under `ClampAtZero` (src/SimulationPage.tsx:97) the clamp never bites and every ending is exactly beginning + interest - payment |
| ScheduleProperties.PayoffAtTerm | src/SimulationPage.tsx:192-194 | (same promise at src/App.jsx:228-231) with no override in month `n`, the last ending is 0 for a rate of zero or below or on the annuity branch, whatever the earlier overrides; a positive rate in the straight-line band leaves the snapped last interest |
| ScheduleProperties.LevelPaymentWithoutOverrides | src/SimulationPage.tsx:110-115 | without overrides, on a zero rate or one on the annuity branch, every row suggests and pays the base payment |
| ScheduleProperties.OverrideLocality | src/SimulationPage.tsx:90-91 | two override maps that agree on periods `1..j` give the same first `j` rows: an override acts on its own month and what follows it only |
| Aggregates.TotalInterest | src/App.jsx:97-100 | (same at src/SimulationPage.tsx:121-128) the left fold of the interests equals their sum |
| Aggregates.FoldInterest | src/SimulationPage.tsx:123-126 | the fold from accumulator `acc` is `acc` plus the sum of the remaining interests |
| Aggregates.ChartData | src/App.jsx:103-106 | (same at src/SimulationPage.tsx:130-137) one chart point per row, carrying that row's period and ending |
| Aggregates.ChartTracksBalance | src/SimulationPage.tsx:130-137 | the chart of a simulation has `n` points for periods `1..n`, every point is a balance of zero or more, and each point but the last is the next month's beginning balance |
| Aggregates.InterestBalancesPayments | src/SimulationPage.tsx:121-128 | principal plus total interest equals total payments plus the final balance exactly under `ClampAtZero`, and exceeds it by at most `n * 1e-8` under `DustToZero` |
| Aggregates.PaidInFull | src/SimulationPage.tsx:192-194 | a loan that closes on its original month pays back exactly principal plus total interest |
| Aggregates.TotalInterestSign | src/SimulationPage.tsx:121-128 | for a non-negative rate the total interest is non-negative, and zero for a zero rate |

## Left out

- React state and memoization (`useState`, `useMemo` and its dependency arrays): the engine is a pure function of its four inputs, and the transitions return the new map.
- Rendering, styles, the charts library and currency formatting: presentation only.
- Routing (`src/App.tsx`, `src/LandingPage.tsx`) and the application form (`src/ApplyLoanPage.tsx`): no engine logic.
- Parsing of the inputs (`Number`, `Math.floor`, `trim`, division of the annual rate by 1200): the term is an `int`, the principal and the monthly rate are reals, and an override cell arrives as an `Entry` (blank, finite, not finite).
- IEEE-754 arithmetic: reals are exact, so rounding drift, NaN and Infinity are not modelled. The guard's `Number.isNaN(r)` case and the `|| 0` that turns a NaN interest into 0 in `totalInterest` have no counterpart.
- Rates of -100% a month or below: every member that computes a payment requires `r > -1`, where `(1 + r)^m` is positive and the annuity denominator is non-zero for a non-zero rate.
- Overrides.SetOverride: the blank path copies the map captured by the page while the set path applies a functional update to the latest state; in a pure transition the two are the same and that staleness is not modelled.
- ScheduleProperties.LevelPaymentWithoutOverrides: stated for `ClampAtZero` only; under `DustToZero` a balance below 1e-8 is written off, after which the recomputed suggestion changes.
- ScheduleProperties.PayoffAtTerm: a positive rate below 1e-12 takes the straight-line branch, whose last payment is the balance without its interest, so the last ending is that interest (snapped) rather than 0; the page notes promise a zero balance at term without this exception.
