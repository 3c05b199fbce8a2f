# Instalment schedule engine

This project models the loan-instalment engine of class `Instalment` in
`Instalment.cs`. A request gives four things:

- a principal (`WholeAmount`)
- a yearly profit rate in percent (`ProfitRate`)
- a number of instalments (`CountOfLoan`)
- a spacing in months (`DurationOfLoanPayment`)

The engine turns them into a response. The response holds the level
instalment (`FacilityAmount`) and one `FacilityModel` record per instalment.
Each record carries:

- its profit share and principal part
- its two remaining balances
- its amount truncated to an int
- its due date

The response also has three totals over the list.

The project has three files:

- `formulas.dfy` (module `InstalmentFormulas`): the four pure formulas.
  - `RoundingNumber`
  - `CalculateLoanShare`
  - `CalculateRemainLoan`
  - `CalculateFacilityAmount`, the annuity formula

  It also has a power function for `Math.Pow` and a loan-balance recurrence.
  That recurrence compounds the balance at the period rate s each period.
  It shows that, at that rate, the level instalment pays the principal off
  exactly.
- `models.dfy` (module `InstalmentModels`): the request, record and response
  models, and the totals `TotalWholeAmount`, `TotalShareAmount` and
  `TotalOriginalAmount`.
- `schedule.dfy` (module `Instalment`): the two schedule builders.
  - `GetFacilityInfo` and `GetFacilityInfoWithRounding` share one imperative
    method, `BuildFacilityInfo`. It runs a `while` loop over a byte counter,
    keeps the accumulator `PaymentedUntilNow` and appends one record per step.
    A flag selects the rounding points of the second builder: the level
    amount, each profit share and each remaining-balance term.
  - The method is proved against the predicate `IsSchedule`. That predicate
    states the rules every record of a schedule follows.
  - Lemmas derive what the source promises about a finished schedule.

Doubles are modelled as exact `real`s. The C# cast `(int)x` is truncation
toward zero. The C# integer division `/ 12` also truncates toward zero, and
the model writes that out for negative operands.

What the code does that a reader may not expect:

- `RoundingNumber` computes `Math.Ceiling((number / 100) * 100)`. Over exact
  reals the division and the multiplication cancel, so in the model it is the
  plain ceiling of the number. It does not round up to a multiple of 100. In
  doubles the product can land one unit in the last place above a whole
  number (`7.0 / 100 * 100` is `7.000000000000001`), and the ceiling then
  gives one more. "## Left out" records this.
- `CalculateLoanShare` always accrues over 30-day months, whatever month the
  instalment falls due in.
- `CalculateFacilityAmount` has no zero-rate branch. A zero rate divides by
  zero, so the model requires a positive rate.
- No request is rejected with an error of its own. Counts and rates the
  formulas cannot handle are preconditions in the model.
- The year and the month of a due date come from two different offsets. The
  year is moved `(Counter * Duration) / 12` years on, and the month
  `(Counter - 1) * Duration` months on.
- The byte counter limits `CountOfLoan` to 254. At 255 the counter wraps from
  255 to 0 before the guard `Counter <= CountOfLoan` can fail, so the guard
  never fails.
- The records' profit shares do not accrue at the period rate s that the
  level amount is computed at (line 175). Each share is
  `ProfitRate * 30 * Duration / 36500` times the principal less every whole
  instalment paid so far (lines 75 and 77), and those whole instalments
  include profit. So `TotalOriginalAmount` need not equal `WholeAmount`, and
  late shares can be negative. `OriginalTotalNeedNotMatchPrincipal` works out
  one case: one instalment of 36500 at 1% with a one-month spacing costs
  36501, of which 30 is profit, so the principal parts sum to 36471.

## Model

| member | source | states |
|---|---|---|
| InstalmentFormulas.RoundingNumber | Instalment.cs:168-171 | the result is a whole number r with number <= r < number + 1, i.e. the ceiling of the number |
| InstalmentFormulas.RoundingNumberFixesWhole | Instalment.cs:168-171 | a whole number rounds to itself |
| InstalmentFormulas.RoundingNumberIdempotent | Instalment.cs:168-171 | rounding twice gives the same as rounding once |
| InstalmentFormulas.RoundingNumberMonotone | Instalment.cs:168-171 | rounding never reorders two numbers |
| InstalmentFormulas.CeilingMonotone | Instalment.cs:170 | `Math.Ceiling` never reorders two numbers |
| InstalmentFormulas.Ceiling | Instalment.cs:170 | `Math.Ceiling`: the least integer not below x |
| InstalmentFormulas.TruncateToInt | Instalment.cs:85 | the `(int)` cast truncates toward zero: within one of x, on the side of zero |
| InstalmentFormulas.CalculateLoanShare | Instalment.cs:172-178 | the share is zero at rate zero, spacing zero or when everything is paid; with a positive rate and spacing it is positive exactly when less than the principal has been paid |
| InstalmentFormulas.LoanShareDifference | Instalment.cs:174-175 | paying more lowers the share by rate * 30 * spacing * (extra paid) / 36500 |
| InstalmentFormulas.LoanShareStrictlyDecreasing | Instalment.cs:174-175 | with a positive rate and spacing, the share strictly falls as the amount paid grows |
| InstalmentFormulas.CalculateRemainLoan | Instalment.cs:179-185 | the balance after instalment k is amount * (count - k), and zero after the last instalment |
| InstalmentFormulas.RemainLoanStep | Instalment.cs:182 | each instalment takes exactly one amount off the balance |
| InstalmentFormulas.RemainLoanNonIncreasing | Instalment.cs:182 | with a non-negative amount the balance never grows with k |
| InstalmentFormulas.PeriodsPerYear | Instalment.cs:189 | `per = 365 / countOfLoan` is the integer quotient: per * count <= 365 < (per + 1) * count |
| InstalmentFormulas.PeriodRate | Instalment.cs:191 | the period rate s satisfies s * per * 100 == profitRate and is positive for a positive rate |
| InstalmentFormulas.CalculateFacilityAmount | Instalment.cs:187-201 | the level amount solves the annuity equation amount * ((1+s)^n - 1) == s * whole * (1+s)^n; a positive principal gives n amounts that exceed it; a zero principal gives zero |
| InstalmentFormulas.AnnuityFacts | Instalment.cs:195-198 | s * (f / h) with f = whole * v and h = v - 1 solves the annuity equation and exceeds an even split of the principal |
| InstalmentFormulas.Pow | Instalment.cs:193 | `Math.Pow(1 + s, n)` for a natural exponent n: a positive base gives a positive power |
| InstalmentFormulas.PowAtLeastOne | Instalment.cs:193 | `Math.Pow(1 + s, n)` is at least one for s >= 0 |
| InstalmentFormulas.PowAboveOne | Instalment.cs:193 | `Math.Pow(1 + s, n)` is above one for s > 0 and n >= 1, so `h = v - 1` is never zero |
| InstalmentFormulas.PowGrowthAtMost | Instalment.cs:193 | (1+s)^n - 1 <= n * s * (1+s)^n |
| InstalmentFormulas.PowGrowthBound | Instalment.cs:193 | the same bound is strict once n >= 1 |
| InstalmentFormulas.BalanceClosedForm | Instalment.cs:187-201 | closed form of the balance of a loan repaid by level payments at period rate s |
| InstalmentFormulas.FacilityAmountRetiresPrincipal | Instalment.cs:187-201 | paying the level amount at the end of each of the n periods, with profit compounding at the period rate, leaves a balance of exactly zero |
| InstalmentModels.SumColumnNonNegative | Instalment.cs:212-213 | the `Sum` of a column of non-negative values is non-negative |
| InstalmentModels.SumColumnAppend | Instalment.cs:212-213 | `SumColumn`, summed from the head, equals the running total `Sum` keeps from the front: appending a record adds its value |
| InstalmentModels.CheckedSumOfAmounts | Instalment.cs:211 | the checked int `Sum` succeeds exactly when every running total fits in 32 bits, and then it is the exact sum of the amounts |
| InstalmentModels.RunningTotalsFitStep | Instalment.cs:211 | proof helper: the running totals fit exactly when the first one does and the rest, continued from it, do |
| InstalmentModels.TotalWholeAmount | Instalment.cs:211 | `TotalWholeAmount` succeeds exactly when every running total of the `Amount` fields fits in 32 bits (None is the overflow exception), and then it is their exact sum |
| InstalmentModels.TotalShareAmount | Instalment.cs:212 | `TotalShareAmount` of non-negative shares is non-negative |
| InstalmentModels.TotalOriginalAmount | Instalment.cs:213 | `TotalOriginalAmount` of non-negative principal parts is non-negative |
| InstalmentModels.BalancedColumnsSum | Instalment.cs:212-213 | when every record's principal part plus share is the same amount, the two column totals add up to that amount times the number of records |
| InstalmentModels.CheckedSumOfEqualAmounts | Instalment.cs:211 | the checked int sum of equal amounts is their product when that fits in 32 bits, and the overflow failure otherwise |
| Instalment.RoundIf | Instalment.cs:133 | the rounding points of the two builders: the identity without rounding, the ceiling (a whole number in [x, x + 1)) with it |
| Instalment.NextCounter | Instalment.cs:65 | `Counter++` on a byte: one more below 255, zero after 255 |
| Instalment.ByteLoopGuardAlwaysHolds | Instalment.cs:65 | with 255 or more instalments the byte counter never exceeds the count, so the guard `Counter <= CountOfLoan` never fails |
| Instalment.WholeYears | Instalment.cs:79 | `months / 12` truncates toward zero, for negative months too |
| Instalment.DueDateOf | Instalment.cs:79-81 | instalment `Counter` falls `(Counter - 1) * Duration` months ahead, and for a non-negative spacing its year offset counts the whole years in one more spacing than that |
| Instalment.DueDateMonthsAdvance | Instalment.cs:81 | the month offsets of consecutive due dates are one spacing apart (the year offsets need not be) |
| Instalment.DueDateYearRunsOneSpacingAhead | Instalment.cs:79-81 | for a spacing of whole years, a due date's year runs one spacing ahead of its month |
| Instalment.RecordAt | Instalment.cs:65-94 | proof helper: every record of a schedule follows the per-record rules |
| Instalment.BuildFacilityInfo | Instalment.cs:55-165 | the loop returns the (possibly rounded) level amount and exactly CountOfLoan records numbered 1.. in order; record k has share accrued on FacilityAmount * (k - 1) paid, principal part FacilityAmount - share, Amount the truncated level amount, remain fields from `CalculateRemainLoan` (+ share) or zero on the last record, and its due-date offsets |
| Instalment.PaidBeforeStep | Instalment.cs:75 | proof helper: adding the level amount to the amount paid before instalment k gives the amount paid before instalment k + 1 |
| Instalment.FacilityAmountOf | Instalment.cs:113 | the level amount of the rounding builder is a whole number |
| Instalment.GetFacilityInfo | Instalment.cs:55-108 | the unrounded builder returns a schedule whose level amount is `CalculateFacilityAmount` |
| Instalment.GetFacilityInfoWithRounding | Instalment.cs:109-165 | the rounding builder returns a schedule whose level amount is `RoundingNumber(CalculateFacilityAmount(...))`, with rounding at lines 113, 133 and 148 |
| Instalment.ScheduleRecordsBalance | Instalment.cs:82-94 | in every record of either builder (lines 85, 92, 143 and 149), principal part + share == FacilityAmount |
| Instalment.OriginalTotalNeedNotMatchPrincipal | Instalment.cs:175 | the principal parts need not sum to the principal: for 36500 at 1% in one instalment a month apart, the level amount is 36501, the share 30 and `TotalOriginalAmount` 36471 |
| Instalment.ScheduleTotalsBalance | Instalment.cs:212-213 | TotalShareAmount + TotalOriginalAmount == CountOfLoan * FacilityAmount |
| Instalment.ScheduleTotalWholeAmount | Instalment.cs:211 | TotalWholeAmount is CountOfLoan * (int)FacilityAmount, or the overflow failure when that leaves 32 bits |
| Instalment.ScheduleRemainOrginalFollowsFormula | Instalment.cs:82-93 | every record's RemainOrginalAmount, the last included, is the (rounded) remain term of its own instalment number |
| Instalment.PaidBeforeIncreasing | Instalment.cs:75 | proof helper: with a positive level amount the amount paid so far strictly grows |
| Instalment.FacilityAmountPositive | Instalment.cs:57 | (and line 113) a positive principal gives a positive level amount in both builders |
| Instalment.ScheduleSharesDecrease | Instalment.cs:77 | (and line 133) with a positive principal and spacing each share is at most the one before, and strictly less without rounding |
| Instalment.ScheduleRemainOrginalNonIncreasing | Instalment.cs:91-92 | (and lines 148-149) with a non-negative principal the principal-only balance never grows along the schedule |
| Instalment.WholeDifference | Instalment.cs:143 | proof helper (and line 149): differences and sums of whole numbers are whole |
| Instalment.RoundedScheduleIsWhole | Instalment.cs:109-165 | in the rounding builder the level amount and every share, principal part and remaining balance are whole numbers |
| Instalment.ScheduleDueDatesAdvance | Instalment.cs:81 | (and line 137) the month offsets of consecutive records' due dates are one spacing apart (the year offsets need not be) |

## Left out

- `InstalmentController` (Instalment.cs:9-46) is left out. It is HTTP routing and maps exceptions to `NotFound`.
- Due dates are modelled only as their two offsets, years ahead and months ahead. The reasons:
  - They read the ambient clock `DateTime.Now`.
  - They are formatted with `PersianCalendar`, whose rules are not part of this model.
  - The initial `PayDate` (lines 59 and 115) is overwritten before any use, so it is not modelled.
- IEEE double behaviour is not modelled: no NaN, no infinities and no rounding error. Every value is an exact real. So the model does not see that `(x + s) - s` may differ from `x` in floating point.
- InstalmentFormulas.RoundingNumber: modelled as the exact ceiling. In doubles, `(number / 100) * 100` can exceed a whole number by one unit in the last place, and `Math.Ceiling` then returns one more. For example `7.0 / 100 * 100` is `7.000000000000001`, so 7 rounds to 8.
  - So `RoundingNumberFixesWhole`, `RoundingNumberIdempotent` and the rounded case of `ScheduleRemainOrginalFollowsFormula` hold only over exact reals.
  - Line 148 rounds `FacilityAmount * (CountOfLoan - k)`, which is already whole. There the program can report a `RemainOrginalAmount` one above the model's value.
- Instalment.BuildFacilityInfo: requires 1 <= CountOfLoan <= 254.
  - A count of 0 raises `DivideByZeroException`.
  - With a count of 255 or more the guard `Counter <= CountOfLoan` never fails, as `ByteLoopGuardAlwaysHolds` shows. The loop appends records until memory runs out, and the controller's `catch` (line 21) reports that as `NotFound`.
  - A negative count raises nothing. The loop at line 65 runs zero times, and the builder returns an empty `FacilityList`. `FacilityAmount` is then the formula's value for a negative exponent: `per = 365 / CountOfLoan` is negative from -1 to -365, and zero below -365, where the period rate becomes infinite.
  - None of these cases is modelled.
- Instalment.BuildFacilityInfo: requires ProfitRate > 0. A zero rate makes `h = v - 1` zero, so the annuity formula yields NaN. Excluding negative rates is a scope choice. For `-100 * per < ProfitRate < 0` (so -1 < s < 0) lines 189-198 give an ordinary positive amount, for example about 0.0815 times the principal at rate -10 over 12 instalments. Only at `ProfitRate <= -100 * per` (s <= -1) can `v - 1` be zero or the amount change sign.
- Instalment.BuildFacilityInfo: requires that `(int)FacilityAmount` fits in 32 bits. The out-of-range cast is not modelled.
- The products `Counter * DurationOfLoanPayment` and `(Counter - 1) * DurationOfLoanPayment` are unbounded integers in the model. The source computes them in 32-bit arithmetic and may wrap them.
- `DateTime.AddYears` and `AddMonths` throw for out-of-range dates. That is not modelled.
- A null `FacilityList` in the response totals (lines 211-213) is not modelled. Both builders always set the list.
- InstalmentFormulas.CalculateFacilityAmount: requires 1 <= countOfLoan <= 365 and a positive rate.
  - A count of 0 divides by zero at line 189.
  - Above 365, `per` is 0 and the period rate is infinite.
  - A negative count raises `1 + s` to a negative power in `Math.Pow`. `Pow` takes natural exponents only.
  - A rate of zero or below is covered by the `ProfitRate > 0` line above.
