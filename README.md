# LLMO ROI calculator — a Dafny model of the ROI estimate

The LLMO ROI calculator is a single Streamlit page. It estimates what a client
gains from buying the "AIO Commerce Accelerator" service. Six sidebar inputs
go in:

- baseline monthly revenue;
- contribution margin, in percent;
- expected revenue uplift, in percent;
- evaluation horizon, in months;
- one-off setup fee;
- monthly retainer.

Six results come out:

- incremental revenue over the horizon;
- incremental profit;
- total service cost;
- ROI, which is absent when there is no cost;
- net profit;
- payback period, which may be "not within horizon".

This project models that calculation (`roi_calculator_app.py:62-81` and the net
profit of line 88) as pure Dafny functions, and proves what the results mean.

- `roi_arithmetic.dfy`, module `RoiArithmetic`: the arithmetic the estimate is
  built from.
  - Every product in the estimate is an amount of money times a whole number:
    a slider percentage from 0 to 100 or a month count from 1 to 24. `Times`
    defines that product by repeated addition, and `TimesIsProduct` shows it
    equal to the real product.
  - `OfPercent` is `x * (p / 100)`. `Ratio` is the quotient used for ROI.
    `Ceil` is `math.ceil`, written with `.Floor`.
  - `CeilQuotient` characterises `ceil(fee / benefit)` as the least month count
    whose accumulated benefit reaches the fee.
- `roi_calculator.dfy`, module `RoiCalculator`: the data model and the
  calculation block. It has:
  - the inputs (`Input`);
  - the widget ranges of `roi_calculator_app.py:17-60` as the predicate
    `Valid`, which every operation requires;
  - one function per computed quantity;
  - `Evaluate`, which returns all results as an `Estimate`.

  ROI is an `Option` that is `None` exactly when the total cost is zero. The
  payback is `Reachable(months)` or `NotReachable` rather than a label string.
  `Covers(i, m)` says that `m` months of net monthly benefit pay off the setup
  fee.
- `roi_properties.dfy`, module `RoiProperties`: lemmas that relate several
  results or several inputs.
  - The `...AsWritten` lemmas restate the calculation with the source's own
    real products and quotients.
  - Further lemmas cover the payback characterisation, the agreement between
    payback and net profit, and the sign of ROI.
  - Monotonicity lemmas follow the uplift.
  - Worked scenarios use the calculator's default inputs.

Arithmetic is exact (`real`). Python's `/` on these operands is true division,
so `uplift / 100` is an exact fraction here. `math.ceil` is the least integer
not below its argument.

The ROI estimate is deterministic and has no hidden state. Each result is a
Dafny function of the six inputs, so evaluating it twice gives the same value.

Two behaviours of the source are stated as lemmas rather than changed:

- The payback does not look at the horizon and is not capped by it, although
  the unreachable case is labelled "Not within horizon". See
  `PaybackIgnoresHorizon` and `PaybackCanExceedHorizon`.
- With no setup fee and a net monthly benefit of exactly zero, the payback is
  "not within horizon" although nothing is left to recover. See
  `BreakEvenIsNotReachable`.

The introductory text at `roi_calculator_app.py:10-12` opens a triple-quoted
string but closes it with a single `"`. The string therefore runs on to the
triple quote on line 93, and the file as written is not valid Python. The
model follows the calculation block as its authors evidently meant it.

## Model

| member | source | states |
|---|---|---|
| RoiCalculator.Valid | roi_calculator_app.py:17-60 | baseline revenue, setup fee and retainer are at least 0; margin and uplift are whole numbers from 0 to 100; the horizon is a whole number from 1 to 24 |
| RoiArithmetic.Times | roi_calculator_app.py:64 | a monthly amount accumulated over `n` months: not negative for a non-negative amount, at least the amount after one month, zero exactly when the amount or the count is zero |
| RoiArithmetic.TimesIsProduct | roi_calculator_app.py:64 | the accumulation equals the real product `x * n` |
| RoiArithmetic.OfPercent | roi_calculator_app.py:66 | `p` percent of a non-negative amount lies between 0 and the amount, is zero exactly when the amount or `p` is zero, and is the whole amount at 100 percent |
| RoiArithmetic.OfPercentIsProduct | roi_calculator_app.py:66 | a percentage equals `x * (p / 100)` |
| RoiArithmetic.TimesOfPercentIsProduct | roi_calculator_app.py:64 | a percentage accumulated over `n` months equals `x * (p / 100) * n` |
| RoiArithmetic.OfPercentOfPercentIsProduct | roi_calculator_app.py:75 | a percentage of a percentage equals `x * (p / 100) * (q / 100)` |
| RoiArithmetic.Ratio | roi_calculator_app.py:72 | the quotient is the number that the positive divisor times gives the numerator |
| RoiArithmetic.RatioSign | roi_calculator_app.py:72 | the quotient is non-negative or zero exactly when the numerator is, and is at least -1 when the numerator is at least minus the divisor |
| RoiArithmetic.RatioUnique | roi_calculator_app.py:72 | the quotient is the only number with that property |
| RoiArithmetic.RatioMonotone | roi_calculator_app.py:72 | a larger numerator over the same divisor gives a quotient that is not smaller |
| RoiArithmetic.Ceil | roi_calculator_app.py:80 | `math.ceil`: the result is not below `x` and less than `x + 1`, so it is the least such integer |
| RoiArithmetic.CeilQuotient | roi_calculator_app.py:80 | for a positive benefit, `ceil(fee / benefit)` is non-negative, its months of benefit reach the fee, one month fewer does not, and it is zero exactly when the fee is zero |
| RoiArithmetic.LeastCount | roi_calculator_app.py:80 | a count whose predecessor falls short of the fee is not larger than any count that reaches it |
| RoiCalculator.IncrementalRevenue | roi_calculator_app.py:64 | incremental revenue lies between 0 and the baseline over the whole horizon, and is zero exactly when the uplift or the baseline is zero |
| RoiCalculator.IncrementalProfit | roi_calculator_app.py:66 | incremental profit lies between 0 and incremental revenue, equals it at a 100 % margin and is zero at a 0 % margin |
| RoiCalculator.TotalServiceCost | roi_calculator_app.py:68 | the cost is at least the setup fee and at least one month's retainer, and is zero exactly when both are zero |
| RoiCalculator.Roi | roi_calculator_app.py:70-72 | ROI is present exactly when the total cost is positive; then it is net profit over cost and never below -1 |
| RoiCalculator.NetProfit | roi_calculator_app.py:88 | net profit is defined for every valid input and lies between minus the cost and the incremental profit |
| RoiCalculator.MonthlyIncrementalProfit | roi_calculator_app.py:75 | one month's incremental margin lies between 0 and the baseline revenue |
| RoiCalculator.NetMonthlyBenefit | roi_calculator_app.py:76 | the monthly benefit lies between minus the retainer and the monthly incremental profit |
| RoiCalculator.PaybackPeriod | roi_calculator_app.py:77-81 | not reachable exactly when the net monthly benefit is not positive; otherwise its months cover the fee, one month fewer does not, and it is zero months exactly when the fee is zero |
| RoiCalculator.Evaluate | roi_calculator_app.py:62-81 | the whole estimate: net profit is incremental profit minus cost, ROI is present exactly for a positive cost and is then net profit over cost, profit lies between 0 and revenue, and the payback is characterised as in `PaybackPeriod` |
| RoiProperties.IncrementalRevenueAsWritten | roi_calculator_app.py:64 | incremental revenue equals `baseline * (uplift / 100) * horizon` |
| RoiProperties.IncrementalProfitAsWritten | roi_calculator_app.py:66 | incremental profit equals `inc_rev * (margin / 100)` |
| RoiProperties.TotalServiceCostAsWritten | roi_calculator_app.py:68 | the cost equals `setup_fee + retainer * horizon` |
| RoiProperties.RoiAsWritten | roi_calculator_app.py:70-72 | for a positive cost, ROI is `(inc_profit - total_cost) / total_cost`, and ROI times cost is the net profit of line 88 |
| RoiProperties.MonthlyIncrementalProfitAsWritten | roi_calculator_app.py:75 | the monthly incremental profit equals `baseline * (uplift / 100) * (margin / 100)` |
| RoiProperties.NotReachableAsWritten | roi_calculator_app.py:75-78 | the payback is not reachable exactly when `baseline * (uplift / 100) * (margin / 100) - retainer <= 0` |
| RoiProperties.PaybackBoundsAsWritten | roi_calculator_app.py:80 | a reachable payback `n` satisfies `n * benefit >= fee` and, for `n > 0`, `(n - 1) * benefit < fee` |
| RoiProperties.PaybackIsLeast | roi_calculator_app.py:80 | the payback is not larger than any month count that covers the fee |
| RoiProperties.NotReachableNeverCovers | roi_calculator_app.py:77-78 | without a positive monthly benefit, no number of months pays off a positive fee |
| RoiProperties.BreakEvenIsNotReachable | roi_calculator_app.py:77-78 | a zero fee with a monthly benefit of exactly zero is not reachable, although zero months cover it and the net profit is zero |
| RoiProperties.PaybackIgnoresHorizon | roi_calculator_app.py:75-81 | changing the horizon within its range leaves the payback unchanged |
| RoiProperties.PaybackCanExceedHorizon | roi_calculator_app.py:75-81 | a reachable payback of 100 months occurs with a one-month horizon |
| RoiProperties.NetProfitFromMonthlyBenefit | roi_calculator_app.py:64-76 | net profit is the horizon's accumulated net monthly benefit minus the setup fee |
| RoiProperties.PaybackWithinHorizonIffNetProfit | roi_calculator_app.py:64-88 | the payback is reached within the horizon exactly when the monthly benefit is positive and the net profit is not negative |
| RoiProperties.RoiSignIsNetProfitSign | roi_calculator_app.py:72 | ROI is non-negative or zero exactly when the net profit is |
| RoiProperties.UpliftRaisesRevenue | roi_calculator_app.py:64 | a larger uplift, all else equal, never lowers incremental revenue |
| RoiProperties.UpliftRaisesProfit | roi_calculator_app.py:66 | a larger uplift never lowers incremental profit |
| RoiProperties.UpliftRaisesRoi | roi_calculator_app.py:64-72 | a larger uplift leaves the cost unchanged, never lowers net profit, keeps ROI present or absent, and never lowers a present ROI |
| RoiProperties.UpliftRaisesMonthlyBenefit | roi_calculator_app.py:75-76 | a larger uplift never lowers the net monthly benefit |
| RoiProperties.UpliftShortensPayback | roi_calculator_app.py:75-81 | a larger uplift keeps a reachable payback reachable and never lengthens it |
| RoiProperties.ScenarioDefaults | roi_calculator_app.py:17-81 | the default inputs give 90000 revenue, 36000 profit, 56000 cost, ROI -20000/56000, net profit -20000, and a payback that is not reachable |
| RoiProperties.ScenarioLowRetainer | roi_calculator_app.py:17-81 | the defaults with a 1000 retainer give 20000 cost, ROI 0.8, net profit 16000 and a payback of 4 months |
| RoiProperties.FreeService | roi_calculator_app.py:68-81 | with no fee and no retainer there is no ROI, the net profit is the incremental profit, and a positive benefit pays back in 0 months |
| RoiProperties.NoUplift | roi_calculator_app.py:64-81 | with no uplift, revenue and profit are zero, the net profit is minus the cost, a present ROI is -1, and the payback is not reachable |

## Left out

- The Streamlit page is not modelled: page setup and text (lines 4-13, 96), columns, metrics and the details expander (lines 84-94). They are calls into a library that is not part of this model.
- The sidebar widgets (lines 15-60) are modelled only by the ranges they allow, in `Valid`. Their default values appear only in the scenario lemmas. Their `step` settings do not limit what can be typed, so they are left out.
- Display formatting is not modelled. This covers the ROI shown as a percentage with one decimal, the "N/A" label, thousands separators, and the "N months" and "Not within horizon" strings (lines 78, 81, 87-94). `Payback` and `Option` carry the same information.
- IEEE floating point is not modelled. The model computes with exact reals, so it does not show float rounding of the products or of the payback quotient before `math.ceil`.
- NetProfit: its own contract gives bounds only. Its defining relation to the monthly benefit is in `NetProfitFromMonthlyBenefit`.
