/**
  The ROI estimate of the LLMO ROI calculator: six client and pricing inputs
  in, incremental revenue and profit, total service cost, ROI, net profit and
  payback period out. Arithmetic is exact (`real`); percentages and the
  horizon are the whole numbers the sliders produce. ROI is `None` when there
  is no service cost, and a payback that is never reached is its own
  constructor instead of a label string.
*/
module RoiCalculator {

  import opened RoiArithmetic

  /** ROI is absent when the total service cost is zero. */
  datatype Option<+T> = None | Some(value: T)

  /** Payback period: a whole number of months, or never. */
  datatype Payback = Reachable(months: nat) | NotReachable

  /** The six sidebar values. */
  datatype Input = Input(
    baselineRevenue: real,  // EUR per month, before the uplift
    marginPercent: int,     // contribution margin, % of revenue
    upliftPercent: int,     // expected revenue uplift, %
    horizonMonths: int,     // evaluation horizon
    setupFee: real,         // one-off, EUR
    monthlyRetainer: real   // EUR per month
  )

  /** Everything the results panel and its details breakdown show. */
  datatype Estimate = Estimate(
    incrementalRevenue: real,
    incrementalProfit: real,
    totalServiceCost: real,
    roi: Option<real>,
    netProfit: real,
    payback: Payback
  )

  /** The ranges the sidebar widgets allow. */
  predicate Valid(i: Input) {
    && i.baselineRevenue >= 0.0
    && 0 <= i.marginPercent <= 100
    && 0 <= i.upliftPercent <= 100
    && 1 <= i.horizonMonths <= 24
    && i.setupFee >= 0.0
    && i.monthlyRetainer >= 0.0
  }

  // ---------------------------------------------------------------------------
  // The calculation block.

  /**
    Extra revenue over the whole horizon: the uplift share of the baseline,
    every month. As a product, `baselineRevenue * (upliftPercent / 100) *
    horizonMonths`; equal by `IncrementalRevenueAsWritten`.
  */
  function IncrementalRevenue(i: Input): (r: real)
    requires Valid(i)
    ensures 0.0 <= r <= Times(i.baselineRevenue, i.horizonMonths)
    ensures r == 0.0 <==> i.upliftPercent == 0 || i.baselineRevenue == 0.0
  {
    var monthly := OfPercent(i.baselineRevenue, i.upliftPercent);
    TimesMonotoneAmount(monthly, i.baselineRevenue, i.horizonMonths);
    Times(monthly, i.horizonMonths)
  }

  /**
    The share of the extra revenue kept as contribution margin:
    `IncrementalRevenue * (marginPercent / 100)`; equal by
    `IncrementalProfitAsWritten`.
  */
  function IncrementalProfit(i: Input): (r: real)
    requires Valid(i)
    ensures 0.0 <= r <= IncrementalRevenue(i)
    ensures i.marginPercent == 100 ==> r == IncrementalRevenue(i)
    ensures i.marginPercent == 0 ==> r == 0.0
  {
    OfPercent(IncrementalRevenue(i), i.marginPercent)
  }

  /**
    Setup fee plus the retainer for every month of the horizon:
    `setupFee + monthlyRetainer * horizonMonths`; equal by
    `TotalServiceCostAsWritten`.
  */
  function TotalServiceCost(i: Input): (r: real)
    requires Valid(i)
    ensures r >= i.setupFee && r >= i.monthlyRetainer
    ensures r == 0.0 <==> i.setupFee == 0.0 && i.monthlyRetainer == 0.0
  {
    i.setupFee + Times(i.monthlyRetainer, i.horizonMonths)
  }

  /** Profit after the service cost; defined for every valid input, possibly negative. */
  function NetProfit(i: Input): (r: real)
    requires Valid(i)
    ensures -TotalServiceCost(i) <= r <= IncrementalProfit(i)
  {
    IncrementalProfit(i) - TotalServiceCost(i)
  }

  /**
    Return on investment, absent exactly when there is no cost to divide by:
    `(IncrementalProfit - TotalServiceCost) / TotalServiceCost`; equal by
    `RoiAsWritten`.
  */
  function Roi(i: Input): (r: Option<real>)
    requires Valid(i)
    ensures r.Some? <==> TotalServiceCost(i) > 0.0
    ensures r.Some? ==> r.value == Ratio(NetProfit(i), TotalServiceCost(i))
    ensures r.Some? ==> r.value >= -1.0
  {
    var cost := TotalServiceCost(i);
    if cost > 0.0 then
      RatioSign(IncrementalProfit(i) - cost, cost);
      Some(Ratio(IncrementalProfit(i) - cost, cost))
    else None
  }

  /**
    Contribution margin earned in one month of the uplift:
    `baselineRevenue * (upliftPercent / 100) * (marginPercent / 100)`; equal by
    `MonthlyIncrementalProfitAsWritten`.
  */
  function MonthlyIncrementalProfit(i: Input): (r: real)
    requires Valid(i)
    ensures 0.0 <= r <= i.baselineRevenue
  {
    OfPercent(OfPercent(i.baselineRevenue, i.upliftPercent), i.marginPercent)
  }

  /** What one month leaves after paying that month's retainer. */
  function NetMonthlyBenefit(i: Input): (r: real)
    requires Valid(i)
    ensures -i.monthlyRetainer <= r <= MonthlyIncrementalProfit(i)
  {
    MonthlyIncrementalProfit(i) - i.monthlyRetainer
  }

  /** After `m` months the accumulated net benefit has paid off the setup fee. */
  predicate Covers(i: Input, m: nat)
    requires Valid(i)
  {
    Times(NetMonthlyBenefit(i), m) >= i.setupFee
  }

  /**
    Payback period: never when a month brings no positive net benefit,
    otherwise the setup fee over that benefit rounded up. Not capped by the
    horizon.
  */
  function PaybackPeriod(i: Input): (p: Payback)
    requires Valid(i)
    ensures p.NotReachable? <==> NetMonthlyBenefit(i) <= 0.0
    ensures p.Reachable? ==> Covers(i, p.months)
    ensures p.Reachable? && p.months > 0 ==> !Covers(i, p.months - 1)
    ensures p.Reachable? ==> (p.months == 0 <==> i.setupFee == 0.0)
  {
    var benefit := NetMonthlyBenefit(i);
    if benefit <= 0.0 then NotReachable
    else
      var n := Ceil(i.setupFee / benefit);
      CeilQuotient(i.setupFee, benefit, n);
      Reachable(n)
  }

  /** The whole calculation block, as the results panel reads it. */
  function Evaluate(i: Input): (e: Estimate)
    requires Valid(i)
    ensures e.netProfit == e.incrementalProfit - e.totalServiceCost
    ensures e.roi.Some? <==> e.totalServiceCost > 0.0
    ensures e.roi.Some? ==> e.roi.value == Ratio(e.netProfit, e.totalServiceCost)
    ensures 0.0 <= e.incrementalProfit <= e.incrementalRevenue
    ensures e.payback.NotReachable? <==> NetMonthlyBenefit(i) <= 0.0
    ensures e.payback.Reachable? ==> Covers(i, e.payback.months)
    ensures e.payback.Reachable? && e.payback.months > 0 ==> !Covers(i, e.payback.months - 1)
  {
    Estimate(
      IncrementalRevenue(i),
      IncrementalProfit(i),
      TotalServiceCost(i),
      Roi(i),
      NetProfit(i),
      PaybackPeriod(i)
    )
  }
}
