/**
  Properties of the ROI estimate that relate several of its outputs, several
  inputs, or the fixed scenarios of the calculator's defaults.
*/
module RoiProperties {
  import opened RoiArithmetic
  import opened RoiCalculator

  // ---------------------------------------------------------------------------
  // The calculation as the source writes it, with real products and quotients.

  /** Incremental revenue is the baseline times the uplift fraction times the horizon. */
  lemma IncrementalRevenueAsWritten(i: Input)
    requires Valid(i)
    ensures IncrementalRevenue(i)
      == i.baselineRevenue * (i.upliftPercent as real / 100.0) * i.horizonMonths as real
  {
    TimesOfPercentIsProduct(i.baselineRevenue, i.upliftPercent, i.horizonMonths);
  }

  /** Incremental profit is incremental revenue times the margin fraction. */
  lemma IncrementalProfitAsWritten(i: Input)
    requires Valid(i)
    ensures IncrementalProfit(i) == IncrementalRevenue(i) * (i.marginPercent as real / 100.0)
  {
    OfPercentIsProduct(IncrementalRevenue(i), i.marginPercent);
  }

  /** The service cost is the setup fee plus the retainer times the horizon. */
  lemma TotalServiceCostAsWritten(i: Input)
    requires Valid(i)
    ensures TotalServiceCost(i) == i.setupFee + i.monthlyRetainer * i.horizonMonths as real
  {
    TimesIsProduct(i.monthlyRetainer, i.horizonMonths);
  }

  /** When present, ROI is net profit over cost, so ROI times cost is the net profit. */
  lemma RoiAsWritten(i: Input)
    requires Valid(i) && TotalServiceCost(i) > 0.0
    ensures Roi(i) == Some((IncrementalProfit(i) - TotalServiceCost(i)) / TotalServiceCost(i))
    ensures Roi(i).value * TotalServiceCost(i) == NetProfit(i)
  {
  }

  /** The monthly incremental profit is the baseline times the uplift and margin fractions. */
  lemma MonthlyIncrementalProfitAsWritten(i: Input)
    requires Valid(i)
    ensures MonthlyIncrementalProfit(i)
      == i.baselineRevenue * (i.upliftPercent as real / 100.0) * (i.marginPercent as real / 100.0)
  {
    OfPercentOfPercentIsProduct(i.baselineRevenue, i.upliftPercent, i.marginPercent);
  }

  /** The payback is not reachable exactly when the source's monthly product does not exceed the retainer. */
  lemma NotReachableAsWritten(i: Input)
    requires Valid(i)
    ensures PaybackPeriod(i).NotReachable?
      <==> i.baselineRevenue * (i.upliftPercent as real / 100.0) * (i.marginPercent as real / 100.0)
           - i.monthlyRetainer <= 0.0
  {
    MonthlyIncrementalProfitAsWritten(i);
  }

  /** A reachable payback `n` satisfies `n * benefit >= fee` and `(n - 1) * benefit < fee`. */
  lemma PaybackBoundsAsWritten(i: Input)
    requires Valid(i) && PaybackPeriod(i).Reachable?
    ensures PaybackPeriod(i).months as real * NetMonthlyBenefit(i) >= i.setupFee
    ensures PaybackPeriod(i).months > 0 ==>
      (PaybackPeriod(i).months - 1) as real * NetMonthlyBenefit(i) < i.setupFee
  {
    var n, b := PaybackPeriod(i).months, NetMonthlyBenefit(i);
    TimesIsProduct(b, n);
    if n > 0 {
      TimesIsProduct(b, n - 1);
    }
  }

  // ---------------------------------------------------------------------------
  // Payback.

  /** The payback period is the least month count whose accumulated benefit covers the setup fee. */
  lemma PaybackIsLeast(i: Input, m: nat)
    requires Valid(i) && PaybackPeriod(i).Reachable?
    requires Covers(i, m)
    ensures PaybackPeriod(i).months <= m
  {
    LeastCount(i.setupFee, NetMonthlyBenefit(i), PaybackPeriod(i).months, m);
  }

  /** Without a positive monthly benefit a positive setup fee is never recovered, however many months pass. */
  lemma NotReachableNeverCovers(i: Input, m: nat)
    requires Valid(i) && PaybackPeriod(i).NotReachable?
    requires i.setupFee > 0.0
    ensures !Covers(i, m)
  {
    TimesMonotoneAmount(NetMonthlyBenefit(i), 0.0, m);
  }

  /**
    With no setup fee and a monthly benefit of exactly zero, the payback is
    "not reachable" even though nothing is left to recover after zero months
    and the net profit is zero.
  */
  lemma BreakEvenIsNotReachable()
    ensures var i := Input(10000.0, 50, 10, 12, 0.0, 500.0);
      && Valid(i)
      && NetMonthlyBenefit(i) == 0.0
      && PaybackPeriod(i) == NotReachable
      && Covers(i, 0)
      && NetProfit(i) == 0.0
  {
    OfPercentValue(10000.0, 10, 1000.0);
    OfPercentValue(1000.0, 50, 500.0);
    TimesValue(1000.0, 12, 12000.0);
    OfPercentValue(12000.0, 50, 6000.0);
    TimesValue(500.0, 12, 6000.0);
  }

  /** The payback period does not look at the horizon. */
  lemma PaybackIgnoresHorizon(i: Input, h: int)
    requires Valid(i) && 1 <= h <= 24
    ensures PaybackPeriod(i.(horizonMonths := h)) == PaybackPeriod(i)
  {
    var j := i.(horizonMonths := h);
    assert MonthlyIncrementalProfit(j) == MonthlyIncrementalProfit(i);
    assert NetMonthlyBenefit(j) == NetMonthlyBenefit(i);
  }

  /** The payback period is not capped by the horizon: 100 months against a 1-month horizon. */
  lemma PaybackCanExceedHorizon()
    ensures var i := Input(10000.0, 100, 10, 1, 100000.0, 0.0);
      && Valid(i)
      && PaybackPeriod(i) == Reachable(100)
      && PaybackPeriod(i).months > i.horizonMonths
  {
    OfPercentValue(10000.0, 10, 1000.0);
    assert 100000.0 / 1000.0 == 100.0;
  }

  /** Net profit over the horizon is the horizon's worth of net monthly benefit minus the setup fee. */
  lemma NetProfitFromMonthlyBenefit(i: Input)
    requires Valid(i)
    ensures NetProfit(i) == Times(NetMonthlyBenefit(i), i.horizonMonths) - i.setupFee
  {
    var h := i.horizonMonths;
    OfPercentTimes(OfPercent(i.baselineRevenue, i.upliftPercent), i.marginPercent, h);
    TimesSub(MonthlyIncrementalProfit(i), i.monthlyRetainer, h);
  }

  /**
    The two sub-calculations agree: the setup fee is paid back within the
    horizon exactly when the monthly benefit is positive and the net profit
    over the horizon is not negative.
  */
  lemma PaybackWithinHorizonIffNetProfit(i: Input)
    requires Valid(i)
    ensures (PaybackPeriod(i).Reachable? && PaybackPeriod(i).months <= i.horizonMonths)
        <==> (NetMonthlyBenefit(i) > 0.0 && NetProfit(i) >= 0.0)
  {
    var b := NetMonthlyBenefit(i);
    if b > 0.0 {
      NetProfitFromMonthlyBenefit(i);
      var n := PaybackPeriod(i).months;
      if n <= i.horizonMonths {
        TimesMonotoneCount(b, n, i.horizonMonths);
      }
      if NetProfit(i) >= 0.0 {
        LeastCount(i.setupFee, b, n, i.horizonMonths);
      }
    }
  }

  /** ROI and net profit always have the same sign. */
  lemma RoiSignIsNetProfitSign(i: Input)
    requires Valid(i) && Roi(i).Some?
    ensures Roi(i).value >= 0.0 <==> NetProfit(i) >= 0.0
    ensures Roi(i).value == 0.0 <==> NetProfit(i) == 0.0
  {
    RatioSign(NetProfit(i), TotalServiceCost(i));
  }

  /** Raising the uplift, everything else fixed, never lowers incremental revenue. */
  lemma UpliftRaisesRevenue(i: Input, u: int)
    requires Valid(i) && i.upliftPercent <= u <= 100
    ensures IncrementalRevenue(i) <= IncrementalRevenue(i.(upliftPercent := u))
  {
    var b := i.baselineRevenue;
    OfPercentMonotone(b, i.upliftPercent, u);
    TimesMonotoneAmount(OfPercent(b, i.upliftPercent), OfPercent(b, u), i.horizonMonths);
  }

  /** Raising the uplift, everything else fixed, never lowers incremental profit. */
  lemma UpliftRaisesProfit(i: Input, u: int)
    requires Valid(i) && i.upliftPercent <= u <= 100
    ensures IncrementalProfit(i) <= IncrementalProfit(i.(upliftPercent := u))
  {
    UpliftRaisesRevenue(i, u);
    OfPercentMonotoneAmount(IncrementalRevenue(i), IncrementalRevenue(i.(upliftPercent := u)), i.marginPercent);
  }

  /** The service cost does not depend on the uplift, so ROI is present for both or neither and does not drop. */
  lemma UpliftRaisesRoi(i: Input, u: int)
    requires Valid(i) && i.upliftPercent <= u <= 100
    ensures TotalServiceCost(i.(upliftPercent := u)) == TotalServiceCost(i)
    ensures NetProfit(i) <= NetProfit(i.(upliftPercent := u))
    ensures Roi(i).Some? <==> Roi(i.(upliftPercent := u)).Some?
    ensures Roi(i).Some? ==> Roi(i).value <= Roi(i.(upliftPercent := u)).value
  {
    var j := i.(upliftPercent := u);
    UpliftRaisesProfit(i, u);
    var c := TotalServiceCost(i);
    if c > 0.0 {
      RatioMonotone(NetProfit(i), NetProfit(j), c);
    }
  }

  /** Raising the uplift never lowers the net monthly benefit. */
  lemma UpliftRaisesMonthlyBenefit(i: Input, u: int)
    requires Valid(i) && i.upliftPercent <= u <= 100
    ensures NetMonthlyBenefit(i) <= NetMonthlyBenefit(i.(upliftPercent := u))
  {
    var b := i.baselineRevenue;
    OfPercentMonotone(b, i.upliftPercent, u);
    OfPercentMonotoneAmount(OfPercent(b, i.upliftPercent), OfPercent(b, u), i.marginPercent);
  }

  /** A larger uplift keeps a reachable payback reachable and never lengthens it. */
  lemma UpliftShortensPayback(i: Input, u: int)
    requires Valid(i) && i.upliftPercent <= u <= 100
    requires PaybackPeriod(i).Reachable?
    ensures var j := i.(upliftPercent := u);
      && PaybackPeriod(j).Reachable?
      && PaybackPeriod(j).months <= PaybackPeriod(i).months
  {
    var j := i.(upliftPercent := u);
    UpliftRaisesMonthlyBenefit(i, u);
    var n, n' := PaybackPeriod(i).months, PaybackPeriod(j).months;
    TimesMonotoneAmount(NetMonthlyBenefit(i), NetMonthlyBenefit(j), n);
    LeastCount(i.setupFee, NetMonthlyBenefit(j), n', n);
  }

  /** The calculator's defaults: the retainer exceeds the monthly margin, so the fee is never paid back. */
  lemma ScenarioDefaults()
    ensures var e := Evaluate(Input(50000.0, 40, 15, 12, 8000.0, 4000.0));
      && e.incrementalRevenue == 90000.0
      && e.incrementalProfit == 36000.0
      && e.totalServiceCost == 56000.0
      && e.roi == Some(-20000.0 / 56000.0)
      && e.netProfit == -20000.0
      && e.payback == NotReachable
  {
    OfPercentValue(50000.0, 15, 7500.0);
    TimesValue(7500.0, 12, 90000.0);
    OfPercentValue(90000.0, 40, 36000.0);
    TimesValue(4000.0, 12, 48000.0);
    OfPercentValue(7500.0, 40, 3000.0);
  }

  /**
    The defaults with a 1000 EUR retainer: a positive ROI of 0.8, and 2000 EUR
    a month pays the 8000 EUR fee back in 4 months.
  */
  lemma ScenarioLowRetainer()
    ensures var e := Evaluate(Input(50000.0, 40, 15, 12, 8000.0, 1000.0));
      && e.incrementalRevenue == 90000.0
      && e.incrementalProfit == 36000.0
      && e.totalServiceCost == 20000.0
      && e.roi == Some(0.8)
      && e.netProfit == 16000.0
      && e.payback == Reachable(4)
  {
    OfPercentValue(50000.0, 15, 7500.0);
    TimesValue(7500.0, 12, 90000.0);
    OfPercentValue(90000.0, 40, 36000.0);
    TimesValue(1000.0, 12, 12000.0);
    OfPercentValue(7500.0, 40, 3000.0);
    assert 16000.0 / 20000.0 == 0.8;
    assert 8000.0 / 2000.0 == 4.0;
  }

  /** Free service: no ROI, the whole incremental profit is net profit, and payback is immediate. */
  lemma FreeService(i: Input)
    requires Valid(i) && i.setupFee == 0.0 && i.monthlyRetainer == 0.0
    ensures Evaluate(i).roi == None
    ensures Evaluate(i).netProfit == Evaluate(i).incrementalProfit
    ensures NetMonthlyBenefit(i) > 0.0 ==> Evaluate(i).payback == Reachable(0)
  {
  }

  /** No uplift: no incremental revenue or profit, the net profit is minus the cost, and no payback. */
  lemma NoUplift(i: Input)
    requires Valid(i) && i.upliftPercent == 0
    ensures Evaluate(i).incrementalRevenue == 0.0
    ensures Evaluate(i).incrementalProfit == 0.0
    ensures Evaluate(i).netProfit == -Evaluate(i).totalServiceCost
    ensures Evaluate(i).roi.Some? ==> Evaluate(i).roi.value == -1.0
    ensures Evaluate(i).payback == NotReachable
  {
    var c := TotalServiceCost(i);
    if c > 0.0 {
      RatioUnique(-c, c, -1.0);
    }
  }
}
