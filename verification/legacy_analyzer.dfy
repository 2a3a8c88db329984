/** The older calculator and aggregator (helpers/portfolio_analyzer.py). The
    replay is the same as the current one; what differs is the window (the
    end day is moved one day forward first), the percentage denominators and
    the missing `cost_basis` column. */
module LegacyAnalyzer {
  import opened Wrappers
  import opened Calendar
  import opened Seqs
  import opened Ledger
  import opened Prices
  import opened Position
  import opened Records
  import opened Analyzer

  /** The record of the older calculator from the replay's totals: no cost
      basis, and the current percentage taken over the capital deployed. */
  function LegacyAssemble(stock: string, product: string, start: Date, end: Date, p: Position,
                          avgCost: real, mark: real): (r: PerfRecord)
    ensures r.ticker == stock && r.product == product && r.startDate == start && r.endDate == end
    ensures r.quantity == p.held && r.avgCost == avgCost && r.totalCost == p.purchaseCost
    ensures r.realized == p.realized && r.transactionCosts == p.feesPaid
    ensures r.costBasis == None
    ensures r.currentReturn == Unrealized(p.held, mark, avgCost)
    ensures r.currentValue == (p.held as real) * avgCost + r.currentReturn
    ensures r.netReturn == r.currentReturn + r.realized
    ensures r.currentPct == CurrentPct(r.currentReturn, r.totalCost)
    ensures r.netPct == NetPct(r.netReturn, r.totalCost)
  {
    var currentReturn := Unrealized(p.held, mark, avgCost);
    var netReturn := currentReturn + p.realized;
    PerfRecord(product, stock, p.held, start, end, avgCost, None, p.purchaseCost,
               p.feesPaid, (p.held as real) * avgCost + currentReturn, currentReturn, p.realized, netReturn,
               CurrentPct(currentReturn, p.purchaseCost), NetPct(netReturn, p.purchaseCost))
  }

  /** The price the older calculator marks to: the last non-NaN day of the
      half-open window `[start, shifted)`, falling back to `shifted` itself. */
  function LegacyMarkPrice(start: Date, shifted: Date, series: Series): real {
    var live := DropNaN(series);
    PriceAt(live, LegacyOpenDay(start, shifted, live, false))
  }

  /** `calculate_mwr` of the older analyzer for the requested day `end`. The
      day is moved forward first, so rows dated `end + 1` are replayed too and
      the record carries `end + 1` as its end date. */
  function LegacyCalculateMwr(ledger: seq<Transaction>, stock: string, start: Date, end: Date,
                              series: Series, names: map<string, string>): (r: Result<PerfRecord, CalcError>)
    requires AllSignConsistent(ledger)
    ensures var h := History(ledger, stock, start, end + 1);
            && (r == Failure(EmptyHistory) <==> |h| == 0)
            && (r == Failure(ZeroQuantity) <==> |h| > 0 && HasZeroQuantity(h))
            && (r.Success? <==> |h| > 0 && !HasZeroQuantity(h))
            && (r.Success? ==>
                  && AllReplayable(h)
                  && r.value.endDate == end + 1
                  && r.value == LegacyAssemble(stock, if stock in names then names[stock] else "", start, end + 1,
                                               Replay(h, |h|), AvgCost(h), LegacyMarkPrice(start, end + 1, series)))
  {
    var shifted := end + 1;
    var h := History(ledger, stock, start, shifted);
    var product := if stock in names then names[stock] else "";
    if |h| == 0 then Failure(EmptyHistory)
    else if HasZeroQuantity(h) then Failure(ZeroQuantity)
    else
      HistorySignConsistent(ledger, stock, start, shifted);
      Success(LegacyAssemble(stock, product, start, shifted, Replay(h, |h|), AvgCost(h),
                             LegacyMarkPrice(start, shifted, series)))
  }

  /** A trade of the ticker dated the day after the requested end day is part
      of the replayed history (when `start` is not after that day). */
  lemma NextDayTradeIsReplayed(ledger: seq<Transaction>, stock: string, start: Date, end: Date, t: Transaction)
    requires t in ledger && t.stock == stock && t.date == end + 1
    requires start <= end + 1
    ensures t in History(ledger, stock, start, end + 1)
    ensures t !in History(ledger, stock, start, end)
  {
  }

  /** Without trades on the day after `end`, the shifted window replays the
      same history as the current calculator. */
  lemma {:induction false} ShiftedHistoryAgrees(ledger: seq<Transaction>, stock: string, start: Date, end: Date)
    requires forall t :: t in ledger && t.stock == stock ==> t.date != end + 1
    ensures History(ledger, stock, start, end + 1) == History(ledger, stock, start, end)
  {
    FilterCongruent(ledger, (t: Transaction) => t.date >= start && t.date <= end + 1 && t.stock == stock,
                    (t: Transaction) => t.date >= start && t.date <= end && t.stock == stock);
  }

  /** The two record builders differ only in the end date, the cost basis
      column and the current percentage's denominator. */
  lemma AssemblersAgree(stock: string, product: string, start: Date, end: Date, shifted: Date,
                        p: Position, avgCost: real, mark: real)
    ensures var current := Assemble(stock, product, start, end, p, avgCost, mark);
            LegacyAssemble(stock, product, start, shifted, p, avgCost, mark)
              == current.(endDate := shifted, costBasis := None,
                          currentPct := CurrentPct(current.currentReturn, current.totalCost))
  {
  }

  /** With a non-NaN day in `[start, end]`, both calculators mark to the same
      price. */
  lemma MarkPricesAgree(start: Date, end: Date, series: Series)
    requires exists k :: k in DropNaN(series) && start <= k <= end
    ensures LegacyMarkPrice(start, end + 1, series) == MarkPrice(start, end, series)
  {
    LegacyWindowIsShiftedClosedWindow(start, end, DropNaN(series), false);
  }

  /** When nobody traded the ticker on the day after `end` and the series
      has a non-NaN day in `[start, end]`, the two calculators agree on every
      figure except the end date, the cost basis column and the current
      percentage, whose denominator differs. */
  lemma LegacyAgreesWithCurrent(ledger: seq<Transaction>, stock: string, start: Date, end: Date,
                                series: Series, names: map<string, string>)
    requires AllSignConsistent(ledger)
    requires forall t :: t in ledger && t.stock == stock ==> t.date != end + 1
    requires exists k :: k in DropNaN(series) && start <= k <= end
    ensures var legacy := LegacyCalculateMwr(ledger, stock, start, end, series, names);
            var current := CalculateMwr(ledger, stock, start, end, series, names);
            && legacy.Success? == current.Success?
            && (legacy.Failure? ==> legacy == current)
            && (legacy.Success? ==>
                  legacy.value == current.value.(endDate := end + 1, costBasis := None,
                                                 currentPct := CurrentPct(current.value.currentReturn,
                                                                          current.value.totalCost)))
  {
    ShiftedHistoryAgrees(ledger, stock, start, end);
    MarkPricesAgree(start, end, series);
    var h := History(ledger, stock, start, end);
    var legacy := LegacyCalculateMwr(ledger, stock, start, end, series, names);
    var current := CalculateMwr(ledger, stock, start, end, series, names);
    if |h| == 0 {
      assert legacy == current == Failure(EmptyHistory);
    } else if HasZeroQuantity(h) {
      assert legacy == current == Failure(ZeroQuantity);
    } else {
      var product := if stock in names then names[stock] else "";
      AssemblersAgree(stock, product, start, end, end + 1, Replay(h, |h|), AvgCost(h), MarkPrice(start, end, series));
      assert current.value == Assemble(stock, product, start, end, Replay(h, |h|), AvgCost(h), MarkPrice(start, end, series));
    }
  }

  /** The older aggregator's `FULL` record: the same sums without a cost
      basis, and the current percentage over the summed capital deployed. */
  function LegacyPortfolioRecord(start: Date, end: Date, rs: seq<PerfRecord>): (r: PerfRecord)
    ensures r.ticker == "FULL" && r.product == "Full portfolio"
    ensures r.startDate == start && r.endDate == end
    ensures r.costBasis == None
    ensures Contribution(r) == Accumulate(rs).(costBasis := 0.0)
    ensures r.quantity > 0 ==> r.avgCost * (r.quantity as real) == r.totalCost
    ensures r.quantity <= 0 ==> r.avgCost == 0.0
    ensures r.totalCost != 0.0 ==> r.currentPct * r.totalCost == 100.0 * r.currentReturn
    ensures r.totalCost != 0.0 ==> r.netPct * r.totalCost == 100.0 * (r.currentReturn + r.realized)
    ensures r.totalCost == 0.0 ==> r.currentPct == 0.0 && r.netPct == 0.0
  {
    var t := Accumulate(rs);
    var avgCost := if t.quantity > 0 then t.purchaseCost / (t.quantity as real) else 0.0;
    PerfRecord("Full portfolio", "FULL", t.quantity, start, end, avgCost, None,
               t.purchaseCost, t.transactionCosts, t.currentValue, t.currentReturn, t.realized,
               t.netReturn, CurrentPct(t.currentReturn, t.purchaseCost),
               NetPct(t.currentReturn + t.realized, t.purchaseCost))
  }

  /** Both aggregators produce the same figures apart from the cost basis and
      the current percentage. */
  lemma AggregatorsAgree(start: Date, end: Date, rs: seq<PerfRecord>)
    ensures var current := PortfolioRecord(start, end, rs);
            LegacyPortfolioRecord(start, end, rs)
              == current.(costBasis := None, currentPct := CurrentPct(current.currentReturn, current.totalCost))
  {
  }

  /** Ticker `s` has a price series and the older calculation succeeds. */
  predicate LegacyPriced(ledger: seq<Transaction>, s: string, start: Date, end: Date,
                         prices: map<string, Series>, names: map<string, string>)
    requires AllSignConsistent(ledger)
  {
    s in prices && LegacyCalculateMwr(ledger, s, start, end, prices[s], names).Success?
  }

  /** One ticker inside the loop: a ticker without a price series raises
      `KeyError`, any other goes through `calculate_mwr`. */
  function LegacyCalcFor(ledger: seq<Transaction>, s: string, start: Date, end: Date,
                        prices: map<string, Series>, names: map<string, string>): (r: Result<PerfRecord, CalcError>)
    requires AllSignConsistent(ledger)
    ensures r.Success? <==> LegacyPriced(ledger, s, start, end, prices, names)
    ensures r.Success? ==> r.value == LegacyCalculateMwr(ledger, s, start, end, prices[s], names).value
    ensures s !in prices ==> r == Failure(NoPriceSeries(s))
  {
    if s !in prices then Failure(NoPriceSeries(s)) else LegacyCalculateMwr(ledger, s, start, end, prices[s], names)
  }

  /** The per-ticker loop of the older `calculate_all_stocks_mwr`. */
  function LegacyStockResults(ledger: seq<Transaction>, stocks: seq<string>, start: Date, end: Date,
                              prices: map<string, Series>, names: map<string, string>)
    : (r: Result<seq<Entry>, CalcError>)
    requires AllSignConsistent(ledger)
    ensures r.Failure? <==> (exists s :: s in stocks && !LegacyPriced(ledger, s, start, end, prices, names))
    ensures r.Success? ==> DistinctKeys(r.value)
    ensures r.Success? ==> forall x :: x in Keys(r.value) <==> x in stocks
    ensures r.Success? ==> forall s :: s in stocks ==>
              && LegacyPriced(ledger, s, start, end, prices, names)
              && Lookup(r.value, s) == Some(LegacyCalculateMwr(ledger, s, start, end, prices[s], names).value)
  {
    Tabulate(stocks, (s: string) => LegacyCalcFor(ledger, s, start, end, prices, names))
  }

  /** The older `calculate_all_stocks_mwr`: one entry per ticker, then
      `'portfolio'` with the older aggregate. */
  function LegacyAllStocksMwr(ledger: seq<Transaction>, stocks: seq<string>, start: Date, end: Date,
                              prices: map<string, Series>, names: map<string, string>)
    : (r: Result<seq<Entry>, CalcError>)
    requires AllSignConsistent(ledger)
    ensures r.Failure? <==> LegacyStockResults(ledger, stocks, start, end, prices, names).Failure?
    ensures r.Success? ==> DistinctKeys(r.value)
    ensures r.Success? ==> forall x :: x in Keys(r.value) <==> x in stocks || x == "portfolio"
    ensures r.Success? ==> forall s :: s in stocks && s != "portfolio" ==>
              Lookup(r.value, s) == Some(LegacyCalculateMwr(ledger, s, start, end, prices[s], names).value)
    ensures r.Success? ==>
              var perStock := LegacyStockResults(ledger, stocks, start, end, prices, names).value;
              Lookup(r.value, "portfolio") == Some(LegacyPortfolioRecord(start, end, Values(perStock)))
  {
    match LegacyStockResults(ledger, stocks, start, end, prices, names)
    case Failure(e) => Failure(e)
    case Success(es) => Success(Upsert(es, "portfolio", LegacyPortfolioRecord(start, end, Values(es))))
  }
}
