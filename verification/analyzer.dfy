/** The current per-instrument money-weighted-return calculator and the
    portfolio aggregator (backend/services/portfolio_analyzer.py). */
module Analyzer {
  import opened Wrappers
  import opened Calendar
  import opened Seqs
  import opened Ledger
  import opened Prices
  import opened Position
  import opened Records

  /** Why a calculation raises instead of returning a record. */
  datatype CalcError =
    | EmptyHistory             // `avg_cost` is read without ever being assigned
    | ZeroQuantity             // `abs(Cost) / abs(Quantity)` with a zero quantity
    | NoPriceSeries(ticker: string)  // `stock_prices[stock]` on a missing ticker
    | UnorderableBound         // a date object ordered against a string raises `TypeError`

  /** The rows of `stock` dated before `start`, then those dated in
      `[start, end]`, sorted by (Date, Time). */
  function History(ledger: seq<Transaction>, stock: string, start: Date, end: Date): (h: seq<Transaction>)
    ensures Chronological(h)
    ensures forall t :: t in h <==> t in ledger && t.stock == stock && (t.date < start || start <= t.date <= end)
  {
    var previous := Filter(ledger, (t: Transaction) => t.date < start && t.stock == stock);
    var period := Filter(ledger, (t: Transaction) => t.date >= start && t.date <= end && t.stock == stock);
    var h := SortChronologically(previous + period);
    assert forall t :: t in h <==> t in previous + period by {
      forall t ensures t in h <==> t in previous + period {
        assert t in h <==> t in multiset(h);
        assert t in previous + period <==> t in multiset(previous + period);
      }
    }
    h
  }

  /** When `start` is not after `end`, the two windows together are simply all
      of the ticker's rows dated on or before `end`, each exactly once. */
  lemma HistoryIsTickerRowsUpToEnd(ledger: seq<Transaction>, stock: string, start: Date, end: Date)
    requires start <= end
    ensures multiset(History(ledger, stock, start, end))
         == multiset(Filter(ledger, (t: Transaction) => t.stock == stock && t.date <= end))
  {
    FilterSplit(ledger, (t: Transaction) => t.date < start && t.stock == stock,
                (t: Transaction) => t.date >= start && t.date <= end && t.stock == stock,
                (t: Transaction) => t.stock == stock && t.date <= end);
  }

  lemma HistorySignConsistent(ledger: seq<Transaction>, stock: string, start: Date, end: Date)
    requires AllSignConsistent(ledger)
    ensures AllSignConsistent(History(ledger, stock, start, end))
  {
    var h := History(ledger, stock, start, end);
    forall i | 0 <= i < |h| ensures SignConsistent(h[i]) {
      assert h[i] in ledger;
      var j :| 0 <= j < |ledger| && ledger[j] == h[i];
    }
  }

  /** The price holdings are marked to: NaN quotes dropped, then the quote of
      the last available day in `[start, end]` (0 when there is none, or when
      that day's quote is `None`). */
  function MarkPrice(start: Date, end: Date, series: Series): (p: real)
    ensures start <= end && (forall k :: k in series && start <= k <= end ==> series[k].NotANumber?) ==> p == 0.0
    ensures forall d :: d in series && start <= d <= end && !series[d].NotANumber?
                        && (forall k :: k in series && start <= k <= end && !series[k].NotANumber? ==> k <= d)
                        ==> p == (if series[d].Quote? then series[d].value else 0.0)
  {
    var live := DropNaN(series);
    PriceAt(live, OpenDay(start, end, live, false))
  }

  /** `current_return`: the unrealized gain of the holdings at the mark price,
      and 0 when nothing (or less than nothing) is held. */
  function Unrealized(held: int, mark: real, avgCost: real): (u: real)
    ensures held <= 0 ==> u == 0.0
    ensures held > 0 ==> (held as real) * avgCost + u == (held as real) * mark
  {
    if held > 0 then (held as real) * mark - (held as real) * avgCost else 0.0
  }

  /** The record built from the replay's totals `p`, the average cost and the
      mark price: cost basis `held * avg_cost`, market value `cost basis +
      current return`, net return `current + realized`, and the two guarded
      percentages. */
  function Assemble(stock: string, product: string, start: Date, end: Date, p: Position,
                    avgCost: real, mark: real): (r: PerfRecord)
    ensures r.ticker == stock && r.product == product && r.startDate == start && r.endDate == end
    ensures r.quantity == p.held && r.avgCost == avgCost && r.totalCost == p.purchaseCost
    ensures r.realized == p.realized && r.transactionCosts == p.feesPaid
    ensures r.costBasis == Some((p.held as real) * avgCost)
    ensures r.currentReturn == Unrealized(p.held, mark, avgCost)
    ensures r.currentValue == r.costBasis.value + r.currentReturn
    ensures r.netReturn == r.currentReturn + r.realized
    ensures r.currentPct == CurrentPct(r.currentReturn, r.costBasis.value)
    ensures r.netPct == NetPct(r.netReturn, r.totalCost)
  {
    var costBasis := (p.held as real) * avgCost;
    var currentReturn := Unrealized(p.held, mark, avgCost);
    var netReturn := currentReturn + p.realized;
    PerfRecord(product, stock, p.held, start, end, avgCost, Some(costBasis), p.purchaseCost,
               p.feesPaid, costBasis + currentReturn, currentReturn, p.realized, netReturn,
               CurrentPct(currentReturn, costBasis), NetPct(netReturn, p.purchaseCost))
  }

  /** What the assembled figures mean: an open long position is worth its
      quantity at the mark price and nothing else, a closed or short one has
      no unrealized return, and a fully exited one is worth nothing and has no
      cost basis. */
  lemma AssembledValuation(stock: string, product: string, start: Date, end: Date, p: Position,
                           avgCost: real, mark: real)
    ensures var r := Assemble(stock, product, start, end, p, avgCost, mark);
            && (r.quantity > 0 ==> r.currentValue == (r.quantity as real) * mark)
            && (r.quantity <= 0 ==> r.currentReturn == 0.0 && r.currentValue == r.costBasis.value)
            && (r.quantity == 0 ==> r.currentValue == 0.0 && r.costBasis == Some(0.0))
  {
  }

  /** The record `calculate_mwr` builds from an already filtered and sorted
      history `h`: the replay's totals, valued at the average BUY cost and
      marked to the last price in the window. */
  function Evaluate(stock: string, product: string, h: seq<Transaction>, start: Date, end: Date,
                    series: Series): (r: PerfRecord)
    requires AllReplayable(h)
    ensures r.ticker == stock && r.product == product && r.startDate == start && r.endDate == end
    ensures r.quantity <= BoughtQuantity(h)
    ensures r.totalCost == BoughtValue(h)
    ensures r.avgCost == AvgCost(h)
    ensures r == Assemble(stock, product, start, end, Replay(h, |h|), AvgCost(h), MarkPrice(start, end, series))
  {
    assert h[..|h|] == h;
    PurchaseCostIsBoughtValue(h, |h|);
    Assemble(stock, product, start, end, Replay(h, |h|), AvgCost(h), MarkPrice(start, end, series))
  }

  predicate HasZeroQuantity(h: seq<Transaction>) {
    exists i | 0 <= i < |h| :: h[i].quantity == 0
  }

  /** `calculate_mwr(stock, start_date, end_date, stock_price_data)`. The
      product name comes from the ticker-to-display-name map. It raises when
      the ticker has no rows up to `end` and when one of its rows has a zero
      quantity. */
  function CalculateMwr(ledger: seq<Transaction>, stock: string, start: Date, end: Date,
                        series: Series, names: map<string, string>): (r: Result<PerfRecord, CalcError>)
    requires AllSignConsistent(ledger)
    ensures var h := History(ledger, stock, start, end);
            && (r == Failure(EmptyHistory) <==> |h| == 0)
            && (r == Failure(ZeroQuantity) <==> |h| > 0 && HasZeroQuantity(h))
            && (r.Success? <==> |h| > 0 && !HasZeroQuantity(h))
            && (r.Success? ==>
                  && AllReplayable(h)
                  && r.value == Evaluate(stock, if stock in names then names[stock] else "", h, start, end, series))
  {
    var h := History(ledger, stock, start, end);
    var product := if stock in names then names[stock] else "";
    if |h| == 0 then Failure(EmptyHistory)
    else if HasZeroQuantity(h) then Failure(ZeroQuantity)
    else
      HistorySignConsistent(ledger, stock, start, end);
      Success(Evaluate(stock, product, h, start, end, series))
  }

  /** The aggregator's record for the synthetic `FULL` instrument. */
  function PortfolioRecord(start: Date, end: Date, rs: seq<PerfRecord>): (r: PerfRecord)
    ensures r.ticker == "FULL" && r.product == "Full portfolio"
    ensures r.startDate == start && r.endDate == end
    ensures Contribution(r) == Accumulate(rs)
    ensures r.costBasis.Some?
    ensures r.quantity > 0 ==> r.avgCost * (r.quantity as real) == r.totalCost
    ensures r.quantity <= 0 ==> r.avgCost == 0.0
    ensures r.costBasis.value != 0.0 ==> r.currentPct * r.costBasis.value == 100.0 * r.currentReturn
    ensures r.costBasis.value == 0.0 ==> r.currentPct == 0.0
    ensures r.totalCost != 0.0 ==> r.netPct * r.totalCost == 100.0 * (r.currentReturn + r.realized)
    ensures r.totalCost == 0.0 ==> r.netPct == 0.0
  {
    var t := Accumulate(rs);
    var avgCost := if t.quantity > 0 then t.purchaseCost / (t.quantity as real) else 0.0;
    PerfRecord("Full portfolio", "FULL", t.quantity, start, end, avgCost, Some(t.costBasis),
               t.purchaseCost, t.transactionCosts, t.currentValue, t.currentReturn, t.realized,
               t.netReturn, CurrentPct(t.currentReturn, t.costBasis),
               NetPct(t.currentReturn + t.realized, t.purchaseCost))
  }

  /** The aggregate's additive fields are field-wise sums: aggregating a
      concatenation adds the two aggregates, and aggregating one record
      reproduces it. */
  lemma PortfolioIsFieldwiseSum(start: Date, end: Date, a: seq<PerfRecord>, b: seq<PerfRecord>, x: PerfRecord)
    ensures Contribution(PortfolioRecord(start, end, a + b))
         == Add(Contribution(PortfolioRecord(start, end, a)), Contribution(PortfolioRecord(start, end, b)))
    ensures Contribution(PortfolioRecord(start, end, [x])) == Contribution(x)
    ensures Contribution(PortfolioRecord(start, end, [])) == NoTotals
  {
    AccumulateConcat(a, b);
    AccumulateSingle(x);
  }

  /** Ticker `s` has a price series and its calculation succeeds. */
  predicate Priced(ledger: seq<Transaction>, s: string, start: Date, end: Date,
                   prices: map<string, Series>, names: map<string, string>)
    requires AllSignConsistent(ledger)
  {
    s in prices && CalculateMwr(ledger, s, start, end, prices[s], names).Success?
  }

  /** One ticker inside the loop: a ticker without a price series raises
      `KeyError`, any other goes through `calculate_mwr`. */
  function CalcFor(ledger: seq<Transaction>, s: string, start: Date, end: Date,
                   prices: map<string, Series>, names: map<string, string>): (r: Result<PerfRecord, CalcError>)
    requires AllSignConsistent(ledger)
    ensures r.Success? <==> Priced(ledger, s, start, end, prices, names)
    ensures r.Success? ==> r.value == CalculateMwr(ledger, s, start, end, prices[s], names).value
    ensures s !in prices ==> r == Failure(NoPriceSeries(s))
  {
    if s !in prices then Failure(NoPriceSeries(s)) else CalculateMwr(ledger, s, start, end, prices[s], names)
  }

  /** The per-ticker part of `calculate_all_stocks_mwr`: `results[stock] =
      calculate_mwr(...)` for each requested ticker in turn; the first missing
      price series or failing calculation raises. */
  function StockResults(ledger: seq<Transaction>, stocks: seq<string>, start: Date, end: Date,
                        prices: map<string, Series>, names: map<string, string>): (r: Result<seq<Entry>, CalcError>)
    requires AllSignConsistent(ledger)
    ensures r.Failure? <==> (exists s :: s in stocks && !Priced(ledger, s, start, end, prices, names))
    ensures r.Success? ==> DistinctKeys(r.value)
    ensures r.Success? ==> forall x :: x in Keys(r.value) <==> x in stocks
    ensures r.Success? ==> forall s :: s in stocks ==>
              && Priced(ledger, s, start, end, prices, names)
              && Lookup(r.value, s) == Some(CalculateMwr(ledger, s, start, end, prices[s], names).value)
  {
    Tabulate(stocks, (s: string) => CalcFor(ledger, s, start, end, prices, names))
  }

  /** `calculate_all_stocks_mwr`: one entry per requested ticker, then the
      entry `'portfolio'` holding the aggregate of those entries. */
  function AllStocksMwr(ledger: seq<Transaction>, stocks: seq<string>, start: Date, end: Date,
                        prices: map<string, Series>, names: map<string, string>): (r: Result<seq<Entry>, CalcError>)
    requires AllSignConsistent(ledger)
    ensures r.Failure? <==> StockResults(ledger, stocks, start, end, prices, names).Failure?
    ensures r.Success? ==> DistinctKeys(r.value)
    ensures r.Success? ==> forall x :: x in Keys(r.value) <==> x in stocks || x == "portfolio"
    ensures r.Success? ==> forall s :: s in stocks && s != "portfolio" ==>
              Lookup(r.value, s) == Some(CalculateMwr(ledger, s, start, end, prices[s], names).value)
    ensures r.Success? ==>
              var perStock := StockResults(ledger, stocks, start, end, prices, names).value;
              Lookup(r.value, "portfolio") == Some(PortfolioRecord(start, end, Values(perStock)))
  {
    match StockResults(ledger, stocks, start, end, prices, names)
    case Failure(e) => Failure(e)
    case Success(es) => Success(Upsert(es, "portfolio", PortfolioRecord(start, end, Values(es))))
  }

  /** A window bound as the caller passes it: a date, or the `'YYYY-MM-DD'`
      string of one. */
  datatype Bound = AsDate(day: Date) | AsText(day: Date)

  /** `calculate_mwr` with its bounds as passed. Building the analyzer turns
      the `Date` column into date objects, so filtering a non-empty ledger
      against a string bound raises `TypeError`; with date bounds it is the
      calculation above. */
  function CalculateMwrAt(ledger: seq<Transaction>, stock: string, start: Bound, end: Bound,
                          series: Series, names: map<string, string>): (r: Result<PerfRecord, CalcError>)
    requires AllSignConsistent(ledger)
    ensures |ledger| > 0 && (start.AsText? || end.AsText?) ==> r == Failure(UnorderableBound)
    ensures start.AsDate? && end.AsDate? ==> r == CalculateMwr(ledger, stock, start.day, end.day, series, names)
    ensures |ledger| == 0 ==> r == Failure(EmptyHistory)
  {
    if |ledger| > 0 && (start.AsText? || end.AsText?) then Failure(UnorderableBound)
    else CalculateMwr(ledger, stock, start.day, end.day, series, names)
  }

  /** One ticker inside the loop, bounds as passed: the price series is
      looked up before the calculation runs. */
  function CalcForAt(ledger: seq<Transaction>, s: string, start: Bound, end: Bound,
                     prices: map<string, Series>, names: map<string, string>): (r: Result<PerfRecord, CalcError>)
    requires AllSignConsistent(ledger)
    ensures s !in prices ==> r == Failure(NoPriceSeries(s))
    ensures |ledger| > 0 && (start.AsText? || end.AsText?) ==> r.Failure?
    ensures start.AsDate? && end.AsDate? ==> r == CalcFor(ledger, s, start.day, end.day, prices, names)
  {
    if s !in prices then Failure(NoPriceSeries(s)) else CalculateMwrAt(ledger, s, start, end, prices[s], names)
  }

  /** `calculate_all_stocks_mwr` with its bounds as passed: with date bounds
      it is the aggregator above; with a string bound, a non-empty ledger and
      at least one ticker it always raises. */
  function AllStocksMwrAt(ledger: seq<Transaction>, stocks: seq<string>, start: Bound, end: Bound,
                          prices: map<string, Series>, names: map<string, string>): (r: Result<seq<Entry>, CalcError>)
    requires AllSignConsistent(ledger)
    ensures |ledger| > 0 && |stocks| > 0 && (start.AsText? || end.AsText?) ==> r.Failure?
    ensures start.AsDate? && end.AsDate? ==> r == AllStocksMwr(ledger, stocks, start.day, end.day, prices, names)
  {
    var perStock := (s: string) => CalcForAt(ledger, s, start, end, prices, names);
    assert start.AsDate? && end.AsDate? ==>
             Tabulate(stocks, perStock) == StockResults(ledger, stocks, start.day, end.day, prices, names) by {
      if start.AsDate? && end.AsDate? {
        TabulateAgrees(stocks, perStock, (s: string) => CalcFor(ledger, s, start.day, end.day, prices, names));
      }
    }
    assert |ledger| > 0 && |stocks| > 0 && (start.AsText? || end.AsText?) ==> perStock(stocks[0]).Failure?;
    match Tabulate(stocks, perStock)
    case Failure(e) => Failure(e)
    case Success(es) => Success(Upsert(es, "portfolio", PortfolioRecord(start.day, end.day, Values(es))))
  }

  /** The capital deployed up to `end` only grows as `end` moves forward:
      a later end day replays every BUY row an earlier one does. */
  lemma TotalCostNonDecreasingInEnd(ledger: seq<Transaction>, stock: string, start: Date, e1: Date, e2: Date,
                                    series: Series, names: map<string, string>)
    requires AllSignConsistent(ledger)
    requires e1 <= e2
    requires CalculateMwr(ledger, stock, start, e1, series, names).Success?
    requires CalculateMwr(ledger, stock, start, e2, series, names).Success?
    ensures CalculateMwr(ledger, stock, start, e1, series, names).value.totalCost
         <= CalculateMwr(ledger, stock, start, e2, series, names).value.totalCost
  {
    var previous := Filter(ledger, (t: Transaction) => t.date < start && t.stock == stock);
    var p1 := Filter(ledger, (t: Transaction) => t.date >= start && t.date <= e1 && t.stock == stock);
    var p2 := Filter(ledger, (t: Transaction) => t.date >= start && t.date <= e2 && t.stock == stock);
    BoughtValueSort(previous + p1);
    BoughtValueSort(previous + p2);
    BoughtValueConcat(previous, p1);
    BoughtValueConcat(previous, p2);
    BoughtValueFilterMonotone(ledger, (t: Transaction) => t.date >= start && t.date <= e1 && t.stock == stock,
                              (t: Transaction) => t.date >= start && t.date <= e2 && t.stock == stock);
  }

  /** Outflows only: when every BUY row pays cash out, the capital deployed is
      minus the summed BUY cost. */
  lemma {:induction false} BoughtValueOfOutflows(h: seq<Transaction>)
    requires forall i :: 0 <= i < |h| ==> h[i].cost <= 0.0
    ensures BoughtValue(h) == -BoughtCost(h)
  {
    if |h| > 0 {
      BoughtValueOfOutflows(h[..|h| - 1]);
    }
  }

  /** Rows without transaction costs pay no fees in total. */
  lemma {:induction false} FeesOfFeeless(h: seq<Transaction>)
    requires forall i :: 0 <= i < |h| ==> h[i].fees == 0.0
    ensures Fees(h) == 0.0
  {
    if |h| > 0 {
      FeesOfFeeless(h[..|h| - 1]);
    }
  }

  /** A history of BUY rows of positive quantity has bought at least one unit
      per row. */
  lemma {:induction false} BoughtAtLeastOnePerRow(h: seq<Transaction>)
    requires AllReplayable(h)
    requires forall i :: 0 <= i < |h| ==> h[i].action == Buy
    ensures BoughtQuantity(h) >= |h|
  {
    if |h| > 0 {
      var init := h[..|h| - 1];
      assert Replayable(h[|h| - 1]);
      assert forall i :: 0 <= i < |init| ==> init[i] == h[i];
      BoughtAtLeastOnePerRow(init);
    }
  }

  /** With only fee-free purchases, nothing has been realized, the cost basis
      is the capital deployed, and the net percentage equals the current one. */
  lemma BuyOnlyPercentagesAgree(stock: string, product: string, h: seq<Transaction>,
                                start: Date, end: Date, series: Series)
    requires |h| > 0 && AllReplayable(h)
    requires forall i :: 0 <= i < |h| ==> h[i].action == Buy && h[i].fees == 0.0 && h[i].cost <= 0.0
    ensures var r := Evaluate(stock, product, h, start, end, series);
            && r.realized == 0.0
            && r.costBasis == Some(r.totalCost)
            && r.netReturn == r.currentReturn
            && r.netPct == r.currentPct
  {
    var p := Replay(h, |h|);
    var a := AvgCost(h);
    var q := BoughtQuantity(h);
    BuyOnlyPosition(h);
    assert (p.held as real) * a == p.purchaseCost by {
      assert a * (q as real) == -BoughtCost(h);
    }
    AssembledBuyOnly(stock, product, start, end, p, a, MarkPrice(start, end, series));
  }

  /** The replay of fee-free purchases holds everything bought, has realized
      nothing and has deployed minus the summed BUY cost. */
  lemma BuyOnlyPosition(h: seq<Transaction>)
    requires |h| > 0 && AllReplayable(h)
    requires forall i :: 0 <= i < |h| ==> h[i].action == Buy && h[i].fees == 0.0 && h[i].cost <= 0.0
    ensures var p := Replay(h, |h|);
            p.held == BoughtQuantity(h) > 0 && p.realized == 0.0 && p.purchaseCost == -BoughtCost(h)
  {
    assert h[..|h|] == h;
    BuyOnlyReplay(h, |h|);
    FeesOfFeeless(h);
    BoughtValueOfOutflows(h);
    BoughtAtLeastOnePerRow(h);
    PurchaseCostIsBoughtValue(h, |h|);
  }

  /** A record assembled from an open position that realized nothing and
      whose cost basis is its deployed capital has equal net and current
      figures. */
  lemma AssembledBuyOnly(stock: string, product: string, start: Date, end: Date, p: Position,
                         avgCost: real, mark: real)
    requires p.held > 0 && p.realized == 0.0 && (p.held as real) * avgCost == p.purchaseCost
    ensures var r := Assemble(stock, product, start, end, p, avgCost, mark);
            && r.realized == 0.0
            && r.costBasis == Some(r.totalCost)
            && r.netReturn == r.currentReturn
            && r.netPct == r.currentPct
  {
    var r := Assemble(stock, product, start, end, p, avgCost, mark);
    PercentGuardsAgree(r.currentReturn, r.totalCost);
  }

  /** The net return of the aggregate is its current plus realized return
      whenever that holds of every record it sums, as it does of every record
      the calculator builds. */
  lemma {:induction false} PortfolioNetReturn(rs: seq<PerfRecord>)
    requires forall i :: 0 <= i < |rs| ==> rs[i].netReturn == rs[i].currentReturn + rs[i].realized
    ensures Accumulate(rs).netReturn == Accumulate(rs).currentReturn + Accumulate(rs).realized
  {
    if |rs| > 0 {
      PortfolioNetReturn(rs[..|rs| - 1]);
    }
  }

  /** A worked example: ten units bought on 15 October 2020 for 1000 with a
      fee of 1, marked the same day at 120. */
  lemma SingleBuyExample()
    ensures var t := Transaction(737713, 600, "DEGIRO", Some("US0000000001"), "NSY", "ABC", "Abc Corp",
                                 Buy, 10, 100.0, "USD", -1000.0, -1.0);
            var r := CalculateMwr([t], "ABC", 737713, 737713, map[737713 := Quote(120.0)], map[]);
            && r.Success?
            && r.value.quantity == 10 && r.value.avgCost == 100.0 && r.value.totalCost == 1000.0
            && r.value.costBasis == Some(1000.0) && r.value.currentValue == 1200.0
            && r.value.currentReturn == 200.0 && r.value.realized == -1.0 && r.value.netReturn == 199.0
            && r.value.transactionCosts == 1.0 && r.value.currentPct == 20.0 && r.value.netPct == 19.9
  {
    var t := Transaction(737713, 600, "DEGIRO", Some("US0000000001"), "NSY", "ABC", "Abc Corp",
                         Buy, 10, 100.0, "USD", -1000.0, -1.0);
    var series := map[737713 := Quote(120.0)];
    var h := History([t], "ABC", 737713, 737713);
    assert t in h;
    assert h == [t];
    assert [t][..0] == [];
    assert BoughtQuantity([t]) == BoughtQuantity([t][..0]) + 10;
    assert BoughtCost([t]) == BoughtCost([t][..0]) + -1000.0;
    assert BoughtQuantity(h) == 10 && BoughtCost(h) == -1000.0;
    assert AvgCost(h) == 100.0;
    assert Replay(h, 1) == Position(10, 1000.0, -1.0, 1.0);
    assert DropNaN(series) == series;
    assert MarkPrice(737713, 737713, series) == 120.0;
  }

  /** The rows of the example below: buy ten units on 15 October 2020 for
      1000, sell five the next day for 650, buy ten more the day after for
      2000. */
  const ExampleBuy := Transaction(737713, 600, "DEGIRO", None, "NSY", "ABC", "Abc Corp", Buy, 10, 100.0, "USD", -1000.0, 0.0)
  const ExampleSale := Transaction(737714, 600, "DEGIRO", None, "NSY", "ABC", "Abc Corp", Sell, -5, 130.0, "USD", 650.0, 0.0)
  const ExampleRebuy := Transaction(737715, 600, "DEGIRO", None, "NSY", "ABC", "Abc Corp", Buy, 10, 200.0, "USD", -2000.0, 0.0)

  lemma SaleExampleHistory()
    ensures History([ExampleBuy, ExampleSale, ExampleRebuy], "ABC", 737713, 737715)
         == [ExampleBuy, ExampleSale, ExampleRebuy]
  {
    var ledger := [ExampleBuy, ExampleSale, ExampleRebuy];
    assert Chronological(ledger);
    var previous := Filter(ledger, (t: Transaction) => t.date < 737713 && t.stock == "ABC");
    var period := Filter(ledger, (t: Transaction) => t.date >= 737713 && t.date <= 737715 && t.stock == "ABC");
    FilterKeepsNone(ledger, (t: Transaction) => t.date < 737713 && t.stock == "ABC");
    FilterKeepsAll(ledger, (t: Transaction) => t.date >= 737713 && t.date <= 737715 && t.stock == "ABC");
    assert previous + period == ledger;
    SortKeepsChronological(ledger);
  }

  /** A worked example of the SELL valuation: the sale on 16 October 2020 is
      valued against the average of all BUY rows of the history (150), which
      includes the purchase made a day after the sale, rather than against the
      average of the purchases before it (100). */
  lemma SaleValuedAtWholeHistoryAverage()
    ensures var h := [ExampleBuy, ExampleSale, ExampleRebuy];
            && AllReplayable(h)
            && var r := Evaluate("ABC", "", h, 737713, 737715, map[737715 := Quote(200.0)]);
            && r.quantity == 15 && r.avgCost == 150.0 && r.realized == -100.0
            && r.totalCost == 3000.0 && r.costBasis == Some(2250.0)
            && r.currentReturn == 750.0 && r.netReturn == 650.0
  {
    var h := [ExampleBuy, ExampleSale, ExampleRebuy];
    var series := map[737715 := Quote(200.0)];
    assert AllReplayable(h);
    assert h[..1] == [ExampleBuy] && h[..2] == [ExampleBuy, ExampleSale] && h[..3] == h;
    assert [ExampleBuy, ExampleSale][..1] == [ExampleBuy] && [ExampleBuy][..0] == [];
    assert BoughtCost([]) == 0.0 && BoughtQuantity([]) == 0;
    assert BoughtQuantity([ExampleBuy]) == 10 && BoughtCost([ExampleBuy]) == -1000.0;
    assert BoughtQuantity([ExampleBuy, ExampleSale]) == 10 && BoughtCost([ExampleBuy, ExampleSale]) == -1000.0;
    assert BoughtQuantity(h) == 20 && BoughtCost(h) == -3000.0;
    assert AvgCost(h) == 150.0;
    assert Replay(h, 1) == Position(10, 1000.0, 0.0, 0.0);
    assert Replay(h, 2) == Position(5, 1000.0, -100.0, 0.0);
    assert Replay(h, 3) == Position(15, 3000.0, -100.0, 0.0);
    assert DropNaN(series) == series;
    assert MarkPrice(737713, 737715, series) == 200.0;
  }

  /** The calculator on the example ledger is exactly the replay above. */
  lemma SaleExampleCalculates(series: Series)
    ensures var h := [ExampleBuy, ExampleSale, ExampleRebuy];
            && AllReplayable(h)
            && CalculateMwr(h, "ABC", 737713, 737715, series, map[])
               == Success(Evaluate("ABC", "", h, 737713, 737715, series))
  {
    var h := [ExampleBuy, ExampleSale, ExampleRebuy];
    assert AllReplayable(h);
    assert AllSignConsistent(h);
    SaleExampleHistory();
    assert !HasZeroQuantity(h);
  }
}
