/** `calc_portfolio` (backend/services/portfolio.py): recompute the daily
    performance table incrementally from the ledger, the cached tables and
    freshly fetched prices, then derive the price table and the monthly
    table from it. Reading and writing files and fetching prices are not
    modelled: what they return is a parameter. The loop passes its window
    bounds to the analyzer as strings, which makes every calculation raise;
    the `...AsWritten` members model that, the others model the evident
    intent of passing dates, on which the run's properties are stated. */
module Materializer {
  import opened Wrappers
  import opened Calendar
  import opened Seqs
  import opened Ledger
  import opened Prices
  import opened Records
  import opened Analyzer
  import opened PriceTable
  import Transactions

  /** Rows whose `Stock` is set. */
  function Tickered(ledger: seq<Transaction>): (r: seq<Transaction>)
    ensures forall t :: t in r <==> t in ledger && t.stock != ""
  {
    Filter(ledger, (t: Transaction) => t.stock != "")
  }

  /** `transactions['Date'].min()`. */
  function EarliestDate(rows: seq<Transaction>): (d: Date)
    requires |rows| > 0
    ensures exists t :: t in rows && t.date == d
    ensures forall t :: t in rows ==> d <= t.date
  {
    if |rows| == 1 then rows[0].date
    else
      var rest := EarliestDate(rows[1..]);
      assert rows == [rows[0]] + rows[1..];
      if rows[0].date < rest then rows[0].date else rest
  }

  /** `pd.date_range(start, today, freq='D')[1:]`: every day after `start` up
      to and including `today`, in order. */
  function Candidates(start: Date, today: Date): (ds: seq<Date>)
    ensures forall d :: d in ds <==> start < d <= today
    ensures forall i, j :: 0 <= i < j < |ds| ==> ds[i] < ds[j]
    ensures |ds| == if start < today then today - start else 0
  {
    if today <= start then []
    else
      var ds := seq(today - start, i requires 0 <= i < today - start => start + 1 + i);
      forall d | start < d <= today ensures d in ds {
        assert ds[d - start - 1] == d;
      }
      ds
  }

  /** The first day prices are fetched for: the whole history when there are
      more than 30 days to compute, otherwise the last 30 days. Either way it
      is the earlier of the two. */
  function FetchStart(start: Date, today: Date): (r: Date)
    ensures r <= start && r <= today - 30
    ensures r == start || r == today - 30
  {
    if |Candidates(start, today)| > 30 then start else today - 30
  }

  /** The `end_date` column. */
  function EndDates(rows: seq<PerfRecord>): (ds: seq<Date>)
    ensures |ds| == |rows|
    ensures forall i :: 0 <= i < |rows| ==> ds[i] == rows[i].endDate
  {
    seq(|rows|, i requires 0 <= i < |rows| => rows[i].endDate)
  }

  /** `sorted(unique(end_date))[-2:]`: the latest two distinct end dates of the
      cached daily table, recomputed on every run. */
  function Evicted(rows: seq<PerfRecord>): (e: set<Date>)
    ensures forall d :: d in e ==> d in EndDates(rows)
    ensures |e| <= 2
    ensures |rows| > 0 ==> e != {}
    ensures forall d, x :: d in EndDates(rows) && d !in e && x in e ==> d < x
    ensures (exists d :: d in EndDates(rows) && d !in e) ==> |e| == 2
  {
    var ds := EndDates(rows);
    if |ds| == 0 then {}
    else
      var top := MaxOf(ds);
      var below := Filter(ds, (x: int) => x != top);
      if |below| == 0 then
        assert forall d :: d in ds ==> d == top;
        {top}
      else
        var second := MaxOf(below);
        assert second != top;
        assert |{top, second}| == 2;
        {top, second}
  }

  /** The cached daily rows that are kept: all but those of the two latest
      end dates. */
  function Retained(rows: seq<PerfRecord>): (k: seq<PerfRecord>)
    ensures forall r :: r in k <==> r in rows && r.endDate !in Evicted(rows)
    ensures forall r, x :: r in k && x in Evicted(rows) ==> r.endDate < x
  {
    var e := Evicted(rows);
    var k := Filter(rows, (r: PerfRecord) => r.endDate !in e);
    assert forall r :: r in k ==> r.endDate in EndDates(rows) by {
      forall r | r in k ensures r.endDate in EndDates(rows) {
        var i :| 0 <= i < |rows| && rows[i] == r;
        assert EndDates(rows)[i] == r.endDate;
      }
    }
    k
  }

  /** The cached daily table as the run starts from it; an unreadable table
      gives none. */
  function CachedDaily(stored: Option<seq<PerfRecord>>): seq<PerfRecord> {
    match stored
    case None => []
    case Some(rows) => Retained(rows)
  }

  /** Some cached row has end date `d`. */
  predicate Computed(rows: seq<PerfRecord>, d: Date) {
    exists r :: r in rows && r.endDate == d
  }

  /** The ticker rows dated no later than `d`. */
  function TradedBy(tickered: seq<Transaction>, d: Date): (r: seq<Transaction>)
    ensures forall t :: t in r <==> t in tickered && t.date <= d
  {
    Filter(tickered, (t: Transaction) => t.date <= d)
  }

  /** The tickers traded up to day `d`, each once, in order of first
      appearance. */
  function Universe(tickered: seq<Transaction>, d: Date): (u: seq<string>)
    ensures forall s :: s in u <==> exists t :: t in tickered && t.date <= d && t.stock == s
    ensures forall i, j :: 0 <= i < j < |u| ==> u[i] != u[j]
  {
    var traded := TradedBy(tickered, d);
    var u := Unique(Stocks(traded));
    assert forall s :: s in Stocks(traded) <==> exists t :: t in traded && t.stock == s by {
      forall s ensures s in Stocks(traded) <==> exists t :: t in traded && t.stock == s {
        if s in Stocks(traded) {
          var i :| 0 <= i < |traded| && Stocks(traded)[i] == s;
          assert traded[i] in traded;
        }
        if exists t :: t in traded && t.stock == s {
          var t :| t in traded && t.stock == s;
          var i :| 0 <= i < |traded| && traded[i] == t;
          assert Stocks(traded)[i] == s;
        }
      }
    }
    u
  }

  /** Day `d` is computed in this run: a weekday, not in the cached table, and
      some ticker was traded by then. */
  predicate Due(tickered: seq<Transaction>, cached: seq<PerfRecord>, d: Date) {
    && !IsWeekend(d)
    && !Computed(cached, d)
    && exists t :: t in tickered && t.date <= d
  }

  /** A day is due exactly when it is a Monday to Friday, no cached row
      carries it, and at least one ticker has been traded by then. */
  lemma DueMeans(tickered: seq<Transaction>, cached: seq<PerfRecord>, d: Date)
    ensures Due(tickered, cached, d) <==>
              Weekday(d) < 5 && (forall r :: r in cached ==> r.endDate != d) && |Universe(tickered, d)| > 0
  {
    var u := Universe(tickered, d);
    if exists t :: t in tickered && t.date <= d {
      var t :| t in tickered && t.date <= d;
      assert t.stock in u;
    }
    if |u| > 0 {
      assert u[0] in u;
    }
  }

  /** `portfolio_data['end_date'] = end_date_str` on every record of a day. */
  function Stamp(rs: seq<PerfRecord>, d: Date): (r: seq<PerfRecord>)
    ensures |r| == |rs|
    ensures forall i :: 0 <= i < |rs| ==> r[i] == rs[i].(endDate := d)
  {
    seq(|rs|, i requires 0 <= i < |rs| => rs[i].(endDate := d))
  }

  /** The rows one day contributes: none when the day is not due or when any
      calculation for it fails (the exception is caught and the day skipped),
      otherwise every record of `calculate_all_stocks_mwr`. */
  function DayRows(ledger: seq<Transaction>, tickered: seq<Transaction>, cached: seq<PerfRecord>,
                   start: Date, d: Date, prices: map<string, Series>, names: map<string, string>)
    : (r: seq<PerfRecord>)
    requires AllSignConsistent(ledger)
    ensures forall x :: x in r ==> x.endDate == d
    ensures !Due(tickered, cached, d) ==> r == []
    ensures AllStocksMwr(ledger, Universe(tickered, d), start, d, prices, names).Failure? ==> r == []
  {
    if !Due(tickered, cached, d) then []
    else
      match AllStocksMwr(ledger, Universe(tickered, d), start, d, prices, names)
      case Failure(_) => []
      case Success(es) => Stamp(Values(es), d)
  }

  /** On a due day whose calculations all succeed, the day's rows are the
      stamped records of the aggregator. */
  lemma DueDayRows(ledger: seq<Transaction>, tickered: seq<Transaction>, cached: seq<PerfRecord>,
                   start: Date, d: Date, prices: map<string, Series>, names: map<string, string>)
    requires AllSignConsistent(ledger)
    requires Due(tickered, cached, d)
    requires AllStocksMwr(ledger, Universe(tickered, d), start, d, prices, names).Success?
    ensures DayRows(ledger, tickered, cached, start, d, prices, names)
            == Stamp(Values(AllStocksMwr(ledger, Universe(tickered, d), start, d, prices, names).value), d)
  {
  }

  /** On a due day whose calculations all succeed, the rows are exactly the
      records of the traded tickers and the `FULL` aggregate of them. */
  lemma DayRowsAreCalculated(ledger: seq<Transaction>, tickered: seq<Transaction>, cached: seq<PerfRecord>,
                             start: Date, d: Date, prices: map<string, Series>, names: map<string, string>)
    requires AllSignConsistent(ledger)
    requires Due(tickered, cached, d)
    requires AllStocksMwr(ledger, Universe(tickered, d), start, d, prices, names).Success?
    ensures var u := Universe(tickered, d);
            var rows := DayRows(ledger, tickered, cached, start, d, prices, names);
            var full := PortfolioRecord(start, d, Values(StockResults(ledger, u, start, d, prices, names).value));
            && full in rows
            && (forall s :: s in u && s != "portfolio" ==>
                  CalculateMwr(ledger, s, start, d, prices[s], names).value in rows)
            && (forall x :: x in rows ==>
                  x == full || exists s :: s in u && s != "portfolio" && x == CalculateMwr(ledger, s, start, d, prices[s], names).value)
  {
    var u := Universe(tickered, d);
    DueDayRows(ledger, tickered, cached, start, d, prices, names);
    StampedFull(ledger, u, start, d, prices, names);
    StampedStocks(ledger, u, start, d, prices, names);
    StampedOnlyCalculated(ledger, u, start, d, prices, names);
  }

  /** The stamped aggregate holds the `FULL` record. */
  lemma StampedFull(ledger: seq<Transaction>, u: seq<string>, start: Date, d: Date,
                    prices: map<string, Series>, names: map<string, string>)
    requires AllSignConsistent(ledger)
    requires AllStocksMwr(ledger, u, start, d, prices, names).Success?
    ensures PortfolioRecord(start, d, Values(StockResults(ledger, u, start, d, prices, names).value))
            in Stamp(Values(AllStocksMwr(ledger, u, start, d, prices, names).value), d)
  {
    var es := AllStocksMwr(ledger, u, start, d, prices, names).value;
    var rows := Stamp(Values(es), d);
    var full := PortfolioRecord(start, d, Values(StockResults(ledger, u, start, d, prices, names).value));
    assert full.endDate == d;
    assert "portfolio" in Keys(es);
    var k := IndexOf(es, "portfolio");
    assert rows[k] == full;
  }

  /** The stamped aggregate holds the record of every traded ticker. */
  lemma StampedStocks(ledger: seq<Transaction>, u: seq<string>, start: Date, d: Date,
                      prices: map<string, Series>, names: map<string, string>)
    requires AllSignConsistent(ledger)
    requires AllStocksMwr(ledger, u, start, d, prices, names).Success?
    ensures forall s :: s in u && s != "portfolio" ==>
              CalculateMwr(ledger, s, start, d, prices[s], names).value
              in Stamp(Values(AllStocksMwr(ledger, u, start, d, prices, names).value), d)
  {
    var es := AllStocksMwr(ledger, u, start, d, prices, names).value;
    var rows := Stamp(Values(es), d);
    forall s | s in u && s != "portfolio"
      ensures CalculateMwr(ledger, s, start, d, prices[s], names).value in rows
    {
      assert s in Keys(es);
      var i := IndexOf(es, s);
      assert rows[i] == es[i].record.(endDate := d);
    }
  }

  /** Every stamped record is the `FULL` record or a traded ticker's. */
  lemma StampedOnlyCalculated(ledger: seq<Transaction>, u: seq<string>, start: Date, d: Date,
                              prices: map<string, Series>, names: map<string, string>)
    requires AllSignConsistent(ledger)
    requires AllStocksMwr(ledger, u, start, d, prices, names).Success?
    ensures var full := PortfolioRecord(start, d, Values(StockResults(ledger, u, start, d, prices, names).value));
            forall x :: x in Stamp(Values(AllStocksMwr(ledger, u, start, d, prices, names).value), d) ==>
              x == full || exists s :: s in u && s != "portfolio" && x == CalculateMwr(ledger, s, start, d, prices[s], names).value
  {
    var es := AllStocksMwr(ledger, u, start, d, prices, names).value;
    var rows := Stamp(Values(es), d);
    var full := PortfolioRecord(start, d, Values(StockResults(ledger, u, start, d, prices, names).value));
    forall x | x in rows
      ensures x == full || exists s :: s in u && s != "portfolio" && x == CalculateMwr(ledger, s, start, d, prices[s], names).value
    {
      var i :| 0 <= i < |rows| && rows[i] == x;
      LookupByIndex(es, i);
      assert Keys(es)[i] == es[i].key;
      assert es[i].key in Keys(es);
    }
  }

  /** The rows all candidate days contribute, day after day. */
  function NewRows(ledger: seq<Transaction>, tickered: seq<Transaction>, cached: seq<PerfRecord>,
                   start: Date, days: seq<Date>, prices: map<string, Series>, names: map<string, string>)
    : (r: seq<PerfRecord>)
    requires AllSignConsistent(ledger)
    ensures forall x :: x in r ==> x.endDate in days && Due(tickered, cached, x.endDate)
  {
    if |days| == 0 then []
    else
      NewRows(ledger, tickered, cached, start, days[..|days| - 1], prices, names)
        + DayRows(ledger, tickered, cached, start, days[|days| - 1], prices, names)
  }

  /** The rows of day `d` among the new rows are that day's rows when `d` is
      a candidate day, and none otherwise. */
  lemma {:induction false} NewRowsOfDay(ledger: seq<Transaction>, tickered: seq<Transaction>, cached: seq<PerfRecord>,
                                        start: Date, days: seq<Date>, prices: map<string, Series>,
                                        names: map<string, string>, d: Date)
    requires AllSignConsistent(ledger)
    requires forall i, j :: 0 <= i < j < |days| ==> days[i] != days[j]
    ensures Filter(NewRows(ledger, tickered, cached, start, days, prices, names), (r: PerfRecord) => r.endDate == d)
            == if d in days then DayRows(ledger, tickered, cached, start, d, prices, names) else []
  {
    if |days| > 0 {
      var init := days[..|days| - 1];
      var last := days[|days| - 1];
      assert days == init + [last];
      assert d in days <==> d in init || d == last;
      NewRowsOfDay(ledger, tickered, cached, start, init, prices, names, d);
      var before := NewRows(ledger, tickered, cached, start, init, prices, names);
      var today := DayRows(ledger, tickered, cached, start, last, prices, names);
      assert NewRows(ledger, tickered, cached, start, days, prices, names) == before + today;
      AppendDayRows(before, today, last, d);
      if last == d {
        assert d !in init;
      }
    } else {
      FilterKeepsNone([], (r: PerfRecord) => r.endDate == d);
    }
  }

  /** Appending one day's rows to a table adds them to the rows of day `d`
      exactly when that day is `d`. */
  lemma AppendDayRows(before: seq<PerfRecord>, today: seq<PerfRecord>, last: Date, d: Date)
    requires forall x :: x in today ==> x.endDate == last
    ensures Filter(before + today, (r: PerfRecord) => r.endDate == d)
            == Filter(before, (r: PerfRecord) => r.endDate == d) + (if last == d then today else [])
  {
    var onDay := (r: PerfRecord) => r.endDate == d;
    FilterConcat(before, today, onDay);
    if last == d {
      FilterKeepsAll(today, onDay);
    } else {
      FilterKeepsNone(today, onDay);
    }
  }

  /** The daily table before it is cleaned: the kept cached rows followed by
      the rows of every candidate day. */
  function Refresh(ledger: seq<Transaction>, tickered: seq<Transaction>, cached: seq<PerfRecord>,
                   start: Date, today: Date, prices: map<string, Series>, names: map<string, string>)
    : (r: seq<PerfRecord>)
    requires AllSignConsistent(ledger)
    ensures |cached| <= |r| && r[..|cached|] == cached
    ensures forall x :: x in r[|cached|..] ==>
              && start < x.endDate <= today && !IsWeekend(x.endDate)
              && (forall c :: c in cached ==> c.endDate != x.endDate)
  {
    cached + NewRows(ledger, tickered, cached, start, Candidates(start, today), prices, names)
  }

  /** Each day of the refreshed table holds its cached rows and, for a
      candidate day, the rows computed for it; a day already in the cache is
      never computed again. */
  lemma RefreshDay(ledger: seq<Transaction>, tickered: seq<Transaction>, cached: seq<PerfRecord>,
                   start: Date, today: Date, prices: map<string, Series>, names: map<string, string>, d: Date)
    requires AllSignConsistent(ledger)
    ensures var onDay := (r: PerfRecord) => r.endDate == d;
            Filter(Refresh(ledger, tickered, cached, start, today, prices, names), onDay)
              == Filter(cached, onDay)
                 + (if start < d <= today then DayRows(ledger, tickered, cached, start, d, prices, names) else [])
    ensures Computed(cached, d) ==>
              Filter(Refresh(ledger, tickered, cached, start, today, prices, names), (r: PerfRecord) => r.endDate == d)
                == Filter(cached, (r: PerfRecord) => r.endDate == d)
  {
    var onDay := (r: PerfRecord) => r.endDate == d;
    var days := Candidates(start, today);
    FilterConcat(cached, NewRows(ledger, tickered, cached, start, days, prices, names), onDay);
    NewRowsOfDay(ledger, tickered, cached, start, days, prices, names, d);
  }

  /** The rows one day contributes as the loop is written: both bounds are
      passed to `calculate_all_stocks_mwr` as `'YYYY-MM-DD'` strings, while
      the analyzer holds the `Date` column as date objects. On a due day the
      first calculation raises, the exception is caught, and the day adds
      nothing. */
  function DayRowsAsWritten(ledger: seq<Transaction>, tickered: seq<Transaction>, cached: seq<PerfRecord>,
                            start: Date, d: Date, prices: map<string, Series>, names: map<string, string>)
    : (r: seq<PerfRecord>)
    requires AllSignConsistent(ledger)
    ensures |ledger| > 0 ==> r == []
    ensures !Due(tickered, cached, d) ==> r == []
  {
    if !Due(tickered, cached, d) then []
    else
      DueMeans(tickered, cached, d);
      match AllStocksMwrAt(ledger, Universe(tickered, d), AsText(start), AsText(d), prices, names)
      case Failure(_) => []
      case Success(es) => Stamp(Values(es), d)
  }

  /** The rows all candidate days contribute as the loop is written. */
  function NewRowsAsWritten(ledger: seq<Transaction>, tickered: seq<Transaction>, cached: seq<PerfRecord>,
                            start: Date, days: seq<Date>, prices: map<string, Series>, names: map<string, string>)
    : (r: seq<PerfRecord>)
    requires AllSignConsistent(ledger)
    ensures |ledger| > 0 ==> r == []
  {
    if |days| == 0 then []
    else
      NewRowsAsWritten(ledger, tickered, cached, start, days[..|days| - 1], prices, names)
        + DayRowsAsWritten(ledger, tickered, cached, start, days[|days| - 1], prices, names)
  }

  /** The daily table before it is cleaned, as the loop is written: a run
      with transactions never adds a row to the cache. */
  function RefreshAsWritten(ledger: seq<Transaction>, tickered: seq<Transaction>, cached: seq<PerfRecord>,
                            start: Date, today: Date, prices: map<string, Series>, names: map<string, string>)
    : (r: seq<PerfRecord>)
    requires AllSignConsistent(ledger)
    ensures |ledger| > 0 ==> r == cached
  {
    cached + NewRowsAsWritten(ledger, tickered, cached, start, Candidates(start, today), prices, names)
  }

  /** One purchase on Thursday 2020-10-15, no cache, run on Friday
      2020-10-16 with a price for the ticker: the Friday is due and its
      calculation succeeds, yet the loop as written adds no row for it. */
  lemma AsWrittenDueDayIsEmpty(t: Transaction, prices: map<string, Series>, names: map<string, string>)
    requires t.date == 737713 && t.stock != "" && t.quantity != 0 && SignConsistent(t)
    requires t.stock in prices
    ensures Due([t], [], 737714)
    ensures |DayRows([t], [t], [], 737713, 737714, prices, names)| > 0
    ensures DayRowsAsWritten([t], [t], [], 737713, 737714, prices, names) == []
    ensures RefreshAsWritten([t], [t], [], 737713, 737714, prices, names) == []
  {
    assert AllSignConsistent([t]);
    assert !IsWeekend(737714) && !Computed([], 737714) && t in [t];
    SinglePurchaseComputes(t, prices, names);
    var es := AllStocksMwr([t], Universe([t], 737714), 737713, 737714, prices, names).value;
    assert "portfolio" in Keys(es);
    DueDayRows([t], [t], [], 737713, 737714, prices, names);
  }

  /** The calculation for the one purchase's ticker on the next day succeeds. */
  lemma SinglePurchaseComputes(t: Transaction, prices: map<string, Series>, names: map<string, string>)
    requires t.date == 737713 && t.stock != "" && t.quantity != 0 && SignConsistent(t)
    requires t.stock in prices
    ensures AllStocksMwr([t], Universe([t], 737714), 737713, 737714, prices, names).Success?
  {
    var u := Universe([t], 737714);
    assert forall s :: s in u ==> s == t.stock;
    var h := History([t], t.stock, 737713, 737714);
    assert t in h;
    assert forall x :: x in h ==> x == t;
    assert !HasZeroQuantity(h);
    assert Priced([t], t.stock, 737713, 737714, prices, names);
  }

  /** The table has a `cost_basis` column as soon as one of its rows has a
      cost basis; rows without one then read as NaN there. */
  predicate HasCostBasisColumn(rows: seq<PerfRecord>) {
    exists r :: r in rows && r.costBasis.Some?
  }

  /** `dropna()`: when the table has a `cost_basis` column, the rows without
      a cost basis (rows cached before the column existed) are dropped. */
  function DropIncomplete(rows: seq<PerfRecord>): (r: seq<PerfRecord>)
    ensures forall x :: x in r <==> x in rows && (x.costBasis.Some? || !HasCostBasisColumn(rows))
    ensures HasCostBasisColumn(rows) ==> forall x :: x in r ==> x.costBasis.Some?
    ensures !HasCostBasisColumn(rows) ==> r == rows
  {
    if HasCostBasisColumn(rows) then Filter(rows, (x: PerfRecord) => x.costBasis.Some?) else rows
  }

  /** The display name of a ticker, empty when it has none. */
  function ProductName(names: map<string, string>, ticker: string): string {
    if ticker in names then names[ticker] else ""
  }

  /** `product = ticker.map(ticker_to_name).fillna('')`. */
  function Relabel(rows: seq<PerfRecord>, names: map<string, string>): (r: seq<PerfRecord>)
    ensures |r| == |rows|
    ensures forall i :: 0 <= i < |rows| ==> r[i] == rows[i].(product := ProductName(names, rows[i].ticker))
  {
    seq(|rows|, i requires 0 <= i < |rows| => rows[i].(product := ProductName(names, rows[i].ticker)))
  }

  /** Relabelling twice is relabelling once, and after it rows of the same
      ticker carry the same product name. */
  lemma RelabelIdempotent(rows: seq<PerfRecord>, names: map<string, string>)
    ensures Relabel(Relabel(rows, names), names) == Relabel(rows, names)
    ensures var r := Relabel(rows, names);
            forall i, j :: 0 <= i < |r| && 0 <= j < |r| && r[i].ticker == r[j].ticker ==> r[i].product == r[j].product
  {
  }

  /** The key of the monthly table: a ticker and the first day of a month. */
  datatype MonthKey = MonthKey(ticker: string, month: Date)

  function KeyOf(r: PerfRecord): MonthKey {
    MonthKey(r.ticker, MonthStart(r.endDate))
  }

  /** For each (ticker, month), the row with the earliest end date; among
      rows of the same end date the first one. */
  function FirstOfMonths(rows: seq<PerfRecord>): map<MonthKey, PerfRecord> {
    if |rows| == 0 then map[]
    else
      var m := FirstOfMonths(rows[..|rows| - 1]);
      var r := rows[|rows| - 1];
      if KeyOf(r) in m && m[KeyOf(r)].endDate <= r.endDate then m else m[KeyOf(r) := r]
  }

  lemma {:induction false} FirstOfMonthsIsEarliest(rows: seq<PerfRecord>, k: MonthKey)
    ensures k in FirstOfMonths(rows) <==> exists r :: r in rows && KeyOf(r) == k
    ensures k in FirstOfMonths(rows) ==>
              && FirstOfMonths(rows)[k] in rows
              && KeyOf(FirstOfMonths(rows)[k]) == k
              && forall x :: x in rows && KeyOf(x) == k ==> FirstOfMonths(rows)[k].endDate <= x.endDate
  {
    if |rows| > 0 {
      var init := rows[..|rows| - 1];
      assert rows == init + [rows[|rows| - 1]];
      FirstOfMonthsIsEarliest(init, k);
    }
  }

  /** `resample('MS').first()` per ticker over the daily table: one row per
      ticker and month, the month's first row, labelled with the month's
      first day. */
  function Monthly(daily: seq<PerfRecord>): (m: map<MonthKey, PerfRecord>)
    ensures forall k :: k in m ==> m[k].ticker == k.ticker && m[k].endDate == k.month
    ensures forall k :: k in m ==> exists r :: r in daily && KeyOf(r) == k && m[k] == r.(endDate := k.month)
  {
    var firsts := FirstOfMonths(daily);
    assert forall k :: k in firsts ==> firsts[k] in daily && KeyOf(firsts[k]) == k by {
      forall k | k in firsts ensures firsts[k] in daily && KeyOf(firsts[k]) == k {
        FirstOfMonthsIsEarliest(daily, k);
      }
    }
    map k | k in firsts :: firsts[k].(endDate := k.month)
  }

  /** The monthly table has a row for exactly the (ticker, month) pairs of the
      daily table, and that row is the month's earliest daily row with its end
      date moved to the month's first day. */
  lemma MonthlyIsFirstRowOfMonth(daily: seq<PerfRecord>, k: MonthKey)
    ensures k in Monthly(daily) <==> exists r :: r in daily && KeyOf(r) == k
    ensures k in Monthly(daily) ==>
              exists r :: && r in daily && KeyOf(r) == k
                          && Monthly(daily)[k] == r.(endDate := k.month)
                          && forall x :: x in daily && KeyOf(x) == k ==> r.endDate <= x.endDate
  {
    FirstOfMonthsIsEarliest(daily, k);
  }

  /** The monthly table's keys are the (ticker, month) pairs of the daily
      table. */
  lemma MonthlyKeys(daily: seq<PerfRecord>)
    ensures forall k :: k in Monthly(daily) <==> exists r :: r in daily && KeyOf(r) == k
  {
    forall k ensures k in Monthly(daily) <==> exists r :: r in daily && KeyOf(r) == k {
      MonthlyIsFirstRowOfMonth(daily, k);
    }
  }

  /** Every daily row carries its ticker's display name. */
  ghost predicate Labelled(daily: seq<PerfRecord>, names: map<string, string>) {
    forall r :: r in daily ==> r.product == ProductName(names, r.ticker)
  }

  /** The monthly table is keyed by exactly the (ticker, month) pairs of the
      daily table. */
  ghost predicate MonthsOf(daily: seq<PerfRecord>, monthly: map<MonthKey, PerfRecord>) {
    forall k :: k in monthly <==> exists r :: r in daily && KeyOf(r) == k
  }

  /** What a run produces: a failure when the transactions frame has no
      columns; nothing when there is no ticker row; a failure when a fetched
      price to convert is `None`; the daily table alone, then a failure, when
      there is no price at all to record; otherwise the daily table, the price
      table and the monthly table. */
  datatype Outcome =
    | Skipped
    | Failed(error: RunError)
    | DailyOnly(daily: seq<PerfRecord>, error: RunError)
    | Written(daily: seq<PerfRecord>, priceRows: set<PriceRow>, monthly: map<MonthKey, PerfRecord>)

  /** Neither the cached nor the fetched prices hold a single day. */
  predicate NoPrices(fetched: map<string, Series>, storedPrices: Option<seq<PriceRow>>) {
    NoPriceCells(CachedPrices(storedPrices)) && NoPriceCells(fetched)
  }

  /** `calc_portfolio`. `frame` is the loaded transactions, `None` for the
      frame without columns; `fetched` and `fx` are the prices and exchange
      rates the market data source returned, `storedDaily` and `storedPrices`
      the cached tables (`None` when unreadable), `names` the display names
      of the ISIN mapping. */
  function CalcPortfolio(frame: Option<seq<Transaction>>, today: Date, fetched: map<string, Series>,
                         fx: map<string, map<Date, real>>, storedDaily: Option<seq<PerfRecord>>,
                         storedPrices: Option<seq<PriceRow>>, names: map<string, string>): (o: Outcome)
    requires frame.Some? ==> AllSignConsistent(frame.value)
    ensures frame.None? ==> o == Failed(NoDateColumn)
    ensures o.Skipped? <==> frame.Some? && |Tickered(frame.value)| == 0
    ensures o == Failed(MissingPriceCell) <==>
              && frame.Some? && |Tickered(frame.value)| > 0
              && exists t :: NeedsFx(fetched, TickerCurrencies(Tickered(frame.value)), t) && HasMissing(fetched[t])
    ensures o.DailyOnly? <==>
              && frame.Some? && |Tickered(frame.value)| > 0
              && !(exists t :: NeedsFx(fetched, TickerCurrencies(Tickered(frame.value)), t) && HasMissing(fetched[t]))
              && NoPrices(fetched, storedPrices)
    ensures o.DailyOnly? ==> o.error == NoPriceColumn && Labelled(o.daily, names)
    ensures o.Written? ==> Labelled(o.daily, names) && MonthsOf(o.daily, o.monthly)
  {
    match frame
    case None => Failed(NoDateColumn)
    case Some(ledger) =>
      var tickered := Tickered(ledger);
      if |ledger| == 0 || |tickered| == 0 then Skipped
      else Run(ledger, tickered, today, fetched, fx, storedDaily, storedPrices, names)
  }

  /** The run once there are ticker rows: the fetched prices are converted
      to euros, which fails on a `None` price of a non-EUR ticker, and the
      tables are built from the converted prices. */
  function Run(ledger: seq<Transaction>, tickered: seq<Transaction>, today: Date, fetched: map<string, Series>,
               fx: map<string, map<Date, real>>, storedDaily: Option<seq<PerfRecord>>,
               storedPrices: Option<seq<PriceRow>>, names: map<string, string>): (o: Outcome)
    requires AllSignConsistent(ledger)
    requires |tickered| > 0
    ensures !o.Skipped?
    ensures o.Failed? <==> exists t :: NeedsFx(fetched, TickerCurrencies(tickered), t) && HasMissing(fetched[t])
    ensures o.Failed? ==> o.error == MissingPriceCell
    ensures o.DailyOnly? <==> !o.Failed? && NoPrices(fetched, storedPrices)
    ensures o.DailyOnly? ==> o.error == NoPriceColumn && Labelled(o.daily, names)
    ensures o.Written? ==> Labelled(o.daily, names) && MonthsOf(o.daily, o.monthly)
  {
    var currencies := TickerCurrencies(tickered);
    match ConvertAll(fetched, currencies, fx)
    case Failure(e) => Failed(e)
    case Success(converted) =>
      ConvertKeepsCells(fetched, currencies, fx);
      MergeNoCells(CachedPrices(storedPrices), converted);
      Tables(ledger, tickered, EarliestDate(tickered), today, MergePrices(CachedPrices(storedPrices), converted),
             currencies, fx, CachedDaily(storedDaily), names)
  }

  /** The tables a run writes once the prices are converted: the cleaned and
      relabelled daily table, then the price table, which raises when there
      is no price record at all, then the monthly table. */
  function Tables(ledger: seq<Transaction>, tickered: seq<Transaction>, start: Date, today: Date,
                  prices: map<string, Series>, currencies: map<string, string>,
                  fx: map<string, map<Date, real>>, cached: seq<PerfRecord>, names: map<string, string>)
    : (o: Outcome)
    requires AllSignConsistent(ledger)
    ensures o.Written? || o.DailyOnly?
    ensures Labelled(o.daily, names)
    ensures o.DailyOnly? <==> NoPriceCells(prices)
    ensures o.DailyOnly? ==> o.error == NoPriceColumn
    ensures o.Written? ==> MonthsOf(o.daily, o.monthly)
  {
    var daily := Relabel(DropIncomplete(Refresh(ledger, tickered, cached, start, today, prices, names)), names);
    if NoPriceCells(prices) then DailyOnly(daily, NoPriceColumn)
    else
      MonthlyKeys(daily);
      Written(daily, PriceRows(prices, currencies, fx), Monthly(daily))
  }

  /** Loading feeds the run: an export that is absent, unreadable or has a
      row whose date or time does not parse makes the run fail on the
      missing `Date` column, while an export with a header and no rows makes
      it skip. */
  lemma LoadedRun(file: Transactions.CsvFile, existing: seq<Transactions.Mapped>, today: Date,
                  fetched: map<string, Series>, fx: map<string, map<Date, real>>,
                  storedDaily: Option<seq<PerfRecord>>, storedPrices: Option<seq<PriceRow>>,
                  names: map<string, string>)
    requires Transactions.DistinctIsins(existing)
    ensures var frame := Transactions.LoadAndPrepare(file, existing).ledger;
            (!file.Rows? || exists i :: 0 <= i < |file.rows| && !Transactions.Parses(file.rows[i])) ==>
              CalcPortfolio(frame, today, fetched, fx, storedDaily, storedPrices, names) == Failed(NoDateColumn)
    ensures file == Transactions.Rows([]) ==>
              CalcPortfolio(Transactions.LoadAndPrepare(file, existing).ledger, today, fetched, fx,
                            storedDaily, storedPrices, names) == Skipped
  {
    if file == Transactions.Rows([]) {
      Transactions.HeaderOnlyLoadsEmpty(existing);
    }
  }
}
