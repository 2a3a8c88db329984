/** The price side of a materializer run (backend/services/portfolio.py):
    each ticker's trading currency, the conversion of fetched prices to
    EUR, the merge with the cached price table, and the rows the price table
    is written back as. */
module PriceTable {
  import opened Wrappers
  import opened Seqs
  import opened Calendar
  import opened Ledger
  import opened Prices

  /** Row `i` is the first row carrying its (Stock, Currency) pair. */
  predicate FirstOfPair(rows: seq<Transaction>, i: int)
    requires 0 <= i < |rows|
  {
    forall j :: 0 <= j < i ==> !(rows[j].stock == rows[i].stock && rows[j].currency == rows[i].currency)
  }

  /** Some row before `rows[i]` carries the same (Stock, Currency) pair. */
  predicate RepeatsPair(init: seq<Transaction>, t: Transaction) {
    exists j :: 0 <= j < |init| && init[j].stock == t.stock && init[j].currency == t.currency
  }

  /** Some row trades ticker `s` in currency `c`. */
  predicate TradedIn(rows: seq<Transaction>, s: string, c: string) {
    exists i :: 0 <= i < |rows| && rows[i].stock == s && rows[i].currency == c
  }

  /** `ticker_currency_dict`: the distinct (Stock, Currency) pairs in order of
      first appearance, keyed by Stock, so that when a ticker was traded in
      several currencies the pair that appeared last wins. */
  function TickerCurrencies(rows: seq<Transaction>): (m: map<string, string>)
    ensures forall s :: s in m ==> TradedIn(rows, s, m[s])
  {
    if |rows| == 0 then map[]
    else
      var init := rows[..|rows| - 1];
      var t := rows[|rows| - 1];
      var m := TickerCurrencies(init);
      assert forall i :: 0 <= i < |init| ==> init[i] == rows[i];
      if RepeatsPair(init, t) then m else m[t.stock := t.currency]
  }

  /** Row `i` is the latest first appearance of a (Stock, Currency) pair for
      ticker `s`. */
  predicate LatestPairOf(rows: seq<Transaction>, i: int, s: string) {
    && 0 <= i < |rows| && rows[i].stock == s && FirstOfPair(rows, i)
    && forall k :: i < k < |rows| && rows[k].stock == s ==> !FirstOfPair(rows, k)
  }

  /** Exactly the traded tickers get a currency. */
  lemma {:induction false} TickerCurrenciesKeys(rows: seq<Transaction>, s: string)
    ensures s in TickerCurrencies(rows) <==> exists i :: 0 <= i < |rows| && rows[i].stock == s
  {
    if |rows| > 0 {
      var init := rows[..|rows| - 1];
      TickerCurrenciesKeys(init, s);
      if s in TickerCurrencies(init) {
        var i :| 0 <= i < |init| && init[i].stock == s;
        assert rows[i] == init[i];
      }
      if exists i :: 0 <= i < |rows| && rows[i].stock == s {
        var i :| 0 <= i < |rows| && rows[i].stock == s;
        if i < |init| {
          assert init[i] == rows[i];
        }
      }
    }
  }

  /** Whether a row is the first of its pair does not depend on the rows
      after it. */
  lemma FirstOfPairInPrefix(rows: seq<Transaction>, i: int)
    requires 0 <= i < |rows| - 1
    ensures FirstOfPair(rows[..|rows| - 1], i) <==> FirstOfPair(rows, i)
  {
    var init := rows[..|rows| - 1];
    assert forall j :: 0 <= j <= i ==> init[j] == rows[j];
  }

  /** The latest pair of a ticker among all rows but the last stays the
      latest when the last row does not start a new pair for the ticker. */
  lemma LatestPairExtends(rows: seq<Transaction>, i: int, s: string)
    requires |rows| > 0
    requires LatestPairOf(rows[..|rows| - 1], i, s)
    requires !(rows[|rows| - 1].stock == s && FirstOfPair(rows, |rows| - 1))
    ensures LatestPairOf(rows, i, s)
  {
    var init := rows[..|rows| - 1];
    var last := |rows| - 1;
    assert rows[i] == init[i];
    FirstOfPairInPrefix(rows, i);
    forall k | i < k < last && rows[k].stock == s ensures !FirstOfPair(rows, k) {
      FirstOfPairInPrefix(rows, k);
      assert rows[k] == init[k];
    }
  }

  /** A ticker's currency is the currency of the last (Stock, Currency) pair,
      in order of first appearance, that carries the ticker. */
  lemma {:induction false} TickerCurrencyIsLatestPair(rows: seq<Transaction>, s: string)
    requires s in TickerCurrencies(rows)
    ensures exists i :: LatestPairOf(rows, i, s) && rows[i].currency == TickerCurrencies(rows)[s]
  {
    var init := rows[..|rows| - 1];
    var t := rows[|rows| - 1];
    var last := |rows| - 1;
    if !RepeatsPair(init, t) && t.stock == s {
      assert TickerCurrencies(rows)[s] == t.currency;
      forall j | 0 <= j < last ensures !(rows[j].stock == t.stock && rows[j].currency == t.currency) {
        assert rows[j] == init[j];
      }
      assert FirstOfPair(rows, last);
      assert LatestPairOf(rows, last, s);
    } else {
      assert TickerCurrencies(rows)[s] == TickerCurrencies(init)[s];
      var lastCounts := t.stock == s && FirstOfPair(rows, last);
      if RepeatsPair(init, t) {
        var j :| 0 <= j < |init| && init[j].stock == t.stock && init[j].currency == t.currency;
        assert rows[j] == init[j];
        assert !FirstOfPair(rows, last);
      }
      assert !lastCounts;
      TickerCurrencyIsLatestPair(init, s);
      var i :| LatestPairOf(init, i, s) && init[i].currency == TickerCurrencies(init)[s];
      assert rows[i] == init[i];
      LatestPairExtends(rows, i, s);
      assert LatestPairOf(rows, i, s);
    }
  }

  /** A ticker only ever traded in one currency is mapped to that currency. */
  lemma SingleCurrencyTicker(rows: seq<Transaction>, s: string, c: string)
    requires exists i :: 0 <= i < |rows| && rows[i].stock == s
    requires forall i :: 0 <= i < |rows| && rows[i].stock == s ==> rows[i].currency == c
    ensures s in TickerCurrencies(rows) && TickerCurrencies(rows)[s] == c
  {
    TickerCurrenciesKeys(rows, s);
    TickerCurrencyIsLatestPair(rows, s);
  }

  /** The currency used for a ticker, EUR when the ticker is unknown. */
  function CurrencyOf(currencies: map<string, string>, ticker: string): string {
    if ticker in currencies then currencies[ticker] else "EUR"
  }

  /** The conversion rate to EUR on day `d`: the fetched rate, or 1 when the
      FX series has no quote that day. */
  function RateOn(rates: map<Date, real>, d: Date): real {
    if d in rates then rates[d] else 1.0
  }

  /** The fetched FX series of a currency; a currency with nothing fetched
      has an empty series. */
  function RatesFor(fx: map<string, map<Date, real>>, currency: string): map<Date, real> {
    if currency in fx then fx[currency] else map[]
  }

  predicate HasMissing(series: Series) {
    exists d :: d in series && series[d].Missing?
  }

  /** `prices[date] = price * fx_rate.get(date, 1)` over one series: quotes are
      scaled, NaN stays NaN, and a `None` cell makes the multiplication raise. */
  function ConvertSeries(series: Series, rates: map<Date, real>): (r: Option<Series>)
    ensures r.None? <==> HasMissing(series)
    ensures r.Some? ==> r.value.Keys == series.Keys
    ensures r.Some? ==> forall d :: d in series ==> r.value[d].NotANumber? == series[d].NotANumber?
  {
    if HasMissing(series) then None
    else Some(map d | d in series :: if series[d].Quote? then Quote(series[d].value * RateOn(rates, d)) else series[d])
  }

  /** After conversion, the price read on any day is the original price times
      that day's rate; with no rate for the day it is unchanged. */
  lemma ConvertedPrice(series: Series, rates: map<Date, real>, d: Date)
    requires !HasMissing(series)
    ensures var c := ConvertSeries(series, rates).value;
            PriceAt(DropNaN(c), d) == PriceAt(DropNaN(series), d) * RateOn(rates, d)
  {
  }

  /** An FX series without any rate converts nothing. */
  lemma EmptyRatesConvertNothing(series: Series)
    requires !HasMissing(series)
    ensures ConvertSeries(series, map[]) == Some(series)
  {
    var c := ConvertSeries(series, map[]).value;
    forall d | d in series ensures c[d] == series[d] {
      assert RateOn(map[], d) == 1.0;
      if series[d].Quote? {
        assert c[d] == Quote(series[d].value * 1.0);
      }
    }
    assert c.Keys == series.Keys;
    assert c == series;
  }

  /** The ticker's prices are quoted in a currency other than EUR. */
  predicate NeedsFx(prices: map<string, Series>, currencies: map<string, string>, t: string) {
    t in prices && t in currencies && currencies[t] != "EUR"
  }

  /** Why a run of `calc_portfolio` raises. */
  datatype RunError =
    | MissingPriceCell   // a `None` price multiplied by an FX rate
    | NoDateColumn       // a frame without columns has no `Date` to convert
    | NoPriceColumn      // an empty price record list has no `price` column for `dropna`

  /** The conversion loop over all fetched series: every series of a ticker
      known to trade outside EUR is converted with its currency's rates; the
      run fails if any such series holds a `None` cell. */
  function ConvertAll(prices: map<string, Series>, currencies: map<string, string>,
                      fx: map<string, map<Date, real>>): (r: Result<map<string, Series>, RunError>)
    ensures r.Failure? <==> exists t :: NeedsFx(prices, currencies, t) && HasMissing(prices[t])
    ensures r.Success? ==> r.value.Keys == prices.Keys
    ensures r.Success? ==> forall t :: t in prices && !NeedsFx(prices, currencies, t) ==> r.value[t] == prices[t]
    ensures r.Success? ==> forall t :: NeedsFx(prices, currencies, t) ==>
              Some(r.value[t]) == ConvertSeries(prices[t], RatesFor(fx, currencies[t]))
  {
    if exists t :: t in prices && NeedsFx(prices, currencies, t) && HasMissing(prices[t]) then Failure(MissingPriceCell)
    else
      Success(map t | t in prices ::
                if NeedsFx(prices, currencies, t) then ConvertSeries(prices[t], RatesFor(fx, currencies[t])).value
                else prices[t])
  }

  /** One row of the stored price table. */
  datatype PriceRow = PriceRow(ticker: string, date: Date, price: real, fxRate: real, currencyPair: string)

  /** Row `i` is the last row for (ticker `t`, day `d`). */
  predicate LastFor(rows: seq<PriceRow>, i: int, t: string, d: Date) {
    && 0 <= i < |rows| && rows[i].ticker == t && rows[i].date == d
    && forall j :: i < j < |rows| ==> !(rows[j].ticker == t && rows[j].date == d)
  }

  /** Some row of `rows` is for (ticker `t`, day `d`). */
  predicate HasRowFor(rows: seq<PriceRow>, t: string, d: Date) {
    exists i :: 0 <= i < |rows| && rows[i].ticker == t && rows[i].date == d
  }

  /** Reading the stored price table back: `groupby('ticker')` then
      `set_index('date')['price'].to_dict()`, so a later row for the same
      (ticker, day) replaces an earlier one. */
  function GroupPrices(rows: seq<PriceRow>): map<string, Series> {
    if |rows| == 0 then map[]
    else
      var r := rows[|rows| - 1];
      var m := GroupPrices(rows[..|rows| - 1]);
      var prior := if r.ticker in m then m[r.ticker] else map[];
      m[r.ticker := prior[r.date := Quote(r.price)]]
  }

  /** The grouped table has a ticker exactly when some row carries it, and a
      day under it exactly when some row is for that ticker and day. */
  lemma {:induction false} GroupPricesKeys(rows: seq<PriceRow>, t: string, d: Date)
    ensures var m := GroupPrices(rows);
            && (t in m <==> exists i :: 0 <= i < |rows| && rows[i].ticker == t)
            && (t in m ==> (d in m[t] <==> HasRowFor(rows, t, d)))
  {
    if |rows| > 0 {
      var init := rows[..|rows| - 1];
      GroupPricesKeys(init, t, d);
      assert forall i :: 0 <= i < |init| ==> init[i] == rows[i];
      if HasRowFor(rows, t, d) {
        var i :| 0 <= i < |rows| && rows[i].ticker == t && rows[i].date == d;
        if i < |init| {
          assert HasRowFor(init, t, d);
        }
      }
      if exists i :: 0 <= i < |rows| && rows[i].ticker == t {
        var i :| 0 <= i < |rows| && rows[i].ticker == t;
        if i < |init| {
          assert init[i].ticker == t;
        }
      }
    }
  }

  /** Each grouped price is the price of the last row for its ticker and day. */
  lemma {:induction false} GroupPricesLastWins(rows: seq<PriceRow>, t: string, d: Date)
    requires t in GroupPrices(rows) && d in GroupPrices(rows)[t]
    ensures exists i :: LastFor(rows, i, t, d) && GroupPrices(rows)[t][d] == Quote(rows[i].price)
  {
    var init := rows[..|rows| - 1];
    var r := rows[|rows| - 1];
    if t == r.ticker && d == r.date {
      assert LastFor(rows, |rows| - 1, t, d);
    } else {
      assert forall i :: 0 <= i < |init| ==> init[i] == rows[i];
      GroupPricesLastWins(init, t, d);
      var i :| LastFor(init, i, t, d) && GroupPrices(init)[t][d] == Quote(init[i].price);
      assert LastFor(rows, i, t, d);
    }
  }

  /** `pd.read_parquet('output/stock_prices.parquet')`, grouped; an unreadable
      table gives no cached prices. */
  function CachedPrices(stored: Option<seq<PriceRow>>): map<string, Series> {
    match stored
    case None => map[]
    case Some(rows) => GroupPrices(rows)
  }

  /** The series of ticker `t`, empty when there is none. */
  function SeriesOf(prices: map<string, Series>, t: string): Series {
    if t in prices then prices[t] else map[]
  }

  /** Appending the fetched series to the cached ones: `update` on a cached
      ticker, so a fetched quote replaces the cached quote of the same day. */
  function MergePrices(cached: map<string, Series>, fetched: map<string, Series>): (m: map<string, Series>)
    ensures m.Keys == cached.Keys + fetched.Keys
    ensures forall t :: t in m ==> m[t].Keys == SeriesOf(cached, t).Keys + SeriesOf(fetched, t).Keys
    ensures forall t, d :: t in fetched && d in fetched[t] ==> d in m[t] && m[t][d] == fetched[t][d]
    ensures forall t, d :: t in cached && d in cached[t] && d !in SeriesOf(fetched, t) ==>
              d in m[t] && m[t][d] == cached[t][d]
  {
    map t | t in cached.Keys + fetched.Keys :: SeriesOf(cached, t) + SeriesOf(fetched, t)
  }

  /** No ticker has a single day: the price record list is empty. */
  predicate NoPriceCells(prices: map<string, Series>) {
    forall t :: t in prices ==> prices[t] == map[]
  }

  /** The merged prices have no day exactly when neither side has one. */
  lemma MergeNoCells(cached: map<string, Series>, fetched: map<string, Series>)
    ensures NoPriceCells(MergePrices(cached, fetched)) <==> NoPriceCells(cached) && NoPriceCells(fetched)
  {
    var m := MergePrices(cached, fetched);
    if NoPriceCells(m) {
      forall t | t in cached ensures cached[t] == map[] {
        assert m[t].Keys == SeriesOf(cached, t).Keys + SeriesOf(fetched, t).Keys;
      }
      forall t | t in fetched ensures fetched[t] == map[] {
        assert m[t].Keys == SeriesOf(cached, t).Keys + SeriesOf(fetched, t).Keys;
      }
    }
    if NoPriceCells(cached) && NoPriceCells(fetched) {
      forall t | t in m ensures m[t] == map[] {
        assert m[t].Keys == SeriesOf(cached, t).Keys + SeriesOf(fetched, t).Keys;
      }
    }
  }

  /** Conversion keeps every ticker's days, so it keeps the price table empty
      or non-empty. */
  lemma ConvertKeepsCells(prices: map<string, Series>, currencies: map<string, string>,
                          fx: map<string, map<Date, real>>)
    requires ConvertAll(prices, currencies, fx).Success?
    ensures NoPriceCells(ConvertAll(prices, currencies, fx).value) <==> NoPriceCells(prices)
  {
    var c := ConvertAll(prices, currencies, fx).value;
    forall t | t in prices ensures c[t].Keys == prices[t].Keys {
      if NeedsFx(prices, currencies, t) {
        assert Some(c[t]) == ConvertSeries(prices[t], RatesFor(fx, currencies[t]));
      }
    }
    if NoPriceCells(c) {
      forall t | t in prices ensures prices[t] == map[] {
        assert c[t].Keys == prices[t].Keys;
      }
    }
    if NoPriceCells(prices) {
      forall t | t in c ensures c[t] == map[] {
        assert c[t].Keys == prices[t].Keys;
      }
    }
  }

  /** Merging the same fetched prices twice changes nothing further. */
  lemma MergeIdempotent(cached: map<string, Series>, fetched: map<string, Series>)
    ensures MergePrices(MergePrices(cached, fetched), fetched) == MergePrices(cached, fetched)
  {
    var once := MergePrices(cached, fetched);
    var twice := MergePrices(once, fetched);
    forall t | t in once ensures twice[t] == once[t] {
      var c := SeriesOf(cached, t);
      var f := SeriesOf(fetched, t);
      assert once[t] == c + f;
      assert SeriesOf(once, t) == c + f;
      assert twice[t] == (c + f) + f;
      assert (c + f) + f == c + f;
    }
    assert twice.Keys == once.Keys;
  }

  /** The stored value of one cell: its quote, or 0 for `None`. */
  function CellValue(c: PriceCell): real {
    match c
    case Quote(v) => v
    case Missing => 0.0
    case NotANumber => 0.0
  }

  /** `"<CUR>-EUR"`, or `"EUR-EUR"` for EUR. */
  function CurrencyPair(currency: string): (p: string)
    ensures currency != "EUR" ==> p == currency + "-EUR"
    ensures currency == "EUR" ==> p == "EUR-EUR"
  {
    if currency != "EUR" then currency + "-EUR" else "EUR-EUR"
  }

  /** The stored row for ticker `t` on day `d`. */
  function RowFor(t: string, d: Date, c: PriceCell, currencies: map<string, string>,
                  fx: map<string, map<Date, real>>): PriceRow {
    var currency := CurrencyOf(currencies, t);
    var rate := if currency != "EUR" then RateOn(RatesFor(fx, currency), d) else 1.0;
    PriceRow(t, d, CellValue(c), rate, CurrencyPair(currency))
  }

  /** The price table written at the end of a run: one row per ticker and day
      of the merged series, except NaN quotes, which `dropna` removes. */
  function PriceRows(prices: map<string, Series>, currencies: map<string, string>,
                     fx: map<string, map<Date, real>>): (rows: set<PriceRow>)
    ensures forall r :: r in rows ==>
              && r.ticker in prices && r.date in prices[r.ticker]
              && !prices[r.ticker][r.date].NotANumber?
              && r.price == CellValue(prices[r.ticker][r.date])
    ensures forall t, d :: t in prices && d in prices[t] && !prices[t][d].NotANumber? ==>
              RowFor(t, d, prices[t][d], currencies, fx) in rows
    ensures forall r :: r in rows ==> r.currencyPair == CurrencyPair(CurrencyOf(currencies, r.ticker))
    ensures forall r :: r in rows && CurrencyOf(currencies, r.ticker) == "EUR" ==> r.fxRate == 1.0
    ensures forall r :: r in rows && !(CurrencyOf(currencies, r.ticker) in fx && r.date in fx[CurrencyOf(currencies, r.ticker)])
              ==> r.fxRate == 1.0
  {
    set t, d | t in prices && d in prices[t] && !prices[t][d].NotANumber? :: RowFor(t, d, prices[t][d], currencies, fx)
  }

  /** What the table keeps of the merged prices: the non-NaN days of each
      ticker, with `None` stored as 0; a ticker with no such day has no rows. */
  function Stored(prices: map<string, Series>): map<string, Series> {
    map t | t in prices && (exists d :: d in prices[t] && !prices[t][d].NotANumber?) ::
      map d | d in prices[t] && !prices[t][d].NotANumber? :: Quote(CellValue(prices[t][d]))
  }

  /** Writing the price table and reading it back, in whatever row order,
      gives the stored prices. */
  lemma PriceTableRoundTrip(prices: map<string, Series>, currencies: map<string, string>,
                            fx: map<string, map<Date, real>>, rows: seq<PriceRow>)
    requires forall r :: r in rows <==> r in PriceRows(prices, currencies, fx)
    ensures GroupPrices(rows) == Stored(prices)
  {
    var m := GroupPrices(rows);
    var s := Stored(prices);
    forall t ensures t in m <==> t in s {
      if t in s {
        var d :| d in prices[t] && !prices[t][d].NotANumber?;
        RoundTripDay(prices, currencies, fx, rows, t, d);
        var i :| 0 <= i < |rows| && rows[i].ticker == t && rows[i].date == d;
        GroupPricesKeys(rows, t, d);
        assert t in m;
      }
      if t in m {
        GroupPricesKeys(rows, t, 0);
        var i :| 0 <= i < |rows| && rows[i].ticker == t;
        assert rows[i] in rows;
        assert rows[i] in PriceRows(prices, currencies, fx);
        var d := rows[i].date;
        assert d in prices[t] && !prices[t][d].NotANumber?;
        assert t in s;
      }
    }
    forall t | t in m ensures m[t] == s[t] {
      forall d ensures d in m[t] <==> d in s[t] {
        RoundTripDay(prices, currencies, fx, rows, t, d);
      }
      forall d | d in m[t] ensures m[t][d] == s[t][d] {
        RoundTripDay(prices, currencies, fx, rows, t, d);
      }
    }
  }

  /** One (ticker, day) of the round trip: the day is read back exactly when it
      was stored, with the stored value. */
  lemma RoundTripDay(prices: map<string, Series>, currencies: map<string, string>,
                     fx: map<string, map<Date, real>>, rows: seq<PriceRow>, t: string, d: Date)
    requires forall r :: r in rows <==> r in PriceRows(prices, currencies, fx)
    ensures HasRowFor(rows, t, d) <==> t in prices && d in prices[t] && !prices[t][d].NotANumber?
    ensures t in GroupPrices(rows) && d in GroupPrices(rows)[t] ==>
              t in Stored(prices) && d in Stored(prices)[t] && GroupPrices(rows)[t][d] == Stored(prices)[t][d]
    ensures t in GroupPrices(rows) && t in Stored(prices) ==> (d in GroupPrices(rows)[t] <==> d in Stored(prices)[t])
  {
    var table := PriceRows(prices, currencies, fx);
    GroupPricesKeys(rows, t, d);
    if t in prices && d in prices[t] && !prices[t][d].NotANumber? {
      var r := RowFor(t, d, prices[t][d], currencies, fx);
      assert r in rows;
      var i :| 0 <= i < |rows| && rows[i] == r;
      assert HasRowFor(rows, t, d);
    }
    if HasRowFor(rows, t, d) {
      var i :| 0 <= i < |rows| && rows[i].ticker == t && rows[i].date == d;
      assert rows[i] in table;
    }
    var m := GroupPrices(rows);
    if t in m && d in m[t] {
      GroupPricesLastWins(rows, t, d);
      var i :| LastFor(rows, i, t, d) && m[t][d] == Quote(rows[i].price);
      assert rows[i] in table;
    }
  }
}
