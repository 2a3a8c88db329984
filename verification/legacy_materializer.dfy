/** The older materializers `calc_daily` and `calc_monthly`
    (helpers/portfolio.py). Both extend a cached table with one block of
    records per candidate day and keep every cached row. Both call
    `calculate_all_stocks_mwr` without its required `stock_prices`
    argument, so as written any day that has to be computed raises; the
    `...AsWritten` members model that, the others model the evident intent
    of passing the prices, on which the rest of the properties are stated. */
module LegacyMaterializer {
  import opened Wrappers
  import opened Calendar
  import opened Seqs
  import opened Ledger
  import opened Prices
  import opened Records
  import opened Analyzer
  import opened LegacyAnalyzer
  import opened Materializer

  datatype LegacyRunError =
    | MissingStockPrices              // the `TypeError` of the call without `stock_prices`
    | CalculationFailed(error: CalcError)

  /** Day `d` has to be computed: no cached row carries it and, for the daily
      table, some row was traded by then (the monthly table has no such
      check). Neither table skips weekends. */
  predicate LegacyDue(ledger: seq<Transaction>, cache: seq<PerfRecord>, d: Date, skipUntraded: bool) {
    && !Computed(cache, d)
    && (skipUntraded ==> exists t :: t in ledger && t.date <= d)
  }

  /** The records of one day, stamped with the day. A failing calculation is
      not caught: it ends the run. */
  function LegacyDayRows(ledger: seq<Transaction>, start: Date, d: Date, prices: map<string, Series>,
                         names: map<string, string>): (r: Result<seq<PerfRecord>, LegacyRunError>)
    requires AllSignConsistent(ledger)
    ensures r.Failure? <==> LegacyAllStocksMwr(ledger, Universe(ledger, d), start, d, prices, names).Failure?
    ensures r.Success? ==> forall x :: x in r.value ==> x.endDate == d
  {
    match LegacyAllStocksMwr(ledger, Universe(ledger, d), start, d, prices, names)
    case Failure(e) => Failure(CalculationFailed(e))
    case Success(es) => Success(Stamp(Values(es), d))
  }

  /** A due day of `days` whose calculation fails. */
  predicate SomeDayFails(ledger: seq<Transaction>, cache: seq<PerfRecord>, start: Date, days: seq<Date>,
                         prices: map<string, Series>, names: map<string, string>, skipUntraded: bool)
    requires AllSignConsistent(ledger)
  {
    exists d :: d in days && LegacyDue(ledger, cache, d, skipUntraded)
                && LegacyDayRows(ledger, start, d, prices, names).Failure?
  }

  /** The loop over candidate days, whatever the day's calculation: a day
      that is not due adds nothing, a due day adds its rows, and the first due
      day whose calculation fails ends the loop with its error. */
  function Gather<E>(days: seq<Date>, due: Date -> bool, day: Date -> Result<seq<PerfRecord>, E>)
    : (r: Result<seq<PerfRecord>, E>)
    ensures r.Failure? <==> exists d :: d in days && due(d) && day(d).Failure?
  {
    if |days| == 0 then Success([])
    else
      var init := days[..|days| - 1];
      var d := days[|days| - 1];
      assert days == init + [d];
      assert forall x :: x in days <==> x in init || x == d;
      match Gather(init, due, day)
      case Failure(e) => Failure(e)
      case Success(rows) =>
        if !due(d) then Success(rows)
        else
          match day(d)
          case Failure(e) => Failure(e)
          case Success(x) => Success(rows + x)
  }

  /** In a successful loop over distinct days whose rows carry their own
      day, the rows of day `d` are that day's rows when `d` is a due day of
      the loop, and none otherwise. */
  lemma {:induction false} GatherOfDay<E>(days: seq<Date>, due: Date -> bool, day: Date -> Result<seq<PerfRecord>, E>,
                                          d: Date)
    requires forall i, j :: 0 <= i < j < |days| ==> days[i] != days[j]
    requires forall x :: day(x).Success? ==> forall r :: r in day(x).value ==> r.endDate == x
    requires Gather(days, due, day).Success?
    ensures Filter(Gather(days, due, day).value, (r: PerfRecord) => r.endDate == d)
            == if d in days && due(d) then day(d).value else []
  {
    if |days| == 0 {
      FilterKeepsNone([], (r: PerfRecord) => r.endDate == d);
    } else {
      var init := days[..|days| - 1];
      var last := days[|days| - 1];
      assert days == init + [last];
      assert d in days <==> d in init || d == last;
      var rows := Gather(days, due, day).value;
      assert Gather(init, due, day).Success?;
      GatherOfDay(init, due, day, d);
      var before := Gather(init, due, day).value;
      if due(last) {
        var today := day(last).value;
        assert rows == before + today;
        AppendDayRows(before, today, last, d);
        if last == d {
          assert d !in init;
        }
      } else {
        assert rows == before;
        if last == d {
          assert d !in init;
        }
      }
    }
  }

  /** The loop over the candidate days with the prices passed. */
  function LegacyNewRows(ledger: seq<Transaction>, cache: seq<PerfRecord>, start: Date, days: seq<Date>,
                         prices: map<string, Series>, names: map<string, string>, skipUntraded: bool)
    : (r: Result<seq<PerfRecord>, LegacyRunError>)
    requires AllSignConsistent(ledger)
    ensures r.Failure? <==> SomeDayFails(ledger, cache, start, days, prices, names, skipUntraded)
  {
    Gather(days, (x: Date) => LegacyDue(ledger, cache, x, skipUntraded),
           (x: Date) => LegacyDayRows(ledger, start, x, prices, names))
  }

  /** In a successful loop, the rows of day `d` are its computed records when
      `d` is a due candidate day, and none otherwise. */
  lemma LegacyNewRowsOfDay(ledger: seq<Transaction>, cache: seq<PerfRecord>, start: Date,
                           days: seq<Date>, prices: map<string, Series>,
                           names: map<string, string>, skipUntraded: bool, d: Date)
    requires AllSignConsistent(ledger)
    requires forall i, j :: 0 <= i < j < |days| ==> days[i] != days[j]
    requires LegacyNewRows(ledger, cache, start, days, prices, names, skipUntraded).Success?
    ensures var rows := LegacyNewRows(ledger, cache, start, days, prices, names, skipUntraded).value;
            Filter(rows, (r: PerfRecord) => r.endDate == d)
              == if d in days && LegacyDue(ledger, cache, d, skipUntraded)
                 then LegacyDayRows(ledger, start, d, prices, names).value else []
  {
    var due := (x: Date) => LegacyDue(ledger, cache, x, skipUntraded);
    var day := (x: Date) => LegacyDayRows(ledger, start, x, prices, names);
    GatherOfDay(days, due, day, d);
  }

  /** The loop as written: the first due day raises, so it either has
      nothing to compute or fails. */
  function LegacyNewRowsAsWritten(ledger: seq<Transaction>, cache: seq<PerfRecord>, days: seq<Date>,
                                  skipUntraded: bool): (r: Result<seq<PerfRecord>, LegacyRunError>)
    ensures r.Failure? <==> exists d :: d in days && LegacyDue(ledger, cache, d, skipUntraded)
    ensures r.Success? ==> r.value == []
  {
    if exists d :: d in days && LegacyDue(ledger, cache, d, skipUntraded) then Failure(MissingStockPrices)
    else Success([])
  }

  /** The cached table: absent when no cache file exists. */
  function LegacyCache(stored: Option<seq<PerfRecord>>): seq<PerfRecord> {
    stored.GetOr([])
  }

  /** `calc_daily` with the prices passed: every day after `start` up to
      `today`, weekends included, is computed unless cached or untraded, and
      appended after the whole cached table. */
  function LegacyDaily(ledger: seq<Transaction>, stored: Option<seq<PerfRecord>>, start: Date, today: Date,
                       prices: map<string, Series>, names: map<string, string>)
    : (r: Result<seq<PerfRecord>, LegacyRunError>)
    requires AllSignConsistent(ledger)
    ensures var cache := LegacyCache(stored);
            r.Failure? <==> SomeDayFails(ledger, cache, start, Candidates(start, today), prices, names, true)
    ensures r.Success? ==> |r.value| >= |LegacyCache(stored)| && r.value[..|LegacyCache(stored)|] == LegacyCache(stored)
  {
    var cache := LegacyCache(stored);
    match LegacyNewRows(ledger, cache, start, Candidates(start, today), prices, names, true)
    case Failure(e) => Failure(e)
    case Success(rows) => Success(cache + rows)
  }

  /** In a successful daily run, each day of the output holds its cached rows
      followed, for a due day after `start` up to `today`, by its computed
      records. */
  lemma LegacyDailyDay(ledger: seq<Transaction>, stored: Option<seq<PerfRecord>>, start: Date, today: Date,
                       prices: map<string, Series>, names: map<string, string>, d: Date)
    requires AllSignConsistent(ledger)
    requires LegacyDaily(ledger, stored, start, today, prices, names).Success?
    ensures var cache := LegacyCache(stored);
            var onDay := (r: PerfRecord) => r.endDate == d;
            Filter(LegacyDaily(ledger, stored, start, today, prices, names).value, onDay)
              == Filter(cache, onDay)
                 + (if start < d <= today && LegacyDue(ledger, cache, d, true)
                    then LegacyDayRows(ledger, start, d, prices, names).value else [])
  {
    var cache := LegacyCache(stored);
    var onDay := (r: PerfRecord) => r.endDate == d;
    var days := Candidates(start, today);
    var rows := LegacyNewRows(ledger, cache, start, days, prices, names, true).value;
    FilterConcat(cache, rows, onDay);
    LegacyNewRowsOfDay(ledger, cache, start, days, prices, names, true, d);
  }

  /** `calc_daily` as written. */
  function LegacyDailyAsWritten(ledger: seq<Transaction>, stored: Option<seq<PerfRecord>>, start: Date, today: Date)
    : (r: Result<seq<PerfRecord>, LegacyRunError>)
    ensures var cache := LegacyCache(stored);
            r.Failure? <==> exists d :: start < d <= today && LegacyDue(ledger, cache, d, true)
    ensures r.Success? ==> r.value == LegacyCache(stored)
  {
    var cache := LegacyCache(stored);
    match LegacyNewRowsAsWritten(ledger, cache, Candidates(start, today), true)
    case Failure(e) => Failure(e)
    case Success(rows) => Success(cache + rows)
  }

  /** As written, the first daily run over a traded ledger fails: with no
      cache file and a trade on 2020-10-15, computing from 2020-10-01 up to
      2020-10-16 raises instead of writing anything. */
  lemma LegacyDailyAsWrittenFails(t: Transaction)
    requires t.date == 737713
    ensures LegacyDailyAsWritten([t], None, 737699, 737714) == Failure(MissingStockPrices)
  {
    assert LegacyDue([t], [], 737713, true);
  }

  /** The days from `start` to `today` that satisfy `anchor`, in order. */
  function AnchorsIn(start: Date, today: Date, anchor: Date -> bool): (ms: seq<Date>)
    ensures forall d :: d in ms <==> start <= d <= today && anchor(d)
    ensures forall i, j :: 0 <= i < j < |ms| ==> ms[i] < ms[j]
  {
    var days := Candidates(start - 1, today);
    FilterIncreasing(days, anchor);
    var ms := Filter(days, anchor);
    assert forall i, j :: 0 <= i < j < |ms| ==> ms[i] < ms[j];
    ms
  }

  /** `pd.date_range(start, today, freq)[1:]` for the anchors of `freq`. */
  function AnchorsAfterFirst(start: Date, today: Date, anchor: Date -> bool): (ds: seq<Date>)
    ensures forall i, j :: 0 <= i < j < |ds| ==> ds[i] < ds[j]
    ensures forall d :: d in ds ==> start < d <= today && anchor(d)
  {
    var ms := AnchorsIn(start, today, anchor);
    if |ms| == 0 then []
    else
      var rest := ms[1..];
      assert ms[0] in ms;
      forall d | d in rest ensures start < d <= today && anchor(d) {
        var j :| 0 <= j < |rest| && rest[j] == d;
        assert ms[j + 1] == d && ms[j + 1] in ms;
        assert start <= ms[0] < ms[j + 1];
      }
      forall i, j | 0 <= i < j < |rest| ensures rest[i] < rest[j] {
        assert rest[i] == ms[i + 1] && rest[j] == ms[j + 1];
      }
      rest
  }

  /** Dropping the first element drops the earliest anchor on or after
      `start`, whether or not it is `start` itself. */
  lemma FirstAnchorDropped(start: Date, today: Date, anchor: Date -> bool, m: Date)
    requires start <= m <= today && anchor(m)
    requires forall x :: start <= x < m ==> !anchor(x)
    ensures m !in AnchorsAfterFirst(start, today, anchor)
    ensures forall d :: d in AnchorsAfterFirst(start, today, anchor) <==> m < d <= today && anchor(d)
  {
    var ms := AnchorsIn(start, today, anchor);
    assert m in ms;
    var k :| 0 <= k < |ms| && ms[k] == m;
    assert ms[0] in ms;
    assert !(ms[0] < m);
    assert k == 0;
    forall d ensures d in AnchorsAfterFirst(start, today, anchor) <==> m < d <= today && anchor(d) {
      if m < d <= today && anchor(d) {
        assert d in ms;
        var j :| 0 <= j < |ms| && ms[j] == d;
        assert j != 0;
        assert ms[1..][j - 1] == d;
      }
    }
  }

  /** `pd.date_range(start, today, freq='MS')[1:]`: the month starts after the
      first one on or after `start`. */
  function MonthlyCandidates(start: Date, today: Date): seq<Date> {
    AnchorsAfterFirst(start, today, IsMonthStart)
  }

  /** The monthly candidates skip the earliest month start on or after
      `start`: `start` itself when it is a month start, as the comment at the
      call intends, but otherwise a later month start, which is then never
      computed. */
  lemma FirstMonthStartDropped(start: Date, today: Date, m: Date)
    requires start <= m <= today && IsMonthStart(m)
    requires forall x :: start <= x < m ==> !IsMonthStart(x)
    ensures m !in MonthlyCandidates(start, today)
    ensures forall d :: d in MonthlyCandidates(start, today) <==> m < d <= today && IsMonthStart(d)
  {
    FirstAnchorDropped(start, today, IsMonthStart, m);
  }

  /** `calc_monthly` with the prices passed: every candidate month start not
      in the cache is computed, traded or not, and appended after the cached
      table. */
  function LegacyMonthly(ledger: seq<Transaction>, stored: Option<seq<PerfRecord>>, start: Date, today: Date,
                         prices: map<string, Series>, names: map<string, string>)
    : (r: Result<seq<PerfRecord>, LegacyRunError>)
    requires AllSignConsistent(ledger)
    ensures var cache := LegacyCache(stored);
            r.Failure? <==> SomeDayFails(ledger, cache, start, MonthlyCandidates(start, today), prices, names, false)
    ensures r.Success? ==> |r.value| >= |LegacyCache(stored)| && r.value[..|LegacyCache(stored)|] == LegacyCache(stored)
  {
    var cache := LegacyCache(stored);
    match LegacyNewRows(ledger, cache, start, MonthlyCandidates(start, today), prices, names, false)
    case Failure(e) => Failure(e)
    case Success(rows) => Success(cache + rows)
  }

  /** In a successful monthly run, a candidate month start missing from the
      cache gets its computed records, and any other day only its cached
      rows. */
  lemma LegacyMonthlyDay(ledger: seq<Transaction>, stored: Option<seq<PerfRecord>>, start: Date, today: Date,
                         prices: map<string, Series>, names: map<string, string>, d: Date)
    requires AllSignConsistent(ledger)
    requires LegacyMonthly(ledger, stored, start, today, prices, names).Success?
    ensures var cache := LegacyCache(stored);
            var onDay := (r: PerfRecord) => r.endDate == d;
            Filter(LegacyMonthly(ledger, stored, start, today, prices, names).value, onDay)
              == Filter(cache, onDay)
                 + (if d in MonthlyCandidates(start, today) && !Computed(cache, d)
                    then LegacyDayRows(ledger, start, d, prices, names).value else [])
  {
    var cache := LegacyCache(stored);
    var onDay := (r: PerfRecord) => r.endDate == d;
    var days := MonthlyCandidates(start, today);
    var rows := LegacyNewRows(ledger, cache, start, days, prices, names, false).value;
    FilterConcat(cache, rows, onDay);
    LegacyNewRowsOfDay(ledger, cache, start, days, prices, names, false, d);
  }

  /** `calc_monthly` as written. */
  function LegacyMonthlyAsWritten(ledger: seq<Transaction>, stored: Option<seq<PerfRecord>>, start: Date, today: Date)
    : (r: Result<seq<PerfRecord>, LegacyRunError>)
    ensures var cache := LegacyCache(stored);
            r.Failure? <==> exists d :: d in MonthlyCandidates(start, today) && !Computed(cache, d)
    ensures r.Success? ==> r.value == LegacyCache(stored)
  {
    var cache := LegacyCache(stored);
    match LegacyNewRowsAsWritten(ledger, cache, MonthlyCandidates(start, today), false)
    case Failure(e) => Failure(e)
    case Success(rows) => Success(cache + rows)
  }

  /** As written, a monthly run fails as soon as one candidate month start is
      not cached, even with an empty ledger. */
  lemma LegacyMonthlyAsWrittenFails(start: Date, today: Date, d: Date)
    requires d in MonthlyCandidates(start, today)
    ensures LegacyMonthlyAsWritten([], None, start, today) == Failure(MissingStockPrices)
  {
    assert LegacyDue([], [], d, false);
  }
}
