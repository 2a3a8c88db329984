/** Performance records, the guarded percentages, the portfolio totals and
    the ordered results dictionary (`results[key] = record`). */
module Records {
  import opened Wrappers
  import opened Calendar

  /** One row of the performance table. `costBasis` is `None` in the older
      analyzer's records, which have no `cost_basis` column. */
  datatype PerfRecord = PerfRecord(
    product: string,
    ticker: string,
    quantity: int,
    startDate: Date,
    endDate: Date,
    avgCost: real,
    costBasis: Option<real>,
    totalCost: real,
    transactionCosts: real,
    currentValue: real,
    currentReturn: real,
    realized: real,
    netReturn: real,
    currentPct: real,
    netPct: real)

  /** `num / den * 100 if (num and den) else 0`: the guard of the current
      performance percentage. */
  function CurrentPct(num: real, den: real): (r: real)
    ensures den != 0.0 ==> r * den == 100.0 * num
    ensures den == 0.0 ==> r == 0.0
  {
    if num != 0.0 && den != 0.0 then num / den * 100.0 else 0.0
  }

  /** `num / den * 100 if den else 0`: the guard of the net performance percentage. */
  function NetPct(num: real, den: real): (r: real)
    ensures den != 0.0 ==> r * den == 100.0 * num
    ensures den == 0.0 ==> r == 0.0
  {
    if den != 0.0 then num / den * 100.0 else 0.0
  }

  /** The extra `num` test of the current percentage changes nothing: with
      exact arithmetic `0 / den` is already 0. */
  lemma PercentGuardsAgree(num: real, den: real)
    ensures CurrentPct(num, den) == NetPct(num, den)
  {
  }

  /** The running sums of the portfolio aggregator. */
  datatype Totals = Totals(
    quantity: int,
    purchaseCost: real,
    costBasis: real,
    transactionCosts: real,
    currentValue: real,
    currentReturn: real,
    realized: real,
    netReturn: real)

  const NoTotals := Totals(0, 0.0, 0.0, 0.0, 0.0, 0.0, 0.0, 0.0)

  function Add(a: Totals, b: Totals): Totals {
    Totals(a.quantity + b.quantity, a.purchaseCost + b.purchaseCost, a.costBasis + b.costBasis,
           a.transactionCosts + b.transactionCosts, a.currentValue + b.currentValue,
           a.currentReturn + b.currentReturn, a.realized + b.realized, a.netReturn + b.netReturn)
  }

  /** What one record adds to the sums; a record without `cost_basis`
      contributes 0 there (`stock.get('cost_basis', 0)`). */
  function Contribution(r: PerfRecord): Totals {
    Totals(r.quantity, r.totalCost, r.costBasis.GetOr(0.0), r.transactionCosts, r.currentValue,
           r.currentReturn, r.realized, r.netReturn)
  }

  /** The aggregator loop over the records, in order. */
  function Accumulate(rs: seq<PerfRecord>): Totals {
    if |rs| == 0 then NoTotals
    else Add(Accumulate(rs[..|rs| - 1]), Contribution(rs[|rs| - 1]))
  }

  /** The sums split over any concatenation: each field of the total is the
      sum of that field over all records. */
  lemma {:induction false} AccumulateConcat(a: seq<PerfRecord>, b: seq<PerfRecord>)
    ensures Accumulate(a + b) == Add(Accumulate(a), Accumulate(b))
    decreases |b|
  {
    if |b| == 0 {
      assert a + b == a;
    } else {
      var b' := b[..|b| - 1];
      assert (a + b)[..|a + b| - 1] == a + b';
      assert (a + b)[|a + b| - 1] == b[|b| - 1];
      AccumulateConcat(a, b');
    }
  }

  lemma AccumulateSingle(x: PerfRecord)
    ensures Accumulate([x]) == Contribution(x)
  {
    assert [x][..0] == [];
  }

  /** The dictionary `results`, as its (key, record) items in insertion order. */
  datatype Entry = Entry(key: string, record: PerfRecord)

  function Keys(es: seq<Entry>): (ks: seq<string>)
    ensures |ks| == |es|
    ensures forall i :: 0 <= i < |es| ==> ks[i] == es[i].key
  {
    seq(|es|, i requires 0 <= i < |es| => es[i].key)
  }

  function Values(es: seq<Entry>): (vs: seq<PerfRecord>)
    ensures |vs| == |es|
    ensures forall i :: 0 <= i < |es| ==> vs[i] == es[i].record
  {
    seq(|es|, i requires 0 <= i < |es| => es[i].record)
  }

  predicate DistinctKeys(es: seq<Entry>) {
    forall i, j :: 0 <= i < j < |es| ==> es[i].key != es[j].key
  }

  /** The position of key `k`. */
  function IndexOf(es: seq<Entry>, k: string): (i: nat)
    requires k in Keys(es)
    ensures i < |es| && es[i].key == k
  {
    if es[0].key == k then 0
    else
      var tail := es[1..];
      assert k in Keys(tail) by {
        var j :| 0 <= j < |es| && Keys(es)[j] == k;
        assert Keys(tail)[j - 1] == k;
      }
      1 + IndexOf(tail, k)
  }

  /** `results.get(k)`. */
  function Lookup(es: seq<Entry>, k: string): Option<PerfRecord> {
    if k in Keys(es) then Some(es[IndexOf(es, k)].record) else None
  }

  lemma LookupByIndex(es: seq<Entry>, i: nat)
    requires DistinctKeys(es) && i < |es|
    ensures Lookup(es, es[i].key) == Some(es[i].record)
  {
    assert Keys(es)[i] == es[i].key;
  }

  /** `results[k] = v`: an existing key keeps its position and takes the new
      value, a new key is appended. */
  function Upsert(es: seq<Entry>, k: string, v: PerfRecord): (r: seq<Entry>)
    requires DistinctKeys(es)
    ensures DistinctKeys(r)
    ensures forall x :: x in Keys(r) <==> x in Keys(es) || x == k
    ensures Lookup(r, k) == Some(v)
    ensures forall x :: x != k ==> Lookup(r, x) == Lookup(es, x)
    ensures k in Keys(es) ==> Keys(r) == Keys(es)
    ensures k !in Keys(es) ==> r == es + [Entry(k, v)]
  {
    if k in Keys(es) then
      var r := es[IndexOf(es, k) := Entry(k, v)];
      UpsertReplaces(es, k, v);
      r
    else
      var r := es + [Entry(k, v)];
      UpsertAppends(es, k, v);
      r
  }

  /** The per-ticker loop of `calculate_all_stocks_mwr`, whatever the
      calculation: each ticker's record is stored under its name in turn, and
      the first ticker whose calculation fails ends the loop with its error. */
  function Tabulate<E>(stocks: seq<string>, compute: string -> Result<PerfRecord, E>): (r: Result<seq<Entry>, E>)
    ensures r.Failure? <==> exists s :: s in stocks && compute(s).Failure?
    ensures r.Success? ==> DistinctKeys(r.value)
    ensures r.Success? ==> forall x :: x in Keys(r.value) <==> x in stocks
    ensures r.Success? ==> forall s :: s in stocks ==> compute(s).Success? && Lookup(r.value, s) == Some(compute(s).value)
  {
    if |stocks| == 0 then Success([])
    else
      var init := stocks[..|stocks| - 1];
      var s := stocks[|stocks| - 1];
      assert stocks == init + [s];
      match Tabulate(init, compute)
      case Failure(e) => Failure(e)
      case Success(es) =>
        match compute(s)
        case Failure(e) => Failure(e)
        case Success(v) => Success(Upsert(es, s, v))
  }

  /** The loop reads the calculation only at the requested tickers: two
      calculations that agree there tabulate alike. */
  lemma {:induction false} TabulateAgrees<E>(stocks: seq<string>, f: string -> Result<PerfRecord, E>,
                                             g: string -> Result<PerfRecord, E>)
    requires forall s :: s in stocks ==> f(s) == g(s)
    ensures Tabulate(stocks, f) == Tabulate(stocks, g)
  {
    if |stocks| > 0 {
      var init := stocks[..|stocks| - 1];
      assert forall s :: s in init ==> s in stocks;
      TabulateAgrees(init, f, g);
    }
  }

  lemma UpsertReplaces(es: seq<Entry>, k: string, v: PerfRecord)
    requires DistinctKeys(es) && k in Keys(es)
    ensures var r := es[IndexOf(es, k) := Entry(k, v)];
            && DistinctKeys(r) && Keys(r) == Keys(es)
            && Lookup(r, k) == Some(v)
            && forall x :: x != k ==> Lookup(r, x) == Lookup(es, x)
  {
    var i := IndexOf(es, k);
    var r := es[i := Entry(k, v)];
    assert Keys(r) == Keys(es);
    LookupByIndex(r, i);
    forall x | x != k ensures Lookup(r, x) == Lookup(es, x) {
      if x in Keys(es) {
        var j :| 0 <= j < |es| && Keys(es)[j] == x;
        LookupByIndex(es, j);
        LookupByIndex(r, j);
      }
    }
  }

  lemma UpsertAppends(es: seq<Entry>, k: string, v: PerfRecord)
    requires DistinctKeys(es) && k !in Keys(es)
    ensures var r := es + [Entry(k, v)];
            && DistinctKeys(r)
            && (forall x :: x in Keys(r) <==> x in Keys(es) || x == k)
            && Lookup(r, k) == Some(v)
            && forall x :: x != k ==> Lookup(r, x) == Lookup(es, x)
  {
    var r := es + [Entry(k, v)];
    assert Keys(r) == Keys(es) + [k];
    assert DistinctKeys(r) by {
      forall i, j | 0 <= i < j < |r| ensures r[i].key != r[j].key {
        if j == |r| - 1 {
          assert Keys(es)[i] == r[i].key;
        }
      }
    }
    LookupByIndex(r, |es|);
    forall x | x != k ensures Lookup(r, x) == Lookup(es, x) {
      if x in Keys(es) {
        var j :| 0 <= j < |es| && Keys(es)[j] == x;
        LookupByIndex(es, j);
        LookupByIndex(r, j);
      }
    }
  }
}
