/** Per-instrument price series and the "last open market day" lookup. */
module Prices {
  import opened Wrappers
  import opened Calendar

  /** One cell of a price series: a quote, Python's `None`, or a float NaN. */
  datatype PriceCell = Quote(value: real) | Missing | NotANumber

  /** A sparse series keyed by trading day (holidays and weekends absent). */
  type Series = map<Date, PriceCell>

  predicate NaNFree(m: Series) {
    forall d :: d in m ==> !m[d].NotANumber?
  }

  /** `{k: v for k, v in series.items() if v == v}`: NaN is the only value
      that differs from itself, so exactly the NaN cells are removed. */
  function DropNaN(m: Series): (r: Series)
    ensures NaNFree(r)
    ensures forall d :: d in r <==> d in m && !m[d].NotANumber?
    ensures forall d :: d in r ==> r[d] == m[d]
  {
    map d | d in m && !m[d].NotANumber? :: m[d]
  }

  /** The greatest day of `m` in `[lo, hi]`, if any. */
  function LatestIn(lo: Date, hi: Date, m: Series): (r: Option<Date>)
    ensures r.Some? ==> lo <= r.value <= hi && r.value in m
    ensures r.Some? ==> forall k :: k in m && lo <= k <= hi ==> k <= r.value
    ensures r.None? <==> forall k :: k in m ==> k < lo || hi < k
    decreases hi - lo
  {
    if hi < lo then None
    else if hi in m then Some(hi)
    else LatestIn(lo, hi - 1, m)
  }

  /** The least day of `m` in `[lo, hi]`, if any. */
  function EarliestIn(lo: Date, hi: Date, m: Series): (r: Option<Date>)
    ensures r.Some? ==> lo <= r.value <= hi && r.value in m
    ensures r.Some? ==> forall k :: k in m && lo <= k <= hi ==> r.value <= k
    ensures r.None? <==> forall k :: k in m ==> k < lo || hi < k
    decreases hi - lo
  {
    if hi < lo then None
    else if lo in m then Some(lo)
    else EarliestIn(lo + 1, hi, m)
  }

  /** `get_first_last_open_day` of the current analyzer: the first (or last)
      day of `m` in the closed window `[start, end]`; when the window holds no
      day of `m`, `start` (or `end`) itself. */
  function OpenDay(start: Date, end: Date, m: Series, first: bool): (r: Date)
    ensures (exists k :: k in m && start <= k <= end) ==> r in m && start <= r <= end
    ensures first ==> forall k :: k in m && start <= k <= end ==> r <= k
    ensures !first ==> forall k :: k in m && start <= k <= end ==> k <= r
    ensures (forall k :: k in m ==> k < start || end < k) ==> r == (if first then start else end)
  {
    var found := if first then EarliestIn(start, end, m) else LatestIn(start, end, m);
    match found
    case Some(d) => d
    case None => if first then start else end
  }

  /** `get_first_last_open_day` of the older analyzer: the same search over
      the half-open window `[start, end)`, with the same fallbacks. */
  function LegacyOpenDay(start: Date, end: Date, m: Series, first: bool): (r: Date)
    ensures (exists k :: k in m && start <= k < end) ==> r in m && start <= r < end
    ensures first ==> forall k :: k in m && start <= k < end ==> r <= k
    ensures !first ==> forall k :: k in m && start <= k < end ==> k <= r
    ensures (forall k :: k in m ==> k < start || end <= k) ==> r == (if first then start else end)
  {
    var found := if first then EarliestIn(start, end - 1, m) else LatestIn(start, end - 1, m);
    match found
    case Some(d) => d
    case None => if first then start else end
  }

  /** The older analyzer is called with `end` already moved one day forward,
      so its half-open window is the current analyzer's closed window: both
      pick the same day whenever that window holds a priced day. When it holds
      none, the older analyzer falls back to the shifted day `end + 1`. */
  lemma LegacyWindowIsShiftedClosedWindow(start: Date, end: Date, m: Series, first: bool)
    ensures (exists k :: k in m && start <= k <= end) ==>
      LegacyOpenDay(start, end + 1, m, first) == OpenDay(start, end, m, first)
    ensures (forall k :: k in m ==> k < start || end < k) ==>
      LegacyOpenDay(start, end + 1, m, first) == (if first then start else end + 1)
  {
  }

  /** `series.get(d, 0)` with `None` read as 0: the quote on day `d`, or 0 when
      the day is absent or holds no quote. */
  function PriceAt(m: Series, d: Date): (p: real)
    requires NaNFree(m)
  {
    if d in m then
      match m[d]
      case Quote(v) => v
      case Missing => 0.0
    else 0.0
  }

  /** The price the current analyzer marks holdings to: the quote on the last
      non-NaN day in `[start, end]`. If that window has no such day, the
      fallback day `end` is not in the series either, so the price is 0. */
  lemma MarkPriceIsLastQuoteOrZero(start: Date, end: Date, m: Series)
    requires start <= end
    ensures var live := DropNaN(m);
            var p := PriceAt(live, OpenDay(start, end, live, false));
            && ((forall k :: k in live ==> k < start || end < k) ==> p == 0.0)
            && (forall d :: d in live && start <= d <= end && live[d].Quote?
                  && (forall k :: k in live && start <= k <= end ==> k <= d)
                  ==> p == live[d].value)
  {
    var live := DropNaN(m);
    if forall k :: k in live ==> k < start || end < k {
      assert end !in live;
    }
  }

  /** The older analyzer, by contrast, can mark to a quote dated after the
      requested end day: when no non-NaN day lies in `[start, end]` but day
      `end + 1` has a quote, that quote is used. */
  lemma LegacyMarkPriceMayLookAhead(start: Date, end: Date, m: Series)
    requires start <= end
    requires forall k :: k in m ==> k < start || end < k
    requires end + 1 in m && m[end + 1].Quote?
    ensures var live := DropNaN(m);
            PriceAt(live, LegacyOpenDay(start, end + 1, live, false)) == m[end + 1].value
  {
  }
}
