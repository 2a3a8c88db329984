/** Replaying one instrument's history: average cost, holdings, invested
    capital, realized return and fees. Both analyzer versions share this
    replay unchanged. */
module Position {
  import opened Seqs
  import opened Ledger

  function Abs(x: real): (r: real)
    ensures r >= 0.0 && (r == x || r == -x)
  {
    if x < 0.0 then -x else x
  }

  function AbsInt(x: int): (r: nat)
    ensures r == x || r == -x
  {
    if x < 0 then -x else x
  }

  /** Sum of `Quantity` over the BUY rows. */
  function BoughtQuantity(h: seq<Transaction>): int {
    if |h| == 0 then 0
    else BoughtQuantity(h[..|h| - 1]) + (if h[|h| - 1].action == Buy then h[|h| - 1].quantity else 0)
  }

  /** Sum of `Cost` over the BUY rows (negative: cash paid out). */
  function BoughtCost(h: seq<Transaction>): real {
    if |h| == 0 then 0.0
    else BoughtCost(h[..|h| - 1]) + (if h[|h| - 1].action == Buy then h[|h| - 1].cost else 0.0)
  }

  /** Sum of `|Cost|` over the BUY rows: the capital those purchases deployed. */
  function BoughtValue(h: seq<Transaction>): real {
    if |h| == 0 then 0.0
    else BoughtValue(h[..|h| - 1]) + (if h[|h| - 1].action == Buy then Abs(h[|h| - 1].cost) else 0.0)
  }

  /** Sum of the transaction costs of all rows. */
  function Fees(h: seq<Transaction>): real {
    if |h| == 0 then 0.0 else Fees(h[..|h| - 1]) + h[|h| - 1].fees
  }

  predicate HasSale(h: seq<Transaction>) {
    exists i :: 0 <= i < |h| && h[i].action == Sell
  }

  /** `avg_cost`: minus the summed BUY cost over the summed BUY quantity, and 0
      when the bought quantity is not positive. */
  function AvgCost(h: seq<Transaction>): (a: real)
    ensures BoughtQuantity(h) > 0 ==> a * (BoughtQuantity(h) as real) == -BoughtCost(h)
    ensures BoughtQuantity(h) <= 0 ==> a == 0.0
  {
    var q := BoughtQuantity(h);
    if q > 0 then -(BoughtCost(h) / (q as real)) else 0.0
  }

  /** A row the replay can process: `|Cost| / |Quantity|` is defined and the
      action agrees with the quantity's sign. */
  predicate Replayable(t: Transaction) {
    t.quantity != 0 && SignConsistent(t)
  }

  predicate AllReplayable(h: seq<Transaction>) {
    forall i :: 0 <= i < |h| ==> Replayable(h[i])
  }

  /** `transaction_price`: the unit price implied by the gross cost, not the
      broker's `Price` column. */
  function UnitPrice(t: Transaction): real
    requires t.quantity != 0
  {
    Abs(t.cost) / (AbsInt(t.quantity) as real)
  }

  /** The running totals of the replay: `quantity_held`, `purchase_cost`
      (reported as `total_cost`), `realized_return`, `transaction_costs_total`. */
  datatype Position = Position(held: int, purchaseCost: real, realized: real, feesPaid: real)

  const Flat := Position(0, 0.0, 0.0, 0.0)

  /** One row of the replay loop. A SELL only counts while something is held;
      it is valued against the average cost of all BUY rows of `all`, the
      whole replayed history, not just the rows seen so far. */
  function Step(p: Position, t: Transaction, all: seq<Transaction>): (r: Position)
    requires t.quantity != 0
    requires p.held > 0 && t.action == Sell ==> BoughtQuantity(all) != 0
    ensures t.action == Sell && p.held <= 0 ==> r == p
    ensures SignConsistent(t) ==> r.held == p.held + (if t.action == Buy || p.held > 0 then t.quantity else 0)
    ensures t.action == Sell ==> r.purchaseCost == p.purchaseCost
    ensures t.action == Buy && SignConsistent(t) ==> r.purchaseCost >= p.purchaseCost
    ensures t.action == Buy ==> r.realized == p.realized + t.fees
    ensures t.action == Buy || p.held > 0 ==> r.feesPaid == p.feesPaid - t.fees
  {
    var unitPrice := UnitPrice(t);
    match t.action
    case Buy =>
      Position(p.held + t.quantity, p.purchaseCost + (t.quantity as real) * unitPrice,
               p.realized + t.fees, p.feesPaid + -1.0 * t.fees)
    case Sell =>
      if p.held > 0 then
        var avgCostStock := -1.0 * (BoughtCost(all) / (BoughtQuantity(all) as real));
        var q := AbsInt(t.quantity);
        Position(p.held - q, p.purchaseCost,
                 p.realized + (q as real) * (unitPrice - avgCostStock) + t.fees,
                 p.feesPaid + -1.0 * t.fees)
      else p
  }

  lemma PrefixStep<T>(h: seq<T>, n: nat)
    requires 0 < n <= |h|
    ensures h[..n][..n - 1] == h[..n - 1] && h[..n][n - 1] == h[n - 1] && |h[..n]| == n
  {
  }

  /** BUY quantities are non-negative, so the bought quantity of a prefix never
      exceeds that of the whole history. */
  lemma {:induction false} BoughtQuantityOfPrefix(h: seq<Transaction>, n: nat)
    requires n <= |h|
    requires AllSignConsistent(h)
    ensures BoughtQuantity(h[..n]) <= BoughtQuantity(h)
    decreases |h| - n
  {
    if n < |h| {
      BoughtQuantityOfPrefix(h, n + 1);
      PrefixStep(h, n + 1);
      assert SignConsistent(h[n]);
    } else {
      assert h[..n] == h;
    }
  }

  /** The replay loop after its first `n` rows of `h`. Holdings never exceed
      the quantity bought so far, which is what keeps the SELL branch's
      unguarded division by the bought quantity well defined. */
  function Replay(h: seq<Transaction>, n: nat): (p: Position)
    requires n <= |h|
    requires AllReplayable(h)
    ensures p.held <= BoughtQuantity(h[..n])
    decreases n
  {
    if n == 0 then Flat
    else
      var prev := Replay(h, n - 1);
      assert AllSignConsistent(h) by {
        forall i | 0 <= i < |h| ensures SignConsistent(h[i]) {
          assert Replayable(h[i]);
        }
      }
      BoughtQuantityOfPrefix(h, n - 1);
      BoughtQuantityOfPrefix(h, 0);
      assert h[..0] == [];
      PrefixStep(h, n);
      assert Replayable(h[n - 1]);
      Step(prev, h[n - 1], h)
  }

  lemma AllReplayableSignConsistent(h: seq<Transaction>)
    requires AllReplayable(h)
    ensures AllSignConsistent(h)
  {
    forall i | 0 <= i < |h| ensures SignConsistent(h[i]) {
      assert Replayable(h[i]);
    }
  }

  /** What one row does to the running totals. A BUY adds its quantity to the
      holdings, its `|Cost|` to the invested capital and its fee to the
      realized return (fees are recorded negative, so the fee total grows by
      `-fee`). A SELL while something is held removes `|Quantity|` units and
      realizes `|Quantity| * (unit price - avg_cost) + fee`, where `avg_cost`
      is the BUY average of the whole history; the invested capital is
      untouched. A SELL while nothing is held changes nothing at all. */
  lemma ReplayRow(h: seq<Transaction>, n: nat)
    requires 0 < n <= |h|
    requires AllReplayable(h)
    ensures var prev := Replay(h, n - 1);
            var t := h[n - 1];
            var p := Replay(h, n);
            && (t.action == Buy ==>
                  p == Position(prev.held + t.quantity, prev.purchaseCost + Abs(t.cost),
                                prev.realized + t.fees, prev.feesPaid - t.fees))
            && (t.action == Sell && prev.held > 0 ==>
                  p == Position(prev.held - AbsInt(t.quantity), prev.purchaseCost,
                                prev.realized + (AbsInt(t.quantity) as real) * (UnitPrice(t) - AvgCost(h)) + t.fees,
                                prev.feesPaid - t.fees))
            && (t.action == Sell && prev.held <= 0 ==> p == prev)
  {
    var prev := Replay(h, n - 1);
    var t := h[n - 1];
    assert Replayable(t);
    if t.action == Buy {
      BuyStep(prev, t, h);
    } else if prev.held > 0 {
      AllReplayableSignConsistent(h);
      BoughtQuantityOfPrefix(h, n - 1);
      SellStep(prev, t, h);
    }
  }

  /** A BUY's unit price times its quantity is its `|Cost|`. */
  lemma BuyStep(p: Position, t: Transaction, all: seq<Transaction>)
    requires t.action == Buy && t.quantity > 0
    ensures Step(p, t, all) == Position(p.held + t.quantity, p.purchaseCost + Abs(t.cost),
                                        p.realized + t.fees, p.feesPaid - t.fees)
  {
    var q := t.quantity as real;
    assert UnitPrice(t) == Abs(t.cost) / q;
    assert q * (Abs(t.cost) / q) == Abs(t.cost);
  }

  /** A SELL while holding is valued against `avg_cost` of the whole history. */
  lemma SellStep(p: Position, t: Transaction, all: seq<Transaction>)
    requires t.action == Sell && t.quantity != 0 && p.held > 0 && BoughtQuantity(all) > 0
    ensures Step(p, t, all) == Position(p.held - AbsInt(t.quantity), p.purchaseCost,
                                        p.realized + (AbsInt(t.quantity) as real) * (UnitPrice(t) - AvgCost(all)) + t.fees,
                                        p.feesPaid - t.fees)
  {
    assert -1.0 * (BoughtCost(all) / (BoughtQuantity(all) as real)) == AvgCost(all);
  }

  /** The invested capital after `n` rows is the summed `|Cost|` of the BUY
      rows among them, whatever the SELL rows do. */
  lemma {:induction false} PurchaseCostIsBoughtValue(h: seq<Transaction>, n: nat)
    requires n <= |h|
    requires AllReplayable(h)
    ensures Replay(h, n).purchaseCost == BoughtValue(h[..n])
  {
    if n > 0 {
      PurchaseCostIsBoughtValue(h, n - 1);
      ReplayRow(h, n);
      PrefixStep(h, n);
    }
  }

  /** `total_cost` never decreases along the replay. */
  lemma {:induction false} PurchaseCostNonDecreasing(h: seq<Transaction>, i: nat, j: nat)
    requires i <= j <= |h|
    requires AllReplayable(h)
    ensures Replay(h, i).purchaseCost <= Replay(h, j).purchaseCost
    decreases j - i
  {
    if i < j {
      PurchaseCostNonDecreasing(h, i, j - 1);
      ReplayRow(h, j);
    }
  }

  /** Holdings never grow on a SELL row. */
  lemma SaleNeverAddsHoldings(h: seq<Transaction>, n: nat)
    requires 0 < n <= |h|
    requires AllReplayable(h)
    requires h[n - 1].action == Sell
    ensures Replay(h, n).held <= Replay(h, n - 1).held
  {
    ReplayRow(h, n);
  }

  /** Without SELL rows the replay is a plain sum: the holdings are the bought
      quantity, and every fee went into the realized return and the fee total. */
  lemma {:induction false} BuyOnlyReplay(h: seq<Transaction>, n: nat)
    requires n <= |h|
    requires AllReplayable(h)
    requires forall i :: 0 <= i < n ==> h[i].action == Buy
    ensures Replay(h, n).held == BoughtQuantity(h[..n])
    ensures Replay(h, n).realized == Fees(h[..n])
    ensures Replay(h, n).feesPaid == -Fees(h[..n])
  {
    if n > 0 {
      BuyOnlyReplay(h, n - 1);
      ReplayRow(h, n);
      PrefixStep(h, n);
    }
  }

  /** The capital deployed by two ledgers one after the other is the sum of
      what each deployed. */
  lemma {:induction false} BoughtValueConcat(a: seq<Transaction>, b: seq<Transaction>)
    ensures BoughtValue(a + b) == BoughtValue(a) + BoughtValue(b)
    decreases |b|
  {
    if |b| == 0 {
      assert a + b == a;
    } else {
      var b' := b[..|b| - 1];
      assert (a + b)[..|a + b| - 1] == a + b';
      assert (a + b)[|a + b| - 1] == b[|b| - 1];
      BoughtValueConcat(a, b');
    }
  }

  /** Inserting a row adds exactly that row's contribution. */
  lemma {:induction false} BoughtValueInsert(t: Transaction, s: seq<Transaction>)
    requires Chronological(s)
    ensures BoughtValue(Insert(t, s)) == BoughtValue(s) + BoughtValue([t])
  {
    if |s| == 0 {
    } else if NotAfter(t, s[0]) {
      BoughtValueConcat([t], s);
    } else {
      assert s == [s[0]] + s[1..];
      BoughtValueInsert(t, s[1..]);
      BoughtValueConcat([s[0]], Insert(t, s[1..]));
      BoughtValueConcat([s[0]], s[1..]);
    }
  }

  /** Sorting does not change the capital deployed. */
  lemma {:induction false} BoughtValueSort(s: seq<Transaction>)
    ensures BoughtValue(SortChronologically(s)) == BoughtValue(s)
  {
    if |s| > 0 {
      BoughtValueSort(s[1..]);
      BoughtValueInsert(s[0], SortChronologically(s[1..]));
      assert s == [s[0]] + s[1..];
      BoughtValueConcat([s[0]], s[1..]);
    }
  }

  /** Keeping more rows never lowers the capital deployed. */
  lemma {:induction false} BoughtValueFilterMonotone(s: seq<Transaction>, p: Transaction -> bool,
                                                     q: Transaction -> bool)
    requires forall x :: x in s && p(x) ==> q(x)
    ensures BoughtValue(Filter(s, p)) <= BoughtValue(Filter(s, q))
  {
    if |s| > 0 {
      var init := s[..|s| - 1];
      var x := s[|s| - 1];
      assert forall y :: y in init ==> y in s;
      assert s == init + [x];
      BoughtValueFilterMonotone(init, p, q);
      assert [x][..0] == [];
      assert BoughtValue([x]) >= 0.0;
      if p(x) {
        assert Filter(s, p) == Filter(init, p) + [x];
        assert Filter(s, q) == Filter(init, q) + [x];
        BoughtValueConcat(Filter(init, p), [x]);
        BoughtValueConcat(Filter(init, q), [x]);
      } else if q(x) {
        assert Filter(s, p) == Filter(init, p);
        assert Filter(s, q) == Filter(init, q) + [x];
        BoughtValueConcat(Filter(init, q), [x]);
      } else {
        assert Filter(s, p) == Filter(init, p);
        assert Filter(s, q) == Filter(init, q);
      }
    }
  }
}
