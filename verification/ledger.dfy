/** The normalised transaction ledger: one row per trade, as the
    transaction loaders produce it and the performance calculator reads it. */
module Ledger {
  import opened Wrappers
  import opened Calendar
  import opened Seqs

  datatype Action = Buy | Sell

  /** One ledger row. `quantity` is signed (negative for a sale), `cost` is the
      gross value of the trade (negative when cash goes out) and `fees` the
      transaction costs (recorded negative). `price` is the broker's unit price
      column, which the calculator does not read. `time` is minutes after
      midnight. */
  datatype Transaction = Transaction(
    date: Date,
    time: int,
    brokerName: string,
    isin: Option<string>,
    exchange: string,
    stock: string,
    product: string,
    action: Action,
    quantity: int,
    price: real,
    currency: string,
    cost: real,
    fees: real)

  /** The action agrees with the sign of the quantity. A quantity of 0 may
      carry either action: the action is derived from the raw quantity before
      it is truncated to an integer. */
  predicate SignConsistent(t: Transaction) {
    && (t.action == Buy ==> t.quantity >= 0)
    && (t.action == Sell ==> t.quantity <= 0)
  }

  predicate AllSignConsistent(s: seq<Transaction>) {
    forall i :: 0 <= i < |s| ==> SignConsistent(s[i])
  }

  /** `a` sorts no later than `b` by (Date, Time). */
  predicate NotAfter(a: Transaction, b: Transaction) {
    a.date < b.date || (a.date == b.date && a.time <= b.time)
  }

  predicate Chronological(s: seq<Transaction>) {
    forall i, j :: 0 <= i < j < |s| ==> NotAfter(s[i], s[j])
  }

  /** A row that comes no later than every row of a chronological ledger can
      be put in front of it. */
  lemma ConsChronological(h: Transaction, s: seq<Transaction>)
    requires Chronological(s)
    requires forall x :: x in s ==> NotAfter(h, x)
    ensures Chronological([h] + s)
  {
    var r := [h] + s;
    forall i, j | 0 <= i < j < |r| ensures NotAfter(r[i], r[j]) {
      if i == 0 {
        assert r[j] in s;
      } else {
        assert r[i] == s[i - 1] && r[j] == s[j - 1];
      }
    }
  }

  /** A row no later than the first row of a chronological ledger is no later
      than any of its rows. */
  lemma BelowFirstIsBelowAll(t: Transaction, s: seq<Transaction>)
    requires Chronological(s) && |s| > 0 && NotAfter(t, s[0])
    ensures forall x :: x in s ==> NotAfter(t, x)
  {
    forall x | x in s ensures NotAfter(t, x) {
      var k :| 0 <= k < |s| && s[k] == x;
      if k > 0 {
        assert NotAfter(s[0], s[k]);
      }
    }
  }

  /** The first row of a chronological ledger is no later than the rest of it
      with a later row `t` added. */
  lemma FirstBelowInserted(t: Transaction, s: seq<Transaction>, rest: seq<Transaction>)
    requires Chronological(s) && |s| > 0 && !NotAfter(t, s[0])
    requires multiset(rest) == multiset(s[1..]) + multiset{t}
    ensures forall x :: x in rest ==> NotAfter(s[0], x)
  {
    forall x | x in rest ensures NotAfter(s[0], x) {
      assert x in multiset(rest);
      if x != t {
        assert x in multiset(s[1..]);
        var k :| 1 <= k < |s| && s[k] == x by {
          var j :| 0 <= j < |s[1..]| && s[1..][j] == x;
          assert s[j + 1] == x;
        }
      }
    }
  }

  /** Places `t` in front of the first row it does not come after; rows with
      the same (Date, Time) as `t` stay behind it. */
  function Insert(t: Transaction, s: seq<Transaction>): (r: seq<Transaction>)
    requires Chronological(s)
    ensures Chronological(r)
    ensures multiset(r) == multiset(s) + multiset{t}
    ensures |r| == |s| + 1
  {
    if |s| == 0 then [t]
    else if NotAfter(t, s[0]) then
      BelowFirstIsBelowAll(t, s);
      ConsChronological(t, s);
      [t] + s
    else
      assert Chronological(s[1..]) by {
        forall i, j | 0 <= i < j < |s[1..]| ensures NotAfter(s[1..][i], s[1..][j]) {
          assert s[1..][i] == s[i + 1] && s[1..][j] == s[j + 1];
        }
      }
      var rest := Insert(t, s[1..]);
      assert s == [s[0]] + s[1..];
      FirstBelowInserted(t, s, rest);
      ConsChronological(s[0], rest);
      [s[0]] + rest
  }

  /** `sort_values(by=["Date", "Time"])`: a stable sort on (Date, Time). */
  function SortChronologically(s: seq<Transaction>): (r: seq<Transaction>)
    ensures Chronological(r)
    ensures multiset(r) == multiset(s)
    ensures |r| == |s|
  {
    if |s| == 0 then []
    else
      assert s == [s[0]] + s[1..];
      Insert(s[0], SortChronologically(s[1..]))
  }

  /** Sorting keeps every row, so it keeps rows sign-consistent. */
  lemma SortKeepsSignConsistent(s: seq<Transaction>)
    requires AllSignConsistent(s)
    ensures AllSignConsistent(SortChronologically(s))
  {
    var r := SortChronologically(s);
    forall i | 0 <= i < |r| ensures SignConsistent(r[i]) {
      assert r[i] in multiset(s);
    }
  }

  /** Sorting an already chronological ledger leaves it exactly as it was:
      rows with equal (Date, Time) keep their order. */
  lemma {:induction false} SortKeepsChronological(s: seq<Transaction>)
    requires Chronological(s)
    ensures SortChronologically(s) == s
  {
    if |s| > 0 {
      SortKeepsChronological(s[1..]);
      assert SortChronologically(s[1..]) == s[1..];
      if |s| > 1 {
        assert NotAfter(s[0], s[1]);
      }
      assert s == [s[0]] + s[1..];
    }
  }

  /** Keeping a subset of rows of a chronological ledger keeps it chronological. */
  lemma {:induction false} FilterChronological(s: seq<Transaction>, p: Transaction -> bool)
    requires Chronological(s)
    ensures Chronological(Filter(s, p))
  {
    if |s| > 0 {
      var init := s[..|s| - 1];
      FilterChronological(init, p);
      var rest := Filter(init, p);
      if p(s[|s| - 1]) {
        forall x | x in rest ensures NotAfter(x, s[|s| - 1]) {
          var i :| 0 <= i < |init| && init[i] == x;
        }
        var r := rest + [s[|s| - 1]];
        forall i, j | 0 <= i < j < |r| ensures NotAfter(r[i], r[j]) {
          if j == |r| - 1 {
            assert r[i] in rest;
          }
        }
      }
    }
  }

  /** The `Stock` column. */
  function Stocks(s: seq<Transaction>): (r: seq<string>)
    ensures |r| == |s|
    ensures forall i :: 0 <= i < |s| ==> r[i] == s[i].stock
  {
    seq(|s|, i requires 0 <= i < |s| => s[i].stock)
  }
}
