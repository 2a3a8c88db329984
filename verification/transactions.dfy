/** Loading the broker's transaction export (backend/services/transactions.py):
    maintaining the ISIN mapping and normalising each CSV row into a ledger
    row. Reading and writing files is not modelled: the file's content is a
    parameter and the mapping written back is part of the result. */
module Transactions {
  import opened Wrappers
  import opened Calendar
  import opened Seqs
  import opened Ledger

  /** The export file: missing, present but unreadable as a CSV table, or its
      rows. */
  datatype CsvFile = Absent | Unreadable | Rows(rows: seq<RawRow>)

  /** One export row, columns picked by position. `date` and `time` are
      `None` when the text does not parse in the expected format; `isin`,
      `quantity` and `fees` are `None` for an empty cell. `time` is minutes
      after midnight. */
  datatype RawRow = RawRow(
    date: Option<Date>,
    time: Option<int>,
    productName: string,
    isin: Option<string>,
    exchange: string,
    quantity: Option<real>,
    price: real,
    currency: string,
    cost: real,
    fees: Option<real>)

  /** One value of the ISIN mapping; `None` marks a missing key. */
  datatype IsinInfo = IsinInfo(ticker: Option<string>, degiroName: string, displayName: Option<string>,
                               exchange: string)

  /** One key of the mapping. The mapping is a JSON object, kept in key order. */
  datatype Mapped = Mapped(isin: string, info: IsinInfo)

  function Isins(m: seq<Mapped>): (ks: seq<string>)
    ensures |ks| == |m|
    ensures forall i :: 0 <= i < |m| ==> ks[i] == m[i].isin
  {
    seq(|m|, i requires 0 <= i < |m| => m[i].isin)
  }

  predicate DistinctIsins(m: seq<Mapped>) {
    forall i, j :: 0 <= i < j < |m| ==> m[i].isin != m[j].isin
  }

  /** `mapping.get(isin)`. */
  function Find(m: seq<Mapped>, isin: string): (r: Option<IsinInfo>)
    ensures r.None? <==> isin !in Isins(m)
    ensures DistinctIsins(m) ==> forall i :: 0 <= i < |m| && m[i].isin == isin ==> r == Some(m[i].info)
  {
    if |m| == 0 then None
    else if m[0].isin == isin then Some(m[0].info)
    else
      var tail := m[1..];
      assert Isins(m) == [m[0].isin] + Isins(tail);
      assert forall i :: 1 <= i < |m| ==> tail[i - 1] == m[i];
      assert DistinctIsins(m) ==> DistinctIsins(tail) by {
        if DistinctIsins(m) {
          forall i, j | 0 <= i < j < |tail| ensures tail[i].isin != tail[j].isin {
            assert tail[i] == m[i + 1] && tail[j] == m[j + 1];
          }
        }
      }
      Find(tail, isin)
  }

  predicate IsSpace(c: char) {
    c == ' ' || c == '\t' || c == '\n' || c == '\r' || c == '\U{000B}' || c == '\U{000C}'
  }

  /** `str(isin).strip() == ""`. */
  predicate IsBlank(s: string) {
    forall i :: 0 <= i < |s| ==> IsSpace(s[i])
  }

  /** The row carries an ISIN that is neither missing nor blank. */
  predicate HasIsin(r: RawRow) {
    r.isin.Some? && !IsBlank(r.isin.value)
  }

  /** The entry made for an ISIN seen for the first time: no ticker yet, the
      broker's product name as display name. */
  function NewEntry(r: RawRow): IsinInfo {
    IsinInfo(Some(""), r.productName, Some(r.productName), r.exchange)
  }

  /** Row `k` is the first row carrying `isin`. */
  predicate FirstWithIsin(rows: seq<RawRow>, k: int, isin: string) {
    && 0 <= k < |rows| && HasIsin(rows[k]) && rows[k].isin.value == isin
    && forall j :: 0 <= j < k ==> !(HasIsin(rows[j]) && rows[j].isin.value == isin)
  }

  /** Adding the ISINs of the rows in order, never replacing an entry.
      (`drop_duplicates` on (ISIN, name, exchange) first does not change the
      result: only the first row of each ISIN can add it.) */
  function AddNew(m: seq<Mapped>, rows: seq<RawRow>): seq<Mapped> {
    if |rows| == 0 then m
    else
      var before := AddNew(m, rows[..|rows| - 1]);
      var r := rows[|rows| - 1];
      if HasIsin(r) && r.isin.value !in Isins(before) then before + [Mapped(r.isin.value, NewEntry(r))]
      else before
  }

  /** The mapping grows only at its end and keeps distinct keys; its keys are
      the old ones and the rows' ISINs. */
  lemma {:induction false} AddNewGrows(m: seq<Mapped>, rows: seq<RawRow>)
    requires DistinctIsins(m)
    ensures var r := AddNew(m, rows);
            && DistinctIsins(r) && |r| >= |m| && r[..|m|] == m
            && forall k :: k in Isins(r) <==> k in Isins(m) || exists i :: 0 <= i < |rows| && HasIsin(rows[i]) && rows[i].isin.value == k
  {
    if |rows| > 0 {
      var init := rows[..|rows| - 1];
      AddNewGrows(m, init);
      var before := AddNew(m, init);
      var r := rows[|rows| - 1];
      assert forall i :: 0 <= i < |init| ==> init[i] == rows[i];
      if HasIsin(r) && r.isin.value !in Isins(before) {
        var after := before + [Mapped(r.isin.value, NewEntry(r))];
        assert Isins(after) == Isins(before) + [r.isin.value];
        assert after[..|m|] == before[..|m|];
        forall i, j | 0 <= i < j < |after| ensures after[i].isin != after[j].isin {
          if j == |after| - 1 {
            assert Isins(before)[i] == before[i].isin;
          }
        }
      }
      forall k ensures k in Isins(AddNew(m, rows)) <==>
                       k in Isins(m) || exists i :: 0 <= i < |rows| && HasIsin(rows[i]) && rows[i].isin.value == k {
        if exists i :: 0 <= i < |rows| && HasIsin(rows[i]) && rows[i].isin.value == k {
          var i :| 0 <= i < |rows| && HasIsin(rows[i]) && rows[i].isin.value == k;
          if i < |init| {
            assert HasIsin(init[i]) && init[i].isin.value == k;
          }
        }
      }
    }
  }

  /** Extending a mapping with distinct keys leaves the lookup of an old key
      unchanged. */
  lemma FindInExtension(m: seq<Mapped>, r: seq<Mapped>, isin: string)
    requires DistinctIsins(r) && |r| >= |m| && r[..|m|] == m
    requires isin in Isins(m)
    ensures Find(r, isin) == Find(m, isin)
  {
    var i :| 0 <= i < |m| && Isins(m)[i] == isin;
    assert r[i] == m[i];
    assert DistinctIsins(m) by {
      forall i, j | 0 <= i < j < |m| ensures m[i].isin != m[j].isin {
        assert r[i] == m[i] && r[j] == m[j];
      }
    }
  }

  /** An ISIN new to the mapping gets the entry of the first row carrying it. */
  lemma {:induction false} AddNewEntries(m: seq<Mapped>, rows: seq<RawRow>, isin: string, k: int)
    requires DistinctIsins(m) && isin !in Isins(m)
    requires FirstWithIsin(rows, k, isin)
    ensures Find(AddNew(m, rows), isin) == Some(NewEntry(rows[k]))
  {
    var init := rows[..|rows| - 1];
    var before := AddNew(m, init);
    if k < |init| {
      assert rows[k] == init[k];
      assert FirstWithIsin(init, k, isin) by {
        forall j | 0 <= j < k ensures !(HasIsin(init[j]) && init[j].isin.value == isin) {
          assert init[j] == rows[j];
        }
      }
      AddNewEntries(m, init, isin, k);
      assert isin in Isins(before);
      AddNewGrows(m, rows);
      FindInExtension(before, AddNew(m, rows), isin);
    } else {
      AddNewGrows(m, init);
      assert isin !in Isins(before) by {
        forall i | 0 <= i < |init| ensures !(HasIsin(init[i]) && init[i].isin.value == isin) {
          assert init[i] == rows[i];
        }
      }
      AddNewGrows(m, rows);
      var r := AddNew(m, rows);
      assert r == before + [Mapped(isin, NewEntry(rows[k]))];
      assert r[|before|].isin == isin;
    }
  }

  /** The entry of the whole portfolio, added once. */
  const FullPortfolioKey := "FULL_PORTFOLIO"
  const FullPortfolioEntry := IsinInfo(Some("FULL"), "Full portfolio", Some("Full portfolio"), "")

  function EnsureFull(m: seq<Mapped>): (r: seq<Mapped>)
    requires DistinctIsins(m)
    ensures DistinctIsins(r)
    ensures FullPortfolioKey in Isins(r)
    ensures FullPortfolioKey in Isins(m) ==> r == m
    ensures FullPortfolioKey !in Isins(m) ==> Find(r, FullPortfolioKey) == Some(FullPortfolioEntry)
    ensures |r| >= |m| && r[..|m|] == m
  {
    if FullPortfolioKey in Isins(m) then m
    else
      var r := m + [Mapped(FullPortfolioKey, FullPortfolioEntry)];
      assert Isins(r) == Isins(m) + [FullPortfolioKey];
      assert forall i :: 0 <= i < |m| ==> Isins(m)[i] == m[i].isin;
      r
  }

  /** `update_isin_mapping_json`: `None` when the rows lack the ISIN, name or
      exchange column; otherwise the existing mapping with every new ISIN
      added and the `FULL_PORTFOLIO` entry guaranteed. */
  function UpdateIsinMapping(hasColumns: bool, existing: seq<Mapped>, rows: seq<RawRow>): (r: Option<seq<Mapped>>)
    requires DistinctIsins(existing)
    ensures r.None? <==> !hasColumns
    ensures r.Some? ==> DistinctIsins(r.value) && FullPortfolioKey in Isins(r.value)
    ensures r.Some? ==> |r.value| >= |existing| && r.value[..|existing|] == existing
    ensures r.Some? ==> forall i :: 0 <= i < |rows| && HasIsin(rows[i]) ==> rows[i].isin.value in Isins(r.value)
  {
    if !hasColumns then None
    else
      AddNewGrows(existing, rows);
      var added := AddNew(existing, rows);
      var r := EnsureFull(added);
      assert r[..|existing|] == added[..|existing|];
      assert forall i :: 0 <= i < |rows| && HasIsin(rows[i]) ==> rows[i].isin.value in Isins(added);
      assert forall k :: k in Isins(added) ==> k in Isins(r) by {
        forall k | k in Isins(added) ensures k in Isins(r) {
          var i :| 0 <= i < |added| && Isins(added)[i] == k;
          assert Isins(r)[i] == k;
        }
      }
      Some(r)
  }

  /** An existing entry is never overwritten, and a new ISIN's entry comes from
      the first row carrying it. */
  lemma UpdateKeepsExisting(existing: seq<Mapped>, rows: seq<RawRow>, isin: string)
    requires DistinctIsins(existing)
    ensures var r := UpdateIsinMapping(true, existing, rows).value;
            && (isin in Isins(existing) ==> Find(r, isin) == Find(existing, isin))
            && (isin !in Isins(existing) ==>
                  forall k :: FirstWithIsin(rows, k, isin) ==> Find(r, isin) == Some(NewEntry(rows[k])))
  {
    var r := UpdateIsinMapping(true, existing, rows).value;
    if isin in Isins(existing) {
      FindInExtension(existing, r, isin);
    } else {
      forall k | FirstWithIsin(rows, k, isin) ensures Find(r, isin) == Some(NewEntry(rows[k])) {
        AddNewEntries(existing, rows, isin, k);
        AddNewGrows(existing, rows);
        var added := AddNew(existing, rows);
        FindInExtension(added, r, isin);
      }
    }
  }

  /** Updating again with the same rows changes nothing. */
  lemma UpdateIdempotent(existing: seq<Mapped>, rows: seq<RawRow>)
    requires DistinctIsins(existing)
    ensures var once := UpdateIsinMapping(true, existing, rows).value;
            UpdateIsinMapping(true, once, rows) == Some(once)
  {
    var once := UpdateIsinMapping(true, existing, rows).value;
    AddNewKnown(once, rows);
  }

  /** Rows whose ISINs are all mapped already add nothing. */
  lemma {:induction false} AddNewKnown(m: seq<Mapped>, rows: seq<RawRow>)
    requires forall i :: 0 <= i < |rows| && HasIsin(rows[i]) ==> rows[i].isin.value in Isins(m)
    ensures AddNew(m, rows) == m
  {
    if |rows| > 0 {
      var init := rows[..|rows| - 1];
      assert forall i :: 0 <= i < |init| ==> init[i] == rows[i];
      AddNewKnown(m, init);
    }
  }

  /** The mapped ticker of an ISIN: `""` when the ISIN is missing or
      unknown, when the entry has no ticker, or when there is no mapping. */
  function StockFor(mapping: Option<seq<Mapped>>, isin: Option<string>): (s: string)
    ensures mapping.None? || isin.None? ==> s == ""
    ensures mapping.Some? && isin.Some? && isin.value !in Isins(mapping.value) ==> s == ""
    ensures mapping.Some? && isin.Some? && DistinctIsins(mapping.value) ==>
              forall k :: 0 <= k < |mapping.value| && mapping.value[k].isin == isin.value ==>
                s == (if mapping.value[k].info.ticker.Some? then mapping.value[k].info.ticker.value else "")
  {
    match mapping
    case None => ""
    case Some(m) =>
      if isin.None? then ""
      else
        match Find(m, isin.value)
        case None => ""
        case Some(info) => info.ticker.GetOr("")
  }

  /** The display name of an ISIN, `""` in the same cases. */
  function ProductFor(mapping: Option<seq<Mapped>>, isin: Option<string>): (s: string)
    ensures mapping.None? || isin.None? ==> s == ""
    ensures mapping.Some? && isin.Some? && isin.value !in Isins(mapping.value) ==> s == ""
    ensures mapping.Some? && isin.Some? && DistinctIsins(mapping.value) ==>
              forall k :: 0 <= k < |mapping.value| && mapping.value[k].isin == isin.value ==>
                s == (if mapping.value[k].info.displayName.Some? then mapping.value[k].info.displayName.value else "")
  {
    match mapping
    case None => ""
    case Some(m) =>
      if isin.None? then ""
      else
        match Find(m, isin.value)
        case None => ""
        case Some(info) => info.displayName.GetOr("")
  }

  /** `astype(int)` on a float: truncation towards zero. */
  function Truncate(x: real): (n: int)
    ensures x >= 0.0 ==> n >= 0 && (n as real) <= x < (n as real) + 1.0
    ensures x < 0.0 ==> n <= 0 && (n as real) - 1.0 < x <= (n as real)
  {
    if x >= 0.0 then x.Floor else -((-x).Floor)
  }

  /** `'BUY' if Quantity > 0 else 'SELL'`; an empty cell compares false. */
  function ActionOf(q: Option<real>): (a: Action)
    ensures a == Buy <==> q.Some? && q.value > 0.0
  {
    if q.Some? && q.value > 0.0 then Buy else Sell
  }

  predicate Parses(r: RawRow) {
    r.date.Some? && r.time.Some?
  }

  /** The ledger row of an export row. */
  function Normalise(r: RawRow, mapping: Option<seq<Mapped>>): (t: Transaction)
    requires Parses(r)
    ensures SignConsistent(t)
  {
    Transaction(r.date.value, r.time.value, r.productName, r.isin, r.exchange,
                StockFor(mapping, r.isin), ProductFor(mapping, r.isin), ActionOf(r.quantity),
                Truncate(r.quantity.GetOr(0.0)), r.price, r.currency, r.cost, r.fees.GetOr(0.0))
  }

  function NormaliseAll(rows: seq<RawRow>, mapping: Option<seq<Mapped>>): (ts: seq<Transaction>)
    requires forall i :: 0 <= i < |rows| ==> Parses(rows[i])
    ensures |ts| == |rows|
    ensures forall i :: 0 <= i < |rows| ==> ts[i] == Normalise(rows[i], mapping)
  {
    seq(|rows|, i requires 0 <= i < |rows| => Normalise(rows[i], mapping))
  }

  /** What loading produces: the ledger and the mapping written back (`None`
      when the mapping was not updated). A ledger of `None` is the column-less
      frame `pd.DataFrame()`; `Some([])` is an export with a header and no
      rows. */
  datatype Loaded = Loaded(ledger: Option<seq<Transaction>>, written: Option<seq<Mapped>>)

  /** `load_and_prepare_data`: an absent or unreadable file gives a frame
      without columns; otherwise the mapping is updated first, and a date or
      time that does not parse then also gives a frame without columns (the
      mapping stays written). */
  function LoadAndPrepare(file: CsvFile, existing: seq<Mapped>): (r: Loaded)
    requires DistinctIsins(existing)
    ensures r.ledger.Some? ==> Chronological(r.ledger.value) && AllSignConsistent(r.ledger.value)
    ensures !file.Rows? ==> r == Loaded(None, None)
    ensures file.Rows? ==> r.written == UpdateIsinMapping(true, existing, file.rows)
    ensures r.ledger.None? <==> !file.Rows? || exists i :: 0 <= i < |file.rows| && !Parses(file.rows[i])
    ensures r.ledger.Some? ==> multiset(r.ledger.value) == multiset(NormaliseAll(file.rows, r.written))
  {
    match file
    case Absent => Loaded(None, None)
    case Unreadable => Loaded(None, None)
    case Rows(rows) =>
      var mapping := UpdateIsinMapping(true, existing, rows);
      if exists i :: 0 <= i < |rows| && !Parses(rows[i]) then Loaded(None, mapping)
      else
        var ledger := SortChronologically(NormaliseAll(rows, mapping));
        SortKeepsSignConsistent(NormaliseAll(rows, mapping));
        Loaded(Some(ledger), mapping)
  }

  /** An export with a header and no rows loads as an empty ledger, not as a
      frame without columns. */
  lemma HeaderOnlyLoadsEmpty(existing: seq<Mapped>)
    requires DistinctIsins(existing)
    ensures LoadAndPrepare(Rows([]), existing).ledger == Some([])
  {
    assert multiset(NormaliseAll([], UpdateIsinMapping(true, existing, []))) == multiset{};
  }

  /** A row whose ISIN was not mapped before loading has no ticker yet: it
      stays out of every performance calculation until a ticker is filled in. */
  lemma NewIsinHasNoTicker(file: CsvFile, existing: seq<Mapped>, t: Transaction)
    requires DistinctIsins(existing)
    requires LoadAndPrepare(file, existing).ledger.Some?
    requires t in LoadAndPrepare(file, existing).ledger.value
    requires t.isin.Some? && t.isin.value !in Isins(existing)
    ensures t.stock == ""
  {
    var rows := file.rows;
    var mapping := UpdateIsinMapping(true, existing, rows);
    var all := NormaliseAll(rows, mapping);
    assert t in multiset(all);
    var k :| 0 <= k < |all| && all[k] == t;
    assert t == Normalise(rows[k], mapping);
    NewIsinMappedToNoTicker(existing, rows, k);
  }

  /** After the update, the ISIN of a row that was not mapped before has no
      ticker: a blank ISIN stays unmapped, any other gets a new entry. */
  lemma NewIsinMappedToNoTicker(existing: seq<Mapped>, rows: seq<RawRow>, k: int)
    requires DistinctIsins(existing)
    requires 0 <= k < |rows| && rows[k].isin.Some? && rows[k].isin.value !in Isins(existing)
    ensures StockFor(UpdateIsinMapping(true, existing, rows), rows[k].isin) == ""
  {
    var isin := rows[k].isin.value;
    var mapping := UpdateIsinMapping(true, existing, rows).value;
    if HasIsin(rows[k]) {
      FirstIsinExists(rows, k, isin);
      var first :| FirstWithIsin(rows, first, isin);
      UpdateKeepsExisting(existing, rows, isin);
      assert Find(mapping, isin) == Some(NewEntry(rows[first]));
    } else {
      BlankIsinNotAdded(existing, rows, isin);
      assert Find(mapping, isin).None?;
    }
  }

  /** Some row carrying an ISIN is the first to carry it. */
  lemma {:induction false} FirstIsinExists(rows: seq<RawRow>, k: int, isin: string)
    requires 0 <= k < |rows| && HasIsin(rows[k]) && rows[k].isin.value == isin
    ensures exists f :: FirstWithIsin(rows, f, isin)
    decreases k
  {
    if !FirstWithIsin(rows, k, isin) {
      var j :| 0 <= j < k && HasIsin(rows[j]) && rows[j].isin.value == isin;
      FirstIsinExists(rows, j, isin);
    }
  }

  /** A blank ISIN never becomes a key of the mapping unless it was one. */
  lemma BlankIsinNotAdded(existing: seq<Mapped>, rows: seq<RawRow>, isin: string)
    requires DistinctIsins(existing)
    requires IsBlank(isin) && isin !in Isins(existing)
    ensures isin != FullPortfolioKey
    ensures isin !in Isins(UpdateIsinMapping(true, existing, rows).value)
  {
    AddNewGrows(existing, rows);
    assert FullPortfolioKey[0] == 'F';
  }
}
