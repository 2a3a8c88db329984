/** The older loader (helpers/transactions.py): ISINs are translated through
    two fixed lookup tables, rows with an unknown ISIN are dropped, and any
    failure makes the loader fall back to the default export. The tables and
    the files' contents are parameters. */
module LegacyTransactions {
  import opened Wrappers
  import opened Seqs
  import opened Ledger
  import opened Transactions

  /** What pandas writes for a missing value once the column is cast to
      text. */
  const NaNText := "nan"

  /** The ticker of a row's ISIN, `"nan"` when the ISIN is empty or not in the
      table. */
  function TickerOf(r: RawRow, isinToTicker: map<string, string>): string {
    if r.isin.Some? && r.isin.value in isinToTicker then isinToTicker[r.isin.value] else NaNText
  }

  /** The row survives the filter on mapped ISINs. */
  predicate IsMappedRow(r: RawRow, isinToTicker: map<string, string>) {
    TickerOf(r, isinToTicker) != NaNText
  }

  function KeptRows(rows: seq<RawRow>, isinToTicker: map<string, string>): (kept: seq<RawRow>)
    ensures forall r :: r in kept <==> r in rows && IsMappedRow(r, isinToTicker)
  {
    Filter(rows, (r: RawRow) => IsMappedRow(r, isinToTicker))
  }

  /** A kept row the conversions reject: an unparseable date or time, or an
      empty quantity, which cannot be cast to an integer. */
  predicate Rejected(r: RawRow) {
    !Parses(r) || r.quantity.None?
  }

  /** The ledger row of a kept export row. The broker's product name and the
      currency column are not selected, so they stay empty. */
  function LegacyNormalise(r: RawRow, isinToTicker: map<string, string>, tickerToName: map<string, string>): (t: Transaction)
    requires !Rejected(r)
    ensures SignConsistent(t)
    ensures t.action == Buy <==> r.quantity.value > 0.0
  {
    var stock := TickerOf(r, isinToTicker);
    Transaction(r.date.value, r.time.value, "", r.isin, r.exchange, stock,
                if stock in tickerToName then tickerToName[stock] else NaNText,
                ActionOf(r.quantity), Truncate(r.quantity.value), r.price, "", r.cost, r.fees.GetOr(0.0))
  }

  /** `process_transactions`: `None` when the file cannot be read or a kept
      row is rejected; otherwise the kept rows, converted, in file order. */
  function ProcessTransactions(file: CsvFile, isinToTicker: map<string, string>, tickerToName: map<string, string>)
    : (r: Option<seq<Transaction>>)
    ensures r.None? <==> !file.Rows? || exists x :: x in KeptRows(file.rows, isinToTicker) && Rejected(x)
    ensures r.Some? ==> AllSignConsistent(r.value)
    ensures r.Some? ==> forall t :: t in r.value ==>
              && t.isin.Some? && t.isin.value in isinToTicker
              && t.stock == isinToTicker[t.isin.value] && t.stock != NaNText
              && t.product == (if t.stock in tickerToName then tickerToName[t.stock] else NaNText)
  {
    if !file.Rows? then None
    else
      var kept := KeptRows(file.rows, isinToTicker);
      if exists x :: x in kept && Rejected(x) then None
      else
        var ts := seq(|kept|, i requires 0 <= i < |kept| => LegacyNormalise(kept[i], isinToTicker, tickerToName));
        assert forall i :: 0 <= i < |kept| ==> kept[i] in kept;
        Some(ts)
  }

  /** Every mapped row of a processed file is in the result, and every result
      row comes from a mapped row: unmapped ISINs are exactly the dropped
      ones. */
  lemma ProcessedAreMappedRows(file: CsvFile, isinToTicker: map<string, string>, tickerToName: map<string, string>)
    requires ProcessTransactions(file, isinToTicker, tickerToName).Some?
    ensures var ts := ProcessTransactions(file, isinToTicker, tickerToName).value;
            && (forall x :: x in file.rows && IsMappedRow(x, isinToTicker) ==>
                  !Rejected(x) && LegacyNormalise(x, isinToTicker, tickerToName) in ts)
            && (forall t :: t in ts ==>
                  exists x :: x in file.rows && IsMappedRow(x, isinToTicker) && !Rejected(x)
                              && t == LegacyNormalise(x, isinToTicker, tickerToName))
  {
    var ts := ProcessTransactions(file, isinToTicker, tickerToName).value;
    var kept := KeptRows(file.rows, isinToTicker);
    forall x | x in file.rows && IsMappedRow(x, isinToTicker)
      ensures !Rejected(x) && LegacyNormalise(x, isinToTicker, tickerToName) in ts
    {
      var i :| 0 <= i < |kept| && kept[i] == x;
      assert ts[i] == LegacyNormalise(x, isinToTicker, tickerToName);
    }
    forall t | t in ts
      ensures exists x :: x in file.rows && IsMappedRow(x, isinToTicker) && !Rejected(x)
                          && t == LegacyNormalise(x, isinToTicker, tickerToName)
    {
      var i :| 0 <= i < |ts| && ts[i] == t;
      assert kept[i] in kept;
    }
  }

  /** The module-level load: the uploaded file, falling back to the default
      file when the upload fails to process, the default file when there is
      no upload, and an empty ledger when there is neither; then sorted by
      date and time. `None` when the chosen file fails too: sorting the
      missing result ends the import. */
  function LoadLegacyTransactions(upload: CsvFile, default: CsvFile,
                                  isinToTicker: map<string, string>, tickerToName: map<string, string>)
    : (r: Option<seq<Transaction>>)
    ensures r.Some? ==> Chronological(r.value) && AllSignConsistent(r.value)
    ensures upload.Absent? && default.Absent? ==> r == Some([])
    ensures !upload.Absent? && ProcessTransactions(upload, isinToTicker, tickerToName).Some? ==>
              r.Some? && multiset(r.value) == multiset(ProcessTransactions(upload, isinToTicker, tickerToName).value)
    ensures (upload.Absent? || ProcessTransactions(upload, isinToTicker, tickerToName).None?)
            && ProcessTransactions(default, isinToTicker, tickerToName).Some? ==>
              r.Some? && multiset(r.value) == multiset(ProcessTransactions(default, isinToTicker, tickerToName).value)
    ensures r.None? <==>
              (!upload.Absent? || !default.Absent?)
              && (upload.Absent? || ProcessTransactions(upload, isinToTicker, tickerToName).None?)
              && ProcessTransactions(default, isinToTicker, tickerToName).None?
  {
    var chosen :=
      if !upload.Absent? then
        var p := ProcessTransactions(upload, isinToTicker, tickerToName);
        if p.None? then ProcessTransactions(default, isinToTicker, tickerToName) else p
      else if !default.Absent? then ProcessTransactions(default, isinToTicker, tickerToName)
      else Some([]);
    match chosen
    case None => None
    case Some(ts) =>
      var sorted := SortChronologically(ts);
      SortKeepsSignConsistent(ts);
      Some(sorted)
  }
}
