# Portfolio performance engine — a Dafny model

This project models the performance engine of portfolio-analyzer, a personal
dashboard that reads a DEGIRO transaction export and reports, for every held
ticker and for the portfolio as a whole, the money-weighted return (MWR)
figures: quantity held, average cost, cost basis, total cost, fees, current
value, current (unrealized) return, realized return, net return and the two
performance percentages.

There are two generations of the engine, and both are modelled:

- the backend generation (`backend/services/…`):
  - the loader keeps an ISIN mapping file up to date and normalises the export;
  - the calculator `calculate_mwr` and the aggregator
    `calculate_total_portfolio_performance` / `calculate_all_stocks_mwr`
    compute the figures;
  - the materializer `calc_portfolio` recomputes the daily table, converts
    fetched prices to EUR, writes the price table and derives the monthly table;
- the legacy generation (`helpers/…`):
  - a loader with fixed ISIN→ticker and ticker→name tables and a fallback file;
  - a calculator that shifts the end date by one day;
  - the `calc_daily` / `calc_monthly` loops.

Modules, one per concern:

| module | file | what it holds |
|---|---|---|
| `Wrappers` | wrappers.dfy | `Option` and `Result` |
| `Seqs` | seqs.dfy | generic `Filter`, `Unique`, `MaxOf` and their lemmas |
| `Calendar` | calendar.dfy | dates as proleptic ordinals; weekday, civil date and month start |
| `Ledger` | ledger.dfy | the normalised transaction row and the stable (Date, Time) sort |
| `Prices` | prices.dfy | price cells, NaN removal, open-day lookup, the mark price |
| `Position` | position.dfy | average cost and the row-by-row replay of a ticker's history |
| `Records` | records.dfy | the result record, the percentages, field-wise totals, the ordered results dict and the per-ticker loop that fills it |
| `Analyzer` | analyzer.dfy | backend `calculate_mwr`, aggregator and all-stocks loop |
| `LegacyAnalyzer` | legacy_analyzer.dfy | the helpers calculator and aggregator, and how they relate to the backend ones |
| `PriceTable` | price_table.dfy | ticker currencies, FX conversion, price cache read, merge and write |
| `Materializer` | materializer.dfy | backend `calc_portfolio` |
| `LegacyMaterializer` | legacy_materializer.dfy | the helpers day loop, `calc_daily` and `calc_monthly` |
| `Transactions` | transactions.dfy | backend ISIN mapping update and `load_and_prepare_data` |
| `LegacyTransactions` | legacy_transactions.dfy | helpers `process_transactions` and the fallback load |

Modelling choices:

- A date is its proleptic ordinal, as `date.toordinal()` gives it. Day 1 is
  0001-01-01, a Monday. Month starts come from the civil calendar.
- Money is an exact `real`. Rounding to two decimals is not modelled.
- A price cell is a quote, a missing value (`None`) or NaN.
- Every exception the code raises and handles is an explicit error value:
  `CalcError`, `RunError`, `LegacyRunError`, and `None` from the loaders.
- The file system, the clock, Yahoo Finance and the mapping files are
  parameters. Their contents are inputs to the model.

Where the repository's own description and its code disagree, the model
follows the code:

- A sale is valued at the average cost of every purchase in the ticker's
  history up to the end date. That includes purchases made after the sale.
  It is not the average of the purchases seen so far. See
  `Analyzer.SaleValuedAtWholeHistoryAverage`.
- A buy-only position has equal net and current percentages only when it
  paid no fees: fees enter the realized return. See
  `Analyzer.BuyOnlyPercentagesAgree` and `Analyzer.SingleBuyExample`.

## Model

| member | source | states |
|---|---|---|
| `Ledger.SortChronologically` | backend/services/transactions.py:99 | the sorted ledger is ordered by (Date, Time) and is a permutation of the input |
| `Ledger.SortKeepsChronological` | backend/services/portfolio_analyzer.py:113 | the sort is stable: an already ordered ledger comes back unchanged |
| `Ledger.FilterChronological` | backend/services/portfolio_analyzer.py:101-113 | selecting rows of an ordered ledger keeps it ordered |
| `Ledger.SortKeepsSignConsistent` | backend/services/transactions.py:92-99 | sorting keeps every row's action consistent with the sign of its quantity |
| `Prices.DropNaN` | backend/services/portfolio_analyzer.py:98 | exactly the NaN cells are removed; every other cell keeps its value |
| `Prices.OpenDay` | backend/services/portfolio_analyzer.py:57-62 | the earliest or latest priced day in the closed window, or the window's own bound when none is priced |
| `Prices.LegacyOpenDay` | helpers/portfolio_analyzer.py:39-45 | the same over the half-open window `[start, end)` |
| `Prices.LegacyWindowIsShiftedClosedWindow` | helpers/portfolio_analyzer.py:39 | the legacy half-open window ending at `end + 1` finds the same day as the closed window ending at `end` |
| `Prices.MarkPriceIsLastQuoteOrZero` | backend/services/portfolio_analyzer.py:167-175 | the mark price is the quote of the latest priced day in the window, and 0 when the window has none |
| `Prices.LegacyMarkPriceMayLookAhead` | helpers/portfolio_analyzer.py:144-150 | with the legacy day shift, a quote dated `end + 1` is used as the mark price for `end` |
| `Position.AvgCost` | backend/services/portfolio_analyzer.py:129-132 | average cost times the quantity bought equals minus the summed purchase cost; 0 when nothing was bought |
| `Position.Replay` | backend/services/portfolio_analyzer.py:141-164 | the quantity held never exceeds the quantity bought so far |
| `Position.ReplayRow` | backend/services/portfolio_analyzer.py:141-164 | one row's effect: a purchase adds value, quantity and fees; a sale while holding removes the quantity and books gain at the whole-history average; a sale while flat changes nothing |
| `Position.BuyStep` | backend/services/portfolio_analyzer.py:147-152 | a purchase adds its quantity to the holding and its cost to the capital deployed, adds its fee to realized return and subtracts it from the fee total |
| `Position.Step` | backend/services/portfolio_analyzer.py:141-164 | a sale while flat changes nothing; the holding moves by the signed quantity otherwise; a sale never changes the capital deployed and a purchase never lowers it; a purchase's fee enters realized return, and every counted row's fee the fee total |
| `Position.SellStep` | backend/services/portfolio_analyzer.py:154-162 | a sale while holding removes its absolute quantity and books that quantity times the gap between its unit price and the whole-history average, plus its fee |
| `Position.PurchaseCostIsBoughtValue` | backend/services/portfolio_analyzer.py:145-149 | the running purchase cost is the summed value of the purchases replayed |
| `Position.PurchaseCostNonDecreasing` | backend/services/portfolio_analyzer.py:147-149 | the purchase cost never decreases along the history |
| `Position.SaleNeverAddsHoldings` | backend/services/portfolio_analyzer.py:154-161 | a sale never increases the quantity held |
| `Position.BuyOnlyReplay` | backend/services/portfolio_analyzer.py:147-152 | over purchases only, the holding is the quantity bought and realized return is the fees paid |
| `Position.BoughtValueSort` | backend/services/portfolio_analyzer.py:113 | reordering the history does not change the value bought |
| `Position.BoughtQuantityOfPrefix` | backend/services/portfolio_analyzer.py:130-131 | with sign-consistent rows, a prefix never bought more than the whole history |
| `Records.CurrentPct` | backend/services/portfolio_analyzer.py:189 | the current percentage times the cost basis is 100 times the current return; 0 when the cost basis is 0 |
| `Records.NetPct` | backend/services/portfolio_analyzer.py:190 | the net percentage times the purchase cost is 100 times the net return; 0 when the purchase cost is 0 |
| `Records.PercentGuardsAgree` | backend/services/portfolio_analyzer.py:189-190 | the extra `current_return` truthiness guard of the current percentage never changes its value |
| `Records.AccumulateConcat` | backend/services/portfolio_analyzer.py:223-231 | the field-wise totals of two record lists concatenated are the sum of their totals |
| `Records.Upsert` | backend/services/portfolio_analyzer.py:268-272 | assigning `results[key]` keeps keys distinct, replaces an existing key in place and appends a new one at the end, leaving the other entries alone |
| `Analyzer.History` | backend/services/portfolio_analyzer.py:101-113 | the history is ordered and holds exactly the ticker's rows dated before `start` or within `[start, end]` |
| `Analyzer.HistoryIsTickerRowsUpToEnd` | backend/services/portfolio_analyzer.py:101-110 | for `start <= end`, the previous and period rows together are the ticker's rows up to `end` |
| `Analyzer.Unrealized` | backend/services/portfolio_analyzer.py:166-179 | the current return is 0 when nothing is held; otherwise holding times average cost plus the return equals holding times mark price |
| `Analyzer.Assemble` | backend/services/portfolio_analyzer.py:181-208 | the record's derived figures: cost basis, current value, net return and both percentages in terms of the replayed position |
| `Analyzer.AssembledValuation` | backend/services/portfolio_analyzer.py:177-186 | a held position is valued at the mark price; an empty one has value 0 and cost basis 0 |
| `Analyzer.Evaluate` | backend/services/portfolio_analyzer.py:128-208 | the record holds at most the quantity bought, its total cost is the value bought and its average cost is the history's average |
| `Analyzer.CalculateMwr` | backend/services/portfolio_analyzer.py:94-208 | fails exactly when the ticker has no history (the unset average cost) or a row of quantity 0 (the division by zero); otherwise the record of the replayed history, named from the ticker-to-display-name map or `""` |
| `Analyzer.PortfolioRecord` | backend/services/portfolio_analyzer.py:210-259 | the FULL record's money figures are the field-wise sums; its average cost is total cost over quantity, 0 when none is held; percentages as for one ticker, the current one 0 when the cost basis is 0 |
| `Analyzer.PortfolioIsFieldwiseSum` | backend/services/portfolio_analyzer.py:223-231 | the FULL totals of concatenated lists add up; one record gives its own figures; none gives zeros |
| `Records.Tabulate` | backend/services/portfolio_analyzer.py:268-269 | storing each ticker's calculation under its name fails exactly when one calculation fails; otherwise the keys are exactly the tickers, without repeats, and each holds its own result |
| `Analyzer.CalcFor` | backend/services/portfolio_analyzer.py:269 | a ticker without a price series raises a missing-key error; otherwise the result is `calculate_mwr` on its series |
| `Analyzer.MarkPrice` | backend/services/portfolio_analyzer.py:167-175 | the mark price is the value of the latest non-NaN day in the window (0 for a `None` quote), and 0 when the window has no such day |
| `Analyzer.CalculateMwrAt` | backend/services/portfolio_analyzer.py:101-104 | with a string bound and a non-empty ledger the period filter raises; with date bounds it is `calculate_mwr` |
| `Analyzer.CalcForAt` | backend/services/portfolio_analyzer.py:269 | with bounds as passed: a missing series raises first; a string bound over a non-empty ledger raises; date bounds give `Analyzer.CalcFor` |
| `Analyzer.AllStocksMwrAt` | backend/services/portfolio_analyzer.py:261-274 | with a string bound, a non-empty ledger and at least one ticker the aggregator raises; with date bounds it is `Analyzer.AllStocksMwr` |
| `Records.TabulateAgrees` | backend/services/portfolio_analyzer.py:268-269 | the per-ticker loop depends only on the calculation's results for the requested tickers |
| `Analyzer.StockResults` | backend/services/portfolio_analyzer.py:264-269 | fails exactly when some requested ticker has no series or its calculation fails; otherwise one entry per distinct ticker holding its `calculate_mwr` record |
| `Analyzer.AllStocksMwr` | backend/services/portfolio_analyzer.py:261-274 | the per-ticker entries plus a `portfolio` entry holding the FULL record of the per-ticker records |
| `Analyzer.TotalCostNonDecreasingInEnd` | backend/services/portfolio_analyzer.py:101-149 | a later end date never gives a smaller total cost |
| `Analyzer.BuyOnlyPercentagesAgree` | backend/services/portfolio_analyzer.py:182-190 | a fee-free, buy-only history has no realized return, a cost basis equal to its total cost and equal net and current percentages |
| `Analyzer.BuyOnlyPosition` | backend/services/portfolio_analyzer.py:141-152 | replaying fee-free purchases leaves a positive holding equal to the quantity bought, no realized return and capital deployed equal to the cost paid |
| `Analyzer.AssembledBuyOnly` | backend/services/portfolio_analyzer.py:166-190 | a holding with no realized return whose average cost prices its capital deployed exactly gets a cost basis equal to its total cost and equal net and current figures |
| `Analyzer.PortfolioNetReturn` | backend/services/portfolio_analyzer.py:229-231 | when every record's net return is current plus realized, so is the total's |
| `Analyzer.SingleBuyExample` | backend/services/portfolio_analyzer.py:128-208 | one purchase of 10 at 100 with fee 1 and a mark of 120 gives value 1200, return 200, realized -1, net 199, 20% and 19.9% |
| `Analyzer.SaleValuedAtWholeHistoryAverage` | backend/services/portfolio_analyzer.py:154-164 | a sale is valued against the average that includes a later purchase |
| `Analyzer.SaleExampleCalculates` | backend/services/portfolio_analyzer.py:94-113 | the example history is accepted and evaluated as is |
| `LegacyAnalyzer.LegacyAssemble` | helpers/portfolio_analyzer.py:159-182 | the legacy record has no cost basis and divides the current return by the purchase cost |
| `LegacyAnalyzer.LegacyCalculateMwr` | helpers/portfolio_analyzer.py:73-182 | the legacy calculation replays the history up to `end + 1`, carries `end + 1` as end date and fails in the same cases |
| `LegacyAnalyzer.NextDayTradeIsReplayed` | helpers/portfolio_analyzer.py:78-84 | a trade dated `end + 1` is in the legacy history but not in the backend one |
| `LegacyAnalyzer.ShiftedHistoryAgrees` | helpers/portfolio_analyzer.py:78-85 | without trades on `end + 1` the two histories are equal |
| `LegacyAnalyzer.AssemblersAgree` | helpers/portfolio_analyzer.py:164 | the two assemblers differ only in end date, cost basis and the current percentage's denominator |
| `LegacyAnalyzer.MarkPricesAgree` | helpers/portfolio_analyzer.py:144-150 | when the closed window has a quote, both generations use the same mark price |
| `LegacyAnalyzer.LegacyAgreesWithCurrent` | helpers/portfolio_analyzer.py:73-182 | without a trade on `end + 1` and with a quote in the window, the legacy record is the backend record with those three fields changed |
| `LegacyAnalyzer.LegacyPortfolioRecord` | helpers/portfolio_analyzer.py:184-230 | the legacy FULL record sums the same fields, has no cost basis and divides both returns by the purchase cost |
| `LegacyAnalyzer.AggregatorsAgree` | helpers/portfolio_analyzer.py:211 | the legacy aggregate is the backend aggregate without cost basis and with the purchase cost as the current percentage's denominator |
| `LegacyAnalyzer.LegacyStockResults` | helpers/portfolio_analyzer.py:235-240 | fails exactly when a ticker is unpriced or its legacy calculation fails; otherwise one legacy record per distinct ticker |
| `LegacyAnalyzer.LegacyAllStocksMwr` | helpers/portfolio_analyzer.py:232-245 | the per-ticker legacy entries plus the legacy `portfolio` aggregate |
| `PriceTable.TickerCurrencies` | backend/services/portfolio.py:59-60 | each ticker's currency is one that some row trades it in |
| `PriceTable.MergeNoCells` | backend/services/portfolio.py:113-120 | the merged prices hold no day exactly when neither the cache nor the fetched prices do |
| `PriceTable.ConvertKeepsCells` | backend/services/portfolio.py:76-84 | converting to EUR keeps each ticker's days, so the prices stay empty or non-empty |
| `PriceTable.TickerCurrenciesKeys` | backend/services/portfolio.py:59-60 | a ticker has a currency exactly when some row trades it |
| `PriceTable.TickerCurrencyIsLatestPair` | backend/services/portfolio.py:59-60 | a ticker's currency is that of the last first appearance of one of its (Stock, Currency) pairs |
| `PriceTable.SingleCurrencyTicker` | backend/services/portfolio.py:59-60 | a ticker traded in one currency gets that currency |
| `PriceTable.ConvertSeries` | backend/services/portfolio.py:82-85 | conversion fails exactly on a `None` cell, keeps the days and keeps NaN cells NaN |
| `PriceTable.ConvertedPrice` | backend/services/portfolio.py:84-85 | a converted price is the original price times the day's rate, or times 1 when the day has no rate |
| `PriceTable.EmptyRatesConvertNothing` | backend/services/portfolio.py:85 | with no fetched rates, conversion leaves the series as it was |
| `PriceTable.ConvertAll` | backend/services/portfolio.py:62-85 | the run fails exactly when a non-EUR ticker's series has a `None` cell; EUR and unknown tickers are untouched; the others are converted with their currency's rates |
| `PriceTable.GroupPricesKeys` | backend/services/portfolio.py:106-108 | the cached prices have a ticker and a day exactly when some stored row is for them |
| `PriceTable.GroupPricesLastWins` | backend/services/portfolio.py:108 | a cached price comes from the last stored row for its ticker and day |
| `PriceTable.MergePrices` | backend/services/portfolio.py:116-120 | the merge covers both sides' tickers and days; a fetched quote wins; a cached quote survives where nothing was fetched |
| `PriceTable.MergeIdempotent` | backend/services/portfolio.py:116-124 | merging the same fetched prices twice changes nothing |
| `PriceTable.CurrencyPair` | backend/services/portfolio.py:211 | the pair label is `<CUR>-EUR`, and `EUR-EUR` for EUR |
| `PriceTable.PriceRows` | backend/services/portfolio.py:206-226 | one row per ticker and non-NaN day, with its price, the day's FX rate (1 for EUR or an unquoted day) and the pair label |
| `PriceTable.PriceTableRoundTrip` | backend/services/portfolio.py:206-227 | reading the written price table back gives exactly the merged non-NaN prices |
| `Materializer.Tickered` | backend/services/portfolio.py:36 | exactly the rows with a nonempty ticker are kept |
| `Materializer.EarliestDate` | backend/services/portfolio.py:41-42 | the start date is the date of some kept row and no later than any |
| `Materializer.Candidates` | backend/services/portfolio.py:44 | the candidate days are exactly the days after the start up to today, increasing |
| `Materializer.FetchStart` | backend/services/portfolio.py:54 | prices are fetched from the earlier of the start date and thirty days before today |
| `Materializer.Evicted` | backend/services/portfolio.py:93 | the two latest distinct end dates of the cache, or all of them when there are fewer |
| `Materializer.Retained` | backend/services/portfolio.py:92-94 | exactly the cached rows outside the evicted days, all dated before them |
| `Materializer.Universe` | backend/services/portfolio.py:144-150 | exactly the tickers traded on or before the day, each once |
| `Materializer.DueMeans` | backend/services/portfolio.py:134-148 | a day is computed exactly when it is Monday to Friday, has no cached row and some ticker was traded by then |
| `Materializer.DayRows` | backend/services/portfolio.py:127-176 | a day's rows all carry that day; a weekend, cached or untraded day, or a failing calculation, gives none |
| `Materializer.DayRowsAreCalculated` | backend/services/portfolio.py:150-172 | a due day yields exactly the `calculate_mwr` record of each traded ticker and the FULL record |
| `Materializer.NewRows` | backend/services/portfolio.py:127-176 | every new row is dated on a loop day that was due |
| `Materializer.NewRowsOfDay` | backend/services/portfolio.py:127-176 | the rows computed for a day are that day's rows, and nothing for days not in the loop |
| `Materializer.RefreshDay` | backend/services/portfolio.py:127-182 | after the loop, a day's rows are its cached rows followed by its freshly computed rows; a cached day gets nothing new |
| `Materializer.Refresh` | backend/services/portfolio.py:127-182 | the kept cache comes first, unchanged; every added row is dated after the start, no later than today, on a weekday that had no cached row |
| `Materializer.DayRowsAsWritten` | backend/services/portfolio.py:127-176 | as written, with string bounds, a day adds no row once the ledger has a row, and none when it is not due |
| `Materializer.NewRowsAsWritten` | backend/services/portfolio.py:127-176 | as written, the loop over days adds no row once the ledger has a row |
| `Materializer.RefreshAsWritten` | backend/services/portfolio.py:127-182 | as written, the daily table before cleaning is exactly the kept cache once the ledger has a row |
| `Materializer.AsWrittenDueDayIsEmpty` | backend/services/portfolio.py:153-157 | one purchase on 2020-10-15, no cache, today 2020-10-16 with a price: the day is due and computes rows, but the loop as written adds none |
| `Materializer.DropIncomplete` | backend/services/portfolio.py:185 | when the table has a cost basis column, the rows without one are dropped; otherwise nothing is |
| `Materializer.Relabel` | backend/services/portfolio.py:193-199 | each row's product becomes its ticker's display name, or `""`, and nothing else changes |
| `Materializer.RelabelIdempotent` | backend/services/portfolio.py:199 | relabelling twice is relabelling once, and rows of one ticker share one product |
| `Materializer.FirstOfMonthsIsEarliest` | backend/services/portfolio.py:236-246 | each (ticker, month) present keeps a row of that key with the earliest end date |
| `Materializer.Monthly` | backend/services/portfolio.py:232-249 | each monthly row keeps its key's ticker, is dated at the month start, and comes from a daily row of that key |
| `Materializer.MonthlyIsFirstRowOfMonth` | backend/services/portfolio.py:232-249 | the monthly table has exactly the daily table's (ticker, month) keys; each row is the earliest daily row dated at its month start |
| `Materializer.CalcPortfolio` | backend/services/portfolio.py:15-262 | a frame without columns fails on the missing `Date` column; a loaded ledger is skipped exactly without ticker rows; the run fails exactly on a `None` price of a non-EUR ticker; it writes only the daily table and then fails exactly when there is no price at all; written daily rows carry display names; the monthly keys are the daily rows' keys |
| `Materializer.Run` | backend/services/portfolio.py:47-262 | with ticker rows, the run fails on a `None` price to convert, stops after the daily table exactly when no price day exists, and otherwise writes all three tables |
| `Materializer.Tables` | backend/services/portfolio.py:183-249 | the relabelled daily table is always written; the price table then raises exactly when there is no price day; otherwise the monthly keys are the daily keys |
| `Materializer.LoadedRun` | backend/services/portfolio.py:23-31 | an absent, unreadable or unparseable export makes the run fail on the missing `Date` column; a header-only export makes it skip |
| `LegacyMaterializer.LegacyDayRows` | helpers/portfolio.py:118-138 | the legacy rows of a day carry that day; they fail exactly when the legacy all-stocks calculation fails |
| `LegacyMaterializer.Gather` | helpers/portfolio.py:102-138 | a loop over days that adds each due day's rows fails exactly when some due day fails |
| `LegacyMaterializer.GatherOfDay` | helpers/portfolio.py:102-138 | over distinct days whose rows carry their own day, the rows of a day are its rows when it is due, and none otherwise |
| `LegacyMaterializer.LegacyNewRows` | helpers/portfolio.py:102-138 | the loop fails exactly when some due day's calculation fails, since nothing catches it |
| `LegacyMaterializer.LegacyNewRowsOfDay` | helpers/portfolio.py:102-138 | the rows of a day are its legacy rows when it is due, and none otherwise |
| `LegacyMaterializer.LegacyNewRowsAsWritten` | helpers/portfolio.py:120-124 | as written, the loop fails at the first due day and otherwise adds nothing |
| `LegacyMaterializer.LegacyDaily` | helpers/portfolio.py:74-151 | with the prices passed, the whole cache is kept in front and the run fails exactly when a due day's calculation fails |
| `LegacyMaterializer.LegacyDailyDay` | helpers/portfolio.py:102-144 | a day's rows are the cached ones followed by its legacy rows when it is due within the range |
| `LegacyMaterializer.LegacyDailyAsWritten` | helpers/portfolio.py:74-151 | as written, `calc_daily` fails exactly when some day in range is due, and otherwise leaves the cache as it was |
| `LegacyMaterializer.LegacyDailyAsWrittenFails` | helpers/portfolio.py:120-124 | one trade on 2020-10-15 with start 2020-10-01 and today 2020-10-16 makes the written `calc_daily` fail |
| `LegacyMaterializer.AnchorsIn` | helpers/portfolio.py:13 | the range's anchor days, increasing |
| `LegacyMaterializer.AnchorsAfterFirst` | helpers/portfolio.py:13 | `[1:]`: increasing anchor days strictly after the start |
| `LegacyMaterializer.FirstAnchorDropped` | helpers/portfolio.py:13 | `[1:]` removes the earliest anchor on or after the start, and only it |
| `LegacyMaterializer.FirstMonthStartDropped` | helpers/portfolio.py:13 | the monthly candidates skip the first month start on or after the start date, even when the start is not a month start |
| `LegacyMaterializer.LegacyMonthly` | helpers/portfolio.py:6-71 | with the prices passed, the whole cache is kept in front and the run fails exactly when an uncached month's calculation fails |
| `LegacyMaterializer.LegacyMonthlyDay` | helpers/portfolio.py:34-60 | a month start's rows are the cached ones followed by its legacy rows when it is an uncached candidate |
| `LegacyMaterializer.LegacyMonthlyAsWritten` | helpers/portfolio.py:6-71 | as written, `calc_monthly` fails exactly when some candidate month is uncached |
| `LegacyMaterializer.LegacyMonthlyAsWrittenFails` | helpers/portfolio.py:47-51 | even with no transactions, an uncached candidate month makes the written `calc_monthly` fail |
| `Transactions.Find` | backend/services/transactions.py:85-86 | a lookup finds nothing exactly for an unmapped ISIN, and otherwise that ISIN's entry |
| `Transactions.AddNewGrows` | backend/services/transactions.py:31-43 | adding ISINs only appends, keeps keys distinct and maps exactly the old keys plus the rows' nonblank ISINs |
| `Transactions.AddNewEntries` | backend/services/transactions.py:35-43 | a new ISIN's entry comes from the first row carrying it: empty ticker, the broker's name as both names, its exchange |
| `Transactions.AddNewKnown` | backend/services/transactions.py:35-36 | rows whose ISINs are all mapped add nothing |
| `Transactions.EnsureFull` | backend/services/transactions.py:46-50 | `FULL_PORTFOLIO` is present afterwards, added with ticker `FULL` only when it was absent |
| `Transactions.UpdateIsinMapping` | backend/services/transactions.py:14-56 | no mapping without the required columns; otherwise an extension of the existing mapping with distinct keys, every nonblank ISIN of the rows and `FULL_PORTFOLIO` |
| `Transactions.UpdateKeepsExisting` | backend/services/transactions.py:34-43 | an existing entry is never overwritten and a new ISIN gets its first row's entry |
| `Transactions.UpdateIdempotent` | backend/services/transactions.py:14-56 | updating again with the same rows leaves the mapping unchanged |
| `Transactions.BlankIsinNotAdded` | backend/services/transactions.py:32 | a blank ISIN never becomes a key |
| `Transactions.Truncate` | backend/services/transactions.py:96 | the integer quantity is the raw quantity truncated towards zero |
| `Transactions.ActionOf` | backend/services/transactions.py:92 | BUY exactly when the quantity is present and positive |
| `Transactions.Normalise` | backend/services/transactions.py:84-96 | a normalised row's action agrees with the sign of its quantity |
| `Transactions.LoadAndPrepare` | backend/services/transactions.py:58-103 | a missing or unreadable file gives a frame without columns and no mapping write; a bad date or time gives a frame without columns after the mapping is written; otherwise the ordered normalised rows, as a permutation |
| `Transactions.HeaderOnlyLoadsEmpty` | backend/services/transactions.py:67-99 | an export with a header and no rows loads as an empty ledger, not as a frame without columns |
| `Transactions.StockFor` | backend/services/transactions.py:84-89 | the ticker of the ISIN's mapping entry, `""` when the entry has none, the ISIN is missing or unmapped, or there is no mapping |
| `Transactions.ProductFor` | backend/services/transactions.py:84-89 | the display name of the ISIN's mapping entry, `""` in the same cases |
| `Transactions.NewIsinHasNoTicker` | backend/services/transactions.py:84-89 | a loaded row whose ISIN was not mapped before has an empty ticker |
| `Transactions.NewIsinMappedToNoTicker` | backend/services/transactions.py:35-43 | after the update, an export row's ISIN that was not mapped before maps to an empty ticker, whether it was added as a new entry or skipped as blank |
| `LegacyTransactions.KeptRows` | helpers/transactions.py:36-39 | exactly the rows whose ISIN maps to a ticker survive |
| `LegacyTransactions.LegacyNormalise` | helpers/transactions.py:42-57 | a kept row's action is BUY exactly for a positive quantity and agrees with the truncated quantity's sign |
| `LegacyTransactions.ProcessTransactions` | helpers/transactions.py:10-63 | fails exactly on an unreadable file or a kept row with a bad date, time or empty quantity; otherwise every row is mapped, named from the ticker table or `nan`, and sign-consistent |
| `LegacyTransactions.ProcessedAreMappedRows` | helpers/transactions.py:36-39 | every mapped row appears in the result, and every result row comes from a mapped row |
| `LegacyTransactions.LoadLegacyTransactions` | helpers/transactions.py:65-81 | the upload is used when it processes; otherwise the default file, whenever that processes; with neither file an empty ledger; the result is ordered; it is missing exactly when the chosen files all fail |

## Left out

- Rounding of every figure to two decimals (`round(x, 2)`): money is exact, so
  the aggregate sums unrounded figures.
- File and network I/O: CSV, JSON, parquet and pickle files, Yahoo Finance,
  the database sync, the scheduler and the web UI. Their contents are
  parameters.
- The `print` and logging calls.
- The mix of date strings and date objects is modelled only where the
  backend day loop passes string bounds to the analyzer (see Findings).
  Every other comparison is a date comparison.
- NaN FX rates. A rate is a number or absent.
- The empty bins that `resample('MS').first()` creates for months without
  rows. The monthly table has a row for each (ticker, month) that has daily
  rows.
- The single-ticker shape of the Yahoo download. The fetched prices are
  always a map from ticker to series.
- The `results=` argument of `calculate_all_stocks_mwr`. Every caller omits
  it, so the dict starts empty.
- A ticker literally named `portfolio`. It would be overwritten by the
  aggregate; the per-ticker contracts exclude it.
- The order of keys in the price dicts, and the re-sort per ticker at
  backend/services/portfolio.py:123-124. Both are no-ops on a map.
- The fetch window is computed by `Materializer.FetchStart`, but the fetched prices
  themselves remain a parameter of `Materializer.CalcPortfolio`.
- The `continue` at backend/services/portfolio.py:80-81 is dead: `get_fx_rate`
  returns a dict, never `None`.
- `Materializer.DropIncomplete`: `dropna()` is modelled for the `cost_basis`
  column only. That is the one column cached rows can lack; every other
  field of a record is always present.
- `Materializer.CalcPortfolio`: states the skip and failure conditions, the
  display names and the monthly keys. It does not restate the daily rows:
  `Materializer.RefreshDay` does that, day by day. Its daily rows are the
  corrected ones; the rows as written are `Materializer.RefreshAsWritten`.
- A failure of `open('output/isin_mapping.json')` during the run. The display
  names are a parameter.
- Whitespace for blank ISINs is ASCII whitespace only. Python's `str.strip`
  also strips Unicode spaces.
- A JSON `null` ticker or display name in the mapping file, which
  `astype(str)` would turn into the text `None`. An entry either has the
  field or lacks it.
- `drop_duplicates` on (ISIN, name, exchange) before adding ISINs. Only the
  first row of an ISIN can add it, so it does not change the result.
- An export with fewer columns than the positional selection needs, a
  corrupt mapping file, and other read errors. They all count as an
  unreadable file.
- `get_transactions`, `backend/main.py`, `helpers/ticker_mapping.py` and the
  dashboard pages. They call the core or display its output, and are not
  part of this model.
- Sorting in the legacy and backend loaders is taken to be stable on
  (Date, Time). pandas sorts on several keys with a stable lexicographic
  sort.

## Findings

| source | as written | input that shows it | evidently intended | confidence | as-written member | corrected member |
|---|---|---|---|---|---|---|
| helpers/portfolio.py:120-124 | `calc_daily` calls `calculate_all_stocks_mwr` without its required `stock_prices` argument, so the first day that is due raises `TypeError` and nothing is saved | one trade on 2020-10-15, no cache, start 2020-10-01, today 2020-10-16: 2020-10-15 is due | pass the fetched prices, as the backend loop does, and append each due day's records after the cache | not executed | `LegacyMaterializer.LegacyDailyAsWrittenFails` | `LegacyMaterializer.LegacyDailyDay` |
| backend/services/portfolio.py:153-157 | the day loop passes `start_date` and `end_date` to `calculate_all_stocks_mwr` as `'YYYY-MM-DD'` strings, but the analyzer turned its `Date` column into date objects (backend/services/portfolio_analyzer.py:13); ordering a date against a string raises `TypeError` in the period filter (:101-104), the loop swallows it (:174-176), and no day is ever computed | one purchase of a ticker on Thursday 2020-10-15, no cached tables, today Friday 2020-10-16, with a price for the ticker | pass the bounds as dates, so the filter compares dates with dates and each due day adds its records | not executed | `Materializer.AsWrittenDueDayIsEmpty` | `Materializer.DayRowsAreCalculated` |
| helpers/portfolio.py:47-51 | `calc_monthly` makes the same call without `stock_prices`, so any uncached month start in range raises `TypeError` | no cache and a range containing a month start after the first one, e.g. start 2020-10-01 and today 2020-11-02 | pass the prices and append each uncached month's records after the cache | not executed | `LegacyMaterializer.LegacyMonthlyAsWrittenFails` | `LegacyMaterializer.LegacyMonthlyDay` |
