# Daily ledger engine of sbr_portfolio, in Dafny

This project models `compute_daily_report` in `src/compute_engine.py`. That
function turns a transaction log, a price table and a market-day calendar
into one report row per market day. It keeps two pieces of state:

- a position book: ticker → signed share count, with every ticker of the log
  at 0 to start;
- a cash balance, starting at the initial capital.

It walks the calendar in date order. On each day it:

1. accrues one day of interest on the cash, at `taux_cash / 252`;
2. applies the transactions dated that day, in log order:
   - `achat` and `rachat` add shares and pay `prix * nb + frais`;
   - `vente` and `short` remove shares and receive `prix * nb - frais`;
   - any other kind only has its fee added to `Frais`;
3. counts the day's transactions by kind and totals `Frais`,
   `Montant_Investi` and `Montant_Recupere`;
4. values the book at that day's prices (`Valeur_Titres`), an unpriced
   ticker contributing nothing;
5. appends a row with `Cash`, `Valeur Liquidative = Valeur_Titres + Cash`
   and a copy of the book.

The model has three layers:

- **Data** (`types.dfy`, module `LedgerTypes`):
  - `Tx` is one transaction, and `Kind` its operation type: `Achat | Vente | Short | Rachat | Other`.
  - `Prices` is the price table, a map from (date, ticker) to price.
  - `Book` is the position book together with the cash.
  - `Tally` holds a day's counters and totals.
  - `Row` is one report row.
  - Money is `real`, share counts are `int` and dates are `int`.
- **Specification** (`calendar.dfy`, `ledger_spec.dfy`):
  - Functions say what one transaction does to the book (`Apply`) and what one market day produces (`Day`).
  - `Report` is the whole report.
  - `SortDays` is the ascending calendar, duplicates kept.
  - `UniqueTickers` is the key order of the book: first appearance in the log, which is the order in which the valuation loop walks the dict.
- **Engine** (`engine.dfy`, module `ComputeEngine`): the function as it is written.
  - Class `Ledger` holds the mutable `positions`, `cash` and `records`.
  - `TradeDay` and `Valuation` write the transaction and valuation loops (lines 35 and 72 of `src/compute_engine.py`) as `while` loops.
  - `Trade` is the kind dispatch of one transaction.
  - `RunDay` is one pass of the day loop (line 14).
  - `ComputeDailyReport` runs the day loop as a `while` loop.
  - Each method is proved to compute exactly the specification function.
  - The properties of the report are lemmas about those functions (`ledger_lemmas.dfy`, `report_lemmas.dfy`).

Four behaviours of the code are worth stating outright:

- **Unknown kind.** An unrecognised transaction kind is not rejected. Only its fee reaches `Frais`; the book, the cash and the counters are untouched (`OtherOnlyAddsFee`).
- **Repeated dates.** The calendar is sorted but not de-duplicated, so a date listed twice is processed twice and its transactions are applied again (`RepeatedDate`).
- **Off-calendar transactions.** A transaction dated on no market day changes no cash, counter or valuation, wherever it stands in the log. Its ticker is still a key of the book, so a ticker traded only off-calendar shows up at zero shares in every `Positions` snapshot (`OffCalendarTx`).
- **First-day NAV.** Interest accrues before the day's trades. With a capital of 100,000 at 3% and 10 shares bought at 50 with a fee of 1 on the first day, the first-day NAV is `100000 * (1 + 0.03/252) - 1` rather than the 99,999 that leaving out the accrual would give (`FirstDayScenario`).

## Model

| member | source | states |
|---|---|---|
| Calendar.SortDaysSorts | src/compute_engine.py:5 | the calendar is put in ascending date order and keeps exactly its dates, duplicates included |
| Calendar.SortedPermutationUnique | src/compute_engine.py:5 | two ascending arrangements of the same dates are equal |
| Calendar.SortDaysCanonical | src/compute_engine.py:5 | whatever sort is used, the days are processed in the one ascending arrangement of the calendar |
| Calendar.InsertSorts | src/compute_engine.py:5 | inserting a date into a sorted calendar keeps it sorted and adds exactly that date |
| LedgerSpec.UniqueTickers | src/compute_engine.py:8 | the tickers of the log, each once, exactly those that occur in the log |
| LedgerSpec.ZeroBook | src/compute_engine.py:9 | the opening book holds every ticker of the log and only those, each at 0 shares |
| LedgerSpec.BookCoversLog | src/compute_engine.py:8-9 | a book keyed by the tickers of the log has an entry for every trade and for every ticker walked by the valuation |
| LedgerSpec.DayTxs | src/compute_engine.py:34 | a transaction is in the day's list exactly when it is in the log and dated that day |
| LedgerSpec.DayTxsCopies | src/compute_engine.py:34 | the day's list keeps every copy: a transaction dated that day occurs in it as often as in the log, any other not at all |
| LedgerSpec.DayTxsAppend | src/compute_engine.py:34 | the filter keeps log order: for a log made of two parts, the day's list is that of the first part followed by that of the second |
| LedgerSpec.Apply | src/compute_engine.py:43-65 | a transaction never adds or removes a key of the book |
| LedgerSpec.BookAfter | src/compute_engine.py:35-67 | a day's transactions never add or remove a key of the book |
| LedgerSpec.TallySnoc | src/compute_engine.py:43-67 | one more transaction bumps only its own kind's counter, adds its fee to Frais, `prix*nb+frais` to Montant_Investi for achat/rachat and `prix*nb` to Montant_Recupere for vente/short |
| ComputeEngine.Ledger.constructor | src/compute_engine.py:8-12 | the run starts with every ticker of the log at 0 shares, cash equal to the initial capital, and no rows |
| ComputeEngine.Ledger.Trade | src/compute_engine.py:35-67 | the kind dispatch moves the book exactly as Apply and the day's counters and totals exactly as TallyOf of the transactions so far |
| ComputeEngine.Ledger.TradeDay | src/compute_engine.py:34-67 | the transaction loop leaves the book equal to BookAfter of the day's transactions and the tally equal to their TallyOf, with the same keys |
| ComputeEngine.Ledger.Valuation | src/compute_engine.py:70-77 | the valuation loop computes Value: the sum over the book's tickers of shares × that day's price, unpriced tickers contributing 0 |
| ComputeEngine.Ledger.RunDay | src/compute_engine.py:14-82 | one day appends exactly the Day row and leaves earlier rows untouched; the book and the cash become that row's closing book and cash; the book keeps its keys |
| ComputeEngine.ComputeDailyReport | src/compute_engine.py:4-85 | the rows returned are exactly Report of the inputs |
| LedgerLemmas.TallyAppend | src/compute_engine.py:16-67 | the counters and totals of two transaction lists add up |
| LedgerLemmas.BookAfterNet | src/compute_engine.py:43-65 | after a day's trades the cash has moved by the sum of their cash flows and each position by the ticker's net signed share count |
| LedgerLemmas.RoundTrip | src/compute_engine.py:43-53 | a buy-side and a sell-side transaction with the same ticker, count, price and fee, in either order, leave the positions unchanged and the cash lower by exactly twice the fee |
| LedgerLemmas.ShortThenCover | src/compute_engine.py:55-65 | a fee-free short raises the cash by `prix*nb` and lowers the position by `nb`; the matching rachat restores the book exactly |
| LedgerLemmas.CashFlowIdentity | src/compute_engine.py:40-67 | the day's net trade cash flow equals Montant_Recupere − Montant_Investi − the fees of the sell-side trades |
| LedgerLemmas.CountsCover | src/compute_engine.py:43-67 | every transaction is counted under exactly one kind, the unknown kind included |
| LedgerLemmas.DayByEffect | src/compute_engine.py:32-80 | two transaction lists leaving the same book give the same row apart from the counters and totals |
| LedgerLemmas.OtherBook | src/compute_engine.py:41-65 | a transaction of unknown kind changes no position and no cash |
| LedgerLemmas.OtherTally | src/compute_engine.py:41-67 | a transaction of unknown kind changes no counter and no total except Frais, which grows by its fee |
| LedgerLemmas.OtherOnlyAddsFee | src/compute_engine.py:41-67 | the day's row with a transaction of unknown kind, wherever it stands, is the row without it with its fee added to Frais |
| LedgerLemmas.SwapTally | src/compute_engine.py:35-67 | swapping two adjacent transactions leaves the counters and totals unchanged |
| LedgerLemmas.SwapBook | src/compute_engine.py:35-67 | swapping two adjacent transactions leaves the book unchanged |
| LedgerLemmas.SwapAdjacent | src/compute_engine.py:35-67 | swapping two adjacent transactions of a day leaves that day's row unchanged |
| LedgerLemmas.ValueUnpriced | src/compute_engine.py:70-75 | a day without a price for any held ticker, or absent from the price table, values the book at 0 |
| LedgerLemmas.ValueOnlyToday | src/compute_engine.py:70-75 | only the prices of the day itself enter its valuation: no earlier price is carried forward |
| LedgerLemmas.ValueFrame | src/compute_engine.py:72-75 | the valuation reads the book only at the tickers it walks |
| LedgerLemmas.ValueShift | src/compute_engine.py:72-75 | moving one ticker's position by `delta` moves the valuation by `delta × price` when that ticker is in the book's key order and priced that day, and not at all otherwise |
| LedgerLemmas.ValueAppend | src/compute_engine.py:72-75 | walking two ticker lists one after the other values the book at the sum of their two valuations |
| LedgerLemmas.ValuePermutation | src/compute_engine.py:72-75 | the order in which the valuation loop walks the book does not matter: any two repeat-free lists of the same tickers give the same Valeur_Titres |
| ReportLemmas.RunFromShape | src/compute_engine.py:14-82 | one row per calendar entry, in calendar order; NAV = securities + cash on every row; every snapshot has the keys of the opening book |
| ReportLemmas.RunFromAt | src/compute_engine.py:14-82 | row `i` is the Day row of entry `i`, started from the close of row `i - 1` |
| ReportLemmas.ReportShape | src/compute_engine.py:5-82 | one row per calendar entry, repeated dates included; dates non-decreasing and equal to the sorted calendar; `Valeur Liquidative = Valeur_Titres + Cash` on every row; every Positions snapshot is keyed by exactly the tickers of the log |
| ReportLemmas.DailyRecurrence | src/compute_engine.py:32-79 | each row's cash is the previous close accrued by one day, plus the day's trade cash flow; each position is the previous one plus the day's net shares; the counters and totals are those of the day's transactions; Valeur_Titres is the new book at that day's prices |
| ReportLemmas.QuietDay | src/compute_engine.py:32-35 | a day with no transaction only multiplies the cash by `1 + taux_cash/252` (from the initial capital on the first day); positions unchanged (all zero on the first day), all counters and totals zero |
| ReportLemmas.RepeatedDate | src/compute_engine.py:5-14 | a date listed twice is processed twice: the second row repeats the counters, and its share changes are applied again |
| ReportLemmas.RunFromTickerOrder | src/compute_engine.py:14-82 | the rows depend on the key order of the book only through which tickers it holds |
| ReportLemmas.ReportDependsOnDays | src/compute_engine.py:8-34 | two logs with the same tickers and, on every market day, the same transactions in the same order give the same report, however the days are interleaved in the log |
| ReportLemmas.OffCalendarTx | src/compute_engine.py:8-34 | inserting a transaction dated on no market day anywhere in the log changes no date, counter, total, valuation, cash or NAV of any row; the positions only gain its ticker at 0 when it was not in the book |
| ReportLemmas.OffCalendarKnownTicker | src/compute_engine.py:14-34 | when its ticker occurs elsewhere in the log, an off-calendar transaction, wherever it stands, leaves the report exactly as it was |
| ReportLemmas.SingleTally | src/compute_engine.py:16-67 | a day with one transaction counts it under its kind and totals its fee, its invested and its recovered amount |
| ReportLemmas.FirstDayScenario | src/compute_engine.py:32-79 | a capital of 100,000 at 3%, with 10 shares bought at 50 with a fee of 1 on day 1: day 1 has cash `100000·(1+0.03/252) − 501`, Valeur_Titres 500 and NAV `100000·(1+0.03/252) − 1`; on day 2, which has no price, the cash only accrues and the holding is valued at 0 |

## Left out

- `src/data_loader.py` (Excel reading, reshaping, caching) and the Streamlit pages are not part of this model. They are input/output and display.
- The analytics of the pages (volatility, beta and R² by regression, drawdown by running peak, monthly returns) are not modelled. They are floating-point statistics over the report.
- The `pivot` of the price table (line 6) is not modelled: prices are given directly as a map from (date, ticker) to price. So `pivot`'s error on a duplicated (date, ticker) pair is not modelled.
- NaN prices are not modelled. A NaN price is treated like an absent one (lines 73-74), which is how the model treats a missing map entry.
- Floating-point rounding is not modelled: money is exact `real` arithmetic.
- The `.lower()` string comparison of the operation type (line 41) is replaced by the `Kind` datatype. Turning a raw string into a kind is not modelled.
- `iterrows` and the DataFrame building (lines 14, 35, 84) are not modelled. The report is a sequence of `Row` values whose fields are the columns.
- Share counts are integers. A fractional `Nb actions` from the spreadsheet is not modelled.
- The default `taux_cash=0.03` is the constant `LedgerSpec.DefaultCashRate`. `ComputeDailyReport` takes the rate as an explicit argument.
- Dates are integers ordered like the calendar's dates. Calendar arithmetic is not needed by the engine.
