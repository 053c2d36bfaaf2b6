# Publishing-office inventory ledger — verified model

This project models the bookkeeping core of a small publishing office's
inventory application. The application keeps two tables in memory:

- the **inventory**: one row per title, with price, ISBN, quantity on hand and
  safety stock;
- the **transaction history**: one record per posting, newest first.

A **posting** is a receive (입고), ship (출고) or return (반품) entered in the
posting form. It looks up the first inventory row with the chosen title. It
refuses an empty client name. A shipment larger than the stock on hand stops
the script before anything changes. Otherwise the posting overwrites that
row's quantity and puts a new record, carrying the row's current price, in
front of the history.

The report views are read-only computations over the two tables:

- the low-stock alert list;
- the asset valuation;
- the monthly shipment pivot;
- the per-client return rate;
- the inventory search.

Modules, one file each:

- `tables.dfy` (`Tables`): the rows, the first-match lookup and the seed rows.
- `aggregates.dfy` (`Aggregates`): filter-by-key, distinct keys, per-key totals, and the lemma that per-key totals add up to the overall total.
- `posting.dfy` (`Posting`): the pure one-step specification `Step`, and the class `Ledger`. `Ledger` keeps the inventory in an `array<Book>` written in place and the history in a `seq<Record>` that is rebound on each successful posting. The file also holds what any sequence of postings does (`Replay`).
- `reports.dfy` (`Reports`): the views above, except search.
- `search.dfy` (`Search`): the inventory search filter.
- `scenario.dfy` (`Scenario`): a session on the seed rows.

## Model

| member | source | states |
|---|---|---|
| `Tables.FirstIndex` | app.py:178 | The lookup returns a row whose title matches, and no earlier row matches (first match when titles repeat). |
| `Tables.FirstIndexByTitles` | app.py:178 | The lookup depends only on the titles, so changing quantities never moves it to another row. |
| `Tables.SeedInventory` | app.py:82-85 | The seed table has two rows, neither with negative stock. |
| `Aggregates.Where` | app.py:287 | Filtering keeps exactly the records with the given key, and never more records than the input. |
| `Aggregates.WhereEmpty` | app.py:321 | The filter comes back empty exactly when no record has the key (for kinds: "the 출고 column is missing"). |
| `Aggregates.Keys` | app.py:319 | The group labels are distinct and include the key of every record. |
| `Aggregates.KeysOccur` | app.py:319 | Every group label has at least one record, so no empty group is invented. |
| `Aggregates.Tally` | app.py:290-291 | The summed quantity per group has one entry per label: the total quantity of that group's records. |
| `Aggregates.TallyPartition` | app.py:290-291 | When every record's key is listed exactly once, the per-group totals add up to the overall total. |
| `Posting.Settle` | app.py:182-191 | Rejects exactly a shipment larger than the stock. Otherwise receipts and returns add the quantity, shipments subtract it, and a shipment never leaves negative stock. |
| `Posting.Step` | app.py:173-206 | An empty client is rejected first, even when the inventory offers no title. Any rejection leaves both tables untouched. On success, only the first matching row changes, and only in its quantity, by exactly +q or −q. Exactly one record is prepended, with the row's price at posting time. Titles and non-negative stock are preserved. |
| `Posting.Ledger.constructor` | app.py:133-139 | The session's tables hold the given rows and records. |
| `Posting.Ledger.Post` | app.py:173-213 | The in-place posting performs exactly `Step`. Rejection changes neither table. Success rewrites only the first matching row's quantity. The history grows by one record at index 0, with the older records following in order. |
| `Posting.Replay` | app.py:173-206 | A sequence of postings keeps the inventory's titles, so every later posting stays admissible. |
| `Posting.StepNet` | app.py:182-206 | One posting moves its own title's stock by the net of the record it adds, and moves no other title's stock. |
| `Posting.ReplayNet` | app.py:173-211 | After ANY sequence of postings, the history has only grown at the front. Each title's stock equals its start value plus receipts plus returns minus shipments recorded in the new records. |
| `Posting.ReplayNonNegative` | app.py:185-189 | Starting from non-negative stock, no sequence of postings makes any row negative. |
| `Posting.ReplayAllPosted` | app.py:196-206 | When every posting succeeds, the history gains one record per posting, newest first, carrying that posting's fields. |
| `Reports.LowStockAlerts` | app.py:260-263 | The loop returns the alert list: exactly the rows with quantity ≤ safety stock, boundary included. |
| `Reports.AlertsExactly` | app.py:260-263 | A row is flagged if and only if it is in the table and its quantity is at or below its threshold. |
| `Reports.AlertsConcat` | app.py:261-263 | The alert list keeps table order: the alerts of two parts of the table follow one another. |
| `Reports.TotalAsset` | app.py:302-303 | The total computed row by row (first row's quantity × price plus the rest) equals the sum of the quantity × price column. |
| `Reports.TotalAssetConcat` | app.py:303 | The total asset value is additive over any split of the table. |
| `Reports.TotalAssetNonNegative` | app.py:301-303 | With no negative stock and no negative prices, the total is not negative. |
| `Reports.TotalAssetUpdate` | app.py:302-303 | Overwriting one row's quantity changes the total by the change in quantity × that row's price. |
| `Reports.PostingRevalues` | app.py:194 | A successful posting changes the total asset value by exactly ±q × the price of the row it moved. |
| `Reports.Month` | app.py:283-284 | For a timestamp of the form's `YYYY-MM-DD HH:MM:SS` shape, the month is seven characters: the year field, a dash and the month field, all digits except the dash. |
| `Reports.SameMonth` | app.py:284 | Two such timestamps fall in the same month exactly when their year and month fields agree; day and time do not matter. |
| `Reports.Grid` | app.py:290-291 | The pivot has one row per month, holding that month's per-title shipped totals, zero-filled. |
| `Reports.MonthlySales` | app.py:281-298 | With no history there is no transaction data. With no shipment there is no sales data. Otherwise the result is the pivot of the shipments only. |
| `Reports.PivotOf` | app.py:290-291 | Months and titles are each listed once and cover every shipment. The grid has one row per month and one cell per title, and each cell is that month's shipped quantity of that title. |
| `Reports.MonthlySalesKeysOccur` | app.py:290 | Every month row and every title column has at least one shipment. |
| `Reports.MonthlySalesTotal` | app.py:287-291 | All cells together add up to the total quantity shipped. |
| `Reports.MonthlySalesIgnoresNonShipments` | app.py:287 | Removing a receipt or return from anywhere in the history leaves the sales tab unchanged, unless it was the only record; the tab then reports no transactions instead of no sales. |
| `Reports.Rate` | app.py:326-328 | When shipped > 0, rate × shipped = returned × 100. Otherwise the rate is 0. A rate with returns ≤ shipments lies between 0 and 100. |
| `Reports.RateExamples` | app.py:326-328 | 100 shipped and 5 returned give 5%. 0 shipped and 3 returned give 0. |
| `Reports.RateTable` | app.py:319-328 | Every client of the history has exactly one row, with its shipped total, returned total and the rate of those two. |
| `Reports.RateTableClientsOccur` | app.py:319 | Every client row has at least one record in the history. |
| `Reports.RateTableTotals` | app.py:319 | The shipped column adds up to all shipments and the returned column to all returns. |
| `Reports.ReturnRates` | app.py:316-337 | With no history or no shipment, no table. Otherwise the table is the client rows. |
| `Search.ContainsAt` | app.py:224 | The search test holds if and only if the term occurs at some position of the text. |
| `Search.SearchRows` | app.py:223-228 | A row is in the result if and only if it is in the table and its title or ISBN contains the term. |
| `Search.FilterExactly` | app.py:224-226 | The filter keeps exactly the matching rows. |
| `Search.EmptyTermMatchesAll` | app.py:223-228 | Skipping the filter for an empty term gives the same rows the filter would. |
| `Search.FilterConcat` | app.py:226 | The search result keeps table order. |
| `Scenario.SeedShipments` | app.py:82-85 | On the seed rows, shipping 45 of the first title leaves 5 and prepends one record priced 15000. Both rows are then low. A further shipment of 10 is refused with nothing changed. |
| `Scenario.EmptyInventoryMissingClient` | app.py:174-175 | With an empty inventory, a submission without a client is refused for the missing client and changes nothing. |
| `Scenario.SeedSession` | app.py:173-213 | The same session, run against a `Ledger` and the low-stock loop, reports 50→5, refuses the second shipment, and alerts on both rows. |

## Left out

- The Streamlit user interface is not modelled: page set-up, sidebar menu, form widgets, warnings, toasts, charts, table styling and `st.session_state` (app.py:11, 29-34, 138-171, 213, 231-239, 292-314, 330-335).
- GitHub and file persistence is not modelled: `get_github_repo`, `load_data`, `save_data` (app.py:40-129) and the reload button (app.py:148-150) are network, file-system and CSV I/O. A successful posting calls `save_data` afterwards. Saving never undoes the in-memory change, so the model ends the posting at the in-memory update.
- The clock (`datetime.now()`, app.py:197) is a `timestamp` parameter of the posting.
- `Reports.PivotOf`: states nothing about row and column order. pandas sorts the month and title labels; the model orders each label by its last position among the shipments. The month is the first seven characters of the stored timestamp, which is what `pd.to_datetime` plus `strftime('%Y-%m')` produce for the app's own `YYYY-MM-DD HH:MM:SS` format. Timestamps pandas cannot parse are not modelled: other shapes, or impossible dates of the same shape such as month 13. For those `pd.to_datetime` raises, while `Reports.Month` still returns the first seven characters.
- `Reports.RateTable`: states nothing about row order. pandas' `groupby` sorts clients; the model orders each client by its last position in the history.
- The return rate is computed over `real`. The two-decimal percentage formatting and float64 rounding are left out, and so is the `{:,.0f}` display of the asset total (app.py:305, 331).
- `Reports.Rate` follows app.py:327: a client with returns but no shipments keeps a row with rate 0; it is not excluded.
- Search uses a literal substring test. `str.contains` interprets the term as a regular expression (app.py:224). Regex metacharacters in a term are not modelled.
- The history display sort (app.py:247) is display-only and is not modelled.
- Quantities and prices are unbounded integers. pandas' int64 overflow, non-integer prices and missing (NaN) cells from a stored CSV are not modelled.
- The quantity precondition comes from the form: the quantity widget has a minimum of 1 (app.py:169).
- `Posting.Step`: with a client filled in, the model requires the title to be in the inventory. With an empty inventory, the title picker offers nothing and yields None, and app.py:178 then raises IndexError at `.index[0]`. The model does not model that crash. `Posting.Ledger.Post` has the same requirement.
