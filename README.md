# Square/Booqable integration scripts — a Dafny model

This project models the sequential logic underneath two small integration scripts.

**The sales sync (`integration_app/app.py`).** One run asks the Square order search for the orders of a time window. It flattens their line items into sale records `{order_id, sku, quantity, created_at}`. Each record whose order id is not yet in the MySQL table `sold_items` is inserted and reported as "recovered". The whole flattened list is then dumped to a CSV file. The hourly mode uses the window `[now − 1 h, now]`. The recovery mode uses `[now − days_back days, now]`.

**The rental dashboard (`dashboard/app.py`).** It builds the Booqable order-search URL from a list of query pairs. It flattens orders and their `included` lines into `OrderLine`s and sums units per product name. The report covers Monday to Sunday of the week that holds the day three weeks before today.

Files:

- `common.dfy`: `Option`, the value a Python `dict.get` may return.
- `decimal.dfy`: Python's `str(int)`, which the CSV writer applies to quantities, and the parse that inverts it.
- `sold_items.dfy` (module `SoldItems`): the records, the flattener, the specification `Dedupe` of the insert loop, and the class `SoldItemsTable`. That class is the `sold_items` table. Its field `rows` is the sequence of stored records, and `Valid()` is the UNIQUE constraint on `order_id`.
- `sales_sync.dfy` (module `SalesSync`): `save_to_csv`, one run of `fetch_sold_items`, and the two run modes with their windows.
- `dashboard.dfy` (module `Dashboard`): `build_url_w_params`, `create_dashboard_data`, `process_data` and the report week.

Foreign calls are parameters. The answer of the order search is a `SearchResult`. The fetched rental orders, with their details, are a sequence passed in. The current time is an integer count of seconds. Today's date is a day number. The CSV timestamp is a string.

The code, and so the model, behaves as follows:

- The CSV receives the whole flattened list (`integration_app/app.py:107`), not only the recovered records.
- `recover_missed_orders` does not check `days_back`. A negative count gives a window that starts after it ends (`RecoveryRequest`).
- The sku is the line item's `catalog_object_id`, read as is. Items without one are dropped.
- The dedupe key is the order id alone. A second line item of an order is skipped, even within one run (`SecondLineItemOfOrderDropped`).
- The order search is read once, and only the page it returns is used.
- There is no explicit rollback. The inserts of a run are committed once, after the loop (`integration_app/app.py:47`).

## Model

| member | source | states |
|---|---|---|
| SoldItems.FlattenOrders | integration_app/app.py:86-98 | the nested loops build exactly `Flatten(orders)` |
| SoldItems.FlattenMembership | integration_app/app.py:89-98 | a record is emitted iff some line item of some order has a non-empty catalog object id and quantity > 0 and yields it; it then carries that order's id and created_at, the catalog id as sku and the item's quantity |
| SoldItems.FlattenSound | integration_app/app.py:89-98 | every emitted record comes from a passing line item of some order |
| SoldItems.FlattenComplete | integration_app/app.py:89-98 | every passing line item of every order yields a record in the flattened list |
| SoldItems.FlattenWellFormed | integration_app/app.py:94-98 | every emitted record has a non-empty sku and a positive quantity |
| SoldItems.FlattenAppend | integration_app/app.py:89-98 | flattening preserves order: the records of earlier orders come before those of later orders |
| SoldItems.OrderRecordsAppend | integration_app/app.py:93-98 | within an order, line items keep their input order |
| SoldItems.OrderRecordsCount | integration_app/app.py:93-98 | each line item that passes the filter yields exactly one record |
| SoldItems.OrderRecordsMembership | integration_app/app.py:93-98 | a record is among an order's records iff a passing line item of that order yields it |
| SoldItems.CountOrder | integration_app/app.py:24-27 | the COUNT(*) of rows with an order id is positive iff the id is stored |
| SoldItems.SoldItemsTable.IsOrderProcessed | integration_app/app.py:24-27 | `is_order_processed` is true iff the table holds a row with that order id |
| SoldItems.SoldItemsTable.SaveSoldItems | integration_app/app.py:30-51 | returns `Dedupe(old ids, input)`; the table grows by exactly the returned records; afterwards every input order id is stored, ids stay unique, and a second run over the same input would take nothing |
| SoldItems.SaveStep | integration_app/app.py:36-45 | one turn of the insert loop keeps the table equal to the old rows plus the records taken so far, with unique ids, whether it inserts or skips |
| SoldItems.SaveSkip | integration_app/app.py:37 | a turn whose order id is already stored changes neither the table nor the result |
| SoldItems.SaveInsert | integration_app/app.py:37-45 | a turn whose order id is absent appends the record to both the table and the result |
| SoldItems.InsertKeepsIds | integration_app/app.py:37-45 | an insert adds the record's order id to both the table's ids and the result's ids |
| SoldItems.InsertKeepsDedupe | integration_app/app.py:37-45 | taking a record whose id is not stored keeps the result on track to equal what the whole loop takes |
| SoldItems.DedupeStep | integration_app/app.py:36-45 | the record at position i is returned iff its order id is absent from the stored ids plus the ids of the records before it (inserts are visible to later checks) |
| SoldItems.DedupeAppend | integration_app/app.py:36-45 | the loop over `a + b` is the loop over `a`, then over `b` against the store grown by `a`'s ids |
| SoldItems.DedupeIsSubsequence | integration_app/app.py:34-45 | the returned records are a subsequence of the input, in input order |
| SoldItems.DedupeIds | integration_app/app.py:36-47 | the returned order ids are exactly the input's ids that were not stored before |
| SoldItems.DedupeDistinct | integration_app/app.py:37-45 | no two returned records share an order id, and none was stored before |
| SoldItems.DedupeAllStored | integration_app/app.py:37-45 | when every input id is already stored, nothing is returned |
| SoldItems.DedupeIdempotent | integration_app/app.py:24-45 | after one run the store holds every input id, and a second run over the same input returns nothing and leaves the store unchanged |
| SoldItems.PushNewId | integration_app/app.py:162 | inserting a record whose order id is absent keeps order ids unique |
| SoldItems.SecondLineItemOfOrderDropped | integration_app/app.py:37-45 | a second record with an order id taken earlier in the same run is skipped |
| Decimal.NatToString | integration_app/app.py:63 | the decimal rendering of a natural is non-empty, all digits, with no leading zero |
| Decimal.IntToString | integration_app/app.py:63 | `str(x)` is a '-' exactly when x is negative, then only digits with no leading zero; the first digit is '0' only for zero, which is "0" alone |
| Decimal.ParseIntToString | integration_app/app.py:63 | parsing `str(x)` gives x back |
| SalesSync.SaveToCsv | integration_app/app.py:54-63 | no file iff the list is empty; otherwise the header then one row per record |
| SalesSync.CsvFileName | integration_app/app.py:104-105 | the file name is the prefix, '_', the timestamp, then ".csv", each readable back from its place |
| SalesSync.CsvFileNameInjective | integration_app/app.py:104-105 | under one prefix, two exports share a file name only when their timestamps are equal |
| SalesSync.CsvFileNamesOfModesDiffer | integration_app/app.py:105-135 | an hourly export and a recovery export never share a file name |
| SalesSync.ReadCsvRow | integration_app/app.py:59-63 | a written row reads back to its record |
| SalesSync.CsvRoundTrip | integration_app/app.py:54-63 | a written file reads back to exactly the list, in order, after the header `order_id, sku, quantity, created_at` |
| SalesSync.FetchSoldItems | integration_app/app.py:83-120 | the run against the table equals `Fetch` of the old ids; the table grows by exactly the inserted records |
| SalesSync.FetchErrorSavesNothing | integration_app/app.py:119-120 | on a search error the run reports the errors and inserts nothing |
| SalesSync.FetchSavesFlattenedList | integration_app/app.py:100-117 | save and export happen iff the search succeeded with a non-empty flattened list; the CSV then holds the whole flattened list; the recovered records are a subsequence with new, distinct ids |
| SalesSync.FetchIdempotent | integration_app/app.py:100-101 | re-running over the same search answer against the resulting table inserts nothing |
| SalesSync.FetchScenario | integration_app/app.py:85-107 | with A1 stored and A1, A2 returned, only A2's record is inserted, while the CSV has three lines that read back to A1's and A2's records |
| SalesSync.HourlyRequest | integration_app/app.py:123-127 | the hourly window ends at `now`, spans exactly one hour, and its exports use the prefix "hourly" |
| SalesSync.RecoveryRequest | integration_app/app.py:130-135 | the recovery window ends at `now` and spans exactly `days_back` days; it is inverted exactly when `days_back < 0`; its exports use the prefix "recovered" |
| SalesSync.RecoveryCoversHourly | integration_app/app.py:123-135 | with `days_back ≥ 1` the recovery window covers the hourly window ending at the same `now` |
| SalesSync.RunHourly | integration_app/app.py:123-127 | one run over `[now − 1 h, now]` under the prefix "hourly", both bounds from one `now` |
| SalesSync.RecoverMissedOrders | integration_app/app.py:130-135 | one run over `[now − days_back days, now]` under the prefix "recovered", both bounds from one `now` |
| Dashboard.BuildUrlWithParams | dashboard/app.py:25-29 | the URL is the base, '?', then the query; with no pairs it is the base and a bare '?'; with keys free of '&' and '=' and values free of '&', the query reads back to exactly the given pairs, in order, duplicates kept, and by `ParseQueryInjective` that fixes the query text |
| Dashboard.QueryRoundTrip | dashboard/app.py:26 | the '&'-joined `key=value` strings read back to exactly the given pairs, in order, duplicates kept, for such pairs |
| Dashboard.ParseQueryInjective | dashboard/app.py:26-27 | two query strings that read back to the same pairs are the same text, so the read-back pins the query down |
| Dashboard.CreateDashboardData | dashboard/app.py:79-95 | the nested loops build exactly `DashboardLines(orders)` |
| Dashboard.LinesOfShape | dashboard/app.py:88-93 | an order yields one line per included entry, each with the order's number, job site and client code ('' when missing) and the entry's title and quantity |
| Dashboard.DashboardLinesAppend | dashboard/app.py:82-93 | the lines of earlier orders precede those of later orders |
| Dashboard.DashboardLinesCount | dashboard/app.py:82-93 | the number of lines is the number of included entries over all orders |
| Dashboard.DashboardLinesSplit | dashboard/app.py:82-93 | order i's lines sit after those of every earlier order and before those of every later one |
| Dashboard.ProcessData | dashboard/app.py:97-104 | the dict loop and the list comprehension build exactly `Summary(data)` |
| Dashboard.FirstOccurrencesNames | dashboard/app.py:98-103 | the dict's keys are distinct and are exactly the product names of the input |
| Dashboard.FirstIndex | dashboard/app.py:98-100 | the position of the first line carrying a name: that line carries it and no earlier line does (the input's length when none does) |
| Dashboard.FirstOccurrencesOrder | dashboard/app.py:98-103 | a name is a dict key iff it has a first line, and the keys are listed by the position of their first line (dict insertion order) |
| Dashboard.UnitsOfAbsent | dashboard/app.py:99-100 | a product name that never occurs sums to 0 units |
| Dashboard.SummaryPreservesTotal | dashboard/app.py:98-104 | the per-name sums add up to the units of all input lines |
| Dashboard.SummaryCorrect | dashboard/app.py:97-104 | each input product name appears exactly once, with the sum of its lines' units; no other name appears; entries are ordered by the position of their name's first line in the input; the summary's total equals the input's |
| Dashboard.Weekday | dashboard/app.py:114 | `weekday()` lies in 0..6, with 0 for Monday |
| Dashboard.ReportWeek | dashboard/app.py:112-115 | the report week starts on a Monday, ends exactly 6 days later, and holds the day 21 days before today |
| Dashboard.WeekStartUnique | dashboard/app.py:112-115 | the start is the only Monday at most six days before that day |

## Left out

- MySQL mechanics are not modelled: connecting, the cursor, `commit`, closing, and database exceptions. The table is a sequence of rows that the loop updates.
- The failure path of a run is not modelled. There is no explicit rollback. If anything fails before the commit at `integration_app/app.py:47`, the run's inserts stay uncommitted, and the server discards them when the connection drops. The model has every insert succeed and be committed.
- SoldItems.CountOrder, SoldItems.SoldItemsTable.IsOrderProcessed and SoldItems.Dedupe compare order ids exactly. The table's `WHERE order_id = %s` and its UNIQUE key (`integration_app/app.py:25`, `162`) compare under the database's default collation. MySQL's default is case-insensitive, so there a stored "A1" would also make "a1" count as processed.
- The column limits of the table are not modelled: `VARCHAR(50)` for order id and sku, and `INT` for quantity (`integration_app/app.py:162-164`). Ids and skus are unbounded strings, and quantities are unbounded integers.
- The Square client is not modelled: its configuration and the request body. The search's answer is a parameter. The code reads only the page that answer holds and follows no cursor, and so does the model.
- A missing order `id` or `created_at` (`order.get` returning None) is not modelled. Both are strings here.
- Quantities are already-parsed integers. A missing quantity reads as 0. Python's `int()` on the quantity string is not modelled.
- `datetime.now()`, time zones, `isoformat`, `strftime` and `timedelta` overflow are not modelled. The current time is an integer count of seconds, and the CSV timestamp is a string parameter.
- File creation is not modelled, and neither are CSV quoting and line endings. The CSV is the sequence of rows of fields, or nothing.
- `print` output is not modelled, nor the interactive menu with `input()` and `int()` on the number of days.
- Dashboard.BuildUrlWithParams: for pairs whose keys hold '&' or '=', or whose values hold '&', the contract states only that the URL starts with the base and '?'. The code does not URL-encode keys or values (`dashboard/app.py:26`), so such URLs are ambiguous and cannot be read back to their pairs.
- Several dashboard pieces are left out, because they are network calls or presentation: `requests`, HTTP errors, `get_product_groups` and the parameter list of `get_orders_by_time_period`. Also out are the `print` in `build_url_w_params`, the Flask route and template rendering, and the date formatting. Today's date is a day number. A missing `number` or `attributes` key is not modelled. Order properties are a map from string to string. A `job_site` or `client_code` present with a null value, which `.get(key, '')` returns as None (`dashboard/app.py:84-85`), is not modelled: the model reads the stored string, or '' when the key is absent.
- `sync_app/app.py` is not part of this model. Every function there is an HTTP request plus printing.
