# Sales ETL transform stage, modelled in Dafny

This project models the transform stage of a small sales ETL pipeline and the
column check of its CSV reader. There are two row cleaners, three aggregators
and one check:

- **`transform_sales`** parses the order date and adds the line total and the
  "YYYY-MM" month. It drops repeated order lines on (order_id, product_id,
  quantity, unit_price), keeping the first. It then drops lines that miss a
  critical field, and fills a missing category with "Unknown".
- **`transform_customers`** parses the registration date and drops customers
  without an id. It flags every e-mail address against the pattern
  `^[\w\.-]+@[\w\.-]+\.\w+$`, fills a missing region with "Unknown", and counts
  the days from registration to a snapshot date.
- **`create_sales_summary`** groups the lines by (category, month). Each group
  gets its sales, its units, its sales per distinct order and the first day
  of its month.
- **`create_product_ranking`** sums units and revenue per (product id,
  product name). It sorts best sellers first, keeps the first `top_n` and
  numbers them from 1.
- **`create_avg_check_by_region`** sums lines to order totals and left-joins
  each order to the customer rows with its customer id. The region defaults
  to "Unknown". It then takes the mean order total and the number of distinct
  order ids per region, highest mean first.
- **`_read_csv`** reads a table, parsing its date column, and checks its
  columns against the required names. An absent date column fails the read
  itself, naming that column; otherwise an absent required column fails the
  check, with the sorted list of missing names.

Tables are sequences of datatypes. Nullable cells are `Option`s. Money is
`real`, and a date is year/month/day with a day number. The two cleaners are
methods. Each rebuilds its table stage by stage with `for` loops and is proved
equal to a stage-by-stage specification function. Each specification function
is in turn characterised by a reference description that does not use the
stages. The aggregators are pure functions over a generic `GroupBy` map, and
the column check is a pure function.

Modules and files:

| file | module | models |
|---|---|---|
| wrappers.dfy | Wrappers | `Option`, `Result` |
| dates.dfy | Dates | calendar dates, day numbers, strict "YYYY-MM-DD" text, the nanosecond timestamp range |
| strings.dfy | Strings | code-point string order of `sorted` and groupby's key order |
| sorting.dfy | Sorting | stable insertion sort over a total preorder; permutation facts |
| grouping.dfy | Grouping | `groupby`: groups, distinct keys, sums, `nunique`, mean |
| sales_cleaner.dfy | SalesCleaner | `transform_sales` |
| email.dfy | EmailPattern | the e-mail regular expression |
| customer_cleaner.dfy | CustomerCleaner | `transform_customers` |
| sales_summary.dfy | SalesSummary | `create_sales_summary` |
| product_ranking.dfy | ProductRanking | `create_product_ranking` |
| region_check.dfy | RegionCheck | `create_avg_check_by_region` |
| extract.dfy | Extract | required-column check, the two column lists |

The region join is modelled as written: an order gets one joined row for
every customer row with its id; customers are not deduplicated. Customer rows
with a repeated id therefore weight an order more than once in the mean. With
unique customer ids the join keeps the orders one for one, and
`RegionCheck.JoinUnique` proves this.

Dates are pandas nanosecond timestamps, which hold the midnights from
1677-09-22 to 2262-04-11. A date outside that range is coerced to a missing
value: the sales cleaner drops such a line and the customer cleaner leaves its
day count undefined, as for any date that does not parse. The
uncoerced month-start conversion of the sales summary fails instead. Its
one case reachable from cleaned lines is a sale in September 1677: the month
starts on the 1st, before the first timestamp, so the summary fails.
`SalesSummary.SummarizeCleanSales` states this.

A nanosecond timedelta holds at most 106,751 whole days, so two timestamps
can be too far apart to subtract. The customer cleaner subtracts every
registration date from the snapshot at once, and fails as a whole when one
difference does not fit. `CustomerCleaner.CleanCustomers` returns that
failure as `Err(TenureOverflow)`.

## Model

| member | source | states |
|---|---|---|
| SalesCleaner.TransformSales | etl/transform.py:14-52 | the stage-by-stage cleaner (parse and derive, drop repeats, drop incomplete lines, fill category) returns exactly `CleanSales(raw)` |
| SalesCleaner.EnrichAll | etl/transform.py:20-27 | one enriched line per input line; every line has total = quantity × unit price (missing if a factor is missing) and, when the date parsed, month = its "YYYY-MM" |
| SalesCleaner.DropDuplicates | etl/transform.py:30-35 | dropping repeated keys keeps the derived columns consistent with their sources |
| SalesCleaner.DropIncomplete | etl/transform.py:38-43 | every kept line has order id, customer id, order date, quantity and unit price |
| SalesCleaner.CleanSalesSurvivors | etl/transform.py:30-43 | the output is, in input order, exactly the lines that are the first of their (order_id, product_id, quantity, unit_price) key and have every critical field; repeats and incomplete lines are removed |
| SalesCleaner.SurvivorIndicesSpec | etl/transform.py:30-43 | the surviving positions are strictly increasing and in range, and a position survives iff its line is the first of its key and has every critical field |
| SalesCleaner.CleanSalesRows | etl/transform.py:20-49 | each output line copies its input's critical fields, has total = quantity × unit price and month = "YYYY-MM" of the order date, and has category "Unknown" exactly when its input had none (a present category is unchanged) |
| SalesCleaner.DroppedFirstTakesRepeats | etl/transform.py:30-43 | when the first line of a key is dropped for a missing field, no line with that key survives, because deduplication runs first |
| SalesCleaner.CleanSalesUniqueKeys | etl/transform.py:30-35 | no two output lines share the deduplication key |
| SalesCleaner.CleanSalesIdempotent | etl/transform.py:14-52 | cleaning the cleaner's output again returns it unchanged |
| SalesCleaner.ResubmitCleansToItself | etl/transform.py:14-52 | a well-formed cleaned line, written back as a raw line, passes the cleaner and comes back identical |
| SalesCleaner.FirstAndLastSurvive | etl/transform.py:30-43 | of four lines where the second repeats the first, the third is incomplete and the fourth is a new order, lines 1 and 4 survive |
| SalesCleaner.ExampleRawTable | tests/test_transform.py:12-55 | the test table meets the example's description |
| SalesCleaner.TransformSalesExample | tests/test_transform.py:57-66 | the test table cleans to two lines: order 1 with total 100.0 in "2024-01", order 3 with total 100.0 in category "Unknown" |
| CustomerCleaner.TransformCustomers | etl/transform.py:55-97 | the stage-by-stage cleaner returns exactly `CleanCustomers(raw, snapshot)`: the cleaned table, or the overflow error |
| CustomerCleaner.DropMissingIds | etl/transform.py:72-76 | every kept customer has an id |
| CustomerCleaner.DropMissingIdsFrom | etl/transform.py:72-76 | every kept customer is an input customer |
| CustomerCleaner.KeptIndicesMembers | etl/transform.py:72-76 | a position is kept iff its row has a customer id |
| CustomerCleaner.KeptIndicesRows | etl/transform.py:72-76 | the k-th kept row is the parsed input row at the k-th kept position |
| CustomerCleaner.CleanCustomersRows | etl/transform.py:63-94 | the cleaner fails iff some customer with an id has a parsed registration more than 106,751 days before or after the snapshot. Otherwise the output keeps exactly the rows with an id, in input order. Each keeps name, e-mail and parsed date; its e-mail flag is the pattern test; its region is the input region, or "Unknown" if it had none; and its days are snapshot minus registration, undefined when the date did not parse |
| CustomerCleaner.CustomerDaysSign | etl/transform.py:93-94 | the day count is positive, zero or negative as registration is before, on or after the snapshot |
| CustomerCleaner.CustomerDaysNextDay | etl/transform.py:93-94 | registering one day later shortens the count by one |
| CustomerCleaner.CustomerDaysExample | tests/test_transform.py:70-92 | registration "2024-01-01" against snapshot 2024-02-01 gives 31 days |
| CustomerCleaner.TransformCustomersExample | tests/test_transform.py:69-96 | the test table cleans without overflow and keeps both customers; C1 has 31 days and a valid address; C2 has an invalid address and region "Unknown" |
| CustomerCleaner.TenureOverflowExample | etl/transform.py:94 | registration "1700-01-01" lies 118,369 days before the snapshot 2024-02-01, so the cleaner fails |
| EmailPattern.IsValidEmail | etl/transform.py:79-81 | a missing address is invalid; a present one is valid iff it is address characters, '@', address characters, '.', word characters (a final newline allowed, as `$` allows) |
| EmailPattern.ScanWholeCorrect | etl/transform.py:79 | the scanning test agrees with the pattern's split definition, in both directions |
| EmailPattern.SplitValid | etl/transform.py:79-81 | a non-empty run of address characters, '@', a non-empty run of address characters, '.' and a non-empty run of word characters is valid, with or without a final newline |
| EmailPattern.ValidEmailExamples | etl/transform.py:79-81 | "a@b.com" is valid, and so is "a@b.com" followed by a newline |
| EmailPattern.ValidEmailExample | tests/test_transform.py:76 | "ivan@example.com" is valid |
| EmailPattern.NoAtInvalid | etl/transform.py:79-81 | an address without '@' is invalid, with or without a final newline |
| EmailPattern.NoDotInvalid | etl/transform.py:79-81 | an address without '.' is invalid, with or without a final newline |
| EmailPattern.InvalidEmailExamples | etl/transform.py:80-81 | "", a missing address (checked as "") and "a@b" are invalid |
| EmailPattern.NotAnEmailInvalid | etl/transform.py:79-81 | "not-an-email" is invalid |
| EmailPattern.InvalidEmailInvalid | tests/test_transform.py:83-94 | "invalid-email" is invalid |
| Dates.ParseDate | etl/transform.py:20 | a parsed date is a valid calendar date inside the timestamp range |
| Dates.ParsedDateText | etl/transform.py:20 | a parsed date, written back as "YYYY-MM-DD", is exactly the parsed text |
| Dates.ParseFormatDate | etl/transform.py:20 | formatting a valid date and parsing it back gives the same date inside the timestamp range, and a missing value outside it |
| Dates.OutOfRangeDates | etl/transform.py:20 | 1677-09-21, 2262-04-12 and 1500-01-01 parse to a missing value; 1677-09-22 and 2262-04-11 parse |
| Dates.ParseMonthStart | etl/transform.py:113 | a month's "YYYY-MM" followed by "-01" parses to the first day of that month, or fails when that day is outside the timestamp range |
| Dates.MonthStartInRange | etl/transform.py:113 | the first of the month of a date in the timestamp range is in the range, except in September 1677 |
| Dates.DayNumberOrder | etl/transform.py:94 | day numbers order dates as the calendar does, and equal day numbers mean equal dates |
| Dates.DayNumberNextDay | etl/transform.py:94 | the next day has the next day number |
| SalesSummary.SummaryKeys | etl/transform.py:102 | the (category, month) keys of the table, each once, in strictly ascending order |
| SalesSummary.AverageOrderValue | etl/transform.py:111-112 | total / count, and 0 when the count is 0 |
| SalesSummary.BuildRows | etl/transform.py:103-113 | the rows build iff every month plus "-01" is a date; otherwise the error names such a month |
| SalesSummary.SummarizeOk | etl/transform.py:113 | the summary fails exactly when some line's month plus "-01" is not a date |
| SalesSummary.SummarizeSpec | etl/transform.py:100-117 | one row per distinct (category, month), in ascending key order. Each row has total sales = Σ line totals, total quantity = Σ quantities, average × #distinct order ids = total sales, and period date = that month's first day |
| SalesSummary.SummarizeRowKeys | etl/transform.py:102-112 | the j-th row summarises the j-th key's group |
| SalesSummary.OrderCountPositive | etl/transform.py:108-111 | every group has at least one distinct order, so the zero-count default never applies to a real group |
| SalesSummary.SummarizeCleanSales | etl/transform.py:113 | on lines from the sales cleaner the summary fails iff some line is dated in September 1677; when it succeeds each period date is day 1 of the row's month |
| SalesSummary.SummarizeDatedLines | etl/transform.py:113 | on lines with a timestamp date and its "YYYY-MM" month, the same iff and the same period dates |
| SalesSummary.SummarizeExample | tests/test_transform.py:99-114 | the Tech row of the test data is 300.0 sales, 3 units, 300.0 per order, dated 2024-01-01 |
| SalesSummary.ExampleTechRow | tests/test_transform.py:110-114 | any row summarising a Tech group of the test data has those values |
| ProductRanking.ProductKeys | etl/transform.py:148 | the (product id, product name) pairs of lines that have both, each once, in ascending (id, name) order as groupby sorts them |
| ProductRanking.Totals | etl/transform.py:146-150 | one total per product, summing units and revenue over exactly that product's lines |
| ProductRanking.TotalsSpec | etl/transform.py:146-150 | every total belongs to a product of the table and sums its lines; every named product has a total; no product twice |
| ProductRanking.Head | etl/transform.py:153 | `head(n)`: the first min(n, len) rows, or all but the last -n for negative n |
| ProductRanking.SortedTotals | etl/transform.py:149-150 | the totals sorted by (total_sold, total_revenue) descending, a permutation of them |
| ProductRanking.SortedTotalsTies | etl/transform.py:148-150 | the sort is stable: products that tie on (total_sold, total_revenue) stay in ascending key order |
| ProductRanking.RankLength | etl/transform.py:153 | min(top_n, #products) rows for a non-negative top_n; max(0, #products + top_n) otherwise |
| ProductRanking.RankDefaultLength | etl/transform.py:145-153 | without a `top_n` (default 5) the ranking has min(5, #products) rows |
| ProductRanking.RankRows | etl/transform.py:148-154 | ranks are 1..k in output order; rows are non-increasing in (total_sold, total_revenue), tied rows in ascending key order; each row is one product's totals, none twice |
| ProductRanking.RankTopN | etl/transform.py:148-153 | every product left out ranks no higher than any product shown, and one that ties with a shown product comes later in key order |
| ProductRanking.RankFirst | etl/transform.py:148-154 | the first row of a non-empty ranking ranks at least as high as every product, and comes first in key order among those it ties with |
| ProductRanking.RankTieExample | etl/transform.py:148-153 | lines of P2 and then P1, each 5 units for 10.0: with top_n = 1 the ranking keeps P1 |
| ProductRanking.RankProductsExample | tests/test_transform.py:117-130 | for the test data with top_n = 2: two rows, P3 first, ranks 1 and 2 |
| RegionCheck.OrderTotals | etl/transform.py:122-126 | one total per (order id, customer id), summing the line totals of that pair |
| RegionCheck.OrderTotalsSums | etl/transform.py:122-126 | every order total belongs to a pair of the table and is the sum over its lines |
| RegionCheck.OrderTotalsCover | etl/transform.py:122-126 | every pair of the table has a total |
| RegionCheck.DistinctOrderTotals | etl/transform.py:122-126 | no two totals share a pair |
| RegionCheck.JoinOne | etl/transform.py:128-133 | an order has max(1, #matching customer rows) joined rows, each carrying the order |
| RegionCheck.JoinOneSpec | etl/transform.py:128-133 | with no matching customer, the only joined row is in "Unknown". Otherwise there is one row per matching customer row, in table order, the i-th carrying the i-th match's region, or "Unknown" if it has none; so each region appears as often as its matches. Every region comes from a matching customer or is "Unknown" |
| RegionCheck.JoinRowsOfOrder | etl/transform.py:128-132 | inside the whole join, the rows of an order are exactly its own joined rows, in customer order |
| RegionCheck.JoinOrders | etl/transform.py:128-132 | the join drops no order and invents none |
| RegionCheck.JoinUnique | etl/transform.py:128-132 | with unique customer ids the join has one row per order, in order |
| RegionCheck.JoinUniqueRegion | etl/transform.py:128-133 | with unique customer ids an order's row has its customer's region, and "Unknown" when there is no customer or no region |
| RegionCheck.AvgCheckByRegion | etl/transform.py:135-139 | the region rows sorted by avg_check descending, a permutation of them |
| RegionCheck.AvgCheckRows | etl/transform.py:135-138 | each row's avg_check is the mean order total of its region, and orders_count is the number of distinct order ids there |
| RegionCheck.AvgCheckCovers | etl/transform.py:135-138 | every region of the joined table has a row |
| RegionCheck.AvgCheckRegionsDistinct | etl/transform.py:135-138 | no region has two rows |
| RegionCheck.UnmatchedOrderIsUnknown | etl/transform.py:128-133 | an order no customer matches is not dropped: it counts in the "Unknown" group, which has a row |
| RegionCheck.RegionlessMatchIsUnknown | etl/transform.py:128-133 | an order whose matching customer lacks a region counts in "Unknown" too |
| Extract.MissingColumns | etl/extract.py:54 | exactly the required names that are absent, each once, in strictly ascending order |
| Extract.CheckRequiredColumns | etl/extract.py:53-61 | fails iff a list is given and some required name is absent; the error is the sorted missing list, never empty; no list or an empty list always passes |
| Extract.ReadHeader | etl/extract.py:42-61 | the read fails iff a date column or a required name is absent; an absent date column fails first, naming the absent date columns sorted; otherwise the error is the check's sorted missing list |
| Extract.ReadSalesColumns | etl/extract.py:67-73 | the sales read fails iff one of the 8 sales columns is absent; without `order_date` it fails naming only `order_date`; otherwise it names exactly the absent columns |
| Extract.ReadCustomersColumns | etl/extract.py:76-82 | the customers read fails iff one of the 5 customer columns is absent; without `registration_date` it fails naming only `registration_date`; otherwise it names exactly the absent columns |
| Extract.RequiredColumnsDistinct | etl/extract.py:13-30 | 8 distinct sales columns and 5 distinct customer columns |
| Extract.ExtraColumnsHarmless | etl/extract.py:53-61 | extra columns never cause an error and never add a missing name |
| Extract.ReadSalesColumnsAccepts | etl/extract.py:67-73 | a header with all sales columns, in any order and with extras, passes |
| Extract.ReadSalesColumnsExample | etl/extract.py:54-61 | a sales header lacking only `category` and `order_id` fails the column check with ["category", "order_id"] |

## Left out

- File reading (`pd.read_csv`, the parsing of the date columns' values, and the FileNotFound, EmptyData and other read errors): this is file I/O. The model works on the header's column names alone; of `read_csv`'s own errors it models only the one for an absent `parse_dates` column.
- The error message texts of the read and of the column check: only the names they list are modelled.
- `etl/load.py`, `main.py` and `config.py`: these are a database client, orchestration with logging and retry sleeps, and environment configuration. They are not part of this model.
- Logging and the warning counts: these are observational only. Branches that only guard a warning (`if duplicates_count:` and the like) are modelled by their effect, which does not depend on the guard.
- Dates.ParseDate: pandas `to_datetime(errors="coerce")` also accepts other formats and times of day. The model accepts exactly "YYYY-MM-DD" with a real calendar day whose midnight is a nanosecond timestamp (1677-09-22 to 2262-04-11), and anything else is missing. A pandas version that parses strings to a coarser resolution accepts a wider range; the model follows the nanosecond default.
- SalesCleaner.Enrich: for an unparsed date pandas writes the text "NaT" as the month. The model leaves the month missing. Such a line is always dropped before output, so the result is the same.
- CustomerCleaner.CleanCustomers: `Timestamp.today()` as the default snapshot is left out. The snapshot date is a required parameter.
- EmailPattern.IsValidEmail: `\w` is taken as ASCII letters, digits and `_`. Python's `\w` also matches other Unicode letters and digits. The `$`-before-final-newline behaviour is modelled.
- Money is `real`, not floating point: sums and means are exact, with no rounding.
- RegionCheck.OrderTotals and RegionCheck.AvgCheckByRegion: their groups are kept in order of first appearance, where pandas sorts the group keys. The order of the order totals does not reach the output, since each region's mean and count ignore it. The order of the regions shows only among regions that tie on avg_check, and pandas' single-column sort is not stable, so it leaves those in no fixed order anyway. The model sorts stably, and its contracts state only the order avg_check fixes. The sales summary and the product ranking build their groups in sorted key order, as pandas does.
- ProductRanking.ProductKeyOf: lines with a missing product id or name are dropped by `groupby` (its default `dropna`). The model does the same.
- The aggregators take the cleaned sales type, where order id, customer id, quantity, unit price, date, category and month are present. These are the tables the pipeline passes them.
- The region join reads only customer_id and region. A customer row without an id matches no order, because order lines always have a customer id after cleaning.
