# Food-truck sales ETL, dashboard and daily report — a Dafny model

The system moves food-truck sales through a small pipeline and reports on them.

- **Cleaner** (`pipeline/transform.py`): it takes raw transaction rows and
  - trims the text fields;
  - treats `VOID` totals as missing;
  - keeps rows with a positive total, a parseable timestamp, a card-reader flag of 0 or 1, a hygiene rating in 0..5 and a payment method of `cash` or `card`;
  - drops repeated transaction ids, keeping the first;
  - casts the id and integer columns to nullable 64-bit integers.

  From the cleaned rows it derives the truck and payment-method dimension tables, one row per key, first occurrence wins.
- **Loader** (`pipeline/load.py`): it lays the tables out as a data lake. Transactions are split into `year=YYYY/month=MM/day=DD/hour=HH` chunks. Every regular file is then uploaded under `prefix/<relative path>`.
- **Dashboard** (`dashboard/`):
  - cleans the queried rows: pence become pounds, labels are trimmed and lower-cased, unusable rows are dropped;
  - filters them by payment method and truck;
  - computes KPIs, a daily or hourly trend, per-truck performance and the payment mix;
  - sorts the trucks and names highlights;
  - flags the bottom-quartile-revenue and top-quartile-cash trucks.
- **Daily report** (`pipeline/daily_report.py`):
  - validates its configuration and resolves the report date;
  - post-processes the by-truck and payment-method query results into metrics;
  - renders an HTML page in which every value taken from the data is escaped.

The model has one module per concern, all in plain Dafny:

| module | contents |
|---|---|
| `Wrappers` | `Option` and `Result` |
| `Seqs` | map, filter, first-wins dedup, order of first appearance, sums, with their laws |
| `Sorting` | a stable insertion sort by a total preorder; a sorted-distinct insert by a strict order |
| `Text` | strip, case, decimal digits, zero padding, thousands grouping, `£` amounts, HTML escaping, split/join |
| `Calendar` | proleptic Gregorian dates, previous/next day, ISO 8601 dates and timestamps |
| `Cells` | the dynamic cell of a data frame, with `to_numeric`, `to_datetime` and the `Int64` cast |

The modules that follow the source files are `Transform`, `Load`, `DashTransforms`, `Metrics`, `DailyReport` and `Dashboard`.

The form follows the source:

- Column-by-column rewriting loops are methods with loop invariants. These are `clean_transactions`, the partition writer, the uploader, the `pm_counts` dictionary and the HTML row loop.
- The dashboard script has no loop. It is a method whose ensures give each view field in terms of the reference functions.
- Each such method is proved equal to a reference function, and the properties are proved as lemmas about that function.
- Expression-only code is functions.

Money in the report is whole pence (`int`). Dashboard totals are exact `real` pounds. Clocks, environment variables, the Lambda event and query results are parameters.

Where the documented behaviour and the code differ, the model follows the code:

- **Cash share.** `cash_share` (metrics.py:50-51, app.py:105) is `eq("cash").mean()` over a pandas `string` column. That skips missing methods, so the denominator is the number of rows with a recorded method, not the row count. `float()` of the mean raises when no row has a method. The model returns `None` in that case (`Metrics.CashShare`, `Dashboard.KpisOf`).
- **Dedup order.** Deduplication by transaction id (transform.py:41-42) runs after the filters and before the `Int64` cast.
  - Of two rows with one id, the first that *passes the filters* survives.
  - Raw ids `"7"` and `7` are different keys at that point, so both survive.
  - Uniqueness of the cast ids is therefore proved under the hypothesis that the raw ids are numbers or missing (`Transform.CleanIdsDistinct`).

## Model

| member | source | states |
|---|---|---|
| Text.StripSpec | pipeline/transform.py:10-14 | `str.strip()` removes exactly a leading and a trailing run of whitespace and keeps the middle of the string |
| Text.StripEnds | pipeline/transform.py:10-14 | a stripped string is empty or begins and ends with a non-space |
| Text.StripIdempotent | pipeline/transform.py:10-14 | stripping a stripped string changes nothing |
| Text.LowerIdempotent | pipeline/transform.py:36-38 | lower-casing twice is lower-casing once |
| Text.LowerKeepsStripped | dashboard/dashboard_core/transforms.py:13-14 | lower-casing a trimmed label leaves it trimmed |
| Text.NatToStringSpec | pipeline/daily_report.py:88-90 | a number's decimal form is all digits, reads back as the number, has no leading zero unless it is 0, and is one digit exactly below 10 |
| Text.NatToStringInjective | pipeline/daily_report.py:88-90 | different numbers have different decimal forms |
| Text.Group3Shape | pipeline/daily_report.py:88-90 | thousands grouping puts a comma at every fourth place from the right and digits everywhere else |
| Text.FmtIntRoundTrip | pipeline/daily_report.py:88-90 | `f"{v:,}"` parses back to `v`, and deleting its commas gives the sign and the plain decimal form |
| Text.ParsePenceRoundTrip | pipeline/daily_report.py:83-85 | grouped pounds, a point and exactly two pence digits read back as the amount in pence |
| Text.FmtGbpRoundTrip | pipeline/daily_report.py:83-85 | `fmt_gbp` begins with `£` and reads back to the exact amount in pence, negative amounts included |
| Text.ZeroPadSpec | pipeline/load.py:28-30 | `f"{x:02d}"` of a value below 100 is exactly two digits whose value is `x` |
| Text.ZeroPadOfDigits | pipeline/load.py:28-30 | a digit string is the zero-padding of its own value to its own width, so the padding is onto |
| Text.HtmlEscapeNoMarkup | pipeline/daily_report.py:269-273 | `html.escape` output contains no `<`, `>`, `"` or `'` |
| Text.HtmlEscapeRoundTrip | pipeline/daily_report.py:269-273 | unescaping escaped text gives the text back, so escaping loses nothing |
| Text.SplitJoin | pipeline/load.py:67 | joining path parts that contain no `/` with `/` and splitting again gives the parts back |
| Text.JoinInjective | pipeline/load.py:67 | different relative paths give different `as_posix()` strings |
| Calendar.PreviousDay | pipeline/daily_report.py:50-53 | the day before a valid date is a valid date; there is none exactly for 0001-01-01, where Python overflows |
| Calendar.NextDay | pipeline/daily_report.py:50-53 | the day after a valid date is valid; there is none exactly for 9999-12-31 |
| Calendar.PreviousNextInverse | pipeline/daily_report.py:50-53 | previous and next day undo each other wherever they are defined |
| Calendar.PreviousDayCount | pipeline/daily_report.py:50-53 | the previous day is exactly one day earlier in the day count, across month and year ends and leap days |
| Calendar.PreviousDayEarlier | pipeline/daily_report.py:50-53 | the previous day sorts strictly before the date |
| Calendar.ParseDate | pipeline/daily_report.py:61-63 | `date.fromisoformat` accepts only real calendar dates |
| Calendar.ParseFormatDate | pipeline/daily_report.py:63 | the ISO form of a date parses back to it |
| Calendar.FormatParseDate | pipeline/daily_report.py:63 | an accepted `YYYY-MM-DD` string is the ISO form of the date it denotes |
| Calendar.ParseDateTime | pipeline/transform.py:23-24 | a parsed timestamp is a valid date with a valid time of day |
| Calendar.ParseJoinedDateTime | pipeline/transform.py:23-24 | a date and a time joined by a space or a `T` parse back to that instant |
| Calendar.ParseFormatDateTime | pipeline/transform.py:23-24 | the ISO form of a timestamp parses back to it |
| Calendar.FormatUtcParses | pipeline/daily_report.py:208-209 | the generation time is 20 characters ending in `Z`, and the rest parses back to the instant |
| Calendar.DateTimeLessIsStrictTotal | dashboard/dashboard_core/metrics.py:28 | chronological order of timestamps is a strict total order |
| Cells.ToNumeric | pipeline/transform.py:19 | `to_numeric(errors="coerce")` yields a number or a null, keeps numbers and keeps nulls |
| Cells.ToNumericIdempotent | pipeline/transform.py:28-29 | coercing a coerced cell again changes nothing |
| Cells.ToDateTime | pipeline/transform.py:23 | `to_datetime(errors="coerce")` yields a timestamp or a null, every timestamp within the range a pandas `Timestamp` can hold; it keeps exactly the input timestamps in that range and parses text only to valid instants |
| Cells.StampRangeEdges | pipeline/transform.py:23 | the range runs from 1677-09-21 00:12:44 to 2262-04-11 23:47:16, one second beyond either end (and years such as 1500 or 2300) being out |
| Cells.IntValue | pipeline/transform.py:49 | the `Int64` cast maps a null to NA and an integral number to that integer |
| Cells.IntCellRoundTrip | pipeline/transform.py:49 | an `Int64` value stored back into a cell casts to itself |
| Cells.IntValueInjective | pipeline/transform.py:49 | different integral numbers cast to different integers |
| Sorting.SortBySpec | pipeline/daily_report.py:167-168 | sorting by a total preorder gives a sorted permutation of the input |
| Sorting.SortedDistinctSpec | dashboard/app.py:83 | `sorted(...unique())` is strictly increasing and has exactly the input's values |
| Seqs.DedupKeysDistinct | pipeline/transform.py:41-42 | keep-first dedup leaves each key once, and only rows of the input |
| Seqs.DedupKeepsFirst | pipeline/transform.py:41-42 | each kept row is the first input row with its key |
| Seqs.DedupKeysCovered | pipeline/transform.py:41-42 | every key of the input is still present after dedup |
| Seqs.DedupSubseq | pipeline/transform.py:41-42 | dedup keeps input order |
| Seqs.SumPermutation | dashboard/app.py:119-124 | reordering rows does not change a column sum |
| Transform.StripTextColumns | pipeline/transform.py:10-14 | the loop over the text columns trims exactly the columns the frame has |
| Transform.CleanRows | pipeline/transform.py:16-42 | the filter-and-rebind steps leave the prepared survivors of all filters and of the dedup |
| Transform.CastIntColumns | pipeline/transform.py:44-54 | the `Int64` cast loop fails on the first column holding a non-integral value and otherwise yields the typed rows |
| Transform.CleanTransactions | pipeline/transform.py:6-63 | the whole method computes the reference cleaning `Clean` of the frame |
| Transform.KeptIff | pipeline/transform.py:17-38 | a raw row survives the filters exactly when its total is a positive number after `VOID` handling, its timestamp parses, its flag is 0 or 1, its rating is in 0..5 and its method trims and lower-cases to `cash` or `card`, each condition applying only when its column exists |
| Transform.VoidTotalDropped | pipeline/transform.py:17-20 | a total reading `VOID` in any case and with any padding is dropped |
| Transform.TypedRow | pipeline/transform.py:17-54 | a surviving row keeps its coerced total and timestamp and meets every output invariant |
| Transform.SurvivorsSpec | pipeline/transform.py:20-42 | the survivors are an order-preserving subsequence of the input; each passed the filters and is the first filtered row with its id; every id that passes the filters survives once |
| Transform.CleanOutput | pipeline/transform.py:6-63 | a successful clean keeps the columns, has at most as many rows as the input, and every row has a positive total, an in-range timestamp, a trimmed text, a `cash`/`card` method, a 0..5 rating and a flag |
| Transform.CleanCastsSucceeded | pipeline/transform.py:47-49 | when cleaning succeeds, no integer column held a non-integral value |
| Transform.CleanIdsDistinct | pipeline/transform.py:41-49 | the output transaction ids are pairwise distinct when the raw ids are numbers or missing |
| Transform.CleanEmbedded | pipeline/transform.py:6-63 | every cleaned record set, fed back in, cleans to itself |
| Transform.CleanIdempotent | pipeline/transform.py:6-63 | cleaning the output of a clean gives the same result |
| Transform.FirstPerKeySpec | pipeline/transform.py:66-98 | dedup on a key then dropping null keys gives distinct keys, each from its first row, and exactly the input's non-null keys |
| Transform.TruckDimsSpec | pipeline/transform.py:66-84 | the truck table has one row per truck id of the transactions, no id twice, each built from that truck's first transaction with trimmed texts |
| Transform.PaymentMethodDimsSpec | pipeline/transform.py:87-98 | the payment-method table has one row per id, no id twice, each from the first transaction, with the method trimmed and lower-cased |
| Load.PartitionOfSpec | pipeline/load.py:27-30 | the year key is the year's decimal form without a leading zero; month, day and hour are exactly two digits whose value is the field |
| Load.PartitionOfSameHour | pipeline/load.py:27-32 | two timestamps share a partition exactly when they share date and hour |
| Load.PartitionDirsInjective | pipeline/load.py:33-34 | different partitions give different directory paths |
| Load.PartitionExample | pipeline/load.py:33-34 | 2024-03-05 14:30 goes to `year=2024/month=03/day=05/hour=14` |
| Load.WriteTimePartitioned | pipeline/load.py:14-38 | the loop over the `groupby` chunks writes exactly the reference list of chunk files |
| Load.ReadyRow | pipeline/load.py:23-25 | a row that reaches grouping has a parsed timestamp and is an input row with only that column converted |
| Load.PartitionedRowsPlaced | pipeline/load.py:32-38 | every written row sits in the file of its own hour and comes from the input, with no helper columns |
| Load.PartitionedPathsDistinct | pipeline/load.py:32-34 | no two chunk files share a path, so the chunks are disjoint |
| Load.PartitionedRowsCovered | pipeline/load.py:24-38 | every row with a parseable timestamp is written, and the chunk sizes add up to exactly those rows |
| Load.WriteDataLakeStructure | pipeline/load.py:41-56 | the lake writer returns the base directory and writes exactly the reference path list |
| Load.LakeLayout | pipeline/load.py:50-54 | the lake holds `truck/truck.parquet`, `payment_method/payment_method.parquet` and one `transaction/<partition>/transaction.parquet` per chunk, all different |
| Load.UploadDirectory | pipeline/load.py:59-69 | the upload loop sends exactly the regular files, in listing order, each to its key |
| Load.ObjectKeyRoundTrip | pipeline/load.py:67 | an object key is the prefix, a `/`, and a path that splits back to the file's relative path |
| Load.UploadsSpec | pipeline/load.py:65-68 | every upload goes to the bucket; every regular file is uploaded; every upload comes from a regular file; different files get different keys |
| DashTransforms.CleanBase | dashboard/dashboard_core/transforms.py:6-20 | cleaning never adds rows |
| DashTransforms.CleanBaseRows | dashboard/dashboard_core/transforms.py:6-20 | the output rows are exactly the cleaned usable input rows, each total being the raw pence over 100 |
| DashTransforms.CleanBaseValid | dashboard/dashboard_core/transforms.py:11-19 | every kept row has a positive total, a trimmed truck name, and a trimmed lower-case method when it has one |
| DashTransforms.ApplyFiltersSpec | dashboard/dashboard_core/transforms.py:23-35 | the filters keep, in order, exactly the rows whose method is selected (or no method filter) and whose truck is selected (or no truck filter) |
| DashTransforms.ApplyFiltersNone | dashboard/dashboard_core/transforms.py:30-35 | empty filters return the input unchanged |
| DashTransforms.ApplyFiltersIdempotent | dashboard/dashboard_core/transforms.py:23-35 | filtering twice with the same filters equals filtering once |
| Metrics.NUniqueCounts | dashboard/dashboard_core/metrics.py:25 | `nunique` is the number of distinct non-null values |
| Metrics.IdCountBounds | dashboard/dashboard_core/metrics.py:25 | a group's distinct-id count is at most its row count and at least 1 when some id is present |
| Metrics.MeanTotal | dashboard/dashboard_core/metrics.py:26 | the mean times the row count is the sum of totals |
| Metrics.TrendBuckets | dashboard/dashboard_core/metrics.py:20-38 | the trend has one row per distinct bucket (day, or hour for any other grain), strictly chronological |
| Metrics.TrendRows | dashboard/dashboard_core/metrics.py:20-38 | each trend row's revenue and mean are those of its bucket's rows, and its transaction count is the number of distinct non-null ids among them (between 1, when an id is present, and the row count) |
| Metrics.TrendRevenue | dashboard/dashboard_core/metrics.py:20-38 | bucket revenues add up to the total revenue |
| Metrics.CashShareDefined | dashboard/dashboard_core/metrics.py:50-51 | a cash share exists exactly when some row records a method |
| Metrics.CashShareBounds | dashboard/dashboard_core/metrics.py:50-51 | a cash share lies in [0, 1] |
| Metrics.CashShareExtremes | dashboard/dashboard_core/metrics.py:50-51 | the share is 1 when every row paid cash and 0 when none did |
| Metrics.CashShareComplete | dashboard/dashboard_core/metrics.py:50-51 | with every method recorded, the share is cash rows over all rows |
| Metrics.TruckPerfDefined | dashboard/dashboard_core/metrics.py:41-53 | the per-truck table exists exactly when every truck has a recorded method |
| Metrics.TruckPerfNames | dashboard/dashboard_core/metrics.py:45 | one row per distinct truck name, in name order |
| Metrics.TruckPerfRows | dashboard/dashboard_core/metrics.py:45-51 | each truck row's revenue, mean and cash share are those of its rows, and its transaction count is the number of distinct non-null ids among them (between 1, when an id is present, and the row count) |
| Metrics.TruckPerfRevenue | dashboard/dashboard_core/metrics.py:45-47 | per-truck revenues add up to the total revenue |
| Metrics.MethodCountsFacts | dashboard/dashboard_core/metrics.py:59-63 | one count per method value in order of first appearance, each positive and equal to that value's row count |
| Metrics.PaymentMixOrder | dashboard/dashboard_core/metrics.py:59-63 | `value_counts` is a permutation of the counts, sorted by count descending |
| Metrics.PaymentMixKeys | dashboard/dashboard_core/metrics.py:59-65 | the mix has each method value of the rows, null included, exactly once |
| Metrics.PaymentMixTotal | dashboard/dashboard_core/metrics.py:59-65 | the counts, with null relabelled `unknown`, add up to the number of rows |
| DailyReport.LoadConfig | pipeline/daily_report.py:25-47 | the configuration exists exactly when database and output location are both set and non-empty; otherwise the first missing one is the error |
| DailyReport.LoadConfigDefaults | pipeline/daily_report.py:27-31 | region defaults to `eu-west-2` and the tables to `transaction`, `truck`, `payment_method` |
| DailyReport.ReportDateRoundTrip | pipeline/daily_report.py:56-64 | an event carrying a date's ISO form reports that date |
| DailyReport.ReportDateCanonical | pipeline/daily_report.py:61-63 | a requested date that is accepted is a valid date whose ISO form is the request |
| DailyReport.ReportDateDefault | pipeline/daily_report.py:50-64 | without a truthy request the report is for exactly the day before today, failing only on 0001-01-01 |
| DailyReport.Truncate | pipeline/daily_report.py:151-153 | `astype(int)` truncates toward zero |
| DailyReport.RoundHalfEven | pipeline/daily_report.py:80 | rounding to whole pence is within half a penny, ties go to even, whole amounts are unchanged |
| DailyReport.ByTruckSpec | pipeline/daily_report.py:150-168 | the by-truck table is a permutation of the cast query rows, sorted by revenue then transactions descending, with amounts rounded to whole pence |
| DailyReport.TableEnds | pipeline/daily_report.py:203-204 | in the sorted table the first row has the most revenue (and most transactions among equals), the last the least revenue |
| DailyReport.TopByTransactions | pipeline/daily_report.py:205-206 | the re-sorted first row is a truck with the most transactions |
| DailyReport.HighlightsSpec | pipeline/daily_report.py:198-206 | the three highlights are absent exactly for an empty table; otherwise each is a row of the table with the extreme it claims |
| DailyReport.PaymentCountsSpec | pipeline/daily_report.py:184-190 | the dictionary has exactly the labels of the rows, each with the count of the last row carrying it |
| DailyReport.CountPayments | pipeline/daily_report.py:184-190 | the dictionary-building loop computes the reference dictionary |
| DailyReport.SharesExact | pipeline/daily_report.py:192-196 | each share is its count divided by `max(n_tx, 1)`, never by zero |
| DailyReport.SharesEmpty | pipeline/daily_report.py:192-196 | with no payment rows both shares are 0 |
| DailyReport.SharesBounded | pipeline/daily_report.py:192-196 | when cash and card counts fit in the transaction count, both shares are non-negative and add up to at most 1 |
| DailyReport.BuildMetrics | pipeline/daily_report.py:150-243 | the metrics carry the ISO report date, the UTC generation time, the rounded overall figures, the sorted table, the payment shares and the highlights of that table |
| DailyReport.DfToHtmlTable | pipeline/daily_report.py:246-283 | the row loop builds the reference table markup |
| DailyReport.CellSpec | pipeline/daily_report.py:269-273 | a cell has exactly its two tags and its content unescapes to the value |
| DailyReport.RowTags | pipeline/daily_report.py:270-274 | each truck row has one `<tr>` and four `<td>` cells, ten tags in all, whatever its data |
| DailyReport.BodyTags | pipeline/daily_report.py:270-274 | the body has ten tags per truck row |
| DailyReport.TableTags | pipeline/daily_report.py:246-283 | tables of equally many rows have the same markup, and the fixed paragraph appears exactly for no rows |
| DailyReport.TableGrowth | pipeline/daily_report.py:270-274 | one more truck adds exactly ten tags |
| DailyReport.FormattedNoLt | pipeline/daily_report.py:83-90 | formatted counts and amounts contain no `<` |
| DailyReport.HighlightTextNoLt | pipeline/daily_report.py:302-309 | a highlight's text, or `n/a`, contains no `<` |
| DailyReport.HighlightLineTags | pipeline/daily_report.py:302-309 | every highlight line carries the same markup whatever the caption and truck |
| DailyReport.RenderHeadTags | pipeline/daily_report.py:318-366 | title, heading and timestamp line carry the same markup whatever the report date and generation time |
| Dashboard.DateRange | dashboard/app.py:38-41 | a single date is both ends; a picked tuple is unpacked and fails unless it has two dates |
| Dashboard.TruckOptionsSpec | dashboard/app.py:79-83 | options are strictly sorted, distinct, and exactly the names of rows passing the payment filter (all rows when it is empty) |
| Dashboard.DefaultSelectionKeepsAll | dashboard/app.py:85-95 | selecting every offered truck removes nothing beyond the payment filter |
| Dashboard.KpisOf | dashboard/app.py:102-105 | the KPIs exist exactly when some row records a method, and are the revenue sum, the number of distinct non-null ids (between 1, when an id is present, and the row count), the mean total and the cash share in [0, 1] |
| Dashboard.PerfGivesKpis | dashboard/app.py:97-116 | whenever the per-truck table exists for non-empty rows, the KPIs exist too |
| Dashboard.PerfNonEmpty | dashboard/app.py:97-116 | non-empty rows give a non-empty per-truck table |
| Dashboard.OrdersArePreorders | dashboard/app.py:119-131 | the sort keys are total preorders |
| Dashboard.HighlightsSpec | dashboard/app.py:126-131 | the highlights name trucks of the table with the most transactions, the most revenue and the least revenue |
| Dashboard.Position | dashboard/app.py:178-179 | the interpolation position `q * (n - 1)` lies within the sorted values |
| Dashboard.Quantile | dashboard/app.py:178-179 | a quantile exists exactly for a non-empty series |
| Dashboard.QuantileBounds | dashboard/app.py:178-179 | a quantile lies between two values of the series |
| Dashboard.LowestRevenueFlagged | dashboard/app.py:178-183 | the lowest-revenue truck is always flagged underperforming |
| Dashboard.HighestCashFlagged | dashboard/app.py:179-186 | the highest-cash-share truck is always flagged as cash-reliant |
| Dashboard.QuartileExample | dashboard/app.py:178-183 | revenues 10, 20, 30, 40 give a 25th percentile of 17.5 and flag only the first truck |
| Dashboard.RunDashboard | dashboard/app.py:79-186 | the script offers the truck options, stops exactly when no row passes the filters, fails exactly when a truck's cash share is missing, and otherwise shows the KPIs, trend, mix, the table sorted by the chosen metric, its highlights and both flag lists |
| Dashboard.RevenueAgrees | dashboard/app.py:102-124 | the sorted per-truck revenues add up to the revenue KPI |

## Left out

- Input and output: S3, Athena and MySQL are not part of this model. Neither are `mkdir`, `to_parquet`, `rglob`, `upload_file`, `print`, the boto3 session and the Lambda context.
  - Query results, the environment, the event and today's date are parameters.
  - Directory listings are sequences of entries in listing order.
- The SQL text of the report and the dashboard queries (`pipeline/daily_report.py`, `dashboard/dashboard_core/queries.py`), `pipeline/extract.py`, `pipeline/main.py`, configuration and clients: they run in a foreign engine or only wire calls together.
- `lambda_handler` (pipeline/daily_report.py:413-425): it only chains `LoadConfig`, `ParseReportDate`, `BuildMetrics` and `RenderReport` and returns their fields.
- Streamlit widgets, `st.stop`, error banners, caching decorators, charts and styles. Caching does not change results, so it is ignored.
- Floating point: values are exact reals or whole pence, not IEEE doubles.
  - `currency`, `safe_pct`, the `.1f` percentages of the payment mix (daily_report.py:395-396) and the dashboard's display rounding (app.py:169-174) are not modelled.
- DailyReport.RoundHalfEven: rounds the exact value to whole pence. Python's `round(x / 100, 2)` rounds the nearest binary double, which can differ on ties.
- The overall query's values: the count, sum and average (daily_report.py:119-126) are inputs after the `or 0` defaults. A NaN, which `or` lets through and `int()` rejects, is not modelled.
- The summary cards, page CSS and fixed text of `render_html_report`: only the data-carrying lines are modelled.
- DailyReport.RenderHeadTags, DailyReport.TableTags and DailyReport.HighlightLineTags: they state that the markup does not depend on the data. They do not give the exact page.
- Column order of the cleaned frame (transform.py:56-61): rows are records with named fields, so order has no meaning here. Columns outside the ten known ones (which the source keeps after them) are not modelled: a raw row is a fixed record of those ten columns, each possibly absent.
- Cells.ToNumeric: only decimal text with an optional `-` or `+` sign parses. Forms pandas also accepts, such as exponents, `inf` and `nan`, become null in the model. A cell has no boolean variant: a Python `bool` in `has_card_reader` is represented as `Num(0.0)` or `Num(1.0)`, which is what `to_numeric` makes of it.
- Calendar.ParseDate: only `YYYY-MM-DD` is accepted, as `date.fromisoformat` does up to Python 3.10. Python 3.11 and later also accept forms such as `20240305` and ISO week dates, so DailyReport.ParseReportDate and DailyReport.ReportDateCanonical hold as stated only for Python 3.10 and earlier.
- Text.Lower / Text.Upper: case mapping covers ASCII `A`-`Z` only, whereas pandas' `str.lower()` and `str.upper()` map every Unicode letter. So "lower-case" in DashTransforms.CleanBase, DashTransforms.CleanBaseValid and Transform.PaymentMethodDimsSpec means ASCII lower-case, and Metrics.PaymentMix can keep labels such as `Éft` and `éft` apart where the source merges them. The `VOID` test of Transform.Clean misses the rare spellings that only Unicode upper-casing turns into `VOID` (a dotless `ı`, for one). The cash/card filters are unaffected: a string that Unicode lower-casing maps to `cash` or `card` but ASCII lower-casing does not would need a non-ASCII letter whose lower case is ASCII, and the Kelvin sign `K` is the only such letter, which neither word contains.
- Cells.ToDateTime: only ISO 8601 text parses: `YYYY-MM-DD HH:MM:SS`, the same with `T`, or a bare `YYYY-MM-DD`, read as midnight. Each cell is parsed on its own, as pandas 1.x does. pandas 2 infers one format from a column's first non-null value and, with `errors="coerce"`, turns values in the other ISO form into NaT. So under pandas 2 a column mixing `2024-03-05` and `2024-03-05 14:30:00` loses rows the model keeps (transform.py:23, dashboard_core/transforms.py:15-16, load.py:24). Time zones, fractions of a second and other formats pandas accepts become null. A numeric `at`, which pandas reads as nanoseconds since the epoch, also becomes null here, so Transform.Clean drops such rows where the source keeps them.
- Cells.IntValue: values beyond the 64-bit range are not rejected as the `Int64` cast would.
- DailyReport.ByTruckSpec, Dashboard.RunDashboard and Metrics.PaymentMixOrder: `sort_values` and `value_counts` do not promise an order among equal keys. These contracts therefore state sortedness, permutation and the extremes, not a tie order.
- Transform.CleanIdsDistinct: distinctness is proved only when raw ids are numbers or missing. Dedup runs before the cast, so raw `"7"` and `7` both survive and both become 7.
