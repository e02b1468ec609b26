# Coffee-shop retail pipeline, modelled in Dafny

The repository cleans three years of raw point-of-sale exports of a chain of
coffee shops. It separates business (B2B) customers from retail (B2C)
customers and numbers the orders of each. It totals every order and every
customer. For the retail side it builds a recency/frequency/monetary (RFM)
table and labels every customer with a marketing segment. Three scripts do
the work:

- `clean.py` (polars): builds the sales table and splits it into B2B and B2C
  sales. For each side it re-identifies the orders and computes the totals
  by order and by customer. It also cleans the customer, employee, store
  and product tables.
- `query.py` (polars): builds the RFM table from the B2C totals and lines.
- `segment.py` (pandas): scores recency, frequency and monetary into
  quintiles with `qcut`. It forms the two-digit R/F code, maps the code to
  a segment through a table of regular expressions, and counts the
  customers of each segment.

The model follows the scripts stage by stage:

| file | module | stage |
|---|---|---|
| `tables.dfy` | `Tables` | data-frame primitives: `concat`, `unique(maintain_order=True)`, stable `sort`, `groupby(maintain_order=True).sum()`, `drop_nulls` |
| `text.dfy` | `Text` | string operations: `str.count_match`, literal `str.replace`, the `Y`/`N` flag dictionary, the price cast |
| `sales.dfy` | `Sales` | the sales table (`clean.py:31-79`) |
| `classify.dfy` | `Classify` | the non-retail customers and the B2B/B2C split (`clean.py:80-89`, `clean.py:147-149`) |
| `reidentify.dfy` | `Reidentify` | order numbering, the join back to the lines, the column order (`clean.py:90-116`, `clean.py:150-176`) |
| `aggregate.dfy` | `Aggregate` | the totals by order and by customer (`clean.py:119-144`, `clean.py:179-204`) |
| `dimensions.dfy` | `Dimensions` | the customer, employee, store and product tables (`clean.py:207-338`) |
| `rfm.dfy` | `Rfm` | the RFM table (`query.py:18-32`) |
| `scoring.dfy` | `Scoring` | `rank(method='first')` and `qcut` into five labelled bins (`segment.py:5-19`) |
| `segment.dfy` | `Segment` | the R/F code, the segment map, the segment counts, and the data frame whose columns the script assigns (`segment.py:3-43`) |

## Representation

- A table is a sequence of rows. A raw row has an `Option` per cell
  (`None` is a null), and a cleaned row has plain fields.
- Columns the pipeline carries through without inspecting them are kept
  together in an `other` field.
- Money is an integer number of cents. A price parses only as digits with
  an optional one- or two-digit fraction, after the first `,` has been
  replaced by `.`.
- A timestamp is an integer number of seconds since 1970-01-01.
  2022-05-01 is `1651363200`.
- `strptime` is a parameter of the model: a partial function from text to
  a timestamp or a date. Polars' strict parse raises on a bad value, and
  the model returns `Err` for it.
- `qcut` in `segment.py` works on floats. The model computes its quantile
  edges exactly, scaled by 5 so that they are integers: the edge at
  quantile k/5 of the n sorted values v is
  `5·v[i] + (k·(n−1) mod 5)·(v[i+1] − v[i])` with `i = k·(n−1) div 5`. The
  bin of a value x is the first `b` with `5·x <= e[b]`. Equal edges are an
  error, which is pandas' `ValueError: Bin edges must be unique`.
- Polars' `unique(maintain_order=True)` keeps each row's first occurrence.
  `groupby(..., maintain_order=True)` lists the groups in first-seen order.
  `sort` is modelled as a stable insertion sort.
- `segment.py` keeps its data frame in a `SegmentFrame` object: a class
  whose methods assign the columns `R`, `F`, `M`, `RFM` and `segment` one
  after another, as the script's statements do. `Run` performs the whole
  script.

## Where the code and its description differ

The model follows the code:

- The key that re-identifies orders includes the raw transaction id
  (`clean.py:106-112`). Rows that share a store, staff member, customer
  and time but have different raw transaction ids are different orders.
- `frequency` in the RFM table counts joined rows, that is sales lines, not
  distinct orders (`query.py:28`). `Rfm.FrequencyCountsLines` proves that
  it equals the customer's number of lines.
- The cleaned dimension tables are not guaranteed to have unique ids.
  `unique` runs before columns are dropped (customer, product) or on whole
  rows (employee, store), so two rows with the same id and different other
  columns both survive.
- `drop_nulls` on the sales table also drops the rows whose promo flag is
  neither `Y` nor `N`, because `map_dict` maps any other value to null
  (`Sales.KeptIff`).

## Model

| member | source | states |
|---|---|---|
| Tables.Concat | clean.py:32-55 | a row is in the concatenation of the yearly tables iff it is in one of them |
| Tables.Unique | clean.py:65 | the result has no repeated row, holds exactly the rows of the input, and is no longer than it |
| Tables.UniqueKeepsFirstOrder | clean.py:65 | rows keep the order of their first occurrences in the input |
| Tables.SortBy | clean.py:78 | the result is sorted by the given order and is a permutation of the input |
| Tables.SortSortedIsIdentity | clean.py:78 | sorting a table already sorted by the order leaves it unchanged |
| Tables.GroupSum | clean.py:81-82 | one row per distinct key, in first-seen order, each holding the sum of that key's values |
| Tables.GroupSumConservesTotal | clean.py:123-124 | grouping and summing leaves the grand total unchanged |
| Tables.Somes | clean.py:64 | a value is kept iff it was a non-null cell, and nothing is added |
| Tables.AllOk | clean.py:46-51 | a column cast succeeds iff every cell casts, and then holds each cell's value in place |
| Text.CountCharConcat | clean.py:41 | the number of `:` in a concatenation is the sum of the two counts |
| Text.ReplaceFirst | clean.py:51 | the leftmost occurrence of the pattern is replaced, and text without an occurrence is unchanged |
| Text.YesNo | clean.py:57-62 | `Y` maps to true and `N` to false; every other value, null included, maps to null |
| Text.ParseDecimal | clean.py:51 | a price written with a decimal dot reads back as the same number of cents |
| Text.CastCommaPrice | clean.py:51 | a price with a decimal comma casts to the same cents as with a dot |
| Text.StrLeIsTotalPreorder | clean.py:116 | the lexicographic order used to sort column names is a total preorder |
| Sales.RepairTime | clean.py:41-43 | a time with exactly one `:` gets `:00` appended and any other time is unchanged; a time with one or two `:` ends with two |
| Sales.RepairTimeExample | clean.py:41-43 | `9:30` becomes `9:30:00`; `9:30:00` stays as it is |
| Sales.StampText | clean.py:38-45 | the concatenated timestamp is null iff the date or the time is null |
| Sales.TypeRow | clean.py:37-62 | a row types iff its timestamp text (when present) parses and its price (when present) casts; then the price is the cast of the raw text, the promo flag is true iff the raw flag is `Y` and false iff it is `N`, the time is the parse of the raw date followed by the repaired raw time, and every other cell is copied |
| Sales.TypeRows | clean.py:34-52 | a yearly file types iff every row types, and then row by row |
| Sales.DropNulls | clean.py:64 | the result holds exactly the typed rows with no null cell, and is no longer than the input |
| Sales.Normalise | clean.py:31-79 | the sales table is an error iff some raw row fails to type; otherwise it is sorted by time |
| Sales.KeptIff | clean.py:56-64 | a typed row survives iff none of its raw cells is null and its promo flag is `Y` or `N` |
| Sales.CleanedRow | clean.py:37-78 | the cleaned form of a kept raw row has the raw ids, customer and quantity, the cast price, `is_promo` true iff the raw flag is `Y`, and the parsed time |
| Sales.NormaliseRows | clean.py:64-78 | a cleaned sale is in the table iff it is the cleaned form of a kept raw row of some year; each sale holds that raw row's cells, typed as `CleanedFrom` states |
| Sales.NormaliseCount | clean.py:65 | the table has one row per distinct complete row |
| Classify.NonRetailIff | clean.py:80-84 | a customer is listed iff it has more than 1000 sales rows; the count is that number and no customer is listed twice |
| Classify.AboveThreshold | clean.py:83 | a (customer, count) row is kept iff its count is above 1000 |
| Classify.Where | clean.py:87-89 | a row is selected iff it is a sales row whose customer's membership in the id list is as asked |
| Classify.WherePartitions | clean.py:147-149 | the rows inside and outside the id list together are the input, each row as often as in the input |
| Classify.WhereDistributes | clean.py:87-89 | filtering a concatenation is concatenating the filtered parts |
| Classify.WhereKeepsSorted | clean.py:87-89 | filtering a time-sorted table leaves it time-sorted |
| Classify.Partition | clean.py:87-149 | B2B and B2C sales partition the sales table: a row is B2B iff its customer has more than 1000 rows, and B2C otherwise |
| Reidentify.Orders | clean.py:90-99 | the orders are the distinct order heads of the sales, sorted by time, one per distinct head |
| Reidentify.JoinRowNone | clean.py:104-113 | a row whose (time, id, store, staff, customer) is no numbered order joins nothing |
| Reidentify.JoinRowOnce | clean.py:104-113 | a row whose order occurs once among the numbered orders joins exactly once, under that order's number |
| Reidentify.JoinEachRow | clean.py:100-115 | when every row's order occurs once among the numbered orders, the inner join is the rows themselves, each under its order's number |
| Reidentify.ReidentifyRows | clean.py:90-115 | the output has one line per sales row, in the rows' order: the row with the number of its order and without its raw id |
| Reidentify.ReidentifyLines | clean.py:100-115 | a line is in the result iff it is a sales row carrying the number of its order |
| Reidentify.ReidentifyIds | clean.py:102 | the ids are exactly 1..N for N distinct orders, and two rows share an id iff they share an order head |
| Reidentify.ReidentifyTimeOrder | clean.py:98-102 | an earlier order gets a smaller id, and a smaller id is never later |
| Reidentify.ReidentifySorted | clean.py:100-115 | time-sorted sales, as the cleaned sales are, give time-sorted re-identified lines |
| Reidentify.OrdersOfSortedSales | clean.py:90-99 | on time-sorted sales the orders are the distinct heads in first-seen order |
| Reidentify.ReidentifyConservesLines | clean.py:100-115 | apart from the id, the output is the sales rows themselves, so no line is lost, duplicated or moved |
| Reidentify.ColumnOrder | clean.py:116 | the output columns are sorted by name, are a permutation of the joined columns, and `_id` (renamed `id`) comes first |
| Aggregate.KeyedTotals | clean.py:120-122 | one (key, quantity × price) row per line, and a key occurs iff some line has it |
| Aggregate.TotalBy | clean.py:119-130 | keys are strictly ascending and are exactly the keys of the lines; each total is the sum of its lines' quantity × price |
| Aggregate.TotalByConservesTotal | clean.py:119-130 | under either key, the totals sum to the value of the lines, the sum of quantity × price over all of them |
| Aggregate.OrderAndCustomerTotalsAgree | clean.py:119-144 | the totals by order and by customer have the same grand total |
| Dimensions.ParseDate | clean.py:213-219 | a null date stays null; a present date parses, or the table is an error |
| Dimensions.Present | clean.py:225 | the carried-through cells count as present iff all of them are |
| Dimensions.Tidy | clean.py:225-243 | the table is sorted, no longer than its input, and holds exactly the finished forms of the complete typed rows |
| Dimensions.Gender | clean.py:220-223 | `Not Specified` becomes `na`, and a value without it is unchanged |
| Dimensions.GenderExamples | clean.py:220-223 | `Not Specified` becomes `na`; `M` and `F` are unchanged |
| Dimensions.TypeCustomer | clean.py:212-219 | a customer row types iff both its birthdate and its customer-since date (when present) parse |
| Dimensions.CleanCustomers | clean.py:207-244 | the customer table is an error iff some row fails to type; otherwise it is sorted by id and no longer than the input |
| Dimensions.CustomerKeptIff | clean.py:225 | a typed customer survives iff all its raw cells are present, the dropped name, email and loyalty-card cells included |
| Dimensions.CleanCustomersRows | clean.py:225-243 | a customer is in the table iff it is the cleaned form of a kept raw row, with `age = 2022 − birth year` |
| Dimensions.TypeEmployee | clean.py:252-257 | an employee row types iff its start date (when present) parses |
| Dimensions.CleanEmployees | clean.py:247-272 | the employee table is an error iff some start date fails to parse; otherwise it is sorted by id and no longer than the input |
| Dimensions.EmployeeKeptIff | clean.py:258-263 | a typed employee survives iff its id, start date and other cells are present; names and end date do not matter |
| Dimensions.EndDateIrrelevant | clean.py:258-263 | whether an employee survives does not depend on its names or its end date |
| Dimensions.CleanEmployeesRows | clean.py:258-271 | an employee is in the table iff it is the cleaned form of a kept raw row, and no row is repeated |
| Dimensions.CleanStores | clean.py:275-298 | the store table is sorted by id with nulls first, has no repeated row, and holds exactly the projections of the raw rows |
| Dimensions.StoresKeepNulls | clean.py:275-298 | every raw store's projection is in the table with its id, null or not, because the store table has no `drop_nulls` |
| Dimensions.CleanStoresCount | clean.py:296 | the store table has one row per distinct projected raw row |
| Dimensions.CleanProducts | clean.py:301-338 | the product table is sorted by id and no longer than its input |
| Dimensions.ProductKeptIff | clean.py:306-318 | a product survives iff all its cells are present and each of its three flags is `Y` or `N` |
| Dimensions.CleanProductsRows | clean.py:306-337 | a product is in the table iff it is the cleaned form of a kept raw row, and each flag is true iff the raw flag is `Y` |
| Rfm.WholeDays | query.py:27 | whole days of a duration, truncated toward zero for negative durations |
| Rfm.WholeDaysMonotone | query.py:27 | a longer duration never has fewer whole days |
| Rfm.LatestTime | query.py:27 | the latest purchase time of a customer is the maximum over the customer's rows and is attained |
| Rfm.Rfm | query.py:18-32 | one row per customer, no customer twice, sorted by frequency descending; every row holds that customer's recency, frequency and monetary value |
| Rfm.FrequencyPositive | query.py:28 | every listed customer has frequency at least 1 |
| Rfm.RecencyMonotone | query.py:27 | a customer whose latest purchase is later has a recency no larger |
| Rfm.TotalsForNone | query.py:19-23 | a line whose order id has no total joins nothing |
| Rfm.TotalsForOnce | query.py:19-23 | with distinct order ids, a line whose id has a total joins exactly once, carrying its order's total |
| Rfm.JoinTotalsRows | query.py:19-23 | joining totals with distinct ids to lines whose ids all have a total gives each line once, in order, with its order's total |
| Rfm.JoinOfOrderTotals | query.py:19-24 | joining the totals by order to the same lines gives each line once, in the lines' order, with its order's total |
| Rfm.RfmOfOrderTotals | query.py:18-32 | built from the totals by order, the RFM table lists exactly the customers of the lines, each with the row computed from the customer's lines |
| Rfm.FrequencyCountsLines | query.py:28 | frequency is the number of the customer's lines, not orders |
| Rfm.RowOfPermutation | query.py:25-30 | a customer's presence and RFM row do not depend on the order of the joined rows |
| Rfm.RfmRowExample | query.py:25-30 | two purchases of 50.00 and 30.00, the later on 2022-04-20, give recency 11, frequency 2, monetary 80.00 |
| Scoring.RankFirst | segment.py:6 | `rank(method='first')` ranks lie in 1..n |
| Scoring.RankFirstOrder | segment.py:6 | a smaller value, or an equal value seen earlier, gets a smaller rank; the ranks are distinct |
| Scoring.BinOf | segment.py:5-19 | the bin is in 1..5, and the value lies in that bin's right-closed interval |
| Scoring.QCut | segment.py:10-14 | `qcut` succeeds iff there are two values and its five quantile edges are strictly increasing; then every label is in 1..5 |
| Scoring.QCutIntervals | segment.py:10-14 | each value lies between the edges of its bin, strictly above the left one except in the first bin |
| Scoring.QCutNeedsSpread | segment.py:10-14 | fewer than two values, or all values equal, makes `qcut` fail |
| Scoring.RScores | segment.py:5-9 | on success the R score of every customer is in 1..5 |
| Scoring.RScoresMonotone | segment.py:5-9 | a more recent customer (smaller recency) never gets a lower R score |
| Scoring.RScoresClosedForm | segment.py:5-9 | with two or more customers the R score always succeeds, and is `6 − ⌈5·(rank−1)/(n−1)⌉` (at least 1) for each customer |
| Scoring.Scores | segment.py:10-19 | on success the F and M scores are in 1..5 |
| Scoring.ScoresMonotone | segment.py:10-19 | a larger frequency or monetary value never gets a lower score |
| Segment.Code | segment.py:20 | the R/F code is two characters, the digit of R followed by the digit of F |
| Segment.SubOfNoDigit | segment.py:33 | a text without a score digit is unchanged by a pattern of score digits |
| Segment.ReplaceAllOfNoDigit | segment.py:33 | a text without a score digit, such as a segment name, passes through all the patterns unchanged |
| Segment.SubOfCode | segment.py:33 | a pattern that matches a code replaces it with the segment name; one that does not leaves it |
| Segment.ReplaceAllOfCode | segment.py:33 | replacing a code by the patterns in order yields the name of the first pattern that matches |
| Segment.Rule | segment.py:21-32 | the decision table that picks one segment for each of the 25 scores |
| Segment.SegmentTotalAndUnique | segment.py:21-33 | every code is matched by exactly one pattern, and `replace` turns it into that segment's name |
| Segment.MatchesCode | segment.py:21-32 | a pattern matches the code of (R, F) iff R and F lie within its two character classes |
| Segment.OnlyRuleMatches | segment.py:21-32 | the pattern picked by the decision table is the only one that matches |
| Segment.SegmentExamples | segment.py:21-33 | `54` is champions, `11` hibernating, `33` need_attention, `51` new_customers, `13` at_Risk |
| Segment.SegmentCounts | segment.py:37-43 | one row per distinct segment holding the number of customers in it, sorted by count; the counts add up to the number of customers |
| Segment.SegmentsOfCodes | segment.py:20-33 | the segment column has one entry per customer, the name the decision table picks for the customer's scores |
| Segment.SegmentFrame.constructor | segment.py:3 | the frame holds the RFM table's columns and no score column yet |
| Segment.SegmentFrame.AssignR | segment.py:5-9 | `R` is assigned iff the R scoring succeeds, and no other column changes |
| Segment.SegmentFrame.AssignF | segment.py:10-14 | `F` is assigned iff the F scoring succeeds, and no other column changes |
| Segment.SegmentFrame.AssignM | segment.py:15-19 | `M` is assigned iff the M scoring succeeds, and no other column changes |
| Segment.SegmentFrame.AssignCode | segment.py:20 | `RFM` becomes the codes of `R` and `F`, and nothing else changes |
| Segment.SegmentFrame.AssignSegment | segment.py:33 | `segment` becomes the segment names of the codes, and nothing else changes |
| Segment.SegmentFrame.AssignScores | segment.py:5-19 | the three scorings succeed together or the script stops; on success R, F and M are the scores, in 1..5, one per customer |
| Segment.SegmentFrame.Label | segment.py:20-43 | every customer gets the segment the decision table picks, and the counts are those of the segment column |
| Segment.SegmentFrame.Run | segment.py:3-43 | the script succeeds iff all three scorings do; then every customer's segment follows the decision table and the counts are the segment counts |

## Left out

- File I/O is not modelled: `read_csv`, `write_csv`, `to_csv`, the read-back check in `export`, and `overview`'s printing. A raw table is a parameter and a result is a value.
- `strptime` is not modelled beyond being a function parameter, so calendar arithmetic is not checked. Two facts are taken as given: the year of a parsed date, and `2022-05-01` as a number of seconds.
- Floating point is not modelled. Prices and totals are exact cents, so `round(2)` does nothing. A price with more than two decimals, a missing integer part (`.5`), a sign, an exponent or thousands separators is treated as a failed cast.
- Scoring.QCut: pandas' float arithmetic on the quantile edges is computed exactly with integers. A tie that floats would break differently is not modelled. `qcut` makes its first interval closed (`include_lowest=True`), so the minimum value is in bin 1; `BinOf` models this.
- The row order of a polars inner join is not documented. `Reidentify.Join` and `Rfm.JoinTotals` emit the rows in the order of the sales lines, each line followed by its partners. The lemmas that depend on this order are `Reidentify.ReidentifyRows`, `Reidentify.ReidentifySorted`, `Reidentify.ReidentifyConservesLines`, `Reidentify.JoinEachRow`, `Rfm.JoinTotalsRows` and `Rfm.JoinOfOrderTotals`. The RFM rows themselves do not depend on it (`Rfm.RowOfPermutation`).
- Sorting is modelled as stable. Polars' `sort` and pandas' `sort_values` do not promise stability, so the model fixes the order among ties that the scripts leave open: rows with the same time, RFM rows with the same frequency, segments with the same count.
- The raw column order of the sales files is not available. `Reidentify.ColumnOrder` assumes the joined columns listed in `JoinedColumns`.
- Raw columns that the code only carries through are kept together as `other` cells and compared as a whole.
- `longitude` and `latitude` of a store are uninterpreted `real` values.
- The cost and price columns of the product table are modelled as integer cents.
- `dashboard.py` and `utils.py` are not part of this model.
- Segment.SubOfCode: `re.sub` is modelled only for the patterns of `seg_map`, which have two character positions, each a single character or a class `[a-b]`. A pattern applies to a two-digit code or to a segment name, as `replace(regex=True)` does.
- Segment.SegmentFrame.Run: `M` is assigned (and its failure stops the script) but is not used afterwards, as in the script.
- The three yearly sales files are concatenated as raw rows. Polars requires equal schemas, which the model takes as given.
