# Chargeback dashboard core, modelled in Dafny

This project models the reporting core of a chargeback-intelligence dashboard. The backend holds two tables:

- **chargebacks**, one row per disputed payment, with its date, merchant id and name, reason category, country, payment method, processor and amount;
- **daily transactions**, one row per day, merchant, country, payment method and processor, with a transaction count.

Two endpoints answer questions about these tables:

- **the listing** (`get_chargebacks`) filters the chargebacks, sorts them by an allowed column and cuts out one page;
- **the summary** (`get_metrics`) filters the same way. It then reports:
  - the total count and amount;
  - the chargeback rate against real transaction volume;
  - the trend against the previous period of equal length;
  - breakdowns by reason category, country, payment method, processor and day;
  - the ten merchants with the most chargebacks, each with its own rate.

Both endpoints share the filter engine (`apply_filters`) and the parser for comma-separated query values (`_parse_list`).

The model, module by module:

- `Filters` (filters.dfy): the filter engine.
  - A chargeback is a `Record` and the table is a `seq<Record>`.
  - Dates are day numbers and amounts are integer cents.
  - `ApplyFilters` builds an array of booleans, narrows it by one `mask &= ...` step per given filter (`Masks.AndMask`), and copies out the kept rows.
  - It is proved equal to `Keep`, a selection by the conjunction `Matches`.
  - Truthiness follows the source. Dates, merchant query and lists count only when present and non-empty. The amount bounds count whenever present, so 0 is a real bound.
- `Rates` (rates.dfy): `compute_chargeback_rate` as a method with its own mask and summing loop, proved equal to `Rate` over the matching transaction slice.
- `Trends` (trends.dfy): `compute_trend_pct`, with "today" as a parameter.
- `Listing` (listing.dfy):
  - `_parse_list`;
  - the translation of a request into filters;
  - the sort-column allow-list and sort plan;
  - page slicing and `get_chargebacks`.
- `Grouping` (grouping.dfy): pandas `groupby(...).agg(count, sum)`, as buckets in ascending key order.
- `Metrics` (metrics.dfy): `get_metrics`. `GetMetrics` is a method that rates the whole selection, reassigns each breakdown under the `total > 0` guard, and rates the ranked merchants in a loop (`RateMerchants`). It is proved equal to `MetricsOf`, and the promised properties are lemmas about `MetricsOf`.
- Supporting modules:
  - `Text`: Python `split`, `strip`, lower-casing and substring search;
  - `Sorting`: sort keys and an insertion sort standing for `sort_values`;
  - `Selection`: order-preserving selection;
  - `Wrappers`: `Option`.

## Model

| member | source | states |
|---|---|---|
| Masks.AndMask | backend/data_loader.py:58 | one `mask &= p` step: each entry becomes its old value and the predicate on its row, and nothing else changes |
| Filters.ApplyFilters | backend/data_loader.py:42-87 | the rows the mask keeps are exactly `Keep(rows, f)`, the selection by the conjunction of the given filters |
| Filters.BuildMask | backend/data_loader.py:53-85 | a fresh mask, one entry per row, true exactly when the row passes every given filter |
| Filters.NarrowByDatesAndMerchant | backend/data_loader.py:55-70 | ANDs in the inclusive date bounds and the merchant search, each only when given |
| Filters.NarrowByValuesAndAmounts | backend/data_loader.py:72-85 | ANDs in the category, payment-method and country sets and the inclusive amount bounds (a bound of 0 included) |
| Filters.KeepMembership | backend/data_loader.py:53-85 | a row is kept iff it is in the table, within both inclusive date bounds, has the query in its id OR its name ignoring case, is in each given value set, and is within both inclusive amount bounds |
| Filters.KeepPreservesOrder | backend/data_loader.py:87 | the result is the table read at strictly increasing positions, and a position is read iff its row matches: only input rows, in input order |
| Filters.KeepNoneGiven | backend/data_loader.py:53-85 | with every filter absent, empty or an empty list, the result is the whole table |
| Filters.KeepNarrows | backend/data_loader.py:53-85 | giving more filters selects from the earlier result, so the count never grows |
| Selection.SelectPreservesOrder | backend/data_loader.py:87 | a mask selection reads the input at increasing positions, exactly at the positions that pass |
| Selection.SelectMembership | backend/data_loader.py:87 | an element is selected iff it is in the input and passes |
| Selection.SelectNarrows | backend/data_loader.py:53-85 | selecting by a stronger predicate from a selection is selecting by it directly |
| Text.IsSubstringIff | backend/data_loader.py:67-70 | the substring scan succeeds iff the needle occurs at some position |
| Text.Strip | backend/main.py:42 | the stripped string is empty or neither starts nor ends with whitespace |
| Text.StripSpec | backend/main.py:42 | `strip` keeps a contiguous piece of the input and cuts only whitespace on either side |
| Text.JoinSplit | backend/main.py:42 | joining the pieces of `split(sep)` with `sep` gives the input back |
| Text.SplitPiecesNoSep | backend/main.py:42 | no piece of `split(sep)` contains `sep` |
| Text.SplitJoin | backend/main.py:42 | splitting separator-free pieces joined by `sep` gives the pieces back |
| Listing.NonBlankItems | backend/main.py:42 | every item kept after stripping is non-empty and unpadded |
| Listing.ParseListClean | backend/main.py:38-42 | no list iff the parameter is absent or empty; otherwise every item is non-empty, unpadded and comma-free |
| Listing.ParseListRoundTrip | backend/main.py:38-42 | clean items joined with commas parse back to the same items |
| Listing.NonBlankClean | backend/main.py:42 | stripping and dropping blanks leaves clean items unchanged |
| Listing.FindColumnSound | backend/main.py:78 | a column found by name is in the list and has that name |
| Listing.FindColumnComplete | backend/main.py:78 | every column in the list is found by its name |
| Listing.ColumnNameInjective | backend/main.py:74-77 | the eight allowed column names are pairwise different |
| Listing.ParseSortColumnIff | backend/main.py:78 | `sort_by` is accepted iff it is the name of an allowed column, and it selects that column |
| Listing.SortRowsSpec | backend/main.py:74-82 | the listing is a permutation of the filtered rows: sorted by an allowed `sort_by`, ascending unless `sort_dir` lower-cases to "desc", and otherwise by date descending |
| Listing.ListingTotal | backend/main.py:84 | `total` is the filtered row count, whatever page and page size are asked for |
| Listing.PagePositions | backend/main.py:85-87 | page `p` holds exactly the sorted rows at positions `[(p-1)*size, p*size)`, clipped to the total |
| Listing.PagesDisjoint | backend/main.py:85-87 | with unique record ids, two different pages share no record id |
| Listing.PageSlicesDisjoint | backend/main.py:85-87 | two different pages of a sequence with unique ids share no id |
| Listing.LastPageSize | backend/main.py:85-87 | the last page `ceil(total/size)` holds `total mod size` rows, or a full page when that is 0, and every later page is empty |
| Listing.TestLastPageEmptyWhenDivisible | tests/test_api.py:373-383 | the test's `total // size + 1` is one past the last page, and that page is empty whenever `size` divides `total` |
| Listing.TestLastPageOnThousandRows | tests/test_api.py:373-383 | on the generated 1000-row table the test asks for page 21 of 50, which is empty, while the real last page holds 50 |
| Rates.Rate | backend/data_loader.py:160-163 | the rate is never negative, is 0 iff the count or the transaction total is 0, and is at most 100 when the count does not exceed the total |
| Rates.ComputeChargebackRate | backend/data_loader.py:123-163 | the method's rate is `Rate` of the count over the transactions summed across the matching slice |
| Rates.TxMask | backend/data_loader.py:139-156 | a fresh mask, true exactly for the transaction rows in the date range, with an exactly matching merchant id, and in the given payment-method and country sets |
| Rates.SumCountsSelectLe | backend/data_loader.py:158 | a sub-selection never sums to more transactions |
| Rates.MatchingTransactionsNarrows | backend/data_loader.py:139-158 | giving more transaction filters never raises the denominator |
| Rates.RateOrder | backend/data_loader.py:163 | two non-zero rates compare as the cross products of their counts and totals |
| Rates.RateFiltersMirror | backend/main.py:126-133 | for a chargeback the filter kept, a transaction row on the same date with the same payment method and country is in the rate's slice iff the merchant list, when given, holds its merchant id |
| Trends.CurrentWindow | backend/data_loader.py:101-107 | the 30 days ending today when either bound is missing, otherwise exactly the requested bounds |
| Trends.PreviousWindow | backend/data_loader.py:109-111 | the previous window has the same length and ends the day before the current one starts |
| Trends.WindowsDisjoint | backend/data_loader.py:109-111 | every day of the previous window lies before, and outside, the current window |
| Trends.CountInWindowIsFilterCount | backend/data_loader.py:113-115 | a window count is the filter engine's count with just the window's two dates given |
| Trends.TrendSign | backend/data_loader.py:113-120 | the trend is 0 when the previous window is empty; otherwise it is positive iff the count rose and negative iff it fell, and it is never below -100 |
| Trends.TrendDoubling | backend/data_loader.py:117-120 | twice the previous window's non-zero count is a 100% rise |
| Sorting.SortByKey | backend/main.py:80 | the sort's output is ordered by the key in the requested direction and is a permutation of its input |
| Sorting.SortSorted | backend/main.py:211 | sorting an already sorted sequence changes nothing |
| Grouping.GroupBySpec | backend/main.py:139-143 | groups have strictly ascending keys and no empty bucket; their keys are exactly the rows' keys; each key's bucket counts its rows and sums their amounts; all counts sum to the row count and all amounts to the amount total |
| Grouping.AddToCounts | backend/main.py:139-143 | adding a row raises the count and amount of its key only |
| Grouping.AddToAscending | backend/main.py:139-143 | adding a row keeps the keys strictly ascending and every bucket non-empty |
| Grouping.AddToKeys | backend/main.py:139-143 | adding a row adds its key to the bucket keys and nothing else |
| Grouping.OneBucketPerKey | backend/main.py:139-151 | two different buckets never share a key |
| Grouping.DrawnKeysDistinct | backend/main.py:139-151 | buckets drawn without repetition from the groups have pairwise different keys |
| Grouping.BucketHoldsKey | backend/main.py:139-151 | a key's bucket holds all the count and amount recorded for that key |
| Metrics.GetMetrics | backend/main.py:100-262 | the endpoint's answer is `MetricsOf` of the table, the transactions, the request and today |
| Metrics.RateMerchants | backend/main.py:232-249 | the loop yields one entry per ranked merchant group, in rank order, each with the group's count, amount and merchant rate |
| Metrics.DistinctSpec | backend/main.py:125 | `unique()` keeps exactly the values of its input, each once |
| Metrics.OverallRateCoversMatches | backend/main.py:125-133 | every transaction row sharing a matched chargeback's date, merchant, payment method and country is in the overall rate's slice |
| Metrics.OverallRateSlice | backend/main.py:125-133 | when something matched, the overall rate counts the transaction rows in the date, payment and country slice whose merchant has a matched chargeback |
| Metrics.MetricsAgreeWithListing | backend/main.py:111-123 | `total_chargebacks` equals the listing's `total` for the same request, whatever page is asked for |
| Metrics.MetricsWhenEmpty | backend/main.py:123-249 | nothing matched iff each breakdown is empty iff the ranking is empty; then the amount and the rate are 0 |
| Metrics.BreakdownSpec | backend/main.py:136-202 | each breakdown has one bucket per value of its column, with ascending keys, per-value counts and amounts, counts summing to the matched total and amounts to the amount total |
| Metrics.MetricsBreakdownsAddUp | backend/main.py:136-220 | in the summary, every breakdown's counts add up to `total_chargebacks` and its amounts to `total_disputed_amount` |
| Metrics.DailyBreakdownSpec | backend/main.py:204-220 | `by_day` is the date groups in strictly ascending date order, and sorting them again changes nothing |
| Metrics.MerchantGroup | backend/main.py:225-228 | a merchant group is an (id, name) pair of the matched rows, counting and summing exactly those rows |
| Metrics.RankedMerchantsSpec | backend/main.py:225-231 | the ranking holds `min(10, groups)` merchant groups, drawn from the groups without repetition (a sub-multiset), with pairwise different keys, in non-increasing count order |
| Metrics.TopMerchantsOrder | backend/main.py:222-231 | at most ten top merchants, as many as there are merchants up to ten, no (id, name) pair twice, in non-increasing count order |
| Metrics.TopMerchantsDistinct | backend/main.py:225-249 | two top merchants never share their (merchant id, merchant name) pair |
| Metrics.TopMerchantEntry | backend/main.py:232-249 | each top merchant is a merchant of the matched rows. Its count and amount are that merchant's own. Its rate is computed over that merchant's id alone |
| Metrics.TopMerchantsHeaviest | backend/main.py:225-231 | a merchant left out of the top ten has no more chargebacks than any merchant in it |
| Metrics.RankedHeaviest | backend/main.py:229-230 | a merchant group outside the ranking has no larger count than any group in it |
| Metrics.Take | backend/main.py:230 | `head(n)` is the first `min(n, len)` elements |

## Left out

- HTTP wiring is not modelled: routing, CORS, the startup hook, static file serving and the health endpoint. The query bounds `page >= 1` and `1 <= page_size <= 500` are the framework's checks, so they appear as preconditions of `Listing.GetChargebacks`.
- CSV loading and the cached module-level tables are not modelled. Both tables are given as immutable sequences. `.copy()` has no counterpart, because Dafny sequences are values.
- Date-string parsing with `dateutil` and `date.today()` are not modelled. Dates are already-parsed day numbers, "today" is a parameter, and malformed dates are out of scope. An empty date string counts as absent, as in the source.
- `Listing.GetChargebacks`: it does not render dates back to strings (`astype(str)`) or build JSON records. The page holds the `Record` values themselves.
- `Filters.MerchantMatches`: the query is matched as a literal substring. pandas `str.contains` treats it as a regular expression by default, so a query with regex metacharacters can behave differently.
- `Text.LowerChar`: only ASCII letters are lower-cased, where Python lower-cases all of Unicode.
- `Text.IsSpace`: only Python's whitespace characters below U+0100 count; the rest of Unicode's whitespace is not modelled.
- `Rates.Rate`: the rate is exact. The source's rounding to 2 decimal places is not modelled.
- `Trends.PctChange`: the trend is exact. The source's rounding to 1 decimal place is not modelled.
- `Trends.TrendPct`: the model counts both windows in the single table it is given. The source reads the previous window from the global table, and its only caller passes that same table.
- `Metrics.MetricsOf`: amounts are summed exactly in cents, with no float rounding to 2 places.
- `Listing.SortRowsSpec`: the order of rows with equal sort keys is not specified, because pandas `sort_values` is not stable. Only ordering by key plus permutation is stated.
- `Metrics.RankedMerchantsSpec`: likewise, which of several merchants tied at the tenth place makes the ranking is not specified.
- `Metrics.MerchantIdOf`: a merchant group's key is always an (id, name) pair (`Metrics.MerchantGroup`). The fallback for other key kinds is never reached.
- The data generators and the test harness are not modelled. They are random sampling, file writes and HTTP calls. The tests serve only as a source of properties.

## Findings

| source | as written | input that shows it | evidently intended | confidence | as-written member | corrected member |
|---|---|---|---|---|---|---|
| tests/test_api.py:377 | the test takes the last page to be `total // page_size + 1` and expects `total % page_size or page_size` records on it | the generated table has 1000 rows (scripts/generate_data.py:205) and page_size is 50, so the test asks for page 21. That page starts at row 1000 and is empty, while the test expects 50 records | the last page is `ceil(total / page_size)`: page 20 here, with 50 records | not executed | Listing.TestLastPageEmptyWhenDivisible | Listing.LastPageSize |
