# Bike-share dashboard aggregation helpers

A Dafny model of the six aggregation helpers of the bike-share dashboard
(`create_monthly_users_df`, `create_weekday_users_df`,
`create_hourly_users_df`, `create_seasonly_users_df`,
`create_weathersit_users_df` and `create_temp_users_df` in
`etc/dashboard.py`). Each helper takes the date-filtered records and returns
a summary table. The table has one row per bucket, and the row holds the sums
of `casual`, `registered` and `cnt` over the records in that bucket.

The project has six modules:

- `Records` (records.dfy) defines the record and the counter triple. It also
  defines `Row<K>`, the keyed row used both for a keyed record and for a
  summary row, and the sums over a table (`Total`, `SumOf`, `SumIn`).
- `Grouping` (grouping.dfy) defines `GroupSum`, the pandas
  `groupby(key).agg(sum)` with its default `sort=True`. It is written as a
  fold of sorted insertion, parameterised by a strict total order on keys.
  `Reindex` lays a grouped table over a fixed list of keys and zero-fills the
  missing ones. `StrLess` is code-point string order.
- `Categorical` (categorical.dfy) models `pd.Categorical` re-typing, where a
  name outside the categories becomes missing (`None`). It also models
  `sort_values` on an ordered categorical column as a stable sort by category
  code, with missing values last. pandas' default sort kind is not stable in
  general, but here it makes no difference: after the group-by each category
  has at most one row, so named rows never share a code, and
  `na_position='last'` appends the missing rows in their input order.
- `Binning` (binning.dfy) models
  `pd.cut(temp, bins=[0, 10, 20, 30, 40], labels=..., include_lowest=True)`:
  a left `searchsorted` plus the include-lowest fix-up.
- `Months` (months.dfy) numbers calendar months consecutively. This lets the
  bins of `resample('M')` between two dates be listed. It also gives the
  month-end date that labels each bin.
- `Dashboard` (dashboard.dfy) puts the six tables together. The class `Frame`
  models the data frame that `create_temp_users_df` writes its `temp_range`
  column into.

Where the code's behaviour differs from what a reader might expect, the model
follows the code:

- **Season and weather order.** The season and weather helpers attach an
  ordered categorical but never sort by it, so their rows stay in the
  group-by's alphabetical order: Fall, Spring, Summer, Winter.
  `ExampleSeasonOrder` shows Fall coming before Spring.
- **Temperature table size.** The temperature helper groups a categorical
  column with the default `observed=False`, so its table always has four rows
  and empty bands sum to zero. The two-record example (`ExampleTemp`) therefore
  gives four rows, two of them zero.
- **Mutation.** `create_temp_users_df` writes the `temp_range` column into the
  frame it is given. `Frame.CreateTempUsers` models that write.
- **Month labels.** `resample('M')` labels each bin with the last day of its
  month, not the first. The labels' month and year are the same either way.

## Model

Each helper is one function of module `Dashboard`, specified by the lemmas
named beside it:

- `MonthlyUsers` models `create_monthly_users_df` (etc/dashboard.py:9-16):
  `MonthlyBins`, `MonthlySums`, `MonthlyEmptyMonth`, `MonthlyTotal`,
  `MonthlyRecordBin`.
- `WeekdayUsers` models `create_weekday_users_df` (etc/dashboard.py:18-30):
  `WeekdayTable`, `WeekdayAllNamed`.
- `HourlyUsers` models `create_hourly_users_df` (etc/dashboard.py:32-38):
  `HourlyTable`.
- `SeasonUsers` models `create_seasonly_users_df` (etc/dashboard.py:40-51):
  `SeasonTable`.
- `WeathersitUsers` models `create_weathersit_users_df`
  (etc/dashboard.py:53-64): `WeatherTable`.
- `TempUsers` and `Frame.CreateTempUsers` model `create_temp_users_df`
  (etc/dashboard.py:66-77): `TempTable`, and the method's own contract.

The shared steps are `Binning.Cut` (`pd.cut`, specified by `CutIsInterval`
and `CutMissing`), `Grouping.GroupSum` (`GroupSumSpec`), `Grouping.Reindex`
(`ReindexTotal`), `Categorical.Retype` (`RetypeKeys`, `RetypeTotal`) and
`Categorical.SortByCode` (`SortByCodeSorted`, `SortByCodeStable`,
`SortByCodeMultiset`).

| member | source | states |
|---|---|---|
| Dashboard.MonthlyBins | etc/dashboard.py:10-14 | `MonthlyUsers` (`create_monthly_users_df`): no records give no bins; otherwise one row per month from the earliest record's month to the latest's, keyed by month number, consecutive and ascending with no gaps |
| Dashboard.MonthlySums | etc/dashboard.py:10-14 | `MonthlyUsers`: each monthly row's counters are the sums over exactly the records of that row's month |
| Dashboard.MonthlyEmptyMonth | etc/dashboard.py:10-14 | `MonthlyUsers`: a month between the first and the last that no record falls in still has a row, and its sums are zero |
| Dashboard.MonthlyTotal | etc/dashboard.py:10-14 | `MonthlyUsers`: conservation: each column sum of the monthly table equals that counter summed over all records |
| Dashboard.MonthlyRecordBin | etc/dashboard.py:10-15 | `MonthlyUsers` with `BinLabel` and `MonthEnd`: every record's month has a row in the table; for a valid date, that row's label is the record's (year, month) and its month-end date is in the same month, on or after the record's day |
| Dashboard.BinLabelOfEnd | etc/dashboard.py:14-15 | a bin's `month` label names the year and month of the bin's own `dteday` (its month-end date), and that date numbers back to the bin |
| Dashboard.EarliestMonthSpec | etc/dashboard.py:10 | the first bin's month is some record's month, and no record's month is earlier |
| Dashboard.LatestMonthSpec | etc/dashboard.py:10 | the last bin's month is some record's month, and no record's month is later |
| Months.MonthEnd | etc/dashboard.py:10 | the date labelling a bin is a valid date in that bin's month, on the month's last day (Gregorian leap years) |
| Months.MonthEndOfDate | etc/dashboard.py:10 | a valid date's bin has the date's year and month, and ends on a day not before the date |
| Months.MonthIndexRoundTrip | etc/dashboard.py:10 | numbering a valid date's month and reading the number back as (year, month) gives the date's own year and month |
| Months.MonthOfRoundTrip | etc/dashboard.py:15 | reading a month number as (year, month) and numbering it again gives the same number, so distinct bins have distinct labels |
| Months.Range | etc/dashboard.py:10 | the bins from `lo` to `hi` are strictly ascending, and a month number is among them exactly when it lies between `lo` and `hi`; there are `hi - lo + 1` of them, none when `lo > hi` |
| Dashboard.WeekdayTable | etc/dashboard.py:19-29 | `WeekdayUsers` (`create_weekday_users_df`): one row per distinct weekday name in the input, none for an absent day; named rows in Monday..Sunday order, before every row whose name is outside the seven; a name is a key exactly when it is one of the seven and some record has it; each named row sums its day's records; column sums conserved |
| Dashboard.WeekdayAllNamed | etc/dashboard.py:24-29 | `WeekdayUsers`: when every record's weekday is one of the seven names, no row of the weekday table has a missing key |
| Dashboard.ExampleWeekdayGroups | etc/dashboard.py:19-23 | on the two-record example, the group-by alone gives Friday before Thursday (alphabetical) |
| Dashboard.ExampleWeekday | etc/dashboard.py:24-29 | on the two-record example, the sort by category order puts Thursday (2, 3, 5) before Friday (1, 1, 2) |
| Dashboard.SortTwo | etc/dashboard.py:29 | the category sort swaps two rows whose codes are out of order |
| Dashboard.WeekdayCodes | etc/dashboard.py:26 | Thursday and Friday have category codes 3 and 4 in the weekday categories |
| Dashboard.HourlyTable | etc/dashboard.py:33-37 | `HourlyUsers` (`create_hourly_users_df`): hours strictly ascending; an hour is a key exactly when some record has it; one row per distinct hour; each row sums its hour's records; column sums conserved |
| Dashboard.NamedUsersSpec | etc/dashboard.py:41-50 | `NamedUsers`, shared by the season, weather and weekday tables: group by a name, then re-type as categorical: distinct keys; one row per distinct name; a name is kept exactly when it is a category name some record has, and every other name is missing; named rows keep alphabetical order and their names' sums; column sums conserved |
| Dashboard.SeasonTable | etc/dashboard.py:41-50 | `SeasonUsers` (`create_seasonly_users_df`): one row per distinct season name; Spring/Summer/Fall/Winter is a key exactly when some record has it; named rows stay in alphabetical order, not category order; each named row sums its season's records; column sums conserved |
| Dashboard.ExampleSeasonOrder | etc/dashboard.py:41-50 | a Spring record followed by a Fall record gives the Fall row first: the category order is attached but not sorted by |
| Dashboard.WeatherTable | etc/dashboard.py:54-63 | `WeathersitUsers` (`create_weathersit_users_df`): as for seasons, over Clear, Mist, Light Snow and Heavy Rain |
| Binning.CutIsInterval | etc/dashboard.py:67-69 | `Cut` (`pd.cut` on one value): the cut puts a temperature in a band exactly when it lies in that band's interval: [0, 10], (10, 20], (20, 30] or (30, 40] |
| Binning.CutMissing | etc/dashboard.py:67-69 | `Cut`: a temperature gets no band exactly when it is below 0 or above 40 |
| Binning.CutBoundaries | etc/dashboard.py:67-69 | 0 and 10 go to the first band, 10.5 to the second, 40 to the last; -1 and 41 get no band |
| Binning.SearchSortedLeft | etc/dashboard.py:69 | the insertion position is the number of edges below the value: all edges before it are below the value, and the edge at it is not |
| Binning.CutColumn | etc/dashboard.py:69 | the `temp_range` column has one entry per temperature, and each entry is that temperature's band |
| Dashboard.TempTable | etc/dashboard.py:69-75 | `TempUsers` (`create_temp_users_df`'s result): always four rows, in band order; each row sums the records the cut puts in its band, which is zero for an empty band; column sums equal the sums over the records with temperature in [0, 40] |
| Dashboard.BandEntriesSumOf | etc/dashboard.py:71-75 | after dropping the records with no band, each band's sum equals that band's sum over the records keyed by their band |
| Dashboard.BandEntriesTotal | etc/dashboard.py:71-75 | dropping the records with no band leaves exactly the counts of the records with temperature in [0, 40] |
| Dashboard.ExampleTemp | etc/dashboard.py:66-77 | on the two-record example, the table is 0-10 (2, 3, 5), 10-20 (1, 1, 2) and two zero rows |
| Dashboard.Frame.CreateTempUsers | etc/dashboard.py:66-77 | writes the `temp_range` column, the band of each record's temperature, into the frame; leaves the records unchanged; returns the grouped temperature table |
| Dashboard.EmptyTables | etc/dashboard.py:9-77 | no records: the five grouped tables are empty, and the temperature table is its four bands, all zero |
| Dashboard.ExampleMonthly | etc/dashboard.py:10-14 | on the two-record example, one monthly row, January 2012, with sums (3, 4, 7) |
| Dashboard.ExampleMonthBin | etc/dashboard.py:10-15 | the example's bin is labelled (2012, 1) and dated 2012-01-31 |
| Dashboard.RunHelpers | etc/dashboard.py:101-106 | the six calls on one frame: only the temperature helper writes to it (its `temp_range` column); the records stay unchanged, and every table is the one its helper computes from them |
| Grouping.GroupSumSpec | etc/dashboard.py:33-37 | `GroupSum` (`groupby(...).agg(sum)`): a group-by result is sorted strictly by the key order (hence has distinct keys); its keys are the input's keys; each key's sum and the column totals are kept |
| Grouping.ReindexTotal | etc/dashboard.py:10-14 | `Reindex`: laying grouped rows over a duplicate-free key list that covers their keys keeps the column totals |
| Categorical.SortByCodeSorted | etc/dashboard.py:29 | `SortByCode` (`sort_values`): the category sort leaves rows in non-decreasing category code, with missing names last |
| Categorical.SortByCodeStable | etc/dashboard.py:29 | `SortByCode`: rows with equal code keep their relative order |
| Categorical.SortByCodeMultiset | etc/dashboard.py:29 | `SortByCode`: the category sort is a permutation of its input |
| Categorical.CategoryOrder | etc/dashboard.py:24-29 | in a code-sorted table with distinct names, named rows follow the category list strictly, and every named row comes before every missing one |
| Categorical.RetypeKeys | etc/dashboard.py:46-50 | `Retype` (`pd.Categorical`): after re-typing, a category name is a key exactly when it was a key before; a name outside the categories never appears |
| Categorical.RetypeTotal | etc/dashboard.py:46-50 | `Retype`: re-typing the key column keeps the column sums |
| Records.KeyByTotal | etc/dashboard.py:19-23 | keying records by a bucket neither adds nor loses counts |
| Records.DaysInMonth | etc/dashboard.py:10 | the month lengths of the Gregorian calendar: 29 days exactly in a leap February, 28 exactly in any other February, otherwise 30 or 31 |

## Left out

- Loading the CSV file and coercing `dteday` to dates (etc/dashboard.py:80-81): file and network input. The model takes records whose date is already a (year, month, day) triple.
- The Streamlit page, sidebar, date picker and every chart (etc/dashboard.py:83-98 and after 106): user interface and presentation.
- The date-range mask (etc/dashboard.py:99): the helpers are modelled on any record list. They assume it is the already-filtered frame and state nothing about the filter.
- Dashboard.MonthlyUsers: the table is keyed by month number. The bin's `dteday` is the derived value `MonthEnd(m)`, and the `month` text is the derived pair `BinLabel(m)`, so the exact `strftime('%b %Y')` spelling ("Jan 2012") is not modelled.
- Dashboard.MonthlyTotal, Dashboard.WeekdayTable, Dashboard.HourlyTable, Dashboard.SeasonTable, Dashboard.WeatherTable, Dashboard.TempTable: the counters and their sums are unbounded integers in all six tables, so int64 overflow of a column sum is not modelled.
- Binning.Cut: `temp` is a mathematical real, so IEEE rounding, NaN temperatures and pandas' decimal handling of the edges are not modelled.
- Missing (NaN) values in the input's `hr`, `weekday`, `season`, `weathersit` and `dteday` columns are not modelled. Every input record has a value for each column; only the categorical re-type and the temperature cut produce missing keys.
- Dashboard.Frame.CreateTempUsers: the frame's other columns are not modelled, only the records and the `temp_range` column. The column is a sequence held in a field of the frame, not a NumPy buffer written in place.
- The `labels` list (etc/dashboard.py:68) is carried as `Binning.Band.Label`. The table's key column holds the band, whose label is its text.
- The invariant `cnt == casual + registered` is not assumed. Every counter is summed on its own.
