# Claims dashboard: row transformations

A Dafny model of the data-shaping layer of a small claims dashboard. The
dashboard loads a sheet of insurance claims (one row per claim line:
MONTH as an integer `YYYYMM` code, PAYER, CLAIM_SPECIALTY, PAID_AMOUNT)
and draws three charts. This model covers the work done on the rows
before any chart is drawn:

- **Preprocessing** (`dash/main.py`, lines 20-24). Rows of the two
  known-bad periods 201900 and 202007 are dropped. Specialty labels are
  upper-cased, and non-string labels become missing. MONTH codes are
  parsed into first-of-month dates.
- **Time series** (`plot_time_series`, `dash/deck.py` lines 12-34). The
  rows are summed per month. The month axis is extended by six calendar
  months. The code sets the index vectors that go into the linear trend
  fit and the ones it asks predictions for.
- **Stacked area** (`plot_stacked_area`, lines 53-62). Amounts are summed
  per (payer, month). The code builds the list of payers and one series of
  monthly sums per payer.
- **Bar chart** (`plot_bar`, lines 87-98). Rows are restricted to a
  year/month window. The ten specialties with the largest sums in the
  reference year are kept. The window is restricted to those specialties
  and re-summed by (year, specialty), largest first.

Every pandas step is a function over a sequence of rows. Months are
`(year, month)` pairs. Amounts are unbounded signed integers, and refunds
are negative. Missing cells are `None`. The modules are:

| file | module | contents |
|---|---|---|
| wrappers.dfy | `Wrappers` | `Option`, `Result` |
| months.dfy | `Months` | `YearMonth`, chronological order, month arithmetic |
| orders.dfy | `Orders` | strict (total) orders, Python string order, lexicographic pair order |
| grouping.dfy | `Grouping` | boolean-mask filtering, `unique()`, `groupby().sum()`, descending sort, taking the first n |
| claims.dfy | `Claims` | raw and preprocessed rows, errors |
| preprocessing.dfy | `Preprocessing` | `dash/main.py` lines 20-24 |
| time_series.dfy | `TimeSeries` | `plot_time_series` data |
| stacked_area.dfy | `StackedArea` | `plot_stacked_area` data |
| bar.dfy | `Bar` | `plot_bar` data |

`pandas.sort_values` is not stable, so equal sums may come out in any
order. The model's `SortDesc` is one admissible outcome. The lemmas about
the top list and the comparison (`TopListAnyTieOrder`,
`ComparisonAnyTieOrder`) hold for every descending permutation of the
grouped sums. Results are therefore specified only up to the order of
equal amounts.

### Behaviour worth knowing

- The last month is not held out of the trend fit. At `dash/deck.py:27`,
  `ts.loc[:adj_size]` is label-inclusive, and `adj_size = real_size - 1`.
  The fit therefore receives all `real_size` totals, paired with indices
  `1..real_size` (`LocUpToLastKeepsAll`, `TrendInputs`).
- The code has no tie-break rule for equal sums.
- The code has no check of its own for short series or for an empty
  reference year. On a non-empty table, an empty reference year gives an
  empty chart (`EmptyReferenceYear`). A table with a single month fails inside
  statsmodels (`PlotTimeSeries`, see "## Left out").
- Missing specialties are not grouped into an "unknown" bucket.
  `groupby` drops NaN keys at `dash/deck.py:92`, so the top list holds no
  missing value, and the `isin` at line 96 keeps no row without a
  specialty. Such rows take no part in the bar chart.
- Upper-casing does merge distinct labels that differ only in letter case
  (`NormalizeMergesCaseVariants`). That is its purpose.
- A two-key `groupby` sorts by both keys. Its secondary key is not in
  first-seen order.
- The core raises five errors, all from the libraries it calls:
  - pandas rejects a MONTH code that is malformed or out of its timestamp
    range (`InvalidPeriod`);
  - `periods[-1]` fails on an empty table (`NoPeriods`);
  - `results.predict` fails on a one-month table, because the training
    matrix then has no constant column (`PredictShape`);
  - `plot_bar` fails on an empty table at `dash/deck.py:88`. `apply` calls
    its lambda on nothing there, so the empty MONTH column keeps its date
    type, and comparing it with an int raises (`DateComparison`). The
    dashboard never reaches this, because `plot_time_series` has already
    failed on the empty table;
  - `pd.date_range` at `dash/deck.py:17-20` overflows pandas' timestamp
    range when the last period is after October 2261. This one is not
    modelled; see the `TimeSeries.Projection` line under "## Left out".

## Model

| member | source | states |
|---|---|---|
| `Grouping.Filter` | dash/main.py:20 | a boolean mask keeps exactly the rows that satisfy it, and no others |
| `Grouping.FilterCount` | dash/main.py:20 | every passing row is kept as often as it occurs, and every failing row is dropped |
| `Grouping.FilterConcat` | dash/main.py:20 | filtering distributes over concatenation, so the kept rows stay in their original order |
| `Preprocessing.DropBlacklisted` | dash/main.py:20 | a row is kept iff its code is neither 201900 nor 202007, and a sheet without those codes is unchanged |
| `Preprocessing.DropBlacklistedCount` | dash/main.py:20 | each other row keeps its multiplicity, and blacklisted rows have none |
| `Preprocessing.DropBlacklistedKeepsOrder` | dash/main.py:20 | the filter keeps row order |
| `Preprocessing.UpperChar` | dash/main.py:22-23 | a lower-case ASCII letter moves to its capital, and every other character is unchanged |
| `Preprocessing.NormalizeSpecialty` | dash/main.py:22-23 | a string label becomes its upper-case form, of the same length with no lower-case letter, and a non-string label becomes missing |
| `Preprocessing.NormalizeSpecialtyIdempotent` | dash/main.py:22-23 | normalising a label twice gives the same as normalising it once |
| `Preprocessing.NormalizeSpecialtiesIdempotent` | dash/main.py:22-23 | applying the column rewrite twice equals applying it once |
| `Preprocessing.NormalizeMergesCaseVariants` | dash/main.py:21-23 | two labels normalise to the same label iff they are equal up to ASCII letter case (both directions) |
| `Preprocessing.NormalizeReducesLabels` | dash/main.py:21-23 | the number of distinct non-missing labels never grows |
| `Preprocessing.NormalizeSpecialties` | dash/main.py:22-23 | the row count is unchanged, and each row differs only in its normalised specialty |
| `Preprocessing.ParseMonth` | dash/main.py:24 | a code parses iff it lies in 167710..226204 (the months pandas' nanosecond timestamps can hold) with its last two digits in 1..12; the date's code is the input; otherwise InvalidPeriod(code) |
| `Preprocessing.ParseMonthRoundTrip` | dash/main.py:24 | every real month from October 1677 to April 2262 parses back from its own code |
| `Preprocessing.OutOfBoundsRejected` | dash/main.py:24 | well-formed codes outside the timestamp range, such as 100001 and 999912, are rejected; the range's first and last months are accepted |
| `Preprocessing.ParseMonths` | dash/main.py:24 | the column parses iff every code is valid; on success the rows keep count, order, payer, label and amount; on failure the error names the first bad code |
| `Preprocessing.Preprocess` | dash/main.py:20-24 | succeeds iff every non-blacklisted code is valid; the result matches the kept rows one to one, with the date parsed, the label normalised and the amount unchanged |
| `Preprocessing.BlacklistShieldsParser` | dash/main.py:20-24 | 201900 itself does not parse, yet a sheet whose only bad code is 201900 is accepted, because the filter runs before the parse |
| `TimeSeries.PreprocessedRowsValid` | dash/main.py:24 | every date the preprocessing produces is a real calendar month |
| `Grouping.GroupBySum` | dash/deck.py:12 | one entry per distinct key; keys strictly ascending; each value is the sum of that key's amounts |
| `Grouping.GroupBySumTotal` | dash/deck.py:12 | the group sums add up to the sum of all amounts |
| `Grouping.GroupBySumDetermined` | dash/deck.py:12 | any sequence with those three properties is the group-by result |
| `Grouping.TotalsSum` | dash/deck.py:12 | over duplicate-free keys that cover all entries, the per-key sums add up to the total |
| `TimeSeries.MonthlyTotals` | dash/deck.py:12 | one total per month that has rows, in ascending month order, each the sum of that month's amounts, negatives included |
| `TimeSeries.MonthlyTotalsSum` | dash/deck.py:12 | the monthly totals add up to the total amount, and there are as many as distinct months |
| `Grouping.Unique` | dash/deck.py:16 | `unique()` lists each value exactly once, and lists every value |
| `TimeSeries.LastPeriod` | dash/deck.py:16-18 | on a non-empty table, `periods[-1]` is a month of the table; on an empty table it fails with NoPeriods |
| `TimeSeries.LastPeriodOfChronologicalSheet` | dash/deck.py:16-18 | on a chronologically ordered sheet, `periods[-1]` is the last row's month and the latest month |
| `Grouping.UniqueOfSorted` | dash/deck.py:16 | on a sorted column, `unique()` is strictly ascending and ends with the column's last value |
| `Months.Next` | dash/deck.py:17-20 | the following month is a real month and is later; December rolls over into January of the next year |
| `Months.AddMonthsWithinYear` | dash/deck.py:19 | moving k <= 12 months forward stays in the year while the month number stays at most 12, and otherwise rolls over once |
| `Months.AddMonthsIncreasing` | dash/deck.py:17-20 | a larger month offset gives a strictly later month |
| `TimeSeries.Projection` | dash/deck.py:17-20 | the projection has exactly six dates |
| `TimeSeries.ProjectionMonths` | dash/deck.py:17-20 | the six dates are P+1 … P+6, with explicit year roll-over; they are real months, strictly increasing and after P |
| `TimeSeries.ForecastAxis` | dash/deck.py:21 | the union axis is strictly increasing, with no duplicates, and holds exactly the observed and projected months; it fails iff the table is empty |
| `TimeSeries.ForecastAxisOfLatest` | dash/deck.py:21-25 | when P is the latest month, the axis is the totals' months followed by the projection, and has `real_size + 6` entries |
| `TimeSeries.LocUpTo` | dash/deck.py:27 | a label-inclusive slice is a prefix that includes the row labelled `last` |
| `TimeSeries.LocUpToLastKeepsAll` | dash/deck.py:24-27 | `ts.loc[:real_size - 1]` is all of `ts` |
| `TimeSeries.Range` | dash/deck.py:28 | `range(lo, hi)` lists lo, lo+1, … up to hi - 1 |
| `TimeSeries.AddConstant` | dash/deck.py:29 | with `has_constant='skip'`, each regressor gets the constant 1 in front, unless the column already is a non-zero constant, which is returned as a single column |
| `TimeSeries.IndicesConstantIffSingle` | dash/deck.py:28-29 | the regressor 1..real_size counts as a constant exactly when `real_size` is 1 |
| `TimeSeries.TrendInputs` | dash/deck.py:23-34 | fails with a predict shape error iff there is one total; otherwise the fit gets all `real_size` totals as targets, paired with rows (1, i) for i in 1..real_size; predictions are asked for rows (1, i) for i in 1..real_size+6; the training rows are a prefix of those |
| `TimeSeries.PlotTimeSeries` | dash/deck.py:12-34 | fails iff the table has at most one month: with NoPeriods when it is empty, and with the predict shape error when it has one month; otherwise the view holds the monthly totals, the forecast axis and exactly the trend inputs of those totals, whose training targets and prediction rows number `real_size` and `real_size + 6` |
| `Orders.StrLessIrreflexive` | dash/deck.py:53 | no string sorts before itself |
| `Orders.StrLessTransitive` | dash/deck.py:53 | Python's string order is transitive |
| `Orders.StrLessTrichotomy` | dash/deck.py:53 | any two different strings are ordered one way or the other |
| `Orders.StrLessIsTotal` | dash/deck.py:53 | Python's string order is a strict total order |
| `Orders.LexIsTotal` | dash/deck.py:53 | sorting by two keys in turn is a strict total order |
| `StackedArea.PayersByMonths` | dash/deck.py:53 | one sum per (payer, month) pair that occurs, ordered by payer then month |
| `StackedArea.PayerColumnSorted` | dash/deck.py:53-55 | the payer column of the grouped table is in ascending order |
| `StackedArea.PayerLabels` | dash/deck.py:55 | every payer of the table appears exactly once, in ascending order |
| `StackedArea.PayerSeries` | dash/deck.py:62 | one value per month in which the payer has rows, months ascending, each the payer's sum for that month |
| `StackedArea.PayerSeriesLength` | dash/deck.py:62 | a series is exactly as long as the number of months the payer has rows in, with no padding for absent months |
| `StackedArea.PayerSeriesDetermined` | dash/deck.py:62 | any month-sorted sequence of the payer's monthly sums equals the series, so the sort has one outcome |
| `Bar.Window` | dash/deck.py:87-90 | keeps exactly the rows with year >= last_year - 1 and month-of-year <= last_months; each kept row's YEAR is the year of its MONTH |
| `Bar.WindowKeepsOrder` | dash/deck.py:87-89 | the window keeps the rows in their order |
| `Bar.ReferenceEntries` | dash/deck.py:92 | one (specialty, amount) entry per window row of YEAR `last_year` with a specialty, in order, carrying that row's amount; rows without a specialty are dropped as `groupby` drops NaN keys |
| `Bar.SpecialtySums` | dash/deck.py:92-93 | one sum per specialty of the reference year, with distinct specialties |
| `Grouping.SortDesc` | dash/deck.py:93 | the result is a permutation of the input, sorted by amount, descending |
| `Grouping.Take` | dash/deck.py:93 | `[:n]` is the prefix of length min(n, len) |
| `Grouping.PermutationDistinctKeys` | dash/deck.py:93 | reordering entries with distinct keys keeps the keys distinct |
| `Grouping.TopN` | dash/deck.py:93 | the first n of a descending permutation has at most n distinct entries from the input, still descending, and none smaller than a left-out entry |
| `Bar.TopOfSorted` | dash/deck.py:92-93 | the first ten of any descending permutation of the group sums satisfy the top-list property |
| `Bar.TopListAnyTieOrder` | dash/deck.py:92-93 | whatever order ties take, the first ten are min(10, #specialties) distinct reference-year specialties with their sums, descending, none below an unselected specialty's sum |
| `Bar.TopSpecialties` | dash/deck.py:92-93 | the computed top list has that property |
| `Bar.ComparisonEntries` | dash/deck.py:95-97 | one ((YEAR, specialty), amount) entry per window row whose specialty is in the top list, in order, carrying that row's amount; its keys are exactly those rows' pairs |
| `Bar.YearSpecialtySums` | dash/deck.py:95-98 | one sum per (year, specialty) pair that occurs among those rows, with distinct pairs |
| `Bar.PermutedGroups` | dash/deck.py:98 | reordering the group sums keeps one entry per occurring key, each with its sum |
| `Bar.ComparisonAnyTieOrder` | dash/deck.py:95-98 | whatever order ties take, the sorted result has one entry per occurring (year, top specialty) pair, each the sum of its rows, descending |
| `Bar.Comparison` | dash/deck.py:95-98 | the computed comparison has that property |
| `Bar.PlotBar` | dash/deck.py:87-98 | fails with DateComparison iff the table is empty; otherwise window, top list and comparison together satisfy the comparison property |
| `Bar.PlotBarKeys` | dash/deck.py:95-98 | on a non-empty table, every entry is for a top-list specialty and for a year from the window, with year >= last_year - 1 |
| `Bar.DefaultPlotBar` | dash/main.py:31 | with the defaults `last_year=2020, last_months=6`, on a non-empty table every bar is for a year from 2019 on and stands for rows of that year and specialty dated no later than June |
| `Bar.EmptyReferenceYear` | dash/deck.py:92-98 | on a non-empty table, a reference year without rows gives an empty top list and an empty chart, with no error |

## Left out

- The OLS fit and its predicted values (`dash/deck.py:30-34`). They are
  floating-point regression inside statsmodels. Only the index and length
  bookkeeping is modelled.
- The percentage normalisation of the stacked area (`dash/deck.py:66`).
  plotly's `groupnorm='percent'` does it, not code in this repository.
- All figure construction, traces and layout (`dash/deck.py:37-47`,
  `56-80`, `101-109`). This covers the conversion of months to strings at
  line 13, the unsorted `x_labels` of line 54, and how plotly pairs each
  payer's series with those labels.
- `dash/main.py` lines 6-17 and 26-66: environment configuration, reading
  the Excel file, the Dash layout and the HTTP server.
- Preprocessing.ParseMonth: only six-digit codes are modelled. pandas'
  `%Y%m` pattern also accepts a five-digit code such as 20203 (March 2020).
  The model rejects such a code.
- Preprocessing.UpperChar: only ASCII letters are case-mapped. Python's
  `str.upper` also maps other scripts, sometimes to longer strings.
- Amounts are integers. Fractional amounts and floating-point rounding in
  the sums are not modelled.
- PAYER is always a string. A missing payer cell, which pandas would drop
  from the payer groups, is not modelled.
- TimeSeries.PlotTimeSeries, TimeSeries.TrendInputs and
  TimeSeries.AddConstant: a one-month table is modelled as failing when
  `results.predict` (`dash/deck.py:33-34`) gets a two-column matrix for a
  one-parameter fit. The exact statsmodels exception and its message are
  not modelled.
- TimeSeries.AddConstant: an empty regressor is excluded by its
  precondition. numpy rejects one, and `plot_time_series` never builds one,
  because line 18 fails first on an empty table.
- TimeSeries.Projection: pandas cannot represent dates after 2262-04-11,
  so for a last period after October 2261 the source's `date_range` at
  `dash/deck.py:17-20` fails. The model still returns the six months.
- Grouping.Unique and TimeSeries.LastPeriod: the first-seen order of
  `unique()` is not stated. The contracts give only the distinct values.
  The order is pinned down only for a chronologically sorted column
  (`UniqueOfSorted`, `LastPeriodOfChronologicalSheet`).
- The order pandas gives to equal sums in `sort_values` is not modelled.
  The lemmas hold for every order of ties.
