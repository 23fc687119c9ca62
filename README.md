# Weather dashboard: table and calendar logic

The repository is a Streamlit dashboard. It fetches daily observations from
Meteostat for the station nearest a chosen coordinate and plots them with
Plotly. Under the UI sits a small amount of table and calendar logic. This
project models that logic in Dafny and proves what it does:

- **Cleaning** (`myweather.py`): `fill_nans` fills missing cells from a fixed
  map. `drop_columns_with_more_than_80_nan` removes every column whose
  missing fraction is at least 0.8.
- **Period bucketing** (`period_index`): each dated row gets a bucket
  (`period`) and a position in that bucket (`period_xaxis`):
  - `year`: the year, and the same month and day moved to the year 2000;
  - `month`: the month number, and the day of the month;
  - `week`: the ISO 8601 week number, and the weekday name;
  - anything else raises `ValueError('Wrong period format')`.

  Under this sits a model of the proleptic Gregorian calendar: leap years,
  day ordinals, weekdays, and the ISO week number computed as CPython's
  `date.isocalendar` does. That computation is proved equal to the week-date
  rule of section 4.1.4 of ISO 8601:2004. The rule is that a week belongs to
  the year that holds its Thursday, and weeks are counted in 7-day blocks
  from that year's start.
- **Comparison grouping** (`plot_period`, `plot_period_choose_date`): the
  period-indexed table is split into one series per distinct bucket, in the
  ascending order of `df.index.levels[0]`. Each series holds that bucket's
  `(period_xaxis, t_param)` pairs in input order. The grouping loop is a
  method. It is proved equal to a specification function, and that function's
  properties (ordering, partition, contents, errors) are proved as lemmas.
- **`filter_for_date`**: keeps the rows whose date lies between two dates,
  both ends included.
- **The option dispatch** in `wetter.py`: maps the two radio selections to the
  `(period, t_param)` arguments of `plot_period_choose_date`.

`myweather.py` is a refactored copy of the functions in `wetter.py`. The two
files' `period_index`, `plot_period`, `plot_period_choose_date` and
`filter_for_date` are identical line for line (`wetter.py:85-130` matches
`myweather.py:105-150`). Each is modelled once, and the table below cites
both files.

Modules, one per file: `Wrappers` (Option, Result), `Calendar`,
`Frames` (the table), `Cleaning`, `PeriodIndexing`, `Comparison`,
`DateFilter`, `Dispatch`.

Modelling choices:

- A table (`Frames.Frame`) is a sequence of column names plus a sequence
  of rows. Each row has a date and a map from column name to
  `Option<Value>`; `None` stands for NaN.
- Measured values are opaque: `Num(n)` stands in for the floats.
  `Text(s)` is what `fillna` writes when it is given a string.
- The model follows the code:
  - `fillna` with a dict fills values. The three `"ffill"` entries of
    `nan_dict` therefore write the string `"ffill"` into missing `tmin`,
    `wspd` and `pres` cells. They do not forward-fill.
  - Within a series, points keep the input (date) order. They are not
    re-sorted by axis value.
- The docstring of `drop_columns_with_more_than_80_nan` (myweather.py:23)
  says "more than 80%", but line 25 tests `>= 0.8`. The model follows the
  test, so a column with exactly 80% missing cells is dropped
  (`Cleaning.DropBoundary`).
- The 0.8 threshold is stated as the integer test `5 * missing >= 4 * rows`.
  `Cleaning.DroppedIsFractionTest` proves it equal to `missing / rows >= 0.8`
  over the reals.
- With zero rows the fraction is 0/0, which is NaN, so no column is dropped.

## Model

| member | source | states |
|---|---|---|
| `Calendar.IsoCalendarIsThursdayRule` | myweather.py:115 | the ISO year is the calendar year or a neighbour, the Thursday of the date's week lies in it, the week number counts the 7-day blocks of that year up to that Thursday, it is 1..53, and the ISO weekday is the weekday counted from Monday = 1 |
| `Calendar.SameIsoWeekSameMonday` | wetter.py:95 | two dates with the same ISO year and week number share the Thursday of their week, so they lie in one Monday-to-Sunday week |
| `Calendar.SameIsoWeekOrder` | wetter.py:95-96 | within one ISO week the order of dates is the order of their weekdays |
| `Calendar.OrdinalOrder` | myweather.py:135 | the order of dates (year, then month, then day) is the order of their day numbers, and equal day numbers mean equal dates |
| `Calendar.YearLength` | wetter.py:95 | the closed-form day count before a year agrees with the leap-year rule: each year adds 366 days if it is a leap year, else 365 |
| `Calendar.MonthTableConsistent` | wetter.py:95 | the table of days before each month agrees with the month lengths, and December ends the year |
| `Calendar.NextDayStep` | myweather.py:116 | the date after d (next day of the month, else the 1st of the next month, else January 1 of the next year) has the next day number and the next weekday, Sunday followed by Monday |
| `Calendar.NextDayIsSuccessor` | myweather.py:116 | no date lies strictly between a date and the date after it |
| `Calendar.WeekdayNameFromEpoch` | myweather.py:116 | 1970-01-01 is a Thursday, and every date's `day_name` is the name seven-periodic from it: `WeekdayNames[(ordinal - ordinal(1970-01-01) + 3) % 7]` |
| `Cleaning.FillNans` | myweather.py:11-20 | `fill_nans` keeps the columns, the row count, each row's date and each row's set of cells, and keeps a table well formed |
| `Cleaning.FillNansMissingCells` | myweather.py:13-20 | a missing `prcp` or `snow` cell becomes 0, a missing `tmin`, `wspd` or `pres` cell becomes the literal string "ffill", and a missing cell of any other column stays missing |
| `Cleaning.FillNansKeepsOthers` | myweather.py:20 | present cells, and every cell of a column outside `nan_dict`, are unchanged |
| `Cleaning.FillNansNoMissing` | myweather.py:13-20 | after `fill_nans` no column named in `nan_dict` has a missing cell |
| `Cleaning.FillNansIdempotent` | myweather.py:11-20 | applying `fill_nans` twice gives the same table as applying it once |
| `Cleaning.MissingCount` | myweather.py:24 | the per-column `isnull().sum()` is at most the row count |
| `Cleaning.DroppedIsFractionTest` | myweather.py:24-25 | for a non-empty table the integer test `5 * missing >= 4 * rows` holds exactly when `missing / rows >= 0.8` |
| `Cleaning.KeptColumns` | myweather.py:25-26 | a column is kept exactly when it is a column of the table that is not over the threshold |
| `Cleaning.DropColumns` | myweather.py:22-26 | the surviving columns are `KeptColumns` of the original list, so they keep their order (`Cleaning.KeptColumnsAppend`); a column survives exactly when its missing fraction is below 0.8 (or the table has no rows); every row and its date are kept; every surviving cell keeps its value; a well-formed table's rows hold exactly the surviving columns |
| `Cleaning.KeptColumnsAppend` | myweather.py:26 | column selection distributes over concatenation, so kept columns keep their relative order |
| `Cleaning.KeptColumnsDistinct` | myweather.py:26 | distinct column names stay distinct |
| `Cleaning.DropColumnsWellFormed` | myweather.py:26 | dropping columns keeps a table well formed |
| `Cleaning.DropBoundary` | myweather.py:25 | a column exactly 80% missing is dropped; one below 80% is kept |
| `Cleaning.DropColumnsNoRows` | myweather.py:24-25 | with zero rows (fraction 0/0 = NaN) nothing is dropped and the table is unchanged |
| `Cleaning.DropAllMissing` | myweather.py:24-26 | a column missing in every row of a non-empty table is dropped |
| `Cleaning.DropKeepsComplete` | myweather.py:24-26 | a column with no missing cell is kept |
| `PeriodIndexing.ParsePeriod` | myweather.py:108-118 | 'year', 'month' and 'week' select their branch; every other string raises `ValueError('Wrong period format')` |
| `PeriodIndexing.Bucket` | myweather.py:109-115 | a month bucket is 1..12 and a week bucket 1..53 |
| `PeriodIndexing.InReferenceYear` | myweather.py:110 | `replace(year = 2000)` keeps month and day and always gives a real date, 2000 being a leap year |
| `PeriodIndexing.AxisValue` | myweather.py:110-116 | the year axis is a date, the month axis a day 1..31, the week axis a weekday name |
| `PeriodIndexing.PeriodIndex` | myweather.py:105-119 | it fails exactly when the period string is unrecognised, and then with the ValueError; otherwise it keeps the columns and the row count |
| `PeriodIndexing.PeriodIndexRejects` | wetter.py:97-98 | the result is the ValueError, with no frame, exactly when the period is not 'year', 'month' or 'week' |
| `PeriodIndexing.PeriodIndexRowwise` | wetter.py:85-99 | row i keeps its date as `time` and its cells; its bucket and axis are those of its own date |
| `PeriodIndexing.PeriodIndexDependsOnDateOnly` | myweather.py:107-116 | rows with the same date, in any two frames, get the same bucket and axis value |
| `PeriodIndexing.PeriodIndexYear` | myweather.py:108-110 | 'year': the bucket is the year and the axis the same month and day in 2000 |
| `PeriodIndexing.PeriodIndexMonth` | myweather.py:111-113 | 'month': the bucket is the month number 1..12 and the axis the day of the month 1..31 |
| `PeriodIndexing.PeriodIndexWeek` | myweather.py:114-116 | 'week': the bucket is the ISO week number 1..53 and the axis the weekday name |
| `PeriodIndexing.BucketIgnoresYear` | wetter.py:91-96 | dates share a month or week bucket exactly when they share the month number or the ISO week number, whatever their years |
| `PeriodIndexing.AxisFollowsCalendar` | wetter.py:88-96 | inside a bucket the axis follows the calendar: the year axis within one year, the day within one month, and the weekday within one ISO week are ordered as the dates are |
| `PeriodIndexing.WeekBucketYearEnd` | wetter.py:94-96 | 2020-12-31 and 2021-01-03 (a Sunday) are both in week 53 |
| `PeriodIndexing.WeekBucketYearStart` | myweather.py:114-116 | the Monday 2019-12-30 is already in week 1 |
| `PeriodIndexing.WeekBucketMixesIsoYears` | wetter.py:95-96 | a week bucket mixes ISO years even inside one calendar year: 2019-01-01 (ISO year 2019) and 2019-12-31 (ISO year 2020) are both Tuesdays in bucket 1, so the week-1 series of a 2019 range names "Tuesday" twice |
| `Comparison.InsertSorted` | myweather.py:124 | inserting into a strictly increasing sequence keeps it strictly increasing and adds exactly the new value |
| `Comparison.Levels` | myweather.py:124 | `df.index.levels[0]` is strictly increasing and holds exactly the buckets that occur |
| `Comparison.Select` | myweather.py:125 | `df.loc[index]` has at most as many rows as the frame |
| `Comparison.PlotPeriodChooseDate` | myweather.py:137-150 | the loop over the levels returns exactly the specification grouping (errors included) |
| `Comparison.PlotPeriod` | wetter.py:101-112 | `plot_period` is the same grouping with `t_param = 'tavg'` |
| `Comparison.SelectMembers` | wetter.py:123 | a row is in bucket b's selection exactly when it is a row of bucket b |
| `Comparison.SelectAppend` | myweather.py:143 | selection distributes over concatenation, so each bucket keeps the input row order |
| `Comparison.ConcatPartition` | myweather.py:142-143 | selecting every bucket of a strictly increasing list that covers all rows gives back the rows as a multiset |
| `Comparison.StrictlyIncreasingCard` | wetter.py:122 | a strictly increasing sequence has as many elements as distinct values |
| `Comparison.GroupSeriesBuckets` | wetter.py:122-128 | one series per distinct bucket, in strictly ascending bucket order, naming exactly the buckets that occur |
| `Comparison.GroupSeriesContents` | wetter.py:123-127 | series k holds exactly its bucket's rows in input order, paired as (`period_xaxis`, `t_param` cell) |
| `Comparison.GroupSeriesPartition` | myweather.py:142-148 | together the series partition the rows: their rows are the frame's rows as a multiset, and as many |
| `Comparison.RowInExactlyOneSeries` | wetter.py:122-125 | each row lies in the series of its own bucket, which exists, and in no other |
| `Comparison.GroupSeriesKeyError` | myweather.py:142-145 | the grouping fails exactly when the frame has rows and lacks the `t_param` column, and then with a KeyError |
| `Comparison.ComparisonSeriesErrors` | wetter.py:117-125 | `plot_period_choose_date` raises the ValueError exactly for an unknown period, and the KeyError exactly for a known period, a non-empty frame and a missing column |
| `Comparison.StrictlyIncreasingSpan` | wetter.py:122 | a strictly increasing sequence inside [lo, hi] has at most hi - lo + 1 elements |
| `Comparison.ComparisonSeriesCount` | wetter.py:120-122 | a month comparison has at most 12 series, a week comparison at most 53 |
| `DateFilter.FilterRows` | myweather.py:135 | the filter never adds rows |
| `DateFilter.FilterForDate` | wetter.py:114-115 | `filter_for_date` keeps the columns and keeps a table well formed |
| `DateFilter.FilterRowsMembers` | myweather.py:135 | a row is kept exactly when start <= date <= end, both ends included |
| `DateFilter.FilterRowsAppend` | wetter.py:115 | filtering distributes over concatenation, so kept rows keep their original order |
| `DateFilter.FilterForDateKeepsExactly` | myweather.py:134-135 | the filtered table holds exactly the rows in the inclusive range |
| `DateFilter.InRangeByOrdinal` | wetter.py:115 | the range test on dates is the range test on day numbers |
| `DateFilter.FilterRowsAllInRange` | myweather.py:135 | a table wholly inside the range comes back unchanged |
| `DateFilter.FilterForDateIdempotent` | wetter.py:114-115 | filtering twice with the same range is filtering once |
| `DateFilter.FilterRowsEmptyRange` | myweather.py:135 | with start after end no row is kept |
| `Dispatch.ChooseComparison` | wetter.py:193-212 | a chosen period is 'week', 'month' or 'year' and a chosen `t_param` is `tavg`, `tmin` or `tmax` |
| `Dispatch.ChooseComparisonDefined` | wetter.py:190-212 | a comparison is chosen exactly for the nine pairs of radio options |
| `Dispatch.ChooseComparisonPeriod` | wetter.py:193-212 | the chosen period is the lower-cased period label |
| `Dispatch.ChooseComparisonColumn` | wetter.py:194-212 | the chosen `t_param` is "t" followed by the temperature label's first word (`tavg`, `tmin`, `tmax`) |
| `Dispatch.ChooseComparisonPeriodAccepted` | wetter.py:193-212 | every chosen period is accepted by `period_index`, so the dashboard never raises its ValueError |
| `Dispatch.LowerPeriodLabels` | wetter.py:190 | the lower-cased labels 'Week', 'Month', 'Year' are 'week', 'month', 'year' |

## Left out

- Streamlit widgets, layout, text output and the download button (wetter.py:133-244): this is UI.
- The Meteostat station lookup and data fetch (wetter.py:166-174): these are network calls into a foreign library. The model takes the fetched table as input.
- `subplots` and all Plotly figure building:
  - `subplots` only indexes fixed columns and calls the charting library.
  - The comparison figures' traces, colours, titles and layout are not modelled.
  - A series' name `str(index)` is kept as the bucket number.
- `convert_df` and its `@st.cache` (wetter.py:217-222): a thin wrapper over `to_csv` plus framework caching.
- `pd.to_datetime`:
  - Its parsing is not modelled; dates are given as already-parsed (year, month, day) values.
  - Times of day are not modelled.
  - The valid years are those of Python's `datetime` (1..9999). pandas timestamps cover a narrower range.
- `day_name` locale: English weekday names only.
- Measured values: they are opaque, and integers stand in for the floats. No floating-point arithmetic is modelled.
- `Cleaning.Dropped`: tests `5 * missing >= 4 * rows` exactly. The source divides in floating point. The two tests could differ only for a fraction within about 1e-16 of 0.8, which needs more than about 10^15 rows.
- Columns named `period`, `period_xaxis` or `time` in the input are assumed not to occur. With pandas:
  - such a column would be overwritten or moved into the index;
  - `t_param = 'period_xaxis'` would select the axis column.

  The model reads `t_param` only from the original measurement columns, so these cases become a KeyError here.
- `Dispatch.ChooseComparison`: a pair of selections that no branch matches leaves `fig2` unbound in the source, and `st.plotly_chart(fig2)` then fails with a NameError. The model returns None for it. The radio buttons offer only the nine matching pairs.
