/** `period_index` (wetter.py and myweather.py): give every dated row a
    comparison bucket (`period`) and a position inside that bucket
    (`period_xaxis`), for the year, month or week comparison plots. */
module PeriodIndexing {
  import opened Wrappers
  import opened Calendar
  import opened Frames

  /** The three period strings `period_index` accepts. */
  datatype Period = Year | Month | Week

  /** The reference year that `x.replace(year = 2000)` moves every date to. */
  const ReferenceYear: int := 2000

  /** The if/elif chain on the period string; anything else raises
      `ValueError('Wrong period format')`. */
  function ParsePeriod(s: string): (r: Result<Period, Error>)
    ensures r == Success(Year) <==> s == "year"
    ensures r == Success(Month) <==> s == "month"
    ensures r == Success(Week) <==> s == "week"
    ensures r.Failure? <==> s != "year" && s != "month" && s != "week"
    ensures r.Failure? ==> r.error == ValueError("Wrong period format")
  {
    if s == "year" then Success(Year)
    else if s == "month" then Success(Month)
    else if s == "week" then Success(Week)
    else Failure(ValueError("Wrong period format"))
  }

  /** A `period_xaxis` value: a date in the reference year, a day of the
      month, or a weekday name. */
  datatype Axis = AxisDate(date: Date) | AxisDay(day: int) | AxisName(name: string)

  /** The bucket of a date: its year, its month number, or its ISO week number. */
  function Bucket(p: Period, d: Date): (b: int)
    ensures p == Month ==> 1 <= b <= 12
    ensures p == Week ==> 1 <= b <= 53
  {
    match p
    case Year => d.year
    case Month => d.month
    case Week => IsoWeekRange(d); IsoWeek(d)
  }

  /** Month and day moved to the reference year, always a real date because
      the reference year is a leap year and so has a February 29. */
  function InReferenceYear(d: Date): (r: Date)
    ensures r.year == ReferenceYear && r.month == d.month && r.day == d.day
  {
    assert IsLeapYear(ReferenceYear);
    YearMonthDay(ReferenceYear, d.month, d.day)
  }

  /** The position of a date inside its bucket. */
  function AxisValue(p: Period, d: Date): (a: Axis)
    ensures p == Year ==> a.AxisDate?
    ensures p == Month ==> a.AxisDay? && 1 <= a.day <= 31
    ensures p == Week ==> a.AxisName? && a.name in WeekdayNames
  {
    match p
    case Year => AxisDate(InReferenceYear(d))
    case Month => AxisDay(d.day)
    case Week => AxisName(WeekdayName(d))
  }

  /** A row of the frame `period_index` returns: the MultiIndex (`period`,
      `time`), the new `period_xaxis` column and the original cells. */
  datatype IndexedRow = IndexedRow(period: int, time: Date, axis: Axis, cells: map<string, Cell>)

  /** The rows in their original order and the original measurement columns. */
  datatype IndexedFrame = IndexedFrame(columns: seq<string>, rows: seq<IndexedRow>)

  function IndexRow(p: Period, r: Row): IndexedRow {
    IndexedRow(Bucket(p, r.date), r.date, AxisValue(p, r.date), r.cells)
  }

  /** `period_index(df, period)`. */
  function PeriodIndex(f: Frame, period: string): (r: Result<IndexedFrame, Error>)
    ensures r.Failure? <==> ParsePeriod(period).Failure?
    ensures r.Failure? ==> r.error == ValueError("Wrong period format")
    ensures r.Success? ==> r.value.columns == f.columns && |r.value.rows| == |f.rows|
  {
    match ParsePeriod(period)
    case Failure(e) => Failure(e)
    case Success(p) =>
      Success(IndexedFrame(f.columns, seq(|f.rows|, i requires 0 <= i < |f.rows| => IndexRow(p, f.rows[i]))))
  }

  // ---------------------------------------------------------------------
  // What period_index promises

  /** Any period string other than 'year', 'month' or 'week' raises the
      ValueError and yields no frame; those three always succeed. */
  lemma PeriodIndexRejects(f: Frame, period: string)
    ensures PeriodIndex(f, period) == Failure(ValueError("Wrong period format"))
      <==> period != "year" && period != "month" && period != "week"
  {
  }

  /** Each row keeps its date and cells; its bucket and axis value depend on its
      own date only. */
  lemma PeriodIndexRowwise(f: Frame, period: string, i: int)
    requires PeriodIndex(f, period).Success? && 0 <= i < |f.rows|
    ensures var ix := PeriodIndex(f, period).value; var p := ParsePeriod(period).value;
      && ix.rows[i].time == f.rows[i].date
      && ix.rows[i].cells == f.rows[i].cells
      && ix.rows[i].period == Bucket(p, f.rows[i].date)
      && ix.rows[i].axis == AxisValue(p, f.rows[i].date)
  {
  }

  /** Two rows with the same date, in any two frames, get the same bucket and axis value. */
  lemma PeriodIndexDependsOnDateOnly(f: Frame, g: Frame, period: string, i: int, j: int)
    requires PeriodIndex(f, period).Success?
    requires 0 <= i < |f.rows| && 0 <= j < |g.rows| && f.rows[i].date == g.rows[j].date
    ensures PeriodIndex(f, period).value.rows[i].period == PeriodIndex(g, period).value.rows[j].period
    ensures PeriodIndex(f, period).value.rows[i].axis == PeriodIndex(g, period).value.rows[j].axis
  {
  }

  /** 'year': the bucket is the year and the axis the same month and day in 2000. */
  lemma PeriodIndexYear(f: Frame, i: int)
    requires 0 <= i < |f.rows|
    ensures var row := PeriodIndex(f, "year").value.rows[i]; var d := f.rows[i].date;
      row.period == d.year && row.axis == AxisDate(YearMonthDay(2000, d.month, d.day))
  {
  }

  /** 'month': the bucket is the month number, 1..12, and the axis the day of the month, 1..31. */
  lemma PeriodIndexMonth(f: Frame, i: int)
    requires 0 <= i < |f.rows|
    ensures var row := PeriodIndex(f, "month").value.rows[i]; var d := f.rows[i].date;
      && row.period == d.month && 1 <= row.period <= 12
      && row.axis == AxisDay(d.day) && 1 <= row.axis.day <= 31
  {
  }

  /** 'week': the bucket is the ISO week number, 1..53, and the axis the weekday name. */
  lemma PeriodIndexWeek(f: Frame, i: int)
    requires 0 <= i < |f.rows|
    ensures var row := PeriodIndex(f, "week").value.rows[i]; var d := f.rows[i].date;
      && row.period == IsoWeek(d) && 1 <= row.period <= 53
      && row.axis == AxisName(WeekdayNames[Weekday(d)])
  {
  }

  /** Buckets ignore the year for 'month' and 'week': dates share a bucket
      exactly when they share the month number, or the ISO week number,
      whatever their years. */
  lemma BucketIgnoresYear(a: Date, b: Date)
    ensures Bucket(Month, a) == Bucket(Month, b) <==> a.month == b.month
    ensures Bucket(Week, a) == Bucket(Week, b) <==> IsoWeek(a) == IsoWeek(b)
  {
  }

  /** Inside one bucket the axis values follow the calendar: for 'year' the
      reference-year dates are in the order of the original dates, for
      'month' (within one month of one year) the days are, and for 'week'
      (within one ISO week) the weekdays are. */
  lemma AxisFollowsCalendar(a: Date, b: Date)
    ensures a.year == b.year ==>
      (LessEq(a, b) <==> LessEq(AxisValue(Year, a).date, AxisValue(Year, b).date))
    ensures a.year == b.year && a.month == b.month ==>
      (LessEq(a, b) <==> AxisValue(Month, a).day <= AxisValue(Month, b).day)
    ensures IsoCalendar(a).year == IsoCalendar(b).year && IsoCalendar(a).week == IsoCalendar(b).week ==>
      (LessEq(a, b) <==> Weekday(a) <= Weekday(b))
  {
    if IsoCalendar(a).year == IsoCalendar(b).year && IsoCalendar(a).week == IsoCalendar(b).week {
      SameIsoWeekOrder(a, b);
    }
  }

  /** Week buckets across a year boundary: 2020-12-31 (a Thursday) is in
      week 53, and so is the Sunday 2021-01-03 that follows it. */
  lemma WeekBucketYearEnd()
    ensures Bucket(Week, YearMonthDay(2020, 12, 31)) == 53
    ensures Bucket(Week, YearMonthDay(2021, 1, 3)) == 53
    ensures WeekdayName(YearMonthDay(2021, 1, 3)) == "Sunday"
  {
    assert DaysBeforeYear(2020) == 737424;
    assert DaysBeforeYear(2021) == 737790;
    assert DaysBeforeYear(2022) == 738155;
    assert Week1Monday(2020) == 737423;
    assert Week1Monday(2021) == 737794;
  }

  /** The Monday 2019-12-30 is already in week 1 (of ISO year 2020). */
  lemma WeekBucketYearStart()
    ensures Bucket(Week, YearMonthDay(2019, 12, 30)) == 1
    ensures WeekdayName(YearMonthDay(2019, 12, 30)) == "Monday"
  {
    assert DaysBeforeYear(2019) == 737059;
    assert DaysBeforeYear(2020) == 737424;
    assert DaysBeforeYear(2018) == 736694;
    assert Week1Monday(2019) == 737059;
    assert Week1Monday(2020) == 737423;
  }

  /** The first and the last day of calendar year 2019. */
  const FirstDay2019: Date := YearMonthDay(2019, 1, 1)
  const LastDay2019: Date := YearMonthDay(2019, 12, 31)

  /** 2019-01-01 is a Tuesday in week 1 of ISO year 2019. */
  lemma WeekBucketJanuaryFirst()
    ensures IsoCalendar(FirstDay2019) == IsoDate(2019, 1, 2)
    ensures WeekdayName(FirstDay2019) == "Tuesday"
  {
    assert Ordinal(FirstDay2019) == 737060;
    assert DaysBeforeYear(2018) == 736694;
    assert DaysBeforeYear(2019) == 737059;
    assert DaysBeforeYear(2020) == 737424;
    assert Week1Monday(2019) == 737059;
    assert Week1Monday(2020) == 737423;
  }

  /** 2019-12-31 is a Tuesday in week 1 of ISO year 2020. */
  lemma WeekBucketDecemberLast()
    ensures IsoCalendar(LastDay2019) == IsoDate(2020, 1, 2)
    ensures WeekdayName(LastDay2019) == "Tuesday"
  {
    assert Ordinal(LastDay2019) == 737424;
    assert DaysBeforeYear(2018) == 736694;
    assert DaysBeforeYear(2019) == 737059;
    assert DaysBeforeYear(2020) == 737424;
    assert Week1Monday(2019) == 737059;
    assert Week1Monday(2020) == 737423;
  }

  /** A week bucket gathers dates of different ISO years: within calendar
      year 2019, January 1 (ISO year 2019) and December 31 (ISO year 2020)
      are both Tuesdays in bucket 1, so the week-1 series of a 2019 date
      range names "Tuesday" twice. */
  lemma WeekBucketMixesIsoYears()
    ensures Bucket(Week, FirstDay2019) == 1 == Bucket(Week, LastDay2019)
    ensures IsoCalendar(FirstDay2019).year == 2019
    ensures IsoCalendar(LastDay2019).year == 2020
    ensures WeekdayName(FirstDay2019) == "Tuesday" == WeekdayName(LastDay2019)
  {
    WeekBucketJanuaryFirst();
    WeekBucketDecemberLast();
  }
}
