/** The proleptic Gregorian calendar as Python's `datetime` and pandas use it:
    leap years, month lengths, day ordinals (0001-01-01 is day 1), weekdays
    and the ISO 8601 week number (section 4.1.4 of ISO 8601:2004). */
module Calendar {

  datatype YearMonthDay = YearMonthDay(year: int, month: int, day: int)

  /** The year range of Python's `datetime` (MINYEAR and MAXYEAR). */
  const MinYear: int := 1
  const MaxYear: int := 9999

  predicate IsLeapYear(y: int) {
    y % 4 == 0 && (y % 100 != 0 || y % 400 == 0)
  }

  function DaysInMonth(y: int, m: int): (n: int)
    requires 1 <= m <= 12
    ensures 28 <= n <= 31
  {
    if m == 2 then (if IsLeapYear(y) then 29 else 28)
    else if m == 4 || m == 6 || m == 9 || m == 11 then 30
    else 31
  }

  function DaysInYear(y: int): int {
    if IsLeapYear(y) then 366 else 365
  }

  predicate ValidDate(d: YearMonthDay) {
    && MinYear <= d.year <= MaxYear
    && 1 <= d.month <= 12
    && 1 <= d.day <= DaysInMonth(d.year, d.month)
  }

  /** A calendar date that exists, as every `datetime` value does. */
  type Date = d: YearMonthDay | ValidDate(d) witness YearMonthDay(2000, 1, 1)

  /** The order of `datetime` values: by year, then month, then day. */
  predicate LessEq(a: YearMonthDay, b: YearMonthDay) {
    a.year < b.year
    || (a.year == b.year && (a.month < b.month || (a.month == b.month && a.day <= b.day)))
  }

  /** Days in the years before year y (the count CPython's `_days_before_year` gives). */
  function DaysBeforeYear(y: int): int {
    var p := y - 1;
    365 * p + p / 4 - p / 100 + p / 400
  }

  /** Days in the months of year y before month m (CPython's `_days_before_month`). */
  function DaysBeforeMonth(y: int, m: int): (n: int)
    requires 1 <= m <= 12
    ensures 0 <= n <= 335
  {
    [0, 31, 59, 90, 120, 151, 181, 212, 243, 273, 304, 334][m - 1]
    + (if m > 2 && IsLeapYear(y) then 1 else 0)
  }

  /** The day number of d, 0001-01-01 being day 1 (`date.toordinal`). */
  function Ordinal(d: Date): int {
    DaysBeforeYear(d.year) + DaysBeforeMonth(d.year, d.month) + d.day
  }

  /** The weekday of the day with ordinal n, 0 for Monday up to 6 for Sunday
      (day 1, 0001-01-01, is a Monday). */
  function WeekdayOfOrdinal(n: int): (w: int)
    ensures 0 <= w < 7
  {
    (n + 6) % 7
  }

  /** 0 for Monday up to 6 for Sunday (`date.weekday`). */
  function Weekday(d: Date): (w: int)
    ensures 0 <= w < 7
  {
    WeekdayOfOrdinal(Ordinal(d))
  }

  const WeekdayNames: seq<string> :=
    ["Monday", "Tuesday", "Wednesday", "Thursday", "Friday", "Saturday", "Sunday"]

  /** The English weekday name, as pandas' `Series.dt.day_name()` gives it. */
  function WeekdayName(d: Date): (name: string)
    ensures name in WeekdayNames
  {
    WeekdayNames[Weekday(d)]
  }

  /** The last date Python's `datetime` can represent. */
  predicate IsLastDate(d: Date) {
    d.year == MaxYear && d.month == 12 && d.day == 31
  }

  /** The calendar date after d: the next day of the month, else the first of
      the next month, else January 1 of the next year. */
  function NextDay(d: Date): Date
    requires !IsLastDate(d)
  {
    if d.day < DaysInMonth(d.year, d.month) then YearMonthDay(d.year, d.month, d.day + 1)
    else if d.month < 12 then YearMonthDay(d.year, d.month + 1, 1)
    else YearMonthDay(d.year + 1, 1, 1)
  }

  /** 1970-01-01, the Unix epoch, a Thursday. */
  const Epoch: Date := YearMonthDay(1970, 1, 1)

  /** The ordinal of the Monday that starts ISO week 1 of year y: the Monday of
      the week that holds January 4 (CPython's `_isoweek1monday`). */
  function Week1Monday(y: int): int {
    Week1MondayFrom(DaysBeforeYear(y) + 1)
  }

  /** The Monday that starts ISO week 1 of the year whose January 1 has
      ordinal firstDay: the Monday on or before firstDay when that is a
      Monday to Thursday, the Monday after it otherwise. */
  function Week1MondayFrom(firstDay: int): int {
    var firstWeekday := WeekdayOfOrdinal(firstDay);
    firstDay - firstWeekday + (if firstWeekday > 3 then 7 else 0)
  }

  datatype IsoDate = IsoDate(year: int, week: int, weekday: int)

  /** The ISO year, week number and weekday (1 = Monday) of the day with
      ordinal `today` in year y, given the Mondays that start ISO week 1 of
      years y - 1, y and y + 1; this is the computation of `date.isocalendar`.
      Python's `divmod` floors; so do Dafny's `/` and `%` with a positive divisor. */
  function IsoFromOrdinal(y: int, today: int, w0: int, w1: int, w2: int): IsoDate {
    var week := (today - w1) / 7;
    var day := (today - w1) % 7;
    if week < 0 then
      IsoDate(y - 1, (today - w0) / 7 + 1, (today - w0) % 7 + 1)
    else if week >= 52 && today >= w2 then
      IsoDate(y + 1, 1, day + 1)
    else
      IsoDate(y, week + 1, day + 1)
  }

  /** The ISO week date of the day with ordinal n in year y. */
  function IsoOfOrdinal(y: int, n: int): IsoDate {
    IsoFromOrdinal(y, n, Week1Monday(y - 1), Week1Monday(y), Week1Monday(y + 1))
  }

  /** The ISO year, week number and weekday (1 = Monday) of d (`date.isocalendar`). */
  function IsoCalendar(d: Date): IsoDate {
    IsoOfOrdinal(d.year, Ordinal(d))
  }

  /** The ISO week number, what pandas' `Series.dt.isocalendar().week` gives. */
  function IsoWeek(d: Date): int {
    IsoCalendar(d).week
  }

  /** The ordinal of the Thursday of the Monday-to-Sunday week that holds
      the day with ordinal n. */
  function ThursdayOfOrdinal(n: int): int {
    n - WeekdayOfOrdinal(n) + 3
  }

  /** The ordinal of the Thursday of the Monday-to-Sunday week that holds d. */
  function ThursdayOf(d: Date): int {
    ThursdayOfOrdinal(Ordinal(d))
  }

  // ---------------------------------------------------------------------
  // Lemmas about the calendar arithmetic

  /** The closed-form day count agrees with the leap-year rule: year y
      contributes exactly DaysInYear(y) days. */
  lemma YearLength(y: int)
    ensures DaysBeforeYear(y + 1) == DaysBeforeYear(y) + DaysInYear(y)
  {
    assert DaysBeforeYear(y + 1) - DaysBeforeYear(y)
        == 365 + (y / 4 - (y - 1) / 4) - (y / 100 - (y - 1) / 100) + (y / 400 - (y - 1) / 400);
    DivStep(y, 4);
    DivStep(y, 100);
    DivStep(y, 400);
    DividesChain(y);
  }

  /** 400 divides y only if 100 does, and 100 only if 4 does. */
  lemma DividesChain(y: int)
    ensures y % 400 == 0 ==> y % 100 == 0
    ensures y % 100 == 0 ==> y % 4 == 0
  {
    if y % 400 == 0 {
      MultipleMod(y, 4 * (y / 400), 100);
    }
    if y % 100 == 0 {
      MultipleMod(y, 25 * (y / 100), 4);
    }
  }

  /** A multiple of k leaves no remainder by k (for the divisors the leap-year rule uses). */
  lemma MultipleMod(y: int, j: int, k: int)
    requires k == 4 || k == 100
    requires y == k * j
    ensures y % k == 0
  {
    var q, r := y / k, y % k;
    assert y == k * q + r && 0 <= r < k;
    assert k * (j - q) == r;
  }

  /** Going from y - 1 to y, the quotient by k grows by one exactly when k divides y. */
  lemma DivStep(y: int, k: int)
    requires k == 4 || k == 100 || k == 400
    ensures y / k - (y - 1) / k == (if y % k == 0 then 1 else 0)
  {
    var q, r := (y - 1) / k, (y - 1) % k;
    assert y - 1 == k * q + r && 0 <= r < k;
    if r == k - 1 {
      assert y == k * (q + 1) + 0;
    } else {
      assert y == k * q + (r + 1);
    }
  }

  /** The month table agrees with the month lengths: each month starts where
      the one before it ends, and December ends the year. */
  lemma MonthTableConsistent(y: int, m: int)
    requires 1 <= m <= 12
    ensures m < 12 ==> DaysBeforeMonth(y, m + 1) == DaysBeforeMonth(y, m) + DaysInMonth(y, m)
    ensures m == 12 ==> DaysBeforeMonth(y, m) + DaysInMonth(y, m) == DaysInYear(y)
    ensures DaysBeforeMonth(y, m) + DaysInMonth(y, m) <= DaysInYear(y)
  {
  }

  /** Every date's ordinal falls inside its own year. */
  lemma OrdinalInYear(d: Date)
    ensures DaysBeforeYear(d.year) < Ordinal(d) <= DaysBeforeYear(d.year + 1)
  {
    MonthTableConsistent(d.year, d.month);
    YearLength(d.year);
  }

  /** Week 1 of year y starts on a Monday at most three days away from January 1. */
  lemma Week1MondayFacts(y: int)
    ensures (Week1Monday(y) + 6) % 7 == 0
    ensures DaysBeforeYear(y) + 1 - 3 <= Week1Monday(y) <= DaysBeforeYear(y) + 1 + 3
  {
    Week1MondayFromFacts(DaysBeforeYear(y) + 1);
  }

  /** Week1MondayFrom gives a Monday at most three days from January 1. */
  lemma Week1MondayFromFacts(firstDay: int)
    ensures (Week1MondayFrom(firstDay) + 6) % 7 == 0
    ensures firstDay - 3 <= Week1MondayFrom(firstDay) <= firstDay + 3
  {
  }

  /** Two Mondays that start ISO week 1 of consecutive years lie 52 or 53
      weeks apart (stated on plain numbers: a, b are the Mondays, ja, jb the
      ordinals of the two January 1sts). */
  lemma MondayGap(a: int, b: int, ja: int, jb: int)
    requires (a + 6) % 7 == 0 && (b + 6) % 7 == 0
    requires ja - 3 <= a <= ja + 3 && jb - 3 <= b <= jb + 3
    requires 365 <= jb - ja <= 366
    ensures b - a == 364 || b - a == 371
  {
    assert (b - a) % 7 == 0;
  }

  /** ISO week 1 of year y + 1 starts 52 or 53 weeks after that of year y. */
  lemma Week1MondayNext(y: int)
    ensures Week1Monday(y + 1) - Week1Monday(y) == 364
         || Week1Monday(y + 1) - Week1Monday(y) == 371
  {
    YearLength(y);
    Week1MondayFacts(y);
    Week1MondayFacts(y + 1);
    MondayGap(Week1Monday(y), Week1Monday(y + 1), DaysBeforeYear(y) + 1, DaysBeforeYear(y + 1) + 1);
  }

  /** The Thursday rule for the computation of `date.isocalendar`, on plain
      numbers: j0..j3 are the day counts before years y - 1 .. y + 2 and
      w0..w2 the Mondays that start week 1 of years y - 1 .. y + 1. */
  lemma IsoFromOrdinalThursday(y: int, today: int, j0: int, j1: int, j2: int, j3: int,
                               w0: int, w1: int, w2: int)
    requires (w0 + 6) % 7 == 0 && (w1 + 6) % 7 == 0 && (w2 + 6) % 7 == 0
    requires j0 - 2 <= w0 <= j0 + 4 && j1 - 2 <= w1 <= j1 + 4 && j2 - 2 <= w2 <= j2 + 4
    requires 365 <= j1 - j0 <= 366 && 365 <= j2 - j1 <= 366 && 365 <= j3 - j2 <= 366
    requires w1 - w0 == 364 || w1 - w0 == 371
    requires w2 - w1 == 364 || w2 - w1 == 371
    requires j1 < today <= j2
    ensures var iso := IsoFromOrdinal(y, today, w0, w1, w2);
      var t := ThursdayOfOrdinal(today);
      && (iso.year == y - 1 || iso.year == y || iso.year == y + 1)
      && (iso.year == y - 1 ==> j0 < t <= j1 && iso.week == (t - j0 - 1) / 7 + 1)
      && (iso.year == y ==> j1 < t <= j2 && iso.week == (t - j1 - 1) / 7 + 1)
      && (iso.year == y + 1 ==> j2 < t <= j3 && iso.week == (t - j2 - 1) / 7 + 1)
      && iso.weekday == WeekdayOfOrdinal(today) + 1
      && 1 <= iso.week <= 53
  {
    var iso := IsoFromOrdinal(y, today, w0, w1, w2);
    var t := ThursdayOfOrdinal(today);
    if today < w1 {
      var q, r := (today - w0) / 7, (today - w0) % 7;
      assert today - w0 == 7 * q + r && 0 <= r < 7;
      assert (today + 6) % 7 == r;
      assert t == w0 + 7 * q + 3;
      assert iso == IsoDate(y - 1, q + 1, r + 1);
    } else {
      var q, r := (today - w1) / 7, (today - w1) % 7;
      assert today - w1 == 7 * q + r && 0 <= r < 7;
      assert (today + 6) % 7 == r;
      assert t == w1 + 7 * q + 3;
      if q >= 52 && today >= w2 {
        assert iso == IsoDate(y + 1, 1, r + 1);
        assert today - w2 == r;
      } else {
        assert iso == IsoDate(y, q + 1, r + 1);
      }
    }
  }

  /** What the ISO week computation needs to know about years y - 1 .. y + 2. */
  lemma NeighbourYears(y: int)
    ensures var j0, j1, j2, j3 := DaysBeforeYear(y - 1), DaysBeforeYear(y), DaysBeforeYear(y + 1), DaysBeforeYear(y + 2);
      var w0, w1, w2 := Week1Monday(y - 1), Week1Monday(y), Week1Monday(y + 1);
      && (w0 + 6) % 7 == 0 && (w1 + 6) % 7 == 0 && (w2 + 6) % 7 == 0
      && j0 - 2 <= w0 <= j0 + 4 && j1 - 2 <= w1 <= j1 + 4 && j2 - 2 <= w2 <= j2 + 4
      && 365 <= j1 - j0 <= 366 && 365 <= j2 - j1 <= 366 && 365 <= j3 - j2 <= 366
      && (w1 - w0 == 364 || w1 - w0 == 371)
      && (w2 - w1 == 364 || w2 - w1 == 371)
  {
    Week1MondayFacts(y - 1);
    Week1MondayFacts(y);
    Week1MondayFacts(y + 1);
    Week1MondayNext(y - 1);
    Week1MondayNext(y);
    YearLength(y - 1);
    YearLength(y);
    YearLength(y + 1);
  }

  /** The Thursday rule case by case, on plain numbers, for the day with
      ordinal `today` in year y. */
  lemma IsoYearOrdinalCases(y: int, today: int)
    requires DaysBeforeYear(y) < today <= DaysBeforeYear(y + 1)
    ensures var iso := IsoOfOrdinal(y, today);
      var t := ThursdayOfOrdinal(today);
      && (iso.year == y - 1 || iso.year == y || iso.year == y + 1)
      && (iso.year == y - 1 ==>
            DaysBeforeYear(y - 1) < t <= DaysBeforeYear(y) && iso.week == (t - DaysBeforeYear(y - 1) - 1) / 7 + 1)
      && (iso.year == y ==>
            DaysBeforeYear(y) < t <= DaysBeforeYear(y + 1) && iso.week == (t - DaysBeforeYear(y) - 1) / 7 + 1)
      && (iso.year == y + 1 ==>
            DaysBeforeYear(y + 1) < t <= DaysBeforeYear(y + 2) && iso.week == (t - DaysBeforeYear(y + 1) - 1) / 7 + 1)
      && iso.weekday == WeekdayOfOrdinal(today) + 1
      && 1 <= iso.week <= 53
  {
    NeighbourYears(y);
    IsoFromOrdinalThursday(y, today,
      DaysBeforeYear(y - 1), DaysBeforeYear(y), DaysBeforeYear(y + 1), DaysBeforeYear(y + 2),
      Week1Monday(y - 1), Week1Monday(y), Week1Monday(y + 1));
  }

  /** The Thursday rule for the day with ordinal `today` in year y. */
  lemma IsoYearOrdinal(y: int, today: int)
    requires DaysBeforeYear(y) < today <= DaysBeforeYear(y + 1)
    ensures var iso := IsoOfOrdinal(y, today);
      var t := ThursdayOfOrdinal(today);
      && y - 1 <= iso.year <= y + 1
      && DaysBeforeYear(iso.year) < t <= DaysBeforeYear(iso.year + 1)
      && iso.week == (t - DaysBeforeYear(iso.year) - 1) / 7 + 1
      && iso.weekday == WeekdayOfOrdinal(today) + 1
      && 1 <= iso.week <= 53
  {
    IsoYearOrdinalCases(y, today);
    var iso := IsoOfOrdinal(y, today);
    var j0, j1, j2, j3 := DaysBeforeYear(y - 1), DaysBeforeYear(y), DaysBeforeYear(y + 1), DaysBeforeYear(y + 2);
    if iso.year == y - 1 {
      assert DaysBeforeYear(iso.year) == j0 && DaysBeforeYear(iso.year + 1) == j1;
    } else if iso.year == y {
      assert DaysBeforeYear(iso.year) == j1 && DaysBeforeYear(iso.year + 1) == j2;
    } else {
      assert DaysBeforeYear(iso.year) == j2 && DaysBeforeYear(iso.year + 1) == j3;
    }
  }

  /** The ISO week date of d is the one section 4.1.4 of ISO 8601:2004 defines:
      the Thursday of d's week lies in the ISO year, the week number counts
      the 7-day blocks of that year up to and including that Thursday, and
      the weekday counts from Monday. The ISO year is the calendar year or
      one of its neighbours, and the week number is 1 to 53. */
  lemma IsoCalendarIsThursdayRule(d: Date)
    ensures var iso := IsoCalendar(d);
      && d.year - 1 <= iso.year <= d.year + 1
      && DaysBeforeYear(iso.year) < ThursdayOf(d) <= DaysBeforeYear(iso.year + 1)
      && iso.week == (ThursdayOf(d) - DaysBeforeYear(iso.year) - 1) / 7 + 1
      && iso.weekday == Weekday(d) + 1
      && 1 <= iso.week <= 53
  {
    OrdinalInYear(d);
    IsoYearOrdinal(d.year, Ordinal(d));
  }

  /** The ISO week number is between 1 and 53. */
  lemma IsoWeekRange(d: Date)
    ensures 1 <= IsoWeek(d) <= 53
  {
    IsoCalendarIsThursdayRule(d);
  }

  /** The day number counts the days of the calendar one by one: the date
      after d has the next day number and the next weekday, Sunday being
      followed by Monday. */
  lemma NextDayStep(d: Date)
    requires !IsLastDate(d)
    ensures Ordinal(NextDay(d)) == Ordinal(d) + 1
    ensures Weekday(NextDay(d)) == (Weekday(d) + 1) % 7
  {
    MonthTableConsistent(d.year, d.month);
    YearLength(d.year);
    WeekdayOfOrdinalStep(Ordinal(d));
  }

  /** The weekday of the next day number is the next weekday. */
  lemma WeekdayOfOrdinalStep(n: int)
    ensures WeekdayOfOrdinal(n + 1) == (WeekdayOfOrdinal(n) + 1) % 7
  {
    var q, r := (n + 6) / 7, (n + 6) % 7;
    assert n + 6 == 7 * q + r && 0 <= r < 7;
    if r == 6 {
      assert n + 7 == 7 * (q + 1) + 0;
    } else {
      assert n + 7 == 7 * q + (r + 1);
    }
  }

  /** No date lies strictly between d and the date after it. */
  lemma NextDayIsSuccessor(d: Date, e: Date)
    requires !IsLastDate(d)
    ensures LessEq(d, e) && d != e <==> LessEq(NextDay(d), e)
  {
    NextDayStep(d);
    OrdinalOrder(d, e);
    OrdinalOrder(NextDay(d), e);
  }

  /** pandas' `day_name` for every date, counted from the Unix epoch: the
      weekday names repeat every seven days starting with Thursday on
      1970-01-01. */
  lemma WeekdayNameFromEpoch(d: Date)
    ensures WeekdayName(Epoch) == "Thursday"
    ensures WeekdayName(d) == WeekdayNames[(Ordinal(d) - Ordinal(Epoch) + 3) % 7]
  {
    assert Ordinal(Epoch) == 719163;
    WeekdayShift(Ordinal(d), 719163);
  }

  /** Shifting a day number by a multiple of seven keeps the weekday. */
  lemma WeekdayShift(n: int, e: int)
    requires WeekdayOfOrdinal(e) == 3
    ensures WeekdayOfOrdinal(n) == (n - e + 3) % 7
  {
    var q := (e + 6) / 7;
    assert e + 6 == 7 * q + 3;
    assert n - e + 3 == n + 6 - 7 * q;
    ModShift(n + 6, q);
  }

  /** Subtracting a multiple of seven keeps the remainder. */
  lemma ModShift(a: int, q: int)
    ensures (a - 7 * q) % 7 == a % 7
  {
    var s, r := a / 7, a % 7;
    assert a == 7 * s + r && 0 <= r < 7;
    assert a - 7 * q == 7 * (s - q) + r;
  }

  /** A later year starts no earlier than the end of an earlier one. */
  lemma {:induction false} DaysBeforeYearMonotone(a: int, b: int)
    requires a < b
    ensures DaysBeforeYear(a + 1) <= DaysBeforeYear(b)
    decreases b - a
  {
    if a + 1 < b {
      DaysBeforeYearMonotone(a + 1, b);
      YearLength(a + 1);
    }
  }

  /** A later month of the same year starts no earlier than the end of an earlier one. */
  lemma {:induction false} DaysBeforeMonthMonotone(y: int, m1: int, m2: int)
    requires 1 <= m1 < m2 <= 12
    ensures DaysBeforeMonth(y, m1) + DaysInMonth(y, m1) <= DaysBeforeMonth(y, m2)
    decreases m2 - m1
  {
    MonthTableConsistent(y, m1);
    if m1 + 1 < m2 {
      DaysBeforeMonthMonotone(y, m1 + 1, m2);
    }
  }

  /** The order of dates is the order of their day numbers. */
  lemma OrdinalOrder(a: Date, b: Date)
    ensures LessEq(a, b) <==> Ordinal(a) <= Ordinal(b)
    ensures a == b <==> Ordinal(a) == Ordinal(b)
  {
    OrdinalInYear(a);
    OrdinalInYear(b);
    if a.year < b.year {
      DaysBeforeYearMonotone(a.year, b.year);
    } else if b.year < a.year {
      DaysBeforeYearMonotone(b.year, a.year);
    } else if a.month < b.month {
      DaysBeforeMonthMonotone(a.year, a.month, b.month);
    } else if b.month < a.month {
      DaysBeforeMonthMonotone(a.year, b.month, a.month);
    }
  }

  /** Two Thursdays less than a week apart are the same day. */
  lemma SameThursday(t1: int, t2: int, j: int)
    requires (t1 + 3) % 7 == 0 && (t2 + 3) % 7 == 0
    requires j < t1 && j < t2
    requires (t1 - j - 1) / 7 == (t2 - j - 1) / 7
    ensures t1 == t2
  {
    assert (t1 - t2) % 7 == 0;
  }

  /** The Thursday of a date's week is a Thursday. */
  lemma ThursdayIsThursday(d: Date)
    ensures (ThursdayOf(d) + 3) % 7 == 0
  {
    ThursdayOfOrdinalIsThursday(Ordinal(d));
  }

  /** ThursdayOfOrdinal gives a Thursday (day 4, 0001-01-04, is one). */
  lemma ThursdayOfOrdinalIsThursday(n: int)
    ensures (ThursdayOfOrdinal(n) + 3) % 7 == 0
  {
    assert ThursdayOfOrdinal(n) + 3 == 7 * ((n + 6) / 7);
  }

  /** Two dates with the same ISO year and week number lie in one
      Monday-to-Sunday week. */
  lemma SameIsoWeekSameMonday(a: Date, b: Date)
    requires IsoCalendar(a).year == IsoCalendar(b).year
    requires IsoCalendar(a).week == IsoCalendar(b).week
    ensures ThursdayOf(a) == ThursdayOf(b)
  {
    IsoCalendarIsThursdayRule(a);
    IsoCalendarIsThursdayRule(b);
    ThursdayIsThursday(a);
    ThursdayIsThursday(b);
    SameThursday(ThursdayOf(a), ThursdayOf(b), DaysBeforeYear(IsoCalendar(a).year));
  }

  /** Within one ISO week the order of dates is the order of their weekdays. */
  lemma SameIsoWeekOrder(a: Date, b: Date)
    requires IsoCalendar(a).year == IsoCalendar(b).year
    requires IsoCalendar(a).week == IsoCalendar(b).week
    ensures LessEq(a, b) <==> Weekday(a) <= Weekday(b)
  {
    SameIsoWeekSameMonday(a, b);
    OrdinalOrder(a, b);
  }
}
