/**
 * Proleptic Gregorian dates, day numbers, weekdays and the ISO 8601 week date
 * (ISO 8601:2004 section 4.1.4): weeks start on Monday and week 1 of a year is
 * the week that holds the year's first Thursday.
 */
module Calendar {

  datatype Date = Date(year: int, month: int, day: int)

  predicate IsLeapYear(y: int) {
    y % 4 == 0 && (y % 100 != 0 || y % 400 == 0)
  }

  function DaysInYear(y: int): int {
    if IsLeapYear(y) then 366 else 365
  }

  function DaysInMonth(y: int, m: int): int
    requires 1 <= m <= 12
  {
    if m == 2 then (if IsLeapYear(y) then 29 else 28)
    else if m == 4 || m == 6 || m == 9 || m == 11 then 30
    else 31
  }

  predicate IsValidDate(d: Date) {
    1 <= d.month <= 12 && 1 <= d.day <= DaysInMonth(d.year, d.month)
  }

  /** A day of the calendar; what a parsed date cell holds. */
  type CalendarDate = d: Date | IsValidDate(d) witness Date(1970, 1, 1)

  /** Days of year `y` that come before the first of month `m`. */
  function DaysBeforeMonth(y: int, m: int): int
    requires 1 <= m <= 12
  {
    var cumulative := [0, 31, 59, 90, 120, 151, 181, 212, 243, 273, 304, 334];
    cumulative[m - 1] + (if m > 2 && IsLeapYear(y) then 1 else 0)
  }

  /** Months follow one another without gaps and fill the year. */
  lemma MonthLayout(y: int, m: int)
    requires 1 <= m <= 12
    ensures m < 12 ==> DaysBeforeMonth(y, m + 1) == DaysBeforeMonth(y, m) + DaysInMonth(y, m)
    ensures m == 12 ==> DaysBeforeMonth(y, m) + DaysInMonth(y, m) == DaysInYear(y)
    ensures m >= 2 ==> DaysBeforeMonth(y, m) >= 31
    ensures m <= 11 ==> DaysBeforeMonth(y, m) + DaysInMonth(y, m) <= 335
    ensures DaysBeforeMonth(y, m) + DaysInMonth(y, m) <= DaysInYear(y)
  {
  }

  /** Later months start later. */
  lemma {:induction false} MonthsIncrease(y: int, m1: int, m2: int)
    requires 1 <= m1 < m2 <= 12
    ensures DaysBeforeMonth(y, m1) + DaysInMonth(y, m1) <= DaysBeforeMonth(y, m2)
    decreases m2 - m1
  {
    MonthLayout(y, m1);
    if m1 + 1 < m2 {
      MonthsIncrease(y, m1 + 1, m2);
      MonthLayout(y, m1 + 1);
    }
  }

  /** The ordinal day within the year, 1 for January 1st. */
  function DayOfYear(d: CalendarDate): (n: int)
    ensures 1 <= n <= DaysInYear(d.year)
    ensures n <= 31 ==> d.month == 1
    ensures n > 335 ==> d.month == 12
    ensures d.month == 12 ==> DaysInYear(d.year) - n == 31 - d.day
  {
    MonthLayout(d.year, d.month);
    DaysBeforeMonth(d.year, d.month) + d.day
  }

  /** Day number of January 1st of year `y`; day 0 is January 1st of year 1. */
  function YearStart(y: int): int {
    365 * (y - 1) + (y - 1) / 4 - (y - 1) / 100 + (y - 1) / 400
  }

  lemma FloorStep(y: int, k: int)
    requires k > 0
    ensures y / k - (y - 1) / k == if y % k == 0 then 1 else 0
  {
    var q, r := (y - 1) / k, (y - 1) % k;
    assert y - 1 == k * q + r && 0 <= r < k;
    if r == k - 1 {
      assert y == k * (q + 1);
      DivisionOf(y, k, q + 1, 0);
    } else {
      assert y == k * q + (r + 1);
      DivisionOf(y, k, q, r + 1);
    }
  }

  lemma MulMonotone(k: int, a: int, b: int)
    requires k > 0 && a <= b
    ensures k * a <= k * b
  {
    assert k * b - k * a == k * (b - a);
  }

  /** Euclidean division is determined by quotient and remainder. */
  lemma DivisionOf(y: int, k: int, q: int, r: int)
    requires k > 0 && y == k * q + r && 0 <= r < k
    ensures y / k == q && y % k == r
  {
    var q', r' := y / k, y % k;
    assert y == k * q' + r' && 0 <= r' < k;
    if q' < q {
      assert k * (q' + 1) == k * q' + k;
      MulMonotone(k, q' + 1, q);
    } else if q < q' {
      MulMonotone(k, q + 1, q');
    }
  }

  /** Consecutive years start `DaysInYear` days apart. */
  lemma YearStartStep(y: int)
    ensures YearStart(y + 1) == YearStart(y) + DaysInYear(y)
  {
    FloorStep(y, 4);
    FloorStep(y, 100);
    FloorStep(y, 400);
    if y % 400 == 0 {
      DivisionOf(y, 100, 4 * (y / 400), 0);
    }
    if y % 100 == 0 {
      DivisionOf(y, 4, 25 * (y / 100), 0);
    }
  }

  lemma {:induction false} YearStartIncreases(a: int, b: int)
    requires a < b
    ensures YearStart(a) + DaysInYear(a) <= YearStart(b)
    decreases b - a
  {
    YearStartStep(a);
    if a + 1 < b {
      YearStartIncreases(a + 1, b);
      YearStartStep(a + 1);
    }
  }

  /** The day number of a date: the count of days since January 1st of year 1. */
  function DayNumber(d: CalendarDate): (n: int)
    ensures YearStart(d.year) <= n < YearStart(d.year + 1)
  {
    YearStartStep(d.year);
    YearStart(d.year) + DayOfYear(d) - 1
  }

  /** The weekday of a day number, 0 for Monday through 6 for Sunday (January 1st of year 1 was a Monday). */
  function DayOfWeek(n: int): int {
    n % 7
  }

  /** `a < b` on calendar days. */
  predicate Before(a: CalendarDate, b: CalendarDate) {
    a.year < b.year
    || (a.year == b.year && a.month < b.month)
    || (a.year == b.year && a.month == b.month && a.day < b.day)
  }

  /** Comparing dates field by field is comparing them on the time line. */
  lemma BeforeIsEarlier(a: CalendarDate, b: CalendarDate)
    ensures Before(a, b) <==> DayNumber(a) < DayNumber(b)
  {
    if a.year < b.year {
      YearStartIncreases(a.year, b.year);
      YearStartStep(a.year);
    } else if b.year < a.year {
      YearStartIncreases(b.year, a.year);
      YearStartStep(b.year);
    } else if a.month < b.month {
      MonthsIncrease(a.year, a.month, b.month);
    } else if b.month < a.month {
      MonthsIncrease(a.year, b.month, a.month);
    }
  }

  // ---------------------------------------------------------------------
  // ISO 8601 week dates: the definition
  // ---------------------------------------------------------------------

  /** Day number of the first Thursday of year `y`. */
  function FirstThursday(y: int): (t: int)
    ensures YearStart(y) <= t < YearStart(y) + 7
    ensures DayOfWeek(t) == 3
  {
    var j := YearStart(y);
    NextThursday(j);
    j + (3 - DayOfWeek(j)) % 7
  }

  lemma NextThursday(j: int)
    ensures 0 <= (3 - DayOfWeek(j)) % 7 < 7
    ensures DayOfWeek(j + (3 - DayOfWeek(j)) % 7) == 3
  {
    var q, a := j / 7, j % 7;
    assert j == 7 * q + a;
    if a <= 3 {
      DivisionOf(3 - a, 7, 0, 3 - a);
      DivisionOf(j + (3 - a), 7, q, 3);
    } else {
      DivisionOf(3 - a, 7, -1, 10 - a);
      DivisionOf(j + (10 - a), 7, q + 1, 3);
    }
  }

  /** Day number of the Monday that starts ISO week 1 of year `y`. */
  function Week1Monday(y: int): int {
    FirstThursday(y) - 3
  }

  /** Day `n` lies in ISO week `week` of ISO year `isoYear`. */
  predicate IsIsoWeekOf(n: int, isoYear: int, week: int) {
    Week1Monday(isoYear) <= n < Week1Monday(isoYear + 1)
    && week == (n - Week1Monday(isoYear)) / 7 + 1
  }

  /** An ISO year has 52 or 53 whole weeks. */
  lemma IsoYearLength(y: int)
    ensures Week1Monday(y + 1) - Week1Monday(y) == 364 || Week1Monday(y + 1) - Week1Monday(y) == 371
  {
    YearStartStep(y);
    var a, b := FirstThursday(y), FirstThursday(y + 1);
    assert a == 7 * (a / 7) + 3 && b == 7 * (b / 7) + 3;
    var k := b / 7 - a / 7;
    assert b - a == 7 * k;
    assert 359 <= 7 * k <= 372;
    assert k == 52 || k == 53;
  }

  lemma {:induction false} Week1MondayIncreases(a: int, b: int)
    requires a < b
    ensures Week1Monday(a + 1) <= Week1Monday(b)
    decreases b - a
  {
    IsoYearLength(a + 1);
    if a + 1 < b {
      Week1MondayIncreases(a + 1, b);
    }
  }

  /** Every day has exactly one ISO year and week. */
  lemma IsoWeekUnique(n: int, y1: int, w1: int, y2: int, w2: int)
    requires IsIsoWeekOf(n, y1, w1) && IsIsoWeekOf(n, y2, w2)
    ensures y1 == y2 && w1 == w2
  {
    if y1 < y2 {
      Week1MondayIncreases(y1, y2);
    } else if y2 < y1 {
      Week1MondayIncreases(y2, y1);
    }
  }

  /** The Thursday of the Monday-to-Sunday week holding day `n`. */
  function ThursdayOf(n: int): int {
    n - DayOfWeek(n) + 3
  }

  /**
   * A day is on or after the start of ISO year `y` exactly when the Thursday
   * of its week is on or after January 1st of `y`; the week index counted from
   * either start is the same.
   */
  lemma ThursdayRule(n: int, y: int)
    ensures Week1Monday(y) <= n <==> YearStart(y) <= ThursdayOf(n)
    ensures Week1Monday(y) <= n ==> (n - Week1Monday(y)) / 7 == (ThursdayOf(n) - YearStart(y)) / 7
  {
    var t, f := ThursdayOf(n), FirstThursday(y);
    assert n == 7 * (n / 7) + DayOfWeek(n);
    assert f == 7 * (f / 7) + 3;
    var k := n / 7 - f / 7;
    assert t - f == 7 * k;
    if Week1Monday(y) <= n {
      DivisionOf(n - Week1Monday(y), 7, k, DayOfWeek(n));
      DivisionOf(t - YearStart(y), 7, k, f - YearStart(y));
    }
  }

  // ---------------------------------------------------------------------
  // ISO 8601 week dates: the computation
  // ---------------------------------------------------------------------

  datatype IsoWeek = IsoWeek(isoYear: int, week: nat)

  /**
   * The ISO year and week of a date, computed from its day of year and weekday:
   * estimate the week from the day of year, then correct the days that belong
   * to the last week of the previous year or to week 1 of the next.
   */
  function IsoCalendar(d: CalendarDate): (w: IsoWeek)
    ensures 1 <= w.week <= 53
    ensures d.year - 1 <= w.isoYear <= d.year + 1
  {
    var dow := DayOfWeek(DayNumber(d));
    var estimate := Estimate(d);
    var week :=
      if estimate < 0 then
        (if estimate > -2 || (estimate == -2 && IsLeapYear(d.year - 1)) then 53 else 52)
      else if estimate / 7 + 1 == 53 && 31 - d.day + dow < 3 then 1
      else estimate / 7 + 1;
    var isoYear :=
      if week == 1 && d.month == 12 then d.year + 1
      else if week >= 52 && d.month == 1 then d.year - 1
      else d.year;
    IsoWeek(isoYear, week)
  }

  /** The estimate the computation starts from is the offset of the week's Thursday from January 1st. */
  function Estimate(d: CalendarDate): int {
    (DayOfYear(d) - 1) - DayOfWeek(DayNumber(d)) + 3
  }

  lemma EstimateIsThursdayOffset(d: CalendarDate)
    ensures Estimate(d) == ThursdayOf(DayNumber(d)) - YearStart(d.year)
    ensures -3 <= Estimate(d) <= DayOfYear(d) + 2
    ensures DayOfYear(d) - 4 <= Estimate(d)
  {
  }

  /** Days whose week's Thursday falls in the previous year. */
  lemma IsoCalendarPreviousYear(d: CalendarDate)
    requires Estimate(d) < 0
    ensures IsIsoWeekOf(DayNumber(d), IsoCalendar(d).isoYear, IsoCalendar(d).week)
  {
    var n, y, r := DayNumber(d), d.year, IsoCalendar(d);
    var t := ThursdayOf(n);
    EstimateIsThursdayOffset(d);
    YearStartStep(y - 1);
    assert DayOfYear(d) <= 3 && d.month == 1;
    assert r.isoYear == y - 1;
    ThursdayRule(n, y - 1);
    ThursdayRule(n, y);
    var offset := t - YearStart(y - 1);
    assert offset == Estimate(d) + DaysInYear(y - 1);
    assert r.week - 1 == offset / 7;
  }

  /** Late-December days whose week's Thursday falls in the next year. */
  lemma IsoCalendarNextYear(d: CalendarDate)
    requires Estimate(d) >= 0 && Estimate(d) / 7 + 1 == 53
    requires 31 - d.day + DayOfWeek(DayNumber(d)) < 3
    ensures IsIsoWeekOf(DayNumber(d), IsoCalendar(d).isoYear, IsoCalendar(d).week)
  {
    var n, y, r := DayNumber(d), d.year, IsoCalendar(d);
    EstimateIsThursdayOffset(d);
    YearStartStep(y);
    YearStartStep(y + 1);
    assert d.month == 12;
    assert r.isoYear == y + 1 && r.week == 1;
    ThursdayRule(n, y + 1);
    ThursdayRule(n, y + 2);
    assert 0 <= ThursdayOf(n) - YearStart(y + 1) <= 2;
  }

  /** Days whose week's Thursday falls in their own year. */
  lemma IsoCalendarSameYear(d: CalendarDate)
    requires Estimate(d) >= 0
    requires !(Estimate(d) / 7 + 1 == 53 && 31 - d.day + DayOfWeek(DayNumber(d)) < 3)
    ensures IsIsoWeekOf(DayNumber(d), IsoCalendar(d).isoYear, IsoCalendar(d).week)
  {
    var n, y, r := DayNumber(d), d.year, IsoCalendar(d);
    EstimateIsThursdayOffset(d);
    YearStartStep(y);
    assert r.week == Estimate(d) / 7 + 1;
    assert r.isoYear == y;
    ThursdayRule(n, y);
    ThursdayRule(n, y + 1);
  }

  /** The computation agrees with the ISO 8601 definition on every date. */
  lemma IsoCalendarIsIso8601(d: CalendarDate)
    ensures IsIsoWeekOf(DayNumber(d), IsoCalendar(d).isoYear, IsoCalendar(d).week)
  {
    if Estimate(d) < 0 {
      IsoCalendarPreviousYear(d);
    } else if Estimate(d) / 7 + 1 == 53 && 31 - d.day + DayOfWeek(DayNumber(d)) < 3 {
      IsoCalendarNextYear(d);
    } else {
      IsoCalendarSameYear(d);
    }
  }

  /** The ISO year is the calendar year of the Thursday of the date's week. */
  lemma IsoYearOfThursday(d: CalendarDate)
    ensures YearStart(IsoCalendar(d).isoYear) <= ThursdayOf(DayNumber(d)) < YearStart(IsoCalendar(d).isoYear + 1)
  {
    var r := IsoCalendar(d);
    IsoCalendarIsIso8601(d);
    ThursdayRule(DayNumber(d), r.isoYear);
    ThursdayRule(DayNumber(d), r.isoYear + 1);
  }


  /** Boundary cases of ISO weeks around New Year. */
  lemma IsoCalendarExamples()
    ensures IsoCalendar(Date(2023, 1, 1)) == IsoWeek(2022, 52)
    ensures IsoCalendar(Date(2021, 1, 1)) == IsoWeek(2020, 53)
    ensures IsoCalendar(Date(2024, 12, 30)) == IsoWeek(2025, 1)
    ensures IsoCalendar(Date(2026, 1, 1)) == IsoWeek(2026, 1)
  {
  }
}
