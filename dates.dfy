/** Calendar dates as Python's `datetime.date` and `dateutil.relativedelta` treat them:
    the proleptic Gregorian calendar, compared by (year, month, day). */
module Dates {

  datatype RawDate = RawDate(year: int, month: int, day: int)

  predicate IsLeapYear(y: int) {
    y % 4 == 0 && (y % 100 != 0 || y % 400 == 0)
  }

  function DaysInMonth(y: int, m: int): (n: int)
    requires 1 <= m <= 12
    ensures 28 <= n <= 31
  {
    if m == 2 then (if IsLeapYear(y) then 29 else 28)
    else if m == 4 || m == 6 || m == 9 || m == 11 then 30
    else 31
  }

  predicate ValidDate(d: RawDate) {
    1 <= d.month <= 12 && 1 <= d.day <= DaysInMonth(d.year, d.month)
  }

  /** A calendar date that exists. */
  type Date = d: RawDate | ValidDate(d) witness RawDate(2000, 1, 1)

  /** `a < b` on dates. */
  predicate Before(a: Date, b: Date) {
    a.year < b.year
    || (a.year == b.year && a.month < b.month)
    || (a.year == b.year && a.month == b.month && a.day < b.day)
  }

  /** `a <= b` on dates. */
  predicate NotAfter(a: Date, b: Date) {
    a == b || Before(a, b)
  }

  /** `d + relativedelta(years=n)`: same month, the day clamped to the month's length
      (29 February becomes 28 February in a common year). */
  function AddYears(d: Date, n: int): (r: Date)
    ensures r.year == d.year + n && r.month == d.month
    ensures r.day == if d.day <= DaysInMonth(d.year + n, d.month) then d.day else DaysInMonth(d.year + n, d.month)
  {
    var last := DaysInMonth(d.year + n, d.month);
    RawDate(d.year + n, d.month, if d.day <= last then d.day else last)
  }

  /** `d.replace(day=1)`. */
  function FirstOfMonth(d: Date): Date {
    RawDate(d.year, d.month, 1)
  }

  function DaysInYear(y: int): int {
    if IsLeapYear(y) then 366 else 365
  }

  /** Days from 1 January of year 1 to 1 January of year `y`. */
  function DaysBeforeYear(y: int): int
    decreases if y >= 1 then y - 1 else 1 - y
  {
    if y == 1 then 0
    else if y > 1 then DaysBeforeYear(y - 1) + DaysInYear(y - 1)
    else DaysBeforeYear(y + 1) - DaysInYear(y)
  }

  /** Days in the months of year `y` before month `m`. */
  function DaysBeforeMonth(y: int, m: int): int
    requires 1 <= m <= 12
  {
    var common :=
      if m == 1 then 0 else if m == 2 then 31 else if m == 3 then 59 else if m == 4 then 90
      else if m == 5 then 120 else if m == 6 then 151 else if m == 7 then 181 else if m == 8 then 212
      else if m == 9 then 243 else if m == 10 then 273 else if m == 11 then 304 else 334;
    common + (if m > 2 && IsLeapYear(y) then 1 else 0)
  }

  /** Python's `date.toordinal()`: 1 January of year 1 is day 1. */
  function Ordinal(d: Date): int {
    DaysBeforeYear(d.year) + DaysBeforeMonth(d.year, d.month) + d.day
  }

  /** `d + timedelta(days=1)`. */
  function NextDay(d: Date): Date {
    if d.day < DaysInMonth(d.year, d.month) then RawDate(d.year, d.month, d.day + 1)
    else if d.month < 12 then RawDate(d.year, d.month + 1, 1)
    else RawDate(d.year + 1, 1, 1)
  }

  /** `d - timedelta(days=1)`. */
  function PrevDay(d: Date): Date {
    if d.day > 1 then RawDate(d.year, d.month, d.day - 1)
    else if d.month > 1 then RawDate(d.year, d.month - 1, DaysInMonth(d.year, d.month - 1))
    else RawDate(d.year - 1, 12, 31)
  }

  /** `d + timedelta(days=n)` (and `d - timedelta(days=-n)`), one day at a time. */
  function AddDays(d: Date, n: int): Date
    decreases if n >= 0 then n else -n
  {
    if n == 0 then d
    else if n > 0 then AddDays(NextDay(d), n - 1)
    else AddDays(PrevDay(d), n + 1)
  }

  lemma YearStep(y: int)
    ensures DaysBeforeYear(y + 1) == DaysBeforeYear(y) + DaysInYear(y)
  {
  }

  lemma MonthStep(y: int, m: int)
    requires 1 <= m < 12
    ensures DaysBeforeMonth(y, m + 1) == DaysBeforeMonth(y, m) + DaysInMonth(y, m)
  {
  }

  lemma NextDayOrdinal(d: Date)
    ensures Ordinal(NextDay(d)) == Ordinal(d) + 1
  {
    if d.day == DaysInMonth(d.year, d.month) {
      if d.month < 12 {
        NextMonthOrdinal(d);
      } else {
        NextYearOrdinal(d);
      }
    }
  }

  lemma NextMonthOrdinal(d: Date)
    requires d.day == DaysInMonth(d.year, d.month) && d.month < 12
    ensures Ordinal(NextDay(d)) == Ordinal(d) + 1
  {
    var n: Date := RawDate(d.year, d.month + 1, 1);
    assert NextDay(d) == n;
    MonthStep(d.year, d.month);
  }

  lemma NextYearOrdinal(d: Date)
    requires d.month == 12 && d.day == 31
    ensures Ordinal(NextDay(d)) == Ordinal(d) + 1
  {
    var n: Date := RawDate(d.year + 1, 1, 1);
    assert NextDay(d) == n;
    YearStep(d.year);
    var leap := if IsLeapYear(d.year) then 1 else 0;
    assert DaysBeforeMonth(d.year, 12) == 334 + leap;
    assert DaysInYear(d.year) == 365 + leap;
    assert Ordinal(n) == DaysBeforeYear(d.year + 1) + 1;
    assert Ordinal(d) == DaysBeforeYear(d.year) + DaysBeforeMonth(d.year, 12) + 31;
  }

  lemma PrevDayOrdinal(d: Date)
    ensures Ordinal(PrevDay(d)) == Ordinal(d) - 1
  {
    if d.day == 1 {
      if d.month > 1 {
        MonthStep(d.year, d.month - 1);
      } else {
        YearStep(d.year - 1);
      }
    }
  }

  /** Adding `n` days moves the day ordinal by exactly `n`. */
  lemma {:induction false} AddDaysOrdinal(d: Date, n: int)
    ensures Ordinal(AddDays(d, n)) == Ordinal(d) + n
    decreases if n >= 0 then n else -n
  {
    if n > 0 {
      NextDayOrdinal(d);
      AddDaysOrdinal(NextDay(d), n - 1);
    } else if n < 0 {
      PrevDayOrdinal(d);
      AddDaysOrdinal(PrevDay(d), n + 1);
    }
  }

  /** Each later year starts at least 365 days later. */
  lemma {:induction false} DaysBeforeYearGrows(a: int, b: int)
    requires a < b
    ensures DaysBeforeYear(a) + 365 <= DaysBeforeYear(b)
    decreases b - a
  {
    YearStep(a);
    if a + 1 < b {
      DaysBeforeYearGrows(a + 1, b);
    }
  }

  /** Each later month of a year starts at least as many days later as the earlier one lasts. */
  lemma {:induction false} DaysBeforeMonthGrows(y: int, a: int, b: int)
    requires 1 <= a < b <= 12
    ensures DaysBeforeMonth(y, a) + DaysInMonth(y, a) <= DaysBeforeMonth(y, b)
    decreases b - a
  {
    MonthStep(y, a);
    if a + 1 < b {
      DaysBeforeMonthGrows(y, a + 1, b);
    }
  }

  lemma MonthsFitYear(y: int, m: int)
    requires 1 <= m <= 12
    ensures DaysBeforeMonth(y, m) + DaysInMonth(y, m) <= DaysInYear(y)
  {
  }

  /** The date order is the day-ordinal order. */
  lemma BeforeOrdinal(a: Date, b: Date)
    ensures Before(a, b) <==> Ordinal(a) < Ordinal(b)
  {
    if a.year < b.year {
      MonthsFitYear(a.year, a.month);
      YearStep(a.year);
      if a.year + 1 < b.year {
        DaysBeforeYearGrows(a.year + 1, b.year);
      }
    } else if b.year < a.year {
      MonthsFitYear(b.year, b.month);
      YearStep(b.year);
      if b.year + 1 < a.year {
        DaysBeforeYearGrows(b.year + 1, a.year);
      }
    } else if a.month < b.month {
      DaysBeforeMonthGrows(a.year, a.month, b.month);
    } else if b.month < a.month {
      DaysBeforeMonthGrows(a.year, b.month, a.month);
    }
  }

  /** Dates with the same ordinal are the same date. */
  lemma OrdinalInjective(a: Date, b: Date)
    requires Ordinal(a) == Ordinal(b)
    ensures a == b
  {
    BeforeOrdinal(a, b);
    BeforeOrdinal(b, a);
  }

  /** Stepping `n` days and then `-n` days returns to the start. */
  lemma AddDaysInverse(d: Date, n: int)
    ensures AddDays(AddDays(d, n), -n) == d
  {
    AddDaysOrdinal(d, n);
    AddDaysOrdinal(AddDays(d, n), -n);
    OrdinalInjective(AddDays(AddDays(d, n), -n), d);
  }

  /** Two day steps add up. */
  lemma AddDaysAdd(d: Date, m: int, n: int)
    ensures AddDays(AddDays(d, m), n) == AddDays(d, m + n)
  {
    AddDaysOrdinal(d, m);
    AddDaysOrdinal(AddDays(d, m), n);
    AddDaysOrdinal(d, m + n);
    OrdinalInjective(AddDays(AddDays(d, m), n), AddDays(d, m + n));
  }

  /** A later year is a later date. */
  lemma LaterYearBefore(a: Date, b: Date)
    requires a.year < b.year
    ensures Before(a, b) && Ordinal(a) < Ordinal(b)
  {
    BeforeOrdinal(a, b);
  }
}
