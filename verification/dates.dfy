/** Proleptic Gregorian calendar dates, as Python's `datetime.date` counts them. */
module Dates {

  datatype YMD = YMD(year: int, month: int, day: int)

  predicate IsLeap(y: int) {
    y % 4 == 0 && (y % 100 != 0 || y % 400 == 0)
  }

  function DaysInMonth(y: int, m: int): (n: int)
    requires 1 <= m <= 12
    ensures 28 <= n <= 31
  {
    if m == 2 then (if IsLeap(y) then 29 else 28)
    else if m == 4 || m == 6 || m == 9 || m == 11 then 30
    else 31
  }

  predicate IsValid(d: YMD) {
    1 <= d.month <= 12 && 1 <= d.day <= DaysInMonth(d.year, d.month)
  }

  /** A date Python could construct (the year range 1..9999 is not enforced). */
  type Date = d: YMD | IsValid(d) witness YMD(2000, 1, 1)

  /** Days in the months of year `y` before month `m`. */
  function DaysBeforeMonth(y: int, m: int): int
    requires 1 <= m <= 12
  {
    [0, 31, 59, 90, 120, 151, 181, 212, 243, 273, 304, 334][m - 1]
      + (if m > 2 && IsLeap(y) then 1 else 0)
  }

  /** Days in the years before year `y`, counted from 1 January of year 1. */
  function DaysBeforeYear(y: int): int {
    var p := y - 1;
    365 * p + p / 4 - p / 100 + p / 400
  }

  /** Day number with 1 January of year 1 as day 1 (Python's `toordinal`). */
  function Ordinal(d: Date): int {
    DaysBeforeYear(d.year) + DaysBeforeMonth(d.year, d.month) + d.day
  }

  /** Day of the week, Monday = 0 … Sunday = 6 (Python's `weekday`). */
  function Weekday(d: Date): (w: int)
    ensures 0 <= w < 7
  {
    (Ordinal(d) + 6) % 7
  }

  function YearLength(y: int): int {
    if IsLeap(y) then 366 else 365
  }

  /** Going from year `y - 1` to year `y`, the count of years divisible by 4, 100 and 400
      grows by one exactly when that number divides `y`. */
  lemma DivStep4(y: int)
    ensures y / 4 - (y - 1) / 4 == if y % 4 == 0 then 1 else 0
  {}

  lemma DivStep100(y: int)
    ensures y / 100 - (y - 1) / 100 == if y % 100 == 0 then 1 else 0
  {}

  lemma DivStep400(y: int)
    ensures y / 400 - (y - 1) / 400 == if y % 400 == 0 then 1 else 0
  {}

  /** The leap day year `y` adds to the count of days before a year. */
  lemma LeapDays(y: int)
    ensures (y / 4 - (y - 1) / 4) - (y / 100 - (y - 1) / 100) + (y / 400 - (y - 1) / 400)
         == if IsLeap(y) then 1 else 0
  {
    DivStep4(y);
    DivStep100(y);
    DivStep400(y);
    if y % 400 == 0 {
      DividesBy100(y, 4 * (y / 400));
    }
    if y % 100 == 0 {
      DividesBy4(y, 25 * (y / 100));
    }
  }

  lemma DividesBy100(y: int, q: int)
    requires y == 100 * q
    ensures y % 100 == 0
  {}

  lemma DividesBy4(y: int, q: int)
    requires y == 4 * q
    ensures y % 4 == 0
  {}

  /** Consecutive year starts are one year length apart. */
  lemma YearStep(y: int)
    ensures DaysBeforeYear(y + 1) == DaysBeforeYear(y) + YearLength(y)
  {
    var p := y - 1;
    assert DaysBeforeYear(y) == 365 * p + p / 4 - p / 100 + p / 400;
    assert DaysBeforeYear(y + 1) == 365 * y + y / 4 - y / 100 + y / 400;
    assert 365 * y == 365 * p + 365;
    LeapDays(y);
  }

  /** The month table agrees with the month lengths. */
  lemma MonthStep(y: int, m: int)
    requires 1 <= m <= 12
    ensures m < 12 ==> DaysBeforeMonth(y, m + 1) == DaysBeforeMonth(y, m) + DaysInMonth(y, m)
    ensures m == 12 ==> DaysBeforeMonth(y, m) + DaysInMonth(y, m) == YearLength(y)
  {}

  function FirstOfNextMonth(d: Date): (r: Date)
    ensures Ordinal(r) == Ordinal(YMD(d.year, d.month, DaysInMonth(d.year, d.month))) + 1
  {
    MonthStep(d.year, d.month);
    if d.month < 12 then YMD(d.year, d.month + 1, 1)
    else YearStep(d.year); YMD(d.year + 1, 1, 1)
  }

  function LastOfPrevMonth(d: Date): (r: Date)
    ensures Ordinal(r) == Ordinal(YMD(d.year, d.month, 1)) - 1
  {
    if d.month > 1 then
      MonthStep(d.year, d.month - 1);
      YMD(d.year, d.month - 1, DaysInMonth(d.year, d.month - 1))
    else
      YearStep(d.year - 1);
      MonthStep(d.year - 1, 12);
      YMD(d.year - 1, 12, 31)
  }

  /** `d` moved by `k` days (Python's `d + timedelta(days=k)`), walking month by month. */
  function AddDays(d: Date, k: int): (r: Date)
    ensures Ordinal(r) == Ordinal(d) + k
    decreases if k >= 0 then k else -k
  {
    if k >= 0 then
      if d.day + k <= DaysInMonth(d.year, d.month) then YMD(d.year, d.month, d.day + k)
      else AddDays(FirstOfNextMonth(d), k - (DaysInMonth(d.year, d.month) - d.day + 1))
    else
      if d.day + k >= 1 then YMD(d.year, d.month, d.day + k)
      else AddDays(LastOfPrevMonth(d), k + d.day)
  }

  /** `d.replace(day=1)`: the first day of the month holding `d`. */
  function FirstOfMonth(d: Date): Date {
    YMD(d.year, d.month, 1)
  }

  lemma OrdinalWithinYear(d: Date)
    ensures DaysBeforeYear(d.year) < Ordinal(d) <= DaysBeforeYear(d.year) + YearLength(d.year)
  {}

  lemma {:induction false} YearsOrdered(y1: int, y2: int)
    requires y1 < y2
    ensures DaysBeforeYear(y1) + YearLength(y1) <= DaysBeforeYear(y2)
    decreases y2 - y1
  {
    YearStep(y1);
    if y1 + 1 < y2 {
      YearsOrdered(y1 + 1, y2);
    }
  }

  /** Distinct dates have distinct day numbers, so `AddDays` is the only date `k` days away. */
  lemma OrdinalInjective(a: Date, b: Date)
    ensures Ordinal(a) == Ordinal(b) ==> a == b
  {
    OrdinalWithinYear(a);
    OrdinalWithinYear(b);
    if a.year < b.year {
      YearsOrdered(a.year, b.year);
    } else if b.year < a.year {
      YearsOrdered(b.year, a.year);
    } else if a.month < b.month {
      MonthsOrdered(a.year, a.month, b.month);
    } else if b.month < a.month {
      MonthsOrdered(a.year, b.month, a.month);
    }
  }

  lemma MonthsOrdered(y: int, m1: int, m2: int)
    requires 1 <= m1 < m2 <= 12
    ensures DaysBeforeMonth(y, m1) + DaysInMonth(y, m1) <= DaysBeforeMonth(y, m2)
  {}

  /** Weekday names in `weekday()` order, Monday first. */
  const WeekdayNames: seq<string> :=
    ["monday", "tuesday", "wednesday", "thursday", "friday", "saturday", "sunday"]

  /** Moving a date moves its weekday along. */
  lemma WeekdayAfter(d: Date, k: int)
    ensures Weekday(AddDays(d, k)) == (Weekday(d) + k) % 7
  {
    var o := Ordinal(d);
    var q := (o + 6) / 7;
    assert o + 6 == 7 * q + Weekday(d);
    ModShift(q, Weekday(d) + k);
    assert o + k + 6 == 7 * q + (Weekday(d) + k);
  }

  lemma ModShift(q: int, x: int)
    ensures (7 * q + x) % 7 == x % 7
  {}
}
