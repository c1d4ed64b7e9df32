/**
 * Calendar dates as Python's `datetime` keeps them: the proleptic Gregorian
 * calendar, years 1 to 9999, and `date + timedelta(days=1)` as the day with the
 * next ordinal number, raising OverflowError past 9999-12-31.
 */
module Dates {
  import opened Wrappers

  const MinYear := 1
  const MaxYear := 9999

  datatype Date = Date(year: int, month: int, day: int)

  predicate IsLeapYear(y: int) {
    y % 4 == 0 && (y % 100 != 0 || y % 400 == 0)
  }

  function DaysInMonth(y: int, m: int): (n: int)
    requires 1 <= m <= 12
    ensures 28 <= n <= 31
    ensures n == 29 <==> m == 2 && IsLeapYear(y)
  {
    if m == 2 then (if IsLeapYear(y) then 29 else 28)
    else if m == 4 || m == 6 || m == 9 || m == 11 then 30
    else 31
  }

  /** A date that a `datetime` object can hold. */
  predicate Valid(d: Date) {
    MinYear <= d.year <= MaxYear && 1 <= d.month <= 12 && 1 <= d.day <= DaysInMonth(d.year, d.month)
  }

  function DaysInYear(y: int): int {
    if IsLeapYear(y) then 366 else 365
  }

  /** Days in the years 1 .. y-1. */
  function DaysBeforeYear(y: int): nat
    requires y >= 1
  {
    if y == 1 then 0 else DaysBeforeYear(y - 1) + DaysInYear(y - 1)
  }

  /** Days in the months 1 .. m-1 of year y. */
  function DaysBeforeMonth(y: int, m: int): nat
    requires 1 <= m <= 12
  {
    if m == 1 then 0 else DaysBeforeMonth(y, m - 1) + DaysInMonth(y, m - 1)
  }

  /** `date.toordinal()`: 0001-01-01 is day 1 and each later day adds one. */
  function Ordinal(d: Date): int
    requires Valid(d)
  {
    DaysBeforeYear(d.year) + DaysBeforeMonth(d.year, d.month) + d.day
  }

  /** `d + timedelta(days=1)` on the date part; None where Python raises OverflowError. */
  function NextDay(d: Date): (r: Option<Date>)
    requires Valid(d)
    ensures r.Some? ==> Valid(r.value)
    ensures r.None? <==> d == Date(MaxYear, 12, 31)
  {
    if d.day < DaysInMonth(d.year, d.month) then Some(Date(d.year, d.month, d.day + 1))
    else if d.month < 12 then Some(Date(d.year, d.month + 1, 1))
    else if d.year < MaxYear then Some(Date(d.year + 1, 1, 1))
    else None
  }

  /** The twelve months fill the year. */
  lemma WholeYear(y: int)
    ensures DaysBeforeMonth(y, 12) + DaysInMonth(y, 12) == DaysInYear(y)
  {
    assert DaysBeforeMonth(y, 2) == 31;
    assert DaysBeforeMonth(y, 3) == 31 + DaysInMonth(y, 2);
    assert DaysBeforeMonth(y, 4) == DaysBeforeMonth(y, 3) + 31;
    assert DaysBeforeMonth(y, 5) == DaysBeforeMonth(y, 4) + 30;
    assert DaysBeforeMonth(y, 6) == DaysBeforeMonth(y, 5) + 31;
    assert DaysBeforeMonth(y, 7) == DaysBeforeMonth(y, 6) + 30;
    assert DaysBeforeMonth(y, 8) == DaysBeforeMonth(y, 7) + 31;
    assert DaysBeforeMonth(y, 9) == DaysBeforeMonth(y, 8) + 31;
    assert DaysBeforeMonth(y, 10) == DaysBeforeMonth(y, 9) + 30;
    assert DaysBeforeMonth(y, 11) == DaysBeforeMonth(y, 10) + 31;
    assert DaysBeforeMonth(y, 12) == DaysBeforeMonth(y, 11) + 30;
  }

  /** The next day is the day whose ordinal is one more, as `timedelta(days=1)` defines it. */
  lemma NextDayIsOrdinalSuccessor(d: Date)
    requires Valid(d) && NextDay(d).Some?
    ensures Ordinal(NextDay(d).value) == Ordinal(d) + 1
  {
    if d.day == DaysInMonth(d.year, d.month) && d.month == 12 {
      WholeYear(d.year);
    }
  }
}
