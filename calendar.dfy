// Calendar dates as the dashboard uses them: the proleptic Gregorian day
// number of Python's datetime (toordinal) and month subtraction as dateutil's
// relativedelta performs it (the day is clamped to the target month's length).

module Calendar {

  datatype Date = Date(year: int, month: int, day: int)

  predicate IsLeapYear(y: int) {
    y % 4 == 0 && (y % 100 != 0 || y % 400 == 0)
  }

  function DaysInMonth(y: int, m: int): (n: int)
    requires 1 <= m <= 12
    ensures 28 <= n <= 31
    ensures m == 2 ==> (n == 29 <==> IsLeapYear(y))
  {
    if m == 2 then (if IsLeapYear(y) then 29 else 28)
    else if m == 4 || m == 6 || m == 9 || m == 11 then 30
    else 31
  }

  function DaysInYear(y: int): int {
    if IsLeapYear(y) then 366 else 365
  }

  predicate IsValidDate(d: Date) {
    1 <= d.month <= 12 && 1 <= d.day <= DaysInMonth(d.year, d.month)
  }

  /** A date that exists on the calendar. */
  type CalendarDate = d: Date | IsValidDate(d) witness Date(2000, 1, 1)

  /** Number of days in year y that come before the first of month m. */
  function DaysBeforeMonth(y: int, m: int): int
    requires 1 <= m <= 12
  {
    var common :=
      match m
      case 1 => 0
      case 2 => 31
      case 3 => 59
      case 4 => 90
      case 5 => 120
      case 6 => 151
      case 7 => 181
      case 8 => 212
      case 9 => 243
      case 10 => 273
      case 11 => 304
      case _ => 334;
    common + (if m > 2 && IsLeapYear(y) then 1 else 0)
  }

  /** Number of days before January 1st of year y, counted from 0001-01-01. */
  function DaysBeforeYear(y: int): int {
    var p := y - 1;
    p * 365 + p / 4 - p / 100 + p / 400
  }

  /** Day number of a date; 0001-01-01 is day 1. */
  function Ordinal(d: CalendarDate): int {
    DaysBeforeYear(d.year) + DaysBeforeMonth(d.year, d.month) + d.day
  }

  /** Months counted from January of year 0. */
  function MonthIndex(d: Date): int {
    d.year * 12 + d.month - 1
  }

  function Min(a: int, b: int): int {
    if a <= b then a else b
  }

  /** The date n months before d, with the day clamped to the length of the
      month it lands in (2024-03-31 minus one month is 2024-02-29). */
  function MonthsBefore(d: CalendarDate, n: nat): (r: CalendarDate)
    ensures MonthIndex(r) == MonthIndex(d) - n
    ensures d.day <= DaysInMonth(r.year, r.month) ==> r.day == d.day
    ensures d.day > DaysInMonth(r.year, r.month) ==> r.day == DaysInMonth(r.year, r.month)
  {
    var idx := MonthIndex(d) - n;
    var y, m := idx / 12, idx % 12 + 1;
    Date(y, m, Min(d.day, DaysInMonth(y, m)))
  }

  /** Floor division by a positive constant steps by one exactly at multiples. */
  lemma DivisionStep(y: int)
    ensures y / 4 - (y - 1) / 4 == if y % 4 == 0 then 1 else 0
    ensures y / 100 - (y - 1) / 100 == if y % 100 == 0 then 1 else 0
    ensures y / 400 - (y - 1) / 400 == if y % 400 == 0 then 1 else 0
  {
  }

  /** Consecutive years are exactly one year length apart. */
  lemma DaysBeforeNextYear(y: int)
    ensures DaysBeforeYear(y + 1) == DaysBeforeYear(y) + DaysInYear(y)
  {
    DivisionStep(y);
    var extra := (if y % 4 == 0 then 1 else 0) - (if y % 100 == 0 then 1 else 0) + (if y % 400 == 0 then 1 else 0);
    assert DaysBeforeYear(y + 1) == DaysBeforeYear(y) + 365 + extra;
    if y % 400 == 0 {
      MultipleOf400(y);
    } else if y % 100 == 0 {
      MultipleOf100(y);
    }
  }

  lemma MultipleOf400(y: int)
    requires y % 400 == 0
    ensures y % 100 == 0 && y % 4 == 0
  {
    var q := y / 400;
    assert y == 100 * (4 * q) && y == 4 * (100 * q);
  }

  lemma MultipleOf100(y: int)
    requires y % 100 == 0
    ensures y % 4 == 0
  {
    var q := y / 100;
    assert y == 4 * (25 * q);
  }

  lemma {:induction false} DaysBeforeYearMonotone(a: int, b: int)
    requires a <= b
    ensures DaysBeforeYear(a) + 365 * (b - a) <= DaysBeforeYear(b)
    decreases b - a
  {
    if a < b {
      DaysBeforeYearMonotone(a, b - 1);
      DaysBeforeNextYear(b - 1);
    }
  }

  /** The day of a valid date lies within its year's run of day numbers. */
  lemma OrdinalWithinYear(d: CalendarDate)
    ensures DaysBeforeYear(d.year) < Ordinal(d) <= DaysBeforeYear(d.year) + DaysInYear(d.year)
  {
  }

  /** The calendar day after d. */
  function NextDay(d: CalendarDate): CalendarDate {
    if d.day < DaysInMonth(d.year, d.month) then Date(d.year, d.month, d.day + 1)
    else if d.month < 12 then Date(d.year, d.month + 1, 1)
    else Date(d.year + 1, 1, 1)
  }

  /** Each month starts right after the previous one ends. */
  lemma DaysBeforeNextMonth(y: int, m: int)
    requires 1 <= m < 12
    ensures DaysBeforeMonth(y, m + 1) == DaysBeforeMonth(y, m) + DaysInMonth(y, m)
  {
  }

  /** Day numbers count days: the next calendar day has the next number, so
      the difference of two day numbers is the number of days between them. */
  lemma OrdinalNextDay(d: CalendarDate)
    ensures Ordinal(NextDay(d)) == Ordinal(d) + 1
  {
    if d.day == DaysInMonth(d.year, d.month) {
      if d.month < 12 {
        DaysBeforeNextMonth(d.year, d.month);
      } else {
        DaysBeforeNextYear(d.year);
      }
    }
  }

  /** Any date of an earlier month has a smaller day number. */
  lemma {:induction false} OrdinalRespectsMonths(a: CalendarDate, b: CalendarDate)
    requires MonthIndex(a) < MonthIndex(b)
    ensures Ordinal(a) < Ordinal(b)
  {
    OrdinalWithinYear(a);
    if a.year < b.year {
      DaysBeforeNextYear(a.year);
      DaysBeforeYearMonotone(a.year + 1, b.year);
    } else {
      assert a.year == b.year && a.month < b.month;
      assert DaysBeforeMonth(a.year, a.month) + DaysInMonth(a.year, a.month) <= DaysBeforeMonth(b.year, b.month);
    }
  }

  /** Subtracting at least one month always moves strictly into the past. */
  lemma MonthsBeforeIsEarlier(d: CalendarDate, n: nat)
    requires n >= 1
    ensures Ordinal(MonthsBefore(d, n)) < Ordinal(d)
  {
    OrdinalRespectsMonths(MonthsBefore(d, n), d);
  }

  /** Going further back in months gives a strictly earlier date. */
  lemma MonthsBeforeDecreasing(d: CalendarDate, n1: nat, n2: nat)
    requires n1 < n2
    ensures Ordinal(MonthsBefore(d, n2)) < Ordinal(MonthsBefore(d, n1))
  {
    OrdinalRespectsMonths(MonthsBefore(d, n2), MonthsBefore(d, n1));
  }
}
