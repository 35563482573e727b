/**
 * Proleptic Gregorian calendar arithmetic, as the JavaScript `Date` object
 * performs it in local time (time zones and clock readings are not modelled).
 *
 * Months are numbered from 0 (January) to 11 (December), the convention of
 * `Date.prototype.getMonth`; weekdays from 0 (Sunday) to 6 (Saturday), the
 * convention of `Date.prototype.getDay`.
 */
module Dates {

  datatype Date = Date(year: int, month: int, day: int)

  /** A triple that names a real day of the proleptic Gregorian calendar. */
  predicate IsCalendarDate(d: Date) {
    0 <= d.month < 12 && 1 <= d.day <= DaysInMonth(d.year, d.month)
  }

  /** What a (valid) JavaScript `Date` denotes, seen at day granularity. */
  type CalendarDate = d: Date | IsCalendarDate(d) witness Date(1970, 0, 1)

  predicate IsLeapYear(y: int) {
    y % 4 == 0 && (y % 100 != 0 || y % 400 == 0)
  }

  function DaysInYear(y: int): int {
    if IsLeapYear(y) then 366 else 365
  }

  function DaysInMonth(y: int, m: int): (n: int)
    requires 0 <= m < 12
    ensures 28 <= n <= 31
    ensures n == 29 <==> m == 1 && IsLeapYear(y)
    ensures n == 28 <==> m == 1 && !IsLeapYear(y)
    ensures n == 30 <==> m in {3, 5, 8, 10}
  {
    if m == 1 then (if IsLeapYear(y) then 29 else 28)
    else if m == 3 || m == 5 || m == 8 || m == 10 then 30
    else 31
  }

  /** Number of days from 0001-01-01 to the first day of year `y` (negative before). */
  function DaysBeforeYear(y: int): int {
    var p := y - 1;
    365 * p + p / 4 - p / 100 + p / 400
  }

  /** Number of days from the first of January of `y` to the first day of month `m`. */
  function DaysBeforeMonth(y: int, m: int): int
    requires 0 <= m <= 12
  {
    if m == 0 then 0 else DaysBeforeMonth(y, m - 1) + DaysInMonth(y, m - 1)
  }

  /** Days since 0001-01-01 (a Monday), for any triple whose month is in range. */
  function DayNumber(d: Date): int
    requires 0 <= d.month < 12
  {
    DaysBeforeYear(d.year) + DaysBeforeMonth(d.year, d.month) + d.day - 1
  }

  /** `Date.prototype.getDay`: 0 is Sunday, 6 is Saturday. */
  function Weekday(d: Date): (w: int)
    requires 0 <= d.month < 12
    ensures 0 <= w < 7
  {
    (DayNumber(d) + 1) % 7
  }

  /** The first day of the month after (y, m). */
  function NextMonth(y: int, m: int): (r: Date)
    requires 0 <= m < 12
    ensures IsCalendarDate(r) && r.day == 1
    ensures r.year * 12 + r.month == y * 12 + m + 1
  {
    if m == 11 then Date(y + 1, 0, 1) else Date(y, m + 1, 1)
  }

  /** The first day of the month before (y, m). */
  function PrevMonth(y: int, m: int): (r: Date)
    requires 0 <= m < 12
    ensures IsCalendarDate(r) && r.day == 1
    ensures r.year * 12 + r.month == y * 12 + m - 1
  {
    if m == 0 then Date(y - 1, 11, 1) else Date(y, m - 1, 1)
  }

  /**
   * Day `d` counted from the first of (y, m), for d >= 1: walks forward month
   * by month while `d` exceeds the month's length.
   */
  function RollForward(y: int, m: int, d: int): CalendarDate
    requires 0 <= m < 12 && 1 <= d
    decreases d
  {
    var n := DaysInMonth(y, m);
    if d <= n then Date(y, m, d)
    else
      var next := NextMonth(y, m);
      RollForward(next.year, next.month, d - n)
  }

  /**
   * Day `d` counted from the first of (y, m), for d <= 0: walks back month by
   * month until the day lands inside a month.
   */
  function RollBack(y: int, m: int, d: int): CalendarDate
    requires 0 <= m < 12 && d <= 0
    decreases -d
  {
    var prev := PrevMonth(y, m);
    var n := DaysInMonth(prev.year, prev.month);
    if 1 <= d + n then Date(prev.year, prev.month, d + n)
    else RollBack(prev.year, prev.month, d + n)
  }

  /**
   * ECMAScript MakeDay followed by the date decomposition: the day `d - 1`
   * days after the first of month `m` of year `y`, where `m` may lie outside
   * 0..11 (it carries into the year by floor division) and `d` may lie
   * outside the month (it rolls over into neighbouring months). This is what
   * `Date.prototype.setDate(d)` does to a date in (y, m).
   */
  function Normalize(y: int, m: int, d: int): CalendarDate {
    var y', m' := y + m / 12, m % 12;
    if d < 1 then RollBack(y', m', d) else RollForward(y', m', d)
  }

  /** A year the `Date(year, month, day)` constructor reads as 1900 + year. */
  predicate IsTwoDigitYear(y: int) {
    0 <= y <= 99
  }

  /** `new Date(y, m, d)`: years 0..99 are taken to mean 1900..1999. */
  function MakeDate(y: int, m: int, d: int): CalendarDate {
    Normalize(if IsTwoDigitYear(y) then 1900 + y else y, m, d)
  }

  // ---------------------------------------------------------------------
  // Lemmas

  /** A year has 365 days, 366 when it is a leap year. */
  lemma YearLength(y: int)
    ensures DaysBeforeYear(y + 1) == DaysBeforeYear(y) + DaysInYear(y)
  {
    DivStep4(y);
    DivStep100(y);
    DivStep400(y);
    MultiplesNest(y);
    var a := if y % 4 == 0 then 1 else 0;
    var b := if y % 100 == 0 then 1 else 0;
    var c := if y % 400 == 0 then 1 else 0;
    assert DaysBeforeYear(y + 1) == DaysBeforeYear(y) + 365 + a - b + c;
  }

  /** Multiples of 400 are multiples of 100, and those are multiples of 4. */
  lemma MultiplesNest(y: int)
    ensures y % 400 == 0 ==> y % 100 == 0
    ensures y % 100 == 0 ==> y % 4 == 0
  {
    if y % 400 == 0 {
      var q := y / 400;
      assert y == 100 * (4 * q);
    }
    if y % 100 == 0 {
      var q := y / 100;
      assert y == 4 * (25 * q);
    }
  }

  /** Floor division by 4 steps up by one exactly at the multiples of 4. */
  lemma DivStep4(y: int)
    ensures y / 4 == if y % 4 == 0 then (y - 1) / 4 + 1 else (y - 1) / 4
  {
    var q, r := (y - 1) / 4, (y - 1) % 4;
    if r == 3 { assert y == 4 * (q + 1); } else { assert y == 4 * q + (r + 1); }
  }

  /** Floor division by 100 steps up by one exactly at the multiples of 100. */
  lemma DivStep100(y: int)
    ensures y / 100 == if y % 100 == 0 then (y - 1) / 100 + 1 else (y - 1) / 100
  {
    var q, r := (y - 1) / 100, (y - 1) % 100;
    if r == 99 { assert y == 100 * (q + 1); } else { assert y == 100 * q + (r + 1); }
  }

  /** Floor division by 400 steps up by one exactly at the multiples of 400. */
  lemma DivStep400(y: int)
    ensures y / 400 == if y % 400 == 0 then (y - 1) / 400 + 1 else (y - 1) / 400
  {
    var q, r := (y - 1) / 400, (y - 1) % 400;
    if r == 399 { assert y == 400 * (q + 1); } else { assert y == 400 * q + (r + 1); }
  }

  /** The twelve months add up to the year. */
  lemma MonthsFillYear(y: int)
    ensures DaysBeforeMonth(y, 12) == DaysInYear(y)
  {
    var feb := DaysInMonth(y, 1);
    assert DaysBeforeMonth(y, 1) == 31;
    assert DaysBeforeMonth(y, 2) == 31 + feb;
    assert DaysBeforeMonth(y, 3) == 62 + feb;
    assert DaysBeforeMonth(y, 4) == 92 + feb;
    assert DaysBeforeMonth(y, 5) == 123 + feb;
    assert DaysBeforeMonth(y, 6) == 153 + feb;
    assert DaysBeforeMonth(y, 7) == 184 + feb;
    assert DaysBeforeMonth(y, 8) == 215 + feb;
    assert DaysBeforeMonth(y, 9) == 245 + feb;
    assert DaysBeforeMonth(y, 10) == 276 + feb;
    assert DaysBeforeMonth(y, 11) == 306 + feb;
    assert DaysBeforeMonth(y, 12) == 337 + feb;
  }

  /** The first of the next month comes exactly one month length after the first of this one. */
  lemma NextMonthDayNumber(y: int, m: int)
    requires 0 <= m < 12
    ensures DayNumber(NextMonth(y, m)) == DayNumber(Date(y, m, 1)) + DaysInMonth(y, m)
  {
    if m == 11 {
      YearLength(y);
      MonthsFillYear(y);
    }
  }

  /** Moving the day within a month moves the day number by the same amount. */
  lemma DayNumberShift(y: int, m: int, d: int)
    requires 0 <= m < 12
    ensures DayNumber(Date(y, m, d)) == DayNumber(Date(y, m, 1)) + d - 1
  {
  }

  lemma {:induction false} RollForwardDayNumber(y: int, m: int, d: int)
    requires 0 <= m < 12 && 1 <= d
    ensures DayNumber(RollForward(y, m, d)) == DayNumber(Date(y, m, 1)) + d - 1
    decreases d
  {
    var n := DaysInMonth(y, m);
    if d > n {
      var next := NextMonth(y, m);
      RollForwardDayNumber(next.year, next.month, d - n);
      NextMonthDayNumber(y, m);
    }
  }

  lemma {:induction false} RollBackDayNumber(y: int, m: int, d: int)
    requires 0 <= m < 12 && d <= 0
    ensures DayNumber(RollBack(y, m, d)) == DayNumber(Date(y, m, 1)) + d - 1
    decreases -d
  {
    var prev := PrevMonth(y, m);
    var n := DaysInMonth(prev.year, prev.month);
    NextMonthDayNumber(prev.year, prev.month);
    assert NextMonth(prev.year, prev.month) == Date(y, m, 1);
    if d + n < 1 {
      RollBackDayNumber(prev.year, prev.month, d + n);
    }
  }

  /**
   * Normalize is ECMAScript's MakeDay: its result lies `d - 1` days after the
   * first of month `m % 12` of year `y + m / 12`.
   */
  lemma NormalizeDayNumber(y: int, m: int, d: int)
    ensures DayNumber(Normalize(y, m, d)) == DayNumber(Date(y + m / 12, m % 12, 1)) + d - 1
  {
    if d < 1 {
      RollBackDayNumber(y + m / 12, m % 12, d);
    } else {
      RollForwardDayNumber(y + m / 12, m % 12, d);
    }
  }

  /** A day inside the month is kept as it is. */
  lemma NormalizeInMonth(y: int, m: int, d: int)
    requires 0 <= m < 12 && 1 <= d <= DaysInMonth(y, m)
    ensures Normalize(y, m, d) == Date(y, m, d)
  {
  }

  /** Days past the end of the month continue in the next month. */
  lemma NormalizeOverflow(y: int, m: int, d: int)
    requires 0 <= m < 12
    requires DaysInMonth(y, m) < d <= DaysInMonth(y, m) + DaysInMonth(NextMonth(y, m).year, NextMonth(y, m).month)
    ensures var next := NextMonth(y, m);
      Normalize(y, m, d) == Date(next.year, next.month, d - DaysInMonth(y, m))
  {
    assert m / 12 == 0 && m % 12 == m;
    var next := NextMonth(y, m);
    assert RollForward(y, m, d) == RollForward(next.year, next.month, d - DaysInMonth(y, m));
  }

  /** Day 0 and the days before it count back from the end of the previous month. */
  lemma NormalizeUnderflow(y: int, m: int, d: int)
    requires 0 <= m < 12
    requires var prev := PrevMonth(y, m); 1 - DaysInMonth(prev.year, prev.month) <= d <= 0
    ensures var prev := PrevMonth(y, m);
      Normalize(y, m, d) == Date(prev.year, prev.month, DaysInMonth(prev.year, prev.month) + d)
  {
  }

  /** The weekday advances by one with each day of the month. */
  lemma WeekdayInMonth(y: int, m: int, d: int)
    requires 0 <= m < 12
    ensures Weekday(Date(y, m, d)) == (Weekday(Date(y, m, 1)) + d - 1) % 7
  {
    var k := DayNumber(Date(y, m, 1)) + 1;
    DayNumberShift(y, m, d);
    ModAdd(k, d - 1);
  }

  lemma ModAdd(a: int, b: int)
    ensures (a + b) % 7 == (a % 7 + b) % 7
  {
    var q := a / 7;
    assert a == 7 * q + a % 7;
    assert a + b == 7 * q + (a % 7 + b);
  }
}
