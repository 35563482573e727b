/**
 * The month-grid logic of the calendar element: a Sunday-first grid of
 * `WeekCount` rows of seven cells over the displayed month, the choice
 * between real days and placeholder cells, the selected date and the
 * week band drawn around it, and the date a clicked cell stands for.
 *
 * Every function here reads a snapshot of the element's two inputs: the
 * displayed month (`__displayDate`) and the selected value (`value`).
 */
module MonthGrid {
  import opened Dates

  datatype Option<T> = None | Some(value: T)

  /**
   * What the element stores as its displayed month: always the first day of a
   * month, and never in the years 0..99, because it is always built with
   * `new Date(year, month, 1)`, which reads those years as 1900..1999.
   */
  type DisplayMonth = d: CalendarDate | d.day == 1 && !IsTwoDigitYear(d.year)
    witness Date(1970, 0, 1)

  /** `new Date(v.getFullYear(), v.getMonth(), 1)`: the month `v` falls in. */
  function DisplayMonthOf(v: CalendarDate): (r: DisplayMonth)
    ensures r.month == v.month && r.day == 1
    ensures r.year == if IsTwoDigitYear(v.year) then 1900 + v.year else v.year
  {
    var y := if IsTwoDigitYear(v.year) then 1900 + v.year else v.year;
    NormalizeInMonth(y, v.month, 1);
    MakeDate(v.year, v.month, 1)
  }

  /** `getDayNumOffset`: the day number shown in grid cell 0. */
  function DayNumOffset(display: DisplayMonth): (r: int)
    ensures -5 <= r <= 1
  {
    1 - Weekday(display)
  }

  /** `getDaysInMonthCount`: the day before the first of the next month, i.e. day 0 of it. */
  function DaysInMonthCount(display: DisplayMonth): (r: int)
    ensures r == DaysInMonth(display.year, display.month)
  {
    DayZeroOfNextMonth(display.year, display.month);
    MakeDate(display.year, display.month + 1, 0).day
  }

  /** `Math.ceil(a / 7)`. */
  function CeilDiv7(a: int): (r: int)
    ensures 7 * (r - 1) < a <= 7 * r
  {
    -((-a) / 7)
  }

  /**
   * `getWeekCount`: the number of grid rows, the least one whose cells hold
   * the leading placeholders and every day of the month.
   */
  function WeekCount(display: DisplayMonth): (r: int)
    ensures 4 <= r <= 6
    ensures 7 * (r - 1) < Weekday(display) + DaysInMonthCount(display) <= 7 * r
  {
    CeilDiv7(DaysInMonthCount(display) + Weekday(display))
  }

  /** `isValidDayNum`: whether a grid number is a real day of the displayed month. */
  function IsValidDayNum(display: DisplayMonth, num: int): bool {
    num > 0 && num <= DaysInMonthCount(display)
  }

  /**
   * `isDayNumSelected`: compares the selected value's day and month with
   * `num` and the displayed month. The year is not compared.
   */
  function IsDayNumSelected(display: DisplayMonth, value: Option<CalendarDate>, num: int): bool {
    value.Some? && value.value.day == num && value.value.month == display.month
  }

  /** `getSelectedWeekIndex`: the grid row the selected day number falls in. */
  function SelectedWeekIndex(display: DisplayMonth, selected: CalendarDate): (r: int)
    ensures 0 <= r
    ensures 7 * r <= selected.day - DayNumOffset(display) < 7 * r + 7
    ensures selected.day <= DaysInMonthCount(display) ==> r < WeekCount(display)
  {
    (selected.day - DayNumOffset(display)) / 7
  }

  function Max(a: int, b: int): int { if a < b then b else a }
  function Min(a: int, b: int): int { if a < b then a else b }

  /** `startDay` in `getStyleSymbol`: the Sunday of the selected date's week, clipped to day 1. */
  function BandStart(selected: CalendarDate): int {
    Max(1, selected.day - Weekday(selected))
  }

  /** `endDay` in `getStyleSymbol`: the Saturday of the selected week, clipped to the month's end. */
  function BandEnd(display: DisplayMonth, selected: CalendarDate): int {
    Min(6 - Weekday(selected) + selected.day, DaysInMonthCount(display))
  }

  /**
   * `getStyleSymbol(num, index)`: the week-band marker of the cell at `index`
   * holding `num`: "" outside the band, "<" where it starts, ">" where it ends,
   * "<>" where it starts and ends, "=" inside it.
   */
  function StyleSymbol(display: DisplayMonth, value: Option<CalendarDate>, num: int, index: int): string {
    if value.None? || !IsValidDayNum(display, num) || value.value.month != display.month
      || SelectedWeekIndex(display, value.value) != index / 7
    then ""
    else
      var startDay := BandStart(value.value);
      var endDay := BandEnd(display, value.value);
      if num == startDay && num == endDay then "<>"
      else if num == startDay then "<"
      else if num == endDay then ">"
      else "="
  }

  /** `getDate(num)`: the displayed month's first day with its day set to `num` by `setDate`. */
  function DateForDayNum(display: DisplayMonth, num: int): CalendarDate {
    Normalize(display.year, display.month, num)
  }

  /** The contents `update` gives `__dayNums`: cell `i` holds `i + getDayNumOffset()`. */
  function CellSequence(display: DisplayMonth): seq<int> {
    seq(WeekCount(display) * 7, i => i + DayNumOffset(display))
  }

  // ---------------------------------------------------------------------
  // Corrected selection: the same as above, with the year compared as well.

  /** Selection as evidently intended: the whole date, year included, must match. */
  function IsDateSelected(display: DisplayMonth, value: Option<CalendarDate>, num: int): bool {
    IsDayNumSelected(display, value, num) && value.value.year == display.year
  }

  /** The week-band marker, drawn only when the selected date lies in the displayed month and year. */
  function StyleSymbolSameYear(display: DisplayMonth, value: Option<CalendarDate>, num: int, index: int): string {
    if value.Some? && value.value.year != display.year then ""
    else StyleSymbol(display, value, num, index)
  }

  // ---------------------------------------------------------------------
  // Lemmas: grid geometry

  /** Day 0 of the month after (y, m) is the last day of (y, m). */
  lemma DayZeroOfNextMonth(y: int, m: int)
    requires 0 <= m < 12 && !IsTwoDigitYear(y)
    ensures MakeDate(y, m + 1, 0) == Date(y, m, DaysInMonth(y, m))
  {
    var next := NextMonth(y, m);
    assert (y + (m + 1) / 12, (m + 1) % 12) == (next.year, next.month);
    assert PrevMonth(next.year, next.month) == Date(y, m, 1);
  }

  /** `DisplayMonthOf` is idempotent: a displayed month is kept as it is. */
  lemma DisplayMonthOfIdempotent(v: CalendarDate)
    ensures DisplayMonthOf(DisplayMonthOf(v)) == DisplayMonthOf(v)
  {
  }

  /** Outside the years 0..99, the stored month is the one `v` falls in: `v` lies within it. */
  lemma DisplayMonthContains(v: CalendarDate)
    requires !IsTwoDigitYear(v.year)
    ensures var r := DisplayMonthOf(v);
      r == Date(v.year, v.month, 1) &&
      DayNumber(r) <= DayNumber(v) < DayNumber(r) + DaysInMonthCount(r)
  {
    DayNumberShift(v.year, v.month, v.day);
  }

  /**
   * Every real day `d` of the displayed month sits in cell `d - offset`, in
   * the column of its own weekday.
   */
  lemma DayCell(display: DisplayMonth, d: int)
    requires 1 <= d <= DaysInMonthCount(display)
    ensures var i := d - DayNumOffset(display);
      0 <= i < |CellSequence(display)| && CellSequence(display)[i] == d &&
      i % 7 == Weekday(Date(display.year, display.month, d))
  {
    WeekdayInMonth(display.year, display.month, d);
  }

  /**
   * The grid holds each day of the month exactly once, and a cell holds a
   * real day exactly when it lies between the leading and trailing
   * placeholders.
   */
  lemma CellsHoldEachDayOnce(display: DisplayMonth)
    ensures var cells, off := CellSequence(display), DayNumOffset(display);
      |cells| == 7 * WeekCount(display) &&
      (forall i :: 0 <= i < |cells| ==> cells[i] == i + off) &&
      (forall i :: 0 < i < |cells| ==> cells[i] == cells[i - 1] + 1) &&
      (forall i, j :: 0 <= i < |cells| && 0 <= j < |cells| && cells[i] == cells[j] ==> i == j) &&
      (forall d :: 1 <= d <= DaysInMonthCount(display) ==> d in cells) &&
      (forall i :: 0 <= i < |cells| ==>
        (IsValidDayNum(display, cells[i]) <==> Weekday(display) <= i < Weekday(display) + DaysInMonthCount(display)))
  {
    var cells, off := CellSequence(display), DayNumOffset(display);
    forall d | 1 <= d <= DaysInMonthCount(display) ensures d in cells {
      assert cells[d - off] == d;
    }
  }

  /** A grid cell holds a number in -5..days + 6, so never more than 37. */
  lemma CellRange(display: DisplayMonth, i: int)
    requires 0 <= i < |CellSequence(display)|
    ensures -5 <= CellSequence(display)[i] <= DaysInMonthCount(display) + 6 <= 37
  {
  }

  /** Leading placeholders fill less than one row, and so do trailing ones. */
  lemma PlaceholderCounts(display: DisplayMonth)
    ensures var lead := 1 - DayNumOffset(display);
      var trail := 7 * WeekCount(display) - lead - DaysInMonthCount(display);
      0 <= lead <= 6 && 0 <= trail <= 6
  {
  }

  /** `isValidDayNum(num)` holds exactly when clicking `num` stays in the displayed month, on day `num`. */
  lemma ValidDayNumIffSameMonth(display: DisplayMonth, num: int)
    ensures IsValidDayNum(display, num) <==>
      DateForDayNum(display, num) == Date(display.year, display.month, num)
  {
    var r := DateForDayNum(display, num);
    NormalizeDayNumber(display.year, display.month, num);
    assert display.month / 12 == 0 && display.month % 12 == display.month;
    if r == Date(display.year, display.month, num) {
      assert IsCalendarDate(r);
    }
  }

  /** Clicking a real day gives that day; clicking past either end rolls into the neighbouring month. */
  lemma DateForDayNumRollsOver(display: DisplayMonth, num: int)
    ensures 1 <= num <= DaysInMonthCount(display) ==>
      DateForDayNum(display, num) == Date(display.year, display.month, num)
    ensures var days, next := DaysInMonthCount(display), NextMonth(display.year, display.month);
      days < num <= days + 28 ==>
      DateForDayNum(display, num) == Date(next.year, next.month, num - days)
    ensures var prev := PrevMonth(display.year, display.month);
      -27 <= num <= 0 ==>
      DateForDayNum(display, num) ==
        Date(prev.year, prev.month, DaysInMonth(prev.year, prev.month) + num)
  {
    var days, next := DaysInMonthCount(display), NextMonth(display.year, display.month);
    if days < num <= days + 28 {
      NormalizeOverflow(display.year, display.month, num);
    }
    if -27 <= num <= 0 {
      NormalizeUnderflow(display.year, display.month, num);
    }
  }

  /**
   * A click on cell `i` gives the day `i` days after the Sunday that opens the
   * grid, placeholders included: the cells run through consecutive days.
   */
  lemma CellDate(display: DisplayMonth, i: int)
    requires 0 <= i < |CellSequence(display)|
    ensures DayNumber(DateForDayNum(display, CellSequence(display)[i])) ==
      DayNumber(display) - Weekday(display) + i
  {
    NormalizeDayNumber(display.year, display.month, CellSequence(display)[i]);
    assert display.month / 12 == 0 && display.month % 12 == display.month;
  }

  // ---------------------------------------------------------------------
  // Lemmas: selection

  /** With the selected date in the displayed month and year, its band lies around it inside the month. */
  lemma BandBounds(display: DisplayMonth, selected: CalendarDate)
    requires selected.year == display.year && selected.month == display.month
    ensures 1 <= BandStart(selected) <= selected.day <= BandEnd(display, selected) <= DaysInMonthCount(display)
  {
  }

  /**
   * With the selected date in the displayed month and year, its band is the
   * selected row of the grid cut down to the real days of the month.
   */
  lemma {:induction false} BandIsSelectedRow(display: DisplayMonth, selected: CalendarDate)
    requires selected.year == display.year && selected.month == display.month
    ensures var first := 7 * SelectedWeekIndex(display, selected) + DayNumOffset(display);
      BandStart(selected) == Max(1, first) &&
      BandEnd(display, selected) == Min(first + 6, DaysInMonthCount(display))
  {
    var off := DayNumOffset(display);
    var k := selected.day - off;
    assert selected == Date(display.year, display.month, selected.day);
    WeekdayInMonth(display.year, display.month, selected.day);
    assert Weekday(display) + selected.day - 1 == k;
    assert Weekday(selected) == k % 7;
    var w := SelectedWeekIndex(display, selected);
    assert w == k / 7;
    assert selected.day - Weekday(selected) == 7 * w + off by {
      assert k == 7 * (k / 7) + k % 7;
    }
  }

  /** `getStyleSymbol` returns one of its five markers, and "" exactly when a guard fails. */
  lemma StyleSymbolCases(display: DisplayMonth, value: Option<CalendarDate>, num: int, index: int)
    ensures var r := StyleSymbol(display, value, num, index);
      r in {"", "<", ">", "<>", "="} &&
      (r == "" <==> (value.None? || !IsValidDayNum(display, num) || value.value.month != display.month
        || SelectedWeekIndex(display, value.value) != index / 7))
    ensures var r := StyleSymbol(display, value, num, index);
      r != "" ==>
        (r == "<>" <==> num == BandStart(value.value) == BandEnd(display, value.value)) &&
        (r == "<" <==> num == BandStart(value.value) != BandEnd(display, value.value)) &&
        (r == ">" <==> num == BandEnd(display, value.value) != BandStart(value.value)) &&
        (r == "=" <==> num != BandStart(value.value) && num != BandEnd(display, value.value))
  {
  }

  /**
   * Corrected selection. A day is selected exactly when the selected value is
   * the date a click on that day produces.
   */
  lemma IsDateSelectedIffClickDate(display: DisplayMonth, value: Option<CalendarDate>, num: int)
    ensures IsDateSelected(display, value, num) <==>
      IsValidDayNum(display, num) && value == Some(DateForDayNum(display, num))
  {
    ValidDayNumIffSameMonth(display, num);
  }

  /**
   * Corrected band. Over the grid, the marked cells are exactly the real days
   * of the selected date's row; the band starts at the first of them and ends
   * at the last.
   */
  lemma {:induction false} StyleSymbolSameYearMarksRow(display: DisplayMonth, value: Option<CalendarDate>, i: int)
    requires 0 <= i < |CellSequence(display)|
    requires value.Some?
    ensures var num, r := CellSequence(display)[i], StyleSymbolSameYear(display, value, CellSequence(display)[i], i);
      var v, off := value.value, DayNumOffset(display);
      var row := SelectedWeekIndex(display, v);
      (r != "" <==> v.year == display.year && v.month == display.month && i / 7 == row && IsValidDayNum(display, num)) &&
      (r != "" ==>
        ((r == "<" || r == "<>") <==> num == Max(1, 7 * row + off)) &&
        ((r == ">" || r == "<>") <==> num == Min(7 * row + off + 6, DaysInMonthCount(display))))
  {
    var v := value.value;
    if v.year == display.year && v.month == display.month {
      BandIsSelectedRow(display, v);
    }
  }

  /** When the years agree, the code as written already behaves as the corrected versions. */
  lemma SameYearAgrees(display: DisplayMonth, value: Option<CalendarDate>, num: int, index: int)
    requires value.Some? ==> value.value.year == display.year
    ensures IsDayNumSelected(display, value, num) == IsDateSelected(display, value, num)
    ensures StyleSymbol(display, value, num, index) == StyleSymbolSameYear(display, value, num, index)
  {
  }
}
