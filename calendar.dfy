/**
 * The calendar element itself: the fields it keeps, the `displayDate`
 * setter, its initial state, the rebuild of `__dayNums` in `update`, and
 * the three event handlers. The host's `onChange` and `onChangeDisplay`
 * callbacks are modelled by the `Event` each handler returns: one event is
 * one call of the callback it names.
 */
module CalendarElement {
  import opened Dates
  import opened MonthGrid

  /** A call to one of the host's callbacks, with the arguments passed. */
  datatype Event =
    | Change(name: string, date: CalendarDate)         // onChange(name, date)
    | ChangeDisplay(name: string, date: CalendarDate)  // onChangeDisplay(name, date)

  class Calendar {
    /** Opaque label echoed back in every callback. */
    var name: string
    /** The selected date, set by the host; `None` stands for `null`. */
    var value: Option<CalendarDate>
    /** `__displayDate`: the first day of the displayed month. */
    var displayDate: DisplayMonth
    /** `__dayNums`: the day number of every grid cell, as of the last rebuild. */
    var dayNums: array<int>

    /**
     * The constructor with `initState`: no selection, no name, no cells, and
     * the month of `today` on display (`today` stands for `new Date()`).
     */
    constructor (today: CalendarDate)
      ensures name == "" && value == None
      ensures displayDate == DisplayMonthOf(today)
      ensures fresh(dayNums) && dayNums.Length == 0
    {
      dayNums := new int[0];
      displayDate := DisplayMonthOf(today);
      name := "";
      value := None;
    }

    /** The `displayDate` setter: stores the first day of the month `v` falls in. */
    method SetDisplayDate(v: CalendarDate)
      modifies this`displayDate
      ensures displayDate == DisplayMonthOf(v)
      ensures displayDate.month == v.month && displayDate.day == 1
      ensures !IsTwoDigitYear(v.year) ==> displayDate.year == v.year
    {
      displayDate := DisplayMonthOf(v);
    }

    /**
     * `update(changedProps)`: when `displayDate` is among the changed
     * properties, `__dayNums` becomes a new array of `getWeekCount() * 7`
     * cells, cell `i` holding `i + getDayNumOffset()`; otherwise it is kept.
     */
    method Update(displayDateChanged: bool)
      modifies this`dayNums
      ensures displayDateChanged ==> fresh(dayNums) && dayNums[..] == CellSequence(displayDate)
      ensures !displayDateChanged ==> dayNums == old(dayNums)
    {
      if displayDateChanged {
        var count := WeekCount(displayDate) * 7;
        var cells := new int[count];
        var i := 0;
        while i < count
          invariant 0 <= i <= count
          invariant forall k :: 0 <= k < i ==> cells[k] == k + DayNumOffset(displayDate)
        {
          cells[i] := i + DayNumOffset(displayDate);
          i := i + 1;
        }
        dayNums := cells;
      }
    }

    /** `getDate(num)`: a copy of the displayed month's first day, with `setDate(num)` applied. */
    method GetDate(num: int) returns (date: CalendarDate)
      ensures date == DateForDayNum(displayDate, num)
      ensures IsValidDayNum(displayDate, num) <==>
        date == Date(displayDate.year, displayDate.month, num)
    {
      date := displayDate;
      date := Normalize(date.year, date.month, num);
      ValidDayNumIffSameMonth(displayDate, num);
    }

    /** The `selectDate` handler: a click on the cell holding `num` reports that cell's date. */
    method SelectDate(num: int) returns (e: Event)
      ensures e == Change(name, DateForDayNum(displayDate, num))
      ensures IsValidDayNum(displayDate, num) ==>
        e.date == Date(displayDate.year, displayDate.month, num)
    {
      var date := GetDate(num);
      e := Change(name, date);
    }

    /** The `selectToday` handler: reports today's date (`new Date()`, passed in). */
    method SelectToday(today: CalendarDate) returns (e: Event)
      ensures e == Change(name, today)
    {
      e := Change(name, today);
    }

    /** The `changeHeader` handler: asks the host to display `date`; `displayDate` is left alone. */
    method ChangeHeader(date: CalendarDate) returns (e: Event)
      ensures e == ChangeDisplay(name, date)
    {
      e := ChangeDisplay(name, date);
    }
  }
}
