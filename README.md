# Calendar month grid: a Dafny model

This project models the month-grid logic of the `Calendar` web component
(`src/calendar.js`). The component shows one month as a Sunday-first grid
of seven-day rows. It keeps the displayed month as the first day of that
month. It works out which day number sits in each cell, which cells are real
days and which are placeholders, and which cell holds the selected date. It
also computes the week band drawn around the selected date and the date that
a click on a cell reports to the host.

The model has four modules:

- `Dates` (`dates.dfy`): proleptic Gregorian arithmetic as JavaScript's
  `Date` does it at day granularity. It has the leap-year rule, month
  lengths, a day number counted from 0001-01-01 (a Monday) and the weekday
  taken from it. It also has `Normalize`, the roll-over of
  `setDate`/`new Date(y, m, d)` when the month or day is out of range, and
  `MakeDate`, the `Date(year, month, day)` constructor, which reads the
  years 0..99 as 1900..1999. Months are 0-based, as `getMonth` returns them.
  Weekdays run from 0 (Sunday) to 6, as `getDay` returns them.
- `MonthGrid` (`month_grid.dfy`): the component's read-only methods. Each
  is a function of the displayed month and the selected value. Beside them
  sit the lemmas that say what the grid means: each day in exactly one
  cell, in its weekday's column, the band being the selected row, and a
  click rolling over into the next or previous month.
- `CalendarElement` (`calendar.dfy`): the component as a class. Its fields
  are `name`, `value`, the displayed month (`__displayDate`) and the cell
  array (`__dayNums`). It has the `displayDate` setter, the initial state,
  the rebuild of `__dayNums` in `update` (a loop filling a new array), and
  the `selectDate`, `selectToday` and `changeHeader` handlers. Each handler
  returns the callback call it makes, as an `Event`.
- `CalendarCases` (`calendar_cases.dfy`): the concrete expectations of
  `test/calendar.test.js`, stated about the model, and the input behind the
  finding below.

The component only ever stores `new Date(year, month, 1)` as its displayed
month. So what it stores is the first of a month and never falls in the years
0..99. The `DisplayMonth` type records both facts. The getter hands out the
stored object itself; see "## Left out". `today` stands in for `new Date()`.

## Model

| member | source | states |
|---|---|---|
| `Dates.DaysInMonth` | src/calendar.js:100-106 | month length is 28..31; 29 exactly for February of a leap year (divisible by 4 and not by 100 unless by 400), 28 for other Februaries, 30 for April, June, September and November |
| `Dates.YearLength` | src/calendar.js:100-106 | the day count from one new year to the next is the year's length, 366 in a leap year and 365 otherwise |
| `Dates.NextMonthDayNumber` | src/calendar.js:100-106 | the first of the next month falls exactly one month length after the first of this one, December to January included |
| `Dates.NormalizeDayNumber` | src/calendar.js:151-156 | `setDate(d)` on a date in month m of year y gives the day `d - 1` days after the first of month `m mod 12` of year `y + floor(m / 12)` (ECMAScript MakeDay), for every integer `d` |
| `Dates.NormalizeInMonth` | src/calendar.js:151-156 | a day number within the month is kept unchanged |
| `Dates.NormalizeOverflow` | src/calendar.js:151-156 | day numbers past the month's end continue into the next month (day 32 of a 31-day month is the 1st of the next) |
| `Dates.NormalizeUnderflow` | src/calendar.js:151-156 | day 0 and the days before it count back from the last day of the previous month |
| `Dates.WeekdayInMonth` | src/calendar.js:96-98 | the weekday moves forward by one, mod 7, with each day of a month |
| `MonthGrid.DisplayMonthOf` | src/calendar.js:44-49 | the stored month has the value's month and day 1, and the value's year, except that years 0..99 become 1900..1999 |
| `MonthGrid.DisplayMonthOfIdempotent` | src/calendar.js:44-49 | storing an already stored month changes nothing |
| `MonthGrid.DisplayMonthContains` | src/calendar.js:44-49 | outside the years 0..99 the stored month is the first of the value's own month, and the value lies inside that month |
| `MonthGrid.DayNumOffset` | src/calendar.js:96-98 | the day number in cell 0 lies in -5..1 |
| `MonthGrid.DaysInMonthCount` | src/calendar.js:100-106 | day 0 of the next month is the last day of the displayed month, so the count is that month's Gregorian length |
| `MonthGrid.DayZeroOfNextMonth` | src/calendar.js:100-106 | for a year y outside 0..99 (every year a displayed month has), `new Date(y, m + 1, 0)` is the last day of month m of year y, December included |
| `MonthGrid.CeilDiv7` | src/calendar.js:111 | `Math.ceil(a / 7)` is the least `r` with `a <= 7 r` |
| `MonthGrid.WeekCount` | src/calendar.js:108-112 | the row count lies in 4..6 and is the least one whose cells hold the leading placeholders and every day of the month |
| `MonthGrid.SelectedWeekIndex` | src/calendar.js:114-118 | the selected day falls in this row of the grid; the row is non-negative, and below the row count whenever the day exists in the displayed month |
| `MonthGrid.CellsHoldEachDayOnce` | src/calendar.js:158-164 | the rebuilt cell list has `7 * getWeekCount()` cells, cell `i` holds `i + offset`, neighbours differ by one, no number appears twice, every day 1..days appears, and a cell is a real day exactly when it lies after the leading placeholders and before the trailing ones |
| `MonthGrid.CellRange` | src/calendar.js:158-164 | every grid cell holds a number in -5..days + 6, never more than 37 (March 2019's last cell holds 37) |
| `MonthGrid.DayCell` | src/calendar.js:96-98 | day `d` sits in cell `d - offset`, and that cell's column is the weekday of day `d` |
| `MonthGrid.PlaceholderCounts` | src/calendar.js:108-112 | there are at most six leading and at most six trailing placeholder cells |
| `MonthGrid.ValidDayNumIffSameMonth` | src/calendar.js:86-88 | `isValidDayNum(n)` holds exactly when setting day `n` on the displayed month stays in that month, on day `n` |
| `MonthGrid.DateForDayNumRollsOver` | src/calendar.js:151-156 | `getDate(n)` is day `n` of the displayed month for a real day. For `days < n <= days + 28` it is day `n - days` of the next month. For `-27 <= n <= 0` it is the matching day counted back from the last day of the previous month. These ranges hold every number a grid cell can hold (-5..37, `MonthGrid.CellRange`); `Dates.NormalizeOverflow` and `Dates.NormalizeUnderflow` cover the full one-month ranges |
| `MonthGrid.CellDate` | src/calendar.js:151-164 | the dates of consecutive cells are consecutive days, counted from the Sunday that opens the grid, placeholders included |
| `MonthGrid.BandBounds` | src/calendar.js:131-134 | when the selected date lies in the displayed month and year, `1 <= startDay <= day <= endDay <= days` |
| `MonthGrid.BandIsSelectedRow` | src/calendar.js:131-134 | when the selected date lies in the displayed month and year, `startDay` and `endDay` are the first and last real days of the selected row |
| `MonthGrid.StyleSymbolCases` | src/calendar.js:120-149 | the marker is one of "", "<", ">", "<>", "="; it is "" exactly when there is no value, the number is no real day, the months differ or the cell is outside the selected row; otherwise it is "<>", "<", ">" or "=" as the number is both band ends, the start only, the end only or neither |
| `MonthGrid.IsDateSelectedIffClickDate` | src/calendar.js:90-94 | with the year compared, a number is selected exactly when it is a real day and the value is the date a click on it reports |
| `MonthGrid.StyleSymbolSameYearMarksRow` | src/calendar.js:120-149 | with the year compared, the marked cells of the grid are exactly the real days of the selected row; "<" or "<>" marks the first of them, ">" or "<>" the last |
| `MonthGrid.SameYearAgrees` | src/calendar.js:90-94 | when the selected value is in the displayed year (or absent), the code as written gives the same selection and markers as the year-comparing versions |
| `CalendarElement.Calendar.constructor` | src/calendar.js:53-70 | the initial state has no name, no value, no cells, and today's month on display |
| `CalendarElement.Calendar.SetDisplayDate` | src/calendar.js:44-49 | the setter stores the first day of the value's month, with the value's month and (outside 0..99) its year |
| `CalendarElement.Calendar.Update` | src/calendar.js:158-164 | after a displayed-month change the cell array is a new array equal to the grid's cell list, so rebuilding from the same month gives the same cells; without such a change the array is kept |
| `CalendarElement.Calendar.GetDate` | src/calendar.js:151-156 | the result is the displayed month with its day set to `num`; it stays in the displayed month on day `num` exactly when `num` is a real day |
| `CalendarElement.Calendar.SelectDate` | src/calendar.js:76-82 | a click makes exactly one `onChange(name, date)` call, with the clicked number's date; a real day gives that day of the displayed month |
| `CalendarElement.Calendar.SelectToday` | src/calendar.js:75 | makes exactly one `onChange(name, today)` call |
| `CalendarElement.Calendar.ChangeHeader` | src/calendar.js:74 | makes exactly one `onChangeDisplay(name, date)` call and leaves the displayed month as it is |
| `CalendarCases.December2019Geometry` | test/calendar.test.js:44-175 | December 2019, the month of the test clock's 2019-12-01 (lines 44-51 for the geometry, 157-175 for `isValidDayNum`): offset 1, 31 days, 5 rows; 0, -1 and 32 are not real days, 1, 12 and 31 are. Day 15 being 2019-12-15 is an extra case that no test pins |
| `CalendarCases.March2019Geometry` | test/calendar.test.js:59-72 | March 2019: offset -4, 31 days, 6 rows; nothing is selected without a value |
| `CalendarCases.March2019FirstSelected` | test/calendar.test.js:75-96 | with the 1st selected: 1 is selected and 4 is not, row 0, markers "", "", "", "", "", "<", ">" |
| `CalendarCases.March2019MiddleSelected` | test/calendar.test.js:98-111 | with the 14th selected: markers "<", "=", "=", "=", "=", "=", ">" over days 10..16 |
| `CalendarCases.March2019LastSelected` | test/calendar.test.js:114-127 | with the 31st selected: markers "<>" then six "" over numbers 31..37 |
| `CalendarCases.OtherMonthNotSelected` | test/calendar.test.js:131-141 | a date in October 2019 selects neither 10 nor 12 in March 2019 |
| `CalendarCases.ClickFourteenthDaySpot` | test/calendar.test.js:144-153 | created on 2019-12-01 the element shows December 2019; then with March 2019 displayed under the name "someName", the element is rebuilt and then its 14th day spot (cell 18) is clicked. This reports exactly one `onChange("someName", 2019-03-14)` |
| `CalendarCases.YearIgnoredCounterexample` | src/calendar.js:90-94 | as written, 2020-03-14 counts as selected in March 2019; its markers over days 10..16 are "=", "=", "=", "=", ">", "=", "=", and the year-comparing version marks none |

## Findings

| source | as written | input that shows it | evidently intended | confidence | as-written member | corrected member |
|---|---|---|---|---|---|---|
| src/calendar.js:90-94, 120-129 | `isDayNumSelected` and `getStyleSymbol` compare the selected value's month with the displayed month but not its year | March 2019 displayed, value 2020-03-14: day 14 counts as selected. The band is computed from the 2020 weekday (Saturday), which gives 8..14, but it is drawn over the 2019 row 10..16. So no cell shows "<" and the cells of the 15th and 16th show "=" after the ">" | select and mark only a value in the displayed month and year | not executed; follows from the code as written | `CalendarCases.YearIgnoredCounterexample` | `MonthGrid.StyleSymbolSameYearMarksRow` |

The class `CalendarElement.Calendar` and the functions `MonthGrid.IsDayNumSelected`
and `MonthGrid.StyleSymbol` follow the code as written. The corrected versions
are `MonthGrid.IsDateSelected` and `MonthGrid.StyleSymbolSameYear`; their
intended properties are proved in `MonthGrid.IsDateSelectedIffClickDate` and
`MonthGrid.StyleSymbolSameYearMarksRow`. `MonthGrid.SameYearAgrees` shows that
the two versions agree whenever the years match.

## Left out

- Rendering is not modelled: styles, `render`, the header, footer, symbol, day and placeholder templates, `__renderSymbols`, the `DAY_SYMBOLS` labels and `REFS`. The only decision in `__renderDays`, real day or placeholder, is `MonthGrid.IsValidDayNum`.
- LitElement's `requestUpdate` scheduling is not modelled. The `changedProps.has('displayDate')` test in `update` becomes the `displayDateChanged` parameter of `Update`.
- The setter passes the new value rather than the old one to `requestUpdate`. This only affects change notification and is not modelled.
- The clock reads `new Date()` in `initState` and `selectToday` become the `today` parameter.
- Time zones, times of day and `getTime()` are not modelled: dates are (year, month, day) triples in local time.
- An invalid `Date` (NaN) is not modelled: every date in the model is a real calendar day. The model has no year limit. A JavaScript time value is bounded by ±8.64e15 ms (±100,000,000 days from 1970), so JavaScript dates run only from the year -271,821 to the year 275,760.
- Callback functions replaced by the host are not modelled. `onChange` and `onChangeDisplay` are the `Event` values the handlers return.
- `Number(e.currentTarget.num)` is not modelled: the clicked cell's number is an integer parameter.
- The `displayDate` getter returns the stored `Date` object by reference, not a copy. A caller can mutate it in place (`el.displayDate.setDate(15)`, say). That bypasses the setter's day-1 normalisation and its `requestUpdate`: the grid functions would read a date that need not be the first of a month, and `__dayNums` would not be rebuilt. The model stores the displayed month as a value, so it does not capture this aliasing. In the model the day-1 invariant holds unconditionally.
- The host assigns `name` and `value` directly, so they are public fields with no setter method.
