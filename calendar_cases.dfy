/**
 * The concrete cases the element's own test suite pins down, stated about
 * the model, and the input that shows the selection ignoring the year.
 */
module CalendarCases {
  import opened Dates
  import opened MonthGrid
  import opened CalendarElement

  const December2019: DisplayMonth := Date(2019, 11, 1)
  const March2019: DisplayMonth := Date(2019, 2, 1)

  /** Day numbers of the two new years the cases need. */
  lemma YearStarts()
    ensures DaysBeforeYear(2019) == 737059 && DaysBeforeYear(2020) == 737424
  {
  }

  lemma CaseWeekdays()
    ensures Weekday(December2019) == 0 && Weekday(March2019) == 5
    ensures Weekday(Date(2019, 2, 14)) == 4 && Weekday(Date(2019, 2, 31)) == 0
    ensures Weekday(Date(2020, 2, 14)) == 6
  {
    YearStarts();
    assert DaysBeforeMonth(2019, 2) == 59 && DaysBeforeMonth(2020, 2) == 60;
    assert DaysBeforeMonth(2019, 11) == 334 by {
      MonthsFillYear(2019);
    }
  }

  /** December 2019 starts on a Sunday: no leading placeholder, 31 days, 5 rows. */
  lemma December2019Geometry()
    ensures DayNumOffset(December2019) == 1
    ensures DaysInMonthCount(December2019) == 31
    ensures WeekCount(December2019) == 5
    ensures !IsValidDayNum(December2019, 0) && !IsValidDayNum(December2019, -1)
    ensures !IsValidDayNum(December2019, 32)
    ensures IsValidDayNum(December2019, 1) && IsValidDayNum(December2019, 31)
    ensures IsValidDayNum(December2019, 12)
    ensures DateForDayNum(December2019, 15) == Date(2019, 11, 15)
  {
    CaseWeekdays();
    NormalizeInMonth(2019, 11, 15);
  }

  /** March 2019 starts on a Friday: offset -4, 31 days, 6 rows. */
  lemma March2019Geometry()
    ensures DayNumOffset(March2019) == -4
    ensures DaysInMonthCount(March2019) == 31
    ensures WeekCount(March2019) == 6
    ensures !IsDayNumSelected(March2019, None, 4) && !IsDayNumSelected(March2019, None, 1)
  {
    CaseWeekdays();
  }

  /** The 1st of March 2019 is selected: the band is its two-day first row. */
  lemma March2019FirstSelected()
    ensures var v := Some(Date(2019, 2, 1));
      !IsDayNumSelected(March2019, v, 4) && IsDayNumSelected(March2019, v, 1) &&
      SelectedWeekIndex(March2019, v.value) == 0 &&
      StyleSymbol(March2019, v, -4, 0) == "" && StyleSymbol(March2019, v, -3, 1) == "" &&
      StyleSymbol(March2019, v, -2, 2) == "" && StyleSymbol(March2019, v, -1, 3) == "" &&
      StyleSymbol(March2019, v, 0, 4) == "" && StyleSymbol(March2019, v, 1, 5) == "<" &&
      StyleSymbol(March2019, v, 2, 6) == ">"
  {
    var v := Date(2019, 2, 1);
    March2019Geometry();
    assert Weekday(v) == 5;
    assert BandStart(v) == 1 && BandEnd(March2019, v) == 2;
  }

  /** The 14th of March 2019 is selected: the band is the whole third row. */
  lemma March2019MiddleSelected()
    ensures var v := Some(Date(2019, 2, 14));
      StyleSymbol(March2019, v, 10, 14) == "<" && StyleSymbol(March2019, v, 11, 15) == "=" &&
      StyleSymbol(March2019, v, 12, 16) == "=" && StyleSymbol(March2019, v, 13, 17) == "=" &&
      StyleSymbol(March2019, v, 14, 18) == "=" && StyleSymbol(March2019, v, 15, 19) == "=" &&
      StyleSymbol(March2019, v, 16, 20) == ">"
  {
    var v := Date(2019, 2, 14);
    March2019Geometry();
    CaseWeekdays();
    assert SelectedWeekIndex(March2019, v) == 2;
    assert BandStart(v) == 10 && BandEnd(March2019, v) == 16;
  }

  /** The 31st of March 2019 is selected: it is alone in the last row. */
  lemma March2019LastSelected()
    ensures var v := Some(Date(2019, 2, 31));
      StyleSymbol(March2019, v, 31, 35) == "<>" && StyleSymbol(March2019, v, 32, 36) == "" &&
      StyleSymbol(March2019, v, 33, 37) == "" && StyleSymbol(March2019, v, 34, 38) == "" &&
      StyleSymbol(March2019, v, 35, 39) == "" && StyleSymbol(March2019, v, 36, 40) == "" &&
      StyleSymbol(March2019, v, 37, 41) == ""
  {
    var v := Date(2019, 2, 31);
    March2019Geometry();
    CaseWeekdays();
    assert SelectedWeekIndex(March2019, v) == 5;
    assert BandStart(v) == 31 && BandEnd(March2019, v) == 31;
  }

  /** A date in October is never selected in March. */
  lemma OtherMonthNotSelected()
    ensures var v := Some(Date(2019, 9, 12));
      !IsDayNumSelected(March2019, v, 10) && !IsDayNumSelected(March2019, v, 12)
  {
  }

  /**
   * As written, the selection ignores the year: the 14th of March 2020 is
   * shown as selected in March 2019, and its band (a Saturday's, 8..14) does
   * not match the row it is drawn in (10..16): the row's first day is not
   * marked as the start, and two cells after the band's end are marked inside it.
   */
  lemma YearIgnoredCounterexample()
    ensures var v := Some(Date(2020, 2, 14));
      IsDayNumSelected(March2019, v, 14) && !IsDateSelected(March2019, v, 14) &&
      StyleSymbol(March2019, v, 10, 14) == "=" && StyleSymbol(March2019, v, 11, 15) == "=" &&
      StyleSymbol(March2019, v, 12, 16) == "=" && StyleSymbol(March2019, v, 13, 17) == "=" &&
      StyleSymbol(March2019, v, 14, 18) == ">" && StyleSymbol(March2019, v, 15, 19) == "=" &&
      StyleSymbol(March2019, v, 16, 20) == "=" &&
      StyleSymbolSameYear(March2019, v, 10, 14) == "" && StyleSymbolSameYear(March2019, v, 11, 15) == "" &&
      StyleSymbolSameYear(March2019, v, 12, 16) == "" && StyleSymbolSameYear(March2019, v, 13, 17) == "" &&
      StyleSymbolSameYear(March2019, v, 14, 18) == "" && StyleSymbolSameYear(March2019, v, 15, 19) == "" &&
      StyleSymbolSameYear(March2019, v, 16, 20) == ""
  {
    var v := Date(2020, 2, 14);
    March2019Geometry();
    CaseWeekdays();
    assert SelectedWeekIndex(March2019, v) == 2;
    assert BandStart(v) == 8 && BandEnd(March2019, v) == 14;
  }

  /**
   * The element created on the test clock's 2019-12-01 starts on December
   * 2019; shown in March 2019 under the name "someName", clicking the 14th
   * day spot (the 14th real day, after five placeholders) reports the 14th of
   * March 2019, and only that.
   */
  method ClickFourteenthDaySpot() returns (e: Event)
    ensures e == Change("someName", Date(2019, 2, 14))
  {
    var c := new Calendar(Date(2019, 11, 1));
    assert c.displayDate == December2019;
    c.name := "someName";
    c.SetDisplayDate(Date(2019, 2, 1));
    c.Update(true);
    March2019Geometry();
    assert c.dayNums[..] == CellSequence(March2019);
    assert c.dayNums[18] == CellSequence(March2019)[18] == 14;
    e := c.SelectDate(c.dayNums[18]);
  }
}
