/**
 * What the grid of `drawCalendar` shows when `month` is the first of a month,
 * as every month of the month list is: where the month starts, how many rows
 * it takes, which cells hold its days and which are greyed.
 */
module GridFacts {
  import opened CivilDate
  import opened CalendarGrid

  /** Weekday of the first of the month. */
  function Offset(month: DayNumber): int {
    WeekDay(month)
  }

  /** Length of the month holding `month`. */
  function Length(month: DayNumber): int {
    DaysInMonth(Year(month), Month(month))
  }

  /** The day in cell d of the grid: d days after its start. */
  function CellDay(month: DayNumber, d: int): DayNumber {
    FirstWeekStart(month) + d
  }

  /** It is the day `startDate.addDays(d)` of the date loop. */
  lemma CellDayIsAddDays(month: DayNumber, d: int)
    ensures AddDays(FirstWeekStart(month), d) == CellDay(month, d)
  {
  }

  /** 1 February of year 0 is a Tuesday. */
  lemma FebruaryYearZero()
    ensures WeekDay(MakeDay(0, 1, 1)) == 2
  {
    assert DayFromYear(0) == -719528;
    assert MakeDay(0, 1, 1) == -719497;
  }

  /**
   * The day-0 trick gives the month's length, except that it reads years 0..99
   * as 1900..1999: February of year 0 then gets 28 days instead of 29.
   */
  lemma LastDayOfFirst(month: DayNumber)
    ensures Date(LastDay(month)) == Length(month) || (Year(month) == 0 && Month(month) == 1 && Date(LastDay(month)) == 28)
  {
    LastDayOfYearMonth(Year(month), Month(month), LastDay(month));
  }

  /** A count that is not a multiple of 7 leaves room for one more in its last row. */
  lemma OneMoreFits(total: int, rows: int)
    requires 7 * (rows - 1) < total <= 7 * rows && total % 7 != 0
    ensures total + 1 <= 7 * rows
  {
  }

  /** Neighbouring month indices have different months of the year. */
  lemma NeighbourMonths(k: int)
    ensures (k - 1) % 12 != k % 12 && (k + 1) % 12 != k % 12
  {
  }

  /**
   * The grid has the fewest rows that hold the weekday offset and the month:
   * 7 * (rows - 1) < offset + length <= 7 * rows. February of year 0, which
   * the day-0 trick shortens by a day, starts on a Tuesday and takes 5 rows
   * either way.
   */
  lemma RowsOfFirst(month: DayNumber)
    requires Date(month) == 1
    ensures 7 * (Rows(month) - 1) < Offset(month) + Length(month) <= 7 * Rows(month)
    ensures 4 <= Rows(month) <= 6
  {
    LastDayOfFirst(month);
    if Date(LastDay(month)) != Length(month) {
      MakeDayOfFields(month);
      FebruaryYearZero();
      assert Offset(month) == 2;
      assert Length(month) == DaysInMonth(0, 1) == 29;
      assert TotalDays(month) == 30;
      OneMoreFits(30, Rows(month));
    } else {
      assert TotalDays(month) == Offset(month) + Length(month);
    }
  }

  /** The grid starts on the Sunday on or before the first, at most 6 days back; on the first itself when that is a Sunday. */
  lemma GridStart(month: DayNumber)
    ensures WeekDay(FirstWeekStart(month)) == 0
    ensures month - 6 <= FirstWeekStart(month) <= month
    ensures FirstWeekStart(month) == month <==> WeekDay(month) == 0
  {
    WeekDayBack(month, WeekDay(month));
  }

  /** Each cell lies in the column of its weekday. */
  lemma CellColumn(month: DayNumber, d: int)
    requires 0 <= d
    ensures WeekDay(CellDay(month, d)) == d % 7
  {
    GridStart(month);
    var s := FirstWeekStart(month);
    assert s + 4 == 7 * ((s + 4) / 7);
    assert s + d + 4 == 7 * ((s + 4) / 7 + d / 7) + d % 7;
  }

  /** Cells offset .. offset + length - 1 hold the days of the month, numbered 1 .. length. */
  lemma CellInMonth(month: DayNumber, d: int)
    requires Date(month) == 1
    requires Offset(month) <= d < Offset(month) + Length(month)
    ensures Year(CellDay(month, d)) == Year(month) && Month(CellDay(month, d)) == Month(month)
    ensures Date(CellDay(month, d)) == d - Offset(month) + 1
    ensures !OtherMonth(month, CellDay(month, d))
  {
    var k := MonthIndex(month);
    OwnSpan(month);
    InSpan(k, CellDay(month, d));
  }

  /** The cells before the offset hold the end of the previous month. */
  lemma CellBeforeMonth(month: DayNumber, d: int)
    requires Date(month) == 1
    requires 0 <= d < Offset(month)
    ensures MonthIndex(CellDay(month, d)) == MonthIndex(month) - 1
    ensures OtherMonth(month, CellDay(month, d))
  {
    var k := MonthIndex(month);
    OwnSpan(month);
    FirstOfMonthNext(k - 1);
    InSpan(k - 1, CellDay(month, d));
    NeighbourMonths(k);
  }

  /** The cells after the month hold the start of the next month. */
  lemma CellAfterMonth(month: DayNumber, d: int)
    requires Date(month) == 1
    requires Offset(month) + Length(month) <= d < 7 * Rows(month)
    ensures MonthIndex(CellDay(month, d)) == MonthIndex(month) + 1
    ensures OtherMonth(month, CellDay(month, d))
  {
    var k := MonthIndex(month);
    RowsOfFirst(month);
    OwnSpan(month);
    FirstOfMonthNext(k);
    FirstOfMonthNext(k + 1);
    InSpan(k + 1, CellDay(month, d));
    NeighbourMonths(k);
  }

  /**
   * The source greys a cell when its month differs from `month`'s, without
   * comparing years; on the grid this is exactly "the cell is outside the month".
   */
  lemma GreyExactlyOutsideMonth(month: DayNumber, d: int)
    requires Date(month) == 1
    requires 0 <= d < 7 * Rows(month)
    ensures OtherMonth(month, CellDay(month, d)) <==> !(Offset(month) <= d < Offset(month) + Length(month))
    ensures OtherMonth(month, CellDay(month, d))
      <==> MonthIndex(CellDay(month, d)) != MonthIndex(month)
  {
    if d < Offset(month) {
      CellBeforeMonth(month, d);
    } else if d < Offset(month) + Length(month) {
      CellInMonth(month, d);
      OwnSpan(month);
      OwnSpan(CellDay(month, d));
    } else {
      CellAfterMonth(month, d);
    }
  }

  /** The cell that the given date of the month falls in, counting from the offset. */
  function DateCell(month: DayNumber, date: int): int {
    Offset(month) + date - 1
  }

  /** Every date 1 .. length of the month has a cell on the grid, which shows it in black. */
  lemma EveryDateShown(month: DayNumber, date: int)
    requires Date(month) == 1
    requires 1 <= date <= Length(month)
    ensures 0 <= DateCell(month, date) < 7 * Rows(month)
    ensures Date(CellDay(month, DateCell(month, date))) == date
    ensures !OtherMonth(month, CellDay(month, DateCell(month, date)))
  {
    var d := DateCell(month, date);
    RowsOfFirst(month);
    CellInMonth(month, d);
    assert Date(CellDay(month, d)) == d - Offset(month) + 1;
  }

  /** The last cell is on or after the last day of the month, and less than a week after it. */
  lemma LastCellCoversMonth(month: DayNumber)
    requires Date(month) == 1
    ensures month + Length(month) - 1 <= CellDay(month, 7 * Rows(month) - 1) < month + Length(month) + 6
  {
    RowsOfFirst(month);
  }

  // ---------------------------------------------------------------------
  // The weekday names above the columns
  // ---------------------------------------------------------------------

  /** 1 and 2 January 2017, the candidates for the first weekday name. */
  lemma January2017()
    ensures LabelReference(true) == MakeDay(2017, 0, 1) && LabelReference(false) == MakeDay(2017, 0, 2)
  {
    assert FirstOfMonth(24204) == 17167 by {
      assert DayFromYear(2017) == 17167 && DaysBeforeMonth(2017, 0) == 0;
    }
  }

  /** `LabelStart` is local 1 January 2017, a Sunday. */
  lemma LabelStartDate()
    ensures NewDate(2017, 0, 1) == LabelStart() && WeekDay(LabelStart()) == 0
  {
    January2017();
    assert NewDate(2017, 0, 1) == MakeDay(2017, 0, 1);
  }

  /**
   * The source's names start on Sunday west of UTC and on Monday elsewhere;
   * west of UTC its reference is the model's `LabelStart`.
   */
  lemma LabelReferenceWeekday(westOfUtc: bool)
    ensures WeekDay(LabelReference(westOfUtc)) == if westOfUtc then 0 else 1
    ensures westOfUtc <==> LabelReference(westOfUtc) == LabelStart()
  {
    assert WeekDay(17167) == 0 && WeekDay(17168) == 1;
  }

  /**
   * As written, at or east of UTC: the column holding weekday w (Sunday = 0,
   * where the grid starts) is headed by the name of the next weekday, w + 1,
   * and the Saturday column by Sunday's.
   */
  lemma HeaderShiftedEastOfUtc(month: DayNumber, d: int)
    requires 0 <= d
    ensures var header, column := WeekDay(AddDays(LabelReference(false), d % 7)), WeekDay(CellDay(month, d));
      && (column < 6 ==> header == column + 1)
      && (column == 6 ==> header == 0)
      && header != column
  {
    CellColumn(month, d);
    var i := d % 7;
    assert AddDays(LabelReference(false), i) == 17168 + i;
    if i < 6 {
      WeekDayAhead(17168, i);
    } else {
      assert WeekDay(17174) == 0;
    }
  }

  /** Counted from `LabelStart`, name i heads the column of weekday i: it names the weekday of every cell below it. */
  lemma HeaderMatchesColumn(month: DayNumber, d: int)
    requires 0 <= d
    ensures WeekDay(AddDays(LabelStart(), d % 7)) == WeekDay(CellDay(month, d)) == d % 7
  {
    CellColumn(month, d);
    WeekDayAhead(17167, d % 7);
  }

  // ---------------------------------------------------------------------
  // Examples
  // ---------------------------------------------------------------------

  /** January 1 of the years of the examples below. */
  lemma ExampleYears()
    ensures DayFromYear(2015) == 16436 && DayFromYear(2020) == 18262 && DayFromYear(2024) == 19723
  {
  }

  /** The day number of the first of a month, from the day number of January 1 of its year. */
  lemma FirstOfMonthAt(month: DayNumber)
    requires Date(month) == 1
    ensures month == DayFromYear(Year(month)) + DaysBeforeMonth(Year(month), Month(month))
  {
    MakeDayOfFields(month);
    IndexParts(Year(month), Month(month));
  }

  /** Knowing the offset and length of a month fixes its rows. */
  lemma RowsOfLength(month: DayNumber, offset: int, length: int, rows: int)
    requires Date(month) == 1 && Offset(month) == offset && Length(month) == length
    requires 7 * (rows - 1) < offset + length <= 7 * rows
    ensures Rows(month) == rows
  {
    RowsOfFirst(month);
  }

  /** February 2024 (`new Date(2024, 1, 1)`) starts on a Thursday and has 29 days: 5 rows. */
  lemma February2024Rows(month: DayNumber)
    requires Year(month) == 2024 && Month(month) == 1 && Date(month) == 1
    ensures Offset(month) == 4 && Length(month) == 29 && Rows(month) == 5
  {
    ExampleYears();
    assert DaysBeforeMonth(2024, 1) == 31 && DaysInMonth(2024, 1) == 29;
    FirstOfMonthAt(month);
    assert WeekDay(19754) == 4;
    RowsOfLength(month, Offset(month), Length(month), 5);
  }

  /** Its grid: 4 grey cells of January, the 1st in cell 4, and cell 33 already in March. */
  lemma February2024Cells(month: DayNumber)
    requires Year(month) == 2024 && Month(month) == 1 && Date(month) == 1
    ensures Date(CellDay(month, 4)) == 1 && !OtherMonth(month, CellDay(month, 4))
    ensures OtherMonth(month, CellDay(month, 3)) && OtherMonth(month, CellDay(month, 33))
  {
    February2024Rows(month);
    CellBeforeMonth(month, 3);
    CellInMonth(month, 4);
    CellAfterMonth(month, 33);
  }

  /** September 2024 (`new Date(2024, 8, 1)`) starts on a Sunday: the grid starts on the first itself. */
  lemma September2024(month: DayNumber)
    requires Year(month) == 2024 && Month(month) == 8 && Date(month) == 1
    ensures Offset(month) == 0 && FirstWeekStart(month) == month && Rows(month) == 5
  {
    ExampleYears();
    assert DaysBeforeMonth(2024, 8) == 244 && DaysInMonth(2024, 8) == 30;
    FirstOfMonthAt(month);
    assert WeekDay(19967) == 0;
    RowsOfLength(month, Offset(month), Length(month), 5);
  }

  /** February 2015 (`new Date(2015, 1, 1)`) starts on a Sunday and has 28 days: 4 rows, the fewest. */
  lemma February2015(month: DayNumber)
    requires Year(month) == 2015 && Month(month) == 1 && Date(month) == 1
    ensures Rows(month) == 4
  {
    ExampleYears();
    assert DaysBeforeMonth(2015, 1) == 31 && DaysInMonth(2015, 1) == 28;
    FirstOfMonthAt(month);
    assert WeekDay(16467) == 0;
    RowsOfLength(month, Offset(month), Length(month), 4);
  }

  /** August 2020 (`new Date(2020, 7, 1)`) starts on a Saturday and has 31 days: 6 rows, the most. */
  lemma August2020(month: DayNumber)
    requires Year(month) == 2020 && Month(month) == 7 && Date(month) == 1
    ensures Rows(month) == 6
  {
    ExampleYears();
    assert DaysBeforeMonth(2020, 7) == 213 && DaysInMonth(2020, 7) == 31;
    FirstOfMonthAt(month);
    assert WeekDay(18475) == 6;
    RowsOfLength(month, Offset(month), Length(month), 6);
  }
}
