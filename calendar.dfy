/**
 * `drawCalendar(painter, xMax, yMax, month)`: the month grid of the calendar.
 *
 * It computes the number of week rows from the weekday of `month` and the
 * length of its month, draws 8 vertical lines, a top line and rows + 1
 * horizontal lines, writes 7 weekday names, walks back from `month` to a
 * Sunday and writes the 7 * rows day numbers from there, greying the ones
 * outside the month.
 *
 * Coordinates are exact reals: the floating-point rounding of the painter's
 * numbers is not modelled.
 */
module CalendarGrid {
  import opened CivilDate
  import opened Painting

  /** Height of the band above the grid that holds the weekday names. */
  const DayHeaderHeight: real := 20.0

  /** Distance of a text from the top-left corner of its cell. */
  const Inset: real := 5.0

  /** Font size of the weekday names, which the day numbers inherit. */
  const LabelSize: int := 12

  /**
   * The local day of the instant `Date.UTC(2017, 0, 2)`, from which the source
   * counts the 7 weekday names: Monday 2 January 2017 where local time is UTC or
   * ahead of it, Sunday 1 January where local time is behind UTC. `westOfUtc`
   * stands for the time zone of the environment, the only part of it this
   * depends on. The days are given by their day numbers 17167 and 17168
   * (`GridFacts.January2017` computes them).
   */
  function LabelReference(westOfUtc: bool): DayNumber {
    if westOfUtc then 17167 else 17168
  }

  /**
   * The day the weekday names are counted from in this model: local Sunday
   * 1 January 2017, the day `LabelReference` gives west of UTC, so that name i
   * heads the column of weekday i in every time zone: `new Date(2017, 0, 1)`,
   * day number 17167.
   */
  function LabelStart(): DayNumber {
    17167
  }

  // ---------------------------------------------------------------------
  // Geometry
  // ---------------------------------------------------------------------

  /** `new Date(month.getFullYear(), month.getMonth() + 1, 0)`: the day before the first of next month. */
  function LastDay(month: DayNumber): DayNumber {
    NewDate(Year(month), Month(month) + 1, 0)
  }

  /**
   * `lastDay` is in the month of `month`, on the date that is that month's
   * length (of year 1900 + y for the two-digit years y).
   */
  lemma LastDayInMonth(month: DayNumber)
    ensures var y := Year(month);
      && Month(LastDay(month)) == Month(month)
      && Date(LastDay(month)) == DaysInMonth(if 0 <= y <= 99 then 1900 + y else y, Month(month))
  {
    var y := Year(month);
    LastDayOfMonth(if 0 <= y <= 99 then 1900 + y else y, Month(month), LastDay(month));
  }

  /** `month.getDay() + lastDay.getDate()`. */
  function TotalDays(month: DayNumber): int {
    WeekDay(month) + Date(LastDay(month))
  }

  /** The weekday offset and the month length together take 28 to 37 cells. */
  lemma TotalDaysRange(month: DayNumber)
    ensures 28 <= TotalDays(month) <= 37
  {
    LastDayLength(Year(month), Month(month), LastDay(month));
  }

  /** `Math.ceil(totalDays / 7)`: the fewest week rows that hold totalDays cells. */
  function Rows(month: DayNumber): (rows: int)
    ensures 7 * (rows - 1) < TotalDays(month) <= 7 * rows
    ensures 4 <= rows <= 6
  {
    TotalDaysRange(month);
    var total := TotalDays(month);
    (total + 6) / 7
  }

  /** `xStep = availableWidth / 7`: the width of a day column. */
  function XStep(xMax: real): real {
    xMax / 7.0
  }

  /** `yStep = availableHeight / rows`: the height of a week row below the weekday names. */
  function YStep(yMax: real, rows: int): real
    requires rows > 0
  {
    (yMax - DayHeaderHeight) / rows as real
  }

  /** The grid fills the drawing area exactly: 7 columns span xMax, the header and the rows span yMax. */
  lemma GridFills(xMax: real, yMax: real, rows: int)
    requires rows > 0
    ensures XStep(xMax) * 7.0 == xMax
    ensures DayHeaderHeight + rows as real * YStep(yMax, rows) == yMax
  {
    DivideFills(yMax - DayHeaderHeight, rows as real);
  }

  /** Dividing and multiplying back by a positive number. */
  lemma DivideFills(a: real, r: real)
    requires r > 0.0
    ensures r * (a / r) == a
  {
  }

  // ---------------------------------------------------------------------
  // The painter calls, part by part
  // ---------------------------------------------------------------------

  /** Vertical line i: `moveTo(xStep * i, 0).lineTo(xStep * i, 20 + rows * yStep).stroke()`. */
  function VerticalLine(xStep: real, yStep: real, rows: int, i: int): seq<Command> {
    StrokedLine(Point(xStep * i as real, 0.0), Point(xStep * i as real, DayHeaderHeight + rows as real * yStep))
  }

  /** Vertical lines 0 .. n - 1. */
  function VerticalLines(xStep: real, yStep: real, rows: int, n: nat): seq<Command> {
    if n == 0 then [] else VerticalLines(xStep, yStep, rows, n - 1) + VerticalLine(xStep, yStep, rows, n - 1)
  }

  /** The top line: `moveTo(0, 0).lineTo(xStep * 7, 0).stroke()`. */
  function TopLine(xStep: real): seq<Command> {
    StrokedLine(Point(0.0, 0.0), Point(xStep * 7.0, 0.0))
  }

  /** Horizontal line i, at y = 20 + i * yStep. */
  function HorizontalLine(xStep: real, yStep: real, i: int): seq<Command> {
    var y := DayHeaderHeight + i as real * yStep;
    StrokedLine(Point(0.0, y), Point(xStep * 7.0, y))
  }

  /** Horizontal lines 0 .. n - 1. */
  function HorizontalLines(xStep: real, yStep: real, n: nat): seq<Command> {
    if n == 0 then [] else HorizontalLines(xStep, yStep, n - 1) + HorizontalLine(xStep, yStep, n - 1)
  }

  /** Weekday name i: `fontSize(12).text(dayName, xStep * i + 5, 5)`, naming the i-th day from `LabelStart`. */
  function WeekdayLabel(xStep: real, i: int): seq<Command> {
    [FontSize(LabelSize), Text(WeekdayName(AddDays(LabelStart(), i)), xStep * i as real + Inset, Inset)]
  }

  /** Weekday names 0 .. n - 1. */
  function WeekdayLabels(xStep: real, n: nat): seq<Command> {
    if n == 0 then [] else WeekdayLabels(xStep, n - 1) + WeekdayLabel(xStep, n - 1)
  }

  /** Where the number of cell d goes: column d % 7, row d / 7, inset from the cell's corner. */
  function CellPoint(xStep: real, yStep: real, d: int): Point {
    Point((d % 7) as real * xStep + Inset, DayHeaderHeight + (d / 7) as real * yStep + Inset)
  }

  /** The source's test for greying: the cell's month differs from that of `month` (years are not compared). */
  predicate OtherMonth(month: DayNumber, date: DayNumber) {
    Month(date) != Month(month)
  }

  /** The number shown in cell d: the day of the month of `start` + d. */
  function CellNumber(start: DayNumber): int -> Label {
    d => DayOfMonth(Date(AddDays(start, d)))
  }

  /** Whether cell d is greyed: its day lies in another month than `month`. */
  function CellGrey(month: DayNumber, start: DayNumber): int -> bool {
    d => OtherMonth(month, AddDays(start, d))
  }

  /** Cell d: grey if `grey`, the number, then black again. */
  function DayCell(xStep: real, yStep: real, number: Label, grey: bool, d: int): seq<Command> {
    var p := CellPoint(xStep, yStep, d);
    (if grey then [FillColor(Grey)] else []) + [Text(number, p.x, p.y), FillColor(Black)]
  }

  /** Cells 0 .. n - 1, cell d showing `number(d)`, greyed when `grey(d)`. */
  function DayCells(xStep: real, yStep: real, number: int -> Label, grey: int -> bool, n: nat): seq<Command> {
    if n == 0 then [] else DayCells(xStep, yStep, number, grey, n - 1) + DayCell(xStep, yStep, number(n - 1), grey(n - 1), n - 1)
  }

  /** The Sunday on or before `month`, where the grid starts. */
  function FirstWeekStart(month: DayNumber): DayNumber {
    month - WeekDay(month)
  }

  /** Every call `drawCalendar` makes, in order. */
  function CalendarCommands(xMax: real, yMax: real, month: DayNumber): seq<Command> {
    var xStep, yStep, rows := XStep(xMax), YStep(yMax, Rows(month)), Rows(month);
    VerticalLines(xStep, yStep, rows, 8) + TopLine(xStep) + HorizontalLines(xStep, yStep, rows + 1)
      + WeekdayLabels(xStep, 7)
      + DayCells(xStep, yStep, CellNumber(FirstWeekStart(month)), CellGrey(month, FirstWeekStart(month)), 7 * rows)
  }

  // The calls of each piece, spelled out for the loops of drawCalendar.

  lemma VerticalLineCalls(xStep: real, yStep: real, rows: int, i: int)
    ensures VerticalLine(xStep, yStep, rows, i) == [MoveTo(xStep * i as real, 0.0),
      LineTo(xStep * i as real, DayHeaderHeight + rows as real * yStep), Stroke]
  {
    var x := xStep * i as real;
    assert VerticalLine(xStep, yStep, rows, i) == StrokedLine(Point(x, 0.0), Point(x, DayHeaderHeight + rows as real * yStep));
  }

  lemma HorizontalLineCalls(xStep: real, yStep: real, i: int)
    ensures HorizontalLine(xStep, yStep, i) == [MoveTo(0.0, DayHeaderHeight + i as real * yStep),
      LineTo(xStep * 7.0, DayHeaderHeight + i as real * yStep), Stroke]
  {
    var y := DayHeaderHeight + i as real * yStep;
    assert HorizontalLine(xStep, yStep, i) == StrokedLine(Point(0.0, y), Point(xStep * 7.0, y));
  }

  lemma WeekdayLabelCalls(xStep: real, i: int)
    ensures WeekdayLabel(xStep, i) == [FontSize(LabelSize),
      Text(WeekdayName(AddDays(LabelStart(), i)), xStep * i as real + Inset, Inset)]
  {
  }

  lemma DayCellCalls(xStep: real, yStep: real, number: Label, grey: bool, d: int)
    ensures DayCell(xStep, yStep, number, grey, d)
      == (if grey then [FillColor(Grey)] else [])
        + [Text(number, (d % 7) as real * xStep + Inset, DayHeaderHeight + (d / 7) as real * yStep + Inset), FillColor(Black)]
  {
  }

  // ---------------------------------------------------------------------
  // drawCalendar
  // ---------------------------------------------------------------------

  /**
   * `while (startDate.getDay() > 0) startDate.setDate(startDate.getDate() - 1)`:
   * at most 6 steps back, to the Sunday on or before `month`.
   */
  method StartOfFirstWeek(month: DayNumber) returns (start: DayNumber)
    ensures WeekDay(start) == 0 && start <= month && month - start == WeekDay(month)
    ensures start == FirstWeekStart(month)
    ensures start == month <==> WeekDay(month) == 0
  {
    start := month;
    while WeekDay(start) > 0
      invariant 0 <= month - start <= WeekDay(month)
      invariant WeekDay(start) == WeekDay(month) - (month - start)
      decreases WeekDay(start)
    {
      SetDateMoves(start, Date(start) - 1);
      start := SetDate(start, Date(start) - 1);
      WeekDayBack(month, month - start);
    }
  }

  /** "Paint vertical lines": `for (i = 0; i <= 7; i++)` one line from the top to the bottom of the grid. */
  method PaintVerticalLines(painter: Painter, xStep: real, yStep: real, rows: int)
    modifies painter
    ensures painter.log == old(painter.log) + VerticalLines(xStep, yStep, rows, 8) && painter.fill == old(painter.fill)
  {
    for i := 0 to 8
      invariant painter.log == old(painter.log) + VerticalLines(xStep, yStep, rows, i) && painter.fill == old(painter.fill)
    {
      ghost var before := painter.log;
      painter.MoveTo(xStep * i as real, 0.0);
      painter.LineTo(xStep * i as real, DayHeaderHeight + rows as real * yStep);
      painter.Stroke();
      assert painter.log == before + VerticalLine(xStep, yStep, rows, i) by {
        VerticalLineCalls(xStep, yStep, rows, i);
        LogThree(before, VerticalLine(xStep, yStep, rows, i)[0], VerticalLine(xStep, yStep, rows, i)[1], VerticalLine(xStep, yStep, rows, i)[2]);
      }
      LogAppend(old(painter.log), VerticalLines(xStep, yStep, rows, i), VerticalLine(xStep, yStep, rows, i));
    }
  }

  /** "Paint top horizontal line" and "Paint horizontal lines": the line at 0, then `for (i = 0; i <= rows; i++)` one at 20 + i * yStep. */
  method PaintHorizontalLines(painter: Painter, xStep: real, yStep: real, rows: int)
    requires rows >= 0
    modifies painter
    ensures painter.log == old(painter.log) + TopLine(xStep) + HorizontalLines(xStep, yStep, rows + 1)
    ensures painter.fill == old(painter.fill)
  {
    painter.MoveTo(0.0, 0.0);
    painter.LineTo(xStep * 7.0, 0.0);
    painter.Stroke();
    assert painter.log == old(painter.log) + TopLine(xStep) by {
      LogThree(old(painter.log), TopLine(xStep)[0], TopLine(xStep)[1], TopLine(xStep)[2]);
    }
    ghost var top := painter.log;
    for i := 0 to rows + 1
      invariant painter.log == top + HorizontalLines(xStep, yStep, i) && painter.fill == old(painter.fill)
    {
      ghost var before := painter.log;
      var y := DayHeaderHeight + i as real * yStep;
      painter.MoveTo(0.0, y);
      painter.LineTo(xStep * 7.0, y);
      painter.Stroke();
      assert painter.log == before + HorizontalLine(xStep, yStep, i) by {
        HorizontalLineCalls(xStep, yStep, i);
        LogThree(before, HorizontalLine(xStep, yStep, i)[0], HorizontalLine(xStep, yStep, i)[1], HorizontalLine(xStep, yStep, i)[2]);
      }
      LogAppend(top, HorizontalLines(xStep, yStep, i), HorizontalLine(xStep, yStep, i));
    }
  }

  /** "Paint weekday names": `for (i = 0; i < 7; i++)` the name of the i-th day from `LabelStart`. */
  method PaintWeekdayNames(painter: Painter, xStep: real)
    modifies painter
    ensures painter.log == old(painter.log) + WeekdayLabels(xStep, 7) && painter.fill == old(painter.fill)
  {
    for i := 0 to 7
      invariant painter.log == old(painter.log) + WeekdayLabels(xStep, i) && painter.fill == old(painter.fill)
    {
      ghost var before := painter.log;
      var dayName := WeekdayName(AddDays(LabelStart(), i));
      painter.FontSize(LabelSize);
      painter.Text(dayName, xStep * i as real + Inset, Inset);
      assert painter.log == before + WeekdayLabel(xStep, i) by {
        WeekdayLabelCalls(xStep, i);
        LogTwo(before, WeekdayLabel(xStep, i)[0], WeekdayLabel(xStep, i)[1]);
      }
      LogAppend(old(painter.log), WeekdayLabels(xStep, i), WeekdayLabel(xStep, i));
    }
  }

  /** One pass of the date loop: grey when out of month, the day number in cell d, black again. */
  method PaintDate(painter: Painter, xStep: real, yStep: real, month: DayNumber, startDate: DayNumber, d: int)
    modifies painter
    ensures painter.log == old(painter.log) + DayCell(xStep, yStep, CellNumber(startDate)(d), CellGrey(month, startDate)(d), d)
    ensures painter.fill == Black
  {
    var date := AddDays(startDate, d);
    var grey := OtherMonth(month, date);
    if grey {
      painter.FillColor(Grey);
    }
    ghost var greyed := painter.log;
    var number := DayOfMonth(Date(date));
    var x, y := (d % 7) as real * xStep + Inset, DayHeaderHeight + (d / 7) as real * yStep + Inset;
    painter.Text(number, x, y);
    painter.FillColor(Black);
    LogTwo(greyed, Text(number, x, y), FillColor(Black));
    DayCellCalls(xStep, yStep, number, grey, d);
    LogAppend(old(painter.log), if grey then [FillColor(Grey)] else [], [Text(number, x, y), FillColor(Black)]);
  }

  /** "Paint dates": `for (d = 0; d < 7 * rows; d++)` the date of startDate + d, greyed when out of month. */
  method PaintDates(painter: Painter, xStep: real, yStep: real, rows: int, month: DayNumber, startDate: DayNumber)
    requires rows > 0
    modifies painter
    ensures painter.log == old(painter.log) + DayCells(xStep, yStep, CellNumber(startDate), CellGrey(month, startDate), 7 * rows)
    ensures painter.fill == Black
  {
    ghost var number, grey := CellNumber(startDate), CellGrey(month, startDate);
    for d := 0 to 7 * rows
      invariant painter.log == old(painter.log) + DayCells(xStep, yStep, number, grey, d)
      invariant d > 0 ==> painter.fill == Black
    {
      PaintDate(painter, xStep, yStep, month, startDate, d);
      LogAppend(old(painter.log), DayCells(xStep, yStep, number, grey, d), DayCell(xStep, yStep, number(d), grey(d), d));
    }
  }

  /** `drawCalendar`: the geometry, then the four painting steps in the source's order. */
  method DrawCalendar(painter: Painter, xMax: real, yMax: real, month: DayNumber)
    modifies painter
    ensures painter.log == old(painter.log) + CalendarCommands(xMax, yMax, month)
    ensures painter.fill == Black
  {
    var availableHeight := yMax - DayHeaderHeight;
    var availableWidth := xMax;
    var xStep := availableWidth / 7.0;
    var lastDay := LastDay(month);
    var totalDays := WeekDay(month) + Date(lastDay);
    var rows := (totalDays + 6) / 7;
    RowsOfLastDay(month, lastDay, totalDays, rows);
    var yStep := availableHeight / rows as real;
    assert xStep == XStep(xMax) && yStep == YStep(yMax, rows);

    ghost var log0 := painter.log;
    PaintVerticalLines(painter, xStep, yStep, rows);
    PaintHorizontalLines(painter, xStep, yStep, rows);
    PaintWeekdayNames(painter, xStep);
    var startDate := StartOfFirstWeek(month);
    PaintDates(painter, xStep, yStep, rows, month, startDate);

    LogFive(log0, VerticalLines(xStep, yStep, rows, 8), TopLine(xStep), HorizontalLines(xStep, yStep, rows + 1),
      WeekdayLabels(xStep, 7), DayCells(xStep, yStep, CellNumber(startDate), CellGrey(month, startDate), 7 * rows));
  }

  /** The row count computed step by step in `drawCalendar` is `Rows(month)`. */
  lemma RowsOfLastDay(month: DayNumber, lastDay: DayNumber, totalDays: int, rows: int)
    requires lastDay == LastDay(month) && totalDays == WeekDay(month) + Date(lastDay) && rows == (totalDays + 6) / 7
    ensures rows == Rows(month) && rows > 0
  {
  }

  /** The five pieces logged one after another make the whole page's log. */
  lemma LogFive(log: seq<Command>, a: seq<Command>, b: seq<Command>, c: seq<Command>, d: seq<Command>, e: seq<Command>)
    ensures log + a + b + c + d + e == log + (a + b + c + d + e)
  {
  }
}
