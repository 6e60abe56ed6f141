/**
 * What the calls of `drawCalendar` paint on the page: the grid lines, the
 * weekday names and the day numbers, each where the source puts it and in the
 * colour and size the painter holds at that point.
 */
module CalendarPage {
  import opened CivilDate
  import opened Painting
  import opened CalendarGrid
  import opened GridFacts

  /** A painter state with no open path, as between two stroked lines. */
  predicate Idle(pen: Pen) {
    pen.current == Nowhere && pen.path == []
  }

  /** Vertical line i: x = xStep * i, from the top of the page to the bottom of the last row. */
  function VerticalMark(xStep: real, yStep: real, rows: int, i: int): Mark {
    Line(Point(xStep * i as real, 0.0), Point(xStep * i as real, DayHeaderHeight + rows as real * yStep))
  }

  /** Horizontal line i: y = 20 + i * yStep, across the 7 columns. */
  function HorizontalMark(xStep: real, yStep: real, i: int): Mark {
    var y := DayHeaderHeight + i as real * yStep;
    Line(Point(0.0, y), Point(xStep * 7.0, y))
  }

  /** Weekday name i, 5 in from the corner of column i, in size 12. */
  function LabelMark(xStep: real, color: Color, i: int): Mark {
    Glyph(WeekdayName(AddDays(LabelStart(), i)), Point(xStep * i as real + Inset, Inset), LabelSize, color)
  }

  /** The colour a number is painted in: grey when greyed, black otherwise. */
  function NumberColor(grey: bool): Color {
    if grey then Grey else Black
  }

  /** Cell d's number at its cell point, in the given size and in grey or black. */
  function DayMark(xStep: real, yStep: real, number: Label, grey: bool, size: int, d: int): Mark {
    Glyph(number, CellPoint(xStep, yStep, d), size, NumberColor(grey))
  }

  /** Vertical lines 0 .. n - 1. */
  function VerticalMarks(xStep: real, yStep: real, rows: int, n: nat): seq<Mark> {
    seq(n, i => VerticalMark(xStep, yStep, rows, i))
  }

  /** Horizontal lines 0 .. n - 1. */
  function HorizontalMarks(xStep: real, yStep: real, n: nat): seq<Mark> {
    seq(n, i => HorizontalMark(xStep, yStep, i))
  }

  /** Weekday names 0 .. n - 1. */
  function LabelMarks(xStep: real, color: Color, n: nat): seq<Mark> {
    seq(n, i => LabelMark(xStep, color, i))
  }

  /** The number of each cell, as a function of the cell. */
  function DayMarkAt(xStep: real, yStep: real, number: int -> Label, grey: int -> bool, size: int): int -> Mark {
    d => DayMark(xStep, yStep, number(d), grey(d), size, d)
  }

  /** The numbers of cells 0 .. n - 1. */
  function DayMarks(xStep: real, yStep: real, number: int -> Label, grey: int -> bool, size: int, n: nat): seq<Mark> {
    seq(n, DayMarkAt(xStep, yStep, number, grey, size))
  }

  /** A list of marks given by a function of the index grows one mark at a time. */
  lemma MarksSnoc(f: int -> Mark, n: nat)
    requires n > 0
    ensures seq(n - 1, f) + [f(n - 1)] == seq(n, f)
  {
    assert forall i | 0 <= i < n :: (seq(n - 1, f) + [f(n - 1)])[i] == seq(n, f)[i];
  }

  // Each list of marks grows one mark at a time, as its list of calls does.

  lemma VerticalMarksSnoc(xStep: real, yStep: real, rows: int, n: nat)
    requires n > 0
    ensures VerticalMarks(xStep, yStep, rows, n - 1) + [VerticalMark(xStep, yStep, rows, n - 1)] == VerticalMarks(xStep, yStep, rows, n)
  {
    var a, b := VerticalMarks(xStep, yStep, rows, n - 1) + [VerticalMark(xStep, yStep, rows, n - 1)], VerticalMarks(xStep, yStep, rows, n);
    assert forall i | 0 <= i < n :: a[i] == b[i];
  }

  lemma HorizontalMarksSnoc(xStep: real, yStep: real, n: nat)
    requires n > 0
    ensures HorizontalMarks(xStep, yStep, n - 1) + [HorizontalMark(xStep, yStep, n - 1)] == HorizontalMarks(xStep, yStep, n)
  {
    var a, b := HorizontalMarks(xStep, yStep, n - 1) + [HorizontalMark(xStep, yStep, n - 1)], HorizontalMarks(xStep, yStep, n);
    assert forall i | 0 <= i < n :: a[i] == b[i];
  }

  lemma LabelMarksSnoc(xStep: real, color: Color, n: nat)
    requires n > 0
    ensures LabelMarks(xStep, color, n - 1) + [LabelMark(xStep, color, n - 1)] == LabelMarks(xStep, color, n)
  {
    var a, b := LabelMarks(xStep, color, n - 1) + [LabelMark(xStep, color, n - 1)], LabelMarks(xStep, color, n);
    assert forall i | 0 <= i < n :: a[i] == b[i];
  }

  // ---------------------------------------------------------------------
  // One piece at a time
  // ---------------------------------------------------------------------

  /** The vertical lines 0 .. n - 1 paint one segment each, line i at x = xStep * i. */
  lemma {:induction false} RenderVerticalLines(pen: Pen, xStep: real, yStep: real, rows: int, n: nat)
    requires Idle(pen)
    ensures Render(pen, VerticalLines(xStep, yStep, rows, n))
      == Output(pen, VerticalMarks(xStep, yStep, rows, n))
    decreases n
  {
    if n == 0 {
      assert VerticalMarks(xStep, yStep, rows, 0) == [];
    } else {
      var x := xStep * (n - 1) as real;
      RenderVerticalLines(pen, xStep, yStep, rows, n - 1);
      RenderStrokedLine(pen, Point(x, 0.0), Point(x, DayHeaderHeight + rows as real * yStep));
      RenderExtend(pen, VerticalLines(xStep, yStep, rows, n - 1), VerticalLine(xStep, yStep, rows, n - 1), pen, pen,
        VerticalMarks(xStep, yStep, rows, n - 1), VerticalMark(xStep, yStep, rows, n - 1));
      VerticalMarksSnoc(xStep, yStep, rows, n);
    }
  }

  /** The horizontal lines 0 .. n - 1 paint one segment each, line i at y = 20 + i * yStep. */
  lemma {:induction false} RenderHorizontalLines(pen: Pen, xStep: real, yStep: real, n: nat)
    requires Idle(pen)
    ensures Render(pen, HorizontalLines(xStep, yStep, n)) == Output(pen, HorizontalMarks(xStep, yStep, n))
    decreases n
  {
    if n == 0 {
      assert HorizontalMarks(xStep, yStep, 0) == [];
    } else {
      var y := DayHeaderHeight + (n - 1) as real * yStep;
      RenderHorizontalLines(pen, xStep, yStep, n - 1);
      RenderStrokedLine(pen, Point(0.0, y), Point(xStep * 7.0, y));
      RenderExtend(pen, HorizontalLines(xStep, yStep, n - 1), HorizontalLine(xStep, yStep, n - 1), pen, pen,
        HorizontalMarks(xStep, yStep, n - 1), HorizontalMark(xStep, yStep, n - 1));
      HorizontalMarksSnoc(xStep, yStep, n);
    }
  }

  /** One weekday name: the font size becomes 12 and the name is painted in it, in the current fill colour. */
  lemma RenderWeekdayLabel(pen: Pen, xStep: real, i: int)
    ensures Render(pen, WeekdayLabel(xStep, i)) == Output(pen.(size := LabelSize), [LabelMark(xStep, pen.fill, i)])
  {
    var f, t := FontSize(LabelSize), Text(WeekdayName(AddDays(LabelStart(), i)), xStep * i as real + Inset, Inset);
    WeekdayLabelCalls(xStep, i);
    assert [f, t][..1] == [f] && [f][..0] == [];
    assert Render(pen, [f]) == Output(pen.(size := LabelSize), []);
  }

  /** The weekday names 0 .. n - 1: name i at (xStep * i + 5, 5), in size 12, in the fill colour of the pen. */
  lemma {:induction false} RenderWeekdayLabels(pen: Pen, xStep: real, n: nat)
    ensures Render(pen, WeekdayLabels(xStep, n))
      == Output(if n == 0 then pen else pen.(size := LabelSize), LabelMarks(xStep, pen.fill, n))
    decreases n
  {
    if n == 0 {
      assert LabelMarks(xStep, pen.fill, 0) == [];
    } else {
      var mid := if n == 1 then pen else pen.(size := LabelSize);
      RenderWeekdayLabels(pen, xStep, n - 1);
      RenderWeekdayLabel(mid, xStep, n - 1);
      assert mid.fill == pen.fill && mid.(size := LabelSize) == pen.(size := LabelSize);
      RenderExtend(pen, WeekdayLabels(xStep, n - 1), WeekdayLabel(xStep, n - 1), mid, pen.(size := LabelSize),
        LabelMarks(xStep, pen.fill, n - 1), LabelMark(xStep, pen.fill, n - 1));
      LabelMarksSnoc(xStep, pen.fill, n);
    }
  }

  /** One cell, starting black: its number in grey or black, and the pen is black again afterwards. */
  lemma RenderDayCell(pen: Pen, xStep: real, yStep: real, number: Label, grey: bool, d: int)
    requires pen.fill == Black
    ensures Render(pen, DayCell(xStep, yStep, number, grey, d)) == Output(pen, [DayMark(xStep, yStep, number, grey, pen.size, d)])
  {
    var p := CellPoint(xStep, yStep, d);
    var t, b := Text(number, p.x, p.y), FillColor(Black);
    var glyph := Glyph(number, Point(p.x, p.y), pen.size, NumberColor(grey));
    if grey {
      var g := FillColor(Grey);
      assert DayCell(xStep, yStep, number, grey, d) == [g, t, b];
      assert [g, t, b][..2] == [g, t] && [g, t][..1] == [g] && [g][..0] == [];
      assert Render(pen, [g]) == Output(pen.(fill := Grey), []);
      assert Render(pen, [g, t]) == Output(pen.(fill := Grey), [glyph]);
    } else {
      assert DayCell(xStep, yStep, number, grey, d) == [t, b];
      assert [t, b][..1] == [t] && [t][..0] == [];
      assert Render(pen, [t]) == Output(pen, [glyph]);
    }
  }

  /** Cells 0 .. n - 1, starting black: number d at the cell point of d, in the pen's size, grey exactly when greyed. */
  lemma {:induction false} RenderDayCells(pen: Pen, xStep: real, yStep: real, number: int -> Label, grey: int -> bool, n: nat)
    requires pen.fill == Black
    ensures Render(pen, DayCells(xStep, yStep, number, grey, n)) == Output(pen, DayMarks(xStep, yStep, number, grey, pen.size, n))
    decreases n
  {
    if n == 0 {
      assert DayMarks(xStep, yStep, number, grey, pen.size, 0) == [];
    } else {
      var f := DayMarkAt(xStep, yStep, number, grey, pen.size);
      RenderDayCells(pen, xStep, yStep, number, grey, n - 1);
      RenderDayCell(pen, xStep, yStep, number(n - 1), grey(n - 1), n - 1);
      RenderExtend(pen, DayCells(xStep, yStep, number, grey, n - 1), DayCell(xStep, yStep, number(n - 1), grey(n - 1), n - 1),
        pen, pen, seq(n - 1, f), f(n - 1));
      MarksSnoc(f, n);
    }
  }

  // ---------------------------------------------------------------------
  // The whole page
  // ---------------------------------------------------------------------

  /** The top line of the grid. */
  function TopMark(xStep: real): Mark {
    Line(Point(0.0, 0.0), Point(xStep * 7.0, 0.0))
  }

  /** What a page of the grid paints, piece by piece: lines, weekday names in black, numbers in size 12. */
  function PageMarks(xStep: real, yStep: real, rows: int, number: int -> Label, grey: int -> bool): seq<Mark>
    requires rows >= 0
  {
    VerticalMarks(xStep, yStep, rows, 8) + [TopMark(xStep)] + HorizontalMarks(xStep, yStep, rows + 1)
      + LabelMarks(xStep, Black, 7) + DayMarks(xStep, yStep, number, grey, LabelSize, 7 * rows)
  }

  /** Rendering the four pieces of a page one after the other, from a black pen with no open path. */
  lemma RenderPage(pen: Pen, xStep: real, yStep: real, rows: int, number: int -> Label, grey: int -> bool)
    requires Idle(pen) && pen.fill == Black && rows >= 0
    ensures Render(pen, VerticalLines(xStep, yStep, rows, 8) + TopLine(xStep) + HorizontalLines(xStep, yStep, rows + 1)
        + WeekdayLabels(xStep, 7) + DayCells(xStep, yStep, number, grey, 7 * rows))
      == Output(pen.(size := LabelSize), PageMarks(xStep, yStep, rows, number, grey))
  {
    var v, t, h := VerticalLines(xStep, yStep, rows, 8), TopLine(xStep), HorizontalLines(xStep, yStep, rows + 1);
    var w, c := WeekdayLabels(xStep, 7), DayCells(xStep, yStep, number, grey, 7 * rows);
    var vm, hm := VerticalMarks(xStep, yStep, rows, 8), HorizontalMarks(xStep, yStep, rows + 1);
    var wm, cm := LabelMarks(xStep, Black, 7), DayMarks(xStep, yStep, number, grey, LabelSize, 7 * rows);
    var labelled := pen.(size := LabelSize);
    RenderVerticalLines(pen, xStep, yStep, rows, 8);
    RenderStrokedLine(pen, Point(0.0, 0.0), Point(xStep * 7.0, 0.0));
    RenderAppend(pen, v, t);
    assert Render(pen, v + t) == Output(pen, vm + [TopMark(xStep)]);
    RenderHorizontalLines(pen, xStep, yStep, rows + 1);
    RenderAppend(pen, v + t, h);
    assert Render(pen, v + t + h) == Output(pen, vm + [TopMark(xStep)] + hm);
    RenderWeekdayLabels(pen, xStep, 7);
    RenderAppend(pen, v + t + h, w);
    assert Render(pen, v + t + h + w) == Output(labelled, vm + [TopMark(xStep)] + hm + wm);
    RenderDayCells(labelled, xStep, yStep, number, grey, 7 * rows);
    RenderAppend(pen, v + t + h + w, c);
  }

  /**
   * The page of `drawCalendar`, drawn from a black pen with no open path: 8
   * vertical lines, the top line, rows + 1 horizontal lines, the 7 weekday
   * names in black and the 7 * rows day numbers, all in size 12, and the pen
   * is black again at the end.
   */
  lemma CalendarRendering(pen: Pen, xMax: real, yMax: real, month: DayNumber)
    requires Idle(pen) && pen.fill == Black
    ensures var rows, start := Rows(month), FirstWeekStart(month);
      Render(pen, CalendarCommands(xMax, yMax, month))
        == Output(pen.(size := LabelSize),
          PageMarks(XStep(xMax), YStep(yMax, rows), rows, CellNumber(start), CellGrey(month, start)))
  {
    var rows, start := Rows(month), FirstWeekStart(month);
    RenderPage(pen, XStep(xMax), YStep(yMax, rows), rows, CellNumber(start), CellGrey(month, start));
  }

  /** Mark d of a list of numbers, spelled out. */
  lemma DayMarkParts(xStep: real, yStep: real, number: int -> Label, grey: int -> bool, size: int, d: int)
    ensures DayMarkAt(xStep, yStep, number, grey, size)(d) == Glyph(number(d), CellPoint(xStep, yStep, d), size, NumberColor(grey(d)))
  {
  }

  /** Cell d of the page of `month` shows the day of the month of its day. */
  lemma CellNumberOfCell(month: DayNumber, d: int)
    ensures CellNumber(FirstWeekStart(month))(d) == DayOfMonth(Date(CellDay(month, d)))
  {
    CellDayIsAddDays(month, d);
  }

  /** Cell d of the page of `month` is greyed when its day is in another month. */
  lemma CellGreyOfCell(month: DayNumber, d: int)
    ensures CellGrey(month, FirstWeekStart(month))(d) == OtherMonth(month, CellDay(month, d))
  {
    CellDayIsAddDays(month, d);
  }

  /** Number d of the page: the day of the month of cell d, at its cell point, in size 12, grey exactly when out of month. */
  lemma DayMarkOfCell(xStep: real, yStep: real, month: DayNumber, d: int)
    ensures var start := FirstWeekStart(month);
      DayMarkAt(xStep, yStep, CellNumber(start), CellGrey(month, start), LabelSize)(d)
        == Glyph(DayOfMonth(Date(CellDay(month, d))), CellPoint(xStep, yStep, d), LabelSize,
          NumberColor(OtherMonth(month, CellDay(month, d))))
  {
    var start := FirstWeekStart(month);
    DayMarkParts(xStep, yStep, CellNumber(start), CellGrey(month, start), LabelSize, d);
    CellNumberOfCell(month, d);
    CellGreyOfCell(month, d);
  }

  /** A number that is black inside the month and grey outside it. */
  lemma NumberInOrOut(mark: Mark, p: Point, date: int, other: bool, inside: bool, expected: int)
    requires mark == Glyph(DayOfMonth(date), p, LabelSize, NumberColor(other))
    requires other <==> !inside
    requires inside ==> date == expected
    ensures if inside then mark == Glyph(DayOfMonth(expected), p, LabelSize, Black)
      else mark == Glyph(DayOfMonth(date), p, LabelSize, Grey)
  {
  }

  /**
   * When `month` is the first of its month, cell d shows d - offset + 1 in
   * black inside the month, and the number of its own day in grey outside it.
   */
  lemma FirstOfMonthPage(xStep: real, yStep: real, month: DayNumber, d: int)
    requires Date(month) == 1 && 0 <= d < 7 * Rows(month)
    ensures var start, p := FirstWeekStart(month), CellPoint(xStep, yStep, d);
      var mark := DayMarkAt(xStep, yStep, CellNumber(start), CellGrey(month, start), LabelSize)(d);
      if Offset(month) <= d < Offset(month) + Length(month)
      then mark == Glyph(DayOfMonth(d - Offset(month) + 1), p, LabelSize, Black)
      else mark == Glyph(DayOfMonth(Date(CellDay(month, d))), p, LabelSize, Grey)
  {
    var start := FirstWeekStart(month);
    var inside := Offset(month) <= d < Offset(month) + Length(month);
    DayMarkOfCell(xStep, yStep, month, d);
    GreyExactlyOutsideMonth(month, d);
    if inside {
      CellInMonth(month, d);
    }
    NumberInOrOut(DayMarkAt(xStep, yStep, CellNumber(start), CellGrey(month, start), LabelSize)(d), CellPoint(xStep, yStep, d),
      Date(CellDay(month, d)), OtherMonth(month, CellDay(month, d)), inside, d - Offset(month) + 1);
  }
}
