/**
 * The chained painter that the PDF canvas hands to `drawCalendar`
 * (`moveTo`, `lineTo`, `stroke`, `fontSize`, `text`, `fillColor`).
 *
 * The painter is an object that records every call in order, in a command
 * log, and keeps its current fill colour. `Render` reads a log the way the
 * painter's drawing model does (a path is built by moveTo/lineTo and painted
 * by stroke; fill colour and font size are state that later text uses), so
 * that properties of the page can be stated as what ends up painted where.
 */
module Painting {

  /** A fill colour, as the CSS colour string passed to `fillColor`. */
  type Color = string

  /** The grey of out-of-month day numbers. */
  const Grey: Color := "#DCDCDC"

  /** The default fill colour. */
  const Black: Color := "black"

  /** The text of a `text` call. Its characters are not modelled, only what it names. */
  datatype Label =
    | WeekdayName(day: int)  // the locale's long weekday name of this day number
    | DayOfMonth(date: int)  // `date.getDate().toString()`

  /** One painter call. */
  datatype Command =
    | MoveTo(x: real, y: real)
    | LineTo(x: real, y: real)
    | Stroke
    | FontSize(size: int)
    | Text(content: Label, x: real, y: real)
    | FillColor(color: Color)

  /** The painter: its call log and its current fill colour (black until set). */
  class Painter {
    var log: seq<Command>
    var fill: Color

    constructor ()
      ensures log == [] && fill == Black
    {
      log := [];
      fill := Black;
    }

    method MoveTo(x: real, y: real)
      modifies this
      ensures log == old(log) + [Command.MoveTo(x, y)] && fill == old(fill)
    {
      log := log + [Command.MoveTo(x, y)];
    }

    method LineTo(x: real, y: real)
      modifies this
      ensures log == old(log) + [Command.LineTo(x, y)] && fill == old(fill)
    {
      log := log + [Command.LineTo(x, y)];
    }

    method Stroke()
      modifies this
      ensures log == old(log) + [Command.Stroke] && fill == old(fill)
    {
      log := log + [Command.Stroke];
    }

    method FontSize(size: int)
      modifies this
      ensures log == old(log) + [Command.FontSize(size)] && fill == old(fill)
    {
      log := log + [Command.FontSize(size)];
    }

    method Text(content: Label, x: real, y: real)
      modifies this
      ensures log == old(log) + [Command.Text(content, x, y)] && fill == old(fill)
    {
      log := log + [Command.Text(content, x, y)];
    }

    method FillColor(color: Color)
      modifies this
      ensures log == old(log) + [Command.FillColor(color)] && fill == color
    {
      log := log + [Command.FillColor(color)];
      fill := color;
    }
  }

  // ---------------------------------------------------------------------
  // What a command log paints
  // ---------------------------------------------------------------------

  datatype Point = Point(x: real, y: real)

  /** Something visible on the page: a stroked segment, or a text in a size and colour. */
  datatype Mark =
    | Line(from: Point, to: Point)
    | Glyph(content: Label, at: Point, size: int, color: Color)

  /** Where the path currently ends, if a path is open. */
  datatype Position = Nowhere | At(p: Point)

  /** The painter's drawing state: fill colour, font size, open path. */
  datatype Pen = Pen(fill: Color, size: int, current: Position, path: seq<Mark>)

  /** A pen state together with the marks painted so far. */
  datatype Output = Output(pen: Pen, marks: seq<Mark>)

  /** The effect of one call. */
  function Step(pen: Pen, c: Command): Output {
    match c
    case MoveTo(x, y) => Output(pen.(current := At(Point(x, y))), [])
    case LineTo(x, y) =>
      var path := if pen.current.At? then pen.path + [Line(pen.current.p, Point(x, y))] else pen.path;
      Output(pen.(current := At(Point(x, y)), path := path), [])
    case Stroke => Output(pen.(current := Nowhere, path := []), pen.path)
    case FontSize(s) => Output(pen.(size := s), [])
    case Text(content, x, y) => Output(pen, [Glyph(content, Point(x, y), pen.size, pen.fill)])
    case FillColor(color) => Output(pen.(fill := color), [])
  }

  /** The effect of a whole log, call after call. */
  function Render(pen: Pen, cmds: seq<Command>): Output
    decreases |cmds|
  {
    if cmds == [] then Output(pen, [])
    else
      var before := Render(pen, cmds[..|cmds| - 1]);
      var last := Step(before.pen, cmds[|cmds| - 1]);
      Output(last.pen, before.marks + last.marks)
  }

  /** Rendering two logs one after the other is rendering their concatenation. */
  lemma {:induction false} RenderAppend(pen: Pen, a: seq<Command>, b: seq<Command>)
    ensures Render(pen, a + b).pen == Render(Render(pen, a).pen, b).pen
    ensures Render(pen, a + b).marks == Render(pen, a).marks + Render(Render(pen, a).pen, b).marks
    decreases |b|
  {
    if b == [] {
      assert a + b == a;
    } else {
      var b' := b[..|b| - 1];
      assert (a + b)[..|a + b| - 1] == a + b';
      assert (a + b)[|a + b| - 1] == b[|b| - 1];
      RenderAppend(pen, a, b');
    }
  }

  /** A log that paints `marks`, followed by a piece that paints one more mark. */
  lemma RenderExtend(pen: Pen, before: seq<Command>, piece: seq<Command>, p: Pen, q: Pen, marks: seq<Mark>, mark: Mark)
    requires Render(pen, before) == Output(p, marks)
    requires Render(p, piece) == Output(q, [mark])
    ensures Render(pen, before + piece) == Output(q, marks + [mark])
  {
    RenderAppend(pen, before, piece);
  }

  /** Three calls logged one after another. */
  lemma LogThree(log: seq<Command>, a: Command, b: Command, c: Command)
    ensures log + [a] + [b] + [c] == log + [a, b, c]
  {
  }

  /** Two calls logged one after another. */
  lemma LogTwo(log: seq<Command>, a: Command, b: Command)
    ensures log + [a] + [b] == log + [a, b]
  {
  }

  /** Appending a piece to a log that already holds the earlier pieces. */
  lemma LogAppend(log: seq<Command>, pieces: seq<Command>, piece: seq<Command>)
    ensures log + (pieces + piece) == log + pieces + piece
  {
  }

  /** The calls of `moveTo(a).lineTo(b).stroke()`. */
  function StrokedLine(a: Point, b: Point): seq<Command> {
    [MoveTo(a.x, a.y), LineTo(b.x, b.y), Stroke]
  }

  /** With no path open, `moveTo(a).lineTo(b).stroke()` paints exactly the segment from a to b. */
  lemma RenderStrokedLine(pen: Pen, a: Point, b: Point)
    requires pen.current == Nowhere && pen.path == []
    ensures Render(pen, StrokedLine(a, b)) == Output(pen, [Line(a, b)])
  {
    var m, l := MoveTo(a.x, a.y), LineTo(b.x, b.y);
    var p1 := pen.(current := At(a));
    var p2 := p1.(current := At(b), path := [Line(a, b)]);
    assert [m, l, Stroke][..2] == [m, l] && [m, l][..1] == [m] && [m][..0] == [];
    assert Render(pen, [m]) == Output(p1, []);
    assert Render(pen, [m, l]) == Output(p2, []);
    assert Render(pen, [m, l, Stroke]) == Output(pen, [Line(a, b)]);
  }
}
