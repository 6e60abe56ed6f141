# simple-calendar: the month grid and the month list, in Dafny

simple-calendar is a single-page React app. It turns a range of months into a
printable PDF calendar with one page per month. Its core is `src/App.js`:

- the two `Date.prototype` helpers `addDays` and `addMonths`;
- `drawCalendar(painter, xMax, yMax, month)`, which draws one month's grid on a
  canvas painter;
- `getMonthList(start, end)`, which lists the months from the start month to
  the end month.

This project models that core and proves what it does.

- **Dates** (`civil.dfy`, module `CivilDate`) are ECMA-262 day numbers: days
  since 1970-01-01. `getFullYear`, `getMonth`, `getDate`, `getDay`, `setDate`,
  `setMonth` and `new Date(y, m, d)` follow section 21.4.1 and section 21.4.2.1
  of ECMA-262.
  - Month overflow carries into the year.
  - Date 0 is the last day of the month before.
  - Two-digit years read as 19xx.
  - `addDays` and `addMonths` are built from these exactly as the source builds them.
- **The painter** (`painter.dfy`, module `Painting`) is a class. It logs every
  call it receives (`moveTo`, `lineTo`, `stroke`, `fontSize`, `text`,
  `fillColor`) and keeps its fill colour. `Render` reads a log as the painter's
  drawing model does, so properties can be stated as what ends up painted,
  where, and in which colour and size.
- **`drawCalendar`** (`calendar.dfy`, module `CalendarGrid`) is a method with
  the source's four loops, plus the `while` loop that walks back to a Sunday.
  It is proved to log exactly `CalendarCommands`, the pure description of the
  page's calls.
- **The grid** (`grid.dfy`, module `GridFacts`) holds what is proved about that
  description for the first of a month, which is what the month list feeds in:
  - the row count;
  - where the grid starts;
  - which cells hold the days of the month;
  - which cells are grey;
  - the weekday names above the columns;
  - worked examples (February 2024, September 2024, February 2015, August 2020).
- **The page** (`render.dfy`, module `CalendarPage`) holds what the page
  paints: the 8 vertical lines, the top line, the rows + 1 horizontal lines,
  the 7 weekday names in black, and the 7 × rows day numbers in size 12. The
  numbers are black inside the month and grey outside it, and the pen is black
  again after every cell.
- **`getMonthList`** (`months.dfy`, module `MonthList`) is a method with the
  source's `while` loop. It is proved to return a list that:
  - is empty exactly when start is after end;
  - starts at `start`;
  - steps by `addMonths(1)`;
  - stays at or before `end`, with the next step after it;
  - strictly ascends.

  For a start on the first of a month, the list holds the firsts of the months
  from the start month to the month of `end`, one each. December rolls over to
  January.

The weekday names in the source are counted from `new Date(Date.UTC(2017, 0, 2))`.
That instant is Monday 2 January 2017 in local time at or east of UTC, and
Sunday 1 January west of it. The grid's columns start on Sunday: the first
week is walked back to a Sunday (src/App.js:56-58), and column i holds the
days of weekday i. Name i belongs over column i only when the names are also
counted from a Sunday, so the model counts them from local Sunday 1 January
2017 (`CalendarGrid.LabelStart`). The as-written reference is modelled beside it
(`CalendarGrid.LabelReference`), and what it shows east of UTC is proved under
"Findings".

## Model

| member | source | states |
|---|---|---|
| CivilDate.AddDays | src/App.js:7-11 | a copy moved with `setDate(getDate() + days)` is exactly `days` days later, whatever month or year it crosses |
| CivilDate.SetDateMoves | src/App.js:9 | `SetDate(t, d)`, the model of `setDate(d)`, lands `d - getDate()` days from the date, so dates past the month's end or below 1 carry over |
| CivilDate.AddOneDay | src/App.js:7-11 | `addDays(1)` gives date + 1 within a month, the first of the next month after its last day, 1 January after 31 December, and the next weekday |
| CivilDate.NextDayAfterMonth | src/App.js:7-11 | one day after a month's last day is date 1 of the next month index, in the next year after December |
| CivilDate.AddOneMonthAdvances | src/App.js:12-16 | `addMonths(1)` moves a date on by the length of its own month, at least 28 days; a date past the next month's length overflows into the month after next |
| CivilDate.AddMonthsShape | src/App.js:12-16 | `AddMonths(t, n)`, the model of `addMonths(n)`, is the same date counted from the first of the month with index `MonthIndex(t) + n`, so a date past that month's length overflows into the month after it |
| CivilDate.SetMonthFields | src/App.js:14 | `SetMonth(t, m)`, the model of `setMonth(m)`, to a month that has the date keeps the year and the date and sets the month to m |
| CivilDate.NewDateFields | src/App.js:24 | `NewDate(y, m, d)`, the model of `new Date(y, m, d)`, with a valid month and date reads back as year y (1900 + y for 0..99), month m and date d |
| CivilDate.AddOneMonthToFirst | src/App.js:12-16 | `addMonths(1)` of a first of month is the first of the following month index |
| CivilDate.AddOneMonthRolls | src/App.js:12-16 | from a first of month, `addMonths(1)` is date 1 of the next month, the same year's next month before December and January of the next year after it |
| CivilDate.MakeDayNormalises | src/App.js:14 | `setMonth` with an out-of-range month carries `month / 12` into the year and keeps `month % 12`, as section 21.4.1.12 of ECMA-262 says |
| CivilDate.MakeDayOfFields | src/App.js:8 | rebuilding a date from its year, month and date gives the same day (the copy `new Date(this)`) |
| CivilDate.FieldsOfMakeDay | src/App.js:8 | a valid year, month and date are read back unchanged |
| CivilDate.DaysInYear | src/App.js:24 | ECMA-262's rule-by-rule year length is 366 exactly in Gregorian leap years, 365 otherwise |
| CivilDate.DayFromYearNext | src/App.js:24 | January 1 of consecutive years lies one year length apart |
| CivilDate.Year | src/App.js:24 | `getFullYear()` is the year whose span of days holds the date |
| CivilDate.YearUnique | src/App.js:24 | only one year holds a given day |
| CivilDate.Month | src/App.js:62 | `getMonth()` is 0 to 11, the month whose part of the year holds the date |
| CivilDate.MonthUnique | src/App.js:62 | only one month holds a given day of the year |
| CivilDate.Date | src/App.js:25 | `getDate()` is 1 to the length of the date's month |
| CivilDate.MonthTable | src/App.js:24 | month lengths are 28 to 31, add up to the year, and February has 29 days exactly in leap years |
| CivilDate.WeekDay | src/App.js:25 | `getDay()` is 0 (Sunday) to 6 |
| CivilDate.WeekDayNext | src/App.js:56-58 | the weekday of the next day is one more modulo 7, and a week later it is the same |
| CivilDate.WeekDayBack | src/App.js:56-58 | stepping back k days from weekday w, with k at most w, gives weekday w - k |
| CivilDate.FirstOfMonthNext | src/App.js:24 | months lie end to end: the first of the next month is the first of this one plus its length |
| CivilDate.InSpan | src/App.js:24 | a day within a month's span has that month's year and month, and its date counts from the month's first |
| CivilDate.LastDayTrick | src/App.js:24 | `new Date(y, m + 1, 0)` is the last day of month m: its year, its month, and a date equal to the month's length, with years 0..99 read as 1900..1999 |
| CivilDate.LastDayOfMonth | src/App.js:24 | day 0 of month m + 1 is the last day of month m, also across a year end |
| CivilDate.LastDayLength | src/App.js:24 | the trick's date is 28 to 31 |
| CivilDate.TwoDigitYearMonthLength | src/App.js:24 | reading years 0..99 as 1900..1999 changes a month's length only in February of year 0 |
| CivilDate.LastDayOfYearMonth | src/App.js:24 | the trick's date is the month's length, except 28 for February of year 0 |
| Painting.Painter.constructor | src/App.js:18 | a fresh painter has an empty log and a black fill |
| Painting.Painter.MoveTo | src/App.js:32 | `moveTo` logs one call and leaves the fill colour alone |
| Painting.Painter.LineTo | src/App.js:33 | `lineTo` logs one call and leaves the fill colour alone |
| Painting.Painter.Stroke | src/App.js:34 | `stroke` logs one call and leaves the fill colour alone |
| Painting.Painter.FontSize | src/App.js:52 | `fontSize` logs one call and leaves the fill colour alone |
| Painting.Painter.Text | src/App.js:65 | `text` logs one call and leaves the fill colour alone |
| Painting.Painter.FillColor | src/App.js:63 | `fillColor` logs one call and sets the fill colour |
| Painting.RenderAppend | src/App.js:18-68 | `Render`, the model of what the canvas paints for a sequence of calls, paints two call sequences one after the other as it paints their concatenation |
| Painting.RenderStrokedLine | src/App.js:31-34 | with no path open, `moveTo(a).lineTo(b).stroke()` paints exactly the segment from a to b and leaves no path open |
| CalendarGrid.TotalDaysRange | src/App.js:25 | `month.getDay() + lastDay.getDate()` is 28 to 37 |
| CalendarGrid.Rows | src/App.js:26 | `Math.ceil(totalDays / 7)` is the fewest rows of 7 that hold totalDays, and it is 4 to 6 |
| CalendarGrid.GridFills | src/App.js:19-27 | 7 columns of xStep span xMax, and the header band plus the rows of yStep span yMax |
| CalendarGrid.StartOfFirstWeek | src/App.js:55-58 | the walk back ends on a Sunday, going back exactly `month.getDay()` days (at most 6), and stays on `month` exactly when it is a Sunday |
| CalendarGrid.PaintVerticalLines | src/App.js:30-35 | the loop logs lines 0..7, each from (xStep·i, 0) to (xStep·i, 20 + rows·yStep), and leaves the fill colour alone |
| CalendarGrid.PaintHorizontalLines | src/App.js:37-48 | the top line from (0, 0) to (7·xStep, 0), then lines 0..rows at y = 20 + i·yStep across the grid |
| CalendarGrid.PaintWeekdayNames | src/App.js:50-53 | font size 12 and weekday name i at (xStep·i + 5, 5), for i = 0..6, counted from `LabelStart` |
| CalendarGrid.PaintDate | src/App.js:61-66 | cell d logs grey only when its day is in another month, then its date at column d % 7 and row d / 7, then black; the fill is black afterwards |
| CalendarGrid.PaintDates | src/App.js:60-67 | the loop logs cells 0 .. 7·rows - 1 in order and ends with a black fill |
| CalendarGrid.DrawCalendar | src/App.js:18-68 | `drawCalendar` logs exactly `CalendarCommands`: the vertical lines, the top line, the horizontal lines, the weekday names and the day cells, with rows, xStep and yStep computed as in the source |
| CalendarGrid.RowsOfLastDay | src/App.js:24-26 | the row count computed from `lastDay` and `totalDays` step by step is `Rows(month)`, and it is positive |
| GridFacts.LastDayOfFirst | src/App.js:24 | the date of `lastDay` is the month's length, except 28 for February of year 0 |
| CalendarGrid.LastDayInMonth | src/App.js:24 | `LastDay(month)`, the model of `lastDay`, is in the month of `month`, on the date that is that month's length (of year 1900 + y for the two-digit years y) |
| GridFacts.RowsOfFirst | src/App.js:25-26 | for the first of a month, the rows are the fewest that hold the weekday offset plus the month's length, 4 to 6, February of year 0 included |
| GridFacts.GridStart | src/App.js:55-58 | the grid starts on a Sunday, 0 to 6 days before `month`, and on `month` itself exactly when it is a Sunday |
| GridFacts.CellDayIsAddDays | src/App.js:61 | cell d shows the day `startDate.addDays(d)` |
| GridFacts.CellColumn | src/App.js:65 | cell d, in column d % 7, holds a day of weekday d % 7 |
| GridFacts.CellInMonth | src/App.js:60-65 | cells offset .. offset + length - 1 hold the days of the month, numbered 1 .. length, and are not grey |
| GridFacts.CellBeforeMonth | src/App.js:61-63 | the cells before the offset hold days of the previous month and are grey |
| GridFacts.CellAfterMonth | src/App.js:61-63 | the cells after the month hold days of the next month and are grey |
| GridFacts.GreyExactlyOutsideMonth | src/App.js:62-64 | the source compares `getMonth()` without the year, yet on the grid a cell is grey exactly when it is outside the month, that is, when its month index differs |
| GridFacts.EveryDateShown | src/App.js:60-67 | every date 1 .. length of the month has a cell on the grid that shows it and is not grey |
| GridFacts.LastCellCoversMonth | src/App.js:60 | the last cell is on or after the month's last day and less than a week after it |
| GridFacts.January2017 | src/App.js:51 | the two local days the instant `Date.UTC(2017, 0, 2)` can fall on are 1 and 2 January 2017 |
| GridFacts.LabelStartDate | src/App.js:51 | the model's reference is local 1 January 2017, a Sunday |
| GridFacts.LabelReferenceWeekday | src/App.js:51 | `LabelReference`, the model of the source's reference `new Date(Date.UTC(2017, 0, 2))`, is a Sunday west of UTC, a Monday elsewhere, and it is the model's reference exactly west of UTC |
| GridFacts.HeaderShiftedEastOfUtc | src/App.js:50-53 | as written, at or east of UTC, the name above each column is that of the next weekday: never the column's own |
| GridFacts.HeaderMatchesColumn | src/App.js:50-53 | counted from the model's reference, name i is the weekday of every cell in column i |
| GridFacts.February2024Rows | src/App.js:24-26 | February 2024 starts on a Thursday (offset 4), has 29 days and takes 5 rows |
| GridFacts.February2024Cells | src/App.js:60-65 | in February 2024, cell 3 is grey, cell 4 shows the 1st in black, and cell 33 is grey |
| GridFacts.September2024 | src/App.js:55-58 | September 2024 starts on a Sunday, so the grid starts on the 1st itself, with 5 rows |
| GridFacts.February2015 | src/App.js:26 | February 2015 takes 4 rows, the fewest |
| GridFacts.August2020 | src/App.js:26 | August 2020 takes 6 rows, the most |
| CalendarPage.RenderVerticalLines | src/App.js:30-35 | the vertical lines paint one segment each, line i at x = xStep·i, and leave no path open |
| CalendarPage.RenderHorizontalLines | src/App.js:42-48 | the horizontal lines paint one segment each, line i at y = 20 + i·yStep |
| CalendarPage.RenderWeekdayLabels | src/App.js:50-53 | the weekday names are painted at (xStep·i + 5, 5), in size 12, in the pen's fill colour |
| CalendarPage.RenderDayCell | src/App.js:62-66 | from a black pen, a cell paints its number at its cell point, grey when greyed and black otherwise, and the pen is black again afterwards |
| CalendarPage.RenderDayCells | src/App.js:60-67 | the cells paint their numbers one each, in order, each in its own colour, starting and ending with a black pen |
| CalendarPage.RenderPage | src/App.js:29-67 | the page's calls paint the 8 vertical lines, the top line, the rows + 1 horizontal lines, 7 black weekday names and 7·rows numbers in size 12, in this order |
| CalendarPage.CalendarRendering | src/App.js:18-68 | from a black pen with no open path, `CalendarCommands`, which is what `drawCalendar` logs, paints exactly the page's marks and leaves the pen black in size 12 |
| CalendarPage.DayMarkOfCell | src/App.js:61-65 | number d on the page is the date of cell d's day, at its cell point, grey exactly when that day is in another month |
| CalendarPage.FirstOfMonthPage | src/App.js:60-67 | for the first of a month, cell d shows d - offset + 1 in black inside the month, and the date of its own day in grey outside it |
| MonthList.GetMonthList | src/App.js:77-85 | the loop returns a list that is empty exactly when start is after end, starts at start, steps by `addMonths(1)`, stays at or before end with the next step after it, and strictly ascends |
| MonthList.LoopDone | src/App.js:80-84 | what the loop has built when `curMonth <= end` fails is such a month list |
| MonthList.MonthStepsForward | src/App.js:82 | each pass moves `curMonth` at least 28 days on, so the loop ends |
| MonthList.NextFirst | src/App.js:82 | one month on from the first of month k is the first of month k + 1 |
| MonthList.MonthOfEnd | src/App.js:80 | a day on or after the first of month k and before its `addMonths(1)` is in month k |
| MonthList.MonthListFromFirst | src/App.js:77-85 | from the first of month k, the list holds the firsts of months k .. month of end, one each; none when end is before it |
| MonthList.MonthListOfFirsts | src/App.js:77-85 | from a first of month, as the form gives it, the list has `MonthIndex(end) - MonthIndex(start) + 1` items, the firsts of successive months with December followed by January; empty when start is after end |

## Left out

- The React component `App`, the form reducer, the two `DatePicker`s and the
  PDF `Document`/`Page`/`Canvas`/`Text` elements (src/App.js:87-152). They are UI
  wiring, not logic.
- `getFirstOfMonth` (src/App.js:70-75) reads the clock. The model takes the
  month it would produce as a parameter instead.
- The month title's text (`toLocaleDateString` with `month: 'long'`) and the
  text of the weekday names. A name is modelled by the day it names (`Label`),
  and a day number by its value before `toString()`. Locale data is outside
  the program.
- Time of day, time zones and daylight saving time. A date is a local day
  number at midnight. The only time-zone effect modelled is on which local day
  `Date.UTC(2017, 0, 2)` falls (`LabelReference`).
- `MonthList.GetMonthList`: compares day numbers, not millisecond time values.
  This agrees with the source for dates at the same time of day, as the firsts
  of months from the form are.
- The 275760-year range limit of ECMA-262 time values (TimeClip). Day numbers
  are unbounded.
- Floating-point rounding. `xStep`, `yStep` and the coordinates are exact
  reals, and `Math.ceil(totalDays / 7)` is exact integer ceiling. For the
  integers 28..37 that is also what the floating-point code computes.
- The PDF backend's drawing beyond the painter's model (line widths,
  anti-aliasing, fonts). `Render` models only the path, fill colour and font
  size state that the source's calls use.
- `CalendarPage.CalendarRendering`: assumes a black pen with no open path at
  the start, as a fresh canvas has. From another pen state the first weekday
  names would take its colour.
- `CalendarGrid.PaintWeekdayNames`: logs the corrected names, counted from
  local Sunday 1 January 2017 (`LabelStart`), not from the local day of
  `Date.UTC(2017, 0, 2)` as src/App.js:51 does. The two agree west of UTC. East
  of it, what the source writes is stated only by `GridFacts.LabelReferenceWeekday`
  and `GridFacts.HeaderShiftedEastOfUtc` (see "Findings").
- `CalendarGrid.DrawCalendar`: logs the weekday names of
  `CalendarGrid.PaintWeekdayNames`, so at or east of UTC its names are the
  corrected ones, not the source's, as the line above says.
- Aliasing of `Date` objects. `addDays`, `addMonths` and `push(new Date(curMonth))`
  copy before they change anything, so values model them exactly. The
  in-place `setDate` of `startDate` is a local variable update in
  `CalendarGrid.StartOfFirstWeek`.

## Findings

| source | as written | input that shows it | evidently intended | confidence | as-written member | corrected member |
|---|---|---|---|---|---|---|
| src/App.js:50-53 | the weekday names are counted from the local day of the instant `Date.UTC(2017, 0, 2)`, which is Monday at or east of UTC, while the grid's columns start on Sunday | any month, with the environment's time zone at UTC or east of it (e.g. UTC+1): column 0 (Sundays) is headed by Monday's name and column 6 (Saturdays) by Sunday's | name i heads the column of weekday i, counted from a Sunday, as it is west of UTC | not executed | GridFacts.HeaderShiftedEastOfUtc | GridFacts.HeaderMatchesColumn |
