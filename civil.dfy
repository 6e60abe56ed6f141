/**
 * Civil-date arithmetic of ECMA-262 Date objects (section 21.4.1 of ECMA-262),
 * on which `Date.prototype.addDays`, `Date.prototype.addMonths`, the
 * "day 0 of the next month" trick and `getDay()` rest.
 *
 * A date is its day number: the number of days since 1970-01-01, which is
 * `Day(t)` of ECMA-262. The time of day is always midnight here and is not
 * modelled. The calendar is the proleptic Gregorian one.
 */
module CivilDate {

  /** A date, as its number of days since 1970-01-01 (a Thursday). */
  type DayNumber = int

  // ---------------------------------------------------------------------
  // Years (ECMA-262 21.4.1.3)
  // ---------------------------------------------------------------------

  /** Gregorian leap-year rule. */
  predicate IsLeapYear(y: int) {
    y % 4 == 0 && (y % 100 != 0 || y % 400 == 0)
  }

  /** DaysInYear(y), written as ECMA-262 states it, rule by rule. */
  function DaysInYear(y: int): (n: int)
    ensures n == (if IsLeapYear(y) then 366 else 365)
  {
    if y % 4 != 0 then 365
    else if y % 100 != 0 then 366
    else if y % 400 != 0 then 365
    else 366
  }

  /** DayFromYear(y): the day number of January 1 of year y. */
  function DayFromYear(y: int): DayNumber {
    365 * (y - 1970) + (y - 1969) / 4 - (y - 1901) / 100 + (y - 1601) / 400
  }

  /** Consecutive years are DaysInYear apart. */
  lemma DayFromYearNext(y: int)
    ensures DayFromYear(y + 1) == DayFromYear(y) + DaysInYear(y)
  {
    FourYearStep(y);
    CenturyStep(y);
    FourCenturyStep(y);
    LeapDivisibility(y);
  }

  /** The leap days counted by DayFromYear: one more every fourth year, ... */
  lemma FourYearStep(y: int)
    ensures (y + 1 - 1969) / 4 == (y - 1969) / 4 + (if y % 4 == 0 then 1 else 0)
  {
    var r := (y - 1969) % 4;
    assert y - 1969 == 4 * ((y - 1969) / 4) + r;
  }

  /** ... one fewer every hundredth year, ... */
  lemma CenturyStep(y: int)
    ensures (y + 1 - 1901) / 100 == (y - 1901) / 100 + (if y % 100 == 0 then 1 else 0)
  {
    var r := (y - 1901) % 100;
    assert y - 1901 == 100 * ((y - 1901) / 100) + r;
  }

  /** ... and one more every four hundredth year. */
  lemma FourCenturyStep(y: int)
    ensures (y + 1 - 1601) / 400 == (y - 1601) / 400 + (if y % 400 == 0 then 1 else 0)
  {
    var r := (y - 1601) % 400;
    assert y - 1601 == 400 * ((y - 1601) / 400) + r;
  }

  /** A multiple of 400 is one of 100, and a multiple of 100 one of 4. */
  lemma LeapDivisibility(y: int)
    ensures y % 400 == 0 ==> y % 100 == 0
    ensures y % 100 == 0 ==> y % 4 == 0
  {
    if y % 400 == 0 {
      var q, p := y / 400, y / 100;
      assert y == 400 * q && y == 100 * p + y % 100;
      assert y % 100 == 100 * (4 * q - p);
    }
    if y % 100 == 0 {
      var q, p := y / 100, y / 4;
      assert y == 100 * q && y == 4 * p + y % 4;
      assert y % 4 == 4 * (25 * q - p);
    }
  }

  /** DayFromYear stays within two days of the mean Gregorian year of 146097/400 days. */
  lemma DayFromYearEstimate(y: int)
    ensures -506 <= 400 * DayFromYear(y) - 146097 * (y - 1970) <= 589
  {
    var r1, r2, r3 := (y - 1969) % 4, (y - 1901) % 100, (y - 1601) % 400;
    assert 4 * ((y - 1969) / 4) == y - 1969 - r1;
    assert 100 * ((y - 1901) / 100) == y - 1901 - r2;
    assert 400 * ((y - 1601) / 400) == y - 1601 - r3;
  }

  /** DayFromYear is strictly increasing. */
  lemma DayFromYearMonotone(a: int, b: int)
    requires a < b
    ensures DayFromYear(a + 1) <= DayFromYear(b)
  {
    if b > a + 1 {
      DayFromYearEstimate(a + 1);
      DayFromYearEstimate(b);
    }
  }

  /** Some year holds every day: the estimate from the mean year is off by at most one. */
  lemma YearExists(t: DayNumber)
    ensures exists y :: DayFromYear(y) <= t < DayFromYear(y + 1)
  {
    var guess := 1970 + (400 * t) / 146097;
    DayFromYearEstimate(guess - 1);
    DayFromYearEstimate(guess + 2);
    var y := if DayFromYear(guess + 1) <= t then guess + 1
      else if DayFromYear(guess) <= t then guess
      else guess - 1;
    assert DayFromYear(y) <= t < DayFromYear(y + 1);
  }

  /** Only one year holds a given day. */
  lemma YearsDisjoint(t: DayNumber, y: int, y': int)
    requires DayFromYear(y) <= t < DayFromYear(y + 1)
    requires DayFromYear(y') <= t < DayFromYear(y' + 1)
    ensures y == y'
  {
    if y < y' {
      DayFromYearMonotone(y, y');
    } else if y' < y {
      DayFromYearMonotone(y', y);
    }
  }

  /** Only one year holds a given day, for all pairs of years. */
  lemma YearsDisjointAll(t: DayNumber)
    ensures forall y, y' ::
      DayFromYear(y) <= t < DayFromYear(y + 1) && DayFromYear(y') <= t < DayFromYear(y' + 1) ==> y == y'
  {
    forall y, y' | DayFromYear(y) <= t < DayFromYear(y + 1) && DayFromYear(y') <= t < DayFromYear(y' + 1)
      ensures y == y'
    {
      YearsDisjoint(t, y, y');
    }
  }

  /** YearFromTime(t): the year y with DayFromYear(y) <= t < DayFromYear(y + 1). */
  function Year(t: DayNumber): (y: int)
    ensures DayFromYear(y) <= t < DayFromYear(y + 1)
  {
    YearExists(t);
    YearsDisjointAll(t);
    var y :| DayFromYear(y) <= t < DayFromYear(y + 1); y
  }

  /** Only one year contains a given day. */
  lemma YearUnique(t: DayNumber, y: int)
    requires DayFromYear(y) <= t < DayFromYear(y + 1)
    ensures Year(t) == y
  {
    YearsDisjoint(t, y, Year(t));
  }

  /** DayWithinYear(t): 0 for January 1. */
  function DayWithinYear(t: DayNumber): (n: int)
    ensures 0 <= n < DaysInYear(Year(t))
  {
    DayFromYearNext(Year(t));
    t - DayFromYear(Year(t))
  }

  // ---------------------------------------------------------------------
  // Months (ECMA-262 21.4.1.4, 21.4.1.5); months are numbered 0..11
  // ---------------------------------------------------------------------

  /** 1 in a leap year, 0 otherwise: InLeapYear of ECMA-262. */
  function LeapDay(y: int): int {
    DaysInYear(y) - 365
  }

  /** Days of year y before the first of month m; month 12 closes the year. */
  function DaysBeforeMonth(y: int, m: int): int
    requires 0 <= m <= 12
  {
    if m < 2 then 31 * m
    else LeapDay(y) + (if m == 2 then 59 else if m == 3 then 90 else if m == 4 then 120
                       else if m == 5 then 151 else if m == 6 then 181 else if m == 7 then 212
                       else if m == 8 then 243 else if m == 9 then 273 else if m == 10 then 304
                       else if m == 11 then 334 else 365)
  }

  /** The conventional month lengths. */
  function DaysInMonth(y: int, m: int): int
    requires 0 <= m < 12
  {
    if m == 1 then (if IsLeapYear(y) then 29 else 28)
    else if m == 3 || m == 5 || m == 8 || m == 10 then 30
    else 31
  }

  /** The month table and the month lengths agree, and February has 29 days exactly in leap years. */
  lemma MonthTable(y: int, m: int)
    requires 0 <= m < 12
    ensures DaysBeforeMonth(y, m + 1) == DaysBeforeMonth(y, m) + DaysInMonth(y, m)
    ensures 28 <= DaysInMonth(y, m) <= 31
    ensures DaysInMonth(y, 1) == 29 <==> IsLeapYear(y)
    ensures DaysBeforeMonth(y, 0) == 0 && DaysBeforeMonth(y, 12) == DaysInYear(y)
  {
  }

  /** The month table is increasing. */
  lemma DaysBeforeMonthMonotone(y: int, a: int, b: int)
    requires 0 <= a < b <= 12
    ensures DaysBeforeMonth(y, a + 1) <= DaysBeforeMonth(y, b)
  {
  }

  /** The month of year y holding day d of that year, searched from month m on. */
  function MonthFrom(y: int, d: int, m: int): (r: int)
    requires 0 <= m < 12 && DaysBeforeMonth(y, m) <= d < DaysInYear(y)
    ensures m <= r < 12 && DaysBeforeMonth(y, r) <= d < DaysBeforeMonth(y, r + 1)
    decreases 12 - m
  {
    if d < DaysBeforeMonth(y, m + 1) then m else MonthFrom(y, d, m + 1)
  }

  /** Day d of year y (0 for January 1) falls in month m. */
  predicate InMonthOfYear(y: int, d: int, m: int) {
    0 <= m < 12 && DaysBeforeMonth(y, m) <= d < DaysBeforeMonth(y, m + 1)
  }

  /** Some month holds every day of the year. */
  lemma MonthExists(y: int, d: int)
    requires 0 <= d < DaysInYear(y)
    ensures exists m :: InMonthOfYear(y, d, m)
  {
    var m := MonthFrom(y, d, 0);
    assert InMonthOfYear(y, d, m);
  }

  /** Only one month holds a given day of the year. */
  lemma MonthsDisjoint(y: int, d: int)
    ensures forall m, m' :: InMonthOfYear(y, d, m) && InMonthOfYear(y, d, m') ==> m == m'
  {
    forall m, m' | InMonthOfYear(y, d, m) && InMonthOfYear(y, d, m')
      ensures m == m'
    {
      if m < m' {
        DaysBeforeMonthMonotone(y, m, m');
      } else if m' < m {
        DaysBeforeMonthMonotone(y, m', m);
      }
    }
  }

  /** MonthFromTime(t), 0 for January: the month whose part of the year holds t. */
  function Month(t: DayNumber): (m: int)
    ensures 0 <= m < 12
    ensures DaysBeforeMonth(Year(t), m) <= DayWithinYear(t) < DaysBeforeMonth(Year(t), m + 1)
  {
    var y, d := Year(t), DayWithinYear(t);
    MonthExists(y, d);
    MonthsDisjoint(y, d);
    var m :| InMonthOfYear(y, d, m); m
  }

  /** Only one month contains a given day of the year. */
  lemma MonthUnique(t: DayNumber, m: int)
    requires 0 <= m < 12
    requires DaysBeforeMonth(Year(t), m) <= DayWithinYear(t) < DaysBeforeMonth(Year(t), m + 1)
    ensures Month(t) == m
  {
    MonthsDisjoint(Year(t), DayWithinYear(t));
    assert InMonthOfYear(Year(t), DayWithinYear(t), m);
    assert InMonthOfYear(Year(t), DayWithinYear(t), Month(t));
  }

  /** DateFromTime(t), the day of the month, 1 for the first. */
  function Date(t: DayNumber): (d: int)
    ensures 1 <= d <= DaysInMonth(Year(t), Month(t))
  {
    MonthTable(Year(t), Month(t));
    DayWithinYear(t) - DaysBeforeMonth(Year(t), Month(t)) + 1
  }

  /** WeekDay(t), 0 for Sunday; day 0 (1970-01-01) is a Thursday. */
  function WeekDay(t: DayNumber): (w: int)
    ensures 0 <= w < 7
  {
    (t + 4) % 7
  }

  /** The days of the week follow each other. */
  lemma WeekDayNext(t: DayNumber)
    ensures WeekDay(t + 1) == (WeekDay(t) + 1) % 7
    ensures WeekDay(t + 7) == WeekDay(t)
  {
  }

  /** Going back k days from a day no earlier in its week than weekday k lands k weekdays earlier. */
  lemma WeekDayBack(t: DayNumber, k: int)
    requires 0 <= k <= WeekDay(t)
    ensures WeekDay(t - k) == WeekDay(t) - k
  {
    var q := (t + 4) / 7;
    assert t - k + 4 == 7 * q + (WeekDay(t) - k);
  }

  /** Going forward k days within the same week lands k weekdays later. */
  lemma WeekDayAhead(t: DayNumber, k: int)
    requires 0 <= k && WeekDay(t) + k < 7
    ensures WeekDay(t + k) == WeekDay(t) + k
  {
    var q := (t + 4) / 7;
    assert t + k + 4 == 7 * q + (WeekDay(t) + k);
  }

  // ---------------------------------------------------------------------
  // Month indices: 12 * year + month, one per calendar month
  // ---------------------------------------------------------------------

  /** The month index of the month holding t. */
  function MonthIndex(t: DayNumber): int {
    12 * Year(t) + Month(t)
  }

  /** The day number of the first day of the month with index k. */
  function FirstOfMonth(k: int): DayNumber {
    DayFromYear(k / 12) + DaysBeforeMonth(k / 12, k % 12)
  }

  /** Length of the month with index k. */
  function MonthLength(k: int): int {
    DaysInMonth(k / 12, k % 12)
  }

  /** A month index splits back into its year and month. */
  lemma IndexParts(y: int, m: int)
    requires 0 <= m < 12
    ensures (12 * y + m) / 12 == y && (12 * y + m) % 12 == m
  {
  }

  /** The months lie end to end, each 28 to 31 days long. */
  lemma FirstOfMonthNext(k: int)
    ensures FirstOfMonth(k + 1) == FirstOfMonth(k) + MonthLength(k)
    ensures 28 <= MonthLength(k) <= 31
  {
    var y, m := k / 12, k % 12;
    MonthTable(y, m);
    if m == 11 {
      IndexParts(y + 1, 0);
      DayFromYearNext(y);
    } else {
      IndexParts(y, m + 1);
    }
  }

  /** A day in the span of month k reads as month k, on date (days since its first) + 1. */
  lemma InSpan(k: int, t: DayNumber)
    requires FirstOfMonth(k) <= t < FirstOfMonth(k) + MonthLength(k)
    ensures Year(t) == k / 12 && Month(t) == k % 12 && MonthIndex(t) == k
    ensures Date(t) == t - FirstOfMonth(k) + 1
  {
    var y, m := k / 12, k % 12;
    MonthTable(y, m);
    DaysBeforeMonthMonotone(y, m, 12);
    DayFromYearNext(y);
    YearUnique(t, y);
    MonthUnique(t, m);
  }

  /** Every day lies in the span of its own month, as its Date-th day. */
  lemma OwnSpan(t: DayNumber)
    ensures MonthIndex(t) / 12 == Year(t) && MonthIndex(t) % 12 == Month(t)
    ensures t == FirstOfMonth(MonthIndex(t)) + Date(t) - 1
    ensures Date(t) <= MonthLength(MonthIndex(t))
  {
    IndexParts(Year(t), Month(t));
  }

  /** The month index of a day is the one month whose span holds it. */
  lemma MonthIndexUnique(t: DayNumber, k: int)
    requires FirstOfMonth(k) <= t < FirstOfMonth(k) + MonthLength(k)
    ensures MonthIndex(t) == k
  {
    InSpan(k, t);
  }

  // ---------------------------------------------------------------------
  // Construction and the Date methods used by the calendar
  // ---------------------------------------------------------------------

  /**
   * MakeDay(year, month, date) of ECMA-262 21.4.1.12: months outside 0..11
   * carry into the year, and the date is counted from the first of the
   * resulting month, so 0 and negative dates step back into earlier months.
   * The carry goes through the month index 12 * year + month.
   */
  function MakeDay(year: int, month: int, date: int): DayNumber {
    FirstOfMonth(12 * year + month) + date - 1
  }

  /** MakeDay counts from the first of the month with index 12 * year + month. */
  lemma MakeDayOfIndex(year: int, month: int, date: int, k: int)
    requires k == 12 * year + month
    ensures MakeDay(year, month, date) == FirstOfMonth(k) + date - 1
  {
  }

  /** MakeDay agrees with ECMA-262's wording: year + floor(month / 12), month modulo 12. */
  lemma MakeDayNormalises(year: int, month: int, date: int)
    ensures var ym, mn := year + month / 12, month % 12;
      MakeDay(year, month, date) == DayFromYear(ym) + DaysBeforeMonth(ym, mn) + date - 1
  {
    assert (12 * year + month) / 12 == year + month / 12;
    assert (12 * year + month) % 12 == month % 12;
  }

  /** `new Date(y, m, d)`: years 0..99 are read as 1900..1999 (ECMA-262 21.4.2.1). */
  function NewDate(y: int, m: int, d: int): DayNumber {
    var year := if 0 <= y <= 99 then 1900 + y else y;
    MakeDay(year, m, d)
  }

  /** `t.setDate(d)`: same year and month, new date (it may overflow the month). */
  function SetDate(t: DayNumber, d: int): DayNumber {
    MakeDay(Year(t), Month(t), d)
  }

  /** `t.setMonth(m)`: same year and date, new month (it may overflow the year). */
  function SetMonth(t: DayNumber, m: int): DayNumber {
    MakeDay(Year(t), m, Date(t))
  }

  /** setDate(d) moves to the d-th day counted from the first of the same month. */
  lemma SetDateMoves(t: DayNumber, d: int)
    ensures SetDate(t, d) == t + (d - Date(t))
  {
    OwnSpan(t);
  }

  /** `Date.prototype.addDays`: a copy, moved by `days` with setDate; exactly `days` days later. */
  function AddDays(t: DayNumber, days: int): (r: DayNumber)
    ensures r == t + days
  {
    SetDateMoves(t, Date(t) + days);
    SetDate(t, Date(t) + days)
  }

  /** `Date.prototype.addMonths`: a copy, moved by `months` with setMonth. */
  function AddMonths(t: DayNumber, months: int): DayNumber {
    SetMonth(t, Month(t) + months)
  }

  /**
   * `addMonths(n)` keeps the date and counts it from the first of the month n
   * months on; a date past that month's length overflows into the month after.
   */
  lemma AddMonthsShape(t: DayNumber, months: int)
    ensures AddMonths(t, months) == FirstOfMonth(MonthIndex(t) + months) + Date(t) - 1
  {
    AddMonthsOfFields(AddMonths(t, months), Year(t), Month(t), Date(t), MonthIndex(t), months);
  }

  /** The day `a` set to the date d of the month n months after month m of year y (index k). */
  lemma AddMonthsOfFields(a: DayNumber, y: int, m: int, d: int, k: int, n: int)
    requires a == MakeDay(y, m + n, d) && k == 12 * y + m
    ensures a == FirstOfMonth(k + n) + d - 1
  {
    MakeDayOfIndex(y, m + n, d, k + n);
  }

  /** `setMonth(m)` to a month that has the date keeps the year and the date and sets the month. */
  lemma SetMonthFields(t: DayNumber, m: int)
    requires 0 <= m < 12 && Date(t) <= DaysInMonth(Year(t), m)
    ensures Year(SetMonth(t, m)) == Year(t) && Month(SetMonth(t, m)) == m && Date(SetMonth(t, m)) == Date(t)
  {
    FieldsOfMakeDay(Year(t), m, Date(t));
  }

  /** `new Date(y, m, d)` with a valid month and date reads back as y (1900 + y for 0..99), m and d. */
  lemma NewDateFields(y: int, m: int, d: int)
    requires 0 <= m < 12 && 1 <= d <= DaysInMonth(if 0 <= y <= 99 then 1900 + y else y, m)
    ensures var year := if 0 <= y <= 99 then 1900 + y else y;
      Year(NewDate(y, m, d)) == year && Month(NewDate(y, m, d)) == m && Date(NewDate(y, m, d)) == d
  {
    FieldsOfMakeDay(if 0 <= y <= 99 then 1900 + y else y, m, d);
  }

  /** Rebuilding a date from its own fields gives it back. */
  lemma MakeDayOfFields(t: DayNumber)
    ensures MakeDay(Year(t), Month(t), Date(t)) == t
  {
    OwnSpan(t);
  }

  /** The other round trip: a valid (year, month, date) triple is read back unchanged. */
  lemma FieldsOfMakeDay(y: int, m: int, d: int)
    requires 0 <= m < 12 && 1 <= d <= DaysInMonth(y, m)
    ensures Year(MakeDay(y, m, d)) == y && Month(MakeDay(y, m, d)) == m
    ensures Date(MakeDay(y, m, d)) == d
  {
    IndexParts(y, m);
    InSpan(12 * y + m, MakeDay(y, m, d));
  }

  /** One day on, within a month: the date goes up by one. */
  lemma NextDayInMonth(t: DayNumber)
    requires Date(t) < DaysInMonth(Year(t), Month(t))
    ensures Year(t + 1) == Year(t) && Month(t + 1) == Month(t) && Date(t + 1) == Date(t) + 1
  {
    OwnSpan(t);
    InSpan(MonthIndex(t), t + 1);
  }

  /** One day on from a month's last day: the first of the next month. */
  lemma NextDayAfterMonth(t: DayNumber)
    requires Date(t) == DaysInMonth(Year(t), Month(t))
    ensures MonthIndex(t + 1) == MonthIndex(t) + 1 && Date(t + 1) == 1
    ensures Month(t) < 11 ==> Year(t + 1) == Year(t) && Month(t + 1) == Month(t) + 1
    ensures Month(t) == 11 ==> Year(t + 1) == Year(t) + 1 && Month(t + 1) == 0
  {
    var k := MonthIndex(t);
    OwnSpan(t);
    FirstOfMonthNext(k);
    FirstOfMonthNext(k + 1);
    InSpan(k + 1, t + 1);
    if Month(t) == 11 {
      IndexParts(Year(t) + 1, 0);
    } else {
      IndexParts(Year(t), Month(t) + 1);
    }
  }

  /** `addDays(1)`: the date carries into the next month and the next year as needed. */
  lemma AddOneDay(t: DayNumber)
    ensures AddDays(t, 1) == t + 1
    ensures Date(t) < DaysInMonth(Year(t), Month(t)) ==>
      Year(t + 1) == Year(t) && Month(t + 1) == Month(t) && Date(t + 1) == Date(t) + 1
    ensures Date(t) == DaysInMonth(Year(t), Month(t)) && Month(t) < 11 ==>
      Year(t + 1) == Year(t) && Month(t + 1) == Month(t) + 1 && Date(t + 1) == 1
    ensures Date(t) == DaysInMonth(Year(t), Month(t)) && Month(t) == 11 ==>
      Year(t + 1) == Year(t) + 1 && Month(t + 1) == 0 && Date(t + 1) == 1
    ensures WeekDay(AddDays(t, 1)) == (WeekDay(t) + 1) % 7
  {
    if Date(t) < DaysInMonth(Year(t), Month(t)) {
      NextDayInMonth(t);
    } else {
      NextDayAfterMonth(t);
    }
    WeekDayNext(t);
  }

  /**
   * The "day 0 of next month" trick: `new Date(y, m + 1, 0)` is the last day of
   * month m, so its date is the month's length. Years 0..99 are read as
   * 1900..1999 by the constructor, so for them the length is that of 1900 + y.
   */
  lemma LastDayTrick(y: int, m: int)
    requires 0 <= m < 12
    ensures var year := if 0 <= y <= 99 then 1900 + y else y;
      && Year(NewDate(y, m + 1, 0)) == year && Month(NewDate(y, m + 1, 0)) == m
      && Date(NewDate(y, m + 1, 0)) == DaysInMonth(year, m)
      && NewDate(y, m + 1, 0) == MakeDay(year, m, 1) + DaysInMonth(year, m) - 1
  {
    var year := if 0 <= y <= 99 then 1900 + y else y;
    LastDayOfMonth(year, m, NewDate(y, m + 1, 0));
  }

  /** Day 0 of month m + 1 is the last day of month m, even across a year end. */
  lemma LastDayOfMonth(year: int, m: int, last: DayNumber)
    requires 0 <= m < 12 && last == MakeDay(year, m + 1, 0)
    ensures Year(last) == year && Month(last) == m && Date(last) == DaysInMonth(year, m)
    ensures last == MakeDay(year, m, 1) + DaysInMonth(year, m) - 1
  {
    var k := 12 * year + m;
    MakeDayOfIndex(year, m + 1, 0, k + 1);
    MakeDayOfIndex(year, m, 1, k);
    FirstOfMonthNext(k);
    IndexParts(year, m);
    InSpan(k, last);
  }

  /** The date of `new Date(y, m + 1, 0)`, a month length, is 28 to 31. */
  lemma LastDayLength(y: int, m: int, last: DayNumber)
    requires 0 <= m < 12 && last == NewDate(y, m + 1, 0)
    ensures 28 <= Date(last) <= 31
  {
    LastDayTrick(y, m);
    MonthTable(if 0 <= y <= 99 then 1900 + y else y, m);
  }

  /** The years 0..99 differ from 1900..1999 in one month only: February of year 0. */
  lemma TwoDigitYearMonthLength(y: int, m: int)
    requires 0 <= y <= 99 && 0 <= m < 12
    ensures DaysInMonth(1900 + y, m) == DaysInMonth(y, m) <==> !(y == 0 && m == 1)
  {
  }

  /**
   * `new Date(y, m + 1, 0)` falls on the last day of month m of year y, except
   * in February of year 0, which the two-digit reading turns into 1900's.
   */
  lemma LastDayOfYearMonth(y: int, m: int, last: DayNumber)
    requires 0 <= m < 12 && last == NewDate(y, m + 1, 0)
    ensures Date(last) == DaysInMonth(y, m) || (y == 0 && m == 1 && Date(last) == 28)
  {
    LastDayTrick(y, m);
    if 0 <= y <= 99 {
      TwoDigitYearMonthLength(y, m);
    }
  }

  /** `addMonths(1)` always moves strictly forward, by the length of the current month. */
  lemma AddOneMonthAdvances(t: DayNumber)
    ensures AddMonths(t, 1) == t + DaysInMonth(Year(t), Month(t))
    ensures AddMonths(t, 1) >= t + 28
  {
    var y, m, d, k := Year(t), Month(t), Date(t), MonthIndex(t);
    assert AddMonths(t, 1) == MakeDay(y, m + 1, d);
    MakeDayOfIndex(y, m + 1, d, k + 1);
    OwnSpan(t);
    FirstOfMonthNext(k);
  }

  /** `addMonths(1)` of a first of month is the first of the following month. */
  lemma AddOneMonthToFirst(t: DayNumber)
    requires Date(t) == 1
    ensures AddMonths(t, 1) == FirstOfMonth(MonthIndex(t) + 1)
  {
    var y, m, d := Year(t), Month(t), Date(t);
    assert AddMonths(t, 1) == MakeDay(y, m + 1, d);
    MakeDayOfIndex(y, m + 1, d, MonthIndex(t) + 1);
  }

  /** The first of month k is read back as date 1 of month k. */
  lemma FirstOfMonthFields(k: int)
    ensures Date(FirstOfMonth(k)) == 1 && MonthIndex(FirstOfMonth(k)) == k
    ensures Year(FirstOfMonth(k)) == k / 12 && Month(FirstOfMonth(k)) == k % 12
  {
    FirstOfMonthNext(k);
    InSpan(k, FirstOfMonth(k));
  }

  /** The month index that follows 12 * y + m: the next month of the year, or January of the next year after December. */
  lemma NextIndexParts(y: int, m: int)
    requires 0 <= m < 12
    ensures m < 11 ==> (12 * y + m + 1) / 12 == y && (12 * y + m + 1) % 12 == m + 1
    ensures m == 11 ==> (12 * y + m + 1) / 12 == y + 1 && (12 * y + m + 1) % 12 == 0
  {
    if m == 11 {
      IndexParts(y + 1, 0);
    } else {
      IndexParts(y, m + 1);
    }
  }

  /** From a first of month, `addMonths(1)` gives the first of the next month; December rolls to January of the next year. */
  lemma AddOneMonthRolls(t: DayNumber)
    requires Date(t) == 1
    ensures MonthIndex(AddMonths(t, 1)) == MonthIndex(t) + 1 && Date(AddMonths(t, 1)) == 1
    ensures Month(t) < 11 ==> Year(AddMonths(t, 1)) == Year(t) && Month(AddMonths(t, 1)) == Month(t) + 1
    ensures Month(t) == 11 ==> Year(AddMonths(t, 1)) == Year(t) + 1 && Month(AddMonths(t, 1)) == 0
  {
    AddOneMonthToFirst(t);
    FirstOfMonthFields(MonthIndex(t) + 1);
    NextIndexParts(Year(t), Month(t));
  }
}
