/**
 * `getMonthList(start, end)`: the months whose pages the calendar document
 * holds, from the start month to the end month chosen in the form.
 */
module MonthList {
  import opened CivilDate

  /**
   * The list `getMonthList(start, end)` returns: empty exactly when `start` is
   * after `end`; otherwise it starts at `start`, each item is `addMonths(1)` of
   * the one before, none is after `end` while the next step would be, and the
   * items strictly ascend.
   */
  predicate IsMonthList(start: DayNumber, end: DayNumber, months: seq<DayNumber>) {
    && (|months| > 0 <==> start <= end)
    && (|months| > 0 ==> months[0] == start && AddMonths(months[|months| - 1], 1) > end)
    && (forall i :: 0 < i < |months| ==> months[i] == AddMonths(months[i - 1], 1))
    && (forall i :: 0 <= i < |months| ==> months[i] <= end)
    && (forall i, j :: 0 <= i < j < |months| ==> months[i] < months[j])
  }

  /**
   * What the loop of `getMonthList` has built, in two parts. First, the list
   * starts at `start`, each month is one month after the one before, and
   * `curMonth` is one month after the last one.
   */
  ghost predicate Stepped(start: DayNumber, months: seq<DayNumber>, curMonth: DayNumber) {
    && (|months| == 0 ==> curMonth == start)
    && (|months| > 0 ==> months[0] == start && curMonth == AddMonths(months[|months| - 1], 1))
    && (forall i :: 0 < i < |months| ==> months[i] == AddMonths(months[i - 1], 1))
  }

  /** Second, no month is after `end`, they ascend, and all come before `curMonth`. */
  ghost predicate Bounded(end: DayNumber, months: seq<DayNumber>, curMonth: DayNumber) {
    && (forall i :: 0 <= i < |months| ==> months[i] <= end && months[i] < curMonth)
    && (forall i, j :: 0 <= i < j < |months| ==> months[i] < months[j])
  }

  /** One pass of the loop keeps `Stepped`. */
  lemma SteppedStep(start: DayNumber, months: seq<DayNumber>, curMonth: DayNumber)
    requires Stepped(start, months, curMonth)
    ensures Stepped(start, months + [curMonth], AddMonths(curMonth, 1))
  {
  }

  /** One pass of the loop keeps `Bounded`. */
  lemma BoundedStep(end: DayNumber, months: seq<DayNumber>, curMonth: DayNumber, next: DayNumber)
    requires Bounded(end, months, curMonth) && curMonth <= end && curMonth < next
    ensures Bounded(end, months + [curMonth], next)
  {
  }

  /**
   * The loop of `getMonthList`: push a copy of `curMonth` while it is not after
   * `end`, and step it one month on with `addMonths(1)`.
   */
  method GetMonthList(start: DayNumber, end: DayNumber) returns (months: seq<DayNumber>)
    ensures IsMonthList(start, end, months)
  {
    months := [];
    var curMonth := start;
    while curMonth <= end
      invariant Stepped(start, months, curMonth) && Bounded(end, months, curMonth)
      decreases end - curMonth
    {
      MonthStepsForward(curMonth);
      SteppedStep(start, months, curMonth);
      BoundedStep(end, months, curMonth, AddMonths(curMonth, 1));
      months := months + [curMonth];
      curMonth := AddMonths(curMonth, 1);
    }
    LoopDone(start, end, months, curMonth);
  }

  /** When the loop stops, what it has built is the month list. */
  lemma LoopDone(start: DayNumber, end: DayNumber, months: seq<DayNumber>, curMonth: DayNumber)
    requires Stepped(start, months, curMonth) && Bounded(end, months, curMonth) && curMonth > end
    ensures IsMonthList(start, end, months)
  {
  }

  /** `addMonths(1)` moves a date at least 28 days on, so the loop ends. */
  lemma MonthStepsForward(t: DayNumber)
    ensures AddMonths(t, 1) >= t + 28
  {
    AddOneMonthAdvances(t);
  }

  /** One month on from the first of month k is the first of month k + 1. */
  lemma NextFirst(k: int, next: int)
    requires next == k + 1
    ensures AddMonths(FirstOfMonth(k), 1) == FirstOfMonth(next)
  {
    FirstOfMonthFields(k);
    AddOneMonthToFirst(FirstOfMonth(k));
  }

  /** One month on from the first of every month is the first of the next one. */
  lemma FirstsStep()
    ensures forall j :: AddMonths(FirstOfMonth(j), 1) == FirstOfMonth(j + 1)
  {
    forall j
      ensures AddMonths(FirstOfMonth(j), 1) == FirstOfMonth(j + 1)
    {
      NextFirst(j, j + 1);
    }
  }

  /**
   * A list that starts at `first(k)` and steps by one month holds `first(k)`,
   * `first(k + 1)`, ..., for any labelling `first` of days that one-month steps
   * carry from each index to the next.
   */
  lemma {:induction false} ConsecutiveSteps(first: int -> DayNumber, k: int, months: seq<DayNumber>, i: nat)
    requires |months| > 0 && months[0] == first(k)
    requires forall j :: 0 < j < |months| ==> months[j] == AddMonths(months[j - 1], 1)
    requires forall j :: AddMonths(first(j), 1) == first(j + 1)
    requires i < |months|
    ensures months[i] == first(k + i)
  {
    if i > 0 {
      ConsecutiveSteps(first, k, months, i - 1);
      assert AddMonths(first(k + (i - 1)), 1) == first(k + i);
    }
  }

  /** The month holding `end` is month k when its first is on or before `end` and the next first is after it. */
  lemma MonthOfEnd(k: int, first: DayNumber, end: DayNumber)
    requires first == FirstOfMonth(k)
    requires first <= end
    requires end < AddMonths(first, 1)
    ensures MonthIndex(end) == k
  {
    NextFirst(k, k + 1);
    FirstOfMonthNext(k);
    MonthIndexUnique(end, k);
  }

  /** A list from the first of month k that steps by one month holds the firsts of months k, k + 1, ... */
  lemma FirstsOfList(k: int, months: seq<DayNumber>)
    requires |months| > 0 && months[0] == FirstOfMonth(k)
    requires forall i :: 0 < i < |months| ==> months[i] == AddMonths(months[i - 1], 1)
    ensures forall i :: 0 <= i < |months| ==> months[i] == FirstOfMonth(k + i)
  {
    FirstsStep();
    forall i | 0 <= i < |months|
      ensures months[i] == FirstOfMonth(k + i)
    {
      ConsecutiveSteps(FirstOfMonth, k, months, i);
    }
  }

  /** Such a list ends in the month of `end` when its last month is not after `end` and the next one is. */
  lemma LastOfList(k: int, months: seq<DayNumber>, end: DayNumber)
    requires |months| > 0 && months[0] == FirstOfMonth(k)
    requires forall i :: 0 < i < |months| ==> months[i] == AddMonths(months[i - 1], 1)
    requires months[|months| - 1] <= end < AddMonths(months[|months| - 1], 1)
    ensures MonthIndex(end) == k + |months| - 1
  {
    var n := |months| - 1;
    FirstsStep();
    ConsecutiveSteps(FirstOfMonth, k, months, n);
    MonthOfEnd(k + n, months[n], end);
  }

  /**
   * From the first of month k, the list holds the firsts of the months from
   * month k to the month of `end`, one each, and none when `end` is before it.
   */
  lemma MonthListFromFirst(k: int, end: DayNumber, months: seq<DayNumber>)
    requires |months| > 0 <==> FirstOfMonth(k) <= end
    requires |months| > 0 ==> months[0] == FirstOfMonth(k)
    requires forall i :: 0 < i < |months| ==> months[i] == AddMonths(months[i - 1], 1)
    requires forall i :: 0 <= i < |months| ==> months[i] <= end
    requires |months| > 0 ==> AddMonths(months[|months| - 1], 1) > end
    ensures |months| == if FirstOfMonth(k) <= end then MonthIndex(end) - k + 1 else 0
    ensures forall i :: 0 <= i < |months| ==> months[i] == FirstOfMonth(k + i)
  {
    if |months| > 0 {
      FirstsOfList(k, months);
      LastOfList(k, months, end);
    }
  }

  /**
   * From the first of a month, as the form gives it, the list holds the
   * firsts of the months from the start month to the month of `end`, one
   * each, and none when `end` is before `start`.
   */
  lemma MonthListOfFirsts(start: DayNumber, end: DayNumber, months: seq<DayNumber>)
    requires Date(start) == 1 && IsMonthList(start, end, months)
    ensures |months| == if start <= end then MonthIndex(end) - MonthIndex(start) + 1 else 0
    ensures forall i :: 0 <= i < |months| ==> months[i] == FirstOfMonth(MonthIndex(start) + i)
  {
    OwnSpan(start);
    MonthListFromFirst(MonthIndex(start), end, months);
  }
}
