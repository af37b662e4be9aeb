/**
 * The calendar page (`src/frontend/src/pages/CalendarPage.tsx`): the month
 * grid built by `getDaysInMonth`, the month buttons, the day click and the
 * scheduling request. A JavaScript `Date` is a `Dates.Date`, valid for
 * the Gregorian calendar's month lengths; the weekday of the
 * first of the month is a parameter. Date strings are opaque.
 */
module CalendarPage {
  import opened Wrappers
  import opened Dates
  import opened Fetch

  predicate IsLeap(year: int)
  {
    year % 4 == 0 && (year % 100 != 0 || year % 400 == 0)
  }

  /** `new Date(year, month + 1, 0).getDate()`: the last day of the month. */
  function DaysInMonth(year: int, month: int): (n: int)
    requires 0 <= month < 12
    ensures 28 <= n <= 31
    ensures month == 1 ==> (n == 29 <==> IsLeap(year))
  {
    if month == 1 then (if IsLeap(year) then 29 else 28)
    else if month == 3 || month == 5 || month == 8 || month == 10 then 30
    else 31
  }

  predicate ValidDate(d: Date)
  {
    0 <= d.month < 12 && 1 <= d.day <= DaysInMonth(d.year, d.month)
  }

  /** Months counted from year 0, so that the next month is one more. */
  function MonthIndex(d: Date): int
  {
    d.year * 12 + d.month
  }

  /**
   * `new Date(year, month, day)` for a day of 1 to 31: a month outside
   * 0..11 carries into the year, and a day past the end of the month
   * carries into the next month.
   */
  function MakeDate(year: int, month: int, day: int): (d: Date)
    requires 1 <= day <= 31
    ensures ValidDate(d)
    ensures var k := year * 12 + month;
      (day <= DaysInMonth(k / 12, k % 12) ==> MonthIndex(d) == k && d.day == day)
      && (day > DaysInMonth(k / 12, k % 12) ==> MonthIndex(d) == k + 1 && d.day == day - DaysInMonth(k / 12, k % 12))
  {
    var k := year * 12 + month;
    var dim := DaysInMonth(k / 12, k % 12);
    if day <= dim then Date(k / 12, k % 12, day)
    else
      var k2 := k + 1;
      Date(k2 / 12, k2 % 12, day - dim)
  }

  /**
   * The month buttons as written: `currentMonth.setMonth(getMonth() ± 1)`
   * keeps the day of the month, so a day the target month lacks carries on
   * into the month after it.
   */
  function ShiftMonthAsWritten(d: Date, delta: int): (r: Date)
    requires ValidDate(d)
    ensures ValidDate(r)
  {
    MakeDate(d.year, d.month + delta, d.day)
  }

  /** As written, a step lands on the next month only when the day exists there; otherwise one month further. */
  lemma ShiftMonthAsWrittenMoves(d: Date, delta: int)
    requires ValidDate(d)
    ensures var k := MonthIndex(d) + delta;
      (d.day <= DaysInMonth(k / 12, k % 12) <==> MonthIndex(ShiftMonthAsWritten(d, delta)) == k)
      && (d.day > DaysInMonth(k / 12, k % 12) <==> MonthIndex(ShiftMonthAsWritten(d, delta)) == k + 1)
  {
    assert d.year * 12 + (d.month + delta) == MonthIndex(d) + delta;
  }

  /** From 31 January 2025, Next Month shows March; from 31 March, Previous Month stays in March. */
  lemma MonthStepSkipsShortMonth()
    ensures ShiftMonthAsWritten(Date(2025, 0, 31), 1) == Date(2025, 2, 3)
    ensures ShiftMonthAsWritten(Date(2025, 2, 31), -1) == Date(2025, 2, 3)
    ensures ShiftMonth(Date(2025, 0, 31), 1) == Date(2025, 1, 1)
    ensures ShiftMonth(Date(2025, 2, 31), -1) == Date(2025, 1, 1)
  {
    assert (2025 * 12 + 1) / 12 == 2025 && (2025 * 12 + 1) % 12 == 1;
    assert (2025 * 12 + 2) / 12 == 2025 && (2025 * 12 + 2) % 12 == 2;
  }

  /** The intended step: to the first of the month `delta` months away. */
  function ShiftMonth(d: Date, delta: int): (r: Date)
    requires ValidDate(d)
    ensures ValidDate(r) && r.day == 1
    ensures MonthIndex(r) == MonthIndex(d) + delta
  {
    MakeDate(d.year, d.month + delta, 1)
  }

  /** Previous Month undoes Next Month, and the reverse, up to the day. */
  lemma ShiftMonthRoundTrip(d: Date)
    requires ValidDate(d)
    ensures ShiftMonth(ShiftMonth(d, 1), -1) == Date(d.year, d.month, 1)
    ensures ShiftMonth(ShiftMonth(d, -1), 1) == Date(d.year, d.month, 1)
  {
    var k := MonthIndex(d);
    assert k / 12 == d.year && k % 12 == d.month;
  }

  /** The grid of a month: `firstWeekday` blanks, then days 1 to `lastDay`. */
  function DaysGrid(firstWeekday: nat, lastDay: nat): seq<Option<int>>
  {
    seq(firstWeekday, _ => None) + seq(lastDay, i => Some(i + 1))
  }

  /**
   * The grid has `firstWeekday + lastDay` cells, fewer than seven of them
   * blank at the front; day `i` sits at `firstWeekday + i - 1`, and the days
   * increase strictly along the grid.
   */
  lemma DaysGridShape(firstWeekday: nat, lastDay: nat)
    requires firstWeekday <= 6
    ensures var g := DaysGrid(firstWeekday, lastDay);
      |g| == firstWeekday + lastDay
      && (forall i :: 0 <= i < |g| ==> (g[i].None? <==> i < firstWeekday))
      && (forall i :: 1 <= i <= lastDay ==> g[firstWeekday + i - 1] == Some(i))
      && (forall i, j :: 0 <= i < j < |g| && g[i].Some? ==> g[j].Some? && g[i].value < g[j].value)
  {
  }

  /**
   * `getDaysInMonth`: push a blank for each weekday before the first, then
   * each day of the month.
   */
  method GetDaysInMonth(date: Date, firstWeekday: nat) returns (days: seq<Option<int>>)
    requires ValidDate(date) && firstWeekday <= 6
    ensures days == DaysGrid(firstWeekday, DaysInMonth(date.year, date.month))
  {
    var lastDay := DaysInMonth(date.year, date.month);
    days := [];
    var i := 0;
    while i < firstWeekday
      invariant 0 <= i <= firstWeekday
      invariant days == seq(i, _ => None)
    {
      days := days + [None];
      i := i + 1;
    }
    i := 1;
    while i <= lastDay
      invariant 1 <= i <= lastDay + 1
      invariant days == seq(firstWeekday, _ => None) + seq(i - 1, k => Some(k + 1))
    {
      days := days + [Some(i)];
      i := i + 1;
    }
  }

  const ScheduleFailed := "Failed to schedule pillar"
  const RefreshFailed := "Failed to refresh calendar data"

  /** Truthiness of the scheduling state: `""` and `0` count as absent. */
  predicate HasDate(s: Option<string>)
  {
    s.Some? && s.value != ""
  }

  predicate HasPillar(p: Option<int>)
  {
    p.Some? && p.value != 0
  }

  class Calendar {
    var currentMonth: Date
    var schedulingDate: Option<string>
    var selectedPillar: Option<int>
    var error: Option<string>
    /** The `(date, pillar_id)` bodies of the schedule requests sent. */
    var scheduled: seq<(string, int)>

    constructor(today: Date)
      requires ValidDate(today)
      ensures currentMonth == today && schedulingDate == None && selectedPillar == None && error == None && scheduled == []
    {
      currentMonth := today;
      schedulingDate := None;
      selectedPillar := None;
      error := None;
      scheduled := [];
    }

    predicate Valid()
      reads this
    {
      ValidDate(currentMonth)
    }

    /** Previous Month and Next Month, with the corrected step. */
    method StepMonth(delta: int)
      requires Valid() && (delta == -1 || delta == 1)
      modifies this
      ensures Valid() && currentMonth == ShiftMonth(old(currentMonth), delta)
      ensures MonthIndex(currentMonth) == MonthIndex(old(currentMonth)) + delta
      ensures schedulingDate == old(schedulingDate) && selectedPillar == old(selectedPillar)
      ensures error == old(error) && scheduled == old(scheduled)
    {
      currentMonth := ShiftMonth(currentMonth, delta);
    }

    /** A click on a day that is not past opens scheduling for it when the premium flag is on. */
    method DayClick(dateStr: string, isPast: bool, schedulingEnabled: bool)
      modifies this
      ensures schedulingDate == if !isPast && schedulingEnabled then Some(dateStr) else old(schedulingDate)
      ensures currentMonth == old(currentMonth) && selectedPillar == old(selectedPillar)
      ensures error == old(error) && scheduled == old(scheduled)
    {
      if !isPast && schedulingEnabled {
        schedulingDate := Some(dateStr);
      }
    }

    /** The pillar select: `Number(e.target.value)`, so the empty option gives 0. */
    method SelectPillar(value: int)
      modifies this
      ensures selectedPillar == Some(value)
      ensures currentMonth == old(currentMonth) && schedulingDate == old(schedulingDate)
      ensures error == old(error) && scheduled == old(scheduled)
    {
      selectedPillar := Some(value);
    }

    /** Cancel clears the date and the pillar. */
    method Cancel()
      modifies this
      ensures schedulingDate == None && selectedPillar == None
      ensures currentMonth == old(currentMonth) && error == old(error) && scheduled == old(scheduled)
    {
      schedulingDate := None;
      selectedPillar := None;
    }

    /**
     * `handleSchedulePillar`: nothing without a date and a pillar; otherwise
     * one schedule request, and the date and pillar are reset only when it
     * and the refresh both succeed. A failure shows the rejection's message
     * (the refresh's reply also covers reading its body) or the failing
     * step's own text.
     */
    method HandleSchedulePillar(schedule: Reply, refresh: Reply)
      modifies this
      ensures !(HasDate(old(schedulingDate)) && HasPillar(old(selectedPillar))) ==>
        scheduled == old(scheduled) && schedulingDate == old(schedulingDate)
        && selectedPillar == old(selectedPillar) && error == old(error)
      ensures HasDate(old(schedulingDate)) && HasPillar(old(selectedPillar)) ==>
        scheduled == old(scheduled) + [(old(schedulingDate).value, old(selectedPillar).value)]
      ensures HasDate(old(schedulingDate)) && HasPillar(old(selectedPillar)) && Succeeded(schedule) && Succeeded(refresh) ==>
        schedulingDate == None && selectedPillar == None && error == old(error)
      ensures HasDate(old(schedulingDate)) && HasPillar(old(selectedPillar)) && !(Succeeded(schedule) && Succeeded(refresh)) ==>
        schedulingDate == old(schedulingDate) && selectedPillar == old(selectedPillar)
      ensures HasDate(old(schedulingDate)) && HasPillar(old(selectedPillar)) && !Succeeded(schedule) ==>
        error == Some(if schedule.Rejected? then schedule.message else ScheduleFailed)
      ensures HasDate(old(schedulingDate)) && HasPillar(old(selectedPillar)) && Succeeded(schedule) && !Succeeded(refresh) ==>
        error == Some(if refresh.Rejected? then refresh.message else RefreshFailed)
      ensures currentMonth == old(currentMonth)
    {
      if !HasDate(schedulingDate) || !HasPillar(selectedPillar) {
        return;
      }
      scheduled := scheduled + [(schedulingDate.value, selectedPillar.value)];
      if !Succeeded(schedule) {
        error := Some(FailureMessage(schedule, ScheduleFailed));
      } else if !Succeeded(refresh) {
        error := Some(FailureMessage(refresh, RefreshFailed));
      } else {
        schedulingDate := None;
        selectedPillar := None;
      }
    }
  }
}
