/**
 * Reporting periods: the inclusive week (Monday to Sunday) and month around
 * today, the first day of the year, and the day-by-day walk of `daysBetween`.
 */
module Periods {

  import opened Calendar

  /** An inclusive range of calendar days. */
  datatype Period = Period(start: Date, end: Date)

  predicate ValidPeriod(p: Period)
  {
    ValidDate(p.start) && ValidDate(p.end)
  }

  /** `getWeekDates`: the Monday on or before today, and the Sunday six days after it. */
  function WeekDates(today: Date): (w: Period)
    requires ValidDate(today)
    ensures ValidPeriod(w)
    ensures Weekday(w.start) == 1 && Weekday(w.end) == 0
    ensures DayNumber(w.end) == DayNumber(w.start) + 6
    ensures DayNumber(w.start) <= DayNumber(today) <= DayNumber(w.end)
  {
    var start := AddDays(today, -DaysToSubstract(Weekday(today)));
    WeekStartIsMonday(today);
    WeekEndIsSunday(start);
    ShiftIsMakeDay(today, -DaysToSubstract(Weekday(today)));
    ShiftIsMakeDay(start, 6);
    Period(start, AddDays(start, 6))
  }

  /** `new Date(d.getFullYear(), d.getMonth(), d.getDate() + k)` is the day k days after d. */
  lemma ShiftIsMakeDay(d: Date, k: int)
    requires ValidDate(d)
    ensures MakeDay(d.year, d.month - 1, d.day + k) == AddDays(d, k)
  {
    assert (d.month - 1) / 12 == 0 && (d.month - 1) % 12 == d.month - 1;
    DayNumberInjective(MakeDay(d.year, d.month - 1, d.day + k), AddDays(d, k));
  }

  /** Days back from a weekday to the Monday of its week (Sunday belongs to the week before). */
  function DaysToSubstract(day: int): (r: int)
    ensures 0 <= day < 7 ==> 0 <= r < 7 && (day - r) % 7 == 1
  {
    if day == 0 then 6 else day - 1
  }

  /** Going back DaysToSubstract(getDay()) days from today reaches a Monday. */
  lemma WeekStartIsMonday(today: Date)
    requires ValidDate(today)
    ensures Weekday(AddDays(today, -DaysToSubstract(Weekday(today)))) == 1
  {
    var day := Weekday(today);
    var start := AddDays(today, -DaysToSubstract(day));
    MondayStart(DayNumber(today) + 3, day, DayNumber(start) + 3);
  }

  /** Six days after a Monday is a Sunday. */
  lemma WeekEndIsSunday(start: Date)
    requires ValidDate(start) && Weekday(start) == 1
    ensures Weekday(AddDays(start, 6)) == 0
  {
    SundayAfterMonday(DayNumber(start) + 3);
  }

  lemma SundayAfterMonday(s: int)
    requires (s + 1) % 7 == 1
    ensures (s + 7) % 7 == 0
  {
    var q := (s + 1) / 7;
    assert s + 1 == 7 * q + 1;
    assert s + 7 == 7 * (q + 1);
  }

  /** Subtracting (getDay() + 6) mod 7 days lands on a Monday. */
  lemma MondayStart(n: int, day: int, s: int)
    requires day == (n + 1) % 7
    requires s == n - (if day == 0 then 6 else day - 1)
    ensures (s + 1) % 7 == 1
  {
    var x := n + 1;
    assert x == 7 * (x / 7) + x % 7;
    if x % 7 == 0 {
      assert s + 1 == 7 * (x / 7 - 1) + 1;
    } else {
      assert s + 1 == 7 * (x / 7) + 1;
    }
  }

  /** `getMonthDates`: the first of today's month and "day 0 of the next month". */
  function MonthDates(today: Date): (m: Period)
    requires ValidDate(today)
    ensures ValidPeriod(m)
    ensures m.start == Date(today.year, today.month, 1)
    ensures m.end == Date(today.year, today.month, DaysInMonth(today.year, today.month))
    ensures DayNumber(m.end) - DayNumber(m.start) + 1 == DaysInMonth(today.year, today.month)
    ensures DayNumber(m.start) <= DayNumber(today) <= DayNumber(m.end)
  {
    MonthBounds(today);
    Period(MakeDay(today.year, today.month - 1, 1), MakeDay(today.year, today.month, 0))
  }

  /** Day 1 of month index m-1 is the first of the month; day 0 of month index m is its last day. */
  lemma MonthBounds(today: Date)
    requires ValidDate(today)
    ensures MakeDay(today.year, today.month - 1, 1) == Date(today.year, today.month, 1)
    ensures MakeDay(today.year, today.month, 0) == Date(today.year, today.month, DaysInMonth(today.year, today.month))
  {
    var y, m := today.year, today.month;
    assert (m - 1) / 12 == 0 && (m - 1) % 12 == m - 1;
    if m < 12 {
      assert m / 12 == 0 && m % 12 == m;
      MonthStep(y, m);
    } else {
      assert m / 12 == 1 && m % 12 == 0;
      YearStep(y);
    }
    DayNumberInjective(MakeDay(today.year, today.month, 0), Date(today.year, today.month, DaysInMonth(today.year, today.month)));
    DayNumberInjective(MakeDay(today.year, today.month - 1, 1), Date(today.year, today.month, 1));
  }

  /** January 1 of the given date's year (`new Date('YYYY-01-01')`): the day right after all the days of the years before. */
  function YearStart(d: Date): (r: Date)
    ensures ValidDate(r) && r.year == d.year && DayNumber(r) == DaysBeforeYear(d.year)
    ensures ValidDate(d) ==> DayNumber(r) <= DayNumber(d) < DayNumber(r) + DaysInYear(d.year)
  {
    var r := Date(d.year, 1, 1);
    if ValidDate(d) then
      DayNumberInYear(d);
      YearStep(d.year);
      r
    else r
  }

  /** Number of days in the inclusive range [start, end]; none when start is after end. */
  function Span(start: Date, end: Date): nat
    requires ValidDate(start) && ValidDate(end)
  {
    if DayNumber(start) <= DayNumber(end) then DayNumber(end) - DayNumber(start) + 1 else 0
  }

  predicate AllValid(days: seq<Date>)
  {
    forall i :: 0 <= i < |days| ==> ValidDate(days[i])
  }

  /** The n consecutive days beginning with start. */
  function DayRange(start: Date, n: nat): (days: seq<Date>)
    requires ValidDate(start)
    ensures |days| == n && AllValid(days)
    decreases n
  {
    if n == 0 then [] else [start] + DayRange(NextDay(start), n - 1)
  }

  /** The i-th day of a range is a valid date i days after the first. */
  lemma {:induction false} DayRangeAt(start: Date, n: nat, i: nat)
    requires ValidDate(start) && i < n
    ensures ValidDate(DayRange(start, n)[i])
    ensures DayNumber(DayRange(start, n)[i]) == DayNumber(start) + i
    decreases n
  {
    var next := NextDay(start);
    var rest := DayRange(next, n - 1);
    assert DayRange(start, n) == [start] + rest;
    if i > 0 {
      assert DayRange(start, n)[i] == rest[i - 1];
      DayRangeAt(next, n - 1, i - 1);
    }
  }

  /** A range of n + k days is its first n days followed by the k days after them. */
  lemma {:induction false} DayRangeSplit(start: Date, n: nat, k: nat)
    requires ValidDate(start)
    ensures DayRange(start, n + k) == DayRange(start, n) + DayRange(AddDays(start, n), k)
    decreases n
  {
    if n > 0 {
      DayRangeSplit(NextDay(start), n - 1, k);
      DayNumberInjective(AddDays(NextDay(start), n - 1), AddDays(start, n));
    }
  }

  /** The days of [start, end] in order. */
  function Days(start: Date, end: Date): (days: seq<Date>)
    requires ValidDate(start) && ValidDate(end)
    ensures AllValid(days)
  {
    DayRange(start, Span(start, end))
  }

  /** [a, c] is [a, b] followed by [b + 1, c] whenever a <= b < c. */
  lemma DaysSplit(a: Date, b: Date, c: Date)
    requires ValidDate(a) && ValidDate(b) && ValidDate(c)
    requires DayNumber(a) <= DayNumber(b) < DayNumber(c)
    ensures Days(a, c) == Days(a, b) + Days(NextDay(b), c)
  {
    var n, k := SplitLengths(a, b, c);
    DaysOfLength(a, c, n + k);
    DayRangeSplit(a, n, k);
  }

  /** The lengths of [a, b] and [b + 1, c] as ranges, with b + 1 as many days after a as [a, b] is long. */
  lemma SplitLengths(a: Date, b: Date, c: Date) returns (n: nat, k: nat)
    requires ValidDate(a) && ValidDate(b) && ValidDate(c)
    requires DayNumber(a) <= DayNumber(b) < DayNumber(c)
    ensures n == DayNumber(b) - DayNumber(a) + 1 && k == DayNumber(c) - DayNumber(b)
    ensures Days(a, b) == DayRange(a, n)
    ensures ValidDate(NextDay(b)) && Days(NextDay(b), c) == DayRange(NextDay(b), k)
    ensures AddDays(a, n) == NextDay(b)
  {
    n, k := DayNumber(b) - DayNumber(a) + 1, DayNumber(c) - DayNumber(b);
    DaysOfLength(a, b, n);
    DaysOfLength(NextDay(b), c, k);
    AddDaysReaches(a, b, n);
  }

  /** The day after b is as many days after a as [a, b] is long. */
  lemma AddDaysReaches(a: Date, b: Date, n: nat)
    requires ValidDate(a) && ValidDate(b)
    requires n == DayNumber(b) - DayNumber(a) + 1
    ensures AddDays(a, n) == NextDay(b)
  {
    DayNumberInjective(AddDays(a, n), NextDay(b));
  }

  /** A non-empty [start, end] of n days is the range of n days from start. */
  lemma DaysOfLength(start: Date, end: Date, n: nat)
    requires ValidDate(start) && ValidDate(end)
    requires n == DayNumber(end) - DayNumber(start) + 1
    ensures Days(start, end) == DayRange(start, n)
  {
  }

  /**
   * `daysBetween(startDate, endDate)`: starting at startDate, yields the
   * current day and steps one day forward while it is not after endDate.
   */
  method DaysBetween(startDate: Date, endDate: Date) returns (days: seq<Date>)
    requires ValidDate(startDate) && ValidDate(endDate)
    ensures days == Days(startDate, endDate)
    ensures DayNumber(startDate) <= DayNumber(endDate) ==>
      |days| == DayNumber(endDate) - DayNumber(startDate) + 1 &&
      days[0] == startDate && days[|days| - 1] == endDate
    ensures DayNumber(startDate) > DayNumber(endDate) ==> days == []
    ensures forall i :: 0 <= i < |days| ==>
      ValidDate(days[i]) && DayNumber(days[i]) == DayNumber(startDate) + i
  {
    var n := Span(startDate, endDate);
    days := [];
    var currentDate := startDate;
    while DayNumber(currentDate) <= DayNumber(endDate)
      invariant ValidDate(currentDate)
      invariant |days| <= n
      invariant DayNumber(currentDate) == DayNumber(startDate) + |days|
      invariant days + DayRange(currentDate, n - |days|) == DayRange(startDate, n)
      decreases DayNumber(endDate) - DayNumber(currentDate)
    {
      assert DayRange(currentDate, n - |days|) == [currentDate] + DayRange(NextDay(currentDate), n - |days| - 1);
      days := days + [currentDate];
      currentDate := NextDay(currentDate);
    }
    forall i | 0 <= i < |days|
      ensures ValidDate(days[i]) && DayNumber(days[i]) == DayNumber(startDate) + i
    {
      DayRangeAt(startDate, n, i);
    }
    if n > 0 {
      var last := days[|days| - 1];
      assert |days| == n == DayNumber(endDate) - DayNumber(startDate) + 1;
      assert DayNumber(last) == DayNumber(startDate) + (n - 1);
      DayNumberInjective(last, endDate);
    }
  }
}
