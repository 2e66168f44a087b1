/**
 * The needed/worked aggregator `getNeededAndWorkedHours` (script.js): walks
 * the days of a period summing the hours they owe, walks the timesheet
 * entries summing the time worked inside the period (explicit durations,
 * plus a live estimate for an entry of today that is still open), starts
 * the worked total from a carried-in balance, and folds minutes into hours.
 */
module Aggregation {

  import opened Wrappers
  import opened Calendar
  import opened Periods
  import opened TimeOfDay
  import opened DayRate
  import opened JsArith

  /** A signed amount of time kept as separate hour and minute counts. */
  datatype HoursMinutes = HoursMinutes(hours: int, minutes: int)

  function TotalMinutes(t: HoursMinutes): int
  {
    t.hours * 60 + t.minutes
  }

  /**
   * A timesheet entry: `endTime` absent (or empty) while the session is
   * open; `duration` present once the service has computed it.
   */
  datatype TimesheetEntry = TimesheetEntry(
    id: string,
    date: Date,
    startTime: string,
    endTime: Option<string>,
    duration: Option<HoursMinutes>)

  /** The entry's day lies in [start, end]; a date that is not a calendar day lies in no range. */
  predicate InRange(e: TimesheetEntry, start: Date, end: Date)
    requires ValidDate(start) && ValidDate(end)
  {
    ValidDate(e.date) && DayNumber(start) <= DayNumber(e.date) <= DayNumber(end)
  }

  /** An entry lies in [start, end] exactly when its day is one of the days `daysBetween(start, end)` yields. */
  lemma InRangeIsWalkedDay(e: TimesheetEntry, start: Date, end: Date)
    requires ValidDate(start) && ValidDate(end)
    ensures InRange(e, start, end) <==> ValidDate(e.date) && e.date in Days(start, end)
  {
    var n := Span(start, end);
    var days := Days(start, end);
    assert days == DayRange(start, n);
    if InRange(e, start, end) {
      var i := DayNumber(e.date) - DayNumber(start);
      DayRangeAt(start, n, i);
      DayNumberInjective(days[i], e.date);
    }
    if ValidDate(e.date) && e.date in days {
      var i :| 0 <= i < |days| && days[i] == e.date;
      DayRangeAt(start, n, i);
    }
  }

  /** An entry of the given day with no (or an empty) end time: a session still running. */
  predicate OpenOn(e: TimesheetEntry, day: Date)
  {
    e.date == day && !Truthy(e.endTime)
  }

  /** The source tests `sheet.date === getDate(now)`; on a calendar day that key comparison is date equality. */
  lemma OpenTodayByKey(e: TimesheetEntry, now: Now)
    requires ValidNow(now) && ValidDate(e.date)
    ensures (!Truthy(e.endTime) && DateKey(e.date) == DateKey(now.date)) <==> OpenOn(e, now.date)
  {
    DateKeyInjective(e.date, now.date);
  }

  /** The live estimate of an open entry: now minus its start, borrowing an hour when the minutes go negative. */
  function Elapsed(now: Now, started: Clock): (t: HoursMinutes)
    ensures TotalMinutes(t) == TotalMinutes(HoursMinutes(now.hours, now.minutes)) - TotalMinutes(HoursMinutes(started.hours, started.minutes))
    ensures 0 <= now.minutes < 60 && 0 <= started.minutes < 60 ==> 0 <= t.minutes < 60
  {
    var hoursWorked := now.hours - started.hours;
    var minutesWorked := now.minutes - started.minutes;
    if minutesWorked < 0 then HoursMinutes(hoursWorked - 1, minutesWorked + 60)
    else HoursMinutes(hoursWorked, minutesWorked)
  }

  /**
   * What one entry adds to the worked time of [start, end]. None when the
   * entry is the open entry of today and its start time cannot be read
   * (the source computes NaN there).
   */
  function Contribution(e: TimesheetEntry, start: Date, end: Date, now: Now): (r: Option<HoursMinutes>)
    requires ValidDate(start) && ValidDate(end) && ValidNow(now)
    ensures !InRange(e, start, end) ==> r == Some(HoursMinutes(0, 0))
    ensures InRange(e, start, end) && e.duration.Some? ==> r == e.duration
    ensures e.duration.None? && Truthy(e.endTime) ==> r == Some(HoursMinutes(0, 0))
    ensures e.duration.None? && ValidDate(e.date) && e.date != now.date ==> r == Some(HoursMinutes(0, 0))
    ensures InRange(e, start, end) && e.duration.None? && !Truthy(e.endTime) && e.date == now.date ==>
      (r.Some? <==> ParseTime(e.startTime).Some?) &&
      (r.Some? ==>
        var started := ParseTime(e.startTime).value;
        TotalMinutes(r.value) == TotalMinutes(HoursMinutes(now.hours, now.minutes)) - TotalMinutes(HoursMinutes(started.hours, started.minutes)) &&
        (started.minutes < 60 ==> 0 <= r.value.minutes < 60))
  {
    if !InRange(e, start, end) then Some(HoursMinutes(0, 0))
    else if e.duration.Some? then e.duration
    else if OpenOn(e, now.date) then
      match ParseTime(e.startTime)
      case None => None
      case Some(started) => Some(Elapsed(now, started))
    else Some(HoursMinutes(0, 0))
  }

  /** The open entry of today contributes the live estimate from its start time to now. */
  lemma OpenEntryContribution(e: TimesheetEntry, start: Date, end: Date, now: Now)
    requires ValidDate(start) && ValidDate(end) && ValidNow(now)
    requires InRange(e, start, end) && e.duration.None? && !Truthy(e.endTime) && e.date == now.date
    requires ParseTime(e.startTime).Some?
    ensures Contribution(e, start, end, now) == Some(Elapsed(now, ParseTime(e.startTime).value))
  {
  }

  /** An entry started at 09:00:00 and still open at 11:15 counts 2 hours 15 minutes. */
  lemma OpenEntryExample()
    ensures var today := Date(2024, 3, 15);
      Contribution(TimesheetEntry("e1", today, FormatTime(9, 0, 0), None, None), today, today, Now(today, 11, 15, 0))
        == Some(HoursMinutes(2, 15))
  {
    var today := Date(2024, 3, 15);
    ParseFormatTime(9, 0, 0);
    OpenEntryContribution(TimesheetEntry("e1", today, FormatTime(9, 0, 0), None, None), today, today, Now(today, 11, 15, 0));
  }

  /** Started at 09:45 and open at 11:15: the negative minutes borrow an hour, giving 1 hour 30 minutes. */
  lemma OpenEntryBorrowExample()
    ensures var today := Date(2024, 3, 15);
      Contribution(TimesheetEntry("e2", today, FormatTime(9, 45, 0), Some(""), None), today, today, Now(today, 11, 15, 0))
        == Some(HoursMinutes(1, 30))
  {
    var today := Date(2024, 3, 15);
    ParseFormatTime(9, 45, 0);
    OpenEntryContribution(TimesheetEntry("e2", today, FormatTime(9, 45, 0), Some(""), None), today, today, Now(today, 11, 15, 0));
  }

  function Plus(a: HoursMinutes, b: HoursMinutes): HoursMinutes
  {
    HoursMinutes(a.hours + b.hours, a.minutes + b.minutes)
  }

  /** Hours and minutes worked in [start, end] over the entries, accumulated first to last; None once an entry fails. */
  function WorkedSum(entries: seq<TimesheetEntry>, start: Date, end: Date, now: Now): Option<HoursMinutes>
    requires ValidDate(start) && ValidDate(end) && ValidNow(now)
  {
    if entries == [] then Some(HoursMinutes(0, 0))
    else AddWorked(WorkedSum(entries[..|entries| - 1], start, end, now), Contribution(entries[|entries| - 1], start, end, now))
  }

  /** Adding two amounts of worked time, either of which may have failed. */
  function AddWorked(x: Option<HoursMinutes>, y: Option<HoursMinutes>): (r: Option<HoursMinutes>)
    ensures r.Some? <==> x.Some? && y.Some?
    ensures r.Some? ==> TotalMinutes(r.value) == TotalMinutes(x.value) + TotalMinutes(y.value)
  {
    if x.Some? && y.Some? then Some(Plus(x.value, y.value)) else None
  }

  /** Adding no time changes nothing. */
  lemma AddWorkedZero(a: Option<HoursMinutes>)
    ensures AddWorked(a, Some(HoursMinutes(0, 0))) == a && AddWorked(Some(HoursMinutes(0, 0)), a) == a
  {
  }

  /** Sums of worked time may be regrouped: (a + b) + (c + d) == (a + c) + (b + d). */
  lemma AddWorkedInterchange(a: Option<HoursMinutes>, b: Option<HoursMinutes>, c: Option<HoursMinutes>, d: Option<HoursMinutes>)
    ensures AddWorked(AddWorked(a, b), AddWorked(c, d)) == AddWorked(AddWorked(a, c), AddWorked(b, d))
  {
    if a.Some? && b.Some? && c.Some? && d.Some? {
      var w, x, y, z := a.value, b.value, c.value, d.value;
      assert Plus(Plus(w, x), Plus(y, z)) == HoursMinutes(w.hours + x.hours + y.hours + z.hours, w.minutes + x.minutes + y.minutes + z.minutes);
      assert Plus(Plus(w, y), Plus(x, z)) == HoursMinutes(w.hours + x.hours + y.hours + z.hours, w.minutes + x.minutes + y.minutes + z.minutes);
    }
  }

  /**
   * Extending a prefix of the entries by one entry: its contribution is
   * added to the sum, or, when it fails, the sum of all the entries fails.
   */
  lemma WorkedSumExtend(entries: seq<TimesheetEntry>, j: nat, start: Date, end: Date, now: Now, acc: HoursMinutes, added: Option<HoursMinutes>)
    requires ValidDate(start) && ValidDate(end) && ValidNow(now) && j < |entries|
    requires WorkedSum(entries[..j], start, end, now) == Some(acc)
    requires added == Contribution(entries[j], start, end, now)
    ensures added.Some? ==> WorkedSum(entries[..j + 1], start, end, now) == Some(Plus(acc, added.value))
    ensures added.None? ==> WorkedSum(entries, start, end, now).None?
  {
    assert entries[..j + 1][..j] == entries[..j];
    if added.None? {
      WorkedSumFailureSticks(entries, j + 1, start, end, now);
    }
  }

  /**
   * Splitting the range [a, c] at b: an entry counts in [a, c] exactly as it
   * counts in [a, b] plus in [b + 1, c].
   */
  lemma ContributionSplit(e: TimesheetEntry, a: Date, b: Date, c: Date, now: Now)
    requires ValidDate(a) && ValidDate(b) && ValidDate(c) && ValidNow(now)
    requires DayNumber(a) <= DayNumber(b) < DayNumber(c)
    ensures Contribution(e, a, c, now) == AddWorked(Contribution(e, a, b, now), Contribution(e, NextDay(b), c, now))
  {
    var zero := Some(HoursMinutes(0, 0));
    var whole, first, second := Contribution(e, a, c, now), Contribution(e, a, b, now), Contribution(e, NextDay(b), c, now);
    if !InRange(e, a, c) {
      assert first == zero && second == zero && whole == zero;
      AddWorkedZero(zero);
    } else if DayNumber(e.date) <= DayNumber(b) {
      assert second == zero && first == whole;
      AddWorkedZero(whole);
    } else {
      assert first == zero && second == whole;
      AddWorkedZero(whole);
    }
  }

  /** The worked time of [a, c] is the worked time of [a, b] plus that of [b + 1, c]. */
  lemma {:induction false} WorkedSumSplit(entries: seq<TimesheetEntry>, a: Date, b: Date, c: Date, now: Now)
    requires ValidDate(a) && ValidDate(b) && ValidDate(c) && ValidNow(now)
    requires DayNumber(a) <= DayNumber(b) < DayNumber(c)
    ensures WorkedSum(entries, a, c, now) == AddWorked(WorkedSum(entries, a, b, now), WorkedSum(entries, NextDay(b), c, now))
  {
    if entries == [] {
      AddWorkedZero(Some(HoursMinutes(0, 0)));
    } else {
      var init, last := entries[..|entries| - 1], entries[|entries| - 1];
      WorkedSumSplit(init, a, b, c, now);
      ContributionSplit(last, a, b, c, now);
      AddWorkedInterchange(WorkedSum(init, a, b, now), WorkedSum(init, NextDay(b), c, now),
        Contribution(last, a, b, now), Contribution(last, NextDay(b), c, now));
    }
  }

  /**
   * An entry as the service writes it: a computed duration has minutes in
   * [0, 60), and a readable start time has minutes below 60.
   */
  predicate WellFormedEntry(e: TimesheetEntry)
  {
    (e.duration.Some? ==> 0 <= e.duration.value.minutes < 60) &&
    (ParseTime(e.startTime).Some? ==> ParseTime(e.startTime).value.minutes < 60)
  }

  /** Over well-formed entries every contribution, and so the worked total, has non-negative minutes. */
  lemma {:induction false} WorkedMinutesNonNegative(entries: seq<TimesheetEntry>, start: Date, end: Date, now: Now)
    requires ValidDate(start) && ValidDate(end) && ValidNow(now)
    requires forall i :: 0 <= i < |entries| ==> WellFormedEntry(entries[i])
    ensures WorkedSum(entries, start, end, now).Some? ==> WorkedSum(entries, start, end, now).value.minutes >= 0
  {
    if entries != [] {
      var init, last := entries[..|entries| - 1], entries[|entries| - 1];
      assert WellFormedEntry(last);
      WorkedMinutesNonNegative(init, start, end, now);
    }
  }

  /** Once an entry has failed, the whole sum fails. */
  lemma {:induction false} WorkedSumFailureSticks(entries: seq<TimesheetEntry>, k: nat, start: Date, end: Date, now: Now)
    requires ValidDate(start) && ValidDate(end) && ValidNow(now)
    requires k <= |entries| && WorkedSum(entries[..k], start, end, now).None?
    ensures WorkedSum(entries, start, end, now).None?
    decreases |entries| - k
  {
    if k < |entries| {
      assert entries[..k + 1][..k] == entries[..k];
      WorkedSumFailureSticks(entries, k + 1, start, end, now);
    } else {
      assert entries[..k] == entries;
    }
  }

  /**
   * Folding minutes into hours as written: `hours += floor(|minutes| / 60)`
   * and `minutes %= 60` (remainder with the sign of the minutes).
   */
  function Normalise(t: HoursMinutes): (r: HoursMinutes)
    ensures -60 < t.minutes ==> TotalMinutes(r) == TotalMinutes(t)
    ensures t.minutes >= 0 ==> TotalMinutes(r) == TotalMinutes(t) && 0 <= r.minutes < 60
    ensures t.minutes < 0 ==>
      TotalMinutes(r) == TotalMinutes(t) + 120 * (-t.minutes / 60) && -60 < r.minutes <= 0
  {
    HoursMinutes(t.hours + Abs(t.minutes) / 60, TruncRem(t.minutes, 60))
  }

  /**
   * The aggregator's result: worked hours and minutes (carry included),
   * needed time in half hours, and the carried-in balance echoed back.
   */
  datatype Report = Report(
    hoursWorked: int,
    minutesWorked: int,
    neededHalfHours: nat,
    overtimeHours: int,
    overtimeMinutes: int)

  /** Hours times half days, in half hours: `nbHours` added once per half day. */
  function Scale(hours: nat, halves: nat): nat
  {
    if halves == 0 then 0 else Scale(hours, halves - 1) + hours
  }

  /** The repeated sum is the product `nbHours * rate` of the source. */
  lemma {:induction false} ScaleIsProduct(hours: nat, halves: nat)
    ensures Scale(hours, halves) == hours * halves
  {
    if halves > 0 {
      ScaleIsProduct(hours, halves - 1);
    }
  }

  /** Scaling distributes over a sum of half days. */
  lemma {:induction false} ScaleAdd(hours: nat, a: nat, b: nat)
    ensures Scale(hours, a + b) == Scale(hours, a) + Scale(hours, b)
    decreases b
  {
    if b > 0 {
      ScaleAdd(hours, a, b - 1);
    }
  }

  /** ScaleAdd with the sum named. */
  lemma ScaleSum(hours: nat, a: nat, b: nat, sum: nat)
    requires sum == a + b
    ensures Scale(hours, a) + Scale(hours, b) == Scale(hours, sum)
  {
    ScaleAdd(hours, a, b);
  }

  /** Adding one more day's `nbHours * rate` to the needed total of a prefix gives the next prefix's total. */
  lemma NeededStep(ctx: Context, today: Date, days: seq<Date>, i: nat)
    requires ValidDate(today) && AllValid(days) && i < |days|
    ensures AllValid(days[..i]) && AllValid(days[..i + 1])
    ensures Scale(ctx.nbHours, RateSum(ctx, today, days[..i])) + Scale(ctx.nbHours, HourRateForDay(ctx, today, days[i])) ==
      Scale(ctx.nbHours, RateSum(ctx, today, days[..i + 1]))
  {
    RateSumStep(ctx, today, days, i);
    var a, h := RateSum(ctx, today, days[..i]), HourRateForDay(ctx, today, days[i]);
    ScaleSum(ctx.nbHours, a, h, RateSum(ctx, today, days[..i + 1]));
  }

  /** Needed time of [start, end] in half hours: the daily target times the day rates. */
  function NeededHalfHours(ctx: Context, now: Now, start: Date, end: Date): nat
    requires ValidDate(start) && ValidDate(end) && ValidNow(now)
  {
    Scale(ctx.nbHours, RateSum(ctx, now.date, Days(start, end)))
  }

  /** The needed time of [a, c] is the needed time of [a, b] plus that of [b + 1, c]. */
  lemma NeededSplit(ctx: Context, now: Now, a: Date, b: Date, c: Date)
    requires ValidDate(a) && ValidDate(b) && ValidDate(c) && ValidNow(now)
    requires DayNumber(a) <= DayNumber(b) < DayNumber(c)
    ensures NeededHalfHours(ctx, now, a, c) == NeededHalfHours(ctx, now, a, b) + NeededHalfHours(ctx, now, NextDay(b), c)
  {
    var first, second := Days(a, b), Days(NextDay(b), c);
    DaysSplit(a, b, c);
    RateSumAppend(ctx, now.date, first, second);
    ScaleSum(ctx.nbHours, RateSum(ctx, now.date, first), RateSum(ctx, now.date, second), RateSum(ctx, now.date, Days(a, c)));
  }

  /** The report `getNeededAndWorkedHours` returns, or None when an open entry of today is malformed. */
  function Aggregate(ctx: Context, now: Now, start: Date, end: Date, entries: seq<TimesheetEntry>, carry: HoursMinutes): Option<Report>
    requires ValidDate(start) && ValidDate(end) && ValidNow(now)
  {
    match WorkedSum(entries, start, end, now)
    case None => None
    case Some(w) =>
      var worked := Normalise(Plus(carry, w));
      Some(Report(worked.hours, worked.minutes, NeededHalfHours(ctx, now, start, end), carry.hours, carry.minutes))
  }

  /**
   * The report fails exactly when the worked sum fails; otherwise it holds
   * the period's needed time, echoes the carry as its overtime, keeps the
   * worked minutes within an hour, and (while the carry's minutes and the
   * worked minutes stay above -60 together) holds the carry plus the
   * worked time.
   */
  lemma AggregateReport(ctx: Context, now: Now, start: Date, end: Date, entries: seq<TimesheetEntry>, carry: HoursMinutes)
    requires ValidDate(start) && ValidDate(end) && ValidNow(now)
    ensures var r := Aggregate(ctx, now, start, end, entries, carry);
      var w := WorkedSum(entries, start, end, now);
      (r.Some? <==> w.Some?) &&
      (r.Some? ==>
        r.value.neededHalfHours == NeededHalfHours(ctx, now, start, end) &&
        r.value.overtimeHours == carry.hours && r.value.overtimeMinutes == carry.minutes &&
        -60 < r.value.minutesWorked < 60 &&
        (-60 < carry.minutes + w.value.minutes ==>
          TotalMinutes(HoursMinutes(r.value.hoursWorked, r.value.minutesWorked)) == TotalMinutes(carry) + TotalMinutes(w.value)))
  {
  }

  /** The first loop of `getNeededAndWorkedHours`: `nbHours * hourRateForDay(day)` summed over `daysBetween(start, end)`. */
  method NeededHours(ctx: Context, now: Now, start: Date, end: Date) returns (hoursNeededForPeriod: nat)
    requires ValidDate(start) && ValidDate(end) && ValidNow(now)
    ensures hoursNeededForPeriod == NeededHalfHours(ctx, now, start, end)
  {
    hoursNeededForPeriod := 0;
    var days := DaysBetween(start, end);
    var i := 0;
    while i < |days|
      invariant 0 <= i <= |days|
      invariant hoursNeededForPeriod == Scale(ctx.nbHours, RateSum(ctx, now.date, days[..i]))
    {
      NeededStep(ctx, now.date, days, i);
      hoursNeededForPeriod := hoursNeededForPeriod + Scale(ctx.nbHours, HourRateForDay(ctx, now.date, days[i]));
      i := i + 1;
    }
    assert days[..i] == days;
  }

  /**
   * The body of the second loop for one entry: the hours and minutes it
   * adds (its duration, the live estimate of today's open entry, or
   * nothing), or None when that open entry's start time cannot be read.
   */
  method EntryWorked(sheet: TimesheetEntry, start: Date, end: Date, now: Now) returns (r: Option<HoursMinutes>)
    requires ValidDate(start) && ValidDate(end) && ValidNow(now)
    ensures r == Contribution(sheet, start, end, now)
  {
    ghost var expected := Contribution(sheet, start, end, now);
    r := Some(HoursMinutes(0, 0));
    if InRange(sheet, start, end) {
      if sheet.duration.Some? {
        r := Some(sheet.duration.value);
      } else {
        var openToday := !Truthy(sheet.endTime) && DateKey(sheet.date) == DateKey(now.date);
        assert openToday == OpenOn(sheet, now.date) by {
          OpenTodayByKey(sheet, now);
        }
        if openToday {
          var started := ParseTime(sheet.startTime);
          if started.None? {
            return None;
          }
          var hoursWorked := now.hours - started.value.hours;
          var minutesWorked := now.minutes - started.value.minutes;
          if minutesWorked < 0 {
            hoursWorked := hoursWorked - 1;
            minutesWorked := minutesWorked + 60;
          }
          assert HoursMinutes(hoursWorked, minutesWorked) == Elapsed(now, started.value);
          OpenEntryContribution(sheet, start, end, now);
          r := Some(HoursMinutes(hoursWorked, minutesWorked));
        }
      }
    }
    assert r == expected;
  }

  /**
   * One turn of the second loop: what entry j adds, stated through the
   * running sum, which it extends, or fails together with the whole sum.
   */
  method NextEntryWorked(timesheet: seq<TimesheetEntry>, j: nat, start: Date, end: Date, now: Now, ghost acc: HoursMinutes)
    returns (added: Option<HoursMinutes>)
    requires ValidDate(start) && ValidDate(end) && ValidNow(now) && j < |timesheet|
    requires WorkedSum(timesheet[..j], start, end, now) == Some(acc)
    ensures added.Some? ==> WorkedSum(timesheet[..j + 1], start, end, now) == Some(Plus(acc, added.value))
    ensures added.None? ==> WorkedSum(timesheet, start, end, now).None?
  {
    added := EntryWorked(timesheet[j], start, end, now);
    WorkedSumExtend(timesheet, j, start, end, now, acc, added);
  }

  /**
   * The second loop of `getNeededAndWorkedHours`: starting from the carried
   * balance, adds each entry's hours and minutes; None when the open entry
   * of today has an unreadable start time.
   */
  method WorkedHours(now: Now, start: Date, end: Date, timesheet: seq<TimesheetEntry>, carryHours: int, carryMinutes: int)
    returns (r: Option<HoursMinutes>)
    requires ValidDate(start) && ValidDate(end) && ValidNow(now)
    ensures r == AddWorked(Some(HoursMinutes(carryHours, carryMinutes)), WorkedSum(timesheet, start, end, now))
  {
    var hoursWorkedForPeriod, minutesWorkedForPeriod := carryHours, carryMinutes;
    ghost var acc := HoursMinutes(0, 0);
    var j := 0;
    while j < |timesheet|
      invariant 0 <= j <= |timesheet|
      invariant WorkedSum(timesheet[..j], start, end, now) == Some(acc)
      invariant hoursWorkedForPeriod == carryHours + acc.hours && minutesWorkedForPeriod == carryMinutes + acc.minutes
    {
      var added := NextEntryWorked(timesheet, j, start, end, now, acc);
      if added.None? {
        return None;
      }
      acc := Plus(acc, added.value);
      hoursWorkedForPeriod := hoursWorkedForPeriod + added.value.hours;
      minutesWorkedForPeriod := minutesWorkedForPeriod + added.value.minutes;
      j := j + 1;
    }
    WorkedSumComplete(timesheet, j, start, end, now, acc, HoursMinutes(carryHours, carryMinutes));
    r := Some(HoursMinutes(hoursWorkedForPeriod, minutesWorkedForPeriod));
  }

  /** Once the loop has passed every entry, the running sum is the whole sum, added to the carried balance. */
  lemma WorkedSumComplete(timesheet: seq<TimesheetEntry>, j: nat, start: Date, end: Date, now: Now, acc: HoursMinutes, carry: HoursMinutes)
    requires ValidDate(start) && ValidDate(end) && ValidNow(now) && j == |timesheet|
    requires WorkedSum(timesheet[..j], start, end, now) == Some(acc)
    ensures AddWorked(Some(carry), WorkedSum(timesheet, start, end, now)) == Some(Plus(carry, acc))
  {
    assert timesheet[..j] == timesheet;
  }

  /**
   * `getNeededAndWorkedHours(start, end, timesheet, hoursWorkedForPeriod,
   * minutesWorkedForPeriod)`: the needed hours, the worked time from the
   * carried balance, then minutes folded into hours; the carry is echoed.
   */
  method NeededAndWorkedHours(ctx: Context, now: Now, start: Date, end: Date, timesheet: seq<TimesheetEntry>,
                              carryHours: int, carryMinutes: int)
    returns (r: Option<Report>)
    requires ValidDate(start) && ValidDate(end) && ValidNow(now)
    ensures r == Aggregate(ctx, now, start, end, timesheet, HoursMinutes(carryHours, carryMinutes))
    ensures r.Some? ==> r.value.overtimeHours == carryHours && r.value.overtimeMinutes == carryMinutes
    ensures r.Some? ==> r.value.neededHalfHours == Scale(ctx.nbHours, RateSum(ctx, now.date, Days(start, end)))
  {
    var overtimeHours, overtimeMinutes := carryHours, carryMinutes;
    var hoursNeededForPeriod := NeededHours(ctx, now, start, end);
    var worked := WorkedHours(now, start, end, timesheet, carryHours, carryMinutes);
    if worked.None? {
      return None;
    }
    var hoursWorkedForPeriod, minutesWorkedForPeriod := worked.value.hours, worked.value.minutes;
    hoursWorkedForPeriod := hoursWorkedForPeriod + Abs(minutesWorkedForPeriod) / 60;
    minutesWorkedForPeriod := TruncRem(minutesWorkedForPeriod, 60);
    r := Some(Report(hoursWorkedForPeriod, minutesWorkedForPeriod, hoursNeededForPeriod, overtimeHours, overtimeMinutes));
  }
}
