/**
 * The overtime balance `getOvertime` (script.js) and the way
 * `computeWorkedHours` chains it into the month, week and day reports: each
 * report starts its worked total from the overtime of an earlier "carry"
 * window, so the overtime it shows is meant to be the balance since the
 * carry window began.
 */
module Overtime {

  import opened Wrappers
  import opened Calendar
  import opened Periods
  import opened TimeOfDay
  import opened DayRate
  import opened JsArith
  import opened Aggregation

  /** A signed number of minutes split as `minutes / 60 >> 0` hours and `minutes % 60` minutes. */
  function SplitMinutes(total: int): (r: HoursMinutes)
    ensures TotalMinutes(r) == total
    ensures -60 < r.minutes < 60
    ensures total >= 0 ==> r.hours >= 0 && r.minutes >= 0
    ensures total <= 0 ==> r.hours <= 0 && r.minutes <= 0
  {
    HoursMinutes(TruncDiv(total, 60), TruncRem(total, 60))
  }

  /** A same-signed pair with fewer than 60 minutes is already split. */
  lemma SplitMinutesOfSplit(t: HoursMinutes)
    requires -60 < t.minutes < 60
    requires (t.hours >= 0 && t.minutes >= 0) || (t.hours <= 0 && t.minutes <= 0)
    ensures SplitMinutes(TotalMinutes(t)) == t
  {
    var total := TotalMinutes(t);
    if total >= 0 {
      assert t.hours >= 0 && t.minutes >= 0;
      assert total / 60 == t.hours && total % 60 == t.minutes;
    } else {
      assert t.hours <= 0 && t.minutes <= 0;
      assert (-total) / 60 == -t.hours && (-total) % 60 == -t.minutes;
    }
  }

  /** Needed time converted from half hours to minutes (`hoursNeededForPeriod * 60`). */
  function HalfHoursToMinutes(halfHours: nat): int
  {
    30 * halfHours
  }

  /** Worked minus needed, in minutes. */
  function Net(worked: HoursMinutes, neededHalfHours: nat): int
  {
    TotalMinutes(worked) - HalfHoursToMinutes(neededHalfHours)
  }

  /**
   * `totalMinutes - hoursNeededForPeriod * 60`: a report's worked minus
   * needed, in minutes. ReportArithmetic relates it to the balances.
   */
  function OvertimeMinutes(rep: Report): int
  {
    Net(HoursMinutes(rep.hoursWorked, rep.minutesWorked), rep.neededHalfHours)
  }

  /** `getOvertime(start, end, timesheet)`: the report of [start, end] with no carry, worked minus needed, split. */
  function Overtime(ctx: Context, now: Now, start: Date, end: Date, entries: seq<TimesheetEntry>): (r: Option<HoursMinutes>)
    requires ValidDate(start) && ValidDate(end) && ValidNow(now)
    ensures r.Some? ==> -60 < r.value.minutes < 60
    ensures r.Some? ==> (r.value.hours >= 0 && r.value.minutes >= 0) || (r.value.hours <= 0 && r.value.minutes <= 0)
  {
    match Aggregate(ctx, now, start, end, entries, HoursMinutes(0, 0))
    case None => None
    case Some(rep) => Some(SplitMinutes(OvertimeMinutes(rep)))
  }

  method GetOvertime(ctx: Context, now: Now, start: Date, end: Date, timesheet: seq<TimesheetEntry>)
    returns (r: Option<HoursMinutes>)
    requires ValidDate(start) && ValidDate(end) && ValidNow(now)
    ensures r == Overtime(ctx, now, start, end, timesheet)
  {
    var result := NeededAndWorkedHours(ctx, now, start, end, timesheet, 0, 0);
    if result.None? {
      return None;
    }
    var rep := result.value;
    var totalMinutes := rep.hoursWorked * 60 + rep.minutesWorked;
    var overtimeMinutes := totalMinutes - rep.neededHalfHours * 30;
    InlineOvertime(rep, overtimeMinutes);
    r := Some(SplitMinutes(overtimeMinutes));
  }

  /** The inline arithmetic of `getOvertime` computes OvertimeMinutes. */
  lemma InlineOvertime(rep: Report, overtimeMinutes: int)
    requires overtimeMinutes == rep.hoursWorked * 60 + rep.minutesWorked - rep.neededHalfHours * 30
    ensures overtimeMinutes == OvertimeMinutes(rep)
  {
  }

  /**
   * The balance of [start, end]: minutes worked minus minutes needed, or
   * None when the worked total cannot be formed.
   */
  function Balance(ctx: Context, now: Now, start: Date, end: Date, entries: seq<TimesheetEntry>): Option<int>
    requires ValidDate(start) && ValidDate(end) && ValidNow(now)
  {
    match WorkedSum(entries, start, end, now)
    case None => None
    case Some(w) => Some(Net(w, NeededHalfHours(ctx, now, start, end)))
  }

  predicate AllWellFormed(entries: seq<TimesheetEntry>)
  {
    forall i :: 0 <= i < |entries| ==> WellFormedEntry(entries[i])
  }

  /** Folding the minutes of carry + worked loses nothing when the carry has more than -60 minutes and the worked minutes are not negative. */
  lemma ReportArithmetic(carry: HoursMinutes, w: HoursMinutes, needed: nat, rep: Report)
    requires -60 < carry.minutes && 0 <= w.minutes
    requires var worked := Normalise(Plus(carry, w));
      rep == Report(worked.hours, worked.minutes, needed, carry.hours, carry.minutes)
    ensures OvertimeMinutes(rep) == TotalMinutes(carry) + Net(w, needed)
  {
    var worked := Normalise(Plus(carry, w));
    assert TotalMinutes(worked) == TotalMinutes(carry) + TotalMinutes(w);
  }

  /**
   * A report started from a balance of more than -60 minutes over
   * well-formed entries shows, as overtime, that balance plus the balance
   * of its own period.
   */
  lemma AggregateAddsCarry(ctx: Context, now: Now, start: Date, end: Date, entries: seq<TimesheetEntry>, carry: HoursMinutes)
    requires ValidDate(start) && ValidDate(end) && ValidNow(now)
    requires AllWellFormed(entries) && -60 < carry.minutes
    ensures Aggregate(ctx, now, start, end, entries, carry).Some? <==> Balance(ctx, now, start, end, entries).Some?
    ensures Aggregate(ctx, now, start, end, entries, carry).Some? ==>
      OvertimeMinutes(Aggregate(ctx, now, start, end, entries, carry).value) ==
      carry.hours * 60 + carry.minutes + Balance(ctx, now, start, end, entries).value
  {
    var w := WorkedSum(entries, start, end, now);
    var needed := NeededHalfHours(ctx, now, start, end);
    WorkedMinutesNonNegative(entries, start, end, now);
    if w.Some? {
      var worked := Normalise(Plus(carry, w.value));
      var rep := Report(worked.hours, worked.minutes, needed, carry.hours, carry.minutes);
      assert Aggregate(ctx, now, start, end, entries, carry) == Some(rep);
      ReportArithmetic(carry, w.value, needed, rep);
      assert Balance(ctx, now, start, end, entries) == Some(Net(w.value, needed));
    } else {
      assert Aggregate(ctx, now, start, end, entries, carry).None?;
      assert Balance(ctx, now, start, end, entries).None?;
    }
  }

  /** Over well-formed entries the overtime is exactly the balance: folding and splitting lose nothing. */
  lemma OvertimeIsBalance(ctx: Context, now: Now, start: Date, end: Date, entries: seq<TimesheetEntry>)
    requires ValidDate(start) && ValidDate(end) && ValidNow(now)
    requires AllWellFormed(entries)
    ensures Overtime(ctx, now, start, end, entries).Some? <==> Balance(ctx, now, start, end, entries).Some?
    ensures Overtime(ctx, now, start, end, entries).Some? ==>
      TotalMinutes(Overtime(ctx, now, start, end, entries).value) == Balance(ctx, now, start, end, entries).value
  {
    var zero := HoursMinutes(0, 0);
    var report := Aggregate(ctx, now, start, end, entries, zero);
    AggregateAddsCarry(ctx, now, start, end, entries, zero);
    if report.Some? {
      var split := SplitMinutes(OvertimeMinutes(report.value));
      assert Overtime(ctx, now, start, end, entries) == Some(split);
    } else {
      assert Overtime(ctx, now, start, end, entries).None?;
    }
  }

  /** The report of [s, c], started from the overtime of the carry window [a, b]; None if either fails. */
  function CarriedReport(ctx: Context, now: Now, carry: Period, report: Period, entries: seq<TimesheetEntry>): Option<Report>
    requires ValidPeriod(carry) && ValidPeriod(report) && ValidNow(now)
  {
    match Overtime(ctx, now, carry.start, carry.end, entries)
    case None => None
    case Some(k) => Aggregate(ctx, now, report.start, report.end, entries, k)
  }

  /** A carried report shows, as overtime, the carry window's balance plus its own. */
  lemma CarriedReportAddsBalances(ctx: Context, now: Now, carry: Period, report: Period, entries: seq<TimesheetEntry>)
    requires ValidPeriod(carry) && ValidPeriod(report) && ValidNow(now)
    requires AllWellFormed(entries)
    ensures CarriedReport(ctx, now, carry, report, entries).Some? <==>
      Balance(ctx, now, carry.start, carry.end, entries).Some? && Balance(ctx, now, report.start, report.end, entries).Some?
    ensures CarriedReport(ctx, now, carry, report, entries).Some? ==>
      OvertimeMinutes(CarriedReport(ctx, now, carry, report, entries).value) ==
      Balance(ctx, now, carry.start, carry.end, entries).value + Balance(ctx, now, report.start, report.end, entries).value
  {
    OvertimeIsBalance(ctx, now, carry.start, carry.end, entries);
    var k := Overtime(ctx, now, carry.start, carry.end, entries);
    if k.Some? {
      AggregateAddsCarry(ctx, now, report.start, report.end, entries, k.value);
    }
  }

  /** No entry lies in an empty range, so its worked total is zero. */
  lemma {:induction false} WorkedSumEmptyRange(entries: seq<TimesheetEntry>, start: Date, end: Date, now: Now)
    requires ValidDate(start) && ValidDate(end) && ValidNow(now)
    requires DayNumber(end) < DayNumber(start)
    ensures WorkedSum(entries, start, end, now) == Some(HoursMinutes(0, 0))
  {
    if entries != [] {
      WorkedSumEmptyRange(entries[..|entries| - 1], start, end, now);
    }
  }

  /**
   * [a, c] is the window [a, s - 1] followed by [s, c], for a <= s <= c:
   * needed time adds up and so does worked time.
   */
  lemma WindowSplit(ctx: Context, now: Now, a: Date, s: Date, c: Date, entries: seq<TimesheetEntry>)
    requires ValidDate(a) && ValidDate(s) && ValidDate(c) && ValidNow(now)
    requires DayNumber(a) <= DayNumber(s) <= DayNumber(c)
    ensures NeededHalfHours(ctx, now, a, c) == NeededHalfHours(ctx, now, a, PrevDay(s)) + NeededHalfHours(ctx, now, s, c)
    ensures WorkedSum(entries, a, c, now) == AddWorked(WorkedSum(entries, a, PrevDay(s), now), WorkedSum(entries, s, c, now))
  {
    var b := PrevDay(s);
    if DayNumber(a) == DayNumber(s) {
      DayNumberInjective(a, s);
      assert Days(a, b) == [];
      WorkedSumEmptyRange(entries, a, b, now);
      AddWorkedZero(WorkedSum(entries, s, c, now));
    } else {
      DayNumberInjective(NextDay(b), s);
      NeededSplit(ctx, now, a, b, c);
      WorkedSumSplit(entries, a, b, c, now);
    }
  }

  /** The balance of [a, c] is the balance of [a, s - 1] plus that of [s, c]. */
  lemma BalanceSplit(ctx: Context, now: Now, a: Date, s: Date, c: Date, entries: seq<TimesheetEntry>)
    requires ValidDate(a) && ValidDate(s) && ValidDate(c) && ValidNow(now)
    requires DayNumber(a) <= DayNumber(s) <= DayNumber(c)
    ensures Balance(ctx, now, a, c, entries).Some? <==>
      Balance(ctx, now, a, PrevDay(s), entries).Some? && Balance(ctx, now, s, c, entries).Some?
    ensures Balance(ctx, now, a, c, entries).Some? ==>
      Balance(ctx, now, a, c, entries).value ==
      Balance(ctx, now, a, PrevDay(s), entries).value + Balance(ctx, now, s, c, entries).value
  {
    var whole, left, right := WorkedSum(entries, a, c, now), WorkedSum(entries, a, PrevDay(s), now), WorkedSum(entries, s, c, now);
    var nWhole, nLeft, nRight := NeededHalfHours(ctx, now, a, c), NeededHalfHours(ctx, now, a, PrevDay(s)), NeededHalfHours(ctx, now, s, c);
    WindowSplit(ctx, now, a, s, c, entries);
    if left.Some? && right.Some? {
      assert whole == Some(Plus(left.value, right.value));
      NetOfSum(left.value, right.value, nLeft, nRight, nWhole);
      assert Balance(ctx, now, a, c, entries) == Some(Net(whole.value, nWhole));
      assert Balance(ctx, now, a, PrevDay(s), entries) == Some(Net(left.value, nLeft));
      assert Balance(ctx, now, s, c, entries) == Some(Net(right.value, nRight));
    } else {
      assert whole.None?;
      assert Balance(ctx, now, a, c, entries).None?;
    }
  }

  /** Net time is additive. */
  lemma NetOfSum(x: HoursMinutes, y: HoursMinutes, n1: nat, n2: nat, n: nat)
    requires n == n1 + n2
    ensures Net(Plus(x, y), n) == Net(x, n1) + Net(y, n2)
  {
  }

  /**
   * A report whose carry window ends the day before it starts shows as
   * overtime the balance of the whole span from the carry window's start.
   */
  lemma AdjacentCarryIsRunningBalance(ctx: Context, now: Now, a: Date, s: Date, c: Date, entries: seq<TimesheetEntry>)
    requires ValidDate(a) && ValidDate(s) && ValidDate(c) && ValidNow(now)
    requires DayNumber(a) <= DayNumber(s) <= DayNumber(c)
    requires AllWellFormed(entries)
    ensures CarriedReport(ctx, now, Period(a, PrevDay(s)), Period(s, c), entries).Some? <==>
      Balance(ctx, now, a, c, entries).Some?
    ensures CarriedReport(ctx, now, Period(a, PrevDay(s)), Period(s, c), entries).Some? ==>
      OvertimeMinutes(CarriedReport(ctx, now, Period(a, PrevDay(s)), Period(s, c), entries).value) ==
      Balance(ctx, now, a, c, entries).value
  {
    var carry, report := Period(a, PrevDay(s)), Period(s, c);
    var r := CarriedReport(ctx, now, carry, report, entries);
    var before, during, whole := Balance(ctx, now, a, PrevDay(s), entries), Balance(ctx, now, s, c, entries), Balance(ctx, now, a, c, entries);
    CarriedReportAddsBalances(ctx, now, carry, report, entries);
    BalanceSplit(ctx, now, a, s, c, entries);
    assert r.Some? <==> before.Some? && during.Some?;
    if r.Some? {
      assert OvertimeMinutes(r.value) == before.value + during.value;
      assert whole.value == before.value + during.value;
    }
  }

  /** The carry and report windows of the month, week and day views. */
  datatype CarryPlan = CarryPlan(
    monthCarry: Period, month: Period,
    weekCarry: Period, week: Period,
    dayCarry: Period, day: Period)

  predicate ValidPlan(p: CarryPlan)
  {
    ValidPeriod(p.monthCarry) && ValidPeriod(p.month) && ValidPeriod(p.weekCarry) &&
    ValidPeriod(p.week) && ValidPeriod(p.dayCarry) && ValidPeriod(p.day)
  }

  /**
   * The windows of `computeWorkedHours` as written: the month's carry is
   * [January 1, first of the month], the week's carry ends the day before
   * the week and the day's carry ends yesterday; with `carryOvertime` the
   * week and day carries start on January 1, otherwise at the start of the
   * month and of the week.
   */
  function PlanAsWritten(carryOvertime: bool, today: Date): (p: CarryPlan)
    requires ValidDate(today)
    ensures ValidPlan(p)
    ensures p.monthCarry.start == YearStart(today) && p.monthCarry.end == p.month.start
    ensures NextDay(p.weekCarry.end) == p.week.start && NextDay(p.dayCarry.end) == p.day.start
    ensures p.month == MonthDates(today) && p.week == WeekDates(today) && p.day == Period(today, today)
    ensures carryOvertime ==> p.weekCarry.start == YearStart(today) && p.dayCarry.start == YearStart(today)
    ensures !carryOvertime ==> p.weekCarry.start == MonthDates(today).start && p.dayCarry.start == WeekDates(today).start
  {
    var m := MonthDates(today);
    var w := WeekDates(today);
    var yearStart := YearStart(m.start);
    DayNumberInjective(NextDay(PrevDay(w.start)), w.start);
    DayNumberInjective(NextDay(PrevDay(today)), today);
    CarryPlan(
      Period(yearStart, m.start), m,
      Period(if carryOvertime then yearStart else m.start, PrevDay(w.start)), w,
      Period(if carryOvertime then yearStart else w.start, PrevDay(today)), Period(today, today))
  }

  /** The same windows with the month's carry ending the day before the month, like the other two. */
  function Plan(carryOvertime: bool, today: Date): (p: CarryPlan)
    requires ValidDate(today)
    ensures ValidPlan(p)
    ensures NextDay(p.monthCarry.end) == p.month.start
    ensures NextDay(p.weekCarry.end) == p.week.start
    ensures NextDay(p.dayCarry.end) == p.day.start
    ensures p.monthCarry.start == YearStart(today) && p.month == MonthDates(today)
    ensures p.week == WeekDates(today) && p.day == Period(today, today)
    ensures carryOvertime ==> p.weekCarry.start == YearStart(today) && p.dayCarry.start == YearStart(today)
    ensures !carryOvertime ==> p.weekCarry.start == MonthDates(today).start && p.dayCarry.start == WeekDates(today).start
  {
    var m := MonthDates(today);
    var w := WeekDates(today);
    var yearStart := YearStart(m.start);
    DayNumberInjective(NextDay(PrevDay(m.start)), m.start);
    DayNumberInjective(NextDay(PrevDay(w.start)), w.start);
    DayNumberInjective(NextDay(PrevDay(today)), today);
    CarryPlan(
      Period(yearStart, PrevDay(m.start)), m,
      Period(if carryOvertime then yearStart else m.start, PrevDay(w.start)), w,
      Period(if carryOvertime then yearStart else w.start, PrevDay(today)), Period(today, today))
  }

  /** The two plans differ only in the end of the month's carry window. */
  lemma PlansDifferInMonthCarry(carryOvertime: bool, today: Date)
    requires ValidDate(today)
    ensures var p, q := PlanAsWritten(carryOvertime, today), Plan(carryOvertime, today);
      p.monthCarry.start == q.monthCarry.start && p.monthCarry.end == NextDay(q.monthCarry.end) &&
      p.month == q.month && p.weekCarry == q.weekCarry && p.week == q.week &&
      p.dayCarry == q.dayCarry && p.day == q.day
  {
  }

  /** January 1 of today's year is on or before the first of the month, and so on or before today. */
  lemma YearStartFirst(today: Date)
    requires ValidDate(today)
    ensures DayNumber(YearStart(today)) <= DayNumber(MonthDates(today).start) <= DayNumber(today)
  {
    MonthsMonotoneTo(today.year, today.month);
  }

  lemma MonthsMonotoneTo(y: int, m: int)
    requires 1 <= m <= 12
    ensures DaysBeforeMonth(y, 1) <= DaysBeforeMonth(y, m)
  {
    if m > 1 {
      MonthsMonotone(y, 1, m);
    }
  }

  /**
   * Under the corrected plan, the month and day views show as overtime the
   * balance from the start of their carry window through the end of the
   * view, and so does the week view whenever the week starts no earlier
   * than its carry window.
   */
  lemma PlanShowsRunningBalance(ctx: Context, now: Now, entries: seq<TimesheetEntry>)
    requires ValidNow(now) && AllWellFormed(entries)
    ensures var p := Plan(ctx.carryOvertime, now.date);
      var month := CarriedReport(ctx, now, p.monthCarry, p.month, entries);
      (month.Some? <==> Balance(ctx, now, p.monthCarry.start, p.month.end, entries).Some?) &&
      (month.Some? ==> OvertimeMinutes(month.value) == Balance(ctx, now, p.monthCarry.start, p.month.end, entries).value)
    ensures var p := Plan(ctx.carryOvertime, now.date);
      var day := CarriedReport(ctx, now, p.dayCarry, p.day, entries);
      (day.Some? <==> Balance(ctx, now, p.dayCarry.start, now.date, entries).Some?) &&
      (day.Some? ==> OvertimeMinutes(day.value) == Balance(ctx, now, p.dayCarry.start, now.date, entries).value)
    ensures var p := Plan(ctx.carryOvertime, now.date);
      var week := CarriedReport(ctx, now, p.weekCarry, p.week, entries);
      DayNumber(p.weekCarry.start) <= DayNumber(p.week.start) ==>
        (week.Some? <==> Balance(ctx, now, p.weekCarry.start, p.week.end, entries).Some?) &&
        (week.Some? ==> OvertimeMinutes(week.value) == Balance(ctx, now, p.weekCarry.start, p.week.end, entries).value)
  {
    var p := Plan(ctx.carryOvertime, now.date);
    var m, w := MonthDates(now.date), WeekDates(now.date);
    YearStartFirst(now.date);
    AdjacentCarryIsRunningBalance(ctx, now, p.monthCarry.start, m.start, m.end, entries);
    AdjacentCarryIsRunningBalance(ctx, now, p.dayCarry.start, now.date, now.date, entries);
    if DayNumber(p.weekCarry.start) <= DayNumber(w.start) {
      AdjacentCarryIsRunningBalance(ctx, now, p.weekCarry.start, w.start, w.end, entries);
    }
  }

  /**
   * As written, the month view's carry window and the month itself share
   * the first of the month, so that day's balance is counted twice (at
   * UTC offset 0, where civil dates are the source's dates).
   */
  lemma MonthCarryCountsFirstDayTwice(ctx: Context, now: Now, entries: seq<TimesheetEntry>)
    requires ValidNow(now) && AllWellFormed(entries)
    ensures var p := PlanAsWritten(ctx.carryOvertime, now.date);
      var month := CarriedReport(ctx, now, p.monthCarry, p.month, entries);
      month.Some? ==>
        Balance(ctx, now, p.monthCarry.start, p.month.end, entries).Some? &&
        Balance(ctx, now, p.month.start, p.month.start, entries).Some? &&
        OvertimeMinutes(month.value) ==
          Balance(ctx, now, p.monthCarry.start, p.month.end, entries).value +
          Balance(ctx, now, p.month.start, p.month.start, entries).value
  {
    var p := PlanAsWritten(ctx.carryOvertime, now.date);
    var y, s, c := p.monthCarry.start, p.month.start, p.month.end;
    YearStartFirst(now.date);
    CarriedReportAddsBalances(ctx, now, p.monthCarry, p.month, entries);
    BalanceSplit(ctx, now, y, s, s, entries);
    BalanceSplit(ctx, now, y, s, c, entries);
  }


  /** With no entries, a window's balance is what it owes, negated. */
  lemma BalanceWithoutEntries(ctx: Context, now: Now, start: Date, end: Date)
    requires ValidDate(start) && ValidDate(end) && ValidNow(now)
    ensures Balance(ctx, now, start, end, []) == Some(-HalfHoursToMinutes(NeededHalfHours(ctx, now, start, end)))
  {
    var w := WorkedSum([], start, end, now);
    assert w.Some? && w.value.hours == 0 && w.value.minutes == 0;
    assert Net(w.value, NeededHalfHours(ctx, now, start, end)) == -HalfHoursToMinutes(NeededHalfHours(ctx, now, start, end));
  }

  /**
   * With no entries at all, the month view as written shows the balance
   * since January 1 minus, a second time, what the first of the month owes.
   */
  lemma MonthCarryWithoutEntries(ctx: Context, now: Now)
    requires ValidNow(now)
    ensures var p := PlanAsWritten(ctx.carryOvertime, now.date);
      var month := CarriedReport(ctx, now, p.monthCarry, p.month, []);
      month.Some? && Balance(ctx, now, p.monthCarry.start, p.month.end, []).Some? &&
      OvertimeMinutes(month.value) ==
        Balance(ctx, now, p.monthCarry.start, p.month.end, []).value -
        HalfHoursToMinutes(NeededHalfHours(ctx, now, p.month.start, p.month.start))
  {
    var p := PlanAsWritten(ctx.carryOvertime, now.date);
    BalanceWithoutEntries(ctx, now, p.month.start, p.month.start);
    BalanceWithoutEntries(ctx, now, p.monthCarry.start, p.monthCarry.end);
    BalanceWithoutEntries(ctx, now, p.month.start, p.month.end);
    CarriedReportAddsBalances(ctx, now, p.monthCarry, p.month, []);
    MonthCarryCountsFirstDayTwice(ctx, now, []);
  }

  /** 2024-03-01 was a Friday. */
  lemma FirstOfMarch2024IsFriday()
    ensures Weekday(Date(2024, 3, 1)) == 5
  {
    DaysBeforeYearClosedForm(2024);
  }

  /** A team setting: an 8-hour target on Monday to Friday, no holidays, no time away, no yearly carry. */
  predicate EightHourWeekdays(ctx: Context)
  {
    ctx.holidays == {} && ctx.workingDays == [1, 2, 3, 4, 5] && ctx.timeAway == [] &&
    ctx.nbHours == 8 && !ctx.carryOvertime
  }

  /** Under that setting, a Monday-to-Friday day up to today owes 8 hours (16 half hours). */
  lemma WorkingDayOwes8Hours(ctx: Context, now: Now, d: Date)
    requires EightHourWeekdays(ctx) && ValidNow(now) && ValidDate(d)
    requires 1 <= Weekday(d) <= 5 && OnOrBefore(d, now.date)
    ensures NeededHalfHours(ctx, now, d, d) == 16
  {
    assert Weekday(d) in ctx.workingDays;
    assert HourRateForDay(ctx, now.date, d) == 2;
    assert Days(d, d) == [d];
    assert RateSum(ctx, now.date, [d]) == 2;
  }

  /**
   * Under that setting and with no entries, whenever the first of the
   * current month falls on Monday to Friday, the month view as written
   * shows 8 hours (480 minutes) less overtime than the balance since
   * January 1.
   */
  lemma MonthCarryDropsEightHours(ctx: Context, now: Now)
    requires EightHourWeekdays(ctx) && ValidNow(now)
    requires 1 <= Weekday(MonthDates(now.date).start) <= 5
    ensures var p := PlanAsWritten(false, now.date);
      var month := CarriedReport(ctx, now, p.monthCarry, p.month, []);
      month.Some? && Balance(ctx, now, p.monthCarry.start, p.month.end, []).Some? &&
      OvertimeMinutes(month.value) == Balance(ctx, now, p.monthCarry.start, p.month.end, []).value - 480
  {
    var first := MonthDates(now.date).start;
    MonthCarryWithoutEntries(ctx, now);
    WorkingDayOwes8Hours(ctx, now, first);
  }

  /**
   * A concrete case of it: 2024-03-01 was a Friday, so on any day of
   * March 2024 (2024-03-15, say) the month view falls 8 hours short. As
   * everywhere in this model, dates are civil dates, which is the source
   * at UTC offset 0; east of UTC the first of the month falls out of the
   * carry window and the shortfall does not occur.
   */
  lemma MonthCarryExample(ctx: Context, now: Now)
    requires EightHourWeekdays(ctx)
    requires ValidNow(now) && now.date.year == 2024 && now.date.month == 3
    ensures var p := PlanAsWritten(false, now.date);
      var month := CarriedReport(ctx, now, p.monthCarry, p.month, []);
      month.Some? && Balance(ctx, now, p.monthCarry.start, p.month.end, []).Some? &&
      OvertimeMinutes(month.value) == Balance(ctx, now, p.monthCarry.start, p.month.end, []).value - 480
  {
    FirstOfMarch2024IsFriday();
    assert 1 <= Weekday(MonthDates(now.date).start) <= 5;
    MonthCarryDropsEightHours(ctx, now);
  }

  /**
   * `computeWorkedHours`: the month, week and day reports, each started from
   * the overtime of its carry window (with the month's carry window ending
   * the day before the month).
   */
  method ComputeWorkedHours(ctx: Context, now: Now, timesheets: seq<TimesheetEntry>)
    returns (month: Option<Report>, week: Option<Report>, day: Option<Report>)
    requires ValidNow(now)
    ensures var p := Plan(ctx.carryOvertime, now.date);
      month == CarriedReport(ctx, now, p.monthCarry, p.month, timesheets) &&
      week == CarriedReport(ctx, now, p.weekCarry, p.week, timesheets) &&
      day == CarriedReport(ctx, now, p.dayCarry, p.day, timesheets)
  {
    var p := Plan(ctx.carryOvertime, now.date);
    month := ReportAfterCarry(ctx, now, p.monthCarry, p.month, timesheets);
    week := ReportAfterCarry(ctx, now, p.weekCarry, p.week, timesheets);
    day := ReportAfterCarry(ctx, now, p.dayCarry, p.day, timesheets);
  }

  /** `getOvertime` over the carry window, then `getNeededAndWorkedHours` over the view from that balance. */
  method ReportAfterCarry(ctx: Context, now: Now, carry: Period, report: Period, timesheets: seq<TimesheetEntry>)
    returns (r: Option<Report>)
    requires ValidPeriod(carry) && ValidPeriod(report) && ValidNow(now)
    ensures r == CarriedReport(ctx, now, carry, report, timesheets)
  {
    var overtime := GetOvertime(ctx, now, carry.start, carry.end, timesheets);
    if overtime.None? {
      return None;
    }
    r := NeededAndWorkedHours(ctx, now, report.start, report.end, timesheets, overtime.value.hours, overtime.value.minutes);
  }
}
