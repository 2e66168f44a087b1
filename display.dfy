/**
 * `formatNeededAndWorkedHours` (script.js): a report is shown as the worked
 * time and the carried-in overtime, each as a `[-]H:MM` label, and the
 * needed hours. `ParseLabel` reads a label back as signed minutes, so what
 * a label SAYS can be compared with the amount it was made from.
 */
module Display {

  import opened Wrappers
  import opened Text
  import opened Calendar
  import opened Periods
  import opened TimeOfDay
  import opened DayRate
  import opened JsArith
  import opened Aggregation
  import opened Overtime

  /**
   * `${negative ? '-' : ''}${Math.abs(h)}:${('0' + Math.abs(m)).slice(-2)}`:
   * one minus sign when either part is negative, then the magnitudes.
   */
  function HoursLabel(hours: int, minutes: int): (s: string)
    ensures |s| >= 4
    ensures s[0] == '-' <==> hours < 0 || minutes < 0
  {
    (if hours < 0 || minutes < 0 then "-" else "") + NatToDecimal(Abs(hours)) + ":" + Pad2(Abs(minutes))
  }

  /** Reads `[-]H:MM` as a signed number of minutes; anything else is None. */
  function ParseLabel(s: string): (r: Option<int>)
    ensures r.Some? ==> (r.value < 0 ==> |s| > 0 && s[0] == '-')
  {
    var negative := |s| > 0 && s[0] == '-';
    var from := if negative then 1 else 0;
    if |s| >= from + 4 && s[|s| - 3] == ':' && AllDigits(s[from..|s| - 3]) && AllDigits(s[|s| - 2..]) then
      var magnitude := ParseDecimal(s[from..|s| - 3]) * 60 + ParseDecimal(s[|s| - 2..]);
      Some(if negative then -magnitude else magnitude)
    else None
  }

  /** What a label made from `hours` and `minutes` says: the magnitudes, signed by the shared minus sign. */
  function LabelReading(hours: int, minutes: int): int
  {
    var magnitude := Abs(hours) * 60 + Abs(minutes) % 100;
    if hours < 0 || minutes < 0 then -magnitude else magnitude
  }

  /** A label is read field by field: the digits before the colon are hours, the two after are minutes. */
  lemma {:induction false} ParseLabelFields(negative: bool, d: string, p: string)
    requires |d| >= 1 && AllDigits(d) && |p| == 2 && AllDigits(p)
    ensures var magnitude := ParseDecimal(d) * 60 + ParseDecimal(p);
      ParseLabel((if negative then "-" else "") + d + ":" + p) == Some(if negative then -magnitude else magnitude)
  {
    var s := (if negative then "-" else "") + d + ":" + p;
    var from := if negative then 1 else 0;
    if !negative {
      assert s[0] == d[0];
    }
    assert s[from..|s| - 3] == d;
    assert s[|s| - 2..] == p;
  }

  /** Every label reads back as its magnitudes under one sign (minutes past 99 keep their last two digits). */
  lemma LabelValue(hours: int, minutes: int)
    ensures ParseLabel(HoursLabel(hours, minutes)) == Some(LabelReading(hours, minutes))
  {
    ParseNatToDecimal(Abs(hours));
    Pad2Value(Abs(minutes));
    ParseLabelFields(hours < 0 || minutes < 0, NatToDecimal(Abs(hours)), Pad2(Abs(minutes)));
  }

  /** A same-signed pair with fewer than 60 minutes reads back as its total. */
  lemma LabelRoundTrip(hours: int, minutes: int)
    requires -60 < minutes < 60
    requires (hours >= 0 && minutes >= 0) || (hours <= 0 && minutes <= 0)
    ensures ParseLabel(HoursLabel(hours, minutes)) == Some(hours * 60 + minutes)
  {
    LabelValue(hours, minutes);
    ReadingOfSameSigned(hours, minutes);
  }

  /** The reading of a same-signed pair with fewer than 60 minutes is its total. */
  lemma ReadingOfSameSigned(hours: int, minutes: int)
    requires -60 < minutes < 60
    requires (hours >= 0 && minutes >= 0) || (hours <= 0 && minutes <= 0)
    ensures LabelReading(hours, minutes) == hours * 60 + minutes
  {
    assert Abs(minutes) % 100 == Abs(minutes);
  }

  /** Any number of minutes, split the way `getOvertime` splits it, labels as itself. */
  lemma SplitLabelRoundTrip(total: int)
    ensures var t := SplitMinutes(total);
      ParseLabel(HoursLabel(t.hours, t.minutes)) == Some(total)
  {
    var t := SplitMinutes(total);
    LabelRoundTrip(t.hours, t.minutes);
  }

  /** `${hoursNeededForPeriod}`: whole hours, with `.5` for an odd number of half hours. */
  function NeededLabel(halfHours: nat): (s: string)
    ensures |s| >= 1 && IsDigit(s[0])
  {
    NatToDecimal(halfHours / 2) + (if halfHours % 2 == 1 then ".5" else "")
  }

  /** Reads a needed-hours label back as half hours. */
  function ParseNeeded(s: string): Option<nat>
  {
    if |s| >= 3 && s[|s| - 2..] == ".5" && AllDigits(s[..|s| - 2]) then Some(ParseDecimal(s[..|s| - 2]) * 2 + 1)
    else if |s| >= 1 && AllDigits(s) then Some(ParseDecimal(s) * 2)
    else None
  }

  /** The needed-hours label reads back as the needed half hours. */
  lemma NeededLabelRoundTrip(halfHours: nat)
    ensures ParseNeeded(NeededLabel(halfHours)) == Some(halfHours)
  {
    var d := NatToDecimal(halfHours / 2);
    var s := NeededLabel(halfHours);
    ParseNatToDecimal(halfHours / 2);
    if halfHours % 2 == 1 {
      assert s[..|s| - 2] == d;
      assert s[|s| - 2..] == ".5";
    } else {
      assert s == d;
      if |s| >= 2 {
        assert IsDigit(s[|s| - 2]);
        assert s[|s| - 2..][0] != '.';
      }
    }
  }

  /** The three pieces of text a report is rendered to (the percentage is not modelled). */
  datatype Rendering = Rendering(overtime: string, worked: string, needed: string)

  /** `formatNeededAndWorkedHours` as written: each pair is labelled exactly as it is stored. */
  function FormatReport(rep: Report): (r: Rendering)
    ensures |r.overtime| >= 4 && |r.worked| >= 4
    ensures r.overtime[0] == '-' <==> rep.overtimeHours < 0 || rep.overtimeMinutes < 0
    ensures r.worked[0] == '-' <==> rep.hoursWorked < 0 || rep.minutesWorked < 0
    ensures ParseNeeded(r.needed) == Some(rep.neededHalfHours)
  {
    NeededLabelRoundTrip(rep.neededHalfHours);
    Rendering(
      HoursLabel(rep.overtimeHours, rep.overtimeMinutes),
      HoursLabel(rep.hoursWorked, rep.minutesWorked),
      NeededLabel(rep.neededHalfHours))
  }

  /** As written, the worked label of any report reads as its worked pair's magnitudes under one sign. */
  lemma WorkedLabelValue(rep: Report)
    ensures ParseLabel(FormatReport(rep).worked) == Some(LabelReading(rep.hoursWorked, rep.minutesWorked))
  {
    assert FormatReport(rep).worked == HoursLabel(rep.hoursWorked, rep.minutesWorked);
    LabelValue(rep.hoursWorked, rep.minutesWorked);
  }

  /** As written, the overtime label of any report reads as its carried pair's magnitudes under one sign. */
  lemma OvertimeLabelValue(rep: Report)
    ensures ParseLabel(FormatReport(rep).overtime) == Some(LabelReading(rep.overtimeHours, rep.overtimeMinutes))
  {
    assert FormatReport(rep).overtime == HoursLabel(rep.overtimeHours, rep.overtimeMinutes);
    LabelValue(rep.overtimeHours, rep.overtimeMinutes);
  }

  /** As written, a report whose pairs are same-signed with fewer than 60 minutes reads back exactly. */
  lemma FormatReadsBack(rep: Report)
    requires -60 < rep.minutesWorked < 60
    requires (rep.hoursWorked >= 0 && rep.minutesWorked >= 0) || (rep.hoursWorked <= 0 && rep.minutesWorked <= 0)
    requires -60 < rep.overtimeMinutes < 60
    requires (rep.overtimeHours >= 0 && rep.overtimeMinutes >= 0) || (rep.overtimeHours <= 0 && rep.overtimeMinutes <= 0)
    ensures ParseLabel(FormatReport(rep).worked) == Some(rep.hoursWorked * 60 + rep.minutesWorked)
    ensures ParseLabel(FormatReport(rep).overtime) == Some(rep.overtimeHours * 60 + rep.overtimeMinutes)
  {
    WorkedLabelValue(rep);
    OvertimeLabelValue(rep);
    ReadingOfSameSigned(rep.hoursWorked, rep.minutesWorked);
    ReadingOfSameSigned(rep.overtimeHours, rep.overtimeMinutes);
  }

  /**
   * The overtime in a carried report's title reads back as the balance of
   * its carry window: `getOvertime` always hands over a same-signed pair.
   */
  lemma {:induction false} CarriedTitleIsCarryBalance(ctx: Context, now: Now, carry: Period, report: Period, entries: seq<TimesheetEntry>)
    requires ValidPeriod(carry) && ValidPeriod(report) && ValidNow(now)
    requires AllWellFormed(entries)
    ensures var rep := CarriedReport(ctx, now, carry, report, entries);
      rep.Some? ==>
        Balance(ctx, now, carry.start, carry.end, entries).Some? &&
        ParseLabel(FormatReport(rep.value).overtime) == Balance(ctx, now, carry.start, carry.end, entries)
  {
    OvertimeIsBalance(ctx, now, carry.start, carry.end, entries);
    var k := Overtime.Overtime(ctx, now, carry.start, carry.end, entries);
    if k.Some? {
      var rep := Aggregate(ctx, now, report.start, report.end, entries, k.value);
      if rep.Some? {
        TitleOfSameSigned(rep.value, k.value);
      }
    }
  }

  /** A report whose overtime is a same-signed pair with |minutes| < 60 shows a title that reads back as that pair's total. */
  lemma TitleOfSameSigned(rep: Report, k: HoursMinutes)
    requires rep.overtimeHours == k.hours && rep.overtimeMinutes == k.minutes
    requires -60 < k.minutes < 60
    requires (k.hours >= 0 && k.minutes >= 0) || (k.hours <= 0 && k.minutes <= 0)
    ensures ParseLabel(FormatReport(rep).overtime) == Some(TotalMinutes(k))
  {
    OvertimeLabelValue(rep);
    ReadingOfSameSigned(k.hours, k.minutes);
    assert LabelReading(rep.overtimeHours, rep.overtimeMinutes) == TotalMinutes(k);
  }

  /**
   * As written, a worked pair of mixed sign is misread: a carry of
   * `-m` minutes (0 < m < 60) and `h` whole hours worked (h >= 1) is
   * stored as `(h, -m)`, worth `h * 60 - m` minutes, but labelled
   * `-h:mm`, which reads as `-(h * 60 + m)`. With h = 2 and m = 30 the
   * view shows -2:30 for an hour and a half.
   */
  lemma {:induction false} MixedSignWorkedMisread(ctx: Context, now: Now, start: Date, end: Date, entries: seq<TimesheetEntry>, carry: HoursMinutes, w: HoursMinutes)
    requires ValidDate(start) && ValidDate(end) && ValidNow(now)
    requires carry.hours == 0 && -60 < carry.minutes < 0
    requires WorkedSum(entries, start, end, now) == Some(w) && w.hours >= 1 && w.minutes == 0
    ensures var rep := Aggregate(ctx, now, start, end, entries, carry);
      rep.Some? &&
      rep.value.hoursWorked * 60 + rep.value.minutesWorked == w.hours * 60 + carry.minutes &&
      ParseLabel(FormatReport(rep.value).worked) == Some(-(w.hours * 60 - carry.minutes))
  {
    AggregateOfMixed(ctx, now, start, end, entries, carry, w);
    WorkedLabelOfMixed(Aggregate(ctx, now, start, end, entries, carry).value);
  }

  /** With such a carry and whole hours worked, the aggregator stores the hours and the carry's minutes as they are. */
  lemma AggregateOfMixed(ctx: Context, now: Now, start: Date, end: Date, entries: seq<TimesheetEntry>, carry: HoursMinutes, w: HoursMinutes)
    requires ValidDate(start) && ValidDate(end) && ValidNow(now)
    requires carry.hours == 0 && -60 < carry.minutes < 0
    requires WorkedSum(entries, start, end, now) == Some(w) && w.minutes == 0
    ensures Aggregate(ctx, now, start, end, entries, carry) ==
      Some(Report(w.hours, carry.minutes, NeededHalfHours(ctx, now, start, end), carry.hours, carry.minutes))
  {
    NormaliseOfMixed(carry, w);
  }

  /** A report whose worked pair has positive hours and negative minutes above -60 shows a worked label read as the negated sum of their magnitudes. */
  lemma WorkedLabelOfMixed(rep: Report)
    requires rep.hoursWorked >= 1 && -60 < rep.minutesWorked < 0
    ensures ParseLabel(FormatReport(rep).worked) == Some(-(rep.hoursWorked * 60 - rep.minutesWorked))
  {
    WorkedLabelValue(rep);
    ReadingOfMixed(rep.hoursWorked, rep.minutesWorked);
  }

  /** Whole hours plus a negative carry below one hour are left as a mixed-sign pair. */
  lemma NormaliseOfMixed(carry: HoursMinutes, w: HoursMinutes)
    requires carry.hours == 0 && -60 < carry.minutes < 0 && w.minutes == 0
    ensures Normalise(Plus(carry, w)) == HoursMinutes(w.hours, carry.minutes)
  {
    assert Abs(carry.minutes) / 60 == 0;
    assert TruncRem(carry.minutes, 60) == carry.minutes;
  }

  /** The pair (2, -30), worth 90 minutes, is labelled like (-2, -30) and reads as -150. */
  lemma MixedSignExample()
    ensures HoursLabel(2, -30) == HoursLabel(-2, -30)
    ensures ParseLabel(HoursLabel(2, -30)) == Some(-150)
  {
    LabelValue(2, -30);
    ReadingOfMixed(2, -30);
  }

  /** A positive hour count with negative minutes reads as the negated sum of their magnitudes. */
  lemma ReadingOfMixed(hours: int, minutes: int)
    requires hours >= 1 && -60 < minutes < 0
    ensures LabelReading(hours, minutes) == -(hours * 60 - minutes)
  {
    assert Abs(minutes) % 100 == -minutes;
  }

  /** Both pairs of a report re-split from their totals, so that each part carries its total's sign. */
  function Resplit(rep: Report): (r: Report)
    ensures r.neededHalfHours == rep.neededHalfHours
    ensures r.hoursWorked * 60 + r.minutesWorked == rep.hoursWorked * 60 + rep.minutesWorked
    ensures r.overtimeHours * 60 + r.overtimeMinutes == rep.overtimeHours * 60 + rep.overtimeMinutes
    ensures -60 < r.minutesWorked < 60 && -60 < r.overtimeMinutes < 60
    ensures (r.hoursWorked >= 0 && r.minutesWorked >= 0) || (r.hoursWorked <= 0 && r.minutesWorked <= 0)
    ensures (r.overtimeHours >= 0 && r.overtimeMinutes >= 0) || (r.overtimeHours <= 0 && r.overtimeMinutes <= 0)
  {
    var worked := SplitMinutes(rep.hoursWorked * 60 + rep.minutesWorked);
    var overtime := SplitMinutes(rep.overtimeHours * 60 + rep.overtimeMinutes);
    Report(worked.hours, worked.minutes, rep.neededHalfHours, overtime.hours, overtime.minutes)
  }

  /** A report whose pairs are already same-signed with fewer than 60 minutes is left as it is. */
  lemma ResplitOfSplit(rep: Report)
    requires -60 < rep.minutesWorked < 60
    requires (rep.hoursWorked >= 0 && rep.minutesWorked >= 0) || (rep.hoursWorked <= 0 && rep.minutesWorked <= 0)
    requires -60 < rep.overtimeMinutes < 60
    requires (rep.overtimeHours >= 0 && rep.overtimeMinutes >= 0) || (rep.overtimeHours <= 0 && rep.overtimeMinutes <= 0)
    ensures Resplit(rep) == rep
  {
    SplitMinutesOfSplit(HoursMinutes(rep.hoursWorked, rep.minutesWorked));
    SplitMinutesOfSplit(HoursMinutes(rep.overtimeHours, rep.overtimeMinutes));
  }

  /** The corrected rendering: the report is re-split before it is labelled, so every label reads back as its total. */
  function CorrectedFormatReport(rep: Report): (r: Rendering)
    ensures ParseLabel(r.worked) == Some(rep.hoursWorked * 60 + rep.minutesWorked)
    ensures ParseLabel(r.overtime) == Some(rep.overtimeHours * 60 + rep.overtimeMinutes)
    ensures ParseNeeded(r.needed) == Some(rep.neededHalfHours)
  {
    FormatReadsBack(Resplit(rep));
    FormatReport(Resplit(rep))
  }

  /** Where the stored pairs are already same-signed, the corrected rendering is the rendering as written. */
  lemma CorrectedAgreesWhenSameSigned(rep: Report)
    requires -60 < rep.minutesWorked < 60
    requires (rep.hoursWorked >= 0 && rep.minutesWorked >= 0) || (rep.hoursWorked <= 0 && rep.minutesWorked <= 0)
    requires -60 < rep.overtimeMinutes < 60
    requires (rep.overtimeHours >= 0 && rep.overtimeMinutes >= 0) || (rep.overtimeHours <= 0 && rep.overtimeMinutes <= 0)
    ensures CorrectedFormatReport(rep) == FormatReport(rep)
  {
    ResplitOfSplit(rep);
  }
}
