/**
 * Clock times. `Now` is the instant the engine reads from `new Date()`,
 * passed in explicitly. `FormatTime` is `getTime` ("HH:MM:SS", each field
 * padded to two digits) and `ParseTime` is the `startTime.split(':')`
 * read-back of hours and minutes done when an open entry is measured.
 */
module TimeOfDay {

  import opened Wrappers
  import opened Text
  import opened Calendar

  /** The current day and local time of day. */
  datatype Now = Now(date: Date, hours: int, minutes: int, seconds: int)

  predicate ValidNow(now: Now)
  {
    ValidDate(now.date) && 0 <= now.hours < 24 && 0 <= now.minutes < 60 && 0 <= now.seconds < 60
  }

  /** `getTime(date)`: "HH:MM:SS". */
  function FormatTime(hours: nat, minutes: nat, seconds: nat): (s: string)
    ensures |s| == 8 && s[2] == ':' && s[5] == ':'
  {
    Pad2(hours) + ":" + Pad2(minutes) + ":" + Pad2(seconds)
  }

  /** A clock reading as hours and minutes. */
  datatype Clock = Clock(hours: int, minutes: int)

  /**
   * The hours and minutes fields of `time.split(':')`, each converted to a
   * number by the subtraction that uses them. A missing minutes field or a
   * field that is not a run of digits gives None (JavaScript produces NaN);
   * an empty field reads as 0, as `Number("")` does.
   */
  function ParseTime(time: string): (r: Option<Clock>)
    ensures r.Some? ==> r.value.hours >= 0 && r.value.minutes >= 0
    ensures ':' !in time ==> r.None?
  {
    var fields := Split(time, ':');
    assert ':' !in time ==> |fields| == 1 by {
      if ':' !in time {
        SplitNoSeparator(time, ':');
      }
    }
    if |fields| >= 2 && AllDigits(fields[0]) && AllDigits(fields[1])
    then Some(Clock(ParseDecimal(fields[0]), ParseDecimal(fields[1])))
    else None
  }

  lemma SplitTime(h: nat, m: nat, s: nat)
    ensures Split(FormatTime(h, m, s), ':') == [Pad2(h), Pad2(m), Pad2(s)]
  {
    DigitsHaveNoColon(Pad2(h));
    DigitsHaveNoColon(Pad2(m));
    DigitsHaveNoColon(Pad2(s));
    assert FormatTime(h, m, s) == Pad2(h) + [':'] + (Pad2(m) + [':'] + Pad2(s));
    SplitAtSeparator(Pad2(h), ':', Pad2(m) + [':'] + Pad2(s));
    SplitAtSeparator(Pad2(m), ':', Pad2(s));
    SplitNoSeparator(Pad2(s), ':');
  }

  /** A start time written by `getTime` reads back as the hour and minute it was written from. */
  lemma ParseFormatTime(h: nat, m: nat, s: nat)
    requires h < 100 && m < 100
    ensures ParseTime(FormatTime(h, m, s)) == Some(Clock(h, m))
  {
    SplitTime(h, m, s);
    Pad2Small(h);
    Pad2Small(m);
    ParseTimeOfFields(FormatTime(h, m, s), [Pad2(h), Pad2(m), Pad2(s)]);
  }

  /** A time that splits into at least two digit fields reads as those two numbers. */
  lemma ParseTimeOfFields(time: string, fields: seq<string>)
    requires Split(time, ':') == fields && |fields| >= 2 && AllDigits(fields[0]) && AllDigits(fields[1])
    ensures ParseTime(time) == Some(Clock(ParseDecimal(fields[0]), ParseDecimal(fields[1])))
  {
  }

  /** The first field of `time.split(':')`: the hour string compared during the start-up scan. */
  function HourField(time: string): string
  {
    Split(time, ':')[0]
  }

  lemma HourFieldOfFormat(h: nat, m: nat, s: nat)
    ensures HourField(FormatTime(h, m, s)) == Pad2(h)
  {
    SplitTime(h, m, s);
  }

  /** `time.slice(0, -3)`: drops the last three characters (the seconds) for display. */
  function ClockLabel(time: string): (shown: string)
    ensures |time| >= 3 ==> time == shown + time[|time| - 3..]
    ensures |time| < 3 ==> shown == ""
  {
    if |time| >= 3 then time[..|time| - 3] else ""
  }

  /** The label of a `getTime` string is "HH:MM". */
  lemma ClockLabelOfFormat(h: nat, m: nat, s: nat)
    ensures ClockLabel(FormatTime(h, m, s)) == Pad2(h) + ":" + Pad2(m)
  {
    var t := FormatTime(h, m, s);
    assert t == (Pad2(h) + ":" + Pad2(m)) + (":" + Pad2(s));
  }
}
