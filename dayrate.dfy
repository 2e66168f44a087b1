/**
 * The day-rate classifier `hourRateForDay` (script.js): the fraction of the
 * daily target owed on one calendar day. Rates are counted in half days
 * (0, 1 or 2 halves, i.e. 0, 0.5 or 1 times the target) so that half days
 * stay exact.
 */
module DayRate {

  import opened Text
  import opened Calendar
  import opened Periods
  import opened TimeOfDay

  /**
   * The configuration and fetched data the classifier and the aggregator read:
   * holiday keys ("YYYY-MM-DD"), the working weekdays (getDay() numbers),
   * the time-away markers (a full day is its key, a half day its key
   * followed by "half"), the daily target in whole hours, and whether
   * overtime is carried from the start of the year.
   */
  datatype Context = Context(
    holidays: set<string>,
    workingDays: seq<int>,
    timeAway: seq<string>,
    nbHours: nat,
    carryOvertime: bool)

  /** The time-away marker of a half day: `${day.date}half`. It never reads as a day's key. */
  function HalfKey(d: Date): (k: string)
    requires ValidDate(d)
    ensures ParseDateKey(k).None?
  {
    var key := DateKey(d);
    var k := key + "half";
    assert k[|k| - 6] == key[|key| - 2..][0];
    k
  }

  /** A full-day marker is never a half-day marker, and half-day markers name their day. */
  lemma MarkersAreDistinct(a: Date, b: Date)
    requires ValidDate(a) && ValidDate(b)
    ensures DateKey(a) != HalfKey(b)
    ensures HalfKey(a) == HalfKey(b) <==> a == b
  {
    var ka, kb := DateKey(a), DateKey(b);
    assert ka[|ka| - 1] == Pad2(a.day)[1];
    assert HalfKey(b)[|HalfKey(b)| - 1] == 'f';
    if HalfKey(a) == HalfKey(b) {
      assert ka == HalfKey(a)[..|HalfKey(a)| - 4];
      assert kb == HalfKey(b)[..|HalfKey(b)| - 4];
      DateKeyInjective(a, b);
    }
  }

  /** `date <= new Date()` for a day at or after midnight: the day is today or earlier. */
  predicate OnOrBefore(d: Date, today: Date)
    requires ValidDate(d) && ValidDate(today)
  {
    DayNumber(d) <= DayNumber(today)
  }

  /**
   * The source compares the day's midnight with the current instant
   * (`date <= new Date()`); counted in seconds from the epoch, that
   * comparison is OnOrBefore.
   */
  lemma OnOrBeforeIsInstantOrder(d: Date, now: Now)
    requires ValidDate(d) && ValidNow(now)
    ensures OnOrBefore(d, now.date) <==>
      DayNumber(d) * 86400 <= DayNumber(now.date) * 86400 + now.hours * 3600 + now.minutes * 60 + now.seconds
  {
    var x := DayNumber(d) - DayNumber(now.date);
    assert DayNumber(d) * 86400 == DayNumber(now.date) * 86400 + x * 86400;
  }

  /** No holiday, a working weekday and no full-day time away: the day can owe hours. */
  predicate Workday(ctx: Context, d: Date)
    requires ValidDate(d)
  {
    DateKey(d) !in ctx.holidays && Weekday(d) in ctx.workingDays && DateKey(d) !in ctx.timeAway
  }

  /**
   * `hourRateForDay(date)` in half days: holiday, non-working weekday and
   * full time away owe nothing; a half-day marker owes one half and any
   * other day owes two halves, but only on days up to today.
   */
  function HourRateForDay(ctx: Context, today: Date, d: Date): (r: nat)
    requires ValidDate(d) && ValidDate(today)
    ensures r <= 2
    ensures DateKey(d) in ctx.holidays ==> r == 0
    ensures Weekday(d) !in ctx.workingDays ==> r == 0
    ensures DateKey(d) in ctx.timeAway ==> r == 0
    ensures !OnOrBefore(d, today) ==> r == 0
    ensures r == 1 <==> Workday(ctx, d) && HalfKey(d) in ctx.timeAway && OnOrBefore(d, today)
    ensures r == 2 <==> Workday(ctx, d) && HalfKey(d) !in ctx.timeAway && OnOrBefore(d, today)
  {
    if DateKey(d) in ctx.holidays then 0
    else if Weekday(d) !in ctx.workingDays then 0
    else if DateKey(d) in ctx.timeAway then 0
    else if HalfKey(d) in ctx.timeAway then (if OnOrBefore(d, today) then 1 else 0)
    else if OnOrBefore(d, today) then 2 else 0
  }

  /** Sum of the rates of the given days, in half days, accumulated first to last. */
  function RateSum(ctx: Context, today: Date, days: seq<Date>): (n: nat)
    requires ValidDate(today) && AllValid(days)
    ensures n <= 2 * |days|
  {
    if days == [] then 0
    else RateSum(ctx, today, days[..|days| - 1]) + HourRateForDay(ctx, today, days[|days| - 1])
  }

  /** Extending a prefix of the days by one day adds that day's rate. */
  lemma RateSumStep(ctx: Context, today: Date, days: seq<Date>, i: nat)
    requires ValidDate(today) && AllValid(days) && i < |days|
    ensures AllValid(days[..i]) && AllValid(days[..i + 1])
    ensures RateSum(ctx, today, days[..i + 1]) == RateSum(ctx, today, days[..i]) + HourRateForDay(ctx, today, days[i])
  {
    assert days[..i + 1][..i] == days[..i];
  }

  /** The rate sum of two consecutive runs of days is the sum of their rate sums. */
  lemma {:induction false} RateSumAppend(ctx: Context, today: Date, a: seq<Date>, b: seq<Date>)
    requires ValidDate(today) && AllValid(a) && AllValid(b)
    ensures AllValid(a + b)
    ensures RateSum(ctx, today, a + b) == RateSum(ctx, today, a) + RateSum(ctx, today, b)
    decreases |b|
  {
    assert AllValid(a + b) by {
      forall i | 0 <= i < |a + b| ensures ValidDate((a + b)[i]) {
        if i >= |a| { assert (a + b)[i] == b[i - |a|]; }
      }
    }
    if b != [] {
      var b' := b[..|b| - 1];
      assert (a + b)[..|a + b| - 1] == a + b';
      assert (a + b)[|a + b| - 1] == b[|b| - 1];
      RateSumAppend(ctx, today, a, b');
    } else {
      assert a + b == a;
    }
  }

  /** Days after today owe nothing, whatever the markers say. */
  lemma {:induction false} FutureDaysOweNothing(ctx: Context, today: Date, days: seq<Date>)
    requires ValidDate(today) && AllValid(days)
    requires forall i :: 0 <= i < |days| ==> DayNumber(days[i]) > DayNumber(today)
    ensures RateSum(ctx, today, days) == 0
  {
    if days != [] {
      FutureDaysOweNothing(ctx, today, days[..|days| - 1]);
    }
  }

  /**
   * A marker for another day never changes a day's rate: adding the full or
   * the half-day marker of a day other than d leaves d's rate as it was.
   */
  lemma OtherDayMarkers(ctx: Context, today: Date, d: Date, other: Date, half: bool)
    requires ValidDate(today) && ValidDate(d) && ValidDate(other) && d != other
    ensures var marker := if half then HalfKey(other) else DateKey(other);
      HourRateForDay(ctx.(timeAway := ctx.timeAway + [marker]), today, d) == HourRateForDay(ctx, today, d)
  {
    MarkersAreDistinct(d, other);
    MarkersAreDistinct(other, d);
    DateKeyInjective(d, other);
  }
}
