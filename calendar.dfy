/**
 * Calendar days. A day is a proleptic-Gregorian civil date; `DayNumber`
 * maps it to an integer (0 is 1970-01-01, JavaScript's epoch) so that ranges and "on or
 * before" are integer comparisons. `Weekday` is JavaScript's `getDay()`
 * (0 = Sunday), `MakeDay` is the normalisation done by
 * `new Date(year, monthIndex, day)`, and `DateKey` is the "YYYY-MM-DD"
 * string of `getDate` (script.js).
 */
module Calendar {

  import opened Wrappers
  import opened Text

  datatype Date = Date(year: int, month: int, day: int)

  predicate IsLeapYear(y: int)
  {
    y % 4 == 0 && (y % 100 != 0 || y % 400 == 0)
  }

  function DaysInMonth(y: int, m: int): (n: int)
    requires 1 <= m <= 12
    ensures 28 <= n <= 31
    ensures m == 2 ==> (n == 29 <==> IsLeapYear(y))
  {
    if m == 2 then (if IsLeapYear(y) then 29 else 28)
    else if m == 4 || m == 6 || m == 9 || m == 11 then 30
    else 31
  }

  function DaysInYear(y: int): int
  {
    if IsLeapYear(y) then 366 else 365
  }

  predicate ValidDate(d: Date)
  {
    1 <= d.month <= 12 && 1 <= d.day <= DaysInMonth(d.year, d.month)
  }

  /**
   * Days from 1970-01-01 to January 1 of year y (negative before 1970),
   * counted one year at a time; `DaysBeforeYearClosedForm` gives the usual
   * closed form.
   */
  function DaysBeforeYear(y: int): int
    decreases if y < 1970 then 1970 - y else y - 1970
  {
    if y == 1970 then 0
    else if y > 1970 then DaysBeforeYear(y - 1) + DaysInYear(y - 1)
    else DaysBeforeYear(y + 1) - DaysInYear(y)
  }

  /** Days from January 1 to the first day of month m of year y; m == 13 gives the year's length. */
  function DaysBeforeMonth(y: int, m: int): int
    requires 1 <= m <= 13
  {
    var common :=
      if m == 1 then 0 else if m == 2 then 31 else if m == 3 then 59
      else if m == 4 then 90 else if m == 5 then 120 else if m == 6 then 151
      else if m == 7 then 181 else if m == 8 then 212 else if m == 9 then 243
      else if m == 10 then 273 else if m == 11 then 304 else if m == 12 then 334
      else 365;
    common + (if m > 2 && IsLeapYear(y) then 1 else 0)
  }

  function DayNumber(d: Date): int
    requires 1 <= d.month <= 12
  {
    DaysBeforeYear(d.year) + DaysBeforeMonth(d.year, d.month) + d.day - 1
  }

  /** `getDay()`: 0 is Sunday, 1 Monday, ..., 6 Saturday; 1970-01-01 was a Thursday. */
  function Weekday(d: Date): (w: int)
    requires 1 <= d.month <= 12
    ensures 0 <= w < 7
  {
    (DayNumber(d) + 4) % 7
  }

  lemma MonthStep(y: int, m: int)
    requires 1 <= m <= 12
    ensures DaysBeforeMonth(y, m + 1) == DaysBeforeMonth(y, m) + DaysInMonth(y, m)
  {
  }

  lemma MonthsMonotone(y: int, m1: int, m2: int)
    requires 1 <= m1 < m2 <= 13
    ensures DaysBeforeMonth(y, m1) + DaysInMonth(y, m1) <= DaysBeforeMonth(y, m2)
  {
  }

  lemma FullYear(y: int)
    ensures DaysBeforeMonth(y, 13) == DaysInYear(y)
  {
  }

  /** Consecutive years are DaysInYear apart. */
  lemma YearStep(y: int)
    ensures DaysBeforeYear(y + 1) == DaysBeforeYear(y) + DaysInYear(y)
  {
  }

  /** Going from year y - 1 to year y, each of the counts of multiples of 4, 100 and 400 grows exactly when y is one. */
  lemma DivStep(y: int)
    ensures y / 4 - (y - 1) / 4 == if y % 4 == 0 then 1 else 0
    ensures y / 100 - (y - 1) / 100 == if y % 100 == 0 then 1 else 0
    ensures y / 400 - (y - 1) / 400 == if y % 400 == 0 then 1 else 0
  {
  }

  /** A multiple of 400 is a multiple of 100. */
  lemma CenturyOf400(y: int)
    requires y % 400 == 0
    ensures y % 100 == 0
  {
    var k := y / 400;
    assert y == 100 * (4 * k);
  }

  /** A multiple of 100 is a multiple of 4. */
  lemma QuadOfCentury(y: int)
    requires y % 100 == 0
    ensures y % 4 == 0
  {
    var k := y / 100;
    assert y == 4 * (25 * k);
  }

  /** The closed form 365p + p/4 - p/100 + p/400 with p = y - 1 changes by DaysInYear(y) per year. */
  lemma ClosedFormStep(y: int)
    ensures ClosedForm(y + 1) == ClosedForm(y) + DaysInYear(y)
  {
    DivStep(y);
    if y % 400 == 0 {
      CenturyOf400(y);
    }
    if y % 100 == 0 {
      QuadOfCentury(y);
    }
  }

  function ClosedForm(y: int): int
  {
    var p := y - 1;
    365 * p + p / 4 - p / 100 + p / 400
  }

  /** The year-by-year count agrees with the Gregorian closed form for every year. */
  lemma {:induction false} DaysBeforeYearClosedForm(y: int)
    ensures DaysBeforeYear(y) == ClosedForm(y) - ClosedForm(1970)
    decreases if y < 1970 then 1970 - y else y - 1970
  {
    if y > 1970 {
      DaysBeforeYearClosedForm(y - 1);
      ClosedFormStep(y - 1);
    } else if y < 1970 {
      DaysBeforeYearClosedForm(y + 1);
      ClosedFormStep(y);
    }
  }

  lemma {:induction false} YearsMonotone(y1: int, y2: int)
    requires y1 < y2
    ensures DaysBeforeYear(y1 + 1) <= DaysBeforeYear(y2)
    decreases y2 - y1
  {
    if y1 + 1 < y2 {
      YearsMonotone(y1 + 1, y2);
      YearStep(y1 + 1);
    }
  }

  /** A valid date's number lies inside its year. */
  lemma DayNumberInYear(d: Date)
    requires ValidDate(d)
    ensures DaysBeforeYear(d.year) <= DayNumber(d) < DaysBeforeYear(d.year + 1)
  {
    YearStep(d.year);
    FullYear(d.year);
    MonthsMonotone(d.year, d.month, 13);
  }

  /** Distinct valid dates have distinct day numbers. */
  lemma DayNumberInjective(a: Date, b: Date)
    requires ValidDate(a) && ValidDate(b)
    requires DayNumber(a) == DayNumber(b)
    ensures a == b
  {
    DayNumberInYear(a);
    DayNumberInYear(b);
    if a.year < b.year {
      YearsMonotone(a.year, b.year);
    } else if b.year < a.year {
      YearsMonotone(b.year, a.year);
    } else if a.month < b.month {
      MonthsMonotone(a.year, a.month, b.month);
    } else if b.month < a.month {
      MonthsMonotone(a.year, b.month, a.month);
    }
  }

  /** The following calendar day. */
  function NextDay(d: Date): (r: Date)
    requires ValidDate(d)
    ensures ValidDate(r) && DayNumber(r) == DayNumber(d) + 1
  {
    if d.day < DaysInMonth(d.year, d.month) then Date(d.year, d.month, d.day + 1)
    else if d.month < 12 then
      MonthStep(d.year, d.month);
      Date(d.year, d.month + 1, 1)
    else
      YearStep(d.year);
      Date(d.year + 1, 1, 1)
  }

  /** The preceding calendar day. */
  function PrevDay(d: Date): (r: Date)
    requires ValidDate(d)
    ensures ValidDate(r) && DayNumber(r) == DayNumber(d) - 1
  {
    if d.day > 1 then Date(d.year, d.month, d.day - 1)
    else if d.month > 1 then
      MonthStep(d.year, d.month - 1);
      Date(d.year, d.month - 1, DaysInMonth(d.year, d.month - 1))
    else
      YearStep(d.year - 1);
      Date(d.year - 1, 12, 31)
  }

  /** The day k days after d (before it when k < 0): `setDate(getDate() + k)`. */
  function AddDays(d: Date, k: int): (r: Date)
    requires ValidDate(d)
    ensures ValidDate(r) && DayNumber(r) == DayNumber(d) + k
    decreases if k < 0 then -k else k
  {
    if k == 0 then d
    else if k > 0 then AddDays(NextDay(d), k - 1)
    else AddDays(PrevDay(d), k + 1)
  }

  /**
   * `new Date(year, monthIndex, day)`: the month index (0-based, any
   * integer) carries into the year, and the day is counted from the first
   * of that month, so day 0 is the last day of the previous month.
   */
  function MakeDay(year: int, monthIndex: int, day: int): (r: Date)
    ensures ValidDate(r)
    ensures DayNumber(r) == DayNumber(Date(year + monthIndex / 12, monthIndex % 12 + 1, 1)) + day - 1
  {
    AddDays(Date(year + monthIndex / 12, monthIndex % 12 + 1, 1), day - 1)
  }

  /**
   * `getDate(date)`: "YYYY-MM-DD" with the month and day padded to two
   * digits. The year, the month and the day read back from their places
   * in the key; DateKeyRoundTrip reads the whole key back.
   */
  function DateKey(d: Date): (k: string)
    requires ValidDate(d)
    ensures |k| >= 7 && k[|k| - 6] == '-' && k[|k| - 3] == '-'
    ensures AllDigits(k[|k| - 5..|k| - 3]) && AllDigits(k[|k| - 2..])
    ensures ParseInt(k[..|k| - 6]) == Some(d.year)
    ensures ParseDecimal(k[|k| - 5..|k| - 3]) == d.month && ParseDecimal(k[|k| - 2..]) == d.day
  {
    KeyFieldsRoundTrip(d);
    var y, mm, dd := IntToDecimal(d.year), Pad2(d.month), Pad2(d.day);
    var k := y + "-" + mm + "-" + dd;
    assert k[..|k| - 6] == y && k[|k| - 5..|k| - 3] == mm && k[|k| - 2..] == dd;
    k
  }

  /** Reads "Y-MM-DD" back into a date (the year may carry a minus sign). */
  function ParseDateKey(s: string): (r: Option<Date>)
  {
    if |s| < 7 then None
    else
      var year, tail := s[..|s| - 6], s[|s| - 6..];
      if tail[0] == '-' && tail[3] == '-' && AllDigits(tail[1..3]) && AllDigits(tail[4..]) then
        match ParseInt(year)
        case None => None
        case Some(y) => Some(Date(y, ParseDecimal(tail[1..3]), ParseDecimal(tail[4..])))
      else None
  }

  lemma ParseKeyParts(y: string, mm: string, dd: string)
    requires |y| >= 1 && |mm| == 2 && |dd| == 2 && AllDigits(mm) && AllDigits(dd)
    ensures ParseDateKey(y + "-" + mm + "-" + dd) ==
      match ParseInt(y)
      case None => None
      case Some(v) => Some(Date(v, ParseDecimal(mm), ParseDecimal(dd)))
  {
    var s := y + "-" + mm + "-" + dd;
    var tail := "-" + mm + "-" + dd;
    assert s == y + tail;
    assert s[..|s| - 6] == y && s[|s| - 6..] == tail;
    assert tail[1..3] == mm && tail[4..] == dd;
  }

  lemma KeyFieldsRoundTrip(d: Date)
    requires ValidDate(d)
    ensures ParseInt(IntToDecimal(d.year)) == Some(d.year)
    ensures ParseDecimal(Pad2(d.month)) == d.month && ParseDecimal(Pad2(d.day)) == d.day
  {
    ParseIntToDecimal(d.year);
    assert d.month < 100 && d.day < 100;
    Pad2Small(d.month);
    Pad2Small(d.day);
  }

  /** Every key `getDate` produces reads back as the date it came from. */
  lemma DateKeyRoundTrip(d: Date)
    requires ValidDate(d)
    ensures ParseDateKey(DateKey(d)) == Some(d)
  {
    ParseKeyParts(IntToDecimal(d.year), Pad2(d.month), Pad2(d.day));
    KeyFieldsRoundTrip(d);
  }

  /** Two valid dates with the same key are the same date. */
  lemma DateKeyInjective(a: Date, b: Date)
    requires ValidDate(a) && ValidDate(b)
    ensures DateKey(a) == DateKey(b) <==> a == b
  {
    if DateKey(a) == DateKey(b) {
      DateKeyRoundTrip(a);
      DateKeyRoundTrip(b);
    }
  }
}
