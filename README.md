# Time-accounting engine of a Humaans clock-in extension

The extension is a browser popup. It clocks the user in and out against
Humaans timesheet entries. It also shows, for the current month, week and
day, the hours worked against the hours owed, and it carries the overtime
built up before each view into that view. This project models its pure and
sequential core in Dafny and proves properties of that model. The source is
`script.js`.

The model has these parts:

- `Calendar` is the civil calendar the source gets from JavaScript `Date`: leap years, day numbers (1970-01-01 is day 0), `getDay()` weekdays, `new Date(y, m, d)` normalisation (`MakeDay`), day arithmetic and `getDate()`'s `YYYY-MM-DD` key with its inverse.
- `Periods` holds `getWeekDates`, `getMonthDates`, the `daysBetween` walk (a loop with invariants) and the inclusive day lists it produces.
- `DayRate` is `hourRateForDay`. Its rules are checked in order: holiday, non-working weekday, full day away, half day away, then past-or-present. The result is counted in half days, so 0.5 stays exact.
- `Text` and `TimeOfDay` hold decimal rendering, the two-digit padding `('0'+n).slice(-2)`, `split(':')`, string `<`, `getTime()`, reading a start time back, and the `slice(0, -3)` clock label.
- `JsArith` holds JavaScript's `%` and the truncation of `/ … >> 0`, for quotients in the signed 32-bit range.
- `Aggregation` is `getNeededAndWorkedHours`. It has the needed-hours loop, the per-entry worked contribution with the live estimate for an entry open today, the worked-hours loop started from a carried balance, and the final minute normalisation. Each loop is a method proved against a specification function.
- `Overtime` holds `getOvertime`, the signed running balance of a window, the carry windows chosen by `computeWorkedHours`, and what each view then shows.
- `Display` holds the sign and `H:MM` part of `formatNeededAndWorkedHours` and what a reader of those labels recovers.
- `Session` holds the clock state written by `setClock`, `clockIn` and `clockOut` (a class), the button rule, and the scan over today's entries that restores the state when the popup opens.

"Now" is an explicit `Now(date, hours, minutes, seconds)` value in place of the scattered `new Date()` calls. The global `state` that the engine reads (holidays, working days, time-away markers, daily target, carry flag) is a `Context` record.

## Model

| member | source | states |
|---|---|---|
| JsArith.TruncDiv | script.js:295 | within the signed 32-bit range, `x / k >> 0` has magnitude `\|x\| / k` and is zero or takes the sign of x; the wrap outside that range is left out |
| JsArith.TruncRem | script.js:296 | `x % k` satisfies `x == k*q + r` with the truncated quotient, `\|r\| < k`, and r is zero or takes the sign of x |
| Text.NatToDecimal | script.js:398 | the rendering of a number is a non-empty digit string ending in the units digit, one character exactly when the number is below 10 |
| Text.ParseNatToDecimal | script.js:398 | reading a rendered natural number back gives the number |
| Text.IntToDecimal | script.js:398 | a rendered integer starts with '-' exactly when it is negative |
| Text.ParseIntToDecimal | script.js:398 | reading a rendered integer (the year of `getDate`) back gives the integer |
| Text.Pad2 | script.js:398 | the padding yields exactly two digits |
| Text.Pad2IsSlice | script.js:398 | `Pad2(n)` is the last two characters of `'0' + n` |
| Text.Pad2Value | script.js:402 | the padded text reads back as `n % 100` |
| Text.Pad2Small | script.js:402 | below 100, the padded text reads back as n |
| Text.Split | script.js:314 | `split` always yields at least one part |
| Text.SplitAtSeparator | script.js:314 | splitting `a:rest`, with a free of ':', yields a followed by the parts of rest |
| Text.LexLessIrreflexive | script.js:46 | string `<` is irreflexive |
| Text.LexLessTransitive | script.js:46 | string `<` is transitive |
| Text.LexLessTotal | script.js:46 | of two different strings one is `<` the other |
| Text.Pad2Order | script.js:46 | below 100, two padded hours compare with string `<` as the numbers compare |
| Calendar.DaysInMonth | script.js:384 | a month has 28 to 31 days, and February has 29 exactly in a leap year |
| Calendar.Weekday | script.js:357 | `getDay()` is in 0..6 |
| Calendar.DaysBeforeYearClosedForm | script.js:384 | day numbers from the year-by-year count agree with the Gregorian closed form |
| Calendar.DayNumberInjective | script.js:393 | valid dates with the same day number are the same date |
| Calendar.NextDay | script.js:393 | the next day is a valid date one day number later |
| Calendar.PrevDay | script.js:75 | the previous day is a valid date one day number earlier |
| Calendar.AddDays | script.js:75 | adding k days is a valid date k day numbers later |
| Calendar.MakeDay | script.js:373-374 | `new Date(y, m, d)` is a valid date, d - 1 days after the first of month m counted from January of y |
| Calendar.DateKey | script.js:397-399 | the key has a '-' six and three places from its end with two-digit fields between and after, and the year, the month and the day read back from their places |
| Calendar.DateKeyRoundTrip | script.js:397-399 | `getDate`'s key of a valid date parses back to that date |
| Calendar.DateKeyInjective | script.js:397-399 | two valid dates have the same key exactly when they are equal |
| Periods.WeekDates | script.js:369-376 | the week runs from a Monday to the Sunday six days later and contains today |
| Periods.WeekStartIsMonday | script.js:371-373 | going back `day === 0 ? 6 : day - 1` days from any date lands on a Monday |
| Periods.ShiftIsMakeDay | script.js:373 | `new Date(y, m, d + k)` is the date k days after `(y, m, d)` |
| Periods.DaysToSubstract | script.js:372 | for a `getDay()` value the count is between 0 and 6, and going back that many days from that weekday reaches a Monday |
| Periods.MonthDates | script.js:378-387 | the month runs from day 1 to the month's last day (leap years included), spans DaysInMonth days and contains today |
| Periods.MonthBounds | script.js:382-384 | `new Date(y, m, 1)` is the first of the month and `new Date(y, m + 1, 0)` its last day |
| Periods.YearStart | script.js:58 | `new Date('YYYY-01-01')` is a valid date of the given day's year whose day number comes right after all the days of the years before, on or before the given day and less than a year before it |
| Periods.DayRangeAt | script.js:389-395 | the i-th day of the walk is i days after the start |
| Periods.DaysSplit | script.js:389-395 | the days of `[a, c]` are those of `[a, b]` followed by those of `[b+1, c]` |
| Periods.DaysBetween | script.js:389-395 | the loop yields the specification's day list: `end - start + 1` days, the i-th being start + i, when start is not after end; nothing otherwise |
| DayRate.MarkersAreDistinct | script.js:190 | a full-day marker is never a half-day marker, and half-day markers of different days differ |
| DayRate.HalfKey | script.js:190 | a half-day marker never parses as a day key |
| DayRate.OnOrBeforeIsInstantOrder | script.js:364-366 | a day is on or before today exactly when its midnight is not after the current instant, which is `date <= new Date()` |
| DayRate.HourRateForDay | script.js:353-367 | the rate is 0, 1 or 2 halves; a holiday, non-working weekday, full day away or future day gives 0 whatever else holds; 1 exactly for a past-or-present working day with a half-day marker; 2 exactly for a past-or-present working day without one |
| DayRate.OtherDayMarkers | script.js:360-363 | a marker for another day does not change a day's rate |
| DayRate.RateSumAppend | script.js:304-306 | the owed halves of two day lists add up |
| DayRate.FutureDaysOweNothing | script.js:364-366 | days after today owe nothing |
| Aggregation.OpenTodayByKey | script.js:313 | comparing `getDate` keys is comparing dates, so "open and dated today" is decided on dates |
| Aggregation.InRangeIsWalkedDay | script.js:309 | an entry is in [start, end] exactly when its day is one of the days `daysBetween(start, end)` yields |
| Aggregation.Elapsed | script.js:315-320 | the live estimate is now minus the start time in minutes, and its minutes are in [0, 60) after the borrow |
| Aggregation.Contribution | script.js:309-324 | an entry outside the range, a closed entry without duration and an open entry not of today add nothing; an entry in range with a duration adds that duration; an open entry of today adds the elapsed time or fails on an unreadable start time |
| Aggregation.OpenEntryContribution | script.js:313-322 | an open entry of today in range adds exactly the elapsed time since its parsed start |
| Aggregation.OpenEntryExample | script.js:313-322 | an entry started at 09:00:00 and still open at 11:15 adds 2:15 |
| Aggregation.OpenEntryBorrowExample | script.js:313-320 | an entry started at 09:45:00, with an empty end time, adds 1:30 at 11:15, an hour borrowed for the negative minutes |
| Aggregation.AddWorked | script.js:311-312 | adding two contributions fails when either fails and otherwise adds their minutes |
| Aggregation.AddWorkedInterchange | script.js:307-325 | contributions can be regrouped freely |
| Aggregation.WorkedSumSplit | script.js:307-325 | the worked time of `[a, c]` is that of `[a, b]` plus that of `[b+1, c]` |
| Aggregation.WorkedMinutesNonNegative | script.js:307-325 | with well-formed entries, the summed minutes are never negative |
| Aggregation.WorkedSumFailureSticks | script.js:307-325 | once an entry's contribution fails, the whole sum fails |
| Aggregation.Normalise | script.js:326-327 | for minutes above -60 the total is kept; for non-negative minutes the minutes end in [0, 60); for negative minutes, as written, the total gains 120 minutes per whole hour of negative minutes and the minutes end in (-60, 0] |
| Aggregation.ScaleIsProduct | script.js:305 | the needed count is the daily target times the owed halves |
| Aggregation.NeededSplit | script.js:304-306 | the needed halves of `[a, c]` are those of `[a, b]` plus those of `[b+1, c]` |
| Aggregation.NeededHours | script.js:303-306 | the needed-hours loop computes the target times the summed rates over the range's days |
| Aggregation.EntryWorked | script.js:308-324 | the loop body computes the entry's contribution |
| Aggregation.WorkedHours | script.js:300-325 | the worked-hours loop computes carry plus worked sum, and fails exactly when the sum does |
| Aggregation.NeededAndWorkedHours | script.js:300-337 | the aggregator returns the specified report, echoes the carry unchanged as its overtime, and reports the target times the summed rates as needed |
| Aggregation.AggregateReport | script.js:300-337 | the report fails exactly when the worked sum fails; otherwise it holds the needed time, echoes the carry, keeps the worked minutes within an hour, and holds carry plus worked time while their minutes stay above -60 together |
| Overtime.SplitMinutes | script.js:295-296 | the split keeps the total, leaves minutes in (-60, 60), and both parts share the total's sign |
| Overtime.SplitMinutesOfSplit | script.js:295-296 | splitting the total of a same-signed pair gives the pair back |
| Overtime.Overtime | script.js:290-298 | the overtime pair has minutes in (-60, 60) and one sign |
| Overtime.GetOvertime | script.js:290-298 | `getOvertime` computes the specified overtime pair |
| Overtime.ReportArithmetic | script.js:292-293 | the overtime minutes of a report built from a carry above -60 minutes and non-negative worked minutes are the carry plus worked minus needed |
| Overtime.AggregateAddsCarry | script.js:300-337 | a report's overtime, as worked minus needed, is the carried minutes plus the window's balance |
| Overtime.OvertimeIsBalance | script.js:290-298 | `getOvertime` splits the window's balance: same failures, same total |
| Overtime.CarriedReportAddsBalances | script.js:69-83 | a view carried from a window shows the carry window's balance plus its own |
| Overtime.WorkedSumEmptyRange | script.js:309 | a range ending before it starts has no worked time |
| Overtime.BalanceSplit | script.js:290-298 | the balance of `[a, c]` is that of `[a, s-1]` plus that of `[s, c]` |
| Overtime.AdjacentCarryIsRunningBalance | script.js:74-83 | a carry window ending the day before the view gives the running balance from the carry start to the view's end |
| Overtime.PlanAsWritten | script.js:57-83 | the windows as written are valid; the views are the month, the week and today; the month's carry runs from January 1 to the month's first day whatever the flag; the week and day carries end the day before their views and, with `carryOvertime`, start on January 1, otherwise at the start of the month and of the week |
| Overtime.Plan | script.js:57-83 | the corrected windows are valid, each carry ends the day before its view, the views are the month, the week and today, the month's carry starts on January 1, and `carryOvertime` starts the week and day carries on January 1, otherwise at the start of the month and of the week |
| Overtime.PlansDifferInMonthCarry | script.js:69 | the two plans differ only in the month carry's last day |
| Overtime.YearStartFirst | script.js:58 | January 1 is on or before the first of the month, which is on or before today |
| Overtime.PlanShowsRunningBalance | script.js:69-83 | with the corrected windows, the month and day views show the balance since their carry start, and so does the week whenever its carry starts no later than the week |
| Overtime.MonthCarryCountsFirstDayTwice | script.js:69-71 | as written, at UTC offset 0, the month view shows the balance since January 1 plus the first day's balance again |
| Overtime.BalanceWithoutEntries | script.js:290-298 | without entries a window's balance is minus what it owes |
| Overtime.MonthCarryWithoutEntries | script.js:69-71 | without entries, the month view as written shows the balance since January 1 minus what the first of the month owes |
| Overtime.WorkingDayOwes8Hours | script.js:353-367 | with an 8-hour Monday-to-Friday setting, a weekday up to today owes 16 halves |
| Overtime.MonthCarryDropsEightHours | script.js:69-71 | in that setting, when the month starts on a weekday, the month view as written shows 480 minutes less than the balance |
| Overtime.FirstOfMarch2024IsFriday | script.js:357 | 2024-03-01 has `getDay()` 5 |
| Overtime.MonthCarryExample | script.js:69-71 | in that setting, any day of March 2024 shows 480 minutes less than the balance |
| Overtime.ComputeWorkedHours | script.js:56-84 | the month, week and day reports are each the view carried from its (corrected) carry window |
| Overtime.ReportAfterCarry | script.js:69-71 | `getOvertime` on the carry window, then the aggregator from that balance, computes the carried report |
| Display.HoursLabel | script.js:340-349 | an `H:MM` label has at least four characters and starts with '-' exactly when either part is negative |
| Display.ParseLabel | script.js:348-349 | a label that reads as negative starts with '-' |
| Display.LabelValue | script.js:348-349 | a label reads back as ±(\|h\|·60 + \|m\| mod 100), the sign given by either part |
| Display.LabelRoundTrip | script.js:348-349 | a same-signed pair with \|m\| < 60 reads back as its total minutes |
| Display.SplitLabelRoundTrip | script.js:348 | any overtime split by `getOvertime` reads back as its total |
| Display.NeededLabel | script.js:349 | the needed label starts with a digit |
| Display.NeededLabelRoundTrip | script.js:349 | the needed label reads back as the needed halves |
| Display.FormatReport | script.js:339-351 | the title and the worked labels start with '-' exactly when a part is negative, and the needed label reads back as the needed halves |
| Display.WorkedLabelValue | script.js:345-349 | the worked label reads as the value LabelValue gives |
| Display.OvertimeLabelValue | script.js:342-348 | the overtime title reads as the value LabelValue gives |
| Display.FormatReadsBack | script.js:339-351 | same-signed pairs are displayed as their exact totals |
| Display.CarriedTitleIsCarryBalance | script.js:69-83 | a carried view's title reads back as the carry window's balance |
| Display.MixedSignWorkedMisread | script.js:326-349 | a carry of -m minutes (0 < m < 60) with whole hours worked gives the right total but a label that reads negative |
| Display.MixedSignExample | script.js:345-349 | `2:00 - 0:30` is labelled like -2:30 and reads as -150 minutes |
| Display.Resplit | script.js:295-296 | re-splitting keeps every total and makes every pair same-signed |
| Display.ResplitOfSplit | script.js:295-296 | re-splitting a same-signed pair changes nothing |
| Display.CorrectedFormatReport | script.js:339-351 | the corrected labels read back as the exact worked and overtime totals, for every report |
| Display.CorrectedAgreesWhenSameSigned | script.js:339-351 | on same-signed reports the corrected rendering is the original one |
| TimeOfDay.FormatTime | script.js:401-403 | `getTime` is eight characters with ':' at positions 2 and 5 |
| TimeOfDay.SplitTime | script.js:401-403 | splitting a time on ':' yields its three padded fields |
| TimeOfDay.ParseTime | script.js:314-316 | the hour and minute read from a start time are never negative, and a time without ':' has no reading (NaN in the source) |
| TimeOfDay.ParseFormatTime | script.js:314-316 | a time from `getTime` parses back to its hour and minute |
| TimeOfDay.HourFieldOfFormat | script.js:46 | the hour field of a time from `getTime` is its padded hour |
| TimeOfDay.ClockLabel | script.js:260-265 | `slice(0, -3)` drops exactly the last three characters, or gives "" for shorter text |
| TimeOfDay.ClockLabelOfFormat | script.js:260-265 | the label of a time from `getTime` is `HH:MM` |
| Session.ButtonsFor | script.js:240-259 | clock-out shows exactly when an id is active; otherwise clock-in shows exactly when a clock-out time exists and first-clock-in exactly when none does |
| Session.ScanToday | script.js:38-50 | the loop computes the specified scan of today's entries |
| Session.ScanStep | script.js:42-49 | one step takes the running id and start time only from an entry open today and the clock-out time only from an entry closed today, and otherwise keeps them |
| Session.ScanFold | script.js:41-50 | the running id and its start time are found together, and a clock-out time found is never empty |
| Session.ScanKeepsLastOpen | script.js:41-45 | the scan holds an open entry exactly when today has one, and then it holds the last one's id and start |
| Session.ScanPrefixClosed | script.js:46-47 | the scan holds a clock-out time exactly when today has a closed entry |
| Session.ScanKeepsFirstLatestClose | script.js:46-47 | the scan holds a clock-out time exactly when today has a closed entry, and it is the end time of a closed entry whose hour field is greater than every earlier closed entry's and not less than any later one's |
| Session.EndHourOrder | script.js:46 | for times from `getTime`, the hour-string comparison is the numeric hour comparison |
| Session.RestoredButtons | script.js:41-51 | after restoring, clock-out shows exactly when today has an open entry, and clock-in exactly when it has none open but a closed one |
| Session.ClockInAgreesWithRestore | script.js:196-216 | reopening the popup after clocking in restores the same active id and start time |
| Session.ClockSession.constructor | script.js:1 | the clock state starts empty |
| Session.ClockSession.SetClock | script.js:236-266 | the three fields are stored as given; each label is rewritten from its time only when that time is truthy |
| Session.ClockSession.ClockIn | script.js:196-216 | the posted date and start time are today's key and the current time; whatever id the service answered becomes active with that start, the clock-out time is cleared, and only clock-out shows when the id is truthy, only first-clock-in when the response had none |
| Session.ClockSession.ClockOut | script.js:218-234 | the active id is the one closed; the state becomes (null, null, end time) and only clock-in shows |
| Session.ClockSession.Restore | script.js:41-51 | the stored state is the scan of today's entries, labels updated as `setClock` does |

## Left out

- The network calls (`fetchUser`, `fetchJobTitle`, `fetchTimeSheet` with its pagination, `fetchTodayTimeSheet`, `fetchTimeAway`, `fetchHolidayCalendar`) are I/O. Their results are parameters: the entry lists, the `Context` record and the ids that `clockIn` receives.
- The POST and PATCH requests inside `clockIn` and `clockOut` are I/O. Only their effect on the clock state is modelled. `ClockIn` takes the id of the response as a parameter, `None` when the response has none (a rejected request), and returns the date and start time it would post. `ClockOut` returns the id and end time it would patch.
- `chrome.storage`, `chrome.action.setIcon`, the DOM, `init`, `addEventListeners`, `initMainView`'s sequencing and the settings screen are browser glue. The labels that `setClock` writes are kept as fields.
- `percentWorked` and `toFixed(2)` are floating point. When nothing is owed the division gives Infinity or -Infinity, or NaN for 0/0, which `toFixed(2)` shows as "Infinity", "-Infinity" or "NaN".
- The async ordering of `computeWorkedHours` is left out: the three views are computed in sequence from the same entries.
- Time zones and daylight saving time are left out. This covers the UTC parse of `new Date(sheet.date)`, the 24-hour step of `daysBetween` and `new Date('YYYY-01-01')`. Dates are civil dates with day numbers, which is the source at UTC offset 0. Away from offset 0 the UTC parses at script.js:58 and script.js:309 shift the walked days against the local month start of script.js:382. East of UTC the month's first day falls out of the carry window, so the double count of the Findings does not occur. West of UTC the entries of the first parse before the local month start, so they fall only in the carry window and are counted once; the carry walk instead owes December 31 of the previous year, whose entries are counted nowhere, and nothing is counted twice. With day-number dates, the `start === end` disjunct at script.js:309 is covered by the range test.
- Aggregation.Contribution: an entry date is a `Date` value, so the string-to-date parse of `sheet.date` is not modelled. An invalid date is outside every range, as an Invalid Date is in JavaScript.
- A fractional daily target is left out. `nbHours` is a whole number of hours, so needed time is exact in half hours.
- `Number()` on a field is modelled for digit strings and the empty string only. Any other field is a failed reading. JavaScript gives NaN for most of them, and a number for some, such as padded, decimal, exponent or hex text (`" 9"`, `"9.5"`, `"1e1"`, `"0x1A"`); those cases are not modelled. On a failed reading the report is `None`, where the source would display NaN.
- JsArith.TruncDiv: `>> 0` converts to a signed 32-bit integer, so in the source a quotient outside [-2^31, 2^31) wraps modulo 2^32. The model truncates without wrapping. That would take a balance of more than about 2^31 hours.
- Aggregation.Normalise: below -59 accumulated minutes the total is not preserved, as in the source. This cannot happen with well-formed entries and a carry from `getOvertime`.
- Entries are the flat list the code loops over. A timesheet index keyed by date is not part of this model.
- Aggregation.NeededAndWorkedHours is split into `NeededHours`, `EntryWorked` and `WorkedHours`, composed into one method. The loops and their order are unchanged.
- Overtime.ComputeWorkedHours uses the corrected month carry window (see Findings). `PlanAsWritten` keeps the window as written.

## Findings

| source | as written | input that shows it | evidently intended | confidence | as-written member | corrected member |
|---|---|---|---|---|---|---|
| script.js:326-349 | a worked total with negative minutes and positive hours (a negative carry plus whole hours worked) is normalised to `(h, -m)` and then labelled `-h:mm`, since either negative part sets the sign | a carry of -30 minutes plus 2:00 worked: the total is 90 minutes, but the label is "-2:30" | the label shows the total, "1:30" | not executed | Display.MixedSignWorkedMisread, Display.MixedSignExample | Display.CorrectedFormatReport |
| script.js:69-71 | at UTC offset 0 (the model's civil-date idealisation, see the time-zone line under Left out), the month view's carry window is [January 1, first of the month], and the month itself starts on that same first day, so the first day's balance is counted twice | at UTC offset 0: 8-hour Monday-to-Friday target, no entries, any day of March 2024 (March 1 is a Friday): the month view shows 8:00 less overtime than the balance since January 1 | the carry window ends the day before the month, as the week and day windows do | not executed | Overtime.PlanAsWritten, Overtime.MonthCarryCountsFirstDayTwice, Overtime.MonthCarryExample | Overtime.Plan, Overtime.PlanShowsRunningBalance |
