/**
 * The clock state of the popup (script.js): which timesheet entry is
 * running, when it started, when today's last session ended, and which of
 * the three clock buttons is offered. The state is restored by scanning
 * today's entries when the popup opens and is rewritten by `setClock`
 * after clocking in or out.
 */
module Session {

  import opened Wrappers
  import opened Text
  import opened Calendar
  import opened TimeOfDay
  import opened Aggregation

  /** Which of the buttons `first-clock-in`, `clock-in` and `clock-out` are shown. */
  datatype Buttons = Buttons(firstClockIn: bool, clockIn: bool, clockOut: bool)

  /**
   * The visibility rule of `setClock`: a running entry offers only
   * clock-out; otherwise clock-in once a session ended today, and
   * first-clock-in before any did.
   */
  function ButtonsFor(active: Option<string>, clockedOutTime: Option<string>): (b: Buttons)
    ensures b.clockOut <==> Truthy(active)
    ensures b.clockIn <==> !Truthy(active) && Truthy(clockedOutTime)
    ensures b.firstClockIn <==> !Truthy(active) && !Truthy(clockedOutTime)
  {
    if !Truthy(active) then
      if Truthy(clockedOutTime) then Buttons(false, true, false) else Buttons(true, false, false)
    else Buttons(false, false, true)
  }

  /** An entry of today that has ended. */
  predicate ClosedOn(e: TimesheetEntry, today: Date)
  {
    e.date == today && Truthy(e.endTime)
  }

  /** `endTime.split(':')[0]`: the hour field of an entry's end time. */
  function EndHour(e: TimesheetEntry): string
    requires e.endTime.Some?
  {
    HourField(e.endTime.value)
  }

  /** The three variables the scan over today's entries updates. */
  datatype ScanState = ScanState(openedId: Option<string>, clockedInTime: Option<string>, clockedOutTime: Option<string>)

  /**
   * One step of the scan: an open entry of today becomes the running one;
   * a closed one replaces the clock-out time when there is none yet or
   * when its hour string compares greater.
   */
  function ScanStep(st: ScanState, e: TimesheetEntry, today: Date): (r: ScanState)
    ensures r.openedId == st.openedId || (OpenOn(e, today) && r.openedId == Some(e.id))
    ensures r.clockedInTime == st.clockedInTime || (OpenOn(e, today) && r.clockedInTime == Some(e.startTime))
    ensures r.clockedOutTime == st.clockedOutTime || (ClosedOn(e, today) && r.clockedOutTime == e.endTime)
  {
    if e.date != today then st
    else if !Truthy(e.endTime) then ScanState(Some(e.id), Some(e.startTime), st.clockedOutTime)
    else if !Truthy(st.clockedOutTime) || LexLess(HourField(st.clockedOutTime.value), EndHour(e)) then
      ScanState(st.openedId, st.clockedInTime, e.endTime)
    else st
  }

  /**
   * The scan over the entries, first to last, from nothing found. The id
   * and the start time are found together, and a clock-out time found is
   * never empty.
   */
  function ScanFold(entries: seq<TimesheetEntry>, today: Date): (r: ScanState)
    ensures r.openedId.Some? <==> r.clockedInTime.Some?
    ensures r.clockedOutTime.Some? ==> Truthy(r.clockedOutTime)
  {
    if entries == [] then ScanState(None, None, None)
    else ScanStep(ScanFold(entries[..|entries| - 1], today), entries[|entries| - 1], today)
  }

  /** The today-scan of `initMainView`, as the loop it is. */
  method ScanToday(todayTimeSheets: seq<TimesheetEntry>, today: Date)
    returns (openedTimesheetId: Option<string>, clockedInTime: Option<string>, clockedOutTime: Option<string>)
    ensures ScanState(openedTimesheetId, clockedInTime, clockedOutTime) == ScanFold(todayTimeSheets, today)
  {
    openedTimesheetId, clockedInTime, clockedOutTime := None, None, None;
    for k := 0 to |todayTimeSheets|
      invariant ScanState(openedTimesheetId, clockedInTime, clockedOutTime) == ScanFold(todayTimeSheets[..k], today)
    {
      var timesheet := todayTimeSheets[k];
      if timesheet.date == today {
        if !Truthy(timesheet.endTime) {
          openedTimesheetId := Some(timesheet.id);
          clockedInTime := Some(timesheet.startTime);
        } else if !Truthy(clockedOutTime) || LexLess(HourField(clockedOutTime.value), HourField(timesheet.endTime.value)) {
          clockedOutTime := timesheet.endTime;
        }
      }
      assert todayTimeSheets[..k + 1][..k] == todayTimeSheets[..k];
    }
    assert todayTimeSheets[..|todayTimeSheets|] == todayTimeSheets;
  }

  /** Among the first n entries, entry i is the last open entry of today, and `st` holds its id and start time. */
  predicate LastOpen(entries: seq<TimesheetEntry>, today: Date, n: int, i: int, st: ScanState)
  {
    0 <= i < n <= |entries| && OpenOn(entries[i], today) &&
    st.openedId == Some(entries[i].id) && st.clockedInTime == Some(entries[i].startTime) &&
    forall j :: i < j < n ==> !OpenOn(entries[j], today)
  }

  /** The scan over the first k entries finds a running entry exactly when one of them is open today, and then the last one. */
  lemma {:induction false} ScanPrefixLastOpen(entries: seq<TimesheetEntry>, today: Date, k: nat)
    requires k <= |entries|
    ensures var st := ScanFold(entries[..k], today);
      (st.openedId.Some? <==> exists i :: 0 <= i < k && OpenOn(entries[i], today)) &&
      (st.openedId.None? ==> st.clockedInTime.None?) &&
      (st.openedId.Some? ==> exists i :: LastOpen(entries, today, k, i, st))
  {
    if k > 0 {
      ScanPrefixLastOpen(entries, today, k - 1);
      var e := entries[k - 1];
      assert entries[..k][..k - 1] == entries[..k - 1];
      var sp, st := ScanFold(entries[..k - 1], today), ScanFold(entries[..k], today);
      assert st == ScanStep(sp, e, today);
      if OpenOn(e, today) {
        assert LastOpen(entries, today, k, k - 1, st);
      } else {
        assert st.openedId == sp.openedId && st.clockedInTime == sp.clockedInTime;
        if sp.openedId.Some? {
          var i :| LastOpen(entries, today, k - 1, i, sp);
          assert LastOpen(entries, today, k, i, st);
        }
      }
    }
  }

  /**
   * The scan finds a running entry exactly when today has an open entry,
   * and then it is the LAST open one, with its start time.
   */
  lemma ScanKeepsLastOpen(entries: seq<TimesheetEntry>, today: Date)
    ensures var st := ScanFold(entries, today);
      (st.openedId.Some? <==> exists i :: 0 <= i < |entries| && OpenOn(entries[i], today)) &&
      (st.openedId.None? ==> st.clockedInTime.None?) &&
      (st.openedId.Some? ==> exists i :: LastOpen(entries, today, |entries|, i, st))
  {
    ScanPrefixLastOpen(entries, today, |entries|);
    assert entries[..|entries|] == entries;
  }

  /**
   * Among the first n entries, entry i is a closed entry of today whose
   * end time is `clockedOutTime`; every earlier closed entry has a smaller
   * hour field, no later one a greater.
   */
  predicate FirstLatest(entries: seq<TimesheetEntry>, today: Date, n: int, i: int, clockedOutTime: Option<string>)
  {
    0 <= i < n <= |entries| && ClosedOn(entries[i], today) && clockedOutTime == entries[i].endTime &&
    (forall j :: 0 <= j < i && ClosedOn(entries[j], today) ==> LexLess(EndHour(entries[j]), EndHour(entries[i]))) &&
    (forall j :: i < j < n && ClosedOn(entries[j], today) ==> !LexLess(EndHour(entries[i]), EndHour(entries[j])))
  }

  /** The scan over the first k entries finds a clock-out time exactly when one of them is a closed entry of today. */
  lemma {:induction false} ScanPrefixClosed(entries: seq<TimesheetEntry>, today: Date, k: nat)
    requires k <= |entries|
    ensures ScanFold(entries[..k], today).clockedOutTime.Some? <==> exists i :: 0 <= i < k && ClosedOn(entries[i], today)
  {
    if k > 0 {
      ScanPrefixClosed(entries, today, k - 1);
      assert entries[..k][..k - 1] == entries[..k - 1];
      if ClosedOn(entries[k - 1], today) {
        assert ScanFold(entries[..k], today).clockedOutTime.Some?;
      }
    }
  }

  /** The scan over the first k entries keeps the first closed entry with the greatest hour among them. */
  lemma {:induction false} ScanPrefixFirstLatest(entries: seq<TimesheetEntry>, today: Date, k: nat)
    requires k <= |entries|
    ensures var st := ScanFold(entries[..k], today);
      st.clockedOutTime.Some? ==> exists i :: FirstLatest(entries, today, k, i, st.clockedOutTime)
  {
    if k > 0 {
      var m := k - 1;
      ScanPrefixFirstLatest(entries, today, m);
      var e := entries[m];
      assert entries[..k][..m] == entries[..m];
      var sp, st := ScanFold(entries[..m], today), ScanFold(entries[..k], today);
      assert st == ScanStep(sp, e, today);
      if sp.clockedOutTime.None? {
        if ClosedOn(e, today) {
          ScanPrefixClosed(entries, today, m);
          FirstClose(entries, today, m);
        }
      } else {
        var i :| FirstLatest(entries, today, m, i, sp.clockedOutTime);
        assert HourField(sp.clockedOutTime.value) == EndHour(entries[i]);
        if ClosedOn(e, today) && LexLess(EndHour(entries[i]), EndHour(e)) {
          NewLatestClose(entries, today, m, i);
        } else {
          LatestCloseKept(entries, today, m, i);
        }
      }
    }
  }

  /** The first closed entry of today is the first latest so far. */
  lemma FirstClose(entries: seq<TimesheetEntry>, today: Date, k: int)
    requires 0 <= k < |entries| && ClosedOn(entries[k], today)
    requires !exists j :: 0 <= j < k && ClosedOn(entries[j], today)
    ensures FirstLatest(entries, today, k + 1, k, entries[k].endTime)
  {
  }

  /** An entry that is not closed today, or whose hour does not beat the first latest, leaves it in place. */
  lemma LatestCloseKept(entries: seq<TimesheetEntry>, today: Date, k: int, i: int)
    requires 0 <= i < k < |entries|
    requires FirstLatest(entries, today, k, i, entries[i].endTime)
    requires ClosedOn(entries[k], today) ==> !LexLess(EndHour(entries[i]), EndHour(entries[k]))
    ensures FirstLatest(entries, today, k + 1, i, entries[i].endTime)
  {
  }

  /** A closed entry whose hour beats the first latest one so far becomes the first latest. */
  lemma NewLatestClose(entries: seq<TimesheetEntry>, today: Date, k: int, i: int)
    requires 0 <= i < k < |entries| && ClosedOn(entries[k], today)
    requires FirstLatest(entries, today, k, i, entries[i].endTime)
    requires LexLess(EndHour(entries[i]), EndHour(entries[k]))
    ensures FirstLatest(entries, today, k + 1, k, entries[k].endTime)
  {
    forall j | 0 <= j < k && ClosedOn(entries[j], today)
      ensures LexLess(EndHour(entries[j]), EndHour(entries[k]))
    {
      if j < i {
        LexLessTransitive(EndHour(entries[j]), EndHour(entries[i]), EndHour(entries[k]));
      } else if j > i && EndHour(entries[j]) != EndHour(entries[i]) {
        LexLessTotal(EndHour(entries[j]), EndHour(entries[i]));
        LexLessTransitive(EndHour(entries[j]), EndHour(entries[i]), EndHour(entries[k]));
      }
    }
  }

  /**
   * The scan finds a clock-out time exactly when today has a closed entry,
   * and then it is the end time of the FIRST closed entry whose hour field
   * is greatest in string order: every earlier closed entry has a smaller
   * hour, no later one a greater.
   */
  lemma ScanKeepsFirstLatestClose(entries: seq<TimesheetEntry>, today: Date)
    ensures var st := ScanFold(entries, today);
      (st.clockedOutTime.Some? <==> exists i :: 0 <= i < |entries| && ClosedOn(entries[i], today)) &&
      (st.clockedOutTime.Some? ==> exists i :: FirstLatest(entries, today, |entries|, i, st.clockedOutTime))
  {
    ScanPrefixClosed(entries, today, |entries|);
    ScanPrefixFirstLatest(entries, today, |entries|);
    assert entries[..|entries|] == entries;
  }

  /** On end times written by `getTime`, the scan's hour comparison is the numeric order of the hours. */
  lemma EndHourOrder(h1: nat, m1: nat, s1: nat, h2: nat, m2: nat, s2: nat)
    requires h1 < 100 && h2 < 100
    ensures LexLess(HourField(FormatTime(h1, m1, s1)), HourField(FormatTime(h2, m2, s2))) <==> h1 < h2
  {
    HourFieldOfFormat(h1, m1, s1);
    HourFieldOfFormat(h2, m2, s2);
    Pad2Order(h1, h2);
  }

  /**
   * The buttons shown after restoring from today's entries (whose ids are
   * never empty): clock-out while an entry is open, clock-in once one has
   * closed, first-clock-in otherwise.
   */
  lemma RestoredButtons(entries: seq<TimesheetEntry>, today: Date)
    requires forall i :: 0 <= i < |entries| ==> entries[i].id != ""
    ensures var st := ScanFold(entries, today);
      var b := ButtonsFor(st.openedId, st.clockedOutTime);
      (b.clockOut <==> exists i :: 0 <= i < |entries| && OpenOn(entries[i], today)) &&
      (b.clockIn <==>
        (forall i :: 0 <= i < |entries| ==> !OpenOn(entries[i], today)) &&
        (exists i :: 0 <= i < |entries| && ClosedOn(entries[i], today)))
  {
    var st := ScanFold(entries, today);
    ScanKeepsLastOpen(entries, today);
    ScanKeepsFirstLatestClose(entries, today);
    if st.openedId.Some? {
      var i :| LastOpen(entries, today, |entries|, i, st);
      assert Truthy(st.openedId);
    }
    if st.clockedOutTime.Some? {
      var i :| FirstLatest(entries, today, |entries|, i, st.clockedOutTime);
      assert Truthy(st.clockedOutTime);
    }
  }

  /**
   * Clocking in and then reopening the popup agree: the scan over today's
   * entries plus the new one finds the new entry running, and the same
   * single clock-out button is shown.
   */
  lemma ClockInAgreesWithRestore(entries: seq<TimesheetEntry>, today: Date, id: string, startTime: string)
    requires id != ""
    ensures var st := ScanFold(entries + [TimesheetEntry(id, today, startTime, None, None)], today);
      st.openedId == Some(id) && st.clockedInTime == Some(startTime) &&
      ButtonsFor(st.openedId, st.clockedOutTime) == ButtonsFor(Some(id), None)
  {
    var all := entries + [TimesheetEntry(id, today, startTime, None, None)];
    assert all[..|all| - 1] == entries;
  }

  /**
   * The popup's clock state (`state.currentActiveTimeSheet`,
   * `state.clockedInTime`, `state.clockedOutTime`) and the two clock
   * texts, which keep their last value unless rewritten.
   */
  class ClockSession {
    var currentActiveTimeSheet: Option<string>
    var clockedInTime: Option<string>
    var clockedOutTime: Option<string>
    var clockedInAt: string
    var clockedOutAt: string

    constructor ()
      ensures currentActiveTimeSheet == None && clockedInTime == None && clockedOutTime == None
      ensures clockedInAt == "" && clockedOutAt == ""
    {
      currentActiveTimeSheet, clockedInTime, clockedOutTime := None, None, None;
      clockedInAt, clockedOutAt := "", "";
    }

    /** The buttons shown for the current state. */
    function Visible(): Buttons
      reads this
    {
      ButtonsFor(currentActiveTimeSheet, clockedOutTime)
    }

    /** `setClock`: stores the three fields and rewrites a clock text only when its time is truthy. */
    method SetClock(active: Option<string>, inTime: Option<string>, outTime: Option<string>)
      modifies this
      ensures currentActiveTimeSheet == active && clockedInTime == inTime && clockedOutTime == outTime
      ensures clockedInAt == (if Truthy(inTime) then ClockLabel(inTime.value) else old(clockedInAt))
      ensures clockedOutAt == (if Truthy(outTime) then ClockLabel(outTime.value) else old(clockedOutAt))
    {
      currentActiveTimeSheet := active;
      clockedInTime := inTime;
      clockedOutTime := outTime;
      if Truthy(inTime) {
        clockedInAt := ClockLabel(inTime.value);
      }
      if Truthy(outTime) {
        clockedOutAt := ClockLabel(outTime.value);
      }
    }

    /**
     * `clockIn`: the date key and start time it posts for `now`, then
     * `setClock(record.id, startTime, null)` with whatever id the service
     * answered (None when the response carries no id), which it returns.
     */
    method ClockIn(now: Now, recordId: Option<string>) returns (date: string, startTime: string, id: Option<string>)
      requires ValidNow(now)
      modifies this
      ensures date == DateKey(now.date) && startTime == FormatTime(now.hours, now.minutes, now.seconds) && id == recordId
      ensures currentActiveTimeSheet == recordId && clockedInTime == Some(startTime) && clockedOutTime == None
      ensures clockedInAt == Pad2(now.hours) + ":" + Pad2(now.minutes) && clockedOutAt == old(clockedOutAt)
      ensures Truthy(recordId) ==> Visible() == Buttons(false, false, true)
      ensures !Truthy(recordId) ==> Visible() == Buttons(true, false, false)
    {
      date := DateKey(now.date);
      startTime := FormatTime(now.hours, now.minutes, now.seconds);
      SetClock(recordId, Some(startTime), None);
      ClockLabelOfFormat(now.hours, now.minutes, now.seconds);
      id := recordId;
    }

    /**
     * `clockOut`: the running entry it closes and the end time it sends,
     * and `setClock(null, null, endTime)`. The clocked-in text is left as
     * it was.
     */
    method ClockOut(now: Now) returns (closedId: Option<string>, endTime: string)
      requires ValidNow(now)
      modifies this
      ensures closedId == old(currentActiveTimeSheet) && endTime == FormatTime(now.hours, now.minutes, now.seconds)
      ensures currentActiveTimeSheet == None && clockedInTime == None && clockedOutTime == Some(endTime)
      ensures clockedInAt == old(clockedInAt) && clockedOutAt == Pad2(now.hours) + ":" + Pad2(now.minutes)
      ensures Visible() == Buttons(false, true, false)
    {
      closedId := currentActiveTimeSheet;
      endTime := FormatTime(now.hours, now.minutes, now.seconds);
      SetClock(None, None, Some(endTime));
      ClockLabelOfFormat(now.hours, now.minutes, now.seconds);
    }

    /** `initMainView`'s restore: scan today's entries, then `setClock` with what was found. */
    method Restore(todayTimeSheets: seq<TimesheetEntry>, today: Date)
      modifies this
      ensures ScanState(currentActiveTimeSheet, clockedInTime, clockedOutTime) == ScanFold(todayTimeSheets, today)
      ensures clockedInAt == (if Truthy(clockedInTime) then ClockLabel(clockedInTime.value) else old(clockedInAt))
      ensures clockedOutAt == (if Truthy(clockedOutTime) then ClockLabel(clockedOutTime.value) else old(clockedOutAt))
    {
      var openedTimesheetId, inTime, outTime := ScanToday(todayTimeSheets, today);
      SetClock(openedTimesheetId, inTime, outTime);
    }
  }
}
