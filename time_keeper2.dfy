/**
 * timeKeeper2.tsx, the live timer page. The component state is a start
 * instant, the pause and resume instants of the session, the text on the
 * clock, the id of the entry already saved, and the date picked in the
 * calendar. Every button handler reads the state as it was when clicked
 * and is modelled as one method; the interval that refreshes the clock
 * is the `UpdateDisplay` method, called with the instant of each tick.
 */
module TimeKeeper2 {
  import opened Wrappers
  import opened JsNumber
  import opened JsString
  import opened PauseList
  import opened TimeEntry
  import Time

  const DateAlert := "Please select a current or past date/time."

  /**
   * date-fns `format(new Date(0, 0, 0, 0, 0, secs), "HH:mm:ss")`: the time
   * of day `secs` seconds after a midnight, so the clock wraps every 24 hours.
   */
  function ClockFace(secs: int): string
  {
    Time.FormatMilliseconds(secs * 1000)
  }

  /** The clock shows the hours within the day, the minutes and the seconds of the elapsed count. */
  lemma ClockFaceShowsTimeOfDay(secs: int)
    requires secs >= 0
    ensures var r := ClockFace(secs);
      && |r| == 8 && r[2] == ':' && r[5] == ':'
      && (forall i :: 0 <= i < 8 && i != 2 && i != 5 ==> IsDigit(r[i]))
      && ParseNat(r[0..2]) == (secs / 3600) % 24
      && ParseNat(r[3..5]) == (secs / 60) % 60
      && ParseNat(r[6..8]) == secs % 60
  {
    var ms := secs * 1000;
    Time.FormatMillisecondsShape(ms);
    DivModUnique(ms, 1000, secs, 0);
    DivModUnique(ms, 60000, secs / 60, (secs % 60) * 1000);
    DivModUnique(ms, 3600000, secs / 3600, (secs % 3600) * 1000);
  }

  /** Whole days, hours within the day and minutes within the hour of a millisecond total. */
  datatype Duration = Duration(days: int, hours: int, minutes: int)

  /** The three fields `formatTimeFromMilliseconds` computes, with JavaScript's `%` and `Math.floor`. */
  function DurationOf(totalMilliseconds: int): Duration
  {
    var totalSeconds := totalMilliseconds / 1000;
    Duration(totalSeconds / 86400, JsRem(totalSeconds, 86400) / 3600, JsRem(totalSeconds, 3600) / 60)
  }

  /** `formatTimeFromMilliseconds`: "D days, H hours, M minutes". */
  function FormatTimeFromMilliseconds(totalMilliseconds: int): string
  {
    var d := DurationOf(totalMilliseconds);
    IntToString(d.days) + " days, " + IntToString(d.hours) + " hours, " + IntToString(d.minutes) + " minutes"
  }

  /**
   * For a non-negative total the hours stay below 24 and the minutes below
   * 60, and the three fields add up to the total's whole minutes.
   */
  lemma DurationOfBounds(totalMilliseconds: int)
    requires totalMilliseconds >= 0
    ensures var d := DurationOf(totalMilliseconds);
      && d.days >= 0 && 0 <= d.hours < 24 && 0 <= d.minutes < 60
      && d.days * 86400 + d.hours * 3600 + d.minutes * 60 <= totalMilliseconds / 1000
      && totalMilliseconds / 1000 < d.days * 86400 + d.hours * 3600 + d.minutes * 60 + 60
  {
    var ts := totalMilliseconds / 1000;
    JsRemOfNonNegative(ts, 86400);
    JsRemOfNonNegative(ts, 3600);
    ModDivNested(ts, 3600, 24);
    ModDivNested(ts, 60, 60);
    var days, hours, minutes := ts / 86400, (ts / 3600) % 24, (ts / 60) % 60;
    assert ts / 3600 == days * 24 + hours by {
      assert ts / 86400 == (ts / 3600) / 24;
    }
    assert ts / 60 == (ts / 3600) * 60 + minutes;
    assert ts == (ts / 60) * 60 + ts % 60;
  }

  /** Start/Pause is disabled until a project and a rate are selected. */
  function StartDisabled(selectedProject: string, selectedRate: string): (disabled: bool)
    ensures !disabled <==> selectedProject != "" && selectedRate != ""
  {
    selectedProject == "" || selectedRate == ""
  }

  class Timer {
    var isRunning: bool
    var startTime: Option<int>
    var pauseTimes: seq<int>
    var resumeTimes: seq<int>
    var displayTime: string
    var currentEntryId: Option<int>
    var startDate: int
    /** `accumulatedTimeRef`: only ever set to 0. */
    var accumulatedTime: int
    var resetMessage: bool
    var dateAlertMessage: Option<string>
    var submissionSuccess: bool
    var submissionError: string

    /**
     * At most one pause is open, none while running; a running timer has
     * a start; pauses and resumes exist only once there is a start.
     */
    ghost predicate Valid()
      reads this
    {
      && ListsConsistent(pauseTimes, resumeTimes)
      && (isRunning ==> startTime.Some? && |pauseTimes| == |resumeTimes|)
      && (startTime.None? ==> pauseTimes == [] && resumeTimes == [])
      && accumulatedTime == 0
    }

    /** Reset is disabled without a start instant. */
    predicate ResetDisabled()
      reads this
    {
      startTime.None?
    }

    /** Submit is disabled while running and without a start instant. */
    predicate SubmitDisabled()
      reads this
    {
      isRunning || startTime.None?
    }

    constructor (now: int)
      ensures Valid()
      ensures !isRunning && startTime == None && pauseTimes == [] && resumeTimes == []
      ensures displayTime == "00:00:00" && currentEntryId == None && startDate == now
      ensures !resetMessage && dateAlertMessage == None && !submissionSuccess && submissionError == ""
    {
      isRunning := false;
      startTime := None;
      pauseTimes := [];
      resumeTimes := [];
      displayTime := "00:00:00";
      currentEntryId := None;
      startDate := now;
      accumulatedTime := 0;
      resetMessage := false;
      dateAlertMessage := None;
      submissionSuccess := false;
      submissionError := "";
    }

    /** `calculateElapsedTime` at the instant `now`. */
    method CalculateElapsedTime(now: int) returns (secs: int)
      ensures secs == ElapsedSeconds(startTime, pauseTimes, resumeTimes, now)
      ensures secs >= 0
      ensures startTime == None ==> secs == 0
      ensures startTime.Some? ==>
        var raw := DiffSeconds(now, startTime.value) - PausedSeconds(pauseTimes, resumeTimes, now, |pauseTimes|);
        (raw >= 0 ==> secs == raw) && (raw < 0 ==> secs == 0)
    {
      secs := PauseList.CalculateElapsedTime(startTime, pauseTimes, resumeTimes, now);
    }

    /** `updateDisplay`: the clock shows the elapsed seconds as a time of day. */
    method UpdateDisplay(now: int)
      modifies this`displayTime
      ensures displayTime == ClockFace(ElapsedSeconds(startTime, pauseTimes, resumeTimes, now))
    {
      var secs := CalculateElapsedTime(now);
      displayTime := ClockFace(secs);
    }

    /**
     * `handleStartStop`. Pausing records the instant as a pause and stops.
     * Starting takes `now` as the start unless a start was picked, records
     * `now` as a resume when a pause is open, and runs.
     */
    method HandleStartStop(now: int)
      requires Valid()
      modifies this
      ensures Valid()
      ensures isRunning == !old(isRunning)
      ensures old(isRunning) ==> pauseTimes == old(pauseTimes) + [now] && resumeTimes == old(resumeTimes)
      ensures old(isRunning) ==> startTime == old(startTime) && Paused() && !SubmitDisabled()
      ensures !old(isRunning) ==> startTime == Some(old(startTime).GetOr(now)) && pauseTimes == old(pauseTimes)
      ensures !old(isRunning) ==> resumeTimes == if old(Paused()) then old(resumeTimes) + [now] else old(resumeTimes)
      ensures displayTime == old(displayTime) && currentEntryId == old(currentEntryId) && startDate == old(startDate)
      ensures accumulatedTime == old(accumulatedTime) && resetMessage == old(resetMessage)
      ensures dateAlertMessage == old(dateAlertMessage)
      ensures submissionSuccess == old(submissionSuccess) && submissionError == old(submissionError)
    {
      if isRunning {
        if startTime.Some? {
          pauseTimes := pauseTimes + [now];
        }
        isRunning := false;
      } else {
        if startTime.None? {
          startTime := Some(now);
        }
        isRunning := true;
        if |pauseTimes| != |resumeTimes| {
          resumeTimes := resumeTimes + [now];
        }
      }
    }

    /** A pause is open: the timer was paused and not resumed since. */
    predicate Paused()
      reads this
    {
      |pauseTimes| == |resumeTimes| + 1
    }

    /** `handleReset`: back to an unstarted timer, the calendar back to `now`. */
    method HandleReset(now: int)
      modifies this
      ensures Valid()
      ensures !isRunning && startTime == None && pauseTimes == [] && resumeTimes == []
      ensures displayTime == "00:00:00" && accumulatedTime == 0 && currentEntryId == None
      ensures resetMessage && startDate == now
      ensures dateAlertMessage == old(dateAlertMessage)
      ensures submissionSuccess == old(submissionSuccess) && submissionError == old(submissionError)
    {
      isRunning := false;
      startTime := None;
      pauseTimes := [];
      resumeTimes := [];
      displayTime := "00:00:00";
      accumulatedTime := 0;
      currentEntryId := None;
      resetMessage := true;
      startDate := now;
    }

    /**
     * `handleDateChange`: a future date only raises the alert; any other
     * date becomes both the calendar date and the start, running or not;
     * a cleared picker puts the calendar back to `now`.
     */
    method HandleDateChange(date: Option<int>, now: int)
      requires Valid()
      modifies this`startDate, this`startTime, this`dateAlertMessage
      ensures Valid()
      ensures date.Some? && date.value > now ==>
        dateAlertMessage == Some(DateAlert) && startTime == old(startTime) && startDate == old(startDate)
      ensures date.Some? && date.value <= now ==>
        startDate == date.value && startTime == date && dateAlertMessage == old(dateAlertMessage)
      ensures date.None? ==>
        startDate == now && startTime == old(startTime) && dateAlertMessage == old(dateAlertMessage)
    {
      match date
      case Some(d) =>
        if d > now {
          dateAlertMessage := Some(DateAlert);
        } else {
          startDate := d;
          startTime := Some(d);
        }
      case None =>
        startDate := now;
    }

    /**
     * `handleSubmit` at the instant `now`, the endpoint answering `reply`.
     * Without a start nothing is sent and nothing changes. Otherwise the
     * total is the unclamped running time in milliseconds, the request
     * updates the remembered entry or creates one, a created entry's id
     * is remembered, and the outcome is reported.
     */
    method HandleSubmit(now: int, reply: Reply) returns (sent: Option<Request>)
      requires Valid()
      modifies this`currentEntryId, this`submissionSuccess, this`submissionError
      ensures Valid()
      ensures old(startTime) == None ==> sent == None
      ensures old(startTime) == None ==>
        currentEntryId == old(currentEntryId) && submissionSuccess == old(submissionSuccess)
        && submissionError == old(submissionError)
      ensures old(startTime).Some? ==> sent == Some(ChooseRequest(old(currentEntryId), old(startTime).value, now,
        SubmittedTotal(0, old(startTime).value, pauseTimes, resumeTimes, now)))
      ensures old(startTime).Some? ==>
        && currentEntryId == EntryIdAfter(old(currentEntryId), sent.value, reply)
        && submissionSuccess == (reply.Saved? || old(submissionSuccess))
        && submissionError == SubmissionErrorText(reply)
    {
      if startTime.None? {
        return None;
      }
      var start := startTime.value;
      var total := SubmittedTotal(accumulatedTime, start, pauseTimes, resumeTimes, now);
      var request := ChooseRequest(currentEntryId, start, now, total);
      sent := Some(request);
      currentEntryId := EntryIdAfter(currentEntryId, request, reply);
      if reply.Saved? {
        submissionSuccess := true;
      }
      submissionError := SubmissionErrorText(reply);
    }
  }
}
