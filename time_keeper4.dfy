/**
 * timeKeeper4.tsx, an earlier draft of the pause-list timer page. Its
 * state and handlers are those of timeKeeper2.tsx except that Reset does
 * not move the calendar, a future date is refused with a browser alert
 * instead of a message in the page, and Start also needs a user to be
 * selected. The elapsed-time, clock, duration-text and entry logic is the
 * same code and is shared with `TimeKeeper2`; `Timer.CalculateElapsedTime`
 * repeats timeKeeper2.tsx's method because the page repeats it.
 */
module TimeKeeper4 {
  import opened Wrappers
  import opened PauseList
  import opened TimeEntry
  import TimeKeeper2

  /** Start/Pause is disabled until a user, a project and a rate are selected. */
  function StartDisabled(selectedUser: string, selectedProject: string, selectedRate: string): (disabled: bool)
    ensures !disabled <==> selectedUser != "" && selectedProject != "" && selectedRate != ""
  {
    selectedUser == "" || selectedProject == "" || selectedRate == ""
  }

  class Timer {
    var isRunning: bool
    var startTime: Option<int>
    var pauseTimes: seq<int>
    var resumeTimes: seq<int>
    var displayTime: string
    var currentEntryId: Option<int>
    var startDate: int
    /** `accumulatedTimeRef`: only ever set to 0. */
    var accumulatedTime: int
    var resetMessage: bool
    var submissionSuccess: bool
    var submissionError: string

    /**
     * At most one pause is open, none while running; a running timer has
     * a start; pauses and resumes exist only once there is a start.
     */
    ghost predicate Valid()
      reads this
    {
      && ListsConsistent(pauseTimes, resumeTimes)
      && (isRunning ==> startTime.Some? && |pauseTimes| == |resumeTimes|)
      && (startTime.None? ==> pauseTimes == [] && resumeTimes == [])
      && accumulatedTime == 0
    }

    /** Reset is disabled without a start instant. */
    predicate ResetDisabled()
      reads this
    {
      startTime.None?
    }

    /**
     * Submit is disabled while running and without a start instant, so an
     * enabled Submit always sends.
     */
    predicate SubmitDisabled()
      reads this
    {
      isRunning || startTime.None?
    }

    constructor (now: int)
      ensures Valid()
      ensures !isRunning && startTime == None && pauseTimes == [] && resumeTimes == []
      ensures displayTime == "00:00:00" && currentEntryId == None && startDate == now
      ensures !resetMessage && !submissionSuccess && submissionError == ""
    {
      isRunning := false;
      startTime := None;
      pauseTimes := [];
      resumeTimes := [];
      displayTime := "00:00:00";
      currentEntryId := None;
      startDate := now;
      accumulatedTime := 0;
      resetMessage := false;
      submissionSuccess := false;
      submissionError := "";
    }

    /** `calculateElapsedTime` at the instant `now`. */
    method CalculateElapsedTime(now: int) returns (secs: int)
      ensures secs == ElapsedSeconds(startTime, pauseTimes, resumeTimes, now)
      ensures secs >= 0
      ensures startTime == None ==> secs == 0
      ensures startTime.Some? ==>
        var raw := DiffSeconds(now, startTime.value) - PausedSeconds(pauseTimes, resumeTimes, now, |pauseTimes|);
        (raw >= 0 ==> secs == raw) && (raw < 0 ==> secs == 0)
    {
      secs := PauseList.CalculateElapsedTime(startTime, pauseTimes, resumeTimes, now);
    }

    /** `updateDisplay`: the clock shows the elapsed seconds as a time of day. */
    method UpdateDisplay(now: int)
      modifies this`displayTime
      ensures displayTime == TimeKeeper2.ClockFace(ElapsedSeconds(startTime, pauseTimes, resumeTimes, now))
    {
      var secs := CalculateElapsedTime(now);
      displayTime := TimeKeeper2.ClockFace(secs);
    }

    /**
     * `handleStartStop`. Pausing records the instant as a pause and stops.
     * Starting takes `now` as the start unless a start was picked, records
     * `now` as a resume when a pause is open, and runs.
     */
    method HandleStartStop(now: int)
      requires Valid()
      modifies this
      ensures Valid()
      ensures isRunning == !old(isRunning)
      ensures old(isRunning) ==> pauseTimes == old(pauseTimes) + [now] && resumeTimes == old(resumeTimes)
      ensures old(isRunning) ==> startTime == old(startTime) && Paused() && !SubmitDisabled()
      ensures !old(isRunning) ==> startTime == Some(old(startTime).GetOr(now)) && pauseTimes == old(pauseTimes)
      ensures !old(isRunning) ==> resumeTimes == if old(Paused()) then old(resumeTimes) + [now] else old(resumeTimes)
      ensures displayTime == old(displayTime) && currentEntryId == old(currentEntryId) && startDate == old(startDate)
      ensures accumulatedTime == old(accumulatedTime) && resetMessage == old(resetMessage)
      ensures submissionSuccess == old(submissionSuccess) && submissionError == old(submissionError)
    {
      if isRunning {
        if startTime.Some? {
          pauseTimes := pauseTimes + [now];
        }
        isRunning := false;
      } else {
        if startTime.None? {
          startTime := Some(now);
        }
        isRunning := true;
        if |pauseTimes| != |resumeTimes| {
          resumeTimes := resumeTimes + [now];
        }
      }
    }

    /** A pause is open: the timer was paused and not resumed since. */
    predicate Paused()
      reads this
    {
      |pauseTimes| == |resumeTimes| + 1
    }

    /** `handleReset`: back to an unstarted timer; the calendar keeps its date. */
    method HandleReset()
      modifies this
      ensures Valid()
      ensures !isRunning && startTime == None && pauseTimes == [] && resumeTimes == []
      ensures displayTime == "00:00:00" && accumulatedTime == 0 && currentEntryId == None
      ensures resetMessage && startDate == old(startDate)
      ensures submissionSuccess == old(submissionSuccess) && submissionError == old(submissionError)
    {
      isRunning := false;
      startTime := None;
      pauseTimes := [];
      resumeTimes := [];
      displayTime := "00:00:00";
      accumulatedTime := 0;
      currentEntryId := None;
      resetMessage := true;
    }

    /**
     * `handleDateChange`: a future date is refused with a browser alert
     * (`alerted`) and changes nothing; any other date becomes both the
     * calendar date and the start, running or not; a cleared picker puts
     * the calendar back to `now`.
     */
    method HandleDateChange(date: Option<int>, now: int) returns (alerted: bool)
      requires Valid()
      modifies this`startDate, this`startTime
      ensures Valid()
      ensures alerted <==> date.Some? && date.value > now
      ensures alerted ==> startTime == old(startTime) && startDate == old(startDate)
      ensures date.Some? && date.value <= now ==> startDate == date.value && startTime == date
      ensures date.None? ==> startDate == now && startTime == old(startTime)
    {
      alerted := false;
      match date
      case Some(d) =>
        if d > now {
          alerted := true;
        } else {
          startDate := d;
          startTime := Some(d);
        }
      case None =>
        startDate := now;
    }

    /**
     * `handleSubmit` at the instant `now`, the endpoint answering `reply`.
     * Without a start nothing is sent and nothing changes. Otherwise the
     * total is the unclamped running time in milliseconds, the request
     * updates the remembered entry or creates one, a created entry's id
     * is remembered, and the outcome is reported.
     */
    method HandleSubmit(now: int, reply: Reply) returns (sent: Option<Request>)
      requires Valid()
      modifies this`currentEntryId, this`submissionSuccess, this`submissionError
      ensures Valid()
      ensures old(startTime) == None ==> sent == None
      ensures old(startTime) == None ==>
        currentEntryId == old(currentEntryId) && submissionSuccess == old(submissionSuccess)
        && submissionError == old(submissionError)
      ensures old(startTime).Some? ==> sent == Some(ChooseRequest(old(currentEntryId), old(startTime).value, now,
        SubmittedTotal(0, old(startTime).value, pauseTimes, resumeTimes, now)))
      ensures old(startTime).Some? ==>
        && currentEntryId == EntryIdAfter(old(currentEntryId), sent.value, reply)
        && submissionSuccess == (reply.Saved? || old(submissionSuccess))
        && submissionError == SubmissionErrorText(reply)
    {
      if startTime.None? {
        return None;
      }
      var start := startTime.value;
      var total := SubmittedTotal(accumulatedTime, start, pauseTimes, resumeTimes, now);
      var request := ChooseRequest(currentEntryId, start, now, total);
      sent := Some(request);
      currentEntryId := EntryIdAfter(currentEntryId, request, reply);
      if reply.Saved? {
        submissionSuccess := true;
      }
      submissionError := SubmissionErrorText(reply);
    }
  }
}
