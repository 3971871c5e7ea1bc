/**
 * timeKeeper.tsx, the offset-based timer. Instead of recording pauses it
 * keeps the elapsed count at the last stop (`pausedTime`) and, on every
 * start, moves an effective start instant back by that amount, so the
 * interval's `now - effectiveStart` carries on from where it stopped.
 * The `isRunning` effect runs exactly once per Start/Stop click and is
 * folded into `HandleStartStop`; the one-second interval is `Tick`.
 */
module TimeKeeper {
  import opened Wrappers

  /** `Math.floor(elapsedTime / 1000) * 1000`: the elapsed time cut to whole seconds. */
  function TruncateToSeconds(ms: int): (t: int)
    ensures t % 1000 == 0
    ensures t <= ms < t + 1000
  {
    (ms / 1000) * 1000
  }

  /** Cutting to whole seconds twice is cutting once. */
  lemma TruncateToSecondsIdempotent(ms: int)
    ensures TruncateToSeconds(TruncateToSeconds(ms)) == TruncateToSeconds(ms)
  {
    var t := TruncateToSeconds(ms);
    assert t == (t / 1000) * 1000;
  }

  /** The `createTime` mutation Submit sends: start, end and whole-second total, in milliseconds. */
  datatype CreateRequest = CreateRequest(startTime: int, endTime: int, totalElapsedTime: int)

  class Timer {
    var isRunning: bool
    var isTimerInitiallyStarted: bool
    var startTime: Option<int>
    var elapsedTime: int
    var pausedTime: int
    /** `startTimeRef.current`: the effective start instant. */
    var startRef: Option<int>
    var selectedUser: string
    var selectedProject: string
    var selectedRate: string
    /** The instant of the last Start click. */
    ghost var resumedAt: int

    /**
     * There is a start exactly once the timer has been started; while it
     * runs the effective start is the last Start moved back by the count
     * at the last stop; while stopped the two counts agree; and without a
     * start nothing has been counted.
     */
    ghost predicate Valid()
      reads this
    {
      && (startTime.Some? <==> isTimerInitiallyStarted)
      && (isRunning ==> startTime.Some? && startRef == Some(resumedAt - pausedTime))
      && (!isRunning ==> pausedTime == elapsedTime)
      && (startTime.None? ==> !isRunning && elapsedTime == 0)
    }

    /** Start/Stop is disabled until a user, a project and a rate are selected. */
    predicate StartDisabled()
      reads this
    {
      selectedUser == "" || selectedProject == "" || selectedRate == ""
    }

    /** Submit is disabled while running and while nothing has been counted. */
    predicate SubmitDisabled()
      reads this
    {
      isRunning || elapsedTime == 0
    }

    constructor ()
      ensures Valid()
      ensures !isRunning && !isTimerInitiallyStarted && startTime == None
      ensures elapsedTime == 0 && pausedTime == 0 && startRef == None
      ensures selectedUser == "" && selectedProject == "" && selectedRate == ""
    {
      isRunning := false;
      isTimerInitiallyStarted := false;
      startTime := None;
      elapsedTime := 0;
      pausedTime := 0;
      startRef := None;
      selectedUser := "";
      selectedProject := "";
      selectedRate := "";
      resumedAt := 0;
    }

    /**
     * `handleStartStop` and the effect it triggers. Starting takes `now`
     * as the session's start the first time, and sets the effective start
     * to `now - pausedTime`. Stopping keeps the count in `pausedTime`.
     */
    method HandleStartStop(now: int)
      requires Valid()
      modifies this
      ensures Valid()
      ensures isRunning == !old(isRunning)
      ensures !old(isRunning) ==> startTime == Some(old(startTime).GetOr(now)) && isTimerInitiallyStarted
      ensures !old(isRunning) ==> startRef == Some(now - old(pausedTime)) && resumedAt == now
      ensures !old(isRunning) ==> pausedTime == old(pausedTime)
      ensures old(isRunning) ==> pausedTime == old(elapsedTime) && startRef == old(startRef) && startTime == old(startTime)
      ensures elapsedTime == old(elapsedTime)
      ensures selectedUser == old(selectedUser) && selectedProject == old(selectedProject)
      ensures selectedRate == old(selectedRate)
    {
      if !isRunning {
        if startTime.None? || !isTimerInitiallyStarted {
          startTime := Some(now);
        }
        isTimerInitiallyStarted := true;
        startRef := Some(if pausedTime != 0 then now - pausedTime else now);
        resumedAt := now;
        isRunning := true;
      } else {
        pausedTime := elapsedTime;
        isRunning := false;
      }
    }

    /**
     * One firing of the interval: the count is the time since the
     * effective start, which is the count at the last stop plus the time
     * since the last Start.
     */
    method Tick(now: int)
      requires Valid() && isRunning
      modifies this`elapsedTime
      ensures Valid()
      ensures elapsedTime == now - startRef.value
      ensures elapsedTime == pausedTime + (now - resumedAt)
    {
      elapsedTime := if startRef.Some? then now - startRef.value else 0;
    }

    /** `handleReset`: stopped, nothing counted, no start, selections cleared. */
    method HandleReset()
      modifies this
      ensures Valid()
      ensures !isRunning && !isTimerInitiallyStarted && startTime == None
      ensures elapsedTime == 0 && pausedTime == 0 && startRef == None
      ensures selectedUser == "" && selectedProject == "" && selectedRate == ""
    {
      isRunning := false;
      elapsedTime := 0;
      pausedTime := 0;
      startRef := None;
      selectedUser := "";
      selectedProject := "";
      selectedRate := "";
      isTimerInitiallyStarted := false;
      startTime := None;
    }

    /**
     * `handleSubmit`: without a start `new Date("")` is an invalid date and
     * building the request throws, so nothing is sent; otherwise the entry
     * runs from the start for the elapsed time, and the total is the
     * elapsed time cut to whole seconds. An enabled Submit always sends.
     */
    method HandleSubmit() returns (sent: Option<CreateRequest>)
      ensures startTime == None <==> sent == None
      ensures sent.Some? ==>
        && sent.value.startTime == startTime.value
        && sent.value.endTime - sent.value.startTime == elapsedTime
        && sent.value.totalElapsedTime % 1000 == 0
        && sent.value.totalElapsedTime <= elapsedTime < sent.value.totalElapsedTime + 1000
      ensures Valid() && !SubmitDisabled() ==> sent.Some?
    {
      if startTime.None? {
        return None;
      }
      var start := startTime.value;
      sent := Some(CreateRequest(start, start + elapsedTime, TruncateToSeconds(elapsedTime)));
    }
  }
}
