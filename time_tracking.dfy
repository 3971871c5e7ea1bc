/**
 * timeTracking.tsx, the offset-based timer with a running total. Like
 * timeKeeper.tsx it keeps the count at the last stop and moves an
 * effective start back by it on every start; in addition every tick adds
 * the whole current count to `totalElapsedTime`, which therefore grows
 * much faster than the count itself. Every Start overwrites the session's
 * start with the click instant, and Reset keeps it.
 */
module TimeTracking {
  import opened Wrappers
  import opened JsNumber
  import opened JsString
  import TimeKeeper
  import TimeKeeper3
  import Time

  /** The `createTime` request Submit posts: start, end and whole-second total, in milliseconds. */
  datatype CreateRequest = CreateRequest(startTime: int, endTime: int, totalElapsedTime: int)

  // ---------------------------------------------------------------
  // The end instant sent with the entry
  // ---------------------------------------------------------------

  /**
   * The end instant as the request body computes it (before the time-zone
   * shift): the start plus the running total.
   */
  function EndTimeAsWritten(start: int, totalElapsedTime: int): int
  {
    start + totalElapsedTime
  }

  /**
   * The end instant the page logs as "Calculated End Time" and that
   * timeKeeper.tsx sends: the start plus the elapsed count.
   */
  function EndTime(start: int, elapsedTime: int): int
  {
    start + elapsedTime
  }

  /** The running total: the sum of the counts the ticks so far added. */
  function TotalOfCounts(counts: seq<int>): int
  {
    if counts == [] then 0 else TotalOfCounts(counts[..|counts| - 1]) + counts[|counts| - 1]
  }

  /** The count after the ticks so far: the last one added, 0 before any tick. */
  function LastCount(counts: seq<int>): int
  {
    if counts == [] then 0 else counts[|counts| - 1]
  }

  lemma TotalOfCountsSnoc(counts: seq<int>, c: int)
    ensures TotalOfCounts(counts + [c]) == TotalOfCounts(counts) + c
  {
    assert (counts + [c])[..|counts|] == counts;
  }

  /**
   * Once two ticks have counted something, the running total exceeds the
   * count at the last tick: the sum counts every earlier tick again.
   */
  lemma {:induction false} TotalOvercounts(counts: seq<int>)
    requires |counts| >= 2
    requires forall i :: 0 <= i < |counts| ==> counts[i] > 0
    ensures TotalOfCounts(counts) > LastCount(counts)
  {
    var front := counts[..|counts| - 1];
    if |counts| == 2 {
      assert front[..|front| - 1] == [];
      assert TotalOfCounts(front) == front[0];
    } else {
      TotalOvercounts(front);
    }
  }

  // ---------------------------------------------------------------
  // The H:MM:SS text of the submitted total
  // ---------------------------------------------------------------

  /**
   * `formattedTotalElapsedTime`: whole seconds split into unbounded hours,
   * minutes and seconds, each `String(n).padStart(2, "0")`.
   */
  function FormatSubmittedTotal(elapsedTime: int): string
  {
    var totalSeconds := elapsedTime / 1000;
    Time.Pad2(totalSeconds / 3600) + ":" + Time.Pad2(JsRem(totalSeconds, 3600) / 60) + ":"
      + Time.Pad2(JsRem(totalSeconds, 60))
  }

  /** For a non-negative count it is the clock text of timeKeeper3.tsx. */
  lemma FormatSubmittedTotalIsClockText(elapsedTime: int)
    requires elapsedTime >= 0
    ensures FormatSubmittedTotal(elapsedTime) == TimeKeeper3.FormatElapsed(elapsedTime)
  {
    var ts := elapsedTime / 1000;
    JsRemOfNonNegative(ts, 3600);
    JsRemOfNonNegative(ts, 60);
    ModDivNested(elapsedTime, 1000, 3600);
    ModDivNested(elapsedTime, 1000, 60);
    ModDivNested(ts, 60, 60);
    assert elapsedTime / 60000 == ts / 60;
    assert (ts % 3600) / 60 == (ts / 60) % 60;
    JoinThree(Time.Pad2(elapsedTime / 3600000), Time.Pad2((elapsedTime / 60000) % 60),
      Time.Pad2((elapsedTime / 1000) % 60), ':');
  }

  class Tracker {
    var isRunning: bool
    var startTime: Option<int>
    var elapsedTime: int
    var totalElapsedTime: int
    var pausedTime: int
    /** `startTimeRef.current`: the effective start instant. */
    var startRef: Option<int>
    var selectedUser: string
    var selectedProject: string
    var selectedRate: string
    /** The instant of the last Start click. */
    ghost var resumedAt: int
    /** The count each tick since the last Reset added to the running total. */
    ghost var tickCounts: seq<int>

    /**
     * While running the effective start is the last Start moved back by
     * the count at the last stop; while stopped the two counts agree;
     * without a start nothing has been counted. The running total is the
     * sum of the ticks' counts, and the count is the last of them.
     */
    ghost predicate Valid()
      reads this
    {
      && (isRunning ==> startTime.Some? && startRef == Some(resumedAt - pausedTime))
      && (!isRunning ==> pausedTime == elapsedTime)
      && (startTime.None? ==> !isRunning && elapsedTime == 0)
      && totalElapsedTime == TotalOfCounts(tickCounts)
      && elapsedTime == LastCount(tickCounts)
    }

    /** Submit is disabled only while nothing has been counted, running or not. */
    predicate SubmitDisabled()
      reads this
    {
      elapsedTime == 0
    }

    constructor ()
      ensures Valid()
      ensures !isRunning && startTime == None && startRef == None && tickCounts == []
      ensures elapsedTime == 0 && totalElapsedTime == 0 && pausedTime == 0
      ensures selectedUser == "" && selectedProject == "" && selectedRate == ""
    {
      isRunning := false;
      startTime := None;
      elapsedTime := 0;
      totalElapsedTime := 0;
      pausedTime := 0;
      startRef := None;
      selectedUser := "";
      selectedProject := "";
      selectedRate := "";
      resumedAt := 0;
      tickCounts := [];
    }

    /**
     * `handleStartStop` and the effect it triggers. Every Start takes
     * `now` as the session's start and sets the effective start to
     * `now - pausedTime`; Stop keeps the count in `pausedTime`.
     */
    method HandleStartStop(now: int)
      requires Valid()
      modifies this
      ensures Valid()
      ensures isRunning == !old(isRunning)
      ensures !old(isRunning) ==> startTime == Some(now) && startRef == Some(now - old(pausedTime))
      ensures !old(isRunning) ==> resumedAt == now && pausedTime == old(pausedTime)
      ensures old(isRunning) ==> pausedTime == old(elapsedTime) && startRef == old(startRef) && startTime == old(startTime)
      ensures elapsedTime == old(elapsedTime) && totalElapsedTime == old(totalElapsedTime)
      ensures tickCounts == old(tickCounts)
      ensures selectedUser == old(selectedUser) && selectedProject == old(selectedProject)
      ensures selectedRate == old(selectedRate)
    {
      if !isRunning {
        startTime := Some(now);
        startRef := Some(if pausedTime != 0 then now - pausedTime else now);
        resumedAt := now;
        isRunning := true;
      } else {
        pausedTime := elapsedTime;
        isRunning := false;
      }
    }

    /**
     * One firing of the interval: the count becomes the time since the
     * effective start and is added, whole, to the running total.
     */
    method Tick(now: int)
      requires Valid() && isRunning
      modifies this`elapsedTime, this`totalElapsedTime, this`tickCounts
      ensures Valid()
      ensures elapsedTime == now - startRef.value
      ensures elapsedTime == pausedTime + (now - resumedAt)
      ensures totalElapsedTime == old(totalElapsedTime) + elapsedTime
      ensures tickCounts == old(tickCounts) + [elapsedTime]
    {
      var elapsed := if startRef.Some? then now - startRef.value else 0;
      TotalOfCountsSnoc(tickCounts, elapsed);
      elapsedTime := elapsed;
      totalElapsedTime := totalElapsedTime + elapsed;
      tickCounts := tickCounts + [elapsed];
    }

    /** `handleReset`: stopped, all counts 0, selections cleared; the start is kept. */
    method HandleReset()
      modifies this
      ensures Valid()
      ensures !isRunning && elapsedTime == 0 && totalElapsedTime == 0 && pausedTime == 0 && startRef == None
      ensures tickCounts == []
      ensures selectedUser == "" && selectedProject == "" && selectedRate == ""
      ensures startTime == old(startTime)
    {
      isRunning := false;
      elapsedTime := 0;
      totalElapsedTime := 0;
      pausedTime := 0;
      startRef := None;
      selectedUser := "";
      selectedProject := "";
      selectedRate := "";
      tickCounts := [];
    }

    /**
     * `handleSubmit` as written: the total sent is the count cut to whole
     * seconds, but the end instant is the start plus the running total,
     * the sum of every tick's count, so once two ticks have counted
     * something the entry's span is longer than the count. Without a start
     * `new Date("")` is an invalid date and building the request throws,
     * so nothing is sent; an enabled Submit always sends.
     */
    method HandleSubmit() returns (sent: Option<CreateRequest>)
      ensures startTime == None <==> sent == None
      ensures sent.Some? ==>
        && sent.value.startTime == startTime.value
        && sent.value.endTime - sent.value.startTime == totalElapsedTime
        && sent.value.totalElapsedTime % 1000 == 0
        && sent.value.totalElapsedTime <= elapsedTime < sent.value.totalElapsedTime + 1000
      ensures Valid() && sent.Some? ==> sent.value.endTime - sent.value.startTime == TotalOfCounts(tickCounts)
      ensures Valid() && sent.Some? && |tickCounts| >= 2 && (forall i :: 0 <= i < |tickCounts| ==> tickCounts[i] > 0) ==>
        sent.value.endTime - sent.value.startTime > elapsedTime
      ensures Valid() && !SubmitDisabled() ==> sent.Some?
    {
      if startTime.None? {
        return None;
      }
      var start := startTime.value;
      if Valid() && |tickCounts| >= 2 && (forall i :: 0 <= i < |tickCounts| ==> tickCounts[i] > 0) {
        TotalOvercounts(tickCounts);
      }
      sent := Some(CreateRequest(start, EndTimeAsWritten(start, totalElapsedTime), TimeKeeper.TruncateToSeconds(elapsedTime)));
    }

    /**
     * `handleSubmit` with the end instant the page logs: the start plus
     * the count. The entry's span and its total then agree: the total is
     * the span cut to whole seconds.
     */
    method HandleSubmitCorrected() returns (sent: Option<CreateRequest>)
      ensures startTime == None <==> sent == None
      ensures sent.Some? ==>
        && sent.value.startTime == startTime.value
        && sent.value.endTime - sent.value.startTime == elapsedTime
        && sent.value.totalElapsedTime == TimeKeeper.TruncateToSeconds(sent.value.endTime - sent.value.startTime)
        && 0 <= sent.value.endTime - sent.value.startTime - sent.value.totalElapsedTime < 1000
      ensures Valid() && !SubmitDisabled() ==> sent.Some?
    {
      if startTime.None? {
        return None;
      }
      var start := startTime.value;
      sent := Some(CreateRequest(start, EndTime(start, elapsedTime), TimeKeeper.TruncateToSeconds(elapsedTime)));
    }
  }

  /**
   * Started at instant 0 and ticked at 1000 and 2000 ms, the count is
   * 2000 ms but Submit sends an end instant 3000 ms after the start, a
   * second past the entry's span; the corrected Submit sends 2000 ms.
   */
  method TwoTicksOvershoot() returns (count: int, sent: Option<CreateRequest>, corrected: Option<CreateRequest>)
    ensures count == 2000
    ensures sent == Some(CreateRequest(0, 3000, 2000))
    ensures corrected == Some(CreateRequest(0, 2000, 2000))
  {
    var tracker := new Tracker();
    tracker.HandleStartStop(0);
    tracker.Tick(1000);
    tracker.Tick(2000);
    count := tracker.elapsedTime;
    sent := tracker.HandleSubmit();
    corrected := tracker.HandleSubmitCorrected();
  }
}
