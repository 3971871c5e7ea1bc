/**
 * timeKeeper3.tsx, the millisecond draft of the pause-list timer. Unlike
 * timeKeeper2.tsx it measures the clock in milliseconds with unbounded
 * hours, starts the session at the picked calendar date (never later than
 * the click), records a resume whenever a start already exists, and a
 * picked date clears the start instead of setting it.
 */
module TimeKeeper3 {
  import opened Wrappers
  import opened JsNumber
  import opened JsString
  import opened PauseList
  import opened TimeEntry
  import Time

  /** The clock's millisecond count before the clamp: no start counts from instant 0. */
  function RawMillis(start: Option<int>, pauses: seq<int>, resumes: seq<int>, now: int): int
  {
    now - start.GetOr(0) - PausedMillis(pauses, resumes, now, |pauses|)
  }

  /** `if (elapsed < 0) elapsed = 0`. */
  function DisplayedMillis(start: Option<int>, pauses: seq<int>, resumes: seq<int>, now: int): (ms: int)
    ensures ms >= 0
    ensures ms > 0 ==> ms == RawMillis(start, pauses, resumes, now)
    ensures RawMillis(start, pauses, resumes, now) >= 0 ==> ms == RawMillis(start, pauses, resumes, now)
  {
    Max(RawMillis(start, pauses, resumes, now), 0)
  }

  /**
   * The `for` loop of `updateDisplay`: the milliseconds since the start,
   * minus each pause in turn, clamped at 0.
   */
  method ElapsedMillis(start: Option<int>, pauses: seq<int>, resumes: seq<int>, now: int) returns (elapsed: int)
    ensures elapsed == DisplayedMillis(start, pauses, resumes, now)
  {
    elapsed := now - (if start.Some? then start.value else 0);
    var i := 0;
    while i < |pauses|
      invariant 0 <= i <= |pauses|
      invariant elapsed == now - start.GetOr(0) - PausedMillis(pauses, resumes, now, i)
    {
      var resume := if i < |resumes| then resumes[i] else now;
      elapsed := elapsed - (resume - pauses[i]);
      i := i + 1;
    }
    if elapsed < 0 {
      elapsed := 0;
    }
  }

  /**
   * `[hours, minutes, seconds].join(":")`, each padded to two characters;
   * the hours are not wrapped.
   */
  function FormatElapsed(ms: int): string
    requires ms >= 0
  {
    Join([Time.Pad2(ms / 3600000), Time.Pad2((ms / 60000) % 60), Time.Pad2((ms / 1000) % 60)], ':')
  }

  /**
   * The clock reads back as the elapsed whole seconds: it splits at ':'
   * into three digit fields, minutes and seconds two digits below 60, the
   * hours at least two digits, and hours * 3600 + minutes * 60 + seconds is
   * the number of whole seconds in `ms`.
   */
  lemma FormatElapsedReadsBack(ms: int)
    requires ms >= 0
    ensures var parts := Split(FormatElapsed(ms), ':');
      && |parts| == 3
      && (forall k, i :: 0 <= k < 3 && 0 <= i < |parts[k]| ==> IsDigit(parts[k][i]))
      && |parts[0]| >= 2 && |parts[1]| == 2 && |parts[2]| == 2
      && ParseNat(parts[1]) < 60 && ParseNat(parts[2]) < 60
      && ParseNat(parts[0]) * 3600 + ParseNat(parts[1]) * 60 + ParseNat(parts[2]) == ms / 1000
  {
    var h, m, s := ms / 3600000, (ms / 60000) % 60, (ms / 1000) % 60;
    FormatElapsedFields(ms);
    PaddedFieldsReadBack(h, m, s);
    ElapsedFieldsAddUp(ms);
  }

  /** Three padded fields, minutes and seconds below 60, read back as their values. */
  lemma PaddedFieldsReadBack(h: int, m: int, s: int)
    requires h >= 0 && 0 <= m < 60 && 0 <= s < 60
    ensures var parts := [Time.Pad2(h), Time.Pad2(m), Time.Pad2(s)];
      && (forall k, i :: 0 <= k < 3 && 0 <= i < |parts[k]| ==> IsDigit(parts[k][i]))
      && |parts[0]| >= 2 && |parts[1]| == 2 && |parts[2]| == 2
      && ParseNat(parts[0]) == h && ParseNat(parts[1]) == m && ParseNat(parts[2]) == s
  {
    Time.Pad2ReadsBack(h);
    Time.Pad2ReadsBack(m);
    Time.Pad2ReadsBack(s);
    var parts := [Time.Pad2(h), Time.Pad2(m), Time.Pad2(s)];
    forall k, i | 0 <= k < 3 && 0 <= i < |parts[k]|
      ensures IsDigit(parts[k][i])
    {
      if k == 0 {
        assert parts[k] == Time.Pad2(h);
      } else if k == 1 {
        assert parts[k] == Time.Pad2(m);
      } else {
        assert parts[k] == Time.Pad2(s);
      }
    }
  }

  /** The clock splits at ':' into the three padded fields. */
  lemma FormatElapsedFields(ms: int)
    requires ms >= 0
    ensures Split(FormatElapsed(ms), ':')
      == [Time.Pad2(ms / 3600000), Time.Pad2((ms / 60000) % 60), Time.Pad2((ms / 1000) % 60)]
  {
    var fields := [Time.Pad2(ms / 3600000), Time.Pad2((ms / 60000) % 60), Time.Pad2((ms / 1000) % 60)];
    forall k | 0 <= k < 3
      ensures ':' !in fields[k]
    {
      var n := if k == 0 then ms / 3600000 else if k == 1 then (ms / 60000) % 60 else (ms / 1000) % 60;
      Time.Pad2ReadsBack(n);
      DigitsExclude(fields[k], ':');
    }
    SplitJoin(fields, ':');
  }

  /** Hours, minutes within the hour and seconds within the minute add up to the whole seconds. */
  lemma ElapsedFieldsAddUp(ms: int)
    requires ms >= 0
    ensures (ms / 3600000) * 3600 + ((ms / 60000) % 60) * 60 + (ms / 1000) % 60 == ms / 1000
  {
    ModDivNested(ms, 1000, 60);
    ModDivNested(ms, 60000, 60);
    var ts := ms / 1000;
    assert ts / 60 == (ts / 60 / 60) * 60 + (ts / 60) % 60;
    assert ts == (ts / 60) * 60 + ts % 60;
  }

  /** A clock below 100 hours is the eight-character "HH:MM:SS". */
  lemma FormatElapsedShortForm(ms: int)
    requires 0 <= ms < 360000000
    ensures |FormatElapsed(ms)| == 8
  {
    Time.Pad2ReadsBack(ms / 3600000);
    Time.Pad2ReadsBack((ms / 60000) % 60);
    Time.Pad2ReadsBack((ms / 1000) % 60);
    JoinThree(Time.Pad2(ms / 3600000), Time.Pad2((ms / 60000) % 60), Time.Pad2((ms / 1000) % 60), ':');
  }

  /** Zero prints as "00:00:00". */
  lemma FormatElapsedZero()
    ensures FormatElapsed(0) == "00:00:00"
  {
    assert 0 / 3600000 == 0 && (0 / 60000) % 60 == 0 && (0 / 1000) % 60 == 0;
    assert NatToString(0) == "0";
    assert Time.Pad2(0) == "00";
    JoinThree("00", "00", "00", ':');
    assert "00" + [':'] + "00" + [':'] + "00" == "00:00:00";
  }

  /** Thirty and a half hours print as "30:30:00": the hours are not wrapped at a day. */
  lemma FormatElapsedPastOneDay()
    ensures FormatElapsed(109800000) == "30:30:00"
  {
    assert 109800000 / 3600000 == 30;
    assert (109800000 / 60000) % 60 == 30;
    assert (109800000 / 1000) % 60 == 0;
    PadThirtyAndZero();
    JoinThree("30", "30", "00", ':');
  }

  lemma PadThirtyAndZero()
    ensures Time.Pad2(30) == "30" && Time.Pad2(0) == "00"
  {
    assert NatToString(30) == "30";
    assert NatToString(0) == "0";
  }

  /**
   * The clock advances at the rate one minus the number of open pauses:
   * still with one open pause, backwards with two.
   */
  lemma ClockRate(start: Option<int>, pauses: seq<int>, resumes: seq<int>, now1: int, now2: int)
    requires |resumes| <= |pauses|
    ensures RawMillis(start, pauses, resumes, now2) - RawMillis(start, pauses, resumes, now1)
      == (1 - (|pauses| - |resumes|)) * (now2 - now1)
  {
    OpenPausesGrow(pauses, resumes, now1, now2, |pauses|);
    MulSucc(-(|pauses| - |resumes|), now2 - now1);
  }

  /** With exactly one pause open the unclamped clock is the same at every instant. */
  lemma StalePauseFreezesClock(start: int, pause: int, now1: int, now2: int)
    ensures RawMillis(Some(start), [pause], [], now1) == RawMillis(Some(start), [pause], [], now2)
  {
    ClockRate(Some(start), [pause], [], now1, now2);
  }

  /** The unclamped clock never moves forward as time passes. */
  ghost predicate NeverAdvances(start: Option<int>, pauses: seq<int>, resumes: seq<int>)
  {
    forall now1, now2 :: now1 <= now2 ==> RawMillis(start, pauses, resumes, now2) <= RawMillis(start, pauses, resumes, now1)
  }

  /** The unclamped clock is the same at every instant. */
  ghost predicate StandsStill(start: Option<int>, pauses: seq<int>, resumes: seq<int>)
  {
    forall now1, now2 :: RawMillis(start, pauses, resumes, now2) == RawMillis(start, pauses, resumes, now1)
  }

  /**
   * A date picked while the timer is paused clears the start; the next
   * Start then takes the picked date as a fresh start and records no
   * resume, so every pause that was open stays open and the running clock
   * never advances; with one pause open it stands still.
   */
  method PickDateWhilePaused(t: Timer, date: int, pickedAt: int, click: int) returns (alerted: bool)
    requires t.Valid() && !t.isRunning && t.startTime.Some? && date <= pickedAt
    modifies t
    ensures !alerted && t.Valid() && t.isRunning
    ensures t.startTime == Some(if date > click then click else date) && t.startDate == date
    ensures t.pauseTimes == old(t.pauseTimes) && t.resumeTimes == old(t.resumeTimes)
    ensures |t.resumeTimes| < |t.pauseTimes|
    ensures NeverAdvances(t.startTime, t.pauseTimes, t.resumeTimes)
    ensures |t.pauseTimes| == |t.resumeTimes| + 1 ==> StandsStill(t.startTime, t.pauseTimes, t.resumeTimes)
  {
    alerted := t.HandleDateChange(Some(date), pickedAt);
    t.HandleStartStop(click);
    forall now1, now2 | now1 <= now2
      ensures RawMillis(t.startTime, t.pauseTimes, t.resumeTimes, now2) <= RawMillis(t.startTime, t.pauseTimes, t.resumeTimes, now1)
    {
      ClockRate(t.startTime, t.pauseTimes, t.resumeTimes, now1, now2);
      RateNonPositive(|t.pauseTimes| - |t.resumeTimes|, now2 - now1);
    }
    if |t.pauseTimes| == |t.resumeTimes| + 1 {
      forall now1, now2
        ensures RawMillis(t.startTime, t.pauseTimes, t.resumeTimes, now2) == RawMillis(t.startTime, t.pauseTimes, t.resumeTimes, now1)
      {
        ClockRate(t.startTime, t.pauseTimes, t.resumeTimes, now1, now2);
      }
    }
  }

  /** At least one open pause and a forward span give a change of at most zero. */
  lemma RateNonPositive(open: int, span: int)
    requires open >= 1 && span >= 0
    ensures (1 - open) * span <= 0
  {
  }

  class Timer {
    var isRunning: bool
    var startTime: Option<int>
    var pauseTimes: seq<int>
    var resumeTimes: seq<int>
    var displayTime: string
    var currentEntryId: Option<int>
    var startDate: int
    /** `accumulatedTimeRef`: only ever set to 0. */
    var accumulatedTime: int

    /**
     * Resumes never outnumber pauses, and a stopped timer that has a start
     * has a pause open. Several pauses can be open at once: see
     * `PickDateWhilePaused`.
     */
    ghost predicate Valid()
      reads this
    {
      && |resumeTimes| <= |pauseTimes|
      && (!isRunning && startTime.Some? ==> |resumeTimes| < |pauseTimes|)
      && accumulatedTime == 0
    }

    /** Reset is disabled without a start instant. */
    predicate ResetDisabled()
      reads this
    {
      startTime.None?
    }

    /** Submit is disabled while running and without a start instant. */
    predicate SubmitDisabled()
      reads this
    {
      isRunning || startTime.None?
    }

    constructor (now: int)
      ensures Valid()
      ensures !isRunning && startTime == None && pauseTimes == [] && resumeTimes == []
      ensures displayTime == "00:00:00" && currentEntryId == None && startDate == now
    {
      isRunning := false;
      startTime := None;
      pauseTimes := [];
      resumeTimes := [];
      displayTime := "00:00:00";
      currentEntryId := None;
      startDate := now;
      accumulatedTime := 0;
    }

    /** `updateDisplay`, run by the interval while the timer runs. */
    method UpdateDisplay(now: int)
      modifies this`displayTime
      ensures displayTime == FormatElapsed(DisplayedMillis(startTime, pauseTimes, resumeTimes, now))
    {
      var elapsed := ElapsedMillis(startTime, pauseTimes, resumeTimes, now);
      displayTime := FormatElapsed(elapsed);
    }

    /**
     * `handleStartStop`. Pausing always records a pause and stops. The
     * first Start takes the earlier of the picked date and `now` as the
     * start; a later Start records a resume.
     */
    method HandleStartStop(now: int)
      requires Valid()
      modifies this`isRunning, this`startTime, this`pauseTimes, this`resumeTimes
      ensures Valid()
      ensures isRunning == !old(isRunning)
      ensures old(isRunning) ==>
        pauseTimes == old(pauseTimes) + [now] && resumeTimes == old(resumeTimes) && startTime == old(startTime)
      ensures !old(isRunning) && old(startTime) == None ==>
        && startTime.Some? && startTime.value <= now && startTime.value <= startDate
        && (startTime.value == startDate || startTime.value == now)
        && pauseTimes == old(pauseTimes) && resumeTimes == old(resumeTimes)
      ensures !old(isRunning) && old(startTime).Some? ==>
        resumeTimes == old(resumeTimes) + [now] && pauseTimes == old(pauseTimes) && startTime == old(startTime)
    {
      if isRunning {
        pauseTimes := pauseTimes + [now];
        isRunning := false;
      } else {
        if startTime.None? {
          var start := if startDate > now then now else startDate;
          startTime := Some(start);
        } else {
          resumeTimes := resumeTimes + [now];
        }
        isRunning := true;
      }
    }

    /** `handleReset`: back to an unstarted timer; the calendar keeps its date. */
    method HandleReset()
      modifies this`isRunning, this`startTime, this`pauseTimes, this`resumeTimes
      modifies this`displayTime, this`accumulatedTime, this`currentEntryId
      ensures Valid()
      ensures !isRunning && startTime == None && pauseTimes == [] && resumeTimes == []
      ensures displayTime == "00:00:00" && accumulatedTime == 0 && currentEntryId == None
    {
      isRunning := false;
      startTime := None;
      pauseTimes := [];
      resumeTimes := [];
      displayTime := "00:00:00";
      accumulatedTime := 0;
      currentEntryId := None;
    }

    /**
     * `handleDateChange`: a future date is refused with a browser alert
     * (`alerted`) and changes nothing; any other date becomes the calendar
     * date and clears the start, so the next Start begins there; a cleared
     * picker puts the calendar back to `now`.
     */
    method HandleDateChange(date: Option<int>, now: int) returns (alerted: bool)
      requires Valid()
      modifies this`startDate, this`startTime
      ensures Valid()
      ensures alerted <==> date.Some? && date.value > now
      ensures alerted ==> startTime == old(startTime) && startDate == old(startDate)
      ensures date.Some? && date.value <= now ==> startDate == date.value && startTime == None
      ensures date.None? ==> startDate == now && startTime == old(startTime)
    {
      alerted := false;
      match date
      case Some(d) =>
        if d > now {
          alerted := true;
        } else {
          startDate := d;
          startTime := None;
        }
      case None =>
        startDate := now;
    }

    /**
     * `handleSubmit` at the instant `now`, the endpoint answering `reply`.
     * Without a start nothing is sent. Otherwise the unclamped running
     * time in milliseconds is sent as an update of the remembered entry or
     * as a new entry; a created entry's id is remembered. Errors are only
     * logged.
     */
    method HandleSubmit(now: int, reply: Reply) returns (sent: Option<Request>)
      requires Valid()
      modifies this`currentEntryId
      ensures Valid()
      ensures old(startTime) == None ==> sent == None && currentEntryId == old(currentEntryId)
      ensures old(startTime).Some? ==> sent == Some(ChooseRequest(old(currentEntryId), old(startTime).value, now,
        SubmittedTotal(0, old(startTime).value, pauseTimes, resumeTimes, now)))
      ensures old(startTime).Some? ==> currentEntryId == EntryIdAfter(old(currentEntryId), sent.value, reply)
    {
      if startTime.None? {
        return None;
      }
      var start := startTime.value;
      var total := SubmittedTotal(accumulatedTime, start, pauseTimes, resumeTimes, now);
      var request := ChooseRequest(currentEntryId, start, now, total);
      sent := Some(request);
      currentEntryId := EntryIdAfter(currentEntryId, request, reply);
    }
  }
}
