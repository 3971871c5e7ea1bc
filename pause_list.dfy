/**
 * The elapsed-time arithmetic shared by the pause-list timers
 * (timeKeeper2.tsx, timeKeeper4.tsx, timeKeeper3.tsx).
 *
 * A session is a start instant plus two parallel lists: `pauses[i]` is
 * when the timer was paused the i-th time and `resumes[i]`, when present,
 * when it was resumed afterwards. A pause without its resume is still
 * open and is measured up to "now". Instants are integer milliseconds.
 */
module PauseList {
  import opened Wrappers
  import opened JsNumber

  /**
   * date-fns `differenceInSeconds(later, earlier)`: whole seconds between
   * two instants, truncated toward zero.
   */
  function DiffSeconds(later: int, earlier: int): (d: int)
    ensures later >= earlier ==> 0 <= d * 1000 <= later - earlier < d * 1000 + 1000
    ensures later < earlier ==> d * 1000 - 1000 < later - earlier <= d * 1000 <= 0
  {
    TruncDiv(later - earlier, 1000)
  }

  /** `resumeTimes[index] || now`: the end of the index-th pause. */
  function ResumeOr(resumes: seq<int>, i: nat, now: int): int
  {
    if i < |resumes| then resumes[i] else now
  }

  /** Whole seconds spent in the first `n` pauses, each truncated on its own. */
  function PausedSeconds(pauses: seq<int>, resumes: seq<int>, now: int, n: nat): int
    requires n <= |pauses|
  {
    if n == 0 then 0
    else PausedSeconds(pauses, resumes, now, n - 1) + DiffSeconds(ResumeOr(resumes, n - 1, now), pauses[n - 1])
  }

  /** Milliseconds spent in the first `n` pauses. */
  function PausedMillis(pauses: seq<int>, resumes: seq<int>, now: int, n: nat): int
    requires n <= |pauses|
  {
    if n == 0 then 0
    else PausedMillis(pauses, resumes, now, n - 1) + (ResumeOr(resumes, n - 1, now) - pauses[n - 1])
  }

  /**
   * `calculateElapsedTime` of the pause-list timers: 0 without a start
   * instant, otherwise the seconds since the start minus the seconds of
   * every pause, never below 0.
   */
  function ElapsedSeconds(start: Option<int>, pauses: seq<int>, resumes: seq<int>, now: int): (e: int)
    ensures e >= 0
    ensures start.None? ==> e == 0
    ensures start.Some? && e > 0 ==> e == DiffSeconds(now, start.value) - PausedSeconds(pauses, resumes, now, |pauses|)
    ensures start.Some? && DiffSeconds(now, start.value) - PausedSeconds(pauses, resumes, now, |pauses|) >= 0 ==>
      e == DiffSeconds(now, start.value) - PausedSeconds(pauses, resumes, now, |pauses|)
  {
    match start
    case None => 0
    case Some(s) => Max(DiffSeconds(now, s) - PausedSeconds(pauses, resumes, now, |pauses|), 0)
  }

  /**
   * The `forEach` loop of `calculateElapsedTime`: subtracts the pauses one
   * by one from the seconds since the start, then clamps at 0.
   */
  method CalculateElapsedTime(start: Option<int>, pauses: seq<int>, resumes: seq<int>, now: int)
    returns (secs: int)
    ensures secs == ElapsedSeconds(start, pauses, resumes, now)
  {
    if start.None? {
      return 0;
    }
    var s := start.value;
    var elapsed := DiffSeconds(now, s);
    var i := 0;
    while i < |pauses|
      invariant 0 <= i <= |pauses|
      invariant elapsed == DiffSeconds(now, s) - PausedSeconds(pauses, resumes, now, i)
    {
      var resume := if i < |resumes| then resumes[i] else now;
      elapsed := elapsed - DiffSeconds(resume, pauses[i]);
      i := i + 1;
    }
    secs := Max(elapsed, 0);
  }

  /**
   * The `totalElapsedTime` that Submit sends, in milliseconds and without a
   * clamp: carried-over time plus the span from start to submission minus
   * every pause, an open pause measured to the submission instant.
   */
  function SubmittedTotal(accumulated: int, start: int, pauses: seq<int>, resumes: seq<int>, end: int): int
  {
    accumulated + (end - start) - PausedMillis(pauses, resumes, end, |pauses|)
  }

  // ---------------------------------------------------------------
  // An independent reading: the sum of the running spans.
  // ---------------------------------------------------------------

  /** At most one pause is open: resumes never outnumber pauses and lag by at most one. */
  predicate ListsConsistent(pauses: seq<int>, resumes: seq<int>)
  {
    |resumes| <= |pauses| <= |resumes| + 1
  }

  /** Where the running spans begin: the start, then every resume. */
  function RunStarts(start: int, resumes: seq<int>): seq<int>
  {
    [start] + resumes
  }

  /** Where the running spans end: every pause, then `end` unless a pause is open. */
  function RunEnds(pauses: seq<int>, resumes: seq<int>, end: int): seq<int>
  {
    if |pauses| == |resumes| then pauses + [end] else pauses
  }

  /** The total length of the spans `[starts[i], ends[i]]`. */
  function SpanSum(starts: seq<int>, ends: seq<int>): int
    requires |starts| == |ends|
  {
    if starts == [] then 0
    else SpanSum(starts[..|starts| - 1], ends[..|ends| - 1]) + (ends[|ends| - 1] - starts[|starts| - 1])
  }

  /** Milliseconds the timer actually ran between `start` and `end`. */
  function RunningMillis(start: int, pauses: seq<int>, resumes: seq<int>, end: int): int
    requires ListsConsistent(pauses, resumes)
  {
    SpanSum(RunStarts(start, resumes), RunEnds(pauses, resumes, end))
  }

  function Sum(s: seq<int>): int
  {
    if s == [] then 0 else Sum(s[..|s| - 1]) + s[|s| - 1]
  }

  lemma {:induction false} SumAppend(s: seq<int>, t: seq<int>)
    ensures Sum(s + t) == Sum(s) + Sum(t)
  {
    if t == [] {
      assert s + t == s;
    } else {
      SumAppend(s, t[..|t| - 1]);
      assert (s + t)[..|s + t| - 1] == s + t[..|t| - 1];
    }
  }

  lemma {:induction false} SpanSumIsDifference(starts: seq<int>, ends: seq<int>)
    requires |starts| == |ends|
    ensures SpanSum(starts, ends) == Sum(ends) - Sum(starts)
  {
    if starts != [] {
      SpanSumIsDifference(starts[..|starts| - 1], ends[..|ends| - 1]);
    }
  }

  /** Closed pauses: their length does not depend on "now". */
  lemma {:induction false} PausedMillisClosed(pauses: seq<int>, resumes: seq<int>, now: int, n: nat)
    requires n <= |pauses| && n <= |resumes|
    ensures PausedMillis(pauses, resumes, now, n) == Sum(resumes[..n]) - Sum(pauses[..n])
  {
    if n > 0 {
      PausedMillisClosed(pauses, resumes, now, n - 1);
      assert resumes[..n][..n - 1] == resumes[..n - 1];
      assert pauses[..n][..n - 1] == pauses[..n - 1];
    }
  }

  /**
   * Submit's formula measures exactly the running time: start-to-end minus
   * the pauses equals the sum of the spans between a start or resume and
   * the following pause (or the submission instant, while running).
   */
  lemma SubmittedTotalIsRunningTime(start: int, pauses: seq<int>, resumes: seq<int>, end: int)
    requires ListsConsistent(pauses, resumes)
    ensures SubmittedTotal(0, start, pauses, resumes, end) == RunningMillis(start, pauses, resumes, end)
  {
    var n := |resumes|;
    var starts := RunStarts(start, resumes);
    var ends := RunEnds(pauses, resumes, end);
    SpanSumIsDifference(starts, ends);
    SumAppend([start], resumes);
    assert Sum([start]) == start by {
      assert [start][..0] == [];
    }
    PausedMillisClosed(pauses, resumes, end, n);
    assert resumes[..n] == resumes;
    if |pauses| == n {
      assert pauses[..n] == pauses;
      SumAppend(pauses, [end]);
      assert Sum([end]) == end by {
        assert [end][..0] == [];
      }
    } else {
      assert pauses[..n + 1][..n] == pauses[..n];
      assert pauses[..n + 1] == pauses;
    }
  }

  /** Every running span starts no later than it ends. */
  predicate InOrder(start: int, pauses: seq<int>, resumes: seq<int>, end: int)
    requires ListsConsistent(pauses, resumes)
  {
    var starts := RunStarts(start, resumes);
    var ends := RunEnds(pauses, resumes, end);
    && (forall i :: 0 <= i < |starts| ==> starts[i] <= ends[i])
    && (forall i :: 0 <= i < |resumes| ==> pauses[i] <= resumes[i])
  }

  lemma {:induction false} SpanSumBounds(starts: seq<int>, ends: seq<int>)
    requires |starts| == |ends|
    requires forall i :: 0 <= i < |starts| ==> starts[i] <= ends[i]
    ensures SpanSum(starts, ends) >= 0
  {
    if starts != [] {
      SpanSumBounds(starts[..|starts| - 1], ends[..|ends| - 1]);
    }
  }

  /**
   * When the instants follow each other in time, the unclamped Submit total
   * is never negative: the display's clamp only matters once a back-dated
   * start lands after recorded pauses.
   */
  lemma SubmittedTotalNonNegativeInOrder(start: int, pauses: seq<int>, resumes: seq<int>, end: int)
    requires ListsConsistent(pauses, resumes)
    requires InOrder(start, pauses, resumes, end)
    ensures SubmittedTotal(0, start, pauses, resumes, end) >= 0
  {
    SubmittedTotalIsRunningTime(start, pauses, resumes, end);
    SpanSumBounds(RunStarts(start, resumes), RunEnds(pauses, resumes, end));
  }

  /** Back-dating the start past a recorded pause makes the unclamped total negative. */
  lemma BackDatedStartGoesNegative()
    ensures SubmittedTotal(0, 25000, [20000], [], 30000) == -5000
    ensures ElapsedSeconds(Some(25000), [20000], [], 30000) == 0
  {
    assert PausedMillis([20000], [], 30000, 0) == 0;
    assert PausedMillis([20000], [], 30000, 1) == 10000;
    assert PausedSeconds([20000], [], 30000, 0) == 0;
    assert DiffSeconds(30000, 20000) == 10;
    assert PausedSeconds([20000], [], 30000, 1) == 10;
    assert DiffSeconds(30000, 25000) == 5;
  }

  /**
   * While a pause is open, Submit's total is the same whatever the
   * submission instant: the open pause grows exactly as fast as the
   * span since the start.
   */
  lemma {:induction false} SubmittedTotalFrozenWhilePaused(accumulated: int, start: int, pauses: seq<int>, resumes: seq<int>, end1: int, end2: int)
    requires |pauses| == |resumes| + 1
    ensures SubmittedTotal(accumulated, start, pauses, resumes, end1) == SubmittedTotal(accumulated, start, pauses, resumes, end2)
  {
    var n := |resumes|;
    PausedMillisClosed(pauses, resumes, end1, n);
    PausedMillisClosed(pauses, resumes, end2, n);
  }

  /**
   * Measuring each pause in whole seconds never overstates it and loses
   * less than a second per pause.
   */
  lemma {:induction false} PausedSecondsBounds(pauses: seq<int>, resumes: seq<int>, now: int, n: nat)
    requires n <= |pauses|
    requires forall i :: 0 <= i < n ==> pauses[i] <= ResumeOr(resumes, i, now)
    ensures PausedSeconds(pauses, resumes, now, n) * 1000 <= PausedMillis(pauses, resumes, now, n)
    ensures PausedMillis(pauses, resumes, now, n) <= PausedSeconds(pauses, resumes, now, n) * 1000 + 999 * n
  {
    if n > 0 {
      PausedSecondsBounds(pauses, resumes, now, n - 1);
    }
  }

  /**
   * The seconds the display computes (before its clamp) track Submit's
   * millisecond total: while the instants are in order they are at most
   * one second short of it and at most one second per pause over it.
   */
  lemma DisplayTracksSubmittedTotal(start: int, pauses: seq<int>, resumes: seq<int>, now: int)
    requires start <= now
    requires forall i :: 0 <= i < |pauses| ==> pauses[i] <= ResumeOr(resumes, i, now)
    ensures var shown := DiffSeconds(now, start) - PausedSeconds(pauses, resumes, now, |pauses|);
      && SubmittedTotal(0, start, pauses, resumes, now) - 999 <= shown * 1000
      && shown * 1000 <= SubmittedTotal(0, start, pauses, resumes, now) + 999 * |pauses|
  {
    PausedSecondsBounds(pauses, resumes, now, |pauses|);
  }

  /**
   * Only open pauses (those without a resume) grow with "now": between two
   * instants the paused time grows by the elapsed span once per open pause.
   */
  lemma {:induction false} OpenPausesGrow(pauses: seq<int>, resumes: seq<int>, now1: int, now2: int, n: nat)
    requires n <= |pauses|
    ensures PausedMillis(pauses, resumes, now2, n) - PausedMillis(pauses, resumes, now1, n)
      == (n - Min(n, |resumes|)) * (now2 - now1)
  {
    if n > 0 {
      OpenPausesGrow(pauses, resumes, now1, now2, n - 1);
      if n - 1 >= |resumes| {
        MulSucc(n - 1 - Min(n - 1, |resumes|), now2 - now1);
      }
    }
  }

  function Min(a: int, b: int): int
  {
    if a <= b then a else b
  }

  lemma MulSucc(k: int, d: int)
    ensures (k + 1) * d == k * d + d
  {
  }

  /** The worked example: paused from 5 s to 8 s, submitted at 10 s, gives 7 s. */
  lemma WorkedExample(t0: int)
    ensures SubmittedTotal(0, t0, [t0 + 5000], [t0 + 8000], t0 + 10000) == 7000
    ensures ElapsedSeconds(Some(t0), [t0 + 5000], [t0 + 8000], t0 + 10000) == 7
  {
    var p, r := [t0 + 5000], [t0 + 8000];
    assert PausedMillis(p, r, t0 + 10000, 0) == 0;
    assert PausedMillis(p, r, t0 + 10000, 1) == 3000;
    assert PausedSeconds(p, r, t0 + 10000, 0) == 0;
    assert DiffSeconds(t0 + 8000, t0 + 5000) == 3;
    assert PausedSeconds(p, r, t0 + 10000, 1) == 3;
    assert DiffSeconds(t0 + 10000, t0) == 10;
  }
}
