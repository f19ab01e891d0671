/** The circuit breaker that gives up on durable writes after too many failures in a row. */
module WriteBreaker {
  const THRESHOLD: nat := 5

  datatype Breaker = Breaker(writes: nat, failedWrites: nat, consecutiveFailures: nat, degraded: bool)

  const CLOSED := Breaker(0, 0, 0, false)

  function OnSuccess(b: Breaker): Breaker {
    b.(writes := b.writes + 1, consecutiveFailures := 0)
  }

  function OnFailure(b: Breaker): Breaker {
    Breaker(b.writes + 1, b.failedWrites + 1, b.consecutiveFailures + 1,
            b.degraded || b.consecutiveFailures + 1 >= THRESHOLD)
  }

  class DurabilityCounters {
    var checkpointWriteTotal: nat
    var checkpointWriteFailedTotal: nat
    var consecutiveWriteFailures: nat
    var degraded: bool

    constructor ()
      ensures State() == CLOSED
    {
      checkpointWriteTotal, checkpointWriteFailedTotal, consecutiveWriteFailures, degraded := 0, 0, 0, false;
    }

    function State(): Breaker
      reads this
    {
      Breaker(checkpointWriteTotal, checkpointWriteFailedTotal, consecutiveWriteFailures, degraded)
    }

    method RecordCheckpointWriteSuccess()
      modifies this
      ensures State() == OnSuccess(old(State()))
    {
      checkpointWriteTotal := checkpointWriteTotal + 1;
      consecutiveWriteFailures := 0;
    }

    /** True exactly when this failure trips the breaker. */
    method RecordCheckpointWriteFailure() returns (tripped: bool)
      modifies this
      ensures State() == OnFailure(old(State()))
      ensures tripped <==> degraded && !old(degraded)
    {
      checkpointWriteTotal := checkpointWriteTotal + 1;
      checkpointWriteFailedTotal := checkpointWriteFailedTotal + 1;
      consecutiveWriteFailures := consecutiveWriteFailures + 1;
      var failures := consecutiveWriteFailures;
      if failures < THRESHOLD {
        return false;
      }
      var already := degraded;
      degraded := true;
      return !already;
    }
  }

  // ---- Any history of writes (true is a success) ----

  function After(history: seq<bool>): Breaker {
    if history == [] then CLOSED
    else
      var b := After(history[..|history| - 1]);
      if history[|history| - 1] then OnSuccess(b) else OnFailure(b)
  }

  /** How often a failure reported that it tripped the breaker. */
  function Alarms(history: seq<bool>): nat {
    if history == [] then 0
    else
      Alarms(history[..|history| - 1])
      + if After(history).degraded && !After(history[..|history| - 1]).degraded then 1 else 0
  }

  /** The writes before position `end` failed, `run` of them in a row. */
  predicate FailedRun(history: seq<bool>, end: int, run: int) {
    0 <= run <= end <= |history| && forall i | end - run <= i < end :: !history[i]
  }

  ghost predicate FiveInARow(history: seq<bool>) {
    exists end :: FailedRun(history, end, 5)
  }

  ghost function Failures(history: seq<bool>): set<nat> {
    set i: nat | i < |history| && !history[i]
  }

  /** The counters count all writes and those that failed. */
  lemma {:induction false} CountersCountWrites(history: seq<bool>)
    ensures After(history).writes == |history| && After(history).failedWrites == |Failures(history)|
    decreases |history|
  {
    if history == [] {
      assert Failures(history) == {};
    } else {
      var n := |history| - 1;
      CountersCountWrites(history[..n]);
      assert Failures(history) == Failures(history[..n]) + if history[n] then {} else {n};
    }
  }

  lemma {:induction false} CountsTrailingFailures(history: seq<bool>)
    ensures var n := After(history).consecutiveFailures;
            FailedRun(history, |history|, n) && !FailedRun(history, |history|, n + 1)
    decreases |history|
  {
    if history != [] {
      var before := history[..|history| - 1];
      CountsTrailingFailures(before);
      var n := After(before).consecutiveFailures;
      if !history[|history| - 1] {
        assert FailedRun(history, |history|, n + 1);
        if n + 2 <= |history| {
          assert before[|before| - (n + 1)] == history[|history| - (n + 2)];
        }
      } else {
        assert !FailedRun(history, |history|, 1);
      }
    }
  }

  lemma {:induction false} ShorterRuns(history: seq<bool>, end: int, run: int, shorter: nat)
    requires FailedRun(history, end, run) && shorter <= run
    ensures FailedRun(history, end, shorter)
  {
  }

  lemma {:induction false} RunsOfThePast(history: seq<bool>)
    requires history != []
    ensures FiveInARow(history) <==> FiveInARow(history[..|history| - 1]) || FailedRun(history, |history|, THRESHOLD)
  {
    var before := history[..|history| - 1];
    if FiveInARow(history) {
      var end :| FailedRun(history, end, THRESHOLD);
      if end < |history| {
        assert FailedRun(before, end, THRESHOLD);
      }
    }
    if FiveInARow(before) {
      var end :| FailedRun(before, end, THRESHOLD);
      assert forall i | end - THRESHOLD <= i < end :: history[i] == before[i];
      assert FailedRun(history, end, THRESHOLD);
    }
  }

  /**
  Whatever the history: the breaker is open exactly when five writes in a row have failed at some point,
  it never closes again, and it raises the alarm exactly once, when it opens.
  */
  lemma {:induction false} OpensAfterFiveInARow(history: seq<bool>)
    ensures After(history).degraded <==> FiveInARow(history)
    ensures Alarms(history) == if FiveInARow(history) then 1 else 0
    decreases |history|
  {
    if history == [] {
      assert forall end :: !FailedRun(history, end, THRESHOLD);
    } else {
      var before := history[..|history| - 1];
      OpensAfterFiveInARow(before);
      RunsOfThePast(history);
      CountsTrailingFailures(history);
      var n := After(history).consecutiveFailures;
      if n >= THRESHOLD {
        ShorterRuns(history, |history|, n, THRESHOLD);
      } else if FailedRun(history, |history|, THRESHOLD) {
        ShorterRuns(history, |history|, THRESHOLD, n + 1);
      }
    }
  }
}
