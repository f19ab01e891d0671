/** What memory holds after any history of a task, said of the events themselves. */
module RunHistory {
  import opened AgentTasks
  import opened Options
  import opened TaskResume

  // ---- The step under way ----

  /** The event runs step i of the task: it is there and not completed yet. */
  predicate RunsStep(memory: Option<Task>, e: Event, i: nat) {
    && memory != None && e.RunStep? && e.index == i && i < |memory.value.steps|
    && memory.value.steps[i].status != Completed
  }

  /** The event starts step i, or makes it wait for an approval. */
  predicate StartsStep(memory: Option<Task>, e: Event, i: nat) {
    RunsStep(memory, e, i) && (e.outcome.status == Running || e.outcome.status == AwaitingApproval)
  }

  /** The event leaves the current step and the status of the task alone. */
  predicate LeavesCurrent(memory: Option<Task>, e: Event) {
    && !e.Pause? && !e.Control? && !e.Resume? && !e.Crash?
    && (e.RunStep? ==> !StartsStep(memory, e, e.index))
  }

  ghost predicate CurrentLeftSince(w: World, es: seq<Event>, p: nat) {
    forall q | p < q < |es| :: LeavesCurrent(MemoryAt(w, es, q), es[q])
  }

  lemma {:induction false} LeavingCurrent(w: World, e: Event)
    requires w.memory.Some? && LeavesCurrent(w.memory, e)
    ensures var u := Step(w, e).memory;
            && u.Some? && u.value.currentStep == w.memory.value.currentStep && u.value.status == w.memory.value.status
  {
  }

  lemma {:induction false} StartingStep(w: World, e: Event, i: nat)
    requires StartsStep(w.memory, e, i)
    ensures var u := Step(w, e).memory;
            u.Some? && u.value.currentStep == Some(i) && u.value.status == e.outcome.status
  {
  }

  lemma {:induction false} LastEvent(w: World, es: seq<Event>)
    requires es != []
    ensures Run(w, es) == Step(Run(w, es[..|es| - 1]), es[|es| - 1])
    ensures MemoryAt(w, es, |es| - 1) == Run(w, es[..|es| - 1]).memory
  {
  }

  lemma {:induction false} MemoryBefore(w: World, es: seq<Event>, n: nat, q: nat)
    requires q <= n <= |es|
    ensures MemoryAt(w, es[..n], q) == MemoryAt(w, es, q)
  {
    assert es[..n][..q] == es[..q];
  }

  /** The step started last is the current one, also when it is over, and gave the task its status. */
  lemma {:induction false} CurrentIsTheLastStarted(w: World, es: seq<Event>, p: nat)
    requires p < |es| && es[p].RunStep? && StartsStep(MemoryAt(w, es, p), es[p], es[p].index)
    requires CurrentLeftSince(w, es, p)
    ensures var u := Run(w, es).memory;
            u.Some? && u.value.currentStep == Some(es[p].index) && u.value.status == es[p].outcome.status
    decreases |es|
  {
    hide Run, Step, MemoryAt, StartsStep, LeavesCurrent;
    var n := |es| - 1;
    LastEvent(w, es);
    if p == n {
      StartingStep(Run(w, es[..n]), es[n], es[p].index);
    } else {
      MemoryBefore(w, es, n, p);
      forall q | p < q < n ensures LeavesCurrent(MemoryAt(w, es[..n], q), es[..n][q]) {
        MemoryBefore(w, es, n, q);
      }
      CurrentIsTheLastStarted(w, es[..n], p);
      LeavingCurrent(Run(w, es[..n]), es[n]);
    }
  }

  // ---- The record of a step ----

  /** The event leaves the record of step i alone. */
  predicate LeavesRecord(memory: Option<Task>, e: Event, i: nat) {
    !e.Compress? && !e.Pause? && !e.Resume? && !e.Crash? && !RunsStep(memory, e, i)
  }

  ghost predicate RecordLeftSince(w: World, es: seq<Event>, p: nat, i: nat) {
    forall q | p < q < |es| :: LeavesRecord(MemoryAt(w, es, q), es[q], i)
  }

  lemma {:induction false} LeavingRecord(w: World, e: Event, i: nat)
    requires w.memory.Some? && i < |w.memory.value.steps| && LeavesRecord(w.memory, e, i)
    ensures var u := Step(w, e).memory;
            u.Some? && |u.value.steps| == |w.memory.value.steps| && u.value.steps[i] == w.memory.value.steps[i]
  {
  }

  lemma {:induction false} RunningStep(w: World, e: Event, i: nat)
    requires RunsStep(w.memory, e, i)
    ensures var u := Step(w, e).memory;
            u.Some? && i < |u.value.steps| && u.value.steps[i] == e.outcome
  {
  }

  /** The record of a step is the outcome it was given last. */
  lemma {:induction false} RecordIsTheLastOutcome(w: World, es: seq<Event>, p: nat)
    requires p < |es| && es[p].RunStep? && RunsStep(MemoryAt(w, es, p), es[p], es[p].index)
    requires RecordLeftSince(w, es, p, es[p].index)
    ensures var u := Run(w, es).memory;
            u.Some? && es[p].index < |u.value.steps| && u.value.steps[es[p].index] == es[p].outcome
    decreases |es|
  {
    hide Run, Step, MemoryAt, RunsStep, LeavesRecord;
    var n, i := |es| - 1, es[p].index;
    LastEvent(w, es);
    if p == n {
      RunningStep(Run(w, es[..n]), es[n], i);
    } else {
      MemoryBefore(w, es, n, p);
      forall q | p < q < n ensures LeavesRecord(MemoryAt(w, es[..n], q), es[..n][q], i) {
        MemoryBefore(w, es, n, q);
      }
      RecordIsTheLastOutcome(w, es[..n], p);
      LeavingRecord(Run(w, es[..n]), es[n], i);
    }
  }

  /** Whatever else changes a task leaves its steps alone and is not undone by anything here. */
  lemma {:induction false} ControlKeepsOnlyTheSteps(w: World, es: seq<Event>, update: Task)
    requires es != [] && es[|es| - 1] == Control(update) && MemoryAt(w, es, |es| - 1).Some?
    ensures Run(w, es).memory.Some?
    ensures var was, t := MemoryAt(w, es, |es| - 1).value, Run(w, es).memory.value;
            t.steps == was.steps && t.(steps := update.steps) == update
  {
    LastEvent(w, es);
  }

  // ---- The checkpoints under way ----

  /** As many checkpoints as were taken of a task in memory. */
  function Taken(w: World, es: seq<Event>): nat {
    if es == [] then 0
    else
      Taken(w, es[..|es| - 1])
      + if es[|es| - 1].Take? && Run(w, es[..|es| - 1]).memory.Some? then 1 else 0
  }

  /** As many as landed in the row or were lost. */
  function Settled(w: World, es: seq<Event>): nat {
    if es == [] then 0
    else
      Settled(w, es[..|es| - 1])
      + if (es[|es| - 1].Land? || es[|es| - 1].Lose?) && es[|es| - 1].write < |Run(w, es[..|es| - 1]).writes| then 1
        else 0
  }

  lemma {:induction false} OneMoreWrite(w: World, e: Event)
    requires !e.Crash?
    ensures |Step(w, e).writes| ==
            |w.writes| + (if e.Take? && w.memory.Some? then 1 else 0)
            - (if (e.Land? || e.Lose?) && e.write < |w.writes| then 1 else 0)
  {
  }

  /** Short of a crash every checkpoint taken is still under way, has landed or was lost. */
  lemma {:induction false} WritesAreConserved(w: World, es: seq<Event>)
    requires forall e | e in es :: !e.Crash?
    ensures |w.writes| + Taken(w, es) == |Run(w, es).writes| + Settled(w, es)
  {
    if es != [] {
      var n := |es| - 1;
      assert es[n] in es;
      WritesAreConserved(w, es[..n]);
      OneMoreWrite(Run(w, es[..n]), es[n]);
    }
  }
}
