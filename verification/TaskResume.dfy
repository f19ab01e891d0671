/** Resuming an interrupted task, and what survives any number of crashes, recoveries and resumptions. */
module TaskResume {
  import opened AgentTasks
  import Compression = ContextCompression
  import opened Options
  import opened TaskRecovery
  import Text

  const QUEUED_MESSAGE := "Queued for resumed execution."

  /** A step that has to run again, as if it had never been started. */
  function Requeued(now: nat): StepSummary {
    StepSummary(Queued, QUEUED_MESSAGE, None, None, NO_METADATA, None, now, None, None, None, None)
  }

  predicate IsCompleted(step: StepSummary) {
    step.status == Completed
  }

  /** Completed steps stay as they are, all others are requeued. */
  function Prepared(steps: seq<StepSummary>, now: nat): (r: seq<StepSummary>)
    ensures |r| == |steps|
    ensures forall i | 0 <= i < |steps| :: r[i] == if IsCompleted(steps[i]) then steps[i] else Requeued(now)
  {
    seq(|steps|, i requires 0 <= i < |steps| => if IsCompleted(steps[i]) then steps[i] else Requeued(now))
  }

  function FirstUnfinished(steps: seq<StepSummary>): (first: Option<nat>)
    ensures first.Some? ==> first.value < |steps| && !IsCompleted(steps[first.value])
    ensures forall i | 0 <= i < |steps| && (first.None? || i < first.value) :: IsCompleted(steps[i])
  {
    if steps == [] then None
    else if !IsCompleted(steps[0]) then Some(0)
    else
      var rest := FirstUnfinished(steps[1..]);
      assert forall i | 1 <= i < |steps| :: steps[i] == steps[1..][i - 1];
      if rest.Some? then Some(rest.value + 1) else None
  }

  /** Overwrites the steps in place and finds where to continue. */
  method PrepareStepsForResume(steps: array<StepSummary>, now: nat) returns (firstPending: Option<nat>)
    modifies steps
    ensures steps[..] == Prepared(old(steps[..]), now)
    ensures firstPending == FirstUnfinished(old(steps[..]))
  {
    firstPending := None;
    for i := 0 to steps.Length
      invariant forall k | 0 <= k < i :: steps[k] == if IsCompleted(old(steps[k])) then old(steps[k]) else Requeued(now)
      invariant forall k | i <= k < steps.Length :: steps[k] == old(steps[k])
      invariant firstPending.Some? ==> firstPending.value < i && !IsCompleted(old(steps[firstPending.value]))
      invariant forall k | 0 <= k < i && (firstPending.None? || k < firstPending.value) :: IsCompleted(old(steps[k]))
    {
      if !IsCompleted(steps[i]) {
        if firstPending.None? {
          firstPending := Some(i);
        }
        steps[i] := Requeued(now);
      }
    }
    FirstUnfinishedIsUnique(old(steps[..]), firstPending);
  }

  lemma {:induction false} FirstUnfinishedIsUnique(steps: seq<StepSummary>, first: Option<nat>)
    requires first.Some? ==> first.value < |steps| && !IsCompleted(steps[first.value])
    requires forall i | 0 <= i < |steps| && (first.None? || i < first.value) :: IsCompleted(steps[i])
    ensures first == FirstUnfinished(steps)
  {
    var other := FirstUnfinished(steps);
    if first.Some? && other.Some? {
      assert !(first.value < other.value) && !(other.value < first.value);
    }
  }

  function Resumed(t: Task, now: nat): Task {
    t.(status := Queued,
       pendingApprovalId := None,
       pendingApproval := None,
       errorCode := None,
       errorMessage := None,
       completedAt := None,
       updatedAt := now,
       interruptRequested := false,
       recovered := t.recovered || IsRecoveryInterrupted(t),
       steps := Prepared(t.steps, now),
       currentStep := FirstUnfinished(t.steps))
  }

  /**
  A resumed task continues at its first step that is not completed: that step and every later unfinished one is queued
  afresh, everything before it is completed and untouched.
  */
  lemma {:induction false} ResumeContinuesWhereItStopped(t: Task, now: nat)
    ensures var r := Resumed(t, now);
            && |r.steps| == |t.steps|
            && (forall i | 0 <= i < |t.steps| && IsCompleted(t.steps[i]) :: r.steps[i] == t.steps[i])
            && (forall i | 0 <= i < |t.steps| && !IsCompleted(t.steps[i]) :: r.steps[i] == Requeued(now))
            && r.currentStep == FirstUnfinished(r.steps)
  {
    var r := Resumed(t, now);
    var first := FirstUnfinished(t.steps);
    FirstUnfinishedIsUnique(r.steps, first);
  }

  /** Everything else a resumption changes: the task is queued as if new, and knows whether a restart had stopped it. */
  lemma {:induction false} ResumptionClears(t: Task, now: nat)
    ensures var r := Resumed(t, now);
            && r.status == Queued && r.updatedAt == now && r.completedAt == None
            && r.errorCode == None && r.errorMessage == None && !r.interruptRequested
            && r.pendingApprovalId == None && r.pendingApproval == None
            && (r.recovered <==>
                  t.recovered || (t.status == Interrupted && t.errorCode == Some("RUNTIME_RESTART_RECOVERY")))
            && r.taskId == t.taskId && r.workspaceId == t.workspaceId && r.checkpointId == t.checkpointId
    ensures forall i | 0 <= i < |t.steps| && !IsCompleted(t.steps[i]) :: IsFresh(Resumed(t, now).steps[i], now)
  {
  }

  /** Nothing is left of an earlier attempt. */
  predicate IsFresh(step: StepSummary, now: nat) {
    && step.status == Queued && step.message == "Queued for resumed execution." && step.updatedAt == now
    && step.runId == None && step.output == None && step.startedAt == None && step.completedAt == None
    && step.errorCode == None && step.errorMessage == None && step.approvalId == None
    && step.metadata == Object("{}", NoNote)
  }

  // ---- The resume request ----

  datatype Answer = Accepted | NotFound | NotResumable(status: Status)

  /** A task that is not in memory is taken from its own row, if that hydrates. The approval index is not told. */
  function Adopt(s: Store, id: string, fromRow: Option<Task>): Store {
    if id !in s.tasks && fromRow.Some? then s.(tasks := s.tasks[id := fromRow.value], order := s.order + [id]) else s
  }

  function HandleResume(s: Store, id: string, fromRow: Option<Task>, now: nat): (Store, Answer) {
    var a := Adopt(s, id, fromRow);
    if id !in a.tasks then (a, NotFound)
    else if !IsResumable(a.tasks[id]) then (a, NotResumable(a.tasks[id].status))
    else
      var t := a.tasks[id];
      (Store(a.tasks[id := Resumed(t, now)], a.order,
             if t.pendingApprovalId.Some? then a.approvalIndex - {t.pendingApprovalId.value} else a.approvalIndex),
       Accepted)
  }

  /**
  What the request does: it is accepted exactly for a task in memory or in its row that is paused or was interrupted by
  a restart; then that task is resumed. Otherwise no task is changed. No other task is touched either way.
  */
  lemma {:induction false} ResumeAnswers(s: Store, id: string, fromRow: Option<Task>, now: nat)
    ensures var (after, answer) := HandleResume(s, id, fromRow, now);
            && (answer == NotFound <==> id !in s.tasks && fromRow == None)
            && (answer == NotFound ==> after == s)
            && after.order == (if id in s.tasks || fromRow == None then s.order else s.order + [id])
            && (answer != NotFound ==>
                  && id in after.tasks && after.tasks.Keys == s.tasks.Keys + {id}
                  && var t := if id in s.tasks then s.tasks[id] else fromRow.value;
                     && (answer == Accepted <==>
                           t.status == Paused
                           || (t.status == Interrupted && t.errorCode == Some("RUNTIME_RESTART_RECOVERY")))
                     && (answer == Accepted ==> after.tasks[id] == Resumed(t, now))
                     && (answer != Accepted ==> answer == NotResumable(t.status) && after.tasks[id] == t))
            && forall other | other in s.tasks && other != id :: after.tasks[other] == s.tasks[other]
  {
  }

  lemma {:induction false} ResumeKeepsOrderExact(s: Store, id: string, fromRow: Option<Task>, now: nat)
    requires OrderIsExact(s)
    ensures OrderIsExact(HandleResume(s, id, fromRow, now).0)
  {
    var a := Adopt(s, id, fromRow);
    assert OrderIsExact(a) by {
      if id !in s.tasks && fromRow.Some? {
        assert id !in s.order;
      }
    }
  }

  /** The request brings a task into memory that waits for an approval. */
  predicate AdoptsWaiting(s: Store, id: string, fromRow: Option<Task>) {
    id !in s.tasks && fromRow.Some? && fromRow.value.status == AwaitingApproval && fromRow.value.pendingApproval.Some?
  }

  /** The resumed task still names an approval that another task waits for. */
  predicate ClearsForeignApproval(s: Store, id: string, fromRow: Option<Task>) {
    var a := Adopt(s, id, fromRow);
    && id in a.tasks && IsResumable(a.tasks[id])
    && a.tasks[id].pendingApprovalId.Some? && a.tasks[id].pendingApprovalId.value in s.approvalIndex
  }

  lemma {:induction false} AdoptingKeepsIndexExact(s: Store, id: string, fromRow: Option<Task>)
    requires IndexIsExact(s)
    ensures IndexIsExact(Adopt(s, id, fromRow)) <==> !AdoptsWaiting(s, id, fromRow)
  {
    var a := Adopt(s, id, fromRow);
    if AdoptsWaiting(s, id, fromRow) {
      var approval := fromRow.value.pendingApproval.value;
      assert Awaits(a.tasks[id], approval);
      assert approval in a.approvalIndex ==> a.approvalIndex[approval] in s.tasks;
    } else if a != s {
      forall x, p | x in a.tasks && Awaits(a.tasks[x], p) ensures p in a.approvalIndex && a.approvalIndex[p] == x {
        assert x != id;
      }
    }
  }

  lemma {:induction false} ClearingKeepsIndexExact(a: Store, id: string, t: Task)
    requires IndexIsExact(a) && id in a.tasks && a.tasks[id].status != AwaitingApproval && t.status != AwaitingApproval
    ensures IndexIsExact(a.(tasks := a.tasks[id := t]))
  {
    var r := a.(tasks := a.tasks[id := t]);
    forall p | p in r.approvalIndex ensures r.approvalIndex[p] in r.tasks && Awaits(r.tasks[r.approvalIndex[p]], p) {
      assert Awaits(a.tasks[a.approvalIndex[p]], p);
    }
  }

  lemma {:induction false} RemovingAnAwaitedApprovalSpoils(a: Store, p: string)
    requires IndexIsExact(a)
    ensures IndexIsExact(a.(approvalIndex := a.approvalIndex - {p})) <==> p !in a.approvalIndex
  {
    var r := a.(approvalIndex := a.approvalIndex - {p});
    if p in a.approvalIndex {
      assert Awaits(r.tasks[a.approvalIndex[p]], p) && p !in r.approvalIndex;
    } else {
      assert r.approvalIndex == a.approvalIndex;
    }
  }

  /** A resume request leaves the approval index exact in all but exactly two situations. */
  lemma {:induction false} ResumeKeepsIndexExactly(s: Store, id: string, fromRow: Option<Task>, now: nat)
    requires IndexIsExact(s)
    ensures IndexIsExact(HandleResume(s, id, fromRow, now).0) <==>
            !AdoptsWaiting(s, id, fromRow) && !ClearsForeignApproval(s, id, fromRow)
  {
    var a := Adopt(s, id, fromRow);
    AdoptingKeepsIndexExact(s, id, fromRow);
    if id in a.tasks && IsResumable(a.tasks[id]) {
      var t := a.tasks[id];
      assert !AdoptsWaiting(s, id, fromRow);
      var b := a.(tasks := a.tasks[id := Resumed(t, now)]);
      ClearingKeepsIndexExact(a, id, Resumed(t, now));
      if t.pendingApprovalId.Some? {
        RemovingAnAwaitedApprovalSpoils(b, t.pendingApprovalId.value);
      }
    }
  }

  /**
  A row awaiting approval "a", brought into memory by a resume request: its task is stored, its approval is not
  indexed.
  */
  lemma {:induction false} AdoptedApprovalIsNotIndexed(workspace: string, now: nat)
    ensures var t := Task("t", workspace, AwaitingApproval, [], None, None, None, None, 0, Some("a"), Some("a"),
                          false, None, true);
            var r := HandleResume(EMPTY_STORE, "t", Some(t), now);
            && IndexIsExact(EMPTY_STORE) && r.1 == NotResumable(AwaitingApproval)
            && "t" in r.0.tasks && Awaits(r.0.tasks["t"], "a") && "a" !in r.0.approvalIndex && !IndexIsExact(r.0)
  {
    var t := Task("t", workspace, AwaitingApproval, [], None, None, None, None, 0, Some("a"), Some("a"), false, None,
                  true);
    ResumeKeepsIndexExactly(EMPTY_STORE, "t", Some(t), now);
  }

  // ---- Checkpoints, crashes, recoveries and resumptions of one task ----

  /** A snapshot on its way to the table, and the time it was taken at. */
  datatype Write = Write(snapshot: Snapshot, takenAt: nat)

  /**
  The durable row of the task with the time its snapshot was taken at (None for a row from before this history), the
  task in memory while the runtime is up, and the checkpoints taken but not yet written, oldest first. Time counts
  events.
  */
  datatype World = World(row: Option<Snapshot>, rowTakenAt: Option<nat>, memory: Option<Task>, writes: seq<Write>,
      time: nat)

  datatype Event =
    | RunStep(index: nat, outcome: StepSummary)
    | Compress(current: nat, keepRecent: nat, maxChars: nat, now: nat)
    | Pause(reason: string, now: nat)
    | Control(update: Task)
    | Take(checkpointId: string, updatedAt: U64)
    | Land(write: nat)
    | Lose(write: nat)
    | Crash
    | Restart(now: nat)
    | Resume(now: nat)

  function SnapshotOf(t: Task, checkpointId: string, updatedAt: U64): Snapshot {
    Snapshot(t.taskId, t.workspaceId, checkpointId, t.(checkpointId := Some(checkpointId)), t.interruptRequested,
        updatedAt)
  }

  /** A checkpoint comes back as the task it was taken of, marked as recovered, unless that was running. */
  lemma {:induction false} CheckpointsComeBack(t: Task, checkpointId: string, at: U64, now: nat)
    requires t.taskId != "" && Text.Trimmed(t.taskId) && t.status != Running
    requires t.workspaceId == "" || Text.Trim(t.workspaceId) != ""
    ensures Hydrate(SnapshotOf(t, checkpointId, at), now) ==
            Some(t.(checkpointId := Some(checkpointId), recovered := true,
                    updatedAt := if t.updatedAt >= at then t.updatedAt else at))
    ensures var s := SnapshotOf(t, checkpointId, at);
            && s.taskId == t.taskId && s.workspaceId == t.workspaceId && s.checkpointId == checkpointId
            && s.summary.checkpointId == Some(checkpointId) && s.updatedAt == at
  {
  }

  function StepsOf(write: Write): seq<StepSummary> {
    write.snapshot.summary.steps
  }

  function Removed(writes: seq<Write>, k: nat): seq<Write>
    requires k < |writes|
  {
    writes[..k] + writes[k + 1..]
  }

  /** The runner skips completed steps. A step that starts or waits becomes the current one, and stays so at its end. */
  function AfterStep(t: Task, i: nat, outcome: StepSummary): Task {
    if i >= |t.steps| || IsCompleted(t.steps[i]) then t
    else if outcome.status in {Running, AwaitingApproval} then
      t.(steps := t.steps[i := outcome], currentStep := Some(i), status := outcome.status)
    else t.(steps := t.steps[i := outcome])
  }

  function PausedStep(step: StepSummary, reason: string, now: nat): StepSummary {
    step.(status := Paused, errorCode := Some("TASK_PAUSED"), errorMessage := Some(reason), message := reason,
          completedAt := Some(now), updatedAt := now)
  }

  /** Only a running task can be paused. Whatever step is the current one is marked as paused too. */
  function AfterPause(t: Task, reason: string, now: nat): Task {
    if t.status != Running then t
    else
      t.(status := Paused, errorCode := Some("TASK_PAUSED"), errorMessage := Some(reason), currentStep := None,
         completedAt := Some(now), updatedAt := now,
         steps := if t.currentStep.Some? && t.currentStep.value < |t.steps|
                  then t.steps[t.currentStep.value := PausedStep(t.steps[t.currentStep.value], reason, now)]
                  else t.steps)
  }

  /** What a pause changes beyond the steps, and on the step it marks. */
  lemma {:induction false} PauseMeans(t: Task, reason: string, now: nat)
    ensures var p := AfterPause(t, reason, now);
            if t.status != Running then p == t
            else
              && p.status == Paused && p.currentStep == None && p.errorCode == Some("TASK_PAUSED")
              && p.errorMessage == Some(reason) && p.completedAt == Some(now) && p.updatedAt == now
              && |p.steps| == |t.steps|
              && (forall i | 0 <= i < |t.steps| && t.currentStep != Some(i) :: p.steps[i] == t.steps[i])
              && (forall i: nat | i < |t.steps| && t.currentStep == Some(i) ::
                    && p.steps[i].status == Paused && p.steps[i].errorCode == Some("TASK_PAUSED")
                    && p.steps[i].message == reason && p.steps[i].errorMessage == Some(reason)
                    && p.steps[i].completedAt == Some(now) && p.steps[i].updatedAt == now
                    && p.steps[i].output == t.steps[i].output && p.steps[i].metadata == t.steps[i].metadata)
  {
  }

  function AfterCompression(t: Task, current: nat, keepRecent: nat, maxChars: nat, now: nat): Task {
    t.(steps := Compression.Compress(t.steps, Compression.Bound(current, keepRecent), maxChars, now))
  }

  /** Requests other than to pause and to resume change a task but none of its steps. */
  function OnMemory(memory: Option<Task>, e: Event): Option<Task> {
    if memory.None? then None
    else
      var t := memory.value;
      match e
      case RunStep(i, outcome) => Some(AfterStep(t, i, outcome))
      case Compress(current, keepRecent, maxChars, now) =>
        Some(AfterCompression(t, current, keepRecent, maxChars, now))
      case Pause(reason, now) => Some(AfterPause(t, reason, now))
      case Control(update) => Some(update.(steps := t.steps))
      case Resume(now) => if IsResumable(t) then Some(Resumed(t, now)) else memory
      case Crash => None
      case _ => memory
  }

  /**
  A checkpoint is taken at once and written by a task of its own: checkpoints land in any order or not at all, each
  replaces the row whatever it holds, and a crash loses those still under way.
  */
  function Effect(w: World, e: Event): World {
    match e
    case Take(id, at) =>
      if w.memory.Some? then w.(writes := w.writes + [Write(SnapshotOf(w.memory.value, id, at), w.time)]) else w
    case Land(k) =>
      if k < |w.writes| then
        w.(row := Some(w.writes[k].snapshot), rowTakenAt := Some(w.writes[k].takenAt), writes := Removed(w.writes, k))
      else w
    case Lose(k) => if k < |w.writes| then w.(writes := Removed(w.writes, k)) else w
    case Crash => w.(memory := None, writes := [])
    case Restart(now) => if w.memory.None? && w.row.Some? then w.(memory := Hydrate(w.row.value, now)) else w
    case _ => w.(memory := OnMemory(w.memory, e))
  }

  function Step(w: World, e: Event): World {
    Effect(w, e).(time := w.time + 1)
  }

  function Run(w: World, es: seq<Event>): World {
    if es == [] then w else Step(Run(w, es[..|es| - 1]), es[|es| - 1])
  }

  /**
  As many steps, and every completed one of the first is in the second: completed, and with the same record but for
  one compression at the most.
  */
  ghost predicate Keeps(before: seq<StepSummary>, after: seq<StepSummary>) {
    && |before| == |after|
    && forall i | 0 <= i < |before| && IsCompleted(before[i]) :: Compression.Follows(before[i], after[i])
  }

  /** As many steps, and every completed one of the first is completed in the second. */
  ghost predicate StillCompleted(before: seq<StepSummary>, after: seq<StepSummary>) {
    |before| == |after| && forall i | 0 <= i < |before| && IsCompleted(before[i]) :: IsCompleted(after[i])
  }

  lemma {:induction false} KeptIsStillCompleted(before: seq<StepSummary>, after: seq<StepSummary>)
    requires Keeps(before, after)
    ensures StillCompleted(before, after)
  {
    forall i | 0 <= i < |before| && IsCompleted(before[i]) ensures IsCompleted(after[i]) {
      Compression.FollowsOnce(before[i], after[i], after[i]);
    }
  }

  function RowSteps(w: World): seq<StepSummary>
    requires w.row.Some?
  {
    w.row.value.summary.steps
  }

  // ---- What every interleaving keeps ----

  /** Memory is never behind the row. */
  ghost predicate UpToDate(w: World) {
    w.row.Some? && w.memory.Some? ==> Keeps(RowSteps(w), w.memory.value.steps)
  }

  /**
  Checkpoints under way were taken from this very task: each is no further than the next, and none further than
  memory.
  */
  ghost predicate WritesAgree(w: World) {
    && (w.writes != [] ==> w.memory.Some?)
    && (forall i | 0 <= i < |w.writes| ::
          w.writes[i].takenAt < w.time && Keeps(StepsOf(w.writes[i]), w.memory.value.steps))
    && forall i, j | 0 <= i < j < |w.writes| ::
         w.writes[i].takenAt < w.writes[j].takenAt && Keeps(StepsOf(w.writes[i]), StepsOf(w.writes[j]))
  }

  /** The checkpoint was taken after the one the row holds. */
  predicate IsNewer(w: World, write: Write) {
    w.rowTakenAt.Some? ==> w.rowTakenAt.value < write.takenAt
  }

  ghost predicate NewerAgree(w: World) {
    && (w.rowTakenAt.Some? ==> w.rowTakenAt.value < w.time)
    && forall i | 0 <= i < |w.writes| && w.row.Some? && IsNewer(w, w.writes[i]) ::
         Keeps(RowSteps(w), StepsOf(w.writes[i]))
  }

  ghost predicate Consistent(w: World) {
    UpToDate(w) && WritesAgree(w) && NewerAgree(w)
  }

  ghost predicate RowGrows(w: World, v: World) {
    w.row.Some? ==> v.row.Some? && Keeps(RowSteps(w), RowSteps(v))
  }

  ghost predicate MemoryGrows(before: Option<Task>, after: Option<Task>) {
    before.Some? ==> after.Some? && Keeps(before.value.steps, after.value.steps)
  }

  lemma {:induction false} KeepsChains(a: seq<StepSummary>, b: seq<StepSummary>, c: seq<StepSummary>)
    requires Keeps(a, b) && Keeps(b, c)
    ensures Keeps(a, c)
  {
    KeptIsStillCompleted(a, b);
    forall i | 0 <= i < |a| && IsCompleted(a[i]) ensures Compression.Follows(a[i], c[i]) {
      Compression.FollowsOnce(a[i], b[i], c[i]);
    }
  }

  /** The event completes a step of the task in memory. */
  predicate Completes(memory: Option<Task>, e: Event) {
    && memory.Some? && e.RunStep? && e.index < |memory.value.steps| && !IsCompleted(memory.value.steps[e.index])
    && IsCompleted(e.outcome)
  }

  /** The event compresses the record of a completed step of the task in memory. */
  ghost predicate CompressesCompleted(memory: Option<Task>, e: Event) {
    && memory.Some? && e.Compress?
    && exists i: nat :: Compression.Rewrites(memory.value.steps, Compression.Bound(e.current, e.keepRecent), i)
                   && IsCompleted(memory.value.steps[i])
  }

  /** The event pauses a running task whose current step is one that is completed already. */
  predicate PausesCompleted(memory: Option<Task>, e: Event) {
    && memory.Some? && e.Pause? && memory.value.status == Running
    && memory.value.currentStep.Some? && memory.value.currentStep.value < |memory.value.steps|
    && IsCompleted(memory.value.steps[memory.value.currentStep.value])
  }

  lemma {:induction false} OneStepChanges(before: seq<StepSummary>, i: nat, step: StepSummary)
    requires i < |before| && !IsCompleted(before[i])
    ensures Keeps(before, before[i := step])
    ensures Keeps(before[i := step], before) <==> !IsCompleted(step)
    ensures StillCompleted(before[i := step], before) <==> !IsCompleted(step)
  {
    var after := before[i := step];
    if Keeps(after, before) {
      KeptIsStillCompleted(after, before);
    }
    if IsCompleted(step) {
      assert IsCompleted(after[i]) && !IsCompleted(before[i]);
    }
  }

  lemma {:induction false} PausingMoves(t: Task, e: Event)
    requires e.Pause?
    ensures var u := OnMemory(Some(t), e);
            && u.Some? && (Keeps(t.steps, u.value.steps) <==> !PausesCompleted(Some(t), e))
            && (StillCompleted(t.steps, u.value.steps) <==> !PausesCompleted(Some(t), e))
            && Keeps(u.value.steps, t.steps) && StillCompleted(u.value.steps, t.steps)
  {
    var after := OnMemory(Some(t), e).value.steps;
    if t.status == Running && t.currentStep.Some? && t.currentStep.value < |t.steps| {
      var i := t.currentStep.value;
      assert after[i].status == Paused;
      if IsCompleted(t.steps[i]) {
        if Keeps(t.steps, after) {
          KeptIsStillCompleted(t.steps, after);
        }
      }
    }
  }

  lemma {:induction false} CompressingMoves(t: Task, e: Event)
    requires e.Compress?
    ensures var u := OnMemory(Some(t), e);
            && u.Some? && Keeps(t.steps, u.value.steps) && StillCompleted(u.value.steps, t.steps)
            && (Keeps(u.value.steps, t.steps) <==> !CompressesCompleted(Some(t), e))
  {
    var after := OnMemory(Some(t), e).value.steps;
    var bound := Compression.Bound(e.current, e.keepRecent);
    forall i | 0 <= i < |t.steps|
      ensures Compression.Follows(t.steps[i], after[i]) && after[i].status == t.steps[i].status
      ensures Compression.Follows(after[i], t.steps[i]) <==> !Compression.Rewrites(t.steps, bound, i)
    {
      if Compression.Rewrites(t.steps, bound, i) {
        Compression.CompressionFollows(t.steps[i], e.maxChars, e.now);
      }
    }
    if CompressesCompleted(Some(t), e) {
      var i: nat :| Compression.Rewrites(t.steps, bound, i) && IsCompleted(t.steps[i]);
      assert IsCompleted(after[i]) && !Compression.Follows(after[i], t.steps[i]);
    }
  }

  /**
  What an event does to the completed steps in memory, short of a crash. It keeps them exactly when it does not pause
  on a completed step; and if it does keep them, it adds one exactly when it completes a step, and changes nothing
  about them exactly when it neither completes a step nor compresses a completed one.
  */
  lemma {:induction false} MemoryMovesExactly(t: Task, e: Event)
    requires !e.Crash?
    ensures var u := OnMemory(Some(t), e);
            && u.Some?
            && (Keeps(t.steps, u.value.steps) <==> !PausesCompleted(Some(t), e))
            && (StillCompleted(t.steps, u.value.steps) <==> !PausesCompleted(Some(t), e))
            && (StillCompleted(u.value.steps, t.steps) <==> !Completes(Some(t), e))
            && (Keeps(u.value.steps, t.steps) <==>
                  !Completes(Some(t), e) && !CompressesCompleted(Some(t), e))
  {
    match e
    case RunStep(i, outcome) =>
      if i < |t.steps| && !IsCompleted(t.steps[i]) { OneStepChanges(t.steps, i, outcome); }
    case Compress(_, _, _, _) =>
      CompressingMoves(t, e);
      KeptIsStillCompleted(t.steps, OnMemory(Some(t), e).value.steps);
    case Pause(_, _) => PausingMoves(t, e);
    case Resume(now) => ResumeContinuesWhereItStopped(t, now);
    case _ =>
  }

  lemma {:induction false} MemoryOfStep(w: World, e: Event)
    requires w.memory.Some? && !e.Crash?
    ensures Step(w, e).memory == OnMemory(w.memory, e)
  {
  }

  lemma {:induction false} MemoryStepKeeps(w: World, e: Event)
    requires !e.Crash?
    ensures MemoryGrows(w.memory, Step(w, e).memory) <==> !PausesCompleted(w.memory, e)
  {
    if w.memory.Some? {
      MemoryOfStep(w, e);
      MemoryMovesExactly(w.memory.value, e);
    }
  }

  lemma {:induction false} MovingMemoryKeepsConsistent(w: World, e: Event)
    requires Consistent(w) && (e.RunStep? || e.Compress? || e.Pause? || e.Control? || e.Resume?)
    requires !PausesCompleted(w.memory, e)
    ensures Consistent(Step(w, e))
  {
    var v := Step(w, e);
    assert v.row == w.row && v.writes == w.writes && v.rowTakenAt == w.rowTakenAt;
    if w.memory.Some? {
      MemoryOfStep(w, e);
      MemoryMovesExactly(w.memory.value, e);
      var before, after := w.memory.value.steps, v.memory.value.steps;
      forall i | 0 <= i < |w.writes| ensures Keeps(StepsOf(w.writes[i]), after) {
        KeepsChains(StepsOf(w.writes[i]), before, after);
      }
      if w.row.Some? {
        KeepsChains(RowSteps(w), before, after);
      }
    }
  }

  lemma {:induction false} TakingKeepsConsistent(w: World, e: Event)
    requires Consistent(w) && e.Take?
    ensures Consistent(Step(w, e))
  {
    var v := Step(w, e);
    if w.memory.Some? {
      var n := |w.writes|;
      assert StepsOf(v.writes[n]) == w.memory.value.steps && v.writes[n].takenAt == w.time;
      assert forall i | 0 <= i < n :: v.writes[i] == w.writes[i];
    }
  }

  lemma {:induction false} RemovingKeepsAgreement(w: World, k: nat)
    requires WritesAgree(w) && k < |w.writes|
    ensures WritesAgree(w.(writes := Removed(w.writes, k)))
    ensures forall x | x in Removed(w.writes, k) :: x in w.writes
  {
    var rest := Removed(w.writes, k);
    forall i | 0 <= i < |rest| ensures rest[i] == if i < k then w.writes[i] else w.writes[i + 1] {
    }
  }

  lemma {:induction false} LosingKeepsConsistent(w: World, k: nat)
    requires Consistent(w) && k < |w.writes|
    ensures Consistent(Step(w, Lose(k)))
  {
    RemovingKeepsAgreement(w, k);
    var v := Step(w, Lose(k));
    forall i | 0 <= i < |v.writes| && v.row.Some? && IsNewer(v, v.writes[i])
        ensures Keeps(RowSteps(v), StepsOf(v.writes[i])) {
      assert v.writes[i] in w.writes;
    }
  }

  lemma {:induction false} LandingKeepsConsistent(w: World, k: nat)
    requires Consistent(w) && k < |w.writes|
    ensures Consistent(Step(w, Land(k)))
  {
    RemovingKeepsAgreement(w, k);
    var v := Step(w, Land(k));
    forall i | 0 <= i < |v.writes| && IsNewer(v, v.writes[i]) ensures Keeps(RowSteps(v), StepsOf(v.writes[i])) {
      assert v.writes[i] in w.writes;
      var j :| 0 <= j < |w.writes| && w.writes[j] == v.writes[i];
      assert k < j;
    }
  }

  lemma {:induction false} StepKeepsConsistent(w: World, e: Event)
    requires Consistent(w) && !PausesCompleted(w.memory, e)
    ensures Consistent(Step(w, e))
  {
    match e
    case RunStep(_, _) => MovingMemoryKeepsConsistent(w, e);
    case Compress(_, _, _, _) => MovingMemoryKeepsConsistent(w, e);
    case Pause(_, _) => MovingMemoryKeepsConsistent(w, e);
    case Control(_) => MovingMemoryKeepsConsistent(w, e);
    case Resume(_) => MovingMemoryKeepsConsistent(w, e);
    case Take(_, _) => TakingKeepsConsistent(w, e);
    case Land(k) => if k < |w.writes| { LandingKeepsConsistent(w, k); }
    case Lose(k) => if k < |w.writes| { LosingKeepsConsistent(w, k); }
    case Crash =>
    case Restart(_) =>
  }

  /** No pause comes while the current step is a completed one, that is, between two steps. */
  ghost predicate Undisturbed(w: World, es: seq<Event>) {
    forall i | 0 <= i < |es| :: !PausesCompleted(Run(w, es[..i]).memory, es[i])
  }

  lemma {:induction false} UndisturbedBefore(w: World, es: seq<Event>)
    requires Undisturbed(w, es) && es != []
    ensures Undisturbed(w, es[..|es| - 1]) && !PausesCompleted(Run(w, es[..|es| - 1]).memory, es[|es| - 1])
  {
    var before := es[..|es| - 1];
    forall i | 0 <= i < |before| ensures !PausesCompleted(Run(w, before[..i]).memory, before[i]) {
      assert before[..i] == es[..i];
    }
  }

  /**
  In every interleaving without such a pause, memory holds every step that is completed in the row, even when
  checkpoints overtake each other.
  */
  lemma {:induction false} MemoryIsNeverBehindTheRow(w: World, es: seq<Event>)
    requires Consistent(w) && Undisturbed(w, es)
    ensures Consistent(Run(w, es)) && UpToDate(Run(w, es))
    decreases |es|
  {
    if es != [] {
      UndisturbedBefore(w, es);
      MemoryIsNeverBehindTheRow(w, es[..|es| - 1]);
      StepKeepsConsistent(Run(w, es[..|es| - 1]), es[|es| - 1]);
    }
  }

  // ---- Checkpoints that land in order ----

  predicate LandsInOrder(w: World, e: Event) {
    e.Land? && e.write < |w.writes| ==> IsNewer(w, w.writes[e.write])
  }

  ghost predicate InOrder(w: World, es: seq<Event>) {
    forall i | 0 <= i < |es| :: LandsInOrder(Run(w, es[..i]), es[i])
  }

  lemma {:induction false} RowStepKeeps(w: World, e: Event)
    requires Consistent(w) && LandsInOrder(w, e)
    ensures RowGrows(w, Step(w, e))
  {
  }

  lemma {:induction false} InOrderBefore(w: World, es: seq<Event>)
    requires InOrder(w, es) && es != []
    ensures InOrder(w, es[..|es| - 1]) && LandsInOrder(Run(w, es[..|es| - 1]), es[|es| - 1])
  {
    var before := es[..|es| - 1];
    forall i | 0 <= i < |before| ensures LandsInOrder(Run(w, before[..i]), before[i]) {
      assert before[..i] == es[..i];
    }
  }

  /**
  Over any sequence of runner steps, compressions, requests, checkpoints, crashes, restarts and resumptions in which no
  pause comes between two steps and no checkpoint lands after one taken later (any of them may be lost), a step that
  was completed in the durable row is still there, completed and compressed once at the most, in the row and in memory.
  */
  lemma {:induction false} CompletedStepsSurvive(w: World, es: seq<Event>)
    requires Consistent(w) && InOrder(w, es) && Undisturbed(w, es)
    ensures var v := Run(w, es);
            && Consistent(v) && RowGrows(w, v)
            && (w.row.Some? && v.memory.Some? ==> Keeps(RowSteps(w), v.memory.value.steps))
    decreases |es|
  {
    var v := Run(w, es);
    MemoryIsNeverBehindTheRow(w, es);
    if es != [] {
      InOrderBefore(w, es);
      UndisturbedBefore(w, es);
      var u := Run(w, es[..|es| - 1]);
      CompletedStepsSurvive(w, es[..|es| - 1]);
      RowStepKeeps(u, es[|es| - 1]);
      if w.row.Some? {
        KeepsChains(RowSteps(w), RowSteps(u), RowSteps(v));
      }
    }
    if w.row.Some? && v.memory.Some? {
      KeepsChains(RowSteps(w), RowSteps(v), v.memory.value.steps);
    }
  }

  // ---- Checkpoints that overtake each other ----

  /** A history starts with no checkpoint under way and a row from before it. */
  ghost predicate Begins(w: World) {
    UpToDate(w) && w.writes == [] && w.rowTakenAt.None? && w.time == 0
  }

  /** The task as it was in memory before event i. */
  function MemoryAt(w: World, es: seq<Event>, i: nat): Option<Task>
    requires i <= |es|
  {
    Run(w, es[..i]).memory
  }

  ghost predicate NoCrash(es: seq<Event>, from: nat, until: nat) {
    forall i | from <= i < until && i < |es| :: !es[i].Crash?
  }

  /** Between the two times no event completed a step. */
  ghost predicate NothingCompleted(w: World, es: seq<Event>, from: nat, until: nat)
    requires from <= until <= |es|
  {
    forall i | from <= i < until :: !Completes(MemoryAt(w, es, i), es[i])
  }

  /** The checkpoint holds the steps that were in memory when it was taken, and there has been no crash since. */
  ghost predicate TakenIn(w: World, es: seq<Event>, steps: seq<StepSummary>, at: nat) {
    at < |es| && MemoryAt(w, es, at).Some? && MemoryAt(w, es, at).value.steps == steps
  }

  ghost predicate WriteTraced(w: World, es: seq<Event>, write: Write) {
    TakenIn(w, es, StepsOf(write), write.takenAt) && NoCrash(es, write.takenAt, |es|)
  }

  ghost predicate AllTraced(w: World, es: seq<Event>, writes: seq<Write>) {
    forall i | 0 <= i < |writes| :: WriteTraced(w, es, writes[i])
  }

  ghost predicate Traced(w: World, es: seq<Event>) {
    var v := Run(w, es);
    && v.time == |es|
    && AllTraced(w, es, v.writes)
    && (v.rowTakenAt.Some? ==> v.row.Some? && TakenIn(w, es, RowSteps(v), v.rowTakenAt.value))
  }

  lemma {:induction false} TakenInLonger(w: World, es: seq<Event>, steps: seq<StepSummary>, at: nat)
    requires es != [] && TakenIn(w, es[..|es| - 1], steps, at)
    ensures TakenIn(w, es, steps, at)
  {
    assert es[..|es| - 1][..at] == es[..at];
  }

  lemma {:induction false} NoCrashLonger(es: seq<Event>, from: nat)
    requires es != [] && NoCrash(es[..|es| - 1], from, |es| - 1) && !es[|es| - 1].Crash?
    ensures NoCrash(es, from, |es|)
  {
    forall i | from <= i < |es| ensures !es[i].Crash? {
      assert i < |es| - 1 ==> es[..|es| - 1][i] == es[i];
    }
  }

  /** A checkpoint under way after an event was under way before it, or has just been taken; a crash leaves none. */
  lemma {:induction false} WritesComeFrom(u: World, e: Event, write: Write)
    requires write in Step(u, e).writes
    ensures !e.Crash?
    ensures write in u.writes
            || (e.Take? && u.memory.Some? && write.takenAt == u.time && StepsOf(write) == u.memory.value.steps)
  {
  }

  lemma {:induction false} WritesAreTraced(w: World, es: seq<Event>, write: Write)
    requires es != [] && Run(w, es[..|es| - 1]).time == |es| - 1 && write in Run(w, es).writes
    requires AllTraced(w, es[..|es| - 1], Run(w, es[..|es| - 1]).writes)
    ensures WriteTraced(w, es, write)
  {
    var u := Run(w, es[..|es| - 1]);
    WritesComeFrom(u, es[|es| - 1], write);
    if write in u.writes {
      var i :| 0 <= i < |u.writes| && u.writes[i] == write;
      assert WriteTraced(w, es[..|es| - 1], u.writes[i]);
      TakenInLonger(w, es, StepsOf(write), write.takenAt);
      NoCrashLonger(es, write.takenAt);
    }
  }

  lemma {:induction false} RowComesFrom(u: World, e: Event)
    ensures var v := Step(u, e);
            || (v.row == u.row && v.rowTakenAt == u.rowTakenAt)
            || (e.Land? && e.write < |u.writes| && v.row == Some(u.writes[e.write].snapshot)
                && v.rowTakenAt == Some(u.writes[e.write].takenAt))
  {
  }

  lemma {:induction false} RunIsTraced(w: World, es: seq<Event>)
    requires Begins(w)
    ensures Traced(w, es)
    decreases |es|
  {
    if es != [] {
      var n := |es| - 1;
      var u, v := Run(w, es[..n]), Run(w, es);
      RunIsTraced(w, es[..n]);
      forall i | 0 <= i < |v.writes| ensures WriteTraced(w, es, v.writes[i]) {
        WritesAreTraced(w, es, v.writes[i]);
      }
      RowComesFrom(u, es[n]);
      if v.rowTakenAt.Some? {
        TakenInLonger(w, es, RowSteps(v), v.rowTakenAt.value);
      }
    }
  }

  /** Between the two times no event compressed a completed step. */
  ghost predicate NothingCompressed(w: World, es: seq<Event>, from: nat, until: nat)
    requires from <= until <= |es|
  {
    forall i | from <= i < until :: !CompressesCompleted(MemoryAt(w, es, i), es[i])
  }

  lemma {:induction false} KeepsSplits(a: seq<StepSummary>, b: seq<StepSummary>, c: seq<StepSummary>)
    requires Keeps(a, b) && Keeps(b, c)
    ensures Keeps(c, a) <==> Keeps(c, b) && Keeps(b, a)
  {
    KeptIsStillCompleted(a, b);
    KeptIsStillCompleted(b, c);
    if Keeps(c, a) {
      KeptIsStillCompleted(c, a);
      forall i | 0 <= i < |a| && IsCompleted(c[i]) ensures c[i] == b[i] == a[i] {
        Compression.FollowsOnce(a[i], b[i], c[i]);
        Compression.FollowsOnce(a[i], b[i], a[i]);
      }
    }
    if Keeps(c, b) && Keeps(b, a) {
      KeepsChains(c, b, a);
    }
  }

  lemma {:induction false} StillCompletedSplits(a: seq<StepSummary>, b: seq<StepSummary>, c: seq<StepSummary>)
    requires StillCompleted(a, b) && StillCompleted(b, c)
    ensures StillCompleted(a, c)
    ensures StillCompleted(c, a) <==> StillCompleted(c, b) && StillCompleted(b, a)
  {
  }

  lemma {:induction false} NextMemory(w: World, es: seq<Event>, k: nat)
    requires k < |es| && !es[k].Crash? && MemoryAt(w, es, k).Some?
    ensures MemoryAt(w, es, k + 1) == OnMemory(MemoryAt(w, es, k), es[k])
  {
    assert es[..k + 1][..k] == es[..k] && es[..k + 1][k] == es[k];
    MemoryOfStep(Run(w, es[..k]), es[k]);
  }

  /** The first moment is before the second, and the second adds nothing, or no completed step, exactly when told so. */
  ghost predicate Advances(a: seq<StepSummary>, b: seq<StepSummary>, same: bool, sameCompleted: bool) {
    && Keeps(a, b) && StillCompleted(a, b)
    && (Keeps(b, a) <==> same) && (StillCompleted(b, a) <==> sameCompleted)
  }

  lemma {:induction false} OneMoveFurther(a: seq<StepSummary>, b: seq<StepSummary>, c: seq<StepSummary>,
                                          same: bool, completed: bool, same': bool, completed': bool)
    requires Advances(a, b, same, completed) && Advances(b, c, same', completed')
    ensures Advances(a, c, same && same', completed && completed')
  {
    KeepsChains(a, b, c);
    KeepsSplits(a, b, c);
    StillCompletedSplits(a, b, c);
  }

  ghost predicate NothingChanged(w: World, es: seq<Event>, from: nat, until: nat)
    requires from <= until <= |es|
  {
    NothingCompleted(w, es, from, until) && NothingCompressed(w, es, from, until)
  }

  lemma {:induction false} NoCrashUntil(es: seq<Event>, from: nat, k: nat)
    requires k < |es| && from <= k && NoCrash(es, from, k + 1)
    ensures NoCrash(es, from, k) && !es[k].Crash?
  {
  }

  lemma {:induction false} UndisturbedAt(w: World, es: seq<Event>, k: nat)
    requires k < |es| && Undisturbed(w, es)
    ensures !PausesCompleted(MemoryAt(w, es, k), es[k])
  {
  }

  lemma {:induction false} NothingInNoTime(w: World, es: seq<Event>, at: nat)
    requires at <= |es|
    ensures NothingCompleted(w, es, at, at) && NothingCompressed(w, es, at, at) && NothingChanged(w, es, at, at)
  {
  }

  /** One event that is neither a crash nor a pause on a completed step. */
  lemma {:induction false} MemoryAdvances(t: Task, e: Event)
    requires !e.Crash? && !PausesCompleted(Some(t), e)
    ensures OnMemory(Some(t), e).Some?
    ensures Advances(t.steps, OnMemory(Some(t), e).value.steps,
                     !Completes(Some(t), e) && !CompressesCompleted(Some(t), e), !Completes(Some(t), e))
  {
    MemoryMovesExactly(t, e);
  }

  lemma {:induction false} NothingCompletedUntil(w: World, es: seq<Event>, from: nat, k: nat)
    requires from <= k < |es|
    ensures NothingCompleted(w, es, from, k + 1) <==>
            NothingCompleted(w, es, from, k) && !Completes(MemoryAt(w, es, k), es[k])
    ensures NothingCompressed(w, es, from, k + 1) <==>
            NothingCompressed(w, es, from, k) && !CompressesCompleted(MemoryAt(w, es, k), es[k])
    ensures NothingChanged(w, es, from, k + 1) <==>
            NothingChanged(w, es, from, k) && !Completes(MemoryAt(w, es, k), es[k])
            && !CompressesCompleted(MemoryAt(w, es, k), es[k])
  {
    hide MemoryAt, Completes, CompressesCompleted;
  }

  /**
  Between two moments without a crash memory advances: the completed steps are the same exactly if none was completed,
  and their records are exactly if none was compressed either.
  */
  lemma {:induction false} MemoryBetween(w: World, es: seq<Event>, from: nat, until: nat)
    requires from <= until <= |es| && NoCrash(es, from, until) && MemoryAt(w, es, from).Some?
    requires Undisturbed(w, es)
    ensures MemoryAt(w, es, until).Some?
    ensures Advances(MemoryAt(w, es, from).value.steps, MemoryAt(w, es, until).value.steps,
                     NothingChanged(w, es, from, until), NothingCompleted(w, es, from, until))
    decreases until - from
  {
    hide *;
    if from < until {
      var k := until - 1;
      NoCrashUntil(es, from, k);
      MemoryBetween(w, es, from, k);
      NextMemory(w, es, k);
      var t, e := MemoryAt(w, es, k).value, es[k];
      UndisturbedAt(w, es, k);
      MemoryAdvances(t, e);
      NothingCompletedUntil(w, es, from, k);
      OneMoveFurther(MemoryAt(w, es, from).value.steps, t.steps, MemoryAt(w, es, until).value.steps,
                     NothingChanged(w, es, from, k), NothingCompleted(w, es, from, k),
                     !Completes(Some(t), e) && !CompressesCompleted(Some(t), e), !Completes(Some(t), e));
    } else {
      NothingInNoTime(w, es, from);
      SameAdvances(MemoryAt(w, es, from).value.steps);
    }
  }

  lemma {:induction false} SameAdvances(steps: seq<StepSummary>)
    ensures Advances(steps, steps, true, true)
  {
  }

  /** The row holds a checkpoint taken later, and a step was completed between the two. */
  ghost predicate Overtaken(w: World, es: seq<Event>, write: Write)
    requires Run(w, es).rowTakenAt.Some? ==> Run(w, es).rowTakenAt.value <= |es|
  {
    var r := Run(w, es).rowTakenAt;
    r.Some? && write.takenAt < r.value && !NothingCompleted(w, es, write.takenAt, r.value)
  }

  /** The row holds a checkpoint taken later, and a completed step was compressed between the two. */
  ghost predicate OvertakenByCompression(w: World, es: seq<Event>, write: Write)
    requires Run(w, es).rowTakenAt.Some? ==> Run(w, es).rowTakenAt.value <= |es|
  {
    var r := Run(w, es).rowTakenAt;
    r.Some? && write.takenAt < r.value && !NothingCompressed(w, es, write.takenAt, r.value)
  }

  ghost predicate RowStaysCompleted(w: World, v: World) {
    w.row.Some? ==> v.row.Some? && StillCompleted(RowSteps(w), RowSteps(v))
  }

  /**
  Which landings are harmless, in every history: the steps completed in the row stay completed if and only if no step
  was completed between the taking of the checkpoint that lands and the taking of the one in the row; and the row gets
  no older record of a completed step if and only if none was compressed between them either.
  */
  lemma {:induction false} LandingKeepsExactly(w: World, es: seq<Event>, k: nat)
    requires Begins(w) && k < |Run(w, es).writes| && Undisturbed(w, es)
    ensures Run(w, es).rowTakenAt.Some? ==> Run(w, es).rowTakenAt.value <= |es|
    ensures RowStaysCompleted(Run(w, es), Step(Run(w, es), Land(k))) <==> !Overtaken(w, es, Run(w, es).writes[k])
    ensures RowGrows(Run(w, es), Step(Run(w, es), Land(k))) <==>
            !Overtaken(w, es, Run(w, es).writes[k]) && !OvertakenByCompression(w, es, Run(w, es).writes[k])
  {
    var v := Run(w, es);
    RunIsTraced(w, es);
    MemoryIsNeverBehindTheRow(w, es);
    var write := v.writes[k];
    if v.rowTakenAt.Some? && write.takenAt < v.rowTakenAt.value {
      MemoryBetween(w, es, write.takenAt, v.rowTakenAt.value);
    } else if v.rowTakenAt.Some? && write.takenAt == v.rowTakenAt.value {
      assert StepsOf(write) == RowSteps(v);
      SameAdvances(RowSteps(v));
    } else if v.row.Some? {
      KeptIsStillCompleted(RowSteps(v), StepsOf(write));
    }
  }

  /** A checkpoint, the only step completed, another checkpoint, and that one written. */
  function SecondLanded(w: World, done: StepSummary, id: string): World {
    Step(Step(Step(Step(w, Take(id, 0)), RunStep(0, done)), Take(id, 0)), Land(1))
  }

  lemma {:induction false} SecondLandsFirst(t: Task, done: StepSummary, id: string)
    requires |t.steps| == 1 && !IsCompleted(t.steps[0]) && IsCompleted(done)
    ensures var later := t.(steps := [done]);
            SecondLanded(World(None, None, Some(t), [], 0), done, id)
            == World(Some(SnapshotOf(later, id, 0)), Some(2), Some(later), [Write(SnapshotOf(t, id, 0), 0)], 4)
  {
    var later := t.(steps := [done]);
    var first, second := Write(SnapshotOf(t, id, 0), 0), Write(SnapshotOf(later, id, 0), 2);
    assert t.steps[0 := done] == [done] && [] + [first] == [first] && [first] + [second] == [first, second];
    assert Removed([first, second], 1) == [first];
  }

  /**
  Why the order matters: the checkpoint of a running step lands after the one that has the step completed. The row
  goes back to running, and after a crash, a restart and a resumption the step that was completed durably is queued
  again.
  */
  lemma {:induction false} LateCheckpointUndoesAStep(t: Task, done: StepSummary, id: string, now: nat)
    requires t.status == Running && |t.steps| == 1 && !IsCompleted(t.steps[0]) && IsCompleted(done)
    requires HydratedId(SnapshotOf(t, id, 0)) != ""
    ensures var w := World(None, None, Some(t), [], 0);
            var landed := SecondLanded(w, done, id);
            var late := Step(landed, Land(0));
            var up := Step(Step(Step(late, Crash), Restart(now)), Resume(now));
            && Begins(w) && landed.row.Some? && RowSteps(landed) == [done]
            && late.row.Some? && RowSteps(late) == t.steps && !RowGrows(landed, late)
            && up.memory.Some? && up.memory.value.steps == [Requeued(now)]
  {
    SecondLandsFirst(t, done, id);
    var landed := SecondLanded(World(None, None, Some(t), [], 0), done, id);
    var late := Step(landed, Land(0));
    assert late.row == Some(SnapshotOf(t, id, 0)) && !Keeps([done], t.steps);
    CrashLeavesTheRow(late);
    RestartQueuesAgain(Step(late, Crash), now);
  }

  lemma {:induction false} CrashLeavesTheRow(w: World)
    ensures Step(w, Crash) == World(w.row, w.rowTakenAt, None, [], w.time + 1)
  {
  }

  lemma {:induction false} RestartLoads(w: World, now: nat)
    requires w.row.Some? && w.memory.None?
    ensures Step(w, Restart(now)).memory == Hydrate(w.row.value, now)
  {
    var t := Hydrate(w.row.value, now);
    var up := w.(memory := t);
    assert up.memory == t;
    assert Effect(w, Restart(now)) == up;
  }

  lemma {:induction false} RestartQueuesAgain(w: World, now: nat)
    requires w.row.Some? && w.memory.None?
    requires w.row.value.summary.status == Running && HydratedId(w.row.value) != ""
    requires |RowSteps(w)| == 1 && !IsCompleted(RowSteps(w)[0])
    ensures var m := Step(Step(w, Restart(now)), Resume(now)).memory;
            m.Some? && m.value.steps == [Requeued(now)]
  {
    RestartLoads(w, now);
    var up := Step(w, Restart(now));
    ResumptionKeeps(up, up.memory.value, now);
    assert Prepared(up.memory.value.steps, now) == [Requeued(now)];
  }

  // ---- Runs of the runtime ----

  /** From each moment to the next memory keeps its completed steps. */
  ghost predicate AlwaysGrows(w: World, es: seq<Event>) {
    forall i | 0 <= i < |es| :: MemoryGrows(MemoryAt(w, es, i), MemoryAt(w, es, i + 1))
  }

  lemma {:induction false} NextWorld(w: World, es: seq<Event>, i: nat)
    requires i < |es|
    ensures Run(w, es[..i + 1]) == Step(Run(w, es[..i]), es[i])
  {
    assert es[..i + 1][..i] == es[..i] && es[..i + 1][i] == es[i];
  }

  /**
  Without a crash no completed step is ever lost, even when it was never checkpointed, exactly when no pause comes
  between two steps.
  */
  lemma {:induction false} NothingIsLostWithoutACrash(w: World, es: seq<Event>)
    requires forall e | e in es :: !e.Crash?
    ensures AlwaysGrows(w, es) <==> Undisturbed(w, es)
  {
    if Undisturbed(w, es) {
      forall i | 0 <= i < |es| ensures MemoryGrows(MemoryAt(w, es, i), MemoryAt(w, es, i + 1)) {
        MomentGrows(w, es, i);
      }
    }
    if AlwaysGrows(w, es) {
      forall i | 0 <= i < |es| ensures !PausesCompleted(Run(w, es[..i]).memory, es[i]) {
        MomentGrows(w, es, i);
      }
    }
  }

  lemma {:induction false} MomentGrows(w: World, es: seq<Event>, i: nat)
    requires i < |es| && !es[i].Crash?
    ensures MemoryGrows(MemoryAt(w, es, i), MemoryAt(w, es, i + 1)) <==>
            !PausesCompleted(Run(w, es[..i]).memory, es[i])
  {
    NextWorld(w, es, i);
    MemoryStepKeeps(Run(w, es[..i]), es[i]);
  }

  /** So over any such run the steps completed at its start are there at its end. */
  lemma {:induction false} MemoryAtTheEnd(w: World, es: seq<Event>)
    requires (forall e | e in es :: !e.Crash?) && Undisturbed(w, es)
    ensures MemoryGrows(w.memory, Run(w, es).memory)
    decreases |es|
  {
    if es != [] {
      var u := Run(w, es[..|es| - 1]);
      assert es[|es| - 1] in es;
      UndisturbedBefore(w, es);
      MemoryAtTheEnd(w, es[..|es| - 1]);
      MemoryStepKeeps(u, es[|es| - 1]);
      if w.memory.Some? {
        KeepsChains(w.memory.value.steps, u.memory.value.steps, Step(u, es[|es| - 1]).memory.value.steps);
      }
    }
  }

  /**
  A pause between two steps: the step just completed is still the current one, so it is marked as paused, checkpoints
  that land in order carry that into the row, and the resumption queues the step again.
  */
  lemma {:induction false} PauseBetweenStepsUndoesAStep(t: Task, started: StepSummary, done: StepSummary, id: string,
                                                        reason: string, now: nat)
    requires |t.steps| == 1 && !IsCompleted(t.steps[0]) && started.status == Running && IsCompleted(done)
    ensures var w := World(None, None, Some(t), [], 0);
            var finished := Step(Step(w, RunStep(0, started)), RunStep(0, done));
            var saved := Step(Step(finished, Take(id, 0)), Land(0));
            var paused := Step(saved, Pause(reason, now));
            var savedAgain := Step(Step(paused, Take(id, 0)), Land(0));
            var resumed := Step(paused, Resume(now));
            && saved.row.Some? && RowSteps(saved) == [done]
            && PausesCompleted(saved.memory, Pause(reason, now))
            && savedAgain.row.Some? && RowSteps(savedAgain) == [PausedStep(done, reason, now)]
            && resumed.memory.Some? && resumed.memory.value.steps == [Requeued(now)]
  {
    StartAndFinish(t, started, done);
    var finished := Some(t.(steps := [done], currentStep := Some(0), status := Running));
    SaveNow(World(None, None, finished, [], 2), id);
    var paused := AfterPause(finished.value, reason, now);
    assert [done][0 := PausedStep(done, reason, now)] == [PausedStep(done, reason, now)] == paused.steps;
    var saved := World(Some(SnapshotOf(finished.value, id, 0)), Some(2), finished, [], 4);
    PauseMemory(saved, reason, now);
    SaveNow(Step(saved, Pause(reason, now)), id);
    ResumptionKeeps(Step(saved, Pause(reason, now)), paused, now);
    assert Prepared(paused.steps, now) == [Requeued(now)];
  }

  lemma {:induction false} StartAndFinish(t: Task, started: StepSummary, done: StepSummary)
    requires |t.steps| == 1 && !IsCompleted(t.steps[0]) && started.status == Running && IsCompleted(done)
    ensures Step(Step(World(None, None, Some(t), [], 0), RunStep(0, started)), RunStep(0, done)) ==
            World(None, None, Some(t.(steps := [done], currentStep := Some(0), status := Running)), [], 2)
  {
    assert t.steps[0 := started] == [started] && [started][0 := done] == [done];
  }

  lemma {:induction false} PauseMemory(w: World, reason: string, now: nat)
    requires w.memory.Some?
    ensures Step(w, Pause(reason, now)) ==
            World(w.row, w.rowTakenAt, Some(AfterPause(w.memory.value, reason, now)), w.writes, w.time + 1)
  {
  }

  lemma {:induction false} SaveNow(w: World, id: string)
    requires w.memory.Some? && w.writes == []
    ensures Step(Step(w, Take(id, 0)), Land(0)) ==
            World(Some(SnapshotOf(w.memory.value, id, 0)), Some(w.time), w.memory, [], w.time + 2)
  {
    var write := Write(SnapshotOf(w.memory.value, id, 0), w.time);
    assert [] + [write] == [write] && Removed([write], 0) == [];
  }

  lemma {:induction false} ResumptionKeeps(w: World, t: Task, later: nat)
    requires IsResumable(t) && w.memory == Some(t)
    ensures var v := Step(w, Resume(later));
            && v.memory == Some(Resumed(t, later)) && v.row == w.row
            && v.memory.value.currentStep == FirstUnfinished(t.steps) && Keeps(t.steps, v.memory.value.steps)
  {
    ResumeContinuesWhereItStopped(t, later);
  }

  /**
  A task that was running when the runtime went down can be resumed after the restart, at its first unfinished step.
  */
  lemma {:induction false} CrashedRunsResume(w: World, s: Snapshot, now: nat, t: Task, later: nat)
    requires w.row == Some(s) && s.summary.status == Running && Hydrate(s, now) == Some(t) && w.memory == Some(t)
    ensures && Step(w, Resume(later)).memory == Some(Resumed(t, later))
            && Resumed(t, later).currentStep == FirstUnfinished(s.summary.steps)
            && Keeps(s.summary.steps, Resumed(t, later).steps)
  {
    assert IsResumable(t) && t.steps == s.summary.steps;
    ResumptionKeeps(w, t, later);
  }
}
