/**
Rebuilding the agent task store after a restart from the durable snapshots, one row per task.
The database is a keyed table; which rows it returns first among equally old ones is left open.
*/
module TaskRecovery {
  import opened AgentTasks
  import opened Options
  import Ordering
  import Text

  const RECOVERY_LIMIT: nat := 256
  const RECOVERY_INTERRUPTED := "RUNTIME_RESTART_RECOVERY"
  const INTERRUPTED_MESSAGE := "Task was running when runtime restarted. Resume to continue safely."

  const TWO_63: nat := 0x8000_0000_0000_0000
  type U64 = n: int | 0 <= n < 2 * TWO_63

  datatype Snapshot = Snapshot(
    taskId: string,
    workspaceId: string,
    checkpointId: string,
    summary: Task,
    interruptRequested: bool,
    updatedAt: U64)

  /** A stored row; a payload that does not parse is None. */
  datatype Row = Row(updatedAt: int, payload: Option<Snapshot>)

  type Table = map<string, Row>

  // ---- The table ----

  /** The column holds the time as a signed number. */
  function AsI64(n: U64): int {
    if n < TWO_63 then n else n - 2 * TWO_63
  }

  function Upsert(table: Table, s: Snapshot): Table {
    table[s.taskId := Row(AsI64(s.updatedAt), Some(s))]
  }

  /** What `ORDER BY updated_at DESC LIMIT n` may answer. */
  ghost predicate IsRecentAnswer(table: Table, limit: nat, keys: seq<string>) {
    && Ordering.NoDuplicates(keys) && (forall k | k in keys :: k in table)
    && |keys| == (if limit <= |table| then limit else |table|)
    && (forall i, j | 0 <= i < j < |keys| :: table[keys[i]].updatedAt >= table[keys[j]].updatedAt)
    && forall k, i | k in table && k !in keys && 0 <= i < |keys| :: table[k].updatedAt <= table[keys[i]].updatedAt
  }

  /** One row that fails to parse fails the whole read. */
  function ParseRows(table: Table, keys: seq<string>): Option<seq<Snapshot>>
    requires forall k | k in keys :: k in table
  {
    if keys == [] then Some([])
    else
      assert keys[|keys| - 1] in keys;
      var before, last := ParseRows(table, keys[..|keys| - 1]), table[keys[|keys| - 1]].payload;
      if before.None? || last.None? then None else Some(before.value + [last.value])
  }

  /** The answer of the database, or None when the query fails. */
  ghost predicate IsAnswer(table: Table, limit: nat, keys: Option<seq<string>>) {
    keys.Some? ==> IsRecentAnswer(table, limit, keys.value)
  }

  function Read(table: Table, ghost limit: nat, keys: Option<seq<string>>): Option<seq<Snapshot>>
    requires IsAnswer(table, limit, keys)
  {
    if keys.None? then None else ParseRows(table, keys.value)
  }

  // ---- One snapshot ----

  function HydratedId(s: Snapshot): string {
    if Text.Trim(s.summary.taskId) == "" then Text.Trim(s.taskId) else Text.Trim(s.summary.taskId)
  }

  function Max(a: nat, b: nat): nat {
    if a >= b then a else b
  }

  /** A task that was running is interrupted; every other status is kept. None without an id. */
  function Hydrate(s: Snapshot, now: nat): (t: Option<Task>)
    ensures t.Some? <==> HydratedId(s) != ""
    ensures t.Some? ==> t.value.taskId == HydratedId(s) && t.value.steps == s.summary.steps
    ensures t.Some? ==> t.value.status == if s.summary.status == Running then Interrupted else s.summary.status
    ensures t.Some? ==> t.value.pendingApproval == s.summary.pendingApproval
    ensures t.Some? && s.summary.status == Running ==> IsResumable(t.value)
  {
    var id := HydratedId(s);
    if id == "" then None
    else
      var named := s.summary.(
        taskId := id,
        workspaceId := if Text.Trim(s.summary.workspaceId) == "" then Text.Trim(s.workspaceId)
            else s.summary.workspaceId,
        updatedAt := Max(s.summary.updatedAt, s.updatedAt),
        interruptRequested := s.interruptRequested,
        checkpointId := Some(s.checkpointId),
        recovered := true);
      if named.status != Running then Some(named)
      else
        Some(named.(
          status := Interrupted,
          errorCode := Some(RECOVERY_INTERRUPTED),
          errorMessage := Some(INTERRUPTED_MESSAGE),
          currentStep := None,
          completedAt := Some(now),
          updatedAt := now,
          interruptRequested := true))
  }

  /**
  What a hydrated task has from its snapshot: its own id and workspace, or the snapshot's where they are blank; its
  steps, approvals and checkpoint; the later of the two times. Only a task that was running is changed beyond that.
  */
  lemma {:induction false} HydrationRestores(s: Snapshot, now: nat, t: Task)
    requires Hydrate(s, now) == Some(t)
    ensures var was := s.summary;
            && (Text.Trim(was.taskId) != "" ==> t.taskId == Text.Trim(was.taskId))
            && (Text.Trim(was.taskId) == "" ==> t.taskId == Text.Trim(s.taskId) && t.taskId != "")
            && (Text.Trim(was.workspaceId) != "" ==> t.workspaceId == was.workspaceId)
            && (Text.Trim(was.workspaceId) == "" ==> t.workspaceId == Text.Trim(s.workspaceId))
            && t.steps == was.steps && t.pendingApproval == was.pendingApproval
            && t.pendingApprovalId == was.pendingApprovalId
            && t.checkpointId == Some(s.checkpointId) && t.recovered
    ensures var was := s.summary;
            if was.status == Running then
              && t.status == Interrupted && t.errorCode == Some("RUNTIME_RESTART_RECOVERY")
              && t.errorMessage == Some("Task was running when runtime restarted. Resume to continue safely.")
              && t.currentStep == None && t.completedAt == Some(now) && t.updatedAt == now && t.interruptRequested
            else
              && t.status == was.status && t.errorCode == was.errorCode && t.errorMessage == was.errorMessage
              && t.currentStep == was.currentStep && t.completedAt == was.completedAt
              && t.updatedAt >= was.updatedAt && t.updatedAt >= s.updatedAt
              && (t.updatedAt == was.updatedAt || t.updatedAt == s.updatedAt)
              && t.interruptRequested == s.interruptRequested
    ensures IsResumable(t) <==>
            s.summary.status == Running || t.status == Paused
            || (t.status == Interrupted && t.errorCode == Some("RUNTIME_RESTART_RECOVERY"))
  {
  }

  predicate IsRecoveryInterrupted(t: Task) {
    t.status == Interrupted && t.errorCode == Some(RECOVERY_INTERRUPTED)
  }

  predicate IsResumable(t: Task) {
    t.status == Paused || IsRecoveryInterrupted(t)
  }

  // ---- All snapshots ----

  datatype Recovery = Recovery(store: Store, queue: seq<string>, recovered: nat, interrupts: nat)

  const NOTHING := Recovery(EMPTY_STORE, [], 0, 0)

  function Insert(s: Store, t: Task): Store {
    Store(s.tasks[t.taskId := t], s.order + [t.taskId],
          if t.status == AwaitingApproval && t.pendingApproval.Some?
          then s.approvalIndex[t.pendingApproval.value := t.taskId]
          else s.approvalIndex)
  }

  /** A hydrated task joins the store; what it does to the queue and the counter depends on its stored status. */
  function Join(r: Recovery, t: Task, stored: Status): Recovery {
    Recovery(Insert(r.store, t),
             if stored == Queued then r.queue + [t.taskId] else r.queue,
             r.recovered + 1,
             if stored == Running then r.interrupts + 1 else r.interrupts)
  }

  function Absorb(r: Recovery, t: Option<Task>, stored: Status): Recovery {
    if t.None? then r else Join(r, t.value, stored)
  }

  /** The i-th snapshot is hydrated at the i-th reading of the clock. */
  function RecoverAll(ss: seq<Snapshot>, clock: nat -> nat): Recovery {
    if ss == [] then NOTHING
    else
      var s := ss[|ss| - 1];
      Absorb(RecoverAll(ss[..|ss| - 1], clock), Hydrate(s, clock(|ss| - 1)), s.summary.status)
  }

  predicate NotNewer(a: Snapshot, b: Snapshot) {
    a.updatedAt <= b.updatedAt
  }

  function ByUpdate(ss: seq<Snapshot>): seq<Snapshot> {
    Ordering.Sort(ss, NotNewer)
  }

  function Limit(history: nat): nat {
    var atLeastOne := if history < 1 then 1 else history;
    if atLeastOne < RECOVERY_LIMIT then atLeastOne else RECOVERY_LIMIT
  }

  /** As many rows as the history may have, but at least one and at most 256. */
  lemma {:induction false} LimitMeans(history: nat)
    ensures 1 <= Limit(history) <= 256
    ensures 1 <= history <= 256 ==> Limit(history) == history
    ensures history > 256 ==> Limit(history) == 256
  {
  }

  /** The column agrees with the time modulo 2^64, so times before 2^63 are kept as they are. */
  lemma {:induction false} ColumnMeans(n: U64)
    ensures -0x8000_0000_0000_0000 <= AsI64(n) < 0x8000_0000_0000_0000
    ensures AsI64(n) == n || AsI64(n) == n - 0x1_0000_0000_0000_0000
  {
  }

  /** None is a failed read; recovery then starts from nothing. */
  function Recover(usable: bool, read: Option<seq<Snapshot>>, clock: nat -> nat): Recovery {
    if !usable then NOTHING
    else RecoverAll(ByUpdate(if read.Some? then read.value else []), clock)
  }

  class DurabilityStore {
    const active: bool
    const connected: bool
    var rows: Table
    var recoverTotal: nat
    var interruptTotal: nat

    constructor (active: bool, connected: bool)
      ensures this.active == active && this.connected == connected
      ensures rows == map[] && recoverTotal == 0 && interruptTotal == 0
    {
      this.active, this.connected := active, connected;
      rows, recoverTotal, interruptTotal := map[], 0, 0;
    }

    /** Inserts the snapshot or replaces the row of its task. */
    method PersistAgentTaskSnapshot(s: Snapshot)
      modifies this
      ensures rows == Upsert(old(rows), s)
      ensures rows.Keys == old(rows).Keys + {s.taskId} && rows[s.taskId].payload == Some(s)
      ensures rows[s.taskId].updatedAt ==
              if s.updatedAt < 9223372036854775808 then s.updatedAt else s.updatedAt - 18446744073709551616
      ensures forall k | k in old(rows) && k != s.taskId :: rows[k] == old(rows)[k]
      ensures recoverTotal == old(recoverTotal) && interruptTotal == old(interruptTotal)
    {
      rows := rows[s.taskId := Row(AsI64(s.updatedAt), Some(s))];
    }

    /** Parses the returned rows in the order of the answer; one failure fails the read. */
    method ParseSnapshots(keys: seq<string>) returns (read: Option<seq<Snapshot>>)
      requires forall k | k in keys :: k in rows
      ensures read == ParseRows(rows, keys)
    {
      var snapshots := [];
      for i := 0 to |keys|
        invariant ParseRows(rows, keys[..i]) == Some(snapshots)
      {
        assert keys[..i + 1][..i] == keys[..i];
        assert keys[..i + 1][i] == keys[i];
        if rows[keys[i]].payload.None? {
          FailedRowFailsTheRead(rows, keys, i);
          return None;
        }
        snapshots := snapshots + [rows[keys[i]].payload.value];
      }
      assert keys[..|keys|] == keys;
      return Some(snapshots);
    }

    /** `keys` is the database's answer, None when the query fails. */
    method ReadRecentAgentTaskSnapshots(limit: nat, keys: Option<seq<string>>) returns (read: Option<seq<Snapshot>>)
      requires IsAnswer(rows, limit, keys)
      ensures read == Read(rows, limit, keys)
    {
      read := None;
      if keys.Some? {
        read := ParseSnapshots(keys.value);
      }
    }

    method JoinTask(r: Recovery, t: Task, stored: Status) returns (next: Recovery)
      modifies `interruptTotal
      ensures next == Join(r, t, stored)
      ensures interruptTotal == old(interruptTotal) + next.interrupts - r.interrupts
    {
      var queue, interrupts := r.queue, r.interrupts;
      if stored == Queued {
        queue := queue + [t.taskId];
      }
      if stored == Running {
        interruptTotal := interruptTotal + 1;
        interrupts := interrupts + 1;
      }
      next := Recovery(Insert(r.store, t), queue, r.recovered + 1, interrupts);
    }

    method HydrateInto(r: Recovery, s: Snapshot, now: nat) returns (next: Recovery)
      modifies `interruptTotal
      ensures next == Absorb(r, Hydrate(s, now), s.summary.status)
      ensures interruptTotal == old(interruptTotal) + next.interrupts - r.interrupts
    {
      next := r;
      var task := Hydrate(s, now);
      if task.Some? {
        next := JoinTask(r, task.value, s.summary.status);
      }
    }

    method HydrateAll(snapshots: seq<Snapshot>, clock: nat -> nat) returns (r: Recovery)
      modifies `interruptTotal
      ensures r == RecoverAll(snapshots, clock)
      ensures interruptTotal == old(interruptTotal) + r.interrupts
    {
      r := NOTHING;
      for i := 0 to |snapshots|
        invariant r == RecoverAll(snapshots[..i], clock)
        invariant interruptTotal == old(interruptTotal) + r.interrupts
      {
        RecoverOneMore(snapshots, i, clock);
        r := HydrateInto(r, snapshots[i], clock(i));
      }
      assert snapshots[..|snapshots|] == snapshots;
    }

    method RecoverDurableRuntimeState(historyLimit: nat, keys: Option<seq<string>>, clock: nat -> nat)
      returns (r: Recovery)
      requires IsAnswer(rows, Limit(historyLimit), keys)
      modifies `recoverTotal, `interruptTotal
      ensures r == Recover(active && connected, Read(rows, Limit(historyLimit), keys), clock)
      ensures !active || !connected || keys == None ==>
                r.store.tasks == map[] && r.store.order == [] && r.queue == [] && r.recovered == 0 && r.interrupts == 0
      ensures recoverTotal == old(recoverTotal) + r.recovered && interruptTotal == old(interruptTotal) + r.interrupts
    {
      if !active || !connected {
        return NOTHING;
      }
      var limit := Limit(historyLimit);
      var read := ReadRecentAgentTaskSnapshots(limit, keys);
      var snapshots := ByUpdate(if read.Some? then read.value else []);
      r := HydrateAll(snapshots, clock);
      recoverTotal := recoverTotal + r.recovered;
    }
  }

  lemma {:induction false} RecoverOneMore(ss: seq<Snapshot>, i: nat, clock: nat -> nat)
    requires i < |ss|
    ensures RecoverAll(ss[..i + 1], clock) ==
        Absorb(RecoverAll(ss[..i], clock), Hydrate(ss[i], clock(i)), ss[i].summary.status)
  {
    assert ss[..i + 1][..i] == ss[..i];
    assert ss[..i + 1][i] == ss[i];
  }

  lemma {:induction false} FailedRowFailsTheRead(table: Table, keys: seq<string>, i: nat)
    requires (forall k | k in keys :: k in table) && i < |keys| && table[keys[i]].payload.None?
    ensures ParseRows(table, keys).None?
    decreases |keys|
  {
    if i < |keys| - 1 {
      assert keys[..|keys| - 1][i] == keys[i];
      FailedRowFailsTheRead(table, keys[..|keys| - 1], i);
    }
  }

  // ---- What the recovered state is ----

  function Present<T>(options: seq<Option<T>>): seq<T> {
    if options == [] then []
    else
      var last := options[|options| - 1];
      Present(options[..|options| - 1]) + if last.Some? then [last.value] else []
  }

  /** One reading of the clock per element. */
  function Each<S, T>(ss: seq<S>, f: (S, nat) -> T, clock: nat -> nat): (r: seq<T>)
    ensures |r| == |ss| && forall i | 0 <= i < |ss| :: r[i] == f(ss[i], clock(i))
  {
    seq(|ss|, i requires 0 <= i < |ss| => f(ss[i], clock(i)))
  }

  lemma {:induction false} EachOneMore<S, T>(ss: seq<S>, f: (S, nat) -> T, clock: nat -> nat)
    requires ss != []
    ensures var before, s := ss[..|ss| - 1], ss[|ss| - 1];
            ss == before + [s] && Each(ss, f, clock) == Each(before, f, clock) + [f(s, clock(|ss| - 1))]
  {
  }

  /** The hydrated tasks, in the order of the snapshots. */
  function Kept(ss: seq<Snapshot>, clock: nat -> nat): seq<Task> {
    Present(Each(ss, Hydrate, clock))
  }

  function InsertAll(ts: seq<Task>): Store {
    if ts == [] then EMPTY_STORE else Insert(InsertAll(ts[..|ts| - 1]), ts[|ts| - 1])
  }

  function Ids(ts: seq<Task>): (ids: seq<string>)
    ensures |ids| == |ts| && forall i | 0 <= i < |ts| :: ids[i] == ts[i].taskId
  {
    seq(|ts|, i requires 0 <= i < |ts| => ts[i].taskId)
  }

  /** The ids of the queued tasks, in order. */
  function QueuedIds(ts: seq<Task>): seq<string> {
    if ts == [] then []
    else QueuedIds(ts[..|ts| - 1]) + if ts[|ts| - 1].status == Queued then [ts[|ts| - 1].taskId] else []
  }

  function CountRunning(ss: seq<Snapshot>): nat {
    if ss == [] then 0
    else
      CountRunning(ss[..|ss| - 1])
      + if ss[|ss| - 1].summary.status == Running && HydratedId(ss[|ss| - 1]) != "" then 1 else 0
  }

  /** The snapshots that were running. */
  ghost function RunningOnes(ss: seq<Snapshot>): set<nat> {
    set i: nat | i < |ss| && WasRunning(ss[i])
  }

  predicate WasRunning(s: Snapshot) {
    s.summary.status == Running
  }

  lemma {:induction false} OneMoreRunning(ss: seq<Snapshot>)
    requires ss != []
    ensures |RunningOnes(ss)| == |RunningOnes(ss[..|ss| - 1])| + if WasRunning(ss[|ss| - 1]) then 1 else 0
  {
    var n := |ss| - 1;
    assert RunningOnes(ss) == RunningOnes(ss[..n]) + if WasRunning(ss[n]) then {n} else {};
  }

  lemma {:induction false} CountingRunningOnes(ss: seq<Snapshot>)
    requires Named(ss)
    ensures CountRunning(ss) == |RunningOnes(ss)|
    decreases |ss|
  {
    if ss == [] {
      assert RunningOnes(ss) == {};
    } else {
      CountingRunningOnes(ss[..|ss| - 1]);
      OneMoreRunning(ss);
    }
  }

  lemma {:induction false} Appending(ts: seq<Task>, t: Task)
    ensures InsertAll(ts + [t]) == Insert(InsertAll(ts), t)
    ensures QueuedIds(ts + [t]) == QueuedIds(ts) + if t.status == Queued then [t.taskId] else []
  {
    assert (ts + [t])[..|ts|] == ts;
  }

  lemma {:induction false} JoiningOneMore(r: Recovery, ts: seq<Task>, t: Task, stored: Status)
    requires r.store == InsertAll(ts) && r.queue == QueuedIds(ts) && (stored == Queued <==> t.status == Queued)
    ensures Join(r, t, stored).store == InsertAll(ts + [t]) && Join(r, t, stored).queue == QueuedIds(ts + [t])
  {
    Appending(ts, t);
  }

  lemma {:induction false} OneMoreTask(r: Recovery, options: seq<Option<Task>>, t: Option<Task>, stored: Status)
    requires r.store == InsertAll(Present(options)) && r.queue == QueuedIds(Present(options)) &&
        r.recovered == |Present(options)|
    requires t.Some? ==> (stored == Queued <==> t.value.status == Queued)
    ensures var next, us := Absorb(r, t, stored), Present(options + [t]);
            next.store == InsertAll(us) && next.queue == QueuedIds(us) && next.recovered == |us|
  {
    assert (options + [t])[..|options|] == options;
    if t.Some? {
      JoiningOneMore(r, Present(options), t.value, stored);
    } else {
      assert Present(options + [t]) == Present(options);
    }
  }

  lemma {:induction false} InterruptsAreCounted(r: Recovery, before: seq<Snapshot>, s: Snapshot, t: Option<Task>)
    requires r.interrupts == CountRunning(before) && (t.Some? <==> HydratedId(s) != "")
    ensures Absorb(r, t, s.summary.status).interrupts == CountRunning(before + [s])
  {
    assert (before + [s])[..|before|] == before;
  }

  /**
  Recovery splits into the hydrated tasks and what is made of them: they are inserted in order, the queued ones are
  queued for restart in that order, and one interrupt is counted for each snapshot that was running.
  */
  lemma {:induction false} RecoveryIsTheHydratedTasks(ss: seq<Snapshot>, clock: nat -> nat)
    ensures var r, ts := RecoverAll(ss, clock), Kept(ss, clock);
            && r.store == InsertAll(ts) && r.queue == QueuedIds(ts) && r.recovered == |ts|
            && r.interrupts == CountRunning(ss)
    decreases |ss|
  {
    if ss != [] {
      EachOneMore(ss, Hydrate, clock);
      var before, s, t := ss[..|ss| - 1], ss[|ss| - 1], Hydrate(ss[|ss| - 1], clock(|ss| - 1));
      RecoveryIsTheHydratedTasks(before, clock);
      OneMoreTask(RecoverAll(before, clock), Each(before, Hydrate, clock), t, s.summary.status);
      InterruptsAreCounted(RecoverAll(before, clock), before, s, t);
    }
  }

  /** No two tasks share an id, and no two wait for the same approval. */
  ghost predicate Separate(ts: seq<Task>) {
    forall i, j | 0 <= i < j < |ts| :: ts[i].taskId != ts[j].taskId && !ShareApproval(ts[i], ts[j])
  }

  predicate ShareApproval(t: Task, u: Task) {
    t.status == AwaitingApproval && u.status == AwaitingApproval && t.pendingApproval.Some? &&
        t.pendingApproval == u.pendingApproval
  }

  lemma {:induction false} SeparateBefore(ts: seq<Task>)
    requires Separate(ts) && ts != []
    ensures Separate(ts[..|ts| - 1])
    ensures forall i | 0 <= i < |ts| - 1 :: ts[i].taskId != ts[|ts| - 1].taskId && !ShareApproval(ts[i], ts[|ts| - 1])
  {
  }

  lemma {:induction false} OrderIsIds(ts: seq<Task>)
    ensures InsertAll(ts).order == Ids(ts)
    ensures forall id :: id in InsertAll(ts).tasks <==> id in Ids(ts)
  {
    if ts != [] {
      OrderIsIds(ts[..|ts| - 1]);
      assert Ids(ts) == Ids(ts[..|ts| - 1]) + [ts[|ts| - 1].taskId];
    }
  }

  lemma {:induction false} EachTaskIsStored(ts: seq<Task>, k: nat)
    requires Separate(ts) && k < |ts|
    ensures var tasks := InsertAll(ts).tasks;
            ts[k].taskId in tasks && tasks[ts[k].taskId] == ts[k]
    decreases |ts|
  {
    SeparateBefore(ts);
    if k < |ts| - 1 {
      EachTaskIsStored(ts[..|ts| - 1], k);
    }
  }

  lemma {:induction false} StoredTasksAreGiven(ts: seq<Task>, id: string)
    requires id in InsertAll(ts).tasks
    ensures InsertAll(ts).tasks[id] in ts && InsertAll(ts).tasks[id].taskId == id
    decreases |ts|
  {
    if ts != [] && id != ts[|ts| - 1].taskId {
      StoredTasksAreGiven(ts[..|ts| - 1], id);
    }
  }

  lemma {:induction false} InsertKeepsIndexExact(s: Store, t: Task)
    requires IndexIsExact(s) && t.taskId !in s.tasks
    requires t.status == AwaitingApproval && t.pendingApproval.Some? ==> t.pendingApproval.value !in s.approvalIndex
    ensures IndexIsExact(Insert(s, t))
  {
    var r := Insert(s, t);
    forall a | a in r.approvalIndex ensures r.approvalIndex[a] in r.tasks && Awaits(r.tasks[r.approvalIndex[a]], a) {
      if a in s.approvalIndex {
        assert s.approvalIndex[a] in s.tasks && s.approvalIndex[a] != t.taskId;
      }
    }
    forall id, a | id in r.tasks && Awaits(r.tasks[id], a) ensures a in r.approvalIndex && r.approvalIndex[a] == id {
      if id != t.taskId {
        assert id in s.tasks && Awaits(s.tasks[id], a);
      }
    }
  }

  lemma {:induction false} UnsharedApprovalIsFree(ts: seq<Task>, a: string)
    requires IndexIsExact(InsertAll(ts)) && forall i | 0 <= i < |ts| :: !Awaits(ts[i], a)
    ensures a !in InsertAll(ts).approvalIndex
  {
    var s := InsertAll(ts);
    if a in s.approvalIndex {
      StoredTasksAreGiven(ts, s.approvalIndex[a]);
    }
  }

  lemma {:induction false} SeparateTasksIndexExactly(ts: seq<Task>)
    requires Separate(ts)
    ensures IndexIsExact(InsertAll(ts))
    decreases |ts|
  {
    if ts != [] {
      var before, t := ts[..|ts| - 1], ts[|ts| - 1];
      SeparateBefore(ts);
      SeparateTasksIndexExactly(before);
      OrderIsIds(before);
      if t.status == AwaitingApproval && t.pendingApproval.Some? {
        forall i | 0 <= i < |before| ensures !Awaits(before[i], t.pendingApproval.value) {
          assert !ShareApproval(ts[i], t);
        }
        UnsharedApprovalIsFree(before, t.pendingApproval.value);
      }
      InsertKeepsIndexExact(InsertAll(before), t);
    }
  }

  /**
  The recovered store is well formed exactly when the hydrated tasks differ in id and wait for different approvals.
  */
  lemma {:induction false} WellFormedExactlyWhenSeparate(ts: seq<Task>)
    ensures WellFormed(InsertAll(ts)) <==> Separate(ts)
  {
    OrderIsIds(ts);
    if Separate(ts) {
      SeparateTasksIndexExactly(ts);
    }
    if WellFormed(InsertAll(ts)) {
      SharedApprovalsSpoilTheIndex(ts);
    }
  }

  lemma {:induction false} SharedApprovalsSpoilTheIndex(ts: seq<Task>)
    requires WellFormed(InsertAll(ts))
    ensures Separate(ts)
  {
    var s := InsertAll(ts);
    OrderIsIds(ts);
    forall i, j | 0 <= i < j < |ts| ensures ts[i].taskId != ts[j].taskId && !ShareApproval(ts[i], ts[j]) {
      assert s.order[i] == ts[i].taskId && s.order[j] == ts[j].taskId;
      DistinctIdsAreStored(ts, i);
      DistinctIdsAreStored(ts, j);
      OneTaskPerApproval(s, ts[i].taskId, ts[j].taskId);
    }
  }

  lemma {:induction false} OneTaskPerApproval(s: Store, id: string, other: string)
    requires IndexIsExact(s) && id in s.tasks && other in s.tasks && id != other
    ensures !ShareApproval(s.tasks[id], s.tasks[other])
  {
    var t, u := s.tasks[id], s.tasks[other];
    if t.pendingApproval.Some? {
      var a := t.pendingApproval.value;
      assert Awaits(t, a) ==> s.approvalIndex[a] == id;
      assert Awaits(u, a) ==> s.approvalIndex[a] == other;
    }
  }

  lemma {:induction false} DistinctIdsAreStored(ts: seq<Task>, k: nat)
    requires k < |ts| && forall i, j | 0 <= i < j < |ts| :: Ids(ts)[i] != Ids(ts)[j]
    ensures ts[k].taskId in InsertAll(ts).tasks && InsertAll(ts).tasks[ts[k].taskId] == ts[k]
    decreases |ts|
  {
    if k < |ts| - 1 {
      var before := ts[..|ts| - 1];
      assert forall i | 0 <= i < |before| :: Ids(before)[i] == Ids(ts)[i];
      DistinctIdsAreStored(before, k);
      assert Ids(ts)[k] != Ids(ts)[|ts| - 1];
    }
  }

  // ---- Recovery from a whole table ----

  /** As checkpoints write it: each row under the id of its own task, and no approval awaited by two tasks. */
  ghost predicate Tidy(table: Table) {
    RowsUnderTheirIds(table) && ApprovalsApart(table)
  }

  ghost predicate RowsUnderTheirIds(table: Table) {
    forall k | k in table :: UnderItsId(k, table[k])
  }

  ghost predicate ApprovalsApart(table: Table) {
    forall k, l | k in table && l in table && k != l :: NothingShared(table[k], table[l])
  }

  predicate UnderItsId(k: string, row: Row) {
    row.payload.Some? ==> k != "" && HydratedId(row.payload.value) == k
  }

  predicate NothingShared(a: Row, b: Row) {
    a.payload.Some? && b.payload.Some? ==> !ShareApproval(a.payload.value.summary, b.payload.value.summary)
  }

  lemma {:induction false} ParsedRowsAre(table: Table, keys: seq<string>)
    requires forall k | k in keys :: k in table
    ensures var read := ParseRows(table, keys);
            read.Some? ==>
              |read.value| == |keys| && forall i | 0 <= i < |keys| :: table[keys[i]].payload == Some(read.value[i])
    decreases |keys|
  {
    if keys != [] {
      var before := keys[..|keys| - 1];
      ParsedRowsAre(table, before);
      assert forall i | 0 <= i < |before| :: before[i] == keys[i];
    }
  }

  /** Snapshots of different tasks: ids that are there and differ, and no approval awaited twice. */
  ghost predicate Apart(s: Snapshot, t: Snapshot) {
    HydratedId(s) != HydratedId(t) && !ShareApproval(s.summary, t.summary)
  }

  ghost predicate Named(ss: seq<Snapshot>) {
    forall i | 0 <= i < |ss| :: HydratedId(ss[i]) != ""
  }

  ghost predicate AllApart(ss: seq<Snapshot>) {
    forall i, j | 0 <= i < |ss| && 0 <= j < |ss| && i != j :: Apart(ss[i], ss[j])
  }

  lemma {:induction false} RowsOfATidyTable(table: Table, keys: seq<string>)
    requires Tidy(table) && (forall k | k in keys :: k in table) && Ordering.NoDuplicates(keys)
    requires ParseRows(table, keys).Some?
    ensures var ss := ParseRows(table, keys).value;
            && |ss| == |keys| && Named(ss) && AllApart(ss) && Ordering.NoDuplicates(ss)
            && forall i | 0 <= i < |keys| :: HydratedId(ss[i]) == keys[i]
  {
    ParsedRowsAre(table, keys);
    var ss := ParseRows(table, keys).value;
    forall i | 0 <= i < |keys| ensures HydratedId(ss[i]) == keys[i] && keys[i] != "" {
      assert keys[i] in keys;
    }
    forall i, j | 0 <= i < |ss| && 0 <= j < |ss| && i != j ensures Apart(ss[i], ss[j]) {
      assert keys[i] in keys && keys[j] in keys && keys[i] != keys[j];
      assert NothingShared(table[keys[i]], table[keys[j]]);
    }
  }

  ghost predicate SameSnapshots(a: seq<Snapshot>, b: seq<Snapshot>) {
    forall s :: s in a <==> s in b
  }

  lemma {:induction false} SortingKeepsSnapshots(ss: seq<Snapshot>)
    requires Ordering.NoDuplicates(ss)
    ensures SameSnapshots(ByUpdate(ss), ss) && |ByUpdate(ss)| == |ss|
    ensures Ordering.NoDuplicates(ByUpdate(ss)) && Ordering.Sorted(ByUpdate(ss), NotNewer)
  {
    Ordering.SortSorts(ss, NotNewer);
    Ordering.RearrangingKeepsDistinct(ss, ByUpdate(ss));
    forall s ensures s in ByUpdate(ss) <==> s in ss {
      assert s in ByUpdate(ss) <==> s in multiset(ByUpdate(ss));
    }
  }

  lemma {:induction false} SameNamed(a: seq<Snapshot>, b: seq<Snapshot>)
    requires SameSnapshots(a, b) && Named(b)
    ensures Named(a)
  {
    forall i | 0 <= i < |a| ensures HydratedId(a[i]) != "" {
      var s := a[i];
      assert s in a && s in b;
      var k :| 0 <= k < |b| && b[k] == s;
    }
  }

  lemma {:induction false} TwoApart(ss: seq<Snapshot>, s: Snapshot, t: Snapshot)
    requires AllApart(ss) && s in ss && t in ss && s != t
    ensures Apart(s, t)
  {
    var i :| 0 <= i < |ss| && ss[i] == s;
    var j :| 0 <= j < |ss| && ss[j] == t;
    assert Apart(ss[i], ss[j]);
  }

  lemma {:induction false} SameApart(a: seq<Snapshot>, b: seq<Snapshot>)
    requires SameSnapshots(a, b) && AllApart(b) && Ordering.NoDuplicates(a)
    ensures AllApart(a)
  {
    forall i, j | 0 <= i < |a| && 0 <= j < |a| && i != j ensures Apart(a[i], a[j]) {
      var s, t := a[i], a[j];
      assert s in a && t in a && s != t;
      TwoApart(b, s, t);
    }
  }

  lemma {:induction false} NoneMissing<T>(options: seq<Option<T>>)
    requires forall i | 0 <= i < |options| :: options[i].Some?
    ensures |Present(options)| == |options|
    ensures forall i | 0 <= i < |options| :: options[i] == Some(Present(options)[i])
    decreases |options|
  {
    if options != [] {
      NoneMissing(options[..|options| - 1]);
    }
  }

  lemma {:induction false} KeptOneByOne(ss: seq<Snapshot>, clock: nat -> nat)
    requires Named(ss)
    ensures |Kept(ss, clock)| == |ss|
    ensures forall i | 0 <= i < |ss| :: Hydrate(ss[i], clock(i)) == Some(Kept(ss, clock)[i])
  {
    NoneMissing(Each(ss, Hydrate, clock));
  }

  lemma {:induction false} ApartMeansSeparate(ss: seq<Snapshot>, clock: nat -> nat)
    requires Named(ss) && AllApart(ss)
    ensures Separate(Kept(ss, clock))
  {
    KeptOneByOne(ss, clock);
    var ts := Kept(ss, clock);
    forall i, j | 0 <= i < j < |ts| ensures ts[i].taskId != ts[j].taskId && !ShareApproval(ts[i], ts[j]) {
      assert Apart(ss[i], ss[j]);
      assert Hydrate(ss[i], clock(i)) == Some(ts[i]) && Hydrate(ss[j], clock(j)) == Some(ts[j]);
    }
  }

  /** The queued ones among the stored tasks, in the order of the store. */
  function QueuedOf(order: seq<string>, tasks: map<string, Task>): seq<string> {
    if order == [] then []
    else
      var last := order[|order| - 1];
      QueuedOf(order[..|order| - 1], tasks) + if last in tasks && tasks[last].status == Queued then [last] else []
  }

  lemma {:induction false} QueueIsTheQueuedTasks(ts: seq<Task>, tasks: map<string, Task>)
    requires forall i | 0 <= i < |ts| :: ts[i].taskId in tasks && tasks[ts[i].taskId] == ts[i]
    ensures QueuedIds(ts) == QueuedOf(Ids(ts), tasks)
    decreases |ts|
  {
    if ts != [] {
      QueueIsTheQueuedTasks(ts[..|ts| - 1], tasks);
      assert Ids(ts)[..|ts| - 1] == Ids(ts[..|ts| - 1]);
    }
  }

  /** The state recovered from snapshots of different tasks. */
  lemma {:induction false} RecoveredStateIsSound(ss: seq<Snapshot>, clock: nat -> nat)
    requires Named(ss) && AllApart(ss)
    ensures var r := RecoverAll(ss, clock);
            && WellFormed(r.store) && |r.store.order| == |ss| == r.recovered
            && (forall i | 0 <= i < |ss| :: r.store.order[i] == HydratedId(ss[i]))
            && (forall i | 0 <= i < |ss| :: HydratedId(ss[i]) in r.store.tasks
                                            && Hydrate(ss[i], clock(i)) == Some(r.store.tasks[HydratedId(ss[i])]))
            && r.queue == QueuedOf(r.store.order, r.store.tasks)
            && r.interrupts == CountRunning(ss)
  {
    RecoveryIsTheHydratedTasks(ss, clock);
    KeptOneByOne(ss, clock);
    ApartMeansSeparate(ss, clock);
    var ts := Kept(ss, clock);
    WellFormedExactlyWhenSeparate(ts);
    OrderIsIds(ts);
    forall i | 0 <= i < |ts| ensures ts[i].taskId in InsertAll(ts).tasks && InsertAll(ts).tasks[ts[i].taskId] == ts[i] {
      EachTaskIsStored(ts, i);
    }
    QueueIsTheQueuedTasks(ts, InsertAll(ts).tasks);
  }

  /**
  From any table of checkpoints, whichever of the most recent rows the database returns and in whatever order among
  ties: the store is well formed and holds exactly the tasks of those rows, oldest update first; none of them is
  running, those that were are resumable and counted; and the restart queue is exactly the queued ones in that order.
  */
  lemma {:induction false} RecoveryRestoresTheTable(table: Table, limit: nat, keys: seq<string>, clock: nat -> nat)
    requires Tidy(table) && IsRecentAnswer(table, limit, keys) && ParseRows(table, keys).Some?
    ensures var ss := ByUpdate(ParseRows(table, keys).value);
            var r := Recover(true, ParseRows(table, keys), clock);
            && (forall i, j | 0 <= i < j < |ss| :: ss[i].updatedAt <= ss[j].updatedAt) && |ss| == |r.store.order|
            && (forall i | 0 <= i < |ss| :: r.store.order[i] == HydratedId(ss[i]))
            && WellFormed(r.store) && (forall id :: id in r.store.tasks <==> id in keys)
            && (forall id | id in r.store.tasks :: RestoredFrom(table, id, r.store.tasks[id]))
            && r.queue == QueuedOf(r.store.order, r.store.tasks)
            && r.interrupts == |RunningOnes(ss)|
  {
    var rows := ParseRows(table, keys).value;
    var ss := ByUpdate(rows);
    RowsOfATidyTable(table, keys);
    SortingKeepsSnapshots(rows);
    SameNamed(ss, rows);
    SameApart(ss, rows);
    RecoveredStateIsSound(ss, clock);
    CountingRunningOnes(ss);
    var r := RecoverAll(ss, clock);
    NamesOfRearranged(rows, ss, keys, r.store.order, HydratedId);
    forall id | id in r.store.tasks ensures RestoredFrom(table, id, r.store.tasks[id]) {
      assert id in r.store.order;
      var i :| 0 <= i < |ss| && r.store.order[i] == id;
      TaskComesFromItsRow(table, keys, rows, ss, i, clock(i), r.store.tasks[id]);
    }
  }

  lemma {:induction false} TaskComesFromItsRow(table: Table, keys: seq<string>, rows: seq<Snapshot>, ss: seq<Snapshot>,
                                               i: nat, now: nat, t: Task)
    requires (forall k | k in keys :: k in table) && ParseRows(table, keys) == Some(rows)
    requires |rows| == |keys| && (forall k | 0 <= k < |keys| :: HydratedId(rows[k]) == keys[k])
    requires SameSnapshots(ss, rows) && i < |ss| && Hydrate(ss[i], now) == Some(t)
    ensures RestoredFrom(table, HydratedId(ss[i]), t)
  {
    var s := ss[i];
    assert s in ss && s in rows;
    var k :| 0 <= k < |rows| && rows[k] == s;
    ParsedRowsAre(table, keys);
    assert table[keys[k]].payload == Some(rows[k]);
    assert keys[k] in keys;
  }

  lemma {:induction false} DistinctKeysCount(keys: seq<string>)
    requires Ordering.NoDuplicates(keys)
    ensures |set k | k in keys| == |keys|
  {
    if keys != [] {
      var before, last := keys[..|keys| - 1], keys[|keys| - 1];
      DistinctKeysCount(before);
      assert last !in before;
      assert (set k | k in keys) == (set k | k in before) + {last};
    }
  }

  lemma {:induction false} AsManyIsAll(some: set<string>, all: set<string>)
    requires some <= all && |some| == |all|
    ensures some == all
  {
    assert all == some + (all - some);
  }

  /** A table within the limit comes back whole; from a longer one `limit` rows do, and none left out is more recent. */
  lemma {:induction false} AnswersAreTheMostRecent(table: Table, limit: nat, keys: seq<string>)
    requires IsRecentAnswer(table, limit, keys)
    ensures |table| <= limit ==> forall k :: k in keys <==> k in table
    ensures |table| > limit ==> |keys| == limit
    ensures forall k, l | k in table && k !in keys && l in keys :: table[k].updatedAt <= table[l].updatedAt
  {
    DistinctKeysCount(keys);
    if |table| <= limit {
      AsManyIsAll((set k | k in keys), table.Keys);
      forall k ensures k in keys <==> k in table {
        assert k in keys <==> k in (set l | l in keys);
      }
    }
  }

  /** A recovered task against its row: same steps, never running, and resumable if it was. */
  ghost predicate RestoredFrom(table: Table, id: string, t: Task) {
    && id in table && table[id].payload.Some?
    && var was := table[id].payload.value.summary;
       t.taskId == id && t.steps == was.steps && t.status != Running
       && (was.status == Running ==> IsResumable(t)) && (was.status != Running ==> t.status == was.status)
  }

  lemma {:induction false} NamesOfRearranged<S(!new), K(!new)>(rows: seq<S>, ss: seq<S>, keys: seq<K>,
                                               order: seq<K>, name: S -> K)
    requires |rows| == |keys| && (forall i | 0 <= i < |keys| :: name(rows[i]) == keys[i])
    requires |order| == |ss| && (forall i | 0 <= i < |ss| :: order[i] == name(ss[i]))
    requires forall s :: s in ss <==> s in rows
    ensures forall id :: id in order <==> id in keys
  {
    forall id | id in order ensures id in keys {
      var i :| 0 <= i < |order| && order[i] == id;
      assert ss[i] in rows;
      var k :| 0 <= k < |rows| && rows[k] == ss[i];
      assert keys[k] == id;
    }
    forall id | id in keys ensures id in order {
      var k :| 0 <= k < |keys| && keys[k] == id;
      assert rows[k] in ss;
      var i :| 0 <= i < |ss| && ss[i] == rows[k];
      assert order[i] == id;
    }
  }

  lemma {:induction false} ReplacingKeepsApprovalsApart(table: Table, id: string, row: Row)
    requires ApprovalsApart(table) && forall a | a in table && a != id :: NothingShared(table[a], row)
    ensures ApprovalsApart(table[id := row])
  {
    var after := table[id := row];
    forall k, l | k in after && l in after && k != l ensures NothingShared(after[k], after[l]) {
      if k == id {
        assert NothingShared(table[l], row);
      } else if l == id {
        assert NothingShared(table[k], row);
      } else {
        assert NothingShared(table[k], table[l]);
      }
    }
  }

  lemma {:induction false} ReplacingKeepsIds(table: Table, id: string, row: Row)
    requires RowsUnderTheirIds(table) && UnderItsId(id, row)
    ensures RowsUnderTheirIds(table[id := row])
  {
    var after := table[id := row];
    forall k | k in after ensures UnderItsId(k, after[k]) {
      assert k != id ==> UnderItsId(k, table[k]);
    }
  }

  /** Checkpointing a named task keeps the table tidy as long as its approval is its own. */
  lemma {:induction false} UpsertKeepsTidy(table: Table, s: Snapshot)
    requires Tidy(table) && s.taskId != "" && HydratedId(s) == s.taskId
    requires forall k | k in table && k != s.taskId :: NothingShared(table[k], Row(AsI64(s.updatedAt), Some(s)))
    ensures Tidy(Upsert(table, s))
  {
    ReplacingKeepsIds(table, s.taskId, Row(AsI64(s.updatedAt), Some(s)));
    ReplacingKeepsApprovalsApart(table, s.taskId, Row(AsI64(s.updatedAt), Some(s)));
  }
}
