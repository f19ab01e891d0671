/** Making room in the agent task store by evicting its oldest finished tasks. */
module TaskCapacity {
  import opened AgentTasks
  import opened Options

  function Without(order: seq<string>, gone: set<string>): seq<string> {
    if order == [] then []
    else (if order[0] in gone then [] else [order[0]]) + Without(order[1..], gone)
  }

  /** The store with these tasks, their places in the order and their approvals taken out, and nothing else changed. */
  function Drop(s: Store, gone: set<string>): Store {
    Store(s.tasks - gone, Without(s.order, gone),
          map a | a in s.approvalIndex && s.approvalIndex[a] !in gone :: s.approvalIndex[a])
  }

  /** An entry whose task is missing counts as evictable too. */
  predicate Evictable(s: Store, id: string) {
    id in s.tasks ==> IsTerminal(s.tasks[id].status)
  }

  function FirstEvictable(s: Store, order: seq<string>): (found: Option<string>)
    ensures found.Some? ==> found.value in order && Evictable(s, found.value)
    ensures found.None? ==> forall id | id in order :: !Evictable(s, id)
  {
    if order == [] then None
    else if Evictable(s, order[0]) then Some(order[0])
    else FirstEvictable(s, order[1..])
  }

  lemma {:induction false} WithoutIs(order: seq<string>, gone: set<string>, x: string)
    ensures x in Without(order, gone) <==> x in order && x !in gone
  {
    if order != [] {
      WithoutIs(order[1..], gone, x);
      assert order == [order[0]] + order[1..];
    }
  }

  lemma {:induction false} WithoutShrinks(order: seq<string>, gone: set<string>)
    ensures |Without(order, gone)| <= |order|
    ensures (exists x :: x in order && x in gone) ==> |Without(order, gone)| < |order|
  {
    if order != [] {
      WithoutShrinks(order[1..], gone);
      assert order == [order[0]] + order[1..];
    }
  }

  /** The source's loop: evict while the store is full; false when nothing is left to evict. */
  function EnsureCapacity(s: Store, maxTasks: nat): (Store, bool)
    decreases |s.order|
  {
    if |s.order| < maxTasks then (s, true)
    else
      var victim := FirstEvictable(s, s.order);
      if victim.None? then (s, false)
      else
        WithoutShrinks(s.order, {victim.value});
        EnsureCapacity(Drop(s, {victim.value}), maxTasks)
  }

  class AgentTaskStore {
    var tasks: map<string, Task>
    var order: seq<string>
    var approvalIndex: map<string, string>

    constructor ()
      ensures Contents() == EMPTY_STORE
    {
      tasks, order, approvalIndex := map[], [], map[];
    }

    function Contents(): Store
      reads this
    {
      Store(tasks, order, approvalIndex)
    }

    method RemoveAgentTask(taskId: string)
      modifies this
      ensures Contents() == Drop(old(Contents()), {taskId})
    {
      tasks := tasks - {taskId};
      order := Without(order, {taskId});
      approvalIndex := map a | a in approvalIndex && approvalIndex[a] !in {taskId} :: approvalIndex[a];
    }

    method EvictOldestTerminalAgentTask() returns (evicted: bool)
      modifies this
      ensures evicted <==> FirstEvictable(old(Contents()), old(order)).Some?
      ensures Contents() == if evicted then Drop(old(Contents()), {FirstEvictable(old(Contents()), old(order)).value})
                            else old(Contents())
    {
      var taskId := FirstEvictable(Contents(), order);
      if taskId.None? {
        return false;
      }
      RemoveAgentTask(taskId.value);
      return true;
    }

    method EnsureAgentTaskCapacity(maxTasks: nat) returns (ok: bool)
      modifies this
      ensures (Contents(), ok) == EnsureCapacity(old(Contents()), maxTasks)
    {
      while |order| >= maxTasks
        invariant EnsureCapacity(Contents(), maxTasks) == EnsureCapacity(old(Contents()), maxTasks)
        decreases |order|
      {
        ghost var before := Contents();
        var evicted := EvictOldestTerminalAgentTask();
        if !evicted {
          return false;
        }
        WithoutShrinks(before.order, {FirstEvictable(before, before.order).value});
      }
      return true;
    }
  }

  // ---- What eviction removes ----

  /** The finished tasks, oldest first. */
  function Finished(tasks: map<string, Task>, order: seq<string>): seq<string> {
    if order == [] then []
    else
      (if order[0] in tasks && IsTerminal(tasks[order[0]].status) then [order[0]] else []) + Finished(tasks, order[1..])
  }

  /** How many tasks have to go before one more fits. */
  function Surplus(s: Store, maxTasks: nat): nat {
    if |s.order| < maxTasks then 0 else |s.order| - maxTasks + 1
  }

  function ToSet(ids: seq<string>): set<string> {
    set id | id in ids
  }

  ghost predicate NoRepeats(order: seq<string>) {
    forall i, j | 0 <= i < j < |order| :: order[i] != order[j]
  }

  lemma {:induction false} NoRepeatsBelow(order: seq<string>)
    requires NoRepeats(order) && order != []
    ensures NoRepeats(order[1..]) && order[0] !in order[1..]
  {
  }

  lemma {:induction false} NothingWithout(order: seq<string>, gone: set<string>)
    requires forall x | x in order :: x !in gone
    ensures Without(order, gone) == order
  {
    if order != [] {
      NothingWithout(order[1..], gone);
      assert order == [order[0]] + order[1..];
    }
  }

  lemma {:induction false} WithoutOne(order: seq<string>, id: string)
    requires NoRepeats(order) && id in order
    ensures |Without(order, {id})| == |order| - 1
  {
    NoRepeatsBelow(order);
    if order[0] == id {
      NothingWithout(order[1..], {id});
    } else {
      WithoutOne(order[1..], id);
    }
  }

  lemma {:induction false} WithoutHasNoRepeats(order: seq<string>, gone: set<string>)
    requires NoRepeats(order)
    ensures NoRepeats(Without(order, gone))
  {
    if order != [] {
      NoRepeatsBelow(order);
      WithoutHasNoRepeats(order[1..], gone);
      WithoutIs(order[1..], gone, order[0]);
    }
  }

  lemma {:induction false} WithoutTwice(order: seq<string>, first: set<string>, second: set<string>)
    ensures Without(Without(order, first), second) == Without(order, first + second)
  {
    if order != [] {
      WithoutTwice(order[1..], first, second);
      var rest := Without(order[1..], first);
      if order[0] in first {
        assert Without(order, first) == rest;
      } else {
        assert Without(order, first) == [order[0]] + rest;
        assert ([order[0]] + rest)[1..] == rest;
      }
    }
  }

  lemma {:induction false} DropTwice(s: Store, first: set<string>, second: set<string>)
    ensures Drop(Drop(s, first), second) == Drop(s, first + second)
  {
    WithoutTwice(s.order, first, second);
    assert s.tasks - first - second == s.tasks - (first + second);
    assert Drop(Drop(s, first), second).approvalIndex == Drop(s, first + second).approvalIndex;
  }

  lemma {:induction false} DropNothing(s: Store)
    ensures Drop(s, {}) == s
  {
    NothingWithout(s.order, {});
    assert s.tasks - {} == s.tasks;
    assert Drop(s, {}).approvalIndex == s.approvalIndex;
  }

  lemma {:induction false} DropKeepsOrderExact(s: Store, gone: set<string>)
    requires OrderIsExact(s)
    ensures OrderIsExact(Drop(s, gone))
  {
    WithoutHasNoRepeats(s.order, gone);
    forall id ensures id in Drop(s, gone).order <==> id in Drop(s, gone).tasks {
      WithoutIs(s.order, gone, id);
    }
  }

  lemma {:induction false} DropKeepsIndexExact(s: Store, gone: set<string>)
    requires IndexIsExact(s)
    ensures IndexIsExact(Drop(s, gone))
  {
    var d := Drop(s, gone);
    forall a | a in d.approvalIndex ensures d.approvalIndex[a] in d.tasks && Awaits(d.tasks[d.approvalIndex[a]], a) {
      assert a in s.approvalIndex;
    }
  }

  lemma {:induction false} FirstFinishedIsEvicted(s: Store, order: seq<string>)
    requires forall id | id in order :: id in s.tasks
    ensures var finished := Finished(s.tasks, order);
            FirstEvictable(s, order) == if finished == [] then None else Some(finished[0])
  {
    if order != [] {
      assert order[0] in order;
      FirstFinishedIsEvicted(s, order[1..]);
    }
  }

  lemma {:induction false} OthersStayFinished(tasks: map<string, Task>, order: seq<string>, id: string)
    requires id !in order
    ensures Finished(tasks - {id}, order) == Finished(tasks, order)
  {
    if order != [] {
      assert order[0] in order;
      OthersStayFinished(tasks, order[1..], id);
    }
  }

  lemma {:induction false} EvictingAdvances(tasks: map<string, Task>, order: seq<string>)
    requires NoRepeats(order) && Finished(tasks, order) != []
    ensures var victim := Finished(tasks, order)[0];
            && victim in order
            && Finished(tasks - {victim}, Without(order, {victim})) == Finished(tasks, order)[1..]
  {
    NoRepeatsBelow(order);
    var victim := Finished(tasks, order)[0];
    if order[0] in tasks && IsTerminal(tasks[order[0]].status) {
      assert victim == order[0];
      NothingWithout(order[1..], {victim});
      assert Without(order, {victim}) == order[1..];
      assert Finished(tasks, order)[1..] == Finished(tasks, order[1..]);
      OthersStayFinished(tasks, order[1..], victim);
    } else {
      EvictingAdvances(tasks, order[1..]);
      assert order[0] != victim;
      assert Without(order, {victim})[1..] == Without(order[1..], {victim});
    }
  }

  lemma {:induction false} FinishedAre(tasks: map<string, Task>, order: seq<string>, id: string)
    ensures id in Finished(tasks, order) <==> id in order && id in tasks && IsTerminal(tasks[id].status)
  {
    if order != [] {
      FinishedAre(tasks, order[1..], id);
      assert order == [order[0]] + order[1..];
    }
  }

  function Evicted(s: Store, maxTasks: nat): seq<string> {
    var finished, surplus := Finished(s.tasks, s.order), Surplus(s, maxTasks);
    if surplus <= |finished| then finished[..surplus] else finished
  }

  /**
  On a store whose order is exact, capacity eviction removes the oldest finished tasks, exactly as many as it takes
  or all there are, takes nothing else away, and succeeds exactly when there were enough of them.
  */
  lemma {:induction false} EvictionRemovesTheOldestFinished(s: Store, maxTasks: nat)
    requires OrderIsExact(s)
    ensures EnsureCapacity(s, maxTasks) ==
            (Drop(s, ToSet(Evicted(s, maxTasks))), Surplus(s, maxTasks) <= |Finished(s.tasks, s.order)|)
    decreases |s.order|
  {
    var finished := Finished(s.tasks, s.order);
    FirstFinishedIsEvicted(s, s.order);
    if |s.order| < maxTasks || finished == [] {
      assert Evicted(s, maxTasks) == [] && ToSet([]) == {};
      DropNothing(s);
    } else {
      var victim := finished[0];
      var next := Drop(s, {victim});
      EvictingAdvances(s.tasks, s.order);
      WithoutOne(s.order, victim);
      DropKeepsOrderExact(s, {victim});
      EvictionRemovesTheOldestFinished(next, maxTasks);
      EvictedOneByOne(s, maxTasks);
      DropTwice(s, {victim}, ToSet(Evicted(next, maxTasks)));
    }
  }

  lemma {:induction false} EvictedOneByOne(s: Store, maxTasks: nat)
    requires OrderIsExact(s) && Finished(s.tasks, s.order) != [] && |s.order| >= maxTasks
    ensures var victim := Finished(s.tasks, s.order)[0];
            ToSet(Evicted(s, maxTasks)) == {victim} + ToSet(Evicted(Drop(s, {victim}), maxTasks))
  {
    var finished := Finished(s.tasks, s.order);
    var victim := finished[0];
    EvictingAdvances(s.tasks, s.order);
    WithoutOne(s.order, victim);
    assert Surplus(Drop(s, {victim}), maxTasks) == Surplus(s, maxTasks) - 1;
    TakingOneMore(finished, Surplus(s, maxTasks));
    HeadAndRest(victim, Evicted(Drop(s, {victim}), maxTasks));
  }

  lemma {:induction false} TakingOneMore(ids: seq<string>, n: nat)
    requires ids != [] && n > 0
    ensures (if n <= |ids| then ids[..n] else ids) ==
        [ids[0]] + (if n - 1 <= |ids[1..]| then ids[1..][..n - 1] else ids[1..])
  {
  }

  lemma {:induction false} HeadAndRest(id: string, rest: seq<string>)
    ensures ToSet([id] + rest) == {id} + ToSet(rest)
  {
  }

  /** Eviction keeps the store well formed, approval index included, and never touches an unfinished task. */
  lemma {:induction false} EvictionKeepsStoreWellFormed(s: Store, maxTasks: nat)
    requires WellFormed(s)
    ensures var after := EnsureCapacity(s, maxTasks).0;
            && WellFormed(after)
            && (forall id | id in s.tasks && !IsTerminal(s.tasks[id].status) ::
                  id in after.tasks && after.tasks[id] == s.tasks[id])
            && (forall id | id in after.tasks :: id in s.tasks && after.tasks[id] == s.tasks[id])
            && after.approvalIndex == s.approvalIndex
  {
    EvictionRemovesTheOldestFinished(s, maxTasks);
    var gone := ToSet(Evicted(s, maxTasks));
    DropKeepsOrderExact(s, gone);
    DropKeepsIndexExact(s, gone);
    forall id | id in gone ensures id in s.tasks && IsTerminal(s.tasks[id].status) {
      FinishedAre(s.tasks, s.order, id);
    }
    assert Drop(s, gone).approvalIndex == s.approvalIndex;
  }

  /** After a success one more task fits; after a failure only unfinished tasks are left and the store is still full. */
  lemma {:induction false} CapacityOutcome(s: Store, maxTasks: nat)
    requires OrderIsExact(s)
    ensures var (after, ok) := EnsureCapacity(s, maxTasks);
            && (ok <==> |after.order| < maxTasks)
            && (!ok ==> forall id | id in after.tasks :: IsUnfinished(after.tasks[id].status))
            && (|s.order| < maxTasks ==> after == s)
            && (|s.order| >= maxTasks ==> |after.order| >= maxTasks - 1)
    decreases |s.order|
  {
    var victim := FirstEvictable(s, s.order);
    if |s.order| >= maxTasks && victim.Some? {
      WithoutShrinks(s.order, {victim.value});
      WithoutOne(s.order, victim.value);
      DropKeepsOrderExact(s, {victim.value});
      CapacityOutcome(Drop(s, {victim.value}), maxTasks);
    }
  }

  predicate IsUnfinished(status: Status) {
    status != Completed && status != Failed && status != Cancelled && status != Interrupted
  }

  // ---- Which ones are the oldest ----

  lemma {:induction false} FinishedKeepOrder(tasks: map<string, Task>, order: seq<string>, i: nat, j: nat)
    requires i < j < |order| && order[i] in tasks && order[j] in tasks
    requires IsTerminal(tasks[order[i]].status) && IsTerminal(tasks[order[j]].status)
    ensures exists p, q ::
              0 <= p < q < |Finished(tasks, order)|
              && Finished(tasks, order)[p] == order[i] && Finished(tasks, order)[q] == order[j]
  {
    var finished, rest := Finished(tasks, order), Finished(tasks, order[1..]);
    if i == 0 {
      FinishedAre(tasks, order[1..], order[j]);
      assert order[1..][j - 1] == order[j];
      var q :| 0 <= q < |rest| && rest[q] == order[j];
      assert finished == [order[0]] + rest && finished[0] == order[i] && finished[q + 1] == order[j];
    } else {
      FinishedKeepOrder(tasks, order[1..], i - 1, j - 1);
      var p, q :| 0 <= p < q < |rest| && rest[p] == order[1..][i - 1] && rest[q] == order[1..][j - 1];
      var shift := |finished| - |rest|;
      assert finished[p + shift] == rest[p] && finished[q + shift] == rest[q];
    }
  }

  lemma {:induction false} FinishedHaveNoRepeats(tasks: map<string, Task>, order: seq<string>)
    requires NoRepeats(order)
    ensures NoRepeats(Finished(tasks, order))
  {
    if order != [] {
      NoRepeatsBelow(order);
      FinishedHaveNoRepeats(tasks, order[1..]);
      FinishedAre(tasks, order[1..], order[0]);
    }
  }

  lemma {:induction false} EarlierInPrefix(ids: seq<string>, n: nat, p: nat, q: nat)
    requires n <= |ids| && p < q < |ids| && NoRepeats(ids) && ids[q] in ids[..n]
    ensures ids[p] in ids[..n]
  {
    var k :| 0 <= k < n && ids[..n][k] == ids[q];
    assert k == q;
    assert ids[..n][p] == ids[p];
  }

  /** Eviction goes by age: with a finished task every finished one before it in the order goes as well. */
  lemma {:induction false} OlderOnesGoFirst(s: Store, maxTasks: nat, i: nat, j: nat)
    requires OrderIsExact(s) && i < j < |s.order|
    requires !IsUnfinished(s.tasks[s.order[i]].status) && !IsUnfinished(s.tasks[s.order[j]].status)
    ensures var after := EnsureCapacity(s, maxTasks).0;
            s.order[j] !in after.tasks ==> s.order[i] !in after.tasks
  {
    EvictionRemovesTheOldestFinished(s, maxTasks);
    FinishedKeepOrder(s.tasks, s.order, i, j);
    FinishedHaveNoRepeats(s.tasks, s.order);
    var finished, evicted := Finished(s.tasks, s.order), Evicted(s, maxTasks);
    var p, q :| 0 <= p < q < |finished| && finished[p] == s.order[i] && finished[q] == s.order[j];
    if s.order[j] in evicted {
      assert evicted == finished[..|evicted|];
      EarlierInPrefix(finished, |evicted|, p, q);
    }
  }

  /** An entry of the order without a task is evicted like a finished one. */
  lemma {:induction false} MissingEntriesGo(s: Store, maxTasks: nat)
    requires s.order != [] && s.order[0] !in s.tasks && |s.order| >= maxTasks
    ensures EnsureCapacity(s, maxTasks) == EnsureCapacity(Drop(s, {s.order[0]}), maxTasks)
  {
  }
}
