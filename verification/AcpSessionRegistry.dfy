/**
The ACP session registry: four maps shared by every turn, task and server request.
The lock is dropped at each await, so the steps below (one per lock-held section) interleave freely.
*/
module AcpSessionRegistry {
  import opened Options
  import Text

  type SessionId = string
  type TerminalId = string

  datatype Session = Session(id: SessionId, options: Option<string>, terminals: set<TerminalId>)

  datatype Store = Store(
    sessionsByKey: map<string, Session>,
    keyById: map<SessionId, string>,
    turns: map<string, SessionId>,
    tasks: map<string, SessionId>)

  // ---- Session keys ----

  function ThreadKey(workspace: string, thread: string, backend: string): string {
    "thread:" + KeyTail(workspace, thread, backend)
  }

  function HiddenTaskKey(workspace: string, task: string, backend: string): string {
    "task:" + KeyTail(workspace, task, backend)
  }

  function KeyTail(workspace: string, name: string, backend: string): string {
    Text.Trim(workspace) + ":" + Text.Trim(name) + ":" + Text.Trim(backend)
  }

  predicate IsHidden(key: string) {
    "task:" <= key
  }

  lemma {:induction false} KindIsInThePrefix(tail: string)
    ensures IsHidden("task:" + tail) && !IsHidden("thread:" + tail)
  {
    assert ("thread:" + tail)[1] == 'h' && "task:"[1] == 'a';
  }

  /** The two kinds of key never meet, so the prefix test tells hidden sessions from thread sessions. */
  lemma {:induction false} KeyKinds(workspace: string, name: string, backend: string)
    ensures IsHidden(HiddenTaskKey(workspace, name, backend))
    ensures !IsHidden(ThreadKey(workspace, name, backend))
  {
    KindIsInThePrefix(KeyTail(workspace, name, backend));
  }

  // ---- The lock-held sections, as functions on the store ----

  function Bind(s: Store, turn: Option<string>, task: Option<string>, id: SessionId): Store {
    s.(turns := if turn.Some? then s.turns[turn.value := id] else s.turns,
       tasks := if task.Some? then s.tasks[task.value := id] else s.tasks)
  }

  /** The second section of a refresh: the session is looked up again, and may be gone by now. */
  function Refresh(s: Store, key: string, options: Option<string>, turn: Option<string>, task: Option<string>): Store {
    if key !in s.sessionsByKey then s
    else
      var session := s.sessionsByKey[key];
      Bind(s.(sessionsByKey := s.sessionsByKey[key := session.(options := options)]), turn, task, session.id)
  }

  /** Registering a freshly created session, whatever was under the key before. */
  function Register(s: Store, key: string, id: SessionId, options: Option<string>,
                    turn: Option<string>, task: Option<string>): Store {
    Bind(s.(sessionsByKey := s.sessionsByKey[key := Session(id, options, {})], keyById := s.keyById[id := key]),
         turn, task, id)
  }

  function DetachTurn(s: Store, turn: string): Store {
    s.(turns := s.turns - {turn})
  }

  predicate Bound(s: Store, id: SessionId) {
    id in s.turns.Values || id in s.tasks.Values
  }

  /** Whether releasing the task removes its session: hidden, and this was the last binding. */
  predicate Retires(s: Store, task: string) {
    && task in s.tasks
    && s.tasks[task] in s.keyById
    && IsHidden(s.keyById[s.tasks[task]])
    && !Bound(s.(tasks := s.tasks - {task}), s.tasks[task])
    && s.keyById[s.tasks[task]] in s.sessionsByKey
  }

  function DetachTask(s: Store, task: string): Store {
    var rest := s.(tasks := s.tasks - {task});
    if Retires(s, task) then
      var id := s.tasks[task];
      rest.(sessionsByKey := s.sessionsByKey - {s.keyById[id]}, keyById := s.keyById - {id})
    else rest
  }

  /** The terminals handed to the caller of a release for closing. */
  function Released(s: Store, task: string): set<TerminalId> {
    if Retires(s, task) then s.sessionsByKey[s.keyById[s.tasks[task]]].terminals else {}
  }

  function WithTerminals(s: Store, id: SessionId, add: set<TerminalId>, remove: set<TerminalId>): Store {
    if id in s.keyById && s.keyById[id] in s.sessionsByKey then
      var session := s.sessionsByKey[s.keyById[id]];
      s.(sessionsByKey := s.sessionsByKey[s.keyById[id] := session.(terminals := session.terminals + add - remove)])
    else s
  }

  // ---- The registry and the world around it ----

  /**
  `issued` are the session ids the agent has ever returned, `everOpened` the terminals ever opened,
  `threadIds` the ids returned to callers of a thread session, `closing` the terminals handed out for closing.
  */
  datatype World = World(
    store: Store,
    issued: set<SessionId>,
    threadIds: set<SessionId>,
    everOpened: set<TerminalId>,
    closing: set<TerminalId>)

  const INIT := World(Store(map[], map[], map[], map[]), {}, {}, {}, {})

  datatype Event =
    | RefreshTurn(key: string, options: Option<string>, turn: string)
    | RefreshTask(key: string, options: Option<string>, task: string)
    | CreateForTurn(key: string, id: SessionId, options: Option<string>, turn: string)
    | CreateForTask(key: string, id: SessionId, options: Option<string>, task: string)
    | BindTaskToThread(task: string, id: SessionId)
    | ReleaseTurn(turn: string)
    | ReleaseTask(task: string)
    | OpenTerminal(id: SessionId, terminal: TerminalId)
    | ForgetTerminal(id: SessionId, terminal: TerminalId)
    | UpdateOptions(id: SessionId, options: Option<string>)

  /**
  What the callers and the agent guarantee: the keys are of the right kind, session and terminal ids are new,
  and a task is bound to a thread session only with an id that was returned for one.
  */
  predicate Enabled(w: World, e: Event) {
    match e
    case RefreshTurn(key, _, _) => !IsHidden(key)
    case RefreshTask(key, _, _) => IsHidden(key)
    case CreateForTurn(key, id, _, _) => !IsHidden(key) && id !in w.issued
    case CreateForTask(key, id, _, _) => IsHidden(key) && id !in w.issued
    case BindTaskToThread(_, id) => id in w.threadIds
    case OpenTerminal(_, terminal) => terminal !in w.everOpened
    case _ => true
  }

  /** Two creations of one hidden session overlap: the second finds the first already registered. */
  predicate Overlaps(w: World, e: Event) {
    e.CreateForTask? && e.key in w.store.sessionsByKey
  }

  function Step(w: World, e: Event): World {
    var s := w.store;
    match e
    case RefreshTurn(key, options, turn) =>
      w.(store := Refresh(s, key, options, Some(turn), None),
         threadIds := if key in s.sessionsByKey then w.threadIds + {s.sessionsByKey[key].id} else w.threadIds)
    case RefreshTask(key, options, task) => w.(store := Refresh(s, key, options, None, Some(task)))
    case CreateForTurn(key, id, options, turn) =>
      w.(store := Register(s, key, id, options, Some(turn), None),
         issued := w.issued + {id}, threadIds := w.threadIds + {id})
    case CreateForTask(key, id, options, task) =>
      w.(store := Register(s, key, id, options, None, Some(task)), issued := w.issued + {id})
    case BindTaskToThread(task, id) => w.(store := Bind(DetachTurn(s, task), None, Some(task), id))
    case ReleaseTurn(turn) => w.(store := DetachTurn(s, turn))
    case ReleaseTask(task) => w.(store := DetachTask(s, task), closing := w.closing + Released(s, task))
    case OpenTerminal(id, terminal) =>
      w.(store := WithTerminals(s, id, {terminal}, {}), everOpened := w.everOpened + {terminal})
    case ForgetTerminal(id, terminal) => w.(store := WithTerminals(s, id, {}, {terminal}))
    case UpdateOptions(id, options) =>
      if id in s.keyById then w.(store := Refresh(s, s.keyById[id], options, None, None)) else w
  }

  // ---- Invariants ----

  /** Every id leads to a live session, and a live session's own id leads back to its key. */
  ghost predicate MapsBack(s: Store) {
    && (forall id | id in s.keyById :: s.keyById[id] in s.sessionsByKey)
    && (forall k | k in s.sessionsByKey ::
          s.sessionsByKey[k].id in s.keyById && s.keyById[s.sessionsByKey[k].id] == k)
  }

  /** Every binding resolves: turn or task, to id, to key, to a live session. */
  ghost predicate BindingsResolve(s: Store) {
    && (forall t | t in s.turns :: s.turns[t] in s.keyById && s.keyById[s.turns[t]] in s.sessionsByKey)
    && (forall t | t in s.tasks :: s.tasks[t] in s.keyById && s.keyById[s.tasks[t]] in s.sessionsByKey)
  }

  /** A hidden session has no id but its own, so removing it strands nobody. */
  ghost predicate HiddenIdsUnique(s: Store) {
    forall id | id in s.keyById && IsHidden(s.keyById[id]) && s.keyById[id] in s.sessionsByKey ::
      s.sessionsByKey[s.keyById[id]].id == id
  }

  ghost predicate Registered(w: World) {
    && MapsBack(w.store) && BindingsResolve(w.store) && HiddenIdsUnique(w.store)
    && w.store.keyById.Keys <= w.issued
    && (forall id | id in w.threadIds :: id in w.store.keyById && !IsHidden(w.store.keyById[id]))
  }

  /** Terminals belong to one session at most, and one that was handed out for closing belongs to none. */
  ghost predicate TerminalsOwned(w: World) {
    var live := w.store.sessionsByKey;
    && (forall k, t | k in live && t in live[k].terminals :: t in w.everOpened && t !in w.closing)
    && (forall j, k, t | j in live && k in live && t in live[j].terminals && t in live[k].terminals :: j == k)
    && w.closing <= w.everOpened
  }

  // ---- One step ----

  lemma {:induction false} RefreshKeeps(w: World, key: string, options: Option<string>,
                                        turn: Option<string>, task: Option<string>)
    requires Registered(w)
    ensures Registered(w.(store := Refresh(w.store, key, options, turn, task)))
  {
  }

  lemma {:induction false} RegisterMapsBack(w: World, key: string, id: SessionId, options: Option<string>,
                                            turn: Option<string>, task: Option<string>)
    requires Registered(w) && id !in w.issued
    ensures MapsBack(Register(w.store, key, id, options, turn, task))
    ensures BindingsResolve(Register(w.store, key, id, options, turn, task))
  {
  }

  /** Registering a session keeps hidden ids unique exactly when the key is a thread's or not yet in use. */
  lemma {:induction false} RegisterHiddenIds(w: World, key: string, id: SessionId, options: Option<string>,
                                             turn: Option<string>, task: Option<string>)
    requires Registered(w) && id !in w.issued
    ensures HiddenIdsUnique(Register(w.store, key, id, options, turn, task))
            <==> !(IsHidden(key) && key in w.store.sessionsByKey)
  {
    var t := Register(w.store, key, id, options, turn, task);
    if IsHidden(key) && key in w.store.sessionsByKey {
      var earlier := w.store.sessionsByKey[key].id;
      assert earlier != id && t.keyById[earlier] == key && t.sessionsByKey[key].id == id;
    }
  }

  lemma {:induction false} DetachTaskKeeps(w: World, task: string)
    requires Registered(w)
    ensures Registered(w.(store := DetachTask(w.store, task)))
  {
    var s, t := w.store, DetachTask(w.store, task);
    if Retires(s, task) {
      var id := s.tasks[task];
      var rest := s.tasks - {task};
      forall u | u in t.tasks ensures t.tasks[u] != id { assert rest[u] in rest.Values; }
      forall u | u in t.turns ensures t.turns[u] != id { assert s.turns[u] in s.turns.Values; }
    }
  }

  lemma {:induction false} TerminalsKeepRegistered(w: World, id: SessionId, add: set<TerminalId>,
                                                   remove: set<TerminalId>)
    requires Registered(w)
    ensures Registered(w.(store := WithTerminals(w.store, id, add, remove)))
  {
  }

  /** An enabled step keeps the registry consistent exactly when it is not an overlapping hidden creation. */
  lemma {:induction false} StepKeepsRegisteredExactly(w: World, e: Event)
    requires Registered(w) && Enabled(w, e)
    ensures Registered(Step(w, e)) <==> !Overlaps(w, e)
  {
    match e
    case RefreshTurn(key, options, turn) => RefreshKeeps(w, key, options, Some(turn), None);
    case RefreshTask(key, options, task) => RefreshKeeps(w, key, options, None, Some(task));
    case CreateForTurn(key, id, options, turn) =>
      RegisterMapsBack(w, key, id, options, Some(turn), None);
      RegisterHiddenIds(w, key, id, options, Some(turn), None);
    case CreateForTask(key, id, options, task) =>
      RegisterMapsBack(w, key, id, options, None, Some(task));
      RegisterHiddenIds(w, key, id, options, None, Some(task));
    case BindTaskToThread(task, id) =>
    case ReleaseTurn(turn) =>
    case ReleaseTask(task) => DetachTaskKeeps(w, task);
    case OpenTerminal(id, terminal) => TerminalsKeepRegistered(w, id, {terminal}, {});
    case ForgetTerminal(id, terminal) => TerminalsKeepRegistered(w, id, {}, {terminal});
    case UpdateOptions(id, options) =>
      if id in w.store.keyById { RefreshKeeps(w, w.store.keyById[id], options, None, None); }
  }

  lemma {:induction false} StepKeepsTerminals(w: World, e: Event)
    requires Registered(w) && TerminalsOwned(w) && Enabled(w, e)
    ensures TerminalsOwned(Step(w, e))
    ensures e.ReleaseTask? ==> Released(w.store, e.task) !! w.closing
  {
  }

  /** What a step may remove: never a thread session, and a hidden one only with its last binding. */
  lemma {:induction false} OnlyUnboundHiddenSessionsGo(w: World, e: Event, key: string)
    requires Registered(w) && Enabled(w, e)
    requires key in w.store.sessionsByKey && key !in Step(w, e).store.sessionsByKey
    ensures IsHidden(key) && e.ReleaseTask? && e.task in w.store.tasks
    ensures w.store.tasks[e.task] == w.store.sessionsByKey[key].id
    ensures !Bound(Step(w, e).store, w.store.sessionsByKey[key].id)
  {
  }

  // ---- When a binding stops resolving ----

  predicate OtherIdSameKey(s: Store, id: SessionId, other: SessionId) {
    id != other && id in s.keyById && other in s.keyById && s.keyById[id] == s.keyById[other]
  }

  /** The release retires its session while another turn or task is bound to a different id under the same key. */
  predicate StrandsAnother(s: Store, task: string) {
    && Retires(s, task)
    && ((exists t | t in s.turns :: OtherIdSameKey(s, s.turns[t], s.tasks[task]))
        || exists t | t in s.tasks :: OtherIdSameKey(s, s.tasks[t], s.tasks[task]))
  }

  /** A release keeps every binding resolving exactly when it strands none. */
  lemma {:induction false} ReleaseKeepsBindingsExactly(s: Store, task: string)
    requires BindingsResolve(s)
    ensures BindingsResolve(DetachTask(s, task)) <==> !StrandsAnother(s, task)
  {
    var d := DetachTask(s, task);
    if StrandsAnother(s, task) {
      if t :| t in s.turns && OtherIdSameKey(s, s.turns[t], s.tasks[task]) {
        assert t in d.turns && s.keyById[d.turns[t]] !in d.sessionsByKey;
      } else {
        var t :| t in s.tasks && OtherIdSameKey(s, s.tasks[t], s.tasks[task]);
        assert t in d.tasks && s.keyById[d.tasks[t]] !in d.sessionsByKey;
      }
    } else if Retires(s, task) {
      UnstrandedStillResolve(s, task);
    }
  }

  lemma {:induction false} UnstrandedStillResolve(s: Store, task: string)
    requires BindingsResolve(s) && Retires(s, task) && !StrandsAnother(s, task)
    ensures BindingsResolve(DetachTask(s, task))
  {
    var d, id := DetachTask(s, task), s.tasks[task];
    forall t | t in d.turns ensures d.turns[t] in d.keyById && d.keyById[d.turns[t]] in d.sessionsByKey {
      assert !OtherIdSameKey(s, s.turns[t], id);
      assert d.turns[t] in s.turns.Values;
    }
    forall t | t in d.tasks ensures d.tasks[t] in d.keyById && d.keyById[d.tasks[t]] in d.sessionsByKey {
      assert !OtherIdSameKey(s, s.tasks[t], id);
      assert d.tasks[t] in (s.tasks - {task}).Values;
    }
  }

  /**
  Every binding resolves, every live session's own id leads back to it, and ids returned for thread sessions stay
  good.
  */
  ghost predicate Resolving(w: World) {
    && BindingsResolve(w.store)
    && (forall k | k in w.store.sessionsByKey :: LeadsBack(w.store, k))
    && (forall id | id in w.threadIds :: LeadsToThread(w.store, id))
    && w.store.keyById.Keys <= w.issued
  }

  predicate LeadsBack(s: Store, key: string)
    requires key in s.sessionsByKey
  {
    s.sessionsByKey[key].id in s.keyById && s.keyById[s.sessionsByKey[key].id] == key
  }

  predicate LeadsToThread(s: Store, id: SessionId) {
    id in s.keyById && !IsHidden(s.keyById[id]) && s.keyById[id] in s.sessionsByKey
  }

  predicate Strands(w: World, e: Event) {
    e.ReleaseTask? && StrandsAnother(w.store, e.task)
  }

  lemma {:induction false} RefreshKeepsResolving(w: World, key: string, options: Option<string>,
                                                 turn: Option<string>, task: Option<string>)
    requires Resolving(w)
    ensures Resolving(w.(store := Refresh(w.store, key, options, turn, task)))
    ensures key in w.store.sessionsByKey && !IsHidden(key) ==>
              LeadsToThread(Refresh(w.store, key, options, turn, task), w.store.sessionsByKey[key].id)
  {
    if key in w.store.sessionsByKey {
      assert LeadsBack(w.store, key);
      var s := Refresh(w.store, key, options, turn, task);
      forall k | k in s.sessionsByKey ensures LeadsBack(s, k) {
        assert LeadsBack(w.store, k);
      }
    }
  }

  lemma {:induction false} RegisterKeepsResolving(w: World, key: string, id: SessionId, options: Option<string>,
                                                  turn: Option<string>, task: Option<string>)
    requires Resolving(w) && id !in w.issued
    ensures Resolving(w.(store := Register(w.store, key, id, options, turn, task), issued := w.issued + {id}))
    ensures !IsHidden(key) ==> LeadsToThread(Register(w.store, key, id, options, turn, task), id)
  {
    var s := Register(w.store, key, id, options, turn, task);
    forall k | k in s.sessionsByKey ensures LeadsBack(s, k) {
      assert k != key ==> LeadsBack(w.store, k);
    }
  }

  lemma {:induction false} ReleaseKeepsTheRest(w: World, task: string)
    requires Resolving(w)
    ensures var s := DetachTask(w.store, task);
            && (forall k | k in s.sessionsByKey :: LeadsBack(s, k))
            && (forall id | id in w.threadIds :: LeadsToThread(s, id))
            && s.keyById.Keys <= w.issued
  {
    var s := DetachTask(w.store, task);
    forall k | k in s.sessionsByKey ensures LeadsBack(s, k) {
      assert LeadsBack(w.store, k);
    }
    forall id | id in w.threadIds ensures LeadsToThread(s, id) {
      assert LeadsToThread(w.store, id);
    }
  }

  lemma {:induction false} TerminalsKeepResolving(w: World, id: SessionId, add: set<TerminalId>,
      remove: set<TerminalId>)
    requires Resolving(w)
    ensures Resolving(w.(store := WithTerminals(w.store, id, add, remove)))
  {
    var s := WithTerminals(w.store, id, add, remove);
    forall k | k in s.sessionsByKey ensures LeadsBack(s, k) {
      assert LeadsBack(w.store, k);
    }
  }

  /**
  Overlapping creations included: a step leaves every binding resolving exactly when it is not a release that strands
  another binding.
  */
  lemma {:induction false} StepKeepsBindingsExactly(w: World, e: Event)
    requires Resolving(w) && Enabled(w, e)
    ensures Resolving(Step(w, e)) <==> !Strands(w, e)
    ensures BindingsResolve(Step(w, e).store) <==> !Strands(w, e)
  {
    match e
    case RefreshTurn(key, options, turn) => RefreshKeepsResolving(w, key, options, Some(turn), None);
    case RefreshTask(key, options, task) => RefreshKeepsResolving(w, key, options, None, Some(task));
    case CreateForTurn(key, id, options, turn) => RegisterKeepsResolving(w, key, id, options, Some(turn), None);
    case CreateForTask(key, id, options, task) => RegisterKeepsResolving(w, key, id, options, None, Some(task));
    case BindTaskToThread(task, id) => assert LeadsToThread(w.store, id);
    case ReleaseTurn(turn) =>
    case ReleaseTask(task) =>
      ReleaseKeepsBindingsExactly(w.store, task);
      ReleaseKeepsTheRest(w, task);
    case OpenTerminal(id, terminal) => TerminalsKeepResolving(w, id, {terminal}, {});
    case ForgetTerminal(id, terminal) => TerminalsKeepResolving(w, id, {}, {terminal});
    case UpdateOptions(id, options) =>
      if id in w.store.keyById { RefreshKeepsResolving(w, w.store.keyById[id], options, None, None); }
  }

  // ---- Over every interleaving ----

  function Run(es: seq<Event>): World {
    if es == [] then INIT else Step(Run(es[..|es| - 1]), es[|es| - 1])
  }

  /** Every step of the run was enabled when it was taken. */
  ghost predicate Possible(es: seq<Event>) {
    forall i | 0 <= i < |es| :: Enabled(Run(es[..i]), es[i])
  }

  ghost predicate NoOverlap(es: seq<Event>) {
    forall i | 0 <= i < |es| :: !Overlaps(Run(es[..i]), es[i])
  }

  lemma {:induction false} PrefixOfRun(es: seq<Event>)
    requires es != [] && Possible(es) && NoOverlap(es)
    ensures var before := es[..|es| - 1];
            && Possible(before) && NoOverlap(before)
            && Enabled(Run(before), es[|es| - 1]) && !Overlaps(Run(before), es[|es| - 1])
  {
    var before := es[..|es| - 1];
    forall i | 0 <= i < |before|
        ensures Enabled(Run(before[..i]), before[i]) && !Overlaps(Run(before[..i]), before[i]) {
      assert before[..i] == es[..i];
    }
  }

  lemma {:induction false} EveryRunIsRegistered(es: seq<Event>)
    requires Possible(es) && NoOverlap(es)
    ensures Registered(Run(es)) && TerminalsOwned(Run(es))
  {
    if es != [] {
      PrefixOfRun(es);
      EveryRunIsRegistered(es[..|es| - 1]);
      StepKeepsRegisteredExactly(Run(es[..|es| - 1]), es[|es| - 1]);
      StepKeepsTerminals(Run(es[..|es| - 1]), es[|es| - 1]);
    }
  }

  ghost predicate NothingStranded(es: seq<Event>) {
    forall i | 0 <= i < |es| :: !Strands(Run(es[..i]), es[i])
  }

  lemma {:induction false} UnstrandedPrefix(es: seq<Event>)
    requires es != [] && Possible(es) && NothingStranded(es)
    ensures var before := es[..|es| - 1];
            && Possible(before) && NothingStranded(before)
            && Enabled(Run(before), es[|es| - 1]) && !Strands(Run(before), es[|es| - 1])
  {
    var before := es[..|es| - 1];
    forall i | 0 <= i < |before| ensures Enabled(Run(before[..i]), before[i]) && !Strands(Run(before[..i]), before[i]) {
      assert before[..i] == es[..i];
    }
  }

  /** Every interleaving, overlapping creations included, keeps all bindings resolving until a release strands one. */
  lemma {:induction false} BindingsResolveUntilOneIsStranded(es: seq<Event>)
    requires Possible(es) && NothingStranded(es)
    ensures Resolving(Run(es))
  {
    if es != [] {
      UnstrandedPrefix(es);
      BindingsResolveUntilOneIsStranded(es[..|es| - 1]);
      StepKeepsBindingsExactly(Run(es[..|es| - 1]), es[|es| - 1]);
    }
  }

  /** Of two releases in a run, the later one never hands out a terminal that the earlier one did. */
  lemma {:induction false} ReleasesHandOutDifferentTerminals(es: seq<Event>, i: nat, j: nat)
    requires Possible(es) && NoOverlap(es)
    requires i < j < |es| && es[i].ReleaseTask? && es[j].ReleaseTask?
    ensures Released(Run(es[..i]).store, es[i].task) !! Released(Run(es[..j]).store, es[j].task)
  {
    TakeKeepsRun(es, j);
    EveryRunIsRegistered(es[..j]);
    StepKeepsTerminals(Run(es[..j]), es[j]);
    assert es[..i + 1][..i] == es[..i];
    ClosingGrows(es[..j], i + 1);
    assert es[..j][..i + 1] == es[..i + 1];
  }

  lemma {:induction false} TakeKeepsRun(es: seq<Event>, n: nat)
    requires n <= |es| && Possible(es) && NoOverlap(es)
    ensures Possible(es[..n]) && NoOverlap(es[..n])
  {
    forall i | 0 <= i < n
      ensures Enabled(Run(es[..n][..i]), es[..n][i]) && !Overlaps(Run(es[..n][..i]), es[..n][i])
    {
      assert es[..n][..i] == es[..i];
    }
  }

  lemma {:induction false} ClosingGrows(es: seq<Event>, n: nat)
    requires n <= |es|
    ensures Run(es[..n]).closing <= Run(es).closing
  {
    if n == |es| {
      assert es[..n] == es;
    } else {
      assert es[..|es| - 1][..n] == es[..n];
      ClosingGrows(es[..|es| - 1], n);
    }
  }

  lemma {:induction false} RunExtend(es: seq<Event>, e: Event)
    ensures Run(es + [e]) == Step(Run(es), e)
  {
    assert (es + [e])[..|es|] == es;
  }

  lemma {:induction false} SpaceIsTrimmed()
    ensures Text.Trim(" t") == Text.Trim("t")
  {
    assert " t"[1..] == "t";
  }

  lemma {:induction false} OverlapAt(key: string)
    requires IsHidden(key)
    ensures var es := [CreateForTask(key, "s1", None, "t"), CreateForTask(key, "s2", None, " t"), ReleaseTask(" t")];
            Possible(es) && !BindingsResolve(Run(es).store)
  {
    var e1, e2, e3 := CreateForTask(key, "s1", None, "t"), CreateForTask(key, "s2", None, " t"), ReleaseTask(" t");
    var es := [e1, e2, e3];
    RunOfThree(e1, e2, e3);
    TwoCreations(key);
    LosingOne(Run([e1, e2]).store, key);
    PossibleThree(e1, e2, e3);
  }

  lemma {:induction false} RunOfThree(e1: Event, e2: Event, e3: Event)
    ensures Run([e1]) == Step(INIT, e1) && Run([e1, e2]) == Step(Step(INIT, e1), e2)
    ensures Run([e1, e2, e3]) == Step(Run([e1, e2]), e3)
  {
    RunExtend([], e1);
    RunExtend([e1], e2);
    RunExtend([e1, e2], e3);
    assert [] + [e1] == [e1] && [e1] + [e2] == [e1, e2] && [e1, e2] + [e3] == [e1, e2, e3];
  }

  lemma {:induction false} PossibleThree(e1: Event, e2: Event, e3: Event)
    requires Enabled(INIT, e1) && Enabled(Run([e1]), e2) && Enabled(Run([e1, e2]), e3)
    ensures Possible([e1, e2, e3])
  {
    var es := [e1, e2, e3];
    assert es[..0] == [] && es[..1] == [e1] && es[..2] == [e1, e2];
  }

  lemma {:induction false} TwoCreations(key: string)
    requires IsHidden(key)
    ensures var w := Step(INIT, CreateForTask(key, "s1", None, "t"));
            var s := Step(w, CreateForTask(key, "s2", None, " t")).store;
            && s.turns == map[] && s.tasks == map["t" := "s1", " t" := "s2"]
            && s.keyById == map["s1" := key, "s2" := key] && key in s.sessionsByKey
  {
    assert "s1"[1] != "s2"[1] && |"t"| != |" t"|;
  }

  lemma {:induction false} LosingOne(s: Store, key: string)
    requires IsHidden(key) && s.turns == map[] && s.tasks == map["t" := "s1", " t" := "s2"]
    requires s.keyById == map["s1" := key, "s2" := key] && key in s.sessionsByKey
    ensures !BindingsResolve(DetachTask(s, " t"))
  {
    assert "s1"[1] != "s2"[1] && |"t"| != |" t"|;
    var rest := s.tasks - {" t"};
    assert rest == map["t" := "s1"];
    assert !Bound(s.(tasks := rest), "s2") && Retires(s, " t");
    var d := DetachTask(s, " t");
    assert "t" in d.tasks && d.tasks["t"] == "s1" && key !in d.sessionsByKey;
  }

  /**
  Task ids are trimmed in the key but not in the binding maps, so "t" and " t" share a hidden session.
  When their creations overlap, releasing one of them leaves the other's binding leading nowhere.
  */
  lemma {:induction false} OverlapStrandsABinding(workspace: string, backend: string)
    ensures HiddenTaskKey(workspace, "t", backend) == HiddenTaskKey(workspace, " t", backend)
    ensures var key := HiddenTaskKey(workspace, "t", backend);
            var es := [CreateForTask(key, "s1", None, "t"), CreateForTask(key, "s2", None, " t"), ReleaseTask(" t")];
            Possible(es) && !BindingsResolve(Run(es).store)
  {
    SpaceIsTrimmed();
    KeyKinds(workspace, "t", backend);
    OverlapAt(HiddenTaskKey(workspace, "t", backend));
  }

  // ---- The store itself ----

  class AcpRuntimeStore {
    var sessionsByKey: map<string, Session>
    var sessionKeyById: map<SessionId, string>
    var turnSessions: map<string, SessionId>
    var taskSessions: map<string, SessionId>

    ghost function View(): Store
      reads this
    {
      Store(sessionsByKey, sessionKeyById, turnSessions, taskSessions)
    }

    constructor ()
      ensures View() == INIT.store
    {
      sessionsByKey, sessionKeyById, turnSessions, taskSessions := map[], map[], map[], map[];
    }

    method DetachTurnBinding(turn: string)
      modifies this
      ensures View() == DetachTurn(old(View()), turn)
    {
      turnSessions := turnSessions - {turn};
    }

    method DetachTaskBinding(task: string) returns (terminals: set<TerminalId>)
      modifies this
      ensures View() == DetachTask(old(View()), task)
      ensures terminals == Released(old(View()), task)
    {
      terminals := {};
      if task !in taskSessions {
        assert taskSessions - {task} == taskSessions;
        return;
      }
      var id := taskSessions[task];
      taskSessions := taskSessions - {task};
      if id !in sessionKeyById {
        return;
      }
      var key := sessionKeyById[id];
      if !("task:" <= key) {
        return;
      }
      if id in turnSessions.Values || id in taskSessions.Values {
        return;
      }
      if key !in sessionsByKey {
        return;
      }
      terminals := sessionsByKey[key].terminals;
      sessionsByKey := sessionsByKey - {key};
      sessionKeyById := sessionKeyById - {id};
    }

    method RefreshExisting(key: string, options: Option<string>, turn: Option<string>, task: Option<string>)
      returns (id: Option<SessionId>)
      modifies this
      ensures View() == Refresh(old(View()), key, options, turn, task)
      ensures id == if key in old(sessionsByKey) then Some(old(sessionsByKey)[key].id) else None
    {
      if key !in sessionsByKey {
        return None;
      }
      var session := sessionsByKey[key];
      sessionsByKey := sessionsByKey[key := session.(options := options)];
      if turn.Some? { turnSessions := turnSessions[turn.value := session.id]; }
      if task.Some? { taskSessions := taskSessions[task.value := session.id]; }
      return Some(session.id);
    }

    method RegisterForTurn(key: string, id: SessionId, options: Option<string>, turn: string)
      modifies this
      ensures View() == Register(old(View()), key, id, options, Some(turn), None)
    {
      sessionKeyById := sessionKeyById[id := key];
      turnSessions := turnSessions[turn := id];
      sessionsByKey := sessionsByKey[key := Session(id, options, {})];
    }

    method RegisterForTask(key: string, id: SessionId, options: Option<string>, task: string)
      modifies this
      ensures View() == Register(old(View()), key, id, options, None, Some(task))
    {
      sessionKeyById := sessionKeyById[id := key];
      taskSessions := taskSessions[task := id];
      sessionsByKey := sessionsByKey[key := Session(id, options, {})];
    }

    /** A task that runs in a thread: the turn binding made under the task's name becomes a task binding. */
    method RebindTask(task: string, id: SessionId)
      modifies this
      ensures View() == Bind(DetachTurn(old(View()), task), None, Some(task), id)
    {
      DetachTurnBinding(task);
      taskSessions := taskSessions[task := id];
    }

    method InsertTerminal(id: SessionId, terminal: TerminalId)
      modifies this
      ensures View() == WithTerminals(old(View()), id, {terminal}, {})
    {
      if id in sessionKeyById && sessionKeyById[id] in sessionsByKey {
        var key := sessionKeyById[id];
        var session := sessionsByKey[key];
        sessionsByKey := sessionsByKey[key := session.(terminals := session.terminals + {terminal})];
        assert session.terminals + {terminal} - {} == session.terminals + {terminal};
      }
    }

    method RemoveTerminal(id: SessionId, terminal: TerminalId)
      modifies this
      ensures View() == WithTerminals(old(View()), id, {}, {terminal})
    {
      if id in sessionKeyById && sessionKeyById[id] in sessionsByKey {
        var key := sessionKeyById[id];
        var session := sessionsByKey[key];
        sessionsByKey := sessionsByKey[key := session.(terminals := session.terminals - {terminal})];
        assert session.terminals + {} - {terminal} == session.terminals - {terminal};
      }
    }
  }
}
