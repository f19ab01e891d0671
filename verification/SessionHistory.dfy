/**
What the registry's maps say about the sections that have run, who is bound to which session, and when two keys are the
same.
*/
module SessionHistory {
  import opened AcpSessionRegistry
  import opened Options
  import Text

  // ---- One section ----

  /** A live session gets the options; its id and its terminals stay. */
  ghost predicate GivesOptions(s: Store, t: Store, key: string, options: Option<string>) {
    && key in s.sessionsByKey
    && var session := s.sessionsByKey[key];
       t.sessionsByKey == s.sessionsByKey[key := Session(session.id, options, session.terminals)]
  }

  ghost predicate SameTerminals(s: Store, t: Store, id: SessionId, now: set<TerminalId>) {
    && id in s.keyById && s.keyById[id] in s.sessionsByKey
    && var key := s.keyById[id];
       t.sessionsByKey == s.sessionsByKey[key := Session(s.sessionsByKey[key].id, s.sessionsByKey[key].options, now)]
  }

  predicate IsLive(s: Store, id: SessionId) {
    id in s.keyById && s.keyById[id] in s.sessionsByKey
  }

  /** The session goes with the release: a hidden one that no other turn or task is bound to. */
  ghost predicate GoesWith(s: Store, task: string) {
    && task in s.tasks && IsLive(s, s.tasks[task]) && "task:" <= s.keyById[s.tasks[task]]
    && (forall u | u in s.turns :: s.turns[u] != s.tasks[task])
    && forall u | u in s.tasks && u != task :: s.tasks[u] != s.tasks[task]
  }

  /** What each section leaves behind, map by map. */
  ghost predicate Does(s: Store, e: Event, t: Store) {
    match e
    case RefreshTurn(key, options, turn) =>
      if key !in s.sessionsByKey then t == s
      else
        && GivesOptions(s, t, key, options) && t.keyById == s.keyById
        && t.turns == s.turns[turn := s.sessionsByKey[key].id] && t.tasks == s.tasks
    case RefreshTask(key, options, task) =>
      if key !in s.sessionsByKey then t == s
      else
        && GivesOptions(s, t, key, options) && t.keyById == s.keyById
        && t.turns == s.turns && t.tasks == s.tasks[task := s.sessionsByKey[key].id]
    case CreateForTurn(key, id, options, turn) =>
      && t.sessionsByKey == s.sessionsByKey[key := Session(id, options, {})] && t.keyById == s.keyById[id := key]
      && t.turns == s.turns[turn := id] && t.tasks == s.tasks
    case CreateForTask(key, id, options, task) =>
      && t.sessionsByKey == s.sessionsByKey[key := Session(id, options, {})] && t.keyById == s.keyById[id := key]
      && t.turns == s.turns && t.tasks == s.tasks[task := id]
    case BindTaskToThread(task, id) =>
      && t.sessionsByKey == s.sessionsByKey && t.keyById == s.keyById
      && t.turns == s.turns - {task} && t.tasks == s.tasks[task := id]
    case ReleaseTurn(turn) =>
      t.sessionsByKey == s.sessionsByKey && t.keyById == s.keyById && t.turns == s.turns - {turn} && t.tasks == s.tasks
    case ReleaseTask(task) =>
      && t.turns == s.turns && t.tasks == s.tasks - {task}
      && if GoesWith(s, task) then
           && t.sessionsByKey == s.sessionsByKey - {s.keyById[s.tasks[task]]}
           && t.keyById == s.keyById - {s.tasks[task]}
         else t.sessionsByKey == s.sessionsByKey && t.keyById == s.keyById
    case OpenTerminal(id, terminal) =>
      if !IsLive(s, id) then t == s
      else
        && SameTerminals(s, t, id, s.sessionsByKey[s.keyById[id]].terminals + {terminal})
        && t.keyById == s.keyById && t.turns == s.turns && t.tasks == s.tasks
    case ForgetTerminal(id, terminal) =>
      if !IsLive(s, id) then t == s
      else
        && SameTerminals(s, t, id, s.sessionsByKey[s.keyById[id]].terminals - {terminal})
        && t.keyById == s.keyById && t.turns == s.turns && t.tasks == s.tasks
    case UpdateOptions(id, options) =>
      if !IsLive(s, id) then t == s
      else
        && GivesOptions(s, t, s.keyById[id], options)
        && t.keyById == s.keyById && t.turns == s.turns && t.tasks == s.tasks
  }

  lemma {:induction false} ReleasesMean(s: Store, task: string)
    ensures Retires(s, task) <==> GoesWith(s, task)
  {
    if task in s.tasks {
      var rest := s.tasks - {task};
      assert forall u | u in s.tasks && u != task :: u in rest && rest[u] == s.tasks[u];
      assert s.tasks[task] in rest.Values <==> exists u | u in rest :: rest[u] == s.tasks[task];
      assert s.tasks[task] in s.turns.Values <==> exists u | u in s.turns :: s.turns[u] == s.tasks[task];
    }
  }

  lemma {:induction false} TerminalsMean(s: Store, id: SessionId, add: set<TerminalId>, remove: set<TerminalId>)
    requires IsLive(s, id)
    ensures SameTerminals(s, WithTerminals(s, id, add, remove), id,
                          s.sessionsByKey[s.keyById[id]].terminals + add - remove)
  {
  }

  lemma {:induction false} TerminalSectionsDo(w: World, e: Event)
    requires e.OpenTerminal? || e.ForgetTerminal?
    ensures Does(w.store, e, Step(w, e).store)
  {
    var s := w.store;
    if IsLive(s, e.id) {
      var terminals := s.sessionsByKey[s.keyById[e.id]].terminals;
      match e
      case OpenTerminal(id, terminal) =>
        TerminalsMean(s, id, {terminal}, {});
        assert terminals + {terminal} - {} == terminals + {terminal};
      case ForgetTerminal(id, terminal) =>
        TerminalsMean(s, id, {}, {terminal});
        assert terminals + {} - {terminal} == terminals - {terminal};
    }
  }

  /** Each section changes the four maps in this way and in no other. */
  lemma {:induction false} SectionsDo(w: World, e: Event)
    ensures Does(w.store, e, Step(w, e).store)
  {
    match e
    case ReleaseTask(task) =>
      ReleasesMean(w.store, task);
    case OpenTerminal(_, _) => TerminalSectionsDo(w, e);
    case ForgetTerminal(_, _) => TerminalSectionsDo(w, e);
    case _ =>
  }

  /** A release hands out the terminals of the session that goes with it, and no others. */
  lemma {:induction false} ReleasesHandOut(w: World, task: string)
    ensures var v := Step(w, ReleaseTask(task));
            v.closing == w.closing
                         + if GoesWith(w.store, task)
                           then w.store.sessionsByKey[w.store.keyById[w.store.tasks[task]]].terminals else {}
  {
    ReleasesMean(w.store, task);
  }

  // ---- Whom a turn or a task is bound to ----

  /** The event gives the turn a binding or takes it away. */
  predicate ConcernsTurn(w: World, e: Event, turn: string) {
    match e
    case RefreshTurn(key, _, u) => u == turn && key in w.store.sessionsByKey
    case CreateForTurn(_, _, _, u) => u == turn
    case BindTaskToThread(u, _) => u == turn
    case ReleaseTurn(u) => u == turn
    case _ => false
  }

  /** Event k is the last one to concern the turn. */
  ghost predicate LastForTurn(es: seq<Event>, turn: string, k: nat) {
    && k < |es| && ConcernsTurn(Run(es[..k]), es[k], turn)
    && forall l | k < l < |es| :: !ConcernsTurn(Run(es[..l]), es[l], turn)
  }

  ghost predicate TurnBinding(w: World, e: Event, turn: string, turns: map<string, SessionId>) {
    match e
    case RefreshTurn(key, _, _) =>
      turn in turns && key in w.store.sessionsByKey && turns[turn] == w.store.sessionsByKey[key].id
    case CreateForTurn(_, id, _, _) => turn in turns && turns[turn] == id
    case _ => turn !in turns
  }

  lemma {:induction false} TurnsStay(w: World, e: Event, turn: string)
    requires !ConcernsTurn(w, e, turn)
    ensures turn in Step(w, e).store.turns <==> turn in w.store.turns
    ensures turn in w.store.turns ==> Step(w, e).store.turns[turn] == w.store.turns[turn]
  {
    SectionsDo(w, e);
  }

  lemma {:induction false} OneEventMore(es: seq<Event>)
    requires es != []
    ensures Run(es) == Step(Run(es[..|es| - 1]), es[|es| - 1])
  {
  }

  /**
  In every run a turn is bound to the session that the last event concerning it gave it, the one live under the key at
  that moment or the new one, and to none after a release.
  */
  lemma {:induction false} TurnsAreBoundByTheLast(es: seq<Event>, turn: string, k: nat)
    requires LastForTurn(es, turn, k)
    ensures TurnBinding(Run(es[..k]), es[k], turn, Run(es).store.turns)
    decreases |es|
  {
    var before, e := es[..|es| - 1], es[|es| - 1];
    OneEventMore(es);
    if k == |es| - 1 {
      SectionsDo(Run(before), e);
    } else {
      assert before[..k] == es[..k] && forall l | 0 <= l < |before| :: before[..l] == es[..l] && before[l] == es[l];
      TurnsAreBoundByTheLast(before, turn, k);
      TurnsStay(Run(before), e, turn);
    }
  }

  predicate ConcernsTask(w: World, e: Event, task: string) {
    match e
    case RefreshTask(key, _, u) => u == task && key in w.store.sessionsByKey
    case CreateForTask(_, _, _, u) => u == task
    case BindTaskToThread(u, _) => u == task
    case ReleaseTask(u) => u == task
    case _ => false
  }

  ghost predicate LastForTask(es: seq<Event>, task: string, k: nat) {
    && k < |es| && ConcernsTask(Run(es[..k]), es[k], task)
    && forall l | k < l < |es| :: !ConcernsTask(Run(es[..l]), es[l], task)
  }

  ghost predicate TaskBinding(w: World, e: Event, task: string, tasks: map<string, SessionId>) {
    match e
    case RefreshTask(key, _, _) =>
      task in tasks && key in w.store.sessionsByKey && tasks[task] == w.store.sessionsByKey[key].id
    case CreateForTask(_, id, _, _) => task in tasks && tasks[task] == id
    case BindTaskToThread(_, id) => task in tasks && tasks[task] == id
    case _ => task !in tasks
  }

  lemma {:induction false} TasksStay(w: World, e: Event, task: string)
    requires !ConcernsTask(w, e, task)
    ensures task in Step(w, e).store.tasks <==> task in w.store.tasks
    ensures task in w.store.tasks ==> Step(w, e).store.tasks[task] == w.store.tasks[task]
  {
    SectionsDo(w, e);
  }

  /** Likewise for tasks. */
  lemma {:induction false} TasksAreBoundByTheLast(es: seq<Event>, task: string, k: nat)
    requires LastForTask(es, task, k)
    ensures TaskBinding(Run(es[..k]), es[k], task, Run(es).store.tasks)
    decreases |es|
  {
    var before, e := es[..|es| - 1], es[|es| - 1];
    OneEventMore(es);
    if k == |es| - 1 {
      SectionsDo(Run(before), e);
    } else {
      assert before[..k] == es[..k] && forall l | 0 <= l < |before| :: before[..l] == es[..l] && before[l] == es[l];
      TasksAreBoundByTheLast(before, task, k);
      TasksStay(Run(before), e, task);
    }
  }

  // ---- Keys ----

  lemma {:induction false} FirstColonSplits(a: string, x: string, b: string, y: string)
    requires ':' !in a && ':' !in b && a + ":" + x == b + ":" + y
    ensures a == b && x == y
  {
    var s := a + ":" + x;
    assert s[|a|] == ':' && s[|b|] == ':';
    assert forall i | 0 <= i < |a| :: s[i] == a[i];
    assert forall i | 0 <= i < |b| :: s[i] == b[i];
    assert a == s[..|a|] && b == s[..|b|] && x == s[|a| + 1..] && y == s[|b| + 1..];
  }

  predicate NoColon(s: string) {
    ':' !in Text.Trim(s)
  }

  /** Workspace, name and backend are all in the key: without colons in the first two, keys tell them apart. */
  lemma {:induction false} KeysTellApart(workspace: string, name: string, backend: string,
                                         otherWorkspace: string, otherName: string, otherBackend: string)
    requires NoColon(workspace) && NoColon(name) && NoColon(otherWorkspace) && NoColon(otherName)
    ensures ThreadKey(workspace, name, backend) == ThreadKey(otherWorkspace, otherName, otherBackend) <==>
            && Text.Trim(workspace) == Text.Trim(otherWorkspace) && Text.Trim(name) == Text.Trim(otherName)
            && Text.Trim(backend) == Text.Trim(otherBackend)
    ensures HiddenTaskKey(workspace, name, backend) == HiddenTaskKey(otherWorkspace, otherName, otherBackend) <==>
            ThreadKey(workspace, name, backend) == ThreadKey(otherWorkspace, otherName, otherBackend)
  {
    TailsTellApart(Text.Trim(workspace), Text.Trim(name), Text.Trim(backend),
                   Text.Trim(otherWorkspace), Text.Trim(otherName), Text.Trim(otherBackend));
    SamePrefix("thread:", KeyTail(workspace, name, backend), KeyTail(otherWorkspace, otherName, otherBackend));
    SamePrefix("task:", KeyTail(workspace, name, backend), KeyTail(otherWorkspace, otherName, otherBackend));
  }

  lemma {:induction false} TailsTellApart(a: string, b: string, c: string, x: string, y: string, z: string)
    requires ':' !in a && ':' !in b && ':' !in x && ':' !in y
    ensures a + ":" + b + ":" + c == x + ":" + y + ":" + z <==> a == x && b == y && c == z
  {
    if a + ":" + b + ":" + c == x + ":" + y + ":" + z {
      assert a + ":" + b + ":" + c == a + ":" + (b + ":" + c);
      assert x + ":" + y + ":" + z == x + ":" + (y + ":" + z);
      FirstColonSplits(a, b + ":" + c, x, y + ":" + z);
      FirstColonSplits(b, c, y, z);
    }
  }

  lemma {:induction false} SamePrefix(prefix: string, s: string, t: string)
    ensures prefix + s == prefix + t <==> s == t
  {
    assert (prefix + s)[|prefix|..] == s && (prefix + t)[|prefix|..] == t;
  }

  /** With colons they may not: two threads of different workspaces share a key. */
  lemma {:induction false} ColonsBlurKeys(backend: string)
    ensures ThreadKey("a:b", "c", backend) == ThreadKey("a", "b:c", backend)
  {
    assert "a:b" + ":" + "c" == "a" + ":" + "b:c";
    Untrimmed("a:b");
    Untrimmed("c");
    Untrimmed("a");
    Untrimmed("b:c");
  }

  lemma {:induction false} Untrimmed(s: string)
    requires Text.Trimmed(s)
    ensures Text.Trim(s) == s
  {
  }
}
