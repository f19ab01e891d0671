/**
The event channels of a client: each transition replaces the diagnostics of its channel and moves the stability counters
that all channels share.
*/
module EventChannels {
  import opened Options
  import Text

  datatype Status = Idle | Connecting | Open | Reconnecting | Fallback | Error | Stopped

  datatype Transport = Bridge | Tauri | WebSocket | ServerSent | UnknownTransport

  datatype Channel = Channel(
    labelText: string,
    transport: Transport,
    status: Status,
    retryAttempt: int,
    retryDelayMs: Option<int>,
    lastError: Option<string>,
    fallbackSinceMs: Option<int>,
    consecutiveFailures: int,
    lastTransitionReason: Option<string>,
    updatedAt: int)

  datatype Metrics = Metrics(
    fallbackEnterTotal: nat,
    fallbackRecoverTotal: nat,
    reconnectAttemptTotal: nat,
    reconnectSuccessTotal: nat,
    lastFallbackReason: Option<string>,
    lastFallbackDurationMs: Option<int>)

  /** An outer None is an absent option, an inner None an explicit null. */
  datatype Overrides = Overrides(
    reason: Option<string>,
    transport: Option<Transport>,
    retryAttempt: Option<int>,
    retryDelayMs: Option<Option<int>>,
    lastError: Option<Option<string>>,
    consecutiveFailures: Option<int>)

  /** A transition of one channel, with the two readings of the clock it may take. */
  datatype Event = Event(
    id: string,
    labelText: string,
    defaultTransport: Transport,
    status: Status,
    options: Overrides,
    updateClock: int,
    recoverClock: int)

  datatype World = World(channels: map<string, Channel>, metrics: Metrics)

  const START := World(map[], Metrics(0, 0, 0, 0, None, None))

  function Or<T>(first: Option<T>, fallback: T): T {
    if first.Some? then first.value else fallback
  }

  function Reason(e: Event): Option<string> {
    if e.options.reason.None? || Text.Trim(e.options.reason.value) == "" then None
    else Some(Text.Trim(e.options.reason.value))
  }

  /** The diagnostics after the transition. */
  function Updated(previous: Option<Channel>, e: Event): Channel {
    Channel(
      e.labelText,
      Or(e.options.transport, if previous.Some? then previous.value.transport else e.defaultTransport),
      e.status,
      Or(e.options.retryAttempt, if previous.Some? then previous.value.retryAttempt else 0),
      Or(e.options.retryDelayMs, if e.status == Open || previous.None? then None else previous.value.retryDelayMs),
      Or(e.options.lastError, if e.status == Open || previous.None? then None else previous.value.lastError),
      if e.status != Fallback then None
      else if previous.Some? && previous.value.fallbackSinceMs.Some? then previous.value.fallbackSinceMs
      else Some(e.updateClock),
      Or(e.options.consecutiveFailures, Failures(previous, e.status)),
      Reason(e),
      e.updateClock)
  }

  function Failures(previous: Option<Channel>, status: Status): int {
    var before := if previous.Some? then previous.value.consecutiveFailures else 0;
    if status == Open then 0 else if status == Error then before + 1 else before
  }

  predicate Was(previous: Option<Channel>, status: Status) {
    previous.Some? && previous.value.status == status
  }

  /** The reason under which a fallback is recorded: the given one, else the channel's id. */
  function RecordedReason(e: Event): string {
    var reason := Text.Trim(Or(Reason(e), e.id));
    if reason == "" then "unknown" else reason
  }

  function OnFallback(m: Metrics, previous: Option<Channel>, status: Status, reason: string, clock: int): Metrics {
    if status == Fallback && !Was(previous, Fallback) then
      m.(fallbackEnterTotal := m.fallbackEnterTotal + 1, lastFallbackReason := Some(reason),
          lastFallbackDurationMs := None)
    else if Was(previous, Fallback) && status != Fallback then
      m.(fallbackRecoverTotal := m.fallbackRecoverTotal + 1,
         lastFallbackDurationMs := Duration(previous.value.fallbackSinceMs, clock))
    else m
  }

  function Duration(since: Option<int>, now: int): Option<int> {
    if since.None? || now - since.value < 0 then None else Some(now - since.value)
  }

  function OnReconnect(m: Metrics, previous: Option<Channel>, status: Status): Metrics {
    if status == Reconnecting && !Was(previous, Reconnecting) then
      m.(reconnectAttemptTotal := m.reconnectAttemptTotal + 1)
    else if status == Open && !Was(previous, Open) then m.(reconnectSuccessTotal := m.reconnectSuccessTotal + 1)
    else m
  }

  function Counted(m: Metrics, previous: Option<Channel>, e: Event): Metrics {
    OnReconnect(OnFallback(m, previous, e.status, RecordedReason(e), e.recoverClock), previous, e.status)
  }

  function Previous(w: World, id: string): Option<Channel> {
    if id in w.channels then Some(w.channels[id]) else None
  }

  function Step(w: World, e: Event): World {
    var previous := Previous(w, e.id);
    World(w.channels[e.id := Updated(previous, e)], Counted(w.metrics, previous, e))
  }

  function Run(es: seq<Event>): World {
    if es == [] then START else Step(Run(es[..|es| - 1]), es[|es| - 1])
  }

  const NO_OVERRIDES := Overrides(None, None, None, None, None, None)

  /** The state all channels share, and the transition that changes it. */
  class EventStateMachines {
    var channels: map<string, Channel>
    var fallbackEnterTotal: nat
    var fallbackRecoverTotal: nat
    var reconnectAttemptTotal: nat
    var reconnectSuccessTotal: nat
    var lastFallbackReason: Option<string>
    var lastFallbackDurationMs: Option<int>

    constructor ()
      ensures Contents() == START
    {
      channels := map[];
      fallbackEnterTotal, fallbackRecoverTotal, reconnectAttemptTotal, reconnectSuccessTotal := 0, 0, 0, 0;
      lastFallbackReason, lastFallbackDurationMs := None, None;
    }

    function Counters(): Metrics
      reads this
    {
      Metrics(fallbackEnterTotal, fallbackRecoverTotal, reconnectAttemptTotal, reconnectSuccessTotal,
              lastFallbackReason, lastFallbackDurationMs)
    }

    function Contents(): World
      reads this
    {
      World(channels, Counters())
    }

    method RecordFallback(previous: Option<Channel>, status: Status, reason: string, clock: int)
      modifies this
      ensures channels == old(channels) && Counters() == OnFallback(old(Counters()), previous, status, reason, clock)
    {
      if status == Fallback && !Was(previous, Fallback) {
        fallbackEnterTotal := fallbackEnterTotal + 1;
        lastFallbackReason := Some(reason);
        lastFallbackDurationMs := None;
      }
      if Was(previous, Fallback) && status != Fallback {
        fallbackRecoverTotal := fallbackRecoverTotal + 1;
        lastFallbackDurationMs := Duration(previous.value.fallbackSinceMs, clock);
      }
    }

    method RecordReconnect(previous: Option<Channel>, status: Status)
      modifies this
      ensures channels == old(channels) && Counters() == OnReconnect(old(Counters()), previous, status)
    {
      if status == Reconnecting && !Was(previous, Reconnecting) {
        reconnectAttemptTotal := reconnectAttemptTotal + 1;
      }
      if status == Open && !Was(previous, Open) {
        reconnectSuccessTotal := reconnectSuccessTotal + 1;
      }
    }

    method Transition(e: Event) returns (next: Channel)
      modifies this
      ensures Contents() == Step(old(Contents()), e)
      ensures e.id in channels && next == channels[e.id]
    {
      var previous := Previous(Contents(), e.id);
      next := Updated(previous, e);
      channels := channels[e.id := next];
      RecordFallback(previous, e.status, RecordedReason(e), e.recoverClock);
      RecordReconnect(previous, e.status);
    }

    method SetError(e: Event, error: string, reason: Option<string>) returns (next: Channel)
      modifies this
      ensures var f := e.(status := Error, options := NO_OVERRIDES.(reason := reason, lastError := Some(Some(error))));
              Contents() == Step(old(Contents()), f) && next.status == Error && next.lastError == Some(error)
    {
      var options := NO_OVERRIDES.(reason := reason, lastError := Some(Some(error)));
      next := Transition(e.(status := Error, options := options));
    }
  }

  // ---- Reading the history of a run ----

  /** The status of a channel after these events: that of its last event. */
  function StatusAfter(es: seq<Event>, id: string): Option<Status> {
    if es == [] then None
    else if es[|es| - 1].id == id then Some(es[|es| - 1].status)
    else StatusAfter(es[..|es| - 1], id)
  }

  predicate Enters(es: seq<Event>, k: nat, status: Status)
    requires k < |es|
  {
    es[k].status == status && StatusAfter(es[..k], es[k].id) != Some(status)
  }

  predicate Leaves(es: seq<Event>, k: nat, status: Status)
    requires k < |es|
  {
    es[k].status != status && StatusAfter(es[..k], es[k].id) == Some(status)
  }

  /** How many events made their channel enter this status. */
  function CountEnters(es: seq<Event>, status: Status): nat {
    if es == [] then 0 else CountEnters(es[..|es| - 1], status) + if Enters(es, |es| - 1, status) then 1 else 0
  }

  function CountLeaves(es: seq<Event>, status: Status): nat {
    if es == [] then 0 else CountLeaves(es[..|es| - 1], status) + if Leaves(es, |es| - 1, status) then 1 else 0
  }

  /** The channels now in this status. */
  function Channels(w: World, status: Status): set<string> {
    In(w.channels, status)
  }

  function In(channels: map<string, Channel>, status: Status): set<string> {
    set id | id in channels && channels[id].status == status
  }

  lemma {:induction false} StatusIsThatOfTheLastEvent(es: seq<Event>, id: string)
    ensures var previous := Previous(Run(es), id);
            StatusAfter(es, id) == if previous.Some? then Some(previous.value.status) else None
    decreases |es|
  {
    if es != [] {
      StatusIsThatOfTheLastEvent(es[..|es| - 1], id);
    }
  }

  lemma {:induction false} CountersMove(w: World, e: Event)
    ensures var m, n, previous := w.metrics, Step(w, e).metrics, Previous(w, e.id);
            && n.fallbackEnterTotal ==
                  m.fallbackEnterTotal + (if e.status == Fallback && !Was(previous, Fallback) then 1 else 0)
            && n.fallbackRecoverTotal ==
                  m.fallbackRecoverTotal + (if e.status != Fallback && Was(previous, Fallback) then 1 else 0)
            && n.reconnectAttemptTotal ==
                  m.reconnectAttemptTotal + (if e.status == Reconnecting && !Was(previous, Reconnecting) then 1 else 0)
            && n.reconnectSuccessTotal ==
                  m.reconnectSuccessTotal + (if e.status == Open && !Was(previous, Open) then 1 else 0)
  {
  }

  /** The shared counters count exactly the entries and exits of all channels. */
  lemma {:induction false} CountersCountTheHistory(es: seq<Event>)
    ensures var m := Run(es).metrics;
            && m.fallbackEnterTotal == CountEnters(es, Fallback) && m.fallbackRecoverTotal == CountLeaves(es, Fallback)
            && m.reconnectAttemptTotal == CountEnters(es, Reconnecting)
            && m.reconnectSuccessTotal == CountEnters(es, Open)
    decreases |es|
  {
    if es != [] {
      var before, e := es[..|es| - 1], es[|es| - 1];
      CountersCountTheHistory(before);
      StatusIsThatOfTheLastEvent(before, e.id);
      CountersMove(Run(before), e);
    }
  }

  lemma {:induction false} OneMoreOrLess(s: set<string>, x: string)
    ensures |s + {x}| == |s| + (if x in s then 0 else 1) && |s - {x}| == |s| - (if x in s then 1 else 0)
  {
    if x in s {
      assert s + {x} == s;
    } else {
      assert s - {x} == s;
    }
  }

  lemma {:induction false} ReplacingMoves(channels: map<string, Channel>, id: string, c: Channel, status: Status)
    ensures In(channels[id := c], status) ==
            if c.status == status then In(channels, status) + {id} else In(channels, status) - {id}
  {
  }

  lemma {:induction false} ChannelsMove(w: World, e: Event, status: Status)
    ensures |Channels(Step(w, e), status)| - |Channels(w, status)| ==
            if e.status == status && !Was(Previous(w, e.id), status) then 1
            else if e.status != status && Was(Previous(w, e.id), status) then -1
            else 0
  {
    var c := Updated(Previous(w, e.id), e);
    assert c.status == e.status;
    ReplacingMoves(w.channels, e.id, c, status);
    OneMoreOrLess(Channels(w, status), e.id);
    assert e.id in Channels(w, status) <==> Was(Previous(w, e.id), status);
  }

  /** In every run, over any number of channels: entries minus recoveries is the number of channels now in fallback. */
  lemma {:induction false} FallbackCountersBalance(es: seq<Event>)
    ensures var w := Run(es);
            w.metrics.fallbackEnterTotal - w.metrics.fallbackRecoverTotal == |Channels(w, Fallback)|
    decreases |es|
  {
    if es == [] {
      assert Channels(START, Fallback) == {};
    } else {
      FallbackCountersBalance(es[..|es| - 1]);
      CountersMove(Run(es[..|es| - 1]), es[|es| - 1]);
      ChannelsMove(Run(es[..|es| - 1]), es[|es| - 1], Fallback);
    }
  }

  // ---- When a channel fell back ----

  /** Event k put this channel into fallback, and every later event of the channel left it there. */
  ghost predicate FellBackAt(es: seq<Event>, id: string, k: nat) {
    k < |es| && es[k].id == id && Enters(es, k, Fallback) &&
    forall l | k < l < |es| && es[l].id == id :: es[l].status == Fallback
  }

  lemma {:induction false} EntersDependsOnThePast(es: seq<Event>, fs: seq<Event>, k: nat, status: Status)
    requires k < |es| && es <= fs
    ensures Enters(es, k, status) == Enters(fs, k, status)
  {
    assert es[..k] == fs[..k];
  }

  lemma {:induction false} FellBackStays(es: seq<Event>, id: string, k: nat)
    requires es != [] && FellBackAt(es[..|es| - 1], id, k) &&
        (es[|es| - 1].id == id ==> es[|es| - 1].status == Fallback)
    ensures FellBackAt(es, id, k)
  {
    EntersDependsOnThePast(es[..|es| - 1], es, k, Fallback);
    forall l | k < l < |es| && es[l].id == id ensures es[l].status == Fallback {
      if l < |es| - 1 {
        assert es[..|es| - 1][l] == es[l];
      }
    }
  }

  ghost predicate SinceIsRight(es: seq<Event>, id: string, c: Channel) {
    if c.status == Fallback then FellBackSince(es, id, c.fallbackSinceMs) else c.fallbackSinceMs.None?
  }

  ghost predicate FellBackSince(es: seq<Event>, id: string, since: Option<int>) {
    exists k: nat :: FellBackAt(es, id, k) && since == Some(es[k].updateClock)
  }

  lemma {:induction false} SinceStays(es: seq<Event>, id: string, since: Option<int>)
    requires es != [] && FellBackSince(es[..|es| - 1], id, since) &&
        (es[|es| - 1].id == id ==> es[|es| - 1].status == Fallback)
    ensures FellBackSince(es, id, since) && since.Some?
  {
    var k: nat :| FellBackAt(es[..|es| - 1], id, k) && since == Some(es[..|es| - 1][k].updateClock);
    FellBackStays(es, id, k);
    assert es[..|es| - 1][k] == es[k];
  }

  /**
  `fallbackSinceMs` is set exactly while the channel is in fallback, and is the time of the event that put it there.
  */
  lemma {:induction false} FallbackSinceIsTheEntryTime(es: seq<Event>, id: string)
    requires id in Run(es).channels
    ensures SinceIsRight(es, id, Run(es).channels[id])
    decreases |es|
  {
    if es != [] {
      var before, e := es[..|es| - 1], es[|es| - 1];
      var w := Run(before);
      if id in w.channels {
        FallbackSinceIsTheEntryTime(before, id);
        if w.channels[id].status == Fallback && (e.id == id ==> e.status == Fallback) {
          SinceStays(es, id, w.channels[id].fallbackSinceMs);
        }
      }
      if e.id == id && e.status == Fallback && !Was(Previous(w, id), Fallback) {
        StatusIsThatOfTheLastEvent(before, id);
        assert FellBackAt(es, id, |es| - 1);
      }
    }
  }

  lemma {:induction false} LeavingReports(m: Metrics, c: Channel, e: Event)
    requires c.status == Fallback && e.status != Fallback
    ensures Counted(m, Some(c), e).lastFallbackDurationMs == Duration(c.fallbackSinceMs, e.recoverClock)
  {
  }

  /** The recovery that leaves fallback reports the time since that entry, or nothing when the clock ran backwards. */
  lemma {:induction false} RecoveryReportsTheTimeInFallback(es: seq<Event>, e: Event)
    requires StatusAfter(es, e.id) == Some(Fallback) && e.status != Fallback
    ensures e.id in Run(es).channels
    ensures FellBackSince(es, e.id, Run(es).channels[e.id].fallbackSinceMs)
    ensures var since := Run(es).channels[e.id].fallbackSinceMs;
            && since.Some?
            && (e.recoverClock >= since.value ==>
                  Run(es + [e]).metrics.lastFallbackDurationMs == Some(e.recoverClock - since.value))
            && (e.recoverClock < since.value ==> Run(es + [e]).metrics.lastFallbackDurationMs == None)
  {
    StatusIsThatOfTheLastEvent(es, e.id);
    FallbackSinceIsTheEntryTime(es, e.id);
    assert (es + [e])[..|es|] == es;
    LeavingReports(Run(es).metrics, Run(es).channels[e.id], e);
  }

  // ---- Failures ----

  /** Event j is an error of this channel and no later event of the channel opened it. */
  ghost predicate ErrorSinceOpen(es: seq<Event>, id: string, j: nat) {
    && j < |es| && es[j].id == id && es[j].status == Error
    && forall l | j < l < |es| && es[l].id == id :: es[l].status != Open
  }

  ghost function ErrorsSinceOpen(es: seq<Event>, id: string): set<nat> {
    set j: nat | j < |es| && ErrorSinceOpen(es, id, j)
  }

  lemma {:induction false} ErrorsMove(es: seq<Event>, id: string)
    requires es != []
    ensures var before, after, e := ErrorsSinceOpen(es[..|es| - 1], id), ErrorsSinceOpen(es, id), es[|es| - 1];
            after ==
            if e.id != id then before
            else if e.status == Open then {}
            else if e.status == Error then before + {|es| - 1}
            else before
  {
    var n := |es| - 1;
    forall j: nat | j < n
      ensures ErrorSinceOpen(es, id, j) <==>
              ErrorSinceOpen(es[..n], id, j) && !(es[n].id == id && es[n].status == Open)
    {
      assert forall l | j < l < n :: es[..n][l] == es[l];
      assert es[..n][j] == es[j];
    }
    assert ErrorSinceOpen(es, id, n) <==> es[n].id == id && es[n].status == Error;
  }

  lemma {:induction false} ErrorsAreCounted(es: seq<Event>, id: string)
    requires es != []
    ensures var before, e := |ErrorsSinceOpen(es[..|es| - 1], id)|, es[|es| - 1];
            |ErrorsSinceOpen(es, id)| ==
            if e.id != id then before
            else if e.status == Open then 0
            else if e.status == Error then before + 1
            else before
  {
    ErrorsMove(es, id);
    assert |es| - 1 !in ErrorsSinceOpen(es[..|es| - 1], id);
  }

  ghost predicate NeverOverridden(es: seq<Event>, id: string) {
    forall k | 0 <= k < |es| && es[k].id == id :: es[k].options.consecutiveFailures.None?
  }

  function FailuresOf(c: Option<Channel>): int {
    if c.Some? then c.value.consecutiveFailures else 0
  }

  lemma {:induction false} FailuresMove(w: World, e: Event, id: string)
    requires e.id == id ==> e.options.consecutiveFailures.None?
    ensures FailuresOf(Previous(Step(w, e), id)) ==
            if e.id == id then Failures(Previous(w, id), e.status) else FailuresOf(Previous(w, id))
  {
  }

  /**
  Unless a transition overrides it, `consecutiveFailures` is the number of the channel's errors since it was last
  open.
  */
  lemma {:induction false} FailuresAreErrorsSinceOpen(es: seq<Event>, id: string)
    requires NeverOverridden(es, id)
    ensures FailuresOf(Previous(Run(es), id)) == |ErrorsSinceOpen(es, id)|
    decreases |es|
  {
    if es == [] {
      assert ErrorsSinceOpen(es, id) == {};
    } else {
      var before, e := es[..|es| - 1], es[|es| - 1];
      assert NeverOverridden(before, id);
      FailuresAreErrorsSinceOpen(before, id);
      FailuresMove(Run(before), e, id);
      ErrorsAreCounted(es, id);
    }
  }
}
