/**
The JSON-RPC client loop of the ACP runtime: requests from many callers share one pipe,
and every response line is routed back to the caller whose request carried its id.

Each `select!` arm runs to its end before the next one starts, so an arm is one atomic step.
A caller is named by the arrival number of its command.
*/
module AcpMultiplexer {
  import opened Options

  const U64_MAX: nat := 0xFFFF_FFFF_FFFF_FFFF
  const FIRST_REQUEST_ID: nat := 2
  const STOPPED := "stopped before responding"

  /** What a one-shot sender delivers. */
  datatype Outcome = Answered(value: string) | Failed(message: string)

  /** The response object once its id has matched: an error, a result (absent means null), or neither parses. */
  datatype Body = ErrorBody(message: string) | ResultBody(result: Option<string>) | MalformedBody(detail: string)

  /** One line read from the child. A line with a method is never a response. */
  datatype Line =
    | Unusable
    | ServerCall(name: string, callId: Option<nat>)
    | Response(id: Option<nat>, body: Body)

  /** One turn of the loop: which arm fired, and what the environment answered. */
  datatype Event =
    | Request(writeError: Option<string>)
    | Notification(writeError: Option<string>)
    | ReadLine(line: Line)
    | CommandsClosed
    | OutputClosed

  /** The id a caller's request was written with, if it was written, and everything sent back to the caller. */
  datatype Caller = Caller(requestId: Option<nat>, inbox: seq<Outcome>)

  datatype State = State(nextId: nat, pending: map<nat, nat>, callers: seq<Caller>, running: bool)

  const INIT := State(FIRST_REQUEST_ID, map[], [], true)

  function SaturatingIncrement(id: nat): nat {
    if id < U64_MAX then id + 1 else U64_MAX
  }

  function Decode(body: Body): Outcome {
    match body
    case ErrorBody(message) => Failed(message)
    case ResultBody(result) => Answered(if result.Some? then result.value else "null")
    case MalformedBody(detail) => Failed(detail)
  }

  function Told(c: Caller, outcome: Outcome): (r: Caller)
    ensures c.inbox == [] ==> r == Caller(c.requestId, [outcome])
  {
    c.(inbox := c.inbox + [outcome])
  }

  function Deliver(callers: seq<Caller>, w: nat, outcome: Outcome): seq<Caller> {
    if w < |callers| then callers[w := Told(callers[w], outcome)] else callers
  }

  /** A request takes the next id whether or not it can be written; only a written one becomes pending. */
  function OnRequest(s: State, writeError: Option<string>): State {
    var id := s.nextId;
    if writeError.Some? then
      s.(nextId := SaturatingIncrement(id), callers := s.callers + [Caller(None, [Failed(writeError.value)])])
    else
      State(SaturatingIncrement(id), s.pending[id := |s.callers|], s.callers + [Caller(Some(id), [])], s.running)
  }

  function OnNotification(s: State, writeError: Option<string>): State {
    var outcome := if writeError.Some? then Failed(writeError.value) else Answered("()");
    s.(callers := s.callers + [Caller(None, [outcome])])
  }

  function OnLine(s: State, line: Line): State {
    match line
    case Response(Some(id), body) =>
      if id in s.pending then
        s.(pending := s.pending - {id}, callers := Deliver(s.callers, s.pending[id], Decode(body)))
      else s
    case _ => s
  }

  /** Leaving the loop: whoever is still pending is told that the client stopped. */
  function Drain(s: State): State {
    State(s.nextId, map[], TellAll(s.callers, s.pending.Values), false)
  }

  function TellAll(callers: seq<Caller>, ws: set<nat>): (r: seq<Caller>)
    ensures |r| == |callers|
    ensures forall w | 0 <= w < |r| :: r[w] == if w in ws then Told(callers[w], Failed(STOPPED)) else callers[w]
  {
    seq(|callers|, w requires 0 <= w < |callers| =>
      if w in ws then Told(callers[w], Failed(STOPPED)) else callers[w])
  }

  /** One turn of the loop; after the loop has broken out nothing changes. */
  function Step(s: State, e: Event): State {
    if !s.running then s
    else
      match e
      case Request(writeError) => OnRequest(s, writeError)
      case Notification(writeError) => OnNotification(s, writeError)
      case ReadLine(line) => OnLine(s, line)
      case CommandsClosed => Drain(s)
      case OutputClosed => Drain(s)
  }

  function Run(es: seq<Event>): State {
    if es == [] then INIT else Step(Run(es[..|es| - 1]), es[|es| - 1])
  }

  function CountRequests(es: seq<Event>): nat {
    if es == [] then 0
    else CountRequests(es[..|es| - 1]) + if es[|es| - 1].Request? then 1 else 0
  }

  // ---- Invariants ----

  /** A pending id names the caller whose request was written with it. */
  ghost predicate WellNamed(s: State) {
    forall id | id in s.pending :: s.pending[id] < |s.callers| && s.callers[s.pending[id]].requestId == Some(id)
  }

  predicate Waits(s: State, w: nat)
    requires w < |s.callers|
  {
    var c := s.callers[w];
    c.inbox == [] && c.requestId.Some? && c.requestId.value in s.pending && s.pending[c.requestId.value] == w
  }

  /** Every caller received so far either waits under its id or has been sent exactly one outcome. */
  ghost predicate Conserved(s: State)
    requires WellNamed(s)
  {
    && (forall w | 0 <= w < |s.callers| :: |s.callers[w].inbox| == 1 || Waits(s, w))
    && (forall id | id in s.pending :: s.callers[s.pending[id]].inbox == [])
  }

  ghost predicate Accounted(s: State) {
    WellNamed(s) && Conserved(s)
  }

  /** No two callers' requests were written with the same id. */
  ghost predicate DistinctIds(s: State) {
    forall v, w | 0 <= v < w < |s.callers| && s.callers[v].requestId.Some? ::
      s.callers[v].requestId != s.callers[w].requestId
  }

  ghost predicate IdsBelow(s: State, bound: nat) {
    forall w | 0 <= w < |s.callers| && s.callers[w].requestId.Some? ::
      FIRST_REQUEST_ID <= s.callers[w].requestId.value < bound
  }

  /** The one step that drops a caller: the saturated id is still pending and is issued again. */
  predicate Overwrites(s: State, e: Event) {
    s.running && e.Request? && e.writeError.None? && s.nextId in s.pending
  }

  // ---- One step ----

  lemma {:induction false} StepWellNamed(s: State, e: Event)
    requires WellNamed(s)
    ensures WellNamed(Step(s, e))
  {
  }

  lemma {:induction false} LineConserves(s: State, line: Line)
    requires Accounted(s)
    ensures Accounted(OnLine(s, line))
  {
    var t := OnLine(s, line);
    forall w | 0 <= w < |t.callers| ensures |t.callers[w].inbox| == 1 || Waits(t, w) {
      assert |s.callers[w].inbox| == 1 || Waits(s, w);
    }
  }

  lemma {:induction false} RequestConservesExactly(s: State, writeError: Option<string>)
    requires Accounted(s) && s.running
    ensures Accounted(OnRequest(s, writeError)) <==> !Overwrites(s, Request(writeError))
  {
    var t := OnRequest(s, writeError);
    if Overwrites(s, Request(writeError)) {
      var lost := s.pending[s.nextId];
      assert t.callers[lost] == s.callers[lost] && !Waits(t, lost);
    } else {
      forall w | 0 <= w < |t.callers| ensures |t.callers[w].inbox| == 1 || Waits(t, w) {
        assert w < |s.callers| ==> |s.callers[w].inbox| == 1 || Waits(s, w);
      }
    }
  }

  /** A step keeps every caller accounted for exactly when it does not reissue a pending id. */
  lemma {:induction false} StepConservesExactly(s: State, e: Event)
    requires Accounted(s)
    ensures Accounted(Step(s, e)) <==> !Overwrites(s, e)
  {
    if s.running {
      match e
      case Request(writeError) => RequestConservesExactly(s, writeError);
      case Notification(writeError) =>
        forall w | 0 <= w < |s.callers| ensures |s.callers[w].inbox| == 1 || Waits(Step(s, e), w) {
          assert |s.callers[w].inbox| == 1 || Waits(s, w);
        }
      case ReadLine(line) => LineConserves(s, line);
      case CommandsClosed => DrainConserves(s);
      case OutputClosed => DrainConserves(s);
    }
  }

  lemma {:induction false} DrainConserves(s: State)
    requires Accounted(s)
    ensures Accounted(Drain(s))
  {
    var t := Drain(s);
    forall w | 0 <= w < |t.callers| ensures |t.callers[w].inbox| == 1 {
      if w in s.pending.Values {
        var id :| id in s.pending && s.pending[id] == w;
      } else {
        assert !Waits(s, w);
      }
    }
  }

  lemma {:induction false} FreshIdIsNotPending(s: State)
    requires WellNamed(s) && IdsBelow(s, s.nextId)
    ensures s.nextId !in s.pending
  {
  }

  lemma {:induction false} RequestKeepsIds(s: State, writeError: Option<string>)
    requires WellNamed(s) && DistinctIds(s) && IdsBelow(s, s.nextId) && FIRST_REQUEST_ID <= s.nextId <= U64_MAX
    ensures DistinctIds(OnRequest(s, writeError))
    ensures IdsBelow(OnRequest(s, writeError), s.nextId + 1)
  {
  }

  /** What holds of the ids after a run with `issued` requests in it. */
  ghost predicate IdsOk(s: State, issued: nat) {
    && WellNamed(s) && DistinctIds(s)
    && FIRST_REQUEST_ID <= s.nextId <= U64_MAX
    && s.nextId <= FIRST_REQUEST_ID + issued
    && (issued < U64_MAX - 1 ==> IdsBelow(s, s.nextId))
  }

  lemma {:induction false} RequestIds(s: State, e: Event, issued: nat)
    requires IdsOk(s, issued) && issued < U64_MAX - 1 && e.Request?
    ensures IdsOk(Step(s, e), issued + 1)
  {
    StepWellNamed(s, e);
    if s.running { RequestKeepsIds(s, e.writeError); }
  }

  lemma {:induction false} OtherIds(s: State, e: Event, issued: nat)
    requires IdsOk(s, issued) && !e.Request?
    ensures IdsOk(Step(s, e), issued)
  {
    StepWellNamed(s, e);
    var t := Step(s, e);
    assert forall w | 0 <= w < |t.callers| && t.callers[w].requestId.Some? ::
        w < |s.callers| && t.callers[w].requestId == s.callers[w].requestId;
  }

  // ---- Over every run ----

  /**
  Every caller is accounted for and ids are distinct as long as at most 2^64 - 2 requests arrive;
  with fewer than that, every id stays below the counter.
  */
  lemma {:induction false} RunInvariant(es: seq<Event>)
    requires CountRequests(es) <= U64_MAX - 1
    ensures Accounted(Run(es)) && IdsOk(Run(es), CountRequests(es))
  {
    if es != [] {
      var before, e := es[..|es| - 1], es[|es| - 1];
      RunInvariant(before);
      var s := Run(before);
      if e.Request? {
        FreshIdIsNotPending(s);
        RequestIds(s, e, CountRequests(before));
      } else {
        OtherIds(s, e, CountRequests(before));
      }
      StepConservesExactly(s, e);
    }
  }

  /** The caller has been told nothing, and nothing pending leads to it any more. */
  ghost predicate Lost(s: State, w: nat) {
    w < |s.callers| && s.callers[w].inbox == [] && forall id | id in s.pending :: s.pending[id] != w
  }

  lemma {:induction false} LostStaysLost(s: State, e: Event, w: nat)
    requires WellNamed(s) && Lost(s, w)
    ensures Lost(Step(s, e), w) && !Accounted(s)
  {
    assert !Waits(s, w);
  }

  lemma {:induction false} OverwritingLoses(s: State, e: Event)
    requires Accounted(s) && Overwrites(s, e)
    ensures Lost(Step(s, e), s.pending[s.nextId])
  {
  }

  ghost predicate NeverOverwrites(es: seq<Event>) {
    forall i | 0 <= i < |es| :: !Overwrites(Run(es[..i]), es[i])
  }

  lemma {:induction false} NeverOverwritesOneMore(es: seq<Event>)
    requires es != []
    ensures NeverOverwrites(es) <==>
            NeverOverwrites(es[..|es| - 1]) && !Overwrites(Run(es[..|es| - 1]), es[|es| - 1])
  {
    var before := es[..|es| - 1];
    forall i | 0 <= i < |before| ensures Overwrites(Run(before[..i]), before[i]) == Overwrites(Run(es[..i]), es[i]) {
      assert before[..i] == es[..i];
    }
    if NeverOverwrites(es) {
      forall i | 0 <= i < |before| ensures !Overwrites(Run(before[..i]), before[i]) {
        assert !Overwrites(Run(es[..i]), es[i]);
      }
    }
    if NeverOverwrites(before) && !Overwrites(Run(before), es[|es| - 1]) {
      forall i | 0 <= i < |es| ensures !Overwrites(Run(es[..i]), es[i]) {
        assert i < |before| ==> !Overwrites(Run(before[..i]), before[i]);
      }
    }
  }

  lemma {:induction false} AccountedOrLost(es: seq<Event>)
    ensures if NeverOverwrites(es) then Accounted(Run(es)) else exists w :: Lost(Run(es), w)
  {
    if es != [] {
      var before, e := es[..|es| - 1], es[|es| - 1];
      AccountedOrLost(before);
      NeverOverwritesOneMore(es);
      if NeverOverwrites(before) {
        StepConservesExactly(Run(before), e);
        if Overwrites(Run(before), e) {
          OverwritingLoses(Run(before), e);
          assert Lost(Run(es), Run(before).pending[Run(before).nextId]);
        }
      } else {
        var w :| Lost(Run(before), w);
        RunWellNamed(before);
        LostStaysLost(Run(before), e, w);
        assert Lost(Run(es), w);
      }
    }
  }

  /**
  After any run at all, every caller is accounted for exactly when no pending id was ever issued again: who is lost
  stays lost.
  */
  lemma {:induction false} RunConservesExactly(es: seq<Event>)
    ensures Accounted(Run(es)) <==> NeverOverwrites(es)
  {
    AccountedOrLost(es);
    if !NeverOverwrites(es) {
      var w :| Lost(Run(es), w);
      RunWellNamed(es);
      LostStaysLost(Run(es), CommandsClosed, w);
    }
  }

  lemma {:induction false} NothingPendingAfterExit(es: seq<Event>)
    ensures !Run(es).running ==> Run(es).pending == map[]
  {
    if es != [] { NothingPendingAfterExit(es[..|es| - 1]); }
  }

  /** Once the loop has exited, every caller whose command it took has been sent exactly one outcome. */
  lemma {:induction false} EveryCallerSettlesOnce(es: seq<Event>)
    requires CountRequests(es) <= U64_MAX - 1
    requires !Run(es).running
    ensures forall w | 0 <= w < |Run(es).callers| :: |Run(es).callers[w].inbox| == 1
  {
    RunInvariant(es);
    NothingPendingAfterExit(es);
    forall w | 0 <= w < |Run(es).callers| ensures |Run(es).callers[w].inbox| == 1 {
      assert !Waits(Run(es), w);
    }
  }

  /**
  A response line reaches the one caller whose request was written with its id, as that caller's first and only
  outcome; nobody else is sent anything, and a response with an id nobody waits for changes nothing.
  */
  lemma {:induction false} ResponseReachesItsOwnCaller(es: seq<Event>, id: nat, body: Body)
    requires CountRequests(es) <= U64_MAX - 1
    ensures var s, t := Run(es), Run(es + [ReadLine(Response(Some(id), body))]);
            if id in s.pending then
              var w := s.pending[id];
              && w < |s.callers| == |t.callers|
              && (forall v | 0 <= v < |s.callers| :: s.callers[v].requestId == Some(id) <==> v == w)
              && t.callers[w] == Caller(Some(id), [Decode(body)])
              && (forall v | 0 <= v < |s.callers| && v != w :: t.callers[v] == s.callers[v])
              && t.pending == s.pending - {id}
            else t == s
  {
    var e := ReadLine(Response(Some(id), body));
    assert (es + [e])[..|es|] == es;
    RunInvariant(es);
    NothingPendingAfterExit(es);
    var s := Run(es);
    if id in s.pending {
      var w := s.pending[id];
      assert s.callers[w] == Caller(Some(id), []);
    }
  }

  // ---- What each caller gets, read off the history ----

  predicate Closes(e: Event) {
    e.CommandsClosed? || e.OutputClosed?
  }

  predicate IsCommand(e: Event) {
    e.Request? || e.Notification?
  }

  function CountCommands(es: seq<Event>): nat {
    if es == [] then 0
    else CountCommands(es[..|es| - 1]) + if IsCommand(es[|es| - 1]) then 1 else 0
  }

  /** The first n events leave the loop running. */
  ghost predicate OpenUntil(es: seq<Event>, n: nat) {
    forall i | 0 <= i < n && i < |es| :: !Closes(es[i])
  }

  /** The event decides the request with this id: a response to it, or the end of the loop. */
  predicate Settles(e: Event, id: nat) {
    Closes(e) || (e.ReadLine? && e.line.Response? && e.line.id == Some(id))
  }

  /** Event q is the first after p to decide the request. */
  ghost predicate FirstSettles(es: seq<Event>, p: nat, q: nat, id: nat) {
    p < q < |es| && Settles(es[q], id) && forall r | p < r < q :: !Settles(es[r], id)
  }

  /** What the deciding event brings: the error's message, the result (null if absent), or why it could not be read. */
  predicate Brings(e: Event, id: nat, inbox: seq<Outcome>)
    requires Settles(e, id)
  {
    if Closes(e) then inbox == [Failed("stopped before responding")]
    else
      match e.line.body
      case ErrorBody(message) => inbox == [Failed(message)]
      case ResultBody(Some(value)) => inbox == [Answered(value)]
      case ResultBody(None) => inbox == [Answered("null")]
      case MalformedBody(detail) => inbox == [Failed(detail)]
  }

  /** What came of the caller of command p. A written request has as id the number of requests before it, plus two. */
  ghost predicate Fate(es: seq<Event>, p: nat, c: Caller)
    requires p < |es|
  {
    match es[p]
    case Notification(None) => c == Caller(None, [Answered("()")])
    case Notification(Some(error)) => c == Caller(None, [Failed(error)])
    case Request(Some(error)) => c == Caller(None, [Failed(error)])
    case Request(None) => Decided(es, p, 2 + CountRequests(es[..p]), c)
    case _ => true
  }

  ghost predicate Decided(es: seq<Event>, p: nat, id: nat, c: Caller) {
    && c.requestId == Some(id)
    && (forall q: nat | FirstSettles(es, p, q, id) :: Brings(es[q], id, c.inbox))
    && ((forall q | p < q < |es| :: !Settles(es[q], id)) ==> c.inbox == [])
  }

  lemma {:induction false} OpenBefore(es: seq<Event>)
    requires es != []
    ensures OpenUntil(es, |es|) <==> OpenUntil(es[..|es| - 1], |es| - 1) && !Closes(es[|es| - 1])
  {
    var before := es[..|es| - 1];
    assert forall i | 0 <= i < |before| :: before[i] == es[i];
  }

  /** While the loop runs there is one caller for each command, and the counter tells the requests. */
  lemma {:induction false} OpenLoop(es: seq<Event>)
    ensures Run(es).running <==> OpenUntil(es, |es|)
    ensures OpenUntil(es, |es|) ==> |Run(es).callers| == CountCommands(es)
    ensures OpenUntil(es, |es|) && CountRequests(es) <= U64_MAX - 2 ==> Run(es).nextId == 2 + CountRequests(es)
    decreases |es|
  {
    if es != [] {
      OpenBefore(es);
      OpenLoop(es[..|es| - 1]);
    }
  }

  lemma {:induction false} SettledStaysSettled(s: State, e: Event, w: nat)
    requires Accounted(s) && w < |s.callers| && s.callers[w].inbox != []
    ensures w < |Step(s, e).callers| && Step(s, e).callers[w] == s.callers[w]
  {
  }

  lemma {:induction false} WaitingIsDecided(s: State, e: Event, w: nat, id: nat)
    requires Accounted(s) && s.running && w < |s.callers| && s.callers[w] == Caller(Some(id), [])
    ensures w < |Step(s, e).callers| && Step(s, e).callers[w].requestId == Some(id)
    ensures if Settles(e, id) then Brings(e, id, Step(s, e).callers[w].inbox) else Step(s, e).callers[w] == s.callers[w]
  {
    assert Waits(s, w);
  }

  lemma {:induction false} HasFirst(es: seq<Event>, p: nat, r: nat, id: nat) returns (q: nat)
    requires p < r < |es| && Settles(es[r], id)
    ensures FirstSettles(es, p, q, id) && q <= r
    decreases r
  {
    if t: nat :| p < t < r && Settles(es[t], id) {
      q := HasFirst(es, p, t, id);
    } else {
      q := r;
    }
  }

  lemma {:induction false} FateOfNewCommand(es: seq<Event>)
    requires es != [] && CountRequests(es) <= U64_MAX - 1 && IsCommand(es[|es| - 1]) && OpenUntil(es, |es| - 1)
    ensures var n := CountCommands(es[..|es| - 1]);
            n < |Run(es).callers| && Fate(es, |es| - 1, Run(es).callers[n])
  {
    OpenBefore(es);
    OpenLoop(es[..|es| - 1]);
  }

  lemma {:induction false} DecidedAlready(before: seq<Event>, e: Event, p: nat, id: nat, c: Caller, r: nat)
    requires Decided(before, p, id, c) && p < r < |before| && Settles(before[r], id)
    ensures c.inbox != [] && Decided(before + [e], p, id, c)
  {
    var es := before + [e];
    assert forall i | 0 <= i < |before| :: es[i] == before[i];
    var q := HasFirst(before, p, r, id);
    forall t: nat | FirstSettles(es, p, t, id) ensures Brings(es[t], id, c.inbox) {
      assert t == q;
    }
  }

  lemma {:induction false} DecidedNow(before: seq<Event>, e: Event, p: nat, id: nat, c: Caller, d: Caller)
    requires c == Caller(Some(id), []) && p < |before| && forall r | p < r < |before| :: !Settles(before[r], id)
    requires d.requestId == Some(id) && if Settles(e, id) then Brings(e, id, d.inbox) else d == c
    ensures Decided(before + [e], p, id, d)
  {
    var es := before + [e];
    assert es[|before|] == e && forall i | 0 <= i < |before| :: es[i] == before[i];
  }

  /** One event more: a caller who was decided keeps what it got, and one who was not gets what the event brings. */
  lemma {:induction false} DecidedOneMore(before: seq<Event>, e: Event, p: nat, w: nat, id: nat)
    requires CountRequests(before) <= U64_MAX - 1 && p < |before| && OpenUntil(before, p + 1)
    requires w < |Run(before).callers| && Decided(before, p, id, Run(before).callers[w])
    ensures w < |Step(Run(before), e).callers| && Decided(before + [e], p, id, Step(Run(before), e).callers[w])
  {
    var s := Run(before);
    RunInvariant(before);
    if r: nat :| p < r < |before| && Settles(before[r], id) {
      DecidedAlready(before, e, p, id, s.callers[w], r);
      SettledStaysSettled(s, e, w);
    } else {
      OpenLoop(before);
      assert s.callers[w] == Caller(Some(id), []) && s.running;
      WaitingIsDecided(s, e, w, id);
      DecidedNow(before, e, p, id, s.callers[w], Step(s, e).callers[w]);
    }
  }

  lemma {:induction false} FateOneMore(before: seq<Event>, e: Event, p: nat, w: nat)
    requires CountRequests(before) <= U64_MAX - 1
    requires p < |before| && IsCommand(before[p]) && OpenUntil(before, p)
    requires w < |Run(before).callers| && Fate(before, p, Run(before).callers[w])
    ensures w < |Step(Run(before), e).callers| && Fate(before + [e], p, Step(Run(before), e).callers[w])
  {
    hide Run, Step, Decided, CountRequests;
    var es := before + [e];
    assert es[p] == before[p] && es[..p] == before[..p];
    if before[p] == Request(None) {
      DecidedOneMore(before, e, p, w, 2 + CountRequests(before[..p]));
      assert Fate(es, p, Step(Run(before), e).callers[w]);
    } else {
      RunInvariant(before);
      assert Run(before).callers[w].inbox != [];
      SettledStaysSettled(Run(before), e, w);
      assert Fate(es, p, Run(before).callers[w]);
    }
  }

  /**
  What every caller gets is decided by the history alone: the answer to a notification and to a request that could not
  be written at once; to any other request whatever the first response with its id says, or that the loop stopped,
  whichever is first; and nothing before that.
  */
  lemma {:induction false} EveryCallersFate(es: seq<Event>, p: nat)
    requires CountRequests(es) <= U64_MAX - 1
    requires p < |es| && IsCommand(es[p]) && OpenUntil(es, p)
    ensures var n := CountCommands(es[..p]);
            n < |Run(es).callers| && Fate(es, p, Run(es).callers[n])
    decreases |es|
  {
    if p == |es| - 1 {
      FateOfNewCommand(es);
    } else {
      var before := es[..|es| - 1];
      assert before[..p] == es[..p] && forall i | 0 <= i < |before| :: before[i] == es[i];
      EveryCallersFate(before, p);
      assert before + [es[|es| - 1]] == es;
      FateOneMore(before, es[|es| - 1], p, CountCommands(es[..p]));
    }
  }

  /** Nobody else is a caller: there are as many as commands before the loop ended. */
  lemma {:induction false} CallersAreTheCommands(es: seq<Event>, n: nat)
    requires n <= |es| && OpenUntil(es, n) && (n < |es| ==> Closes(es[n]))
    ensures |Run(es).callers| == CountCommands(es[..n])
    decreases |es|
  {
    if n == |es| {
      assert es[..n] == es;
      OpenLoop(es);
    } else {
      var before := es[..|es| - 1];
      assert before[..n] == es[..n] && forall i | 0 <= i < |before| :: before[i] == es[i];
      OpenLoop(before);
      CallersAreTheCommands(before, n);
    }
  }

  // ---- The bound is tight ----

  function Unanswered(n: nat): (es: seq<Event>)
    ensures |es| == n && forall i | 0 <= i < n :: es[i] == Request(None)
  {
    seq(n, i => Request(None))
  }

  lemma {:induction false} UnansweredState(n: nat)
    requires n <= U64_MAX - 1
    ensures CountRequests(Unanswered(n)) == n
    ensures Run(Unanswered(n)).running
    ensures Run(Unanswered(n)).nextId == if n + 2 <= U64_MAX then n + 2 else U64_MAX
    ensures n > 0 ==> n + 1 in Run(Unanswered(n)).pending
  {
    if n > 0 {
      assert Unanswered(n)[..n - 1] == Unanswered(n - 1);
      UnansweredState(n - 1);
    }
  }

  /** One request more than the bound, none of them answered: a caller neither waits nor has been told anything. */
  lemma {:induction false} SaturationDropsACaller()
    ensures CountRequests(Unanswered(U64_MAX)) == U64_MAX
    ensures !Accounted(Run(Unanswered(U64_MAX)))
  {
    var n := U64_MAX - 1;
    UnansweredState(n);
    RunInvariant(Unanswered(n));
    assert Unanswered(U64_MAX)[..n] == Unanswered(n);
    StepConservesExactly(Run(Unanswered(n)), Request(None));
  }

  lemma {:induction false} RunWellNamed(es: seq<Event>)
    ensures WellNamed(Run(es))
  {
    if es != [] {
      RunWellNamed(es[..|es| - 1]);
      StepWellNamed(Run(es[..|es| - 1]), es[|es| - 1]);
    }
  }

  // ---- The loop itself ----

  lemma {:induction false} TellOneMore(callers: seq<Caller>, told: set<nat>, w: nat)
    requires w < |callers| && w !in told
    ensures var before := TellAll(callers, told);
            before[w := Told(before[w], Failed(STOPPED))] == TellAll(callers, told + {w})
  {
  }

  /** Part-way through the shutdown: who has been told, and who is still to come. */
  ghost predicate Telling(all: map<nat, nat>, left: map<nat, nat>, told: set<nat>) {
    && told <= all.Values
    && (forall i, j | i in all && j in all && all[i] == all[j] :: i == j)
    && (forall id | id in left :: id in all && left[id] == all[id] && all[id] !in told)
    && (forall id | id in all && id !in left :: all[id] in told)
  }

  lemma {:induction false} TellingStep(all: map<nat, nat>, left: map<nat, nat>, told: set<nat>, id: nat)
    requires Telling(all, left, told) && id in left
    ensures Telling(all, left - {id}, told + {left[id]}) && |(left - {id}).Keys| < |left.Keys|
    ensures left[id] !in told
  {
    assert (left - {id}).Keys == left.Keys - {id};
  }

  lemma {:induction false} TellingEnds(all: map<nat, nat>, told: set<nat>)
    requires Telling(all, map[], told)
    ensures told == all.Values
  {
  }

  lemma {:induction false} NobodyToldYet(s: State)
    requires WellNamed(s)
    ensures Telling(s.pending, s.pending, {}) && s.callers == TellAll(s.callers, {})
    ensures forall id | id in s.pending :: s.pending[id] < |s.callers|
  {
  }

  /** One waiter told: what the shutdown loop needs to go on. */
  lemma {:induction false} ToldOne(all: map<nat, nat>, left: map<nat, nat>, told: set<nat>, id: nat,
      before: seq<Caller>)
    requires Telling(all, left, told) && id in left && forall x | x in all :: all[x] < |before|
    ensures Telling(all, left - {id}, told + {left[id]}) && |(left - {id}).Keys| < |left.Keys|
    ensures left[id] < |before|
    ensures var now := TellAll(before, told);
            now[left[id] := Told(now[left[id]], Failed(STOPPED))] == TellAll(before, told + {left[id]})
  {
    TellingStep(all, left, told, id);
    TellOneMore(before, told, left[id]);
  }

  class ClientLoop {
    var nextRequestId: nat
    var pending: map<nat, nat>
    var callers: seq<Caller>
    var running: bool

    ghost function View(): State
      reads this
    {
      State(nextRequestId, pending, callers, running)
    }

    constructor ()
      ensures View() == INIT
    {
      nextRequestId, pending, callers, running := FIRST_REQUEST_ID, map[], [], true;
    }

    method Send(w: nat, outcome: Outcome)
      requires w < |callers|
      modifies this`callers
      ensures callers == old(callers)[w := Told(old(callers)[w], outcome)]
    {
      callers := callers[w := Told(callers[w], outcome)];
    }

    method HandleRequest(writeError: Option<string>)
      requires running
      modifies this
      ensures View() == Step(old(View()), Request(writeError))
    {
      var requestId, w := nextRequestId, |callers|;
      nextRequestId := SaturatingIncrement(nextRequestId);
      if writeError.Some? {
        callers := callers + [Caller(None, [])];
        Send(w, Failed(writeError.value));
        assert callers == old(callers) + [Caller(None, [Failed(writeError.value)])];
        return;
      }
      callers := callers + [Caller(Some(requestId), [])];
      pending := pending[requestId := w];
    }

    method HandleNotification(writeError: Option<string>)
      requires running
      modifies this
      ensures View() == Step(old(View()), Notification(writeError))
    {
      var w := |callers|;
      var outcome := if writeError.Some? then Failed(writeError.value) else Answered("()");
      callers := callers + [Caller(None, [])];
      Send(w, outcome);
      assert callers == old(callers) + [Caller(None, [outcome])];
    }

    method HandleLine(line: Line)
      requires running && WellNamed(View())
      modifies this
      ensures View() == Step(old(View()), ReadLine(line))
    {
      match line
      case Response(Some(id), body) =>
        if id in pending {
          var w := pending[id];
          pending := pending - {id};
          Send(w, Decode(body));
        }
      case _ =>
    }

    /** Tells each pending caller, in whatever order the map yields them. */
    method DrainPending()
      requires Telling(pending, pending, {}) && callers == TellAll(callers, {})
      requires forall id | id in pending :: pending[id] < |callers|
      modifies this`pending, this`callers
      ensures pending == map[] && callers == TellAll(old(callers), old(pending).Values)
    {
      ghost var all, before := pending, callers;
      ghost var told: set<nat> := {};
      while pending.Keys != {}
        invariant Telling(all, pending, told)
        invariant callers == TellAll(before, told)
        decreases |pending.Keys|
      {
        var id :| id in pending.Keys;
        var w := pending[id];
        ToldOne(all, pending, told, id, before);
        pending := pending - {id};
        Send(w, Failed(STOPPED));
        told := told + {w};
      }
      assert pending == map[];
      TellingEnds(all, told);
    }

    method Stop()
      requires running && WellNamed(View())
      modifies this
      ensures View() == Drain(old(View()))
    {
      running := false;
      NobodyToldYet(View());
      DrainPending();
    }

    method Serve(events: seq<Event>)
      requires View() == INIT
      modifies this
      ensures View() == Run(events)
    {
      for i := 0 to |events|
        invariant View() == Run(events[..i])
      {
        assert events[..i + 1][..i] == events[..i];
        RunWellNamed(events[..i]);
        if running {
          match events[i]
          case Request(writeError) => HandleRequest(writeError);
          case Notification(writeError) => HandleNotification(writeError);
          case ReadLine(line) => HandleLine(line);
          case CommandsClosed => Stop();
          case OutputClosed => Stop();
        }
      }
      assert events[..|events|] == events;
    }
  }
}
