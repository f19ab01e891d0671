/**
The single-flight cache in front of the capabilities probe. A call runs without interruption up to its first
await; the probe's continuation and its owner's `catch`/`finally` run later, each without interruption, and any
calls may come in between. Each such stretch is one atomic step.
*/
module CapabilitiesProbe {
  import Contract = CapabilitiesContract
  import opened Options

  const CACHE_TTL_MS := 60_000
  const NULL_CACHE_TTL_MS := 5_000
  const GUARD_ERROR_TTL_MS := 5_000

  /** What the probe itself comes back with; a failure is any rejection that is not a guard error. */
  datatype ProbeResult<S> = Probed(snapshot: Option<S>, cacheable: bool) | ProbeFailed(message: string)

  datatype Outcome<S, E> = Resolved(snapshot: Option<S>) | Refused(error: E) | Broken(message: string)

  /** `snapshot` is None when undefined and Some(None) when a null snapshot is cached. */
  datatype Cache<S, E> = Cache(
    snapshot: Option<Option<S>>,
    snapshotCachedAt: Option<int>,
    inFlight: Option<nat>,
    guardError: Option<E>,
    guardErrorCachedAt: Option<int>)

  /** The synchronous part of a call ends in one of these. */
  datatype Answer<S, E> = Settled(outcome: Outcome<S, E>) | Joined(flight: nat) | Started

  function Ttl<S>(snapshot: Option<S>): int {
    if snapshot.None? then NULL_CACHE_TTL_MS else CACHE_TTL_MS
  }

  predicate Fresh(cachedAt: Option<int>, now: int, ttl: int) {
    cachedAt.Some? && now - cachedAt.value < ttl
  }

  predicate ErrorIsFresh<S, E>(c: Cache<S, E>, now: int) {
    c.guardError.Some? && Fresh(c.guardErrorCachedAt, now, GUARD_ERROR_TTL_MS)
  }

  predicate SnapshotIsFresh<S, E>(c: Cache<S, E>, now: int) {
    c.snapshot.Some? && Fresh(c.snapshotCachedAt, now, Ttl(c.snapshot.value))
  }

  function WithoutError<S, E>(c: Cache<S, E>): Cache<S, E> {
    if c.guardError.Some? then c.(guardError := None, guardErrorCachedAt := None) else c
  }

  function WithoutSnapshot<S, E>(c: Cache<S, E>): Cache<S, E> {
    if c.snapshot.Some? then c.(snapshot := None, snapshotCachedAt := None) else c
  }

  /** The clock may be read twice in one call. A started probe takes the given flight number. */
  function EnterAnswer<S, E>(c: Cache<S, E>, errorClock: int, snapshotClock: int): Answer<S, E> {
    if ErrorIsFresh(c, errorClock) then Settled(Refused(c.guardError.value))
    else if SnapshotIsFresh(c, snapshotClock) then Settled(Resolved(c.snapshot.value))
    else if c.inFlight.Some? then Joined(c.inFlight.value)
    else Started
  }

  function EnterCache<S, E>(c: Cache<S, E>, flight: nat, errorClock: int, snapshotClock: int): Cache<S, E> {
    if ErrorIsFresh(c, errorClock) then c
    else if SnapshotIsFresh(c, snapshotClock) then WithoutError(c)
    else
      var d := WithoutSnapshot(WithoutError(c));
      if d.inFlight.Some? then d else d.(inFlight := Some(flight))
  }

  function SettleOutcome<S, E>(guard: S -> Option<E>, result: ProbeResult<S>): Outcome<S, E> {
    if result.ProbeFailed? then Broken(result.message)
    else if !result.cacheable then Resolved(None)
    else if result.snapshot.Some? && guard(result.snapshot.value).Some? then Refused(guard(result.snapshot.value).value)
    else Resolved(result.snapshot)
  }

  function SettleCache<S, E>(c: Cache<S, E>, guard: S -> Option<E>, result: ProbeResult<S>, now: int): Cache<S, E> {
    if result.Probed? && result.cacheable && SettleOutcome(guard, result).Resolved? then
      c.(snapshot := Some(result.snapshot), snapshotCachedAt := Some(now))
    else c
  }

  function ResumeCache<S, E>(c: Cache<S, E>, outcome: Outcome<S, E>, now: int): Cache<S, E> {
    var d := if outcome.Refused? then c.(guardError := Some(outcome.error), guardErrorCachedAt := Some(now)) else c;
    d.(inFlight := None)
  }

  /** The cache object and the three stretches of code that write it. */
  class ProbeCache<S(==), E(==)> {
    var snapshot: Option<Option<S>>
    var snapshotCachedAt: Option<int>
    var inFlight: Option<nat>
    var contractGuardError: Option<E>
    var contractGuardErrorCachedAt: Option<int>

    constructor ()
      ensures Contents() == Cache(None, None, None, None, None)
    {
      snapshot, snapshotCachedAt, inFlight := None, None, None;
      contractGuardError, contractGuardErrorCachedAt := None, None;
    }

    function Contents(): Cache<S, E>
      reads this
    {
      Cache(snapshot, snapshotCachedAt, inFlight, contractGuardError, contractGuardErrorCachedAt)
    }

    method Enter(flight: nat, errorClock: int, snapshotClock: int) returns (answer: Answer<S, E>)
      modifies this
      ensures answer == EnterAnswer(old(Contents()), errorClock, snapshotClock)
      ensures Contents() == EnterCache(old(Contents()), flight, errorClock, snapshotClock)
    {
      if contractGuardError.Some? {
        if Fresh(contractGuardErrorCachedAt, errorClock, GUARD_ERROR_TTL_MS) {
          return Settled(Refused(contractGuardError.value));
        }
        contractGuardError, contractGuardErrorCachedAt := None, None;
      }
      if snapshot.Some? {
        if Fresh(snapshotCachedAt, snapshotClock, Ttl(snapshot.value)) {
          return Settled(Resolved(snapshot.value));
        }
        snapshot, snapshotCachedAt := None, None;
      }
      if inFlight.Some? {
        return Joined(inFlight.value);
      }
      inFlight := Some(flight);
      return Started;
    }

    method SettleProbe(guard: S -> Option<E>, result: ProbeResult<S>, now: int) returns (outcome: Outcome<S, E>)
      modifies this
      ensures outcome == SettleOutcome(guard, result)
      ensures Contents() == SettleCache(old(Contents()), guard, result, now)
    {
      if result.ProbeFailed? {
        return Broken(result.message);
      }
      if !result.cacheable {
        return Resolved(None);
      }
      if result.snapshot.Some? {
        var failure := guard(result.snapshot.value);
        if failure.Some? {
          return Refused(failure.value);
        }
      }
      snapshot, snapshotCachedAt := Some(result.snapshot), Some(now);
      return Resolved(result.snapshot);
    }

    method ResumeOwner(outcome: Outcome<S, E>, now: int)
      modifies this
      ensures Contents() == ResumeCache(old(Contents()), outcome, now)
    {
      if outcome.Refused? {
        contractGuardError, contractGuardErrorCachedAt := Some(outcome.error), Some(now);
      }
      inFlight := None;
    }
  }

  // ---- All interleavings ----

  /** A probe is under way, then settled with its owner not resumed yet, then over. */
  datatype Flight<S, E> = Probing | Landed(outcome: Outcome<S, E>) | Over(outcome: Outcome<S, E>)

  /** A caller is told an outcome at once, or shares that of a flight (its own or a joined one). */
  datatype Caller<S, E> = Told(outcome: Outcome<S, E>) | Shares(flight: nat)

  datatype World<S, E> = World(cache: Cache<S, E>, flights: seq<Flight<S, E>>, callers: seq<Caller<S, E>>)

  datatype Event<S> =
    | Call(errorClock: int, snapshotClock: int)
    | ProbeSettles(flight: nat, result: ProbeResult<S>, now: int)
    | OwnerResumes(flight: nat, now: int)

  function Init<S, E>(): World<S, E> {
    World(Cache(None, None, None, None, None), [], [])
  }

  function OnCall<S, E>(w: World<S, E>, errorClock: int, snapshotClock: int): World<S, E> {
    var f := |w.flights|;
    var cache := EnterCache(w.cache, f, errorClock, snapshotClock);
    match EnterAnswer(w.cache, errorClock, snapshotClock)
    case Settled(outcome) => World(cache, w.flights, w.callers + [Told(outcome)])
    case Joined(flight) => World(cache, w.flights, w.callers + [Shares(flight)])
    case Started => World(cache, w.flights + [Probing], w.callers + [Shares(f)])
  }

  predicate CanSettle<S, E>(w: World<S, E>, f: nat) {
    f < |w.flights| && w.flights[f].Probing?
  }

  predicate CanResume<S, E>(w: World<S, E>, f: nat) {
    f < |w.flights| && w.flights[f].Landed?
  }

  /** An event about a flight that is not at that point cannot happen and changes nothing. */
  function Step<S, E>(guard: S -> Option<E>, w: World<S, E>, e: Event<S>): World<S, E> {
    match e
    case Call(errorClock, snapshotClock) => OnCall(w, errorClock, snapshotClock)
    case ProbeSettles(f, result, now) =>
      if CanSettle(w, f) then
        w.(cache := SettleCache(w.cache, guard, result, now),
           flights := w.flights[f := Landed(SettleOutcome(guard, result))])
      else w
    case OwnerResumes(f, now) =>
      if CanResume(w, f) then
        w.(cache := ResumeCache(w.cache, w.flights[f].outcome, now),
           flights := w.flights[f := Over(w.flights[f].outcome)])
      else w
  }

  function Run<S, E>(guard: S -> Option<E>, w: World<S, E>, es: seq<Event<S>>): World<S, E> {
    if es == [] then w else Step(guard, Run(guard, w, es[..|es| - 1]), es[|es| - 1])
  }

  // ---- The invariant ----

  ghost predicate Acceptable<S(!new), E>(guard: S -> Option<E>, outcome: Outcome<S, E>) {
    match outcome
    case Resolved(snapshot) => snapshot.Some? ==> guard(snapshot.value).None?
    case Refused(error) => exists s :: guard(s) == Some(error)
    case Broken(_) => true
  }

  /** Every flight but the one in flight is over. */
  ghost predicate SingleFlight<S(!new), E>(w: World<S, E>) {
    && (w.cache.inFlight.Some? ==> w.cache.inFlight.value < |w.flights| && !w.flights[w.cache.inFlight.value].Over?)
    && forall f | 0 <= f < |w.flights| && !w.flights[f].Over? :: w.cache.inFlight == Some(f)
  }

  ghost predicate CacheIsSound<S(!new), E>(guard: S -> Option<E>, c: Cache<S, E>) {
    && (c.snapshot.Some? <==> c.snapshotCachedAt.Some?)
    && (c.guardError.Some? <==> c.guardErrorCachedAt.Some?)
    && !(c.snapshot.Some? && c.guardError.Some?)
    && (c.inFlight.Some? ==> c.guardError.None?)
    && (c.snapshot.Some? && c.snapshot.value.Some? ==> guard(c.snapshot.value.value).None?)
    && (c.guardError.Some? ==> exists s :: guard(s) == c.guardError)
  }

  /** While a probe is under way, or has landed anything but an accepted snapshot, nothing is cached. */
  ghost predicate NothingCachedInFlight<S(!new), E>(w: World<S, E>) {
    forall f | 0 <= f < |w.flights| && w.cache.snapshot.Some? ::
      !w.flights[f].Probing? && (w.flights[f].Landed? ==> w.flights[f].outcome.Resolved?)
  }

  ghost predicate FlightsAreSound<S(!new), E>(guard: S -> Option<E>, w: World<S, E>) {
    forall f | 0 <= f < |w.flights| && !w.flights[f].Probing? :: Acceptable(guard, w.flights[f].outcome)
  }

  ghost predicate CallersAreSound<S(!new), E>(guard: S -> Option<E>, w: World<S, E>) {
    forall k | 0 <= k < |w.callers| ::
      match w.callers[k]
      case Told(outcome) => Acceptable(guard, outcome)
      case Shares(f) => f < |w.flights|
  }

  ghost predicate Sound<S(!new), E>(guard: S -> Option<E>, w: World<S, E>) {
    && SingleFlight(w) && CacheIsSound(guard, w.cache) && NothingCachedInFlight(w)
    && FlightsAreSound(guard, w) && CallersAreSound(guard, w)
  }

  lemma {:induction false} SettledOutcomeIsAcceptable<S(!new), E>(guard: S -> Option<E>, result: ProbeResult<S>)
    ensures Acceptable(guard, SettleOutcome(guard, result))
  {
    if result.Probed? && result.snapshot.Some? && guard(result.snapshot.value).Some? {
      var s := result.snapshot.value;
      assert guard(s) == Some(guard(s).value);
    }
  }

  lemma {:induction false} CallKeepsSound<S(!new), E>(guard: S -> Option<E>, w: World<S, E>, errorClock: int,
                                            snapshotClock: int)
    requires Sound(guard, w)
    ensures Sound(guard, OnCall(w, errorClock, snapshotClock))
  {
    var v := OnCall(w, errorClock, snapshotClock);
    assert CacheIsSound(guard, v.cache);
    assert SingleFlight(v);
    assert NothingCachedInFlight(v);
    assert FlightsAreSound(guard, v);
    assert CallersAreSound(guard, v) by {
      if EnterAnswer(w.cache, errorClock, snapshotClock).Settled? {
        assert Acceptable(guard, EnterAnswer(w.cache, errorClock, snapshotClock).outcome);
      }
    }
  }

  lemma {:induction false} SettlingKeepsSound<S(!new), E>(guard: S -> Option<E>, w: World<S, E>, f: nat,
                                                result: ProbeResult<S>, now: int)
    requires Sound(guard, w) && CanSettle(w, f)
    ensures Sound(guard, Step(guard, w, ProbeSettles(f, result, now)))
  {
    SettledOutcomeIsAcceptable(guard, result);
    var v := Step(guard, w, ProbeSettles(f, result, now));
    assert w.cache.inFlight == Some(f);
    assert CacheIsSound(guard, v.cache);
    assert SingleFlight(v);
    assert NothingCachedInFlight(v);
  }

  lemma {:induction false} ResumingKeepsSound<S(!new), E>(guard: S -> Option<E>, w: World<S, E>, f: nat, now: int)
    requires Sound(guard, w) && CanResume(w, f)
    ensures Sound(guard, Step(guard, w, OwnerResumes(f, now)))
  {
    var v := Step(guard, w, OwnerResumes(f, now));
    assert w.cache.inFlight == Some(f) && Acceptable(guard, w.flights[f].outcome);
    assert CacheIsSound(guard, v.cache);
    assert SingleFlight(v);
  }

  lemma {:induction false} StepKeepsSound<S(!new), E>(guard: S -> Option<E>, w: World<S, E>, e: Event<S>)
    requires Sound(guard, w)
    ensures Sound(guard, Step(guard, w, e))
  {
    match e
    case Call(errorClock, snapshotClock) => CallKeepsSound(guard, w, errorClock, snapshotClock);
    case ProbeSettles(f, result, now) => if CanSettle(w, f) { SettlingKeepsSound(guard, w, f, result, now); }
    case OwnerResumes(f, now) => if CanResume(w, f) { ResumingKeepsSound(guard, w, f, now); }
  }

  lemma {:induction false} RunIsSound<S(!new), E>(guard: S -> Option<E>, es: seq<Event<S>>)
    ensures Sound(guard, Run(guard, Init<S, E>(), es))
    decreases |es|
  {
    if es != [] {
      RunIsSound(guard, es[..|es| - 1]);
      StepKeepsSound(guard, Run(guard, Init<S, E>(), es[..|es| - 1]), es[|es| - 1]);
    }
  }

  // ---- What callers can rely on ----

  /** In every interleaving at most one probe is under way. */
  lemma {:induction false} AtMostOneProbe<S(!new), E>(guard: S -> Option<E>, es: seq<Event<S>>, f: nat, g: nat)
    requires CanSettle(Run(guard, Init<S, E>(), es), f) && CanSettle(Run(guard, Init<S, E>(), es), g)
    ensures f == g
  {
    RunIsSound<S, E>(guard, es);
  }

  /** The outcome a caller has received or will receive, once it is decided. */
  function Received<S(!new), E>(w: World<S, E>, k: nat): Option<Outcome<S, E>>
    requires k < |w.callers|
  {
    match w.callers[k]
    case Told(outcome) => Some(outcome)
    case Shares(f) => if f < |w.flights| && !w.flights[f].Probing? then Some(w.flights[f].outcome) else None
  }

  /** No caller is ever handed a snapshot that fails a guard, nor an error that no snapshot caused. */
  lemma {:induction false} OnlyGuardedOutcomesAreReceived<S(!new), E>(guard: S -> Option<E>, es: seq<Event<S>>, k: nat)
    requires k < |Run(guard, Init<S, E>(), es).callers|
    ensures var r := Received(Run(guard, Init<S, E>(), es), k);
            r.Some? ==> Acceptable(guard, r.value)
  {
    RunIsSound<S, E>(guard, es);
  }

  /** A guard error is fresh for less than five seconds. */
  ghost predicate ErrorInTime<S, E>(c: Cache<S, E>, now: int) {
    c.guardError.Some? && c.guardErrorCachedAt.Some? && now - c.guardErrorCachedAt.value < 5_000
  }

  /** A snapshot is fresh for less than a minute, a null one for less than five seconds. */
  ghost predicate SnapshotInTime<S, E>(c: Cache<S, E>, now: int) {
    c.snapshot.Some? && c.snapshotCachedAt.Some?
    && now - c.snapshotCachedAt.value < if c.snapshot.value.None? then 5_000 else 60_000
  }

  /**
  What a call gets: the cached error while it is fresh, else the cached snapshot while that is, else a share in the
  probe under way; it starts a probe exactly when there is none of these.
  */
  lemma {:induction false} ProbesStartOnlyWhenNeeded<S(!new), E>(guard: S -> Option<E>, w: World<S, E>,
                                                       errorClock: int, snapshotClock: int)
    requires Sound(guard, w)
    ensures var v, n := OnCall(w, errorClock, snapshotClock), |w.callers|;
            && |v.callers| == n + 1 && v.callers[..n] == w.callers
            && (ErrorInTime(w.cache, errorClock) ==>
                  v == w.(callers := v.callers) && v.callers[n] == Told(Refused(w.cache.guardError.value)))
            && (SnapshotInTime(w.cache, snapshotClock) ==>
                  v == w.(callers := v.callers) && v.callers[n] == Told(Resolved(w.cache.snapshot.value)))
            && (!ErrorInTime(w.cache, errorClock) && !SnapshotInTime(w.cache, snapshotClock) ==>
                  && v.cache.guardError.None? && v.cache.snapshot.None?
                  && (w.cache.inFlight.Some? ==>
                        v.flights == w.flights && v.callers[n] == Shares(w.cache.inFlight.value)
                        && v.cache.inFlight == w.cache.inFlight)
                  && (w.cache.inFlight.None? ==>
                        v.flights == w.flights + [Probing] && v.callers[n] == Shares(|w.flights|)
                        && v.cache.inFlight == Some(|w.flights|)))
  {
    if SnapshotIsFresh(w.cache, snapshotClock) {
      assert w.cache.guardError.None?;
    }
  }

  // ---- What a probe's result does ----

  /**
  What those who share a probe get: nothing when it may not be cached, the snapshot when that is null or the guard
  passes it, the guard's error when it does not, and the failure of a probe that failed.
  */
  ghost predicate OutcomeOf<S, E>(guard: S -> Option<E>, result: ProbeResult<S>, outcome: Outcome<S, E>) {
    match result
    case ProbeFailed(message) => outcome == Broken(message)
    case Probed(None, _) => outcome == Resolved(None)
    case Probed(Some(s), cacheable) =>
      if !cacheable then outcome == Resolved(None)
      else if guard(s) == None then outcome == Resolved(Some(s))
      else outcome == Refused(guard(s).value)
  }

  /** What is cached once the probe has settled: an accepted snapshot with the time, and nothing else changes. */
  ghost predicate CachedBy<S, E>(guard: S -> Option<E>, result: ProbeResult<S>, now: int, c: Cache<S, E>,
                                 d: Cache<S, E>) {
    if result.Probed? && result.cacheable && (result.snapshot.Some? ==> guard(result.snapshot.value) == None) then
      d == c.(snapshot := Some(result.snapshot), snapshotCachedAt := Some(now))
    else d == c
  }

  lemma {:induction false} SettlingTells<S(!new), E>(guard: S -> Option<E>, w: World<S, E>, f: nat,
                                                     result: ProbeResult<S>, now: int)
    requires CanSettle(w, f)
    ensures var v := Step(guard, w, ProbeSettles(f, result, now));
            && f < |v.flights| && !v.flights[f].Probing? && OutcomeOf(guard, result, v.flights[f].outcome)
            && CachedBy(guard, result, now, w.cache, v.cache) && v.callers == w.callers
  {
  }

  lemma {:induction false} OutcomesStay<S(!new), E>(guard: S -> Option<E>, w: World<S, E>, e: Event<S>, f: nat)
    requires f < |w.flights| && !w.flights[f].Probing?
    ensures var v := Step(guard, w, e);
            f < |v.flights| && !v.flights[f].Probing? && v.flights[f].outcome == w.flights[f].outcome
  {
  }

  lemma {:induction false} DecidedOnceForAll<S(!new), E>(guard: S -> Option<E>, es: seq<Event<S>>, n: nat)
    requires n < |es| && es[n].ProbeSettles? && CanSettle(Run(guard, Init<S, E>(), es[..n]), es[n].flight)
    ensures var v := Run(guard, Init<S, E>(), es);
            && es[n].flight < |v.flights| && !v.flights[es[n].flight].Probing?
            && OutcomeOf(guard, es[n].result, v.flights[es[n].flight].outcome)
    decreases |es|
  {
    var before, e := es[..|es| - 1], es[|es| - 1];
    if n == |es| - 1 {
      SettlingTells(guard, Run(guard, Init<S, E>(), before), e.flight, e.result, e.now);
    } else {
      assert before[..n] == es[..n] && before[n] == es[n];
      DecidedOnceForAll<S, E>(guard, before, n);
      OutcomesStay(guard, Run(guard, Init<S, E>(), before), e, es[n].flight);
    }
  }

  /**
  In every interleaving, whoever shares a probe has received, from the event that settled it on, what its result says;
  and an accepted snapshot is cached by that very event.
  */
  lemma {:induction false} SharersGetTheResult<S(!new), E>(guard: S -> Option<E>, es: seq<Event<S>>, n: nat, k: nat)
    requires n < |es| && es[n].ProbeSettles? && CanSettle(Run(guard, Init<S, E>(), es[..n]), es[n].flight)
    requires k < |Run(guard, Init<S, E>(), es).callers|
    requires Run(guard, Init<S, E>(), es).callers[k] == Shares(es[n].flight)
    ensures var r := Received(Run(guard, Init<S, E>(), es), k);
            r.Some? && OutcomeOf(guard, es[n].result, r.value)
    ensures CachedBy(guard, es[n].result, es[n].now, Run(guard, Init<S, E>(), es[..n]).cache,
                     Run(guard, Init<S, E>(), es[..n + 1]).cache)
  {
    DecidedOnceForAll<S, E>(guard, es, n);
    assert es[..n + 1][..n] == es[..n] && es[..n + 1][n] == es[n];
    SettlingTells(guard, Run(guard, Init<S, E>(), es[..n]), es[n].flight, es[n].result, es[n].now);
  }

  /** The owner, once resumed, remembers a guard's error with the time and ends the flight; nothing else changes. */
  lemma {:induction false} OwnersRememberErrors<S(!new), E>(guard: S -> Option<E>, w: World<S, E>, f: nat, now: int)
    requires CanResume(w, f)
    ensures var v := Step(guard, w, OwnerResumes(f, now));
            && v.cache.inFlight == None && v.callers == w.callers
            && v.cache.snapshot == w.cache.snapshot && v.cache.snapshotCachedAt == w.cache.snapshotCachedAt
            && (match w.flights[f].outcome
                case Refused(error) =>
                  v.cache.guardError == Some(error) && v.cache.guardErrorCachedAt == Some(now)
                case _ =>
                  v.cache.guardError == w.cache.guardError && v.cache.guardErrorCachedAt == w.cache.guardErrorCachedAt)
  {
  }

  /** Everyone who calls while a probe is under way shares its outcome. */
  lemma {:induction false} CallersShareTheFlight<S(!new), E>(guard: S -> Option<E>, w: World<S, E>, f: nat,
                                                   errorClock: int, snapshotClock: int)
    requires Sound(guard, w) && CanSettle(w, f)
    ensures OnCall(w, errorClock, snapshotClock) == w.(callers := w.callers + [Shares(f)])
  {
    assert w.cache.inFlight == Some(f) && w.cache.snapshot.None? && w.cache.guardError.None?;
  }

  /** The flight and the outcome of each cached value: when it was stored and by which event. */
  ghost predicate Sourced<S(!new), E>(guard: S -> Option<E>, es: seq<Event<S>>, c: Cache<S, E>) {
    && (c.snapshot.Some? && c.snapshotCachedAt.Some? ==>
          StoredBy(es, c.snapshot.value, c.snapshotCachedAt.value))
    && (c.guardErrorCachedAt.Some? ==> ResumedAt(es, c.guardErrorCachedAt.value))
  }

  ghost predicate StoredBy<S(!new)>(es: seq<Event<S>>, snapshot: Option<S>, now: int) {
    exists f :: ProbeSettles(f, Probed(snapshot, true), now) in es
  }

  ghost predicate ResumedAt<S(!new)>(es: seq<Event<S>>, now: int) {
    exists f :: OwnerResumes(f, now) in es
  }

  /**
  Whatever is cached was brought by a probe that allowed caching, and carries the time it was stored at:
  an uncacheable or failed probe leaves no trace in the cache.
  */
  lemma {:induction false} CachedValuesHaveASource<S(!new), E>(guard: S -> Option<E>, es: seq<Event<S>>)
    ensures Sourced(guard, es, Run(guard, Init<S, E>(), es).cache)
    decreases |es|
  {
    if es != [] {
      var before, e := es[..|es| - 1], es[|es| - 1];
      CachedValuesHaveASource<S, E>(guard, before);
      var w := Run(guard, Init<S, E>(), before);
      LaterEventsKeepSources(guard, before, e, w.cache);
      assert es == before + [e] && e in es;
      if e.ProbeSettles? && CanSettle(w, e.flight) && SettleCache(w.cache, guard, e.result, e.now) != w.cache {
        assert e == ProbeSettles(e.flight, Probed(e.result.snapshot, true), e.now);
      }
    }
  }

  lemma {:induction false} LaterEventsKeepSources<S(!new), E>(guard: S -> Option<E>, es: seq<Event<S>>,
                                                    e: Event<S>, c: Cache<S, E>)
    requires Sourced(guard, es, c)
    ensures Sourced(guard, es + [e], c)
  {
    if c.snapshot.Some? && c.snapshotCachedAt.Some? {
      var f :| ProbeSettles(f, Probed(c.snapshot.value, true), c.snapshotCachedAt.value) in es;
      assert ProbeSettles(f, Probed(c.snapshot.value, true), c.snapshotCachedAt.value) in es + [e];
    }
    if c.guardErrorCachedAt.Some? {
      var f :| OwnerResumes(f, c.guardErrorCachedAt.value) in es;
      assert OwnerResumes(f, c.guardErrorCachedAt.value) in es + [e];
    }
  }

  ghost predicate CallsBefore<S(!new)>(es: seq<Event<S>>, deadline: int) {
    forall e | e in es && e.Call? :: e.errorClock < deadline
  }

  /**
  A guard error sticks: for as long as every call comes within its lifetime, whatever else happens, no probe starts,
  the error stays, and all of those callers are refused with it.
  */
  lemma {:induction false} GuardErrorsStick<S(!new), E>(guard: S -> Option<E>, w: World<S, E>, es: seq<Event<S>>)
    requires Sound(guard, w) && w.cache.guardError.Some?
    requires CallsBefore(es, w.cache.guardErrorCachedAt.value + 5_000)
    ensures var v := Run(guard, w, es);
            && v.cache == w.cache && v.flights == w.flights && |v.callers| >= |w.callers|
            && forall k | |w.callers| <= k < |v.callers| :: v.callers[k] == Told(Refused(w.cache.guardError.value))
    decreases |es|
  {
    if es != [] {
      assert es[|es| - 1] in es;
      assert CallsBefore(es[..|es| - 1], w.cache.guardErrorCachedAt.value + 5_000);
      GuardErrorsStick(guard, w, es[..|es| - 1]);
    }
  }

  function Lifetime<S>(snapshot: Option<S>): int {
    match snapshot
    case None => 5_000
    case Some(_) => 60_000
  }

  ghost predicate SnapshotCallsBefore<S(!new)>(es: seq<Event<S>>, deadline: int) {
    forall e | e in es && e.Call? :: e.snapshotClock < deadline
  }

  /** What a cached snapshot is worth: it is still cached, no probe has started, and all new callers were told it. */
  ghost predicate SnapshotKept<S(!new), E>(w: World<S, E>, v: World<S, E>) {
    && v.cache.snapshot == w.cache.snapshot && v.cache.snapshotCachedAt == w.cache.snapshotCachedAt
    && v.cache.guardError.None?
    && |v.flights| == |w.flights| && |v.callers| >= |w.callers|
    && w.cache.snapshot.Some?
    && (forall k | 0 <= k < |w.callers| :: v.callers[k] == w.callers[k])
    && forall k | |w.callers| <= k < |v.callers| :: v.callers[k] == Told(Resolved(w.cache.snapshot.value))
  }

  lemma {:induction false} StepKeepsSnapshot<S(!new), E>(guard: S -> Option<E>, w: World<S, E>, v: World<S, E>,
                                                         e: Event<S>)
    requires Sound(guard, w) && Sound(guard, v) && SnapshotKept(w, v)
    requires e.Call? ==> e.snapshotClock < w.cache.snapshotCachedAt.value + Lifetime(w.cache.snapshot.value)
    ensures SnapshotKept(w, Step(guard, v, e))
  {
    match e
    case Call(errorClock, snapshotClock) =>
      assert SnapshotIsFresh(v.cache, snapshotClock);
    case ProbeSettles(f, result, now) =>
      assert !CanSettle(v, f);
    case OwnerResumes(f, now) =>
      if CanResume(v, f) {
        assert v.flights[f].outcome.Resolved?;
      }
  }

  /**
  A snapshot sticks as well: for as long as every call comes within its lifetime, whatever else happens, no probe
  starts, the snapshot stays with the time it was stored at, and all of those callers are told it at once.
  */
  lemma {:induction false} SnapshotsStick<S(!new), E>(guard: S -> Option<E>, w: World<S, E>, es: seq<Event<S>>)
    requires Sound(guard, w) && w.cache.snapshot.Some?
    requires SnapshotCallsBefore(es, w.cache.snapshotCachedAt.value + Lifetime(w.cache.snapshot.value))
    ensures Sound(guard, Run(guard, w, es)) && SnapshotKept(w, Run(guard, w, es))
    decreases |es|
  {
    if es != [] {
      var before, e := es[..|es| - 1], es[|es| - 1];
      assert e in es;
      assert SnapshotCallsBefore(before, w.cache.snapshotCachedAt.value + Lifetime(w.cache.snapshot.value));
      SnapshotsStick(guard, w, before);
      StepKeepsSound(guard, Run(guard, w, before), e);
      StepKeepsSnapshot(guard, w, Run(guard, w, before), e);
    }
  }

  function ContractGuard(c: Contract.Contract): Contract.Snapshot -> Option<Contract.GuardError> {
    s => Contract.Guard(c, s)
  }

  /**
  With the contract's own guards: in every interleaving, a snapshot handed to anyone that states a version conforms.
  */
  lemma {:induction false} ReceivedSnapshotsConform(c: Contract.Contract, es: seq<Event<Contract.Snapshot>>, k: nat)
    requires Contract.ParseVersion(c.minimumVersion).Some?
    requires k < |Run(ContractGuard(c), Init<Contract.Snapshot, Contract.GuardError>(), es).callers|
    ensures var r := Received(Run(ContractGuard(c), Init<Contract.Snapshot, Contract.GuardError>(), es), k);
            r.Some? && r.value.Resolved? && r.value.snapshot.Some? && Contract.HasVersion(r.value.snapshot.value) ==>
              Contract.AtLeastMinimum(c, r.value.snapshot.value.contractVersion) &&
                  Contract.Conforms(c, r.value.snapshot.value)
  {
    var w := Run(ContractGuard(c), Init<Contract.Snapshot, Contract.GuardError>(), es);
    OnlyGuardedOutcomesAreReceived<Contract.Snapshot, Contract.GuardError>(ContractGuard(c), es, k);
    var r := Received(w, k);
    if r.Some? && r.value.Resolved? && r.value.snapshot.Some? {
      Contract.GuardPassesExactlyConforming(c, r.value.snapshot.value);
    }
  }
}
