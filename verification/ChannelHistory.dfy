/** What the diagnostics of an event channel say about the events of that channel. */
module ChannelHistory {
  import opened EventChannels
  import opened Options
  import Text

  /** What the last event of the channel that gives anything gives. */
  function Latest<T>(es: seq<Event>, id: string, gives: Event -> Option<T>): Option<T> {
    if es == [] then None
    else
      var e := es[|es| - 1];
      if e.id == id && gives(e).Some? then gives(e) else Latest(es[..|es| - 1], id, gives)
  }

  ghost predicate IsLastOf(es: seq<Event>, id: string, k: nat) {
    k < |es| && es[k].id == id && forall l | k < l < |es| :: es[l].id != id
  }

  ghost predicate IsFirstOf(es: seq<Event>, id: string, k: nat) {
    k < |es| && es[k].id == id && forall l | 0 <= l < k :: es[l].id != id
  }

  function GivenTransport(e: Event): Option<Transport> {
    e.options.transport
  }

  function GivenRetryAttempt(e: Event): Option<int> {
    e.options.retryAttempt
  }

  /** Opening a channel clears its delay and its error unless they are given. */
  function GivenRetryDelay(e: Event): Option<Option<int>> {
    if e.options.retryDelayMs.Some? then e.options.retryDelayMs else if e.status == Open then Some(None) else None
  }

  function GivenError(e: Event): Option<Option<string>> {
    if e.options.lastError.Some? then e.options.lastError else if e.status == Open then Some(None) else None
  }

  ghost predicate IsReason(given: Option<string>, reason: Option<string>) {
    match given
    case None => reason == None
    case Some(text) => reason == if Text.Trim(text) == "" then None else Some(Text.Trim(text))
  }

  /** The parts of the diagnostics that the last event alone decides. */
  ghost predicate SaysOf(c: Channel, e: Event) {
    c.labelText == e.labelText && c.status == e.status && c.updatedAt == e.updateClock
    && IsReason(e.options.reason, c.lastTransitionReason)
  }

  /** The parts that keep what an earlier event gave. */
  ghost predicate Remembers(c: Channel, es: seq<Event>, id: string) {
    && c.retryAttempt == (match Latest(es, id, GivenRetryAttempt) case Some(n) => n case None => 0)
    && c.retryDelayMs == (match Latest(es, id, GivenRetryDelay) case Some(delay) => delay case None => None)
    && c.lastError == (match Latest(es, id, GivenError) case Some(error) => error case None => None)
  }

  lemma {:induction false} ChannelsExistExactly(es: seq<Event>, id: string)
    ensures id in Run(es).channels <==> exists k | 0 <= k < |es| :: es[k].id == id
    decreases |es|
  {
    if es != [] {
      ChannelsExistExactly(es[..|es| - 1], id);
      if k :| 0 <= k < |es| && es[k].id == id && k < |es| - 1 {
        assert es[..|es| - 1][k].id == id;
      }
    }
  }

  lemma {:induction false} NothingYet<T>(es: seq<Event>, id: string, gives: Event -> Option<T>)
    requires forall k | 0 <= k < |es| :: es[k].id != id
    ensures Latest(es, id, gives) == None
  {
    if es != [] {
      NothingYet(es[..|es| - 1], id, gives);
    }
  }

  lemma {:induction false} LastEventSays(es: seq<Event>, id: string, k: nat)
    requires IsLastOf(es, id, k)
    ensures id in Run(es).channels && SaysOf(Run(es).channels[id], es[k])
    decreases |es|
  {
    if k < |es| - 1 {
      LastEventSays(es[..|es| - 1], id, k);
    }
  }

  /** What the diagnostics keep of the previous ones unless the event gives it. */
  ghost predicate Carries(previous: Option<Channel>, e: Event, c: Channel) {
    && c.retryAttempt == (match GivenRetryAttempt(e)
                          case Some(n) => n
                          case None => if previous.Some? then previous.value.retryAttempt else 0)
    && c.retryDelayMs == (match GivenRetryDelay(e)
                          case Some(delay) => delay
                          case None => if previous.Some? then previous.value.retryDelayMs else None)
    && c.lastError == (match GivenError(e)
                       case Some(error) => error
                       case None => if previous.Some? then previous.value.lastError else None)
  }

  lemma {:induction false} UpdatesCarry(previous: Option<Channel>, e: Event)
    ensures Carries(previous, e, Updated(previous, e))
  {
  }

  lemma {:induction false} LatestOneMore<T>(before: seq<Event>, e: Event, gives: Event -> Option<T>)
    ensures Latest(before + [e], e.id, gives) == if gives(e).Some? then gives(e) else Latest(before, e.id, gives)
  {
    assert (before + [e])[..|before|] == before;
  }

  lemma {:induction false} StepRemembers(previous: Option<Channel>, before: seq<Event>, e: Event, c: Channel)
    requires if previous.Some? then Remembers(previous.value, before, e.id)
             else forall k | 0 <= k < |before| :: before[k].id != e.id
    requires Carries(previous, e, c)
    ensures Remembers(c, before + [e], e.id)
  {
    LatestOneMore(before, e, GivenRetryAttempt);
    LatestOneMore(before, e, GivenRetryDelay);
    LatestOneMore(before, e, GivenError);
    if previous.None? {
      NothingYet(before, e.id, GivenRetryAttempt);
      NothingYet(before, e.id, GivenRetryDelay);
      NothingYet(before, e.id, GivenError);
    }
  }

  /** Retries, delay and error are those last given for the channel, since it was last open for the latter two. */
  lemma {:induction false} ChannelsRemember(es: seq<Event>, id: string)
    requires id in Run(es).channels
    ensures Remembers(Run(es).channels[id], es, id)
    decreases |es|
  {
    if es != [] {
      var before, e := es[..|es| - 1], es[|es| - 1];
      if id in Run(before).channels {
        ChannelsRemember(before, id);
      }
      if e.id == id {
        ChannelsExistExactly(before, id);
        assert before + [e] == es;
        UpdatesCarry(Previous(Run(before), id), e);
        StepRemembers(Previous(Run(before), id), before, e, Run(es).channels[id]);
      }
    }
  }

  /** The transport is the one last given, and the default of the channel's first event if none was. */
  lemma {:induction false} TransportIsLastGiven(es: seq<Event>, id: string, k: nat)
    requires IsFirstOf(es, id, k)
    ensures id in Run(es).channels
    ensures Run(es).channels[id].transport ==
            match Latest(es, id, GivenTransport) case Some(t) => t case None => es[k].defaultTransport
    decreases |es|
  {
    var before, e := es[..|es| - 1], es[|es| - 1];
    if k < |es| - 1 {
      assert before[k] == es[k];
      TransportIsLastGiven(before, id, k);
    } else {
      NothingYet(before, id, GivenTransport);
      ChannelsExistExactly(before, id);
    }
  }

  // ---- The last fallback ----

  /** Event k was the last to enter or leave fallback. */
  ghost predicate IsLastMove(es: seq<Event>, k: nat) {
    && k < |es| && (Enters(es, k, Fallback) || Leaves(es, k, Fallback))
    && forall l: nat | k < l < |es| :: !Enters(es, l, Fallback) && !Leaves(es, l, Fallback)
  }

  /** The reason recorded: the given one, else the channel's id, else a word for neither. */
  ghost predicate IsRecorded(e: Event, reason: string) {
    if e.options.reason.Some? && Text.Trim(e.options.reason.value) != "" then
      reason == Text.Trim(e.options.reason.value)
    else if Text.Trim(e.id) != "" then reason == Text.Trim(e.id)
    else reason == "unknown"
  }

  lemma {:induction false} MovesChange(w: World, e: Event)
    ensures var m, n, was := w.metrics, Step(w, e).metrics, Was(Previous(w, e.id), Fallback);
            && (e.status == Fallback && !was ==>
                  n.lastFallbackReason.Some? && IsRecorded(e, n.lastFallbackReason.value)
                  && n.lastFallbackDurationMs == None)
            && (e.status != Fallback && was ==> n.lastFallbackReason == m.lastFallbackReason)
            && ((e.status == Fallback <==> was) ==>
                  n.lastFallbackReason == m.lastFallbackReason && n.lastFallbackDurationMs == m.lastFallbackDurationMs)
  {
  }

  lemma {:induction false} EarlierMoves(es: seq<Event>, k: nat)
    requires es != [] && k < |es| - 1
    ensures Enters(es[..|es| - 1], k, Fallback) == Enters(es, k, Fallback)
    ensures Leaves(es[..|es| - 1], k, Fallback) == Leaves(es, k, Fallback)
  {
    assert es[..|es| - 1][..k] == es[..k];
  }

  /** After an entry the shared record names that entry's reason and no duration, until the next move. */
  lemma {:induction false} RecordIsOfTheLastEntry(es: seq<Event>, k: nat)
    requires IsLastMove(es, k) && Enters(es, k, Fallback)
    ensures var m := Run(es).metrics;
            && m.lastFallbackReason.Some? && IsRecorded(es[k], m.lastFallbackReason.value)
            && m.lastFallbackDurationMs == None
    decreases |es|
  {
    var before, e := es[..|es| - 1], es[|es| - 1];
    StatusIsThatOfTheLastEvent(before, e.id);
    MovesChange(Run(before), e);
    if k < |es| - 1 {
      forall l: nat | k <= l < |es| - 1
        ensures Enters(before, l, Fallback) == Enters(es, l, Fallback)
        ensures Leaves(before, l, Fallback) == Leaves(es, l, Fallback)
      {
        EarlierMoves(es, l);
      }
      RecordIsOfTheLastEntry(before, k);
      assert !Enters(es, |es| - 1, Fallback) && !Leaves(es, |es| - 1, Fallback);
    }
  }
}
