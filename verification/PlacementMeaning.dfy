/** What placing a task says about the backends and the request, without the functions that compute it. */
module PlacementMeaning {
  import opened Options
  import opened Placement
  import Ordering
  import Text

  // ---- Who is a candidate ----

  /** Equal, or the two cases of one ASCII letter. */
  predicate SameLetter(a: char, b: char) {
    || a == b
    || ('A' <= a <= 'Z' && b as int == a as int + 32)
    || ('A' <= b <= 'Z' && a as int == b as int + 32)
  }

  predicate SameName(a: string, b: string) {
    |a| == |b| && forall i | 0 <= i < |a| :: SameLetter(a[i], b[i])
  }

  /** Every required capability is one of the backend's, up to the case of ASCII letters. */
  ghost predicate OffersAll(b: Backend, required: seq<string>) {
    forall r | r in required :: Offers(b, r)
  }

  ghost predicate Offers(b: Backend, required: string) {
    exists c | c in b.capabilities :: SameName(c, required)
  }

  /** The larger of the tasks counted for the backend, if any were, and those it publishes itself. */
  ghost predicate IsLoad(b: Backend, counts: map<string, nat>, load: nat) {
    && load >= b.runningTasks && (b.backendId in counts ==> load >= counts[b.backendId])
    && (load == b.runningTasks || (b.backendId in counts && load == counts[b.backendId]))
  }

  lemma {:induction false} LettersLower(a: char, b: char)
    ensures ToLower([a]) == ToLower([b]) <==> SameLetter(a, b)
  {
    assert ToLower([a])[0] == ToLower([b])[0] <==> ToLower([a]) == ToLower([b]);
  }

  lemma {:induction false} NamesLower(a: string, b: string)
    ensures ToLower(a) == ToLower(b) <==> SameName(a, b)
  {
    forall i | 0 <= i < |a| && i < |b| ensures ToLower(a)[i] == ToLower(b)[i] <==> SameLetter(a[i], b[i]) {
      LettersLower(a[i], b[i]);
      assert ToLower(a)[i] == ToLower([a[i]])[0] && ToLower(b)[i] == ToLower([b[i]])[0];
    }
  }

  lemma {:induction false} CapabilitiesAreOffered(b: Backend, required: seq<string>)
    ensures HasCapabilities(b, required) <==> OffersAll(b, required)
  {
    forall r, c ensures ToLower(c) == ToLower(r) <==> SameName(c, r) {
      NamesLower(c, r);
    }
    forall r ensures (exists c | c in b.capabilities :: ToLower(c) == ToLower(r)) <==> Offers(b, r) {
    }
  }

  /**
  The candidates are exactly the stored backends that offer everything required and are found eligible under their
  load, each with that assessment.
  */
  lemma {:induction false} CandidatesAreExactly(ids: seq<string>, store: map<string, Backend>, required: seq<string>,
                                                counts: map<string, nat>, assess: (Backend, nat) -> Assessment,
                                                c: Candidate)
    requires Keyed(store) && Enumerates(ids, store)
    ensures c in Eligible(ids, store, required, counts, assess) <==>
            && c.backend.backendId in store && store[c.backend.backendId] == c.backend
            && OffersAll(c.backend, required) && c.assessment.placementEligible
            && exists load: nat :: IsLoad(c.backend, counts, load) && c.assessment == assess(c.backend, load)
  {
    EligibleAre(ids, store, required, counts, assess, c);
    CapabilitiesAreOffered(c.backend, required);
    assert IsLoad(c.backend, counts, ActiveTasks(c.backend, counts));
    assert forall load: nat | IsLoad(c.backend, counts, load) :: load == ActiveTasks(c.backend, counts);
  }

  // ---- What a candidate scores ----

  /** The number of whole units that count: at most the limit. */
  predicate IsCapped(units: int, amount: U64, limit: nat) {
    units <= amount && units <= limit && (units == amount || units == limit)
  }

  /** The nearest whole number, away from zero in the middle. */
  predicate IsRounded(n: int, x: real) {
    if x >= 0.0 then x - 0.5 < n as real <= x + 0.5 else x - 0.5 <= n as real < x + 0.5
  }

  ghost predicate ScoresOnce(b: Backend, a: Assessment, context: Context, s: Breakdown) {
    && s.backendId == b.backendId
    && s.preference == (if b.backendId in context.preferred then 1000 else 0)
    && s.resume == (if context.resumeBackendId == Some(b.backendId) then 300 else 0)
    && s.readiness == (if a.state == "ready" then 180 else 60)
    && (exists slots :: IsCapped(slots, a.availableSlots, 8) && s.capacity == slots * 25)
    && (exists queued :: IsCapped(queued, b.queueDepth, 20) && s.queuePenalty == -(queued * 15))
    && (exists failed :: IsCapped(failed, b.failures, 20) && s.failurePenalty == -(failed * 20))
    && IsRounded(s.health, b.healthScore * 100.0)
    && s.total == s.preference + s.resume + s.readiness + s.latency + s.capacity + s.queuePenalty + s.failurePenalty
                  + s.health
  }

  ghost predicate IsLatencyScore(latencyClass: string, points: int) {
    && (latencyClass == "local" ==> points == 80)
    && (latencyClass == "interactive" ==> points == 60)
    && (latencyClass == "regional" ==> points == 35)
    && (latencyClass == "standard" ==> points == 20)
    && (latencyClass == "cross-region" ==> points == 0)
    && (points == 80 || points == 60 || points == 35 || points == 20 || points == 0 || points == 10)
    && (points == 10 <==> latencyClass != "local" && latencyClass != "interactive" && latencyClass != "regional"
                          && latencyClass != "standard" && latencyClass != "cross-region")
  }

  lemma {:induction false} LatencyClassesDiffer()
    ensures "local" != "interactive" && "local" != "regional" && "local" != "standard" && "local" != "cross-region"
    ensures "interactive" != "regional" && "interactive" != "standard" && "interactive" != "cross-region"
    ensures "regional" != "standard" && "regional" != "cross-region" && "standard" != "cross-region"
  {
    assert "local"[0] == 'l' && "interactive"[0] == 'i' && "regional"[0] == 'r' && "standard"[0] == 's';
    assert "cross-region"[0] == 'c';
  }

  lemma {:induction false} LatencyMeans(latencyClass: string)
    ensures IsLatencyScore(latencyClass, LatencyScore(latencyClass))
  {
    LatencyClassesDiffer();
  }

  lemma {:induction false} RoundingIsNearest(x: real)
    ensures IsRounded(Round(x), x)
  {
  }

  /** The points of a candidate, one by one, and their sum. */
  lemma {:induction false} ScoresMean(b: Backend, a: Assessment, context: Context)
    ensures ScoresOnce(b, a, context, Score(b, a, context))
    ensures IsLatencyScore(b.latencyClass, Score(b, a, context).latency)
  {
    LatencyMeans(b.latencyClass);
    RoundingIsNearest(b.healthScore * 100.0);
    assert IsCapped(Min(ToI64(a.availableSlots), 8), a.availableSlots, 8);
    assert IsCapped(Min(ToI64(b.queueDepth), 20), b.queueDepth, 20);
    assert IsCapped(Min(ToI64(b.failures), 20), b.failures, 20);
  }

  /** Which reasons a score gives. */
  ghost predicate ReasonsFit(b: Backend, a: Assessment, context: Context, s: Breakdown) {
    forall reason :: reason in s.reasons <==>
      || (reason == "explicit_preference" && b.backendId in context.preferred)
      || (reason == "resume_affinity" && context.resumeBackendId == Some(b.backendId))
      || (reason == "placement_ready" && a.state == "ready") || (reason == "placement_attention" && a.state != "ready")
      || (reason == "latency:" + b.latencyClass && b.latencyClass != "cross-region")
      || (reason == "slots_available" && a.availableSlots > 0)
      || (reason == "queue_pressure" && b.queueDepth > 0) || (reason == "recent_failures" && b.failures > 0)
  }

  lemma {:induction false} ReasonsMean(b: Backend, a: Assessment, context: Context)
    ensures ReasonsFit(b, a, context, Score(b, a, context))
  {
    LatencyMeans(b.latencyClass);
  }

  // ---- Who comes first ----

  /** The first difference decides, and a text comes before its continuations. */
  ghost predicate TextNotAfter(a: string, b: string) {
    a <= b || exists k: nat :: FirstDifference(a, b, k) && a[k] < b[k]
  }

  ghost predicate FirstDifference(a: string, b: string, k: nat) {
    k < |a| && k < |b| && a[k] != b[k] && forall i | 0 <= i < k :: a[i] == b[i]
  }

  lemma {:induction false} DifferentHeads(a: string, b: string)
    requires a != "" && b != "" && a[0] != b[0]
    ensures TextNotAfter(a, b) <==> a[0] < b[0]
  {
    assert FirstDifference(a, b, 0) && !(a <= b);
  }

  lemma {:induction false} SameHeads(a: string, b: string)
    requires a != "" && b != "" && a[0] == b[0]
    ensures TextNotAfter(a, b) <==> TextNotAfter(a[1..], b[1..])
  {
    if k: nat :| FirstDifference(a, b, k) && a[k] < b[k] {
      assert FirstDifference(a[1..], b[1..], k - 1);
    }
    if k: nat :| FirstDifference(a[1..], b[1..], k) && a[1..][k] < b[1..][k] {
      forall i | 0 <= i < k + 1 ensures a[i] == b[i] {
        assert i > 0 ==> a[1..][i - 1] == b[1..][i - 1];
      }
      assert FirstDifference(a, b, k + 1);
    }
  }

  lemma {:induction false} TextComparisonMeans(a: string, b: string)
    ensures CompareText(a, b) != Greater <==> TextNotAfter(a, b)
  {
    if a != "" && b != "" {
      if a[0] == b[0] {
        TextComparisonMeans(a[1..], b[1..]);
        SameHeads(a, b);
      } else {
        DifferentHeads(a, b);
      }
    }
  }

  /** More points; at the same points ready before not; then fewer reasons against it; then the earlier id. */
  ghost predicate RanksBefore(l: Scored, r: Scored) {
    var lReady, rReady := l.assessment.state == "ready", r.assessment.state == "ready";
    || l.breakdown.total > r.breakdown.total
    || (l.breakdown.total == r.breakdown.total
        && ((lReady && !rReady)
            || (lReady == rReady
                && (|l.assessment.reasons| < |r.assessment.reasons|
                    || (|l.assessment.reasons| == |r.assessment.reasons|
                        && TextNotAfter(l.backend.backendId, r.backend.backendId))))))
  }

  lemma {:induction false} ComparisonMeans(l: Scored, r: Scored)
    ensures NotAfter(l, r) <==> RanksBefore(l, r)
  {
    TextComparisonMeans(l.backend.backendId, r.backend.backendId);
  }

  ghost predicate IsScored(cs: seq<Candidate>, context: Context, x: Scored) {
    Candidate(x.backend, x.assessment) in cs && x.breakdown == Score(x.backend, x.assessment, context)
  }

  /** The candidates with their scores, best first. */
  ghost predicate IsRanking(cs: seq<Candidate>, context: Context, ranking: seq<Scored>) {
    && |ranking| == |cs| && (forall i | 0 <= i < |ranking| :: IsScored(cs, context, ranking[i]))
    && (forall c | c in cs :: Scored(c.backend, c.assessment, Score(c.backend, c.assessment, context)) in ranking)
    && forall i, j | 0 <= i < j < |ranking| :: RanksBefore(ranking[i], ranking[j])
  }

  /** The code that tells why the choice was not the one asked for: the preference is looked at first. */
  ghost predicate IsFallbackCode(context: Context, selected: string, code: Option<string>) {
    && (code == Some("preferred_backend_unavailable") <==>
          context.preferred != [] && selected !in context.preferred)
    && (code == Some("resume_backend_unavailable") <==>
          && !(context.preferred != [] && selected !in context.preferred)
          && context.resumeBackendId.Some? && context.resumeBackendId.value != selected)
    && (code.None? || code == Some("preferred_backend_unavailable") || code == Some("resume_backend_unavailable"))
  }

  /** The first of the ranking is selected, with the code, and the whole ranking is told. */
  ghost predicate IsOutcome(context: Context, ranking: seq<Scored>, o: Outcome) {
    && ranking != [] && o.selected == ranking[0].backend.backendId
    && IsFallbackCode(context, o.selected, o.fallbackReason) && o.resumeBackendId == context.resumeBackendId
    && |o.breakdown| == |ranking| && forall i | 0 <= i < |ranking| :: o.breakdown[i] == ranking[i].breakdown
  }

  lemma {:induction false} SortingRanks(cs: seq<Candidate>, context: Context)
    ensures IsRanking(cs, context, Ordering.Sort(ScoreAll(cs, context), NotAfter))
  {
    var all := ScoreAll(cs, context);
    var ranking := Ordering.Sort(all, NotAfter);
    ComparatorIsTotal();
    Ordering.SortSorts(all, NotAfter);
    assert |ranking| == |multiset(ranking)| == |multiset(all)| == |all|;
    forall i | 0 <= i < |ranking| ensures IsScored(cs, context, ranking[i]) {
      assert ranking[i] in multiset(ranking);
      ScoresOf(cs, context, ranking[i]);
    }
    forall c | c in cs ensures Scored(c.backend, c.assessment, Score(c.backend, c.assessment, context)) in ranking {
      var x := Scored(c.backend, c.assessment, Score(c.backend, c.assessment, context));
      ScoresOf(cs, context, x);
      assert x in multiset(all);
    }
    forall i, j | 0 <= i < j < |ranking| ensures RanksBefore(ranking[i], ranking[j]) {
      ComparisonMeans(ranking[i], ranking[j]);
    }
  }

  /** Nobody is selected exactly from no candidates; otherwise the outcome is that of a ranking of all of them. */
  lemma {:induction false} SelectionIsTheRanking(cs: seq<Candidate>, context: Context)
    ensures Select(cs, context).None? <==> cs == []
    ensures cs != [] ==>
              exists ranking ::
                IsRanking(cs, context, ranking) && IsOutcome(context, ranking, Select(cs, context).value)
  {
    SortingRanks(cs, context);
    var ranking := Ordering.Sort(ScoreAll(cs, context), NotAfter);
    if cs != [] {
      assert PREFERRED_UNAVAILABLE[0] != RESUME_UNAVAILABLE[0];
      assert IsOutcome(context, ranking, Select(cs, context).value);
    }
  }

  // ---- Counting tasks ----

  /** The unfinished tasks placed on this backend. */
  ghost function TasksOn(tasks: seq<Task>, id: string): set<nat> {
    set i: nat | i < |tasks| && IsOn(tasks[i], id)
  }

  predicate IsOn(t: Task, id: string) {
    !t.terminal && t.backendId.Some? && Text.Trim(t.backendId.value) == id
  }

  lemma {:induction false} ActiveIsHowMany(tasks: seq<Task>, id: string)
    requires id != ""
    ensures Active(tasks, id) == |TasksOn(tasks, id)|
    decreases |tasks|
  {
    if tasks == [] {
      assert TasksOn(tasks, id) == {};
    } else {
      var n := |tasks| - 1;
      ActiveIsHowMany(tasks[..n], id);
      assert TasksOn(tasks, id) == TasksOn(tasks[..n], id) + if IsOn(tasks[n], id) then {n} else {};
    }
  }

  lemma {:induction false} NothingOnNoBackend(tasks: seq<Task>)
    ensures Active(tasks, "") == 0
    decreases |tasks|
  {
    if tasks != [] {
      NothingOnNoBackend(tasks[..|tasks| - 1]);
    }
  }

  /** Counts as the loop leaves them: how many unfinished tasks each backend has, with an entry where there are any. */
  lemma {:induction false} CountsMean(counts: map<string, nat>, tasks: seq<Task>, id: string)
    requires CountsActive(counts, tasks)
    ensures id in counts <==> id != "" && TasksOn(tasks, id) != {}
    ensures id in counts ==> counts[id] == |TasksOn(tasks, id)|
  {
    assert CountIsRight(counts, tasks, id);
    if id == "" {
      NothingOnNoBackend(tasks);
    } else {
      ActiveIsHowMany(tasks, id);
      assert |TasksOn(tasks, id)| == 0 <==> TasksOn(tasks, id) == {};
    }
  }
}
