/** Scoring the eligible backends of an agent task and choosing one of them. */
module Placement {
  import opened Options
  import Ordering
  import Text

  const U64_MAX: nat := 0xFFFF_FFFF_FFFF_FFFF
  const I64_MAX: int := 0x7FFF_FFFF_FFFF_FFFF

  type U64 = n: int | 0 <= n <= U64_MAX

  const READY := "ready"
  const PREFERRED_UNAVAILABLE := "preferred_backend_unavailable"
  const RESUME_UNAVAILABLE := "resume_backend_unavailable"

  datatype Backend = Backend(
    backendId: string,
    capabilities: seq<string>,
    latencyClass: string,
    queueDepth: U64,
    failures: U64,
    healthScore: real,
    runningTasks: U64)

  /** How operable a backend is; computed by code outside this model. */
  datatype Assessment = Assessment(state: string, placementEligible: bool, reasons: seq<string>, availableSlots: U64)

  datatype Context = Context(preferred: seq<string>, resumeBackendId: Option<string>)

  datatype Breakdown = Breakdown(
    backendId: string,
    total: int,
    preference: int,
    resume: int,
    readiness: int,
    latency: int,
    capacity: int,
    queuePenalty: int,
    failurePenalty: int,
    health: int,
    reasons: seq<string>)

  datatype Outcome = Outcome(
    selected: string,
    fallbackReason: Option<string>,
    resumeBackendId: Option<string>,
    breakdown: seq<Breakdown>)

  // ---- The score of one candidate ----

  function ToI64(n: U64): int {
    if n <= I64_MAX then n else I64_MAX
  }

  function Min(a: int, b: int): int {
    if a <= b then a else b
  }

  /** `f64::round`: to the nearest integer, halves away from zero. */
  function Round(x: real): int {
    if x >= 0.0 then (x + 0.5).Floor else -((-x + 0.5).Floor)
  }

  function LatencyScore(latencyClass: string): (score: int)
    ensures 0 <= score <= 80
  {
    if latencyClass == "local" then 80
    else if latencyClass == "interactive" then 60
    else if latencyClass == "regional" then 35
    else if latencyClass == "standard" then 20
    else if latencyClass == "cross-region" then 0
    else 10
  }

  function Reason(holds: bool, reason: string): seq<string> {
    if holds then [reason] else []
  }

  function Score(b: Backend, a: Assessment, context: Context): Breakdown {
    var preference := if b.backendId in context.preferred then 1000 else 0;
    var resume := if context.resumeBackendId == Some(b.backendId) then 300 else 0;
    var readiness := if a.state == READY then 180 else 60;
    var latency := LatencyScore(b.latencyClass);
    var capacity := Min(ToI64(a.availableSlots), 8) * 25;
    var queuePenalty := -Min(ToI64(b.queueDepth), 20) * 15;
    var failurePenalty := -Min(ToI64(b.failures), 20) * 20;
    var health := Round(b.healthScore * 100.0);
    var reasons :=
      Reason(preference > 0, "explicit_preference") + Reason(resume > 0, "resume_affinity")
      + [if readiness > 100 then "placement_ready" else "placement_attention"]
      + Reason(latency > 0, "latency:" + b.latencyClass) + Reason(capacity > 0, "slots_available")
      + Reason(queuePenalty < 0, "queue_pressure") + Reason(failurePenalty < 0, "recent_failures");
    Breakdown(b.backendId,
              preference + resume + readiness + latency + capacity + queuePenalty + failurePenalty + health,
              preference, resume, readiness, latency, capacity, queuePenalty, failurePenalty, health, reasons)
  }

  predicate Healthy(b: Backend) {
    0.0 <= b.healthScore <= 1.0
  }

  /** What a backend loses for its queue and its failures. */
  function Penalty(b: Backend): (points: int)
    ensures 0 <= points <= 700
  {
    Min(ToI64(b.queueDepth), 20) * 15 + Min(ToI64(b.failures), 20) * 20
  }

  /** Everything in the score that is neither preference nor penalty. */
  function Merit(b: Backend, a: Assessment, context: Context): int {
    var s := Score(b, a, context);
    s.resume + s.readiness + s.latency + s.capacity + s.health
  }

  lemma {:induction false} RoundedHealth(b: Backend)
    requires Healthy(b)
    ensures 0 <= Round(b.healthScore * 100.0) <= 100
  {
    assert 0.0 <= b.healthScore * 100.0 <= 100.0;
  }

  lemma {:induction false} MeritBounds(b: Backend, a: Assessment, context: Context)
    requires Healthy(b)
    ensures 60 <= Merit(b, a, context) <= 860
    ensures Score(b, a, context).total ==
            (if b.backendId in context.preferred then 1000 else 0) + Merit(b, a, context) - Penalty(b)
  {
    RoundedHealth(b);
  }

  /** Every total lies in [-640, 1860], far inside 64 bits, and both ends are attained. */
  lemma {:induction false} ScoreBounds(b: Backend, a: Assessment, context: Context)
    requires Healthy(b)
    ensures -640 <= Score(b, a, context).total <= 1860
  {
    MeritBounds(b, a, context);
  }

  lemma {:induction false} ScoreBoundsAreTight()
    ensures var best := Backend("a", [], "local", 0, 0, 1.0, 0);
            Score(best, Assessment(READY, true, [], 8), Context(["a"], Some("a"))).total == 1860
    ensures var worst := Backend("a", [], "cross-region", U64_MAX, U64_MAX, 0.0, 0);
            Score(worst, Assessment("", true, [], 0), Context([], None)).total == -640
  {
    assert "a" in ["a"];
  }

  // ---- The order of the candidates ----

  datatype Scored = Scored(backend: Backend, assessment: Assessment, breakdown: Breakdown)

  datatype Comparison = Less | Equal | Greater

  function Then(first: Comparison, second: Comparison): Comparison {
    if first.Equal? then second else first
  }

  function CompareInts(a: int, b: int): Comparison {
    if a < b then Less else if a == b then Equal else Greater
  }

  function CompareBools(a: bool, b: bool): Comparison {
    if a == b then Equal else if b then Less else Greater
  }

  /** Lexicographic by code point, which is also the order of the UTF-8 bytes. */
  function CompareText(a: string, b: string): Comparison {
    if a == "" && b == "" then Equal
    else if a == "" then Less
    else if b == "" then Greater
    else Then(CompareInts(a[0] as int, b[0] as int), CompareText(a[1..], b[1..]))
  }

  /** Higher totals first, then ready backends, then fewer operability reasons, then the id. */
  function Compare(l: Scored, r: Scored): Comparison {
    Then(CompareInts(r.breakdown.total, l.breakdown.total),
         Then(CompareBools(r.assessment.state == READY, l.assessment.state == READY),
              Then(CompareInts(|l.assessment.reasons|, |r.assessment.reasons|),
                   CompareText(l.backend.backendId, r.backend.backendId))))
  }

  predicate NotAfter(l: Scored, r: Scored) {
    Compare(l, r) != Greater
  }

  lemma {:induction false} TextOrderIsStrict(a: string, b: string)
    ensures CompareText(a, b) == Equal <==> a == b
    ensures CompareText(a, b) == Less <==> CompareText(b, a) == Greater
  {
    if a != "" && b != "" {
      TextOrderIsStrict(a[1..], b[1..]);
      assert a == [a[0]] + a[1..] && b == [b[0]] + b[1..];
    }
  }

  lemma {:induction false} TextOrderIsTransitive(a: string, b: string, c: string)
    requires CompareText(a, b) != Greater && CompareText(b, c) != Greater
    ensures CompareText(a, c) != Greater
    ensures CompareText(a, c) == Equal ==> CompareText(a, b) == Equal && CompareText(b, c) == Equal
  {
    if a != "" && c != "" {
      if a[0] == b[0] == c[0] {
        TextOrderIsTransitive(a[1..], b[1..], c[1..]);
      }
    }
  }

  lemma {:induction false} CandidatesCompare(l: Scored, r: Scored)
    ensures NotAfter(l, r) || NotAfter(r, l)
    ensures NotAfter(l, r) && NotAfter(r, l) ==> l.backend.backendId == r.backend.backendId
  {
    TextOrderIsStrict(l.backend.backendId, r.backend.backendId);
    TextOrderIsStrict(r.backend.backendId, l.backend.backendId);
  }

  lemma {:induction false} CandidatesChain(l: Scored, m: Scored, r: Scored)
    requires NotAfter(l, m) && NotAfter(m, r)
    ensures NotAfter(l, r)
  {
    if l.breakdown.total == r.breakdown.total
       && (l.assessment.state == READY) == (r.assessment.state == READY)
       && |l.assessment.reasons| == |r.assessment.reasons| {
      TextOrderIsTransitive(l.backend.backendId, m.backend.backendId, r.backend.backendId);
    }
  }

  /**
  The comparator is total and transitive, and only candidates with the same id tie: with distinct ids it is strict.
  */
  lemma {:induction false} ComparatorIsTotal()
    ensures Ordering.TotalPreorder(NotAfter)
    ensures forall l, r | NotAfter(l, r) && NotAfter(r, l) :: l.backend.backendId == r.backend.backendId
  {
    forall l, r ensures NotAfter(l, r) || NotAfter(r, l) {
      CandidatesCompare(l, r);
    }
    forall l, r | NotAfter(l, r) && NotAfter(r, l) ensures l.backend.backendId == r.backend.backendId {
      CandidatesCompare(l, r);
    }
    forall l, m, r | NotAfter(l, m) && NotAfter(m, r) ensures NotAfter(l, r) {
      CandidatesChain(l, m, r);
    }
  }

  // ---- Selecting from a list of candidates ----

  datatype Candidate = Candidate(backend: Backend, assessment: Assessment)

  function ScoreOne(c: Candidate, context: Context): Scored {
    Scored(c.backend, c.assessment, Score(c.backend, c.assessment, context))
  }

  function ScoreAll(cs: seq<Candidate>, context: Context): (scored: seq<Scored>)
    ensures |scored| == |cs| && forall i | 0 <= i < |cs| :: scored[i] == ScoreOne(cs[i], context)
  {
    seq(|cs|, i requires 0 <= i < |cs| => ScoreOne(cs[i], context))
  }

  function Breakdowns(scored: seq<Scored>): seq<Breakdown> {
    seq(|scored|, i requires 0 <= i < |scored| => scored[i].breakdown)
  }

  function FallbackReason(context: Context, selected: string): Option<string> {
    if context.preferred != [] && selected !in context.preferred then Some(PREFERRED_UNAVAILABLE)
    else if context.resumeBackendId.Some? && context.resumeBackendId.value != selected then Some(RESUME_UNAVAILABLE)
    else None
  }

  function Select(cs: seq<Candidate>, context: Context): Option<Outcome> {
    var scored := Ordering.Sort(ScoreAll(cs, context), NotAfter);
    if scored == [] then None
    else
      var selected := scored[0].backend.backendId;
      Some(Outcome(selected, FallbackReason(context, selected), context.resumeBackendId, Breakdowns(scored)))
  }

  ghost predicate Best(cs: seq<Candidate>, context: Context, i: nat)
    requires i < |cs|
  {
    forall j | 0 <= j < |cs| :: NotAfter(ScoreOne(cs[i], context), ScoreOne(cs[j], context))
  }

  /** Whoever is selected is a candidate that no other candidate comes before; only an empty list selects nobody. */
  lemma {:induction false} SelectedIsBest(cs: seq<Candidate>, context: Context) returns (i: nat)
    ensures cs == [] <==> Select(cs, context).None?
    ensures cs != [] ==>
              i < |cs| && Best(cs, context, i) && cs[i].backend.backendId == Select(cs, context).value.selected
  {
    hide Score, CompareText, Ordering.Sort;
    i := 0;
    var all := ScoreAll(cs, context);
    var scored := Ordering.Sort(all, NotAfter);
    ComparatorIsTotal();
    Ordering.SortSorts(all, NotAfter);
    if cs != [] {
      assert scored[0] in multiset(scored);
      assert scored[0] in all;
      i :| 0 <= i < |all| && all[i] == scored[0];
      forall j | 0 <= j < |cs| ensures NotAfter(all[i], all[j]) {
        assert all[j] in multiset(all);
        var k :| 0 <= k < |scored| && scored[k] == all[j];
        CandidatesCompare(scored[0], scored[k]);
      }
    }
  }

  /** The breakdown holds every candidate's score, as many as there are candidates, best total first. */
  lemma {:induction false} BreakdownRanksEveryone(cs: seq<Candidate>, context: Context)
    requires cs != []
    ensures var ranked := if Select(cs, context).Some? then Select(cs, context).value.breakdown else [];
            && |ranked| == |cs|
            && (forall i | 0 <= i < |cs| :: Score(cs[i].backend, cs[i].assessment, context) in ranked)
            && forall i, j | 0 <= i < j < |ranked| :: ranked[i].total >= ranked[j].total
  {
    hide Score, CompareText, Ordering.Sort, Ordering.TotalPreorder;
    var all := ScoreAll(cs, context);
    var scored := Ordering.Sort(all, NotAfter);
    ComparatorIsTotal();
    Ordering.SortSorts(all, NotAfter);
    var ranked := Breakdowns(scored);
    forall i | 0 <= i < |cs| ensures Score(cs[i].backend, cs[i].assessment, context) in ranked {
      assert all[i] in multiset(all) && all[i] in scored;
      var k :| 0 <= k < |scored| && scored[k] == all[i];
      assert ranked[k] == all[i].breakdown;
    }
    forall i, j | 0 <= i < j < |ranked| ensures ranked[i].total >= ranked[j].total {
      assert NotAfter(scored[i], scored[j]);
    }
  }

  ghost predicate DistinctIds(cs: seq<Candidate>) {
    forall i, j | 0 <= i < j < |cs| :: cs[i].backend.backendId != cs[j].backend.backendId
  }

  lemma {:induction false} ScoredAreDistinct(cs: seq<Candidate>, context: Context)
    requires DistinctIds(cs)
    ensures Ordering.NoDuplicates(ScoreAll(cs, context))
  {
    var all := ScoreAll(cs, context);
    forall i, j | 0 <= i < j < |all| ensures all[i] != all[j] {
      assert all[i].backend == cs[i].backend && all[j].backend == cs[j].backend;
    }
  }

  lemma {:induction false} OneScorePerId(cs: seq<Candidate>, context: Context, x: Scored, y: Scored)
    requires DistinctIds(cs) && x in ScoreAll(cs, context) && y in ScoreAll(cs, context)
    requires x.backend.backendId == y.backend.backendId
    ensures x == y
  {
    var all := ScoreAll(cs, context);
    var i :| 0 <= i < |all| && all[i] == x;
    var j :| 0 <= j < |all| && all[j] == y;
    assert cs[i].backend == x.backend && cs[j].backend == y.backend;
    assert i == j;
  }

  lemma {:induction false} ScoredNeverTie(cs: seq<Candidate>, context: Context)
    requires DistinctIds(cs)
    ensures Ordering.AntisymmetricOn(NotAfter, multiset(ScoreAll(cs, context)))
  {
    ComparatorIsTotal();
    var all := ScoreAll(cs, context);
    forall x, y | x in multiset(all) && y in multiset(all) && NotAfter(x, y) && NotAfter(y, x) ensures x == y {
      OneScorePerId(cs, context, x, y);
    }
  }

  ghost predicate SameCandidates(a: seq<Candidate>, b: seq<Candidate>) {
    forall c :: c in a <==> c in b
  }

  lemma {:induction false} ScoresOf(cs: seq<Candidate>, context: Context, x: Scored)
    ensures x in ScoreAll(cs, context) <==>
        Candidate(x.backend, x.assessment) in cs && x == ScoreOne(Candidate(x.backend, x.assessment), context)
  {
    var all := ScoreAll(cs, context);
    if x in all {
      var i :| 0 <= i < |all| && all[i] == x;
      assert cs[i] == Candidate(x.backend, x.assessment);
    }
    if Candidate(x.backend, x.assessment) in cs && x == ScoreOne(Candidate(x.backend, x.assessment), context) {
      var i :| 0 <= i < |cs| && cs[i] == Candidate(x.backend, x.assessment);
      assert all[i] == x;
    }
  }

  /** The whole outcome, breakdown order and fallback code included, depends only on which candidates there are. */
  lemma {:induction false} SelectionForgetsOrder(a: seq<Candidate>, b: seq<Candidate>, context: Context)
    requires DistinctIds(a) && DistinctIds(b) && SameCandidates(a, b)
    ensures Select(a, context) == Select(b, context)
  {
    var x, y := ScoreAll(a, context), ScoreAll(b, context);
    ScoredAreDistinct(a, context);
    ScoredAreDistinct(b, context);
    ScoredNeverTie(a, context);
    forall s ensures s in x <==> s in y {
      ScoresOf(a, context, s);
      ScoresOf(b, context, s);
    }
    Ordering.SameElementsSameMultiset(x, y);
    ComparatorIsTotal();
    Ordering.SortForgetsOrder(x, y, NotAfter);
  }

  // ---- What a preference is worth ----

  predicate Preferred(c: Candidate, context: Context) {
    c.backend.backendId in context.preferred
  }

  /** A preferred candidate that loses less than 200 points for its queue and failures beats every other candidate. */
  lemma {:induction false} PreferredBeatsOthers(p: Candidate, o: Candidate, context: Context)
    requires Healthy(p.backend) && Healthy(o.backend) && Preferred(p, context) && !Preferred(o, context)
    requires Penalty(p.backend) < 200
    ensures ScoreOne(p, context).breakdown.total > ScoreOne(o, context).breakdown.total
    ensures !NotAfter(ScoreOne(o, context), ScoreOne(p, context))
  {
    MeritBounds(p.backend, p.assessment, context);
    MeritBounds(o.backend, o.assessment, context);
  }

  /** At 200 points it can lose: to an idle, local, ready backend that the task is resuming on. */
  lemma {:induction false} TwoHundredPointsCanLose()
    ensures var p := Candidate(Backend("p", [], "cross-region", 0, 10, 0.0, 0), Assessment("", true, [], 0));
            var o := Candidate(Backend("o", [], "local", 0, 0, 1.0, 0), Assessment(READY, true, [], 8));
            var context := Context(["p"], Some("o"));
            && Preferred(p, context) && !Preferred(o, context) && Penalty(p.backend) == 200
            && !NotAfter(ScoreOne(p, context), ScoreOne(o, context))
            && Select([p, o], context).Some?
            && Select([p, o], context).value.fallbackReason == Some(PREFERRED_UNAVAILABLE)
  {
    var p := Candidate(Backend("p", [], "cross-region", 0, 10, 0.0, 0), Assessment("", true, [], 0));
    var o := Candidate(Backend("o", [], "local", 0, 0, 1.0, 0), Assessment(READY, true, [], 8));
    var context := Context(["p"], Some("o"));
    assert "p" in ["p"] && "o" != "p" && "o" !in ["p"];
    assert ScoreOne(p, context).breakdown.total == 860 && ScoreOne(o, context).breakdown.total == 860;
    var cs := [p, o];
    var i := SelectedIsBest(cs, context);
    assert cs[1] == o;
    assert i != 0;
  }

  /**
  The fallback code, read from the outcome alone: a preference went unmet exactly when one was stated and the
  selected backend is not among the preferred; then every preferred candidate had lost at least 200 points.
  */
  lemma {:induction false} UnmetPreferenceMeansPenalties(cs: seq<Candidate>, context: Context, k: nat)
    requires Select(cs, context).Some? && Select(cs, context).value.fallbackReason == Some(PREFERRED_UNAVAILABLE)
    requires k < |cs| && Preferred(cs[k], context)
    requires forall j | 0 <= j < |cs| :: Healthy(cs[j].backend)
    ensures Penalty(cs[k].backend) >= 200
  {
    var i := SelectedIsBest(cs, context);
    assert NotAfter(ScoreOne(cs[i], context), ScoreOne(cs[k], context));
    assert !Preferred(cs[i], context) by {
      assert PREFERRED_UNAVAILABLE[0] != RESUME_UNAVAILABLE[0];
    }
    if Penalty(cs[k].backend) < 200 {
      PreferredBeatsOthers(cs[k], cs[i], context);
    }
  }

  // ---- From the backend store ----

  /** Tasks as far as placement counts them. */
  datatype Task = Task(terminal: bool, backendId: Option<string>)

  predicate CountsFor(t: Task, id: string) {
    !t.terminal && t.backendId.Some? && Text.Trim(t.backendId.value) == id && id != ""
  }

  function Active(tasks: seq<Task>, id: string): nat {
    if tasks == [] then 0
    else Active(tasks[..|tasks| - 1], id) + if CountsFor(tasks[|tasks| - 1], id) then 1 else 0
  }

  ghost predicate CountsActive(counts: map<string, nat>, tasks: seq<Task>) {
    forall id :: CountIsRight(counts, tasks, id)
  }

  predicate CountIsRight(counts: map<string, nat>, tasks: seq<Task>, id: string) {
    (id in counts <==> Active(tasks, id) > 0) && (id in counts ==> counts[id] == Active(tasks, id))
  }

  lemma {:induction false} OneMoreTask(tasks: seq<Task>, t: Task, id: string)
    ensures Active(tasks + [t], id) == Active(tasks, id) + if CountsFor(t, id) then 1 else 0
  {
    assert (tasks + [t])[..|tasks|] == tasks;
  }

  lemma {:induction false} CountingOne(counts: map<string, nat>, tasks: seq<Task>, t: Task, id: string)
    requires CountsActive(counts, tasks) && CountsFor(t, id)
    ensures CountsActive(counts[id := (if id in counts then counts[id] else 0) + 1], tasks + [t])
  {
    var before := if id in counts then counts[id] else 0;
    var after := counts[id := before + 1];
    assert CountIsRight(counts, tasks, id);
    forall x ensures CountIsRight(after, tasks + [t], x) {
      OneMoreTask(tasks, t, x);
      assert CountIsRight(counts, tasks, x);
    }
  }

  lemma {:induction false} CountingNone(counts: map<string, nat>, tasks: seq<Task>, t: Task)
    requires CountsActive(counts, tasks) && forall id :: !CountsFor(t, id)
    ensures CountsActive(counts, tasks + [t])
  {
    forall x ensures CountIsRight(counts, tasks + [t], x) {
      OneMoreTask(tasks, t, x);
      assert CountIsRight(counts, tasks, x);
    }
  }

  /** The unfinished tasks of each backend; a backend without any has no entry. */
  method CountActiveTasks(tasks: seq<Task>) returns (counts: map<string, nat>)
    ensures CountsActive(counts, tasks)
  {
    counts := map[];
    for i := 0 to |tasks|
      invariant CountsActive(counts, tasks[..i])
    {
      var t := tasks[i];
      assert tasks[..i + 1] == tasks[..i] + [t];
      if t.terminal || t.backendId.None? || Text.Trim(t.backendId.value) == "" {
        CountingNone(counts, tasks[..i], t);
      } else {
        var id := Text.Trim(t.backendId.value);
        CountingOne(counts, tasks[..i], t, id);
        counts := counts[id := (if id in counts then counts[id] else 0) + 1];
      }
    }
    assert tasks[..|tasks|] == tasks;
  }

  function ActiveTasks(b: Backend, counts: map<string, nat>): nat {
    var published := if b.backendId in counts then counts[b.backendId] else b.runningTasks;
    if published >= b.runningTasks then published else b.runningTasks
  }

  function ToLower(s: string): string {
    seq(|s|, i requires 0 <= i < |s| => if 'A' <= s[i] <= 'Z' then s[i] - 'A' + 'a' else s[i])
  }

  predicate HasCapabilities(b: Backend, required: seq<string>) {
    forall r | r in required :: exists c | c in b.capabilities :: ToLower(c) == ToLower(r)
  }

  function Eligible(ids: seq<string>, store: map<string, Backend>, required: seq<string>, counts: map<string, nat>,
                    assess: (Backend, nat) -> Assessment): seq<Candidate>
    requires forall id | id in ids :: id in store
  {
    if ids == [] then []
    else
      assert ids[0] in ids;
      var b := store[ids[0]];
      var a := assess(b, ActiveTasks(b, counts));
      (if HasCapabilities(b, required) && a.placementEligible then [Candidate(b, a)] else [])
      + Eligible(ids[1..], store, required, counts, assess)
  }

  ghost predicate Enumerates(ids: seq<string>, store: map<string, Backend>) {
    Ordering.NoDuplicates(ids) && forall id :: id in ids <==> id in store
  }

  /** Every backend is stored under its own id. */
  ghost predicate Keyed(store: map<string, Backend>) {
    forall id | id in store :: store[id].backendId == id
  }

  predicate IsEligible(c: Candidate, required: seq<string>, counts: map<string, nat>, assess: (Backend,
                       nat) -> Assessment) {
    c.assessment == assess(c.backend, ActiveTasks(c.backend, counts)) && c.assessment.placementEligible &&
        HasCapabilities(c.backend, required)
  }

  lemma {:induction false} EligibleAre(ids: seq<string>, store: map<string, Backend>, required: seq<string>,
                                       counts: map<string, nat>, assess: (Backend, nat) -> Assessment, c: Candidate)
    requires Keyed(store) && forall id | id in ids :: id in store
    ensures c in Eligible(ids, store, required, counts, assess) <==>
            c.backend.backendId in ids && c.backend == store[c.backend.backendId] &&
                IsEligible(c, required, counts, assess)
  {
    if ids != [] {
      assert ids == [ids[0]] + ids[1..] && ids[0] in ids;
      EligibleAre(ids[1..], store, required, counts, assess, c);
    }
  }

  lemma {:induction false} EligibleHaveDistinctIds(ids: seq<string>, store: map<string, Backend>, required: seq<string>,
                                                   counts: map<string, nat>, assess: (Backend, nat) -> Assessment)
    requires Keyed(store) && (forall id | id in ids :: id in store) && Ordering.NoDuplicates(ids)
    ensures DistinctIds(Eligible(ids, store, required, counts, assess))
  {
    if ids != [] {
      EligibleHaveDistinctIds(ids[1..], store, required, counts, assess);
      var rest := Eligible(ids[1..], store, required, counts, assess);
      forall j | 0 <= j < |rest| ensures rest[j].backend.backendId != ids[0] {
        EligibleAre(ids[1..], store, required, counts, assess, rest[j]);
        assert rest[j] in rest;
      }
    }
  }

  /** However the backend map is iterated, the same backend is placed, with the same breakdown and fallback code. */
  lemma {:induction false} PlacementForgetsIterationOrder(
    ids: seq<string>, others: seq<string>, store: map<string, Backend>, required: seq<string>,
    counts: map<string, nat>, assess: (Backend, nat) -> Assessment, context: Context)
    requires Keyed(store) && Enumerates(ids, store) && Enumerates(others, store)
    ensures Select(Eligible(ids, store, required, counts, assess), context)
            == Select(Eligible(others, store, required, counts, assess), context)
  {
    var a, b := Eligible(ids, store, required, counts, assess), Eligible(others, store, required, counts, assess);
    forall c ensures c in a <==> c in b {
      EligibleAre(ids, store, required, counts, assess, c);
      EligibleAre(others, store, required, counts, assess, c);
    }
    EligibleHaveDistinctIds(ids, store, required, counts, assess);
    EligibleHaveDistinctIds(others, store, required, counts, assess);
    SelectionForgetsOrder(a, b, context);
  }
}
