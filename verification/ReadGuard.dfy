/** The rule that a task reads a file before it writes or edits it, and what it guarantees over whole runs. */
module ReadGuard {
  import opened AgentTasks
  import opened Options
  import Text

  datatype StepKind = Read | Write | Edit | Bash | JsRepl | Diagnostics

  datatype MutationKind = Reads | Writes | Edits | RunsBash | RunsJs

  datatype StepInput = StepInput(kind: StepKind, path: Option<string>)

  /** Diagnostics count as reads. */
  function MutationOf(kind: StepKind): MutationKind {
    match kind
    case Read => Reads
    case Write => Writes
    case Edit => Edits
    case Bash => RunsBash
    case JsRepl => RunsJs
    case Diagnostics => Reads
  }

  predicate RequiresReadEvidence(kind: StepKind) {
    kind.Write? || kind.Edit?
  }

  function NormalizedPath(step: StepInput): (path: Option<string>)
    ensures path.Some? ==> path.value != ""
  {
    if step.path.None? || Text.Trim(step.path.value) == "" then None else Some(Text.Trim(step.path.value))
  }

  datatype Violation = Violation(path: string, requiresFreshRead: bool, lastRead: Option<nat>,
      lastMutation: Option<nat>, message: Message)

  /** The refusal shown to the user, by its parts. */
  datatype Message = NeedsFreshRead(step: nat, path: string, mutatedBy: nat) | NeedsPriorRead(step: nat, path: string)

  /** What the task did to a path in its steps, as far as they are completed. Either list may be the shorter one. */
  datatype History = History(inputs: seq<StepInput>, statuses: seq<Status>)

  /** The completed step i works on this path. */
  predicate Touches(h: History, i: nat, path: string) {
    i < |h.statuses| && h.statuses[i] == Completed && i < |h.inputs| && NormalizedPath(h.inputs[i]) == Some(path)
  }

  predicate ReadsAt(h: History, i: nat, path: string) {
    Touches(h, i, path) && MutationOf(h.inputs[i].kind).Reads?
  }

  predicate MutatesAt(h: History, i: nat, path: string) {
    Touches(h, i, path) && (MutationOf(h.inputs[i].kind).Writes? || MutationOf(h.inputs[i].kind).Edits?)
  }

  /** Diagnostics and reads count as reads, writes and edits as mutations, and nothing else as either. */
  lemma {:induction false} TouchesMean(h: History, i: nat, path: string)
    requires i < |h.inputs| && i < |h.statuses|
    ensures ReadsAt(h, i, path) <==>
            && h.statuses[i] == Completed && (h.inputs[i].kind.Read? || h.inputs[i].kind.Diagnostics?)
            && h.inputs[i].path.Some? && Text.Trim(h.inputs[i].path.value) == path && path != ""
    ensures MutatesAt(h, i, path) <==>
            && h.statuses[i] == Completed && (h.inputs[i].kind.Write? || h.inputs[i].kind.Edit?)
            && h.inputs[i].path.Some? && Text.Trim(h.inputs[i].path.value) == path && path != ""
  {
  }

  /** The last completed read of the path before step n is not followed by a completed write or edit of it. */
  ghost predicate FreshRead(h: History, n: nat, path: string) {
    exists r: nat | r < n :: ReadsAt(h, r, path) && Undisturbed(h, r, n, path)
  }

  predicate Undisturbed(h: History, from: nat, to: nat, path: string) {
    forall m: nat | from < m < to :: !MutatesAt(h, m, path)
  }

  ghost predicate IsLast(n: nat, last: Option<nat>, at: nat -> bool) {
    && (last.Some? ==> last.value < n && at(last.value))
    && forall i: nat | i < n && at(i) :: last.Some? && i <= last.value
  }

  function Reading(h: History, path: string): nat -> bool {
    (i: nat) => ReadsAt(h, i, path)
  }

  function Mutating(h: History, path: string): nat -> bool {
    (i: nat) => MutatesAt(h, i, path)
  }

  lemma {:induction false} OneStepFurther(n: nat, last: Option<nat>, at: nat -> bool)
    requires IsLast(n, last, at)
    ensures IsLast(n + 1, if at(n) then Some(n) else last, at)
  {
  }

  /** The scan over the earlier steps. */
  method LastTouches(h: History, n: nat, path: string) returns (lastRead: Option<nat>, lastMutation: Option<nat>)
    ensures IsLast(n, lastRead, Reading(h, path)) && IsLast(n, lastMutation, Mutating(h, path))
  {
    lastRead, lastMutation := None, None;
    for prior := 0 to n
      invariant IsLast(prior, lastRead, Reading(h, path)) && IsLast(prior, lastMutation, Mutating(h, path))
    {
      OneStepFurther(prior, lastRead, Reading(h, path));
      OneStepFurther(prior, lastMutation, Mutating(h, path));
      if prior < |h.statuses| && h.statuses[prior] == Completed && prior < |h.inputs| {
        if NormalizedPath(h.inputs[prior]) == Some(path) {
          match MutationOf(h.inputs[prior].kind)
          case Reads => lastRead := Some(prior);
          case Writes => lastMutation := Some(prior);
          case Edits => lastMutation := Some(prior);
          case RunsBash =>
          case RunsJs =>
        }
      }
    }
  }

  lemma {:induction false} FreshnessFromLastTouches(h: History, n: nat, path: string, lastRead: Option<nat>,
                                                    lastMutation: Option<nat>)
    requires IsLast(n, lastRead, Reading(h, path)) && IsLast(n, lastMutation, Mutating(h, path))
    ensures FreshRead(h, n, path) <==>
            lastRead.Some? && !(lastMutation.Some? && lastMutation.value > lastRead.value)
  {
    if FreshRead(h, n, path) {
      var r: nat :| r < n && ReadsAt(h, r, path) && Undisturbed(h, r, n, path);
      assert Reading(h, path)(r);
      if lastMutation.Some? {
        assert Mutating(h, path)(lastMutation.value);
        assert MutatesAt(h, lastMutation.value, path);
      }
    }
    if lastRead.Some? && !(lastMutation.Some? && lastMutation.value > lastRead.value) {
      var r := lastRead.value;
      assert Reading(h, path)(r);
      forall m: nat | r < m < n ensures !MutatesAt(h, m, path) {
        assert Mutating(h, path)(m) == MutatesAt(h, m, path);
      }
      assert ReadsAt(h, r, path) && Undisturbed(h, r, n, path);
    }
  }

  /**
  The guard lets a step pass exactly when it needs no evidence, names no path, or has a fresh read of its path;
  and the index of the mutation it reports is always there.
  */
  method ResolveReadRequirementViolation(stepIndex: nat, step: StepInput, h: History)
    returns (violation: Option<Violation>)
    ensures violation.None? <==>
            || !(step.kind.Write? || step.kind.Edit?)
            || step.path.None? || Text.Trim(step.path.value) == ""
            || FreshRead(h, stepIndex, Text.Trim(step.path.value))
    ensures violation.Some? ==>
            && violation.value.path == Text.Trim(step.path.value)
            && (violation.value.requiresFreshRead <==> violation.value.lastRead.Some?)
            && (violation.value.requiresFreshRead ==>
                  violation.value.lastMutation.Some? &&
                      violation.value.lastMutation.value > violation.value.lastRead.value)
            && violation.value.message ==
                 (if violation.value.requiresFreshRead
                  then NeedsFreshRead(stepIndex + 1, violation.value.path, violation.value.lastMutation.value + 1)
                  else NeedsPriorRead(stepIndex + 1, violation.value.path))
            && IsLast(stepIndex, violation.value.lastRead, Reading(h, violation.value.path))
            && IsLast(stepIndex, violation.value.lastMutation, Mutating(h, violation.value.path))
  {
    if !RequiresReadEvidence(step.kind) {
      return None;
    }
    var normalized := NormalizedPath(step);
    if normalized.None? {
      return None;
    }
    var path := normalized.value;
    var lastRead, lastMutation := LastTouches(h, stepIndex, path);
    FreshnessFromLastTouches(h, stepIndex, path, lastRead, lastMutation);
    var missingPriorRead := lastRead.None?;
    var requiresFreshRead := lastRead.Some? && lastMutation.Some? && lastMutation.value > lastRead.value;
    if !missingPriorRead && !requiresFreshRead {
      return None;
    }
    var message :=
      if requiresFreshRead then NeedsFreshRead(stepIndex + 1, path, lastMutation.value + 1)
      else NeedsPriorRead(stepIndex + 1, path);
    return Some(Violation(path, requiresFreshRead, lastRead, lastMutation, message));
  }

  // ---- Runs ----

  ghost predicate Passes(h: History, i: nat)
    requires i < |h.inputs|
  {
    || !RequiresReadEvidence(h.inputs[i].kind)
    || NormalizedPath(h.inputs[i]).None?
    || FreshRead(h, i, NormalizedPath(h.inputs[i]).value)
  }

  /** Whether a pause is granted while the runner is about to execute a step, and on which side of the guard. */
  datatype PausePoint = NoPause | BeforeGuard | AfterGuard

  /**
  What a pass meets: how each executed step ends (completed, or with any other status, which ends the pass), and the
  pauses that come after the runner has looked for one. Any other pause ends the pass like a step that does not
  complete.
  */
  datatype Course = Course(outcomes: nat -> Status, pauses: nat -> PausePoint)

  /** A pause marks the current step, which is still the one executed before. */
  function WithPause(h: History, previous: Option<nat>, point: PausePoint): (r: History)
    ensures r.inputs == h.inputs && |r.statuses| == |h.statuses|
  {
    if point.NoPause? || previous.None? || previous.value >= |h.statuses| then h
    else h.(statuses := h.statuses[previous.value := Paused])
  }

  /** What the guard of step i sees. */
  function SeenByGuard(h: History, i: nat, previous: Option<nat>, course: Course): (r: History)
    ensures r.inputs == h.inputs && |r.statuses| == |h.statuses|
  {
    WithPause(h, previous, if course.pauses(i).BeforeGuard? then BeforeGuard else NoPause)
  }

  ghost predicate Completes(h: History, i: nat, previous: Option<nat>, course: Course)
    requires i < |h.inputs|
  {
    Passes(SeenByGuard(h, i, previous, course), i) && course.outcomes(i) == Completed
  }

  /** The step i, not completed yet, is refused by the guard or executed; executing it undoes the pause of the task. */
  ghost function Execute(h: History, i: nat, previous: Option<nat>, course: Course): (r: History)
    requires i < |h.inputs| && |h.statuses| == |h.inputs|
    ensures r.inputs == h.inputs && |r.statuses| == |h.statuses|
  {
    var seen := SeenByGuard(h, i, previous, course);
    if !Passes(seen, i) then seen.(statuses := seen.statuses[i := Failed])
    else
      var paused := WithPause(h, previous, course.pauses(i));
      paused.(statuses := paused.statuses[i := course.outcomes(i)])
  }

  /**
  One pass of the runner from step i on: completed steps are skipped, and the first step that does not complete stops
  it.
  */
  ghost function Pass(h: History, i: nat, previous: Option<nat>, course: Course): (r: History)
    requires |h.statuses| == |h.inputs|
    ensures r.inputs == h.inputs && |r.statuses| == |h.statuses|
    decreases |h.inputs| - i
  {
    if i >= |h.inputs| then h
    else if h.statuses[i] == Completed then Pass(h, i + 1, previous, course)
    else
      var after := Execute(h, i, previous, course);
      if Completes(h, i, previous, course) then Pass(after, i + 1, Some(i), course) else after
  }

  /** What resuming does to the statuses. */
  function Requeue(h: History): (r: History)
    ensures r.inputs == h.inputs && |r.statuses| == |h.statuses|
    ensures forall i | 0 <= i < |h.statuses| :: r.statuses[i] == Completed <==> h.statuses[i] == Completed
  {
    h.(statuses := seq(|h.statuses|, i requires 0 <= i < |h.statuses| =>
         if h.statuses[i] == Completed then Completed else Queued))
  }

  function Fresh(inputs: seq<StepInput>): History {
    History(inputs, seq(|inputs|, _ => Queued))
  }

  /** Any number of passes, with a resumption before each. */
  ghost function AfterRuns(inputs: seq<StepInput>, runs: seq<Course>): (r: History)
    ensures r.inputs == inputs && |r.statuses| == |inputs|
  {
    if runs == [] then Fresh(inputs)
    else Pass(Requeue(AfterRuns(inputs, runs[..|runs| - 1])), 0, None, runs[|runs| - 1])
  }

  /** The completed steps come first, and each that needs evidence had it. */
  ghost predicate Disciplined(h: History) {
    && |h.statuses| == |h.inputs|
    && (forall i, j | 0 <= i < j < |h.statuses| && h.statuses[j] == Completed :: h.statuses[i] == Completed)
    && forall i | 0 <= i < |h.statuses| && h.statuses[i] == Completed :: Passes(h, i)
  }

  ghost predicate AgreeBelow(a: History, b: History, n: nat) {
    a.inputs == b.inputs && |a.statuses| == |b.statuses| &&
    forall i | 0 <= i < n && i < |a.statuses| :: a.statuses[i] == Completed <==> b.statuses[i] == Completed
  }

  lemma {:induction false} FreshReadLooksBack(a: History, b: History, n: nat, path: string)
    requires AgreeBelow(a, b, n) && FreshRead(a, n, path)
    ensures FreshRead(b, n, path)
  {
    var r: nat :| r < n && ReadsAt(a, r, path) && Undisturbed(a, r, n, path);
    forall m: nat | r < m < n ensures !MutatesAt(b, m, path) {
      assert !MutatesAt(a, m, path);
    }
    assert ReadsAt(b, r, path) && Undisturbed(b, r, n, path);
  }

  lemma {:induction false} PassesLooksBack(a: History, b: History, i: nat)
    requires AgreeBelow(a, b, i) && i < |a.inputs| && Passes(a, i)
    ensures Passes(b, i)
  {
    if RequiresReadEvidence(a.inputs[i].kind) && NormalizedPath(a.inputs[i]).Some? {
      FreshReadLooksBack(a, b, i, NormalizedPath(a.inputs[i]).value);
    }
  }

  ghost predicate AllDoneBelow(h: History, i: nat) {
    forall j | 0 <= j < i && j < |h.statuses| :: h.statuses[j] == Completed
  }

  /** Step i gets a status; it may be Completed only if everything before it is and the guard passes. */
  lemma {:induction false} SettingOneKeepsDiscipline(h: History, i: nat, status: Status)
    requires Disciplined(h) && i < |h.inputs| && h.statuses[i] != Completed && AllDoneBelow(h, i)
    requires status == Completed ==> Passes(h, i)
    ensures Disciplined(h.(statuses := h.statuses[i := status]))
  {
    var after := h.(statuses := h.statuses[i := status]);
    forall k | 0 <= k < |after.statuses| && after.statuses[k] == Completed ensures Passes(after, k) {
      assert k <= i;
      assert AgreeBelow(h, after, k);
      PassesLooksBack(h, after, k);
    }
  }

  /** Before step i of a pass: all below it is completed, and nothing from it on once the pass has executed a step. */
  ghost predicate Underway(h: History, i: nat, previous: Option<nat>) {
    && Disciplined(h) && AllDoneBelow(h, i)
    && (previous.Some? ==> i == previous.value + 1 && forall j | i <= j < |h.statuses| :: h.statuses[j] != Completed)
  }

  lemma {:induction false} PausingKeepsDiscipline(h: History, i: nat, previous: Option<nat>, point: PausePoint)
    requires Underway(h, i, previous) && i < |h.inputs|
    ensures Disciplined(WithPause(h, previous, point))
  {
    var p := WithPause(h, previous, point);
    forall k | 0 <= k < |p.statuses| && p.statuses[k] == Completed ensures Passes(p, k) {
      assert AgreeBelow(h, p, k);
      PassesLooksBack(h, p, k);
    }
  }

  /** A late pause has taken back the step executed before: then step i may not complete, and otherwise it may. */
  lemma {:induction false} ExecutingKeepsDisciplineExactly(h: History, i: nat, previous: Option<nat>, course: Course)
    requires Underway(h, i, previous) && i < |h.inputs| && h.statuses[i] != Completed
    ensures var after := Execute(h, i, previous, course);
            && (Disciplined(after) <==>
                  !(previous.Some? && !course.pauses(i).NoPause? && Completes(h, i, previous, course)))
            && (Disciplined(after) && Completes(h, i, previous, course) ==> Underway(after, i + 1, Some(i)))
  {
    var after := Execute(h, i, previous, course);
    var seen := SeenByGuard(h, i, previous, course);
    if !Passes(seen, i) {
      PausingKeepsDiscipline(h, i, previous, if course.pauses(i).BeforeGuard? then BeforeGuard else NoPause);
      NotCompletingKeepsDiscipline(seen, i, Failed);
    } else if course.outcomes(i) != Completed {
      PausingKeepsDiscipline(h, i, previous, course.pauses(i));
      NotCompletingKeepsDiscipline(WithPause(h, previous, course.pauses(i)), i, course.outcomes(i));
    } else if previous.Some? && !course.pauses(i).NoPause? {
      assert after.statuses[i] == Completed && after.statuses[i - 1] == Paused;
    } else {
      assert seen == h && WithPause(h, previous, course.pauses(i)) == h;
      SettingOneKeepsDiscipline(h, i, Completed);
    }
  }

  lemma {:induction false} NotCompletingKeepsDiscipline(h: History, i: nat, status: Status)
    requires Disciplined(h) && i < |h.inputs| && h.statuses[i] != Completed && status != Completed
    ensures Disciplined(h.(statuses := h.statuses[i := status]))
  {
    var after := h.(statuses := h.statuses[i := status]);
    forall k | 0 <= k < |after.statuses| && after.statuses[k] == Completed ensures Passes(after, k) {
      assert AgreeBelow(h, after, k);
      PassesLooksBack(h, after, k);
    }
  }

  /** After every step of the pass the task is disciplined. */
  ghost predicate AlwaysDisciplined(h: History, i: nat, previous: Option<nat>, course: Course)
    requires |h.statuses| == |h.inputs|
    decreases |h.inputs| - i
  {
    if i >= |h.inputs| then true
    else if h.statuses[i] == Completed then AlwaysDisciplined(h, i + 1, previous, course)
    else
      var after := Execute(h, i, previous, course);
      && Disciplined(after)
      && (Completes(h, i, previous, course) ==> AlwaysDisciplined(after, i + 1, Some(i), course))
  }

  /** At some step, not the first to be executed, a pause comes late and the step completes all the same. */
  ghost predicate LatePause(h: History, i: nat, previous: Option<nat>, course: Course)
    requires |h.statuses| == |h.inputs|
    decreases |h.inputs| - i
  {
    if i >= |h.inputs| then false
    else if h.statuses[i] == Completed then LatePause(h, i + 1, previous, course)
    else
      && Completes(h, i, previous, course)
      && ((previous.Some? && !course.pauses(i).NoPause?)
          || LatePause(Execute(h, i, previous, course), i + 1, Some(i), course))
  }

  /** How the three unfold at a step that is executed. */
  lemma {:induction false} PassUnfolds(h: History, i: nat, previous: Option<nat>, course: Course)
    requires |h.statuses| == |h.inputs| && i < |h.inputs| && h.statuses[i] != Completed
    ensures var after, completes := Execute(h, i, previous, course), Completes(h, i, previous, course);
            && Pass(h, i, previous, course) == (if completes then Pass(after, i + 1, Some(i), course) else after)
            && (AlwaysDisciplined(h, i, previous, course) <==>
                  Disciplined(after) && (completes ==> AlwaysDisciplined(after, i + 1, Some(i), course)))
            && (LatePause(h, i, previous, course) <==>
                  completes && ((previous.Some? && !course.pauses(i).NoPause?)
                                || LatePause(after, i + 1, Some(i), course)))
  {
  }

  ghost predicate RightFrom(h: History, i: nat, previous: Option<nat>, course: Course)
    requires |h.statuses| == |h.inputs|
  {
    && (AlwaysDisciplined(h, i, previous, course) <==> !LatePause(h, i, previous, course))
    && (AlwaysDisciplined(h, i, previous, course) ==> Disciplined(Pass(h, i, previous, course)))
  }

  lemma {:induction false} ExecutedStepDecides(h: History, i: nat, previous: Option<nat>, course: Course)
    requires Underway(h, i, previous) && i < |h.inputs| && h.statuses[i] != Completed
    requires var after := Execute(h, i, previous, course);
             Underway(after, i + 1, Some(i)) && Completes(h, i, previous, course) ==>
               RightFrom(after, i + 1, Some(i), course)
    ensures RightFrom(h, i, previous, course)
  {
    PassUnfolds(h, i, previous, course);
    ExecutingKeepsDisciplineExactly(h, i, previous, course);
  }

  lemma {:induction false} SkippedStepDecides(h: History, i: nat, previous: Option<nat>, course: Course)
    requires |h.statuses| == |h.inputs| && i < |h.inputs| && h.statuses[i] == Completed
    requires RightFrom(h, i + 1, previous, course)
    ensures RightFrom(h, i, previous, course)
  {
  }

  lemma {:induction false} SkippingStaysUnderway(h: History, i: nat, previous: Option<nat>)
    requires Underway(h, i, previous) && i < |h.inputs| && h.statuses[i] == Completed
    ensures Underway(h, i + 1, previous)
  {
  }

  lemma {:induction false} NothingLeftIsRight(h: History, i: nat, previous: Option<nat>, course: Course)
    requires Underway(h, i, previous) && i >= |h.inputs|
    ensures RightFrom(h, i, previous, course)
  {
  }

  lemma {:induction false} PassIsRight(h: History, i: nat, previous: Option<nat>, course: Course)
    requires |h.statuses| == |h.inputs| && Underway(h, i, previous)
    ensures RightFrom(h, i, previous, course)
    decreases |h.inputs| - i
  {
    hide *;
    if i >= |h.inputs| {
      NothingLeftIsRight(h, i, previous, course);
    } else if h.statuses[i] == Completed {
      SkippingStaysUnderway(h, i, previous);
      PassIsRight(h, i + 1, previous, course);
      SkippedStepDecides(h, i, previous, course);
    } else {
      var after := Execute(h, i, previous, course);
      if Underway(after, i + 1, Some(i)) {
        PassIsRight(after, i + 1, Some(i), course);
      }
      ExecutedStepDecides(h, i, previous, course);
    }
  }

  /** A pass keeps the completed steps in front and evidenced, all along, exactly when no pause comes late. */
  lemma {:induction false} PassKeepsDiscipline(h: History, i: nat, previous: Option<nat>, course: Course)
    requires Underway(h, i, previous)
    ensures AlwaysDisciplined(h, i, previous, course) <==> !LatePause(h, i, previous, course)
    ensures AlwaysDisciplined(h, i, previous, course) ==> Disciplined(Pass(h, i, previous, course))
  {
    PassIsRight(h, i, previous, course);
  }

  lemma {:induction false} RequeueKeepsDiscipline(h: History)
    requires Disciplined(h)
    ensures Disciplined(Requeue(h))
  {
    var r := Requeue(h);
    forall k | 0 <= k < |r.statuses| && r.statuses[k] == Completed ensures Passes(r, k) {
      assert AgreeBelow(h, r, k);
      PassesLooksBack(h, r, k);
    }
  }

  /** The task as pass n finds it. */
  ghost function Before(inputs: seq<StepInput>, runs: seq<Course>, n: nat): (h: History)
    requires n <= |runs|
    ensures h.inputs == inputs && |h.statuses| == |inputs|
  {
    Requeue(AfterRuns(inputs, runs[..n]))
  }

  /** In no pass does a pause come late. */
  ghost predicate Timely(inputs: seq<StepInput>, runs: seq<Course>) {
    forall n | 0 <= n < |runs| :: !LatePause(Before(inputs, runs, n), 0, None, runs[n])
  }

  ghost predicate DisciplinedThroughout(inputs: seq<StepInput>, runs: seq<Course>) {
    forall n | 0 <= n < |runs| :: AlwaysDisciplined(Before(inputs, runs, n), 0, None, runs[n])
  }

  lemma {:induction false} PassOfRuns(inputs: seq<StepInput>, runs: seq<Course>, n: nat)
    requires n < |runs| && Disciplined(AfterRuns(inputs, runs[..n]))
    ensures AlwaysDisciplined(Before(inputs, runs, n), 0, None, runs[n]) <==>
            !LatePause(Before(inputs, runs, n), 0, None, runs[n])
    ensures AlwaysDisciplined(Before(inputs, runs, n), 0, None, runs[n]) ==>
              Disciplined(AfterRuns(inputs, runs[..n + 1]))
  {
    RequeueKeepsDiscipline(AfterRuns(inputs, runs[..n]));
    PassKeepsDiscipline(Before(inputs, runs, n), 0, None, runs[n]);
    assert runs[..n + 1][..n] == runs[..n] && runs[..n + 1][n] == runs[n];
  }

  /** Up to pass n; the later ones do not matter to that. */
  lemma {:induction false} DisciplinedUpTo(inputs: seq<StepInput>, runs: seq<Course>, n: nat)
    requires n <= |runs|
    requires Timely(inputs, runs) || DisciplinedThroughout(inputs, runs)
    ensures Disciplined(AfterRuns(inputs, runs[..n]))
  {
    if n > 0 {
      DisciplinedUpTo(inputs, runs, n - 1);
      PassOfRuns(inputs, runs, n - 1);
    }
  }

  /**
  However often a task is stopped and resumed: its completed steps come first, and each of them had the evidence it
  needed, throughout all passes exactly when no pause comes late in any of them.
  */
  lemma {:induction false} RunsAreDisciplined(inputs: seq<StepInput>, runs: seq<Course>)
    ensures DisciplinedThroughout(inputs, runs) <==> Timely(inputs, runs)
    ensures Timely(inputs, runs) ==> Disciplined(AfterRuns(inputs, runs))
  {
    if Timely(inputs, runs) || DisciplinedThroughout(inputs, runs) {
      forall n | 0 <= n < |runs|
        ensures AlwaysDisciplined(Before(inputs, runs, n), 0, None, runs[n]) <==>
                !LatePause(Before(inputs, runs, n), 0, None, runs[n])
      {
        DisciplinedUpTo(inputs, runs, n);
        PassOfRuns(inputs, runs, n);
      }
      DisciplinedUpTo(inputs, runs, |runs|);
      assert runs[..|runs|] == runs;
    }
  }

  /** In every run a completed write or edit of a path comes after a completed read of it ... */
  lemma {:induction false} MutationsAreRead(inputs: seq<StepInput>, runs: seq<Course>, j: nat, path: string)
    requires Timely(inputs, runs) && MutatesAt(AfterRuns(inputs, runs), j, path)
    ensures FreshRead(AfterRuns(inputs, runs), j, path)
  {
    RunsAreDisciplined(inputs, runs);
  }

  /** ... and between two completed writes or edits of the same path there is a completed read of it. */
  lemma {:induction false} ReadBetweenMutations(inputs: seq<StepInput>, runs: seq<Course>, i: nat, j: nat,
                                                path: string)
    requires Timely(inputs, runs)
    requires i < j && MutatesAt(AfterRuns(inputs, runs), i, path) && MutatesAt(AfterRuns(inputs, runs), j, path)
    ensures exists r: nat | i < r < j :: ReadsAt(AfterRuns(inputs, runs), r, path)
  {
    var h := AfterRuns(inputs, runs);
    MutationsAreRead(inputs, runs, j, path);
    var r: nat :| r < j && ReadsAt(h, r, path) && Undisturbed(h, r, j, path);
    assert !(r < i) && r != i;
  }

  // ---- A pause that comes late ----

  const LATE := Course(_ => Completed, i => if i == 1 then AfterGuard else NoPause)

  /**
  A read and a write of one path, and a pause after the guard has passed the write: the read is marked as paused, the
  write completes, and no completed read is left before it.
  */
  lemma {:induction false} LatePauseLosesTheEvidence(path: string)
    requires path != "" && Text.Trim(path) == path
    ensures var inputs := [StepInput(Read, Some(path)), StepInput(Write, Some(path))];
            var h := AfterRuns(inputs, [LATE]);
            && h.statuses == [Paused, Completed] && MutatesAt(h, 1, path) && !FreshRead(h, 1, path)
  {
    var inputs := [StepInput(Read, Some(path)), StepInput(Write, Some(path))];
    var start := History(inputs, [Queued, Queued]);
    var read := History(inputs, [Completed, Queued]);
    assert Requeue(AfterRuns(inputs, [LATE][..0])) == start;
    assert Passes(start, 0) && Execute(start, 0, None, LATE) == read;
    assert ReadsAt(read, 0, path) && Undisturbed(read, 0, 1, path);
    assert Passes(read, 1);
    var h := History(inputs, [Paused, Completed]);
    assert Execute(read, 1, Some(0), LATE) == h;
    assert Pass(h, 2, Some(1), LATE) == h;
    assert Pass(read, 1, Some(0), LATE) == h;
    assert Pass(start, 0, None, LATE) == h;
  }
}
