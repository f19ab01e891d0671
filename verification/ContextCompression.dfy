/** Replacing the outputs of older steps by short summaries once a session has grown long. */
module ContextCompression {
  import opened AgentTasks
  import opened Options
  import Text

  /** Read from the environment; whatever is set there ends up within `Allowed`. */
  datatype Settings = Settings(triggerBytes: nat, failureStreak: nat, longSession: nat, keepRecent: nat,
                               summaryMaxChars: nat)

  const DEFAULTS := Settings(24 * 1024, 2, 8, 3, 240)

  predicate Allowed(s: Settings) {
    && s.triggerBytes >= 1024 && s.failureStreak >= 1 && s.longSession >= 1 && s.keepRecent >= 1
    && 64 <= s.summaryMaxChars <= 2000
  }

  const PREFIX := "[compressed-output] "
  const U64_MAX: nat := 0xffff_ffff_ffff_ffff

  function Saturated(n: nat): nat {
    if n <= U64_MAX then n else U64_MAX
  }

  // ---- Summaries ----

  function WordLength(s: string): (k: nat)
    ensures k <= |s| && (forall i | 0 <= i < k :: !Text.IsSpace(s[i])) && (k < |s| ==> Text.IsSpace(s[k]))
  {
    if s == "" || Text.IsSpace(s[0]) then 0 else 1 + WordLength(s[1..])
  }

  /** The words of a text: its longest stretches without white space. */
  function Words(s: string): (words: seq<string>)
    decreases |s|
  {
    if s == "" then []
    else if Text.IsSpace(s[0]) then Words(s[1..])
    else
      var k := WordLength(s);
      assert k > 0;
      [s[..k]] + Words(s[k..])
  }

  function JoinWords(words: seq<string>): string {
    if words == [] then ""
    else if |words| == 1 then words[0]
    else words[0] + " " + JoinWords(words[1..])
  }

  function Summary(text: string, maxChars: nat): string {
    var normalized := JoinWords(Words(text));
    if |normalized| <= maxChars then normalized else normalized[..maxChars] + "..."
  }

  predicate IsWord(w: string) {
    w != "" && forall i | 0 <= i < |w| :: !Text.IsSpace(w[i])
  }

  predicate AllWords(words: seq<string>) {
    forall i | 0 <= i < |words| :: IsWord(words[i])
  }

  lemma {:induction false} WordsAreWords(s: string)
    ensures AllWords(Words(s))
    ensures Words(s) == [] <==> Text.Blank(s)
    decreases |s|
  {
    if s != "" {
      if Text.IsSpace(s[0]) {
        WordsAreWords(s[1..]);
        assert forall i | 1 <= i < |s| :: s[i] == s[1..][i - 1];
      } else {
        WordsAreWords(s[WordLength(s)..]);
      }
    }
  }

  lemma {:induction false} FirstWord(w: string, rest: string)
    requires IsWord(w) && (rest == "" || Text.IsSpace(rest[0]))
    ensures Words(w + rest) == [w] + Words(rest)
  {
    var s := w + rest;
    var k := WordLength(s);
    assert forall i | 0 <= i < |w| :: s[i] == w[i];
    assert |w| < |s| ==> s[|w|] == rest[0];
    assert k == |w|;
    assert s[..k] == w && s[k..] == rest;
  }

  /** Joined words read as the same words. */
  lemma {:induction false} WordsOfJoin(words: seq<string>)
    requires AllWords(words)
    ensures Words(JoinWords(words)) == words
  {
    if |words| == 1 {
      FirstWord(words[0], "");
      assert words[0] + "" == words[0];
    } else if words != [] {
      var rest := JoinWords(words[1..]);
      WordsOfJoin(words[1..]);
      FirstWord(words[0], " " + rest);
      assert words[0] + " " + rest == words[0] + (" " + rest);
      assert (" " + rest)[1..] == rest;
    }
  }

  /** A summary has the words of the text when they fit, and otherwise exactly the allowed characters and dots. */
  lemma {:induction false} SummaryKeepsWords(text: string, maxChars: nat)
    ensures |Summary(text, maxChars)| <= maxChars + 3
    ensures |JoinWords(Words(text))| <= maxChars ==> Words(Summary(text, maxChars)) == Words(text)
    ensures |JoinWords(Words(text))| > maxChars ==> |Summary(text, maxChars)| == maxChars + 3
  {
    WordsAreWords(text);
    WordsOfJoin(Words(text));
  }

  lemma {:induction false} TrimmedBlank(s: string)
    ensures Text.Trim(s) == "" <==> Text.Blank(s)
    decreases |s|
  {
    if s != "" {
      if Text.IsSpace(s[0]) {
        TrimmedBlank(s[1..]);
        assert forall i | 1 <= i < |s| :: s[i] == s[1..][i - 1];
      } else if Text.IsSpace(s[|s| - 1]) {
        TrimmedBlank(s[..|s| - 1]);
        assert s[..|s| - 1][0] == s[0];
      }
    }
  }

  /** So the test for an empty summary never fires after the test for a blank output. */
  lemma {:induction false} SummaryIsEmptyExactlyWhenBlank(text: string, maxChars: nat)
    requires maxChars > 0
    ensures Summary(text, maxChars) == "" <==> Text.Trim(text) == ""
  {
    TrimmedBlank(text);
    WordsAreWords(text);
    if Words(text) != [] {
      assert IsWord(Words(text)[0]);
      assert JoinWords(Words(text)) != "";
    }
  }

  // ---- One step ----

  /** Bytes in UTF-8. */
  function Bytes(s: string): nat {
    if s == "" then 0
    else
      (if s[0] < '\U{80}' then 1 else if s[0] < '\U{800}' then 2 else if s[0] < '\U{10000}' then 3 else 4)
      + Bytes(s[1..])
  }

  /** Characters take one to four bytes, and texts the sum of theirs. */
  lemma {:induction false} BytesAdd(s: string, t: string)
    ensures Bytes(s + t) == Bytes(s) + Bytes(t)
  {
    if s == "" {
      assert s + t == t;
    } else {
      BytesAdd(s[1..], t);
      assert (s + t)[1..] == s[1..] + t;
    }
  }

  lemma {:induction false} BytesOfOne(c: char)
    ensures Bytes([c]) == 1 <==> c as int < 0x80
    ensures Bytes([c]) == 2 <==> 0x80 <= c as int < 0x800
    ensures Bytes([c]) == 3 <==> 0x800 <= c as int < 0x1_0000
    ensures Bytes([c]) == 4 <==> 0x1_0000 <= c as int
  {
    assert Bytes([c][1..]) == 0;
  }

  predicate SaysCompressed(m: Metadata) {
    m.Object? && (m.note.CompressedNote? || (m.note.OtherNote? && m.note.compressed))
  }

  function Noted(m: Metadata, note: Note): Metadata {
    Object(if m.Object? then m.rest else "{}", note)
  }

  /** The step has an output that is not blank and not compressed yet; its status does not matter. */
  predicate Compressible(step: StepSummary) {
    !SaysCompressed(step.metadata) && step.output.Some? && Text.Trim(step.output.value) != ""
  }

  function CompressedOutput(step: StepSummary, maxChars: nat): string
    requires step.output.Some?
  {
    PREFIX + Summary(step.output.value, maxChars)
  }

  function CompressedStep(step: StepSummary, maxChars: nat, now: nat): StepSummary
    requires step.output.Some?
  {
    var output := CompressedOutput(step, maxChars);
    step.(output := Some(output),
          updatedAt := now,
          metadata := Noted(step.metadata,
                            CompressedNote(now, Saturated(Bytes(step.output.value)), Saturated(Bytes(output)),
                                           |Summary(step.output.value, maxChars)|, maxChars)))
  }

  /** A record is compressed unless it has been, by whoever, or has no output but white space. */
  lemma {:induction false} CompressibleExactly(step: StepSummary)
    ensures Compressible(step) <==>
            && step.output != None && !Text.Blank(step.output.value)
            && (step.metadata.Object? ==>
                  !step.metadata.note.CompressedNote?
                  && (step.metadata.note.OtherNote? ==> !step.metadata.note.compressed))
  {
    if step.output.Some? {
      TrimmedBlank(step.output.value);
    }
  }

  /** What compression changes on a record, and that it changes nothing else. */
  lemma {:induction false} CompressionMeans(step: StepSummary, maxChars: nat, now: nat)
    requires Compressible(step)
    ensures var after := CompressedStep(step, maxChars, now);
            && after.output == Some("[compressed-output] " + Summary(step.output.value, maxChars))
            && after.updatedAt == now && SaysCompressed(after.metadata)
            && (step.metadata.Object? ==> after.metadata.rest == step.metadata.rest)
            && after.metadata.note.at == now && after.metadata.note.summaryMaxChars == maxChars
            && after.metadata.note.summaryChars == |Summary(step.output.value, maxChars)|
            && (Bytes(step.output.value) <= U64_MAX ==>
                  after.metadata.note.originalBytes == Bytes(step.output.value))
            && (Bytes(after.output.value) <= U64_MAX ==>
                  after.metadata.note.compressedBytes == Bytes(after.output.value))
            && after.(output := step.output, updatedAt := step.updatedAt, metadata := step.metadata) == step
  {
  }

  /** The second record is the compression of the first, with the limit and the time it names itself. */
  predicate IsCompressionOf(before: StepSummary, after: StepSummary) {
    && Compressible(before) && after.metadata.Object? && after.metadata.note.CompressedNote?
    && after == CompressedStep(before, after.metadata.note.summaryMaxChars, after.updatedAt)
  }

  /** The same record, or that record compressed once. */
  predicate Follows(before: StepSummary, after: StepSummary) {
    after == before || IsCompressionOf(before, after)
  }

  lemma {:induction false} CompressionFollows(step: StepSummary, maxChars: nat, now: nat)
    requires Compressible(step)
    ensures var after := CompressedStep(step, maxChars, now);
            && IsCompressionOf(step, after) && !Compressible(after) && after != step
            && after.status == step.status && !Follows(after, step)
  {
  }

  /** A record is compressed at most once, so following is transitive and nothing follows back. */
  lemma {:induction false} FollowsOnce(a: StepSummary, b: StepSummary, c: StepSummary)
    requires Follows(a, b) && Follows(b, c)
    ensures Follows(a, c) && (b == a || c == b) && b.status == a.status
    ensures Follows(c, a) <==> c == a
  {
  }

  // ---- The steps of a task ----

  function Bound(current: nat, keepRecent: nat): nat {
    if current > keepRecent then current - keepRecent else 0
  }

  predicate Rewrites(steps: seq<StepSummary>, bound: nat, i: nat) {
    i < |steps| && i < bound && Compressible(steps[i])
  }

  function Compress(steps: seq<StepSummary>, bound: nat, maxChars: nat, now: nat): (r: seq<StepSummary>)
    ensures |r| == |steps|
    ensures forall i | 0 <= i < |steps| ::
              r[i] == if i < bound then CompressIfPossible(steps[i], maxChars, now) else steps[i]
  {
    seq(|steps|, i requires 0 <= i < |steps| =>
      if i < bound then CompressIfPossible(steps[i], maxChars, now) else steps[i])
  }

  datatype Totals = Totals(compressedSteps: nat, originalBytes: nat, compressedBytes: nat)

  function Counted(t: Totals, step: StepSummary, maxChars: nat): Totals
    requires step.output.Some?
  {
    Totals(Saturated(t.compressedSteps + 1),
           Saturated(t.originalBytes + Saturated(Bytes(step.output.value))),
           Saturated(t.compressedBytes + Saturated(Bytes(CompressedOutput(step, maxChars)))))
  }

  /** The totals over the first n steps. */
  function TotalsOf(steps: seq<StepSummary>, n: nat, maxChars: nat): Totals
    requires n <= |steps|
  {
    if n == 0 then Totals(0, 0, 0)
    else
      var before := TotalsOf(steps, n - 1, maxChars);
      if Compressible(steps[n - 1]) then Counted(before, steps[n - 1], maxChars) else before
  }

  function AtMost(n: nat, limit: nat): (r: nat)
    ensures r <= n && r <= limit && (r == n || r == limit)
  {
    if n <= limit then n else limit
  }

  /** Rewrites the steps in place, oldest first, up to those that are kept as they are. */
  method ExecuteContextCompression(steps: array<StepSummary>, current: nat, settings: Settings, now: nat)
    returns (result: Totals)
    requires Allowed(settings)
    modifies steps
    ensures steps[..] == Compress(old(steps[..]), Bound(current, settings.keepRecent), settings.summaryMaxChars, now)
    ensures result == TotalsOf(old(steps[..]), AtMost(Bound(current, settings.keepRecent), steps.Length),
                               settings.summaryMaxChars)
  {
    var bound, maxChars := Bound(current, settings.keepRecent), settings.summaryMaxChars;
    result := Totals(0, 0, 0);
    if bound == 0 {
      return;
    }
    ghost var before := steps[..];
    var index := 0;
    while index < steps.Length && index < bound
      invariant 0 <= index <= AtMost(bound, steps.Length)
      invariant ReplacedBelow(before, steps[..], index, step => CompressIfPossible(step, maxChars, now))
      invariant result == TotalsOf(before, index, maxChars)
    {
      ReplaceNext(before, steps[..], index, step => CompressIfPossible(step, maxChars, now));
      steps[index], result := CompressOne(steps[index], maxChars, now, result);
      index := index + 1;
    }
    ReplacedAll(before, steps[..], bound, maxChars, now);
  }

  /** The elements below the index have been replaced, the others are as before. */
  ghost predicate ReplacedBelow<T(!new)>(before: seq<T>, after: seq<T>, index: nat, one: T -> T) {
    && |before| == |after| && index <= |before|
    && (forall k | 0 <= k < index :: after[k] == one(before[k]))
    && forall k | index <= k < |before| :: after[k] == before[k]
  }

  lemma {:induction false} ReplaceNext<T(!new)>(before: seq<T>, after: seq<T>, index: nat, one: T -> T)
    requires ReplacedBelow(before, after, index, one) && index < |before|
    ensures after[index] == before[index]
    ensures ReplacedBelow(before, after[index := one(after[index])], index + 1, one)
  {
  }

  lemma {:induction false} ReplacedAll(before: seq<StepSummary>, after: seq<StepSummary>, bound: nat, maxChars: nat,
                                       now: nat)
    requires ReplacedBelow(before, after, AtMost(bound, |before|), step => CompressIfPossible(step, maxChars, now))
    ensures after == Compress(before, bound, maxChars, now)
  {
  }

  function CompressIfPossible(step: StepSummary, maxChars: nat, now: nat): StepSummary {
    if Compressible(step) then CompressedStep(step, maxChars, now) else step
  }

  method CompressOne(step: StepSummary, maxChars: nat, now: nat, totals: Totals)
    returns (after: StepSummary, result: Totals)
    requires maxChars > 0
    ensures after == CompressIfPossible(step, maxChars, now)
    ensures result == if Compressible(step) then Counted(totals, step, maxChars) else totals
  {
    after, result := step, totals;
    if SaysCompressed(step.metadata) || step.output.None? || Text.Trim(step.output.value) == "" {
      return;
    }
    var summary := Summary(step.output.value, maxChars);
    SummaryIsEmptyExactlyWhenBlank(step.output.value, maxChars);
    if summary == "" {
      return;
    }
    var output := PREFIX + summary;
    var original, compressed := Saturated(Bytes(step.output.value)), Saturated(Bytes(output));
    var note := CompressedNote(now, original, compressed, |summary|, maxChars);
    after := step.(output := Some(output), updatedAt := now, metadata := Noted(step.metadata, note));
    result := Totals(Saturated(totals.compressedSteps + 1), Saturated(totals.originalBytes + original),
                     Saturated(totals.compressedBytes + compressed));
  }

  ghost function RewrittenSteps(steps: seq<StepSummary>, n: nat): set<nat> {
    Chosen(steps, n, Compressible)
  }

  ghost function Chosen<T(!new)>(xs: seq<T>, n: nat, choose: T -> bool): set<nat> {
    set i: nat | i < |xs| && i < n && choose(xs[i])
  }

  lemma {:induction false} OneMoreChosen<T(!new)>(xs: seq<T>, n: nat, choose: T -> bool)
    requires n < |xs|
    ensures |Chosen(xs, n + 1, choose)| == |Chosen(xs, n, choose)| + if choose(xs[n]) then 1 else 0
  {
    assert Chosen(xs, n + 1, choose) == Chosen(xs, n, choose) + if choose(xs[n]) then {n} else {};
  }

  /** The first total is how many records were rewritten. */
  lemma {:induction false} TotalsCountTheRewritten(steps: seq<StepSummary>, n: nat, maxChars: nat)
    requires n <= |steps|
    ensures TotalsOf(steps, n, maxChars).compressedSteps == Saturated(|RewrittenSteps(steps, n)|)
  {
    if n == 0 {
      assert RewrittenSteps(steps, 0) == {};
    } else {
      TotalsCountTheRewritten(steps, n - 1, maxChars);
      OneMoreChosen(steps, n - 1, Compressible);
    }
  }

  /** The bytes of all records that are rewritten among the first n, before and after. */
  function ByteSums(steps: seq<StepSummary>, n: nat, maxChars: nat): (nat, nat)
    requires n <= |steps|
  {
    if n == 0 then (0, 0)
    else
      var before := ByteSums(steps, n - 1, maxChars);
      if Compressible(steps[n - 1]) then
        (before.0 + Bytes(steps[n - 1].output.value), before.1 + Bytes(CompressedOutput(steps[n - 1], maxChars)))
      else before
  }

  lemma {:induction false} SaturatedSums(a: nat, b: nat)
    ensures Saturated(Saturated(a) + Saturated(b)) == Saturated(a + b)
  {
  }

  /** The other two totals are those sums, cut off at 2^64 - 1. */
  lemma {:induction false} TotalsAreSums(steps: seq<StepSummary>, n: nat, maxChars: nat)
    requires n <= |steps|
    ensures TotalsOf(steps, n, maxChars).originalBytes == Saturated(ByteSums(steps, n, maxChars).0)
    ensures TotalsOf(steps, n, maxChars).compressedBytes == Saturated(ByteSums(steps, n, maxChars).1)
  {
    if n > 0 {
      TotalsAreSums(steps, n - 1, maxChars);
      if Compressible(steps[n - 1]) {
        var before := ByteSums(steps, n - 1, maxChars);
        SaturatedSums(before.0, Bytes(steps[n - 1].output.value));
        SaturatedSums(before.1, Bytes(CompressedOutput(steps[n - 1], maxChars)));
      }
    }
  }

  // ---- When a finished step triggers it ----

  /** How many steps in a row have failed, the finished one included; none when it has completed. */
  method CountRecentConsecutiveFailures(prior: seq<Status>, completed: bool) returns (failures: nat)
    ensures failures == ConsecutiveFailures(prior, completed)
  {
    if completed {
      return 0;
    }
    failures := 1;
    var i := |prior|;
    assert prior[..i] == prior;
    while i > 0 && prior[i - 1] == Failed
      invariant 0 <= i <= |prior|
      invariant failures + FailedAtEnd(prior[..i]) == 1 + FailedAtEnd(prior)
    {
      OneMoreStatus(prior, i);
      failures := failures + 1;
      i := i - 1;
    }
    if i > 0 { OneMoreStatus(prior, i); }
  }

  lemma {:induction false} OneMoreStatus(statuses: seq<Status>, i: nat)
    requires 0 < i <= |statuses|
    ensures FailedAtEnd(statuses[..i]) ==
            if statuses[i - 1] == Failed then 1 + FailedAtEnd(statuses[..i - 1]) else 0
  {
    assert statuses[..i][..i - 1] == statuses[..i - 1] && statuses[..i][i - 1] == statuses[i - 1];
  }

  function FailedAtEnd(statuses: seq<Status>): (n: nat)
    ensures n <= |statuses| && (forall i | |statuses| - n <= i < |statuses| :: statuses[i] == Failed)
    ensures n < |statuses| ==> statuses[|statuses| - n - 1] != Failed
  {
    if statuses == [] || statuses[|statuses| - 1] != Failed then 0
    else 1 + FailedAtEnd(statuses[..|statuses| - 1])
  }

  function ConsecutiveFailures(prior: seq<Status>, completed: bool): nat {
    if completed then 0 else 1 + FailedAtEnd(prior)
  }

  function Statuses(steps: seq<StepSummary>): (r: seq<Status>)
    ensures |r| == |steps| && forall i | 0 <= i < |steps| :: r[i] == steps[i].status
  {
    seq(|steps|, i requires 0 <= i < |steps| => steps[i].status)
  }

  /** The size of the finished step, a run of failures, or the length of the session. */
  predicate Triggers(settings: Settings, payloadBytes: nat, prior: seq<Status>, completed: bool, stepCount: nat) {
    || payloadBytes >= settings.triggerBytes
    || ConsecutiveFailures(prior, completed) >= settings.failureStreak
    || stepCount >= settings.longSession
  }

  /** By default: 24 KiB, two failures in a row, the finished step being the second, or eight steps. */
  lemma {:induction false} DefaultTriggers(payloadBytes: nat, prior: seq<Status>, completed: bool, stepCount: nat)
    ensures Triggers(DEFAULTS, payloadBytes, prior, completed, stepCount) <==>
            || payloadBytes >= 24576 || stepCount >= 8
            || (!completed && prior != [] && prior[|prior| - 1] == Failed)
    ensures DEFAULTS.keepRecent == 3 && DEFAULTS.summaryMaxChars == 240 && Allowed(DEFAULTS)
  {
  }

  /** The steps after step `index` has been executed, before its own record is written. */
  function AfterExecution(steps: seq<StepSummary>, index: nat, payloadBytes: nat, completed: bool, settings: Settings,
                          now: nat): seq<StepSummary>
    requires index < |steps|
  {
    if Triggers(settings, payloadBytes, Statuses(steps[..index]), completed, index + 1) then
      Compress(steps, Bound(index, settings.keepRecent), settings.summaryMaxChars, now)
    else steps
  }

  /**
  Which records a finished step rewrites: those of the steps before the recent ones that can be compressed, when
  compression is triggered at all. Every other record stays as it is, and every status does.
  */
  lemma {:induction false} RewrittenExactly(steps: seq<StepSummary>, index: nat, payloadBytes: nat, completed: bool,
                                            settings: Settings, now: nat, j: nat)
    requires index < |steps| && j < |steps|
    ensures var after := AfterExecution(steps, index, payloadBytes, completed, settings, now);
            && |after| == |steps| && after[j].status == steps[j].status && Follows(steps[j], after[j])
            && (after[j] != steps[j] <==>
                  && Triggers(settings, payloadBytes, Statuses(steps[..index]), completed, index + 1)
                  && j + settings.keepRecent < index && Compressible(steps[j]))
  {
    if Compressible(steps[j]) {
      CompressionFollows(steps[j], settings.summaryMaxChars, now);
    }
  }

  /** With the default settings the eighth step rewrites the records of the first four, completed as they are. */
  lemma {:induction false} EighthStepRewritesCompletedSteps(steps: seq<StepSummary>, payloadBytes: nat, now: nat,
                                                            j: nat)
    requires |steps| >= 8 && j < 4 && steps[j].status == Completed && Compressible(steps[j])
    ensures var after := AfterExecution(steps, 7, payloadBytes, true, DEFAULTS, now);
            && |after| == |steps| && after[j] != steps[j] && after[j].status == Completed
            && after[j].output == Some(CompressedOutput(steps[j], DEFAULTS.summaryMaxChars))
  {
    RewrittenExactly(steps, 7, payloadBytes, true, DEFAULTS, now, j);
  }
}
