/**
The runtime policy engine: rules are grouped per known action once, when the engine is built, and a decision
then looks only at the group. An unknown action is decided by scanning all the rules.
*/
module PolicyEngine {
  import opened Options
  import Glob
  import PolicyPaths
  import Regex
  import Text

  const ACTIONS: seq<string> := [
    "file.read", "file.write", "file.*", "network.request", "connector.read", "connector.action"
  ]

  datatype DecisionType = Allow | AllowWithConfirm | Deny

  datatype RiskTag = Delete | Overwrite | Network | Connector | Batch

  datatype Conditions = Conditions(
    pathWithinGrant: Option<bool>,
    pathWithinOutputRoot: Option<bool>,
    matchesPattern: Option<seq<string>>,
    fileSizeGreaterThan: Option<nat>,
    hostInAllowlist: Option<bool>,
    connectorScopeAllowed: Option<bool>)

  datatype Rule = Rule(
    id: string,
    action: string,
    conditions: Option<Conditions>,
    decision: DecisionType,
    riskTags: Option<seq<RiskTag>>,
    reason: Option<string>)

  datatype Config = Config(version: string, fallback: DecisionType, rules: seq<Rule>)

  datatype Input = Input(
    action: string,
    path: Option<string>,
    grantRoots: seq<string>,
    outputRoots: seq<string>,
    fileSizeBytes: Option<nat>,
    host: Option<string>,
    hostAllowlist: seq<string>,
    connectorScopeAllowed: Option<bool>)

  datatype Context = Context(
    pathWithinGrant: bool,
    pathWithinOutputRoot: bool,
    hostInAllowlist: bool,
    connectorScopeAllowed: bool,
    fileSizeBytes: Option<nat>,
    normalizedPath: Option<string>)

  datatype Decision = Decision(
    decision: DecisionType,
    requiresConfirmation: bool,
    reason: string,
    riskTags: seq<RiskTag>,
    ruleId: Option<string>)

  datatype ConfigError = UnsupportedVersion | EmptyRuleId | InvalidAction(action: string)

  // ---- Validation ----

  function RuleError(rule: Rule): Option<ConfigError> {
    if Text.Trim(rule.id) == "" then Some(EmptyRuleId)
    else if rule.action !in ACTIONS then Some(InvalidAction(rule.action))
    else None
  }

  /** The first rule in order that is not acceptable decides the error. */
  function FirstRuleError(rules: seq<Rule>): (r: Option<ConfigError>)
    ensures r.None? <==> forall i | 0 <= i < |rules| :: RuleError(rules[i]).None?
  {
    if rules == [] then None
    else if RuleError(rules[0]).Some? then RuleError(rules[0])
    else FirstRuleError(rules[1..])
  }

  function ConfigErrorOf(config: Config): Option<ConfigError> {
    if config.version != "1.0" then Some(UnsupportedVersion) else FirstRuleError(config.rules)
  }

  /** An id that is not blank, and one of the six known actions. */
  predicate Sound(rule: Rule) {
    && Text.Trim(rule.id) != ""
    && (rule.action == "file.read" || rule.action == "file.write" || rule.action == "file.*"
        || rule.action == "network.request" || rule.action == "connector.read" || rule.action == "connector.action")
  }

  /** Rule i is the first that is not sound, and the error says what is wrong with it. */
  ghost predicate IsFirstFault(rules: seq<Rule>, i: nat, error: ConfigError) {
    && i < |rules| && (forall j | 0 <= j < i :: Sound(rules[j])) && !Sound(rules[i])
    && error == if Text.Trim(rules[i].id) == "" then EmptyRuleId else InvalidAction(rules[i].action)
  }

  lemma {:induction false} RuleErrorsAreFaults(rule: Rule)
    ensures RuleError(rule).None? <==> Sound(rule)
    ensures !Sound(rule) ==>
              RuleError(rule) == Some(if Text.Trim(rule.id) == "" then EmptyRuleId else InvalidAction(rule.action))
  {
    ActionsAreSix(rule.action);
  }

  lemma {:induction false} ActionsAreSix(action: string)
    ensures action in ACTIONS <==>
            || action == "file.read" || action == "file.write" || action == "file.*"
            || action == "network.request" || action == "connector.read" || action == "connector.action"
  {
  }

  lemma {:induction false} FirstErrorIsFirstFault(rules: seq<Rule>)
    ensures FirstRuleError(rules).None? <==> forall i | 0 <= i < |rules| :: Sound(rules[i])
    ensures FirstRuleError(rules).Some? ==> exists i: nat :: IsFirstFault(rules, i, FirstRuleError(rules).value)
  {
    if rules != [] {
      RuleErrorsAreFaults(rules[0]);
      FirstErrorIsFirstFault(rules[1..]);
      assert forall i | 1 <= i < |rules| :: rules[i] == rules[1..][i - 1];
      if RuleError(rules[0]).Some? {
        assert IsFirstFault(rules, 0, FirstRuleError(rules).value);
      } else if FirstRuleError(rules[1..]).Some? {
        var i: nat :| IsFirstFault(rules[1..], i, FirstRuleError(rules[1..]).value);
        assert rules[i + 1] == rules[1..][i];
        assert IsFirstFault(rules, i + 1, FirstRuleError(rules).value);
      } else {
        forall i | 0 <= i < |rules| ensures Sound(rules[i]) {
          assert i > 0 ==> Sound(rules[1..][i - 1]);
        }
      }
    }
  }

  method Validate(config: Config) returns (error: Option<ConfigError>)
    ensures error == ConfigErrorOf(config)
    ensures error.None? <==> config.version == "1.0" && forall i | 0 <= i < |config.rules| :: Sound(config.rules[i])
    ensures error == Some(UnsupportedVersion) <==> config.version != "1.0"
    ensures error.Some? && config.version == "1.0" ==> exists i: nat :: IsFirstFault(config.rules, i, error.value)
  {
    FirstErrorIsFirstFault(config.rules);
    if config.version != "1.0" {
      return Some(UnsupportedVersion);
    }
    for i := 0 to |config.rules|
      invariant FirstRuleError(config.rules) == FirstRuleError(config.rules[i..])
    {
      var ruleError := RuleError(config.rules[i]);
      if ruleError.Some? {
        return ruleError;
      }
      assert config.rules[i..][1..] == config.rules[i + 1..];
    }
    return None;
  }

  predicate ValidConfig(config: Config) {
    ConfigErrorOf(config).None?
  }

  // ---- Matching ----

  predicate ActionMatches(ruleAction: string, inputAction: string) {
    if ruleAction == inputAction then true
    else if |ruleAction| >= 2 && ruleAction[|ruleAction| - 2..] == ".*" then
      ruleAction[..|ruleAction| - 2] + "." <= inputAction
    else if '*' in ruleAction then
      var re := Regex.Parse(Regex.Replace(Regex.Escape(ruleAction), "\\*", ".*"));
      re.Some? && Regex.Matches(re.value, inputAction)
    else false
  }

  predicate MatchBool(expected: Option<bool>, actual: bool) {
    expected.None? || expected.value == actual
  }

  predicate MatchSize(threshold: Option<nat>, size: Option<nat>) {
    threshold.None? || (size.Some? && size.value > threshold.value)
  }

  predicate MatchPatterns(patterns: Option<seq<string>>, normalizedPath: Option<string>) {
    patterns.None? ||
    (normalizedPath.Some? && exists p | p in patterns.value :: Glob.MatchGlob(normalizedPath.value, p))
  }

  predicate ConditionsMatch(conditions: Option<Conditions>, ctx: Context) {
    conditions.None? ||
    var c := conditions.value;
    && MatchBool(c.pathWithinGrant, ctx.pathWithinGrant)
    && MatchBool(c.pathWithinOutputRoot, ctx.pathWithinOutputRoot)
    && MatchPatterns(c.matchesPattern, ctx.normalizedPath)
    && MatchSize(c.fileSizeGreaterThan, ctx.fileSizeBytes)
    && MatchBool(c.hostInAllowlist, ctx.hostInAllowlist)
    && MatchBool(c.connectorScopeAllowed, ctx.connectorScopeAllowed)
  }

  function ContextOf(input: Input, cwd: Option<string>): Context {
    Context(
      input.path.Some? && PolicyPaths.WithinRoots(input.path.value, input.grantRoots, cwd),
      input.path.Some? && PolicyPaths.WithinRoots(input.path.value, input.outputRoots, cwd),
      input.host.Some? && input.host.value in input.hostAllowlist,
      input.connectorScopeAllowed == Some(true),
      input.fileSizeBytes,
      if input.path.Some? then PolicyPaths.Normalize(input.path.value, cwd) else None)
  }

  // ---- The two-pass scan, as the reference ----

  predicate Exact(rules: seq<Rule>, action: string, i: nat)
    requires i < |rules|
  {
    rules[i].action == action
  }

  predicate Wildcard(rules: seq<Rule>, action: string, i: nat)
    requires i < |rules|
  {
    rules[i].action != action && ActionMatches(rules[i].action, action)
  }

  predicate Applies(rules: seq<Rule>, ctx: Context, i: nat)
    requires i < |rules|
  {
    ConditionsMatch(rules[i].conditions, ctx)
  }

  /** The rule that decides: the first applicable exact rule, else the first applicable wildcard rule. */
  ghost predicate Decides(rules: seq<Rule>, action: string, ctx: Context, chosen: Option<nat>) {
    match chosen
    case Some(i) =>
      && i < |rules| && Applies(rules, ctx, i)
      && if Exact(rules, action, i) then
           forall j | 0 <= j < i && Exact(rules, action, j) :: !Applies(rules, ctx, j)
         else
           && Wildcard(rules, action, i)
           && (forall j | 0 <= j < |rules| && Exact(rules, action, j) :: !Applies(rules, ctx, j))
           && (forall j | 0 <= j < i && Wildcard(rules, action, j) :: !Applies(rules, ctx, j))
    case None =>
      forall j | 0 <= j < |rules| && (Exact(rules, action, j) || Wildcard(rules, action, j)) :: !Applies(rules, ctx, j)
  }

  lemma {:induction false} DecidingRuleIsUnique(rules: seq<Rule>, action: string, ctx: Context,
                                                a: Option<nat>, b: Option<nat>)
    requires Decides(rules, action, ctx, a) && Decides(rules, action, ctx, b)
    ensures a == b
  {
  }

  function DecisionBy(config: Config, chosen: Option<nat>): Decision
    requires chosen.Some? ==> chosen.value < |config.rules|
  {
    match chosen
    case None => BuildDecision(config.fallback, "fallback", [], None)
    case Some(i) =>
      var rule := config.rules[i];
      BuildDecision(rule.decision,
                    if rule.reason.Some? then rule.reason.value else "rule:" + rule.id,
                    if rule.riskTags.Some? then rule.riskTags.value else [],
                    Some(rule.id))
  }

  function BuildDecision(decision: DecisionType, reason: string, tags: seq<RiskTag>, ruleId: Option<string>): Decision {
    Decision(decision, decision == AllowWithConfirm, reason, tags, ruleId)
  }

  /** The decision of whichever rule the two passes pick, or of the fallback. */
  ghost predicate IsDecision(config: Config, action: string, ctx: Context, decision: Decision) {
    exists chosen: Option<nat> :: Decides(config.rules, action, ctx, chosen) && decision == DecisionBy(config, chosen)
  }

  /**
  The reference leaves nothing open: configuration, action and context determine decision, reason, tags and rule id.
  */
  lemma {:induction false} DecisionIsUnique(config: Config, action: string, ctx: Context, d: Decision, e: Decision)
    requires IsDecision(config, action, ctx, d) && IsDecision(config, action, ctx, e)
    ensures d == e
  {
    var a: Option<nat> :| Decides(config.rules, action, ctx, a) && d == DecisionBy(config, a);
    var b: Option<nat> :| Decides(config.rules, action, ctx, b) && e == DecisionBy(config, b);
    DecidingRuleIsUnique(config.rules, action, ctx, a, b);
  }

  // ---- What a decision says about the input ----

  /** The path leads below one of the roots, or to it: its pieces begin with that root's. */
  ghost predicate LiesWithin(path: Option<string>, roots: seq<string>, cwd: Option<string>) {
    && path.Some? && PolicyPaths.ResolvePath(path.value, cwd).Some?
    && exists i | 0 <= i < |roots| ::
         && PolicyPaths.ResolvePath(roots[i], cwd).Some?
         && PolicyPaths.WithinPieces(PolicyPaths.Pieces(PolicyPaths.ResolvePath(path.value, cwd).value),
                                     PolicyPaths.Pieces(PolicyPaths.ResolvePath(roots[i], cwd).value))
  }

  /** The pieces of the path, put together again, are described by one of the patterns. */
  ghost predicate IsDescribed(path: Option<string>, patterns: seq<string>, cwd: Option<string>) {
    && path.Some? && PolicyPaths.ResolvePath(path.value, cwd).Some?
    && var t := PolicyPaths.Render(PolicyPaths.Pieces(PolicyPaths.ResolvePath(path.value, cwd).value));
       exists p | p in patterns :: Glob.MeansDot(Glob.SlashesForward(p), t)
  }

  /** Each condition that is stated is true of the input. */
  ghost predicate Fulfils(input: Input, c: Conditions, cwd: Option<string>) {
    && (c.pathWithinGrant.Some? ==> (c.pathWithinGrant.value <==> LiesWithin(input.path, input.grantRoots, cwd)))
    && (c.pathWithinOutputRoot.Some? ==>
          (c.pathWithinOutputRoot.value <==> LiesWithin(input.path, input.outputRoots, cwd)))
    && (c.matchesPattern.Some? ==> IsDescribed(input.path, c.matchesPattern.value, cwd))
    && (c.fileSizeGreaterThan.Some? ==>
          input.fileSizeBytes.Some? && input.fileSizeBytes.value > c.fileSizeGreaterThan.value)
    && (c.hostInAllowlist.Some? ==>
          (c.hostInAllowlist.value <==> input.host.Some? && input.host.value in input.hostAllowlist))
    && (c.connectorScopeAllowed.Some? ==>
          (c.connectorScopeAllowed.value <==> input.connectorScopeAllowed == Some(true)))
  }

  ghost predicate Holds(rule: Rule, input: Input, cwd: Option<string>) {
    rule.conditions.Some? ==> Fulfils(input, rule.conditions.value, cwd)
  }

  /** The rule names the action itself, or is `p.*` for an action that begins with `p.`. */
  ghost predicate Covers(rule: Rule, action: string) {
    rule.action == action || exists p :: rule.action == p + ".*" && p + "." <= action
  }

  /** Which of two rules is looked at first: one that names the action before any wildcard, else in their order. */
  predicate ComesFirst(rules: seq<Rule>, action: string, j: nat, i: nat)
    requires j < |rules| && i < |rules|
  {
    if rules[j].action == action && rules[i].action != action then true
    else if rules[j].action != action && rules[i].action == action then false
    else j < i
  }

  /**
  The rule that answers covers the action and holds, every rule that comes first and covers the action does not hold,
  and the answer is that rule's own; without such a rule it is the fallback.
  */
  ghost predicate AnswersBy(config: Config, input: Input, cwd: Option<string>, d: Decision, chosen: Option<nat>) {
    && (d.requiresConfirmation <==> d.decision == AllowWithConfirm)
    && match chosen
       case Some(i) =>
         && i < |config.rules| && Covers(config.rules[i], input.action) && Holds(config.rules[i], input, cwd)
         && (forall j | 0 <= j < |config.rules| && Covers(config.rules[j], input.action)
                        && ComesFirst(config.rules, input.action, j, i) :: !Holds(config.rules[j], input, cwd))
         && d.decision == config.rules[i].decision && d.ruleId == Some(config.rules[i].id)
         && (config.rules[i].reason.Some? ==> d.reason == config.rules[i].reason.value)
         && (config.rules[i].reason.None? ==> d.reason == "rule:" + config.rules[i].id)
         && (config.rules[i].riskTags.Some? ==> d.riskTags == config.rules[i].riskTags.value)
         && (config.rules[i].riskTags.None? ==> d.riskTags == [])
       case None =>
         && (forall j | 0 <= j < |config.rules| && Covers(config.rules[j], input.action) ::
               !Holds(config.rules[j], input, cwd))
         && d == Decision(config.fallback, d.requiresConfirmation, "fallback", [], None)
  }

  ghost predicate AnswersInput(config: Config, input: Input, cwd: Option<string>, d: Decision) {
    exists chosen: Option<nat> :: AnswersBy(config, input, cwd, d, chosen)
  }

  lemma {:induction false} WithinIsLyingWithin(path: string, roots: seq<string>, cwd: Option<string>)
    ensures PolicyPaths.WithinRoots(path, roots, cwd) <==> LiesWithin(Some(path), roots, cwd)
  {
    PolicyPaths.WithinRootsIsPiecePrefix(path, roots, cwd);
  }

  lemma {:induction false} MatchingIsBeingDescribed(path: string, patterns: seq<string>, cwd: Option<string>)
    ensures MatchPatterns(Some(patterns), PolicyPaths.Normalize(path, cwd)) <==> IsDescribed(Some(path), patterns, cwd)
  {
    if PolicyPaths.ResolvePath(path, cwd).Some? {
      var full := PolicyPaths.ResolvePath(path, cwd).value;
      PolicyPaths.NormalFormIsItsPieces(full);
      var t := PolicyPaths.Render(PolicyPaths.Pieces(full));
      forall p ensures Glob.MatchGlob(t, p) <==> Glob.MeansDot(Glob.SlashesForward(p), t) {
        Glob.GlobMatchesExactly(t, p);
      }
    }
  }

  lemma {:induction false} ContextSpeaksOfTheInput(input: Input, cwd: Option<string>)
    ensures var ctx := ContextOf(input, cwd);
            && (ctx.pathWithinGrant <==> LiesWithin(input.path, input.grantRoots, cwd))
            && (ctx.pathWithinOutputRoot <==> LiesWithin(input.path, input.outputRoots, cwd))
            && ctx.normalizedPath == (if input.path.Some? then PolicyPaths.Normalize(input.path.value, cwd) else None)
  {
    if input.path.Some? {
      WithinIsLyingWithin(input.path.value, input.grantRoots, cwd);
      WithinIsLyingWithin(input.path.value, input.outputRoots, cwd);
    }
  }

  lemma {:induction false} PatternsSpeakOfTheInput(patterns: Option<seq<string>>, path: Option<string>,
                                                   cwd: Option<string>)
    ensures MatchPatterns(patterns, if path.Some? then PolicyPaths.Normalize(path.value, cwd) else None) <==>
            (patterns.Some? ==> IsDescribed(path, patterns.value, cwd))
  {
    if path.Some? && patterns.Some? {
      MatchingIsBeingDescribed(path.value, patterns.value, cwd);
    }
  }

  /** The context computed from the input decides exactly what the conditions say about the input. */
  lemma {:induction false} ConditionsSpeakOfTheInput(rule: Rule, input: Input, cwd: Option<string>)
    ensures ConditionsMatch(rule.conditions, ContextOf(input, cwd)) <==> Holds(rule, input, cwd)
  {
    if rule.conditions.Some? {
      ContextSpeaksOfTheInput(input, cwd);
      PatternsSpeakOfTheInput(rule.conditions.value.matchesPattern, input.path, cwd);
    }
  }

  lemma {:induction false} StarsOnlyEndActions(action: string)
    requires action in ACTIONS
    ensures '*' in action ==> |action| >= 2 && action[|action| - 2..] == ".*"
  {
    assert '*' !in "file.read" && '*' !in "file.write" && '*' !in "network.request";
    assert '*' !in "connector.read" && '*' !in "connector.action";
    assert "file.*"[4..] == ".*";
  }

  /** `p.*` covers exactly itself and what begins with `p.`; a rule action without a star only itself. */
  lemma {:induction false} MatchingIsCovering(rule: Rule, action: string)
    requires rule.action in ACTIONS
    ensures ActionMatches(rule.action, action) <==> Covers(rule, action)
  {
    StarsOnlyEndActions(rule.action);
    var r := rule.action;
    if |r| >= 2 && r[|r| - 2..] == ".*" {
      var p := r[..|r| - 2];
      assert r == p + ".*";
      assert forall q | r == q + ".*" :: q == r[..|r| - 2];
    } else {
      assert forall q: string :: |q + ".*"| >= 2 && (q + ".*")[|q + ".*"| - 2..] == ".*";
    }
  }

  lemma {:induction false} RulesAreValid(rules: seq<Rule>, i: nat)
    requires FirstRuleError(rules).None? && i < |rules|
    ensures rules[i].action in ACTIONS
  {
    assert RuleError(rules[i]).None?;
  }

  lemma {:induction false} ChosenRuleAnswers(config: Config, input: Input, cwd: Option<string>, chosen: Option<nat>)
    requires ValidConfig(config) && Decides(config.rules, input.action, ContextOf(input, cwd), chosen)
    ensures AnswersBy(config, input, cwd, DecisionBy(config, chosen), chosen)
  {
    var rules := config.rules;
    forall j | 0 <= j < |rules|
      ensures Exact(rules, input.action, j) || Wildcard(rules, input.action, j) <==> Covers(rules[j], input.action)
      ensures Applies(rules, ContextOf(input, cwd), j) <==> Holds(rules[j], input, cwd)
    {
      RulesAreValid(rules, j);
      MatchingIsCovering(rules[j], input.action);
      ConditionsSpeakOfTheInput(rules[j], input, cwd);
    }
  }

  // ---- The index ----

  /** The positions below n whose flag is set, ascending. */
  function Selected(flags: seq<bool>, n: nat): seq<nat>
    requires n <= |flags|
  {
    if n == 0 then [] else Selected(flags, n - 1) + if flags[n - 1] then [n - 1] else []
  }

  function ExactFlags(rules: seq<Rule>, action: string): (flags: seq<bool>)
    ensures |flags| == |rules| && forall i | 0 <= i < |rules| :: flags[i] == Exact(rules, action, i)
  {
    seq(|rules|, i requires 0 <= i < |rules| => Exact(rules, action, i))
  }

  function WildcardFlags(rules: seq<Rule>, action: string): (flags: seq<bool>)
    ensures |flags| == |rules| && forall i | 0 <= i < |rules| :: flags[i] == Wildcard(rules, action, i)
  {
    seq(|rules|, i requires 0 <= i < |rules| => Wildcard(rules, action, i))
  }

  /** The matching rules in scan order: first the exact ones, then the wildcards. */
  function Indices(rules: seq<Rule>, action: string): seq<nat> {
    Selected(ExactFlags(rules, action), |rules|) + Selected(WildcardFlags(rules, action), |rules|)
  }

  function ActionIndex(action: string): (r: Option<nat>)
    ensures r.Some? <==> action in ACTIONS
    ensures r.Some? ==> r.value < |ACTIONS| && ACTIONS[r.value] == action
  {
    if action == ACTIONS[0] then Some(0)
    else if action == ACTIONS[1] then Some(1)
    else if action == ACTIONS[2] then Some(2)
    else if action == ACTIONS[3] then Some(3)
    else if action == ACTIONS[4] then Some(4)
    else if action == ACTIONS[5] then Some(5)
    else None
  }

  predicate IsIndex(rules: seq<Rule>, actions: seq<string>, cache: seq<seq<nat>>) {
    |cache| == |actions| && forall a | 0 <= a < |actions| :: cache[a] == Indices(rules, actions[a])
  }

  /** Part-way through building: the lists before position a already cover rule r, the others stop before it. */
  ghost predicate Builds(rules: seq<Rule>, actions: seq<string>, exact: seq<seq<nat>>, wildcard: seq<seq<nat>>,
                         r: nat, a: nat)
  {
    && r <= |rules| && (a > 0 ==> r < |rules|)
    && ListsCover(Each(actions, (x: string) => ExactFlags(rules, x)), |rules|, exact, r, a)
    && ListsCover(Each(actions, (x: string) => WildcardFlags(rules, x)), |rules|, wildcard, r, a)
  }

  function Each(actions: seq<string>, flags: string -> seq<bool>): (r: seq<seq<bool>>)
    ensures |r| == |actions| && forall b | 0 <= b < |actions| :: r[b] == flags(actions[b])
  {
    seq(|actions|, b requires 0 <= b < |actions| => flags(actions[b]))
  }

  ghost predicate ListsCover(flags: seq<seq<bool>>, n: nat, lists: seq<seq<nat>>, r: nat, a: nat) {
    && |lists| == |flags| && r <= n && (a > 0 ==> r < n) && (forall b | 0 <= b < |flags| :: |flags[b]| == n)
    && forall b | 0 <= b < |flags| :: lists[b] == Selected(flags[b], if b < a then r + 1 else r)
  }

  lemma {:induction false} ListEntry(flags: seq<seq<bool>>, n: nat, lists: seq<seq<nat>>, next: seq<seq<nat>>,
                                     r: nat, a: nat)
    requires ListsCover(flags, n, lists, r, a) && r < n && a < |flags|
    requires next == if flags[a][r] then lists[a := lists[a] + [r]] else lists
    ensures ListsCover(flags, n, next, r, a + 1)
  {
    assert next[a] == Selected(flags[a], r + 1);
    forall b | 0 <= b < |flags| ensures next[b] == Selected(flags[b], if b < a + 1 then r + 1 else r) {
      if b != a {
        assert next[b] == lists[b];
      }
    }
  }

  lemma {:induction false} ListsTurn(flags: seq<seq<bool>>, n: nat, lists: seq<seq<nat>>, r: nat)
    requires r < n && ListsCover(flags, n, lists, r, |flags|)
    ensures ListsCover(flags, n, lists, r + 1, 0)
  {
  }

  lemma {:induction false} CoverEntry(rules: seq<Rule>, actions: seq<string>, exact: seq<seq<nat>>,
                                      wildcard: seq<seq<nat>>, newExact: seq<seq<nat>>, newWildcard: seq<seq<nat>>,
                                      r: nat, a: nat)
    requires Builds(rules, actions, exact, wildcard, r, a) && r < |rules| && a < |actions|
    requires newExact == if Exact(rules, actions[a], r) then exact[a := exact[a] + [r]] else exact
    requires newWildcard == if Wildcard(rules, actions[a], r) then wildcard[a := wildcard[a] + [r]] else wildcard
    ensures Builds(rules, actions, newExact, newWildcard, r, a + 1)
  {
    var ef := Each(actions, (x: string) => ExactFlags(rules, x));
    var wf := Each(actions, (x: string) => WildcardFlags(rules, x));
    assert ef[a][r] == Exact(rules, actions[a], r) && wf[a][r] == Wildcard(rules, actions[a], r);
    ListEntry(ef, |rules|, exact, newExact, r, a);
    ListEntry(wf, |rules|, wildcard, newWildcard, r, a);
  }

  lemma {:induction false} CoverTurn(rules: seq<Rule>, actions: seq<string>, exact: seq<seq<nat>>,
                                     wildcard: seq<seq<nat>>, r: nat)
    requires Builds(rules, actions, exact, wildcard, r, |actions|) && r < |rules|
    ensures Builds(rules, actions, exact, wildcard, r + 1, 0)
  {
    ListsTurn(Each(actions, (x: string) => ExactFlags(rules, x)), |rules|, exact, r);
    ListsTurn(Each(actions, (x: string) => WildcardFlags(rules, x)), |rules|, wildcard, r);
  }

  lemma {:induction false} CoveredIsIndex(rules: seq<Rule>, actions: seq<string>, exact: seq<seq<nat>>,
                                          wildcard: seq<seq<nat>>,
                                          combined: seq<seq<nat>>)
    requires Builds(rules, actions, exact, wildcard, |rules|, 0) && |combined| == |exact|
    requires forall b | 0 <= b < |exact| :: combined[b] == exact[b] + wildcard[b]
    ensures IsIndex(rules, actions, combined)
  {
  }

  method BuildActionRuleCache(rules: seq<Rule>, actions: seq<string>) returns (cache: seq<seq<nat>>)
    ensures IsIndex(rules, actions, cache)
  {
    var n := |actions|;
    var exact: seq<seq<nat>> := seq(n, i => []);
    var wildcard: seq<seq<nat>> := seq(n, i => []);
    for r := 0 to |rules|
      invariant Builds(rules, actions, exact, wildcard, r, 0)
    {
      for a := 0 to n
        invariant Builds(rules, actions, exact, wildcard, r, a)
      {
        var newExact, newWildcard := PushRule(rules, actions, exact, wildcard, r, a);
        CoverEntry(rules, actions, exact, wildcard, newExact, newWildcard, r, a);
        exact, wildcard := newExact, newWildcard;
      }
      CoverTurn(rules, actions, exact, wildcard, r);
    }
    cache := Combine(exact, wildcard);
    CoveredIsIndex(rules, actions, exact, wildcard, cache);
  }

  method Combine(exact: seq<seq<nat>>, wildcard: seq<seq<nat>>) returns (combined: seq<seq<nat>>)
    requires |exact| == |wildcard|
    ensures |combined| == |exact| && forall b | 0 <= b < |exact| :: combined[b] == exact[b] + wildcard[b]
  {
    combined := exact;
    for a := 0 to |exact|
      invariant |combined| == |exact|
      invariant forall b | 0 <= b < |exact| :: combined[b] == if b < a then exact[b] + wildcard[b] else exact[b]
    {
      combined := combined[a := combined[a] + wildcard[a]];
    }
  }

  method PushRule(rules: seq<Rule>, actions: seq<string>, exact: seq<seq<nat>>, wildcard: seq<seq<nat>>,
                  r: nat, a: nat)
    returns (newExact: seq<seq<nat>>, newWildcard: seq<seq<nat>>)
    requires r < |rules| && a < |actions| == |exact| == |wildcard|
    ensures newExact == if Exact(rules, actions[a], r) then exact[a := exact[a] + [r]] else exact
    ensures newWildcard == if Wildcard(rules, actions[a], r) then wildcard[a := wildcard[a] + [r]] else wildcard
  {
    newExact, newWildcard := exact, wildcard;
    if !ActionMatches(rules[r].action, actions[a]) {
      return;
    }
    if rules[r].action == actions[a] {
      newExact := exact[a := exact[a] + [r]];
    } else {
      newWildcard := wildcard[a := wildcard[a] + [r]];
    }
  }

  predicate Ascending(s: seq<nat>) {
    forall i, j | 0 <= i < j < |s| :: s[i] < s[j]
  }

  lemma {:induction false} SelectedIs(flags: seq<bool>, n: nat)
    requires n <= |flags|
    ensures Ascending(Selected(flags, n))
    ensures forall k | 0 <= k < |Selected(flags, n)| :: Selected(flags, n)[k] < n && flags[Selected(flags, n)[k]]
    ensures forall i | 0 <= i < n && flags[i] :: i in Selected(flags, n)
  {
    if n > 0 {
      SelectedIs(flags, n - 1);
      var before := Selected(flags, n - 1);
      assert forall i | 0 <= i < n - 1 && flags[i] :: i in before;
      if flags[n - 1] { assert Selected(flags, n)[|before|] == n - 1; }
    }
  }

  /** An index list holds every rule that matches the action, and no other, exactly once. */
  lemma {:induction false} IndexHoldsEachMatchOnce(rules: seq<Rule>, action: string)
    ensures forall i: nat :: i in Indices(rules, action) <==> i < |rules| && ActionMatches(rules[i].action, action)
    ensures forall i, j | 0 <= i < j < |Indices(rules, action)| ::
        Indices(rules, action)[i] != Indices(rules, action)[j]
  {
    var ef, wf := ExactFlags(rules, action), WildcardFlags(rules, action);
    SelectedIs(ef, |rules|);
    SelectedIs(wf, |rules|);
    var e, w := Selected(ef, |rules|), Selected(wf, |rules|);
    forall i: nat ensures i in e + w <==> i < |rules| && ActionMatches(rules[i].action, action) {
      if i < |rules| { assert ef[i] == Exact(rules, action, i) && wf[i] == Wildcard(rules, action, i); }
    }
    forall i, j | 0 <= i < j < |e + w| ensures (e + w)[i] != (e + w)[j] {
      if i < |e| && j >= |e| {
        assert ef[e[i]] && wf[w[j - |e|]];
        assert Exact(rules, action, e[i]) && Wildcard(rules, action, w[j - |e|]);
      }
    }
  }

  // ---- The engine ----

  class RuntimePolicyEngine {
    const config: Config
    const actionRuleCache: seq<seq<nat>>

    predicate Valid() {
      ValidConfig(config) && IsIndex(config.rules, ACTIONS, actionRuleCache)
    }

    constructor (config: Config, cache: seq<seq<nat>>)
      requires ValidConfig(config) && IsIndex(config.rules, ACTIONS, cache)
      ensures Valid() && this.config == config
    {
      this.config, this.actionRuleCache := config, cache;
    }

    static method New(config: Config) returns (engine: RuntimePolicyEngine?, error: Option<ConfigError>)
      ensures error.None? <==> ValidConfig(config)
      ensures engine != null <==> error.None?
      ensures engine != null ==> engine.Valid() && engine.config == config
    {
      error := Validate(config);
      engine := null;
      if error.None? {
        var cache := BuildActionRuleCache(config.rules, ACTIONS);
        engine := new RuntimePolicyEngine(config, cache);
      }
    }

    /** The decision is that of the rule the two-pass scan would choose, for known and unknown actions alike. */
    method Evaluate(input: Input, cwd: Option<string>) returns (decision: Decision)
      requires Valid()
      ensures IsDecision(config, input.action, ContextOf(input, cwd), decision)
      ensures AnswersInput(config, input, cwd, decision)
    {
      var ctx := ContextOf(input, cwd);
      var known := ActionIndex(input.action);
      var found: Option<nat>;
      if known.Some? {
        found := FirstIndexed(actionRuleCache[known.value], input.action, ctx);
      } else {
        found := FirstByScan(input.action, ctx);
      }
      decision := DecisionBy(config, found);
      ChosenRuleAnswers(config, input, cwd, found);
    }

    method FirstIndexed(indices: seq<nat>, action: string, ctx: Context) returns (found: Option<nat>)
      requires indices == Indices(config.rules, action)
      ensures Decides(config.rules, action, ctx, found)
    {
      var rules := config.rules;
      IndexHoldsEachMatchOnce(rules, action);
      for k := 0 to |indices|
        invariant forall j | 0 <= j < k :: indices[j] < |rules| && !Applies(rules, ctx, indices[j])
      {
        var i := indices[k];
        assert i in indices;
        if ConditionsMatch(rules[i].conditions, ctx) {
          FirstInIndexDecides(rules, action, ctx, k);
          return Some(i);
        }
      }
      NoneInIndexDecides(rules, action, ctx);
      return None;
    }

    /** The two passes over all the rules that decide an unknown action. */
    method FirstByScan(action: string, ctx: Context) returns (found: Option<nat>)
      ensures Decides(config.rules, action, ctx, found)
    {
      var rules := config.rules;
      for i := 0 to |rules|
        invariant forall j | 0 <= j < i && Exact(rules, action, j) :: !Applies(rules, ctx, j)
      {
        if rules[i].action == action && ConditionsMatch(rules[i].conditions, ctx) {
          return Some(i);
        }
      }
      for i := 0 to |rules|
        invariant forall j | 0 <= j < i && Wildcard(rules, action, j) :: !Applies(rules, ctx, j)
      {
        if rules[i].action != action && ActionMatches(rules[i].action, action)
           && ConditionsMatch(rules[i].conditions, ctx) {
          return Some(i);
        }
      }
      return None;
    }
  }

  /** The exact rules among the first k entries of an index are exactly those before entry k. */
  lemma {:induction false} ExactBeforeEntry(rules: seq<Rule>, action: string, k: nat, j: nat)
    requires k < |Indices(rules, action)| && j < |rules| && Exact(rules, action, j)
    requires var e := Selected(ExactFlags(rules, action), |rules|); k >= |e| || j < e[k]
    ensures exists p | 0 <= p < k :: Indices(rules, action)[p] == j
  {
    var ef := ExactFlags(rules, action);
    SelectedIs(ef, |rules|);
    assert ef[j];
    var e := Selected(ef, |rules|);
    var p :| 0 <= p < |e| && e[p] == j;
    assert Indices(rules, action)[p] == j;
  }

  lemma {:induction false} WildcardBeforeEntry(rules: seq<Rule>, action: string, k: nat, j: nat)
    requires k < |Indices(rules, action)| && j < Indices(rules, action)[k] < |rules| && Wildcard(rules, action, j)
    requires |Selected(ExactFlags(rules, action), |rules|)| <= k
    ensures exists p | 0 <= p < k :: Indices(rules, action)[p] == j
  {
    var wf := WildcardFlags(rules, action);
    SelectedIs(wf, |rules|);
    assert wf[j];
    EarlierInSecondPart(Selected(ExactFlags(rules, action), |rules|), Selected(wf, |rules|), k, j);
  }

  lemma {:induction false} EarlierInSecondPart(e: seq<nat>, w: seq<nat>, k: nat, j: nat)
    requires |e| <= k < |e| + |w| && Ascending(w) && j in w && j < (e + w)[k]
    ensures exists p | 0 <= p < k :: (e + w)[p] == j
  {
    var p :| 0 <= p < |w| && w[p] == j;
    assert p < k - |e|;
    assert (e + w)[|e| + p] == j;
  }

  /** Which of the two kinds an index entry is, and where the exact ones end. */
  lemma {:induction false} EntryKind(rules: seq<Rule>, action: string, k: nat)
    requires k < |Indices(rules, action)|
    ensures var e, i := Selected(ExactFlags(rules, action), |rules|), Indices(rules, action)[k];
            i < |rules| && if k < |e| then Exact(rules, action, i) && e[k] == i else Wildcard(rules, action, i)
  {
    var ef, wf := ExactFlags(rules, action), WildcardFlags(rules, action);
    SelectedIs(ef, |rules|);
    SelectedIs(wf, |rules|);
    var e, w := Selected(ef, |rules|), Selected(wf, |rules|);
    if k < |e| { assert ef[e[k]]; } else { assert wf[w[k - |e|]]; }
  }

  lemma {:induction false} FirstInIndexDecides(rules: seq<Rule>, action: string, ctx: Context, k: nat)
    requires k < |Indices(rules, action)|
    requires forall j | 0 <= j <= k :: Indices(rules, action)[j] < |rules|
    requires forall j | 0 <= j < k :: !Applies(rules, ctx, Indices(rules, action)[j])
    requires Applies(rules, ctx, Indices(rules, action)[k])
    ensures Decides(rules, action, ctx, Some(Indices(rules, action)[k]))
  {
    var i := Indices(rules, action)[k];
    EntryKind(rules, action, k);
    forall j | 0 <= j < |rules| && Exact(rules, action, j) && (!Exact(rules, action, i) || j < i)
      ensures !Applies(rules, ctx, j)
    {
      ExactBeforeEntry(rules, action, k, j);
    }
    if !Exact(rules, action, i) {
      forall j | 0 <= j < i && Wildcard(rules, action, j) ensures !Applies(rules, ctx, j) {
        WildcardBeforeEntry(rules, action, k, j);
      }
    }
  }

  lemma {:induction false} NoneInIndexDecides(rules: seq<Rule>, action: string, ctx: Context)
    requires forall j | 0 <= j < |Indices(rules, action)| ::
               Indices(rules, action)[j] < |rules| && !Applies(rules, ctx, Indices(rules, action)[j])
    ensures Decides(rules, action, ctx, None)
  {
    IndexHoldsEachMatchOnce(rules, action);
    forall j | 0 <= j < |rules| && (Exact(rules, action, j) || Wildcard(rules, action, j))
      ensures !Applies(rules, ctx, j)
    {
      assert j in Indices(rules, action);
      var p :| 0 <= p < |Indices(rules, action)| && Indices(rules, action)[p] == j;
    }
  }
}
