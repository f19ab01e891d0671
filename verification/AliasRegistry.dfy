/**
The registered fields of the contract, and that their 290 spellings are all different. The fields are listed by the
first letter, the third letter and the length of their spellings, on pages that do not overlap in that order. A clone
does not depend on the order of the registry (`AliasClone.CloneForgetsTheOrder`).
*/
module AliasRegistry {
  import opened AliasClone

  // ---- Telling spellings apart ----

  /** The place of a spelling among the pages. */
  function At(first: char, third: char, length: nat): int {
    (first as int * 256 + third as int) * 64 + length
  }

  function Place(s: string): int
    requires |s| >= 6
  {
    At(s[0], s[2], |s|)
  }

  /** Tells the spellings of one page apart. */
  function Mark(s: string): int
    requires |s| >= 6
  {
    (|s| * 256 + s[|s| - 3] as int) * 256 + s[|s| - 6] as int
  }

  predicate Between(low: int, s: string, high: int) {
    |s| >= 6 && low <= Place(s) < high
  }

  /** Both spellings have their place between the two marks, and they are of different length. */
  predicate Within(low: int, s: Spelling, high: int) {
    Between(low, s.canonical, high) && Between(low, s.alias, high) && |s.canonical| != |s.alias|
  }

  predicate Apart(s: Spelling, t: Spelling)
    requires |s.canonical| >= 6 && |s.alias| >= 6 && |t.canonical| >= 6 && |t.alias| >= 6
  {
    && Mark(s.canonical) != Mark(t.canonical) && Mark(s.alias) != Mark(t.alias)
    && Mark(s.canonical) != Mark(t.alias) && Mark(s.alias) != Mark(t.canonical)
  }

  ghost predicate AllWithin(low: int, r: Registry, high: int) {
    forall i | 0 <= i < |r| :: Within(low, r[i], high)
  }

  ghost predicate Listed(r: Registry, low: int, high: int) {
    low <= high && AllWithin(low, r, high) && Unambiguous(r)
  }

  /** No spelling of s is one of t. */
  predicate Distinct(s: Spelling, t: Spelling) {
    s.canonical != t.canonical && s.alias != t.alias && s.canonical != t.alias && s.alias != t.canonical
  }

  lemma {:induction false} DistinctIsUnambiguous(r: Registry)
    requires forall i | 0 <= i < |r| :: r[i].canonical != r[i].alias
    requires forall i, j | 0 <= i < j < |r| :: Distinct(r[i], r[j])
    ensures Unambiguous(r)
  {
    forall i, j | 0 <= i < |r| && 0 <= j < |r| ensures r[i].canonical != r[j].alias {
      if i < j {
        assert Distinct(r[i], r[j]);
      } else if j < i {
        assert Distinct(r[j], r[i]);
      }
    }
  }

  lemma {:induction false} PageIsListed(r: Registry, low: int, high: int)
    requires low <= high && 1 <= |r| <= 4 && Within(low, r[0], high)
    requires |r| > 1 ==> Within(low, r[1], high) && Apart(r[0], r[1])
    requires |r| > 2 ==> Within(low, r[2], high) && Apart(r[0], r[2]) && Apart(r[1], r[2])
    requires |r| > 3 ==> Within(low, r[3], high) && Apart(r[0], r[3]) && Apart(r[1], r[3]) && Apart(r[2], r[3])
    ensures Listed(r, low, high)
  {
    forall i | 0 <= i < |r| ensures Within(low, r[i], high) {
      assert i == 0 || i == 1 || i == 2 || i == 3;
    }
    forall i, j | 0 <= i < j < |r| ensures Distinct(r[i], r[j]) {
      assert j == 1 || j == 2 || j == 3;
      assert Apart(r[i], r[j]);
    }
    DistinctIsUnambiguous(r);
  }

  lemma {:induction false} ListsJoin(r: Registry, s: Registry, low: int, middle: int, high: int)
    requires Listed(r, low, middle) && Listed(s, middle, high)
    ensures Listed(r + s, low, high)
  {
    var t := r + s;
    forall i | 0 <= i < |t| ensures Within(low, t[i], high) {
      assert i < |r| ==> Within(low, r[i], middle);
      assert i >= |r| ==> Within(middle, s[i - |r|], high);
    }
    forall i, j | 0 <= i < j < |t| ensures Distinct(t[i], t[j]) {
      ListedApart(r, s, i, j, low, middle, high);
    }
    DistinctIsUnambiguous(t);
  }

  lemma {:induction false} ListedApart(r: Registry, s: Registry, i: nat, j: nat, low: int, middle: int, high: int)
    requires AllWithin(low, r, middle) && AllWithin(middle, s, high) && Unambiguous(r) && Unambiguous(s)
    requires i < j < |r| + |s|
    ensures Distinct((r + s)[i], (r + s)[j])
  {
    if j < |r| {
      SpellingsDiffer(r, i, j);
    } else if i >= |r| {
      SpellingsDiffer(s, i - |r|, j - |r|);
    } else {
      assert Within(low, r[i], middle) && Within(middle, s[j - |r|], high);
    }
  }

  /** Fields whose spellings all have their place between two marks, with no spelling twice. */
  datatype Sheet = Sheet(low: int, count: nat, fields: Registry, high: int)

  type Page = p: Sheet | |p.fields| == p.count && Listed(p.fields, p.low, p.high) witness Sheet(0, 0, [], 0)

  /** A page of up to four fields. */
  function Filed(low: int, count: nat, fields: Registry, high: int): (p: Page)
    requires low <= high && 1 <= |fields| <= 4 && |fields| == count && Within(low, fields[0], high)
    requires |fields| > 1 ==> Within(low, fields[1], high) && Apart(fields[0], fields[1])
    requires |fields| > 2 ==>
               Within(low, fields[2], high) && Apart(fields[0], fields[2]) && Apart(fields[1], fields[2])
    requires |fields| > 3 ==>
               && Within(low, fields[3], high)
               && Apart(fields[0], fields[3]) && Apart(fields[1], fields[3]) && Apart(fields[2], fields[3])
    ensures p == Sheet(low, count, fields, high)
  {
    PageIsListed(fields, low, high);
    Sheet(low, count, fields, high)
  }

  /** One page after the other. */
  function Both(p: Page, q: Page): (r: Page)
    requires p.high == q.low
    ensures r == Sheet(p.low, p.count + q.count, p.fields + q.fields, q.high)
  {
    ListsJoin(p.fields, q.fields, p.low, p.high, q.high);
    Sheet(p.low, p.count + q.count, p.fields + q.fields, q.high)
  }

  function Four(p: Page, q: Page, r: Page, s: Page): (t: Page)
    requires p.high == q.low && q.high == r.low && r.high == s.low
    ensures t == Sheet(p.low, p.count + q.count + r.count + s.count, p.fields + q.fields + r.fields + s.fields, s.high)
  {
    Both(Both(Both(p, q), r), s)
  }

  // ---- The fields ----

  const FIELDS_1: Registry := [
    Spelling("accountId", "account_id"),
    Spelling("accessMode", "access_mode"),
    Spelling("allowNetwork", "allow_network"),
    Spelling("allowedSkillIds", "allowed_skill_ids")
  ]
  const PAGE_1: Page := Filed(At('a', 'c', 9), 4, FIELDS_1, At('a', 'l', 18))

  const FIELDS_2: Registry := [
    Spelling("allowedToolClasses", "allowed_tool_classes"),
    Spelling("approvalId", "approval_id"),
    Spelling("approvalPolicy", "approval_policy"),
    Spelling("approvalReason", "approval_reason")
  ]
  const PAGE_2: Page := Filed(At('a', 'l', 18), 4, FIELDS_2, At('a', 't', 9))

  const FIELDS_3: Registry := [
    Spelling("autoDrive", "auto_drive"),
    Spelling("autonomyState", "autonomy_state"),
    Spelling("authorityScope", "authority_scope")
  ]
  const PAGE_3: Page := Filed(At('a', 't', 9), 3, FIELDS_3, At('a', 't', 16))

  const FIELDS_4: Registry := [
    Spelling("autofixCandidate", "autofix_candidate"),
    Spelling("authoritySources", "authority_sources"),
    Spelling("autonomyPriority", "autonomy_priority"),
    Spelling("branchName", "branch_name")
  ]
  const PAGE_4: Page := Filed(At('a', 't', 16), 4, FIELDS_4, At('b', 'c', 9))

  const FIELDS_5: Registry := [
    Spelling("backendId", "backend_id"),
    Spelling("backgroundSafe", "background_safe"),
    Spelling("backendOperability", "backend_operability"),
    Spelling("changeId", "change_id")
  ]
  const PAGE_5: Page := Filed(At('b', 'c', 9), 4, FIELDS_5, At('c', 'a', 18))

  const FIELDS_6: Registry := [
    Spelling("chatgptWorkspaceId", "chatgpt_workspace_id"),
    Spelling("codexBin", "codex_bin"),
    Spelling("codexArgs", "codex_args"),
    Spelling("checkExecPolicy", "check_exec_policy")
  ]
  const PAGE_6: Page := Filed(At('c', 'a', 18), 4, FIELDS_6, At('c', 'e', 20))

  const FIELDS_7: Registry := [
    Spelling("checkPackageAdvisory", "check_package_advisory"),
    Spelling("childTaskIds", "child_task_ids"),
    Spelling("componentCommands", "component_commands")
  ]
  const PAGE_7: Page := Filed(At('c', 'e', 20), 3, FIELDS_7, At('c', 'n', 13))

  const FIELDS_8: Registry := [
    Spelling("contextPrefix", "context_prefix"),
    Spelling("contextPolicy", "context_policy"),
    Spelling("costTier", "cost_tier")
  ]
  const PAGE_8: Page := Filed(At('c', 'n', 13), 3, FIELDS_8, At('d', 'c', 13))

  const FIELDS_9: Registry := [
    Spelling("decisionTrace", "decision_trace"),
    Spelling("decisionPolicy", "decision_policy"),
    Spelling("defaultBackendId", "default_backend_id"),
    Spelling("displayName", "display_name")
  ]
  const PAGE_9: Page := Filed(At('d', 'c', 13), 4, FIELDS_9, At('d', 's', 17))

  const FIELDS_10: Registry := [
    Spelling("distributedStatus", "distributed_status"),
    Spelling("dataSensitivity", "data_sensitivity"),
    Spelling("dryRun", "dry_run"),
    Spelling("evaluationPlan", "evaluation_plan")
  ]
  const PAGE_10: Page := Filed(At('d', 's', 17), 4, FIELDS_10, At('e', 'c', 18))

  const FIELDS_11: Registry := [
    Spelling("escalationPressure", "escalation_pressure"),
    Spelling("endToEndCommands", "end_to_end_commands")
  ]
  const PAGE_11: Page := Filed(At('e', 'c', 18), 2, FIELDS_11, At('e', 'e', 13))

  const FIELDS_12: Registry := [
    Spelling("executionMode", "execution_mode"),
    Spelling("executionGraph", "execution_graph"),
    Spelling("execPolicyRules", "exec_policy_rules"),
    Spelling("executionProfileId", "execution_profile_id")
  ]
  const PAGE_12: Page := Filed(At('e', 'e', 13), 4, FIELDS_12, At('e', 'p', 17))

  const FIELDS_13: Registry := [
    Spelling("expectedUpdatedAt", "expected_updated_at"),
    Spelling("extensionId", "extension_id"),
    Spelling("failureClass", "failure_class"),
    Spelling("fileId", "file_id")
  ]
  const PAGE_13: Page := Filed(At('e', 'p', 17), 4, FIELDS_13, At('f', 'o', 10))

  const FIELDS_14: Registry := [
    Spelling("fromTaskId", "from_task_id"),
    Spelling("forceOAuth", "force_oauth"),
    Spelling("forceRefetch", "force_refetch"),
    Spelling("fetchPageContent", "fetch_page_content")
  ]
  const PAGE_14: Page := Filed(At('f', 'o', 10), 4, FIELDS_14, At('h', 'g', 12))

  const FIELDS_15: Registry := [
    Spelling("highPriority", "high_priority"),
    Spelling("heldOutGuidance", "held_out_guidance"),
    Spelling("heldOutPreserved", "held_out_preserved")
  ]
  const PAGE_15: Page := Filed(At('h', 'g', 12), 3, FIELDS_15, At('h', 'm', 25))

  const FIELDS_16: Registry := [
    Spelling("humanInterventionHotspots", "human_intervention_hotspots"),
    Spelling("humanInterventionRequired", "human_intervention_required")
  ]
  const PAGE_16: Page := Filed(At('h', 'm', 25), 2, FIELDS_16, At('i', 'c', 16))

  const FIELDS_17: Registry := [
    Spelling("includeEventTail", "include_event_tail"),
    Spelling("includeZipBase64", "include_zip_base64"),
    Spelling("includeScreenshot", "include_screenshot"),
    Spelling("includeAgentTasks", "include_agent_tasks")
  ]
  const PAGE_17: Page := Filed(At('i', 'c', 16), 4, FIELDS_17, At('i', 'c', 20))

  const FIELDS_18: Registry := [
    Spelling("includeTaskSummaries", "include_task_summaries"),
    Spelling("includeProviderDetails", "include_provider_details"),
    Spelling("independentThread", "independent_thread"),
    Spelling("instructionPatch", "instruction_patch")
  ]
  const PAGE_18: Page := Filed(At('i', 'c', 20), 4, FIELDS_18, At('i', 't', 13))

  const FIELDS_19: Registry := [
    Spelling("integrationId", "integration_id"),
    Spelling("latencyClass", "latency_class"),
    Spelling("modelId", "model_id")
  ]
  const PAGE_19: Page := Filed(At('i', 't', 13), 3, FIELDS_19, At('m', 's', 11))

  const FIELDS_20: Registry := [
    Spelling("missionMode", "mission_mode"),
    Spelling("missionBrief", "mission_brief"),
    Spelling("missionLinkage", "mission_linkage")
  ]
  const PAGE_20: Page := Filed(At('m', 's', 11), 3, FIELDS_20, At('m', 'x', 8))

  const FIELDS_21: Registry := [
    Spelling("maxItems", "max_items"),
    Spelling("maxBytes", "max_bytes"),
    Spelling("maxParallel", "max_parallel"),
    Spelling("maxSubtasks", "max_subtasks")
  ]
  const PAGE_21: Page := Filed(At('m', 'x', 8), 4, FIELDS_21, At('m', 'x', 13))

  const FIELDS_22: Registry := [
    Spelling("maxSubQueries", "max_sub_queries"),
    Spelling("maxConcurrency", "max_concurrency"),
    Spelling("outputSchema", "output_schema"),
    Spelling("outcomeFeedback", "outcome_feedback")
  ]
  const PAGE_22: Page := Filed(At('m', 'x', 13), 4, FIELDS_22, At('p', 'a', 23))

  const FIELDS_23: Registry := [
    Spelling("placementScoreBreakdown", "placement_score_breakdown"),
    Spelling("placementFallbackReasonCode", "placement_fallback_reason_code"),
    Spelling("preferDomains", "prefer_domains")
  ]
  const PAGE_23: Page := Filed(At('p', 'a', 23), 3, FIELDS_23, At('p', 'e', 17))

  const FIELDS_24: Registry := [
    Spelling("previousAccountId", "previous_account_id"),
    Spelling("preferredBackendIds", "preferred_backend_ids"),
    Spelling("pollIntervalMs", "poll_interval_ms"),
    Spelling("poolId", "pool_id")
  ]
  const PAGE_24: Page := Filed(At('p', 'e', 17), 4, FIELDS_24, At('p', 'o', 8))

  const FIELDS_25: Registry := [
    Spelling("promptId", "prompt_id"),
    Spelling("promptStrategy", "prompt_strategy"),
    Spelling("parentRunId", "parent_run_id"),
    Spelling("parentTaskId", "parent_task_id")
  ]
  const PAGE_25: Page := Filed(At('p', 'o', 8), 4, FIELDS_25, At('r', 'a', 10))

  const FIELDS_26: Registry := [
    Spelling("reasonCode", "reason_code"),
    Spelling("reasonEffort", "reason_effort"),
    Spelling("recencyDays", "recency_days"),
    Spelling("redactionLevel", "redaction_level")
  ]
  const PAGE_26: Page := Filed(At('r', 'a', 10), 4, FIELDS_26, At('r', 'l', 12))

  const FIELDS_27: Registry := [
    Spelling("rolloutState", "rollout_state"),
    Spelling("relaunchContext", "relaunch_context"),
    Spelling("runSummary", "run_summary"),
    Spelling("rootTaskId", "root_task_id")
  ]
  const PAGE_27: Page := Filed(At('r', 'l', 12), 4, FIELDS_27, At('r', 'p', 21))

  const FIELDS_28: Registry := [
    Spelling("representativeCommand", "representative_command"),
    Spelling("representativeCommands", "representative_commands"),
    Spelling("requestId", "request_id"),
    Spelling("requiresApproval", "requires_approval")
  ]
  const PAGE_28: Page := Filed(At('r', 'p', 21), 4, FIELDS_28, At('r', 'q', 20))

  const FIELDS_29: Registry := [
    Spelling("requiredCapabilities", "required_capabilities"),
    Spelling("resourceId", "resource_id"),
    Spelling("researchMode", "research_mode"),
    Spelling("resumeBackendId", "resume_backend_id")
  ]
  const PAGE_29: Page := Filed(At('r', 'q', 20), 4, FIELDS_29, At('r', 'v', 10))

  const FIELDS_30: Registry := [
    Spelling("reviewGate", "review_gate"),
    Spelling("reviewRunId", "review_run_id")
  ]
  const PAGE_30: Page := Filed(At('r', 'v', 10), 2, FIELDS_30, At('r', 'v', 14))

  const FIELDS_31: Registry := [
    Spelling("reviewFindings", "review_findings"),
    Spelling("reviewProfileId", "review_profile_id"),
    Spelling("reviewPackSummary", "review_pack_summary"),
    Spelling("reviewActionability", "review_actionability")
  ]
  const PAGE_31: Page := Filed(At('r', 'v', 14), 4, FIELDS_31, At('s', 'b', 14))

  const FIELDS_32: Registry := [
    Spelling("subscriptionId", "subscription_id"),
    Spelling("scenarioKeys", "scenario_keys"),
    Spelling("scenarioProfile", "scenario_profile"),
    Spelling("safeBackground", "safe_background")
  ]
  const PAGE_32: Page := Filed(At('s', 'b', 14), 4, FIELDS_32, At('s', 'i', 7))

  const FIELDS_33: Registry := [
    Spelling("skillId", "skill_id"),
    Spelling("skillUsage", "skill_usage"),
    Spelling("selectionTags", "selection_tags"),
    Spelling("selectedCandidateId", "selected_candidate_id")
  ]
  const PAGE_33: Page := Filed(At('s', 'i', 7), 4, FIELDS_33, At('s', 'l', 24))

  const FIELDS_34: Registry := [
    Spelling("selectedCandidateSummary", "selected_candidate_summary"),
    Spelling("samplePaths", "sample_paths"),
    Spelling("sandboxMode", "sandbox_mode"),
    Spelling("scopeProfile", "scope_profile")
  ]
  const PAGE_34: Page := Filed(At('s', 'l', 24), 4, FIELDS_34, At('s', 'o', 14))

  const FIELDS_35: Registry := [
    Spelling("scoreBreakdown", "score_breakdown"),
    Spelling("serviceTier", "service_tier"),
    Spelling("sessionId", "session_id"),
    Spelling("sourceSignals", "source_signals")
  ]
  const PAGE_35: Page := Filed(At('s', 'o', 14), 4, FIELDS_35, At('t', 'T', 8))

  const FIELDS_36: Registry := [
    Spelling("toTaskId", "to_task_id"),
    Spelling("transportConfig", "transport_config"),
    Spelling("takeoverBundle", "takeover_bundle"),
    Spelling("timeoutMs", "timeout_ms")
  ]
  const PAGE_36: Page := Filed(At('t', 'T', 8), 4, FIELDS_36, At('t', 'o', 8))

  const FIELDS_37: Registry := [
    Spelling("toolName", "tool_name"),
    Spelling("turnId", "turn_id"),
    Spelling("threadId", "thread_id"),
    Spelling("targetScope", "target_scope")
  ]
  const PAGE_37: Page := Filed(At('t', 'o', 8), 4, FIELDS_37, At('t', 's', 6))

  const FIELDS_38: Registry := [
    Spelling("taskId", "task_id"),
    Spelling("taskSource", "task_source"),
    Spelling("trustTier", "trust_tier"),
    Spelling("usageRefresh", "usage_refresh")
  ]
  const PAGE_38: Page := Filed(At('t', 's', 6), 4, FIELDS_38, At('u', 'a', 29))

  const FIELDS_39: Registry := [
    Spelling("unattendedContinuationAllowed", "unattended_continuation_allowed"),
    Spelling("validationCommands", "validation_commands"),
    Spelling("validationPresetId", "validation_preset_id"),
    Spelling("workspaceId", "workspace_id")
  ]
  const PAGE_39: Page := Filed(At('u', 'a', 29), 4, FIELDS_39, At('w', 'r', 18))

  const FIELDS_40: Registry := [
    Spelling("workspaceReadPaths", "workspace_read_paths"),
    Spelling("workspaceContextPaths", "workspace_context_paths")
  ]
  const PAGE_40: Page := Filed(At('w', 'r', 18), 2, FIELDS_40, At('z', 'z', 0))

  const CHAPTER_1: Page := Four(PAGE_1, PAGE_2, PAGE_3, PAGE_4)
  const CHAPTER_2: Page := Four(PAGE_5, PAGE_6, PAGE_7, PAGE_8)
  const CHAPTER_3: Page := Four(PAGE_9, PAGE_10, PAGE_11, PAGE_12)
  const CHAPTER_4: Page := Four(PAGE_13, PAGE_14, PAGE_15, PAGE_16)
  const CHAPTER_5: Page := Four(PAGE_17, PAGE_18, PAGE_19, PAGE_20)
  const CHAPTER_6: Page := Four(PAGE_21, PAGE_22, PAGE_23, PAGE_24)
  const CHAPTER_7: Page := Four(PAGE_25, PAGE_26, PAGE_27, PAGE_28)
  const CHAPTER_8: Page := Four(PAGE_29, PAGE_30, PAGE_31, PAGE_32)
  const CHAPTER_9: Page := Four(PAGE_33, PAGE_34, PAGE_35, PAGE_36)
  const CHAPTER_10: Page := Four(PAGE_37, PAGE_38, PAGE_39, PAGE_40)

  const PART_1: Page := Four(CHAPTER_1, CHAPTER_2, CHAPTER_3, CHAPTER_4)
  const PART_2: Page := Four(CHAPTER_5, CHAPTER_6, CHAPTER_7, CHAPTER_8)
  const PART_3: Page := Both(CHAPTER_9, CHAPTER_10)
  const BOOK: Page := Both(Both(PART_1, PART_2), PART_3)

  const REGISTRY: Registry := BOOK.fields

  // ---- The registry ----

  lemma {:induction false} FieldsAreCounted()
    ensures BOOK.count == 145
  {
  }

  lemma {:induction false} PagesAreListed(p: Page)
    ensures |p.fields| == p.count && Unambiguous(p.fields)
  {
  }

  /** The 145 registered fields have 290 different spellings. */
  lemma {:induction false} RegistryIsUnambiguous()
    ensures |REGISTRY| == 145 && Unambiguous(REGISTRY)
  {
    FieldsAreCounted();
    PagesAreListed(BOOK);
  }

  /**
  So, in whatever order the fields are registered, a clone has both spellings or neither at every depth, and is its
  own clone.
  */
  lemma {:induction false} RegisteredClonesAreClosed(j: Json, registry: Registry)
    requires SameFields(REGISTRY, registry)
    ensures Unambiguous(registry) && Clone(j, registry) == Clone(j, REGISTRY)
    ensures FullyClosed(Clone(j, registry), registry) && Clone(Clone(j, registry), registry) == Clone(j, registry)
  {
    RegistryIsUnambiguous();
    AnyOrderIsUnambiguous(REGISTRY, registry);
    CloneForgetsTheOrder(j, REGISTRY, registry);
    ClonesAreFullyClosed(j, registry);
    CloneIsIdempotent(j, registry);
  }
}
