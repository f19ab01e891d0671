# Verified model of the code runtime

A Dafny 4.11 model of the parts of this repository whose guarantees range over unbounded inputs, runs and
interleavings, with proofs of those guarantees. `dafny verify dfyconfig.toml` checks everything.

What is modelled, module by module:

- **The ACP runtime.** `AcpMultiplexer`: many callers share one JSON-RPC pipe (JSON-RPC 2.0 Specification, sections 4
  and 5); a counter hands out ids and a pending map routes responses. One turn of the `select!` loop is one atomic step.
  `AcpSessionRegistry`: four maps from turns, tasks, ids and keys to agent sessions, changed by lock-held sections that
  interleave at awaits. `SessionHistory`: what a whole run of them leaves behind.
- **The policy engine.** `PolicyEngine`: an index from actions to rules against a two-pass scan. `PolicyPaths`,
  `PolicyContainment`: lexical path cleaning, a textual containment test, and when a contained path stays within its root.
  `Regex`, `Glob`: path patterns compiled to regular expressions by escaping and two textual substitutions.
- **Agent tasks.** `TaskCapacity`: eviction of the oldest finished tasks. `TaskRecovery`, `TaskResume`: the store rebuilt from
  durable snapshots after a crash, pausing and resumption. `ContextCompression`: older outputs replaced by summaries while a
  task runs. `RunHistory`: what memory holds after any such history. `WriteBreaker`: the circuit breaker for durable writes. `Placement`, `PlacementMeaning`: scoring and
  selecting a backend.
  `ReadGuard`: reading a file before changing it. `AgentTasks` holds their shared records.
- **The client.** `CapabilitiesContract`, `CapabilitiesProbe`: the frozen-contract guards and the single-flight cache in front
  of the probe. `EventChannels`, `ChannelHistory`: channel diagnostics and shared stability counters, and what
  they say of a history of events. `ErrorChain`: a breadth-first walk over a
  cyclic error graph. `SchemaValidation`: two interpreters of one schema language; `SchemaMeaning`: what their reports
  list, said of the JSON alone.
- **The shared contract.** `MethodSetHash`: two separately written 64-bit FNV-1a folds (draft-eastlake-fnv, section 2); `NameBytes`:
  their bytes.
  `AliasClone`, `AliasRegistry`: the clone that gives every registered field both its spellings, and the registered fields.
- `Ordering`, `Text` and `Options` hold what the others share.

Code that changes things step by step is modelled as a class or a loop and proved against a function; the properties are then
proved about that function, over whole runs. State shared by concurrent callers is a state machine whose steps are the
stretches of code that run without interruption, and the invariants hold for every sequence of steps.

Where the code falls short of what one would expect of it, the model keeps the code and says exactly when it does hold:

- request ids saturate instead of wrapping, so the multiplexer is correct for fewer than 2^64-2 requests and drops a caller
  afterwards (`AcpMultiplexer.RunConservesExactly`, `AcpMultiplexer.SaturationDropsACaller`);
- task ids are trimmed in session keys but not in the binding maps, and after overlapping creations of one hidden session a
  release can strand a binding (`AcpSessionRegistry.OverlapStrandsABinding`, `AcpSessionRegistry.ReleaseKeepsBindingsExactly`);
- session keys join their parts with colons, so parts with colons in them can share a key (`SessionHistory.KeysTellApart`,
  `SessionHistory.ColonsBlurKeys`);
- backslashes become slashes only after a path has been cleaned, so a path can count as within a root that it leaves,
  exactly when parent steps come to outnumber names after the root (`PolicyContainment.ContainedPathsStayExactly`,
  `PolicyPaths.BackslashesLeaveTheRoot`, `PolicyPaths.NormalizeTwice`);
- `**` does not match a line feed (`Glob.GlobMatchesExactly`, `Glob.ReadingsAgreeExactlyWithoutLineFeeds`);
- the two method-set hashes run over different byte streams as soon as a name is not ASCII
  (`MethodSetHash.StreamsAgreeExactlyOnAscii`); then they differ whenever the streams differ in the parity of their odd bytes,
  as for accented letters (`MethodSetHash.HashesDifferByParity`, `MethodSetHash.AccentedLettersSeparateTheHashes`), while ASCII
  is sufficient for them to agree (`MethodSetHash.ImplementationsAgree`);
- checkpoints are written by independent tasks and replace the row whatever it holds, so one that lands late undoes every
  step completed since it was taken (`TaskResume.LandingKeepsExactly`, `TaskResume.LateCheckpointUndoesAStep`);
- a finished step stays the current step until the next one starts, so a pause in between marks it as paused: it is run again
  (`TaskResume.NothingIsLostWithoutACrash`, `TaskResume.PauseBetweenStepsUndoesAStep`), and if the runner is already past its
  look for a pause, it goes on and completes the next step without the evidence of the one before
  (`ReadGuard.RunsAreDisciplined`, `ReadGuard.LatePauseLosesTheEvidence`);
- completed steps are not left alone: context compression rewrites their outputs, each at most once
  (`ContextCompression.RewrittenExactly`, `ContextCompression.FollowsOnce`);
- a resume request that brings a task awaiting approval into memory leaves it out of the approval index
  (`TaskResume.ResumeKeepsIndexExactly`, `TaskResume.AdoptedApprovalIsNotIndexed`);
- `oneOf` silences its sibling keywords for one schema interpreter and not for the other
  (`SchemaValidation.InterpretersDifferExactly`, `SchemaValidation.SiblingsOfOneOfDisagree`).

## Model

| member | source | states |
|---|---|---|
| `AcpMultiplexer.StepConservesExactly` | packages/code-runtime-service-rs/src/acp_runtime.rs:614-688 | one turn of the loop keeps "every received request is either waiting under its own id or has been sent exactly one outcome" if and only if it does not reuse an id that is still pending |
| `AcpMultiplexer.RunInvariant` | packages/code-runtime-service-rs/src/acp_runtime.rs:612-688 | in every interleaving with fewer than 2^64-2 requests: pending ids are distinct and below the counter, and requests received = pending + settled |
| `AcpMultiplexer.RunConservesExactly` | packages/code-runtime-service-rs/src/acp_runtime.rs:612-688 | after any run at all every received caller is accounted for if and only if no id was ever issued while it was pending: a dropped caller never recovers |
| `AcpMultiplexer.EveryCallerSettlesOnce` | packages/code-runtime-service-rs/src/acp_runtime.rs:614-688 | once the loop has exited, every received caller has been sent exactly one outcome |
| `AcpMultiplexer.NothingPendingAfterExit` | packages/code-runtime-service-rs/src/acp_runtime.rs:684-688 | leaving the loop empties the pending map |
| `AcpMultiplexer.ResponseReachesItsOwnCaller` | packages/code-runtime-service-rs/src/acp_runtime.rs:664-680 | a response changes only the inbox of the caller whose request carried its id; an unknown id changes nothing |
| `AcpMultiplexer.SaturationDropsACaller` | packages/code-runtime-service-rs/src/acp_runtime.rs:619-620 | the bound is real: after the counter saturates, two requests share an id, the second replaces the first in the pending map, and the loop sends the first caller nothing |
| `AcpMultiplexer.ClientLoop.HandleRequest` | packages/code-runtime-service-rs/src/acp_runtime.rs:618-626 | the request arm of the loop moves the state as the specification step does: a failed write answers at once, a successful one becomes pending |
| `AcpMultiplexer.ClientLoop.HandleLine` | packages/code-runtime-service-rs/src/acp_runtime.rs:634-681 | the read arm moves the state as the specification step does, for responses, calls from the agent and unusable lines; what callers then receive is `AcpMultiplexer.EveryCallersFate` |
| `AcpMultiplexer.ClientLoop.Stop` | packages/code-runtime-service-rs/src/acp_runtime.rs:684-688 | draining the pending map in any order tells exactly the pending callers that the client stopped |
| `AcpMultiplexer.ClientLoop.DrainPending` | packages/code-runtime-service-rs/src/acp_runtime.rs:684-688 | the draining loop empties the pending map and adds one stopped outcome for each caller in it and none for any other |
| `AcpMultiplexer.ClientLoop.Serve` | packages/code-runtime-service-rs/src/acp_runtime.rs:614-688 | a whole run of the loop ends in the state of the specification run |
| `AcpSessionRegistry.KeyKinds` | packages/code-runtime-service-rs/src/acp_runtime.rs:155-179 | a hidden-task key starts with "task:" and a thread key never does, so the prefix test separates them |
| `AcpSessionRegistry.StepKeepsRegisteredExactly` | packages/code-runtime-service-rs/src/acp_runtime.rs:104-133 | a lock-held section keeps the whole invariant (bindings resolve, id to key to session maps back, no live hidden session shares its key with another id) if and only if it is not an overlapping creation of the same hidden session; what breaks then is the last part, the bindings themselves break later, at a release |
| `AcpSessionRegistry.ReleaseKeepsBindingsExactly` | packages/code-runtime-service-rs/src/acp_runtime.rs:109-132 | a release leaves every turn/task binding resolving if and only if it does not retire a session that another binding still reaches through a different id |
| `AcpSessionRegistry.StepKeepsBindingsExactly` | packages/code-runtime-service-rs/src/acp_runtime.rs:104-133 | with overlapping creations included, a lock-held section leaves every binding resolving if and only if it is not such a release |
| `AcpSessionRegistry.BindingsResolveUntilOneIsStranded` | packages/code-runtime-service-rs/src/acp_runtime.rs:752-966 | in every interleaving, overlapping hidden creations included, all bindings resolve as long as no release has stranded one |
| `AcpSessionRegistry.StepKeepsTerminals` | packages/code-runtime-service-rs/src/acp_runtime.rs:109-132 | terminals belong to at most one live session, and a release hands out none that was handed out before |
| `AcpSessionRegistry.OnlyUnboundHiddenSessionsGo` | packages/code-runtime-service-rs/src/acp_runtime.rs:109-132 | a thread session is never removed; a hidden one only by the release of its last binding |
| `AcpSessionRegistry.EveryRunIsRegistered` | packages/code-runtime-service-rs/src/acp_runtime.rs:752-966 | the registry invariants hold after every interleaving of the lock-held sections without overlapping hidden creations |
| `AcpSessionRegistry.ReleasesHandOutDifferentTerminals` | packages/code-runtime-service-rs/src/acp_runtime.rs:1030-1038 | two releases in one run never hand out the same terminal |
| `AcpSessionRegistry.OverlapStrandsABinding` | packages/code-runtime-service-rs/src/acp_runtime.rs:900-956 | the exclusion is needed: task ids "t" and " t" share a key, and with overlapping creations releasing one strands the other |
| `AcpSessionRegistry.AcpRuntimeStore.DetachTaskBinding` | packages/code-runtime-service-rs/src/acp_runtime.rs:109-132 | the detach section changes the four maps exactly as specified and returns exactly the terminals of the session it retires |
| `AcpSessionRegistry.AcpRuntimeStore.RefreshExisting` | packages/code-runtime-service-rs/src/acp_runtime.rs:779-806 | the second section of a refresh looks the session up again, and binds to the id it finds there or does nothing |
| `AcpSessionRegistry.AcpRuntimeStore.RegisterForTurn` | packages/code-runtime-service-rs/src/acp_runtime.rs:848-867 | the new state of all four maps after a thread session is registered |
| `AcpSessionRegistry.AcpRuntimeStore.RegisterForTask` | packages/code-runtime-service-rs/src/acp_runtime.rs:937-956 | the new state of all four maps after a hidden session is registered |
| `AcpSessionRegistry.AcpRuntimeStore.RebindTask` | packages/code-runtime-service-rs/src/acp_runtime.rs:900-905 | a task on a thread session loses its turn binding and gains a task binding |
| `AcpSessionRegistry.AcpRuntimeStore.InsertTerminal` | packages/code-runtime-service-rs/src/acp_runtime.rs:436-444 | a terminal opened by the agent is recorded on the live session of that id only |
| `AcpSessionRegistry.AcpRuntimeStore.RemoveTerminal` | packages/code-runtime-service-rs/src/acp_runtime.rs:533-542 | a released terminal is taken off the live session of that id only |
| `Glob.GlobMatchesExactly` | internal/runtime-policy-rs/src/lib.rs:365-381 | for every pattern and every path, escape plus the two textual substitutions accept exactly what the left-to-right reading accepts in which `**` takes any string without a line feed, `*` any slash-free string, everything else itself |
| `Glob.GlobMeansItsPattern` | internal/runtime-policy-rs/src/lib.rs:365-381 | whatever is accepted is described by the pattern with `**` standing for any string, and conversely unless the pattern has two adjacent stars and the path a line feed |
| `Glob.DotMattersOnlyForStarsAndLineFeeds` | internal/runtime-policy-rs/src/lib.rs:371 | the two readings of `**` agree on paths without line feeds and for patterns without two adjacent stars |
| `Glob.ReadingsAgreeExactlyWithoutLineFeeds` | internal/runtime-policy-rs/src/lib.rs:371 | the two readings agree on a path for every pattern if and only if the path has no line feed |
| `Glob.CompileParses` | internal/runtime-policy-rs/src/lib.rs:370-374 | the substituted text parses as a regular expression with exactly the pieces of the pattern |
| `Glob.PiecesMean` | internal/runtime-policy-rs/src/lib.rs:365-381 | the language of those pieces, on every string, is the reading in which `**` takes no line feed |
| `Glob.LineFeedIsNotMatched` | internal/runtime-policy-rs/src/lib.rs:371 | the two readings do differ: `**` does not match a line feed |
| `PolicyPaths.CleanPath` | internal/runtime-policy-rs/src/lib.rs:427-462 | the push/pop loop returns the rendering of the resolved components of the path |
| `PolicyPaths.CleanIsIdempotent` | internal/runtime-policy-rs/src/lib.rs:427-462 | cleaning an absolute path twice is cleaning it once |
| `PolicyPaths.NamesAreOrdinary` | internal/runtime-policy-rs/src/lib.rs:427-462 | a cleaned path has no empty, `.` or `..` component |
| `PolicyPaths.TextWithinIsNamePrefix` | internal/runtime-policy-rs/src/lib.rs:398-404 | "equal to the root or starts with the root and a slash" holds exactly when the root's component list is a prefix of the target's, including the root `/` and siblings that share a text prefix |
| `PolicyPaths.WithinRootsIsPiecePrefix` | internal/runtime-policy-rs/src/lib.rs:383-406 | for every target, list of roots and working directory: containment holds if and only if the normal form of the target, split at its slashes, begins with that of some root; names a backslash hid from the cleaning count as they stand |
| `PolicyPaths.WithinRootsIsNamePrefix` | internal/runtime-policy-rs/src/lib.rs:383-406 | without backslashes that is component containment in one of the roots |
| `PolicyPaths.TextWithinIsPiecePrefix` | internal/runtime-policy-rs/src/lib.rs:398-404 | the same of the text test, for pieces with empty and dot segments among them |
| `PolicyPaths.BackslashesLeaveTheRoot` | internal/runtime-policy-rs/src/lib.rs:383-415 | `/root\..\..\etc` counts as within `/root`, although the path with forward slashes is not and cleans to `/etc` |
| `PolicyContainment.ContainedPathsStayExactly` | internal/runtime-policy-rs/src/lib.rs:383-415 | for every root of ordinary names and every contained target: each beginning of the normal form that covers the root leads to the root or below it if and only if, in what follows the root, the parent steps never outnumber the names; below `/` always |
| `PolicyContainment.WalkBelow` | internal/runtime-policy-rs/src/lib.rs:427-462 | while they do not, walking on from the root is walking from `/`, put below the root |
| `PolicyContainment.OrdinaryPathsStay` | internal/runtime-policy-rs/src/lib.rs:427-462 | ordinary names alone never leave |
| `PolicyPaths.IsPathWithinRoots` | internal/runtime-policy-rs/src/lib.rs:383-406 | the loop over the roots decides containment as specified |
| `PolicyPaths.CleanFixedPoint` | internal/runtime-policy-rs/src/lib.rs:427-462 | a path is its own cleaning exactly when it is the root or has only ordinary segments |
| `PolicyPaths.NormalizeTwice` | internal/runtime-policy-rs/src/lib.rs:408-415 | normalising an absolute path twice is normalising it once if and only if each name its cleaning keeps falls into ordinary segments at its backslashes |
| `PolicyPaths.BackslashParent` | internal/runtime-policy-rs/src/lib.rs:408-415 | `/a\..` is a path whose normal form normalises further |
| `PolicyEngine.DecidingRuleIsUnique` | internal/runtime-policy-rs/src/lib.rs:184-218 | the two-pass reading (exact rules in order, then wildcards in order, then fallback) picks at most one rule |
| `PolicyEngine.DecisionIsUnique` | internal/runtime-policy-rs/src/lib.rs:184-218 | configuration, action and context determine decision, reason, tags and rule id, so any two evaluations that follow the two passes agree |
| `PolicyEngine.RuntimePolicyEngine.Evaluate` | internal/runtime-policy-rs/src/lib.rs:140-219 | the decision, reason, tags and rule id are those of the first rule that covers the action and whose stated conditions all hold of the input itself (grant and output roots by components of the path, patterns, size, host, connector), exact rules before wildcards; of the fallback exactly when there is none; and it is what the two-pass scan picks |
| `PolicyEngine.RuntimePolicyEngine.FirstByScan` | internal/runtime-policy-rs/src/lib.rs:184-210 | the scan used for actions without an index finds the rule that decides |
| `PolicyEngine.RuntimePolicyEngine.FirstIndexed` | internal/runtime-policy-rs/src/lib.rs:169-181 | the walk over an index list finds the rule that decides |
| `PolicyEngine.FirstInIndexDecides` | internal/runtime-policy-rs/src/lib.rs:169-181 | the first applicable entry of an index list is the rule the two passes pick |
| `PolicyEngine.IndexHoldsEachMatchOnce` | internal/runtime-policy-rs/src/lib.rs:233-257 | each index list holds exactly the rules matching its action, each once |
| `PolicyEngine.BuildActionRuleCache` | internal/runtime-policy-rs/src/lib.rs:233-257 | the nested loops build, for every action, the exact rules in order followed by the wildcard rules in order |
| `PolicyEngine.Validate` | internal/runtime-policy-rs/src/lib.rs:83-97 | no error exactly for version 1.0 and rules that all have an id that is not blank and one of the six actions; otherwise the version, or what is wrong with the first rule that has neither |
| `MethodSetHash.ComputeRuntimeRpcMethodSetHash` | packages/code-runtime-client/src/runtimeClientCapabilitiesContract.ts:193-210 | the client's nested loops compute the fold over the UTF-8 bytes of the sorted names |
| `MethodSetHash.ComputeCodeRuntimeRpcMethodSetHash` | packages/code-runtime-host-contract/src/codeRuntimeRpc.ts:4572-4589 | the contract's nested loops compute the fold over the low bytes of the sorted, trimmed, distinct names |
| `MethodSetHash.ImplementationsAgree` | packages/code-runtime-host-contract/src/codeRuntimeRpc.ts:4572-4589 | the two implementations agree for any finite set of trimmed non-empty ASCII names, whatever the order, repetition and padding; the sufficient half |
| `MethodSetHash.StreamsAgreeExactlyOnAscii` | packages/code-runtime-host-contract/src/codeRuntimeRpc.ts:4580-4584 | the two byte streams are the same if and only if every name is ASCII |
| `MethodSetHash.HashesDifferByParity` | packages/code-runtime-host-contract/src/codeRuntimeRpc.ts:4572-4589 | two hashes differ whenever one byte stream has an odd and the other an even number of odd bytes |
| `MethodSetHash.AccentedLettersSeparateTheHashes` | packages/code-runtime-host-contract/src/codeRuntimeRpc.ts:4580-4584 | the hashes of a name that is one character from U+00C0 to U+00FF always differ |
| `MethodSetHash.StepIsBijective` | packages/code-runtime-client/src/runtimeClientCapabilitiesContract.ts:203-204 | each fold step is a bijection on 64-bit states, with an explicit inverse |
| `MethodSetHash.StepSeparatesBytes` | packages/code-runtime-client/src/runtimeClientCapabilitiesContract.ts:203-204 | from one state, different bytes lead to different states |
| `MethodSetHash.FoldIsInjective` | packages/code-runtime-client/src/runtimeClientCapabilitiesContract.ts:201-208 | the fold of a fixed byte string is injective in its starting state, and stays below 2^64 |
| `MethodSetHash.OneByteAlwaysTells` | packages/code-runtime-client/src/runtimeClientCapabilitiesContract.ts:201-208 | two byte strings that differ in one byte never fold to the same value |
| `MethodSetHash.OneChangedByteChangesTheHash` | packages/code-runtime-client/src/runtimeClientCapabilitiesContract.ts:193-210 | changing one byte of one name without changing the sorted order always changes the hash |
| `MethodSetHash.StreamDeterminesNames` | packages/code-runtime-client/src/runtimeClientCapabilitiesContract.ts:206-207 | the separator makes the byte stream of a list of ASCII names decodable |
| `MethodSetHash.Hex16ReadsBack` | packages/code-runtime-client/src/runtimeClientCapabilitiesContract.ts:209 | a 64-bit value renders as exactly 16 hexadecimal digits that read back as the value |
| `MethodSetHash.HashesAreSixteenDigits` | packages/code-runtime-client/src/runtimeClientCapabilitiesContract.ts:209 | both hashes are always 16 hexadecimal digits |
| `CapabilitiesContract.UtcKeepsExactlyCalendarDates` | packages/code-runtime-client/src/runtimeClientCapabilitiesContract.ts:170-178 | reading fields back after `Date.UTC` (with its carries and its 19xx years) is the identity exactly on calendar dates from year 100 on |
| `CapabilitiesContract.VersionsAreCalendarDates` | packages/code-runtime-client/src/runtimeClientCapabilitiesContract.ts:157-179 | a contract version is accepted exactly when it is ISO-shaped and names a day of the calendar |
| `CapabilitiesContract.VersionOrderIsChronological` | packages/code-runtime-client/src/runtimeClientCapabilitiesContract.ts:178-191 | comparing the numeric codes of two accepted versions compares their dates |
| `CapabilitiesContract.StringMapsEqualIsEquality` | packages/code-runtime-client/src/runtimeClientCapabilitiesContract.ts:239-252 | same size plus lookup of every expected entry decides equality of the error-code maps |
| `CapabilitiesContract.GuardPassesExactlyConforming` | packages/code-runtime-client/src/runtimeClientCapabilitiesContract.ts:314-409 | the seven guards let a snapshot through if and only if it states no version, or states a date not before the minimum and its hash, profile, methods, features, freeze date and error codes are those the contract asks for |
| `CapabilitiesContract.CurrentMinimumIsADate` | packages/code-runtime-host-contract/src/codeRuntimeRpc.ts:3567-3568 | the minimum version in force is a calendar date, so the guards are not all skipped |
| `CapabilitiesProbe.ProbeCache.Enter` | packages/code-runtime-client/src/runtimeClientCapabilitiesProbeCore.ts:107-139 | the part of a call before its first await: its answer and the new cache |
| `CapabilitiesProbe.ProbeCache.SettleProbe` | packages/code-runtime-client/src/runtimeClientCapabilitiesProbeCore.ts:139-162 | the probe's continuation does what the specification step does; what callers then receive and what is cached is `CapabilitiesProbe.SharersGetTheResult` |
| `CapabilitiesProbe.ProbeCache.ResumeOwner` | packages/code-runtime-client/src/runtimeClientCapabilitiesProbeCore.ts:164-174 | the owner's catch and finally: a guard error is cached with its time, and the flight ends |
| `CapabilitiesProbe.AtMostOneProbe` | packages/code-runtime-client/src/runtimeClientCapabilitiesProbeCore.ts:134-174 | in every interleaving of callers at await points at most one probe is under way |
| `CapabilitiesProbe.RunIsSound` | packages/code-runtime-client/src/runtimeClientCapabilitiesProbeCore.ts:107-174 | in every interleaving: a cached snapshot passed all guards, and a cached error and a cached snapshot never coexist |
| `CapabilitiesProbe.OnlyGuardedOutcomesAreReceived` | packages/code-runtime-client/src/runtimeClientCapabilitiesProbeCore.ts:107-174 | no caller is ever handed a snapshot that fails a guard, nor an error no snapshot caused |
| `CapabilitiesProbe.ReceivedSnapshotsConform` | packages/code-runtime-client/src/runtimeClientCapabilitiesProbeCore.ts:107-174 | with the real guards: a snapshot handed to anyone that states a version conforms to the contract |
| `CapabilitiesProbe.ProbesStartOnlyWhenNeeded` | packages/code-runtime-client/src/runtimeClientCapabilitiesProbeCore.ts:111-138 | a call starts a probe if and only if no guard error younger than 5 seconds, no null younger than 5 seconds, no snapshot younger than 60 seconds is cached and none is in flight; inside those times it gets the cached outcome |
| `CapabilitiesProbe.CallersShareTheFlight` | packages/code-runtime-client/src/runtimeClientCapabilitiesProbeCore.ts:134-136 | everyone who calls while a probe is under way shares its outcome and changes nothing |
| `CapabilitiesProbe.CachedValuesHaveASource` | packages/code-runtime-client/src/runtimeClientCapabilitiesProbeCore.ts:139-162 | whatever is cached was brought by a cacheable probe and carries the time it was stored at |
| `CapabilitiesProbe.GuardErrorsStick` | packages/code-runtime-client/src/runtimeClientCapabilitiesProbeCore.ts:111-121 | while every call comes within the lifetime of a guard error, no probe starts and all those callers get that error |
| `CapabilitiesProbe.SnapshotsStick` | packages/code-runtime-client/src/runtimeClientCapabilitiesProbeCore.ts:122-138 | while every call comes within the lifetime of a cached snapshot, whatever else happens, no probe starts, the snapshot keeps its time, and all those callers get it at once |
| `ErrorChain.CollectErrorChain` | packages/code-runtime-client/src/runtimeErrorClassifier.ts:19-48 | on every finite, possibly cyclic graph the walk lists exactly the objects that paths through the fields `error`, `cause` and `details.error` of the heap lead to, each once, in the order of their shortest paths, and objects at one distance in the order in which the fields are looked at |
| `ErrorChain.ReadErrorField` | packages/code-runtime-client/src/runtimeErrorClassifier.ts:50-58 | the trimmed text of that field in the first object of that list that has one that is not blank; empty exactly when no path leads to such an object |
| `ErrorChain.CoverReachesEverything` | packages/code-runtime-client/src/runtimeErrorClassifier.ts:24-45 | when the queue is empty, every path from the root leads to a listed object no deeper than the path |
| `Placement.ScoreBounds` | packages/code-runtime-service-rs/src/agent_tasks_handlers_placement.rs:81-126 | for health in [0,1] and all 64-bit counters the total lies in [-640, 1860] |
| `Placement.ScoreBoundsAreTight` | packages/code-runtime-service-rs/src/agent_tasks_handlers_placement.rs:81-126 | both ends are attained |
| `Placement.ComparatorIsTotal` | packages/code-runtime-service-rs/src/agent_tasks_handlers_placement.rs:171-179 | the comparator is total and transitive, and only equal ids tie |
| `Placement.SelectedIsBest` | packages/code-runtime-service-rs/src/agent_tasks_handlers_placement.rs:160-181 | the selected backend is a candidate that no other comes before; nobody is selected only from an empty list |
| `Placement.BreakdownRanksEveryone` | packages/code-runtime-service-rs/src/agent_tasks_handlers_placement.rs:198-203 | the breakdown holds every candidate's score, best total first |
| `Placement.SelectionForgetsOrder` | packages/code-runtime-service-rs/src/agent_tasks_handlers_placement.rs:160-204 | the whole outcome depends only on which candidates there are |
| `Placement.PlacementForgetsIterationOrder` | packages/code-runtime-service-rs/src/agent_tasks_handlers_placement.rs:268-302 | the outcome is the same for every iteration order of the backend map |
| `Placement.PreferredBeatsOthers` | packages/code-runtime-service-rs/src/agent_tasks_handlers_placement.rs:86-126 | a preferred candidate whose queue and failure penalty is under 200 beats every candidate that is not preferred |
| `Placement.TwoHundredPointsCanLose` | packages/code-runtime-service-rs/src/agent_tasks_handlers_placement.rs:160-204 | 200 is tight: a preferred candidate with exactly 200 points of penalty can lose |
| `Placement.UnmetPreferenceMeansPenalties` | packages/code-runtime-service-rs/src/agent_tasks_handlers_placement.rs:182-197 | `preferred_backend_unavailable` with a preferred candidate present means that candidate's penalty is at least 200 |
| `Placement.CountActiveTasks` | packages/code-runtime-service-rs/src/agent_tasks_handlers_placement.rs:239-255 | the loop counts the unfinished tasks of each backend, with an entry exactly where there are some |
| `TaskCapacity.AgentTaskStore.RemoveAgentTask` | packages/code-runtime-service-rs/src/agent_policy.rs:231-235 | takes the task, its place in the order and its approvals out, and nothing else |
| `TaskCapacity.AgentTaskStore.EvictOldestTerminalAgentTask` | packages/code-runtime-service-rs/src/agent_policy.rs:241-259 | removes the first evictable task, and reports false exactly when there is none |
| `TaskCapacity.AgentTaskStore.EnsureAgentTaskCapacity` | packages/code-runtime-service-rs/src/agent_policy.rs:261-268 | the eviction loop ends in the state and with the answer of its specification |
| `TaskCapacity.EvictionRemovesTheOldestFinished` | packages/code-runtime-service-rs/src/agent_policy.rs:241-268 | exactly the k oldest finished tasks go, k = max(0, len - max + 1) or all there are, and it succeeds if and only if there were enough |
| `TaskCapacity.EvictionKeepsStoreWellFormed` | packages/code-runtime-service-rs/src/agent_policy.rs:231-268 | a well-formed store stays well formed, approval index included, and no unfinished task is touched |
| `TaskCapacity.CapacityOutcome` | packages/code-runtime-service-rs/src/agent_policy.rs:261-268 | true if and only if there is room afterwards; no more tasks go than that takes; after false only unfinished tasks are left |
| `TaskRecovery.DurabilityStore.PersistAgentTaskSnapshot` | packages/code-runtime-service-rs/src/agent_task_durability_sqlite.rs:15-47 | inserts the snapshot or replaces the row of its task, with its time as a signed 64-bit number, and leaves every other row |
| `TaskRecovery.DurabilityStore.ReadRecentAgentTaskSnapshots` | packages/code-runtime-service-rs/src/agent_task_durability_sqlite.rs:112-143 | parses the returned rows in order; a failed query or one unparsable row fails the read |
| `TaskRecovery.DurabilityStore.RecoverDurableRuntimeState` | packages/code-runtime-service-rs/src/agent_task_durability.rs:332-379 | the recovery loop returns the specified state, nothing at all without a usable connection or when the query fails, and moves both counters by what it recovered |
| `TaskRecovery.Hydrate` | packages/code-runtime-service-rs/src/agent_task_durability.rs:472-553 | a hydrated task keeps its steps and its status, except that a running one comes back interrupted and resumable |
| `TaskRecovery.RecoveryIsTheHydratedTasks` | packages/code-runtime-service-rs/src/agent_task_durability.rs:355-379 | recovery is the hydrated tasks inserted in order, the queued ones queued in that order, and one interrupt counted per running snapshot |
| `TaskRecovery.WellFormedExactlyWhenSeparate` | packages/code-runtime-service-rs/src/agent_task_durability.rs:357-378 | the recovered store is well formed if and only if the hydrated ids differ and no approval is awaited twice |
| `TaskRecovery.RecoveryRestoresTheTable` | packages/code-runtime-service-rs/src/agent_task_durability.rs:332-379 | from any table of checkpoints and any valid answer of the database: well-formed store, exactly those rows, oldest update first, nothing running, what was running resumable and counted, the queue exactly the queued ones |
| `TaskRecovery.UpsertKeepsTidy` | packages/code-runtime-service-rs/src/agent_task_durability_sqlite.rs:15-47 | writing a checkpoint keeps one row per task under the task's own id |
| `TaskResume.PrepareStepsForResume` | packages/code-runtime-service-rs/src/agent_tasks_handlers_intervention.rs:415-438 | the in-place loop keeps completed steps, requeues all others and finds the first of those |
| `TaskResume.ResumeContinuesWhereItStopped` | packages/code-runtime-service-rs/src/agent_tasks_handlers_intervention.rs:415-438 | after a resume the current step is the first not completed, everything before it is completed and untouched |
| `TaskResume.ResumeKeepsOrderExact` | packages/code-runtime-service-rs/src/agent_tasks_handlers.rs:991-1055 | a resume request, also one that adopts a task from its row, keeps the order exact |
| `TaskResume.ResumeKeepsIndexExactly` | packages/code-runtime-service-rs/src/agent_tasks_handlers.rs:991-1055 | it keeps the approval index exact if and only if it neither adopts a task awaiting approval nor clears an approval another task awaits |
| `TaskResume.AdoptedApprovalIsNotIndexed` | packages/code-runtime-service-rs/src/agent_tasks_handlers.rs:991-1055 | a store and a row for which it does not: the adopted task awaits an approval the index does not hold |
| `TaskResume.CompletedStepsSurvive` | packages/code-runtime-service-rs/src/agent_task_durability_checkpoint.rs:45-112 | over any sequence of runner steps, compressions, requests, snapshots taken, landed and lost, crashes, restarts and resumptions in which no pause comes between two steps and no snapshot lands after one taken later: a step completed in the durable row stays completed, in the row and in memory, and its record stays the same but for one compression at the most |
| `TaskResume.LandingKeepsExactly` | packages/code-runtime-service-rs/src/agent_task_durability_checkpoint.rs:45-112 | after every run without a pause between two steps, in whatever order snapshots have landed: one that lands now keeps the completed steps of the row completed if and only if no step was completed between its own taking and the taking of the snapshot in the row, and brings back no older record of one if and only if none was compressed between them either |
| `TaskResume.LateCheckpointUndoesAStep` | packages/code-runtime-service-rs/src/agent_task_durability_checkpoint.rs:45-112 | a run in which an earlier snapshot lands last: the completed step is running again in the row, and queued again after a crash and a resumption |
| `TaskResume.MemoryIsNeverBehindTheRow` | packages/code-runtime-service-rs/src/agent_task_durability_checkpoint.rs:45-112 | in every interleaving without a pause between two steps memory holds every step completed in the row, compressed once more at the most, even when snapshots overtake each other |
| `TaskResume.MemoryMovesExactly` | packages/code-runtime-service-rs/src/agent_tasks_handlers_intervention.rs:163-188 | of the events short of a crash, exactly a pause while the current step is a completed one loses a completed step; exactly completing a step adds one; exactly a compression of a completed step changes the record of one |
| `TaskResume.PauseBetweenStepsUndoesAStep` | packages/code-runtime-service-rs/src/agent_tasks_handlers_intervention.rs:163-188 | a run in which it does: the step just finished is marked as paused, also in the row, and the resumption queues it again |
| `TaskResume.NothingIsLostWithoutACrash` | packages/code-runtime-service-rs/src/agent_tasks_handlers_intervention.rs:163-188 | without a crash no event of a run loses a completed step, even one not checkpointed yet, if and only if no pause comes while the current step is a completed one |
| `TaskResume.MemoryAtTheEnd` | packages/code-runtime-service-rs/src/agent_tasks_handlers_intervention.rs:415-438 | over such a run the steps completed at its start are completed at its end, each compressed once at the most |
| `ContextCompression.ExecuteContextCompression` | packages/code-runtime-service-rs/src/transport/execution/agent_tasks_execution_runtime_autonomy/context_compression.rs:113-191 | the in-place loop replaces exactly the records that can be compressed below the recent steps, whatever their status, and returns the totals over those |
| `ContextCompression.CompressOne` | packages/code-runtime-service-rs/src/transport/execution/agent_tasks_execution_runtime_autonomy/context_compression.rs:138-188 | one record: skipped when compressed already, without output or blank; else its output becomes the summary and its metadata say so |
| `ContextCompression.RewrittenExactly` | packages/code-runtime-service-rs/src/transport/execution/agent_tasks_execution_runtime_autonomy/context_compression.rs:212-293 | a finished step rewrites the record of step j if and only if compression is triggered (by size, failures in a row or session length), j lies before the recent steps, and the record has an uncompressed output that is not blank; no status changes |
| `ContextCompression.EighthStepRewritesCompletedSteps` | packages/code-runtime-service-rs/src/transport/execution/agent_tasks_execution_runtime_autonomy/context_compression.rs:3-9 | with the default settings the eighth step always rewrites the completed first four that have such an output |
| `ContextCompression.FollowsOnce` | packages/code-runtime-service-rs/src/transport/execution/agent_tasks_execution_runtime_autonomy/context_compression.rs:138-146 | a record is compressed at most once, and never turns back |
| `ContextCompression.SummaryKeepsWords` | packages/code-runtime-service-rs/src/transport/execution/agent_tasks_execution_runtime_autonomy/context_compression.rs:93-111 | a summary has the words of the text in order when they fit, and otherwise exactly the allowed number of characters and three dots |
| `ContextCompression.SummaryIsEmptyExactlyWhenBlank` | packages/code-runtime-service-rs/src/transport/execution/agent_tasks_execution_runtime_autonomy/context_compression.rs:151-157 | a summary is empty exactly for a blank output, so the second of the two tests never decides |
| `ContextCompression.TotalsCountTheRewritten` | packages/code-runtime-service-rs/src/transport/execution/agent_tasks_execution_runtime_autonomy/context_compression.rs:185 | the first total is the number of records rewritten |
| `ContextCompression.CountRecentConsecutiveFailures` | packages/code-runtime-service-rs/src/transport/execution/agent_tasks_execution_runtime_autonomy/context_compression.rs:193-210 | counts the failed steps at the end, the finished one included, and none after a completed one |
| `TaskResume.CrashedRunsResume` | packages/code-runtime-service-rs/src/agent_tasks_handlers_intervention.rs:86-88 | a task that was running at the crash can be resumed, at its first unfinished step |
| `WriteBreaker.OpensAfterFiveInARow` | packages/code-runtime-service-rs/src/agent_task_durability.rs:208-225 | for every history of writes: degraded if and only if five in a row have failed, and the alarm is raised exactly once |
| `WriteBreaker.DurabilityCounters.RecordCheckpointWriteFailure` | packages/code-runtime-service-rs/src/agent_task_durability.rs:213-225 | the new counters, and true exactly when this failure trips the breaker |
| `WriteBreaker.DurabilityCounters.RecordCheckpointWriteSuccess` | packages/code-runtime-service-rs/src/agent_task_durability.rs:208-211 | the new counters; the run of failures starts over |
| `ReadGuard.ResolveReadRequirementViolation` | packages/code-runtime-service-rs/src/agent_tasks_execution_helpers.rs:256-341 | no violation if and only if the step neither writes nor edits, names no path, or its path has a completed read with no later completed write or edit; a violation names the trimmed path, the last read and the last mutation, and its message says which of the two it is |
| `ReadGuard.LastTouches` | packages/code-runtime-service-rs/src/agent_tasks_execution_helpers.rs:267-293 | the scan finds the last completed read and the last completed mutation of the path |
| `ReadGuard.FreshnessFromLastTouches` | packages/code-runtime-service-rs/src/agent_tasks_execution_helpers.rs:295-303 | comparing those two indices decides whether a fresh read exists |
| `ReadGuard.RunsAreDisciplined` | packages/code-runtime-service-rs/src/transport/execution/agent_tasks_execution_runner/mod.rs:545-725 | however often a run is stopped and resumed: completed steps come first and each guarded one had its evidence, after every step of every pass, if and only if no pause comes late, that is, between the look for one and the start of a step that then completes |
| `ReadGuard.MutationsAreRead` | packages/code-runtime-service-rs/src/transport/execution/agent_tasks_execution_runner/mod.rs:614-684 | in runs without a late pause every completed write or edit has a fresh completed read of its path before it |
| `ReadGuard.ReadBetweenMutations` | packages/code-runtime-service-rs/src/transport/execution/agent_tasks_execution_runner/mod.rs:614-684 | in runs without a late pause there is a completed read between two completed writes or edits of one path |
| `ReadGuard.LatePauseLosesTheEvidence` | packages/code-runtime-service-rs/src/transport/execution/agent_tasks_execution_runner/mod.rs:628-725 | a read, a write and a pause after the guard has passed the write: the read is marked as paused, the pause is overwritten, the write completes without evidence |
| `ReadGuard.ExecutingKeepsDisciplineExactly` | packages/code-runtime-service-rs/src/transport/execution/agent_tasks_execution_runner/mod.rs:628-725 | executing one step keeps completed steps in front and evidenced if and only if it does not complete after a pause has taken back the step before it |
| `SchemaValidation.ValidationState.ValidateValue` | packages/code-runtime-client/src/webMcpToolInputSchemaValidation.ts:119-205 | the recursive pushing into the shared arrays appends exactly the specified report |
| `SchemaValidation.ValidateToolInputAgainstSchema` | packages/code-runtime-client/src/webMcpToolInputSchemaValidation.ts:207-234 | the entry point, with its separate check of the root type, returns the specified report; what that report lists is `SchemaMeaning.ReportsAreExact` |
| `SchemaValidation.ErrorsIffRejected` | packages/code-runtime-client/src/webMcpToolInputSchemaValidation.ts:119-205 | no errors if and only if every reached node accepts by variants, enumeration, type and contents |
| `SchemaValidation.NoErrorsMeansMatching` | packages/code-runtime-client/src/webMcpToolInputSchemaValidation.ts:71-117 | an empty error list implies `matchesSchema` |
| `SchemaValidation.InterpretersAgree` | packages/code-runtime-client/src/webMcpToolInputSchemaValidation.ts:71-117 | the two interpreters agree on every value when no node reached through items and properties combines `oneOf` with `enum` or `type` |
| `SchemaValidation.InterpretersDifferExactly` | packages/code-runtime-client/src/webMcpToolInputSchemaValidation.ts:71-205 | for every value and schema: the error list is empty if and only if `matchesSchema` holds and, at every reached node with `oneOf`, the enumeration, type and contents of that node accept as well |
| `SchemaValidation.SiblingsOfOneOfDisagree` | packages/code-runtime-client/src/webMcpToolInputSchemaValidation.ts:126-150 | without that condition they can disagree |
| `SchemaValidation.ReportsAddUp` | packages/code-runtime-client/src/webMcpToolInputSchemaValidation.ts:44-47 | errors are exactly the type mismatches and the missing fields, in order; every extra field has its warning |
| `AliasRegistry.RegistryIsUnambiguous` | packages/code-runtime-host-contract/src/codeRuntimeRpcCompat.ts:118-268 | the 145 registered fields have 290 different spellings |
| `AliasRegistry.RegisteredClonesAreClosed` | packages/code-runtime-host-contract/src/codeRuntimeRpcCompat.ts:118-268 | with those fields, in whatever order they are registered: a clone has both spellings or neither at every depth, and is its own clone |
| `AliasClone.CloneForgetsTheOrder` | packages/code-runtime-host-contract/src/codeRuntimeRpcCompat.ts:405-437 | a clone does not depend on the order in which the fields are registered |
| `AliasClone.ConventionIsUnambiguous` | packages/code-runtime-host-contract/src/codeRuntimeRpcCompat.ts:118-268 | a convention that is enough for any registry: distinct names without underscores and aliases that spell them in snake case never collide |
| `AliasClone.CloneCompatAliasValue` | packages/code-runtime-host-contract/src/codeRuntimeRpcCompat.ts:405-437 | the recursive clone with its two loops computes the specified clone |
| `AliasClone.CloneClosesEachObject` | packages/code-runtime-host-contract/src/codeRuntimeRpcCompat.ts:405-437 | both spellings or neither, every original key keeps the clone of its own value, only missing spellings are added |
| `AliasClone.ClosureIsUnique` | packages/code-runtime-host-contract/src/codeRuntimeRpcCompat.ts:417-434 | those three properties determine the result |
| `AliasClone.ClonesAreFullyClosed` | packages/code-runtime-host-contract/src/codeRuntimeRpcCompat.ts:405-437 | both spellings or neither holds in every object at every depth |
| `AliasClone.FixedExactlyWhenClosed` | packages/code-runtime-host-contract/src/codeRuntimeRpcCompat.ts:405-437 | a tree is its own clone if and only if it is closed already |
| `AliasClone.CloneIsIdempotent` | packages/code-runtime-host-contract/src/codeRuntimeRpcCompat.ts:405-437 | cloning twice is cloning once |
| `AliasClone.SharedSpellingsBreakTheClosure` | packages/code-runtime-host-contract/src/codeRuntimeRpcCompat.ts:417-434 | with a spelling shared between two fields one pass over the registry is not enough |
| `EventChannels.EventStateMachines.Transition` | packages/code-runtime-client/src/runtimeEventStateMachine.ts:78-115 | a transition replaces its channel and moves the shared counters exactly as specified |
| `EventChannels.EventStateMachines.SetError` | packages/code-runtime-client/src/runtimeEventStateMachine.ts:117-121 | an error is a transition to `error` with its message as last error |
| `EventChannels.CountersCountTheHistory` | packages/code-runtime-client/src/runtimeEventStabilityMetrics.ts:58-89 | the shared counters count exactly the entries into and exits from fallback, reconnecting and open over all channels |
| `EventChannels.FallbackCountersBalance` | packages/code-runtime-client/src/runtimeEventStabilityMetrics.ts:58-77 | entries minus recoveries is the number of channels now in fallback |
| `EventChannels.FallbackSinceIsTheEntryTime` | packages/code-runtime-client/src/runtimeEventChannelDiagnostics.ts:63-68 | `fallbackSinceMs` is set exactly while in fallback and is the time of the event that entered it |
| `EventChannels.RecoveryReportsTheTimeInFallback` | packages/code-runtime-client/src/runtimeEventStateMachine.ts:101-106 | the reported duration is the time since that entry, or nothing when the clock ran backwards, whatever happened in between |
| `EventChannels.FailuresAreErrorsSinceOpen` | packages/code-runtime-client/src/runtimeEventChannelDiagnostics.ts:69-76 | without overrides `consecutiveFailures` is the number of the channel's errors since it was last open |
| `AcpMultiplexer.ClientLoop.HandleNotification` | packages/code-runtime-service-rs/src/acp_runtime.rs:627-630 | the notification arm answers its caller at once and takes no id |
| `AcpMultiplexer.RequestConservesExactly` | packages/code-runtime-service-rs/src/acp_runtime.rs:618-626 | a request keeps every caller accounted for if and only if its id is not pending already or it could not be written |
| `AcpSessionRegistry.AcpRuntimeStore.DetachTurnBinding` | packages/code-runtime-service-rs/src/acp_runtime.rs:105-107 | removes the binding of the turn and nothing else |
| `PolicyEngine.RuntimePolicyEngine.New` | internal/runtime-policy-rs/src/lib.rs:131-138 | an engine with its complete index exactly for valid configurations, and an error otherwise |
| `PolicyPaths.SegmentsOfJoin` | internal/runtime-policy-rs/src/lib.rs:427-462 | splitting the joined names at slashes gives the names back |
| `MethodSetHash.Utf8IsLowBytesForAscii` | packages/code-runtime-host-contract/src/codeRuntimeRpc.ts:4580-4584 | a name encodes to its low bytes exactly when it is ASCII |
| `CapabilitiesContract.ConformanceGuardByGuard` | packages/code-runtime-client/src/runtimeClientCapabilitiesContract.ts:328-409 | the six guards after the version all pass if and only if the snapshot conforms |
| `ErrorChain.DepthsAreDistances` | packages/code-runtime-client/src/runtimeErrorClassifier.ts:24-45 | the depths kept by the walk are shortest distances, and the list is exactly what is reachable |
| `TaskRecovery.RecoveredStateIsSound` | packages/code-runtime-service-rs/src/agent_task_durability.rs:355-379 | from snapshots of different tasks: well-formed store in update order, each task the hydration of its snapshot, queue exactly the queued tasks |
| `TaskResume.AdoptingKeepsIndexExact` | packages/code-runtime-service-rs/src/agent_tasks_handlers.rs:998-1007 | taking a task from its row keeps the approval index exact if and only if that task awaits no approval |
| `ReadGuard.PassKeepsDiscipline` | packages/code-runtime-service-rs/src/transport/execution/agent_tasks_execution_runner/mod.rs:545-725 | one pass of the runner keeps completed steps in front and evidenced all along if and only if no pause comes late |
| `SchemaValidation.ValidationState.ValidateObject` | packages/code-runtime-client/src/webMcpToolInputSchemaValidation.ts:166-204 | an object node appends its missing fields, its extra fields and the reports of its properties, in that order |
| `AliasClone.AddAllSpellings` | packages/code-runtime-host-contract/src/codeRuntimeRpcCompat.ts:417-434 | the loop over the registry adds the missing spellings one field after the other |
| `EventChannels.EventStateMachines.RecordFallback` | packages/code-runtime-client/src/runtimeEventStabilityMetrics.ts:58-77 | entering and leaving fallback move the two counters, the reason and the duration as specified |
| `EventChannels.EventStateMachines.RecordReconnect` | packages/code-runtime-client/src/runtimeEventStabilityMetrics.ts:79-89 | entering reconnecting or open moves its counter |
| `Ordering.SortedIsUnique` | packages/code-runtime-service-rs/src/agent_tasks_handlers_placement.rs:171-179 | two sorted arrangements of the same elements coincide when no two tie; what makes sorting forget an enumeration order |
| `Ordering.SortSorts` | packages/code-runtime-service-rs/src/agent_tasks_handlers_placement.rs:171-179 | the stable sort returns a sorted rearrangement |
| `AcpMultiplexer.EveryCallersFate` | packages/code-runtime-service-rs/src/acp_runtime.rs:614-688 | in every run of fewer than 2^64-2 requests, what each caller ends up with, said of the events alone: an error response fails it with its message, a result answers it (`null` without one), a malformed response fails it, the end of the loop tells it that the client stopped, a failed write or a notification is answered at once; until then nothing |
| `AcpMultiplexer.CallersAreTheCommands` | packages/code-runtime-service-rs/src/acp_runtime.rs:616-630 | there are as many callers as commands read before the loop ended |
| `SessionHistory.SectionsDo` | packages/code-runtime-service-rs/src/acp_runtime.rs:104-133 | each section changes the four maps in its own way and in no other, said without the specification functions |
| `SessionHistory.ReleasesHandOut` | packages/code-runtime-service-rs/src/acp_runtime.rs:109-132 | a release hands out the terminals of a live hidden session that nothing else is bound to, and none otherwise |
| `SessionHistory.TurnsAreBoundByTheLast` | packages/code-runtime-service-rs/src/acp_runtime.rs:752-966 | in every run a turn is bound to the session that the last event concerning it gave it, and to none after a release |
| `SessionHistory.TasksAreBoundByTheLast` | packages/code-runtime-service-rs/src/acp_runtime.rs:752-966 | likewise for tasks |
| `SessionHistory.KeysTellApart` | packages/code-runtime-service-rs/src/acp_runtime.rs:155-179 | without colons in workspace and name, two keys are the same if and only if workspace, name and backend are once trimmed |
| `SessionHistory.ColonsBlurKeys` | packages/code-runtime-service-rs/src/acp_runtime.rs:155-179 | with colons they can be the same for different workspaces |
| `PolicyEngine.ChosenRuleAnswers` | internal/runtime-policy-rs/src/lib.rs:140-219 | the rule the two-pass scan picks answers the input as said of its own fields |
| `PolicyEngine.ConditionsSpeakOfTheInput` | internal/runtime-policy-rs/src/lib.rs:281-330 | the prepared context decides the conditions of a rule exactly as the input and the working directory do |
| `PolicyEngine.MatchingIsCovering` | internal/runtime-policy-rs/src/lib.rs:259-279 | in a valid configuration a rule matches an action exactly when it names it, or names a prefix of it with `.*` for the rest |
| `PolicyContainment.RelativePathsGoOn` | internal/runtime-policy-rs/src/lib.rs:408-415 | a relative path is cleaned as the working directory followed by the path |
| `NameBytes.Utf8ReadsBack` | packages/code-runtime-client/src/runtimeClientCapabilitiesContract.ts:193-210 | decoding the UTF-8 bytes of a name (section 3 of RFC 3629) gives the name back, with U+FFFD for each surrogate that is not part of a pair |
| `NameBytes.XorIsBitwise` | packages/code-runtime-client/src/runtimeClientCapabilitiesContract.ts:203 | each bit of the exclusive or is set exactly when it is set in one of the two |
| `NameBytes.FoldIsFnv` | packages/code-runtime-client/src/runtimeClientCapabilitiesContract.ts:193-204 | the step and the constants are those of 64-bit FNV-1a |
| `NameBytes.SpacesAre` | packages/code-runtime-host-contract/src/codeRuntimeRpc.ts:4572-4578 | which code units `trim` takes off |
| `NameBytes.TrimIsTheMiddle` | packages/code-runtime-host-contract/src/codeRuntimeRpc.ts:4572-4578 | trimming takes white space off both ends and nothing else, as far as it goes |
| `NameBytes.HashedNamesAre` | packages/code-runtime-host-contract/src/codeRuntimeRpc.ts:4572-4578 | exactly the names that some entry is once trimmed are hashed, unless nothing is left |
| `CapabilitiesContract.CalendarIsGregorian` | packages/code-runtime-client/src/runtimeClientCapabilitiesContract.ts:170-178 | the calendar of the version dates has the months and leap years of the Gregorian one |
| `CapabilitiesContract.MinimumMeans` | packages/code-runtime-client/src/runtimeClientCapabilitiesContract.ts:181-191 | a version is at least the minimum exactly when both are dates and the first is not earlier |
| `CapabilitiesContract.LaterFailureIsFirst` | packages/code-runtime-client/src/runtimeClientCapabilitiesContract.ts:328-409 | the error says what the first of the six points is in which the snapshot does not conform |
| `CapabilitiesContract.RefusalsName` | packages/code-runtime-client/src/runtimeClientCapabilitiesContract.ts:314-409 | when the minimum is a date: a refusal names a version before the minimum together with the minimum, or is such an error |
| `CapabilitiesProbe.SharersGetTheResult` | packages/code-runtime-client/src/runtimeClientCapabilitiesProbeCore.ts:139-162 | in every run, everyone who shares a probe gets what came of it once it has settled: the snapshot if it may be cached and passes the guard, the error of the guard, null if it may not be cached, or the failure; and exactly what may be cached and passes is cached then |
| `CapabilitiesProbe.DecidedOnceForAll` | packages/code-runtime-client/src/runtimeClientCapabilitiesProbeCore.ts:139-174 | what came of a probe that has settled never changes afterwards |
| `CapabilitiesProbe.OwnersRememberErrors` | packages/code-runtime-client/src/runtimeClientCapabilitiesProbeCore.ts:164-174 | when its owner resumes, an error of the guard is remembered with that time, and no probe is in flight |
| `PlacementMeaning.CandidatesAreExactly` | packages/code-runtime-service-rs/src/agent_tasks_handlers_placement.rs:19-30 | a backend is a candidate if and only if it is stored, offers each required capability up to the case of ASCII letters, and is eligible under its load, the greater of the published count and its own |
| `PlacementMeaning.ScoresMean` | packages/code-runtime-service-rs/src/agent_tasks_handlers_placement.rs:72-120 | each part of the score in numbers: preference, resumption, readiness, latency class, slots, queue, failures and health; and their sum |
| `PlacementMeaning.ReasonsMean` | packages/code-runtime-service-rs/src/agent_tasks_handlers_placement.rs:121-144 | which reasons a score gives |
| `PlacementMeaning.ComparisonMeans` | packages/code-runtime-service-rs/src/agent_tasks_handlers_placement.rs:171-179 | higher totals come first, then ready backends, then those with fewer reasons against them, then the smaller id, letter by letter |
| `PlacementMeaning.SelectionIsTheRanking` | packages/code-runtime-service-rs/src/agent_tasks_handlers_placement.rs:160-204 | the outcome is the first of a ranking of all candidates in that order, with all their scores, and the code for an unmet preference, then for an unmet resumption |
| `PlacementMeaning.CountsMean` | packages/code-runtime-service-rs/src/agent_tasks_handlers_placement.rs:239-255 | the published count of a backend is the number of its unfinished tasks |
| `TaskCapacity.OlderOnesGoFirst` | packages/code-runtime-service-rs/src/agent_policy.rs:241-268 | no finished task goes while an older one stays |
| `TaskRecovery.HydrationRestores` | packages/code-runtime-service-rs/src/agent_task_durability.rs:472-553 | field by field what a restart makes of a snapshot, and when the task can be resumed |
| `TaskRecovery.AnswersAreTheMostRecent` | packages/code-runtime-service-rs/src/agent_task_durability_sqlite.rs:112-143 | a table within the limit comes back whole; from a longer one as many rows as the limit, and none left out is more recent |
| `TaskRecovery.LimitMeans` | packages/code-runtime-service-rs/src/agent_task_durability.rs:336-341 | at least one and at most 256 rows are asked for |
| `TaskResume.ResumptionClears` | packages/code-runtime-service-rs/src/agent_tasks_handlers_intervention.rs:415-438 | field by field what a resumption clears, and that it clears nothing else |
| `TaskResume.ResumeAnswers` | packages/code-runtime-service-rs/src/agent_tasks_handlers.rs:991-1055 | a resume request is accepted exactly for a task in memory or in its row that is paused or was interrupted by a restart; only that task changes, and one taken from its row comes last in the order |
| `TaskResume.PauseMeans` | packages/code-runtime-service-rs/src/agent_tasks_handlers_intervention.rs:163-188 | field by field what a pause changes on the task and on its current step |
| `TaskResume.CheckpointsComeBack` | packages/code-runtime-service-rs/src/agent_task_durability.rs:472-553 | a task that was not running comes back from its checkpoint as it was |
| `RunHistory.CurrentIsTheLastStarted` | packages/code-runtime-service-rs/src/transport/execution/agent_tasks_execution_runner/mod.rs:700-725 | in every run the current step of a task is the one started last, also when it is over, until a pause, a resumption, a crash or another request |
| `RunHistory.RecordIsTheLastOutcome` | packages/code-runtime-service-rs/src/transport/execution/agent_tasks_execution_runner/mod.rs:700-725 | in every run the record of a step is the outcome it was given last, until a pause, a resumption, a compression or a crash |
| `RunHistory.WritesAreConserved` | packages/code-runtime-service-rs/src/agent_task_durability_checkpoint.rs:97-130 | without a crash every checkpoint taken is still under way, has landed or was lost |
| `ContextCompression.CompressibleExactly` | packages/code-runtime-service-rs/src/transport/execution/agent_tasks_execution_runtime_autonomy/context_compression.rs:138-157 | a record is compressed unless its metadata say it has been, by whoever, or its output is missing or blank |
| `ContextCompression.CompressionMeans` | packages/code-runtime-service-rs/src/transport/execution/agent_tasks_execution_runtime_autonomy/context_compression.rs:151-188 | what compression puts into a record, and that it changes nothing else |
| `ContextCompression.TotalsAreSums` | packages/code-runtime-service-rs/src/transport/execution/agent_tasks_execution_runtime_autonomy/context_compression.rs:160-190 | the byte totals are the sums over the records rewritten, at most 2^64-1 |
| `WriteBreaker.CountersCountWrites` | packages/code-runtime-service-rs/src/agent_task_durability.rs:208-225 | the counters are the number of writes and of failed writes |
| `ReadGuard.TouchesMean` | packages/code-runtime-service-rs/src/agent_tasks_execution_helpers.rs:267-293 | which steps read and which mutate a path |
| `SchemaMeaning.ReportsAreExact` | packages/code-runtime-client/src/webMcpToolInputSchemaValidation.ts:71-234 | for every value, schema and finding: the report lists it if and only if the path leads, item by item and declared property by declared property through nodes that fit, to a node of which it is true: a mismatch with the first of variants, enumeration and type it does not fit, a required name the object lacks, a field it has that is not declared |
| `SchemaMeaning.TypeNamesRead` | packages/code-runtime-client/src/webMcpToolInputSchemaValidation.ts:49-69 | which values each type name accepts; an integer is a number without a fraction, and unknown names accept everything |
| `SchemaMeaning.RequiredRead` | packages/code-runtime-client/src/webMcpToolInputSchemaValidation.ts:95-99 | the required fields are the texts in the array under `required` |
| `ChannelHistory.LastEventSays` | packages/code-runtime-client/src/runtimeEventStateMachine.ts:78-115 | in every run the channel has label, status, reason and time of its last event, and what that event overrides |
| `ChannelHistory.ChannelsRemember` | packages/code-runtime-client/src/runtimeEventChannelDiagnostics.ts:40-90 | in every run retries, delay and last error are those given last, or none since the channel was last open |
| `ChannelHistory.TransportIsLastGiven` | packages/code-runtime-client/src/runtimeEventChannelDiagnostics.ts:40-90 | in every run the transport is the one given last, or the default of the first event |
| `ChannelHistory.RecordIsOfTheLastEntry` | packages/code-runtime-client/src/runtimeEventStabilityMetrics.ts:58-77 | after an entry into fallback the recorded reason is that of its event, or the channel, or `unknown`, and no duration is recorded |
| `AliasClone.CamelMeans` | packages/code-runtime-host-contract/src/codeRuntimeRpcCompat.ts:118-268 | reading a snake-case name as camel case takes out each underscore and makes the letter after it a capital |
| `Ordering.SortIsStable` | packages/code-runtime-service-rs/src/agent_task_durability.rs:355 | elements that rank equally keep their order |

## Left out

- Process spawning, pipes, HTTP, SQLite, environment lookup and serde decoding: they appear as nondeterministic events, as a
  keyed table, or as parameters.
- `AcpMultiplexer.RunInvariant`: commands still in the channel when the loop exits are dropped unread and have no arrival number.
- Closing a terminal through the agent while a release of the same session is on its way: the model orders the two lock-held
  sections but not the terminal calls between them.
- Session event broadcasting, cancellation and prompt texts: plumbing around the registry.
- Case-insensitive paths and patterns, drive prefixes of other platforms, the size limit of the regular-expression engine, and
  the policy hash (SHA-256).
- White space beyond ASCII when texts other than method names are trimmed, and locale collation: sorting takes any total order as a parameter.
- `Placement.ScoreBounds`: health is a real number in [0,1]; floating-point rounding before the final `round` and health scores
  registered outside that range are not modelled.
- `assess_runtime_backend_operability`: a parameter of the placement model; the text of the placement failure message is not modelled.
- `TaskRecovery.RecoveryRestoresTheTable`: asks that each row stands under the id of its own task and that no approval is awaited by
  two tasks, as checkpoints write them; without that, `TaskRecovery.WellFormedExactlyWhenSeparate` says what is lost.
- `TaskResume.CompletedStepsSurvive`: holds for snapshots that land in the order they were taken (the exact condition on a single
  landing is `TaskResume.LandingKeepsExactly`) and without a pause between two steps (`TaskResume.MemoryMovesExactly`); the
  separate runner for ACP backends, which marks every step as completed at once, and a finished task that is evicted and
  adopted again in one process while its checkpoints are under way, are not modelled.
- `ReadGuard.RunsAreDisciplined`: about the native runner; a task run through an ACP backend has all its steps marked as completed
  without the guard.
- `ReadGuard.MutationsAreRead`: likewise not for tasks run through an ACP backend.
- `ReadGuard.ReadBetweenMutations`: likewise not for tasks run through an ACP backend.
- `ContextCompression.RewrittenExactly`: the size of the finished step's payload is a parameter, as are the settings read from the
  environment; metadata are a JSON object with its compression note apart, or another value.
- Recovery of sub-agent sessions, auto-drive markers, execution graphs and review bundles: copied along without a decision that matters
  to the properties.
- Wrap-around of the atomic counters after 2^64 increments.
- The other interventions, which start child tasks, resetting the probe cache during a flight, and listeners that call back into the diagnostics.
- JavaScript prototype keys, `undefined` inside JSON, negative zero, and arrays or objects as enumeration entries that share identity.
- `SchemaMeaning.ReportsAreExact`: says what a report lists, not in which order; the order is that of
  `SchemaValidation.ValidationState.ValidateObject`.
- `PolicyEngine.MatchingIsCovering`: about valid configurations, whose actions are one of six; that a star elsewhere in an action is
  compiled to a regular expression then never matters.
- Rendering of validation paths and messages as text: reports carry their parts instead.
- `AliasClone.ConventionIsUnambiguous`: about any registry that follows the convention; for the registered fields the conclusion is
  proved directly, by `AliasRegistry.RegistryIsUnambiguous`.
- Normalising the raw capabilities payload, invocation policies and the rest of the RPC types and tables.
- `EventChannels.FailuresAreErrorsSinceOpen`: says nothing about channels whose failure count a caller has overridden.
