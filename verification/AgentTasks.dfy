/** The agent task records that the store, the durability layer and the runner share. */
module AgentTasks {
  import opened Options

  /** The status texts the modelled code tells apart; any other text is Unknown. */
  datatype Status =
    | Queued | Running | Paused | AwaitingApproval | Completed | Failed | Cancelled | Interrupted
    | Unknown(text: string)

  /**
  What context compression has noted in the metadata of a step: the record it leaves on a step it has compressed, or
  any other note, with whether that says `compressed`.
  */
  datatype Note =
    | NoNote
    | OtherNote(compressed: bool, text: string)
    | CompressedNote(at: nat, originalBytes: nat, compressedBytes: nat, summaryChars: nat, summaryMaxChars: nat)

  /** Metadata is a JSON object, whose keys but for the note are kept as text, or some other JSON value. */
  datatype Metadata = Object(rest: string, note: Note) | OtherValue(text: string)

  const NO_METADATA := Object("{}", NoNote)

  datatype StepSummary = StepSummary(
    status: Status,
    message: string,
    runId: Option<string>,
    output: Option<string>,
    metadata: Metadata,
    startedAt: Option<nat>,
    updatedAt: nat,
    completedAt: Option<nat>,
    errorCode: Option<string>,
    errorMessage: Option<string>,
    approvalId: Option<string>)

  /** `pendingApproval` is the id inside the pending approval record, `pendingApprovalId` the separate field. */
  datatype Task = Task(
    taskId: string,
    workspaceId: string,
    status: Status,
    steps: seq<StepSummary>,
    currentStep: Option<nat>,
    errorCode: Option<string>,
    errorMessage: Option<string>,
    completedAt: Option<nat>,
    updatedAt: nat,
    pendingApprovalId: Option<string>,
    pendingApproval: Option<string>,
    interruptRequested: bool,
    checkpointId: Option<string>,
    recovered: bool)

  predicate IsTerminal(status: Status) {
    status in {Completed, Failed, Cancelled, Interrupted}
  }

  /** The task waits for the approval with this id. */
  predicate Awaits(t: Task, approval: string) {
    t.status == AwaitingApproval && t.pendingApproval == Some(approval)
  }

  /** Tasks by id, oldest first, and the task that waits for each approval. */
  datatype Store = Store(tasks: map<string, Task>, order: seq<string>, approvalIndex: map<string, string>)

  const EMPTY_STORE := Store(map[], [], map[])

  ghost predicate OrderIsExact(s: Store) {
    && (forall i, j | 0 <= i < j < |s.order| :: s.order[i] != s.order[j])
    && forall id :: id in s.order <==> id in s.tasks
  }

  /** The index holds exactly the waiting tasks, each under the approval it waits for. */
  ghost predicate IndexIsExact(s: Store) {
    && (forall a | a in s.approvalIndex :: s.approvalIndex[a] in s.tasks && Awaits(s.tasks[s.approvalIndex[a]], a))
    && forall id, a | id in s.tasks && Awaits(s.tasks[id], a) :: a in s.approvalIndex && s.approvalIndex[a] == id
  }

  ghost predicate WellFormed(s: Store) {
    OrderIsExact(s) && IndexIsExact(s)
  }
}
