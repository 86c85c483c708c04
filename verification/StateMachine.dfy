/**
  The step life cycle: the table of legal transitions, assignment of a step to a node, and
  recovery of a step whose worker went silent.

  `StepRow` is the value of one row of the step table. `Step` is the mutable object the
  Controller loads from such a row; its two mutators are proved against functions on rows.
 */
module StateMachine {
  import opened Wrappers

  type NodeId = string
  type StepId = string
  type JobId = string

  /** Instants in microseconds. */
  type Time = int

  datatype StepStatus = Pending | Queued | Assigned | Running | Completed | Failed | Skipped | Cancelled

  datatype Json =
    | Null
    | Bool(b: bool)
    | Number(n: real)
    | Text(s: string)
    | Array(items: seq<Json>)
    | Object(fields: JsonObject)

  type JsonObject = map<string, Json>

  /** The columns no modelled operation ever changes. */
  datatype Work = Work(
    jobId: JobId,
    toolName: string,
    avoidNodes: seq<NodeId>,
    estimatedRuntimeMinutes: real,
    maxRetries: int)

  datatype StepRow = StepRow(
    work: Work,
    status: StepStatus,
    assignedNode: Option<NodeId>,
    assignedAt: Option<Time>,
    claimedAt: Option<Time>,
    epoch: int,
    output: Option<JsonObject>,
    retryCount: int,
    startedAt: Option<Time>,
    completedAt: Option<Time>,
    error: Option<string>)
  {
    predicate Terminal() {
      status == Completed || status == Failed
    }

    /** Held by a node: assigned to it or running on it. */
    predicate Held() {
      status == Assigned || status == Running
    }
  }

  datatype TransitionError =
    | IllegalTransition(from: StepStatus, to: StepStatus)
    | StaleEpoch(expected: int, got: int)
    | CannotRecover(status: StepStatus)

  const TIMEOUT_MESSAGE := "worker_heartbeat_timeout"

  function LegalTargets(current: StepStatus): set<StepStatus> {
    match current
    case Pending => {Queued, Skipped, Cancelled}
    case Queued => {Assigned, Cancelled}
    case Assigned => {Running, Queued, Failed, Cancelled}
    case Running => {Completed, Failed, Cancelled}
    case Failed => {Queued}
    case Skipped => {}
    case Cancelled => {}
    case Completed => {}
  }

  function TransitionStep(current: StepStatus, target: StepStatus): Result<StepStatus, TransitionError> {
    if target in LegalTargets(current) then Ok(target) else Err(IllegalTransition(current, target))
  }

  function ValidateAssignmentEpoch(row: StepRow, epoch: int): Result<(), TransitionError> {
    if row.epoch == epoch then Ok(()) else Err(StaleEpoch(row.epoch, epoch))
  }

  /** The row a fresh job starts with. */
  function FreshRow(work: Work): StepRow {
    StepRow(work, Queued, None, None, None, 0, None, 0, None, None, None)
  }

  /** What an assignment makes of a queued row. */
  function AssignedRow(row: StepRow, node: NodeId, now: Time): StepRow {
    row.(status := Assigned, assignedNode := Some(node), assignedAt := Some(now), epoch := row.epoch + 1)
  }

  /** What a recovery makes of a held row: only a recovery of running work consumes a retry. */
  function RecoveredRow(row: StepRow): StepRow
    requires row.Held()
  {
    var retries := if row.status == Running then row.retryCount + 1 else row.retryCount;
    var spent := row.status == Running && retries > row.work.maxRetries;
    row.(status := if spent then Failed else Queued,
         assignedNode := None,
         assignedAt := None,
         error := Some(TIMEOUT_MESSAGE),
         retryCount := retries,
         epoch := row.epoch + 1)
  }

  class Step {
    const id: StepId
    const work: Work
    var status: StepStatus
    var assignedNode: Option<NodeId>
    var assignedAt: Option<Time>
    var claimedAt: Option<Time>
    var epoch: int
    var output: Option<JsonObject>
    var retryCount: int
    var startedAt: Option<Time>
    var completedAt: Option<Time>
    var error: Option<string>

    function Row(): StepRow
      reads this
    {
      StepRow(work, status, assignedNode, assignedAt, claimedAt, epoch, output, retryCount,
              startedAt, completedAt, error)
    }

    /** Loads a row. */
    constructor (id: StepId, row: StepRow)
      ensures this.id == id && Row() == row
    {
      this.id := id;
      work := row.work;
      status := row.status;
      assignedNode := row.assignedNode;
      assignedAt := row.assignedAt;
      claimedAt := row.claimedAt;
      epoch := row.epoch;
      output := row.output;
      retryCount := row.retryCount;
      startedAt := row.startedAt;
      completedAt := row.completedAt;
      error := row.error;
    }
  }

  /** Hands the step to a node under a new epoch; any step that is not queued is left alone. */
  method AssignStep(step: Step, node: NodeId, now: Time) returns (r: Result<(), TransitionError>)
    modifies step
    ensures r.Ok? <==> old(step.status) == Queued
    ensures step.Row() == if r.Ok? then AssignedRow(old(step.Row()), node, now) else old(step.Row())
  {
    var next := TransitionStep(step.status, Assigned);
    if next.Err? {
      return Err(next.error);
    }
    step.status := next.value;
    step.assignedNode := Some(node);
    step.assignedAt := Some(now);
    step.epoch := step.epoch + 1;
    return Ok(());
  }

  /**
    Takes the step away from its node. A running step passes through Failed and is queued again
    only while retries remain; nothing but a held step can be recovered.
   */
  method RecoverTimedOutStep(step: Step) returns (r: Result<(), TransitionError>)
    modifies step
    ensures r.Ok? <==> old(step.Row()).Held()
    ensures r.Ok? ==> step.Row() == RecoveredRow(old(step.Row()))
    ensures r.Err? ==> step.Row() == old(step.Row()) && r.error == CannotRecover(step.status)
  {
    if step.status == Assigned {
      var next := TransitionStep(step.status, Queued);
      step.status := next.value;
      step.assignedNode := None;
      step.assignedAt := None;
      step.error := Some(TIMEOUT_MESSAGE);
      step.epoch := step.epoch + 1;
      return Ok(());
    }
    if step.status == Running {
      step.error := Some(TIMEOUT_MESSAGE);
      step.assignedNode := None;
      step.assignedAt := None;
      step.retryCount := step.retryCount + 1;
      step.epoch := step.epoch + 1;
      var next := TransitionStep(step.status, Failed);
      step.status := next.value;
      if step.retryCount <= step.work.maxRetries {
        next := TransitionStep(step.status, Queued);
        step.status := next.value;
      }
      return Ok(());
    }
    return Err(CannotRecover(step.status));
  }
}
