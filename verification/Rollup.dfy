/**
  How jobs follow their steps. After a start, a completion or a failure has been committed, the handler
  rolls the change up into the job: it loads the job row, for a completion it tallies the job's steps, and
  it stores what changed. Loading, tallying and storing are separate instants, so roll-ups can overlap
  with each other and with anything that happens to the steps.
 */
module Rollup {
  import opened Wrappers
  import opened StateMachine
  import opened Lifecycle

  datatype JobStatus =
    | JobCreated | JobPlanning | JobWaitingApproval | JobQueued | JobRunning
    | JobCompleted | JobFailed | JobCancelled | JobRetrying

  /** Progress is in hundredths of a percent: 10000 is all of the steps. */
  datatype JobRow = JobRow(status: JobStatus, progress: nat, error: Option<string>, completedAt: Option<Time>)

  const FRESH_JOB := JobRow(JobQueued, 0, None, None)
  const START_FLOOR := 100
  const NO_STEPS_MESSAGE := "job has no steps"

  // ---------------------------------------------------------------- what a roll-up computes

  datatype Task = MarkRunning | MarkAfterCompletion | MarkFailed(message: string)

  function TaskOf(op: Op): Option<Task> {
    match op
    case Start => Some(MarkRunning)
    case Complete(_) => Some(MarkAfterCompletion)
    case Fail(reason) => Some(MarkFailed(reason))
    case _ => None
  }

  type Rows = map<StepId, StepRow>

  function StepsOf(rows: Rows, job: JobId): set<StepId> {
    set id | id in rows && rows[id].work.jobId == job
  }

  function DoneOf(rows: Rows, job: JobId): set<StepId> {
    set id | id in rows && rows[id].work.jobId == job && rows[id].status == Completed
  }

  predicate AllDone(rows: Rows, job: JobId) {
    StepsOf(rows, job) == DoneOf(rows, job)
  }

  /** Rounds a / n to the nearest integer, ties to the even one. */
  function RoundHalfEven(a: nat, n: nat): nat
    requires n > 0
  {
    var q, r := a / n, a % n;
    if 2 * r < n || (2 * r == n && q % 2 == 0) then q else q + 1
  }

  function Percent(done: nat, total: nat): nat
    requires total > 0
  {
    RoundHalfEven(done * 10000, total)
  }

  function Started(job: JobRow): JobRow {
    if job.status == JobCreated || job.status == JobQueued then
      job.(status := JobRunning, progress := if job.progress < START_FLOOR then START_FLOOR else job.progress)
    else job
  }

  function Tallied(job: JobRow, done: nat, total: nat, now: Time): JobRow {
    if total == 0 then
      job.(status := JobFailed, error := Some(NO_STEPS_MESSAGE), completedAt := Some(now))
    else if done == total then
      job.(status := JobCompleted, progress := Percent(done, total), completedAt := Some(now))
    else
      job.(status := JobRunning, progress := Percent(done, total))
  }

  function Failing(job: JobRow, message: string, now: Time): JobRow {
    job.(status := JobFailed, error := Some(message), completedAt := Some(now))
  }

  /** Only the columns a session changed are written; the others keep what is in the table by then. */
  function Merge(seen: JobRow, next: JobRow, current: JobRow): JobRow {
    JobRow(
      if next.status != seen.status then next.status else current.status,
      if next.progress != seen.progress then next.progress else current.progress,
      if next.error != seen.error then next.error else current.error,
      if next.completedAt != seen.completedAt then next.completedAt else current.completedAt)
  }

  /** A store alone leaves what was computed, and one that changes nothing leaves everything. */
  lemma StoreAlone(seen: JobRow, next: JobRow, current: JobRow)
    ensures Merge(seen, next, seen) == next
    ensures Merge(seen, seen, current) == current
  {
  }

  /** Two stores that change no column in common can come in either order. */
  lemma StoresCommute(s1: JobRow, n1: JobRow, s2: JobRow, n2: JobRow, current: JobRow)
    requires n1.status == s1.status || n2.status == s2.status
    requires n1.progress == s1.progress || n2.progress == s2.progress
    requires n1.error == s1.error || n2.error == s2.error
    requires n1.completedAt == s1.completedAt || n2.completedAt == s2.completedAt
    ensures Merge(s2, n2, Merge(s1, n1, current)) == Merge(s1, n1, Merge(s2, n2, current))
  {
  }

  /** A completion rolled up into a job without steps, which the program provides for, fails it. */
  lemma NoStepsFailTheJob(job: JobRow, now: Time)
    ensures Tallied(job, 0, 0, now) == JobRow(JobFailed, job.progress, Some("job has no steps"), Some(now))
  {
  }

  // ---------------------------------------------------------------- overlapping roll-ups

  datatype Due =
    | Committed(job: JobId, task: Task)
    | Loaded(job: JobId, seen: JobRow)
    | Computed(job: JobId, seen: JobRow, next: JobRow)

  datatype World = World(rows: Rows, jobs: map<JobId, JobRow>, due: map<Ticket, Due>)

  const EMPTY := World(map[], map[], map[])

  datatype WorldAction =
    | CreateJob(job: JobId, steps: map<StepId, Work>)
    | OnStep(id: StepId, op: AtomicOp)
    | LoadJob(ticket: Ticket, now: Time)
    | TallySteps(ticket: Ticket, now: Time)
    | StoreJob(ticket: Ticket)

  /** A job is created together with its steps, under ids that are not in use. */
  predicate CanCreate(w: World, job: JobId, steps: map<StepId, Work>) {
    && job !in w.jobs && steps != map[]
    && forall id | id in steps :: id !in w.rows && steps[id].jobId == job
  }

  function CreateNext(w: World, job: JobId, steps: map<StepId, Work>): World {
    if CanCreate(w, job, steps) then
      w.(jobs := w.jobs[job := FRESH_JOB], rows := w.rows + map id | id in steps :: FreshRow(steps[id]))
    else w
  }

  /** A step operation; if it is a committed start, completion or failure, its roll-up is now due. */
  function StepNext(w: World, id: StepId, op: AtomicOp): World {
    if id !in w.rows || (op.Handle? && op.ticket in w.due) then w
    else
      var row := w.rows[id];
      var moved := w.(rows := w.rows[id := RowNext(row, op)]);
      if op.Handle? && Takes(row, op) && TaskOf(op.req.op).Some? then
        moved.(due := w.due[op.ticket := Committed(row.work.jobId, TaskOf(op.req.op).value)])
      else moved
  }

  function LoadNext(w: World, t: Ticket, now: Time): World {
    if t in w.due && w.due[t].Committed? then
      var Committed(job, task) := w.due[t];
      if job !in w.jobs then w.(due := w.due - {t})
      else
        var seen := w.jobs[job];
        match task
        case MarkRunning =>
          if Started(seen) == seen then w.(due := w.due - {t})
          else w.(due := w.due[t := Computed(job, seen, Started(seen))])
        case MarkAfterCompletion => w.(due := w.due[t := Loaded(job, seen)])
        case MarkFailed(message) => w.(due := w.due[t := Computed(job, seen, Failing(seen, message, now))])
    else w
  }

  function TallyNext(w: World, t: Ticket, now: Time): World {
    if t in w.due && w.due[t].Loaded? then
      var Loaded(job, seen) := w.due[t];
      var next := Tallied(seen, |DoneOf(w.rows, job)|, |StepsOf(w.rows, job)|, now);
      w.(due := w.due[t := Computed(job, seen, next)])
    else w
  }

  function StoreNext(w: World, t: Ticket): World {
    if t in w.due && w.due[t].Computed? && w.due[t].job in w.jobs then
      var Computed(job, seen, next) := w.due[t];
      w.(jobs := w.jobs[job := Merge(seen, next, w.jobs[job])], due := w.due - {t})
    else w
  }

  function WorldNext(w: World, a: WorldAction): World {
    match a
    case CreateJob(job, steps) => CreateNext(w, job, steps)
    case OnStep(id, op) => StepNext(w, id, op)
    case LoadJob(t, now) => LoadNext(w, t, now)
    case TallySteps(t, now) => TallyNext(w, t, now)
    case StoreJob(t) => StoreNext(w, t)
  }

  function WorldRun(w: World, actions: seq<WorldAction>): World {
    if actions == [] then w else WorldNext(WorldRun(w, actions[..|actions| - 1]), actions[|actions| - 1])
  }

  // ---------------------------------------------------------------- completed jobs, in every interleaving

  /** No job row, and no job row on its way to the table, says completed before all of the steps are. */
  predicate Truthful(w: World) {
    && (forall id | id in w.rows :: w.rows[id].work.jobId in w.jobs)
    && (forall job | job in w.jobs && w.jobs[job].status == JobCompleted :: AllDone(w.rows, job))
    && (forall t | t in w.due :: w.due[t].job in w.jobs)
    && (forall t | t in w.due && !w.due[t].Committed? && w.due[t].seen.status == JobCompleted ::
          AllDone(w.rows, w.due[t].job))
    && (forall t | t in w.due && w.due[t].Computed? && w.due[t].next.status == JobCompleted ::
          AllDone(w.rows, w.due[t].job))
  }

  lemma RowKeepsCompleted(row: StepRow, op: AtomicOp)
    ensures RowNext(row, op).work == row.work
    ensures row.status == Completed ==> RowNext(row, op) == row
    ensures row.status != Completed && RowNext(row, op).status == Completed ==>
              Takes(row, op) && op.Handle? && op.req.op.Complete?
  {
  }

  lemma AllDoneIsStable(rows: Rows, id: StepId, op: AtomicOp, job: JobId)
    requires id in rows && AllDone(rows, job)
    ensures AllDone(rows[id := RowNext(rows[id], op)], job)
  {
    RowKeepsCompleted(rows[id], op);
    var rows' := rows[id := RowNext(rows[id], op)];
    forall x | x in StepsOf(rows', job) ensures x in DoneOf(rows', job) {
      assert x in StepsOf(rows, job);
    }
  }

  lemma FullTally(rows: Rows, job: JobId)
    ensures DoneOf(rows, job) <= StepsOf(rows, job)
    ensures |DoneOf(rows, job)| <= |StepsOf(rows, job)|
    ensures |DoneOf(rows, job)| == |StepsOf(rows, job)| <==> AllDone(rows, job)
  {
    var done, all := DoneOf(rows, job), StepsOf(rows, job);
    assert all == done + (all - done);
  }

  lemma CreateKeepsTallies(w: World, job: JobId, steps: map<StepId, Work>)
    requires CanCreate(w, job, steps) && forall id | id in w.rows :: w.rows[id].work.jobId in w.jobs
    ensures var rows := CreateNext(w, job, steps).rows;
            && (forall j | j in w.jobs :: StepsOf(rows, j) == StepsOf(w.rows, j) && DoneOf(rows, j) == DoneOf(w.rows, j))
            && StepsOf(rows, job) == steps.Keys && DoneOf(rows, job) == {}
  {
  }

  lemma TruthfulCreate(w: World, job: JobId, steps: map<StepId, Work>)
    requires Truthful(w)
    ensures Truthful(CreateNext(w, job, steps))
  {
    hide StepsOf, DoneOf;
    if CanCreate(w, job, steps) {
      CreateKeepsTallies(w, job, steps);
      var w' := CreateNext(w, job, steps);
      forall id | id in w'.rows ensures w'.rows[id].work.jobId in w'.jobs {
        if id in steps {
          assert w'.rows[id] == FreshRow(steps[id]);
        }
      }
    }
  }

  lemma TruthfulStep(w: World, id: StepId, op: AtomicOp)
    requires Truthful(w)
    ensures Truthful(StepNext(w, id, op))
  {
    hide RowNext, Takes, TaskOf, AllDone;
    if id in w.rows {
      RowKeepsCompleted(w.rows[id], op);
      forall job | AllDone(w.rows, job) ensures AllDone(w.rows[id := RowNext(w.rows[id], op)], job) {
        AllDoneIsStable(w.rows, id, op, job);
      }
    }
  }

  lemma TruthfulLoad(w: World, t: Ticket, now: Time)
    requires Truthful(w)
    ensures Truthful(LoadNext(w, t, now))
  {
    hide AllDone;
  }

  lemma TruthfulTally(w: World, t: Ticket, now: Time)
    requires Truthful(w)
    ensures Truthful(TallyNext(w, t, now))
  {
    hide StepsOf, DoneOf, AllDone, Percent;
    if t in w.due {
      FullTally(w.rows, w.due[t].job);
    }
  }

  lemma TruthfulStore(w: World, t: Ticket)
    requires Truthful(w)
    ensures Truthful(StoreNext(w, t))
  {
    hide AllDone;
  }

  lemma TruthfulNext(w: World, a: WorldAction)
    requires Truthful(w)
    ensures Truthful(WorldNext(w, a))
  {
    hide Truthful, CreateNext, StepNext, LoadNext, TallyNext, StoreNext;
    match a
    case CreateJob(job, steps) => TruthfulCreate(w, job, steps);
    case OnStep(id, op) => TruthfulStep(w, id, op);
    case LoadJob(t, now) => TruthfulLoad(w, t, now);
    case TallySteps(t, now) => TruthfulTally(w, t, now);
    case StoreJob(t) => TruthfulStore(w, t);
  }

  /** In every interleaving of steps and roll-ups, a job that says completed has only completed steps. */
  lemma {:induction false} CompletedJobsAreDone(actions: seq<WorldAction>)
    ensures Truthful(WorldRun(EMPTY, actions))
    decreases |actions|
  {
    if actions != [] {
      CompletedJobsAreDone(actions[..|actions| - 1]);
      TruthfulNext(WorldRun(EMPTY, actions[..|actions| - 1]), actions[|actions| - 1]);
    }
  }
}
