/**
  Jobs under handlers that run one at a time: each lifecycle handler commits its step change and finishes
  its roll-up before the next one begins. Then a job's status and progress say exactly what its steps do.
 */
module JobProgress {
  import opened Wrappers
  import opened StateMachine
  import opened Lifecycle
  import opened Rollup

  datatype Whole =
    | NewJob(job: JobId, steps: map<StepId, Work>)
    | Do(id: StepId, op: AtomicOp, now: Time)

  /** The four instants of a handler with nothing in between. */
  function WholeNext(w: World, a: Whole): World {
    match a
    case NewJob(job, steps) => CreateNext(w, job, steps)
    case Do(id, op, now) =>
      var moved := StepNext(w, id, op);
      if op.Handle? then StoreNext(TallyNext(LoadNext(moved, op.ticket, now), op.ticket, now), op.ticket) else moved
  }

  function WholeRun(actions: seq<Whole>): World {
    if actions == [] then EMPTY else WholeNext(WholeRun(actions[..|actions| - 1]), actions[|actions| - 1])
  }

  function Rolled(task: Task, job: JobRow, done: nat, total: nat, now: Time): JobRow {
    match task
    case MarkRunning => Started(job)
    case MarkAfterCompletion => Tallied(job, done, total, now)
    case MarkFailed(message) => Failing(job, message, now)
  }

  predicate Rolls(row: StepRow, op: AtomicOp) {
    op.Handle? && Takes(row, op) && TaskOf(op.req.op).Some?
  }

  /** The job table after a roll-up that nothing interrupts. */
  function RolledJobs(w: World, job: JobId, task: Task, now: Time): map<JobId, JobRow> {
    if job in w.jobs
    then w.jobs[job := Rolled(task, w.jobs[job], |DoneOf(w.rows, job)|, |StepsOf(w.rows, job)|, now)]
    else w.jobs
  }

  lemma RollUpAlone(w: World, t: Ticket, job: JobId, task: Task, now: Time)
    requires w.due == map[t := Committed(job, task)]
    ensures StoreNext(TallyNext(LoadNext(w, t, now), t, now), t) ==
            w.(due := map[], jobs := RolledJobs(w, job, task, now))
  {
    hide DoneOf, StepsOf, Percent;
    var loaded := LoadNext(w, t, now);
    var tallied := TallyNext(loaded, t, now);
    if job in w.jobs {
      assert w.jobs[job := w.jobs[job]] == w.jobs;
    }
    assert StoreNext(tallied, t).due == map[];
  }

  lemma WholeEffect(w: World, id: StepId, op: AtomicOp, now: Time)
    requires w.due == map[] && id in w.rows
    ensures var row := w.rows[id];
            var moved := w.(rows := w.rows[id := RowNext(row, op)]);
            WholeNext(w, Do(id, op, now)) ==
            if Rolls(row, op)
            then moved.(jobs := RolledJobs(moved, row.work.jobId, TaskOf(op.req.op).value, now))
            else moved
  {
    hide RowNext, Takes, RolledJobs, LoadNext, TallyNext, StoreNext;
    var row, moved := w.rows[id], StepNext(w, id, op);
    if Rolls(row, op) {
      RollUpAlone(moved, op.ticket, row.work.jobId, TaskOf(op.req.op).value, now);
      RolledJobsIgnoreDue(moved, row.work.jobId, TaskOf(op.req.op).value, now);
    } else if op.Handle? {
      NothingDue(moved, op.ticket, now);
    }
  }

  lemma RolledJobsIgnoreDue(w: World, job: JobId, task: Task, now: Time)
    ensures RolledJobs(w, job, task, now) == RolledJobs(w.(due := map[]), job, task, now)
  {
  }

  lemma NothingDue(w: World, t: Ticket, now: Time)
    requires w.due == map[]
    ensures StoreNext(TallyNext(LoadNext(w, t, now), t, now), t) == w
  {
  }

  // ---------------------------------------------------------------- rounding

  lemma MulLeq(n: nat, x: int, y: int)
    requires x <= y
    ensures n * x <= n * y
  {
  }

  lemma QuotientsAreMonotone(qa: int, ra: int, qb: int, rb: int, n: nat)
    requires 0 <= ra < n && 0 <= rb < n && n * qa + ra <= n * qb + rb
    ensures qa < qb || (qa == qb && ra <= rb)
  {
    if qb < qa {
      MulLeq(n, qb + 1, qa);
    }
  }

  lemma RoundingIsMonotone(a: nat, b: nat, n: nat)
    requires n > 0 && a <= b
    ensures RoundHalfEven(a, n) <= RoundHalfEven(b, n)
  {
    QuotientsAreMonotone(a / n, a % n, b / n, b % n, n);
  }

  /** The start floor of one percent is above the first completed step exactly when the job has more than 100 steps. */
  lemma FirstStepAgainstFloor(total: nat)
    requires total > 0
    ensures Percent(1, total) < START_FLOOR <==> total > 100
  {
    var q, r := 10000 / total, 10000 % total;
    assert 10000 == total * q + r;
    if total > 100 {
      assert q < 100;
      assert q == 99 ==> total * q >= 101 * 99 && r <= 1;
    } else {
      assert q >= 100;
    }
  }

  // ---------------------------------------------------------------- one handler at a time

  lemma TallyAfter(rows: Rows, id: StepId, op: AtomicOp, job: JobId)
    requires id in rows
    ensures var rows' := rows[id := RowNext(rows[id], op)];
            var completes := rows[id].status != Completed && rows'[id].status == Completed;
            && StepsOf(rows', job) == StepsOf(rows, job)
            && DoneOf(rows', job) == DoneOf(rows, job) + (if completes && rows[id].work.jobId == job then {id} else {})
            && (completes ==> id !in DoneOf(rows, job))
  {
    RowKeepsCompleted(rows[id], op);
  }

  /** What a job row says when `done` of its `total` steps are completed. */
  predicate Reports(j: JobRow, done: nat, total: nat)
    requires total > 0
  {
    && (j.status == JobCompleted <==> done == total)
    && j.progress in {0, START_FLOOR, Percent(done, total)}
  }

  lemma RolledReports(task: Task, j: JobRow, before: nat, done: nat, total: nat, now: Time)
    requires before <= done <= total && before < total && Reports(j, before, total)
    requires done == if task.MarkAfterCompletion? then before + 1 else before
    ensures Reports(Rolled(task, j, done, total, now), done, total)
  {
  }

  /** A job's status and progress tell what its steps do. */
  predicate Faithful(w: World, job: JobId)
    requires job in w.jobs
  {
    var done, total := |DoneOf(w.rows, job)|, |StepsOf(w.rows, job)|;
    total > 0 && Reports(w.jobs[job], done, total)
  }

  predicate AllFaithful(w: World) {
    w.due == map[] && Truthful(w) && forall job | job in w.jobs :: Faithful(w, job)
  }

  lemma RollingSteps(rows: Rows, id: StepId, op: AtomicOp, job: JobId)
    requires id in rows
    ensures var row, rows' := rows[id], rows[id := RowNext(rows[id], op)];
            var before, done := |DoneOf(rows, job)|, |DoneOf(rows', job)|;
            && StepsOf(rows', job) == StepsOf(rows, job)
            && (if Rolls(row, op) && row.work.jobId == job
                then before < |StepsOf(rows, job)| && done == if op.req.op.Complete? then before + 1 else before
                else done == before)
  {
    hide RowNext;
    var rows' := rows[id := RowNext(rows[id], op)];
    RowKeepsCompleted(rows[id], op);
    if Rolls(rows[id], op) {
      RollsFrom(rows[id], op);
    }
    TallyAfter(rows, id, op, job);
    FullTally(rows, job);
    if Rolls(rows[id], op) && rows[id].work.jobId == job {
      assert id in StepsOf(rows, job) && id !in DoneOf(rows, job);
    }
  }

  lemma RollsFrom(row: StepRow, op: AtomicOp)
    requires Rolls(row, op)
    ensures row.status != Completed
    ensures RowNext(row, op).status == Completed <==> op.req.op.Complete?
  {
  }

  lemma FaithfulDo(w: World, id: StepId, op: AtomicOp, now: Time, job: JobId)
    requires AllFaithful(w) && id in w.rows && job in w.jobs
    ensures var w' := WholeNext(w, Do(id, op, now)); job in w'.jobs && Faithful(w', job)
  {
    hide StepsOf, DoneOf, Reports, Rolled, Takes, RowNext, WholeNext;
    WholeEffect(w, id, op, now);
    RollingSteps(w.rows, id, op, job);
    FullTally(w.rows[id := RowNext(w.rows[id], op)], job);
    if Rolls(w.rows[id], op) && w.rows[id].work.jobId == job {
      var done, total := |DoneOf(w.rows[id := RowNext(w.rows[id], op)], job)|, |StepsOf(w.rows, job)|;
      RolledReports(TaskOf(op.req.op).value, w.jobs[job], |DoneOf(w.rows, job)|, done, total, now);
    }
  }

  lemma FaithfulNext(w: World, a: Whole)
    requires AllFaithful(w)
    ensures AllFaithful(WholeNext(w, a))
  {
    hide StepsOf, DoneOf, Reports, Rolled, Takes, RowNext, Faithful, WholeNext, StepNext, LoadNext, TallyNext, StoreNext;
    match a
    case NewJob(job, steps) =>
      NewJobFaithful(w, job, steps);
    case Do(id, op, now) =>
      if id in w.rows {
        WholeEffect(w, id, op, now);
        WholeIsTruthful(w, id, op, now);
        forall job | job in w.jobs ensures job in WholeNext(w, a).jobs && Faithful(WholeNext(w, a), job) {
          FaithfulDo(w, id, op, now, job);
        }
      } else {
        UnknownStep(w, id, op, now);
      }
  }

  lemma UnknownStep(w: World, id: StepId, op: AtomicOp, now: Time)
    requires w.due == map[] && id !in w.rows
    ensures WholeNext(w, Do(id, op, now)) == w
  {
  }

  lemma WholeIsTruthful(w: World, id: StepId, op: AtomicOp, now: Time)
    requires Truthful(w)
    ensures Truthful(WholeNext(w, Do(id, op, now)))
  {
    hide Truthful, StepNext, LoadNext, TallyNext, StoreNext;
    var moved := StepNext(w, id, op);
    TruthfulStep(w, id, op);
    if op.Handle? {
      TruthfulLoad(moved, op.ticket, now);
      TruthfulTally(LoadNext(moved, op.ticket, now), op.ticket, now);
      TruthfulStore(TallyNext(LoadNext(moved, op.ticket, now), op.ticket, now), op.ticket);
    }
  }

  lemma NewJobFaithful(w: World, job: JobId, steps: map<StepId, Work>)
    requires AllFaithful(w)
    ensures AllFaithful(WholeNext(w, NewJob(job, steps)))
  {
    hide StepsOf, DoneOf, Truthful, Percent;
    assert Truthful(CreateNext(w, job, steps)) by {
      TruthfulCreate(w, job, steps);
    }
    if CanCreate(w, job, steps) {
      RowsHaveJobs(w);
      CreateKeepsTallies(w, job, steps);
      FullTally(CreateNext(w, job, steps).rows, job);
      var id :| id in steps;
      assert id in steps.Keys;
      forall j | j in w.jobs ensures Faithful(CreateNext(w, job, steps), j) {
        assert Faithful(w, j);
        FullTally(w.rows, j);
      }
    }
  }

  lemma RowsHaveJobs(w: World)
    requires Truthful(w)
    ensures forall id | id in w.rows :: w.rows[id].work.jobId in w.jobs
  {
  }

  /**
    With handlers run one at a time, in every reachable state a job is completed exactly when all its steps
    are, and its progress is zero, the start floor, or the share of completed steps.
   */
  lemma {:induction false} JobsFollowTheirSteps(actions: seq<Whole>)
    ensures AllFaithful(WholeRun(actions))
    decreases |actions|
  {
    if actions != [] {
      JobsFollowTheirSteps(actions[..|actions| - 1]);
      FaithfulNext(WholeRun(actions[..|actions| - 1]), actions[|actions| - 1]);
    }
  }

  /** A completed job's row never changes again. */
  lemma CompletedJobStays(w: World, a: Whole, job: JobId)
    requires AllFaithful(w) && job in w.jobs && w.jobs[job].status == JobCompleted
    ensures job in WholeNext(w, a).jobs && WholeNext(w, a).jobs[job] == w.jobs[job]
  {
    hide WholeNext, StepNext, LoadNext, TallyNext, StoreNext;
    match a
    case NewJob(_, _) => NewJobKeepsJobs(w, a, job);
    case Do(id, op, now) =>
      if id in w.rows {
        WholeEffect(w, id, op, now);
        RollingSteps(w.rows, id, op, job);
        FullTally(w.rows, job);
      } else {
        UnknownStep(w, id, op, now);
      }
  }

  lemma NewJobKeepsJobs(w: World, a: Whole, job: JobId)
    requires a.NewJob? && job in w.jobs
    ensures job in WholeNext(w, a).jobs && WholeNext(w, a).jobs[job] == w.jobs[job]
  {
  }

  /** With at most 100 steps in the job, its progress never goes down. */
  lemma ProgressNeverDrops(w: World, a: Whole, job: JobId)
    requires AllFaithful(w) && job in w.jobs && |StepsOf(w.rows, job)| <= 100
    ensures job in WholeNext(w, a).jobs && WholeNext(w, a).jobs[job].progress >= w.jobs[job].progress
  {
    hide WholeNext, StepNext, LoadNext, TallyNext, StoreNext, Takes, RowNext, StepsOf, DoneOf, RoundHalfEven;
    match a
    case NewJob(_, _) => NewJobKeepsJobs(w, a, job);
    case Do(id, op, now) =>
      if id in w.rows {
        WholeEffect(w, id, op, now);
        RollingSteps(w.rows, id, op, job);
        var done, total := |DoneOf(w.rows, job)|, |StepsOf(w.rows, job)|;
        FirstStepAgainstFloor(total);
        RoundingIsMonotone(1 * 10000, (done + 1) * 10000, total);
        RoundingIsMonotone(done * 10000, (done + 1) * 10000, total);
      } else {
        UnknownStep(w, id, op, now);
      }
  }

  /** A failed job is not failed for good: it leaves that status exactly when another of its steps completes. */
  lemma FailedUntilNextCompletion(w: World, id: StepId, op: AtomicOp, now: Time, job: JobId)
    requires AllFaithful(w) && id in w.rows && job in w.jobs && w.jobs[job].status == JobFailed
    ensures var w' := WholeNext(w, Do(id, op, now));
            && job in w'.jobs
            && (w'.jobs[job].status != JobFailed
                <==> Rolls(w.rows[id], op) && op.req.op.Complete? && w.rows[id].work.jobId == job)
  {
    hide WholeNext, StepNext, LoadNext, TallyNext, StoreNext, Takes, RowNext, StepsOf, DoneOf, Percent;
    WholeEffect(w, id, op, now);
    RollingSteps(w.rows, id, op, job);
  }

  // ---------------------------------------------------------------- concrete runs

  /** A request under the first assignment's epoch. */
  function Call(ticket: Ticket, node: NodeId, op: Op, now: Time): AtomicOp {
    Handle(ticket, Request(node, 1, op), now)
  }

  /** A job is created and one of its steps is assigned and started. */
  function StartRun(job: JobId, steps: map<StepId, Work>, id: StepId, node: NodeId, now: Time): seq<Whole> {
    [NewJob(job, steps), Do(id, Assign(node, now), now), Do(id, Call(0, node, Start, now), now)]
  }

  function RunningRow(work: Work, node: NodeId, now: Time): StepRow {
    AssignedRow(FreshRow(work), node, now).(status := Running, startedAt := Some(now))
  }

  function FreshRows(steps: map<StepId, Work>): Rows {
    map id | id in steps :: FreshRow(steps[id])
  }

  lemma RunThen(actions: seq<Whole>, a: Whole)
    ensures WholeRun([]) == EMPTY
    ensures WholeRun(actions + [a]) == WholeNext(WholeRun(actions), a)
  {
    assert (actions + [a])[..|actions|] == actions;
  }

  lemma HandOver(work: Work, node: NodeId, now: Time)
    ensures RowNext(FreshRow(work), Assign(node, now)) == AssignedRow(FreshRow(work), node, now)
    ensures var held, start := AssignedRow(FreshRow(work), node, now), Call(0, node, Start, now);
            Rolls(held, start) && RowNext(held, start) == RunningRow(work, node, now)
  {
  }

  lemma RunningRolls(work: Work, t: Ticket, node: NodeId, op: Op, now: Time)
    requires op.Complete? || op.Fail?
    ensures Rolls(RunningRow(work, node, now), Call(t, node, op, now))
  {
  }

  lemma CreatedJob(job: JobId, steps: map<StepId, Work>)
    requires steps != map[] && forall x | x in steps :: steps[x].jobId == job
    ensures WholeNext(EMPTY, NewJob(job, steps)) == World(FreshRows(steps), map[job := FRESH_JOB], map[])
  {
    assert map[] + FreshRows(steps) == FreshRows(steps);
  }

  /** What an assignment and a start of one step do to a table in which the step is fresh. */
  lemma StepStarts(w: World, job: JobId, id: StepId, work: Work, node: NodeId, now: Time)
    requires w.due == map[] && id in w.rows && w.rows[id] == FreshRow(work) && work.jobId == job && job in w.jobs
    ensures var started := WholeNext(WholeNext(w, Do(id, Assign(node, now), now)), Do(id, Call(0, node, Start, now), now));
            started == World(w.rows[id := RunningRow(work, node, now)], w.jobs[job := Started(w.jobs[job])], map[])
  {
    hide WholeNext, RowNext, Takes, StepsOf, DoneOf;
    HandOver(work, node, now);
    WholeEffect(w, id, Assign(node, now), now);
    var held := WholeNext(w, Do(id, Assign(node, now), now));
    WholeEffect(held, id, Call(0, node, Start, now), now);
  }

  lemma JobStarts(job: JobId, steps: map<StepId, Work>, id: StepId, node: NodeId, now: Time)
    requires id in steps && forall x | x in steps :: steps[x].jobId == job
    ensures WholeRun(StartRun(job, steps, id, node, now)) ==
            World(FreshRows(steps)[id := RunningRow(steps[id], node, now)],
                  map[job := JobRow(JobRunning, START_FLOOR, None, None)], map[])
  {
    hide WholeNext, WholeRun;
    var run := StartRun(job, steps, id, node, now);
    RunThen([], run[0]);
    RunThen([run[0]], run[1]);
    RunThen([run[0], run[1]], run[2]);
    assert [] + [run[0]] == [run[0]] && [run[0]] + [run[1]] == [run[0], run[1]] && run == [run[0], run[1]] + [run[2]];
    CreatedJob(job, steps);
    StepStarts(WholeNext(EMPTY, run[0]), job, id, steps[id], node, now);
  }

  /**
    The bound is exact: for a job of any steps, the completion of the first one started lowers the job's progress
    if and only if it has more than 100 steps.
   */
  lemma FirstCompletionDrops(job: JobId, steps: map<StepId, Work>, id: StepId, node: NodeId, result: JsonObject, now: Time)
    requires id in steps && forall x | x in steps :: steps[x].jobId == job
    ensures var run := StartRun(job, steps, id, node, now);
            var before, after := WholeRun(run), WholeRun(run + [Do(id, Call(0, node, Complete(result), now), now)]);
            && job in before.jobs && job in after.jobs
            && (after.jobs[job].progress < before.jobs[job].progress <==> |steps| > 100)
  {
    hide WholeNext, WholeRun, Rolls, RowNext, RoundHalfEven;
    var run, complete := StartRun(job, steps, id, node, now), Call(0, node, Complete(result), now);
    var w := WholeRun(run);
    JobStarts(job, steps, id, node, now);
    RunThen(run, Do(id, complete, now));
    RunningRolls(steps[id], 0, node, Complete(result), now);
    WholeEffect(w, id, complete, now);
    RollingSteps(w.rows, id, complete, job);
    assert StepsOf(w.rows, job) == steps.Keys && DoneOf(w.rows, job) == {};
    FirstStepAgainstFloor(|steps|);
  }

  /** Two steps of a job start, and the first one fails. */
  function FailRun(job: JobId, steps: map<StepId, Work>, a: StepId, b: StepId, node: NodeId, reason: string, now: Time)
    : seq<Whole>
  {
    StartRun(job, steps, a, node, now) + [Do(b, Assign(node, now), now)] + [Do(b, Call(0, node, Start, now), now)] +
    [Do(a, Call(0, node, Fail(reason), now), now)]
  }

  lemma JobFails(job: JobId, steps: map<StepId, Work>, a: StepId, b: StepId, node: NodeId, reason: string, now: Time)
    requires a in steps && b in steps && a != b && forall x | x in steps :: steps[x].jobId == job
    ensures var fail := Call(0, node, Fail(reason), now);
            WholeRun(FailRun(job, steps, a, b, node, reason, now)) ==
            World(FreshRows(steps)[a := RowNext(RunningRow(steps[a], node, now), fail)][b := RunningRow(steps[b], node, now)],
                  map[job := JobRow(JobFailed, START_FLOOR, Some(reason), Some(now))], map[])
  {
    hide WholeNext, WholeRun, Rolls, RowNext, StepsOf, DoneOf, FreshRows, RunningRow;
    var run := StartRun(job, steps, a, node, now);
    var assign, start := Do(b, Assign(node, now), now), Do(b, Call(0, node, Start, now), now);
    var fail := Call(0, node, Fail(reason), now);
    JobStarts(job, steps, a, node, now);
    RunThen(run, assign);
    RunThen(run + [assign], start);
    RunThen(run + [assign] + [start], Do(a, fail, now));
    FreshAt(steps, a);
    FreshAt(steps, b);
    StepStarts(WholeRun(run), job, b, steps[b], node, now);
    var started := WholeRun(run + [assign] + [start]);
    RunningRolls(steps[a], 0, node, Fail(reason), now);
    WholeEffect(started, a, fail, now);
    RunningWork(steps[a], node, now);
    var rows, runningA, runningB := FreshRows(steps), RunningRow(steps[a], node, now), RunningRow(steps[b], node, now);
    var failedA := RowNext(runningA, fail);
    assert rows[a := runningA][b := runningB][a := failedA] == rows[a := failedA][b := runningB];
  }

  lemma RunningWork(work: Work, node: NodeId, now: Time)
    ensures RunningRow(work, node, now).work == work
  {
  }

  /**
    A failure is forgotten: for a job of any steps, two of which run, the failure of the first leaves the job failed,
    and the completion of the second takes that back.
   */
  lemma FailureIsForgotten(job: JobId, steps: map<StepId, Work>, a: StepId, b: StepId, node: NodeId, reason: string,
                           result: JsonObject, now: Time)
    requires a in steps && b in steps && a != b && forall x | x in steps :: steps[x].jobId == job
    ensures var run := FailRun(job, steps, a, b, node, reason, now);
            var failed, after := WholeRun(run), WholeRun(run + [Do(b, Call(0, node, Complete(result), now), now)]);
            && job in failed.jobs && failed.jobs[job].status == JobFailed
            && job in after.jobs && after.jobs[job].status == JobRunning
            && a in after.rows && after.rows[a].status == Failed
  {
    hide WholeNext, WholeRun, Rolls, RowNext, StepsOf, DoneOf, Percent, FreshRows, RunningRow, FailRun;
    var fail, complete := Call(0, node, Fail(reason), now), Call(0, node, Complete(result), now);
    var run := FailRun(job, steps, a, b, node, reason, now);
    JobFails(job, steps, a, b, node, reason, now);
    RunThen(run, Do(b, complete, now));
    RunningRolls(steps[a], 0, node, Fail(reason), now);
    RunningRolls(steps[b], 0, node, Complete(result), now);
    RunningWork(steps[b], node, now);
    var failed := WholeRun(run);
    WholeEffect(failed, b, complete, now);
    OneDoneOneFailed(steps, a, b, fail, complete, failed.rows[b := RowNext(failed.rows[b], complete)], node, job, now);
  }

  lemma FreshAt(steps: map<StepId, Work>, id: StepId)
    requires id in steps
    ensures id in FreshRows(steps) && FreshRows(steps)[id] == FreshRow(steps[id])
  {
  }

  /** With one step of several completed and another failed, the tally finds one of them completed, and not all. */
  lemma OneDoneOneFailed(steps: map<StepId, Work>, a: StepId, b: StepId, fail: AtomicOp, complete: AtomicOp, rows: Rows,
                         node: NodeId, job: JobId, now: Time)
    requires a in steps && b in steps && a != b && forall x | x in steps :: steps[x].jobId == job
    requires fail.Handle? && fail.req.op.Fail? && Rolls(RunningRow(steps[a], node, now), fail)
    requires complete.Handle? && complete.req.op.Complete? && Rolls(RunningRow(steps[b], node, now), complete)
    requires rows == FreshRows(steps)[a := RowNext(RunningRow(steps[a], node, now), fail)]
                                     [b := RowNext(RunningRow(steps[b], node, now), complete)]
    ensures rows[a].status == Failed
    ensures 0 < |DoneOf(rows, job)| < |StepsOf(rows, job)|
  {
    hide Rolls;
    EndedStatus(RunningRow(steps[a], node, now), fail);
    EndedStatus(RunningRow(steps[b], node, now), complete);
    hide RowNext;
    assert StepsOf(rows, job) == steps.Keys;
    assert DoneOf(rows, job) == {b};
    assert steps.Keys == {a} + (steps.Keys - {a}) && b in steps.Keys - {a};
    assert |steps.Keys - {a}| >= |{b}| by {
      assert steps.Keys - {a} == {b} + (steps.Keys - {a, b});
    }
  }

  lemma EndedStatus(row: StepRow, op: AtomicOp)
    requires Rolls(row, op)
    ensures op.req.op.Fail? ==> RowNext(row, op).status == Failed
    ensures op.req.op.Complete? ==> RowNext(row, op).status == Completed
    ensures RowNext(row, op).work == row.work
  {
  }
}
