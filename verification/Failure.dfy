/**
  What overlapping roll-ups do to failed jobs. For a job of one step, as every handler creates them: in any
  interleaving, once the step has failed and no roll-up is left, the job says that it failed, exactly unless the
  step failed for want of retries, which nothing rolls up, or a stale store undid it and none restored it.
 */
module Failure {
  import opened StateMachine
  import opened Lifecycle
  import opened Rollup
  import opened JobProgress
  import opened Overlap
  import opened Completion

  predicate IsOnlyStep(w: World, id: StepId, job: JobId) {
    job in w.jobs && StepsOf(w.rows, job) == {id}
  }

  /** Failed by a report of its node; a step that ran out of retries has no node. */
  predicate ReportedFailed(row: StepRow) {
    row.status == Failed && row.assignedNode.Some?
  }

  /** A roll-up that will fail the job. */
  predicate WillFail(d: Due) {
    match d
    case Committed(_, task) => task.MarkFailed?
    case Loaded(_, _) => false
    case Computed(_, seen, next) => next.status == JobFailed && seen.status != JobFailed
  }

  predicate SawFailed(d: Due) {
    !d.Committed? && d.seen.status == JobFailed
  }

  /** Nothing says or is about to say that a job of one step failed unless the step's failure was reported. */
  predicate Grounded(w: World, id: StepId, job: JobId) {
    IsOnlyStep(w, id, job) && id in w.rows && !ReportedFailed(w.rows[id]) ==>
      && !Says(w, job, JobFailed)
      && forall t | t in w.due && w.due[t].job == job :: !WillFail(w.due[t]) && !SawFailed(w.due[t])
  }

  predicate FailureExpected(w: World, job: JobId) {
    exists t | t in w.due :: w.due[t].job == job && WillFail(w.due[t])
  }

  /**
    A job whose only step's failure was reported says so or is about to, and only while it says so is there a
    roll-up that has seen it say so.
   */
  predicate FailureKept(w: World, id: StepId, job: JobId) {
    IsOnlyStep(w, id, job) && id in w.rows ==>
      && (ReportedFailed(w.rows[id]) ==> Says(w, job, JobFailed) || FailureExpected(w, job))
      && (forall t | t in w.due && w.due[t].job == job && SawFailed(w.due[t]) :: Says(w, job, JobFailed))
  }

  // ---------------------------------------------------------------- creating

  lemma FreshlyCreated(w: World, other: JobId, steps: map<StepId, Work>, id: StepId, job: JobId)
    requires Truthful(w) && CanCreate(w, other, steps)
    ensures var w' := CreateNext(w, other, steps);
            && w'.due == w.due
            && (job != other && job in w.jobs ==>
                  StepsOf(w'.rows, job) == StepsOf(w.rows, job) && w'.jobs[job] == w.jobs[job])
            && (job != other && job in w.jobs && id in StepsOf(w.rows, job) ==>
                  id in w'.rows && w'.rows[id] == w.rows[id])
            && (job == other && StepsOf(w'.rows, job) == {id} ==> id in w'.rows && w'.rows[id].status == Queued)
            && (job == other ==> Says(w', job, JobQueued) && Quiet(w', job))
  {
    CreateKeepsTallies(w, other, steps);
    var w' := CreateNext(w, other, steps);
    if job == other && StepsOf(w'.rows, job) == {id} {
      assert id in steps.Keys;
    }
  }

  lemma FailureCreate(w: World, other: JobId, steps: map<StepId, Work>, id: StepId, job: JobId)
    requires Truthful(w)
    ensures Grounded(w, id, job) ==> Grounded(CreateNext(w, other, steps), id, job)
    ensures FailureKept(w, id, job) ==> FailureKept(CreateNext(w, other, steps), id, job)
  {
    hide StepsOf, Truthful, CanCreate;
    if CanCreate(w, other, steps) {
      FreshlyCreated(w, other, steps, id, job);
      InItsSteps(w, id, job);
      hide CreateNext, WillFail, SawFailed;
    }
  }

  lemma InItsSteps(w: World, id: StepId, job: JobId)
    ensures IsOnlyStep(w, id, job) ==> id in StepsOf(w.rows, job) && id in w.rows && w.rows[id].work.jobId == job
  {
    assert IsOnlyStep(w, id, job) ==> id in StepsOf(w.rows, job);
  }

  // ---------------------------------------------------------------- operating on steps

  lemma RowFails(row: StepRow, op: AtomicOp)
    ensures RowNext(row, op).work == row.work
    ensures ReportedFailed(row) ==> RowNext(row, op) == row && !(op.Handle? && Takes(row, op))
    ensures !ReportedFailed(row) ==>
              (ReportedFailed(RowNext(row, op)) <==> op.Handle? && Takes(row, op) && op.req.op.Fail?)
  {
  }

  lemma FailureStep(w: World, x: StepId, op: AtomicOp, id: StepId, job: JobId)
    requires Truthful(w)
    ensures Grounded(w, id, job) ==> Grounded(StepNext(w, x, op), id, job)
    ensures FailureKept(w, id, job) ==> FailureKept(StepNext(w, x, op), id, job)
  {
    hide StepsOf, DoneOf, Truthful, RowNext, Takes, ReportedFailed;
    if x in w.rows {
      TallyAfter(w.rows, x, op, job);
      RowFails(w.rows[x], op);
      InItsSteps(w, id, job);
      StepsAreTheirJobs(w.rows, x, job);
      var w' := StepNext(w, x, op);
      if FailureExpected(w, job) {
        var t :| t in w.due && w.due[t].job == job && WillFail(w.due[t]);
        assert t in w'.due && w'.due[t] == w.due[t];
      } else if op.Handle? && Takes(w.rows[x], op) && op.req.op.Fail? && w' != w {
        assert WillFail(w'.due[op.ticket]);
      }
    }
  }

  lemma StepsAreTheirJobs(rows: Rows, x: StepId, job: JobId)
    requires x in rows
    ensures x in StepsOf(rows, job) <==> rows[x].work.jobId == job
  {
  }

  // ---------------------------------------------------------------- rolling up

  lemma FailureLoad(w: World, t: Ticket, now: Time, id: StepId, job: JobId)
    requires forall x | x in w.due :: w.due[x].job in w.jobs
    ensures Grounded(w, id, job) ==> Grounded(LoadNext(w, t, now), id, job)
    ensures FailureKept(w, id, job) ==> FailureKept(LoadNext(w, t, now), id, job)
  {
    hide StepsOf, ReportedFailed;
    var w' := LoadNext(w, t, now);
    if FailureExpected(w, job) && !Says(w, job, JobFailed) {
      var x :| x in w.due && w.due[x].job == job && WillFail(w.due[x]);
      assert x in w'.due && w'.due[x].job == job && WillFail(w'.due[x]);
    }
  }

  lemma FailureTally(w: World, t: Ticket, now: Time, id: StepId, job: JobId)
    ensures Grounded(w, id, job) ==> Grounded(TallyNext(w, t, now), id, job)
    ensures FailureKept(w, id, job) ==> FailureKept(TallyNext(w, t, now), id, job)
  {
    hide StepsOf, DoneOf, Percent, ReportedFailed;
    var w' := TallyNext(w, t, now);
    if FailureExpected(w, job) {
      var x :| x in w.due && w.due[x].job == job && WillFail(w.due[x]);
      assert x in w'.due && w'.due[x] == w.due[x];
    }
  }

  lemma GroundedStore(w: World, t: Ticket, id: StepId, job: JobId)
    requires Grounded(w, id, job)
    ensures Grounded(StoreNext(w, t), id, job)
  {
    hide StepsOf, ReportedFailed;
  }

  lemma FailureKeptStore(w: World, t: Ticket, id: StepId, job: JobId)
    requires FailureKept(w, id, job) && !Undoes(w, StoreJob(t), job, JobFailed)
    ensures FailureKept(StoreNext(w, t), id, job)
  {
    hide StepsOf, ReportedFailed;
    var w' := StoreNext(w, t);
    if FailureExpected(w, job) && !Says(w', job, JobFailed) {
      var x :| x in w.due && w.due[x].job == job && WillFail(w.due[x]);
      assert x in w'.due && w'.due[x] == w.due[x];
    }
  }

  lemma FailureNext(w: World, a: WorldAction, id: StepId, job: JobId)
    requires Truthful(w)
    ensures Grounded(w, id, job) ==> Grounded(WorldNext(w, a), id, job)
    ensures FailureKept(w, id, job) && !Undoes(w, a, job, JobFailed) ==> FailureKept(WorldNext(w, a), id, job)
  {
    hide Truthful, Grounded, FailureKept, CreateNext, StepNext, LoadNext, TallyNext, StoreNext, Undoes;
    match a
    case CreateJob(other, steps) => FailureCreate(w, other, steps, id, job);
    case OnStep(x, op) => FailureStep(w, x, op, id, job);
    case LoadJob(t, now) =>
      DueJobsExist(w);
      FailureLoad(w, t, now, id, job);
    case TallySteps(t, now) => FailureTally(w, t, now, id, job);
    case StoreJob(t) =>
      if Grounded(w, id, job) {
        GroundedStore(w, t, id, job);
      }
      if FailureKept(w, id, job) && !Undoes(w, a, job, JobFailed) {
        FailureKeptStore(w, t, id, job);
      }
  }

  // ---------------------------------------------------------------- over whole runs

  lemma {:induction false} FailuresAreGrounded(actions: seq<WorldAction>, id: StepId, job: JobId)
    ensures Grounded(WorldRun(EMPTY, actions), id, job)
    ensures NeverUndone(actions, job, JobFailed) ==> FailureKept(WorldRun(EMPTY, actions), id, job)
    decreases |actions|
  {
    hide Undoes, WorldNext, Truthful;
    if actions != [] {
      var last := |actions| - 1;
      FailuresAreGrounded(actions[..last], id, job);
      CompletedJobsAreDone(actions[..last]);
      FailureNext(WorldRun(EMPTY, actions[..last]), actions[last], id, job);
      if NeverUndone(actions, job, JobFailed) {
        PrefixNeverUndone(actions, last, job, JobFailed);
        assert !Undoes(Before(actions, last), actions[last], job, JobFailed);
      }
    }
  }

  /** While no store undoes it, a job whose only step's failure was reported says so once nothing is left to do. */
  lemma FailureIsKept(actions: seq<WorldAction>, id: StepId, job: JobId)
    requires NeverUndone(actions, job, JobFailed)
    ensures var w := WorldRun(EMPTY, actions);
            IsOnlyStep(w, id, job) && id in w.rows && ReportedFailed(w.rows[id]) && Quiet(w, job) ==>
              Says(w, job, JobFailed)
  {
    hide WorldRun, ReportedFailed, IsOnlyStep, NeverUndone;
    FailuresAreGrounded(actions, id, job);
  }

  /**
    Exactly when a failure gets lost: in any run that ends with the only step of a job failed and no roll-up left, the
    job fails to say so if and only if the step ran out of retries, or some store undid the job's failure and no
    later store restored it.
   */
  lemma FailureIsLostExactly(actions: seq<WorldAction>, id: StepId, job: JobId)
    requires var w := WorldRun(EMPTY, actions);
             IsOnlyStep(w, id, job) && Quiet(w, job) && id in w.rows && w.rows[id].status == Failed
    ensures !Says(WorldRun(EMPTY, actions), job, JobFailed) <==>
            || WorldRun(EMPTY, actions).rows[id].assignedNode.None?
            || exists i :: LostAt(actions, i, job, JobFailed)
  {
    hide WorldRun, NeverUndone, IsOnlyStep, Quiet, LostAt;
    FailuresAreGrounded(actions, id, job);
    if NeverUndone(actions, job, JobFailed) {
      FailureIsKept(actions, id, job);
    }
    if WorldRun(EMPTY, actions).rows[id].assignedNode.Some? {
      LostExactly(actions, job, JobFailed);
    }
  }

  // ---------------------------------------------------------------- runs that lose it

  /**
    A concrete run. The only step of a job starts, and the roll-up of the start loads the queued job; the node gives up
    waiting and reports a failure, which is rolled up to its end; then the first roll-up stores what it computed. The
    step has failed and nothing is left to do, but the job stays running.
   */
  lemma OverlapLosesFailure(work: Work, reason: string) returns (actions: seq<WorldAction>, w: World)
    requires work.jobId == "job"
    ensures w == WorldRun(EMPTY, actions)
    ensures IsOnlyStep(w, "step", "job") && "step" in w.rows && ReportedFailed(w.rows["step"]) && w.due == map[]
    ensures w.jobs["job"].status == JobRunning
  {
    hide WorldRun, StepsOf, DoneOf, RowNext, Takes;
    actions, w := StartLoaded(work);
    var fail := Call(1, "node", Fail(reason), 0);
    RunningRolls(work, 1, "node", Fail(reason), 0);
    RowFails(w.rows["step"], fail);
    actions, w := Then(actions, w, OnStep("step", fail));
    actions, w := Then(actions, w, LoadJob(1, 0));
    actions, w := Then(actions, w, StoreJob(1));
    actions, w := Then(actions, w, StoreJob(0));
    SingleStep(w.rows, "step", "job");
  }

  lemma SingleStep(rows: Rows, id: StepId, job: JobId)
    requires rows.Keys == {id} && rows[id].work.jobId == job
    ensures StepsOf(rows, job) == {id}
  {
  }

  /** Assigned, started and taken away again: one more retry is used up. */
  lemma RetryRound(row: StepRow)
    requires row.status == Queued
    ensures var held := RowNext(row, Assign("node", 0));
            var start := Handle(0, Request("node", row.epoch + 1, Start), 0);
            var running := RowNext(held, start);
            var after := RowNext(running, Recover);
            && Takes(held, start) && running.work == held.work == row.work
            && after.work == row.work && after.assignedNode.None? && after.retryCount == row.retryCount + 1
            && after.status == if row.retryCount + 1 > row.work.maxRetries then Failed else Queued
  {
  }

  predicate WaitsForRetry(w: World, work: Work) {
    && w.due == map[] && w.rows.Keys == {"step"} && w.rows["step"].work == work && w.rows["step"].assignedNode.None?
    && w.jobs.Keys == {"job"} && w.jobs["job"].status in {JobQueued, JobRunning}
  }

  lemma OneRetry(work: Work, actions: seq<WorldAction>, w: World) returns (more: seq<WorldAction>, next: World)
    requires w == WorldRun(EMPTY, actions) && work.jobId == "job" && WaitsForRetry(w, work) && w.rows["step"].status == Queued
    ensures next == WorldRun(EMPTY, more) && WaitsForRetry(next, work) && next.jobs["job"].status == JobRunning
    ensures next.rows["step"].retryCount == w.rows["step"].retryCount + 1
    ensures next.rows["step"].status == if next.rows["step"].retryCount > work.maxRetries then Failed else Queued
  {
    hide WorldRun, RowNext, Takes;
    var row := w.rows["step"];
    RetryRound(row);
    more, next := Then(actions, w, OnStep("step", Assign("node", 0)));
    more, next := Then(more, next, OnStep("step", Handle(0, Request("node", row.epoch + 1, Start), 0)));
    assert next.due == map[0 := Committed("job", MarkRunning)];
    more, next := Then(more, next, LoadJob(0, 0));
    more, next := Then(more, next, StoreJob(0));
    assert next.due == map[];
    more, next := Then(more, next, OnStep("step", Recover));
  }

  lemma Exhausted(work: Work, actions: seq<WorldAction>, w: World) returns (more: seq<WorldAction>, next: World)
    requires w == WorldRun(EMPTY, actions) && work.jobId == "job" && WaitsForRetry(w, work) && w.rows["step"].status == Queued
    ensures next == WorldRun(EMPTY, more) && WaitsForRetry(next, work)
    ensures next.rows["step"].status == Failed && next.jobs["job"].status == JobRunning
    decreases work.maxRetries - w.rows["step"].retryCount
  {
    hide WorldRun;
    more, next := OneRetry(work, actions, w);
    if next.rows["step"].status == Queued {
      more, next := Exhausted(work, more, next);
    }
  }

  /** A concrete run for any retry limit: the only step of a job runs out of retries, and the job stays running. */
  lemma ExhaustionFailsNoJob(work: Work) returns (actions: seq<WorldAction>, w: World)
    requires work.jobId == "job"
    ensures w == WorldRun(EMPTY, actions)
    ensures IsOnlyStep(w, "step", "job") && "step" in w.rows && w.rows["step"].status == Failed && w.due == map[]
    ensures w.jobs["job"].status == JobRunning
  {
    hide WorldRun;
    EmptyRun();
    actions, w := Then([], EMPTY, CreateJob("job", map["step" := work]));
    assert "step" in map["step" := work];
    actions, w := Exhausted(work, actions, w);
    SingleStep(w.rows, "step", "job");
  }
}
