/**
  What overlapping roll-ups do to completed jobs. In any interleaving, a job with only completed steps and no
  roll-up left says that it is completed, exactly unless a stale store undid that and none restored it.
 */
module Completion {
  import opened Wrappers
  import opened StateMachine
  import opened Lifecycle
  import opened Rollup
  import opened JobProgress
  import opened Overlap

  /** A roll-up that will complete the job, if all of its steps are completed by the time it tallies them. */
  predicate WillComplete(d: Due) {
    match d
    case Committed(_, task) => task.MarkAfterCompletion?
    case Loaded(_, _) => true
    case Computed(_, seen, next) => next.status == JobCompleted && seen.status != JobCompleted
  }

  predicate Expected(w: World, job: JobId) {
    exists t | t in w.due :: w.due[t].job == job && WillComplete(w.due[t])
  }

  /**
    A job with only completed steps says so or is about to, and only while it says so is there a roll-up that
    has seen it say so.
   */
  predicate Kept(w: World, job: JobId) {
    && (job in w.jobs ==> StepsOf(w.rows, job) != {})
    && (job in w.jobs && AllDone(w.rows, job) ==> Says(w, job, JobCompleted) || Expected(w, job))
    && (forall t | t in w.due && w.due[t].job == job && !w.due[t].Committed? && w.due[t].seen.status == JobCompleted ::
          Says(w, job, JobCompleted))
  }

  lemma KeptCreate(w: World, fresh_: JobId, steps: map<StepId, Work>, job: JobId)
    requires Truthful(w) && Kept(w, job)
    ensures Kept(CreateNext(w, fresh_, steps), job)
  {
    hide StepsOf, DoneOf;
    if CanCreate(w, fresh_, steps) {
      CreateKeepsTallies(w, fresh_, steps);
      var id :| id in steps;
      assert id in steps.Keys;
      var w' := CreateNext(w, fresh_, steps);
      assert w'.due == w.due;
      if job != fresh_ && Expected(w, job) {
        var t :| t in w.due && w.due[t].job == job && WillComplete(w.due[t]);
        assert w'.due[t] == w.due[t];
      }
    }
  }

  lemma KeptStep(w: World, id: StepId, op: AtomicOp, job: JobId)
    requires Truthful(w) && Kept(w, job)
    ensures Kept(StepNext(w, id, op), job)
  {
    hide RowNext, Takes, StepsOf, DoneOf;
    if id in w.rows {
      RowKeepsCompleted(w.rows[id], op);
      TallyAfter(w.rows, id, op, job);
      var w' := StepNext(w, id, op);
      if Expected(w, job) {
        var t :| t in w.due && w.due[t].job == job && WillComplete(w.due[t]);
        assert t in w'.due && w'.due[t] == w.due[t];
      } else if job in w.jobs && AllDone(w'.rows, job) && !AllDone(w.rows, job) {
        assert w'.due[op.ticket] == Committed(job, MarkAfterCompletion);
      }
    }
  }

  lemma LoadStaysExpected(w: World, t: Ticket, now: Time, job: JobId)
    requires Expected(w, job) && forall x | x in w.due :: w.due[x].job in w.jobs
    ensures Expected(LoadNext(w, t, now), job)
  {
    hide Started, Failing;
    var w' := LoadNext(w, t, now);
    var x :| x in w.due && w.due[x].job == job && WillComplete(w.due[x]);
    assert x in w'.due && w'.due[x].job == job && WillComplete(w'.due[x]);
  }

  lemma KeptLoad(w: World, t: Ticket, now: Time, job: JobId)
    requires Kept(w, job) && forall x | x in w.due :: w.due[x].job in w.jobs
    ensures Kept(LoadNext(w, t, now), job)
  {
    hide AllDone, StepsOf, Started, Failing, Expected;
    if Expected(w, job) {
      LoadStaysExpected(w, t, now, job);
    }
  }

  lemma KeptTally(w: World, t: Ticket, now: Time, job: JobId)
    requires Truthful(w) && Kept(w, job)
    ensures Kept(TallyNext(w, t, now), job)
  {
    hide StepsOf, DoneOf, Percent;
    var w' := TallyNext(w, t, now);
    FullTally(w.rows, job);
    if job in w.jobs && AllDone(w.rows, job) && !Says(w, job, JobCompleted) {
      var x :| x in w.due && w.due[x].job == job && WillComplete(w.due[x]);
      assert |StepsOf(w.rows, job)| > 0;
      assert x in w'.due && w'.due[x].job == job && WillComplete(w'.due[x]);
    }
  }

  lemma KeptStore(w: World, t: Ticket, job: JobId)
    requires Truthful(w) && Kept(w, job) && !Undoes(w, StoreJob(t), job, JobCompleted)
    ensures Kept(StoreNext(w, t), job)
  {
    hide AllDone, StepsOf;
    var w' := StoreNext(w, t);
    if Expected(w, job) && !Says(w', job, JobCompleted) {
      var x :| x in w.due && w.due[x].job == job && WillComplete(w.due[x]);
      assert x in w'.due && w'.due[x] == w.due[x];
    }
  }

  lemma KeptNext(w: World, a: WorldAction, job: JobId)
    requires Truthful(w) && Kept(w, job) && !Undoes(w, a, job, JobCompleted)
    ensures Kept(WorldNext(w, a), job)
  {
    hide Truthful, Kept, CreateNext, StepNext, LoadNext, TallyNext, StoreNext;
    match a
    case CreateJob(fresh_, steps) => KeptCreate(w, fresh_, steps, job);
    case OnStep(id, op) => KeptStep(w, id, op, job);
    case LoadJob(t, now) =>
      DueJobsExist(w);
      KeptLoad(w, t, now, job);
    case TallySteps(t, now) => KeptTally(w, t, now, job);
    case StoreJob(t) => KeptStore(w, t, job);
  }

  /** While no store undoes it, a job with only completed steps and nothing left to do says that it is completed. */
  lemma {:induction false} CompletionIsKept(actions: seq<WorldAction>, job: JobId)
    requires NeverUndone(actions, job, JobCompleted)
    ensures Kept(WorldRun(EMPTY, actions), job)
    ensures var w := WorldRun(EMPTY, actions);
            job in w.jobs && AllDone(w.rows, job) && Quiet(w, job) ==> Says(w, job, JobCompleted)
    decreases |actions|
  {
    hide Undoes, WorldNext, AllDone;
    if actions != [] {
      var last := |actions| - 1;
      PrefixNeverUndone(actions, last, job, JobCompleted);
      CompletionIsKept(actions[..last], job);
      CompletedJobsAreDone(actions[..last]);
      assert !Undoes(Before(actions, last), actions[last], job, JobCompleted);
      KeptNext(WorldRun(EMPTY, actions[..last]), actions[last], job);
    }
  }

  /**
    Exactly when completion gets lost: in any run that ends with all of a job's steps completed and none of its
    roll-ups left, the job fails to say so if and only if some store undid its completion and no later store
    restored it.
   */
  lemma CompletionIsLostExactly(actions: seq<WorldAction>, job: JobId)
    requires var w := WorldRun(EMPTY, actions); job in w.jobs && AllDone(w.rows, job) && Quiet(w, job)
    ensures !Says(WorldRun(EMPTY, actions), job, JobCompleted) <==> exists i :: LostAt(actions, i, job, JobCompleted)
  {
    hide WorldRun, NeverUndone, AllDone, Quiet;
    if NeverUndone(actions, job, JobCompleted) {
      CompletionIsKept(actions, job);
    }
    LostExactly(actions, job, JobCompleted);
  }

  // ---------------------------------------------------------------- a run that loses it

  /** The only step of a job, started; the roll-up of its start has loaded the queued job and will store it as running. */
  lemma StartLoaded(work: Work) returns (actions: seq<WorldAction>, w: World)
    requires work.jobId == "job"
    ensures w == WorldRun(EMPTY, actions)
    ensures w.rows.Keys == {"step"} && w.rows["step"] == RunningRow(work, "node", 0)
    ensures w.jobs == map["job" := FRESH_JOB] && w.due == map[0 := Computed("job", FRESH_JOB, Started(FRESH_JOB))]
  {
    hide WorldRun;
    EmptyRun();
    actions, w := Then([], EMPTY, CreateJob("job", map["step" := work]));
    assert "step" in map["step" := work];
    actions, w := Then(actions, w, OnStep("step", Assign("node", 0)));
    actions, w := Then(actions, w, OnStep("step", Call(0, "node", Start, 0)));
    actions, w := Then(actions, w, LoadJob(0, 0));
  }

  /** The step completes, and the roll-up of its completion runs to its end. */
  lemma CompletedMeanwhile(work: Work) returns (actions: seq<WorldAction>, w: World)
    requires work.jobId == "job"
    ensures w == WorldRun(EMPTY, actions)
    ensures w.rows.Keys == {"step"} && w.rows["step"].work == work && w.rows["step"].status == Completed
    ensures w.jobs == map["job" := JobRow(JobCompleted, 10000, None, Some(0))]
    ensures w.due == map[0 := Computed("job", FRESH_JOB, Started(FRESH_JOB))]
  {
    hide WorldRun, StepsOf, DoneOf, RowNext, Takes;
    actions, w := StartLoaded(work);
    var due := w.due;
    RunningRolls(work, 1, "node", Complete(map[]), 0);
    EndedStatus(w.rows["step"], Call(1, "node", Complete(map[]), 0));
    actions, w := Then(actions, w, OnStep("step", Call(1, "node", Complete(map[]), 0)));
    OnlyStep(w.rows, "step", "job");
    actions, w := Then(actions, w, LoadJob(1, 0));
    actions, w := Then(actions, w, TallySteps(1, 0));
    actions, w := Then(actions, w, StoreJob(1));
    assert w.due == due;
  }

  lemma OnlyStep(rows: Rows, id: StepId, job: JobId)
    requires rows.Keys == {id} && rows[id].work.jobId == job && rows[id].status == Completed
    ensures StepsOf(rows, job) == DoneOf(rows, job) == {id}
    ensures Percent(|DoneOf(rows, job)|, |StepsOf(rows, job)|) == 10000
  {
    assert StepsOf(rows, job) == {id} && DoneOf(rows, job) == {id};
  }

  /**
    A concrete run. The only step of a job starts, and the roll-up of the start loads the queued job; the step
    completes and that roll-up runs to its end; then the first one stores what it computed. Everything is
    completed and nothing is left to do, but the job stays running at one percent.
   */
  lemma OverlapLosesCompletion(work: Work) returns (actions: seq<WorldAction>, w: World)
    requires work.jobId == "job"
    ensures w == WorldRun(EMPTY, actions)
    ensures StepsOf(w.rows, "job") == {"step"} && AllDone(w.rows, "job") && w.due == map[]
    ensures w.jobs.Keys == {"job"} && w.jobs["job"].status == JobRunning && w.jobs["job"].progress == START_FLOOR
  {
    hide WorldRun, StepsOf, DoneOf;
    actions, w := CompletedMeanwhile(work);
    OnlyStep(w.rows, "step", "job");
    actions, w := Then(actions, w, StoreJob(0));
  }
}
