/**
  The row of a job as the history of its steps tells it, with handlers run one at a time: which step events
  its columns come from, and from no other.
 */
module JobHistory {
  import opened Wrappers
  import opened StateMachine
  import opened Lifecycle
  import opened Rollup
  import opened JobProgress

  /** What happened to the steps of a job; a completion says how many of them were completed after it. */
  datatype JobEvent =
    | StepStarted
    | StepCompleted(done: nat, total: nat, at: Time)
    | StepFailed(reason: string, at: Time)

  function EventOf(w: World, a: Whole, job: JobId): seq<JobEvent> {
    if a.Do? && a.id in w.rows && w.rows[a.id].work.jobId == job && Rolls(w.rows[a.id], a.op) then
      var rows := w.rows[a.id := RowNext(w.rows[a.id], a.op)];
      match a.op.req.op
      case Complete(_) => [StepCompleted(|DoneOf(rows, job)|, |StepsOf(rows, job)|, a.now)]
      case Fail(reason) => [StepFailed(reason, a.now)]
      case _ => [StepStarted]
    else []
  }

  function Log(actions: seq<Whole>, job: JobId): seq<JobEvent> {
    if actions == [] then []
    else
      var earlier := actions[..|actions| - 1];
      Log(earlier, job) + EventOf(WholeRun(earlier), actions[|actions| - 1], job)
  }

  function LastOf(log: seq<JobEvent>, p: JobEvent -> bool): Option<JobEvent> {
    if log == [] then None
    else if p(log[|log| - 1]) then Some(log[|log| - 1])
    else LastOf(log[..|log| - 1], p)
  }

  predicate IsEnd(e: JobEvent) { !e.StepStarted? }
  predicate IsCompletion(e: JobEvent) { e.StepCompleted? }
  predicate IsFailure(e: JobEvent) { e.StepFailed? }
  predicate EndsJob(e: JobEvent) { e.StepFailed? || (e.StepCompleted? && e.done == e.total) }

  /** Every column of the job row is what the log says. */
  predicate Recorded(j: JobRow, log: seq<JobEvent>) {
    && j.status == (match LastOf(log, IsEnd)
                    case None => if log == [] then JobQueued else JobRunning
                    case Some(StepCompleted(done, total, _)) => if done == total then JobCompleted else JobRunning
                    case Some(_) => JobFailed)
    && j.progress == (match LastOf(log, IsCompletion)
                      case Some(StepCompleted(done, total, _)) => if total > 0 then Percent(done, total) else 0
                      case _ => if log != [] && log[0].StepStarted? then 100 else 0)
    && j.error == (match LastOf(log, IsFailure)
                   case Some(StepFailed(reason, _)) => Some(reason)
                   case _ => None)
    && j.completedAt == (match LastOf(log, EndsJob)
                         case Some(StepCompleted(_, _, at)) => Some(at)
                         case Some(StepFailed(_, at)) => Some(at)
                         case _ => None)
  }

  lemma LastOfAppend(log: seq<JobEvent>, e: JobEvent, p: JobEvent -> bool)
    ensures LastOf(log + [e], p) == if p(e) then Some(e) else LastOf(log, p)
  {
    assert (log + [e])[..|log|] == log;
  }

  lemma AppendAll(log: seq<JobEvent>, e: JobEvent)
    ensures LastOf(log + [e], IsEnd) == if IsEnd(e) then Some(e) else LastOf(log, IsEnd)
    ensures LastOf(log + [e], IsCompletion) == if IsCompletion(e) then Some(e) else LastOf(log, IsCompletion)
    ensures LastOf(log + [e], IsFailure) == if IsFailure(e) then Some(e) else LastOf(log, IsFailure)
    ensures LastOf(log + [e], EndsJob) == if EndsJob(e) then Some(e) else LastOf(log, EndsJob)
  {
    LastOfAppend(log, e, IsEnd);
    LastOfAppend(log, e, IsCompletion);
    LastOfAppend(log, e, IsFailure);
    LastOfAppend(log, e, EndsJob);
  }

  lemma NothingLast(log: seq<JobEvent>, p: JobEvent -> bool)
    ensures LastOf(log, p).Some? ==> p(LastOf(log, p).value)
    ensures log == [] ==> LastOf(log, p).None?
    ensures log != [] && LastOf(log, p).None? ==> !p(log[0])
  {
  }

  lemma RolledIsRecorded(task: Task, j: JobRow, log: seq<JobEvent>, done: nat, total: nat, now: Time)
    requires Recorded(j, log) && done <= total && total > 0
    ensures Recorded(Rolled(task, j, done, total, now),
                     log + [match task
                            case MarkRunning => StepStarted
                            case MarkAfterCompletion => StepCompleted(done, total, now)
                            case MarkFailed(message) => StepFailed(message, now)])
  {
    hide LastOf, Percent;
    NothingLast(log, IsEnd);
    NothingLast(log, IsCompletion);
    match task
    case MarkRunning => AppendAll(log, StepStarted);
    case MarkAfterCompletion => AppendAll(log, StepCompleted(done, total, now));
    case MarkFailed(message) => AppendAll(log, StepFailed(message, now));
  }

  lemma CreatedRecorded(w: World, other: JobId, steps: map<StepId, Work>, job: JobId)
    ensures var w' := WholeNext(w, NewJob(other, steps));
            && (job in w.jobs ==> job in w'.jobs && w'.jobs[job] == w.jobs[job])
            && (job !in w.jobs && job in w'.jobs ==> Recorded(w'.jobs[job], []))
  {
  }

  lemma DoRecorded(w: World, id: StepId, op: AtomicOp, now: Time, job: JobId, log: seq<JobEvent>)
    requires w.due == map[] && id in w.rows && job in w.jobs && Recorded(w.jobs[job], log)
    requires StepsOf(w.rows, job) != {}
    ensures var w' := WholeNext(w, Do(id, op, now));
            job in w'.jobs && Recorded(w'.jobs[job], log + EventOf(w, Do(id, op, now), job))
  {
    hide Recorded, RowNext, Rolled, WholeNext, StepsOf, DoneOf, Takes;
    WholeEffect(w, id, op, now);
    var rows := w.rows[id := RowNext(w.rows[id], op)];
    if Rolls(w.rows[id], op) && w.rows[id].work.jobId == job {
      FullTally(rows, job);
      TallyAfter(w.rows, id, op, job);
      RolledIsRecorded(TaskOf(op.req.op).value, w.jobs[job], log, |DoneOf(rows, job)|, |StepsOf(rows, job)|, now);
    } else {
      assert log + [] == log;
    }
  }

  lemma NothingOfUnknownJobs(w: World, a: Whole, job: JobId)
    requires (forall x | x in w.rows :: w.rows[x].work.jobId in w.jobs) && job !in w.jobs
    ensures EventOf(w, a, job) == []
  {
  }

  /** With handlers run one at a time, each column of a job's row is what the log of its steps says. */
  lemma {:induction false} JobIsItsHistory(actions: seq<Whole>, job: JobId)
    ensures job in WholeRun(actions).jobs ==> Recorded(WholeRun(actions).jobs[job], Log(actions, job))
    ensures job !in WholeRun(actions).jobs ==> Log(actions, job) == []
    decreases |actions|
  {
    hide Recorded, WholeNext, StepsOf, DoneOf, Truthful, EventOf;
    if actions != [] {
      var earlier, a := actions[..|actions| - 1], actions[|actions| - 1];
      var w := WholeRun(earlier);
      JobIsItsHistory(earlier, job);
      JobsFollowTheirSteps(earlier);
      RowsHaveJobs(w);
      if job !in w.jobs {
        NothingOfUnknownJobs(w, a, job);
      }
      match a
      case NewJob(other, steps) =>
        CreatedRecorded(w, other, steps, job);
        assert EventOf(w, a, job) == [] by {
          NewJobIsNoEvent(w, a, job);
        }
        assert Log(earlier, job) + [] == Log(earlier, job);
      case Do(id, op, now) =>
        if id in w.rows && job in w.jobs {
          DoRecorded(w, id, op, now, job, Log(earlier, job));
        } else {
          DoElsewhere(w, id, op, now, job);
          assert Log(earlier, job) + [] == Log(earlier, job);
        }
    }
  }

  lemma NewJobIsNoEvent(w: World, a: Whole, job: JobId)
    requires a.NewJob?
    ensures EventOf(w, a, job) == []
  {
  }

  lemma DoElsewhere(w: World, id: StepId, op: AtomicOp, now: Time, job: JobId)
    requires w.due == map[] && (id !in w.rows || job !in w.jobs)
    ensures var w' := WholeNext(w, Do(id, op, now));
            (job in w'.jobs <==> job in w.jobs) && (job in w.jobs ==> w'.jobs[job] == w.jobs[job])
    ensures id !in w.rows ==> EventOf(w, Do(id, op, now), job) == []
  {
    hide WholeNext, RowNext, Rolled, StepsOf, DoneOf;
    if id in w.rows {
      WholeEffect(w, id, op, now);
    } else {
      UnknownStep(w, id, op, now);
    }
  }

  /** The progress a tally stores is the share of completed steps to the nearest hundredth of a percent, ties to even. */
  lemma PercentIsNearest(done: nat, total: nat)
    requires total > 0
    ensures var error := Percent(done, total) * total - done * 10000;
            && 0 - total <= 2 * error <= total
            && (2 * error == total || 2 * error == 0 - total ==> Percent(done, total) % 2 == 0)
  {
    var a := done * 10000;
    var q, r := a / total, a % total;
    assert a == total * q + r;
    assert (q + 1) * total == q * total + total;
  }
}
