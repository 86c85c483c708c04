/**
  The whole Controller: many steps, created at any time with their jobs, every one of them going through the
  two-phase lifecycle protocol, and every committed start, completion or failure rolled up into its job, all
  of it interleaved in any way. Each step's part of a run is a run of that step alone, and what the jobs do is a run
  of `Rollup` over handlers that act in one instant; so everything proved there holds here.
 */
module System {
  import opened Wrappers
  import opened StateMachine
  import opened Lifecycle
  import opened Fencing
  import opened Rollup
  import opened JobProgress
  import opened Overlap
  import opened Completion
  import opened Failure
  import opened History
  import opened Controllers

  /** Roll-ups are numbered as they become due. */
  datatype State = State(cells: map<StepId, Cell>, jobs: map<JobId, JobRow>, due: map<Ticket, Due>, issued: Ticket)

  const INITIAL := State(map[], map[], map[], 0)

  datatype SystemAction =
    | Create(job: JobId, steps: map<StepId, Work>)
    | On(id: StepId, action: Action)
    | Load(ticket: Ticket, loaded: Time)
    | Tally(ticket: Ticket, tallied: Time)
    | Store(ticket: Ticket)

  /** The step, job and roll-up tables. */
  function Seen(s: State): World {
    World(map id | id in s.cells :: s.cells[id].row, s.jobs, s.due)
  }

  /** The roll-up a commit makes due, if its update changed a row and the request calls for one. */
  function Landed(c: Cell, a: Action): Option<Task> {
    if a.Commit? && a.ticket in c.flights && c.flights[a.ticket].Validated? &&
       Persist(c.row, c.flights[a.ticket].seen, c.flights[a.ticket].req, a.now).Ok?
    then TaskOf(c.flights[a.ticket].req.op)
    else None
  }

  function CreateIn(s: State, job: JobId, steps: map<StepId, Work>): State {
    if CanCreate(Seen(s), job, steps) then
      s.(cells := s.cells + map id | id in steps :: Fresh(steps[id]), jobs := s.jobs[job := FRESH_JOB])
    else s
  }

  function OnNext(s: State, id: StepId, a: Action): State {
    if id !in s.cells then s
    else
      var c := s.cells[id];
      var moved := s.(cells := s.cells[id := Next(c, a)]);
      match Landed(c, a)
      case None => moved
      case Some(task) => moved.(due := s.due[s.issued := Committed(c.row.work.jobId, task)], issued := s.issued + 1)
  }

  function WithJobs(s: State, w: World): State {
    s.(jobs := w.jobs, due := w.due)
  }

  function SystemNext(s: State, a: SystemAction): State {
    match a
    case Create(job, steps) => CreateIn(s, job, steps)
    case On(id, action) => OnNext(s, id, action)
    case Load(t, now) => WithJobs(s, LoadNext(Seen(s), t, now))
    case Tally(t, now) => WithJobs(s, TallyNext(Seen(s), t, now))
    case Store(t) => WithJobs(s, StoreNext(Seen(s), t))
  }

  function SystemRun(actions: seq<SystemAction>): State {
    if actions == [] then INITIAL else SystemNext(SystemRun(actions[..|actions| - 1]), actions[|actions| - 1])
  }

  // ---------------------------------------------------------------- each step by itself

  /** The part of a run that concerns one step. */
  datatype Life = Unborn | Born(work: Work, actions: seq<Action>)

  function LifeNext(s: State, life: Life, a: SystemAction, id: StepId): Life {
    match life
    case Unborn =>
      if a.Create? && CanCreate(Seen(s), a.job, a.steps) && id in a.steps then Born(a.steps[id], []) else Unborn
    case Born(work, own) =>
      if a.On? && a.id == id then Born(work, own + [a.action]) else life
  }

  function LifeOf(actions: seq<SystemAction>, id: StepId): Life {
    if actions == [] then Unborn
    else
      var earlier := actions[..|actions| - 1];
      LifeNext(SystemRun(earlier), LifeOf(earlier, id), actions[|actions| - 1], id)
  }

  lemma {:induction false} StepsAreIndependent(actions: seq<SystemAction>, id: StepId)
    ensures id in SystemRun(actions).cells <==> LifeOf(actions, id).Born?
    ensures id in SystemRun(actions).cells ==>
              var Born(work, own) := LifeOf(actions, id);
              SystemRun(actions).cells[id] == Run(Fresh(work), own)
    decreases |actions|
  {
    hide Next, LoadNext, TallyNext, StoreNext, Landed;
    if actions != [] {
      var earlier, a := actions[..|actions| - 1], actions[|actions| - 1];
      StepsAreIndependent(earlier, id);
      if LifeOf(earlier, id).Born? && a.On? && a.id == id {
        var own := LifeOf(earlier, id).actions;
        assert (own + [a.action])[..|own|] == own;
      }
    }
  }

  predicate AllFollow(s: State) {
    forall id | id in s.cells :: FlightsFollow(s.cells[id])
  }

  /** Every step of every reachable state keeps the invariants of `Fencing`, and its handlers in flight stay linearizable. */
  lemma EveryStepIsFenced(actions: seq<SystemAction>)
    ensures forall id | id in SystemRun(actions).cells :: Invariant(Observed(SystemRun(actions).cells[id]))
    ensures AllFollow(SystemRun(actions))
  {
    forall id | id in SystemRun(actions).cells
      ensures Invariant(Observed(SystemRun(actions).cells[id])) && FlightsFollow(SystemRun(actions).cells[id])
    {
      StepsAreIndependent(actions, id);
      var Born(work, own) := LifeOf(actions, id);
      RunInvariants(work, own);
      Linearizability(work, own);
    }
  }

  // ---------------------------------------------------------------- jobs over stale-read handlers

  function Renumbered(op: AtomicOp, t: Ticket): AtomicOp {
    match op
    case Handle(_, req, now) => Handle(t, req, now)
    case _ => op
  }

  /** The operation of the atomic system an action stands for, under the number its roll-up gets. */
  function PointIn(s: State, a: SystemAction): Option<WorldAction> {
    match a
    case Create(job, steps) => Some(CreateJob(job, steps))
    case On(id, action) =>
      if id in s.cells && PointOf(s.cells[id], action) != [] then
        Some(OnStep(id, Renumbered(PointOf(s.cells[id], action)[0], s.issued)))
      else None
    case Load(t, now) => Some(LoadJob(t, now))
    case Tally(t, now) => Some(TallySteps(t, now))
    case Store(t) => Some(StoreJob(t))
  }

  function Projected(actions: seq<SystemAction>): seq<WorldAction> {
    if actions == [] then []
    else
      var earlier := actions[..|actions| - 1];
      match PointIn(SystemRun(earlier), actions[|actions| - 1])
      case None => Projected(earlier)
      case Some(point) => Projected(earlier) + [point]
  }

  predicate Numbered(s: State) {
    forall t | t in s.due :: t < s.issued
  }

  lemma TicketsDoNotMatter(row: StepRow, op: AtomicOp, t: Ticket)
    ensures Takes(row, Renumbered(op, t)) == Takes(row, op) && RowNext(row, Renumbered(op, t)) == RowNext(row, op)
  {
  }

  /** What one action does to one step, seen from the atomic system. */
  lemma OnIsAtomic(c: Cell, a: Action)
    requires FlightsFollow(c)
    ensures var point := PointOf(c, a);
            && (point == [] ==> Next(c, a).row == c.row && Landed(c, a).None?)
            && (point != [] ==> Next(c, a).row == RowNext(c.row, point[0]))
            && (point != [] ==>
                  Landed(c, a) == if point[0].Handle? && Takes(c.row, point[0]) then TaskOf(point[0].req.op) else None)
  {
    var point := PointOf(c, a);
    StepIsAtomic(c, a);
    if point != [] {
      assert AtomRun(Observed(c), point) == AtomNext(AtomRun(Observed(c), []), point[0]);
      if a.Commit? {
        CommitIsAtomic(c.row, c.flights[a.ticket].seen, c.flights[a.ticket].req, a.now);
      }
    }
  }

  lemma OnTables(s: State, id: StepId, a: Action)
    requires Numbered(s) && id in s.cells
    ensures Numbered(OnNext(s, id, a)) && s.issued !in s.due
    ensures var c, task := s.cells[id], Landed(s.cells[id], a);
            Seen(OnNext(s, id, a)) ==
            World(Seen(s).rows[id := Next(c, a).row], s.jobs,
                  if task.Some? then s.due[s.issued := Committed(c.row.work.jobId, task.value)] else s.due)
  {
    hide Next, Landed;
    assert Seen(OnNext(s, id, a)).rows == Seen(s).rows[id := Next(s.cells[id], a).row];
  }

  lemma OnIsStep(s: State, id: StepId, a: Action)
    requires AllFollow(s) && Numbered(s) && id in s.cells
    ensures Numbered(OnNext(s, id, a)) && Seen(OnNext(s, id, a)) == SeenNext(s, On(id, a))
  {
    var c := s.cells[id];
    OnTables(s, id, a);
    OnIsAtomic(c, a);
    assert id in Seen(s).rows && Seen(s).rows[id] == c.row;
    assert Seen(s).rows[id := c.row] == Seen(s).rows;
    hide Next, PointOf, Landed, RowNext, Takes, TaskOf, AllFollow, Numbered, Seen, OnNext;
    if PointOf(c, a) != [] {
      TicketsDoNotMatter(c.row, PointOf(c, a)[0], s.issued);
    }
  }

  /** The tables after the operation an action stands for. */
  function SeenNext(s: State, a: SystemAction): World {
    var point := PointIn(s, a);
    if point.Some? then WorldNext(Seen(s), point.value) else Seen(s)
  }

  lemma CreateIsStep(s: State, job: JobId, steps: map<StepId, Work>)
    ensures Seen(CreateIn(s, job, steps)) == CreateNext(Seen(s), job, steps)
  {
  }

  lemma RollUpsKeepRows(s: State, t: Ticket, now: Time)
    ensures Seen(WithJobs(s, LoadNext(Seen(s), t, now))) == LoadNext(Seen(s), t, now)
    ensures Seen(WithJobs(s, TallyNext(Seen(s), t, now))) == TallyNext(Seen(s), t, now)
    ensures Seen(WithJobs(s, StoreNext(Seen(s), t))) == StoreNext(Seen(s), t)
    ensures LoadNext(Seen(s), t, now).due.Keys <= s.due.Keys && TallyNext(Seen(s), t, now).due.Keys <= s.due.Keys
    ensures StoreNext(Seen(s), t).due.Keys <= s.due.Keys
  {
    hide Started, Failing, Tallied, Merge, StepsOf, DoneOf;
  }

  /** Every action of the system is at most one action of the atomic one. */
  lemma SystemStep(s: State, a: SystemAction)
    requires AllFollow(s) && Numbered(s)
    ensures Numbered(SystemNext(s, a)) && Seen(SystemNext(s, a)) == SeenNext(s, a)
  {
    hide OnNext, CreateNext, StepNext, LoadNext, TallyNext, StoreNext, Seen;
    match a
    case Create(job, steps) => CreateIsStep(s, job, steps);
    case On(id, action) =>
      if id in s.cells {
        OnIsStep(s, id, action);
      } else {
        assert OnNext(s, id, action) == s by {
          UnknownCell(s, id, action);
        }
      }
    case Load(t, now) => RollUpsKeepRows(s, t, now);
    case Tally(t, now) => RollUpsKeepRows(s, t, now);
    case Store(t) => RollUpsKeepRows(s, t, 0);
  }

  lemma UnknownCell(s: State, id: StepId, a: Action)
    requires id !in s.cells
    ensures OnNext(s, id, a) == s
  {
  }

  /**
    Every run of stale-read handlers and overlapping roll-ups leaves the step, job and roll-up tables that a run of
    instantaneous handlers and the same roll-ups leaves.
   */
  lemma {:induction false} SystemIsWorld(actions: seq<SystemAction>)
    ensures Seen(SystemRun(actions)) == WorldRun(EMPTY, Projected(actions))
    ensures Numbered(SystemRun(actions))
    decreases |actions|
  {
    hide SystemNext, WorldNext, PointIn, Seen;
    if actions == [] {
      NothingYet();
    } else {
      var earlier, a := actions[..|actions| - 1], actions[|actions| - 1];
      SystemIsWorld(earlier);
      EveryStepIsFenced(earlier);
      SystemStep(SystemRun(earlier), a);
      if PointIn(SystemRun(earlier), a).Some? {
        var point := PointIn(SystemRun(earlier), a).value;
        assert (Projected(earlier) + [point])[..|Projected(earlier)|] == Projected(earlier);
      }
    }
  }

  lemma NothingYet()
    ensures Seen(INITIAL) == EMPTY
  {
  }

  // ---------------------------------------------------------------- what jobs say, in the whole system

  lemma CreatedRows(w: World, job: JobId, steps: map<StepId, Work>)
    ensures var rows := CreateNext(w, job, steps).rows;
            forall id | id in w.rows :: id in rows && rows[id] == w.rows[id]
  {
  }

  /** While all of a job's steps are completed it gets no others, and none of their rows changes. */
  lemma DoneJobsAreOver(w: World, a: WorldAction, job: JobId)
    requires Truthful(w) && job in w.jobs && AllDone(w.rows, job)
    ensures var w' := WorldNext(w, a);
            && job in w'.jobs && StepsOf(w'.rows, job) == DoneOf(w'.rows, job) == StepsOf(w.rows, job)
            && forall id | id in StepsOf(w.rows, job) :: id in w'.rows && w'.rows[id] == w.rows[id]
  {
    hide RowNext, LoadNext, TallyNext, StoreNext;
    match a
    case CreateJob(other, steps) =>
      if CanCreate(w, other, steps) {
        CreateKeepsTallies(w, other, steps);
        CreatedRows(w, other, steps);
      }
    case OnStep(id, op) =>
      if id in w.rows {
        RowKeepsCompleted(w.rows[id], op);
        TallyAfter(w.rows, id, op, job);
        assert id in StepsOf(w.rows, job) ==> id in DoneOf(w.rows, job);
      }
    case LoadJob(t, now) => RollUpsKeepTables(w, t, now);
    case TallySteps(t, now) => RollUpsKeepTables(w, t, now);
    case StoreJob(t) => RollUpsKeepTables(w, t, 0);
  }

  lemma RollUpsKeepTables(w: World, t: Ticket, now: Time)
    ensures LoadNext(w, t, now).rows == TallyNext(w, t, now).rows == StoreNext(w, t).rows == w.rows
    ensures LoadNext(w, t, now).jobs.Keys == TallyNext(w, t, now).jobs.Keys == StoreNext(w, t).jobs.Keys == w.jobs.Keys
  {
    hide Started, Failing, Tallied, Merge, StepsOf, DoneOf;
  }

  /**
    A job that says completed at any moment of a run has only completed steps, it never gets others, and none of
    their rows changes in any field from then on.
   */
  lemma {:induction false} CompletedJobsAreOver(actions: seq<SystemAction>, n: nat, job: JobId)
    requires n <= |actions| && Says(Seen(SystemRun(actions[..n])), job, JobCompleted)
    ensures var before, after := Seen(SystemRun(actions[..n])).rows, Seen(SystemRun(actions));
            && job in after.jobs && AllDone(before, job) && AllDone(after.rows, job)
            && StepsOf(after.rows, job) == StepsOf(before, job)
            && forall id | id in StepsOf(before, job) :: after.rows[id] == before[id]
    decreases |actions|
  {
    if n == |actions| {
      assert actions[..n] == actions;
      TruthfulSystem(actions);
    } else {
      var last := |actions| - 1;
      assert actions[..last][..n] == actions[..n];
      CompletedJobsAreOver(actions[..last], n, job);
      NextSystem(actions);
      TruthfulSystem(actions[..last]);
      var s := SystemRun(actions[..last]);
      if PointIn(s, actions[last]).Some? {
        DoneJobsAreOver(Seen(s), PointIn(s, actions[last]).value, job);
      }
    }
  }

  lemma TruthfulSystem(actions: seq<SystemAction>)
    ensures Truthful(Seen(SystemRun(actions)))
  {
    SystemIsWorld(actions);
    CompletedJobsAreDone(Projected(actions));
  }

  lemma NextSystem(actions: seq<SystemAction>)
    requires actions != []
    ensures var last := |actions| - 1; Seen(SystemRun(actions)) == SeenNext(SystemRun(actions[..last]), actions[last])
  {
    hide SystemNext, SeenNext, Seen;
    SystemIsWorld(actions[..|actions| - 1]);
    EveryStepIsFenced(actions[..|actions| - 1]);
    SystemStep(SystemRun(actions[..|actions| - 1]), actions[|actions| - 1]);
  }

  /**
    In any run of the whole system that ends with all of a job's steps completed and none of its roll-ups left, the
    job fails to say so if and only if some store undid its completion and no later store restored it.
   */
  lemma JobsLoseCompletionExactly(actions: seq<SystemAction>, job: JobId)
    requires var w := Seen(SystemRun(actions)); job in w.jobs && AllDone(w.rows, job) && Quiet(w, job)
    ensures !Says(Seen(SystemRun(actions)), job, JobCompleted) <==>
            exists i :: LostAt(Projected(actions), i, job, JobCompleted)
  {
    SystemIsWorld(actions);
    CompletionIsLostExactly(Projected(actions), job);
  }

  /**
    In any run of the whole system that ends with the only step of a job failed and none of its roll-ups left, the job
    fails to say so if and only if the step ran out of retries, or some store undid the job's failure and no later
    store restored it.
   */
  lemma JobsLoseFailureExactly(actions: seq<SystemAction>, id: StepId, job: JobId)
    requires var w := Seen(SystemRun(actions));
             IsOnlyStep(w, id, job) && Quiet(w, job) && id in w.rows && w.rows[id].status == Failed
    ensures !Says(Seen(SystemRun(actions)), job, JobFailed) <==>
            || Seen(SystemRun(actions)).rows[id].assignedNode.None?
            || exists i :: LostAt(Projected(actions), i, job, JobFailed)
  {
    SystemIsWorld(actions);
    FailureIsLostExactly(Projected(actions), id, job);
  }

  // ---------------------------------------------------------------- histories and claims, in the whole system

  /** In every reachable state, each column of each step's row is what the history of that step says. */
  lemma EveryRowIsItsHistory(actions: seq<SystemAction>, id: StepId)
    requires id in SystemRun(actions).cells
    ensures var c := SystemRun(actions).cells[id]; Recorded(c.row, c.history, c.row.work)
  {
    StepsAreIndependent(actions, id);
    var Born(work, own) := LifeOf(actions, id);
    RowIsItsHistory(work, own);
  }

  /**
    In every reachable state, the row claim-next selects for a node is one that was assigned to it no later than any
    other row it could claim, by the times of the assignments in the histories.
   */
  lemma FirstAssignedIsSelected(actions: seq<SystemAction>, node: NodeId, id: StepId, other: StepId)
    requires IsOldestClaimable(Seen(SystemRun(actions)).rows, id, node)
    requires other in SystemRun(actions).cells && Claimable(SystemRun(actions).cells[other].row, node)
    ensures id in SystemRun(actions).cells
    ensures forall e, f | && e in SystemRun(actions).cells[id].history && e.Issued?
                          && e.epoch == SystemRun(actions).cells[id].row.epoch
                          && f in SystemRun(actions).cells[other].history && f.Issued?
                          && f.epoch == SystemRun(actions).cells[other].row.epoch ::
              e.node == f.node == node && e.at <= f.at
  {
    IssueOfHeld(actions, id);
    IssueOfHeld(actions, other);
    hide SystemRun, Seen;
    var s := SystemRun(actions);
    SeenRows(s, id);
    SeenRows(s, other);
  }

  lemma SeenRows(s: State, id: StepId)
    ensures id in Seen(s).rows <==> id in s.cells
    ensures id in s.cells ==> Seen(s).rows[id] == s.cells[id].row
  {
  }

  lemma IssueOfHeld(actions: seq<SystemAction>, id: StepId)
    ensures id in SystemRun(actions).cells && SystemRun(actions).cells[id].row.Held() ==>
              var c := SystemRun(actions).cells[id];
              && c.row.assignedNode.Some? && c.row.assignedAt.Some?
              && forall e | e in c.history && e.Issued? && e.epoch == c.row.epoch ::
                   e == Issued(c.row.epoch, c.row.assignedNode.value, c.row.assignedAt.value)
  {
    if id in SystemRun(actions).cells {
      StepsAreIndependent(actions, id);
      var Born(work, own) := LifeOf(actions, id);
      HeldSinceIssue(work, own);
    }
  }
}
