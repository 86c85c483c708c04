/**
  The worker: polls the Controller, claims a step at a time and executes it over a transport that may lose
  a request before the Controller sees it, or its answer after the Controller has committed.
 */
module Worker {
  import opened Wrappers
  import opened StateMachine
  import opened Lifecycle
  import opened Policies
  import opened Scheduling
  import opened Rollup
  import opened JobProgress
  import opened Controllers
  import opened Heartbeat

  // ---------------------------------------------------------------- the transport

  datatype Delivery = Delivered | RequestLost | AnswerLost

  /** One call of the worker: what runs on the Controller before it and during it, and how it is delivered. */
  datatype Leg = Leg(delivery: Delivery, before: seq<Whole>, during: seq<Whole>)

  const CLEAN := Leg(Delivered, [], [])

  /**
    What one call can have done: `applied` says that the Controller committed it, `raised` that the worker
    got an exception instead of an answer. A step that had ended is left alone.
   */
  predicate Sent(before: World, after: World, id: StepId, req: Request, leg: Leg, now: Time, raised: bool, applied: bool) {
    && (raised <==> !applied || leg.delivery == AnswerLost) && (leg.delivery == RequestLost ==> !applied)
    && (id in before.rows ==> id in after.rows)
    && (id in before.rows && before.rows[id].Terminal() ==> !applied && after.rows[id] == before.rows[id])
    && (applied ==> id in after.rows)
    && (applied && Target(req.op).Some? ==> after.rows[id].status == Target(req.op).value)
    && (applied && req.op.Complete? ==> after.rows[id].output == Some(req.op.result))
    && (applied && req.op.Fail? ==> after.rows[id].error == Some(req.op.reason))
    && (leg == CLEAN ==> Undisturbed(before, after, id, req, now, applied))
  }

  /** A call with nothing before it or during it has exactly the atomic handler's effect, and none if that refuses. */
  predicate Undisturbed(before: World, after: World, id: StepId, req: Request, now: Time, applied: bool) {
    && after == WholeNext(before, Do(id, Handle(0, req, now), now))
    && (applied <==> id in before.rows && Handled(before.rows[id], req, now).Ok?)
    && (applied ==> after.rows == before.rows[id := Handled(before.rows[id], req, now).value])
    && (!applied ==> after == before)
  }

  method Post(ctrl: Controller, id: StepId, req: Request, leg: Leg, now: Time) returns (raised: bool, applied: bool)
    modifies ctrl`steps, ctrl`jobs
    ensures Sent(old(ctrl.View()), ctrl.View(), id, req, leg, now, raised, applied)
  {
    ghost var before := ctrl.View();
    ctrl.Elapse(leg.before);
    ghost var arrived := ctrl.View();
    if leg.delivery == RequestLost {
      OvertakenCall(before, leg, id);
      return true, false;
    }
    var r: Result<StepRow, Refusal>;
    match req.op {
      case Start => r := ctrl.StartStep(id, req.node, req.epoch, leg.during, now);
      case Progress(percent, message) =>
        r := ctrl.ProgressStep(id, req.node, req.epoch, percent, message, leg.during, now);
      case Complete(result) => r := ctrl.CompleteStep(id, req.node, req.epoch, result, leg.during, now);
      case Fail(reason) => r := ctrl.FailStep(id, req.node, req.epoch, reason, leg.during, now);
      case Claim => r := ctrl.ClaimStep(id, req.node, req.epoch, leg.during, now);
    }
    raised, applied := r.Err? || leg.delivery == AnswerLost, r.Ok?;
    AnsweredCall(before, arrived, ctrl, id, req, leg, now, r);
  }

  lemma OvertakenCall(before: World, leg: Leg, id: StepId)
    requires before.due == map[]
    ensures id in before.rows ==> id in Elapsed(before, leg.before).rows
    ensures id in before.rows && before.rows[id].Terminal() ==> Elapsed(before, leg.before).rows[id] == before.rows[id]
  {
    if id in before.rows {
      FollowsItself(before.rows[id]);
      ElapsedKeepsRow(before, leg.before, id, before.rows[id]);
    }
  }

  lemma AnsweredCall(before: World, arrived: World, ctrl: Controller, id: StepId, req: Request, leg: Leg, now: Time,
                     r: Result<StepRow, Refusal>)
    requires before.due == map[] && arrived == Elapsed(before, leg.before)
    requires leg.delivery != RequestLost
    requires ctrl.Answered(arrived, id, req, leg.during, now, r)
    ensures Sent(before, ctrl.View(), id, req, leg, now, r.Err? || leg.delivery == AnswerLost, r.Ok?)
  {
    hide RolledJobs, Follows, StepNext, LoadNext, TallyNext, StoreNext;
    hide Undisturbed;
    OvertakenCall(before, leg, id);
    ElapsedHasNothingDue(before, leg.before);
    if leg == CLEAN {
      UndisturbedCall(before, ctrl, id, req, now, r);
    }
    if id in arrived.rows && Validate(arrived.rows[id], req).None? {
      var instant := Elapsed(arrived, leg.during);
      FollowsItself(arrived.rows[id]);
      ElapsedKeepsRow(arrived, leg.during, id, arrived.rows[id]);
      WholeEffect(instant, id, Handle(0, req, now), now);
      EndedRowsRefuse(instant.rows[id], req, now);
      HandledReachesTarget(instant.rows[id], req, now);
    }
  }

  lemma UndisturbedCall(before: World, ctrl: Controller, id: StepId, req: Request, now: Time, r: Result<StepRow, Refusal>)
    requires before.due == map[] && ctrl.Answered(before, id, req, [], now, r)
    ensures Undisturbed(before, ctrl.View(), id, req, now, r.Ok?)
  {
    hide RolledJobs, Validate, Persist, StepNext, LoadNext, TallyNext, StoreNext;
    if id in before.rows {
      WholeEffect(before, id, Handle(0, req, now), now);
      assert before.rows[id := before.rows[id]] == before.rows;
    } else {
      UnknownStep(before, id, Handle(0, req, now), now);
    }
  }

  lemma EndedRowsRefuse(row: StepRow, req: Request, now: Time)
    ensures row.Terminal() ==> Handled(row, req, now).Err?
  {
  }

  lemma HandledReachesTarget(row: StepRow, req: Request, now: Time)
    ensures var r := Handled(row, req, now);
            && (r.Ok? && Target(req.op).Some? ==> r.value.status == Target(req.op).value)
            && (r.Ok? && req.op.Complete? ==> r.value.output == Some(req.op.result))
            && (r.Ok? && req.op.Fail? ==> r.value.error == Some(req.op.reason))
  {
  }

  // ---------------------------------------------------------------- one claimed step

  /** How the step runner ends: with an output, with an output that reports a failure, or with an exception. */
  datatype Outcome =
    | Produced(output: JsonObject)
    | ReportedFailure(message: string)
    | Raised(message: string)

  /** The calls of one attempt. */
  datatype Link = Link(start: Leg, report: Leg, fallback: Leg)

  const CLEAN_LINK := Link(CLEAN, CLEAN, CLEAN)
  const TRANSPORT_ERROR := "Controller request failed"

  /** The start was committed; it returned, so the runner ran; the report raised; what was committed in the end. */
  datatype Attempt = Attempt(started: bool, ran: bool, reportRaised: bool, completions: nat, failures: nat)

  /** The step ended as its runner did: with the output, or with the message of the failure. */
  predicate EndsAs(row: StepRow, outcome: Outcome) {
    match outcome
    case Produced(output) => row.status == Completed && row.output == Some(output)
    case ReportedFailure(message) => row.status == Failed && row.error == Some(message)
    case Raised(message) => row.status == Failed && row.error == Some(message)
  }

  /**
    What the reports of an attempt amount to. At most one took effect, and the step has ended accordingly. A
    completion kept the output of a runner that really ran. A failure carries the runner's own message, or that of a
    call that raised; so if the runner produced an output, a failure means that the start or the report raised.
    If neither did, the report took effect.
   */
  predicate Accounted(w: World, id: StepId, outcome: Outcome, a: Attempt) {
    var raised := !a.ran || a.reportRaised;
    && a.completions + a.failures <= 1
    && (a.ran ==> a.started)
    && (a.completions + a.failures == 1 ==> id in w.rows)
    && (a.completions == 1 ==> a.ran && outcome.Produced? && EndsAs(w.rows[id], outcome))
    && (a.failures == 1 ==>
          && w.rows[id].status == Failed
          && ((!outcome.Produced? && EndsAs(w.rows[id], outcome)) || (raised && w.rows[id].error == Some(TRANSPORT_ERROR))))
    && (!raised && outcome.Produced? ==> a.completions == 1)
    && (!raised && outcome.ReportedFailure? ==> a.failures == 1)
  }

  /** An exception left the try block: a call raised, or the runner did. */
  predicate Caught(outcome: Outcome, a: Attempt) {
    !a.ran || a.reportRaised || outcome.Raised?
  }

  /** A clean attempt at a startable step: one report, and the step ended as the runner did. */
  predicate CleanAttempt(row: StepRow, outcome: Outcome, a: Attempt) {
    && EndsAs(row, outcome)
    && a.completions == (if outcome.Produced? then 1 else 0) && a.failures == (if outcome.Produced? then 0 else 1)
  }

  /** A step that had ended is not run, reported or changed. */
  predicate LeftAlone(before: World, after: World, id: StepId, a: Attempt) {
    id in before.rows && before.rows[id].Terminal() ==>
      !a.started && a.completions + a.failures == 0 && id in after.rows && after.rows[id] == before.rows[id]
  }

  /** The body of the try block: start, run, report. An exception leaves with its message. */
  method AttemptStep(ctrl: Controller, node: NodeId, id: StepId, epoch: int, outcome: Outcome, link: Link, now: Time)
    returns (a: Attempt, raised: Option<string>)
    modifies ctrl`steps, ctrl`jobs
    ensures Accounted(ctrl.View(), id, outcome, a) && LeftAlone(old(ctrl.View()), ctrl.View(), id, a)
    ensures raised.None? <==> a.ran && !a.reportRaised && !outcome.Raised?
    ensures raised.Some? ==> raised == Some(if outcome.Raised? && a.ran then outcome.message else TRANSPORT_ERROR)
    ensures outcome.Raised? ==> a.completions + a.failures == 0 && !a.reportRaised
    ensures link == CLEAN_LINK && id in old(ctrl.steps) && Startable(old(ctrl.steps)[id], node, epoch) ==>
              && id in ctrl.steps && ctrl.steps == old(ctrl.steps)[id := ctrl.steps[id]]
              && a.ran && !a.reportRaised
              && if outcome.Raised?
                 then Reportable(ctrl.steps[id], node, epoch)
                 else CleanAttempt(ctrl.steps[id], outcome, a)
  {
    hide Handled;
    ghost var row := if id in ctrl.steps then Some(ctrl.steps[id]) else None;
    if row.Some? && Startable(row.value, node, epoch) {
      StartableRuns(row.value, node, epoch, now);
    }
    var lost, applied := Post(ctrl, id, Request(node, epoch, Start), link.start, now);
    if lost {
      return Attempt(applied, false, false, 0, 0), Some(TRANSPORT_ERROR);
    }
    if outcome.Raised? {
      return Attempt(applied, true, false, 0, 0), Some(outcome.message);
    }
    var report := if outcome.Produced? then Complete(outcome.output) else Fail(outcome.message);
    if id in ctrl.steps && Reportable(ctrl.steps[id], node, epoch) {
      ReportableEnds(ctrl.steps[id], node, epoch, report, now);
    }
    lost, applied := Post(ctrl, id, Request(node, epoch, report), link.report, now);
    var count := if applied then 1 else 0;
    a := if outcome.Produced? then Attempt(true, true, lost, count, 0) else Attempt(true, true, lost, 0, count);
    raised := if lost then Some(TRANSPORT_ERROR) else None;
  }

  /**
    Starts the step, runs it and reports; any exception on the way becomes a failure report, and an exception
    in that one ends the worker. Whatever the transport loses and whatever else happens on the Controller, at
    most one report takes effect, a completion that took effect stays, the runner runs only after a start that took
    effect, and a runner's output becomes a failure only if a call raised.
   */
  method ExecuteClaimedStep(ctrl: Controller, node: NodeId, id: StepId, epoch: int, outcome: Outcome, link: Link, now: Time)
    returns (a: Attempt, crashed: bool)
    modifies ctrl`steps, ctrl`jobs
    ensures Accounted(ctrl.View(), id, outcome, a) && LeftAlone(old(ctrl.View()), ctrl.View(), id, a)
    ensures crashed ==> Caught(outcome, a)
    ensures Caught(outcome, a) && !crashed ==> a.failures == 1
    ensures Caught(outcome, a) && link.fallback.delivery != Delivered ==> crashed
    ensures link == CLEAN_LINK && id in old(ctrl.steps) && Startable(old(ctrl.steps)[id], node, epoch) ==>
              && !crashed && id in ctrl.steps && ctrl.steps == old(ctrl.steps)[id := ctrl.steps[id]]
              && CleanAttempt(ctrl.steps[id], outcome, a)
  {
    hide Handled;
    var raised: Option<string>;
    a, raised := AttemptStep(ctrl, node, id, epoch, outcome, link, now);
    if raised.None? {
      return a, false;
    }
    if id in ctrl.steps && Reportable(ctrl.steps[id], node, epoch) {
      ReportableEnds(ctrl.steps[id], node, epoch, Fail(raised.value), now);
    }
    var lost, applied := Post(ctrl, id, Request(node, epoch, Fail(raised.value)), link.fallback, now);
    a := a.(failures := a.failures + if applied then 1 else 0);
    crashed := lost;
  }

  predicate Reportable(row: StepRow, node: NodeId, epoch: int) {
    row.status == Running && row.assignedNode == Some(node) && row.epoch == epoch
  }

  predicate Startable(row: StepRow, node: NodeId, epoch: int) {
    row.status == Assigned && row.assignedNode == Some(node) && row.epoch == epoch
  }

  lemma StartableRuns(row: StepRow, node: NodeId, epoch: int, now: Time)
    requires Startable(row, node, epoch)
    ensures var started := Handled(row, Request(node, epoch, Start), now);
            started.Ok? && Reportable(started.value, node, epoch)
  {
  }

  lemma ReportableEnds(row: StepRow, node: NodeId, epoch: int, report: Op, now: Time)
    requires Reportable(row, node, epoch) && (report.Complete? || report.Fail?)
    ensures Handled(row, Request(node, epoch, report), now).Ok?
  {
  }

  // ---------------------------------------------------------------- the polling loop

  datatype WorkerConfig = WorkerConfig(
    nodeId: NodeId,
    nodeName: string,
    host: Option<string>,
    sharedRoot: string,
    maxFfmpegJobs: int,
    maxWhisperJobs: int,
    pollOnce: bool,
    maxPolls: Option<int>,
    executeClaimedSteps: bool)

  datatype ClaimedStep = ClaimedStep(id: StepId, row: StepRow)

  type Runner = (StepId, StepRow) -> Outcome

  /** The steps that have not ended. */
  function Open(rows: Rows): set<StepId> {
    set id | id in rows && !rows[id].Terminal()
  }

  /** The metrics pass every hard filter for the work. */
  predicate Healthy(m: Metrics, work: Work, config: SchedulerConfig) {
    && m.cpuPercent <= config.maxCpuPercent && m.memoryPercent <= config.maxMemoryPercent
    && m.freeDiskGb >= config.minFreeDiskGb && m.thermalState !in {"serious", "critical"}
    && (m.onBattery ==> work.estimatedRuntimeMinutes <= config.maxRuntimeOnBatteryMinutes as real)
  }

  ghost predicate AlwaysHealthy(metrics: nat -> Metrics, work: Work, config: SchedulerConfig) {
    forall turn :: Healthy(metrics(turn), work, config)
  }

  /** A step this node can bring to its end: ended, or generic, allowed here, unclaimed, and queued or assigned here. */
  ghost predicate Drainable(row: StepRow, node: NodeId, metrics: nat -> Metrics, config: SchedulerConfig) {
    || row.Terminal()
    || (&& IsGenericStep(row.work) && node !in row.work.avoidNodes && AlwaysHealthy(metrics, row.work, config)
        && row.claimedAt.None? && (row.status == Queued || (row.status == Assigned && row.assignedNode == Some(node))))
  }

  /** No other node is online, and this one can bring every step to its end. */
  ghost predicate CanDrain(rows: Rows, nodes: map<NodeId, NodeRow>, node: NodeId, metrics: nat -> Metrics, config: SchedulerConfig) {
    && config.heartbeatTimeoutSeconds >= 0
    && (forall n | n in nodes && n != node :: nodes[n].info.status != Online)
    && (forall id | id in rows :: Drainable(rows[id], node, metrics, config))
  }

  ghost predicate Ready(rows: Rows, nodes: map<NodeId, NodeRow>, node: NodeId, metrics: nat -> Metrics, config: SchedulerConfig) {
    && CanDrain(rows, nodes, node, metrics, config)
    && node in nodes && nodes[node].info.status == Online && nodes[node].info.sharedRoot == config.sharedRoot
  }

  /** Rows of steps that had ended do not change. */
  predicate EndedStay(before: Rows, after: Rows) {
    forall id | id in before && before[id].Terminal() :: id in after && after[id] == before[id]
  }

  lemma EndedStayAtFirst(rows: Rows)
    ensures EndedStay(rows, rows)
  {
  }

  lemma EndedStayOn(a: Rows, b: Rows, c: Rows)
    requires EndedStay(a, b) && EndedStay(b, c)
    ensures EndedStay(a, c)
  {
  }

  /** After a heartbeat with healthy metrics, nothing is queued and nothing else about the steps has changed. */
  lemma HeartbeatHandsOutAll(rows: Rows, nodes: map<NodeId, NodeRow>, rows': Rows, nodes': map<NodeId, NodeRow>,
                             queue: seq<StepId>, order: seq<NodeId>, node: NodeId,
                             metrics: nat -> Metrics, turn: nat, config: SchedulerConfig, now: Time)
    requires Keyed(nodes) && Ready(rows, nodes, node, metrics, config)
    requires Scheduled(rows, nodes[node := Beaten(nodes[node], metrics(turn), now)], rows', nodes', queue, order, config, now)
    ensures Ready(rows', nodes', node, metrics, config) && Open(rows') == Open(rows)
    ensures NoneQueued(rows') && EndedStay(rows, rows')
  {
    hide Pass, Judge, IsGenericStep, Open;
    var m := metrics(turn);
    var beaten := nodes[node := Beaten(nodes[node], m, now)];
    assert node in order;
    var k :| 0 <= k < |order| && order[k] == node;
    var taken, all := RowsAt(rows, queue), NodesAt(beaten, order);
    assert OnlyTaker(taken, all, k, config, now) by {
      forall i | 0 <= i < |taken|
        ensures taken[i].status == Queued && IsGenericStep(taken[i].work) &&
                IsNodeEligible(taken[i].work, all[k], config, now)
      {
        assert queue[i] in queue && AlwaysHealthy(metrics, taken[i].work, config);
        BeatenIsEligible(taken[i].work, nodes[node], m, config, now);
      }
    }
    OnlyTakerTakesAll(taken, all, k, config, now);
    PassInfos(taken, all, config, now);
    forall id | id in rows
      ensures rows'[id] == if rows[id].status == Queued then AssignedRow(rows[id], node, now) else rows[id]
    {
      if id in queue {
        var i :| 0 <= i < |queue| && queue[i] == id;
        assert RowsAt(rows', queue)[i] == rows'[id] && taken[i] == rows[id];
      }
    }
    forall n | n in nodes' ensures nodes'[n].info == beaten[n].info {
      assert n in order;
      var i :| 0 <= i < |order| && order[i] == n;
      assert NodesAt(nodes', order)[i] == nodes'[n] && all[i] == beaten[n];
    }
    HandedOut(rows, rows', nodes, nodes', node, metrics, m, config, now);
  }

  lemma HandedOut(rows: Rows, rows': Rows, nodes: map<NodeId, NodeRow>, nodes': map<NodeId, NodeRow>, node: NodeId,
                  metrics: nat -> Metrics, m: Metrics, config: SchedulerConfig, now: Time)
    requires Ready(rows, nodes, node, metrics, config) && rows'.Keys == rows.Keys && nodes'.Keys == nodes.Keys
    requires forall id | id in rows ::
               rows'[id] == if rows[id].status == Queued then AssignedRow(rows[id], node, now) else rows[id]
    requires forall n | n in nodes' :: nodes'[n].info == nodes[node := Beaten(nodes[node], m, now)][n].info
    ensures Ready(rows', nodes', node, metrics, config) && Open(rows') == Open(rows)
    ensures NoneQueued(rows') && EndedStay(rows, rows')
  {
    forall id | id in rows'
      ensures Drainable(rows'[id], node, metrics, config) && rows'[id].status != Queued
      ensures rows'[id].Terminal() == rows[id].Terminal()
    {
      assert Drainable(rows[id], node, metrics, config);
    }
    hide Drainable;
  }

  lemma BeatenIsEligible(work: Work, row: NodeRow, m: Metrics, config: SchedulerConfig, now: Time)
    requires config.heartbeatTimeoutSeconds >= 0 && row.info.status == Online && row.info.sharedRoot == config.sharedRoot
    requires IsGenericStep(work) && row.info.id !in work.avoidNodes && Healthy(m, work, config)
    ensures IsNodeEligible(work, Beaten(row, m, now), config, now)
  {
  }

  predicate NoneQueued(rows: Rows) {
    forall id | id in rows :: rows[id].status != Queued
  }

  /** With nothing left to claim, every step has ended. */
  lemma NothingToClaim(rows: Rows, nodes: map<NodeId, NodeRow>, node: NodeId, metrics: nat -> Metrics,
                       config: SchedulerConfig)
    requires Ready(rows, nodes, node, metrics, config) && NoneQueued(rows)
    ensures Open(rows) == {} <==> forall id | id in rows :: !Claimable(rows[id], node)
  {
    forall id | id in rows ensures id in Open(rows) <==> Claimable(rows[id], node) {
      assert Drainable(rows[id], node, metrics, config);
    }
  }

  /** Bringing one claimable step to its end takes exactly that step off the open ones. */
  lemma EndedOne(rows: Rows, rows': Rows, id: StepId, nodes: map<NodeId, NodeRow>, node: NodeId,
                 metrics: nat -> Metrics, config: SchedulerConfig)
    requires Ready(rows, nodes, node, metrics, config) && id in rows && Claimable(rows[id], node)
    requires id in rows' && rows' == rows[id := rows'[id]] && rows'[id].Terminal()
    ensures Ready(rows', nodes, node, metrics, config)
    ensures id in Open(rows) && Open(rows') == Open(rows) - {id} && EndedStay(rows, rows')
  {
  }

  /** One turn of a healthy worker: it ends one open step, the one it claims, or finds that there is none. */
  predicate Progressed(before: set<StepId>, claimed: Option<ClaimedStep>, after: set<StepId>) {
    match claimed
    case None => before == {} == after
    case Some(c) => c.id in before && after == before - {c.id}
  }

  lemma EndedAsRun(row: StepRow, outcome: Outcome)
    requires EndsAs(row, outcome)
    ensures row.Terminal()
  {
  }

  lemma ClaimedStay(before: Rows, after: Rows, claimed: seq<ClaimedStep>, node: NodeId, runner: Runner)
    requires EndedStay(before, after) && forall c | c in claimed :: Claimed(before, c, node, runner)
    ensures forall c | c in claimed :: Claimed(after, c, node, runner)
  {
    forall c | c in claimed ensures Claimed(after, c, node, runner) {
      EndedAsRun(before[c.id], runner(c.id, c.row));
    }
  }

  /** The node claimed the step, and it has ended as the runner did on the claimed row. */
  predicate Claimed(rows: Rows, c: ClaimedStep, node: NodeId, runner: Runner) {
    && c.row.status == Assigned && c.row.assignedNode == Some(node) && c.row.claimedAt.Some?
    && c.id in rows && EndsAs(rows[c.id], runner(c.id, c.row))
  }

  /** What registration said about the nodes does not change. */
  predicate RegistrationsStay(before: map<NodeId, NodeRow>, after: map<NodeId, NodeRow>) {
    && after.Keys == before.Keys
    && forall n | n in before ::
         && after[n].info.name == before[n].info.name && after[n].info.host == before[n].info.host
         && after[n].info.status == before[n].info.status && after[n].info.sharedRoot == before[n].info.sharedRoot
         && after[n].info.maxFfmpegJobs == before[n].info.maxFfmpegJobs
         && after[n].info.maxWhisperJobs == before[n].info.maxWhisperJobs
  }

  lemma HeartbeatKeepsRegistrations(rows: Rows, nodes: map<NodeId, NodeRow>, rows': Rows, nodes': map<NodeId, NodeRow>,
                                    queue: seq<StepId>, order: seq<NodeId>, id: NodeId, m: Metrics,
                                    config: SchedulerConfig, now: Time)
    requires id in nodes
    requires Scheduled(rows, nodes[id := Beaten(nodes[id], m, now)], rows', nodes', queue, order, config, now)
    ensures RegistrationsStay(nodes, nodes')
  {
    hide Pass;
    var beaten := nodes[id := Beaten(nodes[id], m, now)];
    PassInfos(RowsAt(rows, queue), NodesAt(beaten, order), config, now);
    forall n | n in nodes ensures nodes'[n].info == beaten[n].info {
      assert n in order;
      var i :| 0 <= i < |order| && order[i] == n;
      assert NodesAt(nodes', order)[i] == nodes'[n] && NodesAt(beaten, order)[i] == beaten[n];
    }
  }

  lemma RegistrationsStayOn(a: map<NodeId, NodeRow>, b: map<NodeId, NodeRow>, c: map<NodeId, NodeRow>)
    requires RegistrationsStay(a, b) && RegistrationsStay(b, c)
    ensures RegistrationsStay(a, c)
  {
  }

  lemma RegistrationsStayAtFirst(a: map<NodeId, NodeRow>)
    ensures RegistrationsStay(a, a)
  {
  }

  /** One turn of the loop: heartbeat, claim, execute. */
  method Poll(ctrl: Controller, config: WorkerConfig, metrics: nat -> Metrics, turn: nat, runner: Runner, now: Time)
    returns (claimed: Option<ClaimedStep>, crashed: bool)
    requires ctrl.Valid()
    modifies ctrl
    ensures ctrl.Valid()
    ensures RegistrationsStay(old(ctrl.nodes), ctrl.nodes)
    ensures config.nodeId !in old(ctrl.nodes) ==> crashed && ctrl.steps == old(ctrl.steps)
    ensures crashed ==> config.nodeId !in old(ctrl.nodes) || (claimed.Some? && config.executeClaimedSteps)
    ensures config.executeClaimedSteps && old(Ready(ctrl.steps, ctrl.nodes, config.nodeId, metrics, ctrl.config)) ==>
              && !crashed && Ready(ctrl.steps, ctrl.nodes, config.nodeId, metrics, ctrl.config)
              && Progressed(old(Open(ctrl.steps)), claimed, Open(ctrl.steps))
              && EndedStay(old(ctrl.steps), ctrl.steps)
              && (claimed.Some? ==> Claimed(ctrl.steps, claimed.value, config.nodeId, runner))
  {
    hide Open, Drainable, Scheduled, Keyed, Beaten, EndedStay, EndsAs, RegistrationsStay;
    ghost var before, nodes := ctrl.steps, ctrl.nodes;
    ghost var ready := config.executeClaimedSteps && Ready(before, nodes, config.nodeId, metrics, ctrl.config);
    RegistrationsStayAtFirst(nodes);
    var beat, queue, order := ctrl.HeartbeatNode(config.nodeId, metrics(turn), now);
    if beat.Err? {
      return None, true;
    }
    HeartbeatKeepsRegistrations(before, nodes, ctrl.steps, ctrl.nodes, queue, order, config.nodeId, metrics(turn),
                                ctrl.config, now);
    ghost var handed := ctrl.steps;
    if ready {
      HeartbeatHandsOutAll(before, nodes, handed, ctrl.nodes, queue, order, config.nodeId, metrics, turn, ctrl.config, now);
      NothingToClaim(handed, ctrl.nodes, config.nodeId, metrics, ctrl.config);
    }
    hide Ready;
    var next := ctrl.ClaimNext(config.nodeId, config.nodeId, [], now);
    if next.value.None? {
      return None, false;
    }
    var id := next.value.value;
    var row := ctrl.steps[id];
    claimed, crashed := Some(ClaimedStep(id, row)), false;
    if config.executeClaimedSteps {
      var attempt;
      attempt, crashed := ExecuteClaimedStep(ctrl, config.nodeId, id, row.epoch, runner(id, row), CLEAN_LINK, now);
      if ready {
        assert ctrl.steps[id].Terminal() by {
          EndedAsRun(ctrl.steps[id], runner(id, row));
        }
        EndedOne(handed, ctrl.steps, id, ctrl.nodes, config.nodeId, metrics, ctrl.config);
        EndedStayOn(before, handed, ctrl.steps);
      }
    }
  }

  /** The turns after which the loop ends by itself: the limit is looked at after a turn, so there is always one. */
  function Limit(config: WorkerConfig): Option<nat> {
    if config.pollOnce then Some(1)
    else if config.maxPolls.None? then None
    else Some(if config.maxPolls.value < 1 then 1 else config.maxPolls.value)
  }

  /** How many turns a worker takes that is stopped after `lifetime` turns, if it has not ended before. */
  function Turns(config: WorkerConfig, lifetime: nat): nat {
    match Limit(config)
    case None => lifetime
    case Some(limit) => if limit < lifetime then limit else lifetime
  }

  /** One turn with poll_once; the limit otherwise, but at least one; every turn it lives without a limit. */
  lemma TurnsTaken(config: WorkerConfig, lifetime: nat)
    requires lifetime > 0
    ensures config.pollOnce ==> Turns(config, lifetime) == 1
    ensures !config.pollOnce && config.maxPolls.None? ==> Turns(config, lifetime) == lifetime
    ensures !config.pollOnce && config.maxPolls.Some? && config.maxPolls.value < 1 ==> Turns(config, lifetime) == 1
    ensures !config.pollOnce && config.maxPolls.Some? && 1 <= config.maxPolls.value <= lifetime ==>
              Turns(config, lifetime) == config.maxPolls.value
  {
  }

  predicate DistinctClaims(claimed: seq<ClaimedStep>) {
    forall i, j | 0 <= i < j < |claimed| :: claimed[i].id != claimed[j].id
  }

  /** The claims so far took that many different steps off the open ones, one a turn while any were left. */
  predicate Drained(open: set<StepId>, claimed: seq<ClaimedStep>, left: set<StepId>, turns: nat) {
    && DistinctClaims(claimed)
    && (forall c | c in claimed :: c.id in open && c.id !in left)
    && left <= open && |left| == |open| - |claimed|
    && |claimed| <= turns && (|claimed| == turns || left == {})
  }

  lemma DrainedNext(open: set<StepId>, claimed: seq<ClaimedStep>, left: set<StepId>, turns: nat,
                    claim: Option<ClaimedStep>, after: set<StepId>)
    requires Drained(open, claimed, left, turns) && Progressed(left, claim, after)
    ensures Drained(open, if claim.Some? then claimed + [claim.value] else claimed, after, turns + 1)
  {
  }

  /** The node is in the table as the worker's configuration describes it. */
  predicate RegisteredAs(nodes: map<NodeId, NodeRow>, config: WorkerConfig, files: Files) {
    && config.nodeId in nodes
    && var info := nodes[config.nodeId].info;
    && info.name == config.nodeName && info.host == config.host && info.status == Online
    && info.sharedRoot == files.resolve(config.sharedRoot)
    && info.maxFfmpegJobs == config.maxFfmpegJobs && info.maxWhisperJobs == config.maxWhisperJobs
  }

  lemma RegisteredStay(before: map<NodeId, NodeRow>, after: map<NodeId, NodeRow>, config: WorkerConfig, files: Files)
    requires RegisteredAs(before, config, files) && RegistrationsStay(before, after)
    ensures RegisteredAs(after, config, files)
  {
  }

  /** Where the loop begins: registered, with nothing claimed yet. */
  lemma LoopBegins(rows: Rows, nodes: map<NodeId, NodeRow>, nodes': map<NodeId, NodeRow>, node: NodeId,
                   metrics: nat -> Metrics, config: SchedulerConfig)
    requires CanDrain(rows, nodes, node, metrics, config) && node in nodes' && nodes' == nodes[node := nodes'[node]]
    requires nodes'[node].info.status == Online && nodes'[node].info.sharedRoot == config.sharedRoot
    ensures Ready(rows, nodes', node, metrics, config) && Drained(Open(rows), [], Open(rows), 0)
  {
  }

  /** Where it ends. */
  lemma LoopEnds(open: set<StepId>, claimed: seq<ClaimedStep>, left: set<StepId>, turns: nat)
    requires Drained(open, claimed, left, turns)
    ensures DistinctClaims(claimed) && forall c | c in claimed :: c.id in open && c.id !in left
    ensures |claimed| == (if turns < |open| then turns else |open|) && |left| == |open| - |claimed|
  {
  }

  /**
    Registers and polls, until its own limit or, for a worker without one, for as long as it lives. A worker that is
    the only node online, reports healthy metrics and can run every open step drains them: each turn brings one
    more to its end until none is left, every claimed step is a different one and ends as its runner did, and with at
    least as many turns as open steps all end.
   */
  method RunWorker(ctrl: Controller, config: WorkerConfig, files: Files, metrics: nat -> Metrics, clock: nat -> Time,
                   runner: Runner, lifetime: nat)
    returns (claimed: seq<ClaimedStep>, crashed: bool)
    requires ctrl.Valid()
    modifies ctrl
    ensures ctrl.Valid()
    ensures ValidateSharedRoot(files, config.sharedRoot, ctrl.config.sharedRoot).Err? ==>
              crashed && claimed == [] && ctrl.steps == old(ctrl.steps) && ctrl.nodes == old(ctrl.nodes)
    ensures ValidateSharedRoot(files, config.sharedRoot, ctrl.config.sharedRoot).Ok? ==>
              RegisteredAs(ctrl.nodes, config, files)
    ensures config.executeClaimedSteps &&
            ValidateSharedRoot(files, config.sharedRoot, ctrl.config.sharedRoot) == Ok(ctrl.config.sharedRoot) &&
            CanDrain(old(ctrl.steps), old(ctrl.nodes), config.nodeId, metrics, ctrl.config) ==>
              var open, turns := old(Open(ctrl.steps)), Turns(config, lifetime);
              && !crashed && DistinctClaims(claimed)
              && (forall c | c in claimed :: c.id in open && c.id !in Open(ctrl.steps))
              && |claimed| == (if turns < |open| then turns else |open|)
              && |Open(ctrl.steps)| == |open| - |claimed|
              && (forall c | c in claimed :: Claimed(ctrl.steps, c, config.nodeId, runner))
              && EndedStay(old(ctrl.steps), ctrl.steps)
  {
    hide Ready, CanDrain, Drained, Open, DistinctClaims, Keyed, Progressed, NewNode, Claimed, EndedStay, RegistrationsStay;
    ghost var open := Open(ctrl.steps);
    ghost var able := config.executeClaimedSteps &&
                      ValidateSharedRoot(files, config.sharedRoot, ctrl.config.sharedRoot) == Ok(ctrl.config.sharedRoot) &&
                      CanDrain(ctrl.steps, ctrl.nodes, config.nodeId, metrics, ctrl.config);
    ghost var nodes, before := ctrl.nodes, ctrl.steps;
    var registered := ctrl.RegisterNode(config.nodeId, config.nodeName, config.host, config.sharedRoot,
                                        config.maxFfmpegJobs, config.maxWhisperJobs, files);
    claimed, crashed := [], registered.Err?;
    if registered.Err? {
      return;
    }
    if able {
      LoopBegins(ctrl.steps, nodes, ctrl.nodes, config.nodeId, metrics, ctrl.config);
      assert EndedStay(before, ctrl.steps) by {
        EndedStayAtFirst(before);
      }
    }
    assert RegisteredAs(ctrl.nodes, config, files);
    hide ValidateSharedRoot, RegisteredAs;
    var polls := 0;
    while true
      invariant ctrl.Valid() && 0 <= polls <= lifetime && (Limit(config).Some? ==> polls < Limit(config).value)
      invariant able ==> Ready(ctrl.steps, ctrl.nodes, config.nodeId, metrics, ctrl.config)
      invariant able ==> Drained(open, claimed, Open(ctrl.steps), polls)
      invariant able ==> EndedStay(before, ctrl.steps)
      invariant able ==> forall c | c in claimed :: Claimed(ctrl.steps, c, config.nodeId, runner)
      invariant !crashed && RegisteredAs(ctrl.nodes, config, files)
      decreases lifetime - polls
    {
      if polls == lifetime {
        break;
      }
      ghost var left, steps, table := Open(ctrl.steps), ctrl.steps, ctrl.nodes;
      var claim;
      claim, crashed := Poll(ctrl, config, metrics, polls, runner, clock(polls));
      RegisteredStay(table, ctrl.nodes, config, files);
      if crashed {
        return;
      }
      if able {
        DrainedNext(open, claimed, left, polls, claim, Open(ctrl.steps));
        ClaimedStay(steps, ctrl.steps, claimed, config.nodeId, runner);
        EndedStayOn(before, steps, ctrl.steps);
      }
      if claim.Some? {
        claimed := claimed + [claim.value];
      }
      polls := polls + 1;
      if config.pollOnce || (config.maxPolls.Some? && polls >= config.maxPolls.value) {
        break;
      }
    }
    if able {
      LoopEnds(open, claimed, Open(ctrl.steps), polls);
    }
  }
}
