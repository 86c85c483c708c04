/**
  The Controller's request handlers over its tables.

  A lifecycle handler reads a row, lets any schedule of other handlers run (`meanwhile`), and only then
  issues its guarded update. Each handler is proved against the atomic handler at the commit instant.
 */
module Controllers {
  import opened Wrappers
  import opened StateMachine
  import opened Lifecycle
  import opened Policies
  import opened Ordering
  import opened Scoring
  import opened Scheduling
  import opened Rollup
  import opened JobProgress

  // ---------------------------------------------------------------- time passing

  function Elapsed(w: World, meanwhile: seq<Whole>): World {
    if meanwhile == [] then w else WholeNext(Elapsed(w, meanwhile[..|meanwhile| - 1]), meanwhile[|meanwhile| - 1])
  }

  lemma WholeKeepsRow(w: World, a: Whole, id: StepId, seen: StepRow)
    requires w.due == map[] && id in w.rows && Follows(seen, w.rows[id])
    ensures var w' := WholeNext(w, a);
            && w'.due == map[] && id in w'.rows && Follows(seen, w'.rows[id])
            && (w.rows[id].Terminal() ==> w'.rows[id] == w.rows[id])
  {
    hide RowNext, RolledJobs, StepNext, LoadNext, TallyNext, StoreNext, Follows;
    match a
    case NewJob(_, _) =>
    case Do(x, op, now) =>
      if x in w.rows {
        WholeEffect(w, x, op, now);
        FollowsStep(seen, w.rows[id], op);
        TerminalRowStays(w.rows[id], op);
      } else {
        UnknownStep(w, x, op, now);
      }
  }

  lemma TerminalRowStays(row: StepRow, op: AtomicOp)
    ensures row.Terminal() ==> RowNext(row, op) == row
  {
  }

  /** Whatever runs meanwhile, a row that was read is still there, follows what was read, and has not moved if it had ended. */
  lemma {:induction false} ElapsedKeepsRow(w: World, meanwhile: seq<Whole>, id: StepId, seen: StepRow)
    requires w.due == map[] && id in w.rows && Follows(seen, w.rows[id])
    ensures var w' := Elapsed(w, meanwhile);
            && w'.due == map[] && id in w'.rows && Follows(seen, w'.rows[id])
            && (w.rows[id].Terminal() ==> w'.rows[id] == w.rows[id])
    decreases |meanwhile|
  {
    if meanwhile != [] {
      ElapsedKeepsRow(w, meanwhile[..|meanwhile| - 1], id, seen);
      WholeKeepsRow(Elapsed(w, meanwhile[..|meanwhile| - 1]), meanwhile[|meanwhile| - 1], id, seen);
    }
  }

  lemma {:induction false} ElapsedHasNothingDue(w: World, meanwhile: seq<Whole>)
    requires w.due == map[]
    ensures Elapsed(w, meanwhile).due == map[]
    decreases |meanwhile|
  {
    hide RowNext, RolledJobs, StepNext, LoadNext, TallyNext, StoreNext;
    if meanwhile != [] {
      ElapsedHasNothingDue(w, meanwhile[..|meanwhile| - 1]);
      var before, a := Elapsed(w, meanwhile[..|meanwhile| - 1]), meanwhile[|meanwhile| - 1];
      if a.Do? {
        if a.id in before.rows {
          WholeEffect(before, a.id, a.op, a.now);
        } else {
          UnknownStep(before, a.id, a.op, a.now);
        }
      }
    }
  }

  // ---------------------------------------------------------------- the columns an update sets

  datatype Values = Values(
    status: Option<StepStatus>,
    startedAt: Option<Time>,
    completedAt: Option<Time>,
    claimedAt: Option<Time>,
    output: Option<JsonObject>,
    error: Option<string>)

  const NO_VALUES := Values(None, None, None, None, None, None)

  function Or<T>(a: Option<T>, b: Option<T>): Option<T> {
    if a.Some? then a else b
  }

  function Updated(row: StepRow, v: Values): StepRow {
    row.(status := if v.status.Some? then v.status.value else row.status,
         startedAt := Or(v.startedAt, row.startedAt),
         completedAt := Or(v.completedAt, row.completedAt),
         claimedAt := Or(v.claimedAt, row.claimedAt),
         output := Or(v.output, row.output),
         error := Or(v.error, row.error))
  }

  // ---------------------------------------------------------------- scheduling a heartbeat

  datatype Metrics = Metrics(
    cpuPercent: real,
    memoryPercent: real,
    freeDiskGb: real,
    activeJobs: int,
    activeFfmpegJobs: int,
    activeWhisperJobs: int,
    thermalState: string,
    onBattery: bool)

  /** The node row a heartbeat leaves before scheduling. */
  function Beaten(row: NodeRow, m: Metrics, now: Time): NodeRow {
    NodeRow(
      row.info.(cpuPercent := m.cpuPercent, memoryPercent := m.memoryPercent, freeDiskGb := m.freeDiskGb,
                thermalState := m.thermalState, onBattery := m.onBattery, lastHeartbeat := Some(now)),
      m.activeJobs, m.activeFfmpegJobs, m.activeWhisperJobs)
  }

  predicate Distinct<T(==)>(s: seq<T>) {
    forall i, j | 0 <= i < j < |s| :: s[i] != s[j]
  }

  /** The ids of the queued steps, in ascending order. */
  predicate IsQueue(rows: Rows, ids: seq<StepId>) {
    && (forall id | id in ids :: id in rows && rows[id].status == Queued)
    && (forall id | id in rows && rows[id].status == Queued :: id in ids)
    && Ascending(ids)
  }

  /** The ids of the nodes, in whatever order the database lists them. */
  predicate IsListing(nodes: map<NodeId, NodeRow>, order: seq<NodeId>) {
    Distinct(order) && (forall n | n in order :: n in nodes) && (forall n | n in nodes :: n in order)
  }

  function RowsAt(rows: Rows, ids: seq<StepId>): seq<StepRow>
    requires forall id | id in ids :: id in rows
  {
    seq(|ids|, i requires 0 <= i < |ids| => rows[ids[i]])
  }

  function NodesAt(nodes: map<NodeId, NodeRow>, order: seq<NodeId>): seq<NodeRow>
    requires forall n | n in order :: n in nodes
  {
    seq(|order|, i requires 0 <= i < |order| => nodes[order[i]])
  }

  predicate Keyed(nodes: map<NodeId, NodeRow>) {
    forall n | n in nodes :: nodes[n].info.id == n
  }

  /** Steps and nodes are those before, with one scheduling pass over the queue. */
  predicate Scheduled(rows: Rows, nodes: map<NodeId, NodeRow>, rows': Rows, nodes': map<NodeId, NodeRow>,
                      queue: seq<StepId>, order: seq<NodeId>, config: SchedulerConfig, now: Time)
  {
    && IsQueue(rows, queue) && IsListing(nodes, order)
    && rows'.Keys == rows.Keys && nodes'.Keys == nodes.Keys
    && (forall id | id in rows && id !in queue :: rows'[id] == rows[id])
    && (RowsAt(rows', queue), NodesAt(nodes', order)) == Pass(RowsAt(rows, queue), NodesAt(nodes, order), config, now)
  }

  // ---------------------------------------------------------------- the controller

  class Controller {
    const config: SchedulerConfig
    var steps: Rows
    var jobs: map<JobId, JobRow>
    var nodes: map<NodeId, NodeRow>

    constructor (config: SchedulerConfig)
      ensures this.config == config && View() == EMPTY && nodes == map[]
    {
      this.config := config;
      steps, jobs, nodes := map[], map[], map[];
    }

    /** The step and job tables. */
    function View(): World
      reads this
    {
      World(steps, jobs, map[])
    }

    predicate Valid()
      reads this
    {
      Keyed(nodes)
    }

    /** Lets other handlers run, one after the other. */
    method Elapse(meanwhile: seq<Whole>)
      modifies this`steps, this`jobs
      ensures View() == Elapsed(old(View()), meanwhile)
    {
      var w := View();
      for i := 0 to |meanwhile|
        invariant w == Elapsed(old(View()), meanwhile[..i])
      {
        assert meanwhile[..i + 1][..i] == meanwhile[..i];
        w := WholeNext(w, meanwhile[i]);
      }
      assert meanwhile[..|meanwhile|] == meanwhile;
      ElapsedHasNothingDue(View(), meanwhile);
      steps, jobs := w.rows, w.jobs;
    }

    // -------------------------------------------------------------- roll-ups

    method MarkJobRunning(job: JobId)
      modifies this`jobs
      ensures jobs == RolledJobs(old(View()), job, MarkRunning, 0)
    {
      if job !in jobs {
        return;
      }
      var row := jobs[job];
      if row.status == JobCreated || row.status == JobQueued {
        row := row.(status := JobRunning);
        row := row.(progress := if row.progress < START_FLOOR then START_FLOOR else row.progress);
        jobs := jobs[job := row];
      }
    }

    method MarkJobAfterStepCompletion(job: JobId, now: Time)
      modifies this`jobs
      ensures jobs == RolledJobs(old(View()), job, MarkAfterCompletion, now)
    {
      if job !in jobs {
        return;
      }
      var row := jobs[job];
      var all := set id | id in steps && steps[id].work.jobId == job;
      var done := set id | id in steps && steps[id].work.jobId == job && steps[id].status == Completed;
      assert all == StepsOf(steps, job) && done == DoneOf(steps, job);
      if |all| == 0 {
        jobs := jobs[job := row.(status := JobFailed, error := Some(NO_STEPS_MESSAGE), completedAt := Some(now))];
        return;
      }
      row := row.(progress := RoundHalfEven(|done| * 10000, |all|));
      if |done| == |all| {
        row := row.(status := JobCompleted, completedAt := Some(now));
      } else {
        row := row.(status := JobRunning);
      }
      jobs := jobs[job := row];
    }

    method MarkJobFailed(job: JobId, message: string, now: Time)
      modifies this`jobs
      ensures jobs == RolledJobs(old(View()), job, MarkFailed(message), now)
    {
      if job in jobs {
        jobs := jobs[job := jobs[job].(status := JobFailed, error := Some(message), completedAt := Some(now))];
      }
    }

    // -------------------------------------------------------------- lifecycle handlers

    /** One UPDATE with its WHERE clause, and the row count it reports. */
    method PersistStepUpdate(id: StepId, seen: StepRow, node: NodeId, fromStatuses: set<StepStatus>, values: Values,
                             requireUnclaimed: bool)
      returns (r: Result<StepRow, Refusal>)
      requires id in steps
      modifies this`steps
      ensures var row := old(steps)[id];
              if row.epoch == seen.epoch && row.assignedNode == Some(node) && row.status in fromStatuses &&
                 (requireUnclaimed ==> row.claimedAt.None?)
              then r == Ok(Updated(row, values)) && steps == old(steps)[id := Updated(row, values)]
              else r == Err(ChangedMeanwhile) && steps == old(steps)
    {
      var rowCount := 0;
      var row := steps[id];
      if row.epoch == seen.epoch && row.assignedNode == Some(node) && row.status in fromStatuses &&
         (requireUnclaimed ==> row.claimedAt.None?)
      {
        steps := steps[id := Updated(row, values)];
        rowCount := 1;
      }
      if rowCount != 1 {
        return Err(ChangedMeanwhile);
      }
      return Ok(steps[id]);
    }

    /**
      What a handler must have done: refused on the spot on what it read, or else behaved as the atomic
      handler, roll-up included, on the tables as they were when it committed.
     */
    ghost predicate Answered(before: World, id: StepId, req: Request, meanwhile: seq<Whole>, now: Time,
                             r: Result<StepRow, Refusal>)
      reads this
    {
      if id !in before.rows then
        r == Err(StepNotFound) && View() == before
      else if Validate(before.rows[id], req).Some? then
        r == Err(Validate(before.rows[id], req).value) && View() == before
      else
        var instant := Elapsed(before, meanwhile);
        && id in instant.rows && id in steps
        && View() == WholeNext(instant, Do(id, Handle(0, req, now), now))
        && (r.Ok? <==> Handled(instant.rows[id], req, now).Ok?)
        && (r.Ok? ==> r == Handled(instant.rows[id], req, now) && r.value == steps[id])
        && (r.Err? ==> r.error == ChangedMeanwhile && View() == instant)
    }

    /**
      The checks every lifecycle handler begins with, on the row it reads. They refuse exactly the requests that
      validation refuses whatever they ask for, and with the same reason.
     */
    method ReadOwnedStep(id: StepId, node: NodeId, epoch: int) returns (r: Result<StepRow, Refusal>)
      ensures id !in steps ==> r == Err(StepNotFound)
      ensures id in steps && r.Err? ==> forall op :: Validate(steps[id], Request(node, epoch, op)) == Some(r.error)
      ensures r.Ok? ==> id in steps && r.value == steps[id]
      ensures r.Ok? ==> forall op ::
                Validate(steps[id], Request(node, epoch, op)) != Some(NotOwner) &&
                Validate(steps[id], Request(node, epoch, op)) != Some(StaleAssignment)
    {
      if id !in steps {
        return Err(StepNotFound);
      }
      var step := steps[id];
      if step.assignedNode != Some(node) {
        return Err(NotOwner);
      }
      if ValidateAssignmentEpoch(step, epoch).Err? {
        return Err(StaleAssignment);
      }
      return Ok(step);
    }

    method StartStep(id: StepId, node: NodeId, epoch: int, meanwhile: seq<Whole>, now: Time)
      returns (r: Result<StepRow, Refusal>)
      modifies this`steps, this`jobs
      ensures Answered(old(View()), id, Request(node, epoch, Start), meanwhile, now, r)
    {
      var seen := ReadOwnedStep(id, node, epoch);
      if seen.Err? {
        return seen;
      }
      var next := TransitionStep(seen.value.status, Running);
      if next.Err? {
        return Err(BadTransition);
      }
      Elapse(meanwhile);
      CommitPoint(old(View()), meanwhile, id, seen.value, Request(node, epoch, Start), now);
      r := PersistStepUpdate(id, seen.value, node, {Assigned},
                             NO_VALUES.(status := Some(next.value), startedAt := Some(now)), false);
      if r.Ok? {
        MarkJobRunning(r.value.work.jobId);
      }
    }

    method ProgressStep(id: StepId, node: NodeId, epoch: int, percent: Option<real>, message: Option<string>,
                        meanwhile: seq<Whole>, now: Time)
      returns (r: Result<StepRow, Refusal>)
      modifies this`steps, this`jobs
      ensures Answered(old(View()), id, Request(node, epoch, Progress(percent, message)), meanwhile, now, r)
    {
      var seen := ReadOwnedStep(id, node, epoch);
      if seen.Err? {
        return seen;
      }
      var output := OrEmpty(seen.value.output)["progress" := ProgressPayload(percent, message)];
      Elapse(meanwhile);
      CommitPoint(old(View()), meanwhile, id, seen.value, Request(node, epoch, Progress(percent, message)), now);
      r := PersistStepUpdate(id, seen.value, node, {Running}, NO_VALUES.(output := Some(output)), false);
    }

    method CompleteStep(id: StepId, node: NodeId, epoch: int, result: JsonObject, meanwhile: seq<Whole>, now: Time)
      returns (r: Result<StepRow, Refusal>)
      modifies this`steps, this`jobs
      ensures Answered(old(View()), id, Request(node, epoch, Complete(result)), meanwhile, now, r)
    {
      var seen := ReadOwnedStep(id, node, epoch);
      if seen.Err? {
        return seen;
      }
      var next := TransitionStep(seen.value.status, Completed);
      if next.Err? {
        return Err(BadTransition);
      }
      Elapse(meanwhile);
      CommitPoint(old(View()), meanwhile, id, seen.value, Request(node, epoch, Complete(result)), now);
      r := PersistStepUpdate(id, seen.value, node, {Running},
                             NO_VALUES.(status := Some(next.value), output := Some(result), completedAt := Some(now)),
                             false);
      if r.Ok? {
        MarkJobAfterStepCompletion(r.value.work.jobId, now);
      }
    }

    method FailStep(id: StepId, node: NodeId, epoch: int, reason: string, meanwhile: seq<Whole>, now: Time)
      returns (r: Result<StepRow, Refusal>)
      modifies this`steps, this`jobs
      ensures Answered(old(View()), id, Request(node, epoch, Fail(reason)), meanwhile, now, r)
    {
      var seen := ReadOwnedStep(id, node, epoch);
      if seen.Err? {
        return seen;
      }
      var next := TransitionStep(seen.value.status, Failed);
      if next.Err? {
        return Err(BadTransition);
      }
      Elapse(meanwhile);
      CommitPoint(old(View()), meanwhile, id, seen.value, Request(node, epoch, Fail(reason)), now);
      r := PersistStepUpdate(id, seen.value, node, {Assigned, Running},
                             NO_VALUES.(status := Some(next.value), error := Some(reason), completedAt := Some(now)),
                             false);
      if r.Ok? {
        MarkJobFailed(r.value.work.jobId, reason, now);
      }
    }

    method ClaimStep(id: StepId, node: NodeId, epoch: int, meanwhile: seq<Whole>, now: Time)
      returns (r: Result<StepRow, Refusal>)
      modifies this`steps, this`jobs
      ensures Answered(old(View()), id, Request(node, epoch, Claim), meanwhile, now, r)
    {
      var seen := ReadOwnedStep(id, node, epoch);
      if seen.Err? {
        return seen;
      }
      if seen.value.status != Assigned {
        return Err(NotAssigned);
      }
      Elapse(meanwhile);
      CommitPoint(old(View()), meanwhile, id, seen.value, Request(node, epoch, Claim), now);
      r := PersistStepUpdate(id, seen.value, node, {Assigned}, NO_VALUES.(claimedAt := Some(now)), true);
    }

    // -------------------------------------------------------------- claim-next

    /** The first row of the claim query: claimable by the node, and none of those assigned earlier. */
    method SelectClaimable(node: NodeId) returns (r: Option<StepId>)
      ensures r.None? ==> forall id | id in steps :: !Claimable(steps[id], node)
      ensures r.Some? ==> IsOldestClaimable(steps, r.value, node)
      ensures r.Some? ==> forall id, t, u | id in steps && Claimable(steps[id], node) &&
                                            steps[r.value].assignedAt == Some(t) && steps[id].assignedAt == Some(u) :: t <= u
    {
      var candidates := set id | id in steps && Claimable(steps[id], node);
      r := None;
      while candidates != {}
        invariant forall id | id in candidates :: id in steps && Claimable(steps[id], node)
        invariant r.Some? ==> r.value in steps && Claimable(steps[r.value], node)
        invariant r.None? ==> forall id | id in steps && Claimable(steps[id], node) :: id in candidates
        invariant r.Some? ==> forall id | id in steps && Claimable(steps[id], node) && id !in candidates ::
                    NotAfter(steps[r.value].assignedAt, steps[id].assignedAt)
        decreases candidates
      {
        var id :| id in candidates;
        candidates := candidates - {id};
        if r.None? || !NotAfter(steps[r.value].assignedAt, steps[id].assignedAt) {
          r := Some(id);
        }
      }
    }

    /**
      Selects, lets others run, and marks the row if it can still be claimed. A claim that succeeds is the
      atomic claim of that row at the commit instant, and the row carries the epoch of that instant.
     */
    method ClaimNext(bodyNode: NodeId, headerNode: NodeId, meanwhile: seq<Whole>, now: Time)
      returns (r: Result<Option<StepId>, Refusal>)
      modifies this`steps, this`jobs
      ensures bodyNode != headerNode ==> r == Err(NotOwner) && View() == old(View())
      ensures bodyNode == headerNode ==> r.Ok?
      ensures r.Ok? && r.value.None? ==>
                || (View() == old(View()) && NoneClaimable(old(steps), headerNode))
                || (View() == Elapsed(old(View()), meanwhile) && Overtaken(old(steps), steps, headerNode))
      ensures r.Ok? && r.value.Some? ==>
                var id, instant := r.value.value, Elapsed(old(View()), meanwhile);
                && IsOldestClaimable(old(steps), id, headerNode)
                && id in instant.rows && Claimable(instant.rows[id], headerNode)
                && View() == instant.(rows := instant.rows[id := instant.rows[id].(claimedAt := Some(now))])
    {
      if bodyNode != headerNode {
        return Err(NotOwner);
      }
      var selected := SelectClaimable(headerNode);
      if selected.None? {
        return Ok(None);
      }
      var id := selected.value;
      ghost var before, seen := View(), steps[id];
      Elapse(meanwhile);
      assert Follows(seen, seen) by {
        FollowsItself(seen);
      }
      ElapsedKeepsRow(before, meanwhile, id, seen);
      if !Claimable(steps[id], headerNode) {
        assert Overtaken(before.rows, steps, headerNode);
        return Ok(None);
      }
      steps := steps[id := steps[id].(claimedAt := Some(now))];
      return Ok(Some(id));
    }

    // -------------------------------------------------------------- nodes and heartbeats

    /**
      Registers or re-registers a node, unless its shared root is missing, no directory, or not the Controller's,
      checked in that order.
     */
    method RegisterNode(id: NodeId, name: string, host: Option<string>, sharedRoot: string, maxFfmpegJobs: int,
                        maxWhisperJobs: int, files: Files)
      returns (r: Result<NodeRow, NodeRefusal>)
      requires Valid()
      modifies this`nodes
      ensures Valid()
      ensures var root := files.resolve(sharedRoot);
              && (r.Ok? <==> files.kind(root) == Directory && root == files.resolve(config.sharedRoot))
              && (r.Err? ==> r.error == match files.kind(root)
                                        case Missing => RootMissing
                                        case RegularFile => RootNotDirectory
                                        case Directory => RootMismatch)
      ensures r.Err? ==> nodes == old(nodes)
      ensures r.Ok? ==>
                var root := files.resolve(sharedRoot);
                var before := if id in old(nodes) then old(nodes)[id] else NewNode(id, name, root);
                && r.value == before.(info := before.info.(name := name, host := host, status := Online, sharedRoot := root,
                                                           maxFfmpegJobs := maxFfmpegJobs, maxWhisperJobs := maxWhisperJobs))
                && nodes == old(nodes)[id := r.value]
      ensures r.Ok? && id !in old(nodes) ==>
                r.value == NodeRow(NodeInfo(id, name, host, Online, files.resolve(sharedRoot), maxFfmpegJobs, maxWhisperJobs,
                                            0.0, 0.0, 0.0, "unknown", false, None), 0, 0, 0)
    {
      var check := ValidateSharedRoot(files, sharedRoot, config.sharedRoot);
      if check.Err? {
        return Err(check.error);
      }
      var row := if id in nodes then nodes[id] else NewNode(id, name, check.value);
      var info := row.info.(name := name, host := host, status := Online);
      info := info.(sharedRoot := check.value, maxFfmpegJobs := maxFfmpegJobs, maxWhisperJobs := maxWhisperJobs);
      nodes := nodes[id := row.(info := info)];
      return Ok(nodes[id]);
    }

    /** The ids of the queued steps, sorted. */
    method SelectQueued() returns (queue: seq<StepId>)
      ensures IsQueue(steps, queue)
    {
      var left := set id | id in steps && steps[id].status == Queued;
      queue := [];
      while left != {}
        invariant forall id | id in left :: id in steps && steps[id].status == Queued && id !in queue
        invariant forall id | id in queue :: id in steps && steps[id].status == Queued
        invariant forall id | id in steps && steps[id].status == Queued :: id in queue || id in left
        invariant Ascending(queue)
        decreases left
      {
        var id :| id in left;
        left := left - {id};
        queue := InsertId(queue, id);
      }
    }

    /** The nodes, in no particular order. */
    method SelectNodes() returns (order: seq<NodeId>)
      ensures IsListing(nodes, order)
    {
      var left := nodes.Keys;
      order := [];
      while left != {}
        invariant left <= nodes.Keys
        invariant forall n | n in left :: n !in order
        invariant forall n | n in order :: n in nodes
        invariant forall n | n in nodes :: n in order || n in left
        invariant Distinct(order)
        decreases left
      {
        var n :| n in left;
        left := left - {n};
        order := order + [n];
      }
    }

    /**
      Runs one scheduling pass over the queued steps, loaded as objects and written back afterwards, in the
      transaction of the caller.
     */
    method ScheduleQueue(now: Time) returns (ghost queue: seq<StepId>, ghost order: seq<NodeId>)
      requires Valid()
      modifies this`steps, this`nodes
      ensures Valid()
      ensures Scheduled(old(steps), old(nodes), steps, nodes, queue, order, config, now)
    {
      var ids := SelectQueued();
      var names := SelectNodes();
      queue, order := ids, names;
      if ids == [] {
        PassOfNone(NodesAt(nodes, names), config, now);
        assert RowsAt(steps, ids) == [];
        return;
      }
      AscendingIsDistinct(ids);
      ListedIdsAreDistinct(nodes, names);
      ghost var before := nodes;
      steps, nodes := PassOverTables(steps, nodes, ids, names, config, now);
      StillKeyed(before, nodes, RowsAt(old(steps), ids), names, config, now);
    }

    /** Records the metrics of a node and runs one scheduling pass; unknown nodes are refused. */
    method HeartbeatNode(id: NodeId, metrics: Metrics, now: Time)
      returns (r: Result<NodeRow, NodeRefusal>, ghost queue: seq<StepId>, ghost order: seq<NodeId>)
      requires Valid()
      modifies this`steps, this`nodes
      ensures Valid()
      ensures r.Ok? <==> id in old(nodes)
      ensures r.Err? ==> r.error == NodeNotFound && steps == old(steps) && nodes == old(nodes)
      ensures r.Ok? ==> id in nodes && r.value == nodes[id]
      ensures r.Ok? ==> Scheduled(old(steps), old(nodes)[id := Beaten(old(nodes)[id], metrics, now)], steps, nodes,
                                  queue, order, config, now)
    {
      queue, order := [], [];
      if id !in nodes {
        return Err(NodeNotFound), [], [];
      }
      var row := nodes[id];
      var info := row.info.(cpuPercent := metrics.cpuPercent, memoryPercent := metrics.memoryPercent);
      info := info.(freeDiskGb := metrics.freeDiskGb, thermalState := metrics.thermalState);
      info := info.(onBattery := metrics.onBattery, lastHeartbeat := Some(now));
      row := row.(activeJobs := metrics.activeJobs, activeFfmpegJobs := metrics.activeFfmpegJobs);
      row := row.(activeWhisperJobs := metrics.activeWhisperJobs, info := info);
      nodes := nodes[id := row];
      queue, order := ScheduleQueue(now);
      r := Ok(nodes[id]);
    }

    /**
      Accepts a job for the supported goal and an input file under the shared root: one queued pipeline step, which
      no per-type limit applies to, in the same transaction.
     */
    method CreateSubtitleJob(goal: string, inputFile: string, files: Files, job: JobId, step: StepId)
      returns (r: Result<(), JobRefusal>)
      requires job !in jobs && step !in steps
      modifies this`steps, this`jobs
      ensures r == if goal != "video_to_subtitle" then Err(UnsupportedGoal)
                   else if !Inside(files.resolve(inputFile), files.resolve(config.sharedRoot)) then Err(PathOutside)
                   else Ok(())
      ensures View() == if r.Ok? then WholeNext(old(View()), NewJob(job, map[step := PipelineWork(job)])) else old(View())
      ensures r.Ok? ==> step in steps && steps[step].status == Queued && IsGenericStep(steps[step].work)
      ensures r.Ok? ==> steps[step].work == Work(job, "video_to_subtitle_pipeline", [], 0.0, 2)
      ensures r.Ok? ==> steps[step].epoch == 0 && steps[step].retryCount == 0 && steps[step].assignedNode.None?
      ensures r.Ok? ==> job in jobs && jobs[job] == JobRow(JobQueued, 0, None, None)
    {
      if goal != "video_to_subtitle" {
        return Err(UnsupportedGoal);
      }
      if !Inside(files.resolve(inputFile), files.resolve(config.sharedRoot)) {
        return Err(PathOutside);
      }
      ghost var before, work := View(), PipelineWork(job);
      jobs := jobs[job := FRESH_JOB];
      steps := steps[step := FreshRow(PipelineWork(job))];
      assert step in map[step := work];
      assert CanCreate(before, job, map[step := work]);
      assert steps == before.rows + map id | id in map[step := work] :: FreshRow(map[step := work][id]);
      PipelineIsGeneric(job);
      return Ok(());
    }
  }

  // ---------------------------------------------------------------- paths and new jobs

  datatype PathKind = Missing | RegularFile | Directory

  /** What the file system answers: the canonical form of a path, and what is there. */
  datatype Files = Files(resolve: string -> string, kind: string -> PathKind)

  datatype NodeRefusal = NodeNotFound | RootMissing | RootNotDirectory | RootMismatch

  datatype JobRefusal = UnsupportedGoal | PathOutside

  function ValidateSharedRoot(files: Files, workerRoot: string, controllerRoot: string): Result<string, NodeRefusal> {
    var worker, controller := files.resolve(workerRoot), files.resolve(controllerRoot);
    if files.kind(worker).Missing? then Err(RootMissing)
    else if !files.kind(worker).Directory? then Err(RootNotDirectory)
    else if worker != controller then Err(RootMismatch)
    else Ok(worker)
  }

  /** A canonical path is the root or below it. */
  predicate Inside(path: string, root: string) {
    path == root || (if root == "/" then root <= path else root + "/" <= path)
  }

  /** The paths inside a root are the root and those that continue it after a slash. */
  lemma InsideExactly(path: string, root: string)
    ensures Inside(path, "/") <==> path != "" && path[0] == '/'
    ensures root != "/" ==> (Inside(path, root) <==> path == root || exists rest :: path == root + "/" + rest)
  {
    if root != "/" && root + "/" <= path {
      assert path == root + "/" + path[|root| + 1..];
    }
  }

  /** The only step of a job; its input names no constraints and no runtime. */
  function PipelineWork(job: JobId): Work {
    Work(job, "video_to_subtitle_pipeline", [], 0.0, 2)
  }

  lemma PipelineIsGeneric(job: JobId)
    ensures IsGenericStep(PipelineWork(job))
  {
    var tool := PipelineWork(job).toolName;
    assert tool[0] == 'v';
    assert "transcribe_audio"[0] == 't' && "mlx_whisper"[0] == 'm' && "whisper"[0] == 'w' && "whisper_tool"[0] == 'w';
    assert "probe_media"[0] == 'p' && "extract_audio"[0] == 'e';
    assert "ffprobe"[0] == 'f' && "ffmpeg"[0] == 'f' && "ffmpeg_"[0] == 'f';
  }

  // ---------------------------------------------------------------- loading and storing objects

  lemma ListedIdsAreDistinct(nodes: map<NodeId, NodeRow>, order: seq<NodeId>)
    requires Keyed(nodes) && IsListing(nodes, order)
    ensures DistinctIds(NodesAt(nodes, order))
  {
  }

  lemma AscendingIsDistinct(ids: seq<StepId>)
    requires Ascending(ids)
    ensures Distinct(ids)
  {
    forall i, j | 0 <= i < j < |ids| ensures ids[i] != ids[j] {
      StrLessIrreflexive(ids[i]);
    }
  }

  lemma StillKeyed(nodes: map<NodeId, NodeRow>, nodes': map<NodeId, NodeRow>, rows: seq<StepRow>, order: seq<NodeId>,
                   config: SchedulerConfig, now: Time)
    requires Keyed(nodes) && IsListing(nodes, order) && nodes'.Keys == nodes.Keys
    requires NodesAt(nodes', order) == Pass(rows, NodesAt(nodes, order), config, now).1
    ensures Keyed(nodes')
  {
    PassInfos(rows, NodesAt(nodes, order), config, now);
    forall n | n in nodes' ensures nodes'[n].info.id == n {
      assert n in order;
      var i :| 0 <= i < |order| && order[i] == n;
      assert NodesAt(nodes', order)[i] == nodes'[n] && NodesAt(nodes, order)[i] == nodes[n];
    }
  }

  method PassOverTables(rows: Rows, nodes: map<NodeId, NodeRow>, ids: seq<StepId>, order: seq<NodeId>,
                        config: SchedulerConfig, now: Time)
    returns (rows': Rows, nodes': map<NodeId, NodeRow>)
    requires Distinct(ids) && forall id | id in ids :: id in rows
    requires IsListing(nodes, order) && DistinctIds(NodesAt(nodes, order))
    ensures rows'.Keys == rows.Keys && forall id | id in rows && id !in ids :: rows'[id] == rows[id]
    ensures nodes'.Keys == nodes.Keys
    ensures (RowsAt(rows', ids), NodesAt(nodes', order)) == Pass(RowsAt(rows, ids), NodesAt(nodes, order), config, now)
  {
    hide Pass;
    var loadedSteps := LoadSteps(rows, ids);
    var loadedNodes := LoadNodes(nodes, order);
    ScheduleQueuedSteps(loadedSteps, loadedNodes, config, now);
    rows' := StoreSteps(rows, ids, loadedSteps);
    nodes' := StoreNodes(nodes, order, loadedNodes);
  }

  method LoadSteps(rows: Rows, ids: seq<StepId>) returns (loaded: seq<Step>)
    requires forall id | id in ids :: id in rows
    ensures fresh(loaded) && Distinct(loaded) && StepRows(loaded) == RowsAt(rows, ids)
  {
    loaded := [];
    for i := 0 to |ids|
      invariant fresh(loaded) && Distinct(loaded) && StepRows(loaded) == RowsAt(rows, ids[..i])
    {
      var step := new Step(ids[i], rows[ids[i]]);
      loaded := loaded + [step];
      assert ids[..i + 1] == ids[..i] + [ids[i]];
      assert StepRows(loaded) == RowsAt(rows, ids[..i]) + [rows[ids[i]]];
    }
    assert ids[..|ids|] == ids;
  }

  method LoadNodes(nodes: map<NodeId, NodeRow>, order: seq<NodeId>) returns (loaded: seq<Node>)
    requires forall n | n in order :: n in nodes
    ensures fresh(loaded) && Distinct(loaded) && NodeRows(loaded) == NodesAt(nodes, order)
  {
    loaded := [];
    for i := 0 to |order|
      invariant fresh(loaded) && Distinct(loaded) && NodeRows(loaded) == NodesAt(nodes, order[..i])
    {
      var node := new Node(nodes[order[i]]);
      loaded := loaded + [node];
      assert order[..i + 1] == order[..i] + [order[i]];
      assert NodeRows(loaded) == NodesAt(nodes, order[..i]) + [nodes[order[i]]];
    }
    assert order[..|order|] == order;
  }

  method StoreSteps(rows: Rows, ids: seq<StepId>, loaded: seq<Step>) returns (stored: Rows)
    requires |ids| == |loaded| && Distinct(ids) && forall id | id in ids :: id in rows
    ensures stored.Keys == rows.Keys && forall id | id in rows && id !in ids :: stored[id] == rows[id]
    ensures RowsAt(stored, ids) == StepRows(loaded)
  {
    stored := rows;
    for i := 0 to |ids|
      invariant stored.Keys == rows.Keys && forall id | id in rows && id !in ids :: stored[id] == rows[id]
      invariant forall k | 0 <= k < i :: stored[ids[k]] == loaded[k].Row()
    {
      stored := stored[ids[i] := loaded[i].Row()];
    }
  }

  method StoreNodes(nodes: map<NodeId, NodeRow>, order: seq<NodeId>, loaded: seq<Node>) returns (stored: map<NodeId, NodeRow>)
    requires |order| == |loaded| && IsListing(nodes, order)
    ensures stored.Keys == nodes.Keys
    ensures NodesAt(stored, order) == NodeRows(loaded)
  {
    stored := nodes;
    for i := 0 to |order|
      invariant stored.Keys == nodes.Keys
      invariant forall k | 0 <= k < i :: stored[order[k]] == loaded[k].Row()
    {
      stored := stored[order[i] := loaded[i].Row()];
    }
  }

  function NewNode(id: NodeId, name: string, sharedRoot: string): NodeRow {
    NodeRow(NodeInfo(id, name, None, Online, sharedRoot, 1, 1, 0.0, 0.0, 0.0, "unknown", false, None), 0, 0, 0)
  }

  /** Whether the first of two assignment times does not sort after the second; a missing time sorts first. */
  predicate NotAfter(a: Option<Time>, b: Option<Time>) {
    a.None? || (b.Some? && a.value <= b.value)
  }

  predicate IsOldestClaimable(rows: Rows, id: StepId, node: NodeId) {
    && id in rows && Claimable(rows[id], node)
    && forall x | x in rows && Claimable(rows[x], node) :: NotAfter(rows[id].assignedAt, rows[x].assignedAt)
  }

  predicate NoneClaimable(rows: Rows, node: NodeId) {
    forall id | id in rows :: !Claimable(rows[id], node)
  }

  /** The row the node would have claimed cannot be claimed any more. */
  predicate Overtaken(seen: Rows, current: Rows, node: NodeId) {
    exists id :: IsOldestClaimable(seen, id, node) && id in current && !Claimable(current[id], node)
  }

  predicate Ascending(ids: seq<StepId>) {
    forall i, j | 0 <= i < j < |ids| :: StrLess(ids[i], ids[j])
  }

  method InsertId(ids: seq<StepId>, id: StepId) returns (r: seq<StepId>)
    requires Ascending(ids) && id !in ids
    ensures Ascending(r) && forall x :: x in r <==> x in ids || x == id
  {
    var p := |ids|;
    while p > 0 && StrLess(id, ids[p - 1])
      invariant 0 <= p <= |ids|
      invariant p < |ids| ==> StrLess(id, ids[p])
    {
      p := p - 1;
    }
    r := ids[..p] + [id] + ids[p..];
    assert ids == ids[..p] + ids[p..];
    forall k | 0 <= k < p ensures StrLess(ids[k], id) {
      StrLessTotal(ids[p - 1], id);
      if k < p - 1 {
        StrLessTransitive(ids[k], ids[p - 1], id);
      }
    }
    forall k | p <= k < |ids| ensures StrLess(id, ids[k]) {
      if p < k {
        StrLessTransitive(id, ids[p], ids[k]);
      }
    }
  }

  /** The commit instant of a handler whose read has been overtaken by `meanwhile`. */
  lemma CommitPoint(before: World, meanwhile: seq<Whole>, id: StepId, seen: StepRow, req: Request, now: Time)
    requires before.due == map[] && id in before.rows && seen == before.rows[id] && Validate(seen, req).None?
    ensures var w := Elapsed(before, meanwhile);
            && w.due == map[] && id in w.rows
            && Persist(w.rows[id], seen, req, now).Ok? == Handled(w.rows[id], req, now).Ok?
            && (Persist(w.rows[id], seen, req, now).Ok? ==>
                  Persist(w.rows[id], seen, req, now) == Handled(w.rows[id], req, now))
            && WholeNext(w, Do(id, Handle(0, req, now), now)) ==
               match Persist(w.rows[id], seen, req, now)
               case Err(_) => w
               case Ok(row) =>
                 var moved := w.(rows := w.rows[id := row]);
                 if TaskOf(req.op).Some?
                 then moved.(jobs := RolledJobs(moved, row.work.jobId, TaskOf(req.op).value, now))
                 else moved
  {
    hide RolledJobs, Validate, Follows, Written, StepNext, LoadNext, TallyNext, StoreNext;
    assert Follows(seen, seen) by {
      FollowsItself(seen);
    }
    ElapsedKeepsRow(before, meanwhile, id, seen);
    var w := Elapsed(before, meanwhile);
    CommitIsAtomic(w.rows[id], seen, req, now);
    WholeEffect(w, id, Handle(0, req, now), now);
    HandledKeepsWork(w.rows[id], req, now);
    assert w.rows[id := w.rows[id]] == w.rows;
  }

  lemma FollowsItself(row: StepRow)
    ensures Follows(row, row)
  {
  }

  lemma HandledKeepsWork(row: StepRow, req: Request, now: Time)
    ensures Handled(row, req, now).Ok? ==> Handled(row, req, now).value.work == row.work
  {
  }
}
