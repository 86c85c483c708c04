/**
  Per-type capacity over many heartbeats. A heartbeat overwrites a node's job counters with what its worker
  reports, and then schedules by them. While each report covers the steps its node holds, no node ever holds more
  whisper or ffmpeg steps than its maxima; and what a single heartbeat adds, whatever it reports, can be read off
  the tables before it.
 */
module Capacity {
  import opened Wrappers
  import opened StateMachine
  import opened Lifecycle
  import opened Policies
  import opened Scoring
  import opened Scheduling
  import opened PassTheorems
  import opened Rollup
  import opened Controllers

  /** The two kinds of steps that a node has a maximum for. */
  datatype Kind = Whisper | Ffmpeg

  function Is(kind: Kind): Work -> bool {
    match kind
    case Whisper => IsWhisperStep
    case Ffmpeg => IsFfmpegStep
  }

  function Load(n: NodeRow, kind: Kind): int {
    match kind
    case Whisper => n.activeWhisperJobs
    case Ffmpeg => n.activeFfmpegJobs
  }

  function Limit(n: NodeRow, kind: Kind): int {
    match kind
    case Whisper => n.info.maxWhisperJobs
    case Ffmpeg => n.info.maxFfmpegJobs
  }

  function Reported(m: Metrics, kind: Kind): int {
    match kind
    case Whisper => m.activeWhisperJobs
    case Ffmpeg => m.activeFfmpegJobs
  }

  function FullOf(kind: Kind): Verdict {
    match kind
    case Whisper => WhisperConcurrencyFull
    case Ffmpeg => FfmpegConcurrencyFull
  }

  predicate Holds(row: StepRow, node: NodeId, kind: Work -> bool) {
    row.Held() && row.assignedNode == Some(node) && kind(row.work)
  }

  /** The steps of a kind that a node holds. */
  function HeldBy(rows: Rows, node: NodeId, kind: Work -> bool): set<StepId> {
    set id | id in rows && Holds(rows[id], node, kind)
  }

  // ---------------------------------------------------------------- what a scheduling pass hands out

  predicate GivenTo(before: StepRow, after: StepRow, node: NodeId, kind: Work -> bool) {
    before.status == Queued && after.status == Assigned && after.assignedNode == Some(node) && kind(before.work)
  }

  function GivenSteps(rows: Rows, rows': Rows, queue: seq<StepId>, node: NodeId, kind: Work -> bool): set<StepId>
    requires forall id | id in queue :: id in rows && id in rows'
  {
    set id | id in queue && GivenTo(rows[id], rows'[id], node, kind)
  }

  lemma GivenLast(rows: Rows, rows': Rows, front: seq<StepId>, id: StepId, node: NodeId, kind: Work -> bool)
    requires forall x | x in front + [id] :: x in rows && x in rows'
    ensures Given(RowsAt(rows, front + [id]), RowsAt(rows', front + [id]), node, kind) ==
            Given(RowsAt(rows, front), RowsAt(rows', front), node, kind) +
            (if GivenTo(rows[id], rows'[id], node, kind) then 1 else 0)
  {
    var queue := front + [id];
    assert RowsAt(rows, queue)[..|front|] == RowsAt(rows, front);
    assert RowsAt(rows', queue)[..|front|] == RowsAt(rows', front);
    assert RowsAt(rows, queue)[|front|] == rows[id] && RowsAt(rows', queue)[|front|] == rows'[id];
  }

  lemma {:induction false} GivenCounts(rows: Rows, rows': Rows, queue: seq<StepId>, node: NodeId, kind: Work -> bool)
    requires Distinct(queue) && forall id | id in queue :: id in rows && id in rows'
    ensures Given(RowsAt(rows, queue), RowsAt(rows', queue), node, kind) == |GivenSteps(rows, rows', queue, node, kind)|
    decreases |queue|
  {
    hide GivenTo;
    if queue == [] {
      assert GivenSteps(rows, rows', queue, node, kind) == {};
      assert RowsAt(rows, queue) == [];
    } else {
      hide Given;
      var front, id := queue[..|queue| - 1], queue[|queue| - 1];
      assert queue == front + [id];
      GivenCounts(rows, rows', front, node, kind);
      GivenLast(rows, rows', front, id, node, kind);
      var earlier := GivenSteps(rows, rows', front, node, kind);
      assert GivenSteps(rows, rows', queue, node, kind) ==
             if GivenTo(rows[id], rows'[id], node, kind) then earlier + {id} else earlier;
    }
  }

  /** A queued step is left alone or assigned. */
  lemma QueueSettles(rows: Rows, nodes: map<NodeId, NodeRow>, rows': Rows, nodes': map<NodeId, NodeRow>,
                     queue: seq<StepId>, order: seq<NodeId>, config: SchedulerConfig, now: Time)
    requires Scheduled(rows, nodes, rows', nodes', queue, order, config, now)
    ensures forall id | id in rows ::
              if id in queue
              then rows[id].status == Queued &&
                   (rows'[id] == rows[id] || (rows'[id].status == Assigned && rows'[id].work == rows[id].work))
              else rows'[id] == rows[id]
  {
    hide Pass, IsNodeEligible;
    PassOnlyAssigns(RowsAt(rows, queue), NodesAt(nodes, order), config, now);
    forall id | id in queue
      ensures rows'[id] == rows[id] || (rows'[id].status == Assigned && rows'[id].work == rows[id].work)
    {
      var i :| 0 <= i < |queue| && queue[i] == id;
      assert RowsAt(rows', queue)[i] == rows'[id] && RowsAt(rows, queue)[i] == rows[id];
      assert Settled(rows[id], rows'[id], NodesAt(nodes, order), config, now);
    }
  }

  /** A scheduling pass adds to the steps a node holds those it gave to it, and takes none away. */
  lemma HeldGrows(rows: Rows, nodes: map<NodeId, NodeRow>, rows': Rows, nodes': map<NodeId, NodeRow>,
                  queue: seq<StepId>, order: seq<NodeId>, node: NodeId, kind: Work -> bool, config: SchedulerConfig,
                  now: Time)
    requires Scheduled(rows, nodes, rows', nodes', queue, order, config, now)
    ensures |HeldBy(rows', node, kind)| ==
            |HeldBy(rows, node, kind)| + Given(RowsAt(rows, queue), RowsAt(rows', queue), node, kind)
  {
    QueueSettles(rows, nodes, rows', nodes', queue, order, config, now);
    AscendingIsDistinct(queue);
    GivenCounts(rows, rows', queue, node, kind);
    HeldSplits(rows, rows', queue, node, kind);
  }

  lemma HeldSplits(rows: Rows, rows': Rows, queue: seq<StepId>, node: NodeId, kind: Work -> bool)
    requires rows'.Keys == rows.Keys && forall id | id in queue :: id in rows
    requires forall id | id in rows ::
               if id in queue
               then rows[id].status == Queued &&
                    (rows'[id] == rows[id] || (rows'[id].status == Assigned && rows'[id].work == rows[id].work))
               else rows'[id] == rows[id]
    ensures |HeldBy(rows', node, kind)| ==
            |HeldBy(rows, node, kind)| + |GivenSteps(rows, rows', queue, node, kind)|
  {
    forall id | id in rows
      ensures Holds(rows'[id], node, kind) <==>
              Holds(rows[id], node, kind) || (id in queue && GivenTo(rows[id], rows'[id], node, kind))
      ensures !(Holds(rows[id], node, kind) && GivenTo(rows[id], rows'[id], node, kind))
    {
    }
    hide Holds, GivenTo;
    var given := GivenSteps(rows, rows', queue, node, kind);
    assert HeldBy(rows', node, kind) == HeldBy(rows, node, kind) + given;
    assert HeldBy(rows, node, kind) !! given;
  }

  /** What a scheduling pass does to one node: its counters and the steps it holds grow alike, within its maxima. */
  lemma ScheduledNode(rows: Rows, nodes: map<NodeId, NodeRow>, rows': Rows, nodes': map<NodeId, NodeRow>,
                      queue: seq<StepId>, order: seq<NodeId>, node: NodeId, kind: Kind, config: SchedulerConfig, now: Time)
    requires Keyed(nodes) && node in nodes && Scheduled(rows, nodes, rows', nodes', queue, order, config, now)
    ensures node in nodes' && nodes'[node].info == nodes[node].info
    ensures var n, n' := nodes[node], nodes'[node];
            && Load(n', kind) - Load(n, kind) == |HeldBy(rows', node, Is(kind))| - |HeldBy(rows, node, Is(kind))| >= 0
            && Load(n', kind) <= Max(Load(n, kind), Limit(n, kind))
  {
    hide Pass, IsWhisperStep, IsFfmpegStep;
    assert node in order;
    var k :| 0 <= k < |order| && order[k] == node;
    var taken, all := RowsAt(rows, queue), NodesAt(nodes, order);
    assert all[k] == nodes[node] && NodesAt(nodes', order)[k] == nodes'[node];
    ListedIdsAreDistinct(nodes, order);
    PassInfos(taken, all, config, now);
    PassConservesJobs(taken, all, k, config, now);
    PassRespectsCapacity(taken, all, k, config, now);
    HeldGrows(rows, nodes, rows', nodes', queue, order, node, Is(kind), config, now);
  }

  /** The queued steps of a kind that a scheduling pass handed to the node. */
  function HandedTo(rows: Rows, rows': Rows, node: NodeId, kind: Work -> bool): set<StepId> {
    set id | id in rows && id in rows' && GivenTo(rows[id], rows'[id], node, kind)
  }

  lemma HandedIsGiven(rows: Rows, rows': Rows, queue: seq<StepId>, node: NodeId, kind: Work -> bool)
    requires IsQueue(rows, queue) && rows'.Keys == rows.Keys
    ensures Given(RowsAt(rows, queue), RowsAt(rows', queue), node, kind) == |HandedTo(rows, rows', node, kind)|
  {
    AscendingIsDistinct(queue);
    GivenCounts(rows, rows', queue, node, kind);
    assert HandedTo(rows, rows', node, kind) == GivenSteps(rows, rows', queue, node, kind);
  }

  /**
    What a heartbeat leaves of the node that sent it: the metrics as reported, each in its column, and in each of the
    three counters the number reported for it and the steps of its kind that the heartbeat's scheduling handed out.
   */
  lemma BeatAccounts(rows: Rows, nodes: map<NodeId, NodeRow>, rows': Rows, nodes': map<NodeId, NodeRow>,
                     queue: seq<StepId>, order: seq<NodeId>, id: NodeId, m: Metrics, config: SchedulerConfig, now: Time)
    requires Keyed(nodes) && id in nodes
    requires Scheduled(rows, nodes[id := Beaten(nodes[id], m, now)], rows', nodes', queue, order, config, now)
    ensures id in nodes'
    ensures nodes'[id].info == nodes[id].info.(cpuPercent := m.cpuPercent, memoryPercent := m.memoryPercent,
                                               freeDiskGb := m.freeDiskGb, thermalState := m.thermalState,
                                               onBattery := m.onBattery, lastHeartbeat := Some(now))
    ensures nodes'[id].activeJobs == m.activeJobs + |HandedTo(rows, rows', id, AnyStep)|
    ensures nodes'[id].activeWhisperJobs == m.activeWhisperJobs + |HandedTo(rows, rows', id, IsWhisperStep)|
    ensures nodes'[id].activeFfmpegJobs == m.activeFfmpegJobs + |HandedTo(rows, rows', id, IsFfmpegStep)|
  {
    hide Pass, HandedTo, Given;
    var beaten := nodes[id := Beaten(nodes[id], m, now)];
    assert id in order;
    var k :| 0 <= k < |order| && order[k] == id;
    var taken, all := RowsAt(rows, queue), NodesAt(beaten, order);
    assert all[k] == beaten[id] && NodesAt(nodes', order)[k] == nodes'[id];
    ListedIdsAreDistinct(beaten, order);
    PassInfos(taken, all, config, now);
    PassConservesJobs(taken, all, k, config, now);
    HandedIsGiven(rows, rows', queue, id, AnyStep);
    HandedIsGiven(rows, rows', queue, id, IsWhisperStep);
    HandedIsGiven(rows, rows', queue, id, IsFfmpegStep);
  }

  // ---------------------------------------------------------------- over runs

  datatype Tables = Tables(rows: Rows, nodes: map<NodeId, NodeRow>)

  /** The counters of a node cover the steps it holds, and those are within its maxima. */
  predicate Covers(rows: Rows, n: NodeRow) {
    forall kind ::
      |HeldBy(rows, n.info.id, Is(kind))| <= Load(n, kind) && |HeldBy(rows, n.info.id, Is(kind))| <= Limit(n, kind)
  }

  predicate WithinCapacity(t: Tables) {
    Keyed(t.nodes) && forall n | n in t.nodes :: Covers(t.rows, t.nodes[n])
  }

  datatype Occurrence =
    | Beat(id: NodeId, metrics: Metrics, queue: seq<StepId>, order: seq<NodeId>, now: Time)
    | Registered(id: NodeId, row: NodeRow)
    | Stepped(step: StepId, op: AtomicOp)
    | Added(step: StepId, work: Work)

  /** One thing that happens: a heartbeat, a registration, an operation on a step, or a new step. */
  predicate Turn(t: Tables, e: Occurrence, t': Tables, config: SchedulerConfig) {
    match e
    case Beat(id, metrics, queue, order, now) =>
      id in t.nodes &&
      Scheduled(t.rows, t.nodes[id := Beaten(t.nodes[id], metrics, now)], t'.rows, t'.nodes, queue, order, config, now)
    case Registered(id, row) => row.info.id == id && t' == t.(nodes := t.nodes[id := row])
    case Stepped(step, op) => step in t.rows && !op.Assign? && t' == t.(rows := t.rows[step := RowNext(t.rows[step], op)])
    case Added(step, work) => step !in t.rows && t' == t.(rows := t.rows[step := FreshRow(work)])
  }

  /** A report counts every step of a kind that the node holds; a registration allows for them. */
  predicate Honest(t: Tables, e: Occurrence) {
    match e
    case Beat(id, metrics, _, _, _) => forall kind :: Reported(metrics, kind) >= |HeldBy(t.rows, id, Is(kind))|
    case Registered(id, row) => Covers(t.rows, row)
    case _ => true
  }

  lemma HeldShrinks(rows: Rows, step: StepId, row: StepRow, node: NodeId, kind: Work -> bool)
    requires row.Held() ==> step in rows && rows[step].Held() && rows[step].assignedNode == row.assignedNode
    requires row.Held() ==> rows[step].work == row.work
    ensures |HeldBy(rows[step := row], node, kind)| <= |HeldBy(rows, node, kind)|
  {
    var before, after := HeldBy(rows, node, kind), HeldBy(rows[step := row], node, kind);
    assert after <= before;
    assert before == after + (before - after);
  }

  lemma HeldByAllShrink(t: Tables, step: StepId, row: StepRow)
    requires WithinCapacity(t)
    requires row.Held() ==> step in t.rows && t.rows[step].Held() && t.rows[step].assignedNode == row.assignedNode
    requires row.Held() ==> t.rows[step].work == row.work
    ensures WithinCapacity(t.(rows := t.rows[step := row]))
  {
    hide HeldBy;
    forall n, kind | n in t.nodes
      ensures |HeldBy(t.rows[step := row], n, Is(kind))| <= |HeldBy(t.rows, n, Is(kind))|
    {
      HeldShrinks(t.rows, step, row, n, Is(kind));
    }
  }

  lemma OnlyAssigningHands(row: StepRow, op: AtomicOp)
    requires !op.Assign?
    ensures var row' := RowNext(row, op);
            row'.Held() ==> row.Held() && row.assignedNode == row'.assignedNode && row.work == row'.work
  {
  }

  lemma TurnKeepsCapacity(t: Tables, e: Occurrence, t': Tables, config: SchedulerConfig)
    requires WithinCapacity(t) && Turn(t, e, t', config) && Honest(t, e)
    ensures WithinCapacity(t')
  {
    hide HeldBy, Holds, Is, RowNext, Scheduled;
    match e
    case Beat(id, metrics, queue, order, now) =>
      BeatKeepsCapacity(t, t', id, metrics, queue, order, config, now);
    case Registered(_, _) =>
    case Stepped(step, op) =>
      OnlyAssigningHands(t.rows[step], op);
      HeldByAllShrink(t, step, RowNext(t.rows[step], op));
    case Added(step, work) =>
      HeldByAllShrink(t, step, FreshRow(work));
  }

  lemma BeatKeepsCapacity(t: Tables, t': Tables, id: NodeId, metrics: Metrics, queue: seq<StepId>, order: seq<NodeId>,
                          config: SchedulerConfig, now: Time)
    requires WithinCapacity(t) && Turn(t, Beat(id, metrics, queue, order, now), t', config)
    requires Honest(t, Beat(id, metrics, queue, order, now))
    ensures WithinCapacity(t')
  {
    hide HeldBy, Holds, Is, Scheduled;
    var beaten := t.nodes[id := Beaten(t.nodes[id], metrics, now)];
    assert t'.nodes.Keys == beaten.Keys by {
      ScheduledKeys(t.rows, beaten, t'.rows, t'.nodes, queue, order, config, now);
    }
    forall n | n in t'.nodes ensures t'.nodes[n].info.id == n && Covers(t'.rows, t'.nodes[n]) {
      assert Covers(t.rows, t.nodes[n]);
      ScheduledNode(t.rows, beaten, t'.rows, t'.nodes, queue, order, n, Whisper, config, now);
      forall kind
        ensures |HeldBy(t'.rows, n, Is(kind))| <= Load(t'.nodes[n], kind)
        ensures |HeldBy(t'.rows, n, Is(kind))| <= Limit(t'.nodes[n], kind)
      {
        ScheduledNode(t.rows, beaten, t'.rows, t'.nodes, queue, order, n, kind, config, now);
      }
    }
  }

  lemma ScheduledKeys(rows: Rows, nodes: map<NodeId, NodeRow>, rows': Rows, nodes': map<NodeId, NodeRow>,
                      queue: seq<StepId>, order: seq<NodeId>, config: SchedulerConfig, now: Time)
    requires Scheduled(rows, nodes, rows', nodes', queue, order, config, now)
    ensures nodes'.Keys == nodes.Keys
  {
  }

  /** A run: the tables before and after each thing that happened. */
  predicate IsRun(trace: seq<Tables>, events: seq<Occurrence>, config: SchedulerConfig) {
    && |trace| == |events| + 1
    && forall i | 0 <= i < |events| :: Turn(trace[i], events[i], trace[i + 1], config)
  }

  /**
    While every report covers the steps its node holds, and every registration allows for them, no node ever holds
    more whisper or ffmpeg steps than its maxima, over any number of heartbeats.
   */
  lemma {:induction false} HonestReportsKeepCapacity(trace: seq<Tables>, events: seq<Occurrence>, config: SchedulerConfig,
                                                     n: nat)
    requires IsRun(trace, events, config) && WithinCapacity(trace[0])
    requires forall i | 0 <= i < |events| :: Honest(trace[i], events[i])
    requires n < |trace|
    ensures WithinCapacity(trace[n])
  {
    hide WithinCapacity, Turn, Honest;
    if n > 0 {
      HonestReportsKeepCapacity(trace, events, config, n - 1);
      assert Turn(trace[n - 1], events[n - 1], trace[n], config);
      TurnKeepsCapacity(trace[n - 1], events[n - 1], trace[n], config);
    }
  }

  // ---------------------------------------------------------------- what one heartbeat adds

  function Min(a: int, b: int): int {
    if a < b then a else b
  }

  /** A queued step of the kind that the node could take, were it not for the jobs it has. */
  predicate Wants(row: StepRow, n: NodeRow, kind: Kind, config: SchedulerConfig, now: Time) {
    row.status == Queued && Is(kind)(row.work) && Judge(row.work, n, config, now) in {Eligible, FullOf(kind)}
  }

  function Wanting(rows: seq<StepRow>, n: NodeRow, kind: Kind, config: SchedulerConfig, now: Time): nat {
    if rows == [] then 0
    else Wanting(rows[..|rows| - 1], n, kind, config, now) + if Wants(rows[|rows| - 1], n, kind, config, now) then 1 else 0
  }

  lemma WantsBelowLimit(row: StepRow, before: NodeRow, later: NodeRow, kind: Kind, config: SchedulerConfig, now: Time)
    requires later.info == before.info && row.status == Queued && Is(kind)(row.work)
    ensures IsNodeEligible(row.work, later, config, now) <==>
            Wants(row, before, kind, config, now) && Load(later, kind) < Limit(before, kind)
  {
    hide IsWhisperStep, IsFfmpegStep;
    if IsWhisperStep(row.work) {
      KindsAreDisjoint(row.work);
    }
  }

  /** No node but the one at k is online. */
  predicate Alone(nodes: seq<NodeRow>, k: nat) {
    forall j | 0 <= j < |nodes| && j != k :: nodes[j].info.status != Online
  }

  /** One placement gives the node at k the step if it wants it and has room, and no other node is online. */
  lemma PlacedAlone(row: StepRow, nodes: seq<NodeRow>, k: nat, config: SchedulerConfig, now: Time)
    requires k < |nodes| && Alone(nodes, k) && row.status == Queued && IsNodeEligible(row.work, nodes[k], config, now)
    ensures Placed(row, nodes, config, now).0 == AssignedRow(row, nodes[k].info.id, now)
  {
    hide Cost;
  }

  /**
    A pass gives a node at most the steps that want it and at most as many as it has room for by its counter; and
    exactly that many if no other node is online.
   */
  lemma {:induction false} PassFills(rows: seq<StepRow>, nodes: seq<NodeRow>, k: nat, kind: Kind, config: SchedulerConfig,
                                     now: Time)
    requires DistinctIds(nodes) && k < |nodes|
    ensures var added := Min(Wanting(rows, nodes[k], kind, config, now), Max(0, Limit(nodes[k], kind) - Load(nodes[k], kind)));
            && Load(Pass(rows, nodes, config, now).1[k], kind) <= Load(nodes[k], kind) + added
            && (Alone(nodes, k) ==> Load(Pass(rows, nodes, config, now).1[k], kind) == Load(nodes[k], kind) + added)
    decreases |rows|
  {
    hide Judge, Best, IsWhisperStep, IsFfmpegStep, Placed, Wants;
    if rows != [] {
      var row, front := rows[|rows| - 1], rows[..|rows| - 1];
      PassFills(front, nodes, k, kind, config, now);
      PassInfos(front, nodes, config, now);
      var charged := Pass(front, nodes, config, now).1;
      PlacedCounts(row, charged, k, config, now);
      if row.status == Queued && Is(kind)(row.work) {
        WantsBelowLimit(row, nodes[k], charged[k], kind, config, now);
        if Alone(nodes, k) && IsNodeEligible(row.work, charged[k], config, now) {
          PlacedAlone(row, charged, k, config, now);
        }
      } else {
        assert !Wants(row, nodes[k], kind, config, now) by {
          OnlyQueuedWant(row, nodes[k], kind, config, now);
        }
      }
    }
  }

  lemma OnlyQueuedWant(row: StepRow, n: NodeRow, kind: Kind, config: SchedulerConfig, now: Time)
    ensures Wants(row, n, kind, config, now) ==> row.status == Queued && Is(kind)(row.work)
  {
  }

  /** The steps in the table that want the node. */
  function WantedSteps(rows: Rows, n: NodeRow, kind: Kind, config: SchedulerConfig, now: Time): set<StepId> {
    set id | id in rows && Wants(rows[id], n, kind, config, now)
  }

  lemma WantingLast(rows: Rows, front: seq<StepId>, id: StepId, n: NodeRow, kind: Kind, config: SchedulerConfig, now: Time)
    requires forall x | x in front + [id] :: x in rows
    ensures Wanting(RowsAt(rows, front + [id]), n, kind, config, now) ==
            Wanting(RowsAt(rows, front), n, kind, config, now) + (if Wants(rows[id], n, kind, config, now) then 1 else 0)
  {
    hide Wants;
    assert RowsAt(rows, front + [id])[..|front|] == RowsAt(rows, front);
    assert RowsAt(rows, front + [id])[|front|] == rows[id];
  }

  lemma {:induction false} WantingCounts(rows: Rows, queue: seq<StepId>, n: NodeRow, kind: Kind, config: SchedulerConfig,
                                         now: Time)
    requires Distinct(queue) && forall id | id in queue :: id in rows
    ensures Wanting(RowsAt(rows, queue), n, kind, config, now) ==
            |set id | id in queue && Wants(rows[id], n, kind, config, now)|
    decreases |queue|
  {
    hide Wants;
    var wanted := set id | id in queue && Wants(rows[id], n, kind, config, now);
    if queue == [] {
      assert wanted == {};
    } else {
      hide Wanting;
      var front, id := queue[..|queue| - 1], queue[|queue| - 1];
      assert queue == front + [id];
      WantingCounts(rows, front, n, kind, config, now);
      WantingLast(rows, front, id, n, kind, config, now);
      var earlier := set x | x in front && Wants(rows[x], n, kind, config, now);
      assert wanted == if Wants(rows[id], n, kind, config, now) then earlier + {id} else earlier;
    }
  }

  lemma QueueWants(rows: Rows, queue: seq<StepId>, n: NodeRow, kind: Kind, config: SchedulerConfig, now: Time)
    requires IsQueue(rows, queue)
    ensures Wanting(RowsAt(rows, queue), n, kind, config, now) == |WantedSteps(rows, n, kind, config, now)|
  {
    AscendingIsDistinct(queue);
    WantingCounts(rows, queue, n, kind, config, now);
    forall id | id in rows && Wants(rows[id], n, kind, config, now) ensures id in queue {
      OnlyQueuedWant(rows[id], n, kind, config, now);
    }
    assert WantedSteps(rows, n, kind, config, now) == set id | id in queue && Wants(rows[id], n, kind, config, now);
  }

  /** Scheduling adds to a node's steps of a kind at most those that want it, within the room its counter shows. */
  lemma ScheduledFills(rows: Rows, nodes: map<NodeId, NodeRow>, rows': Rows, nodes': map<NodeId, NodeRow>,
                       queue: seq<StepId>, order: seq<NodeId>, node: NodeId, kind: Kind, config: SchedulerConfig, now: Time)
    requires Keyed(nodes) && node in nodes && Scheduled(rows, nodes, rows', nodes', queue, order, config, now)
    ensures var n := nodes[node];
            var added := Min(|WantedSteps(rows, n, kind, config, now)|, Max(0, Limit(n, kind) - Load(n, kind)));
            && |HeldBy(rows', node, Is(kind))| <= |HeldBy(rows, node, Is(kind))| + added
            && ((forall x | x in nodes && x != node :: nodes[x].info.status != Online) ==>
                  |HeldBy(rows', node, Is(kind))| == |HeldBy(rows, node, Is(kind))| + added)
  {
    hide Pass, Wants, WantedSteps, HeldBy, Is;
    assert node in order;
    var k :| 0 <= k < |order| && order[k] == node;
    var taken, all := RowsAt(rows, queue), NodesAt(nodes, order);
    assert all[k] == nodes[node] && NodesAt(nodes', order)[k] == nodes'[node];
    ListedIdsAreDistinct(nodes, order);
    PassFills(taken, all, k, kind, config, now);
    QueueWants(rows, queue, nodes[node], kind, config, now);
    ScheduledNode(rows, nodes, rows', nodes', queue, order, node, kind, config, now);
  }

  /**
    Exactly which heartbeats break a maximum, by the tables before them. Where no other node is online, the node ends
    with more steps of a kind than its maximum if and only if the steps it holds, and as many of those waiting for it
    as its report leaves room for, are more than that. Where others are online, that is necessary.
   */
  lemma OverfullExactly(t: Tables, t': Tables, id: NodeId, metrics: Metrics, queue: seq<StepId>, order: seq<NodeId>,
                        kind: Kind, config: SchedulerConfig, now: Time)
    requires Keyed(t.nodes) && Turn(t, Beat(id, metrics, queue, order, now), t', config)
    ensures var n := t.nodes[id];
            var waiting := |WantedSteps(t.rows, Beaten(n, metrics, now), kind, config, now)|;
            var room := Max(0, Limit(n, kind) - Reported(metrics, kind));
            var before, after := |HeldBy(t.rows, id, Is(kind))|, |HeldBy(t'.rows, id, Is(kind))|;
            && (after > Limit(n, kind) ==> before + Min(waiting, room) > Limit(n, kind))
            && ((forall x | x in t.nodes && x != id :: t.nodes[x].info.status != Online) ==>
                  after == before + Min(waiting, room) &&
                  (after > Limit(n, kind) <==> before + Min(waiting, room) > Limit(n, kind)))
  {
    hide HeldBy, Is, Scheduled, WantedSteps;
    var beaten := t.nodes[id := Beaten(t.nodes[id], metrics, now)];
    ScheduledFills(t.rows, beaten, t'.rows, t'.nodes, queue, order, id, kind, config, now);
  }

  /**
    After a heartbeat that leaves a step queued because the node has reached its maximum for that kind, whatever other
    nodes there are, it holds more than its maximum if and only if before it held more than the smaller of its report
    and its maximum.
   */
  lemma OverfullWhenSaturated(t: Tables, t': Tables, id: NodeId, metrics: Metrics, queue: seq<StepId>, order: seq<NodeId>,
                              kind: Kind, config: SchedulerConfig, now: Time, left: StepId)
    requires Keyed(t.nodes) && Turn(t, Beat(id, metrics, queue, order, now), t', config)
    requires id in t'.nodes && left in t'.rows && t'.rows[left].status == Queued
    requires Judge(t'.rows[left].work, t'.nodes[id], config, now) == FullOf(kind)
    ensures |HeldBy(t'.rows, id, Is(kind))| > Limit(t.nodes[id], kind) <==>
            |HeldBy(t.rows, id, Is(kind))| > Min(Reported(metrics, kind), Limit(t.nodes[id], kind))
  {
    hide HeldBy, Holds, Is, IsWhisperStep, IsFfmpegStep, Scheduled;
    var beaten := t.nodes[id := Beaten(t.nodes[id], metrics, now)];
    ScheduledNode(t.rows, beaten, t'.rows, t'.nodes, queue, order, id, kind, config, now);
  }

  // ---------------------------------------------------------------- two heartbeats that report nothing

  /** A pass with a single node gives it the step if it is eligible. */
  lemma SingleNode(row: StepRow, n: NodeRow, config: SchedulerConfig, now: Time)
    ensures Placed(row, [n], config, now) ==
            if row.status == Queued && IsNodeEligible(row.work, n, config, now)
            then (AssignedRow(row, n.info.id, now), [Charged(n, row.work)])
            else (row, [n])
  {
    hide IsNodeEligible, Charged;
    assert [n][0] == n;
    assert [n][0 := Charged(n, row.work)] == [Charged(n, row.work)];
  }

  const NODE := NodeRow(NodeInfo("node", "node", None, Online, "/", 1, 1, 0.0, 0.0, 0.0, "unknown", false, None), 0, 0, 0)
  const IDLE := Metrics(0.0, 0.0, 100.0, 0, 0, 0, "unknown", false)
  const BEATEN := Beaten(NODE, IDLE, 0)

  lemma IdleNode(work: Work, config: SchedulerConfig)
    requires IsWhisperStep(work) && work.avoidNodes == [] && config == DefaultConfig("/", map[])
    ensures IsNodeEligible(work, BEATEN, config, 0) && !IsNodeEligible(work, Charged(BEATEN, work), config, 0)
  {
    assert BEATEN.info.thermalState[0] == 'u' && "serious"[0] == 's' && "critical"[0] == 'c';
  }

  /** The first heartbeat: of two whisper steps one is assigned, and the other finds the node full. */
  lemma FirstBeat(a: StepRow, b: StepRow, config: SchedulerConfig)
    requires a.status == b.status == Queued && a.work == b.work
    requires IsWhisperStep(a.work) && a.work.avoidNodes == [] && config == DefaultConfig("/", map[])
    ensures Pass([a, b], [BEATEN], config, 0) == ([AssignedRow(a, "node", 0), b], [Charged(BEATEN, a.work)])
    ensures Pass([b], [BEATEN], config, 0) == ([AssignedRow(b, "node", 0)], [Charged(BEATEN, b.work)])
  {
    hide IsNodeEligible, Placed, Charged, IsWhisperStep;
    IdleNode(a.work, config);
    SingleNode(a, BEATEN, config, 0);
    SingleNode(b, BEATEN, config, 0);
    SingleNode(b, Charged(BEATEN, a.work), config, 0);
    PassOfNone([BEATEN], config, 0);
    PassNext([a, b], 0, [BEATEN], config, 0);
    PassNext([a, b], 1, [BEATEN], config, 0);
    PassNext([b], 0, [BEATEN], config, 0);
    assert [a, b][..0] == [] && [a, b][..0 + 1] == [a] && [a, b][..1 + 1] == [a, b] && [b][..0] == [] && [b][..0 + 1] == [b];
    assert BEATEN.info.id == "node";
    var first := AssignedRow(a, "node", 0);
    assert [] + [first] == [first] && [first] + [b] == [first, b];
    assert [] + [AssignedRow(b, "node", 0)] == [AssignedRow(b, "node", 0)];
  }

  function TwoSteps(a: StepRow, b: StepRow): Rows {
    map["a" := a, "b" := b]
  }

  lemma OneNodeListed(n: NodeRow)
    ensures IsListing(map["node" := n], ["node"]) && NodesAt(map["node" := n], ["node"]) == [n]
  {
  }

  lemma TwoQueued(a: StepRow, b: StepRow)
    requires b.status == Queued
    ensures a.status == Queued ==> IsQueue(TwoSteps(a, b), ["a", "b"])
    ensures a.status != Queued ==> IsQueue(TwoSteps(a, b), ["b"])
  {
    assert "a"[0] < "b"[0];
  }

  lemma TwoAt(a: StepRow, b: StepRow)
    ensures RowsAt(TwoSteps(a, b), ["a", "b"]) == [a, b] && RowsAt(TwoSteps(a, b), ["b"]) == [b]
    ensures TwoSteps(a, b).Keys == {"a", "b"} && TwoSteps(a, b)["a"] == a
  {
  }

  lemma FirstTurn(a: StepRow, b: StepRow, config: SchedulerConfig)
    requires a.status == b.status == Queued && a.work == b.work
    requires IsWhisperStep(a.work) && a.work.avoidNodes == [] && config == DefaultConfig("/", map[])
    ensures Scheduled(TwoSteps(a, b), map["node" := BEATEN], TwoSteps(AssignedRow(a, "node", 0), b),
                      map["node" := Charged(BEATEN, a.work)], ["a", "b"], ["node"], config, 0)
  {
    hide Pass, Charged, IsWhisperStep, AssignedRow, IsQueue, IsListing, RowsAt, NodesAt, TwoSteps;
    FirstBeat(a, b, config);
    TwoQueued(a, b);
    TwoAt(a, b);
    TwoAt(AssignedRow(a, "node", 0), b);
    OneNodeListed(BEATEN);
    OneNodeListed(Charged(BEATEN, a.work));
  }

  lemma SecondTurn(a: StepRow, b: StepRow, config: SchedulerConfig)
    requires a.status != Queued && b.status == Queued
    requires IsWhisperStep(b.work) && b.work.avoidNodes == [] && config == DefaultConfig("/", map[])
    ensures Scheduled(TwoSteps(a, b), map["node" := BEATEN], TwoSteps(a, AssignedRow(b, "node", 0)),
                      map["node" := Charged(BEATEN, b.work)], ["b"], ["node"], config, 0)
  {
    hide Pass, Charged, IsWhisperStep, AssignedRow, IsQueue, IsListing, RowsAt, NodesAt, TwoSteps;
    FirstBeat(b, b, config);
    TwoQueued(a, b);
    TwoAt(a, b);
    TwoAt(a, AssignedRow(b, "node", 0));
    OneNodeListed(BEATEN);
    OneNodeListed(Charged(BEATEN, b.work));
  }

  lemma HeldOfTwo(a: StepRow, b: StepRow, node: NodeId, kind: Work -> bool)
    ensures |HeldBy(TwoSteps(a, b), node, kind)| ==
            (if Holds(a, node, kind) then 1 else 0) + (if Holds(b, node, kind) then 1 else 0)
  {
    hide Holds;
    var rows := TwoSteps(a, b);
    assert rows.Keys == {"a", "b"} && rows["a"] == a && rows["b"] == b;
    hide TwoSteps;
    var left, right: set<StepId> := if Holds(a, node, kind) then {"a"} else {}, if Holds(b, node, kind) then {"b"} else {};
    assert "a" != "b";
    assert HeldBy(rows, node, kind) == left + right;
    assert |left + right| == |left| + |right|;
  }

  /**
    A concrete run: two queued whisper steps, one node with room for one, and two heartbeats that both report no
    jobs, as the shipped worker's do. The node ends with both steps.
   */
  lemma IdleReportsOverfill(work: Work) returns (trace: seq<Tables>, events: seq<Occurrence>, config: SchedulerConfig)
    requires IsWhisperStep(work) && work.avoidNodes == []
    ensures IsRun(trace, events, config) && |events| == 2 && WithinCapacity(trace[0])
    ensures events[0].Beat? && events[1].Beat? && events[0].metrics == events[1].metrics == IDLE
    ensures "node" in trace[2].nodes
    ensures |HeldBy(trace[2].rows, "node", Is(Whisper))| == 2 > trace[2].nodes["node"].info.maxWhisperJobs == 1
  {
    hide IsWhisperStep, IsFfmpegStep, Scheduled, Charged, HeldBy;
    config := DefaultConfig("/", map[]);
    var queued, held := FreshRow(work), AssignedRow(FreshRow(work), "node", 0);
    var full := map["node" := Charged(BEATEN, work)];
    var e1, e2 := Beat("node", IDLE, ["a", "b"], ["node"], 0), Beat("node", IDLE, ["b"], ["node"], 0);
    trace := [Tables(TwoSteps(queued, queued), map["node" := NODE]), Tables(TwoSteps(held, queued), full),
              Tables(TwoSteps(held, held), full)];
    events := [e1, e2];
    FirstTurn(queued, queued, config);
    assert map["node" := NODE]["node" := BEATEN] == map["node" := BEATEN];
    assert Turn(trace[0], e1, trace[1], config);
    SecondTurn(held, queued, config);
    ChargedBeats(work);
    assert full["node" := BEATEN] == map["node" := BEATEN];
    assert Turn(trace[1], e2, trace[2], config);
    HeldOfTwo(queued, queued, "node", Is(Whisper));
    HeldOfTwo(queued, queued, "node", Is(Ffmpeg));
    HeldOfTwo(held, held, "node", Is(Whisper));
  }

  /** The next idle report wipes out what a pass added to the counters. */
  lemma ChargedBeats(work: Work)
    ensures Beaten(Charged(BEATEN, work), IDLE, 0) == BEATEN
    ensures Charged(BEATEN, work).info == BEATEN.info
  {
  }
}
