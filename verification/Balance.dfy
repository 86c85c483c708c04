/** How a pass spreads generic steps over nodes, and how far priorities bend that. */
module Balance {
  import opened Wrappers
  import opened StateMachine
  import opened Policies
  import opened Ordering
  import opened Scoring
  import opened Scheduling

  // ---------------------------------------------------------------- greedy balance

  /** The part of the cost of a generic step that job counts do not enter. */
  function StaticCost(info: NodeInfo, config: SchedulerConfig): real {
    0.30 * info.cpuPercent + 0.20 * info.memoryPercent + 0.10 * ThermalPenalty(info) - NodePriorityBonus(info, config)
  }

  /** Generic steps that put the same constraints on their node. */
  predicate Alike(a: Work, b: Work) {
    && IsGenericStep(a) && IsGenericStep(b)
    && a.avoidNodes == b.avoidNodes && a.estimatedRuntimeMinutes == b.estimatedRuntimeMinutes
  }

  lemma AlikeScores(a: Work, b: Work, before: NodeRow, after: NodeRow, config: SchedulerConfig, now: Time)
    requires Alike(a, b) && before.info == after.info
    ensures IsNodeEligible(a, before, config, now) <==> IsNodeEligible(b, after, config, now)
    ensures Cost(a, after, config) == StaticCost(after.info, config) + 0.15 * after.activeJobs as real
  {
  }

  /** Every node that got a step costs at most one step more than any eligible node. */
  predicate Balanced(work: Work, before: seq<NodeRow>, after: seq<NodeRow>, config: SchedulerConfig, now: Time)
    requires |before| == |after|
  {
    forall k, j | 0 <= k < |after| && 0 <= j < |after| && before[k].activeJobs < after[k].activeJobs &&
                  IsNodeEligible(work, after[j], config, now) ::
      Cost(work, after[k], config) <= Cost(work, after[j], config) + 0.15
  }

  lemma PlacedStaysBalanced(work: Work, row: StepRow, before: seq<NodeRow>, nodes: seq<NodeRow>, config: SchedulerConfig, now: Time)
    requires |before| == |nodes| && Alike(work, row.work)
    requires forall k | 0 <= k < |nodes| :: NoLessBusy(before[k], nodes[k])
    requires Balanced(work, before, nodes, config, now)
    ensures Balanced(work, before, Placed(row, nodes, config, now).1, config, now)
  {
    hide Judge, Cost, StaticCost, StrLess;
    var after := Placed(row, nodes, config, now).1;
    var best := Best(row.work, nodes, config, now);
    if row.status == Queued && best.Some? {
      var b := best.value;
      forall j | 0 <= j < |nodes|
        ensures IsNodeEligible(work, after[j], config, now) ==> IsNodeEligible(row.work, nodes[j], config, now)
        ensures IsNodeEligible(work, after[j], config, now) <==> IsNodeEligible(work, nodes[j], config, now)
        ensures Cost(row.work, nodes[j], config) == Cost(work, nodes[j], config)
        ensures Cost(work, after[j], config) == Cost(work, nodes[j], config) + (if j == b then 0.15 else 0.0)
      {
        AlikeScores(work, row.work, after[j], nodes[j], config, now);
        AlikeScores(work, work, after[j], nodes[j], config, now);
        AlikeScores(work, row.work, nodes[j], after[j], config, now);
        AlikeScores(row.work, work, nodes[j], nodes[j], config, now);
        AlikeScores(work, work, nodes[j], nodes[j], config, now);
      }
    }
  }

  /**
    Greedy balance: after a pass over any number of generic steps with the same constraints, every node
    that received one ends at most 0.15 above the final cost of every eligible node.
   */
  lemma {:induction false} GreedyBalance(work: Work, rows: seq<StepRow>, nodes: seq<NodeRow>, config: SchedulerConfig, now: Time)
    requires forall i | 0 <= i < |rows| :: Alike(work, rows[i].work)
    ensures Balanced(work, nodes, Pass(rows, nodes, config, now).1, config, now)
    decreases |rows|
  {
    hide Judge, Cost, Best, Placed;
    if rows != [] {
      var last := |rows| - 1;
      GreedyBalance(work, rows[..last], nodes, config, now);
      PassInfos(rows[..last], nodes, config, now);
      PlacedStaysBalanced(work, rows[last], nodes, Pass(rows[..last], nodes, config, now).1, config, now);
    }
  }

  /** Two eligible nodes of equal static cost end with job counts at most one apart, or no further apart than before. */
  lemma EqualNodesShareEvenly(work: Work, rows: seq<StepRow>, nodes: seq<NodeRow>, k: nat, j: nat, config: SchedulerConfig, now: Time)
    requires IsGenericStep(work) && forall i | 0 <= i < |rows| :: Alike(work, rows[i].work)
    requires k < |nodes| && j < |nodes| && IsNodeEligible(work, nodes[j], config, now)
    requires StaticCost(nodes[k].info, config) == StaticCost(nodes[j].info, config)
    ensures var after := Pass(rows, nodes, config, now).1;
            var gap, start := after[k].activeJobs - after[j].activeJobs, nodes[k].activeJobs - nodes[j].activeJobs;
            gap <= 1 || gap <= start
  {
    hide Judge, Cost, StaticCost, Pass;
    var after := Pass(rows, nodes, config, now).1;
    GreedyBalance(work, rows, nodes, config, now);
    PassInfos(rows, nodes, config, now);
    AlikeScores(work, work, nodes[j], after[j], config, now);
    AlikeScores(work, work, nodes[k], after[k], config, now);
  }

  // ---------------------------------------------------------------- priorities

  /** Metrics and counters as workers report them: never negative. */
  predicate SaneMetrics(node: NodeRow) {
    && node.info.cpuPercent >= 0.0 && node.info.memoryPercent >= 0.0
    && node.activeJobs >= 0 && node.activeFfmpegJobs >= 0 && node.activeWhisperJobs >= 0
  }

  predicate DefaultLimits(config: SchedulerConfig) {
    config.maxCpuPercent == 85.0 && config.maxMemoryPercent == 85.0
  }

  /** The most that load, memory and heat can add to the cost of an eligible node under the default limits. */
  const LOAD_CEILING := 44.5

  /** How far a node is ahead of another in the configured priorities. */
  function PriorityGap(preferred: NodeRow, other: NodeRow, config: SchedulerConfig): real {
    (ListedPriority(preferred.info, config) - ListedPriority(other.info, config)) as real
  }

  /**
    Dominance: a priority gap above 44.5 plus 0.15 for each job of the same type on the preferred node
    outweighs every difference in load that the hard filters let through.
   */
  lemma PriorityDominance(work: Work, preferred: NodeRow, other: NodeRow, config: SchedulerConfig, now: Time)
    requires DefaultLimits(config) && SaneMetrics(other)
    requires IsNodeEligible(work, preferred, config, now) && IsNodeEligible(work, other, config, now)
    requires PriorityGap(preferred, other, config) > LOAD_CEILING + 0.15 * SameTypeActiveJobs(work, preferred) as real
    ensures Cost(work, preferred, config) < Cost(work, other, config)
  {
    PriorityLowersCost(work, preferred, config);
    PriorityLowersCost(work, other, config);
    assert ThermalPenalty(preferred.info) <= 20.0;
    assert ThermalPenalty(other.info) >= 0.0;
    assert SameTypeActiveJobs(work, other) >= 0;
  }

  /** While the gap covers the jobs it will have, the preferred node takes every generic step it is eligible for. */
  lemma {:induction false} PreferredNodeTakesAll(rows: seq<StepRow>, nodes: seq<NodeRow>, k: nat, config: SchedulerConfig, now: Time)
    requires DefaultLimits(config) && DistinctIds(nodes) && k < |nodes|
    requires forall j | 0 <= j < |nodes| :: SaneMetrics(nodes[j])
    requires forall i | 0 <= i < |rows| ::
               rows[i].status == Queued && IsGenericStep(rows[i].work) && IsNodeEligible(rows[i].work, nodes[k], config, now)
    requires forall j | 0 <= j < |nodes| && j != k ::
               PriorityGap(nodes[k], nodes[j], config) > LOAD_CEILING + 0.15 * (nodes[k].activeJobs + |rows| - 1) as real
    ensures var (after, charged) := Pass(rows, nodes, config, now);
            && (forall i | 0 <= i < |rows| :: after[i] == AssignedRow(rows[i], nodes[k].info.id, now))
            && charged[k].activeJobs == nodes[k].activeJobs + |rows|
    decreases |rows|
  {
    hide Judge, Cost, StrLess;
    if rows != [] {
      var last := |rows| - 1;
      var work := rows[last].work;
      forall j | 0 <= j < |nodes| && j != k
        ensures PriorityGap(nodes[k], nodes[j], config) > LOAD_CEILING + 0.15 * (nodes[k].activeJobs + last - 1) as real
      {
        assert (nodes[k].activeJobs + last - 1) as real < (nodes[k].activeJobs + |rows| - 1) as real;
      }
      PreferredNodeTakesAll(rows[..last], nodes, k, config, now);
      PassInfos(rows[..last], nodes, config, now);
      var charged := Pass(rows[..last], nodes, config, now).1;
      AlikeScores(work, work, nodes[k], charged[k], config, now);
      PreferredIsBest(work, charged, k, config, now);
    }
  }

  lemma PreferredIsBest(work: Work, nodes: seq<NodeRow>, k: nat, config: SchedulerConfig, now: Time)
    requires DefaultLimits(config) && DistinctIds(nodes) && k < |nodes|
    requires IsNodeEligible(work, nodes[k], config, now)
    requires forall j | 0 <= j < |nodes| :: SaneMetrics(nodes[j])
    requires forall j | 0 <= j < |nodes| && j != k ::
               PriorityGap(nodes[k], nodes[j], config) > LOAD_CEILING + 0.15 * SameTypeActiveJobs(work, nodes[k]) as real
    ensures Best(work, nodes, config, now) == Some(k)
  {
    hide Judge, Cost, StrLess, PriorityGap, SaneMetrics;
    var best := Best(work, nodes, config, now).value;
    if best != k {
      PriorityDominance(work, nodes[k], nodes[best], config, now);
    }
  }

  /**
    With a gap of 100 over every other node and no jobs to begin with, the first 370 generic steps of a
    pass go to the preferred node.
   */
  lemma FirstStepsGoToPreferred(rows: seq<StepRow>, nodes: seq<NodeRow>, k: nat, config: SchedulerConfig, now: Time)
    requires DefaultLimits(config) && DistinctIds(nodes) && k < |nodes| && |rows| <= 370
    requires nodes[k].activeJobs == 0 && forall j | 0 <= j < |nodes| :: SaneMetrics(nodes[j])
    requires forall i | 0 <= i < |rows| ::
               rows[i].status == Queued && IsGenericStep(rows[i].work) && IsNodeEligible(rows[i].work, nodes[k], config, now)
    requires forall j | 0 <= j < |nodes| && j != k :: PriorityGap(nodes[k], nodes[j], config) >= 100.0
    ensures forall i | 0 <= i < |rows| :: Pass(rows, nodes, config, now).0[i] == AssignedRow(rows[i], nodes[k].info.id, now)
  {
    hide Judge, PriorityGap, Pass;
    assert 0.15 * (|rows| - 1) as real <= 0.15 * 369.0;
    PreferredNodeTakesAll(rows, nodes, k, config, now);
  }

  /** Nothing the configuration lists is the node's id or its host. */
  predicate Unlisted(info: NodeInfo, config: SchedulerConfig) {
    info.id !in config.nodePriorities && (info.host.Some? ==> info.host.value !in config.nodePriorities)
  }

  /**
    What an operator gets: with a priority of at least 100 for one name, and nothing else that names a node, the
    first 370 generic steps go to the idle node whose id or, failing that, whose host it is.
   */
  lemma ListedNodeTakesFirstSteps(rows: seq<StepRow>, nodes: seq<NodeRow>, k: nat, name: string,
                                  config: SchedulerConfig, now: Time)
    requires DefaultLimits(config) && DistinctIds(nodes) && k < |nodes| && |rows| <= 370
    requires nodes[k].activeJobs == 0 && forall j | 0 <= j < |nodes| :: SaneMetrics(nodes[j])
    requires forall i | 0 <= i < |rows| ::
               rows[i].status == Queued && IsGenericStep(rows[i].work) && IsNodeEligible(rows[i].work, nodes[k], config, now)
    requires name in config.nodePriorities && config.nodePriorities[name] >= 100
    requires nodes[k].info.id == name ||
             (nodes[k].info.id !in config.nodePriorities && nodes[k].info.host == Some(name) && name != "")
    requires forall j | 0 <= j < |nodes| && j != k :: Unlisted(nodes[j].info, config)
    ensures forall i | 0 <= i < |rows| :: Pass(rows, nodes, config, now).0[i] == AssignedRow(rows[i], nodes[k].info.id, now)
  {
    hide Judge, Pass;
    FirstStepsGoToPreferred(rows, nodes, k, config, now);
  }

  function Witness(id: NodeId, cpu: real, memory: real, thermal: string, jobs: int): NodeRow {
    NodeRow(NodeInfo(id, id, None, Online, "/", 1, 1, cpu, memory, 20.0, thermal, false, Some(0)), jobs, 0, 0)
  }

  /**
    Both bounds are exact. A preferred node as loaded as the filters allow, holding 370 jobs and
    ahead by exactly 100, only ties with an idle node, and the tie goes to the smaller id.
   */
  lemma DominanceBoundIsExact(work: Work)
    requires IsGenericStep(work) && work.avoidNodes == []
    ensures var config := DefaultConfig("/", map["b" := 100]);
            var busy, idle := Witness("b", 85.0, 85.0, "fair", 370), Witness("a", 0.0, 0.0, "normal", 0);
            && PriorityGap(busy, idle, config) == 100.0 == LOAD_CEILING + 0.15 * SameTypeActiveJobs(work, busy) as real
            && Cost(work, busy, config) == Cost(work, idle, config)
            && Best(work, [busy, idle], config, 0) == Some(1)
  {
    var config := DefaultConfig("/", map["b" := 100]);
    var busy, idle := Witness("b", 85.0, 85.0, "fair", 370), Witness("a", 0.0, 0.0, "normal", 0);
    assert busy.info.thermalState[0] == 'f' && idle.info.thermalState[0] == 'n';
    assert "serious"[0] == 's' && "critical"[0] == 'c' && "normal"[0] == 'n';
    assert busy.info.id[0] == 'b' && idle.info.id[0] == 'a';
    assert NodePriorityBonus(idle.info, config) == 0.0;
    assert DistinctIds([busy, idle]);
    assert IsBest(work, [busy, idle], 1, config, 0) by {
      assert StrLess("a", "b") && !StrLess("b", "a");
    }
    BestIsUnique(work, [busy, idle], 1, Best(work, [busy, idle], config, 0).value, config, 0);
  }
}
