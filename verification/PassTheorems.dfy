/** What a whole scheduling pass guarantees, for any steps and any nodes. */
module PassTheorems {
  import opened Wrappers
  import opened StateMachine
  import opened Lifecycle
  import opened Policies
  import opened Scoring
  import opened Scheduling

  // ---------------------------------------------------------------- what becomes of the steps

  /** A row after the pass: as it was, or assigned to a node that was eligible for it when the pass began. */
  predicate Settled(before: StepRow, after: StepRow, nodes: seq<NodeRow>, config: SchedulerConfig, now: Time) {
    || after == before
    || (before.status == Queued &&
        exists k | 0 <= k < |nodes| ::
          IsNodeEligible(before.work, nodes[k], config, now) && after == AssignedRow(before, nodes[k].info.id, now))
  }

  /**
    A pass does nothing to a step but assign it, if it was queued, to a node that is online, fresh and
    within every limit; no priority gets an ineligible node selected. In the lifecycle protocol such
    an assignment is one `Assign` operation.
   */
  lemma {:induction false} PassOnlyAssigns(rows: seq<StepRow>, nodes: seq<NodeRow>, config: SchedulerConfig, now: Time)
    ensures forall i | 0 <= i < |rows| :: Settled(rows[i], Pass(rows, nodes, config, now).0[i], nodes, config, now)
    decreases |rows|
  {
    hide Judge, Cost;
    if rows != [] {
      var last := |rows| - 1;
      PassOnlyAssigns(rows[..last], nodes, config, now);
      PassInfos(rows[..last], nodes, config, now);
      var charged := Pass(rows[..last], nodes, config, now).1;
      var best := Best(rows[last].work, charged, config, now);
      if rows[last].status == Queued && best.Some? {
        EligibilityIsAntitone(rows[last].work, nodes[best.value], charged[best.value], config, now);
      }
      forall i | 0 <= i < last
        ensures Settled(rows[i], Pass(rows, nodes, config, now).0[i], nodes, config, now)
      {
        assert rows[..last][i] == rows[i];
      }
    }
  }

  lemma SettledIsAssign(before: StepRow, after: StepRow, nodes: seq<NodeRow>, config: SchedulerConfig, now: Time)
    requires Settled(before, after, nodes, config, now) && after != before
    ensures after.assignedNode.Some? && after == RowNext(before, Assign(after.assignedNode.value, now))
    ensures after.epoch == before.epoch + 1 && after.claimedAt == before.claimedAt
  {
  }

  /** No step still queued has an eligible node. */
  predicate Exhausted(after: seq<StepRow>, nodes: seq<NodeRow>, config: SchedulerConfig, now: Time) {
    forall i, k | 0 <= i < |after| && 0 <= k < |nodes| && after[i].status == Queued ::
      !IsNodeEligible(after[i].work, nodes[k], config, now)
  }

  /** Work conservation: a step the pass leaves queued has no eligible node left, by the counters the pass ends with. */
  lemma {:induction false} PassIsWorkConserving(rows: seq<StepRow>, nodes: seq<NodeRow>, config: SchedulerConfig, now: Time)
    ensures Exhausted(Pass(rows, nodes, config, now).0, Pass(rows, nodes, config, now).1, config, now)
    decreases |rows|
  {
    hide Judge, Cost;
    if rows != [] {
      var last := |rows| - 1;
      PassIsWorkConserving(rows[..last], nodes, config, now);
      var (earlier, charged) := Pass(rows[..last], nodes, config, now);
      var (after, final) := Pass(rows, nodes, config, now);
      forall i, k | 0 <= i < |rows| && 0 <= k < |final| && after[i].status == Queued
        ensures !IsNodeEligible(after[i].work, final[k], config, now)
      {
        if i < last && IsNodeEligible(after[i].work, final[k], config, now) {
          assert after[i] == earlier[i];
          EligibilityIsAntitone(after[i].work, charged[k], final[k], config, now);
        }
      }
    }
  }

  // ---------------------------------------------------------------- what becomes of the counters

  /** How many steps of a kind the pass gave to a node. */
  function Given(rows: seq<StepRow>, after: seq<StepRow>, id: NodeId, kind: Work -> bool): nat
    requires |rows| == |after|
  {
    if rows == [] then 0
    else
      var last := |rows| - 1;
      Given(rows[..last], after[..last], id, kind) +
      if rows[last].status == Queued && after[last].status == Assigned && after[last].assignedNode == Some(id) &&
         kind(rows[last].work) then 1 else 0
  }

  predicate AnyStep(work: Work) { true }

  lemma PlacedCounts(row: StepRow, nodes: seq<NodeRow>, k: nat, config: SchedulerConfig, now: Time)
    requires DistinctIds(nodes) && k < |nodes|
    ensures var (after, charged) := Placed(row, nodes, config, now);
            var here := row.status == Queued && after.status == Assigned && after.assignedNode == Some(nodes[k].info.id);
            && charged[k].activeJobs == nodes[k].activeJobs + (if here then 1 else 0)
            && charged[k].activeWhisperJobs == nodes[k].activeWhisperJobs + (if here && IsWhisperStep(row.work) then 1 else 0)
            && charged[k].activeFfmpegJobs == nodes[k].activeFfmpegJobs + (if here && IsFfmpegStep(row.work) then 1 else 0)
            && (here ==> IsNodeEligible(row.work, nodes[k], config, now))
  {
    hide Judge, Cost;
    if IsWhisperStep(row.work) {
      KindsAreDisjoint(row.work);
    }
  }

  /**
    Conservation: every counter of a node grows by exactly the steps of its kind that the pass gave to
    that node.
   */
  lemma {:induction false} PassConservesJobs(rows: seq<StepRow>, nodes: seq<NodeRow>, k: nat, config: SchedulerConfig, now: Time)
    requires DistinctIds(nodes) && k < |nodes|
    ensures var (after, charged) := Pass(rows, nodes, config, now);
            var id := nodes[k].info.id;
            && charged[k].activeJobs == nodes[k].activeJobs + Given(rows, after, id, AnyStep)
            && charged[k].activeWhisperJobs == nodes[k].activeWhisperJobs + Given(rows, after, id, IsWhisperStep)
            && charged[k].activeFfmpegJobs == nodes[k].activeFfmpegJobs + Given(rows, after, id, IsFfmpegStep)
    decreases |rows|
  {
    hide Judge, Best, IsWhisperStep, IsFfmpegStep, Placed;
    if rows != [] {
      var last := |rows| - 1;
      PassConservesJobs(rows[..last], nodes, k, config, now);
      PassInfos(rows[..last], nodes, config, now);
      var (earlier, charged) := Pass(rows[..last], nodes, config, now);
      PlacedCounts(rows[last], charged, k, config, now);
      assert Pass(rows, nodes, config, now).0[..last] == earlier;
    }
  }

  function Max(a: int, b: int): int {
    if a < b then b else a
  }

  /** Capacity: a pass never takes a node's whisper or ffmpeg jobs past its maximum, unless they were past it already. */
  lemma {:induction false} PassRespectsCapacity(rows: seq<StepRow>, nodes: seq<NodeRow>, k: nat, config: SchedulerConfig, now: Time)
    requires DistinctIds(nodes) && k < |nodes|
    ensures var charged := Pass(rows, nodes, config, now).1;
            && charged[k].activeWhisperJobs <= Max(nodes[k].activeWhisperJobs, nodes[k].info.maxWhisperJobs)
            && charged[k].activeFfmpegJobs <= Max(nodes[k].activeFfmpegJobs, nodes[k].info.maxFfmpegJobs)
    decreases |rows|
  {
    hide Best, IsWhisperStep, IsFfmpegStep, Placed;
    if rows != [] {
      var last := |rows| - 1;
      PassRespectsCapacity(rows[..last], nodes, k, config, now);
      PassInfos(rows[..last], nodes, config, now);
      PlacedCounts(rows[last], Pass(rows[..last], nodes, config, now).1, k, config, now);
    }
  }

  // ---------------------------------------------------------------- the order of the node rows

  lemma BestOfPermutation(work: Work, xs: seq<NodeRow>, ys: seq<NodeRow>, config: SchedulerConfig, now: Time)
    requires multiset(xs) == multiset(ys) && DistinctIds(ys)
    ensures var k, l := Best(work, xs, config, now), Best(work, ys, config, now);
            (k.Some? <==> l.Some?) && (k.Some? ==> xs[k.value] == ys[l.value])
  {
    hide Judge, Cost;
    forall x | x in xs ensures x in ys {
      assert x in multiset(xs);
    }
    forall y | y in ys ensures y in xs {
      assert y in multiset(ys);
    }
    match Best(work, xs, config, now)
    case Some(k) =>
      assert xs[k] in ys;
      var l :| 0 <= l < |ys| && ys[l] == xs[k];
      forall j | 0 <= j < |ys| && IsNodeEligible(work, ys[j], config, now)
        ensures KeyLeq(KeyOf(work, ys[l], config), KeyOf(work, ys[j], config))
      {
        assert ys[j] in xs;
      }
      BestIsUnique(work, ys, l, Best(work, ys, config, now).value, config, now);
    case None =>
      forall j | 0 <= j < |ys| ensures !IsNodeEligible(work, ys[j], config, now) {
        assert ys[j] in xs;
      }
  }

  /**
    Order independence: the rows of the node table come in no particular order, and a pass gives every
    step the same node, and every node the same counters, whatever the order is.
   */
  lemma {:induction false} OrderIndependence(rows: seq<StepRow>, xs: seq<NodeRow>, ys: seq<NodeRow>, config: SchedulerConfig, now: Time)
    requires multiset(xs) == multiset(ys) && DistinctIds(xs) && DistinctIds(ys)
    ensures Pass(rows, xs, config, now).0 == Pass(rows, ys, config, now).0
    ensures multiset(Pass(rows, xs, config, now).1) == multiset(Pass(rows, ys, config, now).1)
    decreases |rows|
  {
    hide Judge, Best, Cost, Charged;
    if rows != [] {
      var last := |rows| - 1;
      OrderIndependence(rows[..last], xs, ys, config, now);
      PassInfos(rows[..last], ys, config, now);
      BestOfPermutation(rows[last].work, Pass(rows[..last], xs, config, now).1, Pass(rows[..last], ys, config, now).1, config, now);
    }
  }
}
