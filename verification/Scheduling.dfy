/**
  One scheduling pass: a greedy loop over the queued steps. Every assignment raises the counters of
  the chosen node, and so changes what the later steps of the same pass find eligible and cheap.
 */
module Scheduling {
  import opened Wrappers
  import opened StateMachine
  import opened Policies
  import opened Scoring

  // ---------------------------------------------------------------- one assignment

  /** The counters of a node that has just been given a step. */
  function Charged(node: NodeRow, work: Work): NodeRow {
    if IsWhisperStep(work) then
      node.(activeJobs := node.activeJobs + 1, activeWhisperJobs := node.activeWhisperJobs + 1)
    else if IsFfmpegStep(work) then
      node.(activeJobs := node.activeJobs + 1, activeFfmpegJobs := node.activeFfmpegJobs + 1)
    else node.(activeJobs := node.activeJobs + 1)
  }

  /** The step row and the node rows after one iteration of the pass. */
  function Placed(row: StepRow, nodes: seq<NodeRow>, config: SchedulerConfig, now: Time): (StepRow, seq<NodeRow>) {
    if row.status != Queued then (row, nodes)
    else
      match Best(row.work, nodes, config, now)
      case None => (row, nodes)
      case Some(k) => (AssignedRow(row, nodes[k].info.id, now), nodes[k := Charged(nodes[k], row.work)])
  }

  datatype SchedulerError = NotQueued(status: StepStatus)

  /** Picks the best node for a queued step and hands the step to it, in place. */
  method AssignBestNode(step: Step, nodes: seq<Node>, config: SchedulerConfig, now: Time)
    returns (r: Result<SchedulerDecision, SchedulerError>)
    requires forall i, j | 0 <= i < j < |nodes| :: nodes[i] != nodes[j]
    requires DistinctIds(NodeRows(nodes))
    modifies step, nodes
    ensures r.Err? <==> old(step.status) != Queued
    ensures (step.Row(), NodeRows(nodes)) == Placed(old(step.Row()), old(NodeRows(nodes)), config, now)
    ensures r.Ok? ==> r.value.selected == Best(step.work, old(NodeRows(nodes)), config, now)
    ensures r.Ok? ==> Accounts(step.work, old(NodeRows(nodes)), r.value.rejected, r.value.scores, config, now)
  {
    hide Best, Judge, Cost, Accounts;
    if step.status != Queued {
      return Err(NotQueued(step.status));
    }
    var decision := SelectNodeForStep(step.work, nodes, config, now);
    if decision.selected.Some? {
      var k := decision.selected.value;
      var chosen := nodes[k];
      var _ := AssignStep(step, chosen.info.id, now);
      chosen.activeJobs := chosen.activeJobs + 1;
      if IsWhisperStep(step.work) {
        chosen.activeWhisperJobs := chosen.activeWhisperJobs + 1;
      } else if IsFfmpegStep(step.work) {
        chosen.activeFfmpegJobs := chosen.activeFfmpegJobs + 1;
      }
      assert NodeRows(nodes) == old(NodeRows(nodes))[k := Charged(old(NodeRows(nodes))[k], step.work)];
    }
    return Ok(decision);
  }

  // ---------------------------------------------------------------- the pass

  /** The step rows and the node rows after a pass over the steps, in order. */
  function Pass(rows: seq<StepRow>, nodes: seq<NodeRow>, config: SchedulerConfig, now: Time): (r: (seq<StepRow>, seq<NodeRow>))
    ensures |r.0| == |rows| && |r.1| == |nodes|
  {
    if rows == [] then ([], nodes)
    else
      var (earlier, charged) := Pass(rows[..|rows| - 1], nodes, config, now);
      var (row, after) := Placed(rows[|rows| - 1], charged, config, now);
      (earlier + [row], after)
  }

  lemma PassInfos(rows: seq<StepRow>, nodes: seq<NodeRow>, config: SchedulerConfig, now: Time)
    ensures forall k | 0 <= k < |nodes| :: NoLessBusy(nodes[k], Pass(rows, nodes, config, now).1[k])
    ensures DistinctIds(nodes) ==> DistinctIds(Pass(rows, nodes, config, now).1)
  {
    hide Judge, Best, Cost;
    if rows != [] {
      PassInfos(rows[..|rows| - 1], nodes, config, now);
    }
  }

  lemma PassOfNone(nodes: seq<NodeRow>, config: SchedulerConfig, now: Time)
    ensures Pass([], nodes, config, now) == ([], nodes)
  {
  }

  lemma PassNext(rows: seq<StepRow>, n: nat, nodes: seq<NodeRow>, config: SchedulerConfig, now: Time)
    requires n < |rows|
    ensures var (done, charged) := Pass(rows[..n], nodes, config, now);
            var (row, after) := Placed(rows[n], charged, config, now);
            Pass(rows[..n + 1], nodes, config, now) == (done + [row], after)
  {
    assert rows[..n + 1][..n] == rows[..n];
  }

  ghost function StepRows(steps: seq<Step>): (rows: seq<StepRow>)
    reads steps
    ensures |rows| == |steps| && forall i | 0 <= i < |steps| :: rows[i] == steps[i].Row()
  {
    seq(|steps|, i requires 0 <= i < |steps| reads steps => steps[i].Row())
  }

  /** The loop over the queued steps; a step that turns out not to be queued is skipped. */
  method ScheduleQueuedSteps(steps: seq<Step>, nodes: seq<Node>, config: SchedulerConfig, now: Time)
    requires forall i, j | 0 <= i < j < |steps| :: steps[i] != steps[j]
    requires forall i, j | 0 <= i < j < |nodes| :: nodes[i] != nodes[j]
    requires DistinctIds(NodeRows(nodes))
    modifies steps, nodes
    ensures (StepRows(steps), NodeRows(nodes)) == Pass(old(StepRows(steps)), old(NodeRows(nodes)), config, now)
  {
    hide Placed, Best, Pass, NoLessBusy, DistinctIds, Accounts;
    ghost var rows, before := StepRows(steps), NodeRows(nodes);
    PassOfNone(before, config, now);
    for n := 0 to |steps|
      invariant NodeRows(nodes) == Pass(rows[..n], before, config, now).1
      invariant forall i | 0 <= i < n :: steps[i].Row() == Pass(rows[..n], before, config, now).0[i]
      invariant forall i | n <= i < |steps| :: steps[i].Row() == rows[i]
    {
      PassInfos(rows[..n], before, config, now);
      PassNext(rows, n, before, config, now);
      var _ := AssignBestNode(steps[n], nodes, config, now);
    }
    assert rows[..|steps|] == rows;
    assert StepRows(steps) == Pass(rows, before, config, now).0;
  }
}
