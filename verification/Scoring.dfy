/**
  Scoring of eligible nodes and the choice of the cheapest. Costs are exact reals; the program uses
  binary floating point.
 */
module Scoring {
  import opened Wrappers
  import opened StateMachine
  import opened Policies
  import opened Ordering

  function SameTypeActiveJobs(work: Work, node: NodeRow): int {
    if IsWhisperStep(work) then node.activeWhisperJobs
    else if IsFfmpegStep(work) then node.activeFfmpegJobs
    else node.activeJobs
  }

  function ThermalPenalty(info: NodeInfo): real {
    if info.thermalState == "normal" then 0.0
    else if info.thermalState == "fair" then 20.0
    else if info.thermalState == "serious" then 100.0
    else if info.thermalState == "critical" then 100.0
    else 10.0
  }

  function NodePriorityBonus(info: NodeInfo, config: SchedulerConfig): real {
    if info.id in config.nodePriorities then config.nodePriorities[info.id] as real
    else if info.host.Some? && info.host.value != "" && info.host.value in config.nodePriorities then
      config.nodePriorities[info.host.value] as real
    else 0.0
  }

  /** The score breakdown; the components that are always zero are left out. */
  datatype NodeCost = NodeCost(
    cpuLoad: real,
    memoryPressure: real,
    activeSameTypeJobs: real,
    thermalPenalty: real,
    priorityBonus: real)
  {
    function Total(): real {
      cpuLoad + memoryPressure + activeSameTypeJobs + thermalPenalty - priorityBonus
    }
  }

  function CalculateNodeCost(work: Work, node: NodeRow, config: SchedulerConfig): NodeCost {
    NodeCost(
      0.30 * node.info.cpuPercent,
      0.20 * node.info.memoryPercent,
      0.15 * SameTypeActiveJobs(work, node) as real,
      0.10 * ThermalPenalty(node.info),
      NodePriorityBonus(node.info, config))
  }

  function Cost(work: Work, node: NodeRow, config: SchedulerConfig): real {
    CalculateNodeCost(work, node, config).Total()
  }

  /** The priority the configuration lists for a node: by its id, or else by its host, or else none. */
  function ListedPriority(info: NodeInfo, config: SchedulerConfig): int {
    var listed := config.nodePriorities;
    match info.host
    case Some(host) =>
      if info.id in listed then listed[info.id] else if host in listed && |host| > 0 then listed[host] else 0
    case None =>
      if info.id in listed then listed[info.id] else 0
  }

  /** Each point of the listed priority makes a node one unit cheaper than it would be without priorities. */
  lemma PriorityLowersCost(work: Work, node: NodeRow, config: SchedulerConfig)
    ensures Cost(work, node, config) ==
            Cost(work, node, config.(nodePriorities := map[])) - ListedPriority(node.info, config) as real
  {
  }

  /** A priority listed for the host lowers the cost by itself exactly when the id is not listed, and not at all otherwise. */
  lemma IdOutranksHost(work: Work, node: NodeRow, host: string, config: SchedulerConfig)
    requires host != "" && host in config.nodePriorities
    ensures var hosted, hostless := node.(info := node.info.(host := Some(host))), node.(info := node.info.(host := None));
            Cost(work, hosted, config) ==
            if node.info.id in config.nodePriorities then Cost(work, hostless, config)
            else Cost(work, hostless, config) - config.nodePriorities[host] as real
  {
  }

  /** One more job of a type costs 0.15 to a step that counts jobs of that type, and nothing to any other. */
  lemma JobsCost(work: Work, node: NodeRow, config: SchedulerConfig)
    ensures var cost := Cost(work, node, config);
            && Cost(work, node.(activeWhisperJobs := node.activeWhisperJobs + 1), config) ==
               cost + (if IsWhisperStep(work) then 0.15 else 0.0)
            && Cost(work, node.(activeFfmpegJobs := node.activeFfmpegJobs + 1), config) ==
               cost + (if IsFfmpegStep(work) then 0.15 else 0.0)
            && Cost(work, node.(activeJobs := node.activeJobs + 1), config) ==
               cost + (if IsGenericStep(work) then 0.15 else 0.0)
  {
    if IsWhisperStep(work) {
      KindsAreDisjoint(work);
    }
  }

  /** Heat alone: a cool node is one unit cheaper than one of unknown state, and that one unit cheaper than a warm one. */
  lemma HeatCosts(work: Work, node: NodeRow, state: string, config: SchedulerConfig)
    requires state != "normal" && state != "fair" && state != "serious" && state != "critical"
    ensures var At := (s: string) => Cost(work, node.(info := node.info.(thermalState := s)), config);
            && At("normal") + 1.0 == At(state) && At(state) + 1.0 == At("fair")
            && At("fair") + 8.0 == At("serious") == At("critical")
  {
  }

  // ---------------------------------------------------------------- the order of candidates

  datatype Key = Key(cost: real, id: NodeId)

  predicate KeyLeq(a: Key, b: Key) {
    a.cost < b.cost || (a.cost == b.cost && !StrLess(b.id, a.id))
  }

  lemma KeyLeqTotal(a: Key, b: Key)
    ensures KeyLeq(a, b) || KeyLeq(b, a)
    ensures KeyLeq(a, b) && KeyLeq(b, a) ==> a == b
  {
    StrLessTotal(a.id, b.id);
    if StrLess(a.id, b.id) && StrLess(b.id, a.id) {
      StrLessTransitive(a.id, b.id, a.id);
      StrLessIrreflexive(a.id);
    }
  }

  lemma KeyLeqTransitive(a: Key, b: Key, c: Key)
    requires KeyLeq(a, b) && KeyLeq(b, c)
    ensures KeyLeq(a, c)
  {
    if a.cost == b.cost == c.cost && StrLess(c.id, a.id) {
      StrLessTotal(a.id, b.id);
      if StrLess(a.id, b.id) {
        StrLessTransitive(c.id, a.id, b.id);
      }
    }
  }

  function KeyOf(work: Work, node: NodeRow, config: SchedulerConfig): Key {
    Key(Cost(work, node, config), node.info.id)
  }

  // ---------------------------------------------------------------- the best node

  predicate DistinctIds(nodes: seq<NodeRow>) {
    forall i, j | 0 <= i < j < |nodes| :: nodes[i].info.id != nodes[j].info.id
  }

  /** The node at k is eligible and no eligible node comes before it in (cost, id). */
  predicate IsBest(work: Work, nodes: seq<NodeRow>, k: nat, config: SchedulerConfig, now: Time) {
    && k < |nodes|
    && IsNodeEligible(work, nodes[k], config, now)
    && forall j | 0 <= j < |nodes| && IsNodeEligible(work, nodes[j], config, now) ::
         KeyLeq(KeyOf(work, nodes[k], config), KeyOf(work, nodes[j], config))
  }

  predicate NoneEligible(work: Work, nodes: seq<NodeRow>, config: SchedulerConfig, now: Time) {
    forall j | 0 <= j < |nodes| :: !IsNodeEligible(work, nodes[j], config, now)
  }

  /** Where the best node is in a list. */
  function Best(work: Work, nodes: seq<NodeRow>, config: SchedulerConfig, now: Time): (r: Option<nat>)
    ensures match r
            case Some(k) => IsBest(work, nodes, k, config, now)
            case None => NoneEligible(work, nodes, config, now)
  {
    if nodes == [] then None
    else
      var last := |nodes| - 1;
      var earlier := Best(work, nodes[..last], config, now);
      if !IsNodeEligible(work, nodes[last], config, now) then earlier
      else if earlier.None? then
        KeyLeqTotal(KeyOf(work, nodes[last], config), KeyOf(work, nodes[last], config));
        Some(last)
      else
        BestOfTwo(work, nodes, earlier.value, config, now);
        if KeyLeq(KeyOf(work, nodes[earlier.value], config), KeyOf(work, nodes[last], config)) then earlier
        else Some(last)
  }

  lemma BestOfTwo(work: Work, nodes: seq<NodeRow>, k: nat, config: SchedulerConfig, now: Time)
    requires nodes != [] && IsBest(work, nodes[..|nodes| - 1], k, config, now)
    requires IsNodeEligible(work, nodes[|nodes| - 1], config, now)
    ensures var last := |nodes| - 1;
            if KeyLeq(KeyOf(work, nodes[k], config), KeyOf(work, nodes[last], config))
            then IsBest(work, nodes, k, config, now)
            else IsBest(work, nodes, last, config, now)
  {
    var last := |nodes| - 1;
    var front, kk, kl := nodes[..last], KeyOf(work, nodes[k], config), KeyOf(work, nodes[last], config);
    KeyLeqTotal(kk, kl);
    KeyLeqTotal(kl, kl);
    if !KeyLeq(kk, kl) {
      forall j | 0 <= j < |nodes| && IsNodeEligible(work, nodes[j], config, now)
        ensures KeyLeq(kl, KeyOf(work, nodes[j], config))
      {
        if j < last {
          assert front[j] == nodes[j];
          KeyLeqTransitive(kl, kk, KeyOf(work, nodes[j], config));
        }
      }
    } else {
      assert forall j | 0 <= j < last :: front[j] == nodes[j];
    }
  }

  /** With distinct ids there is one best node. */
  lemma BestIsUnique(work: Work, nodes: seq<NodeRow>, k: nat, l: nat, config: SchedulerConfig, now: Time)
    requires DistinctIds(nodes)
    requires IsBest(work, nodes, k, config, now) && IsBest(work, nodes, l, config, now)
    ensures k == l
  {
    KeyLeqTotal(KeyOf(work, nodes[k], config), KeyOf(work, nodes[l], config));
  }

  // ---------------------------------------------------------------- selection over the loaded nodes

  /** The rows of loaded nodes, in the same order. */
  ghost function NodeRows(nodes: seq<Node>): (rows: seq<NodeRow>)
    reads nodes
    ensures |rows| == |nodes| && forall i | 0 <= i < |nodes| :: rows[i] == nodes[i].Row()
  {
    seq(|nodes|, i requires 0 <= i < |nodes| reads nodes => nodes[i].Row())
  }

  datatype Candidate = Candidate(key: Key, index: nat)

  datatype SchedulerDecision = SchedulerDecision(
    selected: Option<nat>,
    rejected: map<NodeId, Verdict>,
    scores: map<NodeId, NodeCost>)

  predicate SortedCandidates(s: seq<Candidate>) {
    forall i, j | 0 <= i < j < |s| :: KeyLeq(s[i].key, s[j].key)
  }

  method SortCandidates(candidates: seq<Candidate>) returns (sorted: seq<Candidate>)
    ensures multiset(sorted) == multiset(candidates) && SortedCandidates(sorted)
  {
    sorted := [];
    for i := 0 to |candidates|
      invariant multiset(sorted) == multiset(candidates[..i]) && SortedCandidates(sorted)
    {
      sorted := InsertCandidate(sorted, candidates[i]);
      assert candidates[..i + 1] == candidates[..i] + [candidates[i]];
    }
    assert candidates[..|candidates|] == candidates;
  }

  method InsertCandidate(sorted: seq<Candidate>, c: Candidate) returns (r: seq<Candidate>)
    requires SortedCandidates(sorted)
    ensures multiset(r) == multiset(sorted) + multiset{c} && SortedCandidates(r)
  {
    var p := |sorted|;
    while p > 0 && !KeyLeq(sorted[p - 1].key, c.key)
      invariant 0 <= p <= |sorted|
      invariant p < |sorted| ==> KeyLeq(c.key, sorted[p].key)
    {
      KeyLeqTotal(sorted[p - 1].key, c.key);
      p := p - 1;
    }
    r := sorted[..p] + [c] + sorted[p..];
    assert sorted == sorted[..p] + sorted[p..];
    InsertedIsSorted(sorted, p, c);
  }

  lemma InsertedIsSorted(sorted: seq<Candidate>, p: nat, c: Candidate)
    requires SortedCandidates(sorted) && p <= |sorted|
    requires p > 0 ==> KeyLeq(sorted[p - 1].key, c.key)
    requires p < |sorted| ==> KeyLeq(c.key, sorted[p].key)
    ensures SortedCandidates(sorted[..p] + [c] + sorted[p..])
  {
    forall k | 0 <= k < p ensures KeyLeq(sorted[k].key, c.key) {
      if k < p - 1 {
        KeyLeqTransitive(sorted[k].key, sorted[p - 1].key, c.key);
      }
    }
    forall k | p <= k < |sorted| ensures KeyLeq(c.key, sorted[k].key) {
      if p < k {
        KeyLeqTransitive(c.key, sorted[p].key, sorted[k].key);
      }
    }
  }

  lemma PickFirst(candidates: seq<Candidate>, sorted: seq<Candidate>)
    requires candidates != [] && multiset(sorted) == multiset(candidates) && SortedCandidates(sorted)
    ensures sorted != [] && sorted[0] in candidates
    ensures forall c | c in candidates :: KeyLeq(sorted[0].key, c.key)
  {
    assert |sorted| == |multiset(sorted)| == |candidates|;
    assert sorted[0] in multiset(sorted);
    forall c | c in candidates ensures KeyLeq(sorted[0].key, c.key) {
      assert c in multiset(sorted);
      var k :| 0 <= k < |sorted| && sorted[k] == c;
      KeyLeqTotal(c.key, c.key);
    }
  }

  /** One node's entry in the two maps of a decision. */
  predicate Filed(work: Work, row: NodeRow, rejected: map<NodeId, Verdict>, scores: map<NodeId, NodeCost>,
                  config: SchedulerConfig, now: Time)
  {
    var verdict := Judge(work, row, config, now);
    if verdict == Eligible
    then row.info.id !in rejected && row.info.id in scores && scores[row.info.id] == CalculateNodeCost(work, row, config)
    else row.info.id !in scores && row.info.id in rejected && rejected[row.info.id] == verdict
  }

  function Ids(rows: seq<NodeRow>): set<NodeId> {
    set i | 0 <= i < |rows| :: rows[i].info.id
  }

  /** The maps sort the ids of the rows into rejected, with the reason, and scored, with the cost. */
  predicate Accounts(work: Work, rows: seq<NodeRow>, rejected: map<NodeId, Verdict>, scores: map<NodeId, NodeCost>,
                     config: SchedulerConfig, now: Time)
  {
    && rejected.Keys + scores.Keys == Ids(rows)
    && forall i | 0 <= i < |rows| :: Filed(work, rows[i], rejected, scores, config, now)
  }

  /** The candidates are the eligible rows with their keys. */
  predicate Collects(work: Work, rows: seq<NodeRow>, candidates: seq<Candidate>, config: SchedulerConfig, now: Time) {
    && (forall c | c in candidates :: c.index < |rows| &&
          IsNodeEligible(work, rows[c.index], config, now) && c.key == KeyOf(work, rows[c.index], config))
    && (forall i | 0 <= i < |rows| && IsNodeEligible(work, rows[i], config, now) ::
          Candidate(KeyOf(work, rows[i], config), i) in candidates)
  }

  lemma FiledStays(work: Work, row: NodeRow, other: NodeId, verdict: Verdict, cost: NodeCost, rejected: map<NodeId, Verdict>,
                   scores: map<NodeId, NodeCost>, config: SchedulerConfig, now: Time)
    requires Filed(work, row, rejected, scores, config, now) && row.info.id != other
    ensures Filed(work, row, rejected[other := verdict], scores, config, now)
    ensures Filed(work, row, rejected, scores[other := cost], config, now)
  {
  }

  lemma FileNext(work: Work, rows: seq<NodeRow>, row: NodeRow, rejected: map<NodeId, Verdict>,
                 scores: map<NodeId, NodeCost>, config: SchedulerConfig, now: Time)
    requires Accounts(work, rows, rejected, scores, config, now) && DistinctIds(rows + [row])
    ensures var verdict := Judge(work, row, config, now);
            if verdict == Eligible
            then Accounts(work, rows + [row], rejected, scores[row.info.id := CalculateNodeCost(work, row, config)], config, now)
            else Accounts(work, rows + [row], rejected[row.info.id := verdict], scores, config, now)
  {
    hide Judge, CalculateNodeCost, StrLess;
    var all, id := rows + [row], row.info.id;
    var verdict, cost := Judge(work, row, config, now), CalculateNodeCost(work, row, config);
    forall i | 0 <= i < |rows| ensures all[i] == rows[i] && all[i].info.id != id {
      assert all[i].info.id != all[|rows|].info.id;
    }
    assert id !in Ids(rows);
    assert Ids(all) == Ids(rows) + {id} by {
      assert all[|rows|] == row;
    }
    assert if verdict == Eligible then Filed(work, row, rejected, scores[id := cost], config, now)
                                  else Filed(work, row, rejected[id := verdict], scores, config, now);
    forall i | 0 <= i < |rows|
      ensures Filed(work, all[i], rejected[id := verdict], scores, config, now)
      ensures Filed(work, all[i], rejected, scores[id := cost], config, now)
    {
      FiledStays(work, rows[i], id, verdict, cost, rejected, scores, config, now);
    }
    hide Filed, Ids, DistinctIds;
  }

  lemma CollectNext(work: Work, rows: seq<NodeRow>, row: NodeRow, candidates: seq<Candidate>, config: SchedulerConfig, now: Time)
    requires Collects(work, rows, candidates, config, now)
    ensures var c := Candidate(KeyOf(work, row, config), |rows|);
            var more := if IsNodeEligible(work, row, config, now) then [c] else [];
            Collects(work, rows + [row], candidates + more, config, now)
  {
    hide Judge, KeyOf;
    assert forall i | 0 <= i < |rows| :: (rows + [row])[i] == rows[i];
  }

  lemma FirstIsBest(work: Work, rows: seq<NodeRow>, candidates: seq<Candidate>, sorted: seq<Candidate>,
                    config: SchedulerConfig, now: Time)
    requires Collects(work, rows, candidates, config, now) && DistinctIds(rows)
    requires multiset(sorted) == multiset(candidates) && SortedCandidates(sorted)
    ensures |sorted| == |candidates|
    ensures Best(work, rows, config, now) == if candidates == [] then None else Some(sorted[0].index)
  {
    hide Judge, KeyOf, StrLess;
    assert |sorted| == |multiset(sorted)| == |candidates|;
    if candidates != [] {
      PickFirst(candidates, sorted);
      BestIsUnique(work, rows, sorted[0].index, Best(work, rows, config, now).value, config, now);
    }
  }

  /** Filters, scores, sorts by cost and id, and picks the first: the best node. */
  method SelectNodeForStep(work: Work, nodes: seq<Node>, config: SchedulerConfig, now: Time)
    returns (d: SchedulerDecision)
    requires DistinctIds(NodeRows(nodes))
    ensures d.selected == Best(work, NodeRows(nodes), config, now)
    ensures Accounts(work, NodeRows(nodes), d.rejected, d.scores, config, now)
  {
    hide Judge, Cost, StrLess, Best, DistinctIds;
    var rejected: map<NodeId, Verdict> := map[];
    var scores: map<NodeId, NodeCost> := map[];
    var candidates: seq<Candidate> := [];
    ghost var rows := NodeRows(nodes);
    for n := 0 to |nodes|
      invariant Accounts(work, rows[..n], rejected, scores, config, now)
      invariant Collects(work, rows[..n], candidates, config, now)
    {
      var row := nodes[n].Row();
      assert rows[..n] + [row] == rows[..n + 1];
      DistinctPrefix(rows, n + 1);
      FileNext(work, rows[..n], row, rejected, scores, config, now);
      CollectNext(work, rows[..n], row, candidates, config, now);
      var verdict := Judge(work, row, config, now);
      if verdict != Eligible {
        rejected := rejected[row.info.id := verdict];
        assert candidates + [] == candidates;
      } else {
        var cost := CalculateNodeCost(work, row, config);
        scores := scores[row.info.id := cost];
        candidates := candidates + [Candidate(KeyOf(work, row, config), n)];
      }
    }
    assert rows[..|nodes|] == rows;
    if candidates == [] {
      FirstIsBest(work, rows, [], [], config, now);
      return SchedulerDecision(None, rejected, scores);
    }
    var sorted := SortCandidates(candidates);
    FirstIsBest(work, rows, candidates, sorted, config, now);
    return SchedulerDecision(Some(sorted[0].index), rejected, scores);
  }

  lemma DistinctPrefix(rows: seq<NodeRow>, n: nat)
    requires DistinctIds(rows) && n <= |rows|
    ensures DistinctIds(rows[..n])
  {
  }
}
