/**
  What a heartbeat's scheduling does to the tables as a whole: its outcome is determined by the tables it
  starts from, and when only one node can take the queued steps it takes them all.
 */
module Heartbeat {
  import opened StateMachine
  import opened Policies
  import opened Ordering
  import opened Scheduling
  import opened PassTheorems
  import opened Balance
  import opened Rollup
  import opened Controllers

  // ---------------------------------------------------------------- one outcome

  lemma {:induction false} DistinctCounts<T>(s: seq<T>)
    requires Distinct(s)
    ensures forall x :: multiset(s)[x] == if x in s then 1 else 0
  {
    if s != [] {
      var last := |s| - 1;
      DistinctCounts(s[..last]);
      assert s == s[..last] + [s[last]];
    }
  }

  lemma SameElements<T>(s: seq<T>, t: seq<T>)
    requires Distinct(s) && Distinct(t) && forall x :: x in s <==> x in t
    ensures multiset(s) == multiset(t)
  {
    DistinctCounts(s);
    DistinctCounts(t);
  }

  lemma {:induction false} AscendingIsUnique(a: seq<StepId>, b: seq<StepId>)
    requires Ascending(a) && Ascending(b) && forall x :: x in a <==> x in b
    ensures a == b
  {
    AscendingIsDistinct(a);
    AscendingIsDistinct(b);
    SameElements(a, b);
    assert |multiset(a)| == |a| && |multiset(b)| == |b|;
    if a != [] {
      assert a[0] in b && b[0] in a;
      FirstIsLeast(a, b[0]);
      FirstIsLeast(b, a[0]);
      if a[0] != b[0] {
        StrLessTransitive(a[0], b[0], a[0]);
        StrLessIrreflexive(a[0]);
      }
      RestWithout(a);
      RestWithout(b);
      AscendingIsUnique(a[1..], b[1..]);
      assert a == [a[0]] + a[1..] && b == [b[0]] + b[1..];
    }
  }

  lemma FirstIsLeast(a: seq<StepId>, x: StepId)
    requires Ascending(a) && x in a
    ensures x == a[0] || StrLess(a[0], x)
  {
  }

  lemma RestWithout(a: seq<StepId>)
    requires Ascending(a) && a != []
    ensures Ascending(a[1..]) && forall x :: x in a[1..] <==> x in a && x != a[0]
  {
    AscendingIsDistinct(a);
    forall x | x in a && x != a[0] ensures x in a[1..] {
      var i :| 0 <= i < |a| && a[i] == x;
      assert a[1..][i - 1] == x;
    }
  }

  lemma ListingsArePermutations(nodes: map<NodeId, NodeRow>, p: seq<NodeId>, q: seq<NodeId>)
    requires Keyed(nodes) && IsListing(nodes, p) && IsListing(nodes, q)
    ensures multiset(NodesAt(nodes, p)) == multiset(NodesAt(nodes, q))
  {
    forall x ensures x in NodesAt(nodes, p) <==> x in NodesAt(nodes, q) {
      if x in NodesAt(nodes, p) {
        ListedAt(nodes, p, q, x);
      }
      if x in NodesAt(nodes, q) {
        ListedAt(nodes, q, p, x);
      }
    }
    ListedIdsAreDistinct(nodes, p);
    ListedIdsAreDistinct(nodes, q);
    SameElements(NodesAt(nodes, p), NodesAt(nodes, q));
  }

  lemma ListedAt(nodes: map<NodeId, NodeRow>, p: seq<NodeId>, q: seq<NodeId>, x: NodeRow)
    requires IsListing(nodes, p) && IsListing(nodes, q) && x in NodesAt(nodes, p)
    ensures x in NodesAt(nodes, q)
  {
    var i :| 0 <= i < |p| && NodesAt(nodes, p)[i] == x;
    assert p[i] in q;
    var j :| 0 <= j < |q| && q[j] == p[i];
    assert NodesAt(nodes, q)[j] == x;
  }

  lemma SameTable(a: map<NodeId, NodeRow>, b: map<NodeId, NodeRow>, p: seq<NodeId>, q: seq<NodeId>)
    requires Keyed(a) && Keyed(b) && a.Keys == b.Keys && IsListing(a, p) && IsListing(b, q)
    requires multiset(NodesAt(a, p)) == multiset(NodesAt(b, q))
    ensures a == b
  {
    forall n | n in a ensures a[n] == b[n] {
      assert n in p;
      var i :| 0 <= i < |p| && p[i] == n;
      assert NodesAt(a, p)[i] == a[n];
      assert a[n] in multiset(NodesAt(a, p));
      var j :| 0 <= j < |q| && NodesAt(b, q)[j] == a[n];
    }
  }

  /**
    The database lists nodes in any order; the heartbeat's outcome does not depend on it. Two schedulings of
    the same tables at the same instant end in the same tables.
   */
  lemma SchedulingIsDeterministic(rows: Rows, nodes: map<NodeId, NodeRow>, r1: Rows, n1: map<NodeId, NodeRow>,
                                  q1: seq<StepId>, o1: seq<NodeId>, r2: Rows, n2: map<NodeId, NodeRow>,
                                  q2: seq<StepId>, o2: seq<NodeId>, config: SchedulerConfig, now: Time)
    requires Keyed(nodes)
    requires Scheduled(rows, nodes, r1, n1, q1, o1, config, now) && Scheduled(rows, nodes, r2, n2, q2, o2, config, now)
    ensures r1 == r2 && n1 == n2
  {
    AscendingIsUnique(q1, q2);
    ListingsArePermutations(nodes, o1, o2);
    ListedIdsAreDistinct(nodes, o1);
    ListedIdsAreDistinct(nodes, o2);
    OrderIndependence(RowsAt(rows, q1), NodesAt(nodes, o1), NodesAt(nodes, o2), config, now);
    StillKeyed(nodes, n1, RowsAt(rows, q1), o1, config, now);
    StillKeyed(nodes, n2, RowsAt(rows, q2), o2, config, now);
    SameTable(n1, n2, o1, o2);
    SameRows(rows, r1, r2, q1);
  }

  lemma SameRows(rows: Rows, r1: Rows, r2: Rows, queue: seq<StepId>)
    requires r1.Keys == r2.Keys == rows.Keys && forall id | id in queue :: id in rows
    requires forall id | id in rows && id !in queue :: r1[id] == rows[id] == r2[id]
    requires RowsAt(r1, queue) == RowsAt(r2, queue)
    ensures r1 == r2
  {
    forall id | id in rows ensures r1[id] == r2[id] {
      if id in queue {
        var i :| 0 <= i < |queue| && queue[i] == id;
        assert RowsAt(r1, queue)[i] == r1[id] && RowsAt(r2, queue)[i] == r2[id];
      }
    }
  }

  // ---------------------------------------------------------------- a single able node

  /** Only the node at k can take the rows: it is eligible for them, and the other nodes are not online. */
  predicate OnlyTaker(rows: seq<StepRow>, nodes: seq<NodeRow>, k: nat, config: SchedulerConfig, now: Time) {
    && k < |nodes|
    && (forall j | 0 <= j < |nodes| && j != k :: nodes[j].info.status != Online)
    && (forall i | 0 <= i < |rows| :: rows[i].status == Queued && IsGenericStep(rows[i].work) &&
                                      IsNodeEligible(rows[i].work, nodes[k], config, now))
  }

  lemma OnlyTakerTakesAll(rows: seq<StepRow>, nodes: seq<NodeRow>, k: nat, config: SchedulerConfig, now: Time)
    requires OnlyTaker(rows, nodes, k, config, now)
    ensures forall i | 0 <= i < |rows| :: Pass(rows, nodes, config, now).0[i] == AssignedRow(rows[i], nodes[k].info.id, now)
  {
    hide Pass;
    var (after, charged) := Pass(rows, nodes, config, now);
    PassOnlyAssigns(rows, nodes, config, now);
    PassIsWorkConserving(rows, nodes, config, now);
    PassInfos(rows, nodes, config, now);
    forall i | 0 <= i < |rows| ensures after[i] == AssignedRow(rows[i], nodes[k].info.id, now) {
      assert Settled(rows[i], after[i], nodes, config, now);
      AlikeScores(rows[i].work, rows[i].work, nodes[k], charged[k], config, now);
    }
  }

  // ---------------------------------------------------------------- how long a heartbeat lasts

  /**
    Under the default limits, by their numbers: a node that reported at `beat` can take a generic step without
    constraints at any instant up to thirty seconds later, and at none after, if and only if it is online, on the shared
    root, at most at 85 percent of processor and memory, has at least 20 GB free, is not too hot, and on battery the
    step is estimated at 20 minutes at most.
   */
  lemma BeatLastsThirtySeconds(work: Work, row: NodeRow, m: Metrics, beat: Time, now: Time, root: string,
                               priorities: map<string, int>)
    requires IsGenericStep(work) && work.avoidNodes == []
    ensures IsNodeEligible(work, Beaten(row, m, beat), DefaultConfig(root, priorities), now) <==>
            && now <= beat + 30_000_000
            && row.info.status == Online && row.info.sharedRoot == root
            && m.cpuPercent <= 85.0 && m.memoryPercent <= 85.0 && m.freeDiskGb >= 20.0
            && !(m.thermalState == "serious" || m.thermalState == "critical")
            && (m.onBattery ==> work.estimatedRuntimeMinutes <= 20.0)
  {
  }

  /** A node that has registered but never reported is given nothing. */
  lemma SilentNodeGetsNothing(work: Work, id: NodeId, name: string, root: string, config: SchedulerConfig, now: Time)
    ensures !IsNodeEligible(work, NewNode(id, name, root), config, now)
  {
  }
}
