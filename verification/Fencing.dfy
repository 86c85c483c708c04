/**
  What holds over whole runs of a step. Each invariant is kept by every atomic operation; by
  linearizability it then holds of every interleaving of the two-phase handlers.
 */
module Fencing {
  import opened Wrappers
  import opened StateMachine
  import opened Lifecycle

  // ---------------------------------------------------------------- counting events

  predicate IsIssue(e: Event) { e.Issued? }
  predicate IsRevocation(e: Event) { e.Revoked? }
  predicate IsRetry(e: Event) { e.Revoked? && e.wasRunning }
  predicate IsStart(e: Event) { e.Applied? && e.op.Start? }
  predicate IsClaim(e: Event) { e.Applied? && e.op.Claim? }
  predicate IsReport(e: Event) { e.Applied? && (e.op.Complete? || e.op.Fail?) }

  function Count(h: seq<Event>, p: Event -> bool): nat {
    if h == [] then 0 else Count(h[..|h| - 1], p) + if p(h[|h| - 1]) then 1 else 0
  }

  lemma CountAppend(h: seq<Event>, e: Event, p: Event -> bool)
    ensures Count(h + [e], p) == Count(h, p) + if p(e) then 1 else 0
  {
    assert (h + [e])[..|h|] == h;
  }

  // ---------------------------------------------------------------- what an event says about its rows

  /**
    What one event says about the row before and after it: it carries the row's epoch, a new one
    exactly when the node changes; a start leaves Assigned, a claim marks an unmarked row, a report
    ends the step; and nothing happens to a step that has ended.
   */
  predicate Explains(e: Event, before: StepRow, after: StepRow) {
    && e.epoch == after.epoch
    && (match e
        case Applied(_, node, _, _) =>
          after.epoch == before.epoch && before.assignedNode == after.assignedNode == Some(node)
        case Issued(_, node, _) => after.epoch == before.epoch + 1 && after.assignedNode == Some(node)
        case Revoked(_, _) => after.epoch == before.epoch + 1 && after.assignedNode == None)
    && (IsStart(e) ==> before.status == Assigned)
    && (after.status == Assigned ==> e.Issued? || (before.status == Assigned && !IsStart(e)))
    && (IsClaim(e) ==> before.claimedAt.None?)
    && (IsClaim(e) || before.claimedAt.Some? ==> after.claimedAt.Some?)
    && (IsReport(e) ==> after.Terminal())
    && !before.Terminal()
  }

  /** How the status and the retry count move with an event. */
  predicate Moves(e: Event, before: StepRow, after: StepRow) {
    && after.work == before.work
    && match e
       case Issued(_, _, _) => before.status == Queued && after.status == Assigned && after.retryCount == before.retryCount
       case Revoked(_, wasRunning) =>
         && before.Held() && (wasRunning <==> before.status == Running)
         && after.retryCount == before.retryCount + (if wasRunning then 1 else 0)
         && after.status == if wasRunning && after.retryCount > before.work.maxRetries then Failed else Queued
       case Applied(_, _, op, _) =>
         && after.retryCount == before.retryCount
         && before.status in FromStatuses(op)
         && after.status == if Target(op).Some? then Target(op).value else before.status
  }

  lemma EventExplains(row: StepRow, op: AtomicOp)
    requires Takes(row, op)
    ensures EventsOf(row, op) == [EventsOf(row, op)[0]]
    ensures Explains(EventsOf(row, op)[0], row, RowNext(row, op)) && Moves(EventsOf(row, op)[0], row, RowNext(row, op))
  {
  }

  lemma RefusedIsNothing(x: Atom, op: AtomicOp)
    requires !Takes(x.row, op)
    ensures AtomNext(x, op).row == x.row && AtomNext(x, op).history == x.history
  {
  }

  // ---------------------------------------------------------------- invariants

  /** The epoch counts assignments and recoveries, and its parity says whether the step has a node. */
  predicate Conserved(x: Atom) {
    && x.row.epoch == Count(x.history, IsIssue) + Count(x.history, IsRevocation)
    && (x.row.assignedNode.Some? <==> x.row.epoch % 2 == 1)
    && match x.row.status
       case Queued => x.row.assignedNode.None?
       case Assigned => x.row.assignedNode.Some?
       case Running => x.row.assignedNode.Some?
       case Completed => x.row.assignedNode.Some?
       case Failed => true
       case _ => false
  }

  /** Epochs never go back, and every assignment or recovery has an epoch of its own. */
  predicate Chronological(h: seq<Event>) {
    forall i, j | 0 <= i < j < |h| ::
      h[i].epoch <= h[j].epoch && (!h[j].Applied? ==> h[i].epoch < h[j].epoch)
  }

  /** Recoveries leave even epochs; assignments and requests carry odd ones. */
  predicate Alternating(h: seq<Event>) {
    forall i | 0 <= i < |h| :: h[i].epoch % 2 == if h[i].Revoked? then 0 else 1
  }

  /** The epoch was handed to the node. */
  predicate IssuedTo(h: seq<Event>, epoch: int, node: NodeId) {
    exists i | 0 <= i < |h| :: h[i].Issued? && h[i].epoch == epoch && h[i].node == node
  }

  /** Whoever gets a request through was issued its epoch before. */
  predicate Grounded(h: seq<Event>) {
    forall j | 0 <= j < |h| && h[j].Applied? :: IssuedTo(h[..j], h[j].epoch, h[j].node)
  }

  predicate Dated(x: Atom) {
    && (forall i | 0 <= i < |x.history| :: x.history[i].epoch <= x.row.epoch)
    && (x.row.assignedNode.Some? ==> IssuedTo(x.history, x.row.epoch, x.row.assignedNode.value))
  }

  predicate EpochInvariant(x: Atom) {
    Conserved(x) && Chronological(x.history) && Alternating(x.history) && Grounded(x.history) && Dated(x)
  }

  lemma ConservedStep(x: Atom, op: AtomicOp)
    requires Conserved(x)
    ensures Conserved(AtomNext(x, op))
  {
    hide Takes, Handled, Claimable, RowNext, EventsOf;
    if Takes(x.row, op) {
      EventExplains(x.row, op);
      var e := EventsOf(x.row, op)[0];
      CountAppend(x.history, e, IsIssue);
      CountAppend(x.history, e, IsRevocation);
    } else {
      RefusedIsNothing(x, op);
    }
  }

  lemma GroundedAppend(h: seq<Event>, e: Event)
    requires Grounded(h)
    requires e.Applied? ==> IssuedTo(h, e.epoch, e.node)
    ensures Grounded(h + [e])
  {
    var h' := h + [e];
    forall j | 0 <= j < |h'| && h'[j].Applied? ensures IssuedTo(h'[..j], h'[j].epoch, h'[j].node) {
      if j < |h| {
        assert h'[..j] == h[..j];
      } else {
        assert h'[..j] == h;
      }
    }
  }

  lemma DatesAppend(before: StepRow, h: seq<Event>, e: Event, after: StepRow)
    requires Explains(e, before, after)
    requires EpochInvariant(Atom(before, h, []))
    requires after.assignedNode.Some? <==> after.epoch % 2 == 1
    ensures Chronological(h + [e]) && Alternating(h + [e]) && Dated(Atom(after, h + [e], []))
    ensures Grounded(h + [e])
  {
    GroundedAppend(h, e);
    assert (h + [e])[|h|] == e;
    assert forall i | 0 <= i < |h| :: (h + [e])[i] == h[i];
  }

  lemma EpochStep(x: Atom, op: AtomicOp)
    requires EpochInvariant(x)
    ensures EpochInvariant(AtomNext(x, op))
  {
    hide Takes, RowNext, EventsOf;
    ConservedStep(x, op);
    if Takes(x.row, op) {
      EventExplains(x.row, op);
      DatesAppend(x.row, x.history, EventsOf(x.row, op)[0], RowNext(x.row, op));
    } else {
      RefusedIsNothing(x, op);
    }
  }

  function Allowance(work: Work): nat {
    if work.maxRetries < 0 then 0 else work.maxRetries
  }

  /** Starts, retries and the retry limit, status by status. */
  predicate RetryInvariant(x: Atom) {
    var starts, limit := Count(x.history, IsStart), Allowance(x.row.work);
    && x.row.retryCount == Count(x.history, IsRetry)
    && match x.row.status
       case Queued => starts == x.row.retryCount <= limit
       case Assigned => starts == x.row.retryCount <= limit
       case Running => starts == x.row.retryCount + 1 <= limit + 1
       case Completed => starts == x.row.retryCount + 1 <= limit + 1
       case Failed => x.row.retryCount <= starts <= x.row.retryCount + 1 && starts <= limit + 1
       case _ => false
  }

  lemma RetryStep(x: Atom, op: AtomicOp)
    requires RetryInvariant(x)
    ensures RetryInvariant(AtomNext(x, op))
  {
    hide Takes, Handled, Claimable, RowNext, EventsOf;
    if Takes(x.row, op) {
      EventExplains(x.row, op);
      var e := EventsOf(x.row, op)[0];
      CountAppend(x.history, e, IsStart);
      CountAppend(x.history, e, IsRetry);
    } else {
      RefusedIsNothing(x, op);
    }
  }

  /** No epoch starts twice, no step is claimed twice, and a final report ends the history. */
  predicate OnceInvariant(x: Atom) {
    var h := x.history;
    && (forall i, j | 0 <= i < j < |h| && IsStart(h[i]) && IsStart(h[j]) :: h[i].epoch < h[j].epoch)
    && (forall i | 0 <= i < |h| && IsStart(h[i]) && x.row.status == Assigned :: h[i].epoch < x.row.epoch)
    && (forall i, j | 0 <= i < j < |h| :: !(IsClaim(h[i]) && IsClaim(h[j])))
    && (forall i | 0 <= i < |h| && IsClaim(h[i]) :: x.row.claimedAt.Some?)
    && (forall i | 0 <= i < |h| && IsReport(h[i]) :: i == |h| - 1 && x.row.Terminal())
  }

  lemma OnceAppend(before: StepRow, h: seq<Event>, e: Event, after: StepRow)
    requires Explains(e, before, after)
    requires OnceInvariant(Atom(before, h, [])) && Dated(Atom(before, h, []))
    ensures OnceInvariant(Atom(after, h + [e], []))
  {
    assert (h + [e])[|h|] == e;
    assert forall i | 0 <= i < |h| :: (h + [e])[i] == h[i];
  }

  lemma OnceStep(x: Atom, op: AtomicOp)
    requires OnceInvariant(x) && Dated(x)
    ensures OnceInvariant(AtomNext(x, op))
  {
    hide Takes, RowNext, EventsOf;
    if Takes(x.row, op) {
      EventExplains(x.row, op);
      OnceAppend(x.row, x.history, EventsOf(x.row, op)[0], RowNext(x.row, op));
    } else {
      RefusedIsNothing(x, op);
    }
  }

  predicate Invariant(x: Atom) {
    EpochInvariant(x) && RetryInvariant(x) && OnceInvariant(x)
  }

  lemma InvariantStep(x: Atom, op: AtomicOp)
    requires Invariant(x)
    ensures Invariant(AtomNext(x, op)) && AtomNext(x, op).row.work == x.row.work
  {
    hide Conserved, Chronological, Alternating, Grounded, Dated, RetryInvariant, OnceInvariant;
    hide Takes, RowNext, EventsOf;
    EpochStep(x, op);
    RetryStep(x, op);
    OnceStep(x, op);
    if Takes(x.row, op) {
      EventExplains(x.row, op);
    } else {
      RefusedIsNothing(x, op);
    }
  }

  lemma {:induction false} InvariantsHold(x: Atom, ops: seq<AtomicOp>)
    requires Invariant(x)
    ensures Invariant(AtomRun(x, ops)) && AtomRun(x, ops).row.work == x.row.work
    decreases |ops|
  {
    if ops != [] {
      InvariantsHold(x, ops[..|ops| - 1]);
      InvariantStep(AtomRun(x, ops[..|ops| - 1]), ops[|ops| - 1]);
    }
  }

  lemma RunInvariants(work: Work, actions: seq<Action>)
    ensures Invariant(Observed(Run(Fresh(work), actions))) && Run(Fresh(work), actions).row.work == work
  {
    Linearizability(work, actions);
    InvariantsHold(Atom(FreshRow(work), [], []), Linearize(Fresh(work), actions));
  }

  // ---------------------------------------------------------------- theorems over all runs

  /**
    Fencing. In every run: epochs never go back; an assignment gets an epoch that nothing before it
    carries; after a recovery every request that takes effect carries a later epoch, whenever it was
    read; and a request that takes effect comes from the one node its epoch was issued to.
   */
  lemma FencedHistory(work: Work, actions: seq<Action>)
    ensures var h := Run(Fresh(work), actions).history;
            && (forall i, j | 0 <= i < j < |h| :: h[i].epoch <= h[j].epoch)
            && (forall i, j | 0 <= i < j < |h| && h[j].Issued? :: h[i].epoch < h[j].epoch)
            && (forall i, j | 0 <= i < j < |h| && h[i].Revoked? && h[j].Applied? :: h[i].epoch < h[j].epoch)
            && (forall j | 0 <= j < |h| && h[j].Applied? :: IssuedTo(h[..j], h[j].epoch, h[j].node))
            && (forall i, j | 0 <= i < |h| && 0 <= j < |h| && h[i].Issued? && h[j].Issued? &&
                              h[i].epoch == h[j].epoch :: i == j)
  {
    RunInvariants(work, actions);
  }

  /** In every reachable state the epoch is assignments plus recoveries, and it is odd exactly while a node is assigned. */
  lemma EpochConservation(work: Work, actions: seq<Action>)
    ensures var c := Run(Fresh(work), actions);
            && c.row.epoch == Count(c.history, IsIssue) + Count(c.history, IsRevocation)
            && (c.row.assignedNode.Some? <==> c.row.epoch % 2 == 1)
  {
    RunInvariants(work, actions);
  }

  lemma {:induction false} RunFollows(c: Cell, actions: seq<Action>)
    requires FlightsFollow(c)
    ensures FlightsFollow(Run(c, actions)) && c.row.epoch <= Run(c, actions).row.epoch
    decreases |actions|
  {
    if actions != [] {
      RunFollows(c, actions[..|actions| - 1]);
      var d := Run(c, actions[..|actions| - 1]);
      StepIsAtomic(d, actions[|actions| - 1]);
    }
  }

  /**
    A handler that was read and validated before a recovery, at whatever earlier epoch, changes nothing
    when it finally commits, however long after the recovery and whoever holds the step by then.
   */
  lemma RecoveredHandlersNeverLand(c: Cell, more: seq<Action>, t: Ticket, now: Time)
    requires FlightsFollow(c) && c.row.Held() && t in c.flights && c.flights[t].Validated?
    ensures var d := Run(Next(c, RecoverNow), more);
            t in d.flights && d.flights[t] == c.flights[t] ==>
              Next(d, Commit(t, now)).row == d.row && Next(d, Commit(t, now)).history == d.history
  {
    StepIsAtomic(c, RecoverNow);
    RunFollows(Next(c, RecoverNow), more);
  }

  /**
    Bounded execution. A step starts at most once more than its retry limit; its retry count is the
    number of recoveries from running, stays within the limit while the step is live, and passes it
    by at most one. Recoveries of assigned work consume nothing.
   */
  lemma BoundedExecution(work: Work, actions: seq<Action>)
    ensures var c := Run(Fresh(work), actions);
            && Count(c.history, IsStart) <= Allowance(work) + 1
            && c.row.retryCount == Count(c.history, IsRetry)
            && (c.row.status == Queued || c.row.Held() ==> c.row.retryCount <= Allowance(work))
            && c.row.retryCount <= Allowance(work) + 1
  {
    RunInvariants(work, actions);
  }

  /** In every run: one start per epoch, one claim per step, and a final report is the last thing that happens. */
  lemma AtMostOnce(work: Work, actions: seq<Action>)
    ensures var h := Run(Fresh(work), actions).history;
            && (forall i, j | 0 <= i < j < |h| && IsStart(h[i]) && IsStart(h[j]) :: h[i].epoch < h[j].epoch)
            && (forall i, j | 0 <= i < j < |h| :: !(IsClaim(h[i]) && IsClaim(h[j])))
            && (forall i | 0 <= i < |h| && IsReport(h[i]) :: i == |h| - 1)
  {
    RunInvariants(work, actions);
  }

  /** A completed or failed row never changes again, whatever is in flight. */
  lemma {:induction false} TerminalFreeze(c: Cell, actions: seq<Action>)
    requires c.row.Terminal()
    ensures Run(c, actions).row == c.row && Run(c, actions).history == c.history
    decreases |actions|
  {
    if actions != [] {
      TerminalFreeze(c, actions[..|actions| - 1]);
    }
  }

  /**
    No recovery and no new assignment clears the claim mark, so a step that has been claimed once is
    never handed out again: its later attempts can only be started by a node that knows them otherwise.
   */
  lemma {:induction false} ClaimedForGood(c: Cell, actions: seq<Action>)
    requires c.row.claimedAt.Some?
    ensures Run(c, actions).row.claimedAt == c.row.claimedAt
    ensures Count(Run(c, actions).history, IsClaim) == Count(c.history, IsClaim)
    ensures forall node :: !Claimable(Run(c, actions).row, node)
    decreases |actions|
  {
    if actions != [] {
      var earlier, a := actions[..|actions| - 1], actions[|actions| - 1];
      ClaimedForGood(c, earlier);
      var b := Run(c, earlier);
      var b' := Next(b, a);
      assert |b'.history| == |b.history| || b'.history[..|b'.history| - 1] == b.history;
    }
  }

  /** A recovered step that is assigned again can be claimed exactly if it never had been. */
  lemma ClaimableAgain(row: StepRow, node: NodeId, now: Time)
    requires row.Held() && RecoveredRow(row).status == Queued
    ensures Claimable(RowNext(RowNext(row, Recover), Assign(node, now)), node) <==> row.claimedAt.None?
  {
  }

  /**
    A concrete run: claimed, started, recovered, assigned again to the same node. The step has a
    retry left and a node, yet claim-next finds nothing to claim.
   */
  lemma StrandedRetry(work: Work, node: NodeId)
    requires work.maxRetries >= 1
    ensures var row := RowNext(RowNext(RowNext(RowNext(RowNext(FreshRow(work),
                         Assign(node, 0)), ClaimRow(0, node, 1)), Handle(1, Request(node, 1, Start), 2)),
                         Recover), Assign(node, 3));
            row.status == Assigned && row.assignedNode == Some(node) && row.retryCount == 1 && !Claimable(row, node)
  {
  }
}
