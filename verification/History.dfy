/**
  The row of a step as its history tells it. Each column is what one last event left there; the definitions
  here look at events only, never at rows, and the theorem says that in every interleaving the row agrees with
  them column by column.
 */
module History {
  import opened Wrappers
  import opened StateMachine
  import opened Lifecycle
  import opened Fencing

  /** The last event that satisfies p. */
  function Last(h: seq<Event>, p: Event -> bool): Option<Event> {
    if h == [] then None
    else if p(h[|h| - 1]) then Some(h[|h| - 1])
    else Last(h[..|h| - 1], p)
  }

  lemma LastAppend(h: seq<Event>, e: Event, p: Event -> bool)
    ensures Last(h + [e], p) == if p(e) then Some(e) else Last(h, p)
  {
    assert (h + [e])[..|h|] == h;
  }

  // ---------------------------------------------------------------- which events touch which column

  predicate Moving(e: Event) { !e.Applied? || e.op.Start? || e.op.Complete? || e.op.Fail? }
  predicate Owning(e: Event) { !e.Applied? }
  predicate Blaming(e: Event) { e.Revoked? || (e.Applied? && e.op.Fail?) }
  predicate Writing(e: Event) { e.Applied? && (e.op.Progress? || e.op.Complete?) }

  // ---------------------------------------------------------------- what the columns are after it

  function StatusAfter(h: seq<Event>, maxRetries: int): StepStatus {
    match Last(h, Moving)
    case None => Queued
    case Some(Issued(_, _, _)) => Assigned
    case Some(Revoked(_, wasRunning)) => if wasRunning && Count(h, IsRetry) > maxRetries then Failed else Queued
    case Some(Applied(_, _, op, _)) => if op.Start? then Running else if op.Complete? then Completed else Failed
  }

  function OwnerAfter(h: seq<Event>): Option<NodeId> {
    match Last(h, Owning)
    case Some(Issued(_, node, _)) => Some(node)
    case _ => None
  }

  function AssignedAtAfter(h: seq<Event>): Option<Time> {
    match Last(h, Owning)
    case Some(Issued(_, _, at)) => Some(at)
    case _ => None
  }

  function TimeOf(e: Option<Event>): Option<Time> {
    match e
    case Some(Issued(_, _, at)) => Some(at)
    case Some(Applied(_, _, _, at)) => Some(at)
    case _ => None
  }

  function ErrorAfter(h: seq<Event>): Option<string> {
    match Last(h, Blaming)
    case Some(Revoked(_, _)) => Some("worker_heartbeat_timeout")
    case Some(Applied(_, _, Fail(reason), _)) => Some(reason)
    case _ => None
  }

  function OutputAfter(h: seq<Event>): Option<JsonObject> {
    match Last(h, Writing)
    case Some(Applied(_, _, Complete(result), _)) => Some(result)
    case Some(Applied(_, _, Progress(percent, message), _)) =>
      Some(map["progress" := Object(map[
                 "percent" := if percent.Some? then Number(percent.value) else Null,
                 "message" := if message.Some? then Text(message.value) else Null])])
    case _ => None
  }

  /** Every column of the row is what the history says. */
  predicate Recorded(row: StepRow, h: seq<Event>, work: Work) {
    && row.work == work
    && row.status == StatusAfter(h, work.maxRetries)
    && row.assignedNode == OwnerAfter(h)
    && row.assignedAt == AssignedAtAfter(h)
    && row.claimedAt == TimeOf(Last(h, IsClaim))
    && row.epoch == Count(h, IsIssue) + Count(h, IsRevocation)
    && row.output == OutputAfter(h)
    && row.retryCount == Count(h, IsRetry)
    && row.startedAt == TimeOf(Last(h, IsStart))
    && row.completedAt == TimeOf(Last(h, IsReport))
    && row.error == ErrorAfter(h)
  }

  lemma Appended(h: seq<Event>, e: Event)
    ensures var h' := h + [e];
            && Last(h', Moving) == (if Moving(e) then Some(e) else Last(h, Moving))
            && Last(h', Owning) == (if Owning(e) then Some(e) else Last(h, Owning))
            && Last(h', Blaming) == (if Blaming(e) then Some(e) else Last(h, Blaming))
            && Last(h', Writing) == (if Writing(e) then Some(e) else Last(h, Writing))
            && Last(h', IsClaim) == (if IsClaim(e) then Some(e) else Last(h, IsClaim))
            && Last(h', IsStart) == (if IsStart(e) then Some(e) else Last(h, IsStart))
            && Last(h', IsReport) == (if IsReport(e) then Some(e) else Last(h, IsReport))
            && Count(h', IsIssue) == Count(h, IsIssue) + (if IsIssue(e) then 1 else 0)
            && Count(h', IsRevocation) == Count(h, IsRevocation) + (if IsRevocation(e) then 1 else 0)
            && Count(h', IsRetry) == Count(h, IsRetry) + (if IsRetry(e) then 1 else 0)
  {
    LastAppend(h, e, Moving);
    LastAppend(h, e, Owning);
    LastAppend(h, e, Blaming);
    LastAppend(h, e, Writing);
    LastAppend(h, e, IsClaim);
    LastAppend(h, e, IsStart);
    LastAppend(h, e, IsReport);
    CountAppend(h, e, IsIssue);
    CountAppend(h, e, IsRevocation);
    CountAppend(h, e, IsRetry);
  }

  /** A result is written only by what ends the step, and the last change of owner made the current epoch. */
  predicate Aligned(row: StepRow, h: seq<Event>) {
    var written, owned := Last(h, Writing), Last(h, Owning);
    && (written.Some? && written.value.Applied? && written.value.op.Complete? ==> row.status == Completed)
    && (owned.Some? ==> owned.value.epoch == row.epoch)
  }

  lemma RecordedStep(x: Atom, op: AtomicOp, work: Work)
    requires Recorded(x.row, x.history, work) && Aligned(x.row, x.history)
    ensures Recorded(AtomNext(x, op).row, AtomNext(x, op).history, work)
    ensures Aligned(AtomNext(x, op).row, AtomNext(x, op).history)
  {
    hide Last, Count;
    LastSatisfies(x.history, Writing);
    if Takes(x.row, op) {
      var e := EventsOf(x.row, op)[0];
      assert EventsOf(x.row, op) == [e];
      Appended(x.history, e);
      if op.Handle? && op.req.op.Progress? {
        var payload := ProgressPayload(op.req.op.percent, op.req.op.message);
        assert OrEmpty(x.row.output)["progress" := payload] == map["progress" := payload];
      }
    } else {
      RefusedIsNothing(x, op);
    }
  }

  lemma LastSatisfies(h: seq<Event>, p: Event -> bool)
    ensures Last(h, p).Some? ==> p(Last(h, p).value)
  {
  }

  lemma {:induction false} RecordsKept(x: Atom, ops: seq<AtomicOp>, work: Work)
    requires Recorded(x.row, x.history, work) && Aligned(x.row, x.history)
    ensures Recorded(AtomRun(x, ops).row, AtomRun(x, ops).history, work)
    ensures Aligned(AtomRun(x, ops).row, AtomRun(x, ops).history)
    decreases |ops|
  {
    hide Recorded, Aligned;
    if ops != [] {
      RecordsKept(x, ops[..|ops| - 1], work);
      RecordedStep(AtomRun(x, ops[..|ops| - 1]), ops[|ops| - 1], work);
    }
  }

  lemma RunIsAligned(work: Work, actions: seq<Action>)
    ensures var c := Run(Fresh(work), actions); Recorded(c.row, c.history, work) && Aligned(c.row, c.history)
  {
    Linearizability(work, actions);
    RecordsKept(Atom(FreshRow(work), [], []), Linearize(Fresh(work), actions), work);
  }

  /** In every interleaving, each column of the row is what the history says. */
  lemma RowIsItsHistory(work: Work, actions: seq<Action>)
    ensures var c := Run(Fresh(work), actions); Recorded(c.row, c.history, work)
  {
    RunIsAligned(work, actions);
  }

  lemma LastIsThere(h: seq<Event>, p: Event -> bool)
    ensures Last(h, p).Some? ==> Last(h, p).value in h && p(Last(h, p).value)
  {
  }

  /** A held step carries the time of the one assignment that issued its epoch; a queued step carries none. */
  lemma HeldSinceIssue(work: Work, actions: seq<Action>)
    ensures var c := Run(Fresh(work), actions);
            && (c.row.Held() ==>
                  && c.row.assignedNode.Some? && c.row.assignedAt.Some?
                  && Issued(c.row.epoch, c.row.assignedNode.value, c.row.assignedAt.value) in c.history
                  && forall e | e in c.history && e.Issued? && e.epoch == c.row.epoch ::
                       e == Issued(c.row.epoch, c.row.assignedNode.value, c.row.assignedAt.value))
            && (c.row.status == Queued ==> c.row.assignedNode.None? && c.row.assignedAt.None?)
  {
    var c := Run(Fresh(work), actions);
    RunIsAligned(work, actions);
    RunInvariants(work, actions);
    LastIsThere(c.history, Owning);
    hide Last, Count, Run;
    if c.row.Held() {
      var since := Issued(c.row.epoch, c.row.assignedNode.value, c.row.assignedAt.value);
      assert Last(c.history, Owning) == Some(since);
      forall e | e in c.history && e.Issued? && e.epoch == c.row.epoch ensures e == since {
        var i :| 0 <= i < |c.history| && c.history[i] == e;
        var j :| 0 <= j < |c.history| && c.history[j] == since;
      }
    }
  }

  lemma LastOfFewer(h: seq<Event>, p: Event -> bool, q: Event -> bool)
    requires forall e | p(e) :: q(e)
    requires Last(h, q).Some? && p(Last(h, q).value)
    ensures Last(h, p) == Last(h, q)
  {
  }

  /** A completed row keeps the result of the last event, and a row failed by its node the reason it gave. */
  lemma ReportIsKept(work: Work, actions: seq<Action>)
    ensures var c := Run(Fresh(work), actions);
            c.row.status == Completed || (c.row.status == Failed && c.row.assignedNode.Some?) ==>
              && c.history != []
              && var last := c.history[|c.history| - 1];
              && last.Applied? && c.row.completedAt == Some(last.at)
              && (c.row.status == Completed ==> last.op.Complete? && c.row.output == Some(last.op.result))
              && (c.row.status == Failed ==> last.op.Fail? && c.row.error == Some(last.op.reason))
  {
    var c := Run(Fresh(work), actions);
    RunIsAligned(work, actions);
    RunInvariants(work, actions);
    LastIsThere(c.history, Moving);
    hide Count, Run;
    if Last(c.history, Moving).Some? && Owning(Last(c.history, Moving).value) {
      LastOfFewer(c.history, Owning, Moving);
    }
    hide Last, EpochInvariant, RetryInvariant;
    if c.row.status == Completed || (c.row.status == Failed && c.row.assignedNode.Some?) {
      var e := Last(c.history, Moving).value;
      var i :| 0 <= i < |c.history| && c.history[i] == e;
      assert IsReport(e);
    }
  }
}
