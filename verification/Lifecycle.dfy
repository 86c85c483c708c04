/**
  The lifecycle protocol of one step.

  A handler first reads the row and validates the request against what it saw; later it issues
  an update that the database applies only where its guard holds. Any number of other handlers,
  assignments and recoveries can run in between. `Cell` is that two-phase system; `Atom` is the
  same system with every handler done in one instant. The main theorem, `Linearizability`, says
  that every run of the first is a run of the second.
 */
module Lifecycle {
  import opened Wrappers
  import opened StateMachine

  // ---------------------------------------------------------------- requests and handlers

  datatype Op =
    | Start
    | Progress(percent: Option<real>, message: Option<string>)
    | Complete(result: JsonObject)
    | Fail(reason: string)
    | Claim

  datatype Request = Request(node: NodeId, epoch: int, op: Op)

  datatype Refusal =
    | StepNotFound
    | NotOwner
    | StaleAssignment
    | BadTransition
    | NotAssigned
    | ChangedMeanwhile

  function HttpStatus(r: Refusal): int {
    match r
    case StepNotFound => 404
    case NotOwner => 403
    case _ => 409
  }

  /** The status a request moves the step to, for the requests that move it. */
  function Target(op: Op): Option<StepStatus> {
    match op
    case Start => Some(Running)
    case Complete(_) => Some(Completed)
    case Fail(_) => Some(Failed)
    case _ => None
  }

  /** The statuses from which the guarded update of a request may fire. */
  function FromStatuses(op: Op): set<StepStatus> {
    match op
    case Start => {Assigned}
    case Progress(_, _) => {Running}
    case Complete(_) => {Running}
    case Fail(_) => {Assigned, Running}
    case Claim => {Assigned}
  }

  /** Phase one: the checks made on the row that was read. */
  function Validate(seen: StepRow, req: Request): Option<Refusal> {
    if seen.assignedNode != Some(req.node) then
      Some(NotOwner)
    else if ValidateAssignmentEpoch(seen, req.epoch).Err? then
      Some(StaleAssignment)
    else if Target(req.op).Some? && TransitionStep(seen.status, Target(req.op).value).Err? then
      Some(BadTransition)
    else if req.op.Claim? && seen.status != Assigned then
      Some(NotAssigned)
    else
      None
  }

  function OrEmpty(output: Option<JsonObject>): JsonObject {
    if output.Some? then output.value else map[]
  }

  function ProgressPayload(percent: Option<real>, message: Option<string>): Json {
    Object(map[
             "percent" := if percent.Some? then Number(percent.value) else Null,
             "message" := if message.Some? then Text(message.value) else Null])
  }

  /** The columns the update writes; progress is merged into the output that was read, not the current one. */
  function Written(current: StepRow, seen: StepRow, op: Op, now: Time): StepRow {
    match op
    case Start => current.(status := Running, startedAt := Some(now))
    case Progress(percent, message) =>
      current.(output := Some(OrEmpty(seen.output)["progress" := ProgressPayload(percent, message)]))
    case Complete(result) => current.(status := Completed, output := Some(result), completedAt := Some(now))
    case Fail(reason) => current.(status := Failed, error := Some(reason), completedAt := Some(now))
    case Claim => current.(claimedAt := Some(now))
  }

  /** The WHERE clause of the update. */
  predicate Guard(current: StepRow, seen: StepRow, req: Request) {
    && current.epoch == seen.epoch
    && current.assignedNode == Some(req.node)
    && current.status in FromStatuses(req.op)
    && (req.op.Claim? ==> current.claimedAt.None?)
  }

  /** Phase two: one conditional update of the current row. */
  function Persist(current: StepRow, seen: StepRow, req: Request, now: Time): Result<StepRow, Refusal> {
    if Guard(current, seen, req) then Ok(Written(current, seen, req.op, now)) else Err(ChangedMeanwhile)
  }

  /** A handler that nothing interrupts. */
  function Handled(row: StepRow, req: Request, now: Time): Result<StepRow, Refusal> {
    var refusal := Validate(row, req);
    if refusal.Some? then Err(refusal.value) else Persist(row, row, req, now)
  }

  /** From where each status can be reached; nothing leaves a completed, skipped or cancelled step. */
  lemma TransitionSources(current: StepStatus, target: StepStatus)
    ensures TransitionStep(current, target) ==
            if match target
               case Pending => false
               case Skipped => current == Pending
               case Queued => current == Pending || current == Assigned || current == Failed
               case Assigned => current == Queued
               case Running => current == Assigned
               case Completed => current == Running
               case Failed => current == Assigned || current == Running
               case Cancelled => current == Pending || current == Queued || current == Assigned || current == Running
            then Ok(target) else Err(IllegalTransition(current, target))
  {
  }

  /**
    How a request is refused: with 403 by a node that does not own the step, with 409 for an epoch that is not the
    step's, or for a status from which it may not act.
   */
  lemma RefusedExactly(row: StepRow, req: Request, now: Time)
    ensures var r := Handled(row, req, now);
            if row.assignedNode != Some(req.node) then r == Err(NotOwner) && HttpStatus(NotOwner) == 403
            else if row.epoch != req.epoch then r == Err(StaleAssignment) && HttpStatus(StaleAssignment) == 409
            else r.Err? <==> match req.op
                             case Start => row.status != Assigned
                             case Progress(_, _) => row.status != Running
                             case Complete(_) => row.status != Running
                             case Fail(_) => row.status != Assigned && row.status != Running
                             case Claim => row.status != Assigned || row.claimedAt.Some?
    ensures var r := Handled(row, req, now);
            r.Err? && r.error != NotOwner ==> r.error != StepNotFound && HttpStatus(r.error) == 409
    ensures var r := Handled(row, req, now);
            r.Err? && row.assignedNode == Some(req.node) && row.epoch == req.epoch ==>
              r.error == if req.op.Progress? || (req.op.Claim? && row.status == Assigned) then ChangedMeanwhile
                         else if req.op.Claim? then NotAssigned else BadTransition
    ensures HttpStatus(StepNotFound) == 404
  {
  }

  /** What an accepted request leaves in the row: the columns it is about, and no other. */
  lemma AcceptedLeaves(row: StepRow, req: Request, now: Time)
    requires Handled(row, req, now).Ok?
    ensures Handled(row, req, now).value ==
            match req.op
            case Start => row.(status := Running, startedAt := Some(now))
            case Progress(percent, message) =>
              row.(output := Some((if row.output.Some? then row.output.value else map[])["progress" := Object(map[
                     "percent" := if percent.Some? then Number(percent.value) else Null,
                     "message" := if message.Some? then Text(message.value) else Null])]))
            case Complete(result) => row.(status := Completed, output := Some(result), completedAt := Some(now))
            case Fail(reason) => row.(status := Failed, error := Some(reason), completedAt := Some(now))
            case Claim => row.(claimedAt := Some(now))
  {
  }

  /** The rows claim-next selects, and the guard of its update: it has no epoch check. */
  predicate Claimable(row: StepRow, node: NodeId) {
    row.status == Assigned && row.assignedNode == Some(node) && row.claimedAt.None?
  }

  /** The update of a request fires exactly from the statuses the transition table allows for its target. */
  lemma FromStatusesArePreimages(op: Op, current: StepStatus)
    requires Target(op).Some?
    ensures current in FromStatuses(op) <==> TransitionStep(current, Target(op).value).Ok?
  {
  }

  // ---------------------------------------------------------------- the atomic system

  /** What a step went through, and when: epochs handed to a node, epochs taken back, requests that took effect. */
  datatype Event =
    | Issued(epoch: int, node: NodeId, at: Time)
    | Revoked(epoch: int, wasRunning: bool)
    | Applied(epoch: int, node: NodeId, op: Op, at: Time)

  type Ticket = nat

  datatype Reply = Reply(ticket: Ticket, accepted: bool)

  datatype AtomicOp =
    | Handle(ticket: Ticket, req: Request, now: Time)
    | ClaimRow(ticket: Ticket, node: NodeId, now: Time)
    | Assign(node: NodeId, now: Time)
    | Recover

  predicate Takes(row: StepRow, op: AtomicOp) {
    match op
    case Handle(_, req, now) => Handled(row, req, now).Ok?
    case ClaimRow(_, node, _) => Claimable(row, node)
    case Assign(_, _) => row.status == Queued
    case Recover => row.Held()
  }

  /** The row after an atomic operation; an operation that is refused changes nothing. */
  function RowNext(row: StepRow, op: AtomicOp): StepRow {
    if !Takes(row, op) then
      row
    else
      match op
      case Handle(_, req, now) => Handled(row, req, now).value
      case ClaimRow(_, _, now) => row.(claimedAt := Some(now))
      case Assign(node, now) => AssignedRow(row, node, now)
      case Recover => RecoveredRow(row)
  }

  function EventsOf(row: StepRow, op: AtomicOp): seq<Event> {
    if !Takes(row, op) then
      []
    else
      match op
      case Handle(_, req, now) => [Applied(row.epoch, req.node, req.op, now)]
      case ClaimRow(_, node, now) => [Applied(row.epoch, node, Claim, now)]
      case Assign(node, now) => [Issued(row.epoch + 1, node, now)]
      case Recover => [Revoked(row.epoch + 1, row.status == Running)]
  }

  function RepliesOf(row: StepRow, op: AtomicOp): seq<Reply> {
    match op
    case Handle(t, _, _) => [Reply(t, Takes(row, op))]
    case ClaimRow(t, _, _) => [Reply(t, Takes(row, op))]
    case _ => []
  }

  datatype Atom = Atom(row: StepRow, history: seq<Event>, replies: seq<Reply>)

  function AtomNext(x: Atom, op: AtomicOp): Atom {
    Atom(RowNext(x.row, op), x.history + EventsOf(x.row, op), x.replies + RepliesOf(x.row, op))
  }

  function AtomRun(x: Atom, ops: seq<AtomicOp>): Atom {
    if ops == [] then x else AtomNext(AtomRun(x, ops[..|ops| - 1]), ops[|ops| - 1])
  }

  // ---------------------------------------------------------------- the two-phase system

  /** A handler between its two phases. */
  datatype Flight =
    | Validated(req: Request, seen: StepRow)
    | Selected(node: NodeId)

  datatype Cell = Cell(row: StepRow, history: seq<Event>, replies: seq<Reply>, flights: map<Ticket, Flight>)

  datatype Action =
    | Read(ticket: Ticket, req: Request)
    | Commit(ticket: Ticket, now: Time)
    | Select(ticket: Ticket, node: NodeId)
    | CommitClaim(ticket: Ticket, now: Time)
    | AssignNow(node: NodeId, now: Time)
    | RecoverNow

  function Fresh(work: Work): Cell {
    Cell(FreshRow(work), [], [], map[])
  }

  /** Phase one: refused on the spot, or in flight with the row it saw. */
  function ReadPhase(c: Cell, t: Ticket, req: Request): Cell {
    if t in c.flights then c
    else if Validate(c.row, req).Some? then c.(replies := c.replies + [Reply(t, false)])
    else c.(flights := c.flights[t := Validated(req, c.row)])
  }

  /** Phase two: the guarded update against whatever the row is by now. */
  function CommitPhase(c: Cell, t: Ticket, now: Time): Cell {
    if t in c.flights && c.flights[t].Validated? then
      var Validated(req, seen) := c.flights[t];
      var landed := c.(flights := c.flights - {t});
      match Persist(c.row, seen, req, now)
      case Ok(row) =>
        landed.(row := row,
                history := c.history + [Applied(c.row.epoch, req.node, req.op, now)],
                replies := c.replies + [Reply(t, true)])
      case Err(_) => landed.(replies := c.replies + [Reply(t, false)])
    else c
  }

  function SelectPhase(c: Cell, t: Ticket, node: NodeId): Cell {
    if t !in c.flights && Claimable(c.row, node) then c.(flights := c.flights[t := Selected(node)]) else c
  }

  function CommitClaimPhase(c: Cell, t: Ticket, now: Time): Cell {
    if t in c.flights && c.flights[t].Selected? then
      var node := c.flights[t].node;
      var landed := c.(flights := c.flights - {t});
      if Claimable(c.row, node) then
        landed.(row := c.row.(claimedAt := Some(now)),
                history := c.history + [Applied(c.row.epoch, node, Claim, now)],
                replies := c.replies + [Reply(t, true)])
      else landed.(replies := c.replies + [Reply(t, false)])
    else c
  }

  function Next(c: Cell, a: Action): Cell {
    match a
    case Read(t, req) => ReadPhase(c, t, req)
    case Commit(t, now) => CommitPhase(c, t, now)
    case Select(t, node) => SelectPhase(c, t, node)
    case CommitClaim(t, now) => CommitClaimPhase(c, t, now)
    case AssignNow(node, now) =>
      if c.row.status == Queued then
        c.(row := AssignedRow(c.row, node, now), history := c.history + [Issued(c.row.epoch + 1, node, now)])
      else c
    case RecoverNow =>
      if c.row.Held() then
        c.(row := RecoveredRow(c.row), history := c.history + [Revoked(c.row.epoch + 1, c.row.status == Running)])
      else c
  }

  function Run(c: Cell, actions: seq<Action>): Cell {
    if actions == [] then c else Next(Run(c, actions[..|actions| - 1]), actions[|actions| - 1])
  }

  /** A handler that nothing interrupts between its phases is the atomic handler: the same row, history and answer. */
  lemma UninterruptedHandler(c: Cell, t: Ticket, req: Request, now: Time)
    requires t !in c.flights
    ensures var done := Next(Next(c, Read(t, req)), Commit(t, now));
            && done.row == (if Handled(c.row, req, now).Ok? then Handled(c.row, req, now).value else c.row)
            && done.history == c.history +
                 (if Handled(c.row, req, now).Ok? then [Applied(c.row.epoch, req.node, req.op, now)] else [])
            && done.replies == c.replies + [Reply(t, Handled(c.row, req, now).Ok?)] && done.flights == c.flights
  {
    var seen := Next(c, Read(t, req));
    assert Next(seen, Commit(t, now)).flights == c.flights;
  }

  /** So is claim-next: it marks a row the node can claim, and finds no other. */
  lemma UninterruptedClaim(c: Cell, t: Ticket, node: NodeId, now: Time)
    requires t !in c.flights
    ensures Claimable(c.row, node) <==>
            c.row.status == Assigned && c.row.assignedNode == Some(node) && c.row.claimedAt == None
    ensures var done := Next(Next(c, Select(t, node)), CommitClaim(t, now));
            if Claimable(c.row, node)
            then done == Cell(c.row.(claimedAt := Some(now)), c.history + [Applied(c.row.epoch, node, Claim, now)],
                              c.replies + [Reply(t, true)], c.flights)
            else done == c
  {
    assert (c.flights[t := Selected(node)]) - {t} == c.flights;
  }

  /** A handler in flight stays so, with what it read, until it commits itself. */
  lemma FlightsAreTheirOwn(c: Cell, a: Action, t: Ticket)
    requires t in c.flights && !(a.Commit? && a.ticket == t) && !(a.CommitClaim? && a.ticket == t)
    ensures t in Next(c, a).flights && Next(c, a).flights[t] == c.flights[t]
  {
  }

  // ---------------------------------------------------------------- stale reads

  function WithoutProgress(output: Option<JsonObject>): JsonObject {
    OrEmpty(output) - {"progress"}
  }

  /**
    How a row that was read earlier relates to the row now. Epochs only grow; and while the epoch
    has not moved and the step is still held, only the progress entry of the output can differ.
   */
  predicate Follows(seen: StepRow, current: StepRow) {
    && seen.epoch <= current.epoch
    && (seen.epoch == current.epoch && current.Held() ==>
          WithoutProgress(seen.output) == WithoutProgress(current.output))
  }

  lemma FollowsStep(seen: StepRow, row: StepRow, op: AtomicOp)
    requires Follows(seen, row)
    ensures Follows(seen, RowNext(row, op))
  {
    if Takes(row, op) && op.Handle? && op.req.op.Progress? {
      var before, after := OrEmpty(row.output), OrEmpty(RowNext(row, op).output);
      assert before - {"progress"} == after - {"progress"};
    }
  }

  /**
    The commit of a stale handler is the atomic handler at that instant: it takes effect exactly
    when the atomic handler would, and writes exactly the same row.
   */
  lemma CommitIsAtomic(current: StepRow, seen: StepRow, req: Request, now: Time)
    requires Validate(seen, req).None? && Follows(seen, current)
    ensures Persist(current, seen, req, now).Ok? <==> Handled(current, req, now).Ok?
    ensures Persist(current, seen, req, now).Ok? ==> Persist(current, seen, req, now) == Handled(current, req, now)
  {
    if Guard(current, seen, req) && req.op.Progress? {
      var p := ProgressPayload(req.op.percent, req.op.message);
      var s, c := OrEmpty(seen.output), OrEmpty(current.output);
      assert s["progress" := p] == (s - {"progress"})["progress" := p];
      assert c["progress" := p] == (c - {"progress"})["progress" := p];
    }
  }

  /** The two systems answer a late request with the same code unless the node has lost the step meanwhile. */
  lemma LateRefusalCodes(current: StepRow, seen: StepRow, req: Request, now: Time)
    requires Validate(seen, req).None? && Follows(seen, current)
    requires Persist(current, seen, req, now).Err?
    ensures Handled(current, req, now).Err?
    ensures HttpStatus(Persist(current, seen, req, now).error) == HttpStatus(Handled(current, req, now).error)
            <==> current.assignedNode == Some(req.node)
  {
    CommitIsAtomic(current, seen, req, now);
  }

  // ---------------------------------------------------------------- linearization

  /** The atomic operation an action stands for, at the instant it happens; none for a read that goes on. */
  function PointOf(c: Cell, a: Action): seq<AtomicOp> {
    match a
    case Read(t, req) => if t !in c.flights && Validate(c.row, req).Some? then [Handle(t, req, 0)] else []
    case Commit(t, now) =>
      if t in c.flights && c.flights[t].Validated? then [Handle(t, c.flights[t].req, now)] else []
    case Select(_, _) => []
    case CommitClaim(t, now) =>
      if t in c.flights && c.flights[t].Selected? then [ClaimRow(t, c.flights[t].node, now)] else []
    case AssignNow(node, now) => [Assign(node, now)]
    case RecoverNow => [Recover]
  }

  function Linearize(c: Cell, actions: seq<Action>): seq<AtomicOp> {
    if actions == [] then []
    else
      var earlier := actions[..|actions| - 1];
      Linearize(c, earlier) + PointOf(Run(c, earlier), actions[|actions| - 1])
  }

  function Observed(c: Cell): Atom {
    Atom(c.row, c.history, c.replies)
  }

  /** Every handler in flight passed its checks on a row that the current one follows. */
  predicate FlightsFollow(c: Cell) {
    forall t | t in c.flights && c.flights[t].Validated? ::
      Validate(c.flights[t].seen, c.flights[t].req).None? && Follows(c.flights[t].seen, c.row)
  }

  /** One action of the two-phase system is at most one operation of the atomic one. */
  lemma StepIsAtomic(c: Cell, a: Action)
    requires FlightsFollow(c)
    ensures Observed(Next(c, a)) == AtomRun(Observed(c), PointOf(c, a))
    ensures FlightsFollow(Next(c, a))
  {
    var x, point, c' := Observed(c), PointOf(c, a), Next(c, a);
    if a.Commit? && point != [] {
      CommitIsAtomic(c.row, c.flights[a.ticket].seen, c.flights[a.ticket].req, a.now);
    }
    assert point == [] || point == [point[0]];
    assert point != [] ==> AtomRun(x, point) == AtomNext(AtomRun(x, []), point[0]);
    assert Observed(c') == AtomRun(x, point);
    forall t | t in c.flights && c.flights[t].Validated? ensures Follows(c.flights[t].seen, c'.row) {
      if point != [] {
        FollowsStep(c.flights[t].seen, c.row, point[0]);
      }
    }
  }

  lemma {:induction false} AtomRunConcat(x: Atom, a: seq<AtomicOp>, b: seq<AtomicOp>)
    ensures AtomRun(x, a + b) == AtomRun(AtomRun(x, a), b)
    decreases |b|
  {
    if b == [] {
      assert a + b == a;
    } else {
      var b' := b[..|b| - 1];
      assert (a + b)[..|a + b| - 1] == a + b';
      AtomRunConcat(x, a, b');
    }
  }

  /**
    Every interleaving of two-phase handlers, selections, assignments and recoveries leaves the row,
    the history and the answers that the atomic handlers leave, run one at a time in the order of
    the commit instants (or, for a request refused on reading, the read instant).
   */
  lemma {:induction false} Linearizability(work: Work, actions: seq<Action>)
    ensures Observed(Run(Fresh(work), actions)) == AtomRun(Atom(FreshRow(work), [], []), Linearize(Fresh(work), actions))
    ensures FlightsFollow(Run(Fresh(work), actions))
    decreases |actions|
  {
    if actions != [] {
      var earlier, a := actions[..|actions| - 1], actions[|actions| - 1];
      var c, x := Run(Fresh(work), earlier), Atom(FreshRow(work), [], []);
      Linearizability(work, earlier);
      StepIsAtomic(c, a);
      AtomRunConcat(x, Linearize(Fresh(work), earlier), PointOf(c, a));
    }
  }
}
