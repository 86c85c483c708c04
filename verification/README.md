# Verified model of the MediaOrchard Controller and worker

MediaOrchard runs media steps on several machines. A Controller keeps jobs, steps and nodes in tables; workers
poll it, claim the steps assigned to them, run them and report back. This project models that exchange and
proves what it promises.

- **Step protocol** (`StateMachine`, `Lifecycle`, `Fencing`, `History`). A lifecycle handler reads a row,
  validates the request against what it saw, and later issues a guarded update; anything may run in between.
  `Lifecycle` proves that every such interleaving is a run of handlers that act in one instant. `Fencing` proves,
  over all runs, that epochs fence off old owners, that execution is bounded by the retry limit, that starts,
  claims and reports happen at most once, and that ended steps never change. `History` proves that every column of
  a row is determined by the history of the step: which event it comes from, and from no other.
- **Scheduling** (`Policies`, `Scoring`, `Scheduling`, `PassTheorems`, `Balance`, `Heartbeat`, `Capacity`). A heartbeat
  runs a greedy pass over the queued steps that raises node counters as it goes. Proved: nothing assignable stays
  queued, counters are conserved and capacity kept, the order in which the database lists nodes does not
  matter, equal nodes share evenly, how large a priority gap decides everything, and which reports keep per-type
  capacity over many heartbeats.
- **Jobs** (`Rollup`, `Overlap`, `Completion`, `Failure`, `JobProgress`, `JobHistory`). What jobs say about their steps when roll-ups
  overlap, exactly when an overlap loses a completion or a failure, and what holds when handlers run one at a time,
  down to which step event each column of a job comes from.
- **The whole Controller** (`System`). Many steps and jobs at once, with stale-read handlers and overlapping roll-ups
  in any interleaving: each step keeps the step protocol's theorems, and the jobs keep those of overlapping roll-ups.
- **Handlers and worker** (`Controllers`, `Worker`). The Controller as a class over its tables, each handler proved
  against the atomic handler at its commit instant; the worker's try/except over a transport that loses requests or
  answers; the polling loop that drains the queue.
- **Printers** (`Priorities`, `Srt`, with `Text` and `Ordering`). Node priorities and SubRip text, with exact round
  trips.

What the proofs found in the program:

- `claimed_at` is never cleared, neither by a recovery nor by a new assignment. A step that was claimed, recovered and
  assigned again can never be claimed again (`ClaimableAgain`, `ClaimedForGood`, `StrandedRetry`), so a polling
  worker never runs its retries, although `plan.md` (line 1116) promises that recovered work is taken up again.
- Overlapping roll-ups can leave a job of a single step running with nothing left to do, although its step has completed
  (`OverlapLosesCompletion`) or failed (`OverlapLosesFailure`): the roll-up of the start loads the queued job, and
  stores it as running after the other roll-up has ended. The shipped worker causes the second: when the answer to its
  start does not come in time, it reports a failure at once, while that roll-up may still be under way. The first
  takes another client, one that reports a completion without waiting for the answer to its start.
  `CompletionIsLostExactly` and `FailureIsLostExactly` say which runs lose the status: those in which some store
  undoes it and no later store restores it, both of which can be read off the tables before the store.
- A step that runs out of retries fails, but its job is never told (`FailureIsLostExactly`, `ExhaustionFailsNoJob`);
  nothing in the program calls the recovery yet.
- A heartbeat overwrites a node's job counters, and the shipped worker always reports zero, so over several heartbeats
  a node can hold more whisper or ffmpeg steps than its maximum (`IdleReportsOverfill`). It cannot while reports cover
  the steps held (`HonestReportsKeepCapacity`); and `OverfullExactly` gives what a single heartbeat adds to the steps
  of a node that is alone online, by its report and the waiting steps, and so exactly when it ends with too many. The
  one step that `create_job` makes is of neither type, so this concerns steps that no handler creates yet.
- For jobs of several steps, which the roll-ups provide for but no handler creates yet: a failed job goes back to
  running when another of its steps completes (`FailedUntilNextCompletion`, `FailureIsForgotten`), and the start
  floor of one percent makes progress drop at the first completion exactly for jobs of more than 100 steps
  (`FirstCompletionDrops`).

## Assumptions

- A heartbeat, with its scheduling writes, is one transaction. Its writes to a step carry no epoch guard.
- A guarded update is atomic and reports how many rows it changed.
- `recover_timed_out_step` has no caller in the program. It is an environment action that may happen at any time.
- A session writes back only the job columns it changed.
- Costs are exact reals, percentages exact rationals; instants are whole microseconds.

## Model

| member | source | states |
|---|---|---|
| StateMachine.AssignStep | mediaorchard/controller/runtime/state_machine.py:33-39 | only a queued step is assigned: it gets the node, the time and the next epoch, and keeps everything else, its claim mark included; any other step is untouched |
| StateMachine.RecoverTimedOutStep | mediaorchard/controller/runtime/state_machine.py:49-69 | exactly assigned and running steps are recovered: the node is dropped and the epoch raised, only running work consumes a retry, and the step is queued again unless that retry exceeds the limit |
| Lifecycle.FromStatusesArePreimages | mediaorchard/controller/runtime/state_machine.py:13-30 | the statuses from which the update of start, complete and fail may fire are exactly those from which the transition table allows the target |
| Lifecycle.TransitionSources | mediaorchard/controller/runtime/state_machine.py:13-30 | from where each status can be reached, for all pairs of statuses; nothing leaves a completed, skipped or cancelled step |
| Lifecycle.RefusedExactly | mediaorchard/controller/main.py:351-403 | for every row and request, whether a handler refuses and with which reason and code: 403 for a foreign node, 409 for a wrong epoch or status, 404 for no step |
| Lifecycle.AcceptedLeaves | mediaorchard/controller/main.py:444-559 | what each accepted request leaves in the row: the columns it is about, with their values, and every other column as it was |
| Lifecycle.UninterruptedHandler | mediaorchard/controller/main.py:444-559 | a read and a commit with nothing in between are the instantaneous handler: the same row, history and answer |
| Lifecycle.UninterruptedClaim | mediaorchard/controller/main.py:405-442 | a selection and its update with nothing in between mark exactly an assigned, unclaimed row of the node, and do nothing otherwise |
| Lifecycle.FlightsAreTheirOwn | mediaorchard/controller/main.py:373-403 | a handler in flight keeps what it read until it commits itself |
| Lifecycle.FollowsStep | mediaorchard/controller/main.py:477-485 | whatever happens to a row, its epoch does not go back, and while the epoch stays and the step is held, only the progress entry of its output differs from what was read |
| Lifecycle.CommitIsAtomic | mediaorchard/controller/main.py:373-403 | a commit on a stale read takes effect exactly when the handler run in that instant would, and writes exactly the same row |
| Lifecycle.LateRefusalCodes | mediaorchard/controller/main.py:392-398 | a handler refused at commit would be refused by the instantaneous one too, with the same status code exactly while the node still owns the step |
| Lifecycle.StepIsAtomic | mediaorchard/controller/main.py:405-559 | each action of the two-phase system is at most one operation of the instantaneous one, and keeps every handler in flight on a row that follows what it read |
| Lifecycle.Linearizability | mediaorchard/controller/main.py:373-559 | every interleaving of reads, commits, claims, assignments and recoveries ends with the row, the history and the answers of the instantaneous handlers run in commit order |
| Fencing.FencedHistory | mediaorchard/controller/main.py:382-398 | in every run epochs never go back, each assignment has an epoch nothing before it carries, requests that take effect after a recovery carry later epochs, and each comes from the one node its epoch was issued to |
| Fencing.RecoveredHandlersNeverLand | mediaorchard/controller/main.py:452-462 | a handler read and validated before a recovery changes nothing whenever it commits afterwards |
| Fencing.EpochConservation | mediaorchard/controller/runtime/state_machine.py:33-67 | in every reachable state the epoch is assignments plus recoveries and is odd exactly while a node is assigned |
| Fencing.BoundedExecution | mediaorchard/controller/runtime/state_machine.py:58-67 | in every run a step starts at most once more than its retry limit, its retry count is the number of recoveries from running, within the limit while live and at most one past it ever |
| Fencing.AtMostOnce | mediaorchard/controller/main.py:415-438 | in every run each epoch starts at most once, a step is claimed at most once ever, and a completion or failure that took effect is the last event |
| Fencing.TerminalFreeze | mediaorchard/controller/main.py:487-537 | a completed or failed row never changes in any field again, whatever is in flight |
| Fencing.ClaimedForGood | mediaorchard/controller/main.py:415-434 | once a step has been claimed no run claims it again, and no node finds it claimable |
| Fencing.ClaimableAgain | mediaorchard/controller/runtime/state_machine.py:33-56 | a recovered and reassigned step is claimable exactly if it had never been claimed |
| Fencing.StrandedRetry | mediaorchard/controller/runtime/state_machine.py:58-67 | a concrete run after which a step with a retry left is assigned to a node that can never claim it |
| History.RowIsItsHistory | mediaorchard/controller/main.py:373-559 | in every interleaving each column of a row is what one last event of its history left: status, node and times, epoch, claim mark, retry count, output and error |
| History.HeldSinceIssue | mediaorchard/controller/runtime/state_machine.py:33-39 | in every interleaving a held step carries the time of the one assignment that issued its epoch, and a queued step carries neither node nor time |
| History.ReportIsKept | mediaorchard/controller/main.py:487-537 | in every interleaving a completed row keeps the result and time of the last event, and a row failed by its node the reason and time |
| System.EveryRowIsItsHistory | mediaorchard/controller/main.py:373-559 | the same for every step of every reachable state of the whole system |
| System.FirstAssignedIsSelected | mediaorchard/controller/main.py:415-424 | in every reachable state the row claim-next selects was assigned to the node no later than any other it could claim, by the times of the assignments in the histories |
| System.StepsAreIndependent | mediaorchard/controller/main.py:351-355 | each step's part of a run of the whole system is a run of that step alone |
| System.EveryStepIsFenced | mediaorchard/controller/main.py:382-398 | every step of every reachable state of the whole system keeps all of the fencing, retry and at-most-once invariants |
| System.SystemIsWorld | mediaorchard/controller/main.py:373-559 | every run of stale-read handlers and overlapping roll-ups leaves the step, job and roll-up tables of a run of instantaneous handlers with the same roll-ups |
| System.CompletedJobsAreOver | mediaorchard/controller/main.py:158-181 | in every interleaving of two-phase handlers and roll-ups, a job that says completed at any moment has only completed steps, gets no others, and none of their rows ever changes again |
| System.JobsLoseCompletionExactly | mediaorchard/controller/main.py:158-181 | in the whole system, a job with all steps completed and no roll-up left fails to say so exactly if a stale store undid its completion and no later store restored it |
| System.JobsLoseFailureExactly | mediaorchard/controller/main.py:147-192 | in the whole system, a job whose only step has failed, with no roll-up left, fails to say so exactly if the step ran out of retries, or a stale store undid the job's failure and no later store restored it |
| Policies.FreshForSeconds | mediaorchard/controller/scheduler/policies.py:74-82 | a heartbeat is good for its timeout in seconds, a million microseconds each, and still good at the last instant |
| Policies.EligibleExactly | mediaorchard/controller/scheduler/policies.py:85-121 | the verdict names the first broken limit, in the order of the filters and by the tool names and numbers of the program, and a node is eligible exactly if none is broken |
| Policies.EligibilityIsAntitone | mediaorchard/controller/scheduler/policies.py:115-119 | raising a node's job counters never makes it eligible |
| Policies.KindsAreDisjoint | mediaorchard/controller/scheduler/policies.py:27-34 | no step counts both as a whisper and as an ffmpeg step |
| Scoring.PriorityLowersCost | mediaorchard/controller/scheduler/scoring.py:47-77 | each point of the configured priority, by id or else by host, makes a node one unit cheaper than it would be without priorities |
| Scoring.IdOutranksHost | mediaorchard/controller/scheduler/scoring.py:47-52 | a priority listed for the host lowers the cost by itself exactly when the id is not listed, and not at all otherwise |
| Scoring.JobsCost | mediaorchard/controller/scheduler/scoring.py:28-33 | one more job of a type costs 0.15 to a step that counts jobs of that type, and nothing to any other |
| Scoring.HeatCosts | mediaorchard/controller/scheduler/scoring.py:36-44 | by heat alone a normal node is one unit cheaper than one of unknown state, that one than a fair one, and hot ones eight more |
| Scoring.Best | mediaorchard/controller/scheduler/scoring.py:93-106 | the pick is eligible and least in cost, then id, among all eligible nodes; there is no pick exactly if none is eligible |
| Scoring.BestIsUnique | mediaorchard/controller/scheduler/scoring.py:105-106 | with distinct ids there is only one such node |
| Scoring.SortCandidates | mediaorchard/controller/scheduler/scoring.py:105 | the candidates in ascending order of cost and id, each as often as before |
| Scoring.SelectNodeForStep | mediaorchard/controller/scheduler/scoring.py:82-107 | selects the best node; every listed node is either rejected with its first failing filter or scored with its cost, never both |
| Scheduling.AssignBestNode | mediaorchard/controller/scheduler/loop.py:17-35 | a step that is not queued is an error and nothing changes; otherwise the best node, if any, gets the step and one more job of its kind, and no other node changes |
| Scheduling.ScheduleQueuedSteps | mediaorchard/controller/main.py:133-145 | the loaded steps and nodes end as the fold of single placements over the steps in order |
| PassTheorems.PassOnlyAssigns | mediaorchard/controller/main.py:138-145 | every step ends as it was or, if it was queued, assigned to a node that was eligible for it when the pass began |
| PassTheorems.SettledIsAssign | mediaorchard/controller/runtime/state_machine.py:33-39 | such an assignment is one assignment of the lifecycle protocol, with the next epoch and the old claim mark |
| PassTheorems.PassIsWorkConserving | mediaorchard/controller/main.py:121-145 | after a pass no step still queued has an eligible node, by the counters the pass ends with |
| PassTheorems.PassConservesJobs | mediaorchard/controller/scheduler/loop.py:27-34 | every counter of a node grows by exactly the number of steps of its kind the pass gave to that node |
| PassTheorems.PassRespectsCapacity | mediaorchard/controller/scheduler/policies.py:115-119 | whisper and ffmpeg jobs of a node end at most at the larger of their initial number and the configured maximum |
| PassTheorems.OrderIndependence | mediaorchard/controller/main.py:133-140 | a pass gives every step the same node and leaves the same node rows for every order of the node list |
| Balance.GreedyBalance | mediaorchard/controller/scheduler/scoring.py:55-107 | after a pass over any number of generic steps with equal constraints, every node that got one costs at most 0.15 more than any eligible node |
| Balance.EqualNodesShareEvenly | mediaorchard/controller/scheduler/scoring.py:28-33 | of two nodes with equal static cost, the second eligible, the first ends at most one job ahead, or no further ahead than it began |
| Balance.PriorityDominance | mediaorchard/controller/scheduler/scoring.py:36-77 | under the default limits a gap above 44.5 plus 0.15 per job of the same type, in the configured priorities, makes the preferred node cheaper than any other eligible node |
| Balance.PreferredNodeTakesAll | mediaorchard/controller/scheduler/scoring.py:47-77 | while the gap covers the jobs it will have, the preferred node takes every generic step it is eligible for |
| Balance.FirstStepsGoToPreferred | mediaorchard/controller/scheduler/scoring.py:47-77 | with a gap of 100 and no jobs, the first 370 generic steps of a pass go to the preferred node |
| Balance.ListedNodeTakesFirstSteps | mediaorchard/controller/scheduler/scoring.py:47-77 | with a priority of at least 100 configured for one name and none that names another node, the first 370 generic steps go to the idle node whose id or, failing that, whose host it is |
| Balance.DominanceBoundIsExact | mediaorchard/controller/scheduler/scoring.py:47-77 | with 370 jobs and a gap of exactly 100 the preferred node can tie, and lose to a smaller id |
| Rollup.StoreAlone | mediaorchard/controller/main.py:147-192 | a roll-up that nothing interrupts leaves what it computed, and one that changed nothing leaves everything |
| Rollup.StoresCommute | mediaorchard/controller/main.py:147-192 | two overlapping stores that change no column in common can come in either order |
| Rollup.NoStepsFailTheJob | mediaorchard/controller/main.py:162-170 | a completion rolled up into a job without steps fails it with its message |
| Rollup.CompletedJobsAreDone | mediaorchard/controller/main.py:158-181 | in every interleaving of handlers and roll-ups, a job that says completed has only completed steps |
| JobProgress.JobsFollowTheirSteps | mediaorchard/controller/main.py:147-192 | with handlers one at a time a job is completed exactly when all its steps are, and its progress is zero, the floor or the share of completed steps |
| JobHistory.JobIsItsHistory | mediaorchard/controller/main.py:147-192 | with handlers one at a time each column of a job's row is what one event of its steps left: status, progress, error and completion time |
| JobHistory.PercentIsNearest | mediaorchard/controller/main.py:173-173 | the stored progress is the share of completed steps to the nearest hundredth of a percent, ties to even |
| JobProgress.CompletedJobStays | mediaorchard/controller/main.py:158-192 | with handlers one at a time the row of a completed job never changes again |
| JobProgress.ProgressNeverDrops | mediaorchard/controller/main.py:151-173 | with handlers one at a time and at most 100 steps, no action lowers a job's progress |
| JobProgress.FirstCompletionDrops | mediaorchard/controller/main.py:153-173 | for a job of any steps, after its creation and the assignment and start of one step, the completion of that step lowers the job's progress exactly when there are more than 100 steps |
| JobProgress.FailedUntilNextCompletion | mediaorchard/controller/main.py:174-178 | a failed job stops being failed exactly when one of its steps completes |
| JobProgress.FailureIsForgotten | mediaorchard/controller/main.py:158-192 | for a job of any two or more steps, a run in which one step fails and another completes shows the job failed, then running, with the first step still failed |
| Completion.CompletionIsKept | mediaorchard/controller/main.py:158-181 | in every interleaving in which no store undoes it, a job with all steps completed and no roll-up left says completed |
| Completion.CompletionIsLostExactly | mediaorchard/controller/main.py:158-181 | in every run that ends with all steps of a job completed and none of its roll-ups left, the job fails to say completed exactly if some stale store undid its completion and no later store restored it |
| Overlap.OnlyStoresUndo | mediaorchard/controller/main.py:147-192 | no action but a store of a status that is neither the job's nor the one its roll-up loaded takes a job's status away, and every such store does |
| Overlap.OnlyStoresRestore | mediaorchard/controller/main.py:147-192 | no action but a store of a status other than the one its roll-up loaded gives a known job a status it does not have, and every such store does |
| Overlap.LostExactly | mediaorchard/controller/main.py:147-192 | for any status that a run ends with unless a store takes it away: it is missing at the end exactly if some store took it away and no later store restored it |
| Completion.OverlapLosesCompletion | mediaorchard/controller/main.py:147-181 | a concrete run with a job of one step that ends with the step completed, nothing due, and the job running at one percent |
| Failure.FailureIsKept | mediaorchard/controller/main.py:183-192 | in every interleaving in which no store undoes it, a job whose only step was reported failed says so once no roll-up is left |
| Failure.FailureIsLostExactly | mediaorchard/controller/main.py:147-192 | in every run that ends with the only step of a job failed and no roll-up left, the job fails to say so exactly if the step ran out of retries, or some stale store undid the job's failure and no later store restored it |
| Failure.OverlapLosesFailure | mediaorchard/controller/main.py:147-192 | a concrete run with a job of one step that ends with the step reported failed, nothing due, and the job running |
| Failure.ExhaustionFailsNoJob | mediaorchard/controller/runtime/state_machine.py:58-67 | for any retry limit, a concrete run in which the only step of a job runs out of retries and the job stays running |
| Controllers.Controller.MarkJobRunning | mediaorchard/controller/main.py:147-156 | the start roll-up: a created or queued job runs, with at least one percent |
| Controllers.Controller.MarkJobAfterStepCompletion | mediaorchard/controller/main.py:158-181 | the completion roll-up: failed without steps, completed when all steps are, running otherwise, with the rounded share of completed steps |
| Controllers.Controller.MarkJobFailed | mediaorchard/controller/main.py:183-192 | the failure roll-up: failed, with the message |
| Controllers.Controller.PersistStepUpdate | mediaorchard/controller/main.py:373-403 | one update that changes the named columns where epoch, owner, status and, if asked, the claim mark match, and is refused without change elsewhere |
| Controllers.Controller.ReadOwnedStep | mediaorchard/controller/main.py:351-371 | refuses exactly the requests that validation refuses whatever they ask for, with the same reason, and an unknown step; what it lets through is refused neither for its owner nor for its epoch |
| Controllers.Controller.StartStep | mediaorchard/controller/main.py:444-464 | refused on what was read, or, whatever ran meanwhile, the effect and answer of the atomic start and its roll-up on the tables of the commit instant |
| Controllers.Controller.ProgressStep | mediaorchard/controller/main.py:466-485 | the same for progress: the merged output is that of the commit instant although it was computed from the earlier read |
| Controllers.Controller.CompleteStep | mediaorchard/controller/main.py:487-511 | the same for complete |
| Controllers.Controller.FailStep | mediaorchard/controller/main.py:513-537 | the same for fail |
| Controllers.Controller.ClaimStep | mediaorchard/controller/main.py:539-559 | the same for claim |
| Controllers.CommitPoint | mediaorchard/controller/main.py:382-403 | after any schedule of whole handlers, the guarded update and its roll-up equal the whole handler run at that instant |
| Controllers.Controller.SelectClaimable | mediaorchard/controller/main.py:415-424 | a claimable row of the node that no other claimable row precedes in assignment time, or none if there is none |
| Controllers.Controller.ClaimNext | mediaorchard/controller/main.py:405-442 | a mismatched node is refused; a claim marks the row selected first, if it is claimable at the commit instant, and nothing else; an empty answer means that nothing was claimable, or that the selected row had ceased to be |
| Controllers.Controller.RegisterNode | mediaorchard/controller/main.py:214-240 | a shared root that is missing, no directory or not the Controller's is refused, with the first of these reasons; otherwise the node is online with the new name, root and limits and keeps its metrics, or is new with defaults |
| Controllers.Controller.ScheduleQueue | mediaorchard/controller/main.py:121-145 | one pass over the queued steps in id order and all nodes in some order; other steps stay as they are |
| Controllers.Controller.HeartbeatNode | mediaorchard/controller/main.py:242-268 | an unknown node is refused; otherwise its metrics are recorded and one pass runs on the result |
| Controllers.Controller.CreateSubtitleJob | mediaorchard/controller/main.py:270-329 | the supported goal with an input file under the shared root creates a queued job with one queued, unassigned pipeline step at epoch zero, with two retries and no per-type limit; anything else is refused and changes nothing |
| Controllers.InsideExactly | mediaorchard/shared/paths.py:20-33 | the canonical paths inside a root are the root and those that continue it after a slash |
| Heartbeat.BeatLastsThirtySeconds | mediaorchard/controller/scheduler/policies.py:11-18 | under the default limits, by their numbers, exactly when a node that reported at some instant can take a generic step later: up to thirty seconds, and within each limit |
| Heartbeat.SilentNodeGetsNothing | mediaorchard/controller/scheduler/policies.py:74-76 | a node that has registered but never reported is never eligible |
| Heartbeat.SchedulingIsDeterministic | mediaorchard/controller/main.py:123-145 | two schedulings of the same tables at the same instant end in the same tables, however the nodes are listed |
| Heartbeat.OnlyTakerTakesAll | mediaorchard/controller/main.py:138-145 | if one node can take all the queued generic steps and no other is online, it gets all of them |
| Capacity.BeatAccounts | mediaorchard/controller/main.py:253-265 | a heartbeat leaves each reported metric in its column, and in each of the three counters the number reported for it and the steps of its kind that its scheduling handed to the node |
| Capacity.ScheduledNode | mediaorchard/controller/main.py:138-145 | a scheduling pass over the tables raises a node's whisper and ffmpeg counters by as many as the steps of that kind it holds grow, and not past its maximum |
| Capacity.HonestReportsKeepCapacity | mediaorchard/controller/main.py:242-268 | over any run of heartbeats, registrations, new steps and step operations, no node holds more whisper or ffmpeg steps than its maxima while every report covers the steps its node holds and every registration allows for them |
| Capacity.PassFills | mediaorchard/controller/scheduler/policies.py:115-119 | a pass gives a node at most the waiting steps of a kind that it could take and at most what its counter leaves room for, and exactly the smaller of the two if no other node is online |
| Capacity.OverfullExactly | mediaorchard/controller/main.py:253-265 | by the tables before a heartbeat: a node alone online ends with the steps of a kind it held and the smaller of those waiting for it and the room its report leaves, so with more than its maximum exactly if that sum is more; with other nodes online, that sum being more is necessary |
| Capacity.OverfullWhenSaturated | mediaorchard/controller/main.py:253-265 | after a heartbeat that leaves a step queued because the node is full for its kind, whatever other nodes are online, the node holds more than its maximum exactly if it held more than the smaller of its report and its maximum before |
| Capacity.IdleReportsOverfill | mediaorchard/cli/runtime.py:296-307 | a concrete run of two heartbeats that report no jobs, after which a node with room for one whisper step holds two |
| Worker.Post | mediaorchard/cli/runtime.py:70-100 | a call raises exactly if it was not applied or its answer was lost; a step that had ended is left alone; an undisturbed call leaves exactly the tables the atomic handler leaves, and is applied exactly if that one accepts |
| Worker.AttemptStep | mediaorchard/cli/runtime.py:222-236 | at most one report takes effect; a completion has the runner's output, a failure its message or that of a call that raised; if no call raises, the report takes effect; an ended step is left alone |
| Worker.ExecuteClaimedStep | mediaorchard/cli/runtime.py:214-242 | over a clean link the step ends as the runner did: completed with its output, or failed with its message; whatever the transport loses and whatever runs meanwhile, at most one report takes effect, a completion stays, and an output becomes a failure only if a call raised |
| Worker.HeartbeatHandsOutAll | mediaorchard/controller/main.py:242-268 | a healthy heartbeat of the only online node leaves no step queued and no open step ended or unclaimable |
| Worker.Poll | mediaorchard/cli/runtime.py:197-202 | one turn of a healthy, only worker ends exactly the step it claims, as its runner did, or finds that none is open; ended steps stay |
| Worker.TurnsTaken | mediaorchard/cli/runtime.py:204-209 | one turn with poll_once, as many as the limit says but at least one, and every turn of its life without a limit |
| Worker.RunWorker | mediaorchard/cli/runtime.py:169-211 | such a worker, bounded or polling until it is stopped, registers as configured, claims as many different steps as it has turns, or all open ones, ends each of them as its runner did and never crashes; a limit below one still allows one turn |
| Priorities.ParseNodePriorities | mediaorchard/controller/scheduler/policies.py:48-67 | blank entries are skipped; either every other entry is well formed and the result has each key once, with the value of its last entry, in order of first appearance, or the error is that of the first malformed entry |
| Priorities.EntryMeans | mediaorchard/controller/scheduler/policies.py:57-66 | an entry is the name before the first equals sign and the integer after it; each of the three errors in its case |
| Priorities.PrintedAs | mediaorchard/controller/scheduler/policies.py:70-71 | a dictionary prints as key, equals sign and signed decimal value, joined by commas |
| Text.StripPadded | mediaorchard/controller/scheduler/policies.py:54-54 | stripping undoes any padding with blanks |
| Text.StripSplits | mediaorchard/controller/scheduler/policies.py:54-54 | stripping takes blanks off the two ends and nothing else |
| Text.SpacesAreInvisible | mediaorchard/controller/scheduler/policies.py:54-54 | the 29 code points that count as blank; no visible ASCII character does |
| Text.ParseIntReads | mediaorchard/controller/scheduler/policies.py:61-61 | any blanks, one sign or none, and a decimal numeral read as the signed number |
| Text.ParseIntRefuses | mediaorchard/controller/scheduler/policies.py:61-63 | a text without a digit, or with a character that is no digit, underscore, sign or blank, is no integer |
| Text.GroupsRead | mediaorchard/controller/scheduler/policies.py:61-61 | single underscores between groups of digits do not count, and an empty group is an error |
| Priorities.FormatParsesExactly | mediaorchard/controller/scheduler/policies.py:48-71 | a printed dictionary parses back to itself exactly if its keys are non-empty, trimmed, free of commas and equals signs, and its values not negative |
| Priorities.ParseFormatParse | mediaorchard/controller/scheduler/policies.py:48-71 | parsing, printing and parsing again gives the first result for every accepted text |
| Priorities.LauncherHandsOver | mediaorchard/cli/runtime.py:156-159 | the application reads from its environment the priorities the launcher was given, the empty dictionary included |
| Srt.ClockRecombines | mediaorchard/worker/real_media_smoke.py:33-38 | the timestamp fields are in range and add up to the milliseconds, at 3600000, 60000 and 1000 each |
| Srt.TimestampAs | mediaorchard/worker/real_media_smoke.py:33-38 | hours, minutes, seconds and milliseconds stand at their places in the timestamp |
| Srt.PadsAs | mediaorchard/worker/real_media_smoke.py:33-38 | the fields are decimal, padded with zeros to two and three places |
| Srt.PrintedExample | mediaorchard/worker/real_media_smoke.py:369-376 | a list of two cues as it stands in a file |
| Srt.TimestampReads | mediaorchard/worker/real_media_smoke.py:33-38 | a timestamp of any length reads back to its milliseconds |
| Srt.TimestampsSort | mediaorchard/worker/real_media_smoke.py:33-38 | below 100 hours timestamps sort as text exactly as their times do |
| Srt.SegmentsToSrt | mediaorchard/worker/real_media_smoke.py:369-376 | the segments as numbered chunks from 1, joined by line breaks |
| Srt.SrtIsInjective | mediaorchard/worker/real_media_smoke.py:369-376 | two lists of single-line segments print alike exactly if they agree in millisecond times and stripped texts |
| Srt.SrtRoundTrip | mediaorchard/worker/real_media_smoke.py:369-376 | a reader recovers the numbered segments with their times and stripped texts exactly if no stripped text spans several lines |

## Left out

- Worker.RunWorker: a worker without a limit is modelled up to any number of turns; being stopped in the middle of a turn and the sleep between turns are not.
- Lifecycle.Linearizability: which of several claimable steps claim-next selects is left open there, so it holds for any choice; `Controllers.Controller.ClaimNext` picks the one assigned first.
- Controllers.Controller.ClaimNext: the answer is the row of the commit instant; the program reads the row once more after its commit, as every lifecycle handler does.
- Controllers.Controller.StartStep: between its read and its commit only whole handlers run; overlapping commits are the subject of `Lifecycle`, overlapping roll-ups of `Rollup`.
- JobProgress.JobsFollowTheirSteps: needs handlers one at a time; what overlapping roll-ups keep of it is the subject of `Completion` and `Failure`.
- Failure.FailureIsLostExactly: for jobs of one step, as every handler creates them; with several steps a failure does not last even with handlers one at a time (`FailedUntilNextCompletion`).
- Capacity.OverfullExactly: where other nodes are online, it gives a bound and not the number, because the greedy pass then divides the steps by cost.
- Worker.Post: an answer that is not a JSON object raises in the program like any lost answer; requests that arrive after the worker gave up are part of what runs meanwhile.
- Worker.AttemptStep: reading a failure out of the runner's output dictionary, and rendering its message as text, are inputs of the model; one fixed text stands for the messages of calls that raise.
- Priorities.ParseNodePriorities: numerals are trimmed ASCII decimals with an optional sign; single underscores between digits are accepted; digits outside ASCII and the length limit of Python's `int` are not modelled.
- Srt.SegmentsToSrt: starts from milliseconds; rounding of floating-point seconds and negative times are not modelled.
- Floating-point rounding of costs and of progress.
- HTTP, authentication, JSON decoding, database and session internals; the node-id header and the epoch are request data.
- Concurrent heartbeats that interleave within their transactions.
- Path resolution: canonical paths and what they name are inputs of registration and job creation. Listing and reading endpoints.
- Building the output directory of a job, and the input columns its step carries.
- `updated_at` and the descriptive columns of jobs, plans, steps and nodes.
- Score components that are always zero, and reason texts of decisions.
- Job cancel and retry, PENDING, SKIPPED and CANCELLED beyond the transition table, and the recovery loop of `plan.md`: not implemented in the program.
- Tool execution, the media pipelines, preflight, bootstrap, redaction and the command line.
