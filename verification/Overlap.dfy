/**
  Overlapping roll-ups. A roll-up that loaded the job before another one gave it a status can store its own, older
  verdict afterwards. Which stores take a status away, and which bring it back, can be read off the tables before
  the store; and over a whole run they decide whether a status that was due is missing at the end.
 */
module Overlap {
  import opened StateMachine
  import opened Lifecycle
  import opened Rollup

  predicate Says(w: World, job: JobId, status: JobStatus) {
    job in w.jobs && w.jobs[job].status == status
  }

  /** The action stores what a roll-up of the job computed, and that is a status other than the one it loaded. */
  predicate StoresChange(w: World, a: WorldAction, job: JobId) {
    && a.StoreJob? && a.ticket in w.due && w.due[a.ticket].Computed? && w.due[a.ticket].job == job
    && w.due[a.ticket].next.status != w.due[a.ticket].seen.status
  }

  /** A store of another status over the one the job has. */
  predicate Undoes(w: World, a: WorldAction, job: JobId, status: JobStatus) {
    Says(w, job, status) && StoresChange(w, a, job) && w.due[a.ticket].next.status != status
  }

  /** A store of the status. */
  predicate Restores(w: World, a: WorldAction, job: JobId, status: JobStatus) {
    StoresChange(w, a, job) && w.due[a.ticket].next.status == status
  }

  /** No roll-up of the job is under way or due. */
  predicate Quiet(w: World, job: JobId) {
    forall t | t in w.due :: w.due[t].job != job
  }

  /** Nothing but an undoing store takes a status away, and every such store does. */
  lemma OnlyStoresUndo(w: World, a: WorldAction, job: JobId, status: JobStatus)
    requires Says(w, job, status)
    ensures job in WorldNext(w, a).jobs
    ensures Says(WorldNext(w, a), job, status) <==> !Undoes(w, a, job, status)
  {
    hide StepsOf, DoneOf, RowNext, Takes, Tallied;
  }

  /** Nothing but a restoring store gives a known job a status it does not have, and every such store does. */
  lemma OnlyStoresRestore(w: World, a: WorldAction, job: JobId, status: JobStatus)
    requires job in w.jobs && !Says(w, job, status)
    ensures job in WorldNext(w, a).jobs
    ensures Says(WorldNext(w, a), job, status) <==> Restores(w, a, job, status)
  {
    hide StepsOf, DoneOf, RowNext, Takes, Tallied;
  }

  // ---------------------------------------------------------------- over whole runs

  function Before(actions: seq<WorldAction>, n: nat): World
    requires n <= |actions|
  {
    WorldRun(EMPTY, actions[..n])
  }

  predicate NeverUndone(actions: seq<WorldAction>, job: JobId, status: JobStatus) {
    forall i | 0 <= i < |actions| :: !Undoes(Before(actions, i), actions[i], job, status)
  }

  /** Action i takes the status away, and no later action restores it. */
  predicate LostAt(actions: seq<WorldAction>, i: nat, job: JobId, status: JobStatus) {
    && i < |actions| && Undoes(Before(actions, i), actions[i], job, status)
    && forall j | i < j < |actions| :: !Restores(Before(actions, j), actions[j], job, status)
  }

  lemma PrefixRuns(actions: seq<WorldAction>, n: nat)
    requires n <= |actions|
    ensures forall j | 0 <= j <= n :: Before(actions[..n], j) == Before(actions, j)
    ensures forall j | 0 <= j < n :: actions[..n][j] == actions[j]
  {
    hide WorldRun;
    forall j | 0 <= j <= n ensures Before(actions[..n], j) == Before(actions, j) {
      assert actions[..n][..j] == actions[..j];
    }
  }

  lemma NextRun(actions: seq<WorldAction>, n: nat)
    requires n < |actions|
    ensures Before(actions, n + 1) == WorldNext(Before(actions, n), actions[n])
  {
    assert actions[..n + 1][..n] == actions[..n];
  }

  lemma PrefixNeverUndone(actions: seq<WorldAction>, n: nat, job: JobId, status: JobStatus)
    requires n <= |actions| && NeverUndone(actions, job, status)
    ensures NeverUndone(actions[..n], job, status)
  {
    hide Undoes, WorldRun, Before;
    PrefixRuns(actions, n);
    forall i | 0 <= i < n ensures !Undoes(Before(actions[..n], i), actions[..n][i], job, status) {
      assert !Undoes(Before(actions, i), actions[i], job, status);
    }
  }

  lemma {:induction false} LostStaysLost(actions: seq<WorldAction>, i: nat, n: nat, job: JobId, status: JobStatus)
    requires LostAt(actions, i, job, status) && i < n <= |actions|
    ensures job in Before(actions, n).jobs && !Says(Before(actions, n), job, status)
  {
    hide Undoes, Restores, WorldNext, Before;
    NextRun(actions, n - 1);
    if n == i + 1 {
      UndoneSays(Before(actions, i), actions[i], job, status);
      OnlyStoresUndo(Before(actions, i), actions[i], job, status);
    } else {
      LostStaysLost(actions, i, n - 1, job, status);
      OnlyStoresRestore(Before(actions, n - 1), actions[n - 1], job, status);
    }
  }

  lemma UndoneSays(w: World, a: WorldAction, job: JobId, status: JobStatus)
    requires Undoes(w, a, job, status)
    ensures Says(w, job, status)
  {
  }

  lemma {:induction false} LastUndoing(actions: seq<WorldAction>, k: nat, job: JobId, status: JobStatus) returns (i: nat)
    requires k < |actions| && Undoes(Before(actions, k), actions[k], job, status)
    requires !Says(Before(actions, |actions|), job, status)
    ensures LostAt(actions, i, job, status)
    decreases |actions|
  {
    hide Undoes, Restores, WorldNext, WorldRun, Says, Before;
    var last := |actions| - 1;
    NextRun(actions, last);
    if Says(Before(actions, last), job, status) {
      OnlyStoresUndo(Before(actions, last), actions[last], job, status);
      i := last;
    } else {
      UndoneSays(Before(actions, k), actions[k], job, status);
      PrefixRuns(actions, last);
      i := LastUndoing(actions[..last], k, job, status);
      LostStaysLost(actions[..last], i, last, job, status);
      OnlyStoresRestore(Before(actions, last), actions[last], job, status);
    }
  }

  /**
    For a status that a run ends with unless some store takes it away: it is missing at the end if and only if some
    store took it away and no later store restored it.
   */
  lemma LostExactly(actions: seq<WorldAction>, job: JobId, status: JobStatus)
    requires NeverUndone(actions, job, status) ==> Says(WorldRun(EMPTY, actions), job, status)
    ensures !Says(WorldRun(EMPTY, actions), job, status) <==> exists i :: LostAt(actions, i, job, status)
  {
    hide Undoes, WorldRun, LostAt;
    assert actions[..|actions|] == actions;
    assert Before(actions, |actions|) == WorldRun(EMPTY, actions);
    if !Says(WorldRun(EMPTY, actions), job, status) {
      var k :| 0 <= k < |actions| && Undoes(Before(actions, k), actions[k], job, status);
      var i := LastUndoing(actions, k, job, status);
      assert LostAt(actions, i, job, status);
    }
    if i: nat :| LostAt(actions, i, job, status) {
      LostWithin(actions, i, job, status);
      LostStaysLost(actions, i, |actions|, job, status);
    }
  }

  lemma LostWithin(actions: seq<WorldAction>, i: nat, job: JobId, status: JobStatus)
    requires LostAt(actions, i, job, status)
    ensures i < |actions|
  {
  }

  lemma DueJobsExist(w: World)
    requires Truthful(w)
    ensures forall t | t in w.due :: w.due[t].job in w.jobs
  {
  }

  // ---------------------------------------------------------------- building runs

  lemma Then(actions: seq<WorldAction>, w: World, a: WorldAction) returns (more: seq<WorldAction>, next: World)
    requires w == WorldRun(EMPTY, actions)
    ensures more == actions + [a] && next == WorldNext(w, a) == WorldRun(EMPTY, more)
  {
    more, next := actions + [a], WorldNext(w, a);
    assert more[..|more| - 1] == actions;
  }

  lemma EmptyRun()
    ensures WorldRun(EMPTY, []) == EMPTY
  {
  }
}
