/** The promises of the event server over whole runs. */
module AsyncTheorems {
  import opened Wrappers
  import opened AsyncServer
  import opened AsyncSafety

  ghost predicate Inv(s: State) {
    && Exclusive(s.jobs, s.running, s.dispatcher)
    && Registered(s) && Kept(s) && Honoured(s) && Counted(s)
  }

  lemma StepInv(s: State, a: Action)
    requires Inv(s) && Enabled(s, a)
    ensures Inv(Apply(s, a))
  {
    ExclusiveStep(s, a);
    RegisteredStep(s, a);
    KeptStep(s, a);
    HonouredStep(s, a);
    CountedStep(s, a);
  }

  lemma {:induction false} RunInv(ss: seq<State>, acts: seq<Action>, i: nat)
    requires Runs(ss, acts) && Init(ss[0]) && i <= |acts|
    ensures Inv(ss[i])
  {
    if i > 0 {
      RunInv(ss, acts, i - 1);
      StepInv(ss[i - 1], acts[i - 1]);
    }
  }

  lemma ReachableInv(s: State)
    requires Reachable(s)
    ensures Inv(s)
  {
    var ss, acts :| Runs(ss, acts) && Init(ss[0]) && ss[|acts|] == s;
    RunInv(ss, acts, |acts|);
  }

  // ----- one run per key

  ghost function KeysOf(jobs: Jobs, ids: set<nat>): set<Key>
    requires ids <= jobs.Keys
  {
    set i | i in ids :: jobs[i].key
  }

  lemma {:induction false} KeysCount(jobs: Jobs, ids: set<nat>)
    requires ids <= jobs.Keys
    requires forall i, j | i in ids && j in ids && i != j :: jobs[i].key != jobs[j].key
    ensures |KeysOf(jobs, ids)| == |ids|
  {
    if i :| i in ids {
      KeysCount(jobs, ids - {i});
      assert KeysOf(jobs, ids) == KeysOf(jobs, ids - {i}) + {jobs[i].key};
    }
  }

  /**
   In every interleaving a key has at most one run queued or executing, it is marked as
   running exactly when it has one or the dispatcher is about to submit one, and there are
   never more runs in flight than registered events.
   */
  lemma OneRunPerKey(s: State)
    requires Reachable(s)
    ensures forall i, j | i in s.jobs && j in s.jobs && s.jobs[i].key == s.jobs[j].key :: i == j
    ensures forall k :: k in s.running <==> HasJob(s.jobs, k) || Claimed(s.dispatcher) == Some(k)
    ensures |s.jobs| <= |s.dispatch|
  {
    ReachableInv(s);
    KeysCount(s.jobs, s.jobs.Keys);
    SubsetCardinality(KeysOf(s.jobs, s.jobs.Keys), s.dispatch.Keys);
  }

  // ----- no more runs than threads

  lemma WorkingStep(s: State, a: Action)
    requires Enabled(s, a) && |WorkingIds(s.jobs)| <= s.workers
    ensures |WorkingIds(Apply(s, a).jobs)| <= Apply(s, a).workers
  {
    var before, after := WorkingIds(s.jobs), WorkingIds(Apply(s, a).jobs);
    if a.WorkerStep? && s.jobs[a.id].phase.Queued? {
      assert after <= before + {a.id};
      SubsetCardinality(after, before + {a.id});
    } else {
      assert after <= before;
      SubsetCardinality(after, before);
    }
  }

  /** The pool never works on more runs than it has threads. */
  lemma {:induction false} WithinPool(ss: seq<State>, acts: seq<Action>, i: nat)
    requires Runs(ss, acts) && Init(ss[0]) && i <= |acts|
    ensures |WorkingIds(ss[i].jobs)| <= ss[i].workers
  {
    if i > 0 {
      WithinPool(ss, acts, i - 1);
      WorkingStep(ss[i - 1], acts[i - 1]);
    } else {
      assert WorkingIds(ss[0].jobs) == {};
    }
  }

  lemma LaterRun(s: State, a: Action, x: nat, y: nat)
    requires Enabled(s, a) && x in s.jobs && y !in s.jobs && y in Apply(s, a).jobs
    ensures x < y
  {
  }

  /** Runs are taken up in the order in which they were submitted. */
  lemma ServedInOrder(ss: seq<State>, acts: seq<Action>, m: nat, j: nat, x: nat, y: nat)
    requires Runs(ss, acts) && m < j < |acts| && x in ss[m].jobs && y !in ss[m].jobs && y in ss[m + 1].jobs
    requires x in ss[j].jobs && ss[j].jobs[x].phase.Queued? && acts[j].WorkerStep? && acts[j].id == y
    ensures !ss[j].jobs[y].phase.Queued?
  {
    LaterRun(ss[m], acts[m], x, y);
  }

  // ----- no pending event is dropped

  /** The step that records the end of a finished run of `k`. */
  ghost predicate Finishes(s: State, a: Action, k: Key) {
    a.WorkerStep? && a.id in s.jobs && s.jobs[a.id].phase.FinishedRemoving? && s.jobs[a.id].key == k
  }

  lemma {:induction false} PendingStays(ss: seq<State>, acts: seq<Action>, i: nat, j: nat, k: Key)
    requires Runs(ss, acts) && i <= j <= |acts| && k in ss[i].pending
    requires forall m | i <= m < j :: !Finishes(ss[m], acts[m], k)
    ensures k in ss[j].pending
    decreases j - i
  {
    if i < j {
      PendingStays(ss, acts, i, j - 1, k);
    }
  }

  /**
   From the moment a key is scheduled until a finished run of it is recorded, it is scheduled
   or running in every state.
   */
  lemma KeptUntilErased(ss: seq<State>, acts: seq<Action>, i: nat, j: nat, k: Key)
    requires Runs(ss, acts) && Init(ss[0]) && i <= j <= |acts| && k in ss[i].retry
    requires forall m | i <= m < j :: !Finishes(ss[m], acts[m], k)
    ensures k in ss[j].retry || k in ss[j].running
  {
    RunInv(ss, acts, i);
    RunInv(ss, acts, j);
    PendingStays(ss, acts, i, j, k);
  }

  // ----- when a schedule is honoured by a fresh run

  /** The step in which a call puts `k` up for running. */
  ghost predicate Inserts(s: State, a: Action, k: Key) {
    && a.ClientStep? && a.id in s.clients && s.clients[a.id].key == k
    && (s.clients[a.id].call.ScheduleInserting? || s.clients[a.id].call.RegisterInserting?)
  }

  /** The step in which a worker takes up a queued run of `k`. */
  ghost predicate Starts(s: State, a: Action, k: Key) {
    a.WorkerStep? && a.id in s.jobs && s.jobs[a.id].phase.Queued? && s.jobs[a.id].key == k
  }

  /** Taking it up, the worker gets its connection and calls the event. */
  ghost predicate Calls(s: State, a: Action, k: Key) {
    Starts(s, a, k) && !a.outcome.Panics?
  }

  lemma {:induction false} OwedStays(ss: seq<State>, acts: seq<Action>, i: nat, j: nat, k: Key)
    requires Runs(ss, acts) && i <= j <= |acts| && k in ss[i].owed
    requires forall m | i <= m < j :: !Starts(ss[m], acts[m], k)
    ensures k in ss[j].owed
    decreases j - i
  {
    if i < j {
      OwedStays(ss, acts, i, j - 1, k);
    }
  }

  /**
   A key that is put up for running while no run of it may erase the entry stays scheduled, or
   on its way to a worker, until a new run of it starts.
   */
  lemma InsertLeadsToRun(ss: seq<State>, acts: seq<Action>, i: nat, j: nat, k: Key)
    requires Runs(ss, acts) && Init(ss[0]) && i < j <= |acts|
    requires Inserts(ss[i], acts[i], k) && !MayErase(ss[i].jobs, k)
    requires forall m | i < m < j :: !Starts(ss[m], acts[m], k)
    ensures k in ss[j].retry || Claimed(ss[j].dispatcher) == Some(k) || HasQueued(ss[j].jobs, k)
  {
    assert k in ss[i + 1].owed;
    OwedStays(ss, acts, i + 1, j, k);
    RunInv(ss, acts, j);
  }

  // ----- a key whose run has panicked

  lemma DeadStep(s: State, a: Action, id: nat)
    requires Enabled(s, a) && id in s.jobs && Dead(s.jobs[id].phase)
    ensures id in Apply(s, a).jobs && Apply(s, a).jobs[id] == s.jobs[id]
  {
  }

  lemma {:induction false} DeadStays(ss: seq<State>, acts: seq<Action>, i: nat, j: nat, id: nat)
    requires Runs(ss, acts) && i <= j <= |acts| && id in ss[i].jobs && Dead(ss[i].jobs[id].phase)
    ensures id in ss[j].jobs && ss[j].jobs[id] == ss[i].jobs[id]
    decreases j - i
  {
    if i < j {
      DeadStays(ss, acts, i, j - 1, id);
      DeadStep(ss[j - 1], acts[j - 1], id);
    }
  }

  /**
   The key of a worker that has panicked stays marked as running for ever, so no run of it
   ever starts again.  A worker that panicked when drawing had 64 failures in a row.
   */
  lemma PanickedForever(ss: seq<State>, acts: seq<Action>, i: nat, j: nat, id: nat)
    requires Runs(ss, acts) && Init(ss[0]) && i <= j < |acts|
    requires id in ss[i].jobs && Dead(ss[i].jobs[id].phase)
    ensures ss[i].jobs[id].phase.Panicked? ==> FailuresSince(ss[i].outcomes, ss[i].jobs[id].key) >= 64
    ensures ss[i].jobs[id].key in ss[j].running && !Starts(ss[j], acts[j], ss[i].jobs[id].key)
  {
    RunInv(ss, acts, i);
    RunInv(ss, acts, j);
    DeadStays(ss, acts, i, j, id);
    assert PhaseMatches(ss[i].jobs[id], ss[i].outcomes);
  }
}
