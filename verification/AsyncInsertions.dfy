/** When a key that is put up for running stays so, and can run. */
module AsyncInsertions {
  import opened Wrappers
  import opened AsyncServer
  import opened AsyncSafety
  import opened AsyncTheorems
  import opened AsyncLocks
  import opened AsyncRuns
  import opened AsyncProgress

  /** The key is scheduled, or its event is on the way to the pool or queued there. */
  ghost predicate OnItsWay(s: State, k: Key) {
    k in s.retry || Claimed(s.dispatcher) == Some(k) || HasQueued(s.jobs, k)
  }

  /** However the run goes on, nothing erases `k` before a run of it is taken up. */
  ghost predicate NeverErased(s: State, k: Key) {
    forall t | Leads(s, t, Sparing(k)) :: OnItsWay(t, k)
  }

  lemma {:induction false} OwedRoute(ss: seq<State>, acts: seq<Action>, i: nat, k: Key)
    requires Runs(ss, acts) && i <= |acts| && k in ss[0].owed
    requires forall m | 0 <= m < |acts| :: Fits(ss[m], acts[m], Sparing(k))
    ensures k in ss[i].owed
  {
    forall m | 0 <= m < i
      ensures !Starts(ss[m], acts[m], k)
    {
      assert Fits(ss[m], acts[m], Sparing(k)) && k in Sparing(k).quiet;
    }
    OwedStays(ss, acts, 0, i, k);
  }

  lemma OwedOnItsWay(s: State, t: State, k: Key)
    requires Sound(s) && k in s.owed && Leads(s, t, Sparing(k))
    ensures OnItsWay(t, k) && k in t.owed
  {
    var ss, acts :| Route(ss, acts, s, t, Sparing(k));
    OwedRoute(ss, acts, |acts|, k);
    LeadsSound(s, t, Sparing(k));
  }

  // ----- an insertion that is erased

  /** If another worker holds the failure counts it can let go of them. */
  lemma MakeWay(s: State, id: nat, how: Manner) returns (t: State)
    requires Exclusion(s) && id in s.jobs && Free(s, Worker(id), {RetryLock})
    ensures Leads(s, t, how) && Free(t, Worker(id), {RetryLock, FailureLock}) && t.stop == s.stop
    ensures id in t.jobs && t.jobs[id] == s.jobs[id]
  {
    t := s;
    LeadsSelf(s, how);
    if !Free(s, Worker(id), {RetryLock, FailureLock}) {
      var u, x :| Alive(s, u) && u != Worker(id) && x in StandOf(s, u).holds && x.lock == FailureLock;
      HoldsFailures(s, u, x);
      var a := WorkerStep(u.id, Finished, 0);
      LeadsStep(s, a, how);
      t := Apply(s, a);
      WayMade(s, id, u.id);
    }
  }

  lemma HoldsFailures(s: State, u: Thread, x: Access)
    requires Alive(s, u) && x in StandOf(s, u).holds && x.lock == FailureLock
    requires forall a | a in StandOf(s, u).holds :: a.lock != RetryLock
    ensures u.Worker? && s.jobs[u.id].phase.FailedCounting? && x == Write(FailureLock)
  {
  }

  lemma WayMade(s: State, id: nat, other: nat)
    requires Exclusion(s) && id in s.jobs && other in s.jobs && other != id
    requires Free(s, Worker(id), {RetryLock}) && s.jobs[other].phase.FailedCounting?
    ensures
      var a := WorkerStep(other, Finished, 0);
      Enabled(s, a) && Free(Apply(s, a), Worker(id), {RetryLock, FailureLock})
  {
    var a := WorkerStep(other, Finished, 0);
    var t := Apply(s, a);
    forall u, x | Alive(t, u) && u != Worker(id) && x in StandOf(t, u).holds
      ensures x.lock != RetryLock && x.lock != FailureLock
    {
      StepStands(s, a, u);
      assert u != Worker(other) && Alive(s, u);
      assert !Clash(x, Write(FailureLock)) by {
        assert Write(FailureLock) in StandOf(s, Worker(other)).holds;
      }
    }
  }

  /** The inserting call has the retry map to itself, and leaves it. */
  lemma InserterAlone(s: State, a: Action, k: Key, id: nat)
    requires Exclusion(s) && Enabled(s, a) && Inserts(s, a, k) && id in s.jobs && Erasing(s.jobs[id].phase)
    ensures Apply(s, a).jobs == s.jobs && Free(Apply(s, a), Worker(id), {RetryLock})
    ensures s.jobs[id].phase.Executing? || s.jobs[id].phase.FinishedWantRetry?
  {
    var w, t := Write(RetryLock), Apply(s, a);
    assert w in StandOf(s, Caller(a.id)).holds;
    if w in StandOf(s, Worker(id)).holds {
      assert Clash(w, w);
    }
    forall u, x | Alive(t, u) && x in StandOf(t, u).holds
      ensures x.lock != RetryLock
    {
      StepStands(s, a, u);
      assert Alive(s, u) && u != Caller(a.id);
      assert !Clash(x, w);
    }
  }

  /** Nothing of `k` starts, and the dispatcher is prompt. */
  function Quietly(k: Key): Manner {
    Manner({k}, true)
  }

  /** An insertion while a run of the key may still finish can be erased, and no new run starts. */
  lemma InsertionErased(s: State, a: Action, k: Key) returns (t: State)
    requires Sound(s) && Enabled(s, a) && Inserts(s, a, k) && MayErase(s.jobs, k)
    ensures Leads(Apply(s, a), t, Quietly(k)) && !OnItsWay(t, k) && t.stop == s.stop
  {
    var id :| id in s.jobs && s.jobs[id].key == k && Erasing(s.jobs[id].phase);
    InserterAlone(s, a, k, id);
    SoundStep(s, a);
    var b := Apply(s, a);
    assert b.stop == s.stop;
    var n := MakeWay(b, id, Quietly(k));
    t := EraseRun(n, id, Quietly(k));
    LeadsTrans(b, n, t, Quietly(k));
    LeadsSound(b, t, Quietly(k));
    LeavingNotOnItsWay(t, id);
  }

  lemma LeavingNotOnItsWay(t: State, id: nat)
    requires Sound(t) && id in t.jobs && t.jobs[id].phase.WantLeave? && t.jobs[id].key !in t.retry
    ensures !OnItsWay(t, t.jobs[id].key)
  {
  }

  /**
   A key that is put up for running is, on every continuation, not erased before the next run
   of it is taken up, if and only if no run of it is under way that may still finish.
   */
  lemma InsertKeptIff(s: State, a: Action, k: Key)
    requires Reachable(s) && Enabled(s, a) && Inserts(s, a, k)
    ensures NeverErased(Apply(s, a), k) <==> !MayErase(s.jobs, k)
  {
    ReachableSound(s);
    SoundStep(s, a);
    if MayErase(s.jobs, k) {
      var t := InsertionErased(s, a, k);
      Loosen(Apply(s, a), t, Quietly(k));
      assert Quietly(k).(prompt := false) == Sparing(k);
    } else {
      assert k in Apply(s, a).owed;
      forall t | Leads(Apply(s, a), t, Sparing(k))
        ensures OnItsWay(t, k)
      {
        OwedOnItsWay(Apply(s, a), t, k);
      }
    }
  }

  // ----- an insertion that can always still lead to a run

  /** A run of an owed key that is not taken up does not become hopeless. */
  lemma HopefulStep(s: State, a: Action, k: Key)
    requires Inv(s) && Enabled(s, a) && k in s.owed && !Hopeless(s, k) && !Starts(s, a, k)
    ensures !Hopeless(Apply(s, a), k)
  {
    var t := Apply(s, a);
    forall i | i in t.jobs && t.jobs[i].key == k
      ensures !Doomed(t.jobs[i].phase, FailureCount(t.failures, k))
    {
      if a.WorkerStep? {
        HopefulWorker(s, a, k, i);
      } else if i in s.jobs {
        assert t.jobs[i] == s.jobs[i] && t.failures == s.failures;
        assert !Doomed(s.jobs[i].phase, FailureCount(s.failures, k));
      }
    }
  }

  lemma HopefulWorker(s: State, a: Action, k: Key, i: nat)
    requires Exclusive(s.jobs, s.running, s.dispatcher) && !MayErase(s.jobs, k) && !Hopeless(s, k)
    requires a.WorkerStep? && Enabled(s, a) && !Starts(s, a, k)
    requires i in Apply(s, a).jobs && Apply(s, a).jobs[i].key == k
    ensures !Doomed(Apply(s, a).jobs[i].phase, FailureCount(Apply(s, a).failures, k))
  {
    assert i in s.jobs && s.jobs[i].key == k;
    assert !Doomed(s.jobs[i].phase, FailureCount(s.failures, k));
    if i == a.id {
      assert !Erasing(s.jobs[i].phase);
    } else {
      assert s.jobs[a.id].key != k;
    }
  }

  lemma {:induction false} HopefulRoute(ss: seq<State>, acts: seq<Action>, i: nat, k: Key)
    requires Runs(ss, acts) && Sound(ss[0]) && i <= |acts| && k in ss[0].owed && !Hopeless(ss[0], k)
    requires forall m | 0 <= m < |acts| :: Fits(ss[m], acts[m], Sparing(k))
    ensures !Hopeless(ss[i], k)
  {
    if i > 0 {
      HopefulRoute(ss, acts, i - 1, k);
      OwedRoute(ss, acts, i - 1, k);
      RunSound(ss, acts, i - 1);
      assert Fits(ss[i - 1], acts[i - 1], Sparing(k)) && k in Sparing(k).quiet;
      HopefulStep(ss[i - 1], acts[i - 1], k);
    }
  }

  lemma {:induction false} ExitedRoute(ss: seq<State>, acts: seq<Action>, i: nat)
    requires Runs(ss, acts) && i <= |acts| && (ss[0].dispatcher.Exited? ==> ss[0].stop)
    ensures ss[i].dispatcher.Exited? ==> ss[i].stop
  {
    if i > 0 {
      ExitedRoute(ss, acts, i - 1);
    }
  }

  /** However the run goes on, short of a stop, `k` is on its way and a run of it can still be reached. */
  ghost predicate Assured(s: State, k: Key) {
    forall t | Leads(s, t, Sparing(k)) && !t.stop :: OnItsWay(t, k) && CanStart(t, k)
  }

  lemma AssuredByOwing(s: State, t: State, k: Key)
    requires Reachable(s) && k in s.owed && !Hopeless(s, k) && !s.dispatcher.Exited?
    requires Leads(s, t, Sparing(k)) && !t.stop
    ensures OnItsWay(t, k) && CanStart(t, k)
  {
    ReachableSound(s);
    OwedOnItsWay(s, t, k);
    var ss, acts :| Route(ss, acts, s, t, Sparing(k));
    HopefulRoute(ss, acts, |acts|, k);
    ExitedRoute(ss, acts, |acts|);
    LeadsSound(s, t, Sparing(k));
    OnItsWayRegistered(t, k);
    ReachableLeads(s, t, Sparing(k));
    CanStartIff(t, k);
  }

  lemma OnItsWayRegistered(s: State, k: Key)
    requires Sound(s) && OnItsWay(s, k)
    ensures k in s.dispatch
  {
    if Claimed(s.dispatcher) == Some(k) {
      assert (s.dispatcher.key, s.dispatcher.event) in Held(s.dispatcher);
    }
  }

  lemma InsertionKeeps(s: State, a: Action, k: Key)
    requires Enabled(s, a) && Inserts(s, a, k)
    ensures
      var t := Apply(s, a);
      && t.jobs == s.jobs && t.failures == s.failures && t.dispatcher == s.dispatcher && t.stop == s.stop
      && (!MayErase(s.jobs, k) ==> k in t.owed) && (Hopeless(t, k) <==> Hopeless(s, k))
  {
  }

  /**
   A key that is put up for running stays so until a run of it is taken up, and a run of it can
   be reached all along, on every continuation short of a stop, if and only if no run of it is
   under way that may still finish, has panicked or is bound to.
   */
  lemma InsertAssuredIff(s: State, a: Action, k: Key)
    requires Reachable(s) && Enabled(s, a) && Inserts(s, a, k) && !s.stop && !s.dispatcher.Exited?
    ensures Assured(Apply(s, a), k) <==> !MayErase(s.jobs, k) && !Hopeless(s, k)
  {
    var b := Apply(s, a);
    ReachableSound(s);
    SoundStep(s, a);
    LeadsStep(s, a, FREELY);
    ReachableLeads(s, b, FREELY);
    InsertionKeeps(s, a, k);
    if MayErase(s.jobs, k) {
      var t := InsertionErased(s, a, k);
      Loosen(b, t, Quietly(k));
      assert Quietly(k).(prompt := false) == Sparing(k);
    } else if Hopeless(s, k) {
      LeadsSelf(b, Sparing(k));
      NeverCalled(b, k);
    } else {
      forall t | Leads(b, t, Sparing(k)) && !t.stop
        ensures OnItsWay(t, k) && CanStart(t, k)
      {
        AssuredByOwing(b, t, k);
      }
    }
  }

  lemma NeverCalled(s: State, k: Key)
    requires Sound(s) && Hopeless(s, k)
    ensures !CanStart(s, k)
  {
    forall t, a | Leads(s, t, PROMPTLY) && Enabled(t, a)
      ensures !Calls(t, a, k)
    {
      HopelessForever(s, t, PROMPTLY, a, k);
    }
  }

  // ----- a schedule that is lost

  lemma InitSound(s: State)
    requires Init(s)
    ensures Sound(s) && Calm(s) && Reachable(s)
  {
    assert Runs([s], []);
    RunInv([s], [], 0);
  }

  /** From the start, a key can be registered, handed out and started. */
  lemma FirstRun(s: State, k: Key, f: Callback) returns (t: State)
    requires Init(s)
    ensures Leads(s, t, PROMPTLY) && Calm(t) && t.clients == map[] && t.clock == s.clock && !t.stop
    ensures k in t.dispatch && t.retry == map[] && t.dispatcher == Loop([]) && t.workers == s.workers
    ensures t.jobs.Keys == {0} && t.jobs[0].key == k && t.jobs[0].phase == Executing
    ensures t.failures == map[] && t.outcomes == []
  {
    var b := FirstRegistration(s, k, f);
    t := HandOutAndStart(b, k, PROMPTLY);
    assert t.retry.Keys == {};
    LeadsTrans(s, b, t, PROMPTLY);
  }

  lemma FirstRegistration(s: State, k: Key, f: Callback) returns (t: State)
    requires Init(s)
    ensures Leads(s, t, PROMPTLY) && Calm(t) && t.clients == map[] && t.clock == s.clock && !t.stop
    ensures t.retry.Keys == {k} && DueKeys(t) == {k} && t.dispatcher == Idle && t.workers == s.workers
    ensures t.jobs == map[] && t.running == {} && t.failures == map[] && t.outcomes == [] && k in t.dispatch
  {
    InitSound(s);
    var a := NewCall(s, Register(0, k, f), PROMPTLY);
    t := Insertion(a, 0, PROMPTLY);
    LeadsTrans(s, a, t, PROMPTLY);
    LeadsSound(s, t, PROMPTLY);
    assert k in t.retry;
  }

  /** A run in which a `schedule` of `k` takes effect, and no run of `k` is taken up afterwards. */
  ghost predicate Lost(ss: seq<State>, acts: seq<Action>, i: nat, k: Key) {
    && Runs(ss, acts) && Init(ss[0]) && i < |acts| && (forall m | 0 <= m < |acts| :: Prompt(ss[m], acts[m]))
    && Inserts(ss[i], acts[i], k) && ss[i].clients[acts[i].id].call.ScheduleInserting?
    && (forall m | i < m < |acts| :: !Starts(ss[m], acts[m], k))
    && !OnItsWay(ss[|acts|], k)
  }

  /** Every key can lose a schedule: registered, started, scheduled, finished. */
  lemma ScheduleLost(s: State, k: Key, f: Callback) returns (ss: seq<State>, acts: seq<Action>, i: nat)
    requires Init(s)
    ensures ss != [] && ss[0] == s && Lost(ss, acts, i, k)
  {
    var a := FirstRun(s, k, f);
    var b := NewCall(a, Schedule(0, k), PROMPTLY);
    LeadsTrans(s, a, b, PROMPTLY);
    InitSound(s);
    LeadsSound(s, b, PROMPTLY);
    var c := Insertion(b, 0, PROMPTLY);
    assert b.jobs[0].key == k && Erasing(b.jobs[0].phase);
    var t := InsertionErased(b, ClientStep(0), k);
    ss, acts, i := Spliced(s, b, ClientStep(0), t, k);
  }

  lemma Spliced(s: State, b: State, a: Action, t: State, k: Key) returns (ss: seq<State>, acts: seq<Action>, i: nat)
    requires Leads(s, b, PROMPTLY) && Enabled(b, a) && a.ClientStep? && Leads(Apply(b, a), t, Quietly(k))
    ensures Runs(ss, acts) && i < |acts| && ss[0] == s && ss[i] == b && acts[i] == a && ss[|acts|] == t
    ensures forall m | 0 <= m < |acts| :: Prompt(ss[m], acts[m])
    ensures forall m | i < m < |acts| :: !Starts(ss[m], acts[m], k)
  {
    var xs, xa :| Route(xs, xa, s, b, PROMPTLY);
    var zs, za :| Route(zs, za, Apply(b, a), t, Quietly(k));
    ss, acts := SplicedRuns(xs, xa, b, a, zs, za);
    i := |xa|;
    assert ss[i + 1 + |za|] == zs[|za|];
    forall m | 0 <= m < |acts|
      ensures Prompt(ss[m], acts[m]) && (m > i ==> !Starts(ss[m], acts[m], k))
    {
      if m < i {
        assert ss[m] == xs[m] && acts[m] == xa[m] && Fits(xs[m], xa[m], PROMPTLY);
      } else if m > i {
        var j := m - i - 1;
        assert ss[i + 1 + j] == zs[j] && acts[i + 1 + j] == za[j];
        assert Fits(zs[j], za[j], Quietly(k)) && k in Quietly(k).quiet;
      }
    }
  }

  lemma SplicedRuns(xs: seq<State>, xa: seq<Action>, b: State, a: Action, zs: seq<State>, za: seq<Action>)
    returns (ss: seq<State>, acts: seq<Action>)
    requires Runs(xs, xa) && xs[|xa|] == b && Enabled(b, a) && Runs(zs, za) && zs[0] == Apply(b, a)
    ensures Runs(ss, acts) && |acts| == |xa| + 1 + |za| && ss[|xa|] == b && acts[|xa|] == a
    ensures forall m | 0 <= m < |xa| :: ss[m] == xs[m] && acts[m] == xa[m]
    ensures forall m | 0 <= m <= |za| :: ss[|xa| + 1 + m] == zs[m]
    ensures forall m | 0 <= m < |za| :: acts[|xa| + 1 + m] == za[m]
  {
    var ys, ya := [b] + zs, [a] + za;
    FirstStep(b, a, zs, za);
    JoinRuns(xs, xa, ys, ya);
    ss, acts := xs + ys[1..], xa + ya;
    assert ys[1..] == zs;
  }
}
