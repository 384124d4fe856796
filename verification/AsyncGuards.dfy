/** Every shared collection is only touched under its lock, so there are no data races. */
module AsyncGuards {
  import opened Wrappers
  import opened AsyncServer
  import opened AsyncLocks
  import opened AsyncRuns

  /** The thread that takes the step holds the access. */
  ghost predicate ActorHolds(s: State, a: Action, x: Access) {
    Actor(a).Some? && Alive(s, Actor(a).value) && x in StandOf(s, Actor(a).value).holds
  }

  /** A collection is changed only by a thread that holds its lock for writing. */
  lemma WritesGuarded(s: State, a: Action)
    requires Enabled(s, a)
    ensures Apply(s, a).dispatch != s.dispatch ==> ActorHolds(s, a, Write(DispatchLock))
    ensures Apply(s, a).retry != s.retry ==> ActorHolds(s, a, Write(RetryLock))
    ensures Apply(s, a).running != s.running ==> ActorHolds(s, a, Write(RunningLock))
    ensures Apply(s, a).failures != s.failures ==> ActorHolds(s, a, Write(FailureLock))
  {
  }

  /** While a thread holds a lock, for reading or writing, nobody else changes what it guards. */
  lemma NoDataRace(s: State, a: Action, u: Thread, x: Access)
    requires Reachable(s) && Enabled(s, a) && Alive(s, u) && x in StandOf(s, u).holds && Actor(a) != Some(u)
    ensures x.lock.DispatchLock? ==> Apply(s, a).dispatch == s.dispatch
    ensures x.lock.RetryLock? ==> Apply(s, a).retry == s.retry
    ensures x.lock.RunningLock? ==> Apply(s, a).running == s.running
    ensures x.lock.FailureLock? ==> Apply(s, a).failures == s.failures
  {
    ReachableSound(s);
    WritesGuarded(s, a);
    if ActorHolds(s, a, Write(x.lock)) {
      assert Clash(Write(x.lock), x);
    }
  }

  // ----- reading

  function LocksOf(st: Stand): set<Lock> {
    set x | x in st.holds :: x.lock
  }

  /** `n` with the collections that are not under one of the locks taken from `t`. */
  ghost function Merged(n: State, t: State, held: set<Lock>): State {
    n.(dispatch := if DispatchLock in held then n.dispatch else t.dispatch,
       retry := if RetryLock in held then n.retry else t.retry,
       running := if RunningLock in held then n.running else t.running,
       failures := if FailureLock in held then n.failures else t.failures)
  }

  lemma DispatcherGuarded(s: State, t: State, events: Events, job: nat)
    requires t == Merged(s, t, LocksOf(DispatcherStand(s.dispatcher)))
    ensures StepDispatcher(t, events, job) ==
            Merged(StepDispatcher(s, events, job), t, LocksOf(DispatcherStand(s.dispatcher)))
  {
    var st := DispatcherStand(s.dispatcher);
    assert forall x | x in st.holds :: x.lock in LocksOf(st);
  }

  lemma WorkerGuarded(s: State, t: State, id: nat, outcome: Outcome, cycles: nat)
    requires id in s.jobs && t == Merged(s, t, LocksOf(PhaseStand(s.jobs[id].phase)))
    ensures StepWorker(t, id, outcome, cycles) ==
            Merged(StepWorker(s, id, outcome, cycles), t, LocksOf(PhaseStand(s.jobs[id].phase)))
  {
    PhaseLocks(s.jobs[id].phase);
    WorkerMerged(s, t, id, outcome, cycles, LocksOf(PhaseStand(s.jobs[id].phase)));
  }

  lemma PhaseLocks(p: Phase)
    ensures
      var held := LocksOf(PhaseStand(p));
      && (p.FinishedRemoving? ==> RetryLock in held && FailureLock in held)
      && (p.FailedCounting? ==> FailureLock in held) && (p.FailedInserting? ==> RetryLock in held)
      && (p.Leaving? ==> RunningLock in held) && DispatchLock !in held
  {
    var st := PhaseStand(p);
    assert forall x | x in st.holds :: x.lock in LocksOf(st);
  }

  lemma WorkerMerged(s: State, t: State, id: nat, outcome: Outcome, cycles: nat, held: set<Lock>)
    requires id in s.jobs && t == Merged(s, t, held) && DispatchLock !in held
    requires
      var p := s.jobs[id].phase;
      && (p.FinishedRemoving? ==> RetryLock in held && FailureLock in held)
      && (p.FailedCounting? ==> FailureLock in held) && (p.FailedInserting? ==> RetryLock in held)
      && (p.Leaving? ==> RunningLock in held)
    ensures StepWorker(t, id, outcome, cycles) == Merged(StepWorker(s, id, outcome, cycles), t, held)
  {
  }

  lemma ClientGuarded(s: State, t: State, id: nat)
    requires id in s.clients && t == Merged(s, t, LocksOf(CallStand(s.clients[id].call)))
    requires s.clients[id].call.ScheduleInFunction? ==> s.clients[id].key in s.dispatch
    ensures s.clients[id].call.ScheduleInFunction? ==> s.clients[id].key in t.dispatch
    ensures StepClient(t, id) == Merged(StepClient(s, id), t, LocksOf(CallStand(s.clients[id].call)))
  {
    CallLocks(s.clients[id].call);
    ClientMerged(s, t, id, LocksOf(CallStand(s.clients[id].call)));
  }

  lemma CallLocks(c: Call)
    ensures
      var held := LocksOf(CallStand(c));
      && (c.ScheduleInDispatch? || c.ScheduleInFunction? || c.RegisterInDispatch? ==> DispatchLock in held)
      && (c.ScheduleInRetry? || c.ScheduleInserting? || c.RegisterInserting? ==> RetryLock in held)
  {
    var st := CallStand(c);
    assert forall x | x in st.holds :: x.lock in LocksOf(st);
  }

  lemma ClientMerged(s: State, t: State, id: nat, held: set<Lock>)
    requires id in s.clients && t == Merged(s, t, held)
    requires s.clients[id].call.ScheduleInFunction? ==> s.clients[id].key in s.dispatch
    requires
      var c := s.clients[id].call;
      && (c.ScheduleInDispatch? || c.ScheduleInFunction? || c.RegisterInDispatch? ==> DispatchLock in held)
      && (c.ScheduleInRetry? || c.ScheduleInserting? || c.RegisterInserting? ==> RetryLock in held)
    ensures s.clients[id].call.ScheduleInFunction? ==> s.clients[id].key in t.dispatch
    ensures StepClient(t, id) == Merged(StepClient(s, id), t, held)
  {
  }

  /** Locks are granted by where the threads stand alone. */
  lemma SameStands(s: State, t: State, u: Thread)
    requires t.dispatcher == s.dispatcher && t.jobs == s.jobs && t.clients == s.clients && Alive(s, u)
    ensures Alive(t, u) && (Granted(s, u) <==> Granted(t, u))
  {
    assert forall v :: Alive(s, v) <==> Alive(t, v);
    assert forall v | Alive(s, v) :: StandOf(s, v) == StandOf(t, v);
  }

  lemma EnabledGuarded(s: State, t: State, a: Action)
    requires Enabled(s, a) && Actor(a).Some? && t == Merged(s, t, LocksOf(StandOf(s, Actor(a).value)))
    ensures Enabled(t, a)
  {
    var st := StandOf(s, Actor(a).value);
    assert forall x | x in st.holds :: x.lock in LocksOf(st);
    SameStands(s, t, Actor(a).value);
  }

  /**
   What a thread does, and whether it can, does not depend on the collections whose locks it does
   not hold: put others in their place, and it does the same and leaves them alone.
   */
  lemma ReadsGuarded(s: State, t: State, a: Action)
    requires Enabled(s, a) && Actor(a).Some? && t == Merged(s, t, LocksOf(StandOf(s, Actor(a).value)))
    ensures Enabled(t, a) && Apply(t, a) == Merged(Apply(s, a), t, LocksOf(StandOf(s, Actor(a).value)))
  {
    EnabledGuarded(s, t, a);
    match a
    case DispatcherStep(events, job) => DispatcherGuarded(s, t, events, job);
    case WorkerStep(id, outcome, cycles) => WorkerGuarded(s, t, id, outcome, cycles);
    case ClientStep(id) => ClientGuarded(s, t, id);
  }
}
