/** From which states of the event server a key can run again. */
module AsyncProgress {
  import opened AsyncServer
  import opened AsyncSafety
  import opened AsyncTheorems
  import opened AsyncLocks
  import opened AsyncRuns

  // ----- letting go of all locks

  ghost function Threads(s: State): set<Thread> {
    {TheDispatcher} + (set i | i in s.jobs :: Worker(i)) + (set i | i in s.clients :: Caller(i))
  }

  ghost function Holders(s: State): set<Thread> {
    set t | t in Threads(s) && Alive(s, t) && StandOf(s, t).holds != {}
  }

  lemma HoldersAlive(s: State)
    ensures forall t :: t in Holders(s) <==> Alive(s, t) && StandOf(s, t).holds != {}
  {
    forall t | Alive(s, t)
      ensures t in Threads(s)
    {
      match t
      case TheDispatcher =>
      case Worker(_) =>
      case Caller(_) =>
    }
  }

  /** A run of `k` has panicked or is bound to. */
  ghost predicate Hopeless(s: State, k: Key) {
    exists i | i in s.jobs :: s.jobs[i].key == k && Doomed(s.jobs[i].phase, FailureCount(s.failures, k))
  }

  /** What letting go of a lock does not spoil for `k`. */
  ghost predicate Unspoilt(s: State, t: State, k: Key) {
    && s.dispatch.Keys <= t.dispatch.Keys && t.stop == s.stop
    && (t.dispatcher.Exited? ==> s.dispatcher.Exited?)
    && (Hopeless(t, k) ==> Hopeless(s, k))
  }

  /** What a thread does that lets go of its locks. */
  function Release(t: Thread, events: Events): Action {
    match t
    case TheDispatcher => DispatcherStep(events, 0)
    case Worker(id) => WorkerStep(id, Finished, 0)
    case Caller(id) => ClientStep(id)
  }

  lemma CanRelease(s: State, t: Thread, events: Events)
    requires Inv(s) && Alive(s, t) && StandOf(s, t).holds != {} && Granted(s, t)
    requires t.TheDispatcher? && s.dispatcher.Picking? ==> Due(s, events, s.dispatcher.room)
    ensures Enabled(s, Release(t, events))
  {
  }

  /** A thread inside a critical section that waits for nothing lets go of everything. */
  lemma Releases(s: State, t: Thread, events: Events)
    requires Enabled(s, Release(t, events)) && Alive(s, t) && StandOf(s, t).holds != {} && StandOf(s, t).wants.None?
    ensures
      var n := Apply(s, Release(t, events));
      Alive(n, t) ==> StandOf(n, t).holds == {}
  {
    match t
    case TheDispatcher =>
    case Worker(id) =>
    case Caller(id) =>
  }

  lemma OtherHolders(s: State, t: Thread, events: Events)
    requires Enabled(s, Release(t, events)) && Alive(s, t) && StandOf(s, t).holds != {}
    ensures Holders(Apply(s, Release(t, events))) - {t} == Holders(s) - {t}
  {
    var n := Apply(s, Release(t, events));
    HoldersAlive(s);
    HoldersAlive(n);
    forall u | u != t
      ensures u in Holders(n) <==> u in Holders(s)
    {
      if Alive(n, u) {
        StepStands(s, Release(t, events), u);
      }
      StaysAlive(s, t, u, events);
    }
  }

  lemma StaysAlive(s: State, t: Thread, u: Thread, events: Events)
    requires Enabled(s, Release(t, events)) && Alive(s, t) && u != t && StandOf(s, t).holds != {}
    ensures Alive(s, u) <==> Alive(Apply(s, Release(t, events)), u)
  {
  }

  lemma ReleaseUnspoilt(s: State, t: Thread, events: Events, k: Key)
    requires Inv(s) && Enabled(s, Release(t, events)) && Alive(s, t) && StandOf(s, t).holds != {}
    ensures Unspoilt(s, Apply(s, Release(t, events)), k)
  {
    match t
    case TheDispatcher =>
    case Caller(id) =>
    case Worker(id) => WorkerUnspoilt(s, id, k);
  }

  lemma WorkerUnspoilt(s: State, id: nat, k: Key)
    requires Inv(s) && id in s.jobs && PhaseStand(s.jobs[id].phase).holds != {}
    ensures Unspoilt(s, StepWorker(s, id, Finished, 0), k)
  {
    var t := StepWorker(s, id, Finished, 0);
    if i :| i in t.jobs && t.jobs[i].key == k && Doomed(t.jobs[i].phase, FailureCount(t.failures, k)) {
      DoomedBefore(s, id, i);
    }
  }

  /** Only a run that was bound to panic is bound to panic after leaving a critical section. */
  lemma DoomedBefore(s: State, id: nat, i: nat)
    requires Exclusive(s.jobs, s.running, s.dispatcher) && id in s.jobs && PhaseStand(s.jobs[id].phase).holds != {}
    requires
      var t := StepWorker(s, id, Finished, 0);
      i in t.jobs && Doomed(t.jobs[i].phase, FailureCount(t.failures, t.jobs[i].key))
    ensures i in s.jobs && s.jobs[i].key == StepWorker(s, id, Finished, 0).jobs[i].key
    ensures Doomed(s.jobs[i].phase, FailureCount(s.failures, s.jobs[i].key))
  {
    assert i in s.jobs;
    assert i != id ==> s.jobs[i].key != s.jobs[id].key;
  }

  lemma ReleaseHolders(s: State, t: Thread, events: Events)
    requires Enabled(s, Release(t, events)) && Alive(s, t) && StandOf(s, t).holds != {}
    ensures StandOf(s, t).wants.None? ==> Holders(Apply(s, Release(t, events))) == Holders(s) - {t} && t in Holders(s)
    ensures StandOf(s, t).wants.Some? ==> Holders(Apply(s, Release(t, events))) <= Holders(s)
  {
    OtherHolders(s, t, events);
    HoldersAlive(s);
    HoldersAlive(Apply(s, Release(t, events)));
    if StandOf(s, t).wants.None? {
      Releases(s, t, events);
    }
  }

  /** One step of letting go; who does not wait any more has let go. */
  lemma LetGo(s: State, t: Thread, k: Key) returns (n: State)
    requires Sound(s) && Alive(s, t) && StandOf(s, t).holds != {} && Granted(s, t)
    ensures Leads(s, n, PROMPTLY) && Unspoilt(s, n, k)
    ensures StandOf(s, t).wants.None? ==> Holders(n) < Holders(s)
    ensures StandOf(s, t).wants.Some? ==>
              Holders(n) <= Holders(s) && Alive(n, t) && StandOf(n, t).holds != {} && StandOf(n, t).wants.None?
  {
    var room := if s.dispatcher.Picking? then s.dispatcher.room else 0;
    var events := ChooseDue(s, DueKeys(s), room, k);
    CanRelease(s, t, events);
    LeadsStep(s, Release(t, events), PROMPTLY);
    ReleaseHolders(s, t, events);
    ReleaseUnspoilt(s, t, events, k);
    n := Apply(s, Release(t, events));
    if StandOf(s, t).wants.Some? {
      NoLongerWaits(s, t, events);
    }
  }

  lemma NoLongerWaits(s: State, t: Thread, events: Events)
    requires Enabled(s, Release(t, events)) && Alive(s, t) && StandOf(s, t).holds != {} && StandOf(s, t).wants.Some?
    ensures
      var n := Apply(s, Release(t, events));
      Alive(n, t) && StandOf(n, t).holds != {} && StandOf(n, t).wants.None?
  {
    WaitsForFailures(s, t);
    assert Apply(s, Release(t, events)).jobs[t.id].phase.FinishedRemoving?;
  }

  /** A thread that gets what it waits for is out after one step, or after two. */
  lemma OneFewer(s: State, t: Thread, k: Key) returns (n: State)
    requires Sound(s) && Alive(s, t) && StandOf(s, t).holds != {} && Granted(s, t)
    ensures Leads(s, n, PROMPTLY) && Unspoilt(s, n, k) && Holders(n) < Holders(s)
  {
    n := LetGo(s, t, k);
    if StandOf(s, t).wants.Some? {
      var m := n;
      LeadsSound(s, m, PROMPTLY);
      n := LetGo(m, t, k);
      LeadsTrans(s, m, n, PROMPTLY);
    }
  }

  lemma SomeoneLetsGo(s: State, k: Key) returns (n: State)
    requires Sound(s) && !Calm(s)
    ensures Leads(s, n, PROMPTLY) && Unspoilt(s, n, k) && Holders(n) < Holders(s)
  {
    var t :| Alive(s, t) && StandOf(s, t).holds != {};
    NestedWait(s, t);
    if Granted(s, t) {
      n := OneFewer(s, t, k);
    } else {
      var u, x :| Alive(s, u) && u != t && x in StandOf(s, u).holds && Clash(x, StandOf(s, t).wants.value);
      NestedWait(s, u);
      n := OneFewer(s, u, k);
    }
  }

  lemma WaitsForFailures(s: State, t: Thread)
    requires Alive(s, t) && StandOf(s, t).holds != {} && StandOf(s, t).wants.Some?
    ensures t.Worker? && s.jobs[t.id].phase.FinishedWantFailure?
  {
  }

  /** From every reachable state all threads can leave their critical sections. */
  lemma {:induction false} CalmDown(s: State, k: Key) returns (t: State)
    requires Sound(s)
    ensures Leads(s, t, PROMPTLY) && Sound(t) && Calm(t) && Unspoilt(s, t, k)
    decreases Holders(s)
  {
    if Calm(s) {
      t := s;
      LeadsSelf(s, PROMPTLY);
    } else {
      var n := SomeoneLetsGo(s, k);
      LeadsSound(s, n, PROMPTLY);
      t := CalmDown(n, k);
      LeadsTrans(s, n, t, PROMPTLY);
    }
  }

  // ----- when a key can run again

  /** Some continuation in which the dispatcher is prompt calls the event of `k`. */
  ghost predicate CanStart(s: State, k: Key) {
    exists t, a :: Leads(s, t, PROMPTLY) && Enabled(t, a) && Calls(t, a, k)
  }

  lemma CanStartLater(s: State, t: State, k: Key)
    requires Leads(s, t, PROMPTLY) && CanStart(t, k)
    ensures CanStart(s, k)
  {
    var u, a :| Leads(t, u, PROMPTLY) && Enabled(u, a) && Calls(u, a, k);
    LeadsTrans(s, t, u, PROMPTLY);
  }

  /** What is not touched while workers give their threads back. */
  ghost predicate Standing(s: State, t: State) {
    && t.dispatch == s.dispatch && t.dispatcher == s.dispatcher && t.clients == s.clients
    && t.stop == s.stop && t.workers == s.workers
  }

  /** Who has retired leaves no hopeless run behind that was not hopeless before. */
  lemma RetiredHopeless(s: State, t: State, id: nat, k: Key)
    requires Exclusive(s.jobs, s.running, s.dispatcher) && id in s.jobs
    requires Beside(s, t, s.jobs[id].key) && t.jobs - {id} == s.jobs - {id}
    requires id in t.jobs ==>
               t.jobs[id].key == s.jobs[id].key && Doomed(s.jobs[id].phase, FailureCount(s.failures, s.jobs[id].key))
    ensures Hopeless(t, k) ==> Hopeless(s, k)
  {
    if i :| i in t.jobs && t.jobs[i].key == k && Doomed(t.jobs[i].phase, FailureCount(t.failures, k)) {
      if i != id {
        assert i in t.jobs - {id} && (t.jobs - {id})[i] == (s.jobs - {id})[i];
        assert s.jobs[i] == t.jobs[i];
      }
    }
  }

  lemma RetiredIds(jobs: Jobs, after: Jobs, id: nat)
    requires id in WorkingIds(jobs) && after - {id} == jobs - {id} && (id in after ==> Dead(after[id].phase))
    ensures WorkingIds(after) == WorkingIds(jobs) - {id}
  {
    forall i | i != id
      ensures i in after <==> i in jobs
      ensures i in jobs ==> after[i] == jobs[i]
    {
      assert i in after - {id} <==> i in jobs - {id};
      if i in jobs {
        assert (after - {id})[i] == (jobs - {id})[i];
      }
    }
  }

  /** One worker gives its thread back. */
  lemma RetireOne(s: State, id: nat, k: Key) returns (t: State)
    requires Sound(s) && Calm(s) && id in WorkingIds(s.jobs)
    ensures Leads(s, t, PROMPTLY) && Sound(t) && Calm(t) && Standing(s, t)
    ensures WorkingIds(t.jobs) == WorkingIds(s.jobs) - {id} && t.jobs - {id} == s.jobs - {id}
    ensures Hopeless(t, k) ==> Hopeless(s, k)
    ensures id in t.jobs ==>
              Dead(t.jobs[id].phase) && Doomed(s.jobs[id].phase, FailureCount(s.failures, s.jobs[id].key))
  {
    CalmFree(s, Worker(id));
    t := Retire(s, id, PROMPTLY);
    FreeCalm(t, Worker(id));
    LeadsSound(s, t, PROMPTLY);
    RetiredIds(s.jobs, t.jobs, id);
    RetiredHopeless(s, t, id, k);
  }

  /** All workers can give their threads back. */
  lemma {:induction false} FreeThreads(s: State, k: Key) returns (t: State)
    requires Sound(s) && Calm(s)
    ensures Leads(s, t, PROMPTLY) && Sound(t) && Calm(t) && Standing(s, t)
    ensures WorkingIds(t.jobs) == {} && (Hopeless(t, k) ==> Hopeless(s, k))
    decreases |WorkingIds(s.jobs)|
  {
    if id :| id in WorkingIds(s.jobs) {
      var n := RetireOne(s, id, k);
      t := FreeThreads(n, k);
      LeadsTrans(s, n, t, PROMPTLY);
    } else {
      t := s;
      LeadsSelf(s, PROMPTLY);
    }
  }

  ghost function QueuedIds(jobs: Jobs): set<nat> {
    set i | i in jobs && jobs[i].phase.Queued?
  }

  lemma StartedIds(jobs: Jobs, id: nat)
    requires WorkingIds(jobs) == {} && id in QueuedIds(jobs)
    ensures
      var after := jobs[id := jobs[id].(phase := Executing)];
      WorkingIds(after) == {id} && after - {id} == jobs - {id}
  {
    forall i | i in jobs
      ensures !Working(jobs[i].phase)
    {
      assert i !in WorkingIds(jobs);
    }
  }

  /** The run that is next in line is taken up and ends. */
  lemma ServeFirst(s: State, first: nat, k: Key) returns (t: State)
    requires Sound(s) && Calm(s) && WorkingIds(s.jobs) == {} && first in QueuedIds(s.jobs) && NextInLine(s.jobs, first)
    ensures Leads(s, t, PROMPTLY) && Sound(t) && Calm(t) && WorkingIds(t.jobs) == {} && t.jobs == s.jobs - {first}
  {
    var n := StartRun(s, first, PROMPTLY);
    LeadsSound(s, n, PROMPTLY);
    StartedIds(s.jobs, first);
    t := EndRun(n, first, k);
    LeadsTrans(s, n, t, PROMPTLY);
  }

  lemma EndRun(s: State, id: nat, k: Key) returns (t: State)
    requires Sound(s) && Calm(s) && WorkingIds(s.jobs) == {id} && s.jobs[id].phase.Executing?
    ensures Leads(s, t, PROMPTLY) && Sound(t) && Calm(t) && WorkingIds(t.jobs) == {} && t.jobs == s.jobs - {id}
  {
    t := RetireOne(s, id, k);
    assert t.jobs == t.jobs - {id};
  }

  lemma ServedQueue(jobs: Jobs, first: nat, i: nat)
    requires first in QueuedIds(jobs) && i in QueuedIds(jobs) && jobs[first].key != jobs[i].key
    ensures HasQueued(jobs - {first}, jobs[i].key) && |QueuedIds(jobs - {first})| < |QueuedIds(jobs)|
  {
    assert (jobs - {first})[i] == jobs[i];
    assert QueuedIds(jobs - {first}) == QueuedIds(jobs) - {first};
  }

  /** With all threads free, a queued run has its turn after the ones before it. */
  lemma {:induction false} ServeQueue(s: State, k: Key)
    requires Sound(s) && Calm(s) && WorkingIds(s.jobs) == {} && HasQueued(s.jobs, k)
    ensures CanStart(s, k)
    decreases |QueuedIds(s.jobs)|
  {
    var i :| i in s.jobs && s.jobs[i].key == k && s.jobs[i].phase.Queued?;
    var first := FirstInLine(s.jobs, i);
    if s.jobs[first].key == k {
      FirstStarts(s, first);
    } else {
      var t := ServeFirst(s, first, k);
      ServedQueue(s.jobs, first, i);
      ServeQueue(t, k);
      CanStartLater(s, t, k);
    }
  }

  lemma FirstStarts(s: State, first: nat)
    requires Sound(s) && WorkingIds(s.jobs) == {} && first in QueuedIds(s.jobs) && NextInLine(s.jobs, first)
    ensures CanStart(s, s.jobs[first].key)
  {
    LeadsSelf(s, PROMPTLY);
    var a := WorkerStep(first, Finished, 0);
    assert Enabled(s, a) && Calls(s, a, s.jobs[first].key);
  }

  lemma TickTo(s: State, at: int) returns (t: State)
    requires Calm(s)
    ensures Leads(s, t, PROMPTLY) && Calm(t) && at <= t.clock
    ensures t == s.(clock := t.clock)
  {
    var a := Tick(if at > s.clock then at - s.clock else 0);
    LeadsStep(s, a, PROMPTLY);
    t := Apply(s, a);
    forall u | Alive(t, u)
      ensures StandOf(t, u).holds == {}
    {
      StepStands(s, a, u);
    }
  }

  lemma StillFree(jobs: Jobs, after: Jobs)
    requires WorkingIds(jobs) == {} && MoreQueued(jobs, after)
    ensures WorkingIds(after) == {}
  {
    forall i | i in after
      ensures !Working(after[i].phase)
    {
      if i in jobs {
        assert i !in WorkingIds(jobs);
      }
    }
  }

  /** A scheduled key without a run can be started by an idle dispatcher. */
  lemma StartScheduled(s: State, k: Key)
    requires Sound(s) && Calm(s) && WorkingIds(s.jobs) == {} && s.dispatcher == Idle && !s.stop
    requires k in s.retry && k !in s.running
    ensures CanStart(s, k)
  {
    var n := TickTo(s, s.retry[k].0);
    CalmFree(n, TheDispatcher);
    var t := Submit(n, k, PROMPTLY);
    LeadsTrans(s, n, t, PROMPTLY);
    LeadsSound(s, t, PROMPTLY);
    FreeCalm(t, TheDispatcher);
    StillFree(n.jobs, t.jobs);
    ServeQueue(t, k);
    CanStartLater(s, t, k);
  }

  /** A registered key without a run can be scheduled if it is not, and started. */
  lemma StartRegistered(s: State, k: Key)
    requires Sound(s) && Calm(s) && WorkingIds(s.jobs) == {} && s.dispatcher == Idle && !s.stop
    requires k in s.dispatch && k !in s.running
    ensures CanStart(s, k)
  {
    if k in s.retry {
      StartScheduled(s, k);
    } else {
      var id := FreshId(s.clients.Keys);
      var n := NewCall(s, Schedule(id, k), PROMPTLY);
      var t := Insertion(n, id, PROMPTLY);
      LeadsTrans(s, n, t, PROMPTLY);
      LeadsSound(s, t, PROMPTLY);
      StartScheduled(t, k);
      CanStartLater(s, t, k);
    }
  }

  /** With free threads, what is not hopeless is queued or has no run. */
  lemma NoRun(s: State, k: Key)
    requires Sound(s) && WorkingIds(s.jobs) == {} && s.dispatcher == Idle && !Hopeless(s, k) && !HasQueued(s.jobs, k)
    ensures k !in s.running
  {
    forall i | i in s.jobs
      ensures s.jobs[i].key != k
    {
      assert i !in WorkingIds(s.jobs);
      assert !(s.jobs[i].key == k && Doomed(s.jobs[i].phase, FailureCount(s.failures, k)));
    }
  }

  lemma StartIdle(s: State, k: Key)
    requires Sound(s) && Calm(s) && s.dispatcher == Idle && !s.stop && k in s.dispatch && !Hopeless(s, k)
    ensures CanStart(s, k)
  {
    var t := FreeThreads(s, k);
    if HasQueued(t.jobs, k) {
      ServeQueue(t, k);
    } else {
      NoRun(t, k);
      StartRegistered(t, k);
    }
    CanStartLater(s, t, k);
  }

  lemma RoundedUp(s: State, t: State, k: Key)
    requires MoreQueued(s.jobs, t.jobs) && t.failures == s.failures && !Hopeless(s, k)
    ensures !Hopeless(t, k)
  {
  }

  lemma StartCalm(s: State, k: Key)
    requires Sound(s) && Calm(s) && !s.dispatcher.Exited? && !s.stop && k in s.dispatch && !Hopeless(s, k)
    ensures CanStart(s, k)
  {
    CalmFree(s, TheDispatcher);
    var t := RoundUp(s, k, PROMPTLY);
    FreeCalm(t, TheDispatcher);
    LeadsSound(s, t, PROMPTLY);
    RoundedUp(s, t, k);
    StartIdle(t, k);
    CanStartLater(s, t, k);
  }

  // ----- when it cannot

  /** A run that is bound to panic stays so, whichever worker steps. */
  lemma DoomedAfter(s: State, id: nat, outcome: Outcome, cycles: nat, i: nat)
    requires Exclusive(s.jobs, s.running, s.dispatcher) && id in s.jobs && i in s.jobs
    requires Doomed(s.jobs[i].phase, FailureCount(s.failures, s.jobs[i].key))
    ensures
      var t := StepWorker(s, id, outcome, cycles);
      i in t.jobs && t.jobs[i].key == s.jobs[i].key && Doomed(t.jobs[i].phase, FailureCount(t.failures, t.jobs[i].key))
  {
    assert i != id ==> s.jobs[i].key != s.jobs[id].key;
  }

  lemma HopelessStep(s: State, a: Action, k: Key)
    requires Inv(s) && Enabled(s, a) && Hopeless(s, k)
    ensures Hopeless(Apply(s, a), k) && !Starts(s, a, k)
  {
    var i :| i in s.jobs && s.jobs[i].key == k && Doomed(s.jobs[i].phase, FailureCount(s.failures, k));
    if a.WorkerStep? {
      DoomedAfter(s, a.id, a.outcome, a.cycles, i);
    } else {
      var t := Apply(s, a);
      assert i in t.jobs && t.jobs[i] == s.jobs[i] && t.failures == s.failures;
    }
  }

  lemma {:induction false} HopelessRun(ss: seq<State>, acts: seq<Action>, i: nat, k: Key)
    requires Runs(ss, acts) && Sound(ss[0]) && Hopeless(ss[0], k) && i <= |acts|
    ensures Hopeless(ss[i], k)
  {
    if i > 0 {
      HopelessRun(ss, acts, i - 1, k);
      RunSound(ss, acts, i - 1);
      HopelessStep(ss[i - 1], acts[i - 1], k);
    }
  }

  /** Once a run of `k` has panicked or is bound to, no run of `k` is ever taken up. */
  lemma HopelessForever(s: State, t: State, how: Manner, a: Action, k: Key)
    requires Sound(s) && Hopeless(s, k) && Leads(s, t, how) && Enabled(t, a)
    ensures Hopeless(t, k) && !Starts(t, a, k)
  {
    var ss, acts :| Route(ss, acts, s, t, how);
    RunSound(ss, acts, |acts|);
    HopelessRun(ss, acts, |acts|, k);
    HopelessStep(t, a, k);
  }

  /**
   While the dispatcher is there and not told to stop, a registered key can run again, in some
   continuation, if and only if no run of it has panicked or is bound to panic.
   */
  lemma CanStartIff(s: State, k: Key)
    requires Reachable(s) && k in s.dispatch && !s.stop && !s.dispatcher.Exited?
    ensures CanStart(s, k) <==> !Hopeless(s, k)
  {
    ReachableSound(s);
    if Hopeless(s, k) {
      forall t, a | Leads(s, t, PROMPTLY) && Enabled(t, a)
        ensures !Calls(t, a, k)
      {
        HopelessForever(s, t, PROMPTLY, a, k);
      }
    } else {
      var t := CalmDown(s, k);
      StartCalm(t, k);
      CanStartLater(s, t, k);
    }
  }

  /** In particular a scheduled event is never stuck, short of a panic. */
  lemma ScheduledCanStart(s: State, k: Key)
    requires Reachable(s) && k in s.retry && !s.stop && !s.dispatcher.Exited? && !Hopeless(s, k)
    ensures CanStart(s, k)
  {
    ReachableSound(s);
    CanStartIff(s, k);
  }
}
