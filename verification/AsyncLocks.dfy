/** The locks of the event server exclude each other and cannot deadlock. */
module AsyncLocks {
  import opened Wrappers
  import opened Backoff
  import opened AsyncServer
  import opened AsyncTheorems

  // ----- mutual exclusion

  /** No two threads hold accesses to a lock that clash. */
  ghost predicate Exclusion(s: State) {
    forall t, u, a, b | Alive(s, t) && Alive(s, u) && t != u && a in StandOf(s, t).holds && b in StandOf(s, u).holds ::
      !Clash(a, b)
  }

  /** After a step a thread holds at most what it held and what it was waiting for. */
  ghost predicate Acquires(before: Stand, after: Stand) {
    forall a | a in after.holds :: a in before.holds || before.wants == Some(a)
  }

  ghost function Actor(a: Action): Option<Thread> {
    match a
    case DispatcherStep(_, _) => Some(TheDispatcher)
    case WorkerStep(id, _, _) => Some(Worker(id))
    case ClientStep(id) => Some(Caller(id))
    case _ => None
  }

  lemma DispatcherAcquires(d: Dispatcher, stop: bool, room: nat, running: set<Key>, events: Events)
    ensures Acquires(DispatcherStand(d), DispatcherStand(NextDispatcher(d, stop, room, running, events)))
  {
  }

  lemma WorkerAcquires(p: Phase, outcome: Outcome, count: nat, at: int)
    ensures Acquires(PhaseStand(p), PhaseStand(NextPhase(p, outcome, count, at)))
  {
  }

  lemma ClientAcquires(c: Call, k: Key, dispatch: map<Key, Callback>, retry: map<Key, (int, Callback)>)
    requires c.ScheduleInFunction? ==> k in dispatch
    requires NextCall(c, k, dispatch, retry).Some?
    ensures Acquires(CallStand(c), CallStand(NextCall(c, k, dispatch, retry).value))
  {
  }

  /** A thread that was there keeps its accesses, unless it is the one that steps; a new one has none. */
  lemma StepStands(s: State, a: Action, t: Thread)
    requires Enabled(s, a) && Alive(Apply(s, a), t)
    ensures Alive(s, t) && Actor(a) != Some(t) ==> StandOf(Apply(s, a), t).holds == StandOf(s, t).holds
    ensures Alive(s, t) && Actor(a) == Some(t) ==> Acquires(StandOf(s, t), StandOf(Apply(s, a), t))
    ensures !Alive(s, t) ==> StandOf(Apply(s, a), t).holds == {}
  {
    match a
    case DispatcherStep(events, job) =>
      DispatcherAcquires(s.dispatcher, s.stop, Room(s.workers, s.jobs), s.running, events);
    case WorkerStep(id, outcome, cycles) =>
      var k := s.jobs[id].key;
      WorkerAcquires(s.jobs[id].phase, outcome, FailureCount(s.failures, k) + 1, s.clock + Delay(cycles));
    case ClientStep(id) =>
      var k, c := s.clients[id].key, s.clients[id].call;
      if NextCall(c, k, s.dispatch, s.retry).Some? {
        ClientAcquires(c, k, s.dispatch, s.retry);
      }
    case _ =>
  }

  lemma ExclusionStep(s: State, a: Action)
    requires Exclusion(s) && Enabled(s, a)
    ensures Exclusion(Apply(s, a))
  {
    var n := Apply(s, a);
    forall t, u, x, y | Alive(n, t) && Alive(n, u) && t != u && x in StandOf(n, t).holds && y in StandOf(n, u).holds
      ensures !Clash(x, y)
    {
      StepStands(s, a, t);
      StepStands(s, a, u);
      assert Alive(s, t) && Alive(s, u);
      if x in StandOf(s, t).holds && y !in StandOf(s, u).holds {
        GrantedApart(s, u, t, y, x);
      } else if x !in StandOf(s, t).holds {
        GrantedApart(s, t, u, x, y);
      }
    }
  }

  lemma GrantedApart(s: State, t: Thread, u: Thread, x: Access, y: Access)
    requires Alive(s, t) && Alive(s, u) && t != u && Granted(s, t)
    requires StandOf(s, t).wants == Some(x) && y in StandOf(s, u).holds
    ensures !Clash(x, y)
  {
    assert !Clash(y, StandOf(s, t).wants.value);
  }

  /** A lock is never held by a writer and anybody else at once. */
  lemma {:induction false} LocksExclude(ss: seq<State>, acts: seq<Action>, i: nat)
    requires Runs(ss, acts) && Init(ss[0]) && i <= |acts|
    ensures Exclusion(ss[i])
  {
    if i > 0 {
      LocksExclude(ss, acts, i - 1);
      ExclusionStep(ss[i - 1], acts[i - 1]);
    }
  }

  // ----- no deadlock

  /** The thread has something left to do; a run that is queued has no thread yet. */
  ghost predicate Unfinished(s: State, t: Thread) {
    && Alive(s, t)
    && (t.TheDispatcher? ==> !s.dispatcher.Exited?)
    && (t.Worker? ==> Working(s.jobs[t.id].phase))
  }

  lemma {:induction false} FreshId(ids: set<nat>) returns (n: nat)
    ensures n !in ids && forall i | i in ids :: i < n
  {
    n := 0;
    if ids != {} {
      var i :| i in ids;
      n := FreshId(ids - {i});
      assert forall j | j in ids :: j == i || j in ids - {i};
      if n <= i {
        n := i + 1;
      }
    }
  }

  /** A thread that gets its lock, or needs none, can step. */
  lemma GrantedCanStep(s: State, t: Thread) returns (a: Action)
    requires Inv(s) && Unfinished(s, t) && Granted(s, t)
    ensures Enabled(s, a) && Actor(a) == Some(t)
  {
    match t
    case TheDispatcher =>
      var job := FreshId(s.jobs.Keys);
      a := DispatcherStep([], job);
    case Worker(id) => a := WorkerStep(id, Finished, 0);
    case Caller(id) => a := ClientStep(id);
  }

  /** Only a run that finished waits for a lock while it holds one, and then for the failure counts. */
  lemma NestedWait(s: State, t: Thread)
    requires Alive(s, t) && StandOf(s, t).holds != {}
    ensures Unfinished(s, t)
    ensures StandOf(s, t).wants.None? || StandOf(s, t).wants == Some(Write(FailureLock))
    ensures (exists a | a in StandOf(s, t).holds :: a.lock == FailureLock) ==> StandOf(s, t).wants.None?
  {
  }

  /**
   In every reachable state, if any thread has something left to do then that thread can step,
   or one inside a critical section can.
   */
  lemma NoDeadlock(s: State, t: Thread) returns (u: Thread, a: Action)
    requires Reachable(s) && Unfinished(s, t)
    ensures Enabled(s, a) && Actor(a) == Some(u) && Alive(s, u)
    ensures u == t || StandOf(s, u).holds != {}
  {
    ReachableInv(s);
    u := t;
    if !Granted(s, t) {
      var v, x :| Alive(s, v) && v != t && x in StandOf(s, v).holds && Clash(x, StandOf(s, t).wants.value);
      NestedWait(s, v);
      u := v;
      if !Granted(s, v) {
        var w, y :| Alive(s, w) && w != v && y in StandOf(s, w).holds && Clash(y, StandOf(s, v).wants.value);
        NestedWait(s, w);
        u := w;
      }
    }
    a := GrantedCanStep(s, u);
  }

  /** A run that waits for a thread can be taken up, or what keeps the pool busy can step. */
  lemma QueueMoves(s: State, id: nat) returns (u: Thread, a: Action)
    requires Reachable(s) && id in s.jobs && s.jobs[id].phase.Queued?
    ensures Enabled(s, a) && Actor(a) == Some(u) && Alive(s, u)
    ensures (u.Worker? && s.jobs[u.id].phase.Queued?) || (WorkingIds(s.jobs) != {} && Unfinished(s, u))
  {
    if Room(s.workers, s.jobs) > 0 {
      var first := FirstInLine(s.jobs, id);
      u, a := Worker(first), WorkerStep(first, Finished, 0);
    } else {
      PoolNotEmpty(s);
      var w :| w in WorkingIds(s.jobs);
      u, a := NoDeadlock(s, Worker(w));
    }
  }

  lemma PoolNotEmpty(s: State)
    requires Reachable(s) && Room(s.workers, s.jobs) == 0
    ensures WorkingIds(s.jobs) != {}
  {
    var ss, acts :| Runs(ss, acts) && Init(ss[0]) && ss[|acts|] == s;
    WorkersStay(ss, acts, |acts|);
  }

  lemma {:induction false} WorkersStay(ss: seq<State>, acts: seq<Action>, i: nat)
    requires Runs(ss, acts) && i <= |acts|
    ensures ss[i].workers == ss[0].workers
  {
    if i > 0 {
      WorkersStay(ss, acts, i - 1);
    }
  }

  lemma {:induction false} FirstInLine(jobs: Jobs, id: nat) returns (first: nat)
    requires id in jobs && jobs[id].phase.Queued?
    ensures first in jobs && jobs[first].phase.Queued? && NextInLine(jobs, first) && first <= id
  {
    first := id;
    if i :| i in jobs && jobs[i].phase.Queued? && i < id {
      first := FirstInLine(jobs, i);
    }
  }

  // ----- locks that hold readers back

  /** The thread waits to write to `l`. */
  ghost predicate WaitsToWrite(s: State, t: Thread, l: Lock) {
    Alive(s, t) && StandOf(s, t).wants == Some(Write(l))
  }

  /** Granted by a lock that lets no reader in while a writer waits. */
  ghost predicate Admitted(s: State, t: Thread)
    requires Alive(s, t)
  {
    && Granted(s, t)
    && forall l, u | StandOf(s, t).wants == Some(Read(l)) && u != t :: !WaitsToWrite(s, u, l)
  }

  /** A thread that holds a lock, or waits to write, is let in or waits for one that is. */
  lemma WriterOrHolder(s: State, t: Thread) returns (u: Thread)
    requires Unfinished(s, t)
    requires StandOf(s, t).wants.None? || StandOf(s, t).wants.value.write
    ensures Unfinished(s, u) && Admitted(s, u) && (u == t || StandOf(s, u).holds != {})
  {
    u := t;
    if !Granted(s, t) {
      var v, x :| Alive(s, v) && v != t && x in StandOf(s, v).holds && Clash(x, StandOf(s, t).wants.value);
      NestedWait(s, v);
      u := v;
      if !Granted(s, v) {
        var w, y :| Alive(s, w) && w != v && y in StandOf(s, w).holds && Clash(y, StandOf(s, v).wants.value);
        NestedWait(s, w);
        u := w;
      }
    }
  }

  /**
   The same with locks that hold readers back behind a waiting writer: the thread can step, or
   one that holds a lock or waits to write can.
   */
  lemma NoDeadlockPreferringWriters(s: State, t: Thread) returns (u: Thread, a: Action)
    requires Reachable(s) && Unfinished(s, t)
    ensures Enabled(s, a) && Actor(a) == Some(u) && Alive(s, u) && Admitted(s, u)
    ensures u == t || StandOf(s, u).holds != {} || exists l :: WaitsToWrite(s, u, l)
  {
    ReachableInv(s);
    var wants := StandOf(s, t).wants;
    if wants.None? || wants.value.write {
      u := WriterOrHolder(s, t);
    } else if !Granted(s, t) {
      var v, x :| Alive(s, v) && v != t && x in StandOf(s, v).holds && Clash(x, wants.value);
      NestedWait(s, v);
      u := WriterOrHolder(s, v);
    } else if v :| v != t && WaitsToWrite(s, v, wants.value.lock) {
      WriterUnfinished(s, v, wants.value.lock);
      u := WriterOrHolder(s, v);
    } else {
      u := t;
    }
    a := GrantedCanStep(s, u);
  }

  lemma WriterUnfinished(s: State, t: Thread, l: Lock)
    requires WaitsToWrite(s, t, l)
    ensures Unfinished(s, t)
  {
  }
}
