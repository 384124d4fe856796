/** Continuations of a run of the event server, put together from threads that run on their own. */
module AsyncRuns {
  import opened Wrappers
  import opened Backoff
  import opened AsyncServer
  import opened AsyncSafety
  import opened AsyncTheorems
  import opened AsyncLocks

  // ----- continuations

  /**
   What a continuation keeps to: no run of the keys in `quiet` starts, and if it is prompt the
   dispatcher picks as many due events as there is room for.
   */
  datatype Manner = Manner(quiet: set<Key>, prompt: bool)

  const FREELY := Manner({}, false)
  const PROMPTLY := Manner({}, true)

  function Sparing(k: Key): Manner {
    Manner({k}, false)
  }

  ghost function DueKeys(s: State): set<Key> {
    set k | k in s.retry && s.retry[k].0 <= s.clock
  }

  ghost predicate Prompt(s: State, a: Action) {
    a.DispatcherStep? && s.dispatcher.Picking? ==>
      |a.events| == if s.dispatcher.room < |DueKeys(s)| then s.dispatcher.room else |DueKeys(s)|
  }

  ghost predicate Fits(s: State, a: Action, how: Manner) {
    (forall k | k in how.quiet :: !Starts(s, a, k)) && (how.prompt ==> Prompt(s, a))
  }

  /** A run from `s` to `t` that keeps to `how`. */
  ghost predicate Route(ss: seq<State>, acts: seq<Action>, s: State, t: State, how: Manner) {
    && Runs(ss, acts) && ss[0] == s && ss[|acts|] == t
    && forall m | 0 <= m < |acts| :: Fits(ss[m], acts[m], how)
  }

  ghost predicate Leads(s: State, t: State, how: Manner) {
    exists ss, acts :: Route(ss, acts, s, t, how)
  }

  lemma LeadsSelf(s: State, how: Manner)
    ensures Leads(s, s, how)
  {
    assert Route([s], [], s, s, how);
  }

  lemma LeadsStep(s: State, a: Action, how: Manner)
    requires Enabled(s, a) && Fits(s, a, how)
    ensures Leads(s, Apply(s, a), how)
  {
    assert Route([s, Apply(s, a)], [a], s, Apply(s, a), how);
  }

  lemma JoinRuns(ss: seq<State>, acts: seq<Action>, ts: seq<State>, more: seq<Action>)
    requires Runs(ss, acts) && Runs(ts, more) && ss[|acts|] == ts[0]
    ensures Runs(ss + ts[1..], acts + more)
    ensures forall m | 0 <= m <= |acts| :: (ss + ts[1..])[m] == ss[m]
    ensures forall m | 0 <= m <= |more| :: (ss + ts[1..])[|acts| + m] == ts[m]
  {
    var all := ss + ts[1..];
    assert forall m | 0 <= m <= |acts| :: all[m] == ss[m];
    assert forall m | 0 <= m <= |more| :: all[|acts| + m] == ts[m];
    forall i | 0 <= i < |acts + more|
      ensures Enabled(all[i], (acts + more)[i]) && all[i + 1] == Apply(all[i], (acts + more)[i])
    {
      if i >= |acts| {
        assert all[|acts| + (i - |acts|)] == ts[i - |acts|];
        assert all[|acts| + (i - |acts| + 1)] == ts[i - |acts| + 1];
      }
    }
  }

  lemma FirstStep(s: State, a: Action, ss: seq<State>, acts: seq<Action>)
    requires Enabled(s, a) && Runs(ss, acts) && ss[0] == Apply(s, a)
    ensures Runs([s] + ss, [a] + acts)
  {
    var all, more := [s] + ss, [a] + acts;
    forall i | 0 <= i < |more|
      ensures Enabled(all[i], more[i]) && all[i + 1] == Apply(all[i], more[i])
    {
      if i > 0 {
        assert all[i] == ss[i - 1] && all[i + 1] == ss[i] && more[i] == acts[i - 1];
      }
    }
  }

  lemma LeadsTrans(s: State, t: State, u: State, how: Manner)
    requires Leads(s, t, how) && Leads(t, u, how)
    ensures Leads(s, u, how)
  {
    var ss, acts :| Route(ss, acts, s, t, how);
    var ts, more :| Route(ts, more, t, u, how);
    JoinRuns(ss, acts, ts, more);
    var all, acts' := ss + ts[1..], acts + more;
    forall m | 0 <= m < |acts'|
      ensures Fits(all[m], acts'[m], how)
    {
      if m >= |acts| {
        assert all[|acts| + (m - |acts|)] == ts[m - |acts|];
      }
    }
    assert Route(all, acts', s, u, how);
  }

  lemma Loosen(s: State, t: State, how: Manner)
    requires Leads(s, t, how)
    ensures Leads(s, t, how.(prompt := false))
  {
    var ss, acts :| Route(ss, acts, s, t, how);
    assert Route(ss, acts, s, t, how.(prompt := false));
  }

  /** What holds in every reachable state. */
  ghost predicate Sound(s: State) {
    Inv(s) && Exclusion(s) && s.workers > 0
  }

  lemma SoundStep(s: State, a: Action)
    requires Sound(s) && Enabled(s, a)
    ensures Sound(Apply(s, a))
  {
    StepInv(s, a);
    ExclusionStep(s, a);
  }

  lemma {:induction false} RunSound(ss: seq<State>, acts: seq<Action>, i: nat)
    requires Runs(ss, acts) && Sound(ss[0]) && i <= |acts|
    ensures Sound(ss[i])
  {
    if i > 0 {
      RunSound(ss, acts, i - 1);
      SoundStep(ss[i - 1], acts[i - 1]);
    }
  }

  lemma LeadsSound(s: State, t: State, how: Manner)
    requires Sound(s) && Leads(s, t, how)
    ensures Sound(t)
  {
    var ss, acts :| Route(ss, acts, s, t, how);
    RunSound(ss, acts, |acts|);
  }

  lemma ReachableSound(s: State)
    requires Reachable(s)
    ensures Sound(s)
  {
    var ss, acts :| Runs(ss, acts) && Init(ss[0]) && ss[|acts|] == s;
    RunInv(ss, acts, 0);
    RunSound(ss, acts, |acts|);
  }

  lemma ReachableLeads(s: State, t: State, how: Manner)
    requires Reachable(s) && Leads(s, t, how)
    ensures Reachable(t)
  {
    var ss, acts :| Runs(ss, acts) && Init(ss[0]) && ss[|acts|] == s;
    var ts, more :| Route(ts, more, s, t, how);
    JoinRuns(ss, acts, ts, more);
    assert (ss + ts[1..])[|acts| + |more|] == t && (ss + ts[1..])[0] == ss[0];
  }

  // ----- a thread that runs on its own

  const ALL := {DispatchLock, RetryLock, RunningLock, FailureLock}

  /** No thread but `t` holds any of the locks. */
  ghost predicate Free(s: State, t: Thread, locks: set<Lock>) {
    forall u, a | Alive(s, u) && u != t && a in StandOf(s, u).holds :: a.lock !in locks
  }

  lemma FreeGranted(s: State, t: Thread, locks: set<Lock>)
    requires Alive(s, t) && Free(s, t, locks)
    requires StandOf(s, t).wants.Some? ==> StandOf(s, t).wants.value.lock in locks
    ensures Granted(s, t)
  {
  }

  lemma FreeStep(s: State, a: Action, t: Thread, locks: set<Lock>)
    requires Free(s, t, locks) && Enabled(s, a) && (Actor(a).None? || Actor(a) == Some(t))
    ensures Free(Apply(s, a), t, locks)
  {
    var n := Apply(s, a);
    forall u, x | Alive(n, u) && u != t && x in StandOf(n, u).holds
      ensures x.lock !in locks
    {
      StepStands(s, a, u);
      assert Alive(s, u);
    }
  }

  lemma AllLocks(l: Lock)
    ensures l in ALL
  {
    match l
    case DispatchLock =>
    case RetryLock =>
    case RunningLock =>
    case FailureLock =>
  }

  /** No thread is inside a critical section. */
  ghost predicate Calm(s: State) {
    forall u | Alive(s, u) :: StandOf(s, u).holds == {}
  }

  lemma CalmFree(s: State, t: Thread)
    requires Calm(s)
    ensures Free(s, t, ALL)
  {
  }

  lemma FreeCalm(s: State, t: Thread)
    requires Free(s, t, ALL) && (Alive(s, t) ==> StandOf(s, t).holds == {})
    ensures Calm(s)
  {
    forall l: Lock
      ensures l in ALL
    {
      AllLocks(l);
    }
    forall u | Alive(s, u)
      ensures StandOf(s, u).holds == {}
    {
      assert u != t ==> forall a | a in StandOf(s, u).holds :: a.lock !in ALL;
    }
  }

  // ----- workers

  /** Steps left until a run that finishes has erased its key. */
  function Left(p: Phase): nat {
    match p
    case Executing => 4
    case FinishedWantRetry => 3
    case FinishedWantFailure => 2
    case FinishedRemoving => 1
    case _ => 0
  }

  lemma SoloWorkerStep(s: State, id: nat, outcome: Outcome, how: Manner, locks: set<Lock>) returns (t: State)
    requires id in s.jobs && Free(s, Worker(id), locks) && !Dead(s.jobs[id].phase)
    requires PhaseStand(s.jobs[id].phase).wants.Some? ==> PhaseStand(s.jobs[id].phase).wants.value.lock in locks
    requires s.jobs[id].phase.Queued? ==>
               s.jobs[id].key !in how.quiet && Room(s.workers, s.jobs) > 0 && NextInLine(s.jobs, id)
    ensures t == StepWorker(s, id, outcome, 0) && Leads(s, t, how) && Free(t, Worker(id), locks)
  {
    var a := WorkerStep(id, outcome, 0);
    FreeGranted(s, Worker(id), locks);
    LeadsStep(s, a, how);
    FreeStep(s, a, Worker(id), locks);
    t := Apply(s, a);
  }

  /**
   A run that may erase its key can go on to do so by its own steps, without any new run, as
   long as nobody else holds the two locks it needs.
   */
  lemma {:induction false} EraseRun(s: State, id: nat, how: Manner) returns (t: State)
    requires id in s.jobs && Erasing(s.jobs[id].phase) && Free(s, Worker(id), {RetryLock, FailureLock})
    ensures Leads(s, t, how)
    ensures t.retry == s.retry - {s.jobs[id].key} && t.failures == s.failures - {s.jobs[id].key}
    ensures t.jobs == s.jobs[id := s.jobs[id].(phase := WantLeave)]
    ensures t.dispatch == s.dispatch && t.running == s.running && t.dispatcher == s.dispatcher
    ensures t.clients == s.clients && t.stop == s.stop && t.clock == s.clock
    ensures Free(t, Worker(id), {RetryLock, FailureLock})
    decreases Left(s.jobs[id].phase)
  {
    t := SoloWorkerStep(s, id, Finished, how, {RetryLock, FailureLock});
    if !s.jobs[id].phase.FinishedRemoving? {
      var n := t;
      t := EraseRun(n, id, how);
      LeadsTrans(s, n, t, how);
    }
  }

  /** The run is bound to panic, or has: its failures, `count` before it, leave nothing to draw from. */
  predicate Doomed(p: Phase, count: nat) {
    || Dead(p)
    || (p.FailedCounted? && !CanDraw(p.failures))
    || ((p.FailedWantCount? || p.FailedCounting?) && !CanDraw(count + 1))
  }

  function PhaseRank(p: Phase): nat {
    match p
    case Queued => 9
    case Executing => 8
    case FailedWantCount => 7
    case FailedCounting => 6
    case FailedCounted(_) => 5
    case FailedWantRetry(_) => 4
    case FailedInserting(_) => 3
    case FinishedWantRetry => 5
    case FinishedWantFailure => 4
    case FinishedRemoving => 3
    case WantLeave => 2
    case Leaving => 1
    case Panicked => 0
    case Crashed => 0
  }

  /** What one worker can do leaves the calls, the dispatcher and the counts of other keys alone. */
  ghost predicate Beside(s: State, t: State, k: Key) {
    && t.dispatch == s.dispatch && t.dispatcher == s.dispatcher && t.clients == s.clients
    && t.stop == s.stop && t.workers == s.workers
    && forall l | l != k :: FailureCount(t.failures, l) == FailureCount(s.failures, l)
  }

  lemma PhaseNext(p: Phase, count: nat, at: int)
    requires Working(p) && !p.Leaving?
    ensures
      var n := NextPhase(p, Finished, count + 1, at);
      && PhaseRank(n) < PhaseRank(p) && !n.FailedWantCount? && !n.Queued?
      && (!Doomed(p, count) ==> !Doomed(n, count) && (!n.FailedCounting? ==> forall c :: !Doomed(n, c)))
  {
  }

  /** A step of a worker that has a thread, field by field. */
  lemma WorkOn(s: State, id: nat, how: Manner) returns (t: State)
    requires id in s.jobs && Free(s, Worker(id), ALL) && Working(s.jobs[id].phase)
    ensures Leads(s, t, how) && Free(t, Worker(id), ALL) && Beside(s, t, s.jobs[id].key)
    ensures s.jobs[id].phase.Leaving? ==> t.jobs == s.jobs - {id}
    ensures !s.jobs[id].phase.Leaving? ==>
              var p, count := s.jobs[id].phase, FailureCount(s.failures, s.jobs[id].key);
              var n := NextPhase(p, Finished, count + 1, s.clock + Delay(0));
              && t.jobs == s.jobs[id := s.jobs[id].(phase := n)]
              && (n.FailedCounting? ==> FailureCount(t.failures, s.jobs[id].key) == count)
  {
    t := SoloWorkerStep(s, id, Finished, how, ALL);
  }

  lemma RetireStep(s: State, id: nat, how: Manner) returns (t: State)
    requires id in s.jobs && Free(s, Worker(id), ALL) && Working(s.jobs[id].phase)
    ensures Leads(s, t, how) && Free(t, Worker(id), ALL) && Beside(s, t, s.jobs[id].key)
    ensures t.jobs - {id} == s.jobs - {id}
    ensures id in t.jobs ==>
              && t.jobs[id].key == s.jobs[id].key && !t.jobs[id].phase.Queued?
              && PhaseRank(t.jobs[id].phase) < PhaseRank(s.jobs[id].phase)
              && (Doomed(t.jobs[id].phase, FailureCount(t.failures, t.jobs[id].key)) ==>
                    Doomed(s.jobs[id].phase, FailureCount(s.failures, s.jobs[id].key)))
  {
    var p, k := s.jobs[id].phase, s.jobs[id].key;
    if !p.Leaving? {
      PhaseNext(p, FailureCount(s.failures, k), s.clock + Delay(0));
    }
    t := WorkOn(s, id, how);
  }

  /** A run gives its thread back by its own steps; it is gone, or has panicked if it was bound to. */
  lemma {:induction false} Retire(s: State, id: nat, how: Manner) returns (t: State)
    requires id in s.jobs && Free(s, Worker(id), ALL) && Working(s.jobs[id].phase)
    ensures Leads(s, t, how) && Free(t, Worker(id), ALL) && Beside(s, t, s.jobs[id].key)
    ensures t.jobs - {id} == s.jobs - {id}
    ensures id in t.jobs ==>
              && t.jobs[id].key == s.jobs[id].key && Dead(t.jobs[id].phase)
              && Doomed(s.jobs[id].phase, FailureCount(s.failures, s.jobs[id].key))
    decreases PhaseRank(s.jobs[id].phase)
  {
    var n := RetireStep(s, id, how);
    t := n;
    if id in n.jobs && !Dead(n.jobs[id].phase) {
      t := Retire(n, id, how);
      LeadsTrans(s, n, t, how);
    }
  }

  // ----- the dispatcher

  lemma SoloDispatcherStep(s: State, events: Events, job: nat, how: Manner) returns (t: State)
    requires Free(s, TheDispatcher, ALL) && !s.dispatcher.Exited?
    requires s.dispatcher.Picking? ==>
               Due(s, events, s.dispatcher.room) && (how.prompt ==> Prompt(s, DispatcherStep(events, job)))
    requires s.dispatcher.Submitting? ==> forall i | i in s.jobs :: i < job
    ensures t == StepDispatcher(s, events, job) && Leads(s, t, how) && Free(t, TheDispatcher, ALL)
  {
    var a := DispatcherStep(events, job);
    FreeGranted(s, TheDispatcher, ALL);
    LeadsStep(s, a, how);
    FreeStep(s, a, TheDispatcher, ALL);
    t := Apply(s, a);
  }

  /** Handing out events leaves the calls, the counts and the clock alone. */
  ghost predicate Handed(s: State, t: State) {
    && t.dispatch == s.dispatch && t.clients == s.clients && t.stop == s.stop && t.failures == s.failures
    && t.clock == s.clock && t.outcomes == s.outcomes && t.workers == s.workers
  }

  /** The same step, field by field. */
  lemma Dispatch(s: State, events: Events, job: nat, how: Manner) returns (t: State)
    requires Free(s, TheDispatcher, ALL) && !s.dispatcher.Exited?
    requires s.dispatcher.Picking? ==>
               Due(s, events, s.dispatcher.room) && (how.prompt ==> Prompt(s, DispatcherStep(events, job)))
    requires s.dispatcher.Submitting? ==> forall i | i in s.jobs :: i < job
    ensures Leads(s, t, how) && Free(t, TheDispatcher, ALL) && Handed(s, t)
    ensures t.dispatcher == NextDispatcher(s.dispatcher, s.stop, Room(s.workers, s.jobs), s.running, events)
    ensures t.running == if s.dispatcher.Marking? then s.running + {s.dispatcher.key} else s.running
    ensures t.retry == if s.dispatcher.Taking? then s.retry - {s.dispatcher.key} else s.retry
    ensures t.jobs == if s.dispatcher.Submitting? then s.jobs[job := Job(s.dispatcher.key, s.dispatcher.event, Queued)]
                      else s.jobs
  {
    t := SoloDispatcherStep(s, events, job, how);
  }

  function Work(d: Dispatcher, workers: nat): nat {
    match d
    case Idle => 0
    case Counting => 8 * workers + 4
    case WantEvents(n) => 8 * n + 3
    case Picking(n) => 8 * n + 2
    case Loop(rest) => 8 * |rest| + 1
    case WantLook(_, _, rest) => 8 * |rest| + 8
    case Looking(_, _, rest) => 8 * |rest| + 7
    case WantMark(_, _, rest) => 8 * |rest| + 6
    case Marking(_, _, rest) => 8 * |rest| + 5
    case WantTake(_, _, rest) => 8 * |rest| + 4
    case Taking(_, _, rest) => 8 * |rest| + 3
    case Submitting(_, _, rest) => 8 * |rest| + 2
    case Exited => 0
  }

  /** The jobs of before are unchanged, and new ones are queued. */
  ghost predicate MoreQueued(before: Jobs, after: Jobs) {
    && (forall i | i in before :: i in after && after[i] == before[i])
    && (forall i | i in after && i !in before :: after[i].phase.Queued?)
  }

  /** Left to itself the dispatcher will submit a run of `k`. */
  ghost predicate Promised(d: Dispatcher, running: set<Key>, k: Key) {
    || Claimed(d) == Some(k) || Claiming(d) == Some(k)
    || (k !in running && exists e | e in Held(d) :: e.0 == k)
  }

  /** Some due events, as many as there is room for, and `k` among them if it is due. */
  lemma {:induction false} ChooseDue(s: State, keys: set<Key>, n: nat, k: Key) returns (events: Events)
    requires keys <= DueKeys(s)
    ensures Due(s, events, n) && |events| == if n < |keys| then n else |keys|
    ensures forall e | e in events :: e.0 in keys
    ensures k in keys && n > 0 ==> exists e | e in events :: e.0 == k
    decreases |keys|
  {
    events := [];
    if n > 0 && keys != {} {
      var l :| l in keys && (k in keys ==> l == k);
      var rest := ChooseDue(s, keys - {l}, n - 1, k);
      var e := (l, s.retry[l].1);
      events := [e] + rest;
      assert forall i | 0 < i < |events| :: events[i] == rest[i - 1] && events[i] in rest;
      assert e in events;
    }
  }

  lemma PromisedNext(d: Dispatcher, stop: bool, room: nat, running: set<Key>, events: Events, k: Key)
    requires Promised(d, running, k) && !d.Submitting?
    ensures
      var n := NextDispatcher(d, stop, room, running, events);
      Promised(n, if d.Marking? then running + {d.key} else running, k)
  {
    if d.Loop? && d.rest != [] {
      assert d.rest == [(d.rest[0].0, d.rest[0].1)] + d.rest[1..];
    }
  }

  lemma WorkNext(d: Dispatcher, workers: nat, stop: bool, room: nat, running: set<Key>, events: Events)
    requires !d.Exited? && !d.Idle? && room <= workers && (d.Picking? ==> |events| <= d.room)
    ensures
      var n := NextDispatcher(d, stop, room, running, events);
      !n.Exited? && Work(n, workers) < Work(d, workers)
  {
  }

  lemma RoundUpStep(s: State, k: Key, how: Manner) returns (t: State)
    requires Free(s, TheDispatcher, ALL) && !s.dispatcher.Exited? && !s.dispatcher.Idle?
    ensures Leads(s, t, how) && Free(t, TheDispatcher, ALL) && Handed(s, t) && MoreQueued(s.jobs, t.jobs)
    ensures !t.dispatcher.Exited? && Work(t.dispatcher, t.workers) < Work(s.dispatcher, s.workers)
    ensures Promised(s.dispatcher, s.running, k) ==>
              Promised(t.dispatcher, t.running, k) || HasQueued(t.jobs, k)
    ensures s.dispatcher.Picking? && s.dispatcher.room > 0 && k in DueKeys(s) && k !in s.running ==>
              Promised(t.dispatcher, t.running, k)
  {
    var job := FreshId(s.jobs.Keys);
    var n := if s.dispatcher.Picking? then s.dispatcher.room else 0;
    var events := ChooseDue(s, DueKeys(s), n, k);
    var d, room := s.dispatcher, Room(s.workers, s.jobs);
    WorkNext(d, s.workers, s.stop, room, s.running, events);
    t := Dispatch(s, events, job, how);
    if Promised(d, s.running, k) && !d.Submitting? {
      PromisedNext(d, s.stop, room, s.running, events, k);
    }
    if d.Submitting? {
      assert t.jobs[job] == Job(d.key, d.event, Queued);
      if d.key != k && Promised(d, s.running, k) {
        SubmittedPromise(d, s.running, k);
      }
    }
  }

  lemma SubmittedPromise(d: Dispatcher, running: set<Key>, k: Key)
    requires d.Submitting? && Promised(d, running, k) && d.key != k
    ensures Promised(Loop(d.rest), running, k)
  {
  }

  /** The dispatcher can deal with all it holds; then what it was to submit is queued. */
  lemma {:induction false} RoundUp(s: State, k: Key, how: Manner) returns (t: State)
    requires Free(s, TheDispatcher, ALL) && !s.dispatcher.Exited?
    ensures Leads(s, t, how) && t.dispatcher == Idle && Free(t, TheDispatcher, ALL) && Handed(s, t)
    ensures MoreQueued(s.jobs, t.jobs)
    ensures Promised(s.dispatcher, s.running, k) ==> HasQueued(t.jobs, k)
    decreases Work(s.dispatcher, s.workers)
  {
    if s.dispatcher.Idle? {
      t := s;
      LeadsSelf(s, how);
    } else {
      var n := RoundUpStep(s, k, how);
      t := RoundUp(n, k, how);
      LeadsTrans(s, n, t, how);
    }
  }

  /** An idle dispatcher that finds room can submit a due event that is not running. */
  lemma Submit(s: State, k: Key, how: Manner) returns (t: State)
    requires Free(s, TheDispatcher, ALL) && s.dispatcher == Idle && !s.stop && Room(s.workers, s.jobs) > 0
    requires k in DueKeys(s) && k !in s.running
    ensures Leads(s, t, how) && t.dispatcher == Idle && Free(t, TheDispatcher, ALL) && Handed(s, t)
    ensures MoreQueued(s.jobs, t.jobs) && HasQueued(t.jobs, k)
  {
    var a := GoPicking(s, how);
    var b := RoundUpStep(a, k, how);
    LeadsTrans(s, a, b, how);
    t := RoundUp(b, k, how);
    LeadsTrans(s, b, t, how);
  }

  lemma GoPicking(s: State, how: Manner) returns (t: State)
    requires Free(s, TheDispatcher, ALL) && s.dispatcher == Idle && !s.stop && Room(s.workers, s.jobs) > 0
    ensures Leads(s, t, how) && Free(t, TheDispatcher, ALL)
    ensures t == s.(dispatcher := Picking(Room(s.workers, s.jobs)))
  {
    var a := SoloDispatcherStep(s, [], 0, how);
    var b := SoloDispatcherStep(a, [], 0, how);
    t := SoloDispatcherStep(b, [], 0, how);
    LeadsTrans(s, a, b, how);
    LeadsTrans(s, b, t, how);
  }

  /** The dispatcher deals with the event `e` of `k`, and has nothing else to deal with. */
  predicate Delivering(d: Dispatcher, k: Key, e: Callback) {
    || d == Loop([(k, e)]) || d == WantLook(k, e, []) || d == Looking(k, e, [])
    || d == WantMark(k, e, []) || d == Marking(k, e, []) || d == WantTake(k, e, [])
    || d == Taking(k, e, []) || d == Submitting(k, e, [])
  }

  /** The dispatcher has yet to look whether the event is running. */
  predicate BeforeLook(d: Dispatcher) {
    d.Loop? || d.WantLook? || d.Looking?
  }

  lemma DeliverNext(d: Dispatcher, k: Key, e: Callback, stop: bool, room: nat, running: set<Key>)
    requires Delivering(d, k, e) && !d.Submitting? && (BeforeLook(d) ==> k !in running)
    ensures
      var n := NextDispatcher(d, stop, room, running, []);
      && Delivering(n, k, e) && Work(n, 0) < Work(d, 0)
      && (d.Taking? <==> n.Submitting?) && (BeforeLook(n) ==> BeforeLook(d))
  {
  }

  lemma DeliverStep(s: State, k: Key, e: Callback, how: Manner) returns (t: State)
    requires Free(s, TheDispatcher, ALL) && Delivering(s.dispatcher, k, e) && !s.dispatcher.Submitting?
    requires BeforeLook(s.dispatcher) ==> k !in s.running
    ensures Leads(s, t, how) && Free(t, TheDispatcher, ALL) && Handed(s, t) && t.jobs == s.jobs
    ensures t.retry == if t.dispatcher.Submitting? then s.retry - {k} else s.retry
    ensures Delivering(t.dispatcher, k, e) && Work(t.dispatcher, 0) < Work(s.dispatcher, 0)
    ensures BeforeLook(t.dispatcher) ==> k !in t.running
  {
    DeliverNext(s.dispatcher, k, e, s.stop, Room(s.workers, s.jobs), s.running);
    t := Dispatch(s, [], 0, how);
  }

  lemma {:induction false} Deliver(s: State, k: Key, e: Callback, job: nat, how: Manner) returns (t: State)
    requires Free(s, TheDispatcher, ALL) && Delivering(s.dispatcher, k, e) && forall i | i in s.jobs :: i < job
    requires BeforeLook(s.dispatcher) ==> k !in s.running
    ensures Leads(s, t, how) && Free(t, TheDispatcher, ALL) && Handed(s, t) && t.dispatcher == Loop([])
    ensures t.jobs == s.jobs[job := Job(k, e, Queued)]
    ensures t.retry == if s.dispatcher.Submitting? then s.retry else s.retry - {k}
    decreases Work(s.dispatcher, 0)
  {
    if s.dispatcher.Submitting? {
      t := Dispatch(s, [], job, how);
    } else {
      var n := DeliverStep(s, k, e, how);
      t := Deliver(n, k, e, job, how);
      LeadsTrans(s, n, t, how);
    }
  }

  /** An idle dispatcher can hand out the only due event. */
  lemma HandOut(s: State, k: Key, job: nat, how: Manner) returns (t: State)
    requires Free(s, TheDispatcher, ALL) && s.dispatcher == Idle && !s.stop && Room(s.workers, s.jobs) > 0
    requires (forall i | i in s.jobs :: i < job) && DueKeys(s) == {k} && k !in s.running
    ensures Leads(s, t, how) && Free(t, TheDispatcher, ALL) && Handed(s, t) && t.dispatcher == Loop([])
    ensures t.jobs == s.jobs[job := Job(k, s.retry[k].1, Queued)] && t.retry == s.retry - {k}
  {
    assert k in DueKeys(s);
    var e := s.retry[k].1;
    var a := GoPicking(s, how);
    assert Due(a, [(k, e)], a.dispatcher.room) && DueKeys(a) == {k};
    var b := Dispatch(a, [(k, e)], 0, how);
    LeadsTrans(s, a, b, how);
    t := Deliver(b, k, e, job, how);
    LeadsTrans(s, b, t, how);
  }

  /** A run that is next in line can be started when there is room. */
  lemma StartRun(s: State, id: nat, how: Manner) returns (t: State)
    requires Calm(s) && id in s.jobs && s.jobs[id].phase.Queued? && s.jobs[id].key !in how.quiet
    requires Room(s.workers, s.jobs) > 0 && NextInLine(s.jobs, id)
    ensures Leads(s, t, how) && Calm(t) && Handed(s, t) && t.dispatcher == s.dispatcher && t.retry == s.retry
    ensures t.jobs == s.jobs[id := s.jobs[id].(phase := Executing)]
  {
    CalmFree(s, Worker(id));
    t := SoloWorkerStep(s, id, Finished, how, ALL);
    FreeCalm(t, Worker(id));
  }

  /** With nothing else going on, the only due event is handed out and started. */
  lemma HandOutAndStart(s: State, k: Key, how: Manner) returns (t: State)
    requires Calm(s) && s.dispatcher == Idle && !s.stop && s.jobs == map[] && s.workers > 0
    requires DueKeys(s) == {k} && k !in s.running && k !in how.quiet
    ensures Leads(s, t, how) && Calm(t) && Handed(s, t) && t.dispatcher == Loop([]) && t.retry == s.retry - {k}
    ensures k in s.retry && t.jobs == map[0 := Job(k, s.retry[k].1, Executing)]
  {
    assert k in DueKeys(s);
    CalmFree(s, TheDispatcher);
    assert WorkingIds(s.jobs) == {};
    var n := HandOut(s, k, 0, how);
    FreeCalm(n, TheDispatcher);
    assert WorkingIds(n.jobs) == {};
    t := StartRun(n, 0, how);
    LeadsTrans(s, n, t, how);
  }

  // ----- calls

  lemma SoloClientStep(s: State, id: nat, how: Manner) returns (t: State)
    requires id in s.clients && Free(s, Caller(id), ALL)
    requires s.clients[id].call.ScheduleInFunction? ==> s.clients[id].key in s.dispatch
    ensures t == StepClient(s, id) && Leads(s, t, how) && Free(t, Caller(id), ALL)
  {
    var a := ClientStep(id);
    FreeGranted(s, Caller(id), ALL);
    LeadsStep(s, a, how);
    FreeStep(s, a, Caller(id), ALL);
    t := Apply(s, a);
  }

  predicate Inserting(c: Call) {
    c.ScheduleInserting? || c.RegisterInserting?
  }

  function CallRank(c: Call): nat {
    match c
    case ScheduleWantDispatch => 7
    case ScheduleInDispatch => 6
    case ScheduleWantRetry(_) => 5
    case ScheduleInRetry(_) => 4
    case ScheduleWantFunction => 3
    case ScheduleInFunction => 2
    case ScheduleWantInsert(_) => 1
    case ScheduleInserting(_) => 0
    case RegisterWantDispatch(_) => 3
    case RegisterInDispatch(_) => 2
    case RegisterWantRetry(_) => 1
    case RegisterInserting(_) => 0
  }

  /** The call is a registration, or will find its key registered and not scheduled. */
  predicate WillInsert(c: Call, registered: bool, scheduled: bool) {
    match c
    case ScheduleWantDispatch => registered && !scheduled
    case ScheduleInDispatch => registered && !scheduled
    case ScheduleWantRetry(has) => has && registered && !scheduled
    case ScheduleInRetry(has) => has && registered && !scheduled
    case ScheduleWantFunction => registered
    case ScheduleInFunction => registered
    case _ => true
  }

  predicate IsSchedule(c: Call) {
    !(c.RegisterWantDispatch? || c.RegisterInDispatch? || c.RegisterWantRetry? || c.RegisterInserting?)
  }

  /** Up to its insertion a call changes nothing but the registrations. */
  ghost predicate Untouched(s: State, t: State) {
    && t.retry == s.retry && t.jobs == s.jobs && t.running == s.running && t.failures == s.failures
    && t.dispatcher == s.dispatcher && t.stop == s.stop && t.clock == s.clock && t.outcomes == s.outcomes
    && s.dispatch.Keys <= t.dispatch.Keys && t.workers == s.workers
  }

  lemma CallUpStep(s: State, id: nat, how: Manner) returns (t: State)
    requires id in s.clients && Free(s, Caller(id), ALL) && !Inserting(s.clients[id].call)
    requires WillInsert(s.clients[id].call, s.clients[id].key in s.dispatch, s.clients[id].key in s.retry)
    ensures Leads(s, t, how) && Free(t, Caller(id), ALL) && Untouched(s, t)
    ensures id in t.clients && t.clients == s.clients[id := t.clients[id]]
    ensures t.clients[id].key == s.clients[id].key
    ensures WillInsert(t.clients[id].call, t.clients[id].key in t.dispatch, t.clients[id].key in t.retry)
    ensures IsSchedule(t.clients[id].call) == IsSchedule(s.clients[id].call)
    ensures CallRank(t.clients[id].call) < CallRank(s.clients[id].call)
  {
    t := SoloClientStep(s, id, how);
  }

  /** A call comes to the point where it puts its key up for running. */
  lemma {:induction false} CallUp(s: State, id: nat, how: Manner) returns (t: State)
    requires id in s.clients && Free(s, Caller(id), ALL)
    requires WillInsert(s.clients[id].call, s.clients[id].key in s.dispatch, s.clients[id].key in s.retry)
    ensures Leads(s, t, how) && Free(t, Caller(id), ALL) && Untouched(s, t)
    ensures id in t.clients && t.clients == s.clients[id := t.clients[id]]
    ensures t.clients[id].key == s.clients[id].key && Inserting(t.clients[id].call)
    ensures IsSchedule(t.clients[id].call) == IsSchedule(s.clients[id].call)
    decreases CallRank(s.clients[id].call)
  {
    t := s;
    if Inserting(s.clients[id].call) {
      LeadsSelf(s, how);
    } else {
      var n := CallUpStep(s, id, how);
      t := CallUp(n, id, how);
      LeadsTrans(s, n, t, how);
    }
  }

  /** From a calm state a new call comes to its insertion. */
  lemma NewCall(s: State, a: Action, how: Manner) returns (t: State)
    requires Calm(s) && (a.Schedule? || a.Register?) && a.id !in s.clients
    requires a.Schedule? ==> a.key in s.dispatch && a.key !in s.retry
    ensures Leads(s, t, how) && Free(t, Caller(a.id), ALL) && Untouched(s, t)
    ensures a.id in t.clients && t.clients == s.clients[a.id := t.clients[a.id]]
    ensures t.clients[a.id].key == a.key && Inserting(t.clients[a.id].call)
    ensures IsSchedule(t.clients[a.id].call) == a.Schedule?
  {
    var n := Apply(s, a);
    LeadsStep(s, a, how);
    CalmFree(s, Caller(a.id));
    FreeStep(s, a, Caller(a.id), ALL);
    t := CallUp(n, a.id, how);
    LeadsTrans(s, n, t, how);
  }

  /** The insertion itself. */
  lemma Insertion(s: State, id: nat, how: Manner) returns (t: State)
    requires id in s.clients && Free(s, Caller(id), ALL) && Inserting(s.clients[id].call)
    ensures Enabled(s, ClientStep(id)) && t == Apply(s, ClientStep(id)) && Inserts(s, ClientStep(id), s.clients[id].key)
    ensures Leads(s, t, how) && Calm(t) && t.clients == s.clients - {id}
    ensures t.retry == s.retry[s.clients[id].key := (s.clock, s.clients[id].call.callback)]
    ensures Untouched(s.(retry := t.retry), t)
  {
    FreeGranted(s, Caller(id), ALL);
    t := SoloClientStep(s, id, how);
    FreeCalm(t, Caller(id));
  }
}
