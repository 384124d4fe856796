/** What holds in every state the event server can reach, whatever the interleaving. */
module AsyncSafety {
  import opened Wrappers
  import opened AsyncServer

  // ----- at most one run per key

  /** The key the dispatcher has marked as running and not yet submitted. */
  function Claimed(d: Dispatcher): Option<Key> {
    if d.WantTake? || d.Taking? || d.Submitting? then Some(d.key) else None
  }

  /** The key the dispatcher has found not running and is about to mark. */
  function Claiming(d: Dispatcher): Option<Key> {
    if d.WantMark? || d.Marking? then Some(d.key) else None
  }

  ghost predicate HasJob(jobs: Jobs, k: Key) {
    exists i | i in jobs :: jobs[i].key == k
  }

  /**
   Runs in flight have distinct keys, and a key is marked as running exactly when it has a
   run in flight or the dispatcher is about to submit one.
   */
  ghost predicate Exclusive(jobs: Jobs, running: set<Key>, d: Dispatcher) {
    && (forall i, j | i in jobs && j in jobs && i != j :: jobs[i].key != jobs[j].key)
    && (forall i | i in jobs :: jobs[i].key in running && Claimed(d) != Some(jobs[i].key))
    && (forall k | k in running :: HasJob(jobs, k) || Claimed(d) == Some(k))
    && (Claimed(d).Some? ==> Claimed(d).value in running)
    && (Claiming(d).Some? ==> Claiming(d).value !in running)
  }

  /** A job changes phase and keeps its key. */
  lemma ExclusivePhase(jobs: Jobs, running: set<Key>, d: Dispatcher, id: nat, p: Phase)
    requires Exclusive(jobs, running, d) && id in jobs
    ensures Exclusive(jobs[id := jobs[id].(phase := p)], running, d)
  {
    var after := jobs[id := jobs[id].(phase := p)];
    forall k | k in running
      ensures HasJob(after, k) || Claimed(d) == Some(k)
    {
      if HasJob(jobs, k) {
        var i :| i in jobs && jobs[i].key == k;
        assert after[i].key == k;
      }
    }
  }

  lemma ExclusiveLeave(jobs: Jobs, running: set<Key>, d: Dispatcher, id: nat)
    requires Exclusive(jobs, running, d) && id in jobs
    ensures Exclusive(jobs - {id}, running - {jobs[id].key}, d)
  {
    var after := jobs - {id};
    forall k | k in running && k != jobs[id].key
      ensures HasJob(after, k) || Claimed(d) == Some(k)
    {
      if HasJob(jobs, k) {
        var i :| i in jobs && jobs[i].key == k;
        assert after[i].key == k;
      }
    }
  }

  lemma ExclusiveSubmit(jobs: Jobs, running: set<Key>, d: Dispatcher, job: nat)
    requires Exclusive(jobs, running, d) && d.Submitting? && job !in jobs
    ensures Exclusive(jobs[job := Job(d.key, d.event, Queued)], running, Loop(d.rest))
  {
    var after := jobs[job := Job(d.key, d.event, Queued)];
    assert after[job].key == d.key;
    forall k | k in running
      ensures HasJob(after, k)
    {
      if k != d.key {
        var i :| i in jobs && jobs[i].key == k;
        assert after[i].key == k;
      }
    }
  }

  lemma ExclusiveDispatcher(s: State, events: Events, job: nat)
    requires Exclusive(s.jobs, s.running, s.dispatcher) && (s.dispatcher.Submitting? ==> job !in s.jobs)
    ensures
      var t := StepDispatcher(s, events, job);
      Exclusive(t.jobs, t.running, t.dispatcher)
  {
    if s.dispatcher.Submitting? {
      ExclusiveSubmit(s.jobs, s.running, s.dispatcher, job);
    }
  }

  lemma ExclusiveWorker(s: State, id: nat, outcome: Outcome, cycles: nat)
    requires Exclusive(s.jobs, s.running, s.dispatcher) && id in s.jobs
    ensures
      var t := StepWorker(s, id, outcome, cycles);
      Exclusive(t.jobs, t.running, t.dispatcher)
  {
    var t := StepWorker(s, id, outcome, cycles);
    if s.jobs[id].phase.Leaving? {
      ExclusiveLeave(s.jobs, s.running, s.dispatcher, id);
    } else {
      ExclusivePhase(s.jobs, s.running, s.dispatcher, id, t.jobs[id].phase);
    }
  }

  lemma ExclusiveStep(s: State, a: Action)
    requires Exclusive(s.jobs, s.running, s.dispatcher) && Enabled(s, a)
    ensures
      var t := Apply(s, a);
      Exclusive(t.jobs, t.running, t.dispatcher)
  {
    match a
    case DispatcherStep(events, job) => ExclusiveDispatcher(s, events, job);
    case WorkerStep(id, outcome, cycles) => ExclusiveWorker(s, id, outcome, cycles);
    case _ =>
  }

  // ----- only registered events run

  predicate NeedsKey(c: Call) {
    match c
    case ScheduleWantRetry(has) => has
    case ScheduleInRetry(has) => has
    case ScheduleWantDispatch => false
    case ScheduleInDispatch => false
    case RegisterWantDispatch(_) => false
    case RegisterInDispatch(_) => false
    case _ => true
  }

  /** The events the dispatcher still holds. */
  function Held(d: Dispatcher): Events {
    if d.Idle? || d.Counting? || d.WantEvents? || d.Picking? || d.Exited? then []
    else if d.Loop? then d.rest
    else [(d.key, d.event)] + d.rest
  }

  /** Every key that is scheduled, held by the dispatcher or running is registered. */
  ghost predicate Registered(s: State) {
    && (forall k | k in s.retry :: k in s.dispatch)
    && (forall e | e in Held(s.dispatcher) :: e.0 in s.dispatch)
    && (forall i | i in s.jobs :: s.jobs[i].key in s.dispatch)
    && (forall i | i in s.clients && NeedsKey(s.clients[i].call) :: s.clients[i].key in s.dispatch)
  }

  lemma HeldNext(d: Dispatcher, stop: bool, room: nat, running: set<Key>, events: Events)
    ensures forall e | e in Held(NextDispatcher(d, stop, room, running, events)) ::
              e in Held(d) || (d.Picking? && e in events)
  {
    if d.Loop? && d.rest != [] {
      assert d.rest == [(d.rest[0].0, d.rest[0].1)] + d.rest[1..];
    }
  }

  lemma RegisteredDispatcher(s: State, events: Events, job: nat)
    requires Registered(s) && (s.dispatcher.Picking? ==> Due(s, events, s.dispatcher.room))
    ensures Registered(StepDispatcher(s, events, job))
  {
    var d := s.dispatcher;
    HeldNext(d, s.stop, Room(s.workers, s.jobs), s.running, events);
    if d.Submitting? {
      assert (d.key, d.event) in Held(d);
    }
  }

  lemma RegisteredClient(s: State, id: nat)
    requires Registered(s) && id in s.clients
    ensures s.clients[id].call.ScheduleInFunction? ==> s.clients[id].key in s.dispatch
    ensures Registered(StepClient(s, id))
  {
  }

  lemma RegisteredStep(s: State, a: Action)
    requires Registered(s) && Enabled(s, a)
    ensures Registered(Apply(s, a))
  {
    match a
    case DispatcherStep(events, job) => RegisteredDispatcher(s, events, job);
    case WorkerStep(id, _, _) =>
    case ClientStep(id) => RegisteredClient(s, id);
    case _ =>
  }

  // ----- no pending event is dropped

  /**
   What is scheduled is pending, a pending key is scheduled or running, and a run that is on
   its way out leaves it scheduled.
   */
  ghost predicate Kept(s: State) {
    && (forall k | k in s.retry :: k in s.pending)
    && (forall k | k in s.pending :: k in s.retry || k in s.running)
    && (forall i | i in s.jobs && (s.jobs[i].phase.WantLeave? || s.jobs[i].phase.Leaving?) ::
          s.jobs[i].key in s.pending ==> s.jobs[i].key in s.retry)
  }

  lemma KeptDispatcher(s: State, events: Events, job: nat)
    requires Exclusive(s.jobs, s.running, s.dispatcher) && Kept(s)
    ensures Kept(StepDispatcher(s, events, job))
  {
  }

  lemma KeptWorker(s: State, id: nat, outcome: Outcome, cycles: nat)
    requires Exclusive(s.jobs, s.running, s.dispatcher) && Kept(s) && id in s.jobs
    ensures Kept(StepWorker(s, id, outcome, cycles))
  {
  }

  lemma KeptStep(s: State, a: Action)
    requires Exclusive(s.jobs, s.running, s.dispatcher) && Kept(s) && Enabled(s, a)
    ensures Kept(Apply(s, a))
  {
    match a
    case DispatcherStep(events, job) => KeptDispatcher(s, events, job);
    case WorkerStep(id, outcome, cycles) => KeptWorker(s, id, outcome, cycles);
    case _ =>
  }

  // ----- an owed run is never lost

  ghost predicate HasQueued(jobs: Jobs, k: Key) {
    exists i | i in jobs :: jobs[i].key == k && jobs[i].phase.Queued?
  }

  /** A key owed a run is scheduled, or on its way to the workers, and nothing will erase it. */
  ghost predicate Honoured(s: State) {
    forall k | k in s.owed ::
      !MayErase(s.jobs, k) && (k in s.retry || Claimed(s.dispatcher) == Some(k) || HasQueued(s.jobs, k))
  }

  /** A job that changes phase has no say in the jobs of other keys. */
  lemma OtherKeys(jobs: Jobs, id: nat, p: Phase, k: Key)
    requires id in jobs && jobs[id].key != k
    ensures MayErase(jobs[id := jobs[id].(phase := p)], k) == MayErase(jobs, k) == MayErase(jobs - {id}, k)
    ensures HasQueued(jobs[id := jobs[id].(phase := p)], k) == HasQueued(jobs, k) == HasQueued(jobs - {id}, k)
  {
    var changed, fewer := jobs[id := jobs[id].(phase := p)], jobs - {id};
    assert forall i | i in jobs && i != id :: changed[i] == jobs[i] && fewer[i] == jobs[i];
    if i :| i in jobs && jobs[i].key == k && Erasing(jobs[i].phase) {
      assert changed[i] == fewer[i] == jobs[i];
    }
    if i :| i in jobs && jobs[i].key == k && jobs[i].phase.Queued? {
      assert changed[i] == fewer[i] == jobs[i];
    }
  }

  /** With one job per key, that job alone decides. */
  lemma OwnKey(jobs: Jobs, id: nat, k: Key)
    requires id in jobs && jobs[id].key == k
    requires forall i, j | i in jobs && j in jobs && i != j :: jobs[i].key != jobs[j].key
    ensures MayErase(jobs, k) == Erasing(jobs[id].phase)
    ensures HasQueued(jobs, k) == jobs[id].phase.Queued?
    ensures !MayErase(jobs - {id}, k) && !HasQueued(jobs - {id}, k)
  {
  }

  lemma AddQueued(jobs: Jobs, job: nat, key: Key, event: Callback, k: Key)
    requires job !in jobs
    ensures MayErase(jobs[job := Job(key, event, Queued)], k) == MayErase(jobs, k)
    ensures HasQueued(jobs[job := Job(key, event, Queued)], k) == (HasQueued(jobs, k) || k == key)
  {
    var more := jobs[job := Job(key, event, Queued)];
    assert forall i | i in jobs :: more[i] == jobs[i];
    if i :| i in jobs && jobs[i].key == k && Erasing(jobs[i].phase) {
      assert more[i] == jobs[i];
    }
    if i :| i in jobs && jobs[i].key == k && jobs[i].phase.Queued? {
      assert more[i] == jobs[i];
    }
    assert more[job].key == key;
  }

  lemma HonouredDispatcher(s: State, events: Events, job: nat)
    requires Honoured(s) && (s.dispatcher.Submitting? ==> job !in s.jobs)
    ensures Honoured(StepDispatcher(s, events, job))
  {
    var d := s.dispatcher;
    forall k | k in s.owed && d.Submitting?
      ensures
        var jobs := s.jobs[job := Job(d.key, d.event, Queued)];
        MayErase(jobs, k) == MayErase(s.jobs, k) && HasQueued(jobs, k) == (HasQueued(s.jobs, k) || k == d.key)
    {
      AddQueued(s.jobs, job, d.key, d.event, k);
    }
  }

  lemma HonouredWorker(s: State, id: nat, outcome: Outcome, cycles: nat)
    requires Exclusive(s.jobs, s.running, s.dispatcher) && Honoured(s) && id in s.jobs
    ensures Honoured(StepWorker(s, id, outcome, cycles))
  {
    var t := StepWorker(s, id, outcome, cycles);
    forall k | k in t.owed
      ensures !MayErase(t.jobs, k) && (k in t.retry || Claimed(t.dispatcher) == Some(k) || HasQueued(t.jobs, k))
    {
      HonouredKey(s, id, outcome, cycles, k);
    }
  }

  lemma HonouredOwnKey(s: State, id: nat, outcome: Outcome, cycles: nat)
    requires Exclusive(s.jobs, s.running, s.dispatcher) && Honoured(s) && id in s.jobs
    requires s.jobs[id].key in StepWorker(s, id, outcome, cycles).owed
    ensures
      var k, t := s.jobs[id].key, StepWorker(s, id, outcome, cycles);
      !MayErase(t.jobs, k) && (k in t.retry || Claimed(t.dispatcher) == Some(k) || HasQueued(t.jobs, k))
  {
    var k, t := s.jobs[id].key, StepWorker(s, id, outcome, cycles);
    OwnKey(s.jobs, id, k);
    if id in t.jobs {
      ExclusiveWorker(s, id, outcome, cycles);
      OwnKey(t.jobs, id, k);
    }
  }

  lemma HonouredKey(s: State, id: nat, outcome: Outcome, cycles: nat, k: Key)
    requires Exclusive(s.jobs, s.running, s.dispatcher) && Honoured(s) && id in s.jobs
    requires k in StepWorker(s, id, outcome, cycles).owed
    ensures
      var t := StepWorker(s, id, outcome, cycles);
      !MayErase(t.jobs, k) && (k in t.retry || Claimed(t.dispatcher) == Some(k) || HasQueued(t.jobs, k))
  {
    var t := StepWorker(s, id, outcome, cycles);
    if s.jobs[id].key == k {
      HonouredOwnKey(s, id, outcome, cycles);
    } else if id in t.jobs {
      OtherKeys(s.jobs, id, t.jobs[id].phase, k);
    } else {
      OtherKeys(s.jobs, id, Queued, k);
    }
  }

  lemma HonouredStep(s: State, a: Action)
    requires Exclusive(s.jobs, s.running, s.dispatcher) && Honoured(s) && Enabled(s, a)
    ensures Honoured(Apply(s, a))
  {
    match a
    case DispatcherStep(events, job) => HonouredDispatcher(s, events, job);
    case WorkerStep(id, outcome, cycles) => HonouredWorker(s, id, outcome, cycles);
    case _ =>
  }

  // ----- failure counts

  /** The outcomes of `k` other than finishing since it last finished. */
  function FailuresSince(outcomes: seq<(Key, bool)>, k: Key): nat {
    if outcomes == [] then 0
    else
      var front, last := outcomes[..|outcomes| - 1], outcomes[|outcomes| - 1];
      if last.0 != k then FailuresSince(front, k)
      else if last.1 then 0
      else 1 + FailuresSince(front, k)
  }

  ghost predicate CountsMatch(failures: map<Key, nat>, outcomes: seq<(Key, bool)>) {
    && (forall k :: FailureCount(failures, k) == FailuresSince(outcomes, k))
    && (forall k | k in failures :: failures[k] > 0)
  }

  ghost predicate PhaseMatches(j: Job, outcomes: seq<(Key, bool)>) {
    && (j.phase.FailedCounted? ==> j.phase.failures == FailuresSince(outcomes, j.key))
    && (j.phase.Panicked? ==> FailuresSince(outcomes, j.key) >= 64)
  }

  ghost predicate PhasesMatch(jobs: Jobs, outcomes: seq<(Key, bool)>) {
    forall i | i in jobs :: PhaseMatches(jobs[i], outcomes)
  }

  /** The recorded counts are the failures since finishing, and only 64 of them make a worker panic. */
  ghost predicate Counted(s: State) {
    CountsMatch(s.failures, s.outcomes) && PhasesMatch(s.jobs, s.outcomes)
  }

  lemma Record(outcomes: seq<(Key, bool)>, k: Key, finished: bool)
    ensures forall l | l != k :: FailuresSince(outcomes + [(k, finished)], l) == FailuresSince(outcomes, l)
    ensures FailuresSince(outcomes + [(k, finished)], k) == if finished then 0 else 1 + FailuresSince(outcomes, k)
  {
    assert (outcomes + [(k, finished)])[..|outcomes|] == outcomes;
  }

  lemma CountsWorker(s: State, id: nat, outcome: Outcome, cycles: nat)
    requires CountsMatch(s.failures, s.outcomes) && id in s.jobs
    ensures
      var t := StepWorker(s, id, outcome, cycles);
      CountsMatch(t.failures, t.outcomes)
  {
    Record(s.outcomes, s.jobs[id].key, s.jobs[id].phase.FinishedRemoving?);
  }

  lemma OwnPhase(s: State, id: nat, outcome: Outcome, cycles: nat)
    requires Counted(s) && id in s.jobs && !s.jobs[id].phase.Leaving?
    ensures
      var t := StepWorker(s, id, outcome, cycles);
      PhaseMatches(t.jobs[id], t.outcomes)
  {
    var k := s.jobs[id].key;
    Record(s.outcomes, k, s.jobs[id].phase.FinishedRemoving?);
    assert PhaseMatches(s.jobs[id], s.outcomes);
  }

  lemma PhasesWorker(s: State, id: nat, outcome: Outcome, cycles: nat)
    requires Exclusive(s.jobs, s.running, s.dispatcher) && Counted(s) && id in s.jobs
    ensures
      var t := StepWorker(s, id, outcome, cycles);
      PhasesMatch(t.jobs, t.outcomes)
  {
    var k, t := s.jobs[id].key, StepWorker(s, id, outcome, cycles);
    forall i | i in t.jobs
      ensures PhaseMatches(t.jobs[i], t.outcomes)
    {
      if i == id {
        OwnPhase(s, id, outcome, cycles);
      } else {
        assert t.jobs[i] == s.jobs[i] && s.jobs[i].key != k;
        Record(s.outcomes, k, s.jobs[id].phase.FinishedRemoving?);
      }
    }
  }

  lemma CountedStep(s: State, a: Action)
    requires Exclusive(s.jobs, s.running, s.dispatcher) && Counted(s) && Enabled(s, a)
    ensures Counted(Apply(s, a))
  {
    match a
    case WorkerStep(id, outcome, cycles) =>
      CountsWorker(s, id, outcome, cycles);
      PhasesWorker(s, id, outcome, cycles);
    case _ =>
  }
}
