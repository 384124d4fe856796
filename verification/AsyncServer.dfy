/**
 The server that runs registered events and retries the ones that fail, as a state machine
 whose steps are the acquisition of a lock and the critical section that follows it.  One
 dispatcher hands events to a pool of workers while clients register and schedule them.
 */
module AsyncServer {
  import opened Wrappers
  import opened Bits
  import opened Backoff

  type Key = string
  type Callback = nat

  /** What comes of a step of a worker: of connecting to the router, and of the event itself. */
  datatype Outcome = Finished | Retry | Failed | Panics

  datatype Lock = DispatchLock | RetryLock | RunningLock | FailureLock

  datatype Access = Access(lock: Lock, write: bool)

  /** A program point: the accesses it holds, and the one it waits for. */
  datatype Stand = Stand(holds: set<Access>, wants: Option<Access>)

  function Read(l: Lock): Access { Access(l, false) }

  function Write(l: Lock): Access { Access(l, true) }

  function Waiting(a: Access): Stand { Stand({}, Some(a)) }

  function Inside(a: Access): Stand { Stand({a}, None) }

  const FREE := Stand({}, None)

  type Events = seq<(Key, Callback)>

  /** Where the dispatcher is; `key` and `event` are the ones it deals with, `rest` come later. */
  datatype Dispatcher =
    | Idle
    | Counting
    | WantEvents(room: nat)
    | Picking(room: nat)
    | Loop(rest: Events)
    | WantLook(key: Key, event: Callback, rest: Events)
    | Looking(key: Key, event: Callback, rest: Events)
    | WantMark(key: Key, event: Callback, rest: Events)
    | Marking(key: Key, event: Callback, rest: Events)
    | WantTake(key: Key, event: Callback, rest: Events)
    | Taking(key: Key, event: Callback, rest: Events)
    | Submitting(key: Key, event: Callback, rest: Events)
    | Exited

  /** Where a submitted run of an event is. */
  datatype Phase =
    | Queued
    | Executing
    | FinishedWantRetry
    | FinishedWantFailure
    | FinishedRemoving
    | FailedWantCount
    | FailedCounting
    | FailedCounted(failures: nat)
    | FailedWantRetry(at: int)
    | FailedInserting(at: int)
    | WantLeave
    | Leaving
    | Panicked
    | Crashed

  /** The worker has panicked, when drawing a delay, connecting or in its event. */
  predicate Dead(p: Phase) {
    p.Panicked? || p.Crashed?
  }

  datatype Job = Job(key: Key, event: Callback, phase: Phase)

  /** Where a call of `schedule` or `register` is. */
  datatype Call =
    | ScheduleWantDispatch
    | ScheduleInDispatch
    | ScheduleWantRetry(hasKey: bool)
    | ScheduleInRetry(hasKey: bool)
    | ScheduleWantFunction
    | ScheduleInFunction
    | ScheduleWantInsert(callback: Callback)
    | ScheduleInserting(callback: Callback)
    | RegisterWantDispatch(callback: Callback)
    | RegisterInDispatch(callback: Callback)
    | RegisterWantRetry(callback: Callback)
    | RegisterInserting(callback: Callback)

  datatype Client = Client(key: Key, call: Call)

  /**
   The shared collections, the threads, and what happened so far: the outcomes in the order
   they were recorded, the keys whose event was put up for running and has not finished since
   (`pending`), and those owed a run that has yet to start (`owed`).  The pool has `workers`
   threads; runs are numbered in the order of their submission.
   */
  datatype State = State(
    dispatch: map<Key, Callback>,
    retry: map<Key, (int, Callback)>,
    running: set<Key>,
    failures: map<Key, nat>,
    clock: int,
    stop: bool,
    dispatcher: Dispatcher,
    jobs: map<nat, Job>,
    clients: map<nat, Client>,
    outcomes: seq<(Key, bool)>,
    pending: set<Key>,
    owed: set<Key>,
    workers: nat)

  ghost predicate Init(s: State) {
    && s.dispatch == map[] && s.retry == map[] && s.running == {} && s.failures == map[]
    && !s.stop && s.dispatcher == Idle && s.jobs == map[] && s.clients == map[]
    && s.outcomes == [] && s.pending == {} && s.owed == {} && s.workers > 0
  }

  // ----- locks

  function DispatcherStand(d: Dispatcher): Stand {
    match d
    case WantEvents(_) => Waiting(Read(RetryLock))
    case Picking(_) => Inside(Read(RetryLock))
    case WantLook(_, _, _) => Waiting(Read(RunningLock))
    case Looking(_, _, _) => Inside(Read(RunningLock))
    case WantMark(_, _, _) => Waiting(Write(RunningLock))
    case Marking(_, _, _) => Inside(Write(RunningLock))
    case WantTake(_, _, _) => Waiting(Write(RetryLock))
    case Taking(_, _, _) => Inside(Write(RetryLock))
    case _ => FREE
  }

  function PhaseStand(p: Phase): Stand {
    match p
    case FinishedWantRetry => Waiting(Write(RetryLock))
    case FinishedWantFailure => Stand({Write(RetryLock)}, Some(Write(FailureLock)))
    case FinishedRemoving => Stand({Write(RetryLock), Write(FailureLock)}, None)
    case FailedWantCount => Waiting(Write(FailureLock))
    case FailedCounting => Inside(Write(FailureLock))
    case FailedWantRetry(_) => Waiting(Write(RetryLock))
    case FailedInserting(_) => Inside(Write(RetryLock))
    case WantLeave => Waiting(Write(RunningLock))
    case Leaving => Inside(Write(RunningLock))
    case _ => FREE
  }

  function CallStand(c: Call): Stand {
    match c
    case ScheduleWantDispatch => Waiting(Read(DispatchLock))
    case ScheduleInDispatch => Inside(Read(DispatchLock))
    case ScheduleWantRetry(_) => Waiting(Read(RetryLock))
    case ScheduleInRetry(_) => Inside(Read(RetryLock))
    case ScheduleWantFunction => Waiting(Read(DispatchLock))
    case ScheduleInFunction => Inside(Read(DispatchLock))
    case ScheduleWantInsert(_) => Waiting(Write(RetryLock))
    case ScheduleInserting(_) => Inside(Write(RetryLock))
    case RegisterWantDispatch(_) => Waiting(Write(DispatchLock))
    case RegisterInDispatch(_) => Inside(Write(DispatchLock))
    case RegisterWantRetry(_) => Waiting(Write(RetryLock))
    case RegisterInserting(_) => Inside(Write(RetryLock))
  }

  datatype Thread = TheDispatcher | Worker(id: nat) | Caller(id: nat)

  ghost predicate Alive(s: State, t: Thread) {
    match t
    case TheDispatcher => true
    case Worker(i) => i in s.jobs
    case Caller(i) => i in s.clients
  }

  ghost function StandOf(s: State, t: Thread): Stand
    requires Alive(s, t)
  {
    match t
    case TheDispatcher => DispatcherStand(s.dispatcher)
    case Worker(i) => PhaseStand(s.jobs[i].phase)
    case Caller(i) => CallStand(s.clients[i].call)
  }

  /** A writer excludes everybody, readers exclude writers. */
  predicate Clash(a: Access, b: Access) {
    a.lock == b.lock && (a.write || b.write)
  }

  /** No other thread stands in the way of what `t` waits for. */
  ghost predicate Granted(s: State, t: Thread)
    requires Alive(s, t)
  {
    var w := StandOf(s, t).wants;
    w.Some? ==> forall u, a | Alive(s, u) && u != t && a in StandOf(s, u).holds :: !Clash(a, w.value)
  }

  type Jobs = map<nat, Job>

  predicate Erasing(p: Phase) {
    p.Executing? || p.FinishedWantRetry? || p.FinishedWantFailure? || p.FinishedRemoving?
  }

  /** A run of `k` may still end by erasing `k` from `retry`. */
  ghost predicate MayErase(jobs: Jobs, k: Key) {
    exists i | i in jobs :: jobs[i].key == k && Erasing(jobs[i].phase)
  }

  /** Putting `k` up for running owes it a run, unless one is under way that may erase it. */
  ghost function Owing(owed: set<Key>, jobs: Jobs, k: Key): set<Key> {
    if MayErase(jobs, k) then owed else owed + {k}
  }

  // ----- the pool

  /** The run occupies a thread of the pool; one that has panicked has given it back. */
  predicate Working(p: Phase) {
    !p.Queued? && !Dead(p)
  }

  ghost function WorkingIds(jobs: Jobs): set<nat> {
    set i | i in jobs && Working(jobs[i].phase)
  }

  /** The threads that are free. */
  ghost function Room(workers: nat, jobs: Jobs): nat {
    if |WorkingIds(jobs)| < workers then workers - |WorkingIds(jobs)| else 0
  }

  /** A run that was not submitted after any other that waits. */
  ghost predicate NextInLine(jobs: Jobs, id: nat) {
    forall i | i in jobs && jobs[i].phase.Queued? :: id <= i
  }

  // ----- steps

  datatype Action =
    | Tick(ms: nat)
    | Stop
    | Schedule(id: nat, key: Key)
    | Register(id: nat, key: Key, callback: Callback)
    | DispatcherStep(events: Events, job: nat)
    | WorkerStep(id: nat, outcome: Outcome, cycles: nat)
    | ClientStep(id: nat)

  /** At most `room` entries that are due, each key once. */
  ghost predicate Due(s: State, events: Events, room: nat) {
    && |events| <= room
    && (forall i | 0 <= i < |events| ::
          events[i].0 in s.retry && s.retry[events[i].0].0 <= s.clock && s.retry[events[i].0].1 == events[i].1)
    && (forall i, j | 0 <= i < j < |events| :: events[i].0 != events[j].0)
  }

  ghost predicate Enabled(s: State, a: Action) {
    match a
    case Tick(_) => true
    case Stop => true
    case Schedule(id, _) => id !in s.clients
    case Register(id, _, _) => id !in s.clients
    case DispatcherStep(events, job) =>
      && Granted(s, TheDispatcher) && !s.dispatcher.Exited?
      && (s.dispatcher.Picking? ==> Due(s, events, s.dispatcher.room))
      && (s.dispatcher.Submitting? ==> forall i | i in s.jobs :: i < job)
    case WorkerStep(id, _, cycles) =>
      && id in s.jobs && Granted(s, Worker(id)) && !Dead(s.jobs[id].phase)
      && (s.jobs[id].phase.Queued? ==> Room(s.workers, s.jobs) > 0 && NextInLine(s.jobs, id))
      && (s.jobs[id].phase.FailedCounted? && CanDraw(s.jobs[id].phase.failures) ==>
            cycles < Pow2(Exponent(s.jobs[id].phase.failures)))
    case ClientStep(id) =>
      && id in s.clients && Granted(s, Caller(id))
      && (s.clients[id].call.ScheduleInFunction? ==> s.clients[id].key in s.dispatch)
  }

  /** `room` is the number of threads that are free. */
  function NextDispatcher(d: Dispatcher, stop: bool, room: nat, running: set<Key>, events: Events): Dispatcher {
    match d
    case Idle => if stop then Exited else Counting
    case Counting => if room == 0 then Idle else WantEvents(room)
    case WantEvents(n) => Picking(n)
    case Picking(_) => Loop(events)
    case Loop(rest) => if rest == [] then Idle else WantLook(rest[0].0, rest[0].1, rest[1..])
    case WantLook(k, e, rest) => Looking(k, e, rest)
    case Looking(k, e, rest) => if k in running then Loop(rest) else WantMark(k, e, rest)
    case WantMark(k, e, rest) => Marking(k, e, rest)
    case Marking(k, e, rest) => WantTake(k, e, rest)
    case WantTake(k, e, rest) => Taking(k, e, rest)
    case Taking(k, e, rest) => Submitting(k, e, rest)
    case Submitting(k, e, rest) => Loop(rest)
    case Exited => Exited
  }

  ghost function StepDispatcher(s: State, events: Events, job: nat): State {
    var d := s.dispatcher;
    s.(dispatcher := NextDispatcher(d, s.stop, Room(s.workers, s.jobs), s.running, events),
       running := if d.Marking? then s.running + {d.key} else s.running,
       retry := if d.Taking? then s.retry - {d.key} else s.retry,
       jobs := if d.Submitting? then s.jobs[job := Job(d.key, d.event, Queued)] else s.jobs)
  }

  /** `count` is the number of failures with this one, `at` the time the draw amounts to. */
  function NextPhase(p: Phase, outcome: Outcome, count: nat, at: int): Phase {
    match p
    case Queued => if outcome.Panics? then Crashed else Executing
    case Executing =>
      if outcome.Panics? then Crashed else if outcome.Finished? then FinishedWantRetry else FailedWantCount
    case FinishedWantRetry => FinishedWantFailure
    case FinishedWantFailure => FinishedRemoving
    case FinishedRemoving => WantLeave
    case FailedWantCount => FailedCounting
    case FailedCounting => FailedCounted(count)
    case FailedCounted(n) => if CanDraw(n) then FailedWantRetry(at) else Panicked
    case FailedWantRetry(t) => FailedInserting(t)
    case FailedInserting(_) => WantLeave
    case WantLeave => Leaving
    case Leaving => Leaving
    case Panicked => Panicked
    case Crashed => Crashed
  }

  function FailureCount(failures: map<Key, nat>, k: Key): nat {
    if k in failures then failures[k] else 0
  }

  ghost function StepWorker(s: State, id: nat, outcome: Outcome, cycles: nat): State
    requires id in s.jobs
  {
    var k, e, p := s.jobs[id].key, s.jobs[id].event, s.jobs[id].phase;
    var count := FailureCount(s.failures, k) + 1;
    var next := NextPhase(p, outcome, count, s.clock + Delay(cycles));
    var jobs := if p.Leaving? then s.jobs - {id} else s.jobs[id := Job(k, e, next)];
    s.(jobs := jobs,
       running := if p.Leaving? then s.running - {k} else s.running,
       retry := if p.FinishedRemoving? then s.retry - {k}
                else if p.FailedInserting? then s.retry[k := (p.at, e)]
                else s.retry,
       failures := if p.FinishedRemoving? then s.failures - {k}
                   else if p.FailedCounting? then s.failures[k := count]
                   else s.failures,
       outcomes := if p.FinishedRemoving? || p.FailedCounting? then s.outcomes + [(k, p.FinishedRemoving?)]
                   else s.outcomes,
       pending := if p.FinishedRemoving? then s.pending - {k}
                  else if p.FailedInserting? then s.pending + {k}
                  else s.pending,
       owed := if p.Queued? then s.owed - {k}
               else if p.FailedInserting? then Owing(s.owed, jobs, k)
               else s.owed)
  }

  /** Where a call goes on, or nowhere once it returns. */
  function NextCall(c: Call, k: Key, dispatch: map<Key, Callback>, retry: map<Key, (int, Callback)>): Option<Call>
    requires c.ScheduleInFunction? ==> k in dispatch
  {
    match c
    case ScheduleWantDispatch => Some(ScheduleInDispatch)
    case ScheduleInDispatch => Some(ScheduleWantRetry(k in dispatch))
    case ScheduleWantRetry(has) => Some(ScheduleInRetry(has))
    case ScheduleInRetry(has) => if has && k !in retry then Some(ScheduleWantFunction) else None
    case ScheduleWantFunction => Some(ScheduleInFunction)
    case ScheduleInFunction => Some(ScheduleWantInsert(dispatch[k]))
    case ScheduleWantInsert(f) => Some(ScheduleInserting(f))
    case ScheduleInserting(_) => None
    case RegisterWantDispatch(f) => Some(RegisterInDispatch(f))
    case RegisterInDispatch(f) => Some(RegisterWantRetry(f))
    case RegisterWantRetry(f) => Some(RegisterInserting(f))
    case RegisterInserting(_) => None
  }

  ghost function StepClient(s: State, id: nat): State
    requires id in s.clients && (s.clients[id].call.ScheduleInFunction? ==> s.clients[id].key in s.dispatch)
  {
    var k, c := s.clients[id].key, s.clients[id].call;
    var next := NextCall(c, k, s.dispatch, s.retry);
    var inserting := c.ScheduleInserting? || c.RegisterInserting?;
    s.(clients := if next.Some? then s.clients[id := Client(k, next.value)] else s.clients - {id},
       dispatch := if c.RegisterInDispatch? then s.dispatch[k := c.callback] else s.dispatch,
       retry := if inserting then s.retry[k := (s.clock, c.callback)] else s.retry,
       pending := if inserting then s.pending + {k} else s.pending,
       owed := if inserting then Owing(s.owed, s.jobs, k) else s.owed)
  }

  ghost function Apply(s: State, a: Action): State
    requires Enabled(s, a)
  {
    match a
    case Tick(ms) => s.(clock := s.clock + ms)
    case Stop => s.(stop := true)
    case Schedule(id, k) => s.(clients := s.clients[id := Client(k, ScheduleWantDispatch)])
    case Register(id, k, f) => s.(clients := s.clients[id := Client(k, RegisterWantDispatch(f))])
    case DispatcherStep(events, job) => StepDispatcher(s, events, job)
    case WorkerStep(id, outcome, cycles) => StepWorker(s, id, outcome, cycles)
    case ClientStep(id) => StepClient(s, id)
  }

  /** `ss` are the states of a run that starts anywhere and takes the actions `acts`. */
  ghost predicate Runs(ss: seq<State>, acts: seq<Action>) {
    && |ss| == |acts| + 1
    && forall i | 0 <= i < |acts| :: Enabled(ss[i], acts[i]) && ss[i + 1] == Apply(ss[i], acts[i])
  }

  ghost predicate Reachable(s: State) {
    exists ss, acts :: Runs(ss, acts) && Init(ss[0]) && ss[|acts|] == s
  }
}
