/** Which callbacks the event server runs, and when it tries a failed one again. */
module AsyncEvents {
  import opened Bits
  import opened Backoff
  import opened AsyncServer
  import opened AsyncSafety
  import opened AsyncTheorems

  // ----- callbacks

  predicate Carries(c: Call) {
    !(c.ScheduleWantDispatch? || c.ScheduleInDispatch? || c.ScheduleWantRetry? || c.ScheduleInRetry?
      || c.ScheduleWantFunction? || c.ScheduleInFunction?)
  }

  /** Every callback stored or carried for a key is among `given`. */
  ghost predicate Sourced(s: State, given: set<(Key, Callback)>) {
    && (forall k | k in s.dispatch :: (k, s.dispatch[k]) in given)
    && (forall k | k in s.retry :: (k, s.retry[k].1) in given)
    && (forall e | e in Held(s.dispatcher) :: e in given)
    && (forall i | i in s.jobs :: (s.jobs[i].key, s.jobs[i].event) in given)
    && (forall i | i in s.clients && Carries(s.clients[i].call) ::
          (s.clients[i].key, s.clients[i].call.callback) in given)
  }

  /** The key and callback pairs that were registered. */
  ghost function Given(acts: seq<Action>): set<(Key, Callback)> {
    set a | a in acts && a.Register? :: (a.key, a.callback)
  }

  lemma SourcedDispatcher(s: State, events: Events, job: nat, given: set<(Key, Callback)>)
    requires Sourced(s, given) && (s.dispatcher.Picking? ==> Due(s, events, s.dispatcher.room))
    ensures Sourced(StepDispatcher(s, events, job), given)
  {
    var d := s.dispatcher;
    HeldNext(d, s.stop, Room(s.workers, s.jobs), s.running, events);
    if d.Submitting? {
      assert (d.key, d.event) in Held(d);
    }
    if d.Picking? {
      forall e | e in events
        ensures e in given
      {
        var i :| 0 <= i < |events| && events[i] == e;
        assert e == (e.0, s.retry[e.0].1);
      }
    }
  }

  lemma SourcedClient(s: State, id: nat, given: set<(Key, Callback)>)
    requires Sourced(s, given) && id in s.clients
    requires s.clients[id].call.ScheduleInFunction? ==> s.clients[id].key in s.dispatch
    ensures Sourced(StepClient(s, id), given)
  {
  }

  lemma SourcedStep(s: State, a: Action, given: set<(Key, Callback)>)
    requires Sourced(s, given) && Enabled(s, a)
    ensures Sourced(Apply(s, a), given + if a.Register? then {(a.key, a.callback)} else {})
  {
    match a
    case DispatcherStep(events, job) => SourcedDispatcher(s, events, job, given);
    case WorkerStep(id, _, _) =>
    case ClientStep(id) => SourcedClient(s, id, given);
    case _ =>
  }

  lemma GivenNext(acts: seq<Action>, i: nat)
    requires i < |acts|
    ensures
      var a := acts[i];
      Given(acts[..i + 1]) == Given(acts[..i]) + if a.Register? then {(a.key, a.callback)} else {}
  {
    assert acts[..i + 1] == acts[..i] + [acts[i]];
  }

  /** Only callbacks that were registered for a key are ever scheduled, handed out or run for it. */
  lemma {:induction false} CallbacksRegistered(ss: seq<State>, acts: seq<Action>, i: nat)
    requires Runs(ss, acts) && Init(ss[0]) && i <= |acts|
    ensures Sourced(ss[i], Given(acts[..i]))
  {
    if i > 0 {
      CallbacksRegistered(ss, acts, i - 1);
      SourcedStep(ss[i - 1], acts[i - 1], Given(acts[..i - 1]));
      GivenNext(acts, i - 1);
    }
  }

  // ----- delays

  /**
   After n failures, n up to 56, a draw can give exactly the slots below 2^max(n, 10), and the
   next try is due 100 milliseconds per slot from now.
   */
  lemma DrawInWindow(s: State, id: nat, outcome: Outcome, cycles: nat)
    requires id in s.jobs && s.jobs[id].phase.FailedCounted? && s.jobs[id].phase.failures <= 56
    requires Granted(s, Worker(id))
    ensures
      var n, a := s.jobs[id].phase.failures, WorkerStep(id, outcome, cycles);
      && (Enabled(s, a) <==> cycles < Pow2(if n >= 10 then n else 10))
      && (Enabled(s, a) ==> Apply(s, a).jobs[id].phase == FailedWantRetry(s.clock + 100 * cycles))
  {
    DelayExactIff(s.jobs[id].phase.failures);
  }

  /** From 57 to 63 failures a draw can give any slot below 2^n, but the delay wraps around in 64 bits. */
  lemma DrawWraps(s: State, id: nat, outcome: Outcome, cycles: nat)
    requires id in s.jobs && s.jobs[id].phase.FailedCounted? && 57 <= s.jobs[id].phase.failures <= 63
    requires Granted(s, Worker(id))
    ensures
      var n, a := s.jobs[id].phase.failures, WorkerStep(id, outcome, cycles);
      && (Enabled(s, a) <==> cycles < Pow2(n))
      && (Enabled(s, a) ==>
            && Apply(s, a).jobs[id].phase.FailedWantRetry?
            && var delay := Apply(s, a).jobs[id].phase.at - s.clock;
               -0x8000_0000_0000_0000 <= delay < 0x8000_0000_0000_0000
               && (100 * cycles - delay) % 0x1_0000_0000_0000_0000 == 0)
  {
    DelayWraps(cycles);
  }

  /** The step in which worker `id` puts its failed event back. */
  ghost predicate Reinserts(s: State, a: Action, id: nat) {
    a.WorkerStep? && a.id == id && id in s.jobs && s.jobs[id].phase.FailedInserting?
  }

  ghost predicate Holding(s: State, id: nat, key: Key, event: Callback, at: int) {
    && id in s.jobs && s.jobs[id].key == key && s.jobs[id].event == event
    && (s.jobs[id].phase == FailedWantRetry(at) || s.jobs[id].phase == FailedInserting(at))
  }

  lemma HoldingStep(s: State, a: Action, id: nat, key: Key, event: Callback, at: int)
    requires Enabled(s, a) && Holding(s, id, key, event, at) && !Reinserts(s, a, id)
    ensures Holding(Apply(s, a), id, key, event, at)
  {
  }

  lemma {:induction false} HoldingStays(ss: seq<State>, acts: seq<Action>, i: nat, j: nat,
                                        id: nat, key: Key, event: Callback, at: int)
    requires Runs(ss, acts) && i <= j <= |acts| && Holding(ss[i], id, key, event, at)
    requires forall m | i <= m < j :: !Reinserts(ss[m], acts[m], id)
    ensures Holding(ss[j], id, key, event, at)
    decreases j - i
  {
    if i < j {
      HoldingStays(ss, acts, i, j - 1, id, key, event, at);
      HoldingStep(ss[j - 1], acts[j - 1], id, key, event, at);
    }
  }

  /** Worker `id` takes the step in which a failure that was counted is drawn for. */
  ghost predicate Draws(s: State, a: Action, id: nat) {
    a.WorkerStep? && a.id == id && id in s.jobs && s.jobs[id].phase.FailedCounted?
  }

  lemma DrawCount(ss: seq<State>, acts: seq<Action>, i: nat, id: nat)
    requires Runs(ss, acts) && Init(ss[0]) && i < |acts| && Draws(ss[i], acts[i], id)
    ensures ss[i].jobs[id].phase.failures == FailuresSince(ss[i].outcomes, ss[i].jobs[id].key)
  {
    RunInv(ss, acts, i);
    assert PhaseMatches(ss[i].jobs[id], ss[i].outcomes);
  }

  /** In every run, the draws that are possible after up to 56 failures in a row, and the time of the next try. */
  lemma DrawsExactly(ss: seq<State>, acts: seq<Action>, i: nat, id: nat, outcome: Outcome, cycles: nat)
    requires Runs(ss, acts) && Init(ss[0]) && i <= |acts| && id in ss[i].jobs && ss[i].jobs[id].phase.FailedCounted?
    requires Granted(ss[i], Worker(id)) && FailuresSince(ss[i].outcomes, ss[i].jobs[id].key) <= 56
    ensures
      var n, a := FailuresSince(ss[i].outcomes, ss[i].jobs[id].key), WorkerStep(id, outcome, cycles);
      && (Enabled(ss[i], a) <==> cycles < Pow2(if n >= 10 then n else 10))
      && (Enabled(ss[i], a) ==> Apply(ss[i], a).jobs[id].phase == FailedWantRetry(ss[i].clock + 100 * cycles))
  {
    RunInv(ss, acts, i);
    assert PhaseMatches(ss[i].jobs[id], ss[i].outcomes);
    DrawInWindow(ss[i], id, outcome, cycles);
  }

  /** The draw panics if and only if there were 64 failures in a row. */
  lemma PanicsIff(ss: seq<State>, acts: seq<Action>, i: nat, id: nat)
    requires Runs(ss, acts) && Init(ss[0]) && i < |acts| && Draws(ss[i], acts[i], id)
    ensures id in ss[i + 1].jobs
    ensures ss[i + 1].jobs[id].phase.Panicked? <==> FailuresSince(ss[i].outcomes, ss[i].jobs[id].key) >= 64
  {
    DrawCount(ss, acts, i, id);
  }

  lemma DrawHolds(s: State, a: Action, id: nat)
    requires Enabled(s, a) && Draws(s, a, id) && CanDraw(s.jobs[id].phase.failures)
    ensures Holding(Apply(s, a), id, s.jobs[id].key, s.jobs[id].event, s.clock + Delay(a.cycles))
  {
  }

  lemma HeldAfterDraw(ss: seq<State>, acts: seq<Action>, i: nat, id: nat)
    requires Runs(ss, acts) && Init(ss[0]) && i < |acts| && Draws(ss[i], acts[i], id)
    requires FailuresSince(ss[i].outcomes, ss[i].jobs[id].key) < 64
    ensures Holding(ss[i + 1], id, ss[i].jobs[id].key, ss[i].jobs[id].event, ss[i].clock + Delay(acts[i].cycles))
  {
    DrawCount(ss, acts, i, id);
    DrawHolds(ss[i], acts[i], id);
  }

  /**
   A run that failed for the n-th time in a row, n up to 63, holds its event with the time
   that was drawn until it puts it back.
   */
  lemma FailedEventHeld(ss: seq<State>, acts: seq<Action>, i: nat, j: nat, id: nat)
    requires Runs(ss, acts) && Init(ss[0]) && i < j <= |acts| && Draws(ss[i], acts[i], id)
    requires FailuresSince(ss[i].outcomes, ss[i].jobs[id].key) < 64
    requires forall m | i < m < j :: !Reinserts(ss[m], acts[m], id)
    ensures Holding(ss[j], id, ss[i].jobs[id].key, ss[i].jobs[id].event, ss[i].clock + Delay(acts[i].cycles))
  {
    HeldAfterDraw(ss, acts, i, id);
    HoldingStays(ss, acts, i + 1, j, id, ss[i].jobs[id].key, ss[i].jobs[id].event, ss[i].clock + Delay(acts[i].cycles));
  }

  /** What it puts back is its own event with that time. */
  lemma FailedEventPutBack(ss: seq<State>, acts: seq<Action>, i: nat, j: nat, id: nat)
    requires Runs(ss, acts) && Init(ss[0]) && i < j < |acts| && Draws(ss[i], acts[i], id)
    requires FailuresSince(ss[i].outcomes, ss[i].jobs[id].key) < 64
    requires Reinserts(ss[j], acts[j], id) && forall m | i < m < j :: !Reinserts(ss[m], acts[m], id)
    ensures ss[i].jobs[id].key in ss[j + 1].retry
    ensures ss[j + 1].retry[ss[i].jobs[id].key] == (ss[i].clock + Delay(acts[i].cycles), ss[i].jobs[id].event)
  {
    FailedEventHeld(ss, acts, i, j, id);
  }

  /**
   Up to 56 failures that time is 100 milliseconds after the draw for each of fewer than
   2^max(n, 10) slots.
   */
  lemma FailedEventDelayed(ss: seq<State>, acts: seq<Action>, i: nat, j: nat, id: nat)
    requires Runs(ss, acts) && Init(ss[0]) && i < j < |acts| && Draws(ss[i], acts[i], id)
    requires FailuresSince(ss[i].outcomes, ss[i].jobs[id].key) <= 56
    requires Reinserts(ss[j], acts[j], id) && forall m | i < m < j :: !Reinserts(ss[m], acts[m], id)
    ensures
      var k, e := ss[i].jobs[id].key, ss[i].jobs[id].event;
      var n := FailuresSince(ss[i].outcomes, k);
      && k in ss[j + 1].retry && ss[j + 1].retry[k] == (ss[i].clock + 100 * acts[i].cycles, e)
      && acts[i].cycles < Pow2(if n >= 10 then n else 10)
  {
    FailedEventPutBack(ss, acts, i, j, id);
    DrawCount(ss, acts, i, id);
    DrawInWindow(ss[i], id, acts[i].outcome, acts[i].cycles);
    DrawHolds(ss[i], acts[i], id);
  }

  /** The step sets the time of `k` anew. */
  ghost predicate Resets(s: State, a: Action, k: Key) {
    || Inserts(s, a, k)
    || (a.WorkerStep? && a.id in s.jobs && s.jobs[a.id].phase.FailedInserting? && s.jobs[a.id].key == k)
  }

  lemma TimeStep(s: State, a: Action, k: Key, at: int)
    requires Enabled(s, a) && !Resets(s, a, k)
    requires k in s.retry ==> s.retry[k].0 == at
    ensures k in Apply(s, a).retry ==> Apply(s, a).retry[k].0 == at
  {
  }

  lemma {:induction false} TimeStays(ss: seq<State>, acts: seq<Action>, i: nat, j: nat, k: Key, at: int)
    requires Runs(ss, acts) && i <= j <= |acts| && (k in ss[i].retry ==> ss[i].retry[k].0 == at)
    requires forall m | i <= m < j :: !Resets(ss[m], acts[m], k)
    ensures k in ss[j].retry ==> ss[j].retry[k].0 == at
    decreases j - i
  {
    if i < j {
      TimeStays(ss, acts, i, j - 1, k, at);
      TimeStep(ss[j - 1], acts[j - 1], k, at);
    }
  }

  /** A scheduled event is not handed out before its time, unless a call reschedules it. */
  lemma NotBeforeItsTime(ss: seq<State>, acts: seq<Action>, i: nat, j: nat, e: (Key, Callback))
    requires Runs(ss, acts) && i <= j < |acts| && e.0 in ss[i].retry
    requires forall m | i <= m < j :: !Resets(ss[m], acts[m], e.0)
    requires ss[j].dispatcher.Picking? && acts[j].DispatcherStep? && e in acts[j].events
    ensures ss[j].clock >= ss[i].retry[e.0].0
  {
    TimeStays(ss, acts, i, j, e.0, ss[i].retry[e.0].0);
    var m :| 0 <= m < |acts[j].events| && acts[j].events[m] == e;
  }

  // ----- which callback a run calls

  /** The step in which the dispatcher picks the event `e`. */
  ghost predicate Picks(s: State, a: Action, e: (Key, Callback)) {
    a.DispatcherStep? && s.dispatcher.Picking? && e in a.events
  }

  /** The event is with the dispatcher or in the pool. */
  ghost predicate HandedOut(s: State, e: (Key, Callback)) {
    e in Held(s.dispatcher) || exists i | i in s.jobs :: (s.jobs[i].key, s.jobs[i].event) == e
  }

  lemma HandedOutStep(s: State, a: Action, e: (Key, Callback))
    requires Enabled(s, a)
    ensures HandedOut(Apply(s, a), e) ==> HandedOut(s, e) || Picks(s, a, e)
  {
    if a.DispatcherStep? {
      HeldNext(s.dispatcher, s.stop, Room(s.workers, s.jobs), s.running, a.events);
      if s.dispatcher.Submitting? {
        assert (s.dispatcher.key, s.dispatcher.event) in Held(s.dispatcher);
      }
    }
  }

  lemma NothingHandedOut(s: State, e: (Key, Callback))
    requires Init(s)
    ensures !HandedOut(s, e)
  {
  }

  /** What is handed out was picked. */
  lemma {:induction false} PickedBefore(ss: seq<State>, acts: seq<Action>, j: nat, e: (Key, Callback)) returns (i: nat)
    requires Runs(ss, acts) && Init(ss[0]) && j <= |acts| && HandedOut(ss[j], e)
    ensures i < j && Picks(ss[i], acts[i], e)
    decreases j
  {
    NothingHandedOut(ss[0], e);
    HandedOutStep(ss[j - 1], acts[j - 1], e);
    if HandedOut(ss[j - 1], e) {
      i := PickedBefore(ss, acts, j - 1, e);
    } else {
      i := j - 1;
    }
  }

  /** The callback the step writes to the entry of `k`. */
  ghost predicate Writes(s: State, a: Action, k: Key, f: Callback) {
    Enabled(s, a) && Resets(s, a, k) && k in Apply(s, a).retry && Apply(s, a).retry[k].1 == f
  }

  lemma EntryStep(s: State, a: Action, k: Key)
    requires Enabled(s, a) && k in Apply(s, a).retry && !Resets(s, a, k)
    ensures k in s.retry && Apply(s, a).retry[k] == s.retry[k]
  {
  }

  /** An entry is as it was last written. */
  lemma {:induction false} LastWritten(ss: seq<State>, acts: seq<Action>, j: nat, k: Key) returns (i: nat)
    requires Runs(ss, acts) && Init(ss[0]) && j <= |acts| && k in ss[j].retry
    ensures i < j && Writes(ss[i], acts[i], k, ss[j].retry[k].1)
    ensures forall m | i < m < j :: !Resets(ss[m], acts[m], k)
    decreases j
  {
    if Resets(ss[j - 1], acts[j - 1], k) {
      i := j - 1;
    } else {
      EntryStep(ss[j - 1], acts[j - 1], k);
      i := LastWritten(ss, acts, j - 1, k);
    }
  }

  /**
   A run that is taken up calls the callback that was last written for its key, by a call or by
   a failed run, before the dispatcher picked it; what is written after the pick is not run.
   */
  lemma RunsLastWritten(ss: seq<State>, acts: seq<Action>, j: nat, k: Key) returns (w: nat, p: nat)
    requires Runs(ss, acts) && Init(ss[0]) && j < |acts| && Starts(ss[j], acts[j], k)
    ensures w < p < j && Picks(ss[p], acts[p], (k, ss[j].jobs[acts[j].id].event))
    ensures Writes(ss[w], acts[w], k, ss[j].jobs[acts[j].id].event)
    ensures forall m | w < m < p :: !Resets(ss[m], acts[m], k)
  {
    var e := (k, ss[j].jobs[acts[j].id].event);
    assert HandedOut(ss[j], e);
    p := PickedBefore(ss, acts, j, e);
    var i :| 0 <= i < |acts[p].events| && acts[p].events[i] == e;
    assert k in ss[p].retry && ss[p].retry[k].1 == e.1;
    w := LastWritten(ss, acts, p, k);
  }
}
