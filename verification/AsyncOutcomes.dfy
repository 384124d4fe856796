/** What the outcome of an event brings about: a finish is erased, anything else is put back. */
module AsyncOutcomes {
  import opened Bits
  import opened Backoff
  import opened AsyncServer
  import opened AsyncSafety
  import opened AsyncTheorems
  import opened AsyncRuns

  /** The step in which the event that worker `id` called returns. */
  ghost predicate Returns(s: State, a: Action, id: nat) {
    a.WorkerStep? && a.id == id && id in s.jobs && s.jobs[id].phase.Executing?
  }

  /** Worker `id` is on the same run of the same event all along. */
  ghost predicate SameRun(ss: seq<State>, i: nat, j: nat, id: nat)
    requires i <= j < |ss|
  {
    && id in ss[i].jobs
    && forall m | i <= m <= j ::
         id in ss[m].jobs && ss[m].jobs[id].key == ss[i].jobs[id].key && ss[m].jobs[id].event == ss[i].jobs[id].event
  }

  lemma SameRunOn(ss: seq<State>, i: nat, j: nat, id: nat)
    requires i <= j < |ss| - 1 && SameRun(ss, i, j, id)
    requires id in ss[j + 1].jobs && ss[j + 1].jobs[id].key == ss[j].jobs[id].key
    requires ss[j + 1].jobs[id].event == ss[j].jobs[id].event
    ensures SameRun(ss, i, j + 1, id)
  {
  }

  // ----- who erases a key

  predicate Finishing(p: Phase) {
    p.FinishedWantRetry? || p.FinishedWantFailure? || p.FinishedRemoving?
  }

  /** If worker `id` is finishing after the step, it was so before, or its event returned `Finished`. */
  ghost predicate FinishedLink(s: State, a: Action, t: State, id: nat) {
    id in t.jobs && Finishing(t.jobs[id].phase) ==>
      && id in s.jobs && s.jobs[id].key == t.jobs[id].key && s.jobs[id].event == t.jobs[id].event
      && if Returns(s, a, id) then a.outcome == Finished else Finishing(s.jobs[id].phase)
  }

  lemma FinishedLinked(s: State, a: Action, id: nat)
    requires Enabled(s, a)
    ensures FinishedLink(s, a, Apply(s, a), id)
  {
  }

  lemma {:induction false} FinishedBack(ss: seq<State>, acts: seq<Action>, j: nat, id: nat) returns (i: nat)
    requires |ss| == |acts| + 1 && j <= |acts| && ss[0].jobs == map[]
    requires forall m | 0 <= m < j :: FinishedLink(ss[m], acts[m], ss[m + 1], id)
    requires id in ss[j].jobs && Finishing(ss[j].jobs[id].phase)
    ensures i < j && Returns(ss[i], acts[i], id) && acts[i].outcome == Finished && SameRun(ss, i, j, id)
    ensures forall m | i < m < j :: !Returns(ss[m], acts[m], id)
    decreases j
  {
    assert FinishedLink(ss[j - 1], acts[j - 1], ss[j - 1 + 1], id);
    i := j - 1;
    if !Returns(ss[j - 1], acts[j - 1], id) {
      i := FinishedBack(ss, acts, j - 1, id);
    }
    SameRunOn(ss, i, j - 1, id);
  }

  /** A run that is about to erase its key had an event that returned `Finished`. */
  lemma FinishedBefore(ss: seq<State>, acts: seq<Action>, j: nat, id: nat) returns (i: nat)
    requires Runs(ss, acts) && Init(ss[0]) && j <= |acts| && id in ss[j].jobs && Finishing(ss[j].jobs[id].phase)
    ensures i < j && Returns(ss[i], acts[i], id) && acts[i].outcome == Finished && SameRun(ss, i, j, id)
    ensures forall m | i < m < j :: !Returns(ss[m], acts[m], id)
  {
    forall m | 0 <= m < j
      ensures FinishedLink(ss[m], acts[m], ss[m + 1], id)
    {
      FinishedLinked(ss[m], acts[m], id);
    }
    i := FinishedBack(ss, acts, j, id);
  }

  /** A key is erased only by a run whose event returned `Finished`. */
  lemma ErasedByFinish(ss: seq<State>, acts: seq<Action>, j: nat, k: Key) returns (i: nat)
    requires Runs(ss, acts) && Init(ss[0]) && j < |acts| && Finishes(ss[j], acts[j], k)
    ensures i < j && Returns(ss[i], acts[i], acts[j].id) && acts[i].outcome == Finished
    ensures SameRun(ss, i, j, acts[j].id) && ss[i].jobs[acts[j].id].key == k
    ensures forall m | i < m < j :: !Returns(ss[m], acts[m], acts[j].id)
  {
    i := FinishedBefore(ss, acts, j, acts[j].id);
  }

  /**
   A key that was scheduled and is neither scheduled nor running any more had a run in between
   that erased it, and whose event returned `Finished`.
   */
  lemma NoEventDropped(ss: seq<State>, acts: seq<Action>, i: nat, j: nat, k: Key) returns (r: nat, m: nat)
    requires Runs(ss, acts) && Init(ss[0]) && i <= j <= |acts| && k in ss[i].retry
    requires k !in ss[j].retry && k !in ss[j].running
    ensures r < m && i <= m < j && acts[m].WorkerStep? && k !in ss[m + 1].retry
    ensures Returns(ss[r], acts[r], acts[m].id) && acts[r].outcome == Finished
    ensures SameRun(ss, r, m, acts[m].id) && ss[r].jobs[acts[m].id].key == k
  {
    if forall n | i <= n < j :: !Finishes(ss[n], acts[n], k) {
      KeptUntilErased(ss, acts, i, j, k);
    }
    m :| i <= m < j && Finishes(ss[m], acts[m], k);
    r := ErasedByFinish(ss, acts, m, k);
  }

  // ----- what becomes of any other outcome

  predicate Unsuccessful(p: Phase) {
    || p.FailedWantCount? || p.FailedCounting? || p.FailedCounted? || p.FailedWantRetry? || p.FailedInserting?
    || p.WantLeave? || p.Leaving? || p.Panicked?
  }

  lemma UnsuccessfulStep(s: State, a: Action, id: nat)
    requires Enabled(s, a) && id in s.jobs && id in Apply(s, a).jobs
    requires Unsuccessful(s.jobs[id].phase) || (Returns(s, a, id) && (a.outcome == Retry || a.outcome == Failed))
    ensures Unsuccessful(Apply(s, a).jobs[id].phase)
  {
  }

  /** A run whose event returned `Retry` or failed never erases its key. */
  lemma {:induction false} NotErased(ss: seq<State>, acts: seq<Action>, i: nat, j: nat, id: nat)
    requires Runs(ss, acts) && i < j <= |acts| && Returns(ss[i], acts[i], id)
    requires acts[i].outcome == Retry || acts[i].outcome == Failed
    requires forall m | i < m <= j :: id in ss[m].jobs
    ensures Unsuccessful(ss[j].jobs[id].phase)
    ensures j < |acts| && acts[j].WorkerStep? && acts[j].id == id ==> !Finishes(ss[j], acts[j], ss[j].jobs[id].key)
    decreases j - i
  {
    if i + 1 < j {
      NotErased(ss, acts, i, j - 1, id);
    }
    UnsuccessfulStep(ss[j - 1], acts[j - 1], id);
  }

  /** The steps of worker `id` from `i` up to `j`. */
  ghost function OwnSteps(acts: seq<Action>, i: nat, j: nat, id: nat): nat
    requires i <= j <= |acts|
    decreases j - i
  {
    if i == j then 0
    else OwnSteps(acts, i, j - 1, id) + if acts[j - 1].WorkerStep? && acts[j - 1].id == id then 1 else 0
  }

  /** How many steps a run has taken since its event returned something else than `Finished`. */
  function StepsTaken(p: Phase): nat {
    match p
    case FailedWantCount => 0
    case FailedCounting => 1
    case FailedCounted(_) => 2
    case FailedWantRetry(_) => 3
    case FailedInserting(_) => 4
    case _ => 5
  }

  /** The run of `k` is on its way to put its event back, `before` failures having come before this one. */
  ghost predicate Failing(s: State, id: nat, k: Key, e: Callback, before: nat) {
    && id in s.jobs && s.jobs[id].key == k && s.jobs[id].event == e
    && var n := StepsTaken(s.jobs[id].phase);
       && n <= 4 && FailureCount(s.failures, k) == (if n <= 1 then before else before + 1)
       && (n == 2 ==> s.jobs[id].phase == FailedCounted(before + 1))
  }

  /** Such a run stays so, one step further if the step is its own, until its last one. */
  ghost predicate FailingLink(s: State, a: Action, t: State, id: nat, k: Key, e: Callback, before: nat) {
    Failing(s, id, k, e, before) ==>
      var n := StepsTaken(s.jobs[id].phase);
      if a.WorkerStep? && a.id == id then
        n < 4 ==> Failing(t, id, k, e, before) && StepsTaken(t.jobs[id].phase) == n + 1
      else Failing(t, id, k, e, before) && StepsTaken(t.jobs[id].phase) == n
  }

  lemma OthersLeaveFailing(s: State, a: Action, id: nat, k: Key, e: Callback, before: nat)
    requires Inv(s) && Enabled(s, a) && Failing(s, id, k, e, before) && !(a.WorkerStep? && a.id == id)
    ensures Failing(Apply(s, a), id, k, e, before) && Apply(s, a).jobs[id] == s.jobs[id]
  {
  }

  lemma FailingOn(s: State, a: Action, id: nat, k: Key, e: Callback, before: nat)
    requires Enabled(s, a) && Failing(s, id, k, e, before) && a.WorkerStep? && a.id == id && before < 63
    requires !s.jobs[id].phase.FailedInserting?
    ensures Failing(Apply(s, a), id, k, e, before)
    ensures StepsTaken(Apply(s, a).jobs[id].phase) == StepsTaken(s.jobs[id].phase) + 1
  {
  }

  lemma FailingLinked(s: State, a: Action, id: nat, k: Key, e: Callback, before: nat)
    requires Inv(s) && Enabled(s, a) && before < 63
    ensures FailingLink(s, a, Apply(s, a), id, k, e, before)
  {
    if Failing(s, id, k, e, before) {
      if !(a.WorkerStep? && a.id == id) {
        OthersLeaveFailing(s, a, id, k, e, before);
      } else if !s.jobs[id].phase.FailedInserting? {
        FailingOn(s, a, id, k, e, before);
      }
    }
  }

  lemma PutsBack(s: State, a: Action, id: nat, k: Key, e: Callback, before: nat)
    requires Enabled(s, a) && Failing(s, id, k, e, before) && s.jobs[id].phase.FailedInserting?
    requires a.WorkerStep? && a.id == id
    ensures k in Apply(s, a).retry && Apply(s, a).retry[k].1 == e
    ensures FailureCount(Apply(s, a).failures, k) == before + 1
  {
  }

  lemma StartsFailing(s: State, a: Action, id: nat)
    requires Enabled(s, a) && Returns(s, a, id) && (a.outcome == Retry || a.outcome == Failed)
    ensures Failing(Apply(s, a), id, s.jobs[id].key, s.jobs[id].event, FailureCount(s.failures, s.jobs[id].key))
    ensures StepsTaken(Apply(s, a).jobs[id].phase) == 0
  {
  }

  lemma {:induction false} FailingOnward(ss: seq<State>, acts: seq<Action>, i: nat, j: nat,
                                         id: nat, k: Key, e: Callback, before: nat)
    requires |ss| == |acts| + 1 && i <= j <= |acts|
    requires forall m | i <= m < j :: FailingLink(ss[m], acts[m], ss[m + 1], id, k, e, before)
    requires Failing(ss[i], id, k, e, before) && StepsTaken(ss[i].jobs[id].phase) == 0 && OwnSteps(acts, i, j, id) <= 4
    ensures Failing(ss[j], id, k, e, before) && StepsTaken(ss[j].jobs[id].phase) == OwnSteps(acts, i, j, id)
    decreases j - i
  {
    if i < j {
      FailingOnward(ss, acts, i, j - 1, id, k, e, before);
      assert FailingLink(ss[j - 1], acts[j - 1], ss[j - 1 + 1], id, k, e, before);
    }
  }

  lemma FailingAlong(ss: seq<State>, acts: seq<Action>, i: nat, j: nat, id: nat, k: Key, e: Callback, before: nat)
    requires Runs(ss, acts) && Init(ss[0]) && i <= j <= |acts| && before < 63
    requires Failing(ss[i], id, k, e, before) && StepsTaken(ss[i].jobs[id].phase) == 0 && OwnSteps(acts, i, j, id) <= 4
    ensures Failing(ss[j], id, k, e, before) && StepsTaken(ss[j].jobs[id].phase) == OwnSteps(acts, i, j, id)
  {
    forall m | i <= m < j
      ensures FailingLink(ss[m], acts[m], ss[m + 1], id, k, e, before)
    {
      RunInv(ss, acts, m);
      FailingLinked(ss[m], acts[m], id, k, e, before);
    }
    FailingOnward(ss, acts, i, j, id, k, e, before);
  }

  /**
   Whatever others do meanwhile, a run whose event returned `Retry` or failed, after fewer than
   63 failures in a row, puts its event back with the fifth step it takes from there, and the
   failure is counted.
   */
  lemma PutBackAfter(ss: seq<State>, acts: seq<Action>, i: nat, j: nat, id: nat)
    requires Runs(ss, acts) && Init(ss[0]) && i < j < |acts| && Returns(ss[i], acts[i], id)
    requires acts[i].outcome == Retry || acts[i].outcome == Failed
    requires FailuresSince(ss[i].outcomes, ss[i].jobs[id].key) < 63
    requires OwnSteps(acts, i + 1, j, id) == 4 && acts[j].WorkerStep? && acts[j].id == id
    ensures
      var k, e := ss[i].jobs[id].key, ss[i].jobs[id].event;
      && k in ss[j + 1].retry && ss[j + 1].retry[k].1 == e
      && FailureCount(ss[j + 1].failures, k) == FailuresSince(ss[i].outcomes, k) + 1
  {
    var k, e := ss[i].jobs[id].key, ss[i].jobs[id].event;
    RunInv(ss, acts, i);
    var before := FailureCount(ss[i].failures, k);
    assert before == FailuresSince(ss[i].outcomes, k);
    StartsFailing(ss[i], acts[i], id);
    FailingAlong(ss, acts, i + 1, j, id, k, e, before);
    PutsBack(ss[j], acts[j], id, k, e, before);
  }

  // ----- it can do so by its own steps

  const BOTH := {RetryLock, FailureLock}

  /** The failures in a row once this one is counted. */
  function CountWith(s: State, id: nat): nat
    requires id in s.jobs
  {
    var before, p := FailureCount(s.failures, s.jobs[id].key), s.jobs[id].phase;
    if p.Executing? || p.FailedWantCount? || p.FailedCounting? then before + 1 else before
  }

  /** The run is on its way from its outcome to where the event is put back. */
  predicate Back(s: State, id: nat)
    requires id in s.jobs
  {
    var p := s.jobs[id].phase;
    p.Executing? || p.FailedWantCount? || p.FailedCounting? || p.FailedInserting? || p.FailedWantRetry?
    || p == FailedCounted(FailureCount(s.failures, s.jobs[id].key))
  }

  /** The time at which its event will be due, if `cycles` slots are drawn. */
  function DueAt(s: State, id: nat, cycles: nat): int
    requires id in s.jobs
  {
    var p := s.jobs[id].phase;
    if p.FailedWantRetry? || p.FailedInserting? then p.at else s.clock + Delay(cycles)
  }

  lemma CanGoBack(s: State, id: nat, outcome: Outcome, cycles: nat)
    requires id in s.jobs && Back(s, id) && Free(s, Worker(id), BOTH)
    requires CountWith(s, id) <= 63 && cycles < Pow2(if CountWith(s, id) >= 10 then CountWith(s, id) else 10)
    ensures Enabled(s, WorkerStep(id, outcome, cycles))
    ensures Free(Apply(s, WorkerStep(id, outcome, cycles)), Worker(id), BOTH)
  {
    FreeGranted(s, Worker(id), BOTH);
    FreeStep(s, WorkerStep(id, outcome, cycles), Worker(id), BOTH);
  }

  lemma GoesBack(s: State, id: nat, outcome: Outcome, cycles: nat)
    requires id in s.jobs && Back(s, id) && (outcome == Retry || outcome == Failed) && CountWith(s, id) <= 63
    ensures
      var t := StepWorker(s, id, outcome, cycles);
      && id in t.jobs && t.jobs[id].key == s.jobs[id].key && t.jobs[id].event == s.jobs[id].event
      && if s.jobs[id].phase.FailedInserting? then
           && t.retry == s.retry[s.jobs[id].key := (DueAt(s, id, cycles), s.jobs[id].event)]
           && FailureCount(t.failures, s.jobs[id].key) == CountWith(s, id)
         else
           && Back(t, id) && CountWith(t, id) == CountWith(s, id) && DueAt(t, id, cycles) == DueAt(s, id, cycles)
           && PhaseRank(t.jobs[id].phase) < PhaseRank(s.jobs[id].phase) && t.retry == s.retry
  {
  }

  /** A run of worker `id` alone that starts with the given outcome. */
  ghost predicate Solo(ss: seq<State>, acts: seq<Action>, id: nat, outcome: Outcome) {
    && Runs(ss, acts) && acts != [] && acts[0].WorkerStep? && acts[0].outcome == outcome
    && forall a | a in acts :: a.WorkerStep? && a.id == id
  }

  lemma SoloOne(s: State, a: Action)
    requires Enabled(s, a) && a.WorkerStep?
    ensures Solo([s, Apply(s, a)], [a], a.id, a.outcome)
  {
  }

  lemma SoloMore(s: State, a: Action, ss: seq<State>, acts: seq<Action>)
    requires Enabled(s, a) && a.WorkerStep? && Solo(ss, acts, a.id, a.outcome) && ss[0] == Apply(s, a)
    ensures Solo([s] + ss, [a] + acts, a.id, a.outcome) && ([s] + ss)[|[a] + acts|] == ss[|acts|]
  {
    FirstStep(s, a, ss, acts);
  }

  /**
   When nobody else holds the two locks it needs, a run whose event returns `Retry` or fails puts
   its event back by its own steps, for the time of any draw, and has its failure counted.
   */
  lemma {:induction false} PutBackAlone(s: State, id: nat, outcome: Outcome, cycles: nat)
    returns (ss: seq<State>, acts: seq<Action>)
    requires id in s.jobs && Back(s, id) && Free(s, Worker(id), BOTH) && (outcome == Retry || outcome == Failed)
    requires CountWith(s, id) <= 63 && cycles < Pow2(if CountWith(s, id) >= 10 then CountWith(s, id) else 10)
    ensures Solo(ss, acts, id, outcome) && ss[0] == s
    ensures
      var k, t := s.jobs[id].key, ss[|acts|];
      && t.retry == s.retry[k := (DueAt(s, id, cycles), s.jobs[id].event)]
      && FailureCount(t.failures, k) == CountWith(s, id)
    decreases PhaseRank(s.jobs[id].phase)
  {
    var a := WorkerStep(id, outcome, cycles);
    CanGoBack(s, id, outcome, cycles);
    GoesBack(s, id, outcome, cycles);
    var t := Apply(s, a);
    if s.jobs[id].phase.FailedInserting? {
      SoloOne(s, a);
      ss, acts := [s, t], [a];
    } else {
      var more, rest := PutBackAlone(t, id, outcome, cycles);
      SoloMore(s, a, more, rest);
      ss, acts := [s] + more, [a] + rest;
    }
  }
}
