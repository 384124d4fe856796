/** How often an event can fail in a row. */
module AsyncFailures {
  import opened Backoff
  import opened AsyncServer
  import opened AsyncSafety
  import opened AsyncTheorems
  import opened AsyncLocks
  import opened AsyncRuns
  import opened AsyncProgress
  import opened AsyncInsertions

  // ----- steps of a run that fails

  lemma FailRun(s: State, id: nat) returns (t: State)
    requires Calm(s) && id in s.jobs && s.jobs[id].phase.Executing?
    ensures Leads(s, t, PROMPTLY) && Calm(t) && t == s.(jobs := s.jobs[id := s.jobs[id].(phase := FailedWantCount)])
  {
    CalmFree(s, Worker(id));
    t := SoloWorkerStep(s, id, Failed, PROMPTLY, ALL);
    FreeCalm(t, Worker(id));
  }

  /** A run that has failed comes to where its failure is counted. */
  lemma CountUp(s: State, id: nat) returns (t: State)
    requires Calm(s) && id in s.jobs && s.jobs[id].phase.FailedWantCount?
    ensures Leads(s, t, PROMPTLY) && Calm(t) && Beside(s, t, s.jobs[id].key)
    ensures
      var n := FailureCount(s.failures, s.jobs[id].key) + 1;
      && t.jobs == s.jobs[id := s.jobs[id].(phase := FailedCounted(n))] && FailureCount(t.failures, s.jobs[id].key) == n
      && t.retry == s.retry
  {
    CalmFree(s, Worker(id));
    var a := SoloWorkerStep(s, id, Failed, PROMPTLY, ALL);
    t := SoloWorkerStep(a, id, Failed, PROMPTLY, ALL);
    LeadsTrans(s, a, t, PROMPTLY);
    FreeCalm(t, Worker(id));
  }

  /** A counted failure with something to draw from can draw nothing, and is due at once. */
  lemma DrawNow(s: State, id: nat) returns (t: State)
    requires Calm(s) && id in s.jobs && s.jobs[id].phase.FailedCounted? && CanDraw(s.jobs[id].phase.failures)
    ensures Leads(s, t, PROMPTLY) && Calm(t)
    ensures t == s.(jobs := s.jobs[id := s.jobs[id].(phase := FailedWantRetry(s.clock))])
  {
    CalmFree(s, Worker(id));
    t := SoloWorkerStep(s, id, Failed, PROMPTLY, ALL);
    FreeCalm(t, Worker(id));
  }

  lemma PutBack(s: State, id: nat) returns (t: State)
    requires Calm(s) && id in s.jobs && s.jobs[id].phase == FailedWantRetry(s.clock)
    ensures Leads(s, t, PROMPTLY) && Calm(t) && Beside(s, t, s.jobs[id].key)
    ensures t.failures == s.failures && t.clock == s.clock
    ensures t.jobs == s.jobs[id := s.jobs[id].(phase := WantLeave)]
    ensures t.retry == s.retry[s.jobs[id].key := (s.clock, s.jobs[id].event)]
  {
    CalmFree(s, Worker(id));
    var a := SoloWorkerStep(s, id, Failed, PROMPTLY, ALL);
    t := SoloWorkerStep(a, id, Failed, PROMPTLY, ALL);
    LeadsTrans(s, a, t, PROMPTLY);
    FreeCalm(t, Worker(id));
  }

  lemma LeaveRun(s: State, id: nat) returns (t: State)
    requires Calm(s) && id in s.jobs && s.jobs[id].phase.WantLeave?
    ensures Leads(s, t, PROMPTLY) && Calm(t) && Beside(s, t, s.jobs[id].key)
    ensures t.failures == s.failures && t.clock == s.clock
    ensures t.jobs == s.jobs - {id} && t.retry == s.retry
  {
    CalmFree(s, Worker(id));
    var a := SoloWorkerStep(s, id, Failed, PROMPTLY, ALL);
    t := SoloWorkerStep(a, id, Failed, PROMPTLY, ALL);
    LeadsTrans(s, a, t, PROMPTLY);
    FreeCalm(t, Worker(id));
  }

  /** The only run is one of `k` that has just failed for the n-th time in a row. */
  ghost predicate Failing(s: State, k: Key, n: nat) {
    && Calm(s) && s.dispatcher == Loop([]) && !s.stop && s.retry == map[] && s.workers > 0
    && s.jobs.Keys == {0} && s.jobs[0].key == k && s.jobs[0].phase == FailedCounted(n)
    && FailureCount(s.failures, k) == n
  }

  /** The only run is one of `k` that is executing after n failures in a row. */
  ghost predicate Trying(s: State, k: Key, n: nat) {
    && Calm(s) && s.dispatcher == Loop([]) && !s.stop && s.retry == map[] && s.workers > 0
    && s.jobs.Keys == {0} && s.jobs[0].key == k && s.jobs[0].phase == Executing
    && FailureCount(s.failures, k) == n
  }

  lemma BackToIdle(s: State) returns (t: State)
    requires Calm(s) && s.dispatcher == Loop([])
    ensures Leads(s, t, PROMPTLY) && Calm(t) && t == s.(dispatcher := Idle)
  {
    CalmFree(s, TheDispatcher);
    t := SoloDispatcherStep(s, [], 0, PROMPTLY);
    FreeCalm(t, TheDispatcher);
  }

  /** The failed run puts its event back and leaves. */
  lemma GiveBack(s: State, k: Key, n: nat) returns (t: State)
    requires Failing(s, k, n) && CanDraw(n)
    ensures Leads(s, t, PROMPTLY) && Calm(t) && t.dispatcher == Loop([]) && !t.stop && t.jobs == map[]
    ensures t.retry.Keys == DueKeys(t) == {k} && FailureCount(t.failures, k) == n && t.workers > 0
  {
    var a := DrawNow(s, 0);
    var b := PutBack(a, 0);
    LeadsTrans(s, a, b, PROMPTLY);
    t := LeaveRun(b, 0);
    LeadsTrans(s, b, t, PROMPTLY);
  }

  /** What is put back is handed out and started again. */
  lemma TryAgain(s: State, k: Key, n: nat) returns (t: State)
    requires Sound(s) && Failing(s, k, n) && CanDraw(n)
    ensures Leads(s, t, PROMPTLY) && Trying(t, k, n)
  {
    var a := GiveBack(s, k, n);
    var b := BackToIdle(a);
    LeadsTrans(s, a, b, PROMPTLY);
    LeadsSound(s, b, PROMPTLY);
    t := HandOutAndStart(b, k, PROMPTLY);
    LeadsTrans(s, b, t, PROMPTLY);
  }

  lemma FailOnce(s: State, k: Key, n: nat) returns (t: State)
    requires Trying(s, k, n)
    ensures Leads(s, t, PROMPTLY) && Failing(t, k, n + 1)
  {
    var a := FailRun(s, 0);
    t := CountUp(a, 0);
    LeadsTrans(s, a, t, PROMPTLY);
  }

  lemma FirstTry(s: State, k: Key, f: Callback) returns (t: State)
    requires Init(s)
    ensures Leads(s, t, PROMPTLY) && Trying(t, k, 0)
  {
    t := FirstRun(s, k, f);
  }

  lemma FailLater(s: State, a: State, k: Key, n: nat) returns (t: State)
    requires Sound(s) && Leads(s, a, PROMPTLY) && Trying(a, k, n)
    ensures Leads(s, t, PROMPTLY) && Sound(t) && Failing(t, k, n + 1)
  {
    t := FailOnce(a, k, n);
    LeadsTrans(s, a, t, PROMPTLY);
    LeadsSound(s, t, PROMPTLY);
  }

  /** From the start, any key can fail any number of times in a row up to the 64th. */
  lemma {:induction false} FailsInARow(s: State, k: Key, f: Callback, n: nat) returns (t: State)
    requires Init(s) && 1 <= n <= 64
    ensures Leads(s, t, PROMPTLY) && Sound(t) && Failing(t, k, n)
  {
    InitSound(s);
    var a;
    if n == 1 {
      a := FirstTry(s, k, f);
    } else {
      var b := FailsInARow(s, k, f, n - 1);
      a := TryAgain(b, k, n - 1);
      LeadsTrans(s, b, a, PROMPTLY);
    }
    t := FailLater(s, a, k, n - 1);
  }

  /** The 64th failure in a row panics; until then the event is tried again. */
  lemma PanicReached(s: State, k: Key, f: Callback) returns (t: State)
    requires Init(s)
    ensures Leads(s, t, PROMPTLY) && 0 in t.jobs && t.jobs[0].key == k && t.jobs[0].phase.Panicked?
    ensures FailuresSince(t.outcomes, k) == 64 && Calm(t) && t.jobs.Keys == {0}
  {
    var n := FailsInARow(s, k, f, 64);
    CalmFree(n, Worker(0));
    t := SoloWorkerStep(n, 0, Failed, PROMPTLY, ALL);
    LeadsTrans(s, n, t, PROMPTLY);
    FreeCalm(t, Worker(0));
  }

  /** A key that has panicked can be put up for running in vain: nothing erases it, and it never runs. */
  lemma InsertedInVain(s: State, k: Key, f: Callback) returns (t: State, a: Action)
    requires Init(s)
    ensures Leads(s, t, PROMPTLY) && Enabled(t, a) && Inserts(t, a, k)
    ensures NeverErased(Apply(t, a), k) && !CanStart(Apply(t, a), k)
  {
    var n := PanicReached(s, k, f);
    var id := FreshId(n.clients.Keys);
    t := NewCall(n, Register(id, k, f), PROMPTLY);
    LeadsTrans(s, n, t, PROMPTLY);
    var m := Insertion(t, id, PROMPTLY);
    a := ClientStep(id);
    InitSound(s);
    ReachableLeads(s, t, PROMPTLY);
    assert t.jobs[0].key == k && Dead(t.jobs[0].phase);
    InVain(t, a, k);
  }

  lemma InVain(s: State, a: Action, k: Key)
    requires Reachable(s) && Enabled(s, a) && Inserts(s, a, k) && Hopeless(s, k) && !MayErase(s.jobs, k)
    ensures NeverErased(Apply(s, a), k) && !CanStart(Apply(s, a), k)
  {
    ReachableSound(s);
    SoundStep(s, a);
    InsertKeptIff(s, a, k);
    InsertionKeeps(s, a, k);
    NeverCalled(Apply(s, a), k);
  }

  // ----- never more than 64

  ghost predicate Spent(jobs: Jobs, k: Key) {
    exists i | i in jobs :: jobs[i].key == k && (jobs[i].phase.FailedCounted? || jobs[i].phase.Panicked?)
                            && Doomed(jobs[i].phase, 0)
  }

  /** No key has failed more than 64 times in a row, and at 64 its run is at its end. */
  ghost predicate Bounded(s: State, k: Key) {
    FailureCount(s.failures, k) <= 64 && (FailureCount(s.failures, k) == 64 ==> Spent(s.jobs, k))
  }

  lemma BoundedWorker(s: State, id: nat, outcome: Outcome, cycles: nat, k: Key)
    requires Exclusive(s.jobs, s.running, s.dispatcher) && id in s.jobs && Bounded(s, k)
    requires s.jobs[id].phase.FailedCounted? ==> s.jobs[id].phase.failures == FailureCount(s.failures, s.jobs[id].key)
    ensures Bounded(StepWorker(s, id, outcome, cycles), k)
  {
    var t := StepWorker(s, id, outcome, cycles);
    if FailureCount(s.failures, k) == 64 {
      var i :| i in s.jobs && s.jobs[i].key == k && (s.jobs[i].phase.FailedCounted? || s.jobs[i].phase.Panicked?)
               && Doomed(s.jobs[i].phase, 0);
      assert i != id ==> s.jobs[id].key != k;
      assert i in t.jobs && t.jobs[i].key == k && Doomed(t.jobs[i].phase, 0);
    } else if FailureCount(t.failures, k) == 64 {
      assert t.jobs[id].key == k && t.jobs[id].phase == FailedCounted(64);
    }
  }

  lemma BoundedStep(s: State, a: Action, k: Key)
    requires Inv(s) && Enabled(s, a) && Bounded(s, k)
    ensures Bounded(Apply(s, a), k)
  {
    if a.WorkerStep? {
      assert PhaseMatches(s.jobs[a.id], s.outcomes);
      BoundedWorker(s, a.id, a.outcome, a.cycles, k);
    } else if i :| i in s.jobs && s.jobs[i].key == k && (s.jobs[i].phase.FailedCounted? || s.jobs[i].phase.Panicked?)
                   && Doomed(s.jobs[i].phase, 0) {
      assert Apply(s, a).jobs[i] == s.jobs[i];
    }
  }

  lemma {:induction false} RunBounded(ss: seq<State>, acts: seq<Action>, i: nat, k: Key)
    requires Runs(ss, acts) && Init(ss[0]) && i <= |acts|
    ensures Bounded(ss[i], k)
  {
    if i > 0 {
      RunBounded(ss, acts, i - 1, k);
      RunInv(ss, acts, i - 1);
      BoundedStep(ss[i - 1], acts[i - 1], k);
    }
  }

  /** A key can fail n times in a row, in some run, if and only if n is at most 64. */
  lemma FailuresReachableIff(k: Key, n: nat)
    ensures (exists s :: Reachable(s) && FailuresSince(s.outcomes, k) == n) <==> n <= 64
  {
    var s := State(map[], map[], {}, map[], 0, false, Idle, map[], map[], [], {}, {}, 1);
    InitSound(s);
    if 1 <= n <= 64 {
      var t := FailsInARow(s, k, 0, n);
      ReachableLeads(s, t, PROMPTLY);
    }
    forall t | Reachable(t)
      ensures FailuresSince(t.outcomes, k) <= 64
    {
      var ss, acts :| Runs(ss, acts) && Init(ss[0]) && ss[|acts|] == t;
      RunBounded(ss, acts, |acts|, k);
      RunInv(ss, acts, |acts|);
    }
  }
}
