/** What a call of `register` or `schedule` does, step by step, whatever happens in between. */
module AsyncCalls {
  import opened AsyncServer

  /** `n` is the first step of caller `id` after `m`. */
  ghost predicate NextStep(acts: seq<Action>, m: nat, n: nat, id: nat) {
    m < n < |acts| && acts[n] == ClientStep(id) && forall i | m < i < n :: acts[i] != ClientStep(id)
  }

  /** `ms` are the next steps of caller `id` after `i`, one after the other. */
  ghost predicate StepsAfter(acts: seq<Action>, i: nat, ms: seq<nat>, id: nat) {
    forall n | 0 <= n < |ms| :: NextStep(acts, Previous(i, ms, n), ms[n], id)
  }

  function Previous(i: nat, ms: seq<nat>, n: nat): nat
    requires n < |ms|
  {
    if n == 0 then i else ms[n - 1]
  }

  lemma OthersLeaveCall(s: State, a: Action, id: nat)
    requires Enabled(s, a) && id in s.clients && a != ClientStep(id)
    ensures id in Apply(s, a).clients && Apply(s, a).clients[id] == s.clients[id]
  {
  }

  lemma {:induction false} CallWaits(ss: seq<State>, acts: seq<Action>, i: nat, j: nat, id: nat)
    requires Runs(ss, acts) && i <= j <= |acts| && id in ss[i].clients
    requires forall m | i <= m < j :: acts[m] != ClientStep(id)
    ensures id in ss[j].clients && ss[j].clients[id] == ss[i].clients[id]
    decreases j - i
  {
    if i < j {
      CallWaits(ss, acts, i, j - 1, id);
      OthersLeaveCall(ss[j - 1], acts[j - 1], id);
    }
  }

  /** The next step of a call finds it as its last one left it, and goes on from there. */
  lemma CallGoesOn(ss: seq<State>, acts: seq<Action>, m: nat, n: nat, id: nat, k: Key, c: Call)
    requires Runs(ss, acts) && NextStep(acts, m, n, id)
    requires id in ss[m + 1].clients && ss[m + 1].clients[id] == Client(k, c)
    ensures id in ss[n].clients && ss[n].clients[id] == Client(k, c) && Enabled(ss[n], acts[n])
    ensures ss[n + 1] == StepClient(ss[n], id)
  {
    CallWaits(ss, acts, m + 1, n, id);
  }

  lemma RegisterBegins(ss: seq<State>, acts: seq<Action>, i: nat, ms: seq<nat>, id: nat, k: Key, f: Callback)
    requires Runs(ss, acts) && i < |acts| && acts[i] == Register(id, k, f) && |ms| == 4 && StepsAfter(acts, i, ms, id)
    ensures ss[ms[1] + 1].dispatch == ss[ms[1]].dispatch[k := f]
    ensures id in ss[ms[1] + 1].clients && ss[ms[1] + 1].clients[id] == Client(k, RegisterWantRetry(f))
  {
    assert NextStep(acts, i, ms[0], id) && NextStep(acts, ms[0], ms[1], id);
    CallGoesOn(ss, acts, i, ms[0], id, k, RegisterWantDispatch(f));
    CallGoesOn(ss, acts, ms[0], ms[1], id, k, RegisterInDispatch(f));
  }

  /**
   A call of `register` makes its callback the one for the key with its second step, and puts it
   up for running at once with its fourth, after which it has returned.
   */
  lemma RegisterWrites(ss: seq<State>, acts: seq<Action>, i: nat, ms: seq<nat>, id: nat, k: Key, f: Callback)
    requires Runs(ss, acts) && i < |acts| && acts[i] == Register(id, k, f) && |ms| == 4 && StepsAfter(acts, i, ms, id)
    ensures ss[ms[1] + 1].dispatch == ss[ms[1]].dispatch[k := f]
    ensures ss[ms[3] + 1].retry == ss[ms[3]].retry[k := (ss[ms[3]].clock, f)] && id !in ss[ms[3] + 1].clients
  {
    RegisterBegins(ss, acts, i, ms, id, k, f);
    assert NextStep(acts, ms[1], ms[2], id) && NextStep(acts, ms[2], ms[3], id);
    CallGoesOn(ss, acts, ms[1], ms[2], id, k, RegisterWantRetry(f));
    CallGoesOn(ss, acts, ms[2], ms[3], id, k, RegisterInserting(f));
  }

  lemma ScheduleLooks(ss: seq<State>, acts: seq<Action>, i: nat, ms: seq<nat>, id: nat, k: Key)
    requires Runs(ss, acts) && i < |acts| && acts[i] == Schedule(id, k) && |ms| >= 4 && StepsAfter(acts, i, ms, id)
    ensures id in ss[ms[1] + 1].clients
    ensures ss[ms[1] + 1].clients[id] == Client(k, ScheduleWantRetry(k in ss[ms[1]].dispatch))
  {
    assert NextStep(acts, i, ms[0], id) && NextStep(acts, ms[0], ms[1], id);
    CallGoesOn(ss, acts, i, ms[0], id, k, ScheduleWantDispatch);
    CallGoesOn(ss, acts, ms[0], ms[1], id, k, ScheduleInDispatch);
  }

  lemma ScheduleGoesOn(ss: seq<State>, acts: seq<Action>, i: nat, ms: seq<nat>, id: nat, k: Key)
    requires Runs(ss, acts) && i < |acts| && acts[i] == Schedule(id, k) && |ms| >= 4 && StepsAfter(acts, i, ms, id)
    ensures id in ss[ms[3] + 1].clients <==> k in ss[ms[1]].dispatch && k !in ss[ms[3]].retry
    ensures id in ss[ms[3] + 1].clients ==> ss[ms[3] + 1].clients[id] == Client(k, ScheduleWantFunction)
    ensures ss[ms[3] + 1].retry == ss[ms[3]].retry
  {
    ScheduleLooks(ss, acts, i, ms, id, k);
    var has := k in ss[ms[1]].dispatch;
    assert NextStep(acts, ms[1], ms[2], id) && NextStep(acts, ms[2], ms[3], id);
    CallGoesOn(ss, acts, ms[1], ms[2], id, k, ScheduleWantRetry(has));
    CallGoesOn(ss, acts, ms[2], ms[3], id, k, ScheduleInRetry(has));
  }

  lemma ScheduleReads(ss: seq<State>, acts: seq<Action>, i: nat, ms: seq<nat>, id: nat, k: Key)
    requires Runs(ss, acts) && i < |acts| && acts[i] == Schedule(id, k) && |ms| == 8 && StepsAfter(acts, i, ms, id)
    requires k in ss[ms[1]].dispatch && k !in ss[ms[3]].retry
    ensures k in ss[ms[5]].dispatch && id in ss[ms[5] + 1].clients
    ensures ss[ms[5] + 1].clients[id] == Client(k, ScheduleWantInsert(ss[ms[5]].dispatch[k]))
  {
    ScheduleGoesOn(ss, acts, i, ms, id, k);
    assert NextStep(acts, ms[3], ms[4], id) && NextStep(acts, ms[4], ms[5], id);
    CallGoesOn(ss, acts, ms[3], ms[4], id, k, ScheduleWantFunction);
    CallGoesOn(ss, acts, ms[4], ms[5], id, k, ScheduleInFunction);
  }

  /**
   A call of `schedule` goes on after its fourth step, in which it looks for the key in the retry
   map, exactly if the key is not there and was registered when it looked two steps before.
   */
  lemma ScheduleDecides(ss: seq<State>, acts: seq<Action>, i: nat, ms: seq<nat>, id: nat, k: Key)
    requires Runs(ss, acts) && i < |acts| && acts[i] == Schedule(id, k) && |ms| >= 4 && StepsAfter(acts, i, ms, id)
    ensures id in ss[ms[3] + 1].clients <==> k in ss[ms[1]].dispatch && k !in ss[ms[3]].retry
    ensures ss[ms[3] + 1].retry == ss[ms[3]].retry
  {
    ScheduleGoesOn(ss, acts, i, ms, id, k);
  }

  /** It then puts up, at once, the callback it finds with its sixth step, which is there. */
  lemma ScheduleInserts(ss: seq<State>, acts: seq<Action>, i: nat, ms: seq<nat>, id: nat, k: Key)
    requires Runs(ss, acts) && i < |acts| && acts[i] == Schedule(id, k) && |ms| == 8 && StepsAfter(acts, i, ms, id)
    requires k in ss[ms[1]].dispatch && k !in ss[ms[3]].retry
    ensures k in ss[ms[5]].dispatch
    ensures ss[ms[7] + 1].retry == ss[ms[7]].retry[k := (ss[ms[7]].clock, ss[ms[5]].dispatch[k])]
    ensures id !in ss[ms[7] + 1].clients
  {
    ScheduleReads(ss, acts, i, ms, id, k);
    var f := ss[ms[5]].dispatch[k];
    assert NextStep(acts, ms[5], ms[6], id) && NextStep(acts, ms[6], ms[7], id);
    CallGoesOn(ss, acts, ms[5], ms[6], id, k, ScheduleWantInsert(f));
    CallGoesOn(ss, acts, ms[6], ms[7], id, k, ScheduleInserting(f));
  }
}
