/** How the dispatcher comes to its end, and how much it hands out at a time. */
module AsyncStops {
  import opened Wrappers
  import opened AsyncServer
  import opened AsyncRuns

  // ----- stopping

  /** The steps the dispatcher may still take once it was told to stop. */
  function StepsLeft(d: Dispatcher, workers: nat): nat {
    if d.Exited? then 0 else Work(d, workers) + 1
  }

  /** The steps of the dispatcher from `i` up to `j`. */
  ghost function DispatcherSteps(acts: seq<Action>, i: nat, j: nat): nat
    requires i <= j <= |acts|
    decreases j - i
  {
    if i == j then 0 else DispatcherSteps(acts, i, j - 1) + if acts[j - 1].DispatcherStep? then 1 else 0
  }

  lemma StepsFall(d: Dispatcher, workers: nat, room: nat, running: set<Key>, events: Events)
    requires !d.Exited? && room <= workers && (d.Picking? ==> |events| <= d.room)
    ensures StepsLeft(NextDispatcher(d, true, room, running, events), workers) < StepsLeft(d, workers)
  {
  }

  lemma StoppedStep(s: State, a: Action)
    requires Enabled(s, a) && s.stop
    ensures
      var t := Apply(s, a);
      && t.stop && t.workers == s.workers
      && (a.DispatcherStep? ==> StepsLeft(t.dispatcher, t.workers) < StepsLeft(s.dispatcher, s.workers))
      && (!a.DispatcherStep? ==> t.dispatcher == s.dispatcher)
  {
    if a.DispatcherStep? {
      StepsFall(s.dispatcher, s.workers, Room(s.workers, s.jobs), s.running, a.events);
    }
  }

  /** Once the server is stopped the dispatcher takes only so many steps more, whatever others do. */
  lemma {:induction false} StopEnds(ss: seq<State>, acts: seq<Action>, i: nat, j: nat)
    requires Runs(ss, acts) && i <= j <= |acts| && ss[i].stop
    ensures ss[j].stop && ss[j].workers == ss[i].workers
    ensures DispatcherSteps(acts, i, j) + StepsLeft(ss[j].dispatcher, ss[j].workers)
            <= StepsLeft(ss[i].dispatcher, ss[i].workers)
    decreases j - i
  {
    if i < j {
      StopEnds(ss, acts, i, j - 1);
      StoppedStep(ss[j - 1], acts[j - 1]);
    }
  }

  lemma ExitedStep(s: State, a: Action)
    requires Enabled(s, a) && s.dispatcher.Exited?
    ensures Apply(s, a).dispatcher.Exited? && Apply(s, a).jobs.Keys <= s.jobs.Keys
  {
  }

  /** Once it has exited it stays so, and no run is submitted any more. */
  lemma {:induction false} ExitedForever(ss: seq<State>, acts: seq<Action>, i: nat, j: nat)
    requires Runs(ss, acts) && i <= j <= |acts| && ss[i].dispatcher.Exited?
    ensures ss[j].dispatcher.Exited? && ss[j].jobs.Keys <= ss[i].jobs.Keys
    decreases j - i
  {
    if i < j {
      ExitedForever(ss, acts, i, j - 1);
      ExitedStep(ss[j - 1], acts[j - 1]);
    }
  }

  // ----- no more events than free threads

  /** The number of free threads the dispatcher goes by. */
  function Counted(d: Dispatcher): Option<nat> {
    match d
    case WantEvents(n) => Some(n)
    case Picking(n) => Some(n)
    case _ => None
  }

  /** What the dispatcher goes by after the step it went by before, or counted just then. */
  ghost predicate CountedLink(s: State, a: Action, t: State) {
    && t.workers == s.workers
    && (Counted(t.dispatcher).Some? ==> Counted(s.dispatcher) == Counted(t.dispatcher) || Counts(s, a, t.dispatcher))
  }

  /** The dispatcher counts the threads that are free, and there are some. */
  ghost predicate Counts(s: State, a: Action, d: Dispatcher) {
    && a.DispatcherStep? && s.dispatcher.Counting? && |WorkingIds(s.jobs)| < s.workers
    && Counted(d) == Some(s.workers - |WorkingIds(s.jobs)|)
  }

  lemma CountedLinked(s: State, a: Action)
    requires Enabled(s, a)
    ensures CountedLink(s, a, Apply(s, a))
  {
  }

  lemma {:induction false} CountedBack(ss: seq<State>, acts: seq<Action>, j: nat) returns (c: nat)
    requires |ss| == |acts| + 1 && j <= |acts| && ss[0].dispatcher == Idle && Counted(ss[j].dispatcher).Some?
    requires forall m | 0 <= m < j :: CountedLink(ss[m], acts[m], ss[m + 1])
    ensures c < j && Counts(ss[c], acts[c], ss[j].dispatcher) && ss[c].workers == ss[j].workers
    decreases j
  {
    assert CountedLink(ss[j - 1], acts[j - 1], ss[j - 1 + 1]);
    c := j - 1;
    if Counted(ss[j - 1].dispatcher) == Counted(ss[j].dispatcher) {
      c := CountedBack(ss, acts, j - 1);
    }
  }

  /** The dispatcher picks no more events than there were threads free when it counted them before. */
  lemma PicksFit(ss: seq<State>, acts: seq<Action>, j: nat) returns (c: nat)
    requires Runs(ss, acts) && Init(ss[0]) && j < |acts| && ss[j].dispatcher.Picking? && acts[j].DispatcherStep?
    ensures c < j && acts[c].DispatcherStep? && ss[c].dispatcher.Counting?
    ensures |acts[j].events| + |WorkingIds(ss[c].jobs)| <= ss[j].workers
  {
    forall m | 0 <= m < j
      ensures CountedLink(ss[m], acts[m], ss[m + 1])
    {
      CountedLinked(ss[m], acts[m]);
    }
    c := CountedBack(ss, acts, j);
  }
}
