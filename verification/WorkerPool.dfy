/**
 The worker pool of architect/pool.go: submitters, workers, `Start` and `Stop`, interleaved at their
 atomic steps. A task is known by its number in the order of acceptance; a task that panics counts as
 finished, since its worker recovers.
 */
module WorkerPool {
  import opened Common

  const QUEUE_CAP := 64

  datatype Mode = Stopped | Running | Stopping

  /** `idle` counts the workers that are on their way to their select, `parked` those that wait in it; the
      others are busy with one task each. `doneClosed` tells whether the done channel has been closed, which
      happens at most once. */
  datatype State = State(
    mode: Mode,
    doneClosed: bool,
    accepted: nat,
    queue: seq<nat>,
    idle: nat,
    parked: nat,
    busy: multiset<nat>,
    finished: seq<nat>)

  function Init(): State {
    State(Stopped, false, 0, [], 0, 0, multiset{}, [])
  }

  datatype Step =
    | Submit           // given to a parked worker, else queued; refused when the queue is full
    | Start            // does nothing if the pool is running
    | StopClose        // Stop closes the done channel, and parked workers leave; a closed one makes it panic
    | StopReturn       // Stop's wait for the workers ends
    | Take             // an idle worker's select receives a task
    | Park             // an idle worker's select finds nothing, and waits
    | Finish(t: nat)   // a task returns or panics
    | Exit             // an idle worker's select finds the done channel closed

  /** `Start` and `Stop` share a lock that `Stop` holds while it waits. */
  predicate Enabled(s: State, step: Step) {
    match step
    case Submit => true
    case Start => !s.mode.Stopping?
    case StopClose => !s.mode.Stopping?
    case StopReturn => s.mode.Stopping? && s.idle + s.parked == 0 && s.busy == multiset{}
    case Take => s.idle > 0 && s.queue != []
    case Park => s.idle > 0 && s.queue == [] && !s.doneClosed
    case Finish(t) => t in s.busy
    case Exit => s.idle > 0 && s.doneClosed
  }

  /** A task submitted now is accepted. */
  predicate HasRoom(s: State) {
    s.parked > 0 || |s.queue| < QUEUE_CAP
  }

  function Next(workers: nat, s: State, step: Step): State
    requires Enabled(s, step)
  {
    match step
    case Submit =>
      if s.parked > 0 then
        s.(parked := s.parked - 1, busy := s.busy + multiset{s.accepted}, accepted := s.accepted + 1)
      else if |s.queue| < QUEUE_CAP then s.(queue := s.queue + [s.accepted], accepted := s.accepted + 1)
      else s
    case Start => if s.mode.Stopped? then s.(mode := Running, idle := workers) else s
    case StopClose =>
      if s.mode.Running? && !s.doneClosed then s.(mode := Stopping, doneClosed := true, parked := 0) else s
    case StopReturn => s.(mode := Stopped)
    case Take => s.(idle := s.idle - 1, busy := s.busy + multiset{s.queue[0]}, queue := s.queue[1..])
    case Park => s.(idle := s.idle - 1, parked := s.parked + 1)
    case Finish(t) => s.(idle := s.idle + 1, busy := s.busy - multiset{t}, finished := s.finished + [t])
    case Exit => s.(idle := s.idle - 1)
  }

  /** The states that some interleaving passes through. */
  ghost predicate IsPath(workers: nat, states: seq<State>, steps: seq<Step>) {
    && |states| == |steps| + 1
    && forall i :: 0 <= i < |steps| ==>
         Enabled(states[i], steps[i]) && states[i + 1] == Next(workers, states[i], steps[i])
  }

  ghost predicate IsRun(workers: nat, states: seq<State>, steps: seq<Step>) {
    IsPath(workers, states, steps) && states[0] == Init()
  }

  // ----- every accepted task is in exactly one place --------------------------------------

  /** How often a task is found in the queue, with a worker and in the finished list together. */
  ghost function Found(s: State, t: nat): nat {
    multiset(s.queue)[t] + s.busy[t] + multiset(s.finished)[t]
  }

  /** An accepted task is in one place, once; any other number is nowhere. */
  ghost predicate Placed(s: State, t: nat) {
    Found(s, t) == OneIf(t < s.accepted)
  }

  ghost predicate AllPlaced(s: State) {
    |s.queue| + |s.busy| + |s.finished| == s.accepted && forall t :: Placed(s, t)
  }

  /** The queue holds what was accepted last, in order. */
  ghost predicate InOrder(s: State) {
    |s.queue| <= s.accepted && forall i :: 0 <= i < |s.queue| ==> s.queue[i] == s.accepted - |s.queue| + i
  }

  /** All workers live until the done channel is closed; none does while the pool is stopped. A parked worker
      leaves nothing in the queue. */
  ghost predicate Staffed(workers: nat, s: State) {
    && s.idle + s.parked + |s.busy| <= workers
    && (s.mode.Running? && !s.doneClosed ==> s.idle + s.parked + |s.busy| == workers)
    && (s.mode.Stopped? ==> s.idle + s.parked + |s.busy| == 0)
    && (s.mode.Stopping? ==> s.doneClosed)
    && (s.parked > 0 ==> s.queue == [] && !s.doneClosed)
  }

  ghost predicate Inv(workers: nat, s: State) {
    |s.queue| <= QUEUE_CAP && AllPlaced(s) && InOrder(s) && Staffed(workers, s)
  }

  lemma StepKeepsPlaced(workers: nat, s: State, step: Step, t: nat)
    requires Placed(s, t) && Enabled(s, step)
    ensures Placed(Next(workers, s, step), t)
  {
    if step.Take? {
      TakeFirst(s.queue, t);
    }
  }

  lemma StepKeepsPlaces(workers: nat, s: State, step: Step)
    requires AllPlaced(s) && Enabled(s, step)
    ensures AllPlaced(Next(workers, s, step))
  {
    var u := Next(workers, s, step);
    forall t
      ensures Placed(u, t)
    {
      assert Placed(s, t);
      StepKeepsPlaced(workers, s, step, t);
    }
  }

  lemma StepKeepsOrder(workers: nat, s: State, step: Step)
    requires InOrder(s) && Staffed(workers, s) && Enabled(s, step)
    ensures InOrder(Next(workers, s, step))
  {
  }

  lemma StepKeepsStaff(workers: nat, s: State, step: Step)
    requires Staffed(workers, s) && Enabled(s, step)
    ensures Staffed(workers, Next(workers, s, step))
  {
  }

  lemma StepKeepsInv(workers: nat, s: State, step: Step)
    requires Inv(workers, s) && Enabled(s, step)
    ensures Inv(workers, Next(workers, s, step))
  {
    StepKeepsPlaces(workers, s, step);
    StepKeepsOrder(workers, s, step);
    StepKeepsStaff(workers, s, step);
  }

  lemma {:induction false} Conservation(workers: nat, states: seq<State>, steps: seq<Step>, n: nat)
    requires IsRun(workers, states, steps) && n <= |steps|
    ensures Inv(workers, states[n])
  {
    if n > 0 {
      Conservation(workers, states, steps, n - 1);
      StepKeepsInv(workers, states[n - 1], steps[n - 1]);
    }
  }

  /** Whatever the interleaving: the queue holds at most 64 tasks and at most as many run as there are
      workers; every accepted task is in exactly one of queue, worker and finished list, once, and no
      other task is; a task waits only if no later one has been started. */
  lemma ExactlyOnePlace(workers: nat, states: seq<State>, steps: seq<Step>, n: nat, t: nat)
    requires IsRun(workers, states, steps) && n <= |steps|
    ensures
      var s := states[n];
      && |s.queue| <= QUEUE_CAP && |s.busy| <= workers
      && Found(s, t) == OneIf(t < s.accepted)
      && (t in s.queue <==> s.accepted - |s.queue| <= t < s.accepted)
  {
    var s := states[n];
    Conservation(workers, states, steps, n);
    assert Placed(s, t);
    if s.accepted - |s.queue| <= t < s.accepted {
      assert s.queue[t - (s.accepted - |s.queue|)] == t;
    }
  }

  function Completed(s: State, t: nat): nat {
    multiset(s.finished)[t]
  }

  function Started(s: State, t: nat): nat {
    s.busy[t] + Completed(s, t)
  }

  lemma StepKeepsStarted(workers: nat, s: State, step: Step, t: nat)
    requires Enabled(s, step)
    ensures Started(s, t) <= Started(Next(workers, s, step), t)
    ensures Completed(s, t) <= Completed(Next(workers, s, step), t)
  {
  }

  lemma RunKeepsStarted(workers: nat, states: seq<State>, steps: seq<Step>, t: nat)
    requires IsRun(workers, states, steps)
    ensures forall i :: 0 < i < |states| ==> Grows(states[i - 1], states[i], t)
  {
    forall i | 0 < i < |states|
      ensures Grows(states[i - 1], states[i], t)
    {
      StepKeepsStarted(workers, states[i - 1], steps[i - 1], t);
    }
  }

  ghost predicate Grows(s: State, u: State, t: nat) {
    Started(s, t) <= Started(u, t) && Completed(s, t) <= Completed(u, t)
  }

  lemma {:induction false} StartedStays(states: seq<State>, m: nat, n: nat, t: nat)
    requires forall i :: 0 < i < |states| ==> Grows(states[i - 1], states[i], t)
    requires m <= n < |states|
    ensures Grows(states[m], states[n], t)
  {
    if m < n {
      StartedStays(states, m, n - 1, t);
    }
  }

  /** What has been started is never queued again, and what has finished never runs again: a task runs
      at most once. */
  lemma RunsOnce(workers: nat, states: seq<State>, steps: seq<Step>, m: nat, n: nat, t: nat)
    requires IsRun(workers, states, steps) && m <= n <= |steps| && Started(states[m], t) > 0
    ensures t !in states[n].queue
    ensures t in states[m].finished ==> t in states[n].finished && t !in states[n].busy
  {
    RunKeepsStarted(workers, states, steps, t);
    StartedStays(states, m, n, t);
    Conservation(workers, states, steps, n);
    assert Placed(states[n], t);
  }

  // ----- progress -------------------------------------------------------------------------

  /** Steps that the workers still owe. */
  function Work(s: State): nat {
    2 * |s.queue| + |s.busy|
  }

  /** As long as the done channel is open, a running pool with work left can do some of it, and each
      worker step leaves less: every accepted task finishes. */
  lemma WorkersProgress(workers: nat, states: seq<State>, steps: seq<Step>, n: nat, t: nat)
    requires IsRun(workers, states, steps) && n <= |steps| && workers > 0
    requires states[n].mode.Running? && !states[n].doneClosed
    ensures
      var s := states[n];
      && (Work(s) > 0 <==> |s.finished| < s.accepted)
      && (Work(s) > 0 ==> Enabled(s, Take) || s.busy != multiset{})
      && (Enabled(s, Take) ==> Work(Next(workers, s, Take)) < Work(s))
      && (Enabled(s, Finish(t)) ==> Work(Next(workers, s, Finish(t))) < Work(s))
  {
    var s := states[n];
    Conservation(workers, states, steps, n);
  }

  /** The done channel is never opened again, so one `Stop` at most succeeds in the life of a pool. */
  lemma {:induction false} ClosedForGood(workers: nat, states: seq<State>, steps: seq<Step>, m: nat, n: nat)
    requires IsRun(workers, states, steps) && m <= n <= |steps| && states[m].doneClosed
    ensures states[n].doneClosed
    ensures n < |steps| && steps[n].StopClose? ==> states[n + 1] == states[n]
  {
    if m < n {
      ClosedForGood(workers, states, steps, m, n - 1);
    }
  }

  /** A running pool is short of workers only if it has been stopped before. */
  lemma StalledOnlyAfterStop(workers: nat, states: seq<State>, steps: seq<Step>, n: nat)
    requires IsRun(workers, states, steps) && n <= |steps| && states[n].mode.Running?
    ensures states[n].idle + states[n].parked + |states[n].busy| < workers ==> states[n].doneClosed
  {
    Conservation(workers, states, steps, n);
  }

  // ----- stalls ---------------------------------------------------------------------------

  /** Work is queued and nobody is left to do it. */
  predicate Stalled(s: State) {
    s.queue != [] && s.idle + s.parked == 0 && s.busy == multiset{}
  }

  ghost predicate Reachable(workers: nat, s: State) {
    exists states: seq<State>, steps: seq<Step> :: IsRun(workers, states, steps) && states[|steps|] == s
  }

  lemma ReachableKeepsInv(workers: nat, s: State)
    requires Reachable(workers, s)
    ensures Inv(workers, s)
  {
    var states: seq<State>, steps: seq<Step> :| IsRun(workers, states, steps) && states[|steps|] == s;
    Conservation(workers, states, steps, |steps|);
  }

  /** The pool can get from `s` to `t` with nobody calling `Stop`. */
  ghost predicate Reaches(workers: nat, s: State, t: State) {
    exists states: seq<State>, steps: seq<Step> ::
      && IsPath(workers, states, steps) && states[0] == s && states[|steps|] == t
      && forall i :: 0 <= i < |steps| ==> !steps[i].StopClose?
  }

  lemma ReachesItself(workers: nat, s: State)
    ensures Reaches(workers, s, s)
  {
    var states, steps: seq<Step> := [s], [];
    assert IsPath(workers, states, steps) && states[0] == s && states[|steps|] == s;
  }

  lemma ReachesNext(workers: nat, s: State, t: State, step: Step)
    requires Reaches(workers, s, t) && Enabled(t, step) && !step.StopClose?
    ensures Reaches(workers, s, Next(workers, t, step))
  {
    var states: seq<State>, steps: seq<Step> :|
      && IsPath(workers, states, steps) && states[0] == s && states[|steps|] == t
      && forall i :: 0 <= i < |steps| ==> !steps[i].StopClose?;
    var u := Next(workers, t, step);
    var states', steps' := states + [u], steps + [step];
    PathOneMore(workers, states, steps, step, u);
    assert IsPath(workers, states', steps') && states'[0] == s && states'[|steps'|] == u;
  }

  lemma PathOneMore(workers: nat, states: seq<State>, steps: seq<Step>, step: Step, u: State)
    requires IsPath(workers, states, steps) && Enabled(states[|steps|], step)
    requires u == Next(workers, states[|steps|], step)
    ensures IsPath(workers, states + [u], steps + [step])
  {
    var states', steps' := states + [u], steps + [step];
    forall i | 0 <= i < |steps'|
      ensures Enabled(states'[i], steps'[i]) && states'[i + 1] == Next(workers, states'[i], steps'[i])
    {
      assert i < |steps| ==> states'[i] == states[i] && steps'[i] == steps[i] && states'[i + 1] == states[i + 1];
    }
  }

  /** Once the done channel is closed, all workers can finish what they do and leave. */
  lemma {:induction false} AllLeave(workers: nat, s: State, t: State) returns (u: State)
    requires Reaches(workers, s, t) && t.doneClosed && t.parked == 0
    ensures Reaches(workers, s, u) && u.idle + u.parked == 0 && u.busy == multiset{}
    ensures u.mode == t.mode && u.queue == t.queue && u.accepted == t.accepted
    decreases 2 * |t.busy| + t.idle
  {
    if t.busy != multiset{} {
      var k :| k in t.busy;
      ReachesNext(workers, s, t, Finish(k));
      u := AllLeave(workers, s, Next(workers, t, Finish(k)));
    } else if t.idle > 0 {
      ReachesNext(workers, s, t, Exit);
      u := AllLeave(workers, s, Next(workers, t, Exit));
    } else {
      u := t;
    }
  }

  lemma {:induction false} RunningStaysOpen(workers: nat, states: seq<State>, steps: seq<Step>, n: nat)
    requires IsPath(workers, states, steps) && n <= |steps|
    requires forall i :: 0 <= i < |steps| ==> !steps[i].StopClose?
    requires Inv(workers, states[0]) && states[0].mode.Running? && !states[0].doneClosed
    ensures Inv(workers, states[n]) && states[n].mode.Running? && !states[n].doneClosed
  {
    if n > 0 {
      RunningStaysOpen(workers, states, steps, n - 1);
      StepKeepsInv(workers, states[n - 1], steps[n - 1]);
    }
  }

  /** A running pool can stall, without anybody stopping it, exactly when it has been stopped before. */
  lemma StallsIffStoppedBefore(workers: nat, s: State)
    requires Reachable(workers, s) && s.mode.Running? && workers > 0
    ensures (exists t :: Reaches(workers, s, t) && Stalled(t)) <==> s.doneClosed
  {
    ReachableKeepsInv(workers, s);
    if s.doneClosed {
      ReachesItself(workers, s);
      var u := AllLeave(workers, s, s);
      if u.queue == [] {
        ReachesNext(workers, s, u, Submit);
        assert Stalled(Next(workers, u, Submit));
      } else {
        assert Stalled(u);
      }
    } else {
      forall t | Reaches(workers, s, t)
        ensures !Stalled(t)
      {
        OpenNeverStalls(workers, s, t);
      }
    }
  }

  lemma OpenNeverStalls(workers: nat, s: State, t: State)
    requires Inv(workers, s) && s.mode.Running? && !s.doneClosed && workers > 0 && Reaches(workers, s, t)
    ensures !Stalled(t)
  {
    var states: seq<State>, steps: seq<Step> :|
      && IsPath(workers, states, steps) && states[0] == s && states[|steps|] == t
      && forall i :: 0 <= i < |steps| ==> !steps[i].StopClose?;
    RunningStaysOpen(workers, states, steps, |steps|);
  }

  /** Such a pool there is, whatever the number of workers: started, stopped and started again, it can
      lose all workers before any work comes. */
  lemma RestartedPoolMayStall(workers: nat)
    ensures
      var s := Init().(mode := Running, doneClosed := true, accepted := 1, queue := [0]);
      Reachable(workers, s) && Stalled(s)
    ensures Reachable(workers, Init().(mode := Running, doneClosed := true, idle := workers))
  {
    var s0 := Init();
    var s1 := s0.(mode := Running, idle := workers);
    var s2 := s1.(mode := Stopping, doneClosed := true);
    var s3 := s2.(mode := Stopped, idle := 0);
    var s4 := s3.(mode := Running, idle := workers);
    InitReachable(workers);
    NextReachable(workers, s0, Start);
    NextReachable(workers, s1, StopClose);
    AllExit(workers, s2);
    NextReachable(workers, s2.(idle := 0), StopReturn);
    NextReachable(workers, s3, Start);
    AllExit(workers, s4);
    NextReachable(workers, s4.(idle := 0), Submit);
    assert [] + [0] == [0];
  }

  lemma InitReachable(workers: nat)
    ensures Reachable(workers, Init())
  {
    var states, steps: seq<Step> := [Init()], [];
    assert IsRun(workers, states, steps) && states[|steps|] == Init();
  }

  lemma NextReachable(workers: nat, s: State, step: Step)
    requires Reachable(workers, s) && Enabled(s, step)
    ensures Reachable(workers, Next(workers, s, step))
  {
    var states: seq<State>, steps: seq<Step> :| IsRun(workers, states, steps) && states[|steps|] == s;
    var t := Next(workers, s, step);
    var states', steps' := states + [t], steps + [step];
    PathOneMore(workers, states, steps, step, t);
    assert IsRun(workers, states', steps') && states'[|steps'|] == t;
  }

  lemma {:induction false} AllPark(workers: nat, s: State)
    requires Reachable(workers, s) && s.queue == [] && !s.doneClosed
    ensures Reachable(workers, s.(idle := 0, parked := s.parked + s.idle))
    decreases s.idle
  {
    if s.idle > 0 {
      NextReachable(workers, s, Park);
      AllPark(workers, s.(idle := s.idle - 1, parked := s.parked + 1));
    }
  }

  /** A started pool without work can have all its workers waiting in their select. */
  lemma AllWorkersMayWait(workers: nat)
    ensures Reachable(workers, Init().(mode := Running, parked := workers))
  {
    InitReachable(workers);
    NextReachable(workers, Init(), Start);
    AllPark(workers, Init().(mode := Running, idle := workers));
  }

  lemma {:induction false} AllExit(workers: nat, s: State)
    requires Reachable(workers, s) && s.doneClosed
    ensures Reachable(workers, s.(idle := 0))
    decreases s.idle
  {
    if s.idle > 0 {
      NextReachable(workers, s, Exit);
      AllExit(workers, s.(idle := s.idle - 1));
    }
  }
}
