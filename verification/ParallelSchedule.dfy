/**
 `ScheduleParallel` of architect/scheduler.go over the pool of architect/pool.go: one call submits its
 tasks, the pool's workers run them and send their outputs, and the call collects as many outputs as
 there are tasks. Others may use, start and stop the pool at the same time.
 */
module ParallelSchedule {
  import opened Common
  import Pool = WorkerPool

  datatype Output = Output(status: string, text: string, error: string)

  const ZERO := Output("", "", "")
  const REFUSED := Output("error", "", "skill execution backlogged")

  /** One call. `waiting` are the accepted tasks that have neither sent nor panicked; `lost` are those
      that panicked before they sent. `received` records the collected tasks in order. */
  datatype Call = Call(
    submitted: nat,
    refused: set<nat>,
    waiting: set<nat>,
    lost: set<nat>,
    channel: seq<nat>,
    received: seq<nat>,
    cancelled: bool,
    results: seq<Output>)

  /** A call for `n` tasks. */
  function NewCall(n: nat): Call {
    Call(0, {}, {}, {}, [], [], false, seq(n, _ => ZERO))
  }

  datatype CallStep =
    | Submitted(accepted: bool)
    | Sent(i: nat)
    | Panicked(i: nat)
    | Received
    | Cancelled

  predicate Collecting(n: nat, c: Call) {
    c.submitted == n && |c.received| < n && !c.cancelled
  }

  predicate CallEnabled(n: nat, c: Call, step: CallStep) {
    |c.results| == n &&
    match step
    case Submitted(_) => c.submitted < n
    case Sent(i) => i in c.waiting && |c.channel| < n
    case Panicked(i) => i in c.waiting
    case Received => Collecting(n, c) && c.channel != [] && c.channel[0] < n
    case Cancelled => Collecting(n, c)
  }

  /** `outs` are the outputs, task by task. */
  function CallNext(outs: seq<Output>, c: Call, step: CallStep): Call
    requires CallEnabled(|outs|, c, step)
  {
    match step
    case Submitted(accepted) =>
      var t := c.(submitted := c.submitted + 1);
      if accepted then t.(waiting := c.waiting + {c.submitted})
      else t.(refused := c.refused + {c.submitted}, results := c.results[c.submitted := REFUSED])
    case Sent(i) => c.(waiting := c.waiting - {i}, channel := c.channel + [i])
    case Panicked(i) => c.(waiting := c.waiting - {i}, lost := c.lost + {i})
    case Received =>
      var i := c.channel[0];
      c.(channel := c.channel[1..], received := c.received + [i],
         results := c.results[i := outs[i]])
    case Cancelled => c.(cancelled := true)
  }

  /** The call and its pool; `number` gives the pool's number of each task that was accepted. */
  datatype State = State(pool: Pool.State, call: Call, number: map<nat, nat>)

  function Init(n: nat, pool: Pool.State): State {
    State(pool, NewCall(n), map[])
  }

  datatype Step =
    | SubmitTask             // the call submits its next task; a full queue without parked workers refuses it
    | Send(i: nat)           // a task that a worker runs sends its output
    | Panic(i: nat)          // it panics instead, and its worker recovers
    | Receive                // the select receives an output
    | Cancel                 // the select finds the context done
    | Other(step: Pool.Step) // a worker, another submitter, `Start` or `Stop`

  function CallStepOf(s: State, step: Step): Option<CallStep> {
    match step
    case SubmitTask => Some(Submitted(Pool.HasRoom(s.pool)))
    case Send(i) => Some(Sent(i))
    case Panic(i) => Some(Panicked(i))
    case Receive => Some(Received)
    case Cancel => Some(Cancelled)
    case Other(_) => None
  }

  function PoolStepOf(s: State, step: Step): Option<Pool.Step> {
    match step
    case SubmitTask => Some(Pool.Submit)
    case Panic(i) => Some(Pool.Finish(if i in s.number then s.number[i] else 0))
    case Other(p) => Some(p)
    case _ => None
  }

  predicate BusyWith(s: State, i: nat) {
    i in s.number && s.number[i] in s.pool.busy
  }

  /** The pool's task `t` is one of the call that has not ended. */
  predicate Owed(s: State, t: nat) {
    exists i :: i in s.call.waiting && i in s.number && s.number[i] == t
  }

  predicate Enabled(n: nat, s: State, step: Step) {
    var c, p := CallStepOf(s, step), PoolStepOf(s, step);
    && (c.Some? ==> CallEnabled(n, s.call, c.value))
    && (p.Some? ==> Pool.Enabled(s.pool, p.value))
    && (step.Send? || step.Panic? ==> BusyWith(s, step.i))
    && (step.Other? && step.step.Finish? ==> !Owed(s, step.step.t))
  }

  function Next(outs: seq<Output>, workers: nat, s: State, step: Step): State
    requires Enabled(|outs|, s, step)
  {
    var c, p := CallStepOf(s, step), PoolStepOf(s, step);
    State(if p.Some? then Pool.Next(workers, s.pool, p.value) else s.pool,
          if c.Some? then CallNext(outs, s.call, c.value) else s.call,
          if c == Some(Submitted(true)) then s.number[s.call.submitted := s.pool.accepted] else s.number)
  }

  /** The states that some interleaving passes through. */
  ghost predicate IsPath(outs: seq<Output>, workers: nat, states: seq<State>, steps: seq<Step>) {
    && |states| == |steps| + 1
    && forall i :: 0 <= i < |steps| ==>
         Enabled(|outs|, states[i], steps[i]) && states[i + 1] == Next(outs, workers, states[i], steps[i])
  }

  /** A call on a pool that may have any past. */
  ghost predicate IsRun(outs: seq<Output>, workers: nat, states: seq<State>, steps: seq<Step>) {
    && IsPath(outs, workers, states, steps)
    && Pool.Reachable(workers, states[0].pool) && states[0] == Init(|outs|, states[0].pool)
  }

  // ----- where a task is ------------------------------------------------------------------

  ghost function Found(c: Call, i: nat): nat {
    OneIf(i in c.refused) + OneIf(i in c.waiting) + OneIf(i in c.lost)
    + multiset(c.channel)[i] + multiset(c.received)[i]
  }

  /** A submitted task is in one place, once. */
  ghost predicate Placed(c: Call, i: nat) {
    Found(c, i) == OneIf(i < c.submitted)
  }

  /** A slot holds its own output once it has been received, the refusal if it was refused, and
      nothing before. */
  ghost predicate Filled(outs: seq<Output>, c: Call, i: nat)
    requires i < |outs| == |c.results|
  {
    c.results[i] == if i in c.received then outs[i] else if i in c.refused then REFUSED else ZERO
  }

  ghost predicate Sized(n: nat, c: Call) {
    && c.submitted <= n && |c.results| == n
    && |c.refused| + |c.waiting| + |c.lost| + |c.channel| + |c.received| == c.submitted
  }

  ghost predicate CallInv(outs: seq<Output>, c: Call) {
    && Sized(|outs|, c)
    && (forall i :: Placed(c, i))
    && (forall i :: 0 <= i < |outs| ==> Filled(outs, c, i))
  }

  /** The next task to submit is nowhere yet. */
  ghost predicate Fresh(c: Call) {
    c.submitted !in c.refused && c.submitted !in c.waiting
  }

  lemma SubmitKeepsPlaced(outs: seq<Output>, c: Call, accepted: bool, i: nat)
    requires Placed(c, i) && Fresh(c) && CallEnabled(|outs|, c, Submitted(accepted))
    ensures Placed(CallNext(outs, c, Submitted(accepted)), i)
  {
  }

  lemma StepKeepsPlaced(outs: seq<Output>, c: Call, step: CallStep, i: nat)
    requires Placed(c, i) && Fresh(c) && CallEnabled(|outs|, c, step)
    ensures Placed(CallNext(outs, c, step), i)
  {
    match step
    case Submitted(accepted) => SubmitKeepsPlaced(outs, c, accepted, i);
    case Received => TakeFirst(c.channel, i);
    case Sent(_) =>
    case Panicked(_) =>
    case Cancelled =>
  }

  lemma StepKeepsSized(outs: seq<Output>, c: Call, step: CallStep)
    requires Sized(|outs|, c) && Fresh(c) && CallEnabled(|outs|, c, step)
    requires step.Panicked? ==> step.i !in c.lost
    ensures Sized(|outs|, CallNext(outs, c, step))
  {
    match step
    case Submitted(accepted) => SubmitKeepsSized(outs, c, accepted);
    case Received =>
    case Sent(_) =>
    case Panicked(_) =>
    case Cancelled =>
  }

  lemma SubmitKeepsSized(outs: seq<Output>, c: Call, accepted: bool)
    requires Sized(|outs|, c) && Fresh(c) && CallEnabled(|outs|, c, Submitted(accepted))
    ensures Sized(|outs|, CallNext(outs, c, Submitted(accepted)))
  {
  }

  lemma StepKeepsFilled(outs: seq<Output>, c: Call, step: CallStep, i: nat)
    requires Sized(|outs|, c) && CallEnabled(|outs|, c, step) && i < |outs| && Filled(outs, c, i)
    requires Placed(c, i) && Placed(c, c.submitted)
    ensures |CallNext(outs, c, step).results| == |outs| && Filled(outs, CallNext(outs, c, step), i)
  {
    var t := CallNext(outs, c, step);
    match step
    case Received => assert i in t.received <==> i in c.received || i == c.channel[0];
    case Submitted(_) =>
    case Sent(_) =>
    case Panicked(_) =>
    case Cancelled =>
  }

  lemma StepKeepsCall(outs: seq<Output>, c: Call, step: CallStep)
    requires CallInv(outs, c) && CallEnabled(|outs|, c, step)
    ensures CallInv(outs, CallNext(outs, c, step))
  {
    var t := CallNext(outs, c, step);
    assert Placed(c, c.submitted);
    assert Fresh(c);
    assert step.Panicked? ==> Placed(c, step.i);
    StepKeepsSized(outs, c, step);
    forall i
      ensures Placed(t, i)
    {
      assert Placed(c, i);
      StepKeepsPlaced(outs, c, step, i);
    }
    forall i | 0 <= i < |outs|
      ensures Filled(outs, t, i)
    {
      assert Placed(c, i) && Filled(outs, c, i);
      StepKeepsFilled(outs, c, step, i);
    }
  }

  // ----- the call and the pool together ---------------------------------------------------

  /** A waiting task is one of the pool's, queued or running, and no two are the same. */
  ghost predicate Linked(s: State) {
    && (forall i :: i in s.call.waiting ==>
          i in s.number && s.number[i] < s.pool.accepted && s.number[i] !in s.pool.finished)
    && (forall i, j :: i in s.call.waiting && j in s.call.waiting && i != j ==> s.number[i] != s.number[j])
  }

  ghost predicate Inv(outs: seq<Output>, workers: nat, s: State) {
    CallInv(outs, s.call) && Pool.Inv(workers, s.pool) && Linked(s)
  }

  lemma InitInv(outs: seq<Output>, workers: nat, pool: Pool.State)
    requires Pool.Inv(workers, pool)
    ensures Inv(outs, workers, Init(|outs|, pool))
  {
  }

  lemma SubmitKeepsLinked(outs: seq<Output>, workers: nat, s: State)
    requires Linked(s) && Enabled(|outs|, s, SubmitTask)
    requires s.call.submitted !in s.call.waiting && s.pool.accepted !in s.pool.finished
    ensures Linked(Next(outs, workers, s, SubmitTask))
  {
  }

  lemma NextIsFresh(outs: seq<Output>, workers: nat, s: State)
    requires Inv(outs, workers, s)
    ensures s.call.submitted !in s.call.waiting && s.pool.accepted !in s.pool.finished
  {
    assert Placed(s.call, s.call.submitted);
    assert Pool.Placed(s.pool, s.pool.accepted);
  }

  lemma IsOwed(s: State, i: nat)
    requires i in s.call.waiting && i in s.number
    ensures Owed(s, s.number[i])
  {
  }

  lemma PoolKeepsLinked(outs: seq<Output>, workers: nat, s: State, p: Pool.Step)
    requires Linked(s) && Enabled(|outs|, s, Other(p))
    ensures Linked(Next(outs, workers, s, Other(p)))
  {
    var t := Next(outs, workers, s, Other(p));
    forall i | i in s.call.waiting
      ensures s.number[i] !in t.pool.finished
    {
      IsOwed(s, i);
    }
  }

  lemma StepKeepsLinked(outs: seq<Output>, workers: nat, s: State, step: Step)
    requires Inv(outs, workers, s) && Enabled(|outs|, s, step)
    ensures Linked(Next(outs, workers, s, step))
  {
    match step
    case SubmitTask =>
      NextIsFresh(outs, workers, s);
      SubmitKeepsLinked(outs, workers, s);
    case Other(p) => PoolKeepsLinked(outs, workers, s, p);
    case Send(_) =>
    case Panic(_) =>
    case Receive =>
    case Cancel =>
  }

  lemma StepKeepsInv(outs: seq<Output>, workers: nat, s: State, step: Step)
    requires Inv(outs, workers, s) && Enabled(|outs|, s, step)
    ensures Inv(outs, workers, Next(outs, workers, s, step))
  {
    var c, p := CallStepOf(s, step), PoolStepOf(s, step);
    if c.Some? {
      StepKeepsCall(outs, s.call, c.value);
    }
    if p.Some? {
      Pool.StepKeepsInv(workers, s.pool, p.value);
    }
    StepKeepsLinked(outs, workers, s, step);
  }

  lemma {:induction false} PathKeepsInv(outs: seq<Output>, workers: nat, states: seq<State>, steps: seq<Step>, n: nat)
    requires IsPath(outs, workers, states, steps) && n <= |steps| && Inv(outs, workers, states[0])
    ensures Inv(outs, workers, states[n])
  {
    if n > 0 {
      PathKeepsInv(outs, workers, states, steps, n - 1);
      StepKeepsInv(outs, workers, states[n - 1], steps[n - 1]);
    }
  }

  lemma RunInv(outs: seq<Output>, workers: nat, states: seq<State>, steps: seq<Step>, n: nat)
    requires IsRun(outs, workers, states, steps) && n <= |steps|
    ensures Inv(outs, workers, states[n])
  {
    Pool.ReachableKeepsInv(workers, states[0].pool);
    InitInv(outs, workers, states[0].pool);
    PathKeepsInv(outs, workers, states, steps, n);
  }

  // ----- results --------------------------------------------------------------------------

  /** At any time, whatever the order in which tasks ran and whoever else uses the pool, no slot holds
      another task's output; no send waits, and no output is received twice. */
  lemma SlotsAreRight(outs: seq<Output>, workers: nat, states: seq<State>, steps: seq<Step>, n: nat, i: nat)
    requires IsRun(outs, workers, states, steps) && n <= |steps| && i < |outs|
    ensures
      var s := states[n];
      && |s.call.results| == |outs| && Filled(outs, s.call, i)
      && multiset(s.call.received)[i] <= 1
      && (i in s.call.waiting && BusyWith(s, i) ==> Enabled(|outs|, s, Send(i)))
  {
    var s := states[n];
    RunInv(outs, workers, states, steps, n);
    assert Placed(s.call, i) && Filled(outs, s.call, i);
    assert i in s.call.waiting ==> |s.call.waiting| > 0;
  }

  /** All outputs have been collected. */
  predicate Complete(n: nat, c: Call) {
    c.submitted == n && |c.received| == n
  }

  lemma CompleteCall(outs: seq<Output>, c: Call)
    requires CallInv(outs, c) && Complete(|outs|, c)
    ensures c.results == outs
  {
    assert c.refused == {} && c.waiting == {} && c.lost == {} && c.channel == [];
    forall i | 0 <= i < |outs|
      ensures c.results[i] == outs[i]
    {
      assert Placed(c, i) && Filled(outs, c, i);
    }
  }

  /** When the call has collected all outputs, `results[i]` is the output of task `i`, for all `i`. */
  lemma CompleteIsExact(outs: seq<Output>, workers: nat, states: seq<State>, steps: seq<Step>, n: nat)
    requires IsRun(outs, workers, states, steps) && n <= |steps| && Complete(|outs|, states[n].call)
    ensures states[n].call.results == outs
  {
    RunInv(outs, workers, states, steps, n);
    CompleteCall(outs, states[n].call);
  }

  /** Outputs are received in the order in which they are sent. */
  lemma ReceivedAsSent(outs: seq<Output>, c: Call, step: CallStep)
    requires CallEnabled(|outs|, c, step)
    ensures
      var t := CallNext(outs, c, step);
      && t.received + t.channel == c.received + c.channel + (if step.Sent? then [step.i] else [])
      && c.received <= t.received
  {
  }

  // ----- hanging --------------------------------------------------------------------------

  /** A step of the call or of a worker, other than giving up. */
  predicate Moves(step: Step) {
    !step.Cancel? && (step.Other? ==> step.step.Take? || step.step.Finish?)
  }

  /** Neither the call nor a worker can move. */
  predicate Halted(n: nat, s: State) {
    && s.call.submitted == n && s.pool.busy == multiset{} && (s.pool.idle == 0 || s.pool.queue == [])
    && (s.call.channel == [] || !Collecting(n, s.call))
  }

  /** A move that is neither a panic nor a cancellation, where there is one. */
  lemma FindMove(outs: seq<Output>, workers: nat, s: State) returns (step: Step)
    requires Inv(outs, workers, s) && !Halted(|outs|, s)
    ensures Moves(step) && !step.Panic? && Enabled(|outs|, s, step)
  {
    if s.call.submitted < |outs| {
      step := SubmitTask;
    } else if s.pool.busy != multiset{} {
      var t :| t in s.pool.busy;
      if Owed(s, t) {
        var i :| i in s.call.waiting && i in s.number && s.number[i] == t;
        assert |s.call.waiting| > 0;
        step := Send(i);
      } else {
        step := Other(Pool.Finish(t));
      }
    } else if s.pool.idle > 0 && s.pool.queue != [] {
      step := Other(Pool.Take);
    } else {
      var i := s.call.channel[0];
      assert Placed(s.call, i);
      assert multiset(s.call.channel)[i] > 0;
      step := Receive;
    }
  }

  lemma HaltedIffNoMove(outs: seq<Output>, workers: nat, s: State)
    requires Inv(outs, workers, s)
    ensures Halted(|outs|, s) <==> forall step :: Moves(step) ==> !Enabled(|outs|, s, step)
  {
    if !Halted(|outs|, s) {
      var step := FindMove(outs, workers, s);
      assert Moves(step) && Enabled(|outs|, s, step);
    }
  }

  /** The call waits for outputs that no move will bring. */
  predicate Hangs(n: nat, s: State) {
    Halted(n, s) && !Complete(n, s.call) && !s.call.cancelled
  }

  /** An accepted task is left in the queue of a pool that has no workers. */
  predicate Abandoned(s: State, i: nat) {
    && i in s.call.waiting && i in s.number && s.number[i] in s.pool.queue
    && s.pool.idle == 0 && s.pool.busy == multiset{}
  }

  lemma WaitingIsAbandoned(outs: seq<Output>, workers: nat, s: State, i: nat)
    requires Inv(outs, workers, s) && Halted(|outs|, s) && i in s.call.waiting
    ensures Abandoned(s, i)
  {
    assert Pool.Placed(s.pool, s.number[i]);
  }

  lemma HaltedHangsIff(outs: seq<Output>, workers: nat, s: State)
    requires Inv(outs, workers, s) && Halted(|outs|, s) && !s.call.cancelled
    ensures Hangs(|outs|, s) <==> s.call.refused != {} || s.call.lost != {} || exists i :: Abandoned(s, i)
  {
    var c := s.call;
    if c.waiting != {} {
      var i :| i in c.waiting;
      WaitingIsAbandoned(outs, workers, s, i);
    }
  }

  /** A call that cannot move any more hangs exactly when a task was refused, a task panicked, or an
      accepted task is left in the queue of a pool without workers. */
  lemma HangsIff(outs: seq<Output>, workers: nat, states: seq<State>, steps: seq<Step>, n: nat)
    requires IsRun(outs, workers, states, steps) && n <= |steps|
    requires Halted(|outs|, states[n]) && !states[n].call.cancelled
    ensures
      var s := states[n];
      Hangs(|outs|, s) <==> s.call.refused != {} || s.call.lost != {} || exists i :: Abandoned(s, i)
  {
    RunInv(outs, workers, states, steps, n);
    HaltedHangsIff(outs, workers, states[n]);
  }

  /** Every maximal run on a running pool whose done channel is open ends with all results in place,
      unless a task was refused or panicked or the call was cancelled. */
  lemma MaximalIsExact(outs: seq<Output>, workers: nat, states: seq<State>, steps: seq<Step>, n: nat)
    requires IsRun(outs, workers, states, steps) && n <= |steps| && workers > 0
    requires forall step :: Moves(step) ==> !Enabled(|outs|, states[n], step)
    requires states[n].pool.mode.Running? && !states[n].pool.doneClosed
    requires states[n].call.refused == {} && states[n].call.lost == {} && !states[n].call.cancelled
    ensures Complete(|outs|, states[n].call) && states[n].call.results == outs
  {
    var s := states[n];
    RunInv(outs, workers, states, steps, n);
    HaltedIffNoMove(outs, workers, s);
    HaltedHangsIff(outs, workers, s);
    CompleteCall(outs, s.call);
  }

  // ----- termination ----------------------------------------------------------------------

  /** What a call has to do itself: submit, be served by a worker twice, and receive, or be cancelled. */
  function CallWork(n: nat, c: Call): int {
    5 * (n - c.submitted) + 2 * |c.waiting| + |c.channel| + OneIf(!c.cancelled)
  }

  /** Moves still to come, and the cancellation. */
  function Work(n: nat, s: State): int {
    CallWork(n, s.call) + Pool.Work(s.pool)
  }

  lemma CallStepWork(outs: seq<Output>, c: Call, step: CallStep)
    requires CallInv(outs, c) && CallEnabled(|outs|, c, step)
    ensures CallWork(|outs|, CallNext(outs, c, step)) <= CallWork(|outs|, c) - if step.Submitted? then 3 else 1
  {
    assert Placed(c, c.submitted);
  }

  lemma PoolStepWork(workers: nat, p: Pool.State, step: Pool.Step)
    requires Pool.Enabled(p, step)
    ensures Pool.Work(Pool.Next(workers, p, step))
            <= Pool.Work(p) + if step.Submit? then 2 else if step.Take? || step.Finish? then -1 else 0
  {
  }

  lemma StepWork(outs: seq<Output>, workers: nat, s: State, step: Step)
    requires CallInv(outs, s.call) && Enabled(|outs|, s, step)
    ensures
      var w, v := Work(|outs|, s), Work(|outs|, Next(outs, workers, s, step));
      v <= w + (if Moves(step) || step.Cancel? then -1 else if step == Other(Pool.Submit) then 2 else 0)
  {
    var c, p := CallStepOf(s, step), PoolStepOf(s, step);
    if c.Some? {
      CallStepWork(outs, s.call, c.value);
    }
    if p.Some? {
      PoolStepWork(workers, s.pool, p.value);
    }
  }

  function CountMoves(steps: seq<Step>): nat {
    if steps == [] then 0
    else
      var k := |steps| - 1;
      CountMoves(steps[..k]) + OneIf(Moves(steps[k]) || steps[k].Cancel?)
  }

  function CountForeign(steps: seq<Step>): nat {
    if steps == [] then 0
    else
      var k := |steps| - 1;
      CountForeign(steps[..k]) + OneIf(steps[k] == Other(Pool.Submit))
  }

  lemma {:induction false} MovesSoFar(outs: seq<Output>, workers: nat, states: seq<State>, steps: seq<Step>, n: nat)
    requires IsPath(outs, workers, states, steps) && n <= |steps| && Inv(outs, workers, states[0])
    ensures CountMoves(steps[..n]) + Work(|outs|, states[n]) <= Work(|outs|, states[0]) + 2 * CountForeign(steps[..n])
  {
    if n > 0 {
      MovesSoFar(outs, workers, states, steps, n - 1);
      PathKeepsInv(outs, workers, states, steps, n - 1);
      StepWork(outs, workers, states[n - 1], steps[n - 1]);
      assert steps[..n][..n - 1] == steps[..n - 1];
    }
  }

  /** The call and the workers make no more moves than five for each task, two for each task queued and
      one for each task running when the call starts, and two for each that others submit meanwhile: so
      every run of moves is maximal after finitely many of them. */
  lemma MovesAreBounded(outs: seq<Output>, workers: nat, states: seq<State>, steps: seq<Step>)
    requires IsRun(outs, workers, states, steps)
    ensures CountMoves(steps) <= 5 * |outs| + 2 * |states[0].pool.queue| + |states[0].pool.busy| + 1
                                 + 2 * CountForeign(steps)
  {
    RunInv(outs, workers, states, steps, 0);
    MovesSoFar(outs, workers, states, steps, |steps|);
    PathKeepsInv(outs, workers, states, steps, |steps|);
    assert steps[..|steps|] == steps;
  }

  lemma {:induction false} AllCounted(steps: seq<Step>)
    requires forall i :: 0 <= i < |steps| ==> Moves(steps[i]) || steps[i].Cancel?
    ensures CountMoves(steps) == |steps| && CountForeign(steps) == 0
  {
    if steps != [] {
      AllCounted(steps[..|steps| - 1]);
    }
  }

  /** A run of moves alone is no longer than that. */
  lemma RunsOfMovesEnd(outs: seq<Output>, workers: nat, states: seq<State>, steps: seq<Step>)
    requires IsRun(outs, workers, states, steps)
    requires forall i :: 0 <= i < |steps| ==> Moves(steps[i]) || steps[i].Cancel?
    ensures |steps| <= 5 * |outs| + 2 * |states[0].pool.queue| + |states[0].pool.busy| + 1
  {
    AllCounted(steps);
    MovesAreBounded(outs, workers, states, steps);
  }

  // ----- when a call can hang -------------------------------------------------------------

  predicate ByWorker(step: Pool.Step) {
    step.Take? || step.Park? || step.Finish? || step.Exit?
  }

  /** Nothing but the call and the workers acts, no task panics, and the call is not cancelled. */
  predicate Undisturbed(step: Step) {
    !step.Panic? && !step.Cancel? && (step.Other? ==> ByWorker(step.step))
  }

  ghost predicate Reaches(outs: seq<Output>, workers: nat, s: State, t: State) {
    exists states: seq<State>, steps: seq<Step> ::
      && IsPath(outs, workers, states, steps) && states[0] == s && states[|steps|] == t
      && forall i :: 0 <= i < |steps| ==> Undisturbed(steps[i])
  }

  lemma ReachesItself(outs: seq<Output>, workers: nat, s: State)
    ensures Reaches(outs, workers, s, s)
  {
    var states, steps: seq<Step> := [s], [];
    assert IsPath(outs, workers, states, steps) && states[0] == s && states[|steps|] == s;
  }

  lemma ReachesNext(outs: seq<Output>, workers: nat, s: State, t: State, step: Step)
    requires Reaches(outs, workers, s, t) && Enabled(|outs|, t, step) && Undisturbed(step)
    ensures Reaches(outs, workers, s, Next(outs, workers, t, step))
  {
    var states: seq<State>, steps: seq<Step> :|
      && IsPath(outs, workers, states, steps) && states[0] == s && states[|steps|] == t
      && forall i :: 0 <= i < |steps| ==> Undisturbed(steps[i]);
    var u := Next(outs, workers, t, step);
    var states', steps' := states + [u], steps + [step];
    PathOneMore(outs, workers, states, steps, step, u);
    assert IsPath(outs, workers, states', steps') && states'[0] == s && states'[|steps'|] == u;
  }

  lemma PathOneMore(outs: seq<Output>, workers: nat, states: seq<State>, steps: seq<Step>, step: Step, u: State)
    requires IsPath(outs, workers, states, steps) && Enabled(|outs|, states[|steps|], step)
    requires u == Next(outs, workers, states[|steps|], step)
    ensures IsPath(outs, workers, states + [u], steps + [step])
  {
    var states', steps' := states + [u], steps + [step];
    forall i | 0 <= i < |steps'|
      ensures Enabled(|outs|, states'[i], steps'[i]) && states'[i + 1] == Next(outs, workers, states'[i], steps'[i])
    {
      assert i < |steps| ==> states'[i] == states[i] && steps'[i] == steps[i] && states'[i + 1] == states[i + 1];
    }
  }

  /** The pool runs, is open, has workers, and takes `n` more tasks even if no worker comes back for more: parked
      workers take one each, the queue takes the others. */
  predicate Suffices(workers: nat, pool: Pool.State, n: nat) {
    && workers > 0 && pool.mode.Running? && !pool.doneClosed
    && |pool.queue| + n <= Pool.QUEUE_CAP + pool.parked
  }

  /** All goes well: what is left to submit fits the queue, and nothing was refused or lost. */
  ghost predicate Well(n: nat, s: State) {
    && s.call.submitted <= n && s.pool.mode.Running? && !s.pool.doneClosed
    && |s.pool.queue| + (n - s.call.submitted) <= Pool.QUEUE_CAP + s.pool.parked
    && s.call.refused == {} && s.call.lost == {} && !s.call.cancelled
  }

  lemma StepKeepsWell(outs: seq<Output>, workers: nat, s: State, step: Step)
    requires Well(|outs|, s) && Enabled(|outs|, s, step) && Undisturbed(step)
    ensures Well(|outs|, Next(outs, workers, s, step))
  {
  }

  lemma {:induction false} PathKeepsWell(outs: seq<Output>, workers: nat, states: seq<State>, steps: seq<Step>, n: nat)
    requires IsPath(outs, workers, states, steps) && n <= |steps|
    requires forall i :: 0 <= i < |steps| ==> Undisturbed(steps[i])
    requires Well(|outs|, states[0])
    ensures Well(|outs|, states[n])
  {
    if n > 0 {
      PathKeepsWell(outs, workers, states, steps, n - 1);
      StepKeepsWell(outs, workers, states[n - 1], steps[n - 1]);
    }
  }

  lemma WellNeverHangs(outs: seq<Output>, workers: nat, s: State, t: State)
    requires Inv(outs, workers, s) && Well(|outs|, s) && workers > 0 && Reaches(outs, workers, s, t)
    ensures !Hangs(|outs|, t)
  {
    var states: seq<State>, steps: seq<Step> :|
      && IsPath(outs, workers, states, steps) && states[0] == s && states[|steps|] == t
      && forall i :: 0 <= i < |steps| ==> Undisturbed(steps[i]);
    PathKeepsInv(outs, workers, states, steps, |steps|);
    PathKeepsWell(outs, workers, states, steps, |steps|);
    if Halted(|outs|, t) {
      HaltedHangsIff(outs, workers, t);
    }
  }

  /** All tasks are submitted before any worker moves; so far nothing was sent. */
  ghost predicate JustSubmitted(n: nat, pool: Pool.State, t: State) {
    && t.call.submitted <= n && t.call.channel == [] && t.call.received == [] && !t.call.cancelled
    && t.pool.idle == pool.idle && t.pool.mode == pool.mode && t.pool.doneClosed == pool.doneClosed
    && t.pool.parked <= pool.parked && (pool.parked == 0 ==> t.pool.busy == pool.busy)
    && (t.call.refused == {} ==> |t.pool.queue| + pool.parked == |pool.queue| + t.call.submitted + t.pool.parked)
    && t.pool.accepted >= pool.accepted && forall i :: i in t.number ==> t.number[i] >= pool.accepted
  }

  lemma SubmitKeepsJust(outs: seq<Output>, workers: nat, pool: Pool.State, t: State)
    requires Inv(outs, workers, t) && JustSubmitted(|outs|, pool, t) && t.call.submitted < |outs|
    ensures Enabled(|outs|, t, SubmitTask) && JustSubmitted(|outs|, pool, Next(outs, workers, t, SubmitTask))
  {
  }

  lemma {:induction false} SubmitAll(outs: seq<Output>, workers: nat, s: State, pool: Pool.State, t: State)
    returns (u: State)
    requires Reaches(outs, workers, s, t) && Inv(outs, workers, t) && JustSubmitted(|outs|, pool, t)
    ensures Reaches(outs, workers, s, u) && Inv(outs, workers, u) && JustSubmitted(|outs|, pool, u)
    ensures u.call.submitted == |outs|
    decreases |outs| - t.call.submitted
  {
    if t.call.submitted == |outs| {
      u := t;
    } else {
      SubmitKeepsJust(outs, workers, pool, t);
      ReachesNext(outs, workers, s, t, SubmitTask);
      StepKeepsInv(outs, workers, t, SubmitTask);
      u := SubmitAll(outs, workers, s, pool, Next(outs, workers, t, SubmitTask));
    }
  }

  /** Whatever a worker is busy with comes to an end, and what was refused stays refused. */
  lemma {:induction false} RunToHalt(outs: seq<Output>, workers: nat, s: State, t: State) returns (u: State)
    requires Reaches(outs, workers, s, t) && Inv(outs, workers, t) && !t.call.cancelled
    ensures Reaches(outs, workers, s, u) && Inv(outs, workers, u) && !u.call.cancelled && Halted(|outs|, u)
    ensures t.call.refused <= u.call.refused
    decreases Work(|outs|, t)
  {
    if Halted(|outs|, t) {
      u := t;
    } else {
      var step := FindMove(outs, workers, t);
      ReachesNext(outs, workers, s, t, step);
      StepKeepsInv(outs, workers, t, step);
      StepWork(outs, workers, t, step);
      u := RunToHalt(outs, workers, s, Next(outs, workers, t, step));
    }
  }

  /** A pool that may lose its workers loses them. */
  lemma {:induction false} AllLeave(outs: seq<Output>, workers: nat, s: State, t: State) returns (u: State)
    requires Reaches(outs, workers, s, t) && Inv(outs, workers, t)
    requires t.call.submitted == |outs| && t.call.channel == [] && t.call.received == [] && !t.call.cancelled
    requires forall k :: k in t.pool.busy ==> !Owed(t, k)
    requires t.pool.idle > 0 || t.pool.busy != multiset{} ==> t.pool.doneClosed
    ensures Reaches(outs, workers, s, u) && u.call == t.call && u.pool.idle == 0 && u.pool.busy == multiset{}
    decreases 2 * |t.pool.busy| + t.pool.idle
  {
    if t.pool.busy != multiset{} {
      var k :| k in t.pool.busy;
      ReachesNext(outs, workers, s, t, Other(Pool.Finish(k)));
      StepKeepsInv(outs, workers, t, Other(Pool.Finish(k)));
      u := AllLeave(outs, workers, s, Next(outs, workers, t, Other(Pool.Finish(k))));
    } else if t.pool.idle > 0 {
      ReachesNext(outs, workers, s, t, Other(Pool.Exit));
      StepKeepsInv(outs, workers, t, Other(Pool.Exit));
      u := AllLeave(outs, workers, s, Next(outs, workers, t, Other(Pool.Exit)));
    } else {
      u := t;
    }
  }

  /** A task that ran before the call began is none of the call's. */
  lemma NoneOwed(workers: nat, pool: Pool.State, u: State, k: nat)
    requires Pool.Inv(workers, pool) && k in pool.busy
    requires forall i :: i in u.number ==> u.number[i] >= pool.accepted
    ensures !Owed(u, k)
  {
    assert Pool.Placed(pool, k);
  }

  lemma MissingWorkersHang(outs: seq<Output>, workers: nat, pool: Pool.State, s: State, u: State) returns (t: State)
    requires Reaches(outs, workers, s, u) && Inv(outs, workers, u) && JustSubmitted(|outs|, pool, u)
    requires u.call.submitted == |outs| > 0
    requires Pool.Inv(workers, pool) && (workers == 0 || !pool.mode.Running? || pool.doneClosed)
    ensures Reaches(outs, workers, s, t) && Hangs(|outs|, t)
  {
    forall k | k in u.pool.busy
      ensures !Owed(u, k)
    {
      NoneOwed(workers, pool, u, k);
    }
    t := AllLeave(outs, workers, s, u);
  }

  lemma FullQueueHangs(outs: seq<Output>, workers: nat, pool: Pool.State, s: State, u: State) returns (t: State)
    requires Reaches(outs, workers, s, u) && Inv(outs, workers, u) && JustSubmitted(|outs|, pool, u)
    requires u.call.submitted == |outs| && |pool.queue| + |outs| > Pool.QUEUE_CAP + pool.parked
    ensures Reaches(outs, workers, s, t) && Hangs(|outs|, t)
  {
    assert u.call.refused != {};
    t := RunToHalt(outs, workers, s, u);
    HaltedHangsIff(outs, workers, t);
  }

  lemma InsufficientHangs(outs: seq<Output>, workers: nat, pool: Pool.State) returns (t: State)
    requires Pool.Inv(workers, pool) && |outs| > 0 && !Suffices(workers, pool, |outs|)
    ensures Reaches(outs, workers, Init(|outs|, pool), t) && Hangs(|outs|, t)
  {
    var s := Init(|outs|, pool);
    InitInv(outs, workers, pool);
    ReachesItself(outs, workers, s);
    var u := SubmitAll(outs, workers, s, pool, s);
    if workers == 0 || !pool.mode.Running? || pool.doneClosed {
      t := MissingWorkersHang(outs, workers, pool, s, u);
    } else {
      t := FullQueueHangs(outs, workers, pool, s, u);
    }
  }

  lemma EmptyCallEnds(outs: seq<Output>, workers: nat, s: State)
    requires Inv(outs, workers, s) && |outs| == 0
    ensures !Hangs(|outs|, s)
  {
  }

  lemma NeverHangs(outs: seq<Output>, workers: nat, pool: Pool.State, t: State)
    requires Pool.Inv(workers, pool) && (|outs| == 0 || Suffices(workers, pool, |outs|))
    requires Reaches(outs, workers, Init(|outs|, pool), t)
    ensures !Hangs(|outs|, t)
  {
    var s := Init(|outs|, pool);
    InitInv(outs, workers, pool);
    if |outs| == 0 {
      var states: seq<State>, steps: seq<Step> :|
        && IsPath(outs, workers, states, steps) && states[0] == s && states[|steps|] == t
        && forall i :: 0 <= i < |steps| ==> Undisturbed(steps[i]);
      PathKeepsInv(outs, workers, states, steps, |steps|);
      EmptyCallEnds(outs, workers, t);
    } else {
      WellNeverHangs(outs, workers, s, t);
    }
  }

  /** Left to itself, without panics and cancellation, a call can hang exactly when it has tasks and the
      pool is not running, was stopped before, has no workers, or lacks room for all the tasks at once in its
      queue and with its parked workers. */
  lemma CanHangIff(outs: seq<Output>, workers: nat, pool: Pool.State)
    requires Pool.Reachable(workers, pool)
    ensures (exists t :: Reaches(outs, workers, Init(|outs|, pool), t) && Hangs(|outs|, t))
            <==> |outs| > 0 && !Suffices(workers, pool, |outs|)
  {
    Pool.ReachableKeepsInv(workers, pool);
    if |outs| > 0 && !Suffices(workers, pool, |outs|) {
      var t := InsufficientHangs(outs, workers, pool);
    } else {
      forall t | Reaches(outs, workers, Init(|outs|, pool), t)
        ensures !Hangs(|outs|, t)
      {
        NeverHangs(outs, workers, pool, t);
      }
    }
  }

  // ----- the collecting loop --------------------------------------------------------------

  /** The second loop of the call: `results` after the first loop, the outputs in the order of their
      arrival, and the number of them that arrive before the context is done. */
  method Collect(outs: seq<Output>, results: array<Output>, arrivals: seq<nat>) returns (complete: bool)
    requires results.Length == |outs| && |arrivals| <= |outs|
    requires forall k :: 0 <= k < |arrivals| ==> arrivals[k] < |outs|
    modifies results
    ensures complete == (|arrivals| == |outs|)
    ensures forall i :: 0 <= i < |outs| ==> results[i] == if i in arrivals then outs[i] else old(results[i])
  {
    var k := 0;
    while k < |outs|
      invariant k <= |arrivals|
      invariant forall i :: 0 <= i < |outs| ==> results[i] == if i in arrivals[..k] then outs[i] else old(results[i])
    {
      if k == |arrivals| {
        assert arrivals[..k] == arrivals;
        return false;
      }
      var idx := arrivals[k];
      assert forall i :: i in arrivals[..k + 1] <==> i in arrivals[..k] || i == idx;
      results[idx] := outs[idx];
      k := k + 1;
    }
    assert arrivals[..k] == arrivals;
    complete := true;
  }
}
