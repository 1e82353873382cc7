/**
 The asynchronous ledger of viking/ledger.go as a state machine: any number of concurrent `Record`
 and `Close` calls and the one `drain` goroutine, interleaved at their atomic steps. Together with
 LedgerFile: what was accepted is what the file holds, in order.
 */
module LedgerProtocol {
  import opened Common
  import opened LedgerFile

  const CAPACITY := 64

  /** How far the one `Close` call that found the ledger open has come. */
  datatype Closer = Open | Swapped | Waiting | Returned

  /** `checking` are the entries of `Record` calls that have found the ledger open and not yet sent;
      `accepted` and `processed` record what was sent and what `drain` has dealt with, the latter with
      the outcome of the append. */
  datatype State = State(
    closer: Closer,
    chanClosed: bool,
    buffer: seq<Entry>,
    checking: multiset<Entry>,
    inFlight: Option<Entry>,
    drainDone: bool,
    accepted: seq<Entry>,
    processed: seq<(Entry, bool)>)

  function Init(): State {
    State(Open, false, [], multiset{}, None, false, [], [])
  }

  datatype Step =
    | RecordCheck(e: Entry)   // l.closed.Load(); a closed ledger drops the entry
    | RecordSend(e: Entry)    // the select; a closed channel panics, which is recovered
    | CloseSwap               // l.closed.Swap(true)
    | CloseChannel            // close(l.ch)
    | CloseReturn             // l.drainWg.Wait() returns
    | DrainReceive            // the range over the channel takes an entry
    | DrainAppend(ok: bool, got: nat)   // LedgerSafeAppend reads `got` bytes and succeeds, or its error is logged
    | DrainExit               // the range ends

  predicate Enabled(s: State, step: Step) {
    match step
    case RecordCheck(_) => true
    case RecordSend(e) => e in s.checking
    case CloseSwap => true
    case CloseChannel => s.closer.Swapped?
    case CloseReturn => s.closer.Waiting? && s.drainDone
    case DrainReceive => s.inFlight.None? && s.buffer != []
    case DrainAppend(_, _) => s.inFlight.Some?
    case DrainExit => s.inFlight.None? && s.buffer == [] && s.chanClosed && !s.drainDone
  }

  function Next(s: State, step: Step): State
    requires Enabled(s, step)
  {
    match step
    case RecordCheck(e) =>
      if s.closer.Open? then s.(checking := s.checking + multiset{e}) else s
    case RecordSend(e) =>
      var t := s.(checking := s.checking - multiset{e});
      if s.chanClosed || |s.buffer| >= CAPACITY then t
      else t.(buffer := s.buffer + [e], accepted := s.accepted + [e])
    case CloseSwap => if s.closer.Open? then s.(closer := Swapped) else s
    case CloseChannel => s.(closer := Waiting, chanClosed := true)
    case CloseReturn => s.(closer := Returned)
    case DrainReceive => s.(inFlight := Some(s.buffer[0]), buffer := s.buffer[1..])
    case DrainAppend(ok, _) => s.(inFlight := None, processed := s.processed + [(s.inFlight.value, ok)])
    case DrainExit => s.(drainDone := true)
  }

  /** The states that some interleaving reaches. */
  ghost predicate IsRun(states: seq<State>, steps: seq<Step>) {
    && |states| == |steps| + 1 && states[0] == Init()
    && forall i :: 0 <= i < |steps| ==> Enabled(states[i], steps[i]) && states[i + 1] == Next(states[i], steps[i])
  }

  // ----- conservation ---------------------------------------------------------------------

  function Entries(processed: seq<(Entry, bool)>): (es: seq<Entry>)
    ensures |es| == |processed|
  {
    seq(|processed|, i requires 0 <= i < |processed| => processed[i].0)
  }

  function Holding(s: State): seq<Entry> {
    if s.inFlight.Some? then [s.inFlight.value] else []
  }

  ghost predicate Inv(s: State) {
    && s.accepted == Entries(s.processed) + Holding(s) + s.buffer
    && |s.buffer| <= CAPACITY
    && (s.chanClosed <==> s.closer.Waiting? || s.closer.Returned?)
    && (s.drainDone ==> s.chanClosed && s.buffer == [] && s.inFlight.None?)
    && (s.closer.Returned? ==> s.drainDone)
  }

  lemma StepKeepsInv(s: State, step: Step)
    requires Inv(s) && Enabled(s, step)
    ensures Inv(Next(s, step))
  {
    var t := Next(s, step);
    match step
    case DrainReceive =>
      assert Holding(s) == [] && Holding(t) == [s.buffer[0]];
      assert t.accepted == Entries(t.processed) + Holding(t) + t.buffer;
    case DrainAppend(ok, _) =>
      assert Entries(t.processed) == Entries(s.processed) + Holding(s);
      assert t.accepted == Entries(t.processed) + Holding(t) + t.buffer;
    case _ =>
  }

  /** At every point of every interleaving, what was accepted is, in order, what was dealt with, then
      the entry in flight, then the channel's buffer, which never holds more than 64. */
  lemma {:induction false} Conservation(states: seq<State>, steps: seq<Step>, n: nat)
    requires IsRun(states, steps) && n < |states|
    ensures Inv(states[n])
  {
    if n > 0 {
      Conservation(states, steps, n - 1);
      StepKeepsInv(states[n - 1], steps[n - 1]);
    }
  }

  /** A `Record` reaches the channel unless the ledger was closed when it looked, and its entry is dropped there only
      if the channel has been closed or holds 64 entries. */
  lemma DroppedIff(s: State, e: Entry)
    ensures var t := Next(s, RecordCheck(e)); t.checking[e] > s.checking[e] <==> s.closer.Open?
    ensures e in s.checking ==>
              var t := Next(s, RecordSend(e));
              && t.checking[e] == s.checking[e] - 1
              && t.accepted == if s.chanClosed || |s.buffer| >= 64 then s.accepted else s.accepted + [e]
  {
  }

  // ----- after Close ----------------------------------------------------------------------

  /** Once `Close` has returned, nothing moves any more. */
  lemma ReturnedIsFinal(s: State, step: Step)
    requires Inv(s) && s.closer.Returned? && Enabled(s, step)
    ensures
      var t := Next(s, step);
      t.closer.Returned? && t.accepted == s.accepted && t.processed == s.processed
  {
  }

  /** From the moment the first `Close` returns, the entries dealt with are exactly those accepted,
      in order, and they stay so for the rest of the run. */
  lemma CloseDrains(states: seq<State>, steps: seq<Step>, n: nat, m: nat)
    requires IsRun(states, steps) && n <= m < |states|
    requires states[n].closer.Returned?
    ensures Entries(states[m].processed) == states[m].accepted == states[n].accepted
  {
    Conservation(states, steps, n);
    var s := states[n];
    assert Entries(s.processed) + Holding(s) + s.buffer == Entries(s.processed);
    SettledStays(states, steps, n, m);
  }

  /** `Close` has returned and nothing is left to do. */
  predicate Settled(s: State) {
    s.closer.Returned? && s.chanClosed && s.drainDone && s.buffer == [] && s.inFlight.None?
  }

  lemma SettledIsFinal(s: State, step: Step)
    requires Settled(s) && Enabled(s, step)
    ensures
      var t := Next(s, step);
      Settled(t) && t.accepted == s.accepted && t.processed == s.processed
  {
  }

  lemma {:induction false} SettledStays(states: seq<State>, steps: seq<Step>, n: nat, m: nat)
    requires IsRun(states, steps) && n <= m < |states| && Settled(states[n])
    ensures Settled(states[m])
    ensures states[m].accepted == states[n].accepted && states[m].processed == states[n].processed
  {
    if n < m {
      SettledStays(states, steps, n, m - 1);
      SettledIsFinal(states[m - 1], steps[m - 1]);
    }
  }

  // ----- Close terminates -----------------------------------------------------------------

  /** What `drain` has left to do. */
  function Work(s: State): nat {
    2 * |s.buffer| + |Holding(s)| + if s.drainDone then 0 else 1
  }

  /** The step that `drain` can take while it is not done and the channel is closed. */
  function DrainStep(s: State): Step {
    if s.inFlight.Some? then DrainAppend(true, 0) else if s.buffer != [] then DrainReceive else DrainExit
  }

  /** While `Close` waits, `drain` is never stuck, every step of `drain` leaves it less to do, and no
      other step gives it more: `Close` returns after at most 130 steps of `drain`. */
  lemma CloseReturns(s: State, step: Step)
    requires Inv(s) && s.closer.Waiting? && Enabled(s, step)
    ensures !s.drainDone ==> Enabled(s, DrainStep(s))
    ensures Work(s) <= 2 * CAPACITY + 2
    ensures
      if step.DrainReceive? || step.DrainAppend? || step.DrainExit?
      then Work(Next(s, step)) < Work(s) else Work(Next(s, step)) == Work(s)
    ensures Work(s) == 0 ==> Enabled(s, CloseReturn)
  {
  }

  ghost predicate IsPath(states: seq<State>, steps: seq<Step>) {
    && |states| == |steps| + 1
    && forall i :: 0 <= i < |steps| ==> Enabled(states[i], steps[i]) && states[i + 1] == Next(states[i], steps[i])
  }

  ghost predicate Reaches(s: State, t: State) {
    exists states: seq<State>, steps: seq<Step> ::
      IsPath(states, steps) && states[0] == s && states[|steps|] == t
  }

  lemma ReachesItself(s: State)
    ensures Reaches(s, s)
  {
    var states, steps: seq<Step> := [s], [];
    assert IsPath(states, steps) && states[0] == s && states[|steps|] == s;
  }

  lemma PathOneMore(states: seq<State>, steps: seq<Step>, step: Step, u: State)
    requires IsPath(states, steps) && Enabled(states[|steps|], step) && u == Next(states[|steps|], step)
    ensures IsPath(states + [u], steps + [step])
  {
    var states', steps' := states + [u], steps + [step];
    forall i | 0 <= i < |steps'|
      ensures Enabled(states'[i], steps'[i]) && states'[i + 1] == Next(states'[i], steps'[i])
    {
      assert i < |steps| ==> states'[i] == states[i] && steps'[i] == steps[i] && states'[i + 1] == states[i + 1];
    }
  }

  lemma ReachesNext(s: State, t: State, step: Step)
    requires Reaches(s, t) && Enabled(t, step)
    ensures Reaches(s, Next(t, step))
  {
    var states: seq<State>, steps: seq<Step> :|
      IsPath(states, steps) && states[0] == s && states[|steps|] == t;
    var u := Next(t, step);
    var states', steps' := states + [u], steps + [step];
    PathOneMore(states, steps, step, u);
    assert IsPath(states', steps') && states'[0] == s && states'[|steps'|] == u;
  }

  lemma {:induction false} DrainAll(s: State, t: State) returns (u: State)
    requires Reaches(s, t) && Inv(t) && t.closer.Waiting?
    ensures Reaches(s, u) && Inv(u) && u.closer.Waiting? && u.drainDone
    decreases Work(t)
  {
    if t.drainDone {
      u := t;
    } else {
      var step := DrainStep(t);
      CloseReturns(t, step);
      ReachesNext(s, t, step);
      StepKeepsInv(t, step);
      u := DrainAll(s, Next(t, step));
    }
  }

  /** From every state that a run can reach, a `Close` can come to its return. */
  lemma CloseCanReturn(s: State) returns (t: State)
    requires Inv(s)
    ensures Reaches(s, t) && t.closer.Returned?
  {
    t := s;
    ReachesItself(s);
    if t.closer.Open? {
      ReachesNext(s, t, CloseSwap);
      StepKeepsInv(t, CloseSwap);
      t := Next(t, CloseSwap);
    }
    if t.closer.Swapped? {
      ReachesNext(s, t, CloseChannel);
      StepKeepsInv(t, CloseChannel);
      t := Next(t, CloseChannel);
    }
    if t.closer.Waiting? {
      t := DrainAll(s, t);
      ReachesNext(s, t, CloseReturn);
      t := Next(t, CloseReturn);
    }
  }

  // ----- the file -------------------------------------------------------------------------

  /** The entries whose append succeeded. */
  function Written(processed: seq<(Entry, bool)>): seq<Entry> {
    if processed == [] then []
    else
      var p := processed[|processed| - 1];
      Written(processed[..|processed| - 1]) + if p.1 then [p.0] else []
  }

  /** The ledger file after a step: a successful append frames the entry in flight after what it read. */
  function NextFile(c: Codec, s: State, step: Step, file: string): string {
    if step.DrainAppend? && step.ok && s.inFlight.Some?
    then Appended(c, Some(file), step.got, c.encode(s.inFlight.value))
    else file
  }

  /** The ledger files that go with a run on a ledger that holds `es0` when it is opened. */
  ghost predicate FilesOf(c: Codec, es0: seq<Entry>, states: seq<State>, steps: seq<Step>, files: seq<string>) {
    && |files| == |states| == |steps| + 1 && files[0] == Frame(c, es0)
    && forall i :: 0 <= i < |steps| ==> files[i + 1] == NextFile(c, states[i], steps[i], files[i])
  }

  /** A successful append whose read did not deliver the whole file. */
  predicate Loses(step: Step, file: string) {
    step.DrainAppend? && step.ok && step.got < |file|
  }

  ghost predicate Lossless(steps: seq<Step>, files: seq<string>, n: nat)
    requires n <= |steps| && n <= |files|
  {
    forall i :: 0 <= i < n ==> !Loses(steps[i], files[i])
  }

  /** A file of complete lines that falls short of `full`, or not. */
  ghost predicate Compares(c: Codec, file: string, full: seq<Entry>, whole: bool) {
    && (file == "" || file[|file| - 1] == '\n')
    && if whole then file == Frame(c, full)
       else Newlines(file) < |full| && |file| < |Frame(c, full)|
  }

  lemma AppendCompares(c: Codec, file: string, full: seq<Entry>, whole: bool, e: Entry, got: nat, still: bool)
    requires Faithful(c) && Compares(c, file, full, whole) && still == (whole && got >= |file|)
    ensures Compares(c, Appended(c, Some(file), got, c.encode(e)), full + [e], still)
  {
    FrameAppend(c, full, e);
    if !still {
      AppendFallsShort(c, file, full, whole, Seen(Some(file), got), Line(c, e));
    }
  }

  lemma AppendFallsShort(c: Codec, file: string, full: seq<Entry>, whole: bool, seen: string, line: string)
    requires Faithful(c) && Compares(c, file, full, whole) && '\n' !in line
    requires if whole then seen < file else seen <= file
    ensures Newlines(seen + (line + "\n")) <= |full| && |seen + (line + "\n")| < |Frame(c, full) + (line + "\n")|
    ensures (seen + (line + "\n"))[|seen| + |line|] == '\n'
    ensures Newlines(seen + (line + "\n")) < |full| + 1
  {
    OneLineMore(seen, line);
    SeenIsLess(file, seen);
    if whole {
      FrameCounts(c, full);
    }
  }

  lemma OneLineMore(seen: string, line: string)
    requires '\n' !in line
    ensures Newlines(seen + (line + "\n")) == Newlines(seen) + 1
  {
  }

  lemma SeenIsLess(file: string, seen: string)
    requires seen <= file && (file == "" || file[|file| - 1] == '\n')
    ensures Newlines(seen) <= Newlines(file) && |seen| <= |file|
    ensures seen != file ==> Newlines(seen) < Newlines(file) && |seen| < |file|
  {
    assert seen == file[0..|seen|];
    PartHasNoMore(file, 0, |seen|);
  }

  /** What the ledger should hold after a step. */
  function Grown(s: State, step: Step, full: seq<Entry>): seq<Entry> {
    if step.DrainAppend? && step.ok && s.inFlight.Some? then full + [s.inFlight.value] else full
  }

  lemma FullStep(s: State, step: Step, es0: seq<Entry>)
    requires Enabled(s, step)
    ensures es0 + Written(Next(s, step).processed) == Grown(s, step, es0 + Written(s.processed))
  {
    var t := Next(s, step);
    if step.DrainAppend? {
      assert t.processed[..|t.processed| - 1] == s.processed;
      var before := Written(s.processed);
      assert before + [] == before && es0 + (before + [s.inFlight.value]) == es0 + before + [s.inFlight.value];
    }
  }

  lemma FileStep(c: Codec, s: State, step: Step, file: string, full: seq<Entry>, whole: bool, still: bool)
    requires Faithful(c) && Enabled(s, step) && Compares(c, file, full, whole)
    requires still == (whole && !Loses(step, file))
    ensures Compares(c, NextFile(c, s, step, file), Grown(s, step, full), still)
  {
    if step.DrainAppend? && step.ok {
      AppendCompares(c, file, full, whole, s.inFlight.value, step.got, still);
    } else {
      assert still == whole;
    }
  }

  lemma StepCompares(c: Codec, es0: seq<Entry>, s: State, step: Step, file: string, whole: bool, still: bool)
    requires Faithful(c) && Enabled(s, step) && Compares(c, file, es0 + Written(s.processed), whole)
    requires still == (whole && !Loses(step, file))
    ensures Compares(c, NextFile(c, s, step, file), es0 + Written(Next(s, step).processed), still)
  {
    FullStep(s, step, es0);
    FileStep(c, s, step, file, es0 + Written(s.processed), whole, still);
  }

  /** State and file take step number `i` together. */
  ghost predicate TakesStep(c: Codec, states: seq<State>, steps: seq<Step>, files: seq<string>, i: nat) {
    && i < |steps| && i + 1 < |states| && i + 1 < |files|
    && Enabled(states[i], steps[i]) && states[i + 1] == Next(states[i], steps[i])
    && files[i + 1] == NextFile(c, states[i], steps[i], files[i])
  }

  ghost predicate TakesAll(c: Codec, states: seq<State>, steps: seq<Step>, files: seq<string>) {
    && |files| == |states| == |steps| + 1
    && forall i :: 0 <= i < |steps| ==> TakesStep(c, states, steps, files, i)
  }

  lemma LosslessOneMore(steps: seq<Step>, files: seq<string>, n: nat)
    requires 0 < n <= |steps| && n <= |files|
    ensures Lossless(steps, files, n) == (Lossless(steps, files, n - 1) && !Loses(steps[n - 1], files[n - 1]))
  {
  }

  lemma FileCompares(c: Codec, es0: seq<Entry>, states: seq<State>, steps: seq<Step>, files: seq<string>, n: nat,
                     whole: bool)
    requires Faithful(c) && IsRun(states, steps) && FilesOf(c, es0, states, steps, files) && n < |states|
    requires whole == Lossless(steps, files, n)
    ensures Compares(c, files[n], es0 + Written(states[n].processed), whole)
  {
    assert TakesAll(c, states, steps, files);
    ComparesSoFar(c, es0, states, steps, files, n, whole);
  }

  lemma {:induction false} ComparesSoFar(c: Codec, es0: seq<Entry>, states: seq<State>, steps: seq<Step>,
                                         files: seq<string>, n: nat, whole: bool)
    requires Faithful(c) && TakesAll(c, states, steps, files) && n < |states|
    requires states[0] == Init() && files[0] == Frame(c, es0) && whole == Lossless(steps, files, n)
    ensures Compares(c, files[n], es0 + Written(states[n].processed), whole)
  {
    if n > 0 {
      var before := Lossless(steps, files, n - 1);
      ComparesSoFar(c, es0, states, steps, files, n - 1, before);
      LosslessOneMore(steps, files, n);
      assert TakesStep(c, states, steps, files, n - 1);
      StepCompares(c, es0, states[n - 1], steps[n - 1], files[n - 1], before, whole);
    } else {
      assert es0 + [] == es0;
      FramedEnds(c, es0);
    }
  }

  lemma FramedEnds(c: Codec, es: seq<Entry>)
    requires Faithful(c)
    ensures Compares(c, Frame(c, es), es, true)
  {
    if es != [] {
      FrameEnds(c, es);
    }
  }

  /** At every point of every interleaving the file frames what it held at first and the entries written
      since, exactly when every successful append so far had read the whole file. */
  lemma FileHoldsWrittenIff(c: Codec, es0: seq<Entry>, states: seq<State>, steps: seq<Step>, files: seq<string>,
                            n: nat)
    requires Faithful(c) && IsRun(states, steps) && FilesOf(c, es0, states, steps, files) && n < |states|
    ensures files[n] == Frame(c, es0 + Written(states[n].processed)) <==> Lossless(steps, files, n)
  {
    FileCompares(c, es0, states, steps, files, n, Lossless(steps, files, n));
  }

  ghost predicate AllSucceeded(processed: seq<(Entry, bool)>) {
    forall i :: 0 <= i < |processed| ==> processed[i].1
  }

  lemma {:induction false} AllWrittenIff(processed: seq<(Entry, bool)>)
    ensures AllSucceeded(processed) ==> Written(processed) == Entries(processed)
    ensures !AllSucceeded(processed) ==> |Written(processed)| < |processed|
    ensures |Written(processed)| <= |processed|
  {
    if processed != [] {
      var n := |processed| - 1;
      AllWrittenIff(processed[..n]);
      assert processed == processed[..n] + [processed[n]];
      assert Entries(processed) == Entries(processed[..n]) + [processed[n].0];
    }
  }

  /** End to end: after `Close`, `Latest` returns the last of all that the ledger held and accepted, for
      every length, exactly when no append failed and every append had read the whole file. */
  lemma ClosedLedgerReadsBackIff(c: Codec, es0: seq<Entry>, states: seq<State>, steps: seq<Step>, files: seq<string>,
                                 m: nat)
    requires Faithful(c) && IsRun(states, steps) && FilesOf(c, es0, states, steps, files) && m < |states|
    requires states[m].closer.Returned?
    ensures
      var all := es0 + states[m].accepted;
      (forall n :: LatestEntries(c, files[m], n) == LastN(all, n))
      <==> AllSucceeded(states[m].processed) && Lossless(steps, files, m)
  {
    var all, processed := es0 + states[m].accepted, states[m].processed;
    CloseDrains(states, steps, m, m);
    AllWrittenIff(processed);
    var whole := Lossless(steps, files, m);
    FileCompares(c, es0, states, steps, files, m, whole);
    if AllSucceeded(processed) && Lossless(steps, files, m) {
      forall n
        ensures LatestEntries(c, files[m], n) == LastN(all, n)
      {
        LatestReadsBack(c, all, n);
      }
    } else {
      TooFewLines(c, files[m], es0 + Written(processed), whole, all);
    }
  }

  lemma TooFewLines(c: Codec, file: string, full: seq<Entry>, whole: bool, all: seq<Entry>)
    requires Faithful(c) && Compares(c, file, full, whole) && |full| <= |all| && (!whole || |full| < |all|)
    ensures LatestEntries(c, file, |all|) != LastN(all, |all|)
  {
    FrameCounts(c, full);
    LatestAtMost(c, file, |all|);
    assert Newlines(file) < |all|;
  }
}
