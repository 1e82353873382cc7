/**
 The real-time queue of butler/queue.go: any number of concurrent `Enqueue` and `Dequeue` calls,
 interleaved at their atomic steps. A channel of tokens bounds the queue; a lock guards its two lists.
 */
module RealtimeQueue {

  const CAP := 16

  datatype MsgType = Normal | TTS | SSE {
    predicate Priority() {
      TTS? || SSE?
    }
  }

  datatype Item = Item(kind: MsgType, payload: string)

  /** `holding` are the items of `Enqueue` calls that have taken a token and not yet appended;
      `returning` counts the `Dequeue` calls that have removed an item and not yet given its token back.
      `appended` and `removed` record what has gone in and out. */
  datatype State = State(
    avail: nat,
    prio: seq<Item>,
    norm: seq<Item>,
    holding: multiset<Item>,
    returning: nat,
    appended: seq<Item>,
    removed: seq<Item>)

  function Init(): State {
    State(CAP, [], [], multiset{}, 0, [], [])
  }

  datatype Step =
    | TakeToken(item: Item)  // Enqueue's select; without a token it returns false
    | Append(item: Item)     // Enqueue's critical section
    | Remove                 // Dequeue's critical section
    | ReturnToken            // Dequeue's send, which waits while the channel is full

  predicate Enabled(s: State, step: Step) {
    match step
    case TakeToken(_) => true
    case Append(item) => item in s.holding
    case Remove => true
    case ReturnToken => s.returning > 0 && s.avail < CAP
  }

  function Next(s: State, step: Step): State
    requires Enabled(s, step)
  {
    match step
    case TakeToken(item) =>
      if s.avail > 0 then s.(avail := s.avail - 1, holding := s.holding + multiset{item}) else s
    case Append(item) =>
      var t := s.(holding := s.holding - multiset{item}, appended := s.appended + [item]);
      if item.kind.Priority() then t.(prio := s.prio + [item]) else t.(norm := s.norm + [item])
    case Remove =>
      if s.prio != [] then
        s.(prio := s.prio[1..], returning := s.returning + 1, removed := s.removed + [s.prio[0]])
      else if s.norm != [] then
        s.(norm := s.norm[1..], returning := s.returning + 1, removed := s.removed + [s.norm[0]])
      else s
    case ReturnToken => s.(avail := s.avail + 1, returning := s.returning - 1)
  }

  /** The states that some interleaving reaches. */
  ghost predicate IsRun(states: seq<State>, steps: seq<Step>) {
    && |states| == |steps| + 1 && states[0] == Init()
    && forall i :: 0 <= i < |steps| ==> Enabled(states[i], steps[i]) && states[i + 1] == Next(states[i], steps[i])
  }

  // ----- conservation ---------------------------------------------------------------------

  /** Speech and server-sent events go first, everything else is normal. */
  predicate Urgent(x: Item) {
    x.kind != Normal
  }

  /** The items of one class, in order. */
  function OfClass(items: seq<Item>, priority: bool): seq<Item> {
    if items == [] then []
    else
      var x := items[|items| - 1];
      var before := OfClass(items[..|items| - 1], priority);
      if Urgent(x) == priority then before + [x] else before
  }

  lemma OfClassOneMore(items: seq<Item>, x: Item, priority: bool)
    ensures OfClass(items + [x], priority) ==
            if Urgent(x) == priority then OfClass(items, priority) + [x] else OfClass(items, priority)
  {
    assert (items + [x])[..|items|] == items;
  }

  ghost predicate TokensConserved(s: State) {
    s.avail + |s.prio| + |s.norm| + |s.holding| + s.returning == CAP
  }

  function Queued(s: State, priority: bool): seq<Item> {
    if priority then s.prio else s.norm
  }

  /** A class leaves in the order in which it came: what has gone in is what has gone out, then what is
      queued. */
  ghost predicate Fifo(s: State, priority: bool) {
    OfClass(s.appended, priority) == OfClass(s.removed, priority) + Queued(s, priority)
  }

  ghost predicate Sorted(s: State) {
    && (forall i :: 0 <= i < |s.prio| ==> Urgent(s.prio[i]))
    && (forall i :: 0 <= i < |s.norm| ==> !Urgent(s.norm[i]))
  }

  ghost predicate Inv(s: State) {
    TokensConserved(s) && Fifo(s, true) && Fifo(s, false) && Sorted(s)
  }

  lemma AppendKeepsFifo(s: State, item: Item, priority: bool)
    requires Fifo(s, priority) && Enabled(s, Append(item))
    ensures Fifo(Next(s, Append(item)), priority)
  {
    OfClassOneMore(s.appended, item, priority);
    QueuedLast(s, item, priority);
    MoveLast(OfClass(s.removed, priority), Queued(s, priority), item);
  }

  lemma QueuedLast(s: State, item: Item, priority: bool)
    requires Enabled(s, Append(item))
    ensures
      Queued(Next(s, Append(item)), priority)
      == if Urgent(item) == priority then Queued(s, priority) + [item] else Queued(s, priority)
  {
  }

  lemma MoveLast(gone: seq<Item>, rest: seq<Item>, x: Item)
    ensures (gone + rest) + [x] == gone + (rest + [x])
  {
  }

  lemma RemoveKeepsFifo(s: State, priority: bool)
    requires Fifo(s, priority) && Sorted(s)
    ensures Fifo(Next(s, Remove), priority)
  {
    var t := Next(s, Remove);
    if s.prio + s.norm != [] {
      var x := (s.prio + s.norm)[0];
      OfClassOneMore(s.removed, x, priority);
      if Urgent(x) == priority {
        QueuedFirst(s, t, x, priority);
        MoveFirst(OfClass(s.removed, priority), x, Queued(t, priority));
      }
    }
  }

  lemma QueuedFirst(s: State, t: State, x: Item, priority: bool)
    requires Sorted(s) && s.prio + s.norm != [] && t == Next(s, Remove)
    requires x == (s.prio + s.norm)[0] && Urgent(x) == priority
    ensures Queued(s, priority) == [x] + Queued(t, priority)
  {
  }

  lemma MoveFirst(gone: seq<Item>, x: Item, rest: seq<Item>)
    ensures gone + ([x] + rest) == (gone + [x]) + rest
  {
  }

  lemma StepKeepsFifo(s: State, step: Step, priority: bool)
    requires Fifo(s, priority) && Sorted(s) && Enabled(s, step)
    ensures Fifo(Next(s, step), priority)
  {
    match step
    case Append(item) => AppendKeepsFifo(s, item, priority);
    case Remove => RemoveKeepsFifo(s, priority);
    case TakeToken(_) =>
    case ReturnToken =>
  }

  lemma StepKeepsTokens(s: State, step: Step)
    requires TokensConserved(s) && Enabled(s, step)
    ensures TokensConserved(Next(s, step))
  {
  }

  lemma StepKeepsSorted(s: State, step: Step)
    requires Sorted(s) && Enabled(s, step)
    ensures Sorted(Next(s, step))
  {
  }

  lemma StepKeepsInv(s: State, step: Step)
    requires Inv(s) && Enabled(s, step)
    ensures Inv(Next(s, step))
  {
    StepKeepsFifo(s, step, true);
    StepKeepsFifo(s, step, false);
    StepKeepsTokens(s, step);
    StepKeepsSorted(s, step);
  }

  /** Whatever the interleaving, free tokens, queued items, calls that hold a token and calls that owe
      one make up the capacity, and each class is first in, first out. */
  lemma {:induction false} Conservation(states: seq<State>, steps: seq<Step>, n: nat)
    requires IsRun(states, steps) && n <= |steps|
    ensures Inv(states[n])
  {
    if n > 0 {
      Conservation(states, steps, n - 1);
      StepKeepsInv(states[n - 1], steps[n - 1]);
    }
  }

  /** So the send in `Dequeue` never waits. */
  lemma SendNeverBlocks(states: seq<State>, steps: seq<Step>, n: nat)
    requires IsRun(states, steps) && n <= |steps|
    ensures Enabled(states[n], ReturnToken) <==> states[n].returning > 0
  {
    Conservation(states, steps, n);
  }

  /** `Enqueue` fails exactly when sixteen items are queued, on their way in or on their way out. */
  lemma RefusedIff(states: seq<State>, steps: seq<Step>, n: nat, item: Item)
    requires IsRun(states, steps) && n <= |steps|
    ensures
      var s := states[n];
      item !in Next(s, TakeToken(item)).holding - s.holding
      <==> |s.prio| + |s.norm| + |s.holding| + s.returning == CAP
  {
    Conservation(states, steps, n);
  }

  /** What is removed is the oldest item of its class that is still queued, and a normal item leaves only
      when every priority item that came has gone. */
  lemma RemovedIsNext(states: seq<State>, steps: seq<Step>, n: nat, x: Item)
    requires IsRun(states, steps) && n < |steps| && steps[n].Remove?
    requires states[n + 1].removed == states[n].removed + [x]
    ensures
      var s, priority := states[n], Urgent(x);
      var k := |OfClass(s.removed, priority)|;
      && k < |OfClass(s.appended, priority)| && x == OfClass(s.appended, priority)[k]
      && (!priority ==> OfClass(s.removed, true) == OfClass(s.appended, true))
  {
    var s := states[n];
    Conservation(states, steps, n);
    assert states[n + 1].removed[|s.removed|] == x;
    assert OfClass(s.removed, true) + [] == OfClass(s.removed, true);
  }

  // ----- calls one after the other --------------------------------------------------------

  /** No call is under way. */
  ghost predicate Quiet(s: State) {
    Inv(s) && s.holding == multiset{} && s.returning == 0
  }

  /** An undisturbed `Enqueue`. */
  function EnqueueOne(s: State, item: Item): State {
    var t := Next(s, TakeToken(item));
    if s.avail > 0 then Next(t, Append(item)) else t
  }

  /** An undisturbed `Dequeue`. */
  function DequeueOne(s: State): State {
    var t := Next(s, Remove);
    if s.prio + s.norm != [] && t.avail < CAP then Next(t, ReturnToken) else t
  }

  lemma EnqueueAppends(s: State, u: State, item: Item)
    requires Quiet(s) && s.avail > 0 && u == EnqueueOne(s, item)
    ensures Quiet(u) && u.appended == s.appended + [item] && u.removed == s.removed && u.avail == s.avail - 1
  {
    var t := Next(s, TakeToken(item));
    StepKeepsInv(s, TakeToken(item));
    StepKeepsInv(t, Append(item));
    assert multiset{item} - multiset{item} == multiset{};
  }

  function Waiting(s: State): seq<Item> {
    s.prio + s.norm
  }

  lemma RemoveTakesFirst(s: State)
    requires Waiting(s) != []
    ensures
      var t := Next(s, Remove);
      && t.removed == s.removed + [Waiting(s)[0]] && Waiting(t) == Waiting(s)[1..]
      && t == s.(prio := t.prio, norm := t.norm, removed := t.removed, returning := s.returning + 1)
  {
  }

  lemma DequeueRemoves(s: State)
    requires Quiet(s) && Waiting(s) != []
    ensures
      var u := DequeueOne(s);
      && Quiet(u) && u.avail == s.avail + 1
      && u.removed == s.removed + [Waiting(s)[0]] && Waiting(u) == Waiting(s)[1..]
  {
    var t := Next(s, Remove);
    RemoveTakesFirst(s);
    StepKeepsInv(s, Remove);
    StepKeepsInv(t, ReturnToken);
  }

  /** The states of one `Enqueue` after the other. */
  ghost predicate Enqueues(states: seq<State>, items: seq<Item>) {
    && |states| == |items| + 1
    && forall i :: 0 <= i < |items| ==> states[i + 1] == EnqueueOne(states[i], items[i])
  }

  /** The states of one `Dequeue` after the other. */
  ghost predicate Dequeues(states: seq<State>) {
    |states| > 0 && forall i :: 0 <= i < |states| - 1 ==> states[i + 1] == DequeueOne(states[i])
  }

  lemma {:induction false} EnqueuedInOrder(states: seq<State>, items: seq<Item>, n: nat)
    requires Enqueues(states, items) && Quiet(states[0]) && n <= |items| <= states[0].avail
    ensures Quiet(states[n]) && states[n].avail == states[0].avail - n
    ensures states[n].appended == states[0].appended + items[..n] && states[n].removed == states[0].removed
  {
    var before := states[0].appended;
    if n == 0 {
      assert before + items[..0] == before;
    } else {
      EnqueuedInOrder(states, items, n - 1);
      var s, u, x := states[n - 1], states[n], items[n - 1];
      assert u == EnqueueOne(s, x);
      EnqueueAppends(s, u, x);
      TakeOneMore(before, items, n);
    }
  }

  lemma TakeOneMore(before: seq<Item>, items: seq<Item>, n: nat)
    requires 0 < n <= |items|
    ensures before + items[..n] == before + items[..n - 1] + [items[n - 1]]
  {
  }

  lemma {:induction false} DequeuedInOrder(states: seq<State>, all: seq<Item>, n: nat)
    requires Dequeues(states) && Quiet(states[0]) && all == Waiting(states[0])
    requires n < |states| && n <= |all|
    ensures Quiet(states[n]) && states[n].avail == states[0].avail + n
    ensures states[n].removed == states[0].removed + all[..n] && Waiting(states[n]) == all[n..]
  {
    if n > 0 {
      DequeuedInOrder(states, all, n - 1);
      DequeueRemoves(states[n - 1]);
      assert all[..n] == all[..n - 1] + [all[n - 1]];
    }
  }

  /** Up to sixteen items put into an empty queue come out again, the priority ones first and each class
      in order, and leave all tokens free. */
  lemma DrainedInOrder(ins: seq<State>, items: seq<Item>, outs: seq<State>)
    requires Enqueues(ins, items) && ins[0] == Init() && |items| <= CAP
    requires Dequeues(outs) && outs[0] == ins[|items|] && |outs| == |items| + 1
    ensures outs[|items|].removed == OfClass(items, true) + OfClass(items, false)
    ensures outs[|items|].avail == CAP
  {
    var s := ins[|items|];
    EnqueuedInOrder(ins, items, |items|);
    WaitingIsEverything(s, items);
    DequeuedInOrder(outs, Waiting(s), |items|);
    assert Waiting(s)[..|items|] == Waiting(s);
  }

  lemma WaitingIsEverything(s: State, items: seq<Item>)
    requires Quiet(s) && s.appended == [] + items[..|items|] && s.removed == [] && s.avail == CAP - |items|
    ensures Waiting(s) == OfClass(items, true) + OfClass(items, false) && |Waiting(s)| == |items|
  {
    assert [] + items[..|items|] == items;
    AllQueued(s, true);
    AllQueued(s, false);
  }

  lemma AllQueued(s: State, priority: bool)
    requires Fifo(s, priority) && s.removed == []
    ensures Queued(s, priority) == OfClass(s.appended, priority)
  {
    assert [] + Queued(s, priority) == Queued(s, priority);
  }

  // ----- the queue ------------------------------------------------------------------------

  class RealtimeQueue {
    var prio: seq<Item>
    var norm: seq<Item>
    var avail: nat
    ghost var holding: multiset<Item>
    ghost var returning: nat
    ghost var appended: seq<Item>
    ghost var removed: seq<Item>

    ghost function Now(): State
      reads this
    {
      State(avail, prio, norm, holding, returning, appended, removed)
    }

    constructor ()
      ensures Now() == Init()
    {
      prio, norm, avail := [], [], CAP;
      holding, returning, appended, removed := multiset{}, 0, [], [];
    }

    /** The step in which `Enqueue` takes a token, or finds none. */
    method Take(ghost item: Item) returns (ok: bool)
      modifies this
      ensures Now() == old(Next(Now(), TakeToken(item)))
      ensures ok == old(avail > 0)
    {
      if avail == 0 {
        return false;
      }
      avail := avail - 1;
      holding := holding + multiset{item};
      ok := true;
    }

    /** The step in which it appends its item. */
    method Put(item: Item)
      requires Enabled(Now(), Append(item))
      modifies this
      ensures Now() == old(Next(Now(), Append(item)))
    {
      if item.kind.Priority() {
        prio := prio + [item];
      } else {
        norm := norm + [item];
      }
      holding, appended := holding - multiset{item}, appended + [item];
    }

    /** The step in which `Dequeue` removes an item, if there is one. */
    method Pop() returns (item: Item, ok: bool)
      modifies this
      ensures Now() == old(Next(Now(), Remove))
      ensures ok == old(prio + norm != [])
      ensures item == if ok then old((prio + norm)[0]) else Item(Normal, "")
    {
      item, ok := Item(Normal, ""), false;
      if |prio| > 0 {
        item, prio, ok := prio[0], prio[1..], true;
      } else if |norm| > 0 {
        item, norm, ok := norm[0], norm[1..], true;
      }
      if ok {
        returning, removed := returning + 1, removed + [item];
      }
    }

    /** The step in which it gives the token back. */
    method Return()
      requires Enabled(Now(), ReturnToken)
      modifies this
      ensures Now() == old(Next(Now(), ReturnToken))
    {
      avail := avail + 1;
      returning := returning - 1;
    }

    /** `Enqueue`, undisturbed. */
    method Enqueue(item: Item) returns (ok: bool)
      modifies this
      ensures Now() == old(EnqueueOne(Now(), item)) && ok == old(avail > 0)
    {
      ok := Take(item);
      if ok {
        Put(item);
      }
    }

    /** `Dequeue`, undisturbed. */
    method Dequeue() returns (item: Item, ok: bool)
      requires Inv(Now())
      modifies this
      ensures Now() == old(DequeueOne(Now())) && ok == old(prio + norm != [])
      ensures item == if ok then old((prio + norm)[0]) else Item(Normal, "")
    {
      StepKeepsTokens(Now(), Remove);
      item, ok := Pop();
      if ok {
        Return();
      }
    }

    /** `Len`. */
    method Len() returns (n: nat)
      requires Inv(Now())
      ensures n + avail + |holding| + returning == CAP
    {
      n := |prio| + |norm|;
    }
  }
}
