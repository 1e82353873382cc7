/**
 The spawn limits of bus/depth_controller.go: a core may be at most two spawns below its root and may
 spawn at most five others.
 */
module DepthController {
  import opened Common

  const MAX_SPAWN_DEPTH := 2
  const MAX_CHILDREN := 5

  /** `parentOf` records who spawned a core last, `spawned` how many spawns succeeded. */
  datatype State = State(depths: map<string, nat>, children: map<string, nat>, parentOf: map<string, string>,
                         spawned: nat)

  /** Go's map read: 0 for a missing key. */
  function At(m: map<string, nat>, id: string): nat {
    if id in m then m[id] else 0
  }

  predicate CanSpawn(s: State, id: string) {
    At(s.depths, id) < MAX_SPAWN_DEPTH && At(s.children, id) < MAX_CHILDREN
  }

  function Next(s: State, parent: string, child: string): State {
    if !CanSpawn(s, parent) then s
    else State(s.depths[child := At(s.depths, parent) + 1], s.children[parent := At(s.children, parent) + 1],
               s.parentOf[child := parent], s.spawned + 1)
  }

  // ----- the controller -------------------------------------------------------------------

  class DepthController {
    var depths: map<string, nat>
    var children: map<string, nat>
    ghost var parentOf: map<string, string>
    ghost var spawned: nat

    ghost function Now(): State
      reads this
    {
      State(depths, children, parentOf, spawned)
    }

    constructor ()
      ensures Now() == Init()
    {
      depths, children, parentOf, spawned := map[], map[], map[], 0;
    }

    /** `CanSpawn`: whether `Spawn` would succeed. */
    method MaySpawn(id: string) returns (ok: bool)
      ensures ok == CanSpawn(Now(), id)
    {
      var d, c := At(depths, id), At(children, id);
      ok := d < MAX_SPAWN_DEPTH && c < MAX_CHILDREN;
    }

    /** `Spawn`. A refused spawn changes nothing. */
    method Spawn(parent: string, child: string) returns (error: Option<string>)
      modifies this
      ensures Now() == old(Next(Now(), parent, child))
      ensures error.None? == old(CanSpawn(Now(), parent))
      ensures error.Some? ==> error.value == if old(At(depths, parent)) >= 2
                                             then "max spawn depth 2 reached for " + parent
                                             else "max children 5 reached for " + parent
    {
      var parentDepth := At(depths, parent);
      if parentDepth >= MAX_SPAWN_DEPTH {
        return Some("max spawn depth 2 reached for " + parent);
      }
      if At(children, parent) >= MAX_CHILDREN {
        return Some("max children 5 reached for " + parent);
      }
      depths := depths[child := parentDepth + 1];
      children := children[parent := At(children, parent) + 1];
      parentOf, spawned := parentOf[child := parent], spawned + 1;
      error := None;
    }
  }

  // ----- the tree -------------------------------------------------------------------------

  function Init(): State {
    State(map[], map[], map[], 0)
  }

  function ChildrenOf(m: map<string, string>, id: string): set<string> {
    set c | c in m && m[c] == id
  }

  /** A recorded depth is one more than that of the core that spawned, and roots have depth 0. */
  ghost predicate Layered(s: State) {
    && s.depths.Keys == s.parentOf.Keys
    && forall c :: c in s.parentOf ==> At(s.depths, c) == At(s.depths, s.parentOf[c]) + 1
  }

  /** No spawn went beyond the limits. */
  ghost predicate Limited(s: State) {
    && (forall c :: At(s.depths, c) <= MAX_SPAWN_DEPTH)
    && (forall c :: |ChildrenOf(s.parentOf, c)| <= At(s.children, c) <= MAX_CHILDREN)
  }

  /** Whether a spawn that succeeds leaves the recorded depths right: the child is another core than its
      parent, and if it has children of its own already then its depth does not change. */
  predicate Careful(s: State, parent: string, child: string) {
    parent != child
    && (ChildrenOf(s.parentOf, child) == {} || At(s.depths, child) == At(s.depths, parent) + 1)
  }

  /** It does so exactly then: an identifier that is used again can break the depths. */
  lemma SpawnKeepsDepthsIff(s: State, parent: string, child: string)
    requires Layered(s) && CanSpawn(s, parent)
    ensures Layered(Next(s, parent, child)) <==> Careful(s, parent, child)
  {
    var t := Next(s, parent, child);
    if Careful(s, parent, child) {
      forall c | c in t.parentOf
        ensures At(t.depths, c) == At(t.depths, t.parentOf[c]) + 1
      {
        if c != child && t.parentOf[c] == child {
          assert c in ChildrenOf(s.parentOf, child);
        }
      }
    } else if parent != child {
      var c :| c in ChildrenOf(s.parentOf, child);
      assert c in s.parentOf && At(s.depths, c) == At(s.depths, child) + 1;
      assert c != child;
      assert t.parentOf[c] == child && At(t.depths, c) == At(s.depths, c);
    } else {
      assert t.parentOf[child] == child;
    }
  }

  lemma SpawnKeepsLimits(s: State, parent: string, child: string)
    requires Limited(s)
    ensures Limited(Next(s, parent, child))
  {
    var t := Next(s, parent, child);
    if CanSpawn(s, parent) {
      forall c
        ensures At(t.depths, c) <= MAX_SPAWN_DEPTH
      {
        assert At(s.depths, c) <= MAX_SPAWN_DEPTH;
      }
      forall c
        ensures |ChildrenOf(t.parentOf, c)| <= At(t.children, c) <= MAX_CHILDREN
      {
        ChildrenAfter(s.parentOf, parent, child, c);
        assert t.parentOf == s.parentOf[child := parent];
        assert At(t.children, c) == At(s.children, c) + OneIf(c == parent);
        assert |ChildrenOf(s.parentOf, c)| <= At(s.children, c);
      }
    }
  }

  lemma ChildrenAfter(m: map<string, string>, parent: string, child: string, c: string)
    ensures |ChildrenOf(m[child := parent], c)| <= |ChildrenOf(m, c)| + OneIf(c == parent)
  {
    var before, after := ChildrenOf(m, c), ChildrenOf(m[child := parent], c);
    if c == parent {
      assert after == before + {child};
    } else {
      assert after == before - {child};
    }
  }

  /** A call of `Spawn`. */
  datatype Call = Call(parent: string, child: string)

  /** The state after a run of calls; refused ones may be among them. */
  function Run(calls: seq<Call>): State {
    if calls == [] then Init()
    else
      var c := calls[|calls| - 1];
      Next(Run(calls[..|calls| - 1]), c.parent, c.child)
  }

  /** Every spawn that succeeds is careful. */
  ghost predicate CarefulRun(calls: seq<Call>) {
    calls == [] ||
    (var before, c := calls[..|calls| - 1], calls[|calls| - 1];
     CarefulRun(before) && (CanSpawn(Run(before), c.parent) ==> Careful(Run(before), c.parent, c.child)))
  }

  lemma {:induction false} RunIsLimited(calls: seq<Call>)
    ensures Limited(Run(calls))
  {
    if calls != [] {
      var before, parent, child := calls[..|calls| - 1], calls[|calls| - 1].parent, calls[|calls| - 1].child;
      RunIsLimited(before);
      SpawnKeepsLimits(Run(before), parent, child);
    }
  }

  lemma {:induction false} RunIsLayered(calls: seq<Call>)
    requires CarefulRun(calls)
    ensures Layered(Run(calls))
  {
    if calls != [] {
      var before, parent, child := calls[..|calls| - 1], calls[|calls| - 1].parent, calls[|calls| - 1].child;
      RunIsLayered(before);
      if CanSpawn(Run(before), parent) {
        SpawnKeepsDepthsIff(Run(before), parent, child);
      }
    }
  }

  // ----- real depth -----------------------------------------------------------------------

  /** Going up the tree, as far as it goes. */
  function Up(m: map<string, string>, id: string, n: nat): string
    decreases n
  {
    if n == 0 || id !in m then id else Up(m, m[id], n - 1)
  }

  /** The number of spawns between a core and its root. */
  ghost predicate IsDepth(m: map<string, string>, id: string, d: nat)
    decreases d
  {
    if id in m then d > 0 && IsDepth(m, m[id], d - 1) else d == 0
  }

  lemma {:induction false} DepthIsReal(s: State, id: string, d: nat)
    requires Layered(s)
    ensures IsDepth(s.parentOf, id, d) <==> d == At(s.depths, id)
    decreases d
  {
    if id in s.parentOf {
      if d > 0 {
        DepthIsReal(s, s.parentOf[id], d - 1);
      }
    }
  }

  /** In a careful run the recorded depth of a core is its real depth, and at most two. */
  lemma RecordedDepthIsReal(calls: seq<Call>, id: string, d: nat)
    requires CarefulRun(calls)
    ensures IsDepth(Run(calls).parentOf, id, d) <==> d == At(Run(calls).depths, id)
    ensures At(Run(calls).depths, id) <= MAX_SPAWN_DEPTH
  {
    RunIsLayered(calls);
    RunIsLimited(calls);
    DepthIsReal(Run(calls), id, d);
  }

  // ----- the size of a tree ---------------------------------------------------------------

  function Below(m: map<string, string>, ids: set<string>): set<string> {
    set c | c in m && m[c] in ids
  }

  lemma {:induction false} BelowSize(s: State, ids: set<string>)
    requires Limited(s)
    ensures |Below(s.parentOf, ids)| <= MAX_CHILDREN * |ids|
    decreases ids
  {
    var m := s.parentOf;
    if ids == {} {
      assert Below(m, ids) == {};
    } else {
      var p :| p in ids;
      BelowSize(s, ids - {p});
      assert Below(m, ids) == Below(m, ids - {p}) + ChildrenOf(m, p);
      UnionSize(Below(m, ids - {p}), ChildrenOf(m, p));
      assert |ChildrenOf(m, p)| <= At(s.children, p);
    }
  }

  /** All cores that descend from a root, and the root. */
  ghost function Tree(m: map<string, string>, root: string): set<string> {
    {root} + (set c | c in m && Up(m, c, MAX_SPAWN_DEPTH) == root)
  }

  /** In a careful run every tree has at most 1 + 5 + 25 cores. */
  lemma TreeBound(calls: seq<Call>, root: string)
    requires CarefulRun(calls) && root !in Run(calls).parentOf
    ensures |Tree(Run(calls).parentOf, root)| <= 31
  {
    var s := Run(calls);
    var m := s.parentOf;
    RunIsLayered(calls);
    RunIsLimited(calls);
    var first := Below(m, {root});
    var second := Below(m, first);
    BelowSize(s, {root});
    BelowSize(s, first);
    forall c | c in Tree(m, root)
      ensures c in {root} + first + second
    {
      if c != root {
        WithinTwo(s, c, root);
      }
    }
    SubsetSize(Tree(m, root), {root} + first + second);
    UnionSize({root} + first, second);
    UnionSize({root}, first);
  }

  lemma WithinTwo(s: State, c: string, root: string)
    requires c in s.parentOf && root !in s.parentOf && Up(s.parentOf, c, 2) == root
    ensures c in Below(s.parentOf, {root}) + Below(s.parentOf, Below(s.parentOf, {root}))
  {
    var m := s.parentOf;
    var p := m[c];
    assert Up(m, c, 2) == Up(m, p, 1);
    if p in m {
      assert Up(m, p, 1) == Up(m, m[p], 0) == m[p];
      assert p in Below(m, {root});
    } else {
      assert p == root;
    }
  }

  /** Two steps up from any core of a careful run is its root, so that each core is in exactly one tree. */
  lemma TwoStepsUpIsRoot(calls: seq<Call>, id: string)
    requires CarefulRun(calls)
    ensures Up(Run(calls).parentOf, id, MAX_SPAWN_DEPTH) !in Run(calls).parentOf
  {
    var s := Run(calls);
    var m := s.parentOf;
    RunIsLayered(calls);
    RunIsLimited(calls);
    assert At(s.depths, id) <= 2;
    if id in m && m[id] in m {
      assert Up(m, id, 2) == Up(m, m[id], 1) == m[m[id]];
      assert At(s.depths, id) == At(s.depths, m[id]) + 1;
      assert At(s.depths, m[id]) == At(s.depths, m[m[id]]) + 1;
    }
  }

  // ----- counters -------------------------------------------------------------------------

  /** In every run the counters together count the spawns that succeeded. */
  lemma {:induction false} CountersSum(calls: seq<Call>)
    ensures Sum(Run(calls).children) == Run(calls).spawned
  {
    if calls != [] {
      var before, parent, child := calls[..|calls| - 1], calls[|calls| - 1].parent, calls[|calls| - 1].child;
      var s := Run(before);
      CountersSum(before);
      if CanSpawn(s, parent) {
        SumOneMore(s.children, parent);
      }
    }
  }

  lemma SumOneMore(m: map<string, nat>, k: string)
    ensures Sum(m[k := At(m, k) + 1]) == Sum(m) + 1
  {
    var more := m[k := At(m, k) + 1];
    SumWithout(more, k);
    assert more - {k} == m - {k};
    if k in m {
      SumWithout(m, k);
    } else {
      assert m - {k} == m;
    }
  }

  /** Every child's name is new. */
  ghost predicate FreshRun(calls: seq<Call>) {
    calls == [] ||
    (var before, c := calls[..|calls| - 1], calls[|calls| - 1];
     && FreshRun(before) && c.child != c.parent
     && (CanSpawn(Run(before), c.parent) ==>
           c.child !in Run(before).parentOf && ChildrenOf(Run(before).parentOf, c.child) == {}))
  }

  lemma {:induction false} FreshIsCareful(calls: seq<Call>)
    requires FreshRun(calls)
    ensures CarefulRun(calls)
  {
    if calls != [] {
      FreshIsCareful(calls[..|calls| - 1]);
    }
  }

  /** With fresh names each counter is the number of the core's children, and as many cores have been
      spawned as spawns succeeded. */
  lemma {:induction false} FreshCounters(calls: seq<Call>, id: string)
    requires FreshRun(calls)
    ensures At(Run(calls).children, id) == |ChildrenOf(Run(calls).parentOf, id)|
    ensures |Run(calls).parentOf| == Run(calls).spawned
  {
    if calls != [] {
      var before, c := calls[..|calls| - 1], calls[|calls| - 1];
      FreshCounters(before, id);
      if CanSpawn(Run(before), c.parent) {
        FreshChild(Run(before), c.parent, c.child, id);
      }
    }
  }

  lemma FreshChildren(m: map<string, string>, parent: string, child: string, id: string)
    requires child !in m
    ensures |ChildrenOf(m[child := parent], id)| == |ChildrenOf(m, id)| + OneIf(id == parent)
    ensures |m[child := parent]| == |m| + 1
  {
    var before, after := ChildrenOf(m, id), ChildrenOf(m[child := parent], id);
    if id == parent {
      assert after == before + {child};
    } else {
      assert after == before;
    }
    assert m[child := parent].Keys == m.Keys + {child};
  }

  lemma FreshChild(s: State, parent: string, child: string, id: string)
    requires child !in s.parentOf && CanSpawn(s, parent)
    ensures
      var t := Next(s, parent, child);
      && |ChildrenOf(t.parentOf, id)| == |ChildrenOf(s.parentOf, id)| + OneIf(id == parent)
      && At(t.children, id) == At(s.children, id) + OneIf(id == parent)
      && |t.parentOf| == |s.parentOf| + 1
  {
    FreshChildren(s.parentOf, parent, child, id);
  }

  // ----- a full tree ----------------------------------------------------------------------

  /** The number of the core that spawns core number `i`, when five are spawned by each in turn. */
  function Spawner(i: nat): (p: nat)
    requires i > 0
    ensures MAX_CHILDREN * p < i <= MAX_CHILDREN * p + MAX_CHILDREN
  {
    (i - 1) / MAX_CHILDREN
  }

  function RowByRow(names: seq<string>, n: nat): seq<Call>
    requires n < |names|
  {
    if n == 0 then [] else RowByRow(names, n - 1) + [Call(names[Spawner(n)], names[n])]
  }

  /** How many of the cores up to number `n` number `i` has spawned. */
  function Spawned(n: nat, i: nat): nat {
    if n <= MAX_CHILDREN * i then 0
    else if n <= MAX_CHILDREN * i + MAX_CHILDREN then n - MAX_CHILDREN * i
    else MAX_CHILDREN
  }

  function RowOf(i: nat): nat {
    if i == 0 then 0 else if i <= MAX_CHILDREN then 1 else 2
  }

  ghost predicate Distinct(names: seq<string>) {
    forall i, j :: 0 <= i < j < |names| ==> names[i] != names[j]
  }

  ghost predicate HasSpawner(m: map<string, string>, names: seq<string>, i: nat)
    requires 0 < i < |names|
  {
    names[i] in m && m[names[i]] == names[Spawner(i)]
  }

  /** The cores 1 to `n` are spawned, each by its spawner, and no others. */
  ghost predicate Linked(m: map<string, string>, names: seq<string>, n: nat)
    requires n < |names|
  {
    && (forall i :: 0 < i <= n ==> HasSpawner(m, names, i))
    && names[0] !in m
    && (forall i :: n < i < |names| ==> names[i] !in m)
    && (forall i, c :: n <= i < |names| && c in m ==> m[c] != names[i])
  }

  ghost predicate InRows(depths: map<string, nat>, names: seq<string>, n: nat)
    requires n < |names|
  {
    forall i :: 0 <= i < |names| ==> At(depths, names[i]) == if i <= n then RowOf(i) else 0
  }

  ghost predicate Counted(children: map<string, nat>, names: seq<string>, n: nat) {
    forall i :: 0 <= i < |names| ==> At(children, names[i]) == Spawned(n, i)
  }

  lemma OneMoreLinked(m: map<string, string>, names: seq<string>, n: nat, p: nat)
    requires 0 < n < |names| && p == Spawner(n) && Distinct(names) && Linked(m, names, n - 1)
    ensures Linked(m[names[n] := names[p]], names, n)
    ensures names[n] !in m && ChildrenOf(m, names[n]) == {} && names[p] != names[n]
  {
    var m' := m[names[n] := names[p]];
    forall i | 0 < i <= n
      ensures HasSpawner(m', names, i)
    {
      assert i < n ==> HasSpawner(m, names, i);
    }
  }

  lemma OneMoreInRows(depths: map<string, nat>, names: seq<string>, n: nat)
    requires 0 < n < |names| <= 31 && Distinct(names) && InRows(depths, names, n - 1)
    ensures InRows(depths[names[n] := At(depths, names[Spawner(n)]) + 1], names, n)
    ensures At(depths, names[Spawner(n)]) < MAX_SPAWN_DEPTH
  {
    var p := Spawner(n);
    assert RowOf(n) == RowOf(p) + 1;
  }

  lemma OneMoreCounted(children: map<string, nat>, names: seq<string>, n: nat)
    requires 0 < n < |names| && Distinct(names) && Counted(children, names, n - 1)
    ensures Counted(children[names[Spawner(n)] := At(children, names[Spawner(n)]) + 1], names, n)
    ensures At(children, names[Spawner(n)]) < MAX_CHILDREN
  {
    var p := Spawner(n);
    forall i: nat
      ensures Spawned(n, i) == Spawned(n - 1, i) + OneIf(i == p)
    {
    }
  }

  /** The first `n` cores stand in their rows under the root, and the others are not spawned. */
  ghost predicate Filled(s: State, names: seq<string>, n: nat)
    requires n < |names|
  {
    Linked(s.parentOf, names, n) && InRows(s.depths, names, n) && Counted(s.children, names, n)
  }

  lemma {:induction false} RowsFill(names: seq<string>, n: nat)
    requires n < |names| <= 31 && Distinct(names)
    ensures FreshRun(RowByRow(names, n)) && Filled(Run(RowByRow(names, n)), names, n)
  {
    if n > 0 {
      RowsFill(names, n - 1);
      OneMoreCore(Run(RowByRow(names, n - 1)), names, n);
      FreshOneMore(RowByRow(names, n - 1), names[Spawner(n)], names[n]);
    }
  }

  lemma OneMoreCore(s: State, names: seq<string>, n: nat)
    requires 0 < n < |names| <= 31 && Distinct(names) && Filled(s, names, n - 1)
    ensures
      var parent, child := names[Spawner(n)], names[n];
      && Filled(Next(s, parent, child), names, n)
      && child != parent && child !in s.parentOf && ChildrenOf(s.parentOf, child) == {}
  {
    OneMoreLinked(s.parentOf, names, n, Spawner(n));
    OneMoreInRows(s.depths, names, n);
    OneMoreCounted(s.children, names, n);
  }

  lemma FreshOneMore(before: seq<Call>, parent: string, child: string)
    requires FreshRun(before) && child != parent
    requires child !in Run(before).parentOf && ChildrenOf(Run(before).parentOf, child) == {}
    ensures FreshRun(before + [Call(parent, child)])
    ensures Run(before + [Call(parent, child)]) == Next(Run(before), parent, child)
  {
    assert (before + [Call(parent, child)])[..|before|] == before;
  }

  lemma InTheTree(m: map<string, string>, names: seq<string>, n: nat, i: nat)
    requires i <= n < |names| <= 31 && Distinct(names) && Linked(m, names, n)
    ensures names[0] !in m && names[i] in Tree(m, names[0])
  {
    if i > 0 {
      var p := Spawner(i);
      assert HasSpawner(m, names, i) && (p > 0 ==> HasSpawner(m, names, p) && Spawner(p) == 0);
      assert Up(m, names[i], 2) == Up(m, names[p], 1);
      if p > 0 {
        assert Up(m, names[p], 1) == Up(m, names[0], 0);
      }
    }
  }

  /** The bound is reached, with fresh names: a run that fills all rows has a tree of 31 cores. */
  lemma TreeBoundIsReached(names: seq<string>)
    requires |names| == 31 && Distinct(names)
    ensures
      var calls := RowByRow(names, 30);
      && FreshRun(calls) && CarefulRun(calls) && names[0] !in Run(calls).parentOf
      && |Tree(Run(calls).parentOf, names[0])| == 31
  {
    var calls := RowByRow(names, 30);
    RowsFill(names, 30);
    InTheTree(Run(calls).parentOf, names, 30, 0);
    FreshIsCareful(calls);
    TreeBound(calls, names[0]);
    forall c | c in (set d | d in names)
      ensures c in Tree(Run(calls).parentOf, names[0])
    {
      var i :| 0 <= i < |names| && names[i] == c;
      InTheTree(Run(calls).parentOf, names, 30, i);
    }
    DistinctSize(names);
    SubsetSize((set d | d in names), Tree(Run(calls).parentOf, names[0]));
  }

  // ----- without care ---------------------------------------------------------------------

  /** Spawning from the bottom up: each core is spawned after it has spawned the one before it. */
  function BottomUp(names: seq<string>, n: nat): seq<Call>
    requires n < |names|
  {
    if n == 0 then [] else BottomUp(names, n - 1) + [Call(names[n], names[n - 1])]
  }

  ghost predicate Chained(s: State, names: seq<string>, n: nat)
    requires n < |names|
  {
    && (forall i :: 0 <= i < n ==>
          names[i] in s.parentOf && s.parentOf[names[i]] == names[i + 1] && At(s.depths, names[i]) == 1)
    && (forall i :: n <= i < |names| ==> names[i] !in s.parentOf && At(s.depths, names[i]) == 0)
    && (forall i :: n < i < |names| ==> At(s.children, names[i]) == 0)
  }

  lemma {:induction false} BottomUpChains(names: seq<string>, n: nat)
    requires n < |names| && Distinct(names)
    ensures Chained(Run(BottomUp(names, n)), names, n)
  {
    if n > 0 {
      BottomUpChains(names, n - 1);
      var before := BottomUp(names, n - 1);
      assert (before + [Call(names[n], names[n - 1])])[..|before|] == before;
      OneMoreLink(Run(before), names, n);
    }
  }

  lemma OneMoreLink(s: State, names: seq<string>, n: nat)
    requires 0 < n < |names| && Distinct(names)
    requires Chained(s, names, n - 1)
    ensures Chained(Next(s, names[n], names[n - 1]), names, n)
  {
    assert CanSpawn(s, names[n]);
  }

  lemma {:induction false} ChainDepth(s: State, names: seq<string>, n: nat, i: nat)
    requires i <= n < |names| && Chained(s, names, n)
    ensures IsDepth(s.parentOf, names[i], n - i)
    decreases n - i
  {
    if i < n {
      ChainDepth(s, names, n, i + 1);
    }
  }

  /** Bottom up, the real depth has no bound at all, while every recorded depth is at most one. */
  lemma BottomUpIsUnbounded(names: seq<string>)
    requires names != [] && Distinct(names)
    ensures
      var n := |names| - 1;
      var s := Run(BottomUp(names, n));
      IsDepth(s.parentOf, names[0], n) && At(s.depths, names[0]) <= 1
  {
    var n := |names| - 1;
    BottomUpChains(names, n);
    ChainDepth(Run(BottomUp(names, n)), names, n, 0);
  }
}
