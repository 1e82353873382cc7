/**
 The engram store of viking/engram.go: its index in memory and the eviction that bounds it. Whether
 the file could be written is a parameter; days are reals.
 */
module EngramStore {
  import opened Common
  import opened Engram
  import opened Numbers

  const MAX_SIZE := 10000
  const DAY := 86_400_000_000_000.0

  function Score(e: Engram, now: int): real {
    var recency := (now - e.lastAccessed) as real / DAY;
    var imp := if e.importance < 1 then 1.0 else e.importance as real;
    imp * (1.0 + recency / 30.0)
  }

  /** What is more important scores higher; but so does what has not been used for longer, so that of
      equally important engrams the one used last goes first. */
  lemma ScoreOrder(e: Engram, f: Engram, now: int)
    requires f.lastAccessed <= e.lastAccessed <= now && e.importance <= f.importance
    ensures Score(e, now) <= Score(f, now)
    ensures f.lastAccessed < e.lastAccessed ==> Score(e, now) < Score(f, now)
    ensures f.lastAccessed == e.lastAccessed && 1 <= e.importance < f.importance ==> Score(e, now) < Score(f, now)
  {
    var a := if e.importance < 1 then 1.0 else e.importance as real;
    var b := if f.importance < 1 then 1.0 else f.importance as real;
    var x := (now - e.lastAccessed) as real / DAY;
    var y := (now - f.lastAccessed) as real / DAY;
    Larger(a, b, 1.0 + x / 30.0, 1.0 + y / 30.0);
  }

  lemma Larger(a: real, b: real, x: real, y: real)
    requires 0.0 < a <= b && 0.0 < x <= y
    ensures a * x <= b * y && (a < b || x < y ==> a * x < b * y)
  {
    Apart(a, b, x, y);
    Product(b, y - x);
    Product(b - a, x);
  }

  lemma Apart(a: real, b: real, x: real, y: real)
    ensures b * y - a * x == b * (y - x) + (b - a) * x
  {
  }

  lemma Product(a: real, b: real)
    requires a >= 0.0 && b >= 0.0
    ensures a * b >= 0.0 && (a > 0.0 && b > 0.0 ==> a * b > 0.0)
  {
  }

  /** An engram scores its importance, at least 1, when it has just been used, and the same again for every 30 days
      since. */
  lemma ScoreIs(e: Engram, now: int, days: nat)
    requires now - e.lastAccessed == days * 86_400 * 1_000_000_000
    ensures 30.0 * Score(e, now) == (if e.importance > 1 then e.importance as real else 1.0) * (30 + days) as real
  {
    var imp := if e.importance < 1 then 1.0 else e.importance as real;
    assert (now - e.lastAccessed) as real / DAY == days as real;
    ScaleUp(imp, days as real);
  }

  lemma ScaleUp(imp: real, d: real)
    ensures 30.0 * (imp * (1.0 + d / 30.0)) == imp * (30.0 + d)
  {
    assert 30.0 * (1.0 + d / 30.0) == 30.0 + d;
  }

  datatype Scored = Scored(id: string, score: real)

  predicate Lower(a: Scored, b: Scored) {
    a.score < b.score
  }

  lemma LowerIsOrder()
    ensures StrictWeakOrder(Lower)
  {
  }

  /** How many engrams go. */
  function Quota(n: nat): (k: nat)
    ensures n > 0 ==> 0 < k <= n
  {
    if n / 10 < 1 then 1 else n / 10
  }

  /** The size after a collection, where there is one. */
  function SizeAfter(n: nat): (k: nat)
    ensures k <= n
  {
    if n <= MAX_SIZE then n else n - Quota(n)
  }

  /** One collection brings an index back within its limit exactly up to 11111 engrams; beyond that each
      still shrinks it. */
  lemma WithinLimitIff(n: nat)
    ensures SizeAfter(n) <= MAX_SIZE <==> n <= 11111
    ensures n > MAX_SIZE ==> SizeAfter(n) < n - 1
  {
  }

  /** The engrams that go are as many as they should be, and none scores more than one that stays. */
  ghost predicate Evicts(before: map<string, Engram>, gone: set<string>, after: map<string, Engram>, now: int) {
    && gone <= before.Keys && |gone| == Quota(|before|) && after == before - gone
    && forall g, k :: g in gone && k in after ==> Score(before[g], now) <= Score(before[k], now)
  }

  /** The list holds each engram once, with its score. */
  ghost predicate Lists(list: seq<Scored>, engrams: map<string, Engram>, now: int) {
    && (forall i :: 0 <= i < |list| ==> list[i].id in engrams && list[i].score == Score(engrams[list[i].id], now))
    && (forall i, j :: 0 <= i < j < |list| ==> list[i].id != list[j].id)
    && |list| == |engrams|
  }

  function Ids(list: seq<Scored>): (ids: seq<string>)
    ensures |ids| == |list| && forall i :: 0 <= i < |list| ==> ids[i] == list[i].id
  {
    seq(|list|, i requires 0 <= i < |list| => list[i].id)
  }

  /** The identifiers at the front of the list. */
  function Front(list: seq<Scored>, n: nat): set<string>
    requires n <= |list|
  {
    set i | 0 <= i < n :: list[i].id
  }

  /** Sorting keeps the list what it is. */
  lemma SortedLists(list: seq<Scored>, sorted: seq<Scored>, engrams: map<string, Engram>, now: int)
    requires Lists(list, engrams, now) && multiset(sorted) == multiset(list)
    ensures Lists(sorted, engrams, now)
  {
    assert |sorted| == |multiset(sorted)| == |list|;
    forall i | 0 <= i < |sorted|
      ensures sorted[i].id in engrams && sorted[i].score == Score(engrams[sorted[i].id], now)
    {
      assert sorted[i] in multiset(list);
    }
    DistinctMultiset(list);
    DistinctPermutation(sorted);
    forall i, j | 0 <= i < j < |sorted|
      ensures sorted[i].id != sorted[j].id
    {
      assert sorted[i] != sorted[j];
    }
  }

  lemma FrontOneMore(list: seq<Scored>, n: nat)
    requires n < |list|
    ensures Front(list, n + 1) == Front(list, n) + {list[n].id}
  {
  }

  lemma FrontSize(list: seq<Scored>, n: nat)
    requires n <= |list| && forall i, j :: 0 <= i < j < |list| ==> list[i].id != list[j].id
    ensures |Front(list, n)| == n
  {
    var ids := Ids(list)[..n];
    DistinctSize(ids);
    assert (set d | d in ids) == Front(list, n);
  }

  lemma EvictedSize(before: map<string, Engram>, gone: set<string>, after: map<string, Engram>, now: int)
    requires Evicts(before, gone, after, now)
    ensures |after| == |before| - Quota(|before|)
  {
    assert after.Keys == before.Keys - gone;
    assert before.Keys == after.Keys + gone;
  }

  /** A file that the walk meets: its name without ".txt", and its text. */
  datatype File = File(base: string, data: string)

  /** The engram that a file holds; its name stands in for a missing identifier. */
  function EngramOf(tm: Times, zero: int, f: File): Engram {
    var e := Parsed(tm, zero, f.data);
    if e.id == "" then e.(id := f.base) else e
  }

  function Loaded(tm: Times, zero: int, files: seq<File>): map<string, Engram> {
    if files == [] then map[]
    else
      var e := EngramOf(tm, zero, files[|files| - 1]);
      Loaded(tm, zero, files[..|files| - 1])[e.id := e]
  }

  /** Files whose engrams have different identifiers are all loaded, however many there are. */
  lemma {:induction false} LoadHasNoLimit(tm: Times, zero: int, files: seq<File>)
    requires forall i, j :: 0 <= i < j < |files| ==> EngramOf(tm, zero, files[i]).id != EngramOf(tm, zero, files[j]).id
    ensures |Loaded(tm, zero, files)| == |files|
    ensures forall id :: id in Loaded(tm, zero, files) ==>
              exists i :: 0 <= i < |files| && EngramOf(tm, zero, files[i]).id == id
  {
    if files != [] {
      var n := |files| - 1;
      var before := Loaded(tm, zero, files[..n]);
      var e := EngramOf(tm, zero, files[n]);
      LoadHasNoLimit(tm, zero, files[..n]);
      assert e.id !in before;
      assert before[e.id := e].Keys == before.Keys + {e.id};
    }
  }

  class EngramStore {
    var engrams: map<string, Engram>

    constructor ()
      ensures engrams == map[]
    {
      engrams := map[];
    }

    /** What `Write` makes of an engram without an identifier or times; `zero` is Go's zero time. */
    static function Completed(e: Engram, zero: int, now: int): Engram {
      var timestamp := if e.timestamp == zero then now else e.timestamp;
      e.(id := if e.id == "" then FormatInt(now) else e.id, timestamp := timestamp,
         lastAccessed := if e.lastAccessed == zero then timestamp else e.lastAccessed)
    }

    /** `Write`; a file that cannot be written leaves the index as it was. What goes are the engrams with
        the lowest scores. An index that `Load` has filled beyond the limit may stay beyond it. */
    method Write(e: Engram, zero: int, now: int, fileWritten: bool) returns (ok: bool, ghost gone: set<string>)
      modifies this
      ensures ok == fileWritten
      ensures
        var c := Completed(e, zero, now);
        var more := old(engrams)[c.id := c];
        if !ok then engrams == old(engrams)
        else
          && (if |more| <= MAX_SIZE then engrams == more else Evicts(more, gone, engrams, now))
          && |engrams| == SizeAfter(|more|) && (|engrams| <= MAX_SIZE <==> |more| <= 11111)
      ensures old(|engrams|) <= MAX_SIZE ==> |engrams| <= MAX_SIZE
      ensures ok && old(|engrams|) > MAX_SIZE ==> |engrams| < old(|engrams|)
    {
      gone := {};
      ok := fileWritten;
      if !ok {
        return;
      }
      var c := Completed(e, zero, now);
      engrams := engrams[c.id := c];
      WithinLimitIff(|engrams|);
      if |engrams| > MAX_SIZE {
        gone := Collect(now);
        EvictedSize(old(engrams)[c.id := c], gone, engrams, now);
      }
    }

    /** `Load`: the index of the readable files that the walk meets before it ends. There is no limit. */
    method Load(tm: Times, zero: int, files: seq<File>)
      modifies this
      ensures engrams == Loaded(tm, zero, files)
    {
      engrams := map[];
      for i := 0 to |files|
        invariant engrams == Loaded(tm, zero, files[..i])
      {
        assert files[..i + 1][..i] == files[..i];
        var e := ParseEngram(tm, zero, files[i].data);
        if e.id == "" {
          e := e.(id := files[i].base);
        }
        engrams := engrams[e.id := e];
      }
      assert files[..|files|] == files;
    }

    /** `gc`. */
    method Collect(now: int) returns (ghost gone: set<string>)
      requires engrams != map[]
      modifies this
      ensures Evicts(old(engrams), gone, engrams, now)
    {
      var list := List(now);
      LowerIsOrder();
      var sorted := SortSlice(list, Lower);
      SortedLists(list, sorted, engrams, now);
      var evict := Quota(|sorted|);
      LowestGo(sorted, engrams, evict, now);
      gone := Front(sorted, evict);
      RemoveFront(sorted, evict);
    }

    /** The second loop of `gc`. */
    method RemoveFront(sorted: seq<Scored>, evict: nat)
      requires evict <= |sorted|
      modifies this
      ensures engrams == old(engrams) - Front(sorted, evict)
    {
      for i := 0 to evict
        invariant engrams == old(engrams) - Front(sorted, i)
      {
        FrontOneMore(sorted, i);
        engrams := engrams - {sorted[i].id};
      }
    }

    /** The first loop of `gc`. */
    method List(now: int) returns (list: seq<Scored>)
      ensures Lists(list, engrams, now)
    {
      list := [];
      var rest := engrams.Keys;
      while rest != {}
        invariant rest <= engrams.Keys && |list| + |rest| == |engrams|
        invariant forall i :: 0 <= i < |list| ==>
                    list[i].id in engrams && list[i].id !in rest && list[i].score == Score(engrams[list[i].id], now)
        invariant forall i, j :: 0 <= i < j < |list| ==> list[i].id != list[j].id
        decreases rest
      {
        var id :| id in rest;
        list := list + [Scored(id, Score(engrams[id], now))];
        rest := rest - {id};
      }
    }
  }

  lemma LowestGo(sorted: seq<Scored>, engrams: map<string, Engram>, evict: nat, now: int)
    requires Lists(sorted, engrams, now) && SortedBy(Lower, sorted) && evict == Quota(|sorted|) <= |sorted|
    ensures Evicts(engrams, Front(sorted, evict), engrams - Front(sorted, evict), now)
  {
    var gone := Front(sorted, evict);
    FrontSize(sorted, evict);
    AllListed(sorted, engrams, now);
    forall g, k | g in gone && k in engrams && k !in gone
      ensures Score(engrams[g], now) <= Score(engrams[k], now)
    {
      LowerGoes(sorted, engrams, evict, now, g, k);
    }
  }

  lemma LowerGoes(sorted: seq<Scored>, engrams: map<string, Engram>, evict: nat, now: int, g: string, k: string)
    requires Lists(sorted, engrams, now) && SortedBy(Lower, sorted) && evict <= |sorted|
    requires g in Front(sorted, evict) && k in Front(sorted, |sorted|) && k !in Front(sorted, evict)
    ensures g in engrams && k in engrams && Score(engrams[g], now) <= Score(engrams[k], now)
  {
    var i :| 0 <= i < evict && sorted[i].id == g;
    var j :| 0 <= j < |sorted| && sorted[j].id == k;
    assert j >= evict;
    assert !Lower(sorted[j], sorted[i]);
  }

  lemma AllListed(list: seq<Scored>, engrams: map<string, Engram>, now: int)
    requires Lists(list, engrams, now)
    ensures Front(list, |list|) == engrams.Keys
  {
    FrontSize(list, |list|);
    SubsetSize(Front(list, |list|), engrams.Keys);
  }
}
