/**
 engine/memory_engine.go: the decay of a memory's relevance with its age, and retrieval from a short
 window of recent entries and a long-term store. `float64` is modelled by the reals; durations are
 nanoseconds.
 */
module DecayMemory {
  import opened Common

  const HOUR: int := 3_600_000_000_000
  const HALF_LIFE: int := 7 * 24 * HOUR
  const FLOOR := 0.000001

  // ----- decay ----------------------------------------------------------------------------

  function PowHalf(k: nat): (r: real)
    ensures 0.0 < r <= 1.0
  {
    if k == 0 then 1.0 else 0.5 * PowHalf(k - 1)
  }

  /** Decay after `x` half-lives, before the floor: halved for each whole half-life, then linear. */
  function Raw(x: real): (r: real)
    requires x >= 0.0
    decreases x.Floor
  {
    if x >= 1.0 then 0.5 * Raw(x - 1.0) else 1.0 - x * 0.5
  }

  function Whole(x: real): nat
    requires x >= 0.0
  {
    x.Floor
  }

  function Frac(x: real): (f: real)
    requires x >= 0.0
    ensures 0.0 <= f < 1.0
  {
    x - x.Floor as real
  }

  function Floored(r: real): real {
    if r < FLOOR then FLOOR else r
  }

  /** `DecayFactor`. */
  method DecayFactor(age: int, halfLife: int) returns (r: real)
    ensures r == Factor(age, halfLife)
  {
    var life := if halfLife <= 0 then 24 * HOUR else halfLife;
    if age <= 0 {
      return 1.0;
    }
    var decay, ratio := HalveWhole(age as real / life as real);
    if ratio > 0.0 {
      decay := decay * (1.0 - ratio * 0.5);
    }
    r := if decay < FLOOR then FLOOR else decay;
  }

  /** The loop. */
  method HalveWhole(x: real) returns (decay: real, ratio: real)
    requires x >= 0.0
    ensures 0.0 <= ratio && Raw(x) == if ratio > 0.0 then decay * (1.0 - ratio * 0.5) else decay
  {
    ghost var k: nat := 0;
    decay, ratio := 1.0, x;
    while ratio >= 1.0
      invariant ratio == x - k as real >= 0.0 && decay == PowHalf(k)
      decreases ratio.Floor
    {
      decay := decay * 0.5;
      ratio := ratio - 1.0;
      k := k + 1;
    }
    RawAtEnd(x, k, ratio);
  }

  lemma RawAtEnd(x: real, k: nat, ratio: real)
    requires 0.0 <= ratio == x - k as real < 1.0
    ensures Raw(x) == PowHalf(k) * (1.0 - ratio * 0.5)
    ensures ratio == 0.0 ==> Raw(x) == PowHalf(k)
  {
    RawShape(x);
    assert Whole(x) == k && Frac(x) == ratio;
  }

  function HalfLives(age: int, halfLife: int): (x: real)
    requires age >= 0
    ensures x >= 0.0
  {
    var life := if halfLife <= 0 then 24 * HOUR else halfLife;
    age as real / life as real
  }

  function Factor(age: int, halfLife: int): real {
    if age <= 0 then 1.0 else Floored(Raw(HalfLives(age, halfLife)))
  }

  lemma {:induction false} RawShape(x: real)
    requires x >= 0.0
    ensures Raw(x) == PowHalf(Whole(x)) * (1.0 - Frac(x) * 0.5)
    decreases x.Floor
  {
    if x >= 1.0 {
      RawShape(x - 1.0);
      assert Whole(x) == Whole(x - 1.0) + 1 && Frac(x) == Frac(x - 1.0);
      assert PowHalf(Whole(x)) == 0.5 * PowHalf(Whole(x) - 1);
    }
  }

  /** After `k` whole half-lives decay lies above 2^-(k+1) and is at most 2^-k. */
  lemma {:induction false} RawBetweenPowers(x: real)
    requires x >= 0.0
    ensures PowHalf(Whole(x) + 1) < Raw(x) <= PowHalf(Whole(x))
    decreases x.Floor
  {
    if x >= 1.0 {
      RawBetweenPowers(x - 1.0);
      assert Whole(x) == Whole(x - 1.0) + 1;
    } else {
      assert PowHalf(0) == 1.0 && PowHalf(1) == 0.5;
    }
  }

  /** Before the floor an older memory has strictly decayed more. */
  lemma {:induction false} RawDecreases(x: real, y: real)
    requires 0.0 <= x < y
    ensures Raw(x) > Raw(y)
    decreases y.Floor
  {
    if x >= 1.0 {
      RawDecreases(x - 1.0, y - 1.0);
    } else if y >= 1.0 {
      RawBetweenPowers(y);
      PowHalfAtMostHalf(Whole(y));
    }
  }

  /** Decay halves exactly when the age grows by one half-life. */
  lemma OneHalfLifeHalves(x: real, y: real)
    requires x >= 0.0 && y >= 0.0
    ensures Raw(y) == 0.5 * Raw(x) <==> y == x + 1.0
  {
    var z := x + 1.0;
    assert Raw(z) == 0.5 * Raw(x);
    if y < z {
      RawDecreases(y, z);
    } else if y > z {
      RawDecreases(z, y);
    }
  }

  lemma {:induction false} PowHalfAtMostHalf(k: nat)
    requires k >= 1
    ensures PowHalf(k) <= 0.5
  {
    if k > 1 {
      PowHalfAtMostHalf(k - 1);
    }
  }

  /** The factor is never zero, never above one, and never grows with age. */
  lemma FactorDecreases(age: int, older: int, halfLife: int)
    requires age <= older
    ensures FLOOR <= Factor(older, halfLife) <= Factor(age, halfLife) <= 1.0
  {
    if older > 0 {
      var y := HalfLives(older, halfLife);
      RawBetweenPowers(y);
      if 0 < age < older {
        var x := HalfLives(age, halfLife);
        RatioGrows(age, older, if halfLife <= 0 then 24 * HOUR else halfLife);
        RawDecreases(x, y);
        RawBetweenPowers(x);
      }
    }
  }

  lemma RatioGrows(a: int, b: int, d: int)
    requires a < b && d > 0
    ensures a as real / d as real < b as real / d as real
  {
    var x, y := a as real / d as real, b as real / d as real;
    assert x * d as real == a as real && y * d as real == b as real;
    assert x >= y ==> x * d as real >= y * d as real;
  }

  /** The law of exponential decay, which the code's comment promises. */
  predicate ExponentialLaw(x: real, y: real)
    requires x >= 0.0 && y >= 0.0
  {
    Raw(x + y) == Raw(x) * Raw(y)
  }

  /** It holds exactly when one of the two ages is a whole number of half-lives. */
  lemma {:induction false} ExponentialLawIff(x: real, y: real)
    requires x >= 0.0 && y >= 0.0
    ensures ExponentialLaw(x, y) <==> Frac(x) == 0.0 || Frac(y) == 0.0
    decreases x.Floor + y.Floor
  {
    if x >= 1.0 {
      ExponentialLawIff(x - 1.0, y);
      LawOneLess(x, y);
    } else if y >= 1.0 {
      ExponentialLawIff(y - 1.0, x);
      LawOneLess(y, x);
      LawSymmetric(x, y);
    } else {
      LawBelowOne(x, y);
    }
  }

  lemma LawSymmetric(x: real, y: real)
    requires x >= 0.0 && y >= 0.0
    ensures ExponentialLaw(x, y) == ExponentialLaw(y, x)
  {
    assert x + y == y + x;
  }

  lemma LawOneLess(x: real, y: real)
    requires x >= 1.0 && y >= 0.0
    ensures ExponentialLaw(x, y) == ExponentialLaw(x - 1.0, y) && Frac(x) == Frac(x - 1.0)
  {
    assert x + y - 1.0 == x - 1.0 + y;
    LawStep(Raw(x), Raw(y), Raw(x + y), Raw(x - 1.0), Raw(x - 1.0 + y));
  }

  lemma LawStep(rx: real, ry: real, rs: real, less: real, sumLess: real)
    requires rx == 0.5 * less && rs == 0.5 * sumLess
    ensures rs == rx * ry <==> sumLess == less * ry
  {
    assert rx * ry == 0.5 * (less * ry);
  }

  lemma LawBelowOne(f: real, g: real)
    requires 0.0 <= f < 1.0 && 0.0 <= g < 1.0
    ensures ExponentialLaw(f, g) <==> Frac(f) == 0.0 || Frac(g) == 0.0
  {
    assert Raw(f) == 1.0 - f * 0.5 && Raw(g) == 1.0 - g * 0.5;
    if f + g < 1.0 {
      ProductBelow(f, g);
    } else {
      assert Raw(f + g) == 0.5 * (1.0 - (f + g - 1.0) * 0.5);
      ProductAbove(f, g);
    }
  }

  lemma ProductBelow(f: real, g: real)
    ensures 1.0 - (f + g) * 0.5 == (1.0 - f * 0.5) * (1.0 - g * 0.5) <==> f == 0.0 || g == 0.0
  {
    assert (1.0 - f * 0.5) * (1.0 - g * 0.5) == 1.0 - (f + g) * 0.5 + (f * g) * 0.25;
    if f * g == 0.0 && g != 0.0 {
      assert f == (f * g) / g;
    }
  }

  lemma ProductAbove(f: real, g: real)
    requires 0.0 <= f < 1.0 && 0.0 <= g < 1.0 && f + g >= 1.0
    ensures 0.75 - (f + g) * 0.25 != (1.0 - f * 0.5) * (1.0 - g * 0.5)
  {
    var u, v := 1.0 - f, 1.0 - g;
    Positive(u, v);
    assert (1.0 - f * 0.5) * (1.0 - g * 0.5) == 0.75 - (f + g) * 0.25 + (u * v) * 0.25;
  }

  lemma Positive(a: real, b: real)
    requires a > 0.0 && b > 0.0
    ensures a * b > 0.0
  {
  }

  // ----- the threshold of retrieval -------------------------------------------------------

  lemma RawAboveThresholdIff(x: real)
    requires x >= 0.0
    ensures Floored(Raw(x)) > 0.01 <==> x < 6.72
  {
    RawAtThreshold();
    if x < 6.72 {
      RawDecreases(x, 6.72);
    } else if x > 6.72 {
      RawDecreases(6.72, x);
    }
  }

  lemma RawAtThreshold()
    ensures Raw(6.72) == 0.01
  {
    assert Raw(0.72) == 0.64;
    assert Raw(1.72) == 0.32;
    assert Raw(2.72) == 0.16;
    assert Raw(3.72) == 0.08;
    assert Raw(4.72) == 0.04;
    assert Raw(5.72) == 0.02;
  }

  /** 6.72 half-lives of seven days: 47.04 days. */
  const HORIZON: int := 4704 * 24 * HOUR / 100

  /** A long-term hit passes exactly when it is younger than 47.04 days. */
  lemma KeptIffYoung(age: int)
    ensures Factor(age, HALF_LIFE) > 0.01 <==> age < HORIZON
  {
    if age > 0 {
      var x := HalfLives(age, HALF_LIFE);
      RawAboveThresholdIff(x);
      assert x * HALF_LIFE as real == age as real;
      assert HORIZON as real == 6.72 * HALF_LIFE as real;
    }
  }

  // ----- the engine -----------------------------------------------------------------------

  datatype MemoryEntry = MemoryEntry(id: string, content: string, createdAt: int)

  /** The matching entries, newest first, up to `room` of them. */
  function Newest(entries: seq<MemoryEntry>, matches: MemoryEntry -> bool, room: nat): seq<MemoryEntry>
    decreases |entries|
  {
    if entries == [] || room == 0 then []
    else
      var x, before := entries[|entries| - 1], entries[..|entries| - 1];
      if matches(x) then [x] + Newest(before, matches, room - 1) else Newest(before, matches, room)
  }

  /** The entries younger than the horizon, in order. */
  function Young(entries: seq<MemoryEntry>, now: int): seq<MemoryEntry>
    decreases |entries|
  {
    if entries == [] then []
    else
      var x, before := entries[|entries| - 1], Young(entries[..|entries| - 1], now);
      if now - x.createdAt < HORIZON then before + [x] else before
  }

  lemma {:induction false} NewestAreHits(entries: seq<MemoryEntry>, matches: MemoryEntry -> bool, room: nat)
    ensures
      var out := Newest(entries, matches, room);
      |out| <= room && forall i :: 0 <= i < |out| ==> out[i] in entries && matches(out[i])
    ensures |Newest(entries, matches, room)| < room ==>
              forall i :: 0 <= i < |entries| && matches(entries[i]) ==> entries[i] in Newest(entries, matches, room)
    decreases |entries|
  {
    if entries != [] && room > 0 {
      var x, before := entries[|entries| - 1], entries[..|entries| - 1];
      NewestAreHits(before, matches, if matches(x) then room - 1 else room);
      assert entries == before + [x];
    }
  }

  /** All matching entries, in the order in which they were pushed. */
  function Matching(entries: seq<MemoryEntry>, matches: MemoryEntry -> bool): seq<MemoryEntry> {
    if entries == [] then []
    else
      var x, before := entries[|entries| - 1], Matching(entries[..|entries| - 1], matches);
      if matches(x) then before + [x] else before
  }

  /** The recent results are, newest first, the last `room` of all matching entries: what the limit leaves out is
      older than everything returned. */
  lemma {:induction false} NewestAreLast(entries: seq<MemoryEntry>, matches: MemoryEntry -> bool, room: nat, k: nat)
    requires k < |Newest(entries, matches, room)|
    ensures
      var all, out := Matching(entries, matches), Newest(entries, matches, room);
      && |out| == |LastN(all, room)|
      && out[k] == LastN(all, room)[|out| - 1 - k] == all[|all| - 1 - k]
    decreases |entries|
  {
    var x, before := entries[|entries| - 1], entries[..|entries| - 1];
    NewestLength(entries, matches, room);
    if !matches(x) {
      NewestAreLast(before, matches, room, k);
    } else if k > 0 {
      NewestAreLast(before, matches, room - 1, k - 1);
    }
  }

  lemma {:induction false} NewestLength(entries: seq<MemoryEntry>, matches: MemoryEntry -> bool, room: nat)
    ensures |Newest(entries, matches, room)| == |LastN(Matching(entries, matches), room)|
    decreases |entries|
  {
    if entries != [] && room > 0 {
      var x, before := entries[|entries| - 1], entries[..|entries| - 1];
      NewestLength(before, matches, if matches(x) then room - 1 else room);
    }
  }

  class MemoryEngine {
    var shortTerm: seq<MemoryEntry>
    const maxShort: nat
    /** All entries ever pushed. */
    ghost var pushed: seq<MemoryEntry>

    ghost predicate Valid()
      reads this
    {
      maxShort > 0 && shortTerm == LastN(pushed, maxShort)
    }

    constructor (max: int)
      ensures Valid() && pushed == [] && maxShort == if max <= 0 then 20 else max
    {
      maxShort := if max <= 0 then 20 else max;
      shortTerm, pushed := [], [];
    }

    /** `PushShort`. */
    method PushShort(entry: MemoryEntry, now: int)
      requires Valid()
      modifies this
      ensures Valid() && pushed == old(pushed) + [entry.(createdAt := now)]
    {
      LastNOneMore(pushed, entry.(createdAt := now), maxShort);
      pushed := pushed + [entry.(createdAt := now)];
      shortTerm := shortTerm + [entry.(createdAt := now)];
      if |shortTerm| > maxShort {
        shortTerm := shortTerm[|shortTerm| - maxShort..];
      }
    }

    /** `Retrieve`: `query` is trimmed and in lower case, `matches` tells whether an entry's content in
        lower case contains it, and `search` is the retriever's answer, if there is a retriever. */
    method Retrieve(query: string, matches: MemoryEntry -> bool, limit: int, search: nat -> seq<MemoryEntry>,
                    hasRetriever: bool, now: int)
      returns (out: seq<MemoryEntry>)
      ensures
        var room: nat := if limit <= 0 then 10 else limit;
        var recent := Newest(shortTerm, matches, room);
        out == if query == "" then []
               else recent + if hasRetriever && |recent| < room then Young(search(room - |recent|), now) else []
    {
      if query == "" {
        return [];
      }
      var room: nat := if limit <= 0 then 10 else limit;
      out := Recent(matches, room);
      if hasRetriever && |out| < room {
        var long := search(room - |out|);
        out := AddYoung(out, long, now);
      }
    }

    /** The loop over the recent entries. */
    method Recent(matches: MemoryEntry -> bool, room: nat) returns (out: seq<MemoryEntry>)
      ensures out == Newest(shortTerm, matches, room)
    {
      out := [];
      var i := |shortTerm|;
      assert shortTerm[..i] == shortTerm;
      while i > 0 && |out| < room
        invariant 0 <= i <= |shortTerm| && |out| <= room
        invariant out + Newest(shortTerm[..i], matches, room - |out|) == Newest(shortTerm, matches, room)
      {
        i := i - 1;
        assert shortTerm[..i + 1][..i] == shortTerm[..i];
        if matches(shortTerm[i]) {
          out := out + [shortTerm[i]];
        }
      }
    }

    /** The loop over the retriever's answer. */
    method AddYoung(found: seq<MemoryEntry>, long: seq<MemoryEntry>, now: int) returns (out: seq<MemoryEntry>)
      ensures out == found + Young(long, now)
    {
      out := found;
      for i := 0 to |long|
        invariant out == found + Young(long[..i], now)
      {
        assert long[..i + 1][..i] == long[..i];
        var age := now - long[i].createdAt;
        var factor := DecayFactor(age, HALF_LIFE);
        KeptIffYoung(age);
        if factor > 0.01 {
          out := out + [long[i]];
        }
      }
      assert long[..|long|] == long;
    }
  }
}
