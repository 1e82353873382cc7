/**
 Definitions shared by the models. A Go `string` or `[]byte` is a sequence of bytes; it is
 modelled as a Dafny `string` with one `char` per byte.
 */
module Common {

  datatype Option<+T> = None | Some(value: T)

  function OneIf(b: bool): nat {
    if b then 1 else 0
  }

  /** A lower-case hexadecimal digit. */
  function HexDigit(n: nat): char
    requires n < 16
  {
    if n < 10 then (48 + n) as char else (87 + n) as char
  }

  lemma HexDigitIs(n: nat)
    requires n < 16
    ensures HexDigit(n) == "0123456789abcdef"[n]
  {
    var s := "0123456789abcdef";
    if n < 8 {
      assert n in [0, 1, 2, 3, 4, 5, 6, 7];
    } else {
      assert n - 8 in [0, 1, 2, 3, 4, 5, 6, 7];
    }
  }

  lemma TimesMonotone(d: nat, x: nat, y: nat)
    requires x <= y
    ensures d * x <= d * y
  {
  }

  lemma SmallerFactor(d: nat, x: nat, y: nat)
    requires d * x < d * y
    ensures x < y
  {
    if y <= x {
      TimesMonotone(d, y, x);
    }
  }

  lemma QuotientIs(n: nat, d: nat, q: nat)
    requires d > 0 && d * q <= n < d * (q + 1)
    ensures n / d == q
  {
    SmallerFactor(d, q, n / d + 1);
    SmallerFactor(d, n / d, q + 1);
  }

  /** Dividing twice is dividing by the product. */
  lemma DivideTwice(n: nat, a: nat, b: nat)
    requires a > 0 && b > 0
    ensures a * b > 0 && n / a / b == n / (a * b)
  {
    BetweenMultiples(n, a, b, n / a, n / a / b);
    TimesMonotone(a, 1, b);
    QuotientIs(n, a * b, n / a / b);
  }

  lemma BetweenMultiples(n: nat, a: nat, b: nat, q: nat, p: nat)
    requires a * q <= n < a * (q + 1) && b * p <= q < b * (p + 1)
    ensures a * b * p <= n < a * b * (p + 1)
  {
    TimesMonotone(a, b * p, q);
    TimesMonotone(a, q + 1, b * (p + 1));
    Regroup(a, b, p);
    Regroup(a, b, p + 1);
  }

  lemma Regroup(a: nat, b: nat, p: nat)
    ensures a * (b * p) == a * b * p
  {
  }

  lemma SliceOfSlice<T>(s: seq<T>, lo: nat, hi: nat, i: nat, j: nat)
    requires lo <= hi <= |s| && i <= j <= hi - lo
    ensures s[lo..hi][i..j] == s[lo + i..lo + j]
  {
    var t, u := s[lo..hi][i..j], s[lo + i..lo + j];
    forall k | 0 <= k < j - i
      ensures t[k] == u[k]
    {
      assert t[k] == s[lo..hi][i + k] && u[k] == s[lo + i + k];
    }
  }

  /** The last `n` elements, or all if there are fewer. */
  function LastN<T>(s: seq<T>, n: nat): seq<T> {
    if |s| <= n then s else s[|s| - n..]
  }

  lemma LastNOneMore<T>(s: seq<T>, x: T, n: nat)
    requires n > 0
    ensures LastN(LastN(s, n) + [x], n) == LastN(s + [x], n)
  {
  }

  lemma LastNOfLastN<T>(s: seq<T>, n: nat, m: nat)
    requires n <= m
    ensures LastN(LastN(s, m), n) == LastN(s, n)
  {
  }

  lemma UnionSize<T>(a: set<T>, b: set<T>)
    ensures |a + b| + |a * b| == |a| + |b|
  {
    assert a + b == a + (b - a);
    assert b == (b - a) + b * a;
    assert b * a == a * b;
  }

  lemma SubsetSize<T>(a: set<T>, b: set<T>)
    requires a <= b
    ensures |a| <= |b| && (|a| == |b| ==> a == b)
  {
    assert b == a + (b - a);
  }

  // ----- lists without duplicates -------------------------------------------------------

  lemma {:induction false} DistinctMultiset<T(!new)>(list: seq<T>)
    requires forall i, j :: 0 <= i < j < |list| ==> list[i] != list[j]
    ensures forall h :: multiset(list)[h] <= 1
  {
    if list != [] {
      var n := |list| - 1;
      DistinctMultiset(list[..n]);
      assert list == list[..n] + [list[n]];
      assert list[n] !in list[..n];
    }
  }

  lemma DistinctPermutation<T(!new)>(sorted: seq<T>)
    requires forall h :: multiset(sorted)[h] <= 1
    ensures forall i, j :: 0 <= i < j < |sorted| ==> sorted[i] != sorted[j]
  {
    forall i, j | 0 <= i < j < |sorted|
      ensures sorted[i] != sorted[j]
    {
      if sorted[i] == sorted[j] {
        TwiceInMultiset(sorted, i, j);
      }
    }
  }

  lemma TwiceInMultiset<T>(hits: seq<T>, i: nat, j: nat)
    requires i < j < |hits| && hits[i] == hits[j]
    ensures multiset(hits)[hits[i]] >= 2
  {
    assert hits == hits[..j] + ([hits[j]] + hits[j + 1..]);
    assert hits[i] in hits[..j];
    assert multiset(hits[..j])[hits[i]] >= 1;
    assert multiset(hits) == multiset(hits[..j]) + multiset([hits[j]] + hits[j + 1..]);
  }

  lemma {:induction false} DistinctSize<T>(ids: seq<T>)
    requires forall i, j :: 0 <= i < j < |ids| ==> ids[i] != ids[j]
    ensures |set d | d in ids| == |ids|
  {
    if ids != [] {
      var n := |ids| - 1;
      DistinctSize(ids[..n]);
      assert ids == ids[..n] + [ids[n]];
      assert ids[n] !in ids[..n];
      assert (set d | d in ids) == (set d | d in ids[..n]) + {ids[n]};
    }
  }

  /** How often `t` is in a sequence, in its first place and in the rest. */
  lemma TakeFirst<T>(s: seq<T>, t: T)
    requires s != []
    ensures multiset(s)[t] == multiset(s[1..])[t] + OneIf(t == s[0])
  {
    assert s == [s[0]] + s[1..];
  }

  // ----- the keys of a map ----------------------------------------------------------------

  /** Each key of a map once; Go visits a map's keys in an order that is not determined. */
  ghost predicate Enumerates<V>(order: seq<string>, m: map<string, V>) {
    && (forall i, j :: 0 <= i < j < |order| ==> order[i] != order[j])
    && (forall k :: k in m <==> k in order)
  }

  method Enumerate<V>(m: map<string, V>) returns (order: seq<string>)
    ensures Enumerates(order, m)
  {
    order := [];
    var rest := m.Keys;
    while rest != {}
      invariant forall i, j :: 0 <= i < j < |order| ==> order[i] != order[j]
      invariant forall k :: k in m <==> k in rest || k in order
      invariant forall k :: k in rest ==> k !in order
      decreases rest
    {
      var k :| k in rest;
      rest := rest - {k};
      order := order + [k];
    }
  }

  // ----- sums over maps -------------------------------------------------------------------

  /** The sum of a map's values. */
  ghost function Sum(m: map<string, nat>): nat {
    if m == map[] then 0
    else
      var k :| k in m;
      m[k] + Sum(m - {k})
  }

  lemma {:induction false} SumWithout(m: map<string, nat>, k: string)
    requires k in m
    ensures Sum(m) == m[k] + Sum(m - {k})
  {
    var j :| j in m && Sum(m) == m[j] + Sum(m - {j});
    if j != k {
      SumWithout(m - {j}, k);
      SumWithout(m - {k}, j);
      assert m - {j} - {k} == m - {k} - {j};
    }
  }

  // ----- sort.Slice -----------------------------------------------------------------------

  /** What `sort.Slice` demands of its comparison function. */
  ghost predicate StrictWeakOrder<T(!new)>(less: (T, T) -> bool) {
    && (forall x :: !less(x, x))
    && (forall x, y, z :: less(x, y) && less(y, z) ==> less(x, z))
    && (forall x, y, z :: !less(x, y) && !less(y, z) ==> !less(x, z))
  }

  /** A strict weak order whose incomparable elements are equal. */
  ghost predicate StrictTotalOrder<T(!new)>(less: (T, T) -> bool) {
    && StrictWeakOrder(less)
    && forall x, y :: !less(x, y) && !less(y, x) ==> x == y
  }

  ghost predicate SortedBy<T(!new)>(less: (T, T) -> bool, xs: seq<T>) {
    forall i, j :: 0 <= i < j < |xs| ==> !less(xs[j], xs[i])
  }

  /** `sort.Slice`: some sorted permutation. Callers rely on the contract only. */
  method SortSlice<T(!new)>(xs: seq<T>, less: (T, T) -> bool) returns (ys: seq<T>)
    requires StrictWeakOrder(less)
    ensures multiset(ys) == multiset(xs)
    ensures SortedBy(less, ys)
  {
    ys := [];
    for n := 0 to |xs|
      invariant multiset(ys) == multiset(xs[..n])
      invariant SortedBy(less, ys)
    {
      var k := InsertionPoint(ys, xs[n], less);
      InsertedIsSorted(ys, k, xs[n], less);
      InsertedMultiset(ys, k, xs[n]);
      ys := ys[..k] + [xs[n]] + ys[k..];
      assert xs[..n + 1] == xs[..n] + [xs[n]];
    }
    assert xs[..|xs|] == xs;
  }

  method InsertionPoint<T(!new)>(ys: seq<T>, x: T, less: (T, T) -> bool) returns (k: nat)
    ensures k <= |ys|
    ensures k > 0 ==> !less(x, ys[k - 1])
    ensures forall i :: k <= i < |ys| ==> less(x, ys[i])
  {
    k := |ys|;
    while k > 0 && less(x, ys[k - 1])
      invariant k <= |ys|
      invariant forall i :: k <= i < |ys| ==> less(x, ys[i])
    {
      k := k - 1;
    }
  }

  lemma InsertedMultiset<T>(ys: seq<T>, k: nat, x: T)
    requires k <= |ys|
    ensures multiset(ys[..k] + [x] + ys[k..]) == multiset(ys) + multiset{x}
  {
    assert ys == ys[..k] + ys[k..];
  }

  lemma InsertedIsSorted<T(!new)>(ys: seq<T>, k: nat, x: T, less: (T, T) -> bool)
    requires StrictWeakOrder(less) && SortedBy(less, ys) && k <= |ys|
    requires k > 0 ==> !less(x, ys[k - 1])
    requires forall i :: k <= i < |ys| ==> less(x, ys[i])
    ensures SortedBy(less, ys[..k] + [x] + ys[k..])
  {
    var zs := ys[..k] + [x] + ys[k..];
    assert forall i :: 0 <= i < k ==> zs[i] == ys[i] && !less(x, zs[i]) by {
      assert forall i :: 0 <= i < k - 1 ==> !less(ys[k - 1], ys[i]);
    }
    assert forall i :: k < i < |zs| ==> zs[i] == ys[i - 1] && !less(zs[i], x);
    forall i, j | 0 <= i < j < |zs|
      ensures !less(zs[j], zs[i])
    {
      if i != k && j != k {
        var i', j' := if i < k then i else i - 1, if j < k then j else j - 1;
        assert zs[i] == ys[i'] && zs[j] == ys[j'] && !less(ys[j'], ys[i']);
      }
    }
  }

  /** Two sorted permutations of each other under a total order are the same sequence. */
  lemma {:induction false} SortedUnique<T(!new)>(less: (T, T) -> bool, xs: seq<T>, ys: seq<T>)
    requires StrictTotalOrder(less)
    requires SortedBy(less, xs) && SortedBy(less, ys)
    requires multiset(xs) == multiset(ys)
    ensures xs == ys
  {
    assert |multiset(xs)| == |multiset(ys)|;
    if xs != [] {
      assert xs[0] == ys[0] by {
        LeastFirst(less, xs, ys);
        LeastFirst(less, ys, xs);
      }
      assert multiset(xs[1..]) == multiset(ys[1..]) by {
        WithoutFirst(xs);
        WithoutFirst(ys);
      }
      SortedUnique(less, xs[1..], ys[1..]);
      assert xs == [xs[0]] + xs[1..] && ys == [ys[0]] + ys[1..];
    }
  }

  lemma LeastFirst<T(!new)>(less: (T, T) -> bool, xs: seq<T>, ys: seq<T>)
    requires StrictTotalOrder(less) && SortedBy(less, xs)
    requires xs != [] && ys != [] && multiset(xs) == multiset(ys)
    ensures !less(ys[0], xs[0])
  {
    assert ys[0] in multiset(xs);
    var k :| 0 <= k < |xs| && xs[k] == ys[0];
  }

  lemma WithoutFirst<T>(xs: seq<T>)
    requires xs != []
    ensures multiset(xs[1..]) == multiset(xs) - multiset{xs[0]}
  {
    assert xs == [xs[0]] + xs[1..];
  }

  // ----- byte-wise string order -----------------------------------------------------------

  /** Go's `<` on strings. */
  predicate StringLess(a: string, b: string) {
    if b == [] then false
    else if a == [] then true
    else a[0] < b[0] || (a[0] == b[0] && StringLess(a[1..], b[1..]))
  }

  /** The strings agree before place `k` and differ there. */
  ghost predicate DifferAt(a: string, b: string, k: nat) {
    k < |a| && k < |b| && a[..k] == b[..k] && a[k] != b[k]
  }

  /** The byte-wise order: a proper beginning comes first, otherwise the smaller byte at the first difference. */
  ghost predicate BytewiseLess(a: string, b: string) {
    || (|a| < |b| && a == b[..|a|])
    || exists k: nat :: DifferAt(a, b, k) && a[k] < b[k]
  }

  lemma {:induction false} StringLessIff(a: string, b: string)
    ensures StringLess(a, b) <==> BytewiseLess(a, b)
  {
    if a != [] && b != [] && a[0] == b[0] {
      StringLessIff(a[1..], b[1..]);
      RestLess(a, b);
    } else if a != [] && b != [] {
      assert DifferAt(a, b, 0);
      assert forall k: nat :: k > 0 ==> !DifferAt(a, b, k) by {
        assert forall k: nat :: 0 < k <= |a| && k <= |b| ==> a[..k][0] == a[0] && b[..k][0] == b[0];
      }
    }
  }

  lemma RestLess(a: string, b: string)
    requires a != [] && b != [] && a[0] == b[0]
    ensures BytewiseLess(a, b) <==> BytewiseLess(a[1..], b[1..])
  {
    var c, d := a[1..], b[1..];
    assert a == [a[0]] + c && b == [b[0]] + d;
    assert |a| < |b| ==> b[..|a|] == [b[0]] + d[..|c|];
    if k: nat :| DifferAt(c, d, k) && c[k] < d[k] {
      assert a[..k + 1] == [a[0]] + c[..k] && b[..k + 1] == [b[0]] + d[..k];
      assert DifferAt(a, b, k + 1);
    }
    if k: nat :| DifferAt(a, b, k) && a[k] < b[k] {
      assert k > 0;
      assert c[..k - 1] == a[..k][1..] && d[..k - 1] == b[..k][1..];
      assert DifferAt(c, d, k - 1);
    }
  }

  lemma {:induction false} StringLessTrichotomy(a: string, b: string)
    ensures !(StringLess(a, b) && StringLess(b, a))
    ensures !StringLess(a, b) && !StringLess(b, a) ==> a == b
    ensures !StringLess(a, a)
  {
    if a != [] {
      StringLessTrichotomy(a[1..], if b == [] then [] else b[1..]);
      if b != [] && a[0] == b[0] {
        assert a == [a[0]] + a[1..] && b == [b[0]] + b[1..];
      }
    }
  }

  lemma {:induction false} StringLessTransitive(a: string, b: string, c: string)
    ensures StringLess(a, b) && StringLess(b, c) ==> StringLess(a, c)
  {
    if a != [] && b != [] && c != [] {
      StringLessTransitive(a[1..], b[1..], c[1..]);
    }
  }

  lemma StringLessIsTotalOrder()
    ensures StrictTotalOrder(StringLess)
  {
    forall a, b {
      StringLessTrichotomy(a, b);
    }
    forall a, b, c {
      StringLessTransitive(a, b, c);
    }
    forall a, b, c | !StringLess(a, b) && !StringLess(b, c)
      ensures !StringLess(a, c)
    {
      StringLessTransitive(b, a, c);
      StringLessTransitive(a, c, b);
    }
  }
}
