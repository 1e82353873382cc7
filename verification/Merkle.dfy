/**
 The Merkle audit root of viking/merkle.go. The hash is a parameter `H`, any function to
 32-byte digests; nothing else is assumed of it. Where a result needs collision resistance it
 asks only that `H` does not collide on the strings the two computations actually hash.
 */
module Merkle {
  import opened Common

  predicate Bytes(s: string) {
    forall i :: 0 <= i < |s| ==> s[i] as int < 256
  }

  type Digest = d: string | |d| == 32 && Bytes(d) witness seq(32, i => '0')
  type Hash = string -> Digest

  /** What the directory walk meets: an entry it cannot visit, a directory, or a file, whose
      content is absent when it cannot be read. */
  datatype Visit = Unreachable | Directory | File(path: string, data: Option<string>)

  predicate IsText(path: string) {
    |path| >= 4 && path[|path| - 4..] == ".txt"
  }

  lemma TextIff(path: string)
    ensures IsText(path) <==> exists base :: path == base + ".txt"
  {
    if IsText(path) {
      assert path == path[..|path| - 4] + ".txt";
    }
  }

  /** The contents that become leaves, in walk order. */
  function TextContents(walk: seq<Visit>): seq<string> {
    if walk == [] then []
    else (if walk[0].File? && IsText(walk[0].path) && walk[0].data.Some? then [walk[0].data.value] else [])
         + TextContents(walk[1..])
  }

  function HashAll(H: Hash, contents: seq<string>): (hs: seq<Digest>)
    ensures |hs| == |contents|
  {
    if contents == [] then [] else [H(contents[0])] + HashAll(H, contents[1..])
  }

  lemma {:induction false} HashAllConcat(H: Hash, c: seq<string>, d: seq<string>)
    ensures HashAll(H, c + d) == HashAll(H, c) + HashAll(H, d)
  {
    if c == [] {
      assert c + d == d;
    } else {
      assert (c + d)[1..] == c[1..] + d;
      HashAllConcat(H, c[1..], d);
    }
  }

  predicate DigestLess(a: Digest, b: Digest) {
    StringLess(a, b)
  }

  lemma DigestLessIsTotalOrder()
    ensures StrictTotalOrder(DigestLess)
  {
    StringLessIsTotalOrder();
    assert forall a: Digest, b: Digest :: DigestLess(a, b) == StringLess(a, b);
    assert forall a: Digest :: !StringLess(a, a);
    forall a: Digest, b: Digest, c: Digest
      ensures DigestLess(a, b) && DigestLess(b, c) ==> DigestLess(a, c)
      ensures !DigestLess(a, b) && !DigestLess(b, c) ==> !DigestLess(a, c)
      ensures !DigestLess(a, b) && !DigestLess(b, a) ==> a == b
    {
    }
  }

  // ----- the tree, defined from the root down ---------------------------------------------

  /** Number of nodes `level` levels above `n` leaves. */
  function Width(n: nat, level: nat): (w: nat)
    ensures n > 0 ==> 0 < w <= n
  {
    if level == 0 then n else (Width(n, level - 1) + 1) / 2
  }

  /** Number of levels above the leaves. */
  function Height(n: nat): nat {
    if n <= 1 then 0 else 1 + Height((n + 1) / 2)
  }

  /** The second child of node `i`: the next node one level down, or the first child again. */
  function SecondChild(n: nat, level: nat, i: nat): (k: nat)
    requires level > 0 && i < Width(n, level)
    ensures k < Width(n, level - 1)
  {
    if 2 * i + 1 < Width(n, level - 1) then 2 * i + 1 else 2 * i
  }

  function Pair(l: Digest, r: Digest): string {
    l + r
  }

  /** The string hashed for node `i` at a positive level: its two children, or its only child twice. */
  function Preimage(H: Hash, leaves: seq<Digest>, level: nat, i: nat): string
    requires level > 0 && i < Width(|leaves|, level)
    decreases level, 0
  {
    Pair(Node(H, leaves, level - 1, 2 * i), Node(H, leaves, level - 1, SecondChild(|leaves|, level, i)))
  }

  function Node(H: Hash, leaves: seq<Digest>, level: nat, i: nat): Digest
    requires i < Width(|leaves|, level)
    decreases level, 1
  {
    if level == 0 then leaves[i] else H(Preimage(H, leaves, level, i))
  }

  lemma WidthAtHeight(n: nat)
    requires n > 0
    ensures Width(n, Height(n)) == 1
  {
    WidthCollapses(n, 0);
  }

  lemma {:induction false} WidthCollapses(n: nat, level: nat)
    requires n > 0
    ensures Width(n, level + Height(Width(n, level))) == 1
    decreases Width(n, level)
  {
    if Width(n, level) > 1 {
      assert Width(n, level + 1) == (Width(n, level) + 1) / 2;
      WidthCollapses(n, level + 1);
    }
  }

  /** The root of the tree over the leaves as given. */
  function Root(H: Hash, leaves: seq<Digest>): Digest
    requires leaves != []
  {
    WidthAtHeight(|leaves|);
    Node(H, leaves, Height(|leaves|), 0)
  }

  // ----- ComputeRoot ----------------------------------------------------------------------

  /** `hex.EncodeToString`. */
  function Hex(s: string): (h: string)
    ensures |h| == 2 * |s|
  {
    if s == [] then [] else [HexDigit(s[0] as int / 16 % 16), HexDigit(s[0] as int % 16)] + Hex(s[1..])
  }

  /** Each byte is printed as its two hexadecimal digits, the higher one first. */
  lemma {:induction false} HexDigits(s: string, i: nat)
    requires Bytes(s) && i < |s|
    ensures Hex(s)[2 * i] == "0123456789abcdef"[s[i] as int / 16]
    ensures Hex(s)[2 * i + 1] == "0123456789abcdef"[s[i] as int % 16]
  {
    HexDigitIs(s[0] as int / 16 % 16);
    HexDigitIs(s[0] as int % 16);
    if i > 0 {
      HexDigits(s[1..], i - 1);
      assert Hex(s)[2 * i] == Hex(s[1..])[2 * (i - 1)] && Hex(s)[2 * i + 1] == Hex(s[1..])[2 * (i - 1) + 1];
    }
  }

  lemma NibblesDetermine(m: nat, n: nat)
    requires m < 256 && n < 256
    requires HexDigit(m / 16 % 16) == HexDigit(n / 16 % 16) && HexDigit(m % 16) == HexDigit(n % 16)
    ensures m == n
  {
    assert m / 16 == n / 16 && m % 16 == n % 16;
  }

  /** Printing loses nothing: equal printed roots are equal roots. */
  lemma {:induction false} HexInjective(a: string, b: string)
    requires Bytes(a) && Bytes(b) && Hex(a) == Hex(b)
    ensures a == b
  {
    if a != [] {
      assert |Hex(b)| > 0;
      assert Hex(a)[0] == Hex(b)[0] && Hex(a)[1] == Hex(b)[1];
      NibblesDetermine(a[0] as int, b[0] as int);
      assert Hex(a[1..]) == Hex(a)[2..] == Hex(b)[2..] == Hex(b[1..]);
      HexInjective(a[1..], b[1..]);
      assert a == [a[0]] + a[1..] && b == [b[0]] + b[1..];
    }
  }

  /** Of two leaves that differ, the earlier one has the smaller byte where they first differ. */
  ghost predicate Ascending(leaves: seq<Digest>) {
    forall i, j, k: nat :: 0 <= i < j < |leaves| && DifferAt(leaves[i], leaves[j], k) ==> leaves[i][k] < leaves[j][k]
  }

  lemma AscendingIff(leaves: seq<Digest>)
    ensures Ascending(leaves) <==> SortedBy(DigestLess, leaves)
  {
    forall i, j | 0 <= i < j < |leaves|
      ensures DigestLess(leaves[j], leaves[i])
              <==> exists k: nat :: DifferAt(leaves[i], leaves[j], k) && leaves[i][k] > leaves[j][k]
    {
      StringLessIff(leaves[j], leaves[i]);
      assert forall k: nat :: DifferAt(leaves[i], leaves[j], k) <==> DifferAt(leaves[j], leaves[i], k);
    }
  }

  /** The leaves in byte-wise order, which does not depend on the walk. */
  ghost predicate IsLeafOrder(H: Hash, contents: seq<string>, sorted: seq<Digest>) {
    && Ascending(sorted)
    && multiset(sorted) == multiset(HashAll(H, contents))
  }

  lemma LeafOrderLength(H: Hash, contents: seq<string>, sorted: seq<Digest>)
    requires IsLeafOrder(H, contents, sorted)
    ensures |sorted| == |contents|
  {
    assert |multiset(sorted)| == |multiset(HashAll(H, contents))|;
  }

  /** `r` is the printed root of a store whose readable text files have these contents. */
  ghost predicate IsStoreRoot(H: Hash, contents: seq<string>, r: string) {
    if contents == [] then r == Hex(H(""))
    else exists sorted :: IsLeafOrder(H, contents, sorted) && sorted != [] && r == Hex(Root(H, sorted))
  }

  /** `ComputeRoot`: `None` stands for the error of the walk, or of a missing home directory. */
  method ComputeRoot(H: Hash, hasHome: bool, walk: seq<Visit>) returns (root: Option<string>)
    ensures root.None? <==> !hasHome || Unreachable in walk
    ensures root.Some? ==> IsStoreRoot(H, TextContents(walk), root.value)
  {
    if !hasHome {
      return None;
    }
    var found := CollectLeaves(H, walk);
    if found.None? {
      return None;
    }
    var leaves := found.value;
    if |leaves| == 0 {
      return Some(Hex(H("")));
    }
    leaves := SortLeaves(leaves);
    LeafOrderLength(H, TextContents(walk), leaves);
    var r := FoldLevels(H, leaves);
    return Some(Hex(r));
  }

  lemma HashOneMore(H: Hash, walk: seq<Visit>, v: Visit)
    ensures HashAll(H, TextContents(walk + [v])) ==
            HashAll(H, TextContents(walk))
            + if v.File? && IsText(v.path) && v.data.Some? then [H(v.data.value)] else []
  {
    TextContentsAppend(walk, v);
    assert [v][1..] == [];
    HashAllConcat(H, TextContents(walk), TextContents([v]));
    if TextContents([v]) != [] {
      assert TextContents([v]) == [v.data.value];
    }
  }

  method CollectLeaves(H: Hash, walk: seq<Visit>) returns (leaves: Option<seq<Digest>>)
    ensures leaves.None? <==> Unreachable in walk
    ensures leaves.Some? ==> leaves.value == HashAll(H, TextContents(walk))
  {
    var out: seq<Digest> := [];
    for n := 0 to |walk|
      invariant out == HashAll(H, TextContents(walk[..n]))
      invariant Unreachable !in walk[..n]
    {
      assert walk[..n + 1] == walk[..n] + [walk[n]];
      if walk[n].Unreachable? {
        return None;
      }
      HashOneMore(H, walk[..n], walk[n]);
      if walk[n].File? && IsText(walk[n].path) && walk[n].data.Some? {
        out := out + [H(walk[n].data.value)];
      }
    }
    assert walk[..|walk|] == walk;
    return Some(out);
  }

  method SortLeaves(leaves: seq<Digest>) returns (sorted: seq<Digest>)
    ensures multiset(sorted) == multiset(leaves)
    ensures Ascending(sorted)
  {
    DigestLessIsTotalOrder();
    sorted := SortSlice(leaves, DigestLess);
    AscendingIff(sorted);
  }

  lemma {:induction false} TextContentsAppend(walk: seq<Visit>, v: Visit)
    ensures TextContents(walk + [v]) == TextContents(walk) + TextContents([v])
  {
    if walk == [] {
      assert walk + [v] == [v];
    } else {
      assert (walk + [v])[1..] == walk[1..] + [v];
      TextContentsAppend(walk[1..], v);
    }
  }

  /** The level loop: pair neighbours, pair an odd last node with itself, until one is left. */
  method FoldLevels(H: Hash, input: seq<Digest>) returns (root: Digest)
    requires input != []
    ensures root == Root(H, input)
  {
    var leaves := input;
    ghost var level := 0;
    WidthAtHeight(|input|);
    while |leaves| > 1
      invariant |leaves| == Width(|input|, level) > 0
      invariant forall i :: 0 <= i < |leaves| ==> leaves[i] == Node(H, input, level, i)
      invariant level + Height(|leaves|) == Height(|input|)
      decreases |leaves|
    {
      var next: seq<Digest> := [];
      var i := 0;
      while i < |leaves|
        invariant 0 <= i == 2 * |next| && |next| <= Width(|input|, level + 1)
        invariant forall k :: 0 <= k < |next| ==> next[k] == Node(H, input, level + 1, k)
      {
        var combined: string := leaves[i];
        if i + 1 < |leaves| {
          combined := combined + leaves[i + 1];
        } else {
          combined := combined + leaves[i];
        }
        PreimageOfLevel(H, input, leaves, level, |next|);
        next := next + [H(combined)];
        i := i + 2;
      }
      leaves := next;
      level := level + 1;
    }
    root := leaves[0];
  }

  lemma PreimageOfLevel(H: Hash, input: seq<Digest>, leaves: seq<Digest>, level: nat, i: nat)
    requires |leaves| == Width(|input|, level) && 2 * i < |leaves|
    requires forall k :: 0 <= k < |leaves| ==> leaves[k] == Node(H, input, level, k)
    ensures Preimage(H, input, level + 1, i)
            == Pair(leaves[2 * i], leaves[if 2 * i + 1 < |leaves| then 2 * i + 1 else 2 * i])
  {
  }

  // ----- what the root depends on ---------------------------------------------------------

  /** How many of the contents have the hash `h`. */
  function Hits(H: Hash, c: seq<string>, h: Digest): nat {
    if c == [] then 0 else (if H(c[0]) == h then 1 else 0) + Hits(H, c[1..], h)
  }

  lemma {:induction false} HitsCount(H: Hash, c: seq<string>, h: Digest)
    ensures multiset(HashAll(H, c))[h] == Hits(H, c, h)
  {
    if c != [] {
      HitsCount(H, c[1..], h);
    }
  }

  lemma {:induction false} HitsConcat(H: Hash, c: seq<string>, d: seq<string>, h: Digest)
    ensures Hits(H, c + d, h) == Hits(H, c, h) + Hits(H, d, h)
  {
    if c == [] {
      assert c + d == d;
    } else {
      assert (c + d)[1..] == c[1..] + d;
      HitsConcat(H, c[1..], d, h);
    }
  }

  lemma {:induction false} HitsOfPermutation(H: Hash, c: seq<string>, d: seq<string>, h: Digest)
    requires multiset(c) == multiset(d)
    ensures Hits(H, c, h) == Hits(H, d, h)
  {
    if c == [] {
      assert |multiset(d)| == 0;
    } else {
      var k := Locate(c, d);
      var p, q := d[..k], d[k + 1..];
      RemoveOne(c, d, k);
      HitsOfPermutation(H, c[1..], p + q, h);
      HitsConcat(H, p, q, h);
      HitsConcat(H, p, d[k..], h);
      assert d == p + d[k..] && d[k..][1..] == q;
    }
  }

  lemma Locate(c: seq<string>, d: seq<string>) returns (k: nat)
    requires c != [] && multiset(c) == multiset(d)
    ensures k < |d| && d[k] == c[0]
  {
    assert c[0] in multiset(d);
    k :| 0 <= k < |d| && d[k] == c[0];
  }

  lemma RemoveOne(c: seq<string>, d: seq<string>, k: nat)
    requires c != [] && multiset(c) == multiset(d) && k < |d| && d[k] == c[0]
    ensures multiset(c[1..]) == multiset(d[..k] + d[k + 1..])
  {
    assert c == [c[0]] + c[1..];
    assert d == d[..k] + ([c[0]] + d[k + 1..]);
    assert multiset(c[1..]) == multiset(c) - multiset{c[0]};
    assert multiset(d) == multiset(d[..k]) + multiset{c[0]} + multiset(d[k + 1..]);
  }

  lemma SameHits(H: Hash, c: seq<string>, d: seq<string>)
    requires multiset(c) == multiset(d)
    ensures multiset(HashAll(H, c)) == multiset(HashAll(H, d))
  {
    forall h: Digest
      ensures multiset(HashAll(H, c))[h] == multiset(HashAll(H, d))[h]
    {
      HitsCount(H, c, h);
      HitsCount(H, d, h);
      HitsOfPermutation(H, c, d, h);
    }
  }

  /** The root does not depend on the order in which the walk meets the files. */
  lemma RootIgnoresWalkOrder(H: Hash, c: seq<string>, d: seq<string>, r: string, s: string)
    requires multiset(c) == multiset(d)
    requires IsStoreRoot(H, c, r) && IsStoreRoot(H, d, s)
    ensures r == s
  {
    assert |multiset(c)| == |multiset(d)|;
    if c != [] {
      var a :| IsLeafOrder(H, c, a) && a != [] && r == Hex(Root(H, a));
      var b :| IsLeafOrder(H, d, b) && b != [] && s == Hex(Root(H, b));
      SameHits(H, c, d);
      DigestLessIsTotalOrder();
      AscendingIff(a);
      AscendingIff(b);
      SortedUnique(DigestLess, a, b);
    }
  }

  // ----- what the root determines ---------------------------------------------------------

  function Pow2(k: nat): (p: nat)
    ensures p > 0
  {
    if k == 0 then 1 else 2 * Pow2(k - 1)
  }

  /** The leaves under a node, a child that is paired with itself counted twice. */
  function Under(leaves: seq<Digest>, level: nat, i: nat): (u: seq<Digest>)
    requires i < Width(|leaves|, level)
    ensures |u| == Pow2(level)
  {
    if level == 0 then [leaves[i]]
    else Under(leaves, level - 1, 2 * i) + Under(leaves, level - 1, SecondChild(|leaves|, level, i))
  }

  /** The leaf list padded to a full tree by the self-pairing rule. */
  function Padded(leaves: seq<Digest>): seq<Digest>
    requires leaves != []
  {
    WidthAtHeight(|leaves|);
    Under(leaves, Height(|leaves|), 0)
  }

  /** `H` does not collide on the strings that the two trees hash at the same level. */
  ghost predicate NoCollision(H: Hash, a: seq<Digest>, b: seq<Digest>) {
    forall level: nat, i: nat, j: nat ::
      0 < level <= Height(|a|) && level <= Height(|b|) && i < Width(|a|, level) && j < Width(|b|, level)
      && H(Preimage(H, a, level, i)) == H(Preimage(H, b, level, j))
      ==> Preimage(H, a, level, i) == Preimage(H, b, level, j)
  }

  lemma {:induction false} NodesAgree(H: Hash, a: seq<Digest>, b: seq<Digest>, level: nat, i: nat, j: nat)
    requires NoCollision(H, a, b) && level <= Height(|a|) && level <= Height(|b|)
    requires i < Width(|a|, level) && j < Width(|b|, level)
    ensures Node(H, a, level, i) == Node(H, b, level, j) <==> Under(a, level, i) == Under(b, level, j)
  {
    if level > 0 {
      NodesAgree(H, a, b, level - 1, 2 * i, 2 * j);
      NodesAgree(H, a, b, level - 1, SecondChild(|a|, level, i), SecondChild(|b|, level, j));
      PreimagesAgree(H, a, b, level, i, j);
      UndersAgree(a, b, level, i, j);
      SameHashSamePreimage(H, a, b, level, i, j);
    }
  }

  lemma PreimagesAgree(H: Hash, a: seq<Digest>, b: seq<Digest>, level: nat, i: nat, j: nat)
    requires level > 0 && i < Width(|a|, level) && j < Width(|b|, level)
    ensures Preimage(H, a, level, i) == Preimage(H, b, level, j) <==>
            && Node(H, a, level - 1, 2 * i) == Node(H, b, level - 1, 2 * j)
            && Node(H, a, level - 1, SecondChild(|a|, level, i)) == Node(H, b, level - 1, SecondChild(|b|, level, j))
  {
    SplitConcat(Node(H, a, level - 1, 2 * i), Node(H, a, level - 1, SecondChild(|a|, level, i)),
                Node(H, b, level - 1, 2 * j), Node(H, b, level - 1, SecondChild(|b|, level, j)));
  }

  lemma UndersAgree(a: seq<Digest>, b: seq<Digest>, level: nat, i: nat, j: nat)
    requires level > 0 && i < Width(|a|, level) && j < Width(|b|, level)
    ensures Under(a, level, i) == Under(b, level, j) <==>
            && Under(a, level - 1, 2 * i) == Under(b, level - 1, 2 * j)
            && Under(a, level - 1, SecondChild(|a|, level, i)) == Under(b, level - 1, SecondChild(|b|, level, j))
  {
    SplitConcat(Under(a, level - 1, 2 * i), Under(a, level - 1, SecondChild(|a|, level, i)),
                Under(b, level - 1, 2 * j), Under(b, level - 1, SecondChild(|b|, level, j)));
  }

  lemma SameHashSamePreimage(H: Hash, a: seq<Digest>, b: seq<Digest>, level: nat, i: nat, j: nat)
    requires NoCollision(H, a, b) && level <= Height(|a|) && level <= Height(|b|)
    requires level > 0 && i < Width(|a|, level) && j < Width(|b|, level)
    ensures Node(H, a, level, i) == Node(H, b, level, j) <==> Preimage(H, a, level, i) == Preimage(H, b, level, j)
  {
    assert Node(H, a, level, i) == H(Preimage(H, a, level, i));
    assert Node(H, b, level, j) == H(Preimage(H, b, level, j));
  }

  lemma SplitConcat<T>(p: seq<T>, q: seq<T>, r: seq<T>, s: seq<T>)
    requires |p| == |r|
    ensures p + q == r + s <==> p == r && q == s
  {
    if p + q == r + s {
      assert p == (p + q)[..|p|] == (r + s)[..|r|] == r;
      assert q == (p + q)[|p|..] == (r + s)[|r|..] == s;
    }
  }

  /** Trees of the same height have the same root exactly when their padded leaf lists agree. */
  lemma RootsAgree(H: Hash, a: seq<Digest>, b: seq<Digest>)
    requires a != [] && b != [] && Height(|a|) == Height(|b|)
    requires NoCollision(H, a, b)
    ensures Root(H, a) == Root(H, b) <==> Padded(a) == Padded(b)
  {
    WidthAtHeight(|a|);
    WidthAtHeight(|b|);
    NodesAgree(H, a, b, Height(|a|), 0, 0);
  }

  /** Position of the first leaf under a node. */
  function First(level: nat, i: nat): nat {
    if level == 0 then i else First(level - 1, 2 * i)
  }

  lemma {:induction false} FirstStep(level: nat, i: nat)
    ensures First(level, i + 1) == First(level, i) + Pow2(level)
    ensures First(level, 0) == 0
  {
    if level > 0 {
      FirstStep(level - 1, 2 * i);
      FirstStep(level - 1, 2 * i + 1);
    }
  }

  lemma {:induction false} PastTheLastNode(n: nat, level: nat, i: nat)
    requires i >= Width(n, level)
    ensures First(level, i) >= n
  {
    if level > 0 {
      PastTheLastNode(n, level - 1, 2 * i);
    }
  }

  lemma {:induction false} UnderStartsWithLeaves(leaves: seq<Digest>, level: nat, i: nat, k: nat)
    requires i < Width(|leaves|, level) && k < Pow2(level) && First(level, i) + k < |leaves|
    ensures Under(leaves, level, i)[k] == leaves[First(level, i) + k]
  {
    if level > 0 {
      var half := Pow2(level - 1);
      FirstStep(level - 1, 2 * i);
      if k < half {
        UnderStartsWithLeaves(leaves, level - 1, 2 * i, k);
      } else {
        HasSecondChild(|leaves|, level, i, k - half);
        UnderStartsWithLeaves(leaves, level - 1, 2 * i + 1, k - half);
      }
    }
  }

  lemma HasSecondChild(n: nat, level: nat, i: nat, k: nat)
    requires level > 0 && i < Width(n, level) && First(level - 1, 2 * i + 1) + k < n
    ensures SecondChild(n, level, i) == 2 * i + 1 < Width(n, level - 1)
  {
    if 2 * i + 1 >= Width(n, level - 1) {
      PastTheLastNode(n, level - 1, 2 * i + 1);
    }
  }

  /** Padding only appends. */
  lemma PaddedExtends(leaves: seq<Digest>)
    requires leaves != []
    ensures leaves <= Padded(leaves)
  {
    var h := Height(|leaves|);
    WidthAtHeight(|leaves|);
    FirstStep(h, 0);
    PastTheLastNode(|leaves|, h, 1);
    forall k | 0 <= k < |leaves|
      ensures Padded(leaves)[k] == leaves[k]
    {
      UnderStartsWithLeaves(leaves, h, 0, k);
    }
  }

  /** Binding for leaf lists: same number of leaves and same root mean the same leaves. */
  lemma LeavesBound(H: Hash, a: seq<Digest>, b: seq<Digest>)
    requires |a| == |b| > 0
    requires NoCollision(H, a, b)
    requires Root(H, a) == Root(H, b)
    ensures a == b
  {
    RootsAgree(H, a, b);
    PaddedExtends(a);
    PaddedExtends(b);
    assert a == Padded(a)[..|a|];
    assert b == Padded(b)[..|b|];
  }

  /** A content is hit at least as often as it occurs, and no more often if no other collides with it. */
  lemma {:induction false} HitsBound(H: Hash, d: seq<string>, x: string)
    ensures multiset(d)[x] <= Hits(H, d, H(x))
    ensures (forall y :: y in d && H(x) == H(y) ==> x == y) ==> multiset(d)[x] == Hits(H, d, H(x))
  {
    if d != [] {
      HitsBound(H, d[1..], x);
      assert d == [d[0]] + d[1..];
    }
  }

  lemma HashesDetermineContents(H: Hash, c: seq<string>, d: seq<string>)
    requires multiset(HashAll(H, c)) == multiset(HashAll(H, d))
    requires forall x, y :: x in c && y in d && H(x) == H(y) ==> x == y
    ensures multiset(c) == multiset(d)
  {
    forall x
      ensures multiset(c)[x] == multiset(d)[x]
    {
      HitsCount(H, c, H(x));
      HitsCount(H, d, H(x));
      HitsBound(H, c, x);
      HitsBound(H, d, x);
    }
  }

  /** Binding for stores: with equally many text files and the same printed root, the stores hold
      the same contents, unless the hash collides on what the two computations hash. */
  lemma StoresBound(H: Hash, c: seq<string>, d: seq<string>, r: string)
    requires IsStoreRoot(H, c, r) && IsStoreRoot(H, d, r)
    requires |c| == |d|
    requires forall x, y :: x in c && y in d && H(x) == H(y) ==> x == y
    requires forall a, b :: IsLeafOrder(H, c, a) && IsLeafOrder(H, d, b) ==> NoCollision(H, a, b)
    ensures multiset(c) == multiset(d)
  {
    if c != [] {
      var a :| IsLeafOrder(H, c, a) && a != [] && r == Hex(Root(H, a));
      var b :| IsLeafOrder(H, d, b) && b != [] && r == Hex(Root(H, b));
      LeafOrderLength(H, c, a);
      LeafOrderLength(H, d, b);
      HexInjective(Root(H, a), Root(H, b));
      LeavesBound(H, a, b);
      HashesDetermineContents(H, c, d);
    }
  }

  // ----- binding without the number of files ----------------------------------------------

  /** A string that is hashed for a store: a content, or what a node of the tree over `a` hashes. */
  ghost predicate Hashed(H: Hash, c: seq<string>, a: seq<Digest>, x: string) {
    || x in c
    || exists level: nat, i: nat ::
         0 < level <= Height(|a|) && i < Width(|a|, level) && x == Preimage(H, a, level, i)
  }

  /** `H` does not collide on what is hashed for the two stores, whatever the place. */
  ghost predicate NoCollisionAtAll(H: Hash, c: seq<string>, a: seq<Digest>, d: seq<string>, b: seq<Digest>) {
    forall x, y :: Hashed(H, c, a, x) && Hashed(H, d, b, y) && H(x) == H(y) ==> x == y
  }

  /** No content has the length of what a node hashes. */
  ghost predicate NoNodeSized(c: seq<string>) {
    forall x :: x in c ==> |x| != 64
  }

  /** The leaves are the hashes of the contents, in some order. */
  ghost predicate LeavesOf(H: Hash, c: seq<string>, a: seq<Digest>) {
    multiset(a) == multiset(HashAll(H, c))
  }

  lemma {:induction false} InHashAll(H: Hash, c: seq<string>, h: Digest)
    ensures h in HashAll(H, c) <==> exists x :: x in c && H(x) == h
  {
    if c != [] {
      InHashAll(H, c[1..], h);
      assert c == [c[0]] + c[1..];
    }
  }

  lemma LeafIsHash(H: Hash, c: seq<string>, a: seq<Digest>, h: Digest)
    requires LeavesOf(H, c, a)
    ensures h in a <==> exists x :: x in c && H(x) == h
  {
    InHashAll(H, c, h);
    assert h in a <==> h in multiset(a);
    assert h in HashAll(H, c) <==> h in multiset(HashAll(H, c));
  }

  /** Without contents of a node's length, no leaf has the hash of a node. */
  lemma LeafIsNoNode(H: Hash, c: seq<string>, a: seq<Digest>, d: seq<string>, b: seq<Digest>,
                     level: nat, i: nat, j: nat)
    requires LeavesOf(H, d, b) && NoNodeSized(d) && NoCollisionAtAll(H, c, a, d, b)
    requires 0 < level <= Height(|a|) && i < Width(|a|, level) && j < |b|
    ensures Node(H, a, level, i) != b[j]
  {
    if Node(H, a, level, i) == b[j] {
      LeafIsHash(H, d, b, b[j]);
      var y :| y in d && H(y) == b[j];
      var x := Preimage(H, a, level, i);
      assert Hashed(H, c, a, x) && Hashed(H, d, b, y);
      assert |x| == 64;
    }
  }

  /** Two trees of stores without contents of a node's length, and no collision between them. */
  ghost predicate Apart(H: Hash, c: seq<string>, a: seq<Digest>, d: seq<string>, b: seq<Digest>) {
    && LeavesOf(H, c, a) && LeavesOf(H, d, b) && NoNodeSized(c) && NoNodeSized(d)
    && NoCollisionAtAll(H, c, a, d, b) && NoCollisionAtAll(H, d, b, c, a)
  }

  /** Where the two nodes agree, they are both leaves or have the same children. */
  ghost predicate SameKind(H: Hash, a: seq<Digest>, b: seq<Digest>, la: nat, lb: nat, i: nat, j: nat) {
    la <= Height(|a|) && lb <= Height(|b|) && i < Width(|a|, la) && j < Width(|b|, lb)
    && Node(H, a, la, i) == Node(H, b, lb, j) ==>
      (la > 0 <==> lb > 0) && (la > 0 ==> Preimage(H, a, la, i) == Preimage(H, b, lb, j))
  }

  ghost predicate AllSameKind(H: Hash, a: seq<Digest>, b: seq<Digest>) {
    forall la: nat, lb: nat, i: nat, j: nat :: SameKind(H, a, b, la, lb, i, j)
  }

  lemma ApartMeansSameKind(H: Hash, c: seq<string>, a: seq<Digest>, d: seq<string>, b: seq<Digest>)
    requires Apart(H, c, a, d, b)
    ensures AllSameKind(H, a, b)
  {
    forall la: nat, lb: nat, i: nat, j: nat
      ensures SameKind(H, a, b, la, lb, i, j)
    {
      if la <= Height(|a|) && lb <= Height(|b|) && i < Width(|a|, la) && j < Width(|b|, lb) {
        if la > 0 && lb > 0 {
          assert Hashed(H, c, a, Preimage(H, a, la, i)) && Hashed(H, d, b, Preimage(H, b, lb, j));
        } else if la > 0 {
          LeafIsNoNode(H, c, a, d, b, la, i, j);
        } else if lb > 0 {
          LeafIsNoNode(H, d, b, c, a, lb, j, i);
        }
      }
    }
  }

  lemma SameChildren(H: Hash, a: seq<Digest>, b: seq<Digest>, la: nat, lb: nat, i: nat, j: nat, k: nat, l: nat)
    requires la > 0 && lb > 0 && i < Width(|a|, la) && j < Width(|b|, lb)
    requires k == SecondChild(|a|, la, i) && l == SecondChild(|b|, lb, j)
    requires Preimage(H, a, la, i) == Preimage(H, b, lb, j)
    ensures Node(H, a, la - 1, 2 * i) == Node(H, b, lb - 1, 2 * j) && Node(H, a, la - 1, k) == Node(H, b, lb - 1, l)
  {
    SplitConcat(Node(H, a, la - 1, 2 * i), Node(H, a, la - 1, k), Node(H, b, lb - 1, 2 * j), Node(H, b, lb - 1, l));
  }

  /** Nodes of such trees agree only at the same level, over the same leaves. */
  lemma {:induction false} NodesAgreeAtOneLevel(H: Hash, a: seq<Digest>, b: seq<Digest>, la: nat, lb: nat,
                                                i: nat, j: nat)
    requires AllSameKind(H, a, b)
    requires la <= Height(|a|) && lb <= Height(|b|) && i < Width(|a|, la) && j < Width(|b|, lb)
    requires Node(H, a, la, i) == Node(H, b, lb, j)
    ensures la == lb && Under(a, la, i) == Under(b, lb, j)
  {
    assert SameKind(H, a, b, la, lb, i, j);
    if la > 0 {
      var k, l := SecondChild(|a|, la, i), SecondChild(|b|, lb, j);
      SameChildren(H, a, b, la, lb, i, j, k, l);
      NodesAgreeAtOneLevel(H, a, b, la - 1, lb - 1, 2 * i, 2 * j);
      NodesAgreeAtOneLevel(H, a, b, la - 1, lb - 1, k, l);
    }
  }

  lemma AtOneLevelToo(H: Hash, c: seq<string>, a: seq<Digest>, d: seq<string>, b: seq<Digest>)
    requires NoCollisionAtAll(H, c, a, d, b)
    ensures NoCollision(H, a, b)
  {
    forall level: nat, i: nat, j: nat | 0 < level <= Height(|a|) && level <= Height(|b|)
      && i < Width(|a|, level) && j < Width(|b|, level)
      && H(Preimage(H, a, level, i)) == H(Preimage(H, b, level, j))
      ensures Preimage(H, a, level, i) == Preimage(H, b, level, j)
    {
      assert Hashed(H, c, a, Preimage(H, a, level, i)) && Hashed(H, d, b, Preimage(H, b, level, j));
    }
  }

  /** Without 64-byte contents, and with no numbers given, the roots of two trees are equal exactly when the
      trees have the same height and the same padded leaf lists. */
  lemma RootsAgreeIff(H: Hash, c: seq<string>, a: seq<Digest>, d: seq<string>, b: seq<Digest>)
    requires a != [] && b != [] && Apart(H, c, a, d, b)
    ensures Root(H, a) == Root(H, b) <==> Height(|a|) == Height(|b|) && Padded(a) == Padded(b)
  {
    WidthAtHeight(|a|);
    WidthAtHeight(|b|);
    AtOneLevelToo(H, c, a, d, b);
    if Root(H, a) == Root(H, b) {
      ApartMeansSameKind(H, c, a, d, b);
      NodesAgreeAtOneLevel(H, a, b, Height(|a|), Height(|b|), 0, 0);
    } else if Height(|a|) == Height(|b|) {
      RootsAgree(H, a, b);
    }
  }

  lemma {:induction false} UnderHoldsLeaves(leaves: seq<Digest>, level: nat, i: nat, h: Digest)
    requires i < Width(|leaves|, level) && h in Under(leaves, level, i)
    ensures h in leaves
  {
    if level > 0 {
      if h in Under(leaves, level - 1, 2 * i) {
        UnderHoldsLeaves(leaves, level - 1, 2 * i, h);
      } else {
        UnderHoldsLeaves(leaves, level - 1, SecondChild(|leaves|, level, i), h);
      }
    }
  }

  /** A padded list holds the same leaves, some of them more often. */
  lemma PaddedHoldsSame(leaves: seq<Digest>, h: Digest)
    requires leaves != []
    ensures h in Padded(leaves) <==> h in leaves
  {
    WidthAtHeight(|leaves|);
    PaddedExtends(leaves);
    if h in Padded(leaves) {
      UnderHoldsLeaves(leaves, Height(|leaves|), 0, h);
    }
    if h in leaves {
      var k :| 0 <= k < |leaves| && leaves[k] == h;
      assert Padded(leaves)[k] == h;
    }
  }

  lemma SameLeavesSameContents(H: Hash, c: seq<string>, a: seq<Digest>, d: seq<string>, b: seq<Digest>, x: string)
    requires LeavesOf(H, c, a) && LeavesOf(H, d, b) && NoCollisionAtAll(H, c, a, d, b)
    requires x in c && forall h :: h in a ==> h in b
    ensures x in d
  {
    LeafIsHash(H, c, a, H(x));
    LeafIsHash(H, d, b, H(x));
    var y :| y in d && H(y) == H(x);
    assert Hashed(H, c, a, x) && Hashed(H, d, b, y);
  }

  /** `H` does not collide on anything hashed for the two stores. */
  ghost predicate CollisionFree(H: Hash, c: seq<string>, d: seq<string>) {
    forall a, b :: IsLeafOrder(H, c, a) && IsLeafOrder(H, d, b) ==>
      NoCollisionAtAll(H, c, a, d, b) && NoCollisionAtAll(H, d, b, c, a)
  }

  /** Binding without numbers: stores with text files, none of 64 bytes, and with the same printed root hold the
      same contents, though perhaps not equally often; their trees have one height and one padded leaf list. */
  lemma StoresBoundUpToPadding(H: Hash, c: seq<string>, d: seq<string>, r: string)
    requires c != [] && d != [] && NoNodeSized(c) && NoNodeSized(d)
    requires IsStoreRoot(H, c, r) && IsStoreRoot(H, d, r) && CollisionFree(H, c, d)
    ensures forall x :: x in c <==> x in d
    ensures exists a, b :: IsLeafOrder(H, c, a) && IsLeafOrder(H, d, b) && a != [] && b != []
                           && Height(|a|) == Height(|b|) && Padded(a) == Padded(b)
  {
    var a :| IsLeafOrder(H, c, a) && a != [] && r == Hex(Root(H, a));
    var b :| IsLeafOrder(H, d, b) && b != [] && r == Hex(Root(H, b));
    HexInjective(Root(H, a), Root(H, b));
    RootsAgreeIff(H, c, a, d, b);
    forall h
      ensures h in a <==> h in b
    {
      PaddedHoldsSame(a, h);
      PaddedHoldsSame(b, h);
    }
    forall x
      ensures x in c <==> x in d
    {
      if x in c {
        SameLeavesSameContents(H, c, a, d, b, x);
      }
      if x in d {
        SameLeavesSameContents(H, d, b, c, a, x);
      }
    }
  }

  /** The root of an empty store is that of exactly two stores: one without text files, and one whose only text
      file is empty. */
  lemma EmptyStoreBound(H: Hash, d: seq<string>)
    requires forall b, y :: IsLeafOrder(H, d, b) && Hashed(H, d, b, y) && H("") == H(y) ==> y == ""
    ensures IsStoreRoot(H, d, Hex(H(""))) <==> d == [] || d == [""]
  {
    if d == [""] {
      EmptyStoreMayBeOneEmptyFile(H);
    }
    if d != [] && IsStoreRoot(H, d, Hex(H(""))) {
      var b :| IsLeafOrder(H, d, b) && b != [] && Hex(H("")) == Hex(Root(H, b));
      HexInjective(H(""), Root(H, b));
      LeafOrderLength(H, d, b);
      WidthAtHeight(|b|);
      if |b| > 1 {
        assert Hashed(H, d, b, Preimage(H, b, Height(|b|), 0));
      } else {
        LeafIsHash(H, d, b, b[0]);
        var y :| y in d && H(y) == b[0];
        assert Hashed(H, d, b, y);
      }
    }
  }

  // ----- why the number of files is needed ------------------------------------------------

  /** An odd last leaf may be doubled: three leaves and four have one root. */
  lemma OddTailMayBeDoubled(H: Hash, x: Digest, y: Digest, z: Digest)
    ensures Root(H, [x, y, z]) == Root(H, [x, y, z, z])
    ensures Padded([x, y, z]) == [x, y, z, z]
  {
    var a, b := [x, y, z], [x, y, z, z];
    assert Height(3) == 2 && Height(4) == 2;
    assert Width(3, 1) == 2 && Width(4, 1) == 2 && Width(3, 2) == 1 && Width(4, 2) == 1;
    assert Preimage(H, a, 1, 0) == x + y == Preimage(H, b, 1, 0);
    assert Preimage(H, a, 1, 1) == z + z == Preimage(H, b, 1, 1);
    assert Preimage(H, a, 2, 0) == Preimage(H, b, 2, 0);
    assert Under(a, 1, 0) == [x, y] && Under(a, 1, 1) == [z, z];
  }

  /** A file may hold the two digests that a node hashes: one file and two have one root. */
  lemma NodeMayBeALeaf(H: Hash, x: Digest, y: Digest)
    ensures Root(H, [x, y]) == Root(H, [H(x + y)])
  {
    assert Height(2) == 1 && Width(2, 1) == 1;
    assert Preimage(H, [x, y], 1, 0) == x + y;
  }

  /** A store without text files has the root of a store with one empty text file. */
  lemma EmptyStoreMayBeOneEmptyFile(H: Hash)
    ensures IsStoreRoot(H, [], Hex(H(""))) && IsStoreRoot(H, [""], Hex(H("")))
  {
    var a: seq<Digest> := [H("")];
    assert HashAll(H, [""]) == a;
    assert IsLeafOrder(H, [""], a) && Root(H, a) == H("");
  }
}
