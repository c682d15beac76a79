/** The plain binary Merkle tree of depth 64: what the trie's roots and proofs stand for.
    It has a leaf for every 64-bit path; the leaf of a key that is not in the map is the
    hash of the empty string. */
module PlainTree {
  import opened Bytes
  import opened Keys

  type Values = map<Key, Bytes>

  /** The root of an empty subtree of height `n`. */
  function Default(h: Hash, n: nat): (r: Bytes)
    ensures |r| == 32
  {
    if n == 0 then h([]) else h(Default(h, n - 1) + Default(h, n - 1))
  }

  /** The sixty-four default hashes, each computed from the one before. */
  method ComputeDefaultHashes(h: Hash) returns (d: seq<Bytes>)
    ensures |d| == 64 && forall n :: 0 <= n < 64 ==> d[n] == Default(h, n)
  {
    d := [h([])];
    for level := 1 to 64
      invariant |d| == level && forall n :: 0 <= n < level ==> d[n] == Default(h, n)
    {
      d := DefaultNext(h, d);
    }
  }

  /** The table with the hash of its last entry paired with itself. */
  method DefaultNext(h: Hash, d: seq<Bytes>) returns (r: seq<Bytes>)
    requires d != [] && forall n :: 0 <= n < |d| ==> d[n] == Default(h, n)
    ensures |r| == |d| + 1 && forall n :: 0 <= n < |r| ==> r[n] == Default(h, n)
  {
    var last := d[|d| - 1];
    var next := h(last + last);
    assert next == Default(h, |d|);
    r := d + [next];
  }

  /** What the tree holds for a key: its value, or the mark of an empty leaf. */
  function LeafOf(h: Hash, m: Values, k: Key): Bytes {
    if k in m then m[k] else h([])
  }

  function Leaf(h: Hash, m: Values, p: seq<bool>): Bytes
    requires |p| == 64
  {
    LeafOf(h, m, KeyAt(p))
  }

  /** The hash at path `p`. */
  function PlainRoot(h: Hash, m: Values, p: seq<bool>): (r: Bytes)
    requires |p| <= 64
    ensures |p| < 64 ==> |r| == 32
    decreases 64 - |p|
  {
    if |p| == 64 then Leaf(h, m, p) else h(PlainRoot(h, m, p + [false]) + PlainRoot(h, m, p + [true]))
  }

  /** The bytes hashed at the inner node `p`. */
  function Pair(h: Hash, m: Values, p: seq<bool>): Bytes
    requires |p| < 64
  {
    PlainRoot(h, m, p + [false]) + PlainRoot(h, m, p + [true])
  }

  /** Everything hashed to compute the root of `m` and the default hashes. */
  ghost predicate IsTreeInput(h: Hash, m: Values, x: Bytes) {
    || x == []
    || (exists n: nat :: n < 64 && x == Default(h, n) + Default(h, n))
    || (exists p: seq<bool> :: |p| < 64 && x == Pair(h, m, p))
  }

  ghost function TreeInputs(h: Hash, m: Values): iset<Bytes> {
    iset x: Bytes | IsTreeInput(h, m, x)
  }

  /** Every value is a 32-byte word. */
  predicate WordValues(m: Values) {
    forall k :: k in m ==> |m[k]| == 32
  }

  /** No two keys share their first sixty bits. */
  predicate Separated(m: Values) {
    forall k, l :: k in m && l in m && Path(k)[..60] == Path(l)[..60] ==> k == l
  }

  lemma LeafAtKey(h: Hash, m: Values, k: Key)
    ensures PlainRoot(h, m, Path(k)) == LeafOf(h, m, k)
  {
    KeyAtPath(k);
  }

  /** The tree by numbers: node `x` of a layer is the hash of nodes `2 * x` and `2 * x + 1` of the layer
      below, and leaf `x` is what the map holds for the eight bytes of `x`. */
  lemma NumberedTree(h: Hash, m: Values, n: nat, x: nat, y: UInt64)
    requires n < 64
    ensures PlainRoot(h, m, BitsOf(n, x)) ==
      h(PlainRoot(h, m, BitsOf(n + 1, 2 * x)) + PlainRoot(h, m, BitsOf(n + 1, 2 * x + 1)))
    ensures PlainRoot(h, m, BitsOf(64, y)) == if UInt64ToByte(y) in m then m[UInt64ToByte(y)] else h([])
  {
    assert BitsOf(n + 1, 2 * x) == BitsOf(n, x) + [false] && BitsOf(n + 1, 2 * x + 1) == BitsOf(n, x) + [true];
    NumberedLeaf(h, m, y);
  }

  lemma NumberedLeaf(h: Hash, m: Values, y: UInt64)
    ensures PlainRoot(h, m, BitsOf(64, y)) == LeafOf(h, m, UInt64ToByte(y))
  {
    var k: Key := UInt64ToByte(y);
    PathNumber(k, 8);
    assert k[..8] == k && Path(k)[..64] == Path(k);
    LeafAtKey(h, m, k);
  }

  lemma WordRoots(h: Hash, m: Values, p: seq<bool>)
    requires WordValues(m) && |p| <= 64
    ensures |PlainRoot(h, m, p)| == 32
  {
  }

  /** A subtree without keys has the default hash of its height. */
  lemma {:induction false} PlainRootEmpty(h: Hash, m: Values, p: seq<bool>)
    requires |p| <= 64 && forall k :: k in m ==> !Under(p, k)
    ensures PlainRoot(h, m, p) == Default(h, 64 - |p|)
    decreases 64 - |p|
  {
    if |p| == 64 {
      PathKeyAt(p);
    } else {
      forall k | k in m
        ensures !Under(p + [false], k) && !Under(p + [true], k)
      {
        if Under(p + [false], k) { UnderPrefix(p, [false], k); }
        if Under(p + [true], k) { UnderPrefix(p, [true], k); }
      }
      PlainRootEmpty(h, m, p + [false]);
      PlainRootEmpty(h, m, p + [true]);
    }
  }

  /** The two maps hold the same values below `p`. */
  ghost predicate SameUnder(m: Values, n: Values, p: seq<bool>) {
    forall k :: Under(p, k) ==> (k in m <==> k in n) && (k in m ==> m[k] == n[k])
  }

  /** A hash depends only on the values below it. */
  lemma {:induction false} PlainRootLocal(h: Hash, m: Values, n: Values, p: seq<bool>)
    requires |p| <= 64 && SameUnder(m, n, p)
    ensures PlainRoot(h, m, p) == PlainRoot(h, n, p)
    decreases 64 - |p|
  {
    if |p| == 64 {
      PathKeyAt(p);
      assert Under(p, KeyAt(p));
    } else {
      forall k | Under(p + [false], k) || Under(p + [true], k)
        ensures Under(p, k)
      {
        if Under(p + [false], k) { UnderPrefix(p, [false], k); } else { UnderPrefix(p, [true], k); }
      }
      PlainRootLocal(h, m, n, p + [false]);
      PlainRootLocal(h, m, n, p + [true]);
    }
  }

  /** `n` levels of hashing above a lone value: at each level the other side is a default. */
  function TermRoot(h: Hash, k: Key, v: Bytes, n: nat): Bytes
    requires n <= 64
  {
    if n == 0 then v
    else if KeyBit(k, n - 1) then h(Default(h, n - 1) + TermRoot(h, k, v, n - 1))
    else h(TermRoot(h, k, v, n - 1) + Default(h, n - 1))
  }

  /** A subtree with one key has the hash of that key's lone value. */
  lemma {:induction false} PlainRootSingle(h: Hash, m: Values, k: Key, n: nat, p: seq<bool>)
    requires n <= 64 && k in m && |p| == 64 - n && Under(p, k)
    requires forall l :: l in m && Under(p, l) ==> l == k
    ensures PlainRoot(h, m, p) == TermRoot(h, k, m[k], n)
  {
    if n == 0 {
      assert p == Path(k);
      LeafAtKey(h, m, k);
    } else {
      var b := Path(k)[|p|];
      assert b == KeyBit(k, n - 1);
      UnderStep(p, k);
      forall l | l in m && Under(p + [b], l)
        ensures l == k
      {
        UnderPrefix(p, [b], l);
      }
      PlainRootSingle(h, m, k, n - 1, p + [b]);
      OtherSideEmpty(h, m, k, n, p, b);
      SingleStep(h, m, p, b, TermRoot(h, k, m[k], n - 1), Default(h, n - 1));
    }
  }

  lemma OtherSideEmpty(h: Hash, m: Values, k: Key, n: nat, p: seq<bool>, b: bool)
    requires 0 < n <= 64 && |p| == 64 - n && Under(p, k) && Path(k)[|p|] == b
    requires forall l :: l in m && Under(p, l) ==> l == k
    ensures PlainRoot(h, m, p + [!b]) == Default(h, n - 1)
  {
    forall l | l in m
      ensures !Under(p + [!b], l)
    {
      if Under(p + [!b], l) {
        UnderPrefix(p, [!b], l);
        UnderStep(p, k);
      }
    }
    PlainRootEmpty(h, m, p + [!b]);
  }

  lemma SingleStep(h: Hash, m: Values, p: seq<bool>, b: bool, x: Bytes, y: Bytes)
    requires |p| < 64 && PlainRoot(h, m, p + [b]) == x && PlainRoot(h, m, p + [!b]) == y
    ensures PlainRoot(h, m, p) == if b then h(y + x) else h(x + y)
  {
  }

  ghost predicate SameLeaves(h: Hash, m: Values, n: Values) {
    forall k: Key :: LeafOf(h, m, k) == LeafOf(h, n, k)
  }

  /** Every two neighbouring leaves read the same, one after the other. */
  ghost predicate SamePairs(h: Hash, m: Values, n: Values) {
    forall q: seq<bool> :: |q| == 63 ==> Pair(h, m, q) == Pair(h, n, q)
  }

  /** Equal hashes at `q` mean that equal pairs were hashed. */
  lemma EqualPairs(h: Hash, m: Values, n: Values, q: seq<bool>)
    requires |q| < 64 && Injective(h, TreeInputs(h, m) + TreeInputs(h, n))
    requires PlainRoot(h, m, q) == PlainRoot(h, n, q)
    ensures Pair(h, m, q) == Pair(h, n, q)
  {
    var x, y := Pair(h, m, q), Pair(h, n, q);
    assert IsTreeInput(h, m, x) && IsTreeInput(h, n, y);
    NoCollision(h, TreeInputs(h, m) + TreeInputs(h, n), x, y);
  }

  /** Going down from equal roots: the root fixes the hash at every path above the leaves. */
  lemma {:induction false} RootFixesNodes(h: Hash, m: Values, n: Values, p: seq<bool>)
    requires |p| < 64 && Injective(h, TreeInputs(h, m) + TreeInputs(h, n))
    requires PlainRoot(h, m, []) == PlainRoot(h, n, [])
    ensures PlainRoot(h, m, p) == PlainRoot(h, n, p)
    decreases |p|
  {
    if p != [] {
      var q := p[..|p| - 1];
      RootFixesNodes(h, m, n, q);
      EqualPairs(h, m, n, q);
      SplitWords(PlainRoot(h, m, q + [false]), PlainRoot(h, m, q + [true]),
                 PlainRoot(h, n, q + [false]), PlainRoot(h, n, q + [true]));
      var b := p[|p| - 1];
      assert p == q + [b];
      if b { assert p == q + [true]; } else { assert p == q + [false]; }
    }
  }

  /** Going up from equal pairs. */
  lemma {:induction false} PairsFixRoot(h: Hash, m: Values, n: Values, p: seq<bool>)
    requires |p| < 64 && SamePairs(h, m, n)
    ensures PlainRoot(h, m, p) == PlainRoot(h, n, p)
    decreases 64 - |p|
  {
    if |p| == 63 {
      assert Pair(h, m, p) == Pair(h, n, p);
    } else {
      PairsFixRoot(h, m, n, p + [false]);
      PairsFixRoot(h, m, n, p + [true]);
    }
  }

  /** Without collisions two maps have one root exactly when neighbouring leaves read the same. */
  lemma RootIffPairs(h: Hash, m: Values, n: Values)
    requires Injective(h, TreeInputs(h, m) + TreeInputs(h, n))
    ensures PlainRoot(h, m, []) == PlainRoot(h, n, []) <==> SamePairs(h, m, n)
  {
    if PlainRoot(h, m, []) == PlainRoot(h, n, []) {
      forall q: seq<bool> | |q| == 63
        ensures Pair(h, m, q) == Pair(h, n, q)
      {
        RootFixesNodes(h, m, n, q);
        EqualPairs(h, m, n, q);
      }
    } else if SamePairs(h, m, n) {
      PairsFixRoot(h, m, n, []);
    }
  }

  lemma LeavesFixPairs(h: Hash, m: Values, n: Values)
    requires SameLeaves(h, m, n)
    ensures SamePairs(h, m, n)
  {
    forall q: seq<bool> | |q| == 63
      ensures Pair(h, m, q) == Pair(h, n, q)
    {
      var l, r := KeyAt(q + [false]), KeyAt(q + [true]);
      assert LeafOf(h, m, l) == LeafOf(h, n, l) && LeafOf(h, m, r) == LeafOf(h, n, r);
    }
  }

  /** Neighbouring words can be told apart. */
  lemma PairsFixLeaf(h: Hash, m: Values, n: Values, k: Key)
    requires WordValues(m) && WordValues(n) && SamePairs(h, m, n)
    ensures LeafOf(h, m, k) == LeafOf(h, n, k)
  {
    var q := Path(k)[..63];
    assert Pair(h, m, q) == Pair(h, n, q);
    WordRoots(h, m, q + [false]);
    WordRoots(h, n, q + [false]);
    SplitWords(PlainRoot(h, m, q + [false]), PlainRoot(h, m, q + [true]),
               PlainRoot(h, n, q + [false]), PlainRoot(h, n, q + [true]));
    assert Path(k) == q + [Path(k)[63]];
    LeafAtKey(h, m, k);
    LeafAtKey(h, n, k);
  }

  /** Without collisions two maps of words have one root exactly when they have the same leaves:
      the same values but for keys that hold the mark of an empty leaf. */
  lemma RootIff(h: Hash, m: Values, n: Values)
    requires WordValues(m) && WordValues(n) && Injective(h, TreeInputs(h, m) + TreeInputs(h, n))
    ensures PlainRoot(h, m, []) == PlainRoot(h, n, []) <==> SameLeaves(h, m, n)
  {
    RootIffPairs(h, m, n);
    if SamePairs(h, m, n) {
      forall k: Key ensures LeafOf(h, m, k) == LeafOf(h, n, k) { PairsFixLeaf(h, m, n, k); }
    }
    if SameLeaves(h, m, n) { LeavesFixPairs(h, m, n); }
  }

  /** No value is the mark of an empty leaf. */
  predicate NoEmptyMarks(h: Hash, m: Values) {
    forall k :: k in m ==> m[k] != h([])
  }

  /** Without such values the leaves determine the map. */
  lemma LeavesFixMap(h: Hash, m: Values, n: Values)
    requires NoEmptyMarks(h, m) && NoEmptyMarks(h, n) && SameLeaves(h, m, n)
    ensures m == n
  {
    forall k: Key
      ensures (k in m <==> k in n) && (k in m ==> m[k] == n[k])
    {
      assert LeafOf(h, m, k) == LeafOf(h, n, k);
    }
    assert m.Keys == n.Keys;
  }

  /** A stored mark of an empty leaf leaves the root as it was. */
  lemma EmptyMarkInvisible(h: Hash, m: Values, k: Key)
    requires k !in m
    ensures PlainRoot(h, m[k := h([])], []) == PlainRoot(h, m, [])
  {
    assert SameLeaves(h, m[k := h([])], m);
    LeavesFixPairs(h, m[k := h([])], m);
    PairsFixRoot(h, m[k := h([])], m, []);
  }

  /** On the way to an empty leaf, a node with the hash of an empty subtree has a child with the
      hash one level down: either both children are words, or the child is the empty leaf. */
  lemma DefaultChild(h: Hash, m: Values, p: seq<bool>, e: seq<bool>, n: nat)
    requires Injective(h, TreeInputs(h, m)) && |e| == 64 && p < e && KeyAt(e) !in m
    requires 0 < n <= 64 && PlainRoot(h, m, p) == Default(h, n)
    ensures PlainRoot(h, m, p + [e[|p|]]) == Default(h, n - 1)
  {
    var d := Default(h, n - 1);
    var x := Pair(h, m, p);
    assert IsTreeInput(h, m, x) && IsTreeInput(h, m, d + d);
    NoCollision(h, TreeInputs(h, m), x, d + d);
    var l, r := PlainRoot(h, m, p + [false]), PlainRoot(h, m, p + [true]);
    if |p| == 63 {
      assert e == p + [e[63]];
    }
    if e[|p|] { SplitWordsRight(l, r, d, d); } else { SplitWords(l, r, d, d); }
  }

  /** A subtree with an empty leaf never has the default hash of a taller subtree. */
  lemma {:induction false} NeverTallerDefault(h: Hash, m: Values, p: seq<bool>, e: seq<bool>, n: nat)
    requires Injective(h, TreeInputs(h, m))
    requires |e| == 64 && p <= e && KeyAt(e) !in m
    requires 64 - |p| < n <= 64
    ensures PlainRoot(h, m, p) != Default(h, n)
    decreases 64 - |p|
  {
    if PlainRoot(h, m, p) == Default(h, n) {
      if |p| == 64 {
        assert p == e;
        var d := Default(h, n - 1);
        assert IsTreeInput(h, m, d + d);
        NoCollision(h, TreeInputs(h, m), [], d + d);
      } else {
        var q := p + [e[|p|]];
        assert q == e[..|p| + 1];
        DefaultChild(h, m, p, e, n);
        NeverTallerDefault(h, m, q, e, n - 1);
      }
    }
  }

  /** When no two keys share sixty bits, every subtree of height four or more has an empty leaf. */
  lemma EmptyLeaf(m: Values, p: seq<bool>) returns (e: seq<bool>)
    requires Separated(m) && |p| <= 60
    ensures |e| == 64 && p <= e && KeyAt(e) !in m
  {
    var q := p + seq(60 - |p|, i => false);
    var e0, e1 := q + BitsOf(4, 0), q + BitsOf(4, 1);
    PathKeyAt(e0);
    PathKeyAt(e1);
    assert e0[..60] == q && e1[..60] == q;
    SmallPowers();
    if e0 == e1 {
      assert BitsOf(4, 0) == e0[60..] && BitsOf(4, 1) == e1[60..];
      BitsOfInjective(4, 0, 1);
    }
    assert p <= q && q <= e0 && q <= e1;
    e := if KeyAt(e0) in m then e1 else e0;
  }
}
