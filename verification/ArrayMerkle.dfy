/** The Merkle tree kept in an array: leaves in the second half, the root at index one. */
module ArrayMerkle {
  import opened Bytes

  // ----- Padding -----

  function IsPow2(x: nat): bool
    requires x >= 1
  {
    x == 1 || (x % 2 == 0 && IsPow2(x / 2))
  }

  function Doubled(k: nat): (r: nat)
    ensures r >= 1
  {
    if k == 0 then 1 else 2 * Doubled(k - 1)
  }

  function Log2(x: nat): (k: nat)
    requires x >= 1 && IsPow2(x)
    ensures Doubled(k) == x
  {
    if x == 1 then 0 else 1 + Log2(x / 2)
  }

  /** The least power of two that is at least `n`. */
  function NextPow2(n: nat): (p: nat)
    requires n >= 1
    ensures p >= n && IsPow2(p)
    ensures forall q :: n <= q < p ==> !IsPow2(q)
  {
    if n == 1 then 1
    else
      var half := NextPow2((n + 1) / 2);
      2 * half
  }

  /** The leaves followed by empty ones, up to a power of two. */
  function Padded(l: seq<Bytes>): (p: seq<Bytes>)
    requires |l| >= 1
    ensures |p| >= 1 && IsPow2(|p|) && l <= p && forall i :: |l| <= i < |p| ==> p[i] == []
  {
    l + Blank(NextPow2(|l|) - |l|)
  }

  /** So many empty leaves. */
  function Blank(k: nat): (s: seq<Bytes>)
    ensures |s| == k && forall i :: 0 <= i < k ==> s[i] == []
  {
    seq(k, i => [])
  }

  lemma BlankNext(l: seq<Bytes>, k: nat)
    ensures l + Blank(k) + [[]] == l + Blank(k + 1)
  {
  }

  // ----- The tree -----

  /** The root by halving: the tree's independent meaning. */
  function HalfRoot(h: Hash, s: seq<Bytes>): Bytes
    requires |s| >= 1
    decreases |s|
  {
    if |s| == 1 then s[0] else h(HalfRoot(h, s[..|s| / 2]) + HalfRoot(h, s[|s| / 2..]))
  }

  /** Node `i` is the hash of its children. */
  predicate Inner(h: Hash, t: seq<Bytes>, i: nat)
    requires 1 <= i && 2 * i + 1 < |t|
  {
    t[i] == h(t[2 * i] + t[2 * i + 1])
  }

  predicate IsTwice(m: nat, n: nat) { m == 2 * n && m % 2 == 0 && m / 2 == n }

  /** The array `t` holds the tree over the leaves `p`. */
  ghost predicate Tree(h: Hash, p: seq<Bytes>, t: seq<Bytes>) {
    && |p| >= 1 && IsTwice(|t|, |p|) && t[|p|..] == p
    && forall i {:trigger Inner(h, t, i)} :: 1 <= i < |p| ==> Inner(h, t, i)
  }

  /** The array of four leaves: the root hashes both pairs in order. */
  lemma FourLeaves(h: Hash, p: seq<Bytes>, t: seq<Bytes>)
    requires Tree(h, p, t) && |p| == 4
    ensures t[1] == h(h(p[0] + p[1]) + h(p[2] + p[3]))
  {
    assert Inner(h, t, 1) && Inner(h, t, 2) && Inner(h, t, 3);
  }

  /** Nodes `m` to `2 * m - 1` make a level of a tree with `n` leaves. */
  predicate Level(n: nat, m: nat)
    decreases n - m
  {
    1 <= m <= n && (m < n ==> Level(n, 2 * m))
  }

  lemma {:induction false} PowerGap(n: nat, m: nat)
    requires 1 <= m < n && IsPow2(n) && IsPow2(m)
    ensures 2 * m <= n
  {
    if m > 1 { PowerGap(n / 2, m / 2); }
  }

  lemma {:induction false} PowerLevel(n: nat, m: nat)
    requires 1 <= m <= n && IsPow2(n) && IsPow2(m)
    ensures Level(n, m)
    decreases n - m
  {
    if m < n {
      PowerGap(n, m);
      PowerLevel(n, 2 * m);
    }
  }

  /** How many leaves a node of the level is over. */
  function Width(n: nat, m: nat): nat
    requires Level(n, m)
    decreases n - m
  {
    if m == n then 1 else 2 * Width(n, 2 * m)
  }

  /** The leaves a node is over, from `Lo` up to `Hi`. */
  function Lo(n: nat, i: nat): nat
    requires 1 <= i < 2 * n
    decreases 2 * n - i
  {
    if i >= n then i - n else Lo(n, 2 * i)
  }

  function Hi(n: nat, i: nat): nat
    requires 1 <= i < 2 * n
    decreases 2 * n - i
  {
    if i >= n then i - n + 1 else Hi(n, 2 * i + 1)
  }

  /** The nodes of a level divide the leaves into blocks of one width. */
  lemma {:induction false} Blocks(n: nat, m: nat, i: nat)
    requires Level(n, m) && m <= i < 2 * m
    ensures Hi(n, i) == Lo(n, i) + Width(n, m) && Hi(n, i) <= n && Width(n, m) >= 1
    ensures i + 1 < 2 * m ==> Lo(n, i + 1) == Hi(n, i)
    decreases n - m
  {
    if m < n {
      Blocks(n, 2 * m, 2 * i);
      Blocks(n, 2 * m, 2 * i + 1);
    }
  }

  /** A node is the root of its block. */
  lemma {:induction false} BlockRoot(h: Hash, p: seq<Bytes>, t: seq<Bytes>, m: nat, i: nat)
    requires Tree(h, p, t) && Level(|p|, m) && m <= i < 2 * m
    ensures 0 <= Lo(|p|, i) < Hi(|p|, i) <= |p| && t[i] == HalfRoot(h, p[Lo(|p|, i)..Hi(|p|, i)])
    decreases |p| - m
  {
    if m < |p| {
      var m', l, r := 2 * m, 2 * i, 2 * i + 1;
      BlockRoot(h, p, t, m', l);
      BlockRoot(h, p, t, m', r);
      Halves(|p|, m, i);
      JoinBlocks(h, p, t, i, Lo(|p|, i), Hi(|p|, l), Hi(|p|, i));
    } else {
      LeafAt(h, p, t, i - |p|);
    }
  }

  lemma JoinBlocks(h: Hash, p: seq<Bytes>, t: seq<Bytes>, i: nat, a: nat, b: nat, c: nat)
    requires Tree(h, p, t) && 1 <= i < |p| && a < b < c <= |p| && b - a == c - b
    requires t[2 * i] == HalfRoot(h, p[a..b]) && t[2 * i + 1] == HalfRoot(h, p[b..c])
    ensures t[i] == HalfRoot(h, p[a..c])
  {
    var block := p[a..c];
    assert block[..|block| / 2] == p[a..b] && block[|block| / 2..] == p[b..c];
    assert Inner(h, t, i);
  }

  /** A block is those of the node's children, one after the other. */
  lemma Halves(n: nat, m: nat, i: nat)
    requires Level(n, m) && m < n && m <= i < 2 * m
    ensures i < n && Lo(n, i) == Lo(n, 2 * i) && Hi(n, i) == Hi(n, 2 * i + 1)
    ensures Hi(n, 2 * i) == Lo(n, 2 * i + 1) && Hi(n, i) <= n
    ensures Hi(n, 2 * i) - Lo(n, i) == Hi(n, i) - Hi(n, 2 * i) == Width(n, 2 * m) >= 1
  {
    Blocks(n, 2 * m, 2 * i);
    Blocks(n, 2 * m, 2 * i + 1);
  }

  lemma {:induction false} WholeLevel(n: nat, m: nat)
    requires Level(n, m)
    ensures Lo(n, m) == 0 && Hi(n, 2 * m - 1) == n
    decreases n - m
  {
    if m < n { WholeLevel(n, 2 * m); }
  }

  /** The node at index one is the root of all leaves. */
  lemma RootIsHalfRoot(h: Hash, p: seq<Bytes>, t: seq<Bytes>)
    requires Tree(h, p, t) && IsPow2(|p|)
    ensures t[1] == HalfRoot(h, p)
  {
    PowerLevel(|p|, 1);
    WholeRoot(h, p, t);
  }

  lemma WholeRoot(h: Hash, p: seq<Bytes>, t: seq<Bytes>)
    requires Tree(h, p, t) && Level(|p|, 1)
    ensures t[1] == HalfRoot(h, p)
  {
    WholeLevel(|p|, 1);
    BlockRoot(h, p, t, 1, 1);
    assert p[0..|p|] == p;
  }

  method Pad(l: seq<Bytes>) returns (p: seq<Bytes>)
    requires |l| >= 1
    ensures p == Padded(l)
  {
    p := l;
    while !IsPow2(|p|)
      invariant 1 <= |l| <= |p| <= NextPow2(|l|) && p == l + Blank(|p| - |l|)
      decreases NextPow2(|l|) - |p|
    {
      BlankNext(l, |p| - |l|);
      p := p + [[]];
    }
  }

  method Leaves(p: seq<Bytes>) returns (nodes: array<Bytes>)
    requires |p| >= 1
    ensures fresh(nodes) && nodes.Length == 2 * |p| && nodes[|p|..] == p
  {
    nodes := new Bytes[2 * |p|](_ => []);
    for i := 0 to |p|
      invariant nodes[|p|..|p| + i] == p[..i]
    {
      nodes[|p| + i] := p[i];
    }
  }

  /** Builds the array of nodes. Index zero holds a hash nobody reads. */
  method Merkelize(h: Hash, l: seq<Bytes>) returns (nodes: array<Bytes>)
    requires |l| >= 1
    ensures fresh(nodes) && Tree(h, Padded(l), nodes[..]) && nodes[1] == HalfRoot(h, Padded(l))
  {
    var p := Pad(l);
    nodes := Leaves(p);
    var i := |p| - 1;
    while i >= 0
      invariant -1 <= i < |p| && nodes[|p|..] == p
      invariant forall k {:trigger Inner(h, nodes[..], k)} :: i < k < |p| && k >= 1 ==> Inner(h, nodes[..], k)
    {
      ghost var was := nodes[..];
      nodes[i] := h(nodes[i * 2] + nodes[i * 2 + 1]);
      forall k | i <= k < |p| && k >= 1 ensures Inner(h, nodes[..], k) {
        if k > i { assert Inner(h, was, k); }
      }
      i := i - 1;
    }
    RootIsHalfRoot(h, p, nodes[..]);
  }

  // ----- Proofs -----

  /** The other child of a node's parent. */
  function Sibling(i: nat): nat { if i % 2 == 0 then i + 1 else i - 1 }

  /** The siblings on the way up from a node. */
  function Upwards(t: seq<Bytes>, i: nat): seq<Bytes>
    requires 1 <= i < |t| && |t| % 2 == 0
  {
    if i == 1 then [] else [t[Sibling(i)]] + Upwards(t, i / 2)
  }

  /** What is hashed on a step up. */
  function Joined(cur: Bytes, sibling: Bytes, index: nat): Bytes {
    if index % 2 > 0 then sibling + cur else cur + sibling
  }

  function Step(h: Hash, cur: Bytes, sibling: Bytes, index: nat): Bytes {
    h(Joined(cur, sibling, index))
  }

  /** Hashing up from a leaf with the siblings, left or right as the index says. */
  function Climb(h: Hash, cur: Bytes, s: seq<Bytes>, index: nat): Bytes
    decreases |s|
  {
    if s == [] then cur else Climb(h, Step(h, cur, s[0], index), s[1..], index / 2)
  }

  /** What a node hashes. */
  function NodeInput(t: seq<Bytes>, i: nat): Bytes
    requires 2 * i + 1 < |t|
  {
    t[2 * i] + t[2 * i + 1]
  }

  /** Node `i` is number `j` of the nodes `e` levels below the root. */
  predicate OnLevel(e: nat, i: nat, j: nat) {
    i == Doubled(e) + j && j < Doubled(e)
  }

  lemma Parent(e: nat, i: nat, j: nat)
    requires e > 0 && OnLevel(e, i, j)
    ensures OnLevel(e - 1, i / 2, j / 2) && i % 2 == j % 2 && i >= 2
  {
  }

  /** One step up from a node, left or right as `j` says, is its parent. */
  lemma UpStep(h: Hash, p: seq<Bytes>, t: seq<Bytes>, i: nat, j: nat)
    requires Tree(h, p, t) && 2 <= i < |t| && i % 2 == j % 2 && Sibling(i) < |t| && 1 <= i / 2 < |p|
    ensures Joined(t[i], t[Sibling(i)], j) == NodeInput(t, i / 2)
    ensures Step(h, t[i], t[Sibling(i)], j) == t[i / 2]
  {
    Children(i);
    UpFrom(h, p, t, i / 2, i % 2 == 0, j);
  }

  lemma UpSiblings(t: seq<Bytes>, i: nat)
    requires 2 <= i < |t| && |t| % 2 == 0
    ensures 1 <= Sibling(i) < |t| && 1 <= i / 2 < |t| / 2
    ensures Upwards(t, i) == [t[Sibling(i)]] + Upwards(t, i / 2)
  {
  }

  lemma Children(i: nat)
    ensures var c := i / 2;
      if i % 2 == 0 then i == 2 * c && Sibling(i) == 2 * c + 1 else i == 2 * c + 1 && Sibling(i) == 2 * c
  {
  }

  lemma UpFrom(h: Hash, p: seq<Bytes>, t: seq<Bytes>, c: nat, left: bool, j: nat)
    requires Tree(h, p, t) && 1 <= c < |p| && (left <==> j % 2 == 0)
    ensures var x, y := if left then t[2 * c] else t[2 * c + 1], if left then t[2 * c + 1] else t[2 * c];
      Joined(x, y, j) == NodeInput(t, c) && Step(h, x, y, j) == t[c]
  {
    assert Inner(h, t, c);
  }

  lemma ClimbCons(h: Hash, x: Bytes, s: Bytes, r: seq<Bytes>, j: nat)
    ensures Climb(h, x, [s] + r, j) == Climb(h, Step(h, x, s, j), r, j / 2)
    ensures ClimbInputs(h, x, [s] + r, j) == iset{Joined(x, s, j)} + ClimbInputs(h, Step(h, x, s, j), r, j / 2)
    ensures Twin(h, x, [s] + r, j) <==> x == s || Twin(h, Step(h, x, s, j), r, j / 2)
  {
    assert ([s] + r)[1..] == r;
  }

  /** Climbing from a node of the tree with its siblings gives the root. */
  lemma {:induction false} ClimbRoot(h: Hash, p: seq<Bytes>, t: seq<Bytes>, e: nat, i: nat, j: nat)
    requires Tree(h, p, t) && OnLevel(e, i, j) && i < |t|
    ensures Climb(h, t[i], Upwards(t, i), j) == t[1]
  {
    if e > 0 {
      Parent(e, i, j);
      UpSiblings(t, i);
      UpStep(h, p, t, i, j);
      ClimbCons(h, t[i], t[Sibling(i)], Upwards(t, i / 2), j);
      ClimbRoot(h, p, t, e - 1, i / 2, j / 2);
    }
  }

  function Concat(s: seq<Bytes>): Bytes {
    if s == [] then [] else s[0] + Concat(s[1..])
  }

  /** A byte string cut into words of 32 bytes. */
  function Words(b: Bytes): (s: seq<Bytes>)
    requires |b| % 32 == 0
    ensures AllWords(s)
    decreases |b|
  {
    if b == [] then [] else [b[..32]] + Words(b[32..])
  }

  predicate AllWords(s: seq<Bytes>) {
    forall i :: 0 <= i < |s| ==> |s[i]| == 32
  }

  lemma {:induction false} WordsConcat(s: seq<Bytes>)
    requires AllWords(s)
    ensures |Concat(s)| % 32 == 0 && Words(Concat(s)) == s
  {
    if s != [] {
      WordsConcat(s[1..]);
      assert (s[0] + Concat(s[1..]))[32..] == Concat(s[1..]);
    }
  }

  datatype Result<T> = Ok(value: T) | Err | Panic

  /** The leaf and the siblings, one after the other. An index equal to the number of leaves
      passes the check and then reads past the end. */
  method GenProof(nodes: array<Bytes>, index: nat) returns (r: Result<(Bytes, Bytes)>)
    requires nodes.Length >= 2 && nodes.Length % 2 == 0
    ensures index > nodes.Length / 2 ==> r == Err
    ensures index == nodes.Length / 2 ==> r == Panic
    ensures index < nodes.Length / 2 ==> r == Ok((nodes[1], ProofOf(nodes[..], index)))
  {
    var half := nodes.Length / 2;
    if index > half { return Err; }
    var ind := index + half;
    if ind >= nodes.Length { return Panic; }
    var proof := nodes[ind];
    while ind > 1
      invariant 1 <= ind < nodes.Length && proof + Concat(Upwards(nodes[..], ind)) == ProofOf(nodes[..], index)
    {
      assert Concat(Upwards(nodes[..], ind)) == nodes[Sibling(ind)] + Concat(Upwards(nodes[..], ind / 2));
      proof := proof + nodes[Sibling(ind)];
      ind := ind / 2;
    }
    assert proof + [] == proof;
    return Ok((nodes[1], proof));
  }

  /** What `GenProof` gives for a leaf. */
  function ProofOf(t: seq<Bytes>, index: nat): Bytes
    requires |t| % 2 == 0 && index < |t| / 2
  {
    t[|t| / 2 + index] + Concat(Upwards(t, |t| / 2 + index))
  }

  /** Checks a proof: its first word is the leaf, the others the siblings. */
  method CheckProof(h: Hash, root: Bytes, proof: Bytes, index: nat) returns (r: Result<bool>)
    ensures |proof| % 32 != 0 ==> r == Err
    ensures proof == [] ==> r == Panic
    ensures |proof| % 32 == 0 && proof != [] ==> r == Ok(Accepted(h, root, proof, index))
  {
    if |proof| % 32 != 0 { return Err; }
    if |proof| < 32 { return Panic; }
    var cur, ind, depth := proof[..32], index, 1;
    ghost var n, end := |proof| / 32, Climb(h, proof[..32], Words(proof[32..]), index);
    while depth < |proof| / 32
      invariant 1 <= depth <= n && Climb(h, cur, WordsFrom(proof, depth), ind) == end
    {
      var rhash := proof[32 * depth..32 * (depth + 1)];
      WordsNext(proof, depth, rhash);
      ClimbCons(h, cur, rhash, WordsFrom(proof, depth + 1), ind);
      cur := if ind % 2 > 0 then h(rhash + cur) else h(cur + rhash);
      ind := ind / 2;
      depth := depth + 1;
    }
    assert WordsFrom(proof, n) == [];
    return Ok(root == cur);
  }

  /** The words of a proof after the first `depth`. */
  function WordsFrom(proof: Bytes, depth: nat): seq<Bytes>
    requires |proof| % 32 == 0 && depth <= |proof| / 32
  {
    Words(proof[32 * depth..])
  }

  lemma WordsNext(proof: Bytes, depth: nat, word: Bytes)
    requires |proof| % 32 == 0 && depth < |proof| / 32 && word == proof[32 * depth..32 * (depth + 1)]
    ensures WordsFrom(proof, depth) == [word] + WordsFrom(proof, depth + 1)
  {
    var rest := proof[32 * depth..];
    assert rest[..32] == word && rest[32..] == proof[32 * (depth + 1)..];
  }

  predicate Accepted(h: Hash, root: Bytes, proof: Bytes, index: nat)
    requires |proof| % 32 == 0 && proof != []
  {
    root == Climb(h, proof[..32], Words(proof[32..]), index)
  }

  // ----- Completeness -----

  /** The first `n` leaves are words and the others are empty. */
  predicate PaddedAfter(p: seq<Bytes>, n: nat) {
    n <= |p| && (forall i :: 0 <= i < n ==> |p[i]| == 32) && (forall i :: n <= i < |p| ==> p[i] == [])
  }

  predicate WordLeaves(l: seq<Bytes>) { |l| >= 1 && AllWords(l) }

  /** Above the leaves all nodes are hashes. */
  lemma {:induction false} InnerSiblings(h: Hash, p: seq<Bytes>, t: seq<Bytes>, i: nat)
    requires Tree(h, p, t) && 1 <= i < |p| && IsPow2(|p|)
    ensures AllWords(Upwards(t, i))
  {
    if i > 1 {
      InnerSiblings(h, p, t, i / 2);
      assert Inner(h, t, Sibling(i));
    }
  }

  /** The siblings of a leaf are its neighbour and those of its parent. */
  lemma LeafSiblings(h: Hash, p: seq<Bytes>, t: seq<Bytes>, e: nat, i: nat, index: nat)
    requires Tree(h, p, t) && e > 0 && Doubled(e) == |p| && OnLevel(e, i, index)
    ensures Sibling(index) < |p| && t[i] == p[index] && 1 <= i / 2 < |p|
    ensures Upwards(t, i) == [p[Sibling(index)]] + Upwards(t, i / 2)
  {
    SiblingShift(e, i, index);
    LeafAt(h, p, t, index);
    LeafAt(h, p, t, Sibling(index));
    UpSiblings(t, i);
  }

  lemma SiblingShift(e: nat, i: nat, j: nat)
    requires e > 0 && OnLevel(e, i, j)
    ensures Sibling(i) == Doubled(e) + Sibling(j) && Sibling(j) < Doubled(e) && 2 <= i < 2 * Doubled(e)
  {
    Parent(e, i, j);
  }

  lemma LeafAt(h: Hash, p: seq<Bytes>, t: seq<Bytes>, k: nat)
    requires Tree(h, p, t) && k < |p|
    ensures t[|p| + k] == p[k]
  {
    assert t[|p|..][k] == p[k];
  }

  /** A leaf whose sibling is a real leaf, or that is alone, has a proof that is accepted. */
  lemma CompleteAt(h: Hash, p: seq<Bytes>, t: seq<Bytes>, e: nat, n: nat, index: nat)
    requires Tree(h, p, t) && Doubled(e) == |p| && IsPow2(|p|) && PaddedAfter(p, n) && index < n
    requires e == 0 || Sibling(index) < n
    ensures var proof := ProofOf(t, index); |proof| % 32 == 0 && proof != [] && Accepted(h, t[1], proof, index)
  {
    var i := |p| + index;
    LeafAt(h, p, t, index);
    if e > 0 { WordSiblings(h, p, t, e, n, i, index); }
    ProofWords(t[i], Upwards(t, i));
    ClimbRoot(h, p, t, e, i, index);
  }

  lemma WordSiblings(h: Hash, p: seq<Bytes>, t: seq<Bytes>, e: nat, n: nat, i: nat, index: nat)
    requires Tree(h, p, t) && Doubled(e) == |p| && IsPow2(|p|) && PaddedAfter(p, n) && OnLevel(e, i, index)
    requires e > 0 && Sibling(index) < n
    ensures AllWords(Upwards(t, i))
  {
    LeafSiblings(h, p, t, e, i, index);
    InnerSiblings(h, p, t, i / 2);
  }

  lemma Complete(h: Hash, l: seq<Bytes>, t: seq<Bytes>, index: nat)
    requires WordLeaves(l) && Tree(h, Padded(l), t) && index < |l| && (Sibling(index) < |l| || |l| == 1)
    ensures var proof := ProofOf(t, index); |proof| % 32 == 0 && proof != [] && Accepted(h, t[1], proof, index)
  {
    CompleteAt(h, Padded(l), t, Log2(|Padded(l)|), |l|, index);
  }

  lemma ProofWords(leaf: Bytes, s: seq<Bytes>)
    requires |leaf| == 32 && AllWords(s)
    ensures var proof := leaf + Concat(s);
      |proof| % 32 == 0 && |proof| >= 32 && proof[..32] == leaf && Words(proof[32..]) == s
  {
    WordsConcat(s);
    var c := Concat(s);
    OneMore(|c|);
    assert |leaf + c| == 32 + |c| && (leaf + c)[32..] == c;
  }

  lemma OneMore(x: nat)
    requires x % 32 == 0
    ensures (32 + x) % 32 == 0
  {
  }

  // ----- Binding -----

  /** What climbing hashes. */
  ghost function ClimbInputs(h: Hash, cur: Bytes, s: seq<Bytes>, index: nat): iset<Bytes>
    decreases |s|
  {
    if s == [] then iset{}
    else
      iset{Joined(cur, s[0], index)} + ClimbInputs(h, Step(h, cur, s[0], index), s[1..], index / 2)
  }

  lemma StepFixes(h: Hash, u: iset<Bytes>, x: Bytes, a: Bytes, y: Bytes, b: Bytes, index: nat)
    requires |x| == |y| && Joined(x, a, index) in u && Joined(y, b, index) in u && Injective(h, u)
    requires Step(h, x, a, index) == Step(h, y, b, index) && |a| == |b|
    ensures x == y && a == b
  {
    NoCollision(h, u, Joined(x, a, index), Joined(y, b, index));
    if index % 2 > 0 { SplitWords(a, x, b, y); } else { SplitWords(x, a, y, b); }
  }

  lemma {:induction false} ClimbFixes(h: Hash, x: Bytes, s: seq<Bytes>, y: Bytes, t: seq<Bytes>, index: nat,
                                      u: iset<Bytes>)
    requires |x| == |y| == 32 && AllWords(s) && AllWords(t) && |s| == |t|
    requires ClimbInputs(h, x, s, index) <= u && ClimbInputs(h, y, t, index) <= u && Injective(h, u)
    requires Climb(h, x, s, index) == Climb(h, y, t, index)
    ensures x == y && s == t
    decreases |s|
  {
    if s != [] {
      ClimbFixes(h, Step(h, x, s[0], index), s[1..], Step(h, y, t[0], index), t[1..], index / 2, u);
      StepFixes(h, u, x, s[0], y, t[0], index);
      assert s == [s[0]] + s[1..] && t == [t[0]] + t[1..];
    }
  }

  /** Two accepted proofs of one length for one index and root are the same proof. */
  lemma Binding(h: Hash, root: Bytes, a: Bytes, b: Bytes, index: nat)
    requires |a| % 32 == 0 && a != [] && |a| == |b|
    requires Accepted(h, root, a, index) && Accepted(h, root, b, index)
    requires Injective(h, ClimbInputs(h, a[..32], Words(a[32..]), index) +
                          ClimbInputs(h, b[..32], Words(b[32..]), index))
    ensures a[..32] == b[..32] && Words(a[32..]) == Words(b[32..])
  {
    var s, t := Words(a[32..]), Words(b[32..]);
    WordCount(a[32..]);
    WordCount(b[32..]);
    ClimbFixes(h, a[..32], s, b[..32], t, index, ClimbInputs(h, a[..32], s, index) + ClimbInputs(h, b[..32], t, index));
  }

  lemma {:induction false} WordCount(b: Bytes)
    requires |b| % 32 == 0
    ensures |Words(b)| == |b| / 32
    decreases |b|
  {
    if b != [] { WordCount(b[32..]); }
  }

  // ----- When completeness fails -----

  /** The set holds what every node of the tree hashes. */
  ghost predicate Covers(p: seq<Bytes>, t: seq<Bytes>, u: iset<Bytes>)
    requires |t| == 2 * |p|
  {
    forall i {:trigger NodeInput(t, i)} :: 1 <= i < |p| ==> NodeInput(t, i) in u
  }

  /** The tree over a padded list, and a set of inputs without collisions. */
  ghost predicate Sound(h: Hash, p: seq<Bytes>, t: seq<Bytes>, n: nat, u: iset<Bytes>) {
    Tree(h, p, t) && Covers(p, t, u) && Injective(h, u) && PaddedAfter(p, n) && |p| % 2 == 0
  }

  /** Equal nodes have equal children, when the left ones are equally long. */
  lemma ChildrenFix(h: Hash, p: seq<Bytes>, t: seq<Bytes>, n: nat, u: iset<Bytes>, i: nat, k: nat)
    requires Sound(h, p, t, n, u) && 1 <= i < |p| && 1 <= k < |p| && t[i] == t[k]
    ensures NodeInput(t, i) == NodeInput(t, k)
    ensures |t[2 * i]| == |t[2 * k]| ==> t[2 * i] == t[2 * k] && t[2 * i + 1] == t[2 * k + 1]
  {
    assert Inner(h, t, i) && Inner(h, t, k);
    NoCollision(h, u, NodeInput(t, i), NodeInput(t, k));
    if |t[2 * i]| == |t[2 * k]| { SplitWords(t[2 * i], t[2 * i + 1], t[2 * k], t[2 * k + 1]); }
  }

  /** The pairs of leaves below two equal nodes are equal: how long a pair is says which of the
      two are empty. */
  lemma PairFix(h: Hash, p: seq<Bytes>, t: seq<Bytes>, n: nat, u: iset<Bytes>, i: nat, k: nat)
    requires Sound(h, p, t, n, u) && |p| / 2 <= i < |p| && |p| / 2 <= k < |p| && t[i] == t[k]
    ensures p[2 * i - |p|] == p[2 * k - |p|] && p[2 * i + 1 - |p|] == p[2 * k + 1 - |p|]
  {
    ChildrenFix(h, p, t, n, u, i, k);
    assert forall x :: |p| <= x < |t| ==> t[x] == t[|p|..][x - |p|];
  }

  /** The leaf `o` places into a node's block. */
  function LeafIn(p: seq<Bytes>, i: nat, o: nat): Bytes
    requires 1 <= i < 2 * |p| && Lo(|p|, i) + o < |p|
  {
    p[Lo(|p|, i) + o]
  }

  /** The leaf `o` places in lies below one child or the other. */
  lemma LeafBelow(p: seq<Bytes>, m: nat, i: nat, o: nat)
    requires Level(|p|, m) && m < |p| && m <= i < 2 * m && o < Width(|p|, m)
    ensures Lo(|p|, i) + o < |p|
    ensures var w := Width(|p|, 2 * m);
      if o < w then Lo(|p|, 2 * i) + o < |p| && LeafIn(p, i, o) == LeafIn(p, 2 * i, o)
      else o < 2 * w && Lo(|p|, 2 * i + 1) + o - w < |p| && LeafIn(p, i, o) == LeafIn(p, 2 * i + 1, o - w)
  {
    Halves(|p|, m, i);
  }

  lemma PairLeaves(n: nat, m: nat, i: nat)
    requires Level(n, m) && 2 * m == n && m <= i < n
    ensures Width(n, m) == 2 && Lo(n, i) == 2 * i - n && Lo(n, i) + 1 < n
  {
  }

  lemma PairsFix(h: Hash, p: seq<Bytes>, t: seq<Bytes>, n: nat, u: iset<Bytes>, m: nat, i: nat, k: nat, o: nat)
    requires Sound(h, p, t, n, u) && Level(|p|, m) && 2 * m == |p| && m <= i < |p| && m <= k < |p| && o < 2
    requires t[i] == t[k]
    ensures Width(|p|, m) == 2 && Lo(|p|, i) + o < |p| && Lo(|p|, k) + o < |p| && LeafIn(p, i, o) == LeafIn(p, k, o)
  {
    PairLeaves(|p|, m, i);
    PairLeaves(|p|, m, k);
    PairFix(h, p, t, n, u, i, k);
  }

  lemma HashNodes(h: Hash, p: seq<Bytes>, t: seq<Bytes>, m: nat, i: nat)
    requires Tree(h, p, t) && Level(|p|, m) && 2 * m < |p| && m <= i < 2 * m
    ensures 2 * i + 1 < |p| && |t[2 * i]| == 32
  {
    assert Level(|p|, 4 * m);
    assert Inner(h, t, 2 * i);
  }

  /** Equal nodes of one level stand for equal blocks of leaves. */
  lemma {:induction false} NodesFix(h: Hash, p: seq<Bytes>, t: seq<Bytes>, n: nat, u: iset<Bytes>, m: nat, i: nat,
                                    k: nat, o: nat)
    requires Sound(h, p, t, n, u) && Level(|p|, m) && m < |p| && m <= i < 2 * m && m <= k < 2 * m && o < Width(|p|, m)
    requires t[i] == t[k]
    ensures Lo(|p|, i) + o < |p| && Lo(|p|, k) + o < |p| && LeafIn(p, i, o) == LeafIn(p, k, o)
    decreases |p| - m
  {
    LeafBelow(p, m, i, o);
    LeafBelow(p, m, k, o);
    if 2 * m == |p| {
      PairsFix(h, p, t, n, u, m, i, k, o);
    } else {
      HashNodes(h, p, t, m, i);
      HashNodes(h, p, t, m, k);
      ChildrenFix(h, p, t, n, u, i, k);
      var w := Width(|p|, 2 * m);
      if o < w {
        NodesFix(h, p, t, n, u, 2 * m, 2 * i, 2 * k, o);
      } else {
        NodesFix(h, p, t, n, u, 2 * m, 2 * i + 1, 2 * k + 1, o - w);
      }
    }
  }

  /** Somewhere on the way up a node equals its sibling. */
  predicate Twin(h: Hash, y: Bytes, s: seq<Bytes>, b: nat)
    decreases |s|
  {
    s != [] && (y == s[0] || Twin(h, Step(h, y, s[0], b), s[1..], b / 2))
  }

  /** The first `k` bits of two numbers are the same. */
  predicate SameBits(a: nat, b: nat, k: nat) {
    k == 0 || (a % 2 == b % 2 && SameBits(a / 2, b / 2, k - 1))
  }

  lemma StepShift(h: Hash, u: iset<Bytes>, x: Bytes, y: Bytes, s: Bytes, a: nat, b: nat)
    requires |x| == |y| == |s| && Joined(x, s, a) in u && Joined(y, s, b) in u && Injective(h, u)
    requires Step(h, x, s, a) == Step(h, y, s, b)
    ensures y == s || (x == y && a % 2 == b % 2)
  {
    NoCollision(h, u, Joined(x, s, a), Joined(y, s, b));
    if a % 2 == b % 2 {
      StepFixes(h, u, x, s, y, s, a);
    } else if a % 2 > 0 {
      SplitWords(s, x, y, s);
    } else {
      SplitWords(x, s, s, y);
    }
  }

  /** Climbing with the same siblings but other indices meets only where the indices agree, or
      past a node that equals its sibling. */
  lemma {:induction false} ClimbShift(h: Hash, u: iset<Bytes>, x: Bytes, y: Bytes, s: seq<Bytes>, a: nat, b: nat)
    requires |x| == |y| == 32 && AllWords(s) && Injective(h, u)
    requires ClimbInputs(h, x, s, a) <= u && ClimbInputs(h, y, s, b) <= u
    requires Climb(h, x, s, a) == Climb(h, y, s, b)
    ensures Twin(h, y, s, b) || (x == y && SameBits(a, b, |s|))
    decreases |s|
  {
    if s != [] {
      ClimbShift(h, u, Step(h, x, s[0], a), Step(h, y, s[0], b), s[1..], a / 2, b / 2);
      if Step(h, x, s[0], a) == Step(h, y, s[0], b) { StepShift(h, u, x, y, s[0], a, b); }
    }
  }

  lemma {:induction false} ZeroBits(a: nat, k: nat)
    requires SameBits(a, a / 2, k) && a % 2 == 0 && a < Doubled(k + 1)
    ensures a == 0
  {
    if k > 0 { ZeroBits(a / 2, k - 1); }
  }

  lemma {:induction false} SiblingCount(h: Hash, p: seq<Bytes>, t: seq<Bytes>, e: nat, i: nat, j: nat)
    requires Tree(h, p, t) && OnLevel(e, i, j) && i < |t|
    ensures |Upwards(t, i)| == e
  {
    if e > 0 {
      Parent(e, i, j);
      UpSiblings(t, i);
      UpStep(h, p, t, i, j);
      SiblingCount(h, p, t, e - 1, i / 2, j / 2);
    }
  }

  lemma {:induction false} PathInputs(h: Hash, p: seq<Bytes>, t: seq<Bytes>, u: iset<Bytes>, e: nat, i: nat, j: nat)
    requires Tree(h, p, t) && Covers(p, t, u) && OnLevel(e, i, j) && i < |t|
    ensures ClimbInputs(h, t[i], Upwards(t, i), j) <= u
  {
    if e > 0 {
      Parent(e, i, j);
      UpSiblings(t, i);
      UpStep(h, p, t, i, j);
      ClimbCons(h, t[i], t[Sibling(i)], Upwards(t, i / 2), j);
      PathInputs(h, p, t, u, e - 1, i / 2, j / 2);
      assert NodeInput(t, i / 2) in u;
    }
  }

  /** A node over both the last leaf and the padding after it. */
  predicate Straddles(p: seq<Bytes>, n: nat, m: nat, i: nat) {
    Level(|p|, m) && m <= i < 2 * m && m < |p| && 1 <= n && Lo(|p|, i) < n < Hi(|p|, i)
  }

  /** Such a node does not equal its sibling. */
  lemma NotSibling(h: Hash, p: seq<Bytes>, t: seq<Bytes>, n: nat, u: iset<Bytes>, m: nat, i: nat)
    requires Sound(h, p, t, n, u) && Straddles(p, n, m, i) && m % 2 == 0
    ensures t[i] != t[Sibling(i)]
  {
    var k, o := Sibling(i), n - 1 - Lo(|p|, i);
    Blocks(|p|, m, i);
    Blocks(|p|, m, k);
    if t[i] == t[k] {
      if k > i { NodesFix(h, p, t, n, u, m, i, k, o); } else { NodesFix(h, p, t, n, u, m, i, k, o + 1); }
    }
  }

  lemma StraddlesUp(p: seq<Bytes>, n: nat, m: nat, q: nat, i: nat)
    requires Straddles(p, n, m, i) && m == 2 * q && q >= 1
    ensures Straddles(p, n, q, i / 2)
  {
    Halves(|p|, q, i / 2);
  }

  lemma {:induction false} NoTwin(h: Hash, p: seq<Bytes>, t: seq<Bytes>, n: nat, u: iset<Bytes>, e: nat, i: nat, j: nat)
    requires Sound(h, p, t, n, u) && OnLevel(e, i, j) && Straddles(p, n, Doubled(e), i)
    ensures !Twin(h, t[i], Upwards(t, i), j)
  {
    if e > 0 {
      TwinUp(h, p, t, e, i, j, i / 2, j / 2);
      NotSibling(h, p, t, n, u, Doubled(e), i);
      StraddlesUp(p, n, Doubled(e), Doubled(e - 1), i);
      NoTwin(h, p, t, n, u, e - 1, i / 2, j / 2);
    }
  }

  /** One step up. */
  lemma TwinUp(h: Hash, p: seq<Bytes>, t: seq<Bytes>, e: nat, i: nat, j: nat, c: nat, d: nat)
    requires Tree(h, p, t) && e > 0 && OnLevel(e, i, j) && i < |t| && c == i / 2 && d == j / 2
    ensures OnLevel(e - 1, c, d) && 1 <= c < |p| && Sibling(i) < |t|
    ensures Twin(h, t[i], Upwards(t, i), j) <==> t[i] == t[Sibling(i)] || Twin(h, t[c], Upwards(t, c), d)
  {
    Parent(e, i, j);
    UpSiblings(t, i);
    UpStep(h, p, t, i, j);
    ClimbCons(h, t[i], t[Sibling(i)], Upwards(t, c), j);
  }

  /** The parent of the last leaf, when that leaf is paired with padding. */
  lemma LastStraddles(p: seq<Bytes>, e: nat, n: nat, i: nat)
    requires e > 0 && Doubled(e) == |p| && Level(|p|, Doubled(e - 1)) && i == |p| + n - 1 && i % 2 == 0 && 1 <= n < |p|
    ensures Straddles(p, n, Doubled(e - 1), i / 2)
  {
    var c := i / 2;
    assert i == 2 * c;
    PairLeaves(|p|, Doubled(e - 1), c);
    Blocks(|p|, Doubled(e - 1), c);
  }

  /** The last leaf, at node `i`, is paired with padding. */
  ghost predicate Last(h: Hash, p: seq<Bytes>, t: seq<Bytes>, e: nat, n: nat, i: nat, index: nat, u: iset<Bytes>) {
    && Sound(h, p, t, n, u) && e > 0 && Doubled(e) == |p| && IsPow2(|p|) && Level(|p|, Doubled(e - 1))
    && OnLevel(e, i, index) && 1 < n < |p| && index == n - 1 && index % 2 == 0
  }

  /** Its proof lacks a word. */
  lemma ShortProof(h: Hash, p: seq<Bytes>, t: seq<Bytes>, e: nat, n: nat, i: nat, index: nat, u: iset<Bytes>)
    requires Last(h, p, t, e, n, i, index, u)
    ensures var proof := ProofOf(t, index);
      && |proof| % 32 == 0 && proof != [] && 1 <= i / 2 < |p| && AllWords(Upwards(t, i / 2))
      && (Accepted(h, t[1], proof, index) <==> Climb(h, p[index], Upwards(t, i / 2), index) == t[1])
  {
    LeafSiblings(h, p, t, e, i, index);
    InnerSiblings(h, p, t, i / 2);
    var s := Upwards(t, i / 2);
    PaddingVanishes(s);
    ProofWords(p[index], s);
  }

  /** Checking it does not lead to the root. */
  lemma ShortClimb(h: Hash, p: seq<Bytes>, t: seq<Bytes>, e: nat, n: nat, i: nat, index: nat, u: iset<Bytes>)
    requires Last(h, p, t, e, n, i, index, u) && 1 <= i / 2 < |p| && AllWords(Upwards(t, i / 2))
    requires ClimbInputs(h, p[index], Upwards(t, i / 2), index) <= u
    ensures Climb(h, p[index], Upwards(t, i / 2), index) != t[1]
  {
    TruePath(h, p, t, e, n, i, index, u);
    NeverMeets(h, u, p[index], t[i / 2], Upwards(t, i / 2), index, e - 1);
  }

  /** Climbing with an even index other than zero does not meet the climb one level higher up. */
  lemma NeverMeets(h: Hash, u: iset<Bytes>, x: Bytes, y: Bytes, s: seq<Bytes>, index: nat, k: nat)
    requires |x| == |y| == 32 && AllWords(s) && |s| == k && Injective(h, u) && !Twin(h, y, s, index / 2)
    requires ClimbInputs(h, x, s, index) <= u && ClimbInputs(h, y, s, index / 2) <= u
    requires 0 < index < Doubled(k + 1) && index % 2 == 0
    ensures Climb(h, x, s, index) != Climb(h, y, s, index / 2)
  {
    if Climb(h, x, s, index) == Climb(h, y, s, index / 2) {
      ClimbShift(h, u, x, y, s, index, index / 2);
      ZeroBits(index, k);
    }
  }

  /** What is known of the way up from its parent. */
  lemma TruePath(h: Hash, p: seq<Bytes>, t: seq<Bytes>, e: nat, n: nat, i: nat, index: nat, u: iset<Bytes>)
    requires Last(h, p, t, e, n, i, index, u) && 1 <= i / 2 < |p|
    ensures var c, s, j := i / 2, Upwards(t, i / 2), index / 2;
      && Climb(h, t[c], s, j) == t[1] && |t[c]| == 32 && |s| == e - 1
      && !Twin(h, t[c], s, j) && ClimbInputs(h, t[c], s, j) <= u
  {
    Parent(e, i, index);
    LastStraddles(p, e, n, i);
    NoTwin(h, p, t, n, u, e - 1, i / 2, index / 2);
    TrueClimb(h, p, t, u, e - 1, i / 2, index / 2);
  }

  lemma TrueClimb(h: Hash, p: seq<Bytes>, t: seq<Bytes>, u: iset<Bytes>, e: nat, c: nat, j: nat)
    requires Tree(h, p, t) && Covers(p, t, u) && 1 <= c < |p| && OnLevel(e, c, j)
    ensures Climb(h, t[c], Upwards(t, c), j) == t[1] && |t[c]| == 32 && |Upwards(t, c)| == e
    ensures ClimbInputs(h, t[c], Upwards(t, c), j) <= u
  {
    ClimbRoot(h, p, t, e, c, j);
    PathInputs(h, p, t, u, e, c, j);
    SiblingCount(h, p, t, e, c, j);
    assert Inner(h, t, c);
  }

  lemma IncompleteAt(h: Hash, p: seq<Bytes>, t: seq<Bytes>, e: nat, n: nat, i: nat, index: nat, u: iset<Bytes>)
    requires Last(h, p, t, e, n, i, index, u) && 1 <= i / 2 < |p|
    requires ClimbInputs(h, p[index], Upwards(t, i / 2), index) <= u
    ensures var proof := ProofOf(t, index); |proof| % 32 == 0 && proof != [] && !Accepted(h, t[1], proof, index)
  {
    ShortProof(h, p, t, e, n, i, index, u);
    ShortClimb(h, p, t, e, n, i, index, u);
  }

  lemma PaddingVanishes(s: seq<Bytes>)
    ensures Concat([[]] + s) == Concat(s)
  {
    var none: seq<Bytes> := [[]];
    assert (none + s)[1..] == s;
  }

  /** Everything hashed in the tree and in checking the proof of a leaf. */
  ghost function ProofInputs(h: Hash, p: seq<Bytes>, t: seq<Bytes>, index: nat): iset<Bytes>
    requires |t| == 2 * |p| && index < |p| && |p| > 1
  {
    (iset i | 1 <= i < |p| :: NodeInput(t, i)) + ClimbInputs(h, p[index], Upwards(t, (|p| + index) / 2), index)
  }

  /** Without collisions, the proof made for a leaf is accepted exactly when the leaf is paired
      with a real one or is alone. */
  lemma CompleteIff(h: Hash, l: seq<Bytes>, t: seq<Bytes>, index: nat)
    requires WordLeaves(l) && Tree(h, Padded(l), t) && index < |l|
    requires |l| > 1 ==> Injective(h, ProofInputs(h, Padded(l), t, index))
    ensures var proof := ProofOf(t, index);
      |proof| % 32 == 0 && proof != [] && (Accepted(h, t[1], proof, index) <==> Sibling(index) < |l| || |l| == 1)
  {
    var p := Padded(l);
    var e := Log2(|p|);
    if Sibling(index) < |l| || |l| == 1 {
      Complete(h, l, t, index);
    } else {
      assert index + 1 == |l| && |l| < |p|;
      Incomplete(h, p, t, e, |l|, index);
    }
  }

  lemma Incomplete(h: Hash, p: seq<Bytes>, t: seq<Bytes>, e: nat, n: nat, index: nat)
    requires Tree(h, p, t) && Doubled(e) == |p| && IsPow2(|p|) && PaddedAfter(p, n)
    requires 1 < n < |p| && index == n - 1 && index % 2 == 0 && Injective(h, ProofInputs(h, p, t, index))
    ensures var proof := ProofOf(t, index); |proof| % 32 == 0 && proof != [] && !Accepted(h, t[1], proof, index)
  {
    LevelAbove(|p|, e);
    IncompleteLast(h, p, t, e, n, |p| + index, index, ProofInputs(h, p, t, index));
  }

  lemma IncompleteLast(h: Hash, p: seq<Bytes>, t: seq<Bytes>, e: nat, n: nat, i: nat, index: nat, u: iset<Bytes>)
    requires Tree(h, p, t) && e > 0 && Doubled(e) == |p| && IsPow2(|p|) && Level(|p|, Doubled(e - 1))
    requires PaddedAfter(p, n) && |p| % 2 == 0 && i == |p| + index
    requires 1 < n < |p| && index == n - 1 && index % 2 == 0 && u == ProofInputs(h, p, t, index) && Injective(h, u)
    ensures var proof := ProofOf(t, index); |proof| % 32 == 0 && proof != [] && !Accepted(h, t[1], proof, index)
  {
    LastAt(h, p, t, e, n, i, index, u);
    IncompleteAt(h, p, t, e, n, i, index, u);
  }

  lemma LastAt(h: Hash, p: seq<Bytes>, t: seq<Bytes>, e: nat, n: nat, i: nat, index: nat, u: iset<Bytes>)
    requires Tree(h, p, t) && e > 0 && Doubled(e) == |p| && IsPow2(|p|) && Level(|p|, Doubled(e - 1))
    requires PaddedAfter(p, n) && |p| % 2 == 0 && i == |p| + index
    requires 1 < n < |p| && index == n - 1 && index % 2 == 0 && u == ProofInputs(h, p, t, index) && Injective(h, u)
    ensures Last(h, p, t, e, n, i, index, u) && 1 <= i / 2 < |p|
    ensures ClimbInputs(h, p[index], Upwards(t, i / 2), index) <= u
  {
    assert Covers(p, t, u);
  }

  /** The nodes over pairs of leaves make a level. */
  lemma LevelAbove(n: nat, e: nat)
    requires Doubled(e) == n > 1 && IsPow2(n)
    ensures e > 0 && Level(n, Doubled(e - 1)) && n % 2 == 0
  {
    assert e > 0;
    DoubledLess(e - 1, e);
    PowerLevel(n, 1);
    LevelBelow(n, 0, e - 1);
  }

  lemma {:induction false} LevelBelow(n: nat, d: nat, e: nat)
    requires Level(n, Doubled(d)) && Doubled(e) <= n && d <= e
    ensures Level(n, Doubled(e))
    decreases e - d
  {
    if d < e {
      DoubledLess(d, e);
      LevelBelow(n, d + 1, e);
    }
  }

  lemma {:induction false} DoubledLess(d: nat, e: nat)
    requires d < e
    ensures Doubled(d) < Doubled(e)
  {
    if d + 1 < e { DoubledLess(d, e - 1); }
  }
}
