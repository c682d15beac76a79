/** Generating a compact proof from the trie, and its completeness: the checker accepts it.
    At every branch on the path the four siblings are read from the cache; one that equals
    the default hash of height `64 - level` is left out. That height is the sibling's own
    height only at the root, so completeness needs that no sibling further down has the
    default hash of a taller subtree. */
module ProofGen {
  import opened Bytes
  import opened Keys
  import opened PlainTree
  import opened ProofCheck
  import opened Tries
  import opened TrieRoot

  /** `x | (1 << n)`. */
  function SetBit(x: nat, n: nat): (r: nat) {
    if n == 0 then (if x % 2 == 1 then x else x + 1) else 2 * SetBit(x / 2, n - 1) + x % 2
  }

  lemma {:induction false} SetBitAt(x: nat, n: nat, i: nat)
    ensures BitAt(SetBit(x, n), i) <==> i == n || BitAt(x, i)
  {
    if n == 0 {
      if i != 0 {
        assert SetBit(x, 0) / 2 == x / 2;
      }
    } else {
      var r := SetBit(x, n);
      assert r / 2 == SetBit(x / 2, n - 1) && r % 2 == x % 2;
      if i != 0 {
        SetBitAt(x / 2, n - 1, i - 1);
      }
    }
  }

  lemma {:induction false} SetBitBound(x: nat, n: nat, w: nat)
    requires x < Pow2(w) && n < w
    ensures SetBit(x, n) < Pow2(w)
  {
    HalfBound(x, Pow2(w - 1));
    if n != 0 { SetBitBound(x / 2, n - 1, w - 1); }
  }

  lemma HalfBound(x: nat, p: nat)
    requires x < 2 * p
    ensures x / 2 < p && (x % 2 == 0 ==> x + 1 < 2 * p)
  {
  }

  function WithBit(x: UInt64, n: nat): (r: UInt64)
    requires n < 64
    ensures r == SetBit(x, n)
  {
    Pow2Is64();
    SetBitBound(x, n, 64);
    SetBit(x, n)
  }

  /** The other child of the parent of slot `i`. */
  function SisterIndex(i: nat): (r: nat) {
    if i % 2 == 1 then i - 1 else i + 1
  }

  /** The proof with the sibling at height `n`, left out if it is the given default hash. */
  function WithSister(h: Hash, pr: Proof, s: Bytes, n: nat, taller: nat): Proof
    requires n < 64 && taller <= 64
  {
    if s == Default(h, taller) then pr else Proof(pr.key, pr.hashes + [s], WithBit(pr.bits, n))
  }

  /** Handle the sibling of slot `idx` at cache level `level`. */
  ghost function AddSister(h: Hash, t: Trie, p: seq<bool>, level: nat, idx: nat, pr: Proof): Proof
    requires t.Branch? && Fits(t, p) && 1 <= level <= 4 && idx < Pow2(level)
  {
    WithSister(h, pr, CacheAt(h, t, p, level, SisterIndex(idx)), 64 - |p| - level, 64 - level)
  }

  ghost function AddSisters(h: Hash, t: Trie, p: seq<bool>, level: nat, idx: nat, pr: Proof): Proof
    requires t.Branch? && Fits(t, p) && level <= 4 && idx < Pow2(level)
  {
    if level == 0 then pr
    else AddSisters(h, t, p, level - 1, idx / 2, AddSister(h, t, p, level, idx, pr))
  }

  /** The proof for `k`, or `None` when the path of `k` ends in a free slot. */
  ghost function GenProof(h: Hash, t: Trie, p: seq<bool>, k: Key): Option<Proof>
    requires t.Branch? && Fits(t, p)
    decreases t
  {
    SmallPowers();
    var o := t.kids[Slot(p, k)];
    if o.None? then None
    else if o.value.Term? then Some(AddSisters(h, t, p, 4, Slot(p, k), Proof(k, [], 0)))
    else
      var r := GenProof(h, o.value, Below(p, k), k);
      if r.None? then None else Some(AddSisters(h, t, p, 4, Slot(p, k), r.value))
  }

  // ----- Completeness -----

  lemma {:induction false} RunStable(h: Hash, pr: Proof, qr: Proof, v: Bytes, n: nat)
    requires n <= 64 && pr.key == qr.key && pr.hashes <= qr.hashes && Run(h, pr, v, n).At?
    requires forall i: nat {:trigger SameBit(pr, qr, i)} :: i < n ==> SameBit(pr, qr, i)
    ensures Run(h, qr, v, n) == Run(h, pr, v, n)
  {
    if n > 0 {
      RunStable(h, pr, qr, v, n - 1);
      assert SameBit(pr, qr, n - 1);
    }
  }

  predicate SameBit(pr: Proof, qr: Proof, i: nat) { BitAt(pr.bits, i) == BitAt(qr.bits, i) }

  lemma {:induction false} NoBits(i: nat)
    ensures !BitAt(0, i)
  {
    if i > 0 {
      NoBits(i - 1);
    }
  }

  lemma {:induction false} RunDefaults(h: Hash, k: Key, v: Bytes, n: nat)
    requires n <= 64
    ensures Run(h, Proof(k, [], 0), v, n) == At(TermRoot(h, k, v, n), 0)
  {
    if n > 0 {
      RunDefaults(h, k, v, n - 1);
      NoBits(n - 1);
    }
  }

  /** The proof so far checks up to height `n`: it retraces the plain tree, uses all its
      siblings and has no bit at or above `n`. */
  ghost predicate UpTo(h: Hash, m: Values, pr: Proof, v: Bytes, n: nat) {
    && n <= 64
    && Run(h, pr, v, n) == At(PlainRoot(h, m, Path(pr.key)[..64 - n]), |pr.hashes|)
    && NoBitsFrom(pr.bits, n)
  }

  /** No bit at or above `n` is set. */
  ghost predicate NoBitsFrom(x: nat, n: nat) {
    forall i: nat {:trigger ClearAt(x, n, i)} :: ClearAt(x, n, i)
  }

  predicate ClearAt(x: nat, n: nat, i: nat) { i >= n ==> !BitAt(x, i) }

  /** Leaving out a default sibling carries the proof one height up. */
  lemma SkipSister(h: Hash, m: Values, pr: Proof, v: Bytes, n: nat)
    requires n < 64 && UpTo(h, m, pr, v, n) && SiblingAt(h, m, pr.key, n) == Default(h, n)
    ensures UpTo(h, m, pr, v, n + 1)
  {
    RetraceStep(h, m, pr.key, n);
    assert ClearAt(pr.bits, n, n);
    var up := n + 1;
    forall i: nat ensures ClearAt(pr.bits, up, i) { assert ClearAt(pr.bits, n, i); }
  }

  /** So does listing it. */
  lemma ListSister(h: Hash, m: Values, pr: Proof, v: Bytes, n: nat)
    requires n < 64 && UpTo(h, m, pr, v, n)
    ensures UpTo(h, m, Proof(pr.key, pr.hashes + [SiblingAt(h, m, pr.key, n)], WithBit(pr.bits, n)), v, n + 1)
  {
    var qr := Proof(pr.key, pr.hashes + [SiblingAt(h, m, pr.key, n)], WithBit(pr.bits, n));
    forall i: nat | i < n ensures SameBit(pr, qr, i) { SetBitAt(pr.bits, n, i); }
    RunStable(h, pr, qr, v, n);
    RetraceStep(h, m, pr.key, n);
    SetBitAt(pr.bits, n, n);
    var up := n + 1;
    forall i: nat ensures ClearAt(qr.bits, up, i) {
      assert ClearAt(pr.bits, n, i);
      SetBitAt(pr.bits, n, i);
    }
    assert qr.hashes[|pr.hashes|] == SiblingAt(h, m, pr.key, n);
  }

  /** Slot `idx` of cache level `level` lies on the path of `k`, so its sibling in the cache
      is the sibling on the path. */
  lemma SisterOnPath(h: Hash, t: Trie, p: seq<bool>, m: Values, k: Key, level: nat, idx: nat)
    requires t.Branch? && Fits(t, p) && Shows(Some(t), p, m) && 1 <= level <= 4 && idx < Pow2(level)
    requires Path(k)[..|p| + level] == p + BitsOf(level, idx)
    ensures SisterIndex(idx) < Pow2(level)
    ensures CacheAt(h, t, p, level, SisterIndex(idx)) == SiblingAt(h, m, k, 64 - |p| - level)
  {
    SisterPath(p, k, level, idx);
    CacheRefines(h, t, p, m, level, SisterIndex(idx));
  }

  lemma SisterPath(p: seq<bool>, k: Key, level: nat, idx: nat)
    requires 1 <= level <= 4 && |p| + level <= 64 && idx < Pow2(level)
    requires Path(k)[..|p| + level] == p + BitsOf(level, idx)
    ensures SisterIndex(idx) < Pow2(level)
    ensures var n := 64 - |p| - level; p + BitsOf(level, SisterIndex(idx)) == Path(k)[..63 - n] + [!KeyBit(k, n)]
  {
    SisterBits(level, idx);
    PathUp(p, k, level, idx);
    PathBit(p, k, level, idx);
  }

  lemma SisterBits(level: nat, idx: nat)
    requires 1 <= level <= 4 && idx < Pow2(level)
    ensures SisterIndex(idx) < Pow2(level) && idx / 2 < Pow2(level - 1)
    ensures BitsOf(level, SisterIndex(idx)) == BitsOf(level - 1, idx / 2) + [idx % 2 == 0]
  {
    var s := SisterIndex(idx);
    assert s / 2 == idx / 2 && (s % 2 == 1) == (idx % 2 == 0);
  }

  lemma PathBit(p: seq<bool>, k: Key, level: nat, idx: nat)
    requires 1 <= level && |p| + level <= 64 && idx < Pow2(level) && Path(k)[..|p| + level] == p + BitsOf(level, idx)
    ensures KeyBit(k, 64 - |p| - level) == (idx % 2 == 1)
  {
    var i := |p| + level - 1;
    assert Path(k)[..i + 1][i] == BitsOf(level, idx)[level - 1];
    assert Path(k)[i] == KeyBit(k, 63 - i);
  }

  lemma PathUp(p: seq<bool>, k: Key, level: nat, idx: nat)
    requires 1 <= level && |p| + level <= 64 && idx < Pow2(level) && Path(k)[..|p| + level] == p + BitsOf(level, idx)
    ensures idx / 2 < Pow2(level - 1) && Path(k)[..|p| + level - 1] == p + BitsOf(level - 1, idx / 2)
  {
    var q := p + BitsOf(level - 1, idx / 2);
    assert p + BitsOf(level, idx) == q + [idx % 2 == 1];
    assert Path(k)[..|p| + level][..|p| + level - 1] == q;
  }

  /** A sibling on the path is no taller default hash than that of its own height. */
  lemma NotTaller(h: Hash, m: Values, k: Key, n: nat, taller: nat)
    requires 4 <= n < taller <= 63 && Separated(m) && Injective(h, TreeInputs(h, m))
    ensures SiblingAt(h, m, k, n) != Default(h, taller)
  {
    var q := Path(k)[..63 - n] + [!KeyBit(k, n)];
    var e := EmptyLeaf(m, q);
    NeverTallerDefault(h, m, q, e, taller);
  }

  /** The siblings listed or left out on the way up through one node. */
  ghost function SisterList(h: Hash, t: Trie, p: seq<bool>, level: nat, idx: nat): (s: seq<Bytes>)
    requires t.Branch? && Fits(t, p) && level <= 4 && idx < Pow2(level)
    ensures |s| == level
  {
    if level == 0 then [] else [CacheAt(h, t, p, level, SisterIndex(idx))] + SisterList(h, t, p, level - 1, idx / 2)
  }

  function AddAll(h: Hash, pr: Proof, s: seq<Bytes>, n: nat): Proof
    requires |s| <= 4 && n + |s| <= 64
    decreases |s|
  {
    if s == [] then pr else AddAll(h, WithSister(h, pr, s[0], n, 64 - |s|), s[1..], n + 1)
  }

  lemma {:induction false} SistersAreAll(h: Hash, t: Trie, p: seq<bool>, level: nat, idx: nat, pr: Proof)
    requires t.Branch? && Fits(t, p) && level <= 4 && idx < Pow2(level)
    ensures AddSisters(h, t, p, level, idx, pr) == AddAll(h, pr, SisterList(h, t, p, level, idx), 64 - |p| - level)
  {
    if level > 0 {
      assert SisterList(h, t, p, level, idx)[1..] == SisterList(h, t, p, level - 1, idx / 2);
      SistersAreAll(h, t, p, level - 1, idx / 2, AddSister(h, t, p, level, idx, pr));
    }
  }

  /** They are the siblings on the path: the `i`-th is that at height `x`. */
  lemma {:induction false} SistersOnPath(h: Hash, t: Trie, p: seq<bool>, m: Values, k: Key, level: nat, idx: nat,
                                         i: nat, x: nat)
    requires t.Branch? && Fits(t, p) && Shows(Some(t), p, m) && level <= 4 && idx < Pow2(level) && i < level
    requires Path(k)[..|p| + level] == p + BitsOf(level, idx) && |p| + level + x == 64 + i
    ensures SisterList(h, t, p, level, idx)[i] == SiblingAt(h, m, k, x)
    decreases level
  {
    if i == 0 {
      SisterOnPath(h, t, p, m, k, level, idx);
    } else {
      PathUp(p, k, level, idx);
      SistersOnPath(h, t, p, m, k, level - 1, idx / 2, i - 1, x);
    }
  }

  /** The sibling at height `n + i` is `s[i]`. */
  predicate SiblingIs(h: Hash, m: Values, k: Key, n: nat, s: seq<Bytes>, i: nat)
    requires i < |s| && n + i < 64
  {
    s[i] == SiblingAt(h, m, k, n + i)
  }

  /** One sibling of the generated proof: when it is left out it is the default hash of its
      own height, because a subtree with an empty leaf has no taller default hash. */
  lemma OneSister(h: Hash, m: Values, pr: Proof, v: Bytes, n: nat, taller: nat, up: nat)
    requires up == n + 1 && (4 <= n <= taller <= 63 || (n == taller && n < 64))
    requires Separated(m) && Injective(h, TreeInputs(h, m)) && UpTo(h, m, pr, v, n)
    ensures UpTo(h, m, WithSister(h, pr, SiblingAt(h, m, pr.key, n), n, taller), v, up)
  {
    if n < taller { NotTaller(h, m, pr.key, n, taller); }
    if SiblingAt(h, m, pr.key, n) == Default(h, taller) {
      SkipSister(h, m, pr, v, n);
    } else {
      ListSister(h, m, pr, v, n);
    }
  }

  /** All siblings of one node carry the proof four heights up. */
  lemma {:induction false} AllUpTo(h: Hash, m: Values, pr: Proof, v: Bytes, n: nat, s: seq<Bytes>, top: nat)
    requires |s| <= 4 && n + |s| == top <= 64 && (top == 64 || n >= 4) && UpTo(h, m, pr, v, n)
    requires Separated(m) && Injective(h, TreeInputs(h, m))
    requires forall i {:trigger SiblingIs(h, m, pr.key, n, s, i)} :: 0 <= i < |s| ==> SiblingIs(h, m, pr.key, n, s, i)
    ensures UpTo(h, m, AddAll(h, pr, s, n), v, top) && AddAll(h, pr, s, n).key == pr.key
    decreases |s|
  {
    if s != [] {
      var up, rest := n + 1, s[1..];
      assert SiblingIs(h, m, pr.key, n, s, 0);
      var next := FirstUpTo(h, m, pr, v, n, s, up);
      forall i | 0 <= i < |rest| ensures SiblingIs(h, m, next.key, up, rest, i) {
        assert SiblingIs(h, m, pr.key, n, s, i + 1);
      }
      AllUpTo(h, m, next, v, up, rest, top);
    }
  }

  lemma FirstUpTo(h: Hash, m: Values, pr: Proof, v: Bytes, n: nat, s: seq<Bytes>, up: nat) returns (next: Proof)
    requires 1 <= |s| <= 4 && n + |s| <= 64 && (n + |s| == 64 || n >= 4) && UpTo(h, m, pr, v, n) && up == n + 1
    requires Separated(m) && Injective(h, TreeInputs(h, m)) && SiblingIs(h, m, pr.key, n, s, 0)
    ensures next.key == pr.key && UpTo(h, m, next, v, up) && AddAll(h, pr, s, n) == AddAll(h, next, s[1..], up)
  {
    next := WithSister(h, pr, s[0], n, 64 - |s|);
    OneSister(h, m, pr, v, n, 64 - |s|, up);
  }

  lemma AddSistersUpTo(h: Hash, t: Trie, p: seq<bool>, m: Values, w: nat, idx: nat, pr: Proof, v: Bytes, n: nat,
                       top: nat)
    requires t.Branch? && Fits(t, p) && Shows(Some(t), p, m) && |p| <= 56 && w == 4 && |p| + w + n == 64 && top == n + w
    requires Separated(m) && Injective(h, TreeInputs(h, m))
    requires idx < Pow2(w) && Path(pr.key)[..|p| + w] == p + BitsOf(w, idx) && UpTo(h, m, pr, v, n)
    ensures UpTo(h, m, AddSisters(h, t, p, w, idx, pr), v, top) && AddSisters(h, t, p, w, idx, pr).key == pr.key
  {
    var s := SisterList(h, t, p, w, idx);
    forall i | 0 <= i < w ensures SiblingIs(h, m, pr.key, n, s, i) {
      SistersOnPath(h, t, p, m, pr.key, w, idx, i, n + i);
    }
    SistersAreAll(h, t, p, w, idx, pr);
    AllUpTo(h, m, pr, v, n, s, top);
  }

  /** The empty proof checks up to the terminal's level. */
  lemma TermUpTo(h: Hash, t: Trie, q: seq<bool>, m: Values, n: nat)
    requires t.Term? && Fits(t, q) && Shows(Some(t), q, m) && |q| + n == 64
    ensures UpTo(h, m, Proof(t.key, [], 0), t.val, n)
  {
    TermRefines(h, t, q, m, n);
    EmptyUpTo(h, m, t.key, t.val, n);
  }

  lemma TermRefines(h: Hash, t: Trie, q: seq<bool>, m: Values, n: nat)
    requires t.Term? && Fits(t, q) && Shows(Some(t), q, m) && |q| + n == 64
    ensures PlainRoot(h, m, Path(t.key)[..64 - n]) == TermRoot(h, t.key, t.val, n)
  {
    RootRefines(h, t, q, m);
    assert Path(t.key)[..64 - n] == q;
  }

  lemma EmptyUpTo(h: Hash, m: Values, k: Key, v: Bytes, n: nat)
    requires n <= 64 && PlainRoot(h, m, Path(k)[..64 - n]) == TermRoot(h, k, v, n)
    ensures UpTo(h, m, Proof(k, [], 0), v, n)
  {
    RunDefaults(h, k, v, n);
    forall i: nat
      ensures ClearAt(0, n, i)
    {
      NoBits(i);
    }
  }

  /** The proof of a key is that from below with the siblings at this branch. */
  lemma GenAdds(h: Hash, t: Trie, p: seq<bool>, k: Key, w: nat, pr: Proof)
    requires t.Branch? && Fits(t, p) && w == 4 && t.kids[Slot(p, k)].Some? && Slot(p, k) < Pow2(w)
    requires var kid := t.kids[Slot(p, k)].value;
      if kid.Term? then pr == Proof(k, [], 0) else GenProof(h, kid, Below(p, k), k) == Some(pr)
    ensures GenProof(h, t, p, k) == Some(AddSisters(h, t, p, w, Slot(p, k), pr))
  {
  }

  lemma {:induction false} GenProofUpTo(h: Hash, t: Trie, p: seq<bool>, m: Values, k: Key, top: nat)
    requires t.Branch? && Fits(t, p) && Shows(Some(t), p, m) && Rootable(t, p) && Under(p, k) && |p| + top == 64
    requires Separated(m) && Injective(h, TreeInputs(h, m)) && k in m
    ensures GenProof(h, t, p, k).Some? && GenProof(h, t, p, k).value.key == k
    ensures UpTo(h, m, GenProof(h, t, p, k).value, m[k], top)
    decreases t, 0
  {
    var n := top - 4;
    var pr := BelowUpTo(h, t, p, m, k, 4, n);
    GenAdds(h, t, p, k, 4, pr);
    AddSistersUpTo(h, t, p, m, 4, Slot(p, k), pr, m[k], n, top);
  }

  /** The proof from below checks up to the slot of the key. */
  lemma {:induction false} BelowUpTo(h: Hash, t: Trie, p: seq<bool>, m: Values, k: Key, w: nat, n: nat)
    returns (pr: Proof)
    requires t.Branch? && Fits(t, p) && Shows(Some(t), p, m) && Rootable(t, p) && Under(p, k) && w == 4
    requires |p| + w + n == 64
    requires Separated(m) && Injective(h, TreeInputs(h, m)) && k in m
    ensures |p| <= 56 && Slot(p, k) < Pow2(w) && Path(k)[..|p| + w] == p + BitsOf(w, Slot(p, k))
    ensures t.kids[Slot(p, k)].Some? && pr.key == k && UpTo(h, m, pr, m[k], n)
    ensures var kid := t.kids[Slot(p, k)].value;
      if kid.Term? then pr == Proof(k, [], 0) else GenProof(h, kid, Below(p, k), k) == Some(pr)
    decreases t, 0, 0
  {
    SmallPowers();
    KeyBelow(p, k);
    assert ShowsAt(Some(t), p, m, k);
    KidShows(t, p, m, Slot(p, k));
    pr := KidUpTo(h, t.kids[Slot(p, k)].value, Below(p, k), m, k, n);
  }

  lemma {:induction false} KidUpTo(h: Hash, t: Trie, q: seq<bool>, m: Values, k: Key, n: nat) returns (pr: Proof)
    requires Fits(t, q) && Shows(Some(t), q, m) && Rootable(t, q) && Under(q, k) && |q| + n == 64
    requires Separated(m) && Injective(h, TreeInputs(h, m)) && k in m
    requires t.Term? ==> t.key == k && t.val == m[k]
    ensures if t.Term? then pr == Proof(k, [], 0) else GenProof(h, t, q, k) == Some(pr)
    ensures pr.key == k && UpTo(h, m, pr, m[k], n)
    decreases t, 1
  {
    pr := Proof(k, [], 0);
    if t.Term? {
      TermUpTo(h, t, q, m, n);
    } else {
      GenProofUpTo(h, t, q, m, k, n);
      pr := GenProof(h, t, q, k).value;
    }
  }

  /** Completeness: the checker accepts the proof generated for a key of the map, with the
      key's value, against the root. */
  lemma ProofComplete(h: Hash, t: Trie, m: Values, k: Key)
    requires t.Branch? && Fits(t, []) && Crowded(t, []) && Shows(Some(t), [], m)
    requires Separated(m) && Injective(h, TreeInputs(h, m)) && k in m
    ensures GenProof(h, t, [], k).Some?
    ensures Accepts(h, GenProof(h, t, [], k).value, m[k], RootOf(h, t, []))
  {
    RootableIff(t, m);
    GenProofUpTo(h, t, [], m, k, 64);
    RootRefines(h, t, [], m);
    assert Path(k)[..0] == [];
  }
}
