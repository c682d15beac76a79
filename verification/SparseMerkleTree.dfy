/** The tree over its nodes and a chunk store. */
module SparseMerkle {
  import opened Bytes
  import opened Keys
  import opened PlainTree
  import opened ProofCheck
  import opened Tries
  import opened TrieRoot
  import opened ProofGen
  import opened Chunk
  import opened History
  import opened NodeTree

  class SparseMerkleTree {
    const h: Hash
    const store: ChunkStore
    const defaults: seq<Bytes>
    var root: Node

    /** The tree stands for the trie of its root. A root without children has never been
        written to. */
    ghost predicate Valid()
      reads this, store, root, root.Repr
    {
      && |defaults| == 64 && (forall n :: 0 <= n < 64 ==> defaults[n] == Default(h, n))
      && root.Valid(h, store.chunks, []) && !root.terminal
      && Crowded(root.trie, [])
      && (root.trie.kids == NoKids() ==> root.Pristine([]) && !root.dirty)
    }

    constructor (h: Hash, store: ChunkStore)
      ensures this.h == h && this.store == store && Valid() && fresh(root) && fresh(root.Repr)
      ensures root.trie == Empty() && !root.unloaded && root.Repr == {root}
    {
      var d := ComputeDefaultHashes(h);
      var r := new Node(63);
      this.h, this.store, this.defaults, this.root := h, store, d, r;
    }

    /** Open the tree saved under a Merkle root. `t` is the trie that was saved. */
    method InitWithRoot(merkleRoot: Bytes, ghost t: Trie) returns (ok: bool)
      requires Valid() && root.trie == Empty() && !root.unloaded && root.Repr == {root}
      requires Opens(h, store.chunks, merkleRoot, t)
      modifies root
      ensures Valid() && root.Repr == old(root.Repr)
      ensures ok <==> merkleRoot in store.chunks && store.chunks[merkleRoot] != []
      ensures root.trie == if ok then Branch(t.kids, 0, 0) else Empty()
      ensures ok ==> root.hashed
    {
      var chunkHash, found := store.GetChunk(merkleRoot);
      if !found || chunkHash == [] {
        return false;
      }
      root.SetHash(h, chunkHash, t, store.chunks);
      ok := true;
    }

    method Insert(k: Key, v: Bytes, b: UInt64, n: UInt64)
      requires Valid()
      modifies root.Repr
      ensures Valid() && root.trie == WriteTrie(old(root.trie), Write(k, v, b, n)) && fresh(root.Repr - old(root.Repr))
    {
      root.Insert(h, store, k, v, 0, b, n, []);
      InsertCrowded(old(root.trie), [], k, v, b, n);
      assert root.trie.kids[Slot([], k)].Some?;
    }

    /** The proof for `k`, meant for a tree whose hashes are current. */
    method GenerateProof(k: Key) returns (ok: bool, pr: Proof)
      requires Valid()
      modifies root.Repr
      ensures Valid() && root.trie == old(root.trie) && fresh(root.Repr - old(root.Repr))
      ensures root.hashed == old(root.hashed)
      ensures ok <==> GenProof(h, root.trie, [], k).Some?
      ensures ok && root.hashed ==>
        pr == GenProof(h, root.trie, [], k).value && root.merkleRoot == RootOf(h, root.trie, [])
    {
      ok, pr := root.GenerateProof(h, store, k, 0, defaults, []);
    }

    method Lookup(k: Key) returns (v: Bytes, found: bool, b: UInt64, n: UInt64)
      requires Valid()
      modifies root.Repr
      ensures Valid() && root.trie == old(root.trie) && fresh(root.Repr - old(root.Repr))
      ensures root.hashed == old(root.hashed) && Node.Answer(v, found, b, n) == Find(root.trie, [], k)
    {
      v, found, b, n := root.Get(h, store, k, 0, []);
    }

    /** Look up a key; a key that is found comes with a proof, which the checker accepts when
        the tree has been flushed or reopened since the last write. */
    method Get(k: Key) returns (v: Bytes, found: bool, pr: Option<Proof>, b: UInt64, n: UInt64)
      requires Valid()
      modifies root.Repr
      ensures Valid() && root.trie == old(root.trie) && fresh(root.Repr - old(root.Repr))
      ensures root.hashed == old(root.hashed) && Node.Answer(v, found, b, n) == Find(root.trie, [], k)
      ensures found <==> pr.Some?
      ensures found && root.hashed && Provable(h, root.trie) ==>
        Accepts(h, pr.value, v, root.merkleRoot) && root.merkleRoot == RootOf(h, root.trie, [])
    {
      v, found, b, n := Lookup(k);
      pr := None;
      if found {
        FoundProof(h, root.trie, k);
        var ok, p := GenerateProof(k);
        pr := Some(p);
      }
    }

    /** Compute the root and save what is dirty. */
    method FlushNodes() returns (ok: bool)
      requires Valid() && Injective(h, ChunkSet(h, root.trie, []))
      modifies root.Repr, store
      ensures ok <==> Separated(ValuesIn(old(root.trie)))
      ensures ok ==> Valid() && root.trie == old(root.trie) && fresh(root.Repr - old(root.Repr))
      ensures ok ==> root.hashed && root.merkleRoot == RootOf(h, root.trie, []) && !root.dirty
      ensures ok ==> root.chunkHash == Pointer(h, root.trie)
      ensures ok ==> Grew(h, ChunkSet(h, root.trie, []), old(store.chunks), store.chunks)
      ensures ok && root.trie.kids != NoKids() ==> Stored(h, store.chunks, root.trie, [])
    {
      HoldsShows(root.trie, ItemsOf(root.trie));
      RootableIff(root.trie, ValuesIn(root.trie));
      ok := root.ComputeMerkleRoot(h, store, defaults, []);
      if ok {
        root.Flush(h, store, []);
      }
    }

    /** Flush: save the nodes and map the Merkle root to the top chunk. The code gets through
        exactly when no two keys share sixty bits; otherwise it panics. */
    method Flush() returns (ok: bool, chunkHash: Bytes)
      requires Valid() && Injective(h, ChunkSet(h, root.trie, []) + TreeInputs(h, ValuesIn(root.trie)))
      modifies root.Repr, store
      ensures ok <==> Separated(ValuesIn(old(root.trie)))
      ensures ok ==> Valid() && root.trie == old(root.trie) && fresh(root.Repr - old(root.Repr))
      ensures ok ==> root.hashed && root.merkleRoot == RootOf(h, root.trie, [])
      ensures ok ==> FlushStep(h, old(store.chunks), root.trie, store.chunks)
      ensures ok ==> chunkHash == Pointer(h, root.trie)
    {
      ghost var u := ChunkSet(h, root.trie, []) + TreeInputs(h, ValuesIn(root.trie));
      assert Injective(h, ChunkSet(h, root.trie, [])) by {
        forall x, y ensures NoClash(h, ChunkSet(h, root.trie, []), x, y) { assert NoClash(h, u, x, y); }
      }
      ok := FlushNodes();
      if !ok { return false, []; }
      chunkHash := root.chunkHash;
      MapRoot(u);
    }

    method MapRoot(ghost u: iset<Bytes>)
      requires Valid() && root.merkleRoot == RootOf(h, root.trie, [])
      requires Injective(h, u) && ChunkSet(h, root.trie, []) <= u && TreeInputs(h, ValuesIn(root.trie)) <= u
      modifies store
      ensures Valid() && store.chunks == old(store.chunks)[root.merkleRoot := root.chunkHash]
    {
      ghost var s := store.chunks;
      ghost var x := RootPair(h, root.trie);
      if x in ChunkSet(h, root.trie, []) {
        ChunkSize(h, root.trie, [], x);
      }
      EntryKeeps(h, ChunkSet(h, root.trie, []), u, s, x, root.chunkHash);
      store.SetChunk(root.merkleRoot, root.chunkHash);
      root.StaysValid(h, s, store.chunks, []);
    }
  }

  /** A root that is mapped is mapped to the chunk of a savable, stored trie `t`. */
  ghost predicate Opens(h: Hash, s: Store, merkleRoot: Bytes, t: Trie) {
    merkleRoot in s && s[merkleRoot] != [] ==>
      && t.Branch? && Fits(t, []) && Crowded(t, []) && t.kids != NoKids()
      && Stored(h, s, t, []) && s[merkleRoot] == ChunkId(h, t, [])
      && TermsSavable(t) && NoZeroHash(h, ChunkSet(h, t, []))
  }

  /** A fresh tree opened at a root. */
  method OpenAt(h: Hash, store: ChunkStore, merkleRoot: Bytes, ghost t: Trie) returns (r: SparseMerkleTree, ok: bool)
    requires Opens(h, store.chunks, merkleRoot, t)
    ensures r.Valid() && fresh(r) && r.h == h && r.store == store && fresh(r.root.Repr)
    ensures ok <==> merkleRoot in store.chunks && store.chunks[merkleRoot] != []
    ensures r.root.trie == if ok then Branch(t.kids, 0, 0) else Empty()
    ensures ok ==> r.root.hashed
  {
    r := new SparseMerkleTree(h, store);
    ok := r.InitWithRoot(merkleRoot, t);
  }

  lemma FlushedOpens(h: Hash, s: Store, t: Trie, s': Store)
    requires t.Branch? && Fits(t, []) && Savable(ItemsOf(t)) && Crowded(t, []) && FlushStep(h, s, t, s')
    requires Injective(h, ChunkSet(h, t, []) + TreeInputs(h, ValuesIn(t))) && NoZeroHash(h, ChunkSet(h, t, []))
    ensures Opens(h, s', RootOf(h, t, []), t)
    ensures RootOf(h, t, []) in s' && (s'[RootOf(h, t, [])] == [] <==> t.kids == NoKids())
  {
    FlushSaves(h, ChunkSet(h, t, []) + TreeInputs(h, ValuesIn(t)), s, t, s');
    SavableTerms(t);
  }

  /** Persistence round trip: flush a tree and open a fresh one at its Merkle root. The new
      tree answers every lookup as the old one does. */
  method Reopen(t: SparseMerkleTree) returns (r: SparseMerkleTree?)
    requires t.Valid() && Savable(ItemsOf(t.root.trie))
    requires Injective(t.h, ChunkSet(t.h, t.root.trie, []) + TreeInputs(t.h, ValuesIn(t.root.trie)))
    requires NoZeroHash(t.h, ChunkSet(t.h, t.root.trie, []))
    modifies t.root.Repr, t.store
    ensures r != null <==> Separated(ValuesIn(old(t.root.trie)))
    ensures r != null ==> t.Valid() && t.root.trie == old(t.root.trie) && r.Valid() && fresh(r) && r.store == t.store
    ensures r != null ==> forall k: Key :: Find(r.root.trie, [], k) == Find(t.root.trie, [], k)
    ensures r != null && t.root.trie.kids != NoKids() ==> r.root.hashed
  {
    ghost var s, trie := t.store.chunks, t.root.trie;
    var ok, _ := t.Flush();
    if !ok { return null; }
    FlushedOpens(t.h, s, trie, t.store.chunks);
    r, ok := OpenAt(t.h, t.store, t.root.merkleRoot, trie);
    SameFind(trie, r.root.trie);
  }

  lemma SameFind(t: Trie, r: Trie)
    requires t.Branch? && Fits(t, []) && r.Branch? && r.kids == t.kids
    ensures Fits(r, []) && forall k: Key :: Find(r, [], k) == Find(t, [], k)
  {
  }

  /** What completeness of proofs needs of a trie. */
  ghost predicate Provable(h: Hash, t: Trie)
    requires t.Branch? && Fits(t, [])
  {
    Separated(ValuesIn(t)) && Injective(h, TreeInputs(h, ValuesIn(t)))
  }

  lemma FoundProof(h: Hash, t: Trie, k: Key)
    requires t.Branch? && Fits(t, []) && Crowded(t, []) && Find(t, [], k).Some?
    ensures GenProof(h, t, [], k).Some?
    ensures Provable(h, t) ==> Accepts(h, GenProof(h, t, [], k).value, Find(t, [], k).value.val, RootOf(h, t, []))
  {
    FoundGen(h, t, [], k);
    if Provable(h, t) {
      HoldsShows(t, ItemsOf(t));
      assert Under([], k) && Find(t, [], k) == Get(ItemsOf(t), k);
      ProofComplete(h, t, ValuesIn(t), k);
    }
  }

  lemma {:induction false} FoundGen(h: Hash, t: Trie, p: seq<bool>, k: Key)
    requires t.Branch? && Fits(t, p) && Find(t, p, k).Some?
    ensures GenProof(h, t, p, k).Some?
    decreases t
  {
    var o := t.kids[Slot(p, k)];
    if o.value.Branch? {
      FoundGen(h, o.value, Below(p, k), k);
    }
  }
}
