/** The nodes of the tree as objects: loaded lazily, changed in place, hashed and flushed. */
module NodeTree {
  import opened Bytes
  import opened Keys
  import opened PlainTree
  import opened ProofCheck
  import opened Tries
  import opened TrieRoot
  import opened ProofGen
  import opened Chunk
  import opened History

  /** The chunk store: a map from keys to bytes whose writes succeed. */
  class ChunkStore {
    var chunks: Store

    constructor ()
      ensures chunks == map[]
    {
      chunks := map[];
    }

    method GetChunk(id: Bytes) returns (chunk: Bytes, ok: bool)
      ensures ok <==> id in chunks
      ensures ok ==> chunk == chunks[id]
    {
      ok := id in chunks;
      chunk := if ok then chunks[id] else [];
    }

    method SetChunk(id: Bytes, chunk: Bytes)
      modifies this
      ensures chunks == old(chunks)[id := chunk]
    {
      chunks := chunks[id := chunk];
    }
  }

  function KidPath(p: seq<bool>, j: nat): (q: seq<bool>)
    ensures |q| == |p| + 4
  {
    p + BitsOf(4, j)
  }

  /** The row is the one saved for `kid`. */
  ghost predicate RowReads(h: Hash, s: Store, kid: Trie, q: seq<bool>, r: Row)
    requires Fits(kid, q)
  {
    && r.bytes == kid.bytes && r.block == kid.block && r.root == RootOf(h, kid, q)
    && (kid.Term? ==> r.key == kid.key && r.key != Zeros(8) && r.hash == kid.val)
    && (kid.Branch? ==> r.key == Zeros(8) && r.hash == ChunkId(h, kid, q) && Stored(h, s, kid, q)
                        && TermsSavable(kid) && NoZeroHash(h, ChunkSet(h, kid, q)))
  }

  lemma SavedRow(h: Hash, s: Store, t: Trie, p: seq<bool>, j: nat)
    requires t.Branch? && Fits(t, p) && Stored(h, s, t, p) && j < 16
    requires TermsSavable(t) && NoZeroHash(h, ChunkSet(h, t, p))
    ensures t.kids[j].None? <==> RowAt(ChunkOf(h, t, p), j).hash == Zeros(32)
    ensures t.kids[j].Some? ==> RowReads(h, s, t.kids[j].value, KidPath(p, j), RowAt(ChunkOf(h, t, p), j))
  {
    ReadRow(h, t, p, j);
    if t.kids[j].Some? {
      RootSize(h, t.kids[j].value, KidPath(p, j));
      if t.kids[j].value.Branch? {
        KidChunkId(h, t, p, j);
      }
    }
  }

  /** A signed 64-bit number taken as an unsigned one. */
  function Unsigned(x: int): (r: nat)
    requires -(TWO_64 / 2) <= x < TWO_64 / 2
  {
    if x < 0 then x + TWO_64 else x
  }

  class Node {
    var level: int
    var chunkHash: Bytes
    var merkleRoot: Bytes
    var unloaded: bool
    var terminal: bool
    var key: Bytes
    var dirty: bool
    var storageBytes: UInt64
    var blockNum: UInt64
    var mrcache: seq<seq<Bytes>>
    var children: seq<Node?>

    /** The trie this node stands for, loaded or not, and the nodes it is made of. */
    ghost var trie: Trie
    ghost var Repr: set<Node>

    /** Whether the hashes kept below this node are known to be current. */
    ghost var hashed: bool

    /** The node stands for its trie at path `p`, over the store `s`. */
    ghost predicate Valid(h: Hash, s: Store, p: seq<bool>)
      reads this, Repr
      decreases Repr
    {
      && this in Repr
      && |children| == 16 && level == 63 - |p| && Fits(trie, p)
      && storageBytes == trie.bytes && blockNum == trie.block
      && (terminal ==> trie.Term? && trie.key == key && trie.val == chunkHash && !unloaded)
      && (!terminal ==> trie.Branch?)
      && (terminal || unloaded ==> Repr == {this} && forall j :: 0 <= j < 16 ==> children[j] == null)
      && (unloaded ==> hashed && !dirty && TermsSavable(trie) && NoZeroHash(h, ChunkSet(h, trie, p)) && Saved(h, s, p))
      && (!terminal && !dirty ==> Pristine(p) || Saved(h, s, p))
      && (!terminal && !unloaded ==>
            && Slots()
            && Apart()
            && (hashed ==> KidsHashed(h, p))
            && forall j :: 0 <= j < 16 && children[j] != null ==> children[j].Valid(h, s, KidPath(p, j)))
    }

    /** The branch is in the store, under this node's hash. */
    ghost predicate Saved(h: Hash, s: Store, p: seq<bool>)
      requires Fits(trie, p)
      reads this
    {
      trie.Branch? && Stored(h, s, trie, p) && chunkHash == ChunkId(h, trie, p)
    }

    /** A root that never held a key. */
    ghost predicate Pristine(p: seq<bool>)
      reads this
    {
      p == [] && trie.Branch? && trie.kids == NoKids() && chunkHash == []
    }

    /** Each child is a slot of the trie and a proper part of this node. */
    ghost predicate Slots()
      requires this in Repr && |children| == 16 && trie.Branch? && |trie.kids| == 16
      reads this, Repr
    {
      forall j :: 0 <= j < 16 ==>
        if children[j] == null then trie.kids[j] == None
        else children[j] in Repr && children[j].Repr <= Repr && this !in children[j].Repr
             && trie.kids[j] == Some(children[j].trie)
    }

    /** Different children have nothing in common. */
    ghost predicate Apart()
      requires |children| == 16
      reads this, Repr
    {
      forall i, j :: 0 <= i < j < 16 && children[i] in Repr && children[j] in Repr ==>
        children[i].Repr !! children[j].Repr
    }

    constructor (level: int)
      ensures this.level == level && children == seq(16, i => null) && !terminal && !dirty && !unloaded
      ensures storageBytes == 0 && blockNum == 0 && chunkHash == [] && merkleRoot == [] && key == []
      ensures trie == Empty() && Repr == {this} && !hashed
    {
      this.level := level;
      children := seq(16, i => null);
      terminal, dirty, unloaded := false, false, false;
      storageBytes, blockNum := 0, 0;
      chunkHash, merkleRoot, key, mrcache := [], [], [], [];
      trie := Empty();
      Repr := {this};
      hashed := false;
    }

    /** A child read from a row of its parent's chunk: a terminal if the row has a key. */
    constructor FromRow(h: Hash, r: Row, level: int, ghost s: Store, ghost kid: Trie, ghost q: seq<bool>)
      requires Fits(kid, q) && level == 63 - |q| && RowReads(h, s, kid, q, r)
      ensures Repr == {this} && trie == kid
      ensures Valid(h, s, q) && RootKept(h, q) && hashed
    {
      this.level := level;
      children := seq(16, i => null);
      terminal, unloaded, dirty := r.key != Zeros(8), r.key == Zeros(8), false;
      key := if r.key == Zeros(8) then [] else r.key;
      chunkHash, storageBytes, merkleRoot, blockNum := r.hash, r.bytes, r.root, r.block;
      mrcache := [];
      trie := kid;
      Repr := {this};
      hashed := true;
    }

    /** A fresh terminal. */
    constructor Terminal(h: Hash, level: int, k: Key, v: Bytes, b: UInt64, n: UInt64, ghost s: Store,
                         ghost q: seq<bool>)
      requires Under(q, k) && level == 63 - |q|
      ensures Repr == {this} && trie == Term(k, v, b, n) && Valid(h, s, q) && dirty
    {
      this.level := level;
      children := seq(16, i => null);
      terminal, unloaded, dirty := true, false, true;
      key, chunkHash, storageBytes, blockNum := k, v, b, n;
      merkleRoot, mrcache := [], [];
      trie := Term(k, v, b, n);
      Repr := {this};
      hashed := false;
    }

    /** The hashes kept in the children are their Merkle roots, and so on below them. */
    ghost predicate KidsHashed(h: Hash, p: seq<bool>)
      reads this, Repr
    {
      forall j :: 0 <= j < |children| && children[j] in Repr ==>
        children[j].hashed && children[j].RootKept(h, KidPath(p, j))
    }

    ghost predicate RootKept(h: Hash, q: seq<bool>)
      reads this
    {
      Fits(trie, q) && merkleRoot == RootOf(h, trie, q)
    }

    /** Make a fresh root stand for the trie `t` saved under `hash`; nothing is read yet. */
    method SetHash(h: Hash, hash: Bytes, ghost t: Trie, ghost s: Store)
      requires Valid(h, s, []) && !terminal && !unloaded && trie == Empty()
      requires t.Branch? && Fits(t, []) && Stored(h, s, t, []) && hash == ChunkId(h, t, [])
      requires TermsSavable(t) && NoZeroHash(h, ChunkSet(h, t, [])) && !dirty && Repr == {this}
      modifies this
      ensures Valid(h, s, []) && trie == Branch(t.kids, 0, 0) && unloaded && hashed && !terminal && !dirty
      ensures Repr == old(Repr)
    {
      SameChunk(h, s, t, Branch(t.kids, 0, 0), []);
      StandFor(hash, Branch(t.kids, 0, 0));
    }

    method StandFor(hash: Bytes, ghost t: Trie)
      modifies this`unloaded, this`chunkHash, this`trie, this`hashed
      ensures unloaded && chunkHash == hash && trie == t && hashed
    {
      unloaded := true;
      chunkHash := hash;
      trie := t;
      hashed := true;
    }

    /** `c` is a child read from the store for the slot at path `q`. */
    static ghost predicate Read(h: Hash, s: Store, q: seq<bool>, o: Option<Trie>, c: Node?)
      reads c, if c == null then {} else c.Repr
    {
      if c == null then o == None
      else
        && c.Repr == {c} && o == Some(c.trie)
        && c.Valid(h, s, q) && c.RootKept(h, q) && c.hashed
    }

    /** The children of a saved branch, row by row. */
    static method ReadChildren(h: Hash, chunk: Bytes, level: int, ghost s: Store, ghost t: Trie, ghost p: seq<bool>)
      returns (cs: seq<Node?>)
      requires t.Branch? && Fits(t, p) && Stored(h, s, t, p) && chunk == ChunkOf(h, t, p) && level == 63 - |p|
      requires TermsSavable(t) && NoZeroHash(h, ChunkSet(h, t, p))
      ensures |cs| == 16
      ensures forall j :: 0 <= j < 16 ==> Read(h, s, KidPath(p, j), t.kids[j], cs[j])
      ensures forall j :: 0 <= j < 16 && cs[j] != null ==> fresh(cs[j])
      ensures forall i, j :: 0 <= i < j < 16 && cs[i] != null ==> cs[i] != cs[j]
    {
      cs := [];
      for j := 0 to 16
        invariant |cs| == j
        invariant forall i :: 0 <= i < j ==> Read(h, s, KidPath(p, i), t.kids[i], cs[i])
        invariant forall i :: 0 <= i < j && cs[i] != null ==> fresh(cs[i])
        invariant forall i, k :: 0 <= i < k < j && cs[i] != null ==> cs[i] != cs[k]
      {
        var c := ReadChild(h, chunk, level, j, s, t, p);
        cs := cs + [c];
      }
    }

    /** The child of row `j`, if there is one. */
    static method ReadChild(h: Hash, chunk: Bytes, level: int, j: nat, ghost s: Store, ghost t: Trie,
                            ghost p: seq<bool>)
      returns (c: Node?)
      requires t.Branch? && Fits(t, p) && Stored(h, s, t, p) && chunk == ChunkOf(h, t, p) && level == 63 - |p| && j < 16
      requires TermsSavable(t) && NoZeroHash(h, ChunkSet(h, t, p))
      ensures Read(h, s, KidPath(p, j), t.kids[j], c) && (c != null ==> fresh(c))
    {
      SavedRow(h, s, t, p, j);
      var r := RowAt(chunk, j);
      if r.hash == Zeros(32) {
        return null;
      }
      c := new Node.FromRow(h, r, level - 4, s, t.kids[j].value, KidPath(p, j));
    }

    /** A branch whose children were all just read is valid. */
    lemma ReadValid(h: Hash, s: Store, p: seq<bool>)
      requires |children| == 16 && level == 63 - |p| && Fits(trie, p) && trie.Branch? && !terminal && !unloaded
      requires storageBytes == trie.bytes && blockNum == trie.block && (!dirty ==> Saved(h, s, p))
      requires Repr == {this} + set j | 0 <= j < 16 && children[j] != null :: children[j]
      requires forall j :: 0 <= j < 16 ==> children[j] != this && Read(h, s, KidPath(p, j), trie.kids[j], children[j])
      requires forall i, j :: 0 <= i < j < 16 && children[i] != null ==> children[i] != children[j]
      ensures Valid(h, s, p)
    {
      forall j | 0 <= j < 16
        ensures if children[j] == null then trie.kids[j] == None
                else children[j] in Repr && children[j].Repr <= Repr && this !in children[j].Repr
                     && trie.kids[j] == Some(children[j].trie) && children[j].Valid(h, s, KidPath(p, j))
      {
        assert Read(h, s, KidPath(p, j), trie.kids[j], children[j]);
      }
      assert Apart() by {
        forall i, j | 0 <= i < j < 16 && children[i] in Repr && children[j] in Repr
          ensures children[i].Repr !! children[j].Repr
        {
          assert Read(h, s, KidPath(p, i), trie.kids[i], children[i]);
          assert Read(h, s, KidPath(p, j), trie.kids[j], children[j]);
        }
      }
      forall j | 0 <= j < 16 && children[j] in Repr
        ensures children[j].hashed && children[j].RootKept(h, KidPath(p, j))
      {
        assert Read(h, s, KidPath(p, j), trie.kids[j], children[j]);
      }
    }

    /** Read the children from the store, unless that was done before. */
    method Load(h: Hash, pcs: ChunkStore, ghost p: seq<bool>)
      requires Valid(h, pcs.chunks, p)
      modifies this
      ensures Valid(h, pcs.chunks, p) && !unloaded && trie == old(trie)
      ensures fresh(Repr - old(Repr)) && old(Repr) <= Repr
      ensures terminal == old(terminal) && dirty == old(dirty) && merkleRoot == old(merkleRoot)
      ensures chunkHash == old(chunkHash)
      ensures hashed == old(hashed)
      ensures !old(unloaded) ==> unchanged(this)
    {
      if !unloaded {
        return;
      }
      var chunk, ok := pcs.GetChunk(chunkHash);
      assert ok;
      var cs := ReadChildren(h, chunk, level, pcs.chunks, trie, p);
      SetChildren(cs);
      ReadValid(h, pcs.chunks, p);
    }

    method SetChildren(cs: seq<Node?>)
      requires |cs| == 16
      modifies this`children, this`unloaded, this`Repr
      ensures children == cs && !unloaded
      ensures Repr == {this} + set j | 0 <= j < 16 && cs[j] != null :: cs[j]
    {
      children, unloaded := cs, false;
      Repr := {this} + set j | 0 <= j < 16 && cs[j] != null :: cs[j];
    }

    /** The sum of the children's storage. */
    static method SumChildren(cs: seq<Node?>, ghost kids: seq<Option<Trie>>) returns (tot: UInt64)
      requires |cs| == |kids| == 16
      requires forall j :: 0 <= j < 16 ==> SlotTrie(cs[j]) == kids[j]
      requires forall j :: 0 <= j < 16 && cs[j] != null ==> cs[j].storageBytes == cs[j].trie.bytes
      ensures tot == Tot(kids)
    {
      tot := 0;
      for i := 0 to 16
        invariant tot == Tot(kids[..i])
      {
        TotStep(kids, i);
        if cs[i] != null {
          tot := (tot + cs[i].storageBytes) % TWO_64;
        }
      }
      assert kids[..16] == kids;
    }

    /** Write a new value into a terminal. */
    method Overwrite(h: Hash, v: Bytes, b: UInt64, n: UInt64, ghost s: Store, ghost q: seq<bool>)
      requires Valid(h, s, q) && terminal
      modifies this
      ensures Valid(h, s, q) && Repr == old(Repr)
      ensures trie == Term(old(trie).key, v, (old(trie).bytes + b) % TWO_64, n)
    {
      dirty := true;
      chunkHash := v;
      blockNum := n;
      storageBytes := (storageBytes + b) % TWO_64;
      trie := Term(trie.key, v, storageBytes, n);
    }

    /** Turn a terminal into a branch without children. */
    method Open(h: Hash, ghost s: Store, ghost q: seq<bool>)
      requires Valid(h, s, q) && terminal && |q| <= 60 && |q| % 4 == 0
      modifies this
      ensures Valid(h, s, q) && Repr == old(Repr) && !terminal
      ensures trie == Branch(NoKids(), old(trie).bytes, old(trie).block)
      ensures key == old(key) && chunkHash == old(chunkHash) && storageBytes == old(storageBytes)
      ensures blockNum == old(blockNum)
    {
      dirty := true;
      terminal := false;
      trie := Branch(NoKids(), trie.bytes, trie.block);
    }

    /** What a slot stands for. */
    static ghost function SlotTrie(c: Node?): Option<Trie>
      reads c
    {
      if c == null then None else Some(c.trie)
    }

    /** Insert into the slot held by `c`; a terminal with another key is split. */
    static method InsertInto(h: Hash, pcs: ChunkStore, c: Node?, level: int, k: Key, v: Bytes, i: nat, b: UInt64,
                             n: UInt64, ghost q: seq<bool>)
      returns (r: Node)
      requires c != null ==> c.Valid(h, pcs.chunks, q)
      requires |q| == 4 * i && 4 <= |q| <= 64 && Under(q, k) && level == 63 - |q|
      modifies if c == null then {} else c.Repr
      ensures r.Valid(h, pcs.chunks, q)
      ensures r.trie == InsertKid(old(SlotTrie(c)), q, k, v, b, n)
      ensures if c == null then fresh(r.Repr) else r == c && fresh(r.Repr - old(c.Repr))
      decreases 64 - |q|, 0
    {
      if c == null {
        r := new Node.Terminal(h, level, k, v, b, n, pcs.chunks, q);
        return;
      }
      r := c;
      if c.terminal {
        if c.key == k {
          if c.chunkHash != v {
            c.Overwrite(h, v, b, n, pcs.chunks, q);
          }
        } else {
          c.Split(h, pcs, k, v, i, b, n, q);
        }
      } else {
        c.Insert(h, pcs, k, v, i, b, n, q);
      }
    }

    /** Turn a terminal into a branch that holds its own key and another one. */
    method Split(h: Hash, pcs: ChunkStore, k: Key, v: Bytes, i: nat, b: UInt64, n: UInt64, ghost q: seq<bool>)
      requires Valid(h, pcs.chunks, q) && terminal && key != k
      requires |q| == 4 * i && 4 <= |q| <= 64 && Under(q, k)
      modifies Repr
      ensures Valid(h, pcs.chunks, q) && trie == InsertKid(Some(old(trie)), q, k, v, b, n)
      ensures fresh(Repr - old(Repr))
      decreases 60 - |q|, 4
    {
      RoomToSplit(q, k, key);
      Open(h, pcs.chunks, q);
      Insert(h, pcs, key, chunkHash, i, storageBytes, blockNum, q);
      Insert(h, pcs, k, v, i, b, n, q);
    }

    /** A loaded branch that is valid but for slot `idx`, and a valid node to put there. */
    ghost predicate Ready(h: Hash, s: Store, p: seq<bool>, idx: nat, r: Node)
      reads this, Repr, r, r.Repr
    {
      && this in Repr && |children| == 16 && level == 63 - |p| && Fits(trie, p) && trie.Branch?
      && !terminal && !unloaded && blockNum == trie.block && idx < 16
      && r.Valid(h, s, KidPath(p, idx)) && this !in r.Repr
      && (forall j :: 0 <= j < 16 && j != idx ==>
            if children[j] == null then trie.kids[j] == None
            else children[j] in Repr && children[j].Repr <= Repr && this !in children[j].Repr
                 && trie.kids[j] == Some(children[j].trie) && children[j].Repr !! r.Repr)
      && (forall i, j :: 0 <= i < j < 16 && i != idx && j != idx && children[i] in Repr && children[j] in Repr ==>
            children[i].Repr !! children[j].Repr)
      && (forall j :: 0 <= j < 16 && j != idx && children[j] in Repr ==> children[j].Valid(h, s, KidPath(p, j)))
    }

    /** Put `r` into its slot and add up the storage again. */
    method Attach(h: Hash, idx: nat, r: Node, ghost s: Store, ghost p: seq<bool>, ghost t: Trie)
      requires Ready(h, s, p, idx, r)
      requires var kids := trie.kids[idx := Some(r.trie)]; t == Branch(kids, Tot(kids), trie.block)
      modifies this
      ensures Valid(h, s, p) && !terminal && !unloaded && dirty
      ensures Repr == old(Repr) + r.Repr
      ensures trie == t
    {
      ghost var kids := trie.kids[idx := Some(r.trie)];
      var cs := children[idx := r];
      var tot := SumChildren(cs, kids);
      FitsWithKid(trie, p, idx, r.trie, tot, trie.block);
      Grow(h, idx, r, cs, tot, t, s, p);
      Regrow(h, s, p, idx);
    }

    method Grow(h: Hash, idx: nat, r: Node, cs: seq<Node?>, tot: UInt64, ghost t: Trie, ghost s: Store,
                ghost p: seq<bool>)
      requires Ready(h, s, p, idx, r) && cs == children[idx := r] && Fits(t, p)
      requires t == Branch(trie.kids[idx := Some(r.trie)], tot, trie.block)
      modifies `dirty, `children, `storageBytes, `trie, `hashed
      ensures Ready(h, s, p, idx, r) && dirty && !hashed && children == cs && storageBytes == tot && trie == t
    {
      Update(cs, tot, t);
    }

    /** The writes of an insert to this node. */
    method Update(cs: seq<Node?>, tot: UInt64, ghost t: Trie)
      modifies `dirty, `children, `storageBytes, `trie, `hashed
      ensures dirty && !hashed && children == cs && storageBytes == tot && trie == t
    {
      dirty, children, storageBytes := true, cs, tot;
      trie, hashed := t, false;
    }

    /** Insert below this branch, `i` nibbles down. */
    method Insert(h: Hash, pcs: ChunkStore, k: Key, v: Bytes, i: nat, b: UInt64, n: UInt64, ghost p: seq<bool>)
      requires Valid(h, pcs.chunks, p) && !terminal && |p| == 4 * i && Under(p, k)
      modifies Repr
      ensures Valid(h, pcs.chunks, p) && !terminal && !unloaded && dirty
      ensures trie == Tries.Insert(old(trie), p, k, v, b, n)
      ensures fresh(Repr - old(Repr))
      decreases 60 - |p|, 3
    {
      if unloaded {
        Load(h, pcs, p);
      }
      InsertLoaded(h, pcs, k, v, i, b, n, p);
    }

    method InsertLoaded(h: Hash, pcs: ChunkStore, k: Key, v: Bytes, i: nat, b: UInt64, n: UInt64, ghost p: seq<bool>)
      requires Valid(h, pcs.chunks, p) && !terminal && !unloaded && |p| == 4 * i && Under(p, k)
      modifies Repr
      ensures Valid(h, pcs.chunks, p) && !terminal && !unloaded && dirty
      ensures trie == Tries.Insert(old(trie), p, k, v, b, n)
      ensures fresh(Repr - old(Repr))
      decreases 60 - |p|, 2
    {
      KeyBelow(p, k);
      var idx := KeyPiece(k, i);
      var r := InsertBelow(h, pcs, k, v, i, b, n, idx, p);
      InsertInSlot(trie, p, k, v, b, n, r.trie);
      Attach(h, idx, r, pcs.chunks, p, Tries.Insert(trie, p, k, v, b, n));
    }

    /** The part of an insert that happens below this branch. */
    method InsertBelow(h: Hash, pcs: ChunkStore, k: Key, v: Bytes, i: nat, b: UInt64, n: UInt64, idx: nat,
                       ghost p: seq<bool>)
      returns (r: Node)
      requires Valid(h, pcs.chunks, p) && !terminal && !unloaded && |p| == 4 * i && Under(p, k)
      requires i < 16 && idx == KeyPiece(k, i) && Under(KidPath(p, idx), k)
      modifies Repr - {this}
      ensures Ready(h, pcs.chunks, p, idx, r) && unchanged(this)
      ensures r.trie == InsertKid(trie.kids[idx], KidPath(p, idx), k, v, b, n)
      ensures fresh(r.Repr - Repr)
      decreases 60 - |p|, 1
    {
      r := InsertInto(h, pcs, children[idx], level - 4, k, v, i + 1, b, n, KidPath(p, idx));
    }

    // ----- Lookup -----

    /** Take in the nodes that a child has loaded. */
    ghost method Regrow(h: Hash, s: Store, p: seq<bool>, idx: nat)
      requires idx < |children| && children[idx] != null && Ready(h, s, p, idx, children[idx])
      requires trie.kids[idx] == Some(children[idx].trie) && storageBytes == trie.bytes
      requires (!dirty ==> Pristine(p) || Saved(h, s, p)) && (hashed ==> children[idx] in Repr && KidsHashed(h, p))
      modifies this`Repr
      ensures Valid(h, s, p) && Repr == old(Repr) + children[idx].Repr
    {
      Repr := Repr + children[idx].Repr;
    }

    /** What a lookup gives back, as an item. */
    static function Answer(v: Bytes, ok: bool, b: UInt64, n: UInt64): Option<Item> {
      if ok then Some(Item(v, b, n)) else None
    }

    /** A lookup goes to one slot. */
    static lemma FindInSlot(t: Trie, p: seq<bool>, k: Key, idx: nat)
      requires t.Branch? && Fits(t, p) && idx == Slot(p, k)
      ensures Find(t, p, k) == FindKid(t.kids[idx], KidPath(p, idx), k)
    {
    }

    /** The value held for a key, with its storage and block number. */
    method Get(h: Hash, pcs: ChunkStore, k: Key, i: nat, ghost p: seq<bool>)
      returns (v: Bytes, ok: bool, b: UInt64, n: UInt64)
      requires Valid(h, pcs.chunks, p) && !terminal && |p| == 4 * i
      modifies Repr
      ensures Valid(h, pcs.chunks, p) && !terminal && !unloaded && trie == old(trie) && fresh(Repr - old(Repr))
      ensures merkleRoot == old(merkleRoot) && hashed == old(hashed) && dirty == old(dirty)
      ensures chunkHash == old(chunkHash)
      ensures Answer(v, ok, b, n) == Find(trie, p, k)
      decreases 60 - |p|, 2
    {
      Load(h, pcs, p);
      var idx := KeyPiece(k, i);
      FindInSlot(trie, p, k, idx);
      v, ok, b, n := GetAt(h, pcs, k, i, idx, p);
    }

    method GetAt(h: Hash, pcs: ChunkStore, k: Key, i: nat, idx: nat, ghost p: seq<bool>)
      returns (v: Bytes, ok: bool, b: UInt64, n: UInt64)
      requires Valid(h, pcs.chunks, p) && !terminal && !unloaded && |p| == 4 * i && i < 16 && idx == KeyPiece(k, i)
      modifies Repr
      ensures Valid(h, pcs.chunks, p) && !terminal && !unloaded && trie == old(trie) && fresh(Repr - old(Repr))
      ensures merkleRoot == old(merkleRoot) && hashed == old(hashed) && dirty == old(dirty)
      ensures chunkHash == old(chunkHash)
      ensures Answer(v, ok, b, n) == FindKid(trie.kids[idx], KidPath(p, idx), k)
      decreases 60 - |p|, 1
    {
      var c := children[idx];
      if c == null {
        return [], false, 0, 0;
      }
      if c.terminal {
        if c.key == k {
          return c.chunkHash, true, c.storageBytes, c.blockNum;
        }
        return [], false, 0, 0;
      }
      v, ok, b, n := GetBelow(h, pcs, k, i, idx, p);
      Regrow(h, pcs.chunks, p, idx);
    }

    method GetBelow(h: Hash, pcs: ChunkStore, k: Key, i: nat, idx: nat, ghost p: seq<bool>)
      returns (v: Bytes, ok: bool, b: UInt64, n: UInt64)
      requires Valid(h, pcs.chunks, p) && !terminal && !unloaded && |p| == 4 * i
      requires i < 16 && idx == KeyPiece(k, i) && children[idx] != null && !children[idx].terminal
      modifies Repr - {this}
      ensures unchanged(this) && Ready(h, pcs.chunks, p, idx, children[idx])
      ensures trie.kids[idx] == Some(children[idx].trie) && fresh(children[idx].Repr - Repr)
      ensures hashed ==> KidsHashed(h, p)
      ensures Answer(v, ok, b, n) == FindKid(trie.kids[idx], KidPath(p, idx), k)
      decreases 60 - |p|, 0
    {
      v, ok, b, n := children[idx].Get(h, pcs, k, i + 1, KidPath(p, idx));
    }

    // ----- Merkle roots -----

    /** The children's hashes, with the default for a free slot: the bottom of the cache. */
    method Leaves(h: Hash, defaults: seq<Bytes>, ghost s: Store, ghost p: seq<bool>) returns (leaves: seq<Bytes>)
      requires Valid(h, s, p) && !terminal && !unloaded
      requires |defaults| == 64 && forall n :: 0 <= n < 64 ==> defaults[n] == Default(h, n)
      ensures |leaves| == 16
      ensures hashed ==> forall j :: 0 <= j < 16 ==> leaves[j] == KidRoot(h, trie.kids[j], KidPath(p, j))
    {
      var dh := defaults[level - 3];
      leaves := [];
      for j := 0 to 16
        invariant |leaves| == j
        invariant hashed ==> forall i :: 0 <= i < j ==> leaves[i] == KidRoot(h, trie.kids[i], KidPath(p, i))
      {
        leaves := leaves + [if children[j] == null then dh else children[j].merkleRoot];
      }
    }

    /** Each hash above is the hash of the pair below it. */
    static ghost predicate FoldsTo(h: Hash, below: seq<Bytes>, above: seq<Bytes>) {
      |below| == 2 * |above| && forall i :: 0 <= i < |above| ==> above[i] == h(below[2 * i] + below[2 * i + 1])
    }

    /** One level of the cache from the level below it. */
    static method Fold(h: Hash, below: seq<Bytes>, n: nat) returns (above: seq<Bytes>)
      requires |below| == 2 * n
      ensures |above| == n && FoldsTo(h, below, above)
    {
      above := [];
      for i := 0 to n
        invariant |above| == i && forall k :: 0 <= k < i ==> above[k] == h(below[2 * k] + below[2 * k + 1])
      {
        above := above + [h(below[2 * i] + below[2 * i + 1])];
      }
    }

    /** The five levels of the cache, from the children's hashes up. */
    static method FoldAll(h: Hash, leaves: seq<Bytes>) returns (cache: seq<seq<Bytes>>)
      requires |leaves| == 16
      ensures Folded(h, cache, 0) && cache[4] == leaves
    {
      SmallPowers();
      cache := [[], [], [], [], leaves];
      var n := 8;
      for level := 4 downto 0
        invariant Folded(h, cache, level) && cache[4] == leaves && (level > 0 ==> 2 * n == Pow2(level))
      {
        var above := Fold(h, cache[level + 1], n);
        cache := cache[level := above];
        n := n / 2;
      }
    }

    /** From `level` down the cache holds the hashes of the pairs in the level below. */
    static ghost predicate Folded(h: Hash, cache: seq<seq<Bytes>>, level: nat) {
      && |cache| == 5 && level <= 4
      && (forall l :: level <= l <= 4 ==> |cache[l]| == Pow2(l))
      && forall l :: level <= l < 4 ==> FoldsTo(h, cache[l + 1], cache[l])
    }

    /** Such a cache over the children's roots is the cache of the trie. */
    static lemma {:induction false} FoldedIsCache(h: Hash, t: Trie, p: seq<bool>, cache: seq<seq<Bytes>>, level: nat,
                                                  i: nat)
      requires t.Branch? && Fits(t, p) && Folded(h, cache, 0) && level <= 4 && i < Pow2(level)
      requires forall j :: 0 <= j < 16 ==> cache[4][j] == KidRoot(h, t.kids[j], KidPath(p, j))
      ensures cache[level][i] == CacheAt(h, t, p, level, i)
      decreases 4 - level
    {
      SmallPowers();
      if level < 4 {
        FoldedIsCache(h, t, p, cache, level + 1, 2 * i);
        FoldedIsCache(h, t, p, cache, level + 1, 2 * i + 1);
        assert FoldsTo(h, cache[level + 1], cache[level]);
      }
    }

    /** The cache holds the hashes of the trie. */
    static ghost predicate IsCache(h: Hash, t: Trie, p: seq<bool>, cache: seq<seq<Bytes>>)
      requires t.Branch? && Fits(t, p)
    {
      Folded(h, cache, 0) && forall level, i :: 0 <= level <= 4 && 0 <= i < Pow2(level) ==>
        cache[level][i] == CacheAt(h, t, p, level, i)
    }

    static lemma FoldedCache(h: Hash, t: Trie, p: seq<bool>, cache: seq<seq<Bytes>>)
      requires t.Branch? && Fits(t, p) && Folded(h, cache, 0)
      requires forall j :: 0 <= j < 16 ==> cache[4][j] == KidRoot(h, t.kids[j], KidPath(p, j))
      ensures IsCache(h, t, p, cache) && |cache[0]| == 1 && cache[0][0] == RootOf(h, t, p)
    {
      forall level, i | 0 <= level <= 4 && 0 <= i < Pow2(level)
        ensures cache[level][i] == CacheAt(h, t, p, level, i)
      {
        FoldedIsCache(h, t, p, cache, level, i);
      }
      assert Pow2(0) == 1;
    }

    method BuildCache(h: Hash, defaults: seq<Bytes>, ghost s: Store, ghost p: seq<bool>)
      returns (cache: seq<seq<Bytes>>)
      requires Valid(h, s, p) && !terminal && !unloaded
      requires |defaults| == 64 && forall n :: 0 <= n < 64 ==> defaults[n] == Default(h, n)
      ensures Folded(h, cache, 0) && |cache[0]| == 1
      ensures hashed ==> IsCache(h, trie, p, cache) && cache[0][0] == RootOf(h, trie, p)
    {
      var leaves := Leaves(h, defaults, s, p);
      cache := FoldAll(h, leaves);
      assert |cache[0]| == Pow2(0) == 1;
      if hashed {
        FoldedCache(h, trie, p, cache);
      }
    }

    /** Fill the cache from the children's hashes and take the root from it. */
    method ComputeMerkleRootCache(h: Hash, defaults: seq<Bytes>, ghost s: Store, ghost p: seq<bool>)
      requires Valid(h, s, p) && !terminal && !unloaded
      requires |defaults| == 64 && forall n :: 0 <= n < 64 ==> defaults[n] == Default(h, n)
      modifies this`mrcache, this`merkleRoot
      ensures Valid(h, s, p) && Folded(h, mrcache, 0)
      ensures hashed ==> IsCache(h, trie, p, mrcache) && RootKept(h, p)
    {
      var cache := BuildCache(h, defaults, s, p);
      mrcache, merkleRoot := cache, cache[0][0];
    }

    /** The root of a terminal: one hash for every bit from 0 up to its level, which is taken as an
        unsigned number. Below level zero that number is huge and the loop runs off the end of the
        key; `None` stands for that panic. */
    static method TerminalRoot(h: Hash, k: Key, v: Bytes, level: int, defaults: seq<Bytes>)
      returns (r: Option<Bytes>)
      requires -(TWO_64 / 2) <= level < TWO_64 / 2
      requires |defaults| == 64 && forall n :: 0 <= n < 64 ==> defaults[n] == Default(h, n)
      ensures r == if 0 <= level < 64 then Some(TermRoot(h, k, v, level + 1)) else None
    {
      var cur, i, bound := v, 0, Unsigned(level);
      while i <= bound
        invariant 0 <= i <= 64 && i <= bound + 1 && cur == TermRoot(h, k, v, i)
      {
        if i >= 64 { return None; }
        if KeyBit(k, i) {
          cur := h(defaults[i] + cur);
        } else {
          cur := h(cur + defaults[i]);
        }
        i := i + 1;
      }
      r := Some(cur);
    }

    /** Compute the root of this node and of every node below it, loading what is needed. That is
        done exactly when no terminal sits at level -1; else the code panics on the way. */
    method ComputeMerkleRoot(h: Hash, pcs: ChunkStore, defaults: seq<Bytes>, ghost p: seq<bool>) returns (ok: bool)
      requires Valid(h, pcs.chunks, p)
      requires |defaults| == 64 && forall n :: 0 <= n < 64 ==> defaults[n] == Default(h, n)
      modifies Repr
      ensures ok <==> Rootable(old(trie), p)
      ensures ok ==> Valid(h, pcs.chunks, p) && !unloaded && trie == old(trie) && fresh(Repr - old(Repr))
      ensures ok ==> dirty == old(dirty) && terminal == old(terminal) && chunkHash == old(chunkHash)
      ensures ok ==> hashed && RootKept(h, p)
      decreases trie, 1
    {
      Load(h, pcs, p);
      if terminal {
        ok := HashTerminal(h, defaults, pcs.chunks, p);
      } else {
        ok := HashChildren(h, pcs, defaults, p);
        if ok { HashBranch(h, defaults, pcs.chunks, p); }
      }
    }

    /** The root of a branch whose children hold theirs. */
    method HashBranch(h: Hash, defaults: seq<Bytes>, ghost s: Store, ghost p: seq<bool>)
      requires Valid(h, s, p) && !terminal && !unloaded && KidsHashed(h, p)
      requires |defaults| == 64 && forall n :: 0 <= n < 64 ==> defaults[n] == Default(h, n)
      modifies `hashed, `mrcache, `merkleRoot
      ensures Valid(h, s, p) && hashed && RootKept(h, p)
    {
      hashed := true;
      ComputeMerkleRootCache(h, defaults, s, p);
    }

    method HashTerminal(h: Hash, defaults: seq<Bytes>, ghost s: Store, ghost p: seq<bool>) returns (ok: bool)
      requires Valid(h, s, p) && terminal && !unloaded
      requires |defaults| == 64 && forall n :: 0 <= n < 64 ==> defaults[n] == Default(h, n)
      modifies `merkleRoot, `hashed
      ensures ok <==> Rootable(trie, p)
      ensures ok ==> Valid(h, s, p) && hashed && RootKept(h, p)
    {
      DepthOfTerm(p, key);
      var root := TerminalRoot(h, key, chunkHash, level, defaults);
      ok := root.Some?;
      if ok {
        merkleRoot, hashed := root.value, true;
      }
    }

    static lemma DepthOfTerm(p: seq<bool>, k: Key)
      requires Under(p, k)
      ensures |p| <= 64
    {
    }

    method HashChildren(h: Hash, pcs: ChunkStore, defaults: seq<Bytes>, ghost p: seq<bool>) returns (ok: bool)
      requires Valid(h, pcs.chunks, p) && !terminal && !unloaded
      requires |defaults| == 64 && forall n :: 0 <= n < 64 ==> defaults[n] == Default(h, n)
      modifies Repr
      ensures ok <==> Rootable(old(trie), p)
      ensures ok ==> Valid(h, pcs.chunks, p) && KidsHashed(h, p)
      ensures ok ==> !unloaded && trie == old(trie) && dirty == old(dirty) && !terminal && fresh(Repr - old(Repr))
      ensures ok ==> chunkHash == old(chunkHash)
      decreases trie, 0, 2
    {
      for i := 0 to 16
        invariant Valid(h, pcs.chunks, p) && trie == old(trie) && !terminal && !unloaded && dirty == old(dirty)
        invariant chunkHash == old(chunkHash) && fresh(Repr - old(Repr)) && HashedUpTo(h, p, i)
      {
        if children[i] != null {
          ok := HashChild(h, pcs, defaults, i, p);
          if !ok { return false; }
        }
      }
      ok := true;
    }

    /** The first `n` children hold their roots. */
    ghost predicate HashedUpTo(h: Hash, p: seq<bool>, n: nat)
      requires n <= |children|
      reads this, Repr
    {
      forall j :: 0 <= j < n && children[j] in Repr ==> HashedKid(h, p, j)
    }

    method HashChild(h: Hash, pcs: ChunkStore, defaults: seq<Bytes>, i: nat, ghost p: seq<bool>) returns (ok: bool)
      requires Valid(h, pcs.chunks, p) && !terminal && !unloaded && i < 16 && children[i] != null && HashedUpTo(h, p, i)
      requires |defaults| == 64 && forall n :: 0 <= n < 64 ==> defaults[n] == Default(h, n)
      modifies Repr
      ensures old(trie).kids[i].Some? && (ok <==> Rootable(old(trie).kids[i].value, KidPath(p, i)))
      ensures ok ==> Valid(h, pcs.chunks, p) && trie == old(trie) && !terminal && !unloaded && dirty == old(dirty)
      ensures ok ==> chunkHash == old(chunkHash) && fresh(Repr - old(Repr)) && HashedUpTo(h, p, i + 1)
      decreases trie, 0, 1
    {
      ok := HashBelow(h, pcs, defaults, i, p);
      if ok { Regrow(h, pcs.chunks, p, i); }
    }

    /** Child `j` holds its root, and so does every node below it. */
    ghost predicate HashedKid(h: Hash, p: seq<bool>, j: nat)
      requires j < |children| && children[j] != null
      reads this, children[j]
    {
      children[j].hashed && children[j].RootKept(h, KidPath(p, j)) && Rootable(children[j].trie, KidPath(p, j))
    }

    method HashBelow(h: Hash, pcs: ChunkStore, defaults: seq<Bytes>, i: nat, ghost p: seq<bool>) returns (ok: bool)
      requires Valid(h, pcs.chunks, p) && !terminal && !unloaded
      requires i < 16 && children[i] != null
      requires |defaults| == 64 && forall n :: 0 <= n < 64 ==> defaults[n] == Default(h, n)
      modifies Repr - {this}
      ensures unchanged(this) && trie.kids[i].Some?
      ensures ok <==> Rootable(trie.kids[i].value, KidPath(p, i))
      ensures ok ==> Ready(h, pcs.chunks, p, i, children[i])
      ensures ok ==> trie.kids[i] == Some(children[i].trie) && fresh(children[i].Repr - Repr)
      ensures ok ==> HashedKid(h, p, i)
      ensures ok ==> forall j :: 0 <= j < 16 && j != i && children[j] != null ==>
        children[j].hashed == old(children[j].hashed) && children[j].merkleRoot == old(children[j].merkleRoot)
        && children[j].trie == old(children[j].trie)
      decreases trie, 0, 0
    {
      ok := children[i].ComputeMerkleRoot(h, pcs, defaults, KidPath(p, i));
    }

    // ----- Proofs -----

    static lemma SisterBound(level: nat, idx: nat)
      requires 1 <= level <= 4 && idx < Pow2(level)
      ensures SisterIndex(idx) < Pow2(level) && idx / 2 < Pow2(level - 1)
    {
      assert Pow2(level) == 2 * Pow2(level - 1);
    }

    /** Handle one sibling: list it unless it is the default hash of height `64 - level`. */
    static method ListSister(h: Hash, cache: seq<seq<Bytes>>, nodeLevel: int, level: nat, idx: nat, pr: Proof,
                             defaults: seq<Bytes>, ghost t: Trie, ghost p: seq<bool>)
      returns (r: Proof)
      requires |defaults| == 64 && forall n :: 0 <= n < 64 ==> defaults[n] == Default(h, n)
      requires t.Branch? && Fits(t, p) && nodeLevel == 63 - |p| && Folded(h, cache, 0)
      requires 1 <= level <= 4 && idx < Pow2(level)
      ensures IsCache(h, t, p, cache) ==> r == AddSister(h, t, p, level, idx, pr)
    {
      SisterBound(level, idx);
      var sister: nat := if idx % 2 == 1 then idx - 1 else idx + 1;
      var p0 := cache[level][sister];
      if p0 == defaults[64 - level] {
        r := pr;
      } else {
        r := Proof(pr.key, pr.hashes + [p0], WithBit(pr.bits, nodeLevel - level + 1));
      }
    }

    /** Handle the four siblings of slot `slot`, from the bottom level up. */
    static method ListSisters(h: Hash, cache: seq<seq<Bytes>>, nodeLevel: int, slot: nat, start: Proof,
                              defaults: seq<Bytes>, ghost t: Trie, ghost p: seq<bool>)
      returns (pr: Proof)
      requires |defaults| == 64 && forall n :: 0 <= n < 64 ==> defaults[n] == Default(h, n)
      requires t.Branch? && Fits(t, p) && nodeLevel == 63 - |p| && Folded(h, cache, 0) && slot < Pow2(4)
      ensures IsCache(h, t, p, cache) ==> pr == AddSisters(h, t, p, 4, slot, start)
    {
      pr := start;
      var idx: nat := slot;
      var level: nat := 4;
      while level > 0
        invariant level <= 4 && idx < Pow2(level)
        invariant IsCache(h, t, p, cache) ==> AddSisters(h, t, p, level, idx, pr) == AddSisters(h, t, p, 4, slot, start)
      {
        pr := ListSister(h, cache, nodeLevel, level, idx, pr, defaults, t, p);
        SisterBound(level, idx);
        idx := idx / 2;
        level := level - 1;
      }
    }

    /** The proof for `k`, from the terminal up; `ok` is false when its path ends in a free slot. */
    method GenerateProof(h: Hash, pcs: ChunkStore, k: Key, i: nat, defaults: seq<Bytes>, ghost p: seq<bool>)
      returns (ok: bool, pr: Proof)
      requires Valid(h, pcs.chunks, p) && !terminal && |p| == 4 * i
      requires |defaults| == 64 && forall n :: 0 <= n < 64 ==> defaults[n] == Default(h, n)
      modifies Repr
      ensures Valid(h, pcs.chunks, p) && !terminal && !unloaded && trie == old(trie) && fresh(Repr - old(Repr))
      ensures dirty == old(dirty) && hashed == old(hashed) && chunkHash == old(chunkHash)
      ensures ok <==> GenProof(h, trie, p, k).Some?
      ensures ok && hashed ==> pr == GenProof(h, trie, p, k).value && RootKept(h, p)
      ensures !ok ==> merkleRoot == old(merkleRoot)
      decreases 60 - |p|, 2
    {
      Load(h, pcs, p);
      var idx := KeyPiece(k, i);
      ok, pr := StartProof(h, pcs, k, i, idx, defaults, p);
      if ok {
        pr := FinishProof(h, idx, pr, defaults, pcs.chunks, p);
      }
    }

    /** The siblings at this branch, added to the proof from below. */
    method FinishProof(h: Hash, idx: nat, start: Proof, defaults: seq<Bytes>, ghost s: Store, ghost p: seq<bool>)
      returns (pr: Proof)
      requires Valid(h, s, p) && !terminal && !unloaded && idx < 16 && idx < Pow2(4)
      requires |defaults| == 64 && forall n :: 0 <= n < 64 ==> defaults[n] == Default(h, n)
      modifies this`mrcache, this`merkleRoot
      ensures Valid(h, s, p)
      ensures hashed ==> RootKept(h, p) && pr == AddSisters(h, trie, p, 4, idx, start)
    {
      ComputeMerkleRootCache(h, defaults, s, p);
      pr := ListSisters(h, mrcache, level, idx, start, defaults, trie, p);
    }

    /** What the proof from below, exact or not, says of the proof at a branch. */
    static lemma ProofFrom(h: Hash, t: Trie, p: seq<bool>, k: Key, w: nat, o: Option<Trie>, ok: bool, pr: Proof,
                           exact: bool)
      requires t.Branch? && Fits(t, p) && w == 4 && Slot(p, k) < Pow2(w) && o == t.kids[Slot(p, k)]
      requires o.None? ==> !ok
      requires o.Some? && o.value.Term? ==> ok && pr == Proof(k, [], 0)
      requires o.Some? && o.value.Branch? ==> (ok <==> GenProof(h, o.value, Below(p, k), k).Some?)
      requires o.Some? && o.value.Branch? && ok && exact ==> pr == GenProof(h, o.value, Below(p, k), k).value
      ensures ok <==> GenProof(h, t, p, k).Some?
      ensures ok && exact ==> GenProof(h, t, p, k).value == AddSisters(h, t, p, w, Slot(p, k), pr)
    {
      if ok && exact { GenAdds(h, t, p, k, w, pr); }
    }

    /** The proof from below this branch: empty at a terminal. */
    method StartProof(h: Hash, pcs: ChunkStore, k: Key, i: nat, idx: nat, defaults: seq<Bytes>, ghost p: seq<bool>)
      returns (ok: bool, pr: Proof)
      requires Valid(h, pcs.chunks, p) && !terminal && !unloaded && |p| == 4 * i && i < 16 && idx == KeyPiece(k, i)
      requires |defaults| == 64 && forall n :: 0 <= n < 64 ==> defaults[n] == Default(h, n)
      modifies Repr
      ensures Valid(h, pcs.chunks, p) && trie == old(trie) && fresh(Repr - old(Repr))
      ensures !terminal && !unloaded && dirty == old(dirty) && hashed == old(hashed) && merkleRoot == old(merkleRoot)
      ensures chunkHash == old(chunkHash)
      ensures idx < Pow2(4) && (ok <==> GenProof(h, trie, p, k).Some?)
      ensures ok && hashed ==> GenProof(h, trie, p, k).value == AddSisters(h, trie, p, 4, idx, pr)
      decreases 60 - |p|, 1
    {
      SmallPowers();
      ghost var t := trie;
      ok, pr := KidProof(h, pcs, k, i, idx, defaults, p);
      ProofFrom(h, t, p, k, 4, t.kids[idx], ok, pr, hashed);
    }

    method KidProof(h: Hash, pcs: ChunkStore, k: Key, i: nat, idx: nat, defaults: seq<Bytes>, ghost p: seq<bool>)
      returns (ok: bool, pr: Proof)
      requires Valid(h, pcs.chunks, p) && !terminal && !unloaded && |p| == 4 * i && i < 16 && idx == KeyPiece(k, i)
      requires |defaults| == 64 && forall n :: 0 <= n < 64 ==> defaults[n] == Default(h, n)
      modifies Repr
      ensures Valid(h, pcs.chunks, p) && trie == old(trie) && fresh(Repr - old(Repr))
      ensures !terminal && !unloaded && dirty == old(dirty) && hashed == old(hashed) && merkleRoot == old(merkleRoot)
      ensures chunkHash == old(chunkHash)
      ensures var o := trie.kids[idx];
        && (o.None? ==> !ok)
        && (o.Some? && o.value.Term? ==> ok && pr == Proof(k, [], 0))
        && (o.Some? && o.value.Branch? ==> (ok <==> GenProof(h, o.value, KidPath(p, idx), k).Some?))
        && (o.Some? && o.value.Branch? && ok && hashed ==> pr == GenProof(h, o.value, KidPath(p, idx), k).value)
      decreases 60 - |p|, 1, 0
    {
      pr := Proof(k, [], 0);
      if children[idx] == null {
        ok := false;
      } else if children[idx].terminal {
        ok := true;
      } else {
        ok, pr := ProofBelow(h, pcs, k, i, idx, defaults, p);
        Regrow(h, pcs.chunks, p, idx);
      }
    }

    method ProofBelow(h: Hash, pcs: ChunkStore, k: Key, i: nat, idx: nat, defaults: seq<Bytes>, ghost p: seq<bool>)
      returns (ok: bool, pr: Proof)
      requires Valid(h, pcs.chunks, p) && !terminal && !unloaded && |p| == 4 * i
      requires i < 16 && idx == KeyPiece(k, i) && children[idx] != null && !children[idx].terminal
      requires |defaults| == 64 && forall n :: 0 <= n < 64 ==> defaults[n] == Default(h, n)
      modifies Repr - {this}
      ensures unchanged(this) && Ready(h, pcs.chunks, p, idx, children[idx])
      ensures trie.kids[idx] == Some(children[idx].trie) && fresh(children[idx].Repr - Repr)
      ensures !children[idx].terminal && (hashed ==> KidsHashed(h, p))
      ensures ok <==> GenProof(h, trie.kids[idx].value, KidPath(p, idx), k).Some?
      ensures ok && hashed ==> pr == GenProof(h, trie.kids[idx].value, KidPath(p, idx), k).value
      decreases 60 - |p|, 0
    {
      ok, pr := children[idx].GenerateProof(h, pcs, k, i + 1, defaults, KidPath(p, idx));
    }

    // ----- Saving -----

    /** A node stays valid when the store keeps its chunks. */
    lemma {:induction false} StaysValid(h: Hash, s: Store, s': Store, p: seq<bool>)
      requires Valid(h, s, p) && KeepsChunks(h, ChunkSet(h, trie, p), s, s')
      ensures Valid(h, s', p)
      decreases Repr
    {
      if !terminal {
        if Saved(h, s, p) {
          StoredStays(h, s, s', trie, p);
        }
        if !unloaded {
          forall j | 0 <= j < 16 && children[j] != null
            ensures children[j].Valid(h, s', KidPath(p, j))
          {
            KidChunks(h, trie, p, j);
            children[j].StaysValid(h, s, s', KidPath(p, j));
          }
        }
      }
    }

    /** The row of a child whose hashes are current. */
    method ChildRow(h: Hash, ghost s: Store, ghost p: seq<bool>, j: nat) returns (row: Bytes)
      requires Valid(h, s, p) && !terminal && !unloaded && hashed && j < 16
      requires children[j] != null ==> children[j].terminal || !children[j].dirty
      ensures row == RowBytes(h, trie, p, j)
    {
      var c := children[j];
      if c == null {
        row := Zeros(88);
      } else if c.terminal {
        row := EncodeRow(Row(c.key, Fit32(c.chunkHash), c.storageBytes, Fit32(c.merkleRoot), c.blockNum));
      } else {
        row := EncodeRow(Row(Zeros(8), c.chunkHash, c.storageBytes, Fit32(c.merkleRoot), c.blockNum));
      }
    }

    /** The other children stay valid when the store keeps the chunks of the trie. */
    lemma OthersStay(h: Hash, s: Store, s': Store, p: seq<bool>, i: nat)
      requires this in Repr && |children| == 16 && Fits(trie, p) && trie.Branch? && Slots() && i < 16
      requires forall j :: 0 <= j < 16 && j != i && children[j] != null ==> children[j].Valid(h, s, KidPath(p, j))
      requires KeepsChunks(h, ChunkSet(h, trie, p), s, s')
      ensures forall j :: 0 <= j < 16 && j != i && children[j] != null ==> children[j].Valid(h, s', KidPath(p, j))
    {
      forall j | 0 <= j < 16 && j != i && children[j] != null
        ensures children[j].Valid(h, s', KidPath(p, j))
      {
        KidChunks(h, trie, p, j);
        children[j].StaysValid(h, s, s', KidPath(p, j));
      }
    }

    static lemma InjectiveBelow(h: Hash, t: Trie, p: seq<bool>, i: nat)
      requires t.Branch? && Fits(t, p) && i < 16 && t.kids[i].Some? && Injective(h, ChunkSet(h, t, p))
      ensures Injective(h, ChunkSet(h, t.kids[i].value, KidPath(p, i)))
      ensures ChunkSet(h, t.kids[i].value, KidPath(p, i)) <= ChunkSet(h, t, p)
    {
      KidChunks(h, t, p, i);
      forall x, y ensures NoClash(h, ChunkSet(h, t.kids[i].value, KidPath(p, i)), x, y) {
        assert NoClash(h, ChunkSet(h, t, p), x, y);
      }
    }

    method FlushBelow(h: Hash, pcs: ChunkStore, i: nat, ghost p: seq<bool>)
      requires Valid(h, pcs.chunks, p) && !terminal && !unloaded && hashed && dirty
      requires i < 16 && children[i] != null && !children[i].terminal && Injective(h, ChunkSet(h, trie, p))
      modifies Repr - {this}, pcs
      ensures Valid(h, pcs.chunks, p) && unchanged(this) && !children[i].dirty
      ensures forall j :: 0 <= j < 16 && j != i && children[j] != null ==>
        children[j].dirty == old(children[j].dirty) && children[j].terminal == old(children[j].terminal)
      ensures Grew(h, ChunkSet(h, trie, p), old(pcs.chunks), pcs.chunks)
      decreases trie, 0, 0
    {
      ghost var s, u, q := pcs.chunks, ChunkSet(h, trie, p), KidPath(p, i);
      InjectiveBelow(h, trie, p, i);
      children[i].Flush(h, pcs, q);
      GrewMore(h, ChunkSet(h, children[i].trie, q), u, s, pcs.chunks);
      GrewKeeps(h, u, u, s, pcs.chunks);
      OthersStay(h, s, pcs.chunks, p, i);
    }

    /** The terminals among the first `n` children, and the branches that are saved: all of them. */
    ghost predicate SavedUpTo(n: nat)
      requires n <= |children|
      reads this, Repr
    {
      forall j :: 0 <= j < n && children[j] in Repr ==> children[j].terminal || !children[j].dirty
    }

    /** Save the branches below and collect the rows. */
    method FlushChildren(h: Hash, pcs: ChunkStore, ghost p: seq<bool>) returns (rows: Bytes)
      requires Valid(h, pcs.chunks, p) && !terminal && !unloaded && hashed && dirty
      requires Injective(h, ChunkSet(h, trie, p))
      modifies Repr - {this}, pcs
      ensures Valid(h, pcs.chunks, p) && unchanged(this) && rows == Rows(h, trie, p, 16) && SavedUpTo(16)
      ensures Grew(h, ChunkSet(h, trie, p), old(pcs.chunks), pcs.chunks)
      decreases trie, 1
    {
      rows := [];
      for i := 0 to 16
        invariant Valid(h, pcs.chunks, p) && unchanged(this) && rows == Rows(h, trie, p, i) && SavedUpTo(i)
        invariant Grew(h, ChunkSet(h, trie, p), old(pcs.chunks), pcs.chunks)
      {
        ghost var s := pcs.chunks;
        var row := FlushChild(h, pcs, i, p);
        GrewTrans(h, ChunkSet(h, trie, p), ChunkSet(h, trie, p), old(pcs.chunks), s, pcs.chunks);
        rows := rows + row;
      }
    }

    method FlushChild(h: Hash, pcs: ChunkStore, i: nat, ghost p: seq<bool>) returns (row: Bytes)
      requires Valid(h, pcs.chunks, p) && !terminal && !unloaded && hashed && dirty
      requires Injective(h, ChunkSet(h, trie, p))
      requires i < 16 && SavedUpTo(i)
      modifies Repr - {this}, pcs
      ensures Valid(h, pcs.chunks, p) && unchanged(this) && row == RowBytes(h, trie, p, i) && SavedUpTo(i + 1)
      ensures Grew(h, ChunkSet(h, trie, p), old(pcs.chunks), pcs.chunks)
      decreases trie, 0, 1
    {
      if children[i] != null && !children[i].terminal {
        FlushBelow(h, pcs, i, p);
      }
      row := ChildRow(h, pcs.chunks, p, i);
    }

    /** Store this branch's chunk under its hash. */
    method SaveChunk(h: Hash, pcs: ChunkStore, rows: Bytes, ghost p: seq<bool>)
      requires Valid(h, pcs.chunks, p) && !terminal && !unloaded && dirty && rows == Rows(h, trie, p, 16)
      requires SavedUpTo(16) && Injective(h, ChunkSet(h, trie, p))
      modifies this, pcs
      ensures Valid(h, pcs.chunks, p) && trie == old(trie) && Repr == old(Repr) && !dirty
      ensures hashed == old(hashed) && merkleRoot == old(merkleRoot) && terminal == old(terminal)
      ensures unloaded == old(unloaded)
      ensures Grew(h, ChunkSet(h, trie, p), old(pcs.chunks), pcs.chunks)
    {
      var chunk := rows + Zeros(2688);
      var id := h(chunk);
      ghost var s := pcs.chunks;
      pcs.SetChunk(id, chunk);
      SavedBy(h, s, pcs.chunks, p);
      Settle(h, id, pcs.chunks, p);
    }

    /** The writes of a flush to this node. */
    method Settle(h: Hash, id: Bytes, ghost s: Store, ghost p: seq<bool>)
      requires Valid(h, s, p) && !terminal && !unloaded && Stored(h, s, trie, p) && id == ChunkId(h, trie, p)
      modifies `chunkHash, `dirty
      ensures Valid(h, s, p) && chunkHash == id && !dirty
    {
      chunkHash, dirty := id, false;
    }

    /** The effect of storing the chunk: the whole branch is stored, and the node stays valid. */
    lemma SavedBy(h: Hash, s: Store, s': Store, p: seq<bool>)
      requires Valid(h, s, p) && !terminal && !unloaded && SavedUpTo(16)
      requires Injective(h, ChunkSet(h, trie, p)) && s' == s[ChunkId(h, trie, p) := ChunkOf(h, trie, p)]
      ensures Grew(h, ChunkSet(h, trie, p), s, s') && Stored(h, s', trie, p) && Valid(h, s', p)
    {
      var u := ChunkSet(h, trie, p);
      assert IsChunk(h, trie, p, ChunkOf(h, trie, p));
      assert forall id :: id in s' ==> OldOrChunk(h, u, s, s', id);
      GrewKeeps(h, u, u, s, s');
      StaysValid(h, s, s', p);
      KidsStored(h, s', p);
    }

    lemma KidsStored(h: Hash, s: Store, p: seq<bool>)
      requires Valid(h, s, p) && !terminal && !unloaded && SavedUpTo(16)
      requires ChunkId(h, trie, p) in s && s[ChunkId(h, trie, p)] == ChunkOf(h, trie, p)
      ensures Stored(h, s, trie, p)
    {
      forall j | 0 <= j < 16 && trie.kids[j].Some?
        ensures Stored(h, s, trie.kids[j].value, KidPath(p, j))
      {
        assert children[j] in Repr && children[j].Valid(h, s, KidPath(p, j));
      }
    }

    /** Save this branch and the dirty branches below it. */
    method Flush(h: Hash, pcs: ChunkStore, ghost p: seq<bool>)
      requires Valid(h, pcs.chunks, p) && !terminal && hashed && Injective(h, ChunkSet(h, trie, p))
      modifies Repr, pcs
      ensures Valid(h, pcs.chunks, p) && trie == old(trie) && Repr == old(Repr) && !dirty
      ensures hashed && merkleRoot == old(merkleRoot) && !terminal && unloaded == old(unloaded)
      ensures !old(dirty) ==> chunkHash == old(chunkHash)
      ensures Grew(h, ChunkSet(h, trie, p), old(pcs.chunks), pcs.chunks)
      decreases trie, 2
    {
      if dirty {
        var rows := FlushChildren(h, pcs, p);
        ghost var s := pcs.chunks;
        SaveChunk(h, pcs, rows, p);
        GrewTrans(h, ChunkSet(h, trie, p), ChunkSet(h, trie, p), old(pcs.chunks), s, pcs.chunks);
      }
    }
  }
}
