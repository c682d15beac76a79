/** Runs of writes, flushes and reopenings over one chunk store. A flush saves the trie's
    chunks and then maps its Merkle root to the hash of its top chunk, so opening an old
    root must survive every later flush, including one that maps the same root again. */
module History {
  import opened Bytes
  import opened Keys
  import opened PlainTree
  import opened Tries
  import opened TrieRoot
  import opened Chunk

  // ----- The map a trie holds -----

  ghost function KeysOf(t: Trie): set<Key> {
    if t.Term? then {t.key}
    else set j, k | 0 <= j < |t.kids| && t.kids[j].Some? && k in KeysOf(t.kids[j].value) :: k
  }

  lemma {:induction false} FoundInKeys(t: Trie, p: seq<bool>, k: Key)
    requires t.Branch? && Fits(t, p) && Find(t, p, k).Some?
    ensures k in KeysOf(t)
    decreases t
  {
    var j := Slot(p, k);
    var kid := t.kids[j].value;
    if kid.Branch? {
      FoundInKeys(kid, Below(p, k), k);
    }
    assert k in KeysOf(kid);
  }

  ghost function ItemsOf(t: Trie): (m: Items)
    requires t.Branch? && Fits(t, [])
    ensures Holds(t, [], m)
  {
    assert forall k: Key :: Find(t, [], k).Some? ==> k in KeysOf(t) by {
      forall k: Key | Find(t, [], k).Some? { FoundInKeys(t, [], k); }
    }
    map k | k in KeysOf(t) && Find(t, [], k).Some? :: Find(t, [], k).value
  }

  ghost function ValuesIn(t: Trie): (m: Values)
    requires t.Branch? && Fits(t, [])
  {
    ValuesOf(ItemsOf(t))
  }

  lemma RootOfTrie(h: Hash, t: Trie)
    requires t.Branch? && Fits(t, [])
    ensures RootOf(h, t, []) == PlainRoot(h, ValuesIn(t), [])
  {
    HoldsShows(t, ItemsOf(t));
    RootRefines(h, t, [], ValuesIn(t));
  }

  // ----- States and steps -----

  type Tree = t: Trie | t.Branch? && Fits(t, []) witness Empty()

  /** The store, the trie in memory, and every trie flushed so far. */
  datatype State = State(store: Store, trie: Tree, log: seq<Tree>)

  datatype Op = Put(w: Write) | Flush | Open(root: Bytes)

  /** What a flush maps the root to. A tree that never held a key has no chunk. */
  ghost function Pointer(h: Hash, t: Trie): Bytes
    requires t.Branch? && Fits(t, [])
  {
    if t.kids == NoKids() then [] else ChunkId(h, t, [])
  }

  /** The effect of a flush on the store. */
  ghost predicate FlushStep(h: Hash, s: Store, t: Trie, s': Store)
    requires t.Branch? && Fits(t, [])
  {
    exists mid: Store ::
      && Grew(h, ChunkSet(h, t, []), s, mid)
      && (t.kids != NoKids() ==> Stored(h, mid, t, []))
      && s' == mid[RootOf(h, t, []) := Pointer(h, t)]
  }

  /** Reading a whole trie back from the store, row by row. */
  function ReadKids(s: Store, id: Bytes, d: nat): (r: seq<Option<Trie>>)
    ensures |r| == 16
    decreases 16 - d, 1
  {
    if d >= 16 || id !in s || |s[id]| < 1408 then NoKids()
    else seq(16, j requires 0 <= j < 16 => ReadKid(s, RowAt(s[id], j), d))
  }

  function ReadKid(s: Store, r: Row, d: nat): Option<Trie>
    requires d < 16 && |r.key| == 8
    decreases 16 - d, 0
  {
    if r.hash == Zeros(32) then None
    else if r.key == Zeros(8) then Some(Branch(ReadKids(s, r.hash, d + 1), r.bytes, r.block))
    else Some(Term(r.key, r.hash, r.bytes, r.block))
  }

  /** A fresh tree opened at a root; when the root is not mapped it stays empty. */
  function OpenTrie(s: Store, root: Bytes): (t: Trie)
    ensures t.Branch?
  {
    if root in s && s[root] != [] then Branch(ReadKids(s, s[root], 0), 0, 0) else Empty()
  }

  ghost predicate HasRoot(h: Hash, t: Tree, root: Bytes) { RootOf(h, t, []) == root }

  ghost predicate Flushed(h: Hash, log: seq<Tree>, root: Bytes) {
    exists i :: 0 <= i < |log| && HasRoot(h, log[i], root)
  }

  /** The latest flushed trie with a given root. */
  ghost function Latest(h: Hash, log: seq<Tree>, root: Bytes): (j: nat)
    requires Flushed(h, log, root)
    ensures j < |log| && HasRoot(h, log[j], root) && forall i :: j < i < |log| ==> !HasRoot(h, log[i], root)
    decreases |log|
  {
    if HasRoot(h, log[|log| - 1], root) then |log| - 1
    else
      var rest := log[..|log| - 1];
      assert Flushed(h, rest, root) by {
        var i :| 0 <= i < |log| && HasRoot(h, log[i], root);
        assert HasRoot(h, rest[i], root);
      }
      Latest(h, rest, root)
  }

  /** Everything hashed by a flush is in `u`, and no two keys share sixty bits: such a flush would
      never return. */
  ghost predicate CanFlush(h: Hash, u: iset<Bytes>, t: Tree) {
    Separated(ValuesIn(t)) && ChunkSet(h, t, []) <= u && TreeInputs(h, ValuesIn(t)) <= u
  }

  /** One step. Any root may be opened that reads as a tree, whether or not it was flushed. */
  ghost predicate Next(h: Hash, u: iset<Bytes>, st: State, op: Op, st': State) {
    match op
    case Put(w) => st' == st.(trie := WriteTrie(st.trie, w))
    case Flush =>
      && CanFlush(h, u, st.trie)
      && FlushStep(h, st.store, st.trie, st'.store)
      && st'.trie == st.trie && st'.log == st.log + [st.trie]
    case Open(root) => st'.trie == OpenTrie(st.store, root) && st'.store == st.store && st'.log == st.log
  }

  // ----- Reading a stored trie gives it back -----

  ghost predicate TermsSavable(t: Trie) {
    if t.Term? then t.key != ZERO_KEY && |t.val| == 32 && t.val != Zeros(32)
    else forall j :: 0 <= j < |t.kids| && t.kids[j].Some? ==> TermsSavable(t.kids[j].value)
  }

  lemma {:induction false} ReadsStored(h: Hash, s: Store, t: Trie, p: seq<bool>, d: nat)
    requires t.Branch? && Fits(t, p) && |p| == 4 * d && Stored(h, s, t, p)
    requires NoZeroHash(h, ChunkSet(h, t, p)) && TermsSavable(t)
    ensures ReadKids(s, ChunkId(h, t, p), d) == t.kids
    decreases t
  {
    forall j | 0 <= j < 16
      ensures ReadKid(s, RowAt(ChunkOf(h, t, p), j), d) == t.kids[j]
    {
      ReadRow(h, t, p, j);
      if t.kids[j].Some? && t.kids[j].value.Branch? {
        KidChunkId(h, t, p, j);
        ReadsStored(h, s, t.kids[j].value, p + BitsOf(4, j), d + 1);
      }
    }
    assert ReadKids(s, ChunkId(h, t, p), d) == t.kids;
  }

  /** A terminal that could not be saved would be found. */
  lemma {:induction false} BadTermFound(t: Trie, p: seq<bool>) returns (k: Key)
    requires t.Branch? && Fits(t, p) && !TermsSavable(t)
    ensures Under(p, k) && Find(t, p, k).Some?
    ensures k == ZERO_KEY || |Find(t, p, k).value.val| != 32 || Find(t, p, k).value.val == Zeros(32)
    decreases t
  {
    var j :| 0 <= j < 16 && t.kids[j].Some? && !TermsSavable(t.kids[j].value);
    if t.kids[j].value.Branch? {
      k := BadTermFound(t.kids[j].value, p + BitsOf(4, j));
    } else {
      k := t.kids[j].value.key;
    }
    FindKidUnder(t, p, j, k);
  }

  lemma SavableTerms(t: Trie)
    requires t.Branch? && Fits(t, []) && Savable(ItemsOf(t))
    ensures TermsSavable(t)
  {
    if !TermsSavable(t) {
      var k := BadTermFound(t, []);
    }
  }

  // ----- The invariant -----

  /** A flushed trie is still stored, and everything it hashed is in `u`. */
  ghost predicate Kept(h: Hash, u: iset<Bytes>, s: Store, t: Tree) {
    && ChunkSet(h, t, []) <= u && TreeInputs(h, ValuesIn(t)) <= u
    && (t.kids != NoKids() ==> Stored(h, s, t, []))
  }

  /** A root is mapped to the latest flushed trie that has it. */
  ghost predicate Mapped(h: Hash, s: Store, log: seq<Tree>, root: Bytes) {
    Flushed(h, log, root) && root in s && s[root] == Pointer(h, log[Latest(h, log, root)])
  }

  ghost predicate Readable(h: Hash, u: iset<Bytes>, s: Store, log: seq<Tree>, t: Tree) {
    Kept(h, u, s, t) && Mapped(h, s, log, RootOf(h, t, []))
  }

  ghost predicate AllReadable(h: Hash, u: iset<Bytes>, s: Store, log: seq<Tree>) {
    forall i :: 0 <= i < |log| ==> Readable(h, u, s, log, log[i])
  }

  ghost predicate Inv(h: Hash, u: iset<Bytes>, st: State) {
    AllReadable(h, u, st.store, st.log)
  }

  /** A root is the hash of a 64-byte pair. */
  lemma RootPair(h: Hash, t: Trie) returns (x: Bytes)
    requires t.Branch? && Fits(t, [])
    ensures x in TreeInputs(h, ValuesIn(t)) && |x| == 64 && RootOf(h, t, []) == h(x)
  {
    var m := ValuesIn(t);
    x := Pair(h, m, []);
    assert IsTreeInput(h, m, x);
    RootOfTrie(h, t);
    assert [] + [false] == [false] && [] + [true] == [true];
  }

  /** Mapping a root overwrites no chunk: a root is the hash of 64 bytes. */
  lemma MappingKeeps(h: Hash, u: iset<Bytes>, s: Store, t: Trie, x: Bytes, y: Bytes)
    requires Fits(t, []) && Stored(h, s, t, []) && ChunkSet(h, t, []) <= u
    requires Injective(h, u) && x in u && |x| == 64
    ensures Stored(h, s[h(x) := y], t, []) && KeepsChunks(h, ChunkSet(h, t, []), s, s[h(x) := y])
  {
    if x in ChunkSet(h, t, []) {
      ChunkSize(h, t, [], x);
    }
    EntryKeeps(h, ChunkSet(h, t, []), u, s, x, y);
    StoredStays(h, s, s[h(x) := y], t, []);
  }

  /** No chunk overwrites a mapped root. */
  lemma ChunkOverwritesNoRoot(h: Hash, u: iset<Bytes>, s: Store, t: Trie, mid: Store, x: Bytes)
    requires Fits(t, []) && Grew(h, ChunkSet(h, t, []), s, mid) && ChunkSet(h, t, []) <= u && Injective(h, u)
    requires x in u && |x| == 64 && h(x) in s
    ensures h(x) in mid && mid[h(x)] == s[h(x)]
  {
    assert OldOrChunk(h, ChunkSet(h, t, []), s, mid, h(x));
    if mid[h(x)] != s[h(x)] {
      ChunkSize(h, t, [], mid[h(x)]);
      NoCollision(h, u, mid[h(x)], x);
    }
  }

  /** A flush saves the trie, whatever its values, and mapping the root does not undo that. */
  lemma FlushSaves(h: Hash, u: iset<Bytes>, s: Store, t: Trie, s': Store)
    requires Injective(h, u) && t.Branch? && Fits(t, [])
    requires ChunkSet(h, t, []) <= u && TreeInputs(h, ValuesIn(t)) <= u
    requires FlushStep(h, s, t, s')
    ensures RootOf(h, t, []) in s' && s'[RootOf(h, t, [])] == Pointer(h, t)
    ensures t.kids != NoKids() ==> Stored(h, s', t, [])
  {
    var mid: Store :| Grew(h, ChunkSet(h, t, []), s, mid)
                      && (t.kids != NoKids() ==> Stored(h, mid, t, []))
                      && s' == mid[RootOf(h, t, []) := Pointer(h, t)];
    var x := RootPair(h, t);
    if t.kids != NoKids() {
      MappingKeeps(h, u, mid, t, x, Pointer(h, t));
    }
  }

  /** What was flushed before stays stored. */
  lemma FlushKeeps(h: Hash, u: iset<Bytes>, s: Store, t: Tree, s': Store, past: Tree)
    requires Injective(h, u) && Kept(h, u, s, past) && FlushStep(h, s, t, s')
    requires ChunkSet(h, t, []) <= u && TreeInputs(h, ValuesIn(t)) <= u
    ensures Kept(h, u, s', past)
  {
    var mid: Store :| Grew(h, ChunkSet(h, t, []), s, mid)
                      && (t.kids != NoKids() ==> Stored(h, mid, t, []))
                      && s' == mid[RootOf(h, t, []) := Pointer(h, t)];
    var x := RootPair(h, t);
    if past.kids != NoKids() {
      GrewKeeps(h, ChunkSet(h, t, []), u, s, mid);
      StoredStays(h, s, mid, past, []);
      MappingKeeps(h, u, mid, past, x, Pointer(h, t));
    }
  }

  lemma LatestAppend(h: Hash, log: seq<Tree>, t: Tree, root: Bytes)
    requires HasRoot(h, t, root) || Flushed(h, log, root)
    ensures Flushed(h, log + [t], root)
    ensures Latest(h, log + [t], root) == if HasRoot(h, t, root) then |log| else Latest(h, log, root)
  {
    var log' := log + [t];
    assert log'[..|log|] == log;
    if HasRoot(h, t, root) {
      assert HasRoot(h, log'[|log|], root);
    } else {
      var i :| 0 <= i < |log| && HasRoot(h, log[i], root);
      assert HasRoot(h, log'[i], root);
    }
  }

  /** A flush maps its own root to the new trie and leaves other roots as they were mapped. */
  lemma FlushMaps(h: Hash, u: iset<Bytes>, s: Store, log: seq<Tree>, t: Tree, s': Store, past: Tree)
    requires Injective(h, u) && Kept(h, u, s, past) && FlushStep(h, s, t, s')
    requires HasRoot(h, t, RootOf(h, past, [])) || Mapped(h, s, log, RootOf(h, past, []))
    requires ChunkSet(h, t, []) <= u && TreeInputs(h, ValuesIn(t)) <= u
    ensures Mapped(h, s', log + [t], RootOf(h, past, []))
  {
    var mid: Store :| Grew(h, ChunkSet(h, t, []), s, mid)
                      && (t.kids != NoKids() ==> Stored(h, mid, t, []))
                      && s' == mid[RootOf(h, t, []) := Pointer(h, t)];
    var x := RootPair(h, past);
    LatestAppend(h, log, t, RootOf(h, past, []));
    if !HasRoot(h, t, RootOf(h, past, [])) {
      ChunkOverwritesNoRoot(h, u, s, t, mid, x);
    }
  }

  /** The flushed trie itself is kept and mapped. */
  lemma FlushStores(h: Hash, u: iset<Bytes>, s: Store, log: seq<Tree>, t: Tree, s': Store)
    requires Injective(h, u) && FlushStep(h, s, t, s')
    requires ChunkSet(h, t, []) <= u && TreeInputs(h, ValuesIn(t)) <= u
    ensures Readable(h, u, s', log + [t], t)
  {
    FlushSaves(h, u, s, t, s');
    LatestAppend(h, log, t, RootOf(h, t, []));
  }

  lemma FlushInv(h: Hash, u: iset<Bytes>, st: State, st': State)
    requires Injective(h, u) && Inv(h, u, st) && Next(h, u, st, Flush, st')
    ensures Inv(h, u, st')
  {
    var s, log, t := st.store, st.log, st.trie;
    FlushStores(h, u, s, log, t, st'.store);
    forall i | 0 <= i < |log + [t]|
      ensures Readable(h, u, st'.store, log + [t], (log + [t])[i])
    {
      if i < |log| {
        assert Readable(h, u, s, log, log[i]);
        FlushKeeps(h, u, s, t, st'.store, log[i]);
        FlushMaps(h, u, s, log, t, st'.store, log[i]);
      }
    }
  }

  /** Lookups do not depend on the totals at the top. */
  lemma SameKids(t: Trie, r: Trie)
    requires t.Branch? && Fits(t, []) && r.Branch? && r.kids == t.kids
    ensures Fits(r, []) && ItemsOf(r) == ItemsOf(t)
  {
    forall k: Key
      ensures Get(ItemsOf(r), k) == Get(ItemsOf(t), k)
    {
      assert Under([], k);
      assert Find(r, [], k) == Find(t, [], k);
    }
    assert forall k: Key :: (k in ItemsOf(r) <==> Get(ItemsOf(r), k).Some?);
    assert ItemsOf(r) == ItemsOf(t);
  }

  /** A root mapped to a stored trie that can be read back opens to that trie. */
  lemma OpensTo(h: Hash, u: iset<Bytes>, s: Store, root: Bytes, t: Tree)
    requires Kept(h, u, s, t) && Savable(ItemsOf(t)) && NoZeroHash(h, u)
    requires root in s && s[root] == Pointer(h, t)
    ensures OpenTrie(s, root).kids == t.kids
    ensures Fits(OpenTrie(s, root), []) && ItemsOf(OpenTrie(s, root)) == ItemsOf(t)
  {
    if t.kids != NoKids() {
      SavableTerms(t);
      ReadsStored(h, s, t, [], 0);
    }
    SameKids(t, OpenTrie(s, root));
  }

  // ----- Runs -----

  /** A run from an empty trie, over whatever the store held before. */
  ghost predicate IsRun(h: Hash, u: iset<Bytes>, sts: seq<State>, ops: seq<Op>)
    decreases |ops|
  {
    && |sts| == |ops| + 1
    && if ops == [] then sts[0].trie == Empty() && sts[0].log == []
       else
         && IsRun(h, u, sts[..|ops|], ops[..|ops| - 1])
         && Next(h, u, sts[|ops| - 1], ops[|ops| - 1], sts[|ops|])
  }

  /** Writing to the trie in memory and opening another touch nothing that was flushed. */
  lemma StepInv(h: Hash, u: iset<Bytes>, st: State, op: Op, st': State)
    requires Injective(h, u) && Inv(h, u, st) && Next(h, u, st, op, st')
    ensures Inv(h, u, st')
  {
    if op.Flush? { FlushInv(h, u, st, st'); }
  }

  lemma {:induction false} RunInv(h: Hash, u: iset<Bytes>, sts: seq<State>, ops: seq<Op>)
    requires Injective(h, u) && IsRun(h, u, sts, ops)
    ensures Inv(h, u, sts[|ops|])
    decreases |ops|
  {
    if ops != [] {
      RunInv(h, u, sts[..|ops|], ops[..|ops| - 1]);
      StepInv(h, u, sts[|ops| - 1], ops[|ops| - 1], sts[|ops|]);
    }
  }

  /** Old roots stay readable: after any run, a root flushed on the way opens to exactly the items
      of the latest flushed trie with that root, provided it can be read back at all. */
  lemma OldRootsReadable(h: Hash, u: iset<Bytes>, sts: seq<State>, ops: seq<Op>, root: Bytes)
    requires Injective(h, u) && NoZeroHash(h, u) && IsRun(h, u, sts, ops)
    requires Flushed(h, sts[|ops|].log, root)
    requires Savable(ItemsOf(sts[|ops|].log[Latest(h, sts[|ops|].log, root)]))
    ensures var st := sts[|ops|];
      var r := OpenTrie(st.store, root);
      Fits(r, []) && ItemsOf(r) == ItemsOf(st.log[Latest(h, st.log, root)])
  {
    RunInv(h, u, sts, ops);
    RootOpens(h, u, sts[|ops|], root);
  }

  lemma RootOpens(h: Hash, u: iset<Bytes>, st: State, root: Bytes)
    requires NoZeroHash(h, u) && Inv(h, u, st) && Flushed(h, st.log, root)
    requires Savable(ItemsOf(st.log[Latest(h, st.log, root)]))
    ensures var r := OpenTrie(st.store, root);
      Fits(r, []) && ItemsOf(r) == ItemsOf(st.log[Latest(h, st.log, root)])
  {
    var t := st.log[Latest(h, st.log, root)];
    assert Readable(h, u, st.store, st.log, t) && HasRoot(h, t, root);
    OpensTo(h, u, st.store, root, t);
  }

  /** All branches below the roots of the trie in memory and of the flushed ones carry their storage
      totals. */
  ghost predicate AllSummed(st: State) {
    KidsSummed(st.trie) && forall i :: 0 <= i < |st.log| ==> KidsSummed(st.log[i])
  }

  /** Every root that was opened was not mapped, or its latest trie can be read back. */
  ghost predicate OpensSavable(h: Hash, sts: seq<State>, ops: seq<Op>)
    requires |sts| == |ops| + 1
    decreases |ops|
  {
    ops == [] ||
    (OpensSavable(h, sts[..|ops|], ops[..|ops| - 1]) && OpenStep(h, sts[|ops| - 1], ops[|ops| - 1]))
  }

  ghost predicate OpenStep(h: Hash, st: State, op: Op) {
    op.Open? && op.root in st.store ==>
      Flushed(h, st.log, op.root) && Savable(ItemsOf(st.log[Latest(h, st.log, op.root)]))
  }

  lemma StepSummed(h: Hash, u: iset<Bytes>, st: State, op: Op, st': State)
    requires NoZeroHash(h, u) && Inv(h, u, st) && AllSummed(st) && Next(h, u, st, op, st') && OpenStep(h, st, op)
    ensures AllSummed(st') && (op.Put? ==> Summed(st'.trie))
  {
    match op
    case Put(w) =>
      assert Under([], w.key);
      InsertSummed(st.trie, [], w.key, w.val, w.bytes, w.block);
    case Flush =>
    case Open(root) =>
      if root in st.store { OpenSummed(h, u, st, root); }
  }

  lemma OpenSummed(h: Hash, u: iset<Bytes>, st: State, root: Bytes)
    requires NoZeroHash(h, u) && Inv(h, u, st) && AllSummed(st)
    requires root in st.store && Flushed(h, st.log, root) && Savable(ItemsOf(st.log[Latest(h, st.log, root)]))
    ensures KidsSummed(OpenTrie(st.store, root))
  {
    var t := st.log[Latest(h, st.log, root)];
    assert Readable(h, u, st.store, st.log, t) && HasRoot(h, t, root);
    OpensTo(h, u, st.store, root, t);
  }

  /** After every run of writes, flushes and openings of roots that can be read back, all branches
      below the root of the trie in memory carry their storage totals, and after a write so does the
      root. */
  lemma {:induction false} RunSummed(h: Hash, u: iset<Bytes>, sts: seq<State>, ops: seq<Op>)
    requires Injective(h, u) && NoZeroHash(h, u) && IsRun(h, u, sts, ops) && OpensSavable(h, sts, ops)
    ensures AllSummed(sts[|ops|])
    ensures ops != [] && ops[|ops| - 1].Put? ==> Summed(sts[|ops|].trie)
    decreases |ops|
  {
    if ops != [] {
      RunSummed(h, u, sts[..|ops|], ops[..|ops| - 1]);
      RunInv(h, u, sts[..|ops|], ops[..|ops| - 1]);
      StepSummed(h, u, sts[|ops| - 1], ops[|ops| - 1], sts[|ops|]);
    }
  }

  // ----- What is read can be saved -----

  ghost predicate KidsSavable(kids: seq<Option<Trie>>) {
    forall j :: 0 <= j < |kids| && kids[j].Some? ==> TermsSavable(kids[j].value)
  }

  lemma {:induction false} ReadSavable(s: Store, id: Bytes, d: nat)
    ensures KidsSavable(ReadKids(s, id, d))
    decreases 16 - d
  {
    var kids := ReadKids(s, id, d);
    forall j | 0 <= j < |kids| && kids[j].Some? ensures TermsSavable(kids[j].value) {
      var r := RowAt(s[id], j);
      if r.key == Zeros(8) { ReadSavable(s, r.hash, d + 1); }
    }
  }

  lemma {:induction false} FoundSavable(t: Trie, p: seq<bool>, k: Key)
    requires t.Branch? && Fits(t, p) && TermsSavable(t) && Find(t, p, k).Some?
    ensures var v := Find(t, p, k).value.val; k != ZERO_KEY && |v| == 32 && v != Zeros(32)
    decreases t
  {
    var kid := t.kids[Slot(p, k)].value;
    assert TermsSavable(kid);
    if kid.Branch? { FoundSavable(kid, Below(p, k), k); }
  }

  /** Whatever opens could have been saved. */
  lemma OpenSavable(s: Store, root: Bytes)
    requires Fits(OpenTrie(s, root), [])
    ensures Savable(ItemsOf(OpenTrie(s, root)))
  {
    var r := OpenTrie(s, root);
    if root in s && s[root] != [] { ReadSavable(s, s[root], 0); }
    var m := ItemsOf(r);
    forall k | k in m ensures k != ZERO_KEY && |m[k].val| == 32 && m[k].val != Zeros(32) {
      assert Under([], k) && Find(r, [], k) == Get(m, k);
      FoundSavable(r, [], k);
    }
  }

  // ----- When a root opens to exactly the values it was flushed with -----

  ghost predicate Exact(h: Hash, s: Store, t: Tree) {
    var r := OpenTrie(s, RootOf(h, t, []));
    Fits(r, []) && ValuesIn(r) == ValuesIn(t)
  }

  ghost predicate AllSavable(log: seq<Tree>) {
    forall i :: 0 <= i < |log| ==> Savable(ItemsOf(log[i]))
  }

  /** The two tries have the same pairs of neighbouring leaves. */
  ghost predicate Alike(h: Hash, t: Tree, r: Tree) { SamePairs(h, ValuesIn(t), ValuesIn(r)) }

  /** A root that opens to its own values is that of a trie that can be saved. */
  lemma ExactSavable(h: Hash, s: Store, t: Tree)
    requires Exact(h, s, t)
    ensures Savable(ItemsOf(t))
  {
    var r := OpenTrie(s, RootOf(h, t, []));
    OpenSavable(s, RootOf(h, t, []));
    SameSavable(ItemsOf(r), ItemsOf(t));
  }

  lemma SameSavable(m: Items, n: Items)
    requires Savable(m) && ValuesOf(m) == ValuesOf(n)
    ensures Savable(n)
  {
    forall k | k in n ensures k in m && m[k].val == n[k].val {
      assert k in ValuesOf(n) && ValuesOf(n)[k] == n[k].val;
      assert k in ValuesOf(m) && ValuesOf(m)[k] == m[k].val;
    }
  }

  /** Tries with one root are those with the same pairs. */
  lemma RootsAlike(h: Hash, u: iset<Bytes>, t: Tree, r: Tree)
    requires Injective(h, u) && TreeInputs(h, ValuesIn(t)) <= u && TreeInputs(h, ValuesIn(r)) <= u
    ensures RootOf(h, t, []) == RootOf(h, r, []) <==> Alike(h, t, r)
  {
    RootOfTrie(h, t);
    RootOfTrie(h, r);
    var v := TreeInputs(h, ValuesIn(t)) + TreeInputs(h, ValuesIn(r));
    forall x, y
      ensures NoClash(h, v, x, y)
    {
      assert NoClash(h, u, x, y);
    }
    RootIffPairs(h, ValuesIn(t), ValuesIn(r));
  }

  /** `log[j]` is the latest trie with the pairs of `log[i]`. */
  ghost predicate LastAlike(h: Hash, log: seq<Tree>, i: nat, j: nat)
    requires i < |log|
  {
    j < |log| && Alike(h, log[j], log[i]) && forall k :: j < k < |log| ==> !Alike(h, log[k], log[i])
  }

  lemma LatestIsLast(h: Hash, u: iset<Bytes>, st: State, i: nat)
    requires Injective(h, u) && Inv(h, u, st) && i < |st.log|
    ensures Flushed(h, st.log, RootOf(h, st.log[i], []))
    ensures LastAlike(h, st.log, i, Latest(h, st.log, RootOf(h, st.log[i], [])))
  {
    var log, root := st.log, RootOf(h, st.log[i], []);
    assert Readable(h, u, st.store, log, log[i]);
    forall k | 0 <= k < |log|
      ensures HasRoot(h, log[k], root) <==> Alike(h, log[k], log[i])
    {
      assert Readable(h, u, st.store, log, log[k]);
      RootsAlike(h, u, log[k], log[i]);
    }
  }

  /** After any run, take a flushed trie `log[i]` and the latest one with its root, `log[j]`, and let
      that be one that can be saved. The root opens to a trie with the pairs of leaves it had, and so
      with its leaves if those were words. It opens to exactly the values it had if and only if
      `log[j]` has them. */
  lemma OldRootExactIff(h: Hash, u: iset<Bytes>, sts: seq<State>, ops: seq<Op>, i: nat, j: nat)
    requires Injective(h, u) && NoZeroHash(h, u) && IsRun(h, u, sts, ops)
    requires i < |sts[|ops|].log| && LastAlike(h, sts[|ops|].log, i, j) && Savable(ItemsOf(sts[|ops|].log[j]))
    ensures var st := sts[|ops|];
      var r := OpenTrie(st.store, RootOf(h, st.log[i], []));
      && Fits(r, []) && SamePairs(h, ValuesIn(r), ValuesIn(st.log[i]))
      && (WordValues(ValuesIn(st.log[i])) ==> SameLeaves(h, ValuesIn(r), ValuesIn(st.log[i])))
      && (Exact(h, st.store, st.log[i]) <==> ValuesIn(st.log[j]) == ValuesIn(st.log[i]))
  {
    RunInv(h, u, sts, ops);
    ExactIff(h, u, sts[|ops|], i, j);
    if WordValues(ValuesIn(sts[|ops|].log[i])) { SavableLeaves(h, sts[|ops|].log[j], sts[|ops|].log[i]); }
  }

  /** Words with the same pairs have the same leaves. */
  lemma SavableLeaves(h: Hash, t: Tree, r: Tree)
    requires Savable(ItemsOf(t)) && WordValues(ValuesIn(r)) && Alike(h, t, r)
    ensures SameLeaves(h, ValuesIn(t), ValuesIn(r))
  {
    forall k: Key ensures LeafOf(h, ValuesIn(t), k) == LeafOf(h, ValuesIn(r), k) {
      PairsFixLeaf(h, ValuesIn(t), ValuesIn(r), k);
    }
  }

  lemma ExactIff(h: Hash, u: iset<Bytes>, st: State, i: nat, j: nat)
    requires Injective(h, u) && NoZeroHash(h, u) && Inv(h, u, st)
    requires i < |st.log| && LastAlike(h, st.log, i, j) && Savable(ItemsOf(st.log[j]))
    ensures var r := OpenTrie(st.store, RootOf(h, st.log[i], []));
      Fits(r, []) && ValuesIn(r) == ValuesIn(st.log[j]) && SamePairs(h, ValuesIn(r), ValuesIn(st.log[i]))
    ensures Exact(h, st.store, st.log[i]) <==> ValuesIn(st.log[j]) == ValuesIn(st.log[i])
  {
    LatestIsLast(h, u, st, i);
    assert j == Latest(h, st.log, RootOf(h, st.log[i], []));
    RootOpens(h, u, st, RootOf(h, st.log[i], []));
  }

  /** So a root stays exact if no trie with its root holds the mark of an empty leaf, and all of
      those can be saved. */
  lemma OldRootsExact(h: Hash, u: iset<Bytes>, sts: seq<State>, ops: seq<Op>, i: nat)
    requires Injective(h, u) && NoZeroHash(h, u) && IsRun(h, u, sts, ops) && i < |sts[|ops|].log|
    requires forall k :: 0 <= k < |sts[|ops|].log| && Alike(h, sts[|ops|].log[k], sts[|ops|].log[i]) ==>
      Savable(ItemsOf(sts[|ops|].log[k])) && NoEmptyMarks(h, ValuesIn(sts[|ops|].log[k]))
    ensures Exact(h, sts[|ops|].store, sts[|ops|].log[i])
  {
    var st := sts[|ops|];
    RunInv(h, u, sts, ops);
    LatestIsLast(h, u, st, i);
    var j := Latest(h, st.log, RootOf(h, st.log[i], []));
    ExactIff(h, u, st, i, j);
    assert Alike(h, st.log[i], st.log[i]);
    SavableLeaves(h, st.log[j], st.log[i]);
    LeavesFixMap(h, ValuesIn(st.log[j]), ValuesIn(st.log[i]));
  }

  ghost predicate AllExact(h: Hash, s: Store, log: seq<Tree>) {
    forall i :: 0 <= i < |log| ==> Exact(h, s, log[i])
  }

  /** The two tries have one root and different values. */
  ghost predicate Shadows(h: Hash, t: Tree, r: Tree) { Alike(h, t, r) && ValuesIn(t) != ValuesIn(r) }

  ghost predicate NoneShadowed(h: Hash, t: Tree, log: seq<Tree>) {
    forall i :: 0 <= i < |log| ==> !Shadows(h, t, log[i])
  }

  /** A flush of a trie that can be saved keeps all earlier roots exact if and only if no trie flushed
      before has the pairs of the new one and other values. */
  lemma FlushExactIff(h: Hash, u: iset<Bytes>, st: State, st': State)
    requires Injective(h, u) && NoZeroHash(h, u) && Inv(h, u, st) && Next(h, u, st, Flush, st')
    requires Savable(ItemsOf(st.trie)) && AllExact(h, st.store, st.log)
    ensures AllExact(h, st'.store, st.log) <==> NoneShadowed(h, st.trie, st.log)
  {
    FlushInv(h, u, st, st');
    forall i | 0 <= i < |st.log|
      ensures Exact(h, st'.store, st.log[i]) <==> !Shadows(h, st.trie, st.log[i])
    {
      FlushExactAt(h, u, st, st', i);
    }
  }

  lemma FlushExactAt(h: Hash, u: iset<Bytes>, st: State, st': State, i: nat)
    requires Injective(h, u) && NoZeroHash(h, u) && Inv(h, u, st) && Inv(h, u, st')
    requires st'.log == st.log + [st.trie] && Savable(ItemsOf(st.trie))
    requires i < |st.log| && AllExact(h, st.store, st.log)
    ensures Exact(h, st'.store, st.log[i]) <==> !Shadows(h, st.trie, st.log[i])
  {
    if Alike(h, st.trie, st.log[i]) { NewExactAt(h, u, st, st', i); } else { OldExactAt(h, u, st, st', i); }
  }

  lemma NewExactAt(h: Hash, u: iset<Bytes>, st: State, st': State, i: nat)
    requires Injective(h, u) && NoZeroHash(h, u) && Inv(h, u, st')
    requires st'.log == st.log + [st.trie] && Savable(ItemsOf(st.trie))
    requires i < |st.log| && Alike(h, st.trie, st.log[i])
    ensures Exact(h, st'.store, st.log[i]) <==> ValuesIn(st.trie) == ValuesIn(st.log[i])
  {
    LastIsNew(h, st.log, st.trie, i);
    ExactIff(h, u, st', i, |st.log|);
  }

  lemma OldExactAt(h: Hash, u: iset<Bytes>, st: State, st': State, i: nat)
    requires Injective(h, u) && NoZeroHash(h, u) && Inv(h, u, st) && Inv(h, u, st')
    requires st'.log == st.log + [st.trie]
    requires i < |st.log| && AllExact(h, st.store, st.log) && !Alike(h, st.trie, st.log[i])
    ensures Exact(h, st'.store, st.log[i])
  {
    var j := StaysExact(h, u, st, i);
    ExactIff(h, u, st', i, j);
  }

  lemma StaysExact(h: Hash, u: iset<Bytes>, st: State, i: nat) returns (j: nat)
    requires Injective(h, u) && NoZeroHash(h, u) && Inv(h, u, st)
    requires i < |st.log| && AllExact(h, st.store, st.log) && !Alike(h, st.trie, st.log[i])
    ensures j < |st.log| && LastAlike(h, st.log + [st.trie], i, j) && Savable(ItemsOf(st.log[j]))
    ensures ValuesIn(st.log[j]) == ValuesIn(st.log[i])
  {
    LatestIsLast(h, u, st, i);
    j := Latest(h, st.log, RootOf(h, st.log[i], []));
    ExactSavable(h, st.store, st.log[j]);
    ExactIff(h, u, st, i, j);
    LastStays(h, st.log, st.trie, i, j);
  }

  lemma LastIsNew(h: Hash, log: seq<Tree>, t: Tree, i: nat)
    requires i < |log| && Alike(h, t, log[i])
    ensures LastAlike(h, log + [t], i, |log|)
  {
    assert (log + [t])[|log|] == t && (log + [t])[i] == log[i];
  }

  lemma LastStays(h: Hash, log: seq<Tree>, t: Tree, i: nat, j: nat)
    requires i < |log| && LastAlike(h, log, i, j) && !Alike(h, t, log[i])
    ensures LastAlike(h, log + [t], i, j)
  {
    var log' := log + [t];
    assert forall k :: 0 <= k < |log| ==> log'[k] == log[k];
    forall k | j < k < |log'| ensures !Alike(h, log'[k], log'[i]) {
      if k == |log| { assert log'[k] == t; } else { assert log'[k] == log[k]; }
    }
  }

  // ----- A root that is lost -----

  /** A trie with one terminal, stored by one chunk. */
  lemma OneStored(h: Hash, s: Store, w: Write)
    ensures var t := WriteTrie(Empty(), w);
      Stored(h, s[ChunkId(h, t, []) := ChunkOf(h, t, [])], t, []) && t.kids != NoKids()
  {
    var t := WriteTrie(Empty(), w);
    assert Under([], w.key);
    KeyBelow([], w.key);
    var j := Slot([], w.key);
    assert t.kids == NoKids()[j := Some(Term(w.key, w.val, w.bytes, w.block))];
  }

  lemma OneValue(w: Write)
    ensures ValuesIn(WriteTrie(Empty(), w)) == map[w.key := w.val] && ValuesIn(Empty()) == map[]
  {
    forall k: Key
      ensures k !in ItemsOf(Empty())
      ensures Get(ItemsOf(WriteTrie(Empty(), w)), k) == if k == w.key then Some(Item(w.val, w.bytes, w.block)) else None
    {
      assert Under([], k) && Under([], w.key);
      assert Find(Empty(), [], k) == Get(ItemsOf(Empty()), k);
      NoKidsFind([], 0, 0, k);
      InsertFind(Empty(), [], w.key, w.val, w.bytes, w.block, k);
    }
    var m := ItemsOf(WriteTrie(Empty(), w));
    assert forall k :: k in m <==> Get(m, k).Some?;
    assert m == map[w.key := Item(w.val, w.bytes, w.block)];
  }

  lemma EmptyFlush(h: Hash)
    ensures FlushStep(h, map[], Empty(), map[RootOf(h, Empty(), []) := []])
  {
    assert Grew(h, ChunkSet(h, Empty(), []), map[], map[]);
  }

  lemma OneFlush(h: Hash, s: Store, w: Write)
    ensures var t := WriteTrie(Empty(), w);
      FlushStep(h, s, t, s[ChunkId(h, t, []) := ChunkOf(h, t, [])][RootOf(h, t, []) := Pointer(h, t)])
  {
    var t := WriteTrie(Empty(), w);
    var mid := s[ChunkId(h, t, []) := ChunkOf(h, t, [])];
    OneStored(h, s, w);
    assert Grew(h, ChunkSet(h, t, []), s, mid) by {
      assert IsChunk(h, t, [], ChunkOf(h, t, []));
      assert forall id :: id in mid ==> OldOrChunk(h, ChunkSet(h, t, []), s, mid, id);
    }
  }

  /** A run goes on. */
  lemma Extended(h: Hash, u: iset<Bytes>, sts: seq<State>, ops: seq<Op>, op: Op, st: State)
    requires IsRun(h, u, sts, ops) && Next(h, u, sts[|ops|], op, st)
    ensures IsRun(h, u, sts + [st], ops + [op])
  {
    assert (sts + [st])[..|sts|] == sts && (ops + [op])[..|ops|] == ops;
  }

  lemma FlushOn(h: Hash, u: iset<Bytes>, sts: seq<State>, ops: seq<Op>, s: Store) returns (st: State)
    requires IsRun(h, u, sts, ops) && CanFlush(h, u, sts[|ops|].trie)
    requires FlushStep(h, sts[|ops|].store, sts[|ops|].trie, s)
    ensures st == State(s, sts[|ops|].trie, sts[|ops|].log + [sts[|ops|].trie])
    ensures IsRun(h, u, sts + [st], ops + [Flush])
  {
    st := State(s, sts[|ops|].trie, sts[|ops|].log + [sts[|ops|].trie]);
    Extended(h, u, sts, ops, Flush, st);
  }

  /** A run that ends in flushing a trie that shadows one flushed before. */
  lemma Shadowed(h: Hash, u: iset<Bytes>, sts: seq<State>, ops: seq<Op>, n: nat, i: nat)
    requires Injective(h, u) && NoZeroHash(h, u) && IsRun(h, u, sts, ops) && |ops| == n + 1 && ops[n] == Flush
    requires Savable(ItemsOf(sts[n].trie)) && i < |sts[n].log| && Shadows(h, sts[n].trie, sts[n].log[i])
    ensures !Exact(h, sts[n + 1].store, sts[n].log[i])
  {
    RunInv(h, u, sts, ops);
    NewExactAt(h, u, sts[n], sts[n + 1], i);
  }

  /** Flush an empty tree, store the mark of an empty leaf, and flush again: the root of the first
      flush opens to its values, and after the second to a key that it did not hold. */
  lemma LostRoot(h: Hash, u: iset<Bytes>, w: Write, e: Tree, t: Tree) returns (sts: seq<State>, ops: seq<Op>)
    requires w.key != ZERO_KEY && w.val == h([]) && w.val != Zeros(32) && e == Empty() && t == WriteTrie(e, w)
    requires Injective(h, u) && NoZeroHash(h, u) && CanFlush(h, u, e) && CanFlush(h, u, t)
    ensures IsRun(h, u, sts, ops) && |sts| == 4 && sts[3].log == [e] + [t] && AllSavable(sts[3].log)
    ensures Exact(h, sts[1].store, e) && !Exact(h, sts[3].store, e)
  {
    LostPair(h, w, e, t);
    sts, ops := LostRun(h, u, w, e, t);
    LostEnd(h, u, sts, ops, 2, e, t);
  }

  lemma SavableAppend(log: seq<Tree>, t: Tree)
    requires AllSavable(log) && Savable(ItemsOf(t))
    ensures AllSavable(log + [t])
  {
  }

  lemma LostEnd(h: Hash, u: iset<Bytes>, sts: seq<State>, ops: seq<Op>, n: nat, e: Tree, t: Tree)
    requires Injective(h, u) && NoZeroHash(h, u) && IsRun(h, u, sts, ops) && |ops| == n + 1 && ops[n] == Flush
    requires AllSavable([e]) && Savable(ItemsOf(t)) && Shadows(h, t, e)
    requires sts[n].log == [e] && sts[n].trie == t && sts[n + 1].log == [e] + [t]
    ensures AllSavable(sts[n + 1].log) && !Exact(h, sts[n + 1].store, e)
  {
    SavableAppend([e], t);
    Shadowed(h, u, sts, ops, n, 0);
  }

  lemma LostRun(h: Hash, u: iset<Bytes>, w: Write, e: Tree, t: Tree) returns (sts: seq<State>, ops: seq<Op>)
    requires e == Empty() && t == WriteTrie(e, w) && CanFlush(h, u, e) && CanFlush(h, u, t)
    ensures IsRun(h, u, sts, ops) && |sts| == 4 && ops[2] == Flush
    ensures sts[1] == State(map[RootOf(h, e, []) := []], e, [e]) && sts[2] == sts[1].(trie := t)
    ensures sts[3].log == [e] + [t]
  {
    EmptyFlush(h);
    var s1: Store := map[RootOf(h, e, []) := []];
    sts, ops := [State(map[], e, [])], [];
    var c := FlushOn(h, u, sts, ops, s1);
    assert [] + [e] == [e];
    assert c == State(s1, e, [e]);
    sts, ops := sts + [c], ops + [Flush];
    Extended(h, u, sts, ops, Put(w), c.(trie := t));
    sts, ops := sts + [c.(trie := t)], ops + [Put(w)];
    OneFlush(h, s1, w);
    var f := FlushOn(h, u, sts, ops, s1[ChunkId(h, t, []) := ChunkOf(h, t, [])][RootOf(h, t, []) := Pointer(h, t)]);
    sts, ops := sts + [f], ops + [Flush];
  }

  lemma EmptyExact(h: Hash)
    ensures Exact(h, map[RootOf(h, Empty(), []) := []], Empty())
  {
  }

  lemma OneSavable(w: Write)
    requires w.key != ZERO_KEY && |w.val| == 32 && w.val != Zeros(32)
    ensures Savable(ItemsOf(Empty())) && Savable(ItemsOf(WriteTrie(Empty(), w)))
  {
    OneValue(w);
    var m, e := ItemsOf(WriteTrie(Empty(), w)), ItemsOf(Empty());
    assert forall k :: k in e ==> k in ValuesOf(e);
    assert forall k :: k in m ==> k in ValuesOf(m) && m[k].val == ValuesOf(m)[k];
  }

  /** A trie with one mark of an empty leaf shadows the empty trie. */
  lemma OneShadows(h: Hash, w: Write)
    requires w.val == h([])
    ensures Shadows(h, WriteTrie(Empty(), w), Empty())
  {
    OneValue(w);
    assert w.key in map[w.key := w.val];
    LeavesFixPairs(h, map[w.key := w.val], map[]);
  }

  lemma LostPair(h: Hash, w: Write, e: Tree, t: Tree)
    requires w.key != ZERO_KEY && w.val == h([]) && w.val != Zeros(32) && e == Empty() && t == WriteTrie(e, w)
    ensures Shadows(h, t, e) && AllSavable([e]) && Savable(ItemsOf(t)) && Exact(h, map[RootOf(h, e, []) := []], e)
  {
    OneShadows(h, w);
    OneSavable(w);
    EmptyExact(h);
  }
}
