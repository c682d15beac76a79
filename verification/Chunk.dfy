/** A branch saved as a 4096-byte chunk: sixteen rows of 88 bytes, each with a child's key,
    hash, storage, Merkle root and block number. The chunk is stored under its hash. A row
    with a zero hash reads back as a free slot, and one with a zero key as a branch. */
module Chunk {
  import opened Bytes
  import opened Keys
  import opened PlainTree
  import opened Tries
  import opened TrieRoot

  type Store = map<Bytes, Bytes>

  /** `copy` into a fresh 32-byte field: cut or filled up with zeros. */
  function Fit32(x: Bytes): (r: Bytes)
    ensures |r| == 32 && (|x| == 32 ==> r == x)
  {
    if |x| >= 32 then x[..32] else x + Zeros(32 - |x|)
  }

  datatype Row = Row(key: Bytes, hash: Bytes, bytes: UInt64, root: Bytes, block: UInt64)

  function EncodeRow(r: Row): (c: Bytes)
    requires |r.key| == 8 && |r.hash| == 32 && |r.root| == 32
    ensures |c| == 88
  {
    r.key + r.hash + UInt64ToByte(r.bytes) + r.root + UInt64ToByte(r.block)
  }

  function DecodeRow(c: Bytes): Row
    requires |c| == 88
  {
    Row(c[..8], c[8..40], BytesToUint64(c[40..48]), c[48..80], BytesToUint64(c[80..88]))
  }

  /** Cutting where parts were joined gives them back. */
  lemma Cut(a: Bytes, b: Bytes, i: nat)
    requires i == |a|
    ensures (a + b)[..i] == a && (a + b)[i..] == b
  {
  }

  lemma Parts(a: Bytes, b: Bytes, c: Bytes, d: Bytes, e: Bytes, i: nat, j: nat, k: nat, l: nat)
    requires i == |a| && j == i + |b| && k == j + |c| && l == k + |d|
    ensures var s := a + b + c + d + e;
      s[..i] == a && s[i..j] == b && s[j..k] == c && s[k..l] == d && s[l..] == e
  {
    var abc, abcd := a + b + c, a + b + c + d;
    var s := abcd + e;
    Cut(abcd, e, l);
    Cut(abc, d, k);
    Cut(a + b, c, j);
    Cut(a, b, i);
    assert s[..i] == s[..l][..k][..j][..i];
    assert s[i..j] == s[..l][..k][..j][i..];
    assert s[j..k] == s[..l][..k][j..];
    assert s[k..l] == s[..l][k..];
  }

  lemma RowRoundTrip(r: Row)
    requires |r.key| == 8 && |r.hash| == 32 && |r.root| == 32
    ensures DecodeRow(EncodeRow(r)) == r
  {
    Parts(r.key, r.hash, UInt64ToByte(r.bytes), r.root, UInt64ToByte(r.block), 8, 40, 48, 80);
    assert EncodeRow(r)[80..] == EncodeRow(r)[80..88];
  }

  ghost function RowOf(h: Hash, t: Trie, p: seq<bool>, j: nat): (r: Row)
    requires t.Branch? && Fits(t, p) && j < 16 && t.kids[j].Some?
    ensures |r.key| == 8 && |r.hash| == 32 && |r.root| == 32
    decreases t, 0
  {
    var kid, q := t.kids[j].value, p + BitsOf(4, j);
    var root := Fit32(RootOf(h, kid, q));
    if kid.Term? then Row(kid.key, Fit32(kid.val), kid.bytes, root, kid.block)
    else Row(Zeros(8), ChunkId(h, kid, q), kid.bytes, root, kid.block)
  }

  ghost function RowBytes(h: Hash, t: Trie, p: seq<bool>, j: nat): (c: Bytes)
    requires t.Branch? && Fits(t, p) && j < 16
    ensures |c| == 88
    decreases t, 1
  {
    if t.kids[j].None? then Zeros(88) else EncodeRow(RowOf(h, t, p, j))
  }

  ghost function Rows(h: Hash, t: Trie, p: seq<bool>, n: nat): (c: Bytes)
    requires t.Branch? && Fits(t, p) && n <= 16
    ensures |c| == 88 * n
    decreases t, 2, n
  {
    if n == 0 then [] else Rows(h, t, p, n - 1) + RowBytes(h, t, p, n - 1)
  }

  ghost function ChunkOf(h: Hash, t: Trie, p: seq<bool>): (c: Bytes)
    requires t.Branch? && Fits(t, p)
    ensures |c| == 4096
    decreases t, 3
  {
    Rows(h, t, p, 16) + Zeros(2688)
  }

  ghost function ChunkId(h: Hash, t: Trie, p: seq<bool>): (id: Bytes)
    requires t.Branch? && Fits(t, p)
    ensures |id| == 32
    decreases t, 4
  {
    h(ChunkOf(h, t, p))
  }

  lemma {:induction false} RowInRows(h: Hash, t: Trie, p: seq<bool>, n: nat, j: nat)
    requires t.Branch? && Fits(t, p) && j < n <= 16
    ensures Rows(h, t, p, n)[88 * j..88 * j + 88] == RowBytes(h, t, p, j)
  {
    var a, b := Rows(h, t, p, n - 1), RowBytes(h, t, p, n - 1);
    if j < n - 1 {
      RowInRows(h, t, p, n - 1, j);
      assert (a + b)[88 * j..88 * j + 88] == a[88 * j..88 * j + 88];
    } else {
      assert (a + b)[88 * j..88 * j + 88] == b;
    }
  }

  /** The rows of a chunk can be read back. */
  lemma RowInChunk(h: Hash, t: Trie, p: seq<bool>, j: nat)
    requires t.Branch? && Fits(t, p) && j < 16
    ensures ChunkOf(h, t, p)[88 * j..88 * j + 88] == RowBytes(h, t, p, j)
  {
    RowInRows(h, t, p, 16, j);
    assert ChunkOf(h, t, p)[88 * j..88 * j + 88] == Rows(h, t, p, 16)[88 * j..88 * j + 88];
  }

  function RowAt(c: Bytes, j: nat): Row
    requires j < 16 && |c| >= 1408
  {
    DecodeRow(c[88 * j..88 * j + 88])
  }

  lemma ZeroRow()
    ensures DecodeRow(Zeros(88)).hash == Zeros(32)
  {
  }

  lemma ReadRow(h: Hash, t: Trie, p: seq<bool>, j: nat)
    requires t.Branch? && Fits(t, p) && j < 16
    ensures t.kids[j].None? ==> RowAt(ChunkOf(h, t, p), j).hash == Zeros(32)
    ensures t.kids[j].Some? ==> RowAt(ChunkOf(h, t, p), j) == RowOf(h, t, p, j)
  {
    RowInChunk(h, t, p, j);
    if t.kids[j].None? {
      ZeroRow();
    } else {
      RowRoundTrip(RowOf(h, t, p, j));
    }
  }

  lemma RowLayout(r: Row, c: Bytes)
    requires |r.key| == 8 && |r.hash| == 32 && |r.root| == 32 && c == EncodeRow(r)
    ensures c[..8] == r.key && c[8..40] == r.hash && c[48..80] == r.root
    ensures BytesToUint64(c[40..48]) == r.bytes && BytesToUint64(c[80..]) == r.block
  {
    Parts(r.key, r.hash, UInt64ToByte(r.bytes), r.root, UInt64ToByte(r.block), 8, 40, 48, 80);
  }

  /** Where a child is in its parent's chunk: its key at byte 0 of its row, zero for a branch; its value or
      the hash of its own chunk at byte 8; its storage at byte 40; its Merkle root at byte 48 and its
      block number at byte 80. A free slot and what follows the sixteen rows are zero. */
  lemma ChunkLayout(h: Hash, t: Trie, p: seq<bool>, j: nat, c: Bytes, q: seq<bool>)
    requires t.Branch? && Fits(t, p) && j < 16 && c == ChunkOf(h, t, p)[88 * j..88 * j + 88] && q == p + BitsOf(4, j)
    ensures t.kids[j].None? ==> c == Zeros(88)
    ensures t.kids[j].Some? ==>
      var kid := t.kids[j].value;
      && c[..8] == (if kid.Term? then kid.key else Zeros(8))
      && c[8..40] == (if kid.Term? then Fit32(kid.val) else h(ChunkOf(h, kid, q)))
      && BytesToUint64(c[40..48]) == kid.bytes && c[48..80] == Fit32(RootOf(h, kid, q))
      && BytesToUint64(c[80..]) == kid.block
    ensures ChunkOf(h, t, p)[1408..] == Zeros(2688)
  {
    RowInChunk(h, t, p, j);
    Padding(h, t, p, 16);
    if t.kids[j].Some? {
      RowFields(h, t, p, j, t.kids[j].value, q);
      RowLayout(RowOf(h, t, p, j), c);
    }
  }

  lemma Padding(h: Hash, t: Trie, p: seq<bool>, n: nat)
    requires t.Branch? && Fits(t, p) && n == 16
    ensures ChunkOf(h, t, p)[1408..] == Zeros(2688)
  {
    Cut(Rows(h, t, p, n), Zeros(2688), 1408);
  }

  lemma RowFields(h: Hash, t: Trie, p: seq<bool>, j: nat, kid: Trie, q: seq<bool>)
    requires t.Branch? && Fits(t, p) && j < 16 && t.kids[j] == Some(kid) && q == p + BitsOf(4, j)
    ensures var r := RowOf(h, t, p, j);
      && r.key == (if kid.Term? then kid.key else Zeros(8))
      && r.hash == (if kid.Term? then Fit32(kid.val) else h(ChunkOf(h, kid, q)))
      && r.bytes == kid.bytes && r.root == Fit32(RootOf(h, kid, q)) && r.block == kid.block
  {
  }

  /** A branch's chunk does not depend on the branch's own totals. */
  lemma {:induction false} SameRows(h: Hash, t: Trie, r: Trie, p: seq<bool>, n: nat)
    requires t.Branch? && Fits(t, p) && r.Branch? && r.kids == t.kids && n <= 16
    ensures Fits(r, p) && Rows(h, r, p, n) == Rows(h, t, p, n)
  {
    if n > 0 {
      SameRows(h, t, r, p, n - 1);
      assert t.kids[n - 1].Some? ==> RowOf(h, r, p, n - 1) == RowOf(h, t, p, n - 1);
    }
  }

  lemma SameChunk(h: Hash, s: Store, t: Trie, r: Trie, p: seq<bool>)
    requires t.Branch? && Fits(t, p) && r.Branch? && r.kids == t.kids
    ensures Fits(r, p) && ChunkOf(h, r, p) == ChunkOf(h, t, p)
    ensures Stored(h, s, r, p) <==> Stored(h, s, t, p)
    ensures ChunkSet(h, r, p) == ChunkSet(h, t, p)
  {
    SameRows(h, t, r, p, 16);
    forall c
      ensures IsChunk(h, r, p, c) <==> IsChunk(h, t, p, c)
    {
    }
  }

  // ----- Stored tries -----

  /** The store holds the chunks of the branch and of every branch below it. */
  ghost predicate Stored(h: Hash, s: Store, t: Trie, p: seq<bool>)
    requires Fits(t, p)
    decreases t
  {
    t.Branch? ==>
      && ChunkId(h, t, p) in s && s[ChunkId(h, t, p)] == ChunkOf(h, t, p)
      && forall j :: 0 <= j < 16 && t.kids[j].Some? ==> Stored(h, s, t.kids[j].value, p + BitsOf(4, j))
  }

  /** `c` is the chunk of some branch of the trie. */
  ghost predicate IsChunk(h: Hash, t: Trie, p: seq<bool>, c: Bytes)
    requires Fits(t, p)
    decreases t
  {
    t.Branch? &&
    (c == ChunkOf(h, t, p)
     || exists j :: 0 <= j < 16 && t.kids[j].Some? && IsChunk(h, t.kids[j].value, p + BitsOf(4, j), c))
  }

  ghost function ChunkSet(h: Hash, t: Trie, p: seq<bool>): iset<Bytes>
    requires Fits(t, p)
  {
    iset c: Bytes | IsChunk(h, t, p, c)
  }

  lemma KidChunks(h: Hash, t: Trie, p: seq<bool>, j: nat)
    requires t.Branch? && Fits(t, p) && j < 16 && t.kids[j].Some?
    ensures ChunkSet(h, t.kids[j].value, p + BitsOf(4, j)) <= ChunkSet(h, t, p)
  {
  }

  lemma {:induction false} ChunkSize(h: Hash, t: Trie, p: seq<bool>, c: Bytes)
    requires Fits(t, p) && IsChunk(h, t, p, c)
    ensures |c| == 4096
    decreases t
  {
    if c != ChunkOf(h, t, p) {
      var j :| 0 <= j < 16 && t.kids[j].Some? && IsChunk(h, t.kids[j].value, p + BitsOf(4, j), c);
      ChunkSize(h, t.kids[j].value, p + BitsOf(4, j), c);
    }
  }

  /** The new entry is an old one or a chunk of `u` under its hash. */
  ghost predicate OldOrChunk(h: Hash, u: iset<Bytes>, s: Store, s': Store, id: Bytes)
    requires id in s'
  {
    (id in s && s'[id] == s[id]) || (s'[id] in u && h(s'[id]) == id)
  }

  /** The store grew by chunks of `u` only. */
  ghost predicate Grew(h: Hash, u: iset<Bytes>, s: Store, s': Store) {
    s.Keys <= s'.Keys && forall id :: id in s' ==> OldOrChunk(h, u, s, s', id)
  }

  lemma GrewTrans(h: Hash, u: iset<Bytes>, v: iset<Bytes>, s: Store, s': Store, s'': Store)
    requires Grew(h, u, s, s') && Grew(h, u, s', s'') && u <= v
    ensures Grew(h, v, s, s'')
  {
    forall id | id in s''
      ensures OldOrChunk(h, v, s, s'', id)
    {
      assert OldOrChunk(h, u, s', s'', id);
      if id in s' {
        assert OldOrChunk(h, u, s, s', id);
      }
    }
  }

  lemma GrewMore(h: Hash, u: iset<Bytes>, v: iset<Bytes>, s: Store, s': Store)
    requires Grew(h, u, s, s') && u <= v
    ensures Grew(h, v, s, s')
  {
    forall id | id in s'
      ensures OldOrChunk(h, v, s, s', id)
    {
      assert OldOrChunk(h, u, s, s', id);
    }
  }

  /** The new store has the chunk if the old one had it. */
  ghost predicate KeepsChunk(h: Hash, s: Store, s': Store, c: Bytes) {
    h(c) in s && s[h(c)] == c ==> h(c) in s' && s'[h(c)] == c
  }

  ghost predicate KeepsChunks(h: Hash, u: iset<Bytes>, s: Store, s': Store) {
    forall c :: c in u ==> KeepsChunk(h, s, s', c)
  }

  lemma {:induction false} StoredStays(h: Hash, s: Store, s': Store, t: Trie, p: seq<bool>)
    requires Fits(t, p) && Stored(h, s, t, p) && KeepsChunks(h, ChunkSet(h, t, p), s, s')
    ensures Stored(h, s', t, p)
    decreases t
  {
    if t.Branch? {
      var c := ChunkOf(h, t, p);
      assert IsChunk(h, t, p, c);
      assert KeepsChunk(h, s, s', c);
      forall j | 0 <= j < 16 && t.kids[j].Some?
        ensures Stored(h, s', t.kids[j].value, p + BitsOf(4, j))
      {
        KidChunks(h, t, p, j);
        StoredStays(h, s, s', t.kids[j].value, p + BitsOf(4, j));
      }
    }
  }

  /** Without collisions, adding chunks keeps the chunks there are. */
  lemma GrewKeeps(h: Hash, u: iset<Bytes>, v: iset<Bytes>, s: Store, s': Store)
    requires Grew(h, u, s, s') && Injective(h, v) && u <= v
    ensures KeepsChunks(h, v, s, s')
  {
    forall c | c in v
      ensures KeepsChunk(h, s, s', c)
    {
      if h(c) in s && s[h(c)] == c {
        assert OldOrChunk(h, u, s, s', h(c));
        if s'[h(c)] != c {
          NoCollision(h, v, s'[h(c)], c);
        }
      }
    }
  }

  /** So does an entry under the hash of something that is no chunk. */
  lemma EntryKeeps(h: Hash, u: iset<Bytes>, v: iset<Bytes>, s: Store, x: Bytes, y: Bytes)
    requires Injective(h, v) && u <= v && x in v && x !in u
    ensures KeepsChunks(h, u, s, s[h(x) := y])
  {
    forall c | c in u
      ensures KeepsChunk(h, s, s[h(x) := y], c)
    {
      if h(c) == h(x) {
        NoCollision(h, v, c, x);
      }
    }
  }

  // ----- Reading back -----

  /** What a lookup reads from the store: an item, nothing, or a chunk or key too short to
      slice. A chunk that is not in the store leaves the node without children. */
  datatype Reading = Found(item: Item) | Absent | Broken

  function ReadGet(s: Store, id: Bytes, k: Key, d: nat): Reading
    decreases 16 - d
  {
    if d >= 16 then Broken
    else if id !in s then Absent
    else if |s[id]| < 1408 then Broken
    else
      var r := RowAt(s[id], KeyPiece(k, d));
      if r.hash == Zeros(32) then Absent
      else if r.key == Zeros(8) then ReadGet(s, r.hash, k, d + 1)
      else if r.key == k then Found(Item(r.hash, r.bytes, r.block))
      else Absent
  }

  const ZERO_KEY: Key := Zeros(8)

  /** The all-zero key is never read back. */
  lemma {:induction false} ZeroKeyLost(s: Store, id: Bytes, d: nat)
    ensures !ReadGet(s, id, ZERO_KEY, d).Found?
    decreases 16 - d
  {
    if d < 16 && id in s && |s[id]| >= 1408 {
      ZeroKeyLost(s, RowAt(s[id], KeyPiece(ZERO_KEY, d)).hash, d + 1);
    }
  }

  /** No chunk of the trie hashes to zero. */
  ghost predicate NoZeroHash(h: Hash, u: iset<Bytes>) {
    forall c :: c in u ==> h(c) != Zeros(32)
  }

  /** What comes back for an item that was stored. */
  function ReadBack(o: Option<Item>): Reading {
    if o.None? || Fit32(o.value.val) == Zeros(32) then Absent
    else Found(Item(Fit32(o.value.val), o.value.bytes, o.value.block))
  }

  /** One level of a lookup in a stored trie. */
  lemma ReadLevel(h: Hash, s: Store, t: Trie, p: seq<bool>, k: Key, d: nat, o: Option<Trie>, read: Reading,
                  found: Option<Item>)
    requires t.Branch? && Fits(t, p) && |p| == 4 * d && ChunkId(h, t, p) in s && s[ChunkId(h, t, p)] == ChunkOf(h, t, p)
    requires o == t.kids[Slot(p, k)] && read == ReadGet(s, ChunkId(h, t, p), k, d) && found == Find(t, p, k)
    ensures o.None? || (o.value.Term? && o.value.key != ZERO_KEY) ==> read == ReadBack(found)
    ensures o.Some? && o.value.Branch? && ChunkId(h, o.value, Below(p, k)) != Zeros(32) ==>
      read == ReadGet(s, ChunkId(h, o.value, Below(p, k)), k, d + 1) && found == Find(o.value, Below(p, k), k)
  {
    assert |p| / 4 == d && Slot(p, k) == KeyPiece(k, d);
    ReadRow(h, t, p, Slot(p, k));
    ReadOne(s, ChunkId(h, t, p), k, d, RowAt(ChunkOf(h, t, p), Slot(p, k)));
  }

  /** One level of a lookup: what the row for the key says. */
  lemma ReadOne(s: Store, id: Bytes, k: Key, d: nat, r: Row)
    requires d < 16 && id in s && |s[id]| >= 1408 && r == RowAt(s[id], KeyPiece(k, d))
    ensures ReadGet(s, id, k, d) ==
      if r.hash == Zeros(32) then Absent
      else if r.key == Zeros(8) then ReadGet(s, r.hash, k, d + 1)
      else if r.key == k then Found(Item(r.hash, r.bytes, r.block))
      else Absent
  {
  }

  lemma KidChunkId(h: Hash, t: Trie, p: seq<bool>, j: nat)
    requires t.Branch? && Fits(t, p) && j < 16 && t.kids[j].Some? && t.kids[j].value.Branch?
    requires NoZeroHash(h, ChunkSet(h, t, p))
    ensures ChunkId(h, t.kids[j].value, p + BitsOf(4, j)) != Zeros(32)
    ensures NoZeroHash(h, ChunkSet(h, t.kids[j].value, p + BitsOf(4, j)))
  {
    KidChunks(h, t, p, j);
    var kid, q := t.kids[j].value, p + BitsOf(4, j);
    assert IsChunk(h, kid, q, ChunkOf(h, kid, q));
    assert ChunkOf(h, kid, q) in ChunkSet(h, kid, q);
  }

  /** No terminal holds the zero key. */
  ghost predicate NoZeroKey(t: Trie) {
    if t.Term? then t.key != ZERO_KEY
    else forall j :: 0 <= j < |t.kids| && t.kids[j].Some? ==> NoZeroKey(t.kids[j].value)
  }

  lemma {:induction false} ZeroKeyFound(t: Trie, p: seq<bool>)
    requires t.Branch? && Fits(t, p) && !NoZeroKey(t)
    ensures Under(p, ZERO_KEY) && Find(t, p, ZERO_KEY).Some?
    decreases t
  {
    var j :| 0 <= j < 16 && t.kids[j].Some? && !NoZeroKey(t.kids[j].value);
    if t.kids[j].value.Branch? {
      ZeroKeyFound(t.kids[j].value, p + BitsOf(4, j));
    }
    FindKidUnder(t, p, j, ZERO_KEY);
  }

  /** A stored trie without the zero key. */
  ghost predicate Saves(h: Hash, s: Store, t: Trie, p: seq<bool>, d: nat) {
    && t.Branch? && Fits(t, p) && |p| == 4 * d && Stored(h, s, t, p)
    && NoZeroHash(h, ChunkSet(h, t, p)) && NoZeroKey(t)
  }

  /** A lookup in the store reads back what is found in memory. */
  ghost predicate Reads(h: Hash, s: Store, t: Trie, p: seq<bool>, k: Key, d: nat)
    requires t.Branch? && Fits(t, p)
  {
    ReadGet(s, ChunkId(h, t, p), k, d) == ReadBack(Find(t, p, k))
  }

  lemma KidSaves(h: Hash, s: Store, t: Trie, p: seq<bool>, k: Key, d: nat, kid: Trie)
    requires Saves(h, s, t, p, d) && t.kids[Slot(p, k)] == Some(kid)
    ensures if kid.Term? then kid.key != ZERO_KEY
      else Saves(h, s, kid, Below(p, k), d + 1) && ChunkId(h, kid, Below(p, k)) != Zeros(32)
  {
    assert NoZeroKey(kid);
    if kid.Branch? { KidChunkId(h, t, p, Slot(p, k)); }
  }

  /** One level down: the lookup ends here, or goes on in a child that is stored too. */
  lemma ReadStep(h: Hash, s: Store, t: Trie, p: seq<bool>, k: Key, d: nat) returns (kid: Trie, q: seq<bool>)
    requires Saves(h, s, t, p, d)
    ensures Reads(h, s, t, p, k, d) ||
      (Saves(h, s, kid, q, d + 1) && kid < t && (Reads(h, s, kid, q, k, d + 1) ==> Reads(h, s, t, p, k, d)))
  {
    var o := t.kids[Slot(p, k)];
    kid, q := t, p;
    ReadLevel(h, s, t, p, k, d, o, ReadGet(s, ChunkId(h, t, p), k, d), Find(t, p, k));
    if o.Some? {
      kid, q := o.value, Below(p, k);
      KidSaves(h, s, t, p, k, d, kid);
    }
  }

  /** Every lookup in it reads back what is found in memory. */
  lemma {:induction false} ReadsBack(h: Hash, s: Store, t: Trie, p: seq<bool>, k: Key, d: nat)
    requires Saves(h, s, t, p, d)
    ensures Reads(h, s, t, p, k, d)
    decreases t
  {
    var kid, q := ReadStep(h, s, t, p, k, d);
    if !Reads(h, s, t, p, k, d) { ReadsBack(h, s, kid, q, k, d + 1); }
  }

  /** Keys and values that survive a save: no zero key, and nonzero words for values. */
  predicate Savable(m: Items) {
    forall k :: k in m ==> k != ZERO_KEY && |m[k].val| == 32 && m[k].val != Zeros(32)
  }

  function AsReading(o: Option<Item>): Reading {
    if o.None? then Absent else Found(o.value)
  }

  /** Persistence round trip, exactly: a stored trie answers every lookup as it did in
      memory if and only if no key is zero and every value is a nonzero word. */
  lemma RoundTripIff(h: Hash, s: Store, t: Trie, m: Items)
    requires t.Branch? && Fits(t, []) && Holds(t, [], m)
    requires Stored(h, s, t, []) && NoZeroHash(h, ChunkSet(h, t, []))
    ensures Savable(m) <==> forall k: Key :: ReadGet(s, ChunkId(h, t, []), k, 0) == AsReading(Get(m, k))
  {
    var id := ChunkId(h, t, []);
    assert Under([], ZERO_KEY);
    if ZERO_KEY in m {
      ZeroKeyLost(s, id, 0);
    } else {
      if !NoZeroKey(t) {
        ZeroKeyFound(t, []);
      }
      forall k: Key
        ensures ReadGet(s, id, k, 0) == ReadBack(Get(m, k))
      {
        ReadsBack(h, s, t, [], k, 0);
      }
      if !Savable(m) {
        var k :| k in m && (|m[k].val| != 32 || m[k].val == Zeros(32));
        assert ReadGet(s, id, k, 0) == ReadBack(Get(m, k));
        assert ReadBack(Get(m, k)) != AsReading(Get(m, k));
      }
    }
  }
}
