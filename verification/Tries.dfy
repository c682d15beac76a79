/** The 16-way trie as a value. A terminal holds a key and its value at whatever depth its
    slot was free; inserting a second key into an occupied slot pushes the terminal down. */
module Tries {
  import opened Bytes
  import opened Keys
  import opened PlainTree

  datatype Trie =
    | Term(key: Key, val: Bytes, bytes: UInt64, block: UInt64)
    | Branch(kids: seq<Option<Trie>>, bytes: UInt64, block: UInt64)

  /** What the map holds for a key: its value, the storage charged and the block number. */
  datatype Item = Item(val: Bytes, bytes: UInt64, block: UInt64)

  type Items = map<Key, Item>

  /** Sixteen free slots. */
  function NoKids(): (r: seq<Option<Trie>>)
    ensures |r| == 16 && forall j :: 0 <= j < 16 ==> r[j] == None
  {
    seq(16, i => None)
  }

  function Empty(): (r: Trie)
    ensures r.Branch? && r.kids == NoKids()
  {
    Branch(NoKids(), 0, 0)
  }

  /** The trie has its place below path `p`: sixteen slots at every branch, every key in
      the slots its nibbles name, and no branch below depth fifteen. */
  ghost predicate Fits(t: Trie, p: seq<bool>)
    decreases t
  {
    match t
    case Term(k, _, _, _) => Under(p, k)
    case Branch(kids, _, _) =>
      && |p| <= 60 && |p| % 4 == 0 && |kids| == 16
      && forall j :: 0 <= j < 16 && kids[j].Some? ==> Fits(kids[j].value, p + BitsOf(4, j))
  }

  function Slot(p: seq<bool>, k: Key): (j: nat)
    requires |p| <= 60
    ensures j < 16
  {
    KeyPiece(k, |p| / 4)
  }

  function Below(p: seq<bool>, k: Key): (q: seq<bool>)
    requires |p| <= 60
    ensures |q| == |p| + 4
  {
    p + BitsOf(4, Slot(p, k))
  }

  ghost function Find(t: Trie, p: seq<bool>, k: Key): Option<Item>
    requires t.Branch? && Fits(t, p)
    decreases t
  {
    var o := t.kids[Slot(p, k)];
    if o.None? then None
    else if o.value.Branch? then Find(o.value, Below(p, k), k)
    else if o.value.key == k then Some(ItemOf(o.value))
    else None
  }

  function ItemOf(t: Trie): Item
    requires t.Term?
  {
    Item(t.val, t.bytes, t.block)
  }

  /** The sum of the children's storage, with 64-bit wrap-around. */
  function Tot(kids: seq<Option<Trie>>): UInt64 {
    if kids == [] then 0
    else
      var last := kids[|kids| - 1];
      if last.None? then Tot(kids[..|kids| - 1]) else (Tot(kids[..|kids| - 1]) + last.value.bytes) % TWO_64
  }

  lemma TotStep(kids: seq<Option<Trie>>, i: nat)
    requires i < |kids|
    ensures Tot(kids[..i + 1])
         == if kids[i].None? then Tot(kids[..i]) else (Tot(kids[..i]) + kids[i].value.bytes) % TWO_64
  {
    assert kids[..i + 1][..i] == kids[..i];
  }

  lemma KeyBelow(p: seq<bool>, k: Key)
    requires |p| <= 60 && |p| % 4 == 0 && Under(p, k)
    ensures Under(Below(p, k), k)
  {
    UnderPiece(p, k, |p| / 4, Slot(p, k));
  }

  /** Two different keys in one slot leave room for a branch below it. */
  lemma RoomToSplit(q: seq<bool>, k: Key, l: Key)
    requires |q| <= 64 && Under(q, k) && Under(q, l) && k != l
    ensures |q| < 64
  {
    if |q| == 64 {
      assert Path(k) == q == Path(l);
      PathInjective(k, l);
    }
  }

  /** Insert below `p`. */
  ghost function Insert(t: Trie, p: seq<bool>, k: Key, v: Bytes, b: UInt64, n: UInt64): (r: Trie)
    requires t.Branch? && Fits(t, p) && Under(p, k)
    ensures r.Branch? && Fits(r, p) && r.block == t.block
    decreases 60 - |p|, 1
  {
    KeyBelow(p, k);
    var j, q := Slot(p, k), Below(p, k);
    var kid := InsertKid(t.kids[j], q, k, v, b, n);
    var kids := t.kids[j := Some(kid)];
    Branch(kids, Tot(kids), t.block)
  }

  /** Insert into the slot at path `q`. */
  ghost function InsertKid(o: Option<Trie>, q: seq<bool>, k: Key, v: Bytes, b: UInt64, n: UInt64): (r: Trie)
    requires |q| % 4 == 0 && 4 <= |q| <= 64 && Under(q, k) && (o.Some? ==> Fits(o.value, q))
    ensures Fits(r, q)
    decreases 64 - |q|, 0
  {
    if o.None? then Term(k, v, b, n)
    else
      var t := o.value;
      if t.Branch? then Insert(t, q, k, v, b, n)
      else if t.key == k then
        if t.val == v then t else Term(k, v, (t.bytes + b) % TWO_64, n)
      else
        RoomToSplit(q, k, t.key);
        Insert(Insert(Branch(NoKids(), t.bytes, t.block), q, t.key, t.val, t.bytes, t.block), q, k, v, b, n)
  }

  // ----- The trie refines a map -----

  function Get(m: Items, k: Key): Option<Item> {
    if k in m then Some(m[k]) else None
  }

  /** Writing an equal value changes nothing, not even the block number; writing a new
      value adds to the storage already charged. */
  function Updated(o: Option<Item>, v: Bytes, b: UInt64, n: UInt64): Item {
    if o.None? then Item(v, b, n)
    else if o.value.val == v then o.value
    else Item(v, (o.value.bytes + b) % TWO_64, n)
  }

  /** A key found in a trie at `p` lies below `p`. */
  lemma {:induction false} FindUnder(t: Trie, p: seq<bool>, k: Key)
    requires t.Branch? && Fits(t, p) && Find(t, p, k).Some?
    ensures Under(p, k)
    decreases t
  {
    var o := t.kids[Slot(p, k)];
    if o.value.Branch? {
      FindUnder(o.value, Below(p, k), k);
    }
    UnderPrefix(p, BitsOf(4, Slot(p, k)), k);
  }

  lemma NoKidsFind(p: seq<bool>, b: UInt64, n: UInt64, k: Key)
    requires |p| <= 60 && |p| % 4 == 0
    ensures Fits(Branch(NoKids(), b, n), p) && Find(Branch(NoKids(), b, n), p, k) == None
  {
  }

  /** What a slot holds for a key below it. */
  ghost function FindKid(o: Option<Trie>, q: seq<bool>, k: Key): Option<Item>
    requires o.Some? ==> Fits(o.value, q)
  {
    if o.None? then None
    else if o.value.Branch? then Find(o.value, q, k)
    else if o.value.key == k then Some(ItemOf(o.value))
    else None
  }

  /** Inserting changes what is found for the inserted key and nothing else. */
  lemma {:induction false} InsertFind(t: Trie, p: seq<bool>, k: Key, v: Bytes, b: UInt64, n: UInt64, l: Key)
    requires t.Branch? && Fits(t, p) && Under(p, k) && Under(p, l)
    ensures Find(Insert(t, p, k, v, b, n), p, l)
         == if l == k then Some(Updated(Find(t, p, k), v, b, n)) else Find(t, p, l)
    decreases 60 - |p|, 1
  {
    KeyBelow(p, k);
    KeyBelow(p, l);
    if Slot(p, l) == Slot(p, k) {
      InsertKidFind(t.kids[Slot(p, k)], Below(p, k), k, v, b, n, l);
    }
  }

  lemma {:induction false} InsertKidFind(o: Option<Trie>, q: seq<bool>, k: Key, v: Bytes, b: UInt64, n: UInt64, l: Key)
    requires |q| % 4 == 0 && 4 <= |q| <= 64 && Under(q, k) && Under(q, l) && (o.Some? ==> Fits(o.value, q))
    ensures FindKid(Some(InsertKid(o, q, k, v, b, n)), q, l)
         == if l == k then Some(Updated(FindKid(o, q, k), v, b, n)) else FindKid(o, q, l)
    decreases 64 - |q|, 0
  {
    if o.Some? {
      var t := o.value;
      if t.Branch? {
        InsertFind(t, q, k, v, b, n, l);
      } else if t.key != k {
        RoomToSplit(q, k, t.key);
        var e := Branch(NoKids(), t.bytes, t.block);
        NoKidsFind(q, t.bytes, t.block, l);
        NoKidsFind(q, t.bytes, t.block, k);
        NoKidsFind(q, t.bytes, t.block, t.key);
        InsertFind(e, q, t.key, t.val, t.bytes, t.block, l);
        InsertFind(e, q, t.key, t.val, t.bytes, t.block, k);
        InsertFind(Insert(e, q, t.key, t.val, t.bytes, t.block), q, k, v, b, n, l);
      }
    }
  }

  /** The trie at `p` and the map hold the same items below `p`. */
  ghost predicate Holds(t: Trie, p: seq<bool>, m: Items)
    requires t.Branch? && Fits(t, p)
  {
    forall k: Key :: Under(p, k) ==> Find(t, p, k) == Get(m, k)
  }

  datatype Write = Write(key: Key, val: Bytes, bytes: UInt64, block: UInt64)

  ghost function WriteMap(m: Items, w: Write): Items {
    m[w.key := Updated(Get(m, w.key), w.val, w.bytes, w.block)]
  }

  ghost function WriteTrie(t: Trie, w: Write): (r: Trie)
    requires t.Branch? && Fits(t, [])
    ensures r.Branch? && Fits(r, [])
  {
    Insert(t, [], w.key, w.val, w.bytes, w.block)
  }

  ghost function WriteAllMap(m: Items, ws: seq<Write>): Items {
    if ws == [] then m else WriteMap(WriteAllMap(m, ws[..|ws| - 1]), ws[|ws| - 1])
  }

  ghost function WriteAllTrie(t: Trie, ws: seq<Write>): (r: Trie)
    requires t.Branch? && Fits(t, [])
    ensures r.Branch? && Fits(r, [])
  {
    if ws == [] then t else WriteTrie(WriteAllTrie(t, ws[..|ws| - 1]), ws[|ws| - 1])
  }

  /** The trie refines the map over every sequence of inserts. */
  lemma {:induction false} TrieRefinesMap(t: Trie, m: Items, ws: seq<Write>)
    requires t.Branch? && Fits(t, []) && Holds(t, [], m)
    ensures Holds(WriteAllTrie(t, ws), [], WriteAllMap(m, ws))
  {
    if ws != [] {
      var us, w := ws[..|ws| - 1], ws[|ws| - 1];
      TrieRefinesMap(t, m, us);
      forall k: Key | Under([], k)
        ensures Find(WriteAllTrie(t, ws), [], k) == Get(WriteAllMap(m, ws), k)
      {
        InsertFind(WriteAllTrie(t, us), [], w.key, w.val, w.bytes, w.block, k);
      }
    }
  }

  // ----- What a run of writes leaves of a key -----

  /** The value that the last write of a key gave it, or the one it had before. */
  function ValueAfter(m: Items, ws: seq<Write>, k: Key): Option<Bytes> {
    if ws == [] then if k in m then Some(m[k].val) else None
    else if ws[|ws| - 1].key == k then Some(ws[|ws| - 1].val) else ValueAfter(m, ws[..|ws| - 1], k)
  }

  /** Write `i` gives its key a value it did not have. */
  predicate Changes(m: Items, ws: seq<Write>, i: nat)
    requires i < |ws|
  {
    ValueAfter(m, ws[..i], ws[i].key) != Some(ws[i].val)
  }

  /** What the first `n` writes charge for a key: the storage of those that change its value. */
  function Charged(m: Items, ws: seq<Write>, k: Key, n: nat): nat
    requires n <= |ws|
  {
    if n == 0 then if k in m then m[k].bytes else 0
    else Charged(m, ws, k, n - 1) + if ws[n - 1].key == k && Changes(m, ws, n - 1) then ws[n - 1].bytes else 0
  }

  /** No write from `i` on changes the value of the key. */
  ghost predicate Quiet(m: Items, ws: seq<Write>, k: Key, i: nat) {
    forall j :: i <= j < |ws| && ws[j].key == k ==> !Changes(m, ws, j)
  }

  lemma {:induction false} ChargedPrefix(m: Items, ws: seq<Write>, k: Key, n: nat, l: nat)
    requires n <= l <= |ws|
    ensures Charged(m, ws[..l], k, n) == Charged(m, ws, k, n)
  {
    if n > 0 {
      ChargedPrefix(m, ws, k, n - 1, l);
      assert ws[..l][..n - 1] == ws[..n - 1];
    }
  }

  lemma QuietPrefix(m: Items, ws: seq<Write>, k: Key, i: nat, l: nat)
    requires Quiet(m, ws, k, i) && l <= |ws|
    ensures Quiet(m, ws[..l], k, i)
  {
    forall j | i <= j < l && ws[..l][j].key == k ensures !Changes(m, ws[..l], j) {
      assert ws[..l][..j] == ws[..j];
      assert !Changes(m, ws, j);
    }
  }

  /** What is found for a key that had `before`, with `charge` to its name. */
  predicate ChargedFor(o: Option<Item>, before: Option<Bytes>, charge: nat) {
    if o.None? then before == None && charge == 0
    else before == Some(o.value.val) && charge % TWO_64 == o.value.bytes
  }

  /** After every run of inserts a key has the value last written to it and is charged, modulo 2^64, with
      the storage of all writes that changed its value. */
  lemma {:induction false} RunCharges(m: Items, ws: seq<Write>, k: Key)
    ensures ChargedFor(Get(WriteAllMap(m, ws), k), ValueAfter(m, ws, k), Charged(m, ws, k, |ws|))
  {
    if ws != [] {
      var l := |ws| - 1;
      RunCharges(m, ws[..l], k);
      ChargedPrefix(m, ws, k, l, l);
      var now := WriteAllMap(m, ws[..l]);
      assert WriteAllMap(m, ws) == WriteMap(now, ws[l]);
      ChargeNext(now, ws[l], k, ValueAfter(m, ws[..l], k), Charged(m, ws, k, l));
    }
  }

  lemma ChargeNext(now: Items, w: Write, k: Key, before: Option<Bytes>, charge: nat)
    requires ChargedFor(Get(now, k), before, charge)
    ensures ChargedFor(Get(WriteMap(now, w), k), if w.key == k then Some(w.val) else before,
                     if w.key == k && before != Some(w.val) then charge + w.bytes else charge)
  {
    SumWraps(charge, w.bytes);
  }

  lemma SumWraps(x: nat, y: UInt64)
    ensures (x + y) % TWO_64 == (x % TWO_64 + y) % TWO_64
  {
  }

  /** Its block number is that of the last write that changed its value. */
  lemma {:induction false} RunStamps(m: Items, ws: seq<Write>, k: Key, i: nat)
    requires i < |ws| && ws[i].key == k && Changes(m, ws, i) && Quiet(m, ws, k, i + 1)
    ensures k in WriteAllMap(m, ws) && WriteAllMap(m, ws)[k].block == ws[i].block
  {
    var l := |ws| - 1;
    RunCharges(m, ws[..l], k);
    if i < l {
      QuietPrefix(m, ws, k, i + 1, l);
      assert ws[..l][..i] == ws[..i];
      RunStamps(m, ws[..l], k, i);
      assert ws[l].key == k ==> !Changes(m, ws, l);
    }
  }

  /** What no write changes stays as it was. */
  lemma {:induction false} RunKeeps(m: Items, ws: seq<Write>, k: Key)
    requires Quiet(m, ws, k, 0)
    ensures Get(WriteAllMap(m, ws), k) == Get(m, k)
  {
    if ws != [] {
      var l := |ws| - 1;
      QuietPrefix(m, ws, k, 0, l);
      RunKeeps(m, ws[..l], k);
      RunCharges(m, ws[..l], k);
      assert ws[l].key == k ==> !Changes(m, ws, l);
    }
  }

  // ----- Crowded branches: where two keys meet -----

  /** A branch has two children, or one that is a branch itself. */
  predicate Forked(t: Trie)
    requires t.Branch? && |t.kids| == 16
  {
    || (exists i, j :: 0 <= i < j < 16 && t.kids[i].Some? && t.kids[j].Some?)
    || (exists i :: 0 <= i < 16 && t.kids[i].Some? && t.kids[i].value.Branch?)
  }

  /** Every branch below the root is over at least two keys. */
  ghost predicate Crowded(t: Trie, p: seq<bool>)
    requires Fits(t, p)
    decreases t
  {
    t.Branch? ==>
      && (p != [] ==> Forked(t))
      && forall j :: 0 <= j < 16 && t.kids[j].Some? ==> Crowded(t.kids[j].value, p + BitsOf(4, j))
  }

  lemma {:induction false} InsertCrowded(t: Trie, p: seq<bool>, k: Key, v: Bytes, b: UInt64, n: UInt64)
    requires t.Branch? && Fits(t, p) && Under(p, k) && Crowded(t, p)
    ensures Crowded(Insert(t, p, k, v, b, n), p)
    decreases 60 - |p|, 1
  {
    KeyBelow(p, k);
    var j, q := Slot(p, k), Below(p, k);
    var o := t.kids[j];
    InsertKidCrowded(o, q, k, v, b, n);
    var r, kid := Insert(t, p, k, v, b, n), InsertKid(o, q, k, v, b, n);
    InsertInSlot(t, p, k, v, b, n, kid);
    if p != [] { StaysForked(t, r, j); }
    CrowdedWith(t, r, p, j, kid);
  }

  lemma StaysForked(t: Trie, r: Trie, s: nat)
    requires t.Branch? && |t.kids| == 16 && Forked(t) && r.Branch? && |r.kids| == 16 && s < 16 && r.kids[s].Some?
    requires forall j :: 0 <= j < 16 && j != s ==> r.kids[j] == t.kids[j]
    requires t.kids[s].Some? && t.kids[s].value.Branch? ==> r.kids[s].value.Branch?
    ensures Forked(r)
  {
    if i, j :| 0 <= i < j < 16 && t.kids[i].Some? && t.kids[j].Some? {
      assert r.kids[i].Some? && r.kids[j].Some?;
    } else {
      var i :| 0 <= i < 16 && t.kids[i].Some? && t.kids[i].value.Branch?;
      assert r.kids[i].Some? && r.kids[i].value.Branch?;
    }
  }

  lemma {:induction false} InsertKidCrowded(o: Option<Trie>, q: seq<bool>, k: Key, v: Bytes, b: UInt64, n: UInt64)
    requires |q| % 4 == 0 && 4 <= |q| <= 64 && Under(q, k)
    requires o.Some? ==> Fits(o.value, q) && Crowded(o.value, q)
    ensures Crowded(InsertKid(o, q, k, v, b, n), q)
    decreases 64 - |q|, 0
  {
    if o.Some? && o.value.Branch? {
      InsertCrowded(o.value, q, k, v, b, n);
    } else if o.Some? && o.value.key != k {
      SplitCrowded(o.value, q, k, v, b, n);
    }
  }

  /** Inserting a terminal's own key and value into an empty branch puts it in its slot. */
  lemma InsertFresh(t: Trie, q: seq<bool>)
    requires t.Term? && |q| % 4 == 0 && |q| <= 60 && Under(q, t.key)
    ensures Insert(Branch(NoKids(), t.bytes, t.block), q, t.key, t.val, t.bytes, t.block).kids
         == NoKids()[Slot(q, t.key) := Some(t)]
  {
    KeyBelow(q, t.key);
    var e, j := Branch(NoKids(), t.bytes, t.block), Slot(q, t.key);
    assert e.kids[j] == None;
    InsertInSlot(e, q, t.key, t.val, t.bytes, t.block, t);
  }

  lemma FitsWithKid(t: Trie, p: seq<bool>, j: nat, kid: Trie, b: UInt64, n: UInt64)
    requires t.Branch? && Fits(t, p) && j < 16 && Fits(kid, p + BitsOf(4, j))
    ensures Fits(Branch(t.kids[j := Some(kid)], b, n), p)
  {
  }

  lemma InsertInSlot(t: Trie, p: seq<bool>, k: Key, v: Bytes, b: UInt64, n: UInt64, kid: Trie)
    requires t.Branch? && Fits(t, p) && Under(p, k) && Under(Below(p, k), k)
    requires kid == InsertKid(t.kids[Slot(p, k)], Below(p, k), k, v, b, n)
    ensures var kids := t.kids[Slot(p, k) := Some(kid)]; Insert(t, p, k, v, b, n) == Branch(kids, Tot(kids), t.block)
  {
  }

  /** A split leaves both keys below the new branch: in different slots, or below one more branch. */
  lemma {:induction false} SplitCrowded(t: Trie, q: seq<bool>, k: Key, v: Bytes, b: UInt64, n: UInt64)
    requires t.Term? && |q| % 4 == 0 && 4 <= |q| <= 64 && Under(q, k) && Fits(t, q) && t.key != k
    ensures Crowded(InsertKid(Some(t), q, k, v, b, n), q)
    decreases 64 - |q|, -1
  {
    RoomToSplit(q, k, t.key);
    KeyBelow(q, k);
    KeyBelow(q, t.key);
    var one := Insert(Branch(NoKids(), t.bytes, t.block), q, t.key, t.val, t.bytes, t.block);
    var r := Insert(one, q, k, v, b, n);
    var i, j := Slot(q, t.key), Slot(q, k);
    InsertFresh(t, q);
    var kid := InsertKid(one.kids[j], Below(q, k), k, v, b, n);
    InsertKidCrowded(one.kids[j], Below(q, k), k, v, b, n);
    InsertInSlot(one, q, k, v, b, n, kid);
    if i == j { SplitBranches(t, Below(q, k), k, v, b, n); }
    ForkedBy(r, i, j);
    CrowdedWith(one, r, q, j, kid);
  }

  lemma SplitBranches(t: Trie, q: seq<bool>, k: Key, v: Bytes, b: UInt64, n: UInt64)
    requires t.Term? && |q| % 4 == 0 && 4 <= |q| <= 64 && Under(q, k) && Fits(t, q) && t.key != k
    ensures InsertKid(Some(t), q, k, v, b, n).Branch?
  {
    RoomToSplit(q, k, t.key);
  }

  lemma ForkedBy(r: Trie, i: nat, j: nat)
    requires r.Branch? && |r.kids| == 16 && i < 16 && j < 16 && r.kids[i].Some? && r.kids[j].Some?
    requires i == j ==> r.kids[j].value.Branch?
    ensures Forked(r)
  {
    if i < j {
      assert r.kids[i].Some? && r.kids[j].Some?;
    } else if j < i {
      assert r.kids[j].Some? && r.kids[i].Some?;
    }
  }

  /** A branch stays crowded with another child. */
  lemma CrowdedWith(t: Trie, r: Trie, p: seq<bool>, s: nat, kid: Trie)
    requires t.Branch? && Fits(t, p) && r.Branch? && Fits(r, p) && s < 16 && r.kids == t.kids[s := Some(kid)]
    requires forall j :: 0 <= j < 16 && t.kids[j].Some? ==> Crowded(t.kids[j].value, p + BitsOf(4, j))
    requires Crowded(kid, p + BitsOf(4, s)) && (p != [] ==> Forked(r))
    ensures Crowded(r, p)
  {
  }

  lemma {:induction false} WriteAllCrowded(t: Trie, ws: seq<Write>)
    requires t.Branch? && Fits(t, []) && Crowded(t, [])
    ensures Crowded(WriteAllTrie(t, ws), [])
  {
    if ws != [] {
      var us, w := ws[..|ws| - 1], ws[|ws| - 1];
      WriteAllCrowded(t, us);
      InsertCrowded(WriteAllTrie(t, us), [], w.key, w.val, w.bytes, w.block);
    }
  }

  // ----- Storage totals -----

  /** The storage charged to all terminals of a trie. */
  ghost function Total(t: Trie): nat
    decreases t, if t.Branch? then |t.kids| + 1 else 0
  {
    if t.Term? then t.bytes else TotalUpTo(t, |t.kids|)
  }

  /** The same for the first `n` children of a branch. */
  ghost function TotalUpTo(t: Trie, n: nat): nat
    requires t.Branch? && n <= |t.kids|
    decreases t, n
  {
    if n == 0 then 0
    else TotalUpTo(t, n - 1) + if t.kids[n - 1].None? then 0 else Total(t.kids[n - 1].value)
  }

  /** Every branch carries the 64-bit total of the terminals beneath it. */
  ghost predicate Summed(t: Trie) {
    t.Branch? ==>
      && t.bytes == Total(t) % TWO_64
      && forall j :: 0 <= j < |t.kids| && t.kids[j].Some? ==> Summed(t.kids[j].value)
  }

  ghost predicate KidsSummed(t: Trie)
    requires t.Branch?
  {
    forall j :: 0 <= j < |t.kids| && t.kids[j].Some? ==> Summed(t.kids[j].value)
  }

  lemma WrapSum(x: nat, y: nat)
    ensures (x % TWO_64 + y % TWO_64) % TWO_64 == (x + y) % TWO_64
  {
  }

  lemma {:induction false} TotIsTotal(t: Trie, n: nat)
    requires t.Branch? && KidsSummed(t) && n <= |t.kids|
    ensures Tot(t.kids[..n]) == TotalUpTo(t, n) % TWO_64
  {
    if n != 0 {
      TotIsTotal(t, n - 1);
      TotStep(t.kids, n - 1);
      var o := t.kids[n - 1];
      if o.Some? {
        KidBytes(o.value);
        WrapSum(TotalUpTo(t, n - 1), Total(o.value));
      }
    }
  }

  lemma KidBytes(t: Trie)
    requires Summed(t)
    ensures t.bytes == Total(t) % TWO_64
  {
  }

  /** After an insert every branch on the path, the root included, carries its total. */
  lemma {:induction false} InsertSummed(t: Trie, p: seq<bool>, k: Key, v: Bytes, b: UInt64, n: UInt64)
    requires t.Branch? && Fits(t, p) && Under(p, k) && KidsSummed(t)
    ensures Summed(Insert(t, p, k, v, b, n))
    decreases 60 - |p|, 1
  {
    KeyBelow(p, k);
    var r := Insert(t, p, k, v, b, n);
    var j, q := Slot(p, k), Below(p, k);
    InsertKidSummed(t.kids[j], q, k, v, b, n);
    assert r.kids == t.kids[j := Some(InsertKid(t.kids[j], q, k, v, b, n))];
    TotIsTotal(r, 16);
    assert r.kids[..16] == r.kids;
  }

  lemma {:induction false} InsertKidSummed(o: Option<Trie>, q: seq<bool>, k: Key, v: Bytes, b: UInt64, n: UInt64)
    requires |q| % 4 == 0 && 4 <= |q| <= 64 && Under(q, k)
    requires o.Some? ==> Fits(o.value, q) && Summed(o.value)
    ensures Summed(InsertKid(o, q, k, v, b, n))
    decreases 64 - |q|, 0
  {
    if o.Some? && o.value.Branch? {
      InsertSummed(o.value, q, k, v, b, n);
    } else if o.Some? && o.value.key != k {
      var l := o.value;
      RoomToSplit(q, k, l.key);
      var e := Branch(NoKids(), l.bytes, l.block);
      assert KidsSummed(e);
      InsertSummed(e, q, l.key, l.val, l.bytes, l.block);
      InsertSummed(Insert(e, q, l.key, l.val, l.bytes, l.block), q, k, v, b, n);
    }
  }

  /** Over every sequence of inserts, into a new trie or a reopened one, whose own total is not
      kept: all branches carry their totals, the root from the first insert on. */
  lemma {:induction false} WriteAllSummed(t: Trie, ws: seq<Write>)
    requires t.Branch? && Fits(t, []) && KidsSummed(t)
    ensures KidsSummed(WriteAllTrie(t, ws)) && (ws != [] ==> Summed(WriteAllTrie(t, ws)))
  {
    if ws != [] {
      var us, w := ws[..|ws| - 1], ws[|ws| - 1];
      WriteAllSummed(t, us);
      InsertSummed(WriteAllTrie(t, us), [], w.key, w.val, w.bytes, w.block);
    }
  }
}
