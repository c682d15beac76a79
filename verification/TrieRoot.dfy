/** Merkle roots computed through the trie: sixteen children are folded into one root
    through four levels of cached hashes, and a terminal's root is hashed up from its value
    against default siblings. They are the roots of the plain binary tree. */
module TrieRoot {
  import opened Bytes
  import opened Keys
  import opened PlainTree
  import opened Tries

  ghost function RootOf(h: Hash, t: Trie, p: seq<bool>): Bytes
    requires Fits(t, p)
    decreases t, 5
  {
    if t.Term? then TermRoot(h, t.key, t.val, 64 - |p|) else CacheAt(h, t, p, 0, 0)
  }

  /** The hash in slot `i` of cache level `level`; level 4 holds the children's roots. */
  ghost function CacheAt(h: Hash, t: Trie, p: seq<bool>, level: nat, i: nat): Bytes
    requires t.Branch? && Fits(t, p) && level <= 4 && i < Pow2(level)
    decreases t, 4 - level
  {
    if level == 4 then
      SmallPowers();
      KidRoot(h, t.kids[i], p + BitsOf(4, i))
    else
      h(CacheAt(h, t, p, level + 1, 2 * i) + CacheAt(h, t, p, level + 1, 2 * i + 1))
  }

  /** The root of what a slot holds; a free slot has the default hash of its height. */
  ghost function KidRoot(h: Hash, o: Option<Trie>, q: seq<bool>): Bytes
    requires |q| <= 64 && (o.Some? ==> Fits(o.value, q))
    decreases o, 6
  {
    if o.None? then Default(h, 64 - |q|) else RootOf(h, o.value, q)
  }

  lemma {:induction false} RootSize(h: Hash, t: Trie, p: seq<bool>)
    requires Fits(t, p) && (t.Term? ==> |p| < 64 || |t.val| == 32)
    ensures |RootOf(h, t, p)| == 32
  {
  }

  function ValuesOf(m: Items): Values {
    map k | k in m :: m[k].val
  }

  /** Below `q` the slot holds the values of `m`. */
  ghost predicate Shows(o: Option<Trie>, q: seq<bool>, m: Values)
    requires o.Some? ==> Fits(o.value, q)
  {
    forall k: Key {:trigger ShowsAt(o, q, m, k)} :: Under(q, k) ==> ShowsAt(o, q, m, k)
  }

  ghost predicate ShowsAt(o: Option<Trie>, q: seq<bool>, m: Values, k: Key)
    requires o.Some? ==> Fits(o.value, q)
  {
    var f := FindKid(o, q, k);
    (f.Some? <==> k in m) && (f.Some? ==> f.value.val == m[k])
  }

  lemma HoldsShows(t: Trie, m: Items)
    requires t.Branch? && Fits(t, []) && Holds(t, [], m)
    ensures Shows(Some(t), [], ValuesOf(m))
  {
    forall k: Key | Under([], k)
      ensures ShowsAt(Some(t), [], ValuesOf(m), k)
    {
      assert Find(t, [], k) == Get(m, k);
    }
  }

  lemma KidShows(t: Trie, p: seq<bool>, m: Values, j: nat)
    requires t.Branch? && Fits(t, p) && Shows(Some(t), p, m) && j < 16
    ensures Shows(t.kids[j], p + BitsOf(4, j), m)
  {
    var q := p + BitsOf(4, j);
    forall k: Key | Under(q, k)
      ensures ShowsAt(t.kids[j], q, m, k)
    {
      UnderPrefix(p, BitsOf(4, j), k);
      UnderPiece(p, k, |p| / 4, j);
      assert ShowsAt(Some(t), p, m, k);
    }
  }

  /** Root refinement: the root computed through branches, caches and terminals is the root
      of the plain binary tree. */
  lemma {:induction false} RootRefines(h: Hash, t: Trie, p: seq<bool>, m: Values)
    requires Fits(t, p) && Shows(Some(t), p, m) && |p| <= 64
    ensures RootOf(h, t, p) == PlainRoot(h, m, p)
    decreases t, 5
  {
    if t.Term? {
      var k := t.key;
      assert ShowsAt(Some(t), p, m, k);
      assert Path(k)[..|p|] == p;
      forall l | l in m && Under(p, l)
        ensures l == k
      {
        assert ShowsAt(Some(t), p, m, l);
      }
      PlainRootSingle(h, m, k, 64 - |p|, p);
    } else {
      CacheRefines(h, t, p, m, 0, 0);
      assert p + BitsOf(0, 0) == p;
    }
  }

  lemma BitsOfDouble(p: seq<bool>, w: nat, x: nat)
    ensures p + BitsOf(w + 1, 2 * x) == p + BitsOf(w, x) + [false]
    ensures p + BitsOf(w + 1, 2 * x + 1) == p + BitsOf(w, x) + [true]
  {
    BitsOfTwice(w, x);
  }

  lemma BitsOfTwice(w: nat, x: nat)
    ensures BitsOf(w + 1, 2 * x) == BitsOf(w, x) + [false] && BitsOf(w + 1, 2 * x + 1) == BitsOf(w, x) + [true]
  {
    assert 2 * x / 2 == x && (2 * x + 1) / 2 == x && (2 * x + 1) % 2 == 1;
  }

  /** Every cached hash is the hash of the plain tree at the path it stands for. */
  lemma {:induction false} CacheRefines(h: Hash, t: Trie, p: seq<bool>, m: Values, level: nat, i: nat)
    requires t.Branch? && Fits(t, p) && Shows(Some(t), p, m) && level <= 4 && i < Pow2(level)
    ensures CacheAt(h, t, p, level, i) == PlainRoot(h, m, p + BitsOf(level, i))
    decreases t, 4 - level, 1
  {
    if level == 4 { CacheBottom(h, t, p, m, i); } else { CacheInner(h, t, p, m, level, i); }
  }

  lemma {:induction false} CacheInner(h: Hash, t: Trie, p: seq<bool>, m: Values, level: nat, i: nat)
    requires t.Branch? && Fits(t, p) && Shows(Some(t), p, m) && level < 4 && i < Pow2(level)
    ensures CacheAt(h, t, p, level, i) == PlainRoot(h, m, p + BitsOf(level, i))
    decreases t, 4 - level, 0
  {
    var up, l, r := level + 1, 2 * i, 2 * i + 1;
    assert Pow2(up) == 2 * Pow2(level);
    CacheRefines(h, t, p, m, up, l);
    CacheRefines(h, t, p, m, up, r);
    CacheFold(h, t, p, m, level, i, up, l, r);
  }

  lemma CacheFold(h: Hash, t: Trie, p: seq<bool>, m: Values, level: nat, i: nat, up: nat, l: nat, r: nat)
    requires t.Branch? && Fits(t, p) && level < 4 && up == level + 1 && l == 2 * i && r == 2 * i + 1 && r < Pow2(up)
    requires CacheAt(h, t, p, up, l) == PlainRoot(h, m, p + BitsOf(up, l))
    requires CacheAt(h, t, p, up, r) == PlainRoot(h, m, p + BitsOf(up, r))
    ensures i < Pow2(level) && CacheAt(h, t, p, level, i) == PlainRoot(h, m, p + BitsOf(level, i))
  {
    BitsOfDouble(p, level, i);
    PlainFold(h, m, p + BitsOf(level, i), CacheAt(h, t, p, up, l), CacheAt(h, t, p, up, r));
  }

  lemma {:induction false} CacheBottom(h: Hash, t: Trie, p: seq<bool>, m: Values, i: nat)
    requires t.Branch? && Fits(t, p) && Shows(Some(t), p, m) && i < Pow2(4)
    ensures CacheAt(h, t, p, 4, i) == PlainRoot(h, m, p + BitsOf(4, i))
    decreases t, 0, 0
  {
    SmallPowers();
    KidShows(t, p, m, i);
    KidRefines(h, t.kids[i], p + BitsOf(4, i), m);
  }

  lemma PlainFold(h: Hash, m: Values, q: seq<bool>, l: Bytes, r: Bytes)
    requires |q| < 64 && l == PlainRoot(h, m, q + [false]) && r == PlainRoot(h, m, q + [true])
    ensures h(l + r) == PlainRoot(h, m, q)
  {
  }

  lemma FreeSlot(q: seq<bool>, m: Values, k: Key)
    requires Shows(None, q, m)
    ensures Under(q, k) ==> k !in m
  {
    assert Under(q, k) ==> ShowsAt(None, q, m, k);
  }

  lemma {:induction false} KidRefines(h: Hash, o: Option<Trie>, q: seq<bool>, m: Values)
    requires |q| <= 64 && (o.Some? ==> Fits(o.value, q)) && Shows(o, q, m)
    ensures KidRoot(h, o, q) == PlainRoot(h, m, q)
    decreases o, 6
  {
    if o.None? {
      forall k | k in m
        ensures !Under(q, k)
      {
        FreeSlot(q, m, k);
      }
      PlainRootEmpty(h, m, q);
    } else {
      RootRefines(h, o.value, q, m);
    }
  }

  /** The root of a trie depends on the values written and on nothing else: not on the
      order of the writes, nor on storage and block numbers. */
  lemma RootOfWrites(h: Hash, ws: seq<Write>)
    ensures Fits(Empty(), [])
    ensures RootOf(h, WriteAllTrie(Empty(), ws), []) == PlainRoot(h, ValuesOf(WriteAllMap(map[], ws)), [])
  {
    var m: Items := map[];
    assert Holds(Empty(), [], m);
    TrieRefinesMap(Empty(), m, ws);
    HoldsShows(WriteAllTrie(Empty(), ws), WriteAllMap(m, ws));
    RootRefines(h, WriteAllTrie(Empty(), ws), [], ValuesOf(WriteAllMap(m, ws)));
  }

  lemma RootOrderIndependent(h: Hash, ws: seq<Write>, us: seq<Write>)
    requires ValuesOf(WriteAllMap(map[], ws)) == ValuesOf(WriteAllMap(map[], us))
    ensures Fits(Empty(), [])
    ensures RootOf(h, WriteAllTrie(Empty(), ws), []) == RootOf(h, WriteAllTrie(Empty(), us), [])
  {
    RootOfWrites(h, ws);
    RootOfWrites(h, us);
  }

  // ----- When the code can compute the root at all -----

  /** No terminal sits at depth sixteen, where its level is -1. */
  ghost predicate Rootable(t: Trie, p: seq<bool>)
    requires Fits(t, p)
    decreases t
  {
    if t.Term? then |p| < 64
    else forall j :: 0 <= j < 16 && t.kids[j].Some? ==> Rootable(t.kids[j].value, p + BitsOf(4, j))
  }

  lemma SliceOfPrefix(s: seq<bool>, n: nat, a: nat, b: nat)
    requires a <= b <= n <= |s|
    ensures s[a..b] == s[..n][a..b]
  {
  }

  /** In a trie without such terminals, two keys that share sixty bits are one key. */
  lemma {:induction false} RootableSeparates(t: Trie, p: seq<bool>, k: Key, l: Key)
    requires t.Branch? && Fits(t, p) && Rootable(t, p) && Under(p, k) && Under(p, l)
    requires Find(t, p, k).Some? && Find(t, p, l).Some? && Path(k)[..60] == Path(l)[..60]
    ensures k == l
    decreases t
  {
    KeyBelow(p, k);
    KeyBelow(p, l);
    if |p| < 60 {
      var d := |p| / 4;
      PathPiece(k, d);
      PathPiece(l, d);
      SliceOfPrefix(Path(k), 60, 4 * d, 4 * d + 4);
      SliceOfPrefix(Path(l), 60, 4 * d, 4 * d + 4);
      SmallPowers();
      BitsOfInjective(4, KeyPiece(k, d), KeyPiece(l, d));
      var o := t.kids[Slot(p, k)];
      if o.value.Branch? {
        RootableSeparates(o.value, Below(p, k), k, l);
      }
    }
  }

  lemma {:induction false} FindKidUnder(t: Trie, p: seq<bool>, i: nat, k: Key)
    requires t.Branch? && Fits(t, p) && i < 16 && t.kids[i].Some? && Under(p + BitsOf(4, i), k)
    ensures Under(p, k) && Slot(p, k) == i && Find(t, p, k) == FindKid(t.kids[i], p + BitsOf(4, i), k)
  {
    UnderPrefix(p, BitsOf(4, i), k);
    UnderPiece(p, k, |p| / 4, i);
  }

  /** A terminal at depth sixteen has a neighbour: two keys that share sixty bits. */
  lemma {:induction false} NotRootableWitness(t: Trie, p: seq<bool>) returns (k: Key, l: Key)
    requires t.Branch? && Fits(t, p) && Crowded(t, p) && !Rootable(t, p)
    ensures k != l && Path(k)[..60] == Path(l)[..60] && Under(p, k) && Under(p, l)
    ensures Find(t, p, k).Some? && Find(t, p, l).Some?
    decreases t
  {
    if |p| == 60 {
      var i, j :| 0 <= i < j < 16 && t.kids[i].Some? && t.kids[j].Some?;
      k, l := t.kids[i].value.key, t.kids[j].value.key;
      FindKidUnder(t, p, i, k);
      FindKidUnder(t, p, j, l);
    } else {
      var j :| 0 <= j < 16 && t.kids[j].Some? && !Rootable(t.kids[j].value, p + BitsOf(4, j));
      k, l := NotRootableWitness(t.kids[j].value, p + BitsOf(4, j));
      FindKidUnder(t, p, j, k);
      FindKidUnder(t, p, j, l);
    }
  }

  /** No terminal sits there exactly when no two keys share their first sixty bits. */
  lemma RootableIff(t: Trie, m: Values)
    requires t.Branch? && Fits(t, []) && Crowded(t, []) && Shows(Some(t), [], m)
    ensures Rootable(t, []) <==> Separated(m)
  {
    if Rootable(t, []) {
      forall k, l | k in m && l in m && Path(k)[..60] == Path(l)[..60]
        ensures k == l
      {
        assert ShowsAt(Some(t), [], m, k) && ShowsAt(Some(t), [], m, l);
        RootableSeparates(t, [], k, l);
      }
    } else {
      var k, l := NotRootableWitness(t, []);
      assert ShowsAt(Some(t), [], m, k) && ShowsAt(Some(t), [], m, l);
    }
  }
}
