/** The key zero in a tree that is read back from its chunks. Its row is taken for that of a branch,
    so a lookup that runs into it loads what is stored under it as a node. Which lookups those are. */
module ZeroKey {
  import opened Bytes
  import opened Keys
  import opened PlainTree
  import ProofCheck
  import opened Tries
  import opened TrieRoot
  import opened Chunk
  import opened History
  import opened Plasma
  import opened Roots
  import opened Commits

  /** The way to `k` ends at a terminal with the key zero. */
  ghost predicate Into(t: Trie, p: seq<bool>, k: Key)
    requires t.Branch? && Fits(t, p)
    decreases t
  {
    var o := t.kids[Slot(p, k)];
    o.Some? && if o.value.Term? then o.value.key == ZERO_KEY else Into(o.value, Below(p, k), k)
  }

  // ----- Reading -----

  /** Every terminal with the key zero has the value `z`. */
  ghost predicate ZeroHolds(t: Trie, z: Bytes) {
    if t.Term? then t.key == ZERO_KEY ==> t.val == z
    else forall j :: 0 <= j < |t.kids| && t.kids[j].Some? ==> ZeroHolds(t.kids[j].value, z)
  }

  lemma {:induction false} OtherZero(t: Trie, p: seq<bool>, z: Bytes)
    requires t.Branch? && Fits(t, p) && !ZeroHolds(t, z)
    ensures Under(p, ZERO_KEY) && Find(t, p, ZERO_KEY).Some? && Find(t, p, ZERO_KEY).value.val != z
    decreases t
  {
    var j :| 0 <= j < 16 && t.kids[j].Some? && !ZeroHolds(t.kids[j].value, z);
    if t.kids[j].value.Branch? { OtherZero(t.kids[j].value, p + BitsOf(4, j), z); }
    FindKidUnder(t, p, j, ZERO_KEY);
  }

  /** The row of a terminal with the key zero sends a lookup on to its value. */
  lemma ReadZero(h: Hash, s: Store, t: Trie, p: seq<bool>, k: Key, d: nat, z: Bytes)
    requires t.Branch? && Fits(t, p) && |p| == 4 * d && ChunkId(h, t, p) in s && s[ChunkId(h, t, p)] == ChunkOf(h, t, p)
    requires t.kids[Slot(p, k)].Some? && t.kids[Slot(p, k)].value.Term?
    requires t.kids[Slot(p, k)].value.key == ZERO_KEY && t.kids[Slot(p, k)].value.val == z
    requires |z| == 32 && z != Zeros(32) && z in s && |s[z]| < 1408
    ensures ReadGet(s, ChunkId(h, t, p), k, d) == Broken
  {
    assert |p| / 4 == d && Slot(p, k) == KeyPiece(k, d);
    ReadRow(h, t, p, Slot(p, k));
    ReadOne(s, ChunkId(h, t, p), k, d, RowAt(ChunkOf(h, t, p), Slot(p, k)));
  }

  /** A stored trie whose zero key holds the hash of something shorter than a node. */
  ghost predicate Reading(h: Hash, s: Store, t: Trie, p: seq<bool>, d: nat, z: Bytes) {
    && t.Branch? && Fits(t, p) && |p| == 4 * d && Stored(h, s, t, p) && NoZeroHash(h, ChunkSet(h, t, p))
    && ZeroHolds(t, z) && |z| == 32 && z != Zeros(32) && z in s && |s[z]| < 1408
  }

  lemma KidReading(h: Hash, s: Store, t: Trie, p: seq<bool>, k: Key, d: nat, z: Bytes, kid: Trie)
    requires Reading(h, s, t, p, d, z) && t.kids[Slot(p, k)] == Some(kid) && kid.Branch?
    ensures Reading(h, s, kid, Below(p, k), d + 1, z) && ChunkId(h, kid, Below(p, k)) != Zeros(32)
  {
    KidChunkId(h, t, p, Slot(p, k));
  }

  /** One level: the lookup is decided here, or goes on below. */
  lemma IntoStep(h: Hash, s: Store, t: Trie, p: seq<bool>, k: Key, d: nat, z: Bytes) returns (kid: Trie, q: seq<bool>)
    requires Reading(h, s, t, p, d, z)
    ensures || (ReadGet(s, ChunkId(h, t, p), k, d) == Broken <==> Into(t, p, k))
            || (&& Reading(h, s, kid, q, d + 1, z) && kid < t && (Into(kid, q, k) <==> Into(t, p, k))
                && ReadGet(s, ChunkId(h, t, p), k, d) == ReadGet(s, ChunkId(h, kid, q), k, d + 1))
  {
    var o := t.kids[Slot(p, k)];
    kid, q := t, p;
    ReadLevel(h, s, t, p, k, d, o, ReadGet(s, ChunkId(h, t, p), k, d), Find(t, p, k));
    if o.Some? && o.value.Branch? {
      kid, q := o.value, Below(p, k);
      KidReading(h, s, t, p, k, d, z, kid);
    } else if o.Some? && o.value.key == ZERO_KEY {
      assert ZeroHolds(o.value, z);
      ReadZero(h, s, t, p, k, d, z);
    }
  }

  lemma {:induction false} BrokenIff(h: Hash, s: Store, t: Trie, p: seq<bool>, k: Key, d: nat, z: Bytes)
    requires Reading(h, s, t, p, d, z)
    ensures ReadGet(s, ChunkId(h, t, p), k, d) == Broken <==> Into(t, p, k)
    decreases t
  {
    var kid, q := IntoStep(h, s, t, p, k, d, z);
    if !(ReadGet(s, ChunkId(h, t, p), k, d) == Broken <==> Into(t, p, k)) { BrokenIff(h, s, kid, q, k, d + 1, z); }
  }

  // ----- Which keys -----

  /** The first `m` bits of the key zero. */
  function Lead(m: nat): seq<bool>
    requires m <= 64
  {
    Path(ZERO_KEY)[..m]
  }

  /** A key that the trie finds is below the node of the trie. */
  ghost predicate Has(t: Trie, p: seq<bool>, l: Key)
    requires t.Branch? && Fits(t, p)
  {
    Under(p, l) && Find(t, p, l).Some?
  }

  lemma HasKid(t: Trie, p: seq<bool>, j: nat, l: Key)
    requires t.Branch? && Fits(t, p) && j < 16 && t.kids[j].Some?
    requires var kid := t.kids[j].value; if kid.Term? then kid.key == l else Has(kid, p + BitsOf(4, j), l)
    ensures Has(t, p, l) && Slot(p, l) == j
  {
    FindKidUnder(t, p, j, l);
  }

  /** A branch below the root is over some key. */
  lemma {:induction false} SomeKey(t: Trie, p: seq<bool>) returns (l: Key)
    requires t.Branch? && Fits(t, p) && Crowded(t, p) && p != []
    ensures Has(t, p, l)
    decreases t
  {
    var j := SomeKid(t);
    l := KeyOfKid(t, p, j);
  }

  lemma SomeKid(t: Trie) returns (j: nat)
    requires t.Branch? && |t.kids| == 16 && Forked(t)
    ensures j < 16 && t.kids[j].Some?
  {
    j :| 0 <= j < 16 && t.kids[j].Some?;
  }

  lemma {:induction false} KeyOfKid(t: Trie, p: seq<bool>, j: nat) returns (l: Key)
    requires t.Branch? && Fits(t, p) && Crowded(t, p) && j < 16 && t.kids[j].Some?
    ensures Has(t, p, l) && Slot(p, l) == j
    decreases t, 0
  {
    var kid := t.kids[j].value;
    if kid.Term? { l := kid.key; } else { l := SomeKey(kid, p + BitsOf(4, j)); }
    HasKid(t, p, j, l);
  }

  /** It is over a key other than any given one. */
  lemma {:induction false} OtherKey(t: Trie, p: seq<bool>, k: Key) returns (l: Key)
    requires t.Branch? && Fits(t, p) && Crowded(t, p) && p != []
    ensures Has(t, p, l) && l != k
    decreases t
  {
    var i := Slot(p, k);
    if j :| 0 <= j < 16 && j != i && t.kids[j].Some? {
      l := KeyOfKid(t, p, j);
    } else {
      OnlyBranch(t, i);
      l := OtherKey(t.kids[i].value, p + BitsOf(4, i), k);
      HasKid(t, p, i, l);
    }
  }

  lemma OnlyBranch(t: Trie, i: nat)
    requires t.Branch? && |t.kids| == 16 && Forked(t) && i < 16
    requires forall j :: 0 <= j < 16 && j != i ==> t.kids[j].None?
    ensures t.kids[i].Some? && t.kids[i].value.Branch?
  {
  }

  /** A lookup that runs into the key zero has more leading zeros in common with it than any other key. */
  lemma {:induction false} IntoAlone(t: Trie, p: seq<bool>, k: Key) returns (m: nat)
    requires t.Branch? && Fits(t, p) && Under(p, k) && Into(t, p, k)
    ensures Has(t, p, ZERO_KEY) && |p| < m <= 64 && m % 4 == 0 && Under(Lead(m), k)
    ensures forall l :: Has(t, p, l) && Under(Lead(m), l) ==> l == ZERO_KEY
    decreases t
  {
    KeyBelow(p, k);
    var j, q := Slot(p, k), Below(p, k);
    var kid := t.kids[j].value;
    m := |q|;
    if kid.Branch? { m := IntoAlone(kid, q, k); }
    HasKid(t, p, j, ZERO_KEY);
    LeadIs(q);
    forall l | Has(t, p, l) && Under(Lead(m), l) ensures l == ZERO_KEY {
      LeadUnder(q, m, l);
      UnderPiece(p, l, |p| / 4, j);
    }
  }

  lemma LeadIs(q: seq<bool>)
    requires |q| <= 64 && Under(q, ZERO_KEY)
    ensures Lead(|q|) == q
  {
  }

  lemma LeadUnder(q: seq<bool>, m: nat, l: Key)
    requires |q| <= m <= 64 && Lead(|q|) == q && Under(Lead(m), l)
    ensures Under(q, l)
  {
    assert Lead(m)[..|q|] == q;
    assert Path(l)[..m][..|q|] == Path(l)[..|q|];
  }

  /** One that does not, although the key zero is there, has no more of them than some other key, or not
      the first four. */
  lemma {:induction false} NotInto(t: Trie, p: seq<bool>, k: Key) returns (l: Key, m: nat)
    requires t.Branch? && Fits(t, p) && Crowded(t, p) && Under(p, k) && Has(t, p, ZERO_KEY) && !Into(t, p, k)
    ensures |p| <= m <= 60 && m % 4 == 0 && !Under(Lead(m + 4), k)
    ensures m == 0 || (Has(t, p, l) && l != ZERO_KEY && Under(Lead(m), l))
    decreases t
  {
    KeyBelow(p, ZERO_KEY);
    var j, q := Slot(p, ZERO_KEY), Below(p, ZERO_KEY);
    LeadIs(p);
    LeadIs(q);
    UnderPiece(p, k, |p| / 4, j);
    l, m := k, |p|;
    if Slot(p, k) != j {
      if p != [] { l := OtherKey(t, p, ZERO_KEY); }
    } else {
      var kid := t.kids[j].value;
      assert kid.Branch?;
      l, m := NotInto(kid, q, k);
      HasKid(t, p, j, l);
    }
  }

  // ----- Leading zeros of a number -----

  lemma {:induction false} PowAdd(u: nat, w: nat)
    ensures Pow2(u + w) == Pow2(u) * Pow2(w)
  {
    if w > 0 { PowAdd(u, w - 1); }
  }

  lemma TopBits(u: nat, w: nat, x: nat)
    ensures BitsOf(u + w, x)[..u] == BitsOf(u, x / Pow2(w))
  {
    var b := Pow2(w);
    Divided(x, b);
    BitsOfSplit(u, w, x / b, x % b);
  }

  lemma Divided(x: nat, b: nat)
    requires b > 0
    ensures x / b * b + x % b == x && x % b < b && x / b >= 0
  {
  }

  lemma TopZero(u: nat, w: nat, x: nat)
    requires x < Pow2(u + w)
    ensures BitsOf(u + w, x)[..u] == BitsOf(u + w, 0)[..u] <==> x < Pow2(w)
  {
    TopBits(u, w, x);
    TopBits(u, w, 0);
    PowAdd(u, w);
    Quotient(x, Pow2(u), Pow2(w));
    if BitsOf(u, x / Pow2(w)) == BitsOf(u, 0 / Pow2(w)) { BitsOfInjective(u, x / Pow2(w), 0); }
  }

  lemma Quotient(x: nat, a: nat, b: nat)
    requires b > 0 && x < a * b
    ensures x / b < a && (x / b == 0 <==> x < b) && 0 / b == 0
  {
    Divided(x, b);
    Larger(x / b, a, b);
  }

  lemma Larger(q: nat, a: nat, b: nat)
    ensures q >= a ==> q * b >= a * b
  {
  }

  lemma {:induction false} NibblesPow(x: nat, m: nat)
    ensures Plasma.Nibbles(x) <= m <==> x < Pow2(4 * m)
  {
    if m > 0 {
      NibblesPow(x / 16, m - 1);
      assert Pow2(4 * m) == 16 * Pow2(4 * (m - 1)) by { FourTimes(4 * (m - 1)); }
    }
  }

  lemma FourTimes(n: nat)
    ensures Pow2(n + 4) == 16 * Pow2(n)
  {
    assert Pow2(n + 2) == 4 * Pow2(n);
    assert Pow2(n + 4) == 4 * Pow2(n + 2);
  }

  lemma PathOf(x: UInt64, n: nat)
    requires n == 64
    ensures Path(KeyOf(x)) == BitsOf(n, x) && x < Pow2(n)
  {
    PathNumber(KeyOf(x), 8);
    assert KeyOf(x)[..8] == KeyOf(x) && Path(KeyOf(x))[..64] == Path(KeyOf(x));
    ProofCheck.Pow2Is64();
  }

  /** A number's key shares its first `n` half-bytes with the key zero exactly when the number has no
      more than the rest. */
  lemma LeadNibbles(x: UInt64, n: nat)
    requires n <= 16
    ensures Under(Lead(4 * n), KeyOf(x)) <==> Plasma.Nibbles(x) <= 16 - n
  {
    var m := 16 - n;
    LeadBits(x, 4 * n, 4 * m);
    NibblesPow(x, m);
  }

  lemma LeadBits(x: UInt64, u: nat, w: nat)
    requires u + w == 64
    ensures Under(Lead(u), KeyOf(x)) <==> x < Pow2(w)
  {
    ZeroBytes(8);
    PathOf(x, u + w);
    PathOf(0, u + w);
    TopZero(u, w, x);
  }

  // ----- The lookups that break -----

  ghost predicate HasNumber(t: Tree, m: map<UInt64, Bytes>, x: UInt64) {
    Has(t, [], KeyOf(x)) <==> x in m
  }

  lemma NumbersIn(t: Tree, m: map<UInt64, Bytes>, x: UInt64)
    requires ValuesIn(t) == Keyed(m)
    ensures HasNumber(t, m, x)
  {
    KeyedAt(m, x);
    ValueAt(t, KeyOf(x));
  }

  lemma NumberOf(t: Tree, m: map<UInt64, Bytes>, l: Key) returns (x: UInt64)
    requires ValuesIn(t) == Keyed(m) && Has(t, [], l)
    ensures x in m && KeyOf(x) == l
  {
    ValueAt(t, l);
    KeyedFrom(m, l);
    x := BytesToUint64(l);
  }

  /** The way to a number ends at the key zero exactly when `Plasma.Loads` says so. */
  lemma IntoIff(t: Tree, m: map<UInt64, Bytes>, x: UInt64)
    requires Crowded(t, []) && ValuesIn(t) == Keyed(m)
    ensures Into(t, [], KeyOf(x)) <==> Loads(m.Keys, x)
  {
    ZeroBytes(8);
    NumbersIn(t, m, 0);
    if Into(t, [], KeyOf(x)) {
      var n := IntoAlone(t, [], KeyOf(x));
      Ahead(t, m, x, n / 4);
    } else if 0 in m {
      var l, n := NotInto(t, [], KeyOf(x));
      Behind(t, m, x, l, n / 4);
    }
  }

  lemma Behind(t: Tree, m: map<UInt64, Bytes>, x: UInt64, l: Key, n: nat)
    requires ValuesIn(t) == Keyed(m) && n <= 15 && !Under(Lead(4 * (n + 1)), KeyOf(x))
    requires n == 0 || (Has(t, [], l) && l != ZERO_KEY && Under(Lead(4 * n), l))
    ensures !Loads(m.Keys, x)
  {
    LeadNibbles(x, n + 1);
    if n > 0 {
      var y := NumberOf(t, m, l);
      ZeroBytes(8);
      LeadNibbles(y, n);
    }
  }

  lemma Ahead(t: Tree, m: map<UInt64, Bytes>, x: UInt64, n: nat)
    requires ValuesIn(t) == Keyed(m) && 0 in m && 0 < n <= 16 && Under(Lead(4 * n), KeyOf(x))
    requires forall l :: Has(t, [], l) && Under(Lead(4 * n), l) ==> l == ZERO_KEY
    ensures Loads(m.Keys, x)
  {
    LeadNibbles(x, n);
    forall y | y in m.Keys && y != 0 ensures Plasma.Nibbles(x) < Plasma.Nibbles(y) { Past(t, m, y, n); }
  }

  lemma Past(t: Tree, m: map<UInt64, Bytes>, y: UInt64, n: nat)
    requires ValuesIn(t) == Keyed(m) && y in m && y != 0 && 0 < n <= 16
    requires forall l :: Has(t, [], l) && Under(Lead(4 * n), l) ==> l == ZERO_KEY
    ensures Plasma.Nibbles(y) > 16 - n
  {
    NumbersIn(t, m, y);
    NotZero(y);
    LeadNibbles(y, n);
  }

  lemma NotZero(y: UInt64)
    requires y != 0
    ensures KeyOf(y) != ZERO_KEY
  {
    ZeroBytes(8);
    assert BytesToUint64(KeyOf(y)) != BytesToUint64(KeyOf(0));
  }

  /** A lookup in a tree that stands for a map, read back from its chunks, loads the value of the key
      zero as a node, and breaks on it, exactly when `Plasma.Loads` says so; no other lookup breaks. */
  lemma LoadsIff(h: Hash, s: Store, t: Tree, m: map<UInt64, Bytes>, x: UInt64)
    requires Crowded(t, []) && ValuesIn(t) == Keyed(m) && Stored(h, s, t, []) && NoZeroHash(h, ChunkSet(h, t, []))
    requires 0 in m ==> |m[0]| == 32 && m[0] != Zeros(32) && m[0] in s && |s[m[0]]| < 1408
    ensures ReadGet(s, ChunkId(h, t, []), KeyOf(x), 0) == Broken <==> Loads(m.Keys, x)
  {
    IntoIff(t, m, x);
    if 0 in m {
      ZeroBytes(8);
      KeyedAt(m, 0);
      ValueAt(t, ZERO_KEY);
      if !ZeroHolds(t, m[0]) { OtherZero(t, [], m[0]); }
      BrokenIff(h, s, t, [], KeyOf(x), 0, m[0]);
    } else {
      NoZeroIn(t, m);
      ReadsBack(h, s, t, [], KeyOf(x), 0);
    }
  }

  lemma NoZeroIn(t: Tree, m: map<UInt64, Bytes>)
    requires ValuesIn(t) == Keyed(m) && 0 !in m
    ensures NoZeroKey(t)
  {
    if !NoZeroKey(t) {
      ZeroKeyFound(t, []);
      ZeroBytes(8);
      NumbersIn(t, m, 0);
    }
  }
}
