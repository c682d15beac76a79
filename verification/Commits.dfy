/** What the trees of a committed state open to. They share one store, in which each maps its root to
    its top chunk, one tree after the other. */
module Commits {
  import opened Bytes
  import opened Keys
  import opened PlainTree
  import opened ProofCheck
  import opened Tries
  import opened TrieRoot
  import opened Chunk
  import opened History
  import opened Plasma
  import opened Roots

  // ----- Keys that share sixty bits -----

  /** The first sixty bits of a number's key are those of a sixteenth of the number. */
  lemma SixtyBits(x: UInt64)
    ensures Path(KeyOf(x))[..60] == BitsOf(60, x / 16) && x / 16 < Pow2(60)
  {
    var k := KeyOf(x);
    PathNumber(k, 8);
    assert k[..8] == k;
    SmallPowers();
    FourMore(60, 4, x / 16, x % 16, x);
    SixtyPower();
  }

  lemma FourMore(u: nat, w: nat, y: nat, r: nat, x: nat)
    requires w == 4 && r < 16 && x == 16 * y + r
    ensures BitsOf(u + w, x)[..u] == BitsOf(u, y)
  {
    SmallPowers();
    BitsOfSplit(u, w, y, r);
  }

  lemma SixtyPower()
    ensures 16 * Pow2(60) == TWO_64
  {
    Pow2Is64();
    assert Pow2(62) == 4 * Pow2(60) && Pow2(64) == 4 * Pow2(62);
  }

  lemma SixtySame(x: UInt64, y: UInt64)
    ensures Path(KeyOf(x))[..60] == Path(KeyOf(y))[..60] <==> x / 16 == y / 16
  {
    SixtyBits(x);
    SixtyBits(y);
    if BitsOf(60, x / 16) == BitsOf(60, y / 16) { BitsOfInjective(60, x / 16, y / 16); }
  }

  lemma KeyedAt(m: map<UInt64, Bytes>, id: UInt64)
    ensures KeyOf(id) in Keyed(m) <==> id in m
    ensures id in m ==> Keyed(m)[KeyOf(id)] == m[id]
  {
  }

  lemma KeyedFrom(m: map<UInt64, Bytes>, k: Key)
    requires k in Keyed(m)
    ensures BytesToUint64(k) in m && KeyOf(BytesToUint64(k)) == k
  {
  }

  /** A tree that stands for a map can be flushed exactly when the map's keys are apart. */
  lemma ApartIff(m: map<UInt64, Bytes>)
    ensures Separated(Keyed(m)) <==> Apart(m.Keys)
  {
    if Separated(Keyed(m)) {
      forall x, y | x in m.Keys && y in m.Keys && x != y ensures x / 16 != y / 16 {
        KeyedAt(m, x);
        KeyedAt(m, y);
        SixtySame(x, y);
      }
    }
    if Apart(m.Keys) {
      forall k, l | k in Keyed(m) && l in Keyed(m) && Path(k)[..60] == Path(l)[..60] ensures k == l {
        KeyedFrom(m, k);
        KeyedFrom(m, l);
        SixtySame(BytesToUint64(k), BytesToUint64(l));
      }
    }
  }

  // ----- Flushing one tree after another -----

  /** The store before the flushes, between them and after them. */
  ghost predicate FlushAll(h: Hash, u: iset<Bytes>, ss: seq<Store>, ts: seq<Tree>) {
    |ss| == |ts| + 1 && forall i {:trigger FlushAt(h, u, ss, ts, i)} :: 0 <= i < |ts| ==> FlushAt(h, u, ss, ts, i)
  }

  ghost predicate FlushAt(h: Hash, u: iset<Bytes>, ss: seq<Store>, ts: seq<Tree>, i: nat)
    requires i < |ts| && i + 1 < |ss|
  {
    CanFlush(h, u, ts[i]) && FlushStep(h, ss[i], ts[i], ss[i + 1])
  }

  /** All trees flushed before and now are kept, and every root mapped to the latest that has it. */
  lemma {:induction false} AllFlushed(h: Hash, u: iset<Bytes>, ss: seq<Store>, log: seq<Tree>, ts: seq<Tree>, n: nat)
    requires Injective(h, u) && FlushAll(h, u, ss, ts) && AllReadable(h, u, ss[0], log) && n <= |ts|
    ensures AllReadable(h, u, ss[n], log + ts[..n])
  {
    if n == 0 {
      assert log + ts[..0] == log;
    } else {
      AllFlushed(h, u, ss, log, ts, n - 1);
      assert FlushAt(h, u, ss, ts, n - 1);
      OneMore(h, u, ss[n - 1], log + ts[..n - 1], ts[n - 1], ss[n]);
      assert log + ts[..n] == log + ts[..n - 1] + [ts[n - 1]];
    }
  }

  lemma OneMore(h: Hash, u: iset<Bytes>, s: Store, log: seq<Tree>, t: Tree, s': Store)
    requires Injective(h, u) && AllReadable(h, u, s, log) && CanFlush(h, u, t) && FlushStep(h, s, t, s')
    ensures AllReadable(h, u, s', log + [t])
  {
    FlushInv(h, u, History.State(s, t, log), History.State(s', t, log + [t]));
  }

  // ----- What a root opens to -----

  /** A tree opened at the root has exactly these values. */
  ghost predicate OpensAs(s: Store, root: Bytes, m: Values) {
    var r := OpenTrie(s, root);
    Fits(r, []) && ValuesIn(r) == m
  }

  predicate SavableValues(m: Values) {
    forall k :: k in m ==> k != ZERO_KEY && |m[k]| == 32 && m[k] != Zeros(32)
  }

  lemma SavableAs(m: Items)
    ensures Savable(m) <==> SavableValues(ValuesOf(m))
  {
    assert forall k :: k in m <==> k in ValuesOf(m);
    assert forall k :: k in m ==> ValuesOf(m)[k] == m[k].val;
  }

  /** A root opens to the values of the latest tree that has it, exactly when those can be saved. */
  lemma OpensLatest(h: Hash, u: iset<Bytes>, s: Store, log: seq<Tree>, root: Bytes, m: Values)
    requires NoZeroHash(h, u) && AllReadable(h, u, s, log)
    requires Flushed(h, log, root) && ValuesIn(log[Latest(h, log, root)]) == m
    ensures OpensAs(s, root, m) <==> SavableValues(m)
  {
    SavableAs(ItemsOf(log[Latest(h, log, root)]));
    if SavableValues(m) { RootOpens(h, u, History.State(s, Empty(), log), root); }
    if OpensAs(s, root, m) {
      OpenSavable(s, root);
      SavableAs(ItemsOf(OpenTrie(s, root)));
    }
  }

  // ----- Trees that cannot be taken for one another -----

  /** Everything hashed for the root of a map is in a set without collisions. */
  ghost predicate Hashes(h: Hash, u: iset<Bytes>, m: Values) { Injective(h, u) && TreeInputs(h, m) <= u }

  ghost predicate SameRoot(h: Hash, m: Values, n: Values) { PlainRoot(h, m, []) == PlainRoot(h, n, []) }

  lemma SameRootIff(h: Hash, u: iset<Bytes>, m: Values, n: Values)
    requires Hashes(h, u, m) && Hashes(h, u, n)
    ensures SameRoot(h, m, n) <==> SamePairs(h, m, n)
  {
    var v := TreeInputs(h, m) + TreeInputs(h, n);
    forall x, y ensures NoClash(h, v, x, y) { assert NoClash(h, u, x, y); }
    RootIffPairs(h, m, n);
  }

  /** A value that is not in the other map tells the two apart. */
  lemma ToldApart(h: Hash, u: iset<Bytes>, m: Values, n: Values, k: Key)
    requires Hashes(h, u, m) && Hashes(h, u, n) && WordValues(m) && WordValues(n)
    requires k in m && m[k] != h([]) && forall l :: l in n ==> n[l] != m[k]
    ensures !SameRoot(h, m, n)
  {
    SameRootIff(h, u, m, n);
    if SamePairs(h, m, n) { PairsFixLeaf(h, m, n, k); }
  }

  /** So does one of more than 64 bytes. */
  lemma LongApart(h: Hash, u: iset<Bytes>, m: Values, n: Values, k: Key)
    requires Hashes(h, u, m) && Hashes(h, u, n) && WordValues(n) && k in m && |m[k]| > 64
    ensures !SameRoot(h, m, n)
  {
    var q := Path(k)[..63];
    assert Path(k) == q + [Path(k)[63]];
    LeafAtKey(h, m, k);
    WordRoots(h, n, q + [false]);
    WordRoots(h, n, q + [true]);
    assert |Pair(h, m, q)| > 64 && |Pair(h, n, q)| == 64;
    SameRootIff(h, u, m, n);
  }

  lemma NoEntries(m: map<UInt64, Bytes>)
    ensures Keyed(m) == map[] <==> m == map[]
  {
    if m != map[] {
      var x :| x in m;
      KeyedAt(m, x);
    }
  }

  /** A word that is nonzero and not the mark of an empty leaf. */
  predicate IsCode(h: Hash, x: Bytes) { |x| == 32 && x != Zeros(32) && x != h([]) }

  predicate AllCodes(h: Hash, m: map<UInt64, Bytes>) { forall x :: x in m ==> IsCode(h, m[x]) }

  predicate CodesOrMarks(h: Hash, m: map<UInt64, Bytes>) {
    forall x :: x in m ==> m[x] == h([]) || IsCode(h, m[x])
  }

  predicate AllMarks(h: Hash, m: map<UInt64, Bytes>) { forall x :: x in m ==> m[x] == h([]) }

  predicate NoneShared(m: map<UInt64, Bytes>, n: map<UInt64, Bytes>) {
    forall x, y :: x in m && y in n ==> m[x] != n[y]
  }

  lemma KeyedWords(m: map<UInt64, Bytes>)
    requires forall x :: x in m ==> |m[x]| == 32
    ensures WordValues(Keyed(m))
  {
    forall k | k in Keyed(m) ensures |Keyed(m)[k]| == 32 { KeyedFrom(m, k); }
  }

  /** Two maps of words that share none have one root only if each has no more than empty marks. */
  lemma OnlyMarks(h: Hash, u: iset<Bytes>, m: map<UInt64, Bytes>, n: map<UInt64, Bytes>)
    requires Hashes(h, u, Keyed(m)) && Hashes(h, u, Keyed(n)) && WordValues(Keyed(m)) && WordValues(Keyed(n))
    requires SameRoot(h, Keyed(m), Keyed(n)) && NoneShared(m, n)
    ensures AllMarks(h, m)
  {
    forall x | x in m ensures m[x] == h([]) {
      KeyedAt(m, x);
      if m[x] != h([]) {
        forall l | l in Keyed(n) ensures Keyed(n)[l] != m[x] { KeyedFrom(n, l); }
        ToldApart(h, u, Keyed(m), Keyed(n), KeyOf(x));
      }
    }
  }

  /** A map of empty marks has the root of an empty map. */
  lemma MarksAlike(h: Hash, m: map<UInt64, Bytes>)
    requires AllMarks(h, m)
    ensures SameRoot(h, map[], Keyed(m))
  {
    forall k: Key ensures LeafOf(h, map[], k) == LeafOf(h, Keyed(m), k) {
      if k in Keyed(m) { KeyedFrom(m, k); }
    }
    LeavesFixPairs(h, map[], Keyed(m));
    PairsFixRoot(h, map[], Keyed(m), []);
  }

  predicate NonzeroWords(m: map<UInt64, Bytes>) {
    forall x :: x in m ==> |m[x]| == 32 && m[x] != Zeros(32)
  }

  /** A map of nonzero words can be read back exactly when it does not have the key zero. */
  lemma SavableKeyed(m: map<UInt64, Bytes>)
    requires NonzeroWords(m)
    ensures SavableValues(Keyed(m)) <==> 0 !in m
  {
    ZeroBytes(8);
    KeyedAt(m, 0);
    if 0 !in m {
      forall k | k in Keyed(m) ensures k != ZERO_KEY && |Keyed(m)[k]| == 32 && Keyed(m)[k] != Zeros(32) {
        KeyedFrom(m, k);
      }
    }
  }

  lemma {:induction false} ZeroBytes(n: nat)
    ensures BigEndian(0, n) == Zeros(n)
  {
    if n > 0 { ZeroBytes(n - 1); }
  }

  // ----- The trees of a block -----

  /** What is in the trees of a block: all tokens, accounts and chains, and whether it has anchors. */
  datatype Contents = Contents(tk: map<UInt64, Bytes>, ac: map<UInt64, Bytes>, ch: map<UInt64, Bytes>, anchored: bool)

  /** It tells tokens, accounts and chains apart; an account that does not encode is given the hash of
      nothing, which is the mark of an empty leaf. Where there are accounts there are tokens, and where
      there are anchors there are chains. */
  ghost predicate Told(h: Hash, b: Contents) {
    && h([]) != Zeros(32) && AllCodes(h, b.tk) && AllCodes(h, b.ch) && CodesOrMarks(h, b.ac)
    && NoneShared(b.tk, b.ac) && NoneShared(b.ch, b.ac) && NoneShared(b.ch, b.tk)
    && (b.tk == map[] ==> b.ac == map[]) && (b.anchored ==> b.ch != map[])
  }

  /** The anchor tree of a block: empty, or with values of more than 64 bytes, which hold signatures. */
  ghost predicate AnchorTree(m: Values, anchored: bool) {
    (m != map[] <==> anchored) && forall k :: k in m ==> |m[k]| > 64
  }

  /** The values of the trees in the order they are flushed: of the block's transactions, then of all
      accounts and tokens, of the block's anchors, and of all chains. */
  ghost predicate InTrees(vs: seq<Values>, b: Contents) {
    |vs| == 5 && vs[1] == Keyed(b.ac) && vs[2] == Keyed(b.tk) && AnchorTree(vs[3], b.anchored) && vs[4] == Keyed(b.ch)
  }

  ghost predicate AllHashed(h: Hash, u: iset<Bytes>, vs: seq<Values>) {
    forall i :: 0 <= i < |vs| ==> Hashes(h, u, vs[i])
  }

  /** What the account tree opens to. */
  ghost function OpenedValues(h: Hash, b: Contents): map<UInt64, Bytes> {
    if !b.anchored && AllMarks(h, b.ac) then map[] else b.ac
  }

  /** Tree `j` is the last with the root of tree `i`. */
  ghost predicate LastWith(h: Hash, vs: seq<Values>, i: nat, j: nat) {
    i <= j < |vs| && SameRoot(h, vs[j], vs[i]) && forall k :: j < k < |vs| ==> !SameRoot(h, vs[k], vs[i])
  }

  lemma Coded(h: Hash, m: map<UInt64, Bytes>)
    requires h([]) != Zeros(32) && CodesOrMarks(h, m)
    ensures NonzeroWords(m) && WordValues(Keyed(m))
  {
    KeyedWords(m);
  }

  lemma ToldWords(h: Hash, b: Contents)
    requires Told(h, b)
    ensures WordValues(Keyed(b.tk)) && WordValues(Keyed(b.ac)) && WordValues(Keyed(b.ch))
    ensures NonzeroWords(b.tk) && NonzeroWords(b.ac) && NonzeroWords(b.ch) && NonzeroWords(OpenedValues(h, b))
  {
    CodesAre(h, b.tk);
    CodesAre(h, b.ch);
    Coded(h, b.tk);
    Coded(h, b.ac);
    Coded(h, b.ch);
  }

  lemma CodesAre(h: Hash, m: map<UInt64, Bytes>)
    requires AllCodes(h, m)
    ensures CodesOrMarks(h, m)
  {
  }

  /** Tokens or chains have the root of another tree that shares no word with them only if there are
      none, and then the other has only empty marks. */
  lemma OtherTree(h: Hash, u: iset<Bytes>, m: map<UInt64, Bytes>, n: map<UInt64, Bytes>)
    requires Hashes(h, u, Keyed(m)) && Hashes(h, u, Keyed(n)) && WordValues(Keyed(m)) && WordValues(Keyed(n))
    requires AllCodes(h, m) && NoneShared(m, n) && SameRoot(h, Keyed(m), Keyed(n))
    ensures m == map[] && AllMarks(h, n)
  {
    OnlyMarks(h, u, m, n);
    NoCodes(h, m);
    OnlyMarks(h, u, n, m);
  }

  /** The anchor tree has the root of a tree of words only if it is empty. */
  lemma AnchorsAlike(h: Hash, u: iset<Bytes>, an: Values, anchored: bool, m: map<UInt64, Bytes>)
    requires AnchorTree(an, anchored) && WordValues(Keyed(m)) && SameRoot(h, an, Keyed(m))
    requires Hashes(h, u, an) && Hashes(h, u, Keyed(m))
    ensures !anchored && an == map[] && AllMarks(h, m)
  {
    if an != map[] {
      var k :| k in an;
      LongApart(h, u, an, Keyed(m), k);
    }
    NoEntries(map[]);
    OnlyMarks(h, u, m, map[]);
  }

  /** The account tree is the last one with its root. */
  lemma AccountsSelf(h: Hash, b: Contents, an: Values)
    requires AnchorTree(an, b.anchored) && !SameRoot(h, an, Keyed(b.ac))
    ensures OpenedValues(h, b) == b.ac
  {
    if AllMarks(h, b.ac) { MarksAlike(h, b.ac); }
  }

  /** The token tree is, or the chain tree. */
  lemma AccountsOther(h: Hash, u: iset<Bytes>, b: Contents, m: map<UInt64, Bytes>)
    requires Told(h, b) && (m == b.tk || m == b.ch)
    requires Hashes(h, u, Keyed(m)) && Hashes(h, u, Keyed(b.ac)) && SameRoot(h, Keyed(m), Keyed(b.ac))
    ensures OpenedValues(h, b) == m
  {
    ToldWords(h, b);
    OtherTree(h, u, m, b.ac);
  }

  /** The anchor tree is. */
  lemma AccountsAnchors(h: Hash, u: iset<Bytes>, b: Contents, an: Values)
    requires Told(h, b) && AnchorTree(an, b.anchored)
    requires Hashes(h, u, an) && Hashes(h, u, Keyed(b.ac)) && SameRoot(h, an, Keyed(b.ac))
    ensures an == Keyed(OpenedValues(h, b))
  {
    Coded(h, b.ac);
    AnchorsAlike(h, u, an, b.anchored, b.ac);
    NoEntries(map[]);
  }

  /** The last tree with the root of the account tree holds what the accounts open to. */
  lemma AccountsLast(h: Hash, u: iset<Bytes>, vs: seq<Values>, b: Contents, j: nat)
    requires Told(h, b) && InTrees(vs, b) && AllHashed(h, u, vs) && LastWith(h, vs, 1, j)
    ensures vs[j] == Keyed(OpenedValues(h, b))
  {
    if j == 1 {
      AccountsSelf(h, b, vs[3]);
    } else if j == 2 {
      AccountsOther(h, u, b, b.tk);
    } else if j == 3 {
      AccountsAnchors(h, u, b, vs[3]);
    } else {
      AccountsOther(h, u, b, b.ch);
    }
  }

  lemma TokensAnchors(h: Hash, u: iset<Bytes>, b: Contents, an: Values)
    requires Told(h, b) && AnchorTree(an, b.anchored)
    requires Hashes(h, u, an) && Hashes(h, u, Keyed(b.tk)) && SameRoot(h, an, Keyed(b.tk))
    ensures an == Keyed(b.tk)
  {
    ToldWords(h, b);
    AnchorsAlike(h, u, an, b.anchored, b.tk);
    NoCodes(h, b.tk);
    NoEntries(b.tk);
  }

  lemma TokensChains(h: Hash, u: iset<Bytes>, b: Contents)
    requires Told(h, b)
    requires Hashes(h, u, Keyed(b.ch)) && Hashes(h, u, Keyed(b.tk)) && SameRoot(h, Keyed(b.ch), Keyed(b.tk))
    ensures b.ch == b.tk
  {
    ToldWords(h, b);
    OtherTree(h, u, b.ch, b.tk);
    NoCodes(h, b.tk);
  }

  /** The last tree with the root of the token tree holds the tokens. */
  lemma TokensLast(h: Hash, u: iset<Bytes>, vs: seq<Values>, b: Contents, j: nat)
    requires Told(h, b) && InTrees(vs, b) && AllHashed(h, u, vs) && LastWith(h, vs, 2, j)
    ensures vs[j] == Keyed(b.tk)
  {
    if j == 3 { TokensAnchors(h, u, b, vs[3]); } else if j == 4 { TokensChains(h, u, b); }
  }

  lemma NoCodes(h: Hash, m: map<UInt64, Bytes>)
    requires AllCodes(h, m) && AllMarks(h, m)
    ensures m == map[]
  {
  }

  // ----- Opening them again -----

  ghost function AllValues(ts: seq<Tree>): seq<Values> { seq(|ts|, i requires 0 <= i < |ts| => ValuesIn(ts[i])) }

  lemma RootsOf(h: Hash, t: Tree, r: Tree)
    ensures HasRoot(h, t, RootOf(h, r, [])) <==> SameRoot(h, ValuesIn(t), ValuesIn(r))
  {
    RootOfTrie(h, t);
    RootOfTrie(h, r);
  }

  /** The tree of a block that a root is mapped to after the flushes. */
  lemma LastTree(h: Hash, log: seq<Tree>, ts: seq<Tree>, i: nat, root: Bytes)
    returns (j: nat)
    requires i < |ts| && root == RootOf(h, ts[i], [])
    ensures LastWith(h, AllValues(ts), i, j)
    ensures Flushed(h, log + ts, root) && Latest(h, log + ts, root) == |log| + j
  {
    var n := |log|;
    var all := log + ts;
    assert all[n..] == ts;
    assert all[n + i] == ts[i] && HasRoot(h, all[n + i], root);
    j := Latest(h, all, root) - n;
    LastFrom(h, all, ts, n, i, j, root);
  }

  lemma LastFrom(h: Hash, all: seq<Tree>, ts: seq<Tree>, n: nat, i: nat, j: nat, root: Bytes)
    requires n <= |all| && all[n..] == ts && i <= j < |ts| && root == RootOf(h, ts[i], [])
    requires HasRoot(h, all[n + j], root) && forall k :: n + j < k < |all| ==> !HasRoot(h, all[k], root)
    ensures LastWith(h, AllValues(ts), i, j)
  {
    RootsOf(h, ts[j], ts[i]);
    forall k | j < k < |ts| ensures !SameRoot(h, AllValues(ts)[k], AllValues(ts)[i]) {
      assert ts[k] == all[n + k];
      RootsOf(h, ts[k], ts[i]);
    }
  }

  /** A tree of the block opens to what the last tree with its root holds, exactly when that does not
      have the key zero. */
  lemma TreeOpens(h: Hash, u: iset<Bytes>, s: Store, log: seq<Tree>, ts: seq<Tree>, root: Bytes, j: nat,
                  m: map<UInt64, Bytes>)
    requires NoZeroHash(h, u) && AllReadable(h, u, s, log + ts) && NonzeroWords(m)
    requires Flushed(h, log + ts, root) && Latest(h, log + ts, root) == |log| + j
    requires j < |ts| && AllValues(ts)[j] == Keyed(m)
    ensures OpensAs(s, root, Keyed(m)) <==> 0 !in m
  {
    assert (log + ts)[|log| + j] == ts[j];
    OpensLatest(h, u, s, log + ts, root, Keyed(m));
    SavableKeyed(m);
  }

  /** Everything about the flushed trees of a block. */
  ghost predicate FlushedBlock(h: Hash, u: iset<Bytes>, s: Store, log: seq<Tree>, ts: seq<Tree>, b: Contents) {
    && Injective(h, u) && NoZeroHash(h, u) && AllReadable(h, u, s, log + ts)
    && Told(h, b) && InTrees(AllValues(ts), b)
  }

  lemma BlockHashed(h: Hash, u: iset<Bytes>, s: Store, log: seq<Tree>, ts: seq<Tree>, b: Contents)
    requires FlushedBlock(h, u, s, log, ts, b)
    ensures AllHashed(h, u, AllValues(ts))
  {
    forall i | 0 <= i < |ts| ensures Hashes(h, u, AllValues(ts)[i]) {
      assert (log + ts)[|log| + i] == ts[i];
      assert History.Readable(h, u, s, log + ts, ts[i]);
    }
  }

  lemma AccountsOpen(h: Hash, u: iset<Bytes>, s: Store, log: seq<Tree>, ts: seq<Tree>, b: Contents, root: Bytes)
    requires FlushedBlock(h, u, s, log, ts, b) && root == RootOf(h, ts[1], [])
    ensures OpensAs(s, root, Keyed(OpenedValues(h, b))) <==> 0 !in OpenedValues(h, b)
  {
    BlockHashed(h, u, s, log, ts, b);
    var j := LastTree(h, log, ts, 1, root);
    AccountsLast(h, u, AllValues(ts), b, j);
    ToldWords(h, b);
    TreeOpens(h, u, s, log, ts, root, j, OpenedValues(h, b));
  }

  lemma TokensOpen(h: Hash, u: iset<Bytes>, s: Store, log: seq<Tree>, ts: seq<Tree>, b: Contents, root: Bytes)
    requires FlushedBlock(h, u, s, log, ts, b) && root == RootOf(h, ts[2], [])
    ensures OpensAs(s, root, Keyed(b.tk)) <==> 0 !in b.tk
  {
    BlockHashed(h, u, s, log, ts, b);
    var j := LastTree(h, log, ts, 2, root);
    TokensLast(h, u, AllValues(ts), b, j);
    ToldWords(h, b);
    TreeOpens(h, u, s, log, ts, root, j, b.tk);
  }

  lemma ChainsOpen(h: Hash, u: iset<Bytes>, s: Store, log: seq<Tree>, ts: seq<Tree>, b: Contents, root: Bytes)
    requires FlushedBlock(h, u, s, log, ts, b) && root == RootOf(h, ts[4], [])
    ensures OpensAs(s, root, Keyed(b.ch)) <==> 0 !in b.ch
  {
    var j := LastTree(h, log, ts, 4, root);
    assert j == 4;
    ToldWords(h, b);
    TreeOpens(h, u, s, log, ts, root, j, b.ch);
  }

  // ----- A committed state -----

  ghost function ContentsOf(cd: Codec, w: Storage, anchored: bool): Contents {
    Contents(Encoded(w.tokens, cd.token), Encoded(w.accounts, cd.account), Encoded(w.chains, cd.chain), anchored)
  }

  /** The codec gives only accounts that do not encode the hash of nothing. */
  ghost predicate MarksLost(h: Hash, cd: Codec, w: Storage) {
    forall s :: s in w.accounts ==> (w.accounts[s].None? <==> cd.account(w.accounts[s]) == h([]))
  }

  lemma OpenedAs(h: Hash, cd: Codec, w: Storage, anchored: bool)
    requires MarksLost(h, cd, w)
    ensures Encoded(Opened(w.accounts, anchored), cd.account) == OpenedValues(h, ContentsOf(cd, w, anchored))
  {
    var ac := Encoded(w.accounts, cd.account);
    if forall s :: s in w.accounts ==> w.accounts[s].None? {
      assert AllMarks(h, ac);
    } else {
      var s :| s in w.accounts && !w.accounts[s].None?;
      assert ac[s] != h([]);
    }
  }

  /** No tree of a stored state has the key zero. */
  predicate NoZeros(c: Storage) { 0 !in c.tokens && 0 !in c.accounts && 0 !in c.chains }

  /** Trees opened at the roots of a header stand for a stored state. */
  ghost predicate StateOpens(s: Store, cd: Codec, c: Storage, r: Header) {
    && OpensAs(s, r.tokenRoot, Keyed(Encoded(c.tokens, cd.token)))
    && OpensAs(s, r.accountRoot, Keyed(Encoded(c.accounts, cd.account)))
    && OpensAs(s, r.chainRoot, Keyed(Encoded(c.chains, cd.chain)))
  }

  /** The roots of a block's trees. */
  ghost function HeaderFrom(h: Hash, ts: seq<Tree>): Header
    requires |ts| == 5
  {
    Header(RootOf(h, ts[2], []), RootOf(h, ts[0], []), RootOf(h, ts[1], []), RootOf(h, ts[4], []))
  }

  /** A commit, down to the chunks: when the trees of a block have been flushed, one after another, into
      a store that holds those of all earlier blocks, the trees that the next block opens at the
      header's roots stand for the committed state exactly when none of its keys is zero. */
  lemma CommitOpens(h: Hash, u: iset<Bytes>, cd: Codec, c: Storage, v: View, order: seq<Address>,
                    ss: seq<Store>, log: seq<Tree>, ts: seq<Tree>)
    requires Injective(h, u) && NoZeroHash(h, u) && FlushAll(h, u, ss, ts) && AllReadable(h, u, ss[0], log)
    requires var w, anchored := Written(c, v, order), v.anchors != map[];
      && MarksLost(h, cd, w) && Told(h, ContentsOf(cd, w, anchored))
      && InTrees(AllValues(ts), ContentsOf(cd, w, anchored))
    ensures AllReadable(h, u, ss[5], log + ts)
    ensures StateOpens(ss[5], cd, Committed(c, v, order), HeaderFrom(h, ts)) <==> NoZeros(Committed(c, v, order))
  {
    AllFlushed(h, u, ss, log, ts, 5);
    assert ts[..5] == ts;
    WrittenOpens(h, u, ss[5], cd, log, ts, Written(c, v, order), v.anchors != map[], Committed(c, v, order));
  }

  lemma WrittenOpens(h: Hash, u: iset<Bytes>, s: Store, cd: Codec, log: seq<Tree>, ts: seq<Tree>, w: Storage,
                     anchored: bool, c: Storage)
    requires FlushedBlock(h, u, s, log, ts, ContentsOf(cd, w, anchored)) && MarksLost(h, cd, w)
    requires c == w.(accounts := Opened(w.accounts, anchored))
    ensures StateOpens(s, cd, c, HeaderFrom(h, ts)) <==> NoZeros(c)
  {
    OpenedAs(h, cd, w, anchored);
    BlockOpens(h, u, s, cd, log, ts, ContentsOf(cd, w, anchored), c, HeaderFrom(h, ts));
  }

  lemma BlockOpens(h: Hash, u: iset<Bytes>, s: Store, cd: Codec, log: seq<Tree>, ts: seq<Tree>, b: Contents,
                   c: Storage, r: Header)
    requires FlushedBlock(h, u, s, log, ts, b) && r == HeaderFrom(h, ts)
    requires Encoded(c.tokens, cd.token) == b.tk && Encoded(c.chains, cd.chain) == b.ch
    requires Encoded(c.accounts, cd.account) == OpenedValues(h, b)
    ensures StateOpens(s, cd, c, r) <==> NoZeros(c)
  {
    TokensOpen(h, u, s, log, ts, b, r.tokenRoot);
    AccountsOpen(h, u, s, log, ts, b, r.accountRoot);
    ChainsOpen(h, u, s, log, ts, b, r.chainRoot);
    SameKeys(cd, c);
  }

  lemma SameKeys(cd: Codec, c: Storage)
    ensures 0 in Encoded(c.tokens, cd.token) <==> 0 in c.tokens
    ensures 0 in Encoded(c.accounts, cd.account) <==> 0 in c.accounts
    ensures 0 in Encoded(c.chains, cd.chain) <==> 0 in c.chains
  {
  }

  // ----- The order of the accounts -----

  /** Every account is given a word, and pending ones that are stored as different things different
      words. */
  ghost predicate Distinguishes(cd: Codec, pending: map<Address, Account>) {
    && (forall x: Option<Account> :: |cd.account(x)| == 32)
    && forall a, b :: a in pending && b in pending && Encoding(pending[a]) != Encoding(pending[b]) ==>
         cd.account(Encoding(pending[a])) != cd.account(Encoding(pending[b]))
  }

  ghost function AccountsAfter(cd: Codec, c: Storage, v: View, order: seq<Address>): Values {
    Keyed(Encoded(StoreAll(c.accounts, v.accounts, order), cd.account))
  }

  ghost predicate SameHeaders(h: Hash, cd: Codec, c: Storage, v: View) {
    forall x, y :: Orders(x, v.accounts) && Orders(y, v.accounts) ==>
      HeaderOf(h, cd, Written(c, v, x), Transactions(v)) == HeaderOf(h, cd, Written(c, v, y), Transactions(v))
  }

  /** Without collisions, a block has one header in all orders of its accounts exactly when pending
      accounts that share a storage key have the same contents, or none of them encodes. */
  lemma HeaderOrderIff(h: Hash, u: iset<Bytes>, cd: Codec, c: Storage, v: View)
    requires Distinguishes(cd, v.accounts)
    requires forall x :: Orders(x, v.accounts) ==> Hashes(h, u, AccountsAfter(cd, c, v, x))
    ensures SameHeaders(h, cd, c, v) <==> SameWhereShared(v.accounts)
  {
    if SameWhereShared(v.accounts) {
      forall x, y | Orders(x, v.accounts) && Orders(y, v.accounts)
        ensures HeaderOf(h, cd, Written(c, v, x), Transactions(v)) == HeaderOf(h, cd, Written(c, v, y), Transactions(v))
      {
        SameStored(c.accounts, v.accounts, x, y);
      }
    } else {
      var a, b :| a in v.accounts && b in v.accounts && Short(a) == Short(b)
                  && Encoding(v.accounts[a]) != Encoding(v.accounts[b]);
      var x := LastOf(c.accounts, v.accounts, a);
      var y := LastOf(c.accounts, v.accounts, b);
      RootsDiffer(h, u, cd, StoreAll(c.accounts, v.accounts, x), StoreAll(c.accounts, v.accounts, y), Short(a));
      assert HeaderOf(h, cd, Written(c, v, x), Transactions(v)) != HeaderOf(h, cd, Written(c, v, y), Transactions(v));
    }
  }

  lemma RootsDiffer(h: Hash, u: iset<Bytes>, cd: Codec, m: map<UInt64, Option<Account>>,
                    n: map<UInt64, Option<Account>>, s: UInt64)
    requires forall x: Option<Account> :: |cd.account(x)| == 32
    requires s in m && s in n && cd.account(m[s]) != cd.account(n[s])
    requires Hashes(h, u, Keyed(Encoded(m, cd.account))) && Hashes(h, u, Keyed(Encoded(n, cd.account)))
    ensures PlainRoot(h, Keyed(Encoded(m, cd.account)), []) != PlainRoot(h, Keyed(Encoded(n, cd.account)), [])
  {
    var p, q := Encoded(m, cd.account), Encoded(n, cd.account);
    KeyedWords(p);
    KeyedWords(q);
    KeyedAt(p, s);
    KeyedAt(q, s);
    SameRootIff(h, u, Keyed(p), Keyed(q));
    if SamePairs(h, Keyed(p), Keyed(q)) { PairsFixLeaf(h, Keyed(p), Keyed(q), KeyOf(s)); }
  }
}
