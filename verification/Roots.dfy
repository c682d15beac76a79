/** The roots a commit puts in its header: the pending objects are written into trees, in whatever
    order, and the trees flushed. What the roots then are roots of. */
module Roots {
  import opened Bytes
  import opened Keys
  import opened PlainTree
  import opened Tries
  import opened TrieRoot
  import opened Chunk
  import opened History
  import opened SparseMerkle
  import opened Plasma

  function KeyOf(id: UInt64): Key { UInt64ToByte(id) }

  /** A value to be written under a number. */
  datatype Entry = Entry(id: UInt64, val: Bytes)

  ghost function Writes(ps: seq<Entry>): seq<Write> {
    seq(|ps|, i requires 0 <= i < |ps| => Write(KeyOf(ps[i].id), ps[i].val, 0, 0))
  }

  /** Values after some writes. */
  function PutAll(vals: Values, ps: seq<Entry>): Values {
    if ps == [] then vals else PutAll(vals, ps[..|ps| - 1])[KeyOf(ps[|ps| - 1].id) := ps[|ps| - 1].val]
  }

  lemma WritesLast(ps: seq<Entry>, p: Entry)
    ensures Writes(ps + [p]) == Writes(ps) + [Write(KeyOf(p.id), p.val, 0, 0)]
  {
  }

  /** What the values of a trie have for a key is what it finds. */
  lemma ValueAt(t: Trie, k: Key)
    requires t.Branch? && Fits(t, [])
    ensures k in ValuesIn(t) <==> Find(t, [], k).Some?
    ensures k in ValuesIn(t) ==> ValuesIn(t)[k] == Find(t, [], k).value.val
  {
    assert Under([], k);
    assert Find(t, [], k) == Get(ItemsOf(t), k);
  }

  lemma WriteValueAt(t: Trie, w: Write, k: Key)
    requires t.Branch? && Fits(t, [])
    ensures var r := WriteTrie(t, w);
      if k == w.key then k in ValuesIn(r) && ValuesIn(r)[k] == w.val
      else (k in ValuesIn(r) <==> k in ValuesIn(t)) && (k in ValuesIn(t) ==> ValuesIn(r)[k] == ValuesIn(t)[k])
  {
    assert Under([], k) && Under([], w.key);
    InsertFind(t, [], w.key, w.val, w.bytes, w.block, k);
    ValueAt(t, k);
    ValueAt(WriteTrie(t, w), k);
  }

  lemma WriteValues(t: Trie, w: Write)
    requires t.Branch? && Fits(t, [])
    ensures ValuesIn(WriteTrie(t, w)) == ValuesIn(t)[w.key := w.val]
  {
    var m, n := ValuesIn(t)[w.key := w.val], ValuesIn(WriteTrie(t, w));
    forall k: Key ensures SameAt(m, n, k) { WriteValueAt(t, w, k); }
    SameMap(m, n);
  }

  predicate SameAt(m: Values, n: Values, k: Key) {
    (k in m <==> k in n) && (k in m ==> m[k] == n[k])
  }

  lemma SameMap(m: Values, n: Values)
    requires forall k: Key :: SameAt(m, n, k)
    ensures m == n
  {
    assert forall k: Key :: SameAt(m, n, k) ==> (k in m <==> k in n);
    assert m.Keys == n.Keys;
    forall k | k in m ensures m[k] == n[k] { assert SameAt(m, n, k); }
  }

  /** A trie after the writes holds the values after the writes. */
  lemma {:induction false} PutValues(t: Trie, ps: seq<Entry>)
    requires t.Branch? && Fits(t, [])
    ensures ValuesIn(WriteAllTrie(t, Writes(ps))) == PutAll(ValuesIn(t), ps)
    decreases |ps|
  {
    if ps != [] {
      var rest, p := ps[..|ps| - 1], ps[|ps| - 1];
      assert ps == rest + [p];
      WritesLast(rest, p);
      PutValues(t, rest);
      WriteLast(t, Writes(rest), Write(KeyOf(p.id), p.val, 0, 0));
      WriteValues(WriteAllTrie(t, Writes(rest)), Write(KeyOf(p.id), p.val, 0, 0));
    }
  }

  lemma WriteLast(t: Trie, ws: seq<Write>, w: Write)
    requires t.Branch? && Fits(t, [])
    ensures WriteAllTrie(t, ws + [w]) == WriteTrie(WriteAllTrie(t, ws), w)
  {
    assert (ws + [w])[..|ws|] == ws;
  }

  lemma WriteNext(t: Trie, ps: seq<Entry>, i: nat)
    requires t.Branch? && Fits(t, []) && i < |ps|
    ensures WriteAllTrie(t, Writes(ps[..i + 1]))
         == WriteTrie(WriteAllTrie(t, Writes(ps[..i])), Write(KeyOf(ps[i].id), ps[i].val, 0, 0))
  {
    PrefixNext(ps, i);
    WritesLast(ps[..i], ps[i]);
    WriteLast(t, Writes(ps[..i]), Write(KeyOf(ps[i].id), ps[i].val, 0, 0));
  }

  /** Writes pending values into a tree and flushes it. The code gets through exactly when no two
      keys share sixty bits, and the root is then that of the values after the writes. */
  method CommitTree(tree: SparseMerkleTree, ps: seq<Entry>, ghost t: Trie) returns (ok: bool)
    requires tree.Valid() && t == WriteAllTrie(tree.root.trie, Writes(ps))
    requires Injective(tree.h, ChunkSet(tree.h, t, []) + TreeInputs(tree.h, ValuesIn(t)))
    modifies tree.root.Repr, tree.store
    ensures ok <==> Separated(PutAll(old(ValuesIn(tree.root.trie)), ps))
    ensures ok ==> tree.Valid() && ValuesIn(tree.root.trie) == PutAll(old(ValuesIn(tree.root.trie)), ps)
    ensures ok ==> tree.root.merkleRoot == PlainRoot(tree.h, ValuesIn(tree.root.trie), [])
  {
    ghost var was := tree.root.trie;
    InsertAll(tree, ps);
    PutValues(was, ps);
    var chunkHash;
    ok, chunkHash := tree.Flush();
    if ok { RootOfTrie(tree.h, tree.root.trie); }
  }

  method InsertAll(tree: SparseMerkleTree, ps: seq<Entry>)
    requires tree.Valid()
    modifies tree.root.Repr
    ensures tree.Valid() && tree.root == old(tree.root) && fresh(tree.root.Repr - old(tree.root.Repr))
    ensures tree.root.trie == WriteAllTrie(old(tree.root.trie), Writes(ps))
  {
    assert Writes(ps[..0]) == [];
    for i := 0 to |ps|
      invariant tree.Valid() && fresh(tree.root.Repr - old(tree.root.Repr))
      invariant tree.root.trie == WriteAllTrie(old(tree.root.trie), Writes(ps[..i]))
    {
      WriteNext(old(tree.root.trie), ps, i);
      tree.Insert(KeyOf(ps[i].id), ps[i].val, 0, 0);
    }
    assert ps[..|ps|] == ps;
  }

  // ----- Trees that stand for maps -----

  /** What a tree stores for the objects of a map. */
  function Encoded<T>(m: map<UInt64, T>, f: T -> Bytes): map<UInt64, Bytes> {
    map id | id in m :: f(m[id])
  }

  /** The values of a tree that stands for a map from numbers. */
  ghost function Keyed(m: map<UInt64, Bytes>): Values {
    map k: Key | k in KeysFor(m) :: m[BytesToUint64(k)]
  }

  function KeysFor(m: map<UInt64, Bytes>): (s: set<Key>)
    ensures forall k: Key :: k in s ==> BytesToUint64(k) in m
  {
    set id | id in m :: KeyOf(id)
  }

  lemma KeyedPut(m: map<UInt64, Bytes>, id: UInt64, x: Bytes)
    ensures Keyed(m[id := x]) == Keyed(m)[KeyOf(id) := x]
  {
    assert KeysFor(m[id := x]) == KeysFor(m) + {KeyOf(id)} by {
      forall k | k in KeysFor(m) ensures k in KeysFor(m[id := x]) {
        var i :| i in m && KeyOf(i) == k;
        assert i in m[id := x];
      }
      assert id in m[id := x];
    }
    forall k: Key | k in Keyed(m) && k != KeyOf(id) ensures BytesToUint64(k) != id {
      var i :| i in m && KeyOf(i) == k;
    }
  }

  /** Objects written one after another, by number. */
  function PutsOf<T>(order: seq<UInt64>, m: map<UInt64, T>, f: T -> Bytes): seq<Entry>
    requires forall id :: id in order ==> id in m
  {
    seq(|order|, i requires 0 <= i < |order| => Entry(order[i], f(m[order[i]])))
  }

  ghost predicate Lists<T>(order: seq<UInt64>, m: map<UInt64, T>) {
    forall id :: id in order <==> id in m
  }

  function Restricted<T>(m: map<UInt64, T>, order: seq<UInt64>): map<UInt64, T> {
    map id | id in m && id in order :: m[id]
  }

  lemma PutLast(vals: Values, ps: seq<Entry>, p: Entry)
    ensures PutAll(vals, ps + [p]) == PutAll(vals, ps)[KeyOf(p.id) := p.val]
  {
    assert (ps + [p])[..|ps|] == ps;
  }

  lemma EncodedPut<T>(m: map<UInt64, T>, f: T -> Bytes, id: UInt64, x: T)
    ensures Encoded(m[id := x], f) == Encoded(m, f)[id := f(x)]
  {
  }

  /** One object more. */
  lemma PutOn<T>(vals: Values, ps: seq<Entry>, n: map<UInt64, T>, f: T -> Bytes, id: UInt64, x: T)
    requires PutAll(vals, ps) == Keyed(Encoded(n, f))
    ensures PutAll(vals, ps + [Entry(id, f(x))]) == Keyed(Encoded(n[id := x], f))
  {
    PutLast(vals, ps, Entry(id, f(x)));
    EncodedPut(n, f, id, x);
    KeyedPut(Encoded(n, f), id, f(x));
  }

  lemma RestrictedOn<T>(c: map<UInt64, T>, m: map<UInt64, T>, rest: seq<UInt64>, id: UInt64)
    requires id in m
    ensures c + Restricted(m, rest + [id]) == (c + Restricted(m, rest))[id := m[id]]
  {
  }

  lemma PutsLast<T>(rest: seq<UInt64>, id: UInt64, m: map<UInt64, T>, f: T -> Bytes)
    requires id in m && forall i :: i in rest ==> i in m
    ensures PutsOf(rest + [id], m, f) == PutsOf(rest, m, f) + [Entry(id, f(m[id]))]
  {
  }

  lemma {:induction false} PutsStep<T>(c: map<UInt64, T>, m: map<UInt64, T>, f: T -> Bytes, order: seq<UInt64>)
    requires forall id :: id in order ==> id in m
    ensures PutAll(Keyed(Encoded(c, f)), PutsOf(order, m, f)) == Keyed(Encoded(c + Restricted(m, order), f))
    decreases |order|
  {
    if order == [] {
      assert c + Restricted(m, order) == c;
    } else {
      var rest, id := order[..|order| - 1], order[|order| - 1];
      assert order == rest + [id];
      PutsStep(c, m, f, rest);
      PutsLast(rest, id, m, f);
      PutOn(Keyed(Encoded(c, f)), PutsOf(rest, m, f), c + Restricted(m, rest), f, id, m[id]);
      RestrictedOn(c, m, rest, id);
    }
  }

  /** In whatever order pending objects are written, the tree stands for the stored map overlaid by
      the pending one. */
  lemma PutsOverlay<T>(c: map<UInt64, T>, m: map<UInt64, T>, f: T -> Bytes, order: seq<UInt64>)
    requires Lists(order, m)
    ensures PutAll(Keyed(Encoded(c, f)), PutsOf(order, m, f)) == Keyed(Encoded(c + m, f))
  {
    PutsStep(c, m, f, order);
    RestrictedAll(m, order);
  }

  lemma RestrictedAll<T>(m: map<UInt64, T>, order: seq<UInt64>)
    requires Lists(order, m)
    ensures Restricted(m, order) == m
  {
  }

  /** Accounts written one after another, under the last eight bytes of their addresses. */
  function AccountPuts(order: seq<Address>, m: map<Address, Account>, f: Option<Account> -> Bytes): seq<Entry>
    requires forall a :: a in order ==> a in m
  {
    seq(|order|, i requires 0 <= i < |order| => Entry(Short(order[i]), f(Encoding(m[order[i]]))))
  }

  lemma AccountPutsLast(rest: seq<Address>, a: Address, m: map<Address, Account>, f: Option<Account> -> Bytes)
    requires a in m && forall b :: b in rest ==> b in m
    ensures AccountPuts(rest + [a], m, f) == AccountPuts(rest, m, f) + [Entry(Short(a), f(Encoding(m[a])))]
  {
  }

  lemma {:induction false} AccountsOverlay(c: map<UInt64, Option<Account>>, m: map<Address, Account>,
                                           f: Option<Account> -> Bytes, order: seq<Address>)
    requires forall a :: a in order ==> a in m
    ensures PutAll(Keyed(Encoded(c, f)), AccountPuts(order, m, f)) == Keyed(Encoded(StoreAll(c, m, order), f))
    decreases |order|
  {
    if order != [] {
      var rest, a := order[..|order| - 1], order[|order| - 1];
      assert order == rest + [a];
      AccountsOverlay(c, m, f, rest);
      AccountPutsLast(rest, a, m, f);
      PutOn(Keyed(Encoded(c, f)), AccountPuts(rest, m, f), StoreAll(c, m, rest), f, Short(a), Encoding(m[a]));
      assert StoreAll(c, m, order) == StoreAll(c, m, rest)[Short(a) := Encoding(m[a])];
    }
  }

  // ----- The four roots -----

  /** What the trees store for a token, an account, a chain and a transaction: the hash of its
      encoding, and of a transaction its own hash. */
  datatype Codec = Codec(token: Token -> Bytes, account: Option<Account> -> Bytes, chain: Chain -> Bytes,
                         hash: nat -> Bytes)

  datatype Header = Header(tokenRoot: Bytes, transactionRoot: Bytes, accountRoot: Bytes, chainRoot: Bytes)

  /** The roots of the plain trees of a stored state and of a block's transactions. */
  ghost function HeaderOf(h: Hash, cd: Codec, c: Storage, txs: map<UInt64, nat>): Header {
    Header(PlainRoot(h, Keyed(Encoded(c.tokens, cd.token)), []), PlainRoot(h, Keyed(Encoded(txs, cd.hash)), []),
           PlainRoot(h, Keyed(Encoded(c.accounts, cd.account)), []),
           PlainRoot(h, Keyed(Encoded(c.chains, cd.chain)), []))
  }

  ghost function RootAfter(h: Hash, t: Tree, ps: seq<Entry>): Bytes {
    RootOf(h, WriteAllTrie(t, Writes(ps)), [])
  }

  lemma RootAfterPuts(h: Hash, t: Tree, ps: seq<Entry>)
    ensures RootAfter(h, t, ps) == PlainRoot(h, PutAll(ValuesIn(t), ps), [])
    ensures ValuesIn(WriteAllTrie(t, Writes(ps))) == PutAll(ValuesIn(t), ps)
  {
    PutValues(t, ps);
    RootOfTrie(h, WriteAllTrie(t, Writes(ps)));
  }

  /** The trees of a stored state. */
  ghost predicate StandsFor(cd: Codec, c: Storage, tokens: Tree, accounts: Tree, chains: Tree) {
    && ValuesIn(tokens) == Keyed(Encoded(c.tokens, cd.token))
    && ValuesIn(accounts) == Keyed(Encoded(c.accounts, cd.account))
    && ValuesIn(chains) == Keyed(Encoded(c.chains, cd.chain))
  }

  /** Committing a view on a stored state: in every order of the pending maps, the trees then stand for
      what is written, and their roots and that of the block's transactions, whose tree starts out
      empty, are the plain ones. */
  lemma CommitRoots(h: Hash, cd: Codec, c: Storage, v: View, tokens: Tree, accounts: Tree, chains: Tree,
                    ids: seq<UInt64>, order: seq<Address>, chainIDs: seq<UInt64>)
    requires StandsFor(cd, c, tokens, accounts, chains)
    requires Lists(ids, v.tokens) && Orders(order, v.accounts) && Lists(chainIDs, v.chains)
    ensures Header(RootAfter(h, tokens, PutsOf(ids, v.tokens, cd.token)),
                   RootAfter(h, Empty(), PutsOf(ids, Transactions(v), cd.hash)),
                   RootAfter(h, accounts, AccountPuts(order, v.accounts, cd.account)),
                   RootAfter(h, chains, PutsOf(chainIDs, v.chains, cd.chain)))
         == HeaderOf(h, cd, Written(c, v, order), Transactions(v))
    ensures StandsFor(cd, Written(c, v, order), WriteAllTrie(tokens, Writes(PutsOf(ids, v.tokens, cd.token))),
                      WriteAllTrie(accounts, Writes(AccountPuts(order, v.accounts, cd.account))),
                      WriteAllTrie(chains, Writes(PutsOf(chainIDs, v.chains, cd.chain))))
  {
    RootAfterPuts(h, tokens, PutsOf(ids, v.tokens, cd.token));
    PutsOverlay(c.tokens, v.tokens, cd.token, ids);
    RootAfterPuts(h, accounts, AccountPuts(order, v.accounts, cd.account));
    AccountsOverlay(c.accounts, v.accounts, cd.account, order);
    RootAfterPuts(h, chains, PutsOf(chainIDs, v.chains, cd.chain));
    PutsOverlay(c.chains, v.chains, cd.chain, chainIDs);
    TransactionRoot(h, cd.hash, v, ids, Empty());
  }

  lemma TransactionRoot(h: Hash, f: nat -> Bytes, v: View, ids: seq<UInt64>, e: Tree)
    requires Lists(ids, v.tokens) && e == Empty()
    ensures Lists(ids, Transactions(v))
    ensures RootAfter(h, e, PutsOf(ids, Transactions(v), f)) == PlainRoot(h, Keyed(Encoded(Transactions(v), f)), [])
  {
    RootAfterPuts(h, e, PutsOf(ids, Transactions(v), f));
    NoValues();
    FromNothing(Transactions(v), f, ids);
  }

  lemma FromNothing<T>(m: map<UInt64, T>, f: T -> Bytes, ids: seq<UInt64>)
    requires Lists(ids, m)
    ensures PutAll(map[], PutsOf(ids, m, f)) == Keyed(Encoded(m, f))
  {
    var none: map<UInt64, T> := map[];
    NothingStored(none, m, f);
    PutsOverlay(none, m, f, ids);
  }

  lemma NothingStored<T>(none: map<UInt64, T>, m: map<UInt64, T>, f: T -> Bytes)
    requires none == map[]
    ensures none + m == m && Keyed(Encoded(none, f)) == map[]
  {
  }

  lemma NoValues()
    ensures ValuesIn(Empty()) == map[]
  {
    forall k: Key ensures k !in ItemsOf(Empty()) {
      assert Under([], k);
      assert Find(Empty(), [], k) == Get(ItemsOf(Empty()), k);
    }
  }
}
