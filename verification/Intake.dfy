/** What comes into the pool and is minted from it: a transfer sent without a balance, and a backlog of
    anchors that arrived in any order. */
module Intake {
  import opened Bytes
  import opened Plasma
  import opened Ledger
  import opened Minting
  import opened Pool
  import opened Apply
  import opened Mint
  import opened Effects

  // ----- A missing balance -----

  /** A transfer sent without a balance enters the pool with amounts that add up. So whether it passes,
      when it comes to a token, is decided by the other checks alone. */
  method SendWithoutBalance(pool: TxPool, tx: Tx, signer: Option<Address>, operator: Address, key: TokenKey)
    returns (ok: bool, ghost e: Tx)
    requires tx.balance == 0 && tx.hash !in TxHashes(pool.txpool)
    modifies pool`txpool
    ensures pool.txpool == if ok then old(pool.txpool) + [e] else old(pool.txpool)
    ensures ok ==> e == tx.(balance := e.balance) && forall t: Token {:trigger Passes(t, e)} :: Passes(t, e) <==>
      && tx.prevBlock == t.prevBlock && tx.prevOwner == t.owner && tx.denomination == t.denomination
      && (t.balance + t.allowance + t.spent) % TWO_64 == t.denomination
      && (tx.recipient != t.owner || tx.spent > t.spent || e.balance != t.balance)
  {
    ghost var n := |pool.txpool|;
    ok := SendPlasmaTransaction(pool, tx, signer, operator, key);
    e := if ok then pool.txpool[n] else tx;
  }

  // ----- A backlog of anchors -----

  /** The next anchor of a chain: its first, or the one after its end. */
  function First(ch: Chain): nat { if ch.owners == [] then 0 else ch.end + 1 }

  /** An anchor of the backlog: of the chain, in the range, signed by an owner, or by `x`, and removing
      nobody. */
  predicate Waits(t: Transaction, id: UInt64, ch: Chain, n: nat, x: Address) {
    && t.Anchor? && t.atx.chainID == id && First(ch) <= t.atx.number < First(ch) + n && t.atx.removed == []
    && t.atx.signer.Some? && (t.atx.signer.value in ch.owners || t.atx.signer.value == x)
  }

  /** The pool holds the next `|ts|` anchors of the chain and nothing else. For a chain without owners,
      all are signed by the one who registers it. */
  predicate Backlog(ts: seq<Transaction>, id: UInt64, ch: Chain, x: Address) {
    && (forall t :: t in ts ==> Waits(t, id, ch, |ts|, x))
    && (forall i, j :: 0 <= i < j < |ts| && ts[i].Anchor? && ts[j].Anchor? ==> ts[i].atx.number != ts[j].atx.number)
    && (ch.owners == [] ==> ch.end == 0) && (ch.owners != [] ==> x in ch.owners)
  }

  lemma Permuted(all: seq<Transaction>, ts: seq<Transaction>, id: UInt64, ch: Chain, x: Address)
    requires Backlog(all, id, ch, x) && multiset(ts) == multiset(all)
    ensures Backlog(ts, id, ch, x) && |ts| == |all|
  {
    assert |ts| == |multiset(ts)| == |all|;
    forall t | t in ts ensures Waits(t, id, ch, |ts|, x) { assert t in multiset(all); }
    forall i, j | 0 <= i < j < |ts| ensures ts[i].Anchor? && ts[j].Anchor? ==> ts[i].atx.number != ts[j].atx.number {
      if ts[i] == ts[j] {
        Twice(ts, i, j);
        TwiceAt(all, ts[i]);
      } else {
        assert ts[i] in multiset(all) && ts[j] in multiset(all);
        var a :| 0 <= a < |all| && all[a] == ts[i];
        var b :| 0 <= b < |all| && all[b] == ts[j];
      }
    }
  }

  /** Sorted by number they come one after the other. */
  lemma {:induction false} AtLeast(ts: seq<Transaction>, id: UInt64, ch: Chain, x: Address, i: nat)
    requires Backlog(ts, id, ch, x) && i < |ts|
    requires forall i, j :: 0 <= i < j < |ts| && ts[i].Anchor? && ts[j].Anchor? ==> ts[i].atx.number <= ts[j].atx.number
    ensures ts[i].Anchor? && ts[i].atx.number >= First(ch) + i
  {
    assert Waits(ts[i], id, ch, |ts|, x);
    if i > 0 { AtLeast(ts, id, ch, x, i - 1); }
  }

  lemma {:induction false} AtMost(ts: seq<Transaction>, id: UInt64, ch: Chain, x: Address, i: nat)
    requires Backlog(ts, id, ch, x) && i < |ts|
    requires forall i, j :: 0 <= i < j < |ts| && ts[i].Anchor? && ts[j].Anchor? ==> ts[i].atx.number <= ts[j].atx.number
    ensures ts[i].Anchor? && ts[i].atx.number <= First(ch) + i
    decreases |ts| - i
  {
    assert Waits(ts[i], id, ch, |ts|, x);
    if i + 1 < |ts| { AtMost(ts, id, ch, x, i + 1); }
  }

  /** The chain after the first `i` of them. */
  ghost predicate Caught(c: Storage, v: View, id: UInt64, ch: Chain, i: nat, x: Address) {
    var now := ChainOf(c, v, id);
    if i == 0 then now == ch
    else
      && now.owners != [] && now.end == First(ch) + i - 1 && x in now.owners
      && forall a :: a in ch.owners ==> a in now.owners
  }

  lemma OneAccepted(c: Storage, v: View, tx: AnchorTx, ch: Chain, i: nat, n: nat, x: Address)
    requires Caught(c, v, tx.chainID, ch, i, x) && Waits(Anchor(tx), tx.chainID, ch, n, x)
    requires tx.number == First(ch) + i && !Loads(c.chains.Keys, tx.chainID)
    requires (ch.owners == [] ==> ch.end == 0) && (ch.owners != [] ==> x in ch.owners)
    ensures AcceptsAnchor(c, v, tx, false)
    ensures Caught(c, AfterAnchor(c, v, tx, false), tx.chainID, ch, i + 1, x)
  {
    var now := ChainOf(c, v, tx.chainID);
    if tx.number == 0 {
      Added([tx.signer.value], tx.added);
    } else {
      Added(now.owners, tx.added);
    }
  }

  lemma {:induction false} Added(owners: seq<Address>, added: seq<Address>)
    ensures forall a :: a in owners ==> a in WithOwners(owners, added)
  {
    if added != [] { Added(owners, added[..|added| - 1]); }
  }

  lemma {:induction false} AllAccepted(c: Storage, block: nat, ts: seq<Transaction>, key: TokenKey, id: UInt64,
                                       ch: Chain, x: Address, i: nat)
    requires i <= |ts| && Backlog(ts, id, ch, x) && ch == ChainOf(c, NO_VIEW, id) && !Loads(c.chains.Keys, id)
    requires forall j :: 0 <= j < |ts| ==> ts[j].Anchor? && ts[j].atx.number == First(ch) + j
    ensures AppliesTo(c, NO_VIEW, block, ts, key, i)
    ensures Caught(c, PlayedTo(c, NO_VIEW, block, ts, key, i), id, ch, i, x)
  {
    if i > 0 {
      AllAccepted(c, block, ts, key, id, ch, x, i - 1);
      assert Waits(ts[i - 1], id, ch, |ts|, x);
      OneAccepted(c, PlayedTo(c, NO_VIEW, block, ts, key, i - 1), ts[i - 1].atx, ch, i - 1, |ts|, x);
    }
  }

  lemma BacklogPlayed(c: Storage, block: nat, all: seq<Transaction>, ts: seq<Transaction>, key: TokenKey, id: UInt64,
                      x: Address)
    requires Backlog(all, id, ChainOf(c, NO_VIEW, id), x) && !Loads(c.chains.Keys, id) && multiset(ts) == multiset(all)
    requires forall i, j :: 0 <= i < j < |ts| && ts[i].Anchor? && ts[j].Anchor? ==>
      ts[i].atx.chainID < ts[j].atx.chainID ||
      (ts[i].atx.chainID == ts[j].atx.chainID && ts[i].atx.number <= ts[j].atx.number)
    ensures |ts| == |all| && Backlog(ts, id, ChainOf(c, NO_VIEW, id), x)
    ensures AppliesTo(c, NO_VIEW, block, ts, key, |ts|)
    ensures Caught(c, PlayedTo(c, NO_VIEW, block, ts, key, |ts|), id, ChainOf(c, NO_VIEW, id), |ts|, x)
  {
    var ch := ChainOf(c, NO_VIEW, id);
    Permuted(all, ts, id, ch, x);
    forall j | 0 <= j < |ts| ensures ts[j].Anchor? && ts[j].atx.number == First(ch) + j {
      InSequence(ts, id, ch, x, j);
    }
    AllAccepted(c, block, ts, key, id, ch, x, |ts|);
  }

  /** Minting from such a pool commits all of it, in whatever order it came in: the pool `all`, the
      order `ts` it is minted in, and the number `k` of transactions committed. */
  lemma BacklogMinted(c: Storage, block: nat, all: seq<Transaction>, ts: seq<Transaction>, key: TokenKey, k: nat,
                      id: UInt64, x: Address)
    requires Backlog(all, id, ChainOf(c, NO_VIEW, id), x) && !Loads(c.chains.Keys, id) && multiset(ts) == multiset(all)
    requires forall i, j :: 0 <= i < j < |ts| && ts[i].Anchor? && ts[j].Anchor? ==>
      ts[i].atx.chainID < ts[j].atx.chainID ||
      (ts[i].atx.chainID == ts[j].atx.chainID && ts[i].atx.number <= ts[j].atx.number)
    requires Longest(c, NO_VIEW, block, ts, key, k)
    ensures k == |ts| == |all|
  {
    BacklogPlayed(c, block, all, ts, key, id, x);
    PrefixPlayed(c, NO_VIEW, block, ts, key, |ts|);
    LongestIsLongest(c, NO_VIEW, block, ts, key, k, |ts|);
  }

  lemma InSequence(ts: seq<Transaction>, id: UInt64, ch: Chain, x: Address, j: nat)
    requires Backlog(ts, id, ch, x) && j < |ts|
    requires forall i, j :: 0 <= i < j < |ts| && ts[i].Anchor? && ts[j].Anchor? ==>
      ts[i].atx.chainID < ts[j].atx.chainID ||
      (ts[i].atx.chainID == ts[j].atx.chainID && ts[i].atx.number <= ts[j].atx.number)
    ensures ts[j].Anchor? && ts[j].atx.number == First(ch) + j
  {
    forall i, j | 0 <= i < j < |ts| && ts[i].Anchor? && ts[j].Anchor? ensures ts[i].atx.number <= ts[j].atx.number {
      assert Waits(ts[i], id, ch, |ts|, x) && Waits(ts[j], id, ch, |ts|, x);
    }
    AtLeast(ts, id, ch, x, j);
    AtMost(ts, id, ch, x, j);
  }

  /** Nothing but the chain is pending. */
  predicate OnlyChain(v: View, id: UInt64) {
    v.tokens == map[] && v.accounts == map[] && v.chains.Keys == {id}
  }

  lemma {:induction false} AllOnly(c: Storage, block: nat, ts: seq<Transaction>, key: TokenKey, id: UInt64, i: nat)
    requires 0 < i <= |ts| && AppliesTo(c, NO_VIEW, block, ts, key, i)
    requires forall t :: t in ts ==> t.Anchor? && t.atx.chainID == id
    ensures OnlyChain(PlayedTo(c, NO_VIEW, block, ts, key, i), id)
  {
    assert ts[i - 1] in ts;
    if i > 1 { AllOnly(c, block, ts, key, id, i - 1); }
  }

  /** What a mint of such a pool leaves pending. */
  lemma BacklogView(c: Storage, block: nat, all: seq<Transaction>, ts: seq<Transaction>, key: TokenKey, v: View,
                    id: UInt64, x: Address)
    requires Backlog(all, id, ChainOf(c, NO_VIEW, id), x) && !Loads(c.chains.Keys, id) && multiset(ts) == multiset(all)
    requires forall i, j :: 0 <= i < j < |ts| && ts[i].Anchor? && ts[j].Anchor? ==>
      ts[i].atx.chainID < ts[j].atx.chainID ||
      (ts[i].atx.chainID == ts[j].atx.chainID && ts[i].atx.number <= ts[j].atx.number)
    requires all != [] && v == Played(c, NO_VIEW, block, ts, key)
    ensures OnlyChain(v, id) && v.chains[id].end == First(ChainOf(c, NO_VIEW, id)) + |all| - 1
  {
    BacklogPlayed(c, block, all, ts, key, id, x);
    PrefixPlayed(c, NO_VIEW, block, ts, key, |ts|);
    assert ts[..|ts|] == ts;
    forall t | t in ts ensures t.Anchor? && t.atx.chainID == id {
      assert Waits(t, id, ChainOf(c, NO_VIEW, id), |ts|, x);
    }
    AllOnly(c, block, ts, key, id, |ts|);
  }

  /** A mint from a pool that holds only a backlog. It gets through exactly when no tree has the key zero
      and the keys of the trees, with the chain's, do not share sixty bits. All anchors are then in the
      block, the pool is empty and the chain ends with the last of them. */
  method MintBacklog(chain: PlasmaChain, pool: TxPool, ghost was: Head, ghost all: seq<Transaction>,
                     ghost id: UInt64, ghost x: Address)
    returns (crashed: bool)
    requires was == HeadOf(chain) && all == pool.All() && Distinct(all) && all != []
    requires Backlog(all, id, ChainOf(was.c, NO_VIEW, id), x) && !Loads(was.c.chains.Keys, id)
    modifies chain, pool
    ensures !crashed <==> var c := was.c;
      && 0 !in c.tokens && 0 !in c.accounts && 0 !in c.chains
      && Apart(c.tokens.Keys) && Apart(c.accounts.Keys) && Apart(c.chains.Keys + {id})
    ensures crashed ==> HeadOf(chain) == was
    ensures !crashed ==> var c := chain.storage.chains;
      && pool.All() == [] && chain.blockNumber == was.number + 1
      && id in c && c[id].end == First(ChainOf(was.c, NO_VIEW, id)) + |all| - 1
  {
    var minted, ts;
    ghost var k, v, order;
    crashed, minted, ts, k, v, order := MintNewBlock(chain, pool, was, all);
    BacklogDone(was, all, ts, chain.tokenKey, k, v, order, id, x);
  }

  lemma BacklogDone(was: Head, all: seq<Transaction>, ts: seq<Transaction>, key: TokenKey, k: nat, v: View,
                    order: seq<Address>, id: UInt64, x: Address)
    requires Backlog(all, id, ChainOf(was.c, NO_VIEW, id), x) && !Loads(was.c.chains.Keys, id) && all != []
    requires multiset(ts) == multiset(all) && Longest(was.c, NO_VIEW, was.number + 1, ts, key, k)
    requires forall i, j :: 0 <= i < j < |ts| && ts[i].Anchor? && ts[j].Anchor? ==>
      ts[i].atx.chainID < ts[j].atx.chainID ||
      (ts[i].atx.chainID == ts[j].atx.chainID && ts[i].atx.number <= ts[j].atx.number)
    requires v == ViewAfter(was, ts, Used(ts, k), key)
    ensures k == |ts| > 0 && ts[k..] == []
    ensures var c := MintedHead(was, true, v, order).c.chains;
      id in c && c[id].end == First(ChainOf(was.c, NO_VIEW, id)) + |all| - 1
    ensures Flushes(was.c, v) <==> var c := was.c;
      && 0 !in c.tokens && 0 !in c.accounts && 0 !in c.chains
      && Apart(c.tokens.Keys) && Apart(c.accounts.Keys) && Apart(c.chains.Keys + {id})
  {
    BacklogMinted(was.c, was.number + 1, all, ts, key, k, id, x);
    assert ts[..k] == ts;
    BacklogView(was.c, was.number + 1, all, ts, key, v, id, x);
    OnlyFlushes(was.c, v, id);
  }

  lemma OnlyFlushes(c: Storage, v: View, id: UInt64)
    requires OnlyChain(v, id)
    ensures Flushes(c, v) <==>
      && 0 !in c.tokens && 0 !in c.accounts && 0 !in c.chains
      && Apart(c.tokens.Keys) && Apart(c.accounts.Keys) && Apart(c.chains.Keys + {id})
  {
    assert c.tokens.Keys + v.tokens.Keys == c.tokens.Keys && c.accounts.Keys + ShortKeys(v.accounts) == c.accounts.Keys;
  }
}
