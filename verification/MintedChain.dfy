/** The chain that minting builds: every state it reaches is the end of a run of the ledger, so
    what every run keeps, every minted chain keeps. */
module MintedChain {
  import opened Bytes
  import opened Plasma
  import opened Ownership
  import opened Ledger
  import opened Anchoring
  import opened Minting
  import opened Pool
  import opened Apply
  import opened Mint
  import opened Bloom

  /** The run from genesis ends in the chain's stored state, with its blocks, all of which could be
      flushed. */
  ghost predicate Reached(chain: PlasmaChain, es: seq<Event>)
    reads chain
  {
    EndsIn(es, Rules(chain.tokenKey, false), HeadOf(chain))
  }

  ghost predicate EndsIn(es: seq<Event>, r: Rules, now: Head) {
    var l := Run(GENESIS, es, r);
    l.v == NO_VIEW && l.c == now.c && |l.log| == now.number && Logs(l.log, now.blocks) && AllFlush(GENESIS, es, r)
  }

  /** The blocks hold the logged transactions. */
  ghost predicate Logs(log: seq<Block>, blocks: seq<MintedBlock>) {
    |blocks| == |log| && forall b {:trigger LogsAt(log, blocks, b)} :: 0 <= b < |log| ==> LogsAt(log, blocks, b)
  }

  ghost predicate LogsAt(log: seq<Block>, blocks: seq<MintedBlock>, b: nat)
    requires b < |log| && b < |blocks|
  {
    blocks[b] == BlockOf(b + 1, Hashes(log[b]))
  }

  /** A new chain stands at genesis. */
  method NewChain(tokenKey: TokenKey) returns (chain: PlasmaChain)
    ensures fresh(chain) && chain.tokenKey == tokenKey && Reached(chain, [])
  {
    chain := new PlasmaChain(tokenKey);
  }

  /** The run a mint adds. */
  function MintEvents(minted: bool, used: seq<Transaction>, order: seq<Address>): seq<Event> {
    if minted then Events(used) + [Seal(order)] else []
  }

  ghost predicate AllWithin(ts: seq<Transaction>, w: iset<Address>) {
    forall t :: t in ts ==> Within(t, w)
  }

  /** Minting once more, from the head `was` and the pool `all`: the chain still stands where a run
      ends, one block further if a block was minted, and a sound pool stays sound. After a panic the
      chain has not moved and the pool has gained nothing. */
  method MintOn(chain: PlasmaChain, pool: TxPool, ghost es: seq<Event>, ghost was: Head, ghost all: seq<Transaction>)
    returns (crashed: bool, minted: bool, ghost used: seq<Transaction>, ghost v: View, ghost order: seq<Address>)
    requires Reached(chain, es) && was == HeadOf(chain) && all == pool.All() && Distinct(all)
    modifies chain, pool
    ensures Reached(chain, es + MintEvents(minted, used, order)) && (crashed ==> !minted)
    ensures chain.blockNumber == was.number + if minted then 1 else 0
    ensures multiset(used) <= multiset(all) && multiset(pool.All()) <= multiset(all)
    ensures !crashed ==> multiset(used) + multiset(pool.All()) == multiset(all)
    ensures AllNamed(all, chain.tokenKey) ==> pool.Sound(chain.tokenKey)
    ensures v == Played(was.c, NO_VIEW, was.number + 1, used, chain.tokenKey) && (minted ==> Orders(order, v.accounts))
  {
    var ts;
    ghost var k;
    crashed, minted, ts, k, v, order := MintNewBlock(chain, pool, was, all);
    used := Spent(ts, k, StopsAt(was.c, NO_VIEW, was.number + 1, ts, chain.tokenKey, k), crashed);
    EndsOn(es, Rules(chain.tokenKey, false), was, minted, used, v, order);
  }

  /** The transactions a mint has tried, and what it leaves. */
  lemma Spent(ts: seq<Transaction>, k: nat, stopped: bool, crashed: bool) returns (used: seq<Transaction>)
    requires k <= |ts|
    ensures used == ts[..Minting.Used(ts, k)]
    ensures var left := Left(ts, k, stopped, crashed);
      && multiset(used) <= multiset(ts) && multiset(left) <= multiset(ts)
      && (!stopped && !crashed ==> multiset(used) + multiset(left) == multiset(ts))
  {
    var n := Minting.Used(ts, k);
    used := ts[..n];
    assert ts == used + ts[n..];
    assert ts[..n] == ts[..k] + ts[k..n];
  }

  /** The run goes on with a block of transactions. */
  lemma EndsOn(es: seq<Event>, r: Rules, was: Head, minted: bool, ts: seq<Transaction>, v: View, order: seq<Address>)
    requires EndsIn(es, r, was) && !r.byValue && v == Played(was.c, NO_VIEW, was.number + 1, ts, r.key)
    requires minted ==> Orders(order, v.accounts) && Flushes(was.c, v)
    ensures EndsIn(es + MintEvents(minted, ts, order), r, MintedHead(was, minted, v, order))
  {
    if minted {
      var l := Run(GENESIS, es, r);
      RunTracked(es, r);
      MintIsRun(l, ts, r.key, order);
      MintFlushes(l, ts, r.key, order);
      RunConcat(GENESIS, es, Events(ts) + [Seal(order)], r);
      FlushConcat(GENESIS, es, Events(ts) + [Seal(order)], r);
      LogsOn(l.log, Run(l, Events(ts) + [Seal(order)], r).log, was.blocks, MintedHead(was, minted, v, order).blocks);
    } else {
      assert es + [] == es;
    }
  }

  lemma LogsOn(log: seq<Block>, log': seq<Block>, blocks: seq<MintedBlock>, blocks': seq<MintedBlock>)
    requires Logs(log, blocks) && |log'| == |log| + 1 && log'[..|log|] == log
    requires blocks' == blocks + [BlockOf(|log| + 1, Hashes(log'[|log|]))]
    ensures Logs(log', blocks')
  {
    forall b | 0 <= b < |log'| ensures LogsAt(log', blocks', b) {
      if b < |log| {
        LogsNext(log, log', blocks, blocks', b);
      }
    }
  }

  lemma LogsNext(log: seq<Block>, log': seq<Block>, blocks: seq<MintedBlock>, blocks': seq<MintedBlock>, b: nat)
    requires b < |log| <= |log'| && b < |blocks| <= |blocks'| && log'[..|log|] == log && blocks'[..|blocks|] == blocks
    requires LogsAt(log, blocks, b)
    ensures LogsAt(log', blocks', b)
  {
    assert log'[..|log|][b] == log[b] && blocks'[..|blocks|][b] == blocks[b];
  }

  /** It is clean if its transactions are named right and go to addresses of `w`. */
  lemma CleanOn(es: seq<Event>, ts: seq<Transaction>, r: Rules, order: seq<Address>, w: iset<Address>)
    requires Clean(false, w, GENESIS, es, r) && Run(GENESIS, es, r).v == NO_VIEW && !r.byValue
    requires AllNamed(ts, r.key) && AllWithin(ts, w)
    requires var l := Run(GENESIS, es, r); Orders(order, Played(l.c, NO_VIEW, |l.log| + 1, ts, r.key).accounts)
    ensures Clean(false, w, GENESIS, es + (Events(ts) + [Seal(order)]), r)
  {
    var l := Run(GENESIS, es, r);
    EventsClean(w, l, ts, r);
    PlayedIsRun(l, ts, r.key);
    assert (Events(ts) + [Seal(order)])[..|Events(ts)|] == Events(ts);
    CleanConcat(false, w, GENESIS, es, Events(ts) + [Seal(order)], r);
  }

  // ----- A node from its start -----

  /** What reaches a node: transactions sent in with their recovered signers, deposits seen on the
      root chain, anchors, and the call to mint. */
  datatype Input =
    | Send(tx: Tx, signer: Option<Address>)
    | Deposit(depositIndex: UInt64, denomination: UInt64, depositor: Address, hash: nat)
    | SendAnchor(atx: AnchorTx)
    | MintNow

  /** The transaction came in with some input. */
  predicate From(t: Transaction, i: Input) {
    match i
    case Send(tx, _) => t.Transfer? && t.tx.hash == tx.hash && t.tx.recipient == tx.recipient
    case Deposit(_, _, depositor, hash) => t.Transfer? && t.tx.hash == hash && t.tx.recipient == depositor
    case SendAnchor(atx) => t == Anchor(atx)
    case MintNow => false
  }

  ghost predicate CameIn(t: Transaction, inputs: seq<Input>) {
    exists i :: i in inputs && From(t, i)
  }

  ghost predicate AllCameIn(ts: seq<Transaction>, inputs: seq<Input>) {
    forall t :: t in ts ==> CameIn(t, inputs)
  }

  /** No transfer and no anchor have one hash. */
  ghost predicate HashesApart(inputs: seq<Input>) {
    forall t, u :: CameIn(t, inputs) && CameIn(u, inputs) && t.Transfer? && u.Anchor? ==> HashOf(t) != HashOf(u)
  }

  ghost predicate InputsWithin(inputs: seq<Input>, w: iset<Address>) {
    forall t :: CameIn(t, inputs) ==> Within(t, w)
  }

  /** The addresses cover the recipients and differ in their last eight bytes. */
  ghost predicate Covers(w: iset<Address>, inputs: seq<Input>) {
    InputsWithin(inputs, w) && ShortInjective(w)
  }

  /** From an empty chain and an empty pool, whatever comes in, up to a panic if there is one: the
      chain stands where a run of the ledger ends that rejects nothing late, and the pool is sound. Take
      any addresses that cover the recipients and differ in their last eight bytes. Ownership and sums
      hold all along exactly when every block stored each account that lists a token so that it can be
      read. The sums are exact if no transfer raised a balance and no address ends in zeros. */
  method Operate(inputs: seq<Input>, operator: Address, key: TokenKey)
    returns (crashed: bool, chain: PlasmaChain, pool: TxPool, ghost es: seq<Event>)
    requires HashesApart(inputs)
    ensures chain.tokenKey == key && Reached(chain, es) && pool.Sound(key)
    ensures forall w :: InputsWithin(inputs, w) ==> Clean(false, w, GENESIS, es, Rules(key, false))
    ensures forall w :: Covers(w, inputs) ==>
      (AlwaysOwned(false, w, es, Rules(key, false)) <==> Stores(GENESIS, es, Rules(key, false)))
    ensures NoneRaised(GENESIS, es, Rules(key, false)) ==>
      forall w :: Covers(w, inputs) && NonZero(w) ==> Owned(true, w, Run(GENESIS, es, Rules(key, false)))
  {
    crashed := false;
    chain := NewChain(key);
    pool := new TxPool();
    es := [];
    for i := 0 to |inputs|
      invariant fresh(chain) && fresh(pool) && chain.tokenKey == key
      invariant Reached(chain, es) && pool.Sound(key) && AllCameIn(pool.All(), inputs)
      invariant forall w :: InputsWithin(inputs, w) ==> Clean(false, w, GENESIS, es, Rules(key, false))
    {
      if inputs[i].MintNow? {
        crashed, es := MintOnce(chain, pool, inputs, es);
        if crashed { break; }
      } else {
        Receive(pool, inputs, i, operator, key);
      }
    }
    AllOwned(inputs, es, Rules(key, false));
  }

  /** What clean runs keep. */
  lemma AllOwned(inputs: seq<Input>, es: seq<Event>, r: Rules)
    requires forall w :: InputsWithin(inputs, w) ==> Clean(false, w, GENESIS, es, r)
    ensures forall w :: Covers(w, inputs) ==> (AlwaysOwned(false, w, es, r) <==> Stores(GENESIS, es, r))
    ensures NoneRaised(GENESIS, es, r) ==>
      forall w :: Covers(w, inputs) && NonZero(w) ==> Owned(true, w, Run(GENESIS, es, r))
  {
    forall w | Covers(w, inputs)
      ensures AlwaysOwned(false, w, es, r) <==> Stores(GENESIS, es, r)
    {
      CleanFits(false, w, GENESIS, es, r);
      RunOwnedIff(false, w, es, r);
    }
    forall w | Covers(w, inputs) && NonZero(w) && NoneRaised(GENESIS, es, r)
      ensures Owned(true, w, Run(GENESIS, es, r))
    {
      CleanExact(w, GENESIS, es, r);
      RunExact(w, es, r);
    }
  }

  method MintOnce(chain: PlasmaChain, pool: TxPool, inputs: seq<Input>, ghost es: seq<Event>)
    returns (crashed: bool, ghost es': seq<Event>)
    requires Reached(chain, es) && pool.Sound(chain.tokenKey) && AllCameIn(pool.All(), inputs)
    modifies chain, pool
    ensures Reached(chain, es') && pool.Sound(chain.tokenKey) && AllCameIn(pool.All(), inputs)
    ensures forall w :: InputsWithin(inputs, w) && Clean(false, w, GENESIS, es, Rules(chain.tokenKey, false)) ==>
      Clean(false, w, GENESIS, es', Rules(chain.tokenKey, false))
  {
    ghost var all, r := pool.All(), Rules(chain.tokenKey, false);
    var minted;
    ghost var used, v, order;
    crashed, minted, used, v, order := MintOn(chain, pool, es, HeadOf(chain), all);
    es' := es + MintEvents(minted, used, order);
    Parted(all, used, pool.All(), inputs, r.key);
    forall w | InputsWithin(inputs, w) && Clean(false, w, GENESIS, es, r) ensures Clean(false, w, GENESIS, es', r) {
      if minted { CleanOn(es, used, r, order, w); } else { assert es' == es; }
    }
  }

  lemma Parted(all: seq<Transaction>, used: seq<Transaction>, rest: seq<Transaction>, inputs: seq<Input>, key: TokenKey)
    requires multiset(used) <= multiset(all) && multiset(rest) <= multiset(all)
    requires AllNamed(all, key) && AllCameIn(all, inputs)
    ensures AllNamed(used, key) && AllCameIn(used, inputs) && AllCameIn(rest, inputs)
  {
    forall t | t in used ensures NamedAny(t, key) && CameIn(t, inputs) {
      assert t in multiset(used) && t in multiset(all);
    }
    forall t | t in rest ensures CameIn(t, inputs) {
      assert t in multiset(rest) && t in multiset(all);
    }
  }

  /** What comes in goes through the checks into the pool. */
  method Receive(pool: TxPool, inputs: seq<Input>, i: nat, operator: Address, key: TokenKey)
    requires i < |inputs| && HashesApart(inputs) && pool.Sound(key) && AllCameIn(pool.All(), inputs)
    modifies pool
    ensures pool.Sound(key) && AllCameIn(pool.All(), inputs)
  {
    ghost var a, b := pool.txpool, pool.wtxpool;
    NoShared(a, b, inputs, inputs[i]);
    match inputs[i]
    case Send(tx, signer) =>
      var ok := SendPlasmaTransaction(pool, tx, signer, operator, key);
      if pool.txpool != a {
        assert From(Transfer(pool.txpool[|a|]), inputs[i]);
        Joined(a, b, inputs, pool.txpool[|a|]);
      }
    case Deposit(depositIndex, denomination, depositor, hash) =>
      ProcessDeposit(pool, depositIndex, denomination, depositor, operator, key, hash);
      Joined(a, b, inputs, Tx(key(depositIndex, denomination, depositor), denomination, depositIndex, 0, operator,
                              depositor, 0, 0, denomination, hash));
    case SendAnchor(atx) =>
      pool.AddAnchorTransaction(atx, key);
      JoinedAnchor(a, b, inputs, atx);
    case MintNow =>
  }

  /** No anchor of the pool has the hash of a transfer that comes in, and conversely. */
  lemma NoShared(a: seq<Tx>, b: seq<AnchorTx>, inputs: seq<Input>, i: Input)
    requires i in inputs && HashesApart(inputs) && AllCameIn(Transfers(a) + Anchors(b), inputs)
    ensures i.Send? ==> i.tx.hash !in AnchorHashes(b)
    ensures i.Deposit? ==> i.hash !in AnchorHashes(b)
    ensures i.SendAnchor? ==> i.atx.hash !in TxHashes(a)
  {
    var ts := Transfers(a) + Anchors(b);
    forall x | x in b ensures CameIn(Anchor(x), inputs) {
      var j :| 0 <= j < |b| && b[j] == x;
      assert ts[|a| + j] == Anchor(x);
    }
    forall x | x in a ensures CameIn(Transfer(x), inputs) {
      var j :| 0 <= j < |a| && a[j] == x;
      assert ts[j] == Transfer(x);
    }
    match i
    case Send(tx, _) => assert From(Transfer(tx), i) && CameIn(Transfer(tx), inputs);
    case Deposit(x, d, depositor, hash) =>
      var tx := Tx(0, d, x, 0, 0, depositor, 0, 0, d, hash);
      assert From(Transfer(tx), i) && CameIn(Transfer(tx), inputs);
    case SendAnchor(atx) => assert From(Anchor(atx), i) && CameIn(Anchor(atx), inputs);
    case MintNow =>
  }

  lemma Joined(a: seq<Tx>, b: seq<AnchorTx>, inputs: seq<Input>, tx: Tx)
    requires AllCameIn(Transfers(a) + Anchors(b), inputs) && CameIn(Transfer(tx), inputs)
    ensures AllCameIn(Transfers(a + [tx]) + Anchors(b), inputs)
  {
    var ts := Transfers(a) + Anchors(b);
    forall t | t in Transfers(a + [tx]) + Anchors(b) ensures CameIn(t, inputs) {
      assert t in ts || t == Transfer(tx);
    }
  }

  lemma JoinedAnchor(a: seq<Tx>, b: seq<AnchorTx>, inputs: seq<Input>, atx: AnchorTx)
    requires AllCameIn(Transfers(a) + Anchors(b), inputs) && CameIn(Anchor(atx), inputs)
    ensures AllCameIn(Transfers(a) + Anchors(b + [atx]), inputs)
  {
    var ts := Transfers(a) + Anchors(b);
    forall t | t in Transfers(a) + Anchors(b + [atx]) ensures CameIn(t, inputs) {
      assert t in ts || t == Anchor(atx);
    }
  }

  // ----- What every minted chain keeps -----

  /** Block `b` holds a transaction of the token. */
  predicate Transacts(blocks: seq<MintedBlock>, id: UInt64, b: nat) {
    1 <= b <= |blocks| && id in blocks[b - 1].transactions
  }

  lemma BlocksHeld(log: seq<Block>, blocks: seq<MintedBlock>, id: UInt64)
    requires Logs(log, blocks)
    ensures forall b :: b in BlocksOf(log, id) <==> Transacts(blocks, id, b)
  {
    BlocksOfExact(log, id);
    forall b: nat ensures b in BlocksOf(log, id) <==> Transacts(blocks, id, b) {
      if 1 <= b <= |log| { assert LogsAt(log, blocks, b - 1); }
    }
  }

  /** A token is stored exactly when some block holds a transaction of it, and following previous
      blocks from it visits those blocks and no others, latest first. */
  ghost predicate Traced(log: seq<Block>, c: Storage, blocks: seq<MintedBlock>, id: UInt64) {
    && Chained(log)
    && (forall b :: b in BlocksOf(log, id) <==> Transacts(blocks, id, b))
    && (id in c.tokens <==> exists b :: b in BlocksOf(log, id))
    && (id in c.tokens ==>
          var b := c.tokens[id].prevBlock;
          1 <= b <= |log| && id in log[b - 1] && Trace(log, id, b) == BlocksOf(log, id))
  }

  /** So it is in every minted chain. */
  lemma MintedHistory(chain: PlasmaChain, es: seq<Event>, id: UInt64)
    requires Reached(chain, es)
    ensures Traced(Run(GENESIS, es, Rules(chain.tokenKey, false)).log, chain.storage, chain.blocks, id)
  {
    HistoryOf(es, Rules(chain.tokenKey, false), HeadOf(chain), id);
  }

  lemma HistoryOf(es: seq<Event>, r: Rules, now: Head, id: UInt64)
    requires EndsIn(es, r, now)
    ensures Traced(Run(GENESIS, es, r).log, now.c, now.blocks, id)
  {
    BlocksHeld(Run(GENESIS, es, r).log, now.blocks, id);
    TokenHistory(es, r, id);
  }

  /** In every minted chain the bloom filter of a block misses none of the block's tokens, and holds
      exactly the positions of those. */
  lemma MintedBloom(chain: PlasmaChain, es: seq<Event>, b: nat, n: nat)
    requires Reached(chain, es) && b < |chain.blocks| && chain.blocks[b].transactions != map[] && n < 8 * CHUNK
    ensures |chain.blocks[b].bloom| == CHUNK
    ensures BitOf(chain.blocks[b].bloom, n) <==> exists id :: id in chain.blocks[b].transactions && Position(id, n)
  {
    var log := Run(GENESIS, es, Rules(chain.tokenKey, false)).log;
    assert LogsAt(log, chain.blocks, b);
    SetChunkBit(chain.blocks[b].transactions.Keys, n);
  }

  /** In every minted chain the anchors of a stored chain are numbered from 0 to its end block
      without gap or repeat, and it has an owner and none twice. */
  lemma MintedAnchored(chain: PlasmaChain, es: seq<Event>, id: UInt64)
    requires Reached(chain, es)
    ensures var s := AllAnchors(Run(GENESIS, es, Rules(chain.tokenKey, false)).anchorLog, id);
      && InOrder(s) && (id in chain.storage.chains <==> s != [])
      && (id in chain.storage.chains ==>
            OwnersOk(chain.storage.chains[id].owners) && chain.storage.chains[id].end == |s| - 1)
  {
    var r := Rules(chain.tokenKey, false);
    RunAnchored(es, r);
    assert StoredChain(Run(GENESIS, es, r), id);
  }

  /** In every minted chain no two keys of a tree share sixty bits. */
  lemma MintedApart(chain: PlasmaChain, es: seq<Event>)
    requires Reached(chain, es)
    ensures AllApart(chain.storage)
  {
    RunApart(es, Rules(chain.tokenKey, false));
  }

  /** In every chain minted from sound pools whose blocks stored their accounts, with addresses that
      differ in their last eight bytes, a stored token can be read in the stored list of its owner,
      once, and in no other list. */
  lemma MintedOwned(chain: PlasmaChain, es: seq<Event>, w: iset<Address>, id: UInt64, a: Address)
    requires Reached(chain, es) && Clean(false, w, GENESIS, es, Rules(chain.tokenKey, false)) && ShortInjective(w)
    requires Stores(GENESIS, es, Rules(chain.tokenKey, false)) && id in chain.storage.tokens && a in w
    ensures chain.storage.tokens[id].owner in w
    ensures var held := StoredAccount(chain.storage, a).tokens;
      (id in held <==> a == chain.storage.tokens[id].owner) && multiset(held)[id] == if id in held then 1 else 0
  {
    RunOwned(false, w, es, Rules(chain.tokenKey, false));
    var c := chain.storage;
    assert Tokens(c, NO_VIEW) == c.tokens && OwnerLists(w, c, NO_VIEW, id);
    ExactlyOnce(false, w, c, NO_VIEW, id, a);
    if id in StoredAccount(c, a).tokens { assert AccountOf(c, NO_VIEW, a) == StoredAccount(c, a); }
  }

  /** A token once stored in a minted chain stays, keeps its denomination, and is never less spent
      in any chain minted on. */
  lemma MintedConserved(es: seq<Event>, es': seq<Event>, r: Rules, id: UInt64)
    requires es <= es' && id in Run(GENESIS, es, r).c.tokens
    ensures var c, c' := Run(GENESIS, es, r).c, Run(GENESIS, es', r).c;
      id in c'.tokens && Follows(c.tokens[id], c'.tokens[id])
  {
    assert es' == es + es'[|es|..];
    RunConcat(GENESIS, es, es'[|es|..], r);
    Conserved(es, es'[|es|..], r, id);
  }
}
