/** The minter: trying the pool's transactions on a state, one snapshot each. */
module Mint {
  import opened Bytes
  import opened Plasma
  import opened Journal
  import opened State
  import opened Bloom
  import opened Apply
  import opened Minting
  import opened Pool

  /** Applies one transaction; `c`, `v` and `block` name the state before it. */
  method ApplyTransaction(chain: PlasmaChain, s: StateDB, t: Transaction, ghost c: Storage, ghost v: View,
                          ghost block: nat)
    returns (r: Outcome, ghost now: View)
    requires s.Valid() && c == s.storage && v == s.Pending() && block == chain.blockNumber + 1
    modifies s`journal, s`tokenObjects, s`tokenIsSet, s`thashList, s`accountObjects, s`accounts, s.accounts`acct
    modifies s`chainObjects, s`chainIsSet, s`atxList, s`chains, s.chains`anb
    ensures s.Valid() && old(s.journal) <= s.journal
    ensures fresh(s.accounts - old(s.accounts)) && fresh(s.chains - old(s.chains))
    ensures (r == Applied <==> Accepts(c, v, t, chain.tokenKey)) && (r == Panicked <==> Crashes(c, v, t))
    ensures now == TriedAny(c, v, block, t, chain.tokenKey)
    ensures if r == Applied then s.Pending() == now else s.Undone(|old(s.journal)|) == now
  {
    now := TriedAny(c, v, block, t, chain.tokenKey);
    match t
    case Transfer(tx) => r := chain.ApplyPlasmaTransaction(s, tx, c, v, now);
    case Anchor(atx) => r := chain.ApplyAnchorTransaction(s, atx, c, v, now);
  }

  lemma NamedUndone(c: Storage, v: View, block: nat, t: Transaction, key: TokenKey)
    ensures !Accepts(c, v, t, key) && NamedAny(t, key) ==> TriedAny(c, v, block, t, key) == v
  {
    if !Accepts(c, v, t, key) && NamedAny(t, key) { RejectedNamed(c, v, block, t, key); }
  }

  /** Tries one transaction on its own snapshot and undoes it if it is rejected. */
  method CommitTransaction(chain: PlasmaChain, s: StateDB, t: Transaction, ghost c: Storage, ghost v: View,
                           ghost block: nat)
    returns (r: Outcome, ghost now: View)
    requires s.Valid() && c == s.storage && v == s.Pending() && block == chain.blockNumber + 1
    modifies s`journal, s`tokenObjects, s`tokenIsSet, s`thashList, s`accountObjects, s`accounts, s.accounts`acct
    modifies s`chainObjects, s`chainIsSet, s`atxList, s`chains, s.chains`anb, s`validRevisions, s`nextRevisionId
    ensures s.Valid() && fresh(s.accounts - old(s.accounts)) && fresh(s.chains - old(s.chains))
    ensures (r == Applied <==> Accepts(c, v, t, chain.tokenKey)) && (r == Panicked <==> Crashes(c, v, t))
    ensures now == TriedAny(c, v, block, t, chain.tokenKey) && (r != Panicked ==> s.Pending() == now)
    ensures r == Rejected ==> s.journal == old(s.journal) && s.validRevisions == old(s.validRevisions)
    ensures r == Rejected && NamedAny(t, chain.tokenKey) ==> now == v
  {
    NamedUndone(c, v, block, t, chain.tokenKey);
    var snapshot := s.Snapshot();
    r, now := OnSnapshot(chain, s, t, c, v, block, snapshot, |s.journal|);
  }

  method OnSnapshot(chain: PlasmaChain, s: StateDB, t: Transaction, ghost c: Storage, ghost v: View, ghost block: nat,
                    snapshot: int, ghost mark: nat)
    returns (r: Outcome, ghost now: View)
    requires s.Valid() && c == s.storage && v == s.Pending() && block == chain.blockNumber + 1 && mark == |s.journal|
    requires s.validRevisions != [] && s.validRevisions[|s.validRevisions| - 1] == Revision(snapshot, mark)
    modifies s`journal, s`tokenObjects, s`tokenIsSet, s`thashList, s`accountObjects, s`accounts, s.accounts`acct
    modifies s`chainObjects, s`chainIsSet, s`atxList, s`chains, s.chains`anb, s`validRevisions
    ensures s.Valid() && fresh(s.accounts - old(s.accounts)) && fresh(s.chains - old(s.chains))
    ensures (r == Applied <==> Accepts(c, v, t, chain.tokenKey)) && (r == Panicked <==> Crashes(c, v, t))
    ensures now == TriedAny(c, v, block, t, chain.tokenKey) && (r != Panicked ==> s.Pending() == now)
    ensures r == Rejected ==>
      s.journal == old(s.journal) && s.validRevisions == old(s.validRevisions[..|s.validRevisions| - 1])
  {
    r, now := ApplyTransaction(chain, s, t, c, v, block);
    if r == Rejected { RevertLast(s, snapshot, mark); }
  }

  /** Reverting to the latest snapshot. */
  method RevertLast(s: StateDB, snapshot: int, ghost mark: nat)
    requires s.Valid() && s.validRevisions != [] && s.validRevisions[|s.validRevisions| - 1] == Revision(snapshot, mark)
    modifies s`journal, s`validRevisions, s`accounts, s`chains, s.accounts`acct, s.chains`anb
    ensures s.Valid() && fresh(s.accounts - old(s.accounts)) && fresh(s.chains - old(s.chains))
    ensures s.Pending() == old(s.Undone(mark)) && s.journal == old(s.journal[..mark])
    ensures s.validRevisions == old(s.validRevisions[..|s.validRevisions| - 1])
  {
    var ok, k := s.RevertToSnapshot(snapshot);
    assert ok && k == |old(s.validRevisions)| - 1;
  }

  /** What trying `ts` has led to: `i` transactions committed and, once one has failed, that one
      tried and taken out of the pool. */
  ghost predicate Progress(c: Storage, v: View, block: nat, ts: seq<Transaction>, key: TokenKey,
                           i: nat, failed: bool, now: View, pool: seq<Transaction>)
  {
    && i <= |ts| && AppliesTo(c, v, block, ts, key, i)
    && var p := PlayedTo(c, v, block, ts, key, i);
       if failed then i < |ts| && !Accepts(c, p, ts[i], key) && !Crashes(c, p, ts[i])
                      && now == TriedAny(c, p, block, ts[i], key) && pool == CutAt(ts, i)
       else now == p && pool == ts
  }

  lemma OneCommitted(c: Storage, v: View, block: nat, ts: seq<Transaction>, key: TokenKey, i: nat, failed: bool,
                  now: View, pool: seq<Transaction>)
    requires Progress(c, v, block, ts, key, i, failed, now, pool) && i < |ts| && Accepts(c, now, ts[i], key)
    ensures !failed && Progress(c, v, block, ts, key, i + 1, false, TriedAny(c, now, block, ts[i], key), pool)
  {
    if failed { RetrySame(c, PlayedTo(c, v, block, ts, key, i), block, ts[i], key); }
  }

  lemma OneFailed(c: Storage, v: View, block: nat, ts: seq<Transaction>, key: TokenKey, i: nat, failed: bool,
               now: View, pool: seq<Transaction>, pool': seq<Transaction>)
    requires Progress(c, v, block, ts, key, i, failed, now, pool) && i < |ts| && !Accepts(c, now, ts[i], key)
    requires !Crashes(c, now, ts[i])
    requires pool' == if failed then pool else CutAt(ts, i)
    ensures Progress(c, v, block, ts, key, i, true, TriedAny(c, now, block, ts[i], key), pool')
  {
    if failed { RetrySame(c, PlayedTo(c, v, block, ts, key, i), block, ts[i], key); }
  }

  /** Removing a transaction from a pool with distinct hashes. */
  method Remove(pool: TxPool, ghost ts: seq<Transaction>, t: Transaction, ghost i: nat, ghost gone: bool)
    returns (ok: bool)
    requires Distinct(ts) && i < |ts| && ts[i] == t && pool.All() == if gone then CutAt(ts, i) else ts
    modifies pool
    ensures pool.All() == CutAt(ts, i) && ok == !gone
  {
    ghost var k;
    ok, k := pool.RemoveTransaction(HashOf(t));
    if !gone {
      assert ok && k == i;
    } else {
      assert !ok;
    }
  }

  /** One turn of the loop. */
  method Attempt(chain: PlasmaChain, pool: TxPool, s: StateDB, ts: seq<Transaction>, i: nat, ghost failed: bool,
                 ghost c: Storage, ghost v: View, ghost block: nat, ghost now: View, ghost left: seq<Transaction>)
    returns (r: Outcome, ghost now': View, ghost left': seq<Transaction>)
    requires s.Valid() && c == s.storage && block == chain.blockNumber + 1 && i < |ts| && Distinct(ts)
    requires now == s.Pending() && left == pool.All() && Progress(c, v, block, ts, chain.tokenKey, i, failed, now, left)
    modifies pool, s`journal, s`tokenObjects, s`tokenIsSet, s`thashList, s`accountObjects, s`accounts, s.accounts`acct
    modifies s`chainObjects, s`chainIsSet, s`atxList, s`chains, s.chains`anb, s`validRevisions, s`nextRevisionId
    ensures s.Valid() && fresh(s.accounts - old(s.accounts)) && fresh(s.chains - old(s.chains))
    ensures pool.All() == left' && (failed ==> r == Rejected)
    ensures if r == Panicked then Crashes(c, now', ts[i]) else s.Pending() == now'
    ensures Progress(c, v, block, ts, chain.tokenKey, if r == Applied then i + 1 else i, r == Rejected, now', left')
  {
    left' := left;
    r, now' := CommitTransaction(chain, s, ts[i], c, now, block);
    OneTried(c, v, block, ts, chain.tokenKey, i, failed, now, left, r, now');
    if r == Rejected {
      RemoveFrom(pool, s, ts, i, failed, now');
      left' := CutAt(ts, i);
    }
  }

  /** Takes a rejected transaction out of the pool, which leaves the state alone. */
  method RemoveFrom(pool: TxPool, s: StateDB, ts: seq<Transaction>, i: nat, ghost failed: bool, ghost now: View)
    requires Distinct(ts) && i < |ts| && pool.All() == (if failed then CutAt(ts, i) else ts) && s.Pending() == now
    modifies pool
    ensures pool.All() == CutAt(ts, i) && s.Pending() == now
  {
    var removed := Remove(pool, ts, ts[i], i, failed);
  }

  lemma OneTried(c: Storage, v: View, block: nat, ts: seq<Transaction>, key: TokenKey, i: nat, failed: bool,
                 now: View, left: seq<Transaction>, r: Outcome, now': View)
    requires i < |ts| && Progress(c, v, block, ts, key, i, failed, now, left)
    requires (r == Applied <==> Accepts(c, now, ts[i], key)) && (r == Panicked <==> Crashes(c, now, ts[i]))
    requires now' == TriedAny(c, now, block, ts[i], key)
    ensures Progress(c, v, block, ts, key, if r == Applied then i + 1 else i, r == Rejected, now',
                     if r == Rejected then CutAt(ts, i) else left)
    ensures (failed ==> r == Rejected) && (r == Panicked ==> Crashes(c, now', ts[i]))
  {
    if failed { StillRejected(c, v, block, ts, key, i, now, left); }
    match r
    case Applied => OneCommitted(c, v, block, ts, key, i, failed, now, left);
    case Rejected => OneFailed(c, v, block, ts, key, i, failed, now, left, CutAt(ts, i));
    case Panicked => CrashRejects(c, now, ts[i], block, key);
  }

  lemma StillRejected(c: Storage, v: View, block: nat, ts: seq<Transaction>, key: TokenKey, i: nat, now: View,
                      pool: seq<Transaction>)
    requires i < |ts| && Progress(c, v, block, ts, key, i, true, now, pool)
    ensures !Accepts(c, now, ts[i], key) && !Crashes(c, now, ts[i])
  {
    RetrySame(c, PlayedTo(c, v, block, ts, key, i), block, ts[i], key);
  }

  /** Where the commit loop stands: at transaction `i`, with `n` as the count to reach. */
  ghost predicate Standing(c: Storage, v: View, block: nat, ts: seq<Transaction>, key: TokenKey, i: int, n: int,
                           committed: seq<Transaction>, crashed: bool, now: View, left: seq<Transaction>)
  {
    && 0 <= i <= n <= |ts| && committed == ts[..i] && Progress(c, v, block, ts, key, i, n < |ts|, now, left)
    && (crashed ==> i < n == |ts| && Crashes(c, now, ts[i]))
  }

  /** A turn with its counters: a rejection goes back by one and lowers the count. */
  method Turn(chain: PlasmaChain, pool: TxPool, s: StateDB, ts: seq<Transaction>, i: int, n: int,
              committed: seq<Transaction>, ghost c: Storage, ghost v: View, ghost block: nat, ghost now: View,
              ghost left: seq<Transaction>)
    returns (crashed: bool, i': int, n': int, committed': seq<Transaction>, ghost now': View,
             ghost left': seq<Transaction>)
    requires s.Valid() && c == s.storage && block == chain.blockNumber + 1 && i < n && Distinct(ts)
    requires now == s.Pending() && left == pool.All()
    requires Standing(c, v, block, ts, chain.tokenKey, i, n, committed, false, now, left)
    modifies pool, s`journal, s`tokenObjects, s`tokenIsSet, s`thashList, s`accountObjects, s`accounts, s.accounts`acct
    modifies s`chainObjects, s`chainIsSet, s`atxList, s`chains, s.chains`anb, s`validRevisions, s`nextRevisionId
    ensures s.Valid() && fresh(s.accounts - old(s.accounts)) && fresh(s.chains - old(s.chains))
    ensures pool.All() == left' && (!crashed ==> s.Pending() == now')
    ensures Standing(c, v, block, ts, chain.tokenKey, i', n', committed', crashed, now', left')
    ensures crashed || n' - i' < n - i
  {
    var r;
    r, now', left' := Attempt(chain, pool, s, ts, i, n < |ts|, c, v, block, now, left);
    i', n', committed' := i, n, committed;
    crashed := r == Panicked;
    if r == Rejected {
      i', n' := i' - 1, n' - 1;
    } else if r == Applied {
      PrefixNext(ts, i);
      committed' := committed + [ts[i]];
    }
    if !crashed { i' := i' + 1; }
  }

  /** The commit loop. A rejected transaction is tried again until the count runs out, so the
      transactions committed are the longest prefix that applies. A panic ends it at once. */
  method CommitTransactions(chain: PlasmaChain, pool: TxPool, s: StateDB, ts: seq<Transaction>, ghost c: Storage,
                            ghost v: View, ghost block: nat)
    returns (crashed: bool, committed: seq<Transaction>, ghost k: nat, ghost now: View, ghost left: seq<Transaction>)
    requires s.Valid() && c == s.storage && v == s.Pending() && block == chain.blockNumber + 1
    requires pool.All() == ts && Distinct(ts)
    modifies pool, s`journal, s`tokenObjects, s`tokenIsSet, s`thashList, s`accountObjects, s`accounts, s.accounts`acct
    modifies s`chainObjects, s`chainIsSet, s`atxList, s`chains, s.chains`anb, s`validRevisions, s`nextRevisionId
    ensures s.Valid() && fresh(s.accounts - old(s.accounts)) && fresh(s.chains - old(s.chains))
    ensures k <= |ts| && committed == ts[..k] && pool.All() == left
    ensures Progress(c, v, block, ts, chain.tokenKey, k, !crashed && k < |ts|, now, left)
    ensures if crashed then k < |ts| && Crashes(c, now, ts[k]) else s.Pending() == now
  {
    crashed, committed := false, [];
    var numtxns, i := |ts|, 0;
    now, left := v, ts;
    while i < numtxns && !crashed
      invariant s.Valid() && fresh(s.accounts - old(s.accounts)) && fresh(s.chains - old(s.chains))
      invariant pool.All() == left && (!crashed ==> s.Pending() == now)
      invariant Standing(c, v, block, ts, chain.tokenKey, i, numtxns, committed, crashed, now, left)
      decreases !crashed, numtxns - i
    {
      crashed, i, numtxns, committed, now, left :=
        Turn(chain, pool, s, ts, i, numtxns, committed, c, v, block, now, left);
    }
    k := i;
  }

  /** Takes the committed transactions out of the pool, one by one. */
  method RemoveCommitted(pool: TxPool, committed: seq<Transaction>, ghost rest: seq<Transaction>)
    requires pool.All() == committed + rest
    modifies pool
    ensures pool.All() == rest
  {
    for i := 0 to |committed|
      invariant pool.All() == committed[i..] + rest
    {
      assert committed[i..] + rest == [committed[i]] + (committed[i + 1..] + rest);
      RemoveFirst(pool, committed[i], committed[i + 1..] + rest);
    }
    assert committed[|committed|..] + rest == rest;
  }

  method RemoveFirst(pool: TxPool, t: Transaction, ghost rest: seq<Transaction>)
    requires pool.All() == [t] + rest
    modifies pool
    ensures pool.All() == rest
  {
    var ok, k := pool.RemoveTransaction(HashOf(t));
    assert ([t] + rest)[0] == t;
    assert k == 0;
    assert CutAt([t] + rest, 0) == rest;
  }

  /** Where a chain stands: its stored state, its block number and its blocks. */
  datatype Head = Head(c: Storage, number: nat, blocks: seq<MintedBlock>)

  ghost function HeadOf(chain: PlasmaChain): Head
    reads chain
  {
    Head(chain.storage, chain.blockNumber, chain.blocks)
  }

  /** The chain after a mint. A block of something commits the view `v` with accounts stored in the
      given order and holds its transactions. */
  ghost function MintedHead(was: Head, minted: bool, v: View, order: seq<Address>): Head {
    if minted then
      Head(Committed(was.c, v, order), was.number + 1, was.blocks + [BlockOf(was.number + 1, Transactions(v))])
    else was
  }

  /** What is pending on the head after trying the first `n` transactions. */
  function ViewAfter(was: Head, ts: seq<Transaction>, n: nat, key: TokenKey): View
    requires n <= |ts|
  {
    Played(was.c, NO_VIEW, was.number + 1, ts[..n], key)
  }

  /** What is left in the pool: after a panic in the loop everything, after one in the flush all but
      the transaction that stopped the loop, else also not what was committed. */
  function Left(ts: seq<Transaction>, k: nat, stopped: bool, crashed: bool): seq<Transaction>
    requires k <= |ts|
  {
    if stopped then ts else if crashed then ts[..k] + ts[Used(ts, k)..] else ts[Used(ts, k)..]
  }

  /** Mints a block from the pool `all` on the head `was`. The block holds the longest prefix of the
      ordered pool that applies; the pool loses it and the transaction that stopped it; no block is
      made of nothing. From a sound pool the state is the replay of the committed transactions alone.
      It panics exactly when a transaction does or the trees cannot be flushed; the chain then stays
      where it was. */
  method MintNewBlock(chain: PlasmaChain, pool: TxPool, ghost was: Head, ghost all: seq<Transaction>)
    returns (crashed: bool, minted: bool, ts: seq<Transaction>, ghost k: nat, ghost v: View, ghost order: seq<Address>)
    requires was == HeadOf(chain) && all == pool.All() && Distinct(all)
    modifies chain, pool
    ensures multiset(ts) == multiset(all) && Ordered(ts)
    ensures forall i, j :: 0 <= i < j < |ts| && ts[i].Anchor? ==> ts[j].Anchor?
    ensures forall i, j :: 0 <= i < j < |ts| && ts[i].Transfer? && ts[j].Transfer? ==>
      ts[i].tx.tokenID < ts[j].tx.tokenID ||
      (ts[i].tx.tokenID == ts[j].tx.tokenID && ts[i].tx.prevBlock <= ts[j].tx.prevBlock)
    ensures forall i, j :: 0 <= i < j < |ts| && ts[i].Anchor? && ts[j].Anchor? ==>
      ts[i].atx.chainID < ts[j].atx.chainID ||
      (ts[i].atx.chainID == ts[j].atx.chainID && ts[i].atx.number <= ts[j].atx.number)
    ensures Longest(was.c, NO_VIEW, was.number + 1, ts, chain.tokenKey, k) && (minted <==> k > 0 && !crashed)
    ensures v == ViewAfter(was, ts, Used(ts, k), chain.tokenKey)
    ensures crashed <==> StopsAt(was.c, NO_VIEW, was.number + 1, ts, chain.tokenKey, k) || (k > 0 && !Flushes(was.c, v))
    ensures if !crashed then pool.All() == ts[if k < |ts| then k + 1 else k..]
      else if StopsAt(was.c, NO_VIEW, was.number + 1, ts, chain.tokenKey, k) then pool.All() == ts
      else pool.All() == ts[..k] + ts[if k < |ts| then k + 1 else k..]
    ensures HeadOf(chain) == MintedHead(was, minted, v, order) && (minted ==> Orders(order, v.accounts))
    ensures AllNamed(all, chain.tokenKey) ==> pool.Sound(chain.tokenKey) && v == ViewAfter(was, ts, k, chain.tokenKey)
  {
    ts := Take(pool, all);
    crashed, minted, k, v, order := MintFrom(chain, pool, ts, was);
    SoundMint(all, ts, was, chain.tokenKey, k, StopsAt(was.c, NO_VIEW, was.number + 1, ts, chain.tokenKey, k), crashed);
  }

  /** The pool's transactions in order, which is the order they are then kept in. */
  method Take(pool: TxPool, ghost before: seq<Transaction>) returns (ts: seq<Transaction>)
    requires before == pool.All() && Distinct(before)
    modifies pool
    ensures ts == pool.All() && Ordered(ts) && multiset(ts) == multiset(before) && Distinct(ts)
  {
    ts := pool.GetTransactions();
    SameTransactions(old(pool.txpool), old(pool.wtxpool), pool.txpool, pool.wtxpool);
    DistinctPermuted(before, ts);
  }

  /** Minting from a sound pool. */
  lemma SoundMint(before: seq<Transaction>, ts: seq<Transaction>, was: Head, key: TokenKey, k: nat,
                  stopped: bool, crashed: bool)
    requires multiset(ts) == multiset(before) && Distinct(ts) && Longest(was.c, NO_VIEW, was.number + 1, ts, key, k)
    ensures AllNamed(before, key) ==>
      && Distinct(Left(ts, k, stopped, crashed)) && AllNamed(Left(ts, k, stopped, crashed), key)
      && ViewAfter(was, ts, Used(ts, k), key) == ViewAfter(was, ts, k, key)
  {
    if AllNamed(before, key) {
      NamedPermuted(before, ts, key);
      ReplayNamed(was.c, NO_VIEW, was.number + 1, ts, key, k);
      LeftSound(ts, k, stopped, crashed, key);
    }
  }

  lemma LeftSound(ts: seq<Transaction>, k: nat, stopped: bool, crashed: bool, key: TokenKey)
    requires k <= |ts| && Distinct(ts) && AllNamed(ts, key)
    ensures Distinct(Left(ts, k, stopped, crashed)) && AllNamed(Left(ts, k, stopped, crashed), key)
  {
    SoundRest(ts, k, Used(ts, k), key);
  }

  lemma NamedPermuted(ts: seq<Transaction>, ts': seq<Transaction>, key: TokenKey)
    requires AllNamed(ts, key) && multiset(ts) == multiset(ts')
    ensures AllNamed(ts', key)
  {
    forall t | t in ts' ensures NamedAny(t, key) {
      assert t in multiset(ts);
    }
  }

  lemma SoundRest(ts: seq<Transaction>, k: nat, n: nat, key: TokenKey)
    requires k <= n <= |ts| && Distinct(ts) && AllNamed(ts, key)
    ensures Distinct(ts[n..]) && AllNamed(ts[n..], key)
    ensures Distinct(ts[..k] + ts[n..]) && AllNamed(ts[..k] + ts[n..], key)
  {
  }

  /** The commit loop has got through. */
  lemma ProgressAll(c: Storage, v: View, block: nat, ts: seq<Transaction>, key: TokenKey, k: nat, now: View,
                    pool: seq<Transaction>)
    requires k == |ts| && Progress(c, v, block, ts, key, k, false, now, pool)
    ensures Longest(c, v, block, ts, key, k) && now == Played(c, v, block, ts[..k], key) && pool == ts[..k] + ts[k..]
  {
    PrefixPlayed(c, v, block, ts, key, k);
    assert ts == ts[..k] + ts[k..];
  }

  /** It was stopped by a transaction. */
  lemma ProgressCut(c: Storage, v: View, block: nat, ts: seq<Transaction>, key: TokenKey, k: nat, n: nat, now: View,
                    pool: seq<Transaction>)
    requires k < |ts| && n == k + 1 && Progress(c, v, block, ts, key, k, true, now, pool)
    ensures Longest(c, v, block, ts, key, k) && !StopsAt(c, v, block, ts, key, k)
    ensures now == Played(c, v, block, ts[..n], key) && pool == ts[..k] + ts[n..]
  {
    PrefixPlayed(c, v, block, ts, key, k);
    PrefixPlayed(c, v, block, ts, key, n);
  }

  lemma ProgressUsed(c: Storage, v: View, block: nat, ts: seq<Transaction>, key: TokenKey, k: nat, n: nat, now: View,
                     pool: seq<Transaction>)
    requires k <= |ts| && n == Used(ts, k) && Progress(c, v, block, ts, key, k, k < |ts|, now, pool)
    ensures Longest(c, v, block, ts, key, k) && !StopsAt(c, v, block, ts, key, k)
    ensures now == Played(c, v, block, ts[..n], key) && pool == ts[..k] + ts[n..]
  {
    if k == |ts| {
      ProgressAll(c, v, block, ts, key, k, now, pool);
    } else {
      ProgressCut(c, v, block, ts, key, k, n, now, pool);
    }
  }

  /** The loop was ended by a panic. */
  lemma ProgressStopped(c: Storage, v: View, block: nat, ts: seq<Transaction>, key: TokenKey, k: nat, now: View,
                        pool: seq<Transaction>)
    requires k < |ts| && Progress(c, v, block, ts, key, k, false, now, pool) && Crashes(c, now, ts[k])
    ensures Longest(c, v, block, ts, key, k) && StopsAt(c, v, block, ts, key, k) && pool == ts
  {
    PrefixPlayed(c, v, block, ts, key, k);
    CrashRejects(c, now, ts[k], block, key);
  }

  /** Builds a block's state: everything up to storing it. */
  method Build(chain: PlasmaChain, pool: TxPool, ts: seq<Transaction>, ghost was: Head)
    returns (crashed: bool, s: StateDB, committed: seq<Transaction>, ghost k: nat, ghost v: View)
    requires pool.All() == ts && Distinct(ts) && was == HeadOf(chain)
    modifies pool
    ensures fresh(s) && s.Valid() && s.storage == was.c && s.transactions == map[]
    ensures Longest(was.c, NO_VIEW, was.number + 1, ts, chain.tokenKey, k) && committed == ts[..k]
    ensures crashed <==> StopsAt(was.c, NO_VIEW, was.number + 1, ts, chain.tokenKey, k)
    ensures v == ViewAfter(was, ts, Used(ts, k), chain.tokenKey)
    ensures if crashed then pool.All() == ts else s.Pending() == v && pool.All() == ts[..k] + ts[Used(ts, k)..]
  {
    s := new StateDB(chain.storage);
    ghost var now, left;
    crashed, committed, k, now, left := CommitTransactions(chain, pool, s, ts, was.c, NO_VIEW, was.number + 1);
    v := Built(was, NO_VIEW, was.number + 1, ts, chain.tokenKey, k, crashed, now, left);
  }

  /** Where the loop has led. */
  lemma Built(was: Head, none: View, block: nat, ts: seq<Transaction>, key: TokenKey, k: nat, crashed: bool,
              now: View, left: seq<Transaction>)
    returns (v: View)
    requires none == NO_VIEW && block == was.number + 1 && k <= |ts|
    requires Progress(was.c, none, block, ts, key, k, !crashed && k < |ts|, now, left)
    requires crashed ==> k < |ts| && Crashes(was.c, now, ts[k])
    ensures Longest(was.c, none, block, ts, key, k)
    ensures crashed <==> StopsAt(was.c, none, block, ts, key, k)
    ensures v == ViewAfter(was, ts, Used(ts, k), key)
    ensures if crashed then left == ts else now == v && left == ts[..k] + ts[Used(ts, k)..]
  {
    if crashed {
      ProgressStopped(was.c, none, block, ts, key, k, now, left);
      v := ViewAfter(was, ts, Used(ts, k), key);
    } else {
      v := BuiltUsed(was, none, block, ts, key, k, Used(ts, k), now, left);
    }
  }

  lemma BuiltUsed(was: Head, none: View, block: nat, ts: seq<Transaction>, key: TokenKey, k: nat, n: nat,
                  now: View, left: seq<Transaction>)
    returns (v: View)
    requires none == NO_VIEW && block == was.number + 1 && k <= |ts| && n == Used(ts, k)
    requires Progress(was.c, none, block, ts, key, k, k < |ts|, now, left)
    ensures Longest(was.c, none, block, ts, key, k) && !StopsAt(was.c, none, block, ts, key, k)
    ensures v == now == ViewAfter(was, ts, n, key) && left == ts[..k] + ts[n..]
  {
    ProgressUsed(was.c, none, block, ts, key, k, n, now, left);
    v := now;
  }

  method MintFrom(chain: PlasmaChain, pool: TxPool, ts: seq<Transaction>, ghost was: Head)
    returns (crashed: bool, minted: bool, ghost k: nat, ghost v: View, ghost order: seq<Address>)
    requires pool.All() == ts && Distinct(ts) && was == HeadOf(chain)
    modifies chain, pool
    ensures Longest(was.c, NO_VIEW, was.number + 1, ts, chain.tokenKey, k) && (minted <==> k > 0 && !crashed)
    ensures v == ViewAfter(was, ts, Used(ts, k), chain.tokenKey)
    ensures crashed <==> StopsAt(was.c, NO_VIEW, was.number + 1, ts, chain.tokenKey, k) || (k > 0 && !Flushes(was.c, v))
    ensures pool.All() == Left(ts, k, StopsAt(was.c, NO_VIEW, was.number + 1, ts, chain.tokenKey, k), crashed)
    ensures HeadOf(chain) == MintedHead(was, minted, v, order) && (minted ==> Orders(order, v.accounts))
  {
    var s, committed;
    crashed, s, committed, k, v := Build(chain, pool, ts, was);
    minted, order := false, [];
    if crashed { return; }
    if |committed| > 0 {
      minted, order := SealBlock(chain, s, was, v);
      if !minted { return true, false, k, v, order; }
    }
    RemoveCommitted(pool, committed, ts[Used(ts, k)..]);
  }

  /** Stores a state and makes its block the chain's current one, unless storing it panics. */
  method SealBlock(chain: PlasmaChain, s: StateDB, ghost was: Head, ghost v: View)
    returns (ok: bool, ghost order: seq<Address>)
    requires s.Valid() && was == HeadOf(chain) && was.c == s.storage && v == s.Pending() && s.transactions == map[]
    modifies chain, s
    ensures HeadOf(chain) == MintedHead(was, ok, v, order) && Orders(order, v.accounts) && (ok <==> Flushes(was.c, v))
  {
    var head := chain.blockNumber;
    var ids;
    ok, ids, order := Store(s, was.c, v);
    if !ok { return; }
    var bloom := BloomChunk(ids, Transactions(v));
    chain.InsertChain([MintedBlock(head + 1, s.transactions, bloom)], s.storage);
  }

  /** Stores a state of a fresh block. */
  method Store(s: StateDB, ghost c: Storage, ghost v: View)
    returns (ok: bool, ids: seq<UInt64>, ghost order: seq<Address>)
    requires s.Valid() && c == s.storage && v == s.Pending() && s.transactions == map[]
    modifies s
    ensures s.storage == Committed(c, v, order) && Orders(order, v.accounts) && s.transactions == Transactions(v)
    ensures (forall id :: id in ids <==> id in Transactions(v)) && (ok <==> Flushes(c, v))
  {
    ok, ids, order := s.Commit(c, v);
    assert map[] + Transactions(v) == Transactions(v);
  }

  /** The bloom chunk of a block with the given tokens. */
  method BloomChunk(ids: seq<UInt64>, ghost txs: map<UInt64, nat>) returns (bloom: seq<bv8>)
    requires forall id :: id in ids <==> id in txs
    ensures bloom == BlockOf(0, txs).bloom
  {
    if |ids| > 0 {
      var b := NewBloom(ids);
      BloomIsSet(b[..], ids, txs.Keys);
      assert ids[0] in txs;
      bloom := b[..];
    } else {
      assert txs.Keys == {};
      bloom := [];
    }
  }

  lemma SameTransactions(a: seq<Tx>, b: seq<AnchorTx>, a': seq<Tx>, b': seq<AnchorTx>)
    requires multiset(a) == multiset(a') && multiset(b) == multiset(b')
    ensures multiset(Transfers(a) + Anchors(b)) == multiset(Transfers(a') + Anchors(b'))
  {
    SameTransfers(a, a');
    SameAnchors(b, b');
  }

  lemma {:induction false} CountTransfers(a: seq<Tx>, t: Transaction)
    ensures multiset(Transfers(a))[t] == if t.Transfer? then multiset(a)[t.tx] else 0
  {
    if a != [] {
      var rest, x := a[..|a| - 1], a[|a| - 1];
      CountTransfers(rest, t);
      assert a == rest + [x];
      assert Transfers(a) == Transfers(rest) + [Transfer(x)];
    }
  }

  lemma {:induction false} CountAnchors(a: seq<AnchorTx>, t: Transaction)
    ensures multiset(Anchors(a))[t] == if t.Anchor? then multiset(a)[t.atx] else 0
  {
    if a != [] {
      var rest, x := a[..|a| - 1], a[|a| - 1];
      CountAnchors(rest, t);
      assert a == rest + [x];
      assert Anchors(a) == Anchors(rest) + [Anchor(x)];
    }
  }

  lemma SameTransfers(a: seq<Tx>, a': seq<Tx>)
    requires multiset(a) == multiset(a')
    ensures multiset(Transfers(a)) == multiset(Transfers(a'))
  {
    forall t ensures multiset(Transfers(a))[t] == multiset(Transfers(a'))[t] {
      CountTransfers(a, t);
      CountTransfers(a', t);
    }
  }

  lemma SameAnchors(a: seq<AnchorTx>, a': seq<AnchorTx>)
    requires multiset(a) == multiset(a')
    ensures multiset(Anchors(a)) == multiset(Anchors(a'))
  {
    forall t ensures multiset(Anchors(a))[t] == multiset(Anchors(a'))[t] {
      CountAnchors(a, t);
      CountAnchors(a', t);
    }
  }
}
