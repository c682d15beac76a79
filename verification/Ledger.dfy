/** Runs of the chain: transactions tried one after another on a pending view, blocks sealed
    from it, and pending views dropped. What every run keeps. */
module Ledger {
  import opened Bytes
  import opened Plasma
  import opened Ownership

  /** The transactions of a block, by token: what the block's transaction tree holds. */
  type Block = map<UInt64, Tx>

  /** The anchors of a block, by chain. */
  type AnchorBlock = map<UInt64, seq<AnchorTx>>

  /** `log[b - 1]` is block `b`; the block being built is number `|log| + 1`. */
  datatype Ledger = Ledger(c: Storage, v: View, pending: Block, log: seq<Block>, anchorLog: seq<AnchorBlock>)

  /** A block is sealed with its accounts stored in some order. */
  datatype Event = Try(tx: Tx) | TryAnchor(atx: AnchorTx) | Seal(order: seq<Address>) | Drop

  /** What the runs depend on: the hash that names deposits, and how owners are compared. */
  datatype Rules = Rules(key: TokenKey, byValue: bool)

  const GENESIS := Ledger(Storage(map[], map[], map[]), NO_VIEW, map[], [], [])

  /** A transaction that reaches the block's transaction list: accepted, or rejected late. */
  predicate Enters(l: Ledger, tx: Tx) {
    AcceptsDeposit(l.c, l.v, tx) || AcceptsTransfer(l.c, l.v, tx)
  }

  function Next(l: Ledger, e: Event, r: Rules): Ledger {
    match e
    case Try(tx) =>
      l.(v := Tried(l.c, l.v, |l.log| + 1, tx, r.key),
         pending := if Enters(l, tx) then l.pending[tx.tokenID := tx] else l.pending)
    case TryAnchor(atx) => l.(v := TriedAnchor(l.c, l.v, atx, r.byValue))
    case Seal(order) =>
      Ledger(Committed(l.c, l.v, order), NO_VIEW, map[], l.log + [l.pending], l.anchorLog + [l.v.anchors])
    case Drop => l.(v := NO_VIEW, pending := map[])
  }

  function Run(l: Ledger, es: seq<Event>, r: Rules): Ledger {
    if es == [] then l else Next(Run(l, es[..|es| - 1], r), es[|es| - 1], r)
  }

  // ----- The history of a token -----

  /** The number of the last block with a transaction of the token, or zero. */
  function Last(log: seq<Block>, id: UInt64): (b: nat)
    ensures b <= |log| && (b != 0 ==> id in log[b - 1])
    ensures forall k :: b <= k < |log| ==> id !in log[k]
  {
    if log == [] then 0
    else if id in log[|log| - 1] then |log|
    else Last(log[..|log| - 1], id)
  }

  /** Every logged transaction names the previous block of its token. */
  predicate Linked(log: seq<Block>, k: nat, id: UInt64)
    requires k < |log| && id in log[k]
  {
    log[k][id].tokenID == id && log[k][id].prevBlock == Last(log[..k], id)
  }

  predicate Chained(log: seq<Block>) {
    forall k, id {:trigger Linked(log, k, id)} :: 0 <= k < |log| && id in log[k] ==> Linked(log, k, id)
  }

  /** A stored token names the last block that transacted it. */
  predicate StoredAt(l: Ledger, id: UInt64) {
    && (id in l.c.tokens <==> Last(l.log, id) != 0)
    && (id in l.c.tokens ==> l.c.tokens[id].prevBlock == Last(l.log, id))
  }

  predicate PendingAt(l: Ledger, id: UInt64)
    requires id in l.pending
  {
    && l.pending[id].tokenID == id && l.pending[id].prevBlock == Last(l.log, id)
    && id in l.v.tokens && l.v.tokens[id].prevBlock == |l.log| + 1
    && id in l.v.hashes && l.v.hashes[id] == l.pending[id].hash
  }

  ghost predicate Tracked(l: Ledger) {
    && l.v.tokens.Keys == l.v.isSet == l.pending.Keys == l.v.hashes.Keys
    && Chained(l.log)
    && (forall id {:trigger StoredAt(l, id)} :: StoredAt(l, id))
    && (forall id {:trigger PendingAt(l, id)} :: id in l.pending ==> PendingAt(l, id))
  }

  /** A transfer that enters names the block its token was last transacted in: the branch that
      lets the first transfer of a genesis token skip this check is never taken. */
  lemma PrevBlockChecked(l: Ledger, tx: Tx)
    requires Tracked(l) && AcceptsTransfer(l.c, l.v, tx)
    ensures 1 <= l.c.tokens[tx.tokenID].prevBlock <= |l.log|
    ensures tx.prevBlock == l.c.tokens[tx.tokenID].prevBlock == Last(l.log, tx.tokenID)
  {
    assert StoredAt(l, tx.tokenID);
  }

  lemma TryPending(l: Ledger, tx: Tx, r: Rules, id: UInt64)
    requires Tracked(l) && Enters(l, tx) && id in l.pending.Keys + {tx.tokenID}
    ensures PendingAt(Next(l, Try(tx), r), id)
  {
    if id == tx.tokenID {
      assert StoredAt(l, id);
    } else {
      assert PendingAt(l, id);
    }
  }

  lemma TryTracked(l: Ledger, tx: Tx, r: Rules)
    requires Tracked(l)
    ensures Tracked(Next(l, Try(tx), r))
  {
    var l' := Next(l, Try(tx), r);
    forall id ensures StoredAt(l', id) { assert StoredAt(l, id); }
    if Enters(l, tx) {
      forall id | id in l'.pending ensures PendingAt(l', id) { TryPending(l, tx, r, id); }
    } else {
      assert l' == l;
    }
  }

  lemma LastAppend(log: seq<Block>, b: Block, id: UInt64)
    ensures Last(log + [b], id) == if id in b then |log| + 1 else Last(log, id)
  {
    assert (log + [b])[..|log|] == log;
  }

  lemma SealChained(l: Ledger)
    requires Tracked(l)
    ensures Chained(l.log + [l.pending])
  {
    var log := l.log + [l.pending];
    forall k, id | 0 <= k < |log| && id in log[k] ensures Linked(log, k, id) {
      assert log[..k] == l.log[..k];
      if k < |l.log| {
        assert Linked(l.log, k, id);
      } else {
        assert l.log[..k] == l.log;
        assert PendingAt(l, id);
      }
    }
  }

  lemma SealTracked(l: Ledger, order: seq<Address>, r: Rules)
    requires Tracked(l)
    ensures Tracked(Next(l, Seal(order), r))
  {
    var l' := Next(l, Seal(order), r);
    SealChained(l);
    forall id ensures StoredAt(l', id) {
      assert StoredAt(l, id);
      LastAppend(l.log, l.pending, id);
      if id in l.pending { assert PendingAt(l, id); }
    }
  }

  lemma DropTracked(l: Ledger, r: Rules)
    requires Tracked(l)
    ensures Tracked(Next(l, Drop, r))
  {
    var l' := Next(l, Drop, r);
    forall id ensures StoredAt(l', id) { assert StoredAt(l, id); }
  }

  lemma AnchorTracked(l: Ledger, atx: AnchorTx, r: Rules)
    requires Tracked(l)
    ensures Tracked(Next(l, TryAnchor(atx), r))
  {
    var l' := Next(l, TryAnchor(atx), r);
    forall id ensures StoredAt(l', id) { assert StoredAt(l, id); }
    forall id | id in l'.pending ensures PendingAt(l', id) { assert PendingAt(l, id); }
  }

  lemma NextTracked(l: Ledger, e: Event, r: Rules)
    requires Tracked(l)
    ensures Tracked(Next(l, e, r))
  {
    match e
    case Try(tx) => TryTracked(l, tx, r);
    case TryAnchor(atx) => AnchorTracked(l, atx, r);
    case Seal(order) => SealTracked(l, order, r);
    case Drop => DropTracked(l, r);
  }

  /** Every run from genesis is tracked, late rejections included. */
  lemma RunTracked(es: seq<Event>, r: Rules)
    ensures Tracked(Run(GENESIS, es, r))
  {
    forall id ensures StoredAt(GENESIS, id) {}
    TrackedFrom(GENESIS, es, r);
  }

  lemma {:induction false} TrackedFrom(l: Ledger, es: seq<Event>, r: Rules)
    requires Tracked(l)
    ensures Tracked(Run(l, es, r))
  {
    if es != [] {
      TrackedFrom(l, es[..|es| - 1], r);
      NextTracked(Run(l, es[..|es| - 1], r), es[|es| - 1], r);
    }
  }

  /** What a block's transaction tree holds. */
  function Hashes(b: Block): map<UInt64, nat> {
    map id | id in b :: b[id].hash
  }

  /** The transactions a sealed block is logged with are those its tree is given. */
  lemma SealedHashes(l: Ledger)
    requires Tracked(l)
    ensures Transactions(l.v) == Hashes(l.pending)
  {
    forall id | id in l.pending ensures id in l.v.hashes && l.v.hashes[id] == l.pending[id].hash {
      assert PendingAt(l, id);
    }
  }

  /** Following previous blocks from block `b`. */
  function Trace(log: seq<Block>, id: UInt64, b: nat): seq<nat>
    requires Chained(log) && b <= |log| && (b != 0 ==> id in log[b - 1])
    decreases b
  {
    if b == 0 then [] else
      assert Linked(log, b - 1, id);
      assert log[..b - 1][..] == log[..b - 1];
      [b] + Trace(log, id, log[b - 1][id].prevBlock)
  }

  /** All blocks that transacted the token, the latest first. */
  function BlocksOf(log: seq<Block>, id: UInt64): seq<nat> {
    if log == [] then []
    else if id in log[|log| - 1] then [|log|] + BlocksOf(log[..|log| - 1], id)
    else BlocksOf(log[..|log| - 1], id)
  }

  lemma {:induction false} BlocksOfLast(log: seq<Block>, id: UInt64)
    ensures BlocksOf(log, id) == if Last(log, id) == 0 then []
                                 else [Last(log, id)] + BlocksOf(log[..Last(log, id) - 1], id)
  {
    if log != [] && id !in log[|log| - 1] {
      var rest := log[..|log| - 1];
      BlocksOfLast(rest, id);
      if Last(rest, id) != 0 { assert rest[..Last(rest, id) - 1] == log[..Last(rest, id) - 1]; }
    }
  }

  /** Following previous blocks visits exactly the blocks that transacted the token. */
  lemma {:induction false} TraceFrom(log: seq<Block>, id: UInt64, n: nat)
    requires Chained(log) && n <= |log|
    ensures Last(log[..n], id) <= |log| && Trace(log, id, Last(log[..n], id)) == BlocksOf(log[..n], id)
    decreases n
  {
    var b := Last(log[..n], id);
    BlocksOfLast(log[..n], id);
    if b != 0 {
      assert Linked(log, b - 1, id);
      assert log[..n][..b - 1] == log[..b - 1];
      TraceFrom(log, id, b - 1);
    }
  }

  lemma {:induction false} BlocksOfExact(log: seq<Block>, id: UInt64)
    ensures forall b :: b in BlocksOf(log, id) <==> 1 <= b <= |log| && id in log[b - 1]
    ensures forall i, j :: 0 <= i < j < |BlocksOf(log, id)| ==> BlocksOf(log, id)[i] > BlocksOf(log, id)[j]
  {
    if log != [] {
      BlocksOfExact(log[..|log| - 1], id);
      var rest := BlocksOf(log[..|log| - 1], id);
      assert forall j :: 0 <= j < |rest| ==> rest[j] in rest;
    }
  }

  /** Two transactions of one token never name the same previous block. */
  lemma PrevBlockOnce(log: seq<Block>, id: UInt64, j: nat, k: nat)
    requires Chained(log) && j < k < |log| && id in log[j] && id in log[k]
    ensures log[j][id].prevBlock < j + 1 <= log[k][id].prevBlock
  {
    assert Linked(log, j, id) && Linked(log, k, id);
    assert id in log[..k][j];
  }

  lemma FirstIsDeposit(log: seq<Block>, id: UInt64, k: nat)
    requires Chained(log) && k < |log| && id in log[k]
    ensures log[k][id].prevBlock == 0 <==> forall j :: 0 <= j < k ==> id !in log[j]
  {
    assert Linked(log, k, id);
    var p := Last(log[..k], id);
    if p != 0 { assert id in log[p - 1]; }
  }

  /** In every run: a token is stored exactly when some block transacted it; following previous
      blocks from the stored one visits those blocks and no others, each once, latest first;
      and only the earliest is a deposit. */
  lemma TokenHistory(es: seq<Event>, r: Rules, id: UInt64)
    ensures var l := Run(GENESIS, es, r);
      && Chained(l.log)
      && (id in l.c.tokens <==> exists b :: b in BlocksOf(l.log, id))
      && (id in l.c.tokens ==>
            var b := l.c.tokens[id].prevBlock;
            1 <= b <= |l.log| && id in l.log[b - 1] && Trace(l.log, id, b) == BlocksOf(l.log, id))
      && forall k :: 0 <= k < |l.log| && id in l.log[k] ==>
           (l.log[k][id].prevBlock == 0 <==> forall j :: 0 <= j < k ==> id !in l.log[j])
  {
    var l := Run(GENESIS, es, r);
    RunTracked(es, r);
    assert StoredAt(l, id);
    assert l.log[..|l.log|] == l.log;
    TraceFrom(l.log, id, |l.log|);
    BlocksOfExact(l.log, id);
    if id in l.c.tokens { assert Last(l.log, id) in BlocksOf(l.log, id); }
    forall k | 0 <= k < |l.log| && id in l.log[k]
      ensures l.log[k][id].prevBlock == 0 <==> forall j :: 0 <= j < k ==> id !in l.log[j]
    {
      FirstIsDeposit(l.log, id, k);
    }
  }

  // ----- Conservation -----

  /** A stated spent amount below the stored one, with a changed balance. */
  predicate Unspends(t: Token, tx: Tx) { tx.spent < t.spent && Consumes(t, tx) }

  /** A transfer keeps denomination = balance + allowance + spent, modulo 2^64, exactly when it
      does not unspend. */
  lemma EquationIff(t: Token, tx: Tx, block: nat)
    requires TransferChecks(t, tx)
    ensures ValidDenomination(Transferred(t, tx, block)) <==> !Unspends(t, tx)
  {
    var t' := Transferred(t, tx, block);
    if Unspends(t, tx) {
      var d := t.spent - tx.spent;
      assert (tx.balance + t.spent + tx.allowance) == (tx.spent + tx.allowance + tx.balance) + d;
      NoWrap(tx.spent + tx.allowance + tx.balance, d);
    }
  }

  lemma NoWrap(x: nat, d: nat)
    requires 0 < d < TWO_64
    ensures (x + d) % TWO_64 != x % TWO_64
  {
  }

  /** What no run undoes: a token keeps its denomination and never becomes less spent. */
  predicate Follows(t: Token, t': Token) {
    t'.denomination == t.denomination && t.spent <= t'.spent
  }

  /** A pending token follows the stored one, which satisfies the equation. */
  predicate PendingFollows(l: Ledger, id: UInt64) {
    id in l.v.tokens && id in l.c.tokens ==>
      Follows(l.c.tokens[id], l.v.tokens[id]) && ValidDenomination(l.c.tokens[id])
  }

  ghost predicate AllFollow(l: Ledger) {
    forall id {:trigger PendingFollows(l, id)} :: PendingFollows(l, id)
  }

  lemma NextFollows(l: Ledger, e: Event, r: Rules)
    requires AllFollow(l)
    ensures AllFollow(Next(l, e, r))
  {
    forall id ensures PendingFollows(Next(l, e, r), id) { assert PendingFollows(l, id); }
  }

  lemma {:induction false} RunFollows(l: Ledger, es: seq<Event>, r: Rules)
    requires AllFollow(l)
    ensures AllFollow(Run(l, es, r))
  {
    if es != [] {
      RunFollows(l, es[..|es| - 1], r);
      NextFollows(Run(l, es[..|es| - 1], r), es[|es| - 1], r);
    }
  }

  lemma {:induction false} ConservedFrom(l: Ledger, es: seq<Event>, r: Rules, id: UInt64)
    requires AllFollow(l) && id in l.c.tokens
    ensures var c := Run(l, es, r).c;
      && id in c.tokens && Follows(l.c.tokens[id], c.tokens[id])
      && (!ValidDenomination(l.c.tokens[id]) ==> c.tokens[id] == l.c.tokens[id])
  {
    if es != [] {
      ConservedFrom(l, es[..|es| - 1], r, id);
      RunFollows(l, es[..|es| - 1], r);
      assert PendingFollows(Run(l, es[..|es| - 1], r), id);
    }
  }

  /** Over every run, a stored token stays stored, keeps its denomination, and its spent amount
      never decreases; once its amounts stop adding up it never changes again. */
  lemma Conserved(before: seq<Event>, es: seq<Event>, r: Rules, id: UInt64)
    requires id in Run(GENESIS, before, r).c.tokens
    ensures var l := Run(GENESIS, before, r);
      var c := Run(l, es, r).c;
      && id in c.tokens && Follows(l.c.tokens[id], c.tokens[id])
      && (!ValidDenomination(l.c.tokens[id]) ==> c.tokens[id] == l.c.tokens[id])
  {
    RunFollows(GENESIS, before, r);
    ConservedFrom(Run(GENESIS, before, r), es, r, id);
  }

  /** Every token, stored or pending, satisfies the equation. */
  ghost predicate AllValid(l: Ledger) {
    && (forall id :: id in l.c.tokens ==> ValidDenomination(l.c.tokens[id]))
    && (forall id :: id in l.v.tokens ==> ValidDenomination(l.v.tokens[id]))
  }

  /** One step keeps the equation for all tokens exactly when it accepts no unspending transfer. */
  lemma ValidIff(l: Ledger, e: Event, r: Rules)
    requires AllValid(l)
    ensures AllValid(Next(l, e, r))
       <==> !(e.Try? && AcceptsTransfer(l.c, l.v, e.tx) && Unspends(l.c.tokens[e.tx.tokenID], e.tx))
  {
    if e.Try? && AcceptsTransfer(l.c, l.v, e.tx) {
      var id := e.tx.tokenID;
      EquationIff(l.c.tokens[id], e.tx, |l.log| + 1);
      assert id in Next(l, e, r).v.tokens;
    }
  }

  // ----- What is there -----

  /** Where there are accounts there are tokens, and where there are anchors there are chains. */
  ghost predicate Populated(l: Ledger) {
    && (l.c.tokens == map[] ==> l.c.accounts == map[]) && (l.v.tokens == map[] ==> l.v.accounts == map[])
    && l.v.anchors.Keys <= l.v.chains.Keys
  }

  lemma NextPopulated(l: Ledger, e: Event, r: Rules)
    requires Populated(l) && (e.Seal? ==> Orders(e.order, l.v.accounts))
    ensures Populated(Next(l, e, r))
  {
    match e
    case Try(tx) =>
      if Enters(l, tx) { assert tx.tokenID in Next(l, e, r).v.tokens; }
    case Seal(order) => SealPopulated(l, order);
    case _ =>
  }

  /** What a block writes. */
  lemma SealPopulated(l: Ledger, order: seq<Address>)
    requires Populated(l) && Orders(order, l.v.accounts)
    ensures var w := Written(l.c, l.v, order);
      (w.tokens == map[] ==> w.accounts == map[]) && (l.v.anchors != map[] ==> w.chains != map[])
  {
    var w := Written(l.c, l.v, order);
    if w.tokens == map[] {
      assert forall id :: id in l.c.tokens ==> id in w.tokens;
      assert forall id :: id in l.v.tokens ==> id in w.tokens;
      assert order == [];
    }
    if l.v.anchors != map[] {
      var id :| id in l.v.anchors;
      assert id in w.chains;
    }
  }

  /** So it is over every run that stores every account once. */
  lemma {:induction false} RunPopulated(w: iset<Address>, es: seq<Event>, r: Rules)
    requires Fitting(w, GENESIS, es, r)
    ensures Populated(Run(GENESIS, es, r))
  {
    if es != [] {
      RunPopulated(w, es[..|es| - 1], r);
      NextPopulated(Run(GENESIS, es[..|es| - 1], r), es[|es| - 1], r);
    }
  }

  // ----- Ownership over runs -----

  /** Recipients in `w`, no late rejection, every pending account stored once, and, for exact sums,
      no transfer that raises a balance. */
  ghost predicate Clean(exact: bool, w: iset<Address>, l: Ledger, es: seq<Event>, r: Rules) {
    es == [] ||
    (Clean(exact, w, l, es[..|es| - 1], r) && CleanStep(exact, w, Run(l, es[..|es| - 1], r), es[|es| - 1], r))
  }

  ghost predicate CleanStep(exact: bool, w: iset<Address>, l: Ledger, e: Event, r: Rules) {
    match e
    case Try(tx) =>
      && tx.recipient in w
      && !RejectedLate(l.c, l.v, tx, r.key)
      && (exact ==> !(AcceptsTransfer(l.c, l.v, tx) && Raises(l.c, tx)))
    case Seal(order) => Orders(order, l.v.accounts)
    case _ => true
  }

  /** Every block stores each account that lists a token so that it can be read. */
  ghost predicate Stores(l: Ledger, es: seq<Event>, r: Rules) {
    es == [] || (Stores(l, es[..|es| - 1], r) && StoreStep(Run(l, es[..|es| - 1], r), es[|es| - 1]))
  }

  ghost predicate StoreStep(l: Ledger, e: Event) {
    e.Seal? ==> AllStorable(l.v.accounts)
  }

  /** Every block is one whose trees can be flushed. */
  ghost predicate AllFlush(l: Ledger, es: seq<Event>, r: Rules) {
    es == [] || (AllFlush(l, es[..|es| - 1], r) && FlushStep(Run(l, es[..|es| - 1], r), es[|es| - 1]))
  }

  ghost predicate FlushStep(l: Ledger, e: Event) {
    e.Seal? ==> Orders(e.order, l.v.accounts) && Flushes(l.c, l.v)
  }

  /** The keys stored by flushed blocks are apart. */
  lemma {:induction false} RunApart(es: seq<Event>, r: Rules)
    requires AllFlush(GENESIS, es, r)
    ensures AllApart(Run(GENESIS, es, r).c)
  {
    if es != [] {
      var l, e := Run(GENESIS, es[..|es| - 1], r), es[|es| - 1];
      RunApart(es[..|es| - 1], r);
      if e.Seal? { FlushesIff(l.c, l.v, e.order); }
    }
  }

  /** Recipients in `w`, and every pending account stored once. */
  ghost predicate Fitting(w: iset<Address>, l: Ledger, es: seq<Event>, r: Rules) {
    es == [] || (Fitting(w, l, es[..|es| - 1], r) && FitStep(w, Run(l, es[..|es| - 1], r), es[|es| - 1]))
  }

  ghost predicate FitStep(w: iset<Address>, l: Ledger, e: Event) {
    match e
    case Try(tx) => tx.recipient in w
    case Seal(order) => Orders(order, l.v.accounts)
    case _ => true
  }

  /** Ownership and sums hold of the pending state and of the committed one. */
  ghost predicate Owned(exact: bool, w: iset<Address>, l: Ledger) {
    AllOk(exact, w, l.c, l.v) && AllOk(exact, w, l.c, NO_VIEW)
  }

  /** Anchors do not touch tokens or accounts. */
  lemma SameTokens(exact: bool, w: iset<Address>, c: Storage, v: View, v': View)
    requires AllOk(exact, w, c, v)
    requires v'.tokens == v.tokens && v'.isSet == v.isSet && v'.accounts == v.accounts
    ensures AllOk(exact, w, c, v')
  {
    forall id | id in Tokens(c, v') ensures OwnerLists(w, c, v', id) { assert OwnerLists(w, c, v, id); }
    forall a | a in w ensures OkAt(exact, c, v', a) { assert OkAt(exact, c, v, a); }
  }

  /** One step keeps ownership and sums exactly when it is clean and stores what it has to. */
  lemma NextOwnedIff(exact: bool, w: iset<Address>, l: Ledger, e: Event, r: Rules)
    requires ShortInjective(w) && Owned(exact, w, l) && FitStep(w, l, e)
    ensures Owned(exact, w, Next(l, e, r)) <==> CleanStep(exact, w, l, e, r) && StoreStep(l, e)
  {
    match e
    case TryAnchor(atx) => SameTokens(exact, w, l.c, l.v, TriedAnchor(l.c, l.v, atx, r.byValue));
    case Try(tx) => TriedKeepsIff(exact, w, l.c, l.v, |l.log| + 1, tx, r.key);
    case Seal(order) => CommitKeepsIff(exact, w, l.c, l.v, order);
    case Drop =>
  }

  lemma GenesisOwned(exact: bool, w: iset<Address>)
    ensures Owned(exact, w, GENESIS)
  {
    assert Tokens(GENESIS.c, NO_VIEW) == map[];
    forall a ensures OkAt(exact, GENESIS.c, NO_VIEW, a) {
      assert AccountOf(GENESIS.c, NO_VIEW, a) == NO_ACCOUNT;
    }
  }

  lemma {:induction false} CleanFits(exact: bool, w: iset<Address>, l: Ledger, es: seq<Event>, r: Rules)
    requires Clean(exact, w, l, es, r)
    ensures Fitting(w, l, es, r)
  {
    if es != [] { CleanFits(exact, w, l, es[..|es| - 1], r); }
  }

  /** Over every clean run that stores its accounts, each token is in exactly its owner's list and
      every account carries the sums over its tokens. */
  lemma {:induction false} RunOwned(exact: bool, w: iset<Address>, es: seq<Event>, r: Rules)
    requires ShortInjective(w) && Clean(exact, w, GENESIS, es, r) && Stores(GENESIS, es, r)
    ensures Owned(exact, w, Run(GENESIS, es, r))
  {
    if es == [] {
      GenesisOwned(exact, w);
    } else {
      RunOwned(exact, w, es[..|es| - 1], r);
      NextOwnedIff(exact, w, Run(GENESIS, es[..|es| - 1], r), es[|es| - 1], r);
    }
  }

  ghost predicate OwnedAfter(exact: bool, w: iset<Address>, es: seq<Event>, r: Rules, n: nat)
    requires n <= |es|
  {
    Owned(exact, w, Run(GENESIS, es[..n], r))
  }

  ghost predicate AlwaysOwned(exact: bool, w: iset<Address>, es: seq<Event>, r: Rules) {
    forall n {:trigger OwnedAfter(exact, w, es, r, n)} :: 0 <= n <= |es| ==> OwnedAfter(exact, w, es, r, n)
  }

  lemma AlwaysLast(exact: bool, w: iset<Address>, es: seq<Event>, r: Rules)
    requires es != []
    ensures AlwaysOwned(exact, w, es, r)
       <==> AlwaysOwned(exact, w, es[..|es| - 1], r) && Owned(exact, w, Run(GENESIS, es, r))
  {
    var rest := es[..|es| - 1];
    assert es[..|es|] == es;
    forall n: nat | n < |es| ensures OwnedAfter(exact, w, es, r, n) <==> OwnedAfter(exact, w, rest, r, n) {
      assert rest[..n] == es[..n];
    }
    if AlwaysOwned(exact, w, es, r) { assert OwnedAfter(exact, w, es, r, |es|); }
  }

  /** All along a run ownership and sums hold exactly when the run is clean, rejecting nothing late
      and raising nothing if the sums are to be exact, and stores its accounts. */
  lemma {:induction false} RunOwnedIff(exact: bool, w: iset<Address>, es: seq<Event>, r: Rules)
    requires ShortInjective(w) && Fitting(w, GENESIS, es, r)
    ensures AlwaysOwned(exact, w, es, r) <==> Clean(exact, w, GENESIS, es, r) && Stores(GENESIS, es, r)
  {
    if es == [] {
      GenesisOwned(exact, w);
      assert es[..0] == [];
    } else {
      var rest := es[..|es| - 1];
      RunOwnedIff(exact, w, rest, r);
      AlwaysLast(exact, w, es, r);
      if AlwaysOwned(exact, w, rest, r) {
        assert OwnedAfter(exact, w, rest, r, |rest|) && rest[..|rest|] == rest;
        NextOwnedIff(exact, w, Run(GENESIS, rest, r), es[|es| - 1], r);
      }
    }
  }

  /** No accepted transfer raises a balance. */
  ghost predicate NoneRaised(l: Ledger, es: seq<Event>, r: Rules) {
    es == [] || (NoneRaised(l, es[..|es| - 1], r) && RaiseStep(Run(l, es[..|es| - 1], r), es[|es| - 1]))
  }

  ghost predicate RaiseStep(l: Ledger, e: Event) {
    e.Try? ==> !(AcceptsTransfer(l.c, l.v, e.tx) && Raises(l.c, e.tx))
  }

  lemma {:induction false} CleanExact(w: iset<Address>, l: Ledger, es: seq<Event>, r: Rules)
    requires Clean(false, w, l, es, r) && NoneRaised(l, es, r)
    ensures Clean(true, w, l, es, r)
  {
    if es != [] { CleanExact(w, l, es[..|es| - 1], r); }
  }

  /** If no transfer raises a balance and no address ends in eight zero bytes, nothing is lost and
      all sums are exact. */
  lemma {:induction false} RunExact(w: iset<Address>, es: seq<Event>, r: Rules)
    requires ShortInjective(w) && NonZero(w) && Clean(true, w, GENESIS, es, r)
    ensures Stores(GENESIS, es, r) && Owned(true, w, Run(GENESIS, es, r))
  {
    if es != [] {
      var l := Run(GENESIS, es[..|es| - 1], r);
      RunExact(w, es[..|es| - 1], r);
      ExactStorable(w, l.c, l.v);
    }
    RunOwned(true, w, es, r);
  }

  lemma RunLast(l: Ledger, es: seq<Event>, e: Event, r: Rules)
    ensures Run(l, es + [e], r) == Next(Run(l, es, r), e, r)
  {
    assert (es + [e])[..|es|] == es;
  }

  lemma {:induction false} RunConcat(l: Ledger, a: seq<Event>, b: seq<Event>, r: Rules)
    ensures Run(l, a + b, r) == Run(Run(l, a, r), b, r)
  {
    if b == [] {
      assert a + b == a;
    } else {
      var rest, e := b[..|b| - 1], b[|b| - 1];
      RunConcat(l, a, rest, r);
      assert (a + b)[..|a + b| - 1] == a + rest && (a + b)[|a + b| - 1] == e;
    }
  }

  lemma FlushLast(l: Ledger, es: seq<Event>, e: Event, r: Rules)
    requires AllFlush(l, es, r) && FlushStep(Run(l, es, r), e)
    ensures AllFlush(l, es + [e], r)
  {
    assert (es + [e])[..|es|] == es;
  }

  lemma {:induction false} FlushConcat(l: Ledger, a: seq<Event>, b: seq<Event>, r: Rules)
    requires AllFlush(l, a, r) && AllFlush(Run(l, a, r), b, r)
    ensures AllFlush(l, a + b, r)
  {
    if b == [] {
      assert a + b == a;
    } else {
      var rest, e := b[..|b| - 1], b[|b| - 1];
      FlushConcat(l, a, rest, r);
      RunConcat(l, a, rest, r);
      assert (a + b)[..|a + b| - 1] == a + rest && (a + b)[|a + b| - 1] == e;
    }
  }

  lemma CleanLast(exact: bool, w: iset<Address>, l: Ledger, es: seq<Event>, e: Event, r: Rules)
    requires Clean(exact, w, l, es, r) && CleanStep(exact, w, Run(l, es, r), e, r)
    ensures Clean(exact, w, l, es + [e], r)
  {
    assert (es + [e])[..|es|] == es;
  }

  lemma {:induction false} CleanConcat(exact: bool, w: iset<Address>, l: Ledger, a: seq<Event>, b: seq<Event>, r: Rules)
    requires Clean(exact, w, l, a, r) && Clean(exact, w, Run(l, a, r), b, r)
    ensures Clean(exact, w, l, a + b, r)
  {
    if b == [] {
      assert a + b == a;
    } else {
      var rest, e := b[..|b| - 1], b[|b| - 1];
      CleanConcat(exact, w, l, a, rest, r);
      RunConcat(l, a, rest, r);
      assert (a + b)[..|a + b| - 1] == a + rest && (a + b)[|a + b| - 1] == e;
    }
  }
}
