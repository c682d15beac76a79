/** The transaction pool: two lists kept without duplicates, sorted when read. */
module Pool {
  import opened Bytes
  import opened Plasma
  import opened Minting

  // ----- Sorting -----

  predicate Leq(a: (nat, nat), b: (nat, nat)) {
    a.0 < b.0 || (a.0 == b.0 && a.1 <= b.1)
  }

  ghost predicate Sorted<T>(s: seq<T>, key: T -> (nat, nat)) {
    forall i, j :: 0 <= i < j < |s| ==> Leq(key(s[i]), key(s[j]))
  }

  method Insert<T>(s: seq<T>, key: T -> (nat, nat), x: T) returns (r: seq<T>)
    requires Sorted(s, key)
    ensures Sorted(r, key) && multiset(r) == multiset(s) + multiset{x}
  {
    var k := |s|;
    while k > 0 && !Leq(key(s[k - 1]), key(x))
      invariant 0 <= k <= |s|
      invariant forall i :: k <= i < |s| ==> Leq(key(x), key(s[i]))
    {
      k := k - 1;
    }
    r := s[..k] + [x] + s[k..];
    SortedInsert(s, key, x, k);
    SameEntries(s, x, k);
  }

  lemma SameEntries<T>(s: seq<T>, x: T, k: nat)
    requires k <= |s|
    ensures multiset(s[..k] + [x] + s[k..]) == multiset(s) + multiset{x}
  {
    assert s == s[..k] + s[k..];
  }

  lemma SortedInsert<T>(s: seq<T>, key: T -> (nat, nat), x: T, k: nat)
    requires Sorted(s, key) && k <= |s|
    requires k > 0 ==> Leq(key(s[k - 1]), key(x))
    requires forall i :: k <= i < |s| ==> Leq(key(x), key(s[i]))
    ensures Sorted(s[..k] + [x] + s[k..], key)
  {
    var r := s[..k] + [x] + s[k..];
    forall i, j | 0 <= i < j < |r| ensures Leq(key(r[i]), key(r[j])) {
      assert r[i] == if i < k then s[i] else if i == k then x else s[i - 1];
      assert r[j] == if j < k then s[j] else if j == k then x else s[j - 1];
      assert i < k - 1 ==> Leq(key(s[i]), key(s[k - 1]));
    }
  }

  method Sort<T>(s: seq<T>, key: T -> (nat, nat)) returns (r: seq<T>)
    ensures Sorted(r, key) && multiset(r) == multiset(s)
  {
    r := [];
    for i := 0 to |s|
      invariant Sorted(r, key) && multiset(r) == multiset(s[..i])
    {
      r := Insert(r, key, s[i]);
      assert s[..i + 1] == s[..i] + [s[i]];
    }
    assert s[..|s|] == s;
  }

  // ----- The pool -----

  function TxOrder(tx: Tx): (nat, nat) { (tx.tokenID, tx.prevBlock) }
  function AnchorOrder(tx: AnchorTx): (nat, nat) { (tx.chainID, tx.number) }

  function Transfers(txs: seq<Tx>): (r: seq<Transaction>)
    ensures |r| == |txs| && forall i :: 0 <= i < |r| ==> r[i] == Transfer(txs[i])
  {
    seq(|txs|, i requires 0 <= i < |txs| => Transfer(txs[i]))
  }

  function Anchors(txs: seq<AnchorTx>): (r: seq<Transaction>)
    ensures |r| == |txs| && forall i :: 0 <= i < |r| ==> r[i] == Anchor(txs[i])
  {
    seq(|txs|, i requires 0 <= i < |txs| => Anchor(txs[i]))
  }

  /** Transfers before anchors; transfers by token and previous block, anchors by chain and number. */
  predicate Precedes(a: Transaction, b: Transaction) {
    match a
    case Transfer(x) => b.Transfer? ==> Leq(TxOrder(x), TxOrder(b.tx))
    case Anchor(x) => b.Anchor? && Leq(AnchorOrder(x), AnchorOrder(b.atx))
  }

  predicate Ordered(ts: seq<Transaction>) {
    forall i, j :: 0 <= i < j < |ts| ==> Precedes(ts[i], ts[j])
  }

  /** No two entries have the same hash. */
  predicate Distinct(ts: seq<Transaction>) {
    forall i, j :: 0 <= i < j < |ts| ==> HashOf(ts[i]) != HashOf(ts[j])
  }

  function CutAt(ts: seq<Transaction>, k: nat): seq<Transaction>
    requires k < |ts|
  {
    ts[..k] + ts[k + 1..]
  }

  class TxPool {
    var txpool: seq<Tx>
    var wtxpool: seq<AnchorTx>

    ghost function All(): seq<Transaction>
      reads this
    {
      Transfers(txpool) + Anchors(wtxpool)
    }

    constructor ()
      ensures txpool == [] && wtxpool == []
    {
      txpool, wtxpool := [], [];
    }

    /** Hashes are distinct, and every deposit hashes to its token. */
    ghost predicate Sound(key: TokenKey)
      reads this
    {
      Distinct(All()) && AllNamed(All(), key)
    }

    /** Adds a transaction unless one with its hash is there. */
    method AddTransaction(tx: Tx, ghost key: TokenKey)
      modifies `txpool
      ensures txpool == if tx.hash in TxHashes(old(txpool)) then old(txpool) else old(txpool) + [tx]
      ensures old(Sound(key)) && Named(tx, key) && tx.hash !in AnchorHashes(wtxpool) ==> Sound(key)
    {
      for i := 0 to |txpool|
        invariant forall j :: 0 <= j < i ==> txpool[j].hash != tx.hash
      {
        if txpool[i].hash == tx.hash { return; }
      }
      txpool := txpool + [tx];
      AddedTransfer(old(txpool), tx, wtxpool, key);
    }

    method AddAnchorTransaction(tx: AnchorTx, ghost key: TokenKey)
      modifies `wtxpool
      ensures wtxpool == if tx.hash in AnchorHashes(old(wtxpool)) then old(wtxpool) else old(wtxpool) + [tx]
      ensures old(Sound(key)) && tx.hash !in TxHashes(txpool) ==> Sound(key)
    {
      for i := 0 to |wtxpool|
        invariant forall j :: 0 <= j < i ==> wtxpool[j].hash != tx.hash
      {
        if wtxpool[i].hash == tx.hash { return; }
      }
      wtxpool := wtxpool + [tx];
      AddedAnchor(txpool, old(wtxpool), tx, key);
    }

    /** Sorts both lists and gives all transactions: the transfers by token and previous block, then the
        anchors by chain and number. */
    method GetTransactions() returns (ts: seq<Transaction>)
      modifies this
      ensures ts == All() && Ordered(ts)
      ensures forall i, j :: 0 <= i < j < |ts| && ts[i].Anchor? ==> ts[j].Anchor?
      ensures forall i, j :: 0 <= i < j < |ts| && ts[i].Transfer? && ts[j].Transfer? ==>
        ts[i].tx.tokenID < ts[j].tx.tokenID ||
        (ts[i].tx.tokenID == ts[j].tx.tokenID && ts[i].tx.prevBlock <= ts[j].tx.prevBlock)
      ensures forall i, j :: 0 <= i < j < |ts| && ts[i].Anchor? && ts[j].Anchor? ==>
        ts[i].atx.chainID < ts[j].atx.chainID ||
        (ts[i].atx.chainID == ts[j].atx.chainID && ts[i].atx.number <= ts[j].atx.number)
      ensures multiset(txpool) == old(multiset(txpool)) && multiset(wtxpool) == old(multiset(wtxpool))
    {
      txpool := Sort(txpool, TxOrder);
      ts := Transfers(txpool);
      wtxpool := Sort(wtxpool, AnchorOrder);
      ts := ts + Anchors(wtxpool);
    }

    /** Removes the first entry with the given hash. */
    method RemoveTransaction(hash: nat) returns (ok: bool, ghost k: nat)
      modifies this
      ensures ok ==> k < |old(All())| && HashOf(old(All())[k]) == hash && All() == CutAt(old(All()), k)
      ensures ok ==> forall i :: 0 <= i < k ==> HashOf(old(All())[i]) != hash
      ensures !ok ==> All() == old(All()) && forall i :: 0 <= i < |All()| ==> HashOf(All()[i]) != hash
    {
      for i := 0 to |txpool|
        invariant txpool == old(txpool) && wtxpool == old(wtxpool)
        invariant forall j :: 0 <= j < i ==> txpool[j].hash != hash
      {
        if txpool[i].hash == hash {
          txpool := txpool[..i] + txpool[i + 1..];
          assert All() == CutAt(old(All()), i);
          return true, i;
        }
      }
      ok, k := RemoveAnchor(hash);
    }

    /** The same for a hash that no transfer has. */
    method RemoveAnchor(hash: nat) returns (ok: bool, ghost k: nat)
      requires forall i :: 0 <= i < |txpool| ==> txpool[i].hash != hash
      modifies `wtxpool
      ensures ok ==> k < |old(All())| && HashOf(old(All())[k]) == hash && All() == CutAt(old(All()), k)
      ensures ok ==> forall i :: 0 <= i < k ==> HashOf(old(All())[i]) != hash
      ensures !ok ==> All() == old(All()) && forall i :: 0 <= i < |All()| ==> HashOf(All()[i]) != hash
    {
      for i := 0 to |wtxpool|
        invariant wtxpool == old(wtxpool) && forall j :: 0 <= j < i ==> wtxpool[j].hash != hash
      {
        if wtxpool[i].hash == hash {
          wtxpool := wtxpool[..i] + wtxpool[i + 1..];
          assert All() == CutAt(old(All()), |txpool| + i);
          return true, |txpool| + i;
        }
      }
      return false, 0;
    }
  }

  function TxHashes(txs: seq<Tx>): set<nat> { set tx | tx in txs :: tx.hash }
  function AnchorHashes(txs: seq<AnchorTx>): set<nat> { set tx | tx in txs :: tx.hash }

  ghost predicate SoundLists(a: seq<Tx>, b: seq<AnchorTx>, key: TokenKey) {
    Distinct(Transfers(a) + Anchors(b)) && AllNamed(Transfers(a) + Anchors(b), key)
  }

  /** Two lists are sound exactly when hashes differ within each and across, and deposits are named. */
  lemma SoundIff(a: seq<Tx>, b: seq<AnchorTx>, key: TokenKey)
    ensures SoundLists(a, b, key) <==>
      && (forall i, j :: 0 <= i < j < |a| ==> a[i].hash != a[j].hash)
      && (forall i, j :: 0 <= i < j < |b| ==> b[i].hash != b[j].hash)
      && (forall i, j :: 0 <= i < |a| && 0 <= j < |b| ==> a[i].hash != b[j].hash)
      && (forall i :: 0 <= i < |a| ==> Named(a[i], key))
  {
    var ts := Transfers(a) + Anchors(b);
    assert forall i :: 0 <= i < |a| ==> ts[i] == Transfer(a[i]);
    assert forall j :: 0 <= j < |b| ==> ts[|a| + j] == Anchor(b[j]);
    if SoundLists(a, b, key) {
      forall i, j | 0 <= i < |a| && 0 <= j < |b| ensures a[i].hash != b[j].hash {
        assert HashOf(ts[i]) != HashOf(ts[|a| + j]);
      }
      forall i, j | 0 <= i < j < |b| ensures b[i].hash != b[j].hash {
        assert HashOf(ts[|a| + i]) != HashOf(ts[|a| + j]);
      }
      forall i | 0 <= i < |a| ensures Named(a[i], key) {
        assert ts[i] in ts;
      }
    }
  }

  lemma AddedTransfer(a: seq<Tx>, tx: Tx, b: seq<AnchorTx>, key: TokenKey)
    requires tx.hash !in TxHashes(a)
    ensures SoundLists(a, b, key) && Named(tx, key) && tx.hash !in AnchorHashes(b) ==> SoundLists(a + [tx], b, key)
  {
    SoundIff(a, b, key);
    SoundIff(a + [tx], b, key);
    assert forall i :: 0 <= i < |a| ==> a[i].hash in TxHashes(a);
    assert forall i :: 0 <= i < |b| ==> b[i].hash in AnchorHashes(b);
  }

  lemma AddedAnchor(a: seq<Tx>, b: seq<AnchorTx>, tx: AnchorTx, key: TokenKey)
    requires tx.hash !in AnchorHashes(b)
    ensures SoundLists(a, b, key) && tx.hash !in TxHashes(a) ==> SoundLists(a, b + [tx], key)
  {
    SoundIff(a, b, key);
    SoundIff(a, b + [tx], key);
    assert forall i :: 0 <= i < |a| ==> a[i].hash in TxHashes(a);
    assert forall i :: 0 <= i < |b| ==> b[i].hash in AnchorHashes(b);
  }

  // ----- Ways into the pool -----

  lemma AddsUp(d: UInt64, a: UInt64, s: UInt64)
    ensures ((d - a - s) % TWO_64 + a + s) % TWO_64 == d
  {
  }

  /** A transaction that is sent in, with the signer recovered from it: taken if it is signed by the
      previous owner, and, if it is a deposit, if that is the operator and it is named by its hash. A
      missing balance is filled in so that the amounts add up. */
  method SendPlasmaTransaction(pool: TxPool, tx: Tx, signer: Option<Address>, operator: Address, key: TokenKey)
    returns (ok: bool)
    modifies pool`txpool
    ensures ok <==>
      && signer == Some(tx.prevOwner)
      && (tx.prevBlock == 0 ==>
            key(tx.depositIndex, tx.denomination, tx.recipient) == tx.tokenID && tx.prevOwner == operator)
    ensures !ok || tx.hash in TxHashes(old(pool.txpool)) ==> pool.txpool == old(pool.txpool)
    ensures ok && tx.hash !in TxHashes(old(pool.txpool)) ==>
      && |pool.txpool| == |old(pool.txpool)| + 1 && pool.txpool == old(pool.txpool) + [pool.txpool[|old(pool.txpool)|]]
      && var e := pool.txpool[|old(pool.txpool)|];
         && e == tx.(balance := e.balance) && (tx.balance != 0 ==> e.balance == tx.balance)
         && (tx.balance == 0 ==> (e.balance + e.allowance + e.spent) % TWO_64 == e.denomination)
    ensures old(pool.Sound(key)) && tx.hash !in AnchorHashes(pool.wtxpool) ==> pool.Sound(key)
  {
    var filled := tx;
    if tx.balance == 0 {
      filled := tx.(balance := (tx.denomination - tx.allowance - tx.spent) % TWO_64);
      AddsUp(tx.denomination, tx.allowance, tx.spent);
    }
    if signer.None? || signer.value != filled.prevOwner { return false; }
    if filled.prevBlock == 0 {
      if key(filled.depositIndex, filled.denomination, filled.recipient) != filled.tokenID { return false; }
      if signer.value != operator { return false; }
    }
    pool.AddTransaction(filled, key);
    return true;
  }

  /** A deposit seen on the root chain becomes a transaction of the operator. */
  method ProcessDeposit(pool: TxPool, depositIndex: UInt64, denomination: UInt64, depositor: Address,
                        operator: Address, key: TokenKey, hash: nat)
    modifies pool`txpool
    ensures var id := key(depositIndex, denomination, depositor);
      var tx := Tx(id, denomination, depositIndex, 0, operator, depositor, 0, 0, denomination, hash);
      pool.txpool == if hash in TxHashes(old(pool.txpool)) then old(pool.txpool) else old(pool.txpool) + [tx]
    ensures old(pool.Sound(key)) && hash !in AnchorHashes(pool.wtxpool) ==> pool.Sound(key)
  {
    var id := key(depositIndex, denomination, depositor);
    pool.AddTransaction(Tx(id, denomination, depositIndex, 0, operator, depositor, 0, 0, denomination, hash), key);
  }

  // ----- Distinct hashes -----

  lemma {:induction false} Twice(ts: seq<Transaction>, i: nat, j: nat)
    requires i < j < |ts| && ts[i] == ts[j]
    ensures multiset(ts)[ts[i]] >= 2
  {
    assert ts == ts[..j] + ts[j..];
    assert ts[i] in ts[..j] && ts[j] in ts[j..];
  }

  lemma {:induction false} TwiceAt(ts: seq<Transaction>, t: Transaction)
    requires multiset(ts)[t] >= 2
    ensures exists i, j :: 0 <= i < j < |ts| && ts[i] == t && ts[j] == t
  {
    var rest := ts[..|ts| - 1];
    assert ts == rest + [ts[|ts| - 1]];
    if ts[|ts| - 1] == t {
      assert t in multiset(rest);
      var i :| 0 <= i < |rest| && rest[i] == t;
      assert ts[i] == t && ts[|ts| - 1] == t;
    } else {
      TwiceAt(rest, t);
      var i, j :| 0 <= i < j < |rest| && rest[i] == t && rest[j] == t;
      assert ts[i] == t && ts[j] == t;
    }
  }

  /** Sorting keeps hashes distinct. */
  lemma DistinctPermuted(ts: seq<Transaction>, ts': seq<Transaction>)
    requires Distinct(ts) && multiset(ts) == multiset(ts')
    ensures Distinct(ts')
  {
    forall i, j | 0 <= i < j < |ts'| ensures HashOf(ts'[i]) != HashOf(ts'[j]) {
      if ts'[i] == ts'[j] {
        Twice(ts', i, j);
        TwiceAt(ts, ts'[i]);
      } else {
        assert ts'[i] in multiset(ts) && ts'[j] in multiset(ts);
        var a :| 0 <= a < |ts| && ts[a] == ts'[i];
        var b :| 0 <= b < |ts| && ts[b] == ts'[j];
      }
    }
  }
}
