/** Layer-3 anchoring over runs: how the anchors of a chain are numbered and who owns it. */
module Anchoring {
  import opened Bytes
  import opened Plasma
  import opened Ownership
  import opened Ledger

  // ----- Owners -----

  predicate OwnersOk(owners: seq<Address>) { owners != [] && NoDup(owners) }

  lemma {:induction false} WithOwnersOk(owners: seq<Address>, added: seq<Address>)
    requires OwnersOk(owners)
    ensures OwnersOk(WithOwners(owners, added))
    ensures forall a :: a in WithOwners(owners, added) <==> a in owners || a in added
  {
    if added != [] {
      WithOwnersOk(owners, added[..|added| - 1]);
      assert added == added[..|added| - 1] + [added[|added| - 1]];
    }
  }

  lemma RemoveOneOk(owners: seq<Address>, a: Address, byValue: bool)
    requires OwnersOk(owners) && |owners| > 1
    ensures OwnersOk(OwnersWithout(owners, a, byValue))
  {
    WithoutMembers(owners, a);
    var other := if owners[0] == a then owners[1] else owners[0];
    assert other in owners && other in Without(owners, a);
  }

  lemma {:induction false} WithoutOwnersOk(owners: seq<Address>, removed: seq<Address>, byValue: bool)
    requires OwnersOk(owners) && WithoutOwners(owners, removed, byValue).Some?
    ensures OwnersOk(WithoutOwners(owners, removed, byValue).value)
  {
    if removed != [] {
      var rest := removed[..|removed| - 1];
      WithoutOwnersOk(owners, rest, byValue);
      var o := WithoutOwners(owners, rest, byValue).value;
      if |o| > 1 { RemoveOneOk(o, removed[|removed| - 1], byValue); }
    }
  }

  lemma AcceptedOwnersOk(ch: Chain, tx: AnchorTx, byValue: bool)
    requires tx.number == 0 || OwnersOk(ch.owners)
    requires OwnersAfter(ch, tx, byValue).Some?
    ensures OwnersOk(OwnersAfter(ch, tx, byValue).value)
  {
    if tx.number == 0 {
      WithOwnersOk([tx.signer.value], tx.added);
    } else {
      WithOwnersOk(ch.owners, tx.added);
      WithoutOwnersOk(WithOwners(ch.owners, tx.added), tx.removed, byValue);
    }
  }

  // ----- Numbering -----

  /** All anchors of a chain in the sealed blocks, in order. */
  function AllAnchors(log: seq<AnchorBlock>, id: UInt64): seq<AnchorTx> {
    if log == [] then []
    else AllAnchors(log[..|log| - 1], id) + AnchorsIn(log[|log| - 1], id)
  }

  function AnchorsIn(b: AnchorBlock, id: UInt64): seq<AnchorTx> {
    if id in b then b[id] else []
  }

  /** The number of the first anchor in the latest block that anchored the chain. */
  function LatestStart(log: seq<AnchorBlock>, id: UInt64): UInt64 {
    if log == [] then 0
    else if AnchorsIn(log[|log| - 1], id) != [] then AnchorsIn(log[|log| - 1], id)[0].number
    else LatestStart(log[..|log| - 1], id)
  }

  /** Numbered 0, 1, 2 and so on, without gap or repeat. */
  predicate InOrder(s: seq<AnchorTx>) {
    forall i :: 0 <= i < |s| ==> s[i].number == i
  }

  predicate Registered(ch: Chain, s: seq<AnchorTx>, start: UInt64) {
    OwnersOk(ch.owners) && s != [] && ch.end == |s| - 1 && ch.start == start
  }

  predicate StoredChain(l: Ledger, id: UInt64) {
    var s := AllAnchors(l.anchorLog, id);
    && InOrder(s)
    && (id in l.c.chains <==> s != [])
    && (id in l.c.chains ==> Registered(l.c.chains[id], s, LatestStart(l.anchorLog, id)))
  }

  predicate PendingChain(l: Ledger, id: UInt64) {
    && (id in l.v.chains <==> id in l.v.chainSet)
    && (id in l.v.chains <==> id in l.v.anchors)
    && (id in l.v.anchors ==>
          var s := AllAnchors(l.anchorLog, id) + l.v.anchors[id];
          l.v.anchors[id] != [] && InOrder(s) && Registered(l.v.chains[id], s, l.v.anchors[id][0].number))
  }

  ghost predicate Anchored(l: Ledger) {
    forall id {:trigger StoredChain(l, id)} {:trigger PendingChain(l, id)} :: StoredChain(l, id) && PendingChain(l, id)
  }

  lemma TryAnchored(l: Ledger, atx: AnchorTx, r: Rules, id: UInt64)
    requires Anchored(l) && AcceptsAnchor(l.c, l.v, atx, r.byValue)
    ensures PendingChain(Next(l, TryAnchor(atx), r), id)
  {
    assert StoredChain(l, id) && PendingChain(l, id);
    if id == atx.chainID {
      var was, block := AllAnchors(l.anchorLog, id), AnchorsIn(l.v.anchors, id);
      AcceptedOwnersOk(ChainOf(l.c, l.v, id), atx, r.byValue);
      assert (was + block) + [atx] == was + (block + [atx]);
      assert atx.number == |was + block|;
      assert InOrder((was + block) + [atx]);
    }
  }

  lemma SealAnchored(l: Ledger, order: seq<Address>, r: Rules, id: UInt64)
    requires Anchored(l)
    ensures StoredChain(Next(l, Seal(order), r), id)
  {
    assert StoredChain(l, id) && PendingChain(l, id);
    LogAppend(l.anchorLog, l.v.anchors, id);
    assert AllAnchors(l.anchorLog, id) + [] == AllAnchors(l.anchorLog, id);
  }

  lemma LogAppend(log: seq<AnchorBlock>, b: AnchorBlock, id: UInt64)
    ensures AllAnchors(log + [b], id) == AllAnchors(log, id) + AnchorsIn(b, id)
    ensures LatestStart(log + [b], id) ==
      if AnchorsIn(b, id) != [] then AnchorsIn(b, id)[0].number else LatestStart(log, id)
  {
    assert (log + [b])[..|log|] == log;
  }

  lemma NextAnchored(l: Ledger, e: Event, r: Rules)
    requires Anchored(l)
    ensures Anchored(Next(l, e, r))
  {
    var l' := Next(l, e, r);
    forall id ensures StoredChain(l', id) && PendingChain(l', id) {
      assert StoredChain(l, id) && PendingChain(l, id);
      if e.TryAnchor? && AcceptsAnchor(l.c, l.v, e.atx, r.byValue) { TryAnchored(l, e.atx, r, id); }
      if e.Seal? { SealAnchored(l, e.order, r, id); }
    }
  }

  /** Over every run, whichever way owners are compared: the anchors of a chain in the sealed
      blocks are numbered 0 to its end block without gap or repeat, its start block is the first
      in the latest block that anchored it, and it has an owner and no owner twice. */
  lemma {:induction false} RunAnchored(es: seq<Event>, r: Rules)
    ensures Anchored(Run(GENESIS, es, r))
  {
    if es == [] {
      forall id ensures StoredChain(GENESIS, id) && PendingChain(GENESIS, id) {}
    } else {
      RunAnchored(es[..|es| - 1], r);
      NextAnchored(Run(GENESIS, es[..|es| - 1], r), es[|es| - 1], r);
    }
  }

  // ----- Who may anchor -----

  /** The signer as the code takes it after anchor 0: a signature that does not recover gives zero. */
  function SignerOf(tx: AnchorTx): Address { if tx.signer.Some? then tx.signer.value else 0 }

  /** The chain an anchor is for: pending, or else stored, or else one without owners. */
  function Before(l: Ledger, id: UInt64): Chain {
    if id in l.v.chains then l.v.chains[id] else if id in l.c.chains then l.c.chains[id] else Chain([], 0, 0)
  }

  /** Two different addresses are owners or added, or nobody who is one of them is removed. */
  ghost predicate LeavesOwner(owners: seq<Address>, tx: AnchorTx) {
    || (exists a, b :: a != b && (a in owners || a in tx.added) && (b in owners || b in tx.added))
    || (forall a :: a in tx.removed ==> a !in owners && a !in tx.added)
  }

  /** The first anchor of a chain: of one without owners, signed, and removing nobody. A later one: the
      next in number, signed by an owner, and leaving one. */
  ghost predicate MayAnchor(ch: Chain, tx: AnchorTx) {
    if tx.number == 0 then ch.owners == [] && tx.signer.Some? && tx.removed == []
    else
      ch.owners != [] && tx.number == ch.end + 1 && SignerOf(tx) in ch.owners && LeavesOwner(ch.owners, tx)
  }

  lemma {:induction false} WithoutNone(owners: seq<Address>, removed: seq<Address>)
    ensures WithoutOwners(owners, removed, false) ==
      if |owners| == 1 && owners[0] in removed then None else Some(owners)
  {
    if removed != [] {
      var rest := removed[..|removed| - 1];
      assert removed == rest + [removed[|removed| - 1]];
      WithoutNone(owners, rest);
    }
  }

  lemma LeavesIff(owners: seq<Address>, tx: AnchorTx, o: seq<Address>)
    requires OwnersOk(o) && forall a :: a in o <==> a in owners || a in tx.added
    ensures LeavesOwner(owners, tx) <==> !(|o| == 1 && o[0] in tx.removed)
  {
    if |o| > 1 { assert o[0] in o && o[1] in o && o[0] != o[1]; }
  }

  lemma MayIff(ch: Chain, tx: AnchorTx)
    requires ch.owners == [] || OwnersOk(ch.owners)
    requires ch.owners == [] ==> ch.end == 0
    ensures OwnersAfter(ch, tx, false).Some? <==> MayAnchor(ch, tx)
    ensures MayAnchor(ch, tx) ==> forall a ::
      a in OwnersAfter(ch, tx, false).value <==>
      a in ch.owners || a in tx.added || (tx.number == 0 && Some(a) == tx.signer)
  {
    if tx.number == 0 {
      if tx.signer.Some? { WithOwnersOk([tx.signer.value], tx.added); }
    } else if ch.owners != [] {
      var o := WithOwners(ch.owners, tx.added);
      WithOwnersOk(ch.owners, tx.added);
      WithoutNone(o, tx.removed);
      LeavesIff(ch.owners, tx, o);
    }
  }

  lemma ChainNow(l: Ledger, id: UInt64)
    requires Anchored(l)
    ensures var ch := Before(l, id);
      && ch == ChainOf(l.c, l.v, id) && (ch.owners == [] || OwnersOk(ch.owners)) && (ch.owners == [] ==> ch.end == 0)
      && (id in l.v.chainSet <==> id in l.v.chains)
  {
    assert StoredChain(l, id) && PendingChain(l, id);
  }

  /** In every reachable ledger an anchor enters the block exactly when it may, and its lookup does not
      panic. It then moves its chain's range to its number and adds its owners, and is listed; nothing
      else changes. Otherwise nothing changes at all. */
  lemma AnchorIff(l: Ledger, tx: AnchorTx, r: Rules)
    requires Anchored(l) && !r.byValue
    ensures var ch, v, v', id := Before(l, tx.chainID), l.v, Next(l, TryAnchor(tx), r).v, tx.chainID;
      if MayAnchor(ch, tx) && !BreaksChain(l.c, v, id) then
        && AcceptsAnchor(l.c, v, tx, false) && id in v'.chains && v'.chains[id].end == tx.number
        && v'.chains[id].start == (if id in v.chains then ch.start else tx.number)
        && (forall a :: a in v'.chains[id].owners <==>
              a in ch.owners || a in tx.added || (tx.number == 0 && Some(a) == tx.signer))
        && v'.anchors == v.anchors[id := (if id in v.anchors then v.anchors[id] else []) + [tx]]
        && (forall x :: x in v'.chains <==> x in v.chains || x == id)
        && (forall x :: x in v.chains && x != id ==> v'.chains[x] == v.chains[x])
        && v'.tokens == v.tokens && v'.isSet == v.isSet && v'.accounts == v.accounts && v'.hashes == v.hashes
      else v' == v && !AcceptsAnchor(l.c, v, tx, false)
  {
    ChainNow(l, tx.chainID);
    MayIff(Before(l, tx.chainID), tx);
  }

  // ----- Who owns a chain -----

  /** The owners after the first `n` anchors of a chain: the signer of the first, everyone added and, when
      owners are compared by value, nobody removed since. */
  function Owners(s: seq<AnchorTx>, n: nat, byValue: bool): set<Address>
    requires n <= |s|
  {
    if n == 0 then {}
    else
      var tx := s[n - 1];
      Owners(s, n - 1, byValue) + (set a | a in tx.added) + (if n == 1 then {SignerOf(tx)} else {})
        - (if byValue then set a | a in tx.removed else {})
  }

  /** Anchor `i` is signed by someone who owned the chain just before it, or is the first and signed. */
  predicate Authorized(s: seq<AnchorTx>, i: nat, byValue: bool)
    requires i < |s|
  {
    if i == 0 then s[i].signer.Some? && s[i].removed == [] else SignerOf(s[i]) in Owners(s, i, byValue)
  }

  predicate AllAuthorized(s: seq<AnchorTx>, byValue: bool) {
    forall i {:trigger Authorized(s, i, byValue)} :: 0 <= i < |s| ==> Authorized(s, i, byValue)
  }

  ghost predicate HasOwners(ch: Chain, s: seq<AnchorTx>, byValue: bool) {
    forall a :: a in ch.owners <==> a in Owners(s, |s|, byValue)
  }

  lemma {:induction false} OwnersPrefix(s: seq<AnchorTx>, tx: AnchorTx, n: nat, byValue: bool)
    requires n <= |s|
    ensures Owners(s + [tx], n, byValue) == Owners(s, n, byValue)
  {
    if n > 0 { OwnersPrefix(s, tx, n - 1, byValue); }
  }

  /** Owners after removals. */
  lemma {:induction false} RemovedMembers(owners: seq<Address>, removed: seq<Address>, byValue: bool)
    requires WithoutOwners(owners, removed, byValue).Some?
    ensures forall a :: a in WithoutOwners(owners, removed, byValue).value <==>
      a in owners && !(byValue && a in removed)
  {
    if removed != [] {
      var rest, x := removed[..|removed| - 1], removed[|removed| - 1];
      assert removed == rest + [x];
      RemovedMembers(owners, rest, byValue);
      WithoutMembers(WithoutOwners(owners, rest, byValue).value, x);
    }
  }

  /** One anchor more. */
  lemma OwnersStep(ch: Chain, s: seq<AnchorTx>, tx: AnchorTx, byValue: bool)
    requires OwnersAfter(ch, tx, byValue).Some? && HasOwners(ch, s, byValue) && AllAuthorized(s, byValue)
    requires tx.number == |s| && (s == [] ==> ch.owners == []) && (s != [] ==> OwnersOk(ch.owners))
    ensures AllAuthorized(s + [tx], byValue)
    ensures HasOwners(ch.(owners := OwnersAfter(ch, tx, byValue).value), s + [tx], byValue)
  {
    forall i | 0 <= i < |s + [tx]| ensures Authorized(s + [tx], i, byValue) {
      OwnersPrefix(s, tx, i, byValue);
      if i < |s| { assert Authorized(s, i, byValue); }
    }
    OwnersPrefix(s, tx, |s|, byValue);
    if tx.number == 0 {
      WithOwnersOk([tx.signer.value], tx.added);
    } else {
      WithOwnersOk(ch.owners, tx.added);
      RemovedMembers(WithOwners(ch.owners, tx.added), tx.removed, byValue);
    }
  }

  ghost predicate StoredOwners(l: Ledger, id: UInt64, byValue: bool) {
    var s := AllAnchors(l.anchorLog, id);
    AllAuthorized(s, byValue) && (id in l.c.chains ==> HasOwners(l.c.chains[id], s, byValue))
  }

  ghost predicate PendingOwners(l: Ledger, id: UInt64, byValue: bool) {
    id in l.v.anchors && id in l.v.chains ==>
      var s := AllAnchors(l.anchorLog, id) + l.v.anchors[id];
      AllAuthorized(s, byValue) && HasOwners(l.v.chains[id], s, byValue)
  }

  ghost predicate WellOwned(l: Ledger, byValue: bool) {
    forall id {:trigger StoredOwners(l, id, byValue)} {:trigger PendingOwners(l, id, byValue)} ::
      StoredOwners(l, id, byValue) && PendingOwners(l, id, byValue)
  }

  lemma TryOwned(l: Ledger, tx: AnchorTx, r: Rules, id: UInt64)
    requires Anchored(l) && WellOwned(l, r.byValue) && AcceptsAnchor(l.c, l.v, tx, r.byValue)
    ensures PendingOwners(Next(l, TryAnchor(tx), r), id, r.byValue)
  {
    assert StoredChain(l, id) && PendingChain(l, id);
    assert StoredOwners(l, id, r.byValue) && PendingOwners(l, id, r.byValue);
    if id == tx.chainID {
      var was, block := AllAnchors(l.anchorLog, id), AnchorsIn(l.v.anchors, id);
      assert was + [] == was;
      assert (was + block) + [tx] == was + (block + [tx]);
      OwnersStep(ChainOf(l.c, l.v, id), was + block, tx, r.byValue);
    }
  }

  lemma SealOwned(l: Ledger, order: seq<Address>, r: Rules, id: UInt64)
    requires Anchored(l) && WellOwned(l, r.byValue)
    ensures StoredOwners(Next(l, Seal(order), r), id, r.byValue)
  {
    assert StoredChain(l, id) && PendingChain(l, id);
    assert StoredOwners(l, id, r.byValue) && PendingOwners(l, id, r.byValue);
    LogAppend(l.anchorLog, l.v.anchors, id);
    assert AllAnchors(l.anchorLog, id) + [] == AllAnchors(l.anchorLog, id);
  }

  lemma NextWellOwned(l: Ledger, e: Event, r: Rules)
    requires Anchored(l) && WellOwned(l, r.byValue)
    ensures WellOwned(Next(l, e, r), r.byValue)
  {
    var l' := Next(l, e, r);
    forall id ensures StoredOwners(l', id, r.byValue) && PendingOwners(l', id, r.byValue) {
      assert StoredOwners(l, id, r.byValue) && PendingOwners(l, id, r.byValue);
      if e.TryAnchor? && AcceptsAnchor(l.c, l.v, e.atx, r.byValue) { TryOwned(l, e.atx, r, id); }
      if e.Seal? { SealOwned(l, e.order, r, id); }
    }
  }

  /** Over every run, whichever way owners are compared: every anchor of a chain was signed by an owner of
      the chain at that time, or is the first and signed; and the owners of a stored chain are exactly
      those the anchors have made and left. */
  lemma {:induction false} RunWellOwned(es: seq<Event>, r: Rules)
    ensures WellOwned(Run(GENESIS, es, r), r.byValue)
  {
    if es == [] {
      forall id ensures StoredOwners(GENESIS, id, r.byValue) && PendingOwners(GENESIS, id, r.byValue) {}
    } else {
      RunWellOwned(es[..|es| - 1], r);
      RunAnchored(es[..|es| - 1], r);
      NextWellOwned(Run(GENESIS, es[..|es| - 1], r), es[|es| - 1], r);
    }
  }

  lemma {:induction false} MadeOwner(s: seq<AnchorTx>, n: nat, a: Address, byValue: bool) returns (j: nat)
    requires n <= |s| && a in Owners(s, n, byValue)
    ensures j < n && (a in s[j].added || (j == 0 && a == SignerOf(s[0])))
  {
    if a in Owners(s, n - 1, byValue) { j := MadeOwner(s, n - 1, a, byValue); } else { j := n - 1; }
  }

  /** So each owner of a stored chain signed its anchor 0, or was added by it or by an anchor that an owner
      at that time signed. */
  lemma OwnerOrigin(es: seq<Event>, r: Rules, id: UInt64, a: Address) returns (j: nat)
    requires var c := Run(GENESIS, es, r).c; id in c.chains && a in c.chains[id].owners
    ensures var s := AllAnchors(Run(GENESIS, es, r).anchorLog, id);
      && j < |s| && (a in s[j].added || (j == 0 && s[0].signer == Some(a)))
      && (j > 0 ==> SignerOf(s[j]) in Owners(s, j, r.byValue))
  {
    var l := Run(GENESIS, es, r);
    var s := AllAnchors(l.anchorLog, id);
    RunWellOwned(es, r);
    assert StoredOwners(l, id, r.byValue);
    j := MadeOwner(s, |s|, a, r.byValue);
    assert Authorized(s, j, r.byValue) && Authorized(s, 0, r.byValue);
  }
}
