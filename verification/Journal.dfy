/** The journal of a state: what each entry undoes, on values. */
module Journal {
  import opened Bytes
  import opened Plasma

  datatype Entry =
    | OwnerChange(tokenID: UInt64, prevOwner: Address)
    | PrevBlockChange(tokenID: UInt64, prevBlock: nat)
    | BalanceChange(tokenID: UInt64, prevBalance: UInt64, prevAllowance: UInt64)
    | WithdrawChange(tokenID: UInt64, prevAllowance: UInt64, prevSpent: UInt64)
    | AccountTokenChange(addr: Address, prev: Account)
    | AccountBalanceChange(addr: Address, prevAcctBalance: int)
    | ChainOwnerChange(chainID: UInt64, prevOwners: seq<Address>)
    | AnchorBlockChange(chainID: UInt64, prevStart: UInt64, prevEnd: UInt64)

  /** A change to the account of `a`, seen only if the account is registered. */
  function WithAccount(v: View, a: Address, acct: Account): View {
    if a in v.accounts then v.(accounts := v.accounts[a := acct]) else v
  }

  function WithChain(v: View, id: UInt64, ch: Chain): View {
    if id in v.chains then v.(chains := v.chains[id := ch]) else v
  }

  lemma AccountTwice(v: View, a: Address, b: Address, x: Account, y: Account, z: Account)
    requires a != b
    ensures WithAccount(WithAccount(WithAccount(v, a, x), b, y), a, z) == WithAccount(WithAccount(v, a, z), b, y)
  {
    if a in v.accounts && b in v.accounts {
      assert v.accounts[a := x][b := y][a := z] == v.accounts[a := z][b := y];
    } else if a in v.accounts {
      assert v.accounts[a := x][a := z] == v.accounts[a := z];
    }
  }

  lemma ChainTwice(v: View, id: UInt64, x: Chain, y: Chain)
    ensures WithChain(WithChain(v, id, x), id, y) == WithChain(v, id, y)
    ensures id in v.chains && v.chains[id] == x ==> WithChain(v, id, x) == v
  {
    if id in v.chains {
      assert v.chains[id := x][id := y] == v.chains[id := y];
      assert v.chains[id] == x ==> v.chains[id := x] == v.chains;
    }
  }

  /** Undoing an entry. A token entry is undone on an object read afresh from storage, so it
      changes nothing pending; an account or chain entry reaches the registered object. */
  function Undo(v: View, e: Entry): View {
    match e
    case AccountTokenChange(a, prev) => WithAccount(v, a, prev)
    case AccountBalanceChange(a, b) =>
      if a in v.accounts then WithAccount(v, a, v.accounts[a].(balance := b)) else v
    case ChainOwnerChange(id, owners) =>
      if id in v.chains then WithChain(v, id, v.chains[id].(owners := owners)) else v
    case AnchorBlockChange(id, start, end) =>
      if id in v.chains then WithChain(v, id, v.chains[id].(start := start, end := end)) else v
    case _ => v
  }

  /** Account entries are undone exactly, whether or not the account is registered. */
  lemma AccountUndone(v: View, a: Address, was: Account, now: Account)
    requires a in v.accounts ==> v.accounts[a] == was
    ensures Undo(WithAccount(v, a, now), AccountTokenChange(a, was)) == v
    ensures now == was.(balance := now.balance) ==>
      Undo(WithAccount(v, a, now), AccountBalanceChange(a, was.balance)) == v
  {
    if a in v.accounts {
      assert v.accounts[a := now][a := was] == v.accounts;
    }
  }

  lemma OwnersUndone(v: View, id: UInt64, was: Chain, owners: seq<Address>)
    requires id in v.chains ==> v.chains[id] == was
    ensures Undo(WithChain(v, id, was.(owners := owners)), ChainOwnerChange(id, was.owners)) == v
  {
    if id in v.chains {
      assert v.chains[id := was.(owners := owners)][id := was] == v.chains;
    }
  }

  /** A range entry keeps the end block in both places: on a registered chain it is undone
      exactly when the chain's first and last anchors of the block were the same. */
  lemma RangeUndoneIff(v: View, id: UInt64, was: Chain, now: Chain)
    requires id in v.chains && v.chains[id] == was && now.owners == was.owners
    ensures Undo(WithChain(v, id, now), AnchorBlockChange(id, was.end, was.end)) == v <==> was.start == was.end
  {
    var back := Undo(WithChain(v, id, now), AnchorBlockChange(id, was.end, was.end));
    assert back.chains[id] == was.(start := was.end);
    if was.start == was.end { assert back.chains == v.chains; }
  }

  function UndoAll(v: View, es: seq<Entry>): View
    decreases |es|
  {
    if es == [] then v else UndoAll(Undo(v, es[|es| - 1]), es[..|es| - 1])
  }

  lemma UndoLast(v: View, es: seq<Entry>, e: Entry)
    ensures UndoAll(v, es + [e]) == UndoAll(Undo(v, e), es)
  {
    assert (es + [e])[..|es|] == es;
  }

  /** An entry that is undone by its own change leaves what an earlier mark undoes to. */
  lemma UndoneSame(j: seq<Entry>, e: Entry, v: View, v': View, mark: nat)
    requires mark <= |j| && Undo(v', e) == v
    ensures UndoAll(v', (j + [e])[mark..]) == UndoAll(v, j[mark..])
  {
    assert (j + [e])[mark..] == j[mark..] + [e];
    UndoLast(v', j[mark..], e);
  }

  /** Undoing to an inner snapshot and then to an outer one is undoing to the outer one. */
  lemma {:induction false} UndoNested(v: View, outer: seq<Entry>, inner: seq<Entry>)
    ensures UndoAll(v, outer + inner) == UndoAll(UndoAll(v, inner), outer)
    decreases |inner|
  {
    if inner == [] {
      assert outer + inner == outer;
    } else {
      var rest, e := inner[..|inner| - 1], inner[|inner| - 1];
      assert inner == rest + [e];
      assert outer + inner == (outer + rest) + [e];
      UndoLast(v, outer + rest, e);
      UndoNested(Undo(v, e), outer, rest);
    }
  }

  /** The two views have the same tokens, flags, transactions and anchors, and the same accounts and
      chains registered. */
  predicate SameEntered(v: View, w: View) {
    && v.tokens == w.tokens && v.isSet == w.isSet && v.hashes == w.hashes && v.anchors == w.anchors
    && v.chainSet == w.chainSet && v.accounts.Keys == w.accounts.Keys && v.chains.Keys == w.chains.Keys
  }

  /** Undoing takes nothing back that has been entered. */
  lemma {:induction false} UndoKeeps(v: View, es: seq<Entry>)
    ensures SameEntered(v, UndoAll(v, es))
    decreases |es|
  {
    if es != [] {
      UndoKeepsOne(v, es[|es| - 1]);
      UndoKeeps(Undo(v, es[|es| - 1]), es[..|es| - 1]);
    }
  }

  lemma UndoKeepsOne(v: View, e: Entry)
    ensures SameEntered(v, Undo(v, e))
  {
  }

  datatype Revision = Revision(id: int, journalIndex: nat)

  /** Snapshots are numbered upwards and mark ever later places of the journal. */
  predicate RevisionsOk(rs: seq<Revision>, length: nat, next: int) {
    && (forall i, j :: 0 <= i < j < |rs| ==> rs[i].id < rs[j].id && rs[i].journalIndex <= rs[j].journalIndex)
    && (forall i :: 0 <= i < |rs| ==> rs[i].id < next && rs[i].journalIndex <= length)
  }

  /** The first snapshot numbered `id` or more, as a binary search finds it. */
  method Search(rs: seq<Revision>, id: int) returns (k: nat)
    requires forall i, j :: 0 <= i < j < |rs| ==> rs[i].id < rs[j].id
    ensures k <= |rs|
    ensures forall i :: 0 <= i < k ==> rs[i].id < id
    ensures forall i :: k <= i < |rs| ==> rs[i].id >= id
  {
    var hi := |rs|;
    k := 0;
    while k < hi
      invariant k <= hi <= |rs|
      invariant forall i :: 0 <= i < k ==> rs[i].id < id
      invariant forall i :: hi <= i < |rs| ==> rs[i].id >= id
    {
      var mid := (k + hi) / 2;
      if rs[mid].id >= id { hi := mid; } else { k := mid + 1; }
    }
  }
}
