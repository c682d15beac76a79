/** Plasma transactions on values: tokens, accounts, and what a deposit or a transfer does to
    them. Storage is the state committed by earlier blocks; a view is what the block being
    built has changed so far. */
module Plasma {
  import opened Bytes

  /** A 20-byte address as a number. Accounts are stored under its last eight bytes. */
  type Address = nat

  function Short(a: Address): UInt64 { a % TWO_64 }

  datatype Token = Token(denomination: UInt64, prevBlock: nat, owner: Address,
                         balance: UInt64, allowance: UInt64, spent: UInt64)

  datatype Account = Account(tokens: seq<UInt64>, denomination: int, balance: int)

  /** A layer-3 chain: its owners and the range of anchors in the latest block that has any. */
  datatype Chain = Chain(owners: seq<Address>, start: UInt64, end: UInt64)

  datatype Tx = Tx(tokenID: UInt64, denomination: UInt64, depositIndex: UInt64, prevBlock: nat,
                   prevOwner: Address, recipient: Address,
                   allowance: UInt64, spent: UInt64, balance: UInt64, hash: nat)

  /** An anchor of a layer-3 block; the signer is absent when the signature does not recover. */
  datatype AnchorTx = AnchorTx(chainID: UInt64, number: UInt64, signer: Option<Address>,
                               added: seq<Address>, removed: seq<Address>, hash: nat)

  /** What the trees hold. An account that does not encode is stored as nothing that can be read. */
  datatype Storage = Storage(tokens: map<UInt64, Token>, accounts: map<UInt64, Option<Account>>,
                             chains: map<UInt64, Chain>)

  /** The pending objects of a state: registered tokens, accounts and chains, the flags that say
      which tokens and chains this block has touched, and the block's transactions. */
  datatype View = View(tokens: map<UInt64, Token>, isSet: set<UInt64>, hashes: map<UInt64, nat>,
                       accounts: map<Address, Account>, chains: map<UInt64, Chain>, chainSet: set<UInt64>,
                       anchors: map<UInt64, seq<AnchorTx>>)

  const NO_ACCOUNT := Account([], 0, 0)
  const NO_CHAIN := Chain([], 0, 0)
  const NO_VIEW := View(map[], {}, map[], map[], map[], {}, map[])

  /** The hash that names a deposit: of its index, denomination and depositor. */
  type TokenKey = (UInt64, UInt64, Address) -> UInt64

  // ----- Lookups -----

  /** The encoder refuses negative numbers. Its error is dropped, and the hash of nothing stored. */
  predicate Encodes(x: Account) { x.denomination >= 0 && x.balance >= 0 }

  function Encoding(x: Account): Option<Account> { if Encodes(x) then Some(x) else None }

  /** The stored entry of an address decodes, and the tree does not take its key for a branch. */
  predicate Decodes(c: Storage, a: Address) {
    Short(a) in c.accounts && Short(a) != 0 && c.accounts[Short(a)].Some?
  }

  /** How many half-bytes of a number there are after its leading zeros. */
  function Nibbles(x: nat): nat { if x == 0 then 0 else 1 + Nibbles(x / 16) }

  /** Looking a key up in a tree that was opened with these keys runs into the slot of the key zero,
      which has more leading zeros in common with no other key. What is stored there is taken for the
      hash of a node and loaded as one, which panics. */
  predicate Loads(keys: set<UInt64>, k: UInt64) {
    0 in keys && Nibbles(k) < 16 && forall s :: s in keys && s != 0 ==> Nibbles(k) < Nibbles(s)
  }

  predicate Breaks(c: Storage, v: View, a: Address) {
    a !in v.accounts && Loads(c.accounts.Keys, Short(a))
  }

  predicate BreaksChain(c: Storage, v: View, id: UInt64) {
    id !in v.chains && Loads(c.chains.Keys, id)
  }

  /** The account is pending, or stored so that it can be read, or not stored at all. */
  predicate Readable(c: Storage, v: View, a: Address) {
    a in v.accounts || (Short(a) !in c.accounts && !Breaks(c, v, a)) || Decodes(c, a)
  }

  /** What can be read of an account: nothing, if it is not there or lost. */
  function StoredAccount(c: Storage, a: Address): Account {
    if Decodes(c, a) then c.accounts[Short(a)].value else NO_ACCOUNT
  }

  function AccountOf(c: Storage, v: View, a: Address): Account {
    if a in v.accounts then v.accounts[a] else StoredAccount(c, a)
  }

  function ChainOf(c: Storage, v: View, id: UInt64): Chain {
    if id in v.chains then v.chains[id] else if id in c.chains then c.chains[id] else NO_CHAIN
  }

  /** All tokens: the stored ones overlaid by the pending ones. */
  function Tokens(c: Storage, v: View): map<UInt64, Token> {
    c.tokens + v.tokens
  }

  // ----- Changes to a token and to an account -----

  predicate ValidDenomination(t: Token) {
    t.denomination == (t.balance + t.spent + t.allowance) % TWO_64
  }

  /** A list without the entries equal to `x`. */
  function Without<T(==)>(s: seq<T>, x: T): seq<T> {
    if s == [] then []
    else if s[|s| - 1] == x then Without(s[..|s| - 1], x)
    else Without(s[..|s| - 1], x) + [s[|s| - 1]]
  }

  lemma {:induction false} WithoutConcat<T>(s: seq<T>, t: seq<T>, x: T)
    ensures Without(s + t, x) == Without(s, x) + Without(t, x)
  {
    if t == [] {
      assert s + t == s;
    } else {
      WithoutConcat(s, t[..|t| - 1], x);
      assert (s + t)[..|s + t| - 1] == s + t[..|t| - 1];
    }
  }

  lemma {:induction false} WithoutAbsent<T>(s: seq<T>, x: T)
    requires x !in s
    ensures Without(s, x) == s
  {
    if s != [] {
      WithoutAbsent(s[..|s| - 1], x);
      assert s == s[..|s| - 1] + [s[|s| - 1]];
    }
  }

  function WithToken(a: Account, id: UInt64, t: Token): Account {
    Account(a.tokens + [id], a.denomination + t.denomination, a.balance + t.balance)
  }

  function WithoutToken(a: Account, id: UInt64, t: Token): Account {
    Account(Without(a.tokens, id), a.denomination - t.denomination, a.balance - t.balance)
  }

  /** What is consumed of a balance, as an unsigned number: it wraps when the balance grows. */
  function Consumption(t: Token, tx: Tx): UInt64 {
    (t.balance - tx.balance) % TWO_64
  }

  predicate Moves(t: Token, tx: Tx) { t.owner != tx.recipient }
  predicate Withdraws(t: Token, tx: Tx) { tx.spent > t.spent }
  predicate Consumes(t: Token, tx: Tx) { tx.balance != t.balance }

  /** The token after the ownership, withdrawal and balance changes of a transfer. */
  function Transferred(t: Token, tx: Tx, block: nat): Token {
    var t1 := if Moves(t, tx) then t.(owner := tx.recipient) else t;
    var t2 := if Withdraws(t, tx) then t1.(allowance := tx.allowance, spent := tx.spent) else t1;
    var t3 := if Consumes(t, tx) then t2.(balance := tx.balance, allowance := tx.allowance) else t2;
    t3.(prevBlock := block)
  }

  function RecipientAfter(r: Account, t: Token, tx: Tx): Account {
    var r1 := if Moves(t, tx) then WithToken(r, tx.tokenID, t) else r;
    if Consumes(t, tx) then r1.(balance := r1.balance - Consumption(t, tx)) else r1
  }

  function Deposited(tx: Tx, block: nat): Token {
    Token(tx.denomination, block, tx.recipient, tx.denomination, 0, 0)
  }

  // ----- Judging a transaction -----

  /** A transfer of the stored token `t` passes every check before the one-per-block check. */
  predicate TransferChecks(t: Token, tx: Tx) {
    && (t.prevBlock == tx.prevBlock || (t.prevBlock == 0 && t.denomination > 0))
    && t.owner == tx.prevOwner
    && ValidDenomination(t) && t.denomination == tx.denomination
    && tx.denomination == (tx.spent + tx.allowance + tx.balance) % TWO_64
  }

  /** Both accounts are looked up first. Only the recipient's has to be found. */
  predicate LooksUp(c: Storage, v: View, tx: Tx) {
    Readable(c, v, tx.recipient) && !Breaks(c, v, tx.prevOwner)
  }

  /** The transfer hands a token over whose sender's account is lost. */
  predicate Strands(c: Storage, v: View, tx: Tx) {
    && tx.prevBlock != 0 && tx.tokenID in c.tokens && TransferChecks(c.tokens[tx.tokenID], tx)
    && Moves(c.tokens[tx.tokenID], tx) && !Readable(c, v, tx.prevOwner)
  }

  /** Applying the transaction panics: in a lookup, or on the missing account of the sender. */
  predicate Panics(c: Storage, v: View, tx: Tx) {
    || Breaks(c, v, tx.prevOwner) || Breaks(c, v, tx.recipient)
    || (LooksUp(c, v, tx) && (Loads(c.tokens.Keys, tx.tokenID) || Strands(c, v, tx)))
  }

  predicate AcceptsDeposit(c: Storage, v: View, tx: Tx) {
    && LooksUp(c, v, tx) && !Loads(c.tokens.Keys, tx.tokenID)
    && tx.prevBlock == 0 && tx.tokenID !in c.tokens && tx.tokenID !in v.isSet
  }

  predicate AcceptsTransfer(c: Storage, v: View, tx: Tx) {
    && LooksUp(c, v, tx) && !Loads(c.tokens.Keys, tx.tokenID) && !Strands(c, v, tx)
    && tx.prevBlock != 0 && tx.tokenID in c.tokens && TransferChecks(c.tokens[tx.tokenID], tx)
    && tx.tokenID !in v.isSet
    && var t := c.tokens[tx.tokenID]; Moves(t, tx) || Withdraws(t, tx) || Consumes(t, tx)
  }

  /** A deposit that passes every check but is named by the wrong token: it is turned down
      only when the transaction is stored, after the token has been registered. */
  predicate RejectedLate(c: Storage, v: View, tx: Tx, key: TokenKey) {
    AcceptsDeposit(c, v, tx) && key(tx.depositIndex, tx.denomination, tx.recipient) != tx.tokenID
  }

  /** A deposit hashes to its token. */
  predicate Named(tx: Tx, key: TokenKey) {
    tx.prevBlock == 0 ==> key(tx.depositIndex, tx.denomination, tx.recipient) == tx.tokenID
  }

  predicate AcceptsTx(c: Storage, v: View, tx: Tx, key: TokenKey) {
    (AcceptsDeposit(c, v, tx) && !RejectedLate(c, v, tx, key)) || AcceptsTransfer(c, v, tx)
  }

  function Register(v: View, tx: Tx, t: Token, accounts: map<Address, Account>): View {
    v.(tokens := v.tokens[tx.tokenID := t], isSet := v.isSet + {tx.tokenID},
       hashes := v.hashes[tx.tokenID := tx.hash], accounts := accounts)
  }

  /** The view with a changed token, its recipient's account and, if it moved, its sender's. */
  function Settled(v: View, tx: Tx, t: Token, rec: Account, moved: bool, snd: Account): View {
    var accounts: map<Address, Account> := v.accounts[tx.recipient := rec];
    Register(v, tx, t, if moved then accounts[tx.prevOwner := snd] else accounts)
  }

  /** The view after an accepted transaction. */
  function AfterTx(c: Storage, v: View, block: nat, tx: Tx): View
    requires AcceptsDeposit(c, v, tx) || AcceptsTransfer(c, v, tx)
  {
    var rec, snd := AccountOf(c, v, tx.recipient), AccountOf(c, v, tx.prevOwner);
    if tx.prevBlock == 0 then
      var t := Deposited(tx, block);
      Settled(v, tx, t, WithToken(rec, tx.tokenID, t), false, snd)
    else
      var t := c.tokens[tx.tokenID];
      Settled(v, tx, Transferred(t, tx, block), RecipientAfter(rec, t, tx), Moves(t, tx),
              WithoutToken(snd, tx.tokenID, t))
  }

  /** The view after a late rejection is undone: the token stays registered, and so does the
      account it was meant for, with its former contents. */
  function LeftBehind(c: Storage, v: View, block: nat, tx: Tx): View {
    Register(v, tx, Deposited(tx, block), v.accounts[tx.recipient := AccountOf(c, v, tx.recipient)])
  }

  /** The view after a transaction is tried: applied, or rejected and undone. One that panics counts
      as rejected; the minter stops at it. */
  function Tried(c: Storage, v: View, block: nat, tx: Tx, key: TokenKey): View {
    if AcceptsTx(c, v, tx, key) then AfterTx(c, v, block, tx)
    else if RejectedLate(c, v, tx, key) then LeftBehind(c, v, block, tx)
    else v
  }

  // ----- Anchors -----

  /** Owners with those of `added` that are not owners yet. */
  function WithOwners(owners: seq<Address>, added: seq<Address>): seq<Address> {
    if added == [] then owners
    else
      var o := WithOwners(owners, added[..|added| - 1]);
      if added[|added| - 1] in o then o else o + [added[|added| - 1]]
  }

  /** Owners without one of them. Removal compares the addresses of two variables, so that
      nothing ever matches, or, with `byValue`, what they hold. */
  function OwnersWithout(owners: seq<Address>, a: Address, byValue: bool): seq<Address> {
    if byValue then Without(owners, a) else owners
  }

  /** Owners after the removals, or nothing if the last owner would go. */
  function WithoutOwners(owners: seq<Address>, removed: seq<Address>, byValue: bool): Option<seq<Address>> {
    if removed == [] then Some(owners)
    else
      var a := removed[|removed| - 1];
      match WithoutOwners(owners, removed[..|removed| - 1], byValue)
      case None => None
      case Some(o) =>
        if a !in o then Some(o) else if |o| == 1 then None else Some(OwnersWithout(o, a, byValue))
  }

  /** The owners after an anchor, or nothing if it is turned down. */
  function OwnersAfter(ch: Chain, tx: AnchorTx, byValue: bool): Option<seq<Address>> {
    if tx.number == 0 then
      if |ch.owners| > 0 || ch.end > 0 || tx.signer == None || |tx.removed| > 0 then None
      else Some(WithOwners([tx.signer.value], tx.added))
    else
      var signer := if tx.signer.Some? then tx.signer.value else 0;
      if |ch.owners| == 0 || ch.end == tx.number || (ch.end + 1) % TWO_64 != tx.number || signer !in ch.owners then None
      else WithoutOwners(WithOwners(ch.owners, tx.added), tx.removed, byValue)
  }

  predicate AcceptsAnchor(c: Storage, v: View, tx: AnchorTx, byValue: bool) {
    !BreaksChain(c, v, tx.chainID) && OwnersAfter(ChainOf(c, v, tx.chainID), tx, byValue).Some?
  }

  function AnchorsWith(anchors: map<UInt64, seq<AnchorTx>>, tx: AnchorTx): map<UInt64, seq<AnchorTx>> {
    anchors[tx.chainID := (if tx.chainID in anchors then anchors[tx.chainID] else []) + [tx]]
  }

  /** The view with an anchor added to its chain. */
  function AnchorSettled(v: View, tx: AnchorTx, ch: Chain): View {
    var id := tx.chainID;
    v.(chains := v.chains[id := Chain(ch.owners, if id in v.chainSet then ch.start else tx.number, tx.number)],
       chainSet := v.chainSet + {id}, anchors := AnchorsWith(v.anchors, tx))
  }

  function AfterAnchor(c: Storage, v: View, tx: AnchorTx, byValue: bool): View
    requires AcceptsAnchor(c, v, tx, byValue)
  {
    var ch := ChainOf(c, v, tx.chainID);
    AnchorSettled(v, tx, ch.(owners := OwnersAfter(ch, tx, byValue).value))
  }

  /** The view after an anchor is tried. */
  function TriedAnchor(c: Storage, v: View, tx: AnchorTx, byValue: bool): View {
    if AcceptsAnchor(c, v, tx, byValue) then AfterAnchor(c, v, tx, byValue) else v
  }

  // ----- Commit -----

  predicate NoDup<T(==)>(s: seq<T>) {
    forall i, j :: 0 <= i < j < |s| ==> s[i] != s[j]
  }

  /** Storing pending accounts one after another, each under the last eight bytes of its address. */
  function StoreAll(before: map<UInt64, Option<Account>>, pending: map<Address, Account>,
                    order: seq<Address>): map<UInt64, Option<Account>> {
    if order == [] then before
    else
      var rest, a := StoreAll(before, pending, order[..|order| - 1]), order[|order| - 1];
      if a in pending then rest[Short(a) := Encoding(pending[a])] else rest
  }

  /** The list has every pending account, each once. */
  ghost predicate Orders(order: seq<Address>, pending: map<Address, Account>) {
    NoDup(order) && forall a :: a in order <==> a in pending
  }

  /** The keys of a tree differ before their last four bits. */
  predicate Apart(keys: set<UInt64>) {
    forall x, y :: x in keys && y in keys && x != y ==> x / 16 != y / 16
  }

  predicate AllApart(c: Storage) {
    Apart(c.tokens.Keys) && Apart(c.accounts.Keys) && Apart(c.chains.Keys)
  }

  function ShortKeys(pending: map<Address, Account>): set<UInt64> { set a | a in pending :: Short(a) }

  /** The trees can be flushed with what is pending: no two keys share sixty bits, and none read from
      an earlier block is zero, which would be loaded as a node. Otherwise the code panics. */
  predicate Flushes(c: Storage, v: View) {
    && 0 !in c.tokens && 0 !in c.accounts && 0 !in c.chains
    && Apart(c.tokens.Keys + v.tokens.Keys) && Apart(c.accounts.Keys + ShortKeys(v.accounts))
    && Apart(c.chains.Keys + v.chains.Keys)
  }

  /** What the block's transaction tree is given: for each pending token, its transaction. */
  function Transactions(v: View): map<UInt64, nat> {
    map id | id in v.tokens :: if id in v.hashes then v.hashes[id] else 0
  }

  /** What a commit writes into the trees, the accounts in the given order. */
  function Written(c: Storage, v: View, order: seq<Address>): Storage {
    Storage(c.tokens + v.tokens, StoreAll(c.accounts, v.accounts, order), c.chains + v.chains)
  }

  /** What the account tree opens to. If all its accounts are lost it has the root of an empty tree.
      The trees share a store and that of the block's anchors is flushed later, so if that one is
      empty the root is mapped to it. */
  function Opened(accounts: map<UInt64, Option<Account>>, anchored: bool): map<UInt64, Option<Account>> {
    if !anchored && forall s :: s in accounts ==> accounts[s].None? then map[] else accounts
  }

  /** Committing a view: the state that the next block opens. */
  function Committed(c: Storage, v: View, order: seq<Address>): Storage {
    var w := Written(c, v, order);
    w.(accounts := Opened(w.accounts, v.anchors != map[]))
  }

  /** Storing accounts adds their keys. */
  lemma {:induction false} StoreKeys(before: map<UInt64, Option<Account>>, pending: map<Address, Account>,
                                     order: seq<Address>)
    requires forall a :: a in order ==> a in pending
    ensures StoreAll(before, pending, order).Keys == before.Keys + set a | a in order :: Short(a)
  {
    if order != [] {
      var rest, a := order[..|order| - 1], order[|order| - 1];
      assert order == rest + [a];
      StoreKeys(before, pending, rest);
      assert (set b | b in order :: Short(b)) == (set b | b in rest :: Short(b)) + {Short(a)};
    }
  }

  /** A commit gets through exactly when no tree that was read has the key zero and the keys of every
      tree it leaves are apart. */
  lemma FlushesIff(c: Storage, v: View, order: seq<Address>)
    requires Orders(order, v.accounts)
    ensures Flushes(c, v) <==>
      0 !in c.tokens && 0 !in c.accounts && 0 !in c.chains && AllApart(Written(c, v, order))
    ensures Flushes(c, v) ==> AllApart(Committed(c, v, order))
  {
    StoreKeys(c.accounts, v.accounts, order);
    assert (set a | a in order :: Short(a)) == ShortKeys(v.accounts);
    assert (c.tokens + v.tokens).Keys == c.tokens.Keys + v.tokens.Keys;
    assert (c.chains + v.chains).Keys == c.chains.Keys + v.chains.Keys;
  }

  /** Every listed account with the storage key `s` is stored as `x`. */
  ghost predicate AllHold(pending: map<Address, Account>, order: seq<Address>, s: UInt64, x: Option<Account>) {
    forall a :: a in order && a in pending && Short(a) == s ==> Encoding(pending[a]) == x
  }

  ghost predicate NoneHolds(pending: map<Address, Account>, order: seq<Address>, s: UInt64) {
    forall a :: a in order && a in pending ==> Short(a) != s
  }

  /** A storage key without a listed account keeps what it held. */
  lemma {:induction false} StoreOther(before: map<UInt64, Option<Account>>, pending: map<Address, Account>,
                                      order: seq<Address>, s: UInt64)
    requires NoneHolds(pending, order, s)
    ensures s in StoreAll(before, pending, order) <==> s in before
    ensures s in before ==> StoreAll(before, pending, order)[s] == before[s]
  {
    if order != [] {
      var rest, a := order[..|order| - 1], order[|order| - 1];
      assert order == rest + [a];
      StoreOther(before, pending, rest, s);
    }
  }

  /** One with listed accounts that are all stored as the same gets that. */
  lemma {:induction false} StoreSame(before: map<UInt64, Option<Account>>, pending: map<Address, Account>,
                                     order: seq<Address>, s: UInt64, x: Option<Account>)
    requires AllHold(pending, order, s, x) && !NoneHolds(pending, order, s)
    ensures s in StoreAll(before, pending, order) && StoreAll(before, pending, order)[s] == x
  {
    var rest, a := order[..|order| - 1], order[|order| - 1];
    assert order == rest + [a];
    if !(a in pending && Short(a) == s) {
      StoreSame(before, pending, rest, s, x);
    }
  }

  /** The account stored last decides. */
  lemma StoreLast(before: map<UInt64, Option<Account>>, pending: map<Address, Account>, rest: seq<Address>, a: Address)
    requires a in pending
    ensures var x := StoreAll(before, pending, rest + [a]); Short(a) in x && x[Short(a)] == Encoding(pending[a])
  {
    assert (rest + [a])[..|rest|] == rest;
  }

  /** Some list of the elements of a set, each once. */
  ghost function Listed(s: set<Address>): (r: seq<Address>)
    ensures NoDup(r) && forall a :: a in r <==> a in s
  {
    if s == {} then []
    else
      var a :| a in s;
      Listed(s - {a}) + [a]
  }

  /** Pending accounts with one storage key have the same contents, or none of them encodes. */
  ghost predicate SameWhereShared(pending: map<Address, Account>) {
    forall a, b :: a in pending && b in pending && Short(a) == Short(b) ==>
      Encoding(pending[a]) == Encoding(pending[b])
  }

  /** Storing accounts gives one result in all orders exactly when pending accounts that share a
      storage key have the same contents, or none of them encodes. */
  lemma StoreOrderIff(before: map<UInt64, Option<Account>>, pending: map<Address, Account>)
    ensures (forall x, y :: Orders(x, pending) && Orders(y, pending) ==>
               StoreAll(before, pending, x) == StoreAll(before, pending, y))
       <==> SameWhereShared(pending)
  {
    if SameWhereShared(pending) {
      forall x, y | Orders(x, pending) && Orders(y, pending)
        ensures StoreAll(before, pending, x) == StoreAll(before, pending, y)
      {
        SameStored(before, pending, x, y);
      }
    } else {
      var a, b :| a in pending && b in pending && Short(a) == Short(b) && Encoding(pending[a]) != Encoding(pending[b]);
      var x := LastOf(before, pending, a);
      var y := LastOf(before, pending, b);
      assert Orders(x, pending) && Orders(y, pending);
    }
  }

  lemma SameStored(before: map<UInt64, Option<Account>>, pending: map<Address, Account>,
                   x: seq<Address>, y: seq<Address>)
    requires Orders(x, pending) && Orders(y, pending) && SameWhereShared(pending)
    ensures StoreAll(before, pending, x) == StoreAll(before, pending, y)
  {
    var m, n := StoreAll(before, pending, x), StoreAll(before, pending, y);
    forall s: UInt64 ensures (s in m <==> s in n) && (s in m ==> m[s] == n[s]) {
      SameStoredAt(before, pending, x, y, s);
    }
  }

  lemma SameStoredAt(before: map<UInt64, Option<Account>>, pending: map<Address, Account>,
                     x: seq<Address>, y: seq<Address>, s: UInt64)
    requires Orders(x, pending) && Orders(y, pending) && SameWhereShared(pending)
    ensures var m, n := StoreAll(before, pending, x), StoreAll(before, pending, y);
      (s in m <==> s in n) && (s in m ==> m[s] == n[s])
  {
    if NoneHolds(pending, x, s) {
      StoreOther(before, pending, x, s);
      StoreOther(before, pending, y, s);
    } else {
      var a :| a in x && a in pending && Short(a) == s;
      StoreSame(before, pending, x, s, Encoding(pending[a]));
      StoreSame(before, pending, y, s, Encoding(pending[a]));
    }
  }

  /** An order that ends with the given account, which is then the one stored. */
  lemma LastOf(before: map<UInt64, Option<Account>>, pending: map<Address, Account>, a: Address)
    returns (order: seq<Address>)
    requires a in pending
    ensures Orders(order, pending)
    ensures var m := StoreAll(before, pending, order); Short(a) in m && m[Short(a)] == Encoding(pending[a])
  {
    var rest := Listed(pending.Keys - {a});
    order := rest + [a];
    StoreLast(before, pending, rest, a);
  }
}
