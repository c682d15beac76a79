/** Ownership and sums: in every state a block can reach, each token is in exactly one
    account's list, its owner's, exactly once, and each account's totals are the sums over
    its tokens. */
module Ownership {
  import opened Bytes
  import opened Plasma

  // ----- Sums over a list of tokens -----

  function Sum(s: seq<UInt64>, m: map<UInt64, int>): int {
    if s == [] then 0
    else Sum(s[..|s| - 1], m) + if s[|s| - 1] in m then m[s[|s| - 1]] else 0
  }

  lemma SplitLast<T>(s: seq<T>)
    requires s != []
    ensures s == s[..|s| - 1] + [s[|s| - 1]]
    ensures NoDup(s) ==> NoDup(s[..|s| - 1]) && s[|s| - 1] !in s[..|s| - 1]
  {
  }

  lemma SumAppend(s: seq<UInt64>, id: UInt64, m: map<UInt64, int>)
    requires id in m
    ensures Sum(s + [id], m) == Sum(s, m) + m[id]
  {
    assert (s + [id])[..|s|] == s;
  }

  lemma {:induction false} SumOther(s: seq<UInt64>, m: map<UInt64, int>, id: UInt64, x: int)
    requires id !in s
    ensures Sum(s, m[id := x]) == Sum(s, m)
  {
    if s != [] {
      SplitLast(s);
      SumOther(s[..|s| - 1], m, id, x);
    }
  }

  lemma {:induction false} SumUpdate(s: seq<UInt64>, m: map<UInt64, int>, id: UInt64, x: int)
    requires NoDup(s) && id in s && id in m
    ensures Sum(s, m[id := x]) == Sum(s, m) - m[id] + x
  {
    SplitLast(s);
    if s[|s| - 1] == id {
      SumOther(s[..|s| - 1], m, id, x);
    } else {
      SumUpdate(s[..|s| - 1], m, id, x);
    }
  }

  lemma {:induction false} WithoutMembers<T>(s: seq<T>, id: T)
    ensures forall x :: x in Without(s, id) <==> x in s && x != id
    ensures NoDup(s) ==> NoDup(Without(s, id))
  {
    if s != [] {
      SplitLast(s);
      WithoutMembers(s[..|s| - 1], id);
    }
  }

  lemma {:induction false} SumWithout(s: seq<UInt64>, m: map<UInt64, int>, id: UInt64)
    requires NoDup(s) && id in s && id in m
    ensures Sum(Without(s, id), m) == Sum(s, m) - m[id]
  {
    SplitLast(s);
    var r := s[..|s| - 1];
    if s[|s| - 1] == id {
      WithoutAbsent(r, id);
    } else {
      SumWithout(r, m, id);
      assert (Without(r, id) + [s[|s| - 1]])[..|Without(r, id)|] == Without(r, id);
    }
  }

  // ----- One account -----

  function Denominations(ts: map<UInt64, Token>): map<UInt64, int> {
    map id | id in ts :: ts[id].denomination
  }

  function Balances(ts: map<UInt64, Token>): map<UInt64, int> {
    map id | id in ts :: ts[id].balance
  }

  lemma Updated(ts: map<UInt64, Token>, id: UInt64, t: Token)
    ensures Denominations(ts[id := t]) == Denominations(ts)[id := t.denomination]
    ensures Balances(ts[id := t]) == Balances(ts)[id := t.balance]
  {
  }

  /** A balance against the sum it should be: equal, or equal up to 64-bit wrap-around. */
  predicate Matches(exact: bool, balance: int, sum: int) {
    if exact then balance == sum else (balance - sum) % TWO_64 == 0
  }

  /** The account of `a` lists tokens of `a`, each once, and carries their totals. */
  predicate AccountOk(exact: bool, acc: Account, a: Address, ts: map<UInt64, Token>) {
    && NoDup(acc.tokens)
    && (forall id :: id in acc.tokens ==> id in ts && ts[id].owner == a)
    && acc.denomination == Sum(acc.tokens, Denominations(ts))
    && Matches(exact, acc.balance, Sum(acc.tokens, Balances(ts)))
  }

  /** An account is not concerned by a token it does not list. */
  lemma OtherOk(exact: bool, acc: Account, a: Address, ts: map<UInt64, Token>, id: UInt64, t: Token)
    requires AccountOk(exact, acc, a, ts) && id !in acc.tokens
    ensures AccountOk(exact, acc, a, ts[id := t])
  {
    Updated(ts, id, t);
    SumOther(acc.tokens, Denominations(ts), id, t.denomination);
    SumOther(acc.tokens, Balances(ts), id, t.balance);
  }

  lemma MatchesSum(exact: bool, a: int, b: int, c: int, d: int)
    requires Matches(exact, a, b) && Matches(exact, c, d)
    ensures Matches(exact, a + c, b + d)
  {
    assert (a - b + (c - d)) % TWO_64 == 0 by {
      if !exact { assert a - b == (a - b) / TWO_64 * TWO_64; }
    }
  }

  lemma NoDupAppend(s: seq<UInt64>, id: UInt64)
    requires NoDup(s) && id !in s
    ensures NoDup(s + [id])
    ensures forall x :: x in s + [id] <==> x in s || x == id
  {
  }

  /** Adding a token of which `used` is consumed on the way in. */
  lemma AddOk(exact: bool, acc: Account, a: Address, ts: map<UInt64, Token>, id: UInt64, t: Token, t': Token, used: int)
    requires AccountOk(exact, acc, a, ts) && id !in acc.tokens
    requires t'.owner == a && t'.denomination == t.denomination && Matches(exact, t.balance - used, t'.balance)
    ensures var r := WithToken(acc, id, t); AccountOk(exact, r.(balance := r.balance - used), a, ts[id := t'])
  {
    OtherOk(exact, acc, a, ts, id, t');
    NoDupAppend(acc.tokens, id);
    SumAppend(acc.tokens, id, Denominations(ts[id := t']));
    SumAppend(acc.tokens, id, Balances(ts[id := t']));
    MatchesSum(exact, acc.balance, Sum(acc.tokens, Balances(ts[id := t'])), t.balance - used, t'.balance);
  }

  /** Removing a token. */
  lemma RemoveOk(exact: bool, acc: Account, a: Address, ts: map<UInt64, Token>, id: UInt64, t': Token)
    requires AccountOk(exact, acc, a, ts) && id in acc.tokens
    ensures AccountOk(exact, WithoutToken(acc, id, ts[id]), a, ts[id := t'])
  {
    var s := Without(acc.tokens, id);
    WithoutMembers(acc.tokens, id);
    SumWithout(acc.tokens, Denominations(ts), id);
    SumWithout(acc.tokens, Balances(ts), id);
    OtherOk(exact, WithoutToken(acc, id, ts[id]), a, ts, id, t');
  }

  /** Consuming from a token that stays where it is. */
  lemma StayOk(exact: bool, acc: Account, a: Address, ts: map<UInt64, Token>, id: UInt64, t': Token, used: int)
    requires AccountOk(exact, acc, a, ts) && id in acc.tokens
    requires t'.owner == a && t'.denomination == ts[id].denomination
    requires Matches(exact, ts[id].balance - used, t'.balance)
    ensures AccountOk(exact, acc.(balance := acc.balance - used), a, ts[id := t'])
  {
    Updated(ts, id, t');
    SumUpdate(acc.tokens, Denominations(ts), id, t'.denomination);
    SumUpdate(acc.tokens, Balances(ts), id, t'.balance);
    MatchesSum(exact, acc.balance, Sum(acc.tokens, Balances(ts)), 0 - used, t'.balance - ts[id].balance);
  }

  // ----- The whole state -----

  /** Distinct addresses of `w` have distinct last eight bytes. */
  ghost predicate ShortInjective(w: iset<Address>) {
    forall a, b :: a in w && b in w && Short(a) == Short(b) ==> a == b
  }

  ghost predicate AllOk(exact: bool, w: iset<Address>, c: Storage, v: View) {
    && v.tokens.Keys == v.isSet
    && (forall a :: a in v.accounts ==> a in w)
    && (forall id {:trigger OwnerLists(w, c, v, id)} :: id in Tokens(c, v) ==> OwnerLists(w, c, v, id))
    && forall a {:trigger OkAt(exact, c, v, a)} :: a in w ==> OkAt(exact, c, v, a)
  }

  ghost predicate OkAt(exact: bool, c: Storage, v: View, a: Address) {
    AccountOk(exact, AccountOf(c, v, a), a, Tokens(c, v))
  }

  /** The owner of a token is in `w` and lists it. */
  ghost predicate OwnerLists(w: iset<Address>, c: Storage, v: View, id: UInt64)
    requires id in Tokens(c, v)
  {
    var t := Tokens(c, v)[id];
    t.owner in w && id in AccountOf(c, v, t.owner).tokens
  }

  /** Each token is in exactly one list, exactly once: its owner's. */
  lemma ExactlyOnce(exact: bool, w: iset<Address>, c: Storage, v: View, id: UInt64, a: Address)
    requires AllOk(exact, w, c, v) && id in Tokens(c, v) && a in w
    ensures id in AccountOf(c, v, a).tokens <==> a == Tokens(c, v)[id].owner
    ensures a == Tokens(c, v)[id].owner ==> multiset(AccountOf(c, v, a).tokens)[id] == 1
  {
    assert OwnerLists(w, c, v, id);
    assert OkAt(exact, c, v, a);
    if a == Tokens(c, v)[id].owner {
      CountOnce(AccountOf(c, v, a).tokens, id);
    }
  }

  lemma {:induction false} CountOnce(s: seq<UInt64>, id: UInt64)
    requires NoDup(s)
    ensures multiset(s)[id] == if id in s then 1 else 0
  {
    if s != [] {
      SplitLast(s);
      CountOnce(s[..|s| - 1], id);
      assert multiset(s) == multiset(s[..|s| - 1]) + multiset([s[|s| - 1]]);
    }
  }

  // ----- One transaction -----

  /** What a change of token `id` to `t'` must do to the account of `a`. */
  ghost predicate AccountStep(exact: bool, w: iset<Address>, c: Storage, v: View, v': View, id: UInt64, t': Token,
                              a: Address) {
    && AccountOk(exact, AccountOf(c, v', a), a, Tokens(c, v)[id := t'])
    && (forall x :: x in AccountOf(c, v, a).tokens && x != id ==> x in AccountOf(c, v', a).tokens)
    && (a == t'.owner ==> id in AccountOf(c, v', a).tokens)
  }

  lemma TokensAfter(c: Storage, v: View, v': View, id: UInt64, t': Token)
    requires v'.tokens == v.tokens[id := t']
    ensures Tokens(c, v') == Tokens(c, v)[id := t']
  {
  }

  lemma StillListed(exact: bool, w: iset<Address>, c: Storage, v: View, v': View, id: UInt64, t': Token, x: UInt64)
    requires Tokens(c, v') == Tokens(c, v)[id := t'] && t'.owner in w && x in Tokens(c, v')
    requires x != id ==> OwnerLists(w, c, v, x)
    requires forall a {:trigger AccountStep(exact, w, c, v, v', id, t', a)} :: a in w ==>
      AccountStep(exact, w, c, v, v', id, t', a)
    ensures OwnerLists(w, c, v', x)
  {
    assert AccountStep(exact, w, c, v, v', id, t', Tokens(c, v')[x].owner);
  }

  lemma Reassemble(exact: bool, w: iset<Address>, c: Storage, v: View, v': View, id: UInt64, t': Token)
    requires AllOk(exact, w, c, v)
    requires v'.tokens == v.tokens[id := t'] && v'.isSet == v.isSet + {id}
    requires forall a :: a in v'.accounts ==> a in w
    requires t'.owner in w
    requires forall a {:trigger AccountStep(exact, w, c, v, v', id, t', a)} :: a in w ==>
      AccountStep(exact, w, c, v, v', id, t', a)
    ensures AllOk(exact, w, c, v')
  {
    TokensAfter(c, v, v', id, t');
    forall x | x in Tokens(c, v') ensures OwnerLists(w, c, v', x) {
      if x != id { assert OwnerLists(w, c, v, x); }
      StillListed(exact, w, c, v, v', id, t', x);
    }
    forall a | a in w ensures OkAt(exact, c, v', a) {
      assert AccountStep(exact, w, c, v, v', id, t', a);
    }
  }

  lemma DepositStep(exact: bool, w: iset<Address>, c: Storage, v: View, block: nat, tx: Tx, a: Address)
    requires AllOk(exact, w, c, v) && AcceptsDeposit(c, v, tx) && a in w
    ensures AccountStep(exact, w, c, v, AfterTx(c, v, block, tx), tx.tokenID, Deposited(tx, block), a)
  {
    var t, acc, id := Deposited(tx, block), AccountOf(c, v, a), tx.tokenID;
    assert id !in Tokens(c, v) && OkAt(exact, c, v, a);
    if a == tx.recipient {
      AddOk(exact, acc, a, Tokens(c, v), id, t, t, 0);
      NoDupAppend(acc.tokens, id);
    } else {
      OtherOk(exact, acc, a, Tokens(c, v), id, t);
    }
  }

  /** A transfer that raises its token's balance. */
  predicate Raises(c: Storage, tx: Tx) {
    tx.prevBlock != 0 && tx.tokenID in c.tokens && tx.balance > c.tokens[tx.tokenID].balance
  }

  /** What a transfer takes off the recipient's balance. */
  function Used(t: Token, tx: Tx): int { if Consumes(t, tx) then Consumption(t, tx) else 0 }

  lemma UsedMatches(exact: bool, t: Token, tx: Tx)
    requires exact ==> tx.balance <= t.balance
    ensures Matches(exact, t.balance - Used(t, tx), tx.balance)
  {
    if Consumes(t, tx) && !exact {
      var d := t.balance - tx.balance;
      assert d == d / TWO_64 * TWO_64 + d % TWO_64;
    }
  }

  /** The account of `a` after the transfer `tx` of the token `t`. */
  function AccountAfter(acc: Account, a: Address, t: Token, tx: Tx): Account {
    if a == tx.recipient then RecipientAfter(acc, t, tx)
    else if a == t.owner then WithoutToken(acc, tx.tokenID, t)
    else acc
  }

  lemma TransferAccount(exact: bool, acc: Account, a: Address, ts: map<UInt64, Token>, tx: Tx, block: nat)
    requires tx.tokenID in ts && AccountOk(exact, acc, a, ts)
    requires tx.tokenID in acc.tokens <==> a == ts[tx.tokenID].owner
    requires exact ==> tx.balance <= ts[tx.tokenID].balance
    ensures var t := ts[tx.tokenID];
      AccountOk(exact, AccountAfter(acc, a, t, tx), a, ts[tx.tokenID := Transferred(t, tx, block)])
  {
    var id, t := tx.tokenID, ts[tx.tokenID];
    var t' := Transferred(t, tx, block);
    UsedMatches(exact, t, tx);
    if a == tx.recipient && Moves(t, tx) {
      AddOk(exact, acc, a, ts, id, t, t', Used(t, tx));
    } else if a == tx.recipient {
      StayOk(exact, acc, a, ts, id, t', Used(t, tx));
    } else if a == t.owner {
      RemoveOk(exact, acc, a, ts, id, t');
    } else {
      OtherOk(exact, acc, a, ts, id, t');
    }
  }

  lemma TransferMembers(acc: Account, a: Address, t: Token, tx: Tx)
    requires tx.tokenID in acc.tokens <==> a == t.owner
    ensures forall x :: x in acc.tokens && x != tx.tokenID ==> x in AccountAfter(acc, a, t, tx).tokens
    ensures a == tx.recipient ==> tx.tokenID in AccountAfter(acc, a, t, tx).tokens
  {
    WithoutMembers(acc.tokens, tx.tokenID);
  }

  lemma TransferAccountOf(c: Storage, v: View, block: nat, tx: Tx, a: Address)
    requires AcceptsTransfer(c, v, tx)
    ensures AccountOf(c, AfterTx(c, v, block, tx), a) == AccountAfter(AccountOf(c, v, a), a, c.tokens[tx.tokenID], tx)
  {
  }

  lemma TransferStep(exact: bool, w: iset<Address>, c: Storage, v: View, block: nat, tx: Tx, a: Address)
    requires AllOk(exact, w, c, v) && AcceptsTransfer(c, v, tx) && a in w && tx.recipient in w
    requires exact ==> !Raises(c, tx)
    ensures AccountStep(exact, w, c, v, AfterTx(c, v, block, tx), tx.tokenID,
                        Transferred(c.tokens[tx.tokenID], tx, block), a)
  {
    var acc, t := AccountOf(c, v, a), c.tokens[tx.tokenID];
    assert Tokens(c, v)[tx.tokenID] == t;
    ExactlyOnce(exact, w, c, v, tx.tokenID, a);
    assert OkAt(exact, c, v, a);
    TransferAccountOf(c, v, block, tx, a);
    TransferAccount(exact, acc, a, Tokens(c, v), tx, block);
    TransferMembers(acc, a, t, tx);
  }

  /** Accepted transactions keep ownership and sums; the sums stay exact unless a balance grows. */
  lemma AcceptedKeeps(exact: bool, w: iset<Address>, c: Storage, v: View, block: nat, tx: Tx, key: TokenKey)
    requires AllOk(exact, w, c, v) && AcceptsTx(c, v, tx, key) && tx.recipient in w
    requires exact ==> !Raises(c, tx)
    ensures AllOk(exact, w, c, AfterTx(c, v, block, tx))
  {
    if tx.prevBlock == 0 {
      DepositKeeps(exact, w, c, v, block, tx, Deposited(tx, block));
    } else {
      TransferKeeps(exact, w, c, v, block, tx, Transferred(c.tokens[tx.tokenID], tx, block));
    }
  }

  lemma DepositKeeps(exact: bool, w: iset<Address>, c: Storage, v: View, block: nat, tx: Tx, t': Token)
    requires AllOk(exact, w, c, v) && AcceptsDeposit(c, v, tx) && tx.recipient in w && t' == Deposited(tx, block)
    ensures AllOk(exact, w, c, AfterTx(c, v, block, tx))
  {
    var v' := AfterTx(c, v, block, tx);
    forall a | a in w ensures AccountStep(exact, w, c, v, v', tx.tokenID, t', a) {
      DepositStep(exact, w, c, v, block, tx, a);
    }
    Reassemble(exact, w, c, v, v', tx.tokenID, t');
  }

  lemma TransferKeeps(exact: bool, w: iset<Address>, c: Storage, v: View, block: nat, tx: Tx, t': Token)
    requires AllOk(exact, w, c, v) && AcceptsTransfer(c, v, tx) && tx.recipient in w && (exact ==> !Raises(c, tx))
    requires t' == Transferred(c.tokens[tx.tokenID], tx, block)
    ensures AllOk(exact, w, c, AfterTx(c, v, block, tx))
  {
    var v' := AfterTx(c, v, block, tx);
    OwnerWithin(w, c, v, tx.tokenID, exact);
    TransferEnters(c, v, block, tx, w);
    forall a | a in w ensures AccountStep(exact, w, c, v, v', tx.tokenID, t', a) {
      TransferStep(exact, w, c, v, block, tx, a);
    }
    Reassemble(exact, w, c, v, v', tx.tokenID, t');
  }

  /** The owner of a stored token that is not pending is in `w`. */
  lemma OwnerWithin(w: iset<Address>, c: Storage, v: View, id: UInt64, exact: bool)
    requires AllOk(exact, w, c, v) && id in c.tokens && id !in v.isSet
    ensures c.tokens[id].owner in w
  {
    assert Tokens(c, v)[id] == c.tokens[id];
    assert OwnerLists(w, c, v, id);
  }

  lemma TransferEnters(c: Storage, v: View, block: nat, tx: Tx, w: iset<Address>)
    requires AcceptsTransfer(c, v, tx) && tx.recipient in w && c.tokens[tx.tokenID].owner in w
    requires forall a :: a in v.accounts ==> a in w
    ensures var v', t := AfterTx(c, v, block, tx), Transferred(c.tokens[tx.tokenID], tx, block);
      && v'.tokens == v.tokens[tx.tokenID := t] && v'.isSet == v.isSet + {tx.tokenID} && t.owner in w
      && forall a :: a in v'.accounts ==> a in w
  {
  }

  lemma RaiseAccount(acc: Account, a: Address, ts: map<UInt64, Token>, tx: Tx, block: nat)
    requires tx.tokenID in ts && AccountOk(true, acc, a, ts) && a == tx.recipient
    requires tx.tokenID in acc.tokens <==> a == ts[tx.tokenID].owner
    requires tx.balance > ts[tx.tokenID].balance
    ensures var t := ts[tx.tokenID];
      !AccountOk(true, AccountAfter(acc, a, t, tx), a, ts[tx.tokenID := Transferred(t, tx, block)])
  {
    var id, t := tx.tokenID, ts[tx.tokenID];
    var t' := Transferred(t, tx, block);
    Updated(ts, id, t');
    if Moves(t, tx) {
      SumOther(acc.tokens, Balances(ts), id, t'.balance);
      SumAppend(acc.tokens, id, Balances(ts[id := t']));
    } else {
      SumUpdate(acc.tokens, Balances(ts), id, t'.balance);
    }
  }

  /** A balance that grows is taken off the recipient's account as a wrapped number: the sums
      stay right modulo 2^64 and are wrong as numbers. */
  lemma RaiseBreaksExactness(w: iset<Address>, c: Storage, v: View, block: nat, tx: Tx)
    requires AllOk(true, w, c, v) && AcceptsTransfer(c, v, tx) && tx.recipient in w && Raises(c, tx)
    ensures !AllOk(true, w, c, AfterTx(c, v, block, tx))
  {
    var t, v' := c.tokens[tx.tokenID], AfterTx(c, v, block, tx);
    assert Tokens(c, v)[tx.tokenID] == t;
    TokensAfter(c, v, v', tx.tokenID, Transferred(t, tx, block));
    ExactlyOnce(true, w, c, v, tx.tokenID, tx.recipient);
    assert OkAt(true, c, v, tx.recipient);
    RaiseAccount(AccountOf(c, v, tx.recipient), tx.recipient, Tokens(c, v), tx, block);
    assert !OkAt(true, c, v', tx.recipient);
  }

  /** A late rejection leaves a token that no account lists. */
  lemma LateBreaks(exact: bool, w: iset<Address>, c: Storage, v: View, block: nat, tx: Tx, key: TokenKey)
    requires AllOk(exact, w, c, v) && RejectedLate(c, v, tx, key) && tx.recipient in w
    ensures !AllOk(exact, w, c, LeftBehind(c, v, block, tx))
  {
    var v' := LeftBehind(c, v, block, tx);
    assert OkAt(exact, c, v, tx.recipient);
    assert tx.tokenID !in Tokens(c, v);
    assert tx.tokenID in Tokens(c, v') && !OwnerLists(w, c, v', tx.tokenID);
  }

  /** Trying a transaction keeps ownership and sums exactly when it is not rejected late, and
      keeps the balances exact exactly when it also raises none. */
  lemma TriedKeepsIff(exact: bool, w: iset<Address>, c: Storage, v: View, block: nat, tx: Tx, key: TokenKey)
    requires AllOk(exact, w, c, v) && tx.recipient in w
    ensures AllOk(exact, w, c, Tried(c, v, block, tx, key))
       <==> !RejectedLate(c, v, tx, key) && !(exact && AcceptsTransfer(c, v, tx) && Raises(c, tx))
  {
    if RejectedLate(c, v, tx, key) {
      LateBreaks(exact, w, c, v, block, tx, key);
    } else if exact && AcceptsTransfer(c, v, tx) && Raises(c, tx) {
      RaiseBreaksExactness(w, c, v, block, tx);
    } else if AcceptsTx(c, v, tx, key) {
      AcceptedKeeps(exact, w, c, v, block, tx, key);
    }
  }

  // ----- Commit -----

  /** The account can be read once it is stored. */
  predicate Storable(a: Address, x: Account) { Encodes(x) && Short(a) != 0 }

  /** So can every pending account that lists a token. */
  ghost predicate AllStorable(pending: map<Address, Account>) {
    forall a :: a in pending && pending[a].tokens != [] ==> Storable(a, pending[a])
  }

  /** In whatever order accounts are stored, an address of `w` finds its own, or nothing if that
      cannot be read. */
  lemma CommitAccount(w: iset<Address>, c: Storage, v: View, order: seq<Address>, a: Address)
    requires ShortInjective(w) && a in w && Orders(order, v.accounts)
    requires forall b :: b in v.accounts ==> b in w
    ensures AccountOf(Committed(c, v, order), NO_VIEW, a)
         == if a in v.accounts && !Storable(a, v.accounts[a]) then NO_ACCOUNT else AccountOf(c, v, a)
  {
    assert StoredAccount(Committed(c, v, order), a) == StoredAccount(Written(c, v, order), a);
    if a in v.accounts {
      StoreSame(c.accounts, v.accounts, order, Short(a), Encoding(v.accounts[a]));
    } else {
      StoreOther(c.accounts, v.accounts, order, Short(a));
    }
  }

  /** Committing a block keeps ownership and sums exactly when every pending account that lists a
      token can be stored. */
  lemma CommitKeepsIff(exact: bool, w: iset<Address>, c: Storage, v: View, order: seq<Address>)
    requires ShortInjective(w) && AllOk(exact, w, c, v) && Orders(order, v.accounts)
    ensures AllOk(exact, w, Committed(c, v, order), NO_VIEW) <==> AllStorable(v.accounts)
  {
    if AllStorable(v.accounts) {
      CommitKeeps(exact, w, c, v, order, Committed(c, v, order));
    } else {
      var a :| a in v.accounts && v.accounts[a].tokens != [] && !Storable(a, v.accounts[a]);
      CommitLoses(exact, w, c, v, order, Committed(c, v, order), a);
    }
  }

  lemma CommitKeeps(exact: bool, w: iset<Address>, c: Storage, v: View, order: seq<Address>, c': Storage)
    requires ShortInjective(w) && AllOk(exact, w, c, v) && Orders(order, v.accounts) && AllStorable(v.accounts)
    requires c' == Committed(c, v, order)
    ensures AllOk(exact, w, c', NO_VIEW)
  {
    assert Tokens(c', NO_VIEW) == Tokens(c, v);
    forall id | id in Tokens(c', NO_VIEW) ensures OwnerLists(w, c', NO_VIEW, id) {
      assert OwnerLists(w, c, v, id);
      CommitAccount(w, c, v, order, Tokens(c, v)[id].owner);
    }
    forall a | a in w ensures OkAt(exact, c', NO_VIEW, a) {
      assert OkAt(exact, c, v, a);
      CommitAccount(w, c, v, order, a);
      if a in v.accounts && !Storable(a, v.accounts[a]) { assert v.accounts[a].tokens == []; }
    }
  }

  lemma CommitLoses(exact: bool, w: iset<Address>, c: Storage, v: View, order: seq<Address>, c': Storage, a: Address)
    requires ShortInjective(w) && AllOk(exact, w, c, v) && Orders(order, v.accounts) && c' == Committed(c, v, order)
    requires a in v.accounts && v.accounts[a].tokens != [] && !Storable(a, v.accounts[a])
    ensures !AllOk(exact, w, c', NO_VIEW)
  {
    var id := v.accounts[a].tokens[0];
    assert OkAt(exact, c, v, a);
    assert Tokens(c', NO_VIEW) == Tokens(c, v);
    CommitAccount(w, c, v, order, a);
    assert !OwnerLists(w, c', NO_VIEW, id);
  }

  // ----- Exact sums -----

  lemma {:induction false} SumNat(s: seq<UInt64>, m: map<UInt64, int>)
    requires forall id :: id in m ==> m[id] >= 0
    ensures Sum(s, m) >= 0
  {
    if s != [] { SumNat(s[..|s| - 1], m); }
  }

  /** An account whose totals are exactly its sums is never negative. */
  lemma ExactEncodes(acc: Account, a: Address, ts: map<UInt64, Token>)
    requires AccountOk(true, acc, a, ts)
    ensures Encodes(acc)
  {
    SumNat(acc.tokens, Denominations(ts));
    SumNat(acc.tokens, Balances(ts));
  }

  /** No address of `w` ends in eight zero bytes. */
  ghost predicate NonZero(w: iset<Address>) {
    forall a :: a in w ==> Short(a) != 0
  }

  /** So with exact sums a commit loses nothing. */
  lemma ExactStorable(w: iset<Address>, c: Storage, v: View)
    requires NonZero(w) && AllOk(true, w, c, v)
    ensures AllStorable(v.accounts)
  {
    forall a | a in v.accounts ensures Storable(a, v.accounts[a]) {
      assert a in w && OkAt(true, c, v, a);
      ExactEncodes(v.accounts[a], a, Tokens(c, v));
    }
  }
}
