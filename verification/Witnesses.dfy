/** Runs from an empty chain: one that hands a token over, and those that show what the code does not
    keep. There is one token, 1, which every deposit here hashes to, and it is deposited to account 7. */
module Witnesses {
  import opened Bytes
  import opened Plasma
  import opened Ownership
  import opened Ledger

  const RULES := Rules((i, d, a) => 1, false)

  /** A deposit of `d`, and a transfer of the token to its own owner. */
  function Deposit(d: UInt64): Tx { Tx(1, d, 0, 0, 7, 7, 0, 0, d, 0) }

  function Restate(d: UInt64, prevBlock: nat, allowance: UInt64, spent: UInt64, balance: UInt64): Tx {
    Tx(1, d, 0, prevBlock, 7, 7, allowance, spent, balance, 0)
  }

  /** A chain with that token, that account, no layer-3 chain and nothing pending. */
  ghost predicate Stands(l: Ledger, t: Token, a: Account) {
    l.c == Storage(map[1 := t], map[7 := Some(a)], map[]) && l.v == NO_VIEW
  }

  /** One transaction and a sealed block. */
  function Sealed(tx: Tx): seq<Event> { [Try(tx), Seal([7])] }

  lemma RunSealed(l: Ledger, tx: Tx)
    ensures Run(l, Sealed(tx), RULES) == Next(Next(l, Try(tx), RULES), Seal([7]), RULES)
  {
    assert Sealed(tx) == ([] + [Try(tx)]) + [Seal([7])];
    RunLast(l, [], Try(tx), RULES);
    RunLast(l, [] + [Try(tx)], Seal([7]), RULES);
  }

  lemma StoreSeven(before: map<UInt64, Option<Account>>, a: Account)
    requires forall s :: s in before ==> s == 7
    ensures StoreAll(before, map[7 := a], [7]) == map[7 := Encoding(a)]
  {
    assert [7][..0] == [];
    assert Short(7) == 7;
  }

  /** Sealing a view with that token and that account. */
  lemma SealSeven(l: Ledger, v: View, t: Token, a: Account)
    requires l.c.tokens.Keys <= {1} && l.c.accounts.Keys <= {7} && l.c.chains == map[]
    requires v.tokens == map[1 := t] && v.accounts == map[7 := a]
    ensures Committed(l.c, v, [7]) ==
      Storage(map[1 := t], if Encodes(a) || v.anchors != map[] then map[7 := Encoding(a)] else map[], v.chains)
  {
    StoreSeven(l.c.accounts, a);
    var m: map<UInt64, Option<Account>> := map[7 := Encoding(a)];
    assert 7 in m;
  }

  lemma AfterDeposit(d: UInt64)
    ensures Stands(Run(GENESIS, Sealed(Deposit(d)), RULES), Token(d, 1, 7, d, 0, 0), Account([1], d, d))
    ensures |Run(GENESIS, Sealed(Deposit(d)), RULES).log| == 1
  {
    var tx, l := Deposit(d), GENESIS;
    RunSealed(l, tx);
    assert AcceptsDeposit(l.c, l.v, tx) && AcceptsTx(l.c, l.v, tx, RULES.key);
    assert AccountOf(l.c, l.v, 7) == NO_ACCOUNT;
    assert [] + [1] == [1 as UInt64];
    assert WithToken(NO_ACCOUNT, 1, Token(d, 1, 7, d, 0, 0)) == Account([1], d, d);
    var mid := Next(l, Try(tx), RULES);
    SealSeven(mid, mid.v, Token(d, 1, 7, d, 0, 0), Account([1], d, d));
  }

  /** A transfer to the owner itself is accepted. */
  lemma Restated(l: Ledger, t: Token, a: Account, tx: Tx)
    requires Stands(l, t, a) && t.owner == 7 && tx.tokenID == 1 && tx.recipient == 7 && tx.prevBlock != 0
    requires TransferChecks(t, tx) && (Withdraws(t, tx) || Consumes(t, tx))
    ensures AcceptsTransfer(l.c, l.v, tx)
    ensures var v := Next(l, Try(tx), RULES).v;
      && v.tokens == map[1 := Transferred(t, tx, |l.log| + 1)] && v.accounts == map[7 := RecipientAfter(a, t, tx)]
      && v.chains == map[] && v.anchors == map[]
  {
    assert Short(7) == 7;
    assert AccountOf(l.c, l.v, 7) == a;
  }

  lemma RestatedSealed(l: Ledger, t: Token, a: Account, tx: Tx)
    requires Stands(l, t, a) && t.owner == 7 && tx.tokenID == 1 && tx.recipient == 7 && tx.prevBlock != 0
    requires TransferChecks(t, tx) && (Withdraws(t, tx) || Consumes(t, tx)) && Encodes(RecipientAfter(a, t, tx))
    ensures Stands(Run(l, Sealed(tx), RULES), Transferred(t, tx, |l.log| + 1), RecipientAfter(a, t, tx))
    ensures |Run(l, Sealed(tx), RULES).log| == |l.log| + 1
  {
    Restated(l, t, a, tx);
    RunSealed(l, tx);
    var mid := Next(l, Try(tx), RULES);
    SealSeven(mid, mid.v, Transferred(t, tx, |l.log| + 1), RecipientAfter(a, t, tx));
  }

  /** The chain after depositing `d` and restating its amounts once. */
  lemma Prepared(d: UInt64, tx: Tx)
    requires tx == Restate(d, 1, tx.allowance, tx.spent, tx.balance) && tx.balance != d
    requires d == (tx.spent + tx.allowance + tx.balance) % TWO_64 && tx.balance <= d
    ensures var l := Run(GENESIS, Sealed(Deposit(d)) + Sealed(tx), RULES);
      var t := Token(d, 1, 7, d, 0, 0);
      Stands(l, Transferred(t, tx, 2), RecipientAfter(Account([1], d, d), t, tx)) && |l.log| == 2
  {
    AfterDeposit(d);
    RestateChecks(d, tx, Token(d, 1, 7, d, 0, 0));
    Continued(Sealed(Deposit(d)), Token(d, 1, 7, d, 0, 0), Account([1], d, d), tx);
  }

  lemma RestateChecks(d: UInt64, tx: Tx, t: Token)
    requires tx == Restate(d, 1, tx.allowance, tx.spent, tx.balance) && tx.balance != d
    requires d == (tx.spent + tx.allowance + tx.balance) % TWO_64 && t == Token(d, 1, 7, d, 0, 0) && tx.balance <= d
    ensures TransferChecks(t, tx) && Consumes(t, tx) && Encodes(RecipientAfter(Account([1], d, d), t, tx))
  {
  }

  lemma Continued(es: seq<Event>, t: Token, a: Account, tx: Tx)
    requires Stands(Run(GENESIS, es, RULES), t, a) && Encodes(RecipientAfter(a, t, tx))
    requires t.owner == 7 && tx.tokenID == 1 && tx.recipient == 7 && tx.prevBlock != 0
    requires TransferChecks(t, tx) && Consumes(t, tx)
    ensures var l, l' := Run(GENESIS, es, RULES), Run(GENESIS, es + Sealed(tx), RULES);
      Stands(l', Transferred(t, tx, |l.log| + 1), RecipientAfter(a, t, tx)) && |l'.log| == |l.log| + 1
  {
    RunConcat(GENESIS, es, Sealed(tx), RULES);
    RestatedSealed(Run(GENESIS, es, RULES), t, a, tx);
  }

  // ----- A token changes hands -----

  const HAND := Tx(1, 10, 0, 1, 7, 32, 0, 0, 10, 0)

  function HandRun(): seq<Event> { Sealed(Deposit(10)) + [Try(HAND), Seal([7, 32])] }

  lemma Handed(l: Ledger)
    requires Stands(l, Token(10, 1, 7, 10, 0, 0), Account([1], 10, 10)) && |l.log| == 1
    ensures AcceptsTransfer(l.c, l.v, HAND)
    ensures var v := Next(l, Try(HAND), RULES).v;
      && v.tokens == map[1 := Token(10, 2, 32, 10, 0, 0)]
      && v.accounts == map[32 := Account([1], 10, 10), 7 := Account([], 0, 0)] && v.chains == map[]
  {
    assert Short(7) == 7 && Short(32) == 32;
    assert AccountOf(l.c, l.v, 7) == Account([1], 10, 10) && AccountOf(l.c, l.v, 32) == Account([], 0, 0);
    assert [1][..0] == [] && Without([1], 1 as UInt64) == [];
    assert [] + [1] == [1 as UInt64];
  }

  lemma StoreTwo(before: map<UInt64, Option<Account>>, a: Account, b: Account)
    requires forall s :: s in before ==> s == 7
    ensures StoreAll(before, map[32 := b, 7 := a], [7, 32]) == map[7 := Encoding(a), 32 := Encoding(b)]
  {
    assert [7, 32][..1] == [7] && [7][..0] == [];
    assert Short(7) == 7 && Short(32) == 32;
    var m: map<Address, Account> := map[32 := b, 7 := a];
    assert StoreAll(before, m, [7]) == before[7 := Encoding(a)];
  }

  /** Ten deposited to 7 and handed to 32, in two blocks that can be flushed: the token is 32's, in its
      list alone, with all its amounts. */
  lemma HandWitness()
    ensures var l := Run(GENESIS, HandRun(), RULES);
      && AllFlush(GENESIS, HandRun(), RULES) && |l.log| == 2 && l.v == NO_VIEW
      && l.c.tokens == map[1 := Token(10, 2, 32, 10, 0, 0)]
      && l.c.accounts == map[7 := Some(Account([], 0, 0)), 32 := Some(Account([1], 10, 10))]
  {
    AfterDeposit(10);
    FirstFlush(10);
    var es, rest := Sealed(Deposit(10)), [Try(HAND), Seal([7, 32])];
    var l := Run(GENESIS, es, RULES);
    assert rest == ([] + [Try(HAND)]) + [Seal([7, 32])];
    RunLast(l, [], Try(HAND), RULES);
    RunLast(l, [] + [Try(HAND)], Seal([7, 32]), RULES);
    RunConcat(GENESIS, es, rest, RULES);
    Handed(l);
    HandSealed(l, Next(l, Try(HAND), RULES));
    FlushLast(l, [], Try(HAND), RULES);
    FlushLast(l, [] + [Try(HAND)], Seal([7, 32]), RULES);
    FlushConcat(GENESIS, es, rest, RULES);
  }

  lemma HandSealed(l: Ledger, m: Ledger)
    requires Stands(l, Token(10, 1, 7, 10, 0, 0), Account([1], 10, 10)) && m.c == l.c
    requires m.v.tokens == map[1 := Token(10, 2, 32, 10, 0, 0)] && m.v.chains == map[]
    requires m.v.accounts == map[32 := Account([1], 10, 10), 7 := Account([], 0, 0)]
    ensures var c := Committed(m.c, m.v, [7, 32]);
      && c.tokens == map[1 := Token(10, 2, 32, 10, 0, 0)]
      && c.accounts == map[7 := Some(Account([], 0, 0)), 32 := Some(Account([1], 10, 10))]
    ensures FlushStep(m, Seal([7, 32]))
  {
    StoreTwo(m.c.accounts, Account([], 0, 0), Account([1], 10, 10));
    assert Short(7) == 7 && Short(32) == 32;
    assert ShortKeys(m.v.accounts) == {7, 32};
    var x: map<UInt64, Option<Account>> := map[7 := Some(Account([], 0, 0)), 32 := Some(Account([1], 10, 10))];
    assert 7 in x && x[7].Some?;
  }

  /** The block with the deposit can be flushed. */
  lemma FirstFlush(d: UInt64)
    ensures AllFlush(GENESIS, Sealed(Deposit(d)), RULES)
  {
    var tx, l := Deposit(d), GENESIS;
    assert Sealed(tx) == ([] + [Try(tx)]) + [Seal([7])];
    RunLast(l, [], Try(tx), RULES);
    FlushLast(l, [], Try(tx), RULES);
    assert AcceptsDeposit(l.c, l.v, tx) && AcceptsTx(l.c, l.v, tx, RULES.key);
    assert Short(7) == 7;
    FlushLast(l, [] + [Try(tx)], Seal([7]), RULES);
  }

  /** Ten deposited, five of it spent. A transfer that then states nothing spent and changes the
      balance is accepted and leaves amounts that do not add up. */
  lemma UnspendWitness()
    ensures var l := Run(GENESIS, Sealed(Deposit(10)) + Sealed(Restate(10, 1, 0, 5, 5)), RULES);
      var tx := Restate(10, 2, 6, 0, 4);
      && l.c.tokens == map[1 := Token(10, 2, 7, 5, 0, 5)]
      && AcceptsTransfer(l.c, l.v, tx) && Next(l, Try(tx), RULES).v.tokens == map[1 := Token(10, 3, 7, 4, 6, 5)]
      && !AllValid(Next(l, Try(tx), RULES))
  {
    Prepared(10, Restate(10, 1, 0, 5, 5));
    var l := Run(GENESIS, Sealed(Deposit(10)) + Sealed(Restate(10, 1, 0, 5, 5)), RULES);
    Restated(l, Token(10, 2, 7, 5, 0, 5), Account([1], 10, 5), Restate(10, 2, 6, 0, 4));
    assert 1 in map[1 := Token(10, 3, 7, 4, 6, 5)];
  }

  /** Five deposited and allowed to the operator. A transfer that then takes it back raises the
      token's balance from 0 to 5 and lowers the account's from 0 to 5 - 2^64. */
  lemma RaiseWitness()
    ensures var l := Run(GENESIS, Sealed(Deposit(5)) + Sealed(Restate(5, 1, 5, 0, 0)), RULES);
      var tx := Restate(5, 2, 0, 0, 5);
      && l.c.tokens == map[1 := Token(5, 2, 7, 0, 5, 0)] && l.c.accounts == map[7 := Some(Account([1], 5, 0))]
      && AcceptsTransfer(l.c, l.v, tx) && Next(l, Try(tx), RULES).v.tokens == map[1 := Token(5, 3, 7, 5, 0, 0)]
      && Next(l, Try(tx), RULES).v.accounts == map[7 := Account([1], 5, 5 - TWO_64)]
  {
    RaisedAmounts();
    Prepared(5, Restate(5, 1, 5, 0, 0));
    var l := Run(GENESIS, Sealed(Deposit(5)) + Sealed(Restate(5, 1, 5, 0, 0)), RULES);
    Restated(l, Token(5, 2, 7, 0, 5, 0), Account([1], 5, 0), Restate(5, 2, 0, 0, 5));
  }

  lemma RaisedAmounts()
    ensures var t, tx := Token(5, 2, 7, 0, 5, 0), Restate(5, 2, 0, 0, 5);
      && TransferChecks(t, tx) && Consumes(t, tx) && Transferred(t, tx, 3) == Token(5, 3, 7, 5, 0, 0)
      && RecipientAfter(Account([1], 5, 0), t, tx) == Account([1], 5, 5 - TWO_64)
  {
  }

  const REGISTER := AnchorTx(1, 0, Some(7), [], [], 0)

  /** The last block of the run: the transfer of `RaiseWitness`, and, if `anchored`, an anchor. */
  function LastBlock(anchored: bool): seq<Event> {
    [] + [Try(Restate(5, 2, 0, 0, 5))] + (if anchored then [TryAnchor(REGISTER)] else []) + [Seal([7])]
  }

  function RaisedRun(anchored: bool): seq<Event> {
    Sealed(Deposit(5)) + Sealed(Restate(5, 1, 5, 0, 0)) + LastBlock(anchored)
  }

  lemma LastSealed(l: Ledger, anchored: bool)
    requires Stands(l, Token(5, 2, 7, 0, 5, 0), Account([1], 5, 0)) && |l.log| == 2
    ensures var l' := Run(l, LastBlock(anchored), RULES);
      && l'.c.tokens == map[1 := Token(5, 3, 7, 5, 0, 0)] && l'.v == NO_VIEW
      && l'.c.accounts == if anchored then map[7 := None] else map[]
  {
    var mid := BeforeSeal(l, anchored);
    SealSeven(mid, mid.v, Token(5, 3, 7, 5, 0, 0), Account([1], 5, 5 - TWO_64));
  }

  /** The ledger just before that block is sealed. */
  lemma BeforeSeal(l: Ledger, anchored: bool) returns (mid: Ledger)
    requires Stands(l, Token(5, 2, 7, 0, 5, 0), Account([1], 5, 0)) && |l.log| == 2
    ensures Run(l, LastBlock(anchored), RULES) == Next(mid, Seal([7]), RULES)
    ensures mid.c == l.c && mid.v.tokens == map[1 := Token(5, 3, 7, 5, 0, 0)]
    ensures mid.v.accounts == map[7 := Account([1], 5, 5 - TWO_64)] && (mid.v.anchors != map[] <==> anchored)
  {
    var tx := Restate(5, 2, 0, 0, 5);
    RaisedAmounts();
    Restated(l, Token(5, 2, 7, 0, 5, 0), Account([1], 5, 0), tx);
    Registered(Next(l, Try(tx), RULES));
    mid := Lasting(l, tx, anchored);
  }

  lemma Lasting(l: Ledger, tx: Tx, anchored: bool) returns (mid: Ledger)
    requires tx == Restate(5, 2, 0, 0, 5)
    ensures Run(l, LastBlock(anchored), RULES) == Next(mid, Seal([7]), RULES)
    ensures var m := Next(l, Try(tx), RULES); mid == if anchored then Next(m, TryAnchor(REGISTER), RULES) else m
  {
    var es := [] + [Try(tx)] + if anchored then [TryAnchor(REGISTER)] else [];
    RunLast(l, [], Try(tx), RULES);
    if anchored { RunLast(l, [] + [Try(tx)], TryAnchor(REGISTER), RULES); } else { assert es == [] + [Try(tx)]; }
    RunLast(l, es, Seal([7]), RULES);
    mid := Run(l, es, RULES);
  }

  lemma Registered(l: Ledger)
    requires l.c.chains == map[] && l.v.chains == map[] && l.v.anchors == map[]
    ensures var v := Next(l, TryAnchor(REGISTER), RULES).v;
      v.tokens == l.v.tokens && v.accounts == l.v.accounts && 1 in v.anchors
  {
    assert AcceptsAnchor(l.c, l.v, REGISTER, false);
  }

  /** Sealing that transfer loses the account: its balance is negative and does not encode, and the
      token is in no list that can be read. If the block has an anchor, handing the token to another
      account panics, and no transaction to the lost account is accepted. If it has none, the tree of
      accounts opens empty, and so does the account. */
  lemma LostWitness(w: iset<Address>, tx: Tx, anchored: bool)
    requires 7 in w && tx.tokenID == 1 && tx.prevOwner == 7 && tx.prevBlock != 0
    ensures var l := Run(GENESIS, RaisedRun(anchored), RULES);
      && l.c.tokens == map[1 := Token(5, 3, 7, 5, 0, 0)] && !Owned(false, w, l)
      && if anchored then
           && l.c.accounts == map[7 := None]
           && (Short(tx.recipient) != 7 && TransferChecks(l.c.tokens[1], tx) ==> Panics(l.c, l.v, tx))
           && (tx.recipient == 7 ==> !AcceptsTx(l.c, l.v, tx, RULES.key) && !Panics(l.c, l.v, tx))
         else Readable(l.c, l.v, 7) && AccountOf(l.c, l.v, 7) == NO_ACCOUNT
  {
    Prepared(5, Restate(5, 1, 5, 0, 0));
    var es := Sealed(Deposit(5)) + Sealed(Restate(5, 1, 5, 0, 0));
    RunConcat(GENESIS, es, LastBlock(anchored), RULES);
    LastSealed(Run(GENESIS, es, RULES), anchored);
    Lost(Run(GENESIS, RaisedRun(anchored), RULES), w, tx, Token(5, 3, 7, 5, 0, 0), anchored);
  }

  lemma Lost(l: Ledger, w: iset<Address>, tx: Tx, t: Token, anchored: bool)
    requires 7 in w && tx.tokenID == 1 && tx.prevOwner == 7 && tx.prevBlock != 0
    requires l.c.tokens == map[1 := t] && l.v == NO_VIEW && t.owner == 7
    requires l.c.accounts == if anchored then map[7 := None] else map[]
    ensures !Owned(false, w, l)
    ensures anchored && Short(tx.recipient) != 7 && TransferChecks(t, tx) ==> Panics(l.c, l.v, tx)
    ensures anchored && tx.recipient == 7 ==> !AcceptsTx(l.c, l.v, tx, RULES.key) && !Panics(l.c, l.v, tx)
  {
    assert Short(7) == 7;
    assert Tokens(l.c, l.v)[1] == t;
    assert !OwnerLists(w, l.c, l.v, 1);
  }

  const ZERO: Address := TWO_64

  /** A deposit to an address that ends in eight zero bytes is sealed. Its account is never read back,
      and no block is flushed after that. */
  lemma ZeroWitness(w: iset<Address>, d: UInt64, v: View)
    requires ZERO in w
    ensures var tx := Deposit(d).(recipient := ZERO);
      var l := Run(GENESIS, [Try(tx), Seal([ZERO])], RULES);
      && Named(tx, RULES.key) && l.c.accounts == map[0 := Some(Account([1], d, d))]
      && !Readable(l.c, l.v, ZERO) && !Owned(false, w, l) && !Flushes(l.c, v)
  {
    var tx := Deposit(d).(recipient := ZERO);
    var es := [Try(tx), Seal([ZERO])];
    assert es == ([] + [Try(tx)]) + [Seal([ZERO])];
    RunLast(GENESIS, [], Try(tx), RULES);
    RunLast(GENESIS, [] + [Try(tx)], Seal([ZERO]), RULES);
    ZeroDeposit(tx, d);
    var l := Run(GENESIS, es, RULES);
    assert 1 in Tokens(l.c, l.v) && !OwnerLists(w, l.c, l.v, 1);
  }

  lemma ZeroDeposit(tx: Tx, d: UInt64)
    requires tx == Deposit(d).(recipient := ZERO)
    ensures var l := Next(GENESIS, Try(tx), RULES);
      && l.v.tokens == map[1 := Deposited(tx, 1)] && l.v.accounts == map[ZERO := Account([1], d, d)]
      && StoreAll(map[], l.v.accounts, [ZERO]) == map[0 := Some(Account([1], d, d))]
  {
    var l := GENESIS;
    assert AcceptsDeposit(l.c, l.v, tx) && AcceptsTx(l.c, l.v, tx, RULES.key);
    assert AccountOf(l.c, l.v, ZERO) == NO_ACCOUNT;
    assert [] + [1] == [1 as UInt64];
    assert [ZERO][..0] == [];
    assert Short(ZERO) == 0;
  }

  /** A deposit named by the wrong token, which the pool turns away, leaves a token that no account
      lists if it is applied all the same. */
  lemma LateWitness(w: iset<Address>)
    requires 7 in w
    ensures var tx := Deposit(10).(tokenID := 2);
      && !Named(tx, RULES.key) && RejectedLate(GENESIS.c, GENESIS.v, tx, RULES.key)
      && !Owned(false, w, Next(GENESIS, Try(tx), RULES))
  {
    var tx := Deposit(10).(tokenID := 2);
    var v := Next(GENESIS, Try(tx), RULES).v;
    assert tx.tokenID in Tokens(GENESIS.c, v);
    assert AccountOf(GENESIS.c, v, 7) == NO_ACCOUNT;
    assert !OwnerLists(w, GENESIS.c, v, tx.tokenID);
  }
}
