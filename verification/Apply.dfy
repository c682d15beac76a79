/** Applying transactions to a pending state in place. */
module Apply {
  import opened Bytes
  import opened Plasma
  import opened Journal
  import opened State
  import opened Bloom

  /** How applying a transaction ends. */
  datatype Outcome = Applied | Rejected | Panicked

  /** A written block: its number, the transactions in its transaction tree by token, and the chunk
      of its bloom filter, which a block without transactions does not have. */
  datatype MintedBlock = MintedBlock(number: nat, transactions: map<UInt64, nat>, bloom: seq<bv8>)

  ghost function BlockOf(number: nat, txs: map<UInt64, nat>): MintedBlock {
    MintedBlock(number, txs, if txs == map[] then [] else SetChunk(txs.Keys))
  }

  class PlasmaChain {
    const tokenKey: TokenKey
    var blockNumber: nat
    var storage: Storage
    var blocks: seq<MintedBlock>

    /** The written blocks are numbered from 1 to the current block number. */
    ghost predicate Numbered()
      reads this
    {
      |blocks| == blockNumber && forall i :: 0 <= i < |blocks| ==> blocks[i].number == i + 1
    }

    constructor (tokenKey: TokenKey)
      ensures this.tokenKey == tokenKey && storage == Storage(map[], map[], map[]) && blocks == []
      ensures Numbered()
    {
      this.tokenKey := tokenKey;
      blockNumber := 0;
      storage := Storage(map[], map[], map[]);
      blocks := [];
    }

    /** Makes the last of a list of blocks the current one: `storage` is what it committed. For a
        block made on top of the current one the numbering goes on. */
    method InsertChain(chain: seq<MintedBlock>, storage: Storage)
      requires chain != []
      modifies this
      ensures blockNumber == chain[|chain| - 1].number && this.storage == storage && blocks == old(blocks) + chain
      ensures old(Numbered()) && |chain| == 1 && chain[0].number == old(blockNumber) + 1 ==> Numbered()
    {
      var last := chain[0];
      for i := 0 to |chain|
        invariant i > 0 ==> last == chain[i - 1]
      {
        last := chain[i];
      }
      blocks := blocks + chain;
      this.storage := storage;
      blockNumber := last.number;
    }

    // ----- Transfers -----

    method Relist(s: StateDB, t: Token, snd: AccountObject, rec: AccountObject, id: UInt64, ghost mark: nat)
      requires snd.db == rec.db == s && snd.address != rec.address && snd.Known() && rec.Known() && mark <= |s.journal|
      modifies snd`acct, rec`acct, s`journal
      ensures snd.Known() && rec.Known()
      ensures rec.acct == WithToken(old(rec.acct), id, t) && snd.acct == WithoutToken(old(snd.acct), id, t)
      ensures s.Kept(WithAccount(WithAccount(old(s.Pending()), rec.address, rec.acct), snd.address, snd.acct), mark)
    {
      rec.AddToken(id, t, mark);
      snd.RemoveToken(id, t, mark);
    }

    /** Hands a token from one account to another. */
    method Move(s: StateDB, sobj: TokenObject, snd: AccountObject, rec: AccountObject, tx: Tx, ghost mark: nat)
      requires sobj.db == snd.db == rec.db == s && snd.address != rec.address
      requires sobj.Loose() && snd.Known() && rec.Known() && mark <= |s.journal|
      modifies sobj`token, snd`acct, rec`acct, s`journal
      ensures sobj.Loose() && snd.Known() && rec.Known()
      ensures sobj.token == old(sobj.token).(owner := rec.address)
      ensures rec.acct == WithToken(old(rec.acct), tx.tokenID, old(sobj.token))
      ensures snd.acct == WithoutToken(old(snd.acct), tx.tokenID, old(sobj.token))
      ensures s.Kept(WithAccount(WithAccount(old(s.Pending()), rec.address, rec.acct), snd.address, snd.acct), mark)
    {
      sobj.SetOwner(rec.address, mark);
      Relist(s, sobj.token, snd, rec, tx.tokenID, mark);
    }

    /** Takes what is consumed of the token's balance off the recipient's. */
    method Consume(s: StateDB, sobj: TokenObject, rec: AccountObject, tx: Tx, ghost mark: nat)
      requires sobj.db == rec.db == s && sobj.Loose() && rec.Known() && mark <= |s.journal|
      modifies sobj`token, rec`acct, s`journal
      ensures sobj.Loose() && rec.Known()
      ensures sobj.token == old(sobj.token).(balance := tx.balance, allowance := tx.allowance)
      ensures rec.acct == old(rec.acct).(balance := old(rec.acct.balance) - Consumption(old(sobj.token), tx))
      ensures s.Kept(WithAccount(old(s.Pending()), rec.address, rec.acct), mark)
    {
      var consumption := (sobj.token.balance - tx.balance) % TWO_64;
      sobj.SetBalance(tx.balance, tx.allowance, mark);
      rec.SetAccountBalance(rec.acct.balance - consumption, mark);
    }

    /** The withdrawal and balance changes of a transfer. */
    method Spend(s: StateDB, sobj: TokenObject, rec: AccountObject, tx: Tx, ghost mark: nat) returns (dirtied: bool)
      requires sobj.db == rec.db == s && sobj.Loose() && rec.Known() && mark <= |s.journal|
      modifies sobj`token, rec`acct, s`journal
      ensures sobj.Loose() && rec.Known()
      ensures var t := old(sobj.token);
        && sobj.token == Transferred(t.(owner := tx.recipient), tx, t.prevBlock).(owner := t.owner)
        && rec.acct == RecipientAfter(old(rec.acct), t.(owner := tx.recipient), tx)
        && dirtied == (Withdraws(t, tx) || Consumes(t, tx))
      ensures s.Kept(if Consumes(old(sobj.token), tx) then WithAccount(old(s.Pending()), rec.address, rec.acct)
                     else old(s.Pending()), mark)
    {
      dirtied := false;
      if tx.spent > sobj.token.spent {
        sobj.SetWithdrawal(tx.allowance, tx.spent, mark);
        dirtied := true;
      }
      if tx.balance != sobj.token.balance {
        Consume(s, sobj, rec, tx, mark);
        dirtied := true;
      }
    }

    /** The token, withdrawal and balance changes of a transfer that passed its checks. */
    method Transfer(s: StateDB, sobj: TokenObject, snd: AccountObject, rec: AccountObject, tx: Tx, ghost mark: nat)
      returns (dirtied: bool, moved: bool)
      requires sobj.db == snd.db == rec.db == s && sobj.Loose() && snd.Known() && rec.Known()
      requires snd.address == sobj.token.owner && rec.address == tx.recipient && mark <= |s.journal|
      modifies sobj`token, snd`acct, rec`acct, s`journal
      ensures sobj.Loose() && snd.Known() && rec.Known()
      ensures sobj.token == Transferred(old(sobj.token), tx, old(sobj.token.prevBlock))
      ensures moved == Moves(old(sobj.token), tx)
      ensures dirtied == (moved || Withdraws(old(sobj.token), tx) || Consumes(old(sobj.token), tx))
      ensures rec.acct == RecipientAfter(old(rec.acct), old(sobj.token), tx)
      ensures moved ==> snd.acct == WithoutToken(old(snd.acct), tx.tokenID, old(sobj.token))
      ensures s.Kept(TransferPending(old(s.Pending()), old(sobj.token), tx, rec.acct, moved,
                                     if moved then snd.acct else NO_ACCOUNT), mark)
    {
      moved := sobj.token.owner != tx.recipient;
      ghost var before := rec.acct;
      if moved { Move(s, sobj, snd, rec, tx, mark); }
      if moved {
        AccountTwice(old(s.Pending()), rec.address, snd.address, rec.acct, snd.acct,
                     RecipientAfter(before, old(sobj.token), tx));
      }
      dirtied := Spend(s, sobj, rec, tx, mark);
      dirtied := dirtied || moved;
    }

    /** Stamps the token with the block being built and registers what has changed. */
    method Finish(s: StateDB, sobj: TokenObject, snd: AccountObject, rec: AccountObject, moved: bool, tx: Tx,
                  ghost v: View, ghost t: Token, ghost now: View)
      requires v == s.Pending() && t == sobj.token.(prevBlock := blockNumber + 1)
      requires now == Settled(v, tx, t, rec.acct, moved, if moved then snd.acct else NO_ACCOUNT)
      requires sobj.db == snd.db == rec.db == s && sobj.Loose() && snd.Known() && rec.Known()
      requires sobj.tokenID == tx.tokenID && rec.address == tx.recipient
      requires moved ==> snd.address == tx.prevOwner && snd.address != rec.address
      modifies sobj`token, s`journal, s`tokenObjects, s`tokenIsSet, s`thashList, s`accountObjects
      ensures s.Valid() && s.journal == old(s.journal) + [PrevBlockChange(tx.tokenID, old(sobj.token.prevBlock))]
      ensures s.Pending() == now
    {
      sobj.SetPrevBlock(blockNumber + 1, |s.journal|);
      s.Append(tx.tokenID, sobj, tx.hash);
      s.Register(rec);
      if moved { s.Register(snd); }
    }

    /** A transfer that passed its checks: one per token and block, and one that changes something.
        `now` is what is pending after it. */
    method Checked(s: StateDB, sobj: TokenObject, snd: AccountObject, rec: AccountObject, tx: Tx,
                   ghost v: View, ghost t: Token, ghost r: Account, ghost o: Account, ghost now: View)
      returns (ok: bool)
      requires v == s.Pending() && t == sobj.token && r == rec.acct && o == snd.acct
      requires Settles(v, t, tx) ==> now == TransferSettled(v, t, tx, blockNumber + 1, r, o)
      requires sobj.db == snd.db == rec.db == s && sobj.Loose() && snd.Known() && rec.Known()
      requires sobj.tokenID == tx.tokenID && snd.address == tx.prevOwner == sobj.token.owner
      requires rec.address == tx.recipient
      modifies sobj`token, snd`acct, rec`acct, s`journal, s`tokenObjects, s`tokenIsSet, s`thashList, s`accountObjects
      ensures s.Valid() && old(s.journal) <= s.journal && (ok <==> Settles(v, t, tx))
      ensures if ok then s.Pending() == now else s.Undone(|old(s.journal)|) == v
    {
      var dirtied, moved := Transfer(s, sobj, snd, rec, tx, |s.journal|);
      ok := tx.tokenID !in s.tokenIsSet && dirtied;
      if ok { Settle(s, sobj, snd, rec, moved, tx, v, t, r, o, now); }
    }

    method Settle(s: StateDB, sobj: TokenObject, snd: AccountObject, rec: AccountObject, moved: bool, tx: Tx,
                  ghost v: View, ghost t: Token, ghost r: Account, ghost o: Account, ghost now: View)
      requires moved == Moves(t, tx) && rec.acct == RecipientAfter(r, t, tx)
      requires moved ==> snd.acct == WithoutToken(o, tx.tokenID, t)
      requires s.Pending() == TransferPending(v, t, tx, rec.acct, moved, if moved then snd.acct else NO_ACCOUNT)
      requires sobj.token == Transferred(t, tx, t.prevBlock) && now == TransferSettled(v, t, tx, blockNumber + 1, r, o)
      requires sobj.db == snd.db == rec.db == s && sobj.Loose() && snd.Known() && rec.Known()
      requires sobj.tokenID == tx.tokenID && snd.address == tx.prevOwner == t.owner && rec.address == tx.recipient
      modifies sobj`token, s`journal, s`tokenObjects, s`tokenIsSet, s`thashList, s`accountObjects
      ensures s.Valid() && old(s.journal) <= s.journal && s.Pending() == now
    {
      Stamped(t, tx, blockNumber + 1);
      ghost var mid, last := s.Pending(), if moved then snd.acct else NO_ACCOUNT;
      SettledFrom(v, t, tx, blockNumber + 1, r, o, mid, rec.acct, moved, last);
      Finish(s, sobj, snd, rec, moved, tx, mid, Transferred(t, tx, blockNumber + 1), now);
    }

    /** A transfer on the stored state `c` and the pending view `v`. `now` is what is pending after it
        is tried, and undone if it is turned down. */
    method ApplyTransfer(s: StateDB, snd: AccountObject, rec: AccountObject, tx: Tx, ghost c: Storage, ghost v: View,
                         ghost now: View)
      returns (ok: bool)
      requires c == s.storage && v == s.Pending() && now == Tried(c, v, blockNumber + 1, tx, tokenKey)
      requires snd.db == rec.db == s && snd.Known() && rec.Known() && tx.prevBlock != 0
      requires LooksUp(c, v, tx) && Readable(c, v, tx.prevOwner) && !Loads(c.tokens.Keys, tx.tokenID)
      requires snd.address == tx.prevOwner && snd.acct == AccountOf(c, v, tx.prevOwner)
      requires rec.address == tx.recipient && rec.acct == AccountOf(c, v, tx.recipient)
      modifies snd`acct, rec`acct, s`journal, s`tokenObjects, s`tokenIsSet, s`thashList, s`accountObjects
      ensures s.Valid() && old(s.journal) <= s.journal && (ok <==> AcceptsTransfer(c, v, tx))
      ensures if ok then s.Pending() == now else s.Undone(|old(s.journal)|) == now
    {
      TransferTried(c, v, blockNumber + 1, tx, tokenKey, now);
      var sobj := s.GetTokenObject(tx.tokenID);
      if sobj == null { return false; }
      if !TransferChecks(sobj.token, tx) { return false; }
      ok := Checked(s, sobj, snd, rec, tx, v, sobj.token, rec.acct, snd.acct, now);
    }

    // ----- Deposits -----

    /** A deposit up to the point where its transaction is stored. */
    method Deposit(s: StateDB, sobj: TokenObject, rec: AccountObject, tx: Tx, ghost v: View, ghost a: Account,
                   ghost now: View)
      returns (ok: bool)
      requires v == s.Pending() && a == rec.acct
      requires tx.tokenID !in v.isSet ==> now == DepositSettled(v, tx, blockNumber + 1, a)
      requires sobj.db == rec.db == s && sobj.Loose() && rec.Known()
      requires sobj.tokenID == tx.tokenID && sobj.token == Deposited(tx, 0) && rec.address == tx.recipient
      modifies sobj`token, rec`acct, s`journal, s`tokenObjects, s`tokenIsSet, s`thashList, s`accountObjects
      ensures s.Valid() && old(s.journal) <= s.journal
      ensures ok <==> tx.tokenID !in v.isSet
      ensures ok ==> s.Pending() == now && s.journal[|old(s.journal)|..] == DepositEntries(tx, a)
      ensures !ok ==> s.Undone(|old(s.journal)|) == v
    {
      EntriesAfter(s.journal, tx, a);
      rec.AddToken(tx.tokenID, sobj.token, |s.journal|);
      ok := tx.tokenID !in s.tokenIsSet;
      if ok { FinishDeposit(s, sobj, rec, tx, v, a, now); }
    }

    method FinishDeposit(s: StateDB, sobj: TokenObject, rec: AccountObject, tx: Tx, ghost v: View, ghost a: Account,
                         ghost now: View)
      requires sobj.db == rec.db == s && sobj.Loose() && rec.Known()
      requires sobj.tokenID == tx.tokenID && sobj.token == Deposited(tx, 0) && rec.address == tx.recipient
      requires rec.acct == WithToken(a, tx.tokenID, Deposited(tx, 0))
      requires s.Pending() == WithAccount(v, tx.recipient, rec.acct)
      requires now == DepositSettled(v, tx, blockNumber + 1, a)
      modifies sobj`token, s`journal, s`tokenObjects, s`tokenIsSet, s`thashList, s`accountObjects
      ensures s.Valid() && s.Pending() == now
      ensures s.journal == old(s.journal) + [PrevBlockChange(tx.tokenID, 0)]
    {
      Finish(s, sobj, rec, rec, false, tx, s.Pending(), Deposited(tx, blockNumber + 1), now);
    }

    /** What is pending after a deposit has entered is `now`, and what undoing it leaves is `left`. */
    method EnterDeposit(s: StateDB, rec: AccountObject, tx: Tx, ghost c: Storage, ghost v: View, ghost now: View,
                        ghost left: View)
      returns (ok: bool)
      requires c == s.storage && v == s.Pending()
      requires AcceptsDeposit(c, v, tx) ==> EntersAs(c, v, blockNumber + 1, tx, now, left)
      requires rec.db == s && rec.Known() && tx.prevBlock == 0
      requires LooksUp(c, v, tx) && !Loads(c.tokens.Keys, tx.tokenID)
      requires rec.address == tx.recipient && rec.acct == AccountOf(c, v, tx.recipient)
      modifies rec`acct, s`journal, s`tokenObjects, s`tokenIsSet, s`thashList, s`accountObjects
      ensures s.Valid() && old(s.journal) <= s.journal && (ok <==> AcceptsDeposit(c, v, tx))
      ensures ok ==> s.Pending() == now && s.Undone(|old(s.journal)|) == left
      ensures !ok ==> s.Undone(|old(s.journal)|) == v
    {
      var sobj := s.CreateDeposit(tx.tokenID, tx.denomination, tx.recipient);
      if sobj == null { return false; }
      ok := Deposit(s, sobj, rec, tx, v, rec.acct, now);
    }

    /** Turned down late, after the token is registered, when the deposit does not hash to its
        token; what is then left after undoing is `LeftBehind`. */
    method ApplyDeposit(s: StateDB, rec: AccountObject, tx: Tx, ghost c: Storage, ghost v: View, ghost now: View)
      returns (ok: bool)
      requires c == s.storage && v == s.Pending() && now == Tried(c, v, blockNumber + 1, tx, tokenKey)
      requires rec.db == s && rec.Known() && tx.prevBlock == 0
      requires LooksUp(c, v, tx) && !Loads(c.tokens.Keys, tx.tokenID)
      requires rec.address == tx.recipient && rec.acct == AccountOf(c, v, tx.recipient)
      modifies rec`acct, s`journal, s`tokenObjects, s`tokenIsSet, s`thashList, s`accountObjects
      ensures s.Valid() && old(s.journal) <= s.journal && (ok <==> AcceptsTx(c, v, tx, tokenKey))
      ensures if ok then s.Pending() == now else s.Undone(|old(s.journal)|) == now
    {
      ghost var after, left := DepositTried(c, v, blockNumber + 1, tx, tokenKey, now);
      ok := EnterDeposit(s, rec, tx, c, v, after, left);
      if ok && tokenKey(tx.depositIndex, tx.denomination, tx.recipient) != tx.tokenID { return false; }
    }

    /** A transfer whose sender's account cannot be read: turned down by a check, or a panic when the
        token is to be taken off the account. */
    method ApplyStranded(s: StateDB, tx: Tx, ghost c: Storage, ghost v: View) returns (r: Outcome)
      requires s.Valid() && c == s.storage && v == s.Pending() && tx.prevBlock != 0
      requires LooksUp(c, v, tx) && !Loads(c.tokens.Keys, tx.tokenID) && !Readable(c, v, tx.prevOwner)
      ensures s.Pending() == v && !AcceptsTx(c, v, tx, tokenKey)
      ensures r != Applied && (r == Panicked <==> Panics(c, v, tx))
    {
      var sobj := s.GetTokenObject(tx.tokenID);
      r := if sobj != null && TransferChecks(sobj.token, tx) then Panicked else Rejected;
    }

    /** The recipient's account was found. The sender's may be missing. */
    method ApplyTo(s: StateDB, snd: AccountObject?, rec: AccountObject, tx: Tx, ghost c: Storage, ghost v: View,
                   ghost now: View)
      returns (r: Outcome)
      requires s.Valid() && c == s.storage && v == s.Pending() && now == Tried(c, v, blockNumber + 1, tx, tokenKey)
      requires LooksUp(c, v, tx) && !Breaks(c, v, tx.recipient) && (snd != null <==> Readable(c, v, tx.prevOwner))
      requires rec.db == s && rec.Known() && rec.address == tx.recipient && rec.acct == AccountOf(c, v, tx.recipient)
      requires snd != null ==> snd.db == s && snd.Known() && snd.address == tx.prevOwner
      requires snd != null ==> snd.acct == AccountOf(c, v, tx.prevOwner)
      modifies (if snd == null then {} else {snd})`acct, rec`acct
      modifies s`journal, s`tokenObjects, s`tokenIsSet, s`thashList, s`accountObjects
      ensures s.Valid() && old(s.journal) <= s.journal
      ensures (r == Applied <==> AcceptsTx(c, v, tx, tokenKey)) && (r == Panicked <==> Panics(c, v, tx))
      ensures if r == Applied then s.Pending() == now else s.Undone(|old(s.journal)|) == now
    {
      NotApplied(c, v, blockNumber + 1, tx, tokenKey);
      var panic := s.WalkTokens(tx.tokenID);
      if panic { return Panicked; }
      if tx.prevBlock != 0 && snd == null {
        r := ApplyStranded(s, tx, c, v);
      } else {
        var ok;
        if tx.prevBlock == 0 {
          ok := ApplyDeposit(s, rec, tx, c, v, now);
        } else {
          ok := ApplyTransfer(s, snd, rec, tx, c, v, now);
        }
        r := if ok then Applied else Rejected;
      }
    }

    /** Applies a deposit or a transfer to the stored state `c` and the pending view `v`. A rejection
        leaves changes that undoing the journal takes back, all of them unless it is late. */
    method ApplyPlasmaTransaction(s: StateDB, tx: Tx, ghost c: Storage, ghost v: View, ghost now: View)
      returns (r: Outcome)
      requires s.Valid() && c == s.storage && v == s.Pending() && now == Tried(c, v, blockNumber + 1, tx, tokenKey)
      modifies s`journal, s`tokenObjects, s`tokenIsSet, s`thashList, s`accountObjects, s`accounts, s.accounts`acct
      ensures fresh(s.accounts - old(s.accounts))
      ensures s.Valid() && old(s.journal) <= s.journal
      ensures (r == Applied <==> AcceptsTx(c, v, tx, tokenKey)) && (r == Panicked <==> Panics(c, v, tx))
      ensures if r == Applied then s.Pending() == now else s.Undone(|old(s.journal)|) == now
    {
      NotApplied(c, v, blockNumber + 1, tx, tokenKey);
      var snd, rec, panic := Accounts(s, tx);
      if panic { return Panicked; }
      if rec == null { return Rejected; }
      r := ApplyTo(s, snd, rec, tx, c, v, now);
    }

    method Accounts(s: StateDB, tx: Tx) returns (snd: AccountObject?, rec: AccountObject?, panic: bool)
      requires s.Valid()
      modifies s`accounts
      ensures s.Valid() && s.Pending() == old(s.Pending()) && fresh(s.accounts - old(s.accounts))
      ensures old(s.accounts) <= s.accounts
      ensures panic <==> Breaks(s.storage, s.Pending(), tx.prevOwner) || Breaks(s.storage, s.Pending(), tx.recipient)
      ensures snd != null <==> Readable(s.storage, s.Pending(), tx.prevOwner)
      ensures rec != null <==> Readable(s.storage, s.Pending(), tx.recipient)
      ensures snd != null ==> snd.db == s && snd.Known() && snd.address == tx.prevOwner
      ensures snd != null ==> snd.acct == AccountOf(s.storage, s.Pending(), tx.prevOwner)
      ensures rec != null ==> rec.db == s && rec.Known() && rec.address == tx.recipient
      ensures rec != null ==> rec.acct == AccountOf(s.storage, s.Pending(), tx.recipient)
    {
      snd, panic := s.GetOrCreateAccount(tx.prevOwner);
      var broken;
      rec, broken := s.GetOrCreateAccount(tx.recipient);
      panic := panic || broken;
    }

    // ----- Anchors -----

    method AddMissing(s: StateDB, ch: ChainObject, a: Address, ghost mark: nat)
      requires ch.db == s && ch.Known() && mark <= |s.journal|
      modifies ch`anb, s`journal
      ensures ch.Known()
      ensures ch.anb ==
        old(ch.anb).(owners := if a in old(ch.anb.owners) then old(ch.anb.owners) else old(ch.anb.owners) + [a])
      ensures s.Kept(WithChain(old(s.Pending()), ch.chainID, ch.anb), mark)
    {
      var existed := ch.Existed(a);
      ChainTwice(s.Pending(), ch.chainID, ch.anb, ch.anb);
      if !existed { ch.AddOwner(a, mark); }
    }

    method AddOwners(s: StateDB, ch: ChainObject, added: seq<Address>, ghost mark: nat)
      requires ch.db == s && ch.Known() && mark <= |s.journal|
      modifies ch`anb, s`journal
      ensures ch.Known() && ch.anb == old(ch.anb).(owners := WithOwners(old(ch.anb.owners), added))
      ensures s.Kept(WithChain(old(s.Pending()), ch.chainID, ch.anb), mark)
    {
      ghost var v := s.Pending();
      ChainTwice(v, ch.chainID, ch.anb, ch.anb);
      for i := 0 to |added|
        invariant ch.Known() && ch.anb == old(ch.anb).(owners := WithOwners(old(ch.anb.owners), added[..i]))
        invariant s.Kept(WithChain(v, ch.chainID, ch.anb), mark)
      {
        assert added[..i + 1][..i] == added[..i];
        ghost var was := ch.anb;
        AddMissing(s, ch, added[i], mark);
        ChainTwice(v, ch.chainID, was, ch.anb);
      }
      assert added[..|added|] == added;
    }

    method RemoveOne(s: StateDB, ch: ChainObject, a: Address, ghost mark: nat) returns (ok: bool)
      requires ch.db == s && ch.Known() && mark <= |s.journal|
      modifies ch`anb, s`journal
      ensures ch.Known() && ch.anb == old(ch.anb)
      ensures ok <==> a !in ch.anb.owners || |ch.anb.owners| != 1
      ensures s.Kept(old(s.Pending()), mark)
    {
      var existed := ch.Existed(a);
      if existed && |ch.anb.owners| == 1 { return false; }
      ChainTwice(s.Pending(), ch.chainID, ch.anb, ch.anb);
      if existed { ch.RemoveOwner(a, mark); }
      return true;
    }

    /** As removal matches nothing, a list of removals is turned down or changes nothing. */
    method RemoveOwners(s: StateDB, ch: ChainObject, removed: seq<Address>, ghost mark: nat) returns (ok: bool)
      requires ch.db == s && ch.Known() && mark <= |s.journal|
      modifies ch`anb, s`journal
      ensures ch.Known() && ch.anb == old(ch.anb)
      ensures WithoutOwners(ch.anb.owners, removed, false) == if ok then Some(ch.anb.owners) else None
      ensures s.Kept(old(s.Pending()), mark)
    {
      for i := 0 to |removed|
        invariant ch.Known() && ch.anb == old(ch.anb)
        invariant WithoutOwners(ch.anb.owners, removed[..i], false) == Some(ch.anb.owners)
        invariant s.Kept(old(s.Pending()), mark)
      {
        assert removed[..i + 1][..i] == removed[..i];
        var one := RemoveOne(s, ch, removed[i], mark);
        if !one {
          StaysNone(ch.anb.owners, removed, i + 1);
          return false;
        }
      }
      assert removed[..|removed|] == removed;
      return true;
    }

    /** The checks and owner changes of the first anchor of a chain. */
    method RegisterChain(s: StateDB, ch: ChainObject, tx: AnchorTx, ghost mark: nat) returns (ok: bool)
      requires ch.db == s && ch.Known() && mark <= |s.journal| && tx.number == 0
      modifies ch`anb, s`journal
      ensures ch.Known() && ch.anb == old(ch.anb).(owners := ch.anb.owners)
      ensures OwnersAfter(old(ch.anb), tx, false) == if ok then Some(ch.anb.owners) else None
      ensures s.Kept(WithChain(old(s.Pending()), ch.chainID, ch.anb), mark)
    {
      ghost var v, was := s.Pending(), ch.anb;
      ChainTwice(v, ch.chainID, ch.anb, ch.anb);
      if |ch.anb.owners| > 0 || ch.anb.end > 0 || tx.signer == None { return false; }
      ch.AddOwner(tx.signer.value, mark);
      if |tx.removed| > 0 { return false; }
      ghost var first := ch.anb;
      AddOwners(s, ch, tx.added, mark);
      ChainTwice(v, ch.chainID, first, ch.anb);
      assert was.owners + [tx.signer.value] == [tx.signer.value];
      return true;
    }

    /** The checks and owner changes of a later anchor. */
    method ExtendChain(s: StateDB, ch: ChainObject, tx: AnchorTx, ghost mark: nat) returns (ok: bool)
      requires ch.db == s && ch.Known() && mark <= |s.journal| && tx.number != 0
      modifies ch`anb, s`journal
      ensures ch.Known() && ch.anb == old(ch.anb).(owners := ch.anb.owners)
      ensures OwnersAfter(old(ch.anb), tx, false) == if ok then Some(ch.anb.owners) else None
      ensures s.Kept(WithChain(old(s.Pending()), ch.chainID, ch.anb), mark)
    {
      ChainTwice(s.Pending(), ch.chainID, ch.anb, ch.anb);
      if |ch.anb.owners| == 0 || ch.anb.end == tx.number || (ch.anb.end + 1) % TWO_64 != tx.number { return false; }
      var signer := if tx.signer.Some? then tx.signer.value else 0;
      var existed := ch.Existed(signer);
      if !existed { return false; }
      AddOwners(s, ch, tx.added, mark);
      ok := RemoveOwners(s, ch, tx.removed, mark);
    }

    method SetRange(s: StateDB, ch: ChainObject, number: UInt64)
      requires ch.db == s && ch.Known()
      modifies ch`anb, s`journal
      ensures ch.Known() && old(s.journal) <= s.journal
      ensures ch.anb ==
        Chain(old(ch.anb.owners), if ch.chainID in s.chainIsSet then old(ch.anb.start) else number, number)
      ensures s.Pending() == WithChain(old(s.Pending()), ch.chainID, ch.anb)
    {
      ghost var v := s.Pending();
      if ch.chainID !in s.chainIsSet {
        ch.SetStartBlock(number);
        ChainTwice(v, ch.chainID, ch.anb, ch.anb.(end := number));
      }
      ch.SetEndBlock(number);
    }

    /** Sets the chain's range and registers the chain and the anchor. */
    method FinishAnchor(s: StateDB, ch: ChainObject, tx: AnchorTx)
      requires ch.db == s && ch.Known() && ch.chainID == tx.chainID
      modifies ch`anb, s`journal, s`chainObjects, s`chainIsSet, s`atxList
      ensures s.Valid() && old(s.journal) <= s.journal
      ensures s.Pending() == AnchorSettled(old(s.Pending()), tx, old(ch.anb))
    {
      ghost var v, was := s.Pending(), ch.anb;
      SetRange(s, ch, tx.number);
      ghost var mid := s.Pending();
      s.AppendAnchor(ch);
      s.AddAnchorTx(tx);
      RangeOver(v, mid, tx, was, ch.anb);
    }

    /** Applies an anchor to the stored state `c` and the pending view `v`; `now` is what is pending
        after it is tried. */
    method ApplyAnchorTransaction(s: StateDB, tx: AnchorTx, ghost c: Storage, ghost v: View, ghost now: View)
      returns (r: Outcome)
      requires s.Valid() && c == s.storage && v == s.Pending() && now == TriedAnchor(c, v, tx, false)
      modifies s`journal, s`chainObjects, s`chainIsSet, s`atxList, s`chains, s.chains`anb
      ensures fresh(s.chains - old(s.chains))
      ensures s.Valid() && old(s.journal) <= s.journal
      ensures (r == Applied <==> AcceptsAnchor(c, v, tx, false)) && (r == Panicked <==> BreaksChain(c, v, tx.chainID))
      ensures if r == Applied then s.Pending() == now else s.Undone(|old(s.journal)|) == now
    {
      var ch, panic := s.GetOrCreateChain(tx.chainID);
      if ch == null { return Panicked; }
      var ok;
      if tx.number == 0 {
        ok := RegisterChain(s, ch, tx, |s.journal|);
      } else {
        ok := ExtendChain(s, ch, tx, |s.journal|);
      }
      if ok {
        AnchorOver(v, tx, ch.anb);
        FinishAnchor(s, ch, tx);
      }
      r := if ok then Applied else Rejected;
    }
  }

  lemma RangeOver(v: View, mid: View, tx: AnchorTx, was: Chain, now: Chain)
    requires mid == WithChain(v, tx.chainID, now)
    requires now == Chain(was.owners, if tx.chainID in v.chainSet then was.start else tx.number, tx.number)
    ensures AnchorSettled(v, tx, was) ==
      mid.(chains := mid.chains[tx.chainID := now], chainSet := mid.chainSet + {tx.chainID},
           anchors := AnchorsWith(mid.anchors, tx))
  {
    assert mid.chains[tx.chainID := now] == v.chains[tx.chainID := now];
  }

  lemma AnchorOver(v: View, tx: AnchorTx, ch: Chain)
    ensures AnchorSettled(WithChain(v, tx.chainID, ch), tx, ch) == AnchorSettled(v, tx, ch)
  {
    assert AnchorSettled(WithChain(v, tx.chainID, ch), tx, ch).chains == AnchorSettled(v, tx, ch).chains;
  }

  lemma {:induction false} StaysNone(owners: seq<Address>, removed: seq<Address>, k: nat)
    requires k <= |removed| && WithoutOwners(owners, removed[..k], false) == None
    ensures WithoutOwners(owners, removed, false) == None
    decreases |removed|
  {
    if k == |removed| {
      assert removed[..k] == removed;
    } else {
      assert removed[..|removed| - 1][..k] == removed[..k];
      StaysNone(owners, removed[..|removed| - 1], k);
    }
  }

  ghost function DepositSettled(v: View, tx: Tx, block: nat, rec: Account): View {
    var r := WithToken(rec, tx.tokenID, Deposited(tx, 0));
    Settled(WithAccount(v, tx.recipient, r), tx, Deposited(tx, block), r, false, NO_ACCOUNT)
  }

  ghost function DepositEntries(tx: Tx, rec: Account): seq<Entry> {
    [AccountTokenChange(tx.recipient, rec), PrevBlockChange(tx.tokenID, 0)]
  }

  lemma EntriesAfter(j: seq<Entry>, tx: Tx, rec: Account)
    ensures (j + [AccountTokenChange(tx.recipient, rec)] + [PrevBlockChange(tx.tokenID, 0)])[|j|..] ==
      DepositEntries(tx, rec)
  {
  }

  lemma DepositSettles(c: Storage, v: View, tx: Tx, block: nat)
    requires AcceptsDeposit(c, v, tx)
    ensures var rec := AccountOf(c, v, tx.recipient);
      var after := DepositSettled(v, tx, block, rec);
      after == AfterTx(c, v, block, tx) && UndoAll(after, DepositEntries(tx, rec)) == LeftBehind(c, v, block, tx)
  {
    var rec, t := AccountOf(c, v, tx.recipient), Deposited(tx, block);
    var r := WithToken(rec, tx.tokenID, t);
    SettledOver(v, WithAccount(v, tx.recipient, r), tx, t, r, false, NO_ACCOUNT);
    DepositUndone(v, tx, t, rec, r);
  }

  /** What a deposit that enters leaves pending, and what undoing it leaves. */
  ghost predicate EntersAs(c: Storage, v: View, block: nat, tx: Tx, now: View, left: View) {
    var rec := AccountOf(c, v, tx.recipient);
    now == DepositSettled(v, tx, block, rec) && UndoAll(now, DepositEntries(tx, rec)) == left
  }

  lemma DepositTried(c: Storage, v: View, block: nat, tx: Tx, key: TokenKey, now: View)
    returns (after: View, left: View)
    requires tx.prevBlock == 0 && now == Tried(c, v, block, tx, key)
    ensures AcceptsDeposit(c, v, tx) ==> EntersAs(c, v, block, tx, after, left)
    ensures now == if AcceptsTx(c, v, tx, key) then after else if RejectedLate(c, v, tx, key) then left else v
  {
    after, left := v, v;
    if AcceptsDeposit(c, v, tx) {
      DepositSettles(c, v, tx, block);
      after, left := AfterTx(c, v, block, tx), LeftBehind(c, v, block, tx);
    }
  }

  lemma DepositUndone(v: View, tx: Tx, t: Token, rec: Account, r: Account)
    ensures UndoAll(Settled(v, tx, t, r, false, NO_ACCOUNT), DepositEntries(tx, rec))
         == Register(v, tx, t, v.accounts[tx.recipient := rec])
  {
    var after := Settled(v, tx, t, r, false, NO_ACCOUNT);
    var e, f := AccountTokenChange(tx.recipient, rec), PrevBlockChange(tx.tokenID, 0);
    assert DepositEntries(tx, rec) == ([] + [e]) + [f];
    UndoLast(after, [] + [e], f);
    UndoLast(after, [], e);
    assert v.accounts[tx.recipient := r][tx.recipient := rec] == v.accounts[tx.recipient := rec];
  }

  ghost function TransferSettled(v: View, t: Token, tx: Tx, block: nat, rec: Account, snd: Account): View {
    var r, m := RecipientAfter(rec, t, tx), Moves(t, tx);
    var o := if m then WithoutToken(snd, tx.tokenID, t) else NO_ACCOUNT;
    Settled(TransferPending(v, t, tx, r, m, o), tx, Transferred(t, tx, block), r, m, o)
  }

  lemma SettledFrom(v: View, t: Token, tx: Tx, block: nat, rec: Account, snd: Account,
                    mid: View, r: Account, moved: bool, o: Account)
    requires r == RecipientAfter(rec, t, tx) && moved == Moves(t, tx)
    requires o == if moved then WithoutToken(snd, tx.tokenID, t) else NO_ACCOUNT
    requires mid == TransferPending(v, t, tx, r, moved, o)
    ensures Settled(mid, tx, Transferred(t, tx, block), r, moved, o) == TransferSettled(v, t, tx, block, rec, snd)
  {
  }

  lemma TransferSettles(c: Storage, v: View, tx: Tx, block: nat)
    requires AcceptsTransfer(c, v, tx)
    ensures TransferSettled(v, c.tokens[tx.tokenID], tx, block,
                            AccountOf(c, v, tx.recipient), AccountOf(c, v, tx.prevOwner))
         == AfterTx(c, v, block, tx)
  {
    var t := c.tokens[tx.tokenID];
    var r, m := RecipientAfter(AccountOf(c, v, tx.recipient), t, tx), Moves(t, tx);
    var o := if m then WithoutToken(AccountOf(c, v, tx.prevOwner), tx.tokenID, t) else NO_ACCOUNT;
    SettledOver(v, TransferPending(v, t, tx, r, m, o), tx, Transferred(t, tx, block), r, m, o);
  }

  /** A transaction that is stopped by a lookup, or by a missing account, changes nothing. */
  lemma NotApplied(c: Storage, v: View, block: nat, tx: Tx, key: TokenKey)
    ensures !LooksUp(c, v, tx) || Loads(c.tokens.Keys, tx.tokenID) || Strands(c, v, tx) ==>
      !AcceptsTx(c, v, tx, key) && Tried(c, v, block, tx, key) == v
  {
  }

  lemma Stamped(t: Token, tx: Tx, block: nat)
    ensures Transferred(t, tx, t.prevBlock).(prevBlock := block) == Transferred(t, tx, block)
  {
  }

  /** The transfer is one that is registered. */
  ghost predicate Settles(v: View, t: Token, tx: Tx) {
    tx.tokenID !in v.isSet && (Moves(t, tx) || Withdraws(t, tx) || Consumes(t, tx))
  }

  lemma TransferTried(c: Storage, v: View, block: nat, tx: Tx, key: TokenKey, now: View)
    requires tx.prevBlock != 0 && now == Tried(c, v, block, tx, key)
    requires LooksUp(c, v, tx) && !Loads(c.tokens.Keys, tx.tokenID) && !Strands(c, v, tx)
    ensures AcceptsTransfer(c, v, tx) <==>
      tx.tokenID in c.tokens && TransferChecks(c.tokens[tx.tokenID], tx) && Settles(v, c.tokens[tx.tokenID], tx)
    ensures AcceptsTransfer(c, v, tx) ==>
      now == TransferSettled(v, c.tokens[tx.tokenID], tx, block,
                             AccountOf(c, v, tx.recipient), AccountOf(c, v, tx.prevOwner))
    ensures !AcceptsTransfer(c, v, tx) ==> now == v
  {
    if AcceptsTransfer(c, v, tx) { TransferSettles(c, v, tx, block); }
  }

  /** Settling overwrites what was changed in place before. */
  lemma SettledOver(v: View, v': View, tx: Tx, t: Token, rec: Account, moved: bool, snd: Account)
    requires v' == v.(accounts := v'.accounts)
    requires forall a :: a != tx.recipient && !(moved && a == tx.prevOwner) ==>
      (a in v'.accounts <==> a in v.accounts) && (a in v.accounts ==> v'.accounts[a] == v.accounts[a])
    ensures Settled(v', tx, t, rec, moved, snd) == Settled(v, tx, t, rec, moved, snd)
  {
    assert Settled(v', tx, t, rec, moved, snd).accounts == Settled(v, tx, t, rec, moved, snd).accounts;
  }

  /** What is pending after a transfer has changed its objects and before they are registered. */
  ghost function TransferPending(v: View, t: Token, tx: Tx, rec: Account, moved: bool, snd: Account): View {
    var v1 := if Moves(t, tx) || Consumes(t, tx) then WithAccount(v, tx.recipient, rec) else v;
    if moved then WithAccount(v1, t.owner, snd) else v1
  }
}
