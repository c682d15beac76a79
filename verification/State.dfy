/** The pending state of a block: objects changed in place, a journal, and snapshots. */
module State {
  import opened Bytes
  import opened Plasma
  import opened Journal

  class TokenObject {
    const tokenID: UInt64
    const db: StateDB
    var token: Token

    constructor (db: StateDB, tokenID: UInt64, token: Token)
      ensures this.db == db && this.tokenID == tokenID && this.token == token
    {
      this.db := db;
      this.tokenID := tokenID;
      this.token := token;
    }

    /** A token object is changed before it is registered. */
    ghost predicate Loose()
      reads db
    {
      db.Valid() && this !in db.tokenObjects.Values
    }

    method SetOwner(owner: Address, ghost mark: nat)
      requires Loose() && mark <= |db.journal|
      modifies `token, db`journal
      ensures Loose() && token == old(token).(owner := owner)
      ensures db.Logged(OwnerChange(tokenID, old(token.owner)), old(db.Pending()), mark)
    {
      db.Log(OwnerChange(tokenID, token.owner), mark);
      token := token.(owner := owner);
    }

    method SetPrevBlock(prevBlock: nat, ghost mark: nat)
      requires Loose() && mark <= |db.journal|
      modifies `token, db`journal
      ensures Loose() && token == old(token).(prevBlock := prevBlock)
      ensures db.Logged(PrevBlockChange(tokenID, old(token.prevBlock)), old(db.Pending()), mark)
    {
      db.Log(PrevBlockChange(tokenID, token.prevBlock), mark);
      token := token.(prevBlock := prevBlock);
    }

    method SetBalance(balance: UInt64, allowance: UInt64, ghost mark: nat)
      requires Loose() && mark <= |db.journal|
      modifies `token, db`journal
      ensures Loose() && token == old(token).(balance := balance, allowance := allowance)
      ensures db.Logged(BalanceChange(tokenID, old(token.balance), old(token.allowance)), old(db.Pending()), mark)
    {
      db.Log(BalanceChange(tokenID, token.balance, token.allowance), mark);
      token := token.(balance := balance, allowance := allowance);
    }

    method SetWithdrawal(allowance: UInt64, spent: UInt64, ghost mark: nat)
      requires Loose() && mark <= |db.journal|
      modifies `token, db`journal
      ensures Loose() && token == old(token).(allowance := allowance, spent := spent)
      ensures db.Logged(WithdrawChange(tokenID, old(token.allowance), old(token.spent)), old(db.Pending()), mark)
    {
      db.Log(WithdrawChange(tokenID, token.allowance, token.spent), mark);
      token := token.(allowance := allowance, spent := spent);
    }
  }

  class AccountObject {
    const address: Address
    const db: StateDB
    var acct: Account

    constructor (db: StateDB, address: Address, acct: Account)
      ensures this.db == db && this.address == address && this.acct == acct
    {
      this.db := db;
      this.address := address;
      this.acct := acct;
    }

    /** The object is the registered one for its address, or there is none. */
    ghost predicate Known()
      reads db
    {
      db.Valid() && this in db.accounts && (address in db.accountObjects ==> db.accountObjects[address] == this)
    }

    method Put(now: Account)
      requires Known()
      modifies `acct
      ensures Known() && acct == now && db.Pending() == WithAccount(old(db.Pending()), address, now)
    {
      acct := now;
      assert db.Pending().accounts == WithAccount(old(db.Pending()), address, now).accounts;
    }

    method Change(now: Account, e: Entry, ghost mark: nat)
      requires Known() && mark <= |db.journal| && Undo(WithAccount(db.Pending(), address, now), e) == db.Pending()
      modifies `acct, db`journal
      ensures Known() && acct == now
      ensures db.Logged(e, WithAccount(old(db.Pending()), address, now), mark)
    {
      db.journal := db.journal + [e];
      Put(now);
      UndoneSame(old(db.journal), e, old(db.Pending()), db.Pending(), mark);
    }

    /** Lists a token and adds its amounts. */
    method AddToken(id: UInt64, t: Token, ghost mark: nat)
      requires Known() && mark <= |db.journal|
      modifies `acct, db`journal
      ensures Known() && acct == WithToken(old(acct), id, t)
      ensures db.Logged(AccountTokenChange(address, old(acct)), WithAccount(old(db.Pending()), address, acct), mark)
    {
      var now := Account(acct.tokens + [id], acct.denomination + t.denomination, acct.balance + t.balance);
      AccountUndone(db.Pending(), address, acct, now);
      Change(now, AccountTokenChange(address, acct), mark);
    }

    /** Rebuilds the list without the token and takes off its amounts. */
    method RemoveToken(id: UInt64, t: Token, ghost mark: nat)
      requires Known() && mark <= |db.journal|
      modifies `acct, db`journal
      ensures Known() && acct == WithoutToken(old(acct), id, t)
      ensures db.Logged(AccountTokenChange(address, old(acct)), WithAccount(old(db.Pending()), address, acct), mark)
    {
      var updated := [];
      for i := 0 to |acct.tokens|
        invariant updated == Without(acct.tokens[..i], id)
      {
        assert acct.tokens[..i + 1][..i] == acct.tokens[..i];
        if acct.tokens[i] != id { updated := updated + [acct.tokens[i]]; }
      }
      assert acct.tokens[..|acct.tokens|] == acct.tokens;
      var now := Account(updated, acct.denomination - t.denomination, acct.balance - t.balance);
      AccountUndone(db.Pending(), address, acct, now);
      Change(now, AccountTokenChange(address, acct), mark);
    }

    method SetAccountBalance(balance: int, ghost mark: nat)
      requires Known() && mark <= |db.journal|
      modifies `acct, db`journal
      ensures Known() && acct == old(acct).(balance := balance)
      ensures db.Logged(AccountBalanceChange(address, old(acct.balance)),
                        WithAccount(old(db.Pending()), address, acct), mark)
    {
      AccountUndone(db.Pending(), address, acct, acct.(balance := balance));
      Change(acct.(balance := balance), AccountBalanceChange(address, acct.balance), mark);
    }
  }

  class ChainObject {
    const chainID: UInt64
    const db: StateDB
    var anb: Chain

    constructor (db: StateDB, chainID: UInt64, anb: Chain)
      ensures this.db == db && this.chainID == chainID && this.anb == anb
    {
      this.db := db;
      this.chainID := chainID;
      this.anb := anb;
    }

    /** The object is the registered one for its chain, or there is none. */
    ghost predicate Known()
      reads db
    {
      db.Valid() && this in db.chains && (chainID in db.chainObjects ==> db.chainObjects[chainID] == this)
    }

    method Put(now: Chain)
      requires Known()
      modifies `anb
      ensures Known() && anb == now && db.Pending() == WithChain(old(db.Pending()), chainID, now)
    {
      anb := now;
      assert db.Pending().chains == WithChain(old(db.Pending()), chainID, now).chains;
    }

    method ChangeOwners(owners: seq<Address>, ghost mark: nat)
      requires Known() && mark <= |db.journal|
      modifies `anb, db`journal
      ensures Known() && anb == old(anb).(owners := owners)
      ensures db.Logged(ChainOwnerChange(chainID, old(anb.owners)), WithChain(old(db.Pending()), chainID, anb), mark)
    {
      OwnersUndone(db.Pending(), chainID, anb, owners);
      db.journal := db.journal + [ChainOwnerChange(chainID, anb.owners)];
      Put(anb.(owners := owners));
      UndoneSame(old(db.journal), ChainOwnerChange(chainID, old(anb.owners)), old(db.Pending()), db.Pending(), mark);
    }

    method AddOwner(a: Address, ghost mark: nat)
      requires Known() && mark <= |db.journal|
      modifies `anb, db`journal
      ensures Known() && anb == old(anb).(owners := old(anb.owners) + [a])
      ensures db.Logged(ChainOwnerChange(chainID, old(anb.owners)), WithChain(old(db.Pending()), chainID, anb), mark)
    {
      ChangeOwners(anb.owners + [a], mark);
    }

    method RemoveOwner(a: Address, ghost mark: nat)
      requires Known() && mark <= |db.journal|
      modifies `anb, db`journal
      ensures Known() && anb == old(anb).(owners := OwnersWithout(old(anb.owners), a, false))
      ensures db.Logged(ChainOwnerChange(chainID, old(anb.owners)), WithChain(old(db.Pending()), chainID, anb), mark)
    {
      var owners := RemovePlace(anb.owners);
      ChangeOwners(owners, mark);
    }

    /** Removal compares where addresses are kept, not the addresses. The address to remove is kept
        in a variable of its own, apart from the places of the listed ones, so the list stays. */
    static method RemovePlace(owners: seq<Address>) returns (r: seq<Address>)
      ensures r == owners
    {
      var n: nat := |owners|;
      var places: seq<nat> := seq(n, (i: nat) => i);
      var kept := Remove(places, n);
      WithoutAbsent<nat>(places, n);
      assert kept == places;
      r := seq(|kept|, i requires 0 <= i < |kept| && kept[i] < n => owners[kept[i]]);
    }

    /** Takes out the entries equal to `x`, from the back. */
    static method Remove(s: seq<nat>, x: nat) returns (r: seq<nat>)
      ensures r == Without(s, x)
    {
      r := s;
      var i := |s|;
      assert s == s[..i] && Without(s[i..], x) == [];
      while i > 0
        invariant 0 <= i <= |s| && r == s[..i] + Without(s[i..], x)
      {
        i := i - 1;
        assert s[i..] == [s[i]] + s[i + 1..];
        WithoutConcat([s[i]], s[i + 1..], x);
        assert s[..i + 1] == s[..i] + [s[i]] && [s[i]][..0] == [];
        if r[i] == x { r := r[..i] + r[i + 1..]; }
      }
    }

    method SetStartBlock(start: UInt64)
      requires Known()
      modifies `anb, db`journal
      ensures Known() && anb == old(anb).(start := start)
      ensures db.journal == old(db.journal) + [AnchorBlockChange(chainID, old(anb.end), old(anb.end))]
      ensures db.Pending() == WithChain(old(db.Pending()), chainID, anb)
    {
      db.journal := db.journal + [AnchorBlockChange(chainID, anb.end, anb.end)];
      Put(anb.(start := start));
    }

    method SetEndBlock(end: UInt64)
      requires Known()
      modifies `anb, db`journal
      ensures Known() && anb == old(anb).(end := end)
      ensures db.journal == old(db.journal) + [AnchorBlockChange(chainID, old(anb.end), old(anb.end))]
      ensures db.Pending() == WithChain(old(db.Pending()), chainID, anb)
    {
      db.journal := db.journal + [AnchorBlockChange(chainID, anb.end, anb.end)];
      Put(anb.(end := end));
    }

    method Existed(a: Address) returns (found: bool)
      ensures found <==> a in anb.owners
    {
      for i := 0 to |anb.owners|
        invariant a !in anb.owners[..i]
      {
        if anb.owners[i] == a { return true; }
      }
      return false;
    }
  }

  class StateDB {
    var storage: Storage
    var transactions: map<UInt64, nat>
    var tokenObjects: map<UInt64, TokenObject>
    var tokenIsSet: set<UInt64>
    var thashList: map<UInt64, nat>
    var accountObjects: map<Address, AccountObject>
    var chainObjects: map<UInt64, ChainObject>
    var chainIsSet: set<UInt64>
    var atxList: map<UInt64, seq<AnchorTx>>
    var journal: seq<Entry>
    var validRevisions: seq<Revision>
    var nextRevisionId: int

    /** Every account and chain object handed out. */
    ghost var accounts: set<AccountObject>
    ghost var chains: set<ChainObject>

    /** Objects are registered under their own names. */
    ghost predicate Valid()
      reads this
    {
      && (forall id :: id in tokenObjects ==> tokenObjects[id].tokenID == id && tokenObjects[id].db == this)
      && (forall a :: a in accountObjects ==>
            accountObjects[a].address == a && accountObjects[a].db == this && accountObjects[a] in accounts)
      && (forall id :: id in chainObjects ==>
            chainObjects[id].chainID == id && chainObjects[id].db == this && chainObjects[id] in chains)
      && RevisionsOk(validRevisions, |journal|, nextRevisionId)
    }

    ghost function TokenValues(): map<UInt64, Token>
      reads `tokenObjects, tokenObjects.Values`token
    {
      map id | id in tokenObjects :: tokenObjects[id].token
    }

    ghost function AccountValues(): map<Address, Account>
      reads `accountObjects, accountObjects.Values`acct
    {
      map a | a in accountObjects :: accountObjects[a].acct
    }

    ghost function ChainValues(): map<UInt64, Chain>
      reads `chainObjects, chainObjects.Values`anb
    {
      map id | id in chainObjects :: chainObjects[id].anb
    }

    /** What is pending, as values. */
    ghost function Pending(): View
      reads `tokenObjects, `tokenIsSet, `thashList, `accountObjects, `chainObjects, `chainIsSet, `atxList
      reads tokenObjects.Values`token, accountObjects.Values`acct, chainObjects.Values`anb
    {
      View(TokenValues(), tokenIsSet, thashList, AccountValues(), ChainValues(), chainIsSet, atxList)
    }

    /** What would be pending after undoing back to a place in the journal. */
    ghost function Undone(mark: nat): View
      requires mark <= |journal|
      reads this, tokenObjects.Values, accountObjects.Values, chainObjects.Values
    {
      UndoAll(Pending(), journal[mark..])
    }

    /** The entry has been added, `v` is pending, and the mark is undone as before. */
    twostate predicate Logged(e: Entry, v: View, mark: nat)
      reads this, tokenObjects.Values, accountObjects.Values, chainObjects.Values
    {
      && Valid() && mark <= old(|journal|) && journal == old(journal) + [e]
      && Pending() == v && Undone(mark) == old(Undone(mark))
    }

    /** The journal has only grown, `v` is pending, and the mark is undone as before. */
    twostate predicate Kept(v: View, mark: nat)
      reads this, tokenObjects.Values, accountObjects.Values, chainObjects.Values
    {
      && Valid() && mark <= old(|journal|) && old(journal) <= journal
      && Pending() == v && Undone(mark) == old(Undone(mark))
    }

    method Log(e: Entry, ghost mark: nat)
      requires Valid() && mark <= |journal| && Undo(Pending(), e) == Pending()
      modifies `journal
      ensures Logged(e, old(Pending()), mark)
    {
      journal := journal + [e];
      UndoneSame(old(journal), e, Pending(), Pending(), mark);
    }

    // ----- Reading objects -----

    /** The registered account object, or a new one from storage. An account that was stored and
        does not decode is an error; a lookup that loads what is stored under zero panics. */
    method GetOrCreateAccount(a: Address) returns (o: AccountObject?, panic: bool)
      requires Valid()
      modifies `accounts
      ensures Pending() == old(Pending()) && fresh(accounts - old(accounts))
      ensures accounts == if o == null then old(accounts) else old(accounts) + {o}
      ensures panic <==> Breaks(storage, Pending(), a)
      ensures o != null <==> Readable(storage, Pending(), a)
      ensures o != null ==> o.db == this && o.address == a && o.Known() && o.acct == AccountOf(storage, Pending(), a)
      ensures o == null ==> Valid()
    {
      panic := false;
      if a in accountObjects { return accountObjects[a], false; }
      if Loads(storage.accounts.Keys, Short(a)) { return null, true; }
      if Short(a) in storage.accounts && storage.accounts[Short(a)].None? { return null, false; }
      o := new AccountObject(this, a, StoredAccount(storage, a));
      accounts := accounts + {o};
    }

    method GetOrCreateChain(id: UInt64) returns (o: ChainObject?, panic: bool)
      requires Valid()
      modifies `chains
      ensures Pending() == old(Pending()) && fresh(chains - old(chains))
      ensures chains == if o == null then old(chains) else old(chains) + {o}
      ensures panic <==> BreaksChain(storage, Pending(), id)
      ensures o == null <==> panic
      ensures o != null ==> o.db == this && o.chainID == id && o.Known() && o.anb == ChainOf(storage, Pending(), id)
      ensures o == null ==> Valid()
    {
      panic := false;
      if id in chainObjects { return chainObjects[id], false; }
      if Loads(storage.chains.Keys, id) { return null, true; }
      o := new ChainObject(this, id, if id in storage.chains then storage.chains[id] else NO_CHAIN);
      chains := chains + {o};
    }

    /** Walks the token tree to a key, which may panic. */
    method WalkTokens(id: UInt64) returns (panic: bool)
      ensures panic <==> Loads(storage.tokens.Keys, id)
    {
      panic := Loads(storage.tokens.Keys, id);
    }

    /** A token object is always read afresh from storage. */
    method GetTokenObject(id: UInt64) returns (o: TokenObject?)
      requires Valid()
      ensures Pending() == old(Pending())
      ensures o == null <==> id !in storage.tokens
      ensures o != null ==> fresh(o) && o.db == this && o.tokenID == id && o.token == storage.tokens[id] && o.Loose()
    {
      if id !in storage.tokens { return null; }
      o := new TokenObject(this, id, storage.tokens[id]);
    }

    method CreateDeposit(id: UInt64, denomination: UInt64, owner: Address) returns (o: TokenObject?)
      requires Valid()
      ensures Pending() == old(Pending())
      ensures o == null <==> id in storage.tokens
      ensures o != null ==> fresh(o) && o.db == this && o.tokenID == id && o.Loose()
      ensures o != null ==> o.token == Token(denomination, 0, owner, denomination, 0, 0)
    {
      if id in storage.tokens { return null; }
      o := new TokenObject(this, id, Token(denomination, 0, owner, denomination, 0, 0));
    }

    // ----- Registering objects -----

    method PutToken(id: UInt64, o: TokenObject)
      requires Valid() && o.db == this && o.tokenID == id
      modifies `tokenObjects
      ensures Valid() && Pending() == old(Pending()).(tokens := old(Pending()).tokens[id := o.token])
    {
      tokenObjects := tokenObjects[id := o];
      assert TokenValues() == old(TokenValues())[id := o.token];
      assert AccountValues() == old(AccountValues());
      assert ChainValues() == old(ChainValues());
    }

    method Append(id: UInt64, o: TokenObject, hash: nat)
      requires Valid() && o.db == this && o.tokenID == id
      modifies `tokenObjects, `tokenIsSet, `thashList
      ensures Valid()
      ensures Pending() == old(Pending()).(tokens := old(Pending()).tokens[id := o.token],
                                           isSet := old(tokenIsSet) + {id}, hashes := old(thashList)[id := hash])
    {
      PutToken(id, o);
      ghost var v := Pending();
      tokenIsSet := tokenIsSet + {id};
      thashList := thashList[id := hash];
      assert TokenValues() == v.tokens;
      assert AccountValues() == v.accounts;
      assert ChainValues() == v.chains;
    }

    method Register(o: AccountObject)
      requires o.db == this && o.Known()
      modifies `accountObjects
      ensures Valid() && Pending() == old(Pending()).(accounts := old(Pending()).accounts[o.address := o.acct])
      ensures accountObjects == old(accountObjects)[o.address := o]
    {
      accountObjects := accountObjects[o.address := o];
      assert TokenValues() == old(TokenValues());
      assert AccountValues() == old(AccountValues())[o.address := o.acct];
      assert ChainValues() == old(ChainValues());
    }

    method AppendAnchor(o: ChainObject)
      requires o.db == this && o.Known()
      modifies `chainObjects, `chainIsSet
      ensures Valid() && Pending() == old(Pending()).(chains := old(Pending()).chains[o.chainID := o.anb],
                                                      chainSet := old(chainIsSet) + {o.chainID})
    {
      chainObjects := chainObjects[o.chainID := o];
      chainIsSet := chainIsSet + {o.chainID};
      assert TokenValues() == old(TokenValues());
      assert AccountValues() == old(AccountValues());
      assert ChainValues() == old(ChainValues())[o.chainID := o.anb];
    }

    method AddAnchorTx(tx: AnchorTx)
      requires Valid()
      modifies `atxList
      ensures Valid() && Pending() == old(Pending()).(anchors := AnchorsWith(old(atxList), tx))
    {
      if tx.chainID in atxList {
        atxList := atxList[tx.chainID := atxList[tx.chainID] + [tx]];
      } else {
        atxList := atxList[tx.chainID := [tx]];
        assert [] + [tx] == [tx];
      }
    }

    // ----- Snapshots -----

    method Snapshot() returns (id: int)
      requires Valid()
      modifies `validRevisions, `nextRevisionId
      ensures Valid() && id == old(nextRevisionId) && nextRevisionId == id + 1
      ensures validRevisions == old(validRevisions) + [Revision(id, |journal|)] && Pending() == old(Pending())
    {
      id := nextRevisionId;
      nextRevisionId := nextRevisionId + 1;
      validRevisions := validRevisions + [Revision(id, |journal|)];
    }

    /** Undoing a token entry sets a field of a fresh object, which adds to the journal. */
    method RevertToken(e: Entry)
      requires Valid() && (e.OwnerChange? || e.PrevBlockChange? || e.BalanceChange? || e.WithdrawChange?)
      modifies `journal
      ensures Valid() && Pending() == old(Pending()) && old(journal) <= journal
    {
      var o := GetTokenObject(e.tokenID);
      if o != null {
        match e
        case OwnerChange(_, owner) => o.SetOwner(owner, |journal|);
        case PrevBlockChange(_, block) => o.SetPrevBlock(block, |journal|);
        case BalanceChange(_, balance, allowance) => o.SetBalance(balance, allowance, |journal|);
        case WithdrawChange(_, allowance, spent) => o.SetWithdrawal(allowance, spent, |journal|);
      }
    }

    method RevertAccount(e: Entry)
      requires Valid() && (e.AccountTokenChange? || e.AccountBalanceChange?)
      modifies `accounts, accounts`acct
      ensures fresh(accounts - old(accounts))
      ensures Valid() && Pending() == Undo(old(Pending()), e)
    {
      var o, panic := GetOrCreateAccount(e.addr);
      if o != null {
        match e
        case AccountTokenChange(_, prev) => o.Put(prev);
        case AccountBalanceChange(_, balance) => o.Put(o.acct.(balance := balance));
      }
    }

    method RevertChain(e: Entry)
      requires Valid() && (e.ChainOwnerChange? || e.AnchorBlockChange?)
      modifies `chains, chains`anb
      ensures fresh(chains - old(chains))
      ensures Valid() && Pending() == Undo(old(Pending()), e)
    {
      var o, panic := GetOrCreateChain(e.chainID);
      if o != null {
        match e
        case ChainOwnerChange(_, owners) => o.Put(o.anb.(owners := owners));
        case AnchorBlockChange(_, start, end) => o.Put(o.anb.(start := start, end := end));
      }
    }

    method Revert(e: Entry)
      requires Valid()
      modifies `journal, `accounts, `chains, accounts`acct, chains`anb
      ensures fresh(accounts - old(accounts)) && fresh(chains - old(chains))
      ensures Valid() && Pending() == Undo(old(Pending()), e) && old(journal) <= journal
    {
      if e.AccountTokenChange? || e.AccountBalanceChange? {
        RevertAccount(e);
      } else if e.ChainOwnerChange? || e.AnchorBlockChange? {
        RevertChain(e);
      } else {
        RevertToken(e);
      }
    }

    /** Undoes everything journaled since a snapshot and forgets it and the later snapshots. Tokens,
        flags and anchors entered since then stay. */
    method RevertToSnapshot(revid: int) returns (ok: bool, ghost k: nat)
      requires Valid()
      modifies `journal, `validRevisions, `accounts, `chains, accounts`acct, chains`anb
      ensures fresh(accounts - old(accounts)) && fresh(chains - old(chains))
      ensures Valid()
      ensures ok ==> k < |old(validRevisions)| && old(validRevisions)[k].id == revid
      ensures ok ==> Pending() == old(Undone(validRevisions[k].journalIndex))
      ensures ok ==> SameEntered(old(Pending()), Pending())
      ensures ok ==>
        journal == old(journal[..validRevisions[k].journalIndex]) && validRevisions == old(validRevisions[..k])
      ensures !ok ==> forall i :: 0 <= i < |validRevisions| ==> validRevisions[i].id != revid
      ensures !ok ==> Pending() == old(Pending()) && journal == old(journal) && validRevisions == old(validRevisions)
    {
      var idx := Search(validRevisions, revid);
      k := idx;
      if idx == |validRevisions| || validRevisions[idx].id != revid { return false, k; }
      UndoKeeps(Pending(), journal[validRevisions[idx].journalIndex..]);
      Rewind(idx);
      return true, k;
    }

    method Rewind(k: nat)
      requires Valid() && k < |validRevisions|
      modifies `journal, `validRevisions, `accounts, `chains, accounts`acct, chains`anb
      ensures fresh(accounts - old(accounts)) && fresh(chains - old(chains))
      ensures Valid() && Pending() == old(Undone(validRevisions[k].journalIndex))
      ensures journal == old(journal[..validRevisions[k].journalIndex]) && validRevisions == old(validRevisions[..k])
    {
      UndoTo(validRevisions[k].journalIndex);
      Forget(k);
    }

    method Forget(k: nat)
      requires Valid() && k < |validRevisions|
      modifies `journal, `validRevisions
      ensures Valid() && validRevisions == old(validRevisions)[..k]
      ensures journal == old(journal)[..old(validRevisions[k].journalIndex)]
    {
      journal := journal[..validRevisions[k].journalIndex];
      validRevisions := validRevisions[..k];
    }

    method UndoTo(mark: nat)
      requires Valid() && mark <= |journal|
      modifies `journal, `accounts, `chains, accounts`acct, chains`anb
      ensures fresh(accounts - old(accounts)) && fresh(chains - old(chains))
      ensures Valid() && Pending() == old(Undone(mark)) && old(journal) <= journal
    {
      var i := |journal|;
      assert journal[mark..i] == journal[mark..];
      while i > mark
        invariant mark <= i <= |old(journal)| <= |journal|
        invariant Valid() && old(journal) <= journal
        invariant fresh(accounts - old(accounts)) && fresh(chains - old(chains))
        invariant UndoAll(Pending(), old(journal)[mark..i]) == old(Undone(mark))
      {
        i := i - 1;
        UndoLast(Pending(), old(journal)[mark..i], old(journal)[i]);
        assert old(journal)[mark..i + 1] == old(journal)[mark..i] + [old(journal)[i]];
        Revert(journal[i]);
      }
    }

    // ----- Commit -----

    function TxHash(id: UInt64): nat
      reads `thashList
    {
      if id in thashList then thashList[id] else 0
    }

    ghost function TxHashes(): map<UInt64, nat>
      reads `tokenObjects, `thashList
    {
      map id | id in tokenObjects :: TxHash(id)
    }

    /** Stores one pending token and its transaction. */
    method StoreToken(id: UInt64)
      requires Valid() && id in tokenObjects
      modifies `storage, `transactions
      ensures storage == old(storage).(tokens := old(storage.tokens)[id := old(TokenValues())[id]])
      ensures transactions == old(transactions)[id := old(TxHashes())[id]]
    {
      storage := storage.(tokens := storage.tokens[id := tokenObjects[id].token]);
      transactions := transactions[id := TxHash(id)];
    }

    method DropToken(id: UInt64)
      requires Valid() && id in tokenObjects
      modifies `tokenObjects, `tokenIsSet, `thashList
      ensures Valid() && tokenObjects == old(tokenObjects) - {id}
      ensures TokenValues() == old(TokenValues()) - {id} && TxHashes() == old(TxHashes()) - {id}
      ensures tokenIsSet == old(tokenIsSet) - {id} && thashList == old(thashList) - {id}
    {
      tokenObjects := tokenObjects - {id};
      tokenIsSet := tokenIsSet - {id};
      thashList := thashList - {id};
      assert TokenValues() == old(TokenValues()) - {id};
      assert TxHashes() == old(TxHashes()) - {id};
    }

    method MoveToken(id: UInt64)
      requires Valid() && id in tokenObjects
      modifies `storage, `transactions, `tokenObjects, `tokenIsSet, `thashList
      ensures Valid() && tokenObjects == old(tokenObjects) - {id} && storage == old(storage).(tokens := storage.tokens)
      ensures storage.tokens + TokenValues() == old(storage.tokens + TokenValues())
      ensures transactions + TxHashes() == old(transactions + TxHashes())
      ensures thashList - tokenObjects.Keys == old(thashList - tokenObjects.Keys)
      ensures tokenIsSet - tokenObjects.Keys == old(tokenIsSet - tokenObjects.Keys)
    {
      Moved(storage.tokens, TokenValues(), id);
      Moved(transactions, TxHashes(), id);
      Dropped(thashList, tokenIsSet, tokenObjects.Keys, id);
      StoreToken(id);
      DropToken(id);
      assert tokenObjects.Keys == old(tokenObjects.Keys) - {id};
    }

    /** Stores the pending tokens and their transactions, in any order. */
    method CommitTokens() returns (ids: seq<UInt64>)
      requires Valid()
      modifies `storage, `transactions, `tokenObjects, `tokenIsSet, `thashList
      ensures Valid() && tokenObjects == map[]
      ensures storage == old(storage.(tokens := storage.tokens + TokenValues()))
      ensures transactions == old(transactions + TxHashes())
      ensures tokenIsSet == old(tokenIsSet - tokenObjects.Keys) && thashList == old(thashList - tokenObjects.Keys)
      ensures forall id :: id in ids <==> id in old(tokenObjects)
    {
      ids := [];
      while tokenObjects.Keys != {}
        invariant Valid() && tokenObjects.Keys <= old(tokenObjects.Keys)
        invariant storage == old(storage).(tokens := storage.tokens)
        invariant storage.tokens + TokenValues() == old(storage.tokens + TokenValues())
        invariant transactions + TxHashes() == old(transactions + TxHashes())
        invariant thashList - tokenObjects.Keys == old(thashList - tokenObjects.Keys)
        invariant tokenIsSet - tokenObjects.Keys == old(tokenIsSet - tokenObjects.Keys)
        invariant forall id :: id in old(tokenObjects) <==> id in ids || id in tokenObjects
        decreases tokenObjects.Keys
      {
        var id :| id in tokenObjects.Keys;
        MoveToken(id);
        ids := ids + [id];
      }
      assert tokenObjects == map[] && TokenValues() == map[] && TxHashes() == map[];
    }

    /** Stores the pending accounts under the last eight bytes of their addresses, in any order. */
    method CommitAccounts() returns (ghost order: seq<Address>)
      requires Valid()
      modifies `storage, `accountObjects
      ensures Valid() && accountObjects == map[] && Orders(order, old(AccountValues()))
      ensures storage == old(storage.(accounts := StoreAll(storage.accounts, AccountValues(), order)))
    {
      ghost var before, pending := storage.accounts, AccountValues();
      order := [];
      while accountObjects.Keys != {}
        invariant Valid() && storage == old(storage).(accounts := StoreAll(before, pending, order))
        invariant NoDup(order) && forall a :: a in order <==> a in pending && a !in accountObjects
        invariant AccountValues() == pending - Elements(order)
        decreases accountObjects.Keys
      {
        var a :| a in accountObjects.Keys;
        StoredNext(before, pending, order, a);
        MoveAccount(a);
        order := order + [a];
      }
    }

    method MoveAccount(a: Address)
      requires Valid() && a in accountObjects
      modifies `storage, `accountObjects
      ensures Valid() && accountObjects == old(accountObjects) - {a}
      ensures storage == old(storage.(accounts := storage.accounts[Short(a) := Encoding(AccountValues()[a])]))
      ensures AccountValues() == old(AccountValues()) - {a}
    {
      storage := storage.(accounts := storage.accounts[Short(a) := Encoding(accountObjects[a].acct)]);
      accountObjects := accountObjects - {a};
      assert AccountValues() == old(AccountValues()) - {a};
    }

    /** Stores the pending chains, in any order. */
    method CommitChains()
      requires Valid()
      modifies `storage, `chainObjects
      ensures Valid() && chainObjects == map[]
      ensures storage == old(storage.(chains := storage.chains + ChainValues()))
    {
      while chainObjects.Keys != {}
        invariant Valid() && storage == old(storage).(chains := storage.chains)
        invariant storage.chains + ChainValues() == old(storage.chains + ChainValues())
        decreases chainObjects.Keys
      {
        var id :| id in chainObjects.Keys;
        Moved(storage.chains, ChainValues(), id);
        MoveChain(id);
      }
      assert chainObjects == map[] && ChainValues() == map[];
    }

    method MoveChain(id: UInt64)
      requires Valid() && id in chainObjects
      modifies `storage, `chainObjects
      ensures Valid() && chainObjects == old(chainObjects) - {id}
      ensures storage == old(storage.(chains := storage.chains[id := ChainValues()[id]]))
      ensures ChainValues() == old(ChainValues()) - {id}
    {
      storage := storage.(chains := storage.chains[id := chainObjects[id].anb]);
      chainObjects := chainObjects - {id};
      assert ChainValues() == old(ChainValues()) - {id};
    }

    /** Stores everything pending on the stored state `c`, the view `v`, and forgets it, except which
        chains the block has touched. Whatever the order, the stored maps are the old ones overlaid by
        the pending ones; for accounts, up to addresses that share a storage key. The trees are then
        flushed, which is done or panics, and `storage` is what they open to. */
    method Commit(ghost c: Storage, ghost v: View) returns (ok: bool, ids: seq<UInt64>, ghost order: seq<Address>)
      requires Valid() && c == storage && v == Pending()
      modifies this
      ensures Valid() && journal == [] && validRevisions == []
      ensures tokenObjects == map[] && accountObjects == map[] && chainObjects == map[] && atxList == map[]
      ensures Orders(order, v.accounts) && storage == Committed(c, v, order)
      ensures transactions == old(transactions) + Transactions(v)
      ensures chainIsSet == v.chainSet && nextRevisionId == old(nextRevisionId)
      ensures tokenIsSet == v.isSet - v.tokens.Keys && thashList == v.hashes - v.tokens.Keys
      ensures (forall id :: id in ids <==> id in v.tokens) && (ok <==> Flushes(c, v))
    {
      var nonzero := 0 !in storage.tokens && 0 !in storage.accounts && 0 !in storage.chains;
      var anchored := atxList != map[];
      ids, order := CommitAll(c, v);
      FlushesIff(c, v, order);
      ok := nonzero && AllApart(storage);
      storage := storage.(accounts := Opened(storage.accounts, anchored));
    }

    method CommitAll(ghost c: Storage, ghost v: View) returns (ids: seq<UInt64>, ghost order: seq<Address>)
      requires Valid() && c == storage && v == Pending()
      modifies this
      ensures Valid() && journal == [] && validRevisions == []
      ensures tokenObjects == map[] && accountObjects == map[] && chainObjects == map[] && atxList == map[]
      ensures Orders(order, v.accounts) && storage == Written(c, v, order)
      ensures transactions == old(transactions) + Transactions(v)
      ensures chainIsSet == v.chainSet && nextRevisionId == old(nextRevisionId)
      ensures tokenIsSet == v.isSet - v.tokens.Keys && thashList == v.hashes - v.tokens.Keys
      ensures forall id :: id in ids <==> id in v.tokens
    {
      ids := CommitFirst(v);
      order := CommitOthers(storage, v.accounts, v.chains);
    }

    method CommitFirst(ghost v: View) returns (ids: seq<UInt64>)
      requires Valid() && v == Pending()
      modifies `storage, `transactions, `tokenObjects, `tokenIsSet, `thashList
      ensures Valid() && tokenObjects == map[] && AccountValues() == v.accounts && ChainValues() == v.chains
      ensures storage == old(storage).(tokens := old(storage).tokens + v.tokens)
      ensures transactions == old(transactions) + Transactions(v)
      ensures tokenIsSet == v.isSet - v.tokens.Keys && thashList == v.hashes - v.tokens.Keys
      ensures forall id :: id in ids <==> id in v.tokens
    {
      assert TxHashes() == Transactions(v) && tokenObjects.Keys == v.tokens.Keys;
      ids := CommitTokens();
      assert AccountValues() == v.accounts;
      assert ChainValues() == v.chains;
    }

    method CommitOthers(ghost c: Storage, ghost accounts: map<Address, Account>, ghost chains: map<UInt64, Chain>)
      returns (ghost order: seq<Address>)
      requires Valid() && storage == c && AccountValues() == accounts && ChainValues() == chains
      modifies `storage, `accountObjects, `chainObjects, `atxList, `journal, `validRevisions
      ensures Valid() && journal == [] && validRevisions == []
      ensures accountObjects == map[] && chainObjects == map[] && atxList == map[]
      ensures Orders(order, accounts)
      ensures storage == Storage(c.tokens, StoreAll(c.accounts, accounts, order), c.chains + chains)
    {
      order := CommitAccounts();
      CommitChains();
      ClearJournal();
    }

    method ClearJournal()
      requires Valid()
      modifies `atxList, `journal, `validRevisions
      ensures Valid() && journal == [] && validRevisions == [] && atxList == map[]
    {
      atxList := map[];
      journal := [];
      validRevisions := [];
    }

    /** A state over stored maps, with nothing pending. */
    constructor (storage: Storage)
      ensures Valid() && this.storage == storage && Pending() == NO_VIEW && transactions == map[]
      ensures journal == [] && validRevisions == [] && accounts == {} && chains == {}
    {
      this.storage := storage;
      transactions := map[];
      tokenObjects := map[];
      tokenIsSet := {};
      thashList := map[];
      accountObjects := map[];
      chainObjects := map[];
      chainIsSet := {};
      atxList := map[];
      journal := [];
      validRevisions := [];
      nextRevisionId := 0;
      accounts, chains := {}, {};
      new;
      assert TokenValues() == map[] && AccountValues() == map[] && ChainValues() == map[];
    }
  }

  lemma Dropped<K, V>(m: map<K, V>, s: set<K>, keys: set<K>, k: K)
    requires k in keys
    ensures (m - {k}) - (keys - {k}) == m - keys && (s - {k}) - (keys - {k}) == s - keys
  {
  }

  /** Moving an entry from what is pending to what is stored keeps the two merged. */
  lemma Moved<K, V>(stored: map<K, V>, pending: map<K, V>, k: K)
    requires k in pending
    ensures stored[k := pending[k]] + (pending - {k}) == stored + pending
  {
  }

  ghost function Elements(order: seq<Address>): set<Address> { set a | a in order }

  /** Storing one account more. */
  lemma StoredNext(before: map<UInt64, Option<Account>>, pending: map<Address, Account>, order: seq<Address>,
                   a: Address)
    requires NoDup(order) && a !in order && a in pending
    ensures NoDup(order + [a]) && Elements(order + [a]) == Elements(order) + {a}
    ensures StoreAll(before, pending, order + [a]) == StoreAll(before, pending, order)[Short(a) := Encoding(pending[a])]
    ensures pending - Elements(order + [a]) == (pending - Elements(order)) - {a}
  {
    assert (order + [a])[..|order|] == order;
  }
}
