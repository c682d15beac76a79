/** What a deposit and a transfer need and what they do, in the fields of the token, the accounts and
    the transaction. */
module Effects {
  import opened Bytes
  import opened Plasma
  import Ownership
  import opened Ledger

  // ----- Transfers -----

  /** A transfer names the token's last block, its owner and its denomination; its own amounts and those
      of the token add up; and it changes the owner, raises what is spent or changes the balance. */
  predicate Passes(t: Token, tx: Tx) {
    && tx.prevBlock == t.prevBlock && tx.prevOwner == t.owner && tx.denomination == t.denomination
    && (t.balance + t.allowance + t.spent) % TWO_64 == t.denomination
    && (tx.balance + tx.allowance + tx.spent) % TWO_64 == tx.denomination
    && (tx.recipient != t.owner || tx.spent > t.spent || tx.balance != t.balance)
  }

  /** The recipient's account can be read, and the sender's if the token leaves it. */
  predicate AccountsFound(c: Storage, v: View, t: Token, tx: Tx) {
    && Readable(c, v, tx.recipient) && !Breaks(c, v, tx.prevOwner) && !Loads(c.tokens.Keys, tx.tokenID)
    && (tx.recipient != t.owner ==> Readable(c, v, tx.prevOwner))
  }

  /** In every tracked ledger a transfer enters the block exactly when its token is stored and not yet in
      the block, it passes, and the accounts are found. Otherwise nothing changes. */
  lemma TransferIff(l: Ledger, tx: Tx, r: Rules)
    requires Tracked(l) && tx.prevBlock != 0
    ensures var v, id := Next(l, Try(tx), r).v, tx.tokenID;
      if id !in l.v.isSet && id in l.c.tokens && Passes(l.c.tokens[id], tx)
         && AccountsFound(l.c, l.v, l.c.tokens[id], tx)
      then AcceptsTx(l.c, l.v, tx, r.key) && v.isSet == l.v.isSet + {id}
      else !AcceptsTx(l.c, l.v, tx, r.key) && v == l.v
  {
    assert StoredAt(l, tx.tokenID);
  }

  /** Applying a transaction panics exactly when a lookup does, or when a transfer that passes would take the
      token from an account that is lost, whether or not the token is in the block. */
  lemma PanicIff(l: Ledger, tx: Tx)
    requires Tracked(l)
    ensures Panics(l.c, l.v, tx) <==>
      || Breaks(l.c, l.v, tx.prevOwner) || Breaks(l.c, l.v, tx.recipient)
      || (Readable(l.c, l.v, tx.recipient)
          && (Loads(l.c.tokens.Keys, tx.tokenID)
              || (tx.prevBlock != 0 && tx.tokenID in l.c.tokens && Passes(l.c.tokens[tx.tokenID], tx)
                  && tx.recipient != tx.prevOwner && !Readable(l.c, l.v, tx.prevOwner))))
  {
    assert StoredAt(l, tx.tokenID);
  }

  /** The token after a transfer that enters block `block`. */
  predicate Moved(t: Token, tx: Tx, block: nat, t': Token) {
    && t'.denomination == t.denomination && t'.prevBlock == block && t'.owner == tx.recipient
    && t'.balance == tx.balance && t'.spent == (if tx.spent > t.spent then tx.spent else t.spent)
    && t'.allowance == if tx.spent > t.spent || tx.balance != t.balance then tx.allowance else t.allowance
  }

  /** The recipient's account: the token joins it unless it was there, and what the balance falls by, as
      a 64-bit number, is taken off. */
  predicate Received(r: Account, t: Token, tx: Tx, r': Account) {
    var joins := tx.recipient != t.owner;
    && r'.tokens == (if joins then r.tokens + [tx.tokenID] else r.tokens)
    && r'.denomination == r.denomination + (if joins then t.denomination else 0)
    && r'.balance == r.balance + (if joins then t.balance else 0)
                     - (if tx.balance > t.balance then TWO_64 else 0) - t.balance + tx.balance
  }

  /** The sender's account: the token leaves it with its amounts. */
  ghost predicate Given(s: Account, t: Token, tx: Tx, s': Account) {
    && (forall id :: id in s'.tokens <==> id in s.tokens && id != tx.tokenID)
    && s'.denomination == s.denomination - t.denomination && s'.balance == s.balance - t.balance
  }

  /** A transfer that enters changes its token, the recipient's account, the sender's if the token
      leaves it, and no other. */
  lemma TransferDoes(l: Ledger, tx: Tx, r: Rules)
    requires tx.prevBlock != 0 && AcceptsTx(l.c, l.v, tx, r.key)
    ensures var v, v', t := l.v, Next(l, Try(tx), r).v, l.c.tokens[tx.tokenID];
      var moves := tx.recipient != t.owner;
      && (forall id :: id in v'.tokens <==> id in v.tokens || id == tx.tokenID)
      && (forall id :: id in v.tokens && id != tx.tokenID ==> v'.tokens[id] == v.tokens[id])
      && Moved(t, tx, |l.log| + 1, v'.tokens[tx.tokenID]) && v'.hashes == v.hashes[tx.tokenID := tx.hash]
      && (forall a :: a in v'.accounts <==> a in v.accounts || a == tx.recipient || (moves && a == t.owner))
      && (forall a :: a in v.accounts && a != tx.recipient && !(moves && a == t.owner) ==>
            v'.accounts[a] == v.accounts[a])
      && Received(AccountOf(l.c, v, tx.recipient), t, tx, v'.accounts[tx.recipient])
      && (moves ==> Given(AccountOf(l.c, v, t.owner), t, tx, v'.accounts[t.owner]))
      && v'.chains == v.chains && v'.chainSet == v.chainSet && v'.anchors == v.anchors
  {
    var t := l.c.tokens[tx.tokenID];
    Fallen(t.balance, tx.balance);
    Ownership.WithoutMembers(AccountOf(l.c, l.v, t.owner).tokens, tx.tokenID);
  }

  lemma Fallen(x: UInt64, y: UInt64)
    ensures (x - y) % TWO_64 == x - y + if y > x then TWO_64 else 0
  {
  }

  // ----- Deposits -----

  /** A deposit enters the block exactly when its token is new, to the block too, it hashes to that token,
      and the recipient's account is found. If only the hash is wrong the token is entered all the same;
      otherwise nothing changes. */
  lemma DepositIff(l: Ledger, tx: Tx, r: Rules)
    requires tx.prevBlock == 0
    ensures var v, id := Next(l, Try(tx), r).v, tx.tokenID;
      if id !in l.v.isSet && id !in l.c.tokens && Readable(l.c, l.v, tx.recipient)
         && !Breaks(l.c, l.v, tx.prevOwner) && !Loads(l.c.tokens.Keys, id)
      then v.isSet == l.v.isSet + {id}
           && (AcceptsTx(l.c, l.v, tx, r.key) <==> r.key(tx.depositIndex, tx.denomination, tx.recipient) == id)
      else v == l.v && !AcceptsTx(l.c, l.v, tx, r.key)
  {
  }

  /** A deposit that enters makes its token, all of it balance, and lists it for the recipient alone. If
      it is rejected late, the account is as it was. */
  lemma DepositDoes(l: Ledger, tx: Tx, r: Rules)
    requires tx.prevBlock == 0 && tx.tokenID in Next(l, Try(tx), r).v.isSet && tx.tokenID !in l.v.isSet
    ensures var v, v', a := l.v, Next(l, Try(tx), r).v, AccountOf(l.c, l.v, tx.recipient);
      && (forall id :: id in v'.tokens <==> id in v.tokens || id == tx.tokenID)
      && (forall id :: id in v.tokens && id != tx.tokenID ==> v'.tokens[id] == v.tokens[id])
      && v'.hashes == v.hashes[tx.tokenID := tx.hash]
      && v'.tokens[tx.tokenID] == Token(tx.denomination, |l.log| + 1, tx.recipient, tx.denomination, 0, 0)
      && (forall b :: b in v'.accounts <==> b in v.accounts || b == tx.recipient)
      && (forall b :: b in v.accounts && b != tx.recipient ==> v'.accounts[b] == v.accounts[b])
      && v'.accounts[tx.recipient] ==
           (if AcceptsTx(l.c, l.v, tx, r.key)
            then Account(a.tokens + [tx.tokenID], a.denomination + tx.denomination, a.balance + tx.denomination) else a)
      && v'.chains == v.chains && v'.chainSet == v.chainSet && v'.anchors == v.anchors
  {
  }

  // ----- Accounts -----

  /** Where nothing is stored under zero, an account can be read exactly when it is pending, or nothing is
      stored under its last eight bytes, or what is stored there is an account. */
  lemma ReadableIff(c: Storage, v: View, a: Address)
    requires 0 !in c.accounts
    ensures Readable(c, v, a) <==>
      a in v.accounts || a % TWO_64 !in c.accounts || c.accounts[a % TWO_64].Some?
    ensures !Breaks(c, v, a)
    ensures AccountOf(c, v, a) ==
      if a in v.accounts then v.accounts[a]
      else if a % TWO_64 in c.accounts && c.accounts[a % TWO_64].Some? then c.accounts[a % TWO_64].value
      else Account([], 0, 0)
  {
  }

  /** Where something is, neither it nor a key with no more half-bytes than all others can be. */
  lemma ZeroUnreadable(c: Storage, v: View, a: Address)
    requires 0 in c.accounts && a !in v.accounts && a % TWO_64 == 0
    ensures !Readable(c, v, a) && Breaks(c, v, a) && AccountOf(c, v, a) == Account([], 0, 0)
  {
    NibblesPositive();
  }

  lemma NibblesPositive()
    ensures forall s: UInt64 :: s != 0 ==> Nibbles(s) > 0
  {
  }

  /** A pending account that shares its storage key with no other is stored as it is if neither of its
      totals is negative, and as nothing that can be read otherwise; unless all accounts are lost and the
      block has no anchors. */
  lemma CommitStores(c: Storage, v: View, order: seq<Address>, a: Address)
    requires Orders(order, v.accounts) && a in v.accounts
    requires forall b :: b in v.accounts && b % TWO_64 == a % TWO_64 ==> b == a
    ensures var x, m := v.accounts[a], Committed(c, v, order).accounts;
      if x.denomination >= 0 && x.balance >= 0 then a % TWO_64 in m && m[a % TWO_64] == Some(x)
      else m == map[] || (a % TWO_64 in m && m[a % TWO_64] == None)
    ensures v.anchors != map[] ==> a % TWO_64 in Committed(c, v, order).accounts
  {
    StoreSame(c.accounts, v.accounts, order, Short(a), Encoding(v.accounts[a]));
  }
}
