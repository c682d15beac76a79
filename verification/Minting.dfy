/** Minting on values: trying a list of transactions in turn, and where it stops. */
module Minting {
  import opened Bytes
  import opened Plasma
  import opened Journal
  import opened Ledger

  datatype Transaction = Transfer(tx: Tx) | Anchor(atx: AnchorTx)

  function HashOf(t: Transaction): nat {
    match t
    case Transfer(tx) => tx.hash
    case Anchor(atx) => atx.hash
  }

  predicate Accepts(c: Storage, v: View, t: Transaction, key: TokenKey) {
    match t
    case Transfer(tx) => AcceptsTx(c, v, tx, key)
    case Anchor(atx) => AcceptsAnchor(c, v, atx, false)
  }

  /** A deposit named by the wrong token, which is rejected after it is registered. */
  predicate Late(c: Storage, v: View, t: Transaction, key: TokenKey) {
    t.Transfer? && RejectedLate(c, v, t.tx, key)
  }

  /** Applying the transaction panics. */
  predicate Crashes(c: Storage, v: View, t: Transaction) {
    match t
    case Transfer(tx) => Panics(c, v, tx)
    case Anchor(atx) => BreaksChain(c, v, atx.chainID)
  }

  function TriedAny(c: Storage, v: View, block: nat, t: Transaction, key: TokenKey): View {
    match t
    case Transfer(tx) => Tried(c, v, block, tx, key)
    case Anchor(atx) => TriedAnchor(c, v, atx, false)
  }

  /** Trying transactions one after another. */
  function Played(c: Storage, v: View, block: nat, ts: seq<Transaction>, key: TokenKey): View {
    if ts == [] then v else TriedAny(c, Played(c, v, block, ts[..|ts| - 1], key), block, ts[|ts| - 1], key)
  }

  /** Each transaction is accepted where it stands. */
  predicate AllApply(c: Storage, v: View, block: nat, ts: seq<Transaction>, key: TokenKey) {
    ts == [] ||
    (AllApply(c, v, block, ts[..|ts| - 1], key) &&
     Accepts(c, Played(c, v, block, ts[..|ts| - 1], key), ts[|ts| - 1], key))
  }

  /** The same for the first `i` transactions of a list. */
  function PlayedTo(c: Storage, v: View, block: nat, ts: seq<Transaction>, key: TokenKey, i: nat): View
    requires i <= |ts|
  {
    if i == 0 then v else TriedAny(c, PlayedTo(c, v, block, ts, key, i - 1), block, ts[i - 1], key)
  }

  predicate AppliesTo(c: Storage, v: View, block: nat, ts: seq<Transaction>, key: TokenKey, i: nat)
    requires i <= |ts|
  {
    i == 0 ||
    (AppliesTo(c, v, block, ts, key, i - 1) && Accepts(c, PlayedTo(c, v, block, ts, key, i - 1), ts[i - 1], key))
  }

  lemma {:induction false} PrefixPlayed(c: Storage, v: View, block: nat, ts: seq<Transaction>, key: TokenKey, i: nat)
    requires i <= |ts|
    ensures Played(c, v, block, ts[..i], key) == PlayedTo(c, v, block, ts, key, i)
    ensures AllApply(c, v, block, ts[..i], key) <==> AppliesTo(c, v, block, ts, key, i)
  {
    if i > 0 {
      PrefixPlayed(c, v, block, ts, key, i - 1);
      assert ts[..i][..i - 1] == ts[..i - 1];
    }
  }

  /** `k` is the length of the longest prefix that applies. */
  predicate Longest(c: Storage, v: View, block: nat, ts: seq<Transaction>, key: TokenKey, k: nat) {
    && k <= |ts| && AllApply(c, v, block, ts[..k], key)
    && (k < |ts| ==> !Accepts(c, Played(c, v, block, ts[..k], key), ts[k], key))
  }

  /** The transaction after the first `k` panics. */
  predicate StopsAt(c: Storage, v: View, block: nat, ts: seq<Transaction>, key: TokenKey, k: nat) {
    k < |ts| && Crashes(c, Played(c, v, block, ts[..k], key), ts[k])
  }

  lemma {:induction false} PrefixApplies(c: Storage, v: View, block: nat, ts: seq<Transaction>, key: TokenKey, k: nat)
    requires AllApply(c, v, block, ts, key) && k <= |ts|
    ensures AllApply(c, v, block, ts[..k], key)
    ensures k < |ts| ==> Accepts(c, Played(c, v, block, ts[..k], key), ts[k], key)
  {
    if k == |ts| {
      assert ts[..k] == ts;
    } else if k < |ts| - 1 {
      assert ts[..|ts| - 1][..k] == ts[..k];
      PrefixApplies(c, v, block, ts[..|ts| - 1], key, k);
    } else {
      PrefixApplies(c, v, block, ts[..|ts| - 1], key, k);
      assert ts[..|ts| - 1][..k] == ts[..k];
    }
  }

  /** No longer prefix applies. */
  lemma LongestIsLongest(c: Storage, v: View, block: nat, ts: seq<Transaction>, key: TokenKey, k: nat, j: nat)
    requires Longest(c, v, block, ts, key, k) && j <= |ts|
    ensures AllApply(c, v, block, ts[..j], key) <==> j <= k
  {
    if j <= k {
      assert ts[..k][..j] == ts[..j];
      PrefixApplies(c, v, block, ts[..k], key, j);
    } else if AllApply(c, v, block, ts[..j], key) {
      assert ts[..j][..k] == ts[..k];
      PrefixApplies(c, v, block, ts[..j], key, k);
    }
  }

  /** Trying a rejected transaction again changes nothing and rejects it again. */
  lemma RetrySame(c: Storage, v: View, block: nat, t: Transaction, key: TokenKey)
    requires !Accepts(c, v, t, key)
    ensures var v' := TriedAny(c, v, block, t, key);
      && !Accepts(c, v', t, key) && TriedAny(c, v', block, t, key) == v'
      && (!Crashes(c, v, t) ==> !Crashes(c, v', t))
  {
  }

  /** A transaction that panics is not accepted. */
  lemma CrashRejects(c: Storage, v: View, t: Transaction, block: nat, key: TokenKey)
    requires Crashes(c, v, t)
    ensures !Accepts(c, v, t, key) && TriedAny(c, v, block, t, key) == v
  {
  }

  /** The view a rejected transaction leaves is the one before it, unless the rejection is late. */
  lemma RejectedIff(c: Storage, v: View, block: nat, t: Transaction, key: TokenKey)
    requires !Accepts(c, v, t, key)
    ensures TriedAny(c, v, block, t, key) == v <==> !Late(c, v, t, key)
  {
    if Late(c, v, t, key) {
      assert t.tx.tokenID in TriedAny(c, v, block, t, key).isSet;
    }
  }

  /** A deposit among them hashes to its token. */
  predicate AllNamed(ts: seq<Transaction>, key: TokenKey) {
    forall t :: t in ts ==> NamedAny(t, key)
  }

  predicate NamedAny(t: Transaction, key: TokenKey) {
    t.Transfer? ==> Named(t.tx, key)
  }

  /** A rejected transaction that is named right leaves the view before it. */
  lemma RejectedNamed(c: Storage, v: View, block: nat, t: Transaction, key: TokenKey)
    requires !Accepts(c, v, t, key) && NamedAny(t, key)
    ensures !Late(c, v, t, key) && TriedAny(c, v, block, t, key) == v
  {
  }

  /** How many transactions a mint uses up: the committed ones and the one that stopped it. */
  function Used(ts: seq<Transaction>, k: nat): nat
    requires k <= |ts|
  {
    if k < |ts| then k + 1 else k
  }

  /** Minting a pool of transactions that are named right leaves the replay of the committed ones. */
  lemma ReplayNamed(c: Storage, v: View, block: nat, ts: seq<Transaction>, key: TokenKey, k: nat)
    requires Longest(c, v, block, ts, key, k) && AllNamed(ts, key)
    ensures Played(c, v, block, ts[..Used(ts, k)], key) == Played(c, v, block, ts[..k], key)
  {
    if k < |ts| {
      assert ts[k] in ts;
      ReplayIff(c, v, block, ts, key, k);
    }
  }

  /** Minting leaves the replay of the committed transactions alone exactly when the transaction
      that stopped it was not rejected late. */
  lemma ReplayIff(c: Storage, v: View, block: nat, ts: seq<Transaction>, key: TokenKey, k: nat)
    requires Longest(c, v, block, ts, key, k) && k < |ts|
    ensures Played(c, v, block, ts[..k + 1], key) == Played(c, v, block, ts[..k], key)
       <==> !Late(c, Played(c, v, block, ts[..k], key), ts[k], key)
  {
    assert ts[..k + 1][..k] == ts[..k];
    RejectedIff(c, Played(c, v, block, ts[..k], key), block, ts[k], key);
  }

  // ----- Going back to an older snapshot -----

  /** The transaction leaves something entered: it is accepted, or rejected late. */
  predicate EntersAny(c: Storage, v: View, t: Transaction, key: TokenKey) {
    Accepts(c, v, t, key) || Late(c, v, t, key)
  }

  /** Everything entered in the first view is entered in the second. */
  predicate Grown(v: View, w: View) {
    v.isSet <= w.isSet && forall id :: id in v.anchors ==> id in w.anchors && v.anchors[id] <= w.anchors[id]
  }

  /** Trying a transaction enters something new or changes nothing. */
  lemma TriedGrows(c: Storage, v: View, block: nat, t: Transaction, key: TokenKey)
    ensures var w := TriedAny(c, v, block, t, key);
      Grown(v, w) && if EntersAny(c, v, t, key) then !Grown(w, v) else w == v
  {
    match t
    case Transfer(tx) =>
      if EntersAny(c, v, t, key) { assert tx.tokenID in TriedAny(c, v, block, t, key).isSet; }
    case Anchor(atx) =>
      if Accepts(c, v, t, key) {
        var w := TriedAny(c, v, block, t, key);
        assert atx.chainID in w.anchors;
        if atx.chainID in v.anchors { assert |w.anchors[atx.chainID]| == |v.anchors[atx.chainID]| + 1; }
      }
  }

  lemma GrownTwice(v: View, w: View, x: View)
    requires Grown(v, w) && Grown(w, x)
    ensures Grown(v, x)
  {
  }

  /** None of the first `i` transactions enters anything. */
  predicate NoneEnters(c: Storage, v: View, block: nat, ts: seq<Transaction>, key: TokenKey, i: nat)
    requires i <= |ts|
  {
    i == 0 ||
    (NoneEnters(c, v, block, ts, key, i - 1) && !EntersAny(c, PlayedTo(c, v, block, ts, key, i - 1), ts[i - 1], key))
  }

  lemma {:induction false} PlayedGrows(c: Storage, v: View, block: nat, ts: seq<Transaction>, key: TokenKey, i: nat)
    requires i <= |ts|
    ensures var w := PlayedTo(c, v, block, ts, key, i);
      Grown(v, w) && if NoneEnters(c, v, block, ts, key, i) then w == v else !Grown(w, v)
  {
    if i > 0 {
      var m, w := PlayedTo(c, v, block, ts, key, i - 1), PlayedTo(c, v, block, ts, key, i);
      PlayedGrows(c, v, block, ts, key, i - 1);
      TriedGrows(c, m, block, ts[i - 1], key);
      GrownTwice(v, m, w);
      if Grown(w, v) {
        GrownTwice(m, w, v);
        GrownTwice(w, v, m);
      }
    }
  }

  /** Transactions have been tried since a snapshot of the view `v`, each on a snapshot of its own, and
      `es` is what the journal has gained, which is nothing if none entered. Reverting to the older
      snapshot restores its view exactly when none of them was accepted, nor rejected late. */
  lemma RestoredIff(c: Storage, v: View, block: nat, ts: seq<Transaction>, key: TokenKey, es: seq<Entry>)
    requires NoneEnters(c, v, block, ts, key, |ts|) ==> es == []
    ensures UndoAll(Played(c, v, block, ts, key), es) == v <==> NoneEnters(c, v, block, ts, key, |ts|)
  {
    PrefixPlayed(c, v, block, ts, key, |ts|);
    assert ts[..|ts|] == ts;
    PlayedGrows(c, v, block, ts, key, |ts|);
    UndoKeeps(Played(c, v, block, ts, key), es);
  }

  // ----- Minting as a run -----

  function EventOf(t: Transaction): Event {
    match t
    case Transfer(tx) => Try(tx)
    case Anchor(atx) => TryAnchor(atx)
  }

  function Events(ts: seq<Transaction>): seq<Event> {
    if ts == [] then [] else Events(ts[..|ts| - 1]) + [EventOf(ts[|ts| - 1])]
  }

  /** Trying transactions is a run of the ledger. */
  lemma {:induction false} PlayedIsRun(l: Ledger, ts: seq<Transaction>, key: TokenKey)
    ensures var l' := Run(l, Events(ts), Rules(key, false));
      && l'.v == Played(l.c, l.v, |l.log| + 1, ts, key)
      && l'.c == l.c && l'.log == l.log && l'.anchorLog == l.anchorLog
  {
    if ts != [] {
      var es := Events(ts[..|ts| - 1]);
      PlayedIsRun(l, ts[..|ts| - 1], key);
      assert (es + [EventOf(ts[|ts| - 1])])[..|es|] == es;
    }
  }

  /** A minted block is a run that tries transactions and seals. Its transaction tree holds what the
      run logs. */
  lemma MintIsRun(l: Ledger, ts: seq<Transaction>, key: TokenKey, order: seq<Address>)
    requires l.v == NO_VIEW && Tracked(l)
    ensures var v := Played(l.c, NO_VIEW, |l.log| + 1, ts, key);
      var l' := Run(l, Events(ts) + [Seal(order)], Rules(key, false));
      && l'.c == Committed(l.c, v, order) && l'.v == NO_VIEW
      && |l'.log| == |l.log| + 1 && l'.log[..|l.log|] == l.log && Hashes(l'.log[|l.log|]) == Transactions(v)
  {
    var mid := Run(l, Events(ts), Rules(key, false));
    PlayedIsRun(l, ts, key);
    RunLast(l, Events(ts), Seal(order), Rules(key, false));
    TrackedFrom(l, Events(ts), Rules(key, false));
    SealedHashes(mid);
  }

  /** Trying transactions seals nothing. */
  lemma {:induction false} EventsFlush(l: Ledger, ts: seq<Transaction>, r: Rules)
    ensures AllFlush(l, Events(ts), r)
  {
    if ts != [] {
      EventsFlush(l, ts[..|ts| - 1], r);
      FlushLast(l, Events(ts[..|ts| - 1]), EventOf(ts[|ts| - 1]), r);
    }
  }

  /** A block that can be flushed makes such a run. */
  lemma MintFlushes(l: Ledger, ts: seq<Transaction>, key: TokenKey, order: seq<Address>)
    requires var v := Played(l.c, l.v, |l.log| + 1, ts, key); Orders(order, v.accounts) && Flushes(l.c, v)
    ensures AllFlush(l, Events(ts) + [Seal(order)], Rules(key, false))
  {
    EventsFlush(l, ts, Rules(key, false));
    PlayedIsRun(l, ts, key);
    FlushLast(l, Events(ts), Seal(order), Rules(key, false));
  }

  /** Trying transactions that are named right and go to addresses of `w` is clean. */
  lemma {:induction false} EventsClean(w: iset<Address>, l: Ledger, ts: seq<Transaction>, r: Rules)
    requires AllNamed(ts, r.key) && forall t :: t in ts ==> Within(t, w)
    ensures Clean(false, w, l, Events(ts), r)
  {
    if ts != [] {
      var rest, t := ts[..|ts| - 1], ts[|ts| - 1];
      assert ts == rest + [t];
      EventsClean(w, l, rest, r);
      assert NamedAny(t, r.key) && Within(t, w);
      EventClean(w, Run(l, Events(rest), r), t, r);
      CleanLast(false, w, l, Events(rest), EventOf(t), r);
    }
  }

  lemma EventClean(w: iset<Address>, l: Ledger, t: Transaction, r: Rules)
    requires NamedAny(t, r.key) && Within(t, w)
    ensures CleanStep(false, w, l, EventOf(t), r)
  {
  }

  /** A transaction's recipient is among the given addresses. */
  predicate Within(t: Transaction, w: iset<Address>) {
    t.Transfer? ==> t.tx.recipient in w
  }
}
