/** The speculative chain: blocks minted on one another and not yet accepted. */
module Speculative {
  import opened Bytes

  type TxHash = nat

  datatype Block = Block(hash: nat, txs: seq<TxHash>)

  function TxSet(b: Block): set<TxHash> { set t | t in b.txs }

  /** The transactions of all blocks of the chain. */
  function AllTxs(bs: seq<Block>): set<TxHash> {
    if bs == [] then {} else AllTxs(bs[..|bs| - 1]) + TxSet(bs[|bs| - 1])
  }

  /** No transaction is in two blocks. */
  predicate Disjoint(bs: seq<Block>) {
    bs == [] || (Disjoint(bs[..|bs| - 1]) && AllTxs(bs[..|bs| - 1]) !! TxSet(bs[|bs| - 1]))
  }

  /** The state of the chain: its head, the blocks not yet applied, the hashes of blocks expected
      to be ruled invalid, and the transactions already proposed. */
  datatype State = State(head: Option<Block>, unapplied: seq<Block>, guard: set<nat>, proposed: set<TxHash>)

  /** The proposed transactions are exactly the disjoint union of those of the unapplied blocks,
      and the last unapplied block is the head. */
  predicate Inv(s: State) {
    && Disjoint(s.unapplied) && s.proposed == AllTxs(s.unapplied)
    && (s.unapplied != [] ==> s.head == Some(s.unapplied[|s.unapplied| - 1]))
  }

  // ----- The operations on values -----

  function Cleared(b: Block): State { State(Some(b), [], {}, {}) }

  function Extended(s: State, b: Block): State {
    State(Some(b), s.unapplied + [b], s.guard, s.proposed + TxSet(b))
  }

  function Accepted(s: State, b: Block): State {
    if s.unapplied == [] then s.(proposed := s.proposed - TxSet(b))
    else if s.unapplied[0].hash == b.hash then s.(unapplied := s.unapplied[1..], proposed := s.proposed - TxSet(b))
    else Cleared(b)
  }

  function Hashes(bs: seq<Block>): set<nat> { set b | b in bs :: b.hash }

  /** The blocks before the last one with the given hash, or none. */
  function Before(bs: seq<Block>, hash: nat): (k: nat)
    ensures k <= |bs|
    ensures k < |bs| && bs[k].hash == hash ==> forall i :: k < i < |bs| ==> bs[i].hash != hash
    ensures k == |bs| ==> bs == []
    ensures k < |bs| && bs[k].hash != hash ==> k == 0 && forall i :: 0 <= i < |bs| ==> bs[i].hash != hash
  {
    if bs == [] then 0
    else if bs[|bs| - 1].hash == hash then |bs| - 1
    else Before(bs[..|bs| - 1], hash)
  }

  /** The state with the blocks from `n` on popped. */
  function PopTo(s: State, n: nat, hash: nat, headBlock: Block): State
    requires n <= |s.unapplied|
  {
    if n == |s.unapplied| then s
    else State(Some(if n > 0 then s.unapplied[n - 1] else headBlock), s.unapplied[..n],
               s.guard + (Hashes(s.unapplied[n..]) - {hash}), s.proposed - AllTxs(s.unapplied[n..]))
  }

  /** Unwinding leaves the prefix before the invalid block and adds its descendants to the guard. */
  function Unwound(s: State, hash: nat, headBlock: Block): State {
    if hash in s.guard then s.(guard := s.guard - {hash})
    else PopTo(s, Before(s.unapplied, hash), hash, headBlock)
  }

  // ----- What the operations keep -----

  lemma {:induction false} Split(bs: seq<Block>, k: nat)
    requires k <= |bs|
    ensures AllTxs(bs) == AllTxs(bs[..k]) + AllTxs(bs[k..])
    ensures Disjoint(bs) ==> Disjoint(bs[..k]) && Disjoint(bs[k..]) && AllTxs(bs[..k]) !! AllTxs(bs[k..])
  {
    if k == |bs| {
      assert bs[..k] == bs && bs[k..] == [];
    } else {
      var rest := bs[..|bs| - 1];
      Split(rest, k);
      assert rest[..k] == bs[..k] && bs[k..][..|bs| - 1 - k] == rest[k..];
    }
  }

  lemma ExtendKeeps(s: State, b: Block)
    requires Inv(s) && TxSet(b) !! s.proposed
    ensures Inv(Extended(s, b))
  {
    assert (s.unapplied + [b])[..|s.unapplied|] == s.unapplied;
  }

  /** The earliest unapplied block, if it has the hash of `b`, has its transactions. */
  predicate Identified(s: State, b: Block) {
    s.unapplied != [] && s.unapplied[0].hash == b.hash ==> TxSet(s.unapplied[0]) == TxSet(b)
  }

  /** Accepting keeps the invariant where equal block hashes mean equal transactions. */
  lemma AcceptKeeps(s: State, b: Block)
    requires Inv(s) && Identified(s, b)
    ensures Inv(Accepted(s, b))
  {
    if s.unapplied != [] {
      Split(s.unapplied, 1);
      One(s.unapplied);
    }
  }

  lemma One(bs: seq<Block>)
    requires bs != []
    ensures AllTxs(bs[..1]) == TxSet(bs[0])
  {
    assert bs[..1][..0] == [];
  }

  lemma UnwindKeeps(s: State, hash: nat, headBlock: Block)
    requires Inv(s)
    ensures Inv(Unwound(s, hash, headBlock))
  {
    Split(s.unapplied, Before(s.unapplied, hash));
  }

  /** Unwinding at the last block with a hash that is not guarded, block `k`, leaves the `k` blocks before
      it and their transactions, and puts exactly the blocks after it in the guard. */
  lemma UnwindExact(s: State, k: nat, headBlock: Block)
    requires Inv(s) && k < |s.unapplied| && s.unapplied[k].hash !in s.guard
    requires forall i :: k < i < |s.unapplied| ==> s.unapplied[i].hash != s.unapplied[k].hash
    ensures var s' := Unwound(s, s.unapplied[k].hash, headBlock);
      && s'.unapplied == s.unapplied[..k] && s'.proposed == AllTxs(s.unapplied[..k])
      && s'.guard == s.guard + (set i | k < i < |s.unapplied| :: s.unapplied[i].hash)
      && s'.head == Some(if k > 0 then s.unapplied[k - 1] else headBlock)
  {
    var hash := s.unapplied[k].hash;
    BeforeIs(s.unapplied, hash, k);
    Split(s.unapplied, k);
    HashesAfter(s.unapplied, k);
  }

  lemma BeforeIs(bs: seq<Block>, hash: nat, k: nat)
    requires k < |bs| && bs[k].hash == hash && forall i :: k < i < |bs| ==> bs[i].hash != hash
    ensures Before(bs, hash) == k
  {
  }

  lemma HashesAfter(bs: seq<Block>, k: nat)
    requires k < |bs| && forall i :: k < i < |bs| ==> bs[i].hash != bs[k].hash
    ensures Hashes(bs[k..]) - {bs[k].hash} == set i | k < i < |bs| :: bs[i].hash
  {
    forall x | x in Hashes(bs[k..]) - {bs[k].hash} ensures exists i :: k < i < |bs| && bs[i].hash == x {
      var b :| b in bs[k..] && b.hash == x;
      var j :| 0 <= j < |bs[k..]| && bs[k..][j] == b;
      assert bs[k + j] == b;
    }
    forall i | k < i < |bs| ensures bs[i].hash in Hashes(bs[k..]) {
      assert bs[k..][i - k] == bs[i];
    }
  }

  /** Unwinding at a hash that is neither guarded nor on the chain takes everything off and guards it. */
  lemma UnwindMissing(s: State, hash: nat, headBlock: Block)
    requires Inv(s) && hash !in s.guard && forall i :: 0 <= i < |s.unapplied| ==> s.unapplied[i].hash != hash
    ensures var s' := Unwound(s, hash, headBlock);
      && s'.unapplied == [] && s'.proposed == {} && s'.head == (if s.unapplied == [] then s.head else Some(headBlock))
      && s'.guard == s.guard + set i | 0 <= i < |s.unapplied| :: s.unapplied[i].hash
  {
    var bs := s.unapplied;
    if bs != [] {
      assert Before(bs, hash) == 0;
      assert bs[0..] == bs && bs[..0] == [];
      forall i | 0 <= i < |bs| ensures bs[i].hash in Hashes(bs) { assert bs[i] in bs; }
      forall x | x in Hashes(bs) ensures exists i :: 0 <= i < |bs| && bs[i].hash == x {
        var b :| b in bs && b.hash == x;
        var j :| 0 <= j < |bs| && bs[j] == b;
      }
    }
  }

  /** Unwinding at a guarded hash only takes it off the guard. */
  lemma UnwindGuarded(s: State, hash: nat, headBlock: Block)
    requires hash in s.guard
    ensures var s' := Unwound(s, hash, headBlock);
      && s'.head == s.head && s'.unapplied == s.unapplied && s'.proposed == s.proposed
      && forall x :: x in s'.guard <==> x in s.guard && x != hash
  {
  }

  /** Accepting the earliest unapplied block takes it off the chain, with its transactions, and leaves
      the rest, the head and the guard. Accepting another starts over at it. On an empty chain only its
      transactions go. */
  lemma AcceptExact(s: State, b: Block)
    requires Inv(s) && Identified(s, b)
    ensures var s', bs := Accepted(s, b), s.unapplied;
      if bs == [] then s'.unapplied == [] && s'.head == s.head && s'.guard == s.guard && s'.proposed == {}
      else if bs[0].hash == b.hash then
        s'.unapplied == bs[1..] && s'.head == s.head && s'.guard == s.guard && s'.proposed == AllTxs(bs[1..])
      else s'.unapplied == [] && s'.head == Some(b) && s'.guard == {} && s'.proposed == {}
    ensures s.unapplied == [] ==> forall t :: t in Accepted(s, b).proposed <==> t in s.proposed && t !in b.txs
  {
    AcceptKeeps(s, b);
  }

  /** Extending adds the block at the end, makes it the head, proposes its transactions too and leaves
      the guard; and unwinding at it, if its hash is new, takes back all of that. */
  lemma ExtendExact(s: State, b: Block, headBlock: Block)
    requires Inv(s) && TxSet(b) !! s.proposed && b.hash !in s.guard
    ensures var s' := Extended(s, b);
      && s'.unapplied == s.unapplied + [b] && s'.head == Some(b) && s'.guard == s.guard
      && forall t :: t in s'.proposed <==> t in s.proposed || t in b.txs
    ensures var u := Unwound(Extended(s, b), b.hash, headBlock);
      && u.unapplied == s.unapplied && u.proposed == s.proposed && u.guard == s.guard
      && u.head == if s.unapplied == [] then Some(headBlock) else s.head
  {
    var s', n := Extended(s, b), |s.unapplied|;
    ExtendKeeps(s, b);
    UnwindExact(s', n, headBlock);
    assert s'.unapplied[..n] == s.unapplied;
  }

  datatype Op = Extend(b: Block) | Accept(b: Block) | Unwind(hash: nat, headBlock: Block) | Clear(b: Block)

  function Next(s: State, op: Op): State {
    match op
    case Extend(b) => Extended(s, b)
    case Accept(b) => Accepted(s, b)
    case Unwind(hash, headBlock) => Unwound(s, hash, headBlock)
    case Clear(b) => Cleared(b)
  }

  function Run(s: State, ops: seq<Op>): State {
    if ops == [] then s else Next(Run(s, ops[..|ops| - 1]), ops[|ops| - 1])
  }

  /** Blocks extend the chain with transactions that were filtered by the proposed ones, and a
      block hash identifies a block's transactions. */
  predicate Proper(s: State, ops: seq<Op>) {
    ops == [] ||
    (var m, op := Run(s, ops[..|ops| - 1]), ops[|ops| - 1];
     && Proper(s, ops[..|ops| - 1])
     && (op.Extend? ==> TxSet(op.b) !! m.proposed)
     && (op.Accept? ==> Identified(m, op.b)))
  }

  const EMPTY := State(None, [], {}, {})

  lemma {:induction false} RunInv(ops: seq<Op>)
    requires Proper(EMPTY, ops)
    ensures Inv(Run(EMPTY, ops))
  {
    if ops != [] {
      var s := Run(EMPTY, ops[..|ops| - 1]);
      RunInv(ops[..|ops| - 1]);
      match ops[|ops| - 1]
      case Extend(b) => ExtendKeeps(s, b);
      case Accept(b) => AcceptKeeps(s, b);
      case Unwind(hash, headBlock) => UnwindKeeps(s, hash, headBlock);
      case Clear(b) =>
    }
  }

  // ----- The chain -----

  class SpeculativeChain {
    var head: Option<Block>
    var unappliedBlocks: seq<Block>
    var expectedInvalid: set<nat>
    var proposedTxes: set<TxHash>

    ghost function Value(): State
      reads this
    {
      State(head, unappliedBlocks, expectedInvalid, proposedTxes)
    }

    constructor ()
      ensures Value() == EMPTY
    {
      head, unappliedBlocks, expectedInvalid, proposedTxes := None, [], {}, {};
    }

    /** Starts over at a block: whatever the state was, the invariant holds, the filter lets every
        transaction through, and no block is expected to be ruled invalid. */
    method Clear(b: Block)
      modifies this
      ensures Value() == Cleared(b) && Inv(Value())
      ensures forall txs :: Unproposed(txs, proposedTxes) == txs
      ensures forall hash, headBlock :: Unwound(Value(), hash, headBlock) == Value()
    {
      head, unappliedBlocks, expectedInvalid, proposedTxes := Some(b), [], {}, {};
      forall txs ensures Unproposed(txs, {}) == txs { NothingProposed(txs); }
    }

    method RecordProposed(txs: seq<TxHash>)
      modifies `proposedTxes
      ensures proposedTxes == old(proposedTxes) + set t | t in txs
    {
      for i := 0 to |txs|
        invariant proposedTxes == old(proposedTxes) + set t | t in txs[..i]
      {
        proposedTxes := proposedTxes + {txs[i]};
      }
      assert txs[..|txs|] == txs;
    }

    method RemoveProposed(b: Block)
      modifies `proposedTxes
      ensures proposedTxes == old(proposedTxes) - TxSet(b)
    {
      for i := 0 to |b.txs|
        invariant proposedTxes == old(proposedTxes) - set t | t in b.txs[..i]
      {
        proposedTxes := proposedTxes - {b.txs[i]};
      }
      assert b.txs[..|b.txs|] == b.txs;
    }

    method Extend(b: Block)
      modifies this
      ensures Value() == Extended(old(Value()), b)
      ensures old(Inv(Value())) && TxSet(b) !! old(proposedTxes) ==> Inv(Value())
    {
      ExtendedInv(Value(), b);
      head := Some(b);
      RecordProposed(b.txs);
      unappliedBlocks := unappliedBlocks + [b];
    }

    /** Takes an accepted block off the chain, or starts over at it. */
    method Accept(b: Block)
      modifies this
      ensures Value() == Accepted(old(Value()), b)
      ensures old(Inv(Value())) && old(Identified(Value(), b)) ==> Inv(Value())
    {
      AcceptedInv(Value(), b);
      if unappliedBlocks == [] {
        RemoveProposed(b);
      } else {
        var earliest := unappliedBlocks[0];
        unappliedBlocks := unappliedBlocks[1..];
        if earliest.hash == b.hash { RemoveProposed(b); } else { Clear(b); }
      }
    }

    /** Pops the last block. */
    method Pop(invalidHash: nat, headBlock: Block) returns (found: bool)
      requires unappliedBlocks != []
      modifies this
      ensures Value() == Popped(old(Value()), invalidHash, headBlock)
      ensures found <==> old(unappliedBlocks[|unappliedBlocks| - 1]).hash == invalidHash
    {
      var b := unappliedBlocks[|unappliedBlocks| - 1];
      unappliedBlocks := unappliedBlocks[..|unappliedBlocks| - 1];
      head := Some(if unappliedBlocks != [] then unappliedBlocks[|unappliedBlocks| - 1] else headBlock);
      RemoveProposed(b);
      found := b.hash == invalidHash;
      if !found { expectedInvalid := expectedInvalid + {b.hash}; }
    }

    /** Pops blocks from the end, down to and with the invalid one. */
    method UnwindFrom(invalidHash: nat, headBlock: Block)
      modifies this
      ensures Value() == Unwound(old(Value()), invalidHash, headBlock)
      ensures old(Inv(Value())) ==> Inv(Value())
    {
      if Inv(Value()) { UnwindKeeps(Value(), invalidHash, headBlock); }
      if invalidHash in expectedInvalid {
        expectedInvalid := expectedInvalid - {invalidHash};
        return;
      }
      PopDown(invalidHash, headBlock, Value());
    }

    method PopDown(invalidHash: nat, headBlock: Block, ghost s: State)
      requires Value() == s
      modifies this
      ensures Value() == PopTo(s, Before(s.unapplied, invalidHash), invalidHash, headBlock)
    {
      ghost var n := |unappliedBlocks|;
      var found := false;
      assert s.unapplied[..n] == s.unapplied;
      while !found && unappliedBlocks != []
        invariant n == |unappliedBlocks| <= |s.unapplied| && Value() == PopTo(s, n, invalidHash, headBlock)
        invariant Before(s.unapplied, invalidHash) == if found then n else Before(s.unapplied[..n], invalidHash)
        decreases n, !found
      {
        BeforeStep(s.unapplied, n, invalidHash);
        found := PopNext(invalidHash, headBlock, s, n);
        n := n - 1;
      }
    }

    method PopNext(invalidHash: nat, headBlock: Block, ghost s: State, ghost n: nat) returns (found: bool)
      requires 1 <= n <= |s.unapplied| && Value() == PopTo(s, n, invalidHash, headBlock)
      modifies this
      ensures Value() == PopTo(s, n - 1, invalidHash, headBlock) && |unappliedBlocks| == n - 1
      ensures found <==> s.unapplied[n - 1].hash == invalidHash
    {
      PopStep(s, n, invalidHash, headBlock);
      found := Pop(invalidHash, headBlock);
    }

    /** The transactions of each account that are not proposed yet. */
    method WithoutProposed(m: map<nat, seq<TxHash>>) returns (r: map<nat, seq<TxHash>>)
      ensures forall a :: a in r <==> a in m && Unproposed(m[a], proposedTxes) != []
      ensures forall a :: a in r ==> r[a] == Unproposed(m[a], proposedTxes)
    {
      r := map[];
      var left := m.Keys;
      while left != {}
        invariant left <= m.Keys
        invariant forall a :: a in r <==> a in m.Keys - left && Unproposed(m[a], proposedTxes) != []
        invariant forall a :: a in r ==> r[a] == Unproposed(m[a], proposedTxes)
      {
        var a :| a in left;
        left := left - {a};
        var kept := [];
        for i := 0 to |m[a]|
          invariant kept == Unproposed(m[a][..i], proposedTxes)
        {
          assert m[a][..i + 1][..i] == m[a][..i];
          if m[a][i] !in proposedTxes { kept := kept + [m[a][i]]; }
        }
        assert m[a][..|m[a]|] == m[a];
        if |kept| > 0 { r := r[a := kept]; }
      }
    }
  }

  function Unproposed(txs: seq<TxHash>, proposed: set<TxHash>): seq<TxHash> {
    if txs == [] then []
    else
      var rest := Unproposed(txs[..|txs| - 1], proposed);
      if txs[|txs| - 1] in proposed then rest else rest + [txs[|txs| - 1]]
  }

  /** A block made of transactions that passed the filter can extend the chain. */
  lemma {:induction false} FilteredIsProper(txs: seq<TxHash>, proposed: set<TxHash>)
    ensures forall t :: t in Unproposed(txs, proposed) <==> t in txs && t !in proposed
  {
    if txs != [] {
      FilteredIsProper(txs[..|txs| - 1], proposed);
      assert txs == txs[..|txs| - 1] + [txs[|txs| - 1]];
    }
  }

  /** The filter goes through a list from its start to its end, and keeps its order. */
  lemma {:induction false} FilterInOrder(a: seq<TxHash>, b: seq<TxHash>, proposed: set<TxHash>, t: TxHash)
    ensures Unproposed(a + b, proposed) == Unproposed(a, proposed) + Unproposed(b, proposed)
    ensures Unproposed([t], proposed) == if t in proposed then [] else [t]
    decreases |b|
  {
    assert [t][..0] == [];
    if b == [] {
      assert a + b == a;
    } else {
      FilterInOrder(a, b[..|b| - 1], proposed, t);
      assert (a + b)[..|a + b| - 1] == a + b[..|b| - 1];
    }
  }

  lemma {:induction false} NothingProposed(txs: seq<TxHash>)
    ensures Unproposed(txs, {}) == txs
  {
    if txs != [] {
      NothingProposed(txs[..|txs| - 1]);
      assert txs == txs[..|txs| - 1] + [txs[|txs| - 1]];
    }
  }

  lemma AcceptedInv(s: State, b: Block)
    ensures Inv(s) && Identified(s, b) ==> Inv(Accepted(s, b))
  {
    if Inv(s) && Identified(s, b) { AcceptKeeps(s, b); }
  }

  lemma ExtendedInv(s: State, b: Block)
    ensures Inv(s) && TxSet(b) !! s.proposed ==> Inv(Extended(s, b))
  {
    if Inv(s) && TxSet(b) !! s.proposed { ExtendKeeps(s, b); }
  }

  /** The state with its last block popped. */
  function Popped(s: State, hash: nat, headBlock: Block): State
    requires s.unapplied != []
  {
    var n, b := |s.unapplied| - 1, s.unapplied[|s.unapplied| - 1];
    State(Some(if n > 0 then s.unapplied[n - 1] else headBlock), s.unapplied[..n],
          if b.hash != hash then s.guard + {b.hash} else s.guard, s.proposed - TxSet(b))
  }

  lemma BeforeStep(bs: seq<Block>, n: nat, hash: nat)
    requires 1 <= n <= |bs|
    ensures Before(bs[..n], hash) == if bs[n - 1].hash == hash then n - 1 else Before(bs[..n - 1], hash)
  {
    assert bs[..n][..n - 1] == bs[..n - 1];
  }

  lemma PopStep(s: State, n: nat, hash: nat, headBlock: Block)
    requires 1 <= n <= |s.unapplied|
    ensures PopTo(s, n, hash, headBlock).unapplied == s.unapplied[..n]
    ensures PopTo(s, n - 1, hash, headBlock) == Popped(PopTo(s, n, hash, headBlock), hash, headBlock)
  {
    var bs := s.unapplied;
    PopLast(bs, n);
    PopSets(s.guard, Hashes(bs[n..]), bs[n - 1].hash, hash, s.proposed, AllTxs(bs[n..]), TxSet(bs[n - 1]));
    assert bs[..n][..n - 1] == bs[..n - 1] && bs[..n][n - 1] == bs[n - 1];
    if n == |bs| { assert bs[n..] == [] && bs[..n] == bs; }
  }

  lemma PopSets(guard: set<nat>, hashes: set<nat>, b: nat, hash: nat, proposed: set<TxHash>, txs: set<TxHash>,
                more: set<TxHash>)
    ensures guard + (hashes + {b} - {hash}) == guard + (hashes - {hash}) + if b != hash then {b} else {}
    ensures proposed - (txs + more) == proposed - txs - more
  {
  }

  lemma PopLast(bs: seq<Block>, n: nat)
    requires 1 <= n <= |bs|
    ensures Hashes(bs[n - 1..]) == Hashes(bs[n..]) + {bs[n - 1].hash}
    ensures AllTxs(bs[n - 1..]) == AllTxs(bs[n..]) + TxSet(bs[n - 1])
  {
    assert bs[n - 1..] == [bs[n - 1]] + bs[n..];
    Split(bs[n - 1..], 1);
    One(bs[n - 1..]);
    assert bs[n - 1..][1..] == bs[n..];
  }
}
