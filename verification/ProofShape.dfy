/** What a generated proof looks like: which bits of its bitmap are set and which siblings it lists. */
module ProofShape {
  import opened Bytes
  import opened Keys
  import opened PlainTree
  import opened ProofCheck
  import opened Tries
  import opened TrieRoot
  import opened ProofGen
  import opened ZeroKey

  /** The sibling at height `i` is not the default hash it is compared with: that of the height of the
      same place in the top node. */
  ghost predicate Differs(h: Hash, m: Values, k: Key, i: nat)
    requires i < 64
  {
    SiblingAt(h, m, k, i) != Default(h, 60 + i % 4)
  }

  /** The siblings at the heights below `n` whose bit is set, from the bottom up. */
  function Picked(h: Hash, m: Values, k: Key, bits: nat, n: nat): seq<Bytes>
    requires n <= 64
  {
    if n == 0 then []
    else Picked(h, m, k, bits, n - 1) + if BitAt(bits, n - 1) then [SiblingAt(h, m, k, n - 1)] else []
  }

  /** Bit `i` of a proof up to height `n` that starts at height `s`. */
  ghost predicate BitIs(h: Hash, m: Values, k: Key, s: nat, n: nat, bits: nat, i: nat) {
    BitAt(bits, i) <==> s <= i < n && i < 64 && Differs(h, m, k, i)
  }

  ghost predicate Shape(h: Hash, m: Values, k: Key, s: nat, n: nat, pr: Proof) {
    && n <= 64 && pr.key == k && pr.hashes == Picked(h, m, k, pr.bits, n)
    && forall i: nat {:trigger BitIs(h, m, k, s, n, pr.bits, i)} :: BitIs(h, m, k, s, n, pr.bits, i)
  }

  lemma {:induction false} PickedSame(h: Hash, m: Values, k: Key, x: nat, y: nat, n: nat)
    requires n <= 64 && forall i: nat {:trigger BitAt(x, i)} {:trigger BitAt(y, i)} ::
      i < n ==> BitAt(x, i) == BitAt(y, i)
    ensures Picked(h, m, k, x, n) == Picked(h, m, k, y, n)
  {
    if n > 0 { PickedSame(h, m, k, x, y, n - 1); }
  }

  lemma {:induction false} PickedNone(h: Hash, m: Values, k: Key, n: nat)
    requires n <= 64
    ensures Picked(h, m, k, 0, n) == []
  {
    if n > 0 {
      NoBits(n - 1);
      PickedNone(h, m, k, n - 1);
    }
  }

  /** Nothing listed yet. */
  lemma StartShape(h: Hash, m: Values, k: Key, s: nat)
    requires s <= 64
    ensures Shape(h, m, k, s, s, Proof(k, [], 0))
  {
    PickedNone(h, m, k, s);
    forall i: nat ensures BitIs(h, m, k, s, s, 0, i) { NoBits(i); }
  }

  /** One sibling more. */
  lemma StepShape(h: Hash, m: Values, k: Key, s: nat, n: nat, pr: Proof, up: nat, taller: nat)
    requires s <= n < 64 && up == n + 1 && taller == 60 + n % 4 && Shape(h, m, k, s, n, pr)
    ensures Shape(h, m, k, s, up, WithSister(h, pr, SiblingAt(h, m, k, n), n, taller))
  {
    var qr := WithSister(h, pr, SiblingAt(h, m, k, n), n, taller);
    if Differs(h, m, k, n) {
      forall i: nat ensures BitAt(qr.bits, i) <==> i == n || BitAt(pr.bits, i) { SetBitAt(pr.bits, n, i); }
      PickedSame(h, m, k, pr.bits, qr.bits, n);
    } else {
      assert BitIs(h, m, k, s, n, pr.bits, n);
    }
    forall i: nat ensures BitIs(h, m, k, s, up, qr.bits, i) { assert BitIs(h, m, k, s, n, pr.bits, i); }
  }

  /** The siblings of one node. */
  lemma {:induction false} AllShape(h: Hash, m: Values, k: Key, s: nat, n: nat, pr: Proof, sis: seq<Bytes>, top: nat)
    requires |sis| <= 4 && n + |sis| == top <= 64 && top % 4 == 0 && s <= n && Shape(h, m, k, s, n, pr)
    requires forall i {:trigger SiblingIs(h, m, k, n, sis, i)} :: 0 <= i < |sis| ==> SiblingIs(h, m, k, n, sis, i)
    ensures Shape(h, m, k, s, top, AddAll(h, pr, sis, n))
    decreases |sis|
  {
    if sis != [] {
      var up, taller := n + 1, 64 - |sis|;
      assert SiblingIs(h, m, k, n, sis, 0);
      Place(n, |sis|, top);
      StepShape(h, m, k, s, n, pr, up, taller);
      SistersUp(h, m, k, n, sis, up);
      AllShape(h, m, k, s, up, WithSister(h, pr, sis[0], n, taller), sis[1..], top);
    }
  }

  lemma Place(n: nat, left: nat, top: nat)
    requires 0 < left <= 4 && n + left == top && top % 4 == 0
    ensures 64 - left == 60 + n % 4
  {}

  lemma SistersUp(h: Hash, m: Values, k: Key, n: nat, sis: seq<Bytes>, up: nat)
    requires sis != [] && up == n + 1 && n + |sis| <= 64
    requires forall i {:trigger SiblingIs(h, m, k, n, sis, i)} :: 0 <= i < |sis| ==> SiblingIs(h, m, k, n, sis, i)
    ensures forall i {:trigger SiblingIs(h, m, k, up, sis[1..], i)} ::
      0 <= i < |sis| - 1 ==> SiblingIs(h, m, k, up, sis[1..], i)
  {
    forall i | 0 <= i < |sis| - 1 ensures SiblingIs(h, m, k, up, sis[1..], i) {
      assert SiblingIs(h, m, k, n, sis, i + 1);
    }
  }

  lemma NodeSisters(h: Hash, t: Trie, p: seq<bool>, m: Values, k: Key, n: nat, w: nat, idx: nat, sis: seq<Bytes>)
    requires t.Branch? && Fits(t, p) && Shows(Some(t), p, m) && w == 4 && |p| + w + n == 64
    requires idx < Pow2(w) && Path(k)[..|p| + w] == p + BitsOf(w, idx) && sis == SisterList(h, t, p, w, idx)
    ensures forall i {:trigger SiblingIs(h, m, k, n, sis, i)} :: 0 <= i < |sis| ==> SiblingIs(h, m, k, n, sis, i)
  {
    forall i | 0 <= i < |sis| ensures SiblingIs(h, m, k, n, sis, i) { SistersOnPath(h, t, p, m, k, w, idx, i, n + i); }
  }

  lemma NodeShape(h: Hash, t: Trie, p: seq<bool>, m: Values, k: Key, s: nat, n: nat, pr: Proof, w: nat, idx: nat,
                  top: nat)
    requires t.Branch? && Fits(t, p) && Shows(Some(t), p, m) && w == 4 && |p| + w + n == 64
    requires idx < Pow2(w) && Path(k)[..|p| + w] == p + BitsOf(w, idx)
    requires top == n + w && top % 4 == 0 && s <= n && Shape(h, m, k, s, n, pr)
    ensures Shape(h, m, k, s, top, AddSisters(h, t, p, w, idx, pr))
  {
    var sis := SisterList(h, t, p, w, idx);
    SistersAreAll(h, t, p, w, idx, pr);
    NodeSisters(h, t, p, m, k, n, w, idx, sis);
    AllShape(h, m, k, s, n, pr, sis, top);
  }

  /** The height of the slot that the way to `k` ends in. */
  ghost function Start(t: Trie, p: seq<bool>, k: Key): nat
    requires t.Branch? && Fits(t, p)
    decreases t
  {
    var o := t.kids[Slot(p, k)];
    if o.Some? && o.value.Branch? then Start(o.value, Below(p, k), k) else 60 - |p|
  }

  lemma {:induction false} GenShape(h: Hash, t: Trie, p: seq<bool>, m: Values, k: Key, w: nat, n: nat, top: nat)
    requires t.Branch? && Fits(t, p) && Shows(Some(t), p, m) && Under(p, k) && w == 4 && |p| + w + n == 64
    requires top == n + w && GenProof(h, t, p, k).Some?
    ensures Start(t, p, k) <= n && Shape(h, m, k, Start(t, p, k), top, GenProof(h, t, p, k).value)
    decreases t
  {
    var idx, s := Slot(p, k), Start(t, p, k);
    WayDown(p, k, w);
    var pr := BelowShape(h, t, p, m, k, w, n, s);
    Fourths(|p|, top);
    NodeShape(h, t, p, m, k, s, n, pr, w, idx, top);
  }

  lemma Fourths(p: nat, top: nat)
    requires p % 4 == 0 && p + top == 64
    ensures top % 4 == 0
  {
  }

  lemma WayDown(p: seq<bool>, k: Key, w: nat)
    requires |p| <= 60 && |p| % 4 == 0 && Under(p, k) && w == 4
    ensures Under(Below(p, k), k) && Slot(p, k) < Pow2(w) && Path(k)[..|p| + w] == p + BitsOf(w, Slot(p, k))
  {
    SmallPowers();
    KeyBelow(p, k);
  }

  /** The part of a proof made below a node. */
  lemma {:induction false} BelowShape(h: Hash, t: Trie, p: seq<bool>, m: Values, k: Key, w: nat, n: nat, s: nat)
    returns (pr: Proof)
    requires t.Branch? && Fits(t, p) && Shows(Some(t), p, m) && Under(p, k) && w == 4 && |p| + w + n == 64
    requires s == Start(t, p, k) && GenProof(h, t, p, k).Some?
    ensures s <= n && Slot(p, k) < Pow2(w) && Shape(h, m, k, s, n, pr)
    ensures GenProof(h, t, p, k) == Some(AddSisters(h, t, p, w, Slot(p, k), pr))
    decreases t, 0
  {
    WayDown(p, k, w);
    var kid := t.kids[Slot(p, k)].value;
    if kid.Term? {
      StartShape(h, m, k, s);
      pr := Proof(k, [], 0);
    } else {
      KidShows(t, p, m, Slot(p, k));
      GenShape(h, kid, Below(p, k), m, k, w, n - w, n);
      pr := GenProof(h, kid, Below(p, k), k).value;
    }
  }

  // ----- Where a proof starts -----

  /** How many bits of a key lead to the node that has height `i` in its cache. */
  function NodeBits(i: nat): (b: nat)
    requires i < 64
    ensures b <= 60 && b % 4 == 0
  {
    4 * ((63 - i) / 4)
  }

  /** Two different keys of the trie have the first `b` bits of `k`. */
  ghost predicate Meet(t: Trie, p: seq<bool>, k: Key, b: nat)
    requires t.Branch? && Fits(t, p) && b <= 64
  {
    exists x, y :: x != y && Has(t, p, x) && Has(t, p, y) && Under(Path(k)[..b], x) && Under(Path(k)[..b], y)
  }

  lemma MeetsKid(t: Trie, p: seq<bool>, k: Key, b: nat, kid: Trie, q: seq<bool>)
    requires t.Branch? && Fits(t, p) && Under(p, k) && q == Below(p, k) && |q| <= b <= 64
    requires t.kids[Slot(p, k)] == Some(kid) && kid.Branch?
    ensures Meet(t, p, k, b) <==> Meet(kid, q, k, b)
  {
    KeyBelow(p, k);
    if Meet(kid, q, k, b) {
      var x, y :| x != y && Has(kid, q, x) && Has(kid, q, y) && Under(Path(k)[..b], x) && Under(Path(k)[..b], y);
      HasKid(t, p, Slot(p, k), x);
      HasKid(t, p, Slot(p, k), y);
    }
    if Meet(t, p, k, b) {
      var x, y :| x != y && Has(t, p, x) && Has(t, p, y) && Under(Path(k)[..b], x) && Under(Path(k)[..b], y);
      ComesFrom(t, p, k, b, x);
      ComesFrom(t, p, k, b, y);
    }
  }

  /** A key that shares the way to `k` is in the same slot. */
  lemma ComesFrom(t: Trie, p: seq<bool>, k: Key, b: nat, x: Key)
    requires t.Branch? && Fits(t, p) && Under(p, k) && |p| + 4 <= b <= 64 && Has(t, p, x) && Under(Path(k)[..b], x)
    ensures Under(Below(p, k), x) && Slot(p, x) == Slot(p, k) && Below(p, x) == Below(p, k)
    ensures var o := t.kids[Slot(p, k)];
      o.Some? && if o.value.Term? then o.value.key == x else Has(o.value, Below(p, k), x)
  {
    KeyBelow(p, k);
    var q := Below(p, k);
    assert Path(k)[..b][..|q|] == q && Path(x)[..b][..|q|] == Path(x)[..|q|];
    UnderPiece(p, x, |p| / 4, Slot(p, k));
  }

  lemma KidMeets(t: Trie, p: seq<bool>, k: Key, kid: Trie, q: seq<bool>)
    requires t.Branch? && Fits(t, p) && Crowded(t, p) && Under(p, k) && q == Below(p, k)
    requires t.kids[Slot(p, k)] == Some(kid) && kid.Branch?
    ensures |q| <= 60 && Meet(kid, q, k, |q|)
  {
    KeyBelow(p, k);
    var x := SomeKey(kid, q);
    var y := OtherKey(kid, q, x);
    assert Path(k)[..|q|] == q;
  }

  lemma HeightBits(i: nat, b: nat, n: nat)
    requires i < 64 && b == NodeBits(i) && n % 4 == 0 && n <= 60
    ensures i >= 60 - n <==> b <= n
    ensures b > n ==> b >= n + 4
  {}

  /** The way to `k` passes a node at or above height `i` exactly when that is the given node, or two keys
      meet there. */
  lemma {:induction false} StartIff(t: Trie, p: seq<bool>, k: Key, i: nat, b: nat)
    requires t.Branch? && Fits(t, p) && Crowded(t, p) && Under(p, k) && t.kids[Slot(p, k)].Some?
    requires i < 64 && b == NodeBits(i) && |p| <= b
    ensures i >= Start(t, p, k) <==> b == |p| || Meet(t, p, k, b)
    decreases t
  {
    var kid, q := t.kids[Slot(p, k)].value, Below(p, k);
    HeightBits(i, b, |p|);
    if kid.Branch? { StartBelow(t, p, k, i, b, kid, q); } else if b > |p| { NoneMeet(t, p, k, b); }
  }

  lemma {:induction false} StartBelow(t: Trie, p: seq<bool>, k: Key, i: nat, b: nat, kid: Trie, q: seq<bool>)
    requires t.Branch? && Fits(t, p) && Crowded(t, p) && Under(p, k) && q == Below(p, k)
    requires t.kids[Slot(p, k)] == Some(kid) && kid.Branch? && i < 64 && b == NodeBits(i) && |p| <= b
    ensures i >= Start(t, p, k) <==> b == |p| || Meet(t, p, k, b)
    decreases t, 0
  {
    KidMeets(t, p, k, kid, q);
    StartLow(kid, q, k);
    HeightBits(i, b, |p|);
    HeightBits(i, b, |q|);
    if b > |p| {
      if kid.kids[Slot(q, k)].Some? { StartIff(kid, q, k, i, b); } else if b > |q| { NoneUnder(kid, q, k, b); }
      MeetsKid(t, p, k, b, kid, q);
    }
  }

  lemma {:induction false} StartLow(t: Trie, p: seq<bool>, k: Key)
    requires t.Branch? && Fits(t, p)
    ensures Start(t, p, k) <= 60 - |p|
    decreases t
  {
    var o := t.kids[Slot(p, k)];
    if o.Some? && o.value.Branch? { StartLow(o.value, Below(p, k), k); }
  }

  lemma NoneMeet(t: Trie, p: seq<bool>, k: Key, b: nat)
    requires t.Branch? && Fits(t, p) && Under(p, k) && |p| + 4 <= b <= 64
    requires t.kids[Slot(p, k)].Some? && t.kids[Slot(p, k)].value.Term?
    ensures !Meet(t, p, k, b)
  {
    if Meet(t, p, k, b) {
      var x, y :| x != y && Has(t, p, x) && Has(t, p, y) && Under(Path(k)[..b], x) && Under(Path(k)[..b], y);
      ComesFrom(t, p, k, b, x);
      ComesFrom(t, p, k, b, y);
    }
  }

  lemma NoneUnder(t: Trie, p: seq<bool>, k: Key, b: nat)
    requires t.Branch? && Fits(t, p) && Under(p, k) && |p| + 4 <= b <= 64 && t.kids[Slot(p, k)].None?
    ensures !Meet(t, p, k, b)
  {
    if Meet(t, p, k, b) {
      var x, y :| x != y && Has(t, p, x) && Has(t, p, y) && Under(Path(k)[..b], x) && Under(Path(k)[..b], y);
      ComesFrom(t, p, k, b, x);
    }
  }

  // ----- The bitmap and the list -----

  /** Two different keys of the map have the first `b` bits of `k`. */
  ghost predicate Shared(m: Values, k: Key, b: nat)
    requires b <= 64
  {
    exists x, y :: x in m && y in m && x != y && Under(Path(k)[..b], x) && Under(Path(k)[..b], y)
  }

  lemma MeetShared(t: Trie, m: Values, k: Key, b: nat)
    requires t.Branch? && Fits(t, []) && Shows(Some(t), [], m) && b <= 64
    ensures Meet(t, [], k, b) <==> Shared(m, k, b)
  {
    if Meet(t, [], k, b) {
      var x, y :| x != y && Has(t, [], x) && Has(t, [], y) && Under(Path(k)[..b], x) && Under(Path(k)[..b], y);
      assert ShowsAt(Some(t), [], m, x) && ShowsAt(Some(t), [], m, y);
    }
    if Shared(m, k, b) {
      var x, y :| x in m && y in m && x != y && Under(Path(k)[..b], x) && Under(Path(k)[..b], y);
      assert ShowsAt(Some(t), [], m, x) && ShowsAt(Some(t), [], m, y);
      assert Has(t, [], x) && Has(t, [], y);
    }
  }

  /** Bit `i` of the proof generated for a key is set exactly when the way to the key passes a node with
      that height, which is the top one or one where two keys meet, and the sibling is not the default
      hash of the same place in the top node; and the proof lists the siblings whose bits are set, from
      the bottom up. */
  lemma ProofShape(h: Hash, t: Trie, m: Values, k: Key, i: nat)
    requires t.Branch? && Fits(t, []) && Crowded(t, []) && Shows(Some(t), [], m) && GenProof(h, t, [], k).Some?
    requires i < 64
    ensures var pr := GenProof(h, t, [], k).value;
      && pr.key == k && pr.hashes == Picked(h, m, k, pr.bits, 64)
      && (BitAt(pr.bits, i) <==>
            (i >= 60 || Shared(m, k, 4 * ((63 - i) / 4))) && SiblingAt(h, m, k, i) != Default(h, 60 + i % 4))
  {
    ShapeAt(h, t, m, k, i, 60 + i % 4, 4 * ((63 - i) / 4));
  }

  lemma ShapeAt(h: Hash, t: Trie, m: Values, k: Key, i: nat, j: nat, b: nat)
    requires t.Branch? && Fits(t, []) && Crowded(t, []) && Shows(Some(t), [], m) && GenProof(h, t, [], k).Some?
    requires i < 64 && j == 60 + i % 4 && b == NodeBits(i)
    ensures var pr := GenProof(h, t, [], k).value;
      && pr.key == k && pr.hashes == Picked(h, m, k, pr.bits, 64)
      && (BitAt(pr.bits, i) <==> (i >= 60 || Shared(m, k, b)) && SiblingAt(h, m, k, i) != Default(h, j))
  {
    GenShape(h, t, [], m, k, 4, 60, 64);
    assert BitIs(h, m, k, Start(t, [], k), 64, GenProof(h, t, [], k).value.bits, i);
    StartIff(t, [], k, i, b);
    MeetShared(t, m, k, b);
    HeightBits(i, b, 0);
  }

  /** So, without collisions and where the root can be computed, only siblings at the top four heights are
      ever left out: there the bit says whether the sibling is the default hash of its height, and below
      whether the way to the key passes a node. */
  lemma ProofBits(h: Hash, t: Trie, m: Values, k: Key, i: nat)
    requires t.Branch? && Fits(t, []) && Crowded(t, []) && Shows(Some(t), [], m) && GenProof(h, t, [], k).Some?
    requires Separated(m) && Injective(h, TreeInputs(h, m)) && i < 64
    ensures BitAt(GenProof(h, t, [], k).value.bits, i) <==>
      if i >= 60 then SiblingAt(h, m, k, i) != Default(h, i) else Shared(m, k, 4 * ((63 - i) / 4))
  {
    var j, b := 60 + i % 4, NodeBits(i);
    ShapeAt(h, t, m, k, i, j, b);
    Apart(h, m, k, i, j, b);
  }

  lemma Apart(h: Hash, m: Values, k: Key, i: nat, j: nat, b: nat)
    requires Separated(m) && Injective(h, TreeInputs(h, m)) && i < 64 && j == 60 + i % 4 && b == NodeBits(i)
    ensures if i >= 60 then j == i else Shared(m, k, b) ==> SiblingAt(h, m, k, i) != Default(h, j)
  {
    if i < 60 { Unlike(h, m, k, i, j, b); }
  }

  /** Below the top four heights, a sibling where keys meet is not the default hash of a top height. */
  lemma Unlike(h: Hash, m: Values, k: Key, i: nat, j: nat, b: nat)
    requires Separated(m) && Injective(h, TreeInputs(h, m)) && i < 60 <= j < 64 && b == NodeBits(i)
    ensures Shared(m, k, b) ==> SiblingAt(h, m, k, i) != Default(h, j)
  {
    if i >= 4 { NotTaller(h, m, k, i, j); } else { assert b == 60; }
  }
}
