/** Compact Merkle proofs: a 64-bit bitmap that says at which heights the sibling is not
    the default hash, and those siblings from the bottom up. */
module ProofCheck {
  import opened Bytes
  import opened Keys
  import opened PlainTree

  datatype Proof = Proof(key: Key, hashes: seq<Bytes>, bits: UInt64)

  /** Where a check stands after some heights: the running hash and how many listed
      siblings it has used, or an index beyond the list. */
  datatype Cursor = At(cur: Bytes, used: nat) | OutOfRange

  /** What is hashed at height `i` when the running hash is `cur`. */
  function StepInput(h: Hash, key: Key, cur: Bytes, sister: Bytes, i: nat): Bytes
    requires i < 64
  {
    if KeyBit(key, i) then sister + cur else cur + sister
  }

  function Sister(h: Hash, pr: Proof, used: nat, i: nat): Option<Bytes>
    requires i < 64
  {
    if !BitAt(pr.bits, i) then Some(Default(h, i))
    else if used < |pr.hashes| then Some(pr.hashes[used])
    else None
  }

  /** The first `n` heights of a check. */
  function Run(h: Hash, pr: Proof, v: Bytes, n: nat): Cursor
    requires n <= 64
  {
    if n == 0 then At(v, 0)
    else match Run(h, pr, v, n - 1)
      case OutOfRange => OutOfRange
      case At(cur, used) =>
        match Sister(h, pr, used, n - 1)
        case None => OutOfRange
        case Some(s) =>
          At(h(StepInput(h, pr.key, cur, s, n - 1)), if BitAt(pr.bits, n - 1) then used + 1 else used)
  }

  predicate Accepts(h: Hash, pr: Proof, v: Bytes, root: Bytes) {
    var r := Run(h, pr, v, 64);
    r.At? && r.cur == root
  }

  /** The checker. `None` stands for the index panic of a proof that lists too few siblings. */
  method Check(h: Hash, pr: Proof, v: Bytes, root: Bytes, defaults: seq<Bytes>) returns (res: Option<bool>)
    requires |defaults| == 64 && forall n :: 0 <= n < 64 ==> defaults[n] == Default(h, n)
    ensures res == Some(true) <==> Accepts(h, pr, v, root)
    ensures res == None <==> Run(h, pr, v, 64).OutOfRange?
  {
    var cur, p := v, 0;
    for i := 0 to 64
      invariant Run(h, pr, v, i) == At(cur, p)
    {
      if BitAt(pr.bits, i) {
        if p >= |pr.hashes| {
          OutOfRangeStays(h, pr, v, i + 1, 64);
          return None;
        }
        cur := if KeyBit(pr.key, i) then h(pr.hashes[p] + cur) else h(cur + pr.hashes[p]);
        p := p + 1;
      } else {
        cur := if KeyBit(pr.key, i) then h(defaults[i] + cur) else h(cur + defaults[i]);
      }
    }
    res := Some(cur == root);
  }

  lemma {:induction false} OutOfRangeStays(h: Hash, pr: Proof, v: Bytes, n: nat, m: nat)
    requires n <= m <= 64 && Run(h, pr, v, n).OutOfRange?
    ensures Run(h, pr, v, m).OutOfRange?
  {
    if n < m {
      OutOfRangeStays(h, pr, v, n, m - 1);
    }
  }

  /** How many of the first `n` bits are set. */
  ghost function Ones(bits: nat, n: nat): nat { |set i: nat | i < n && BitAt(bits, i)| }

  lemma OnesNext(bits: nat, n: nat)
    ensures Ones(bits, n + 1) == Ones(bits, n) + if BitAt(bits, n) then 1 else 0
  {
    var s, r := set i: nat | i < n && BitAt(bits, i), set i: nat | i < n + 1 && BitAt(bits, i);
    assert r == if BitAt(bits, n) then s + {n} else s;
  }

  /** A check has used one listed sibling for each set bit, and runs out when there are fewer. */
  lemma {:induction false} RunUses(h: Hash, pr: Proof, v: Bytes, n: nat)
    requires n <= 64
    ensures Run(h, pr, v, n).OutOfRange? <==> Ones(pr.bits, n) > |pr.hashes|
    ensures Run(h, pr, v, n).At? ==> Run(h, pr, v, n).used == Ones(pr.bits, n)
  {
    if n > 0 {
      RunUses(h, pr, v, n - 1);
      OnesNext(pr.bits, n - 1);
    }
  }

  /** `next` follows `cur` at height `i`: it is the hash of `cur` and the sibling, in the order the key's
      bit says, and the sibling is the next listed one if the bitmap's bit is set, else the default. */
  ghost predicate Follows(h: Hash, pr: Proof, cur: Bytes, next: Bytes, i: nat)
    requires i < 64 && Ones(pr.bits, 64) <= |pr.hashes|
  {
    OnesBelow(pr.bits, i, 64);
    var s := if BitAt(pr.bits, i) then pr.hashes[Ones(pr.bits, i)] else Default(h, i);
    next == if KeyBit(pr.key, i) then h(s + cur) else h(cur + s)
  }

  lemma {:induction false} OnesBelow(bits: nat, i: nat, n: nat)
    requires i < n
    ensures Ones(bits, i) + (if BitAt(bits, i) then 1 else 0) <= Ones(bits, n)
    decreases n
  {
    OnesNext(bits, n - 1);
    if i < n - 1 { OnesBelow(bits, i, n - 1); }
  }

  /** A check panics exactly when fewer siblings are listed than bits are set. Otherwise it accepts exactly
      when the root is the last of the hashes that follow one another from the value. */
  lemma CheckExact(h: Hash, pr: Proof, v: Bytes, root: Bytes, cs: seq<Bytes>)
    ensures Run(h, pr, v, 64).OutOfRange? <==> Ones(pr.bits, 64) > |pr.hashes|
    ensures Ones(pr.bits, 64) <= |pr.hashes| && |cs| == 65 && cs[0] == v
            && (forall i :: 0 <= i < 64 ==> Follows(h, pr, cs[i], cs[i + 1], i)) ==>
            (Accepts(h, pr, v, root) <==> cs[64] == root)
  {
    RunUses(h, pr, v, 64);
    if Ones(pr.bits, 64) <= |pr.hashes| && |cs| == 65 && cs[0] == v
       && forall i :: 0 <= i < 64 ==> Follows(h, pr, cs[i], cs[i + 1], i) {
      RunFollows(h, pr, v, cs, 64);
    }
  }

  lemma {:induction false} RunFollows(h: Hash, pr: Proof, v: Bytes, cs: seq<Bytes>, n: nat)
    requires n <= 64 && Ones(pr.bits, 64) <= |pr.hashes| && |cs| == 65 && cs[0] == v
    requires forall i :: 0 <= i < 64 ==> Follows(h, pr, cs[i], cs[i + 1], i)
    ensures Run(h, pr, v, n).At? && Run(h, pr, v, n).cur == cs[n]
  {
    if n > 0 {
      RunFollows(h, pr, v, cs, n - 1);
      RunUses(h, pr, v, n - 1);
      OnesBelow(pr.bits, n - 1, 64);
      assert Follows(h, pr, cs[n - 1], cs[n], n - 1);
    }
  }

  /** `x` is hashed at some height of a check that does not run out of siblings. */
  ghost predicate IsCheckInput(h: Hash, pr: Proof, v: Bytes, x: Bytes) {
    exists n: nat :: n < 64 && HashedAt(h, pr, v, n) == Some(x)
  }

  function HashedAt(h: Hash, pr: Proof, v: Bytes, n: nat): Option<Bytes>
    requires n < 64
  {
    match Run(h, pr, v, n)
    case OutOfRange => None
    case At(cur, used) =>
      match Sister(h, pr, used, n)
      case None => None
      case Some(s) => Some(StepInput(h, pr.key, cur, s, n))
  }

  ghost function CheckInputs(h: Hash, pr: Proof, v: Bytes): iset<Bytes> {
    iset x: Bytes | IsCheckInput(h, pr, v, x)
  }

  lemma RunWord(h: Hash, pr: Proof, v: Bytes, n: nat)
    requires 0 < n <= 64 && Run(h, pr, v, n).At?
    ensures |Run(h, pr, v, n).cur| == 32
  {
  }

  /** The running hash can be read off the pair that is hashed. */
  lemma PeelStep(h: Hash, key: Key, cur: Bytes, sister: Bytes, n: nat, l: Bytes, r: Bytes)
    requires n < 64 && |cur| == |l| == |r| == 32
    requires StepInput(h, key, cur, sister, n) == l + r
    ensures cur == if KeyBit(key, n) then r else l
  {
    if KeyBit(key, n) {
      SplitWordsRight(sister, cur, l, r);
    } else {
      SplitWords(cur, sister, l, r);
    }
  }

  lemma PathStep(k: Key, n: nat)
    requires n < 64
    ensures Path(k)[..64 - n] == Path(k)[..63 - n] + [KeyBit(k, n)]
  {
  }

  /** What is hashed at height `n` of a check that goes on past it. */
  lemma Hashed(h: Hash, pr: Proof, v: Bytes, n: nat)
    requires n < 64 && Run(h, pr, v, n + 1).At?
    ensures Run(h, pr, v, n).At? && HashedAt(h, pr, v, n).Some?
    ensures Run(h, pr, v, n + 1).cur == h(HashedAt(h, pr, v, n).value)
    ensures HashedAt(h, pr, v, n).value in CheckInputs(h, pr, v)
  {
    assert IsCheckInput(h, pr, v, HashedAt(h, pr, v, n).value);
  }

  /** A hash equal to the tree's hash above comes from the tree's pair. */
  lemma SamePair(h: Hash, m: Values, pr: Proof, v: Bytes, n: nat, q: seq<bool>)
    requires n < 64 && |q| == 63 - n && Injective(h, TreeInputs(h, m) + CheckInputs(h, pr, v))
    requires Run(h, pr, v, n + 1).At? && Run(h, pr, v, n + 1).cur == PlainRoot(h, m, q)
    ensures Run(h, pr, v, n).At? && HashedAt(h, pr, v, n) == Some(Pair(h, m, q))
  {
    Hashed(h, pr, v, n);
    var x, y := HashedAt(h, pr, v, n).value, Pair(h, m, q);
    assert IsTreeInput(h, m, y);
    NoCollision(h, TreeInputs(h, m) + CheckInputs(h, pr, v), x, y);
  }

  /** One height of the soundness argument: above the leaves, where words are hashed, the running
      hash is the tree's hash below. */
  lemma SoundStep(h: Hash, m: Values, pr: Proof, v: Bytes, n: nat, q: seq<bool>)
    requires 0 < n < 64 && |q| == 63 - n && Injective(h, TreeInputs(h, m) + CheckInputs(h, pr, v))
    requires Run(h, pr, v, n + 1).At? && Run(h, pr, v, n + 1).cur == PlainRoot(h, m, q)
    ensures Run(h, pr, v, n).At? && Run(h, pr, v, n).cur == PlainRoot(h, m, q + [KeyBit(pr.key, n)])
  {
    SamePair(h, m, pr, v, n, q);
    RunWord(h, pr, v, n);
    var l, r := PlainRoot(h, m, q + [false]), PlainRoot(h, m, q + [true]);
    var c := Run(h, pr, v, n);
    PeelStep(h, pr.key, c.cur, Sister(h, pr, c.used, n).value, n, l, r);
  }

  lemma {:induction false} SoundAt(h: Hash, m: Values, pr: Proof, v: Bytes, n: nat)
    requires 0 < n <= 64 && Injective(h, TreeInputs(h, m) + CheckInputs(h, pr, v))
    requires Accepts(h, pr, v, PlainRoot(h, m, []))
    ensures Run(h, pr, v, n).At? && Run(h, pr, v, n).cur == PlainRoot(h, m, Path(pr.key)[..64 - n])
    decreases 64 - n
  {
    if n < 64 {
      SoundAt(h, m, pr, v, n + 1);
      SoundStep(h, m, pr, v, n, Path(pr.key)[..63 - n]);
      PathStep(pr.key, n);
    }
  }

  /** The pair hashed above the leaf of a key. */
  function PairOf(h: Hash, m: Values, k: Key): Bytes { Pair(h, m, Path(k)[..63]) }

  /** The pair, cut into `v`, on the side of the key, and a rest. */
  predicate Cut(h: Hash, m: Values, k: Key, v: Bytes, rest: Bytes) {
    PairOf(h, m, k) == if KeyBit(k, 0) then rest + v else v + rest
  }

  ghost predicate IsCut(h: Hash, m: Values, k: Key, v: Bytes) {
    exists rest: Bytes :: Cut(h, m, k, v, rest)
  }

  /** What is accepted is a cut. */
  lemma AcceptedIsCut(h: Hash, m: Values, pr: Proof, v: Bytes)
    requires Injective(h, TreeInputs(h, m) + CheckInputs(h, pr, v))
    requires Accepts(h, pr, v, PlainRoot(h, m, []))
    ensures IsCut(h, m, pr.key, v)
  {
    SoundAt(h, m, pr, v, 1);
    SamePair(h, m, pr, v, 0, Path(pr.key)[..63]);
    assert Run(h, pr, v, 0) == At(v, 0);
    assert Cut(h, m, pr.key, v, Sister(h, pr, 0, 0).value);
  }

  /** The leaf of the key is a cut, and the only one of its length. */
  lemma LeafIsCut(h: Hash, m: Values, k: Key) returns (rest: Bytes)
    ensures Cut(h, m, k, LeafOf(h, m, k), rest)
  {
    var q, b := Path(k)[..63], KeyBit(k, 0);
    PathStep(k, 0);
    assert Path(k)[..64] == Path(k);
    LeafAtKey(h, m, k);
    rest := PlainRoot(h, m, q + [!b]);
  }

  lemma CutFixed(h: Hash, m: Values, k: Key, v: Bytes, r: Bytes, w: Bytes, t: Bytes)
    requires Cut(h, m, k, v, r) && Cut(h, m, k, w, t) && |v| == |w|
    ensures v == w
  {
    if KeyBit(k, 0) { SplitWordsRight(r, v, t, w); } else { SplitWords(v, r, w, t); }
  }

  /** Soundness: whatever proof is accepted for a key against the root of `m`, if what it is accepted
      for has the length of the key's value, or of the empty mark when the key is absent, it is that. */
  lemma ProofSound(h: Hash, m: Values, pr: Proof, v: Bytes)
    requires |v| == |LeafOf(h, m, pr.key)|
    requires Injective(h, TreeInputs(h, m) + CheckInputs(h, pr, v))
    requires Accepts(h, pr, v, PlainRoot(h, m, []))
    ensures v == LeafOf(h, m, pr.key)
  {
    AcceptedIsCut(h, m, pr, v);
    var r: Bytes :| Cut(h, m, pr.key, v, r);
    var t := LeafIsCut(h, m, pr.key);
    CutFixed(h, m, pr.key, v, r, LeafOf(h, m, pr.key), t);
  }

  /** Nothing longer than the pair above the leaf is accepted. */
  lemma LongRejected(h: Hash, m: Values, pr: Proof, v: Bytes)
    requires |v| > |PairOf(h, m, pr.key)|
    requires Injective(h, TreeInputs(h, m) + CheckInputs(h, pr, v))
    ensures !Accepts(h, pr, v, PlainRoot(h, m, []))
  {
    if Accepts(h, pr, v, PlainRoot(h, m, [])) { AcceptedIsCut(h, m, pr, v); }
  }

  /** One height of the binding argument. */
  lemma BindingStep(h: Hash, p: Proof, q: Proof, v: Bytes, w: Bytes, n: nat)
    requires n < 64 && |v| == |w| && p.key == q.key
    requires Injective(h, CheckInputs(h, p, v) + CheckInputs(h, q, w))
    requires Run(h, p, v, n + 1).At? && Run(h, q, w, n + 1).At?
    requires Run(h, p, v, n + 1).cur == Run(h, q, w, n + 1).cur
    ensures Run(h, p, v, n).At? && Run(h, q, w, n).At? && Run(h, p, v, n).cur == Run(h, q, w, n).cur
  {
    Hashed(h, p, v, n);
    Hashed(h, q, w, n);
    NoCollision(h, CheckInputs(h, p, v) + CheckInputs(h, q, w),
                HashedAt(h, p, v, n).value, HashedAt(h, q, w, n).value);
    if n > 0 {
      RunWord(h, p, v, n);
      RunWord(h, q, w, n);
    }
    var a, b := Run(h, p, v, n), Run(h, q, w, n);
    SameStep(h, p.key, a.cur, Sister(h, p, a.used, n).value, b.cur, Sister(h, q, b.used, n).value, n);
  }

  lemma SameStep(h: Hash, key: Key, x: Bytes, s: Bytes, y: Bytes, t: Bytes, n: nat)
    requires n < 64 && |x| == |y| && StepInput(h, key, x, s, n) == StepInput(h, key, y, t, n)
    ensures x == y
  {
    if KeyBit(key, n) { SplitWordsRight(s, x, t, y); } else { SplitWords(x, s, y, t); }
  }

  lemma {:induction false} BindingAt(h: Hash, p: Proof, q: Proof, v: Bytes, w: Bytes, n: nat)
    requires n <= 64 && |v| == |w| && p.key == q.key
    requires Injective(h, CheckInputs(h, p, v) + CheckInputs(h, q, w))
    requires Run(h, p, v, 64).At? && Run(h, q, w, 64).At?
    requires Run(h, p, v, 64).cur == Run(h, q, w, 64).cur
    ensures Run(h, p, v, n).At? && Run(h, q, w, n).At? && Run(h, p, v, n).cur == Run(h, q, w, n).cur
    decreases 64 - n
  {
    if n < 64 {
      BindingAt(h, p, q, v, w, n + 1);
      BindingStep(h, p, q, v, w, n);
    }
  }

  /** Binding: two values of one length accepted for one key against one root are equal, whatever
      the root is the root of. */
  lemma ProofBinding(h: Hash, p: Proof, q: Proof, v: Bytes, w: Bytes, root: Bytes)
    requires |v| == |w| && p.key == q.key
    requires Injective(h, CheckInputs(h, p, v) + CheckInputs(h, q, w))
    requires Accepts(h, p, v, root) && Accepts(h, q, w, root)
    ensures v == w
  {
    BindingAt(h, p, q, v, w, 0);
  }

  // ----- What else is accepted -----

  lemma {:induction false} AllOnes(w: nat, i: nat)
    requires i < w
    ensures BitAt(Pow2(w) - 1, i)
  {
    if i > 0 {
      assert (Pow2(w) - 1) / 2 == Pow2(w - 1) - 1;
      AllOnes(w - 1, i - 1);
    }
  }

  /** The siblings of a key's path, from the bottom up. */
  function SiblingAt(h: Hash, m: Values, k: Key, i: nat): Bytes
    requires i < 64
  {
    PlainRoot(h, m, Path(k)[..63 - i] + [!KeyBit(k, i)])
  }

  /** Hashing the tree's hash at height `n` with its sibling gives the tree's hash above. */
  lemma RetraceStep(h: Hash, m: Values, k: Key, n: nat)
    requires n < 64
    ensures h(StepInput(h, k, PlainRoot(h, m, Path(k)[..64 - n]), SiblingAt(h, m, k, n), n))
         == PlainRoot(h, m, Path(k)[..63 - n])
  {
    PathStep(k, n);
  }

  /** From the parent of the leaf upwards, listing every sibling retraces the tree. */
  lemma {:induction false} SiblingsRetrace(h: Hash, m: Values, pr: Proof, v: Bytes, n: nat)
    requires 1 <= n <= 64 && |pr.hashes| == 64
    requires forall i {:trigger Lists(h, m, pr, i)} :: 0 <= i < 64 ==> Lists(h, m, pr, i)
    requires StepInput(h, pr.key, v, pr.hashes[0], 0) == Pair(h, m, Path(pr.key)[..63])
    ensures Run(h, pr, v, n) == At(PlainRoot(h, m, Path(pr.key)[..64 - n]), n)
  {
    assert Lists(h, m, pr, n - 1);
    if n == 1 {
      assert Run(h, pr, v, 0) == At(v, 0);
    } else {
      SiblingsRetrace(h, m, pr, v, n - 1);
      ListedStep(h, m, pr, v, n - 1);
    }
  }

  lemma ListedStep(h: Hash, m: Values, pr: Proof, v: Bytes, n: nat)
    requires 1 <= n < 64 && |pr.hashes| == 64 && Lists(h, m, pr, n)
    requires Run(h, pr, v, n) == At(PlainRoot(h, m, Path(pr.key)[..64 - n]), n)
    ensures Run(h, pr, v, n + 1) == At(PlainRoot(h, m, Path(pr.key)[..63 - n]), n + 1)
  {
    RetraceStep(h, m, pr.key, n);
  }

  /** The proof lists something at height `i`: above the leaf, the sibling there. */
  predicate Lists(h: Hash, m: Values, pr: Proof, i: nat)
    requires i < 64 && |pr.hashes| == 64
  {
    BitAt(pr.bits, i) && (i > 0 ==> pr.hashes[i] == SiblingAt(h, m, pr.key, i))
  }

  /** Every cut is accepted, by a check that hashes nothing but what the tree does. */
  lemma CutAccepted(h: Hash, m: Values, k: Key, v: Bytes, rest: Bytes) returns (pr: Proof)
    requires Cut(h, m, k, v, rest)
    ensures pr.key == k && Accepts(h, pr, v, PlainRoot(h, m, []))
    ensures CheckInputs(h, pr, v) <= TreeInputs(h, m)
  {
    var ones := TWO_64 - 1;
    var tail := seq(63, i requires 0 <= i < 63 => SiblingAt(h, m, k, i + 1));
    pr := Proof(k, [rest] + tail, ones);
    forall i | 0 <= i < 64
      ensures Lists(h, m, pr, i)
    {
      Pow2Is64();
      AllOnes(64, i);
      if i > 0 { assert pr.hashes[i] == tail[i - 1]; }
    }
    SiblingsRetrace(h, m, pr, v, 64);
    assert Path(k)[..0] == [];
    RetraceInputs(h, m, pr, v);
  }

  /** A check that retraces the tree hashes nothing but the tree's pairs. */
  lemma RetraceInputs(h: Hash, m: Values, pr: Proof, v: Bytes)
    requires |pr.hashes| == 64 && forall i {:trigger Lists(h, m, pr, i)} :: 0 <= i < 64 ==> Lists(h, m, pr, i)
    requires StepInput(h, pr.key, v, pr.hashes[0], 0) == Pair(h, m, Path(pr.key)[..63])
    ensures CheckInputs(h, pr, v) <= TreeInputs(h, m)
  {
    forall x | x in CheckInputs(h, pr, v)
      ensures x in TreeInputs(h, m)
    {
      var n: nat :| n < 64 && HashedAt(h, pr, v, n) == Some(x);
      RetraceInput(h, m, pr, v, n);
      assert IsTreeInput(h, m, x);
    }
  }

  lemma RetraceInput(h: Hash, m: Values, pr: Proof, v: Bytes, n: nat)
    requires |pr.hashes| == 64 && forall i {:trigger Lists(h, m, pr, i)} :: 0 <= i < 64 ==> Lists(h, m, pr, i)
    requires StepInput(h, pr.key, v, pr.hashes[0], 0) == Pair(h, m, Path(pr.key)[..63])
    requires n < 64
    ensures HashedAt(h, pr, v, n) == Some(Pair(h, m, Path(pr.key)[..63 - n]))
  {
    assert Lists(h, m, pr, n);
    if n > 0 {
      SiblingsRetrace(h, m, pr, v, n);
      PathStep(pr.key, n);
    } else {
      assert Run(h, pr, v, 0) == At(v, 0);
    }
  }

  /** Some proof for the key is accepted with `v`, and its check collides with nothing in the tree. */
  ghost predicate Proves(h: Hash, m: Values, k: Key, v: Bytes, pr: Proof) {
    && pr.key == k && Accepts(h, pr, v, PlainRoot(h, m, []))
    && Injective(h, TreeInputs(h, m) + CheckInputs(h, pr, v))
  }

  /** Acceptance, exactly: of any tree, with values of whatever lengths, what can be proved for a key
      are the cuts of the pair above its leaf. */
  lemma AcceptedIff(h: Hash, m: Values, k: Key, v: Bytes)
    requires Injective(h, TreeInputs(h, m))
    ensures (exists pr: Proof :: Proves(h, m, k, v, pr)) <==> IsCut(h, m, k, v)
  {
    if IsCut(h, m, k, v) {
      var rest: Bytes :| Cut(h, m, k, v, rest);
      var pr := CutAccepted(h, m, k, v, rest);
      assert TreeInputs(h, m) + CheckInputs(h, pr, v) == TreeInputs(h, m);
      assert Proves(h, m, k, v, pr);
    } else if exists pr: Proof :: Proves(h, m, k, v, pr) {
      var pr: Proof :| Proves(h, m, k, v, pr);
      AcceptedIsCut(h, m, pr, v);
    }
  }

  /** What can be proved for `k` and has `n` bytes is the leaf of `k`. */
  ghost predicate SoundFor(h: Hash, m: Values, k: Key, n: nat) {
    forall pr: Proof, v: Bytes :: |v| == n && Proves(h, m, k, v, pr) ==> v == LeafOf(h, m, k)
  }

  /** For every length up to that of the pair something is accepted. */
  lemma CutOfLength(h: Hash, m: Values, k: Key, n: nat) returns (v: Bytes, rest: Bytes)
    requires n <= |PairOf(h, m, k)|
    ensures |v| == n && Cut(h, m, k, v, rest)
  {
    var x := PairOf(h, m, k);
    if KeyBit(k, 0) {
      v, rest := x[|x| - n..], x[..|x| - n];
    } else {
      v, rest := x[..n], x[n..];
    }
  }

  /** Soundness by length, exactly: a tree proves only true values of the length of the key's leaf,
      and none longer than the pair above it; of every other length it also proves a false one. */
  lemma SoundLengths(h: Hash, m: Values, k: Key, n: nat)
    requires Injective(h, TreeInputs(h, m))
    ensures SoundFor(h, m, k, n) <==> n == |LeafOf(h, m, k)| || n > |PairOf(h, m, k)|
  {
    if n == |LeafOf(h, m, k)| || n > |PairOf(h, m, k)| {
      forall pr: Proof, v: Bytes | |v| == n && Proves(h, m, k, v, pr)
        ensures v == LeafOf(h, m, k)
      {
        if n > |PairOf(h, m, k)| { LongRejected(h, m, pr, v); } else { ProofSound(h, m, pr, v); }
      }
    } else {
      var v, rest := CutOfLength(h, m, k, n);
      var pr := CutAccepted(h, m, k, v, rest);
      assert TreeInputs(h, m) + CheckInputs(h, pr, v) == TreeInputs(h, m);
      assert Proves(h, m, k, v, pr);
    }
  }

  /** So in a tree of words only lengths of 32 and of more than 64 bytes are sound. */
  lemma SoundWords(h: Hash, m: Values, k: Key, n: nat)
    requires WordValues(m) && Injective(h, TreeInputs(h, m))
    ensures SoundFor(h, m, k, n) <==> n == 32 || n > 64
  {
    SoundLengths(h, m, k, n);
    WordRoots(h, m, Path(k)[..63] + [false]);
    WordRoots(h, m, Path(k)[..63] + [true]);
  }

  lemma Pow2Is64()
    ensures Pow2(64) == TWO_64
  {
    PowerStep(0, 1); PowerStep(8, 0x100); PowerStep(16, 0x1_0000); PowerStep(24, 0x100_0000);
    PowerStep(32, 0x1_0000_0000); PowerStep(40, 0x100_0000_0000);
    PowerStep(48, 0x1_0000_0000_0000); PowerStep(56, 0x100_0000_0000_0000);
  }

  lemma PowerStep(n: nat, x: nat)
    requires Pow2(n) == x
    ensures Pow2(n + 8) == 256 * x
  {
    assert Pow2(n + 2) == 4 * x;
    assert Pow2(n + 4) == 16 * x;
    assert Pow2(n + 6) == 64 * x;
  }
}
