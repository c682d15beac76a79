/** The bloom filter of a block: eight positions for each token in a chunk of 32768 bits. */
module Bloom {
  import opened Bytes

  const CHUNK := 4096

  // ----- Bits -----

  /** The byte with only bit `i` set. */
  function Mask(i: nat): bv8
    requires i < 8
  {
    var masks: seq<bv8> := [1, 2, 4, 8, 16, 32, 64, 128];
    masks[i]
  }

  predicate BitOf(b: seq<bv8>, n: nat)
    requires n < 8 * |b|
  {
    b[n / 8] & Mask(n % 8) != 0
  }

  lemma MaskBits(x: bv8, i: nat, j: nat)
    requires i < 8 && j < 8
    ensures (x | Mask(i)) & Mask(j) != 0 <==> i == j || x & Mask(j) != 0
  {
  }

  lemma ByteBits(x: bv8, y: bv8)
    requires forall i :: 0 <= i < 8 ==> (x & Mask(i) != 0 <==> y & Mask(i) != 0)
    ensures x == y
  {
    assert x & Mask(0) != 0 <==> y & Mask(0) != 0;
    assert x & Mask(1) != 0 <==> y & Mask(1) != 0;
    assert x & Mask(2) != 0 <==> y & Mask(2) != 0;
    assert x & Mask(3) != 0 <==> y & Mask(3) != 0;
    assert x & Mask(4) != 0 <==> y & Mask(4) != 0;
    assert x & Mask(5) != 0 <==> y & Mask(5) != 0;
    assert x & Mask(6) != 0 <==> y & Mask(6) != 0;
    assert x & Mask(7) != 0 <==> y & Mask(7) != 0;
  }

  /** Chunks with the same bits are the same. */
  lemma ChunkBits(b: seq<bv8>, c: seq<bv8>)
    requires |b| == |c| && forall n :: 0 <= n < 8 * |b| ==> (BitOf(b, n) <==> BitOf(c, n))
    ensures b == c
  {
    forall k | 0 <= k < |b| ensures b[k] == c[k] {
      forall i | 0 <= i < 8 ensures b[k] & Mask(i) != 0 <==> c[k] & Mask(i) != 0 {
        assert (8 * k + i) / 8 == k && (8 * k + i) % 8 == i;
        assert BitOf(b, 8 * k + i) <==> BitOf(c, 8 * k + i);
      }
      ByteBits(b[k], c[k]);
    }
  }

  // ----- Positions -----

  /** The 15-bit number two bytes of a key make, low byte first. */
  function Fifteen(low: Byte, high: Byte): (n: nat)
    ensures n < 8 * CHUNK
  {
    (low + 256 * high) % 32768
  }

  function Reversed(key: Bytes): Bytes
    requires |key| == 8
  {
    [key[7], key[6], key[5], key[4], key[3], key[2], key[1], key[0]]
  }

  /** The two positions of the `i`-th pair of bytes of a number, read forwards and backwards. */
  function PairAt(k: UInt64, i: nat): (p: (nat, nat))
    requires i < 4
    ensures p.0 < 8 * CHUNK && p.1 < 8 * CHUNK
  {
    var key1 := UInt64ToByte(k);
    var key2 := Reversed(key1);
    (Fifteen(key1[i * 2], key1[i * 2 + 1]), Fifteen(key2[i * 2], key2[i * 2 + 1]))
  }

  /** `n` is one of the first `2 * m` positions of the number. */
  predicate Among(k: UInt64, m: nat, n: nat)
    requires m <= 4
  {
    exists i :: 0 <= i < m && (PairAt(k, i).0 == n || PairAt(k, i).1 == n)
  }

  predicate Position(k: UInt64, n: nat) { Among(k, 4, n) }

  /** The eight positions of the number whose bytes, the most significant first, are `b`. */
  lemma PositionsOf(b: Bytes, n: nat)
    requires |b| == 8
    ensures var d: seq<int> := b;
      Position(BytesToUint64(b), n) <==>
      n in [(d[0] + 256 * d[1]) % 32768, (d[2] + 256 * d[3]) % 32768, (d[4] + 256 * d[5]) % 32768,
            (d[6] + 256 * d[7]) % 32768, (d[7] + 256 * d[6]) % 32768, (d[5] + 256 * d[4]) % 32768,
            (d[3] + 256 * d[2]) % 32768, (d[1] + 256 * d[0]) % 32768]
  {
    var k := BytesToUint64(b);
    EightBytes(b);
    FourPairs(k, b, n);
  }

  lemma FourPairs(k: UInt64, b: Bytes, n: nat)
    requires |b| == 8 && b == UInt64ToByte(k)
    ensures Position(k, n) <==>
      n in [Fifteen(b[0], b[1]), Fifteen(b[2], b[3]), Fifteen(b[4], b[5]), Fifteen(b[6], b[7]),
            Fifteen(b[7], b[6]), Fifteen(b[5], b[4]), Fifteen(b[3], b[2]), Fifteen(b[1], b[0])]
  {
    Pairs(k, n, PairAt(k, 0), PairAt(k, 1), PairAt(k, 2), PairAt(k, 3));
  }

  lemma Pairs(k: UInt64, n: nat, a: (nat, nat), b: (nat, nat), c: (nat, nat), d: (nat, nat))
    requires a == PairAt(k, 0) && b == PairAt(k, 1) && c == PairAt(k, 2) && d == PairAt(k, 3)
    ensures Position(k, n) <==> n in [a.0, b.0, c.0, d.0, a.1, b.1, c.1, d.1]
  {
    AmongNext(k, 0, n);
    AmongNext(k, 1, n);
    AmongNext(k, 2, n);
    AmongNext(k, 3, n);
  }

  /** The chunk has exactly the positions of the listed numbers set. */
  ghost predicate BloomOf(b: seq<bv8>, l: seq<UInt64>) {
    |b| == CHUNK && forall n :: 0 <= n < 8 * CHUNK ==> (BitOf(b, n) <==> Marked(l, n))
  }

  ghost predicate Marked(l: seq<UInt64>, n: nat) {
    exists i :: 0 <= i < |l| && Position(l[i], n)
  }

  method SetBit(b: array<bv8>, n: nat)
    requires n < 8 * b.Length
    modifies b
    ensures forall m :: 0 <= m < 8 * b.Length ==> (BitOf(b[..], m) <==> m == n || old(BitOf(b[..], m)))
  {
    b[n / 8] := b[n / 8] | Mask(n % 8);
    assert b[..] == WithBit(old(b[..]), n);
    forall m | 0 <= m < 8 * b.Length ensures BitOf(b[..], m) <==> m == n || old(BitOf(b[..], m)) {
      WithBitAt(old(b[..]), n, m);
    }
  }

  function WithBit(b: seq<bv8>, n: nat): seq<bv8>
    requires n < 8 * |b|
  {
    b[n / 8 := b[n / 8] | Mask(n % 8)]
  }

  lemma WithBitAt(b: seq<bv8>, n: nat, m: nat)
    requires n < 8 * |b| && m < 8 * |b|
    ensures BitOf(WithBit(b, n), m) <==> m == n || BitOf(b, m)
  {
    EightParts(n, m);
    WithBitParts(b, n / 8, n % 8, m / 8, m % 8);
  }


  lemma WithBitParts(b: seq<bv8>, p: nat, i: nat, q: nat, j: nat)
    requires p < |b| && q < |b| && i < 8 && j < 8
    ensures b[p := b[p] | Mask(i)][q] & Mask(j) != 0 <==> (p == q && i == j) || b[q] & Mask(j) != 0
  {
    MaskBits(b[p], i, j);
  }

  lemma EightParts(n: nat, m: nat)
    ensures n == m <==> n / 8 == m / 8 && n % 8 == m % 8
  {
  }

  /** Sets the eight positions of a number. */
  method Add(b: array<bv8>, k: UInt64)
    requires b.Length == CHUNK
    modifies b
    ensures forall n :: 0 <= n < 8 * CHUNK ==> (BitOf(b[..], n) <==> Position(k, n) || old(BitOf(b[..], n)))
  {
    for i := 0 to 4
      invariant forall n :: 0 <= n < 8 * CHUNK ==> (BitOf(b[..], n) <==> Among(k, i, n) || old(BitOf(b[..], n)))
    {
      var p := PairAt(k, i);
      SetBit(b, p.0);
      SetBit(b, p.1);
      forall n ensures Among(k, i + 1, n) <==> Among(k, i, n) || n == p.0 || n == p.1 {
        AmongNext(k, i, n);
      }
    }
  }

  lemma AmongNext(k: UInt64, i: nat, n: nat)
    requires i < 4
    ensures Among(k, i + 1, n) <==> Among(k, i, n) || n == PairAt(k, i).0 || n == PairAt(k, i).1
  {
    if Among(k, i + 1, n) {
      var j :| 0 <= j < i + 1 && (PairAt(k, j).0 == n || PairAt(k, j).1 == n);
      if j < i { assert Among(k, i, n); }
    }
  }

  method NewBloom(l: seq<UInt64>) returns (b: array<bv8>)
    ensures fresh(b) && BloomOf(b[..], l)
  {
    b := new bv8[CHUNK](_ => 0);
    for i := 0 to |l|
      invariant b.Length == CHUNK && BloomOf(b[..], l[..i])
    {
      Add(b, l[i]);
      forall n ensures Marked(l[..i + 1], n) <==> Marked(l[..i], n) || Position(l[i], n) {
        MarkedNext(l, i, n);
      }
    }
    assert l[..|l|] == l;
  }

  lemma MarkedNext(l: seq<UInt64>, i: nat, n: nat)
    requires i < |l|
    ensures Marked(l[..i + 1], n) <==> Marked(l[..i], n) || Position(l[i], n)
  {
    if Marked(l[..i + 1], n) {
      var j :| 0 <= j < i + 1 && Position(l[..i + 1][j], n);
      if j < i { assert Position(l[..i][j], n); }
    }
    if Marked(l[..i], n) {
      var j :| 0 <= j < i && Position(l[..i][j], n);
      assert Position(l[..i + 1][j], n);
    }
    if Position(l[i], n) { assert Position(l[..i + 1][i], n); }
  }

  /** All positions of a number are set; a chunk of another size has them all. */
  method CheckBloom(b: seq<bv8>, k: UInt64) returns (member: bool)
    ensures |b| != CHUNK ==> member
    ensures |b| == CHUNK ==> (member <==> forall n :: 0 <= n < 8 * CHUNK && Position(k, n) ==> BitOf(b, n))
  {
    if |b| != CHUNK { return true; }
    for i := 0 to 4
      invariant forall n :: 0 <= n < 8 * CHUNK && Among(k, i, n) ==> BitOf(b, n)
    {
      var p := PairAt(k, i);
      if b[p.0 / 8] & Mask(p.0 % 8) == 0 {
        assert Position(k, p.0) && !BitOf(b, p.0);
        return false;
      } else if b[p.1 / 8] & Mask(p.1 % 8) == 0 {
        assert Position(k, p.1) && !BitOf(b, p.1);
        return false;
      }
      forall n ensures Among(k, i + 1, n) <==> Among(k, i, n) || n == p.0 || n == p.1 {
        AmongNext(k, i, n);
      }
    }
    return true;
  }

  /** A number is found exactly when each of its positions is a position of a listed number. */
  method CheckNew(l: seq<UInt64>, k: UInt64) returns (member: bool)
    ensures member <==> forall n :: 0 <= n < 8 * CHUNK && Position(k, n) ==> Marked(l, n)
    ensures k in l ==> member
  {
    var b := NewBloom(l);
    member := CheckBloom(b[..], k);
    if k in l {
      var i :| 0 <= i < |l| && l[i] == k;
      forall n | 0 <= n < 8 * CHUNK && Position(k, n) ensures Marked(l, n) { assert Position(l[i], n); }
    }
  }

  /** The chunk depends only on the set of listed numbers. */
  lemma SameChunk(l: seq<UInt64>, m: seq<UInt64>, b: seq<bv8>, c: seq<bv8>)
    requires BloomOf(b, l) && BloomOf(c, m) && forall k :: k in l <==> k in m
    ensures b == c
  {
    forall n | 0 <= n < 8 * CHUNK ensures BitOf(b, n) <==> BitOf(c, n) {
      MarkedSame(l, m, n);
      MarkedSame(m, l, n);
    }
    ChunkBits(b, c);
  }

  // ----- The chunk of a set of numbers -----

  ghost predicate MarkedBy(keys: set<UInt64>, n: nat) {
    exists k :: k in keys && Position(k, n)
  }

  function Bit(on: bool, i: nat): bv8
    requires i < 8
  {
    if on then Mask(i) else 0
  }

  function Joined(b: seq<bool>): bv8
    requires |b| == 8
  {
    Bit(b[0], 0) | Bit(b[1], 1) | Bit(b[2], 2) | Bit(b[3], 3) |
    Bit(b[4], 4) | Bit(b[5], 5) | Bit(b[6], 6) | Bit(b[7], 7)
  }

  lemma JoinedBits(b: seq<bool>, i: nat)
    requires |b| == 8 && i < 8
    ensures Joined(b) & Mask(i) != 0 <==> b[i]
  {
  }

  ghost function Marks(keys: set<UInt64>, n: nat): (b: seq<bool>)
    ensures |b| == 8 && forall i :: 0 <= i < 8 ==> b[i] == MarkedBy(keys, n + i)
  {
    seq(8, (i: nat) => MarkedBy(keys, n + i))
  }

  /** The byte whose bits are those of `n` to `n + 7`. */
  ghost function ByteAt(keys: set<UInt64>, n: nat): bv8 {
    Joined(Marks(keys, n))
  }

  lemma ByteAtBit(keys: set<UInt64>, n: nat, i: nat)
    requires i < 8
    ensures ByteAt(keys, n) & Mask(i) != 0 <==> MarkedBy(keys, n + i)
  {
    JoinedBits(Marks(keys, n), i);
  }

  /** The bloom chunk of a set of numbers. */
  ghost function SetChunk(keys: set<UInt64>): (c: seq<bv8>)
    ensures |c| == CHUNK
  {
    seq(CHUNK, k requires 0 <= k < CHUNK => ByteAt(keys, 8 * k))
  }

  lemma SetChunkBit(keys: set<UInt64>, n: nat)
    requires n < 8 * CHUNK
    ensures BitOf(SetChunk(keys), n) <==> MarkedBy(keys, n)
  {
    ByteAtBit(keys, 8 * (n / 8), n % 8);
  }

  /** A chunk built from a list is that of the set of its numbers. */
  lemma BloomIsSet(b: seq<bv8>, l: seq<UInt64>, keys: set<UInt64>)
    requires BloomOf(b, l) && forall k :: k in l <==> k in keys
    ensures b == SetChunk(keys)
  {
    forall n | 0 <= n < 8 * CHUNK ensures BitOf(b, n) <==> BitOf(SetChunk(keys), n) {
      SetChunkBit(keys, n);
      if Marked(l, n) {
        var i :| 0 <= i < |l| && Position(l[i], n);
        assert l[i] in keys;
      }
      if MarkedBy(keys, n) {
        var k :| k in keys && Position(k, n);
        var i :| 0 <= i < |l| && l[i] == k;
        assert Position(l[i], n);
      }
    }
    ChunkBits(b, SetChunk(keys));
  }

  lemma MarkedSame(l: seq<UInt64>, m: seq<UInt64>, n: nat)
    requires forall k :: k in l ==> k in m
    ensures Marked(l, n) ==> Marked(m, n)
  {
    if Marked(l, n) {
      var i :| 0 <= i < |l| && Position(l[i], n);
      assert l[i] in m;
      var j :| 0 <= j < |m| && m[j] == l[i];
      assert Position(m[j], n);
    }
  }
}
