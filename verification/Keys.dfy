/** Eight-byte keys, read sixteen nibbles at a time by the trie and sixty-four bits at a
    time by the Merkle tree, and the lemmas that tie the two readings together. */
module Keys {
  import opened Bytes

  type Key = k: Bytes | |k| == 8 witness Zeros(8)

  /** The `i`-th nibble, most significant first. */
  function KeyPiece(k: Key, i: nat): (r: nat)
    requires i < 16
    ensures r < 16
  {
    if i % 2 == 0 then k[i / 2] / 16 else k[i / 2] % 16
  }

  /** The `n`-th bit of `x`, least significant first: `(1 << n) & x > 0`. */
  predicate BitAt(x: nat, n: nat) {
    if n == 0 then x % 2 == 1 else BitAt(x / 2, n - 1)
  }

  /** The `i`-th bit of a key, least significant first. */
  predicate KeyBit(k: Key, i: nat)
    requires i < 64
  {
    BitAt(k[(63 - i) / 8], i % 8)
  }

  /** The key as a path from the root of the binary tree: most significant bit first. */
  function Path(k: Key): (p: seq<bool>)
    ensures |p| == 64
  {
    seq(64, t requires 0 <= t < 64 => KeyBit(k, 63 - t))
  }

  /** The `w`-bit binary expansion of `x`, most significant bit first, and its inverse. */
  function BitsOf(w: nat, x: nat): (r: seq<bool>)
    ensures |r| == w
  {
    if w == 0 then [] else BitsOf(w - 1, x / 2) + [x % 2 == 1]
  }

  function Number(p: seq<bool>): (r: nat)
    decreases |p|
  {
    if p == [] then 0 else 2 * Number(p[..|p| - 1]) + if p[|p| - 1] then 1 else 0
  }

  function Pow2(n: nat): (r: nat)
    ensures r > 0
  {
    if n == 0 then 1 else 2 * Pow2(n - 1)
  }

  lemma {:induction false} BitsOfAt(w: nat, x: nat, t: nat)
    requires t < w
    ensures BitsOf(w, x)[t] == BitAt(x, w - 1 - t)
  {
    if t < w - 1 {
      BitsOfAt(w - 1, x / 2, t);
    }
  }

  lemma {:induction false} NumberOfBits(w: nat, x: nat)
    requires x < Pow2(w)
    ensures Number(BitsOf(w, x)) == x
  {
    if w != 0 {
      NumberOfBits(w - 1, x / 2);
      assert BitsOf(w, x)[..w - 1] == BitsOf(w - 1, x / 2);
    }
  }

  lemma {:induction false} BitsOfNumber(p: seq<bool>)
    ensures Number(p) < Pow2(|p|) && BitsOf(|p|, Number(p)) == p
    decreases |p|
  {
    if p != [] {
      BitsOfNumber(p[..|p| - 1]);
      assert p == p[..|p| - 1] + [p[|p| - 1]];
    }
  }

  lemma BitsOfInjective(w: nat, x: nat, y: nat)
    requires x < Pow2(w) && y < Pow2(w) && BitsOf(w, x) == BitsOf(w, y)
    ensures x == y
  {
    NumberOfBits(w, x);
    NumberOfBits(w, y);
  }

  lemma SmallPowers()
    ensures Pow2(4) == 16 && Pow2(8) == 256
  {
    assert Pow2(2) == 4;
    assert Pow2(4) == 16;
    assert Pow2(6) == 64;
  }

  lemma {:induction false} BitsOfSplit(u: nat, w: nat, y: nat, x: nat)
    requires x < Pow2(w)
    ensures BitsOf(u + w, y * Pow2(w) + x) == BitsOf(u, y) + BitsOf(w, x)
  {
    if w == 0 {
    } else {
      var q := y * Pow2(w - 1);
      assert y * Pow2(w) == 2 * q;
      assert (2 * q + x) / 2 == q + x / 2 && (2 * q + x) % 2 == x % 2;
      BitsOfSplit(u, w - 1, y, x / 2);
    }
  }

  /** A byte's bits are its high nibble's and then its low nibble's. */
  lemma ByteBits(b: Byte)
    ensures BitsOf(8, b) == BitsOf(4, b / 16) + BitsOf(4, b % 16)
  {
    SmallPowers();
    BitsOfSplit(4, 4, b / 16, b % 16);
  }

  lemma PathByte(k: Key, j: nat)
    requires j < 8
    ensures Path(k)[8 * j..8 * j + 8] == BitsOf(8, k[j])
  {
    forall t | 0 <= t < 8
      ensures Path(k)[8 * j + t] == BitsOf(8, k[j])[t]
    {
      PathBit(k, j, t);
    }
  }

  lemma PathBit(k: Key, j: nat, t: nat)
    requires j < 8 && t < 8
    ensures Path(k)[8 * j + t] == BitsOf(8, k[j])[t]
  {
    assert (63 - (63 - (8 * j + t))) / 8 == j && (63 - (8 * j + t)) % 8 == 7 - t;
    BitsOfAt(8, k[j], t);
  }

  /** Four path bits spell one nibble. */
  lemma PathPiece(k: Key, i: nat)
    requires i < 16
    ensures Path(k)[4 * i..4 * i + 4] == BitsOf(4, KeyPiece(k, i))
  {
    var j := i / 2;
    PathByte(k, j);
    Nibbles(Path(k), k[j], 8 * j);
    assert 4 * i == if i % 2 == 0 then 8 * j else 8 * j + 4;
  }

  lemma Nibbles(s: seq<bool>, b: Byte, a: nat)
    requires a + 8 <= |s| && s[a..a + 8] == BitsOf(8, b)
    ensures s[a..a + 4] == BitsOf(4, b / 16) && s[a + 4..a + 8] == BitsOf(4, b % 16)
  {
    ByteBits(b);
    var x, y := BitsOf(4, b / 16), BitsOf(4, b % 16);
    SameSlice(s, a, x + y);
    forall t | 0 <= t < 4
      ensures s[a + t] == x[t] && s[a + 4 + t] == y[t]
    {
      assert (x + y)[t] == x[t] && (x + y)[4 + t] == y[t];
    }
  }

  lemma SameSlice(s: seq<bool>, a: nat, x: seq<bool>)
    requires a + |x| <= |s| && s[a..a + |x|] == x
    ensures forall t :: 0 <= t < |x| ==> s[a + t] == x[t]
  {
    forall t | 0 <= t < |x|
      ensures s[a + t] == x[t]
    {
      assert s[a + t] == s[a..a + |x|][t];
    }
  }

  /** The path of a key is the number it encodes, in binary. */
  lemma {:induction false} PathNumber(k: Key, n: nat)
    requires n <= 8
    ensures Path(k)[..8 * n] == BitsOf(8 * n, FromBigEndian(k[..n]))
  {
    if n > 0 {
      PathNumber(k, n - 1);
      PathByte(k, n - 1);
      assert k[..n][..n - 1] == k[..n - 1];
      assert Path(k)[..8 * n] == Path(k)[..8 * (n - 1)] + Path(k)[8 * (n - 1)..8 * n];
      SmallPowers();
      BitsOfSplit(8 * (n - 1), 8, FromBigEndian(k[..n - 1]), k[n - 1]);
    }
  }

  lemma PathInjective(k: Key, l: Key)
    requires Path(k) == Path(l)
    ensures k == l
  {
    SmallPowers();
    forall j | 0 <= j < 8
      ensures k[j] == l[j]
    {
      PathByte(k, j);
      PathByte(l, j);
      BitsOfInjective(8, k[j], l[j]);
    }
  }

  function ByteOf(p: seq<bool>): (b: Byte)
    requires |p| == 8
    ensures BitsOf(8, b) == p
  {
    SmallPowers();
    BitsOfNumber(p);
    Number(p)
  }

  /** The key at the end of a path. */
  function KeyAt(p: seq<bool>): (k: Key)
    requires |p| == 64
  {
    seq(8, j requires 0 <= j < 8 => ByteOf(p[8 * j..8 * j + 8]))
  }

  lemma PathKeyAt(p: seq<bool>)
    requires |p| == 64
    ensures Path(KeyAt(p)) == p
  {
    var k := KeyAt(p);
    forall t | 0 <= t < 64
      ensures Path(k)[t] == p[t]
    {
      var j := t / 8;
      PathByte(k, j);
      assert Path(k)[8 * j..8 * j + 8][t % 8] == Path(k)[t];
      assert p[8 * j..8 * j + 8][t % 8] == p[t];
    }
  }

  lemma KeyAtPath(k: Key)
    ensures KeyAt(Path(k)) == k
  {
    PathKeyAt(Path(k));
    PathInjective(KeyAt(Path(k)), k);
  }

  /** `k` lies below the node at path `p`. */
  predicate Under(p: seq<bool>, k: Key) {
    p <= Path(k)
  }

  /** Below a node, a key goes to exactly one of the two children. */
  lemma UnderStep(p: seq<bool>, k: Key)
    requires Under(p, k) && |p| < 64
    ensures Under(p + [Path(k)[|p|]], k) && !Under(p + [!Path(k)[|p|]], k)
  {
    assert Path(k)[..|p| + 1] == p + [Path(k)[|p|]];
    assert (p + [!Path(k)[|p|]])[|p|] != Path(k)[|p|];
  }

  lemma UnderPrefix(p: seq<bool>, q: seq<bool>, k: Key)
    requires Under(p + q, k)
    ensures Under(p, k)
  {
    assert (p + q)[..|p|] == p;
    assert Path(k)[..|p + q|][..|p|] == Path(k)[..|p|];
  }

  /** A key below a trie node at depth `d` is below the child its `d`-th nibble names, and
      below no other child. */
  lemma UnderPiece(p: seq<bool>, k: Key, d: nat, j: nat)
    requires d < 16 && |p| == 4 * d && Under(p, k) && j < 16
    ensures Under(p + BitsOf(4, j), k) <==> j == KeyPiece(k, d)
  {
    var c := KeyPiece(k, d);
    PathPiece(k, d);
    assert Path(k)[..4 * d + 4] == p + BitsOf(4, c);
    if Under(p + BitsOf(4, j), k) {
      assert p + BitsOf(4, j) == p + BitsOf(4, c);
      assert BitsOf(4, j) == (p + BitsOf(4, j))[|p|..];
      assert BitsOf(4, c) == (p + BitsOf(4, c))[|p|..];
      SmallPowers();
      BitsOfInjective(4, j, c);
    }
  }
}
