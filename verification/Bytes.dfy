/** Byte strings, 64-bit integers and the hash function the trees are built on. */
module Bytes {

  datatype Option<+T> = None | Some(value: T)

  type Byte = x: int | 0 <= x < 256
  type Bytes = seq<Byte>

  const TWO_64: nat := 0x1_0000_0000_0000_0000
  type UInt64 = x: int | 0 <= x < TWO_64

  function Zeros(n: nat): (r: Bytes)
    ensures |r| == n && forall i :: 0 <= i < n ==> r[i] == 0
  {
    seq(n, i => 0)
  }

  /** A prefix grows by the next element. */
  lemma PrefixNext<T>(s: seq<T>, i: nat)
    requires i < |s|
    ensures s[..i + 1] == s[..i] + [s[i]]
  {
  }

  /** A 32-byte word: what the hash function returns. */
  type Word = w: Bytes | |w| == 32 witness Zeros(32)

  /** The hash function. It is a parameter of everything that hashes; `h(a + b)` is the
      hash of two arguments written one after the other. */
  type Hash = Bytes -> Word

  /** The pair `x`, `y` is not a collision inside `u`. */
  ghost predicate NoClash(h: Hash, u: iset<Bytes>, x: Bytes, y: Bytes) {
    x in u && y in u && h(x) == h(y) ==> x == y
  }

  /** No two inputs in `u` collide. The set is always explicit: no function to 32-byte
      words is injective on all byte strings. */
  ghost predicate Injective(h: Hash, u: iset<Bytes>) {
    forall x, y :: NoClash(h, u, x, y)
  }

  lemma NoCollision(h: Hash, u: iset<Bytes>, x: Bytes, y: Bytes)
    requires Injective(h, u) && x in u && y in u && h(x) == h(y)
    ensures x == y
  {
    assert NoClash(h, u, x, y);
  }

  /** Two pairs of words with the same concatenation are the same pair. */
  lemma SplitWords(a: Bytes, b: Bytes, c: Bytes, d: Bytes)
    requires a + b == c + d && |a| == |c|
    ensures a == c && b == d
  {
    assert a == (a + b)[..|a|] && c == (c + d)[..|c|];
    assert b == (a + b)[|a|..] && d == (c + d)[|c|..];
  }

  lemma SplitWordsRight(a: Bytes, b: Bytes, c: Bytes, d: Bytes)
    requires a + b == c + d && |b| == |d|
    ensures a == c && b == d
  {
    assert |a| == |c|;
    SplitWords(a, b, c, d);
  }

  function Pow256(n: nat): (r: nat)
    ensures r > 0
  {
    if n == 0 then 1 else 256 * Pow256(n - 1)
  }

  /** Big-endian encoding in `n` bytes. */
  function BigEndian(x: nat, n: nat): (r: Bytes)
    ensures |r| == n
  {
    if n == 0 then [] else BigEndian(x / 256, n - 1) + [x % 256]
  }

  function FromBigEndian(b: Bytes): (r: nat)
    decreases |b|
  {
    if b == [] then 0 else 256 * FromBigEndian(b[..|b| - 1]) + b[|b| - 1]
  }

  lemma {:induction false} BigEndianRoundTrip(x: nat, n: nat)
    requires x < Pow256(n)
    ensures FromBigEndian(BigEndian(x, n)) == x
  {
    if n != 0 {
      BigEndianRoundTrip(x / 256, n - 1);
      var b := BigEndian(x, n);
      assert b[..|b| - 1] == BigEndian(x / 256, n - 1);
    }
  }

  lemma {:induction false} FromBigEndianBound(b: Bytes)
    ensures FromBigEndian(b) < Pow256(|b|)
    decreases |b|
  {
    if b != [] {
      FromBigEndianBound(b[..|b| - 1]);
    }
  }

  lemma Pow256Eight()
    ensures Pow256(8) == TWO_64
  {
    assert Pow256(2) == 0x1_0000;
    assert Pow256(4) == 0x1_0000_0000;
    assert Pow256(6) == 0x1_0000_0000_0000;
  }

  /** The eight-byte encoding of a 64-bit integer and its inverse. */
  function UInt64ToByte(x: UInt64): (r: Bytes)
    ensures |r| == 8 && BytesToUint64(r) == x
  {
    Pow256Eight();
    BigEndianRoundTrip(x, 8);
    BigEndian(x, 8)
  }

  function BytesToUint64(b: Bytes): (r: UInt64)
    requires |b| == 8
  {
    Pow256Eight();
    FromBigEndianBound(b);
    FromBigEndian(b)
  }

  /** The most significant byte comes first. */
  lemma EightBytes(b: Bytes)
    requires |b| == 8
    ensures var d: seq<int> := b;
      BytesToUint64(b) ==
      0x100_0000_0000_0000 * d[0] + 0x1_0000_0000_0000 * d[1] + 0x100_0000_0000 * d[2] + 0x1_0000_0000 * d[3]
        + 0x100_0000 * d[4] + 0x1_0000 * d[5] + 0x100 * d[6] + d[7]
    ensures UInt64ToByte(BytesToUint64(b)) == b
  {
    FourBytes(b, 8);
    FourBytes(b[..4], 4);
    ToBigEndian(b);
  }

  lemma FourBytes(b: Bytes, n: nat)
    requires |b| == n >= 4
    ensures var d: seq<int> := b;
      FromBigEndian(b) == 0x1_0000_0000 * FromBigEndian(b[..n - 4])
        + 0x100_0000 * d[n - 4] + 0x1_0000 * d[n - 3] + 0x100 * d[n - 2] + d[n - 1]
  {
    assert b[..n - 1][..n - 2] == b[..n - 2] && b[..n - 2][..n - 3] == b[..n - 3] && b[..n - 3][..n - 4] == b[..n - 4];
    assert FromBigEndian(b) == 0x100 * FromBigEndian(b[..n - 1]) + b[n - 1];
    assert FromBigEndian(b[..n - 1]) == 0x100 * FromBigEndian(b[..n - 2]) + b[n - 2];
    assert FromBigEndian(b[..n - 2]) == 0x100 * FromBigEndian(b[..n - 3]) + b[n - 3];
    assert FromBigEndian(b[..n - 3]) == 0x100 * FromBigEndian(b[..n - 4]) + b[n - 4];
  }

  lemma {:induction false} ToBigEndian(b: Bytes)
    ensures BigEndian(FromBigEndian(b), |b|) == b
    decreases |b|
  {
    if b != [] { ToBigEndian(b[..|b| - 1]); }
  }
}
