/**
 Bytes, the bits inside them, and big-endian integers.

 Process images, instance memory and messages are all byte strings. Bits are numbered
 from the least significant one, multi-byte integers have their most significant byte
 first, and a store keeps only the low bits of the integer it is given.
 */
module Bytes {

  type byte = x: int | 0 <= x < 256

  /** Bit `i` of a number: `(n >> i) & 1`. */
  predicate Bit(n: nat, i: nat) {
    if i == 0 then n % 2 == 1 else Bit(n / 2, i - 1)
  }

  /** The number with bit `i` set (`n | (1 << i)`) or cleared (`n & ~(1 << i)`). */
  function WithBit(n: nat, i: nat, v: bool): nat {
    if i == 0 then n / 2 * 2 + (if v then 1 else 0) else WithBit(n / 2, i - 1, v) * 2 + n % 2
  }

  function Pow2(k: nat): (p: nat)
    ensures p > 0
  {
    if k == 0 then 1 else 2 * Pow2(k - 1)
  }

  lemma {:induction false} WithBitBound(n: nat, i: nat, v: bool, k: nat)
    requires n < Pow2(k) && i < k
    ensures WithBit(n, i, v) < Pow2(k)
  {
    if i > 0 {
      WithBitBound(n / 2, i - 1, v, k - 1);
    }
  }

  /** Bit `i` is the binary digit that counts for `2^i`. */
  lemma {:induction false} BitIsDigit(n: nat, i: nat)
    ensures Bit(n, i) <==> n / Pow2(i) % 2 == 1
  {
    if i > 0 {
      BitIsDigit(n / 2, i - 1);
      HalvedFirst(n, Pow2(i - 1));
    } else {
      assert Pow2(0) == 1;
    }
  }

  lemma HalvedFirst(n: nat, p: nat)
    requires p > 0
    ensures n / 2 / p == n / (2 * p)
  {
    var q, r := n / 2 / p, n / 2 % p;
    assert n / 2 == p * q + r;
    DivModUnique(n, 2 * p, q, 2 * r + n % 2);
  }

  function SetBit(b: byte, i: nat, v: bool): byte
    requires i < 8
  {
    assert Pow2(8) == 256 by { assert Pow2(4) == 16; }
    WithBitBound(b, i, v, 8);
    WithBit(b, i, v)
  }

  /** Changing a bit changes that bit and no other. */
  lemma {:induction false} BitOfWithBit(n: nat, i: nat, v: bool, j: nat)
    ensures Bit(WithBit(n, i, v), j) == if i == j then v else Bit(n, j)
  {
    if i > 0 && j > 0 {
      BitOfWithBit(n / 2, i - 1, v, j - 1);
    }
  }

  /** The low eight bits of an integer, also of a negative one. */
  function Low(v: int): byte {
    v % 256
  }

  function Pow256(k: nat): (p: nat)
    ensures p > 0
  {
    if k == 0 then 1 else 256 * Pow256(k - 1)
  }

  /** The low `k` bytes of `v`, most significant first. */
  function BigEndian(v: int, k: nat): (s: seq<byte>)
    ensures |s| == k
    decreases k
  {
    if k == 0 then [] else BigEndian(v / 256, k - 1) + [Low(v)]
  }

  /** The integer a big-endian byte string stands for. */
  function FromBigEndian(s: seq<byte>): nat {
    if s == [] then 0 else 256 * FromBigEndian(s[..|s| - 1]) + s[|s| - 1]
  }

  lemma {:induction false} FromBigEndianBound(s: seq<byte>)
    ensures FromBigEndian(s) < Pow256(|s|)
  {
    if s != [] {
      FromBigEndianBound(s[..|s| - 1]);
    }
  }

  lemma ModSplit(v: int, p: int)
    requires p > 0
    ensures v % (256 * p) == 256 * ((v / 256) % p) + v % 256
  {
    var q, r := v / 256, v % 256;
    var q1, r1 := q / p, q % p;
    assert q == p * q1 + r1;
    assert v == 256 * (p * q1 + r1) + r;
    assert 256 * (p * q1 + r1) == (256 * p) * q1 + 256 * r1;
    assert v == (256 * p) * q1 + (256 * r1 + r);
    assert 0 <= 256 * r1 + r < 256 * p;
    DivModUnique(v, 256 * p, q1, 256 * r1 + r);
  }

  lemma DivModUnique(v: int, d: int, q: int, r: int)
    requires d > 0 && 0 <= r < d && v == d * q + r
    ensures v / d == q && v % d == r
  {
    var e := v / d - q;
    assert v == d * (v / d) + v % d;
    assert d * (v / d) - d * q == d * e;
    assert d * e == r - v % d;
    MulBound(d, e);
  }

  lemma MulBound(d: int, e: int)
    requires d > 0
    ensures e >= 1 ==> d * e >= d
    ensures e <= -1 ==> d * e <= -d
  {
  }

  /** Reading back what was written gives the value modulo the width. */
  lemma {:induction false} FromBigEndianOfBigEndian(v: int, k: nat)
    ensures FromBigEndian(BigEndian(v, k)) == v % Pow256(k)
    decreases k
  {
    if k > 0 {
      FromBigEndianOfBigEndian(v / 256, k - 1);
      var s := BigEndian(v, k);
      assert s[..|s| - 1] == BigEndian(v / 256, k - 1);
      ModSplit(v, Pow256(k - 1));
    }
  }

  /** Writing back what was read gives the bytes that were read. */
  lemma {:induction false} BigEndianOfFromBigEndian(s: seq<byte>)
    ensures BigEndian(FromBigEndian(s), |s|) == s
  {
    if s != [] {
      var t, b := s[..|s| - 1], s[|s| - 1];
      BigEndianOfFromBigEndian(t);
      var v := FromBigEndian(s);
      assert Low(v) == b && v / 256 == FromBigEndian(t);
      assert s == t + [b];
    }
  }

  lemma Pow256Values()
    ensures Pow256(1) == 0x100 && Pow256(2) == 0x1_0000 && Pow256(4) == 0x1_0000_0000
  {
    assert Pow256(3) == 256 * Pow256(2);
  }

  function Zeros(n: nat): (z: seq<byte>)
    ensures |z| == n
  {
    seq(n, _ => 0)
  }
}
