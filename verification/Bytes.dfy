/**
  Machine bytes, digests, the uninterpreted hash, fixed-width integers and the
  two byte codings (hex and little-endian) the rest of the model shares.
 */
module Bytes {
  newtype byte = x: int | 0 <= x < 256

  /** The 32-byte digests of the Merkle accumulator and of the vault. */
  type Digest = d: seq<byte> | |d| == 32 witness seq(32, _ => 0)

  /** BLAKE3 is kept uninterpreted: every result holds for every such function. */
  type HashFn = seq<byte> -> Digest

  const ZERO_DIGEST: Digest := seq(32, _ => 0)

  /** Two different inputs with the same digest: what every binding result exhibits. */
  predicate Collision(h: HashFn, pair: (seq<byte>, seq<byte>)) {
    pair.0 != pair.1 && h(pair.0) == h(pair.1)
  }

  // ----- 64-bit integers

  const TWO_TO_THE_63: int := 0x8000_0000_0000_0000
  const TWO_TO_THE_64: int := 0x1_0000_0000_0000_0000

  type I64 = x: int | -0x8000_0000_0000_0000 <= x < 0x8000_0000_0000_0000
  type U64 = x: int | 0 <= x < 0x1_0000_0000_0000_0000

  /** `+` on `i64` as a release build computes it: it wraps around. */
  function WrapAdd(a: I64, b: I64): I64 {
    var sum := a + b;
    if sum >= TWO_TO_THE_63 then sum - TWO_TO_THE_64
    else if sum < -TWO_TO_THE_63 then sum + TWO_TO_THE_64
    else sum
  }

  /** `i64::saturating_sub`. */
  function SaturatingSub(a: I64, b: I64): I64 {
    var diff := a - b;
    if diff >= TWO_TO_THE_63 then TWO_TO_THE_63 - 1
    else if diff < -TWO_TO_THE_63 then -TWO_TO_THE_63
    else diff
  }

  /** Wrapping keeps the sum modulo 2^64, and the sum itself where it fits. */
  lemma WrapAddIsModular(a: I64, b: I64)
    ensures exists q: int :: WrapAdd(a, b) == a + b + q * TWO_TO_THE_64
    ensures -TWO_TO_THE_63 <= a + b < TWO_TO_THE_63 ==> WrapAdd(a, b) == a + b
  {
    assert WrapAdd(a, b) == a + b + 0 * TWO_TO_THE_64
        || WrapAdd(a, b) == a + b + 1 * TWO_TO_THE_64
        || WrapAdd(a, b) == a + b + -1 * TWO_TO_THE_64;
  }

  // ----- `i64::to_le_bytes`

  function LittleEndian(n: nat, width: nat): (bs: seq<byte>)
    ensures |bs| == width
  {
    if width == 0 then [] else [(n % 256) as byte] + LittleEndian(n / 256, width - 1)
  }

  function Pow256(k: nat): (p: nat)
    ensures p >= 1
  {
    if k == 0 then 1 else 256 * Pow256(k - 1)
  }

  /** The number the bytes stand for, least significant first. */
  function LittleEndianValue(bs: seq<byte>): nat {
    if bs == [] then 0 else bs[0] as int + 256 * LittleEndianValue(bs[1..])
  }

  lemma {:induction false} LittleEndianBack(n: nat, width: nat)
    requires n < Pow256(width)
    ensures LittleEndianValue(LittleEndian(n, width)) == n
  {
    if width > 0 {
      LittleEndianBack(n / 256, width - 1);
      assert LittleEndian(n, width)[1..] == LittleEndian(n / 256, width - 1);
    }
  }

  lemma DivideTwice(n: nat, d: nat, p: nat)
    requires d >= 1 && p >= 1
    ensures d * p >= 1 && n / d / p == n / (d * p)
  {
    Recombine(n, d, n / d, n % d, p, n / d / p, n / d % p);
  }

  lemma Recombine(n: nat, d: nat, a: nat, x: nat, p: nat, q: nat, b: nat)
    requires n == d * a + x && x < d && a == p * q + b && b < p
    ensures d * p >= 1 && n / (d * p) == q
  {
    Reassociate(d, p, q, b);
    BelowProduct(x, d, b, p);
    QuotientIs(n, d * p, q, x + d * b);
  }

  lemma Reassociate(d: nat, p: nat, q: nat, r: nat)
    ensures d * (p * q + r) == d * p * q + d * r
  {
    assert d * (p * q) == d * p * q;
  }

  lemma BelowProduct(a: nat, d: nat, b: nat, p: nat)
    requires a < d && b < p
    ensures a + d * b < d * p && d * p >= 1
  {
    assert d * (p - 1 - b) >= 0;
    assert d * (p - 1 - b) == d * p - d - d * b;
  }

  lemma AtLeastOnce(d: int, x: int)
    requires d >= 0
    ensures x >= 1 ==> d * x >= d
    ensures x <= -1 ==> d * x <= -d
  {
    assert d * (x - 1) == d * x - d && d * (x + 1) == d * x + d;
    assert x >= 1 ==> d * (x - 1) >= 0;
    assert x <= -1 ==> d * (x + 1) <= 0;
  }

  lemma QuotientIs(n: nat, d: nat, q: nat, r: nat)
    requires n == d * q + r && r < d
    ensures n / d == q
  {
    var p: nat := n / d;
    assert n == d * p + n % d;
    assert d * (p - q) == d * p - d * q;
    AtLeastOnce(d, p - q);
  }

  /** Byte j counts the 256^j. */
  lemma {:induction false} LittleEndianAt(n: nat, width: nat, j: nat)
    requires j < width
    ensures LittleEndian(n, width)[j] as int == n / Pow256(j) % 256
  {
    if j > 0 {
      LittleEndianAt(n / 256, width - 1, j - 1);
      DivideTwice(n, 256, Pow256(j - 1));
    }
  }

  /** The two's complement bytes of an `i64`, least significant first. */
  function I64Bytes(t: I64): (bs: seq<byte>)
    ensures |bs| == 8
  {
    LittleEndian(if t < 0 then t + TWO_TO_THE_64 else t, 8)
  }

  /** `i64::from_le_bytes`. */
  function I64FromBytes(bs: seq<byte>): int {
    var n := LittleEndianValue(bs);
    if n >= TWO_TO_THE_63 then n - TWO_TO_THE_64 else n
  }

  lemma I64BytesBack(t: I64)
    ensures I64FromBytes(I64Bytes(t)) == t
  {
    assert Pow256(8) == TWO_TO_THE_64 by {
      assert Pow256(4) == 0x1_0000_0000;
      assert Pow256(8) == 256 * (256 * (256 * (256 * Pow256(4))));
    }
    LittleEndianBack(if t < 0 then t + TWO_TO_THE_64 else t, 8);
  }

  /** The natural number whose bytes stand for `t`. */
  lemma TwosComplement(t: I64, n: nat)
    requires n == if t < 0 then t + TWO_TO_THE_64 else t
    ensures t % TWO_TO_THE_64 == n
  {
    assert t % TWO_TO_THE_64 == n % TWO_TO_THE_64;
  }

  /** Two's complement, least significant byte first. */
  lemma I64BytesAt(t: I64, j: nat)
    requires j < 8
    ensures I64Bytes(t)[j] as int == t % TWO_TO_THE_64 / Pow256(j) % 256
  {
    var n: nat := if t < 0 then t + TWO_TO_THE_64 else t;
    LittleEndianAt(n, 8, j);
    TwosComplement(t, n);
  }
}
