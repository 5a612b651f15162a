/** Fixed-width integers and their little-endian byte layout.

    Dafny integers are unbounded, so every C# integer type of the wire
    protocol becomes a subset type of `int` and every `unchecked` cast is
    written out as a two's-complement reinterpretation.
 */
module Bytes {

  type byte = x: int | 0 <= x < 0x100
  type i16 = x: int | -0x8000 <= x < 0x8000
  type i32 = x: int | -0x8000_0000 <= x < 0x8000_0000
  type i64 = x: int | -0x8000_0000_0000_0000 <= x < 0x8000_0000_0000_0000
  type u16 = x: int | 0 <= x < 0x1_0000
  type u32 = x: int | 0 <= x < 0x1_0000_0000
  type u64 = x: int | 0 <= x < 0x1_0000_0000_0000_0000
  type u128 = x: int | 0 <= x < 0x1_0000_0000_0000_0000_0000_0000_0000_0000

  /** 256 to the power `n`: the number of distinct values of `n` bytes. */
  function Pow256(n: nat): (p: nat)
    ensures p > 0
  {
    if n == 0 then 1 else 256 * Pow256(n - 1)
  }

  lemma PowValues()
    ensures Pow256(1) == 0x100
    ensures Pow256(2) == 0x1_0000
    ensures Pow256(4) == 0x1_0000_0000
    ensures Pow256(8) == 0x1_0000_0000_0000_0000
    ensures Pow256(16) == 0x1_0000_0000_0000_0000_0000_0000_0000_0000
  {
  }

  /** `x` fits a signed integer that is `n` bytes wide. */
  predicate InSigned(x: int, n: nat)
  {
    -(Pow256(n) as int) <= 2 * x < Pow256(n)
  }

  /** The unsigned value of a little-endian byte sequence. */
  function FromLE(bs: seq<byte>): nat
  {
    if |bs| == 0 then 0 else bs[0] + 256 * FromLE(bs[1..])
  }

  /** The `n` low-order bytes of `v`, least significant first. */
  function ToLE(v: nat, n: nat): (bs: seq<byte>)
    ensures |bs| == n
  {
    if n == 0 then [] else [v % 256] + ToLE(v / 256, n - 1)
  }

  lemma {:induction false} FromLEBound(bs: seq<byte>)
    ensures FromLE(bs) < Pow256(|bs|)
  {
    if |bs| > 0 {
      FromLEBound(bs[1..]);
    }
  }

  /** Writing `n` bytes and reading them back gives the value, when it fits. */
  lemma {:induction false} FromToLE(v: nat, n: nat)
    requires v < Pow256(n)
    ensures FromLE(ToLE(v, n)) == v
  {
    if n > 0 {
      FromToLE(v / 256, n - 1);
      assert ToLE(v, n)[1..] == ToLE(v / 256, n - 1);
    }
  }

  /** Reading bytes and writing their value back reproduces the bytes. */
  lemma {:induction false} ToFromLE(bs: seq<byte>)
    ensures ToLE(FromLE(bs), |bs|) == bs
  {
    if |bs| > 0 {
      ToFromLE(bs[1..]);
      assert (bs[0] + 256 * FromLE(bs[1..])) / 256 == FromLE(bs[1..]);
    }
  }

  /** C# `unchecked` reinterpretation of `n` unsigned bytes as a signed value. */
  function Signed(u: nat, n: nat): (x: int)
    requires 0 < n && u < Pow256(n)
    ensures InSigned(x, n)
    ensures x == u || x + Pow256(n) == u
  {
    if 2 * u < Pow256(n) then u else u - Pow256(n)
  }

  /** C# `unchecked` reinterpretation of a signed `n`-byte value as unsigned. */
  function Unsigned(x: int, n: nat): (u: nat)
    requires 0 < n && InSigned(x, n)
    ensures u < Pow256(n)
    ensures Signed(u, n) == x
  {
    if x < 0 then x + Pow256(n) else x
  }

  /** The little-endian bytes of a signed `n`-byte value. */
  function EncodeSigned(x: int, n: nat): (bs: seq<byte>)
    requires 0 < n && InSigned(x, n)
    ensures |bs| == n
  {
    ToLE(Unsigned(x, n), n)
  }

  /** The signed value of `n` little-endian bytes. */
  function DecodeSigned(bs: seq<byte>): (x: int)
    requires 0 < |bs|
    ensures InSigned(x, |bs|)
  {
    FromLEBound(bs);
    Signed(FromLE(bs), |bs|)
  }

  lemma SignedRoundTrip(x: int, n: nat)
    requires 0 < n && InSigned(x, n)
    ensures DecodeSigned(EncodeSigned(x, n)) == x
  {
    FromToLE(Unsigned(x, n), n);
  }

  lemma BytesRoundTrip(bs: seq<byte>)
    requires 0 < |bs|
    ensures EncodeSigned(DecodeSigned(bs), |bs|) == bs
  {
    FromLEBound(bs);
    ToFromLE(bs);
  }

  /** C# `unchecked((byte)x)`: keep the low byte. */
  function Wrap8(x: int): (b: byte)
    ensures (x - b) % 0x100 == 0
  {
    x % 0x100
  }

  /** C# `unchecked((short)x)`: the value congruent to `x` modulo 2^16. */
  function Wrap16(x: int): (s: i16)
    ensures (x - s) % 0x1_0000 == 0
    ensures -0x8000 <= x < 0x8000 ==> s == x
  {
    var u := x % 0x1_0000;
    if u < 0x8000 then u else u - 0x1_0000
  }

  /** C# `unchecked` 64-bit addition result: the value congruent to `x` modulo 2^64. */
  function Wrap64(x: int): (s: i64)
    ensures (x - s) % 0x1_0000_0000_0000_0000 == 0
    ensures -0x8000_0000_0000_0000 <= x < 0x8000_0000_0000_0000 ==> s == x
  {
    var u := x % 0x1_0000_0000_0000_0000;
    if u < 0x8000_0000_0000_0000 then u else u - 0x1_0000_0000_0000_0000
  }
}
