/** Byte strings and the little-endian integers of the binary file formats. A byte string is
    a string whose characters are below 256; where that bound matters it is stated. */
module Bytes {
  type Byte = char
  type Bytes = string

  ghost predicate AreBytes(b: Bytes) {
    forall i :: 0 <= i < |b| ==> b[i] as int < 256
  }

  const TWO_32 := 0x1_0000_0000
  const TWO_64 := 0x1_0000_0000_0000_0000

  function ByteOf(v: nat): (c: Byte)
    ensures c as int < 256
  {
    (v % 256) as char
  }

  function Pow256(k: nat): (p: nat)
    ensures p > 0
  {
    if k == 0 then 1 else 256 * Pow256(k - 1)
  }

  lemma Widths()
    ensures Pow256(4) == TWO_32 && Pow256(8) == TWO_64
  {
    assert Pow256(1) == 256 && Pow256(2) == 0x1_0000;
    assert Pow256(3) == 0x100_0000 && Pow256(4) == TWO_32;
    assert Pow256(5) == 256 * TWO_32 && Pow256(6) == 0x1_0000 * TWO_32;
    assert Pow256(7) == 0x100_0000 * TWO_32;
  }

  /** The `k` low bytes of `v`, lowest first. */
  function ToLE(v: nat, k: nat): (b: Bytes)
    ensures |b| == k
    decreases k, v
  {
    if k == 0 then [] else [ByteOf(v)] + ToLE(v / 256, k - 1)
  }

  function FromLE(b: Bytes): nat {
    if b == [] then 0 else b[0] as int + 256 * FromLE(b[1..])
  }

  lemma {:induction false} FromToLE(v: nat, k: nat)
    requires v < Pow256(k)
    ensures FromLE(ToLE(v, k)) == v
    decreases k
  {
    if k > 0 {
      FromToLE(v / 256, k - 1);
      assert ToLE(v, k)[1..] == ToLE(v / 256, k - 1);
    }
  }

  lemma LowDigit(d: nat, m: nat)
    requires d < 256
    ensures (d + 256 * m) % 256 == d && (d + 256 * m) / 256 == m
  {
  }

  lemma {:induction false} ToFromLE(b: Bytes)
    requires AreBytes(b)
    ensures FromLE(b) < Pow256(|b|) && ToLE(FromLE(b), |b|) == b
    decreases |b|
  {
    if b != [] {
      ToFromLE(b[1..]);
      LowDigit(b[0] as int, FromLE(b[1..]));
      assert b == [b[0]] + b[1..];
    }
  }

  function U32(v: nat): (b: Bytes)
    ensures |b| == 4
  {
    ToLE(v % TWO_32, 4)
  }

  function U64(v: nat): (b: Bytes)
    ensures |b| == 8
  {
    ToLE(v % TWO_64, 8)
  }

  lemma ReadU32(v: nat)
    ensures FromLE(U32(v)) == v % TWO_32
  {
    Widths();
    FromToLE(v % TWO_32, 4);
  }

  lemma ReadU64(v: nat)
    ensures FromLE(U64(v)) == v % TWO_64
  {
    Widths();
    FromToLE(v % TWO_64, 8);
  }

  lemma SmallRemainder(v: nat, width: nat)
    requires v < width
    ensures v % width == v
  {
  }

  lemma WriteWidth(b: Bytes, k: nat, width: nat)
    requires |b| == k && Pow256(k) == width && AreBytes(b)
    ensures FromLE(b) < width && ToLE(FromLE(b) % width, k) == b
  {
    ToFromLE(b);
    SmallRemainder(FromLE(b), width);
  }

  /** Four bytes can only be the encoding of what they decode to. */
  lemma WriteU32(b: Bytes)
    requires |b| == 4 && AreBytes(b)
    ensures FromLE(b) < TWO_32 && U32(FromLE(b)) == b
  {
    Widths();
    WriteWidth(b, 4, TWO_32);
  }

  lemma WriteU64(b: Bytes, v: nat)
    requires |b| == 8 && AreBytes(b) && FromLE(b) == v % TWO_64
    ensures U64(v) == b
  {
    Widths();
    WriteWidth(b, 8, TWO_64);
    SmallRemainder(v % TWO_64, TWO_64);
  }
}
