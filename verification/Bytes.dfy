/** Fixed-width integers, little-endian packing and byte buffers. */
module Bytes {
  type Byte = b: int | 0 <= b < 0x100
  type U16 = x: int | 0 <= x < 0x1_0000
  type U32 = x: int | 0 <= x < 0x1_0000_0000

  function Le16(x: U16): (r: seq<Byte>)
    ensures |r| == 2
  {
    [x % 0x100, x / 0x100]
  }

  function Le32(x: U32): (r: seq<Byte>)
    ensures |r| == 4
  {
    [x % 0x100, x / 0x100 % 0x100, x / 0x1_0000 % 0x100, x / 0x100_0000]
  }

  function U16At(b: seq<Byte>, i: nat): U16
    requires i + 2 <= |b|
  {
    (b[i] as int) + (b[i + 1] as int) * 0x100
  }

  function U32At(b: seq<Byte>, i: nat): U32
    requires i + 4 <= |b|
  {
    (b[i] as int) + (b[i + 1] as int) * 0x100 + (b[i + 2] as int) * 0x1_0000 + (b[i + 3] as int) * 0x100_0000
  }

  function Zeros(n: nat): (r: seq<Byte>)
    ensures |r| == n && forall i :: 0 <= i < n ==> r[i] == 0
  {
    seq(n, i => 0)
  }

  /** The buffer `b` after `d` was copied to offset `at`. */
  function Splice(b: seq<Byte>, at: nat, d: seq<Byte>): (r: seq<Byte>)
    requires at + |d| <= |b|
    ensures |r| == |b|
    ensures r[at..at + |d|] == d
    ensures forall i :: 0 <= i < |b| && !(at <= i < at + |d|) ==> r[i] == b[i]
  {
    b[..at] + d + b[at + |d|..]
  }

  lemma Le32RoundTrip(pre: seq<Byte>, x: U32, post: seq<Byte>)
    ensures U32At(pre + Le32(x) + post, |pre|) == x
  {
    var y := x / 0x100;
    assert x == x % 0x100 + 0x100 * y;
    var z := y / 0x100;
    assert y == y % 0x100 + 0x100 * z;
    assert z == z % 0x100 + 0x100 * (z / 0x100);
    assert x / 0x1_0000 == z;
    assert x / 0x100_0000 == z / 0x100;
  }

  lemma Le16OfBytes(b: seq<Byte>, i: nat)
    requires i + 2 <= |b|
    ensures Le16(U16At(b, i)) == b[i..i + 2]
  {
  }

  lemma Le32OfBytes(b: seq<Byte>, i: nat)
    requires i + 4 <= |b|
    ensures Le32(U32At(b, i)) == b[i..i + 4]
  {
    var y: int := (b[i + 1] as int) + (b[i + 2] as int) * 0x100 + (b[i + 3] as int) * 0x1_0000;
    var z: int := (b[i + 2] as int) + (b[i + 3] as int) * 0x100;
    LowByte(U32At(b, i), b[i], y);
    LowByte(y, b[i + 1], z);
    LowByte(z, b[i + 2], b[i + 3]);
  }

  lemma LowByte(x: int, low: Byte, y: nat)
    requires x == low as int + 0x100 * y
    ensures x / 0x100 == y && x % 0x100 == low as int
    ensures x / 0x1_0000 == y / 0x100 && x / 0x100_0000 == y / 0x1_0000
  {
  }
}
