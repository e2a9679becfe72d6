/** Bytes and the little-endian words that the `struct` package packs
    (`word8`, `word16Ule`, `word32Ule`). */
module Bytes {

  type byte = x: int | 0 <= x < 0x100
  type uint16 = x: int | 0 <= x < 0x1_0000
  type uint32 = x: int | 0 <= x < 0x1_0000_0000

  /** `n` zero bytes. */
  function Zeros(n: nat): (r: seq<byte>)
    ensures |r| == n
    ensures forall i :: 0 <= i < n ==> r[i] == 0
  {
    seq(n, _ => 0)
  }

  /** `Uint8Array.prototype.set(src, offset)`: copies `src` into `dst` from
      `offset` on and leaves the other bytes alone. */
  method SetBytes(dst: array<byte>, src: seq<byte>, offset: nat)
    requires offset + |src| <= dst.Length
    modifies dst
    ensures dst[..offset + |src|] == old(dst[..offset]) + src
    ensures dst[offset + |src|..] == old(dst[offset + |src|..])
  {
    var j := 0;
    while j < |src|
      invariant 0 <= j <= |src|
      invariant dst[..offset + j] == old(dst[..offset]) + src[..j]
      invariant dst[offset + |src|..] == old(dst[offset + |src|..])
    {
      dst[offset + j] := src[j];
      assert src[..j + 1] == src[..j] + [src[j]];
      j := j + 1;
    }
    assert src[..|src|] == src;
  }

  /** Reading a field that lies past the end of a response gives 0. */
  function ByteAt(s: seq<byte>, i: nat): byte
  {
    if i < |s| then s[i] else 0
  }

  function Le16(v: uint16): (r: seq<byte>)
    ensures |r| == 2
  {
    [v % 0x100, v / 0x100]
  }

  function Le32(v: uint32): (r: seq<byte>)
    ensures |r| == 4
  {
    [v % 0x100, (v / 0x100) % 0x100, (v / 0x1_0000) % 0x100, v / 0x100_0000]
  }

  function ReadLe16(s: seq<byte>, at: nat): uint16
  {
    ByteAt(s, at) + 0x100 * ByteAt(s, at + 1)
  }

  function ReadLe32(s: seq<byte>, at: nat): uint32
  {
    ByteAt(s, at) + 0x100 * ByteAt(s, at + 1) + 0x1_0000 * ByteAt(s, at + 2) + 0x100_0000 * ByteAt(s, at + 3)
  }

  /** Decoding a packed 16-bit word gives the value back. */
  lemma Le16RoundTrip(v: uint16, prefix: seq<byte>, suffix: seq<byte>)
    ensures ReadLe16(prefix + Le16(v) + suffix, |prefix|) == v
  {
    var s := prefix + Le16(v) + suffix;
    assert ByteAt(s, |prefix|) == v % 0x100;
    assert ByteAt(s, |prefix| + 1) == v / 0x100;
  }

  /** Decoding a packed 32-bit word gives the value back. */
  lemma Le32RoundTrip(v: uint32, prefix: seq<byte>, suffix: seq<byte>)
    ensures ReadLe32(prefix + Le32(v) + suffix, |prefix|) == v
  {
    var s := prefix + Le32(v) + suffix;
    var a, b, c, d := v % 0x100, (v / 0x100) % 0x100, (v / 0x1_0000) % 0x100, v / 0x100_0000;
    assert ByteAt(s, |prefix|) == a;
    assert ByteAt(s, |prefix| + 1) == b;
    assert ByteAt(s, |prefix| + 2) == c;
    assert ByteAt(s, |prefix| + 3) == d;
    assert v / 0x100 == b + 0x100 * (v / 0x1_0000);
    assert v / 0x1_0000 == c + 0x100 * d;
  }
}
