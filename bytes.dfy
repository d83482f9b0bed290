/** Little-endian wire helpers shared by the HRGK codec.
    Bytes are 8-bit bit-vectors; the protocol's u16/u32/u64 fields are the
    matching bit-vector widths, and IEEE-754 float/double fields are kept as
    their raw 32/64-bit patterns (reading them is a bit reinterpretation). */
module Bytes {

  type byte = bv8
  type u16 = bv16
  type u32 = bv32
  type u64 = bv64

  /** The bytes of a little-endian u16, least-significant byte first. */
  function Le16(v: u16): (r: seq<byte>)
    ensures |r| == 2
  {
    [(v & 0xFF) as byte, (v >> 8) as byte]
  }

  /** The bytes of a little-endian u32, least-significant byte first. */
  function Le32(v: u32): (r: seq<byte>)
    ensures |r| == 4
  {
    [(v & 0xFF) as byte, ((v >> 8) & 0xFF) as byte, ((v >> 16) & 0xFF) as byte, (v >> 24) as byte]
  }

  /** The bytes of a little-endian u64, least-significant byte first. */
  function Le64(v: u64): (r: seq<byte>)
    ensures |r| == 8
  {
    [(v & 0xFF) as byte, ((v >> 8) & 0xFF) as byte, ((v >> 16) & 0xFF) as byte, ((v >> 24) & 0xFF) as byte,
     ((v >> 32) & 0xFF) as byte, ((v >> 40) & 0xFF) as byte, ((v >> 48) & 0xFF) as byte, (v >> 56) as byte]
  }

  /** `rd_u16`: the little-endian u16 at `off`. The requires clause is the
      bounds obligation every caller must discharge. */
  function RdU16(p: seq<byte>, off: nat): (r: u16)
    requires off + 2 <= |p|
    ensures Le16(r) == p[off..off + 2]
  {
    (p[off] as u16) | ((p[off + 1] as u16) << 8)
  }

  /** `rd_u32` (and `rd_f32`, which only reinterprets these 32 bits). */
  function RdU32(p: seq<byte>, off: nat): (r: u32)
    requires off + 4 <= |p|
    ensures Le32(r) == p[off..off + 4]
  {
    (p[off] as u32) | ((p[off + 1] as u32) << 8) | ((p[off + 2] as u32) << 16) | ((p[off + 3] as u32) << 24)
  }

  /** `rd_f64`: the 64-bit little-endian pattern at `off`. */
  function RdU64(p: seq<byte>, off: nat): (r: u64)
    requires off + 8 <= |p|
    ensures Le64(r) == p[off..off + 8]
  {
    (p[off] as u64) | ((p[off + 1] as u64) << 8) | ((p[off + 2] as u64) << 16) | ((p[off + 3] as u64) << 24)
    | ((p[off + 4] as u64) << 32) | ((p[off + 5] as u64) << 40) | ((p[off + 6] as u64) << 48)
    | ((p[off + 7] as u64) << 56)
  }

  /** The byte a boolean flag is written as; readers take exactly 0x01 as set. */
  function FlagByte(b: bool): (r: byte)
    ensures (r == 0x01) == b
  {
    if b then 0x01 else 0x00
  }

  /** A flag read from byte `off`: set exactly when the byte is 0x01. */
  function RdFlag(p: seq<byte>, off: nat): bool
    requires off < |p|
  {
    p[off] == 0x01
  }

  /** `n` zero bytes, as `QByteArray(n, '\0')`. */
  function Zeros(n: nat): (r: seq<byte>)
    ensures |r| == n && forall k :: 0 <= k < n ==> r[k] == 0
  {
    seq(n, _ => 0)
  }

  lemma Le16RoundTrip(v: u16, p: seq<byte>, off: nat)
    requires off + 2 <= |p|
    requires p[off] == Le16(v)[0] && p[off + 1] == Le16(v)[1]
    ensures RdU16(p, off) == v
  {
  }

  lemma Le32RoundTrip(v: u32, p: seq<byte>, off: nat)
    requires off + 4 <= |p|
    requires p[off] == Le32(v)[0] && p[off + 1] == Le32(v)[1]
    requires p[off + 2] == Le32(v)[2] && p[off + 3] == Le32(v)[3]
    ensures RdU32(p, off) == v
  {
  }

  lemma Le64RoundTrip(v: u64, p: seq<byte>, off: nat)
    requires off + 8 <= |p|
    requires p[off] == Le64(v)[0] && p[off + 1] == Le64(v)[1]
    requires p[off + 2] == Le64(v)[2] && p[off + 3] == Le64(v)[3]
    requires p[off + 4] == Le64(v)[4] && p[off + 5] == Le64(v)[5]
    requires p[off + 6] == Le64(v)[6] && p[off + 7] == Le64(v)[7]
    ensures RdU64(p, off) == v
  {
  }

  /** Two buffers that agree on their first `n` bytes read the same values
      everywhere inside those `n` bytes. */
  lemma ReadsAgreeOnPrefix(p: seq<byte>, q: seq<byte>, n: nat)
    requires n <= |p| && n <= |q| && p[..n] == q[..n]
    ensures forall k :: 0 <= k < n ==> p[k] == q[k]
    ensures forall off: nat :: off + 2 <= n ==> RdU16(p, off) == RdU16(q, off)
    ensures forall off: nat :: off + 4 <= n ==> RdU32(p, off) == RdU32(q, off)
    ensures forall off: nat :: off + 8 <= n ==> RdU64(p, off) == RdU64(q, off)
  {
    assert forall k :: 0 <= k < n ==> p[k] == p[..n][k] && q[k] == q[..n][k];
  }

  /** A slice equal to the encoding of `v` reads back as `v`. */
  lemma Le16Read(v: u16, p: seq<byte>, off: nat)
    requires off + 2 <= |p| && p[off..off + 2] == Le16(v)
    ensures RdU16(p, off) == v
  {
    assert p[off] == p[off..off + 2][0] && p[off + 1] == p[off..off + 2][1];
    Le16RoundTrip(v, p, off);
  }

  lemma Le32Read(v: u32, p: seq<byte>, off: nat)
    requires off + 4 <= |p| && p[off..off + 4] == Le32(v)
    ensures RdU32(p, off) == v
  {
    var s := p[off..off + 4];
    assert p[off] == s[0] && p[off + 1] == s[1] && p[off + 2] == s[2] && p[off + 3] == s[3];
    Le32RoundTrip(v, p, off);
  }

  lemma Le64Read(v: u64, p: seq<byte>, off: nat)
    requires off + 8 <= |p| && p[off..off + 8] == Le64(v)
    ensures RdU64(p, off) == v
  {
    var s := p[off..off + 8];
    assert p[off] == s[0] && p[off + 1] == s[1] && p[off + 2] == s[2] && p[off + 3] == s[3];
    assert p[off + 4] == s[4] && p[off + 5] == s[5] && p[off + 6] == s[6] && p[off + 7] == s[7];
    Le64RoundTrip(v, p, off);
  }

  /** A slice equal to a concatenation splits into slices equal to the parts. */
  lemma SliceSplit(p: seq<byte>, at: nat, a: seq<byte>, b: seq<byte>)
    requires at + |a| + |b| <= |p| && p[at..at + |a| + |b|] == a + b
    ensures p[at..at + |a|] == a && p[at + |a|..at + |a| + |b|] == b
  {
    var s := p[at..at + |a| + |b|];
    forall k | 0 <= k < |a|
      ensures p[at..at + |a|][k] == a[k]
    {
      assert s[k] == (a + b)[k];
    }
    forall k | 0 <= k < |b|
      ensures p[at + |a|..at + |a| + |b|][k] == b[k]
    {
      assert s[|a| + k] == (a + b)[|a| + k];
    }
  }

  /** Adjacent slices join. */
  lemma SliceJoin(p: seq<byte>, a: nat, b: nat, c: nat)
    requires a <= b <= c <= |p|
    ensures p[a..b] + p[b..c] == p[a..c]
  {
  }

  lemma AppendAssoc<T>(a: seq<T>, b: seq<T>, c: seq<T>)
    ensures a + b + c == a + (b + c)
  {
  }
}
