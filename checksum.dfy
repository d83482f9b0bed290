/** The two trailer checksums of `Protocol` (src/Protocol.cpp): a 16-bit
    additive sum and CRC-16/IBM as parameterised by section 6.2.2 of the
    MODBUS over Serial Line Specification V1.02 (reflected polynomial 0xA001,
    initial register 0xFFFF, no final XOR). Each is a pure specification
    function plus a method with the source's byte-by-byte loop. */
module Checksum {
  import opened Bytes

  // ---------------------------------------------------------------------
  // Additive sum
  // ---------------------------------------------------------------------

  /** The plain sum of all bytes, read as unsigned values. */
  function SumBytes(data: seq<byte>): nat
  {
    if data == [] then 0 else SumBytes(data[..|data| - 1]) + data[|data| - 1] as nat
  }

  /** The additive checksum: the byte sum reduced to 16 bits. */
  function Sum16(data: seq<byte>): u16
  {
    (SumBytes(data) % 0x1_0000) as u16
  }

  /** `checksumSum16`. The source keeps a 32-bit accumulator and masks it with
      0xFFFF after every byte; the accumulator never exceeds 0xFFFF + 0xFF, so
      the mask is the remainder modulo 0x10000 written here. */
  method ChecksumSum16(data: seq<byte>) returns (r: u16)
    ensures r == Sum16(data)
    ensures data == [] ==> r == 0
  {
    var sum: int := 0;
    var i := 0;
    while i < |data|
      invariant 0 <= i <= |data|
      invariant sum == SumBytes(data[..i]) % 0x1_0000
    {
      SumBytesSnoc(data, i);
      sum := (sum + data[i] as int) % 0x1_0000;
      i := i + 1;
    }
    assert data[..i] == data;
    r := sum as u16;
  }

  /** Reducing after every byte gives the same remainder as reducing once. */
  lemma SumBytesSnoc(data: seq<byte>, i: nat)
    requires i < |data|
    ensures SumBytes(data[..i + 1]) % 0x1_0000 == (SumBytes(data[..i]) % 0x1_0000 + data[i] as int) % 0x1_0000
  {
    assert data[..i + 1][..i] == data[..i];
    var a := SumBytes(data[..i]);
    ModAddRemainder(a, data[i] as int);
  }

  lemma ModAddRemainder(a: nat, d: nat)
    ensures (a % 0x1_0000 + d) % 0x1_0000 == (a + d) % 0x1_0000
  {
    var q := a / 0x1_0000;
    assert a == q * 0x1_0000 + a % 0x1_0000;
    ModMultiple(a % 0x1_0000 + d, q);
  }

  lemma {:induction false} ModMultiple(x: nat, q: nat)
    ensures (x + q * 0x1_0000) % 0x1_0000 == x % 0x1_0000
  {
    if q > 0 {
      ModMultiple(x, q - 1);
      assert x + q * 0x1_0000 == (x + (q - 1) * 0x1_0000) + 0x1_0000;
    }
  }

  /** The byte sum of a concatenation is the sum of the parts' sums. */
  lemma {:induction false} SumBytesAppend(a: seq<byte>, b: seq<byte>)
    ensures SumBytes(a + b) == SumBytes(a) + SumBytes(b)
    decreases |b|
  {
    if b == [] {
      assert a + b == a;
    } else {
      assert (a + b)[..|a + b| - 1] == a + b[..|b| - 1];
      SumBytesAppend(a, b[..|b| - 1]);
    }
  }

  /** The additive checksum does not depend on how the data is split:
      swapping two blocks leaves it unchanged. */
  lemma Sum16SwapBlocks(a: seq<byte>, b: seq<byte>)
    ensures Sum16(a + b) == Sum16(b + a)
  {
    SumBytesAppend(a, b);
    SumBytesAppend(b, a);
  }

  // ---------------------------------------------------------------------
  // CRC-16/IBM (MODBUS parameters)
  // ---------------------------------------------------------------------

  const CrcInit: u16 := 0xFFFF
  const CrcPoly: u16 := 0xA001

  /** One step of the bit loop: shift right, and XOR the reflected polynomial
      in when the bit shifted out was set. */
  function CrcShift(crc: u16): u16
  {
    if crc & 1 == 1 then (crc >> 1) ^ CrcPoly else crc >> 1
  }

  /** `k` steps of the bit loop. */
  function CrcShifts(crc: u16, k: nat): u16
    decreases k
  {
    if k == 0 then crc else CrcShifts(CrcShift(crc), k - 1)
  }

  /** One byte: XOR it into the low byte of the register, then 8 steps. */
  function CrcByte(crc: u16, b: byte): u16
  {
    CrcShifts(crc ^ (b as u16), 8)
  }

  /** The register after feeding `data` into a register holding `crc`. */
  function CrcFrom(crc: u16, data: seq<byte>): u16
    decreases |data|
  {
    if data == [] then crc else CrcFrom(CrcByte(crc, data[0]), data[1..])
  }

  /** CRC-16/IBM of `data`: no final XOR. */
  function Crc16(data: seq<byte>): u16
  {
    CrcFrom(CrcInit, data)
  }

  /** `checksumCrc16IBM`, with its two nested loops. */
  method ChecksumCrc16Ibm(data: seq<byte>) returns (crc: u16)
    ensures crc == Crc16(data)
    ensures data == [] ==> crc == 0xFFFF
  {
    crc := 0xFFFF;
    var i := 0;
    while i < |data|
      invariant 0 <= i <= |data|
      invariant CrcFrom(crc, data[i..]) == Crc16(data)
    {
      ghost var target := CrcByte(crc, data[i]);
      assert data[i..][1..] == data[i + 1..];
      crc := crc ^ (data[i] as u16);
      var k := 0;
      while k < 8
        invariant 0 <= k <= 8
        invariant CrcShifts(crc, 8 - k) == target
      {
        ghost var prev := crc;
        if crc & 1 == 1 {
          crc := (crc >> 1) ^ 0xA001;
        } else {
          crc := crc >> 1;
        }
        assert crc == CrcShift(prev);
        CrcShiftsStep(prev, 8 - k);
        k := k + 1;
      }
      i := i + 1;
    }
  }

  lemma CrcShiftsStep(crc: u16, j: nat)
    requires j >= 1
    ensures CrcShifts(crc, j) == CrcShifts(CrcShift(crc), j - 1)
  {
  }

  /** Feeding `a + b` is feeding `a`, then `b`. */
  lemma {:induction false} CrcFromAppend(crc: u16, a: seq<byte>, b: seq<byte>)
    ensures CrcFrom(crc, a + b) == CrcFrom(CrcFrom(crc, a), b)
    decreases |a|
  {
    if a == [] {
      assert a + b == b;
    } else {
      assert (a + b)[0] == a[0] && (a + b)[1..] == a[1..] + b;
      CrcFromAppend(CrcByte(crc, a[0]), a[1..], b);
    }
  }

  /** When the low byte of the register is zero, the 8 bit steps never XOR
      the polynomial in and amount to a shift by 8. */
  lemma CrcShiftsLowByteZero(x: u16)
    requires x & 0xFF == 0
    ensures CrcShifts(x, 8) == x >> 8
  {
    var x1 := CrcShift(x);
    assert x1 == x >> 1;
    var x2 := CrcShift(x1);
    assert x2 == x >> 2;
    var x3 := CrcShift(x2);
    assert x3 == x >> 3;
    var x4 := CrcShift(x3);
    assert x4 == x >> 4;
    var x5 := CrcShift(x4);
    assert x5 == x >> 5;
    var x6 := CrcShift(x5);
    assert x6 == x >> 6;
    var x7 := CrcShift(x6);
    assert x7 == x >> 7;
    assert CrcShifts(x, 8) == CrcShifts(x7, 1);
  }

  /** Feeding a register its own value, least-significant byte first,
      clears it. */
  lemma CrcOwnValueClears(c: u16)
    ensures CrcFrom(c, Le16(c)) == 0
  {
    var lo := Le16(c)[0];
    var hi := Le16(c)[1];
    LowByteLeavesHigh(c);
    var mid := CrcByte(c, lo);
    assert mid ^ (hi as u16) == 0;
    CrcShiftsZero(8);
    assert Le16(c)[1..] == [hi];
    calc {
      CrcFrom(c, Le16(c));
      CrcFrom(mid, [hi]);
      { assert [hi][1..] == []; }
      CrcFrom(CrcByte(mid, hi), []);
    }
  }

  /** Feeding a register its own low byte leaves its high byte. */
  lemma LowByteLeavesHigh(c: u16)
    ensures CrcByte(c, Le16(c)[0]) == Le16(c)[1] as u16
  {
    CrcShiftsLowByteZero(c ^ (Le16(c)[0] as u16));
  }

  /** The receiver's check: running the CRC over data followed by its own CRC,
      appended least-significant byte first as the packet builder does,
      leaves the register at zero. */
  lemma CrcResidueZero(data: seq<byte>)
    ensures Crc16(data + Le16(Crc16(data))) == 0
  {
    CrcFromAppend(CrcInit, data, Le16(Crc16(data)));
    CrcOwnValueClears(Crc16(data));
  }

  /** A zero register stays zero through any number of bit steps. */
  lemma {:induction false} CrcShiftsZero(k: nat)
    ensures CrcShifts(0, k) == 0
  {
    if k > 0 {
      assert CrcShift(0) == 0;
      CrcShiftsZero(k - 1);
    }
  }

  /** The standard check value of CRC-16/MODBUS: the nine ASCII bytes
      "123456789" give 0x4B37. */
  lemma Crc16CheckValue()
    ensures Crc16([0x31, 0x32, 0x33, 0x34, 0x35, 0x36, 0x37, 0x38, 0x39]) == 0x4B37
  {
    assert CrcByte(0xFFFF, 0x31) == 0x947E;
    assert CrcByte(0x947E, 0x32) == 0xF595;
    assert CrcByte(0xF595, 0x33) == 0x7A75;
    assert CrcByte(0x7A75, 0x34) == 0x30BA;
    assert CrcByte(0x30BA, 0x35) == 0xA471;
    assert CrcByte(0xA471, 0x36) == 0x32E4;
    assert CrcByte(0x32E4, 0x37) == 0x9D73;
    assert CrcByte(0x9D73, 0x38) == 0x37DD;
    assert CrcByte(0x37DD, 0x39) == 0x4B37;
  }
}
