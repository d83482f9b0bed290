/** The outbound side of the HRGK protocol (src/Protocol.h, src/Protocol.cpp):
    the header configuration, the little-endian writers, the 32-byte frame
    header and the 51-byte "radar search task" packet. */
module Protocol {
  import opened Bytes
  import opened Checksum

  /** `HeaderConfig`: the header fields the user interface supplies, each
      with its member default. */
  datatype HeaderConfig = HeaderConfig(
    deviceModel: u16 := 6000,
    msgIdRadar: u16 := 0x0001,
    msgIdExternal: u16 := 0,
    deviceIdRadar: u16 := 0,
    deviceIdExternal: u16 := 0,
    checkMethod: byte := 1)

  /** The `checkMethod` codes: 0 no check, 1 additive sum, 2 CRC16. */
  const CheckNone: byte := 0
  const CheckSum16: byte := 1
  const CheckCrc16: byte := 2

  /** ASCII "HRGK". */
  const Magic: seq<byte> := [0x48, 0x52, 0x47, 0x4B]

  const HeaderLen := 32
  /** The search packet: header, 1-byte task type, 16 reserved bytes, 2-byte trailer. */
  const SearchBodyLen := 1 + 16
  const SearchTotalLen := HeaderLen + SearchBodyLen + 2
  /** The default argument of `buildSearchTaskPacket`'s task type. */
  const DefaultSearchTaskType: byte := 0x01

  // ---------------------------------------------------------------------
  // Writers
  // ---------------------------------------------------------------------

  /** `wr_u16`: append `v` least-significant byte first. */
  method WrU16(ba: seq<byte>, v: u16) returns (r: seq<byte>)
    ensures |r| == |ba| + 2 && r[..|ba|] == ba
    ensures RdU16(r, |ba|) == v
    ensures r == ba + Le16(v)
  {
    r := ba + Le16(v);
    Le16RoundTrip(v, r, |ba|);
  }

  /** `wr_u32`. */
  method WrU32(ba: seq<byte>, v: u32) returns (r: seq<byte>)
    ensures |r| == |ba| + 4 && r[..|ba|] == ba
    ensures RdU32(r, |ba|) == v
    ensures r == ba + Le32(v)
  {
    r := ba + Le32(v);
    Le32RoundTrip(v, r, |ba|);
  }

  /** `wr_u64`. */
  method WrU64(ba: seq<byte>, v: u64) returns (r: seq<byte>)
    ensures |r| == |ba| + 8 && r[..|ba|] == ba
    ensures RdU64(r, |ba|) == v
    ensures r == ba + Le64(v)
  {
    r := ba + Le64(v);
    Le64RoundTrip(v, r, |ba|);
  }

  // ---------------------------------------------------------------------
  // Frame header
  // ---------------------------------------------------------------------

  /** The 32-byte frame header: leading fields, IDs, trailing fields. */
  function FrameHeader(cfg: HeaderConfig, totalBytes: u16, timestampMs: u64, seqNum: byte, count: u32): (h: seq<byte>)
    ensures |h| == HeaderLen
  {
    HeaderLead(totalBytes, cfg.deviceModel, timestampMs) + HeaderIds(cfg) + HeaderTail(cfg.checkMethod, seqNum, count)
  }

  /** Bytes 0..15: magic, total length, device model, timestamp. */
  function HeaderLead(totalBytes: u16, deviceModel: u16, timestampMs: u64): (r: seq<byte>)
    ensures |r| == 16
  {
    Magic + Le16(totalBytes) + Le16(deviceModel) + Le64(timestampMs)
  }

  /** Bytes 16..23: the two message IDs and the two device IDs. */
  function HeaderIds(cfg: HeaderConfig): (r: seq<byte>)
    ensures |r| == 8
  {
    Le16(cfg.msgIdRadar) + Le16(cfg.msgIdExternal) + Le16(cfg.deviceIdRadar) + Le16(cfg.deviceIdExternal)
  }

  /** Bytes 24..31: two reserved zero bytes, check method, sequence number,
      counter. */
  function HeaderTail(checkMethod: byte, seqNum: byte, count: u32): (r: seq<byte>)
    ensures |r| == 8
  {
    Le16(0) + [checkMethod, seqNum] + Le32(count)
  }

  /** `QByteArray::resize`: truncate, or extend with zero bytes; a negative
      size empties the array. */
  function Resized(h: seq<byte>, n: int): (r: seq<byte>)
    ensures |r| == if n < 0 then 0 else n
    ensures forall k :: 0 <= k < |r| && k < |h| ==> r[k] == h[k]
  {
    if n < 0 then [] else if |h| >= n then h[..n] else h + Zeros(n - |h|)
  }

  /** `buildFrameHead`. The wall-clock read of the source is the parameter
      `timestampMs`. The three groups of appends are the helpers below. */
  method BuildFrameHead(cfg: HeaderConfig, totalBytes: u16, seqNum: byte, count: u32, timestampMs: u64)
    returns (h: seq<byte>)
    ensures h == FrameHeader(cfg, totalBytes, timestampMs, seqNum, count)
  {
    h := WriteHeaderLead(totalBytes, cfg.deviceModel, timestampMs);
    h := WriteHeaderIds(h, cfg);
    h := WriteHeaderTail(h, cfg.checkMethod, seqNum, count);
    if |h| != 32 {
      h := Resized(h, 32);
    }
  }

  /** The magic, appended byte by byte, then length, model and timestamp. */
  method WriteHeaderLead(totalBytes: u16, deviceModel: u16, timestampMs: u64) returns (h: seq<byte>)
    ensures h == HeaderLead(totalBytes, deviceModel, timestampMs)
  {
    h := [];
    h := h + [0x48];
    h := h + [0x52];
    h := h + [0x47];
    h := h + [0x4B];
    assert h == Magic;
    h := WrU16(h, totalBytes);
    h := WrU16(h, deviceModel);
    h := WrU64(h, timestampMs);
  }

  /** Appends the two message IDs and the two device IDs. */
  method WriteHeaderIds(lead: seq<byte>, cfg: HeaderConfig) returns (h: seq<byte>)
    ensures h == lead + HeaderIds(cfg)
  {
    h := WrU16(lead, cfg.msgIdRadar);
    h := WrU16(h, cfg.msgIdExternal);
    h := WrU16(h, cfg.deviceIdRadar);
    h := WrU16(h, cfg.deviceIdExternal);
    ghost var a, b, c, d := Le16(cfg.msgIdRadar), Le16(cfg.msgIdExternal), Le16(cfg.deviceIdRadar), Le16(cfg.deviceIdExternal);
    AppendAssoc(lead, a, b);
    AppendAssoc(lead, a + b, c);
    AppendAssoc(lead, a + b + c, d);
  }

  /** Appends the reserved zeros, check method, sequence number and counter. */
  method WriteHeaderTail(head: seq<byte>, checkMethod: byte, seqNum: byte, count: u32) returns (h: seq<byte>)
    ensures h == head + HeaderTail(checkMethod, seqNum, count)
  {
    h := WrU16(head, 0);
    h := h + [checkMethod];
    h := h + [seqNum];
    h := WrU32(h, count);
    ghost var z, t := Le16(0), Le32(count);
    assert [checkMethod] + [seqNum] == [checkMethod, seqNum];
    AppendAssoc(head, z, [checkMethod]);
    AppendAssoc(head, z + [checkMethod], [seqNum]);
    AppendAssoc(z, [checkMethod], [seqNum]);
    AppendAssoc(head, z + [checkMethod, seqNum], t);
  }

  /** Every field of the header sits at its documented offset, little-endian. */
  lemma FrameHeaderLayout(cfg: HeaderConfig, totalBytes: u16, timestampMs: u64, seqNum: byte, count: u32)
    ensures var h := FrameHeader(cfg, totalBytes, timestampMs, seqNum, count);
      && |h| == HeaderLen
      && h[..4] == Magic
      && RdU16(h, 4) == totalBytes
      && RdU16(h, 6) == cfg.deviceModel
      && RdU64(h, 8) == timestampMs
      && RdU16(h, 16) == cfg.msgIdRadar
      && RdU16(h, 18) == cfg.msgIdExternal
      && RdU16(h, 20) == cfg.deviceIdRadar
      && RdU16(h, 22) == cfg.deviceIdExternal
      && h[24] == 0 && h[25] == 0
      && h[26] == cfg.checkMethod
      && h[27] == seqNum
      && RdU32(h, 28) == count
  {
    HeaderLeadingFields(cfg, totalBytes, timestampMs, seqNum, count);
    HeaderIdFields(cfg, totalBytes, timestampMs, seqNum, count);
    HeaderTrailingFields(cfg, totalBytes, timestampMs, seqNum, count);
  }

  /** Bytes 0..15: magic, total length, device model, timestamp. */
  lemma HeaderLeadingFields(cfg: HeaderConfig, totalBytes: u16, timestampMs: u64, seqNum: byte, count: u32)
    ensures var h := FrameHeader(cfg, totalBytes, timestampMs, seqNum, count);
      && |h| == HeaderLen && h[..4] == Magic
      && RdU16(h, 4) == totalBytes && RdU16(h, 6) == cfg.deviceModel && RdU64(h, 8) == timestampMs
  {
    var h := FrameHeader(cfg, totalBytes, timestampMs, seqNum, count);
    Le16RoundTrip(totalBytes, h, 4);
    Le16RoundTrip(cfg.deviceModel, h, 6);
    Le64RoundTrip(timestampMs, h, 8);
  }

  /** Bytes 16..23: the two message IDs and the two device IDs. */
  lemma HeaderIdFields(cfg: HeaderConfig, totalBytes: u16, timestampMs: u64, seqNum: byte, count: u32)
    ensures var h := FrameHeader(cfg, totalBytes, timestampMs, seqNum, count);
      && |h| == HeaderLen
      && RdU16(h, 16) == cfg.msgIdRadar && RdU16(h, 18) == cfg.msgIdExternal
      && RdU16(h, 20) == cfg.deviceIdRadar && RdU16(h, 22) == cfg.deviceIdExternal
  {
    var h := FrameHeader(cfg, totalBytes, timestampMs, seqNum, count);
    Le16RoundTrip(cfg.msgIdRadar, h, 16);
    Le16RoundTrip(cfg.msgIdExternal, h, 18);
    Le16RoundTrip(cfg.deviceIdRadar, h, 20);
    Le16RoundTrip(cfg.deviceIdExternal, h, 22);
  }

  /** Bytes 24..31: reserved zeros, check method, sequence number, counter. */
  lemma HeaderTrailingFields(cfg: HeaderConfig, totalBytes: u16, timestampMs: u64, seqNum: byte, count: u32)
    ensures var h := FrameHeader(cfg, totalBytes, timestampMs, seqNum, count);
      && |h| == HeaderLen
      && h[24] == 0 && h[25] == 0 && h[26] == cfg.checkMethod && h[27] == seqNum
      && RdU32(h, 28) == count
  {
    var h := FrameHeader(cfg, totalBytes, timestampMs, seqNum, count);
    Le32RoundTrip(count, h, 28);
  }

  // ---------------------------------------------------------------------
  // Search task packet
  // ---------------------------------------------------------------------

  /** The trailer value chosen by `checkMethod`: 1 the additive sum, 2 the
      CRC, anything else 0. */
  function TrailerChecksum(checkMethod: byte, data: seq<byte>): u16
  {
    if checkMethod == CheckSum16 then Sum16(data)
    else if checkMethod == CheckCrc16 then Crc16(data)
    else 0
  }

  /** Header and body of the search packet, before the trailer. */
  function SearchTaskPrefix(cfg: HeaderConfig, taskType: byte, timestampMs: u64, seqNum: byte, count: u32): seq<byte>
  {
    FrameHeader(cfg, 51, timestampMs, seqNum, count) + [taskType] + Zeros(16)
  }

  /** The complete search packet: prefix plus its checksum, little-endian. */
  function SearchTaskPacket(cfg: HeaderConfig, taskType: byte, timestampMs: u64, seqNum: byte, count: u32): seq<byte>
  {
    var prefix := SearchTaskPrefix(cfg, taskType, timestampMs, seqNum, count);
    prefix + Le16(TrailerChecksum(cfg.checkMethod, prefix))
  }

  /** The search packet is 51 bytes: the 32-byte header, the task type at
      byte 32, zeros at 33..48, and at 49..50 the checksum selected by
      `checkMethod`, computed over bytes 0..48. */
  lemma SearchTaskPacketLayout(cfg: HeaderConfig, taskType: byte, timestampMs: u64, seqNum: byte, count: u32)
    ensures var p := SearchTaskPacket(cfg, taskType, timestampMs, seqNum, count);
      && |p| == SearchTotalLen == 51
      && p[..HeaderLen] == FrameHeader(cfg, 51, timestampMs, seqNum, count)
      && p[32] == taskType
      && (forall k :: 33 <= k < 49 ==> p[k] == 0)
      && RdU16(p, 49) == TrailerChecksum(cfg.checkMethod, p[..49])
  {
    var h := FrameHeader(cfg, 51, timestampMs, seqNum, count);
    var prefix := SearchTaskPrefix(cfg, taskType, timestampMs, seqNum, count);
    var p := SearchTaskPacket(cfg, taskType, timestampMs, seqNum, count);
    HeaderLeadingFields(cfg, 51, timestampMs, seqNum, count);
    assert p[..49] == prefix;
    assert p[..HeaderLen] == h;
    var ck := TrailerChecksum(cfg.checkMethod, prefix);
    Le16RoundTrip(ck, p, 49);
  }

  /** Read back from the packet, the header's length field is 51 and the
      check method, sequence number and counter are the ones supplied. */
  lemma SearchTaskPacketHeader(cfg: HeaderConfig, taskType: byte, timestampMs: u64, seqNum: byte, count: u32)
    ensures var p := SearchTaskPacket(cfg, taskType, timestampMs, seqNum, count);
      && |p| == 51 && p[..4] == Magic
      && RdU16(p, 4) == 51
      && RdU16(p, 16) == cfg.msgIdRadar
      && p[26] == cfg.checkMethod && p[27] == seqNum && RdU32(p, 28) == count
  {
    var h := FrameHeader(cfg, 51, timestampMs, seqNum, count);
    var p := SearchTaskPacket(cfg, taskType, timestampMs, seqNum, count);
    SearchTaskPacketLayout(cfg, taskType, timestampMs, seqNum, count);
    FrameHeaderLayout(cfg, 51, timestampMs, seqNum, count);
    ReadsAgreeOnPrefix(p, h, HeaderLen);
    assert p[..4] == h[..4];
  }

  /** With `checkMethod` 2 a receiver that runs the CRC over all 51 bytes,
      trailer included, obtains zero; with any code other than 1 and 2 the
      trailer is two zero bytes. */
  lemma SearchTaskPacketTrailer(cfg: HeaderConfig, taskType: byte, timestampMs: u64, seqNum: byte, count: u32)
    ensures var p := SearchTaskPacket(cfg, taskType, timestampMs, seqNum, count);
      && (cfg.checkMethod == CheckSum16 ==> RdU16(p, 49) == Sum16(p[..49]))
      && (cfg.checkMethod == CheckCrc16 ==> RdU16(p, 49) == Crc16(p[..49]) && Crc16(p) == 0)
      && (cfg.checkMethod != CheckSum16 && cfg.checkMethod != CheckCrc16 ==> p[49] == 0 && p[50] == 0)
  {
    var prefix := SearchTaskPrefix(cfg, taskType, timestampMs, seqNum, count);
    SearchTaskPacketLayout(cfg, taskType, timestampMs, seqNum, count);
    if cfg.checkMethod == CheckCrc16 {
      CrcResidueZero(prefix);
    }
  }

  /** The body of `buildSearchTaskPacket` once the sequence number and the
      counter are chosen: header, task type, 16 zero bytes, then the checksum
      selected by `checkMethod` over everything so far, little-endian. */
  method AssembleSearchTaskPacket(cfg: HeaderConfig, taskType: byte, timestampMs: u64, seqNum: byte, cnt: u32)
    returns (packet: seq<byte>)
    ensures packet == SearchTaskPacket(cfg, taskType, timestampMs, seqNum, cnt)
  {
    var bodyNoCkLen: u16 := 1 + 16;
    var total: u16 := 32 + bodyNoCkLen + 2;
    packet := BuildFrameHead(cfg, total, seqNum, cnt, timestampMs);
    packet := packet + [taskType];
    packet := packet + Zeros(16);
    assert packet == SearchTaskPrefix(cfg, taskType, timestampMs, seqNum, cnt);
    var ck := SelectChecksum(cfg.checkMethod, packet);
    packet := packet + Le16(ck);
  }

  /** The checksum switch of `buildSearchTaskPacket`. */
  method SelectChecksum(checkMethod: byte, data: seq<byte>) returns (ck: u16)
    ensures ck == TrailerChecksum(checkMethod, data)
  {
    if checkMethod == 1 {
      ck := ChecksumSum16(data);
    } else if checkMethod == 2 {
      ck := ChecksumCrc16Ibm(data);
    } else {
      ck := 0;
    }
  }

  /** The two function-local statics of `buildSearchTaskPacket` (`s_seq`, a
      u8, and `s_count`, a u32), held as the fields of one object. Their
      increments wrap around modulo 2^8 and 2^32, as the bit-vector
      arithmetic here does. */
  class SearchTaskBuilder {
    var seqNo: byte
    var count: u32

    /** Both statics start at zero. */
    constructor ()
      ensures seqNo == 0 && count == 0
    {
      seqNo := 0;
      count := 0;
    }

    /** `buildSearchTaskPacket`: the packet carries the sequence number from
        before its increment (`s_seq++`) and the counter from after its
        increment (`++s_count`). The clock reading is a parameter, and the
        task type defaults to 0x01 as in the declaration. */
    method BuildSearchTaskPacket(cfg: HeaderConfig, timestampMs: u64, taskType: byte := DefaultSearchTaskType)
      returns (packet: seq<byte>)
      modifies this
      ensures seqNo == old(seqNo) + 1 && count == old(count) + 1
      ensures packet == SearchTaskPacket(cfg, taskType, timestampMs, old(seqNo), old(count) + 1)
    {
      var s := seqNo;
      seqNo := seqNo + 1;
      count := count + 1;
      var cnt := count;
      packet := AssembleSearchTaskPacket(cfg, taskType, timestampMs, s, cnt);
    }
  }
}
