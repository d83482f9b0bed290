/** The inbound "radar status" message (src/RadarStatus.h,
    src/RadarStatus.cpp): a 32-byte frame header followed by 168 bytes of
    fault codes, state flags, position and attitude, reserved blocks,
    frequency, antenna power mode and silent zone, then a 2-byte checksum
    that is carried but never verified. Also the four text decoders the
    status display uses. */
module RadarStatus {
  import opened Bytes
  import opened Text

  /** `RadarStatus`. Float and double fields are their raw bit patterns;
      the reserved `QByteArray` blocks are byte sequences. */
  datatype RadarStatus = RadarStatus(
    frameHead: seq<byte>,
    hwFault: byte,
    swFault24: u32,
    workState: byte,
    reserved1: byte,
    detectRange: u16,
    insValid: bool,
    simOn: bool,
    retracted: bool,
    driving: bool,
    longitude: u64,
    latitude: u64,
    altitude: u32,
    yaw: u32,
    pitch: u32,
    roll: u32,
    reserved2_8: seq<byte>,
    verReserved_21: seq<byte>,
    infoReserved_32: seq<byte>,
    freqGHz: u32,
    antPowerMode: byte,
    antReserved_16: seq<byte>,
    chanReserved_8: seq<byte>,
    servoReserved_16: seq<byte>,
    silentStart: u16,
    silentEnd: u16,
    reserved3_12: seq<byte>,
    checksum: u16)

  /** The value-initialised record `RadarStatus{}`: numbers zero, flags
      false, every `QByteArray` empty. */
  const DefaultRadarStatus := RadarStatus([], 0, 0, 0, 0, 0, false, false, false, false, 0, 0, 0, 0, 0, 0,
                                          [], [], [], 0, 0, [], [], [], 0, 0, [], 0)

  /** `needMin`, exactly as the source adds it up: 200, which is also the
      number of bytes the parser consumes. */
  const StatusMinLen := 32 + 4 + 1 + 1 + 2 + 1 + 1 + 1 + 1 + 8 + 8 + 4 + 4 + 4 + 4 + 8 + 21 + 32 + 4 + 1 + 16
                        + 8 + 16 + 2 + 2 + 12 + 2

  /** The block sizes the record declares. */
  ghost predicate WellFormed(s: RadarStatus)
  {
    && |s.frameHead| == 32 && s.swFault24 < 0x100_0000
    && |s.reserved2_8| == 8 && |s.verReserved_21| == 21 && |s.infoReserved_32| == 32
    && |s.antReserved_16| == 16 && |s.chanReserved_8| == 8 && |s.servoReserved_16| == 16
    && |s.reserved3_12| == 12
  }

  // ---------------------------------------------------------------------
  // The decoded value, field by field at its absolute offset
  // ---------------------------------------------------------------------

  /** The 24-bit software fault code: three bytes, least significant first. */
  function Sw24(p: seq<byte>, off: nat): (r: u32)
    requires off + 3 <= |p|
    ensures r < 0x100_0000
  {
    (p[off] as u32) | ((p[off + 1] as u32) << 8) | ((p[off + 2] as u32) << 16)
  }

  /** The record the parser produces from payload `p`. The requires clause is
      the claim that every read lies in bytes 0..199. */
  function DecodeStatus(p: seq<byte>): (s: RadarStatus)
    requires |p| >= StatusMinLen
    ensures WellFormed(s)
  {
    RadarStatus(
      frameHead := p[..32],
      hwFault := p[32],
      swFault24 := Sw24(p, 33),
      workState := p[36],
      reserved1 := p[37],
      detectRange := RdU16(p, 38),
      insValid := RdFlag(p, 40),
      simOn := RdFlag(p, 41),
      retracted := RdFlag(p, 42),
      driving := RdFlag(p, 43),
      longitude := RdU64(p, 44),
      latitude := RdU64(p, 52),
      altitude := RdU32(p, 60),
      yaw := RdU32(p, 64),
      pitch := RdU32(p, 68),
      roll := RdU32(p, 72),
      reserved2_8 := p[76..84],
      verReserved_21 := p[84..105],
      infoReserved_32 := p[105..137],
      freqGHz := RdU32(p, 137),
      antPowerMode := p[141],
      antReserved_16 := p[142..158],
      chanReserved_8 := p[158..166],
      servoReserved_16 := p[166..182],
      silentStart := RdU16(p, 182),
      silentEnd := RdU16(p, 184),
      reserved3_12 := p[186..198],
      checksum := RdU16(p, 198))
  }

  // ---------------------------------------------------------------------
  // The parser
  // ---------------------------------------------------------------------

  /** `RadarStatusParser::parseLittleEndian`. `out` is passed in and the
      value it holds afterwards is returned as `result`. Only the length is
      checked: no field is range-checked and the checksum is not verified. */
  method ParseStatus(payload: seq<byte>, out: RadarStatus) returns (ok: bool, result: RadarStatus)
    ensures ok <==> |payload| >= StatusMinLen
    ensures !ok ==> result == out
    ensures ok ==> result == DecodeStatus(payload)
  {
    var needMin := 32 + 4 + 1 + 1 + 2 + 1 + 1 + 1 + 1 + 8 + 8 + 4 + 4 + 4 + 4 + 8 + 21 + 32 + 4 + 1 + 16
                   + 8 + 16 + 2 + 2 + 12 + 2;
    if |payload| < needMin {
      return false, out;
    }
    var p := payload;
    var off := 0;

    var frameHead := p[..32];
    off := off + 32;
    var hwFault, swFault24;
    hwFault, swFault24, off := ReadFaults(p, off);
    var workState, reserved1, detectRange, insValid, simOn, retracted, driving;
    workState, reserved1, detectRange, insValid, simOn, retracted, driving, off := ReadState(p, off);
    var longitude, latitude, altitude, yaw, pitch, roll;
    longitude, latitude, altitude, yaw, pitch, roll, off := ReadPosition(p, off);
    var reserved2_8, verReserved_21, infoReserved_32, freqGHz, antPowerMode;
    reserved2_8, verReserved_21, infoReserved_32, freqGHz, antPowerMode, off := ReadInfoAndFrequency(p, off);
    var antReserved_16, chanReserved_8, servoReserved_16, silentStart, silentEnd, reserved3_12, checksum;
    antReserved_16, chanReserved_8, servoReserved_16, silentStart, silentEnd, reserved3_12, checksum, off :=
      ReadTail(p, off);

    result := RadarStatus(frameHead, hwFault, swFault24, workState, reserved1, detectRange,
                          insValid, simOn, retracted, driving, longitude, latitude, altitude, yaw, pitch, roll,
                          reserved2_8, verReserved_21, infoReserved_32, freqGHz, antPowerMode,
                          antReserved_16, chanReserved_8, servoReserved_16, silentStart, silentEnd,
                          reserved3_12, checksum);
    assert result == DecodeStatus(p);
    ok := true;
  }

  /** Bytes 32..35 of the parser: the hardware and software fault codes. */
  method ReadFaults(p: seq<byte>, off: nat) returns (hwFault: byte, swFault24: u32, next: nat)
    requires |p| >= StatusMinLen && off == 32
    ensures next == 36
    ensures hwFault == p[32] && swFault24 == Sw24(p, 33)
  {
    next := off;
    hwFault := p[next];
    swFault24 := Sw24(p, next + 1);
    next := next + 4;
  }

  /** Bytes 36..43: work state, detection range and the four state flags. */
  method ReadState(p: seq<byte>, off: nat)
    returns (workState: byte, reserved1: byte, detectRange: u16,
             insValid: bool, simOn: bool, retracted: bool, driving: bool, next: nat)
    requires |p| >= StatusMinLen && off == 36
    ensures next == 44
    ensures workState == p[36] && reserved1 == p[37] && detectRange == RdU16(p, 38)
    ensures insValid == RdFlag(p, 40) && simOn == RdFlag(p, 41)
    ensures retracted == RdFlag(p, 42) && driving == RdFlag(p, 43)
  {
    next := off;
    workState := p[next];
    next := next + 1;
    reserved1 := p[next];
    next := next + 1;
    detectRange := RdU16(p, next);
    next := next + 2;
    insValid := RdFlag(p, next);
    next := next + 1;
    simOn := RdFlag(p, next);
    next := next + 1;
    retracted := RdFlag(p, next);
    next := next + 1;
    driving := RdFlag(p, next);
    next := next + 1;
  }

  /** Bytes 44..75: longitude, latitude, altitude and attitude. */
  method ReadPosition(p: seq<byte>, off: nat)
    returns (longitude: u64, latitude: u64, altitude: u32, yaw: u32, pitch: u32, roll: u32, next: nat)
    requires |p| >= StatusMinLen && off == 44
    ensures next == 76
    ensures longitude == RdU64(p, 44) && latitude == RdU64(p, 52) && altitude == RdU32(p, 60)
    ensures yaw == RdU32(p, 64) && pitch == RdU32(p, 68) && roll == RdU32(p, 72)
  {
    next := off;
    longitude := RdU64(p, next);
    next := next + 8;
    latitude := RdU64(p, next);
    next := next + 8;
    altitude := RdU32(p, next);
    next := next + 4;
    yaw := RdU32(p, next);
    next := next + 4;
    pitch := RdU32(p, next);
    next := next + 4;
    roll := RdU32(p, next);
    next := next + 4;
  }

  /** Bytes 76..141: three reserved blocks, the frequency and the antenna
      power mode. */
  method ReadInfoAndFrequency(p: seq<byte>, off: nat)
    returns (reserved2_8: seq<byte>, verReserved_21: seq<byte>, infoReserved_32: seq<byte>,
             freqGHz: u32, antPowerMode: byte, next: nat)
    requires |p| >= StatusMinLen && off == 76
    ensures next == 142
    ensures reserved2_8 == p[76..84] && verReserved_21 == p[84..105] && infoReserved_32 == p[105..137]
    ensures freqGHz == RdU32(p, 137) && antPowerMode == p[141]
  {
    next := off;
    reserved2_8 := p[next..next + 8];
    next := next + 8;
    verReserved_21 := p[next..next + 21];
    next := next + 21;
    infoReserved_32 := p[next..next + 32];
    next := next + 32;
    freqGHz := RdU32(p, next);
    next := next + 4;
    antPowerMode := p[next];
    next := next + 1;
  }

  /** Bytes 142..199: reserved blocks, the silent zone and the checksum. */
  method ReadTail(p: seq<byte>, off: nat)
    returns (antReserved_16: seq<byte>, chanReserved_8: seq<byte>, servoReserved_16: seq<byte>,
             silentStart: u16, silentEnd: u16, reserved3_12: seq<byte>, checksum: u16, next: nat)
    requires |p| >= StatusMinLen && off == 142
    ensures next == 200
    ensures antReserved_16 == p[142..158] && chanReserved_8 == p[158..166] && servoReserved_16 == p[166..182]
    ensures silentStart == RdU16(p, 182) && silentEnd == RdU16(p, 184)
    ensures reserved3_12 == p[186..198] && checksum == RdU16(p, 198)
  {
    next := off;
    antReserved_16 := p[next..next + 16];
    next := next + 16;
    chanReserved_8 := p[next..next + 8];
    next := next + 8;
    servoReserved_16 := p[next..next + 16];
    next := next + 16;
    silentStart := RdU16(p, next);
    next := next + 2;
    silentEnd := RdU16(p, next);
    next := next + 2;
    reserved3_12 := p[next..next + 12];
    next := next + 12;
    checksum := RdU16(p, next);
    next := next + 2;
  }

  // ---------------------------------------------------------------------
  // The record layout as a byte sequence, and what the parser makes of it
  // ---------------------------------------------------------------------

  /** The three bytes of a 24-bit code, least significant first. */
  function Sw24Bytes(v: u32): (r: seq<byte>)
    ensures |r| == 3
  {
    [(v & 0xFF) as byte, ((v >> 8) & 0xFF) as byte, ((v >> 16) & 0xFF) as byte]
  }

  /** Bytes 32..43: fault codes, work state, detection range, four flags. */
  function StatusStateBytes(s: RadarStatus): (r: seq<byte>)
    ensures |r| == 12
  {
    [s.hwFault] + Sw24Bytes(s.swFault24) + [s.workState, s.reserved1] + Le16(s.detectRange)
    + [FlagByte(s.insValid), FlagByte(s.simOn), FlagByte(s.retracted), FlagByte(s.driving)]
  }

  /** Bytes 44..75: position and attitude. */
  function StatusPoseBytes(s: RadarStatus): (r: seq<byte>)
    ensures |r| == 32
  {
    Le64(s.longitude) + Le64(s.latitude) + Le32(s.altitude) + Le32(s.yaw) + Le32(s.pitch) + Le32(s.roll)
  }

  /** Bytes 76..136: the 8-, 21- and 32-byte reserved blocks. */
  function StatusInfoBytes(s: RadarStatus): (r: seq<byte>)
    requires WellFormed(s)
    ensures |r| == 61
  {
    s.reserved2_8 + s.verReserved_21 + s.infoReserved_32
  }

  /** Bytes 137..181: frequency, antenna power mode, and the antenna, channel
      and servo reserved blocks. */
  function StatusAntennaBytes(s: RadarStatus): (r: seq<byte>)
    requires WellFormed(s)
    ensures |r| == 45
  {
    Le32(s.freqGHz) + [s.antPowerMode] + s.antReserved_16 + s.chanReserved_8 + s.servoReserved_16
  }

  /** Bytes 182..199: silent zone, 12 reserved bytes, checksum. */
  function StatusTrailerBytes(s: RadarStatus): (r: seq<byte>)
    requires WellFormed(s)
    ensures |r| == 18
  {
    Le16(s.silentStart) + Le16(s.silentEnd) + s.reserved3_12 + Le16(s.checksum)
  }

  /** The 200 bytes a status record occupies on the wire. */
  function EncodeStatus(s: RadarStatus): (r: seq<byte>)
    requires WellFormed(s)
    ensures |r| == StatusMinLen
  {
    s.frameHead + StatusStateBytes(s) + StatusPoseBytes(s) + StatusInfoBytes(s)
    + StatusAntennaBytes(s) + StatusTrailerBytes(s)
  }

  lemma Sw24RoundTrip(v: u32, p: seq<byte>, off: nat)
    requires v < 0x100_0000
    requires off + 3 <= |p| && p[off..off + 3] == Sw24Bytes(v)
    ensures Sw24(p, off) == v
  {
    var q := p[off..off + 3];
    assert p[off] == q[0] && p[off + 1] == q[1] && p[off + 2] == q[2];
  }

  lemma StatusStateRoundTrip(s: RadarStatus, p: seq<byte>)
    requires s.swFault24 < 0x100_0000
    requires 44 <= |p| && p[32..44] == StatusStateBytes(s)
    ensures p[32] == s.hwFault && Sw24(p, 33) == s.swFault24
    ensures p[36] == s.workState && p[37] == s.reserved1 && RdU16(p, 38) == s.detectRange
    ensures (p[40] == 0x01) == s.insValid && (p[41] == 0x01) == s.simOn
    ensures (p[42] == 0x01) == s.retracted && (p[43] == 0x01) == s.driving
  {
    var f0, f1, f2, f3 := [s.hwFault], Sw24Bytes(s.swFault24), [s.workState, s.reserved1], Le16(s.detectRange);
    var f4 := [FlagByte(s.insValid), FlagByte(s.simOn), FlagByte(s.retracted), FlagByte(s.driving)];
    SliceSplit(p, 32, f0 + f1 + f2 + f3, f4);
    FaultFieldsRoundTrip(s, p);
    var q := p[40..44];
    assert p[40] == q[0] && p[41] == q[1] && p[42] == q[2] && p[43] == q[3];
  }

  lemma FaultFieldsRoundTrip(s: RadarStatus, p: seq<byte>)
    requires s.swFault24 < 0x100_0000
    requires 40 <= |p|
    requires p[32..40] == [s.hwFault] + Sw24Bytes(s.swFault24) + [s.workState, s.reserved1] + Le16(s.detectRange)
    ensures p[32] == s.hwFault && Sw24(p, 33) == s.swFault24
    ensures p[36] == s.workState && p[37] == s.reserved1 && RdU16(p, 38) == s.detectRange
  {
    var f0, f1, f2, f3 := [s.hwFault], Sw24Bytes(s.swFault24), [s.workState, s.reserved1], Le16(s.detectRange);
    SliceSplit(p, 32, f0 + f1 + f2, f3);
    SliceSplit(p, 32, f0 + f1, f2);
    SliceSplit(p, 32, f0, f1);
    assert p[32] == p[32..33][0];
    Sw24RoundTrip(s.swFault24, p, 33);
    assert p[36] == p[36..38][0] && p[37] == p[36..38][1];
    Le16Read(s.detectRange, p, 38);
  }

  lemma StatusPoseRoundTrip(s: RadarStatus, p: seq<byte>)
    requires 76 <= |p| && p[44..76] == StatusPoseBytes(s)
    ensures RdU64(p, 44) == s.longitude && RdU64(p, 52) == s.latitude && RdU32(p, 60) == s.altitude
    ensures RdU32(p, 64) == s.yaw && RdU32(p, 68) == s.pitch && RdU32(p, 72) == s.roll
  {
    var f0, f1, f2 := Le64(s.longitude), Le64(s.latitude), Le32(s.altitude);
    var f3, f4, f5 := Le32(s.yaw), Le32(s.pitch), Le32(s.roll);
    SliceSplit(p, 44, f0 + f1 + f2 + f3 + f4, f5);
    SliceSplit(p, 44, f0 + f1 + f2 + f3, f4);
    SliceSplit(p, 44, f0 + f1 + f2, f3);
    SliceSplit(p, 44, f0 + f1, f2);
    SliceSplit(p, 44, f0, f1);
    Le64Read(s.longitude, p, 44);
    Le64Read(s.latitude, p, 52);
    Le32Read(s.altitude, p, 60);
    Le32Read(s.yaw, p, 64);
    Le32Read(s.pitch, p, 68);
    Le32Read(s.roll, p, 72);
  }

  lemma StatusAntennaRoundTrip(s: RadarStatus, p: seq<byte>)
    requires WellFormed(s)
    requires 182 <= |p| && p[137..182] == StatusAntennaBytes(s)
    ensures RdU32(p, 137) == s.freqGHz && p[141] == s.antPowerMode
    ensures p[142..158] == s.antReserved_16 && p[158..166] == s.chanReserved_8 && p[166..182] == s.servoReserved_16
  {
    var f0, f1 := Le32(s.freqGHz), [s.antPowerMode];
    SliceSplit(p, 137, f0 + f1 + s.antReserved_16 + s.chanReserved_8, s.servoReserved_16);
    SliceSplit(p, 137, f0 + f1 + s.antReserved_16, s.chanReserved_8);
    SliceSplit(p, 137, f0 + f1, s.antReserved_16);
    SliceSplit(p, 137, f0, f1);
    Le32Read(s.freqGHz, p, 137);
    assert p[141] == p[141..142][0];
  }

  lemma StatusTrailerRoundTrip(s: RadarStatus, p: seq<byte>)
    requires WellFormed(s)
    requires 200 <= |p| && p[182..200] == StatusTrailerBytes(s)
    ensures RdU16(p, 182) == s.silentStart && RdU16(p, 184) == s.silentEnd
    ensures p[186..198] == s.reserved3_12 && RdU16(p, 198) == s.checksum
  {
    var f0, f1, f3 := Le16(s.silentStart), Le16(s.silentEnd), Le16(s.checksum);
    SliceSplit(p, 182, f0 + f1 + s.reserved3_12, f3);
    SliceSplit(p, 182, f0 + f1, s.reserved3_12);
    SliceSplit(p, 182, f0, f1);
    Le16Read(s.silentStart, p, 182);
    Le16Read(s.silentEnd, p, 184);
    Le16Read(s.checksum, p, 198);
  }

  /** Decoding inverts encoding: a payload whose first 200 bytes are the
      encoding of a well-formed record parses to that record, whatever
      follows. */
  lemma StatusRoundTrip(s: RadarStatus, p: seq<byte>)
    requires WellFormed(s)
    requires StatusMinLen <= |p| && p[..StatusMinLen] == EncodeStatus(s)
    ensures DecodeStatus(p) == s
  {
    var st, po, inf, ant, tr := StatusStateBytes(s), StatusPoseBytes(s), StatusInfoBytes(s),
                                StatusAntennaBytes(s), StatusTrailerBytes(s);
    assert p[0..StatusMinLen] == p[..StatusMinLen];
    SliceSplit(p, 0, s.frameHead + st + po + inf + ant, tr);
    SliceSplit(p, 0, s.frameHead + st + po + inf, ant);
    SliceSplit(p, 0, s.frameHead + st + po, inf);
    SliceSplit(p, 0, s.frameHead + st, po);
    SliceSplit(p, 0, s.frameHead, st);
    StatusStateRoundTrip(s, p);
    StatusPoseRoundTrip(s, p);
    SliceSplit(p, 76, s.reserved2_8 + s.verReserved_21, s.infoReserved_32);
    SliceSplit(p, 76, s.reserved2_8, s.verReserved_21);
    StatusAntennaRoundTrip(s, p);
    StatusTrailerRoundTrip(s, p);
  }

  /** Bytes from offset 200 on never influence the parsed record. */
  lemma StatusIgnoresTail(p: seq<byte>, q: seq<byte>)
    requires StatusMinLen <= |p| && StatusMinLen <= |q|
    requires p[..StatusMinLen] == q[..StatusMinLen]
    ensures DecodeStatus(p) == DecodeStatus(q)
  {
    StatusFieldsAgree(p, q);
  }

  /** Every field read of two buffers with the same first 200 bytes agrees. */
  lemma StatusFieldsAgree(p: seq<byte>, q: seq<byte>)
    requires StatusMinLen <= |p| && StatusMinLen <= |q|
    requires p[..StatusMinLen] == q[..StatusMinLen]
    ensures p[..32] == q[..32] && p[32] == q[32] && Sw24(p, 33) == Sw24(q, 33)
    ensures p[36] == q[36] && p[37] == q[37] && RdU16(p, 38) == RdU16(q, 38)
    ensures RdFlag(p, 40) == RdFlag(q, 40) && RdFlag(p, 41) == RdFlag(q, 41)
    ensures RdFlag(p, 42) == RdFlag(q, 42) && RdFlag(p, 43) == RdFlag(q, 43)
    ensures RdU64(p, 44) == RdU64(q, 44) && RdU64(p, 52) == RdU64(q, 52) && RdU32(p, 60) == RdU32(q, 60)
    ensures RdU32(p, 64) == RdU32(q, 64) && RdU32(p, 68) == RdU32(q, 68) && RdU32(p, 72) == RdU32(q, 72)
    ensures p[76..84] == q[76..84] && p[84..105] == q[84..105] && p[105..137] == q[105..137]
    ensures RdU32(p, 137) == RdU32(q, 137) && p[141] == q[141]
    ensures p[142..158] == q[142..158] && p[158..166] == q[158..166] && p[166..182] == q[166..182]
    ensures RdU16(p, 182) == RdU16(q, 182) && RdU16(p, 184) == RdU16(q, 184)
    ensures p[186..198] == q[186..198] && RdU16(p, 198) == RdU16(q, 198)
  {
    ReadsAgreeOnPrefix(p, q, StatusMinLen);
  }

  /** The four flag bytes as the parser leaves them: 0x01 or 0x00. */
  function NormalisedFlags(p: seq<byte>): (r: seq<byte>)
    requires 44 <= |p|
    ensures |r| == 4
  {
    [FlagByte(RdFlag(p, 40)), FlagByte(RdFlag(p, 41)), FlagByte(RdFlag(p, 42)), FlagByte(RdFlag(p, 43))]
  }

  lemma Sw24Captures(p: seq<byte>, off: nat)
    requires off + 3 <= |p|
    ensures Sw24Bytes(Sw24(p, off)) == p[off..off + 3]
  {
  }

  lemma StatusStateCaptures(p: seq<byte>)
    requires StatusMinLen <= |p|
    ensures StatusStateBytes(DecodeStatus(p)) == p[32..40] + NormalisedFlags(p)
  {
    var s := DecodeStatus(p);
    assert s.hwFault == p[32] && s.swFault24 == Sw24(p, 33) && s.workState == p[36] && s.reserved1 == p[37];
    assert s.detectRange == RdU16(p, 38);
    assert s.insValid == RdFlag(p, 40) && s.simOn == RdFlag(p, 41);
    assert s.retracted == RdFlag(p, 42) && s.driving == RdFlag(p, 43);
    FaultStateCaptures(p);
  }

  lemma FaultStateCaptures(p: seq<byte>)
    requires 40 <= |p|
    ensures [p[32]] + Sw24Bytes(Sw24(p, 33)) + [p[36], p[37]] + Le16(RdU16(p, 38)) == p[32..40]
  {
    Sw24Captures(p, 33);
    assert [p[32]] == p[32..33];
    assert [p[36], p[37]] == p[36..38];
    SliceJoin(p, 32, 33, 36);
    SliceJoin(p, 32, 36, 38);
    SliceJoin(p, 32, 38, 40);
  }

  lemma StatusPoseCaptures(p: seq<byte>)
    requires StatusMinLen <= |p|
    ensures StatusPoseBytes(DecodeStatus(p)) == p[44..76]
  {
    SliceJoin(p, 44, 52, 60);
    SliceJoin(p, 44, 60, 64);
    SliceJoin(p, 44, 64, 68);
    SliceJoin(p, 44, 68, 72);
    SliceJoin(p, 44, 72, 76);
  }

  lemma StatusTailCaptures(p: seq<byte>)
    requires StatusMinLen <= |p|
    ensures var s := DecodeStatus(p);
      StatusInfoBytes(s) + StatusAntennaBytes(s) + StatusTrailerBytes(s) == p[76..200]
  {
    var s := DecodeStatus(p);
    SliceJoin(p, 76, 84, 105);
    SliceJoin(p, 76, 105, 137);
    assert StatusInfoBytes(s) == p[76..137];
    assert [s.antPowerMode] == p[141..142];
    SliceJoin(p, 137, 141, 142);
    SliceJoin(p, 137, 142, 158);
    SliceJoin(p, 137, 158, 166);
    SliceJoin(p, 137, 166, 182);
    assert StatusAntennaBytes(s) == p[137..182];
    SliceJoin(p, 182, 184, 186);
    SliceJoin(p, 182, 186, 198);
    SliceJoin(p, 182, 198, 200);
    assert StatusTrailerBytes(s) == p[182..200];
    SliceJoin(p, 76, 137, 182);
    SliceJoin(p, 76, 182, 200);
  }

  /** Encoding the parsed record reproduces the 200 bytes the parser
      consumed, except that the four flag bytes come back as 0x01 or 0x00:
      each flag keeps only whether its byte was exactly 0x01. */
  lemma StatusCapturesAll(p: seq<byte>)
    requires StatusMinLen <= |p|
    ensures EncodeStatus(DecodeStatus(p)) == p[..40] + NormalisedFlags(p) + p[44..StatusMinLen]
  {
    var s := DecodeStatus(p);
    var flags := NormalisedFlags(p);
    var st, po, inf, ant, tr := StatusStateBytes(s), StatusPoseBytes(s), StatusInfoBytes(s),
                                StatusAntennaBytes(s), StatusTrailerBytes(s);
    StatusStateCaptures(p);
    StatusPoseCaptures(p);
    StatusTailCaptures(p);
    calc {
      EncodeStatus(s);
      p[..32] + st + po + inf + ant + tr;
      { AppendAssoc(p[..32] + st + po, inf, ant); AppendAssoc(p[..32] + st + po, inf + ant, tr); }
      p[..32] + st + po + (inf + ant + tr);
      p[..32] + (p[32..40] + flags) + p[44..76] + p[76..200];
      { AppendAssoc(p[..32], p[32..40], flags); SliceJoin(p, 0, 32, 40); }
      p[..40] + flags + p[44..76] + p[76..200];
      { AppendAssoc(p[..40] + flags, p[44..76], p[76..200]); SliceJoin(p, 44, 76, 200); }
      p[..40] + flags + p[44..200];
    }
  }

  // ---------------------------------------------------------------------
  // Text decoders
  // ---------------------------------------------------------------------

  const NoFault: string := "无故障"
  /** The hardware fault names, indexed by bit: antenna, servo, inertial
      navigation. */
  const HwFaultNames: seq<string> := ["天线异常", "伺服异常", "惯导异常"]
  const SwFaultPrefix: string := "软件故障bits:"

  /** Whether bit `i` of `v` is set (`v & (1u << i)`). */
  function Bit(v: u32, i: nat): bool
    requires i < 32
  {
    v & (1 << i) != 0
  }

  /** The indices below `n` of the bits set in `v`, in ascending order. */
  function SetBitIndices(v: u32, n: nat): (r: seq<nat>)
    requires n <= 32
    ensures forall k :: 0 <= k < |r| ==> r[k] < n
  {
    if n == 0 then [] else SetBitIndices(v, n - 1) + (if Bit(v, n - 1) then [n - 1] else [])
  }

  /** `SetBitIndices` lists exactly the set bits below `n`, each once, in
      strictly increasing order. */
  lemma {:induction false} SetBitIndicesExact(v: u32, n: nat)
    requires n <= 32
    ensures forall i: nat :: i in SetBitIndices(v, n) <==> i < n && Bit(v, i)
    ensures forall a, b :: 0 <= a < b < |SetBitIndices(v, n)| ==> SetBitIndices(v, n)[a] < SetBitIndices(v, n)[b]
  {
    if n > 0 {
      SetBitIndicesExact(v, n - 1);
      var prev := SetBitIndices(v, n - 1);
      var r := SetBitIndices(v, n);
      assert r == prev + (if Bit(v, n - 1) then [n - 1] else []);
      forall i: nat
        ensures i in r <==> i < n && Bit(v, i)
      {
        assert i in r <==> i in prev || (Bit(v, n - 1) && i == n - 1);
      }
    }
  }

  /** The hardware fault names in bit order, for the bits set among 0..2:
      at most three, and none exactly when those bits are clear. */
  function HwFaultItems(hw: byte): (r: seq<string>)
    ensures |r| <= 3
    ensures r == [] <==> hw & 0x07 == 0
  {
    (if hw & 0x01 != 0 then [HwFaultNames[0]] else [])
    + (if hw & 0x02 != 0 then [HwFaultNames[1]] else [])
    + (if hw & 0x04 != 0 then [HwFaultNames[2]] else [])
  }

  /** The text `hwFaultText` shows. */
  function HwFaultText(hw: byte): string
  {
    var items := HwFaultItems(hw);
    if items == [] then NoFault else Join(items, ',')
  }

  /** `RadarStatus::hwFaultText`: collect the names of the set bits, then
      join them or report no fault. */
  method FormatHwFault(hwFault: byte) returns (text: string)
    ensures text == HwFaultText(hwFault)
  {
    assert HwFaultNames == ["天线异常", "伺服异常", "惯导异常"];
    var items: seq<string> := [];
    if hwFault & 0x01 != 0 {
      items := items + ["天线异常"];
    }
    if hwFault & 0x02 != 0 {
      items := items + ["伺服异常"];
    }
    if hwFault & 0x04 != 0 {
      items := items + ["惯导异常"];
    }
    assert items == HwFaultItems(hwFault);
    text := if items == [] then "无故障" else Join(items, ',');
  }

  /** The listed names are those of the set bits among 0..2, in bit order. */
  lemma HwFaultItemsAreSetBits(hw: byte)
    ensures var bits := SetBitIndices(hw as u32, 3);
      HwFaultItems(hw) == seq(|bits|, k requires 0 <= k < |bits| => HwFaultNames[bits[k]])
  {
    var v := hw as u32;
    assert Bit(v, 0) == (hw & 0x01 != 0);
    assert Bit(v, 1) == (hw & 0x02 != 0);
    assert Bit(v, 2) == (hw & 0x04 != 0);
    assert SetBitIndices(v, 0) == [];
    var b1 := SetBitIndices(v, 1);
    var b2 := SetBitIndices(v, 2);
    assert b1 == (if Bit(v, 0) then [0] else []);
    assert b2 == b1 + (if Bit(v, 1) then [1] else []);
    assert SetBitIndices(v, 3) == b2 + (if Bit(v, 2) then [2] else []);
  }

  /** "无故障" exactly when none of bits 0..2 is set; higher bits never
      change the text. */
  lemma HwFaultTextNone(hw: byte)
    ensures HwFaultText(hw) == NoFault <==> hw & 0x07 == 0
    ensures HwFaultText(hw) == HwFaultText(hw & 0x07)
  {
    var items := HwFaultItems(hw);
    assert (hw & 0x07) & 0x01 == hw & 0x01 && (hw & 0x07) & 0x02 == hw & 0x02 && (hw & 0x07) & 0x04 == hw & 0x04;
    if items != [] {
      JoinStartsWithFirst(items, ',');
      assert Join(items, ',')[0] == items[0][0] != NoFault[0];
    }
  }

  /** The decimal text of each index. */
  function DecimalTexts(xs: seq<nat>): (r: seq<string>)
    ensures |r| == |xs| && forall k :: 0 <= k < |xs| ==> r[k] == NatToDecimal(xs[k])
  {
    seq(|xs|, k requires 0 <= k < |xs| => NatToDecimal(xs[k]))
  }

  /** The text `swFaultText` shows. */
  function SwFaultText(v: u32): string
  {
    if v == 0 then NoFault else SwFaultPrefix + Join(DecimalTexts(SetBitIndices(v, 24)), ',')
  }

  /** `RadarStatus::swFaultText`: list the indices of the set bits among
      0..23. */
  method FormatSwFault(swFault24: u32) returns (text: string)
    ensures text == SwFaultText(swFault24)
  {
    if swFault24 == 0 {
      return "无故障";
    }
    var bits: seq<string> := [];
    var i := 0;
    while i < 24
      invariant 0 <= i <= 24
      invariant bits == DecimalTexts(SetBitIndices(swFault24, i))
    {
      if swFault24 & (1 << i) != 0 {
        bits := bits + [NatToDecimal(i)];
      }
      i := i + 1;
    }
    text := "软件故障bits:" + Join(bits, ',');
  }

  /** "无故障" exactly when the code is zero. */
  lemma SwFaultTextNone(v: u32)
    ensures SwFaultText(v) == NoFault <==> v == 0
  {
    if v != 0 {
      assert SwFaultText(v)[0] == SwFaultPrefix[0] != NoFault[0];
    }
  }

  /** For a code the parser can produce (below 2^24), a nonzero code always
      lists at least one bit, so the prefix is never followed by nothing. */
  lemma SwFaultListsSomeBit(v: u32)
    requires v != 0 && v < 0x100_0000
    ensures SetBitIndices(v, 24) != []
  {
    SetBitIndicesExact(v, 24);
    assert v & 0xFF_FFFF == v;
    if SetBitIndices(v, 24) == [] {
      LowBitsClear(v);
    }
  }

  /** With none of bits 0..23 set, the low 24 bits are zero. */
  lemma LowBitsClear(v: u32)
    requires forall i: nat :: i < 24 ==> !Bit(v, i)
    ensures v & 0xFF_FFFF == 0
  {
    assert !Bit(v, 0) && !Bit(v, 1) && !Bit(v, 2) && !Bit(v, 3) && !Bit(v, 4) && !Bit(v, 5) && !Bit(v, 6) && !Bit(v, 7);
    assert !Bit(v, 8) && !Bit(v, 9) && !Bit(v, 10) && !Bit(v, 11) && !Bit(v, 12) && !Bit(v, 13) && !Bit(v, 14) && !Bit(v, 15);
    assert !Bit(v, 16) && !Bit(v, 17) && !Bit(v, 18) && !Bit(v, 19) && !Bit(v, 20) && !Bit(v, 21) && !Bit(v, 22) && !Bit(v, 23);
  }

  /** `workStateText`: the state number, in decimal, after "状态". */
  function WorkStateText(workState: byte): (text: string)
    ensures |text| >= 3 && text[..2] == "状态"
    ensures forall k :: 0 <= k < |text[2..]| ==> IsDigit(text[2..][k])
    ensures DecimalValue(text[2..]) == workState as nat
  {
    DecimalRoundTrip(workState as nat);
    assert ("状态" + NatToDecimal(workState as nat))[2..] == NatToDecimal(workState as nat);
    "状态" + NatToDecimal(workState as nat)
  }

  /** `antPowerModeText`: four named modes, anything else "未知(n)". */
  function AntPowerModeText(mode: byte): string
  {
    match mode
    case 0 => "待机"
    case 1 => "只接收加电"
    case 2 => "只发射加电"
    case 3 => "收发均加电"
    case _ => "未知(" + NatToDecimal(mode as nat) + ")"
  }

  /** Reads a mode back from its text: one of the four names, or "未知(",
      decimal digits and ")". Anything else reads as -1. */
  function ModeOfText(text: string): int
  {
    if text == "待机" then 0
    else if text == "只接收加电" then 1
    else if text == "只发射加电" then 2
    else if text == "收发均加电" then 3
    else if |text| >= 5 && text[..3] == "未知(" && text[|text| - 1] == ')'
            && forall k :: 3 <= k < |text| - 1 ==> IsDigit(text[k])
    then DecimalValue(text[3..|text| - 1])
    else -1
  }

  /** Every mode, named or not, can be read back from its text. */
  lemma AntPowerModeTextRoundTrip(mode: byte)
    ensures ModeOfText(AntPowerModeText(mode)) == mode as int
  {
    if mode < 4 {
      NamedModesRoundTrip();
    } else {
      UnknownModeRoundTrip(mode);
    }
  }

  lemma NamedModesRoundTrip()
    ensures ModeOfText(AntPowerModeText(0)) == 0 && ModeOfText(AntPowerModeText(1)) == 1
    ensures ModeOfText(AntPowerModeText(2)) == 2 && ModeOfText(AntPowerModeText(3)) == 3
  {
  }

  lemma UnknownModeRoundTrip(mode: byte)
    requires mode >= 4
    ensures ModeOfText(AntPowerModeText(mode)) == mode as int
  {
    var t := AntPowerModeText(mode);
    var d := NatToDecimal(mode as nat);
    UnknownModeText(mode);
    assert t[0] == '未';
    forall k | 3 <= k < |t| - 1
      ensures IsDigit(t[k])
    {
      assert t[k] == t[3..|t| - 1][k - 3] == d[k - 3];
    }
    DecimalRoundTrip(mode as nat);
  }

  /** Different modes give different texts, so the text identifies the
      mode, including every out-of-range value. */
  lemma AntPowerModeTextInjective(a: byte, b: byte)
    requires AntPowerModeText(a) == AntPowerModeText(b)
    ensures a == b
  {
    AntPowerModeTextRoundTrip(a);
    AntPowerModeTextRoundTrip(b);
  }

  lemma UnknownModeText(m: byte)
    requires m >= 4
    ensures var t := AntPowerModeText(m);
      |t| >= 5 && t[..3] == "未知(" && t[|t| - 1] == ')' && t[3..|t| - 1] == NatToDecimal(m as nat)
  {
    var t := "未知(" + NatToDecimal(m as nat) + ")";
    assert AntPowerModeText(m) == t;
    assert t[..3] == "未知(";
    assert t[3..|t| - 1] == NatToDecimal(m as nat);
  }
}
