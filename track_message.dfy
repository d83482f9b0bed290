/** The inbound "radar track" message (src/TrackMessage.h,
    src/TrackMessage.cpp): a 32-byte frame header, the radar's own position,
    exactly one track record, 16 reserved bytes and a 2-byte checksum that is
    carried but never verified. Float and double fields are their raw
    little-endian bit patterns. */
module TrackMessage {
  import opened Bytes

  /** `TrackInfo`: one track record. */
  datatype TrackInfo = TrackInfo(
    trackId: u16,
    tgtLon: u64,
    tgtLat: u64,
    tgtAlt: u32,
    distance: u32,
    azimuth: u32,
    elevation: u32,
    speed: u32,
    course: u32,
    strength: u32,
    reserved4: seq<byte>,
    targetType: byte,
    targetSize: byte,
    pointType: byte,
    trackType: byte,
    lostCount: byte,
    quality: byte,
    rawDistance: u32,
    rawAzimuth: u32,
    rawElevation: u32,
    reserved3: seq<byte>)

  /** `TrackMessage`: the whole decoded datagram. */
  datatype TrackMessage = TrackMessage(
    frameHead: seq<byte>,
    insValid: bool,
    radarLon: u64,
    radarLat: u64,
    radarAlt: u32,
    info: TrackInfo,
    reserved16: seq<byte>,
    checksum: u16)

  /** The value-initialised records (`TrackInfo{}`, `TrackMessage{}`): all
      numbers zero, the fixed arrays zero-filled, the header empty. */
  const DefaultTrackInfo := TrackInfo(0, 0, 0, 0, 0, 0, 0, 0, 0, 0, Zeros(4), 0, 0, 0, 0, 0, 0, 0, 0, 0, Zeros(3))
  const DefaultTrackMessage := TrackMessage([], false, 0, 0, 0, DefaultTrackInfo, Zeros(16), 0)

  /** The length guard exactly as the source writes it. It has nine 4-byte
      terms where the fields read need eight, so it adds up to 146. */
  const TrackGuardLen := 32 + 1 + 8 + 8 + 4 + 2 + 8 + 8 + 4 + 4 + 4 + 4 + 4 + 4 + 4 + 4 + 4
                         + 1 + 1 + 1 + 1 + 1 + 1 + 4 + 4 + 4 + 3 + 16 + 2

  /** The bytes the parser actually consumes. */
  const TrackLayoutLen := 142
  /** Where the track record starts, and its length. */
  const TrackInfoAt := 53
  const TrackInfoLen := 71

  /** The fixed-size parts of a message have the sizes the record layout
      declares: a 32-byte header and reserved arrays of 4, 3 and 16 bytes. */
  ghost predicate WellFormed(m: TrackMessage)
  {
    |m.frameHead| == 32 && |m.info.reserved4| == 4 && |m.info.reserved3| == 3 && |m.reserved16| == 16
  }

  // ---------------------------------------------------------------------
  // The decoded value, field by field at its absolute offset
  // ---------------------------------------------------------------------

  /** The track record read from `p` starting at offset `at`, its fields in
      declaration order. */
  function DecodeTrackInfo(p: seq<byte>, at: nat): TrackInfo
    requires at + TrackInfoLen <= |p|
  {
    TrackInfo(
      trackId := RdU16(p, at),
      tgtLon := RdU64(p, at + 2),
      tgtLat := RdU64(p, at + 10),
      tgtAlt := RdU32(p, at + 18),
      distance := RdU32(p, at + 22),
      azimuth := RdU32(p, at + 26),
      elevation := RdU32(p, at + 30),
      speed := RdU32(p, at + 34),
      course := RdU32(p, at + 38),
      strength := RdU32(p, at + 42),
      reserved4 := p[at + 46..at + 50],
      targetType := p[at + 50],
      targetSize := p[at + 51],
      pointType := p[at + 52],
      trackType := p[at + 53],
      lostCount := p[at + 54],
      quality := p[at + 55],
      rawDistance := RdU32(p, at + 56),
      rawAzimuth := RdU32(p, at + 60),
      rawElevation := RdU32(p, at + 64),
      reserved3 := p[at + 68..at + 71])
  }

  /** The message the parser produces from payload `p`. The requires clause
      is the claim that every read lies in bytes 0..141. */
  function DecodeTrack(p: seq<byte>): (m: TrackMessage)
    requires |p| >= TrackLayoutLen
    ensures WellFormed(m)
  {
    TrackMessage(
      frameHead := p[..32],
      insValid := p[32] == 0x01,
      radarLon := RdU64(p, 33),
      radarLat := RdU64(p, 41),
      radarAlt := RdU32(p, 49),
      info := DecodeTrackInfo(p, TrackInfoAt),
      reserved16 := p[124..140],
      checksum := RdU16(p, 140))
  }

  // ---------------------------------------------------------------------
  // The parser
  // ---------------------------------------------------------------------

  /** `TrackParser::parseLittleEndian`. `out` is passed in and the value it
      holds afterwards is returned as `result`. A payload shorter than the
      guard is refused before `out` is touched; any longer payload is
      accepted, with no range, magic or checksum check. */
  method ParseTrack(payload: seq<byte>, out: TrackMessage) returns (ok: bool, result: TrackMessage)
    ensures ok <==> |payload| >= TrackGuardLen
    ensures !ok ==> result == out
    ensures ok ==> result == DecodeTrack(payload)
  {
    if |payload| < 32 + 1 + 8 + 8 + 4 + 2 + 8 + 8 + 4 + 4 + 4 + 4 + 4 + 4 + 4 + 4 + 4
                   + 1 + 1 + 1 + 1 + 1 + 1 + 4 + 4 + 4 + 3 + 16 + 2 {
      return false, out;
    }
    var p := payload;
    var off := 0;

    var frameHead := p[..32];
    off := off + 32;

    var insValid := p[off] == 0x01;
    off := off + 1;
    var radarLon := RdU64(p, off);
    off := off + 8;
    var radarLat := RdU64(p, off);
    off := off + 8;
    var radarAlt := RdU32(p, off);
    off := off + 4;

    assert off == TrackInfoAt;
    var ti := ReadTrackInfo(p, off);
    off := off + TrackInfoLen;

    var reserved16 := p[off..off + 16];
    off := off + 16;
    var checksum := RdU16(p, off);
    off := off + 2;

    result := TrackMessage(frameHead, insValid, radarLon, radarLat, radarAlt, ti, reserved16, checksum);
    assert result == DecodeTrack(p);
    ok := true;
  }

  /** The `TrackInfo ti{}` block of the parser: the cursor starts at the
      record and advances through its fields in declaration order. */
  method ReadTrackInfo(p: seq<byte>, start: nat) returns (ti: TrackInfo)
    requires start + TrackInfoLen <= |p|
    ensures ti == DecodeTrackInfo(p, start)
  {
    var off := start;
    var trackId := RdU16(p, off);
    off := off + 2;
    var tgtLon := RdU64(p, off);
    off := off + 8;
    var tgtLat := RdU64(p, off);
    off := off + 8;
    var tgtAlt := RdU32(p, off);
    off := off + 4;
    var distance := RdU32(p, off);
    off := off + 4;
    var azimuth := RdU32(p, off);
    off := off + 4;
    var elevation := RdU32(p, off);
    off := off + 4;
    var speed := RdU32(p, off);
    off := off + 4;
    var course := RdU32(p, off);
    off := off + 4;
    var strength := RdU32(p, off);
    off := off + 4;

    var reserved4 := p[off..off + 4];
    off := off + 4;

    var targetType := p[off];
    off := off + 1;
    var targetSize := p[off];
    off := off + 1;
    var pointType := p[off];
    off := off + 1;
    var trackType := p[off];
    off := off + 1;
    var lostCount := p[off];
    off := off + 1;
    var quality := p[off];
    off := off + 1;

    var rawDistance := RdU32(p, off);
    off := off + 4;
    var rawAzimuth := RdU32(p, off);
    off := off + 4;
    var rawElevation := RdU32(p, off);
    off := off + 4;
    var reserved3 := p[off..off + 3];
    ti := TrackInfo(trackId, tgtLon, tgtLat, tgtAlt, distance, azimuth, elevation, speed, course, strength,
                    reserved4, targetType, targetSize, pointType, trackType, lostCount, quality,
                    rawDistance, rawAzimuth, rawElevation, reserved3);
  }

  // ---------------------------------------------------------------------
  // The record layout as a byte sequence, and what the parser makes of it
  // ---------------------------------------------------------------------

  /** Bytes 0..21 of a track record: id and target position. */
  function TrackPositionBytes(ti: TrackInfo): (r: seq<byte>)
    ensures |r| == 22
  {
    Le16(ti.trackId) + Le64(ti.tgtLon) + Le64(ti.tgtLat) + Le32(ti.tgtAlt)
  }

  /** Bytes 22..45: the six polar and motion measurements. */
  function TrackMotionBytes(ti: TrackInfo): (r: seq<byte>)
    ensures |r| == 24
  {
    Le32(ti.distance) + Le32(ti.azimuth) + Le32(ti.elevation) + Le32(ti.speed)
    + Le32(ti.course) + Le32(ti.strength)
  }

  /** Bytes 46..55: four reserved bytes, then the six one-byte attributes. */
  function TrackClassBytes(ti: TrackInfo): (r: seq<byte>)
    requires |ti.reserved4| == 4
    ensures |r| == 10
  {
    ti.reserved4 + [ti.targetType, ti.targetSize, ti.pointType, ti.trackType, ti.lostCount, ti.quality]
  }

  /** Bytes 56..70: the raw measurements and three reserved bytes. */
  function TrackRawBytes(ti: TrackInfo): (r: seq<byte>)
    requires |ti.reserved3| == 3
    ensures |r| == 15
  {
    Le32(ti.rawDistance) + Le32(ti.rawAzimuth) + Le32(ti.rawElevation) + ti.reserved3
  }

  /** The 71 bytes of a track record in the order `TrackInfo` declares its
      fields, each little-endian. */
  function EncodeTrackInfo(ti: TrackInfo): (r: seq<byte>)
    requires |ti.reserved4| == 4 && |ti.reserved3| == 3
    ensures |r| == TrackInfoLen
  {
    TrackPositionBytes(ti) + TrackMotionBytes(ti) + TrackClassBytes(ti) + TrackRawBytes(ti)
  }

  lemma TrackPositionRoundTrip(ti: TrackInfo, p: seq<byte>, at: nat)
    requires at + 22 <= |p| && p[at..at + 22] == TrackPositionBytes(ti)
    ensures RdU16(p, at) == ti.trackId && RdU64(p, at + 2) == ti.tgtLon
    ensures RdU64(p, at + 10) == ti.tgtLat && RdU32(p, at + 18) == ti.tgtAlt
  {
    var f1, f2, f3, f4 := Le16(ti.trackId), Le64(ti.tgtLon), Le64(ti.tgtLat), Le32(ti.tgtAlt);
    SliceSplit(p, at, f1 + f2 + f3, f4);
    SliceSplit(p, at, f1 + f2, f3);
    SliceSplit(p, at, f1, f2);
    Le16Read(ti.trackId, p, at);
    Le64Read(ti.tgtLon, p, at + 2);
    Le64Read(ti.tgtLat, p, at + 10);
    Le32Read(ti.tgtAlt, p, at + 18);
  }

  lemma TrackMotionRoundTrip(ti: TrackInfo, p: seq<byte>, at: nat)
    requires at + 24 <= |p| && p[at..at + 24] == TrackMotionBytes(ti)
    ensures RdU32(p, at) == ti.distance && RdU32(p, at + 4) == ti.azimuth
    ensures RdU32(p, at + 8) == ti.elevation && RdU32(p, at + 12) == ti.speed
    ensures RdU32(p, at + 16) == ti.course && RdU32(p, at + 20) == ti.strength
  {
    var f1, f2, f3 := Le32(ti.distance), Le32(ti.azimuth), Le32(ti.elevation);
    var f4, f5, f6 := Le32(ti.speed), Le32(ti.course), Le32(ti.strength);
    SliceSplit(p, at, f1 + f2 + f3 + f4 + f5, f6);
    SliceSplit(p, at, f1 + f2 + f3 + f4, f5);
    SliceSplit(p, at, f1 + f2 + f3, f4);
    SliceSplit(p, at, f1 + f2, f3);
    SliceSplit(p, at, f1, f2);
    Le32Read(ti.distance, p, at);
    Le32Read(ti.azimuth, p, at + 4);
    Le32Read(ti.elevation, p, at + 8);
    Le32Read(ti.speed, p, at + 12);
    Le32Read(ti.course, p, at + 16);
    Le32Read(ti.strength, p, at + 20);
  }

  lemma TrackClassRoundTrip(ti: TrackInfo, p: seq<byte>, at: nat)
    requires |ti.reserved4| == 4
    requires at + 10 <= |p| && p[at..at + 10] == TrackClassBytes(ti)
    ensures p[at..at + 4] == ti.reserved4
    ensures p[at + 4] == ti.targetType && p[at + 5] == ti.targetSize && p[at + 6] == ti.pointType
    ensures p[at + 7] == ti.trackType && p[at + 8] == ti.lostCount && p[at + 9] == ti.quality
  {
    var attrs := [ti.targetType, ti.targetSize, ti.pointType, ti.trackType, ti.lostCount, ti.quality];
    SliceSplit(p, at, ti.reserved4, attrs);
    var s := p[at + 4..at + 10];
    assert p[at + 4] == s[0] && p[at + 5] == s[1] && p[at + 6] == s[2];
    assert p[at + 7] == s[3] && p[at + 8] == s[4] && p[at + 9] == s[5];
  }

  lemma TrackRawRoundTrip(ti: TrackInfo, p: seq<byte>, at: nat)
    requires |ti.reserved3| == 3
    requires at + 15 <= |p| && p[at..at + 15] == TrackRawBytes(ti)
    ensures RdU32(p, at) == ti.rawDistance && RdU32(p, at + 4) == ti.rawAzimuth
    ensures RdU32(p, at + 8) == ti.rawElevation && p[at + 12..at + 15] == ti.reserved3
  {
    var f1, f2, f3 := Le32(ti.rawDistance), Le32(ti.rawAzimuth), Le32(ti.rawElevation);
    SliceSplit(p, at, f1 + f2 + f3, ti.reserved3);
    SliceSplit(p, at, f1 + f2, f3);
    SliceSplit(p, at, f1, f2);
    Le32Read(ti.rawDistance, p, at);
    Le32Read(ti.rawAzimuth, p, at + 4);
    Le32Read(ti.rawElevation, p, at + 8);
  }

  /** Reading a track record back from its encoding, wherever it sits,
      gives the record. */
  lemma TrackInfoRoundTrip(ti: TrackInfo, p: seq<byte>, at: nat)
    requires |ti.reserved4| == 4 && |ti.reserved3| == 3
    requires at + TrackInfoLen <= |p| && p[at..at + TrackInfoLen] == EncodeTrackInfo(ti)
    ensures DecodeTrackInfo(p, at) == ti
  {
    var pos, mot, cls, raw := TrackPositionBytes(ti), TrackMotionBytes(ti), TrackClassBytes(ti), TrackRawBytes(ti);
    SliceSplit(p, at, pos + mot + cls, raw);
    SliceSplit(p, at, pos + mot, cls);
    SliceSplit(p, at, pos, mot);
    TrackPositionRoundTrip(ti, p, at);
    TrackMotionRoundTrip(ti, p, at + 22);
    TrackClassRoundTrip(ti, p, at + 46);
    TrackRawRoundTrip(ti, p, at + 56);
  }

  /** Bytes 0..52 of a track message: header, INS flag, radar position. */
  function TrackPrefixBytes(m: TrackMessage): (r: seq<byte>)
    requires |m.frameHead| == 32
    ensures |r| == TrackInfoAt
  {
    m.frameHead + [FlagByte(m.insValid)] + Le64(m.radarLon) + Le64(m.radarLat) + Le32(m.radarAlt)
  }

  /** The 142 bytes a message occupies on the wire, in declaration order. */
  function EncodeTrack(m: TrackMessage): (r: seq<byte>)
    requires WellFormed(m)
    ensures |r| == TrackLayoutLen
  {
    TrackPrefixBytes(m) + EncodeTrackInfo(m.info) + m.reserved16 + Le16(m.checksum)
  }

  lemma TrackPrefixRoundTrip(m: TrackMessage, p: seq<byte>)
    requires |m.frameHead| == 32
    requires TrackInfoAt <= |p| && p[0..TrackInfoAt] == TrackPrefixBytes(m)
    ensures p[..32] == m.frameHead && (p[32] == 0x01) == m.insValid
    ensures RdU64(p, 33) == m.radarLon && RdU64(p, 41) == m.radarLat && RdU32(p, 49) == m.radarAlt
  {
    var f0, f1, f2, f3, f4 := m.frameHead, [FlagByte(m.insValid)], Le64(m.radarLon), Le64(m.radarLat), Le32(m.radarAlt);
    SliceSplit(p, 0, f0 + f1 + f2 + f3, f4);
    SliceSplit(p, 0, f0 + f1 + f2, f3);
    SliceSplit(p, 0, f0 + f1, f2);
    SliceSplit(p, 0, f0, f1);
    assert p[32] == p[32..33][0];
    Le64Read(m.radarLon, p, 33);
    Le64Read(m.radarLat, p, 41);
    Le32Read(m.radarAlt, p, 49);
  }

  /** Decoding inverts encoding: a payload whose first 142 bytes are the
      encoding of a well-formed message parses to that message, whatever
      follows. */
  lemma TrackRoundTrip(m: TrackMessage, p: seq<byte>)
    requires WellFormed(m)
    requires TrackLayoutLen <= |p| && p[..TrackLayoutLen] == EncodeTrack(m)
    ensures DecodeTrack(p) == m
  {
    var pre, inf, res, ck := TrackPrefixBytes(m), EncodeTrackInfo(m.info), m.reserved16, Le16(m.checksum);
    assert p[0..TrackLayoutLen] == p[..TrackLayoutLen];
    SliceSplit(p, 0, pre + inf + res, ck);
    SliceSplit(p, 0, pre + inf, res);
    SliceSplit(p, 0, pre, inf);
    TrackPrefixRoundTrip(m, p);
    TrackInfoRoundTrip(m.info, p, TrackInfoAt);
    Le16Read(m.checksum, p, 140);
  }

  /** Encoding the decoded record reproduces the 71 bytes it was read from:
      no byte of the record is skipped or read twice. */
  lemma TrackInfoCapturesAll(p: seq<byte>, at: nat)
    requires at + TrackInfoLen <= |p|
    ensures var ti := DecodeTrackInfo(p, at);
      |ti.reserved4| == 4 && |ti.reserved3| == 3 && EncodeTrackInfo(ti) == p[at..at + TrackInfoLen]
  {
    var ti := DecodeTrackInfo(p, at);
    assert ti.trackId == RdU16(p, at) && ti.tgtLon == RdU64(p, at + 2);
    assert ti.tgtLat == RdU64(p, at + 10) && ti.tgtAlt == RdU32(p, at + 18);
    PositionCaptures(ti, p, at);
    assert ti.distance == RdU32(p, at + 22) && ti.azimuth == RdU32(p, at + 26);
    assert ti.elevation == RdU32(p, at + 30) && ti.speed == RdU32(p, at + 34);
    assert ti.course == RdU32(p, at + 38) && ti.strength == RdU32(p, at + 42);
    MotionCaptures(ti, p, at + 22);
    assert ti.reserved4 == p[at + 46..at + 50];
    assert ti.targetType == p[at + 50] && ti.targetSize == p[at + 51] && ti.pointType == p[at + 52];
    assert ti.trackType == p[at + 53] && ti.lostCount == p[at + 54] && ti.quality == p[at + 55];
    ClassCaptures(ti, p, at + 46);
    assert ti.rawDistance == RdU32(p, at + 56) && ti.rawAzimuth == RdU32(p, at + 60);
    assert ti.rawElevation == RdU32(p, at + 64) && ti.reserved3 == p[at + 68..at + 71];
    RawCaptures(ti, p, at + 56);
    SliceJoin(p, at, at + 22, at + 46);
    SliceJoin(p, at, at + 46, at + 56);
    SliceJoin(p, at, at + 56, at + 71);
  }

  lemma PositionCaptures(ti: TrackInfo, p: seq<byte>, at: nat)
    requires at + 22 <= |p|
    requires ti.trackId == RdU16(p, at) && ti.tgtLon == RdU64(p, at + 2)
    requires ti.tgtLat == RdU64(p, at + 10) && ti.tgtAlt == RdU32(p, at + 18)
    ensures TrackPositionBytes(ti) == p[at..at + 22]
  {
    SliceJoin(p, at, at + 2, at + 10);
    SliceJoin(p, at, at + 10, at + 18);
    SliceJoin(p, at, at + 18, at + 22);
  }

  lemma MotionCaptures(ti: TrackInfo, p: seq<byte>, at: nat)
    requires at + 24 <= |p|
    requires ti.distance == RdU32(p, at) && ti.azimuth == RdU32(p, at + 4)
    requires ti.elevation == RdU32(p, at + 8) && ti.speed == RdU32(p, at + 12)
    requires ti.course == RdU32(p, at + 16) && ti.strength == RdU32(p, at + 20)
    ensures TrackMotionBytes(ti) == p[at..at + 24]
  {
    SliceJoin(p, at, at + 4, at + 8);
    SliceJoin(p, at, at + 8, at + 12);
    SliceJoin(p, at, at + 12, at + 16);
    SliceJoin(p, at, at + 16, at + 20);
    SliceJoin(p, at, at + 20, at + 24);
  }

  lemma ClassCaptures(ti: TrackInfo, p: seq<byte>, at: nat)
    requires at + 10 <= |p|
    requires ti.reserved4 == p[at..at + 4]
    requires ti.targetType == p[at + 4] && ti.targetSize == p[at + 5] && ti.pointType == p[at + 6]
    requires ti.trackType == p[at + 7] && ti.lostCount == p[at + 8] && ti.quality == p[at + 9]
    ensures TrackClassBytes(ti) == p[at..at + 10]
  {
    assert p[at + 4..at + 10] == [p[at + 4], p[at + 5], p[at + 6], p[at + 7], p[at + 8], p[at + 9]];
    SliceJoin(p, at, at + 4, at + 10);
  }

  lemma RawCaptures(ti: TrackInfo, p: seq<byte>, at: nat)
    requires at + 15 <= |p|
    requires ti.rawDistance == RdU32(p, at) && ti.rawAzimuth == RdU32(p, at + 4)
    requires ti.rawElevation == RdU32(p, at + 8) && ti.reserved3 == p[at + 12..at + 15]
    ensures TrackRawBytes(ti) == p[at..at + 15]
  {
    SliceJoin(p, at, at + 4, at + 8);
    SliceJoin(p, at, at + 8, at + 12);
    SliceJoin(p, at, at + 12, at + 15);
  }

  /** The first 53 bytes, re-encoded from the parsed message. */
  lemma TrackPrefixCaptures(p: seq<byte>)
    requires TrackLayoutLen <= |p|
    ensures TrackPrefixBytes(DecodeTrack(p)) == p[..32] + [FlagByte(p[32] == 0x01)] + p[33..53]
  {
    var m := DecodeTrack(p);
    var flag := [FlagByte(m.insValid)];
    SliceJoin(p, 33, 41, 49);
    SliceJoin(p, 33, 49, 53);
    calc {
      TrackPrefixBytes(m);
      p[..32] + flag + p[33..41] + p[41..49] + p[49..53];
      p[..32] + flag + (p[33..41] + p[41..49] + p[49..53]);
      p[..32] + flag + p[33..53];
    }
  }

  /** Encoding the parsed message reproduces the 142 bytes the parser
      consumed, except that the INS flag byte comes back as 0x01 or 0x00:
      `insValid` keeps only whether byte 32 was exactly 0x01. */
  lemma TrackCapturesAll(p: seq<byte>)
    requires TrackLayoutLen <= |p|
    ensures EncodeTrack(DecodeTrack(p)) == p[..32] + [FlagByte(p[32] == 0x01)] + p[33..TrackLayoutLen]
  {
    var m := DecodeTrack(p);
    var head := p[..32] + [FlagByte(m.insValid)];
    var pre, inf, res, ck := TrackPrefixBytes(m), EncodeTrackInfo(m.info), m.reserved16, Le16(m.checksum);
    assert EncodeTrack(m) == pre + inf + res + ck;
    TrackPrefixCaptures(p);
    assert pre == head + p[33..53];
    TrackInfoCapturesAll(p, TrackInfoAt);
    assert inf == p[53..124];
    assert res == p[124..140];
    assert ck == p[140..142];
    calc {
      pre + inf + res + ck;
      head + p[33..53] + p[53..124] + res + ck;
      { SliceJoin(p, 33, 53, 124); AppendAssoc(head, p[33..53], p[53..124]); }
      head + p[33..124] + p[124..140] + ck;
      { SliceJoin(p, 33, 124, 140); AppendAssoc(head, p[33..124], p[124..140]); }
      head + p[33..140] + p[140..142];
      { SliceJoin(p, 33, 140, 142); AppendAssoc(head, p[33..140], p[140..142]); }
      head + p[33..142];
    }
  }

  /** Bytes from offset 142 on never influence the parsed message. */
  lemma TrackIgnoresTail(p: seq<byte>, q: seq<byte>)
    requires TrackLayoutLen <= |p| && TrackLayoutLen <= |q|
    requires p[..TrackLayoutLen] == q[..TrackLayoutLen]
    ensures DecodeTrack(p) == DecodeTrack(q)
  {
    TrackHeadAgrees(p, q);
    TrackInfoAgrees(p, q);
  }

  /** The fields around the track record read from two buffers with the
      same first 142 bytes. */
  lemma TrackHeadAgrees(p: seq<byte>, q: seq<byte>)
    requires TrackLayoutLen <= |p| && TrackLayoutLen <= |q|
    requires p[..TrackLayoutLen] == q[..TrackLayoutLen]
    ensures p[..32] == q[..32] && p[32] == q[32]
    ensures RdU64(p, 33) == RdU64(q, 33) && RdU64(p, 41) == RdU64(q, 41) && RdU32(p, 49) == RdU32(q, 49)
    ensures p[124..140] == q[124..140] && RdU16(p, 140) == RdU16(q, 140)
  {
    ReadsAgreeOnPrefix(p, q, TrackLayoutLen);
  }

  /** The track record read from two buffers with the same first 142 bytes. */
  lemma TrackInfoAgrees(p: seq<byte>, q: seq<byte>)
    requires TrackLayoutLen <= |p| && TrackLayoutLen <= |q|
    requires p[..TrackLayoutLen] == q[..TrackLayoutLen]
    ensures DecodeTrackInfo(p, TrackInfoAt) == DecodeTrackInfo(q, TrackInfoAt)
  {
    ReadsAgreeOnPrefix(p, q, TrackLayoutLen);
    assert p[99..103] == q[99..103];
    assert p[121..124] == q[121..124];
  }

  // ---------------------------------------------------------------------
  // The wire layout, from the widths of the encoder's parts
  // ---------------------------------------------------------------------

  /** The four parts of a message sit back to back: prefix 0..52, record
      53..123, reserved16 124..139, checksum 140..141. */
  lemma TrackParts(m: TrackMessage)
    requires WellFormed(m)
    ensures var e := EncodeTrack(m);
      && e[0..53] == TrackPrefixBytes(m) && e[53..124] == EncodeTrackInfo(m.info)
      && e[124..140] == m.reserved16 && e[140..142] == Le16(m.checksum)
  {
    var e, pre, info := EncodeTrack(m), TrackPrefixBytes(m), EncodeTrackInfo(m.info);
    assert e[0..142] == e;
    SliceSplit(e, 0, pre + info + m.reserved16, Le16(m.checksum));
    SliceSplit(e, 0, pre + info, m.reserved16);
    SliceSplit(e, 0, pre, info);
  }

  /** Bytes 0..52 of a message: header 0..31, INS flag 32, radar longitude
      33..40, latitude 41..48, altitude 49..52. */
  lemma TrackPrefixLayout(m: TrackMessage)
    requires WellFormed(m)
    ensures var e := EncodeTrack(m);
      && e[..32] == m.frameHead && e[32] == FlagByte(m.insValid)
      && e[33..41] == Le64(m.radarLon) && e[41..49] == Le64(m.radarLat)
      && e[49..53] == Le32(m.radarAlt)
  {
    var e, flag := EncodeTrack(m), [FlagByte(m.insValid)];
    TrackParts(m);
    var lon, lat := Le64(m.radarLon), Le64(m.radarLat);
    SliceSplit(e, 0, m.frameHead + flag + lon + lat, Le32(m.radarAlt));
    SliceSplit(e, 0, m.frameHead + flag + lon, lat);
    SliceSplit(e, 0, m.frameHead + flag, lon);
    SliceSplit(e, 0, m.frameHead, flag);
    assert e[32] == e[32..33][0];
  }

  /** Bytes 53..74 of a message: track id and target position. */
  lemma TrackPositionLayout(m: TrackMessage)
    requires WellFormed(m)
    ensures var e, ti := EncodeTrack(m), m.info;
      && e[53..55] == Le16(ti.trackId) && e[55..63] == Le64(ti.tgtLon)
      && e[63..71] == Le64(ti.tgtLat) && e[71..75] == Le32(ti.tgtAlt)
  {
    var e, ti := EncodeTrack(m), m.info;
    TrackParts(m);
    var mot, cls, raw := TrackMotionBytes(ti), TrackClassBytes(ti), TrackRawBytes(ti);
    SliceSplit(e, 53, TrackPositionBytes(ti) + mot + cls, raw);
    SliceSplit(e, 53, TrackPositionBytes(ti) + mot, cls);
    SliceSplit(e, 53, TrackPositionBytes(ti), mot);
    var id, lon, lat := Le16(ti.trackId), Le64(ti.tgtLon), Le64(ti.tgtLat);
    SliceSplit(e, 53, id + lon + lat, Le32(ti.tgtAlt));
    SliceSplit(e, 53, id + lon, lat);
    SliceSplit(e, 53, id, lon);
  }

  /** Bytes 75..98 of a message: the six measurements, four bytes each. */
  lemma TrackMotionLayout(m: TrackMessage)
    requires WellFormed(m)
    ensures var e, ti := EncodeTrack(m), m.info;
      && e[75..79] == Le32(ti.distance) && e[79..83] == Le32(ti.azimuth)
      && e[83..87] == Le32(ti.elevation) && e[87..91] == Le32(ti.speed)
      && e[91..95] == Le32(ti.course) && e[95..99] == Le32(ti.strength)
  {
    var e, ti := EncodeTrack(m), m.info;
    TrackParts(m);
    var pos, cls, raw := TrackPositionBytes(ti), TrackClassBytes(ti), TrackRawBytes(ti);
    SliceSplit(e, 53, pos + TrackMotionBytes(ti) + cls, raw);
    SliceSplit(e, 53, pos + TrackMotionBytes(ti), cls);
    SliceSplit(e, 53, pos, TrackMotionBytes(ti));
    var d, a, el, s, c := Le32(ti.distance), Le32(ti.azimuth), Le32(ti.elevation), Le32(ti.speed), Le32(ti.course);
    SliceSplit(e, 75, d + a + el + s + c, Le32(ti.strength));
    SliceSplit(e, 75, d + a + el + s, c);
    SliceSplit(e, 75, d + a + el, s);
    SliceSplit(e, 75, d + a, el);
    SliceSplit(e, 75, d, a);
  }

  /** Bytes 99..108 of a message: reserved4, then the six attributes. */
  lemma TrackClassLayout(m: TrackMessage)
    requires WellFormed(m)
    ensures var e, ti := EncodeTrack(m), m.info;
      && e[99..103] == ti.reserved4
      && e[103] == ti.targetType && e[104] == ti.targetSize && e[105] == ti.pointType
      && e[106] == ti.trackType && e[107] == ti.lostCount && e[108] == ti.quality
  {
    var e, ti := EncodeTrack(m), m.info;
    TrackParts(m);
    var pos, mot, raw := TrackPositionBytes(ti), TrackMotionBytes(ti), TrackRawBytes(ti);
    SliceSplit(e, 53, pos + mot + TrackClassBytes(ti), raw);
    SliceSplit(e, 53, pos + mot, TrackClassBytes(ti));
    var attrs := [ti.targetType, ti.targetSize, ti.pointType, ti.trackType, ti.lostCount, ti.quality];
    SliceSplit(e, 99, ti.reserved4, attrs);
    var a := e[103..109];
    assert e[103] == a[0] && e[104] == a[1] && e[105] == a[2];
    assert e[106] == a[3] && e[107] == a[4] && e[108] == a[5];
  }

  /** Bytes 109..123 of a message: the raw measurements, then reserved3. */
  lemma TrackRawLayout(m: TrackMessage)
    requires WellFormed(m)
    ensures var e, ti := EncodeTrack(m), m.info;
      && e[109..113] == Le32(ti.rawDistance) && e[113..117] == Le32(ti.rawAzimuth)
      && e[117..121] == Le32(ti.rawElevation) && e[121..124] == ti.reserved3
  {
    var e, ti := EncodeTrack(m), m.info;
    TrackParts(m);
    var pos, mot, cls := TrackPositionBytes(ti), TrackMotionBytes(ti), TrackClassBytes(ti);
    SliceSplit(e, 53, pos + mot + cls, TrackRawBytes(ti));
    var d, a := Le32(ti.rawDistance), Le32(ti.rawAzimuth);
    SliceSplit(e, 109, d + a + Le32(ti.rawElevation), ti.reserved3);
    SliceSplit(e, 109, d + a, Le32(ti.rawElevation));
    SliceSplit(e, 109, d, a);
  }

  /** The wire layout of a whole message: 142 bytes, every field at its
      offset, reserved16 at 124..139 and the checksum at 140..141. These are
      the offsets `DecodeTrack` reads, which `TrackRoundTrip` ties together. */
  lemma TrackWireLayout(m: TrackMessage)
    requires WellFormed(m)
    ensures var e, ti := EncodeTrack(m), m.info;
      && |e| == TrackLayoutLen
      && e[..32] == m.frameHead && e[32] == FlagByte(m.insValid)
      && e[33..41] == Le64(m.radarLon) && e[41..49] == Le64(m.radarLat)
      && e[49..53] == Le32(m.radarAlt)
      && e[53..55] == Le16(ti.trackId) && e[55..63] == Le64(ti.tgtLon)
      && e[63..71] == Le64(ti.tgtLat) && e[71..75] == Le32(ti.tgtAlt)
      && e[75..79] == Le32(ti.distance) && e[79..83] == Le32(ti.azimuth)
      && e[83..87] == Le32(ti.elevation) && e[87..91] == Le32(ti.speed)
      && e[91..95] == Le32(ti.course) && e[95..99] == Le32(ti.strength)
      && e[99..103] == ti.reserved4
      && e[103] == ti.targetType && e[104] == ti.targetSize && e[105] == ti.pointType
      && e[106] == ti.trackType && e[107] == ti.lostCount && e[108] == ti.quality
      && e[109..113] == Le32(ti.rawDistance) && e[113..117] == Le32(ti.rawAzimuth)
      && e[117..121] == Le32(ti.rawElevation) && e[121..124] == ti.reserved3
      && e[124..140] == m.reserved16 && e[140..142] == Le16(m.checksum)
  {
    TrackParts(m);
    TrackPrefixLayout(m);
    TrackPositionLayout(m);
    TrackMotionLayout(m);
    TrackClassLayout(m);
    TrackRawLayout(m);
  }
}
