# HRGK radar protocol codec — a Dafny model

This project models the binary codec of the HRGK radar console (C++/Qt):
the little-endian "HRGK" frame protocol spoken between a command console and
a radar unit, and the few small helpers around it.

- **Bytes** — little-endian readers and writers over `seq<bv8>`. Integers are
  bit-vectors (`u16`, `u32`, `u64`). Float and double fields are kept as
  their raw 32/64-bit patterns, which is all the source's `rd_f32`/`rd_f64`
  do (a bit copy).
- **Checksum** — the 16-bit additive sum and CRC-16/IBM as parameterised by
  section 6.2.2 of the MODBUS over Serial Line Specification V1.02
  (reflected polynomial 0xA001, initial register 0xFFFF, no final XOR). Each
  is a specification function plus a method with the source's loops.
- **Protocol** — `HeaderConfig` with its member defaults, the `wr_u16/32/64`
  writers, the 32-byte frame header and the 51-byte "radar search task"
  packet. The two function-local statics of `buildSearchTaskPacket` (the
  sequence byte and the message counter) are the fields of the class
  `SearchTaskBuilder`.
- **MessageIds** — the `ProtocolIds` constant table, its four blocks and
  their reserved tails.
- **TrackMessage** — the `TrackInfo`/`TrackMessage` records and
  `TrackParser::parseLittleEndian`: one length guard, then a cursor through
  fixed-width fields.
- **RadarStatus** — the `RadarStatus` record, its parser, and the text
  decoders `hwFaultText`, `swFaultText`, `workStateText` and
  `antPowerModeText`.
- **HexDump** — the `hexDump` formatter used to log datagrams.
- **RadarScopeWidget** — `typeSizeLabel` and the trail bookkeeping of the
  scope widget (find-or-create a trail per track id, push a point under a
  cap, prune stale points on a timer, clear everything). The trail state is
  the class `RadarScope`.
- **Text** — decimal and hexadecimal rendering (`QString::number`,
  `QString::arg` with padding, upper-cased) and `QStringList::join`, each
  with its inverse.

Each parser is a method proved equal to a decoding function
(`DecodeTrack`, `DecodeStatus`). Lemmas about that function then give:
- the round trip from an encoder;
- that re-encoding the decoded record reproduces the bytes consumed;
- that bytes past the layout never matter;
- every field's absolute offset.

Each builder is a method proved equal to a layout function. Lemmas read the
fields back from that function.

Where the code and its documentation disagree, the model follows the code:
- The track length guard (`src/TrackMessage.cpp:27`) adds up to 146 bytes,
  although the fields read end at byte 142. The guard has nine 4-byte terms
  where the layout needs eight. The model keeps both numbers:
  `TrackGuardLen` is 146 and `TrackLayoutLen` is 142.
- The track parser does no range validation: any payload of 146 bytes or
  more parses. The documented physical ranges are not enforced, and neither
  parser verifies the checksum it carries.

## Model

| member | source | states |
|---|---|---|
| Bytes.RdU16 | src/TrackMessage.cpp:6 | the u16 read at `off` is the one whose little-endian bytes are `p[off..off+2]` |
| Bytes.RdU32 | src/TrackMessage.cpp:7-14 | the 32-bit pattern read at `off` (also `rd_f32`) is the one whose little-endian bytes are `p[off..off+4]` |
| Bytes.RdU64 | src/TrackMessage.cpp:15-21 | the 64-bit pattern read by `rd_f64` is the one whose little-endian bytes are `p[off..off+8]` |
| Bytes.Le16RoundTrip | src/Protocol.cpp:8-12 | bytes written as the little-endian u16 `v` read back as `v` |
| Bytes.Le32RoundTrip | src/Protocol.cpp:13-17 | bytes written as the little-endian u32 `v` read back as `v` |
| Bytes.Le64RoundTrip | src/Protocol.cpp:18-22 | bytes written as the little-endian u64 `v` read back as `v` |
| Bytes.FlagByte | src/TrackMessage.h:39 | a flag is written as a byte that equals 0x01 exactly when the flag is set |
| Bytes.RdFlag | src/RadarStatus.cpp:95-98 | a flag byte reads as set exactly when it is 0x01, so any other nonzero byte reads as clear; `FlagByte` writes the value it reads back |
| Bytes.Zeros | src/Protocol.cpp:106 | `QByteArray(16, '\0')`: n bytes, all zero |
| Checksum.Sum16 | src/Protocol.cpp:24-30 | reference definition: the sum of all bytes modulo 65536, which `ChecksumSum16` is proved to compute |
| Checksum.ChecksumSum16 | src/Protocol.cpp:24-30 | the masked running sum equals the sum of all bytes modulo 65536, and is 0 for empty data |
| Checksum.Sum16SwapBlocks | src/Protocol.h:28 | the additive sum covers all data regardless of the order of two blocks |
| Checksum.Crc16 | src/Protocol.cpp:32-47 | reference definition: start at 0xFFFF and run the reflected 0xA001 step over each byte, no final XOR; pinned by `CrcResidueZero` and `Crc16CheckValue` |
| Checksum.ChecksumCrc16Ibm | src/Protocol.cpp:32-47 | the nested loops compute `Crc16`: start at 0xFFFF, XOR each byte in, then 8 shift/XOR-0xA001 steps; empty data gives 0xFFFF |
| Checksum.CrcFromAppend | src/Protocol.cpp:35-45 | running the CRC over `a + b` is running it over `a`, then over `b` from that register |
| Checksum.CrcShiftsLowByteZero | src/Protocol.cpp:38-44 | with a zero low byte, the 8 bit steps only shift the register right by 8 |
| Checksum.CrcOwnValueClears | src/Protocol.cpp:35-45 | feeding a register its own value, low byte first, clears it |
| Checksum.CrcResidueZero | src/Protocol.cpp:108-117 | the CRC of data followed by its own little-endian CRC is 0, which is the receiver's check |
| Checksum.Crc16CheckValue | src/Protocol.h:29 | the CRC of ASCII "123456789" is 0x4B37, the CRC-16/MODBUS check value |
| Protocol.WrU16 | src/Protocol.cpp:8-12 | appends exactly 2 bytes, low byte first; the prefix is unchanged and the value reads back |
| Protocol.WrU32 | src/Protocol.cpp:13-17 | appends exactly 4 bytes, low byte first; the prefix is unchanged and the value reads back |
| Protocol.WrU64 | src/Protocol.cpp:18-22 | appends exactly 8 bytes, low byte first; the prefix is unchanged and the value reads back |
| Protocol.FrameHeader | src/Protocol.cpp:49-84 | the header built from a configuration is exactly 32 bytes |
| Protocol.Resized | src/Protocol.cpp:82-83 | `QByteArray::resize` gives the requested length and keeps the common prefix |
| Protocol.BuildFrameHead | src/Protocol.cpp:49-85 | the appends build exactly `FrameHeader` for the given timestamp |
| Protocol.WriteHeaderLead | src/Protocol.cpp:53-64 | the magic, total length, device model and timestamp are appended in that order |
| Protocol.WriteHeaderIds | src/Protocol.cpp:65-72 | the two message IDs and the two device IDs are appended after the lead |
| Protocol.WriteHeaderTail | src/Protocol.cpp:73-80 | two reserved zeros, check method, sequence byte and counter are appended last |
| Protocol.FrameHeaderLayout | src/Protocol.cpp:49-84 | 32 bytes; "HRGK" at 0..3; total length, model, timestamp, IDs, zeros, check method, seq and count each read back at their offsets |
| Protocol.HeaderLeadingFields | src/Protocol.cpp:53-64 | bytes 0..3 are "HRGK"; 4..5 total length, 6..7 device model, 8..15 timestamp read back |
| Protocol.HeaderIdFields | src/Protocol.cpp:65-72 | bytes 16..23 read back as msgIdRadar, msgIdExternal, deviceIdRadar, deviceIdExternal |
| Protocol.HeaderTrailingFields | src/Protocol.cpp:73-80 | bytes 24..25 are zero, 26 is checkMethod, 27 is seq, 28..31 read back as count |
| Protocol.TrailerChecksum | src/Protocol.cpp:108-115 | reference definition of the trailer: checkMethod 1 the additive sum, 2 the CRC, any other value 0; `SelectChecksum` is proved to compute it |
| Protocol.SearchTaskPacket | src/Protocol.cpp:87-119 | reference definition of the packet: the header for length 51, the task type, 16 zeros, then the selected checksum of those 49 bytes, little-endian; pinned by the three `SearchTaskPacket*` lemmas |
| Protocol.SearchTaskPacketLayout | src/Protocol.cpp:87-119 | 51 bytes: the header for length 51, the task type at 32, zeros at 33..48, and the selected checksum of bytes 0..48 at 49..50 |
| Protocol.SearchTaskPacketHeader | src/Protocol.cpp:90-101 | read back from the packet: magic, length field 51, message ID, check method, seq and count |
| Protocol.SearchTaskPacketTrailer | src/Protocol.cpp:108-117 | method 1 gives the sum16 of bytes 0..48; method 2 the CRC, so the CRC of all 51 bytes is 0; other codes give two zero bytes |
| Protocol.AssembleSearchTaskPacket | src/Protocol.cpp:98-119 | header, task type, 16 zeros and the little-endian checksum build exactly `SearchTaskPacket` |
| Protocol.SelectChecksum | src/Protocol.cpp:109-115 | checkMethod 1 selects the sum16, 2 the CRC, and any other value 0 |
| Protocol.SearchTaskBuilder.constructor | src/Protocol.cpp:93-94 | both statics start at zero |
| Protocol.SearchTaskBuilder.BuildSearchTaskPacket | src/Protocol.cpp:87-120 | the packet carries the sequence byte before its increment and the counter after it; both advance by one (mod 2^8, mod 2^32) |
| MessageIds.BlockOf | src/MessageIds.h:9-41 | an ID is in the general, command, internal-control or configuration block exactly when it lies in that block's range |
| MessageIds.CommandsConsecutive | src/MessageIds.h:17-27 | CmdInit..CmdServo are 0x1001..0x1009 consecutively; CmdReservedBegin is CmdServo + 1 and CmdReservedEnd is 0x10FF |
| MessageIds.ConfigAcksFollowRequests | src/MessageIds.h:34-41 | each configuration Ack is its request + 1, and all lie in 0x2011..0x2092, below CfgReservedBegin |
| MessageIds.GeneralIdsBelowReserved | src/MessageIds.h:10-14 | 0xF000..0xF002 lie below GeneralReservedBegin 0xF003; that range ends at 0xFFFF |
| MessageIds.NamedIdsClassified | src/MessageIds.h:10-41 | every named ID falls in the block its table lists it under; the gaps between blocks belong to none |
| MessageIds.RangesDisjoint | src/MessageIds.h:10-41 | the command, internal-control, configuration and general ranges are ordered and pairwise disjoint |
| MessageIds.NamedIdsDistinct | src/MessageIds.h:10-41 | the 18 named IDs are pairwise distinct |
| TrackMessage.DecodeTrackInfo | src/TrackMessage.cpp:45-85 | reference definition of the record read at `at`: every field at `at` plus its record offset; `ReadTrackInfo` is proved to compute it and `TrackInfoRoundTrip`/`TrackInfoCapturesAll` pin it |
| TrackMessage.DecodeTrack | src/TrackMessage.cpp:33-92 | the parsed message has a 32-byte frame head and reserved arrays of 4, 3 and 16 bytes |
| TrackMessage.ParseTrack | src/TrackMessage.cpp:23-96 | succeeds exactly when the payload has at least the guard's 146 bytes; on failure `out` is untouched; on success the result is `DecodeTrack` |
| TrackMessage.ReadTrackInfo | src/TrackMessage.cpp:45-87 | the cursor walk over the track record reads exactly `DecodeTrackInfo` |
| TrackMessage.TrackPositionRoundTrip | src/TrackMessage.cpp:46-53 | track id, target longitude, latitude and altitude read back from their encoding |
| TrackMessage.TrackMotionRoundTrip | src/TrackMessage.cpp:54-65 | distance, azimuth, elevation, speed, course and strength read back from their encoding |
| TrackMessage.TrackClassRoundTrip | src/TrackMessage.cpp:67-76 | reserved4 and the six attribute bytes, in order, read back from their encoding |
| TrackMessage.TrackRawRoundTrip | src/TrackMessage.cpp:78-85 | the raw measurements and reserved3 read back from their encoding |
| TrackMessage.TrackInfoRoundTrip | src/TrackMessage.cpp:45-85 | a track record read back from its 71-byte encoding, wherever it sits, is the same record |
| TrackMessage.TrackPrefixRoundTrip | src/TrackMessage.cpp:33-43 | header, INS flag and radar position read back from their encoding |
| TrackMessage.TrackRoundTrip | src/TrackMessage.cpp:33-92 | decoding a payload that starts with a message's 142-byte encoding gives that message |
| TrackMessage.TrackInfoCapturesAll | src/TrackMessage.cpp:45-85 | re-encoding the decoded record reproduces its 71 bytes: no byte skipped or read twice |
| TrackMessage.TrackCapturesAll | src/TrackMessage.cpp:33-92 | re-encoding the parsed message reproduces bytes 0..141, with the INS byte normalised to 0x01/0x00 |
| TrackMessage.TrackIgnoresTail | src/TrackMessage.cpp:30-95 | two payloads with the same first 142 bytes parse to the same message |
| TrackMessage.TrackParts | src/TrackMessage.cpp:33-92 | a message's 142 bytes are its 53-byte prefix, the 71-byte record at 53, reserved16 at 124 and the checksum at 140, back to back |
| TrackMessage.TrackPrefixLayout | src/TrackMessage.cpp:33-43 | in the encoding, the frame head is bytes 0..31, the INS flag byte 32, radar longitude 33..40, latitude 41..48, altitude 49..52 |
| TrackMessage.TrackPositionLayout | src/TrackMessage.cpp:45-53 | in the encoding, track id is bytes 53..54, target longitude 55..62, latitude 63..70, altitude 71..74 |
| TrackMessage.TrackMotionLayout | src/TrackMessage.cpp:54-65 | in the encoding, distance, azimuth, elevation, speed, course and strength occupy 75..98, four bytes each |
| TrackMessage.TrackClassLayout | src/TrackMessage.cpp:67-76 | in the encoding, reserved4 is bytes 99..102 and the six attribute bytes are 103..108 |
| TrackMessage.TrackRawLayout | src/TrackMessage.cpp:78-85 | in the encoding, the raw distance, azimuth and elevation occupy 109..120 and reserved3 121..123 |
| TrackMessage.TrackWireLayout | src/TrackMessage.cpp:33-92 | the encoding is 142 bytes with every field at the offset the parser reads it from: record fields at 53 plus their record offset, reserved16 at 124..139, checksum at 140..141 |
| RadarStatus.Sw24 | src/RadarStatus.cpp:88 | the three-byte software fault code is below 2^24 |
| RadarStatus.DecodeStatus | src/RadarStatus.cpp:82-139 | the parsed record has a 32-byte frame head, a 24-bit fault code and reserved blocks of 8, 21, 32, 16, 8, 16 and 12 bytes |
| RadarStatus.ParseStatus | src/RadarStatus.cpp:73-143 | succeeds exactly when the payload has at least `needMin` = 200 bytes; on failure `out` is untouched; on success the result is `DecodeStatus` |
| RadarStatus.ReadFaults | src/RadarStatus.cpp:86-89 | hwFault is byte 32; swFault24 is bytes 33..35, low byte first |
| RadarStatus.ReadState | src/RadarStatus.cpp:91-98 | workState 36, reserved1 37, detectRange 38..39; the four flags are bytes 40..43, each set iff the byte is 0x01 |
| RadarStatus.ReadPosition | src/RadarStatus.cpp:100-111 | longitude, latitude, altitude, yaw, pitch and roll at 44, 52, 60, 64, 68, 72 |
| RadarStatus.ReadInfoAndFrequency | src/RadarStatus.cpp:113-122 | the 8, 21 and 32 reserved bytes are copied from 76, 84 and 105; freqGHz is at 137 and antPowerMode at 141 |
| RadarStatus.ReadTail | src/RadarStatus.cpp:124-139 | the 16, 8 and 16 reserved bytes are copied from 142, 158 and 166; silent zone at 182 and 184; 12 reserved bytes from 186; checksum at 198 |
| RadarStatus.Sw24RoundTrip | src/RadarStatus.cpp:88 | a 24-bit code written low byte first reads back unchanged |
| RadarStatus.StatusStateRoundTrip | src/RadarStatus.cpp:86-98 | the fault code, state bytes, detect range and flags read back from their encoding |
| RadarStatus.StatusPoseRoundTrip | src/RadarStatus.cpp:100-111 | the position and attitude fields read back from their encoding |
| RadarStatus.StatusAntennaRoundTrip | src/RadarStatus.cpp:120-129 | frequency, power mode and the three antenna-side reserved blocks read back from their encoding |
| RadarStatus.StatusTrailerRoundTrip | src/RadarStatus.cpp:131-139 | silent zone, reserved3 and checksum read back from their encoding |
| RadarStatus.StatusRoundTrip | src/RadarStatus.cpp:82-139 | decoding a payload that starts with a record's 200-byte encoding gives that record |
| RadarStatus.StatusStateCaptures | src/RadarStatus.cpp:86-98 | re-encoding the decoded state block gives bytes 32..39 and the four flags normalised |
| RadarStatus.StatusPoseCaptures | src/RadarStatus.cpp:100-111 | re-encoding the decoded position gives bytes 44..75 |
| RadarStatus.StatusTailCaptures | src/RadarStatus.cpp:113-139 | re-encoding the decoded rest gives bytes 76..199 |
| RadarStatus.StatusCapturesAll | src/RadarStatus.cpp:82-139 | re-encoding the parsed record gives bytes 0..199, with each flag byte normalised to 0x01/0x00 |
| RadarStatus.StatusIgnoresTail | src/RadarStatus.cpp:75-142 | two payloads with the same first 200 bytes parse to the same record |
| RadarStatus.SetBitIndicesExact | src/RadarStatus.cpp:41-46 | the listed indices are exactly the set bits below n, in strictly ascending order |
| RadarStatus.HwFaultItems | src/RadarStatus.cpp:26-32 | the names of the set bits among 0..2, at most three, and none exactly when those three bits are clear |
| RadarStatus.HwFaultText | src/RadarStatus.cpp:24-34 | reference definition of `hwFaultText`: "无故障" for no item, otherwise the items joined by ','; pinned by `HwFaultTextNone` |
| RadarStatus.FormatHwFault | src/RadarStatus.cpp:24-34 | the conditional appends and join produce `HwFaultText` |
| RadarStatus.HwFaultItemsAreSetBits | src/RadarStatus.cpp:26-32 | the listed names are the antenna, servo and INS names of the set bits 0..2, in bit order |
| RadarStatus.HwFaultTextNone | src/RadarStatus.cpp:24-34 | "无故障" iff none of bits 0..2 is set; higher bits never change the text |
| RadarStatus.SwFaultText | src/RadarStatus.cpp:36-48 | reference definition of `swFaultText`: "无故障" for 0, otherwise "软件故障bits:" and the set bit indices below 24 in decimal, joined by ','; pinned by `SwFaultTextNone`, `SwFaultListsSomeBit` and `SetBitIndicesExact` |
| RadarStatus.FormatSwFault | src/RadarStatus.cpp:36-48 | the 24-step loop and join produce `SwFaultText`: the prefix, then the set bit indices in decimal |
| RadarStatus.SwFaultTextNone | src/RadarStatus.cpp:38-39 | "无故障" iff the code is 0 |
| RadarStatus.SwFaultListsSomeBit | src/RadarStatus.cpp:38-47 | a nonzero code below 2^24 lists at least one bit |
| RadarStatus.WorkStateText | src/RadarStatus.cpp:50-54 | "状态" followed by decimal digits whose value is the work state |
| RadarStatus.AntPowerModeText | src/RadarStatus.cpp:56-71 | reference definition of `antPowerModeText`: names for modes 0..3, "未知(n)" otherwise; `AntPowerModeTextRoundTrip` proves every mode recoverable from it |
| RadarStatus.AntPowerModeTextRoundTrip | src/RadarStatus.cpp:56-71 | the mode is recovered from its text: the four names give 0..3, "未知(n)" gives n |
| RadarStatus.AntPowerModeTextInjective | src/RadarStatus.cpp:56-71 | different modes have different texts |
| RadarStatus.UnknownModeText | src/RadarStatus.cpp:68-69 | a mode from 4 up reads "未知(", its decimal value, ")" |
| HexDump.HexDump | src/NetworkManager.cpp:7-35 | the formatter's output is `HexDumpText`; empty data gives the empty string |
| HexDump.AppendLines | src/NetworkManager.cpp:11-33 | the outer loop renders one line per start offset 0, bpl, 2·bpl, … below n |
| HexDump.AppendLine | src/NetworkManager.cpp:13-32 | one iteration appends exactly the line for offset i |
| HexDump.AppendHexArea | src/NetworkManager.cpp:16-24 | the hex loop appends the bpl cells, with the middle extra space |
| HexDump.AppendAscii | src/NetworkManager.cpp:26-31 | the ASCII loop appends one character per present byte |
| HexDump.AsciiChar | src/NetworkManager.cpp:29-30 | bytes 32..126 show as themselves; every shown character is printable |
| HexDump.AsciiColumn | src/NetworkManager.cpp:27-31 | the ASCII column has one character per present byte |
| HexDump.HexDumpLines | src/NetworkManager.cpp:10-11 | the dump has ceil(n / bytesPerLine) lines, line k starting at offset k·bytesPerLine |
| HexDump.HexCellsWidth | src/NetworkManager.cpp:16-24 | every hex area is 3·bpl characters plus the middle space, whether or not the line is full |
| HexDump.HexCellContents | src/NetworkManager.cpp:18-21 | a present byte's cell is its two hex digits and a space; a missing byte's cell is three spaces |
| HexDump.DumpLineShape | src/NetworkManager.cpp:14-32 | a line is the offset in six hex digits, ": ", the hex area, " \|", one ASCII character per present byte, "\|\n" |
| Text.DecimalRoundTrip | src/RadarStatus.cpp:45 | `QString::number` of n reads back as n |
| Text.IntDecimalRoundTrip | src/RadarScopeWidget.cpp:131 | `arg` of a signed int reads back as that int, sign included |
| Text.IntToDecimalInjective | src/RadarScopeWidget.cpp:131 | different ints render differently |
| Text.HexPaddedRoundTrip | src/NetworkManager.cpp:14 | the zero-padded upper-case hex rendering reads back as the number |
| Text.HexPaddedWidth | src/NetworkManager.cpp:19 | a number below 16^w renders in exactly w hex digits |
| Text.Join | src/RadarStatus.cpp:33 | joining nothing gives the empty string; joining one item gives that item |
| Text.JoinStartsWithFirst | src/RadarStatus.cpp:47 | a join of a nonempty list starts with its first item |
| RadarScopeWidget.TypeName | src/RadarScopeWidget.cpp:109-133 | reference definition of the type half: six fixed names for 0..5, "?n" otherwise; `TypeNameRoundTrip` proves the type recoverable |
| RadarScopeWidget.SizeName | src/RadarScopeWidget.cpp:134-152 | reference definition of the size half: four fixed names for 0..3, "?n" otherwise; `SizeNameRoundTrip` proves the size recoverable |
| RadarScopeWidget.TypeSizeLabel | src/RadarScopeWidget.cpp:107-154 | reference definition of `typeSizeLabel`: type name, middle dot, size name; `TypeSizeLabelInjective` proves the pair recoverable |
| RadarScopeWidget.TypeNameRoundTrip | src/RadarScopeWidget.cpp:110-133 | the target type is recovered from its name: six fixed names, "?n" for other n |
| RadarScopeWidget.SizeNameRoundTrip | src/RadarScopeWidget.cpp:134-152 | the target size is recovered from its name: four fixed names, "?n" for other n |
| RadarScopeWidget.NamesHaveNoDot | src/RadarScopeWidget.cpp:107-153 | neither part of a label contains the middle dot |
| RadarScopeWidget.TypeSizeLabelInjective | src/RadarScopeWidget.cpp:107-154 | "type·size" labels of different (type, size) pairs differ |
| RadarScopeWidget.IndexOfTrail | src/RadarScopeWidget.cpp:66-67 | the first trail with the id, or -1 when none has it |
| RadarScopeWidget.FindTrail | src/RadarScopeWidget.cpp:66-68 | the `find_if` loop returns `IndexOfTrail` |
| RadarScopeWidget.NewTargetNotice | src/RadarScopeWidget.cpp:76 | the notice text is "发现新目标 #" and the id in decimal, stamped with `now` |
| RadarScopeWidget.ReportNotices | src/RadarScopeWidget.cpp:68-77 | reference definition: one `NewTargetNotice` exactly when the id has no trail yet and notices are shown, else none; `OnTrackDatagram` appends it |
| RadarScopeWidget.PushCapped | src/RadarScopeWidget.cpp:86-88 | reference definition: append the point, then drop the first one when the trail holds more than the cap; `ApplyReportPoint` and `ApplyReportKeepsCap` pin it |
| RadarScopeWidget.UpdateTrail | src/RadarScopeWidget.cpp:80-88 | reference definition of one report on its trail: the id is kept, type, size and distance copied, identityKnown = (type != 0), the point pushed under the cap |
| RadarScopeWidget.ApplyReport | src/RadarScopeWidget.cpp:65-88 | reference definition of a report: update the trail found by `IndexOfTrail`, or append a new one and update it; pinned by the four `ApplyReport*` lemmas |
| RadarScopeWidget.ApplyReportShape | src/RadarScopeWidget.cpp:65-85 | only the trail of the report's id changes; it is appended at the end only when the id was absent; type, size, distance and identityKnown = (type != 0) are copied |
| RadarScopeWidget.ApplyReportPoint | src/RadarScopeWidget.cpp:86-88 | the new point is the trail's newest; earlier points are kept except at most the oldest |
| RadarScopeWidget.ApplyReportKeepsIdsUnique | src/RadarScopeWidget.cpp:66-78 | at most one trail per track id, before and after a report |
| RadarScopeWidget.ApplyReportKeepsCap | src/RadarScopeWidget.cpp:86-88 | every trail stays within `m_maxTrailPoints` points |
| RadarScopeWidget.PruneFront | src/RadarScopeWidget.cpp:23-25 | reference definition of the while loop: drop the front point while now − ms > keepMs; pinned by `PruneFrontSuffix` and `PruneFrontSorted` |
| RadarScopeWidget.PruneFrontSuffix | src/RadarScopeWidget.cpp:23-25 | pruning keeps a suffix, removes only points with now − ms > keepMs, and stops at the first fresh point |
| RadarScopeWidget.PruneFrontSorted | src/RadarScopeWidget.cpp:22-26 | for time-ordered points, every point left is within keepMs of now |
| RadarScopeWidget.PrunedAll | src/RadarScopeWidget.cpp:22-26 | each trail is pruned in place; nothing else of it changes |
| RadarScopeWidget.DropEmpty | src/RadarScopeWidget.cpp:28 | reference definition of `remove_if`: keep each trail that still holds a point, in order; pinned by `DropEmptyMembers` and `DropEmptyIsSubsequence` |
| RadarScopeWidget.DropEmptyMembers | src/RadarScopeWidget.cpp:28 | `remove_if` keeps exactly the trails that still have points |
| RadarScopeWidget.DropEmptyIsSubsequence | src/RadarScopeWidget.cpp:28 | the survivors are the input read at strictly increasing positions: relative order is kept |
| RadarScopeWidget.DropEmptyKeepsInvariants | src/RadarScopeWidget.cpp:28 | removing empty trails keeps ids unique and trails within the cap |
| RadarScopeWidget.CleanupTrails | src/RadarScopeWidget.cpp:20-28 | reference definition of the timer callback: prune every trail, then drop the empty ones; pinned by `CleanupResult` and `CleanupKeepsInvariants` |
| RadarScopeWidget.CleanupResult | src/RadarScopeWidget.cpp:20-28 | the trails after cleanup are exactly the pruned trails that still hold a point |
| RadarScopeWidget.CleanupKeepsInvariants | src/RadarScopeWidget.cpp:20-28 | cleanup keeps ids unique and trails within the cap |
| RadarScopeWidget.CleanupKeepsIdsUnique | src/RadarScopeWidget.cpp:20-28 | cleanup keeps ids unique for any cap |
| RadarScopeWidget.RemoveEmpty | src/RadarScopeWidget.cpp:28 | the erase/remove_if loop yields `DropEmpty` |
| RadarScopeWidget.RadarScope.constructor | src/RadarScopeWidget.cpp:9-11 | no trails, no notices, the configured cap, keep time and notice switch |
| RadarScopeWidget.RadarScope.OnTrackDatagram | src/RadarScopeWidget.cpp:49-90 | a datagram the filter or the parser rejects changes nothing; otherwise the report is applied and a notice is raised only for a new id when notices are shown |
| RadarScopeWidget.RadarScope.RecordReport | src/RadarScopeWidget.cpp:65-88 | find or create the trail, copy the attributes, push the point under the cap; ids stay unique and trails capped |
| RadarScopeWidget.RadarScope.Cleanup | src/RadarScopeWidget.cpp:18-29 | the trails become `CleanupTrails` of the old ones; notices and settings are unchanged; the invariant is kept |
| RadarScopeWidget.RadarScope.ClearTrails | src/RadarScopeWidget.cpp:383-388 | both the trail list and the notice list are empty afterwards |

## Left out

- User interface and rendering are not modelled: the configuration and status widgets, `paintEvent`, the sweep animation, `polarToPoint`, `computeThreatScore` and `setMaxRangeMeters`. A trail point keeps the raw distance and azimuth bits it would be drawn from instead of a screen point.
- `Trail.lastSpeed` (`qAbs` of a float) is not modelled. IEEE-754 semantics are not modelled anywhere: floats and doubles are raw bit patterns.
- UDP I/O (`NetworkManager` apart from `hexDump`) and the signal wiring in `src/main.cpp` are not modelled: they are transport and event-loop glue.
- Clocks are parameters. The frame header's timestamp is an argument of `BuildFrameHead`. The scope widget takes one `now` per operation; the source reads the clock separately for a new-target notice and for the point.
- `TrackParser::hasReadableMagic` has no definition in the source, so `OnTrackDatagram` takes it as a function parameter.
- `buildStandbyTaskPacket` is declared in `src/Protocol.h` but never defined, so it is not modelled. There are no deploy or hit-report builders, no range validation of parsed fields and no inbound checksum verification to model.
- `tr()` translation of the new-target notice is not modelled; the notice holds the untranslated source text.
- RadarScopeWidget.RadarScope.constructor: the widget's configuration (`m_maxTrailPoints`, `m_trailKeepMs`, `m_showNotices`) is given as constructor parameters, because `src/RadarScopeWidget.h` does not declare these members and so their defaults are unknown.
- HexDump.HexDump: requires `bytesPerLine > 0` for nonempty data. With 0 the source loop never ends, and with a negative width it walks backwards out of the buffer.
- HexDump.DumpLineShape: states the six-digit offset field only for offsets below 2^24; beyond that `arg` widens the field. `int` overflow of the offset for inputs near 2^31 bytes is not modelled.
- RadarStatus.SwFaultListsSomeBit: requires a code below 2^24, which every code the parser produces is. For a code whose only set bits are above bit 23 the source prints the prefix followed by nothing.
- RadarScopeWidget.ApplyReportKeepsCap: requires a non-negative cap; with a negative `m_maxTrailPoints` no trail can satisfy it.
- Overflow of `qint64` in `now - ms` is not modelled: times are unbounded integers.
- Protocol.BuildFrameHead: the trailing `resize(32)` is modelled, but the 32 appended bytes mean it is never taken.
