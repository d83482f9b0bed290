/** The message-ID table of the HRGK protocol (src/MessageIds.h): the
    general messages, the command-centre commands, the internal control range
    and the parameter-configuration messages, each followed by a reserved
    range. */
module MessageIds {
  import opened Bytes

  // General messages
  const GeneralCmdAck: u16 := 0xF000
  const QueryRadarStatus: u16 := 0xF001
  const HealthMonitor: u16 := 0xF002
  const GeneralReservedBegin: u16 := 0xF003
  const GeneralReservedEnd: u16 := 0xFFFF

  // Command-centre commands (command centre -> radar)
  const CmdInit: u16 := 0x1001
  const CmdCalibration: u16 := 0x1002
  const CmdStandby: u16 := 0x1003
  const CmdSearch: u16 := 0x1004
  const CmdTrack: u16 := 0x1005
  const CmdSimulation: u16 := 0x1006
  const CmdPower: u16 := 0x1007
  const CmdDeploy: u16 := 0x1008
  const CmdServo: u16 := 0x1009
  const CmdReservedBegin: u16 := 0x100A
  const CmdReservedEnd: u16 := 0x10FF

  // Internal control, used inside the radar system
  const InternalCtrlBegin: u16 := 0x1101
  const InternalCtrlEnd: u16 := 0x1FFF

  // Parameter configuration: each request is followed by its acknowledgement
  const CfgRadarPosition: u16 := 0x2011
  const CfgRadarPositionAck: u16 := 0x2012
  const CfgRadarIp: u16 := 0x2081
  const CfgRadarIpAck: u16 := 0x2082
  const CfgSilentZone: u16 := 0x2091
  const CfgSilentZoneAck: u16 := 0x2092
  const CfgReservedBegin: u16 := 0x2093
  const CfgReservedEnd: u16 := 0x2FFF

  /** The commands in table order. */
  const Commands: seq<u16> := [CmdInit, CmdCalibration, CmdStandby, CmdSearch, CmdTrack,
                               CmdSimulation, CmdPower, CmdDeploy, CmdServo]

  /** Every named message ID (the range bounds excluded). */
  const NamedIds: seq<u16> := [GeneralCmdAck, QueryRadarStatus, HealthMonitor] + Commands
                              + [CfgRadarPosition, CfgRadarPositionAck, CfgRadarIp, CfgRadarIpAck,
                                 CfgSilentZone, CfgSilentZoneAck]

  /** The table's four blocks, each with its reserved tail. */
  datatype Block = General | Command | InternalControl | Configuration

  /** The block an ID falls in, if any. */
  function BlockOf(id: u16): (b: Option<Block>)
    ensures b == Some(General) <==> GeneralCmdAck <= id <= GeneralReservedEnd
    ensures b == Some(Command) <==> CmdInit <= id <= CmdReservedEnd
    ensures b == Some(InternalControl) <==> InternalCtrlBegin <= id <= InternalCtrlEnd
    ensures b == Some(Configuration) <==> CfgRadarPosition <= id <= CfgReservedEnd
  {
    if GeneralCmdAck <= id then Some(General)
    else if CmdInit <= id <= CmdReservedEnd then Some(Command)
    else if InternalCtrlBegin <= id <= InternalCtrlEnd then Some(InternalControl)
    else if CfgRadarPosition <= id <= CfgReservedEnd then Some(Configuration)
    else None
  }

  datatype Option<T> = None | Some(value: T)

  /** The commands are the consecutive values 0x1001..0x1009, and the
      reserved command range starts right after the last one. */
  lemma CommandsConsecutive()
    ensures |Commands| == 9
    ensures forall k :: 0 <= k < |Commands| ==> Commands[k] as int == CmdInit as int + k
    ensures CmdReservedBegin as int == CmdServo as int + 1 && CmdReservedEnd == 0x10FF
  {
  }

  /** Each configuration acknowledgement is its request plus one; all of
      them lie below the reserved configuration range. */
  lemma ConfigAcksFollowRequests()
    ensures CfgRadarPositionAck as int == CfgRadarPosition as int + 1
    ensures CfgRadarIpAck as int == CfgRadarIp as int + 1
    ensures CfgSilentZoneAck as int == CfgSilentZone as int + 1
    ensures CfgRadarPosition <= CfgRadarPositionAck < CfgRadarIp < CfgRadarIpAck
            < CfgSilentZone < CfgSilentZoneAck < CfgReservedBegin <= CfgReservedEnd
  {
  }

  /** The named general IDs lie below the general reserved range, which runs
      to the top of the 16-bit space. */
  lemma GeneralIdsBelowReserved()
    ensures GeneralCmdAck < QueryRadarStatus < HealthMonitor < GeneralReservedBegin
    ensures GeneralReservedEnd == 0xFFFF
  {
  }

  /** Every named ID falls in exactly one block, the one the table lists it
      under, and outside that block's reserved tail. */
  lemma NamedIdsClassified()
    ensures BlockOf(GeneralCmdAck) == BlockOf(QueryRadarStatus) == BlockOf(HealthMonitor) == Some(General)
    ensures forall k :: 0 <= k < |Commands| ==> BlockOf(Commands[k]) == Some(Command) && Commands[k] < CmdReservedBegin
    ensures BlockOf(CfgRadarPosition) == BlockOf(CfgRadarPositionAck) == Some(Configuration)
    ensures BlockOf(CfgRadarIp) == BlockOf(CfgRadarIpAck) == Some(Configuration)
    ensures BlockOf(CfgSilentZone) == BlockOf(CfgSilentZoneAck) == Some(Configuration)
    ensures BlockOf(0x1100) == None && BlockOf(0x2000) == None
  {
  }

  /** The four ranges are pairwise disjoint: they are ordered and do not
      touch. */
  lemma RangesDisjoint()
    ensures CmdReservedEnd < InternalCtrlBegin
    ensures InternalCtrlEnd < CfgRadarPosition
    ensures CfgReservedEnd < GeneralCmdAck
  {
  }

  /** No two named IDs are equal. */
  lemma NamedIdsDistinct()
    ensures |NamedIds| == 18
    ensures forall i, j :: 0 <= i < j < |NamedIds| ==> NamedIds[i] != NamedIds[j]
  {
    forall i, j | 0 <= i < j < |NamedIds|
      ensures NamedIds[i] != NamedIds[j]
    {
      IdRank(i);
      IdRank(j);
    }
  }

  /** The position a named ID has in `NamedIds`, computed from its value
      alone: the general IDs by their offset from 0xF000, the commands by
      their offset from 0x1001, the configuration IDs one by one. */
  function Rank(id: u16): int
  {
    if id >= 0xF000 then (id - 0xF000) as int
    else if id <= 0x1009 then 3 + (id - 0x1001) as int
    else if id == 0x2011 then 12 else if id == 0x2012 then 13
    else if id == 0x2081 then 14 else if id == 0x2082 then 15
    else if id == 0x2091 then 16 else 17
  }

  /** Each named ID's rank is its position. */
  lemma IdRank(i: int)
    requires 0 <= i < |NamedIds|
    ensures Rank(NamedIds[i]) == i
  {
    var g := [GeneralCmdAck, QueryRadarStatus, HealthMonitor];
    var c := [CfgRadarPosition, CfgRadarPositionAck, CfgRadarIp, CfgRadarIpAck, CfgSilentZone, CfgSilentZoneAck];
    assert NamedIds == g + Commands + c;
    if i < 3 {
      assert NamedIds[i] == g[i];
    } else if i < 12 {
      assert NamedIds[i] == Commands[i - 3];
      CommandsConsecutive();
    } else {
      assert NamedIds[i] == c[i - 12];
    }
  }
}
