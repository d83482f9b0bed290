/** The trail bookkeeping of the radar scope widget
    (src/RadarScopeWidget.cpp): every parsed track report adds a point to
    the trail of its track id, creating the trail on first sight; a periodic
    cleanup drops stale points from the front of each trail and then the
    trails left empty. Screen geometry and painting are not modelled: a
    point keeps the raw distance and azimuth it would be drawn from. */
module RadarScopeWidget {
  import opened Bytes
  import opened Text
  import opened TrackMessage

  // ---------------------------------------------------------------------
  // Type and size label
  // ---------------------------------------------------------------------

  /** The target-type part of `typeSizeLabel`. */
  function TypeName(targetType: int): string
  {
    match targetType
    case 0 => "未知"
    case 1 => "旋翼"
    case 2 => "固定翼"
    case 3 => "直升机"
    case 4 => "民航"
    case 5 => "车辆"
    case _ => "?" + IntToDecimal(targetType)
  }

  /** The target-size part of `typeSizeLabel`. */
  function SizeName(targetSize: int): string
  {
    match targetSize
    case 0 => "小"
    case 1 => "中"
    case 2 => "大"
    case 3 => "特大"
    case _ => "?" + IntToDecimal(targetSize)
  }

  /** `RadarScopeWidget::typeSizeLabel`: type, a middle dot, size. */
  function TypeSizeLabel(targetType: int, targetSize: int): string
  {
    TypeName(targetType) + "·" + SizeName(targetSize)
  }

  /** A name holds no middle dot, so the dot in a label separates the two
      parts. */
  lemma {:induction false} NamesHaveNoDot(v: int)
    ensures '·' !in TypeName(v) && '·' !in SizeName(v)
  {
    if v < 0 || v > 5 {
      UnknownName(v);
    }
  }

  lemma UnknownName(v: int)
    ensures var s := "?" + IntToDecimal(v);
      |s| >= 2 && s[0] == '?' && s[1..] == IntToDecimal(v) && '·' !in s
  {
    var s := "?" + IntToDecimal(v);
    assert s[1..] == IntToDecimal(v);
    if v < 0 {
      assert IntToDecimal(v) == "-" + NatToDecimal(-v);
    }
  }

  /** Reads a type name back: one of the six names, or `?` and the
      printed number. Anything else reads as -1. */
  function TypeOfName(name: string): int
  {
    if name == "未知" then 0
    else if name == "旋翼" then 1
    else if name == "固定翼" then 2
    else if name == "直升机" then 3
    else if name == "民航" then 4
    else if name == "车辆" then 5
    else if |name| >= 1 && name[0] == '?' && IsIntText(name[1..]) then IntDecimalValue(name[1..])
    else -1
  }

  /** Reads a size name back, as `TypeOfName` does. */
  function SizeOfName(name: string): int
  {
    if name == "小" then 0
    else if name == "中" then 1
    else if name == "大" then 2
    else if name == "特大" then 3
    else if |name| >= 1 && name[0] == '?' && IsIntText(name[1..]) then IntDecimalValue(name[1..])
    else -1
  }

  /** Every type, known or not, can be read back from its name. */
  lemma TypeNameRoundTrip(t: int)
    ensures TypeOfName(TypeName(t)) == t
  {
    if t < 0 || t > 5 {
      UnknownName(t);
      IntDecimalRoundTrip(t);
    }
  }

  /** Every size, known or not, can be read back from its name. */
  lemma SizeNameRoundTrip(v: int)
    ensures SizeOfName(SizeName(v)) == v
  {
    if v < 0 || v > 3 {
      UnknownName(v);
      IntDecimalRoundTrip(v);
    }
  }

  /** The part of a string before the first occurrence of `sep`. */
  function PrefixBefore(s: string, sep: char): (r: string)
    ensures |r| <= |s|
  {
    if s == [] || s[0] == sep then [] else [s[0]] + PrefixBefore(s[1..], sep)
  }

  lemma {:induction false} PrefixBeforeSeparator(x: string, y: string, sep: char)
    requires sep !in x
    ensures PrefixBefore(x + [sep] + y, sep) == x
  {
    var s := x + [sep] + y;
    if x == [] {
      assert s[0] == sep;
    } else {
      assert s[0] == x[0];
      assert s[1..] == x[1..] + [sep] + y;
      PrefixBeforeSeparator(x[1..], y, sep);
    }
  }

  /** Splitting at a separator that neither left part contains. */
  lemma SplitAtSeparator(x: string, y: string, x': string, y': string, sep: char)
    requires sep !in x && sep !in x'
    requires x + [sep] + y == x' + [sep] + y'
    ensures x == x' && y == y'
  {
    var s := x + [sep] + y;
    PrefixBeforeSeparator(x, y, sep);
    PrefixBeforeSeparator(x', y', sep);
    assert y == s[|x| + 1..] == y';
  }

  /** The label determines both the type and the size. */
  lemma TypeSizeLabelInjective(t: int, s: int, t': int, s': int)
    requires TypeSizeLabel(t, s) == TypeSizeLabel(t', s')
    ensures t == t' && s == s'
  {
    NamesHaveNoDot(t);
    NamesHaveNoDot(t');
    SplitAtSeparator(TypeName(t), SizeName(s), TypeName(t'), SizeName(s'), '·');
    TypeNameRoundTrip(t);
    TypeNameRoundTrip(t');
    SizeNameRoundTrip(s);
    SizeNameRoundTrip(s');
  }

  // ---------------------------------------------------------------------
  // Trails
  // ---------------------------------------------------------------------

  /** A trail point: the polar position it is drawn from and its time. */
  datatype TrailPoint = TrailPoint(distance: u32, azimuth: u32, ms: int)

  /** A trail: the track id, its points (oldest first) and what the last
      report said about the target. */
  datatype Trail = Trail(id: u16, points: seq<TrailPoint>, targetType: byte, targetSize: byte,
                         lastDistance: u32, identityKnown: bool)

  /** An on-screen notice and the time it was raised. */
  datatype Notice = Notice(text: string, ms: int)

  /** A freshly created trail: its id and nothing else. */
  function NewTrail(id: u16): Trail
  {
    Trail(id, [], 0, 0, 0, false)
  }

  /** The notice raised for a new track id. */
  function NewTargetNotice(id: u16, now: int): Notice
  {
    Notice("发现新目标 #" + NatToDecimal(id as nat), now)
  }

  /** No two trails share a track id. */
  ghost predicate UniqueIds(trails: seq<Trail>)
  {
    forall j, k :: 0 <= j < k < |trails| ==> trails[j].id != trails[k].id
  }

  /** Every trail holds at most `maxPoints` points. */
  ghost predicate Capped(trails: seq<Trail>, maxPoints: int)
  {
    forall k :: 0 <= k < |trails| ==> |trails[k].points| <= maxPoints
  }

  /** The position of the first trail with id `id`, or -1 (`find_if`). */
  function IndexOfTrail(trails: seq<Trail>, id: u16): (k: int)
    ensures -1 <= k < |trails|
    ensures k >= 0 ==> trails[k].id == id && forall j :: 0 <= j < k ==> trails[j].id != id
    ensures k == -1 ==> forall j :: 0 <= j < |trails| ==> trails[j].id != id
  {
    if |trails| == 0 then -1
    else if trails[0].id == id then 0
    else
      var k := IndexOfTrail(trails[1..], id);
      if k < 0 then -1 else k + 1
  }

  /** `std::find_if` over the trails. */
  method FindTrail(trails: seq<Trail>, id: u16) returns (k: int)
    ensures k == IndexOfTrail(trails, id)
  {
    k := 0;
    while k < |trails|
      invariant 0 <= k <= |trails|
      invariant forall j :: 0 <= j < k ==> trails[j].id != id
    {
      if trails[k].id == id {
        return;
      }
      k := k + 1;
    }
    k := -1;
  }

  /** Appends a point, dropping the oldest one when the trail then holds
      more than `maxPoints`. */
  function PushCapped(points: seq<TrailPoint>, p: TrailPoint, maxPoints: int): seq<TrailPoint>
  {
    var grown := points + [p];
    if |grown| > maxPoints then grown[1..] else grown
  }

  /** The trail after one report about its target. */
  function UpdateTrail(t: Trail, info: TrackInfo, maxPoints: int, now: int): Trail
  {
    Trail(t.id, PushCapped(t.points, TrailPoint(info.distance, info.azimuth, now), maxPoints),
          info.targetType, info.targetSize, info.distance, info.targetType != 0)
  }

  /** The trails after a report: the trail of the report's track id is
      updated, or a new one is appended at the end and then updated. */
  function ApplyReport(trails: seq<Trail>, info: TrackInfo, maxPoints: int, now: int): seq<Trail>
  {
    var k := IndexOfTrail(trails, info.trackId);
    var base := if k < 0 then trails + [NewTrail(info.trackId)] else trails;
    var at := if k < 0 then |trails| else k;
    base[at := UpdateTrail(base[at], info, maxPoints, now)]
  }

  /** The notices a report raises: one, for a new track id when notices
      are shown. */
  function ReportNotices(trails: seq<Trail>, id: u16, showNotices: bool, now: int): seq<Notice>
  {
    if IndexOfTrail(trails, id) < 0 && showNotices then [NewTargetNotice(id, now)] else []
  }

  /** A report updates exactly one trail, the one with its id; the others
      keep their place and contents, and a trail is added, at the end, only
      when the id was absent. */
  lemma ApplyReportShape(trails: seq<Trail>, info: TrackInfo, maxPoints: int, now: int)
    ensures var r := ApplyReport(trails, info, maxPoints, now);
      var k := IndexOfTrail(trails, info.trackId);
      var at := if k < 0 then |trails| else k;
      |r| == |trails| + (if k < 0 then 1 else 0)
      && r[at].id == info.trackId
      && r[at].targetType == info.targetType && r[at].targetSize == info.targetSize
      && r[at].lastDistance == info.distance
      && (r[at].identityKnown <==> info.targetType != 0)
      && (forall j :: 0 <= j < |trails| && j != at ==> r[j] == trails[j])
  {
  }

  /** The report's point becomes the newest of its trail (unless the cap
      is below one), and the trail keeps its earlier points, losing at most
      the oldest one. */
  lemma ApplyReportPoint(trails: seq<Trail>, info: TrackInfo, maxPoints: int, now: int)
    ensures var r := ApplyReport(trails, info, maxPoints, now);
      var k := IndexOfTrail(trails, info.trackId);
      var at := if k < 0 then |trails| else k;
      var grown := (if k < 0 then [] else trails[k].points) + [TrailPoint(info.distance, info.azimuth, now)];
      var after := r[at].points;
      |grown| - 1 <= |after| <= |grown| && after == grown[|grown| - |after|..]
      && (maxPoints >= 1 ==> after != [] && after[|after| - 1] == TrailPoint(info.distance, info.azimuth, now))
  {
  }

  /** Reports keep track ids unique. */
  lemma {:induction false} ApplyReportKeepsIdsUnique(trails: seq<Trail>, info: TrackInfo, maxPoints: int, now: int)
    requires UniqueIds(trails)
    ensures UniqueIds(ApplyReport(trails, info, maxPoints, now))
  {
    var r := ApplyReport(trails, info, maxPoints, now);
    var k := IndexOfTrail(trails, info.trackId);
    forall j, l | 0 <= j < l < |r|
      ensures r[j].id != r[l].id
    {
      if k < 0 && l == |trails| {
        assert r[j].id == trails[j].id;
      } else {
        assert r[j].id == trails[j].id && r[l].id == trails[l].id;
      }
    }
  }

  /** Reports keep every trail within the point cap. */
  lemma ApplyReportKeepsCap(trails: seq<Trail>, info: TrackInfo, maxPoints: int, now: int)
    requires maxPoints >= 0 && Capped(trails, maxPoints)
    ensures Capped(ApplyReport(trails, info, maxPoints, now), maxPoints)
  {
  }

  /** Drops points from the front while they are older than `keepMs`. */
  function PruneFront(points: seq<TrailPoint>, now: int, keepMs: int): seq<TrailPoint>
  {
    if points != [] && now - points[0].ms > keepMs then PruneFront(points[1..], now, keepMs) else points
  }

  /** Pruning keeps a suffix, drops only stale points, and stops at the
      first fresh one. */
  lemma {:induction false} PruneFrontSuffix(points: seq<TrailPoint>, now: int, keepMs: int)
    ensures var r := PruneFront(points, now, keepMs);
      |r| <= |points| && r == points[|points| - |r|..]
      && (forall k :: 0 <= k < |points| - |r| ==> now - points[k].ms > keepMs)
      && (r != [] ==> now - r[0].ms <= keepMs)
  {
    if points != [] && now - points[0].ms > keepMs {
      PruneFrontSuffix(points[1..], now, keepMs);
      var r := PruneFront(points[1..], now, keepMs);
      assert points[1..][|points| - 1 - |r|..] == points[|points| - |r|..];
      forall k | 0 <= k < |points| - |r|
        ensures now - points[k].ms > keepMs
      {
        if k > 0 {
          assert points[k] == points[1..][k - 1];
        }
      }
    }
  }

  /** Points recorded in time order: after pruning, every point left is
      within `keepMs` of `now`. */
  lemma PruneFrontSorted(points: seq<TrailPoint>, now: int, keepMs: int)
    requires forall j, k :: 0 <= j < k < |points| ==> points[j].ms <= points[k].ms
    ensures forall p :: p in PruneFront(points, now, keepMs) ==> now - p.ms <= keepMs
  {
    PruneFrontSuffix(points, now, keepMs);
    var r := PruneFront(points, now, keepMs);
    forall p | p in r
      ensures now - p.ms <= keepMs
    {
      var k :| 0 <= k < |r| && r[k] == p;
      assert r[0] == points[|points| - |r|] && p == points[|points| - |r| + k];
    }
  }

  /** The trails without the empty ones, in their order. */
  function DropEmpty(trails: seq<Trail>): seq<Trail>
  {
    if trails == [] then []
    else (if trails[0].points == [] then [] else [trails[0]]) + DropEmpty(trails[1..])
  }

  /** Dropping keeps exactly the non-empty trails. */
  lemma {:induction false} DropEmptyMembers(trails: seq<Trail>)
    ensures forall t :: t in DropEmpty(trails) <==> t in trails && t.points != []
  {
    if trails != [] {
      DropEmptyMembers(trails[1..]);
      assert trails == [trails[0]] + trails[1..];
    }
  }

  /** The positions, counted from `base`, of the non-empty trails. */
  function KeptPositions(trails: seq<Trail>, base: nat): (pos: seq<nat>)
    ensures forall k :: 0 <= k < |pos| ==> base <= pos[k] < base + |trails|
  {
    if trails == [] then []
    else (if trails[0].points == [] then [] else [base]) + KeptPositions(trails[1..], base + 1)
  }

  /** `remove_if` keeps the survivors' relative order: the result is the
      input read at increasing positions. */
  lemma DropEmptyIsSubsequence(trails: seq<Trail>, base: nat)
    ensures var r := DropEmpty(trails);
      var pos := KeptPositions(trails, base);
      ReadAt(r, trails, pos, base) && Increasing(pos)
  {
    DropEmptyAt(trails, base);
    KeptPositionsIncrease(trails, base);
  }

  /** `r` is `trails` read at the positions `pos`, counted from `base`. */
  predicate ReadAt(r: seq<Trail>, trails: seq<Trail>, pos: seq<nat>, base: nat)
  {
    |pos| == |r| && forall k :: 0 <= k < |pos| ==> base <= pos[k] < base + |trails| && r[k] == trails[pos[k] - base]
  }

  /** Skipping a leading trail shifts the positions read by one. */
  lemma ReadAtSkip(t: Trail, tail: seq<Trail>, r: seq<Trail>, pos: seq<nat>, base: nat)
    requires ReadAt(r, tail, pos, base + 1)
    ensures ReadAt(r, [t] + tail, pos, base)
  {
    forall k | 0 <= k < |pos|
      ensures r[k] == ([t] + tail)[pos[k] - base]
    {
      assert r[k] == tail[pos[k] - (base + 1)];
    }
  }

  /** Keeping a leading trail reads it at `base`. */
  lemma ReadAtKeep(t: Trail, tail: seq<Trail>, r: seq<Trail>, pos: seq<nat>, base: nat)
    requires ReadAt(r, tail, pos, base + 1)
    ensures ReadAt([t] + r, [t] + tail, [base] + pos, base)
  {
    forall k | 0 <= k < |pos| + 1
      ensures ([t] + r)[k] == ([t] + tail)[([base] + pos)[k] - base]
    {
      if k > 0 {
        assert ([t] + r)[k] == r[k - 1] == tail[pos[k - 1] - (base + 1)];
      }
    }
  }

  lemma {:induction false} DropEmptyAt(trails: seq<Trail>, base: nat)
    ensures ReadAt(DropEmpty(trails), trails, KeptPositions(trails, base), base)
  {
    if trails != [] {
      var tail := trails[1..];
      DropEmptyAt(tail, base + 1);
      assert trails == [trails[0]] + tail;
      if trails[0].points == [] {
        ReadAtSkip(trails[0], tail, DropEmpty(tail), KeptPositions(tail, base + 1), base);
      } else {
        ReadAtKeep(trails[0], tail, DropEmpty(tail), KeptPositions(tail, base + 1), base);
      }
    }
  }

  /** Strictly increasing. */
  predicate Increasing(s: seq<nat>)
  {
    forall j, k :: 0 <= j < k < |s| ==> s[j] < s[k]
  }

  lemma {:induction false} KeptPositionsIncrease(trails: seq<Trail>, base: nat)
    ensures Increasing(KeptPositions(trails, base))
  {
    if trails != [] {
      var tail := trails[1..];
      KeptPositionsIncrease(tail, base + 1);
      var rest := KeptPositions(tail, base + 1);
      var h := if trails[0].points == [] then 0 else 1;
      var pos := KeptPositions(trails, base);
      assert pos == (if h == 0 then [] else [base]) + rest;
      forall j, k | 0 <= j < k < |pos|
        ensures pos[j] < pos[k]
      {
        assert pos[k] == rest[k - h] > base;
        if j >= h {
          assert 0 <= j - h < k - h < |rest|;
          assert pos[j] == rest[j - h] < rest[k - h];
        } else {
          assert pos[j] == base;
        }
      }
    }
  }

  /** Dropping trails keeps ids unique and trails within the cap. */
  lemma {:induction false} DropEmptyKeepsInvariants(trails: seq<Trail>, maxPoints: int)
    ensures UniqueIds(trails) ==> UniqueIds(DropEmpty(trails))
    ensures Capped(trails, maxPoints) ==> Capped(DropEmpty(trails), maxPoints)
  {
    DropEmptyIsSubsequence(trails, 0);
    var r := DropEmpty(trails);
    var pos := KeptPositions(trails, 0);
    if UniqueIds(trails) {
      forall j, k | 0 <= j < k < |r|
        ensures r[j].id != r[k].id
      {
        assert r[j] == trails[pos[j]] && r[k] == trails[pos[k]];
      }
    }
    if Capped(trails, maxPoints) {
      forall k | 0 <= k < |r|
        ensures |r[k].points| <= maxPoints
      {
        assert r[k] == trails[pos[k]];
      }
    }
  }

  /** Each trail pruned, then the empty trails dropped. */
  function CleanupTrails(trails: seq<Trail>, now: int, keepMs: int): seq<Trail>
  {
    DropEmpty(PrunedAll(trails, now, keepMs))
  }

  function PrunedAll(trails: seq<Trail>, now: int, keepMs: int): (r: seq<Trail>)
    ensures |r| == |trails|
    ensures forall k :: 0 <= k < |r| ==> r[k] == trails[k].(points := PruneFront(trails[k].points, now, keepMs))
  {
    seq(|trails|, k requires 0 <= k < |trails| => trails[k].(points := PruneFront(trails[k].points, now, keepMs)))
  }

  /** `t` is some trail of `trails` with its points pruned. */
  ghost predicate PrunedFrom(t: Trail, trails: seq<Trail>, now: int, keepMs: int)
  {
    exists k :: 0 <= k < |trails| && t == trails[k].(points := PruneFront(trails[k].points, now, keepMs))
  }

  /** The trails cleanup keeps are exactly the pruned trails that still
      hold a point: each keeps its id and attributes and only loses stale
      points from its front. */
  lemma CleanupResult(trails: seq<Trail>, now: int, keepMs: int)
    ensures forall t :: t in CleanupTrails(trails, now, keepMs) <==> t.points != [] && PrunedFrom(t, trails, now, keepMs)
  {
    var pruned := PrunedAll(trails, now, keepMs);
    DropEmptyMembers(pruned);
    forall t
      ensures t in pruned <==> PrunedFrom(t, trails, now, keepMs)
    {
      if t in pruned {
        var k :| 0 <= k < |pruned| && pruned[k] == t;
        assert t == trails[k].(points := PruneFront(trails[k].points, now, keepMs));
      }
      if PrunedFrom(t, trails, now, keepMs) {
        var k :| 0 <= k < |trails| && t == trails[k].(points := PruneFront(trails[k].points, now, keepMs));
        assert pruned[k] == t;
      }
    }
  }

  /** Cleanup keeps ids unique and trails within the cap. */
  lemma CleanupKeepsInvariants(trails: seq<Trail>, now: int, keepMs: int, maxPoints: int)
    requires UniqueIds(trails) && Capped(trails, maxPoints)
    ensures UniqueIds(CleanupTrails(trails, now, keepMs)) && Capped(CleanupTrails(trails, now, keepMs), maxPoints)
  {
    var pruned := PrunedAll(trails, now, keepMs);
    forall k | 0 <= k < |pruned|
      ensures |pruned[k].points| <= maxPoints
    {
      PruneFrontSuffix(trails[k].points, now, keepMs);
    }
    DropEmptyKeepsInvariants(pruned, maxPoints);
  }

  lemma CleanupKeepsIdsUnique(trails: seq<Trail>, now: int, keepMs: int)
    requires UniqueIds(trails)
    ensures UniqueIds(CleanupTrails(trails, now, keepMs))
  {
    DropEmptyKeepsInvariants(PrunedAll(trails, now, keepMs), 0);
  }

  // ---------------------------------------------------------------------
  // The widget's trail state
  // ---------------------------------------------------------------------

  /** The trail-related state of `RadarScopeWidget`. */
  class RadarScope {
    var trails: seq<Trail>
    var notices: seq<Notice>
    var maxTrailPoints: int
    var trailKeepMs: int
    var showNotices: bool

    /** The invariant every operation keeps: one trail per id, each within
        the point cap. */
    ghost predicate Valid()
      reads this
    {
      UniqueIds(trails) && (maxTrailPoints >= 0 ==> Capped(trails, maxTrailPoints))
    }

    constructor (maxTrailPoints: int, trailKeepMs: int, showNotices: bool)
      ensures Valid()
      ensures trails == [] && notices == []
      ensures this.maxTrailPoints == maxTrailPoints && this.trailKeepMs == trailKeepMs
      ensures this.showNotices == showNotices
    {
      trails := [];
      notices := [];
      this.maxTrailPoints := maxTrailPoints;
      this.trailKeepMs := trailKeepMs;
      this.showNotices := showNotices;
    }

    /** `onTrackDatagram`: filter, parse, then find or create the trail and
        record the report. `hasReadableMagic` is the filter the source calls
        but does not define. */
    method OnTrackDatagram(data: seq<byte>, hasReadableMagic: seq<byte> -> bool, now: int)
      requires Valid()
      modifies this
      ensures Valid()
      ensures maxTrailPoints == old(maxTrailPoints) && trailKeepMs == old(trailKeepMs)
      ensures showNotices == old(showNotices)
      ensures !hasReadableMagic(data) || |data| < TrackGuardLen ==>
        trails == old(trails) && notices == old(notices)
      ensures hasReadableMagic(data) && |data| >= TrackGuardLen ==>
        var info := DecodeTrack(data).info;
        trails == ApplyReport(old(trails), info, maxTrailPoints, now)
        && notices == old(notices) + ReportNotices(old(trails), info.trackId, showNotices, now)
    {
      if !hasReadableMagic(data) {
        return;
      }
      var ok, msg := ParseTrack(data, DefaultTrackMessage);
      if !ok {
        return;
      }
      RecordReport(msg.info, now);
    }

    /** The part of `onTrackDatagram` after parsing: find the trail of the
        report's id, or append a new one (raising a notice when notices are
        shown), then record the target's attributes and push the point,
        dropping the oldest point when the trail exceeds the cap. */
    method RecordReport(info: TrackInfo, now: int)
      requires Valid()
      modifies this
      ensures Valid()
      ensures maxTrailPoints == old(maxTrailPoints) && trailKeepMs == old(trailKeepMs)
      ensures showNotices == old(showNotices)
      ensures trails == ApplyReport(old(trails), info, maxTrailPoints, now)
      ensures notices == old(notices) + ReportNotices(old(trails), info.trackId, showNotices, now)
    {
      ghost var before := trails;
      var k := FindTrail(trails, info.trackId);
      var at := k;
      if k < 0 {
        var t := NewTrail(info.trackId);
        trails := trails + [t];
        at := |trails| - 1;
        if showNotices {
          notices := notices + [NewTargetNotice(t.id, now)];
        }
      }
      var t := trails[at];
      var points := t.points + [TrailPoint(info.distance, info.azimuth, now)];
      if |points| > maxTrailPoints {
        points := points[1..];
      }
      var updated := Trail(t.id, points, info.targetType, info.targetSize, info.distance, info.targetType != 0);
      assert updated == UpdateTrail(t, info, maxTrailPoints, now);
      trails := trails[at := updated];
      ApplyReportKeepsIdsUnique(before, info, maxTrailPoints, now);
      if maxTrailPoints >= 0 {
        ApplyReportKeepsCap(before, info, maxTrailPoints, now);
      }
    }

    /** The cleanup timer's handler: prune each trail from the front, then
        remove the empty trails. */
    method Cleanup(now: int)
      requires Valid()
      modifies this
      ensures Valid()
      ensures trails == CleanupTrails(old(trails), now, old(trailKeepMs))
      ensures notices == old(notices) && maxTrailPoints == old(maxTrailPoints)
      ensures trailKeepMs == old(trailKeepMs) && showNotices == old(showNotices)
    {
      ghost var before := trails;
      var keepMs := trailKeepMs;
      var i := 0;
      while i < |trails|
        invariant 0 <= i <= |trails| == |before|
        invariant notices == old(notices) && maxTrailPoints == old(maxTrailPoints)
        invariant trailKeepMs == old(trailKeepMs) && showNotices == old(showNotices)
        invariant forall k :: 0 <= k < i ==> trails[k] == before[k].(points := PruneFront(before[k].points, now, keepMs))
        invariant forall k :: i <= k < |trails| ==> trails[k] == before[k]
      {
        var t := trails[i];
        while t.points != [] && now - t.points[0].ms > keepMs
          invariant t == before[i].(points := t.points)
          invariant PruneFront(t.points, now, keepMs) == PruneFront(before[i].points, now, keepMs)
        {
          t := t.(points := t.points[1..]);
        }
        trails := trails[i := t];
        i := i + 1;
      }
      assert trails == PrunedAll(before, now, keepMs);
      trails := RemoveEmpty(trails);
      if maxTrailPoints >= 0 {
        CleanupKeepsInvariants(before, now, keepMs, maxTrailPoints);
      } else {
        CleanupKeepsIdsUnique(before, now, keepMs);
      }
    }

    /** `clearTrails`: forget every trail and notice. */
    method ClearTrails()
      modifies this
      ensures Valid()
      ensures trails == [] && notices == []
      ensures maxTrailPoints == old(maxTrailPoints) && trailKeepMs == old(trailKeepMs)
      ensures showNotices == old(showNotices)
    {
      trails := [];
      notices := [];
    }
  }

  /** The `erase(remove_if(...))` idiom: keep the non-empty trails in
      order. */
  method RemoveEmpty(trails: seq<Trail>) returns (kept: seq<Trail>)
    ensures kept == DropEmpty(trails)
  {
    kept := [];
    var i := 0;
    while i < |trails|
      invariant 0 <= i <= |trails|
      invariant kept == DropEmpty(trails[..i])
    {
      DropEmptyAppend(trails[..i], [trails[i]]);
      assert trails[..i + 1] == trails[..i] + [trails[i]];
      if trails[i].points != [] {
        kept := kept + [trails[i]];
      }
      i := i + 1;
    }
    assert trails[..i] == trails;
  }

  lemma {:induction false} DropEmptyAppend(a: seq<Trail>, b: seq<Trail>)
    ensures DropEmpty(a + b) == DropEmpty(a) + DropEmpty(b)
  {
    if a != [] {
      DropEmptyAppend(a[1..], b);
      assert (a + b)[1..] == a[1..] + b;
    } else {
      assert a + b == b;
    }
  }
}
