/** Well-formed IPTS data: frames as trees, how they are written as bytes, and that parsing these bytes reads the leaves
    in order. */
module IptsFrames {
  import opened ByteReader
  import opened Common
  import opened IptsProtocol
  import Recording

  datatype Report = Report(reportType: Byte, flags: Byte, payload: seq<Byte>)

  /** A group of a legacy frame. */
  datatype Group = Group(index: nat, groupType: nat, reserved: seq<Byte>, reports: seq<Report>)

  datatype Frame =
    | Frames(frames: seq<Frame>)
    | HeatmapData(payload: seq<Byte>)
    | MetadataData(payload: seq<Byte>)
    | Legacy(counter: seq<Byte>, reserved: seq<Byte>, groups: seq<Group>)
    | Reports(reports: seq<Report>)
    | Unknown(frameType: Byte, payload: seq<Byte>)

  // ---------------------------------------------------------------- bytes

  function EncodeReport(r: Report): seq<Byte> {
    [r.reportType, r.flags] + Recording.ToBytes(|r.payload|, 2) + r.payload
  }

  function EncodeReports(reports: seq<Report>): seq<Byte> {
    if reports == [] then [] else EncodeReport(reports[0]) + EncodeReports(reports[1..])
  }

  function EncodeGroup(g: Group): seq<Byte> {
    var payload := EncodeReports(g.reports);
    Recording.ToBytes(g.index, 2) + Recording.ToBytes(g.groupType, 2) + Recording.ToBytes(|payload|, 4) + g.reserved
        + payload
  }

  function EncodeGroups(groups: seq<Group>): seq<Byte> {
    if groups == [] then [] else EncodeGroup(groups[0]) + EncodeGroups(groups[1..])
  }

  function TypeOf(f: Frame): Byte {
    match f
    case Frames(_) => 0x00
    case HeatmapData(_) => 0x01
    case MetadataData(_) => 0x02
    case Legacy(_, _, _) => 0xEE
    case Reports(_) => 0xFF
    case Unknown(t, _) => t
  }

  function Payload(f: Frame): seq<Byte>
    decreases f, 0
  {
    match f
    case Frames(frames) => EncodeFrames(frames)
    case HeatmapData(payload) => payload
    case MetadataData(payload) => payload
    case Legacy(counter, reserved, groups) => counter + Recording.ToBytes(|groups|, 4) + reserved + EncodeGroups(groups)
    case Reports(reports) => EncodeReports(reports)
    case Unknown(_, payload) => payload
  }

  function Encode(f: Frame): seq<Byte>
    decreases f, 1
  {
    var payload := Payload(f);
    Recording.ToBytes(7 + |payload|, 4) + [0, TypeOf(f), 0] + payload
  }

  function EncodeFrames(frames: seq<Frame>): seq<Byte>
    decreases frames
  {
    if frames == [] then [] else Encode(frames[0]) + EncodeFrames(frames[1..])
  }

  // ---------------------------------------------------------------- meaning

  /** What is left of the frames once their nesting is gone: payloads and where they are. */
  datatype Leaf =
    | ReportLeaf(reportType: Byte, payload: seq<Byte>, at: nat)
    | HeatmapLeaf(payload: seq<Byte>, at: nat)
    | MetadataLeaf(payload: seq<Byte>, at: nat)

  function Read(s: State, leaf: Leaf): Out {
    match leaf
    case ReportLeaf(reportType, payload, at) => Body(s, reportType, payload, at)
    case HeatmapLeaf(payload, at) => HeatmapFrame(s, payload, at)
    case MetadataLeaf(payload, at) => MetadataFrame(s, payload, at)
  }

  /** Reads the leaves one after the other, up to the first that cannot be read. */
  function ReadAll(s: State, leaves: seq<Leaf>): Out
    decreases |leaves|
  {
    if leaves == [] then Out(s, [], Done)
    else
      var o := Read(s, leaves[0]);
      if o.status.Failed? then o else Then(o, ReadAll(o.state, leaves[1..]))
  }

  function ReportLeaves(reports: seq<Report>, at: nat): seq<Leaf> {
    if reports == [] then []
    else
      [ReportLeaf(reports[0].reportType, reports[0].payload, at + 4)]
          + ReportLeaves(reports[1..], at + |EncodeReport(reports[0])|)
  }

  /** Only groups with stylus or touch data are read. */
  function LeavesOfGroup(g: Group, at: nat): seq<Leaf> {
    if g.groupType == 0x6 || g.groupType == 0x8 then ReportLeaves(g.reports, at + 16) else []
  }

  function GroupLeaves(groups: seq<Group>, at: nat): seq<Leaf> {
    if groups == [] then [] else LeavesOfGroup(groups[0], at) + GroupLeaves(groups[1..], at + |EncodeGroup(groups[0])|)
  }

  function Leaves(f: Frame, at: nat): seq<Leaf>
    decreases f, 0
  {
    match f
    case Frames(frames) => FrameLeaves(frames, at + 7)
    case HeatmapData(payload) => [HeatmapLeaf(payload, at + 7)]
    case MetadataData(payload) => [MetadataLeaf(payload, at + 7)]
    case Legacy(_, _, groups) => GroupLeaves(groups, at + 19)
    case Reports(reports) => ReportLeaves(reports, at + 7)
    case Unknown(_, _) => []
  }

  function FrameLeaves(frames: seq<Frame>, at: nat): seq<Leaf>
    decreases frames
  {
    if frames == [] then [] else Leaves(frames[0], at) + FrameLeaves(frames[1..], at + |Encode(frames[0])|)
  }

  // ---------------------------------------------------------------- well-formed frames

  /** The sizes fit their fields, and nothing empty is at the end of its chunk, where it could not be told from missing
      data. */
  predicate FineReport(r: Report, last: bool) {
    |r.payload| < 0x1_0000 && (r.payload == [] ==> !last)
  }

  predicate FineReports(reports: seq<Report>) {
    reports != [] ==> FineReport(reports[0], |reports| == 1) && FineReports(reports[1..])
  }

  predicate FineGroup(g: Group, last: bool) {
    && g.index < 0x1_0000 && g.groupType < 0x1_0000 && |g.reserved| == 8
    && |EncodeReports(g.reports)| < TWO32 && (g.reports == [] ==> !last)
    && FineReports(g.reports)
  }

  predicate FineGroups(groups: seq<Group>) {
    groups != [] ==> FineGroup(groups[0], |groups| == 1) && FineGroups(groups[1..])
  }

  predicate FineFrame(f: Frame, last: bool)
    decreases f, 0
  {
    && |Payload(f)| + 7 < TWO32 && (Payload(f) == [] ==> !last)
    && match f
       case Frames(frames) => FineFrames(frames)
       case Legacy(counter, reserved, groups) => |counter| == 4 && |reserved| == 4 && |groups| < TWO32
           && FineGroups(groups)
       case Reports(reports) => FineReports(reports)
       case Unknown(frameType, _) => frameType !in [0x00, 0x01, 0x02, 0xEE, 0xFF]
       case _ => true
  }

  predicate FineFrames(frames: seq<Frame>)
    decreases frames
  {
    frames != [] ==> FineFrame(frames[0], |frames| == 1) && FineFrames(frames[1..])
  }

  // ---------------------------------------------------------------- reading leaves

  lemma {:induction false} ReadBoth(s: State, a: seq<Leaf>, b: seq<Leaf>)
    ensures ReadAll(s, a + b) ==
            var o := ReadAll(s, a);
            if o.status.Failed? then o else Then(o, ReadAll(o.state, b))
    decreases |a|
  {
    hide Read;
    if a == [] {
      assert a + b == b;
      assert Then(Out(s, [], Done), ReadAll(s, b)) == ReadAll(s, b);
    } else {
      assert (a + b)[1..] == a[1..] + b;
      var o := Read(s, a[0]);
      ReadBoth(o.state, a[1..], b);
      if o.status.Done? && ReadAll(o.state, a[1..]).status.Done? {
        var p := ReadAll(o.state, a[1..]);
        ThenIsAssociative(o, p, ReadAll(p.state, b));
      }
    }
  }

  lemma ThenIsAssociative(a: Out, b: Out, c: Out)
    ensures Then(Then(a, b), c) == Then(a, Then(b, c))
  {
  }

  lemma ReadOne(s: State, leaf: Leaf)
    ensures ReadAll(s, [leaf]) == Read(s, leaf)
  {
    hide Read;
    var o := Read(s, leaf);
    assert Then(o, Out(o.state, [], Done)) == o.(status := Done);
  }

  // ---------------------------------------------------------------- reports

  lemma Number(v: nat, width: nat)
    requires (width == 2 && v < 0x1_0000) || (width == 4 && v < TWO32)
    ensures LittleEndian(Recording.ToBytes(v, width)) == v
  {
    Recording.Widths();
    assert Recording.Pow256(2) == 0x1_0000;
    Recording.NumberRoundTrip(v, width);
  }

  lemma ReportShape(r: Report, tail: seq<Byte>)
    requires |r.payload| < 0x1_0000
    ensures var b := EncodeReport(r) + tail;
            && |EncodeReport(r)| == 4 + |r.payload| && |b| >= 4
            && b[0] == r.reportType && ReportSize(b) == |r.payload|
            && b[4..4 + |r.payload|] == r.payload && b[4 + |r.payload|..] == tail
  {
    Number(|r.payload|, 2);
    var b := EncodeReport(r) + tail;
    assert b[2..4] == Recording.ToBytes(|r.payload|, 2);
  }

  lemma FirstReportDecodes(s: State, r: Report, tail: seq<Byte>, at: nat)
    requires FineReport(r, tail == [])
    ensures ReportFits(EncodeReport(r) + tail)
    ensures ReportFrame(s, EncodeReport(r) + tail, at) == Read(s, ReportLeaf(r.reportType, r.payload, at + 4))
  {
    hide ReportSize, Body, EncodeReport;
    ReportShape(r, tail);
  }

  lemma {:induction false} ReportsDecode(s: State, reports: seq<Report>, at: nat)
    requires FineReports(reports)
    ensures ReportFrames(s, EncodeReports(reports), at) == ReadAll(s, ReportLeaves(reports, at))
    ensures EncodeReports(reports) == [] <==> reports == []
    decreases |reports|
  {
    hide ReportSize, Read, EncodeReport, ReportFrame, ReportFits;
    if reports != [] {
      var r, tail := reports[0], EncodeReports(reports[1..]);
      var leaf := ReportLeaf(r.reportType, r.payload, at + 4);
      var o := Read(s, leaf);
      ReportShape(r, tail);
      ReportsDecode(o.state, reports[1..], at + |EncodeReport(r)|);
      FirstReportDecodes(s, r, tail, at);
      ReadBoth(s, [leaf], ReportLeaves(reports[1..], at + |EncodeReport(r)|));
      ReadOne(s, leaf);
    }
  }

  // ---------------------------------------------------------------- legacy groups

  lemma GroupShape(g: Group, tail: seq<Byte>)
    requires g.index < 0x1_0000 && g.groupType < 0x1_0000 && |g.reserved| == 8 && |EncodeReports(g.reports)| < TWO32
    ensures var b := EncodeGroup(g) + tail;
            var n := |EncodeReports(g.reports)|;
            && |EncodeGroup(g)| == 16 + n && |b| >= 16
            && U16(b, 2) == g.groupType && U32(b, 4) == n
            && b[16..16 + n] == EncodeReports(g.reports) && b[16 + n..] == tail
  {
    hide EncodeReports, Recording.ToBytes, LittleEndian;
    var n := |EncodeReports(g.reports)|;
    Number(g.groupType, 2);
    Number(n, 4);
    var b := EncodeGroup(g) + tail;
    assert b[2..4] == Recording.ToBytes(g.groupType, 2);
    assert b[4..8] == Recording.ToBytes(n, 4);
  }

  lemma FirstGroupDecodes(s: State, g: Group, tail: seq<Byte>, at: nat, count: nat)
    requires FineGroup(g, tail == []) && count > 0
    ensures LegacyGroups(s, EncodeGroup(g) + tail, at, count) ==
            var o := ReadAll(s, LeavesOfGroup(g, at));
            if o.status.Failed? then o else Then(o, LegacyGroups(o.state, tail, at + |EncodeGroup(g)|, count - 1))
  {
    hide U16, U32, ReportFrames, EncodeGroup, EncodeReports, ReportLeaves, FineReports;
    GroupShape(g, tail);
    ReportsDecode(s, g.reports, at + 16);
    assert GroupFits(EncodeGroup(g) + tail);
  }

  lemma GroupsUnfold(groups: seq<Group>, at: nat)
    ensures groups == [] ==> EncodeGroups(groups) == [] && GroupLeaves(groups, at) == []
    ensures groups != [] ==>
              && EncodeGroups(groups) == EncodeGroup(groups[0]) + EncodeGroups(groups[1..])
              && GroupLeaves(groups, at) ==
                   LeavesOfGroup(groups[0], at) + GroupLeaves(groups[1..], at + |EncodeGroup(groups[0])|)
    ensures FineGroups(groups) && groups != [] ==> FineGroup(groups[0], |groups| == 1) && FineGroups(groups[1..])
  {
    hide EncodeGroup, FineGroup;
  }

  lemma FineGroupFits(g: Group, last: bool)
    requires FineGroup(g, last)
    ensures g.index < 0x1_0000 && g.groupType < 0x1_0000 && |g.reserved| == 8 && |EncodeReports(g.reports)| < TWO32
  {
    hide EncodeReports, FineReports;
  }

  lemma {:induction false} GroupsDecode(s: State, groups: seq<Group>, at: nat)
    requires FineGroups(groups)
    ensures LegacyGroups(s, EncodeGroups(groups), at, |groups|) == ReadAll(s, GroupLeaves(groups, at))
    ensures EncodeGroups(groups) == [] <==> groups == []
    decreases |groups|
  {
    hide *;
    GroupsUnfold(groups, at);
    if groups == [] {
      NoGroups(s, at);
    } else {
      var g, tail := groups[0], EncodeGroups(groups[1..]);
      var o := ReadAll(s, LeavesOfGroup(g, at));
      FineGroupFits(g, |groups| == 1);
      GroupShape(g, tail);
      GroupsDecode(o.state, groups[1..], at + |EncodeGroup(g)|);
      assert groups[1..] == [] <==> |groups| == 1;
      FirstGroupDecodes(s, g, tail, at, |groups|);
      ReadBoth(s, LeavesOfGroup(g, at), GroupLeaves(groups[1..], at + |EncodeGroup(g)|));
    }
  }

  lemma NoGroups(s: State, at: nat)
    ensures LegacyGroups(s, [], at, 0) == ReadAll(s, [])
  {
  }

  lemma LegacyShape(counter: seq<Byte>, reserved: seq<Byte>, count: nat, rest: seq<Byte>)
    requires |counter| == 4 && |reserved| == 4 && count < TWO32
    ensures var p := counter + Recording.ToBytes(count, 4) + reserved + rest;
            |p| >= 12 && U32(p, 4) == count && p[12..] == rest
  {
    hide Recording.ToBytes, LittleEndian;
    Number(count, 4);
    var p := counter + Recording.ToBytes(count, 4) + reserved + rest;
    assert p[4..8] == Recording.ToBytes(count, 4);
  }

  lemma LegacyDecodes(s: State, f: Frame, at: nat)
    requires f.Legacy? && FineFrame(f, true)
    ensures LegacyFrame(s, Payload(f), at) == ReadAll(s, GroupLeaves(f.groups, at + 12))
  {
    hide FineGroups, EncodeGroups, U32, LegacyGroups, GroupLeaves, ReadAll;
    LegacyShape(f.counter, f.reserved, |f.groups|, EncodeGroups(f.groups));
    GroupsDecode(s, f.groups, at + 12);
  }

  // ---------------------------------------------------------------- frames

  lemma FrameShape(f: Frame, tail: seq<Byte>)
    requires |Payload(f)| + 7 < TWO32
    ensures var b := Encode(f) + tail;
            var n := |Payload(f)|;
            && |Encode(f)| == 7 + n && |b| >= 7
            && b[5] == TypeOf(f) && HidPayload(b) == n
            && b[7..7 + n] == Payload(f) && b[7 + n..] == tail
  {
    hide Payload, Recording.ToBytes, LittleEndian;
    var n := |Payload(f)|;
    Number(7 + n, 4);
    var b := Encode(f) + tail;
    assert b[0..4] == Recording.ToBytes(7 + n, 4);
  }

  /** The parser drops a frame of reports if exactly four bytes follow it. */
  predicate Dropped(f: Frame, tail: seq<Byte>) {
    f.Reports? && |tail| == 4
  }

  lemma FrameFits(f: Frame, tail: seq<Byte>)
    requires FineFrame(f, tail == [])
    ensures HidFits(Encode(f) + tail)
    ensures IsQuirk(Encode(f) + tail) == Dropped(f, tail)
    ensures HidUsed(Encode(f) + tail) == |Encode(f)| + if Dropped(f, tail) then 4 else 0
  {
    hide Payload, HidPayload, Encode, FineFrames, FineReports, FineGroups;
    FrameShape(f, tail);
  }

  /** Parsing an encoded frame reads its leaves in order. */
  lemma {:induction false} FrameDecodes(s: State, f: Frame, tail: seq<Byte>, at: nat)
    requires FineFrame(f, tail == []) && !Dropped(f, tail)
    ensures HidFrame(s, Encode(f) + tail, at) == ReadAll(s, Leaves(f, at))
    decreases f, 0
  {
    hide HidPayload, Encode, EncodeReports, EncodeGroups, FineReports, FineGroups, FineFrames, HeatmapFrame,
        MetadataFrame, LegacyFrame, ReportFrames, HidFrames;
    FrameShape(f, tail);
    FrameFits(f, tail);
    match f
    case Frames(frames) => FramesDecode(s, frames, at + 7);
    case HeatmapData(payload) => ReadOne(s, HeatmapLeaf(payload, at + 7));
    case MetadataData(payload) => ReadOne(s, MetadataLeaf(payload, at + 7));
    case Legacy(_, _, _) => LegacyDecodes(s, f, at + 7);
    case Reports(reports) => ReportsDecode(s, reports, at + 7);
    case Unknown(_, _) =>
  }

  lemma FramesUnfold(frames: seq<Frame>, at: nat)
    ensures frames == [] ==> EncodeFrames(frames) == [] && FrameLeaves(frames, at) == []
    ensures frames != [] ==>
              && EncodeFrames(frames) == Encode(frames[0]) + EncodeFrames(frames[1..])
              && FrameLeaves(frames, at) == Leaves(frames[0], at) + FrameLeaves(frames[1..], at + |Encode(frames[0])|)
    ensures FineFrames(frames) && frames != [] ==> FineFrame(frames[0], |frames| == 1) && FineFrames(frames[1..])
  {
    hide Encode, FineFrame, Leaves;
  }

  lemma HidFramesUnfold(s: State, rest: seq<Byte>, at: nat)
    ensures rest == [] ==> HidFrames(s, rest, at) == ReadAll(s, [])
    ensures rest != [] && HidFits(rest) ==>
              HidFrames(s, rest, at) ==
              var o := HidFrame(s, rest, at);
              if o.status.Failed? then o else Then(o, HidFrames(o.state, rest[HidUsed(rest)..], at + HidUsed(rest)))
  {
    hide HidFrame, HidFits, HidUsed;
  }

  lemma {:induction false} FramesDecode(s: State, frames: seq<Frame>, at: nat)
    requires FineFrames(frames)
    ensures HidFrames(s, EncodeFrames(frames), at) == ReadAll(s, FrameLeaves(frames, at))
    ensures EncodeFrames(frames) == [] <==> frames == []
    decreases frames, 1
  {
    hide *;
    FramesUnfold(frames, at);
    HidFramesUnfold(s, EncodeFrames(frames), at);
    if frames != [] {
      var f, tail := frames[0], EncodeFrames(frames[1..]);
      SmallFrame(f, |frames| == 1);
      FrameShape(f, tail);
      var o := ReadAll(s, Leaves(f, at));
      FramesDecode(o.state, frames[1..], at + |Encode(f)|);
      assert frames[1..] == [] <==> |frames| == 1;
      NotDropped(f, frames[1..]);
      FrameFits(f, tail);
      FrameDecodes(s, f, tail, at);
      ReadBoth(s, Leaves(f, at), FrameLeaves(frames[1..], at + |Encode(f)|));
      assert (Encode(f) + tail)[|Encode(f)|..] == tail;
    }
  }

  /** Within a frame, a frame of reports is never followed by just four bytes, as other frames are longer. */
  lemma NotDropped(f: Frame, frames: seq<Frame>)
    ensures !Dropped(f, EncodeFrames(frames))
  {
    hide Payload, Recording.ToBytes;
  }

  lemma SmallFrame(f: Frame, last: bool)
    requires FineFrame(f, last)
    ensures |Payload(f)| + 7 < TWO32 && FineFrame(f, false)
  {
  }

  /** A report with one well-formed frame: parsing it reads the leaves of that frame, however they are nested. */
  lemma BufferDecodes(s: State, header: seq<Byte>, f: Frame)
    requires FineFrame(f, true)
    ensures Buffer(s, header + Encode(f), |header|) == ReadAll(s, Leaves(f, |header|))
  {
    hide Encode, HidFrame, FineFrame, Leaves, ReadAll, Payload;
    assert (header + Encode(f))[|header|..] == Encode(f) + [];
    SmallFrame(f, true);
    FrameShape(f, []);
    FrameDecodes(s, f, [], |header|);
  }

  /** The exception: a frame of reports that is followed by four bytes is passed over. */
  lemma ReportsBeforeFourBytesAreDropped(s: State, f: Frame, tail: seq<Byte>, at: nat)
    requires FineFrame(f, false) && Dropped(f, tail)
    ensures HidFrame(s, Encode(f) + tail, at) == Out(s, [], Done)
    ensures HidUsed(Encode(f) + tail) == |Encode(f) + tail|
  {
    hide HidPayload, Encode, FineFrame, ReportFrames, Payload;
    FrameFits(f, tail);
    SmallFrame(f, false);
    FrameShape(f, tail);
  }
}
