/** What holds for the parsing of any bytes at all. */
module IptsSafety {
  import opened ByteReader
  import opened Common
  import opened IptsProtocol

  /** `rest` is the part of the buffer that starts at offset `at`. */
  ghost predicate PartOf(whole: seq<Byte>, rest: seq<Byte>, at: nat) {
    at + |rest| <= |whole| && rest == whole[at..at + |rest|]
  }

  lemma PartOfPart(whole: seq<Byte>, rest: seq<Byte>, at: nat, a: nat, b: nat)
    requires PartOf(whole, rest, at) && a <= b <= |rest|
    ensures PartOf(whole, rest[a..b], at + a)
  {
    var cut := whole[at + a..at + b];
    assert |rest[a..b]| == |cut|;
    forall i | 0 <= i < b - a
      ensures rest[a..b][i] == cut[i]
    {
      assert rest[a + i] == whole[at + (a + i)];
    }
    assert at + a + |rest[a..b]| == at + b;
  }

  lemma RestOfPart(whole: seq<Byte>, rest: seq<Byte>, at: nat, a: nat)
    requires PartOf(whole, rest, at) && a <= |rest|
    ensures PartOf(whole, rest[a..], at + a)
  {
    assert rest[a..] == rest[a..|rest|];
    PartOfPart(whole, rest, at, a, |rest|);
  }

  /** The event lies within the buffer, and hands out exactly the bytes found there. */
  ghost predicate FromBuffer(whole: seq<Byte>, e: Event) {
    && e.from <= e.to <= |whole|
    && (e.Heatmap? || e.DftWindow? ==> e.bytes == whole[e.from..e.to])
  }

  /** The events lie between two offsets, one after the other without overlap. */
  ghost predicate Placed(whole: seq<Byte>, events: seq<Event>, lo: nat, hi: nat) {
    && (forall i | 0 <= i < |events| :: FromBuffer(whole, events[i]) && lo <= events[i].from && events[i].to <= hi)
    && (forall i, j | 0 <= i < j < |events| :: events[i].to <= events[j].from)
  }

  /** The dimensions that the latest of the dimensions reports gave. */
  function LatestDim(dim: Dimensions, events: seq<Event>): Dimensions {
    if events == [] then dim
    else if events[|events| - 1].DimensionsSeen? then events[|events| - 1].dim
    else LatestDim(dim, events[..|events| - 1])
  }

  /** Every heatmap has exactly as many bytes as its rows and columns need, which are those of the latest dimensions
      report. */
  ghost predicate HeatmapsFit(dim: Dimensions, events: seq<Event>) {
    forall i | 0 <= i < |events| && events[i].Heatmap? ::
      events[i].dim == LatestDim(dim, events[..i]) && |events[i].bytes| == events[i].dim.Pixels()
  }

  ghost predicate Good(whole: seq<Byte>, s: State, o: Out, lo: nat, hi: nat) {
    && Placed(whole, o.events, lo, hi)
    && HeatmapsFit(s.dim, o.events)
    && o.state.dim == LatestDim(s.dim, o.events)
  }

  lemma NothingIsGood(whole: seq<Byte>, s: State, o: Out, lo: nat, hi: nat)
    requires o.events == [] && o.state.dim == s.dim
    ensures Good(whole, s, o, lo, hi)
  {
  }

  lemma {:induction false} LatestOfBoth(dim: Dimensions, a: seq<Event>, b: seq<Event>)
    ensures LatestDim(dim, a + b) == LatestDim(LatestDim(dim, a), b)
  {
    if b == [] {
      assert a + b == a;
    } else {
      var n := |b| - 1;
      assert (a + b)[..|a| + n] == a + b[..n];
      LatestOfBoth(dim, a, b[..n]);
    }
  }

  lemma FitOfBoth(dim: Dimensions, a: seq<Event>, b: seq<Event>)
    requires HeatmapsFit(dim, a) && HeatmapsFit(LatestDim(dim, a), b)
    ensures HeatmapsFit(dim, a + b)
  {
    var all := a + b;
    forall i | 0 <= i < |all| && all[i].Heatmap?
      ensures all[i].dim == LatestDim(dim, all[..i]) && |all[i].bytes| == all[i].dim.Pixels()
    {
      if i < |a| {
        assert all[..i] == a[..i];
      } else {
        assert all[..i] == a + b[..i - |a|];
        LatestOfBoth(dim, a, b[..i - |a|]);
      }
    }
  }

  lemma PlacedBoth(whole: seq<Byte>, a: seq<Event>, b: seq<Event>, lo: nat, mid: nat, hi: nat)
    requires Placed(whole, a, lo, mid) && Placed(whole, b, mid, hi) && lo <= mid <= hi
    ensures Placed(whole, a + b, lo, hi)
  {
    hide FromBuffer;
    var all := a + b;
    forall i, j | 0 <= i < j < |all|
      ensures all[i].to <= all[j].from
    {
      if i < |a| <= j {
        assert all[i] == a[i] && all[j] == b[j - |a|];
      }
    }
  }

  lemma ThenIsGood(whole: seq<Byte>, s: State, a: Out, b: Out, lo: nat, mid: nat, hi: nat)
    requires Good(whole, s, a, lo, mid) && Good(whole, a.state, b, mid, hi) && lo <= mid <= hi
    ensures Good(whole, s, Then(a, b), lo, hi)
  {
    hide Placed, HeatmapsFit, LatestDim;
    PlacedBoth(whole, a.events, b.events, lo, mid, hi);
    FitOfBoth(s.dim, a.events, b.events);
    LatestOfBoth(s.dim, a.events, b.events);
  }

  lemma WiderIsGood(whole: seq<Byte>, s: State, o: Out, lo: nat, hi: nat, lower: nat, higher: nat)
    requires Good(whole, s, o, lo, hi) && lower <= lo && hi <= higher
    ensures Good(whole, s, o, lower, higher)
  {
    hide FromBuffer, HeatmapsFit, LatestDim;
  }

  // ---------------------------------------------------------------- reports

  lemma OneEventIsGood(whole: seq<Byte>, s: State, o: Out, lo: nat, hi: nat)
    requires |o.events| == 1 && FromBuffer(whole, o.events[0]) && lo <= o.events[0].from && o.events[0].to <= hi
    requires o.events[0].Heatmap? ==> o.events[0].dim == s.dim && |o.events[0].bytes| == s.dim.Pixels()
    requires o.state.dim == if o.events[0].DimensionsSeen? then o.events[0].dim else s.dim
    ensures Good(whole, s, o, lo, hi)
  {
    assert o.events[..0] == [];
  }


  lemma StylusReportIsGood(whole: seq<Byte>, s: State, p: seq<Byte>, at: nat, newer: bool)
    requires PartOf(whole, p, at)
    ensures Good(whole, s, StylusReport(s, p, at, newer), at, at + |p|)
  {
    hide Good, DecodePen10, DecodePen151, Skipped;
    var o := StylusReport(s, p, at, newer);
    if o.events == [] {
      NothingIsGood(whole, s, o, at, at + |p|);
    } else {
      OneEventIsGood(whole, s, o, at, at + |p|);
    }
  }

  lemma DimensionsReportIsGood(whole: seq<Byte>, s: State, p: seq<Byte>, at: nat)
    requires PartOf(whole, p, at)
    ensures Good(whole, s, DimensionsReport(s, p, at), at, at + |p|)
  {
    hide Good;
    var o := DimensionsReport(s, p, at);
    if o.events == [] {
      NothingIsGood(whole, s, o, at, at + |p|);
    } else {
      OneEventIsGood(whole, s, o, at, at + |p|);
    }
  }

  lemma HeatmapDataIsGood(whole: seq<Byte>, s: State, p: seq<Byte>, at: nat)
    requires PartOf(whole, p, at)
    ensures Good(whole, s, HeatmapData(s, p, at), at, at + |p|)
  {
    hide Good;
    var o := HeatmapData(s, p, at);
    if o.events == [] {
      NothingIsGood(whole, s, o, at, at + |p|);
    } else {
      var n := s.dim.Pixels();
      PartOfPart(whole, p, at, 0, n);
      assert p[0..n] == p[..n];
      OneEventIsGood(whole, s, o, at, at + |p|);
    }
  }

  lemma DftWindowReportIsGood(whole: seq<Byte>, s: State, p: seq<Byte>, at: nat)
    requires PartOf(whole, p, at)
    ensures Good(whole, s, DftWindowReport(s, p, at), at, at + |p|)
  {
    hide Good;
    var o := DftWindowReport(s, p, at);
    if o.events == [] {
      NothingIsGood(whole, s, o, at, at + |p|);
    } else {
      var rows: int := p[4];
      PartOfPart(whole, p, at, 12, 12 + rows * 96);
      OneEventIsGood(whole, s, o, at, at + |p|);
    }
  }

  lemma {:induction false} ButtonReportIsGood(whole: seq<Byte>, s: State, p: seq<Byte>, at: nat, from: nat,
      active: bool, pressure: real, lo: nat)
    requires PartOf(whole, p, at) && lo <= from <= at
    ensures Good(whole, s, ButtonReport(s, p, at, from, active, pressure), lo, at + |p|)
    decreases |p|
  {
    hide Good;
    var o := ButtonReport(s, p, at, from, active, pressure);
    if |p| == 0 {
      OneEventIsGood(whole, s, o, lo, at + |p|);
    } else if |p| < 16 {
      NothingIsGood(whole, s, o, lo, at + |p|);
    } else {
      RestOfPart(whole, p, at, 16);
      ButtonReportIsGood(whole, s, p[16..], at + 16, at, p[14] != 0, U16(p, 0) as real / 1024.0, lo);
    }
  }

  lemma BodyIsGood(whole: seq<Byte>, s: State, reportType: Byte, p: seq<Byte>, at: nat)
    requires PartOf(whole, p, at)
    ensures Good(whole, s, Body(s, reportType, p, at), at, at + |p|)
  {
    hide Good, StylusReport, DimensionsReport, HeatmapData, DftWindowReport, ButtonReport, U32;
    StylusReportIsGood(whole, s, p, at, false);
    StylusReportIsGood(whole, s, p, at, true);
    DimensionsReportIsGood(whole, s, p, at);
    HeatmapDataIsGood(whole, s, p, at);
    DftWindowReportIsGood(whole, s, p, at);
    ButtonReportIsGood(whole, s, p, at, at, false, 0.0, at);
    NothingIsGood(whole, s, DftMetaReport(s, p), at, at + |p|);
    NothingIsGood(whole, s, Out(s, [], Done), at, at + |p|);
  }

  lemma ReportFrameIsGood(whole: seq<Byte>, s: State, rest: seq<Byte>, at: nat)
    requires PartOf(whole, rest, at)
    ensures Good(whole, s, ReportFrame(s, rest, at), at, at + if ReportFits(rest) then 4 + ReportSize(rest) else |rest|)
  {
    hide Good, Body, ReportSize, PartOf;
    var o := ReportFrame(s, rest, at);
    if ReportFits(rest) {
      var n := 4 + ReportSize(rest);
      PartOfPart(whole, rest, at, 4, n);
      BodyIsGood(whole, s, rest[0], rest[4..n], at + 4);
      WiderIsGood(whole, s, o, at + 4, at + n, at, at + n);
    } else {
      NothingIsGood(whole, s, o, at, at + |rest|);
    }
  }

  lemma {:induction false} ReportFramesAreGood(whole: seq<Byte>, s: State, rest: seq<Byte>, at: nat)
    requires PartOf(whole, rest, at)
    ensures Good(whole, s, ReportFrames(s, rest, at), at, at + |rest|)
    decreases |rest|
  {
    hide Good, ReportFrame, PartOf, ReportSize;
    if rest == [] {
      NothingIsGood(whole, s, ReportFrames(s, rest, at), at, at + |rest|);
    } else {
      var o := ReportFrame(s, rest, at);
      ReportFrameIsGood(whole, s, rest, at);
      if ReportFits(rest) {
        var n := 4 + ReportSize(rest);
        if o.status.Failed? {
          WiderIsGood(whole, s, o, at, at + n, at, at + |rest|);
        } else {
          RestOfPart(whole, rest, at, n);
          ReportFramesAreGood(whole, o.state, rest[n..], at + n);
          ThenIsGood(whole, s, o, ReportFrames(o.state, rest[n..], at + n), at, at + n, at + |rest|);
        }
      }
    }
  }

  // ---------------------------------------------------------------- frames

  lemma HeatmapFrameIsGood(whole: seq<Byte>, s: State, p: seq<Byte>, at: nat)
    requires PartOf(whole, p, at)
    ensures Good(whole, s, HeatmapFrame(s, p, at), at, at + |p|)
  {
    hide Good, HeatmapData, PartOf, U32;
    var o := HeatmapFrame(s, p, at);
    if |p| >= 9 && Refusal(|p| - 9, U32(p, 5)).None? {
      var n := 9 + U32(p, 5);
      PartOfPart(whole, p, at, 9, n);
      HeatmapDataIsGood(whole, s, p[9..n], at + 9);
      WiderIsGood(whole, s, o, at + 9, at + n, at, at + |p|);
    } else {
      NothingIsGood(whole, s, o, at, at + |p|);
    }
  }

  lemma MetadataFrameIsGood(whole: seq<Byte>, s: State, p: seq<Byte>, at: nat)
    requires PartOf(whole, p, at)
    ensures Good(whole, s, MetadataFrame(s, p, at), at, at + |p|)
  {
    hide Good, U32, NegativeFloat;
    var o := MetadataFrame(s, p, at);
    if o.events == [] {
      NothingIsGood(whole, s, o, at, at + |p|);
    } else {
      OneEventIsGood(whole, s, o, at, at + |p|);
    }
  }

  lemma {:induction false} LegacyGroupsAreGood(whole: seq<Byte>, s: State, rest: seq<Byte>, at: nat, count: nat)
    requires PartOf(whole, rest, at)
    ensures Good(whole, s, LegacyGroups(s, rest, at, count), at, at + |rest|)
    decreases count
  {
    hide Good, ReportFrames, PartOf, U32, U16;
    var all := LegacyGroups(s, rest, at, count);
    if count == 0 || !GroupFits(rest) {
      NothingIsGood(whole, s, all, at, at + |rest|);
    } else {
      var n := 16 + U32(rest, 4);
      var o := if U16(rest, 2) == 0x6 || U16(rest, 2) == 0x8 then ReportFrames(s, rest[16..n], at + 16)
          else Out(s, [], Done);
      if U16(rest, 2) == 0x6 || U16(rest, 2) == 0x8 {
        PartOfPart(whole, rest, at, 16, n);
        ReportFramesAreGood(whole, s, rest[16..n], at + 16);
      } else {
        NothingIsGood(whole, s, o, at + 16, at + n);
      }
      WiderIsGood(whole, s, o, at + 16, at + n, at, at + n);
      if o.status.Failed? {
        WiderIsGood(whole, s, o, at, at + n, at, at + |rest|);
      } else {
        RestOfPart(whole, rest, at, n);
        LegacyGroupsAreGood(whole, o.state, rest[n..], at + n, count - 1);
        ThenIsGood(whole, s, o, LegacyGroups(o.state, rest[n..], at + n, count - 1), at, at + n, at + |rest|);
      }
    }
  }

  lemma LegacyFrameIsGood(whole: seq<Byte>, s: State, p: seq<Byte>, at: nat)
    requires PartOf(whole, p, at)
    ensures Good(whole, s, LegacyFrame(s, p, at), at, at + |p|)
  {
    hide Good, LegacyGroups, PartOf, U32;
    var o := LegacyFrame(s, p, at);
    if |p| >= 12 {
      RestOfPart(whole, p, at, 12);
      LegacyGroupsAreGood(whole, s, p[12..], at + 12, U32(p, 4));
      WiderIsGood(whole, s, o, at + 12, at + |p|, at, at + |p|);
    } else {
      NothingIsGood(whole, s, o, at, at + |p|);
    }
  }

  /** A frame hands out spans of its own bytes only: within its payload, in order, without overlap. */
  lemma {:induction false} HidFrameIsGood(whole: seq<Byte>, s: State, rest: seq<Byte>, at: nat)
    requires PartOf(whole, rest, at)
    ensures Good(whole, s, HidFrame(s, rest, at), at, at + if HidFits(rest) then 7 + HidPayload(rest) else |rest|)
    decreases |rest|, 0
  {
    hide Good, PartOf, HidPayload, HidFrames, HeatmapFrame, MetadataFrame, LegacyFrame, ReportFrames;
    var o := HidFrame(s, rest, at);
    if HidFits(rest) {
      var n := 7 + HidPayload(rest);
      var p := rest[7..n];
      PartOfPart(whole, rest, at, 7, n);
      HidFramesAreGood(whole, s, p, at + 7);
      HeatmapFrameIsGood(whole, s, p, at + 7);
      MetadataFrameIsGood(whole, s, p, at + 7);
      LegacyFrameIsGood(whole, s, p, at + 7);
      ReportFramesAreGood(whole, s, p, at + 7);
      NothingIsGood(whole, s, Out(s, [], Done), at + 7, at + n);
      WiderIsGood(whole, s, o, at + 7, at + n, at, at + n);
    } else {
      NothingIsGood(whole, s, o, at, at + |rest|);
    }
  }

  lemma {:induction false} HidFramesAreGood(whole: seq<Byte>, s: State, rest: seq<Byte>, at: nat)
    requires PartOf(whole, rest, at)
    ensures Good(whole, s, HidFrames(s, rest, at), at, at + |rest|)
    decreases |rest|, 1
  {
    hide Good, PartOf, HidPayload, HidFrame, HidUsed;
    if rest == [] {
      NothingIsGood(whole, s, HidFrames(s, rest, at), at, at + |rest|);
    } else {
      var o := HidFrame(s, rest, at);
      HidFrameIsGood(whole, s, rest, at);
      if HidFits(rest) {
        var n := HidUsed(rest);
        UsedCoversPayload(rest);
        WiderIsGood(whole, s, o, at, at + 7 + HidPayload(rest), at, at + n);
        if o.status.Failed? {
          WiderIsGood(whole, s, o, at, at + n, at, at + |rest|);
        } else {
          RestOfPart(whole, rest, at, n);
          HidFramesAreGood(whole, o.state, rest[n..], at + n);
          ThenIsGood(whole, s, o, HidFrames(o.state, rest[n..], at + n), at, at + n, at + |rest|);
        }
      }
    }
  }

  lemma UsedCoversPayload(rest: seq<Byte>)
    requires HidFits(rest)
    ensures 7 + HidPayload(rest) <= HidUsed(rest)
  {
  }

  /** Whatever a buffer contains, the callbacks get disjoint spans of it at increasing offsets, and heatmaps of the
      right size. */
  lemma BufferIsGood(s: State, data: seq<Byte>, header: nat)
    ensures Good(data, s, Buffer(s, data, header), 0, |data|)
  {
    hide Good, HidFrame, HidPayload;
    var o := Buffer(s, data, header);
    if Refusal(|data|, header).None? {
      var rest := data[header..];
      assert PartOf(data, rest, header);
      HidFrameIsGood(data, s, rest, header);
      WiderIsGood(data, s, o, header, header + if HidFits(rest) then 7 + HidPayload(rest) else |rest|, 0, |data|);
    } else {
      NothingIsGood(data, s, o, 0, |data|);
    }
  }

  // ---------------------------------------------------------------- many buffers

  datatype Call = Call(data: seq<Byte>, header: nat)

  /** What a parser remembers and has seen after a number of calls. */
  function Session(calls: seq<Call>): (State, seq<Event>) {
    if calls == [] then (INITIAL, [])
    else
      var n := |calls| - 1;
      var (s, events) := Session(calls[..n]);
      var o := Buffer(s, calls[n].data, calls[n].header);
      (o.state, events + o.events)
  }

  /** Heatmaps have the size that the latest dimensions report gave, even if it came with an earlier buffer. */
  lemma {:induction false} SessionHeatmapsFit(calls: seq<Call>)
    ensures HeatmapsFit(INITIAL.dim, Session(calls).1)
    ensures Session(calls).0.dim == LatestDim(INITIAL.dim, Session(calls).1)
  {
    hide HeatmapsFit, LatestDim, Buffer;
    if calls == [] {
      NoEvents(INITIAL.dim);
    } else {
      var n := |calls| - 1;
      SessionHeatmapsFit(calls[..n]);
      var (s, events) := Session(calls[..n]);
      var o := Buffer(s, calls[n].data, calls[n].header);
      BufferIsGood(s, calls[n].data, calls[n].header);
      FitOfBoth(INITIAL.dim, events, o.events);
      LatestOfBoth(INITIAL.dim, events, o.events);
    }
  }

  lemma NoEvents(dim: Dimensions)
    ensures HeatmapsFit(dim, []) && LatestDim(dim, []) == dim
  {
  }
}
