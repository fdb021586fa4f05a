/** The IPTS parser: mutually recursive methods over readers, with state that is kept from one report to the next. */
module IptsParser {
  import opened ByteReader
  import opened Common
  import opened IptsProtocol
  import IptsSafety

  // ---------------------------------------------------------------- readers

  /** The bytes that a reader has left. */
  ghost function Rest(r: Reader): seq<Byte>
    requires r.Valid()
    reads r
  {
    r.data[r.index..]
  }

  /** Where they are in the buffer. */
  ghost function At(r: Reader): nat
    reads r
  {
    r.base + r.index
  }

  lemma Slice(data: seq<Byte>, a: nat, n: nat)
    requires a + n <= |data|
    ensures data[a..a + n] == data[a..][..n] && data[a + n..] == data[a..][n..]
  {
  }

  lemma Field(data: seq<Byte>, n: nat, a: nat, b: nat)
    requires a <= b <= n <= |data|
    ensures data[..n][a..b] == data[a..b]
  {
  }

  /** Reads the next `n` bytes. */
  method Take(reader: Reader, n: nat) returns (r: Result<seq<Byte>>)
    requires reader.Valid()
    modifies reader
    ensures reader.Valid()
    ensures match Refusal(|old(Rest(reader))|, n)
            case Some(e) => r == Err(e)
            case None =>
              && r == Ok(old(Rest(reader))[..n])
              && Rest(reader) == old(Rest(reader))[n..] && At(reader) == old(At(reader)) + n
  {
    ghost var index := reader.index;
    r := reader.Read(n);
    if r.Ok? {
      Slice(reader.data, index, n);
    }
  }

  /** Splits off the next `n` bytes as a chunk of their own. */
  method Cut(reader: Reader, n: nat) returns (r: Result<Reader>)
    requires reader.Valid()
    modifies reader
    ensures reader.Valid()
    ensures match Refusal(|old(Rest(reader))|, n)
            case Some(e) => r == Err(e)
            case None =>
              && r.Ok? && fresh(r.value) && r.value.Valid() && Rest(r.value) == old(Rest(reader))[..n]
                   && At(r.value) == old(At(reader))
              && Rest(reader) == old(Rest(reader))[n..] && At(reader) == old(At(reader)) + n
  {
    ghost var index := reader.index;
    r := reader.Sub(n);
    if r.Ok? {
      Slice(reader.data, index, n);
      assert r.value.data[0..] == r.value.data;
    }
  }

  method Skip(reader: Reader, n: nat) returns (r: Result<()>)
    requires reader.Valid()
    modifies reader
    ensures reader.Valid()
    ensures match Refusal(|old(Rest(reader))|, n)
            case Some(e) => r == Err(e)
            case None => r.Ok? && Rest(reader) == old(Rest(reader))[n..] && At(reader) == old(At(reader)) + n
  {
    ghost var index := reader.index;
    r := reader.Skip(n);
    if r.Ok? {
      Slice(reader.data, index, n);
    }
  }

  // ---------------------------------------------------------------- the parser

  class Parser {
    var state: State
    var log: seq<Event>

    constructor ()
      ensures state == INITIAL && log == []
    {
      state, log := INITIAL, [];
    }

    /** The parser went on from `before` as `o` says. */
    ghost predicate Did(o: Out, before: seq<Event>, status: Status)
      reads this
    {
      state == o.state && log == before + o.events && status == o.status
    }

    /** Parses a buffer. Callbacks get spans of it at increasing offsets, without overlap, and heatmaps of the size last
        announced. */
    method Parse(data: seq<Byte>) returns (status: Status)
      modifies this
      ensures Did(Buffer(old(state), data, 3), old(log), status)
      ensures IptsSafety.Good(data, old(state), Buffer(old(state), data, 3), 0, |data|)
    {
      IptsSafety.BufferIsGood(state, data, 3);
      status := ParseWithHeader(data, 3);
    }

    method ParseWithHeader(data: seq<Byte>, header: nat) returns (status: Status)
      modifies this
      ensures Did(Buffer(old(state), data, header), old(log), status)
    {
      hide HidFrame;
      var reader := new Reader(data);
      assert Rest(reader) == data;
      var skipped := Skip(reader, header);
      if skipped.Err? {
        return Failed(Read(skipped.error));
      }
      status := ParseHidFrame(reader);
    }

    method ParseHidFrame(reader: Reader) returns (status: Status)
      requires reader.Valid()
      modifies this, reader
      ensures reader.Valid()
      ensures Did(HidFrame(old(state), old(Rest(reader)), old(At(reader))), old(log), status)
      ensures status.Done? ==>
                HidFits(old(Rest(reader)))
                && Rest(reader) == old(Rest(reader))[HidUsed(old(Rest(reader)))..]
                && At(reader) == old(At(reader)) + HidUsed(old(Rest(reader)))
      decreases |reader.data| - reader.index, 0
    {
      hide HidFrames, HeatmapFrame, MetadataFrame, LegacyFrame, ReportFrames, LittleEndian;
      ghost var rest, at := Rest(reader), At(reader);
      var frame := Take(reader, 7);
      if frame.Err? {
        return Failed(Read(frame.error));
      }
      Field(rest, 7, 0, 4);
      var size := U32(frame.value, 0) - 7;
      if size < 0 {
        size := size + TWO64;
      }
      assert size == HidPayload(rest);
      var cut := Cut(reader, size);
      if cut.Err? {
        return Failed(Read(cut.error));
      }
      Slice(rest, 7, size);
      var sub := cut.value;
      assert Rest(sub) == rest[7..7 + size] && Rest(reader) == rest[7 + size..];
      if frame.value[5] == 0x00 {
        status := ParseHidFrames(sub);
      } else if frame.value[5] == 0x01 {
        status := ParseHeatmapFrame(sub);
      } else if frame.value[5] == 0x02 {
        status := ParseMetadataFrame(sub);
      } else if frame.value[5] == 0xEE {
        status := ParseLegacyFrame(sub);
      } else if frame.value[5] == 0xFF {
        if reader.Size() == 4 {
          var _ := Skip(reader, reader.Size());
          return Done;
        }
        status := ParseReportFrames(sub);
      } else {
        status := Done;
      }
    }

    method ParseHidFrames(reader: Reader) returns (status: Status)
      requires reader.Valid()
      modifies this, reader
      ensures reader.Valid()
      ensures Did(HidFrames(old(state), old(Rest(reader)), old(At(reader))), old(log), status)
      decreases |reader.data| - reader.index, 1
    {
      hide HidFrame, HidFits, HidUsed, HidPayload;
      ghost var all := HidFrames(state, Rest(reader), At(reader));
      while reader.Size() > 0
        invariant reader.Valid() && reader.index >= old(reader.index)
        invariant Resumes(all, old(log), HidFrames(state, Rest(reader), At(reader)))
        decreases |reader.data| - reader.index
      {
        status := ParseHidFrame(reader);
        if status.Failed? {
          return;
        }
      }
      status := Done;
    }

    /** What is left to do, after what was logged, gives `all`. */
    ghost predicate Resumes(all: Out, before: seq<Event>, left: Out)
      reads this
    {
      log + left.events == before + all.events && left.state == all.state && left.status == all.status
    }

    method ParseLegacyFrame(reader: Reader) returns (status: Status)
      requires reader.Valid()
      modifies this, reader
      ensures reader.Valid()
      ensures Did(LegacyFrame(old(state), old(Rest(reader)), old(At(reader))), old(log), status)
    {
      hide LegacyGroups, LittleEndian;
      ghost var p := Rest(reader);
      var header := Take(reader, 12);
      if header.Err? {
        return Failed(Read(header.error));
      }
      Field(p, 12, 4, 8);
      var elements := U32(header.value, 4);
      status := ParseGroups(reader, elements);
    }

    method ParseGroups(reader: Reader, elements: nat) returns (status: Status)
      requires reader.Valid()
      modifies this, reader
      ensures reader.Valid()
      ensures Did(LegacyGroups(old(state), old(Rest(reader)), old(At(reader)), elements), old(log), status)
    {
      hide LegacyGroups, Rest;
      ghost var all := LegacyGroups(state, Rest(reader), At(reader), elements);
      var i := 0;
      while i < elements
        invariant reader.Valid() && i <= elements
        invariant Resumes(all, old(log), LegacyGroups(state, Rest(reader), At(reader), elements - i))
      {
        status := ParseGroup(reader, elements - i);
        if status.Failed? {
          return;
        }
        i := i + 1;
      }
      NoGroupsLeft(state, Rest(reader), At(reader));
      status := Done;
    }

    method ParseGroup(reader: Reader, ghost left: nat) returns (status: Status)
      requires reader.Valid() && left > 0
      modifies this, reader
      ensures reader.Valid()
      ensures status.Failed? ==>
                Did(LegacyGroups(old(state), old(Rest(reader)), old(At(reader)), left), old(log), status)
      ensures status.Done? ==>
                Resumes(LegacyGroups(old(state), old(Rest(reader)), old(At(reader)), left), old(log),
                        LegacyGroups(state, Rest(reader), At(reader), left - 1))
    {
      hide ReportFrames, LittleEndian, LegacyGroups;
      ghost var rest, at := Rest(reader), At(reader);
      GroupsUnfold(state, rest, at, left);
      var group := Take(reader, 16);
      if group.Err? {
        return Failed(Read(group.error));
      }
      Field(rest, 16, 2, 4);
      Field(rest, 16, 4, 8);
      var size := U32(group.value, 4);
      var cut := Cut(reader, size);
      if cut.Err? {
        return Failed(Read(cut.error));
      }
      Slice(rest, 16, size);
      if U16(group.value, 2) == 0x6 || U16(group.value, 2) == 0x8 {
        status := ParseReportFrames(cut.value);
      } else {
        status := Done;
      }
    }

    method ParseMetadataFrame(reader: Reader) returns (status: Status)
      requires reader.Valid()
      modifies this, reader
      ensures reader.Valid()
      ensures Did(MetadataFrame(old(state), old(Rest(reader)), old(At(reader))), old(log), status)
    {
      hide LittleEndian, NegativeFloat;
      ghost var p := Rest(reader);
      var at := reader.base + reader.index;
      var frame := Take(reader, 105);
      if frame.Err? {
        return Failed(Read(frame.error));
      }
      var f := frame.value;
      Field(p, 105, 0, 4);
      Field(p, 105, 4, 8);
      Field(p, 105, 8, 12);
      Field(p, 105, 12, 16);
      Field(p, 105, 17, 21);
      Field(p, 105, 33, 37);
      if U32(f, 0) > 255 || U32(f, 4) > 255 {
        return Failed(Narrowing);
      }
      var meta := Metadata(U32(f, 0), U32(f, 4), U32(f, 8) as real / 1000.0, U32(f, 12) as real / 1000.0,
                           NegativeFloat(U32(f, 17)), NegativeFloat(U32(f, 33)));
      log := log + [MetadataSeen(at, at + 105, meta)];
      status := Done;
    }

    method ParseReportFrame(reader: Reader) returns (status: Status)
      requires reader.Valid()
      modifies this, reader
      ensures reader.Valid()
      ensures Did(ReportFrame(old(state), old(Rest(reader)), old(At(reader))), old(log), status)
      ensures status.Done? ==>
                ReportFits(old(Rest(reader)))
                && Rest(reader) == old(Rest(reader))[4 + ReportSize(old(Rest(reader)))..]
                && At(reader) == old(At(reader)) + 4 + ReportSize(old(Rest(reader)))
    {
      hide Body, LittleEndian;
      ghost var rest := Rest(reader);
      var frame := Take(reader, 4);
      if frame.Err? {
        return Failed(Read(frame.error));
      }
      Field(rest, 4, 2, 4);
      var size := U16(frame.value, 2);
      var cut := Cut(reader, size);
      if cut.Err? {
        return Failed(Read(cut.error));
      }
      Slice(rest, 4, size);
      status := ParseBody(cut.value, frame.value[0]);
    }

    method ParseBody(sub: Reader, reportType: Byte) returns (status: Status)
      requires sub.Valid()
      modifies this, sub
      ensures Did(Body(old(state), reportType, old(Rest(sub)), old(At(sub))), old(log), status)
    {
      hide StylusReport, DimensionsReport, HeatmapData, DftMetaReport, DftWindowReport, ButtonReport;
      if reportType == 0x10 {
        status := ParseStylus(sub, false);
      } else if reportType == 0x60 {
        status := ParseStylus(sub, true);
      } else if reportType == 0x03 {
        status := ParseHeatmapDimensions(sub);
      } else if reportType == 0x25 {
        status := ParseHeatmapData(sub);
      } else if reportType == 0x5F {
        status := ParseDftMetadata(sub);
      } else if reportType == 0x5C {
        status := ParseDftWindow(sub);
      } else if reportType == 0x90 {
        status := ParseButton(sub);
      } else {
        status := Done;
      }
    }

    method ParseReportFrames(reader: Reader) returns (status: Status)
      requires reader.Valid()
      modifies this, reader
      ensures reader.Valid()
      ensures Did(ReportFrames(old(state), old(Rest(reader)), old(At(reader))), old(log), status)
    {
      hide ReportFrame, ReportSize;
      ghost var all := ReportFrames(state, Rest(reader), At(reader));
      while reader.Size() > 0
        invariant reader.Valid()
        invariant Resumes(all, old(log), ReportFrames(state, Rest(reader), At(reader)))
        decreases |Rest(reader)|
      {
        status := ParseReportFrame(reader);
        if status.Failed? {
          return;
        }
      }
      status := Done;
    }

    /** The samples before the last one are skipped. */
    method ParseStylus(reader: Reader, newer: bool) returns (status: Status)
      requires reader.Valid()
      modifies this, reader
      ensures reader.Valid()
      ensures Did(StylusReport(old(state), old(Rest(reader)), old(At(reader)), newer), old(log), status)
    {
      hide DecodePen10, DecodePen151, Skipped, Refusal;
      ghost var p, start := Rest(reader), reader.index;
      var width := if newer then 16 else 12;
      var report := Take(reader, 8);
      if report.Err? {
        return Failed(Read(report.error));
      }
      var skipped := SkipSamples(reader, report.value[0], width);
      if skipped.Err? {
        return Failed(Read(skipped.error));
      }
      ghost var o := reader.index - start;
      RestOfRest(reader.data, start, o);
      var from := reader.base + reader.index;
      var sample := Take(reader, width);
      if sample.Err? {
        return Failed(Read(sample.error));
      }
      Slice(p, o, width);
      log := log + [StylusSample(from, from + width, if newer then DecodePen151(sample.value)
          else DecodePen10(sample.value))];
      status := Done;
    }

    method ParseHeatmapDimensions(reader: Reader) returns (status: Status)
      requires reader.Valid()
      modifies this, reader
      ensures reader.Valid()
      ensures Did(DimensionsReport(old(state), old(Rest(reader)), old(At(reader))), old(log), status)
    {
      var at := reader.base + reader.index;
      var d := Take(reader, 8);
      if d.Err? {
        return Failed(Read(d.error));
      }
      state := state.(dim := Dimensions(d.value[0], d.value[1], d.value[6], d.value[7]));
      if state.dim.max == 0 {
        state := state.(dim := state.dim.(max := 255));
      }
      log := log + [DimensionsSeen(at, at + 8, state.dim)];
      status := Done;
    }

    method ParseHeatmapData(reader: Reader) returns (status: Status)
      requires reader.Valid()
      modifies this, reader
      ensures reader.Valid()
      ensures Did(HeatmapData(old(state), old(Rest(reader)), old(At(reader))), old(log), status)
    {
      var at := reader.base + reader.index;
      var n := state.dim.Pixels();
      var bytes := Take(reader, n);
      if bytes.Err? {
        return Failed(Read(bytes.error));
      }
      log := log + [Heatmap(at, at + n, state.dim, bytes.value)];
      status := Done;
    }

    method ParseHeatmapFrame(reader: Reader) returns (status: Status)
      requires reader.Valid()
      modifies this, reader
      ensures reader.Valid()
      ensures Did(HeatmapFrame(old(state), old(Rest(reader)), old(At(reader))), old(log), status)
    {
      hide HeatmapData, LittleEndian;
      ghost var p := Rest(reader);
      var header := Take(reader, 9);
      if header.Err? {
        return Failed(Read(header.error));
      }
      Field(p, 9, 5, 9);
      var size := U32(header.value, 5);
      var cut := Cut(reader, size);
      if cut.Err? {
        return Failed(Read(cut.error));
      }
      Slice(p, 9, size);
      status := ParseHeatmapData(cut.value);
    }

    method ParseDftWindow(reader: Reader) returns (status: Status)
      requires reader.Valid()
      modifies this, reader
      ensures reader.Valid()
      ensures Did(DftWindowReport(old(state), old(Rest(reader)), old(At(reader))), old(log), status)
    {
      ghost var p := Rest(reader);
      var window := Take(reader, 12);
      if window.Err? {
        return Failed(Read(window.error));
      }
      var from := reader.base + reader.index;
      var rows: int := window.value[4];
      var x := TakeRows(reader, rows);
      if x.Err? {
        return Failed(Read(x.error));
      }
      var y := TakeRows(reader, rows);
      if y.Err? {
        return Failed(Read(y.error));
      }
      BothCuts(p, rows * 48);
      var known := window.value[5] == state.meta.sequence && window.value[9] == state.meta.dataType;
      log := log + [DftWindow(from, from + rows * 96, x.value + y.value, rows, window.value[9], state.dim.columns,
          state.dim.rows,
                              if known then Some(state.meta.group) else None)];
      status := Done;
    }

    method ParseDftMetadata(reader: Reader) returns (status: Status)
      requires reader.Valid()
      modifies this, reader
      ensures reader.Valid()
      ensures Did(DftMetaReport(old(state), old(Rest(reader))), old(log), status)
    {
      hide LittleEndian;
      ghost var p := Rest(reader);
      var m := Take(reader, 16);
      if m.Err? {
        return Failed(Read(m.error));
      }
      Field(p, 16, 0, 4);
      state := state.(meta := DftMeta(U32(m.value, 0), m.value[4], m.value[5]));
      status := Done;
    }

    method ParseButton(reader: Reader) returns (status: Status)
      requires reader.Valid()
      modifies this, reader
      ensures reader.Valid()
      ensures Did(ButtonReport(old(state), old(Rest(reader)), old(At(reader)), old(At(reader)), false, 0.0), old(log),
                status)
    {
      hide LittleEndian;
      ghost var all := ButtonReport(state, Rest(reader), At(reader), At(reader), false, 0.0);
      var from: nat, active, pressure := reader.base + reader.index, false, 0.0;
      while reader.Size() > 0
        invariant reader.Valid() && log == old(log) && state == old(state)
        invariant all == ButtonReport(state, Rest(reader), At(reader), from, active, pressure)
        decreases |Rest(reader)|
      {
        ghost var p := Rest(reader);
        from := reader.base + reader.index;
        var sample := Take(reader, 16);
        if sample.Err? {
          return Failed(Read(sample.error));
        }
        Field(p, 16, 0, 2);
        pressure := U16(sample.value, 0) as real / 1024.0;
        active := sample.value[14] != 0;
      }
      log := log + [ButtonSample(from, reader.base + reader.index, active, pressure)];
      status := Done;
    }
  }

  lemma NoGroupsLeft(s: State, rest: seq<Byte>, at: nat)
    ensures LegacyGroups(s, rest, at, 0) == Out(s, [], Done)
  {
  }

  lemma GroupsUnfold(s: State, rest: seq<Byte>, at: nat, count: nat)
    requires count > 0
    ensures LegacyGroups(s, rest, at, count) ==
            if Refusal(|rest|, 16).Some? then Fail(s, Refusal(|rest|, 16).value)
            else if Refusal(|rest| - 16, U32(rest, 4)).Some? then Fail(s, Refusal(|rest| - 16, U32(rest, 4)).value)
            else
              var n := 16 + U32(rest, 4);
              var o := if U16(rest, 2) == 0x6 || U16(rest, 2) == 0x8 then ReportFrames(s, rest[16..n], at + 16)
                  else Out(s, [], Done);
              if o.status.Failed? then o else Then(o, LegacyGroups(o.state, rest[n..], at + n, count - 1))
  {
    hide ReportFrames, U16, U32;
  }

  lemma RestOfRest(data: seq<Byte>, a: nat, b: nat)
    requires a + b <= |data|
    ensures data[a..][b..] == data[a + b..]
  {
  }

  /** Skips all samples but the last. */
  method SkipSamples(reader: Reader, samples: int, width: nat) returns (r: Result<()>)
    requires reader.Valid() && samples >= 0
    modifies reader
    ensures reader.Valid()
    ensures match Skipped(old(reader.Size()), if samples == 0 then 0 else samples - 1, width)
            case Err(e) => r == Err(e)
            case Ok(left) => r.Ok? && reader.Size() == left
  {
    ghost var count := if samples == 0 then 0 else samples - 1;
    var i := 0;
    while i < samples - 1
      invariant reader.Valid() && 0 <= i <= count
      invariant Skipped(old(reader.Size()), count, width) == Skipped(reader.Size(), count - i, width)
    {
      r := reader.Skip(width);
      if r.Err? {
        return;
      }
      i := i + 1;
    }
    r := Ok(());
  }

  /** Splits off `rows` rows of 48 bytes. */
  method TakeRows(reader: Reader, rows: nat) returns (r: Result<seq<Byte>>)
    requires reader.Valid()
    modifies reader
    ensures reader.Valid()
    ensures match SpanRefusal(|old(Rest(reader))|, rows, 48)
            case Some(e) => r == Err(e)
            case None => r == Ok(old(Rest(reader))[..rows * 48]) && Rest(reader) == old(Rest(reader))[rows * 48..]
                         && At(reader) == old(At(reader)) + rows * 48
  {
    ghost var index := reader.index;
    r := reader.Subspan(rows, 48);
    if r.Ok? {
      Slice(reader.data, index, rows * 48);
    }
  }

  lemma TwoCuts(q: seq<Byte>, n: nat)
    requires n + n <= |q|
    ensures q[..n] + q[n..][..n] == q[..n + n]
  {
  }

  lemma BothCuts(p: seq<Byte>, n: nat)
    requires 12 + n + n <= |p|
    ensures p[12..][..n] + p[12..][n..][..n] == p[12..12 + (n + n)]
  {
    TwoCuts(p[12..], n);
    Slice(p, 12, n + n);
  }
}
