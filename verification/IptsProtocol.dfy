/** What a chunk of IPTS data means: the nested frames, and the reports inside of them. */
module IptsProtocol {
  import opened ByteReader
  import opened Common

  datatype ParseError = Read(error: ReadError) | Narrowing

  datatype Status = Done | Failed(error: ParseError)

  /** The part of a dimensions report that is used later. */
  datatype Dimensions = Dimensions(rows: Byte, columns: Byte, min: Byte, max: Byte) {
    function Pixels(): nat {
      (rows as int) * (columns as int)
    }
  }

  datatype DftMeta = DftMeta(group: nat, sequence: Byte, dataType: Byte)

  /** What the parser remembers from one report to the next, and from one call to the next. */
  datatype State = State(dim: Dimensions, meta: DftMeta)

  const INITIAL := State(Dimensions(0, 0, 0, 0), DftMeta(0, 0, 0))

  /** A stylus sample; angles are in hundredths of a degree. */
  datatype Pen = Pen(proximity: bool, contact: bool, button: bool, rubber: bool,
                     x: real, y: real, pressure: real, timestamp: nat, altitude: nat, azimuth: nat)

  datatype Metadata = Metadata(rows: nat, columns: nat, width: real, height: real, invertX: bool, invertY: bool)

  /** What was recognised, and the bytes it was made of: those from offset `from` up to offset `to`. All but the last
      are callbacks. */
  datatype Event =
    | Heatmap(from: nat, to: nat, dim: Dimensions, bytes: seq<Byte>)
    | DftWindow(from: nat, to: nat, bytes: seq<Byte>, rows: nat, dataType: Byte, width: Byte, height: Byte,
        group: Option<nat>)
    | StylusSample(from: nat, to: nat, pen: Pen)
    | ButtonSample(from: nat, to: nat, active: bool, pressure: real)
    | MetadataSeen(from: nat, to: nat, meta: Metadata)
    | DimensionsSeen(from: nat, to: nat, dim: Dimensions)

  datatype Out = Out(state: State, events: seq<Event>, status: Status)

  function Fail(s: State, e: ReadError): Out {
    Out(s, [], Failed(Read(e)))
  }

  /** One result after another. */
  function Then(a: Out, b: Out): Out {
    Out(b.state, a.events + b.events, b.status)
  }

  function U16(b: seq<Byte>, i: nat): nat
    requires i + 2 <= |b|
  {
    LittleEndian(b[i..i + 2])
  }

  function U32(b: seq<Byte>, i: nat): nat
    requires i + 4 <= |b|
  {
    LittleEndian(b[i..i + 4])
  }

  predicate Bit(b: Byte, weight: nat)
    requires weight > 0
  {
    (b as int) / weight % 2 == 1
  }

  // ---------------------------------------------------------------- reports

  const MAX_X := 9600.0
  const MAX_Y := 7200.0

  function DecodePen10(q: seq<Byte>): Pen
    requires |q| == 12
  {
    Pen(Bit(q[4], 1), U16(q, 9) > 0, Bit(q[4], 4), Bit(q[4], 8),
        U16(q, 5) as real / MAX_X, U16(q, 7) as real / MAX_Y, U16(q, 9) as real / 1024.0, 0, 0, 0)
  }

  function DecodePen151(q: seq<Byte>): Pen
    requires |q| == 16
  {
    Pen(Bit(q[2], 1), U16(q, 8) > 0, Bit(q[2], 4), Bit(q[2], 8),
        U16(q, 4) as real / MAX_X, U16(q, 6) as real / MAX_Y, U16(q, 8) as real / 4096.0, U16(q, 0), U16(q, 10),
            U16(q, 12))
  }

  /** How many bytes are left of `left` after skipping `width` bytes `count` times. */
  function Skipped(left: nat, count: nat, width: nat): (r: Result<nat>)
    ensures r.Ok? ==> r.value <= left
  {
    if count == 0 then Ok(left)
    else if Refusal(left, width).Some? then Err(Refusal(left, width).value)
    else Skipped(left - width, count - 1, width)
  }

  /** Only the last sample of a stylus report is used. A report of no samples is read like a report of one. */
  function StylusReport(s: State, p: seq<Byte>, at: nat, newer: bool): Out {
    var width := if newer then 16 else 12;
    if Refusal(|p|, 8).Some? then Fail(s, Refusal(|p|, 8).value)
    else
      var samples: int := p[0];
      var left := Skipped(|p| - 8, if samples == 0 then 0 else samples - 1, width);
      if left.Err? then Fail(s, left.error)
      else if Refusal(left.value, width).Some? then Fail(s, Refusal(left.value, width).value)
      else
        var o := |p| - left.value;
        var q := p[o..o + width];
        Out(s, [StylusSample(at + o, at + o + width, if newer then DecodePen151(q) else DecodePen10(q))], Done)
  }

  function DimensionsReport(s: State, p: seq<Byte>, at: nat): Out {
    if Refusal(|p|, 8).Some? then Fail(s, Refusal(|p|, 8).value)
    else
      var dim := Dimensions(p[0], p[1], p[6], if p[7] == 0 then 255 else p[7]);
      Out(s.(dim := dim), [DimensionsSeen(at, at + 8, dim)], Done)
  }

  /** A heatmap has as many bytes as the latest dimensions report says. */
  function HeatmapData(s: State, p: seq<Byte>, at: nat): Out {
    var n := s.dim.Pixels();
    if Refusal(|p|, n).Some? then Fail(s, Refusal(|p|, n).value)
    else Out(s, [Heatmap(at, at + n, s.dim, p[..n])], Done)
  }

  function DftMetaReport(s: State, p: seq<Byte>): Out {
    if Refusal(|p|, 16).Some? then Fail(s, Refusal(|p|, 16).value)
    else Out(s.(meta := DftMeta(U32(p, 0), p[4], p[5])), [], Done)
  }

  /** Two lists of rows, of 48 bytes each. */
  function DftWindowReport(s: State, p: seq<Byte>, at: nat): Out {
    if Refusal(|p|, 12).Some? then Fail(s, Refusal(|p|, 12).value)
    else
      var rows: int := p[4];
      if SpanRefusal(|p| - 12, rows, 48).Some? then Fail(s, SpanRefusal(|p| - 12, rows, 48).value)
      else if SpanRefusal(|p| - 12 - rows * 48, rows, 48).Some?
          then Fail(s, SpanRefusal(|p| - 12 - rows * 48, rows, 48).value)
      else
        var known := p[5] == s.meta.sequence && p[9] == s.meta.dataType;
        Out(s, [DftWindow(at + 12, at + 12 + rows * 96, p[12..12 + rows * 96], rows, p[9], s.dim.columns, s.dim.rows,
                          if known then Some(s.meta.group) else None)], Done)
  }

  /** Only the last sample of a button report is used. */
  function ButtonReport(s: State, p: seq<Byte>, at: nat, from: nat, active: bool, pressure: real): Out {
    if |p| == 0 then Out(s, [ButtonSample(from, at, active, pressure)], Done)
    else if |p| < 16 then Fail(s, InvalidRead)
    else ButtonReport(s, p[16..], at + 16, at, p[14] != 0, U16(p, 0) as real / 1024.0)
  }

  function Body(s: State, reportType: Byte, p: seq<Byte>, at: nat): Out {
    if reportType == 0x10 then StylusReport(s, p, at, false)
    else if reportType == 0x60 then StylusReport(s, p, at, true)
    else if reportType == 0x03 then DimensionsReport(s, p, at)
    else if reportType == 0x25 then HeatmapData(s, p, at)
    else if reportType == 0x5F then DftMetaReport(s, p)
    else if reportType == 0x5C then DftWindowReport(s, p, at)
    else if reportType == 0x90 then ButtonReport(s, p, at, at, false, 0.0)
    else Out(s, [], Done)
  }

  /** The payload of the report frame at the start of `rest`. */
  function ReportSize(rest: seq<Byte>): nat
    requires |rest| >= 4
  {
    U16(rest, 2)
  }

  predicate ReportFits(rest: seq<Byte>) {
    |rest| >= 4 && Refusal(|rest| - 4, ReportSize(rest)).None?
  }

  function ReportFrame(s: State, rest: seq<Byte>, at: nat): Out {
    if Refusal(|rest|, 4).Some? then Fail(s, Refusal(|rest|, 4).value)
    else if !ReportFits(rest) then Fail(s, Refusal(|rest| - 4, ReportSize(rest)).value)
    else Body(s, rest[0], rest[4..4 + ReportSize(rest)], at + 4)
  }

  function ReportFrames(s: State, rest: seq<Byte>, at: nat): Out
    decreases |rest|
  {
    if rest == [] then Out(s, [], Done)
    else
      var o := ReportFrame(s, rest, at);
      if !ReportFits(rest) || o.status.Failed? then o
      else
        var n := 4 + ReportSize(rest);
        Then(o, ReportFrames(o.state, rest[n..], at + n))
  }

  // ---------------------------------------------------------------- the frames around them

  function HeatmapFrame(s: State, p: seq<Byte>, at: nat): Out {
    if Refusal(|p|, 9).Some? then Fail(s, Refusal(|p|, 9).value)
    else
      var size := U32(p, 5);
      if Refusal(|p| - 9, size).Some? then Fail(s, Refusal(|p| - 9, size).value)
      else HeatmapData(s, p[9..9 + size], at + 9)
  }

  /** Whether a 32 bit floating point number is below zero; not-a-number and negative zero are not. */
  predicate NegativeFloat(bits: nat) {
    0x8000_0000 < bits <= 0xFF80_0000
  }

  function MetadataFrame(s: State, p: seq<Byte>, at: nat): Out {
    if Refusal(|p|, 105).Some? then Fail(s, Refusal(|p|, 105).value)
    else if U32(p, 0) > 255 || U32(p, 4) > 255 then Out(s, [], Failed(Narrowing))
    else
      var meta := Metadata(U32(p, 0), U32(p, 4), U32(p, 8) as real / 1000.0, U32(p, 12) as real / 1000.0,
                           NegativeFloat(U32(p, 17)), NegativeFloat(U32(p, 33)));
      Out(s, [MetadataSeen(at, at + 105, meta)], Done)
  }

  predicate GroupFits(rest: seq<Byte>) {
    |rest| >= 16 && Refusal(|rest| - 16, U32(rest, 4)).None?
  }

  /** The groups of a legacy frame. Those with stylus or touch data hold report frames. */
  function LegacyGroups(s: State, rest: seq<Byte>, at: nat, count: nat): Out
    decreases count
  {
    if count == 0 then Out(s, [], Done)
    else if Refusal(|rest|, 16).Some? then Fail(s, Refusal(|rest|, 16).value)
    else if !GroupFits(rest) then Fail(s, Refusal(|rest| - 16, U32(rest, 4)).value)
    else
      var n := 16 + U32(rest, 4);
      var o := if U16(rest, 2) == 0x6 || U16(rest, 2) == 0x8 then ReportFrames(s, rest[16..n], at + 16)
          else Out(s, [], Done);
      if o.status.Failed? then o else Then(o, LegacyGroups(o.state, rest[n..], at + n, count - 1))
  }

  function LegacyFrame(s: State, p: seq<Byte>, at: nat): Out {
    if Refusal(|p|, 12).Some? then Fail(s, Refusal(|p|, 12).value)
    else LegacyGroups(s, p[12..], at + 12, U32(p, 4))
  }

  /** The size of the payload: the size field counts the header too, and the difference is taken modulo 2^64. */
  function HidPayload(rest: seq<Byte>): nat
    requires |rest| >= 7
  {
    var size := U32(rest, 0);
    if size >= 7 then size - 7 else size + TWO64 - 7
  }

  predicate HidFits(rest: seq<Byte>) {
    |rest| >= 7 && Refusal(|rest| - 7, HidPayload(rest)).None?
  }

  /** A frame of reports that is followed by exactly four bytes is skipped, together with these. */
  predicate IsQuirk(rest: seq<Byte>)
    requires HidFits(rest)
  {
    rest[5] == 0xFF && |rest| - 7 - HidPayload(rest) == 4
  }

  /** How many bytes the frame at the start of `rest` takes. */
  function HidUsed(rest: seq<Byte>): (n: nat)
    requires HidFits(rest)
    ensures 7 <= n <= |rest|
  {
    if IsQuirk(rest) then |rest| else 7 + HidPayload(rest)
  }

  function HidFrame(s: State, rest: seq<Byte>, at: nat): Out
    decreases |rest|, 0
  {
    if Refusal(|rest|, 7).Some? then Fail(s, Refusal(|rest|, 7).value)
    else if !HidFits(rest) then Fail(s, Refusal(|rest| - 7, HidPayload(rest)).value)
    else
      var p := rest[7..7 + HidPayload(rest)];
      if rest[5] == 0x00 then HidFrames(s, p, at + 7)
      else if rest[5] == 0x01 then HeatmapFrame(s, p, at + 7)
      else if rest[5] == 0x02 then MetadataFrame(s, p, at + 7)
      else if rest[5] == 0xEE then LegacyFrame(s, p, at + 7)
      else if rest[5] == 0xFF && !IsQuirk(rest) then ReportFrames(s, p, at + 7)
      else Out(s, [], Done)
  }

  function HidFrames(s: State, rest: seq<Byte>, at: nat): Out
    decreases |rest|, 1
  {
    if rest == [] then Out(s, [], Done)
    else
      var o := HidFrame(s, rest, at);
      if !HidFits(rest) || o.status.Failed? then o
      else Then(o, HidFrames(o.state, rest[HidUsed(rest)..], at + HidUsed(rest)))
  }

  /** A whole buffer, with a header of the given size. */
  function Buffer(s: State, data: seq<Byte>, header: nat): Out {
    if Refusal(|data|, header).Some? then Fail(s, Refusal(|data|, header).value)
    else HidFrame(s, data[header..], header)
  }
}
