/** The contents of reports: records as the device lays them out in bytes, what each of them tells, and that the parser
    reads exactly that back. */
module IptsReports {
  import opened ByteReader
  import opened Common
  import opened IptsProtocol
  import Frames = IptsFrames
  import Recording

  // ---------------------------------------------------------------- records

  /** The state bits of a stylus, with four bits that are not used. */
  datatype PenFlags = PenFlags(proximity: bool, contact: bool, button: bool, rubber: bool, spare: nat)

  datatype Sample10 = Sample10(reserved: seq<Byte>, flags: PenFlags, x: nat, y: nat, pressure: nat, last: Byte)

  datatype Sample151 = Sample151(timestamp: nat, flags: PenFlags, spare: Byte, x: nat, y: nat, pressure: nat,
                                 altitude: nat, azimuth: nat, reserved: seq<Byte>)

  datatype ButtonRecord = ButtonRecord(pressure: nat, reserved: seq<Byte>, button: Byte, last: Byte)

  /** A 32 bit floating point number, by its parts. */
  datatype Float = Float(negative: bool, exponent: nat, fraction: nat) {
    predicate Fits() {
      exponent < 0x100 && fraction < 0x80_0000
    }

    /** Zero has no sign, and neither has not-a-number. */
    predicate IsBelowZero() {
      negative && !(exponent == 0 && fraction == 0) && !(exponent == 0xFF && fraction != 0)
    }
  }

  /** What the payload of a report holds. */
  datatype Content =
    | Size(rows: Byte, columns: Byte, yMin: Byte, yMax: Byte, xMin: Byte, xMax: Byte, zMin: Byte, zMax: Byte)
    | Pixels(pixels: seq<Byte>)
    | Pens10(count: Byte, header: seq<Byte>, samples10: seq<Sample10>)
    | Pens151(count: Byte, header: seq<Byte>, samples151: seq<Sample151>)
    | DftInfo(group: nat, sequence: Byte, dataType: Byte, reserved: seq<Byte>)
    | DftRows(time: seq<Byte>, rowCount: Byte, sequence: Byte, gap: seq<Byte>, dataType: Byte, more: seq<Byte>,
              x: seq<Byte>, y: seq<Byte>)
    | Buttons(buttons: seq<ButtonRecord>)
    | Unknown(reportType: Byte, payload: seq<Byte>)

  // ---------------------------------------------------------------- records as bytes

  function Low(v: nat): Byte {
    v % 0x100
  }

  function High(v: nat): Byte
    requires v < 0x1_0000
  {
    v / 0x100
  }

  /** The bytes of a 32 bit number, the lowest one first. */
  function FourBytes(v: nat): (b: seq<Byte>)
    requires v < 0x1_0000_0000
    ensures |b| == 4
  {
    [v % 0x100, v / 0x100 % 0x100, v / 0x1_0000 % 0x100, v / 0x100_0000]
  }

  function FlagByte(f: PenFlags): Byte
    requires f.spare < 16
  {
    (if f.proximity then 1 else 0) + (if f.contact then 2 else 0) + (if f.button then 4 else 0)
    + (if f.rubber then 8 else 0) + 16 * f.spare
  }

  predicate Fits10(s: Sample10) {
    |s.reserved| == 4 && s.flags.spare < 16 && s.x < 0x1_0000 && s.y < 0x1_0000 && s.pressure < 0x1_0000
  }

  function Bytes10(s: Sample10): (b: seq<Byte>)
    requires Fits10(s)
    ensures |b| == 12
  {
    s.reserved
    + [FlagByte(s.flags), Low(s.x), High(s.x), Low(s.y), High(s.y), Low(s.pressure), High(s.pressure), s.last]
  }

  predicate Fits151(s: Sample151) {
    && s.timestamp < 0x1_0000 && s.flags.spare < 16 && s.x < 0x1_0000 && s.y < 0x1_0000 && s.pressure < 0x1_0000
    && s.altitude < 0x1_0000 && s.azimuth < 0x1_0000 && |s.reserved| == 2
  }

  function Bytes151(s: Sample151): (b: seq<Byte>)
    requires Fits151(s)
    ensures |b| == 16
  {
    [Low(s.timestamp), High(s.timestamp), FlagByte(s.flags), s.spare, Low(s.x), High(s.x), Low(s.y), High(s.y),
     Low(s.pressure), High(s.pressure), Low(s.altitude), High(s.altitude), Low(s.azimuth), High(s.azimuth)]
    + s.reserved
  }

  predicate FitsButton(s: ButtonRecord) {
    s.pressure < 0x1_0000 && |s.reserved| == 12
  }

  function BytesOfButton(s: ButtonRecord): (b: seq<Byte>)
    requires FitsButton(s)
    ensures |b| == 16
  {
    [Low(s.pressure), High(s.pressure)] + s.reserved + [s.button, s.last]
  }

  function All10(samples: seq<Sample10>): (b: seq<Byte>)
    requires forall s | s in samples :: Fits10(s)
    ensures |b| == 12 * |samples|
  {
    if samples == [] then [] else Bytes10(samples[0]) + All10(samples[1..])
  }

  function All151(samples: seq<Sample151>): (b: seq<Byte>)
    requires forall s | s in samples :: Fits151(s)
    ensures |b| == 16 * |samples|
  {
    if samples == [] then [] else Bytes151(samples[0]) + All151(samples[1..])
  }

  function AllButtons(buttons: seq<ButtonRecord>): (b: seq<Byte>)
    requires forall s | s in buttons :: FitsButton(s)
    ensures |b| == 16 * |buttons|
  {
    if buttons == [] then [] else BytesOfButton(buttons[0]) + AllButtons(buttons[1..])
  }

  /** A report of one sample may announce none. */
  predicate Announces(count: Byte, samples: nat) {
    samples > 0 && (count as int == samples || (count == 0 && samples == 1))
  }

  /** The parts of the record have the size they should have. */
  predicate Sized(c: Content) {
    match c
    case Size(_, _, _, _, _, _, _, _) => true
    case Pixels(pixels) => |pixels| > 0
    case Pens10(count, header, samples) =>
      |header| == 7 && Announces(count, |samples|) && forall p | p in samples :: Fits10(p)
    case Pens151(count, header, samples) =>
      |header| == 7 && Announces(count, |samples|) && forall p | p in samples :: Fits151(p)
    case DftInfo(group, _, _, reserved) => group < TWO32 && |reserved| == 10
    case DftRows(time, rows, _, gap, _, more, x, y) =>
      |time| == 4 && |gap| == 3 && |more| == 2 && rows > 0 && |x| == |y| == 48 * (rows as int)
    case Buttons(buttons) => forall b | b in buttons :: FitsButton(b)
    case Unknown(t, _) => t !in [0x03, 0x10, 0x25, 0x5C, 0x5F, 0x60, 0x90]
  }

  /** Heatmaps have as many pixels as the latest size says. */
  predicate Fits(s: State, c: Content) {
    Sized(c) && (c.Pixels? ==> |c.pixels| == (s.dim.rows as int) * (s.dim.columns as int))
  }

  /** The type of the report, and its payload. */
  function Written(c: Content): (Byte, seq<Byte>)
    requires Sized(c)
  {
    match c
    case Size(rows, columns, y0, y1, x0, x1, z0, z1) => (0x03, [rows, columns, y0, y1, x0, x1, z0, z1])
    case Pixels(pixels) => (0x25, pixels)
    case Pens10(count, header, samples) => (0x10, [count] + header + All10(samples))
    case Pens151(count, header, samples) => (0x60, [count] + header + All151(samples))
    case DftInfo(group, sequence, dataType, reserved) => (0x5F, FourBytes(group) + [sequence, dataType] + reserved)
    case DftRows(time, rows, sequence, gap, dataType, more, x, y) =>
      (0x5C, time + [rows, sequence] + gap + [dataType] + more + x + y)
    case Buttons(buttons) => (0x90, AllButtons(buttons))
    case Unknown(t, payload) => (t, payload)
  }

  // ---------------------------------------------------------------- what records tell

  function Pen10Of(s: Sample10): Pen {
    Pen(s.flags.proximity, s.pressure > 0, s.flags.button, s.flags.rubber,
        s.x as real / 9600.0, s.y as real / 7200.0, s.pressure as real / 1024.0, 0, 0, 0)
  }

  function Pen151Of(s: Sample151): Pen {
    Pen(s.flags.proximity, s.pressure > 0, s.flags.button, s.flags.rubber,
        s.x as real / 9600.0, s.y as real / 7200.0, s.pressure as real / 4096.0, s.timestamp, s.altitude, s.azimuth)
  }

  /** What a record at offset `at` changes and reports: of several samples the last one. */
  function Meaning(s: State, c: Content, at: nat): Out
    requires Fits(s, c)
  {
    match c
    case Size(rows, columns, _, _, _, _, zMin, zMax) =>
      var dim := Dimensions(rows, columns, zMin, if zMax == 0 then 255 else zMax);
      Out(s.(dim := dim), [DimensionsSeen(at, at + 8, dim)], Done)
    case Pixels(pixels) => Out(s, [Heatmap(at, at + |pixels|, s.dim, pixels)], Done)
    case Pens10(_, _, samples) =>
      var end := at + 8 + 12 * |samples|;
      Out(s, [StylusSample(end - 12, end, Pen10Of(samples[|samples| - 1]))], Done)
    case Pens151(_, _, samples) =>
      var end := at + 8 + 16 * |samples|;
      Out(s, [StylusSample(end - 16, end, Pen151Of(samples[|samples| - 1]))], Done)
    case DftInfo(group, sequence, dataType, _) => Out(s.(meta := DftMeta(group, sequence, dataType)), [], Done)
    case DftRows(_, rows, sequence, _, dataType, _, x, y) =>
      var group := if s.meta.sequence == sequence && s.meta.dataType == dataType then Some(s.meta.group) else None;
      Out(s, [DftWindow(at + 12, at + 12 + |x| + |y|, x + y, rows as int, dataType, s.dim.columns, s.dim.rows, group)],
          Done)
    case Buttons(buttons) =>
      var end := at + 16 * |buttons|;
      if buttons == [] then Out(s, [ButtonSample(at, at, false, 0.0)], Done)
      else
        var b := buttons[|buttons| - 1];
        Out(s, [ButtonSample(end - 16, end, b.button != 0, b.pressure as real / 1024.0)], Done)
    case Unknown(_, _) => Out(s, [], Done)
  }

  // ---------------------------------------------------------------- numbers

  lemma U16Is(b: seq<Byte>, i: nat, v: nat)
    requires i + 2 <= |b| && v < 0x1_0000 && b[i] == Low(v) && b[i + 1] == High(v)
    ensures U16(b, i) == v
  {
    var s := b[i..i + 2];
    assert s[0] == b[i] && s[1..][0] == b[i + 1] && s[1..][1..] == [];
    assert LittleEndian(s[1..]) == (b[i + 1] as int) + 256 * LittleEndian([]);
  }

  lemma U32Is(b: seq<Byte>, i: nat, v: nat)
    requires i + 4 <= |b| && v < TWO32 && b[i..i + 4] == FourBytes(v)
    ensures U32(b, i) == v
  {
    FourDigits(b[i..i + 4]);
    Digits(v);
  }

  lemma FourDigits(b: seq<Byte>)
    requires |b| == 4
    ensures LittleEndian(b) == (b[0] as int) + 0x100 * (b[1] as int) + 0x1_0000 * (b[2] as int)
              + 0x100_0000 * (b[3] as int)
  {
    var c, d, e := b[1..], b[2..], b[3..];
    assert c[1..] == d && d[1..] == e && e[1..] == [];
    assert LittleEndian(b) == (b[0] as int) + 256 * LittleEndian(c);
    assert LittleEndian(c) == (b[1] as int) + 256 * LittleEndian(d);
    assert LittleEndian(d) == (b[2] as int) + 256 * LittleEndian(e);
    assert LittleEndian(e) == (b[3] as int) + 256 * LittleEndian([]);
  }

  lemma Digits(v: nat)
    ensures v == v % 0x100 + 0x100 * (v / 0x100 % 0x100) + 0x1_0000 * (v / 0x1_0000 % 0x100)
                 + 0x100_0000 * (v / 0x100_0000)
  {
    var a, b := v / 0x100, v / 0x1_0000;
    assert a == a % 0x100 + 0x100 * b;
    assert b == b % 0x100 + 0x100 * (v / 0x100_0000);
  }

  lemma Flags(f: PenFlags)
    requires f.spare < 16
    ensures var b := FlagByte(f);
            Bit(b, 1) == f.proximity && Bit(b, 2) == f.contact && Bit(b, 4) == f.button && Bit(b, 8) == f.rubber
  {
    hide Bit;
    var p, c, b, r := Digit(f.proximity), Digit(f.contact), Digit(f.button), Digit(f.rubber);
    BinaryDigits(FlagByte(f), p, c, b, r, f.spare);
  }

  function Digit(set_: bool): nat {
    if set_ then 1 else 0
  }

  lemma BinaryDigits(v: Byte, p: nat, c: nat, b: nat, r: nat, spare: nat)
    requires p <= 1 && c <= 1 && b <= 1 && r <= 1 && v as int == p + 2 * c + 4 * b + 8 * r + 16 * spare
    ensures Bit(v, 1) == (p == 1) && Bit(v, 2) == (c == 1) && Bit(v, 4) == (b == 1) && Bit(v, 8) == (r == 1)
  {
    assert v as int / 8 == r + 2 * spare;
    assert v as int / 4 == b + 2 * (r + 2 * spare);
    assert v as int / 2 == c + 2 * (b + 2 * (r + 2 * spare));
  }

  // ---------------------------------------------------------------- stylus

  lemma Decodes10(s: Sample10)
    requires Fits10(s)
    ensures DecodePen10(Bytes10(s)) == Pen10Of(s)
  {
    hide U16, Bit, FlagByte;
    var q := Bytes10(s);
    assert q[4] == FlagByte(s.flags);
    Flags(s.flags);
    U16Is(q, 5, s.x);
    U16Is(q, 7, s.y);
    U16Is(q, 9, s.pressure);
  }

  lemma Decodes151(s: Sample151)
    requires Fits151(s)
    ensures DecodePen151(Bytes151(s)) == Pen151Of(s)
  {
    hide U16, Bit, FlagByte;
    var q := Bytes151(s);
    assert q[2] == FlagByte(s.flags);
    Flags(s.flags);
    U16Is(q, 0, s.timestamp);
    U16Is(q, 4, s.x);
    U16Is(q, 6, s.y);
    U16Is(q, 8, s.pressure);
    U16Is(q, 10, s.altitude);
    U16Is(q, 12, s.azimuth);
  }

  lemma {:induction false} LastOf10(samples: seq<Sample10>)
    requires samples != [] && forall s | s in samples :: Fits10(s)
    ensures var n := |samples| - 1; All10(samples)[12 * n..] == Bytes10(samples[n])
    decreases |samples|
  {
    hide Bytes10;
    var first, rest := Bytes10(samples[0]), All10(samples[1..]);
    if |samples| == 1 {
      assert rest == [];
      assert first + rest == first;
    } else {
      LastOf10(samples[1..]);
      var n := |samples| - 1;
      assert (first + rest)[12 * n..] == rest[12 * (n - 1)..];
    }
  }

  lemma {:induction false} LastOf151(samples: seq<Sample151>)
    requires samples != [] && forall s | s in samples :: Fits151(s)
    ensures var n := |samples| - 1; All151(samples)[16 * n..] == Bytes151(samples[n])
    decreases |samples|
  {
    hide Bytes151;
    var first, rest := Bytes151(samples[0]), All151(samples[1..]);
    if |samples| == 1 {
      assert rest == [];
      assert first + rest == first;
    } else {
      LastOf151(samples[1..]);
      var n := |samples| - 1;
      assert (first + rest)[16 * n..] == rest[16 * (n - 1)..];
    }
  }

  lemma {:induction false} SkipsAllButOne(left: nat, count: nat, width: nat)
    requires width > 0 && left == count * width + width
    ensures Skipped(left, count, width) == Ok(width)
    decreases count
  {
    if count > 0 {
      assert left - width == (count - 1) * width + width;
      assert 0 <= (count - 1) * width;
      SkipsAllButOne(left - width, count - 1, width);
    }
  }

  lemma ReadsPens(s: State, c: Content, at: nat)
    requires (c.Pens10? || c.Pens151?) && Fits(s, c)
    ensures StylusReport(s, Written(c).1, at, c.Pens151?) == Meaning(s, c, at)
  {
    hide DecodePen10, DecodePen151, Pen10Of, Pen151Of, All10, All151, Skipped;
    var p := Written(c).1;
    assert p[0] == c.count;
    if c.Pens10? {
      var n := |c.samples10| - 1;
      SkipsAllButOne(|p| - 8, n, 12);
      LastOf10(c.samples10);
      assert p[8 + 12 * n..8 + 12 * n + 12] == All10(c.samples10)[12 * n..];
      Decodes10(c.samples10[n]);
    } else {
      var n := |c.samples151| - 1;
      SkipsAllButOne(|p| - 8, n, 16);
      LastOf151(c.samples151);
      assert p[8 + 16 * n..8 + 16 * n + 16] == All151(c.samples151)[16 * n..];
      Decodes151(c.samples151[n]);
    }
  }

  // ---------------------------------------------------------------- DFT data and buttons

  lemma ReadsDftInfo(s: State, c: Content, at: nat)
    requires c.DftInfo? && Fits(s, c)
    ensures DftMetaReport(s, Written(c).1) == Meaning(s, c, at)
  {
    hide U32, FourBytes;
    var p := Written(c).1;
    assert p[0..4] == FourBytes(c.group);
    U32Is(p, 0, c.group);
    assert p[4] == c.sequence && p[5] == c.dataType;
  }

  lemma ReadsDftRows(s: State, c: Content, at: nat)
    requires c.DftRows? && Fits(s, c)
    ensures DftWindowReport(s, Written(c).1, at) == Meaning(s, c, at)
  {
    var p := Written(c).1;
    assert p[4] == c.rowCount && p[5] == c.sequence && p[9] == c.dataType;
    assert p[12..12 + |c.x| + |c.y|] == c.x + c.y;
  }

  /** The last of the buttons, or what was known before. */
  lemma {:induction false} ReadsButtons(s: State, buttons: seq<ButtonRecord>, at: nat, from: nat, active: bool,
      pressure: real)
    requires forall b | b in buttons :: FitsButton(b)
    ensures ButtonReport(s, AllButtons(buttons), at, from, active, pressure) ==
            if buttons == [] then Out(s, [ButtonSample(from, at, active, pressure)], Done)
            else
              var b, end := buttons[|buttons| - 1], at + 16 * |buttons|;
              Out(s, [ButtonSample(end - 16, end, b.button != 0, b.pressure as real / 1024.0)], Done)
    decreases |buttons|
  {
    if buttons != [] {
      var b, p := buttons[0], AllButtons(buttons);
      assert p[16..] == AllButtons(buttons[1..]);
      assert p[14] == b.button && p[0] == Low(b.pressure) && p[1] == High(b.pressure);
      hide U16, BytesOfButton;
      U16Is(p, 0, b.pressure);
      ReadsButtons(s, buttons[1..], at + 16, at, p[14] != 0, U16(p, 0) as real / 1024.0);
    }
  }

  // ---------------------------------------------------------------- reports

  /** Every record that is written is read back, by the function that its type selects. */
  lemma ReadsBack(s: State, c: Content, at: nat)
    requires Fits(s, c)
    ensures Body(s, Written(c).0, Written(c).1, at) == Meaning(s, c, at)
  {
    hide StylusReport, DftMetaReport, DftWindowReport, ButtonReport, AllButtons, All10, All151;
    match c
    case Size(_, _, _, _, _, _, _, _) =>
    case Pixels(pixels) => assert pixels[..|pixels|] == pixels;
    case Pens10(_, _, _) => ReadsPens(s, c, at);
    case Pens151(_, _, _) => ReadsPens(s, c, at);
    case DftInfo(_, _, _, _) => ReadsDftInfo(s, c, at);
    case DftRows(_, _, _, _, _, _, _, _) => ReadsDftRows(s, c, at);
    case Buttons(buttons) => ReadsButtons(s, buttons, at, at, false, 0.0);
    case Unknown(_, _) =>
  }

  /** The reports carry these records, with any flags. */
  predicate Carry(reports: seq<Frames.Report>, cs: seq<Content>)
    requires forall c | c in cs :: Sized(c)
  {
    |reports| == |cs| &&
    forall i | 0 <= i < |cs| :: reports[i].reportType == Written(cs[i]).0 && reports[i].payload == Written(cs[i]).1
  }

  /** Heatmaps have the size that the sizes before them say. */
  predicate AllFit(s: State, cs: seq<Content>)
    decreases |cs|
  {
    cs != [] ==> Fits(s, cs[0]) && AllFit(Meaning(s, cs[0], 0).state, cs[1..])
  }

  lemma {:induction false} FittingAreSized(s: State, cs: seq<Content>)
    requires AllFit(s, cs)
    ensures forall c | c in cs :: Sized(c)
    decreases |cs|
  {
    hide Sized, Meaning;
    if cs != [] {
      FittingAreSized(Meaning(s, cs[0], 0).state, cs[1..]);
      assert cs == [cs[0]] + cs[1..];
    }
  }

  /** What a list of reports tells: a header of four bytes comes before each record. */
  function Told(s: State, cs: seq<Content>, at: nat): Out
    requires AllFit(s, cs)
    decreases |cs|
  {
    if cs == [] then Out(s, [], Done)
    else
      var o := Meaning(s, cs[0], at + 4);
      Then(o, Told(o.state, cs[1..], at + 4 + |Written(cs[0]).1|))
  }

  lemma {:induction false} LeavesTell(s: State, reports: seq<Frames.Report>, cs: seq<Content>, at: nat)
    requires AllFit(s, cs) && (forall c | c in cs :: Sized(c)) && Carry(reports, cs)
    ensures Frames.ReadAll(s, Frames.ReportLeaves(reports, at)) == Told(s, cs, at)
    decreases |cs|
  {
    hide Sized, Written, Body, Meaning, Fits;
    if cs != [] {
      var r := reports[0];
      ReadsBack(s, cs[0], at + 4);
      StatusAndState(s, cs[0], at + 4);
      LeavesTell(Meaning(s, cs[0], 0).state, reports[1..], cs[1..], at + 4 + |r.payload|);
      assert |Frames.EncodeReport(r)| == 4 + |r.payload|;
      var leaves := Frames.ReportLeaves(reports, at);
      assert leaves[0] == Frames.ReportLeaf(r.reportType, r.payload, at + 4);
      assert leaves[1..] == Frames.ReportLeaves(reports[1..], at + 4 + |r.payload|);
    }
  }

  lemma StatusAndState(s: State, c: Content, at: nat)
    requires Fits(s, c)
    ensures Meaning(s, c, at).status == Done && Meaning(s, c, at).state == Meaning(s, c, 0).state
  {
  }

  /** A buffer with a frame of reports tells what the records in the reports tell, one after the other. */
  lemma ReportsRoundTrip(s: State, header: seq<Byte>, reports: seq<Frames.Report>, cs: seq<Content>)
    requires AllFit(s, cs) && (forall c | c in cs :: Sized(c)) && Carry(reports, cs)
    requires Frames.FineFrame(Frames.Reports(reports), true)
    ensures Buffer(s, header + Frames.Encode(Frames.Reports(reports)), |header|) == Told(s, cs, |header| + 7)
  {
    hide Sized, Written, Frames.Encode, Buffer, Told, Frames.ReadAll, Frames.ReportLeaves, Frames.FineReports;
    Frames.BufferDecodes(s, header, Frames.Reports(reports));
    LeavesTell(s, reports, cs, |header| + 7);
  }

  /** A size and a heatmap of that size, in one buffer: the heatmap has these rows, columns and pixels. */
  lemma HeatmapRoundTrip(s: State, header: seq<Byte>, rows: Byte, columns: Byte, zMin: Byte, zMax: Byte,
      limits: seq<Byte>, flags: (Byte, Byte), pixels: seq<Byte>)
    requires |limits| == 4 && 0 < |pixels| == (rows as int) * (columns as int) < 0x1_0000
    ensures var sizeReport := [0x03, flags.0, 8, 0, rows, columns] + limits + [zMin, zMax];
            var dataReport := [0x25, flags.1, |pixels| % 0x100, |pixels| / 0x100] + pixels;
            var n := 23 + |pixels|;
            var frame := FourBytes(n) + [0, 0xFF, 0] + sizeReport + dataReport;
            var dim := Dimensions(rows, columns, zMin, if zMax == 0 then 255 else zMax);
            var at := |header|;
            Buffer(s, header + frame, |header|) ==
            Out(s.(dim := dim), [DimensionsSeen(at + 11, at + 19, dim), Heatmap(at + 23, at + n, dim, pixels)], Done)
  {
    hide *;
    var payload := [rows, columns, limits[0], limits[1], limits[2], limits[3], zMin, zMax];
    var a, b := Frames.Report(0x03, flags.0, payload), Frames.Report(0x25, flags.1, pixels);
    assert limits == [limits[0], limits[1], limits[2], limits[3]];
    assert [0x03, flags.0, 8, 0, rows, columns] + limits + [zMin, zMax] == [0x03, flags.0, 8, 0] + payload;
    TwoReports(a, b);
    SizeAndPixels(s, header, a, b);
  }

  lemma SizeAndPixels(s: State, header: seq<Byte>, a: Frames.Report, b: Frames.Report)
    requires a.reportType == 0x03 && |a.payload| == 8 && b.reportType == 0x25
    requires 0 < |b.payload| == (a.payload[0] as int) * (a.payload[1] as int)
    requires Frames.FineFrame(Frames.Reports([a, b]), true)
    ensures var p, at := a.payload, |header|;
            var dim := Dimensions(p[0], p[1], p[6], if p[7] == 0 then 255 else p[7]);
            Buffer(s, header + Frames.Encode(Frames.Reports([a, b])), |header|) ==
            Out(s.(dim := dim), [DimensionsSeen(at + 11, at + 19, dim),
                                 Heatmap(at + 23, at + 23 + |b.payload|, dim, b.payload)], Done)
  {
    hide Buffer, Frames.FineFrame, Frames.Encode;
    var p := a.payload;
    var size := Size(p[0], p[1], p[2], p[3], p[4], p[5], p[6], p[7]);
    var cs := [size, Pixels(b.payload)];
    var sized := Meaning(s, size, 0).state;
    assert cs[1..] == [Pixels(b.payload)] && cs[1..][1..] == [];
    assert cs[0] == size && Fits(s, size) && Fits(sized, Pixels(b.payload));
    assert AllFit(sized, cs[1..]);
    assert p == [p[0], p[1], p[2], p[3], p[4], p[5], p[6], p[7]];
    ReportsRoundTrip(s, header, [a, b], cs);
    ToldTwo(s, size, Pixels(b.payload), |header| + 7);
  }

  lemma ToldTwo(s: State, a: Content, b: Content, at: nat)
    requires Sized(a) && Sized(b)
    requires AllFit(s, [a, b]) && Fits(s, a) && Fits(Meaning(s, a, 0).state, b)
    ensures Told(s, [a, b], at) ==
            var o := Meaning(s, a, at + 4);
            var q := Meaning(Meaning(s, a, 0).state, b, at + 8 + |Written(a).1|);
            Out(q.state, o.events + q.events, Done)
  {
    hide Meaning, Written, Sized;
    assert [a, b][1..] == [b] && [b][1..] == [];
    var t := Meaning(s, a, 0).state;
    var next := at + 4 + |Written(a).1|;
    StatusAndState(s, a, at + 4);
    StatusAndState(t, b, next + 4);
    assert Told(Meaning(t, b, next + 4).state, [], next + 4 + |Written(b).1|).events == [];
    assert Told(t, [b], next) == Out(Meaning(t, b, next + 4).state, Meaning(t, b, next + 4).events + [], Done);
  }

  /** Two reports in a frame, byte for byte. */
  lemma TwoReports(a: Frames.Report, b: Frames.Report)
    requires |a.payload| < 0x1_0000 && 0 < |b.payload| < 0x1_0000
    ensures Frames.FineFrame(Frames.Reports([a, b]), true)
    ensures var n := 15 + |a.payload| + |b.payload|;
            Frames.Encode(Frames.Reports([a, b])) ==
            FourBytes(n) + [0, 0xFF, 0] +
            ([a.reportType, a.flags, |a.payload| % 0x100, |a.payload| / 0x100] + a.payload) +
            ([b.reportType, b.flags, |b.payload| % 0x100, |b.payload| / 0x100] + b.payload)
  {
    hide *;
    OneReport(a);
    OneReport(b);
    InOrder(a, b);
    WholeFrame([a, b]);
  }

  lemma OneReport(r: Frames.Report)
    requires |r.payload| < 0x1_0000
    ensures Frames.EncodeReport(r) ==
            [r.reportType, r.flags, |r.payload| % 0x100, |r.payload| / 0x100] + r.payload
  {
    hide Recording.ToBytes;
    TwoBytes(|r.payload|);
  }

  lemma InOrder(a: Frames.Report, b: Frames.Report)
    requires |a.payload| < 0x1_0000 && 0 < |b.payload| < 0x1_0000
    ensures Frames.EncodeReports([a, b]) == Frames.EncodeReport(a) + Frames.EncodeReport(b)
    ensures Frames.FineReports([a, b])
  {
    hide Frames.EncodeReport;
    assert [a, b][1..] == [b] && [b][1..] == [];
    assert Frames.EncodeReports([b]) == Frames.EncodeReport(b) + [];
    assert Frames.FineReports([b]);
  }

  lemma WholeFrame(reports: seq<Frames.Report>)
    requires Frames.FineReports(reports) && 0 < |Frames.EncodeReports(reports)| < 0x10_0000
    ensures Frames.FineFrame(Frames.Reports(reports), true)
    ensures Frames.Encode(Frames.Reports(reports)) ==
            FourBytes(7 + |Frames.EncodeReports(reports)|) + [0, 0xFF, 0] + Frames.EncodeReports(reports)
  {
    FourBytesAre(7 + |Frames.EncodeReports(reports)|);
    hide FourBytes, Recording.ToBytes, Frames.EncodeReports, Frames.FineReports;
  }

  /** A frame around a payload, byte for byte. */
  function FrameOf(frameType: Byte, payload: seq<Byte>): seq<Byte>
    requires |payload| + 7 < 0x1_0000_0000
  {
    FourBytes(7 + |payload|) + [0, frameType, 0] + payload
  }

  lemma TwoBytes(v: nat)
    requires v < 0x1_0000
    ensures Recording.ToBytes(v, 2) == [v % 0x100, v / 0x100]
  {
    assert Recording.ToBytes(v / 0x100, 1) == [v / 0x100 % 0x100] + Recording.ToBytes(v / 0x100 / 0x100, 0);
  }

  lemma FourBytesAre(v: nat)
    requires v < TWO32
    ensures Recording.ToBytes(v, 4) == FourBytes(v)
  {
    var a := v / 0x100;
    var b := a / 0x100;
    var c := b / 0x100;
    assert a / 0x100 == v / 0x1_0000 && b / 0x100 == v / 0x100_0000;
    assert Recording.ToBytes(c, 1) == [c % 0x100] + Recording.ToBytes(c / 0x100, 0);
    assert Recording.ToBytes(b, 2) == [b % 0x100] + Recording.ToBytes(c, 1);
    assert Recording.ToBytes(a, 3) == [a % 0x100] + Recording.ToBytes(b, 2);
  }

  /** A legacy frame with one group of reports, byte for byte. Of the groups, those with stylus data (6) and touch data
      (8) are read. */
  lemma LegacyRoundTrip(s: State, header: seq<Byte>, counter: seq<Byte>, reserved: seq<Byte>, index: nat,
      groupType: nat, more: seq<Byte>, reports: seq<Frames.Report>, cs: seq<Content>)
    requires |counter| == 4 && |reserved| == 4 && |more| == 8 && index < 0x1_0000 && groupType < 0x1_0000
    requires AllFit(s, cs) && (forall c | c in cs :: Sized(c)) && Carry(reports, cs)
    requires reports != [] && Frames.FineReports(reports) && |Frames.EncodeReports(reports)| < 0x10_0000
    ensures var payload := Frames.EncodeReports(reports);
            var group := [Low(index), High(index), Low(groupType), High(groupType)] + FourBytes(|payload|) + more
                + payload;
            Buffer(s, header + FrameOf(0xEE, counter + FourBytes(1) + reserved + group), |header|) ==
            if groupType == 6 || groupType == 8 then Told(s, cs, |header| + 35) else Out(s, [], Done)
  {
    hide Buffer, Told, Frames.ReadAll, Frames.ReportLeaves, Frames.FineReports, Frames.EncodeReports, FourBytes;
    hide Sized, Written, AllFit, Frames.Encode, FrameOf, Frames.FineFrame;
    var g := Frames.Group(index, groupType, more, reports);
    LegacyBytes(counter, reserved, g);
    Frames.BufferDecodes(s, header, Frames.Legacy(counter, reserved, [g]));
    OneGroupLeaves(counter, reserved, g, |header|);
    if groupType == 6 || groupType == 8 {
      LeavesTell(s, reports, cs, |header| + 35);
    } else {
      NothingRead(s);
    }
  }

  lemma NothingRead(s: State)
    ensures Frames.ReadAll(s, []) == Out(s, [], Done)
  {
  }

  lemma OneGroupLeaves(counter: seq<Byte>, reserved: seq<Byte>, g: Frames.Group, at: nat)
    ensures Frames.Leaves(Frames.Legacy(counter, reserved, [g]), at) ==
            if g.groupType == 6 || g.groupType == 8 then Frames.ReportLeaves(g.reports, at + 35) else []
  {
    hide Frames.ReportLeaves, Frames.EncodeGroup;
    assert [g][1..] == [];
    assert Frames.GroupLeaves([g], at + 19) == Frames.LeavesOfGroup(g, at + 19) + [];
  }

  lemma LegacyBytes(counter: seq<Byte>, reserved: seq<Byte>, g: Frames.Group)
    requires |counter| == 4 && |reserved| == 4 && |g.reserved| == 8 && g.index < 0x1_0000 && g.groupType < 0x1_0000
    requires g.reports != [] && Frames.FineReports(g.reports) && |Frames.EncodeReports(g.reports)| < 0x10_0000
    ensures var f, payload := Frames.Legacy(counter, reserved, [g]), Frames.EncodeReports(g.reports);
            var group := [Low(g.index), High(g.index), Low(g.groupType), High(g.groupType)] + FourBytes(|payload|)
                + g.reserved + payload;
            Frames.FineFrame(f, true)
            && Frames.Encode(f) == FrameOf(0xEE, counter + FourBytes(1) + reserved + group)
  {
    hide Recording.ToBytes, Frames.FineReports, Frames.EncodeReports, FourBytes;
    var payload := Frames.EncodeReports(g.reports);
    var group := [Low(g.index), High(g.index), Low(g.groupType), High(g.groupType)] + FourBytes(|payload|)
        + g.reserved + payload;
    TwoBytes(g.index);
    TwoBytes(g.groupType);
    FourBytesAre(|payload|);
    FourBytesAre(1);
    FourBytesAre(35 + |payload|);
    assert Frames.EncodeGroup(g) == group;
    assert [g][1..] == [];
    assert Frames.EncodeGroups([g]) == Frames.EncodeGroup(g) + [];
    assert Frames.FineGroups([g]);
  }

  // ---------------------------------------------------------------- frames of their own

  /** A heatmap frame has the bytes that its size says, as pixels of the latest size. */
  lemma HeatmapFrameRoundTrip(s: State, header: seq<Byte>, reserved: seq<Byte>, pixels: seq<Byte>)
    requires |reserved| == 5 && 0 < |pixels| == (s.dim.rows as int) * (s.dim.columns as int) < 0x1_0000
    ensures var payload := reserved + FourBytes(|pixels|) + pixels;
            var at := |header| + 16;
            Buffer(s, header + FrameOf(0x01, payload), |header|) ==
            Out(s, [Heatmap(at, at + |pixels|, s.dim, pixels)], Done)
  {
    hide *;
    ReadsHeatmapFrame(s, reserved, pixels, |header| + 7);
    OneHeatmap(s, header, reserved + FourBytes(|pixels|) + pixels);
  }

  lemma OneHeatmap(s: State, header: seq<Byte>, payload: seq<Byte>)
    requires 0 < |payload| < 0x2_0000
    ensures Buffer(s, header + FrameOf(0x01, payload), |header|) == HeatmapFrame(s, payload, |header| + 7)
  {
    hide Buffer, HeatmapFrame, FourBytes, Recording.ToBytes;
    FourBytesAre(7 + |payload|);
    assert Frames.Encode(Frames.HeatmapData(payload)) == FrameOf(0x01, payload);
    Frames.BufferDecodes(s, header, Frames.HeatmapData(payload));
    Frames.ReadOne(s, Frames.HeatmapLeaf(payload, |header| + 7));
  }

  lemma ReadsHeatmapFrame(s: State, reserved: seq<Byte>, pixels: seq<Byte>, at: nat)
    requires |reserved| == 5 && 0 < |pixels| == (s.dim.rows as int) * (s.dim.columns as int) < 0x1_0000
    ensures HeatmapFrame(s, reserved + FourBytes(|pixels|) + pixels, at) ==
            Out(s, [Heatmap(at + 9, at + 9 + |pixels|, s.dim, pixels)], Done)
  {
    hide FourBytes, U32;
    var payload := reserved + FourBytes(|pixels|) + pixels;
    assert payload[5..9] == FourBytes(|pixels|) && payload[9..9 + |pixels|] == pixels;
    U32Is(payload, 5, |pixels|);
    assert pixels[..|pixels|] == pixels;
  }

  /** The bits of a floating point number. */
  function BitsOf(f: Float): (v: nat)
    requires f.Fits()
    ensures v < TWO32
  {
    (if f.negative then 0x8000_0000 else 0) + f.exponent * 0x80_0000 + f.fraction
  }

  lemma SignOf(f: Float)
    requires f.Fits()
    ensures NegativeFloat(BitsOf(f)) == f.IsBelowZero()
  {
  }

  /** The record of a metadata frame. */
  datatype Surface = Surface(rows: nat, columns: nat, width: nat, height: nat, one: Byte, xx: Float, shear: seq<Byte>,
                             yy: Float, rest: seq<Byte>)
  {
    predicate Fits() {
      && rows < TWO32 && columns < TWO32 && width < TWO32 && height < TWO32
      && xx.Fits() && |shear| == 12 && yy.Fits() && |rest| == 68
    }

    function Bytes(): (b: seq<Byte>)
      requires Fits()
      ensures |b| == 105
    {
      FourBytes(rows) + FourBytes(columns) + FourBytes(width) + FourBytes(height) + [one]
      + FourBytes(BitsOf(xx)) + shear + FourBytes(BitsOf(yy)) + rest
    }
  }

  /** A metadata frame tells the size of the heatmaps, which has to fit into bytes, and that of the display, and on
      which axes it is mirrored. */
  lemma MetadataRoundTrip(s: State, header: seq<Byte>, m: Surface)
    requires m.Fits()
    ensures var at := |header| + 7;
            Buffer(s, header + FrameOf(0x02, m.Bytes()), |header|) ==
            if m.rows > 255 || m.columns > 255 then Out(s, [], Failed(Narrowing))
            else Out(s, [MetadataSeen(at, at + 105, Metadata(m.rows, m.columns, m.width as real / 1000.0,
                m.height as real / 1000.0, m.xx.IsBelowZero(), m.yy.IsBelowZero()))], Done)
  {
    hide Buffer, FourBytes, U32, NegativeFloat, BitsOf, Float.IsBelowZero, Surface.Bytes, Recording.ToBytes;
    var p := m.Bytes();
    FourBytesAre(7 + |p|);
    assert Frames.Encode(Frames.MetadataData(p)) == FrameOf(0x02, p);
    MetadataFields(m);
    SignOf(m.xx);
    SignOf(m.yy);
    Frames.BufferDecodes(s, header, Frames.MetadataData(p));
    Frames.ReadOne(s, Frames.MetadataLeaf(p, |header| + 7));
  }

  lemma MetadataFields(m: Surface)
    requires m.Fits()
    ensures var p := m.Bytes();
            && U32(p, 0) == m.rows && U32(p, 4) == m.columns && U32(p, 8) == m.width && U32(p, 12) == m.height
            && U32(p, 17) == BitsOf(m.xx) && U32(p, 33) == BitsOf(m.yy)
  {
    hide FourBytes, U32, BitsOf;
    var p := m.Bytes();
    assert p[0..4] == FourBytes(m.rows) && p[4..8] == FourBytes(m.columns);
    assert p[8..12] == FourBytes(m.width) && p[12..16] == FourBytes(m.height);
    assert p[17..21] == FourBytes(BitsOf(m.xx)) && p[33..37] == FourBytes(BitsOf(m.yy));
    U32Is(p, 0, m.rows);
    U32Is(p, 4, m.columns);
    U32Is(p, 8, m.width);
    U32Is(p, 12, m.height);
    U32Is(p, 17, BitsOf(m.xx));
    U32Is(p, 33, BitsOf(m.yy));
  }
}
