/** Recording the traffic of a device to a file, and replaying it. */
module Recording {
  import opened ByteReader
  import opened Common

  const DEVINFO_SIZE: nat := 8
  const MAX_DESCRIPTOR_SIZE: nat := 4096

  // ---------------------------------------------------------------- the format

  function ToBytes(v: nat, width: nat): (r: seq<Byte>)
    ensures |r| == width
  {
    if width == 0 then [] else [v % 256] + ToBytes(v / 256, width - 1)
  }

  function Pow256(n: nat): nat {
    if n == 0 then 1 else 256 * Pow256(n - 1)
  }

  lemma Widths()
    ensures Pow256(4) == TWO32 && Pow256(8) == TWO64
  {
    assert Pow256(2) == 65536;
    assert Pow256(4) == 65536 * 65536;
    assert Pow256(6) == 65536 * 65536 * 65536;
  }

  lemma {:induction false} NumberRoundTrip(v: nat, width: nat)
    requires v < Pow256(width)
    ensures LittleEndian(ToBytes(v, width)) == v
  {
    if width > 0 {
      NumberRoundTrip(v / 256, width - 1);
      assert ToBytes(v, width)[1..] == ToBytes(v / 256, width - 1);
    }
  }

  /** A record: its size as a 64 bit number, and its bytes. */
  function Record(bytes: seq<Byte>): (r: seq<Byte>)
    ensures |r| == 8 + |bytes|
  {
    ToBytes(|bytes|, 8) + bytes
  }

  function Stream(records: seq<seq<Byte>>): seq<Byte> {
    if records == [] then []
    else
      var n := |records| - 1;
      Stream(records[..n]) + Record(records[n])
  }

  function Header(devinfo: seq<Byte>, descriptor: seq<Byte>): seq<Byte> {
    devinfo + ToBytes(|descriptor|, 4) + descriptor
  }

  // ---------------------------------------------------------------- the writer

  class Capture {
    var written: seq<Byte>

    constructor (devinfo: seq<Byte>, descriptor: seq<Byte>)
      requires |devinfo| == DEVINFO_SIZE && |descriptor| <= MAX_DESCRIPTOR_SIZE
      ensures written == Header(devinfo, descriptor)
    {
      written := devinfo;
      new;
      written := written + ToBytes(|descriptor|, 4);
      written := written + descriptor;
    }

    /** Called with the report that was read from the device, or with the value of a feature report. */
    method Write(report: seq<Byte>)
      requires |report| < TWO64
      modifies this
      ensures written == old(written) + Record(report)
    {
      written := written + ToBytes(|report|, 8);
      written := written + report;
    }
  }

  // ---------------------------------------------------------------- the reader

  /** What reading a record at `at` into a buffer of `room` bytes gives, and where it leaves the cursor. */
  function Next(data: seq<Byte>, start: nat, at: nat, room: nat): (Result<seq<Byte>>, nat)
    requires start <= at <= |data|
  {
    var rest := data[at..];
    if rest == [] then (Err(EndOfData), start)
    else if |rest| < 8 then (Err(InvalidRead), at)
    else
      var size := LittleEndian(rest[..8]);
      if size > room then (Err(OutOfBounds), at + 8)
      else if |rest| == 8 then (Err(EndOfData), start)
      else if size > |rest| - 8 then (Err(InvalidRead), at + 8)
      else (Ok(rest[8..8 + size]), at + 8 + size)
  }

  lemma Slice(data: seq<Byte>, at: nat, a: nat, b: nat)
    requires at <= |data| && a <= b <= |data| - at
    ensures data[at + a..at + b] == data[at..][a..b]
  {
  }

  lemma Rest(data: seq<Byte>, at: nat, n: nat)
    requires at + n <= |data|
    ensures data[at + n..] == data[at..][n..]
  {
  }

  class FileDevice {
    const reader: Reader
    const start: nat
    const devinfo: seq<Byte>
    const descriptor: seq<Byte>

    constructor (reader: Reader, devinfo: seq<Byte>, descriptor: seq<Byte>)
      requires reader.Valid()
      ensures Valid() && this.reader == reader && start == reader.index
      ensures this.devinfo == devinfo && this.descriptor == descriptor
    {
      this.reader, this.devinfo, this.descriptor, start := reader, devinfo, descriptor, reader.index;
    }

    ghost predicate Valid()
      reads reader
    {
      reader.Valid() && start <= reader.index
    }

    /** Reads the next record; at the end of the file the cursor goes back to the first record. */
    method Read(buffer: array<Byte>) returns (r: Result<nat>)
      requires Valid()
      modifies reader, buffer
      ensures Valid()
      ensures var (next, at) := Next(reader.data, start, old(reader.index), buffer.Length);
              && reader.index == at
              && match next
                 case Err(e) => r == Err(e) && buffer[..] == old(buffer[..])
                 case Ok(bytes) => r == Ok(|bytes|) && buffer[..] == bytes + old(buffer[|bytes|..])
    {
      ghost var at := reader.index;
      var length := reader.Read(8);
      if length.Err? {
        if length.error == EndOfData {
          var _ := reader.Seek(start);
        }
        return Err(length.error);
      }
      Slice(reader.data, at, 0, 8);
      var size := LittleEndian(length.value);
      if size > buffer.Length {
        return Err(OutOfBounds);
      }
      var bytes := reader.Read(size);
      if bytes.Err? {
        if bytes.error == EndOfData {
          var _ := reader.Seek(start);
        }
        return Err(bytes.error);
      }
      Slice(reader.data, at, 8, 8 + size);
      forall k | 0 <= k < size {
        buffer[k] := bytes.value[k];
      }
      return Ok(size);
    }
  }

  /** Opens a recording. */
  method Open(data: seq<Byte>) returns (r: Result<FileDevice>)
    ensures match Opened(data)
            case Err(e) => r == Err(e)
            case Ok(h) =>
              && r.Ok? && fresh(r.value) && fresh(r.value.reader) && r.value.Valid()
              && r.value.reader.data == data
              && r.value.start == r.value.reader.index == h.start
              && r.value.devinfo == h.devinfo && r.value.descriptor == h.descriptor
  {
    var reader := new Reader(data);
    var devinfo := reader.Read(DEVINFO_SIZE);
    if devinfo.Err? {
      return Err(devinfo.error);
    }
    var length := reader.Read(4);
    if length.Err? {
      return Err(length.error);
    }
    var size := LittleEndian(length.value);
    if size > MAX_DESCRIPTOR_SIZE {
      return Err(OutOfBounds);
    }
    var descriptor := reader.Read(size);
    if descriptor.Err? {
      return Err(descriptor.error);
    }
    var device := new FileDevice(reader, devinfo.value, descriptor.value);
    return Ok(device);
  }

  datatype HeaderInfo = HeaderInfo(devinfo: seq<Byte>, descriptor: seq<Byte>, start: nat)

  /** What the header of a recording says. */
  function Opened(data: seq<Byte>): Result<HeaderInfo> {
    if Refusal(|data|, DEVINFO_SIZE).Some? then Err(Refusal(|data|, DEVINFO_SIZE).value)
    else if Refusal(|data| - 8, 4).Some? then Err(Refusal(|data| - 8, 4).value)
    else
      var size := LittleEndian(data[8..12]);
      if size > MAX_DESCRIPTOR_SIZE then Err(OutOfBounds)
      else if Refusal(|data| - 12, size).Some? then Err(Refusal(|data| - 12, size).value)
      else Ok(HeaderInfo(data[..8], data[12..12 + size], 12 + size))
  }

  // ---------------------------------------------------------------- the round trip

  /** The records that one pass over the file reads, into buffers of `room` bytes, what ends the pass, and where the
      next pass starts. */
  function Pass(data: seq<Byte>, start: nat, at: nat, room: nat): (seq<seq<Byte>>, ReadError, nat)
    requires start <= at <= |data|
    decreases |data| - at
  {
    var (next, after) := Next(data, start, at, room);
    match next
    case Err(e) => ([], e, after)
    case Ok(bytes) =>
      var (rest, e, end) := Pass(data, start, after, room);
      ([bytes] + rest, e, end)
  }

  ghost predicate FitInto(records: seq<seq<Byte>>, room: nat) {
    room < TWO64 && forall r | r in records :: |r| <= room
  }

  function Tail(records: seq<seq<Byte>>): seq<Byte> {
    if records == [] then [] else Record(records[0]) + Tail(records[1..])
  }

  lemma {:induction false} StreamIsTail(records: seq<seq<Byte>>)
    ensures Stream(records) == Tail(records)
  {
    if records != [] {
      var n := |records| - 1;
      StreamIsTail(records[..n]);
      TailGrows(records[..n], records[n]);
      assert records[..n] + [records[n]] == records;
    }
  }

  lemma {:induction false} TailGrows(records: seq<seq<Byte>>, r: seq<Byte>)
    ensures Tail(records + [r]) == Tail(records) + Record(r)
  {
    if records == [] {
      assert Tail([r]) == Record(r) + Tail([]);
    } else {
      assert (records + [r])[1..] == records[1..] + [r];
      TailGrows(records[1..], r);
    }
  }

  lemma Parts(head: seq<Byte>, body: seq<Byte>, rest: seq<Byte>)
    ensures var all := head + body + rest;
            all[..|head|] == head && all[|head|..|head| + |body|] == body && all[|head| + |body|..] == rest
  {
  }

  /** A record at the start of the remaining data, taken apart. */
  lemma CutTail(tail: seq<Byte>, r: seq<Byte>, rest: seq<Byte>)
    requires tail == Record(r) + rest
    ensures |tail| == 8 + |r| + |rest|
    ensures tail[..8] == ToBytes(|r|, 8) && tail[8..8 + |r|] == r && tail[8 + |r|..] == rest
  {
    hide ToBytes;
    Parts(ToBytes(|r|, 8), r, rest);
  }

  lemma TailIsEmpty(records: seq<seq<Byte>>)
    ensures |Tail(records)| == 0 <==> records == []
  {
  }

  lemma TailUnfolds(records: seq<seq<Byte>>)
    requires records != []
    ensures Tail(records) == Record(records[0]) + Tail(records[1..])
  {
  }

  /** Reading at the start of a record gives that record. */
  lemma NextIsFirst(data: seq<Byte>, start: nat, at: nat, room: nat, records: seq<seq<Byte>>)
    requires start <= at <= |data| && records != [] && FitInto(records, room)
    requires data[at..] == Tail(records)
    ensures at + 8 + |records[0]| <= |data|
    ensures records[0] == [] && |records| == 1 ==> Next(data, start, at, room) == (Err(EndOfData), start)
    ensures records[0] != [] || |records| > 1 ==> Next(data, start, at, room) == (Ok(records[0]), at + 8 + |records[0]|)
    ensures data[at + 8 + |records[0]|..] == Tail(records[1..])
  {
    hide Record, ToBytes, LittleEndian, Pow256, Tail;
    var r := records[0];
    assert r in records;
    Widths();
    NumberRoundTrip(|r|, 8);
    TailUnfolds(records);
    TailIsEmpty(records[1..]);
    CutTail(data[at..], r, Tail(records[1..]));
    Rest(data, at, 8 + |r|);
  }

  /** The records a pass gets to see: all of them, except that an empty last record looks like the end of the file. */
  function Seen(records: seq<seq<Byte>>): seq<seq<Byte>> {
    if records != [] && records[|records| - 1] == [] then records[..|records| - 1] else records
  }

  lemma PassStep(data: seq<Byte>, start: nat, at: nat, room: nat)
    requires start <= at <= |data|
    ensures Next(data, start, at, room).0.Err? ==>
              Pass(data, start, at, room) == ([], Next(data, start, at, room).0.error, Next(data, start, at, room).1)
    ensures Next(data, start, at, room).0.Ok? ==>
              var (next, after) := Next(data, start, at, room);
              start <= after <= |data| &&
              Pass(data, start, at, room) == ([next.value] + Pass(data, start, after, room).0,
                                              Pass(data, start, after, room).1,
                                              Pass(data, start, after, room).2)
  {
    hide LittleEndian;
  }

  lemma {:induction false} PassReadsTail(data: seq<Byte>, start: nat, at: nat, room: nat, records: seq<seq<Byte>>)
    requires start <= at <= |data| && FitInto(records, room) && data[at..] == Tail(records)
    ensures Pass(data, start, at, room) == (Seen(records), EndOfData, start)
    decreases |records|
  {
    hide Pass, Next, Tail;
    PassStep(data, start, at, room);
    if records == [] {
      TailIsEmpty(records);
      NextAtEnd(data, start, room);
    } else {
      NextIsFirst(data, start, at, room, records);
      if records[0] != [] || |records| > 1 {
        PassReadsTail(data, start, at + 8 + |records[0]|, room, records[1..]);
        SeenOfMore(records);
      } else {
        assert Seen(records) == [];
      }
    }
  }

  lemma NextAtEnd(data: seq<Byte>, start: nat, room: nat)
    requires start <= |data|
    ensures Next(data, start, |data|, room) == (Err(EndOfData), start)
  {
  }

  lemma SeenOfMore(records: seq<seq<Byte>>)
    requires records != [] && (records[0] != [] || |records| > 1)
    ensures Seen(records) == [records[0]] + Seen(records[1..])
  {
    if |records| > 1 {
      assert records[1..][|records| - 2] == records[|records| - 1];
    } else {
      assert Seen(records[1..]) == [];
      assert Seen(records) == [records[0]];
    }
  }

  /** The recording of a session. */
  function Session(devinfo: seq<Byte>, descriptor: seq<Byte>, records: seq<seq<Byte>>): seq<Byte> {
    Header(devinfo, descriptor) + Stream(records)
  }

  /** Opening a recording gives back the device and its descriptor, unless there is nothing after an empty
      descriptor. */
  lemma HeaderRoundTrip(devinfo: seq<Byte>, descriptor: seq<Byte>, records: seq<seq<Byte>>)
    requires |devinfo| == 8 && |descriptor| <= 4096
    ensures descriptor != [] || records != [] <==>
            Opened(Session(devinfo, descriptor, records)) == Ok(HeaderInfo(devinfo, descriptor, 12 + |descriptor|))
  {
    var data := Session(devinfo, descriptor, records);
    Widths();
    NumberRoundTrip(|descriptor|, 4);
    assert data[8..12] == ToBytes(|descriptor|, 4);
    assert data[..8] == devinfo;
    assert data[12..12 + |descriptor|] == descriptor;
    assert |Stream(records)| > 0 <==> records != [];
  }

  /** Every pass over a recording reads the records of the session in order and then starts again; exactly an empty last
      record is lost. */
  lemma ReplayRoundTrip(devinfo: seq<Byte>, descriptor: seq<Byte>, records: seq<seq<Byte>>, room: nat)
    requires |devinfo| == 8 && |descriptor| <= 4096 && FitInto(records, room)
    ensures var data := Session(devinfo, descriptor, records);
            var start := 12 + |descriptor|;
            && start <= |data|
            && Pass(data, start, start, room) == (Seen(records), EndOfData, start)
            && (Seen(records) == records <==> records == [] || records[|records| - 1] != [])
  {
    var data := Session(devinfo, descriptor, records);
    var start := 12 + |descriptor|;
    StreamIsTail(records);
    assert data[start..] == Tail(records);
    PassReadsTail(data, start, start, room, records);
  }

  /** Any number of passes after another. */
  function Passes(data: seq<Byte>, start: nat, at: nat, room: nat, n: nat): seq<(seq<seq<Byte>>, ReadError)>
    requires start <= at <= |data|
    decreases n
  {
    if n == 0 then []
    else
      var (records, e, end) := Pass(data, start, at, room);
      [(records, e)] + if start <= end <= |data| then Passes(data, start, end, room, n - 1) else []
  }

  /** Later passes see the same records as the first one. */
  lemma {:induction false} EveryPassIsTheSame(devinfo: seq<Byte>, descriptor: seq<Byte>, records: seq<seq<Byte>>,
      room: nat, n: nat, k: nat)
    requires |devinfo| == 8 && |descriptor| <= 4096 && FitInto(records, room) && k < n
    ensures var data := Session(devinfo, descriptor, records);
            var start := 12 + |descriptor|;
            && start <= |data|
            && |Passes(data, start, start, room, n)| == n
            && Passes(data, start, start, room, n)[k] == (Seen(records), EndOfData)
  {
    ReplayRoundTrip(devinfo, descriptor, records, room);
    if n > 1 {
      EveryPassIsTheSame(devinfo, descriptor, records, room, n - 1, if k > 0 then k - 1 else 0);
    }
  }

  /** Writes a session and replays it once. */
  method RecordAndReplay(devinfo: seq<Byte>, descriptor: seq<Byte>, records: seq<seq<Byte>>, buffer: array<Byte>)
      returns (replayed: seq<seq<Byte>>)
    requires |devinfo| == 8 && 0 < |descriptor| <= 4096 && FitInto(records, buffer.Length)
    modifies buffer
    ensures replayed == Seen(records)
  {
    hide Session, Stream, Header, Pass, Next, Seen, FitInto, Opened, Record;
    var capture := new Capture(devinfo, descriptor);
    SessionGrows(devinfo, descriptor, records);
    for i := 0 to |records|
      invariant capture.written == Session(devinfo, descriptor, records[..i])
      invariant fresh(capture)
    {
      RecordFits(records, i, buffer.Length);
      capture.Write(records[i]);
    }
    assert records[..|records|] == records;
    HeaderRoundTrip(devinfo, descriptor, records);
    ReplayRoundTrip(devinfo, descriptor, records, buffer.Length);
    var file := Open(capture.written);
    replayed := ReplayAll(file.value, buffer);
  }

  lemma RecordFits(records: seq<seq<Byte>>, i: nat, room: nat)
    requires FitInto(records, room) && i < |records|
    ensures |records[i]| < TWO64
  {
    assert records[i] in records;
  }

  lemma SessionGrows(devinfo: seq<Byte>, descriptor: seq<Byte>, records: seq<seq<Byte>>)
    ensures Session(devinfo, descriptor, records[..0]) == Header(devinfo, descriptor)
    ensures forall i | 0 <= i < |records| ::
              Session(devinfo, descriptor, records[..i + 1]) ==
                  Session(devinfo, descriptor, records[..i]) + Record(records[i])
  {
    hide Record, Header;
    forall i | 0 <= i < |records|
      ensures Session(devinfo, descriptor, records[..i + 1]) ==
                Session(devinfo, descriptor, records[..i]) + Record(records[i])
    {
      assert records[..i + 1][..i] == records[..i];
    }
  }

  /** Reads records until the file ends. */
  method ReplayAll(device: FileDevice, buffer: array<Byte>) returns (records: seq<seq<Byte>>)
    requires device.Valid()
    modifies device.reader, buffer
    ensures device.Valid()
    ensures (records, device.reader.index) ==
            (Pass(device.reader.data, device.start, old(device.reader.index), buffer.Length).0,
             Pass(device.reader.data, device.start, old(device.reader.index), buffer.Length).2)
  {
    hide Pass, Next;
    ghost var data, start, room := device.reader.data, device.start, buffer.Length;
    ghost var pass := Pass(data, start, device.reader.index, room);
    records := [];
    var more := true;
    while more
      invariant device.Valid()
      invariant more ==> records + Pass(data, start, device.reader.index, room).0 == pass.0
                         && Pass(data, start, device.reader.index, room).2 == pass.2
      invariant !more ==> records == pass.0 && device.reader.index == pass.2
      decreases more, |data| - device.reader.index
    {
      ghost var at := device.reader.index;
      PassStep(data, start, at, room);
      NextAdvances(data, start, at, room);
      var r := device.Read(buffer);
      if r.Ok? {
        assert buffer[..r.value] == Next(data, start, at, room).0.value;
        records := records + [buffer[..r.value]];
      } else {
        more := false;
      }
    }
  }

  lemma NextAdvances(data: seq<Byte>, start: nat, at: nat, room: nat)
    requires start <= at <= |data|
    ensures Next(data, start, at, room).0.Ok? ==> at < Next(data, start, at, room).1
  {
    hide LittleEndian;
  }
}
