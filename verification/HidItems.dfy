/** Short items of a HID report descriptor (section 6.2.2.2 of the Device Class Definition for HID 1.11)
    and what the main items of a descriptor declare. */
module HidItems {
  import opened Common

  /** One short item: its header byte and its payload, zero if there is none. */
  datatype Item = Item(header: Byte, payload: nat) {
    function SizeCode(): nat {
      header % 4
    }
  }

  function PayloadSize(header: Byte): nat {
    if header % 4 == 3 then 4 else header % 4
  }

  function ByteAt(desc: seq<Byte>, i: nat): (v: int)
    requires i < |desc|
    ensures 0 <= v < 0x100
  {
    desc[i]
  }

  /** The little-endian value of `n` bytes from `pos` on. */
  function Payload(desc: seq<Byte>, pos: nat, n: nat): (v: nat)
    requires pos + n <= |desc|
    ensures n == 0 ==> v == 0
    ensures n == 1 ==> v < 0x100
    ensures n == 2 ==> v < 0x10000
    ensures n == 4 ==> v < TWO32
  {
    match n
    case 1 => ByteAt(desc, pos)
    case 2 => ByteAt(desc, pos) + 0x100 * ByteAt(desc, pos + 1)
    case 4 => ByteAt(desc, pos) + 0x100 * ByteAt(desc, pos + 1) + 0x10000 * ByteAt(desc, pos + 2)
        + 0x1000000 * ByteAt(desc, pos + 3)
    case _ => 0
  }

  /** The items from `pos` on, up to the end or the first item that is cut off. */
  ghost function Items(desc: seq<Byte>, pos: nat): seq<Item>
    requires pos <= |desc|
    decreases |desc| - pos
  {
    if pos == |desc| || pos + 1 + PayloadSize(desc[pos]) > |desc| then []
    else
      var n := PayloadSize(desc[pos]);
      [Item(desc[pos], Payload(desc, pos + 1, n))] + Items(desc, pos + 1 + n)
  }

  /** No item is cut off. */
  ghost predicate IsComplete(desc: seq<Byte>, pos: nat)
    requires pos <= |desc|
    decreases |desc| - pos
  {
    pos == |desc|
    || (pos + 1 + PayloadSize(desc[pos]) <= |desc| && IsComplete(desc, pos + 1 + PayloadSize(desc[pos])))
  }

  // ---------------------------------------------------------------- what items mean

  datatype Kind = Input | Output | Feature

  /** What identifies a report: its type and, if there is one, its report ID. */
  datatype Key = Key(kind: Kind, id: Option<nat>)

  datatype Op =
    | Main(kind: Kind)
    | OpenCollection
    | CloseCollection
    | UsagePage
    | ReportSize
    | ReportId
    | ReportCount
    | Push
    | Pop
    | Usage
    | UsageMinimum
    | UsageMaximum
    | Ignored

  /** A field as declared by a main item: its report, how often it is repeated, its size in bits, its usage. */
  datatype Field = Field(key: Key, count: nat, size: nat, usage: nat) {
    function Bits(): nat {
      count * size
    }
  }

  /** The item state a main item reads. */
  datatype Context = Context(page: nat, id: Option<nat>, count: nat, size: nat, usage: nat)

  const START := Context(0, None, 0, 0, 0)

  /** The usage page selects the upper half of a usage unless the item carries all four bytes. The page
      has no bits below 2^16 and the payload none above, so the bitwise or is a sum. */
  function ExtendedUsage(page: nat, it: Item): nat {
    if it.SizeCode() == 3 then it.payload else page + it.payload
  }

  function FieldOf(c: Context, kind: Kind): Field {
    Field(Key(kind, c.id), c.count, c.size, c.usage)
  }

  /** The effect of an item on the context, for the items both parsers know. */
  function NextContext(c: Context, op: Op, it: Item): Context {
    match op
    case Main(_) => c.(usage := 0)
    case OpenCollection => c.(usage := 0)
    case UsagePage => c.(page := (it.payload * 0x10000) % TWO32)
    case ReportSize => c.(size := it.payload)
    case ReportId => c.(id := Some(it.payload % 256))
    case ReportCount => c.(count := it.payload)
    case Usage => c.(usage := ExtendedUsage(c.page, it))
    case _ => c
  }

  /** How the flat parser reads a header: two bits of type and four bits of tag. */
  function FlatOp(header: Byte): Op {
    match ((header / 4) % 4, header / 16)
    case (0, 0x08) => Main(Input)
    case (0, 0x09) => Main(Output)
    case (0, 0x0B) => Main(Feature)
    case (0, 0x0A) => OpenCollection
    case (0, 0x0C) => CloseCollection
    case (1, 0x00) => UsagePage
    case (1, 0x07) => ReportSize
    case (1, 0x08) => ReportId
    case (1, 0x09) => ReportCount
    case (2, 0x00) => Usage
    case _ => Ignored
  }

  /** How the tree parser reads a header: six bits of tag. */
  function TreeOp(header: Byte): Op {
    match header / 4
    case 0x20 => Main(Input)
    case 0x24 => Main(Output)
    case 0x2C => Main(Feature)
    case 0x28 => OpenCollection
    case 0x30 => CloseCollection
    case 0x01 => UsagePage
    case 0x1D => ReportSize
    case 0x21 => ReportId
    case 0x25 => ReportCount
    case 0x29 => Push
    case 0x2D => Pop
    case 0x02 => Usage
    case 0x06 => UsageMinimum
    case 0x0A => UsageMaximum
    case _ => Ignored
  }

  /** Items that only the tree parser acts on. */
  predicate TreeOnly(op: Op) {
    op == Push || op == Pop || op == UsageMinimum || op == UsageMaximum
  }

  /** The two parsers read every header alike, apart from the items only the tree parser knows. */
  lemma OpsAgree(header: Byte)
    ensures !TreeOnly(TreeOp(header)) ==> FlatOp(header) == TreeOp(header)
    ensures TreeOnly(TreeOp(header)) ==> FlatOp(header) == Ignored
  {
    var type_, tag := (header / 4) % 4, header / 16;
    assert header / 4 == 4 * tag + type_;
  }

  // ---------------------------------------------------------------- what a descriptor declares

  /** The fields and collections one item declares. */
  ghost function FieldsOfItem(c: Context, it: Item): seq<Field> {
    if FlatOp(it.header).Main? then [FieldOf(c, FlatOp(it.header).kind)] else []
  }

  /** A collection as it is opened: its type and its usage. */
  datatype Opening = Opening(payload: nat, usage: nat)

  ghost function OpeningsOfItem(c: Context, it: Item): seq<Opening> {
    if FlatOp(it.header) == OpenCollection then [Opening(it.payload, c.usage)] else []
  }

  /** The fields a list of items declares, in order. */
  ghost function Fields(c: Context, items: seq<Item>): seq<Field>
    decreases |items|
  {
    if items == [] then []
    else FieldsOfItem(c, items[0]) + Fields(NextContext(c, FlatOp(items[0].header), items[0]), items[1..])
  }

  /** The collections a list of items opens, in order. */
  ghost function Openings(c: Context, items: seq<Item>): seq<Opening>
    decreases |items|
  {
    if items == [] then []
    else OpeningsOfItem(c, items[0]) + Openings(NextContext(c, FlatOp(items[0].header), items[0]), items[1..])
  }

  ghost function Keys(fs: seq<Field>): set<Key> {
    set f | f in fs :: f.key
  }

  /** The bits of all fields of a report. */
  ghost function BitsOf(fs: seq<Field>, k: Key): nat {
    if fs == [] then 0
    else BitsOf(fs[..|fs| - 1], k) + if fs[|fs| - 1].key == k then fs[|fs| - 1].Bits() else 0
  }

  /** The usages of all fields of a report that have one, in order. */
  ghost function UsagesOf(fs: seq<Field>, k: Key): seq<nat> {
    if fs == [] then []
    else
      var f := fs[|fs| - 1];
      UsagesOf(fs[..|fs| - 1], k) + if f.key == k && f.usage != 0 then [f.usage] else []
  }

  /** A usage is listed for a report exactly if one of its fields has it. */
  lemma {:induction false} UsageIsListed(fs: seq<Field>, k: Key, u: nat)
    requires u != 0
    ensures u in UsagesOf(fs, k) <==> exists f :: f in fs && f.key == k && f.usage == u
  {
    if fs != [] {
      var t := fs[..|fs| - 1];
      UsageIsListed(t, k, u);
      assert fs == t + [fs[|fs| - 1]];
    }
  }
}
