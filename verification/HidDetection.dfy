/** Detection of IPTS devices from the bytes of a report descriptor, as the flat and as the tree parser do it. */
module HidDetection {
  import opened Common
  import opened HidItems
  import opened HidSimulation
  import F = HidFlat
  import T = HidTree

  datatype DeviceType = Touchscreen | Touchpad

  /** Whether the device is accepted, and of which type it is, if it is just one. */
  datatype Verdict = Rejected | Accepted(deviceType: Option<DeviceType>)

  function TypeOf(touchscreen: bool, touchpad: bool): Option<DeviceType> {
    if touchscreen && !touchpad then Some(Touchscreen)
    else if touchpad && !touchscreen then Some(Touchpad)
    else None
  }

  // ---------------------------------------------------------------- the two detections

  ghost function FlatVerdict(desc: seq<Byte>): Verdict {
    var items := Items(desc, 0);
    var s := F.FlatRun(F.INITIAL, items);
    if TableFindsSetMode(items) && TableFindsTouchData(items) then Accepted(TypeOf(s.touchscreen, s.touchpad))
        else Rejected
  }

  /** An exception of the parser rejects the device. */
  ghost function TreeVerdict(desc: seq<Byte>): Verdict {
    var items := Items(desc, 0);
    if IsComplete(desc, 0) && T.TreeRun(T.INITIAL, items).Some? && TreeFindsSetMode(items) && TreeFindsTouchData(items)
    then Accepted(TypeOf(TreeHas(items, F.USAGE_TOUCHSCREEN), TreeHas(items, F.USAGE_TOUCHPAD)))
    else Rejected
  }

  method FlatDetect(desc: seq<Byte>) returns (v: Verdict)
    ensures v == FlatVerdict(desc)
  {
    hide F.FlatRun, F.FlatStep;
    var parser := new F.FlatParser();
    parser.ParseHidDescriptor(desc);
    var setMode := parser.HasModesettingReport();
    var touchData := parser.HasTouchDataReport();
    if !setMode || !touchData {
      return Rejected;
    }
    return Accepted(TypeOf(parser.hasTouchscreenCollection, parser.hasTouchpadCollection));
  }

  /** Whether a collection with the usage is anywhere inside. */
  predicate HasCollection(cs: seq<T.Collection>, usage: nat)
    decreases cs
  {
    cs != [] &&
    (HasCollection(cs[..|cs| - 1], usage) || cs[|cs| - 1].usage == usage
        || HasCollection(cs[|cs| - 1].collections, usage))
  }

  lemma {:induction false} CollectionIsInside(cs: seq<T.Collection>, usage: nat)
    ensures HasCollection(cs, usage) <==> exists o :: o in T.Inside(cs) && o.usage == usage
    decreases cs
  {
    if cs != [] {
      var c := cs[|cs| - 1];
      CollectionIsInside(cs[..|cs| - 1], usage);
      CollectionIsInside(c.collections, usage);
      assert Opening(c.kind, c.usage) in T.Opened(c);
      if o :| o in T.Inside(cs) && o.usage == usage {
        assert o in T.Inside(cs[..|cs| - 1]) || o == Opening(c.kind, c.usage) || o in T.Inside(c.collections);
      }
    }
  }

  method FindReports(rs: seq<T.Report>) returns (setMode: bool, touchData: bool)
    ensures setMode <==> exists r :: r in rs && TreeSetMode(r)
    ensures touchData <==> exists r :: r in rs && TreeTouchData(r)
  {
    hide TreeSetMode, TreeTouchData;
    setMode, touchData := false, false;
    for i := 0 to |rs|
      invariant setMode <==> exists r :: r in rs[..i] && TreeSetMode(r)
      invariant touchData <==> exists r :: r in rs[..i] && TreeTouchData(r)
    {
      assert rs[..i + 1] == rs[..i] + [rs[i]];
      setMode := setMode || TreeSetMode(rs[i]);
      touchData := touchData || TreeTouchData(rs[i]);
    }
    assert rs[..|rs|] == rs;
  }

  method TreeDetect(desc: seq<Byte>) returns (v: Verdict)
    ensures v == TreeVerdict(desc)
  {
    hide T.TreeRun, T.AllReports, T.Inside, HasCollection, TreeSetMode, TreeTouchData;
    var parser := new T.TreeParser();
    var root := parser.Parse(desc);
    if root.None? {
      return Rejected;
    }
    var setMode, touchData := FindReports(T.AllReports(root.value));
    if !setMode || !touchData {
      return Rejected;
    }
    CollectionIsInside(root.value.collections, F.USAGE_TOUCHSCREEN);
    CollectionIsInside(root.value.collections, F.USAGE_TOUCHPAD);
    return Accepted(TypeOf(HasCollection(root.value.collections, F.USAGE_TOUCHSCREEN),
                           HasCollection(root.value.collections, F.USAGE_TOUCHPAD)));
  }

  // ---------------------------------------------------------------- what the verdicts say

  /** Some feature report declares eight bits and the vendor defined usage 0xC8. */
  ghost predicate DeclaresSetMode(fs: seq<Field>) {
    exists k: Key :: k.kind == Feature && BitsOf(fs, k) % 0x1_0000_0000 == 8 && 0xFF00_00C8 in UsagesOf(fs, k)
  }

  /** Some input report declares a scan time and a gesture character of the digitizer page. */
  ghost predicate DeclaresTouchData(fs: seq<Field>) {
    exists k: Key :: k.kind == Input && 0x0D_0056 in UsagesOf(fs, k) && 0x0D_0061 in UsagesOf(fs, k)
  }

  /** The flat detection, by what the descriptor declares: a device is of a type if it opens an application collection
      of that digitizer usage, and none of the other. */
  lemma FlatVerdictByItems(desc: seq<Byte>)
    requires F.Fits(Fields(START, Items(desc, 0)))
    ensures var fs, os := Fields(START, Items(desc, 0)), Openings(START, Items(desc, 0));
            && (FlatVerdict(desc) != Rejected <==> DeclaresSetMode(fs) && DeclaresTouchData(fs))
            && (FlatVerdict(desc) == Accepted(Some(Touchscreen)) <==>
                  FlatVerdict(desc) != Rejected && Opening(1, 0x0D_0004) in os && Opening(1, 0x0D_0005) !in os)
            && (FlatVerdict(desc) == Accepted(Some(Touchpad)) <==>
                  FlatVerdict(desc) != Rejected && Opening(1, 0x0D_0005) in os && Opening(1, 0x0D_0004) !in os)
  {
    hide F.Fits, Fields, Openings, F.FlatRun, Items, BitsOf, UsagesOf;
    var items := Items(desc, 0);
    var fs := Fields(START, items);
    F.FlatParserGroupsFields(items);
    if k: Key :| k.kind == Feature && BitsOf(fs, k) % 0x1_0000_0000 == 8 && 0xFF00_00C8 in UsagesOf(fs, k) {
      var r := DeclaredReport(items, k, 0xFF00_00C8);
      assert F.IsModesetting(r);
    }
    if r :| r in Table(items) && F.IsModesetting(r) {
      assert F.Describes(r, fs);
    }
    if k: Key :| k.kind == Input && 0x0D_0056 in UsagesOf(fs, k) && 0x0D_0061 in UsagesOf(fs, k) {
      var r := DeclaredReport(items, k, 0x0D_0056);
      assert F.IsTouchData(r);
    }
    if r :| r in Table(items) && F.IsTouchData(r) {
      assert F.Describes(r, fs);
    }
  }

  /** The report in the table that a declared usage belongs to. */
  lemma DeclaredReport(items: seq<Item>, k: Key, usage: nat) returns (r: F.FlatReport)
    requires F.Fits(Fields(START, items)) && usage in UsagesOf(Fields(START, items), k)
    ensures r in Table(items) && r.Key() == k && F.Describes(r, Fields(START, items))
  {
    hide F.Fits, Fields, F.FlatRun, BitsOf, UsagesOf;
    var fs := Fields(START, items);
    F.FlatParserGroupsFields(items);
    if k !in Keys(fs) {
      F.AbsentKey(fs, k);
      assert false;
    }
    var i := F.Find(Table(items), k);
    r := Table(items)[i];
  }

  /** A field of the report has the usage, as its own or in its range. */
  ghost predicate Lists(r: T.Report, usage: nat) {
    exists f :: f in r.fields && (f.usage == usage
        || (f.usageMin.Some? && f.usageMax.Some? && f.usageMin.value <= usage <= f.usageMax.value))
  }

  /** The report takes one byte. */
  ghost predicate IsByte(r: T.Report) {
    1 <= T.BitSum(r.fields) % TWO64 <= 8
  }

  lemma ReportPart(r: T.Report, usage: nat)
    ensures r.HasUsage(usage) <==> Lists(r, usage)
    ensures r.Bytes() == 1 <==> IsByte(r)
  {
    if f :| f in r.fields && (f.usage == usage
          || (f.usageMin.Some? && f.usageMax.Some? && f.usageMin.value <= usage <= f.usageMax.value)) {
      assert f.HasUsage(usage);
    }
  }

  /** The tree has a collection with this usage, of whatever type. */
  ghost predicate InTree(desc: seq<Byte>, usage: nat)
    requires T.TreeRun(T.INITIAL, Items(desc, 0)).Some?
  {
    exists o :: o in T.Inside(Tree(Items(desc, 0)).collections) && o.usage == usage
  }

  /** The tree detection, by the tree that the descriptor is parsed to. */
  lemma TreeVerdictByTree(desc: seq<Byte>)
    ensures TreeVerdict(desc) != Rejected <==>
            && IsComplete(desc, 0) && T.TreeRun(T.INITIAL, Items(desc, 0)).Some?
            && var rs := T.AllReports(Tree(Items(desc, 0)));
            && (exists r :: r in rs && r.kind == Feature && IsByte(r) && Lists(r, 0xFF00_00C8))
            && (exists r :: r in rs && r.kind == Input && Lists(r, 0x0D_0056) && Lists(r, 0x0D_0061))
    ensures TreeVerdict(desc) == Accepted(Some(Touchscreen)) <==>
            TreeVerdict(desc) != Rejected && InTree(desc, 0x0D_0004) && !InTree(desc, 0x0D_0005)
    ensures TreeVerdict(desc) == Accepted(Some(Touchpad)) <==>
            TreeVerdict(desc) != Rejected && InTree(desc, 0x0D_0005) && !InTree(desc, 0x0D_0004)
  {
    hide Items, IsComplete, T.TreeRun, T.AllReports, T.Inside, T.Report.HasUsage, T.Report.Bytes, Lists, IsByte;
    if T.TreeRun(T.INITIAL, Items(desc, 0)).Some? {
      var rs := T.AllReports(Tree(Items(desc, 0)));
      forall r | r in rs
        ensures TreeSetMode(r) <==> r.kind == Feature && IsByte(r) && Lists(r, 0xFF00_00C8)
        ensures TreeTouchData(r) <==> r.kind == Input && Lists(r, 0x0D_0056) && Lists(r, 0x0D_0061)
      {
        ReportPart(r, 0xFF00_00C8);
        ReportPart(r, 0x0D_0056);
        ReportPart(r, 0x0D_0061);
      }
    }
  }

  /** The same by what the descriptor declares, if the tree parser reads its items like the flat one does. */
  lemma TreeTypeByItems(desc: seq<Byte>, usage: nat)
    requires (forall it | it in Items(desc, 0) :: T.IsPlain(it)) && T.BalancedFrom(0, Items(desc, 0))
    ensures T.TreeRun(T.INITIAL, Items(desc, 0)).Some?
    ensures InTree(desc, usage) <==> exists o :: o in Openings(START, Items(desc, 0)) && o.usage == usage
  {
    hide Items, T.TreeRun, T.Inside, T.IsPlain, T.BalancedFrom, Openings;
    var os := Openings(START, Items(desc, 0));
    T.TreeParserKeepsFields(Items(desc, 0));
    if o :| o in os && o.usage == usage {
      assert Opening(T.ParseType(o.payload), o.usage) in T.Recorded(os);
    }
  }

  // ---------------------------------------------------------------- when they agree

  /** The items of the descriptor meet the conditions under which the two parsers see the same reports. */
  ghost predicate Ordinary(desc: seq<Byte>) {
    var items := Items(desc, 0);
    && Comparable(items)
    && T.TreeRun(T.INITIAL, items).Some?
    && KeysOnce(T.AllReports(Tree(items))) && WholeBytes(T.AllReports(Tree(items)))
    && DigitizersAreApplications(items)
  }

  /** For such a descriptor both accept or reject the device, with the same type, unless it is cut off and the flat
      parser accepts it. */
  lemma VerdictsAgreeExactly(desc: seq<Byte>)
    requires Ordinary(desc)
    ensures FlatVerdict(desc) == TreeVerdict(desc) <==> IsComplete(desc, 0) || FlatVerdict(desc) == Rejected
  {
    hide Comparable, T.TreeRun, F.FlatRun, KeysOnce, WholeBytes, DigitizersAreApplications, TreeHas, T.AllReports;
    hide TableFindsSetMode, TableFindsTouchData, TreeFindsSetMode, TreeFindsTouchData, IsComplete;
    DetectorsAgree(Items(desc, 0));
  }

  // ---------------------------------------------------------------- descriptors that are cut off

  /** How many bytes the complete items take. */
  ghost function CompletePart(desc: seq<Byte>, pos: nat): (n: nat)
    requires pos <= |desc|
    ensures pos <= n <= |desc|
    decreases |desc| - pos
  {
    if pos == |desc| || pos + 1 + PayloadSize(desc[pos]) > |desc| then pos
    else CompletePart(desc, pos + 1 + PayloadSize(desc[pos]))
  }

  /** An item fits at this position. */
  predicate ItemFits(desc: seq<Byte>, pos: nat) {
    pos < |desc| && pos + 1 + PayloadSize(desc[pos]) <= |desc|
  }

  lemma ItemsUnfold(desc: seq<Byte>, pos: nat)
    requires pos <= |desc|
    ensures !ItemFits(desc, pos) ==>
              Items(desc, pos) == [] && CompletePart(desc, pos) == pos && (IsComplete(desc, pos) <==> pos == |desc|)
    ensures ItemFits(desc, pos) ==>
              var n := PayloadSize(desc[pos]);
              && Items(desc, pos) == [Item(desc[pos], Payload(desc, pos + 1, n))] + Items(desc, pos + 1 + n)
              && CompletePart(desc, pos) == CompletePart(desc, pos + 1 + n)
              && (IsComplete(desc, pos) <==> IsComplete(desc, pos + 1 + n))
  {
    hide Payload;
  }

  lemma SamePayload(a: seq<Byte>, b: seq<Byte>, pos: nat, n: nat)
    requires pos + n <= |a| && pos + n <= |b| && forall i | pos <= i < pos + n :: a[i] == b[i]
    ensures Payload(a, pos, n) == Payload(b, pos, n)
  {
  }

  /** Only the bytes of the complete items matter; a prefix that has them all, and no more, is complete. */
  lemma {:induction false} SameItems(a: seq<Byte>, b: seq<Byte>, pos: nat)
    requires pos <= |a| <= |b| && |a| == CompletePart(b, pos) && forall i | 0 <= i < |a| :: a[i] == b[i]
    ensures IsComplete(a, pos) && Items(a, pos) == Items(b, pos)
    decreases |b| - pos
  {
    hide Payload, Items, IsComplete, CompletePart, PayloadSize;
    ItemsUnfold(a, pos);
    ItemsUnfold(b, pos);
    if ItemFits(b, pos) {
      var n := PayloadSize(b[pos]);
      SameItems(a, b, pos + 1 + n);
      SamePayload(a, b, pos + 1, n);
    }
  }

  lemma {:induction false} CompleteIsAll(desc: seq<Byte>, pos: nat)
    requires pos <= |desc|
    ensures IsComplete(desc, pos) <==> CompletePart(desc, pos) == |desc|
    decreases |desc| - pos
  {
    hide Payload, Items, IsComplete, CompletePart;
    ItemsUnfold(desc, pos);
    if ItemFits(desc, pos) {
      CompleteIsAll(desc, pos + 1 + PayloadSize(desc[pos]));
    }
  }

  /** The tree parser rejects a descriptor that is cut off, whatever it contains; the flat parser judges its complete
      items. */
  lemma CutOffDescriptor(desc: seq<Byte>)
    requires !IsComplete(desc, 0)
    ensures TreeVerdict(desc) == Rejected
    ensures CompletePart(desc, 0) < |desc| && IsComplete(desc[..CompletePart(desc, 0)], 0)
    ensures FlatVerdict(desc) == FlatVerdict(desc[..CompletePart(desc, 0)])
  {
    hide F.FlatRun, TableFindsSetMode, TableFindsTouchData, Items, IsComplete, CompletePart;
    CompleteIsAll(desc, 0);
    SameItems(desc[..CompletePart(desc, 0)], desc, 0);
  }

  // ---------------------------------------------------------------- items as bytes

  /** The payload fits the size that the header announces. */
  predicate Fits(it: Item) {
    match PayloadSize(it.header)
    case 0 => it.payload == 0
    case 1 => it.payload < 0x100
    case 2 => it.payload < 0x1_0000
    case _ => it.payload < TWO32
  }

  function Bytes(it: Item): (b: seq<Byte>)
    requires Fits(it)
    ensures |b| == 1 + PayloadSize(it.header) && b[0] == it.header
  {
    var p := it.payload;
    match PayloadSize(it.header)
    case 0 => [it.header]
    case 1 => [it.header, p]
    case 2 => [it.header, p % 0x100, p / 0x100]
    case _ => [it.header, p % 0x100, p / 0x100 % 0x100, p / 0x1_0000 % 0x100, p / 0x100_0000]
  }

  function Encode(items: seq<Item>): seq<Byte>
    requires forall it | it in items :: Fits(it)
  {
    if items == [] then [] else Bytes(items[0]) + Encode(items[1..])
  }

  lemma PayloadOfBytes(before: seq<Byte>, it: Item, after: seq<Byte>)
    requires Fits(it)
    ensures Payload(before + Bytes(it) + after, |before| + 1, PayloadSize(it.header)) == it.payload
  {
    var desc, b := before + Bytes(it) + after, Bytes(it);
    forall k | 0 <= k < |b|
      ensures desc[|before| + k] == b[k]
    {
    }
    Digits(it.payload);
  }

  lemma Digits(p: nat)
    ensures p == p % 0x100 + 0x100 * (p / 0x100)
    ensures p == p % 0x100 + 0x100 * (p / 0x100 % 0x100) + 0x1_0000 * (p / 0x1_0000 % 0x100)
              + 0x100_0000 * (p / 0x100_0000)
  {
    var a, b, c := p / 0x100, p / 0x1_0000, p / 0x100_0000;
    assert a == a % 0x100 + 0x100 * b;
    assert b == b % 0x100 + 0x100 * c;
  }

  /** Items written as bytes are read back, and nothing is cut off. */
  lemma {:induction false} ItemsRoundTrip(before: seq<Byte>, items: seq<Item>)
    requires forall it | it in items :: Fits(it)
    ensures Items(before + Encode(items), |before|) == items
    ensures IsComplete(before + Encode(items), |before|)
    decreases |items|
  {
    hide *;
    if items == [] {
      NothingLeft(before + Encode(items));
      assert Encode(items) == [] && before + [] == before by { EncodeUnfolds(items); }
    } else {
      EncodeUnfolds(items);
      var it, rest := items[0], Encode(items[1..]);
      assert before + Encode(items) == (before + Bytes(it)) + rest;
      ItemsRoundTrip(before + Bytes(it), items[1..]);
      FirstItem(before, it, rest);
      assert items == [it] + items[1..];
    }
  }

  lemma EncodeUnfolds(items: seq<Item>)
    requires forall it | it in items :: Fits(it)
    ensures Encode(items) == if items == [] then [] else Bytes(items[0]) + Encode(items[1..])
  {
    hide Bytes, Fits;
  }

  lemma NothingLeft(desc: seq<Byte>)
    ensures Items(desc, |desc|) == [] && IsComplete(desc, |desc|)
  {
  }

  /** The item at the end of `before` is read, and what follows it after that. */
  lemma FirstItem(before: seq<Byte>, it: Item, rest: seq<Byte>)
    requires Fits(it)
    ensures var desc, next := before + Bytes(it) + rest, |before + Bytes(it)|;
            && Items(desc, |before|) == [it] + Items(desc, next)
            && (IsComplete(desc, |before|) <==> IsComplete(desc, next))
  {
    hide Payload, Bytes, Fits, Items, IsComplete, CompletePart;
    var desc := before + Bytes(it) + rest;
    PayloadOfBytes(before, it, rest);
    assert desc[|before|] == it.header;
    ItemsUnfold(desc, |before|);
  }
}
