/** The flat descriptor parser of the Android device detector: one table of reports for the whole
    descriptor, whatever collection a field is declared in. */
module HidFlat {
  import opened Common
  import opened HidItems

  const MAX_REPORTS := 64
  const MAX_USAGES_PER_REPORT := 32
  const MAX_COLLECTION_DEPTH := 16

  const USAGE_TOUCHSCREEN: nat := 0x0D_0004
  const USAGE_TOUCHPAD: nat := 0x0D_0005
  const USAGE_SCAN_TIME: nat := 0x0D_0056
  const USAGE_GESTURE_DATA: nat := 0x0D_0061
  const USAGE_SET_MODE: nat := 0xFF00_00C8

  const APPLICATION: nat := 1

  datatype FlatReport = FlatReport(kind: Kind, reportId: nat, hasReportId: bool, totalBits: nat, usages: seq<nat>) {
    function Key(): Key {
      HidItems.Key(kind, if hasReportId then Some(reportId) else None)
    }

    function Add(bits: nat, usage: nat): FlatReport {
      this.(totalBits := (totalBits + bits % TWO32) % TWO32,
            usages := if usage != 0 && |usages| < MAX_USAGES_PER_REPORT then usages + [usage] else usages)
    }
  }

  /** The whole state of the parser, as a value. */
  datatype FlatState = FlatState(
    page: nat,
    reportId: nat,
    hasReportId: bool,
    count: nat,
    size: nat,
    usage: nat,
    open: seq<nat>,
    reports: seq<FlatReport>,
    touchscreen: bool,
    touchpad: bool)
  {
    function Key(kind: Kind): Key {
      HidItems.Key(kind, if hasReportId then Some(reportId) else None)
    }
  }

  const INITIAL := FlatState(0, 0, false, 0, 0, 0, [], [], false, false)

  /** The position of the report with this key, or the number of reports. */
  function Find(reports: seq<FlatReport>, k: Key): (i: nat)
    ensures i <= |reports|
    ensures i < |reports| ==> reports[i].Key() == k
    ensures forall j | 0 <= j < i :: reports[j].Key() != k
  {
    if reports == [] then 0
    else if reports[0].Key() == k then 0
    else 1 + Find(reports[1..], k)
  }

  /** A field is lost, and the usage is kept, if its report does not fit into the table. */
  function AddField(s: FlatState, kind: Kind): FlatState {
    var i := Find(s.reports, s.Key(kind));
    if i == |s.reports| && i >= MAX_REPORTS then s
    else
      var all := if i < |s.reports| then s.reports
          else s.reports + [FlatReport(kind, s.reportId, s.hasReportId, 0, [])];
      s.(reports := all[i := all[i].Add(s.count * s.size, s.usage)], usage := 0)
  }

  function Entered(s: FlatState, payload: nat): FlatState {
    s.(open := if |s.open| < MAX_COLLECTION_DEPTH then s.open + [s.usage] else s.open,
       touchscreen := s.touchscreen || (payload == APPLICATION && s.usage == USAGE_TOUCHSCREEN),
       touchpad := s.touchpad || (payload == APPLICATION && s.usage == USAGE_TOUCHPAD),
       usage := 0)
  }

  function FlatStep(s: FlatState, it: Item): FlatState {
    match FlatOp(it.header)
    case Main(kind) => AddField(s, kind)
    case OpenCollection => Entered(s, it.payload)
    case CloseCollection => s.(open := if |s.open| > 0 then s.open[..|s.open| - 1] else s.open)
    case UsagePage => s.(page := (it.payload * 0x10000) % TWO32)
    case ReportSize => s.(size := it.payload)
    case ReportId => s.(reportId := it.payload % 256, hasReportId := true)
    case ReportCount => s.(count := it.payload)
    case Usage => s.(usage := ExtendedUsage(s.page, it))
    case _ => s
  }

  function FlatRun(s: FlatState, items: seq<Item>): FlatState
    decreases |items|
  {
    if items == [] then s else FlatRun(FlatStep(s, items[0]), items[1..])
  }

  // ---------------------------------------------------------------- the table groups the declared fields

  ghost function ContextOf(s: FlatState): Context {
    Context(s.page, if s.hasReportId then Some(s.reportId) else None, s.count, s.size, s.usage)
  }

  /** The fields fit into the table. */
  ghost predicate Fits(fs: seq<Field>) {
    && |Keys(fs)| <= 64
    && forall k :: |UsagesOf(fs, k)| <= 32
  }

  /** The report has the size and the usages of the fields with its key. */
  ghost predicate Describes(r: FlatReport, fs: seq<Field>) {
    && r.Key() in Keys(fs)
    && r.totalBits == BitsOf(fs, r.Key()) % TWO32
    && r.usages == UsagesOf(fs, r.Key())
  }

  ghost predicate DistinctKeys(reports: seq<FlatReport>) {
    forall i, j | 0 <= i < j < |reports| :: reports[i].Key() != reports[j].Key()
  }

  /** The table has exactly one report for each key. */
  ghost predicate Groups(reports: seq<FlatReport>, fs: seq<Field>) {
    && DistinctKeys(reports)
    && (forall i | 0 <= i < |reports| :: Describes(reports[i], fs))
    && (forall k | k in Keys(fs) :: Find(reports, k) < |reports|)
    && |reports| == |Keys(fs)|
  }

  lemma WrappedSum(a: nat, b: nat)
    ensures (a % TWO32 + b % TWO32) % TWO32 == (a + b) % TWO32
  {
  }

  lemma KeysGrow(fs: seq<Field>, f: Field)
    ensures Keys(fs + [f]) == Keys(fs) + {f.key}
    ensures |Keys(fs + [f])| == |Keys(fs)| + if f.key in Keys(fs) then 0 else 1
  {
    assert forall k :: k in Keys(fs + [f]) <==> k in Keys(fs) || k == f.key by {
      forall k | k in Keys(fs) ensures k in Keys(fs + [f]) {
        var g :| g in fs && g.key == k;
        assert g in fs + [f];
      }
      assert f in fs + [f];
    }
    if f.key in Keys(fs) {
      assert Keys(fs) + {f.key} == Keys(fs);
    }
  }

  lemma SumsGrow(fs: seq<Field>, f: Field, k: Key)
    ensures BitsOf(fs + [f], k) == BitsOf(fs, k) + if f.key == k then f.Bits() else 0
    ensures UsagesOf(fs + [f], k) == UsagesOf(fs, k) + if f.key == k && f.usage != 0 then [f.usage] else []
  {
    assert (fs + [f])[..|fs|] == fs;
  }

  lemma {:induction false} AbsentKey(fs: seq<Field>, k: Key)
    requires k !in Keys(fs)
    ensures BitsOf(fs, k) == 0 && UsagesOf(fs, k) == []
  {
    if fs != [] {
      var t, f := fs[..|fs| - 1], fs[|fs| - 1];
      assert fs == t + [f];
      KeysGrow(t, f);
      AbsentKey(t, k);
    }
  }

  lemma {:induction false} PrefixFits(fs: seq<Field>, rest: seq<Field>)
    requires Fits(fs + rest)
    ensures Fits(fs)
  {
    if rest == [] {
      assert fs + rest == fs;
    } else {
      var t, f := rest[..|rest| - 1], rest[|rest| - 1];
      assert fs + rest == (fs + t) + [f];
      KeysGrow(fs + t, f);
      forall k
        ensures |UsagesOf(fs + t, k)| <= MAX_USAGES_PER_REPORT
      {
        SumsGrow(fs + t, f, k);
      }
      PrefixFits(fs, t);
    }
  }

  lemma AddedTotals(r: FlatReport, sum: nat, bits: nat, usage: nat)
    requires r.totalBits == sum % TWO32
    ensures r.Add(bits, usage).totalBits == (sum + bits) % TWO32
    ensures r.Add(bits, usage).Key() == r.Key()
    ensures |r.usages| < MAX_USAGES_PER_REPORT || usage == 0 ==>
              r.Add(bits, usage).usages == r.usages + if usage != 0 then [usage] else []
  {
    WrappedSum(sum, bits);
  }

  /** One field more for the report it belongs to. */
  lemma AddDescribes(r: FlatReport, fs: seq<Field>, f: Field)
    requires r.Key() == f.key && (Describes(r, fs) || (f.key !in Keys(fs) && r.totalBits == 0 && r.usages == []))
    requires |UsagesOf(fs + [f], f.key)| <= MAX_USAGES_PER_REPORT
    ensures Describes(r.Add(f.Bits(), f.usage), fs + [f])
  {
    hide Field.Bits, BitsOf, UsagesOf, Keys, FlatReport.Add, FlatReport.Key;
    KeysGrow(fs, f);
    SumsGrow(fs, f, f.key);
    if f.key !in Keys(fs) {
      AbsentKey(fs, f.key);
    }
    AddedTotals(r, BitsOf(fs, f.key), f.Bits(), f.usage);
  }

  lemma OtherDescribes(r: FlatReport, fs: seq<Field>, f: Field)
    requires r.Key() != f.key && Describes(r, fs)
    ensures Describes(r, fs + [f])
  {
    KeysGrow(fs, f);
    SumsGrow(fs, f, r.Key());
  }

  /** Adding a field changes one report, which may be a new one at the end. */
  lemma AddFieldShape(s: FlatState, kind: Kind, i: nat)
    requires i == Find(s.reports, s.Key(kind)) && (i < |s.reports| || i < MAX_REPORTS)
    ensures var grown := AddField(s, kind).reports;
            && |grown| == (if i < |s.reports| then |s.reports| else |s.reports| + 1)
            && (forall j | 0 <= j < |grown| && j != i :: grown[j] == s.reports[j])
            && grown[i] == (if i < |s.reports| then s.reports[i]
                 else FlatReport(kind, s.reportId, s.hasReportId, 0, [])).Add(s.count * s.size, s.usage)
            && grown[i].Key() == s.Key(kind)
    ensures AddField(s, kind) == s.(reports := AddField(s, kind).reports, usage := 0)
  {
  }

  /** One field more, in the table and in the list. */
  lemma AddFieldGroups(s: FlatState, kind: Kind, fs: seq<Field>)
    requires Groups(s.reports, fs)
    requires Fits(fs + [FieldOf(ContextOf(s), kind)])
    ensures Groups(AddField(s, kind).reports, fs + [FieldOf(ContextOf(s), kind)])
    ensures AddField(s, kind) == s.(reports := AddField(s, kind).reports, usage := 0)
  {
    hide Describes, UsagesOf, BitsOf, Keys, AddField;
    var f := FieldOf(ContextOf(s), kind);
    var i := Find(s.reports, f.key);
    KeysGrow(fs, f);
    if i < |s.reports| {
      DescribedKey(s.reports[i], fs);
    }
    AddFieldShape(s, kind, i);
    var grown := AddField(s, kind).reports;
    AddDescribes(if i < |s.reports| then s.reports[i] else FlatReport(kind, s.reportId, s.hasReportId, 0, []), fs, f);
    GrownTable(s.reports, grown, i, fs, f);
  }

  /** `grown` is `reports` with another report for key `k` at the place where Find looks for it. */
  ghost predicate GrowsAt(reports: seq<FlatReport>, grown: seq<FlatReport>, i: nat, k: Key) {
    && i == Find(reports, k)
    && |grown| == (if i < |reports| then |reports| else |reports| + 1)
    && (forall j | 0 <= j < |grown| && j != i :: grown[j] == reports[j])
    && grown[i].Key() == k
  }

  lemma GrownDistinct(reports: seq<FlatReport>, grown: seq<FlatReport>, i: nat, k: Key)
    requires DistinctKeys(reports) && GrowsAt(reports, grown, i, k)
    ensures DistinctKeys(grown)
    ensures forall j | 0 <= j < |grown| && j != i :: grown[j].Key() != k
  {
    hide FlatReport.Key;
    forall j | 0 <= j < |grown| && j != i
      ensures grown[j].Key() != k
    {
      assert j < i || (i < |reports| && reports[i].Key() == k && i < j);
    }
  }

  lemma GrownFinds(reports: seq<FlatReport>, grown: seq<FlatReport>, i: nat, k: Key, q: Key)
    requires GrowsAt(reports, grown, i, k)
    requires q == k || Find(reports, q) < |reports|
    ensures Find(grown, q) < |grown|
  {
    hide FlatReport.Key;
    var j := if q == k then i else Find(reports, q);
    FoundAtMost(grown, j);
  }

  /** The table after one of its reports, or a new one at the end, has taken in a field. */
  lemma GrownTable(reports: seq<FlatReport>, grown: seq<FlatReport>, i: nat, fs: seq<Field>, f: Field)
    requires Groups(reports, fs) && GrowsAt(reports, grown, i, f.key)
    requires Describes(grown[i], fs + [f])
    ensures Groups(grown, fs + [f])
  {
    hide Describes, Keys, FlatReport.Key, DistinctKeys, Find;
    KeysGrow(fs, f);
    if i < |reports| {
      DescribedKey(reports[i], fs);
    }
    GrownDistinct(reports, grown, i, f.key);
    forall j | 0 <= j < |grown|
      ensures Describes(grown[j], fs + [f])
    {
      if j != i {
        OtherDescribes(grown[j], fs, f);
      }
    }
    forall q | q in Keys(fs + [f])
      ensures Find(grown, q) < |grown|
    {
      GrownFinds(reports, grown, i, f.key, q);
    }
  }

  lemma FoundAtMost(reports: seq<FlatReport>, j: nat)
    requires j < |reports|
    ensures Find(reports, reports[j].Key()) <= j
  {
    hide FlatReport.Key;
  }

  lemma DescribedKey(r: FlatReport, fs: seq<Field>)
    requires Describes(r, fs)
    ensures r.Key() in Keys(fs)
  {
  }

  lemma FlatStepRefines(s: FlatState, it: Item, fs: seq<Field>)
    requires Groups(s.reports, fs)
    requires Fits(fs + FieldsOfItem(ContextOf(s), it))
    ensures Groups(FlatStep(s, it).reports, fs + FieldsOfItem(ContextOf(s), it))
    ensures ContextOf(FlatStep(s, it)) == NextContext(ContextOf(s), FlatOp(it.header), it)
    ensures FlatStep(s, it).touchscreen <==>
            s.touchscreen || Opening(APPLICATION, USAGE_TOUCHSCREEN) in OpeningsOfItem(ContextOf(s), it)
    ensures FlatStep(s, it).touchpad <==>
            s.touchpad || Opening(APPLICATION, USAGE_TOUCHPAD) in OpeningsOfItem(ContextOf(s), it)
  {
    hide Groups, Fits, AddField;
    match FlatOp(it.header)
    case Main(kind) => AddFieldGroups(s, kind, fs);
    case _ => assert fs + [] == fs;
  }

  /** Reading items keeps the table grouped by key, for as long as the fields fit. */
  lemma {:induction false} FlatRunRefines(s: FlatState, items: seq<Item>, fs: seq<Field>)
    requires Groups(s.reports, fs)
    requires Fits(fs + Fields(ContextOf(s), items))
    ensures Groups(FlatRun(s, items).reports, fs + Fields(ContextOf(s), items))
    ensures FlatRun(s, items).touchscreen <==>
            s.touchscreen || Opening(APPLICATION, USAGE_TOUCHSCREEN) in Openings(ContextOf(s), items)
    ensures FlatRun(s, items).touchpad <==>
            s.touchpad || Opening(APPLICATION, USAGE_TOUCHPAD) in Openings(ContextOf(s), items)
    decreases |items|
  {
    hide Groups, Fits, FlatStep, NextContext;
    if items == [] {
      assert fs + [] == fs;
    } else {
      var c, it := ContextOf(s), items[0];
      var first, rest := FieldsOfItem(c, it), Fields(NextContext(c, FlatOp(it.header), it), items[1..]);
      assert fs + Fields(c, items) == (fs + first) + rest;
      PrefixFits(fs + first, rest);
      FlatStepRefines(s, it, fs);
      FlatRunRefines(FlatStep(s, it), items[1..], fs + first);
    }
  }

  /** The flat parser as a whole: one report for each key, with the wrapped sum of the field sizes and the
      usages in order of declaration; the flags tell whether such an Application collection was opened. */
  lemma FlatParserGroupsFields(items: seq<Item>)
    requires Fits(Fields(START, items))
    ensures Groups(FlatRun(INITIAL, items).reports, Fields(START, items))
    ensures FlatRun(INITIAL, items).touchscreen <==> Opening(APPLICATION, USAGE_TOUCHSCREEN) in Openings(START, items)
    ensures FlatRun(INITIAL, items).touchpad <==> Opening(APPLICATION, USAGE_TOUCHPAD) in Openings(START, items)
  {
    var none: seq<Field> := [];
    assert none + Fields(START, items) == Fields(START, items);
    FlatRunRefines(INITIAL, items, []);
  }

  // ---------------------------------------------------------------- detection on the table

  predicate IsModesetting(r: FlatReport) {
    r.kind == Feature && r.totalBits == 8 && USAGE_SET_MODE in r.usages
  }

  predicate IsTouchData(r: FlatReport) {
    r.kind == Input && USAGE_SCAN_TIME in r.usages && USAGE_GESTURE_DATA in r.usages
  }

  // ---------------------------------------------------------------- the parser

  class FlatParser {
    var usagePage: nat
    var reportId: nat
    var hasReportId: bool
    var reportCount: nat
    var reportSize: nat
    var usage: nat
    const collectionUsage: array<nat>
    var collectionDepth: nat
    const reports: array<FlatReport>
    var reportCountTotal: nat
    var hasTouchscreenCollection: bool
    var hasTouchpadCollection: bool

    ghost predicate Valid()
      reads this
    {
      && reports.Length == MAX_REPORTS && reportCountTotal <= MAX_REPORTS
      && collectionUsage.Length == MAX_COLLECTION_DEPTH && collectionDepth <= MAX_COLLECTION_DEPTH
    }

    ghost function State(): FlatState
      requires Valid()
      reads this, reports, collectionUsage
    {
      FlatState(usagePage, reportId, hasReportId, reportCount, reportSize, usage, collectionUsage[..collectionDepth],
                reports[..reportCountTotal], hasTouchscreenCollection, hasTouchpadCollection)
    }

    constructor ()
      ensures Valid() && State() == INITIAL && fresh(reports) && fresh(collectionUsage)
    {
      usagePage, reportId, hasReportId, reportCount, reportSize, usage := 0, 0, false, 0, 0, 0;
      collectionUsage := new nat[MAX_COLLECTION_DEPTH](_ => 0);
      collectionDepth := 0;
      reports := new FlatReport[MAX_REPORTS](_ => FlatReport(Input, 0, false, 0, []));
      reportCountTotal := 0;
      hasTouchscreenCollection, hasTouchpadCollection := false, false;
    }

    /** The slot of the report for the current report ID, or None if the table is full. */
    method FindOrCreateReport(kind: Kind) returns (slot: Option<nat>)
      requires Valid()
      modifies this`reportCountTotal, reports
      ensures Valid()
      ensures var i := Find(old(State()).reports, old(State()).Key(kind));
              && (slot == None <==> i == old(reportCountTotal) && i == MAX_REPORTS)
              && (slot == None ==> State() == old(State()))
              && (slot.Some? ==> slot.value == i && State() == old(State()).(reports :=
                    if i < old(reportCountTotal) then old(State()).reports
                    else old(State()).reports + [FlatReport(kind, reportId, hasReportId, 0, [])]))
    {
      ghost var table, k := State().reports, State().Key(kind);
      for i := 0 to reportCountTotal
        invariant forall j | 0 <= j < i :: reports[j].Key() != k
      {
        var r := reports[i];
        if r.kind == kind && r.hasReportId == hasReportId && (!hasReportId || r.reportId == reportId) {
          assert table[i].Key() == k;
          FirstIsFound(table, i, k);
          return Some(i);
        }
      }
      NoneIsFound(table, k);
      if reportCountTotal >= MAX_REPORTS {
        return None;
      }
      reports[reportCountTotal] := FlatReport(kind, reportId, hasReportId, 0, []);
      reportCountTotal := reportCountTotal + 1;
      return Some(reportCountTotal - 1);
    }

    method AddFieldToReport(kind: Kind)
      requires Valid()
      modifies this`reportCountTotal, this`usage, reports
      ensures Valid() && State() == AddField(old(State()), kind)
    {
      var slot := FindOrCreateReport(kind);
      if slot.Some? {
        reports[slot.value] := reports[slot.value].Add(reportCount * reportSize, usage);
        usage := 0;
      }
    }

    method EnterCollection(payload: nat)
      requires Valid()
      modifies this, collectionUsage
      ensures Valid() && State() == Entered(old(State()), payload)
    {
      if collectionDepth < MAX_COLLECTION_DEPTH {
        collectionUsage[collectionDepth] := usage;
        collectionDepth := collectionDepth + 1;
      }
      if payload == APPLICATION {
        if usage == USAGE_TOUCHSCREEN {
          hasTouchscreenCollection := true;
        }
        if usage == USAGE_TOUCHPAD {
          hasTouchpadCollection := true;
        }
      }
      usage := 0;
    }

    method ProcessItem(header: Byte, payload: nat)
      requires Valid()
      modifies this, reports, collectionUsage
      ensures Valid() && State() == FlatStep(old(State()), Item(header, payload))
    {
      hide AddField, Entered;
      match FlatOp(header)
      case Main(kind) => AddFieldToReport(kind);
      case OpenCollection => EnterCollection(payload);
      case CloseCollection =>
        if collectionDepth > 0 {
          collectionDepth := collectionDepth - 1;
        }
      case UsagePage => usagePage := (payload * 0x10000) % TWO32;
      case ReportSize => reportSize := payload;
      case ReportId => reportId, hasReportId := payload % 256, true;
      case ReportCount => reportCount := payload;
      case Usage => usage := ExtendedUsage(usagePage, Item(header, payload));
      case _ =>
    }

    /** Reads the items of a descriptor, up to one that is cut off. */
    method ParseHidDescriptor(desc: seq<Byte>)
      requires Valid() && State() == INITIAL
      modifies this, reports, collectionUsage
      ensures Valid() && State() == FlatRun(INITIAL, Items(desc, 0))
    {
      hide FlatStep;
      var pos := 0;
      while pos < |desc|
        invariant 0 <= pos <= |desc| && Valid()
        invariant FlatRun(State(), Items(desc, pos)) == FlatRun(INITIAL, Items(desc, 0))
      {
        var header := desc[pos];
        var size := PayloadSize(header);
        if pos + 1 + size > |desc| {
          break;
        }
        var payload := Payload(desc, pos + 1, size);
        ghost var items := Items(desc, pos);
        assert items[0] == Item(header, payload) && items[1..] == Items(desc, pos + 1 + size);
        ProcessItem(header, payload);
        pos := pos + 1 + size;
      }
    }

    method ReportHasUsage(r: FlatReport, u: nat) returns (found: bool)
      ensures found <==> u in r.usages
    {
      for i := 0 to |r.usages|
        invariant u !in r.usages[..i]
      {
        if r.usages[i] == u {
          return true;
        }
      }
      return false;
    }

    method HasModesettingReport() returns (found: bool)
      requires Valid()
      ensures found <==> exists r :: r in State().reports && IsModesetting(r)
    {
      for i := 0 to reportCountTotal
        invariant forall j | 0 <= j < i :: !IsModesetting(reports[j])
      {
        var r := reports[i];
        if r.kind == Feature && r.totalBits == 8 {
          var setMode := ReportHasUsage(r, USAGE_SET_MODE);
          if setMode {
            assert State().reports[i] == r;
            assert r in State().reports && IsModesetting(r);
            return true;
          }
        }
      }
      return false;
    }

    method HasTouchDataReport() returns (found: bool)
      requires Valid()
      ensures found <==> exists r :: r in State().reports && IsTouchData(r)
    {
      for i := 0 to reportCountTotal
        invariant forall j | 0 <= j < i :: !IsTouchData(reports[j])
      {
        var r := reports[i];
        if r.kind == Input {
          var scanTime := ReportHasUsage(r, USAGE_SCAN_TIME);
          var gestureData := ReportHasUsage(r, USAGE_GESTURE_DATA);
          if scanTime && gestureData {
            assert State().reports[i] == r;
            assert r in State().reports && IsTouchData(r);
            return true;
          }
        }
      }
      return false;
    }
  }

  lemma FirstIsFound(reports: seq<FlatReport>, i: nat, k: Key)
    requires i < |reports| && reports[i].Key() == k
    requires forall j | 0 <= j < i :: reports[j].Key() != k
    ensures Find(reports, k) == i
  {
    FoundAtMost(reports, i);
  }

  lemma NoneIsFound(reports: seq<FlatReport>, k: Key)
    requires forall j | 0 <= j < |reports| :: reports[j].Key() != k
    ensures Find(reports, k) == |reports|
  {
  }
}
