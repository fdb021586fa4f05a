/** The descriptor parser that builds a tree of collections, each with the reports declared inside it. */
module HidTree {
  import opened Common
  import opened HidItems
  import opened ByteReader

  // ---------------------------------------------------------------- the tree

  datatype TreeField = TreeField(size: nat, count: nat, usage: nat, usageMin: Option<nat>, usageMax: Option<nat>) {
    function Bits(): nat {
      count * size
    }

    predicate HasUsage(u: nat) {
      usage == u || (usageMin.Some? && usageMax.Some? && usageMin.value <= u <= usageMax.value)
    }
  }

  datatype Report = Report(kind: Kind, id: Option<nat>, fields: seq<TreeField>) {
    function Key(): Key {
      HidItems.Key(kind, id)
    }

    /** The size in bits, in a 64-bit integer. */
    function Bits(): nat {
      BitSum(fields) % TWO64
    }

    /** The size in bytes, rounded up. */
    function Bytes(): nat {
      (Bits() + 7) / 8
    }

    predicate HasUsage(u: nat) {
      exists f :: f in fields && f.HasUsage(u)
    }
  }

  function BitSum(fields: seq<TreeField>): nat {
    if fields == [] then 0 else BitSum(fields[..|fields| - 1]) + fields[|fields| - 1].Bits()
  }

  datatype Collection = Collection(kind: nat, usage: nat, reports: seq<Report>, collections: seq<Collection>)

  /** The reserved and the vendor-defined collection types are each one type. */
  function ParseType(payload: nat): nat {
    if payload >= 0x80 then 0x80
    else if payload >= 0x7 then 0x7
    else payload
  }

  // ---------------------------------------------------------------- parser state and steps

  datatype Global = Global(page: nat, id: Option<nat>, count: nat, size: nat)

  datatype Local = Local(usage: nat, usageMin: Option<nat>, usageMax: Option<nat>)

  datatype TreeState = TreeState(
    globalStack: seq<Global>,
    collectionStack: seq<Collection>,
    global: Global,
    local: Local,
    collection: Collection)

  const NO_LOCAL := Local(0, None, None)
  const INITIAL := TreeState([], [], Global(0, None, 0, 0), NO_LOCAL, Collection(0, 0, [], []))

  /** The position of the report with this key, or the number of reports. */
  function Find(reports: seq<Report>, k: Key): (i: nat)
    ensures i <= |reports|
    ensures i < |reports| ==> reports[i].Key() == k
    ensures forall j | 0 <= j < i :: reports[j].Key() != k
  {
    if reports == [] then 0
    else if reports[0].Key() == k then 0
    else 1 + Find(reports[1..], k)
  }

  function FieldCreated(s: TreeState, kind: Kind): TreeState {
    var reports := s.collection.reports;
    var i := Find(reports, HidItems.Key(kind, s.global.id));
    var all := if i < |reports| then reports else reports + [Report(kind, s.global.id, [])];
    var f := TreeField(s.global.size, s.global.count, s.local.usage, s.local.usageMin, s.local.usageMax);
    s.(collection := s.collection.(reports := all[i := all[i].(fields := all[i].fields + [f])]), local := NO_LOCAL)
  }

  /** None stands for an exception, or for taking an element from an empty stack. */
  function TreeStep(s: TreeState, it: Item): Option<TreeState> {
    match TreeOp(it.header)
    case Main(kind) => Some(FieldCreated(s, kind))
    case OpenCollection =>
      if it.payload > 255 then None
      else Some(s.(collectionStack := s.collectionStack + [s.collection],
                   collection := Collection(ParseType(it.payload), s.local.usage, [], []),
                   local := NO_LOCAL))
    case CloseCollection =>
      if s.collectionStack == [] then None
      else
        var parent := s.collectionStack[|s.collectionStack| - 1];
        Some(s.(collectionStack := s.collectionStack[..|s.collectionStack| - 1],
                collection := parent.(collections := parent.collections + [s.collection])))
    case UsagePage => Some(s.(global := s.global.(page := (it.payload * 0x10000) % TWO32)))
    case ReportSize => Some(s.(global := s.global.(size := it.payload)))
    case ReportId => if it.payload > 255 then None else Some(s.(global := s.global.(id := Some(it.payload))))
    case ReportCount => Some(s.(global := s.global.(count := it.payload)))
    case Push => Some(s.(globalStack := s.globalStack + [s.global]))
    case Pop =>
      if s.globalStack == [] then None
      else Some(s.(global := s.globalStack[|s.globalStack| - 1], globalStack := s.globalStack[..|s.globalStack| - 1]))
    case Usage => Some(s.(local := s.local.(usage := ExtendedUsage(s.global.page, it))))
    case UsageMinimum => Some(s.(local := s.local.(usageMin := Some(ExtendedUsage(s.global.page, it)))))
    case UsageMaximum => Some(s.(local := s.local.(usageMax := Some(ExtendedUsage(s.global.page, it)))))
    case Ignored => Some(s)
  }

  function TreeRun(s: TreeState, items: seq<Item>): Option<TreeState>
    decreases |items|
  {
    if items == [] then Some(s)
    else
      match TreeStep(s, items[0])
      case None => None
      case Some(t) => TreeRun(t, items[1..])
  }

  // ---------------------------------------------------------------- what a tree contains

  /** All reports of a collection and the ones inside it, in the order a search visits them. */
  function AllReports(c: Collection): seq<Report>
    decreases c, 1
  {
    c.reports + ReportsInside(c.collections)
  }

  function ReportsInside(cs: seq<Collection>): seq<Report>
    decreases cs, 0
  {
    if cs == [] then [] else ReportsInside(cs[..|cs| - 1]) + AllReports(cs[|cs| - 1])
  }

  /** Type and usage of all collections inside a list of collections. */
  ghost function Inside(cs: seq<Collection>): set<Opening>
    decreases cs, 0
  {
    if cs == [] then {} else Inside(cs[..|cs| - 1]) + Opened(cs[|cs| - 1])
  }

  ghost function Opened(c: Collection): set<Opening>
    decreases c, 1
  {
    {Opening(c.kind, c.usage)} + Inside(c.collections)
  }

  ghost function FieldIn(r: Report, f: TreeField): Field {
    Field(r.Key(), f.count, f.size, f.usage)
  }

  /** The fields of a report, as they were declared. */
  ghost function Declared(r: Report): seq<Field> {
    seq(|r.fields|, i requires 0 <= i < |r.fields| => FieldIn(r, r.fields[i]))
  }

  /** The fields of a list of reports, each as often as it occurs. */
  ghost function FieldBag(rs: seq<Report>): multiset<Field> {
    if rs == [] then multiset{} else FieldBag(rs[..|rs| - 1]) + multiset(Declared(rs[|rs| - 1]))
  }

  lemma {:induction false} FieldBagOfSum(a: seq<Report>, b: seq<Report>)
    ensures FieldBag(a + b) == FieldBag(a) + FieldBag(b)
  {
    if b == [] {
      assert a + b == a;
    } else {
      assert (a + b)[..|a + b| - 1] == a + b[..|b| - 1];
      FieldBagOfSum(a, b[..|b| - 1]);
    }
  }

  // ---------------------------------------------------------------- no field is lost or made up

  /** The open collections from the outermost one to the current one. */
  ghost function Chain(s: TreeState): (c: seq<Collection>)
    ensures |c| > 0
  {
    s.collectionStack + [s.collection]
  }

  /** The fields of all open collections. */
  ghost function ChainBag(s: TreeState): multiset<Field> {
    FieldBag(ReportsInside(Chain(s)))
  }

  /** Type and usage of all collections opened so far, without the root. */
  ghost function ChainOpened(cs: seq<Collection>): set<Opening> {
    if cs == [] then {}
    else if |cs| == 1 then Inside(cs[0].collections)
    else ChainOpened(cs[..|cs| - 1]) + Opened(cs[|cs| - 1])
  }

  lemma InsideGrows(cs: seq<Collection>, c: Collection)
    ensures ReportsInside(cs + [c]) == ReportsInside(cs) + AllReports(c)
    ensures Inside(cs + [c]) == Inside(cs) + Opened(c)
    ensures cs != [] ==> ChainOpened(cs + [c]) == ChainOpened(cs) + Opened(c)
  {
    assert (cs + [c])[..|cs|] == cs;
  }

  lemma ChainBagSplits(s: TreeState)
    ensures ChainBag(s) == FieldBag(ReportsInside(s.collectionStack)) + FieldBag(AllReports(s.collection))
  {
    InsideGrows(s.collectionStack, s.collection);
    FieldBagOfSum(ReportsInside(s.collectionStack), AllReports(s.collection));
  }

  lemma CollectionBag(c: Collection)
    ensures FieldBag(AllReports(c)) == FieldBag(c.reports) + FieldBag(ReportsInside(c.collections))
  {
    FieldBagOfSum(c.reports, ReportsInside(c.collections));
  }

  /** One report takes in another field. */
  lemma {:induction false} BagUpdate(rs: seq<Report>, i: nat, f: TreeField)
    requires i < |rs|
    ensures FieldBag(rs[i := rs[i].(fields := rs[i].fields + [f])]) == FieldBag(rs) + multiset{FieldIn(rs[i], f)}
  {
    var n := |rs| - 1;
    var r := rs[i].(fields := rs[i].fields + [f]);
    if i == n {
      DeclaredGrows(rs[n], f);
      assert rs[i := r][..n] == rs[..n];
    } else {
      BagUpdate(rs[..n], i, f);
      assert rs[i := r][..n] == rs[..n][i := r];
    }
  }

  lemma DeclaredGrows(r: Report, f: TreeField)
    ensures Declared(r.(fields := r.fields + [f])) == Declared(r) + [FieldIn(r, f)]
  {
  }

  /** The context both parsers share. */
  ghost function ContextOf(s: TreeState): Context {
    Context(s.global.page, s.global.id, s.global.count, s.global.size, s.local.usage)
  }

  lemma BlankReport(rs: seq<Report>, kind: Kind, id: Option<nat>)
    ensures FieldBag(rs + [Report(kind, id, [])]) == FieldBag(rs)
  {
    assert Declared(Report(kind, id, [])) == [];
    assert (rs + [Report(kind, id, [])])[..|rs|] == rs;
  }

  /** Creating a field adds exactly that field to the current collection. */
  lemma CreateFieldAdds(s: TreeState, kind: Kind)
    ensures FieldBag(FieldCreated(s, kind).collection.reports) ==
            FieldBag(s.collection.reports) + multiset{FieldOf(ContextOf(s), kind)}
    ensures FieldCreated(s, kind) ==
            s.(collection := s.collection.(reports := FieldCreated(s, kind).collection.reports), local := NO_LOCAL)
  {
    hide FieldBag;
    var reports := s.collection.reports;
    var i := Find(reports, HidItems.Key(kind, s.global.id));
    var all := if i < |reports| then reports else reports + [Report(kind, s.global.id, [])];
    BlankReport(reports, kind, s.global.id);
    var f := TreeField(s.global.size, s.global.count, s.local.usage, s.local.usageMin, s.local.usageMax);
    BagUpdate(all, i, f);
    assert FieldIn(all[i], f) == FieldOf(ContextOf(s), kind);
  }

  /** The item is one both parsers know, with payloads that fit. */
  ghost predicate IsPlain(it: Item) {
    && !TreeOnly(TreeOp(it.header))
    && (TreeOp(it.header) == OpenCollection || TreeOp(it.header) == ReportId ==> it.payload <= 255)
  }

  /** Collections are closed only when one is open, and all of them are closed in the end. */
  ghost predicate BalancedFrom(depth: nat, items: seq<Item>)
    decreases |items|
  {
    if items == [] then depth == 0
    else
      match TreeOp(items[0].header)
      case OpenCollection => BalancedFrom(depth + 1, items[1..])
      case CloseCollection => depth > 0 && BalancedFrom(depth - 1, items[1..])
      case _ => BalancedFrom(depth, items[1..])
  }

  /** Openings as the tree records them: types of one class are not told apart. */
  ghost function Recorded(os: seq<Opening>): set<Opening> {
    set o | o in os :: Opening(ParseType(o.payload), o.usage)
  }

  lemma RecordedOfSum(a: seq<Opening>, b: seq<Opening>)
    ensures Recorded(a + b) == Recorded(a) + Recorded(b)
  {
    forall o | o in Recorded(a) + Recorded(b)
      ensures o in Recorded(a + b)
    {
      var q :| (q in a || q in b) && o == Opening(ParseType(q.payload), q.usage);
      assert q in a + b;
    }
  }

  /** What one step conserves: the fields and collections of the chain, up to what the item declares. */
  ghost predicate Conserves(s: TreeState, t: TreeState, fs: seq<Field>, os: seq<Opening>) {
    && ChainBag(t) == ChainBag(s) + multiset(fs)
    && ChainOpened(Chain(t)) == ChainOpened(Chain(s)) + Recorded(os)
  }

  lemma UnchangedChain(s: TreeState, t: TreeState)
    requires Chain(s) == Chain(t)
    ensures Conserves(s, t, [], [])
  {
  }

  lemma FieldStep(s: TreeState, kind: Kind)
    ensures Conserves(s, FieldCreated(s, kind), [FieldOf(ContextOf(s), kind)], [])
  {
    hide FieldCreated, FieldBag, AllReports, ReportsInside, Inside, Opened, ChainOpened;
    var t := FieldCreated(s, kind);
    CreateFieldAdds(s, kind);
    ChainBagSplits(s);
    ChainBagSplits(t);
    CollectionBag(s.collection);
    CollectionBag(t.collection);
    SameOpened(s, t);
    assert Recorded([]) == {};
    assert multiset([FieldOf(ContextOf(s), kind)]) == multiset{FieldOf(ContextOf(s), kind)};
  }

  /** Reports play no part in which collections were opened. */
  lemma SameOpened(s: TreeState, t: TreeState)
    requires t.collectionStack == s.collectionStack && t.collection.collections == s.collection.collections
    requires t.collection.kind == s.collection.kind && t.collection.usage == s.collection.usage
    ensures ChainOpened(Chain(t)) == ChainOpened(Chain(s))
  {
    hide Inside;
    if s.collectionStack != [] {
      InsideGrows(s.collectionStack, s.collection);
      InsideGrows(t.collectionStack, t.collection);
    }
  }

  lemma OpenStep(s: TreeState, t: TreeState, c: Collection)
    requires c.reports == [] && c.collections == []
    requires t.collectionStack == s.collectionStack + [s.collection] && t.collection == c
    ensures ChainBag(t) == ChainBag(s)
    ensures ChainOpened(Chain(t)) == ChainOpened(Chain(s)) + {Opening(c.kind, c.usage)}
  {
    hide FieldBag;
    assert Chain(t) == Chain(s) + [c];
    InsideGrows(Chain(s), c);
    assert AllReports(c) == [];
    assert ReportsInside(Chain(t)) == ReportsInside(Chain(s));
    assert Opened(c) == {Opening(c.kind, c.usage)};
  }

  lemma CloseStep(s: TreeState, t: TreeState, below: seq<Collection>, parent: Collection)
    requires s.collectionStack == below + [parent]
    requires t.collectionStack == below && t.collection == parent.(collections := parent.collections + [s.collection])
    ensures Conserves(s, t, [], [])
  {
    hide FieldBag;
    ChainBagSplits(s);
    ChainBagSplits(t);
    InsideGrows(below, parent);
    FieldBagOfSum(ReportsInside(below), AllReports(parent));
    CollectionBag(parent);
    CollectionBag(t.collection);
    InsideGrows(parent.collections, s.collection);
    FieldBagOfSum(ReportsInside(parent.collections), AllReports(s.collection));
    assert Chain(s) == s.collectionStack + [s.collection];
    InsideGrows(s.collectionStack, s.collection);
    if below != [] {
      InsideGrows(below, t.collection);
    }
  }

  lemma TreeStepConserves(s: TreeState, it: Item)
    requires IsPlain(it)
    requires TreeOp(it.header) == CloseCollection ==> s.collectionStack != []
    ensures TreeStep(s, it).Some?
    ensures var t := TreeStep(s, it).value;
            && Conserves(s, t, FieldsOfItem(ContextOf(s), it), OpeningsOfItem(ContextOf(s), it))
            && ContextOf(t) == NextContext(ContextOf(s), FlatOp(it.header), it)
            && |t.collectionStack| == (match TreeOp(it.header)
                                       case OpenCollection => |s.collectionStack| + 1
                                       case CloseCollection => |s.collectionStack| - 1
                                       case _ => |s.collectionStack|)
  {
    hide ChainBag, ChainOpened, Conserves, FieldCreated;
    OpsAgree(it.header);
    var t := TreeStep(s, it).value;
    match TreeOp(it.header)
    case Main(kind) =>
      CreateFieldAdds(s, kind);
      FieldStep(s, kind);
    case OpenCollection =>
      OpenStep(s, t, t.collection);
      OpenedConserves(s, t, it.payload);
    case CloseCollection =>
      var n := |s.collectionStack| - 1;
      assert s.collectionStack == s.collectionStack[..n] + [s.collectionStack[n]];
      CloseStep(s, t, s.collectionStack[..n], s.collectionStack[n]);
    case _ => UnchangedChain(s, t);
  }

  lemma OpenedConserves(s: TreeState, t: TreeState, payload: nat)
    requires ChainBag(t) == ChainBag(s)
    requires ChainOpened(Chain(t)) == ChainOpened(Chain(s)) + {Opening(ParseType(payload), s.local.usage)}
    ensures Conserves(s, t, [], [Opening(payload, s.local.usage)])
  {
    assert Recorded([Opening(payload, s.local.usage)]) == {Opening(ParseType(payload), s.local.usage)} by {
      assert Opening(payload, s.local.usage) in [Opening(payload, s.local.usage)];
    }
  }

  lemma ConservesComposes(s: TreeState, t: TreeState, u: TreeState, fs: seq<Field>, gs: seq<Field>, os: seq<Opening>,
      qs: seq<Opening>)
    requires Conserves(s, t, fs, os) && Conserves(t, u, gs, qs)
    ensures Conserves(s, u, fs + gs, os + qs)
  {
    hide ChainBag, ChainOpened, Recorded;
    RecordedOfSum(os, qs);
  }

  lemma {:induction false} TreeRunConserves(s: TreeState, items: seq<Item>)
    requires forall it | it in items :: IsPlain(it)
    requires BalancedFrom(|s.collectionStack|, items)
    ensures TreeRun(s, items).Some?
    ensures var t := TreeRun(s, items).value;
            && t.collectionStack == []
            && Conserves(s, t, Fields(ContextOf(s), items), Openings(ContextOf(s), items))
    decreases |items|
  {
    hide Conserves, TreeStep, FieldsOfItem, OpeningsOfItem, NextContext, IsPlain;
    if items == [] {
      UnchangedChain(s, s);
    } else {
      var it := items[0];
      assert IsPlain(it);
      TreeStepConserves(s, it);
      var t := TreeStep(s, it).value;
      TreeRunConserves(t, items[1..]);
      var c := ContextOf(s);
      ConservesComposes(s, t, TreeRun(s, items).value,
                        FieldsOfItem(c, it), Fields(ContextOf(t), items[1..]),
                        OpeningsOfItem(c, it), Openings(ContextOf(t), items[1..]));
    }
  }

  /** The tree parser as a whole: a balanced descriptor of plain items is accepted, and the tree contains
      exactly the declared fields, each as often as it was declared, and exactly the opened collections. */
  lemma TreeParserKeepsFields(items: seq<Item>)
    requires forall it | it in items :: IsPlain(it)
    requires BalancedFrom(0, items)
    ensures TreeRun(INITIAL, items).Some?
    ensures var root := TreeRun(INITIAL, items).value.collection;
            && FieldBag(AllReports(root)) == multiset(Fields(START, items))
            && Inside(root.collections) == Recorded(Openings(START, items))
  {
    hide IsPlain, BalancedFrom, TreeRun, Fields, Openings, Recorded;
    assert ContextOf(INITIAL) == START;
    TreeRunConserves(INITIAL, items);
    FromEmptyChain(INITIAL, TreeRun(INITIAL, items).value, Fields(START, items), Openings(START, items));
  }

  /** With nothing open but an empty root before, and only the root after, the root has all that was added. */
  lemma FromEmptyChain(s: TreeState, t: TreeState, fs: seq<Field>, os: seq<Opening>)
    requires s.collectionStack == [] && s.collection.reports == [] && s.collection.collections == []
    requires t.collectionStack == [] && Conserves(s, t, fs, os)
    ensures FieldBag(AllReports(t.collection)) == multiset(fs)
    ensures Inside(t.collection.collections) == Recorded(os)
  {
    hide Recorded;
    ChainBagSplits(s);
    ChainBagSplits(t);
    assert FieldBag(ReportsInside([])) == multiset{};
    assert AllReports(s.collection) == [];
    assert ChainBag(s) == multiset{};
    assert multiset{} + FieldBag(AllReports(t.collection)) == FieldBag(AllReports(t.collection));
    assert ChainBag(t) == FieldBag(AllReports(t.collection));
    assert ChainBag(t) == ChainBag(s) + multiset(fs) == multiset(fs);
    assert Chain(s) == [s.collection] && Chain(t) == [t.collection];
    assert Inside(s.collection.collections) == {};
  }

  // ---------------------------------------------------------------- without usage ranges there are none in the tree

  ghost predicate RangeFree(r: Report) {
    forall f | f in r.fields :: f.usageMin == None && f.usageMax == None
  }

  ghost predicate AllRangeFree(rs: seq<Report>) {
    forall r | r in rs :: RangeFree(r)
  }

  ghost predicate StateRangeFree(s: TreeState) {
    && s.local.usageMin == None && s.local.usageMax == None
    && AllRangeFree(ReportsInside(s.collectionStack)) && AllRangeFree(AllReports(s.collection))
  }

  lemma RangeFreeSum(a: seq<Report>, b: seq<Report>)
    ensures AllRangeFree(a + b) <==> AllRangeFree(a) && AllRangeFree(b)
  {
    if AllRangeFree(a + b) {
      forall r | r in a ensures RangeFree(r) {
        assert r in a + b;
      }
      forall r | r in b ensures RangeFree(r) {
        assert r in a + b;
      }
    }
  }

  lemma CreateFieldRangeFree(s: TreeState, kind: Kind)
    requires s.local.usageMin == None && s.local.usageMax == None && AllRangeFree(s.collection.reports)
    ensures AllRangeFree(FieldCreated(s, kind).collection.reports)
  {
    var reports := s.collection.reports;
    var i := Find(reports, HidItems.Key(kind, s.global.id));
    var all := if i < |reports| then reports else reports + [Report(kind, s.global.id, [])];
    assert AllRangeFree(all) by {
      assert RangeFree(Report(kind, s.global.id, []));
    }
    var grown := FieldCreated(s, kind).collection.reports;
    assert RangeFree(all[i]);
    assert RangeFree(grown[i]);
    forall r | r in grown
      ensures RangeFree(r)
    {
      var j :| 0 <= j < |grown| && grown[j] == r;
      if j != i {
        assert grown[j] == all[j] && all[j] in all;
      }
    }
  }

  lemma TreeStepRangeFree(s: TreeState, it: Item)
    requires IsPlain(it) && StateRangeFree(s) && TreeStep(s, it).Some?
    ensures StateRangeFree(TreeStep(s, it).value)
  {
    hide FieldCreated, RangeFree, AllRangeFree;
    var t := TreeStep(s, it).value;
    match TreeOp(it.header)
    case Main(kind) =>
      RangeFreeSum(s.collection.reports, ReportsInside(s.collection.collections));
      CreateFieldAdds(s, kind);
      CreateFieldRangeFree(s, kind);
      RangeFreeSum(t.collection.reports, ReportsInside(s.collection.collections));
    case OpenCollection =>
      InsideGrows(s.collectionStack, s.collection);
      RangeFreeSum(ReportsInside(s.collectionStack), AllReports(s.collection));
      assert AllReports(t.collection) == [];
      NoReportsRangeFree();
    case CloseCollection =>
      var n := |s.collectionStack| - 1;
      var below, parent := s.collectionStack[..n], s.collectionStack[n];
      assert s.collectionStack == below + [parent];
      InsideGrows(below, parent);
      RangeFreeSum(ReportsInside(below), AllReports(parent));
      RangeFreeSum(parent.reports, ReportsInside(parent.collections));
      InsideGrows(parent.collections, s.collection);
      RangeFreeSum(ReportsInside(parent.collections), AllReports(s.collection));
      RangeFreeSum(parent.reports, ReportsInside(t.collection.collections));
    case _ =>
  }

  lemma NoReportsRangeFree()
    ensures AllRangeFree([])
  {
  }

  lemma {:induction false} TreeRunRangeFree(s: TreeState, items: seq<Item>)
    requires forall it | it in items :: IsPlain(it)
    requires StateRangeFree(s) && TreeRun(s, items).Some?
    ensures AllRangeFree(AllReports(TreeRun(s, items).value.collection))
    decreases |items|
  {
    hide IsPlain, TreeStep, AllRangeFree;
    if items != [] {
      assert IsPlain(items[0]);
      TreeStepRangeFree(s, items[0]);
      TreeRunRangeFree(TreeStep(s, items[0]).value, items[1..]);
    }
  }

  // ---------------------------------------------------------------- the parser

  lemma PayloadIsLittleEndian(desc: seq<Byte>, pos: nat, n: nat)
    requires pos + n <= |desc| && (n == 0 || n == 1 || n == 2 || n == 4)
    ensures LittleEndian(desc[pos..pos + n]) == Payload(desc, pos, n)
  {
    var s := desc[pos..pos + n];
    if n > 0 {
      assert LittleEndian(s) == ByteAt(s, 0) + 256 * LittleEndian(s[1..]);
    }
    if n > 1 {
      assert LittleEndian(s[1..]) == ByteAt(s, 1) + 256 * LittleEndian(s[1..][1..]);
    }
    if n == 4 {
      assert LittleEndian(s[1..][1..]) == ByteAt(s, 2) + 256 * LittleEndian(s[1..][1..][1..]);
      assert LittleEndian(s[1..][1..][1..]) == ByteAt(s, 3) + 256 * LittleEndian(s[1..][1..][1..][1..]);
    }
  }

  class TreeParser {
    var globalStack: seq<Global>
    var collectionStack: seq<Collection>
    var global: Global
    var local: Local
    var collection: Collection

    ghost function State(): TreeState
      reads this
    {
      TreeState(globalStack, collectionStack, global, local, collection)
    }

    constructor ()
      ensures State() == INITIAL
    {
      globalStack, collectionStack := [], [];
      global, local, collection := Global(0, None, 0, 0), NO_LOCAL, Collection(0, 0, [], []);
    }

    /** The position of the report for the current report ID in the current collection, created if missing. */
    method CreateOrGetReport(kind: Kind) returns (i: nat)
      modifies this`collection
      ensures i == Find(old(collection.reports), HidItems.Key(kind, global.id))
      ensures collection == old(collection).(reports :=
                if i < |old(collection.reports)| then old(collection.reports)
                else old(collection.reports) + [Report(kind, global.id, [])])
    {
      var reports := collection.reports;
      for j := 0 to |reports|
        invariant forall k | 0 <= k < j :: reports[k].Key() != HidItems.Key(kind, global.id)
      {
        if reports[j].id == global.id && reports[j].kind == kind {
          FirstIsFound(reports, j);
          return j;
        }
      }
      collection := collection.(reports := reports + [Report(kind, global.id, [])]);
      return |reports|;
    }

    method CreateField(kind: Kind)
      modifies this`collection, this`local
      ensures State() == FieldCreated(old(State()), kind)
    {
      var i := CreateOrGetReport(kind);
      var reports := collection.reports;
      var f := TreeField(global.size, global.count, local.usage, local.usageMin, local.usageMax);
      collection := collection.(reports := reports[i := reports[i].(fields := reports[i].fields + [f])]);
      local := NO_LOCAL;
    }

    /** Reads one item and updates the state; false stands for an exception. */
    method ParseItem(reader: Reader) returns (ok: bool)
      requires reader.Valid() && reader.Size() > 0
      modifies this, reader
      ensures reader.Valid()
      ensures var pos, desc := old(reader.index), reader.data;
              var n := PayloadSize(desc[pos]);
              if pos + 1 + n > |desc| then !ok
              else
                var next := TreeStep(old(State()), Item(desc[pos], Payload(desc, pos + 1, n)));
                && (ok <==> next.Some?)
                && (ok ==> State() == next.value && reader.index == pos + 1 + n)
    {
      ghost var pos := reader.index;
      var head := reader.Read(1);
      var header := head.value[0];
      var size, payload := PayloadSize(header), 0;
      if size > 0 {
        var bytes := reader.Read(size);
        if bytes.Err? {
          return false;
        }
        payload := LittleEndian(bytes.value);
      }
      PayloadIsLittleEndian(reader.data, pos + 1, size);
      ok := Apply(Item(header, payload));
    }

    method Apply(it: Item) returns (ok: bool)
      modifies this
      ensures ok <==> TreeStep(old(State()), it).Some?
      ensures ok ==> State() == TreeStep(old(State()), it).value
    {
      hide FieldCreated;
      match TreeOp(it.header) {
      case Main(kind) =>
        CreateField(kind);
      case OpenCollection =>
        collectionStack := collectionStack + [collection];
        if it.payload > 255 {
          return false;
        }
        collection := Collection(ParseType(it.payload), local.usage, [], []);
        local := NO_LOCAL;
      case CloseCollection =>
        if collectionStack == [] {
          return false;
        }
        var parent := collectionStack[|collectionStack| - 1];
        collectionStack := collectionStack[..|collectionStack| - 1];
        collection := parent.(collections := parent.collections + [collection]);
      case UsagePage => global := global.(page := (it.payload * 0x10000) % TWO32);
      case ReportSize => global := global.(size := it.payload);
      case ReportId =>
        if it.payload > 255 {
          return false;
        }
        global := global.(id := Some(it.payload));
      case ReportCount => global := global.(count := it.payload);
      case Push => globalStack := globalStack + [global];
      case Pop =>
        if globalStack == [] {
          return false;
        }
        global := globalStack[|globalStack| - 1];
        globalStack := globalStack[..|globalStack| - 1];
      case Usage => local := local.(usage := ExtendedUsage(global.page, it));
      case UsageMinimum => local := local.(usageMin := Some(ExtendedUsage(global.page, it)));
      case UsageMaximum => local := local.(usageMax := Some(ExtendedUsage(global.page, it)));
      case Ignored =>
      }
      return true;
    }

    /** Parses a descriptor; None stands for an exception. */
    method Parse(desc: seq<Byte>) returns (root: Option<Collection>)
      requires State() == INITIAL
      modifies this
      ensures root.Some? <==> IsComplete(desc, 0) && TreeRun(INITIAL, Items(desc, 0)).Some?
      ensures root.Some? ==> root.value == TreeRun(INITIAL, Items(desc, 0)).value.collection
    {
      hide TreeStep;
      var reader := new Reader(desc);
      while reader.Size() > 0
        invariant reader.Valid() && fresh(reader) && reader.data == desc
        invariant IsComplete(desc, 0) <==> IsComplete(desc, reader.index)
        invariant TreeRun(INITIAL, Items(desc, 0)) == TreeRun(State(), Items(desc, reader.index))
        decreases |desc| - reader.index
      {
        ghost var pos := reader.index;
        ghost var n := PayloadSize(desc[pos]);
        if pos + 1 + n <= |desc| {
          assert Items(desc, pos)[0] == Item(desc[pos], Payload(desc, pos + 1, n));
          assert Items(desc, pos)[1..] == Items(desc, pos + 1 + n);
        }
        var ok := ParseItem(reader);
        if !ok {
          return None;
        }
      }
      return Some(collection);
    }
  }

  lemma FirstIsFound(reports: seq<Report>, j: nat)
    requires j < |reports|
    requires forall k | 0 <= k < j :: reports[k].Key() != reports[j].Key()
    ensures Find(reports, reports[j].Key()) == j
  {
    FoundAtMost(reports, j);
  }

  lemma FoundAtMost(reports: seq<Report>, j: nat)
    requires j < |reports|
    ensures Find(reports, reports[j].Key()) <= j
  {
  }
}
