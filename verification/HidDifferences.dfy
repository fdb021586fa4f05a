/** Where the two HID parsers part: exactly when the flat one finds touch data or a set-mode report, and descriptors on
    which they disagree. */
module HidDifferences {
  import opened Common
  import opened HidItems
  import opened HidDetection
  import opened HidSimulation
  import F = HidFlat
  import T = HidTree

  /** Two reports, or one, that share a key and between them have the usages of touch data. */
  ghost predicate SharedTouchData(rs: seq<T.Report>, a: T.Report, b: T.Report) {
    && a in rs && b in rs && a.Key() == b.Key() && a.kind == Input
    && a.HasUsage(F.USAGE_SCAN_TIME) && b.HasUsage(F.USAGE_GESTURE_DATA)
  }

  /** The flat parser finds touch data exactly if reports with one key have the usages between them; the tree parser
      needs one report with both. */
  lemma TableTouchDataExactly(items: seq<Item>)
    requires Comparable(items)
    ensures T.TreeRun(T.INITIAL, items).Some?
    ensures TableFindsTouchData(items) <==> exists a, b :: SharedTouchData(T.AllReports(Tree(items)), a, b)
    ensures TreeFindsTouchData(items) <==> exists a :: SharedTouchData(T.AllReports(Tree(items)), a, a)
  {
    hide Comparable, F.FlatRun, T.TreeRun, T.AllReports;
    TreeHasNoRanges(items);
    var rs := T.AllReports(Tree(items));
    if TableFindsTouchData(items) {
      var r :| r in Table(items) && F.IsTouchData(r);
      ListedUsage(items, r.Key(), F.USAGE_SCAN_TIME);
      ListedUsage(items, r.Key(), F.USAGE_GESTURE_DATA);
      var a :| a in rs && a.Key() == r.Key() && a.HasUsage(F.USAGE_SCAN_TIME);
      var b :| b in rs && b.Key() == r.Key() && b.HasUsage(F.USAGE_GESTURE_DATA);
      assert SharedTouchData(rs, a, b);
    }
    if exists a, b :: SharedTouchData(rs, a, b) {
      var a, b :| SharedTouchData(rs, a, b);
      ListedUsage(items, a.Key(), F.USAGE_SCAN_TIME);
      ListedUsage(items, a.Key(), F.USAGE_GESTURE_DATA);
      var x :| x in Table(items) && x.Key() == a.Key() && F.USAGE_SCAN_TIME in x.usages;
      var y :| y in Table(items) && y.Key() == a.Key() && F.USAGE_GESTURE_DATA in y.usages;
      OneReportPerKey(items, x, y);
      assert F.IsTouchData(x);
    }
    if TreeFindsTouchData(items) {
      var r :| r in rs && TreeTouchData(r);
      assert SharedTouchData(rs, r, r);
    }
    if exists a :: SharedTouchData(rs, a, a) {
      var a :| SharedTouchData(rs, a, a);
      assert TreeTouchData(a);
    }
  }

  /** A feature report with the set-mode usage. */
  ghost predicate HasSetMode(rs: seq<T.Report>, a: T.Report) {
    a in rs && a.kind == Feature && a.HasUsage(F.USAGE_SET_MODE)
  }

  /** The flat parser asks for eight bits, modulo 2^32, over all reports with the key; the tree parser for one byte,
      rounded up, in the report itself. */
  lemma TableSetModeExactly(items: seq<Item>)
    requires Comparable(items)
    ensures T.TreeRun(T.INITIAL, items).Some?
    ensures var rs := T.AllReports(Tree(items));
            TableFindsSetMode(items) <==> exists a :: HasSetMode(rs, a) && TreeBits(rs, a.Key()) % TWO32 == 8
    ensures TreeFindsSetMode(items) <==> exists a :: HasSetMode(T.AllReports(Tree(items)), a) && a.Bytes() == 1
  {
    hide Comparable, F.FlatRun, T.TreeRun, T.AllReports, TreeBits;
    TreeHasNoRanges(items);
    var rs, table := T.AllReports(Tree(items)), Table(items);
    if TableFindsSetMode(items) {
      var r :| r in table && F.IsModesetting(r);
      ListedUsage(items, r.Key(), F.USAGE_SET_MODE);
      var a :| a in rs && a.Key() == r.Key() && a.HasUsage(F.USAGE_SET_MODE);
      SizeInTable(items, r);
      assert HasSetMode(rs, a) && TreeBits(rs, a.Key()) % TWO32 == 8;
    }
    if exists a :: HasSetMode(rs, a) && TreeBits(rs, a.Key()) % TWO32 == 8 {
      var a :| HasSetMode(rs, a) && TreeBits(rs, a.Key()) % TWO32 == 8;
      ListedUsage(items, a.Key(), F.USAGE_SET_MODE);
      var r :| r in table && r.Key() == a.Key() && F.USAGE_SET_MODE in r.usages;
      SizeInTable(items, r);
      assert F.IsModesetting(r);
    }
    if TreeFindsSetMode(items) {
      var r :| r in rs && TreeSetMode(r);
      assert HasSetMode(rs, r) && r.Bytes() == 1;
    }
    if exists a :: HasSetMode(rs, a) && a.Bytes() == 1 {
      var a :| HasSetMode(rs, a) && a.Bytes() == 1;
      assert TreeSetMode(a);
    }
  }

  lemma SizeInTable(items: seq<Item>, r: F.FlatReport)
    requires Comparable(items) && r in Table(items)
    ensures T.TreeRun(T.INITIAL, items).Some?
    ensures r.totalBits == TreeBits(T.AllReports(Tree(items)), r.Key()) % TWO32
  {
    hide Comparable, F.FlatRun, T.TreeRun, T.AllReports, TreeBits;
    TableSummarisesTree(items, r.Key());
    var i :| 0 <= i < |Table(items)| && Table(items)[i] == r;
    assert i == F.Find(Table(items), r.Key());
  }

  // ---------------------------------------------------------------- descriptors that tell them apart

  lemma TreeStepped(s: T.TreeState, it: Item, rest: seq<Item>)
    requires T.TreeStep(s, it).Some?
    ensures T.TreeRun(s, [it] + rest) == T.TreeRun(T.TreeStep(s, it).value, rest)
  {
    assert ([it] + rest)[1..] == rest;
  }

  lemma FlatStepped(s: F.FlatState, it: Item, rest: seq<Item>)
    ensures F.FlatRun(s, [it] + rest) == F.FlatRun(F.FlatStep(s, it), rest)
  {
    assert ([it] + rest)[1..] == rest;
  }

  const VENDOR_PAGE := Item(0x06, 0xFF00)
  const SET_MODE := Item(0x09, 0xC8)
  const ONE_BIT := Item(0x75, 1)
  const ONCE := Item(0x95, 1)
  const FEATURE := Item(0xB1, 0x02)

  const PAGE: nat := 0xFF00_0000

  /** What the five items do to the tree parser. */
  lemma TreeSteps(s: T.TreeState)
    ensures T.TreeStep(s, VENDOR_PAGE) == Some(s.(global := s.global.(page := PAGE)))
    ensures s.global.page == PAGE ==> T.TreeStep(s, SET_MODE) == Some(s.(local := s.local.(usage := F.USAGE_SET_MODE)))
    ensures T.TreeStep(s, ONE_BIT) == Some(s.(global := s.global.(size := 1)))
    ensures T.TreeStep(s, ONCE) == Some(s.(global := s.global.(count := 1)))
    ensures T.TreeStep(s, FEATURE) == Some(T.FieldCreated(s, Feature))
  {
    hide T.FieldCreated;
  }

  /** What they do to the flat parser. */
  lemma FlatSteps(s: F.FlatState)
    ensures F.FlatStep(s, VENDOR_PAGE) == s.(page := PAGE)
    ensures s.page == PAGE ==> F.FlatStep(s, SET_MODE) == s.(usage := F.USAGE_SET_MODE)
    ensures F.FlatStep(s, ONE_BIT) == s.(size := 1)
    ensures F.FlatStep(s, ONCE) == s.(count := 1)
    ensures F.FlatStep(s, FEATURE) == F.AddField(s, Feature)
  {
    hide F.AddField;
  }

  function OneBitMode(): seq<Item> {
    [VENDOR_PAGE] + ([SET_MODE] + ([ONE_BIT] + ([ONCE] + ([FEATURE] + []))))
  }

  lemma OneBitTree() returns (s: T.TreeState)
    ensures s == T.TreeState([], [], T.Global(PAGE, None, 1, 1), T.Local(F.USAGE_SET_MODE, None, None),
              T.Collection(0, 0, [], []))
    ensures T.TreeRun(T.INITIAL, OneBitMode()) == Some(T.FieldCreated(s, Feature))
  {
    hide T.TreeRun, T.TreeStep, T.FieldCreated;
    s := T.INITIAL;
    TreeSteps(s);
    TreeStepped(s, VENDOR_PAGE, [SET_MODE] + ([ONE_BIT] + ([ONCE] + ([FEATURE] + []))));
    s := s.(global := s.global.(page := PAGE));
    TreeSteps(s);
    TreeStepped(s, SET_MODE, [ONE_BIT] + ([ONCE] + ([FEATURE] + [])));
    s := s.(local := s.local.(usage := F.USAGE_SET_MODE));
    TreeSteps(s);
    TreeStepped(s, ONE_BIT, [ONCE] + ([FEATURE] + []));
    s := s.(global := s.global.(size := 1));
    TreeSteps(s);
    TreeStepped(s, ONCE, [FEATURE] + []);
    s := s.(global := s.global.(count := 1));
    TreeSteps(s);
    TreeStepped(s, FEATURE, []);
    NoMoreItems(T.FieldCreated(s, Feature), F.INITIAL);
  }

  lemma OneBitTable() returns (s: F.FlatState)
    ensures s == F.FlatState(PAGE, 0, false, 1, 1, F.USAGE_SET_MODE, [], [], false, false)
    ensures F.FlatRun(F.INITIAL, OneBitMode()) == F.AddField(s, Feature)
  {
    hide F.FlatRun, F.FlatStep, F.AddField;
    s := F.INITIAL;
    FlatSteps(s);
    FlatStepped(s, VENDOR_PAGE, [SET_MODE] + ([ONE_BIT] + ([ONCE] + ([FEATURE] + []))));
    s := s.(page := PAGE);
    FlatSteps(s);
    FlatStepped(s, SET_MODE, [ONE_BIT] + ([ONCE] + ([FEATURE] + [])));
    s := s.(usage := F.USAGE_SET_MODE);
    FlatSteps(s);
    FlatStepped(s, ONE_BIT, [ONCE] + ([FEATURE] + []));
    s := s.(size := 1);
    FlatSteps(s);
    FlatStepped(s, ONCE, [FEATURE] + []);
    s := s.(count := 1);
    FlatSteps(s);
    FlatStepped(s, FEATURE, []);
    NoMoreItems(T.INITIAL, F.AddField(s, Feature));
  }

  lemma NoMoreItems(s: T.TreeState, f: F.FlatState)
    ensures T.TreeRun(s, []) == Some(s) && F.FlatRun(f, []) == f
  {
  }

  lemma OneBitReport(s: T.TreeState)
    requires s == T.TreeState([], [], T.Global(PAGE, None, 1, 1), T.Local(F.USAGE_SET_MODE, None, None),
              T.Collection(0, 0, [], []))
    ensures exists r :: r in T.AllReports(T.FieldCreated(s, Feature).collection) && TreeSetMode(r)
  {
    var c := T.FieldCreated(s, Feature).collection;
    assert |c.reports| == 1;
    var r := c.reports[0];
    assert r.kind == Feature && |r.fields| == 1;
    var f := r.fields[0];
    assert f.usage == F.USAGE_SET_MODE && f.HasUsage(F.USAGE_SET_MODE);
    assert r.fields == [f] && T.BitSum([]) == 0 && T.BitSum([f]) == 1;
    assert f in r.fields && r.HasUsage(F.USAGE_SET_MODE);
    assert r in T.AllReports(c);
  }

  const ONE_BIT_MODE: seq<Byte> := [0x06, 0x00, 0xFF, 0x09, 0xC8, 0x75, 0x01, 0x95, 0x01, 0xB1, 0x02]

  /** The bytes of the descriptor. */
  lemma OneBitModeBytes()
    ensures Items(ONE_BIT_MODE, 0) == OneBitMode() && IsComplete(ONE_BIT_MODE, 0)
  {
    hide Items, IsComplete;
    var items := OneBitMode();
    assert Bytes(VENDOR_PAGE) == [0x06, 0x00, 0xFF];
    assert Bytes(SET_MODE) == [0x09, 0xC8] && Bytes(ONE_BIT) == [0x75, 0x01];
    assert Bytes(ONCE) == [0x95, 0x01] && Bytes(FEATURE) == [0xB1, 0x02];
    EncodeStep(FEATURE, []);
    EncodeStep(ONCE, [FEATURE] + []);
    EncodeStep(ONE_BIT, [ONCE] + ([FEATURE] + []));
    EncodeStep(SET_MODE, [ONE_BIT] + ([ONCE] + ([FEATURE] + [])));
    EncodeStep(VENDOR_PAGE, [SET_MODE] + ([ONE_BIT] + ([ONCE] + ([FEATURE] + []))));
    assert Encode([]) == [];
    assert Encode(items) == ONE_BIT_MODE;
    assert [] + Encode(items) == Encode(items);
    ItemsRoundTrip([], items);
  }

  lemma EncodeStep(it: Item, rest: seq<Item>)
    requires HidDetection.Fits(it) && forall r | r in rest :: HidDetection.Fits(r)
    ensures Encode([it] + rest) == Bytes(it) + Encode(rest)
  {
    assert ([it] + rest)[1..] == rest;
  }

  /** A set-mode report of a single bit is a byte for the tree parser, and too short for the flat one. */
  lemma OneBitModeIsMissed()
    ensures Items(ONE_BIT_MODE, 0) == OneBitMode() && IsComplete(ONE_BIT_MODE, 0)
    ensures T.TreeRun(T.INITIAL, OneBitMode()).Some?
    ensures TreeFindsSetMode(OneBitMode()) && !TableFindsSetMode(OneBitMode())
  {
    hide T.TreeRun, F.FlatRun, OneBitMode, T.FieldCreated, T.AllReports, TreeSetMode, Items, IsComplete;
    OneBitModeBytes();
    var s := OneBitTree();
    OneBitReport(s);
    var f := OneBitTable();
    assert F.AddField(f, Feature).reports[0].totalBits == 1;
  }

  const DIGITIZER_PAGE := Item(0x05, 0x0D)
  const APPLICATION := Item(0xA1, 0x01)
  const SCAN_TIME := Item(0x09, 0x56)
  const GESTURE_DATA := Item(0x09, 0x61)
  const INPUT := Item(0x81, 0x02)
  const END := Item(0xC0, 0)
  const DIGITIZERS: nat := 0x0D_0000

  /** A collection that holds one input report with one field of the given usage, and what follows it. */
  function OneField(usage: Item, rest: seq<Item>): seq<Item> {
    [APPLICATION] + ([usage] + ([INPUT] + ([END] + rest)))
  }

  function SplitReport(): seq<Item> {
    [DIGITIZER_PAGE] + OneField(SCAN_TIME, OneField(GESTURE_DATA, []))
  }

  function OneReport(usage: nat): T.Collection {
    T.Collection(1, 0, [T.Report(Input, None, [T.TreeField(0, 0, usage, None, None)])], [])
  }

  /** The tree parser between two collections. */
  function Between(collections: seq<T.Collection>): T.TreeState {
    T.TreeState([], [], T.Global(DIGITIZERS, None, 0, 0), T.NO_LOCAL, T.Collection(0, 0, [], collections))
  }

  lemma TreeReadsField(collections: seq<T.Collection>, item: Item, usage: nat, rest: seq<Item>)
    requires (item == SCAN_TIME && usage == F.USAGE_SCAN_TIME)
              || (item == GESTURE_DATA && usage == F.USAGE_GESTURE_DATA)
    ensures T.TreeRun(Between(collections), OneField(item, rest)) ==
              T.TreeRun(Between(collections + [OneReport(usage)]), rest)
  {
    hide T.TreeRun;
    var s := Between(collections);
    var parent := s.collection;
    TreeStepped(s, APPLICATION, [item] + ([INPUT] + ([END] + rest)));
    var t := s.(collectionStack := [parent], collection := T.Collection(1, 0, [], []));
    assert s.collectionStack + [parent] == [parent];
    assert T.TreeStep(s, APPLICATION) == Some(t);
    TreeStepped(t, item, [INPUT] + ([END] + rest));
    var u := t.(local := T.Local(usage, None, None));
    assert T.TreeStep(t, item) == Some(u);
    TreeStepped(u, INPUT, [END] + rest);
    var v := t.(collection := OneReport(usage));
    FieldIsCreated(u, usage, v);
    TreeStepped(v, END, rest);
    assert T.TreeStep(v, END).value.collection == parent.(collections := parent.collections + [OneReport(usage)]);
    assert T.TreeStep(v, END) == Some(Between(collections + [OneReport(usage)]));
  }

  lemma FieldIsCreated(u: T.TreeState, usage: nat, v: T.TreeState)
    requires u.collection == T.Collection(1, 0, [], []) && u.local == T.Local(usage, None, None) && u.global.id == None
    requires u.global.count == 0 && u.global.size == 0
    requires v == u.(collection := OneReport(usage), local := T.NO_LOCAL)
    ensures T.TreeStep(u, INPUT) == Some(v)
  {
    var f := T.TreeField(0, 0, usage, None, None);
    var reports := T.FieldCreated(u, Input).collection.reports;
    assert |reports| == 1 && reports[0].fields == [f];
    assert reports == [T.Report(Input, None, [f])];
  }

  /** The flat parser between two collections. */
  function TableOf(reports: seq<F.FlatReport>): F.FlatState {
    F.FlatState(DIGITIZERS, 0, false, 0, 0, 0, [], reports, false, false)
  }

  function InputReport(usages: seq<nat>): seq<F.FlatReport> {
    [F.FlatReport(Input, 0, false, 0, usages)]
  }

  lemma TableReadsField(usages: seq<nat>, item: Item, usage: nat, rest: seq<Item>)
    requires (item == SCAN_TIME && usage == F.USAGE_SCAN_TIME)
              || (item == GESTURE_DATA && usage == F.USAGE_GESTURE_DATA)
    requires |usages| <= 1
    ensures F.FlatRun(TableOf(if usages == [] then [] else InputReport(usages)), OneField(item, rest)) ==
            F.FlatRun(TableOf(InputReport(usages + [usage])), rest)
  {
    hide F.FlatRun;
    var s := TableOf(if usages == [] then [] else InputReport(usages));
    FlatStepped(s, APPLICATION, [item] + ([INPUT] + ([END] + rest)));
    var t := s.(open := [0]);
    assert F.FlatStep(s, APPLICATION) == t;
    FlatStepped(t, item, [INPUT] + ([END] + rest));
    var u := t.(usage := usage);
    assert F.FlatStep(t, item) == u;
    FlatStepped(u, INPUT, [END] + rest);
    var v := t.(reports := InputReport(usages + [usage]));
    assert F.FlatStep(u, INPUT).reports == v.reports;
    assert F.FlatStep(u, INPUT) == v;
    FlatStepped(v, END, rest);
    assert F.FlatStep(v, END) == TableOf(InputReport(usages + [usage]));
  }

  const SPLIT_REPORT: seq<Byte> :=
    [0x05, 0x0D, 0xA1, 0x01, 0x09, 0x56, 0x81, 0x02, 0xC0, 0xA1, 0x01, 0x09, 0x61, 0x81, 0x02, 0xC0]

  lemma OneFieldBytes(usage: Item, rest: seq<Item>)
    requires usage == SCAN_TIME || usage == GESTURE_DATA
    requires forall r | r in rest :: HidDetection.Fits(r)
    ensures forall r | r in OneField(usage, rest) :: HidDetection.Fits(r)
    ensures Encode(OneField(usage, rest)) == [0xA1, 0x01] + Bytes(usage) + [0x81, 0x02, 0xC0] + Encode(rest)
  {
    hide Encode;
    assert Bytes(APPLICATION) == [0xA1, 0x01] && Bytes(INPUT) == [0x81, 0x02] && Bytes(END) == [0xC0];
    hide Bytes;
    EncodeStep(END, rest);
    EncodeStep(INPUT, [END] + rest);
    EncodeStep(usage, [INPUT] + ([END] + rest));
    EncodeStep(APPLICATION, [usage] + ([INPUT] + ([END] + rest)));
  }

  /** The bytes of the descriptor. */
  lemma SplitReportBytes()
    ensures Items(SPLIT_REPORT, 0) == SplitReport() && IsComplete(SPLIT_REPORT, 0)
  {
    hide Items, IsComplete, Encode, OneField;
    var second := OneField(GESTURE_DATA, []);
    OneFieldBytes(GESTURE_DATA, []);
    OneFieldBytes(SCAN_TIME, second);
    EncodeStep(DIGITIZER_PAGE, OneField(SCAN_TIME, second));
    assert Bytes(DIGITIZER_PAGE) == [0x05, 0x0D] && Bytes(SCAN_TIME) == [0x09, 0x56]
        && Bytes(GESTURE_DATA) == [0x09, 0x61];
    NothingEncoded();
    assert Encode(SplitReport()) == SPLIT_REPORT;
    assert [] + Encode(SplitReport()) == Encode(SplitReport());
    ItemsRoundTrip([], SplitReport());
  }

  lemma NothingEncoded()
    ensures Encode([]) == []
  {
  }

  /** A touch data report that is split over two collections is found by the flat parser, and not by the tree parser. */
  lemma SplitReportIsMissed()
    ensures Items(SPLIT_REPORT, 0) == SplitReport() && IsComplete(SPLIT_REPORT, 0)
    ensures T.TreeRun(T.INITIAL, SplitReport()).Some?
    ensures TableFindsTouchData(SplitReport()) && !TreeFindsTouchData(SplitReport())
  {
    hide T.TreeRun, F.FlatRun, OneField, T.AllReports, Items, IsComplete;
    SplitReportBytes();
    var scan, gesture := OneReport(F.USAGE_SCAN_TIME), OneReport(F.USAGE_GESTURE_DATA);
    TreeStepped(T.INITIAL, DIGITIZER_PAGE, OneField(SCAN_TIME, OneField(GESTURE_DATA, [])));
    assert T.TreeStep(T.INITIAL, DIGITIZER_PAGE) == Some(Between([]));
    TreeReadsField([], SCAN_TIME, F.USAGE_SCAN_TIME, OneField(GESTURE_DATA, []));
    assert [] + [scan] == [scan] && [scan] + [gesture] == [scan, gesture];
    TreeReadsField([scan], GESTURE_DATA, F.USAGE_GESTURE_DATA, []);
    FlatStepped(F.INITIAL, DIGITIZER_PAGE, OneField(SCAN_TIME, OneField(GESTURE_DATA, [])));
    assert F.FlatStep(F.INITIAL, DIGITIZER_PAGE) == TableOf([]);
    TableReadsField([], SCAN_TIME, F.USAGE_SCAN_TIME, OneField(GESTURE_DATA, []));
    assert [] + [F.USAGE_SCAN_TIME] == [F.USAGE_SCAN_TIME];
    TableReadsField([F.USAGE_SCAN_TIME], GESTURE_DATA, F.USAGE_GESTURE_DATA, []);
    NoMoreItems(Between([scan, gesture]), TableOf(InputReport([F.USAGE_SCAN_TIME] + [F.USAGE_GESTURE_DATA])));
    assert F.IsTouchData(Table(SplitReport())[0]);
    NoWholeReport(scan, gesture);
  }

  lemma NoWholeReport(scan: T.Collection, gesture: T.Collection)
    requires scan == OneReport(F.USAGE_SCAN_TIME) && gesture == OneReport(F.USAGE_GESTURE_DATA)
    ensures forall r | r in T.AllReports(Between([scan, gesture]).collection) :: !TreeTouchData(r)
  {
    assert T.AllReports(scan) == scan.reports && T.AllReports(gesture) == gesture.reports;
    assert [scan, gesture][..1] == [scan] && [scan][..0] == [];
    assert T.ReportsInside([scan]) == scan.reports;
    assert T.ReportsInside([scan, gesture]) == scan.reports + gesture.reports;
    assert !scan.reports[0].HasUsage(F.USAGE_GESTURE_DATA);
    assert !gesture.reports[0].HasUsage(F.USAGE_SCAN_TIME);
  }

  // ---------------------------------------------------------------- a descriptor that is cut off

  const ONE_BYTE := Item(0x75, 8)

  /** A set-mode report of one byte, and a report with both usages of touch data. */
  const MINIMAL: seq<Byte> :=
    [0x06, 0x00, 0xFF, 0x75, 0x08, 0x95, 0x01, 0x09, 0xC8, 0xB1, 0x02, 0x05, 0x0D, 0x09, 0x56, 0x81, 0x02, 0x09, 0x61,
        0x81, 0x02]

  function SetModeItems(rest: seq<Item>): seq<Item> {
    [VENDOR_PAGE] + ([ONE_BYTE] + ([ONCE] + ([SET_MODE] + ([FEATURE] + rest))))
  }

  function TouchItems(): seq<Item> {
    [DIGITIZER_PAGE] + ([SCAN_TIME] + ([INPUT] + ([GESTURE_DATA] + ([INPUT] + []))))
  }

  lemma MinimalBytes()
    ensures Items(MINIMAL, 0) == SetModeItems(TouchItems()) && IsComplete(MINIMAL, 0)
  {
    hide Items, IsComplete, Encode;
    SetModeBytes(TouchItems());
    TouchBytes();
    assert Encode(SetModeItems(TouchItems())) == MINIMAL;
    assert [] + Encode(SetModeItems(TouchItems())) == Encode(SetModeItems(TouchItems()));
    ItemsRoundTrip([], SetModeItems(TouchItems()));
  }

  lemma SetModeBytes(rest: seq<Item>)
    requires forall r | r in rest :: HidDetection.Fits(r)
    ensures forall r | r in SetModeItems(rest) :: HidDetection.Fits(r)
    ensures Encode(SetModeItems(rest)) ==
              [0x06, 0x00, 0xFF, 0x75, 0x08, 0x95, 0x01, 0x09, 0xC8, 0xB1, 0x02] + Encode(rest)
  {
    hide Encode;
    assert Bytes(VENDOR_PAGE) == [0x06, 0x00, 0xFF] && Bytes(ONE_BYTE) == [0x75, 0x08] && Bytes(ONCE) == [0x95, 0x01];
    assert Bytes(SET_MODE) == [0x09, 0xC8] && Bytes(FEATURE) == [0xB1, 0x02];
    EncodeStep(FEATURE, rest);
    EncodeStep(SET_MODE, [FEATURE] + rest);
    EncodeStep(ONCE, [SET_MODE] + ([FEATURE] + rest));
    EncodeStep(ONE_BYTE, [ONCE] + ([SET_MODE] + ([FEATURE] + rest)));
    EncodeStep(VENDOR_PAGE, [ONE_BYTE] + ([ONCE] + ([SET_MODE] + ([FEATURE] + rest))));
  }

  lemma TouchBytes()
    ensures forall r | r in TouchItems() :: HidDetection.Fits(r)
    ensures Encode(TouchItems()) == [0x05, 0x0D, 0x09, 0x56, 0x81, 0x02, 0x09, 0x61, 0x81, 0x02]
  {
    hide Encode;
    assert Bytes(DIGITIZER_PAGE) == [0x05, 0x0D] && Bytes(SCAN_TIME) == [0x09, 0x56]
        && Bytes(GESTURE_DATA) == [0x09, 0x61];
    assert Bytes(INPUT) == [0x81, 0x02];
    NothingEncoded();
    EncodeStep(INPUT, []);
    EncodeStep(GESTURE_DATA, [INPUT] + []);
    EncodeStep(INPUT, [GESTURE_DATA] + ([INPUT] + []));
    EncodeStep(SCAN_TIME, [INPUT] + ([GESTURE_DATA] + ([INPUT] + [])));
    EncodeStep(DIGITIZER_PAGE, [SCAN_TIME] + ([INPUT] + ([GESTURE_DATA] + ([INPUT] + []))));
  }

  const MODE_REPORT := F.FlatReport(Feature, 0, false, 8, [F.USAGE_SET_MODE])

  /** The flat parser with a table of its own, between two reports. */
  function Between8(page: nat, reports: seq<F.FlatReport>): F.FlatState {
    F.FlatState(page, 0, false, 1, 8, 0, [], reports, false, false)
  }

  lemma SetModeTable(rest: seq<Item>)
    ensures F.FlatRun(F.INITIAL, SetModeItems(rest)) == F.FlatRun(Between8(PAGE, [MODE_REPORT]), rest)
  {
    hide F.FlatRun, F.AddField;
    var s := F.INITIAL;
    FlatStepped(s, VENDOR_PAGE, [ONE_BYTE] + ([ONCE] + ([SET_MODE] + ([FEATURE] + rest))));
    var t := s.(page := PAGE);
    assert F.FlatStep(s, VENDOR_PAGE) == t;
    FlatStepped(t, ONE_BYTE, [ONCE] + ([SET_MODE] + ([FEATURE] + rest)));
    var u := t.(size := 8);
    assert F.FlatStep(t, ONE_BYTE) == u;
    FlatStepped(u, ONCE, [SET_MODE] + ([FEATURE] + rest));
    var v := u.(count := 1);
    assert F.FlatStep(u, ONCE) == v;
    FlatStepped(v, SET_MODE, [FEATURE] + rest);
    var w := v.(usage := F.USAGE_SET_MODE);
    assert F.FlatStep(v, SET_MODE) == w;
    FlatStepped(w, FEATURE, rest);
    ModeReportAdded(w);
  }

  lemma ModeReportAdded(w: F.FlatState)
    requires w == F.FlatState(PAGE, 0, false, 1, 8, F.USAGE_SET_MODE, [], [], false, false)
    ensures F.FlatStep(w, FEATURE) == Between8(PAGE, [MODE_REPORT])
  {
    assert [] + [F.USAGE_SET_MODE] == [F.USAGE_SET_MODE];
    assert F.FlatReport(Feature, 0, false, 0, []).Add(8, F.USAGE_SET_MODE) == MODE_REPORT;
    assert F.FlatStep(w, FEATURE).reports == [MODE_REPORT];
  }

  /** One field more for the report that follows the set-mode report. */
  lemma TouchField(reports: seq<F.FlatReport>, item: Item, usage: nat, after: F.FlatReport, rest: seq<Item>)
    requires (item == SCAN_TIME && usage == F.USAGE_SCAN_TIME)
              || (item == GESTURE_DATA && usage == F.USAGE_GESTURE_DATA)
    requires reports == [MODE_REPORT] || exists r :: reports == [MODE_REPORT, r] && r.Key() == Key(Input, None)
    requires after == (if |reports| == 1 then F.FlatReport(Input, 0, false, 0, []) else reports[1]).Add(8, usage)
    ensures F.FlatRun(Between8(DIGITIZERS, reports), [item] + ([INPUT] + rest)) ==
            F.FlatRun(Between8(DIGITIZERS, [MODE_REPORT, after]), rest)
  {
    hide F.FlatRun, F.FlatReport.Add;
    var s := Between8(DIGITIZERS, reports);
    FlatStepped(s, item, [INPUT] + rest);
    var t := s.(usage := usage);
    assert F.FlatStep(s, item) == t;
    FlatStepped(t, INPUT, rest);
    assert F.FlatStep(t, INPUT).reports == [MODE_REPORT, after];
    assert F.FlatStep(t, INPUT) == Between8(DIGITIZERS, [MODE_REPORT, after]);
  }

  lemma MinimalTable() returns (touch: F.FlatReport)
    ensures F.FlatRun(F.INITIAL, SetModeItems(TouchItems())) == Between8(DIGITIZERS, [MODE_REPORT, touch])
    ensures F.IsTouchData(touch) && F.IsModesetting(MODE_REPORT)
  {
    hide F.FlatRun;
    SetModeTable(TouchItems());
    var rest := [SCAN_TIME] + ([INPUT] + ([GESTURE_DATA] + ([INPUT] + [])));
    FlatStepped(Between8(PAGE, [MODE_REPORT]), DIGITIZER_PAGE, rest);
    assert F.FlatStep(Between8(PAGE, [MODE_REPORT]), DIGITIZER_PAGE) == Between8(DIGITIZERS, [MODE_REPORT]);
    var scan := F.FlatReport(Input, 0, false, 0, []).Add(8, F.USAGE_SCAN_TIME);
    TouchField([MODE_REPORT], SCAN_TIME, F.USAGE_SCAN_TIME, scan, [GESTURE_DATA] + ([INPUT] + []));
    touch := scan.Add(8, F.USAGE_GESTURE_DATA);
    assert scan.usages == [F.USAGE_SCAN_TIME];
    assert touch.usages == [F.USAGE_SCAN_TIME, F.USAGE_GESTURE_DATA];
    TouchField([MODE_REPORT, scan], GESTURE_DATA, F.USAGE_GESTURE_DATA, touch, []);
    NoMoreItems(T.INITIAL, Between8(DIGITIZERS, [MODE_REPORT, touch]));
  }

  /** With one byte more at its end, the descriptor is cut off: the flat parser still accepts the device, the tree
      parser rejects it. */
  lemma CutOffIsAccepted()
    ensures FlatVerdict(MINIMAL + [0x75]) == Accepted(None)
    ensures TreeVerdict(MINIMAL + [0x75]) == Rejected
  {
    hide Items, IsComplete, F.FlatRun, T.TreeRun, SetModeItems, TouchItems, CompletePart;
    var desc := MINIMAL + [0x75];
    MinimalBytes();
    OneByteMore(MINIMAL, desc, 0);
    CutOffDescriptor(desc);
    var touch := MinimalTable();
    var table := Table(Items(MINIMAL, 0));
    assert table == [MODE_REPORT, touch];
    assert table[0] in table && table[1] in table;
    assert desc[..|MINIMAL|] == MINIMAL;
  }

  /** A header byte that announces a payload cuts a complete descriptor off. */
  lemma {:induction false} OneByteMore(desc: seq<Byte>, more: seq<Byte>, pos: nat)
    requires pos <= |desc| && IsComplete(desc, pos) && more == desc + [0x75]
    ensures !IsComplete(more, pos) && CompletePart(more, pos) == |desc|
    decreases |desc| - pos
  {
    hide Items, IsComplete, CompletePart;
    ItemsUnfold(desc, pos);
    ItemsUnfold(more, pos);
    if pos < |desc| {
      assert more[pos] == desc[pos];
      OneByteMore(desc, more, pos + 1 + PayloadSize(desc[pos]));
    } else {
      assert more[pos] == 0x75;
    }
  }
}
