/** The tree parser and the flat parser compared: what the table of the one and the tree of the other say
    about the reports, and when both recognise the same devices. */
module HidSimulation {
  import opened Common
  import opened HidItems
  import F = HidFlat
  import T = HidTree

  // ---------------------------------------------------------------- orders do not matter

  lemma {:induction false} BitsWithout(fs: seq<Field>, i: nat, k: Key)
    requires i < |fs|
    ensures BitsOf(fs, k) == BitsOf(fs[..i] + fs[i + 1..], k) + if fs[i].key == k then fs[i].Bits() else 0
  {
    var n := |fs| - 1;
    var rest := fs[..i] + fs[i + 1..];
    if i == n {
      assert rest == fs[..n];
    } else {
      BitsWithout(fs[..n], i, k);
      assert rest[..n - 1] == fs[..n][..i] + fs[..n][i + 1..];
    }
  }

  /** The usage of one field, if it is listed for the key. */
  ghost function Own(f: Field, k: Key): multiset<nat> {
    if f.key == k && f.usage != 0 then multiset{f.usage} else multiset{}
  }

  ghost function UsageBag(fs: seq<Field>, k: Key): multiset<nat> {
    multiset(UsagesOf(fs, k))
  }

  lemma UsageBagSplits(fs: seq<Field>, k: Key)
    requires fs != []
    ensures UsageBag(fs, k) == UsageBag(fs[..|fs| - 1], k) + Own(fs[|fs| - 1], k)
  {
  }

  lemma {:induction false} UsagesWithout(fs: seq<Field>, i: nat, k: Key)
    requires i < |fs|
    ensures UsageBag(fs, k) == UsageBag(fs[..i] + fs[i + 1..], k) + Own(fs[i], k)
  {
    hide UsageBag, Own;
    var n := |fs| - 1;
    var rest := fs[..i] + fs[i + 1..];
    UsageBagSplits(fs, k);
    if i == n {
      assert rest == fs[..n];
    } else {
      UsagesWithout(fs[..n], i, k);
      assert rest[..n - 1] == fs[..n][..i] + fs[..n][i + 1..];
      UsageBagSplits(rest, k);
    }
  }

  /** The last element of `a` somewhere in `b`, and both sequences without it. */
  lemma RemoveLast(a: seq<Field>, b: seq<Field>) returns (i: nat)
    requires a != [] && multiset(a) == multiset(b)
    ensures i < |b| && b[i] == a[|a| - 1]
    ensures multiset(a[..|a| - 1]) == multiset(b[..i] + b[i + 1..])
  {
    var n := |a| - 1;
    assert a[n] in multiset(a);
    assert a[n] in multiset(b);
    i :| 0 <= i < |b| && b[i] == a[n];
    assert a == a[..n] + [a[n]];
    assert b == b[..i] + [b[i]] + b[i + 1..];
    assert multiset(a) == multiset(a[..n]) + multiset{a[n]};
    assert multiset(b) == multiset(b[..i]) + multiset{b[i]} + multiset(b[i + 1..]);
    assert multiset(b[..i] + b[i + 1..]) == multiset(b[..i]) + multiset(b[i + 1..]);
    assert multiset(a[..n]) == multiset(a) - multiset{a[n]};
  }

  /** Size and usages of a report depend only on how often each field occurs. */
  lemma {:induction false} OrderIrrelevant(a: seq<Field>, b: seq<Field>, k: Key)
    requires multiset(a) == multiset(b)
    ensures BitsOf(a, k) == BitsOf(b, k)
    ensures UsageBag(a, k) == UsageBag(b, k)
  {
    hide UsageBag, BitsOf, Own;
    if a == [] {
      assert |multiset(b)| == 0;
    } else {
      var n := |a| - 1;
      var i := RemoveLast(a, b);
      OrderIrrelevant(a[..n], b[..i] + b[i + 1..], k);
      BitsWithout(b, i, k);
      UsagesWithout(b, i, k);
      BitsWithout(a, n, k);
      UsagesWithout(a, n, k);
      assert a[..n] + a[n + 1..] == a[..n];
    }
  }

  // ---------------------------------------------------------------- what the tree says about a report

  /** The fields of all reports of a tree, in the order a search visits them. */
  ghost function AllFields(rs: seq<T.Report>): seq<Field> {
    if rs == [] then [] else AllFields(rs[..|rs| - 1]) + T.Declared(rs[|rs| - 1])
  }

  lemma {:induction false} FieldBagIsMultiset(rs: seq<T.Report>)
    ensures multiset(AllFields(rs)) == T.FieldBag(rs)
  {
    if rs != [] {
      FieldBagIsMultiset(rs[..|rs| - 1]);
    }
  }

  /** The bits of all reports with a key, wherever they are in the tree. */
  ghost function TreeBits(rs: seq<T.Report>, k: Key): nat {
    if rs == [] then 0
    else TreeBits(rs[..|rs| - 1], k) + if rs[|rs| - 1].Key() == k then T.BitSum(rs[|rs| - 1].fields) else 0
  }

  lemma {:induction false} BitsOfSum(a: seq<Field>, b: seq<Field>, k: Key)
    ensures BitsOf(a + b, k) == BitsOf(a, k) + BitsOf(b, k)
  {
    if b == [] {
      assert a + b == a;
    } else {
      assert (a + b)[..|a + b| - 1] == a + b[..|b| - 1];
      BitsOfSum(a, b[..|b| - 1], k);
    }
  }

  lemma {:induction false} DeclaredBits(r: T.Report, fields: seq<T.TreeField>, k: Key)
    requires fields <= r.fields
    ensures BitsOf(T.Declared(r)[..|fields|], k) == if r.Key() == k then T.BitSum(fields) else 0
  {
    if fields != [] {
      var n := |fields| - 1;
      DeclaredBits(r, fields[..n], k);
      assert T.Declared(r)[..|fields|][..n] == T.Declared(r)[..n];
      assert T.Declared(r)[..|fields|][n] == T.FieldIn(r, fields[n]);
      SameSize(r, fields[n]);
    }
  }

  lemma SameSize(r: T.Report, f: T.TreeField)
    ensures T.FieldIn(r, f).Bits() == f.Bits()
  {
  }

  lemma {:induction false} TreeBitsAreFieldBits(rs: seq<T.Report>, k: Key)
    ensures BitsOf(AllFields(rs), k) == TreeBits(rs, k)
  {
    if rs != [] {
      var n := |rs| - 1;
      TreeBitsAreFieldBits(rs[..n], k);
      BitsOfSum(AllFields(rs[..n]), T.Declared(rs[n]), k);
      DeclaredBits(rs[n], rs[n].fields, k);
      assert T.Declared(rs[n])[..|rs[n].fields|] == T.Declared(rs[n]);
    }
  }

  // ---------------------------------------------------------------- the simulation

  /** Both parsers can read the descriptor: balanced, no item that only one of them knows, within capacity. */
  ghost predicate Comparable(items: seq<Item>) {
    && (forall it | it in items :: T.IsPlain(it))
    && T.BalancedFrom(0, items)
    && F.Fits(Fields(START, items))
  }

  ghost function Tree(items: seq<Item>): T.Collection
    requires T.TreeRun(T.INITIAL, items).Some?
  {
    T.TreeRun(T.INITIAL, items).value.collection
  }

  ghost function Table(items: seq<Item>): seq<F.FlatReport> {
    F.FlatRun(F.INITIAL, items).reports
  }

  /** For each key the table has one report, if the tree has any field with that key: its size is the size of
      all reports with the key in the tree, modulo 2^32, and its usages are the non-zero usages of their fields. */
  lemma TableSummarisesTree(items: seq<Item>, k: Key)
    requires Comparable(items)
    ensures T.TreeRun(T.INITIAL, items).Some?
    ensures var rs := T.AllReports(Tree(items));
            var i := F.Find(Table(items), k);
            && (i < |Table(items)| <==> k in Keys(AllFields(rs)))
            && (forall j | 0 <= j < |Table(items)| && j != i :: Table(items)[j].Key() != k)
            && (i < |Table(items)| ==>
                  && Table(items)[i].totalBits == TreeBits(rs, k) % TWO32
                  && multiset(Table(items)[i].usages) == multiset(UsagesOf(AllFields(rs), k)))
  {
    hide T.TreeRun, F.FlatRun, Fields, T.AllReports, T.FieldBag, AllFields, T.IsPlain, F.Fits, T.BalancedFrom;
    T.TreeParserKeepsFields(items);
    F.FlatParserGroupsFields(items);
    var rs, fs, table := T.AllReports(Tree(items)), Fields(START, items), Table(items);
    FieldBagIsMultiset(rs);
    TreeBitsAreFieldBits(rs, k);
    OrderIrrelevant(fs, AllFields(rs), k);
    SameKeys(fs, AllFields(rs));
    GroupFor(table, fs, k);
  }

  lemma SameKeys(a: seq<Field>, b: seq<Field>)
    requires multiset(a) == multiset(b)
    ensures Keys(a) == Keys(b)
  {
    forall f
      ensures f in a <==> f in b
    {
      assert f in a <==> f in multiset(a);
      assert f in b <==> f in multiset(b);
    }
  }

  lemma GroupFor(table: seq<F.FlatReport>, fs: seq<Field>, k: Key)
    requires F.Groups(table, fs)
    ensures var i := F.Find(table, k);
            && (i < |table| <==> k in Keys(fs))
            && (forall j | 0 <= j < |table| && j != i :: table[j].Key() != k)
            && (i < |table| ==> table[i].totalBits == BitsOf(fs, k) % TWO32 && table[i].usages == UsagesOf(fs, k))
  {
    hide BitsOf, UsagesOf, Keys;
    var i := F.Find(table, k);
    if i < |table| {
      assert F.Describes(table[i], fs);
    }
    forall j | 0 <= j < |table| && j != i
      ensures table[j].Key() != k
    {
      if j > i {
        assert table[i].Key() == k;
      }
    }
  }

  // ---------------------------------------------------------------- detection

  predicate TreeTouchData(r: T.Report) {
    r.kind == Input && r.HasUsage(F.USAGE_SCAN_TIME) && r.HasUsage(F.USAGE_GESTURE_DATA)
  }

  predicate TreeSetMode(r: T.Report) {
    r.kind == Feature && r.Bytes() == 1 && r.HasUsage(F.USAGE_SET_MODE)
  }

  /** Each key is used in one collection only. */
  ghost predicate KeysOnce(rs: seq<T.Report>) {
    forall i, j | 0 <= i < j < |rs| :: rs[i].Key() != rs[j].Key()
  }

  /** The sizes of feature reports are whole bytes and fit into 32 bits. */
  ghost predicate WholeBytes(rs: seq<T.Report>) {
    forall r | r in rs && r.kind == Feature :: T.BitSum(r.fields) % 8 == 0 && T.BitSum(r.fields) < TWO32
  }

  lemma {:induction false} FieldOfReport(rs: seq<T.Report>, f: Field)
    ensures f in AllFields(rs) <==> exists r, t :: r in rs && t in r.fields && T.FieldIn(r, t) == f
  {
    if rs != [] {
      var n := |rs| - 1;
      FieldOfReport(rs[..n], f);
      assert rs == rs[..n] + [rs[n]];
      var d := T.Declared(rs[n]);
      if f in d {
        var i :| 0 <= i < |d| && d[i] == f;
        assert rs[n].fields[i] in rs[n].fields && T.FieldIn(rs[n], rs[n].fields[i]) == f;
      }
      if exists t :: t in rs[n].fields && T.FieldIn(rs[n], t) == f {
        var t :| t in rs[n].fields && T.FieldIn(rs[n], t) == f;
        var i :| 0 <= i < |rs[n].fields| && rs[n].fields[i] == t;
        assert d[i] == f;
      }
    }
  }

  /** The table lists a usage for a key exactly if some report with that key in the tree has it. */
  lemma ListedUsage(items: seq<Item>, k: Key, u: nat)
    requires Comparable(items) && u != 0
    ensures T.TreeRun(T.INITIAL, items).Some?
    ensures (exists r :: r in Table(items) && r.Key() == k && u in r.usages) <==>
            (exists r :: r in T.AllReports(Tree(items)) && r.Key() == k && r.HasUsage(u))
  {
    hide Comparable, F.FlatRun, T.TreeRun, T.AllReports;
    TableSummarisesTree(items, k);
    TreeHasNoRanges(items);
    var rs, table := T.AllReports(Tree(items)), Table(items);
    UsageInTree(rs, k, u);
    KeyOfField(AllFields(rs), k, u);
    UsageIsListed(AllFields(rs), k, u);
    var i := F.Find(table, k);
    if i < |table| {
      assert u in table[i].usages <==> u in multiset(table[i].usages);
      assert u in UsagesOf(AllFields(rs), k) <==> u in multiset(UsagesOf(AllFields(rs), k));
      assert table[i] in table && table[i].Key() == k;
    }
  }

  lemma KeyOfField(fs: seq<Field>, k: Key, u: nat)
    ensures (exists f :: f in fs && f.key == k && f.usage == u) ==> k in Keys(fs)
  {
  }

  lemma TreeHasNoRanges(items: seq<Item>)
    requires Comparable(items)
    ensures T.TreeRun(T.INITIAL, items).Some?
    ensures T.AllRangeFree(T.AllReports(Tree(items)))
  {
    hide T.TreeRun, T.BalancedFrom, T.IsPlain, Fields, F.Fits;
    T.TreeParserKeepsFields(items);
    assert T.StateRangeFree(T.INITIAL);
    T.TreeRunRangeFree(T.INITIAL, items);
  }

  lemma UsageInTree(rs: seq<T.Report>, k: Key, u: nat)
    requires T.AllRangeFree(rs)
    ensures (exists f :: f in AllFields(rs) && f.key == k && f.usage == u) <==>
              (exists r :: r in rs && r.Key() == k && r.HasUsage(u))
  {
    hide AllFields;
    if exists f :: f in AllFields(rs) && f.key == k && f.usage == u {
      var f :| f in AllFields(rs) && f.key == k && f.usage == u;
      FieldOfReport(rs, f);
      var r, t :| r in rs && t in r.fields && T.FieldIn(r, t) == f;
      assert t.HasUsage(u);
      assert r in rs && r.Key() == k && r.HasUsage(u);
    }
    if exists r :: r in rs && r.Key() == k && r.HasUsage(u) {
      var r :| r in rs && r.Key() == k && r.HasUsage(u);
      var t :| t in r.fields && t.HasUsage(u);
      assert T.RangeFree(r);
      var f := T.FieldIn(r, t);
      FieldOfReport(rs, f);
      assert f in AllFields(rs) && f.key == k && f.usage == u;
    }
  }

  lemma SameReport(rs: seq<T.Report>, a: T.Report, b: T.Report)
    requires KeysOnce(rs) && a in rs && b in rs && a.Key() == b.Key()
    ensures a == b
  {
    var i :| 0 <= i < |rs| && rs[i] == a;
    var j :| 0 <= j < |rs| && rs[j] == b;
    assert i == j;
  }

  ghost predicate TableFindsTouchData(items: seq<Item>) {
    exists r :: r in Table(items) && F.IsTouchData(r)
  }

  ghost predicate TreeFindsTouchData(items: seq<Item>)
    requires T.TreeRun(T.INITIAL, items).Some?
  {
    exists r :: r in T.AllReports(Tree(items)) && TreeTouchData(r)
  }

  ghost predicate TableFindsSetMode(items: seq<Item>) {
    exists r :: r in Table(items) && F.IsModesetting(r)
  }

  ghost predicate TreeFindsSetMode(items: seq<Item>)
    requires T.TreeRun(T.INITIAL, items).Some?
  {
    exists r :: r in T.AllReports(Tree(items)) && TreeSetMode(r)
  }

  lemma OneReportPerKey(items: seq<Item>, a: F.FlatReport, b: F.FlatReport)
    requires Comparable(items)
    requires a in Table(items) && b in Table(items) && a.Key() == b.Key()
    ensures a == b
  {
    hide Comparable, F.FlatRun;
    TableSummarisesTree(items, a.Key());
    var table := Table(items);
    var i :| 0 <= i < |table| && table[i] == a;
    var j :| 0 <= j < |table| && table[j] == b;
    assert i == F.Find(table, a.Key()) == j;
  }

  /** A touch data report in the tree is also found in the table. */
  lemma TouchDataIsFound(items: seq<Item>)
    requires Comparable(items)
    ensures T.TreeRun(T.INITIAL, items).Some?
    ensures TreeFindsTouchData(items) ==> TableFindsTouchData(items)
  {
    hide Comparable, F.FlatRun, T.TreeRun, T.AllReports;
    TreeHasNoRanges(items);
    if TreeFindsTouchData(items) {
      var r :| r in T.AllReports(Tree(items)) && TreeTouchData(r);
      ListedUsage(items, r.Key(), F.USAGE_SCAN_TIME);
      ListedUsage(items, r.Key(), F.USAGE_GESTURE_DATA);
      var a :| a in Table(items) && a.Key() == r.Key() && F.USAGE_SCAN_TIME in a.usages;
      var b :| b in Table(items) && b.Key() == r.Key() && F.USAGE_GESTURE_DATA in b.usages;
      OneReportPerKey(items, a, b);
      assert F.IsTouchData(a);
    }
  }

  /** If no report is spread over several collections, both find touch data or neither does. */
  lemma TouchDataAgrees(items: seq<Item>)
    requires Comparable(items) && T.TreeRun(T.INITIAL, items).Some? && KeysOnce(T.AllReports(Tree(items)))
    ensures TreeFindsTouchData(items) <==> TableFindsTouchData(items)
  {
    hide Comparable, F.FlatRun, T.TreeRun, T.AllReports, KeysOnce;
    TouchDataIsFound(items);
    if TableFindsTouchData(items) {
      var r :| r in Table(items) && F.IsTouchData(r);
      ListedUsage(items, r.Key(), F.USAGE_SCAN_TIME);
      ListedUsage(items, r.Key(), F.USAGE_GESTURE_DATA);
      var rs := T.AllReports(Tree(items));
      var a :| a in rs && a.Key() == r.Key() && a.HasUsage(F.USAGE_SCAN_TIME);
      var b :| b in rs && b.Key() == r.Key() && b.HasUsage(F.USAGE_GESTURE_DATA);
      SameReport(rs, a, b);
      assert TreeTouchData(a);
    }
  }

  lemma {:induction false} BitsOfOnlyReport(rs: seq<T.Report>, r: T.Report)
    requires KeysOnce(rs)
    ensures TreeBits(rs, r.Key()) == if r in rs then T.BitSum(r.fields) else TreeBits(rs, r.Key())
  {
    if rs != [] && r in rs {
      var n := |rs| - 1;
      assert rs == rs[..n] + [rs[n]];
      if r == rs[n] {
        NoBits(rs[..n], r.Key());
      } else {
        BitsOfOnlyReport(rs[..n], r);
        var i :| 0 <= i < |rs| && rs[i] == r;
        assert rs[i].Key() != rs[n].Key();
      }
    }
  }

  lemma {:induction false} NoBits(rs: seq<T.Report>, k: Key)
    requires forall r | r in rs :: r.Key() != k
    ensures TreeBits(rs, k) == 0
  {
    if rs != [] {
      NoBits(rs[..|rs| - 1], k);
    }
  }

  /** With whole bytes, one byte is eight bits, wrapped or not. */
  lemma OneByte(r: T.Report)
    requires T.BitSum(r.fields) % 8 == 0 && T.BitSum(r.fields) < TWO32
    ensures r.Bytes() == 1 <==> T.BitSum(r.fields) % TWO32 == 8
  {
  }

  lemma SetModeReport(items: seq<Item>, t: T.Report, a: F.FlatReport)
    requires Comparable(items) && T.TreeRun(T.INITIAL, items).Some?
    requires KeysOnce(T.AllReports(Tree(items))) && WholeBytes(T.AllReports(Tree(items)))
    requires t in T.AllReports(Tree(items)) && a in Table(items) && t.Key() == a.Key()
    requires t.kind == Feature
    ensures t.Bytes() == 1 <==> a.totalBits == 8
  {
    hide Comparable, F.FlatRun, T.TreeRun, T.AllReports, KeysOnce, TreeBits;
    TableSummarisesTree(items, t.Key());
    BitsOfOnlyReport(T.AllReports(Tree(items)), t);
    OneByte(t);
  }

  /** If also the sizes are whole bytes, both find a set-mode report or neither does. */
  lemma SetModeAgrees(items: seq<Item>)
    requires Comparable(items) && T.TreeRun(T.INITIAL, items).Some?
    requires KeysOnce(T.AllReports(Tree(items))) && WholeBytes(T.AllReports(Tree(items)))
    ensures TreeFindsSetMode(items) <==> TableFindsSetMode(items)
  {
    hide Comparable, F.FlatRun, T.TreeRun, T.AllReports, KeysOnce, WholeBytes;
    if TreeFindsSetMode(items) {
      var t :| t in T.AllReports(Tree(items)) && TreeSetMode(t);
      ListedUsage(items, t.Key(), F.USAGE_SET_MODE);
      var a :| a in Table(items) && a.Key() == t.Key() && F.USAGE_SET_MODE in a.usages;
      SetModeReport(items, t, a);
      assert F.IsModesetting(a);
    }
    if TableFindsSetMode(items) {
      var a :| a in Table(items) && F.IsModesetting(a);
      ListedUsage(items, a.Key(), F.USAGE_SET_MODE);
      var t :| t in T.AllReports(Tree(items)) && t.Key() == a.Key() && t.HasUsage(F.USAGE_SET_MODE);
      SetModeReport(items, t, a);
      assert TreeSetMode(t);
    }
  }

  // ---------------------------------------------------------------- device type

  ghost predicate TreeHas(items: seq<Item>, usage: nat)
    requires T.TreeRun(T.INITIAL, items).Some?
  {
    exists o :: o in T.Inside(Tree(items).collections) && o.usage == usage
  }

  /** The two digitizer usages are given to Application collections only. */
  ghost predicate DigitizersAreApplications(items: seq<Item>) {
    forall o | o in Openings(START, items) && (o.usage == F.USAGE_TOUCHSCREEN || o.usage == F.USAGE_TOUCHPAD) ::
      o.payload == F.APPLICATION
  }

  /** The flags of the flat parser tell exactly whether the tree has such an Application collection; the search
      of the tree does not ask for the collection type, so it agrees if only Application collections qualify. */
  lemma CollectionsAgree(items: seq<Item>)
    requires Comparable(items)
    ensures T.TreeRun(T.INITIAL, items).Some?
    ensures F.FlatRun(F.INITIAL, items).touchscreen <==>
            Opening(F.APPLICATION, F.USAGE_TOUCHSCREEN) in T.Inside(Tree(items).collections)
    ensures F.FlatRun(F.INITIAL, items).touchpad <==>
            Opening(F.APPLICATION, F.USAGE_TOUCHPAD) in T.Inside(Tree(items).collections)
    ensures DigitizersAreApplications(items) ==>
              && (F.FlatRun(F.INITIAL, items).touchscreen <==> TreeHas(items, F.USAGE_TOUCHSCREEN))
              && (F.FlatRun(F.INITIAL, items).touchpad <==> TreeHas(items, F.USAGE_TOUCHPAD))
  {
    hide T.TreeRun, F.FlatRun, Fields, Openings, T.IsPlain, F.Fits, T.BalancedFrom, T.Inside;
    T.TreeParserKeepsFields(items);
    F.FlatParserGroupsFields(items);
    RecordedApplication(Openings(START, items), F.USAGE_TOUCHSCREEN);
    RecordedApplication(Openings(START, items), F.USAGE_TOUCHPAD);
  }

  lemma RecordedApplication(os: seq<Opening>, usage: nat)
    ensures Opening(F.APPLICATION, usage) in T.Recorded(os) <==> Opening(F.APPLICATION, usage) in os
    ensures (forall o | o in os && o.usage == usage :: o.payload == F.APPLICATION) ==>
              ((exists o :: o in T.Recorded(os) && o.usage == usage) <==> Opening(F.APPLICATION, usage) in os)
  {
    var app := Opening(F.APPLICATION, usage);
    if app in T.Recorded(os) {
      var o :| o in os && app == Opening(T.ParseType(o.payload), o.usage);
      assert o == app;
    }
    if app in os {
      assert app == Opening(T.ParseType(app.payload), app.usage);
      assert app in T.Recorded(os);
    }
  }

  /** Both parsers accept the same devices, and agree on their type, for descriptors that do not spread a report
      over several collections, have feature reports of whole bytes and mark digitizers on Application collections. */
  lemma DetectorsAgree(items: seq<Item>)
    requires Comparable(items) && T.TreeRun(T.INITIAL, items).Some?
    requires KeysOnce(T.AllReports(Tree(items))) && WholeBytes(T.AllReports(Tree(items)))
    requires DigitizersAreApplications(items)
    ensures (TreeFindsSetMode(items) && TreeFindsTouchData(items)) <==>
              (TableFindsSetMode(items) && TableFindsTouchData(items))
    ensures var s := F.FlatRun(F.INITIAL, items);
            && (s.touchscreen && !s.touchpad <==>
                 TreeHas(items, F.USAGE_TOUCHSCREEN) && !TreeHas(items, F.USAGE_TOUCHPAD))
            && (s.touchpad && !s.touchscreen <==>
                 TreeHas(items, F.USAGE_TOUCHPAD) && !TreeHas(items, F.USAGE_TOUCHSCREEN))
  {
    hide Comparable, T.TreeRun, F.FlatRun, KeysOnce, WholeBytes, DigitizersAreApplications, TreeHas;
    SetModeAgrees(items);
    TouchDataAgrees(items);
    CollectionsAgree(items);
  }
}
