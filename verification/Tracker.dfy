/** Tracking contacts over frames: greedy matching of the contacts of two frames by distance. */
module Tracker {
  import opened Common
  import opened Contacts

  // ---------------------------------------------------------------- new indices

  /** The indices in use in a frame. */
  ghost function Used(frame: seq<Contact>): set<nat> {
    set c | c in frame && c.index.Some? :: c.index.value
  }

  ghost function Below(used: set<nat>, bound: nat): set<nat> {
    set u | u in used && u < bound
  }

  /** The least index from `min` on that is not in use. */
  ghost function NewIndex(min: nat, used: set<nat>): (r: nat)
    ensures r >= min && r !in used && forall j | min <= j < r :: j in used
    decreases Ahead(used, min)
  {
    if min !in used then min
    else
      FewerAhead(used, min);
      NewIndex(min + 1, used)
  }

  /** How many indices in use the search has still ahead of it. */
  ghost function Ahead(used: set<nat>, min: nat): nat {
    |used - Below(used, min)|
  }

  lemma FewerAhead(used: set<nat>, min: nat)
    requires min in used
    ensures Ahead(used, min + 1) < Ahead(used, min)
  {
    var a, b := used - Below(used, min + 1), used - Below(used, min);
    assert min in b && min !in a;
    assert forall u | u in a :: u in b;
    SubsetCardinality(a, b);
  }

  /** An index is in use exactly if it is found. */
  lemma FoundIsUsed(frame: seq<Contact>, index: nat)
    ensures FindInFrame(index, frame).Some? <==> index in Used(frame)
  {
    hide FindInFrame;
    var c := FindInFrame(index, frame);
    assert c.Some? ==> c.value in frame && c.value.index.Some?;
  }

  lemma NewIndexUnfolds(min: nat, used: set<nat>)
    ensures NewIndex(min, used) == if min in used then NewIndex(min + 1, used) else min
  {
  }

  lemma SubsetCardinality(a: set<nat>, b: set<nat>)
    requires a < b
    ensures |a| < |b|
  {
    var rest := b - a;
    assert b == a + rest && a * rest == {};
    assert rest != {};
  }

  /** The new indices given out to `n` contacts in a row. */
  ghost function NewIndices(n: nat, used: set<nat>): (s: seq<nat>)
    ensures |s| == n
  {
    if n == 0 then []
    else
      var before := NewIndices(n - 1, used);
      before + [NewIndex(if n == 1 then 0 else before[n - 2] + 1, used)]
  }

  /** New indices are increasing, so pairwise distinct, and none of them is in use. */
  lemma {:induction false} NewIndicesIncrease(n: nat, used: set<nat>)
    ensures forall i, j | 0 <= i < j < n :: NewIndices(n, used)[i] < NewIndices(n, used)[j]
    ensures forall i | 0 <= i < n :: NewIndices(n, used)[i] !in used
  {
    if n > 0 {
      NewIndicesIncrease(n - 1, used);
      var s := NewIndices(n, used);
      if n > 1 {
        assert s[n - 1] > s[n - 2];
      }
    }
  }

  lemma {:induction false} FilledGap(used: set<nat>, min: nat, r: nat)
    requires min <= r && forall j | min <= j < r :: j in used
    ensures |Below(used, r)| == |Below(used, min)| + (r - min)
    decreases r - min
  {
    if min < r {
      FilledGap(used, min, r - 1);
      assert Below(used, r) == Below(used, r - 1) + {r - 1};
    }
  }

  /** The indices skipped up to a new index are all in use. */
  lemma {:induction false} NewIndicesSkipUsed(n: nat, used: set<nat>, i: nat)
    requires i < n
    ensures NewIndices(n, used)[i] == i + |Below(used, NewIndices(n, used)[i])|
    decreases n
  {
    var s := NewIndices(n, used);
    if i < n - 1 {
      NewIndicesSkipUsed(n - 1, used, i);
    } else if n == 1 {
      assert Below(used, 0) == {};
      FilledGap(used, 0, s[0]);
    } else {
      NewIndicesSkipUsed(n - 1, used, n - 2);
      var p := s[n - 2];
      NewIndicesIncrease(n, used);
      assert Below(used, p + 1) == Below(used, p);
      FilledGap(used, p + 1, s[n - 1]);
    }
  }

  lemma NewIndexBound(n: nat, used: set<nat>, i: nat)
    requires i < n
    ensures NewIndices(n, used)[i] <= i + |used|
  {
    NewIndicesSkipUsed(n, used, i);
    var b := Below(used, NewIndices(n, used)[i]);
    if b != used {
      SubsetCardinality(b, used);
    }
  }

  lemma {:induction false} UsedCardinality(frame: seq<Contact>)
    ensures |Used(frame)| <= |frame|
  {
    if frame != [] {
      var n := |frame| - 1;
      UsedCardinality(frame[..n]);
      assert frame == frame[..n] + [frame[n]];
      if frame[n].index.Some? {
        assert Used(frame) == Used(frame[..n]) + {frame[n].index.value};
      } else {
        assert Used(frame) == Used(frame[..n]);
      }
    }
  }

  // ---------------------------------------------------------------- greedy matching

  /** A contact of the current frame (x) and one of the last frame (y). */
  datatype Pair = Pair(y: nat, x: nat)

  ghost predicate FreeRow(y: nat, pairs: seq<Pair>) {
    forall i | 0 <= i < |pairs| :: pairs[i].y != y
  }

  ghost predicate FreeColumn(x: nat, pairs: seq<Pair>) {
    forall i | 0 <= i < |pairs| :: pairs[i].x != x
  }

  /** Each pair is one of the closest among the contacts that were not matched before. */
  ghost predicate Greedy(dist: (nat, nat) -> real, rows: nat, cols: nat, pairs: seq<Pair>) {
    forall k | 0 <= k < |pairs| ::
      && pairs[k].y < rows && pairs[k].x < cols
      && FreeRow(pairs[k].y, pairs[..k]) && FreeColumn(pairs[k].x, pairs[..k])
      && forall y, x | 0 <= y < rows && 0 <= x < cols && FreeRow(y, pairs[..k]) && FreeColumn(x, pairs[..k]) ::
           dist(pairs[k].y, pairs[k].x) <= dist(y, x)
  }

  function MinSize(a: nat, b: nat): nat {
    if a < b then a else b
  }

  lemma EarlierIsFree(pairs: seq<Pair>, i: nat, j: nat, y: nat, x: nat)
    requires i <= j <= |pairs|
    ensures FreeRow(y, pairs[..j]) ==> FreeRow(y, pairs[..i])
    ensures FreeColumn(x, pairs[..j]) ==> FreeColumn(x, pairs[..i])
  {
    assert forall n | 0 <= n < i :: pairs[..i][n] == pairs[..j][n];
  }

  /** No contact is matched twice. */
  lemma MatchedOnce(dist: (nat, nat) -> real, rows: nat, cols: nat, pairs: seq<Pair>, i: nat, j: nat)
    requires Greedy(dist, rows, cols, pairs) && i < j < |pairs|
    ensures pairs[i].y != pairs[j].y && pairs[i].x != pairs[j].x
  {
    assert FreeRow(pairs[j].y, pairs[..j]) && FreeColumn(pairs[j].x, pairs[..j]);
    assert pairs[..j][i] == pairs[i];
  }

  /** The chosen distances never decrease from round to round. */
  lemma DistancesNeverDecrease(dist: (nat, nat) -> real, rows: nat, cols: nat, pairs: seq<Pair>, i: nat, j: nat)
    requires Greedy(dist, rows, cols, pairs) && i <= j < |pairs|
    ensures dist(pairs[i].y, pairs[i].x) <= dist(pairs[j].y, pairs[j].x)
  {
    EarlierIsFree(pairs, i, j, pairs[j].y, pairs[j].x);
    assert pairs[j].y < rows && pairs[j].x < cols;
    assert FreeRow(pairs[j].y, pairs[..j]) && FreeColumn(pairs[j].x, pairs[..j]);
  }

  ghost function Elements(s: seq<nat>): (e: set<nat>)
    ensures forall v :: v in e <==> v in s
    ensures |e| <= |s|
  {
    if s == [] then {}
    else
      assert s == s[..|s| - 1] + [s[|s| - 1]];
      Elements(s[..|s| - 1]) + {s[|s| - 1]}
  }

  ghost function Numbers(n: nat): (e: set<nat>)
    ensures forall v: nat :: v in e <==> v < n
    ensures |e| == n
  {
    if n == 0 then {} else Numbers(n - 1) + {n - 1}
  }

  ghost predicate Distinct(s: seq<nat>) {
    forall i, j | 0 <= i < j < |s| :: s[i] != s[j]
  }

  lemma {:induction false} DistinctElements(s: seq<nat>)
    requires Distinct(s)
    ensures |Elements(s)| == |s|
  {
    if s != [] {
      var n := |s| - 1;
      DistinctElements(s[..n]);
      assert s[n] !in s[..n];
    }
  }

  /** Pigeonhole: `n` distinct numbers below `n` are all the numbers below `n`. */
  lemma AllTaken(s: seq<nat>, n: nat, v: nat)
    requires |s| == n && Distinct(s) && v < n
    requires forall i | 0 <= i < n :: s[i] < n
    ensures v in s
  {
    DistinctElements(s);
    if v !in s {
      assert Elements(s) < Numbers(n) by {
        assert v in Numbers(n) && v !in Elements(s);
      }
      SubsetCardinality(Elements(s), Numbers(n));
    }
  }

  /** Fewer than `n` numbers miss one of the numbers below `n`. */
  lemma MissingNumber(s: seq<nat>, n: nat) returns (v: nat)
    requires |s| < n
    ensures v < n && v !in s
  {
    if Numbers(n) <= Elements(s) && Numbers(n) != Elements(s) {
      SubsetCardinality(Numbers(n), Elements(s));
    }
    v :| v in Numbers(n) && v !in Elements(s);
  }

  ghost function Ys(pairs: seq<Pair>): (s: seq<nat>)
    ensures |s| == |pairs| && forall i | 0 <= i < |s| :: s[i] == pairs[i].y
  {
    seq(|pairs|, i requires 0 <= i < |pairs| => pairs[i].y)
  }

  ghost function Xs(pairs: seq<Pair>): (s: seq<nat>)
    ensures |s| == |pairs| && forall i | 0 <= i < |s| :: s[i] == pairs[i].x
  {
    seq(|pairs|, i requires 0 <= i < |pairs| => pairs[i].x)
  }

  /** A full matching leaves no free row if there are not more rows than columns, else no free column. */
  lemma FullMatching(dist: (nat, nat) -> real, rows: nat, cols: nat, pairs: seq<Pair>)
    requires Greedy(dist, rows, cols, pairs)
    ensures |pairs| == rows ==> forall y: nat | y < rows :: !FreeRow(y, pairs)
    ensures |pairs| == cols ==> forall x: nat | x < cols :: !FreeColumn(x, pairs)
  {
    forall i, j | 0 <= i < j < |pairs|
      ensures pairs[i].y != pairs[j].y && pairs[i].x != pairs[j].x
    {
      MatchedOnce(dist, rows, cols, pairs, i, j);
    }
    if |pairs| == rows {
      forall y: nat | y < rows
        ensures !FreeRow(y, pairs)
      {
        AllTaken(Ys(pairs), rows, y);
      }
    }
    if |pairs| == cols {
      forall x: nat | x < cols
        ensures !FreeColumn(x, pairs)
      {
        AllTaken(Xs(pairs), cols, x);
      }
    }
  }

  /** The first round that takes the row or the column. */
  lemma {:induction false} FirstTaken(pairs: seq<Pair>, y: nat, x: nat) returns (k: nat)
    requires !FreeRow(y, pairs) || !FreeColumn(x, pairs)
    ensures k < |pairs| && (pairs[k].y == y || pairs[k].x == x)
    ensures FreeRow(y, pairs[..k]) && FreeColumn(x, pairs[..k])
    decreases |pairs|
  {
    var n := |pairs| - 1;
    if FreeRow(y, pairs[..n]) && FreeColumn(x, pairs[..n]) {
      k := n;
    } else {
      k := FirstTaken(pairs[..n], y, x);
      assert pairs[..n][..k] == pairs[..k];
    }
  }

  /** The matching is stable: of any two contacts not matched with each other, at least one has a partner
      that is no farther away. */
  lemma MatchingIsStable(dist: (nat, nat) -> real, rows: nat, cols: nat, pairs: seq<Pair>, y: nat, x: nat)
    requires Greedy(dist, rows, cols, pairs) && |pairs| == MinSize(rows, cols)
    requires y < rows && x < cols
    ensures exists k :: 0 <= k < |pairs| && (pairs[k].y == y || pairs[k].x == x)
              && dist(pairs[k].y, pairs[k].x) <= dist(y, x)
  {
    FullMatching(dist, rows, cols, pairs);
    var k := FirstTaken(pairs, y, x);
  }

  /** While the matching is not full there is a free row and a free column. */
  lemma RoomLeft(dist: (nat, nat) -> real, rows: nat, cols: nat, pairs: seq<Pair>)
    requires Greedy(dist, rows, cols, pairs) && |pairs| < MinSize(rows, cols)
    ensures exists y: nat :: y < rows && FreeRow(y, pairs)
    ensures exists x: nat :: x < cols && FreeColumn(x, pairs)
  {
    var y := MissingNumber(Ys(pairs), rows);
    var x := MissingNumber(Xs(pairs), cols);
    assert FreeRow(y, pairs) && FreeColumn(x, pairs);
  }

  // ---------------------------------------------------------------- one frame

  /** The distance between contact `x` of the current frame and contact `y` of the last one. */
  ghost function Dist(last: seq<Contact>, frame: seq<Contact>, hypot: (real, real) -> real): (nat, nat) -> real {
    (y: nat, x: nat) =>
      if y < |last| && x < |frame| then hypot(frame[x].meanX - last[y].meanX, frame[x].meanY - last[y].meanY) else 0.0
  }

  /** A full greedy matching between two frames. */
  ghost predicate IsMatching(last: seq<Contact>, frame: seq<Contact>, hypot: (real, real) -> real, pairs: seq<Pair>) {
    |pairs| == MinSize(|last|, |frame|) && Greedy(Dist(last, frame, hypot), |last|, |frame|, pairs)
  }

  /** The index of contact `x` after matching: that of its partner, or a new one. */
  ghost predicate HasIndex(index: Option<nat>, x: nat, last: seq<Contact>, size: nat, pairs: seq<Pair>)
    requires x < size
  {
    && (forall k | 0 <= k < |pairs| && pairs[k].x == x && pairs[k].y < |last| :: index == last[pairs[k].y].index)
    && (FreeColumn(x, pairs) ==> index == Some(NewIndices(size, Used(last))[x]))
  }

  ghost predicate Assigned(last: seq<Contact>, frame: seq<Contact>, pairs: seq<Pair>, out: seq<Contact>) {
    && |out| == |frame|
    && forall x | 0 <= x < |frame| ::
         out[x] == frame[x].(index := out[x].index) && HasIndex(out[x].index, x, last, |frame|, pairs)
  }

  /** What tracking makes of a frame, given the last one. Only the indices change. */
  ghost predicate Tracked(last: seq<Contact>, frame: seq<Contact>, hypot: (real, real) -> real, out: seq<Contact>) {
    exists pairs :: IsMatching(last, frame, hypot, pairs) && Assigned(last, frame, pairs, out)
  }

  /** An entry of the distance matrix; Taken stands for the infinity that marks used rows and columns. */
  datatype Entry = Away(distance: real) | Taken {
    predicate Less(o: Entry) {
      Away? && (o.Taken? || distance < o.distance)
    }
  }

  /** The state of the matrix after some pairs have been taken out of it. */
  ghost predicate Shows(m: array2<Entry>, dist: (nat, nat) -> real, pairs: seq<Pair>)
    reads m
  {
    forall y, x | 0 <= y < m.Length0 && 0 <= x < m.Length1 ::
      m[y, x] == if FreeRow(y, pairs) && FreeColumn(x, pairs) then Away(dist(y, x)) else Taken
  }

  lemma PairAdded(pairs: seq<Pair>, p: Pair)
    ensures forall y :: FreeRow(y, pairs + [p]) <==> FreeRow(y, pairs) && y != p.y
    ensures forall x :: FreeColumn(x, pairs + [p]) <==> FreeColumn(x, pairs) && x != p.x
  {
    forall y: nat
      ensures FreeRow(y, pairs + [p]) <==> FreeRow(y, pairs) && y != p.y
    {
      assert (pairs + [p])[|pairs|] == p;
      assert forall i | 0 <= i < |pairs| :: (pairs + [p])[i] == pairs[i];
    }
    forall x: nat
      ensures FreeColumn(x, pairs + [p]) <==> FreeColumn(x, pairs) && x != p.x
    {
      assert (pairs + [p])[|pairs|] == p;
      assert forall i | 0 <= i < |pairs| :: (pairs + [p])[i] == pairs[i];
    }
  }

  lemma GreedyGrows(dist: (nat, nat) -> real, rows: nat, cols: nat, pairs: seq<Pair>, p: Pair)
    requires Greedy(dist, rows, cols, pairs)
    requires p.y < rows && p.x < cols && FreeRow(p.y, pairs) && FreeColumn(p.x, pairs)
    requires forall y, x | 0 <= y < rows && 0 <= x < cols && FreeRow(y, pairs) && FreeColumn(x, pairs) ::
              dist(p.y, p.x) <= dist(y, x)
    ensures Greedy(dist, rows, cols, pairs + [p])
  {
    var grown := pairs + [p];
    forall k | 0 <= k < |grown|
      ensures grown[..k] == pairs[..k]
    {
    }
    assert pairs[..|pairs|] == pairs;
  }

  /** A smallest entry of the matrix is a closest pair of unmatched contacts. */
  lemma SmallestIsClosest(m: array2<Entry>, dist: (nat, nat) -> real, pairs: seq<Pair>, y: nat, x: nat)
    requires Shows(m, dist, pairs) && y < m.Length0 && x < m.Length1
    requires Greedy(dist, m.Length0, m.Length1, pairs) && |pairs| < MinSize(m.Length0, m.Length1)
    requires forall i, j | 0 <= i < m.Length0 && 0 <= j < m.Length1 :: !m[i, j].Less(m[y, x])
    ensures Greedy(dist, m.Length0, m.Length1, pairs + [Pair(y, x)])
    ensures FreeRow(y, pairs) && FreeColumn(x, pairs)
  {
    RoomLeft(dist, m.Length0, m.Length1, pairs);
    var v: nat :| v < m.Length0 && FreeRow(v, pairs);
    var u: nat :| u < m.Length1 && FreeColumn(u, pairs);
    assert m[v, u] == Away(dist(v, u)) && !m[v, u].Less(m[y, x]);
    forall i, j | 0 <= i < m.Length0 && 0 <= j < m.Length1 && FreeRow(i, pairs) && FreeColumn(j, pairs)
      ensures dist(y, x) <= dist(i, j)
    {
      assert m[i, j] == Away(dist(i, j)) && !m[i, j].Less(m[y, x]);
    }
    GreedyGrows(dist, m.Length0, m.Length1, pairs, Pair(y, x));
  }

  class Tracker {
    var last: seq<Contact>
    const hypot: (real, real) -> real

    ghost predicate Valid()
      reads this
    {
      DistinctIndices(last)
    }

    constructor (hypot: (real, real) -> real)
      ensures Valid() && last == [] && this.hypot == hypot
    {
      last, this.hypot := [], hypot;
    }

    method Reset()
      modifies this
      ensures Valid() && last == []
    {
      last := [];
    }

    method FindNewIndex(min: nat) returns (r: nat)
      ensures r == NewIndex(min, Used(last))
    {
      hide FindInFrame, Used, NewIndex, Ahead;
      ghost var used := Used(last);
      r := min;
      FoundIsUsed(last, r);
      while FindInFrame(r, last).Some?
        invariant r in used <==> FindInFrame(r, last).Some?
        invariant NewIndex(r, used) == NewIndex(min, used)
        decreases Ahead(used, r)
      {
        FewerAhead(used, r);
        NewIndexUnfolds(r, used);
        r := r + 1;
        FoundIsUsed(last, r);
      }
      NewIndexUnfolds(r, used);
    }

    /** Some smallest entry of the matrix; which one does not matter if there are several. */
    method MinCoeff(m: array2<Entry>) returns (y: nat, x: nat)
      requires m.Length0 > 0 && m.Length1 > 0
      ensures y < m.Length0 && x < m.Length1
      ensures forall i, j | 0 <= i < m.Length0 && 0 <= j < m.Length1 :: !m[i, j].Less(m[y, x])
    {
      y, x := 0, 0;
      for i := 0 to m.Length0
        invariant y < m.Length0 && x < m.Length1
        invariant forall v, u | 0 <= v < i && 0 <= u < m.Length1 :: !m[v, u].Less(m[y, x])
      {
        for j := 0 to m.Length1
          invariant y < m.Length0 && x < m.Length1
          invariant forall v, u | 0 <= v < m.Length0 && 0 <= u < m.Length1 && (v < i || (v == i && u < j)) ::
                      !m[v, u].Less(m[y, x])
        {
          if m[i, j].Less(m[y, x]) {
            y, x := i, j;
          }
        }
      }
    }

    /** Gives every contact of the frame an index that the last frame does not use. */
    method AssignNewIndices(frame: array<Contact>)
      modifies frame
      ensures forall x | 0 <= x < frame.Length ::
                frame[x] == old(frame[x]).(index := Some(NewIndices(frame.Length, Used(last))[x]))
    {
      hide NewIndices, NewIndex;
      var counter := 0;
      ghost var given := NewIndices(frame.Length, Used(last));
      for x := 0 to frame.Length
        invariant forall j | x <= j < frame.Length :: frame[j] == old(frame[j])
        invariant forall j | 0 <= j < x :: frame[j] == old(frame[j]).(index := Some(given[j]))
        invariant counter == if x == 0 then 0 else given[x - 1] + 1
      {
        NthNewIndex(frame.Length, Used(last), x);
        var i := FindNewIndex(counter);
        frame[x] := frame[x].(index := Some(i));
        counter := i + 1;
      }
    }

    method CalculateDistances(frame: array<Contact>) returns (m: array2<Entry>)
      ensures fresh(m) && m.Length0 == |last| && m.Length1 == frame.Length
      ensures Shows(m, Dist(last, frame[..], hypot), [])
    {
      m := new Entry[|last|, frame.Length]((y, x) => Taken);
      for y := 0 to |last|
        invariant forall v, u | 0 <= v < y && 0 <= u < frame.Length ::
                    m[v, u] == Away(Dist(last, frame[..], hypot)(v, u))
      {
        for x := 0 to frame.Length
          invariant forall v, u | 0 <= v <= y && 0 <= u < frame.Length && (v < y || u < x) ::
                      m[v, u] == Away(Dist(last, frame[..], hypot)(v, u))
        {
          m[y, x] := Away(hypot(frame[x].meanX - last[y].meanX, frame[x].meanY - last[y].meanY));
        }
      }
    }

    method TakeOut(m: array2<Entry>, y: nat, x: nat, ghost dist: (nat, nat) -> real, ghost pairs: seq<Pair>)
      requires y < m.Length0 && x < m.Length1 && Shows(m, dist, pairs)
      modifies m
      ensures Shows(m, dist, pairs + [Pair(y, x)])
    {
      PairAdded(pairs, Pair(y, x));
      for u := 0 to m.Length1
        invariant forall i, j | 0 <= i < m.Length0 && 0 <= j < m.Length1 ::
                    m[i, j] == if i == y && j < u then Taken else old(m[i, j])
      {
        m[y, u] := Taken;
      }
      for v := 0 to m.Length0
        invariant forall i, j | 0 <= i < m.Length0 && 0 <= j < m.Length1 ::
                    m[i, j] == if i == y || (j == x && i < v) then Taken else old(m[i, j])
      {
        m[v, x] := Taken;
      }
    }

    /** Copies the indices of the last frame to the closest contacts, pair by pair. */
    method CopyIndices(frame: array<Contact>, m: array2<Entry>, ghost frame0: seq<Contact>)
      requires Valid() && m.Length0 == |last| && m.Length1 == frame.Length == |frame0|
      requires Shows(m, Dist(last, frame0, hypot), [])
      requires Assigned(last, frame0, [], frame[..])
      modifies frame, m
      ensures Tracked(last, frame0, hypot, frame[..])
    {
      ghost var pairs: seq<Pair>, dist := [], Dist(last, frame0, hypot);
      var min := MinSize(frame.Length, |last|);
      for i := 0 to min
        invariant |pairs| == i && Greedy(dist, |last|, |frame0|, pairs)
        invariant Shows(m, dist, pairs)
        invariant Assigned(last, frame0, pairs, frame[..])
      {
        var y, x := MinCoeff(m);
        SmallestIsClosest(m, dist, pairs, y, x);
        ghost var before := frame[..];
        frame[x] := frame[x].(index := last[y].index);
        AssignedGrows(last, frame0, pairs, before, Pair(y, x), frame[..]);
        TakeOut(m, y, x, dist, pairs);
        pairs := pairs + [Pair(y, x)];
      }
      assert IsMatching(last, frame0, hypot, pairs);
    }

    /** Tracks the contacts of a frame and remembers it. */
    method Track(frame: array<Contact>)
      requires Valid()
      modifies this, frame
      ensures Valid() && last == frame[..]
      ensures Tracked(old(last), old(frame[..]), hypot, frame[..])
    {
      ghost var frame0 := frame[..];
      AssignNewIndices(frame);
      assert Assigned(last, frame0, [], frame[..]);
      if last != [] {
        var m := CalculateDistances(frame);
        SameDistances(last, frame0, frame[..], hypot);
        CopyIndices(frame, m, frame0);
      } else {
        assert IsMatching(last, frame0, hypot, []);
      }
      TrackedIndicesAreDistinct(last, frame0, hypot, frame[..]);
      last := frame[..];
    }
  }

  lemma {:induction false} NthNewIndex(n: nat, used: set<nat>, x: nat)
    requires x < n
    ensures NewIndices(n, used)[x] == NewIndex(if x == 0 then 0 else NewIndices(n, used)[x - 1] + 1, used)
  {
    if x < n - 1 {
      NthNewIndex(n - 1, used, x);
    }
  }

  lemma SameDistances(last: seq<Contact>, a: seq<Contact>, b: seq<Contact>, hypot: (real, real) -> real)
    requires |a| == |b| && forall x | 0 <= x < |a| :: b[x] == a[x].(index := b[x].index)
    ensures forall y, x :: Dist(last, a, hypot)(y, x) == Dist(last, b, hypot)(y, x)
  {
  }

  lemma AssignedGrows(last: seq<Contact>, frame: seq<Contact>, pairs: seq<Pair>, before: seq<Contact>, p: Pair,
      after: seq<Contact>)
    requires Assigned(last, frame, pairs, before)
    requires p.y < |last| && p.x < |frame| && FreeColumn(p.x, pairs)
    requires after == before[p.x := before[p.x].(index := last[p.y].index)]
    ensures Assigned(last, frame, pairs + [p], after)
  {
    PairAdded(pairs, p);
    var grown := pairs + [p];
    forall x | 0 <= x < |frame|
      ensures after[x] == frame[x].(index := after[x].index) && HasIndex(after[x].index, x, last, |frame|, grown)
    {
      assert HasIndex(before[x].index, x, last, |frame|, pairs);
      forall k | 0 <= k < |grown| && grown[k].x == x && grown[k].y < |last|
        ensures after[x].index == last[grown[k].y].index
      {
        if k < |pairs| {
          assert pairs[k] == grown[k];
        }
      }
    }
  }

  // ---------------------------------------------------------------- indices over frames

  /** Contact `x` has a partner in a full matching, or a new index. */
  lemma PartnerOrNew(last: seq<Contact>, frame: seq<Contact>, pairs: seq<Pair>, out: seq<Contact>, x: nat)
      returns (k: nat)
    requires Assigned(last, frame, pairs, out) && x < |frame|
    requires forall i | 0 <= i < |pairs| :: pairs[i].y < |last|
    ensures k <= |pairs|
    ensures k < |pairs| ==> pairs[k].x == x && out[x].index == last[pairs[k].y].index
    ensures k == |pairs| ==> FreeColumn(x, pairs) && out[x].index == Some(NewIndices(|frame|, Used(last))[x])
  {
    assert HasIndex(out[x].index, x, last, |frame|, pairs);
    if FreeColumn(x, pairs) {
      k := |pairs|;
    } else {
      k :| 0 <= k < |pairs| && pairs[k].x == x;
    }
  }

  /** After tracking, every contact has an index and no two have the same. */
  lemma TrackedIndicesAreDistinct(last: seq<Contact>, frame: seq<Contact>, hypot: (real, real) -> real,
      out: seq<Contact>)
    requires DistinctIndices(last) && Tracked(last, frame, hypot, out)
    ensures DistinctIndices(out)
  {
    var pairs: seq<Pair> :| IsMatching(last, frame, hypot, pairs) && Assigned(last, frame, pairs, out);
    NewIndicesIncrease(|frame|, Used(last));
    forall x | 0 <= x < |out|
      ensures out[x].index.Some?
    {
      var k := PartnerOrNew(last, frame, pairs, out, x);
    }
    forall a, b | 0 <= a < b < |out|
      ensures out[a].index != out[b].index
    {
      var i := PartnerOrNew(last, frame, pairs, out, a);
      var j := PartnerOrNew(last, frame, pairs, out, b);
      if i < |pairs| && j < |pairs| {
        if i < j {
          MatchedOnce(Dist(last, frame, hypot), |last|, |frame|, pairs, i, j);
        } else {
          MatchedOnce(Dist(last, frame, hypot), |last|, |frame|, pairs, j, i);
        }
        assert last[pairs[i].y].index != last[pairs[j].y].index;
      }
    }
  }

  /** If the number of contacts does not fall, no index of the last frame is lost. */
  lemma OldIndicesSurvive(last: seq<Contact>, frame: seq<Contact>, hypot: (real, real) -> real, out: seq<Contact>,
      y: nat)
    requires Tracked(last, frame, hypot, out) && |last| <= |frame| && y < |last|
    ensures exists x :: 0 <= x < |out| && out[x].index == last[y].index
  {
    var pairs: seq<Pair> :| IsMatching(last, frame, hypot, pairs) && Assigned(last, frame, pairs, out);
    FullMatching(Dist(last, frame, hypot), |last|, |frame|, pairs);
    assert !FreeRow(y, pairs);
    var k :| 0 <= k < |pairs| && pairs[k].y == y;
    var x := pairs[k].x;
    assert x < |frame|;
    assert HasIndex(out[x].index, x, last, |frame|, pairs);
  }

  /** If the number of contacts does not rise, every index was already there in the last frame. */
  lemma NoNewIndices(last: seq<Contact>, frame: seq<Contact>, hypot: (real, real) -> real, out: seq<Contact>, x: nat)
    requires Tracked(last, frame, hypot, out) && |frame| <= |last| && x < |frame|
    ensures |out| == |frame| && exists y :: 0 <= y < |last| && out[x].index == last[y].index
  {
    var pairs: seq<Pair> :| IsMatching(last, frame, hypot, pairs) && Assigned(last, frame, pairs, out);
    FullMatching(Dist(last, frame, hypot), |last|, |frame|, pairs);
    assert !FreeColumn(x, pairs);
    var k := PartnerOrNew(last, frame, pairs, out, x);
    var y := pairs[k].y;
    assert out[x].index == last[y].index;
  }

  ghost predicate IndicesUpTo(frame: seq<Contact>, max: int) {
    forall i | 0 <= i < |frame| :: frame[i].index.Some? && frame[i].index.value <= max
  }

  /** Frames of at most `n` contacts keep all indices at or below 2n - 2. */
  lemma IndicesStaySmall(last: seq<Contact>, frame: seq<Contact>, hypot: (real, real) -> real, out: seq<Contact>,
      n: nat)
    requires Tracked(last, frame, hypot, out) && |last| <= n && |frame| <= n
    requires IndicesUpTo(last, 2 * n - 2)
    ensures IndicesUpTo(out, 2 * n - 2)
  {
    var pairs: seq<Pair> :| IsMatching(last, frame, hypot, pairs) && Assigned(last, frame, pairs, out);
    forall x | 0 <= x < |out|
      ensures out[x].index.Some? && out[x].index.value <= 2 * n - 2
    {
      var k := PartnerOrNew(last, frame, pairs, out, x);
      if k < |pairs| {
        assert pairs[k].y < |last|;
      } else {
        FullMatching(Dist(last, frame, hypot), |last|, |frame|, pairs);
        assert |last| < |frame|;
        NewIndexBound(|frame|, Used(last), x);
        UsedCardinality(last);
      }
    }
  }

  /** The frames a tracker was given, what it made of them, and before which of them it was reset. */
  datatype Run = Run(frames: seq<seq<Contact>>, outs: seq<seq<Contact>>, resets: seq<bool>) {
    ghost predicate Valid(hypot: (real, real) -> real) {
      && |outs| == |frames| == |resets|
      && forall i | 0 <= i < |frames| :: Tracked(Before(i), frames[i], hypot, outs[i])
    }

    /** The last frame the tracker remembers when it gets frame `i`. */
    ghost function Before(i: nat): seq<Contact>
      requires i < |resets| == |outs|
    {
      if i == 0 || resets[i] then [] else outs[i - 1]
    }
  }

  /** In every run the indices of each frame are pairwise distinct, and if no frame has more than `n` contacts,
      they never exceed 2n - 2. */
  lemma {:induction false} RunIndices(run: Run, hypot: (real, real) -> real, n: nat, i: nat)
    requires run.Valid(hypot) && i < |run.frames|
    requires forall j | 0 <= j < |run.frames| :: |run.frames[j]| <= n
    ensures DistinctIndices(run.outs[i])
    ensures IndicesUpTo(run.outs[i], 2 * n - 2)
  {
    hide Tracked, DistinctIndices, IndicesUpTo;
    if i > 0 && !run.resets[i] {
      RunIndices(run, hypot, n, i - 1);
      TrackedSize(run.Before(i - 1), run.frames[i - 1], hypot, run.outs[i - 1]);
    } else {
      NothingTracked(2 * n - 2);
    }
    assert Tracked(run.Before(i), run.frames[i], hypot, run.outs[i]);
    TrackedIndicesAreDistinct(run.Before(i), run.frames[i], hypot, run.outs[i]);
    IndicesStaySmall(run.Before(i), run.frames[i], hypot, run.outs[i], n);
  }

  lemma TrackedSize(last: seq<Contact>, frame: seq<Contact>, hypot: (real, real) -> real, out: seq<Contact>)
    requires Tracked(last, frame, hypot, out)
    ensures |out| == |frame|
  {
  }

  lemma NothingTracked(max: int)
    ensures DistinctIndices([]) && IndicesUpTo([], max)
  {
  }
}
