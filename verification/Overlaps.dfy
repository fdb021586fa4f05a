/** Merging bounding boxes that overlap by at least one half. */
module Overlaps {
  import opened Common
  import opened Geometry

  // ---------------------------------------------------------------- overlap of two boxes

  /** The number of pixels of a box; the bounds are inclusive. */
  function Area(b: Box): int
    requires b.Box?
  {
    (b.maxX - b.minX + 1) * (b.maxY - b.minY + 1)
  }

  lemma ProductMonotone(a: int, b: int, c: int, d: int)
    requires 0 < a <= c && 0 < b <= d
    ensures 0 < a * b <= c * d
  {
    assert a * b <= c * b <= c * d;
  }

  /** A common part is not larger than either box. */
  lemma IntersectionIsSmaller(a: Box, b: Box)
    requires !a.Intersection(b).IsEmpty()
    ensures a.Box? && b.Box?
    ensures 0 < Area(a.Intersection(b)) <= Area(a) && Area(a.Intersection(b)) <= Area(b)
  {
    var i := a.Intersection(b);
    ProductMonotone(i.maxX - i.minX + 1, i.maxY - i.minY + 1, a.maxX - a.minX + 1, a.maxY - a.minY + 1);
    ProductMonotone(i.maxX - i.minX + 1, i.maxY - i.minY + 1, b.maxX - b.minX + 1, b.maxY - b.minY + 1);
  }

  /** Intersection over union; None stands for the error about a value outside of 0..1. */
  function Overlap(a: Box, b: Box): Option<real> {
    if a == b then Some(1.0)
    else
      var intersection := a.Intersection(b);
      if intersection.IsEmpty() then Some(0.0)
      else
        IntersectionIsSmaller(a, b);
        var areaI := Area(intersection);
        var iou := (areaI as real) / ((Area(a) + Area(b) - areaI) as real);
        if iou < 0.0 || iou > 1.0 then None else Some(iou)
  }

  lemma RatioAtMostOne(n: int, d: int)
    requires 0 < n <= d
    ensures 0.0 <= (n as real) / (d as real) <= 1.0
  {
    var q := (n as real) / (d as real);
    assert q * (d as real) == n as real;
  }

  /** The overlap is always between 0 and 1, so the error cannot occur. It is symmetric. */
  lemma OverlapIsRatio(a: Box, b: Box)
    ensures Overlap(a, b).Some? && 0.0 <= Overlap(a, b).value <= 1.0
    ensures Overlap(b, a) == Overlap(a, b)
  {
    if a != b && !a.Intersection(b).IsEmpty() {
      IntersectionIsSmaller(a, b);
      var i := a.Intersection(b);
      assert b.Intersection(a) == i;
      RatioAtMostOne(Area(i), Area(a) + Area(b) - Area(i));
    }
  }

  /** The boxes overlap by at least one half. */
  predicate Overlapping(a: Box, b: Box) {
    OverlapIsRatio(a, b);
    Overlap(a, b).value >= 0.5
  }

  ghost function Pixels(b: Box): set<Point> {
    if b.Empty? then {} else set x, y | b.minX <= x <= b.maxX && b.minY <= y <= b.maxY :: Point(x, y)
  }

  lemma PixelsAreContained(b: Box)
    ensures forall p :: p in Pixels(b) <==> b.Contains(p)
  {
    forall p | b.Contains(p)
      ensures p in Pixels(b)
    {
      assert p == Point(p.x, p.y);
    }
  }

  lemma {:induction false} RowCount(b: Box)
    requires !b.IsEmpty() && b.minY == b.maxY
    ensures |Pixels(b)| == b.maxX - b.minX + 1
    decreases b.maxX - b.minX
  {
    PixelsAreContained(b);
    var last := Point(b.maxX, b.minY);
    if b.minX == b.maxX {
      assert Pixels(b) == {last};
    } else {
      var rest := b.(maxX := b.maxX - 1);
      RowCount(rest);
      PixelsAreContained(rest);
      assert Pixels(b) == Pixels(rest) + {last};
    }
  }

  lemma {:induction false} AreaCountsPixels(b: Box)
    requires !b.IsEmpty()
    ensures |Pixels(b)| == Area(b)
    decreases b.maxY - b.minY
  {
    hide Pixels;
    var last := b.(minY := b.maxY);
    RowCount(last);
    if b.minY == b.maxY {
      assert last == b;
    } else {
      var rest := b.(maxY := b.maxY - 1);
      AreaCountsPixels(rest);
      LastRow(b, rest, last);
      OneRowMore(b.maxX - b.minX + 1, b.maxY - b.minY);
    }
  }

  lemma LastRow(b: Box, rest: Box, last: Box)
    requires b.Box? && b.minY < b.maxY && rest == b.(maxY := b.maxY - 1) && last == b.(minY := b.maxY)
    ensures |Pixels(b)| == |Pixels(rest)| + |Pixels(last)|
  {
    hide Pixels;
    PixelsAreContained(b);
    PixelsAreContained(rest);
    PixelsAreContained(last);
    assert Pixels(b) == Pixels(rest) + Pixels(last) && Pixels(rest) !! Pixels(last);
  }

  lemma OneRowMore(w: int, h: int)
    ensures w * (h + 1) == w * h + w
  {
  }

  lemma AtLeastHalf(i: int, u: int)
    requires u > 0
    ensures (i as real) / (u as real) >= 0.5 <==> 2 * i >= u
  {
    var q := (i as real) / (u as real);
    assert q * (u as real) == i as real;
    if q >= 0.5 {
      assert (q - 0.5) * (u as real) >= 0.0;
    } else {
      assert (0.5 - q) * (u as real) > 0.0;
    }
  }

  lemma CommonPixels(a: Box, b: Box)
    ensures Pixels(a.Intersection(b)) == Pixels(a) * Pixels(b)
    ensures a.Intersection(b).IsEmpty() ==> Pixels(a) * Pixels(b) == {}
  {
    hide Pixels;
    PixelsAreContained(a);
    PixelsAreContained(b);
    PixelsAreContained(a.Intersection(b));
  }

  lemma RatioOfAreas(a: Box, b: Box)
    requires !a.IsEmpty() && !b.IsEmpty()
    ensures var i := a.Intersection(b);
            if i.IsEmpty() then !Overlapping(a, b)
            else Overlapping(a, b) <==> 2 * Area(i) >= Area(a) + Area(b) - Area(i)
  {
    hide Area;
    var i := a.Intersection(b);
    OverlapIsRatio(a, b);
    if !i.IsEmpty() {
      IntersectionIsSmaller(a, b);
      AtLeastHalf(Area(i), Area(a) + Area(b) - Area(i));
    }
  }

  /** Boxes overlap if at least half of the pixels of both belong to both. */
  lemma OverlappingExactly(a: Box, b: Box)
    requires !a.IsEmpty() && !b.IsEmpty()
    ensures Overlapping(a, b) <==> 2 * |Pixels(a) * Pixels(b)| >= |Pixels(a) + Pixels(b)|
  {
    hide Pixels, Area, Overlapping;
    CommonPixels(a, b);
    RatioOfAreas(a, b);
    AreaCountsPixels(a);
    AreaCountsPixels(b);
    AreaIsPositive(a);
    if !a.Intersection(b).IsEmpty() {
      AreaCountsPixels(a.Intersection(b));
    }
    BothSets(Pixels(a), Pixels(b));
  }

  lemma BothSets(a: set<Point>, b: set<Point>)
    ensures |a + b| == |a| + |b| - |a * b|
  {
  }

  lemma AreaIsPositive(b: Box)
    requires !b.IsEmpty()
    ensures Area(b) > 0
  {
    ProductMonotone(b.maxX - b.minX + 1, b.maxY - b.minY + 1, b.maxX - b.minX + 1, b.maxY - b.minY + 1);
  }

  // ---------------------------------------------------------------- searching for overlaps

  datatype IndexPair = IndexPair(first: nat, second: nat)

  /** Every listed pair overlaps and comes before (i, j). */
  ghost predicate Sound(cs: seq<Box>, pairs: seq<IndexPair>, i: nat, j: nat) {
    forall p | p in pairs :: p.first < p.second < |cs| && Overlapping(cs[p.first], cs[p.second]) && Before(p, i, j)
  }

  /** Every overlapping pair before (i, j) is listed. */
  ghost predicate Complete(cs: seq<Box>, pairs: seq<IndexPair>, i: nat, j: nat) {
    forall a, b | 0 <= a < b < |cs| && Before(IndexPair(a, b), i, j) && Overlapping(cs[a], cs[b]) ::
        IndexPair(a, b) in pairs
  }

  ghost predicate Ordered(pairs: seq<IndexPair>) {
    forall k, l | 0 <= k < l < |pairs| :: Before(pairs[k], pairs[l].first, pairs[l].second)
  }

  /** The pairs of overlapping boxes that come before (i, j), in that order. */
  ghost predicate ArePairs(cs: seq<Box>, pairs: seq<IndexPair>, i: nat, j: nat) {
    Sound(cs, pairs, i, j) && Complete(cs, pairs, i, j) && Ordered(pairs)
  }

  predicate Before(p: IndexPair, i: nat, j: nat) {
    p.first < i || (p.first == i && p.second < j)
  }

  ghost predicate HasOverlap(cs: seq<Box>) {
    exists a, b :: 0 <= a < b < |cs| && Overlapping(cs[a], cs[b])
  }

  /** Lists all overlapping pairs, ordered by first and then by second index. */
  method Search(cs: seq<Box>) returns (found: bool, pairs: seq<IndexPair>)
    ensures ArePairs(cs, pairs, |cs|, 0)
    ensures found <==> HasOverlap(cs)
  {
    found, pairs := false, [];
    for i := 0 to |cs|
      invariant ArePairs(cs, pairs, i, 0)
      invariant found <==> pairs != []
    {
      AtDiagonal(cs, pairs, i);
      for j := i + 1 to |cs|
        invariant ArePairs(cs, pairs, i, j)
        invariant found <==> pairs != []
      {
        OverlapIsRatio(cs[i], cs[j]);
        PairsGrow(cs, pairs, i, j);
        if Overlap(cs[i], cs[j]).value < 0.5 {
          continue;
        }
        found := true;
        pairs := pairs + [IndexPair(i, j)];
      }
      RowDone(cs, pairs, i);
    }
    if found {
      assert pairs[0] in pairs && Overlapping(cs[pairs[0].first], cs[pairs[0].second]);
    }
    if HasOverlap(cs) {
      var a, b :| 0 <= a < b < |cs| && Overlapping(cs[a], cs[b]);
      assert IndexPair(a, b) in pairs;
    }
  }

  lemma AtDiagonal(cs: seq<Box>, pairs: seq<IndexPair>, i: nat)
    requires ArePairs(cs, pairs, i, 0)
    ensures ArePairs(cs, pairs, i, i + 1)
  {
    hide Overlapping;
  }

  lemma RowDone(cs: seq<Box>, pairs: seq<IndexPair>, i: nat)
    requires i < |cs| && ArePairs(cs, pairs, i, |cs|)
    ensures ArePairs(cs, pairs, i + 1, 0)
  {
    hide Overlapping;
  }

  lemma PairsGrow(cs: seq<Box>, pairs: seq<IndexPair>, i: nat, j: nat)
    requires i < j < |cs| && ArePairs(cs, pairs, i, j)
    ensures ArePairs(cs, if Overlapping(cs[i], cs[j]) then pairs + [IndexPair(i, j)] else pairs, i, j + 1)
  {
    hide Overlapping;
    var grown := if Overlapping(cs[i], cs[j]) then pairs + [IndexPair(i, j)] else pairs;
    assert Sound(cs, grown, i, j + 1);
    assert Complete(cs, grown, i, j + 1) by {
      forall a, b | 0 <= a < b < |cs| && Before(IndexPair(a, b), i, j + 1) && Overlapping(cs[a], cs[b])
        ensures IndexPair(a, b) in grown
      {
        assert (a == i && b == j) || Before(IndexPair(a, b), i, j);
      }
    }
    assert Ordered(grown) by {
      forall k | 0 <= k < |pairs|
        ensures Before(pairs[k], i, j)
      {
        assert pairs[k] in pairs;
      }
    }
  }

  // ---------------------------------------------------------------- one round

  /** A box overlaps an earlier one, which takes it in. */
  ghost predicate Dropped(cs: seq<Box>, i: nat)
    requires i < |cs|
  {
    exists a :: 0 <= a < i && Overlapping(cs[a], cs[i])
  }

  /** Box `i` together with the overlapping ones between it and `n`. */
  ghost function Hull(cs: seq<Box>, i: nat, n: nat): Box
    requires i < |cs| && n <= |cs|
  {
    if n <= i + 1 then cs[i]
    else
      var h := Hull(cs, i, n - 1);
      if Overlapping(cs[i], cs[n - 1]) then h.Merged(cs[n - 1]) else h
  }

  /** The first `n` boxes after one round: each box that is not dropped, with the later ones it overlaps. */
  ghost function Round(cs: seq<Box>, n: nat): seq<Box>
    requires n <= |cs|
  {
    if n == 0 then []
    else Round(cs, n - 1) + if Dropped(cs, n - 1) then [] else [Hull(cs, n - 1, |cs|)]
  }

  ghost function Rounds(cs: seq<Box>, iterations: nat): seq<Box>
    decreases iterations
  {
    if iterations == 0 || !HasOverlap(cs) then cs else Rounds(Round(cs, |cs|), iterations - 1)
  }

  /** One round in place: boxes are changed one after the other, but only unchanged later boxes are read. */
  method MergeRound(clusters: seq<Box>, pairs: seq<IndexPair>) returns (temp: seq<Box>)
    requires ArePairs(clusters, pairs, |clusters|, 0)
    ensures temp == Round(clusters, |clusters|)
  {
    hide ArePairs, Dropped, Hull;
    var cs := clusters;
    temp := [];
    for i := 0 to |clusters|
      invariant |cs| == |clusters| && forall j | i <= j < |cs| :: cs[j] == clusters[j]
      invariant temp == Round(clusters, i)
    {
      var dropped, box := MergeOne(clusters, cs, pairs, i);
      cs := cs[i := box];
      if dropped {
        continue;
      }
      temp := temp + [cs[i]];
    }
  }

  /** Box `i` of the round: whether it is dropped, and if not, what it grows to. The boxes in `cs` from `i` on
      are still those of the start of the round. */
  method MergeOne(ghost clusters: seq<Box>, cs: seq<Box>, pairs: seq<IndexPair>, i: nat)
      returns (dropped: bool, box: Box)
    requires ArePairs(clusters, pairs, |clusters|, 0)
    requires |cs| == |clusters| && i < |cs| && forall j | i <= j < |cs| :: cs[j] == clusters[j]
    ensures dropped <==> Dropped(clusters, i)
    ensures !dropped ==> box == Hull(clusters, i, |clusters|)
  {
    hide Overlapping, Hull, Before, Sound, Complete, Ordered;
    box := cs[i];
    ghost var n := i + 1;
    HullStart(clusters, i);
    forall l | 0 <= l < |pairs|
      ensures pairs[l].first < pairs[l].second
    {
      ListedOverlaps(clusters, pairs, l);
    }
    for k := 0 to |pairs|
      invariant i < n <= |cs| && box == Hull(clusters, i, n)
      invariant forall l | 0 <= l < k :: pairs[l].second != i
      invariant forall l | 0 <= l < k && pairs[l].first == i :: pairs[l].second < n
      invariant forall l | k <= l < |pairs| && pairs[l].first == i :: n <= pairs[l].second
    {
      var a, b := pairs[k].first, pairs[k].second;
      ListedOverlaps(clusters, pairs, k);
      if b == i {
        return true, box;
      }
      if a != i {
        continue;
      }
      LaterSeconds(pairs, k);
      HullSkips(clusters, pairs, i, n, b);
      HullTakes(clusters, i, b);
      box := box.Merged(cs[b]);
      n := b + 1;
    }
    NotDropped(clusters, pairs, i);
    HullSkips(clusters, pairs, i, n, |clusters|);
    return false, box;
  }

  lemma ListedOverlaps(cs: seq<Box>, pairs: seq<IndexPair>, k: nat)
    requires ArePairs(cs, pairs, |cs|, 0) && k < |pairs|
    ensures pairs[k].first < pairs[k].second < |cs| && Overlapping(cs[pairs[k].first], cs[pairs[k].second])
    ensures Dropped(cs, pairs[k].second)
  {
    hide Overlapping;
    assert pairs[k] in pairs;
  }

  lemma Listed(cs: seq<Box>, pairs: seq<IndexPair>, a: nat, b: nat)
    requires ArePairs(cs, pairs, |cs|, 0) && a < b < |cs|
    ensures Overlapping(cs[a], cs[b]) ==> IndexPair(a, b) in pairs
  {
    hide Overlapping;
    assert Before(IndexPair(a, b), |cs|, 0);
  }

  lemma HullStart(cs: seq<Box>, i: nat)
    requires i < |cs|
    ensures Hull(cs, i, i + 1) == cs[i]
  {
  }

  lemma HullTakes(cs: seq<Box>, i: nat, b: nat)
    requires i < b < |cs| && Overlapping(cs[i], cs[b])
    ensures Hull(cs, i, b + 1) == Hull(cs, i, b).Merged(cs[b])
  {
    hide Overlapping;
  }

  /** Boxes without a pair leave the hull as it is. */
  lemma {:induction false} HullSkips(cs: seq<Box>, pairs: seq<IndexPair>, i: nat, n: nat, b: nat)
    requires ArePairs(cs, pairs, |cs|, 0) && i < n <= b <= |cs|
    requires forall p | p in pairs && p.first == i :: p.second < n || b <= p.second
    ensures Hull(cs, i, b) == Hull(cs, i, n)
    decreases b
  {
    hide Overlapping;
    if n < b {
      HullSkips(cs, pairs, i, n, b - 1);
      Listed(cs, pairs, i, b - 1);
    }
  }

  lemma LaterSeconds(pairs: seq<IndexPair>, k: nat)
    requires Ordered(pairs) && k < |pairs|
    ensures forall l | k <= l < |pairs| && pairs[l].first == pairs[k].first :: pairs[k].second <= pairs[l].second
    ensures forall l | k < l < |pairs| && pairs[l].first == pairs[k].first :: pairs[k].second < pairs[l].second
  {
  }

  lemma NotDropped(cs: seq<Box>, pairs: seq<IndexPair>, i: nat)
    requires ArePairs(cs, pairs, |cs|, 0) && i < |cs|
    requires forall l | 0 <= l < |pairs| :: pairs[l].second != i
    ensures !Dropped(cs, i)
  {
    hide Overlapping;
    forall a | 0 <= a < i
      ensures !Overlapping(cs[a], cs[i])
    {
      Listed(cs, pairs, a, i);
    }
  }

  /** Merges until nothing overlaps or the rounds are used up. An error is raised if no round was allowed. */
  method Merge(clusters: seq<Box>, iterations: nat) returns (merged: seq<Box>, failed: bool)
    ensures merged == Rounds(clusters, iterations)
    ensures failed <==> iterations == 0
  {
    hide HasOverlap;
    merged := clusters;
    var j := 0;
    while j < iterations
      invariant j <= iterations && Rounds(merged, iterations - j) == Rounds(clusters, iterations)
    {
      var found, pairs := Search(merged);
      if !found {
        break;
      }
      merged := MergeRound(merged, pairs);
      j := j + 1;
    }
    failed := iterations == 0;
  }

  // ---------------------------------------------------------------- what merging achieves

  /** The first box is never dropped, and each round that finds an overlap drops a box. */
  lemma {:induction false} RoundSize(cs: seq<Box>, n: nat)
    requires n <= |cs|
    ensures |Round(cs, n)| <= n
    ensures n > 0 ==> |Round(cs, n)| > 0
    ensures (exists i :: 0 <= i < n && Dropped(cs, i)) ==> |Round(cs, n)| < n
  {
    hide Hull, Dropped;
    if n > 0 {
      RoundSize(cs, n - 1);
      if n == 1 {
        FirstIsKept(cs);
      }
    }
  }

  lemma FirstIsKept(cs: seq<Box>)
    requires cs != []
    ensures !Dropped(cs, 0)
  {
  }

  lemma RoundShrinks(cs: seq<Box>)
    requires HasOverlap(cs)
    ensures 0 < |Round(cs, |cs|)| < |cs|
  {
    hide Round, Overlapping;
    var a, b :| 0 <= a < b < |cs| && Overlapping(cs[a], cs[b]);
    assert Dropped(cs, b);
    RoundSize(cs, |cs|);
  }

  /** With enough rounds no two boxes of the result overlap. */
  lemma {:induction false} EnoughRounds(cs: seq<Box>, iterations: nat)
    requires |cs| <= iterations + 1
    ensures !HasOverlap(Rounds(cs, iterations))
    decreases iterations
  {
    hide Round;
    if iterations > 0 && HasOverlap(cs) {
      RoundShrinks(cs);
      EnoughRounds(Round(cs, |cs|), iterations - 1);
    }
  }

  /** Then merging again changes nothing. */
  lemma MergedStaysMerged(cs: seq<Box>, iterations: nat, again: nat)
    requires |cs| <= iterations + 1
    ensures Rounds(Rounds(cs, iterations), again) == Rounds(cs, iterations)
  {
    EnoughRounds(cs, iterations);
  }

  // ---------------------------------------------------------------- where the result comes from

  /** `h` is the smallest box around the boxes with the given indices. */
  ghost predicate IsHull(h: Box, cs: seq<Box>, from: set<nat>) {
    && h.Box? && from != {}
    && (forall i | i in from :: i < |cs| && cs[i].Box? && h.minX <= cs[i].minX && h.minY <= cs[i].minY
                               && cs[i].maxX <= h.maxX && cs[i].maxY <= h.maxY)
    && (exists i :: i in from && cs[i].minX == h.minX)
    && (exists i :: i in from && cs[i].minY == h.minY)
    && (exists i :: i in from && cs[i].maxX == h.maxX)
    && (exists i :: i in from && cs[i].maxY == h.maxY)
  }

  lemma HullOfOne(cs: seq<Box>, i: nat)
    requires i < |cs| && cs[i].Box?
    ensures IsHull(cs[i], cs, {i})
  {
    assert i in {i};
  }

  lemma HullOfTwo(cs: seq<Box>, a: Box, from: set<nat>, b: Box, more: set<nat>)
    requires IsHull(a, cs, from) && IsHull(b, cs, more)
    ensures IsHull(a.Merged(b), cs, from + more)
  {
    var h, all := a.Merged(b), from + more;
    var i :| i in from && cs[i].minX == a.minX;
    var j :| j in more && cs[j].minX == b.minX;
    assert i in all && j in all && (cs[i].minX == h.minX || cs[j].minX == h.minX);
    var i1 :| i1 in from && cs[i1].minY == a.minY;
    var j1 :| j1 in more && cs[j1].minY == b.minY;
    assert i1 in all && j1 in all && (cs[i1].minY == h.minY || cs[j1].minY == h.minY);
    var i2 :| i2 in from && cs[i2].maxX == a.maxX;
    var j2 :| j2 in more && cs[j2].maxX == b.maxX;
    assert i2 in all && j2 in all && (cs[i2].maxX == h.maxX || cs[j2].maxX == h.maxX);
    var i3 :| i3 in from && cs[i3].maxY == a.maxY;
    var j3 :| j3 in more && cs[j3].maxY == b.maxY;
    assert i3 in all && j3 in all && (cs[i3].maxY == h.maxY || cs[j3].maxY == h.maxY);
  }

  ghost predicate AreBoxes(cs: seq<Box>) {
    forall i | 0 <= i < |cs| :: cs[i].Box?
  }

  /** The input boxes that each of the boxes `cs` was made of. */
  ghost predicate AreSources(input: seq<Box>, cs: seq<Box>, sources: seq<set<nat>>) {
    |cs| == |sources| && forall k | 0 <= k < |cs| :: IsHull(cs[k], input, sources[k])
  }

  /** The input boxes that go into the hull of box `i`. */
  ghost function HullFrom(cs: seq<Box>, sources: seq<set<nat>>, i: nat, n: nat): set<nat>
    requires i < |cs| == |sources| && n <= |cs|
  {
    if n <= i + 1 then sources[i]
    else
      var from := HullFrom(cs, sources, i, n - 1);
      if Overlapping(cs[i], cs[n - 1]) then from + sources[n - 1] else from
  }

  /** The input boxes that go into each box of a round. */
  ghost function RoundFrom(cs: seq<Box>, sources: seq<set<nat>>, n: nat): (after: seq<set<nat>>)
    requires n <= |cs| == |sources|
    ensures |after| == |Round(cs, n)|
  {
    if n == 0 then []
    else RoundFrom(cs, sources, n - 1) + if Dropped(cs, n - 1) then [] else [HullFrom(cs, sources, n - 1, |cs|)]
  }

  /** The input boxes that go into each box of the result. */
  ghost function RoundsFrom(cs: seq<Box>, sources: seq<set<nat>>, iterations: nat): (after: seq<set<nat>>)
    requires |cs| == |sources|
    ensures |after| == |Rounds(cs, iterations)|
    decreases iterations
  {
    if iterations == 0 || !HasOverlap(cs) then sources
    else RoundsFrom(Round(cs, |cs|), RoundFrom(cs, sources, |cs|), iterations - 1)
  }

  /** At first each box comes from itself. */
  ghost function Own(n: nat): (sources: seq<set<nat>>)
    ensures |sources| == n && forall i | 0 <= i < n :: sources[i] == {i}
  {
    seq(n, i requires 0 <= i < n => {i as nat})
  }

  lemma {:induction false} HullSources(input: seq<Box>, cs: seq<Box>, sources: seq<set<nat>>, i: nat, n: nat)
    requires AreSources(input, cs, sources) && i < |cs| && n <= |cs|
    ensures IsHull(Hull(cs, i, n), input, HullFrom(cs, sources, i, n))
    decreases n
  {
    hide IsHull, Overlapping;
    if n > i + 1 {
      HullSources(input, cs, sources, i, n - 1);
      if Overlapping(cs[i], cs[n - 1]) {
        HullOfTwo(input, Hull(cs, i, n - 1), HullFrom(cs, sources, i, n - 1), cs[n - 1], sources[n - 1]);
      }
    }
  }

  lemma {:induction false} RoundSources(input: seq<Box>, cs: seq<Box>, sources: seq<set<nat>>, n: nat)
    requires AreSources(input, cs, sources) && n <= |cs|
    ensures AreSources(input, Round(cs, n), RoundFrom(cs, sources, n))
  {
    hide IsHull, Hull, HullFrom, Dropped;
    if n > 0 {
      RoundSources(input, cs, sources, n - 1);
      if !Dropped(cs, n - 1) {
        HullSources(input, cs, sources, n - 1, |cs|);
      }
    }
  }

  lemma {:induction false} RoundsSources(input: seq<Box>, cs: seq<Box>, sources: seq<set<nat>>, iterations: nat)
    requires AreSources(input, cs, sources)
    ensures AreSources(input, Rounds(cs, iterations), RoundsFrom(cs, sources, iterations))
    decreases iterations
  {
    hide IsHull, Round, RoundFrom, HasOverlap;
    if iterations > 0 && HasOverlap(cs) {
      RoundSources(input, cs, sources, |cs|);
      RoundsSources(input, Round(cs, |cs|), RoundFrom(cs, sources, |cs|), iterations - 1);
    }
  }

  /** Every box of the result is the smallest box around some of the given boxes, namely those it was made of. */
  lemma MergedBoxesAreHulls(cs: seq<Box>, iterations: nat, k: nat)
    requires AreBoxes(cs) && k < |Rounds(cs, iterations)|
    ensures IsHull(Rounds(cs, iterations)[k], cs, RoundsFrom(cs, Own(|cs|), iterations)[k])
  {
    hide IsHull, Rounds, RoundsFrom;
    forall i | 0 <= i < |cs|
      ensures IsHull(cs[i], cs, Own(|cs|)[i])
    {
      HullOfOne(cs, i);
    }
    RoundsSources(cs, cs, Own(|cs|), iterations);
  }

  // ---------------------------------------------------------------- which boxes are lost

  /** The box is kept in this round, or a box that is kept takes it in. */
  ghost predicate Taken(cs: seq<Box>, i: nat)
    requires i < |cs|
  {
    !Dropped(cs, i) || exists a :: 0 <= a < i && !Dropped(cs, a) && Overlapping(cs[a], cs[i])
  }

  /** Some of the boxes with these sources was made of input box `k`. */
  ghost predicate Carried(sources: seq<set<nat>>, k: nat) {
    exists j :: 0 <= j < |sources| && k in sources[j]
  }

  /** A box that was made of input box `k` is taken in this round. */
  ghost predicate CarrierTaken(cs: seq<Box>, sources: seq<set<nat>>, k: nat)
    requires |cs| == |sources|
  {
    exists j :: 0 <= j < |cs| && k in sources[j] && Taken(cs, j)
  }

  /** What goes into a hull: the box itself, and the later ones it overlaps. */
  lemma {:induction false} InHull(cs: seq<Box>, sources: seq<set<nat>>, i: nat, n: nat, k: nat)
    requires i < n <= |cs| == |sources|
    ensures k in HullFrom(cs, sources, i, n) <==>
            exists b :: i <= b < n && k in sources[b] && (b == i || Overlapping(cs[i], cs[b]))
    decreases n
  {
    hide Overlapping;
    if n > i + 1 {
      InHull(cs, sources, i, n - 1, k);
    } else {
      assert k in sources[i] <==> k in HullFrom(cs, sources, i, n);
    }
  }

  /** The boxes of a round are the hulls of the boxes that are kept. */
  lemma {:induction false} InRound(cs: seq<Box>, sources: seq<set<nat>>, n: nat, k: nat)
    requires n <= |cs| == |sources|
    ensures Carried(RoundFrom(cs, sources, n), k) <==>
            exists i :: 0 <= i < n && !Dropped(cs, i) && k in HullFrom(cs, sources, i, |cs|)
  {
    hide HullFrom, Dropped;
    if n > 0 {
      var before, after := RoundFrom(cs, sources, n - 1), RoundFrom(cs, sources, n);
      InRound(cs, sources, n - 1, k);
      assert forall j | 0 <= j < |before| :: after[j] == before[j];
      if !Dropped(cs, n - 1) {
        assert after[|before|] == HullFrom(cs, sources, n - 1, |cs|);
      }
    }
  }

  /** One round loses exactly the input boxes none of whose carriers is taken. */
  lemma RoundCarries(cs: seq<Box>, sources: seq<set<nat>>, k: nat)
    requires |cs| == |sources|
    ensures Carried(RoundFrom(cs, sources, |cs|), k) <==> CarrierTaken(cs, sources, k)
  {
    hide Overlapping, HullFrom, Dropped, RoundFrom;
    InRound(cs, sources, |cs|, k);
    if i :| 0 <= i < |cs| && !Dropped(cs, i) && k in HullFrom(cs, sources, i, |cs|) {
      InHull(cs, sources, i, |cs|, k);
      var b :| i <= b < |cs| && k in sources[b] && (b == i || Overlapping(cs[i], cs[b]));
      assert Taken(cs, b);
    }
    if CarrierTaken(cs, sources, k) {
      var j :| 0 <= j < |cs| && k in sources[j] && Taken(cs, j);
      var a := j;
      if Dropped(cs, j) {
        a :| 0 <= a < j && !Dropped(cs, a) && Overlapping(cs[a], cs[j]);
      }
      InHull(cs, sources, a, |cs|, k);
    }
  }

  /** If the round after `r` others is run, it takes a box that was made of input box `k`. */
  ghost predicate SurvivesRound(cs: seq<Box>, sources: seq<set<nat>>, r: nat, k: nat)
    requires |cs| == |sources|
  {
    HasOverlap(Rounds(cs, r)) ==> CarrierTaken(Rounds(cs, r), RoundsFrom(cs, sources, r), k)
  }

  lemma {:induction false} CarriedThrough(cs: seq<Box>, sources: seq<set<nat>>, iterations: nat, k: nat)
    requires |cs| == |sources| && Carried(sources, k)
    ensures Carried(RoundsFrom(cs, sources, iterations), k) <==>
            forall r | 0 <= r < iterations :: SurvivesRound(cs, sources, r, k)
    decreases iterations
  {
    hide Round, RoundFrom, HasOverlap, CarrierTaken;
    if !HasOverlap(cs) {
      assert forall r: nat :: Rounds(cs, r) == cs;
    } else if iterations > 0 {
      var next, from := Round(cs, |cs|), RoundFrom(cs, sources, |cs|);
      assert Rounds(cs, 0) == cs && RoundsFrom(cs, sources, 0) == sources;
      assert SurvivesRound(cs, sources, 0, k) <==> CarrierTaken(cs, sources, k);
      RoundCarries(cs, sources, k);
      forall r: nat
        ensures SurvivesRound(next, from, r, k) <==> SurvivesRound(cs, sources, r + 1, k)
      {
        assert Rounds(cs, r + 1) == Rounds(next, r) && RoundsFrom(cs, sources, r + 1) == RoundsFrom(next, from, r);
      }
      if Carried(from, k) {
        CarriedThrough(next, from, iterations - 1, k);
        Shifted(cs, sources, next, from, iterations, k);
      } else {
        LostStaysLost(next, from, iterations - 1, k);
      }
    }
  }

  /** All rounds are survived exactly if the first is, and all later ones are. */
  lemma Shifted(cs: seq<Box>, sources: seq<set<nat>>, next: seq<Box>, from: seq<set<nat>>, iterations: nat, k: nat)
    requires |cs| == |sources| && |next| == |from| && iterations > 0
    requires forall r: nat :: SurvivesRound(next, from, r, k) <==> SurvivesRound(cs, sources, r + 1, k)
    ensures (forall r | 0 <= r < iterations :: SurvivesRound(cs, sources, r, k)) <==>
            SurvivesRound(cs, sources, 0, k) && forall r | 0 <= r < iterations - 1 :: SurvivesRound(next, from, r, k)
  {
    hide SurvivesRound;
    if SurvivesRound(cs, sources, 0, k) && forall r | 0 <= r < iterations - 1 :: SurvivesRound(next, from, r, k) {
      forall r: nat | r < iterations
        ensures SurvivesRound(cs, sources, r, k)
      {
        if r > 0 {
          assert SurvivesRound(next, from, r - 1, k);
        }
      }
    }
    if forall r | 0 <= r < iterations :: SurvivesRound(cs, sources, r, k) {
      forall r: nat | r < iterations - 1
        ensures SurvivesRound(next, from, r, k)
      {
        assert SurvivesRound(cs, sources, r + 1, k);
      }
    }
  }

  /** A box that is in no source set never comes back. */
  lemma {:induction false} LostStaysLost(cs: seq<Box>, sources: seq<set<nat>>, iterations: nat, k: nat)
    requires |cs| == |sources| && !Carried(sources, k)
    ensures !Carried(RoundsFrom(cs, sources, iterations), k)
    decreases iterations
  {
    hide Round, RoundFrom, HasOverlap;
    if iterations > 0 && HasOverlap(cs) {
      RoundCarries(cs, sources, k);
      LostStaysLost(Round(cs, |cs|), RoundFrom(cs, sources, |cs|), iterations - 1, k);
    }
  }

  /** An input box is part of the result exactly if every round that is run takes one of the boxes that were made of
      it. */
  lemma BoxIsLostExactly(cs: seq<Box>, iterations: nat, k: nat)
    requires k < |cs|
    ensures Carried(RoundsFrom(cs, Own(|cs|), iterations), k) <==>
            forall r | 0 <= r < iterations :: SurvivesRound(cs, Own(|cs|), r, k)
  {
    hide RoundsFrom, SurvivesRound;
    assert k in Own(|cs|)[k];
    CarriedThrough(cs, Own(|cs|), iterations, k);
  }

  /** An input box that is part of the result is covered by a box of the result. */
  lemma CarriedBoxIsCovered(cs: seq<Box>, iterations: nat, k: nat)
    requires AreBoxes(cs) && k < |cs| && Carried(RoundsFrom(cs, Own(|cs|), iterations), k)
    ensures exists b :: b in Rounds(cs, iterations) && cs[k].Within(b)
  {
    hide RoundsFrom, Rounds;
    var from := RoundsFrom(cs, Own(|cs|), iterations);
    var j :| 0 <= j < |from| && k in from[j];
    MergedBoxesAreHulls(cs, iterations, j);
    assert Rounds(cs, iterations)[j] in Rounds(cs, iterations);
  }

  /** All boxes are taken in the round after `r` others, if it is run. */
  ghost predicate AllTaken(cs: seq<Box>, r: nat) {
    HasOverlap(Rounds(cs, r)) ==> forall j | 0 <= j < |Rounds(cs, r)| :: Taken(Rounds(cs, r), j)
  }

  /** If every round that is run takes all of its boxes, the result covers every input box. */
  lemma {:induction false} TakenBoxesAreCovered(cs: seq<Box>, iterations: nat, k: nat)
    requires AreBoxes(cs) && k < |cs| && forall r | 0 <= r < iterations :: AllTaken(cs, r)
    ensures exists b :: b in Rounds(cs, iterations) && cs[k].Within(b)
  {
    hide Rounds, RoundsFrom, Taken, SurvivesRound, HasOverlap;
    TakenBoxesSurvive(cs, iterations, k);
    BoxIsLostExactly(cs, iterations, k);
    CarriedBoxIsCovered(cs, iterations, k);
  }

  lemma {:induction false} TakenBoxesSurvive(cs: seq<Box>, iterations: nat, k: nat)
    requires k < |cs| && forall r | 0 <= r < iterations :: AllTaken(cs, r)
    ensures forall r | 0 <= r < iterations :: SurvivesRound(cs, Own(|cs|), r, k)
  {
    hide Rounds, RoundsFrom, Taken, HasOverlap;
    if iterations > 0 {
      var n := iterations - 1;
      TakenBoxesSurvive(cs, n, k);
      BoxIsLostExactly(cs, n, k);
      var j :| 0 <= j < |RoundsFrom(cs, Own(|cs|), n)| && k in RoundsFrom(cs, Own(|cs|), n)[j];
      assert AllTaken(cs, n);
      assert SurvivesRound(cs, Own(|cs|), n, k);
    }
  }

  // ---------------------------------------------------------------- examples

  /** Three boxes in a chain: the last one overlaps only its neighbour, which is itself dropped, after the first took it
      in. */
  function Chain(): seq<Box> {
    [Box(0, 0, 5, 2), Box(2, 0, 7, 2), Box(4, 0, 9, 2)]
  }

  /** However many rounds are run, the pixels at the end of the chain are lost. */
  lemma ChainLosesPixels(iterations: nat)
    requires iterations > 0
    ensures Rounds(Chain(), iterations) == [Box(0, 0, 7, 2)]
    ensures !Taken(Chain(), 2) && Chain()[2].Contains(Point(9, 0)) && !Box(0, 0, 7, 2).Contains(Point(9, 0))
  {
    hide Overlapping, Rounds;
    var cs := Chain();
    ChainOverlaps();
    assert HasOverlap(cs);
    ChainRound(cs);
    RoundsUnfold(cs, iterations);
    RoundsUnfold([Box(0, 0, 7, 2)], iterations - 1);
  }

  lemma ChainOverlaps()
    ensures Overlapping(Chain()[0], Chain()[1]) && Overlapping(Chain()[1], Chain()[2])
              && !Overlapping(Chain()[0], Chain()[2])
  {
    assert Overlap(Chain()[0], Chain()[1]) == Some(0.5);
    assert Overlap(Chain()[1], Chain()[2]) == Some(0.5);
    assert Overlap(Chain()[0], Chain()[2]) == Some(0.2);
  }

  lemma RoundsUnfold(cs: seq<Box>, iterations: nat)
    ensures iterations == 0 || !HasOverlap(cs) ==> Rounds(cs, iterations) == cs
    ensures iterations > 0 && HasOverlap(cs) ==> Rounds(cs, iterations) == Rounds(Round(cs, |cs|), iterations - 1)
  {
    hide Round, HasOverlap;
  }

  lemma ChainRound(cs: seq<Box>)
    requires |cs| == 3 && Overlapping(cs[0], cs[1]) && Overlapping(cs[1], cs[2]) && !Overlapping(cs[0], cs[2])
    ensures Dropped(cs, 1) && Dropped(cs, 2) && !Taken(cs, 2)
    ensures Round(cs, 3) == [cs[0].Merged(cs[1])]
  {
    hide Overlapping;
    assert Round(cs, 1) == [Hull(cs, 0, 3)];
    assert Hull(cs, 0, 2) == cs[0].Merged(cs[1]);
    assert Round(cs, 2) == Round(cs, 1);
  }

  /** Four boxes that the first round takes all; it makes a chain of three out of them. */
  function LateChain(): seq<Box> {
    [Box(2, 2, 8, 6), Box(3, 2, 6, 5), Box(4, 2, 10, 5), Box(3, 2, 8, 4)]
  }

  lemma LateOverlaps()
    ensures var cs := LateChain();
            && !Overlapping(cs[0], cs[1]) && !Overlapping(cs[0], cs[2]) && Overlapping(cs[0], cs[3])
            && !Overlapping(cs[1], cs[2]) && Overlapping(cs[1], cs[3]) && !Overlapping(cs[2], cs[3])
    ensures Overlapping(Box(2, 2, 8, 6), Box(3, 2, 8, 5)) && Overlapping(Box(3, 2, 8, 5), Box(4, 2, 10, 5))
  {
    var cs := LateChain();
    assert Area(cs[0].Intersection(cs[1])) == 16 && Area(cs[0]) == 35 && Area(cs[1]) == 16;
    assert Area(cs[0].Intersection(cs[2])) == 20 && Area(cs[2]) == 28;
    assert Area(cs[0].Intersection(cs[3])) == 18 && Area(cs[3]) == 18;
    assert Area(cs[1].Intersection(cs[2])) == 12;
    assert Area(cs[1].Intersection(cs[3])) == 12;
    assert Area(cs[2].Intersection(cs[3])) == 15;
  }

  lemma LateRound(cs: seq<Box>)
    requires |cs| == 4 && Overlapping(cs[0], cs[3]) && Overlapping(cs[1], cs[3])
    requires !Overlapping(cs[0], cs[1]) && !Overlapping(cs[0], cs[2]) && !Overlapping(cs[1], cs[2])
              && !Overlapping(cs[2], cs[3])
    ensures forall i | 0 <= i < 4 :: Taken(cs, i)
    ensures Round(cs, 4) == [cs[0].Merged(cs[3]), cs[1].Merged(cs[3]), cs[2]]
  {
    hide Overlapping;
    assert Hull(cs, 0, 1) == cs[0] && Hull(cs, 0, 2) == cs[0] && Hull(cs, 0, 3) == cs[0];
    assert Hull(cs, 1, 2) == cs[1] && Hull(cs, 1, 3) == cs[1];
    assert Hull(cs, 2, 3) == cs[2] && Hull(cs, 2, 4) == cs[2];
    assert Round(cs, 1) == [Hull(cs, 0, 4)];
    assert Round(cs, 2) == [Hull(cs, 0, 4), Hull(cs, 1, 4)];
    assert Round(cs, 3) == [Hull(cs, 0, 4), Hull(cs, 1, 4), Hull(cs, 2, 4)];
  }

  /** A round that takes all boxes can prepare the loss: the second round drops the third box. */
  lemma LateChainLosesPixels(iterations: nat)
    requires iterations >= 2
    ensures Rounds(LateChain(), iterations) == [Box(2, 2, 8, 6)]
    ensures forall i | 0 <= i < 4 :: Taken(LateChain(), i)
    ensures LateChain()[2].Contains(Point(9, 2)) && !Box(2, 2, 8, 6).Contains(Point(9, 2))
  {
    hide Overlapping, Rounds, Taken, Dropped;
    var cs := LateChain();
    LateOverlaps();
    LateRound(cs);
    assert HasOverlap(cs);
    RoundsUnfold(cs, iterations);
    var ds := [Box(2, 2, 8, 6), Box(3, 2, 8, 5), Box(4, 2, 10, 5)];
    assert Round(cs, 4) == ds;
    assert Overlapping(ds[0], ds[1]) && HasOverlap(ds);
    ChainRound(ds);
    RoundsUnfold(ds, iterations - 1);
    RoundsUnfold([Box(2, 2, 8, 6)], iterations - 2);
  }
}
