/** From the blurred heatmap to the boxes that Gaussians are fitted to: maxima, suppression, spanning, merging. */
module Detector {
  import opened Geometry
  import Maximas
  import Suppression
  import Cluster
  import Overlaps
  import GaussianFit
  import Regularity

  const MERGE_ROUNDS := 5

  datatype Config = Config(activation: real, deactivation: real, suppressionRadius: nat, suppressionFactor: real)

  /** The cluster with one more pixel on each side, as far as the heatmap goes. */
  function Grown(b: Box, image: array2<real>): Box
    requires b.Box?
  {
    Box(Max(b.minX - 1, 0), Max(b.minY - 1, 0), Min(b.maxX + 1, image.Length1 - 1), Min(b.maxY + 1, image.Length0 - 1))
  }

  /** A box that is large enough to fit a Gaussian to: on the heatmap, and at least three pixels wide and high. */
  ghost predicate IsFittable(b: Box, image: array2<real>) {
    && b.Box?
    && 0 <= b.minX && b.minX + 2 <= b.maxX < image.Length1
    && 0 <= b.minY && b.minY + 2 <= b.maxY < image.Length0
  }

  /** The pixel is one of the heatmap, and it is in the box or next to it, also across a corner. */
  ghost predicate IsNear(b: Box, p: Point, image: array2<real>) {
    && 0 <= p.x < image.Length1 && 0 <= p.y < image.Length0
    && exists q | b.Contains(q) :: -1 <= p.x - q.x <= 1 && -1 <= p.y - q.y <= 1
  }

  /** The cluster is the span and all pixels next to it. */
  ghost predicate IsCluster(b: Box, cluster: Box, image: array2<real>) {
    !b.IsEmpty() && cluster.Box? && forall p :: cluster.Contains(p) <==> IsNear(b, p, image)
  }

  /** What one maximum adds to the list: its cluster, unless that is too small. */
  ghost predicate FromMaximum(search: Cluster.Search, m: Point, added: seq<Box>)
    reads search.heatmap
  {
    exists b :: Cluster.IsSpan(search, m, b) &&
      if exists g :: IsCluster(b, g, search.heatmap) && IsFittable(g, search.heatmap)
      then |added| == 1 && IsCluster(b, added[0], search.heatmap) && IsFittable(added[0], search.heatmap)
      else added == []
  }

  /** The boxes are those of the maxima, one maximum after the other. */
  ghost predicate AreClusters(search: Cluster.Search, maximas: seq<Point>, clusters: seq<Box>)
    reads search.heatmap
  {
    if maximas == [] then clusters == []
    else exists before, added ::
      && clusters == before + added
      && AreClusters(search, maximas[..|maximas| - 1], before)
      && FromMaximum(search, maximas[|maximas| - 1], added)
  }

  lemma {:induction false} ClustersAreFittable(search: Cluster.Search, maximas: seq<Point>, clusters: seq<Box>)
    requires AreClusters(search, maximas, clusters)
    ensures forall i | 0 <= i < |clusters| :: IsFittable(clusters[i], search.heatmap)
  {
    hide Cluster.IsSpan, IsCluster, IsFittable;
    if maximas != [] {
      var before, added :| clusters == before + added
        && AreClusters(search, maximas[..|maximas| - 1], before) && FromMaximum(search, maximas[|maximas| - 1], added);
      ClustersAreFittable(search, maximas[..|maximas| - 1], before);
    }
  }

  /** A span that is on the heatmap, and its cluster. */
  lemma GrownIsCluster(b: Box, image: array2<real>)
    requires !b.IsEmpty() && 0 <= b.minX && b.maxX < image.Length1 && 0 <= b.minY && b.maxY < image.Length0
    ensures IsCluster(b, Grown(b, image), image)
  {
    var g := Grown(b, image);
    forall p
      ensures g.Contains(p) <==> IsNear(b, p, image)
    {
      if g.Contains(p) {
        var q := Point(Max(b.minX, Min(p.x, b.maxX)), Max(b.minY, Min(p.y, b.maxY)));
        assert b.Contains(q) && -1 <= p.x - q.x <= 1 && -1 <= p.y - q.y <= 1;
      }
    }
  }

  /** A span has one cluster only. */
  lemma OneCluster(b: Box, g: Box, h: Box, image: array2<real>)
    requires IsCluster(b, g, image) && IsCluster(b, h, image) && !g.IsEmpty()
    ensures g == h
  {
    assert forall p :: g.Contains(p) <==> h.Contains(p);
    var low, high := Point(g.minX, g.minY), Point(g.maxX, g.maxY);
    assert g.Contains(low) && g.Contains(high);
    assert h.Contains(Point(h.minX, h.minY)) && h.Contains(Point(h.maxX, h.maxY));
  }

  /** The spans of the maxima determine the list. */
  lemma {:induction false} ClustersAreUnique(search: Cluster.Search, maximas: seq<Point>, a: seq<Box>, b: seq<Box>)
    requires AreClusters(search, maximas, a) && AreClusters(search, maximas, b)
    ensures a == b
  {
    hide FromMaximum;
    if maximas != [] {
      var rest, m := maximas[..|maximas| - 1], maximas[|maximas| - 1];
      var a0, a1 :| a == a0 + a1 && AreClusters(search, rest, a0) && FromMaximum(search, m, a1);
      var b0, b1 :| b == b0 + b1 && AreClusters(search, rest, b0) && FromMaximum(search, m, b1);
      ClustersAreUnique(search, rest, a0, b0);
      AddedIsUnique(search, m, a1, b1);
    }
  }

  lemma AddedIsUnique(search: Cluster.Search, m: Point, a: seq<Box>, b: seq<Box>)
    requires FromMaximum(search, m, a) && FromMaximum(search, m, b)
    ensures a == b
  {
    hide Cluster.IsSpan, IsCluster;
    var s :| Cluster.IsSpan(search, m, s) &&
      if exists g :: IsCluster(s, g, search.heatmap) && IsFittable(g, search.heatmap)
      then |a| == 1 && IsCluster(s, a[0], search.heatmap) && IsFittable(a[0], search.heatmap)
      else a == [];
    var t :| Cluster.IsSpan(search, m, t) &&
      if exists g :: IsCluster(t, g, search.heatmap) && IsFittable(g, search.heatmap)
      then |b| == 1 && IsCluster(t, b[0], search.heatmap) && IsFittable(b[0], search.heatmap)
      else b == [];
    Cluster.SpanIsUnique(search, m, s, t);
    if exists g :: IsCluster(s, g, search.heatmap) && IsFittable(g, search.heatmap) {
      OneCluster(s, a[0], b[0], search.heatmap);
    }
  }

  /** The cluster of every maximum is in the list, unless it is too small. */
  lemma {:induction false} NoClusterIsMissing(search: Cluster.Search, maximas: seq<Point>, clusters: seq<Box>,
      m: Point, b: Box, g: Box)
    requires AreClusters(search, maximas, clusters) && m in maximas
    requires Cluster.IsSpan(search, m, b) && IsCluster(b, g, search.heatmap) && IsFittable(g, search.heatmap)
    ensures g in clusters
  {
    hide FromMaximum, Cluster.IsSpan, IsCluster, IsFittable;
    var rest, last := maximas[..|maximas| - 1], maximas[|maximas| - 1];
    var before, added :| clusters == before + added && AreClusters(search, rest, before)
      && FromMaximum(search, last, added);
    if m == last {
      AddedIfLargeEnough(search, m, b, g, added);
    } else {
      assert maximas == rest + [last];
      NoClusterIsMissing(search, rest, before, m, b, g);
    }
  }

  lemma AddedIfLargeEnough(search: Cluster.Search, m: Point, b: Box, g: Box, added: seq<Box>)
    requires FromMaximum(search, m, added)
    requires Cluster.IsSpan(search, m, b) && IsCluster(b, g, search.heatmap) && IsFittable(g, search.heatmap)
    ensures added == [g]
  {
    hide Cluster.IsSpan, IsCluster;
    var s :| Cluster.IsSpan(search, m, s) &&
      if exists h :: IsCluster(s, h, search.heatmap) && IsFittable(h, search.heatmap)
      then |added| == 1 && IsCluster(s, added[0], search.heatmap) && IsFittable(added[0], search.heatmap)
      else added == [];
    Cluster.SpanIsUnique(search, m, s, b);
    OneCluster(b, g, added[0], search.heatmap);
  }

  method SpanClusters(search: Cluster.Search, maximas: seq<Point>, highest: real) returns (clusters: seq<Box>)
    requires forall y, x | 0 <= y < search.heatmap.Length0 && 0 <= x < search.heatmap.Length1 ::
              search.heatmap[y, x] <= highest
    ensures AreClusters(search, maximas, clusters)
  {
    hide Cluster.IsSpan, IsCluster, FromMaximum, IsFittable;
    clusters := [];
    for k := 0 to |maximas|
      invariant AreClusters(search, maximas[..k], clusters)
    {
      var cluster := Cluster.Span(search, maximas[k], highest);
      ghost var before := clusters;
      ghost var added := [];
      if !cluster.IsEmpty() {
        var grown := Grown(cluster, search.heatmap);
        // the bounds are inclusive
        if grown.maxX - grown.minX + 1 >= 3 && grown.maxY - grown.minY + 1 >= 3 {
          clusters := clusters + [grown];
          added := [grown];
        }
      }
      SpanAdds(search, maximas[k], cluster, added);
      assert maximas[..k + 1][..k] == maximas[..k] && clusters == before + added;
    }
    assert maximas[..|maximas|] == maximas;
  }

  lemma SpanAdds(search: Cluster.Search, m: Point, b: Box, added: seq<Box>)
    requires Cluster.IsSpan(search, m, b)
    requires added == if !b.IsEmpty() && (var g := Grown(b, search.heatmap);
                         g.maxX - g.minX + 1 >= 3 && g.maxY - g.minY + 1 >= 3)
               then [Grown(b, search.heatmap)] else []
    ensures FromMaximum(search, m, added)
  {
    hide IsCluster;
    if !b.IsEmpty() {
      Cluster.SpanIsOnHeatmap(search, m, b);
      GrownIsCluster(b, search.heatmap);
      forall h | IsCluster(b, h, search.heatmap)
        ensures h == Grown(b, search.heatmap)
      {
        OneCluster(b, Grown(b, search.heatmap), h, search.heatmap);
      }
    } else {
      assert forall h :: !IsCluster(b, h, search.heatmap) by {
        NoCluster(b, search.heatmap);
      }
    }
  }

  lemma NoCluster(b: Box, image: array2<real>)
    requires b.IsEmpty()
    ensures forall h :: !IsCluster(b, h, image)
  {
  }

  /** Finds the boxes of all contacts in a blurred heatmap. */
  method FindClusters(image: array2<real>, span: array2<real>, c: Config, highest: real)
      returns (clusters: seq<Box>, ghost maximas: seq<Point>, ghost spanned: seq<Box>)
    requires span != image && span.Length0 == image.Length0 && span.Length1 == image.Length1
    requires highest >= 0.0
    requires forall y, x | 0 <= y < image.Length0 && 0 <= x < image.Length1 :: 0.0 <= image[y, x] <= highest
    modifies span
    ensures Maximas.AreMaximas(image, c.activation, maximas, image.Length0, 0)
    ensures c.suppressionRadius >= 1 ==> forall y, x | 0 <= y < image.Length0 && 0 <= x < image.Length1 ::
              span[y, x] == Suppression.Suppressed(image, maximas, c.suppressionRadius, c.suppressionFactor,
                  Point(x, y))
    ensures AreClusters(Cluster.Search(if c.suppressionRadius >= 1 then span else image, c.activation, c.deactivation),
              maximas, spanned)
    ensures clusters == Overlaps.Rounds(spanned, 5)
    ensures forall i | 0 <= i < |clusters| :: IsFittable(clusters[i], image)
  {
    var src := image;
    var found := Maximas.Find(image, c.activation);
    maximas := found;
    if c.suppressionRadius >= 1 {
      Suppression.DarkenAroundMaximas(image, found, c.suppressionRadius, c.suppressionFactor, span);
      forall y, x | 0 <= y < image.Length0 && 0 <= x < image.Length1
        ensures span[y, x] <= highest
      {
        SuppressedIsLower(image, found, c.suppressionRadius, c.suppressionFactor, Point(x, y));
      }
      src := span;
    }
    var boxes := SpanClusters(Cluster.Search(src, c.activation, c.deactivation), found, highest);
    spanned := boxes;
    ClustersAreFittable(Cluster.Search(src, c.activation, c.deactivation), found, boxes);
    var failed;
    clusters, failed := Overlaps.Merge(boxes, MERGE_ROUNDS);
    MergedAreFittable(boxes, image, MERGE_ROUNDS);
  }

  lemma SuppressedIsLower(image: array2<real>, maximas: seq<Point>, radius: int, factor: real, p: Point)
    requires Maximas.InGrid(image, p)
    ensures Suppression.Suppressed(image, maximas, radius, factor, p) <= image[p.y, p.x]
  {
    hide Suppression.IsDarkened, Suppression.Clamp;
  }

  /** A hull of fittable boxes is fittable. */
  lemma MergedAreFittable(cs: seq<Box>, image: array2<real>, rounds: nat)
    requires forall i | 0 <= i < |cs| :: IsFittable(cs[i], image)
    ensures forall k | 0 <= k < |Overlaps.Rounds(cs, rounds)| :: IsFittable(Overlaps.Rounds(cs, rounds)[k], image)
  {
    hide Overlaps.Rounds;
    var merged := Overlaps.Rounds(cs, rounds);
    forall k | 0 <= k < |merged|
      ensures IsFittable(merged[k], image)
    {
      Overlaps.MergedBoxesAreHulls(cs, rounds, k);
      var from := Overlaps.RoundsFrom(cs, Overlaps.Own(|cs|), rounds)[k];
      HullIsFittable(merged[k], cs, from, image);
    }
  }

  lemma HullIsFittable(h: Box, cs: seq<Box>, from: set<nat>, image: array2<real>)
    requires Overlaps.IsHull(h, cs, from)
    requires forall i | 0 <= i < |cs| :: IsFittable(cs[i], image)
    ensures IsFittable(h, image)
  {
    var i :| i in from && cs[i].minX == h.minX;
    var j :| j in from && cs[j].minY == h.minY;
    var k :| k in from && cs[k].maxX == h.maxX;
    var l :| l in from && cs[l].maxY == h.maxY;
    assert IsFittable(cs[i], image) && IsFittable(cs[j], image) && IsFittable(cs[k], image) && IsFittable(cs[l], image);
  }

  /** With the deactivation threshold not above the activation threshold, every maximum spans a cluster that
      contains it, also on the darkened image: suppression never takes the maximum itself. */
  lemma MaximumSpansItself(image: array2<real>, span: array2<real>, maximas: seq<Point>, c: Config, m: Point, b: Box)
    requires span.Length0 == image.Length0 && span.Length1 == image.Length1
    requires c.deactivation <= c.activation
    requires Maximas.IsMaximum(image, c.activation, m) && m in maximas
    requires forall y, x | 0 <= y < image.Length0 && 0 <= x < image.Length1 ::
               span[y, x] == Suppression.Suppressed(image, maximas, c.suppressionRadius, c.suppressionFactor,
                   Point(x, y))
    requires Cluster.IsSpan(Cluster.Search(span, c.activation, c.deactivation), m, b)
    ensures span[m.y, m.x] == image[m.y, m.x]
    ensures !b.IsEmpty() && b.Contains(m)
  {
    hide Cluster.IsSpan;
    assert span[m.y, m.x] == Suppression.Suppressed(image, maximas, c.suppressionRadius, c.suppressionFactor,
        Point(m.x, m.y));
    assert Point(m.x, m.y) == m;
    Cluster.SpanContainsStart(Cluster.Search(span, c.activation, c.deactivation), m, b);
  }

  /** Up to six clusters are always merged completely. */
  lemma FewClustersMergeCompletely(spanned: seq<Box>)
    requires |spanned| <= 6
    ensures !Overlaps.HasOverlap(Overlaps.Rounds(spanned, MERGE_ROUNDS))
  {
    Overlaps.EnoughRounds(spanned, MERGE_ROUNDS);
  }

  /** The size is what matters: if all pixels of a box count, a Gaussian can be fitted to it exactly if it passes the
      check of its size. */
  lemma FittableIsExact(b: Box, image: array2<real>, w: array2<real>, eps: real, log: real -> real)
    requires GaussianFit.FitInput(b, image, w)
    requires forall v, u | b.Contains(Point(u, v)) :: GaussianFit.Counts(b, image, w, v, u)
    ensures IsFittable(b, image) <==> Regularity.Determined(GaussianFit.Samples(b, image, w, eps, log))
  {
    hide Regularity.Determined, GaussianFit.Samples, GaussianFit.Counts;
    GaussianFit.ThreeByThreeIsExact(b, image, w, eps, log);
  }

  /** Boxes that the detector may merge, and of which it loses pixels: at once, or after a round that loses none. */
  lemma MergingLosesPixels(image: array2<real>)
    requires image.Length0 >= 7 && image.Length1 >= 11
    ensures forall i | 0 <= i < 3 :: IsFittable(Overlaps.Chain()[i], image)
    ensures forall i | 0 <= i < 4 :: IsFittable(Overlaps.LateChain()[i], image)
    ensures Overlaps.Rounds(Overlaps.Chain(), MERGE_ROUNDS) == [Box(0, 0, 7, 2)]
    ensures Overlaps.Rounds(Overlaps.LateChain(), MERGE_ROUNDS) == [Box(2, 2, 8, 6)]
    ensures Overlaps.Chain()[2].Contains(Point(9, 0)) && Overlaps.LateChain()[2].Contains(Point(9, 2))
  {
    hide Overlaps.Rounds;
    Overlaps.ChainLosesPixels(MERGE_ROUNDS);
    Overlaps.LateChainLosesPixels(MERGE_ROUNDS);
  }
}
