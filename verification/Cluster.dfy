/** Spanning a cluster of pixels from a starting pixel: a recursive search that marks visited pixels
    and grows a bounding box in place. */
module Cluster {
  import opened Geometry

  /** The heatmap and the two thresholds. Rows come first in the array. */
  datatype Search = Search(heatmap: array2<real>, activation: real, deactivation: real) {

    ghost predicate InGrid(p: Point) {
      0 <= p.x < heatmap.Length1 && 0 <= p.y < heatmap.Length0
    }

    ghost function Value(p: Point): real
      requires InGrid(p)
      reads heatmap
    {
      heatmap[p.y, p.x]
    }

    /** A pixel may be entered from a pixel with the value `previous`. */
    ghost predicate MayEnter(p: Point, previous: real)
      requires InGrid(p)
      reads heatmap
    {
      Value(p) > deactivation && (previous > activation || Value(p) <= previous)
    }

    /** The search goes from p to q. */
    ghost predicate Edge(p: Point, q: Point)
      reads heatmap
    {
      InGrid(p) && InGrid(q) && Neighbours(p, q) && MayEnter(q, Value(p))
    }

    ghost predicate IsPath(path: seq<Point>, p: Point, q: Point)
      reads heatmap
    {
      && |path| > 0 && path[0] == p && path[|path| - 1] == q
      && forall i | 0 <= i < |path| - 1 :: Edge(path[i], path[i + 1])
    }

    ghost predicate Reaches(p: Point, q: Point)
      reads heatmap
    {
      exists path :: IsPath(path, p, q)
    }
  }

  /** The four direct neighbours. */
  predicate Neighbours(p: Point, q: Point) {
    || (q.y == p.y && (q.x == p.x + 1 || q.x == p.x - 1))
    || (q.x == p.x && (q.y == p.y + 1 || q.y == p.y - 1))
  }

  lemma ReachesItself(s: Search, p: Point)
    ensures s.Reaches(p, p)
  {
    assert s.IsPath([p], p, p);
  }

  lemma EdgeThenPath(s: Search, p: Point, q: Point, r: Point)
    requires s.Edge(p, q) && s.Reaches(q, r)
    ensures s.Reaches(p, r)
  {
    var path :| s.IsPath(path, q, r);
    assert s.IsPath([p] + path, p, r);
  }

  /** A set that contains a pixel and is closed under edges contains all pixels reached from it. */
  lemma {:induction false} ClosedSetContainsReachable(s: Search, visited: set<Point>, path: seq<Point>, p: Point,
      q: Point)
    requires p in visited && s.IsPath(path, p, q)
    requires forall a, b | a in visited && s.Edge(a, b) :: b in visited
    ensures q in visited
    decreases |path|
  {
    if |path| > 1 {
      assert s.Edge(path[0], path[1]);
      assert s.IsPath(path[1..], path[1], q) by {
        forall i | 0 <= i < |path| - 2
          ensures s.Edge(path[1..][i], path[1..][i + 1])
        {
          assert s.Edge(path[i + 1], path[i + 1 + 1]);
        }
      }
      ClosedSetContainsReachable(s, visited, path[1..], path[1], q);
    }
  }

  // ---------------------------------------------------------------- bounding boxes

  /** The smallest box around a set of pixels. */
  ghost predicate IsBoundingBox(b: Box, s: set<Point>) {
    if s == {} then b == Empty
    else
      && b.Box?
      && (forall p | p in s :: b.Contains(p))
      && (exists p :: p in s && p.x == b.minX)
      && (exists p :: p in s && p.x == b.maxX)
      && (exists p :: p in s && p.y == b.minY)
      && (exists p :: p in s && p.y == b.maxY)
  }

  lemma BoundingBoxIsUnique(a: Box, b: Box, s: set<Point>)
    requires IsBoundingBox(a, s) && IsBoundingBox(b, s)
    ensures a == b
  {
    if s != {} {
      var p :| p in s && p.x == a.minX;
      var q :| q in s && q.x == b.minX;
      assert a.Contains(q) && b.Contains(p);
      var p1 :| p1 in s && p1.x == a.maxX;
      var q1 :| q1 in s && q1.x == b.maxX;
      assert a.Contains(q1) && b.Contains(p1);
      var p2 :| p2 in s && p2.y == a.minY;
      var q2 :| q2 in s && q2.y == b.minY;
      assert a.Contains(q2) && b.Contains(p2);
      var p3 :| p3 in s && p3.y == a.maxY;
      var q3 :| q3 in s && q3.y == b.maxY;
      assert a.Contains(q3) && b.Contains(p3);
    }
  }

  lemma BoundingBoxGrows(b: Box, s: set<Point>, p: Point)
    requires IsBoundingBox(b, s)
    ensures IsBoundingBox(if b.Contains(p) then b else b.Extend(p), s + {p})
  {
    var t := s + {p};
    assert p in t;
    var c := if b.Contains(p) then b else b.Extend(p);
    if s != {} {
      var p0 :| p0 in s && p0.x == b.minX;
      var p1 :| p1 in s && p1.x == b.maxX;
      var p2 :| p2 in s && p2.y == b.minY;
      var p3 :| p3 in s && p3.y == b.maxY;
      assert p0 in t && p1 in t && p2 in t && p3 in t;
      assert p0.x == c.minX || p.x == c.minX;
      assert p1.x == c.maxX || p.x == c.maxX;
      assert p2.y == c.minY || p.y == c.minY;
      assert p3.y == c.maxY || p.y == c.maxY;
    }
  }

  // ---------------------------------------------------------------- the search

  class RecursionState {
    const search: Search
    const visited: array2<bool>
    var cluster: Box

    ghost predicate Valid() {
      visited.Length0 == search.heatmap.Length0 && visited.Length1 == search.heatmap.Length1
    }

    ghost function Visited(): (s: set<Point>)
      requires Valid()
      reads visited
      ensures forall p :: p in s <==> search.InGrid(p) && visited[p.y, p.x]
    {
      set x, y | 0 <= x < search.heatmap.Length1 && 0 <= y < search.heatmap.Length0 && visited[y, x] :: Point(x, y)
    }

    ghost function Unvisited(): (s: set<Point>)
      requires Valid()
      reads visited
      ensures forall p :: p in s <==> search.InGrid(p) && !visited[p.y, p.x]
    {
      set x, y | 0 <= x < search.heatmap.Length1 && 0 <= y < search.heatmap.Length0 && !visited[y, x] :: Point(x, y)
    }

    constructor (search: Search, visited: array2<bool>)
      ensures this.search == search && this.visited == visited && cluster == Empty
    {
      this.search, this.visited, cluster := search, visited, Empty;
    }

    /** The pixels of `found` are reached from p, and everything they lead to has been visited. */
    ghost predicate Explored(p: Point, found: set<Point>, all: set<Point>)
      reads search.heatmap
    {
      && (forall q | q in found :: search.Reaches(p, q))
      && (forall q, r | q in found && search.Edge(q, r) :: r in all)
    }

    method SpanRecursive(position: Point, previous: real)
      requires Valid() && search.InGrid(position)
      requires IsBoundingBox(cluster, Visited())
      modifies this`cluster, visited
      ensures old(Visited()) <= Visited()
      ensures IsBoundingBox(cluster, Visited())
      ensures search.MayEnter(position, previous) ==> position in Visited()
      ensures !search.MayEnter(position, previous) ==> Visited() == old(Visited())
      ensures Explored(position, Visited() - old(Visited()), Visited())
      decreases Unvisited(), 1
    {
      hide IsBoundingBox, Search.Reaches, Search.Edge;
      var value := search.heatmap[position.y, position.x];
      if value <= search.deactivation {
        return;
      }
      // the value must not increase outside of the activation area
      if previous <= search.activation && value > previous {
        return;
      }
      if visited[position.y, position.x] {
        return;
      }
      Expand(position, value);
    }

    /** Takes a pixel in, and continues with its neighbours. */
    method Expand(position: Point, value: real)
      requires Valid() && search.InGrid(position) && value == search.Value(position) && position !in Visited()
      requires IsBoundingBox(cluster, Visited())
      modifies this`cluster, visited
      ensures old(Visited()) <= Visited() && position in Visited()
      ensures IsBoundingBox(cluster, Visited())
      ensures Explored(position, Visited() - old(Visited()), Visited())
      decreases Unvisited(), 0
    {
      hide IsBoundingBox, Search.Reaches, Search.Edge, Collected, Explored;
      var x, y := position.x, position.y;
      ghost var v0 := Visited();
      Mark(position);
      StartCollecting(position, v0, Visited());
      if x < search.heatmap.Length1 - 1 {
        Visit(position, Point(x + 1, y), value, v0);
      }
      if x > 0 {
        Visit(position, Point(x - 1, y), value, v0);
      }
      if y < search.heatmap.Length0 - 1 {
        Visit(position, Point(x, y + 1), value, v0);
      }
      if y > 0 {
        Visit(position, Point(x, y - 1), value, v0);
      }
      FinishCollecting(position, v0, Visited());
    }

    /** Marks a pixel and takes it into the box. */
    method Mark(position: Point)
      requires Valid() && search.InGrid(position) && position !in Visited()
      requires IsBoundingBox(cluster, Visited())
      modifies this`cluster, visited
      ensures Visited() == old(Visited()) + {position}
      ensures Unvisited() < old(Unvisited())
      ensures IsBoundingBox(cluster, Visited())
    {
      hide IsBoundingBox;
      ghost var v0, u0 := Visited(), Unvisited();
      visited[position.y, position.x] := true;
      BoundingBoxGrows(cluster, v0, position);
      if !cluster.Contains(position) {
        cluster := cluster.Extend(position);
      }
      assert Visited() == v0 + {position};
      assert position in u0 && position !in Unvisited() && Unvisited() <= u0;
    }

    /** Continues the search with a neighbour. */
    method Visit(position: Point, next: Point, value: real, ghost v0: set<Point>)
      requires Valid() && search.InGrid(position) && search.InGrid(next) && Neighbours(position, next)
      requires value == search.Value(position) && position in Visited()
      requires IsBoundingBox(cluster, Visited()) && Collected(position, v0, Visited())
      modifies this`cluster, visited
      ensures old(Visited()) <= Visited() && Unvisited() <= old(Unvisited())
      ensures IsBoundingBox(cluster, Visited()) && Collected(position, v0, Visited())
      ensures Tried(position, next, Visited())
      decreases Unvisited(), 2
    {
      hide IsBoundingBox, Search.Reaches, Search.Edge, Collected, Explored;
      ghost var before := Visited();
      SpanRecursive(next, value);
      Collect(position, next, v0, before, Visited());
    }

    /** All pixels found so far are reached from `position`, and all but `position` itself are explored. */
    ghost predicate Collected(position: Point, v0: set<Point>, v: set<Point>)
      reads search.heatmap
    {
      && v0 <= v
      && (forall q | q in v - v0 :: search.Reaches(position, q))
      && (forall q, r | q in v - v0 && q != position && search.Edge(q, r) :: r in v)
    }

    ghost predicate Tried(position: Point, next: Point, v: set<Point>)
      requires search.InGrid(position)
      reads search.heatmap
    {
      search.InGrid(next) && search.MayEnter(next, search.Value(position)) ==> next in v
    }

    lemma StartCollecting(position: Point, v0: set<Point>, v: set<Point>)
      requires v == v0 + {position}
      ensures Collected(position, v0, v)
    {
      ReachesItself(search, position);
    }

    /** The pixels found from a neighbour are found from the pixel itself. */
    lemma Collect(position: Point, next: Point, v0: set<Point>, before: set<Point>, after: set<Point>)
      requires search.InGrid(position) && search.InGrid(next) && Neighbours(position, next)
      requires position in before && Collected(position, v0, before)
      requires before <= after
      requires !search.MayEnter(next, search.Value(position)) ==> after == before
      requires Explored(next, after - before, after)
      ensures Collected(position, v0, after)
    {
      hide Search.Reaches;
      if search.MayEnter(next, search.Value(position)) {
        forall q | q in after - before
          ensures search.Reaches(position, q)
        {
          EdgeThenPath(search, position, next, q);
        }
      }
    }

    /** When all four neighbours were tried, the pixel itself is explored too. */
    lemma FinishCollecting(position: Point, v0: set<Point>, v: set<Point>)
      requires search.InGrid(position) && Collected(position, v0, v)
      requires Tried(position, Point(position.x + 1, position.y), v)
                && Tried(position, Point(position.x - 1, position.y), v)
      requires Tried(position, Point(position.x, position.y + 1), v)
                && Tried(position, Point(position.x, position.y - 1), v)
      ensures Explored(position, v - v0, v)
    {
      hide Search.Reaches;
    }
  }

  ghost predicate IsReached(s: Search, start: Point, found: set<Point>)
    reads s.heatmap
  {
    && (forall p | p in found :: s.Reaches(start, p))
    && (forall p | s.Reaches(start, p) :: p in found)
  }

  /** The pixels a search from `start` reaches, as a bounding box: nothing else decides the result. */
  ghost predicate IsSpan(s: Search, start: Point, b: Box)
    reads s.heatmap
  {
    if !s.InGrid(start) || s.Value(start) <= s.deactivation then b == Empty
    else exists found :: IsReached(s, start, found) && IsBoundingBox(b, found)
  }

  lemma SpanIsUnique(s: Search, start: Point, a: Box, b: Box)
    requires IsSpan(s, start, a) && IsSpan(s, start, b)
    ensures a == b
  {
    hide IsBoundingBox, Search.Reaches;
    if s.InGrid(start) && s.Value(start) > s.deactivation {
      var f :| IsReached(s, start, f) && IsBoundingBox(a, f);
      var g :| IsReached(s, start, g) && IsBoundingBox(b, g);
      assert f == g;
      BoundingBoxIsUnique(a, b, f);
    }
  }

  /** A span that is not empty lies on the heatmap. */
  lemma SpanIsOnHeatmap(s: Search, start: Point, b: Box)
    requires IsSpan(s, start, b) && b != Empty
    ensures 0 <= b.minX <= b.maxX < s.heatmap.Length1 && 0 <= b.minY <= b.maxY < s.heatmap.Length0
  {
    var found :| IsReached(s, start, found) && IsBoundingBox(b, found);
    forall p | p in found
      ensures s.InGrid(p) && b.Contains(p)
    {
      var path :| s.IsPath(path, start, p);
      if |path| > 1 {
        assert s.Edge(path[|path| - 2], path[|path| - 1]);
      }
    }
    var p: Point, q: Point :| p in found && p.x == b.minX && q in found && q.y == b.minY;
    assert b.Contains(p) && b.Contains(q);
  }

  /** Spans a cluster. `highest` is the largest value the pixel type can have. */
  method Span(s: Search, position: Point, highest: real) returns (cluster: Box)
    requires forall y, x | 0 <= y < s.heatmap.Length0 && 0 <= x < s.heatmap.Length1 :: s.heatmap[y, x] <= highest
    ensures IsSpan(s, position, cluster)
  {
    if position.x < 0 || position.x >= s.heatmap.Length1 {
      return Empty;
    }
    if position.y < 0 || position.y >= s.heatmap.Length0 {
      return Empty;
    }
    var visited := new bool[s.heatmap.Length0, s.heatmap.Length1]((y, x) => false);
    var state := new RecursionState(s, visited);
    assert state.Visited() == {};
    state.SpanRecursive(position, highest);
    cluster := state.cluster;
    ghost var found := state.Visited();
    if s.Value(position) > s.deactivation {
      forall p | s.Reaches(position, p)
        ensures p in found
      {
        var path :| s.IsPath(path, position, p);
        ClosedSetContainsReachable(s, found, path, position, p);
      }
      assert IsReached(s, position, found);
    }
  }

  /** Two pixels are connected by neighbours above the activation threshold. */
  ghost predicate InActivatedArea(s: Search, path: seq<Point>, p: Point, q: Point)
    reads s.heatmap
  {
    && |path| > 0 && path[0] == p && path[|path| - 1] == q
    && (forall i | 0 <= i < |path| :: s.InGrid(path[i]) && s.Value(path[i]) > s.activation)
    && (forall i | 0 <= i < |path| - 1 :: Neighbours(path[i], path[i + 1]))
  }

  /** With the deactivation threshold not above the activation threshold, a cluster covers the whole activated
      area its start belongs to. */
  lemma SpanCoversActivatedArea(s: Search, start: Point, b: Box, path: seq<Point>, q: Point)
    requires s.deactivation <= s.activation
    requires IsSpan(s, start, b) && InActivatedArea(s, path, start, q)
    ensures b.Contains(q)
  {
    assert s.IsPath(path, start, q) by {
      forall i | 0 <= i < |path| - 1
        ensures s.Edge(path[i], path[i + 1])
      {
        assert s.InGrid(path[i]) && s.InGrid(path[i + 1]);
      }
    }
    assert s.InGrid(path[0]) && s.Value(path[0]) > s.activation;
    assert s.Reaches(start, q);
  }

  /** A start above the deactivation threshold is part of its own cluster. */
  lemma SpanContainsStart(s: Search, start: Point, b: Box)
    requires s.InGrid(start) && s.Value(start) > s.deactivation && IsSpan(s, start, b)
    ensures b.Contains(start)
  {
    ReachesItself(s, start);
  }
}
