/** The sampling weights of overlapping Gaussians: at each pixel every Gaussian gets its share
    of the total. */
module WeightMaps {
  import opened Geometry
  import opened LinearSolver
  import opened GaussianFit

  /** The heatmap size and the exponential, which stay the same throughout. */
  datatype Grid = Grid(rows: nat, cols: nat, exp: real -> real)

  /** The fields of one Gaussian that its weights depend on. */
  datatype Shape = Shape(valid: bool, scale: real, meanX: real, meanY: real, prec: Precision, bounds: Box)

  ghost function ShapeOf(p: Parameters): Shape
    reads p
  {
    Shape(p.valid, p.scale, p.meanX, p.meanY, p.prec, p.bounds)
  }

  ghost function Shapes(params: seq<Parameters>): (s: seq<Shape>)
    reads set i | 0 <= i < |params| :: params[i]
    ensures |s| == |params| && forall i | 0 <= i < |s| :: s[i] == ShapeOf(params[i])
  {
    seq(|params|, i requires 0 <= i < |params| reads set i | 0 <= i < |params| :: params[i] => ShapeOf(params[i]))
  }

  /** The un-normalised Gaussian at a point. */
  function GaussianLike(x: real, y: real, meanX: real, meanY: real, prec: Precision, exp: real -> real): real {
    exp(-prec.Form(x - meanX, y - meanY)) / 2.0
  }

  /** The value of a Gaussian at a pixel, before it is divided by the total. */
  ghost function Value(s: Shape, g: Grid, iy: int, ix: int): real
    requires g.rows > 0 && g.cols > 0
  {
    s.scale * GaussianLike(Centred(ix, g.cols), Centred(iy, g.rows), s.meanX, s.meanY, s.prec, g.exp)
  }

  /** The Gaussian takes part at this pixel. */
  ghost predicate Covers(s: Shape, iy: int, ix: int) {
    s.valid && s.bounds.Contains(Point(ix, iy))
  }

  /** The sum over all Gaussians that take part at a pixel. */
  ghost function Total(s: seq<Shape>, g: Grid, iy: int, ix: int): real
    requires g.rows > 0 && g.cols > 0
  {
    if s == [] then 0.0
    else Total(s[..|s| - 1], g, iy, ix) + if Covers(s[|s| - 1], iy, ix) then Value(s[|s| - 1], g, iy, ix) else 0.0
  }

  /** Shapes a Gaussian may have: valid ones are not negative anywhere. */
  ghost predicate Positive(s: seq<Shape>, g: Grid) {
    && (forall t :: g.exp(t) > 0.0)
    && (forall i | 0 <= i < |s| && s[i].valid :: s[i].scale >= 0.0)
  }

  // ---------------------------------------------------------------- what the maps contain

  /** The weights of all Gaussians at one pixel. `w` maps the position of a Gaussian to its weight. */
  ghost predicate Normalised(s: seq<Shape>, g: Grid, iy: int, ix: int, w: seq<real>)
    requires g.rows > 0 && g.cols > 0 && |w| == |s|
  {
    forall i | 0 <= i < |s| && Covers(s[i], iy, ix) ::
      if Total(s, g, iy, ix) > 0.0 then w[i] * Total(s, g, iy, ix) == Value(s[i], g, iy, ix)
          else w[i] == Value(s[i], g, iy, ix)
  }

  /** The weight of one Gaussian at a pixel. */
  ghost function Share(s: seq<Shape>, g: Grid, iy: int, ix: int, i: nat): real
    requires g.rows > 0 && g.cols > 0 && i < |s|
  {
    if Total(s, g, iy, ix) > 0.0 then Value(s[i], g, iy, ix) / Total(s, g, iy, ix) else Value(s[i], g, iy, ix)
  }

  lemma NormalisedIsShare(s: seq<Shape>, g: Grid, iy: int, ix: int, w: seq<real>, i: nat)
    requires g.rows > 0 && g.cols > 0 && |w| == |s| && i < |s|
    requires Normalised(s, g, iy, ix, w) && Covers(s[i], iy, ix)
    ensures w[i] == Share(s, g, iy, ix, i)
  {
    hide Value, Total;
    var t, v := Total(s, g, iy, ix), Value(s[i], g, iy, ix);
    if t > 0.0 {
      Cancels(t, w[i], v / t);
    }
  }

  /** The sum of the weights of the first Gaussians that take part at the pixel. */
  ghost function WeightSum(s: seq<Shape>, w: seq<real>, iy: int, ix: int): real
    requires |w| == |s|
  {
    if s == [] then 0.0
    else WeightSum(s[..|s| - 1], w[..|s| - 1], iy, ix) + if Covers(s[|s| - 1], iy, ix) then w[|s| - 1] else 0.0
  }

  lemma ScaledTerm(a: real, b: real, t: real, u: real, v: real)
    requires a * t == u && b * t == v
    ensures (a + b) * t == u + v
  {
  }

  /** Weights times a common total add up to the sum of the values. */
  lemma {:induction false} WeightSumTimesTotal(s: seq<Shape>, g: Grid, iy: int, ix: int, w: seq<real>, t: real)
    requires g.rows > 0 && g.cols > 0 && |w| == |s|
    requires forall i | 0 <= i < |s| && Covers(s[i], iy, ix) :: w[i] * t == Value(s[i], g, iy, ix)
    ensures WeightSum(s, w, iy, ix) * t == Total(s, g, iy, ix)
  {
    hide Value;
    if s != [] {
      var n := |s| - 1;
      WeightSumTimesTotal(s[..n], g, iy, ix, w[..n], t);
      if Covers(s[n], iy, ix) {
        ScaledTerm(WeightSum(s[..n], w[..n], iy, ix), w[n], t, Total(s[..n], g, iy, ix), Value(s[n], g, iy, ix));
      }
    }
  }

  lemma ValueIsNotNegative(s: Shape, g: Grid, iy: int, ix: int)
    requires g.rows > 0 && g.cols > 0 && (forall t :: g.exp(t) > 0.0) && s.scale >= 0.0
    ensures Value(s, g, iy, ix) >= 0.0
  {
    hide Precision.Form;
  }

  /** No single value exceeds the total. */
  lemma {:induction false} TotalDominates(s: seq<Shape>, g: Grid, iy: int, ix: int, i: nat)
    requires g.rows > 0 && g.cols > 0 && Positive(s, g)
    ensures Total(s, g, iy, ix) >= 0.0
    ensures i < |s| && Covers(s[i], iy, ix) ==> 0.0 <= Value(s[i], g, iy, ix) <= Total(s, g, iy, ix)
  {
    hide Value;
    if s != [] {
      var n := |s| - 1;
      TotalDominates(s[..n], g, iy, ix, i);
      if s[n].valid {
        ValueIsNotNegative(s[n], g, iy, ix);
      }
    }
  }

  lemma Scaled(a: real, b: real)
    requires a > 0.0 && b > 0.0
    ensures a * b > 0.0
  {
  }

  lemma RatioInUnitInterval(w: real, t: real, v: real)
    requires w * t == v && t > 0.0 && 0.0 <= v <= t
    ensures 0.0 <= w <= 1.0
  {
    if w > 1.0 {
      Scaled(w - 1.0, t);
    }
  }

  /** At every pixel with a positive total the weights of the overlapping Gaussians sum to one,
      and each of them is between zero and one. */
  lemma WeightsSumToOne(s: seq<Shape>, g: Grid, iy: int, ix: int, w: seq<real>)
    requires g.rows > 0 && g.cols > 0 && |w| == |s|
    requires Positive(s, g) && Normalised(s, g, iy, ix, w)
    requires Total(s, g, iy, ix) > 0.0
    ensures WeightSum(s, w, iy, ix) == 1.0
    ensures forall i | 0 <= i < |s| && Covers(s[i], iy, ix) :: 0.0 <= w[i] <= 1.0
  {
    hide Value, WeightSum, Total;
    var t := Total(s, g, iy, ix);
    WeightSumTimesTotal(s, g, iy, ix, w, t);
    CancelsOne(WeightSum(s, w, iy, ix), t, Total(s, g, iy, ix));
    forall i | 0 <= i < |s| && Covers(s[i], iy, ix)
      ensures 0.0 <= w[i] <= 1.0
    {
      TotalDominates(s, g, iy, ix, i);
      RatioInUnitInterval(w[i], t, Value(s[i], g, iy, ix));
    }
  }

  lemma CancelsOne(w: real, t: real, u: real)
    requires w * t == u && u == t && t > 0.0
    ensures w == 1.0
  {
    Cancels(t, w, 1.0);
  }

  /** A pixel that any Gaussian of positive scale covers has a positive total. */
  lemma CoveredPixelHasTotal(s: seq<Shape>, g: Grid, iy: int, ix: int, i: nat)
    requires g.rows > 0 && g.cols > 0 && Positive(s, g)
    requires i < |s| && Covers(s[i], iy, ix) && s[i].scale > 0.0
    ensures Total(s, g, iy, ix) > 0.0
  {
    TotalDominates(s, g, iy, ix, i);
    PositiveValue(s[i], g, iy, ix);
  }

  lemma PositiveValue(s: Shape, g: Grid, iy: int, ix: int)
    requires g.rows > 0 && g.cols > 0 && (forall t :: g.exp(t) > 0.0) && s.scale > 0.0
    ensures Value(s, g, iy, ix) > 0.0
  {
    hide Precision.Form;
  }

  // ---------------------------------------------------------------- the in-place computation

  /** The window of the Gaussian lies on the grid and there is a weight for each of its pixels. */
  ghost predicate HasWindow(p: Parameters, g: Grid) {
    && p.bounds.Box? && 0 <= p.bounds.minX <= p.bounds.maxX < g.cols && 0 <= p.bounds.minY <= p.bounds.maxY < g.rows
    && p.weights.Length0 == p.bounds.maxY - p.bounds.minY + 1 && p.weights.Length1 == p.bounds.maxX - p.bounds.minX + 1
  }

  /** Every Gaussian has a window of its own, and `total` is not part of any of them. */
  ghost predicate Separate(params: seq<Parameters>, g: Grid, total: array2<real>) {
    && total.Length0 == g.rows && total.Length1 == g.cols
    && (forall i | 0 <= i < |params| :: HasWindow(params[i], g) && params[i].weights != total)
    && (forall i, j | 0 <= i < j < |params| :: params[i].weights != params[j].weights)
  }

  ghost function WeightAt(p: Parameters, g: Grid, iy: int, ix: int): real
    requires HasWindow(p, g)
    reads p.weights
  {
    if p.bounds.Contains(Point(ix, iy)) then p.weights[iy - p.bounds.minY, ix - p.bounds.minX] else 0.0
  }

  /** The weights of all Gaussians at one pixel. */
  ghost function WeightsAt(params: seq<Parameters>, g: Grid, iy: int, ix: int): (w: seq<real>)
    requires forall i | 0 <= i < |params| :: HasWindow(params[i], g)
    reads set i | 0 <= i < |params| :: params[i].weights
    ensures |w| == |params| && forall i | 0 <= i < |w| :: w[i] == WeightAt(params[i], g, iy, ix)
  {
    seq(|params|, i requires 0 <= i < |params| reads set i | 0 <= i < |params| :: params[i].weights =>
      WeightAt(params[i], g, iy, ix))
  }

  /** The weights of the Gaussian are its values. */
  ghost predicate Filled(p: Parameters, g: Grid)
    requires HasWindow(p, g)
    reads p, p.weights
  {
    forall iy, ix | p.bounds.Contains(Point(ix, iy)) :: WeightAt(p, g, iy, ix) == Value(ShapeOf(p), g, iy, ix)
  }

  /** The weights of the Gaussian are its shares of `total`. */
  ghost predicate Shared(p: Parameters, g: Grid, total: array2<real>)
    requires HasWindow(p, g) && total.Length0 == g.rows && total.Length1 == g.cols
    reads p, p.weights, total
  {
    forall iy, ix | p.bounds.Contains(Point(ix, iy)) ::
      if total[iy, ix] > 0.0 then WeightAt(p, g, iy, ix) * total[iy, ix] == Value(ShapeOf(p), g, iy, ix)
      else WeightAt(p, g, iy, ix) == Value(ShapeOf(p), g, iy, ix)
  }

  method FillWeights(p: Parameters, g: Grid)
    requires HasWindow(p, g)
    modifies p.weights
    ensures Filled(p, g)
  {
    hide Value;
    var b := p.bounds;
    var sx, sy := 2.0 / (g.cols as real), 2.0 / (g.rows as real);
    for iy := b.minY to b.maxY + 1
      invariant forall y, x | b.minY <= y < iy && b.minX <= x <= b.maxX ::
                  WeightAt(p, g, y, x) == Value(ShapeOf(p), g, y, x)
    {
      var y := (iy as real) * sy - 1.0;
      for ix := b.minX to b.maxX + 1
        invariant forall v, u | b.minY <= v <= iy && b.minX <= u <= b.maxX && (v < iy || u < ix) ::
                    WeightAt(p, g, v, u) == Value(ShapeOf(p), g, v, u)
      {
        var x := (ix as real) * sx - 1.0;
        var v := p.scale * GaussianLike(x, y, p.meanX, p.meanY, p.prec, g.exp);
        IsValue(p, g, iy, ix, x, y, v);
        p.weights[iy - b.minY, ix - b.minX] := v;
      }
    }
  }

  /** Value spelled out for a point given by its coordinates. */
  lemma IsValue(p: Parameters, g: Grid, iy: int, ix: int, x: real, y: real, v: real)
    requires g.rows > 0 && g.cols > 0
    requires x == Centred(ix, g.cols) && y == Centred(iy, g.rows)
    requires v == p.scale * GaussianLike(x, y, p.meanX, p.meanY, p.prec, g.exp)
    ensures v == Value(ShapeOf(p), g, iy, ix)
  {
    hide GaussianLike, Centred;
  }

  method AddWeights(p: Parameters, g: Grid, total: array2<real>)
    requires HasWindow(p, g) && total.Length0 == g.rows && total.Length1 == g.cols && p.weights != total
    modifies total
    ensures forall iy, ix | 0 <= iy < g.rows && 0 <= ix < g.cols ::
              total[iy, ix] == old(total[iy, ix]) + WeightAt(p, g, iy, ix)
  {
    var b := p.bounds;
    for y := b.minY to b.maxY + 1
      invariant forall v, u | 0 <= v < g.rows && 0 <= u < g.cols ::
                  total[v, u] == old(total[v, u]) + if v < y then WeightAt(p, g, v, u) else 0.0
    {
      for x := b.minX to b.maxX + 1
        invariant forall v, u | 0 <= v < g.rows && 0 <= u < g.cols ::
                    total[v, u] == old(total[v, u]) + if v < y || (v == y && u < x) then WeightAt(p, g, v, u) else 0.0
      {
        total[y, x] := total[y, x] + p.weights[y - b.minY, x - b.minX];
      }
    }
  }

  method ShareWeights(p: Parameters, g: Grid, total: array2<real>)
    requires HasWindow(p, g) && total.Length0 == g.rows && total.Length1 == g.cols && p.weights != total
    requires Filled(p, g)
    modifies p.weights
    ensures Shared(p, g, total)
  {
    hide Value;
    var b := p.bounds;
    for y := b.minY to b.maxY + 1
      invariant forall v, u | b.minY <= v <= b.maxY && b.minX <= u <= b.maxX ::
                  if v < y && total[v, u] > 0.0 then WeightAt(p, g, v, u) * total[v, u] == Value(ShapeOf(p), g, v, u)
                  else WeightAt(p, g, v, u) == Value(ShapeOf(p), g, v, u)
    {
      for x := b.minX to b.maxX + 1
        invariant forall v, u | b.minY <= v <= b.maxY && b.minX <= u <= b.maxX ::
                    if (v < y || (v == y && u < x)) && total[v, u] > 0.0
                    then WeightAt(p, g, v, u) * total[v, u] == Value(ShapeOf(p), g, v, u)
                    else WeightAt(p, g, v, u) == Value(ShapeOf(p), g, v, u)
      {
        var t := total[y, x];
        if t > 0.0 {
          assert WeightAt(p, g, y, x) == Value(ShapeOf(p), g, y, x);
          var share := Divide(p.weights[y - b.minY, x - b.minX], t);
          p.weights[y - b.minY, x - b.minX] := share;
          assert WeightAt(p, g, y, x) == share;
        }
      }
    }
  }

  method FillAll(params: seq<Parameters>, g: Grid, ghost total: array2<real>)
    requires Separate(params, g, total)
    modifies set i | 0 <= i < |params| :: params[i].weights
    ensures forall i | 0 <= i < |params| && params[i].valid :: Filled(params[i], g)
  {
    hide Value, Filled;
    for n := 0 to |params|
      invariant forall i | 0 <= i < n && params[i].valid :: Filled(params[i], g)
    {
      if params[n].valid {
        FillWeights(params[n], g);
      }
    }
  }

  method SumAll(params: seq<Parameters>, g: Grid, total: array2<real>)
    requires g.rows > 0 && g.cols > 0 && Separate(params, g, total)
    requires forall i | 0 <= i < |params| && params[i].valid :: Filled(params[i], g)
    modifies total
    ensures forall y, x | 0 <= y < g.rows && 0 <= x < g.cols :: total[y, x] == Total(Shapes(params), g, y, x)
  {
    hide Value, Filled;
    ghost var s := Shapes(params);
    SetZero(total);
    for n := 0 to |params|
      invariant forall y, x | 0 <= y < g.rows && 0 <= x < g.cols :: total[y, x] == Total(s[..n], g, y, x)
    {
      TotalGrows(s, g, n);
      if params[n].valid {
        FilledWeights(params[n], g);
        AddWeights(params[n], g, total);
      }
    }
    assert s[..|params|] == s;
  }

  method ShareAll(params: seq<Parameters>, g: Grid, total: array2<real>)
    requires Separate(params, g, total)
    requires forall i | 0 <= i < |params| && params[i].valid :: Filled(params[i], g)
    modifies set i | 0 <= i < |params| :: params[i].weights
    ensures forall i | 0 <= i < |params| && params[i].valid :: Shared(params[i], g, total)
  {
    hide Value, Filled, Shared;
    for n := 0 to |params|
      invariant forall i | 0 <= i < n && params[i].valid :: Shared(params[i], g, total)
      invariant forall i | n <= i < |params| && params[i].valid :: Filled(params[i], g)
    {
      if params[n].valid {
        ShareWeights(params[n], g, total);
      }
    }
  }

  /** Recomputes the weights of all valid Gaussians and their total. */
  method UpdateWeightMaps(params: seq<Parameters>, g: Grid, total: array2<real>)
    requires g.rows > 0 && g.cols > 0 && Separate(params, g, total)
    modifies total, set i | 0 <= i < |params| :: params[i].weights
    ensures forall iy, ix | 0 <= iy < g.rows && 0 <= ix < g.cols :: total[iy, ix] == Total(Shapes(params), g, iy, ix)
    ensures forall iy, ix | 0 <= iy < g.rows && 0 <= ix < g.cols ::
              Normalised(Shapes(params), g, iy, ix, WeightsAt(params, g, iy, ix))
  {
    hide Value, Filled, Shared, Total, Normalised;
    FillAll(params, g, total);
    SumAll(params, g, total);
    ghost var s := Shapes(params);
    ShareAll(params, g, total);
    assert Shapes(params) == s;
    SharedIsNormalised(params, g, total);
  }

  method SetZero(total: array2<real>)
    modifies total
    ensures forall y, x | 0 <= y < total.Length0 && 0 <= x < total.Length1 :: total[y, x] == 0.0
  {
    for y := 0 to total.Length0
      invariant forall v, u | 0 <= v < y && 0 <= u < total.Length1 :: total[v, u] == 0.0
    {
      for x := 0 to total.Length1
        invariant forall v, u | 0 <= v <= y && 0 <= u < total.Length1 && (v < y || u < x) :: total[v, u] == 0.0
      {
        total[y, x] := 0.0;
      }
    }
  }

  lemma TotalGrows(s: seq<Shape>, g: Grid, n: nat)
    requires n < |s| && g.rows > 0 && g.cols > 0
    ensures forall y, x :: Total(s[..n + 1], g, y, x) ==
                           Total(s[..n], g, y, x) + if Covers(s[n], y, x) then Value(s[n], g, y, x) else 0.0
  {
    assert s[..n + 1][..n] == s[..n];
  }

  lemma FilledWeights(p: Parameters, g: Grid)
    requires HasWindow(p, g) && Filled(p, g)
    ensures forall y, x :: WeightAt(p, g, y, x) == if p.bounds.Contains(Point(x, y)) then Value(ShapeOf(p), g, y, x)
              else 0.0
  {
  }

  lemma SharedIsNormalised(params: seq<Parameters>, g: Grid, total: array2<real>)
    requires g.rows > 0 && g.cols > 0 && Separate(params, g, total)
    requires forall y, x | 0 <= y < g.rows && 0 <= x < g.cols :: total[y, x] == Total(Shapes(params), g, y, x)
    requires forall i | 0 <= i < |params| && params[i].valid :: Shared(params[i], g, total)
    ensures forall iy, ix | 0 <= iy < g.rows && 0 <= ix < g.cols ::
              Normalised(Shapes(params), g, iy, ix, WeightsAt(params, g, iy, ix))
  {
    hide Value, Total, Share, Shared, WeightAt, Normalised, HasWindow;
    forall iy, ix | 0 <= iy < g.rows && 0 <= ix < g.cols
      ensures Normalised(Shapes(params), g, iy, ix, WeightsAt(params, g, iy, ix))
    {
      SharedAtPixel(params, g, total, iy, ix);
    }
  }

  lemma SharedAtPixel(params: seq<Parameters>, g: Grid, total: array2<real>, iy: int, ix: int)
    requires g.rows > 0 && g.cols > 0 && Separate(params, g, total) && 0 <= iy < g.rows && 0 <= ix < g.cols
    requires total[iy, ix] == Total(Shapes(params), g, iy, ix)
    requires forall i | 0 <= i < |params| && params[i].valid :: Shared(params[i], g, total)
    ensures Normalised(Shapes(params), g, iy, ix, WeightsAt(params, g, iy, ix))
  {
    hide Value, Total, Share, Shared, WeightAt;
    var s, w := Shapes(params), WeightsAt(params, g, iy, ix);
    forall i | 0 <= i < |s| && Covers(s[i], iy, ix)
      ensures if Total(s, g, iy, ix) > 0.0 then w[i] * Total(s, g, iy, ix) == Value(s[i], g, iy, ix)
              else w[i] == Value(s[i], g, iy, ix)
    {
      ShareOf(params[i], g, total, iy, ix);
    }
  }

  lemma ShareOf(p: Parameters, g: Grid, total: array2<real>, iy: int, ix: int)
    requires HasWindow(p, g) && total.Length0 == g.rows && total.Length1 == g.cols && Shared(p, g, total)
    requires g.rows > 0 && g.cols > 0 && p.bounds.Contains(Point(ix, iy))
    ensures if total[iy, ix] > 0.0 then WeightAt(p, g, iy, ix) * total[iy, ix] == Value(ShapeOf(p), g, iy, ix)
            else WeightAt(p, g, iy, ix) == Value(ShapeOf(p), g, iy, ix)
  {
    hide Value, WeightAt;
  }
}
