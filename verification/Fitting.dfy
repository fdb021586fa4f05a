/** The whole fit: parameters are moved to coordinates between -1 and 1, refitted a number of times,
    and moved back. */
module Fitting {
  import opened Geometry
  import opened LinearSolver
  import opened LeastSquares
  import opened Regularity
  import opened GaussianFit
  import opened WeightMaps

  /** The inputs that stay the same during a fit. */
  datatype Setting = Setting(grid: Grid, eps: real, log: real -> real) {
    ghost predicate Valid() {
      grid.rows > 0 && grid.cols > 0 && eps >= 0.0
    }

    function ScaleX(): (r: real)
      requires grid.cols > 0
      ensures r > 0.0
    {
      2.0 / (grid.cols as real)
    }

    function ScaleY(): (r: real)
      requires grid.rows > 0
      ensures r > 0.0
    {
      2.0 / (grid.rows as real)
    }
  }

  // ---------------------------------------------------------------- changing coordinates

  function DownPrecision(p: Precision, sx: real, sy: real): Precision
    requires sx > 0.0 && sy > 0.0
  {
    Precision(p.xx / sx / sx, p.xy / sx / sy, p.yx / sy / sx, p.yy / sy / sy)
  }

  function UpPrecision(p: Precision, sx: real, sy: real): Precision {
    Precision(p.xx * sx * sx, p.xy * sx * sy, p.yx * sy * sx, p.yy * sy * sy)
  }

  ghost function Down(s: Shape, sx: real, sy: real): Shape
    requires sx > 0.0 && sy > 0.0
  {
    s.(meanX := s.meanX * sx - 1.0, meanY := s.meanY * sy - 1.0, prec := DownPrecision(s.prec, sx, sy))
  }

  ghost function Up(s: Shape, sx: real, sy: real): Shape
    requires sx > 0.0 && sy > 0.0
  {
    s.(meanX := (s.meanX + 1.0) / sx, meanY := (s.meanY + 1.0) / sy, prec := UpPrecision(s.prec, sx, sy))
  }

  lemma QuotientTimes(v: real, a: real)
    requires a > 0.0
    ensures v / a * a == v
  {
  }

  lemma ProductOver(v: real, a: real)
    requires a > 0.0
    ensures v * a / a == v
  {
  }

  lemma TwoQuotients(v: real, a: real, b: real)
    requires a > 0.0 && b > 0.0
    ensures v / a / b * a * b == v
  {
    var q := v / a / b;
    QuotientTimes(v / a, b);
    QuotientTimes(v, a);
    assert q * a * b == (q * b) * a;
  }

  /** Moving back undoes moving. */
  lemma UpDown(s: Shape, sx: real, sy: real)
    requires sx > 0.0 && sy > 0.0
    ensures Up(Down(s, sx, sy), sx, sy) == s
  {
    TwoQuotients(s.prec.xx, sx, sx);
    TwoQuotients(s.prec.xy, sx, sy);
    TwoQuotients(s.prec.yx, sy, sx);
    TwoQuotients(s.prec.yy, sy, sy);
    ProductOver(s.meanX, sx);
    ProductOver(s.meanY, sy);
    assert s.meanX * sx - 1.0 + 1.0 == s.meanX * sx;
    assert s.meanY * sy - 1.0 + 1.0 == s.meanY * sy;
  }

  /** A quadratic form of scaled coordinates. */
  lemma ScaledForm(p: Precision, sx: real, sy: real, u: real, v: real)
    ensures UpPrecision(p, sx, sy).Form(u, v) == p.Form(u * sx, v * sy)
  {
    assert u * (p.xx * sx * sx * u + p.xy * sx * sy * v) == (u * sx) * (p.xx * (u * sx) + p.xy * (v * sy));
    assert v * (p.yx * sy * sx * u + p.yy * sy * sy * v) == (v * sy) * (p.yx * (u * sx) + p.yy * (v * sy));
  }

  lemma ScaledOffset(i: int, n: nat, m: real, s: real)
    requires n > 0 && s == 2.0 / n as real && s > 0.0
    ensures (i as real - (m + 1.0) / s) * s == Centred(i, n) - m
  {
    QuotientTimes(m + 1.0, s);
    assert (i as real - (m + 1.0) / s) * s == i as real * s - (m + 1.0) / s * s;
  }

  /** Scaling up keeps the curve: at every pixel the form has the same value, in the coordinates of the heatmap as in
      those of the fit. */
  lemma ScalingKeepsForm(s: Shape, g: Grid, iy: int, ix: int)
    requires g.rows > 0 && g.cols > 0
    ensures var c := Setting(g, 0.0, g.exp);
            var up := Up(s, c.ScaleX(), c.ScaleY());
            up.prec.Form(ix as real - up.meanX, iy as real - up.meanY) ==
            s.prec.Form(Centred(ix, g.cols) - s.meanX, Centred(iy, g.rows) - s.meanY)
  {
    hide Precision.Form, UpPrecision, Centred, Up;
    var sx, sy := 2.0 / g.cols as real, 2.0 / g.rows as real;
    var up := Up(s, sx, sy);
    UpFields(s, sx, sy);
    var u, v := ix as real - up.meanX, iy as real - up.meanY;
    ScaledForm(s.prec, sx, sy, u, v);
    ScaledOffset(ix, g.cols, s.meanX, sx);
    ScaledOffset(iy, g.rows, s.meanY, sy);
    SameForm(s.prec, u * sx, v * sy, Centred(ix, g.cols) - s.meanX, Centred(iy, g.rows) - s.meanY);
  }

  lemma UpFields(s: Shape, sx: real, sy: real)
    requires sx > 0.0 && sy > 0.0
    ensures Up(s, sx, sy).meanX == (s.meanX + 1.0) / sx && Up(s, sx, sy).meanY == (s.meanY + 1.0) / sy
    ensures Up(s, sx, sy).prec == UpPrecision(s.prec, sx, sy)
  {
  }

  lemma SameForm(p: Precision, u: real, v: real, a: real, b: real)
    requires u == a && v == b
    ensures p.Form(u, v) == p.Form(a, b)
  {
  }

  /** The shape that is reported is the fitted quadratic over the pixels of the heatmap: at each of them the quadratic
      is its value at the mean minus half of the form of the reported precision. */
  lemma ReportedCurve(chi: seq<real>, s: Shape, c: Setting, iy: int, ix: int)
    requires c.Valid() && IsVector(chi) && IsGaussianOf(chi, s, c)
    ensures var up := Up(s, c.ScaleX(), c.ScaleY());
            Quadratic(chi, Centred(ix, c.grid.cols), Centred(iy, c.grid.rows)) ==
            Quadratic(chi, s.meanX, s.meanY) - up.prec.Form(ix as real - up.meanX, iy as real - up.meanY) / 2.0
  {
    hide Precision.Form, UpPrecision, Centred, Quadratic, Up, IsStationary;
    ScalingKeepsForm(s, c.grid, iy, ix);
    assert Setting(c.grid, 0.0, c.grid.exp).ScaleX() == c.ScaleX()
        && Setting(c.grid, 0.0, c.grid.exp).ScaleY() == c.ScaleY();
    CompletedSquare(chi, s.meanX, s.meanY, Centred(ix, c.grid.cols), Centred(iy, c.grid.rows));
  }

  method DownScale(p: Parameters, sx: real, sy: real)
    requires sx > 0.0 && sy > 0.0
    modifies p
    ensures ShapeOf(p) == Down(old(ShapeOf(p)), sx, sy)
  {
    p.meanX, p.meanY := p.meanX * sx - 1.0, p.meanY * sy - 1.0;
    p.prec := DownPrecision(p.prec, sx, sy);
  }

  method UpScale(p: Parameters, sx: real, sy: real)
    requires sx > 0.0 && sy > 0.0
    modifies p
    ensures ShapeOf(p) == Up(old(ShapeOf(p)), sx, sy)
  {
    p.meanX, p.meanY := (p.meanX + 1.0) / sx, (p.meanY + 1.0) / sy;
    p.prec := UpPrecision(p.prec, sx, sy);
  }

  // ---------------------------------------------------------------- what a fit delivers

  /** `chi` is the only set of coefficients with the least error over the samples. */
  ghost predicate IsBest(chi: seq<real>, s: seq<Sample>) {
    && IsVector(chi)
    && Minimises(chi, s)
    && forall other | IsVector(other) && Error(other, s) <= Error(chi, s) :: other == chi
  }

  /** The shape, in coordinates between -1 and 1, is the Gaussian of the quadratic with these coefficients. */
  ghost predicate IsGaussianOf(chi: seq<real>, s: Shape, c: Setting)
    requires IsVector(chi)
  {
    && s.prec == PrecisionOf(chi)
    && Abs(s.prec.Determinant()) > c.eps
    && IsStationary(chi, s.meanX, s.meanY)
    && (forall x, y | IsStationary(chi, x, y) :: x == s.meanX && y == s.meanY)
    && s.scale == c.grid.exp(Quadratic(chi, s.meanX, s.meanY))
  }

  /** The shape is the Gaussian of the best quadratic for the samples, and these keep the system regular by the
      threshold. */
  ghost predicate IsFit(chi: seq<real>, s: Shape, samples: seq<Sample>, c: Setting) {
    s.valid && Robust(SystemOf(samples), c.eps) && IsBest(chi, samples) && IsGaussianOf(chi, s, c)
  }

  /** Up to the threshold, the samples do not determine a quadratic or it has no single stationary point. */
  ghost predicate Refusable(samples: seq<Sample>, c: Setting) {
    NearlySingular(SystemOf(samples), c.eps)
    || exists chi :: IsBest(chi, samples) && Abs(PrecisionOf(chi).Determinant()) <= c.eps
  }

  ghost predicate Inputs(params: seq<Parameters>, data: array2<real>, tmp: array2<real>, c: Setting) {
    && c.Valid()
    && data.Length0 == c.grid.rows && data.Length1 == c.grid.cols && data != tmp
    && Separate(params, c.grid, tmp)
    && (forall i | 0 <= i < |params| :: params[i].weights != data)
    && (forall i, j | 0 <= i < j < |params| :: params[i] != params[j])
  }

  ghost function SamplesOf(p: Parameters, data: array2<real>, c: Setting): seq<Sample>
    requires FitInput(p.bounds, data, p.weights)
    reads data, p.weights
  {
    Samples(p.bounds, data, p.weights, c.eps, c.log)
  }

  /** The samples determine a quadratic, and it has a single stationary point. */
  ghost predicate Solvable(s: seq<Sample>) {
    Determined(s) && exists chi :: IsVector(chi) && Minimises(chi, s) && PrecisionOf(chi).Determinant() != 0.0
  }

  /** Refits one valid Gaussian with the current weights. It becomes invalid only if its samples may be refused. Without
      thresholds it stays valid exactly if its samples can be solved. */
  method FitOne(p: Parameters, data: array2<real>, c: Setting)
    requires c.Valid() && FitInput(p.bounds, data, p.weights)
    requires p.valid
    modifies p
    ensures p.valid ==> exists chi :: IsFit(chi, ShapeOf(p), SamplesOf(p, data, c), c)
    ensures !p.valid ==> Refusable(SamplesOf(p, data, c), c)
    ensures c.eps == 0.0 ==> (p.valid <==> Solvable(SamplesOf(p, data, c)))
  {
    hide IsStationary, Minimises, Error, Precision.Determinant, Quadratic, Determined, Robust, NearlySingular;
    ghost var samples := SamplesOf(p, data, c);
    var ok, chi := FitCoefficients(p.bounds, data, p.weights, c.eps, c.log);
    p.valid := ok;
    if !ok {
      return;
    }
    var extracted := ExtractParams(chi[..], p, c.eps, c.grid.exp);
    p.valid := extracted;
    assert SamplesOf(p, data, c) == samples;
    OnlyMinimiser(chi[..], samples);
    assert IsBest(chi[..], samples);
    if p.valid {
      assert IsFit(chi[..], ShapeOf(p), samples, c);
    }
  }

  lemma OnlyMinimiser(chi: seq<real>, s: seq<Sample>)
    requires IsVector(chi) && Minimises(chi, s) && Determined(s)
    requires forall other | IsVector(other) && Error(other, s) <= Error(chi, s) :: other == chi
    ensures Solvable(s) <==> PrecisionOf(chi).Determinant() != 0.0
  {
    hide Error, Determined, Precision.Determinant;
    forall other | IsVector(other) && Minimises(other, s)
      ensures other == chi
    {
      assert Error(other, s) <= Error(chi, s);
    }
  }

  /** A Gaussian that is fitted as well as can be, seen in heatmap coordinates. */
  ghost predicate Fitted(p: Parameters, data: array2<real>, c: Setting)
    requires c.Valid() && FitInput(p.bounds, data, p.weights)
    reads p, p.weights, data
  {
    exists chi, s :: IsFit(chi, s, SamplesOf(p, data, c), c) && ShapeOf(p) == Up(s, c.ScaleX(), c.ScaleY())
  }

  ghost predicate ScaledFit(p: Parameters, data: array2<real>, c: Setting)
    requires c.Valid() && FitInput(p.bounds, data, p.weights)
    reads p, p.weights, data
  {
    exists chi :: IsFit(chi, ShapeOf(p), SamplesOf(p, data, c), c)
  }

  // ---------------------------------------------------------------- what the iterations do

  /** The shapes of some Gaussians and the heatmap they are fitted to. */
  ghost predicate OnHeatmap(shapes: seq<Shape>, data: array2<real>, c: Setting) {
    && c.Valid() && data.Length0 == c.grid.rows && data.Length1 == c.grid.cols
    && forall i | 0 <= i < |shapes| :: var b := shapes[i].bounds;
         b.Box? && 0 <= b.minX <= b.maxX < c.grid.cols && 0 <= b.minY <= b.maxY < c.grid.rows
  }

  /** A pixel as a sample for Gaussian `i`, weighted with its share. */
  ghost function ShareSample(shapes: seq<Shape>, i: nat, data: array2<real>, c: Setting, iy: int, ix: int): Sample
    requires OnHeatmap(shapes, data, c) && i < |shapes| && shapes[i].bounds.Contains(Point(ix, iy))
    reads data
  {
    var d := Share(shapes, c.grid, iy, ix, i) * data[iy, ix];
    Sample(Centred(ix, c.grid.cols), Centred(iy, c.grid.rows), d, c.log(d + c.eps))
  }

  /** The pixels of the box of Gaussian `i` before (ix, iy), row by row. */
  ghost function ShareSamples(shapes: seq<Shape>, i: nat, data: array2<real>, c: Setting, iy: int, ix: int):
      seq<Sample>
    requires OnHeatmap(shapes, data, c) && i < |shapes|
    requires var b := shapes[i].bounds;
             b.minY <= iy <= b.maxY + 1 && b.minX <= ix <= b.maxX + 1 && (iy == b.maxY + 1 ==> ix == b.minX)
    reads data
    decreases iy, ix
  {
    var b := shapes[i].bounds;
    if ix > b.minX then
      ShareSamples(shapes, i, data, c, iy, ix - 1) + [ShareSample(shapes, i, data, c, iy, ix - 1)]
    else if iy > b.minY then
      ShareSamples(shapes, i, data, c, iy - 1, b.maxX + 1)
    else
      []
  }

  /** A valid Gaussian becomes the best fit for the pixels of its box, weighted with its shares, or invalid. */
  ghost predicate Refitted(before: seq<Shape>, i: nat, after: Shape, data: array2<real>, c: Setting)
    requires OnHeatmap(before, data, c) && i < |before|
    reads data
  {
    var b := before[i].bounds;
    var samples := ShareSamples(before, i, data, c, b.maxY + 1, b.minX);
    if !before[i].valid then after == before[i]
    else if after.valid then after.bounds == b && exists chi :: IsFit(chi, after, samples, c)
    else after.bounds == b && Refusable(samples, c)
  }

  /** One iteration, as a relation on shapes. */
  ghost predicate Pass(before: seq<Shape>, after: seq<Shape>, data: array2<real>, c: Setting)
    requires OnHeatmap(before, data, c)
    reads data
  {
    |after| == |before| && forall i | 0 <= i < |before| :: Refitted(before, i, after[i], data, c)
  }

  /** `n` iterations. */
  ghost predicate Passes(n: nat, start: seq<Shape>, end: seq<Shape>, data: array2<real>, c: Setting)
    requires OnHeatmap(start, data, c)
    reads data
  {
    if n == 0 then end == start
    else exists mid | OnHeatmap(mid, data, c) :: Passes(n - 1, start, mid, data, c) && Pass(mid, end, data, c)
  }

  lemma {:induction false} SamplesAreShared(p: Parameters, shapes: seq<Shape>, i: nat, data: array2<real>, c: Setting,
      iy: int, ix: int)
    requires OnHeatmap(shapes, data, c) && i < |shapes| && shapes[i].bounds == p.bounds
    requires FitInput(p.bounds, data, p.weights)
    requires forall v, u | p.bounds.Contains(Point(u, v)) ::
               p.weights[v - p.bounds.minY, u - p.bounds.minX] == Share(shapes, c.grid, v, u, i)
    requires var b := p.bounds;
             b.minY <= iy <= b.maxY + 1 && b.minX <= ix <= b.maxX + 1 && (iy == b.maxY + 1 ==> ix == b.minX)
    ensures Scanned(p.bounds, data, p.weights, c.eps, c.log, iy, ix) == ShareSamples(shapes, i, data, c, iy, ix)
    decreases iy, ix
  {
    hide Share;
    if ix > p.bounds.minX {
      SamplesAreShared(p, shapes, i, data, c, iy, ix - 1);
      assert p.bounds.Contains(Point(ix - 1, iy));
      assert PixelSample(p.bounds, data, p.weights, c.eps, c.log, iy, ix - 1)
          == ShareSample(shapes, i, data, c, iy, ix - 1);
    } else if iy > p.bounds.minY {
      SamplesAreShared(p, shapes, i, data, c, iy - 1, p.bounds.maxX + 1);
    }
  }

  /** With shares as weights, the samples of a valid Gaussian depend on the shapes only. */
  lemma SharesGiveSamples(params: seq<Parameters>, shapes: seq<Shape>, i: nat, data: array2<real>, tmp: array2<real>,
      c: Setting)
    requires Inputs(params, data, tmp, c) && OnHeatmap(shapes, data, c) && |shapes| == |params| && i < |params|
    requires WeightsAreShares(params, shapes, c.grid, tmp)
    requires shapes[i].valid && shapes[i].bounds == params[i].bounds
    ensures var b := shapes[i].bounds;
            SamplesOf(params[i], data, c) == ShareSamples(shapes, i, data, c, b.maxY + 1, b.minX)
  {
    hide Share, Normalised, ShareSamples, Scanned, Total, Value;
    var p := params[i];
    forall v, u | p.bounds.Contains(Point(u, v))
      ensures p.weights[v - p.bounds.minY, u - p.bounds.minX] == Share(shapes, c.grid, v, u, i)
    {
      NormalisedIsShare(shapes, c.grid, v, u, WeightsAt(params, c.grid, v, u), i);
    }
    SamplesAreShared(p, shapes, i, data, c, p.bounds.maxY + 1, p.bounds.minX);
  }

  /** The weights at every pixel are the shares of these shapes. */
  ghost predicate WeightsAreShares(params: seq<Parameters>, shapes: seq<Shape>, g: Grid, tmp: array2<real>)
    requires g.rows > 0 && g.cols > 0 && Separate(params, g, tmp) && |shapes| == |params|
    reads set i | 0 <= i < |params| :: params[i].weights
  {
    forall iy, ix | 0 <= iy < g.rows && 0 <= ix < g.cols :: Normalised(shapes, g, iy, ix, WeightsAt(params, g, iy, ix))
  }

  /** Refits all valid Gaussians with the current weights; one that cannot be fitted becomes invalid. */
  method Refit(params: seq<Parameters>, data: array2<real>, ghost tmp: array2<real>, c: Setting)
    requires Inputs(params, data, tmp, c)
    modifies set i | 0 <= i < |params| :: params[i]
    ensures forall i | 0 <= i < |params| && !old(params[i].valid) :: ShapeOf(params[i]) == old(ShapeOf(params[i]))
    ensures forall i | 0 <= i < |params| && params[i].valid :: old(params[i].valid) && ScaledFit(params[i], data, c)
    ensures forall i | 0 <= i < |params| && old(params[i].valid) && !params[i].valid ::
              Refusable(SamplesOf(params[i], data, c), c)
    ensures c.eps == 0.0 ==> forall i | 0 <= i < |params| && old(params[i].valid) ::
              params[i].valid <==> Solvable(SamplesOf(params[i], data, c))
  {
    hide IsFit, Solvable, SamplesOf, Refusable;
    for n := 0 to |params|
      invariant forall i | 0 <= i < |params| && !old(params[i].valid) :: ShapeOf(params[i]) == old(ShapeOf(params[i]))
      invariant forall i | n <= i < |params| :: ShapeOf(params[i]) == old(ShapeOf(params[i]))
      invariant forall i | 0 <= i < n && params[i].valid :: old(params[i].valid) && ScaledFit(params[i], data, c)
      invariant forall i | 0 <= i < n && old(params[i].valid) && !params[i].valid ::
                  Refusable(SamplesOf(params[i], data, c), c)
      invariant c.eps == 0.0 ==> forall i | 0 <= i < n && old(params[i].valid) ::
                  params[i].valid <==> Solvable(SamplesOf(params[i], data, c))
    {
      if params[n].valid {
        FitOne(params[n], data, c);
      }
    }
  }

  /** What an iteration did: `before` are the shapes it started from. */
  ghost predicate Iterated(params: seq<Parameters>, data: array2<real>, tmp: array2<real>, c: Setting,
      before: seq<Shape>)
    requires Inputs(params, data, tmp, c) && |before| == |params|
    reads set i | 0 <= i < |params| :: params[i], set i | 0 <= i < |params| :: params[i].weights, data
  {
    && WeightsAreShares(params, before, c.grid, tmp)
    && (forall i | 0 <= i < |params| && params[i].valid :: before[i].valid)
    && (c.eps == 0.0 ==> forall i | 0 <= i < |params| ::
          params[i].valid <==> before[i].valid && Solvable(SamplesOf(params[i], data, c)))
  }

  /** One iteration: the weights become the shares of the shapes, and then all valid Gaussians are refitted. */
  method Iterate(params: seq<Parameters>, data: array2<real>, tmp: array2<real>, c: Setting)
    requires Inputs(params, data, tmp, c)
    modifies tmp, set i | 0 <= i < |params| :: params[i], set i | 0 <= i < |params| :: params[i].weights
    ensures forall i | 0 <= i < |params| && !old(params[i].valid) :: ShapeOf(params[i]) == old(ShapeOf(params[i]))
    ensures forall i | 0 <= i < |params| && params[i].valid :: ScaledFit(params[i], data, c)
    ensures Iterated(params, data, tmp, c, old(Shapes(params)))
    ensures OnHeatmap(old(Shapes(params)), data, c) && Pass(old(Shapes(params)), Shapes(params), data, c)
  {
    hide ScaledFit, Normalised, Total, Solvable, SamplesOf, Refusable;
    ghost var before := Shapes(params);
    UpdateWeightMaps(params, c.grid, tmp);
    assert WeightsAreShares(params, before, c.grid, tmp);
    hide WeightsAreShares;
    Refit(params, data, tmp, c);
    IsPass(params, before, data, tmp, c);
  }

  lemma IsPass(params: seq<Parameters>, before: seq<Shape>, data: array2<real>, tmp: array2<real>, c: Setting)
    requires Inputs(params, data, tmp, c) && |before| == |params|
    requires WeightsAreShares(params, before, c.grid, tmp)
    requires forall i | 0 <= i < |params| :: before[i].bounds == params[i].bounds
    requires forall i | 0 <= i < |params| && !before[i].valid :: ShapeOf(params[i]) == before[i]
    requires forall i | 0 <= i < |params| && params[i].valid :: before[i].valid && ScaledFit(params[i], data, c)
    requires forall i | 0 <= i < |params| && before[i].valid && !params[i].valid ::
               Refusable(SamplesOf(params[i], data, c), c)
    ensures OnHeatmap(before, data, c) && Pass(before, Shapes(params), data, c)
  {
    hide WeightsAreShares, Refusable, IsFit, ShareSamples, SamplesOf;
    forall i | 0 <= i < |params|
      ensures Refitted(before, i, ShapeOf(params[i]), data, c)
    {
      if before[i].valid {
        SharesGiveSamples(params, before, i, data, tmp, c);
      }
    }
  }

  /** The valid shapes in coordinates between -1 and 1. */
  ghost function DownAll(s: seq<Shape>, c: Setting): (d: seq<Shape>)
    requires c.Valid()
    ensures |d| == |s|
    ensures forall i | 0 <= i < |s| :: d[i] == if s[i].valid then Down(s[i], c.ScaleX(), c.ScaleY()) else s[i]
  {
    seq(|s|, i requires 0 <= i < |s| => if s[i].valid then Down(s[i], c.ScaleX(), c.ScaleY()) else s[i])
  }

  /** The valid shapes in the coordinates of the heatmap. */
  ghost function UpAll(s: seq<Shape>, c: Setting): (u: seq<Shape>)
    requires c.Valid()
    ensures |u| == |s|
    ensures forall i | 0 <= i < |s| :: u[i] == if s[i].valid then Up(s[i], c.ScaleX(), c.ScaleY()) else s[i]
  {
    seq(|s|, i requires 0 <= i < |s| => if s[i].valid then Up(s[i], c.ScaleX(), c.ScaleY()) else s[i])
  }

  method DownScaleAll(params: seq<Parameters>, c: Setting)
    requires c.Valid() && forall i, j | 0 <= i < j < |params| :: params[i] != params[j]
    modifies set i | 0 <= i < |params| :: params[i]
    ensures Shapes(params) == DownAll(old(Shapes(params)), c)
  {
    hide Down;
    ghost var s, d := Shapes(params), DownAll(Shapes(params), c);
    for n := 0 to |params|
      invariant forall i | 0 <= i < |params| :: ShapeOf(params[i]) == if i < n then d[i] else s[i]
    {
      if params[n].valid {
        DownScale(params[n], c.ScaleX(), c.ScaleY());
      }
    }
  }

  method Repeat(params: seq<Parameters>, data: array2<real>, tmp: array2<real>, iterations: nat, c: Setting)
      returns (ghost before: seq<Shape>)
    requires Inputs(params, data, tmp, c)
    modifies tmp, set i | 0 <= i < |params| :: params[i], set i | 0 <= i < |params| :: params[i].weights
    ensures forall i | 0 <= i < |params| && !old(params[i].valid) :: ShapeOf(params[i]) == old(ShapeOf(params[i]))
    ensures iterations == 0 ==> Shapes(params) == old(Shapes(params))
    ensures iterations <= 1 ==> before == old(Shapes(params))
    ensures |before| == |params| && forall i | 0 <= i < |params| && before[i].valid :: old(params[i].valid)
    ensures iterations > 0 ==> Iterated(params, data, tmp, c, before)
    ensures iterations > 0 ==> forall i | 0 <= i < |params| && params[i].valid :: ScaledFit(params[i], data, c)
    ensures OnHeatmap(old(Shapes(params)), data, c)
    ensures Passes(iterations, old(Shapes(params)), Shapes(params), data, c)
  {
    hide ScaledFit, Iterated, Pass;
    before := Shapes(params);
    for n := 0 to iterations
      invariant forall i | 0 <= i < |params| && !old(params[i].valid) :: ShapeOf(params[i]) == old(ShapeOf(params[i]))
      invariant n == 0 ==> Shapes(params) == old(Shapes(params))
      invariant n <= 1 ==> before == old(Shapes(params))
      invariant |before| == |params| && forall i | 0 <= i < |params| && before[i].valid :: old(params[i].valid)
      invariant n > 0 ==> Iterated(params, data, tmp, c, before)
      invariant n > 0 ==> forall i | 0 <= i < |params| && params[i].valid :: ScaledFit(params[i], data, c)
      invariant Passes(n, old(Shapes(params)), Shapes(params), data, c)
    {
      before := Shapes(params);
      Iterate(params, data, tmp, c);
    }
  }

  /** Fits all valid Gaussians to the heatmap. `before` are their shapes, in coordinates between -1 and 1, before the
      last iteration. */
  method Fit(params: seq<Parameters>, data: array2<real>, tmp: array2<real>, iterations: nat, c: Setting)
      returns (ghost before: seq<Shape>)
    requires Inputs(params, data, tmp, c)
    modifies tmp, set i | 0 <= i < |params| :: params[i], set i | 0 <= i < |params| :: params[i].weights
    ensures forall i | 0 <= i < |params| && !old(params[i].valid) :: ShapeOf(params[i]) == old(ShapeOf(params[i]))
    ensures iterations == 0 ==> forall i | 0 <= i < |params| :: ShapeOf(params[i]) == old(ShapeOf(params[i]))
    ensures iterations > 0 ==> forall i | 0 <= i < |params| && params[i].valid :: Fitted(params[i], data, c)
    ensures |before| == |params| && forall i | 0 <= i < |params| && before[i].valid :: old(params[i].valid)
    ensures iterations <= 1 ==> forall i | 0 <= i < |params| && old(params[i].valid) ::
              before[i] == Down(old(ShapeOf(params[i])), c.ScaleX(), c.ScaleY())
    ensures iterations > 0 ==> Iterated(params, data, tmp, c, before)
    ensures var start := DownAll(old(Shapes(params)), c);
            OnHeatmap(start, data, c) &&
            exists end :: Passes(iterations, start, end, data, c) && Shapes(params) == UpAll(end, c)
  {
    hide IsFit, Down, Up, Solvable, WeightsAreShares, ScaledFit, Fitted, Passes, OnHeatmap, SamplesOf, UpAll,
      Iterated;
    ghost var s := Shapes(params);
    DownScaleAll(params, c);
    ghost var start := Shapes(params);
    before := Repeat(params, data, tmp, iterations, c);
    ghost var end := Shapes(params);
    UpScaleAll(params, data, tmp, iterations, c, before);
    Rescaled(s, start, end, c, Shapes(params));
  }

  /** What scaling down, some iterations and scaling up do to Gaussians that the iterations do not change. */
  lemma Rescaled(s: seq<Shape>, start: seq<Shape>, end: seq<Shape>, c: Setting, final: seq<Shape>)
    requires c.Valid() && start == DownAll(s, c) && |end| == |start| && final == UpAll(end, c)
    requires forall i | 0 <= i < |start| && !start[i].valid :: end[i] == start[i]
    ensures forall i | 0 <= i < |s| :: start[i].valid == s[i].valid && final[i].valid == end[i].valid
    ensures forall i | 0 <= i < |s| && !s[i].valid :: final[i] == s[i]
    ensures end == start ==> final == s
  {
    hide Down, Up;
    var sx, sy := c.ScaleX(), c.ScaleY();
    forall i | 0 <= i < |s|
      ensures start[i].valid == s[i].valid && final[i].valid == end[i].valid
      ensures end[i] == start[i] ==> final[i] == s[i]
    {
      ScalingKeepsValid(s[i], sx, sy);
      ScalingKeepsValid(end[i], sx, sy);
      UpDown(s[i], sx, sy);
    }
  }

  lemma ScalingKeepsValid(s: Shape, sx: real, sy: real)
    requires sx > 0.0 && sy > 0.0
    ensures Down(s, sx, sy).valid == s.valid && Up(s, sx, sy).valid == s.valid
  {
  }

  method UpScaleAll(params: seq<Parameters>, data: array2<real>, tmp: array2<real>, iterations: nat, c: Setting,
      ghost before: seq<Shape>)
    requires Inputs(params, data, tmp, c)
    requires iterations > 0 ==> forall i | 0 <= i < |params| && params[i].valid :: ScaledFit(params[i], data, c)
    requires |before| == |params| && (iterations > 0 ==> Iterated(params, data, tmp, c, before))
    modifies set i | 0 <= i < |params| :: params[i]
    ensures Shapes(params) == UpAll(old(Shapes(params)), c)
    ensures iterations > 0 ==> Iterated(params, data, tmp, c, before)
    ensures iterations > 0 ==> forall i | 0 <= i < |params| && params[i].valid :: Fitted(params[i], data, c)
  {
    hide IsFit, Up, WeightsAreShares, Solvable;
    ghost var s, u := Shapes(params), UpAll(Shapes(params), c);
    for n := 0 to |params|
      invariant forall i | 0 <= i < |params| :: ShapeOf(params[i]) == if i < n then u[i] else s[i]
    {
      if params[n].valid {
        UpScale(params[n], c.ScaleX(), c.ScaleY());
      }
    }
    if iterations > 0 {
      forall i | 0 <= i < |params|
        ensures params[i].valid == old(params[i].valid)
        ensures SamplesOf(params[i], data, c) == old(SamplesOf(params[i], data, c))
      {
        ScalingKeepsValid(s[i], c.ScaleX(), c.ScaleY());
      }
      forall i | 0 <= i < |params| && params[i].valid
        ensures Fitted(params[i], data, c)
      {
        ghost var chi :| old(IsFit(chi, ShapeOf(params[i]), SamplesOf(params[i], data, c), c));
      }
    }
  }
}
