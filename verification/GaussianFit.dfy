/** Fitting the parameters of one Gaussian to the pixels of a box. Logarithm and exponential
    are function parameters: nothing about them is needed here. */
module GaussianFit {
  import opened Geometry
  import opened LinearSolver
  import opened LeastSquares
  import opened Regularity

  /** The coordinate of a pixel, scaled to -1..1. */
  ghost function Centred(i: int, n: nat): real
    requires n > 0
  {
    (i as real) * (2.0 / n as real) - 1.0
  }

  /** The pixel (ix, iy) as a sample: coordinates scaled to -1..1, value weighted. */
  ghost function PixelSample(b: Box, data: array2<real>, w: array2<real>, eps: real, log: real -> real, iy: int,
      ix: int): Sample
    requires FitInput(b, data, w) && b.Contains(Point(ix, iy))
    reads data, w
  {
    var d := w[iy - b.minY, ix - b.minX] * data[iy, ix];
    Sample(Centred(ix, data.Length1), Centred(iy, data.Length0), d, log(d + eps))
  }

  /** The box lies on the heatmap and has a weight for each of its pixels. */
  ghost predicate FitInput(b: Box, data: array2<real>, w: array2<real>) {
    && b.Box? && 0 <= b.minX <= b.maxX < data.Length1 && 0 <= b.minY <= b.maxY < data.Length0
    && w.Length0 == b.maxY - b.minY + 1 && w.Length1 == b.maxX - b.minX + 1
  }

  /** The samples of all pixels of the box that come before (ix, iy) row by row. */
  ghost function Scanned(b: Box, data: array2<real>, w: array2<real>, eps: real, log: real -> real, iy: int,
      ix: int): seq<Sample>
    requires FitInput(b, data, w) && b.minY <= iy <= b.maxY + 1 && b.minX <= ix <= b.maxX + 1
    requires iy == b.maxY + 1 ==> ix == b.minX
    reads data, w
    decreases iy, ix
  {
    if ix > b.minX then
      Scanned(b, data, w, eps, log, iy, ix - 1) + [PixelSample(b, data, w, eps, log, iy, ix - 1)]
    else if iy > b.minY then
      Scanned(b, data, w, eps, log, iy - 1, b.maxX + 1)
    else
      []
  }

  /** The samples of all pixels of the box. */
  ghost function Samples(b: Box, data: array2<real>, w: array2<real>, eps: real, log: real -> real): seq<Sample>
    requires FitInput(b, data, w)
    reads data, w
  {
    Scanned(b, data, w, eps, log, b.maxY + 1, b.minX)
  }

  /** The product of the monomials `i` and `j`, as a term of the moment sums. */
  ghost function Term(p: Sample, i: nat, j: nat): real
    requires i < SIZE && j < SIZE
  {
    p.d * p.d * Basis(p)[i] * Basis(p)[j]
  }

  ghost function RhsTerm(p: Sample, i: nat): real
    requires i < SIZE
  {
    p.l * p.d * p.d * Basis(p)[i]
  }

  lemma RhsTerms(p: Sample, x: real, y: real, v: real)
    requires p.x == x && p.y == y && v == p.l * p.d * p.d
    ensures RhsTerm(p, 0) == v * x * x && RhsTerm(p, 1) == v * x * y && RhsTerm(p, 2) == v * y * y
    ensures RhsTerm(p, 3) == v * x && RhsTerm(p, 4) == v * y && RhsTerm(p, 5) == v
  {
  }

  /** Adds one term to each entry of a row of the system. */
  method AddToRow(m: array2<real>, i: nat, t0: real, t1: real, t2: real, t3: real, t4: real, t5: real, ghost p: Sample)
    requires m.Length0 == SIZE && m.Length1 == SIZE && i < SIZE
    requires t0 == Term(p, i, 0) && t1 == Term(p, i, 1) && t2 == Term(p, i, 2)
    requires t3 == Term(p, i, 3) && t4 == Term(p, i, 4) && t5 == Term(p, i, 5)
    modifies m
    ensures forall k, j | 0 <= k < SIZE && 0 <= j < SIZE ::
              m[k, j] == if k == i then old(m[k, j]) + Term(p, k, j) else old(m[k, j])
  {
    hide Term;
    m[i, 0] := m[i, 0] + t0;
    m[i, 1] := m[i, 1] + t1;
    m[i, 2] := m[i, 2] + t2;
    m[i, 3] := m[i, 3] + t3;
    m[i, 4] := m[i, 4] + t4;
    m[i, 5] := m[i, 5] + t5;
  }

  method AddRow0(m: array2<real>, x: real, y: real, d: real, ghost p: Sample)
    requires m.Length0 == SIZE && m.Length1 == SIZE
    requires p.x == x && p.y == y && p.d == d
    modifies m
    ensures forall k, j | 0 <= k < SIZE && 0 <= j < SIZE ::
              m[k, j] == if k == 0 then old(m[k, j]) + Term(p, k, j) else old(m[k, j])
  {
    AddToRow(m, 0, d * d * x * x * x * x, d * d * x * x * x * y, d * d * x * x * y * y, d * d * x * x * x,
        d * d * x * x * y, d * d * x * x, p);
  }

  method AddRow1(m: array2<real>, x: real, y: real, d: real, ghost p: Sample)
    requires m.Length0 == SIZE && m.Length1 == SIZE
    requires p.x == x && p.y == y && p.d == d
    modifies m
    ensures forall k, j | 0 <= k < SIZE && 0 <= j < SIZE ::
              m[k, j] == if k == 1 then old(m[k, j]) + Term(p, k, j) else old(m[k, j])
  {
    AddToRow(m, 1, d * d * x * x * x * y, d * d * x * x * y * y, d * d * x * y * y * y, d * d * x * x * y,
        d * d * x * y * y, d * d * x * y, p);
  }

  method AddRow2(m: array2<real>, x: real, y: real, d: real, ghost p: Sample)
    requires m.Length0 == SIZE && m.Length1 == SIZE
    requires p.x == x && p.y == y && p.d == d
    modifies m
    ensures forall k, j | 0 <= k < SIZE && 0 <= j < SIZE ::
              m[k, j] == if k == 2 then old(m[k, j]) + Term(p, k, j) else old(m[k, j])
  {
    AddToRow(m, 2, d * d * x * x * y * y, d * d * x * y * y * y, d * d * y * y * y * y, d * d * x * y * y,
        d * d * y * y * y, d * d * y * y, p);
  }

  method AddRow3(m: array2<real>, x: real, y: real, d: real, ghost p: Sample)
    requires m.Length0 == SIZE && m.Length1 == SIZE
    requires p.x == x && p.y == y && p.d == d
    modifies m
    ensures forall k, j | 0 <= k < SIZE && 0 <= j < SIZE ::
              m[k, j] == if k == 3 then old(m[k, j]) + Term(p, k, j) else old(m[k, j])
  {
    AddToRow(m, 3, d * d * x * x * x, d * d * x * x * y, d * d * x * y * y, d * d * x * x, d * d * x * y, d * d * x, p);
  }

  method AddRow4(m: array2<real>, x: real, y: real, d: real, ghost p: Sample)
    requires m.Length0 == SIZE && m.Length1 == SIZE
    requires p.x == x && p.y == y && p.d == d
    modifies m
    ensures forall k, j | 0 <= k < SIZE && 0 <= j < SIZE ::
              m[k, j] == if k == 4 then old(m[k, j]) + Term(p, k, j) else old(m[k, j])
  {
    AddToRow(m, 4, d * d * x * x * y, d * d * x * y * y, d * d * y * y * y, d * d * x * y, d * d * y * y, d * d * y, p);
  }

  method AddRow5(m: array2<real>, x: real, y: real, d: real, ghost p: Sample)
    requires m.Length0 == SIZE && m.Length1 == SIZE
    requires p.x == x && p.y == y && p.d == d
    modifies m
    ensures forall k, j | 0 <= k < SIZE && 0 <= j < SIZE ::
              m[k, j] == if k == 5 then old(m[k, j]) + Term(p, k, j) else old(m[k, j])
  {
    AddToRow(m, 5, d * d * x * x, d * d * x * y, d * d * y * y, d * d * x, d * d * y, d * d, p);
  }

  method AddRhs(rhs: array<real>, x: real, y: real, v: real, ghost p: Sample)
    requires rhs.Length == SIZE
    requires p.x == x && p.y == y && v == p.l * p.d * p.d
    modifies rhs
    ensures forall i | 0 <= i < SIZE :: rhs[i] == old(rhs[i]) + RhsTerm(p, i)
  {
    hide RhsTerm;
    RhsTerms(p, x, y, v);
    rhs[0] := rhs[0] + v * x * x;
    rhs[1] := rhs[1] + v * x * y;
    rhs[2] := rhs[2] + v * y * y;
    rhs[3] := rhs[3] + v * x;
    rhs[4] := rhs[4] + v * y;
    rhs[5] := rhs[5] + v;
  }

  /** Adds one pixel to the system; the row of the mixed monomial is doubled only at the end. */
  method AddPixel(m: array2<real>, rhs: array<real>, x: real, y: real, d: real, l: real)
    requires m.Length0 == SIZE && m.Length1 == SIZE && rhs.Length == SIZE
    modifies m, rhs
    ensures forall i, j | 0 <= i < SIZE && 0 <= j < SIZE :: m[i, j] == old(m[i, j]) + Term(Sample(x, y, d, l), i, j)
    ensures forall i | 0 <= i < SIZE :: rhs[i] == old(rhs[i]) + RhsTerm(Sample(x, y, d, l), i)
  {
    hide Term, RhsTerm;
    ghost var p := Sample(x, y, d, l);
    var v := l * d * d;
    AddRhs(rhs, x, y, v, p);
    AddRow0(m, x, y, d, p);
    AddRow1(m, x, y, d, p);
    AddRow2(m, x, y, d, p);
    AddRow3(m, x, y, d, p);
    AddRow4(m, x, y, d, p);
    AddRow5(m, x, y, d, p);
  }

  lemma SumsGrowByPixel(s: seq<Sample>, p: Sample)
    ensures forall i, j | 0 <= i < SIZE && 0 <= j < SIZE :: Moment(s + [p], i, j) == Moment(s, i, j) + Term(p, i, j)
    ensures forall i | 0 <= i < SIZE :: Rhs(s + [p], i) == Rhs(s, i) + RhsTerm(p, i)
  {
    hide Basis;
    assert (s + [p])[..|s|] == s;
  }

  /** The sums over `s` are stored in `m` and `rhs`; the mixed row is not doubled yet. */
  ghost predicate Accumulated(m: array2<real>, rhs: array<real>, s: seq<Sample>)
    requires m.Length0 == SIZE && m.Length1 == SIZE && rhs.Length == SIZE
    reads m, rhs
  {
    && (forall i, j | 0 <= i < SIZE && 0 <= j < SIZE :: m[i, j] == Moment(s, i, j))
    && (forall i | 0 <= i < SIZE :: rhs[i] == Rhs(s, i))
  }

  method DoubleMixedRow(m: array2<real>, rhs: array<real>, ghost s: seq<Sample>)
    requires m.Length0 == SIZE && m.Length1 == SIZE && rhs.Length == SIZE
    requires Accumulated(m, rhs, s)
    modifies m
    ensures IsSystem(Rows(m), rhs[..], s)
  {
    for j := 0 to SIZE
      invariant forall i, k | 0 <= i < SIZE && 0 <= k < SIZE && (i != 1 || j <= k) :: m[i, k] == Moment(s, i, k)
      invariant forall k | 0 <= k < j :: m[1, k] == Moment(s, 1, k) * 2.0
    {
      m[1, j] := m[1, j] * 2.0;
    }
    forall r | 0 <= r < SIZE
      ensures Rows(m)[r] == SystemRow(s, r)
    {
      assert forall k | 0 <= k < SIZE :: Rows(m)[r][k] == SystemRow(s, r)[k];
    }
  }

  /** Assembles the normal equations of the pixels of the box. */
  method AssembleSystem(m: array2<real>, rhs: array<real>, b: Box, data: array2<real>, w: array2<real>, eps: real,
      log: real -> real)
    requires m.Length0 == SIZE && m.Length1 == SIZE && rhs.Length == SIZE && m != data && m != w
    requires FitInput(b, data, w)
    modifies m, rhs
    ensures IsSystem(Rows(m), rhs[..], Samples(b, data, w, eps, log))
  {
    hide Moment, Rhs, PixelSample, Term, RhsTerm;
    for i := 0 to SIZE
      invariant forall k, j | 0 <= k < i && 0 <= j < SIZE :: m[k, j] == 0.0
      invariant forall k | 0 <= k < i :: rhs[k] == 0.0
    {
      for j := 0 to SIZE
        invariant forall k, n | 0 <= k < SIZE && 0 <= n < SIZE && (k < i || (k == i && n < j)) :: m[k, n] == 0.0
        invariant forall k | 0 <= k < i :: rhs[k] == 0.0
      {
        m[i, j] := 0.0;
      }
      rhs[i] := 0.0;
    }
    NoSamples();
    var sx, sy := 2.0 / (data.Length1 as real), 2.0 / (data.Length0 as real);

    var iy := b.minY;
    while iy <= b.maxY
      invariant b.minY <= iy <= b.maxY + 1
      invariant Accumulated(m, rhs, Scanned(b, data, w, eps, log, iy, b.minX))
    {
      var y := (iy as real) * sy - 1.0;
      var ix := b.minX;
      while ix <= b.maxX
        invariant b.minX <= ix <= b.maxX + 1
        invariant Accumulated(m, rhs, Scanned(b, data, w, eps, log, iy, ix))
      {
        var x := (ix as real) * sx - 1.0;
        var d := w[iy - b.minY, ix - b.minX] * data[iy, ix];
        ghost var s, p := Scanned(b, data, w, eps, log, iy, ix), Sample(x, y, d, log(d + eps));
        IsPixelSample(b, data, w, eps, log, iy, ix, p);
        SumsGrowByPixel(s, p);
        AddPixel(m, rhs, x, y, d, log(d + eps));
        ix := ix + 1;
        assert Scanned(b, data, w, eps, log, iy, ix) == s + [p];
      }
      iy := iy + 1;
    }
    DoubleMixedRow(m, rhs, Samples(b, data, w, eps, log));
  }

  lemma NoSamples()
    ensures forall i, j | 0 <= i < SIZE && 0 <= j < SIZE :: Moment([], i, j) == 0.0
    ensures forall i | 0 <= i < SIZE :: Rhs([], i) == 0.0
  {
  }

  lemma IsPixelSample(b: Box, data: array2<real>, w: array2<real>, eps: real, log: real -> real, iy: int, ix: int,
      p: Sample)
    requires FitInput(b, data, w) && b.Contains(Point(ix, iy))
    requires p.x == Centred(ix, data.Length1) && p.y == Centred(iy, data.Length0)
    requires p.d == w[iy - b.minY, ix - b.minX] * data[iy, ix]
    requires p.l == log(p.d + eps)
    ensures p == PixelSample(b, data, w, eps, log, iy, ix)
  {
  }

  // ---------------------------------------------------------------- from coefficients to parameters

  /** A 2x2 precision matrix. */
  datatype Precision = Precision(xx: real, xy: real, yx: real, yy: real) {
    function Determinant(): real {
      xx * yy - xy * yx
    }

    /** The quadratic form of the matrix at the vector (x, y). */
    function Form(x: real, y: real): real {
      x * (xx * x + xy * y) + y * (yx * x + yy * y)
    }
  }

  /** The parameters of one Gaussian together with the window its weights are sampled in. */
  class Parameters {
    var valid: bool
    var scale: real
    var meanX: real
    var meanY: real
    var prec: Precision
    const bounds: Box
    const weights: array2<real>

    constructor (scale: real, meanX: real, meanY: real, prec: Precision, bounds: Box, weights: array2<real>)
      ensures valid && this.scale == scale && this.meanX == meanX && this.meanY == meanY && this.prec == prec
      ensures this.bounds == bounds && this.weights == weights
    {
      valid, this.scale, this.meanX, this.meanY, this.prec := true, scale, meanX, meanY, prec;
      this.bounds, this.weights := bounds, weights;
    }
  }

  /** Both partial derivatives of the quadratic vanish at (x, y). */
  ghost predicate IsStationary(chi: seq<real>, x: real, y: real)
    requires |chi| == SIZE
  {
    && 2.0 * chi[0] * x + 2.0 * chi[1] * y + chi[3] == 0.0
    && 2.0 * chi[1] * x + 2.0 * chi[2] * y + chi[4] == 0.0
  }

  /** The precision matrix of a quadratic. */
  function PrecisionOf(chi: seq<real>): Precision
    requires |chi| == SIZE
  {
    Precision(chi[0] * -2.0, chi[1] * -2.0, chi[1] * -2.0, chi[2] * -2.0)
  }

  /** Cramer's rule for a symmetric 2x2 system. */
  lemma CramersRule(p: Precision, e: real, f: real, x: real, y: real)
    requires p.xy == p.yx && p.Determinant() != 0.0
    requires x * p.Determinant() == p.yy * e - p.yx * f
    requires y * p.Determinant() == p.xx * f - p.xy * e
    ensures p.xx * x + p.xy * y == e && p.yx * x + p.yy * y == f
  {
    var d := p.Determinant();
    CramerRow(p.xx, p.xy, p.yy, e, f, d, x, y);
    CramerRow(p.yy, p.yx, p.xx, f, e, d, y, x);
  }

  lemma CramerRow(a: real, b: real, c: real, e: real, f: real, d: real, x: real, y: real)
    requires d == a * c - b * b && d != 0.0
    requires x * d == c * e - b * f && y * d == a * f - b * e
    ensures a * x + b * y == e
  {
    assert d * (a * x + b * y) == a * (x * d) + b * (y * d);
    assert a * (c * e - b * f) + b * (a * f - b * e) == d * e;
    Cancels(d, a * x + b * y, e);
  }

  /** A point that satisfies the equations of the precision matrix is the only one. */
  lemma UniqueRoot(p: Precision, e: real, f: real, x: real, y: real, u: real, v: real)
    requires p.xy == p.yx && p.Determinant() != 0.0
    requires p.xx * x + p.xy * y == e && p.yx * x + p.yy * y == f
    requires p.xx * u + p.xy * v == e && p.yx * u + p.yy * v == f
    ensures x == u && y == v
  {
    var d := p.Determinant();
    RootTimesDeterminant(p.xx, p.xy, p.yy, e, f, x, y);
    RootTimesDeterminant(p.xx, p.xy, p.yy, e, f, u, v);
    RootTimesDeterminant(p.yy, p.yx, p.xx, f, e, y, x);
    RootTimesDeterminant(p.yy, p.yx, p.xx, f, e, v, u);
    Cancels(d, x, u);
    Cancels(d, y, v);
  }

  lemma RootTimesDeterminant(a: real, b: real, c: real, e: real, f: real, x: real, y: real)
    requires a * x + b * y == e && b * x + c * y == f
    ensures (a * c - b * b) * x == c * e - b * f
  {
    assert c * (a * x + b * y) - b * (b * x + c * y) == (a * c - b * b) * x;
  }

  /** The precision equations are the stationarity conditions. */
  lemma StationaryByPrecision(chi: seq<real>, x: real, y: real)
    requires |chi| == SIZE
    ensures var p := PrecisionOf(chi);
            IsStationary(chi, x, y) <==> p.xx * x + p.xy * y == chi[3] && p.yx * x + p.yy * y == chi[4]
  {
  }

  /** The fitted quadratic is its value at the mean minus half the quadratic form of the offset. */
  lemma CompletedSquare(chi: seq<real>, mx: real, my: real, x: real, y: real)
    requires |chi| == SIZE && IsStationary(chi, mx, my)
    ensures Quadratic(chi, x, y) == Quadratic(chi, mx, my) - PrecisionOf(chi).Form(x - mx, y - my) / 2.0
    ensures Quadratic(chi, mx, my) == chi[5] + PrecisionOf(chi).Form(mx, my) / 2.0
  {
    hide Quadratic;
    var a, b, c, e, f := chi[0], chi[1], chi[2], chi[3], chi[4];
    var u, v := x - mx, y - my;
    FormOf(chi, u, v);
    FormOf(chi, mx, my);
    QuadraticAt(chi, x, y);
    QuadraticAt(chi, mx, my);
    Expanded(a, b, c, mx, my, u, v, e, f);
    assert 2.0 * (a * mx) + 2.0 * (b * my) + e == 0.0;
    assert 2.0 * (b * mx) + 2.0 * (c * my) + f == 0.0;
    AtStationary(a, b, c, e, f, mx, my);
  }

  lemma FormOf(chi: seq<real>, x: real, y: real)
    requires |chi| == SIZE
    ensures PrecisionOf(chi).Form(x, y) == -2.0 * (chi[0] * (x * x) + 2.0 * (chi[1] * (x * y)) + chi[2] * (y * y))
  {
  }

  lemma QuadraticAt(chi: seq<real>, x: real, y: real)
    requires |chi| == SIZE
    ensures Quadratic(chi, x, y) ==
            (chi[0] * (x * x) + 2.0 * (chi[1] * (x * y)) + chi[2] * (y * y)) + (chi[3] * x + chi[4] * y) + chi[5]
  {
  }

  lemma Expanded(a: real, b: real, c: real, mx: real, my: real, u: real, v: real, e: real, f: real)
    requires 2.0 * a * mx + 2.0 * b * my + e == 0.0 && 2.0 * b * mx + 2.0 * c * my + f == 0.0
    ensures (a * ((mx + u) * (mx + u)) + 2.0 * (b * ((mx + u) * (my + v))) + c * ((my + v) * (my + v)))
              + (e * (mx + u) + f * (my + v))
            == (a * (mx * mx) + 2.0 * (b * (mx * my)) + c * (my * my)) + (e * mx + f * my)
               + (a * (u * u) + 2.0 * (b * (u * v)) + c * (v * v))
  {
    assert a * ((mx + u) * (mx + u)) == a * (mx * mx) + (2.0 * a * mx) * u + a * (u * u);
    assert c * ((my + v) * (my + v)) == c * (my * my) + (2.0 * c * my) * v + c * (v * v);
    assert 2.0 * (b * ((mx + u) * (my + v))) ==
        2.0 * (b * (mx * my)) + (2.0 * b * my) * u + (2.0 * b * mx) * v + 2.0 * (b * (u * v));
    assert (2.0 * a * mx + 2.0 * b * my + e) * u == (2.0 * a * mx) * u + (2.0 * b * my) * u + e * u;
    assert (2.0 * b * mx + 2.0 * c * my + f) * v == (2.0 * b * mx) * v + (2.0 * c * my) * v + f * v;
  }

  lemma AtStationary(a: real, b: real, c: real, e: real, f: real, x: real, y: real)
    requires 2.0 * (a * x) + 2.0 * (b * y) + e == 0.0 && 2.0 * (b * x) + 2.0 * (c * y) + f == 0.0
    ensures e * x + f * y == -2.0 * (a * (x * x) + 2.0 * (b * (x * y)) + c * (y * y))
  {
    assert (2.0 * (a * x) + 2.0 * (b * y) + e) * x == 2.0 * (a * (x * x)) + 2.0 * (b * (x * y)) + e * x;
    assert (2.0 * (b * x) + 2.0 * (c * y) + f) * y == 2.0 * (b * (x * y)) + 2.0 * (c * (y * y)) + f * y;
  }

  // ---------------------------------------------------------------- which boxes can be fitted

  lemma {:induction false} ScannedPixel(b: Box, data: array2<real>, w: array2<real>, eps: real, log: real -> real,
                                        iy: int, ix: int, v: int, u: int)
    requires FitInput(b, data, w) && b.minY <= iy <= b.maxY + 1 && b.minX <= ix <= b.maxX + 1
    requires iy == b.maxY + 1 ==> ix == b.minX
    requires b.Contains(Point(u, v)) && (v < iy || (v == iy && u < ix))
    ensures PixelSample(b, data, w, eps, log, v, u) in Scanned(b, data, w, eps, log, iy, ix)
    decreases iy, ix
  {
    hide PixelSample;
    if ix > b.minX {
      if !(v == iy && u == ix - 1) {
        ScannedPixel(b, data, w, eps, log, iy, ix - 1, v, u);
      }
    } else {
      ScannedPixel(b, data, w, eps, log, iy - 1, b.maxX + 1, v, u);
    }
  }

  /** A sample is one of a pixel of the box. */
  ghost predicate OfPixel(b: Box, data: array2<real>, w: array2<real>, eps: real, log: real -> real, p: Sample)
    requires FitInput(b, data, w)
    reads data, w
  {
    exists v, u | b.Contains(Point(u, v)) :: p == PixelSample(b, data, w, eps, log, v, u)
  }

  lemma {:induction false} ScannedArePixels(b: Box, data: array2<real>, w: array2<real>, eps: real, log: real -> real,
                                            iy: int, ix: int)
    requires FitInput(b, data, w) && b.minY <= iy <= b.maxY + 1 && b.minX <= ix <= b.maxX + 1
    requires iy == b.maxY + 1 ==> ix == b.minX
    ensures forall p | p in Scanned(b, data, w, eps, log, iy, ix) :: OfPixel(b, data, w, eps, log, p)
    decreases iy, ix
  {
    hide PixelSample;
    if ix > b.minX {
      ScannedArePixels(b, data, w, eps, log, iy, ix - 1);
      assert b.Contains(Point(ix - 1, iy));
    } else if iy > b.minY {
      ScannedArePixels(b, data, w, eps, log, iy - 1, b.maxX + 1);
    }
  }

  /** Neither the weight nor the value of the pixel is zero. */
  ghost predicate Counts(b: Box, data: array2<real>, w: array2<real>, iy: int, ix: int)
    requires FitInput(b, data, w) && b.Contains(Point(ix, iy))
    reads data, w
  {
    w[iy - b.minY, ix - b.minX] * data[iy, ix] != 0.0
  }

  lemma CountingPixel(b: Box, data: array2<real>, w: array2<real>, eps: real, log: real -> real, iy: int, ix: int)
    requires FitInput(b, data, w) && b.Contains(Point(ix, iy)) && Counts(b, data, w, iy, ix)
    ensures HasSample(Samples(b, data, w, eps, log), Centred(ix, data.Length1), Centred(iy, data.Length0))
  {
    hide Centred;
    ScannedPixel(b, data, w, eps, log, b.maxY + 1, b.minX, iy, ix);
    var p := PixelSample(b, data, w, eps, log, iy, ix);
    assert p in Samples(b, data, w, eps, log) && p.d != 0.0;
  }

  lemma CentredIsInjective(i: int, j: int, n: nat)
    requires n > 0 && i != j
    ensures Centred(i, n) != Centred(j, n)
  {
    var f := 2.0 / n as real;
    assert f * (n as real) == 2.0;
    assert f != 0.0;
    if (i as real) * f == (j as real) * f {
      Cancels(f, i as real, j as real);
    }
  }

  /** All pixels where the columns cross the rows count. */
  ghost predicate GridCounts(b: Box, data: array2<real>, w: array2<real>, rows: set<int>, columns: set<int>)
    requires FitInput(b, data, w)
    reads data, w
  {
    forall v, u | v in rows && u in columns :: b.Contains(Point(u, v)) && Counts(b, data, w, v, u)
  }

  /** A box with three columns and three rows of pixels that count, where they cross, determines its fit. */
  lemma CrossingPixelsDetermine(b: Box, data: array2<real>, w: array2<real>, eps: real, log: real -> real,
                                y0: int, y1: int, y2: int, x0: int, x1: int, x2: int)
    requires FitInput(b, data, w) && y0 < y1 < y2 && x0 < x1 < x2
    requires GridCounts(b, data, w, {y0, y1, y2}, {x0, x1, x2})
    ensures Determined(Samples(b, data, w, eps, log))
  {
    hide Counts, HasSample, Determined, Centred, Samples;
    var n, m := data.Length1, data.Length0;
    forall v, u | v in {y0, y1, y2} && u in {x0, x1, x2}
      ensures HasSample(Samples(b, data, w, eps, log), Centred(u, n), Centred(v, m))
    {
      CountingPixel(b, data, w, eps, log, v, u);
    }
    CentredIsInjective(x0, x1, n);
    CentredIsInjective(x0, x2, n);
    CentredIsInjective(x1, x2, n);
    CentredIsInjective(y0, y1, m);
    CentredIsInjective(y0, y2, m);
    CentredIsInjective(y1, y2, m);
    GridDetermines(Samples(b, data, w, eps, log), Centred(x0, n), Centred(x1, n), Centred(x2, n),
                   Centred(y0, m), Centred(y1, m), Centred(y2, m));
  }

  /** A box of at most two pixels in width or height never determines its fit, whatever its values and weights. */
  lemma NarrowBoxIsSingular(b: Box, data: array2<real>, w: array2<real>, eps: real, log: real -> real)
    requires FitInput(b, data, w) && (b.maxX <= b.minX + 1 || b.maxY <= b.minY + 1)
    ensures !Determined(Samples(b, data, w, eps, log))
  {
    hide Determined, Centred;
    var s := Samples(b, data, w, eps, log);
    ScannedArePixels(b, data, w, eps, log, b.maxY + 1, b.minX);
    if b.maxX <= b.minX + 1 {
      var u, v := Centred(b.minX, data.Length1), Centred(b.maxX, data.Length1);
      forall p | p in s
        ensures p.x == u || p.x == v
      {
        var y, x :| b.Contains(Point(x, y)) && p == PixelSample(b, data, w, eps, log, y, x);
        assert x == b.minX || x == b.maxX;
      }
      TwoColumnsAreSingular(s, u, v);
    } else {
      var u, v := Centred(b.minY, data.Length0), Centred(b.maxY, data.Length0);
      forall p | p in s
        ensures p.y == u || p.y == v
      {
        var y, x :| b.Contains(Point(x, y)) && p == PixelSample(b, data, w, eps, log, y, x);
        assert y == b.minY || y == b.maxY;
      }
      TwoRowsAreSingular(s, u, v);
    }
  }

  /** If all pixels of a box count, its fit is determined exactly if it has at least three columns and three rows. */
  lemma ThreeByThreeIsExact(b: Box, data: array2<real>, w: array2<real>, eps: real, log: real -> real)
    requires FitInput(b, data, w)
    requires forall v, u | b.Contains(Point(u, v)) :: Counts(b, data, w, v, u)
    ensures Determined(Samples(b, data, w, eps, log)) <==> b.minX + 2 <= b.maxX && b.minY + 2 <= b.maxY
  {
    hide Determined, Counts, Samples;
    if b.minX + 2 <= b.maxX && b.minY + 2 <= b.maxY {
      CrossingPixelsDetermine(b, data, w, eps, log, b.minY, b.minY + 1, b.minY + 2, b.minX, b.minX + 1, b.minX + 2);
    } else {
      NarrowBoxIsSingular(b, data, w, eps, log);
    }
  }

  // ---------------------------------------------------------------- the fit of one box

  /** The weighted least-squares fit of the box: `ok` means the coefficients in `chi` have the least
      error of all, and no other coefficients have that error. It fails only if the samples leave the system nearly
      singular, and succeeds only if they keep it away from that; with no pivot threshold it succeeds exactly if they
      determine the coefficients. */
  method FitCoefficients(b: Box, data: array2<real>, w: array2<real>, eps: real, log: real -> real)
      returns (ok: bool, chi: array<real>)
    requires FitInput(b, data, w) && eps >= 0.0
    ensures fresh(chi) && chi.Length == SIZE
    ensures ok ==> Determined(Samples(b, data, w, eps, log)) && Robust(SystemOf(Samples(b, data, w, eps, log)), eps)
    ensures !ok ==> NearlySingular(SystemOf(Samples(b, data, w, eps, log)), eps)
    ensures eps == 0.0 ==> (ok <==> Determined(Samples(b, data, w, eps, log)))
    ensures ok ==> Minimises(chi[..], Samples(b, data, w, eps, log))
    ensures ok ==> forall other | IsVector(other) ::
              Error(other, Samples(b, data, w, eps, log)) <= Error(chi[..], Samples(b, data, w, eps, log)) ==>
                  other == chi[..]
  {
    hide IsSystem, IsSolution, Singular, Error, Determined, Robust, NearlySingular;
    var m, rhs := new real[SIZE, SIZE], new real[SIZE];
    chi := new real[SIZE];
    AssembleSystem(m, rhs, b, data, w, eps, log);
    ghost var s, A, B := Samples(b, data, w, eps, log), Rows(m), rhs[..];
    ok := GeSolve(m, rhs, eps, chi);
    RegularIffDetermined(A, B, s);
    IsSystemOf(A, B, s);
    if ok {
      SolutionMinimises(A, B, s, chi[..]);
      forall other | IsVector(other) && Error(other, s) <= Error(chi[..], s)
        ensures other == chi[..]
      {
        MinimiserIsUnique(A, B, s, chi[..], other);
      }
    }
  }

  /** Turns coefficients into the parameters of a Gaussian: the mean is the only stationary point of
      the quadratic, the scale its exponential there. Fails on a (nearly) singular precision matrix. */
  method ExtractParams(chi: seq<real>, p: Parameters, eps: real, exp: real -> real) returns (ok: bool)
    requires |chi| == SIZE && eps >= 0.0
    modifies p
    ensures p.valid == old(p.valid)
    ensures p.prec == PrecisionOf(chi)
    ensures ok <==> Abs(p.prec.Determinant()) > eps
    ensures ok ==> IsStationary(chi, p.meanX, p.meanY)
    ensures ok ==> forall x, y | IsStationary(chi, x, y) :: x == p.meanX && y == p.meanY
    ensures ok ==> p.scale == exp(Quadratic(chi, p.meanX, p.meanY))
    ensures !ok ==> p.meanX == old(p.meanX) && p.meanY == old(p.meanY) && p.scale == old(p.scale)
  {
    hide IsStationary, Quadratic, Precision.Determinant, Precision.Form;
    p.prec := PrecisionOf(chi);
    var d := p.prec.Determinant();
    if Abs(d) <= eps {
      return false;
    }
    var mx := Divide(p.prec.yy * chi[3] - p.prec.yx * chi[4], d);
    var my := Divide(p.prec.xx * chi[4] - p.prec.xy * chi[3], d);
    p.meanX, p.meanY := mx, my;
    var vtmv := p.prec.Form(mx, my);
    p.scale := exp(chi[5] + vtmv / 2.0);
    StationaryPoint(chi, mx, my);
    CompletedSquare(chi, mx, my, mx, my);
    return true;
  }

  lemma StationaryPoint(chi: seq<real>, mx: real, my: real)
    requires |chi| == SIZE && PrecisionOf(chi).Determinant() != 0.0
    requires mx * PrecisionOf(chi).Determinant() == PrecisionOf(chi).yy * chi[3] - PrecisionOf(chi).yx * chi[4]
    requires my * PrecisionOf(chi).Determinant() == PrecisionOf(chi).xx * chi[4] - PrecisionOf(chi).xy * chi[3]
    ensures IsStationary(chi, mx, my)
    ensures forall x, y | IsStationary(chi, x, y) :: x == mx && y == my
  {
    hide IsStationary, Precision.Determinant;
    var p := PrecisionOf(chi);
    CramersRule(p, chi[3], chi[4], mx, my);
    StationaryByPrecision(chi, mx, my);
    forall x, y | IsStationary(chi, x, y)
      ensures x == mx && y == my
    {
      StationaryByPrecision(chi, x, y);
      UniqueRoot(p, chi[3], chi[4], mx, my, x, y);
    }
  }
}
