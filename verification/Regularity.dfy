/** When a least squares fit is determined: which samples leave room for one quadratic only. */
module Regularity {
  import opened LinearSolver
  import opened LeastSquares

  /** The quadratic is zero at all samples that have a weight. */
  ghost predicate Vanishes(chi: seq<real>, s: seq<Sample>)
    requires |chi| == SIZE
  {
    forall p | p in s && p.d != 0.0 :: Quadratic(chi, p.x, p.y) == 0.0
  }

  /** No quadratic other than zero vanishes at all samples: they do not lie on a conic. */
  ghost predicate Determined(s: seq<Sample>) {
    forall chi | IsVector(chi) && Vanishes(chi, s) :: chi == Zeros()
  }

  // ---------------------------------------------------------------- regular systems

  lemma {:induction false} VanishingHasNoEnergy(s: seq<Sample>, chi: seq<real>)
    requires |chi| == SIZE && Vanishes(chi, s)
    ensures Energy(s, chi) == 0.0
  {
    hide Quadratic, Square;
    if s != [] {
      var p, t := s[|s| - 1], s[..|s| - 1];
      assert p in s && forall q | q in t :: q in s;
      VanishingHasNoEnergy(t, chi);
      SumsGrow(s, chi);
      SquareOf(p.d);
      SquareOf(Quadratic(chi, p.x, p.y));
      ZeroProduct(Square(p.d), Square(Quadratic(chi, p.x, p.y)));
    }
  }

  lemma ZeroProduct(a: real, b: real)
    ensures a == 0.0 || b == 0.0 ==> a * b == 0.0
    ensures a * b == 0.0 ==> a == 0.0 || b == 0.0
  {
    if a * b == 0.0 && a != 0.0 {
      Cancels(a, b, 0.0);
    }
  }

  lemma {:induction false} NoEnergyVanishes(s: seq<Sample>, chi: seq<real>)
    requires |chi| == SIZE && Energy(s, chi) <= 0.0
    ensures Vanishes(chi, s)
  {
    hide Quadratic, Square, Energy;
    if s != [] {
      var p, t := s[|s| - 1], s[..|s| - 1];
      SumsGrow(s, chi);
      EnergyIsNonNegative(t, chi);
      SquaresAreNonNegative(p.d, Quadratic(chi, p.x, p.y));
      NoEnergyVanishes(t, chi);
      ZeroProduct(p.d, Quadratic(chi, p.x, p.y));
      assert s == t + [p];
    }
  }

  /** What the system maps to zero has no energy. */
  lemma KernelHasNoEnergy(a: Matrix, b: seq<real>, s: seq<Sample>, z: seq<real>)
    requires IsMatrix(a) && IsVector(b) && IsSystem(a, b, s) && IsSolution(a, Zeros(), z)
    ensures Energy(s, z) <= 0.0
  {
    hide Tail, Gradient, Error, Energy, SystemRow, Rhs, Multiplicity;
    var o := Zeros();
    forall r | 0 <= r < SIZE
      ensures Gradient(s, z)[r] == Gradient(s, o)[r]
    {
      DefectIsGradient(s, z, r);
      DefectIsGradient(s, o, r);
      TailOfZeros(SystemRow(s, r), o, 0);
      assert Tail(a[r], z, Min(r, 0)) == o[r];
    }
    assert Gradient(s, z) == Gradient(s, o);
    var up, down := Difference(o, z), Difference(z, o);
    ErrorExpands(s, o, z);
    ErrorExpands(s, z, o);
    TailDiffers(Gradient(s, o), up, o, down, 0);
    TailOfZeros(Gradient(s, o), o, 0);
    EnergyIsNonNegative(s, down);
    assert up == z;
  }

  /** The normal equations are regular exactly if the samples leave room for one quadratic only. */
  lemma RegularIffDetermined(a: Matrix, b: seq<real>, s: seq<Sample>)
    requires IsMatrix(a) && IsVector(b) && IsSystem(a, b, s)
    ensures !Singular(a) <==> Determined(s)
  {
    hide Tail, Energy, SystemRow, Rhs, Vanishes;
    forall chi | IsVector(chi) && Vanishes(chi, s)
      ensures IsSolution(a, Zeros(), chi)
    {
      VanishingHasNoEnergy(s, chi);
      forall r | 0 <= r < SIZE
        ensures Tail(a[r], chi, Min(r, 0)) == Zeros()[r]
      {
        NoEnergyMeansKernel(s, chi, r);
      }
    }
    forall z | IsSolution(a, Zeros(), z)
      ensures Vanishes(z, s)
    {
      KernelHasNoEnergy(a, b, s, z);
      NoEnergyVanishes(s, z);
    }
  }

  // ---------------------------------------------------------------- three by three samples

  /** There is a sample with a weight at this place. */
  ghost predicate HasSample(s: seq<Sample>, x: real, y: real) {
    exists p :: p in s && p.x == x && p.y == y && p.d != 0.0
  }

  predicate Distinct(u: real, v: real, w: real) {
    u != v && u != w && v != w
  }

  function Parabola(a: real, b: real, c: real, x: real): real {
    a * (x * x) + b * x + c
  }

  lemma Slope(a: real, b: real, c: real, x: real, y: real)
    requires x != y && Parabola(a, b, c, x) == 0.0 && Parabola(a, b, c, y) == 0.0
    ensures a * (x + y) + b == 0.0
  {
    assert (x - y) * (a * (x + y) + b) == Parabola(a, b, c, x) - Parabola(a, b, c, y);
    ZeroProduct(x - y, a * (x + y) + b);
  }

  /** A parabola with three roots is zero. */
  lemma ThreeRoots(a: real, b: real, c: real, x0: real, x1: real, x2: real)
    requires Distinct(x0, x1, x2)
    requires Parabola(a, b, c, x0) == Parabola(a, b, c, x1) == Parabola(a, b, c, x2) == 0.0
    ensures a == 0.0 && b == 0.0 && c == 0.0
  {
    hide Parabola;
    Slope(a, b, c, x0, x1);
    Slope(a, b, c, x0, x2);
    NoSlope(a, b, x0, x1, x2);
    Flat(a, b, c, x0);
  }

  lemma NoSlope(a: real, b: real, x0: real, x1: real, x2: real)
    requires x1 != x2 && a * (x0 + x1) + b == 0.0 && a * (x0 + x2) + b == 0.0
    ensures a == 0.0 && b == 0.0
  {
    assert a * (x1 - x2) == (a * (x0 + x1) + b) - (a * (x0 + x2) + b);
    ZeroProduct(a, x1 - x2);
  }

  lemma Flat(a: real, b: real, c: real, x: real)
    requires a == 0.0 && b == 0.0
    ensures Parabola(a, b, c, x) == c
  {
  }

  /** Along a row, the quadratic is a parabola. */
  lemma AlongRow(chi: seq<real>, x: real, y: real)
    requires |chi| == SIZE
    ensures Quadratic(chi, x, y) ==
            Parabola(chi[0], 2.0 * chi[1] * y + chi[3], Parabola(chi[2], chi[4], chi[5], y), x)
  {
  }

  /** A quadratic that is zero at three places in a row is zero all along it. */
  lemma RowVanishes(chi: seq<real>, s: seq<Sample>, y: real, x0: real, x1: real, x2: real)
    requires |chi| == SIZE && Vanishes(chi, s) && Distinct(x0, x1, x2)
    requires HasSample(s, x0, y) && HasSample(s, x1, y) && HasSample(s, x2, y)
    ensures chi[0] == 0.0 && 2.0 * chi[1] * y + chi[3] == 0.0 && Parabola(chi[2], chi[4], chi[5], y) == 0.0
  {
    hide Quadratic, Parabola;
    AlongRow(chi, x0, y);
    AlongRow(chi, x1, y);
    AlongRow(chi, x2, y);
    ThreeRoots(chi[0], 2.0 * chi[1] * y + chi[3], Parabola(chi[2], chi[4], chi[5], y), x0, x1, x2);
  }

  lemma NoMixedTerm(b: real, e: real, y0: real, y1: real)
    requires y0 != y1 && 2.0 * b * y0 + e == 0.0 && 2.0 * b * y1 + e == 0.0
    ensures b == 0.0 && e == 0.0
  {
    assert 2.0 * b * (y0 - y1) == (2.0 * b * y0 + e) - (2.0 * b * y1 + e);
    ZeroProduct(2.0 * b, y0 - y1);
  }

  /** Samples with a weight where three columns cross three rows determine the fit. */
  lemma GridDetermines(s: seq<Sample>, x0: real, x1: real, x2: real, y0: real, y1: real, y2: real)
    requires Distinct(x0, x1, x2) && Distinct(y0, y1, y2)
    requires HasSample(s, x0, y0) && HasSample(s, x1, y0) && HasSample(s, x2, y0)
    requires HasSample(s, x0, y1) && HasSample(s, x1, y1) && HasSample(s, x2, y1)
    requires HasSample(s, x0, y2) && HasSample(s, x1, y2) && HasSample(s, x2, y2)
    ensures Determined(s)
  {
    hide Vanishes, HasSample, Parabola;
    forall chi | IsVector(chi) && Vanishes(chi, s)
      ensures chi == Zeros()
    {
      RowVanishes(chi, s, y0, x0, x1, x2);
      RowVanishes(chi, s, y1, x0, x1, x2);
      RowVanishes(chi, s, y2, x0, x1, x2);
      NoMixedTerm(chi[1], chi[3], y0, y1);
      ThreeRoots(chi[2], chi[4], chi[5], y0, y1, y2);
    }
  }

  // ---------------------------------------------------------------- two columns or two rows

  lemma TwoRoots(u: real, v: real, w: real)
    requires w == u || w == v
    ensures w * w - (u + v) * w + u * v == 0.0
  {
  }

  /** Samples in two columns never determine the fit. */
  lemma TwoColumnsAreSingular(s: seq<Sample>, u: real, v: real)
    requires forall p | p in s && p.d != 0.0 :: p.x == u || p.x == v
    ensures !Determined(s)
  {
    hide Quadratic;
    var chi := [1.0, 0.0, 0.0, -(u + v), 0.0, u * v];
    forall p | p in s && p.d != 0.0
      ensures Quadratic(chi, p.x, p.y) == 0.0
    {
      ColumnQuadratic(u, v, p.x, p.y);
      TwoRoots(u, v, p.x);
    }
    assert IsVector(chi) && Vanishes(chi, s) && chi[0] != Zeros()[0];
  }

  lemma ColumnQuadratic(u: real, v: real, x: real, y: real)
    ensures Quadratic([1.0, 0.0, 0.0, -(u + v), 0.0, u * v], x, y) == x * x - (u + v) * x + u * v
  {
  }

  /** Samples in two rows never determine the fit. */
  lemma TwoRowsAreSingular(s: seq<Sample>, u: real, v: real)
    requires forall p | p in s && p.d != 0.0 :: p.y == u || p.y == v
    ensures !Determined(s)
  {
    hide Quadratic;
    var chi := [0.0, 0.0, 1.0, 0.0, -(u + v), u * v];
    forall p | p in s && p.d != 0.0
      ensures Quadratic(chi, p.x, p.y) == 0.0
    {
      RowQuadratic(u, v, p.x, p.y);
      TwoRoots(u, v, p.y);
    }
    assert IsVector(chi) && Vanishes(chi, s) && chi[2] != Zeros()[2];
  }

  lemma RowQuadratic(u: real, v: real, x: real, y: real)
    ensures Quadratic([0.0, 0.0, 1.0, 0.0, -(u + v), u * v], x, y) == y * y - (u + v) * y + u * v
  {
  }
}
