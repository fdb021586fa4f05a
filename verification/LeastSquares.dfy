/** Weighted least squares for the quadratic
      q(x, y) = c0 x^2 + 2 c1 x y + c2 y^2 + c3 x + c4 y + c5
    over a list of samples, and its normal equations. */
module LeastSquares {
  import opened LinearSolver

  /** A pixel: its centred coordinates, its weighted value and the logarithm it is fitted to. */
  datatype Sample = Sample(x: real, y: real, d: real, l: real)

  /** The monomials the system is assembled from. */
  function Basis(p: Sample): (v: seq<real>)
    ensures |v| == SIZE
  {
    [p.x * p.x, p.x * p.y, p.y * p.y, p.x, p.y, 1.0]
  }

  /** How often a coefficient counts: the mixed term appears twice in the quadratic. */
  function Multiplicity(k: nat): real {
    if k == 1 then 2.0 else 1.0
  }

  /** What the coefficients are multiplied with in the quadratic. */
  ghost function Features(p: Sample): (v: seq<real>)
    ensures |v| == SIZE
  {
    seq(SIZE, k requires 0 <= k < SIZE => Basis(p)[k] * Multiplicity(k))
  }

  /** The quadratic with coefficients `chi` at (x, y). */
  function Quadratic(chi: seq<real>, x: real, y: real): real
    requires |chi| == SIZE
  {
    chi[0] * x * x + 2.0 * chi[1] * x * y + chi[2] * y * y + chi[3] * x + chi[4] * y + chi[5]
  }

  ghost function Square(v: real): real {
    v * v
  }

  /** The weighted squared error of the quadratic over the samples. */
  ghost function Error(chi: seq<real>, s: seq<Sample>): real
    requires |chi| == SIZE
  {
    if s == [] then 0.0
    else
      var p := s[|s| - 1];
      Error(chi, s[..|s| - 1]) + Square(p.d) * Square(Quadratic(chi, p.x, p.y) - p.l)
  }

  // ---------------------------------------------------------------- the system

  /** Sum of d^2 times two monomials. */
  ghost function Moment(s: seq<Sample>, i: nat, j: nat): real
    requires i < SIZE && j < SIZE
  {
    if s == [] then 0.0
    else
      var p := s[|s| - 1];
      Moment(s[..|s| - 1], i, j) + p.d * p.d * Basis(p)[i] * Basis(p)[j]
  }

  ghost function Rhs(s: seq<Sample>, i: nat): real
    requires i < SIZE
  {
    if s == [] then 0.0
    else
      var p := s[|s| - 1];
      Rhs(s[..|s| - 1], i) + p.l * p.d * p.d * Basis(p)[i]
  }

  /** Row `r` of the assembled system. */
  ghost function SystemRow(s: seq<Sample>, r: nat): (row: seq<real>)
    requires r < SIZE
    ensures |row| == SIZE
  {
    seq(SIZE, k requires 0 <= k < SIZE => Moment(s, k, r) * Multiplicity(k))
  }

  /** The matrix of the assembled system. */
  ghost function SystemOf(s: seq<Sample>): (a: Matrix)
    ensures IsMatrix(a)
  {
    seq(SIZE, r requires 0 <= r < SIZE => SystemRow(s, r))
  }

  /** The matrix and right-hand side are those of the samples. */
  ghost predicate IsSystem(a: Matrix, b: seq<real>, s: seq<Sample>)
    requires IsMatrix(a) && IsVector(b)
  {
    forall r | 0 <= r < SIZE :: a[r] == SystemRow(s, r) && b[r] == Rhs(s, r)
  }

  lemma IsSystemOf(a: Matrix, b: seq<real>, s: seq<Sample>)
    requires IsMatrix(a) && IsVector(b) && IsSystem(a, b, s)
    ensures a == SystemOf(s)
  {
    hide SystemRow;
  }

  // ---------------------------------------------------------------- sums over the samples

  /** v + w * f. */
  ghost function Axpy(v: seq<real>, w: real, f: seq<real>): (u: seq<real>)
    requires IsVector(v) && IsVector(f)
    ensures IsVector(u)
    ensures forall k | 0 <= k < SIZE :: u[k] == v[k] + w * f[k]
  {
    seq(SIZE, k requires 0 <= k < SIZE => v[k] + w * f[k])
  }

  lemma TailAdds(u: seq<real>, v: seq<real>, w: real, f: seq<real>, x: seq<real>)
    requires IsVector(u) && IsVector(v) && IsVector(f) && IsVector(x)
    requires forall k | 0 <= k < SIZE :: u[k] == v[k] + w * f[k]
    ensures Tail(u, x, 0) == Tail(v, x, 0) + w * Tail(f, x, 0)
  {
    hide Tail;
    forall k | 0 <= k < SIZE
      ensures v[k] == u[k] - w * f[k]
    {
    }
    TailCombines(u, f, v, w, x, 0);
  }

  /** The quadratic is the product of features and coefficients. */
  lemma QuadraticIsTail(chi: seq<real>, p: Sample)
    requires |chi| == SIZE
    ensures Tail(Features(p), chi, 0) == Quadratic(chi, p.x, p.y)
  {
    hide Tail, Features, Quadratic;
    FeatureValues(p);
    UnrolledTail(Features(p), chi, 1);
    TailUnfolds(Features(p), chi, 0);
    MixedTerm(chi, p.x, p.y);
  }

  lemma FeatureValues(p: Sample)
    ensures Features(p) == [p.x * p.x, p.x * p.y * 2.0, p.y * p.y, p.x, p.y, 1.0]
  {
    var f := Features(p);
    assert f[0] == p.x * p.x && f[1] == p.x * p.y * 2.0 && f[2] == p.y * p.y;
    assert f[3] == p.x && f[4] == p.y && f[5] == 1.0;
  }

  lemma MixedTerm(chi: seq<real>, x: real, y: real)
    requires |chi| == SIZE
    ensures Quadratic(chi, x, y) ==
            1.0 * chi[5] + y * chi[4] + x * chi[3] + (y * y) * chi[2] + (x * y * 2.0) * chi[1] + (x * x) * chi[0]
  {
  }

  ghost function Residual(chi: seq<real>, p: Sample): real
    requires |chi| == SIZE
  {
    Quadratic(chi, p.x, p.y) - p.l
  }

  /** Half the gradient of the error with respect to the coefficients. */
  ghost function Gradient(s: seq<Sample>, chi: seq<real>): (g: seq<real>)
    requires |chi| == SIZE
    ensures IsVector(g)
  {
    if s == [] then Zeros()
    else
      var p := s[|s| - 1];
      Axpy(Gradient(s[..|s| - 1], chi), Square(p.d) * Residual(chi, p), Features(p))
  }

  lemma MomentTerm(d: real, bk: real, br: real, mk: real, moment: real)
    ensures (moment + d * d * bk * br) * mk == moment * mk + d * d * br * (bk * mk)
  {
    assert d * d * bk * br * mk == d * d * br * (bk * mk);
  }

  /** One more sample adds a multiple of its features to each row of the system. */
  lemma SystemRowGrows(s: seq<Sample>, r: nat, k: nat)
    requires s != [] && r < SIZE && k < SIZE
    ensures var p := s[|s| - 1];
            SystemRow(s, r)[k] == SystemRow(s[..|s| - 1], r)[k] + p.d * p.d * Basis(p)[r] * Features(p)[k]
  {
    hide Multiplicity, Basis;
    var p := s[|s| - 1];
    MomentTerm(p.d, Basis(p)[k], Basis(p)[r], Multiplicity(k), Moment(s[..|s| - 1], k, r));
  }

  lemma NormalTerm(m: real, d: real, l: real, b: real, q: real, t: real, rhs: real)
    ensures m * ((t + d * d * b * q) - (rhs + l * d * d * b)) == m * (t - rhs) + (d * d) * (q - l) * (b * m)
  {
    assert m * ((t + d * d * b * q) - (rhs + l * d * d * b)) == m * (t - rhs) + m * (d * d * b * q - l * d * d * b);
    assert d * d * b * q - l * d * d * b == (d * d) * (q - l) * b;
    assert m * ((d * d) * (q - l) * b) == (d * d) * (q - l) * (b * m);
  }

  lemma GradientGrows(s: seq<Sample>, chi: seq<real>, r: nat)
    requires s != [] && |chi| == SIZE && r < SIZE
    ensures var p := s[|s| - 1];
            Gradient(s, chi)[r] ==
            Gradient(s[..|s| - 1], chi)[r] + Square(p.d) * Residual(chi, p) * Features(p)[r]
  {
    hide Square, Residual, Features, Axpy;
  }

  lemma RhsGrows(s: seq<Sample>, r: nat)
    requires s != [] && r < SIZE
    ensures var p := s[|s| - 1]; Rhs(s, r) == Rhs(s[..|s| - 1], r) + p.l * p.d * p.d * Basis(p)[r]
  {
    hide Basis;
  }

  lemma EmptySystem(chi: seq<real>, r: nat)
    requires |chi| == SIZE && r < SIZE
    ensures Tail(SystemRow([], r), chi, 0) == 0.0 && Rhs([], r) == 0.0 && Gradient([], chi)[r] == 0.0
  {
    assert forall k | 0 <= k < SIZE :: SystemRow([], r)[k] == 0.0;
    assert SystemRow([], r) == Zeros();
    TailOfZeroRow(chi, 0);
  }

  /** The defect of equation `r` of the system is a component of the gradient. */
  lemma {:induction false} DefectIsGradient(s: seq<Sample>, chi: seq<real>, r: nat)
    requires |chi| == SIZE && r < SIZE
    ensures Multiplicity(r) * (Tail(SystemRow(s, r), chi, 0) - Rhs(s, r)) == Gradient(s, chi)[r]
  {
    hide Tail, SystemRow, Rhs, Gradient, Features, Basis, Multiplicity, Quadratic;
    if s == [] {
      EmptySystem(chi, r);
    } else {
      var p, t := s[|s| - 1], s[..|s| - 1];
      DefectIsGradient(t, chi, r);
      SystemTailGrows(s, chi, r);
      RhsGrows(s, r);
      GradientGrows(s, chi, r);
      FeatureAt(p, r);
      NormalTerm(Multiplicity(r), p.d, p.l, Basis(p)[r], Quadratic(chi, p.x, p.y), Tail(SystemRow(t, r), chi, 0),
          Rhs(t, r));
    }
  }

  lemma FeatureAt(p: Sample, k: nat)
    requires k < SIZE
    ensures Features(p)[k] == Basis(p)[k] * Multiplicity(k)
  {
    hide Basis, Multiplicity;
  }

  lemma SystemTailGrows(s: seq<Sample>, chi: seq<real>, r: nat)
    requires s != [] && |chi| == SIZE && r < SIZE
    ensures var p := s[|s| - 1];
            Tail(SystemRow(s, r), chi, 0) ==
            Tail(SystemRow(s[..|s| - 1], r), chi, 0) + p.d * p.d * Basis(p)[r] * Quadratic(chi, p.x, p.y)
  {
    hide Tail, SystemRow, Features, Basis, Quadratic;
    var p, t := s[|s| - 1], s[..|s| - 1];
    var w := p.d * p.d * Basis(p)[r];
    forall k | 0 <= k < SIZE
      ensures SystemRow(s, r)[k] == SystemRow(t, r)[k] + w * Features(p)[k]
    {
      SystemRowGrows(s, r, k);
    }
    TailAdds(SystemRow(s, r), SystemRow(t, r), w, Features(p), chi);
    QuadraticIsTail(chi, p);
  }

  lemma {:induction false} TailOfZeroRow(x: seq<real>, lo: nat)
    requires IsVector(x) && lo <= SIZE
    ensures Tail(Zeros(), x, lo) == 0.0
    decreases SIZE - lo
  {
    if lo < SIZE {
      TailOfZeroRow(x, lo + 1);
    }
  }

  // ---------------------------------------------------------------- minimality

  /** The weighted sum of the squares of the quadratic itself. */
  ghost function Energy(s: seq<Sample>, chi: seq<real>): real
    requires |chi| == SIZE
  {
    if s == [] then 0.0
    else
      var p := s[|s| - 1];
      Energy(s[..|s| - 1], chi) + Square(p.d) * Square(Quadratic(chi, p.x, p.y))
  }

  /** No other coefficients have a smaller error. */
  ghost predicate Minimises(chi: seq<real>, s: seq<Sample>)
    requires |chi| == SIZE
  {
    forall other | IsVector(other) :: Error(chi, s) <= Error(other, s)
  }

  ghost function Difference(x: seq<real>, y: seq<real>): (d: seq<real>)
    requires IsVector(x) && IsVector(y)
    ensures IsVector(d) && forall k | 0 <= k < SIZE :: d[k] == y[k] - x[k]
  {
    seq(SIZE, k requires 0 <= k < SIZE => y[k] - x[k])
  }

  lemma QuadraticDiffers(x: seq<real>, y: seq<real>, p: Sample)
    requires IsVector(x) && IsVector(y)
    ensures Quadratic(Difference(x, y), p.x, p.y) == Quadratic(y, p.x, p.y) - Quadratic(x, p.x, p.y)
  {
    hide Tail, Features, Quadratic;
    QuadraticIsTail(x, p);
    QuadraticIsTail(y, p);
    QuadraticIsTail(Difference(x, y), p);
    TailDiffers(Features(p), x, y, Difference(x, y), 0);
  }

  lemma ExpandedSquare(d2: real, qx: real, qy: real, qd: real, l: real)
    requires qd == qy - qx
    ensures d2 * Square(qy - l) == d2 * Square(qx - l) + 2.0 * (d2 * (qx - l) * qd) + d2 * Square(qd)
  {
    assert Square(qy - l) == Square(qx - l) + 2.0 * ((qx - l) * qd) + Square(qd);
    assert d2 * (2.0 * ((qx - l) * qd)) == 2.0 * (d2 * (qx - l) * qd);
  }

  lemma SumsGrow(s: seq<Sample>, chi: seq<real>)
    requires s != [] && |chi| == SIZE
    ensures var p, t := s[|s| - 1], s[..|s| - 1];
            && Error(chi, s) == Error(chi, t) + Square(p.d) * Square(Quadratic(chi, p.x, p.y) - p.l)
            && Energy(s, chi) == Energy(t, chi) + Square(p.d) * Square(Quadratic(chi, p.x, p.y))
  {
    hide Square, Quadratic;
  }

  lemma GradientTailGrows(s: seq<Sample>, chi: seq<real>, d: seq<real>)
    requires s != [] && |chi| == SIZE && |d| == SIZE
    ensures var p, t := s[|s| - 1], s[..|s| - 1];
            Tail(Gradient(s, chi), d, 0) ==
            Tail(Gradient(t, chi), d, 0) + Square(p.d) * (Quadratic(chi, p.x, p.y) - p.l) * Quadratic(d, p.x, p.y)
  {
    hide Tail, Gradient, Features, Square, Quadratic;
    var p, t := s[|s| - 1], s[..|s| - 1];
    forall k | 0 <= k < SIZE
      ensures Gradient(s, chi)[k] == Gradient(t, chi)[k] + Square(p.d) * Residual(chi, p) * Features(p)[k]
    {
      GradientGrows(s, chi, k);
    }
    TailAdds(Gradient(s, chi), Gradient(t, chi), Square(p.d) * Residual(chi, p), Features(p), d);
    QuadraticIsTail(d, p);
  }

  /** The error around `x`: its value, a linear term given by the gradient, and a sum of squares. */
  lemma {:induction false} ErrorExpands(s: seq<Sample>, x: seq<real>, y: seq<real>)
    requires IsVector(x) && IsVector(y)
    ensures Error(y, s) == Error(x, s) + 2.0 * Tail(Gradient(s, x), Difference(x, y), 0) + Energy(s, Difference(x, y))
  {
    hide Tail, Square, Quadratic, Difference;
    var d := Difference(x, y);
    if s == [] {
      TailOfZeroRow(d, 0);
    } else {
      hide Gradient, Error, Energy;
      var p, t := s[|s| - 1], s[..|s| - 1];
      ErrorExpands(t, x, y);
      SumsGrow(s, x);
      SumsGrow(s, y);
      SumsGrow(s, d);
      GradientTailGrows(s, x, d);
      QuadraticDiffers(x, y, p);
      ExpandedSquare(Square(p.d), Quadratic(x, p.x, p.y), Quadratic(y, p.x, p.y), Quadratic(d, p.x, p.y), p.l);
    }
  }

  lemma SameSignProduct(a: real, b: real, w: real)
    requires (a < 0.0 && b < 0.0) || (a > 0.0 && b > 0.0)
    requires w == a * b
    ensures w > 0.0
  {
  }

  lemma SquareOf(v: real)
    ensures v == 0.0 ==> Square(v) == 0.0
    ensures v != 0.0 ==> Square(v) > 0.0
  {
    if v != 0.0 {
      SameSignProduct(v, v, Square(v));
    }
  }

  lemma SquaresAreNonNegative(a: real, b: real)
    ensures Square(a) >= 0.0 && Square(a) * Square(b) >= 0.0
    ensures Square(a) * Square(b) == 0.0 ==> a * b == 0.0
  {
    assert Square(a) * Square(b) == Square(a * b);
    SquareOf(a);
    SquareOf(a * b);
  }

  lemma {:induction false} EnergyIsNonNegative(s: seq<Sample>, chi: seq<real>)
    requires |chi| == SIZE
    ensures Energy(s, chi) >= 0.0
  {
    if s == [] {
      assert Energy(s, chi) == 0.0;
    } else {
      hide Energy, Square, Quadratic;
      var p := s[|s| - 1];
      EnergyIsNonNegative(s[..|s| - 1], chi);
      SumsGrow(s, chi);
      SquaresAreNonNegative(p.d, Quadratic(chi, p.x, p.y));
    }
  }

  lemma VanishingTerm(d: real, q: real, b: real)
    requires d * q == 0.0
    ensures d * d * b * q == 0.0
  {
    assert d * d * b * q == (d * q) * (d * b);
  }

  /** A quadratic that vanishes on all weighted samples is in the kernel of the system. */
  lemma {:induction false} NoEnergyMeansKernel(s: seq<Sample>, chi: seq<real>, r: nat)
    requires |chi| == SIZE && r < SIZE
    requires Energy(s, chi) <= 0.0
    ensures Tail(SystemRow(s, r), chi, 0) == 0.0
  {
    hide Tail, SystemRow, Square, Quadratic, Basis;
    if s == [] {
      EmptySystem(chi, r);
    } else {
      hide Energy;
      var p, t := s[|s| - 1], s[..|s| - 1];
      SumsGrow(s, chi);
      EnergyIsNonNegative(t, chi);
      SquaresAreNonNegative(p.d, Quadratic(chi, p.x, p.y));
      NoEnergyMeansKernel(t, chi, r);
      VanishingTerm(p.d, Quadratic(chi, p.x, p.y), Basis(p)[r]);
      SystemTailGrows(s, chi, r);
    }
  }

  lemma NonZeroFactor(m: real, v: real, g: real)
    requires m * v == g && v == 0.0
    ensures g == 0.0
  {
  }

  /** A solution of the normal equations makes the gradient vanish. */
  lemma GradientVanishes(a: Matrix, b: seq<real>, s: seq<Sample>, chi: seq<real>)
    requires IsMatrix(a) && IsVector(b) && IsSystem(a, b, s) && IsSolution(a, b, chi)
    ensures Gradient(s, chi) == Zeros()
  {
    hide Tail, SystemRow, Rhs, Gradient, Multiplicity;
    forall r | 0 <= r < SIZE
      ensures Gradient(s, chi)[r] == 0.0
    {
      assert Tail(a[r], chi, Min(r, 0)) == b[r];
      DefectIsGradient(s, chi, r);
      NonZeroFactor(Multiplicity(r), Tail(SystemRow(s, r), chi, 0) - Rhs(s, r), Gradient(s, chi)[r]);
    }
  }

  /** What solves the assembled system has the least weighted squared error of all coefficients. */
  lemma SolutionMinimises(a: Matrix, b: seq<real>, s: seq<Sample>, chi: seq<real>)
    requires IsMatrix(a) && IsVector(b) && IsSystem(a, b, s) && IsSolution(a, b, chi)
    ensures Minimises(chi, s)
  {
    hide Tail, Gradient, Error, Energy;
    GradientVanishes(a, b, s, chi);
    forall other | IsVector(other)
      ensures Error(chi, s) <= Error(other, s)
    {
      ErrorExpands(s, chi, other);
      TailOfZeroRow(Difference(chi, other), 0);
      EnergyIsNonNegative(s, Difference(chi, other));
    }
  }

  /** If the system is regular, only its solution has that least error. */
  lemma MinimiserIsUnique(a: Matrix, b: seq<real>, s: seq<Sample>, chi: seq<real>, other: seq<real>)
    requires IsMatrix(a) && IsVector(b) && IsSystem(a, b, s) && IsSolution(a, b, chi) && !Singular(a)
    requires IsVector(other) && Error(other, s) <= Error(chi, s)
    ensures other == chi
  {
    hide Tail, Gradient, Error, Energy, SystemRow;
    var d := Difference(chi, other);
    GradientVanishes(a, b, s, chi);
    ErrorExpands(s, chi, other);
    TailOfZeroRow(d, 0);
    forall r | 0 <= r < SIZE
      ensures Tail(a[r], d, Min(r, 0)) == Zeros()[r]
    {
      NoEnergyMeansKernel(s, d, r);
    }
    assert IsSolution(a, Zeros(), d);
    assert forall k | 0 <= k < SIZE :: d[k] == 0.0;
  }
}
