/** The gaussian kernel used to blur heatmaps. */
module Kernels {
  import opened Convolution

  function Exponent(sigma: real, rows: nat, cols: nat, y: nat, x: nat): real
    requires sigma != 0.0
  {
    var vy := y as real - (rows - 1) as real / 2.0;
    var vx := x as real - (cols - 1) as real / 2.0;
    var ny, nx := vy / sigma, vx / sigma;
    -0.5 * (ny * ny + nx * nx)
  }

  /** The unnormalised weight at (y, x); `exp` is the exponential function. */
  function Weight(exp: real -> real, sigma: real, rows: nat, cols: nat, y: nat, x: nat): real
    requires sigma != 0.0
  {
    exp(Exponent(sigma, rows, cols, y, x))
  }

  /** `e` is minus the squared distance from the middle of the kernel over twice the squared width; lengths are counted
      in halves here. */
  ghost predicate IsBellExponent(e: real, sigma: real, rows: nat, cols: nat, y: nat, x: nat) {
    var dy, dx := 2 * y + 1 - rows, 2 * x + 1 - cols;
    8.0 * (sigma * sigma) * e == -((dy * dy + dx * dx) as real)
  }

  /** The weight is the bell curve around the middle of the kernel. */
  lemma WeightIsBell(exp: real -> real, sigma: real, rows: nat, cols: nat, y: nat, x: nat)
    requires sigma != 0.0
    ensures exists e :: Weight(exp, sigma, rows, cols, y, x) == exp(e) && IsBellExponent(e, sigma, rows, cols, y, x)
  {
    hide Exponent, IsBellExponent;
    ExponentIsBell(sigma, rows, cols, y, x);
  }

  lemma ExponentIsBell(sigma: real, rows: nat, cols: nat, y: nat, x: nat)
    requires sigma != 0.0
    ensures IsBellExponent(Exponent(sigma, rows, cols, y, x), sigma, rows, cols, y, x)
  {
    var vy, vx := y as real - (rows - 1) as real / 2.0, x as real - (cols - 1) as real / 2.0;
    var dy, dx := 2 * y + 1 - rows, 2 * x + 1 - cols;
    var ny, nx := vy / sigma, vx / sigma;
    HalfSquare(sigma, ny, vy, dy);
    HalfSquare(sigma, nx, vx, dx);
    var e := -0.5 * (ny * ny + nx * nx);
    assert 8.0 * (sigma * sigma) * e == -(4.0 * (sigma * sigma) * (ny * ny)) - (4.0 * (sigma * sigma) * (nx * nx));
    assert (dy * dy + dx * dx) as real == (dy * dy) as real + (dx * dx) as real;
  }

  lemma HalfSquare(sigma: real, n: real, v: real, d: int)
    requires n * sigma == v && 2.0 * v == d as real
    ensures 4.0 * (sigma * sigma) * (n * n) == (d * d) as real
  {
    assert (sigma * sigma) * (n * n) == v * v;
    assert (d as real) * (d as real) == (d * d) as real;
  }

  ghost predicate Positive(exp: real -> real) {
    forall v :: exp(v) > 0.0
  }

  ghost function WeightRow(exp: real -> real, sigma: real, rows: nat, cols: nat, y: nat, n: nat): (r: real)
    requires sigma != 0.0 && Positive(exp)
    ensures r >= 0.0 && (n > 0 ==> r > 0.0)
  {
    if n == 0 then 0.0 else WeightRow(exp, sigma, rows, cols, y, n - 1) + Weight(exp, sigma, rows, cols, y, n - 1)
  }

  ghost function WeightSum(exp: real -> real, sigma: real, rows: nat, cols: nat, m: nat): (r: real)
    requires sigma != 0.0 && Positive(exp)
    ensures r >= 0.0 && (m > 0 && cols > 0 ==> r > 0.0)
  {
    if m == 0 then 0.0 else WeightSum(exp, sigma, rows, cols, m - 1) + WeightRow(exp, sigma, rows, cols, m - 1, cols)
  }

  /** Every element is the weight at its place, divided by `sum`. */
  ghost predicate Scaled(exp: real -> real, sigma: real, kernel: array2<real>, sum: real)
    requires sigma != 0.0
    reads kernel
  {
    forall y, x | 0 <= y < kernel.Length0 && 0 <= x < kernel.Length1 ::
      Times(kernel[y, x], sum) == Weight(exp, sigma, kernel.Length0, kernel.Length1, y, x)
  }

  lemma Adds(a: real, b: real, c: real)
    ensures Times(a + b, c) == Times(a, c) + Times(b, c)
    ensures Times(0.0, c) == 0.0
  {
  }

  lemma {:induction false} ScaledRow(exp: real -> real, sigma: real, kernel: array2<real>, sum: real, y: nat, n: nat)
    requires sigma != 0.0 && Positive(exp) && Scaled(exp, sigma, kernel, sum) && y < kernel.Length0
              && n <= kernel.Length1
    ensures Times(KernelRow(kernel, y, n), sum) == WeightRow(exp, sigma, kernel.Length0, kernel.Length1, y, n)
  {
    hide Times, Weight;
    if n == 0 {
      Adds(0.0, 0.0, sum);
    } else {
      ScaledRow(exp, sigma, kernel, sum, y, n - 1);
      Adds(KernelRow(kernel, y, n - 1), kernel[y, n - 1], sum);
    }
  }

  /** Scaling every element scales the sum of the kernel. */
  lemma {:induction false} ScaledSum(exp: real -> real, sigma: real, kernel: array2<real>, sum: real, m: nat)
    requires sigma != 0.0 && Positive(exp) && Scaled(exp, sigma, kernel, sum) && m <= kernel.Length0
    ensures Times(KernelSum(kernel, m), sum) == WeightSum(exp, sigma, kernel.Length0, kernel.Length1, m)
  {
    hide Times, Weight, WeightRow, KernelRow;
    if m == 0 {
      Adds(0.0, 0.0, sum);
    } else {
      ScaledSum(exp, sigma, kernel, sum, m - 1);
      ScaledRow(exp, sigma, kernel, sum, m - 1, kernel.Length1);
      Adds(KernelSum(kernel, m - 1), KernelRow(kernel, m - 1, kernel.Length1), sum);
    }
  }

  lemma WholeShare(a: real, s: real)
    requires s > 0.0 && Times(a, s) == s
    ensures a == 1.0
  {
    assert (a - 1.0) * s == 0.0;
  }

  lemma SignIsKept(a: real, s: real)
    requires s > 0.0 && a <= 0.0
    ensures Times(a, s) <= 0.0
  {
  }

  lemma PositiveShare(a: real, s: real)
    requires s > 0.0 && Times(a, s) > 0.0
    ensures a > 0.0
  {
    if a <= 0.0 {
      SignIsKept(a, s);
    }
  }

  method Quotient(v: real, s: real) returns (q: real)
    requires s > 0.0
    ensures Times(q, s) == v
  {
    q := v / s;
  }

  /** Fills the kernel with unnormalised weights and adds them up. */
  method Fill(exp: real -> real, sigma: real, kernel: array2<real>) returns (sum: real)
    requires sigma != 0.0 && Positive(exp)
    modifies kernel
    ensures forall y, x | 0 <= y < kernel.Length0 && 0 <= x < kernel.Length1 ::
              kernel[y, x] == Weight(exp, sigma, kernel.Length0, kernel.Length1, y, x)
    ensures sum == WeightSum(exp, sigma, kernel.Length0, kernel.Length1, kernel.Length0)
  {
    hide Weight;
    var rows, cols := kernel.Length0, kernel.Length1;
    sum := 0.0;
    for y := 0 to rows
      invariant sum == WeightSum(exp, sigma, rows, cols, y)
      invariant forall v, u | 0 <= v < y && 0 <= u < cols :: kernel[v, u] == Weight(exp, sigma, rows, cols, v, u)
    {
      for x := 0 to cols
        invariant sum == WeightSum(exp, sigma, rows, cols, y) + WeightRow(exp, sigma, rows, cols, y, x)
        invariant forall v, u | 0 <= v <= y && 0 <= u < cols && (v < y || u < x) ::
                    kernel[v, u] == Weight(exp, sigma, rows, cols, v, u)
      {
        var val := Weight(exp, sigma, rows, cols, y, x);
        kernel[y, x] := val;
        sum := sum + val;
      }
    }
  }

  /** Divides every element by `sum`. */
  method Normalise(kernel: array2<real>, sum: real)
    requires sum > 0.0
    modifies kernel
    ensures forall y, x | 0 <= y < kernel.Length0 && 0 <= x < kernel.Length1 ::
              Times(kernel[y, x], sum) == old(kernel[y, x])
  {
    hide Times;
    for y := 0 to kernel.Length0
      invariant forall v, u | 0 <= v < y && 0 <= u < kernel.Length1 :: Times(kernel[v, u], sum) == old(kernel[v, u])
      invariant forall v, u | y <= v < kernel.Length0 && 0 <= u < kernel.Length1 :: kernel[v, u] == old(kernel[v, u])
    {
      for x := 0 to kernel.Length1
        invariant forall v, u | 0 <= v <= y && 0 <= u < kernel.Length1 && (v < y || u < x) ::
                    Times(kernel[v, u], sum) == old(kernel[v, u])
        invariant forall v, u | y <= v < kernel.Length0 && 0 <= u < kernel.Length1 && (v > y || u >= x) ::
                    kernel[v, u] == old(kernel[v, u])
      {
        var q := Quotient(kernel[y, x], sum);
        kernel[y, x] := q;
      }
    }
  }

  /** The gaussian kernel: proportional to the bell curve, with weights that are positive and sum to one. */
  method Gaussian(exp: real -> real, sigma: real, rows: nat, cols: nat) returns (kernel: array2<real>)
    requires sigma != 0.0 && Positive(exp) && rows % 2 == 1 && cols % 2 == 1
    ensures fresh(kernel) && kernel.Length0 == rows && kernel.Length1 == cols
    ensures Scaled(exp, sigma, kernel, WeightSum(exp, sigma, rows, cols, rows))
    ensures NonNegative(kernel) && KernelSum(kernel, rows) == 1.0
  {
    hide Times, Weight, WeightRow, WeightSum;
    kernel := new real[rows, cols];
    var sum := Fill(exp, sigma, kernel);
    Normalise(kernel, sum);
    ScaledSum(exp, sigma, kernel, sum, rows);
    WholeShare(KernelSum(kernel, rows), sum);
    forall y, x | 0 <= y < rows && 0 <= x < cols
      ensures kernel[y, x] >= 0.0
    {
      WeightIsPositive(exp, sigma, rows, cols, y, x);
      PositiveShare(kernel[y, x], sum);
    }
  }

  lemma WeightIsPositive(exp: real -> real, sigma: real, rows: nat, cols: nat, y: nat, x: nat)
    requires sigma != 0.0 && Positive(exp)
    ensures Weight(exp, sigma, rows, cols, y, x) > 0.0
  {
  }

  /** The blur of the detector: every pixel becomes the mean of its neighbours, weighted with a gaussian kernel, and so
      no pixel leaves the range of the input. */
  method Blur(exp: real -> real, sigma: real, input: array2<real>, out: array2<real>)
      returns (ghost kernel: array2<real>)
    requires sigma != 0.0 && Positive(exp)
    requires input.Length0 >= 2 && input.Length1 >= 2 && Sized(input, out) && out != input
    modifies out
    ensures fresh(kernel) && kernel.Length0 == kernel.Length1 == 3 && IsConvolution(input, kernel, out)
    ensures Scaled(exp, sigma, kernel, WeightSum(exp, sigma, 3, 3, 3))
    ensures forall lo, hi :: Within(input, lo, hi) ==> Within(out, lo, hi)
  {
    hide WeightSum, WeightRow, Weight, Convolved, Convolution.Within;
    var k := Gaussian(exp, sigma, 3, 3);
    Run3x3(input, k, out);
    forall lo, hi | Within(input, lo, hi)
      ensures Within(out, lo, hi)
    {
      ConvolutionAverages(input, k, out, lo, hi);
    }
    kernel := k;
  }
}
