/** Convolution of a heatmap with a kernel; the borders of the heatmap are extended. */
module Convolution {

  /** A product; kept apart so that proofs about sums need not look into it. */
  function Times(a: real, b: real): real {
    a * b
  }

  function Clamp(v: int, lo: int, hi: int): int {
    if v < lo then lo else if hi < v then hi else v
  }

  /** The input is not empty, and the output has its size. */
  ghost predicate Sized(input: array2<real>, out: array2<real>) {
    && input.Length0 > 0 && input.Length1 > 0
    && out.Length0 == input.Length0 && out.Length1 == input.Length1
  }

  /** The input value under kernel element (ky, kx) when the kernel is centred on (oy, ox). */
  ghost function Under(input: array2<real>, kernel: array2<real>, oy: int, ox: int, ky: int, kx: int): real
    requires input.Length0 > 0 && input.Length1 > 0
    reads input
  {
    input[Clamp(oy + ky - (kernel.Length0 - 1) / 2, 0, input.Length0 - 1),
        Clamp(ox + kx - (kernel.Length1 - 1) / 2, 0, input.Length1 - 1)]
  }

  /** The weighted sum over the first `n` elements of row `ky` of the kernel. */
  ghost function RowSum(input: array2<real>, kernel: array2<real>, oy: int, ox: int, ky: nat, n: nat): real
    requires input.Length0 > 0 && input.Length1 > 0 && ky < kernel.Length0 && n <= kernel.Length1
    reads input, kernel
  {
    if n == 0 then 0.0
    else RowSum(input, kernel, oy, ox, ky, n - 1) + Times(Under(input, kernel, oy, ox, ky, n - 1), kernel[ky, n - 1])
  }

  /** The weighted sum over the first `m` rows of the kernel. */
  ghost function Sum(input: array2<real>, kernel: array2<real>, oy: int, ox: int, m: nat): real
    requires input.Length0 > 0 && input.Length1 > 0 && m <= kernel.Length0
    reads input, kernel
  {
    if m == 0 then 0.0
    else Sum(input, kernel, oy, ox, m - 1) + RowSum(input, kernel, oy, ox, m - 1, kernel.Length1)
  }

  /** The convolution at one pixel. */
  ghost function Convolved(input: array2<real>, kernel: array2<real>, oy: int, ox: int): real
    requires input.Length0 > 0 && input.Length1 > 0
    reads input, kernel
  {
    Sum(input, kernel, oy, ox, kernel.Length0)
  }

  ghost predicate IsConvolution(input: array2<real>, kernel: array2<real>, out: array2<real>)
    requires Sized(input, out)
    reads input, kernel, out
  {
    forall y, x | 0 <= y < out.Length0 && 0 <= x < out.Length1 :: out[y, x] == Convolved(input, kernel, y, x)
  }

  // ---------------------------------------------------------------- the generic form

  /** Adds the contribution of one kernel element to every pixel. */
  method AddElement(input: array2<real>, kernel: array2<real>, out: array2<real>, ky: nat, kx: nat)
    requires Sized(input, out) && out != input && out != kernel && ky < kernel.Length0 && kx < kernel.Length1
    modifies out
    ensures forall y, x | 0 <= y < out.Length0 && 0 <= x < out.Length1 ::
              out[y, x] == old(out[y, x]) + Times(Under(input, kernel, y, x, ky, kx), kernel[ky, kx])
  {
    hide Times;
    var dy, dx := (kernel.Length0 - 1) / 2, (kernel.Length1 - 1) / 2;
    var kern := kernel[ky, kx];
    for oy := 0 to input.Length0
      invariant forall y, x | 0 <= y < out.Length0 && 0 <= x < out.Length1 ::
                  out[y, x] == old(out[y, x]) + if y < oy then Times(Under(input, kernel, y, x, ky, kx), kern) else 0.0
    {
      var iy := Clamp(oy + ky - dy, 0, input.Length0 - 1);
      for ox := 0 to input.Length1
        invariant forall y, x | 0 <= y < out.Length0 && 0 <= x < out.Length1 ::
                    out[y, x] == old(out[y, x]) +
                                 if y < oy || (y == oy && x < ox) then Times(Under(input, kernel, y, x, ky, kx), kern)
                                     else 0.0
      {
        var ix := Clamp(ox + kx - dx, 0, input.Length1 - 1);
        out[oy, ox] := out[oy, ox] + Times(input[iy, ix], kern);
      }
    }
  }

  method SetZero(out: array2<real>)
    modifies out
    ensures forall y, x | 0 <= y < out.Length0 && 0 <= x < out.Length1 :: out[y, x] == 0.0
  {
    for y := 0 to out.Length0
      invariant forall v, u | 0 <= v < y && 0 <= u < out.Length1 :: out[v, u] == 0.0
    {
      for x := 0 to out.Length1
        invariant forall v, u | 0 <= v <= y && 0 <= u < out.Length1 && (v < y || u < x) :: out[v, u] == 0.0
      {
        out[y, x] := 0.0;
      }
    }
  }

  /** The convolution for kernels of any size, one kernel element after the other. */
  method RunGeneric(input: array2<real>, kernel: array2<real>, out: array2<real>)
    requires Sized(input, out) && out != input && out != kernel
    modifies out
    ensures IsConvolution(input, kernel, out)
  {
    hide Times, Under;
    SetZero(out);
    for ky := 0 to kernel.Length0
      invariant forall y, x | 0 <= y < out.Length0 && 0 <= x < out.Length1 :: out[y, x] == Sum(input, kernel, y, x, ky)
    {
      for kx := 0 to kernel.Length1
        invariant forall y, x | 0 <= y < out.Length0 && 0 <= x < out.Length1 ::
                    out[y, x] == Sum(input, kernel, y, x, ky) + RowSum(input, kernel, y, x, ky, kx)
      {
        AddElement(input, kernel, out, ky, kx);
      }
    }
  }

  // ---------------------------------------------------------------- the form unrolled for kernels of three by three

  /** The weighted sum of the nine pixels around (y, x), written out. */
  ghost function Nine(input: array2<real>, k: array2<real>, y: int, x: int): real
    requires 0 <= y < input.Length0 && 0 <= x < input.Length1 && k.Length0 == 3 && k.Length1 == 3
    reads input, k
  {
    var u, d := Clamp(y - 1, 0, input.Length0 - 1), Clamp(y + 1, 0, input.Length0 - 1);
    var l, r := Clamp(x - 1, 0, input.Length1 - 1), Clamp(x + 1, 0, input.Length1 - 1);
    Times(input[u, l], k[0, 0]) + Times(input[u, x], k[0, 1]) + Times(input[u, r], k[0, 2])
    + Times(input[y, l], k[1, 0]) + Times(input[y, x], k[1, 1]) + Times(input[y, r], k[1, 2])
    + Times(input[d, l], k[2, 0]) + Times(input[d, x], k[2, 1]) + Times(input[d, r], k[2, 2])
  }

  lemma RowOfThree(input: array2<real>, k: array2<real>, y: int, x: int, ky: nat)
    requires 0 <= y < input.Length0 && 0 <= x < input.Length1 && k.Length0 == 3 && k.Length1 == 3 && ky < 3
    ensures var v := Clamp(y + ky - 1, 0, input.Length0 - 1);
            RowSum(input, k, y, x, ky, 3) ==
            Times(input[v, Clamp(x - 1, 0, input.Length1 - 1)], k[ky, 0]) + Times(input[v, x], k[ky, 1])
            + Times(input[v, Clamp(x + 1, 0, input.Length1 - 1)], k[ky, 2])
  {
    hide Times;
    assert RowSum(input, k, y, x, ky, 0) == 0.0;
    assert RowSum(input, k, y, x, ky, 1) == Times(Under(input, k, y, x, ky, 0), k[ky, 0]);
    assert RowSum(input, k, y, x, ky, 2) ==
        RowSum(input, k, y, x, ky, 1) + Times(Under(input, k, y, x, ky, 1), k[ky, 1]);
    assert RowSum(input, k, y, x, ky, 3) ==
        RowSum(input, k, y, x, ky, 2) + Times(Under(input, k, y, x, ky, 2), k[ky, 2]);
  }

  /** For three by three kernels the convolution is this sum. */
  lemma ConvolvedIsNine(input: array2<real>, k: array2<real>, y: int, x: int)
    requires 0 <= y < input.Length0 && 0 <= x < input.Length1 && k.Length0 == 3 && k.Length1 == 3
    ensures Convolved(input, k, y, x) == Nine(input, k, y, x)
  {
    hide Times, RowSum;
    RowOfThree(input, k, y, x, 0);
    RowOfThree(input, k, y, x, 1);
    RowOfThree(input, k, y, x, 2);
    assert Sum(input, k, y, x, 0) == 0.0;
    assert Sum(input, k, y, x, 1) == RowSum(input, k, y, x, 0, 3);
    assert Sum(input, k, y, x, 2) == Sum(input, k, y, x, 1) + RowSum(input, k, y, x, 1, 3);
    assert Sum(input, k, y, x, 3) == Sum(input, k, y, x, 2) + RowSum(input, k, y, x, 2, 3);
  }

  lemma RowMajor(y: int, x: int, cols: int)
    requires 0 <= x < cols
    ensures (y * cols + x) / cols == y && (y * cols + x) % cols == x
  {
    var i := y * cols + x;
    assert i == (i / cols) * cols + i % cols;
    SmallMultiple(i / cols - y, cols, x - i % cols);
  }

  lemma SmallMultiple(q: int, n: int, r: int)
    requires q * n == r && -n < r < n
    ensures q == 0
  {
    if q >= 1 {
      AtLeast(q, n);
    } else if q <= -1 {
      AtLeast(-q, n);
    }
  }

  lemma AtLeast(q: int, n: int)
    requires q >= 1 && n > 0
    ensures q * n >= n
  {
  }

  /** Linear access, row by row, relative to position `i`. */
  function D(input: array2<real>, i: int, dx: int, dy: int): real
    requires input.Length1 > 0
    requires 0 <= (i + dy * input.Length1 + dx) / input.Length1 < input.Length0
    reads input
  {
    var index := i + dy * input.Length1 + dx;
    input[index / input.Length1, index % input.Length1]
  }

  function K(kernel: array2<real>, dx: int, dy: int): real
    requires kernel.Length0 == 3 && kernel.Length1 == 3 && -1 <= dx <= 1 && -1 <= dy <= 1
    reads kernel
  {
    kernel[dy + 1, dx + 1]
  }

  /** The heatmap has at least two rows and columns, the kernel has three. */
  ghost predicate Fits(input: array2<real>, kernel: array2<real>) {
    input.Length0 >= 2 && input.Length1 >= 2 && kernel.Length0 == 3 && kernel.Length1 == 3
  }

  /** Position `i` is pixel (y, x). */
  ghost predicate IsAt(input: array2<real>, i: int, y: int, x: int) {
    0 <= y < input.Length0 && 0 <= x < input.Length1 && i == y * input.Length1 + x
  }

  /** Linear access to a pixel next to (y, x) on the heatmap. */
  lemma DAt(input: array2<real>, i: int, y: int, x: int, dx: int, dy: int)
    requires IsAt(input, i, y, x) && 0 <= y + dy < input.Length0 && 0 <= x + dx < input.Length1
    ensures 0 <= (i + dy * input.Length1 + dx) / input.Length1 < input.Length0
    ensures D(input, i, dx, dy) == input[y + dy, x + dx]
  {
    assert i + dy * input.Length1 + dx == (y + dy) * input.Length1 + (x + dx);
    RowMajor(y + dy, x + dx, input.Length1);
  }

  // The nine cases of the unrolled form, by the position of the pixel: a neighbour outside of the heatmap is
  // replaced by the nearest pixel on it.

  method TopLeft(input: array2<real>, kernel: array2<real>, i: nat, ghost y: int, ghost x: int) returns (v: real)
    requires Fits(input, kernel) && IsAt(input, i, y, x) && y == 0 && x == 0
    ensures v == Nine(input, kernel, y, x)
  {
    hide Times, IsAt, D;
    DAt(input, i, y, x, 0, 0);
    DAt(input, i, y, x, 1, 0);
    DAt(input, i, y, x, 0, 1);
    DAt(input, i, y, x, 1, 1);
    v := 0.0;
    v := v + Times(D(input, i, 0, 0), K(kernel, -1, -1));
    v := v + Times(D(input, i, 0, 0), K(kernel, 0, -1));
    v := v + Times(D(input, i, 1, 0), K(kernel, 1, -1));
    v := v + Times(D(input, i, 0, 0), K(kernel, -1, 0));
    v := v + Times(D(input, i, 0, 0), K(kernel, 0, 0));
    v := v + Times(D(input, i, 1, 0), K(kernel, 1, 0));
    v := v + Times(D(input, i, 0, 1), K(kernel, -1, 1));
    v := v + Times(D(input, i, 0, 1), K(kernel, 0, 1));
    v := v + Times(D(input, i, 1, 1), K(kernel, 1, 1));
  }

  method Top(input: array2<real>, kernel: array2<real>, i: nat, ghost y: int, ghost x: int) returns (v: real)
    requires Fits(input, kernel) && IsAt(input, i, y, x) && y == 0 && 0 < x < input.Length1 - 1
    ensures v == Nine(input, kernel, y, x)
  {
    hide Times, IsAt, D;
    DAt(input, i, y, x, -1, 0);
    DAt(input, i, y, x, 0, 0);
    DAt(input, i, y, x, 1, 0);
    DAt(input, i, y, x, -1, 1);
    DAt(input, i, y, x, 0, 1);
    DAt(input, i, y, x, 1, 1);
    v := 0.0;
    v := v + Times(D(input, i, -1, 0), K(kernel, -1, -1));
    v := v + Times(D(input, i, 0, 0), K(kernel, 0, -1));
    v := v + Times(D(input, i, 1, 0), K(kernel, 1, -1));
    v := v + Times(D(input, i, -1, 0), K(kernel, -1, 0));
    v := v + Times(D(input, i, 0, 0), K(kernel, 0, 0));
    v := v + Times(D(input, i, 1, 0), K(kernel, 1, 0));
    v := v + Times(D(input, i, -1, 1), K(kernel, -1, 1));
    v := v + Times(D(input, i, 0, 1), K(kernel, 0, 1));
    v := v + Times(D(input, i, 1, 1), K(kernel, 1, 1));
  }

  method TopRight(input: array2<real>, kernel: array2<real>, i: nat, ghost y: int, ghost x: int) returns (v: real)
    requires Fits(input, kernel) && IsAt(input, i, y, x) && y == 0 && x == input.Length1 - 1
    ensures v == Nine(input, kernel, y, x)
  {
    hide Times, IsAt, D;
    DAt(input, i, y, x, -1, 0);
    DAt(input, i, y, x, 0, 0);
    DAt(input, i, y, x, -1, 1);
    DAt(input, i, y, x, 0, 1);
    v := 0.0;
    v := v + Times(D(input, i, -1, 0), K(kernel, -1, -1));
    v := v + Times(D(input, i, 0, 0), K(kernel, 0, -1));
    v := v + Times(D(input, i, 0, 0), K(kernel, 1, -1));
    v := v + Times(D(input, i, -1, 0), K(kernel, -1, 0));
    v := v + Times(D(input, i, 0, 0), K(kernel, 0, 0));
    v := v + Times(D(input, i, 0, 0), K(kernel, 1, 0));
    v := v + Times(D(input, i, -1, 1), K(kernel, -1, 1));
    v := v + Times(D(input, i, 0, 1), K(kernel, 0, 1));
    v := v + Times(D(input, i, 0, 1), K(kernel, 1, 1));
  }

  method Left(input: array2<real>, kernel: array2<real>, i: nat, ghost y: int, ghost x: int) returns (v: real)
    requires Fits(input, kernel) && IsAt(input, i, y, x) && 0 < y < input.Length0 - 1 && x == 0
    ensures v == Nine(input, kernel, y, x)
  {
    hide Times, IsAt, D;
    DAt(input, i, y, x, 0, -1);
    DAt(input, i, y, x, 1, -1);
    DAt(input, i, y, x, 0, 0);
    DAt(input, i, y, x, 1, 0);
    DAt(input, i, y, x, 0, 1);
    DAt(input, i, y, x, 1, 1);
    v := 0.0;
    v := v + Times(D(input, i, 0, -1), K(kernel, -1, -1));
    v := v + Times(D(input, i, 0, -1), K(kernel, 0, -1));
    v := v + Times(D(input, i, 1, -1), K(kernel, 1, -1));
    v := v + Times(D(input, i, 0, 0), K(kernel, -1, 0));
    v := v + Times(D(input, i, 0, 0), K(kernel, 0, 0));
    v := v + Times(D(input, i, 1, 0), K(kernel, 1, 0));
    v := v + Times(D(input, i, 0, 1), K(kernel, -1, 1));
    v := v + Times(D(input, i, 0, 1), K(kernel, 0, 1));
    v := v + Times(D(input, i, 1, 1), K(kernel, 1, 1));
  }

  method Inner(input: array2<real>, kernel: array2<real>, i: nat, ghost y: int, ghost x: int) returns (v: real)
    requires Fits(input, kernel) && IsAt(input, i, y, x) && 0 < y < input.Length0 - 1 && 0 < x < input.Length1 - 1
    ensures v == Nine(input, kernel, y, x)
  {
    hide Times, IsAt, D;
    DAt(input, i, y, x, -1, -1);
    DAt(input, i, y, x, 0, -1);
    DAt(input, i, y, x, 1, -1);
    DAt(input, i, y, x, -1, 0);
    DAt(input, i, y, x, 0, 0);
    DAt(input, i, y, x, 1, 0);
    DAt(input, i, y, x, -1, 1);
    DAt(input, i, y, x, 0, 1);
    DAt(input, i, y, x, 1, 1);
    v := 0.0;
    v := v + Times(D(input, i, -1, -1), K(kernel, -1, -1));
    v := v + Times(D(input, i, 0, -1), K(kernel, 0, -1));
    v := v + Times(D(input, i, 1, -1), K(kernel, 1, -1));
    v := v + Times(D(input, i, -1, 0), K(kernel, -1, 0));
    v := v + Times(D(input, i, 0, 0), K(kernel, 0, 0));
    v := v + Times(D(input, i, 1, 0), K(kernel, 1, 0));
    v := v + Times(D(input, i, -1, 1), K(kernel, -1, 1));
    v := v + Times(D(input, i, 0, 1), K(kernel, 0, 1));
    v := v + Times(D(input, i, 1, 1), K(kernel, 1, 1));
  }

  method Right(input: array2<real>, kernel: array2<real>, i: nat, ghost y: int, ghost x: int) returns (v: real)
    requires Fits(input, kernel) && IsAt(input, i, y, x) && 0 < y < input.Length0 - 1 && x == input.Length1 - 1
    ensures v == Nine(input, kernel, y, x)
  {
    hide Times, IsAt, D;
    DAt(input, i, y, x, -1, -1);
    DAt(input, i, y, x, 0, -1);
    DAt(input, i, y, x, -1, 0);
    DAt(input, i, y, x, 0, 0);
    DAt(input, i, y, x, -1, 1);
    DAt(input, i, y, x, 0, 1);
    v := 0.0;
    v := v + Times(D(input, i, -1, -1), K(kernel, -1, -1));
    v := v + Times(D(input, i, 0, -1), K(kernel, 0, -1));
    v := v + Times(D(input, i, 0, -1), K(kernel, 1, -1));
    v := v + Times(D(input, i, -1, 0), K(kernel, -1, 0));
    v := v + Times(D(input, i, 0, 0), K(kernel, 0, 0));
    v := v + Times(D(input, i, 0, 0), K(kernel, 1, 0));
    v := v + Times(D(input, i, -1, 1), K(kernel, -1, 1));
    v := v + Times(D(input, i, 0, 1), K(kernel, 0, 1));
    v := v + Times(D(input, i, 0, 1), K(kernel, 1, 1));
  }

  method BottomLeft(input: array2<real>, kernel: array2<real>, i: nat, ghost y: int, ghost x: int) returns (v: real)
    requires Fits(input, kernel) && IsAt(input, i, y, x) && y == input.Length0 - 1 && x == 0
    ensures v == Nine(input, kernel, y, x)
  {
    hide Times, IsAt, D;
    DAt(input, i, y, x, 0, -1);
    DAt(input, i, y, x, 1, -1);
    DAt(input, i, y, x, 0, 0);
    DAt(input, i, y, x, 1, 0);
    v := 0.0;
    v := v + Times(D(input, i, 0, -1), K(kernel, -1, -1));
    v := v + Times(D(input, i, 0, -1), K(kernel, 0, -1));
    v := v + Times(D(input, i, 1, -1), K(kernel, 1, -1));
    v := v + Times(D(input, i, 0, 0), K(kernel, -1, 0));
    v := v + Times(D(input, i, 0, 0), K(kernel, 0, 0));
    v := v + Times(D(input, i, 1, 0), K(kernel, 1, 0));
    v := v + Times(D(input, i, 0, 0), K(kernel, -1, 1));
    v := v + Times(D(input, i, 0, 0), K(kernel, 0, 1));
    v := v + Times(D(input, i, 1, 0), K(kernel, 1, 1));
  }

  method Bottom(input: array2<real>, kernel: array2<real>, i: nat, ghost y: int, ghost x: int) returns (v: real)
    requires Fits(input, kernel) && IsAt(input, i, y, x) && y == input.Length0 - 1 && 0 < x < input.Length1 - 1
    ensures v == Nine(input, kernel, y, x)
  {
    hide Times, IsAt, D;
    DAt(input, i, y, x, -1, -1);
    DAt(input, i, y, x, 0, -1);
    DAt(input, i, y, x, 1, -1);
    DAt(input, i, y, x, -1, 0);
    DAt(input, i, y, x, 0, 0);
    DAt(input, i, y, x, 1, 0);
    v := 0.0;
    v := v + Times(D(input, i, -1, -1), K(kernel, -1, -1));
    v := v + Times(D(input, i, 0, -1), K(kernel, 0, -1));
    v := v + Times(D(input, i, 1, -1), K(kernel, 1, -1));
    v := v + Times(D(input, i, -1, 0), K(kernel, -1, 0));
    v := v + Times(D(input, i, 0, 0), K(kernel, 0, 0));
    v := v + Times(D(input, i, 1, 0), K(kernel, 1, 0));
    v := v + Times(D(input, i, -1, 0), K(kernel, -1, 1));
    v := v + Times(D(input, i, 0, 0), K(kernel, 0, 1));
    v := v + Times(D(input, i, 1, 0), K(kernel, 1, 1));
  }

  method BottomRight(input: array2<real>, kernel: array2<real>, i: nat, ghost y: int, ghost x: int) returns (v: real)
    requires Fits(input, kernel) && IsAt(input, i, y, x) && y == input.Length0 - 1 && x == input.Length1 - 1
    ensures v == Nine(input, kernel, y, x)
  {
    hide Times, IsAt, D;
    DAt(input, i, y, x, -1, -1);
    DAt(input, i, y, x, 0, -1);
    DAt(input, i, y, x, -1, 0);
    DAt(input, i, y, x, 0, 0);
    v := 0.0;
    v := v + Times(D(input, i, -1, -1), K(kernel, -1, -1));
    v := v + Times(D(input, i, 0, -1), K(kernel, 0, -1));
    v := v + Times(D(input, i, 0, -1), K(kernel, 1, -1));
    v := v + Times(D(input, i, -1, 0), K(kernel, -1, 0));
    v := v + Times(D(input, i, 0, 0), K(kernel, 0, 0));
    v := v + Times(D(input, i, 0, 0), K(kernel, 1, 0));
    v := v + Times(D(input, i, -1, 0), K(kernel, -1, 1));
    v := v + Times(D(input, i, 0, 0), K(kernel, 0, 1));
    v := v + Times(D(input, i, 0, 0), K(kernel, 1, 1));
  }

  /** The pixels before position `n` have their final value. */
  ghost predicate Filled(input: array2<real>, kernel: array2<real>, out: array2<real>, n: int)
    requires Fits(input, kernel) && Sized(input, out)
    reads input, kernel, out
  {
    forall y, x | 0 <= y < out.Length0 && 0 <= x < out.Length1 && y * out.Length1 + x < n ::
        out[y, x] == Nine(input, kernel, y, x)
  }

  lemma OnePixel(y: int, x: int, v: int, u: int, cols: int)
    requires 0 <= x < cols && 0 <= u < cols && y * cols + x == v * cols + u
    ensures y == v && x == u
  {
    RowMajor(y, x, cols);
    RowMajor(v, u, cols);
  }

  /** Writes the pixel at linear position `i`. */
  method Emit(input: array2<real>, kernel: array2<real>, out: array2<real>, i: nat, v: real, ghost y: int, ghost x: int)
    requires Fits(input, kernel) && Sized(input, out) && out != input && out != kernel && IsAt(input, i, y, x)
    requires Filled(input, kernel, out, i) && v == Nine(input, kernel, y, x)
    modifies out
    ensures Filled(input, kernel, out, i + 1)
  {
    hide Nine;
    RowMajor(y, x, out.Length1);
    out[i / out.Length1, i % out.Length1] := v;
    forall b, a | 0 <= b < out.Length0 && 0 <= a < out.Length1 && b * out.Length1 + a < i + 1
      ensures out[b, a] == Nine(input, kernel, b, a)
    {
      if b * out.Length1 + a == i {
        OnePixel(b, a, y, x, out.Length1);
      }
    }
  }

  lemma EarlierRow(y: int, rows: int, cols: int)
    requires cols > 0
    ensures y < rows ==> y * cols + cols <= rows * cols
    ensures y == rows ==> y * cols == rows * cols
  {
    if y < rows {
      AtLeast(rows - y, cols);
      assert (rows - y) * cols == rows * cols - y * cols;
    }
  }

  /** The convolution for three by three kernels, with a running index over all pixels. */
  method Run3x3(input: array2<real>, kernel: array2<real>, out: array2<real>)
    requires Fits(input, kernel) && Sized(input, out) && out != input && out != kernel
    modifies out
    ensures IsConvolution(input, kernel, out)
  {
    hide Nine, Filled;
    var rows, cols := input.Length0, input.Length1;
    NothingFilled(input, kernel, out);
    var i := FirstRow(input, kernel, out);
    ghost var y := 1;
    EarlierRow(y, rows - 1, cols);
    while i < cols * (rows - 1)
      invariant 1 <= y <= rows - 1 && i == y * cols
      invariant i < cols * (rows - 1) <==> y < rows - 1
      invariant Filled(input, kernel, out, i)
      decreases rows - y
    {
      i := InnerRow(input, kernel, out, i, y);
      y := y + 1;
      EarlierRow(y, rows - 1, cols);
    }
    LastRow(input, kernel, out, i, y);
    AllFilled(input, kernel, out);
  }

  lemma NothingFilled(input: array2<real>, kernel: array2<real>, out: array2<real>)
    requires Fits(input, kernel) && Sized(input, out)
    ensures Filled(input, kernel, out, 0)
  {
    hide Nine;
    forall y, x | 0 <= y < out.Length0 && 0 <= x < out.Length1
      ensures y * out.Length1 + x < 0 ==> out[y, x] == Nine(input, kernel, y, x)
    {
      EarlierRow(0, y, out.Length1);
    }
  }

  lemma AllFilled(input: array2<real>, kernel: array2<real>, out: array2<real>)
    requires Fits(input, kernel) && Sized(input, out) && Filled(input, kernel, out, out.Length0 * out.Length1)
    ensures IsConvolution(input, kernel, out)
  {
    hide Nine, Convolved;
    forall y, x | 0 <= y < out.Length0 && 0 <= x < out.Length1
      ensures out[y, x] == Convolved(input, kernel, y, x)
    {
      EarlierRow(y, out.Length0, out.Length1);
      ConvolvedIsNine(input, kernel, y, x);
    }
  }

  method FirstRow(input: array2<real>, kernel: array2<real>, out: array2<real>) returns (i: nat)
    requires Fits(input, kernel) && Sized(input, out) && out != input && out != kernel
    requires Filled(input, kernel, out, 0)
    modifies out
    ensures i == input.Length1 && Filled(input, kernel, out, i)
  {
    hide Nine, Filled;
    i := 0;
    var v := TopLeft(input, kernel, i, 0, 0);
    Emit(input, kernel, out, i, v, 0, 0);
    i := i + 1;
    var limit := i + input.Length1 - 2;
    while i < limit
      invariant 1 <= i <= input.Length1 - 1 && Filled(input, kernel, out, i)
    {
      v := Top(input, kernel, i, 0, i);
      Emit(input, kernel, out, i, v, 0, i);
      i := i + 1;
    }
    v := TopRight(input, kernel, i, 0, i);
    Emit(input, kernel, out, i, v, 0, i);
    i := i + 1;
  }

  method InnerRow(input: array2<real>, kernel: array2<real>, out: array2<real>, start: nat, ghost y: int)
      returns (i: nat)
    requires Fits(input, kernel) && Sized(input, out) && out != input && out != kernel
    requires 0 < y < input.Length0 - 1 && start == y * input.Length1 && Filled(input, kernel, out, start)
    modifies out
    ensures i == (y + 1) * input.Length1 && Filled(input, kernel, out, i)
  {
    hide Nine, Filled;
    i := start;
    var v := Left(input, kernel, i, y, 0);
    Emit(input, kernel, out, i, v, y, 0);
    i := i + 1;
    var limit := i + input.Length1 - 2;
    while i < limit
      invariant start + 1 <= i <= limit && Filled(input, kernel, out, i)
    {
      v := Inner(input, kernel, i, y, i - start);
      Emit(input, kernel, out, i, v, y, i - start);
      i := i + 1;
    }
    v := Right(input, kernel, i, y, i - start);
    Emit(input, kernel, out, i, v, y, i - start);
    i := i + 1;
  }

  method LastRow(input: array2<real>, kernel: array2<real>, out: array2<real>, start: nat, ghost y: int)
    requires Fits(input, kernel) && Sized(input, out) && out != input && out != kernel
    requires y == input.Length0 - 1 && start == y * input.Length1 && Filled(input, kernel, out, start)
    modifies out
    ensures Filled(input, kernel, out, input.Length0 * input.Length1)
  {
    hide Nine, Filled;
    var i := start;
    var v := BottomLeft(input, kernel, i, y, 0);
    Emit(input, kernel, out, i, v, y, 0);
    i := i + 1;
    var limit := i + input.Length1 - 2;
    while i < limit
      invariant start + 1 <= i <= limit && Filled(input, kernel, out, i)
    {
      v := Bottom(input, kernel, i, y, i - start);
      Emit(input, kernel, out, i, v, y, i - start);
      i := i + 1;
    }
    v := BottomRight(input, kernel, i, y, i - start);
    Emit(input, kernel, out, i, v, y, i - start);
    assert i + 1 == input.Length0 * input.Length1;
  }

  /** The two forms give the same image. */
  lemma FormsAgree(input: array2<real>, kernel: array2<real>, fast: array2<real>, slow: array2<real>)
    requires Sized(input, fast) && Sized(input, slow)
    requires IsConvolution(input, kernel, fast) && IsConvolution(input, kernel, slow)
    ensures forall y, x | 0 <= y < input.Length0 && 0 <= x < input.Length1 :: fast[y, x] == slow[y, x]
  {
    hide Convolved;
  }

  // ---------------------------------------------------------------- averaging

  ghost function KernelRow(kernel: array2<real>, ky: nat, n: nat): real
    requires ky < kernel.Length0 && n <= kernel.Length1
    reads kernel
  {
    if n == 0 then 0.0 else KernelRow(kernel, ky, n - 1) + kernel[ky, n - 1]
  }

  ghost function KernelSum(kernel: array2<real>, m: nat): real
    requires m <= kernel.Length0
    reads kernel
  {
    if m == 0 then 0.0 else KernelSum(kernel, m - 1) + KernelRow(kernel, m - 1, kernel.Length1)
  }

  lemma WeightedBounds(lo: real, v: real, hi: real, w: real)
    requires lo <= v <= hi && w >= 0.0
    ensures Times(lo, w) <= Times(v, w) <= Times(hi, w)
  {
    assert (v - lo) * w >= 0.0;
    assert (hi - v) * w >= 0.0;
  }

  lemma Distributes(a: real, b: real, c: real)
    ensures Times(a, b + c) == Times(a, b) + Times(a, c)
    ensures Times(a, 0.0) == 0.0
    ensures Times(a, 1.0) == a
  {
  }

  ghost predicate Within(input: array2<real>, lo: real, hi: real)
    reads input
  {
    forall y, x | 0 <= y < input.Length0 && 0 <= x < input.Length1 :: lo <= input[y, x] <= hi
  }

  ghost predicate NonNegative(kernel: array2<real>)
    reads kernel
  {
    forall y, x | 0 <= y < kernel.Length0 && 0 <= x < kernel.Length1 :: kernel[y, x] >= 0.0
  }

  lemma {:induction false} RowBounds(input: array2<real>, kernel: array2<real>, oy: int, ox: int, ky: nat, n: nat,
      lo: real, hi: real)
    requires input.Length0 > 0 && input.Length1 > 0 && ky < kernel.Length0 && n <= kernel.Length1
    requires Within(input, lo, hi) && NonNegative(kernel)
    ensures Times(lo, KernelRow(kernel, ky, n)) <= RowSum(input, kernel, oy, ox, ky, n)
    ensures RowSum(input, kernel, oy, ox, ky, n) <= Times(hi, KernelRow(kernel, ky, n))
  {
    hide Times;
    if n == 0 {
      Distributes(lo, 0.0, 0.0);
      Distributes(hi, 0.0, 0.0);
    } else {
      RowBounds(input, kernel, oy, ox, ky, n - 1, lo, hi);
      WeightedBounds(lo, Under(input, kernel, oy, ox, ky, n - 1), hi, kernel[ky, n - 1]);
      Distributes(lo, KernelRow(kernel, ky, n - 1), kernel[ky, n - 1]);
      Distributes(hi, KernelRow(kernel, ky, n - 1), kernel[ky, n - 1]);
    }
  }

  lemma {:induction false} SumBounds(input: array2<real>, kernel: array2<real>, oy: int, ox: int, m: nat, lo: real,
      hi: real)
    requires input.Length0 > 0 && input.Length1 > 0 && m <= kernel.Length0
    requires Within(input, lo, hi) && NonNegative(kernel)
    ensures Times(lo, KernelSum(kernel, m)) <= Sum(input, kernel, oy, ox, m) <= Times(hi, KernelSum(kernel, m))
  {
    hide Times, Within, NonNegative, RowSum, KernelRow;
    if m == 0 {
      Distributes(lo, 0.0, 0.0);
      Distributes(hi, 0.0, 0.0);
    } else {
      SumBounds(input, kernel, oy, ox, m - 1, lo, hi);
      RowBounds(input, kernel, oy, ox, m - 1, kernel.Length1, lo, hi);
      Distributes(lo, KernelSum(kernel, m - 1), KernelRow(kernel, m - 1, kernel.Length1));
      Distributes(hi, KernelSum(kernel, m - 1), KernelRow(kernel, m - 1, kernel.Length1));
    }
  }

  /** A kernel of non-negative weights that sum to one averages: the result stays within the range of the input. */
  lemma ConvolutionAverages(input: array2<real>, kernel: array2<real>, out: array2<real>, lo: real, hi: real)
    requires Sized(input, out) && IsConvolution(input, kernel, out)
    requires Within(input, lo, hi) && NonNegative(kernel) && KernelSum(kernel, kernel.Length0) == 1.0
    ensures Within(out, lo, hi)
  {
    hide Times, Sum;
    Distributes(lo, 0.0, 0.0);
    Distributes(hi, 0.0, 0.0);
    forall y, x | 0 <= y < out.Length0 && 0 <= x < out.Length1
      ensures lo <= out[y, x] <= hi
    {
      SumBounds(input, kernel, y, x, kernel.Length0, lo, hi);
    }
  }
}
