/** Gaussian elimination with partial pivoting on a 6x6 system, over exact reals.

    The source indexes the system matrix as a(column, row). Elimination leaves the entries
    below the diagonal untouched ("stale"), so after the columns below `c` are done, row `r` only
    stands for its entries from column Min(r, c) on. `Solves` says what such a system means. */
module LinearSolver {

  const SIZE := 6

  /** A matrix as a sequence of rows. */
  type Matrix = seq<seq<real>>

  ghost predicate IsVector(v: seq<real>) {
    |v| == SIZE
  }

  ghost predicate IsMatrix(a: Matrix) {
    |a| == SIZE && forall r | 0 <= r < SIZE :: |a[r]| == SIZE
  }

  function Abs(v: real): real {
    if v < 0.0 then -v else v
  }

  function Min(a: nat, b: nat): nat {
    if a < b then a else b
  }

  /** The part of row times vector that starts at column `lo`. */
  ghost function Tail(row: seq<real>, x: seq<real>, lo: nat): real
    requires IsVector(row) && IsVector(x) && lo <= SIZE
    decreases SIZE - lo
  {
    if lo == SIZE then 0.0 else row[lo] * x[lo] + Tail(row, x, lo + 1)
  }

  /** `x` satisfies the system whose columns below `c` have been eliminated. */
  ghost predicate Solves(a: Matrix, b: seq<real>, c: nat, x: seq<real>)
    requires IsMatrix(a) && IsVector(b) && c <= SIZE
  {
    IsVector(x) && forall r | 0 <= r < SIZE :: Tail(a[r], x, Min(r, c)) == b[r]
  }

  /** `x` satisfies the full system a * x = b. */
  ghost predicate IsSolution(a: Matrix, b: seq<real>, x: seq<real>)
    requires IsMatrix(a) && IsVector(b)
  {
    Solves(a, b, 0, x)
  }

  ghost predicate SameSolutions(a: Matrix, b: seq<real>, c: nat, a': Matrix, b': seq<real>, c': nat)
    requires IsMatrix(a) && IsVector(b) && c <= SIZE
    requires IsMatrix(a') && IsVector(b') && c' <= SIZE
  {
    forall x :: Solves(a, b, c, x) <==> Solves(a', b', c', x)
  }

  ghost function Zeros(): (z: seq<real>)
    ensures IsVector(z)
  {
    [0.0, 0.0, 0.0, 0.0, 0.0, 0.0]
  }

  /** The homogeneous system has a solution other than zero. */
  ghost predicate Singular(a: Matrix)
    requires IsMatrix(a)
  {
    exists z :: IsSolution(a, Zeros(), z) && z != Zeros()
  }

  /** The last entry of `x` that is not zero is a one, at `k`. */
  ghost predicate EndsAt(x: seq<real>, k: nat) {
    IsVector(x) && k < SIZE && x[k] == 1.0 && forall j | k < j < SIZE :: x[j] == 0.0
  }

  /** `x` is mapped to zero by the first `c` equations, and by the others to at most `e`. */
  ghost predicate NearlyZero(a: Matrix, c: nat, x: seq<real>, e: real)
    requires IsMatrix(a) && c <= SIZE && IsVector(x)
  {
    && 0.0 <= e
    && (forall r | 0 <= r < c :: Tail(a[r], x, r) == 0.0)
    && (forall r | c <= r < SIZE :: Abs(Tail(a[r], x, c)) <= e)
  }

  /** Some vector that ends with a one is mapped to a vector with entries of at most `eps`. */
  ghost predicate NearlySingular(a: Matrix, eps: real)
    requires IsMatrix(a)
  {
    exists x, k: nat :: EndsAt(x, k) && NearlyZero(a, 0, x, eps)
  }

  /** `e` doubled `k` times. */
  ghost function Doubled(e: real, k: nat): real {
    if k == 0 then e else 2.0 * Doubled(e, k - 1)
  }

  lemma {:induction false} DoubledGrows(e: real, k: nat)
    requires 0.0 <= e
    ensures e <= Doubled(e, k) && (e == 0.0 ==> Doubled(e, k) == 0.0)
  {
    if k != 0 {
      DoubledGrows(e, k - 1);
    }
  }

  /** A vector that ends with a one at `k` is mapped to one with an entry above `eps`, up to a factor of two for each
      column before `k`. */
  ghost predicate Robust(a: Matrix, eps: real)
    requires IsMatrix(a)
  {
    forall x, k: nat, e | EndsAt(x, k) && NearlyZero(a, 0, x, e) :: eps < Doubled(e, k)
  }

  /** For a threshold of zero, these are exactly the singular and the regular matrices. */
  lemma ZeroThreshold(a: Matrix)
    requires IsMatrix(a)
    ensures NearlySingular(a, 0.0) <==> Singular(a)
    ensures Robust(a, 0.0) <==> !Singular(a)
  {
    hide Tail, Doubled;
    if x, k: nat :| EndsAt(x, k) && NearlyZero(a, 0, x, 0.0) {
      assert forall r | 0 <= r < SIZE :: Tail(a[r], x, Min(r, 0)) == Zeros()[r];
      assert IsSolution(a, Zeros(), x) && x[k] != Zeros()[k];
      DoubledGrows(0.0, k);
    } else {
      forall x, k: nat, e | EndsAt(x, k) && NearlyZero(a, 0, x, e)
        ensures 0.0 < Doubled(e, k)
      {
        DoubledGrows(e, k);
        assert e != 0.0;
      }
      if z :| IsSolution(a, Zeros(), z) && z != Zeros() {
        var x, k := DividedByLast(a, z);
        assert false;
      }
    }
  }

  lemma {:induction false} LastEntry(z: seq<real>, lo: nat) returns (k: nat)
    requires IsVector(z) && lo < SIZE && z[lo] != 0.0
    ensures lo <= k < SIZE && z[k] != 0.0 && forall j | k < j < SIZE :: z[j] == 0.0
    decreases SIZE - lo
  {
    if j: nat :| lo < j < SIZE && z[j] != 0.0 {
      k := LastEntry(z, j);
    } else {
      k := lo;
    }
  }

  /** A vector that is mapped to zero, divided by its last entry. */
  lemma DividedByLast(a: Matrix, z: seq<real>) returns (x: seq<real>, k: nat)
    requires IsMatrix(a) && IsSolution(a, Zeros(), z) && z != Zeros()
    ensures EndsAt(x, k) && NearlyZero(a, 0, x, 0.0)
  {
    hide Tail;
    var j: nat :| j < SIZE && z[j] != Zeros()[j];
    k := LastEntry(z, j);
    var w := Quotient(1.0, z[k]);
    x := seq(SIZE, i requires 0 <= i < SIZE => w * z[i]);
    assert x[k] == z[k] * w;
    forall r | 0 <= r < SIZE
      ensures Tail(a[r], x, 0) == 0.0
    {
      assert Tail(a[r], z, Min(r, 0)) == Zeros()[r];
      TailScales(a[r], z, x, w, 0);
    }
  }

  // ---------------------------------------------------------------- algebra of row tails

  lemma TailUnfolds(row: seq<real>, x: seq<real>, lo: nat)
    requires IsVector(row) && IsVector(x) && lo < SIZE
    ensures Tail(row, x, lo) == row[lo] * x[lo] + Tail(row, x, lo + 1)
  {
  }

  lemma TailEnds(row: seq<real>, x: seq<real>)
    requires IsVector(row) && IsVector(x)
    ensures Tail(row, x, SIZE) == 0.0
  {
  }

  lemma {:induction false} TailAgrees(row: seq<real>, row': seq<real>, x: seq<real>, x': seq<real>, lo: nat)
    requires IsVector(row) && IsVector(row') && IsVector(x) && IsVector(x') && lo <= SIZE
    requires forall k | lo <= k < SIZE :: row[k] == row'[k] && x[k] == x'[k]
    ensures Tail(row, x, lo) == Tail(row', x', lo)
    decreases SIZE - lo
  {
    hide Tail;
    if lo == SIZE {
      TailEnds(row, x);
      TailEnds(row', x');
    } else {
      TailAgrees(row, row', x, x', lo + 1);
      TailUnfolds(row, x, lo);
      TailUnfolds(row', x', lo);
    }
  }

  lemma CombinedTerm(r: real, v: real, p: real, x: real, t: real, u: real)
    ensures (r - v * p) * x + (t - v * u) == (r * x + t) - v * (p * x + u)
  {
    assert (v * p) * x == v * (p * x);
    assert (r - v * p) * x == r * x - (v * p) * x;
    assert v * (p * x + u) == v * (p * x) + v * u;
  }

  lemma {:induction false} TailCombines(row: seq<real>, pivot: seq<real>, row': seq<real>, v: real, x: seq<real>,
      lo: nat)
    requires IsVector(row) && IsVector(pivot) && IsVector(row') && IsVector(x) && lo <= SIZE
    requires forall k | lo <= k < SIZE :: row'[k] == row[k] - v * pivot[k]
    ensures Tail(row', x, lo) == Tail(row, x, lo) - v * Tail(pivot, x, lo)
    decreases SIZE - lo
  {
    hide Tail;
    if lo == SIZE {
      TailEnds(row, x);
      TailEnds(pivot, x);
      TailEnds(row', x);
    } else {
      TailCombines(row, pivot, row', v, x, lo + 1);
      TailUnfolds(row, x, lo);
      TailUnfolds(pivot, x, lo);
      TailUnfolds(row', x, lo);
      CombinedTerm(row[lo], v, pivot[lo], x[lo], Tail(row, x, lo + 1), Tail(pivot, x, lo + 1));
    }
  }

  lemma {:induction false} TailDiffers(row: seq<real>, x: seq<real>, y: seq<real>, d: seq<real>, lo: nat)
    requires IsVector(row) && IsVector(x) && IsVector(y) && IsVector(d) && lo <= SIZE
    requires forall k | lo <= k < SIZE :: d[k] == y[k] - x[k]
    ensures Tail(row, d, lo) == Tail(row, y, lo) - Tail(row, x, lo)
    decreases SIZE - lo
  {
    hide Tail;
    if lo == SIZE {
      TailEnds(row, x);
      TailEnds(row, y);
      TailEnds(row, d);
    } else {
      TailDiffers(row, x, y, d, lo + 1);
      TailUnfolds(row, x, lo);
      TailUnfolds(row, y, lo);
      TailUnfolds(row, d, lo);
      assert row[lo] * (y[lo] - x[lo]) == row[lo] * y[lo] - row[lo] * x[lo];
    }
  }

  lemma {:induction false} TailScales(row: seq<real>, z: seq<real>, x: seq<real>, w: real, lo: nat)
    requires IsVector(row) && IsVector(z) && IsVector(x) && lo <= SIZE
    requires forall k | 0 <= k < SIZE :: x[k] == w * z[k]
    ensures Tail(row, x, lo) == w * Tail(row, z, lo)
    decreases SIZE - lo
  {
    hide Tail;
    if lo == SIZE {
      TailEnds(row, z);
      TailEnds(row, x);
    } else {
      TailScales(row, z, x, w, lo + 1);
      TailUnfolds(row, z, lo);
      TailUnfolds(row, x, lo);
      assert row[lo] * (w * z[lo]) == w * (row[lo] * z[lo]);
    }
  }

  // ---------------------------------------------------------------- one pivoting step

  /** Rows `r` and `c` exchanged from column `c` on, together with their right-hand sides. */
  ghost predicate Swapped(a: Matrix, b: seq<real>, c: nat, r: nat, a': Matrix, b': seq<real>)
    requires IsMatrix(a) && IsVector(b) && IsMatrix(a') && IsVector(b') && c <= r < SIZE
  {
    && (forall i | 0 <= i < SIZE && i != r && i != c :: a'[i] == a[i] && b'[i] == b[i])
    && (forall k | c <= k < SIZE :: a'[r][k] == a[c][k] && a'[c][k] == a[r][k])
    && b'[r] == b[c] && b'[c] == b[r]
  }

  lemma SwapKeepsSolutions(a: Matrix, b: seq<real>, c: nat, r: nat, a': Matrix, b': seq<real>)
    requires IsMatrix(a) && IsVector(b) && IsMatrix(a') && IsVector(b') && c <= r < SIZE
    requires Swapped(a, b, c, r, a', b')
    ensures SameSolutions(a, b, c, a', b', c)
  {
    hide Tail;
    forall x | IsVector(x)
      ensures Solves(a, b, c, x) <==> Solves(a', b', c, x)
    {
      TailAgrees(a'[r], a[c], x, x, c);
      TailAgrees(a'[c], a[r], x, x, c);
      assert forall i | 0 <= i < SIZE && i != r && i != c :: Tail(a'[i], x, Min(i, c)) == Tail(a[i], x, Min(i, c));
      assert Min(r, c) == c == Min(c, c);
      if Solves(a, b, c, x) {
        assert Tail(a[r], x, Min(r, c)) == b[r] && Tail(a[c], x, Min(c, c)) == b[c];
      }
      if Solves(a', b', c, x) {
        assert Tail(a'[r], x, Min(r, c)) == b'[r] && Tail(a'[c], x, Min(c, c)) == b'[c];
      }
    }
  }

  /** A row from which `v` times the pivot row was taken away; its entries up to column `c` are stale. */
  ghost predicate RowReduced(row: seq<real>, br: real, pivot: seq<real>, bc: real, v: real, c: nat, row': seq<real>,
      br': real)
    requires IsVector(row) && IsVector(pivot) && IsVector(row') && c < SIZE
  {
    && v * pivot[c] == row[c]
    && br' == br - v * bc
    && forall k | c < k < SIZE :: row'[k] == row[k] - v * pivot[k]
  }

  /** Column `c` eliminated below the diagonal, with factor vs[r] for row `r`. */
  ghost predicate Eliminated(a: Matrix, b: seq<real>, c: nat, vs: seq<real>, a': Matrix, b': seq<real>)
    requires IsMatrix(a) && IsVector(b) && IsMatrix(a') && IsVector(b') && c < SIZE && IsVector(vs)
  {
    && (forall r | 0 <= r <= c :: a'[r] == a[r] && b'[r] == b[r])
    && (forall r | c < r < SIZE :: RowReduced(a[r], b[r], a[c], b[c], vs[r], c, a'[r], b'[r]))
  }

  /** The arithmetic of one elimination step: p, q are the entries of the pivot row and the reduced row
      in the pivot column, t and u the rest of their products with x. */
  lemma ReducedEquation(v: real, p: real, q: real, xc: real, t: real, u: real, bc: real, br: real)
    requires v * p == q
    requires p * xc + t == bc
    ensures q * xc + u == br <==> u - v * t == br - v * bc
  {
    assert v * bc == v * (p * xc) + v * t;
    assert v * (p * xc) == (v * p) * xc;
  }

  /** A reduced row stands for the same equation, given the pivot equation. */
  lemma ReducedRowEquation(row: seq<real>, br: real, pivot: seq<real>, bc: real, v: real, c: nat,
                           row': seq<real>, br': real, x: seq<real>)
    requires IsVector(row) && IsVector(pivot) && IsVector(row') && IsVector(x) && c < SIZE
    requires RowReduced(row, br, pivot, bc, v, c, row', br')
    requires Tail(pivot, x, c) == bc
    ensures Tail(row, x, c) == br <==> Tail(row', x, c + 1) == br'
  {
    hide Tail;
    TailUnfolds(row, x, c);
    TailUnfolds(pivot, x, c);
    TailCombines(row, pivot, row', v, x, c + 1);
    ReducedEquation(v, pivot[c], row[c], x[c], Tail(pivot, x, c + 1), Tail(row, x, c + 1), bc, br);
  }

  lemma EliminationKeepsSolutions(a: Matrix, b: seq<real>, c: nat, vs: seq<real>, a': Matrix, b': seq<real>)
    requires IsMatrix(a) && IsVector(b) && IsMatrix(a') && IsVector(b') && c < SIZE && IsVector(vs)
    requires Eliminated(a, b, c, vs, a', b')
    ensures SameSolutions(a, b, c, a', b', c + 1)
  {
    hide Tail, RowReduced;
    forall x | IsVector(x)
      ensures Solves(a, b, c, x) <==> Solves(a', b', c + 1, x)
    {
      forall r | 0 <= r <= c
        ensures Tail(a[r], x, Min(r, c)) == Tail(a'[r], x, Min(r, c + 1)) && b[r] == b'[r]
      {
      }
      if Tail(a[c], x, c) == b[c] {
        forall r | c < r < SIZE
          ensures Tail(a[r], x, c) == b[r] <==> Tail(a'[r], x, c + 1) == b'[r]
        {
          ReducedRowEquation(a[r], b[r], a[c], b[c], vs[r], c, a'[r], b'[r], x);
        }
        assert forall r | c < r < SIZE :: Min(r, c) == c && Min(r, c + 1) == c + 1;
      } else {
        assert Min(c, c) == c && Tail(a[c], x, Min(c, c)) != b[c];
        assert Min(c, c + 1) == c && Tail(a'[c], x, Min(c, c + 1)) != b'[c];
      }
    }
  }

  // ---------------------------------------------------------------- what a step does to a residual

  /** What is nearly zero after some steps was so before. */
  ghost predicate Reflects(a: Matrix, c: nat, a': Matrix, c': nat)
    requires IsMatrix(a) && IsMatrix(a') && c <= SIZE && c' <= SIZE
  {
    forall x, e | IsVector(x) && NearlyZero(a', c', x, e) :: NearlyZero(a, c, x, e)
  }

  /** `x` is mapped to at most `e` by the first equation, and to at most twice as much by each of the next ones until
      column `c` is reached. */
  ghost predicate Bounded(a: Matrix, c: nat, x: seq<real>, e: real)
    requires IsMatrix(a) && c <= SIZE && IsVector(x)
  {
    forall r | 0 <= r < SIZE :: Abs(Tail(a[r], x, Min(r, c))) <= Doubled(e, Min(r, c))
  }

  /** What is bounded stays bounded over some steps. */
  ghost predicate Bounds(a: Matrix, c: nat, a': Matrix, c': nat)
    requires IsMatrix(a) && IsMatrix(a') && c <= SIZE && c' <= SIZE
  {
    forall x, e | IsVector(x) && Bounded(a, c, x, e) :: Bounded(a', c', x, e)
  }

  lemma SwapResidual(a: Matrix, b: seq<real>, c: nat, r: nat, a': Matrix, b': seq<real>)
    requires IsMatrix(a) && IsVector(b) && IsMatrix(a') && IsVector(b') && c <= r < SIZE
    requires Swapped(a, b, c, r, a', b')
    ensures Reflects(a, c, a', c) && Bounds(a, c, a', c)
  {
    hide Tail, Doubled;
    forall x | IsVector(x)
      ensures Tail(a'[r], x, c) == Tail(a[c], x, c) && Tail(a'[c], x, c) == Tail(a[r], x, c)
    {
      TailAgrees(a'[r], a[c], x, x, c);
      TailAgrees(a'[c], a[r], x, x, c);
    }
    assert Min(r, c) == c == Min(c, c);
    forall x, e | IsVector(x) && NearlyZero(a', c, x, e)
      ensures NearlyZero(a, c, x, e)
    {
      assert Abs(Tail(a'[r], x, c)) <= e && Abs(Tail(a'[c], x, c)) <= e;
    }
    forall x, e | IsVector(x) && Bounded(a, c, x, e)
      ensures Bounded(a', c, x, e)
    {
      assert Abs(Tail(a[r], x, Min(r, c))) <= Doubled(e, Min(r, c));
      assert Abs(Tail(a[c], x, Min(c, c))) <= Doubled(e, Min(c, c));
    }
  }

  /** A row before and after its reduction, at any vector. */
  lemma ReducedRow(row: seq<real>, br: real, pivot: seq<real>, bc: real, v: real, c: nat, row': seq<real>, br': real,
      x: seq<real>)
    requires IsVector(row) && IsVector(pivot) && IsVector(row') && IsVector(x) && c < SIZE
    requires RowReduced(row, br, pivot, bc, v, c, row', br')
    ensures Tail(row, x, c) == Tail(row', x, c + 1) + v * Tail(pivot, x, c)
  {
    hide Tail;
    TailUnfolds(row, x, c);
    TailUnfolds(pivot, x, c);
    TailCombines(row, pivot, row', v, x, c + 1);
    assert v * (pivot[c] * x[c] + Tail(pivot, x, c + 1)) == (v * pivot[c]) * x[c] + v * Tail(pivot, x, c + 1);
  }

  lemma ProductSign(a: real, b: real, w: real)
    requires 0.0 <= a && 0.0 <= b && w == a * b
    ensures 0.0 <= w && (0.0 < a && 0.0 < b ==> 0.0 < w)
  {
  }

  /** A factor is at most one in absolute value if the pivot is the largest entry. */
  lemma SmallFactor(v: real, p: real, q: real)
    requires v * p == q && Abs(q) <= Abs(p) && p != 0.0
    ensures Abs(v) <= 1.0
  {
    if v > 1.0 {
      if p > 0.0 { ProductSign(v - 1.0, p, q - p); } else { ProductSign(v - 1.0, -p, p - q); }
    } else if v < -1.0 {
      if p > 0.0 { ProductSign(-1.0 - v, p, -p - q); } else { ProductSign(-1.0 - v, -p, p + q); }
    }
  }

  lemma TwiceAtMost(t: real, v: real, u: real, w: real, m: real)
    requires w == v * u && Abs(t) <= m && Abs(u) <= m && Abs(v) <= 1.0
    ensures Abs(t - w) <= 2.0 * m
  {
    if u >= 0.0 {
      ProductSign(1.0 - v, u, u - w);
      ProductSign(1.0 + v, u, u + w);
    } else {
      ProductSign(1.0 - v, -u, w - u);
      ProductSign(1.0 + v, -u, -u - w);
    }
  }

  /** With a pivot that is the largest entry, a bound at most doubles. */
  lemma ReducedRowBounded(row: seq<real>, br: real, pivot: seq<real>, bc: real, v: real, c: nat, row': seq<real>,
      br': real, x: seq<real>, m: real)
    requires IsVector(row) && IsVector(pivot) && IsVector(row') && IsVector(x) && c < SIZE
    requires RowReduced(row, br, pivot, bc, v, c, row', br')
    requires pivot[c] != 0.0 && Abs(row[c]) <= Abs(pivot[c])
    requires Abs(Tail(row, x, c)) <= m && Abs(Tail(pivot, x, c)) <= m
    ensures Abs(Tail(row', x, c + 1)) <= 2.0 * m
  {
    hide Tail;
    SmallFactor(v, pivot[c], row[c]);
    ReducedRow(row, br, pivot, bc, v, c, row', br', x);
    var t, u, t' := Tail(row, x, c), Tail(pivot, x, c), Tail(row', x, c + 1);
    TwiceAtMost(t, v, u, t - t', m);
  }

  lemma ReducedRowNearlyZero(row: seq<real>, br: real, pivot: seq<real>, bc: real, v: real, c: nat, row': seq<real>,
      br': real, x: seq<real>)
    requires IsVector(row) && IsVector(pivot) && IsVector(row') && IsVector(x) && c < SIZE
    requires RowReduced(row, br, pivot, bc, v, c, row', br')
    requires Tail(pivot, x, c) == 0.0
    ensures Tail(row, x, c) == Tail(row', x, c + 1)
  {
    hide Tail;
    ReducedRow(row, br, pivot, bc, v, c, row', br', x);
  }

  lemma EliminationReflects(a: Matrix, b: seq<real>, c: nat, vs: seq<real>, a': Matrix, b': seq<real>)
    requires IsMatrix(a) && IsVector(b) && IsMatrix(a') && IsVector(b') && c < SIZE && IsVector(vs)
    requires Eliminated(a, b, c, vs, a', b')
    ensures Reflects(a, c, a', c + 1)
  {
    hide Tail, RowReduced;
    forall x, e | IsVector(x) && NearlyZero(a', c + 1, x, e)
      ensures NearlyZero(a, c, x, e)
    {
      assert a'[c] == a[c] && Tail(a'[c], x, c) == 0.0;
      forall r | c < r < SIZE
        ensures Abs(Tail(a[r], x, c)) <= e
      {
        ReducedRowNearlyZero(a[r], b[r], a[c], b[c], vs[r], c, a'[r], b'[r], x);
      }
    }
  }

  lemma EliminationBounds(a: Matrix, b: seq<real>, c: nat, vs: seq<real>, a': Matrix, b': seq<real>)
    requires IsMatrix(a) && IsVector(b) && IsMatrix(a') && IsVector(b') && c < SIZE && IsVector(vs)
    requires Eliminated(a, b, c, vs, a', b')
    requires a[c][c] != 0.0 && forall r | c <= r < SIZE :: Abs(a[r][c]) <= Abs(a[c][c])
    ensures Bounds(a, c, a', c + 1)
  {
    hide Tail, RowReduced;
    forall x, e | IsVector(x) && Bounded(a, c, x, e)
      ensures Bounded(a', c + 1, x, e)
    {
      assert Abs(Tail(a[c], x, Min(c, c))) <= Doubled(e, Min(c, c));
      forall r | 0 <= r < SIZE
        ensures Abs(Tail(a'[r], x, Min(r, c + 1))) <= Doubled(e, Min(r, c + 1))
      {
        assert Abs(Tail(a[r], x, Min(r, c))) <= Doubled(e, Min(r, c));
        if c < r {
          ReducedRowBounded(a[r], b[r], a[c], b[c], vs[r], c, a'[r], b'[r], x, Doubled(e, c));
        }
      }
    }
  }

  // ---------------------------------------------------------------- a small pivot means a nearly singular system

  lemma Quotient(t: real, d: real) returns (q: real)
    requires d != 0.0
    ensures d * q == t
  {
    q := t / d;
  }

  /** Entry `c` is one, the later ones are zero, and rows `lo`..`c` - 1 are satisfied by back substitution. */
  lemma {:induction false} BackFill(a: Matrix, c: nat, lo: nat) returns (z: seq<real>)
    requires IsMatrix(a) && lo <= c < SIZE
    requires forall r | 0 <= r < c :: a[r][r] != 0.0
    ensures IsVector(z) && z[c] == 1.0 && forall k | c < k < SIZE :: z[k] == 0.0
    ensures forall r | lo <= r < c :: Tail(a[r], z, r) == 0.0
    decreases c - lo
  {
    hide Tail;
    if lo == c {
      z := Zeros()[c := 1.0];
    } else {
      var y := BackFill(a, c, lo + 1);
      var q := Quotient(-Tail(a[lo], y, lo + 1), a[lo][lo]);
      z := y[lo := q];
      forall r | lo < r < c
        ensures Tail(a[r], z, r) == 0.0
      {
        TailAgrees(a[r], a[r], y, z, r);
      }
      TailAgrees(a[lo], a[lo], y, z, lo + 1);
      TailUnfolds(a[lo], z, lo);
    }
  }

  lemma {:induction false} TailOfZeros(row: seq<real>, z: seq<real>, lo: nat)
    requires IsVector(row) && IsVector(z) && lo <= SIZE
    requires forall k | lo <= k < SIZE :: z[k] == 0.0
    ensures Tail(row, z, lo) == 0.0
    decreases SIZE - lo
  {
    hide Tail;
    if lo == SIZE {
      TailEnds(row, z);
    } else {
      TailOfZeros(row, z, lo + 1);
      TailUnfolds(row, z, lo);
    }
  }

  /** If no remaining row has an entry above `eps` in column `c`, back substitution from that column gives a vector that
      the matrix at the start nearly maps to zero. */
  lemma SmallPivotIsNearlySingular(a0: Matrix, a: Matrix, c: nat, eps: real)
    requires IsMatrix(a0) && IsMatrix(a) && c < SIZE && 0.0 <= eps
    requires Reflects(a0, 0, a, c)
    requires forall r | 0 <= r < c :: a[r][r] != 0.0
    requires forall r | c <= r < SIZE :: Abs(a[r][c]) <= eps
    ensures NearlySingular(a0, eps)
  {
    hide Tail;
    var z := BackFill(a, c, 0);
    forall r | c <= r < SIZE
      ensures Tail(a[r], z, c) == a[r][c]
    {
      TailOfZeros(a[r], z, c + 1);
      TailUnfolds(a[r], z, c);
    }
    assert EndsAt(z, c) && NearlyZero(a, c, z, eps);
  }

  /** If all pivots are above `eps`, the matrix at the start maps no vector that ends with a one nearly to zero. */
  lemma LargePivotsAreRobust(a0: Matrix, a: Matrix, eps: real)
    requires IsMatrix(a0) && IsMatrix(a)
    requires Bounds(a0, 0, a, SIZE - 1)
    requires forall r | 0 <= r < SIZE :: Abs(a[r][r]) > eps
    ensures Robust(a0, eps)
  {
    hide Tail;
    forall x, k: nat, e | EndsAt(x, k) && NearlyZero(a0, 0, x, e)
      ensures eps < Doubled(e, k)
    {
      assert Doubled(e, 0) == e;
      assert forall r | 0 <= r < SIZE :: Min(r, 0) == 0;
      assert Bounded(a0, 0, x, e);
      TailOfZeros(a[k], x, k + 1);
      TailUnfolds(a[k], x, k);
      assert Min(k, SIZE - 1) == k;
    }
  }

  // ---------------------------------------------------------------- triangular systems

  lemma Cancels(d: real, x: real, y: real)
    requires d != 0.0 && d * x == d * y
    ensures x == y
  {
    assert d * (x - y) == 0.0;
  }

  /** A triangular system with non-zero diagonal has at most one solution. */
  lemma {:induction false} TriangularUnique(a: Matrix, b: seq<real>, x: seq<real>, y: seq<real>, lo: nat)
    requires IsMatrix(a) && IsVector(b) && IsVector(x) && IsVector(y) && lo <= SIZE
    requires forall r | 0 <= r < SIZE :: a[r][r] != 0.0
    requires forall r | lo <= r < SIZE :: Tail(a[r], x, r) == b[r] && Tail(a[r], y, r) == b[r]
    ensures forall k | lo <= k < SIZE :: x[k] == y[k]
    decreases SIZE - lo
  {
    hide Tail;
    if lo < SIZE {
      TriangularUnique(a, b, x, y, lo + 1);
      TailAgrees(a[lo], a[lo], x, y, lo + 1);
      TailUnfolds(a[lo], x, lo);
      TailUnfolds(a[lo], y, lo);
      Cancels(a[lo][lo], x[lo], y[lo]);
    }
  }

  /** What solves the triangle is the only solution of the system it was made from. */
  lemma TriangularSolution(a0: Matrix, b0: seq<real>, a: Matrix, b: seq<real>, x: seq<real>)
    requires IsMatrix(a0) && IsVector(b0) && IsMatrix(a) && IsVector(b) && IsVector(x)
    requires SameSolutions(a0, b0, 0, a, b, SIZE - 1)
    requires forall r | 0 <= r < SIZE :: a[r][r] != 0.0
    requires Solves(a, b, SIZE - 1, x)
    ensures IsSolution(a0, b0, x)
    ensures forall y | IsSolution(a0, b0, y) :: y == x
  {
    hide Tail;
    forall y | IsSolution(a0, b0, y)
      ensures y == x
    {
      assert Solves(a, b, SIZE - 1, y);
      assert forall r | 0 <= r < SIZE :: Tail(a[r], y, Min(r, SIZE - 1)) == b[r];
      TriangularUnique(a, b, x, y, 0);
    }
  }

  /** When a system has exactly one solution, its matrix is not singular. */
  lemma UniqueSolutionMeansRegular(a: Matrix, b: seq<real>, x: seq<real>)
    requires IsMatrix(a) && IsVector(b) && IsSolution(a, b, x)
    requires forall y | IsSolution(a, b, y) :: y == x
    ensures !Singular(a)
  {
    hide Tail;
    forall z | IsSolution(a, Zeros(), z)
      ensures z == Zeros()
    {
      var y := seq(SIZE, k requires 0 <= k < SIZE => x[k] + z[k]);
      forall r | 0 <= r < SIZE
        ensures Tail(a[r], y, 0) == b[r]
      {
        TailDiffers(a[r], x, y, z, 0);
        assert Tail(a[r], z, Min(r, 0)) == 0.0;
        assert Tail(a[r], x, Min(r, 0)) == b[r];
      }
      assert IsSolution(a, b, y);
      assert forall k | 0 <= k < SIZE :: y[k] == x[k] + z[k] && y[k] == x[k];
      assert z == Zeros();
    }
  }

  // ---------------------------------------------------------------- the solver

  /** The rows of a matrix that is stored as a[column, row]. */
  ghost function Rows(a: array2<real>): (m: Matrix)
    requires a.Length0 == SIZE && a.Length1 == SIZE
    reads a
    ensures IsMatrix(m)
    ensures forall r, k | 0 <= r < SIZE && 0 <= k < SIZE :: m[r][k] == a[k, r]
  {
    seq(SIZE, r requires 0 <= r < SIZE reads a =>
      seq(SIZE, k requires 0 <= k < SIZE reads a => a[k, r]))
  }

  /** The row at or below the diagonal with the largest absolute value in column `c`. */
  method FindPivot(a: array2<real>, c: nat) returns (r: nat, v: real)
    requires a.Length0 == SIZE && a.Length1 == SIZE && c < SIZE
    ensures forall i | c <= i < SIZE :: Abs(a[c, i]) <= v
    ensures 0.0 <= v
    ensures 0.0 < v ==> c <= r < SIZE && Abs(a[c, r]) == v
  {
    r, v := 0, 0.0;
    for i := c to SIZE
      invariant forall j | c <= j < i :: Abs(a[c, j]) <= v
      invariant 0.0 <= v
      invariant 0.0 < v ==> c <= r < SIZE && Abs(a[c, r]) == v
    {
      var vi := Abs(a[c, i]);
      if v < vi {
        v, r := vi, i;
      }
    }
  }

  method SwapRows(a: array2<real>, b: array<real>, c: nat, r: nat)
    requires a.Length0 == SIZE && a.Length1 == SIZE && b.Length == SIZE && c < r < SIZE
    modifies a, b
    ensures forall k, i | 0 <= k < SIZE && 0 <= i < SIZE ::
              a[k, i] == old(a[k, if k < c then i else if i == r then c else if i == c then r else i])
    ensures forall i | 0 <= i < SIZE :: b[i] == old(b[if i == r then c else if i == c then r else i])
  {
    for i := c to SIZE
      invariant forall k, j | 0 <= k < SIZE && 0 <= j < SIZE ::
                  a[k, j] == old(a[k, if k < c || i <= k then j else if j == r then c else if j == c then r else j])
      invariant b[..] == old(b[..])
    {
      a[i, r], a[i, c] := a[i, c], a[i, r];
    }
    b[r], b[c] := b[c], b[r];
  }

  method Divide(t: real, d: real) returns (q: real)
    requires d != 0.0
    ensures q * d == t
  {
    q := t / d;
  }

  /** Eliminates column `c` from row `r`, leaving a(c, r) itself as it was. */
  method ReduceRow(a: array2<real>, b: array<real>, c: nat, r: nat) returns (ghost v: real)
    requires a.Length0 == SIZE && a.Length1 == SIZE && b.Length == SIZE && c < r < SIZE && a[c, c] != 0.0
    modifies a, b
    ensures forall i, j | 0 <= i < SIZE && 0 <= j < SIZE && (i != r || j <= c) :: a[j, i] == old(a[j, i])
    ensures forall i | 0 <= i < SIZE && i != r :: b[i] == old(b[i])
    ensures RowReduced(old(Rows(a)[r]), old(b[r]), old(Rows(a)[c]), old(b[c]), v, c, Rows(a)[r], b[r])
  {
    var w := Divide(a[c, r], a[c, c]);
    b[r] := b[r] - w * b[c];
    for k := c + 1 to SIZE
      invariant b[r] == old(b[r]) - w * old(b[c]) && forall i | 0 <= i < SIZE && i != r :: b[i] == old(b[i])
      invariant forall i, j | 0 <= i < SIZE && 0 <= j < SIZE && (i != r || j <= c || k <= j) :: a[j, i] == old(a[j, i])
      invariant forall j | c < j < k :: a[j, r] == old(a[j, r]) - w * old(a[j, c])
    {
      a[k, r] := a[k, r] - w * a[k, c];
    }
    v := w;
  }

  method EliminateColumn(a: array2<real>, b: array<real>, c: nat) returns (ghost vs: seq<real>)
    requires a.Length0 == SIZE && a.Length1 == SIZE && b.Length == SIZE && c < SIZE && a[c, c] != 0.0
    modifies a, b
    ensures IsVector(vs) && Eliminated(old(Rows(a)), old(b[..]), c, vs, Rows(a), b[..])
  {
    hide RowReduced;
    ghost var a0, b0 := Rows(a), b[..];
    vs := Zeros();
    for r := c + 1 to SIZE
      invariant IsVector(vs)
      invariant forall i | 0 <= i < SIZE && (i <= c || r <= i) :: Rows(a)[i] == a0[i] && b[i] == b0[i]
      invariant forall i | c < i < r :: RowReduced(a0[i], b0[i], a0[c], b0[c], vs[i], c, Rows(a)[i], b[i])
    {
      label before:
      assert Rows(a)[c] == a0[c] && Rows(a)[r] == a0[r];
      ghost var v := ReduceRow(a, b, c, r);
      vs := vs[r := v];
      assert forall i | 0 <= i < SIZE && i != r :: Rows(a)[i] == old@before(Rows(a))[i];
    }
    assert forall r | 0 <= r <= c :: Rows(a)[r] == a0[r];
  }

  /** One step of the elimination: moves the pivot row `r` up and clears the column below it. */
  method ReduceColumn(a: array2<real>, b: array<real>, c: nat, r: nat, v: real)
    requires a.Length0 == SIZE && a.Length1 == SIZE && b.Length == SIZE && c <= r < SIZE
    requires Abs(a[c, r]) == v && v > 0.0
    requires forall i | c <= i < SIZE :: Abs(a[c, i]) <= v
    modifies a, b
    ensures SameSolutions(old(Rows(a)), old(b[..]), c, Rows(a), b[..], c + 1)
    ensures Reflects(old(Rows(a)), c, Rows(a), c + 1) && Bounds(old(Rows(a)), c, Rows(a), c + 1)
    ensures forall i | 0 <= i < c :: a[i, i] == old(a[i, i])
    ensures Abs(a[c, c]) == v
  {
    hide Tail;
    ghost var a1, b1 := Rows(a), b[..];
    if r != c {
      SwapRows(a, b, c, r);
    }
    ghost var a2, b2 := Rows(a), b[..];
    assert Swapped(a1, b1, c, r, a2, b2) by {
      assert forall i | 0 <= i < SIZE && i != r && i != c :: a2[i] == a1[i];
    }
    SwapKeepsSolutions(a1, b1, c, r, a2, b2);
    SwapResidual(a1, b1, c, r, a2, b2);
    ghost var vs := EliminateColumn(a, b, c);
    ghost var a3, b3 := Rows(a), b[..];
    EliminationKeepsSolutions(a2, b2, c, vs, a3, b3);
    EliminationReflects(a2, b2, c, vs, a3, b3);
    EliminationBounds(a2, b2, c, vs, a3, b3);
    ResidualsCompose(a1, c, a2, c, a3, c + 1);
    assert forall i | 0 <= i <= c :: a3[i] == a2[i];
  }

  lemma SolvedRow(row: seq<real>, x: seq<real>, r: nat, rest: real)
    requires IsVector(row) && IsVector(x) && r < SIZE
    requires x[r] * row[r] == rest
    ensures Tail(row, x, r) == rest + Tail(row, x, r + 1)
  {
    hide Tail;
    TailUnfolds(row, x, r);
  }

  /** Finishes one row of the back substitution: `rest` is its right-hand side without the known terms. */
  method SubstituteRow(a: array2<real>, b: array<real>, x: array<real>, r: nat, rest: real)
    requires a.Length0 == SIZE && a.Length1 == SIZE && b.Length == SIZE && x.Length == SIZE && x != b
    requires r < SIZE && a[r, r] != 0.0
    requires rest == b[r] - Tail(Rows(a)[r], x[..], r + 1)
    requires forall i | r < i < SIZE :: Tail(Rows(a)[i], x[..], i) == b[i]
    modifies x
    ensures forall i | r <= i < SIZE :: Tail(Rows(a)[i], x[..], i) == b[i]
  {
    hide Tail;
    ghost var m, x0 := Rows(a), x[..];
    x[r] := rest;
    x[r] := Divide(x[r], a[r, r]);
    SolvedRow(m[r], x[..], r, rest);
    TailAgrees(m[r], m[r], x0, x[..], r + 1);
    forall i | r < i < SIZE
      ensures Tail(m[i], x[..], i) == b[i]
    {
      TailAgrees(m[i], m[i], x0, x[..], i);
    }
  }

  /** The right-hand side of row `r` without the terms of the unknowns found so far, unrolled. */
  method KnownRest(a: array2<real>, b: array<real>, x: array<real>, r: nat) returns (rest: real)
    requires a.Length0 == SIZE && a.Length1 == SIZE && b.Length == SIZE && x.Length == SIZE && r < SIZE
    ensures rest == b[r] - Tail(Rows(a)[r], x[..], r + 1)
  {
    hide Tail;
    ghost var row, s := Rows(a)[r], x[..];
    match r
    case 5 =>
      rest := b[5];
      TailEnds(row, s);
    case 4 =>
      rest := b[4] - (a[5, 4] * x[5]);
      UnrolledTail(row, s, 5);
    case 3 =>
      rest := b[3] - (a[5, 3] * x[5]) - (a[4, 3] * x[4]);
      UnrolledTail(row, s, 4);
    case 2 =>
      rest := b[2] - (a[5, 2] * x[5]) - (a[4, 2] * x[4]) - (a[3, 2] * x[3]);
      UnrolledTail(row, s, 3);
    case 1 =>
      rest := b[1] - (a[5, 1] * x[5]) - (a[4, 1] * x[4]) - (a[3, 1] * x[3]) - (a[2, 1] * x[2]);
      UnrolledTail(row, s, 2);
    case _ =>
      rest := b[0] - (a[5, 0] * x[5]) - (a[4, 0] * x[4]) - (a[3, 0] * x[3]) - (a[2, 0] * x[2]) - (a[1, 0] * x[1]);
      UnrolledTail(row, s, 1);
  }

  method BackSubstitute(a: array2<real>, b: array<real>, x: array<real>)
    requires a.Length0 == SIZE && a.Length1 == SIZE && b.Length == SIZE && x.Length == SIZE && x != b
    requires forall i | 0 <= i < SIZE :: a[i, i] != 0.0
    modifies x
    ensures Solves(Rows(a), b[..], SIZE - 1, x[..])
  {
    hide Tail;
    for r := SIZE downto 0
      invariant forall i | r <= i < SIZE :: Tail(Rows(a)[i], x[..], i) == b[i]
    {
      var rest := KnownRest(a, b, x, r);
      SubstituteRow(a, b, x, r, rest);
    }
  }

  /** A row tail written out, last column first. */
  lemma {:induction false} UnrolledTail(row: seq<real>, x: seq<real>, lo: nat)
    requires IsVector(row) && IsVector(x) && 1 <= lo < SIZE
    ensures Tail(row, x, 5) == row[5] * x[5]
    ensures lo <= 4 ==> Tail(row, x, 4) == row[5] * x[5] + row[4] * x[4]
    ensures lo <= 3 ==> Tail(row, x, 3) == row[5] * x[5] + row[4] * x[4] + row[3] * x[3]
    ensures lo <= 2 ==> Tail(row, x, 2) == row[5] * x[5] + row[4] * x[4] + row[3] * x[3] + row[2] * x[2]
    ensures lo <= 1 ==> Tail(row, x, 1) == row[5] * x[5] + row[4] * x[4] + row[3] * x[3] + row[2] * x[2] + row[1] * x[1]
  {
    hide Tail;
    TailEnds(row, x);
    TailUnfolds(row, x, 5);
    TailUnfolds(row, x, 4);
    TailUnfolds(row, x, 3);
    TailUnfolds(row, x, 2);
    TailUnfolds(row, x, 1);
  }

  /** Brings the system into triangular form, or gives up on a pivot that is not above `eps`. */
  method ToTriangle(a: array2<real>, b: array<real>, eps: real) returns (ok: bool)
    requires a.Length0 == SIZE && a.Length1 == SIZE && b.Length == SIZE && eps >= 0.0
    modifies a, b
    ensures ok ==> SameSolutions(old(Rows(a)), old(b[..]), 0, Rows(a), b[..], SIZE - 1)
    ensures ok ==> Robust(old(Rows(a)), eps) && forall i | 0 <= i < SIZE :: a[i, i] != 0.0
    ensures !ok ==> NearlySingular(old(Rows(a)), eps)
  {
    hide Tail, Reflects, Bounds, SameSolutions;
    ghost var A, B := Rows(a), b[..];
    NothingDone(A, B);
    for c := 0 to SIZE - 1
      invariant SameSolutions(A, B, 0, Rows(a), b[..], c)
      invariant Reflects(A, 0, Rows(a), c) && Bounds(A, 0, Rows(a), c)
      invariant forall i | 0 <= i < c :: Abs(a[i, i]) > eps
    {
      var r, v := FindPivot(a, c);
      if v <= eps {
        SmallPivotIsNearlySingular(A, Rows(a), c, eps);
        return false;
      }
      ghost var m, d := Rows(a), b[..];
      ReduceColumn(a, b, c, r, v);
      StepsCompose(A, B, m, d, c, Rows(a), b[..]);
    }
    // the last column has no elimination step of its own
    if Abs(a[5, 5]) <= eps {
      SmallPivotIsNearlySingular(A, Rows(a), 5, eps);
      return false;
    }
    LargePivotsAreRobust(A, Rows(a), eps);
    return true;
  }

  lemma NothingDone(a: Matrix, b: seq<real>)
    requires IsMatrix(a) && IsVector(b)
    ensures SameSolutions(a, b, 0, a, b, 0) && Reflects(a, 0, a, 0) && Bounds(a, 0, a, 0)
  {
  }

  lemma ResidualsCompose(a0: Matrix, c0: nat, a: Matrix, c: nat, a': Matrix, c': nat)
    requires IsMatrix(a0) && IsMatrix(a) && IsMatrix(a') && c0 <= SIZE && c <= SIZE && c' <= SIZE
    requires Reflects(a0, c0, a, c) && Reflects(a, c, a', c')
    requires Bounds(a0, c0, a, c) && Bounds(a, c, a', c')
    ensures Reflects(a0, c0, a', c') && Bounds(a0, c0, a', c')
  {
    hide NearlyZero, Bounded;
  }

  lemma StepsCompose(a0: Matrix, b0: seq<real>, a: Matrix, b: seq<real>, c: nat, a': Matrix, b': seq<real>)
    requires IsMatrix(a0) && IsVector(b0) && IsMatrix(a) && IsVector(b) && IsMatrix(a') && IsVector(b') && c < SIZE
    requires SameSolutions(a0, b0, 0, a, b, c) && SameSolutions(a, b, c, a', b', c + 1)
    requires Reflects(a0, 0, a, c) && Reflects(a, c, a', c + 1)
    requires Bounds(a0, 0, a, c) && Bounds(a, c, a', c + 1)
    ensures SameSolutions(a0, b0, 0, a', b', c + 1) && Reflects(a0, 0, a', c + 1) && Bounds(a0, 0, a', c + 1)
  {
    hide Solves;
    ResidualsCompose(a0, 0, a, c, a', c + 1);
  }

  /** Solves a * x = b. On success `x` is the only solution of the given system. It fails only for matrices that are
      singular up to the threshold, and succeeds only for ones that are regular by the threshold; with a threshold of
      zero, it fails exactly for singular ones. */
  method GeSolve(a0: array2<real>, b0: array<real>, eps: real, x: array<real>) returns (ok: bool)
    requires a0.Length0 == SIZE && a0.Length1 == SIZE && b0.Length == SIZE && x.Length == SIZE
    requires b0 != x && eps >= 0.0
    modifies x
    ensures ok ==> IsSolution(Rows(a0), b0[..], x[..])
    ensures ok ==> forall y | IsSolution(Rows(a0), b0[..], y) :: y == x[..]
    ensures ok ==> Robust(Rows(a0), eps) && !Singular(Rows(a0))
    ensures !ok ==> NearlySingular(Rows(a0), eps)
    ensures eps == 0.0 ==> (ok <==> !Singular(Rows(a0)))
  {
    hide Tail, Robust, NearlySingular;
    // both arguments are passed by value
    var a := new real[SIZE, SIZE]((k, r) requires 0 <= k < SIZE && 0 <= r < SIZE reads a0 => a0[k, r]);
    var b := new real[SIZE](i requires 0 <= i < SIZE reads b0 => b0[i]);
    ghost var A, B := Rows(a0), b0[..];
    assert forall r | 0 <= r < SIZE :: Rows(a)[r] == A[r];
    assert Rows(a) == A;
    assert b[..] == B;
    ZeroThreshold(A);

    var regular := ToTriangle(a, b, eps);
    if !regular {
      return false;
    }
    BackSubstitute(a, b, x);
    TriangularSolution(A, B, Rows(a), b[..], x[..]);
    UniqueSolutionMeansRegular(A, B, x[..]);
    return true;
  }
}
