/** The weights as they are computed, from half of the exponential of the form, compared with the weights of the fitted
    curves, from the exponential of half of the form. */
module WeightCurves {
  import opened Geometry
  import opened LinearSolver
  import opened GaussianFit
  import opened WeightMaps

  /** A product; kept apart so that proofs about sums need not look into it. */
  ghost function Times(a: real, b: real): real {
    a * b
  }

  /** The two laws of the exponential function that matter here. */
  ghost predicate IsExponential(exp: real -> real) {
    && (forall t :: exp(t) > 0.0)
    && (forall t :: exp(t + t) == Times(exp(t), exp(t)))
  }

  /** The height of the fitted curve at a pixel, relative to its top. */
  ghost function Height(s: Shape, g: Grid, iy: int, ix: int): real
    requires g.rows > 0 && g.cols > 0
  {
    g.exp(-s.prec.Form(Centred(ix, g.cols) - s.meanX, Centred(iy, g.rows) - s.meanY) / 2.0)
  }

  /** The fitted curve at a pixel. */
  ghost function Curve(s: Shape, g: Grid, iy: int, ix: int): real
    requires g.rows > 0 && g.cols > 0
  {
    Times(s.scale, Height(s, g, iy, ix))
  }

  ghost function CurveTotal(s: seq<Shape>, g: Grid, iy: int, ix: int): real
    requires g.rows > 0 && g.cols > 0
  {
    if s == [] then 0.0
    else CurveTotal(s[..|s| - 1], g, iy, ix) + if Covers(s[|s| - 1], iy, ix) then Curve(s[|s| - 1], g, iy, ix) else 0.0
  }

  /** `v` are the shares of the fitted curves at a pixel. */
  ghost predicate CurveShares(s: seq<Shape>, g: Grid, iy: int, ix: int, v: seq<real>)
    requires g.rows > 0 && g.cols > 0 && |v| == |s|
  {
    var t := CurveTotal(s, g, iy, ix);
    forall i | 0 <= i < |s| && Covers(s[i], iy, ix) ::
      if t > 0.0 then Times(v[i], t) == Curve(s[i], g, iy, ix) else v[i] == Curve(s[i], g, iy, ix)
  }

  /** The Gaussian takes part at the pixel with a positive value. */
  ghost predicate TakesPart(s: Shape, iy: int, ix: int) {
    Covers(s, iy, ix) && s.scale > 0.0
  }

  /** All Gaussians that take part have the same height at the pixel. */
  ghost predicate SameHeight(s: seq<Shape>, g: Grid, iy: int, ix: int)
    requires g.rows > 0 && g.cols > 0
  {
    forall i, j | 0 <= i < |s| && 0 <= j < |s| && TakesPart(s[i], iy, ix) && TakesPart(s[j], iy, ix) ::
      Height(s[i], g, iy, ix) == Height(s[j], g, iy, ix)
  }

  /** The value that is computed is the curve times half of its height. */
  lemma ValueByHeight(s: Shape, g: Grid, iy: int, ix: int)
    requires g.rows > 0 && g.cols > 0 && IsExponential(g.exp)
    ensures Value(s, g, iy, ix) == Times(Curve(s, g, iy, ix), Height(s, g, iy, ix) / 2.0)
    ensures Height(s, g, iy, ix) > 0.0
  {
    hide Precision.Form, Centred;
    var f := s.prec.Form(Centred(ix, g.cols) - s.meanX, Centred(iy, g.rows) - s.meanY);
    var h := g.exp(-f / 2.0);
    assert -f / 2.0 + -f / 2.0 == -f;
    assert g.exp(-f) == Times(h, h);
    HalfSquare(s.scale, h, g.exp(-f));
  }

  lemma HalfSquare(a: real, h: real, e: real)
    requires e == Times(h, h)
    ensures a * (e / 2.0) == Times(Times(a, h), h / 2.0)
  {
  }

  lemma CurveSign(s: Shape, g: Grid, iy: int, ix: int)
    requires g.rows > 0 && g.cols > 0 && IsExponential(g.exp)
    ensures s.scale > 0.0 ==> Curve(s, g, iy, ix) > 0.0
    ensures s.scale == 0.0 ==> Curve(s, g, iy, ix) == 0.0 && Value(s, g, iy, ix) == 0.0
  {
    hide Precision.Form, Centred, Height;
    ValueByHeight(s, g, iy, ix);
    ProductSign(s.scale, Height(s, g, iy, ix));
    ProductSign(Curve(s, g, iy, ix), Height(s, g, iy, ix) / 2.0);
  }

  lemma ProductSign(a: real, b: real)
    requires b > 0.0
    ensures a > 0.0 ==> Times(a, b) > 0.0
    ensures a == 0.0 ==> Times(a, b) == 0.0
    ensures Times(a, b) > 0.0 ==> a > 0.0
  {
    if a <= 0.0 {
      NotPositive(a, b);
    }
  }

  lemma NotPositive(a: real, b: real)
    requires a <= 0.0 && b > 0.0
    ensures Times(a, b) <= 0.0
  {
  }

  /** Values that are all the same multiple of the curves add up to that multiple. */
  lemma {:induction false} TotalsScale(s: seq<Shape>, g: Grid, iy: int, ix: int, f: real)
    requires g.rows > 0 && g.cols > 0
    requires forall i | 0 <= i < |s| && Covers(s[i], iy, ix) ::
              Value(s[i], g, iy, ix) == Times(Curve(s[i], g, iy, ix), f)
    ensures Total(s, g, iy, ix) == Times(CurveTotal(s, g, iy, ix), f)
  {
    hide Value, Curve, Times;
    if s == [] {
      TimesZero(f);
    } else {
      var n := |s| - 1;
      TotalsScale(s[..n], g, iy, ix, f);
      TimesSum(CurveTotal(s[..n], g, iy, ix), Curve(s[n], g, iy, ix), f);
    }
  }

  lemma TimesZero(f: real)
    ensures Times(0.0, f) == 0.0
  {
  }

  lemma TimesSum(a: real, b: real, f: real)
    ensures Times(a + b, f) == Times(a, f) + Times(b, f)
  {
  }

  lemma {:induction false} CurveTotalDominates(s: seq<Shape>, g: Grid, iy: int, ix: int, i: nat)
    requires g.rows > 0 && g.cols > 0 && Positive(s, g) && IsExponential(g.exp)
    ensures CurveTotal(s, g, iy, ix) >= 0.0
    ensures i < |s| && Covers(s[i], iy, ix) ==> 0.0 <= Curve(s[i], g, iy, ix) <= CurveTotal(s, g, iy, ix)
  {
    hide Curve, IsExponential;
    if s != [] {
      var n := |s| - 1;
      CurveTotalDominates(s[..n], g, iy, ix, i);
      if s[n].valid {
        CurveSign(s[n], g, iy, ix);
      }
    }
  }

  lemma {:induction false} NothingTotal(s: seq<Shape>, g: Grid, iy: int, ix: int)
    requires g.rows > 0 && g.cols > 0
    requires forall i | 0 <= i < |s| && Covers(s[i], iy, ix) ::
              Value(s[i], g, iy, ix) == 0.0 && Curve(s[i], g, iy, ix) == 0.0
    ensures Total(s, g, iy, ix) == 0.0 && CurveTotal(s, g, iy, ix) == 0.0
  {
    hide Value, Curve;
    if s != [] {
      NothingTotal(s[..|s| - 1], g, iy, ix);
    }
  }

  /** Without Gaussians that take part, both weights are zero. */
  lemma NobodyTakesPart(s: seq<Shape>, g: Grid, iy: int, ix: int, w: seq<real>, v: seq<real>)
    requires g.rows > 0 && g.cols > 0 && |w| == |v| == |s| && Positive(s, g) && IsExponential(g.exp)
    requires Normalised(s, g, iy, ix, w) && CurveShares(s, g, iy, ix, v)
    requires forall i | 0 <= i < |s| :: !TakesPart(s[i], iy, ix)
    ensures forall i | 0 <= i < |s| && Covers(s[i], iy, ix) :: w[i] == v[i]
  {
    hide Value, Curve, IsExponential, Total, CurveTotal;
    forall i | 0 <= i < |s| && Covers(s[i], iy, ix)
      ensures Value(s[i], g, iy, ix) == 0.0 && Curve(s[i], g, iy, ix) == 0.0
    {
      CurveSign(s[i], g, iy, ix);
    }
    NothingTotal(s, g, iy, ix);
  }

  lemma Proportional(w: real, v: real, t: real, c: real, f: real, value: real, curve: real)
    requires c > 0.0 && f > 0.0 && t == Times(c, f) && value == Times(curve, f)
    requires w * t == value && Times(v, c) == curve
    ensures w == v
  {
    assert t * w == t * v;
    ProductSign(c, f);
    Cancels(t, w, v);
  }

  /** With the same height, values and totals are the same multiple of the curves, so the shares agree. */
  lemma SameHeightSameShares(s: seq<Shape>, g: Grid, iy: int, ix: int, w: seq<real>, v: seq<real>, k: nat)
    requires g.rows > 0 && g.cols > 0 && |w| == |v| == |s| && Positive(s, g) && IsExponential(g.exp)
    requires Normalised(s, g, iy, ix, w) && CurveShares(s, g, iy, ix, v)
    requires k < |s| && TakesPart(s[k], iy, ix) && SameHeight(s, g, iy, ix)
    ensures forall i | 0 <= i < |s| && Covers(s[i], iy, ix) :: w[i] == v[i]
  {
    hide Value, Curve, IsExponential, Total, CurveTotal, Height, Times;
    var f := Height(s[k], g, iy, ix) / 2.0;
    ValueByHeight(s[k], g, iy, ix);
    forall i | 0 <= i < |s| && Covers(s[i], iy, ix)
      ensures Value(s[i], g, iy, ix) == Times(Curve(s[i], g, iy, ix), f)
    {
      ValueByHeight(s[i], g, iy, ix);
      CurveSign(s[i], g, iy, ix);
      TimesZero(f);
      assert s[i].scale > 0.0 ==> TakesPart(s[i], iy, ix);
    }
    TotalsScale(s, g, iy, ix, f);
    var t, c := Total(s, g, iy, ix), CurveTotal(s, g, iy, ix);
    CurveTotalDominates(s, g, iy, ix, k);
    CurveSign(s[k], g, iy, ix);
    ProductSign(c, f);
    forall i | 0 <= i < |s| && Covers(s[i], iy, ix)
      ensures w[i] == v[i]
    {
      Proportional(w[i], v[i], t, c, f, Value(s[i], g, iy, ix), Curve(s[i], g, iy, ix));
    }
  }

  lemma RatioOfTotals(w: real, t: real, c: real, f: real, value: real, curve: real)
    requires w * t == value && value == Times(curve, f) && Times(w, c) == curve && curve > 0.0 && c > 0.0
    ensures t == Times(c, f)
  {
    ProductSign(w, c);
    assert w * t == w * Times(c, f);
    Cancels(w, t, Times(c, f));
  }

  lemma SameFactor(c: real, f: real, e: real)
    requires c > 0.0 && Times(c, f) == Times(c, e)
    ensures f == e
  {
    Cancels(c, f, e);
  }

  /** The height of a Gaussian whose shares agree is twice the ratio of the totals. */
  lemma AgreeingShare(s: seq<Shape>, g: Grid, iy: int, ix: int, w: seq<real>, v: seq<real>, i: nat)
    requires g.rows > 0 && g.cols > 0 && |w| == |v| == |s| && Positive(s, g) && IsExponential(g.exp)
    requires Normalised(s, g, iy, ix, w) && CurveShares(s, g, iy, ix, v)
    requires i < |s| && TakesPart(s[i], iy, ix) && w[i] == v[i]
    ensures CurveTotal(s, g, iy, ix) > 0.0
    ensures Total(s, g, iy, ix) == Times(CurveTotal(s, g, iy, ix), Height(s[i], g, iy, ix) / 2.0)
  {
    hide Value, Curve, IsExponential, Total, CurveTotal, Height, Times;
    ValueByHeight(s[i], g, iy, ix);
    CurveSign(s[i], g, iy, ix);
    CurveTotalDominates(s, g, iy, ix, i);
    PositiveTotal(s, g, iy, ix, i);
    RatioOfTotals(w[i], Total(s, g, iy, ix), CurveTotal(s, g, iy, ix), Height(s[i], g, iy, ix) / 2.0,
                  Value(s[i], g, iy, ix), Curve(s[i], g, iy, ix));
  }

  lemma PositiveTotal(s: seq<Shape>, g: Grid, iy: int, ix: int, i: nat)
    requires g.rows > 0 && g.cols > 0 && Positive(s, g) && i < |s| && TakesPart(s[i], iy, ix)
    ensures Total(s, g, iy, ix) > 0.0
  {
    hide Value, Total;
    CoveredPixelHasTotal(s, g, iy, ix, i);
  }

  /** The weights at a pixel are the shares of the fitted curves exactly if all Gaussians that take part have the same
      height there. */
  lemma WeightsAreCurveShares(s: seq<Shape>, g: Grid, iy: int, ix: int, w: seq<real>, v: seq<real>)
    requires g.rows > 0 && g.cols > 0 && |w| == |v| == |s| && Positive(s, g) && IsExponential(g.exp)
    requires Normalised(s, g, iy, ix, w) && CurveShares(s, g, iy, ix, v)
    ensures (forall i | 0 <= i < |s| && Covers(s[i], iy, ix) :: w[i] == v[i]) <==> SameHeight(s, g, iy, ix)
  {
    hide Value, Curve, IsExponential, Total, CurveTotal, Height, Times, Positive, Normalised, CurveShares;
    if SameHeight(s, g, iy, ix) {
      if k: nat :| k < |s| && TakesPart(s[k], iy, ix) {
        SameHeightSameShares(s, g, iy, ix, w, v, k);
      } else {
        NobodyTakesPart(s, g, iy, ix, w, v);
      }
    }
    if forall i | 0 <= i < |s| && Covers(s[i], iy, ix) :: w[i] == v[i] {
      forall i, j | 0 <= i < |s| && 0 <= j < |s| && TakesPart(s[i], iy, ix) && TakesPart(s[j], iy, ix)
        ensures Height(s[i], g, iy, ix) == Height(s[j], g, iy, ix)
      {
        AgreeingShare(s, g, iy, ix, w, v, i);
        AgreeingShare(s, g, iy, ix, w, v, j);
        SameFactor(CurveTotal(s, g, iy, ix), Height(s[i], g, iy, ix) / 2.0, Height(s[j], g, iy, ix) / 2.0);
      }
    }
  }

  // ---------------------------------------------------------------- an example

  /** A round Gaussian over a whole heatmap of four by four pixels. */
  function Round(meanX: real): Shape {
    Shape(true, 1.0, meanX, 0.0, Precision(1.0, 0.0, 0.0, 1.0), Box(0, 0, 3, 3))
  }

  /** Two overlapping Gaussians, one of them closer to the pixel: the weights are not the shares of the curves. */
  lemma UnevenWeights(exp: real -> real, w: seq<real>, v: seq<real>)
    requires IsExponential(exp) && (forall a, b | a < b :: exp(a) < exp(b)) && |w| == |v| == 2
    requires Normalised([Round(0.0), Round(1.0)], Grid(4, 4, exp), 2, 2, w)
    requires CurveShares([Round(0.0), Round(1.0)], Grid(4, 4, exp), 2, 2, v)
    ensures w[0] != v[0] || w[1] != v[1]
  {
    hide Height, Normalised, CurveShares, IsExponential, Value, Curve, Total, CurveTotal, Round;
    var s, g := [Round(0.0), Round(1.0)], Grid(4, 4, exp);
    RoundHeight(0.0, exp);
    RoundHeight(1.0, exp);
    assert exp(-1.0 / 2.0) < exp(-0.0 / 2.0);
    NotNegative(s, g);
    assert TakesPart(s[0], 2, 2) && TakesPart(s[1], 2, 2);
    assert Height(s[0], g, 2, 2) != Height(s[1], g, 2, 2);
    WeightsAreCurveShares(s, g, 2, 2, w, v);
    assert forall i | 0 <= i < |s| && Covers(s[i], 2, 2) && w[0] == v[0] && w[1] == v[1] :: w[i] == v[i];
  }

  lemma NotNegative(s: seq<Shape>, g: Grid)
    requires |s| == 2 && s[0] == Round(0.0) && s[1] == Round(1.0) && IsExponential(g.exp)
    ensures Positive(s, g)
  {
  }

  lemma RoundHeight(meanX: real, exp: real -> real)
    requires meanX == 0.0 || meanX == 1.0
    ensures Height(Round(meanX), Grid(4, 4, exp), 2, 2) == exp(-meanX / 2.0)
    ensures TakesPart(Round(meanX), 2, 2)
  {
    hide Precision.Form;
    assert Centred(2, 4) == 0.0;
    FormAt(Precision(1.0, 0.0, 0.0, 1.0), meanX);
  }

  lemma FormAt(p: Precision, m: real)
    requires p == Precision(1.0, 0.0, 0.0, 1.0) && (m == 0.0 || m == 1.0)
    ensures p.Form(0.0 - m, 0.0) == m
  {
  }
}
