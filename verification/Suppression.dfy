/** Darkening the pixels around each local maximum, so that clusters of neighbouring contacts do not merge. */
module Suppression {
  import opened Geometry
  import opened Maximas

  function MinReal(a: real, b: real): real {
    if b < a then b else a
  }

  function Clamp(v: real, lo: real, hi: real): real {
    if v < lo then lo else if hi < v then hi else v
  }

  /** A darkened value; a negative value stays as it is. */
  function Dark(v: real, f: real): real {
    MinReal(v, v * f)
  }

  /** The pixel is within the given Euclidean distance of the point, and is not the point itself. */
  predicate Near(p: Point, q: Point, radius: int) {
    p != q && (q.x - p.x) * (q.x - p.x) + (q.y - p.y) * (q.y - p.y) <= radius * radius
  }

  /** The pixel is darkened: it is no maximum, but one is near. */
  ghost predicate IsDarkened(image: array2<real>, maximas: seq<Point>, radius: int, p: Point) {
    radius > 0 && p !in maximas && exists m :: m in maximas && InGrid(image, m) && Near(m, p, radius)
  }

  /** The value of a pixel after suppression, whatever the order of the maxima. */
  ghost function Suppressed(image: array2<real>, maximas: seq<Point>, radius: int, factor: real, p: Point): real
    requires InGrid(image, p)
    reads image
  {
    var v := image[p.y, p.x];
    if IsDarkened(image, maximas, radius, p) then Dark(v, Clamp(factor, 0.0, 1.0)) else v
  }

  /** What a value that is not negative is darkened to: its part by the factor, where factors are kept between zero and
      one. It is never brighter than before. */
  lemma DarkenedValue(v: real, factor: real)
    requires v >= 0.0
    ensures var d := Dark(v, Clamp(factor, 0.0, 1.0));
            && (0.0 <= factor <= 1.0 ==> d == v * factor)
            && (factor > 1.0 ==> d == v)
            && (factor < 0.0 ==> d == 0.0)
            && 0.0 <= d <= v
  {
    var f := Clamp(factor, 0.0, 1.0);
    PartOf(v, f, v * f);
  }

  lemma PartOf(v: real, f: real, w: real)
    requires v >= 0.0 && 0.0 <= f <= 1.0 && w == v * f
    ensures 0.0 <= w <= v
  {
    assert v * (1.0 - f) >= 0.0;
  }

  /** Order and repetition in the list of maxima do not matter. */
  lemma OrderIsIrrelevant(image: array2<real>, a: seq<Point>, b: seq<Point>, radius: int, factor: real, p: Point)
    requires InGrid(image, p) && forall m :: m in a <==> m in b
    ensures Suppressed(image, a, radius, factor, p) == Suppressed(image, b, radius, factor, p)
  {
  }

  // ---------------------------------------------------------------- the computation in place

  /** The darkening without the final restoring of the maxima. */
  ghost predicate DarkenedBy(image: array2<real>, maximas: seq<Point>, radius: int, f: real, out: array2<real>)
    requires out.Length0 == image.Length0 && out.Length1 == image.Length1
    reads image, out
  {
    forall y, x | 0 <= y < image.Length0 && 0 <= x < image.Length1 ::
      out[y, x] == if NearAny(image, maximas, radius, Point(x, y)) then Dark(image[y, x], f) else image[y, x]
  }

  ghost predicate NearAny(image: array2<real>, maximas: seq<Point>, radius: int, p: Point) {
    exists m :: m in maximas && InGrid(image, m) && Near(m, p, radius)
  }

  /** The offsets within the disk, without the centre. */
  method DiskOffsets(r: int) returns (offsets: seq<Point>)
    requires r > 0
    ensures forall o :: o in offsets <==> Near(Point(0, 0), o, r)
  {
    offsets := [];
    var dy := -r;
    while dy <= r
      invariant -r <= dy <= r + 1
      invariant forall o :: o in offsets <==> Near(Point(0, 0), o, r) && -r <= o.x <= r && -r <= o.y < dy
    {
      var dx := -r;
      while dx <= r
        invariant -r <= dx <= r + 1
        invariant forall o :: o in offsets <==>
                    Near(Point(0, 0), o, r) && -r <= o.x <= r && -r <= o.y && (o.y < dy || (o.y == dy && o.x < dx))
      {
        if !(dx == 0 && dy == 0) {
          if dx * dx + dy * dy <= r * r {
            offsets := offsets + [Point(dx, dy)];
          }
        }
        dx := dx + 1;
      }
      dy := dy + 1;
    }
    forall o | Near(Point(0, 0), o, r)
      ensures -r <= o.x <= r && -r <= o.y <= r
    {
      InDisk(o.x, o.y, r);
    }
  }

  lemma InDisk(x: int, y: int, r: int)
    requires r > 0 && x * x + y * y <= r * r
    ensures -r <= x <= r && -r <= y <= r
  {
    AtMost(x, y, r);
    AtMost(y, x, r);
  }

  lemma SquareGrows(a: int, b: int)
    requires a > b > 0
    ensures a * a > b * b
  {
    assert a * a > a * b > b * b;
  }

  lemma AtMost(x: int, y: int, r: int)
    requires r > 0 && x * x + y * y <= r * r
    ensures -r <= x <= r
  {
    assert y * y >= 0;
    if x > r {
      SquareGrows(x, r);
    }
    if x < -r {
      SquareGrows(-x, r);
    }
  }

  lemma NearByOffset(m: Point, p: Point, r: int)
    ensures Near(m, p, r) <==> Near(Point(0, 0), Point(p.x - m.x, p.y - m.y), r)
  {
  }

  lemma DarkenedAgain(v: real, f: real, target: real)
    requires target == v * f
    ensures MinReal(v, target) == Dark(v, f) && MinReal(Dark(v, f), target) == Dark(v, f)
  {
  }

  /** The pixel is at one of the offsets from the point. */
  ghost predicate At(offsets: seq<Point>, m: Point, y: int, x: int) {
    Point(x - m.x, y - m.y) in offsets
  }

  lemma OneMoreOffset(offsets: seq<Point>, k: nat, m: Point)
    requires k < |offsets|
    ensures forall y, x :: At(offsets[..k + 1], m, y, x) <==>
                           At(offsets[..k], m, y, x) || (y == m.y + offsets[k].y && x == m.x + offsets[k].x)
  {
    assert offsets[..k + 1] == offsets[..k] + [offsets[k]];
  }

  /** Darkens the pixels around one maximum; pixels darkened before stay as they are. */
  method DarkenAround(image: array2<real>, m: Point, offsets: seq<Point>, radius: int, f: real, out: array2<real>,
      ghost seen: seq<Point>)
    requires out != image && out.Length0 == image.Length0 && out.Length1 == image.Length1
    requires InGrid(image, m)
    requires forall o :: o in offsets <==> Near(Point(0, 0), o, radius)
    requires DarkenedBy(image, seen, radius, f, out)
    modifies out
    ensures DarkenedBy(image, seen + [m], radius, f, out)
  {
    hide Near, MinReal, Dark, NearAny, At;
    NoOffsets(m);
    for k := 0 to |offsets|
      invariant forall y, x | 0 <= y < image.Length0 && 0 <= x < image.Length1 ::
                  out[y, x] == if NearAny(image, seen, radius, Point(x, y)) || At(offsets[..k], m, y, x)
                               then Dark(image[y, x], f) else image[y, x]
    {
      var nx, ny := m.x + offsets[k].x, m.y + offsets[k].y;
      OneMoreOffset(offsets, k, m);
      if nx < 0 || ny < 0 || nx >= image.Length1 || ny >= image.Length0 {
        continue;
      }
      var target := image[ny, nx] * f;
      DarkenedAgain(image[ny, nx], f, target);
      out[ny, nx] := MinReal(out[ny, nx], target);
    }
    assert offsets[..|offsets|] == offsets;
    NearByOffsets(image, seen, m, offsets, radius);
  }

  lemma NoOffsets(m: Point)
    ensures forall y, x :: !At([], m, y, x)
  {
  }

  lemma NearByOffsets(image: array2<real>, seen: seq<Point>, m: Point, offsets: seq<Point>, radius: int)
    requires InGrid(image, m)
    requires forall o :: o in offsets <==> Near(Point(0, 0), o, radius)
    ensures forall y, x :: NearAny(image, seen + [m], radius, Point(x, y)) <==>
                           NearAny(image, seen, radius, Point(x, y)) || At(offsets, m, y, x)
  {
    hide Near, NearAny;
    forall y, x
      ensures NearAny(image, seen + [m], radius, Point(x, y)) <==>
              NearAny(image, seen, radius, Point(x, y)) || At(offsets, m, y, x)
    {
      NearByOffset(m, Point(x, y), radius);
      NearOneMore(image, seen, m, radius, Point(x, y));
    }
  }

  lemma NearOneMore(image: array2<real>, seen: seq<Point>, m: Point, radius: int, p: Point)
    ensures NearAny(image, seen + [m], radius, p) <==>
              NearAny(image, seen, radius, p) || (InGrid(image, m) && Near(m, p, radius))
  {
    hide Near;
    if NearAny(image, seen, radius, p) {
      var q :| q in seen && InGrid(image, q) && Near(q, p, radius);
      assert q in seen + [m];
    }
    if InGrid(image, m) && Near(m, p, radius) {
      assert m in seen + [m];
    }
  }

  method Restore(image: array2<real>, maximas: seq<Point>, out: array2<real>)
    requires out != image && out.Length0 == image.Length0 && out.Length1 == image.Length1
    modifies out
    ensures forall y, x | 0 <= y < image.Length0 && 0 <= x < image.Length1 ::
              out[y, x] == if Point(x, y) in maximas then image[y, x] else old(out[y, x])
  {
    for k := 0 to |maximas|
      invariant forall y, x | 0 <= y < image.Length0 && 0 <= x < image.Length1 ::
                  out[y, x] == if Point(x, y) in maximas[..k] then image[y, x] else old(out[y, x])
    {
      var p := maximas[k];
      assert maximas[..k + 1] == maximas[..k] + [p];
      if p.x < 0 || p.x >= image.Length1 || p.y < 0 || p.y >= image.Length0 {
        continue;
      }
      out[p.y, p.x] := image[p.y, p.x];
    }
    assert maximas[..|maximas|] == maximas;
  }

  method Copy(image: array2<real>, out: array2<real>)
    requires out != image && out.Length0 == image.Length0 && out.Length1 == image.Length1
    modifies out
    ensures forall y, x | 0 <= y < image.Length0 && 0 <= x < image.Length1 :: out[y, x] == image[y, x]
  {
    for y := 0 to image.Length0
      invariant forall v, u | 0 <= v < y && 0 <= u < image.Length1 :: out[v, u] == image[v, u]
    {
      for x := 0 to image.Length1
        invariant forall v, u | 0 <= v <= y && 0 <= u < image.Length1 && (v < y || u < x) :: out[v, u] == image[v, u]
      {
        out[y, x] := image[y, x];
      }
    }
  }

  /** Copies the image and darkens the pixels around each maximum. */
  method DarkenAroundMaximas(image: array2<real>, maximas: seq<Point>, radius: int, factor: real, out: array2<real>)
    requires out != image && out.Length0 == image.Length0 && out.Length1 == image.Length1
    modifies out
    ensures forall y, x | 0 <= y < image.Length0 && 0 <= x < image.Length1 ::
              out[y, x] == Suppressed(image, maximas, radius, factor, Point(x, y))
  {
    hide Near;
    Copy(image, out);
    if maximas == [] || radius <= 0 {
      return;
    }
    var f := Clamp(factor, 0.0, 1.0);
    if f >= 1.0 {
      FullFactor(image, maximas, radius, factor);
      return;
    }
    var offsets := DiskOffsets(radius);
    for k := 0 to |maximas|
      invariant DarkenedBy(image, maximas[..k], radius, f, out)
    {
      var p := maximas[k];
      assert maximas[..k + 1] == maximas[..k] + [p];
      if p.x < 0 || p.x >= image.Length1 || p.y < 0 || p.y >= image.Length0 {
        InvalidMaximum(image, maximas[..k], p, radius, f, out);
        continue;
      }
      DarkenAround(image, p, offsets, radius, f, out, maximas[..k]);
    }
    assert maximas[..|maximas|] == maximas;
    Restore(image, maximas, out);
  }

  lemma InvalidMaximum(image: array2<real>, seen: seq<Point>, p: Point, radius: int, f: real, out: array2<real>)
    requires out.Length0 == image.Length0 && out.Length1 == image.Length1
    requires DarkenedBy(image, seen, radius, f, out) && !InGrid(image, p)
    ensures DarkenedBy(image, seen + [p], radius, f, out)
  {
    hide Near;
    forall y, x | 0 <= y < image.Length0 && 0 <= x < image.Length1
      ensures NearAny(image, seen + [p], radius, Point(x, y)) <==> NearAny(image, seen, radius, Point(x, y))
    {
      NearOneMore(image, seen, p, radius, Point(x, y));
    }
  }

  lemma FullFactor(image: array2<real>, maximas: seq<Point>, radius: int, factor: real)
    requires Clamp(factor, 0.0, 1.0) >= 1.0
    ensures forall y, x | 0 <= y < image.Length0 && 0 <= x < image.Length1 ::
              Suppressed(image, maximas, radius, factor, Point(x, y)) == image[y, x]
  {
    hide Near, IsDarkened;
    assert Clamp(factor, 0.0, 1.0) == 1.0;
  }
}
