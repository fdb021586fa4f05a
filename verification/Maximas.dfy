/** Local maxima of a heatmap. Pixels of equal value are told apart by their position: the code lets a pixel
    win against equal neighbours that come later in column-major order. */
module Maximas {
  import opened Geometry

  ghost predicate InGrid(data: array2<real>, p: Point) {
    0 <= p.x < data.Length1 && 0 <= p.y < data.Length0
  }

  /** Earlier in column-major order. */
  predicate Earlier(p: Point, q: Point) {
    p.x < q.x || (p.x == q.x && p.y < q.y)
  }

  /** The strict total order on pixels: by value, then by position. */
  ghost predicate Beats(data: array2<real>, p: Point, q: Point)
    requires InGrid(data, p) && InGrid(data, q)
    reads data
  {
    data[p.y, p.x] > data[q.y, q.x] || (data[p.y, p.x] == data[q.y, q.x] && Earlier(p, q))
  }

  /** One of the eight surrounding pixels. */
  predicate Adjacent(p: Point, q: Point) {
    p != q && -1 <= q.x - p.x <= 1 && -1 <= q.y - p.y <= 1
  }

  ghost predicate IsMaximum(data: array2<real>, threshold: real, p: Point)
    reads data
  {
    && InGrid(data, p) && data[p.y, p.x] > threshold
    && forall q | InGrid(data, q) && Adjacent(p, q) :: Beats(data, p, q)
  }

  /** Earlier in the order in which the pixels are scanned, row by row. */
  predicate Scanned(p: Point, y: int, x: int) {
    p.y < y || (p.y == y && p.x < x)
  }

  /** Exactly the local maxima before a position, in scan order and without repetition. */
  ghost predicate AreMaximas(data: array2<real>, threshold: real, maximas: seq<Point>, y: int, x: int)
    reads data
  {
    && (forall i | 0 <= i < |maximas| :: IsMaximum(data, threshold, maximas[i]) && Scanned(maximas[i], y, x))
    && (forall p | IsMaximum(data, threshold, p) && Scanned(p, y, x) :: p in maximas)
    && (forall i, j | 0 <= i < j < |maximas| :: Scanned(maximas[i], maximas[j].y, maximas[j].x))
  }

  /** Compares a pixel with its neighbours, the way the eight cases are written out in the code. */
  method IsLocalMaximum(data: array2<real>, x: int, y: int) returns (max: bool)
    requires InGrid(data, Point(x, y))
    ensures max <==> forall q | InGrid(data, q) && Adjacent(Point(x, y), q) :: Beats(data, Point(x, y), q)
  {
    var value := data[y, x];
    var can_up, can_down := y > 0, y < data.Length0 - 1;
    var can_left, can_right := x > 0, x < data.Length1 - 1;
    max := true;
    if can_left {
      max := max && data[y, x - 1] < value;
    }
    if can_right {
      max := max && data[y, x + 1] <= value;
    }
    if can_up {
      max := max && data[y - 1, x] < value;
      if can_left {
        max := max && data[y - 1, x - 1] < value;
      }
      if can_right {
        max := max && data[y - 1, x + 1] <= value;
      }
    }
    if can_down {
      max := max && data[y + 1, x] <= value;
      if can_left {
        max := max && data[y + 1, x - 1] < value;
      }
      if can_right {
        max := max && data[y + 1, x + 1] <= value;
      }
    }
    EightNeighbours(data, x, y);
  }

  /** The neighbours one by one. */
  lemma EightNeighbours(data: array2<real>, x: int, y: int)
    requires InGrid(data, Point(x, y))
    ensures (forall q | InGrid(data, q) && Adjacent(Point(x, y), q) :: Beats(data, Point(x, y), q)) <==>
            && (x > 0 ==> data[y, x - 1] < data[y, x])
            && (x < data.Length1 - 1 ==> data[y, x + 1] <= data[y, x])
            && (y > 0 ==> data[y - 1, x] < data[y, x])
            && (y > 0 && x > 0 ==> data[y - 1, x - 1] < data[y, x])
            && (y > 0 && x < data.Length1 - 1 ==> data[y - 1, x + 1] <= data[y, x])
            && (y < data.Length0 - 1 ==> data[y + 1, x] <= data[y, x])
            && (y < data.Length0 - 1 && x > 0 ==> data[y + 1, x - 1] < data[y, x])
            && (y < data.Length0 - 1 && x < data.Length1 - 1 ==> data[y + 1, x + 1] <= data[y, x])
  {
    var p := Point(x, y);
    if forall q | InGrid(data, q) && Adjacent(p, q) :: Beats(data, p, q) {
      assert x > 0 ==> Adjacent(p, Point(x - 1, y)) && InGrid(data, Point(x - 1, y));
      assert x < data.Length1 - 1 ==> Adjacent(p, Point(x + 1, y)) && InGrid(data, Point(x + 1, y));
      assert y > 0 ==> Adjacent(p, Point(x, y - 1)) && InGrid(data, Point(x, y - 1));
      assert y > 0 && x > 0 ==> Adjacent(p, Point(x - 1, y - 1)) && InGrid(data, Point(x - 1, y - 1));
      assert y > 0 && x < data.Length1 - 1 ==> Adjacent(p, Point(x + 1, y - 1)) && InGrid(data, Point(x + 1, y - 1));
      assert y < data.Length0 - 1 ==> Adjacent(p, Point(x, y + 1)) && InGrid(data, Point(x, y + 1));
      assert y < data.Length0 - 1 && x > 0 ==> Adjacent(p, Point(x - 1, y + 1)) && InGrid(data, Point(x - 1, y + 1));
      assert y < data.Length0 - 1 && x < data.Length1 - 1 ==>
          Adjacent(p, Point(x + 1, y + 1)) && InGrid(data, Point(x + 1, y + 1));
    }
  }

  /** Finds all local maxima above the threshold. */
  method Find(data: array2<real>, threshold: real) returns (maximas: seq<Point>)
    ensures AreMaximas(data, threshold, maximas, data.Length0, 0)
  {
    maximas := [];
    for y := 0 to data.Length0
      invariant AreMaximas(data, threshold, maximas, y, 0)
    {
      for x := 0 to data.Length1
        invariant AreMaximas(data, threshold, maximas, y, x)
      {
        var max := data[y, x] > threshold;
        if max {
          max := IsLocalMaximum(data, x, y);
        }
        MaximasGrow(data, threshold, maximas, Point(x, y), max);
        if max {
          maximas := maximas + [Point(x, y)];
        }
      }
      RowDone(data, threshold, maximas, y);
    }
  }

  lemma MaximasGrow(data: array2<real>, threshold: real, maximas: seq<Point>, p: Point, max: bool)
    requires AreMaximas(data, threshold, maximas, p.y, p.x)
    requires max <==> IsMaximum(data, threshold, p)
    ensures AreMaximas(data, threshold, if max then maximas + [p] else maximas, p.y, p.x + 1)
  {
    hide IsMaximum;
    var grown := if max then maximas + [p] else maximas;
    forall q | IsMaximum(data, threshold, q) && Scanned(q, p.y, p.x + 1)
      ensures q in grown
    {
      assert q == p || Scanned(q, p.y, p.x);
    }
  }

  lemma RowDone(data: array2<real>, threshold: real, maximas: seq<Point>, y: int)
    requires AreMaximas(data, threshold, maximas, y, data.Length1)
    ensures AreMaximas(data, threshold, maximas, y + 1, 0)
  {
    forall p | IsMaximum(data, threshold, p) && Scanned(p, y + 1, 0)
      ensures p in maximas
    {
      assert InGrid(data, p);
      assert Scanned(p, y, data.Length1);
    }
  }

  // ---------------------------------------------------------------- what local maxima are good for

  /** The list contains exactly the local maxima. */
  lemma ExactlyTheMaximas(data: array2<real>, threshold: real, maximas: seq<Point>, p: Point)
    requires AreMaximas(data, threshold, maximas, data.Length0, 0)
    ensures p in maximas <==> IsMaximum(data, threshold, p)
  {
    if IsMaximum(data, threshold, p) {
      assert Scanned(p, data.Length0, 0);
    }
  }

  /** No two local maxima are adjacent. */
  lemma MaximasAreApart(data: array2<real>, threshold: real, p: Point, q: Point)
    requires IsMaximum(data, threshold, p) && IsMaximum(data, threshold, q)
    ensures !Adjacent(p, q)
  {
    if Adjacent(p, q) {
      assert Adjacent(q, p);
    }
  }

  /** The pixels that beat a pixel. */
  ghost function Beaters(data: array2<real>, p: Point): (s: set<Point>)
    requires InGrid(data, p)
    reads data
    ensures forall q :: q in s <==> InGrid(data, q) && Beats(data, q, p)
  {
    set x, y | 0 <= x < data.Length1 && 0 <= y < data.Length0 && Beats(data, Point(x, y), p) :: Point(x, y)
  }

  /** A path over adjacent pixels on which every pixel beats the one before it. */
  ghost predicate IsAscending(data: array2<real>, path: seq<Point>)
    reads data
  {
    && (forall i | 0 <= i < |path| :: InGrid(data, path[i]))
    && (forall i | 0 <= i < |path| - 1 :: Adjacent(path[i], path[i + 1]) && Beats(data, path[i + 1], path[i]))
  }

  /** From every pixel above the threshold an ascending path, never falling below the value of the pixel,
      leads to a local maximum. */
  lemma {:induction false} PathToMaximum(data: array2<real>, threshold: real, p: Point) returns (path: seq<Point>)
    requires InGrid(data, p) && data[p.y, p.x] > threshold
    ensures |path| > 0 && path[0] == p && IsAscending(data, path)
    ensures forall i | 0 <= i < |path| :: InGrid(data, path[i]) && data[path[i].y, path[i].x] >= data[p.y, p.x]
    ensures IsMaximum(data, threshold, path[|path| - 1])
    decreases Beaters(data, p)
  {
    if IsMaximum(data, threshold, p) {
      path := [p];
    } else {
      var q :| InGrid(data, q) && Adjacent(p, q) && !Beats(data, p, q);
      assert Beats(data, q, p);
      assert q in Beaters(data, p) && q !in Beaters(data, q) && Beaters(data, q) <= Beaters(data, p);
      var rest := PathToMaximum(data, threshold, q);
      path := [p] + rest;
    }
  }

  /** So if any pixel is above the threshold, a maximum is found. */
  lemma SomeMaximumIsFound(data: array2<real>, threshold: real, maximas: seq<Point>, p: Point)
    requires AreMaximas(data, threshold, maximas, data.Length0, 0)
    requires InGrid(data, p) && data[p.y, p.x] > threshold
    ensures maximas != []
  {
    var path := PathToMaximum(data, threshold, p);
    ExactlyTheMaximas(data, threshold, maximas, path[|path| - 1]);
  }
}
