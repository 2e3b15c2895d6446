/** The mean update: a non-empty cluster's mean becomes the average of its
    samples, an empty cluster's mean is redrawn inside the bounding box. */
module Centroids {
  import opened Geometry

  /** Sum of the x coordinates of c, added in order. */
  function SumX(c: seq<Point>): real {
    if c == [] then 0.0 else SumX(c[..|c| - 1]) + c[|c| - 1].x
  }

  /** Sum of the y coordinates of c, added in order. */
  function SumY(c: seq<Point>): real {
    if c == [] then 0.0 else SumY(c[..|c| - 1]) + c[|c| - 1].y
  }

  /** The component-wise average of a non-empty cluster. */
  function Centroid(c: seq<Point>): Point
    requires |c| > 0
  {
    Point(SumX(c) / |c| as real, SumY(c) / |c| as real)
  }

  /** The mean a cluster gets from one update: its centroid when it has
      samples, otherwise a fresh draw inside the box. */
  function NewMean(c: seq<Point>, d: Draw, b: Box): Point {
    if |c| > 0 then Centroid(c) else DrawIn(d, b)
  }

  /** v added to itself n times. */
  function Times(n: nat, v: real): real {
    if n == 0 then 0.0 else Times(n - 1, v) + v
  }

  /** A box that holds every sample of c bounds each coordinate sum by
      |c| copies of the box's bounds on that axis. */
  lemma {:induction false} SumBounds(c: seq<Point>, b: Box)
    requires forall i :: 0 <= i < |c| ==> Contains(b, c[i])
    ensures Times(|c|, b.minX) <= SumX(c) <= Times(|c|, b.maxX)
    ensures Times(|c|, b.minY) <= SumY(c) <= Times(|c|, b.maxY)
  {
    if c != [] {
      var init := c[..|c| - 1];
      forall i | 0 <= i < |init| ensures Contains(b, init[i]) {
        assert init[i] == c[i];
      }
      SumBounds(init, b);
      assert Contains(b, c[|c| - 1]);
    }
  }

  lemma {:induction false} TimesIsProduct(n: nat, v: real)
    ensures Times(n, v) == n as real * v
  {
    if n > 0 {
      TimesIsProduct(n - 1, v);
      assert (n - 1) as real * v + v == n as real * v;
    }
  }

  /** A number between n copies of lo and n copies of hi, divided by n,
      lies between lo and hi. */
  lemma AverageBounds(sum: real, n: nat, lo: real, hi: real)
    requires n > 0
    requires Times(n, lo) <= sum <= Times(n, hi)
    ensures lo <= sum / n as real <= hi
  {
    TimesIsProduct(n, lo);
    TimesIsProduct(n, hi);
    var m := n as real;
    var q := sum / m;
    assert q * m == sum;
    if q < lo {
      ProductPositive(lo - q, m);
      assert false;
    }
    if hi < q {
      ProductPositive(q - hi, m);
      assert false;
    }
  }

  /** The centroid lies in every box that holds the cluster. */
  lemma CentroidInBox(c: seq<Point>, b: Box)
    requires |c| > 0
    requires forall i :: 0 <= i < |c| ==> Contains(b, c[i])
    ensures Contains(b, Centroid(c))
  {
    SumBounds(c, b);
    AverageBounds(SumX(c), |c|, b.minX, b.maxX);
    AverageBounds(SumY(c), |c|, b.minY, b.maxY);
  }

  /** The centroid lies within the cluster's own extent: on each axis some
      sample of the cluster is at or below it and some sample at or above it. */
  lemma CentroidWithinCluster(c: seq<Point>)
    requires |c| > 0
    ensures exists i :: 0 <= i < |c| && c[i].x <= Centroid(c).x
    ensures exists i :: 0 <= i < |c| && Centroid(c).x <= c[i].x
    ensures exists i :: 0 <= i < |c| && c[i].y <= Centroid(c).y
    ensures exists i :: 0 <= i < |c| && Centroid(c).y <= c[i].y
  {
    var first := Box(c[0].x, c[0].x, c[0].y, c[0].y);
    var own := Fold(first, c);
    FoldTight(first, c);
    CentroidInBox(c, own);
    if own.minX == first.minX { assert c[0].x == own.minX; }
    if own.maxX == first.maxX { assert c[0].x == own.maxX; }
    if own.minY == first.minY { assert c[0].y == own.minY; }
    if own.maxY == first.maxY { assert c[0].y == own.maxY; }
  }

  /** The centroid is the one point about which the cluster's deviations
      sum to zero on both axes. */
  lemma CentroidBalances(c: seq<Point>, m: Point)
    requires |c| > 0
    ensures (SumX(c) - |c| as real * m.x == 0.0 && SumY(c) - |c| as real * m.y == 0.0) <==> m == Centroid(c)
  {
  }

  /** After an update the mean lies in the box, whether the cluster was
      averaged or redrawn, as long as the box holds the cluster's samples,
      is proper, and the draws are in [0, 1]. */
  lemma NewMeanInBox(c: seq<Point>, d: Draw, b: Box)
    requires forall i :: 0 <= i < |c| ==> Contains(b, c[i])
    requires Proper(b) && IsUnit(d)
    ensures Contains(b, NewMean(c, d, b))
  {
    if |c| > 0 {
      CentroidInBox(c, b);
    }
  }
}
