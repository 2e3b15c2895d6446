/** Points of the plane, squared distance, linear interpolation between two
    bounds, and the bounding box that the loader keeps up to date while it
    reads samples. */
module Geometry {

  /** A sample or a mean (raylib's Vector2), with real coordinates. */
  datatype Point = Point(x: real, y: real)

  /** The largest finite single-precision value (FLT_MAX). The engine uses it
      only as a sentinel: the starting value of the bounding box and the
      "no candidate" distance of the silhouette score. */
  const FltMax: real := 340282346638528859811704183484516925440.0

  /** A sample whose coordinates a single-precision float can hold. */
  predicate InFloatRange(p: Point) {
    -FltMax <= p.x <= FltMax && -FltMax <= p.y <= FltMax
  }

  /** Squared Euclidean distance between p and q: the length squared of p - q. */
  function SqDist(p: Point, q: Point): real {
    (p.x - q.x) * (p.x - q.x) + (p.y - q.y) * (p.y - q.y)
  }

  lemma ProductPositive(a: real, b: real)
    requires a > 0.0 && b > 0.0
    ensures a * b > 0.0
  {
  }

  lemma ProductNonNegative(a: real, b: real)
    requires a >= 0.0 && b >= 0.0
    ensures a * b >= 0.0
  {
    if a > 0.0 && b > 0.0 {
      ProductPositive(a, b);
    }
  }

  /** `lerpf(r, lo, hi)`: the point at fraction r of the way from lo to hi. */
  function Lerp(r: real, lo: real, hi: real): real {
    r * (hi - lo) + lo
  }

  /** For r in [0, 1] and lo <= hi, `lerpf` stays within [lo, hi]. */
  lemma LerpBounds(r: real, lo: real, hi: real)
    ensures 0.0 <= r <= 1.0 && lo <= hi ==> lo <= Lerp(r, lo, hi) <= hi
  {
    if 0.0 <= r <= 1.0 && lo <= hi {
      ProductNonNegative(r, hi - lo);
      ProductNonNegative(1.0 - r, hi - lo);
    }
  }

  /** Two draws of the random source, one per axis, that replace rand_float(). */
  datatype Draw = Draw(rx: real, ry: real)

  /** Both draws lie in [0, 1], as rand() / RAND_MAX does. */
  predicate IsUnit(d: Draw) {
    0.0 <= d.rx <= 1.0 && 0.0 <= d.ry <= 1.0
  }

  /** The global min_x, max_x, min_y and max_y. */
  datatype Box = Box(minX: real, maxX: real, minY: real, maxY: real)

  /** The box before any sample is seen: min at FLT_MAX, max at -FLT_MAX. */
  const NoBox: Box := Box(FltMax, -FltMax, FltMax, -FltMax)

  predicate Contains(b: Box, p: Point) {
    b.minX <= p.x <= b.maxX && b.minY <= p.y <= b.maxY
  }

  /** The box is non-empty on both axes. */
  predicate Proper(b: Box) {
    b.minX <= b.maxX && b.minY <= b.maxY
  }

  /** A random point of the box: each coordinate is `lerpf` of a draw
      between the box's bounds on that axis. */
  function DrawIn(d: Draw, b: Box): (m: Point)
    ensures IsUnit(d) && Proper(b) ==> Contains(b, m)
  {
    LerpBounds(d.rx, b.minX, b.maxX);
    LerpBounds(d.ry, b.minY, b.maxY);
    Point(Lerp(d.rx, b.minX, b.maxX), Lerp(d.ry, b.minY, b.maxY))
  }

  /** One step of the loader's running min/max: each bound moves only when
      the sample lies strictly beyond it. */
  function Extend(b: Box, p: Point): (e: Box)
    ensures Contains(e, p)
    ensures e.minX <= b.minX && b.maxX <= e.maxX && e.minY <= b.minY && b.maxY <= e.maxY
  {
    Box(if p.x < b.minX then p.x else b.minX,
        if p.x > b.maxX then p.x else b.maxX,
        if p.y < b.minY then p.y else b.minY,
        if p.y > b.maxY then p.y else b.maxY)
  }

  /** The box after the loader has seen every sample of ps, in order,
      starting from b. */
  function Fold(b: Box, ps: seq<Point>): (r: Box)
    ensures forall i :: 0 <= i < |ps| ==> Contains(r, ps[i])
    ensures r.minX <= b.minX && b.maxX <= r.maxX && r.minY <= b.minY && b.maxY <= r.maxY
  {
    if ps == [] then b else Extend(Fold(b, ps[..|ps| - 1]), ps[|ps| - 1])
  }

  /** Each bound of the folded box is its starting value or the coordinate
      of some sample: the fold is the exact minimum and maximum, no looser. */
  lemma {:induction false} FoldTight(b: Box, ps: seq<Point>)
    ensures var r := Fold(b, ps);
      && (r.minX == b.minX || exists i :: 0 <= i < |ps| && r.minX == ps[i].x)
      && (r.maxX == b.maxX || exists i :: 0 <= i < |ps| && r.maxX == ps[i].x)
      && (r.minY == b.minY || exists i :: 0 <= i < |ps| && r.minY == ps[i].y)
      && (r.maxY == b.maxY || exists i :: 0 <= i < |ps| && r.maxY == ps[i].y)
  {
    if ps != [] {
      var init := ps[..|ps| - 1];
      FoldTight(b, init);
      forall i | 0 <= i < |init| ensures init[i] == ps[i] { }
    }
  }

  /** Loading a non-empty list of float samples into a fresh box yields a
      proper box whose every bound is the coordinate of a sample. */
  lemma LoadedBox(ps: seq<Point>)
    requires ps != []
    requires forall i :: 0 <= i < |ps| ==> InFloatRange(ps[i])
    ensures var r := Fold(NoBox, ps);
      && Proper(r)
      && (exists i :: 0 <= i < |ps| && r.minX == ps[i].x)
      && (exists i :: 0 <= i < |ps| && r.maxX == ps[i].x)
      && (exists i :: 0 <= i < |ps| && r.minY == ps[i].y)
      && (exists i :: 0 <= i < |ps| && r.maxY == ps[i].y)
  {
    var r := Fold(NoBox, ps);
    FoldTight(NoBox, ps);
    assert Contains(r, ps[0]);
    if r.minX == NoBox.minX { assert r.minX == ps[0].x; }
    if r.maxX == NoBox.maxX { assert r.maxX == ps[0].x; }
    if r.minY == NoBox.minY { assert r.minY == ps[0].y; }
    if r.maxY == NoBox.maxY { assert r.maxY == ps[0].y; }
  }
}
