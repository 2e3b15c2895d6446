/** The silhouette score of a clustering, as the engine computes it: a
    sample's cluster is found by comparing coordinates, `a` is its mean
    distance to the other samples of that cluster, `b` its smallest mean
    distance to another cluster (FLT_MAX standing for an empty cluster), and
    the score is the sum of (b - a) / max(a, b) over the samples divided by
    the number of samples.

    The distance is a parameter: the engine uses Euclidean distance through
    sqrtf, and the lemmas only need it to be a metric in the weak sense of
    IsMetric. */
module Silhouette {
  import opened Geometry
  import opened Assignment

  datatype Option<T> = None | Some(value: T)

  /** A single-precision result: a number, or the NaN that 0/0 produces. */
  datatype Score = Finite(value: real) | NaN

  /** Float addition: NaN absorbs. */
  function Add(s: Score, t: Score): Score {
    if s.Finite? && t.Finite? then Finite(s.value + t.value) else NaN
  }

  /** Float division by a positive count: NaN stays NaN. */
  function DivBy(s: Score, n: nat): Score
    requires n > 0
  {
    if s.Finite? then Finite(s.value / n as real) else NaN
  }

  /** fminf and fmaxf on numbers. */
  function Min(a: real, b: real): real { if a <= b then a else b }
  function Max(a: real, b: real): real { if a >= b then a else b }

  /** Euclidean distance's two properties that the score relies on:
      never negative, and zero exactly between equal points. */
  ghost predicate IsMetric(dist: (Point, Point) -> real) {
    forall p, q :: 0.0 <= dist(p, q) && (dist(p, q) == 0.0 <==> p == q)
  }

  /** The cluster of p: the lowest index whose list holds a point equal to
      p, or None when no cluster holds one. */
  function FindCluster(p: Point, cs: seq<seq<Point>>): (r: Option<nat>)
    ensures r.Some? ==> r.value < |cs| && p in cs[r.value]
    ensures r.Some? ==> forall j :: 0 <= j < r.value ==> p !in cs[j]
    ensures r.None? ==> forall j :: 0 <= j < |cs| ==> p !in cs[j]
  {
    if cs == [] then None
    else
      match FindCluster(p, cs[..|cs| - 1])
      case Some(k) => Some(k)
      case None => if p in cs[|cs| - 1] then Some(|cs| - 1) else None
  }

  /** Sum of the distances from p to the samples of c not equal to p. */
  function IntraSum(p: Point, c: seq<Point>, dist: (Point, Point) -> real): real {
    if c == [] then 0.0
    else
      var q := c[|c| - 1];
      IntraSum(p, c[..|c| - 1], dist) + (if q != p then dist(p, q) else 0.0)
  }

  /** Number of samples of c not equal to p. */
  function IntraCount(p: Point, c: seq<Point>): nat {
    if c == [] then 0
    else IntraCount(p, c[..|c| - 1]) + (if c[|c| - 1] != p then 1 else 0)
  }

  /** `a`: the mean distance from p to the samples of its cluster that are
      not equal to p; 0 when there are none. */
  function IntraMean(p: Point, c: seq<Point>, dist: (Point, Point) -> real): real {
    var n := IntraCount(p, c);
    if n > 0 then IntraSum(p, c, dist) / n as real else 0.0
  }

  /** Sum of the distances from p to every sample of c. */
  function DistSum(p: Point, c: seq<Point>, dist: (Point, Point) -> real): real {
    if c == [] then 0.0 else DistSum(p, c[..|c| - 1], dist) + dist(p, c[|c| - 1])
  }

  /** Mean distance from p to cluster c; FLT_MAX for an empty cluster. */
  function AvgDist(p: Point, c: seq<Point>, dist: (Point, Point) -> real): real {
    if |c| > 0 then DistSum(p, c, dist) / |c| as real else FltMax
  }

  /** `b`: starting from FLT_MAX, the smallest mean distance from p to a
      cluster other than own. It is at most FLT_MAX, at most the mean
      distance to every other cluster, and is FLT_MAX or one of them. */
  function NearestOther(p: Point, cs: seq<seq<Point>>, own: nat, dist: (Point, Point) -> real): (b: real)
    ensures b <= FltMax
    ensures forall k :: 0 <= k < |cs| && k != own ==> b <= AvgDist(p, cs[k], dist)
    ensures b == FltMax || exists k :: 0 <= k < |cs| && k != own && b == AvgDist(p, cs[k], dist)
  {
    if cs == [] then FltMax
    else
      var last := |cs| - 1;
      var prev := NearestOther(p, cs[..last], own, dist);
      assert forall k :: 0 <= k < last ==> cs[..last][k] == cs[k];
      if last == own then prev else Min(prev, AvgDist(p, cs[last], dist))
  }

  /** A sample's silhouette (b - a) / max(a, b); 0/0 gives NaN. */
  function PerPoint(a: real, b: real): Score {
    var m := Max(a, b);
    if m == 0.0 then NaN else Finite((b - a) / m)
  }

  /** The silhouette of p in clustering cs, or None when p is found in no
      cluster and is skipped. */
  function PointScore(p: Point, cs: seq<seq<Point>>, dist: (Point, Point) -> real): Option<Score> {
    match FindCluster(p, cs)
    case None => None
    case Some(own) =>
      Some(PerPoint(IntraMean(p, cs[own], dist), NearestOther(p, cs, own, dist)))
  }

  /** The running total over the samples of s, skipped samples adding nothing. */
  function Total(s: seq<Point>, cs: seq<seq<Point>>, dist: (Point, Point) -> real): Score {
    if s == [] then Finite(0.0)
    else
      var prev := Total(s[..|s| - 1], cs, dist);
      match PointScore(s[|s| - 1], cs, dist)
      case None => prev
      case Some(x) => Add(prev, x)
  }

  /** The score: the total divided by the number of samples (skipped ones
      included), 0 when there are no samples. */
  function SilhouetteScore(s: seq<Point>, cs: seq<seq<Point>>, dist: (Point, Point) -> real): Score {
    if |s| > 0 then DivBy(Total(s, cs, dist), |s|) else Finite(0.0)
  }

  /** A sample's silhouette lies in [-1, 1] whenever a and b are not
      negative and not both zero. */
  lemma PerPointBounds(a: real, b: real)
    requires a >= 0.0 && b >= 0.0 && Max(a, b) > 0.0
    ensures PerPoint(a, b).Finite?
    ensures -1.0 <= PerPoint(a, b).value <= 1.0
  {
    var m := Max(a, b);
    assert -m <= b - a <= m;
    DivideBounds(b - a, m);
  }

  lemma DivideBounds(x: real, m: real)
    requires m > 0.0 && -m <= x <= m
    ensures -1.0 <= x / m <= 1.0
  {
  }

  lemma {:induction false} IntraSumNonNegative(p: Point, c: seq<Point>, dist: (Point, Point) -> real)
    requires IsMetric(dist)
    ensures IntraSum(p, c, dist) >= 0.0
  {
    if c != [] {
      IntraSumNonNegative(p, c[..|c| - 1], dist);
      assert dist(p, c[|c| - 1]) >= 0.0;
    }
  }

  lemma {:induction false} DistSumNonNegative(p: Point, c: seq<Point>, dist: (Point, Point) -> real)
    requires IsMetric(dist)
    ensures DistSum(p, c, dist) >= 0.0
  {
    if c != [] {
      DistSumNonNegative(p, c[..|c| - 1], dist);
      assert dist(p, c[|c| - 1]) >= 0.0;
    }
  }

  /** `a` skips the samples equal to p and nothing else: its sum is the sum
      of distances to the whole cluster, and its count is the cluster's size
      less the number of copies of p in it. */
  lemma {:induction false} IntraAgainstWholeCluster(p: Point, c: seq<Point>, dist: (Point, Point) -> real)
    requires IsMetric(dist)
    ensures IntraSum(p, c, dist) == DistSum(p, c, dist)
    ensures IntraCount(p, c) + multiset(c)[p] == |c|
  {
    if c != [] {
      var init, q := c[..|c| - 1], c[|c| - 1];
      IntraAgainstWholeCluster(p, init, dist);
      assert c == init + [q];
      assert multiset(c) == multiset(init) + multiset{q};
      if q == p {
        assert dist(p, q) == 0.0;
      }
    }
  }

  /** A mean distance is never negative; FLT_MAX stands in for an empty
      cluster, never 0. */
  lemma AvgDistBounds(p: Point, c: seq<Point>, dist: (Point, Point) -> real)
    requires IsMetric(dist)
    ensures AvgDist(p, c, dist) >= 0.0
    ensures |c| == 0 ==> AvgDist(p, c, dist) == FltMax
  {
    DistSumNonNegative(p, c, dist);
  }

  lemma {:induction false} DistSumPositive(p: Point, c: seq<Point>, dist: (Point, Point) -> real)
    requires IsMetric(dist) && |c| > 0 && p !in c
    ensures DistSum(p, c, dist) > 0.0
  {
    var init, q := c[..|c| - 1], c[|c| - 1];
    assert q in c;
    assert dist(p, q) > 0.0;
    DistSumNonNegative(p, init, dist);
  }

  /** The mean distance from p to a cluster that holds no copy of p is
      positive. */
  lemma AvgDistPositive(p: Point, c: seq<Point>, dist: (Point, Point) -> real)
    requires IsMetric(dist) && p !in c
    ensures AvgDist(p, c, dist) > 0.0
  {
    if |c| > 0 {
      DistSumPositive(p, c, dist);
    }
  }

  /** With every other cluster empty, `b` stays at FLT_MAX: an empty
      cluster is never a candidate at distance 0. */
  lemma LoneClusterSentinel(p: Point, cs: seq<seq<Point>>, own: nat, dist: (Point, Point) -> real)
    requires forall k :: 0 <= k < |cs| && k != own ==> cs[k] == []
    ensures NearestOther(p, cs, own, dist) == FltMax
  {
  }

  /** `b` is not negative, and positive when no other cluster holds a copy
      of p. */
  lemma NearestOtherBounds(p: Point, cs: seq<seq<Point>>, own: nat, dist: (Point, Point) -> real)
    requires IsMetric(dist)
    ensures NearestOther(p, cs, own, dist) >= 0.0
    ensures (forall k :: 0 <= k < |cs| && k != own ==> p !in cs[k]) ==> NearestOther(p, cs, own, dist) > 0.0
  {
    var b := NearestOther(p, cs, own, dist);
    if b != FltMax {
      var k :| 0 <= k < |cs| && k != own && b == AvgDist(p, cs[k], dist);
      AvgDistBounds(p, cs[k], dist);
      if forall k :: 0 <= k < |cs| && k != own ==> p !in cs[k] {
        AvgDistPositive(p, cs[k], dist);
      }
    }
  }

  /** The sample is skipped, or it scores a number in [-1, 1]. */
  ghost predicate WellScored(p: Point, cs: seq<seq<Point>>, dist: (Point, Point) -> real) {
    match PointScore(p, cs, dist)
    case None => true
    case Some(x) => x.Finite? && -1.0 <= x.value <= 1.0
  }

  /** A sample found in a cluster and in no other one scores a number in
      [-1, 1]: 0/0 cannot happen because `b` is positive. */
  lemma UniqueClusterScores(p: Point, cs: seq<seq<Point>>, dist: (Point, Point) -> real)
    requires IsMetric(dist)
    requires FindCluster(p, cs).Some?
    requires forall k :: 0 <= k < |cs| && k != FindCluster(p, cs).value ==> p !in cs[k]
    ensures WellScored(p, cs, dist)
  {
    var own := FindCluster(p, cs).value;
    var a, b := IntraMean(p, cs[own], dist), NearestOther(p, cs, own, dist);
    IntraSumNonNegative(p, cs[own], dist);
    NearestOtherBounds(p, cs, own, dist);
    PerPointBounds(a, b);
  }

  /** When every sample is skipped or scores in [-1, 1], the total is a
      number no larger in size than the number of samples. */
  lemma {:induction false} TotalBounds(s: seq<Point>, cs: seq<seq<Point>>, dist: (Point, Point) -> real)
    requires forall i :: 0 <= i < |s| ==> WellScored(s[i], cs, dist)
    ensures Total(s, cs, dist).Finite?
    ensures -(|s| as real) <= Total(s, cs, dist).value <= |s| as real
  {
    if s != [] {
      var init := s[..|s| - 1];
      forall i | 0 <= i < |init| ensures WellScored(init[i], cs, dist) {
        assert init[i] == s[i];
      }
      TotalBounds(init, cs, dist);
      assert WellScored(s[|s| - 1], cs, dist);
    }
  }

  /** The score lies in [-1, 1] when every sample is skipped or scores in
      [-1, 1]. */
  lemma ScoreBounds(s: seq<Point>, cs: seq<seq<Point>>, dist: (Point, Point) -> real)
    requires forall i :: 0 <= i < |s| ==> WellScored(s[i], cs, dist)
    ensures SilhouetteScore(s, cs, dist).Finite?
    ensures -1.0 <= SilhouetteScore(s, cs, dist).value <= 1.0
  {
    TotalBounds(s, cs, dist);
    if |s| > 0 {
      var n := |s| as real;
      var t := Total(s, cs, dist).value;
      assert -n <= t <= n;
      DivideBounds(t, n);
    }
  }

  /** On the clusters that a reassignment pass builds, coordinate lookup
      finds each sample in the cluster of its nearest mean, no sample is
      skipped, and the score is a number in [-1, 1]: equal samples always
      share a cluster, so no 0/0 arises. */
  lemma ReclusteredScore(s: seq<Point>, ms: seq<Point>, cs: seq<seq<Point>>, dist: (Point, Point) -> real)
    requires IsMetric(dist)
    requires IsPartition(cs, s, ms)
    ensures forall i :: 0 <= i < |s| ==> FindCluster(s[i], cs) == Some(Nearest(s[i], ms))
    ensures SilhouetteScore(s, cs, dist).Finite?
    ensures -1.0 <= SilhouetteScore(s, cs, dist).value <= 1.0
  {
    forall i | 0 <= i < |s|
      ensures FindCluster(s[i], cs) == Some(Nearest(s[i], ms))
      ensures WellScored(s[i], cs, dist)
    {
      var p, own := s[i], Nearest(s[i], ms);
      MembersComplete(s, ms, i);
      forall k | 0 <= k < |cs| && k != own ensures p !in cs[k] {
        MembersSound(s, ms, k);
      }
      var r := FindCluster(p, cs);
      assert r.Some? && r.value == own;
      UniqueClusterScores(p, cs, dist);
    }
    ScoreBounds(s, cs, dist);
  }
}
