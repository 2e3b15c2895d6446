/** The k-means engine: the loaded samples, the running bounding box, K
    means and K cluster buffers, and the operations that load, seed,
    reassign, update and score them in place. */
module Engine {
  import opened Geometry
  import opened Assignment
  import opened Centroids
  import opened Silhouette

  class KMeans {
    /** `set`: the loaded samples. */
    var samples: seq<Point>
    /** min_x, max_x, min_y, max_y: never reset once the engine exists. */
    var box: Box
    /** `means[K]`. */
    const means: array<Point>
    /** `cluster[K]`: each buffer's items, in append order. */
    const clusters: array<seq<Point>>

    ghost predicate Valid()
      reads this
    {
      means.Length >= 1 && clusters.Length == means.Length
    }

    /** The engine as the program starts it: no samples, the box at
        (FLT_MAX, -FLT_MAX) on both axes, K means at the origin and K empty
        clusters. */
    constructor (k: nat)
      requires k >= 1
      ensures Valid()
      ensures samples == [] && box == NoBox
      ensures means.Length == k && forall i :: 0 <= i < k ==> means[i] == Point(0.0, 0.0)
      ensures clusters.Length == k && forall i :: 0 <= i < k ==> clusters[i] == []
      ensures fresh(means) && fresh(clusters)
    {
      samples := [];
      box := NoBox;
      means := new Point[k](_ => Point(0.0, 0.0));
      clusters := new seq<Point>[k](_ => []);
    }

    /** The accepted rows of a load: the sample list is replaced by them,
        and the box widens to hold each one, starting from its old value. */
    method Load(accepted: seq<Point>)
      requires Valid()
      modifies this
      ensures Valid()
      ensures samples == accepted
      ensures box == Fold(old(box), accepted)
      ensures forall i :: 0 <= i < |accepted| ==> Contains(box, accepted[i])
    {
      samples := [];
      var i := 0;
      while i < |accepted|
        invariant 0 <= i <= |accepted|
        invariant samples == accepted[..i]
        invariant box == Fold(old(box), accepted[..i])
      {
        var p := accepted[i];
        samples := samples + [p];
        if p.x < box.minX { box := box.(minX := p.x); }
        if p.x > box.maxX { box := box.(maxX := p.x); }
        if p.y < box.minY { box := box.(minY := p.y); }
        if p.y > box.maxY { box := box.(maxY := p.y); }
        assert accepted[..i + 1][..i] == accepted[..i];
        i := i + 1;
      }
      assert accepted[..i] == accepted;
    }

    /** The seeding loop: every mean is drawn inside the box, and lies in
        it when the box is proper and the draws are in [0, 1]. */
    method Seed(draws: seq<Draw>)
      requires Valid() && |draws| == means.Length
      modifies means
      ensures forall i :: 0 <= i < means.Length ==> means[i] == DrawIn(draws[i], box)
      ensures Proper(box) && (forall i :: 0 <= i < |draws| ==> IsUnit(draws[i])) ==>
                forall i :: 0 <= i < means.Length ==> Contains(box, means[i])
    {
      for i := 0 to means.Length
        invariant forall j :: 0 <= j < i ==> means[j] == DrawIn(draws[j], box)
      {
        means[i] := Point(Lerp(draws[i].rx, box.minX, box.maxX), Lerp(draws[i].ry, box.minY, box.maxY));
      }
    }

    /** A fresh state: the samples are loaded and the means seeded from the
        widened box; they lie in it when it is proper and the draws are in
        [0, 1]. */
    method GenerateState(accepted: seq<Point>, draws: seq<Draw>)
      requires Valid() && |draws| == means.Length
      modifies this, means
      ensures Valid()
      ensures samples == accepted && box == Fold(old(box), accepted)
      ensures forall i :: 0 <= i < means.Length ==> means[i] == DrawIn(draws[i], box)
      ensures Proper(box) && (forall i :: 0 <= i < |draws| ==> IsUnit(draws[i])) ==>
                forall i :: 0 <= i < means.Length ==> Contains(box, means[i])
    {
      Load(accepted);
      Seed(draws);
    }

    /** Reassignment: the buffers are emptied, then each sample is appended
        to the cluster of its nearest mean. Samples and means are read only. */
    method Recluster()
      requires Valid()
      modifies clusters
      ensures samples == old(samples) && means[..] == old(means[..])
      ensures IsPartition(clusters[..], samples, means[..])
      ensures forall k :: 0 <= k < clusters.Length ==> clusters[k] == Members(samples, means[..], k)
    {
      for k := 0 to clusters.Length
        invariant forall j :: 0 <= j < k ==> clusters[j] == []
      {
        clusters[k] := [];
      }
      ghost var ms := means[..];
      for i := 0 to |samples|
        invariant forall k :: 0 <= k < clusters.Length ==> clusters[k] == Members(samples[..i], ms, k)
      {
        var p := samples[i];
        var k := NearestMean(p);
        clusters[k] := clusters[k] + [p];
        forall j | 0 <= j < clusters.Length
          ensures clusters[j] == Members(samples[..i + 1], ms, j)
        {
          assert samples[..i + 1] == samples[..i] + [p];
          MembersSnoc(samples[..i], p, ms, j);
        }
      }
      assert samples[..|samples|] == samples;
    }

    /** The inner scan of reassignment: the index of the nearest mean to p,
        lowest index first on a tie. */
    method NearestMean(p: Point) returns (k: nat)
      requires Valid()
      ensures k == Nearest(p, means[..])
      ensures k < means.Length
    {
      k := 0;
      var best := SqDist(p, means[0]);
      var j := 1;
      while j < means.Length
        invariant 1 <= j <= means.Length
        invariant k == Nearest(p, means[..j]) && best == SqDist(p, means[k])
      {
        assert means[..j + 1][..j] == means[..j];
        var d := SqDist(p, means[j]);
        if d < best {
          k := j;
          best := d;
        }
        j := j + 1;
      }
      assert means[..j] == means[..];
    }

    /** The mean update: a non-empty cluster's mean becomes the average of
        its samples, an empty cluster's mean is redrawn inside the box. When
        the box holds the clusters' samples, is proper, and the draws are in
        [0, 1], every mean ends up inside the box. */
    method UpdateMeans(draws: seq<Draw>)
      requires Valid() && |draws| == means.Length
      modifies means
      ensures forall i :: 0 <= i < means.Length ==> means[i] == NewMean(clusters[i], draws[i], box)
      ensures (&& Proper(box)
               && (forall i :: 0 <= i < |draws| ==> IsUnit(draws[i]))
               && (forall k, j :: 0 <= k < clusters.Length && 0 <= j < |clusters[k]| ==> Contains(box, clusters[k][j])))
              ==> forall i :: 0 <= i < means.Length ==> Contains(box, means[i])
    {
      for i := 0 to means.Length
        invariant forall j :: 0 <= j < i ==> means[j] == NewMean(clusters[j], draws[j], box)
      {
        var c := clusters[i];
        if |c| > 0 {
          var sum := Point(0.0, 0.0);
          for j := 0 to |c|
            invariant sum == Point(SumX(c[..j]), SumY(c[..j]))
          {
            assert c[..j + 1][..j] == c[..j];
            sum := Point(sum.x + c[j].x, sum.y + c[j].y);
          }
          assert c[..|c|] == c;
          means[i] := Point(sum.x / |c| as real, sum.y / |c| as real);
        } else {
          means[i] := Point(Lerp(draws[i].rx, box.minX, box.maxX), Lerp(draws[i].ry, box.minY, box.maxY));
        }
      }
      if && Proper(box)
         && (forall i :: 0 <= i < |draws| ==> IsUnit(draws[i]))
         && (forall k, j :: 0 <= k < clusters.Length && 0 <= j < |clusters[k]| ==> Contains(box, clusters[k][j]))
      {
        forall i | 0 <= i < means.Length ensures Contains(box, means[i]) {
          NewMeanInBox(clusters[i], draws[i], box);
        }
      }
    }

    /** The silhouette score of the current clusters over the current
        samples. */
    method Score(dist: (Point, Point) -> real) returns (score: Score)
      requires Valid()
      ensures score == SilhouetteScore(samples, clusters[..], dist)
    {
      var total := Finite(0.0);
      for i := 0 to |samples|
        invariant total == Total(samples[..i], clusters[..], dist)
      {
        var p := samples[i];
        assert samples[..i + 1][..i] == samples[..i];
        var found := ClusterOf(p);
        if found.Some? {
          var a := MeanIntraDistance(p, found.value, dist);
          var b := NearestOtherDistance(p, found.value, dist);
          var m := if a >= b then a else b;
          var s := if m == 0.0 then NaN else Finite((b - a) / m);
          total := Add(total, s);
        }
      }
      assert samples[..|samples|] == samples;
      score := if |samples| > 0 then DivBy(total, |samples|) else Finite(0.0);
    }

    /** The lookup of p's cluster: clusters in ascending order, each scanned
        for a point equal to p, stopping at the first hit. */
    method ClusterOf(p: Point) returns (found: Option<nat>)
      requires Valid()
      ensures found == FindCluster(p, clusters[..])
    {
      found := None;
      var k := 0;
      while k < clusters.Length
        invariant 0 <= k <= clusters.Length
        invariant found == None && FindCluster(p, clusters[..k]) == None
      {
        var c := clusters[k];
        var j := 0;
        while j < |c|
          invariant 0 <= j <= |c|
          invariant found == None && p !in c[..j]
        {
          if c[j] == p {
            found := Some(k);
            break;
          }
          assert c[..j + 1] == c[..j] + [c[j]];
          j := j + 1;
        }
        if found.Some? {
          break;
        }
        assert c[..j] == c;
        assert clusters[..k + 1][..k] == clusters[..k];
        k := k + 1;
      }
      if found.Some? {
        assert p in clusters[k];
        assert forall j :: 0 <= j < k ==> clusters[..k][j] == clusters[j];
        var r := FindCluster(p, clusters[..]);
        assert r.Some? && r.value == k;
      } else {
        assert clusters[..k] == clusters[..];
      }
    }

    /** `a`: the mean distance from p to the samples of cluster own that
        are not equal to p, 0 when there are none. */
    method MeanIntraDistance(p: Point, own: nat, dist: (Point, Point) -> real) returns (a: real)
      requires Valid() && own < clusters.Length
      ensures a == IntraMean(p, clusters[own], dist)
    {
      var c := clusters[own];
      var sum, count := 0.0, 0;
      for j := 0 to |c|
        invariant sum == IntraSum(p, c[..j], dist) && count == IntraCount(p, c[..j])
      {
        assert c[..j + 1][..j] == c[..j];
        if c[j] != p {
          sum := sum + dist(p, c[j]);
          count := count + 1;
        }
      }
      assert c[..|c|] == c;
      a := if count > 0 then sum / count as real else 0.0;
    }

    /** `b`: from FLT_MAX, the smallest mean distance from p to a cluster
        other than own, an empty cluster counting as FLT_MAX. */
    method NearestOtherDistance(p: Point, own: nat, dist: (Point, Point) -> real) returns (b: real)
      requires Valid()
      ensures b == NearestOther(p, clusters[..], own, dist)
    {
      b := FltMax;
      for k := 0 to clusters.Length
        invariant b == NearestOther(p, clusters[..k], own, dist)
      {
        assert clusters[..k + 1][..k] == clusters[..k];
        if k != own {
          var c := clusters[k];
          var sum, count := 0.0, 0;
          for j := 0 to |c|
            invariant sum == DistSum(p, c[..j], dist) && count == j
          {
            assert c[..j + 1][..j] == c[..j];
            sum := sum + dist(p, c[j]);
            count := count + 1;
          }
          assert c[..|c|] == c;
          var avg := if count > 0 then sum / count as real else FltMax;
          b := if b <= avg then b else avg;
        }
      }
      assert clusters[..clusters.Length] == clusters[..];
    }
  }

  /** Reassigning twice with the same means gives the same clusters, since
      the buffers are emptied first and the result depends only on the
      samples and the means: the first pass's clusters are the partition of
      the samples by their nearest mean, and the second pass leaves them as
      they were. */
  method ReclusterIsIdempotent(e: KMeans) returns (first: seq<seq<Point>>)
    requires e.Valid()
    modifies e.clusters
    ensures IsPartition(first, old(e.samples), old(e.means[..]))
    ensures e.clusters[..] == first
  {
    e.Recluster();
    first := e.clusters[..];
    e.Recluster();
    PartitionUnique(e.clusters[..], first, e.samples, e.means[..]);
  }
}
