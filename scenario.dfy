/** A worked example of one reassignment and one mean update: two tight
    pairs of samples far apart, with the means starting on one sample of
    each pair. */
module Scenario {
  import opened Geometry
  import opened Assignment
  import opened Centroids

  const Samples: seq<Point> := [Point(0.0, 0.0), Point(0.0, 1.0), Point(10.0, 10.0), Point(10.0, 11.0)]
  const Start: seq<Point> := [Point(0.0, 0.0), Point(10.0, 10.0)]

  /** Reassignment puts the first pair in cluster 0 and the second in
      cluster 1, and the update moves the means to (0, 0.5) and (10, 10.5). */
  lemma TwoPairs()
    ensures Members(Samples, Start, 0) == [Point(0.0, 0.0), Point(0.0, 1.0)]
    ensures Members(Samples, Start, 1) == [Point(10.0, 10.0), Point(10.0, 11.0)]
    ensures Centroid(Members(Samples, Start, 0)) == Point(0.0, 0.5)
    ensures Centroid(Members(Samples, Start, 1)) == Point(10.0, 10.5)
  {
    assert Nearest(Samples[0], Start) == 0;
    assert Nearest(Samples[1], Start) == 0;
    assert Nearest(Samples[2], Start) == 1;
    assert Nearest(Samples[3], Start) == 1;
    forall k | 0 <= k < 2
      ensures Members(Samples, Start, k) == (if k == 0 then Samples[..2] else Samples[2..])
    {
      MembersSnoc([], Samples[0], Start, k);
      MembersSnoc(Samples[..1], Samples[1], Start, k);
      MembersSnoc(Samples[..2], Samples[2], Start, k);
      MembersSnoc(Samples[..3], Samples[3], Start, k);
      assert [] + [Samples[0]] == Samples[..1];
      assert Samples[..1] + [Samples[1]] == Samples[..2];
      assert Samples[..2] + [Samples[2]] == Samples[..3];
      assert Samples[..3] + [Samples[3]] == Samples;
    }
    var c0 := [Point(0.0, 0.0), Point(0.0, 1.0)];
    assert c0[..1] == [Point(0.0, 0.0)];
    assert SumX(c0) == 0.0 && SumY(c0) == 1.0;
    var c1 := [Point(10.0, 10.0), Point(10.0, 11.0)];
    assert c1[..1] == [Point(10.0, 10.0)];
    assert SumX(c1) == 20.0 && SumY(c1) == 21.0;
  }
}
