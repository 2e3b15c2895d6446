/** Reassignment of samples to clusters: the nearest-mean search with its
    tie-break, and the cluster lists that one reassignment pass builds.

    The list facts (order, totality, counts) hold for any way of labelling a
    sample with a cluster index, so they are stated for a label function and
    then applied to the nearest-mean label. */
module Assignment {
  import opened Geometry

  /** The cluster index chosen for p: the index of a mean at least squared
      distance, the lowest such index on a tie (the scan is ascending and the
      comparison strict). */
  function Nearest(p: Point, ms: seq<Point>): (k: nat)
    requires |ms| > 0
    ensures k < |ms|
  {
    if |ms| == 1 then 0
    else
      var k := Nearest(p, ms[..|ms| - 1]);
      if SqDist(p, ms[|ms| - 1]) < SqDist(p, ms[k]) then |ms| - 1 else k
  }

  /** The chosen mean is at least squared distance from p, and every mean
      before it is strictly farther. */
  lemma {:induction false} NearestIsArgmin(p: Point, ms: seq<Point>)
    requires |ms| > 0
    ensures forall j :: 0 <= j < |ms| ==> SqDist(p, ms[Nearest(p, ms)]) <= SqDist(p, ms[j])
    ensures forall j :: 0 <= j < Nearest(p, ms) ==> SqDist(p, ms[Nearest(p, ms)]) < SqDist(p, ms[j])
  {
    if |ms| > 1 {
      var init := ms[..|ms| - 1];
      NearestIsArgmin(p, init);
      forall j | 0 <= j < |init| ensures init[j] == ms[j] { }
    }
  }

  /** Being a minimum with nothing as small before it pins the index down:
      Nearest is the only index that has both properties. */
  lemma NearestUnique(p: Point, ms: seq<Point>, k: nat)
    requires k < |ms|
    requires forall j :: 0 <= j < |ms| ==> SqDist(p, ms[k]) <= SqDist(p, ms[j])
    requires forall j :: 0 <= j < k ==> SqDist(p, ms[k]) < SqDist(p, ms[j])
    ensures k == Nearest(p, ms)
  {
    NearestIsArgmin(p, ms);
  }

  /** The nearest-mean label, as a function of the sample. */
  function NearestLabel(ms: seq<Point>): Point -> nat
    requires |ms| > 0
  {
    p => Nearest(p, ms)
  }

  /** The samples of s labelled k, in the order of s. */
  function Labelled(s: seq<Point>, labelOf: Point -> nat, k: nat): (c: seq<Point>)
    ensures |c| <= |s|
  {
    if s == [] then []
    else
      var p := s[|s| - 1];
      Labelled(s[..|s| - 1], labelOf, k) + (if labelOf(p) == k then [p] else [])
  }

  /** The list of cluster k after one reassignment pass over s: the samples
      whose nearest mean is k, appended in the order of s. */
  function Members(s: seq<Point>, ms: seq<Point>, k: nat): seq<Point>
    requires |ms| > 0
  {
    Labelled(s, NearestLabel(ms), k)
  }

  /** All K cluster lists are exactly those of one reassignment pass. */
  ghost predicate IsPartition(cs: seq<seq<Point>>, s: seq<Point>, ms: seq<Point>) {
    && |ms| > 0
    && |cs| == |ms|
    && forall k :: 0 <= k < |cs| ==> cs[k] == Members(s, ms, k)
  }

  /** One reassignment pass determines the cluster lists: two lists that
      are both the pass's result for the same samples and means are equal. */
  lemma PartitionUnique(cs1: seq<seq<Point>>, cs2: seq<seq<Point>>, s: seq<Point>, ms: seq<Point>)
    requires IsPartition(cs1, s, ms) && IsPartition(cs2, s, ms)
    ensures cs1 == cs2
  {
  }

  lemma LabelledSnoc(s: seq<Point>, p: Point, labelOf: Point -> nat, k: nat)
    ensures Labelled(s + [p], labelOf, k) == Labelled(s, labelOf, k) + (if labelOf(p) == k then [p] else [])
  {
    assert (s + [p])[..|s + [p]| - 1] == s;
  }

  /** Labelling s + t gives, label by label, the list of s followed by that
      of t. */
  lemma {:induction false} LabelledAppend(s: seq<Point>, t: seq<Point>, labelOf: Point -> nat, k: nat)
    ensures Labelled(s + t, labelOf, k) == Labelled(s, labelOf, k) + Labelled(t, labelOf, k)
  {
    if t != [] {
      var init, last := t[..|t| - 1], t[|t| - 1];
      LabelledAppend(s, init, labelOf, k);
      assert t == init + [last];
      assert s + t == (s + init) + [last];
      LabelledSnoc(s + init, last, labelOf, k);
      LabelledSnoc(init, last, labelOf, k);
    } else {
      assert s + t == s;
    }
  }

  /** Cluster k, for samples s + t, is cluster k for s followed by cluster k
      for t: every cluster keeps its samples in input order. */
  lemma MembersAppend(s: seq<Point>, t: seq<Point>, ms: seq<Point>, k: nat)
    requires |ms| > 0
    ensures Members(s + t, ms, k) == Members(s, ms, k) + Members(t, ms, k)
  {
    LabelledAppend(s, t, NearestLabel(ms), k);
  }

  /** Appending one sample to the input appends it to the cluster of its
      nearest mean and to no other. */
  lemma MembersSnoc(s: seq<Point>, p: Point, ms: seq<Point>, k: nat)
    requires |ms| > 0
    ensures Members(s + [p], ms, k) == Members(s, ms, k) + (if Nearest(p, ms) == k then [p] else [])
  {
    LabelledSnoc(s, p, NearestLabel(ms), k);
  }

  lemma {:induction false} LabelledSound(s: seq<Point>, labelOf: Point -> nat, k: nat)
    ensures forall q :: q in Labelled(s, labelOf, k) ==> q in s && labelOf(q) == k
  {
    if s != [] {
      LabelledSound(s[..|s| - 1], labelOf, k);
      forall q | q in s[..|s| - 1] ensures q in s { }
    }
  }

  /** Cluster k holds only samples of s whose nearest mean is k. */
  lemma MembersSound(s: seq<Point>, ms: seq<Point>, k: nat)
    requires |ms| > 0
    ensures forall q :: q in Members(s, ms, k) ==> q in s && Nearest(q, ms) == k
  {
    LabelledSound(s, NearestLabel(ms), k);
  }

  lemma {:induction false} LabelledComplete(s: seq<Point>, labelOf: Point -> nat, i: nat)
    requires i < |s|
    ensures s[i] in Labelled(s, labelOf, labelOf(s[i]))
  {
    if i < |s| - 1 {
      LabelledComplete(s[..|s| - 1], labelOf, i);
    }
  }

  /** Every sample lands in the cluster of its nearest mean. */
  lemma MembersComplete(s: seq<Point>, ms: seq<Point>, i: nat)
    requires |ms| > 0 && i < |s|
    ensures s[i] in Members(s, ms, Nearest(s[i], ms))
  {
    LabelledComplete(s, NearestLabel(ms), i);
  }

  /** The sum of the lengths of the lists labelled 0 .. n-1. */
  function CountUpTo(s: seq<Point>, labelOf: Point -> nat, n: nat): nat {
    if n == 0 then 0 else CountUpTo(s, labelOf, n - 1) + |Labelled(s, labelOf, n - 1)|
  }

  lemma {:induction false} CountStep(s: seq<Point>, p: Point, labelOf: Point -> nat, n: nat)
    ensures CountUpTo(s + [p], labelOf, n) == CountUpTo(s, labelOf, n) + (if labelOf(p) < n then 1 else 0)
  {
    if n > 0 {
      CountStep(s, p, labelOf, n - 1);
      LabelledSnoc(s, p, labelOf, n - 1);
    }
  }

  lemma {:induction false} CountOfNothing(labelOf: Point -> nat, n: nat)
    ensures CountUpTo([], labelOf, n) == 0
  {
    if n > 0 {
      CountOfNothing(labelOf, n - 1);
    }
  }

  /** When every sample has a label below n, the lists labelled 0 .. n-1
      have as many samples together as s. */
  lemma {:induction false} LabelledIsTotal(s: seq<Point>, labelOf: Point -> nat, n: nat)
    requires forall i :: 0 <= i < |s| ==> labelOf(s[i]) < n
    ensures CountUpTo(s, labelOf, n) == |s|
  {
    if s != [] {
      var init, p := s[..|s| - 1], s[|s| - 1];
      LabelledIsTotal(init, labelOf, n);
      CountStep(init, p, labelOf, n);
      assert init + [p] == s;
    } else {
      CountOfNothing(labelOf, n);
    }
  }

  /** Every sample is appended to exactly one cluster: the cluster counts
      sum to the number of samples, and each sample is in the cluster of its
      nearest mean and in no other. */
  lemma PartitionIsTotal(s: seq<Point>, ms: seq<Point>)
    requires |ms| > 0
    ensures CountUpTo(s, NearestLabel(ms), |ms|) == |s|
    ensures forall i, k :: 0 <= i < |s| && 0 <= k < |ms| ==> (s[i] in Members(s, ms, k) <==> k == Nearest(s[i], ms))
  {
    LabelledIsTotal(s, NearestLabel(ms), |ms|);
    forall i, k | 0 <= i < |s| && 0 <= k < |ms|
      ensures s[i] in Members(s, ms, k) <==> k == Nearest(s[i], ms)
    {
      MembersComplete(s, ms, i);
      MembersSound(s, ms, k);
    }
  }
}
