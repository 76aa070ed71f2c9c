/**
 * What a whole run of `hierarchicalClustering` (src/clustering.ts:117-164)
 * produces: the shape of `steps`, the points every step keeps, the pair each
 * round merges, and exactly when the run fails.
 */
module Properties {
  import opened Types
  import opened Merging
  import opened Linkage
  import opened Engine
  import Distance

  /**
   * One round from p to q: p has at least two non-empty clusters, its scan
   * succeeds, and q is p with the selected pair merged.
   */
  ghost predicate Round(p: Partition, q: Partition, link: LinkageFn, d: DistanceFn)
  {
    |p| >= 2 && NonEmptyClusters(p) &&
    Selection(p, link, d).Ok? &&
    var b := Selection(p, link, d).value;
    b.index1 < b.index2 < |p| && q == Merge(p, b.index1, b.index2)
  }

  /** Every step is one round after the step before it. */
  ghost predicate Chain(steps: seq<Partition>, link: LinkageFn, d: DistanceFn)
  {
    forall k :: 0 <= k < |steps| - 1 ==> Round(steps[k], steps[k + 1], link, d)
  }

  /** A successful run starts at p, goes round by round, and ends with at most one cluster. */
  lemma {:induction false} RunChain(p: Partition, link: LinkageFn, d: DistanceFn)
    requires NonEmptyClusters(p) && FiniteLinkage(link, d)
    requires Run(p, link, d).Ok?
    ensures var s := Run(p, link, d).value;
      s != [] && s[0] == p && |s[|s| - 1]| <= 1 && NonEmptyClusters(s[|s| - 1]) && Chain(s, link, d)
    decreases |p|
  {
    if |p| > 1 {
      var q := MergeStep(p, link, d).value;
      RunChain(q, link, d);
      var rest := Run(q, link, d).value;
      var s := Run(p, link, d).value;
      assert s == [p] + rest;
      SelectionSpec(p, link, d);
      assert Round(p, q, link, d);
      forall k | 0 <= k < |s| - 1 ensures Round(s[k], s[k + 1], link, d) {
        if k > 0 {
          assert s[k] == rest[k - 1] && s[k + 1] == rest[k];
        }
      }
    }
  }

  /** Along a chain each step has one cluster fewer than the one before and the same points. */
  lemma {:induction false} ChainSteps(steps: seq<Partition>, link: LinkageFn, d: DistanceFn, k: nat)
    requires Chain(steps, link, d)
    requires k < |steps|
    ensures |steps[k]| == |steps[0]| - k
    ensures multiset(Flatten(steps[k])) == multiset(Flatten(steps[0]))
    decreases k
  {
    if k > 0 {
      ChainSteps(steps, link, d, k - 1);
      assert Round(steps[k - 1], steps[k], link, d);
      var b := Selection(steps[k - 1], link, d).value;
      MergeShape(steps[k - 1], b.index1, b.index2);
      MergeKeepsPoints(steps[k - 1], b.index1, b.index2);
    }
  }

  /**
   * The shape of `steps` (src/clustering.ts:123-126, 159-163): it starts with
   * every item in a cluster of its own, in input order; it has one partition
   * per item (one, `[[]]`, for no item); partition k has N - k clusters, the
   * last one cluster; and every partition holds exactly the input points.
   */
  lemma ClusteringShape(items: seq<Point>, link: LinkageFn, d: DistanceFn)
    requires FiniteLinkage(link, d)
    requires Clustering(items, link, d).Ok?
    ensures var steps := Clustering(items, link, d).value;
      |steps| == (if |items| == 0 then 1 else |items|) &&
      steps[0] == Singletons(items) &&
      (|items| == 0 ==> steps == [[]]) &&
      (|items| >= 1 ==> |steps[|steps| - 1]| == 1) &&
      forall k :: 0 <= k < |steps| ==>
        |steps[k]| == |items| - k && multiset(Flatten(steps[k])) == multiset(items)
  {
    var p := Singletons(items);
    RunChain(p, link, d);
    var steps := Run(p, link, d).value;
    FlattenSingletons(items);
    forall k | 0 <= k < |steps|
      ensures |steps[k]| == |items| - k && multiset(Flatten(steps[k])) == multiset(items)
    {
      ChainSteps(steps, link, d, k);
    }
    ChainLength(steps, link, d);
  }

  /** A chain that ends with at most one cluster has one step per cluster of its start (one if it starts empty). */
  lemma ChainLength(steps: seq<Partition>, link: LinkageFn, d: DistanceFn)
    requires steps != [] && Chain(steps, link, d)
    requires |steps[|steps| - 1]| <= 1
    ensures |steps| == if |steps[0]| == 0 then 1 else |steps[0]|
    ensures |steps[0]| >= 1 ==> |steps[|steps| - 1]| == 1
  {
    var last := |steps| - 1;
    ChainSteps(steps, link, d, last);
    if last > 0 {
      ChainSteps(steps, link, d, last - 1);
      assert Round(steps[last - 1], steps[last], link, d);
    }
  }

  /**
   * q is p after merging its first closest pair i < j: the other clusters in
   * their order, then the union of cluster i and cluster j, i's points first.
   */
  ghost predicate MergesClosest(p: Partition, q: Partition, link: LinkageFn, d: DistanceFn, i: nat, j: nat)
  {
    ClosestPair(p, link, d, i, j) &&
    q == p[..i] + p[i + 1..j] + p[j + 1..] + [p[i] + p[j]]
  }

  /** A round merges the first closest pair of the step before (src/clustering.ts:129-156). */
  lemma RoundMerges(p: Partition, q: Partition, link: LinkageFn, d: DistanceFn)
    requires FiniteLinkage(link, d)
    requires Round(p, q, link, d)
    ensures var b := Selection(p, link, d).value; MergesClosest(p, q, link, d, b.index1, b.index2)
  {
    var b := Selection(p, link, d).value;
    SelectionSpec(p, link, d);
    MergeShape(p, b.index1, b.index2);
  }

  /** Every round of a successful run merges the first closest pair of the step before: the pair its scan selects. */
  lemma ClusteringRounds(items: seq<Point>, link: LinkageFn, d: DistanceFn)
    requires FiniteLinkage(link, d)
    requires Clustering(items, link, d).Ok?
    ensures var steps := Clustering(items, link, d).value;
      forall k :: 0 <= k < |steps| - 1 ==>
        Selection(steps[k], link, d).Ok? &&
        var b := Selection(steps[k], link, d).value;
        MergesClosest(steps[k], steps[k + 1], link, d, b.index1, b.index2)
  {
    var p := Singletons(items);
    RunChain(p, link, d);
    var steps := Run(p, link, d).value;
    forall k | 0 <= k < |steps| - 1
      ensures Selection(steps[k], link, d).Ok? &&
        var b := Selection(steps[k], link, d).value;
        MergesClosest(steps[k], steps[k + 1], link, d, b.index1, b.index2)
    {
      RoundMerges(steps[k], steps[k + 1], link, d);
    }
  }

  /** At most one pair is the first closest pair: the merge of a round is determined. */
  lemma ClosestPairUnique(p: Partition, link: LinkageFn, d: DistanceFn, i1: nat, i2: nat, j1: nat, j2: nat)
    requires ClosestPair(p, link, d, i1, i2) && ClosestPair(p, link, d, j1, j2)
    ensures i1 == j1 && i2 == j2
  {
    ScanOrderTotal(i1, i2, j1, j2);
  }

  /** Of two different pairs, one comes first in the scan. */
  lemma ScanOrderTotal(i1: nat, i2: nat, j1: nat, j2: nat)
    requires i1 < i2 && j1 < j2
    ensures (i1, i2) == (j1, j2) || Scanned(i1, i2, j1, j2) || Scanned(j1, j2, i1, i2)
  {
  }

  // ------------------------------------------------------------ errors

  /** The point distance fails exactly on points of different dimensions, as `manhattan` and `euclidian` do. */
  ghost predicate ReportsDimension(d: DistanceFn)
  {
    forall x, y :: d(x, y).Err? <==> |x| != |y|
  }

  /** The linkage fails exactly when some cross pair cannot be compared, as the three linkages do. */
  ghost predicate ReportsCross(link: LinkageFn, d: DistanceFn)
  {
    forall c1, c2 :: link(c1, c2, d).Err? <==> CrossError(c1, c2, d)
  }

  lemma ManhattanReports()
    ensures ReportsDimension(Distance.Manhattan)
  {
    forall x: Point, y: Point ensures Distance.Manhattan(x, y).Err? <==> |x| != |y| {
    }
  }

  lemma EuclidianReports(sqrt: real -> real)
    ensures ReportsDimension(Distance.EuclidianFn(sqrt))
  {
    forall x: Point, y: Point ensures Distance.EuclidianFn(sqrt)(x, y).Err? <==> |x| != |y| {
    }
  }

  /** Single link fails exactly on a pair it cannot compare, and finds a distance for two non-empty clusters. */
  lemma MinLinkageFits(d: DistanceFn)
    ensures FiniteLinkage(MinLinkage, d) && ReportsCross(MinLinkage, d)
  {
    forall c1, c2 ensures (MinLinkage(c1, c2, d).Err? <==> CrossError(c1, c2, d)) &&
      (c1 != [] && c2 != [] && MinLinkage(c1, c2, d).Ok? ==> MinLinkage(c1, c2, d).value.Some?)
    {
      MinLinkageSpec(c1, c2, d);
    }
  }

  /** Complete link fails exactly on a pair it cannot compare, and never gives `Infinity`. */
  lemma CompleteLinkFits(d: DistanceFn)
    ensures FiniteLinkage(CompleteLink, d) && ReportsCross(CompleteLink, d)
  {
    forall c1, c2 ensures CompleteLink(c1, c2, d).Err? <==> CrossError(c1, c2, d) {
      MaxLinkageSpec(c1, c2, d);
    }
  }

  /** Average link fails exactly on a pair it cannot compare, and finds a distance for two non-empty clusters. */
  lemma AvgLinkageFits(d: DistanceFn)
    ensures FiniteLinkage(AvgLinkage, d) && ReportsCross(AvgLinkage, d)
  {
    forall c1, c2 ensures (AvgLinkage(c1, c2, d).Err? <==> CrossError(c1, c2, d)) &&
      (c1 != [] && c2 != [] && AvgLinkage(c1, c2, d).Ok? ==> AvgLinkage(c1, c2, d).value.Some?)
    {
      AvgLinkageSpec(c1, c2, d);
    }
  }

  /** Every point has dimension n. */
  ghost predicate Uniform(points: seq<Point>, n: nat)
  {
    forall x :: x in points ==> |x| == n
  }

  /** A partition whose points all share one dimension never makes a round fail, and so never makes the run fail. */
  lemma {:induction false} RunSucceeds(p: Partition, link: LinkageFn, d: DistanceFn, n: nat)
    requires NonEmptyClusters(p) && FiniteLinkage(link, d)
    requires ReportsDimension(d) && ReportsCross(link, d)
    requires Uniform(Flatten(p), n)
    ensures Run(p, link, d).Ok?
    decreases |p|
  {
    if |p| > 1 {
      SelectionSpec(p, link, d);
      if Selection(p, link, d).Err? {
        var a: nat, c: nat :| a < c < |p| && link(p[a], p[c], d).Err?;
        var i, j :| 0 <= i < |p[a]| && 0 <= j < |p[c]| && d(p[a][i], p[c][j]).Err?;
        FlattenMembers(p, p[a][i]);
        FlattenMembers(p, p[c][j]);
        assert false;
      }
      var b := Selection(p, link, d).value;
      MergeShape(p, b.index1, b.index2);
      MergeKeepsPoints(p, b.index1, b.index2);
      var q := Merge(p, b.index1, b.index2);
      forall x | x in Flatten(q) ensures |x| == n {
        assert x in multiset(Flatten(q));
      }
      RunSucceeds(q, link, d, n);
    }
  }

  /**
   * With a distance and a linkage that report exactly the incomparable pairs,
   * a run on two or more points fails exactly when two of the points differ
   * in dimension (the first round compares every two of them); a run on at
   * most one point never fails.
   */
  lemma ClusteringFails(items: seq<Point>, link: LinkageFn, d: DistanceFn)
    requires FiniteLinkage(link, d) && ReportsDimension(d) && ReportsCross(link, d)
    ensures Clustering(items, link, d).Err? <==>
      exists a, c :: 0 <= a < c < |items| && |items[a]| != |items[c]|
  {
    if exists a, c :: 0 <= a < c < |items| && |items[a]| != |items[c]| {
      var a, c :| 0 <= a < c < |items| && |items[a]| != |items[c]|;
      MismatchFails(items, link, d, a, c);
    } else if items != [] {
      SameDimensionSucceeds(items, link, d);
    }
  }

  /** Two items of different dimensions make the first round fail. */
  lemma MismatchFails(items: seq<Point>, link: LinkageFn, d: DistanceFn, a: nat, c: nat)
    requires FiniteLinkage(link, d) && ReportsDimension(d) && ReportsCross(link, d)
    requires a < c < |items| && |items[a]| != |items[c]|
    ensures Clustering(items, link, d).Err?
  {
    var p := Singletons(items);
    assert d(p[a][0], p[c][0]).Err?;
    assert link(p[a], p[c], d).Err?;
    SelectionSpec(p, link, d);
  }

  /** Items of one dimension never make a run fail. */
  lemma SameDimensionSucceeds(items: seq<Point>, link: LinkageFn, d: DistanceFn)
    requires FiniteLinkage(link, d) && ReportsDimension(d) && ReportsCross(link, d)
    requires items != [] && forall a, c :: 0 <= a < c < |items| ==> |items[a]| == |items[c]|
    ensures Clustering(items, link, d).Ok?
  {
    var n := |items[0]|;
    FlattenSingletons(items);
    forall x | x in items ensures |x| == n {
      var k :| 0 <= k < |items| && items[k] == x;
      if k > 0 {
        assert |items[0]| == |items[k]|;
      }
    }
    RunSucceeds(Singletons(items), link, d, n);
  }

  /** Complete link on Manhattan distance, the pair `clustering.js` fixes: a run fails exactly on points of different dimensions. */
  lemma ManhattanCompleteFails(items: seq<Point>)
    ensures FiniteLinkage(CompleteLink, Distance.Manhattan) &&
      (Clustering(items, CompleteLink, Distance.Manhattan).Err? <==>
       exists a, c :: 0 <= a < c < |items| && |items[a]| != |items[c]|)
  {
    CompleteLinkFits(Distance.Manhattan);
    ManhattanReports();
    ClusteringFails(items, CompleteLink, Distance.Manhattan);
  }
}
