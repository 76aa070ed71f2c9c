/**
 * The merge loop of `hierarchicalClustering` (src/clustering.ts:117-164).
 *
 * Each round scans every pair i < j of the current clusters (i ascending,
 * then j ascending), keeps the first pair whose linkage is strictly smaller
 * than the best so far, merges that pair, and records the new partition.
 * `Scan` states what the scan has found after any prefix of its pairs, `Run`
 * the whole sequence of partitions; the method is the loop itself.
 */
module Engine {
  import opened Types
  import opened Merging

  /** The scan's `min_distance = [distance, index1, index2]`; `None` is the starting `Infinity`. */
  datatype Best = Best(distance: Option<real>, index1: nat, index2: nat)

  /** `[Infinity, 0, 0]` */
  const Start := Best(None, 0, 0)

  /** `if (dist < min_distance[0]) min_distance = [dist, i, j]`: `Infinity` and `NaN` never win. */
  function Consider(b: Best, dist: Option<real>, i: nat, j: nat): Best
  {
    if dist.Some? && (b.distance.None? || dist.value < b.distance.value) then Best(dist, i, j) else b
  }

  /**
   * The scan after rows 0 .. i-1 and the columns 0 .. j-1 of row i. A column
   * j <= i is skipped (`indexes_ok` holds 0 .. i); an error from the linkage
   * ends the scan. The best pair found is always a valid pair i1 < i2 whose
   * linkage is the recorded distance.
   */
  function Scan(p: Partition, link: LinkageFn, d: DistanceFn, i: nat, j: nat): (r: Result<Best>)
    requires i <= |p| && j <= |p|
    ensures r.Ok? && p != [] ==> r.value.index1 < |p| && r.value.index2 < |p|
    ensures r.Ok? && r.value.distance.Some? ==>
      r.value.index1 < r.value.index2 < |p| &&
      link(p[r.value.index1], p[r.value.index2], d) == Ok(r.value.distance)
    decreases i, j
  {
    if j == 0 then
      if i == 0 then Ok(Start) else Scan(p, link, d, i - 1, |p|)
    else
      match Scan(p, link, d, i, j - 1)
      case Err(e) => Err(e)
      case Ok(b) =>
        if j - 1 <= i then Ok(b)
        else
          match link(p[i], p[j - 1], d)
          case Err(e) => Err(e)
          case Ok(dist) => Ok(Consider(b, dist, i, j - 1))
  }

  /** The whole scan of one round. */
  function Selection(p: Partition, link: LinkageFn, d: DistanceFn): Result<Best>
  {
    Scan(p, link, d, |p|, 0)
  }

  /** The pair (a, c) comes before position (i, j) of the scan. */
  ghost predicate Scanned(a: nat, c: nat, i: nat, j: nat)
  {
    a < c && (a < i || (a == i && c < j))
  }

  /** The linkage finds a distance (never `Infinity` or `NaN`) for any two non-empty clusters it does not fail on. */
  ghost predicate FiniteLinkage(link: LinkageFn, d: DistanceFn)
  {
    forall c1, c2 :: c1 != [] && c2 != [] && link(c1, c2, d).Ok? ==> link(c1, c2, d).value.Some?
  }

  /** The scan stops with an error exactly when the linkage fails on a pair it reaches. */
  lemma {:induction false} ScanErrors(p: Partition, link: LinkageFn, d: DistanceFn, i: nat, j: nat)
    requires i <= |p| && j <= |p|
    ensures Scan(p, link, d, i, j).Err? <==>
      exists a: nat, c: nat :: c < |p| && Scanned(a, c, i, j) && link(p[a], p[c], d).Err?
    decreases i, j
  {
    if j == 0 {
      if i > 0 {
        ScanErrors(p, link, d, i - 1, |p|);
        assert forall a: nat, c: nat :: c < |p| ==> (Scanned(a, c, i, 0) <==> Scanned(a, c, i - 1, |p|));
      }
    } else {
      ScanErrors(p, link, d, i, j - 1);
      assert forall a: nat, c: nat :: Scanned(a, c, i, j) <==> Scanned(a, c, i, j - 1) || (a == i && c == j - 1 && i < j - 1);
    }
  }

  /** The best pair found is no farther than any pair reached, and was itself reached. */
  lemma {:induction false} ScanMinimal(p: Partition, link: LinkageFn, d: DistanceFn, i: nat, j: nat)
    requires i <= |p| && j <= |p|
    requires Scan(p, link, d, i, j).Ok?
    ensures var b := Scan(p, link, d, i, j).value;
      forall a: nat, c: nat :: c < |p| && Scanned(a, c, i, j) && link(p[a], p[c], d).Ok? && link(p[a], p[c], d).value.Some? ==>
        b.distance.Some? && b.distance.value <= link(p[a], p[c], d).value.value
    ensures var b := Scan(p, link, d, i, j).value;
      b.distance.Some? ==> Scanned(b.index1, b.index2, i, j)
    decreases i, j
  {
    if j == 0 {
      if i > 0 {
        ScanMinimal(p, link, d, i - 1, |p|);
        assert forall a: nat, c: nat :: c < |p| ==> (Scanned(a, c, i, 0) <==> Scanned(a, c, i - 1, |p|));
      }
    } else {
      ScanMinimal(p, link, d, i, j - 1);
      assert forall a: nat, c: nat :: Scanned(a, c, i, j) <==> Scanned(a, c, i, j - 1) || (a == i && c == j - 1 && i < j - 1);
    }
  }

  /** Ties go to the first pair: every pair reached before the best one is strictly farther. */
  lemma {:induction false} ScanFirst(p: Partition, link: LinkageFn, d: DistanceFn, i: nat, j: nat)
    requires i <= |p| && j <= |p|
    requires Scan(p, link, d, i, j).Ok? && Scan(p, link, d, i, j).value.distance.Some?
    ensures var b := Scan(p, link, d, i, j).value;
      forall a: nat, c: nat :: c < |p| && Scanned(a, c, b.index1, b.index2) && link(p[a], p[c], d).Ok? && link(p[a], p[c], d).value.Some? ==>
        b.distance.value < link(p[a], p[c], d).value.value
    decreases i, j
  {
    if j == 0 {
      ScanFirst(p, link, d, i - 1, |p|);
    } else {
      var prev := Scan(p, link, d, i, j - 1).value;
      var b := Scan(p, link, d, i, j).value;
      if b != prev {
        ScanMinimal(p, link, d, i, j - 1);
        assert b.index1 == i && b.index2 == j - 1;
      } else {
        ScanFirst(p, link, d, i, j - 1);
      }
    }
  }

  /** An error reached by the scan ends the whole round. */
  lemma {:induction false} ScanErrorSticks(p: Partition, link: LinkageFn, d: DistanceFn, i: nat, j: nat, i2: nat, j2: nat)
    requires i <= |p| && j <= |p| && i2 <= |p| && j2 <= |p|
    requires i < i2 || (i == i2 && j <= j2)
    requires Scan(p, link, d, i, j).Err?
    ensures Scan(p, link, d, i2, j2).Err?
    decreases i2, j2
  {
    if i2 == i && j2 == j {
    } else if j2 == 0 {
      ScanErrorSticks(p, link, d, i, j, i2 - 1, |p|);
    } else {
      ScanErrorSticks(p, link, d, i, j, i2, j2 - 1);
    }
  }

  /**
   * The pair (i1, i2) is the one a round merges: i1 < i2, its linkage is a
   * distance, no pair's linkage is smaller, and every pair before it in the
   * scan order (i ascending, then j ascending) is strictly farther apart.
   */
  ghost predicate ClosestPair(p: Partition, link: LinkageFn, d: DistanceFn, i1: nat, i2: nat)
  {
    i1 < i2 < |p| &&
    link(p[i1], p[i2], d).Ok? && link(p[i1], p[i2], d).value.Some? &&
    var v := link(p[i1], p[i2], d).value.value;
    (forall a: nat, c: nat :: a < c < |p| && link(p[a], p[c], d).Ok? && link(p[a], p[c], d).value.Some? ==>
       v <= link(p[a], p[c], d).value.value) &&
    (forall a: nat, c: nat :: c < |p| && Scanned(a, c, i1, i2) && link(p[a], p[c], d).Ok? && link(p[a], p[c], d).value.Some? ==>
       v < link(p[a], p[c], d).value.value)
  }

  /**
   * A round with at least two non-empty clusters and a finite linkage either
   * fails, exactly when the linkage fails on some pair, or selects the first
   * closest pair.
   */
  lemma SelectionSpec(p: Partition, link: LinkageFn, d: DistanceFn)
    requires |p| >= 2 && NonEmptyClusters(p) && FiniteLinkage(link, d)
    ensures Selection(p, link, d).Err? <==> exists a: nat, c: nat :: a < c < |p| && link(p[a], p[c], d).Err?
    ensures Selection(p, link, d).Ok? ==>
      Selection(p, link, d).value.distance.Some? &&
      ClosestPair(p, link, d, Selection(p, link, d).value.index1, Selection(p, link, d).value.index2)
  {
    ScanErrors(p, link, d, |p|, 0);
    assert forall a: nat, c: nat :: c < |p| ==> (Scanned(a, c, |p|, 0) <==> a < c);
    if Selection(p, link, d).Ok? {
      ScanMinimal(p, link, d, |p|, 0);
      assert Scanned(0, 1, |p|, 0);
      assert link(p[0], p[1], d).Ok?;
      ScanFirst(p, link, d, |p|, 0);
    }
  }

  /**
   * One round: the partition with the selected pair merged. With at least two
   * non-empty clusters and a finite linkage, it has one cluster fewer, none
   * of them empty.
   */
  function MergeStep(p: Partition, link: LinkageFn, d: DistanceFn): (r: Result<Partition>)
    requires |p| >= 2 && NonEmptyClusters(p) && FiniteLinkage(link, d)
    ensures r.Ok? ==> |r.value| == |p| - 1 && NonEmptyClusters(r.value)
  {
    match Selection(p, link, d)
    case Err(e) => Err(e)
    case Ok(b) =>
      SelectionSpec(p, link, d);
      MergeShape(p, b.index1, b.index2);
      Ok(Merge(p, b.index1, b.index2))
  }

  /** Put the partitions already recorded in front of the rest of the run, or pass its error on. */
  function Prepend(done: seq<Partition>, rest: Result<seq<Partition>>): Result<seq<Partition>>
  {
    match rest
    case Err(e) => Err(e)
    case Ok(s) => Ok(done + s)
  }

  /** The partitions from p on: p, then one round after another until at most one cluster is left. */
  function Run(p: Partition, link: LinkageFn, d: DistanceFn): Result<seq<Partition>>
    requires NonEmptyClusters(p) && FiniteLinkage(link, d)
    decreases |p|
  {
    if |p| <= 1 then Ok([p])
    else
      match MergeStep(p, link, d)
      case Err(e) => Err(e)
      case Ok(q) => Prepend([p], Run(q, link, d))
  }

  /** `hierarchicalClustering(items, distance_of_items_fn, distances_of_clusters_fn)` */
  function Clustering(items: seq<Point>, link: LinkageFn, d: DistanceFn): Result<seq<Partition>>
    requires FiniteLinkage(link, d)
  {
    Run(Singletons(items), link, d)
  }

  /** A list of steps is its steps but the last, then the last. */
  lemma SplitLast(steps: seq<Partition>)
    requires steps != []
    ensures steps == steps[..|steps| - 1] + [steps[|steps| - 1]]
  {
  }

  /** A round that selects the pair b merges it, and the run goes on from there. */
  lemma RunStep(p: Partition, link: LinkageFn, d: DistanceFn, b: Best, done: seq<Partition>)
    requires |p| >= 2 && NonEmptyClusters(p) && FiniteLinkage(link, d)
    requires Selection(p, link, d) == Ok(b)
    ensures b.index1 < b.index2 < |p|
    ensures NonEmptyClusters(Merge(p, b.index1, b.index2))
    ensures Prepend(done, Run(p, link, d)) ==
      Prepend(done + [p], Run(Merge(p, b.index1, b.index2), link, d))
  {
    RunUnfold(p, link, d, b);
    PrependTwice(done, p, Run(Merge(p, b.index1, b.index2), link, d));
  }

  lemma RunUnfold(p: Partition, link: LinkageFn, d: DistanceFn, b: Best)
    requires |p| >= 2 && NonEmptyClusters(p) && FiniteLinkage(link, d)
    requires Selection(p, link, d) == Ok(b)
    ensures b.index1 < b.index2 < |p|
    ensures NonEmptyClusters(Merge(p, b.index1, b.index2))
    ensures Run(p, link, d) == Prepend([p], Run(Merge(p, b.index1, b.index2), link, d))
  {
    SelectionSpec(p, link, d);
    MergeShape(p, b.index1, b.index2);
    assert MergeStep(p, link, d) == Ok(Merge(p, b.index1, b.index2));
  }

  lemma PrependTwice(done: seq<Partition>, p: Partition, rest: Result<seq<Partition>>)
    ensures Prepend(done, Prepend([p], rest)) == Prepend(done + [p], rest)
  {
    if rest.Ok? {
      assert done + ([p] + rest.value) == done + [p] + rest.value;
    }
  }

  /**
   * One round's scan (src/clustering.ts:129-150): every pair i < j, row by
   * row, keeping the first strictly smallest linkage. It computes exactly the
   * selection above; a failing linkage ends it with that error.
   */
  method ClosestClusters(current: Partition, link: LinkageFn, d: DistanceFn) returns (r: Result<Best>)
    ensures r == Selection(current, link, d)
  {
    var best: Option<real> := None;
    var index1, index2 := 0, 0;
    var indexesOk: set<int> := {};
    var i := 0;
    while i < |current|
      invariant 0 <= i <= |current|
      invariant forall k :: k in indexesOk <==> 0 <= k < i
      invariant Scan(current, link, d, i, 0) == Ok(Best(best, index1, index2))
    {
      indexesOk := indexesOk + {i};
      var j := 0;
      while j < |current|
        invariant 0 <= j <= |current|
        invariant forall k :: k in indexesOk <==> 0 <= k <= i
        invariant Scan(current, link, d, i, j) == Ok(Best(best, index1, index2))
      {
        if j !in indexesOk {
          var dist := link(current[i], current[j], d);
          if dist.Err? {
            ScanErrorSticks(current, link, d, i, j + 1, |current|, 0);
            return Err(dist.error);
          }
          if dist.value.Some? && (best.None? || dist.value.value < best.value) {
            best, index1, index2 := dist.value, i, j;
          }
        }
        j := j + 1;
      }
      i := i + 1;
    }
    return Ok(Best(best, index1, index2));
  }

  /**
   * The loop of src/clustering.ts:117-164: it computes exactly the run above,
   * recording every partition, and stops when at most one cluster is left.
   */
  method HierarchicalClustering(items: seq<Point>, d: DistanceFn, link: LinkageFn)
    returns (r: Result<seq<Partition>>)
    requires FiniteLinkage(link, d)
    ensures r == Clustering(items, link, d)
  {
    var current := Singletons(items);
    var steps := [current];
    assert Prepend([], Run(current, link, d)) == Run(current, link, d) by {
      if Run(current, link, d).Ok? {
        assert [] + Run(current, link, d).value == Run(current, link, d).value;
      }
    }
    while |current| > 1
      invariant NonEmptyClusters(current)
      invariant |steps| >= 1 && steps[|steps| - 1] == current
      invariant Clustering(items, link, d) == Prepend(steps[..|steps| - 1], Run(current, link, d))
      decreases |current|
    {
      var found := ClosestClusters(current, link, d);
      if found.Err? {
        return Err(found.error);
      }
      var index1, index2 := found.value.index1, found.value.index2;
      RunStep(current, link, d, found.value, steps[..|steps| - 1]);
      var newClusters := Without(current, index1, index2);
      newClusters := newClusters + [current[index1] + current[index2]];
      SplitLast(steps);
      steps := steps + [newClusters];
      SplitLast(steps);
      current := newClusters;
    }
    assert Run(current, link, d) == Ok([current]);
    SplitLast(steps);
    return Ok(steps);
  }
}
