/**
 * `clustering.js`: the older variant of the engine. It pairs coordinates with
 * its own `zip` generator, always uses complete link (`maxDistanceInCluster`,
 * the same loop as src/clustering.ts:61-74, modelled once in `Linkage`), and
 * splits each round into two passes: first a table `distances[i][j]` of the
 * linkage of every pair i < j, then a scan of that table for its smallest entry.
 *
 * Each method here is proved to compute what the TypeScript engine's model
 * computes, so every property proved in `Properties` holds for this variant too.
 */
module Legacy {
  import opened Types
  import Distance
  import opened Linkage
  import opened Merging
  import opened Engine
  import Properties

  /**
   * `zip(a, b)` (clustering.js:7-19): pairs are taken while neither list is
   * over, so there are as many pairs as the shorter list has values, the k-th
   * pair being the k-th value of each.
   */
  method ZipGenerator(a: Point, b: Point) returns (r: seq<(real, real)>)
    ensures |r| == if |a| <= |b| then |a| else |b|
    ensures forall k :: 0 <= k < |r| ==> r[k] == (a[k], b[k])
  {
    r := [];
    var k := 0;
    while k < |a| && k < |b|
      invariant k <= |a| && k <= |b|
      invariant |r| == k
      invariant forall m :: 0 <= m < k ==> r[m] == (a[m], b[m])
    {
      r := r + [(a[k], b[k])];
      k := k + 1;
    }
  }

  /** `manhattan` of clustering.js:20-30, on its own `zip`: the same distance as `Distance.Manhattan`. */
  method LegacyManhattan(a: Point, b: Point) returns (r: Result<real>)
    ensures r == Distance.Manhattan(a, b)
  {
    if |a| != |b| {
      return Err(DimensionMismatch);
    }
    var pairs := ZipGenerator(a, b);
    assert pairs == Distance.Zip(a, b);
    return Ok(Distance.Sum(Distance.Gaps(pairs)));
  }

  /**
   * The table of one round: an entry `t[a][c]` exactly for the pairs
   * a < c of the current clusters, holding their linkage.
   */
  ghost predicate Table(current: Partition, link: LinkageFn, d: DistanceFn, t: map<nat, map<nat, real>>)
  {
    (forall a: nat :: a in t <==> a < |current|) &&
    (forall a: nat, c: nat :: a in t ==> (c in t[a] <==> a < c < |current|)) &&
    (forall a: nat, c: nat :: a in t && c in t[a] ==> link(current[a], current[c], d) == Ok(Some(t[a][c])))
  }

  /** Every entry of the table holds the complete-link distance of its pair. */
  ghost predicate Entries(current: Partition, d: DistanceFn, t: map<nat, map<nat, real>>)
  {
    forall a: nat, c: nat :: EntryRight(current, d, t, a, c)
  }

  /** The entry t[a][c], if there is one, holds the complete-link distance of clusters a and c. */
  ghost predicate EntryRight(current: Partition, d: DistanceFn, t: map<nat, map<nat, real>>, a: nat, c: nat)
  {
    a in t && c in t[a] ==>
      a < |current| && c < |current| && MaxLinkage(current[a], current[c], d) == Ok(t[a][c])
  }

  /** Rows 0 .. i-1 are in the table, each with its columns a < c < |current|. */
  ghost predicate RowsDone(current: Partition, t: map<nat, map<nat, real>>, i: nat)
  {
    (forall a: nat :: a in t <==> a < i) &&
    (forall a: nat, c: nat :: a in t ==> (c in t[a] <==> a < c < |current|))
  }

  /** While row i is being filled: rows 0 .. i exist, rows before i are done, row i has its columns i < c < j. */
  ghost predicate RowFilling(current: Partition, t: map<nat, map<nat, real>>, i: nat, j: nat)
  {
    (forall a: nat :: a in t <==> a <= i) &&
    (forall a: nat, c: nat :: a in t && a < i ==> (c in t[a] <==> a < c < |current|)) &&
    i in t && (forall c: nat :: c in t[i] <==> i < c < j)
  }

  /**
   * The first pass of a round (clustering.js:53-68). Row i is created before
   * its columns are filled, so `j in distances` skips every j <= i and only
   * the pairs i < j are computed. It fails exactly when the linkage fails on
   * some pair; otherwise it returns the whole table.
   */
  method FillDistances(current: Partition, d: DistanceFn) returns (r: Result<map<nat, map<nat, real>>>)
    ensures r.Err? <==> exists a: nat, c: nat :: a < c < |current| && MaxLinkage(current[a], current[c], d).Err?
    ensures r.Ok? ==> Table(current, CompleteLink, d, r.value)
  {
    var m := |current|;
    var distances: map<nat, map<nat, real>> := map[];
    var i: nat := 0;
    while i < m
      invariant 0 <= i <= m
      invariant RowsDone(current, distances, i)
      invariant Entries(current, d, distances)
    {
      if i !in distances {
        var empty: map<nat, real> := map[];
        StartRow(current, d, distances, i, empty);
        distances := distances[i := empty];
      }
      var filled := FillRow(current, d, distances, i);
      if filled.Err? {
        return Err(filled.error);
      }
      distances := filled.value;
      i := i + 1;
    }
    r := Ok(distances);
    TableOfEntries(current, d, distances);
  }

  /**
   * The inner loop of the first pass, on row i (clustering.js:58-67): column j
   * is skipped when j == i or row j exists already (j <= i); every other
   * column gets the complete-link distance of the pair, or the pass fails.
   */
  method FillRow(current: Partition, d: DistanceFn, distances: map<nat, map<nat, real>>, i: nat)
    returns (r: Result<map<nat, map<nat, real>>>)
    requires i < |current|
    requires RowFilling(current, distances, i, 0)
    requires Entries(current, d, distances)
    ensures r.Err? ==> exists c: nat :: i < c < |current| && MaxLinkage(current[i], current[c], d).Err?
    ensures r.Ok? ==> RowsDone(current, r.value, i + 1) && Entries(current, d, r.value)
  {
    var m := |current|;
    var table: map<nat, map<nat, real>> := distances;
    var j: nat := 0;
    while j < m
      invariant 0 <= j <= m
      invariant RowFilling(current, table, i, j)
      invariant Entries(current, d, table)
    {
      if i != j && j !in table {
        var dist := MaxDistanceInCluster(current[i], current[j], d);
        if dist.Err? {
          return Err(dist.error);
        }
        var row: map<nat, real> := table[i][j := dist.value];
        EntriesUpdate(current, d, table, i, j, dist.value, row);
        RowFillingAdd(current, table, i, j, dist.value, row);
        table := table[i := row];
      } else {
        RowFillingSkip(current, table, i, j);
      }
      j := j + 1;
    }
    RowFillingDone(current, table, i);
    return Ok(table);
  }

  /** `distances[i] = {}`: row i starts empty, and the entries already there stay right. */
  lemma StartRow(current: Partition, d: DistanceFn, t: map<nat, map<nat, real>>, i: nat, empty: map<nat, real>)
    requires RowsDone(current, t, i) && Entries(current, d, t)
    requires empty == map[]
    ensures RowFilling(current, t[i := empty], i, 0)
    ensures Entries(current, d, t[i := empty])
  {
    var u := t[i := empty];
    forall a: nat, c: nat ensures EntryRight(current, d, u, a, c) {
      assert EntryRight(current, d, t, a, c);
    }
    forall a: nat, c: nat | a in u && a < i ensures c in u[a] <==> a < c < |current| {
      assert u[a] == t[a];
    }
  }

  /** Columns j <= i are skipped. */
  lemma RowFillingSkip(current: Partition, t: map<nat, map<nat, real>>, i: nat, j: nat)
    requires RowFilling(current, t, i, j)
    requires i == j || j in t
    ensures RowFilling(current, t, i, j + 1)
  {
  }

  /** Column j > i is written into row i. */
  lemma RowFillingAdd(current: Partition, t: map<nat, map<nat, real>>, i: nat, j: nat, v: real, row: map<nat, real>)
    requires RowFilling(current, t, i, j)
    requires i != j && j !in t
    requires row == t[i][j := v]
    ensures RowFilling(current, t[i := row], i, j + 1)
  {
    var u := t[i := row];
    forall a: nat, c: nat | a in u && a < i ensures c in u[a] <==> a < c < |current| {
      assert u[a] == t[a];
    }
  }

  /** A finished row i: rows 0 .. i are done. */
  lemma RowFillingDone(current: Partition, t: map<nat, map<nat, real>>, i: nat)
    requires RowFilling(current, t, i, |current|)
    ensures RowsDone(current, t, i + 1)
  {
  }

  /** Writing the complete-link distance of a pair into its row keeps every entry right. */
  lemma EntriesUpdate(current: Partition, d: DistanceFn, t: map<nat, map<nat, real>>, i: nat, j: nat, v: real,
                      row: map<nat, real>)
    requires Entries(current, d, t)
    requires i in t && i < |current| && j < |current|
    requires MaxLinkage(current[i], current[j], d) == Ok(v)
    requires row == t[i][j := v]
    ensures Entries(current, d, t[i := row])
  {
    var u := t[i := row];
    forall a: nat, c: nat ensures EntryRight(current, d, u, a, c) {
      assert EntryRight(current, d, t, a, c);
    }
  }

  /** A finished table: every pair a < c has its complete-link distance, so none of them fails. */
  lemma TableOfEntries(current: Partition, d: DistanceFn, t: map<nat, map<nat, real>>)
    requires RowsDone(current, t, |current|) && Entries(current, d, t)
    ensures Table(current, CompleteLink, d, t)
    ensures forall a: nat, c: nat :: a < c < |current| ==> MaxLinkage(current[a], current[c], d).Ok?
  {
    forall a: nat, c: nat | a < c < |current| ensures MaxLinkage(current[a], current[c], d).Ok? {
      assert EntryRight(current, d, t, a, c);
    }
    forall a: nat, c: nat | a in t && c in t[a] ensures CompleteLink(current[a], current[c], d) == Ok(Some(t[a][c])) {
      assert EntryRight(current, d, t, a, c);
    }
  }

  /**
   * One step of both scans: an entry of the table smaller than the best so far
   * (or the first entry) becomes the best in both; anything else changes neither.
   */
  lemma TracksStep(current: Partition, link: LinkageFn, d: DistanceFn, t: map<nat, map<nat, real>>, i: nat, j: nat,
                   minDistance: Option<real>, index1: nat, index2: nat)
    requires Table(current, link, d, t)
    requires i < |current| && j < |current|
    requires Tracks(Scan(current, link, d, i, j), minDistance, index1, index2)
    ensures i in t
    ensures j in t[i] && (minDistance.None? || t[i][j] < minDistance.value) ==>
      Tracks(Scan(current, link, d, i, j + 1), Some(t[i][j]), i, j)
    ensures !(j in t[i] && (minDistance.None? || t[i][j] < minDistance.value)) ==>
      Tracks(Scan(current, link, d, i, j + 1), minDistance, index1, index2)
  {
    if i < j {
      assert j in t[i];
    }
  }

  /** A pair the first pass fails on makes the TypeScript scan fail too. */
  lemma TableFails(current: Partition, d: DistanceFn)
    requires |current| >= 2 && NonEmptyClusters(current)
    requires exists a: nat, c: nat :: a < c < |current| && MaxLinkage(current[a], current[c], d).Err?
    ensures FiniteLinkage(CompleteLink, d) && Selection(current, CompleteLink, d).Err?
  {
    Properties.CompleteLinkFits(d);
    var a: nat, c: nat :| a < c < |current| && MaxLinkage(current[a], current[c], d).Err?;
    assert CompleteLink(current[a], current[c], d).Err?;
    SelectionSpec(current, CompleteLink, d);
  }

  /** The completed TypeScript scan, read off the table: it finds the first closest pair, whose entry is its distance. */
  lemma ScanTableDone(current: Partition, link: LinkageFn, d: DistanceFn, t: map<nat, map<nat, real>>)
    requires |current| >= 2 && NonEmptyClusters(current) && FiniteLinkage(link, d)
    requires Table(current, link, d, t)
    requires Selection(current, link, d).Ok?
    ensures var b := Selection(current, link, d).value;
      b.index1 < b.index2 < |current| && b.index1 in t && b.index2 in t[b.index1] &&
      b.distance == Some(t[b.index1][b.index2]) &&
      ClosestPair(current, link, d, b.index1, b.index2)
  {
    SelectionSpec(current, link, d);
    var b := Selection(current, link, d).value;
    assert b.index1 in t && b.index2 in t[b.index1];
  }

  /**
   * The table scan's `min_distance` and `concerned_clusters_indexes` agree with
   * the TypeScript scan: same best distance, and the same pair once one is found
   * (before that, the `[1, 1]` of the table scan and the `[0, 0]` of the
   * TypeScript one differ, and neither is used).
   */
  ghost predicate Tracks(r: Result<Best>, minDistance: Option<real>, index1: nat, index2: nat)
  {
    r.Ok? && r.value.distance == minDistance &&
    (minDistance.Some? ==> r.value == Best(minDistance, index1, index2))
  }

  /**
   * The second pass (clustering.js:69-81): the keys come out in ascending
   * order, and an entry replaces the best so far only when strictly smaller
   * (the first entry always beats the starting `Infinity`, so the `[1, 1]`
   * fallback is never used). The pair found is the one the TypeScript scan
   * selects: the first closest pair.
   */
  method ClosestInTable(current: Partition, link: LinkageFn, d: DistanceFn, distances: map<nat, map<nat, real>>)
    returns (index1: nat, index2: nat)
    requires |current| >= 2 && NonEmptyClusters(current) && FiniteLinkage(link, d)
    requires Table(current, link, d, distances)
    ensures index1 < index2 < |current|
    ensures index1 in distances && index2 in distances[index1]
    ensures Selection(current, link, d) == Ok(Best(Some(distances[index1][index2]), index1, index2))
    ensures ClosestPair(current, link, d, index1, index2)
  {
    var m := |current|;
    var minDistance: Option<real> := None;
    index1, index2 := 1, 1;
    var i: nat := 0;
    while i < m
      invariant 0 <= i <= m
      invariant Tracks(Scan(current, link, d, i, 0), minDistance, index1, index2)
    {
      if i in distances {
        var j: nat := 0;
        while j < m
          invariant 0 <= j <= m
          invariant Tracks(Scan(current, link, d, i, j), minDistance, index1, index2)
        {
          TracksStep(current, link, d, distances, i, j, minDistance, index1, index2);
          if j in distances[i] && (minDistance.None? || distances[i][j] < minDistance.value) {
            minDistance, index1, index2 := Some(distances[i][j]), i, j;
          }
          j := j + 1;
        }
      }
      i := i + 1;
    }
    ScanTableDone(current, link, d, distances);
  }

  /**
   * `clusteringHierarchique(items, distance_fn)` (clustering.js:46-90): the
   * loop of the TypeScript engine with complete link, built from the two
   * passes above. It computes exactly the TypeScript run with `CompleteLink`.
   */
  method ClusteringHierarchique(items: seq<Point>, d: DistanceFn) returns (r: Result<seq<Partition>>)
    ensures FiniteLinkage(CompleteLink, d) && r == Clustering(items, CompleteLink, d)
  {
    Properties.CompleteLinkFits(d);
    var currentClusters := Singletons(items);
    var steps := [currentClusters];
    assert Prepend([], Run(currentClusters, CompleteLink, d)) == Run(currentClusters, CompleteLink, d) by {
      if Run(currentClusters, CompleteLink, d).Ok? {
        assert [] + Run(currentClusters, CompleteLink, d).value == Run(currentClusters, CompleteLink, d).value;
      }
    }
    while |currentClusters| > 1
      invariant NonEmptyClusters(currentClusters)
      invariant |steps| >= 1 && steps[|steps| - 1] == currentClusters
      invariant Clustering(items, CompleteLink, d) ==
        Prepend(steps[..|steps| - 1], Run(currentClusters, CompleteLink, d))
      decreases |currentClusters|
    {
      var table := FillDistances(currentClusters, d);
      if table.Err? {
        TableFails(currentClusters, d);
        return Err(table.error);
      }
      var index1, index2 := ClosestInTable(currentClusters, CompleteLink, d, table.value);
      RunStep(currentClusters, CompleteLink, d, Selection(currentClusters, CompleteLink, d).value, steps[..|steps| - 1]);
      var newClusters := Without(currentClusters, index1, index2);
      newClusters := newClusters + [currentClusters[index1] + currentClusters[index2]];
      SplitLast(steps);
      steps := steps + [newClusters];
      SplitLast(steps);
      currentClusters := newClusters;
    }
    assert Run(currentClusters, CompleteLink, d) == Ok([currentClusters]);
    SplitLast(steps);
    return Ok(steps);
  }
}
