/**
 * Linkage functions of src/clustering.ts: `minDistanceInCluster` (single
 * link), `maxDistanceInCluster` (complete link) and `avgDistanceInCluster`
 * (average link). Each runs the point distance over every pair
 * (item1 of cluster1, item2 of cluster2) in nested loops and folds the
 * results into one number; a distance that throws stops the loops.
 *
 * The functions state what the loops compute, from the list of all the
 * comparisons in the order the loops make them; the methods are the loops.
 */
module Linkage {
  import opened Types
  import Distance

  /** The comparisons of one pass of the inner loop: d(x, y) for every y of c2, in order. */
  function Row(x: Point, c2: Cluster, d: DistanceFn): seq<Result<real>>
  {
    if c2 == [] then [] else Row(x, c2[..|c2| - 1], d) + [d(x, c2[|c2| - 1])]
  }

  /** Every comparison of the nested loops, in the order they are made. */
  function PairResults(c1: Cluster, c2: Cluster, d: DistanceFn): seq<Result<real>>
  {
    if c1 == [] then [] else PairResults(c1[..|c1| - 1], c2, d) + Row(c1[|c1| - 1], c2, d)
  }

  /** The values of a run of comparisons, or the first error, which ends the run. */
  function Collect(rs: seq<Result<real>>): Result<seq<real>>
  {
    if rs == [] then Ok([])
    else
      match Collect(rs[..|rs| - 1])
      case Err(e) => Err(e)
      case Ok(vs) =>
        match rs[|rs| - 1]
        case Err(e) => Err(e)
        case Ok(v) => Ok(vs + [v])
  }

  /** `x` and `y` of the clusters are `d`-apart. */
  ghost predicate CrossDistance(c1: Cluster, c2: Cluster, d: DistanceFn, w: real)
  {
    exists i, j :: 0 <= i < |c1| && 0 <= j < |c2| && d(c1[i], c2[j]) == Ok(w)
  }

  /** Some pair of the clusters cannot be compared. */
  ghost predicate CrossError(c1: Cluster, c2: Cluster, d: DistanceFn)
  {
    exists i, j :: 0 <= i < |c1| && 0 <= j < |c2| && d(c1[i], c2[j]).Err?
  }

  // ---------------------------------------------------------------- folds

  /** `if (d < distance) distance = d`, where `None` is the starting `Infinity`. */
  function KeepSmaller(acc: Option<real>, v: real): Option<real>
  {
    if acc.None? || v < acc.value then Some(v) else acc
  }

  /** The single-link accumulator after a run of distances. */
  function MinOf(ds: seq<real>): Option<real>
  {
    if ds == [] then None else KeepSmaller(MinOf(ds[..|ds| - 1]), ds[|ds| - 1])
  }

  /** The complete-link accumulator after a run of distances: it starts at -1, `if (d > distance) distance = d`. */
  function MaxOf(ds: seq<real>): real
  {
    if ds == [] then -1.0
    else
      var acc := MaxOf(ds[..|ds| - 1]);
      if ds[|ds| - 1] > acc then ds[|ds| - 1] else acc
  }

  /** `sum / i`; `None` is the `NaN` of `0 / 0`. */
  function Average(ds: seq<real>): Option<real>
  {
    if |ds| == 0 then None else Some(Distance.Sum(ds) / |ds| as real)
  }

  lemma {:induction false} MinOfSpec(ds: seq<real>)
    ensures MinOf(ds).None? <==> ds == []
    ensures MinOf(ds).Some? ==> MinOf(ds).value in ds
    ensures MinOf(ds).Some? ==> forall k :: 0 <= k < |ds| ==> MinOf(ds).value <= ds[k]
    decreases |ds|
  {
    if ds != [] {
      MinOfSpec(ds[..|ds| - 1]);
    }
  }

  lemma {:induction false} MaxOfSpec(ds: seq<real>)
    ensures MaxOf(ds) >= -1.0
    ensures forall k :: 0 <= k < |ds| ==> ds[k] <= MaxOf(ds)
    ensures MaxOf(ds) == -1.0 || MaxOf(ds) in ds
    ensures (exists k :: 0 <= k < |ds| && ds[k] >= -1.0) ==> MaxOf(ds) in ds
    decreases |ds|
  {
    if ds != [] {
      var init := ds[..|ds| - 1];
      MaxOfSpec(init);
      if exists k :: 0 <= k < |ds| && ds[k] >= -1.0 {
        var k :| 0 <= k < |ds| && ds[k] >= -1.0;
        if k < |init| {
          assert init[k] == ds[k];
        }
      }
    }
  }

  // ---------------------------------------------------- the comparisons

  lemma {:induction false} RowSpec(x: Point, c2: Cluster, d: DistanceFn)
    ensures |Row(x, c2, d)| == |c2|
    ensures forall j :: 0 <= j < |c2| ==> Row(x, c2, d)[j] == d(x, c2[j])
    decreases |c2|
  {
    if c2 != [] {
      RowSpec(x, c2[..|c2| - 1], d);
    }
  }

  lemma {:induction false} PairResultsLength(c1: Cluster, c2: Cluster, d: DistanceFn)
    ensures |PairResults(c1, c2, d)| == |c1| * |c2|
    decreases |c1|
  {
    if c1 != [] {
      PairResultsLength(c1[..|c1| - 1], c2, d);
      RowSpec(c1[|c1| - 1], c2, d);
      assert |c1| * |c2| == (|c1| - 1) * |c2| + |c2|;
    }
  }

  /** Every pair of the clusters is compared. */
  lemma {:induction false} PairCompared(c1: Cluster, c2: Cluster, d: DistanceFn, i: nat, j: nat)
    requires i < |c1| && j < |c2|
    ensures d(c1[i], c2[j]) in PairResults(c1, c2, d)
    decreases |c1|
  {
    var init := c1[..|c1| - 1];
    if i == |c1| - 1 {
      RowSpec(c1[i], c2, d);
      assert Row(c1[i], c2, d)[j] == d(c1[i], c2[j]);
    } else {
      PairCompared(init, c2, d, i, j);
      assert init[i] == c1[i];
    }
  }

  /** Every comparison is of a pair of the clusters. */
  lemma {:induction false} ComparedPair(c1: Cluster, c2: Cluster, d: DistanceFn, r: Result<real>)
    requires r in PairResults(c1, c2, d)
    ensures exists i, j :: 0 <= i < |c1| && 0 <= j < |c2| && r == d(c1[i], c2[j])
    decreases |c1|
  {
    var init := c1[..|c1| - 1];
    var row := Row(c1[|c1| - 1], c2, d);
    RowSpec(c1[|c1| - 1], c2, d);
    if r in row {
      var j :| 0 <= j < |c2| && row[j] == r;
      assert r == d(c1[|c1| - 1], c2[j]);
    } else {
      ComparedPair(init, c2, d, r);
      var i, j :| 0 <= i < |init| && 0 <= j < |c2| && r == d(init[i], c2[j]);
      assert r == d(c1[i], c2[j]);
    }
  }

  lemma {:induction false} CollectSpec(rs: seq<Result<real>>)
    ensures Collect(rs).Err? <==> exists k :: 0 <= k < |rs| && rs[k].Err?
    ensures Collect(rs).Ok? ==>
      |Collect(rs).value| == |rs| && forall k :: 0 <= k < |rs| ==> rs[k] == Ok(Collect(rs).value[k])
    decreases |rs|
  {
    if rs != [] {
      var init := rs[..|rs| - 1];
      CollectSpec(init);
      if Collect(rs).Err? && Collect(init).Err? {
        var k :| 0 <= k < |init| && init[k].Err?;
        assert rs[k].Err?;
      }
    }
  }

  /** The nested loops stop with an error exactly when some pair cannot be compared. */
  lemma CrossErrors(c1: Cluster, c2: Cluster, d: DistanceFn)
    ensures Collect(PairResults(c1, c2, d)).Err? <==> CrossError(c1, c2, d)
  {
    var rs := PairResults(c1, c2, d);
    CollectSpec(rs);
    if CrossError(c1, c2, d) {
      var i, j :| 0 <= i < |c1| && 0 <= j < |c2| && d(c1[i], c2[j]).Err?;
      PairCompared(c1, c2, d, i, j);
      var k :| 0 <= k < |rs| && rs[k] == d(c1[i], c2[j]);
    }
    if Collect(rs).Err? {
      var k :| 0 <= k < |rs| && rs[k].Err?;
      ComparedPair(c1, c2, d, rs[k]);
    }
  }

  /** Otherwise they collect the distance of every pair ... */
  lemma CrossCollected(c1: Cluster, c2: Cluster, d: DistanceFn, i: nat, j: nat)
    requires Collect(PairResults(c1, c2, d)).Ok?
    requires i < |c1| && j < |c2|
    ensures d(c1[i], c2[j]).Ok? && d(c1[i], c2[j]).value in Collect(PairResults(c1, c2, d)).value
  {
    var rs := PairResults(c1, c2, d);
    CollectSpec(rs);
    PairCompared(c1, c2, d, i, j);
    var k :| 0 <= k < |rs| && rs[k] == d(c1[i], c2[j]);
    assert Collect(rs).value[k] == d(c1[i], c2[j]).value;
  }

  /** ... and nothing else. */
  lemma CollectedCross(c1: Cluster, c2: Cluster, d: DistanceFn, w: real)
    requires Collect(PairResults(c1, c2, d)).Ok?
    requires w in Collect(PairResults(c1, c2, d)).value
    ensures CrossDistance(c1, c2, d, w)
  {
    var rs := PairResults(c1, c2, d);
    var ds := Collect(rs).value;
    CollectSpec(rs);
    var k :| 0 <= k < |ds| && ds[k] == w;
    assert rs[k] in rs;
    ComparedPair(c1, c2, d, rs[k]);
  }

  /** They collect one value per pair. */
  lemma CollectedCount(c1: Cluster, c2: Cluster, d: DistanceFn)
    requires Collect(PairResults(c1, c2, d)).Ok?
    ensures |Collect(PairResults(c1, c2, d)).value| == |c1| * |c2|
    ensures |Collect(PairResults(c1, c2, d)).value| == 0 <==> c1 == [] || c2 == []
  {
    CollectSpec(PairResults(c1, c2, d));
    PairResultsLength(c1, c2, d);
    ProductZero(|c1|, |c2|);
  }

  lemma ProductZero(a: nat, b: nat)
    ensures a * b == 0 <==> a == 0 || b == 0
  {
    if a > 0 && b > 0 {
      assert a * b >= b;
    }
  }

  /** One step of a loop over the comparisons: the next comparison joins the collected values. */
  lemma CollectSnoc(rs: seq<Result<real>>, seen: seq<real>, v: real)
    requires Collect(rs) == Ok(seen)
    ensures Collect(rs + [Ok(v)]) == Ok(seen + [v])
  {
    assert (rs + [Ok(v)])[..|rs|] == rs;
  }

  /** The comparisons the nested loops have made after rows 0 .. i-1 and the first j items of row i. */
  function Compared(c1: Cluster, c2: Cluster, d: DistanceFn, i: nat, j: nat): seq<Result<real>>
    requires i < |c1| && j <= |c2|
  {
    PairResults(c1[..i], c2, d) + Row(c1[i], c2[..j], d)
  }

  /** The inner loop makes one more comparison; if it succeeds its value is collected. */
  lemma ComparedStep(c1: Cluster, c2: Cluster, d: DistanceFn, i: nat, j: nat, seen: seq<real>, v: real)
    requires i < |c1| && j < |c2|
    requires Collect(Compared(c1, c2, d, i, j)) == Ok(seen)
    requires d(c1[i], c2[j]) == Ok(v)
    ensures Collect(Compared(c1, c2, d, i, j + 1)) == Ok(seen + [v])
  {
    assert c2[..j + 1][..j] == c2[..j];
    assert Compared(c1, c2, d, i, j + 1) == Compared(c1, c2, d, i, j) + [Ok(v)];
    CollectSnoc(Compared(c1, c2, d, i, j), seen, v);
  }

  /** A failing comparison makes the whole run of comparisons fail. */
  lemma ComparedFails(c1: Cluster, c2: Cluster, d: DistanceFn, i: nat, j: nat)
    requires i < |c1| && j < |c2|
    requires d(c1[i], c2[j]).Err?
    ensures Collect(PairResults(c1, c2, d)).Err?
  {
    CrossErrors(c1, c2, d);
  }

  /** Row i starts after the earlier rows. */
  lemma RowStart(c1: Cluster, c2: Cluster, d: DistanceFn, i: nat)
    requires i < |c1|
    ensures Compared(c1, c2, d, i, 0) == PairResults(c1[..i], c2, d)
  {
    assert c2[..0] == [];
  }

  /** A finished row i completes rows 0 .. i. */
  lemma RowDone(c1: Cluster, c2: Cluster, d: DistanceFn, i: nat)
    requires i < |c1|
    ensures Compared(c1, c2, d, i, |c2|) == PairResults(c1[..i + 1], c2, d)
  {
    assert c2[..|c2|] == c2;
    assert c1[..i + 1][..i] == c1[..i];
  }

  lemma MinOfSnoc(ds: seq<real>, v: real)
    ensures MinOf(ds + [v]) == KeepSmaller(MinOf(ds), v)
  {
    assert (ds + [v])[..|ds|] == ds;
  }

  lemma MaxOfSnoc(ds: seq<real>, v: real)
    ensures MaxOf(ds + [v]) == if v > MaxOf(ds) then v else MaxOf(ds)
  {
    assert (ds + [v])[..|ds|] == ds;
  }

  lemma SumSnoc(ds: seq<real>, v: real)
    ensures Distance.Sum(ds + [v]) == Distance.Sum(ds) + v
  {
    assert (ds + [v])[..|ds|] == ds;
  }

  // ----------------------------------------------------- single link

  /** `minDistanceInCluster`: `None` stands for the `Infinity` it returns on an empty cluster. */
  function MinLinkage(c1: Cluster, c2: Cluster, d: DistanceFn): Result<Option<real>>
  {
    match Collect(PairResults(c1, c2, d))
    case Err(e) => Err(e)
    case Ok(ds) => Ok(MinOf(ds))
  }

  /**
   * An error exactly when some pair cannot be compared; `Infinity` exactly when
   * a cluster is empty; otherwise the smallest cross-pair distance: no pair is
   * closer, and some pair is that close.
   */
  lemma MinLinkageSpec(c1: Cluster, c2: Cluster, d: DistanceFn)
    ensures MinLinkage(c1, c2, d).Err? <==> CrossError(c1, c2, d)
    ensures MinLinkage(c1, c2, d) == Ok(None) <==> !CrossError(c1, c2, d) && (c1 == [] || c2 == [])
    ensures MinLinkage(c1, c2, d).Ok? && MinLinkage(c1, c2, d).value.Some? ==>
      var m := MinLinkage(c1, c2, d).value.value;
      CrossDistance(c1, c2, d, m) &&
      forall i, j :: 0 <= i < |c1| && 0 <= j < |c2| ==> m <= d(c1[i], c2[j]).value
  {
    CrossErrors(c1, c2, d);
    if Collect(PairResults(c1, c2, d)).Ok? {
      var ds := Collect(PairResults(c1, c2, d)).value;
      MinOfSpec(ds);
      CollectedCount(c1, c2, d);
      if ds != [] {
        var m := MinOf(ds).value;
        CollectedCross(c1, c2, d, m);
        forall i, j | 0 <= i < |c1| && 0 <= j < |c2| ensures m <= d(c1[i], c2[j]).value {
          CrossCollected(c1, c2, d, i, j);
        }
      }
    }
  }

  method MinDistanceInCluster(c1: Cluster, c2: Cluster, d: DistanceFn) returns (r: Result<Option<real>>)
    ensures r == MinLinkage(c1, c2, d)
  {
    var distance: Option<real> := None;
    ghost var seen: seq<real> := [];
    var i := 0;
    while i < |c1|
      invariant 0 <= i <= |c1|
      invariant Collect(PairResults(c1[..i], c2, d)) == Ok(seen)
      invariant distance == MinOf(seen)
    {
      var j := 0;
      RowStart(c1, c2, d, i);
      while j < |c2|
        invariant 0 <= j <= |c2|
        invariant Collect(Compared(c1, c2, d, i, j)) == Ok(seen)
        invariant distance == MinOf(seen)
      {
        var dij := d(c1[i], c2[j]);
        if dij.Err? {
          ComparedFails(c1, c2, d, i, j);
          return Err(dij.error);
        }
        if distance.None? || dij.value < distance.value {
          distance := Some(dij.value);
        }
        ComparedStep(c1, c2, d, i, j, seen, dij.value);
        MinOfSnoc(seen, dij.value);
        seen := seen + [dij.value];
        j := j + 1;
      }
      RowDone(c1, c2, d, i);
      i := i + 1;
    }
    assert c1[..i] == c1;
    return Ok(distance);
  }

  // --------------------------------------------------- complete link

  /** `maxDistanceInCluster`: -1 when a cluster is empty. */
  function MaxLinkage(c1: Cluster, c2: Cluster, d: DistanceFn): Result<real>
  {
    match Collect(PairResults(c1, c2, d))
    case Err(e) => Err(e)
    case Ok(ds) => Ok(MaxOf(ds))
  }

  /**
   * An error exactly when some pair cannot be compared; -1 when a cluster is
   * empty; otherwise no pair is farther apart than the result, and when some
   * distance is at least -1 (as every true distance is) some pair is that far.
   */
  lemma MaxLinkageSpec(c1: Cluster, c2: Cluster, d: DistanceFn)
    ensures MaxLinkage(c1, c2, d).Err? <==> CrossError(c1, c2, d)
    ensures !CrossError(c1, c2, d) && (c1 == [] || c2 == []) ==> MaxLinkage(c1, c2, d) == Ok(-1.0)
    ensures MaxLinkage(c1, c2, d).Ok? ==>
      var m := MaxLinkage(c1, c2, d).value;
      m >= -1.0 &&
      (forall i, j :: 0 <= i < |c1| && 0 <= j < |c2| ==> d(c1[i], c2[j]).value <= m) &&
      ((exists i, j :: 0 <= i < |c1| && 0 <= j < |c2| && d(c1[i], c2[j]).value >= -1.0) ==>
        CrossDistance(c1, c2, d, m))
  {
    CrossErrors(c1, c2, d);
    if Collect(PairResults(c1, c2, d)).Ok? {
      var ds := Collect(PairResults(c1, c2, d)).value;
      MaxOfSpec(ds);
      CollectedCount(c1, c2, d);
      var m := MaxOf(ds);
      forall i, j | 0 <= i < |c1| && 0 <= j < |c2| ensures d(c1[i], c2[j]).value <= m {
        CrossCollected(c1, c2, d, i, j);
      }
      if exists i, j :: 0 <= i < |c1| && 0 <= j < |c2| && d(c1[i], c2[j]).value >= -1.0 {
        var i, j :| 0 <= i < |c1| && 0 <= j < |c2| && d(c1[i], c2[j]).value >= -1.0;
        CrossCollected(c1, c2, d, i, j);
        CollectedCross(c1, c2, d, m);
      }
    }
  }

  method MaxDistanceInCluster(c1: Cluster, c2: Cluster, d: DistanceFn) returns (r: Result<real>)
    ensures r == MaxLinkage(c1, c2, d)
  {
    var distance := -1.0;
    ghost var seen: seq<real> := [];
    var i := 0;
    while i < |c1|
      invariant 0 <= i <= |c1|
      invariant Collect(PairResults(c1[..i], c2, d)) == Ok(seen)
      invariant distance == MaxOf(seen)
    {
      var j := 0;
      RowStart(c1, c2, d, i);
      while j < |c2|
        invariant 0 <= j <= |c2|
        invariant Collect(Compared(c1, c2, d, i, j)) == Ok(seen)
        invariant distance == MaxOf(seen)
      {
        var dij := d(c1[i], c2[j]);
        if dij.Err? {
          ComparedFails(c1, c2, d, i, j);
          return Err(dij.error);
        }
        if dij.value > distance {
          distance := dij.value;
        }
        ComparedStep(c1, c2, d, i, j, seen, dij.value);
        MaxOfSnoc(seen, dij.value);
        seen := seen + [dij.value];
        j := j + 1;
      }
      RowDone(c1, c2, d, i);
      i := i + 1;
    }
    assert c1[..i] == c1;
    return Ok(distance);
  }

  /** Complete link in the engine's shape: -1 and every other value are finite. */
  function CompleteLink(c1: Cluster, c2: Cluster, d: DistanceFn): (r: Result<Option<real>>)
    ensures r.Ok? <==> MaxLinkage(c1, c2, d).Ok?
    ensures r.Ok? ==> r.value == Some(MaxLinkage(c1, c2, d).value)
  {
    match MaxLinkage(c1, c2, d)
    case Err(e) => Err(e)
    case Ok(m) => Ok(Some(m))
  }

  // ---------------------------------------------------- average link

  /** `avgDistanceInCluster`: `None` stands for the `NaN` (0 / 0) of an empty cluster. */
  function AvgLinkage(c1: Cluster, c2: Cluster, d: DistanceFn): Result<Option<real>>
  {
    match Collect(PairResults(c1, c2, d))
    case Err(e) => Err(e)
    case Ok(ds) => Ok(Average(ds))
  }

  /**
   * An error exactly when some pair cannot be compared; `NaN` exactly when a
   * cluster is empty; otherwise the sum of the cross-pair distances over
   * |c1| * |c2|.
   */
  lemma AvgLinkageSpec(c1: Cluster, c2: Cluster, d: DistanceFn)
    ensures AvgLinkage(c1, c2, d).Err? <==> CrossError(c1, c2, d)
    ensures AvgLinkage(c1, c2, d) == Ok(None) <==> !CrossError(c1, c2, d) && (c1 == [] || c2 == [])
    ensures AvgLinkage(c1, c2, d).Ok? && c1 != [] && c2 != [] ==>
      AvgLinkage(c1, c2, d) ==
        Ok(Some(Distance.Sum(Collect(PairResults(c1, c2, d)).value) / (|c1| * |c2|) as real))
  {
    CrossErrors(c1, c2, d);
    if Collect(PairResults(c1, c2, d)).Ok? {
      CollectedCount(c1, c2, d);
    }
  }

  /** For two one-point clusters the average is the distance of the two points. */
  lemma AvgOfSingletons(x: Point, y: Point, d: DistanceFn)
    ensures AvgLinkage([x], [y], d) == match d(x, y) case Ok(v) => Ok(Some(v)) case Err(e) => Err(e)
  {
    var rs := PairResults([x], [y], d);
    assert [x][..0] == [] && [y][..0] == [];
    assert Row(x, [y], d) == Row(x, [], d) + [d(x, y)] == [d(x, y)];
    assert rs == PairResults([], [y], d) + Row(x, [y], d) == [d(x, y)];
    assert rs[..0] == [];
    if d(x, y).Ok? {
      var ds := [d(x, y).value];
      assert Collect(rs) == Ok([] + ds);
      assert ds[..0] == [];
      assert Distance.Sum(ds) == Distance.Sum([]) + d(x, y).value;
    }
  }

  /** The average lies between the single-link and the complete-link distances. */
  lemma AvgBetweenMinAndMax(c1: Cluster, c2: Cluster, d: DistanceFn)
    requires c1 != [] && c2 != []
    requires AvgLinkage(c1, c2, d).Ok?
    ensures MinLinkage(c1, c2, d).Ok? && MinLinkage(c1, c2, d).value.Some?
    ensures AvgLinkage(c1, c2, d).value.Some?
    ensures MinLinkage(c1, c2, d).value.value <= AvgLinkage(c1, c2, d).value.value <= MaxLinkage(c1, c2, d).value
  {
    var ds := Collect(PairResults(c1, c2, d)).value;
    CollectedCount(c1, c2, d);
    MinOfSpec(ds);
    MaxOfSpec(ds);
    var lo, hi := MinOf(ds).value, MaxOf(ds);
    assert MinLinkage(c1, c2, d) == Ok(Some(lo));
    assert MaxLinkage(c1, c2, d) == Ok(hi);
    assert AvgLinkage(c1, c2, d) == Ok(Average(ds));
    MeanBounds(ds, lo, hi);
  }

  lemma MeanBounds(ds: seq<real>, lo: real, hi: real)
    requires ds != []
    requires forall k :: 0 <= k < |ds| ==> lo <= ds[k] <= hi
    ensures Average(ds).Some? && lo <= Average(ds).value <= hi
  {
    SumBounds(ds, lo, hi);
    MeanBetween(Distance.Sum(ds), |ds| as real, lo, hi);
  }

  lemma {:induction false} SumBounds(ds: seq<real>, lo: real, hi: real)
    requires forall k :: 0 <= k < |ds| ==> lo <= ds[k] <= hi
    ensures |ds| as real * lo <= Distance.Sum(ds) <= |ds| as real * hi
    decreases |ds|
  {
    if ds != [] {
      var n := |ds| - 1;
      SumBounds(ds[..n], lo, hi);
      assert (n + 1) as real * lo == n as real * lo + lo;
      assert (n + 1) as real * hi == n as real * hi + hi;
    }
  }

  lemma MeanBetween(s: real, n: real, lo: real, hi: real)
    requires n > 0.0
    requires n * lo <= s <= n * hi
    ensures lo <= s / n <= hi
  {
  }

  method AvgDistanceInCluster(c1: Cluster, c2: Cluster, d: DistanceFn) returns (r: Result<Option<real>>)
    ensures r == AvgLinkage(c1, c2, d)
  {
    var sum := 0.0;
    var count := 0;
    ghost var seen: seq<real> := [];
    var i := 0;
    while i < |c1|
      invariant 0 <= i <= |c1|
      invariant Collect(PairResults(c1[..i], c2, d)) == Ok(seen)
      invariant sum == Distance.Sum(seen) && count == |seen|
    {
      var j := 0;
      RowStart(c1, c2, d, i);
      while j < |c2|
        invariant 0 <= j <= |c2|
        invariant Collect(Compared(c1, c2, d, i, j)) == Ok(seen)
        invariant sum == Distance.Sum(seen) && count == |seen|
      {
        var dij := d(c1[i], c2[j]);
        if dij.Err? {
          ComparedFails(c1, c2, d, i, j);
          return Err(dij.error);
        }
        sum := sum + dij.value;
        count := count + 1;
        ComparedStep(c1, c2, d, i, j, seen, dij.value);
        SumSnoc(seen, dij.value);
        seen := seen + [dij.value];
        j := j + 1;
      }
      RowDone(c1, c2, d, i);
      i := i + 1;
    }
    assert c1[..i] == c1;
    if count == 0 {
      return Ok(None);
    }
    return Ok(Some(sum / count as real));
  }
}
