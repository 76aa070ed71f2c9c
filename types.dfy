/**
 * Shared vocabulary of the clustering engine: points, clusters, partitions,
 * the single error the engine can raise, and the multiset view of a partition.
 */
module Types {

  /** A point is its list of coordinates. */
  type Point = seq<real>

  /** A cluster is a list of points (its order is the order of the merges). */
  type Cluster = seq<Point>

  /** A partition (one step of the run) is a list of clusters. */
  type Partition = seq<Cluster>

  /** The one error of the engine: two compared points have different dimensions. */
  datatype Error = DimensionMismatch

  datatype Result<+T> = Ok(value: T) | Err(error: Error)

  datatype Option<+T> = None | Some(value: T)

  /** A point distance: `manhattan`, `euclidian`, or any function of that shape. */
  type DistanceFn = (Point, Point) -> Result<real>

  /**
   * A cluster distance (linkage). `None` stands for the IEEE values `Infinity`
   * and `NaN`, which never compare smaller than anything.
   */
  type LinkageFn = (Cluster, Cluster, DistanceFn) -> Result<Option<real>>

  /** All the points of a partition, cluster after cluster. */
  function Flatten(p: Partition): (r: seq<Point>)
    ensures |p| == 1 ==> r == p[0]
  {
    if p == [] then [] else Flatten(p[..|p| - 1]) + p[|p| - 1]
  }

  lemma {:induction false} FlattenAppend(p: Partition, q: Partition)
    ensures Flatten(p + q) == Flatten(p) + Flatten(q)
    decreases |q|
  {
    if q == [] {
      assert p + q == p;
    } else {
      var last := |q| - 1;
      assert (p + q)[..|p + q| - 1] == p + q[..last];
      FlattenAppend(p, q[..last]);
    }
  }

  /** Every point of the partition is a point of some cluster of it, and conversely. */
  lemma {:induction false} FlattenMembers(p: Partition, x: Point)
    ensures x in Flatten(p) <==> exists k :: 0 <= k < |p| && x in p[k]
    decreases |p|
  {
    if p != [] {
      var init := p[..|p| - 1];
      FlattenMembers(init, x);
      assert forall k :: 0 <= k < |init| ==> init[k] == p[k];
    }
  }

  /** Step 0 of every run: each point in a cluster of its own, in input order. */
  function Singletons(items: seq<Point>): (r: Partition)
    ensures |r| == |items|
    ensures forall k :: 0 <= k < |items| ==> r[k] == [items[k]]
  {
    seq(|items|, k requires 0 <= k < |items| => [items[k]])
  }

  lemma {:induction false} FlattenSingletons(items: seq<Point>)
    ensures Flatten(Singletons(items)) == items
    decreases |items|
  {
    if items != [] {
      var init := items[..|items| - 1];
      FlattenSingletons(init);
      assert Singletons(items)[..|items| - 1] == Singletons(init);
    }
  }

  /** No cluster of the partition is empty. */
  predicate NonEmptyClusters(p: Partition)
  {
    forall k :: 0 <= k < |p| ==> p[k] != []
  }
}
