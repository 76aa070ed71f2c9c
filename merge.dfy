/**
 * The merge of one round of `hierarchicalClustering` (src/clustering.ts:150-156):
 * the clusters other than the two chosen ones keep their order, and the union
 * of the two chosen ones, first cluster's points first, goes at the end.
 */
module Merging {
  import opened Types

  /** `current_clusters.filter((_, index) => index !== index1 && index !== index2)` */
  function Without(p: Partition, i1: nat, i2: nat): Partition
  {
    if p == [] then []
    else
      var last := |p| - 1;
      Without(p[..last], i1, i2) + (if last != i1 && last != i2 then [p[last]] else [])
  }

  /** The new partition: the filtered clusters, then `[...current_clusters[index1], ...current_clusters[index2]]`. */
  function Merge(p: Partition, i1: nat, i2: nat): Partition
    requires i1 < |p| && i2 < |p|
  {
    Without(p, i1, i2) + [p[i1] + p[i2]]
  }

  /** The filter, on the first n clusters, for two indexes i < j. */
  lemma {:induction false} WithoutPrefix(p: Partition, i: nat, j: nat, n: nat)
    requires i < j < |p| && n <= |p|
    ensures n <= i ==> Without(p[..n], i, j) == p[..n]
    ensures i < n <= j ==> Without(p[..n], i, j) == p[..i] + p[i + 1..n]
    ensures j < n ==> Without(p[..n], i, j) == p[..i] + p[i + 1..j] + p[j + 1..n]
    decreases n
  {
    if n > 0 {
      var m := n - 1;
      WithoutPrefix(p, i, j, m);
      assert p[..n][..m] == p[..m];
      var rest := Without(p[..m], i, j);
      assert Without(p[..n], i, j) == rest + (if m != i && m != j then [p[m]] else []);
      if m < i {
        assert p[..n] == p[..m] + [p[m]];
      } else if m == i {
        assert p[i + 1..n] == [];
      } else if m < j {
        assert p[i + 1..n] == p[i + 1..m] + [p[m]];
      } else if m == j {
        assert p[j + 1..n] == [];
      } else {
        assert p[j + 1..n] == p[j + 1..m] + [p[m]];
      }
    }
  }

  /**
   * For two distinct chosen clusters i < j, the new partition is the old one
   * with both taken out, the rest in their original order, and their union
   * appended: one cluster fewer, no cluster empty if none was.
   */
  lemma MergeShape(p: Partition, i: nat, j: nat)
    requires i < j < |p|
    ensures Merge(p, i, j) == p[..i] + p[i + 1..j] + p[j + 1..] + [p[i] + p[j]]
    ensures |Merge(p, i, j)| == |p| - 1
    ensures NonEmptyClusters(p) ==> NonEmptyClusters(Merge(p, i, j))
  {
    WithoutPrefix(p, i, j, |p|);
    assert p[..|p|] == p;
    var q := Merge(p, i, j);
    if NonEmptyClusters(p) {
      forall k | 0 <= k < |q| ensures q[k] != [] {
        if k < i {
          assert q[k] == p[k];
        } else if k < j - 1 {
          assert q[k] == p[k + 1];
        } else if k < |p| - 2 {
          assert q[k] == p[k + 2];
        }
      }
    }
  }

  /** The merge neither loses nor duplicates a point: same multiset of points before and after. */
  lemma MergeKeepsPoints(p: Partition, i: nat, j: nat)
    requires i < j < |p|
    ensures multiset(Flatten(Merge(p, i, j))) == multiset(Flatten(p))
  {
    MergeShape(p, i, j);
    var a, b, c := p[..i], p[i + 1..j], p[j + 1..];
    var x, y := p[i], p[j];
    SplitAround(p, i, j);
    FlattenAround(a, x, b, y, c);
    FlattenThenOne(a, b, c, x + y);
    MultisetRearrange(Flatten(a), x, Flatten(b), y, Flatten(c));
  }

  lemma SplitAround(p: Partition, i: nat, j: nat)
    requires i < j < |p|
    ensures p == p[..i] + [p[i]] + p[i + 1..j] + [p[j]] + p[j + 1..]
  {
  }

  lemma FlattenAround(a: Partition, x: Cluster, b: Partition, y: Cluster, c: Partition)
    ensures Flatten(a + [x] + b + [y] + c) == Flatten(a) + x + Flatten(b) + y + Flatten(c)
  {
    FlattenAppend(a + [x] + b + [y], c);
    FlattenAppend(a + [x] + b, [y]);
    FlattenAppend(a + [x], b);
    FlattenAppend(a, [x]);
  }

  lemma FlattenThenOne(a: Partition, b: Partition, c: Partition, x: Cluster)
    ensures Flatten(a + b + c + [x]) == Flatten(a) + Flatten(b) + Flatten(c) + x
  {
    FlattenAppend(a + b + c, [x]);
    FlattenAppend(a + b, c);
    FlattenAppend(a, b);
  }

  lemma MultisetRearrange(fa: seq<Point>, x: seq<Point>, fb: seq<Point>, y: seq<Point>, fc: seq<Point>)
    ensures multiset(fa + fb + fc + (x + y)) == multiset(fa + x + fb + y + fc)
  {
  }
}
