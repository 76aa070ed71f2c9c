/**
 * Point distances of src/clustering.ts: `manhattan` and `euclidian`.
 * Both pair the coordinates index-wise (`zip`), map each pair to a per-axis
 * gap, and add the gaps up from 0 (`reduce((acc, v) => acc + v, 0)`).
 * Both refuse two points of different dimensions.
 */
module Distance {
  import opened Types

  /** Index-wise pairing of two coordinate lists; it stops at the shorter one. */
  function Zip(a: Point, b: Point): (r: seq<(real, real)>)
    ensures |r| == if |a| <= |b| then |a| else |b|
    ensures forall k :: 0 <= k < |r| ==> r[k] == (a[k], b[k])
  {
    var n := if |a| <= |b| then |a| else |b|;
    seq(n, k requires 0 <= k < n => (a[k], b[k]))
  }

  /** `a > b ? a - b : b - a` */
  function AbsDiff(a: real, b: real): (r: real)
    ensures r >= 0.0 && (r == a - b || r == b - a)
  {
    if a > b then a - b else b - a
  }

  /** The Manhattan map step: the absolute gap on every axis. */
  function Gaps(z: seq<(real, real)>): (r: seq<real>)
    ensures |r| == |z|
    ensures forall k :: 0 <= k < |z| ==> r[k] == AbsDiff(z[k].0, z[k].1)
  {
    seq(|z|, k requires 0 <= k < |z| => AbsDiff(z[k].0, z[k].1))
  }

  /** `Math.pow(x, 2)` */
  function Square(x: real): real
  {
    x * x
  }

  /** The Euclidean map step: `Math.pow(b - a, 2)` on every axis. */
  function Squares(z: seq<(real, real)>): (r: seq<real>)
    ensures |r| == |z|
    ensures forall k :: 0 <= k < |z| ==> r[k] == Square(z[k].1 - z[k].0)
  {
    seq(|z|, k requires 0 <= k < |z| => Square(z[k].1 - z[k].0))
  }

  /** `reduce((acc, v) => acc + v, 0)`: a left fold that starts from 0. */
  function Sum(xs: seq<real>): real
  {
    if xs == [] then 0.0 else Sum(xs[..|xs| - 1]) + xs[|xs| - 1]
  }

  lemma {:induction false} SumNonNegative(xs: seq<real>)
    requires forall k :: 0 <= k < |xs| ==> xs[k] >= 0.0
    ensures Sum(xs) >= 0.0
    decreases |xs|
  {
    if xs != [] {
      SumNonNegative(xs[..|xs| - 1]);
    }
  }

  /** A sum of non-negative terms is 0 only when every term is 0. */
  lemma {:induction false} SumZero(xs: seq<real>)
    requires forall k :: 0 <= k < |xs| ==> xs[k] >= 0.0
    ensures Sum(xs) == 0.0 <==> forall k :: 0 <= k < |xs| ==> xs[k] == 0.0
    decreases |xs|
  {
    if xs != [] {
      var init := xs[..|xs| - 1];
      SumZero(init);
      SumNonNegative(init);
    }
  }

  /** Adding up termwise smaller terms gives a smaller sum. */
  lemma {:induction false} SumMonotone(xs: seq<real>, ys: seq<real>)
    requires |xs| == |ys|
    requires forall k :: 0 <= k < |xs| ==> xs[k] <= ys[k]
    ensures Sum(xs) <= Sum(ys)
    decreases |xs|
  {
    if xs != [] {
      SumMonotone(xs[..|xs| - 1], ys[..|ys| - 1]);
    }
  }

  /** The sum of termwise sums is the sum of the two sums. */
  lemma {:induction false} SumTermwise(xs: seq<real>, ys: seq<real>, zs: seq<real>)
    requires |xs| == |ys| == |zs|
    requires forall k :: 0 <= k < |zs| ==> zs[k] == xs[k] + ys[k]
    ensures Sum(zs) == Sum(xs) + Sum(ys)
    decreases |zs|
  {
    if zs != [] {
      SumTermwise(xs[..|xs| - 1], ys[..|ys| - 1], zs[..|zs| - 1]);
    }
  }

  /**
   * `manhattan` (src/clustering.ts:9-20): an error exactly when the dimensions
   * differ, otherwise the sum of the per-axis absolute gaps, which is never negative.
   */
  function Manhattan(a: Point, b: Point): (r: Result<real>)
    ensures r.Err? <==> |a| != |b|
    ensures r.Ok? ==> r.value >= 0.0
  {
    if |a| != |b| then Err(DimensionMismatch)
    else
      var gaps := Gaps(Zip(a, b));
      SumNonNegative(gaps);
      Ok(Sum(gaps))
  }

  lemma ManhattanSymmetric(a: Point, b: Point)
    ensures Manhattan(a, b) == Manhattan(b, a)
  {
    if |a| == |b| {
      assert Gaps(Zip(a, b)) == Gaps(Zip(b, a));
    }
  }

  /** d(p, p) == 0, and conversely 0 only between equal points (points of different dimensions give an error): the identity of indiscernibles. */
  lemma ManhattanZeroIffEqual(a: Point, b: Point)
    ensures Manhattan(a, b) == Ok(0.0) <==> a == b
  {
    if |a| == |b| {
      var gaps := Gaps(Zip(a, b));
      SumZero(gaps);
      if Sum(gaps) == 0.0 {
        forall k | 0 <= k < |a| ensures a[k] == b[k] {
          assert gaps[k] == 0.0;
        }
      }
    }
  }

  /** The triangle inequality on points of one dimension. */
  lemma ManhattanTriangle(a: Point, b: Point, c: Point)
    requires |a| == |b| == |c|
    ensures Manhattan(a, c).value <= Manhattan(a, b).value + Manhattan(b, c).value
  {
    var ab, bc, ac := Gaps(Zip(a, b)), Gaps(Zip(b, c)), Gaps(Zip(a, c));
    var both := seq(|a|, k requires 0 <= k < |a| => ab[k] + bc[k]);
    SumMonotone(ac, both);
    SumTermwise(ab, bc, both);
  }

  /**
   * `euclidian` (src/clustering.ts:25-38): an error exactly when the dimensions
   * differ, otherwise `sqrt` of the sum of the squared per-axis gaps. `Math.sqrt`
   * is passed in as `sqrt`.
   */
  function Euclidian(sqrt: real -> real, a: Point, b: Point): (r: Result<real>)
    ensures r.Err? <==> |a| != |b|
    ensures r.Ok? ==> r.value == sqrt(SquaredDistance(a, b))
  {
    if |a| != |b| then Err(DimensionMismatch)
    else Ok(sqrt(Sum(Squares(Zip(a, b)))))
  }

  /** The radicand of `euclidian`: the sum of the squared per-axis gaps. */
  function SquaredDistance(a: Point, b: Point): real
  {
    Sum(Squares(Zip(a, b)))
  }

  /** The radicand is symmetric, never negative, and 0 between a point and itself. */
  lemma SquaredDistanceProperties(a: Point, b: Point)
    requires |a| == |b|
    ensures SquaredDistance(a, b) >= 0.0
    ensures SquaredDistance(a, b) == SquaredDistance(b, a)
    ensures SquaredDistance(a, a) == 0.0
  {
    var sq := Squares(Zip(a, b));
    forall k | 0 <= k < |a| ensures sq[k] == Squares(Zip(b, a))[k] && sq[k] >= 0.0 {
      SquareFacts(b[k] - a[k]);
    }
    assert sq == Squares(Zip(b, a));
    SumNonNegative(sq);
    var same := Squares(Zip(a, a));
    forall k | 0 <= k < |a| ensures same[k] == 0.0 {
      SquareFacts(a[k] - a[k]);
    }
    SumZero(same);
  }

  lemma SquareFacts(x: real)
    ensures Square(x) >= 0.0
    ensures Square(x) == Square(-x)
    ensures x == 0.0 ==> Square(x) == 0.0
  {
  }

  /** A square root that is 0 at 0 and never negative. */
  ghost predicate SqrtLike(sqrt: real -> real)
  {
    sqrt(0.0) == 0.0 && forall x :: x >= 0.0 ==> sqrt(x) >= 0.0
  }

  /** With such a `sqrt`, `euclidian` is symmetric, non-negative and 0 on equal points. */
  lemma EuclidianProperties(sqrt: real -> real, a: Point, b: Point)
    requires SqrtLike(sqrt)
    requires |a| == |b|
    ensures Euclidian(sqrt, a, b) == Euclidian(sqrt, b, a)
    ensures Euclidian(sqrt, a, b).value >= 0.0
    ensures a == b ==> Euclidian(sqrt, a, b) == Ok(0.0)
  {
    SquaredDistanceProperties(a, b);
  }

  /** `euclidian` with a given `sqrt`, as a point distance to hand to the engine. */
  function EuclidianFn(sqrt: real -> real): (d: DistanceFn)
    ensures forall a, b :: d(a, b) == Euclidian(sqrt, a, b)
  {
    (a, b) => Euclidian(sqrt, a, b)
  }
}
