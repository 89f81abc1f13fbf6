/**
 * Geometry and small helpers shared by every node (src/util/helpers.py).
 *
 * Distances are compared, never computed: `getDist(a, b) < r` is modelled as
 * `Closer(a, b, r)` and `getDist(a, b) > r` as `Farther(a, b, r)`, both over the
 * squared distance, and `DistanceMeaning` ties them back to the Euclidean
 * distance. Headings are whole degrees, so `angleDiff` is exact.
 */
module Helpers {

  datatype Option<T> = None | Some(value: T)

  /** A position in the map frame, in metres (geometry_msgs Point). */
  datatype Point = Point(x: real, y: real, z: real)

  /** The origin, which the stuck detector treats as "no point". */
  const Origin := Point(0.0, 0.0, 0.0)

  /** A pose: a position and a heading (yaw) in whole degrees. */
  datatype Pose = Pose(position: Point, yaw: int)

  lemma MulPositive(a: real, b: real)
    requires a > 0.0 && b > 0.0
    ensures a * b > 0.0
  {
  }

  lemma SquarePositive(r: real)
    ensures r * r >= 0.0
  {
    if r > 0.0 {
      MulPositive(r, r);
    } else if r < 0.0 {
      var s := 0.0 - r;
      MulPositive(s, s);
      assert s * s == r * r;
    }
  }

  function Square(r: real): (s: real)
    ensures s >= 0.0
  {
    SquarePositive(r);
    r * r
  }

  /** The square of getDist: the three-dimensional Euclidean distance squared. */
  function DistSq(a: Point, b: Point): (d: real)
    ensures d >= 0.0
    ensures a == b ==> d == 0.0
  {
    Square(a.x - b.x) + Square(a.y - b.y) + Square(a.z - b.z)
  }

  /** The square of getDist2D: the height difference is ignored. */
  function DistSq2D(a: Point, b: Point): (d: real)
    ensures 0.0 <= d <= DistSq(a, b)
  {
    Square(a.x - b.x) + Square(a.y - b.y)
  }

  /** getDist(a, b) < r. */
  predicate Closer(a: Point, b: Point, r: real)
  {
    0.0 < r && DistSq(a, b) < r * r
  }

  /** getDist(a, b) > r. */
  predicate Farther(a: Point, b: Point, r: real)
  {
    r < 0.0 || DistSq(a, b) > r * r
  }

  /** getDist2D(a, b) < r. */
  predicate Closer2D(a: Point, b: Point, r: real)
  {
    0.0 < r && DistSq2D(a, b) < r * r
  }

  lemma SquareMonotonic(d: real, r: real)
    requires 0.0 <= d && 0.0 <= r
    ensures d < r <==> d * d < r * r
    ensures d > r <==> d * d > r * r
  {
    assert (r - d) * (r + d) == r * r - d * d;
    if d < r {
      MulPositive(r - d, r + d);
    } else if d > r {
      MulPositive(d - r, r + d);
      assert (d - r) * (r + d) == d * d - r * r;
    }
  }

  /**
   * Whatever non-negative d has d * d == DistSq(a, b) (that is, d == getDist(a, b)),
   * the squared comparisons decide exactly the comparisons of d the source makes.
   */
  lemma DistanceMeaning(a: Point, b: Point, d: real, r: real)
    requires 0.0 <= d && d * d == DistSq(a, b)
    ensures Closer(a, b, r) <==> d < r
    ensures Farther(a, b, r) <==> d > r
  {
    if 0.0 <= r {
      SquareMonotonic(d, r);
    }
  }

  /** getDist is symmetric. */
  lemma DistSymmetric(a: Point, b: Point)
    ensures DistSq(a, b) == DistSq(b, a)
    ensures forall r :: Closer(a, b, r) == Closer(b, a, r)
  {
    assert Square(a.x - b.x) == Square(b.x - a.x);
    assert Square(a.y - b.y) == Square(b.y - a.y);
    assert Square(a.z - b.z) == Square(b.z - a.z);
  }

  // ---------------------------------------------------------------------------
  // angleDiff

  /** angleDiff(a, b): a - b in degrees, normalised to [-180, 180). */
  function AngleDiff(a: int, b: int): (d: int)
    ensures -180 <= d < 180
    ensures (d - (a - b)) % 360 == 0
  {
    var na := (360000 + a) % 360;
    var nb := (360000 + b) % 360;
    (na - nb + 180) % 360 - 180
  }

  /** The only angle in [-180, 180) congruent to a - b is AngleDiff(a, b). */
  lemma AngleDiffUnique(a: int, b: int, d: int)
    requires -180 <= d < 180
    requires (d - (a - b)) % 360 == 0
    ensures d == AngleDiff(a, b)
  {
    var e := AngleDiff(a, b);
    assert (d - e) % 360 == 0 by {
      assert d - e == (d - (a - b)) - (e - (a - b));
    }
    assert -360 < d - e < 360;
  }

  /** Turning by a full circle changes nothing. */
  lemma AngleDiffPeriodic(a: int, b: int, k: int)
    ensures AngleDiff(a + 360 * k, b) == AngleDiff(a, b)
  {
    var d := AngleDiff(a, b);
    assert (d - (a + 360 * k - b)) == (d - (a - b)) - 360 * k;
    AngleDiffUnique(a + 360 * k, b, d);
  }

  /** The sign convention: swapping the arguments negates the result, except at -180. */
  lemma AngleDiffAntisymmetric(a: int, b: int)
    requires AngleDiff(a, b) != -180
    ensures AngleDiff(b, a) == -AngleDiff(a, b)
  {
    var d := AngleDiff(a, b);
    assert -d - (b - a) == -(d - (a - b));
    AngleDiffUnique(b, a, -d);
  }

  // ---------------------------------------------------------------------------
  // averagePosition

  function Add(p: Point, q: Point): Point
  {
    Point(p.x + q.x, p.y + q.y, p.z + q.z)
  }

  /** Component-wise sum of the points, accumulated in order. */
  function Sum(h: seq<Point>): Point
  {
    if |h| == 0 then Origin else Add(Sum(h[..|h| - 1]), h[|h| - 1])
  }

  /** The centroid of a non-empty list of points. */
  function Mean(h: seq<Point>): (m: Point)
    requires |h| > 0
  {
    var n := |h| as real;
    var s := Sum(h);
    Point(s.x / n, s.y / n, s.z / n)
  }

  /**
   * averagePosition: the centroid, accumulated in one pass. The source divides
   * by the length, so an empty list is an error its callers never pass.
   */
  method AveragePosition(h: seq<Point>) returns (p: Point)
    requires |h| > 0
    ensures p == Mean(h)
  {
    var acc := Origin;
    var i := 0;
    while i < |h|
      invariant 0 <= i <= |h|
      invariant acc == Sum(h[..i])
    {
      assert h[..i + 1][..i] == h[..i];
      acc := Add(acc, h[i]);
      i := i + 1;
    }
    assert h[..|h|] == h;
    var n := |h| as real;
    p := Point(acc.x / n, acc.y / n, acc.z / n);
  }

  /** The sum of n copies of p is n times p. */
  lemma {:induction false} SumRepeated(p: Point, n: nat)
    ensures Sum(seq(n, _ => p)) == Point(n as real * p.x, n as real * p.y, n as real * p.z)
  {
    if n > 0 {
      var h := seq(n, _ => p);
      assert h[..n - 1] == seq(n - 1, _ => p);
      SumRepeated(p, n - 1);
    }
  }

  /** The centroid of copies of one point is that point. */
  lemma MeanRepeated(p: Point, n: nat)
    requires n > 0
    ensures Mean(seq(n, _ => p)) == p
  {
    SumRepeated(p, n);
  }

  // ---------------------------------------------------------------------------
  // Python's `in` on strings

  /** `s in t`: s occurs in t as a contiguous substring. */
  predicate Contains(t: string, s: string)
    decreases |t|
  {
    |s| <= |t| && (t[..|s|] == s || Contains(t[1..], s))
  }

  lemma ContainsSelf(s: string)
    ensures Contains(s, s)
  {
  }

  /** A string ends with, hence contains, its last part. */
  lemma {:induction false} ContainsSuffix(t: string, s: string)
    ensures Contains(t + s, s)
    decreases |t|
  {
    if |t| == 0 {
      assert t + s == s;
    } else {
      assert (t + s)[1..] == t[1..] + s;
      ContainsSuffix(t[1..], s);
    }
  }

}
