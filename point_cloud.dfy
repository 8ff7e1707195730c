/**
 * Point clouds as the scripts handle them: an N x 3 array of surface samples,
 * and the z < 0 boolean mask that keeps the bottom half.
 */
module PointCloud {

  /** One row of a sampled cloud; the float64 coordinates are taken as reals. */
  datatype Point = Point(x: real, y: real, z: real)

  /** The partial-view predicate: the point lies below the z = 0 plane. */
  predicate Below(p: Point) {
    p.z < 0.0
  }

  /** points[points[:, 2] < 0]: the rows that pass the mask, in their original order. */
  function BottomHalf(s: seq<Point>): (r: seq<Point>)
    ensures |r| <= |s|
    ensures forall k :: 0 <= k < |r| ==> Below(r[k]) && r[k] in s
    decreases |s|
  {
    if s == [] then []
    else (if Below(s[0]) then [s[0]] else []) + BottomHalf(s[1..])
  }

  /** The mask keeps every row below the plane, each as often as it occurs, and nothing else. */
  lemma {:induction false} BottomHalfCounts(s: seq<Point>, p: Point)
    ensures multiset(BottomHalf(s))[p] == if Below(p) then multiset(s)[p] else 0
    decreases |s|
  {
    if s != [] {
      BottomHalfCounts(s[1..], p);
      assert s == [s[0]] + s[1..];
    }
  }

  /** The mask distributes over concatenation, so it keeps the rows' relative order. */
  lemma {:induction false} BottomHalfAppend(a: seq<Point>, b: seq<Point>)
    ensures BottomHalf(a + b) == BottomHalf(a) + BottomHalf(b)
    decreases |a|
  {
    if a == [] {
      assert a + b == b;
    } else {
      assert (a + b)[0] == a[0];
      assert (a + b)[1..] == a[1..] + b;
      BottomHalfAppend(a[1..], b);
    }
  }
}
