/** Real-valued 3D helpers of the track geometry calculator: the bounding-box
    clip of the projected end points (`_projected_limits`), the centroid used
    by the principal-axis fit (`_do_pca`) and the line's crossing with the
    z = 0 plane (`xyp`).  Floating point is modelled by exact reals. */
module Geometry {

  datatype Point = Point(x: real, y: real, z: real)

  function Add(a: Point, b: Point): Point { Point(a.x + b.x, a.y + b.y, a.z + b.z) }
  function Sub(a: Point, b: Point): Point { Point(a.x - b.x, a.y - b.y, a.z - b.z) }
  function Scale(a: Point, t: real): Point { Point(a.x * t, a.y * t, a.z * t) }
  function Dot(a: Point, b: Point): real { a.x * b.x + a.y * b.y + a.z * b.z }

  function Min(a: real, b: real): real { if a <= b then a else b }
  function Max(a: real, b: real): real { if a >= b then a else b }

  /** Smallest entry of a non-empty sequence of reals (`np.min`). */
  function MinOf(s: seq<real>): (r: real)
    requires |s| > 0
    ensures forall k :: 0 <= k < |s| ==> r <= s[k]
    ensures exists k :: 0 <= k < |s| && r == s[k]
  {
    if |s| == 1 then s[0]
    else
      var rest := MinOf(s[1..]);
      assert forall k :: 1 <= k < |s| ==> s[k] == s[1..][k - 1];
      Min(s[0], rest)
  }

  /** Largest entry of a non-empty sequence of reals (`np.max`). */
  function MaxOf(s: seq<real>): (r: real)
    requires |s| > 0
    ensures forall k :: 0 <= k < |s| ==> s[k] <= r
    ensures exists k :: 0 <= k < |s| && r == s[k]
  {
    if |s| == 1 then s[0]
    else
      var rest := MaxOf(s[1..]);
      assert forall k :: 1 <= k < |s| ==> s[k] == s[1..][k - 1];
      Max(s[0], rest)
  }

  function Xs(pts: seq<Point>): (r: seq<real>)
    ensures |r| == |pts| && forall k :: 0 <= k < |pts| ==> r[k] == pts[k].x
  { seq(|pts|, k requires 0 <= k < |pts| => pts[k].x) }

  function Ys(pts: seq<Point>): (r: seq<real>)
    ensures |r| == |pts| && forall k :: 0 <= k < |pts| ==> r[k] == pts[k].y
  { seq(|pts|, k requires 0 <= k < |pts| => pts[k].y) }

  function Zs(pts: seq<Point>): (r: seq<real>)
    ensures |r| == |pts| && forall k :: 0 <= k < |pts| ==> r[k] == pts[k].z
  { seq(|pts|, k requires 0 <= k < |pts| => pts[k].z) }

  /** Componentwise minimum of the points (`np.amin(xyz, axis=0)`). */
  function BoxMin(pts: seq<Point>): Point
    requires |pts| > 0
  { Point(MinOf(Xs(pts)), MinOf(Ys(pts)), MinOf(Zs(pts))) }

  /** Componentwise maximum of the points (`np.amax(xyz, axis=0)`). */
  function BoxMax(pts: seq<Point>): Point
    requires |pts| > 0
  { Point(MaxOf(Xs(pts)), MaxOf(Ys(pts)), MaxOf(Zs(pts))) }

  ghost predicate InBox(p: Point, lo: Point, hi: Point)
  {
    lo.x <= p.x <= hi.x && lo.y <= p.y <= hi.y && lo.z <= p.z <= hi.z
  }

  /** Every point lies in the bounding box of the set it belongs to. */
  lemma BoxContainsPoints(pts: seq<Point>, k: nat)
    requires k < |pts|
    ensures InBox(pts[k], BoxMin(pts), BoxMax(pts))
  {
    assert Xs(pts)[k] == pts[k].x && Ys(pts)[k] == pts[k].y && Zs(pts)[k] == pts[k].z;
  }

  /** `np.clip(v, lo, hi)`, i.e. `minimum(maximum(v, lo), hi)`. */
  function Clip(v: real, lo: real, hi: real): real { Min(Max(v, lo), hi) }

  function ClipPoint(p: Point, lo: Point, hi: Point): (r: Point)
    ensures lo.x <= hi.x && lo.y <= hi.y && lo.z <= hi.z ==> InBox(r, lo, hi)
    ensures InBox(p, lo, hi) ==> r == p
  {
    Point(Clip(p.x, lo.x, hi.x), Clip(p.y, lo.y, hi.y), Clip(p.z, lo.z, hi.z))
  }

  /** Signed positions of the points along the axis through the centroid
      (`np.dot(xyz - centroid, axis)`). */
  function Projections(centroid: Point, axis: Point, pts: seq<Point>): (s: seq<real>)
    ensures |s| == |pts|
    ensures forall k :: 0 <= k < |pts| ==> s[k] == Dot(Sub(pts[k], centroid), axis)
  {
    seq(|pts|, k requires 0 <= k < |pts| => Dot(Sub(pts[k], centroid), axis))
  }

  /** `_projected_limits`: the points of the fitted line at the smallest and the
      largest projection, each clipped to the members' bounding box.  Both end
      points lie in that box, whatever centroid and axis the fit returns. */
  function ProjectedLimits(centroid: Point, axis: Point, pts: seq<Point>): (r: (Point, Point))
    requires |pts| > 0
    ensures InBox(r.0, BoxMin(pts), BoxMax(pts)) && InBox(r.1, BoxMin(pts), BoxMax(pts))
  {
    var s := Projections(centroid, axis, pts);
    var lo, hi := BoxMin(pts), BoxMax(pts);
    BoxContainsPoints(pts, 0);
    var rMax := ClipPoint(Add(centroid, Scale(axis, MaxOf(s))), lo, hi);
    var rMin := ClipPoint(Add(centroid, Scale(axis, MinOf(s))), lo, hi);
    (rMin, rMax)
  }

  /** When the extreme projections already lie inside the box, the clip does
      nothing: the end points are exactly on the fitted line. */
  lemma ProjectedLimitsUnclipped(centroid: Point, axis: Point, pts: seq<Point>)
    requires |pts| > 0
    requires InBox(Add(centroid, Scale(axis, MinOf(Projections(centroid, axis, pts)))), BoxMin(pts), BoxMax(pts))
    requires InBox(Add(centroid, Scale(axis, MaxOf(Projections(centroid, axis, pts)))), BoxMin(pts), BoxMax(pts))
    ensures ProjectedLimits(centroid, axis, pts).0 == Add(centroid, Scale(axis, MinOf(Projections(centroid, axis, pts))))
    ensures ProjectedLimits(centroid, axis, pts).1 == Add(centroid, Scale(axis, MaxOf(Projections(centroid, axis, pts))))
  {
  }

  function SumOf(s: seq<real>): real
  {
    if |s| == 0 then 0.0 else s[0] + SumOf(s[1..])
  }

  /** A sum of `n` entries lies between `n` times their minimum and maximum. */
  lemma {:induction false} SumOfBounds(s: seq<real>, lo: real, hi: real)
    requires forall k :: 0 <= k < |s| ==> lo <= s[k] <= hi
    ensures (|s| as real) * lo <= SumOf(s) <= (|s| as real) * hi
  {
    if |s| > 0 {
      SumOfBounds(s[1..], lo, hi);
    }
  }

  /** The mean of a non-empty sequence lies between its minimum and maximum. */
  function MeanOf(s: seq<real>): (r: real)
    requires |s| > 0
    ensures MinOf(s) <= r <= MaxOf(s)
  {
    var n := |s| as real;
    SumOfBounds(s, MinOf(s), MaxOf(s));
    DivideBounds(SumOf(s), n, MinOf(s), MaxOf(s));
    SumOf(s) / n
  }

  lemma DivideBounds(total: real, n: real, lo: real, hi: real)
    requires n > 0.0 && n * lo <= total <= n * hi
    ensures lo <= total / n <= hi
  {
    var m := total / n;
    assert total == n * m;
    assert n * (m - lo) >= 0.0;
    assert n * (hi - m) >= 0.0;
  }

  /** The centroid of `_do_pca` (`np.mean(xyz, axis=0)`); it lies in the
      members' bounding box. */
  function Centroid(pts: seq<Point>): (c: Point)
    requires |pts| > 0
    ensures InBox(c, BoxMin(pts), BoxMax(pts))
  {
    Point(MeanOf(Xs(pts)), MeanOf(Ys(pts)), MeanOf(Zs(pts)))
  }

  /** `xyp`: the (x, y) where the line through `centroid` along `axis` meets the
      plane z = 0; the centroid's (x, y) when the line is parallel to it. */
  function Xyp(axis: Point, centroid: Point): (r: (real, real))
    ensures axis.z == 0.0 ==> r == (centroid.x, centroid.y)
  {
    if axis.z == 0.0 then (centroid.x, centroid.y)
    else
      var s := -centroid.z / axis.z;
      var p := Add(centroid, Scale(axis, s));
      (p.x, p.y)
  }

  /** Whatever line parameter `t` reaches z = 0, `xyp` is the (x, y) of that
      point: the crossing is unique when the axis is not parallel to the plane. */
  lemma XypIsPlaneCrossing(axis: Point, centroid: Point, t: real)
    requires axis.z != 0.0
    requires centroid.z + axis.z * t == 0.0
    ensures Xyp(axis, centroid).0 == centroid.x + axis.x * t
    ensures Xyp(axis, centroid).1 == centroid.y + axis.y * t
  {
    var s := -centroid.z / axis.z;
    assert axis.z * s == -centroid.z;
    assert axis.z * (t - s) == 0.0;
    assert t == s;
    assert Xyp(axis, centroid).0 == centroid.x + axis.x * s;
    assert Xyp(axis, centroid).1 == centroid.y + axis.y * s;
  }

  /** The crossing computed by `xyp` is on the plane z = 0. */
  lemma XypOnPlane(axis: Point, centroid: Point)
    requires axis.z != 0.0
    ensures var s := -centroid.z / axis.z;
            centroid.z + axis.z * s == 0.0
            && Xyp(axis, centroid).0 == centroid.x + axis.x * s
            && Xyp(axis, centroid).1 == centroid.y + axis.y * s
  {
    var s := -centroid.z / axis.z;
    assert axis.z * s == -centroid.z;
    assert Xyp(axis, centroid).0 == centroid.x + axis.x * s;
    assert Xyp(axis, centroid).1 == centroid.y + axis.y * s;
  }
}
