/** Catmull-Rom splines through a sequence of control points. */
module Spline {
  import Vec3

  datatype Spline = Spline(points: seq<Vec3.Vector3>)

  /** `initFromArray`: the control points are replaced. */
  function InitFromArray(s: Spline, a: seq<Vec3.Vector3>): (r: Spline)
    ensures GetControlPointsArray(r) == a
  {
    s.(points := a)
  }

  /** `getControlPointsArray`: the control points, as stored. */
  function GetControlPointsArray(s: Spline): (r: seq<Vec3.Vector3>)
    ensures |r| == |s.points| && forall i :: 0 <= i < |r| ==> r[i] == s.points[i]
  {
    s.points
  }

  /** Reading the control points back after `initFromArray` changes nothing, and
      storing what was read back leaves the spline as it was. */
  lemma ControlPointsRoundTrip(s: Spline, a: seq<Vec3.Vector3>)
    ensures GetControlPointsArray(InitFromArray(s, a)) == a
    ensures InitFromArray(s, GetControlPointsArray(s)) == s
  {
  }

  /** `interpolate`: one coordinate of the Catmull-Rom segment from `p1` to `p2`,
      with tangents `(p2 - p0) / 2` at `p1` and `(p3 - p1) / 2` at `p2`; the
      caller passes `t`, `t^2` and `t^3`. */
  function Interpolate(p0: real, p1: real, p2: real, p3: real, t: real, t2: real, t3: real): real {
    var v0 := (p2 - p0) * 0.5;
    var v1 := (p3 - p1) * 0.5;
    (2.0 * (p1 - p2) + v0 + v1) * t3 + (-3.0 * (p1 - p2) - 2.0 * v0 - v1) * t2 + v0 * t + p1
  }

  /** The cubic Hermite curve from `p1` to `p2` with end tangents `m1` and `m2`,
      written with the usual basis polynomials. */
  function Hermite(p1: real, p2: real, m1: real, m2: real, t: real): real {
    (2.0 * t * t * t - 3.0 * t * t + 1.0) * p1 + (t * t * t - 2.0 * t * t + t) * m1 +
    (-2.0 * t * t * t + 3.0 * t * t) * p2 + (t * t * t - t * t) * m2
  }

  /** `interpolate`, given the powers of `t`, is the Hermite curve with the
      Catmull-Rom tangents. */
  lemma {:induction false} InterpolateIsHermite(p0: real, p1: real, p2: real, p3: real, t: real)
    ensures Interpolate(p0, p1, p2, p3, t, t * t, t * t * t) ==
            Hermite(p1, p2, (p2 - p0) * 0.5, (p3 - p1) * 0.5, t)
  {
    var t2, t3 := t * t, t * t * t;
    var v0, v1 := (p2 - p0) * 0.5, (p3 - p1) * 0.5;
    calc {
      Interpolate(p0, p1, p2, p3, t, t2, t3);
      (2.0 * (p1 - p2) + v0 + v1) * t3 + (-3.0 * (p1 - p2) - 2.0 * v0 - v1) * t2 + v0 * t + p1;
      (2.0 * t3 - 3.0 * t2 + 1.0) * p1 + (t3 - 2.0 * t2 + t) * v0 + (-2.0 * t3 + 3.0 * t2) * p2 + (t3 - t2) * v1;
    }
  }

  /** The segment starts at `p1` and ends at `p2`. */
  lemma InterpolateEnds(p0: real, p1: real, p2: real, p3: real)
    ensures Interpolate(p0, p1, p2, p3, 0.0, 0.0, 0.0) == p1
    ensures Interpolate(p0, p1, p2, p3, 1.0, 1.0, 1.0) == p2
  {
  }

  /** Four equal control values give a constant curve. */
  lemma InterpolateConstant(c: real, t: real)
    ensures Interpolate(c, c, c, c, t, t * t, t * t * t) == c
  {
  }

  /** Catmull-Rom reproduces straight lines: equally spaced control values
      `a, a + d, a + 2d, a + 3d` give `a + d + t d`. */
  lemma {:induction false} InterpolateLinear(a: real, d: real, t: real)
    ensures Interpolate(a, a + d, a + 2.0 * d, a + 3.0 * d, t, t * t, t * t * t) == a + d + t * d
  {
    InterpolateIsHermite(a, a + d, a + 2.0 * d, a + 3.0 * d, t);
    var t2, t3 := t * t, t * t * t;
    calc {
      Hermite(a + d, a + 2.0 * d, d, d, t);
      (2.0 * t3 - 3.0 * t2 + 1.0) * (a + d) + (t3 - 2.0 * t2 + t) * d + (-2.0 * t3 + 3.0 * t2) * (a + 2.0 * d) + (t3 - t2) * d;
      a + d + t * d;
    }
  }

  /** Running the control values backwards runs the segment backwards. */
  lemma {:induction false} InterpolateReversed(p0: real, p1: real, p2: real, p3: real, t: real)
    ensures Interpolate(p3, p2, p1, p0, 1.0 - t, (1.0 - t) * (1.0 - t), (1.0 - t) * (1.0 - t) * (1.0 - t)) ==
            Interpolate(p0, p1, p2, p3, t, t * t, t * t * t)
  {
    var u := 1.0 - t;
    InterpolateIsHermite(p3, p2, p1, p0, u);
    InterpolateIsHermite(p0, p1, p2, p3, t);
    var m1, m2 := (p2 - p0) * 0.5, (p3 - p1) * 0.5;
    assert (p1 - p3) * 0.5 == -m2 && (p0 - p2) * 0.5 == -m1;
    HermiteReversed(p1, p2, m1, m2, t);
  }

  lemma {:induction false} HermiteReversed(p1: real, p2: real, m1: real, m2: real, t: real)
    ensures Hermite(p2, p1, -m2, -m1, 1.0 - t) == Hermite(p1, p2, m1, m2, t)
  {
    var u := 1.0 - t;
    assert u * u == 1.0 - 2.0 * t + t * t;
    assert u * u * u == 1.0 - 3.0 * t + 3.0 * t * t - t * t * t;
    calc {
      Hermite(p2, p1, -m2, -m1, u);
      (2.0 * (u * u * u) - 3.0 * (u * u) + 1.0) * p2 + ((u * u * u) - 2.0 * (u * u) + u) * (-m2) +
      (-2.0 * (u * u * u) + 3.0 * (u * u)) * p1 + ((u * u * u) - (u * u)) * (-m1);
      (-2.0 * t * t * t + 3.0 * t * t) * p2 + (t * t * t - t * t) * m2 +
      (2.0 * t * t * t - 3.0 * t * t + 1.0) * p1 + (t * t * t - 2.0 * t * t + t) * m1;
      Hermite(p1, p2, m1, m2, t);
    }
  }

  /** The segment index `getPoint` works in: the integer part of
      `(size - 1) k`, and the weight, its fractional part. */
  function Segment(n: int, k: real): (r: (int, real))
    requires n >= 1 && 0.0 < k < 1.0
    ensures 0 <= r.0 && (n >= 2 ==> r.0 <= n - 2) && (n == 1 ==> r.0 == 0)
    ensures 0.0 <= r.1 < 1.0
    ensures r.0 as real + r.1 == (n - 1) as real * k
  {
    var point := (n - 1) as real * k;
    var intPoint := point.Floor;
    SegmentBounds(n, k, point, intPoint);
    (intPoint, point - intPoint as real)
  }

  lemma SegmentBounds(n: int, k: real, point: real, i: int)
    requires n >= 1 && 0.0 < k < 1.0
    requires point == (n - 1) as real * k
    requires i as real <= point < i as real + 1.0
    ensures 0 <= i && (n >= 2 ==> i <= n - 2) && (n == 1 ==> i == 0)
  {
    if n >= 2 {
      assert point < (n - 1) as real by {
        MulLessRight((n - 1) as real, k);
      }
    }
  }

  lemma MulLessRight(m: real, k: real)
    requires m > 0.0 && 0.0 < k < 1.0
    ensures 0.0 < m * k < m
  {
    assert m - m * k == m * (1.0 - k);
  }

  /** The four control indices `getPoint` reads: the segment's start, its
      predecessor and the two points after it, each clamped into the array. */
  function ControlIndices(n: int, intPoint: int): (c: (int, int, int, int))
    requires n >= 1 && 0 <= intPoint && (n >= 2 ==> intPoint <= n - 2) && (n == 1 ==> intPoint == 0)
    ensures 0 <= c.0 <= c.1 <= c.2 <= c.3 <= n - 1
    ensures c.1 == intPoint
    ensures c.0 == if intPoint == 0 then 0 else intPoint - 1
    ensures c.2 == if intPoint + 1 <= n - 1 then intPoint + 1 else n - 1
    ensures c.3 == if intPoint + 2 <= n - 1 then intPoint + 2 else n - 1
  {
    (if intPoint == 0 then intPoint else intPoint - 1,
     intPoint,
     if intPoint > n - 2 then n - 1 else intPoint + 1,
     if intPoint > n - 3 then n - 1 else intPoint + 2)
  }

  /** `getPoint`: the point at `k` along the whole spline, `0 < k < 1`. The
      integer part of `(size - 1) k` picks the segment and the fraction is the
      weight passed to `interpolate` on each axis. */
  function GetPoint(s: Spline, k: real): (r: Vec3.Vector3)
    requires 0.0 < k < 1.0
    requires |s.points| >= 1
    ensures var seg := Segment(|s.points|, k);
      seg.1 == 0.0 ==> r == s.points[seg.0]
  {
    var n := |s.points|;
    var seg := Segment(n, k);
    var intPoint, weight := seg.0, seg.1;
    var c := ControlIndices(n, intPoint);
    var pa, pb, pc, pd := s.points[c.0], s.points[c.1], s.points[c.2], s.points[c.3];
    var w2 := weight * weight;
    var w3 := weight * w2;
    Vec3.Vector3(Interpolate(pa.x, pb.x, pc.x, pd.x, weight, w2, w3),
                 Interpolate(pa.y, pb.y, pc.y, pd.y, weight, w2, w3),
                 Interpolate(pa.z, pb.z, pc.z, pd.z, weight, w2, w3))
  }

  /** When `(size - 1) k` is a whole number `i`, `getPoint` lands exactly on the
      control point `i`. */
  lemma {:induction false} GetPointAtControlPoint(s: Spline, k: real, i: int)
    requires 0.0 < k < 1.0
    requires |s.points| >= 1
    requires (|s.points| - 1) as real * k == i as real
    ensures 0 <= i < |s.points| && GetPoint(s, k) == s.points[i]
  {
    var seg := Segment(|s.points|, k);
    assert seg.0 as real + seg.1 == i as real;
    assert seg.0 == i;
  }

  /** On a spline whose control points are all the same point, `getPoint`
      returns that point everywhere. */
  lemma {:induction false} GetPointConstant(s: Spline, k: real, p: Vec3.Vector3)
    requires 0.0 < k < 1.0
    requires |s.points| >= 1
    requires forall i :: 0 <= i < |s.points| ==> s.points[i] == p
    ensures GetPoint(s, k) == p
  {
    var seg := Segment(|s.points|, k);
    var w := seg.1;
    InterpolateConstant(p.x, w);
    InterpolateConstant(p.y, w);
    InterpolateConstant(p.z, w);
  }
}
