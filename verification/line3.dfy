/** Line segments in space, given by a start and an end point. */
module Line3 {
  import MathUtil
  import Vec3
  import Mat4
  import Vec3Apply

  datatype Line3 = Line3(start: Vec3.Vector3, end: Vec3.Vector3)

  /** `set` / `copy`: both endpoints are replaced, whatever the receiver held. */
  function Set(l: Line3, start: Vec3.Vector3, end: Vec3.Vector3): (r: Line3)
    ensures Equals(r, Line3(start, end))
  {
    l.(start := start, end := end)
  }

  /** `center`: the midpoint; twice it is the sum of the endpoints. */
  function Center(l: Line3): (r: Vec3.Vector3)
    ensures Vec3.MultiplyScalar(r, 2.0) == Vec3.Add(l.start, l.end)
  {
    Vec3.MultiplyScalar(Vec3.Add(l.start, l.end), 0.5)
  }

  /** `delta`: the vector that carries `start` onto `end`. */
  function Delta(l: Line3): (r: Vec3.Vector3)
    ensures Vec3.Add(l.start, r) == l.end
  {
    Vec3.Sub(l.end, l.start)
  }

  /** `distanceSq`: the squared length of the segment. */
  function DistanceSq(l: Line3): (r: real)
    ensures r == Vec3.LengthSq(Delta(l))
    ensures r >= 0.0
    ensures r == 0.0 <==> l.start == l.end
  {
    Vec3.DistanceToSquaredZero(l.start, l.end);
    Vec3.DistanceSymmetric(l.start, l.end);
    Vec3.DistanceToSquared(l.start, l.end)
  }

  /** The squared length does not depend on the direction of the segment. */
  lemma DistanceSqSymmetric(l: Line3)
    ensures DistanceSq(l) == DistanceSq(Line3(l.end, l.start))
  {
    Vec3.DistanceSymmetric(l.start, l.end);
  }

  /** `at`: the point reached after the fraction `t` of the segment. */
  function At(l: Line3, t: real): (r: Vec3.Vector3)
    ensures t == 0.0 ==> r == l.start
    ensures t == 1.0 ==> r == l.end
  {
    Vec3.Add(Vec3.MultiplyScalar(Delta(l), t), l.start)
  }

  /** `closestPointToPointParameter`: the parameter of the orthogonal projection of
      `p` onto the line through the segment, clamped into `[0, 1]` on request.
      The source divides by the squared length; a degenerate segment would yield
      NaN there, and it is excluded here. With `s` the component of `p - start`
      along the segment (scaled by the segment's length), the clamped parameter
      is 0 before the start, 1 past the end, and the unclamped ratio in between. */
  function ClosestPointToPointParameter(l: Line3, p: Vec3.Vector3, clampToLine: bool): (t: real)
    requires l.start != l.end
    ensures clampToLine ==> 0.0 <= t <= 1.0
    ensures !clampToLine ==> t * DistanceSq(l) == Vec3.Dot(Delta(l), Vec3.Sub(p, l.start))
    ensures clampToLine && Vec3.Dot(Delta(l), Vec3.Sub(p, l.start)) <= 0.0 ==> t == 0.0
    ensures clampToLine && DistanceSq(l) <= Vec3.Dot(Delta(l), Vec3.Sub(p, l.start)) ==> t == 1.0
    ensures clampToLine && 0.0 <= Vec3.Dot(Delta(l), Vec3.Sub(p, l.start)) <= DistanceSq(l) ==>
              t * DistanceSq(l) == Vec3.Dot(Delta(l), Vec3.Sub(p, l.start))
  {
    var startP := Vec3.Sub(p, l.start);
    var startEnd := Vec3.Sub(l.end, l.start);
    var startEnd2 := Vec3.Dot(startEnd, startEnd);
    var startEndStartP := Vec3.Dot(startEnd, startP);
    Vec3.LengthSqZero(startEnd);
    assert startEnd2 == DistanceSq(l);
    ClampedRatio(startEndStartP, startEnd2);
    var t := startEndStartP / startEnd2;
    if clampToLine then MathUtil.Clamp(t, 0.0, 1.0) else t
  }

  /** Clamping `s / d` into `[0, 1]` for a positive `d`, read off from `s` alone. */
  lemma ClampedRatio(s: real, d: real)
    requires d > 0.0
    ensures s / d * d == s
    ensures s <= 0.0 ==> MathUtil.Clamp(s / d, 0.0, 1.0) == 0.0
    ensures d <= s ==> MathUtil.Clamp(s / d, 0.0, 1.0) == 1.0
    ensures 0.0 <= s <= d ==> MathUtil.Clamp(s / d, 0.0, 1.0) * d == s
  {
    var t := s / d;
    assert t * d == s;
    RatioBounds(s, d, t);
  }

  lemma RatioBounds(s: real, d: real, t: real)
    requires d > 0.0 && t * d == s
    ensures s <= 0.0 ==> t <= 0.0
    ensures d <= s ==> t >= 1.0
    ensures 0.0 <= s <= d ==> 0.0 <= t <= 1.0
  {
    MathUtil.FractionBetween(s, d, t);
    if t > 0.0 {
      MathUtil.MulPos(t, d);
    }
    if t < 1.0 {
      MathUtil.MulPos(1.0 - t, d);
      assert (1.0 - t) * d == d - s;
    }
  }

  /** With the clamp requested, the parameter is the unclamped one clamped into `[0, 1]`. */
  lemma ClampedParameterIsClamp(l: Line3, p: Vec3.Vector3)
    requires l.start != l.end
    ensures ClosestPointToPointParameter(l, p, true)
         == MathUtil.Clamp(ClosestPointToPointParameter(l, p, false), 0.0, 1.0)
  {
  }

  /** The unclamped parameter makes `p - at(t)` orthogonal to the segment, i.e.
      `at(t)` is the foot of the perpendicular from `p`. */
  lemma {:induction false} ParameterIsProjection(l: Line3, p: Vec3.Vector3)
    requires l.start != l.end
    ensures Vec3.Dot(Vec3.Sub(p, At(l, ClosestPointToPointParameter(l, p, false))), Delta(l)) == 0.0
  {
    var t := ClosestPointToPointParameter(l, p, false);
    var d := Delta(l);
    var s := Vec3.Sub(p, l.start);
    assert t * Vec3.Dot(d, d) == Vec3.Dot(d, s) by {
      Vec3.LengthSqZero(d);
    }
    var r := Vec3.Sub(p, At(l, t));
    assert r == Vec3.Vector3(s.x - d.x * t, s.y - d.y * t, s.z - d.z * t);
    ProjectionResidual(d.x, d.y, d.z, s.x, s.y, s.z, t, r.x, r.y, r.z);
  }

  lemma ProjectionResidual(dx: real, dy: real, dz: real, sx: real, sy: real, sz: real, t: real,
                           rx: real, ry: real, rz: real)
    requires t * (dx * dx + dy * dy + dz * dz) == dx * sx + dy * sy + dz * sz
    requires rx == sx - dx * t && ry == sy - dy * t && rz == sz - dz * t
    ensures rx * dx + ry * dy + rz * dz == 0.0
  {
  }

  /** The parameter of `start` is 0 and that of `end` is 1, clamped or not. */
  lemma {:induction false} ParameterAtEndpoints(l: Line3, clampToLine: bool)
    requires l.start != l.end
    ensures ClosestPointToPointParameter(l, l.start, clampToLine) == 0.0
    ensures ClosestPointToPointParameter(l, l.end, clampToLine) == 1.0
  {
    ParameterAtStart(l);
    ParameterAtEnd(l);
  }

  lemma {:induction false} ParameterAtStart(l: Line3)
    requires l.start != l.end
    ensures ClosestPointToPointParameter(l, l.start, false) == 0.0
  {
    var len := DistanceSq(l);
    assert Vec3.Sub(l.start, l.start) == Vec3.Zero();
    var t := ClosestPointToPointParameter(l, l.start, false);
    assert t * len == 0.0;
  }

  lemma {:induction false} ParameterAtEnd(l: Line3)
    requires l.start != l.end
    ensures ClosestPointToPointParameter(l, l.end, false) == 1.0
  {
    var len := DistanceSq(l);
    var t := ClosestPointToPointParameter(l, l.end, false);
    calc {
      t * len;
      Vec3.Dot(Delta(l), Vec3.Sub(l.end, l.start));
      { Vec3.LengthSqZero(Delta(l)); }
      len;
    }
    CancelFactor(t, len);
  }

  lemma CancelFactor(t: real, len: real)
    requires len > 0.0 && t * len == len
    ensures t == 1.0
  {
  }

  /** `closestPointToPoint`: the point of the line (or of the segment, when clamped)
      nearest to `p`, obtained from the parameter. */
  function ClosestPointToPoint(l: Line3, p: Vec3.Vector3, clampToLine: bool): (r: Vec3.Vector3)
    requires l.start != l.end
    ensures r == At(l, ClosestPointToPointParameter(l, p, clampToLine))
    ensures p == l.start ==> r == l.start
    ensures p == l.end ==> r == l.end
  {
    ParameterAtEndpoints(l, clampToLine);
    var t := ClosestPointToPointParameter(l, p, clampToLine);
    Vec3.Add(Vec3.MultiplyScalar(Delta(l), t), l.start)
  }

  /** `applyMatrix4`: both endpoints are transformed as points. */
  function ApplyMatrix4(l: Line3, m: Mat4.Matrix4): (r: Line3)
    ensures r.start == Vec3Apply.ApplyMatrix4(l.start, m)
    ensures r.end == Vec3Apply.ApplyMatrix4(l.end, m)
    ensures m == Mat4.Identity() ==> r == l
  {
    Vec3Apply.ApplyMatrix4Identity(l.start);
    Vec3Apply.ApplyMatrix4Identity(l.end);
    Line3(Vec3Apply.ApplyMatrix4(l.start, m), Vec3Apply.ApplyMatrix4(l.end, m))
  }

  /** `equals`: both endpoints agree. */
  function Equals(a: Line3, b: Line3): (r: bool)
    ensures r <==> a == b
  {
    Vec3.Equals(b.start, a.start) && Vec3.Equals(b.end, a.end)
  }
}
