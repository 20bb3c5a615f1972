/** Planes in Hessian form: the points `p` with `normal . p + constant == 0`. */
module Plane {
  import MathUtil
  import Vec3
  import Line3
  import Mat3
  import Mat4
  import Vec3Apply

  datatype Plane = Plane(normal: Vec3.Vector3, constant: real)

  /** The default constructor: zero normal and zero constant, so every point
      is at distance 0. */
  function Default(): (r: Plane)
    ensures forall p: Vec3.Vector3 :: DistanceToPoint(r, p) == 0.0
  {
    Plane(Vec3.Zero(), 0.0)
  }

  /** `set` / `copy`: both fields are replaced, whatever the receiver held. */
  function Set(pl: Plane, normal: Vec3.Vector3, constant: real): (r: Plane)
    ensures Equals(r, Plane(normal, constant))
  {
    pl.(normal := normal, constant := constant)
  }

  /** `setComponents`: the first three values form the normal, the fourth is the
      constant, i.e. the signed distance of the origin. */
  function SetComponents(pl: Plane, x: real, y: real, z: real, w: real): (r: Plane)
    ensures r.normal == Vec3.Vector3(x, y, z)
    ensures DistanceToPoint(r, Vec3.Zero()) == w
  {
    pl.(normal := Vec3.Vector3(x, y, z), constant := w)
  }

  /** `setFromNormalAndCoplanarPoint`: the plane with the given normal through `point`. */
  function SetFromNormalAndCoplanarPoint(pl: Plane, normal: Vec3.Vector3, point: Vec3.Vector3): (r: Plane)
    ensures r.normal == normal
    ensures DistanceToPoint(r, point) == 0.0
  {
    pl.(normal := normal, constant := -Vec3.Dot(point, normal))
  }

  /** `normalize`: divides normal and constant by the normal's length, which is
      passed in as `len`. The normal becomes a unit vector, every distance is
      divided by `len`, and so no point changes side. */
  function Normalize(pl: Plane, len: real): (r: Plane)
    requires len > 0.0 && len * len == Vec3.LengthSq(pl.normal)
    ensures Vec3.LengthSq(r.normal) == 1.0
    ensures forall p: Vec3.Vector3 :: DistanceToPoint(r, p) * len == DistanceToPoint(pl, p)
  {
    var inverseNormalLength := 1.0 / len;
    var r := Plane(Vec3.MultiplyScalar(pl.normal, inverseNormalLength), pl.constant * inverseNormalLength);
    NormalizedLength(pl.normal.x, pl.normal.y, pl.normal.z, len);
    NormalizedDistances(pl, len, r);
    r
  }

  lemma NormalizedLength(x: real, y: real, z: real, len: real)
    requires len > 0.0 && len * len == x * x + y * y + z * z
    ensures var k := 1.0 / len; (x * k) * (x * k) + (y * k) * (y * k) + (z * k) * (z * k) == 1.0
  {
    var k := 1.0 / len;
    var u := k * len;
    assert u == 1.0;
    calc {
      (x * k) * (x * k) + (y * k) * (y * k) + (z * k) * (z * k);
      (k * k) * (x * x + y * y + z * z);
      (k * k) * (len * len);
      u * u;
      1.0;
    }
  }

  lemma NormalizedDistances(pl: Plane, len: real, r: Plane)
    requires len > 0.0
    requires r == Plane(Vec3.MultiplyScalar(pl.normal, 1.0 / len), pl.constant * (1.0 / len))
    ensures forall p: Vec3.Vector3 :: DistanceToPoint(r, p) * len == DistanceToPoint(pl, p)
  {
    forall p: Vec3.Vector3
      ensures DistanceToPoint(r, p) * len == DistanceToPoint(pl, p)
    {
      var k := 1.0 / len;
      assert k * len == 1.0;
      assert DistanceToPoint(r, p) == k * DistanceToPoint(pl, p);
      assert DistanceToPoint(r, p) * len == (k * len) * DistanceToPoint(pl, p);
    }
  }

  /** Normalising keeps the side of every point: the signs of the distances agree. */
  lemma {:induction false} NormalizeKeepsSides(pl: Plane, len: real, p: Vec3.Vector3)
    requires len > 0.0 && len * len == Vec3.LengthSq(pl.normal)
    ensures DistanceToPoint(Normalize(pl, len), p) < 0.0 <==> DistanceToPoint(pl, p) < 0.0
    ensures DistanceToPoint(Normalize(pl, len), p) == 0.0 <==> DistanceToPoint(pl, p) == 0.0
  {
    var d := DistanceToPoint(Normalize(pl, len), p);
    assert d * len == DistanceToPoint(pl, p);
    if d < 0.0 {
      MathUtil.MulPos(-d, len);
    } else if d > 0.0 {
      MathUtil.MulPos(d, len);
    }
  }

  /** `negate`: the same point set with the opposite orientation. */
  function Negate(pl: Plane): (r: Plane)
    ensures forall p: Vec3.Vector3 :: DistanceToPoint(r, p) == -DistanceToPoint(pl, p)
  {
    Plane(Vec3.Negate(pl.normal), pl.constant * -1.0)
  }

  /** Negating twice restores the plane. */
  lemma NegateInvolution(pl: Plane)
    ensures Negate(Negate(pl)) == pl
  {
  }

  /** `distanceToPoint`: the signed distance when the normal has unit length;
      positive on the side the normal points to. */
  function DistanceToPoint(pl: Plane, p: Vec3.Vector3): real {
    Vec3.Dot(pl.normal, p) + pl.constant
  }

  /** The denominator `intersectLine` divides by: the normal's component along
      the segment. It is zero exactly when the segment runs parallel to the plane. */
  function LineDenominator(pl: Plane, line: Line3.Line3): (r: real)
    ensures r == DistanceToPoint(pl, line.end) - DistanceToPoint(pl, line.start)
  {
    Vec3.Dot(pl.normal, Line3.Delta(line))
  }

  /** The segment parameter at which the line through the segment meets the plane. */
  function LineParameter(pl: Plane, line: Line3.Line3): (t: real)
    requires LineDenominator(pl, line) != 0.0
    ensures t * LineDenominator(pl, line) == -DistanceToPoint(pl, line.start)
  {
    -(Vec3.Dot(line.start, pl.normal) + pl.constant) / LineDenominator(pl, line)
  }

  /** `intersectLine`: where the segment crosses the plane. A segment lying in the
      plane yields its start; every miss (parallel and off the plane, or crossing
      outside the segment) yields the zero vector. */
  function IntersectLine(pl: Plane, line: Line3.Line3): (r: Vec3.Vector3)
    ensures LineDenominator(pl, line) == 0.0 ==>
      r == (if DistanceToPoint(pl, line.start) == 0.0 then line.start else Vec3.Zero())
    ensures LineDenominator(pl, line) != 0.0 ==>
      var t := LineParameter(pl, line);
      if 0.0 <= t <= 1.0 then r == Line3.At(line, t) && DistanceToPoint(pl, r) == 0.0
      else r == Vec3.Zero()
  {
    var direction := Line3.Delta(line);
    var denominator := Vec3.Dot(pl.normal, direction);
    if denominator == 0.0 then
      if DistanceToPoint(pl, line.start) == 0.0 then line.start else Vec3.Zero()
    else
      var t := -(Vec3.Dot(line.start, pl.normal) + pl.constant) / denominator;
      if t < 0.0 || t > 1.0 then Vec3.Zero()
      else
        AtIsOnPlane(pl, line);
        Vec3.Add(Vec3.MultiplyScalar(direction, t), line.start)
  }

  /** The point at the crossing parameter lies on the plane. */
  lemma {:induction false} AtIsOnPlane(pl: Plane, line: Line3.Line3)
    requires LineDenominator(pl, line) != 0.0
    ensures DistanceToPoint(pl, Line3.At(line, LineParameter(pl, line))) == 0.0
  {
    var n, d, s, t := pl.normal, Line3.Delta(line), line.start, LineParameter(pl, line);
    OnPlaneResidual(n.x, n.y, n.z, d.x, d.y, d.z, s.x, s.y, s.z, pl.constant, t);
  }

  lemma OnPlaneResidual(nx: real, ny: real, nz: real, dx: real, dy: real, dz: real,
                        sx: real, sy: real, sz: real, c: real, t: real)
    requires t * (nx * dx + ny * dy + nz * dz) == -(nx * sx + ny * sy + nz * sz + c)
    ensures nx * (dx * t + sx) + ny * (dy * t + sy) + nz * (dz * t + sz) + c == 0.0
  {
  }

  /** `intersectsLine`: the endpoints lie strictly on opposite sides; an endpoint
      on the plane does not count. */
  function IntersectsLine(pl: Plane, line: Line3.Line3): (r: bool)
    ensures r <==> DistanceToPoint(pl, line.start) * DistanceToPoint(pl, line.end) < 0.0
  {
    var startSign := DistanceToPoint(pl, line.start);
    var endSign := DistanceToPoint(pl, line.end);
    OppositeSigns(startSign, endSign);
    (startSign < 0.0 && endSign > 0.0) || (endSign < 0.0 && startSign > 0.0)
  }

  lemma OppositeSigns(a: real, b: real)
    ensures (a < 0.0 && b > 0.0) || (b < 0.0 && a > 0.0) <==> a * b < 0.0
  {
    if a < 0.0 && b > 0.0 {
      MathUtil.MulPos(-a, b);
    } else if b < 0.0 && a > 0.0 {
      MathUtil.MulPos(a, -b);
    } else if a <= 0.0 && b <= 0.0 {
      MathUtil.MulNonneg(-a, -b);
    } else {
      MathUtil.MulNonneg(a, b);
    }
  }

  /** When `intersectsLine` holds, `intersectLine` finds a crossing strictly inside
      the segment, and it lies on the plane. */
  lemma {:induction false} IntersectsLineFindsPoint(pl: Plane, line: Line3.Line3)
    requires IntersectsLine(pl, line)
    ensures LineDenominator(pl, line) != 0.0
    ensures 0.0 < LineParameter(pl, line) < 1.0
    ensures IntersectLine(pl, line) == Line3.At(line, LineParameter(pl, line))
    ensures DistanceToPoint(pl, IntersectLine(pl, line)) == 0.0
  {
    var ds := DistanceToPoint(pl, line.start);
    var de := DistanceToPoint(pl, line.end);
    var den := LineDenominator(pl, line);
    assert den == de - ds;
    var t := LineParameter(pl, line);
    assert t * den == -ds;
    if ds < 0.0 {
      CrossingFraction(-ds, den, t);
    } else {
      assert t * -den == ds;
      CrossingFraction(ds, -den, t);
    }
  }

  lemma CrossingFraction(a: real, b: real, t: real)
    requires 0.0 < a < b && t * b == a
    ensures 0.0 < t < 1.0
  {
    assert t == a / b;
    MathUtil.UnitFraction(a, b);
  }

  /** `coplanarPoint`: the normal scaled by `-constant`; it lies on the plane when
      the normal has unit length. */
  function CoplanarPoint(pl: Plane): (r: Vec3.Vector3)
    ensures Vec3.LengthSq(pl.normal) == 1.0 ==> DistanceToPoint(pl, r) == 0.0
  {
    var n := pl.normal;
    CoplanarResidual(n.x, n.y, n.z, pl.constant);
    Vec3.MultiplyScalar(n, -pl.constant)
  }

  lemma CoplanarResidual(nx: real, ny: real, nz: real, c: real)
    ensures nx * nx + ny * ny + nz * nz == 1.0 ==> nx * (nx * -c) + ny * (ny * -c) + nz * (nz * -c) + c == 0.0
  {
    assert nx * (nx * -c) + ny * (ny * -c) + nz * (nz * -c) == -c * (nx * nx + ny * ny + nz * nz);
  }

  /** `orthoPoint`: the normal scaled by the signed distance of `point`. For a
      unit normal its component along the normal is that distance. */
  function OrthoPoint(pl: Plane, point: Vec3.Vector3): (r: Vec3.Vector3)
    ensures Vec3.LengthSq(pl.normal) == 1.0 ==> Vec3.Dot(pl.normal, r) == DistanceToPoint(pl, point)
  {
    var d := DistanceToPoint(pl, point);
    ScaledNormal(pl.normal.x, pl.normal.y, pl.normal.z, d);
    Vec3.MultiplyScalar(pl.normal, d)
  }

  lemma ScaledNormal(nx: real, ny: real, nz: real, d: real)
    ensures nx * nx + ny * ny + nz * nz == 1.0 ==> nx * (nx * d) + ny * (ny * d) + nz * (nz * d) == d
  {
    assert nx * (nx * d) + ny * (ny * d) + nz * (nz * d) == d * (nx * nx + ny * ny + nz * nz);
  }

  /** `projectPoint`: `orthoPoint(point) - point`, negated, so that it and
      `orthoPoint` add up to `point`. For a unit normal it lies on the plane, and
      a point already on the plane is its own projection. */
  function ProjectPoint(pl: Plane, point: Vec3.Vector3): (r: Vec3.Vector3)
    ensures Vec3.Add(r, OrthoPoint(pl, point)) == point
    ensures Vec3.LengthSq(pl.normal) == 1.0 ==> DistanceToPoint(pl, r) == 0.0
    ensures DistanceToPoint(pl, point) == 0.0 ==> r == point
  {
    var o := OrthoPoint(pl, point);
    var r := Vec3.Negate(Vec3.Sub(o, point));
    assert r == Vec3.Sub(point, o);
    DotSub(pl.normal, point, o);
    r
  }

  lemma DotSub(n: Vec3.Vector3, a: Vec3.Vector3, b: Vec3.Vector3)
    ensures Vec3.Dot(n, Vec3.Sub(a, b)) == Vec3.Dot(n, a) - Vec3.Dot(n, b)
  {
  }

  /** For a unit normal, no point of the plane is nearer to `point` than
      `projectPoint(point)`: it is the foot of the perpendicular. */
  lemma {:induction false} ProjectPointIsNearest(pl: Plane, point: Vec3.Vector3, q: Vec3.Vector3)
    requires Vec3.LengthSq(pl.normal) == 1.0 && DistanceToPoint(pl, q) == 0.0
    ensures Vec3.DistanceToSquared(point, ProjectPoint(pl, point)) <= Vec3.DistanceToSquared(point, q)
  {
    var r := ProjectPoint(pl, point);
    ProjectPointOffset(pl, point);
    DotSub(pl.normal, r, q);
    NearestByOffsets(point, r, q, pl.normal, DistanceToPoint(pl, point));
  }

  /** `r` is reached from `point` along the unit normal `n`, and `q` differs from
      `r` by a vector orthogonal to `n`: then `r` is the nearer to `point`. */
  lemma NearestByOffsets(point: Vec3.Vector3, r: Vec3.Vector3, q: Vec3.Vector3, n: Vec3.Vector3, d: real)
    requires Vec3.LengthSq(n) == 1.0 && Vec3.Dot(n, Vec3.Sub(r, q)) == 0.0
    requires point.x - r.x == n.x * d && point.y - r.y == n.y * d && point.z - r.z == n.z * d
    ensures Vec3.DistanceToSquared(point, r) <= Vec3.DistanceToSquared(point, q)
  {
    var u := Vec3.Sub(r, q);
    var e1, e2, e3 := point.x - r.x, point.y - r.y, point.z - r.z;
    var f1, f2, f3 := point.x - q.x, point.y - q.y, point.z - q.z;
    SquaredFromOffsets(point, r, e1, e2, e3);
    SquaredFromOffsets(point, q, f1, f2, f3);
    PerpendicularFoot(n.x, n.y, n.z, d, u.x, u.y, u.z, e1, e2, e3, f1, f2, f3,
                      Vec3.DistanceToSquared(point, r), Vec3.DistanceToSquared(point, q));
  }

  /** The offset from the projection back to the point is the normal scaled by the distance. */
  lemma ProjectPointOffset(pl: Plane, point: Vec3.Vector3)
    ensures point.x - ProjectPoint(pl, point).x == pl.normal.x * DistanceToPoint(pl, point)
    ensures point.y - ProjectPoint(pl, point).y == pl.normal.y * DistanceToPoint(pl, point)
    ensures point.z - ProjectPoint(pl, point).z == pl.normal.z * DistanceToPoint(pl, point)
  {
  }

  lemma SquaredFromOffsets(a: Vec3.Vector3, b: Vec3.Vector3, e1: real, e2: real, e3: real)
    requires a.x - b.x == e1 && a.y - b.y == e2 && a.z - b.z == e3
    ensures Vec3.DistanceToSquared(a, b) == e1 * e1 + e2 * e2 + e3 * e3
  {
  }

  lemma PerpendicularFoot(n1: real, n2: real, n3: real, d: real, u1: real, u2: real, u3: real,
                          e1: real, e2: real, e3: real, f1: real, f2: real, f3: real, near: real, far: real)
    requires n1 * n1 + n2 * n2 + n3 * n3 == 1.0 && n1 * u1 + n2 * u2 + n3 * u3 == 0.0
    requires e1 == n1 * d && e2 == n2 * d && e3 == n3 * d
    requires f1 == e1 + u1 && f2 == e2 + u2 && f3 == e3 + u3
    requires near == e1 * e1 + e2 * e2 + e3 * e3
    requires far == f1 * f1 + f2 * f2 + f3 * f3
    ensures near <= far
  {
    assert far == near + 2.0 * d * (n1 * u1 + n2 * u2 + n3 * u3) + (u1 * u1 + u2 * u2 + u3 * u3);
    MathUtil.SquareNonneg(u1);
    MathUtil.SquareNonneg(u2);
    MathUtil.SquareNonneg(u3);
  }


  /** `applyMatrix4(matrix, optionalNormalMatrix)`: the normal is carried by the
      given normal matrix, the coplanar point by `matrix`, and the plane is rebuilt
      through them. */
  function ApplyMatrix4WithNormalMatrix(pl: Plane, m: Mat4.Matrix4, normalMatrix: Mat3.Matrix3): (r: Plane)
    ensures r.normal == Vec3Apply.ApplyMatrix3(pl.normal, normalMatrix)
    ensures DistanceToPoint(r, Vec3Apply.ApplyMatrix4(CoplanarPoint(pl), m)) == 0.0
  {
    var newNormal := Vec3Apply.ApplyMatrix3(pl.normal, normalMatrix);
    var newCoplanarPoint := Vec3Apply.ApplyMatrix4(CoplanarPoint(pl), m);
    SetFromNormalAndCoplanarPoint(pl, newNormal, newCoplanarPoint)
  }

  /** `applyMatrix4(matrix)`: as above with `getNormalMatrix(matrix)`, the
      inverse transpose of the upper-left block. */
  function ApplyMatrix4(pl: Plane, m: Mat4.Matrix4): (r: Plane)
    ensures r.normal == Vec3Apply.ApplyMatrix3(pl.normal, Mat3.GetNormalMatrix(m))
    ensures DistanceToPoint(r, Vec3Apply.ApplyMatrix4(CoplanarPoint(pl), m)) == 0.0
  {
    ApplyMatrix4WithNormalMatrix(pl, m, Mat3.GetNormalMatrix(m))
  }

  /** When the normal matrix undoes the transpose of the upper-left block and the
      normal has unit length, the transformed plane is at the same signed distance
      from the image of every point as the plane was from the point: the images of
      the plane's points are exactly the points of the new plane that `m` reaches. */
  lemma {:induction false} ApplyMatrix4WithNormalMatrixKeepsDistances(pl: Plane, m: Mat4.Matrix4, normalMatrix: Mat3.Matrix3, p: Vec3.Vector3)
    requires Vec3.LengthSq(pl.normal) == 1.0
    requires Mat3.Multiply(Mat3.Transpose(normalMatrix), Mat3.Upper(m)) == Mat3.Identity()
    ensures DistanceToPoint(ApplyMatrix4WithNormalMatrix(pl, m, normalMatrix), Vec3Apply.ApplyMatrix4(p, m))
         == DistanceToPoint(pl, p)
  {
    var n := pl.normal;
    var c := CoplanarPoint(pl);
    var upper := Mat3.Upper(m);
    var newNormal := Vec3Apply.ApplyMatrix3(n, normalMatrix);
    var p0 := Vec3Apply.ApplyMatrix4(c, m);
    var q := Vec3Apply.ApplyMatrix4(p, m);
    var w := Vec3.Sub(p, c);
    // the image of the offset from the coplanar point
    Vec3Apply.ApplyMatrix4IsLinearPlusPosition(p, m);
    Vec3Apply.ApplyMatrix4IsLinearPlusPosition(c, m);
    Vec3Apply.ApplyMatrix3Sub(p, c, upper);
    assert Vec3.Sub(q, p0) == Vec3Apply.ApplyMatrix3(w, upper);
    // the normal matrix undoes the block across the dot product
    Vec3Apply.DotApplyMatrix3(n, Vec3Apply.ApplyMatrix3(w, upper), normalMatrix);
    Vec3Apply.ApplyMatrix3Compose(w, Mat3.Transpose(normalMatrix), upper);
    Vec3Apply.ApplyMatrix3Identity(w);
    assert Vec3.Dot(newNormal, Vec3.Sub(q, p0)) == Vec3.Dot(n, w);
    DotSub(newNormal, q, p0);
    DotSub(n, p, c);
    assert Vec3.Dot(n, c) == -pl.constant by {
      ScaledNormal(n.x, n.y, n.z, -pl.constant);
    }
  }

  /** The same for `applyMatrix4(matrix)` whenever the upper-left block is invertible. */
  lemma {:induction false} ApplyMatrix4KeepsDistances(pl: Plane, m: Mat4.Matrix4, p: Vec3.Vector3)
    requires Vec3.LengthSq(pl.normal) == 1.0
    requires Mat3.Determinant(Mat3.Upper(m)) != 0.0
    ensures DistanceToPoint(ApplyMatrix4(pl, m), Vec3Apply.ApplyMatrix4(p, m)) == DistanceToPoint(pl, p)
  {
    var g := Mat3.GetNormalMatrix(m);
    var upper := Mat3.Upper(m);
    Mat3.TransposeOfProduct(Mat3.Transpose(upper), g);
    Mat3.TransposeInvolution(upper);
    assert Mat3.Transpose(Mat3.Identity()) == Mat3.Identity();
    ApplyMatrix4WithNormalMatrixKeepsDistances(pl, m, g, p);
  }

  /** `translate`: moves the plane by `offset`; a point moved along keeps its distance. */
  function Translate(pl: Plane, offset: Vec3.Vector3): (r: Plane)
    ensures r.normal == pl.normal
    ensures forall p: Vec3.Vector3 :: DistanceToPoint(r, Vec3.Add(p, offset)) == DistanceToPoint(pl, p)
  {
    pl.(constant := pl.constant - Vec3.Dot(offset, pl.normal))
  }

  /** `equals`: the normals and the constants agree. */
  function Equals(a: Plane, b: Plane): (r: bool)
    ensures r <==> a == b
  {
    Vec3.Equals(b.normal, a.normal) && b.constant == a.constant
  }
}
