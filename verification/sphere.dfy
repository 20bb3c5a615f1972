/** Spheres given by a center and a radius. */
module Sphere {
  import MathUtil
  import Vec3
  import Box3
  import Plane

  datatype Sphere = Sphere(center: Vec3.Vector3, radius: real)

  /** The default constructor: radius 0 at the origin, an `empty` sphere that
      still contains its center. */
  function Default(): (r: Sphere)
    ensures Empty(r)
    ensures ContainsPoint(r, Vec3.Zero())
  {
    Sphere(Vec3.Zero(), 0.0)
  }

  /** `set` / `copy`: center and radius are replaced, whatever the receiver held. */
  function Set(s: Sphere, center: Vec3.Vector3, radius: real): (r: Sphere)
    ensures Equals(r, Sphere(center, radius))
  {
    s.(center := center, radius := radius)
  }

  /** `empty`: the radius is not positive. */
  predicate Empty(s: Sphere) {
    s.radius <= 0.0
  }

  /** `containsPoint`: the squared distance to the center is at most the squared
      radius. */
  predicate ContainsPoint(s: Sphere, p: Vec3.Vector3) {
    Vec3.DistanceToSquared(p, s.center) <= s.radius * s.radius
  }

  /** A sphere contains its center whatever its radius, and containment only
      depends on the radius's magnitude: an `empty` sphere of radius `-r` contains
      the same points as the sphere of radius `r`. */
  lemma {:induction false} ContainsPointMagnitude(s: Sphere, p: Vec3.Vector3)
    ensures ContainsPoint(s, s.center)
    ensures ContainsPoint(s, p) == ContainsPoint(Sphere(s.center, -s.radius), p)
  {
    Vec3.DistanceToSquaredZero(s.center, s.center);
    MathUtil.SquareNonneg(s.radius);
    assert (-s.radius) * (-s.radius) == s.radius * s.radius;
  }

  /** `intersectsSphere`: the squared distance between the centers is at most the
      square of the radius sum. (The source declares the result as a `double`
      holding 0 or 1.) */
  predicate IntersectsSphere(a: Sphere, b: Sphere) {
    var radiusSum := a.radius + b.radius;
    Vec3.DistanceToSquared(b.center, a.center) <= radiusSum * radiusSum
  }

  /** `intersectsSphere` is symmetric, and every sphere intersects itself. */
  lemma {:induction false} IntersectsSphereSymmetric(a: Sphere, b: Sphere)
    ensures IntersectsSphere(a, b) == IntersectsSphere(b, a)
    ensures IntersectsSphere(a, a)
  {
    Vec3.DistanceSymmetric(a.center, b.center);
    assert (a.radius + b.radius) * (a.radius + b.radius) == (b.radius + a.radius) * (b.radius + a.radius);
    Vec3.DistanceToSquaredZero(a.center, a.center);
    MathUtil.SquareNonneg(a.radius + a.radius);
  }

  /** Spheres of non-negative radius intersect when one contains the other's center. */
  lemma {:induction false} ContainedCenterIntersects(a: Sphere, b: Sphere)
    requires a.radius >= 0.0 && b.radius >= 0.0
    requires ContainsPoint(a, b.center)
    ensures IntersectsSphere(a, b)
  {
    Box3.SquareMonotone(a.radius, a.radius + b.radius);
  }

  /** `intersectsPlane` as the source writes it: `|center . normal - constant|` is
      at most the radius. `Plane::distanceToPoint` adds the constant instead, so
      with a unit normal this tests the mirrored plane `normal . x == constant`. */
  function IntersectsPlane(s: Sphere, pl: Plane.Plane): (r: bool)
    ensures Vec3.LengthSq(pl.normal) == 1.0 && s.radius >= 0.0 ==>
              (r <==> MeetsPlane(s, Plane.Plane(pl.normal, -pl.constant)))
  {
    var r := MathUtil.AbsReal(Vec3.Dot(s.center, pl.normal) - pl.constant) <= s.radius;
    var mirror := Plane.Plane(pl.normal, -pl.constant);
    assert Plane.DistanceToPoint(mirror, s.center) == Vec3.Dot(s.center, pl.normal) - pl.constant;
    if Vec3.LengthSq(pl.normal) == 1.0 && s.radius >= 0.0 then
      CenterWithinRadiusIffMeets(s, mirror);
      r
    else
      r
  }

  /** `intersectsPlane` with the sign of `Plane::distanceToPoint`: the center is no
      further from the plane than the radius. It is the source's test applied to
      the mirrored plane, and with a unit normal it holds exactly when the ball
      and the plane share a point. */
  function IntersectsPlaneCorrected(s: Sphere, pl: Plane.Plane): (r: bool)
    ensures r == IntersectsPlane(s, Plane.Plane(pl.normal, -pl.constant))
    ensures Vec3.LengthSq(pl.normal) == 1.0 && s.radius >= 0.0 ==> (r <==> MeetsPlane(s, pl))
  {
    if Vec3.LengthSq(pl.normal) == 1.0 && s.radius >= 0.0 then
      CenterWithinRadiusIffMeets(s, pl);
      MathUtil.AbsReal(Plane.DistanceToPoint(pl, s.center)) <= s.radius
    else
      MathUtil.AbsReal(Plane.DistanceToPoint(pl, s.center)) <= s.radius
  }

  /** The ball and the plane share a point. */
  ghost predicate MeetsPlane(s: Sphere, pl: Plane.Plane) {
    exists q: Vec3.Vector3 :: Plane.DistanceToPoint(pl, q) == 0.0 && ContainsPoint(s, q)
  }

  /** For a unit normal and a non-negative radius, the center lies within the
      radius of the plane exactly when the ball meets the plane. */
  lemma {:induction false} CenterWithinRadiusIffMeets(s: Sphere, pl: Plane.Plane)
    requires Vec3.LengthSq(pl.normal) == 1.0 && s.radius >= 0.0
    ensures MathUtil.AbsReal(Plane.DistanceToPoint(pl, s.center)) <= s.radius <==> MeetsPlane(s, pl)
  {
    if MathUtil.AbsReal(Plane.DistanceToPoint(pl, s.center)) <= s.radius {
      var q := CenterWithinRadiusMeets(s, pl);
    }
    if MeetsPlane(s, pl) {
      var q: Vec3.Vector3 :| Plane.DistanceToPoint(pl, q) == 0.0 && ContainsPoint(s, q);
      CenterNearPlane(s, pl, q);
    }
  }

  /** A center within the radius gives a common point: its foot on the plane. */
  lemma CenterWithinRadiusMeets(s: Sphere, pl: Plane.Plane) returns (q: Vec3.Vector3)
    requires Vec3.LengthSq(pl.normal) == 1.0 && s.radius >= 0.0
    requires MathUtil.AbsReal(Plane.DistanceToPoint(pl, s.center)) <= s.radius
    ensures Plane.DistanceToPoint(pl, q) == 0.0 && ContainsPoint(s, q)
  {
    var d := Plane.DistanceToPoint(pl, s.center);
    q := FootOfPerpendicular(s.center, pl, d);
    FootContained(s, q, d);
  }

  lemma FootContained(s: Sphere, q: Vec3.Vector3, d: real)
    requires MathUtil.AbsReal(d) <= s.radius
    requires Vec3.DistanceToSquared(q, s.center) == d * d
    ensures ContainsPoint(s, q)
  {
    var a := MathUtil.AbsReal(d);
    Box3.SquareMonotone(a, s.radius);
    assert a * a == d * d;
  }

  /** `c - d * normal`, with `d` the distance of `c`, lies on a unit-normal plane
      at squared distance `d * d` from `c`. */
  lemma FootOfPerpendicular(c: Vec3.Vector3, pl: Plane.Plane, d: real) returns (q: Vec3.Vector3)
    requires Vec3.LengthSq(pl.normal) == 1.0 && d == Plane.DistanceToPoint(pl, c)
    ensures Plane.DistanceToPoint(pl, q) == 0.0
    ensures Vec3.DistanceToSquared(q, c) == d * d
  {
    var n := pl.normal;
    q := Vec3.Sub(c, Vec3.MultiplyScalar(n, d));
    FootReals(n.x, n.y, n.z, c.x, c.y, c.z, pl.constant, d, q.x, q.y, q.z);
  }

  lemma FootReals(nx: real, ny: real, nz: real, cx: real, cy: real, cz: real,
                  k: real, d: real, qx: real, qy: real, qz: real)
    requires nx * nx + ny * ny + nz * nz == 1.0
    requires d == nx * cx + ny * cy + nz * cz + k
    requires qx == cx - nx * d && qy == cy - ny * d && qz == cz - nz * d
    ensures nx * qx + ny * qy + nz * qz + k == 0.0
    ensures (qx - cx) * (qx - cx) + (qy - cy) * (qy - cy) + (qz - cz) * (qz - cz) == d * d
  {
    assert nx * qx + ny * qy + nz * qz == nx * cx + ny * cy + nz * cz - (nx * nx + ny * ny + nz * nz) * d;
    assert (qx - cx) * (qx - cx) + (qy - cy) * (qy - cy) + (qz - cz) * (qz - cz)
        == (nx * nx + ny * ny + nz * nz) * (d * d);
  }

  /** A point of the ball on a unit-normal plane keeps the center within the radius. */
  lemma CenterNearPlane(s: Sphere, pl: Plane.Plane, q: Vec3.Vector3)
    requires Vec3.LengthSq(pl.normal) == 1.0 && s.radius >= 0.0
    requires Plane.DistanceToPoint(pl, q) == 0.0 && ContainsPoint(s, q)
    ensures MathUtil.AbsReal(Plane.DistanceToPoint(pl, s.center)) <= s.radius
  {
    var n, c := pl.normal, s.center;
    var e := Vec3.Sub(q, c);
    var d := Plane.DistanceToPoint(pl, c);
    assert d == -Vec3.Dot(n, e);
    MathUtil.CauchySchwarz(n.x, n.y, n.z, e.x, e.y, e.z);
    assert d * d <= Vec3.LengthSq(e);
    assert Vec3.LengthSq(e) == Vec3.DistanceToSquared(q, c);
    assert MathUtil.AbsReal(d) * MathUtil.AbsReal(d) == d * d;
    if MathUtil.AbsReal(d) > s.radius {
      StrictSquare(s.radius, MathUtil.AbsReal(d));
    }
  }

  /** A unit sphere centred on the plane `x - 5 == 0`: the source's test says it
      misses the plane, the corrected test says it meets it. */
  lemma IntersectsPlaneSignCounterexample()
    ensures var s := Sphere(Vec3.Vector3(5.0, 0.0, 0.0), 1.0);
            var pl := Plane.Plane(Vec3.Vector3(1.0, 0.0, 0.0), -5.0);
            Plane.DistanceToPoint(pl, s.center) == 0.0 &&
            !IntersectsPlane(s, pl) && IntersectsPlaneCorrected(s, pl)
  {
  }

  /** `clampPoint`: a point inside the sphere is returned unchanged; a point outside
      is pulled along the ray from the center onto the surface. That branch
      normalises `point - center`, which needs its length: it is passed in as
      `len`, the non-negative root of the squared distance. */
  function ClampPoint(s: Sphere, p: Vec3.Vector3, len: real): (r: Vec3.Vector3)
    requires len >= 0.0 && len * len == Vec3.DistanceToSquared(s.center, p)
    ensures ContainsPoint(s, p) ==> r == p
    ensures !ContainsPoint(s, p) ==> Vec3.DistanceToSquared(r, s.center) == s.radius * s.radius
  {
    var deltaLengthSq := Vec3.DistanceToSquared(s.center, p);
    Vec3.DistanceSymmetric(s.center, p);
    if deltaLengthSq > s.radius * s.radius then
      MathUtil.SquareNonneg(s.radius);
      var d := Vec3.Sub(p, s.center);
      var r := Vec3.Add(Vec3.MultiplyScalar(Vec3.DivideScalar(d, len), s.radius), s.center);
      OnSurface(d.x, d.y, d.z, len, s.radius, s.center.x, s.center.y, s.center.z, r.x, r.y, r.z);
      r
    else
      p
  }

  lemma OnSurface(dx: real, dy: real, dz: real, len: real, radius: real,
                  cx: real, cy: real, cz: real, rx: real, ry: real, rz: real)
    requires len != 0.0 && len * len == (-dx) * (-dx) + (-dy) * (-dy) + (-dz) * (-dz)
    requires rx == dx * (1.0 / len) * radius + cx
    requires ry == dy * (1.0 / len) * radius + cy
    requires rz == dz * (1.0 / len) * radius + cz
    ensures (rx - cx) * (rx - cx) + (ry - cy) * (ry - cy) + (rz - cz) * (rz - cz) == radius * radius
  {
    var k := 1.0 / len;
    var u := k * len;
    assert u == 1.0;
    calc {
      (rx - cx) * (rx - cx) + (ry - cy) * (ry - cy) + (rz - cz) * (rz - cz);
      (dx * k * radius) * (dx * k * radius) + (dy * k * radius) * (dy * k * radius) + (dz * k * radius) * (dz * k * radius);
      (k * radius) * (k * radius) * (dx * dx + dy * dy + dz * dz);
      (k * radius) * (k * radius) * (len * len);
      (k * len) * (k * len) * (radius * radius);
      u * u * (radius * radius);
      radius * radius;
    }
  }

  /** `getBoundingBox`: the box from `center - radius` to `center + radius`. */
  function GetBoundingBox(s: Sphere): (r: Box3.Box3)
    ensures r.min == Vec3.SubScalar(s.center, s.radius) && r.max == Vec3.AddScalar(s.center, s.radius)
    ensures s.radius >= 0.0 ==> Box3.ContainsPoint(r, s.center)
  {
    var b := Box3.Box3(s.center, s.center);
    Box3.ExpandByScalar(b, s.radius)
  }

  /** For a non-negative radius the bounding box holds every point of the sphere. */
  lemma {:induction false} BoundingBoxContainsSphere(s: Sphere, p: Vec3.Vector3)
    requires s.radius >= 0.0
    requires ContainsPoint(s, p)
    ensures Box3.ContainsPoint(GetBoundingBox(s), p)
  {
    var c, r := s.center, s.radius;
    WithinRadius(p.x - c.x, p.y - c.y, p.z - c.z, r);
    WithinRadius(p.y - c.y, p.z - c.z, p.x - c.x, r);
    WithinRadius(p.z - c.z, p.x - c.x, p.y - c.y, r);
  }

  lemma WithinRadius(a: real, b: real, c: real, r: real)
    requires r >= 0.0
    requires a * a + b * b + c * c <= r * r || b * b + c * c + a * a <= r * r || c * c + a * a + b * b <= r * r
    ensures -r <= a <= r
  {
    MathUtil.SquareNonneg(b);
    MathUtil.SquareNonneg(c);
    if a > r {
      StrictSquare(r, a);
    } else if a < -r {
      StrictSquare(r, -a);
    }
  }

  lemma StrictSquare(a: real, b: real)
    requires 0.0 <= a < b
    ensures a * a < b * b
  {
    MathUtil.MulPos(b - a, b + a);
    assert b * b - a * a == (b - a) * (b + a);
  }

  /** `translate`: moves only the center; a point moved along stays inside or
      outside as before. */
  function Translate(s: Sphere, offset: Vec3.Vector3): (r: Sphere)
    ensures r.radius == s.radius
    ensures forall p: Vec3.Vector3 :: ContainsPoint(r, Vec3.Add(p, offset)) <==> ContainsPoint(s, p)
  {
    TranslateKeepsDistances(s.center, offset);
    s.(center := Vec3.Add(s.center, offset))
  }

  lemma TranslateKeepsDistances(c: Vec3.Vector3, offset: Vec3.Vector3)
    ensures forall p: Vec3.Vector3 ::
      Vec3.DistanceToSquared(Vec3.Add(p, offset), Vec3.Add(c, offset)) == Vec3.DistanceToSquared(p, c)
  {
    forall p: Vec3.Vector3
      ensures Vec3.DistanceToSquared(Vec3.Add(p, offset), Vec3.Add(c, offset)) == Vec3.DistanceToSquared(p, c)
    {
      var q, d := Vec3.Add(p, offset), Vec3.Add(c, offset);
      assert q.x - d.x == p.x - c.x && q.y - d.y == p.y - c.y && q.z - d.z == p.z - c.z;
    }
  }

  /** `equals`: centers and radii agree. */
  function Equals(a: Sphere, b: Sphere): (r: bool)
    ensures r <==> a == b
  {
    Vec3.Equals(b.center, a.center) && b.radius == a.radius
  }
}
