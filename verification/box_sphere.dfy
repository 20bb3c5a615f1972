/** The box-sphere test, which needs both shapes. */
module BoxSphere {
  import MathUtil
  import Vec3
  import Box3
  import Sphere

  /** `Box3::intersectsSphere`: the point of the box nearest to the sphere's center
      lies within the radius. */
  predicate IntersectsSphere(b: Box3.Box3, s: Sphere.Sphere) {
    var closestPoint := Box3.ClampPoint(b, s.center);
    Vec3.DistanceToSquared(closestPoint, s.center) <= s.radius * s.radius
  }

  /** For a non-empty box the test holds exactly when the box and the sphere share
      a point. */
  lemma {:induction false} IntersectsSphereIffCommonPoint(b: Box3.Box3, s: Sphere.Sphere)
    requires !Box3.IsEmpty(b)
    ensures IntersectsSphere(b, s) <==> exists p: Vec3.Vector3 :: Box3.ContainsPoint(b, p) && Sphere.ContainsPoint(s, p)
  {
    var c := Box3.ClampPoint(b, s.center);
    if IntersectsSphere(b, s) {
      assert Box3.ContainsPoint(b, c) && Sphere.ContainsPoint(s, c);
    }
    if exists p: Vec3.Vector3 :: Box3.ContainsPoint(b, p) && Sphere.ContainsPoint(s, p) {
      var p: Vec3.Vector3 :| Box3.ContainsPoint(b, p) && Sphere.ContainsPoint(s, p);
      Box3.ClampPointIsNearest(b, s.center, p);
    }
  }

  /** A box holding the sphere's center intersects it, whatever the radius. */
  lemma {:induction false} ContainedCenterIntersects(b: Box3.Box3, s: Sphere.Sphere)
    requires Box3.ContainsPoint(b, s.center)
    ensures IntersectsSphere(b, s)
  {
    Vec3.DistanceToSquaredZero(s.center, s.center);
    MathUtil.SquareNonneg(s.radius);
  }

  /** Growing the radius's magnitude keeps an intersection. */
  lemma {:induction false} LargerRadiusIntersects(b: Box3.Box3, s: Sphere.Sphere, radius: real)
    requires MathUtil.AbsReal(s.radius) <= MathUtil.AbsReal(radius)
    requires IntersectsSphere(b, s)
    ensures IntersectsSphere(b, Sphere.Sphere(s.center, radius))
  {
    var a, r := MathUtil.AbsReal(s.radius), MathUtil.AbsReal(radius);
    Box3.SquareMonotone(a, r);
    assert a * a == s.radius * s.radius;
    assert r * r == radius * radius;
  }

  /** `Sphere::intersectsBox` delegates to the box; for a non-empty box it holds
      exactly when the shapes share a point. */
  function SphereIntersectsBox(s: Sphere.Sphere, b: Box3.Box3): (r: bool)
    ensures !Box3.IsEmpty(b) ==> (r <==> exists p: Vec3.Vector3 :: Box3.ContainsPoint(b, p) && Sphere.ContainsPoint(s, p))
  {
    if !Box3.IsEmpty(b) then IntersectsSphereIffCommonPoint(b, s); IntersectsSphere(b, s)
    else IntersectsSphere(b, s)
  }
}
