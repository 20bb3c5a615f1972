/** Rays: an origin and a direction; `at(t)` is the point `origin + t direction`. */
module Ray {
  import MathUtil
  import Vec3
  import Plane
  import Box3
  import Triangle

  datatype Ray = Ray(origin: Vec3.Vector3, direction: Vec3.Vector3)

  /** `set` / `copy`: origin and direction are replaced, whatever the receiver held. */
  function Set(r: Ray, origin: Vec3.Vector3, direction: Vec3.Vector3): (s: Ray)
    ensures Equals(s, Ray(origin, direction))
  {
    r.(origin := origin, direction := direction)
  }

  /** `at`: the point `t` direction-lengths along the ray. It starts at the origin
      and moves by `t direction`. */
  function At(r: Ray, t: real): (p: Vec3.Vector3)
    ensures Vec3.Sub(p, r.origin) == Vec3.MultiplyScalar(r.direction, t)
    ensures t == 0.0 ==> p == r.origin
  {
    Vec3.Add(Vec3.MultiplyScalar(r.direction, t), r.origin)
  }

  /** `recast`: moves the origin to `at(t)`; the direction is kept. */
  function Recast(r: Ray, t: real): (s: Ray)
    ensures s.origin == At(r, t) && s.direction == r.direction
  {
    r.(origin := At(r, t))
  }

  /** Walking `s` along the recast ray is walking `t + s` along the original. */
  lemma RecastShiftsParameter(r: Ray, t: real, s: real)
    ensures At(Recast(r, t), s) == At(r, t + s)
  {
  }

  /** The parameter of the projection of `point` onto the ray's line (scaled by the
      squared length of the direction). */
  function DirectionDistance(r: Ray, point: Vec3.Vector3): real {
    Vec3.Dot(Vec3.Sub(point, r.origin), r.direction)
  }

  /** `closestPointToPoint`: the origin when the point lies behind it, otherwise the
      projection of the point onto the ray. */
  function ClosestPointToPoint(r: Ray, point: Vec3.Vector3): (p: Vec3.Vector3)
    ensures DirectionDistance(r, point) < 0.0 ==> p == r.origin
    ensures DirectionDistance(r, point) >= 0.0 ==> p == At(r, DirectionDistance(r, point))
  {
    var result := Vec3.Sub(point, r.origin);
    var directionDistance := Vec3.Dot(result, r.direction);
    if directionDistance < 0.0 then r.origin
    else Vec3.Add(Vec3.MultiplyScalar(r.direction, directionDistance), r.origin)
  }

  /** For a unit direction the result is the nearest point of the ray: no point
      `at(t)` with `t >= 0` is closer to `point`. */
  lemma {:induction false} ClosestPointIsNearest(r: Ray, point: Vec3.Vector3, t: real)
    requires Vec3.LengthSq(r.direction) == 1.0
    requires t >= 0.0
    ensures Vec3.DistanceToSquared(point, ClosestPointToPoint(r, point)) <= Vec3.DistanceToSquared(point, At(r, t))
  {
    var dd := DirectionDistance(r, point);
    var best := if dd < 0.0 then 0.0 else dd;
    assert ClosestPointToPoint(r, point) == At(r, best);
    var q := Vec3.Sub(point, r.origin);
    var d := r.direction;
    DistanceAlongRay(r, point, best);
    DistanceAlongRay(r, point, t);
    MathUtil.SquareNonneg(t - best);
    if dd < 0.0 && t > 0.0 {
      MathUtil.MulNonpositive(dd, t);
    }
  }

  /** For a unit direction, the squared distance from `point` to `at(t)` is
      `|q|^2 - 2 t (q . d) + t^2` with `q = point - origin`. */
  lemma DistanceAlongRay(r: Ray, point: Vec3.Vector3, t: real)
    requires Vec3.LengthSq(r.direction) == 1.0
    ensures Vec3.DistanceToSquared(point, At(r, t))
         == Vec3.LengthSq(Vec3.Sub(point, r.origin)) - 2.0 * t * DirectionDistance(r, point) + t * t
  {
    var q, d := Vec3.Sub(point, r.origin), r.direction;
    ExpandSquare(q.x, q.y, q.z, d.x, d.y, d.z, t);
  }

  lemma ExpandSquare(qx: real, qy: real, qz: real, dx: real, dy: real, dz: real, t: real)
    requires dx * dx + dy * dy + dz * dz == 1.0
    ensures (qx - dx * t) * (qx - dx * t) + (qy - dy * t) * (qy - dy * t) + (qz - dz * t) * (qz - dz * t)
         == (qx * qx + qy * qy + qz * qz) - 2.0 * t * (qx * dx + qy * dy + qz * dz) + t * t
  {
    calc {
      (qx - dx * t) * (qx - dx * t) + (qy - dy * t) * (qy - dy * t) + (qz - dz * t) * (qz - dz * t);
      (qx * qx + qy * qy + qz * qz) - 2.0 * t * (qx * dx + qy * dy + qz * dz) + (t * t) * (dx * dx + dy * dy + dz * dz);
    }
  }

  /** `distanceToPlane`: the flag and the ray parameter at which the ray's line
      meets the plane. A ray parallel to the plane gives `(true, 0)` when its origin
      lies on the plane and `(false, -1)` otherwise; otherwise the parameter is
      returned with the flag `t >= 0`, and `at(t)` lies on the plane. */
  function DistanceToPlane(r: Ray, pl: Plane.Plane): (res: (bool, real))
    ensures Vec3.Dot(pl.normal, r.direction) == 0.0 ==>
      res == (if Plane.DistanceToPoint(pl, r.origin) == 0.0 then (true, 0.0) else (false, -1.0))
    ensures Vec3.Dot(pl.normal, r.direction) != 0.0 ==>
      res.0 == (res.1 >= 0.0) && Plane.DistanceToPoint(pl, At(r, res.1)) == 0.0
    ensures res.0 ==> Plane.DistanceToPoint(pl, At(r, res.1)) == 0.0
  {
    var denominator := Vec3.Dot(pl.normal, r.direction);
    if denominator == 0.0 then
      if Plane.DistanceToPoint(pl, r.origin) == 0.0 then (true, 0.0) else (false, -1.0)
    else
      var t := -(Vec3.Dot(r.origin, pl.normal) + pl.constant) / denominator;
      var n, d, o := pl.normal, r.direction, r.origin;
      Plane.OnPlaneResidual(n.x, n.y, n.z, d.x, d.y, d.z, o.x, o.y, o.z, pl.constant, t);
      if t >= 0.0 then (true, t) else (false, t)
  }

  /** `intersectPlane`: when `distanceToPlane` reports a hit, the point `at(t)`,
      which lies on the plane; otherwise `(false, zero)`. */
  function IntersectPlane(r: Ray, pl: Plane.Plane): (res: (bool, Vec3.Vector3))
    ensures res.0 == DistanceToPlane(r, pl).0
    ensures res.0 ==> Plane.DistanceToPoint(pl, res.1) == 0.0 && res.1 == At(r, DistanceToPlane(r, pl).1)
    ensures !res.0 ==> res.1 == Vec3.Zero()
  {
    var t := DistanceToPlane(r, pl);
    if t.0 == false then (false, Vec3.Zero())
    else (true, At(r, t.1))
  }

  /** `intersectsPlane`: the origin lies on the plane, or the direction points
      towards the plane from the origin's side. */
  function IntersectsPlane(r: Ray, pl: Plane.Plane): (res: bool)
    ensures res <==> Plane.DistanceToPoint(pl, r.origin) == 0.0 ||
                     Vec3.Dot(pl.normal, r.direction) * Plane.DistanceToPoint(pl, r.origin) < 0.0
  {
    var distToPoint := Plane.DistanceToPoint(pl, r.origin);
    if distToPoint == 0.0 then true
    else
      var denominator := Vec3.Dot(pl.normal, r.direction);
      if denominator * distToPoint < 0.0 then true
      else false
  }

  /** `intersectsPlane` agrees with the flag of `distanceToPlane`: it holds exactly
      when the ray meets the plane at a parameter `t >= 0`. */
  lemma {:induction false} IntersectsPlaneIffDistanceFlag(r: Ray, pl: Plane.Plane)
    ensures IntersectsPlane(r, pl) <==> DistanceToPlane(r, pl).0
  {
    var den := Vec3.Dot(pl.normal, r.direction);
    var dist := Plane.DistanceToPoint(pl, r.origin);
    if den != 0.0 {
      var t := DistanceToPlane(r, pl).1;
      assert t == -dist / den;
      FlagSign(dist, den, t);
    }
  }

  lemma FlagSign(dist: real, den: real, t: real)
    requires den != 0.0 && t == -dist / den
    ensures t >= 0.0 <==> dist == 0.0 || den * dist < 0.0
  {
    assert t * den == -dist;
    if den > 0.0 {
      if t >= 0.0 { MathUtil.MulNonneg(t, den); } else { MathUtil.MulPos(-t, den); }
      if dist < 0.0 { MathUtil.MulPos(den, -dist); } else { MathUtil.MulNonneg(den, dist); }
    } else {
      if t >= 0.0 { MathUtil.MulNonneg(t, -den); } else { MathUtil.MulPos(-t, -den); }
      if dist > 0.0 { MathUtil.MulPos(-den, dist); } else { MathUtil.MulNonneg(-den, -dist); }
    }
  }

  /** One coordinate of `at(t)`: `d t + o`. */
  function Along(o: real, d: real, t: real): real {
    d * t + o
  }

  /** The parameter interval in which the ray's coordinate lies between `lo` and
      `hi`, for a non-zero direction component `d`. A parameter lies in the interval
      exactly when the coordinate at it lies in `[lo, hi]`. */
  function Slab(o: real, d: real, lo: real, hi: real): (r: (real, real))
    requires d != 0.0
    ensures forall t :: r.0 <= t <= r.1 <==> lo <= Along(o, d, t) <= hi
    ensures lo <= hi ==> r.0 <= r.1
  {
    var invdir := 1.0 / d;
    InverseSign(d, invdir);
    if invdir >= 0.0 then
      var r := ((lo - o) * invdir, (hi - o) * invdir);
      SlabPositive(o, d, lo, hi, invdir, r.0, r.1);
      r
    else
      var r := ((hi - o) * invdir, (lo - o) * invdir);
      SlabNegative(o, d, lo, hi, invdir, r.0, r.1);
      r
  }

  /** `1 / d` has the sign of `d`. */
  lemma InverseSign(d: real, k: real)
    requires d != 0.0 && k == 1.0 / d
    ensures k >= 0.0 <==> d > 0.0
  {
    assert k * d == 1.0;
    if d > 0.0 && k < 0.0 { MathUtil.MulPos(-k, d); }
    if d < 0.0 && k >= 0.0 { MathUtil.MulNonneg(k, -d); }
  }

  lemma SlabPositive(o: real, d: real, lo: real, hi: real, k: real, enter: real, exit: real)
    requires d > 0.0 && k == 1.0 / d
    requires enter == (lo - o) * k && exit == (hi - o) * k
    ensures forall t :: enter <= t <= exit <==> lo <= Along(o, d, t) <= hi
    ensures lo <= hi ==> enter <= exit
  {
    forall t: real
      ensures enter <= t <= exit <==> lo <= Along(o, d, t) <= hi
    {
      DivideBound(lo - o, d, t);
      DivideBound(hi - o, d, t);
    }
    if lo <= hi {
      MathUtil.MulNonneg(hi - lo, k);
      assert (hi - o) * k - (lo - o) * k == (hi - lo) * k;
    }
  }

  lemma SlabNegative(o: real, d: real, lo: real, hi: real, k: real, enter: real, exit: real)
    requires d < 0.0 && k == 1.0 / d
    requires enter == (hi - o) * k && exit == (lo - o) * k
    ensures forall t :: enter <= t <= exit <==> lo <= Along(o, d, t) <= hi
    ensures lo <= hi ==> enter <= exit
  {
    forall t: real
      ensures enter <= t <= exit <==> lo <= Along(o, d, t) <= hi
    {
      DivideBound(lo - o, d, t);
      DivideBound(hi - o, d, t);
    }
    if lo <= hi {
      MathUtil.MulNonneg(hi - lo, -k);
      assert (lo - o) * k - (hi - o) * k == (hi - lo) * -k;
    }
  }

  /** Comparing `t` with `a / d` is comparing `d t` with `a`, reversed for negative `d`. */
  lemma DivideBound(a: real, d: real, t: real)
    requires d != 0.0
    ensures d > 0.0 ==> (a * (1.0 / d) <= t <==> a <= d * t) && (t <= a * (1.0 / d) <==> d * t <= a)
    ensures d < 0.0 ==> (a * (1.0 / d) <= t <==> d * t <= a) && (t <= a * (1.0 / d) <==> a <= d * t)
  {
    var q := a * (1.0 / d);
    assert q * d == a;
    assert (t - q) * d == d * t - a;
    assert (q - t) * d == a - d * t;
    assert (t - q) * -d == a - d * t;
    assert (q - t) * -d == d * t - a;
    if d > 0.0 {
      if q < t { MathUtil.MulPos(t - q, d); } else if q > t { MathUtil.MulPos(q - t, d); }
    } else {
      if q < t { MathUtil.MulPos(t - q, -d); } else if q > t { MathUtil.MulPos(q - t, -d); }
    }
  }

  /** The slab computation of `intersectBox` (without its NaN checks): the flag
      says whether every test passed, and the number is the parameter of the point
      `intersectBox` computes on that path. */
  function SlabParameter(r: Ray, box: Box3.Box3): (res: (bool, real))
    requires r.direction.x != 0.0 && r.direction.y != 0.0 && r.direction.z != 0.0
  {
    var o, d := r.origin, r.direction;
    var (tmin, tmax) := Slab(o.x, d.x, box.min.x, box.max.x);
    var (tymin, tymax) := Slab(o.y, d.y, box.min.y, box.max.y);
    if tmin > tymax || tymin > tmax then (false, 0.0)
    else
      var tmin1 := if tymin > tmin then tymin else tmin;
      var tmax1 := if tymax < tmax then tymax else tmax;
      var (tzmin, tzmax) := Slab(o.z, d.z, box.min.z, box.max.z);
      if tmin1 > tzmax || tzmin > tmax1 then (false, 0.0)
      else
        var tmin2 := if tzmin > tmin1 then tzmin else tmin1;
        var tmax2 := if tzmax < tmax1 then tzmax else tmax1;
        if tmax2 < 0.0 then (false, 0.0)
        else (true, if tmin2 >= 0.0 then tmin2 else tmax2)
  }

  /** When every slab test passes on a non-empty box, the computed parameter is
      non-negative and the point there lies in the box. */
  lemma {:induction false} SlabParameterSound(r: Ray, box: Box3.Box3)
    requires r.direction.x != 0.0 && r.direction.y != 0.0 && r.direction.z != 0.0
    requires !Box3.IsEmpty(box)
    requires SlabParameter(r, box).0
    ensures SlabParameter(r, box).1 >= 0.0 && Box3.ContainsPoint(box, At(r, SlabParameter(r, box).1))
  {
    var t := SlabParameter(r, box).1;
    var p := At(r, t);
    assert p.x == Along(r.origin.x, r.direction.x, t);
    assert p.y == Along(r.origin.y, r.direction.y, t);
    assert p.z == Along(r.origin.z, r.direction.z, t);
  }

  /** If the ray reaches a point of the box at some `t >= 0`, every slab test passes. */
  lemma {:induction false} SlabParameterComplete(r: Ray, box: Box3.Box3, t: real)
    requires r.direction.x != 0.0 && r.direction.y != 0.0 && r.direction.z != 0.0
    requires t >= 0.0 && Box3.ContainsPoint(box, At(r, t))
    ensures SlabParameter(r, box).0
  {
    var p := At(r, t);
    assert p.x == Along(r.origin.x, r.direction.x, t);
    assert p.y == Along(r.origin.y, r.direction.y, t);
    assert p.z == Along(r.origin.z, r.direction.z, t);
  }

  /** `intersectBox` as the source writes it: the slab tests find the entry point
      (or the exit point when the origin is inside), but every path, the hit
      included, returns the flag `false`. The direction components must be non-zero:
      the source divides by them and relies on IEEE infinities otherwise. */
  function IntersectBox(r: Ray, box: Box3.Box3): (res: (bool, Vec3.Vector3))
    requires r.direction.x != 0.0 && r.direction.y != 0.0 && r.direction.z != 0.0
    ensures !res.0
    ensures SlabParameter(r, box).0 ==> res.1 == At(r, SlabParameter(r, box).1)
    ensures !SlabParameter(r, box).0 ==> res.1 == Vec3.Zero()
  {
    var hit := SlabParameter(r, box);
    if hit.0 then (false, At(r, hit.1)) else (false, Vec3.Zero())
  }

  /** `intersectsBox` as written: the flag of `intersectBox`, which is never set. */
  function IntersectsBox(r: Ray, box: Box3.Box3): (res: bool)
    requires r.direction.x != 0.0 && r.direction.y != 0.0 && r.direction.z != 0.0
    ensures !res
  {
    IntersectBox(r, box).0 != false
  }

  /** `intersectBox` with the flag set on the hit path. */
  function IntersectBoxCorrected(r: Ray, box: Box3.Box3): (res: (bool, Vec3.Vector3))
    requires r.direction.x != 0.0 && r.direction.y != 0.0 && r.direction.z != 0.0
    ensures res.0 == SlabParameter(r, box).0
    ensures res.1 == IntersectBox(r, box).1
    ensures res.0 && !Box3.IsEmpty(box) ==> Box3.ContainsPoint(box, res.1)
  {
    var hit := SlabParameter(r, box);
    if hit.0 then
      var res := (true, At(r, hit.1));
      if Box3.IsEmpty(box) then res
      else SlabParameterSound(r, box); res
    else (false, Vec3.Zero())
  }

  /** The corrected box test holds, for a non-empty box, exactly when the ray
      reaches a point of the box at some parameter `t >= 0`. */
  lemma {:induction false} IntersectsBoxCorrectedIff(r: Ray, box: Box3.Box3)
    requires r.direction.x != 0.0 && r.direction.y != 0.0 && r.direction.z != 0.0
    requires !Box3.IsEmpty(box)
    ensures IntersectBoxCorrected(r, box).0 <==> exists t :: t >= 0.0 && Box3.ContainsPoint(box, At(r, t))
  {
    if IntersectBoxCorrected(r, box).0 {
      SlabParameterSound(r, box);
    }
    if exists t :: t >= 0.0 && Box3.ContainsPoint(box, At(r, t)) {
      var t :| t >= 0.0 && Box3.ContainsPoint(box, At(r, t));
      SlabParameterComplete(r, box, t);
    }
  }

  /** Whenever the ray reaches a point of the box at a parameter `t >= 0`,
      `intersectsBox` still answers `false`, while the corrected test answers `true`. */
  lemma {:induction false} IntersectsBoxMissesEveryHit(r: Ray, box: Box3.Box3, t: real)
    requires r.direction.x != 0.0 && r.direction.y != 0.0 && r.direction.z != 0.0
    requires t >= 0.0 && Box3.ContainsPoint(box, At(r, t))
    ensures !IntersectsBox(r, box) && IntersectBoxCorrected(r, box).0
  {
    SlabParameterComplete(r, box, t);
  }

  /** Such a ray exists: from `(-5, -5, -5)` along `(1, 1, 1)` the ray reaches the
      center of the cube `[-1, 1]^3` at `t = 5`. */
  lemma CubeRayCounterexample(r: Ray, box: Box3.Box3)
    requires r == Ray(Vec3.Vector3(-5.0, -5.0, -5.0), Vec3.Vector3(1.0, 1.0, 1.0))
    requires box == Box3.Box3(Vec3.Vector3(-1.0, -1.0, -1.0), Vec3.Vector3(1.0, 1.0, 1.0))
    ensures At(r, 5.0) == Vec3.Zero() && Box3.ContainsPoint(box, Vec3.Zero())
  {
  }

  /** `intersectTriangle`: where the ray enters the triangle `a`, `b`, `c`, found by
      Cramer's rule on `origin - a + t direction = b1 (b - a) + b2 (c - a)`, with
      every quantity multiplied by `|direction . normal|` to avoid dividing early.
      A ray parallel to the triangle's plane misses, and so does one hitting the
      front face (`direction . normal > 0`) when back faces are culled. */
  function IntersectTriangle(r: Ray, a: Vec3.Vector3, b: Vec3.Vector3, c: Vec3.Vector3, backfaceCulling: bool): (res: (bool, Vec3.Vector3))
    ensures var n := Vec3.CrossVectors(Vec3.Sub(b, a), Vec3.Sub(c, a));
      (Vec3.Dot(r.direction, n) == 0.0 ==> !res.0) &&
      (Vec3.Dot(r.direction, n) > 0.0 && backfaceCulling ==> !res.0)
    ensures !res.0 ==> res.1 == Vec3.Zero()
  {
    var edge1 := Vec3.Sub(b, a);
    var edge2 := Vec3.Sub(c, a);
    var normal := Vec3.CrossVectors(edge1, edge2);
    var ddn := Vec3.Dot(r.direction, normal);
    if ddn > 0.0 && backfaceCulling then (false, Vec3.Zero())
    else if ddn == 0.0 then (false, Vec3.Zero())
    else
      var sign := if ddn > 0.0 then 1.0 else -1.0;
      var DdN := if ddn > 0.0 then ddn else -ddn;
      var diff := Vec3.Sub(r.origin, a);
      var DdQxE2 := sign * Vec3.Dot(r.direction, Vec3.CrossVectors(diff, edge2));
      if DdQxE2 < 0.0 then (false, Vec3.Zero())
      else
        var DdE1xQ := sign * Vec3.Dot(r.direction, Vec3.Cross(edge1, diff));
        if DdE1xQ < 0.0 then (false, Vec3.Zero())
        else if DdQxE2 + DdE1xQ > DdN then (false, Vec3.Zero())
        else
          var QdN := -sign * Vec3.Dot(diff, normal);
          if QdN < 0.0 then (false, Vec3.Zero())
          else (true, At(r, QdN / DdN))
  }

  /** A hit lies on the ray at a parameter `t >= 0` and inside the triangle: its
      barycentric coordinates are all non-negative. */
  lemma {:induction false} IntersectTriangleHit(r: Ray, a: Vec3.Vector3, b: Vec3.Vector3, c: Vec3.Vector3, backfaceCulling: bool)
    requires IntersectTriangle(r, a, b, c, backfaceCulling).0
    ensures var p := IntersectTriangle(r, a, b, c, backfaceCulling).1;
      (exists t :: t >= 0.0 && p == At(r, t)) && Triangle.ContainsPoint(p, a, b, c)
  {
    var D := r.direction;
    var E1, E2 := Vec3.Sub(b, a), Vec3.Sub(c, a);
    var N := Vec3.CrossVectors(E1, E2);
    var Q := Vec3.Sub(r.origin, a);
    var ddn := Vec3.Dot(D, N);
    var sign := if ddn > 0.0 then 1.0 else -1.0;
    var DdN := if ddn > 0.0 then ddn else -ddn;
    var s1 := sign * Vec3.Dot(D, Vec3.CrossVectors(Q, E2));
    var s2 := sign * Vec3.Dot(D, Vec3.CrossVectors(E1, Q));
    var qdn := -sign * Vec3.Dot(Q, N);
    var t := qdn / DdN;
    var p := IntersectTriangle(r, a, b, c, backfaceCulling).1;
    assert p == At(r, t);
    assert DdN > 0.0 && s1 >= 0.0 && s2 >= 0.0 && s1 + s2 <= DdN && qdn >= 0.0;
    HitInside(r, a, b, c, D, Q, E1, E2, N, sign, DdN, s1, s2, qdn);
  }

  /** The hit point of `intersectTriangle` from its scaled quantities, once the
      checks have passed. */
  lemma {:induction false} HitInside(r: Ray, a: Vec3.Vector3, b: Vec3.Vector3, c: Vec3.Vector3,
                                     D: Vec3.Vector3, Q: Vec3.Vector3, E1: Vec3.Vector3, E2: Vec3.Vector3, N: Vec3.Vector3,
                                     sign: real, DdN: real, s1: real, s2: real, qdn: real)
    requires D == r.direction && Q == Vec3.Sub(r.origin, a)
    requires E1 == Vec3.Sub(b, a) && E2 == Vec3.Sub(c, a) && N == Vec3.CrossVectors(E1, E2)
    requires sign == 1.0 || sign == -1.0
    requires DdN == sign * Vec3.Dot(D, N)
    requires s1 == sign * Vec3.Dot(D, Vec3.CrossVectors(Q, E2))
    requires s2 == sign * Vec3.Dot(D, Vec3.CrossVectors(E1, Q))
    requires qdn == -sign * Vec3.Dot(Q, N)
    requires DdN > 0.0 && s1 >= 0.0 && s2 >= 0.0 && s1 + s2 <= DdN && qdn >= 0.0
    ensures qdn / DdN >= 0.0 && Triangle.ContainsPoint(At(r, qdn / DdN), a, b, c)
  {
    var b1, b2 := s1 / DdN, s2 / DdN;
    FractionBounds(s1, s2, qdn, DdN);
    HitCombination(r, a, b, c, D, Q, E1, E2, N, sign, DdN, s1, s2, qdn);
    assert Vec3.Dot(D, N) != 0.0;
    ProperTriangle(a, b, c, D);
    Triangle.ContainsCombination(a, b, c, b2, b1);
  }

  /** The scaled quantities of `intersectTriangle` solve the ray-triangle equation:
      the point at `t = QdN / DdN` is `a + b2 (c - a) + b1 (b - a)` with
      `b1 = DdQxE2 / DdN` and `b2 = DdE1xQ / DdN`. */
  lemma {:induction false} HitCombination(r: Ray, a: Vec3.Vector3, b: Vec3.Vector3, c: Vec3.Vector3,
                                          D: Vec3.Vector3, Q: Vec3.Vector3, E1: Vec3.Vector3, E2: Vec3.Vector3, N: Vec3.Vector3,
                                          sign: real, DdN: real, s1: real, s2: real, qdn: real)
    requires D == r.direction && Q == Vec3.Sub(r.origin, a)
    requires E1 == Vec3.Sub(b, a) && E2 == Vec3.Sub(c, a) && N == Vec3.CrossVectors(E1, E2)
    requires sign == 1.0 || sign == -1.0
    requires DdN == sign * Vec3.Dot(D, N) && DdN != 0.0
    requires s1 == sign * Vec3.Dot(D, Vec3.CrossVectors(Q, E2))
    requires s2 == sign * Vec3.Dot(D, Vec3.CrossVectors(E1, Q))
    requires qdn == -sign * Vec3.Dot(Q, N)
    ensures At(r, qdn / DdN) == Triangle.Combination(a, b, c, s2 / DdN, s1 / DdN)
  {
    HitX(r, a, b, c, D, Q, E1, E2, N, sign, DdN, s1, s2, qdn);
    HitY(r, a, b, c, D, Q, E1, E2, N, sign, DdN, s1, s2, qdn);
    HitZ(r, a, b, c, D, Q, E1, E2, N, sign, DdN, s1, s2, qdn);
  }

  /** The x coordinate of the hit point. */
  lemma HitX(r: Ray, a: Vec3.Vector3, b: Vec3.Vector3, c: Vec3.Vector3,
                            D: Vec3.Vector3, Q: Vec3.Vector3, E1: Vec3.Vector3, E2: Vec3.Vector3, N: Vec3.Vector3,
                            sign: real, DdN: real, s1: real, s2: real, qdn: real)
    requires D == r.direction && Q == Vec3.Sub(r.origin, a)
    requires E1 == Vec3.Sub(b, a) && E2 == Vec3.Sub(c, a) && N == Vec3.CrossVectors(E1, E2)
    requires sign == 1.0 || sign == -1.0
    requires DdN == sign * Vec3.Dot(D, N) && DdN != 0.0
    requires s1 == sign * Vec3.Dot(D, Vec3.CrossVectors(Q, E2))
    requires s2 == sign * Vec3.Dot(D, Vec3.CrossVectors(E1, Q))
    requires qdn == -sign * Vec3.Dot(Q, N)
    ensures At(r, qdn / DdN).x == Triangle.Combination(a, b, c, s2 / DdN, s1 / DdN).x
  {
    var DN, QN := Vec3.Dot(D, N), Vec3.Dot(Q, N);
    var DQE2, DE1Q := Vec3.Dot(D, Vec3.CrossVectors(Q, E2)), Vec3.Dot(D, Vec3.CrossVectors(E1, Q));
    CramerX(D, Q, E1, E2);
    HitAxis(sign, DN, QN, DQE2, DE1Q, r.origin.x, a.x, b.x, c.x, D.x, DdN, qdn, s1, s2);
  }

  /** The y coordinate of the hit point. */
  lemma HitY(r: Ray, a: Vec3.Vector3, b: Vec3.Vector3, c: Vec3.Vector3,
                            D: Vec3.Vector3, Q: Vec3.Vector3, E1: Vec3.Vector3, E2: Vec3.Vector3, N: Vec3.Vector3,
                            sign: real, DdN: real, s1: real, s2: real, qdn: real)
    requires D == r.direction && Q == Vec3.Sub(r.origin, a)
    requires E1 == Vec3.Sub(b, a) && E2 == Vec3.Sub(c, a) && N == Vec3.CrossVectors(E1, E2)
    requires sign == 1.0 || sign == -1.0
    requires DdN == sign * Vec3.Dot(D, N) && DdN != 0.0
    requires s1 == sign * Vec3.Dot(D, Vec3.CrossVectors(Q, E2))
    requires s2 == sign * Vec3.Dot(D, Vec3.CrossVectors(E1, Q))
    requires qdn == -sign * Vec3.Dot(Q, N)
    ensures At(r, qdn / DdN).y == Triangle.Combination(a, b, c, s2 / DdN, s1 / DdN).y
  {
    var DN, QN := Vec3.Dot(D, N), Vec3.Dot(Q, N);
    var DQE2, DE1Q := Vec3.Dot(D, Vec3.CrossVectors(Q, E2)), Vec3.Dot(D, Vec3.CrossVectors(E1, Q));
    CramerY(D, Q, E1, E2);
    HitAxis(sign, DN, QN, DQE2, DE1Q, r.origin.y, a.y, b.y, c.y, D.y, DdN, qdn, s1, s2);
  }

  /** The z coordinate of the hit point. */
  lemma HitZ(r: Ray, a: Vec3.Vector3, b: Vec3.Vector3, c: Vec3.Vector3,
                            D: Vec3.Vector3, Q: Vec3.Vector3, E1: Vec3.Vector3, E2: Vec3.Vector3, N: Vec3.Vector3,
                            sign: real, DdN: real, s1: real, s2: real, qdn: real)
    requires D == r.direction && Q == Vec3.Sub(r.origin, a)
    requires E1 == Vec3.Sub(b, a) && E2 == Vec3.Sub(c, a) && N == Vec3.CrossVectors(E1, E2)
    requires sign == 1.0 || sign == -1.0
    requires DdN == sign * Vec3.Dot(D, N) && DdN != 0.0
    requires s1 == sign * Vec3.Dot(D, Vec3.CrossVectors(Q, E2))
    requires s2 == sign * Vec3.Dot(D, Vec3.CrossVectors(E1, Q))
    requires qdn == -sign * Vec3.Dot(Q, N)
    ensures At(r, qdn / DdN).z == Triangle.Combination(a, b, c, s2 / DdN, s1 / DdN).z
  {
    var DN, QN := Vec3.Dot(D, N), Vec3.Dot(Q, N);
    var DQE2, DE1Q := Vec3.Dot(D, Vec3.CrossVectors(Q, E2)), Vec3.Dot(D, Vec3.CrossVectors(E1, Q));
    CramerZ(D, Q, E1, E2);
    HitAxis(sign, DN, QN, DQE2, DE1Q, r.origin.z, a.z, b.z, c.z, D.z, DdN, qdn, s1, s2);
  }

  /** Cramer's rule for `Q + t D = b1 E1 + b2 E2`, multiplied out on each axis:
      `(D . N) Q - (Q . N) D = (D . (Q x E2)) E1 + (D . (E1 x Q)) E2` with `N = E1 x E2`. */
  lemma CramerX(D: Vec3.Vector3, Q: Vec3.Vector3, E1: Vec3.Vector3, E2: Vec3.Vector3)
    ensures var N := Vec3.CrossVectors(E1, E2);
      Vec3.Dot(D, N) * Q.x - Vec3.Dot(Q, N) * D.x ==
      Vec3.Dot(D, Vec3.CrossVectors(Q, E2)) * E1.x + Vec3.Dot(D, Vec3.CrossVectors(E1, Q)) * E2.x
  {
    var N := Vec3.CrossVectors(E1, E2);
    var DN, QN := Vec3.Dot(D, N), Vec3.Dot(Q, N);
    var DQE2, DE1Q := Vec3.Dot(D, Vec3.CrossVectors(Q, E2)), Vec3.Dot(D, Vec3.CrossVectors(E1, Q));
    TripleProduct(D, E1, E2);
    TripleProduct(Q, E1, E2);
    TripleProduct(D, Q, E2);
    TripleProduct(D, E1, Q);
    CramerAxis(D.x, D.y, D.z, Q.x, Q.y, Q.z, E1.x, E1.y, E1.z, E2.x, E2.y, E2.z, DN, QN, DQE2, DE1Q);
  }

  lemma CramerY(D: Vec3.Vector3, Q: Vec3.Vector3, E1: Vec3.Vector3, E2: Vec3.Vector3)
    ensures var N := Vec3.CrossVectors(E1, E2);
      Vec3.Dot(D, N) * Q.y - Vec3.Dot(Q, N) * D.y ==
      Vec3.Dot(D, Vec3.CrossVectors(Q, E2)) * E1.y + Vec3.Dot(D, Vec3.CrossVectors(E1, Q)) * E2.y
  {
    var N := Vec3.CrossVectors(E1, E2);
    var DN, QN := Vec3.Dot(D, N), Vec3.Dot(Q, N);
    var DQE2, DE1Q := Vec3.Dot(D, Vec3.CrossVectors(Q, E2)), Vec3.Dot(D, Vec3.CrossVectors(E1, Q));
    TripleProduct(D, E1, E2);
    TripleProduct(Q, E1, E2);
    TripleProduct(D, Q, E2);
    TripleProduct(D, E1, Q);
    CramerAxis(D.y, D.z, D.x, Q.y, Q.z, Q.x, E1.y, E1.z, E1.x, E2.y, E2.z, E2.x, DN, QN, DQE2, DE1Q);
  }

  lemma CramerZ(D: Vec3.Vector3, Q: Vec3.Vector3, E1: Vec3.Vector3, E2: Vec3.Vector3)
    ensures var N := Vec3.CrossVectors(E1, E2);
      Vec3.Dot(D, N) * Q.z - Vec3.Dot(Q, N) * D.z ==
      Vec3.Dot(D, Vec3.CrossVectors(Q, E2)) * E1.z + Vec3.Dot(D, Vec3.CrossVectors(E1, Q)) * E2.z
  {
    var N := Vec3.CrossVectors(E1, E2);
    var DN, QN := Vec3.Dot(D, N), Vec3.Dot(Q, N);
    var DQE2, DE1Q := Vec3.Dot(D, Vec3.CrossVectors(Q, E2)), Vec3.Dot(D, Vec3.CrossVectors(E1, Q));
    TripleProduct(D, E1, E2);
    TripleProduct(Q, E1, E2);
    TripleProduct(D, Q, E2);
    TripleProduct(D, E1, Q);
    CramerAxis(D.z, D.x, D.y, Q.z, Q.x, Q.y, E1.z, E1.x, E1.y, E2.z, E2.x, E2.y, DN, QN, DQE2, DE1Q);
  }

  /** One axis of the hit point, with the origin and vertices as given. */
  lemma HitAxis(sign: real, DN: real, QN: real, DQE2: real, DE1Q: real,
                o: real, av: real, bv: real, cv: real, d: real,
                DdN: real, qdn: real, s1: real, s2: real)
    requires sign == 1.0 || sign == -1.0
    requires DN * (o - av) - QN * d == DQE2 * (bv - av) + DE1Q * (cv - av)
    requires DdN == sign * DN && DdN != 0.0
    requires qdn == -sign * QN && s1 == sign * DQE2 && s2 == sign * DE1Q
    ensures d * (qdn / DdN) + o == av + (cv - av) * (s2 / DdN) + (bv - av) * (s1 / DdN)
  {
    SignedAxis(sign, DN, QN, DQE2, DE1Q, o - av, d, bv - av, cv - av, DdN, qdn, s1, s2, qdn / DdN, s1 / DdN, s2 / DdN);
  }

  /** A triangle whose normal is not orthogonal to some direction is not degenerate. */
  lemma {:induction false} ProperTriangle(a: Vec3.Vector3, b: Vec3.Vector3, c: Vec3.Vector3, D: Vec3.Vector3)
    requires Vec3.Dot(D, Vec3.CrossVectors(Vec3.Sub(b, a), Vec3.Sub(c, a))) != 0.0
    ensures Triangle.Denominator(a, b, c) != 0.0
  {
    if Triangle.Denominator(a, b, c) == 0.0 {
      DegenerateNormal(a, b, c);
    }
  }

  lemma {:induction false} DegenerateNormal(a: Vec3.Vector3, b: Vec3.Vector3, c: Vec3.Vector3)
    requires Triangle.Denominator(a, b, c) == 0.0
    ensures Vec3.CrossVectors(Vec3.Sub(b, a), Vec3.Sub(c, a)) == Vec3.Zero()
  {
    Triangle.DenominatorIsNormalLengthSq(a, b, c);
    EdgeCross(a, b, c);
  }

  /** The triangle's normal direction is the cross product of the edges from `a`. */
  lemma EdgeCross(a: Vec3.Vector3, b: Vec3.Vector3, c: Vec3.Vector3)
    ensures Triangle.NormalDirection(a, b, c) == Vec3.CrossVectors(Vec3.Sub(b, a), Vec3.Sub(c, a))
  {
  }

  lemma FractionBounds(s1: real, s2: real, q: real, d: real)
    requires d > 0.0 && s1 >= 0.0 && s2 >= 0.0 && s1 + s2 <= d && q >= 0.0
    ensures s1 / d >= 0.0 && s2 / d >= 0.0 && s1 / d + s2 / d <= 1.0 && q / d >= 0.0
  {
    assert s1 / d + s2 / d == (s1 + s2) / d;
    assert d / d == 1.0;
  }

  /** The scalar triple product `v . (u x w)` written out. */
  lemma TripleProduct(v: Vec3.Vector3, u: Vec3.Vector3, w: Vec3.Vector3)
    ensures Vec3.Dot(v, Vec3.CrossVectors(u, w)) ==
      v.x * (u.y * w.z - u.z * w.y) + v.y * (u.z * w.x - u.x * w.z) + v.z * (u.x * w.y - u.y * w.x)
  {
  }

  /** Cramer's rule for `Q + t D = b1 E1 + b2 E2`, first component, multiplied out:
      `(D . N) Q - (Q . N) D = (D . (Q x E2)) E1 + (D . (E1 x Q)) E2` with `N = E1 x E2`. */
  lemma CramerAxis(dx: real, dy: real, dz: real, qx: real, qy: real, qz: real,
                   ux: real, uy: real, uz: real, wx: real, wy: real, wz: real,
                   dn: real, qn: real, dqe2: real, de1q: real)
    requires dn == dx * (uy * wz - uz * wy) + dy * (uz * wx - ux * wz) + dz * (ux * wy - uy * wx)
    requires qn == qx * (uy * wz - uz * wy) + qy * (uz * wx - ux * wz) + qz * (ux * wy - uy * wx)
    requires dqe2 == dx * (qy * wz - qz * wy) + dy * (qz * wx - qx * wz) + dz * (qx * wy - qy * wx)
    requires de1q == dx * (uy * qz - uz * qy) + dy * (uz * qx - ux * qz) + dz * (ux * qy - uy * qx)
    ensures dn * qx - qn * dx == dqe2 * ux + de1q * wx
  {
  }

  /** One component of the hit point: with the signed, scaled quantities of
      `intersectTriangle`, `q + t d == b1 e1 + b2 e2`. */
  lemma SignedAxis(sign: real, DN: real, QN: real, DQE2: real, DE1Q: real,
                   q: real, d: real, e1: real, e2: real,
                   DdN: real, qdn: real, s1: real, s2: real, t: real, b1: real, b2: real)
    requires sign == 1.0 || sign == -1.0
    requires DN * q - QN * d == DQE2 * e1 + DE1Q * e2
    requires DdN == sign * DN && DdN != 0.0
    requires qdn == -sign * QN && s1 == sign * DQE2 && s2 == sign * DE1Q
    requires t == qdn / DdN && b1 == s1 / DdN && b2 == s2 / DdN
    ensures q + d * t == e1 * b1 + e2 * b2
  {
    assert DdN * q + d * qdn == e1 * s1 + e2 * s2 by {
      if sign == 1.0 {
      } else {
        assert DdN * q + d * qdn == -(DN * q - QN * d);
      }
    }
    var k := 1.0 / DdN;
    assert DdN * k == 1.0;
    calc {
      q + d * t;
      (DdN * k) * q + d * (qdn * k);
      k * (DdN * q + d * qdn);
      k * (e1 * s1 + e2 * s2);
      e1 * (s1 * k) + e2 * (s2 * k);
      e1 * b1 + e2 * b2;
    }
  }

  /** `equals`: origins and directions agree. */
  function Equals(a: Ray, b: Ray): (res: bool)
    ensures res <==> a == b
  {
    Vec3.Equals(b.origin, a.origin) && Vec3.Equals(b.direction, a.direction)
  }
}
