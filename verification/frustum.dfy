/** View frustums: six planes whose non-negative sides bound the visible volume. */
module Frustum {
  import Vec3
  import Vec4
  import Mat4
  import Plane
  import Box3
  import Sphere

  /** `PlaneArray`: exactly six planes. */
  type PlaneArray = s: seq<Plane.Plane> | |s| == 6
    witness [Plane.Default(), Plane.Default(), Plane.Default(), Plane.Default(), Plane.Default(), Plane.Default()]

  datatype Frustum = Frustum(planes: PlaneArray)

  /** The default constructor: six default planes, each with every point at
      distance 0, so the frustum contains every point. */
  function Default(): (r: Frustum)
    ensures forall p: Vec3.Vector3 :: ContainsPoint(r, p)
  {
    var d := Plane.Default();
    Frustum([d, d, d, d, d, d])
  }

  /** `set`: the six planes in the given order, whatever the receiver held. */
  function Set(f: Frustum, p0: Plane.Plane, p1: Plane.Plane, p2: Plane.Plane,
               p3: Plane.Plane, p4: Plane.Plane, p5: Plane.Plane): (r: Frustum)
    ensures r.planes == [p0, p1, p2, p3, p4, p5]
  {
    var planes := f.planes[0 := p0][1 := p1][2 := p2][3 := p3][4 := p4][5 := p5];
    assert planes == [p0, p1, p2, p3, p4, p5];
    Frustum(planes)
  }

  /** The loop of `containsPoint` from plane `i` on: stops with `false` at the
      first plane the point lies behind. */
  function ContainsPointFrom(f: Frustum, p: Vec3.Vector3, i: int): (r: bool)
    requires 0 <= i <= 6
    ensures r <==> forall j :: i <= j < 6 ==> Plane.DistanceToPoint(f.planes[j], p) >= 0.0
    decreases 6 - i
  {
    if i == 6 then true
    else if Plane.DistanceToPoint(f.planes[i], p) < 0.0 then false
    else ContainsPointFrom(f, p, i + 1)
  }

  /** `containsPoint`: the point is on the non-negative side of all six planes. */
  function ContainsPoint(f: Frustum, p: Vec3.Vector3): (r: bool)
    ensures r <==> forall j :: 0 <= j < 6 ==> Plane.DistanceToPoint(f.planes[j], p) >= 0.0
  {
    ContainsPointFrom(f, p, 0)
  }

  /** The loop of `intersectsSphere` from plane `i` on: stops with `false` at the
      first plane the center lies more than the radius behind. */
  function IntersectsSphereFrom(f: Frustum, s: Sphere.Sphere, i: int): (r: bool)
    requires 0 <= i <= 6
    ensures r <==> forall j :: i <= j < 6 ==> Plane.DistanceToPoint(f.planes[j], s.center) >= -s.radius
    decreases 6 - i
  {
    var negRadius := -s.radius;
    if i == 6 then true
    else if Plane.DistanceToPoint(f.planes[i], s.center) < negRadius then false
    else IntersectsSphereFrom(f, s, i + 1)
  }

  /** `intersectsSphere`: no plane has the center more than the radius behind it. */
  function IntersectsSphere(f: Frustum, s: Sphere.Sphere): (r: bool)
    ensures r <==> forall j :: 0 <= j < 6 ==> Plane.DistanceToPoint(f.planes[j], s.center) >= -s.radius
  {
    IntersectsSphereFrom(f, s, 0)
  }

  /** A sphere of non-negative radius whose center the frustum contains intersects it. */
  lemma ContainedCenterIntersects(f: Frustum, s: Sphere.Sphere)
    requires s.radius >= 0.0
    requires ContainsPoint(f, s.center)
    ensures IntersectsSphere(f, s)
  {
  }

  /** With unit normals the sphere test never misses: a sphere of non-negative radius
      that shares a point with the frustum intersects it. */
  lemma {:induction false} IntersectsSphereSound(f: Frustum, s: Sphere.Sphere, q: Vec3.Vector3)
    requires forall j :: 0 <= j < 6 ==> Vec3.LengthSq(f.planes[j].normal) == 1.0
    requires s.radius >= 0.0
    requires Sphere.ContainsPoint(s, q) && ContainsPoint(f, q)
    ensures IntersectsSphere(f, s)
  {
    forall j | 0 <= j < 6
      ensures Plane.DistanceToPoint(f.planes[j], s.center) >= -s.radius
    {
      CenterWithinRadius(f.planes[j], s, q);
    }
  }

  /** The center is at most the radius behind a unit-normal plane that has a point
      of the sphere on its non-negative side. */
  lemma CenterWithinRadius(pl: Plane.Plane, s: Sphere.Sphere, q: Vec3.Vector3)
    requires Vec3.LengthSq(pl.normal) == 1.0
    requires s.radius >= 0.0
    requires Sphere.ContainsPoint(s, q)
    requires Plane.DistanceToPoint(pl, q) >= 0.0
    ensures Plane.DistanceToPoint(pl, s.center) >= -s.radius
  {
    var n, c := pl.normal, s.center;
    var d := Vec3.Sub(q, c);
    var nd := Vec3.Dot(n, d);
    DistanceShift(pl, q, c);
    SquaredOffset(q, c);
    UnitCauchySchwarz(n, d);
    RadiusBound(Plane.DistanceToPoint(pl, q), Plane.DistanceToPoint(pl, c), nd, Vec3.LengthSq(d), s.radius);
  }

  lemma DistanceShift(pl: Plane.Plane, q: Vec3.Vector3, c: Vec3.Vector3)
    ensures Plane.DistanceToPoint(pl, q) == Plane.DistanceToPoint(pl, c) + Vec3.Dot(pl.normal, Vec3.Sub(q, c))
  {
  }

  lemma SquaredOffset(q: Vec3.Vector3, c: Vec3.Vector3)
    ensures Vec3.LengthSq(Vec3.Sub(q, c)) == Vec3.DistanceToSquared(q, c)
  {
  }

  lemma UnitCauchySchwarz(n: Vec3.Vector3, d: Vec3.Vector3)
    requires Vec3.LengthSq(n) == 1.0
    ensures Vec3.Dot(n, d) * Vec3.Dot(n, d) <= Vec3.LengthSq(d)
  {
    Sphere.MathUtil.CauchySchwarz(n.x, n.y, n.z, d.x, d.y, d.z);
  }

  lemma RadiusBound(dq: real, dc: real, nd: real, l: real, r: real)
    requires dq == dc + nd && nd * nd <= l && l <= r * r && r >= 0.0 && dq >= 0.0
    ensures dc >= -r
  {
    if nd > r {
      Sphere.StrictSquare(r, nd);
    }
  }

  /** Plane `pl` has the whole box behind it, judged by the box's two corners
      extreme along the normal, as `intersectsBox` picks them. */
  predicate Separates(pl: Plane.Plane, b: Box3.Box3) {
    var p1 := Box3.LowCorner(b, pl.normal);
    var p2 := Box3.HighCorner(b, pl.normal);
    var d1 := Plane.DistanceToPoint(pl, p1);
    var d2 := Plane.DistanceToPoint(pl, p2);
    d1 < 0.0 && d2 < 0.0
  }

  /** Every point of the box lies strictly behind the plane. */
  ghost predicate BoxBehind(pl: Plane.Plane, b: Box3.Box3) {
    forall q: Vec3.Vector3 :: Box3.ContainsPoint(b, q) ==> Plane.DistanceToPoint(pl, q) < 0.0
  }

  /** For a non-empty box, the corner test is exact: the plane separates the box
      exactly when every point of the box lies behind it. */
  lemma {:induction false} SeparatesIffBoxBehind(pl: Plane.Plane, b: Box3.Box3)
    requires !Box3.IsEmpty(b)
    ensures Separates(pl, b) <==> BoxBehind(pl, b)
  {
    var n := pl.normal;
    Box3.CornersBoundDot(b, n, b.min);
    if Separates(pl, b) {
      forall q: Vec3.Vector3 | Box3.ContainsPoint(b, q)
        ensures Plane.DistanceToPoint(pl, q) < 0.0
      {
        Box3.CornersBoundDot(b, n, q);
      }
    }
  }

  /** The loop of `intersectsBox` from plane `i` on. */
  function IntersectsBoxFrom(f: Frustum, b: Box3.Box3, i: int): (r: bool)
    requires 0 <= i <= 6
    ensures r <==> forall j :: i <= j < 6 ==> !Separates(f.planes[j], b)
    decreases 6 - i
  {
    if i == 6 then true
    else
      var plane := f.planes[i];
      var n := plane.normal;
      var p1 := Vec3.Vector3(if n.x > 0.0 then b.min.x else b.max.x,
                             if n.y > 0.0 then b.min.y else b.max.y,
                             if n.z > 0.0 then b.min.z else b.max.z);
      var p2 := Vec3.Vector3(if n.x > 0.0 then b.max.x else b.min.x,
                             if n.y > 0.0 then b.max.y else b.min.y,
                             if n.z > 0.0 then b.max.z else b.min.z);
      var d1 := Plane.DistanceToPoint(plane, p1);
      var d2 := Plane.DistanceToPoint(plane, p2);
      if d1 < 0.0 && d2 < 0.0 then false
      else IntersectsBoxFrom(f, b, i + 1)
  }

  /** `intersectsBox`: no plane has both extreme corners of the box behind it. */
  function IntersectsBox(f: Frustum, b: Box3.Box3): (r: bool)
    ensures r <==> forall j :: 0 <= j < 6 ==> !Separates(f.planes[j], b)
  {
    IntersectsBoxFrom(f, b, 0)
  }

  /** For a non-empty box, `intersectsBox` fails exactly when one of the six planes
      has the whole box behind it. */
  lemma {:induction false} IntersectsBoxIffNoPlaneSeparates(f: Frustum, b: Box3.Box3)
    requires !Box3.IsEmpty(b)
    ensures !IntersectsBox(f, b) <==>
      exists j :: 0 <= j < 6 && BoxBehind(f.planes[j], b)
  {
    forall j | 0 <= j < 6 {
      SeparatesIffBoxBehind(f.planes[j], b);
    }
  }

  /** The box test never misses: a box sharing a point with the frustum intersects it. */
  lemma {:induction false} IntersectsBoxSound(f: Frustum, b: Box3.Box3, q: Vec3.Vector3)
    requires Box3.ContainsPoint(b, q) && ContainsPoint(f, q)
    ensures IntersectsBox(f, b)
  {
    forall j | 0 <= j < 6
      ensures !Separates(f.planes[j], b)
    {
      Box3.CornersBoundDot(b, f.planes[j].normal, q);
    }
  }

  /** The six planes `setFromMatrix` reads off the matrix, before normalising:
      the last row plus or minus each of the first three rows. */
  function RawPlanes(m: Mat4.Matrix4): PlaneArray {
    var me := m;
    var d := Plane.Default();
    [Plane.SetComponents(d, me.e3 - me.e0, me.e7 - me.e4, me.e11 - me.e8, me.e15 - me.e12),
     Plane.SetComponents(d, me.e3 + me.e0, me.e7 + me.e4, me.e11 + me.e8, me.e15 + me.e12),
     Plane.SetComponents(d, me.e3 + me.e1, me.e7 + me.e5, me.e11 + me.e9, me.e15 + me.e13),
     Plane.SetComponents(d, me.e3 - me.e1, me.e7 - me.e5, me.e11 - me.e9, me.e15 - me.e13),
     Plane.SetComponents(d, me.e3 - me.e2, me.e7 - me.e6, me.e11 - me.e10, me.e15 - me.e14),
     Plane.SetComponents(d, me.e3 + me.e2, me.e7 + me.e6, me.e11 + me.e10, me.e15 + me.e14)]
  }

  /** Homogeneous clip coordinates of `p`: the matrix applied to `(p, 1)`. */
  function ClipCoordinates(m: Mat4.Matrix4, p: Vec3.Vector3): Vec4.Vector4 {
    Vec4.ApplyMatrix4(Vec4.Vector4(p.x, p.y, p.z, 1.0), m)
  }

  /** The clip volume: `-w <= x, y, z <= w`. */
  predicate InClipVolume(c: Vec4.Vector4) {
    -c.w <= c.x <= c.w && -c.w <= c.y <= c.w && -c.w <= c.z <= c.w
  }

  /** The raw planes measure `w - x`, `w + x`, `w + y`, `w - y`, `w - z` and `w + z`
      of the clip coordinates. */
  lemma RawPlaneDistances(m: Mat4.Matrix4, p: Vec3.Vector3)
    ensures var c := ClipCoordinates(m, p);
            var raw := RawPlanes(m);
            Plane.DistanceToPoint(raw[0], p) == c.w - c.x &&
            Plane.DistanceToPoint(raw[1], p) == c.w + c.x &&
            Plane.DistanceToPoint(raw[2], p) == c.w + c.y &&
            Plane.DistanceToPoint(raw[3], p) == c.w - c.y &&
            Plane.DistanceToPoint(raw[4], p) == c.w - c.z &&
            Plane.DistanceToPoint(raw[5], p) == c.w + c.z
  {
    RawPlaneDistance(m, p, 0);
    RawPlaneDistance(m, p, 1);
    RawPlaneDistance(m, p, 2);
    RawPlaneDistance(m, p, 3);
    RawPlaneDistance(m, p, 4);
    RawPlaneDistance(m, p, 5);
  }

  /** The signed clip-volume bound plane `i` measures. */
  function ClipSide(c: Vec4.Vector4, i: int): real
    requires 0 <= i < 6
  {
    match i
    case 0 => c.w - c.x
    case 1 => c.w + c.x
    case 2 => c.w + c.y
    case 3 => c.w - c.y
    case 4 => c.w - c.z
    case 5 => c.w + c.z
  }

  lemma RawPlaneDistance(m: Mat4.Matrix4, p: Vec3.Vector3, i: int)
    requires 0 <= i < 6
    ensures Plane.DistanceToPoint(RawPlanes(m)[i], p) == ClipSide(ClipCoordinates(m, p), i)
  {
    match i
    case 0 => RightPlaneDistance(m, p);
    case 1 => LeftPlaneDistance(m, p);
    case 2 => BottomPlaneDistance(m, p);
    case 3 => TopPlaneDistance(m, p);
    case 4 => FarPlaneDistance(m, p);
    case 5 => NearPlaneDistance(m, p);
  }

  lemma RightPlaneDistance(m: Mat4.Matrix4, p: Vec3.Vector3)
    ensures Plane.DistanceToPoint(RawPlanes(m)[0], p) == ClipCoordinates(m, p).w - ClipCoordinates(m, p).x
  {
    var e := m;
    var c := ClipCoordinates(m, p);
    DifferenceSide(RawPlanes(m)[0], e.e3, e.e7, e.e11, e.e15, e.e0, e.e4, e.e8, e.e12, p, c.w, c.x);
  }

  lemma LeftPlaneDistance(m: Mat4.Matrix4, p: Vec3.Vector3)
    ensures Plane.DistanceToPoint(RawPlanes(m)[1], p) == ClipCoordinates(m, p).w + ClipCoordinates(m, p).x
  {
    var e := m;
    var c := ClipCoordinates(m, p);
    SumSide(RawPlanes(m)[1], e.e3, e.e7, e.e11, e.e15, e.e0, e.e4, e.e8, e.e12, p, c.w, c.x);
  }

  lemma BottomPlaneDistance(m: Mat4.Matrix4, p: Vec3.Vector3)
    ensures Plane.DistanceToPoint(RawPlanes(m)[2], p) == ClipCoordinates(m, p).w + ClipCoordinates(m, p).y
  {
    var e := m;
    var c := ClipCoordinates(m, p);
    SumSide(RawPlanes(m)[2], e.e3, e.e7, e.e11, e.e15, e.e1, e.e5, e.e9, e.e13, p, c.w, c.y);
  }

  lemma TopPlaneDistance(m: Mat4.Matrix4, p: Vec3.Vector3)
    ensures Plane.DistanceToPoint(RawPlanes(m)[3], p) == ClipCoordinates(m, p).w - ClipCoordinates(m, p).y
  {
    var e := m;
    var c := ClipCoordinates(m, p);
    DifferenceSide(RawPlanes(m)[3], e.e3, e.e7, e.e11, e.e15, e.e1, e.e5, e.e9, e.e13, p, c.w, c.y);
  }

  lemma FarPlaneDistance(m: Mat4.Matrix4, p: Vec3.Vector3)
    ensures Plane.DistanceToPoint(RawPlanes(m)[4], p) == ClipCoordinates(m, p).w - ClipCoordinates(m, p).z
  {
    var e := m;
    var c := ClipCoordinates(m, p);
    DifferenceSide(RawPlanes(m)[4], e.e3, e.e7, e.e11, e.e15, e.e2, e.e6, e.e10, e.e14, p, c.w, c.z);
  }

  lemma NearPlaneDistance(m: Mat4.Matrix4, p: Vec3.Vector3)
    ensures Plane.DistanceToPoint(RawPlanes(m)[5], p) == ClipCoordinates(m, p).w + ClipCoordinates(m, p).z
  {
    var e := m;
    var c := ClipCoordinates(m, p);
    SumSide(RawPlanes(m)[5], e.e3, e.e7, e.e11, e.e15, e.e2, e.e6, e.e10, e.e14, p, c.w, c.z);
  }

  /** A plane whose components are row `w` minus row `a` measures `cw - ca`,
      where `cw` and `ca` are those rows applied to `(p, 1)`. */
  lemma DifferenceSide(pl: Plane.Plane, w0: real, w1: real, w2: real, w3: real,
                       a0: real, a1: real, a2: real, a3: real, p: Vec3.Vector3, cw: real, ca: real)
    requires pl == Plane.SetComponents(Plane.Default(), w0 - a0, w1 - a1, w2 - a2, w3 - a3)
    requires cw == w0 * p.x + w1 * p.y + w2 * p.z + w3 * 1.0
    requires ca == a0 * p.x + a1 * p.y + a2 * p.z + a3 * 1.0
    ensures Plane.DistanceToPoint(pl, p) == cw - ca
  {
    ComponentDistance(w0 - a0, w1 - a1, w2 - a2, w3 - a3, p);
    RowDifference(w0, w1, w2, w3, a0, a1, a2, a3, p.x, p.y, p.z);
  }

  /** The same for row `w` plus row `a`. */
  lemma SumSide(pl: Plane.Plane, w0: real, w1: real, w2: real, w3: real,
                a0: real, a1: real, a2: real, a3: real, p: Vec3.Vector3, cw: real, ca: real)
    requires pl == Plane.SetComponents(Plane.Default(), w0 + a0, w1 + a1, w2 + a2, w3 + a3)
    requires cw == w0 * p.x + w1 * p.y + w2 * p.z + w3 * 1.0
    requires ca == a0 * p.x + a1 * p.y + a2 * p.z + a3 * 1.0
    ensures Plane.DistanceToPoint(pl, p) == cw + ca
  {
    ComponentDistance(w0 + a0, w1 + a1, w2 + a2, w3 + a3, p);
    RowSum(w0, w1, w2, w3, a0, a1, a2, a3, p.x, p.y, p.z);
  }

  lemma ComponentDistance(x: real, y: real, z: real, w: real, p: Vec3.Vector3)
    ensures Plane.DistanceToPoint(Plane.SetComponents(Plane.Default(), x, y, z, w), p) == x * p.x + y * p.y + z * p.z + w
  {
  }

  lemma RowDifference(w0: real, w1: real, w2: real, w3: real, a0: real, a1: real, a2: real, a3: real, x: real, y: real, z: real)
    ensures (w0 - a0) * x + (w1 - a1) * y + (w2 - a2) * z + (w3 - a3)
         == (w0 * x + w1 * y + w2 * z + w3 * 1.0) - (a0 * x + a1 * y + a2 * z + a3 * 1.0)
  {
  }

  lemma RowSum(w0: real, w1: real, w2: real, w3: real, a0: real, a1: real, a2: real, a3: real, x: real, y: real, z: real)
    ensures (w0 + a0) * x + (w1 + a1) * y + (w2 + a2) * z + (w3 + a3)
         == (w0 * x + w1 * y + w2 * z + w3 * 1.0) + (a0 * x + a1 * y + a2 * z + a3 * 1.0)
  {
  }

  /** `setFromMatrix`: the raw planes, each normalised. Normalising needs the length
      of each raw normal, passed in as `lens`. A point is inside the result exactly
      when its clip coordinates lie in the clip volume, and all six normals are unit
      vectors. */
  function SetFromMatrix(f: Frustum, m: Mat4.Matrix4, lens: seq<real>): (r: Frustum)
    requires |lens| == 6
    requires forall i :: 0 <= i < 6 ==> lens[i] > 0.0 && lens[i] * lens[i] == Vec3.LengthSq(RawPlanes(m)[i].normal)
    ensures forall j :: 0 <= j < 6 ==> Vec3.LengthSq(r.planes[j].normal) == 1.0
    ensures forall p: Vec3.Vector3 :: ContainsPoint(r, p) <==> InClipVolume(ClipCoordinates(m, p))
  {
    var r := Frustum(NormalizeAll(RawPlanes(m), lens));
    SetFromMatrixSides(m, lens, r);
    r
  }

  /** Each of the six planes normalised with its normal's length. */
  function NormalizeAll(raw: PlaneArray, lens: seq<real>): (r: PlaneArray)
    requires |lens| == 6
    requires forall i :: 0 <= i < 6 ==> lens[i] > 0.0 && lens[i] * lens[i] == Vec3.LengthSq(raw[i].normal)
    ensures forall i :: 0 <= i < 6 ==> r[i] == Plane.Normalize(raw[i], lens[i])
    ensures forall j :: 0 <= j < 6 ==> Vec3.LengthSq(r[j].normal) == 1.0
  {
    seq(6, i requires 0 <= i < 6 => Plane.Normalize(raw[i], lens[i]))
  }

  lemma {:induction false} SetFromMatrixSides(m: Mat4.Matrix4, lens: seq<real>, r: Frustum)
    requires |lens| == 6
    requires forall i :: 0 <= i < 6 ==> lens[i] > 0.0 && lens[i] * lens[i] == Vec3.LengthSq(RawPlanes(m)[i].normal)
    requires forall i :: 0 <= i < 6 ==> r.planes[i] == Plane.Normalize(RawPlanes(m)[i], lens[i])
    ensures forall p: Vec3.Vector3 :: ContainsPoint(r, p) <==> InClipVolume(ClipCoordinates(m, p))
  {
    forall p: Vec3.Vector3
      ensures ContainsPoint(r, p) <==> InClipVolume(ClipCoordinates(m, p))
    {
      SetFromMatrixPoint(m, lens, r, p);
    }
  }

  lemma {:induction false} SetFromMatrixPoint(m: Mat4.Matrix4, lens: seq<real>, r: Frustum, p: Vec3.Vector3)
    requires |lens| == 6
    requires forall i :: 0 <= i < 6 ==> lens[i] > 0.0 && lens[i] * lens[i] == Vec3.LengthSq(RawPlanes(m)[i].normal)
    requires forall i :: 0 <= i < 6 ==> r.planes[i] == Plane.Normalize(RawPlanes(m)[i], lens[i])
    ensures ContainsPoint(r, p) <==> InClipVolume(ClipCoordinates(m, p))
  {
    NormalizedSides(RawPlanes(m), lens, r, p);
    RawContainsPoint(m, p);
  }

  /** Normalising every plane keeps the set of contained points. */
  lemma {:induction false} NormalizedSides(raw: PlaneArray, lens: seq<real>, r: Frustum, p: Vec3.Vector3)
    requires |lens| == 6
    requires forall i :: 0 <= i < 6 ==> lens[i] > 0.0 && lens[i] * lens[i] == Vec3.LengthSq(raw[i].normal)
    requires forall i :: 0 <= i < 6 ==> r.planes[i] == Plane.Normalize(raw[i], lens[i])
    ensures ContainsPoint(r, p) <==> ContainsPoint(Frustum(raw), p)
  {
    forall i | 0 <= i < 6
      ensures (Plane.DistanceToPoint(r.planes[i], p) >= 0.0) == (Plane.DistanceToPoint(raw[i], p) >= 0.0)
    {
      NormalizedSide(raw[i], lens[i], r.planes[i], p);
    }
    SameSides(r.planes, raw, p);
  }

  /** Frustums whose planes agree, plane by plane, on which side `p` lies agree on
      containing `p`. */
  lemma SameSides(a: PlaneArray, b: PlaneArray, p: Vec3.Vector3)
    requires forall i :: 0 <= i < 6 ==> (Plane.DistanceToPoint(a[i], p) >= 0.0) == (Plane.DistanceToPoint(b[i], p) >= 0.0)
    ensures ContainsPoint(Frustum(a), p) <==> ContainsPoint(Frustum(b), p)
  {
  }

  lemma NormalizedSide(pl: Plane.Plane, len: real, n: Plane.Plane, p: Vec3.Vector3)
    requires len > 0.0 && len * len == Vec3.LengthSq(pl.normal)
    requires n == Plane.Normalize(pl, len)
    ensures (Plane.DistanceToPoint(n, p) >= 0.0) == (Plane.DistanceToPoint(pl, p) >= 0.0)
  {
    Plane.NormalizeKeepsSides(pl, len, p);
  }

  /** The raw planes hold a point on their non-negative sides exactly when its clip
      coordinates lie in the clip volume. */
  lemma {:induction false} RawContainsPoint(m: Mat4.Matrix4, p: Vec3.Vector3)
    ensures ContainsPoint(Frustum(RawPlanes(m)), p) <==> InClipVolume(ClipCoordinates(m, p))
  {
    RawPlaneDistances(m, p);
  }
}
