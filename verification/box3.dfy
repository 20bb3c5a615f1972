/** Axis-aligned boxes in space, given by a minimum and a maximum corner. */
module Box3 {
  import MathUtil
  import Vec3
  import Mat4
  import Vec3Apply
  import Plane

  datatype Box3 = Box3(min: Vec3.Vector3, max: Vec3.Vector3)

  /** `set` / `copy`: both corners are replaced, whatever the receiver held. */
  function Set(b: Box3, min: Vec3.Vector3, max: Vec3.Vector3): (r: Box3)
    ensures Equals(r, Box3(min, max))
  {
    b.(min := min, max := max)
  }

  /** `makeEmpty`: both corners become the origin. The result is the one-point box
      at the origin, which `isEmpty` does not report as empty. */
  function MakeEmpty(b: Box3): (r: Box3)
    ensures !IsEmpty(r)
    ensures forall p: Vec3.Vector3 :: ContainsPoint(r, p) <==> p == Vec3.Zero()
  {
    Box3(Vec3.Zero(), Vec3.Zero())
  }

  /** `isEmpty`: some axis has its maximum below its minimum. */
  predicate IsEmpty(b: Box3) {
    b.max.x < b.min.x || b.max.y < b.min.y || b.max.z < b.min.z
  }

  /** A box is empty exactly when it contains no point. */
  lemma {:induction false} IsEmptyIffNoPoint(b: Box3)
    ensures IsEmpty(b) <==> forall p: Vec3.Vector3 :: !ContainsPoint(b, p)
  {
    if !IsEmpty(b) {
      assert ContainsPoint(b, b.min);
    }
  }

  /** `containsPoint`: the point lies within the bounds on every axis. */
  predicate ContainsPoint(b: Box3, p: Vec3.Vector3) {
    !(p.x < b.min.x || p.x > b.max.x ||
      p.y < b.min.y || p.y > b.max.y ||
      p.z < b.min.z || p.z > b.max.z)
  }

  /** Containment is the componentwise order between the corners. */
  lemma ContainsPointIsBetween(b: Box3, p: Vec3.Vector3)
    ensures ContainsPoint(b, p) <==> Vec3.LessEq(b.min, p) && Vec3.LessEq(p, b.max)
  {
  }

  /** `containsBox`: the other box's bounds lie within this box's bounds. */
  predicate ContainsBox(a: Box3, b: Box3) {
    a.min.x <= b.min.x && b.max.x <= a.max.x &&
    a.min.y <= b.min.y && b.max.y <= a.max.y &&
    a.min.z <= b.min.z && b.max.z <= a.max.z
  }

  /** For a non-empty box `b`, `containsBox(a, b)` holds exactly when every point
      of `b` is a point of `a`. */
  lemma {:induction false} ContainsBoxIffPoints(a: Box3, b: Box3)
    requires !IsEmpty(b)
    ensures ContainsBox(a, b) <==> forall p: Vec3.Vector3 :: ContainsPoint(b, p) ==> ContainsPoint(a, p)
  {
    if forall p: Vec3.Vector3 :: ContainsPoint(b, p) ==> ContainsPoint(a, p) {
      assert ContainsPoint(b, b.min) && ContainsPoint(b, b.max);
      assert ContainsPoint(a, b.min) && ContainsPoint(a, b.max);
    }
  }

  /** `containsBox` is reflexive, transitive and antisymmetric: a partial order. */
  lemma ContainsBoxOrder(a: Box3, b: Box3, c: Box3)
    ensures ContainsBox(a, a)
    ensures ContainsBox(a, b) && ContainsBox(b, c) ==> ContainsBox(a, c)
    ensures ContainsBox(a, b) && ContainsBox(b, a) ==> a == b
  {
  }

  /** `center`: the midpoint of the corners, which a non-empty box contains. */
  function Center(b: Box3): (r: Vec3.Vector3)
    ensures Vec3.MultiplyScalar(r, 2.0) == Vec3.Add(b.min, b.max)
    ensures !IsEmpty(b) ==> ContainsPoint(b, r)
  {
    Vec3.MultiplyScalar(Vec3.Add(b.min, b.max), 0.5)
  }

  /** `size`: the extent along each axis; it has a negative component exactly
      when the box is empty. */
  function Size(b: Box3): (r: Vec3.Vector3)
    ensures Vec3.Add(b.min, r) == b.max
    ensures IsEmpty(b) <==> !Vec3.LessEq(Vec3.Zero(), r)
  {
    Vec3.Sub(b.max, b.min)
  }

  /** `setFromCenterAndSize`: the box with the given center and size. */
  function SetFromCenterAndSize(b: Box3, center: Vec3.Vector3, size: Vec3.Vector3): (r: Box3)
    ensures Center(r) == center
    ensures Size(r) == size
  {
    var halfSize := Vec3.MultiplyScalar(size, 0.5);
    Box3(Vec3.Sub(center, halfSize), Vec3.Add(center, halfSize))
  }

  /** `expandByPoint`: the box now contains `point` and everything it held before. */
  function ExpandByPoint(b: Box3, point: Vec3.Vector3): (r: Box3)
    ensures ContainsPoint(r, point)
    ensures ContainsBox(r, b)
    ensures forall q: Vec3.Vector3 :: ContainsPoint(b, q) ==> ContainsPoint(r, q)
  {
    Box3(Vec3.Min(b.min, point), Vec3.Max(b.max, point))
  }

  /** `expandByPoint` grows the box no more than needed: every box holding the old
      box and the point holds the result. */
  lemma ExpandByPointLeast(b: Box3, point: Vec3.Vector3, c: Box3)
    requires ContainsBox(c, b) && ContainsPoint(c, point)
    ensures ContainsBox(c, ExpandByPoint(b, point))
  {
  }

  /** `expandByVector`: pushes the corners apart by `v`; the size grows by `2v`. */
  function ExpandByVector(b: Box3, v: Vec3.Vector3): (r: Box3)
    ensures Size(r) == Vec3.Add(Size(b), Vec3.MultiplyScalar(v, 2.0))
    ensures Vec3.LessEq(Vec3.Zero(), v) ==> ContainsBox(r, b)
  {
    Box3(Vec3.Sub(b.min, v), Vec3.Add(b.max, v))
  }

  /** `expandByScalar`: the same as expanding by `(s, s, s)`. */
  function ExpandByScalar(b: Box3, s: real): (r: Box3)
    ensures r == ExpandByVector(b, Vec3.Scalar(s))
    ensures s >= 0.0 ==> ContainsBox(r, b)
  {
    Box3(Vec3.AddScalar(b.min, -s), Vec3.AddScalar(b.max, s))
  }

  /** The loop of `setFromPoints`: expands by each point in turn. */
  function ExpandByPoints(b: Box3, points: seq<Vec3.Vector3>): (r: Box3)
    ensures ContainsBox(r, b)
    ensures forall i :: 0 <= i < |points| ==> ContainsPoint(r, points[i])
    decreases |points|
  {
    if |points| == 0 then b
    else
      var r := ExpandByPoints(ExpandByPoint(b, points[0]), points[1..]);
      assert forall i :: 1 <= i < |points| ==> points[i] == points[1..][i - 1];
      r
  }

  /** The expanded box is the least box that holds the start box and the points. */
  lemma {:induction false} ExpandByPointsLeast(b: Box3, points: seq<Vec3.Vector3>, c: Box3)
    requires ContainsBox(c, b)
    requires forall i :: 0 <= i < |points| ==> ContainsPoint(c, points[i])
    ensures ContainsBox(c, ExpandByPoints(b, points))
    decreases |points|
  {
    if |points| > 0 {
      ExpandByPointLeast(b, points[0], c);
      ExpandByPointsLeast(ExpandByPoint(b, points[0]), points[1..], c);
    }
  }

  /** `setFromPoints`: starts from `makeEmpty`, the zero box, and expands by each
      point. So the result always contains the origin as well as every point. */
  function SetFromPoints(b: Box3, points: seq<Vec3.Vector3>): (r: Box3)
    ensures ContainsPoint(r, Vec3.Zero())
    ensures !IsEmpty(r)
    ensures forall i :: 0 <= i < |points| ==> ContainsPoint(r, points[i])
  {
    var e := MakeEmpty(b);
    assert ContainsPoint(e, Vec3.Zero());
    ExpandByPoints(e, points)
  }

  /** The result of `setFromPoints` is the least box holding the points and the origin. */
  lemma {:induction false} SetFromPointsLeast(b: Box3, points: seq<Vec3.Vector3>, c: Box3)
    requires ContainsPoint(c, Vec3.Zero())
    requires forall i :: 0 <= i < |points| ==> ContainsPoint(c, points[i])
    ensures ContainsBox(c, SetFromPoints(b, points))
  {
    ExpandByPointsLeast(MakeEmpty(b), points, c);
  }

  /** `intersectsBox`: no axis separates the two boxes. */
  predicate IntersectsBox(a: Box3, b: Box3) {
    !(b.max.x < a.min.x || b.min.x > a.max.x ||
      b.max.y < a.min.y || b.min.y > a.max.y ||
      b.max.z < a.min.z || b.min.z > a.max.z)
  }

  /** `intersectsBox` is symmetric, and a non-empty box intersects itself. */
  lemma IntersectsBoxSymmetric(a: Box3, b: Box3)
    ensures IntersectsBox(a, b) == IntersectsBox(b, a)
    ensures !IsEmpty(a) ==> IntersectsBox(a, a)
  {
  }

  /** Between non-empty boxes, `intersectsBox` holds exactly when they share a point. */
  lemma {:induction false} IntersectsBoxIffCommonPoint(a: Box3, b: Box3)
    requires !IsEmpty(a) && !IsEmpty(b)
    ensures IntersectsBox(a, b) <==> exists p: Vec3.Vector3 :: ContainsPoint(a, p) && ContainsPoint(b, p)
  {
    if IntersectsBox(a, b) {
      var p := Intersect(a, b).min;
      assert ContainsPoint(a, p) && ContainsPoint(b, p);
    }
  }

  /** `clampPoint`: the point clamped into the box on every axis. A contained point
      is returned unchanged; for a non-empty box the result is always contained,
      so it equals the input exactly when the input is contained. */
  function ClampPoint(b: Box3, p: Vec3.Vector3): (r: Vec3.Vector3)
    ensures ContainsPoint(b, p) ==> r == p
    ensures !IsEmpty(b) ==> ContainsPoint(b, r)
    ensures !IsEmpty(b) ==> (r == p <==> ContainsPoint(b, p))
  {
    Vec3.Clamp(p, b.min, b.max)
  }

  /** The clamped point is the point of the box nearest to `p`. */
  lemma {:induction false} ClampPointIsNearest(b: Box3, p: Vec3.Vector3, q: Vec3.Vector3)
    requires ContainsPoint(b, q)
    ensures Vec3.DistanceToSquared(ClampPoint(b, p), p) <= Vec3.DistanceToSquared(q, p)
  {
    ClampPointComponents(b, p);
    NearestPoint(b, p, q, ClampPoint(b, p));
  }

  lemma {:induction false} NearestPoint(b: Box3, p: Vec3.Vector3, q: Vec3.Vector3, c: Vec3.Vector3)
    requires ContainsPoint(b, q)
    requires c.x == MathUtil.Clamp(p.x, b.min.x, b.max.x)
    requires c.y == MathUtil.Clamp(p.y, b.min.y, b.max.y)
    requires c.z == MathUtil.Clamp(p.z, b.min.z, b.max.z)
    ensures Vec3.DistanceToSquared(c, p) <= Vec3.DistanceToSquared(q, p)
  {
    NearestAxes(p.x, p.y, p.z, c.x, c.y, c.z, q.x, q.y, q.z, b.min.x, b.min.y, b.min.z, b.max.x, b.max.y, b.max.z);
  }

  lemma NearestAxes(px: real, py: real, pz: real, cx: real, cy: real, cz: real,
                    qx: real, qy: real, qz: real, lx: real, ly: real, lz: real,
                    hx: real, hy: real, hz: real)
    requires lx <= qx <= hx && ly <= qy <= hy && lz <= qz <= hz
    requires cx == MathUtil.Clamp(px, lx, hx) && cy == MathUtil.Clamp(py, ly, hy) && cz == MathUtil.Clamp(pz, lz, hz)
    ensures (cx - px) * (cx - px) + (cy - py) * (cy - py) + (cz - pz) * (cz - pz)
         <= (qx - px) * (qx - px) + (qy - py) * (qy - py) + (qz - pz) * (qz - pz)
  {
    ClampAxisNearest(px, lx, hx, qx, cx);
    ClampAxisNearest(py, ly, hy, qy, cy);
    ClampAxisNearest(pz, lz, hz, qz, cz);
    SumOfSquaresLe(cx - px, cy - py, cz - pz, qx - px, qy - py, qz - pz);
  }

  lemma SumOfSquaresLe(a1: real, a2: real, a3: real, b1: real, b2: real, b3: real)
    requires a1 * a1 <= b1 * b1 && a2 * a2 <= b2 * b2 && a3 * a3 <= b3 * b3
    ensures a1 * a1 + a2 * a2 + a3 * a3 <= b1 * b1 + b2 * b2 + b3 * b3
  {
  }

  lemma ClampPointComponents(b: Box3, p: Vec3.Vector3)
    ensures ClampPoint(b, p).x == MathUtil.Clamp(p.x, b.min.x, b.max.x)
    ensures ClampPoint(b, p).y == MathUtil.Clamp(p.y, b.min.y, b.max.y)
    ensures ClampPoint(b, p).z == MathUtil.Clamp(p.z, b.min.z, b.max.z)
  {
  }

  lemma ClampAxisNearest(p: real, lo: real, hi: real, q: real, c: real)
    requires lo <= q <= hi && c == MathUtil.Clamp(p, lo, hi)
    ensures (c - p) * (c - p) <= (q - p) * (q - p)
  {
    if p < lo {
      SquareMonotone(c - p, q - p);
    } else if p > hi {
      SquareMonotone(p - c, p - q);
      assert (c - p) * (c - p) == (p - c) * (p - c);
      assert (q - p) * (q - p) == (p - q) * (p - q);
    } else {
      MathUtil.SquareNonneg(q - p);
    }
  }

  lemma SquareMonotone(a: real, b: real)
    requires 0.0 <= a <= b
    ensures a * a <= b * b
  {
    MathUtil.MulNonneg(b - a, b + a);
    assert b * b - a * a == (b - a) * (b + a);
  }

  /** `getParameter`: where `point` sits in the box, as a fraction of the size
      along each axis. It divides by the size unchecked (a comment beside it notes
      the division by zero), so a flat axis is excluded here. Scaling the size by
      the result and adding the minimum gives back the point, and in a box of
      positive size the point is contained exactly when every fraction is in `[0, 1]`. */
  function GetParameter(b: Box3, point: Vec3.Vector3): (r: Vec3.Vector3)
    requires b.max.x != b.min.x && b.max.y != b.min.y && b.max.z != b.min.z
    ensures Vec3.Add(b.min, Vec3.Multiply(r, Size(b))) == point
    ensures b.min.x < b.max.x && b.min.y < b.max.y && b.min.z < b.max.z ==>
              (ContainsPoint(b, point) <==>
                 0.0 <= r.x <= 1.0 && 0.0 <= r.y <= 1.0 && 0.0 <= r.z <= 1.0)
  {
    MathUtil.AxisFraction(point.x, b.min.x, b.max.x);
    MathUtil.AxisFraction(point.y, b.min.y, b.max.y);
    MathUtil.AxisFraction(point.z, b.min.z, b.max.z);
    Vec3.Vector3(
      (point.x - b.min.x) / (b.max.x - b.min.x),
      (point.y - b.min.y) / (b.max.y - b.min.y),
      (point.z - b.min.z) / (b.max.z - b.min.z))
  }

  /** `intersect`: the box of the points both boxes contain. */
  function Intersect(a: Box3, b: Box3): (r: Box3)
    ensures ContainsBox(a, r) && ContainsBox(b, r)
    ensures forall p: Vec3.Vector3 :: ContainsPoint(r, p) <==> ContainsPoint(a, p) && ContainsPoint(b, p)
  {
    Box3(Vec3.Max(a.min, b.min), Vec3.Min(a.max, b.max))
  }

  /** `union_`: a box holding both boxes. */
  function Union(a: Box3, b: Box3): (r: Box3)
    ensures ContainsBox(r, a) && ContainsBox(r, b)
  {
    Box3(Vec3.Min(a.min, b.min), Vec3.Max(a.max, b.max))
  }

  /** The union is the least box that holds both boxes. */
  lemma UnionLeast(a: Box3, b: Box3, c: Box3)
    requires ContainsBox(c, a) && ContainsBox(c, b)
    ensures ContainsBox(c, Union(a, b))
  {
  }

  /** `translate`: moves both corners; the size is kept and a point moved along
      stays inside or outside as before. */
  function Translate(b: Box3, offset: Vec3.Vector3): (r: Box3)
    ensures Size(r) == Size(b)
    ensures forall p: Vec3.Vector3 :: ContainsPoint(r, Vec3.Add(p, offset)) <==> ContainsPoint(b, p)
  {
    Box3(Vec3.Add(b.min, offset), Vec3.Add(b.max, offset))
  }

  /** `equals`: both corners agree. */
  function Equals(a: Box3, b: Box3): (r: bool)
    ensures r <==> a == b
  {
    Vec3.Equals(b.min, a.min) && Vec3.Equals(b.max, a.max)
  }

  /** The eight corners in the order `applyMatrix4` lists them: bit 2 of the index
      selects the maximum `x`, bit 1 the maximum `y`, bit 0 the maximum `z`. */
  function Corners(b: Box3): (r: seq<Vec3.Vector3>)
    ensures |r| == 8
    ensures r[0] == b.min && r[7] == b.max
  {
    [ Vec3.Vector3(b.min.x, b.min.y, b.min.z), Vec3.Vector3(b.min.x, b.min.y, b.max.z),
      Vec3.Vector3(b.min.x, b.max.y, b.min.z), Vec3.Vector3(b.min.x, b.max.y, b.max.z),
      Vec3.Vector3(b.max.x, b.min.y, b.min.z), Vec3.Vector3(b.max.x, b.min.y, b.max.z),
      Vec3.Vector3(b.max.x, b.max.y, b.min.z), Vec3.Vector3(b.max.x, b.max.y, b.max.z) ]
  }

  /** The transformed corners. */
  function TransformedCorners(b: Box3, m: Mat4.Matrix4): (r: seq<Vec3.Vector3>)
    ensures |r| == 8
    ensures forall i :: 0 <= i < 8 ==> r[i] == Vec3Apply.ApplyMatrix4(Corners(b)[i], m)
  {
    var c := Corners(b);
    seq(8, i requires 0 <= i < 8 => Vec3Apply.ApplyMatrix4(c[i], m))
  }

  /** `applyMatrix4`: the box spanned by the eight transformed corners, built with
      `setFromPoints` and so always holding the origin as well. */
  function ApplyMatrix4(b: Box3, m: Mat4.Matrix4): (r: Box3)
    ensures forall i :: 0 <= i < 8 ==> ContainsPoint(r, Vec3Apply.ApplyMatrix4(Corners(b)[i], m))
    ensures ContainsPoint(r, Vec3.Zero())
  {
    SetFromPoints(MakeEmpty(b), TransformedCorners(b, m))
  }

  /** Under the identity, a non-empty box that holds the origin is unchanged. */
  lemma {:induction false} ApplyIdentity(b: Box3)
    requires !IsEmpty(b) && ContainsPoint(b, Vec3.Zero())
    ensures ApplyMatrix4(b, Mat4.Identity()) == b
  {
    var pts := TransformedCorners(b, Mat4.Identity());
    var r := ApplyMatrix4(b, Mat4.Identity());
    forall i | 0 <= i < 8
      ensures pts[i] == Corners(b)[i]
    {
      Vec3Apply.ApplyMatrix4Identity(Corners(b)[i]);
    }
    assert pts[0] == b.min && pts[7] == b.max;
    assert ContainsPoint(r, b.min) && ContainsPoint(r, b.max);
    assert ContainsBox(r, b);
    assert forall i :: 0 <= i < 8 ==> ContainsPoint(b, pts[i]);
    SetFromPointsLeast(MakeEmpty(b), pts, b);
    ContainsBoxOrder(r, b, b);
  }

  /** Under the identity, a box away from the origin is stretched to reach it. */
  lemma ApplyIdentityReachesOrigin()
    ensures ApplyMatrix4(Box3(Vec3.Vector3(1.0, 1.0, 1.0), Vec3.Vector3(2.0, 2.0, 2.0)), Mat4.Identity()).min == Vec3.Zero()
  {
    var b := Box3(Vec3.Vector3(1.0, 1.0, 1.0), Vec3.Vector3(2.0, 2.0, 2.0));
    var r := ApplyMatrix4(b, Mat4.Identity());
    var c := Box3(Vec3.Zero(), b.max);
    forall i | 0 <= i < 8
      ensures ContainsPoint(c, TransformedCorners(b, Mat4.Identity())[i])
    {
      Vec3Apply.ApplyMatrix4Identity(Corners(b)[i]);
    }
    SetFromPointsLeast(MakeEmpty(b), TransformedCorners(b, Mat4.Identity()), c);
  }

  /** The corner of the box that minimises `normal . x` (for a non-empty box):
      on each axis the minimum when the normal's component is positive, else
      the maximum. */
  function LowCorner(b: Box3, n: Vec3.Vector3): Vec3.Vector3 {
    Vec3.Vector3(if n.x > 0.0 then b.min.x else b.max.x,
                 if n.y > 0.0 then b.min.y else b.max.y,
                 if n.z > 0.0 then b.min.z else b.max.z)
  }

  /** The corner that maximises `normal . x`. */
  function HighCorner(b: Box3, n: Vec3.Vector3): Vec3.Vector3 {
    Vec3.Vector3(if n.x > 0.0 then b.max.x else b.min.x,
                 if n.y > 0.0 then b.max.y else b.min.y,
                 if n.z > 0.0 then b.max.z else b.min.z)
  }

  /** Over a non-empty box, `normal . x` ranges between its values at the low and
      the high corner, which are points of the box. */
  lemma {:induction false} CornersBoundDot(b: Box3, n: Vec3.Vector3, p: Vec3.Vector3)
    requires ContainsPoint(b, p)
    ensures ContainsPoint(b, LowCorner(b, n)) && ContainsPoint(b, HighCorner(b, n))
    ensures Vec3.Dot(n, LowCorner(b, n)) <= Vec3.Dot(n, p) <= Vec3.Dot(n, HighCorner(b, n))
  {
    CornersInBox(b, n, p);
    var lo, hi := LowCorner(b, n), HighCorner(b, n);
    AxisBound(n.x, b.min.x, b.max.x, p.x, lo.x, hi.x);
    AxisBound(n.y, b.min.y, b.max.y, p.y, lo.y, hi.y);
    AxisBound(n.z, b.min.z, b.max.z, p.z, lo.z, hi.z);
    DotLe(n, lo, p);
    DotLe(n, p, hi);
  }

  lemma CornersInBox(b: Box3, n: Vec3.Vector3, p: Vec3.Vector3)
    requires ContainsPoint(b, p)
    ensures ContainsPoint(b, LowCorner(b, n)) && ContainsPoint(b, HighCorner(b, n))
  {
  }

  lemma {:induction false} DotLe(n: Vec3.Vector3, a: Vec3.Vector3, u: Vec3.Vector3)
    requires n.x * a.x <= n.x * u.x && n.y * a.y <= n.y * u.y && n.z * a.z <= n.z * u.z
    ensures Vec3.Dot(n, a) <= Vec3.Dot(n, u)
  {
    SumOfProductsLe(n.x, n.y, n.z, a.x, a.y, a.z, u.x, u.y, u.z);
  }

  lemma SumOfProductsLe(nx: real, ny: real, nz: real, ax: real, ay: real, az: real, ux: real, uy: real, uz: real)
    requires nx * ax <= nx * ux && ny * ay <= ny * uy && nz * az <= nz * uz
    ensures nx * ax + ny * ay + nz * az <= nx * ux + ny * uy + nz * uz
  {
    SumLe(nx * ax, ny * ay, nz * az, nx * ux, ny * uy, nz * uz);
  }

  lemma SumLe(a1: real, a2: real, a3: real, b1: real, b2: real, b3: real)
    requires a1 <= b1 && a2 <= b2 && a3 <= b3
    ensures a1 + a2 + a3 <= b1 + b2 + b3
  {
  }

  lemma AxisBound(n: real, lo: real, hi: real, p: real, l: real, h: real)
    requires lo <= p <= hi
    requires l == (if n > 0.0 then lo else hi) && h == (if n > 0.0 then hi else lo)
    ensures n * l <= n * p <= n * h
  {
    if n > 0.0 {
      MathUtil.MulNonneg(n, p - lo);
      MathUtil.MulNonneg(n, hi - p);
    } else {
      MathUtil.MulNonneg(-n, hi - p);
      MathUtil.MulNonneg(-n, p - lo);
    }
  }

  /** `intersectsPlane` as the source writes it: the least and greatest values of
      `normal . x` over the box bracket `+constant`. Under the convention of
      `Plane::distanceToPoint` a point is on the plane when `normal . x` equals
      `-constant`, so this tests the mirrored plane. */
  function IntersectsPlane(b: Box3, pl: Plane.Plane): (r: bool)
    ensures r <==> Vec3.Dot(pl.normal, LowCorner(b, pl.normal)) <= pl.constant <= Vec3.Dot(pl.normal, HighCorner(b, pl.normal))
  {
    var n := pl.normal;
    var (min0, max0) := if n.x > 0.0 then (n.x * b.min.x, n.x * b.max.x) else (n.x * b.max.x, n.x * b.min.x);
    var (min1, max1) := if n.y > 0.0 then (min0 + n.y * b.min.y, max0 + n.y * b.max.y) else (min0 + n.y * b.max.y, max0 + n.y * b.min.y);
    var (min2, max2) := if n.z > 0.0 then (min1 + n.z * b.min.z, max1 + n.z * b.max.z) else (min1 + n.z * b.max.z, max1 + n.z * b.min.z);
    min2 <= pl.constant && max2 >= pl.constant
  }

  /** For a non-empty box, `intersectsPlane` holds exactly when the box has a point
      with `normal . x <= constant` and a point with `normal . x >= constant`. */
  lemma {:induction false} IntersectsPlaneIffBracketed(b: Box3, pl: Plane.Plane)
    requires !IsEmpty(b)
    ensures IntersectsPlane(b, pl) <==>
      (exists p: Vec3.Vector3 :: ContainsPoint(b, p) && Vec3.Dot(pl.normal, p) <= pl.constant) &&
      (exists q: Vec3.Vector3 :: ContainsPoint(b, q) && Vec3.Dot(pl.normal, q) >= pl.constant)
  {
    var n := pl.normal;
    CornersBoundDot(b, n, b.min);
    var lo, hi := LowCorner(b, n), HighCorner(b, n);
    if IntersectsPlane(b, pl) {
      assert ContainsPoint(b, lo) && Vec3.Dot(n, lo) <= pl.constant;
      assert ContainsPoint(b, hi) && Vec3.Dot(n, hi) >= pl.constant;
    }
    if (exists p: Vec3.Vector3 :: ContainsPoint(b, p) && Vec3.Dot(n, p) <= pl.constant) &&
       (exists q: Vec3.Vector3 :: ContainsPoint(b, q) && Vec3.Dot(n, q) >= pl.constant) {
      var p: Vec3.Vector3 :| ContainsPoint(b, p) && Vec3.Dot(n, p) <= pl.constant;
      var q: Vec3.Vector3 :| ContainsPoint(b, q) && Vec3.Dot(n, q) >= pl.constant;
      CornersBoundDot(b, n, p);
      CornersBoundDot(b, n, q);
    }
  }

  /** `intersectsPlane` with the sign the rest of the library uses: the box has
      points on both sides of (or on) the plane `normal . x + constant == 0`. */
  function IntersectsPlaneCorrected(b: Box3, pl: Plane.Plane): (r: bool)
    ensures r == IntersectsPlane(b, Plane.Plane(pl.normal, -pl.constant))
  {
    var n := pl.normal;
    Vec3.Dot(n, LowCorner(b, n)) <= -pl.constant <= Vec3.Dot(n, HighCorner(b, n))
  }

  /** For a non-empty box, the corrected test holds exactly when the box has a point
      on or behind the plane and a point on or in front of it. */
  lemma {:induction false} IntersectsPlaneCorrectedIffBothSides(b: Box3, pl: Plane.Plane)
    requires !IsEmpty(b)
    ensures IntersectsPlaneCorrected(b, pl) <==>
      (exists p: Vec3.Vector3 :: ContainsPoint(b, p) && Plane.DistanceToPoint(pl, p) <= 0.0) &&
      (exists q: Vec3.Vector3 :: ContainsPoint(b, q) && Plane.DistanceToPoint(pl, q) >= 0.0)
  {
    var m := Plane.Plane(pl.normal, -pl.constant);
    IntersectsPlaneIffBracketed(b, m);
    assert forall p: Vec3.Vector3 :: Plane.DistanceToPoint(pl, p) <= 0.0 <==> Vec3.Dot(m.normal, p) <= m.constant;
    assert forall p: Vec3.Vector3 :: Plane.DistanceToPoint(pl, p) >= 0.0 <==> Vec3.Dot(m.normal, p) >= m.constant;
  }

  /** The box around `(5, 0, 0)` with half-size 1 contains that point of the plane
      `x - 5 == 0`, yet the source's `intersectsPlane` reports no intersection;
      the corrected test reports one. */
  lemma IntersectsPlaneSignCounterexample()
    ensures var b := Box3(Vec3.Vector3(4.0, -1.0, -1.0), Vec3.Vector3(6.0, 1.0, 1.0));
            var pl := Plane.Plane(Vec3.Vector3(1.0, 0.0, 0.0), -5.0);
            ContainsPoint(b, Vec3.Vector3(5.0, 0.0, 0.0)) &&
            Plane.DistanceToPoint(pl, Vec3.Vector3(5.0, 0.0, 0.0)) == 0.0 &&
            !IntersectsPlane(b, pl) && IntersectsPlaneCorrected(b, pl)
  {
  }
}
