/** Triangles in space: barycentric coordinates, containment and the normal. */
module Triangle {
  import MathUtil
  import Vec3

  datatype Triangle = Triangle(a: Vec3.Vector3, b: Vec3.Vector3, c: Vec3.Vector3)

  /** The determinant `barycoordFromPoint` divides by: the Gram determinant of the
      edges `c - a` and `b - a`. It is zero for collinear vertices. */
  function Denominator(a: Vec3.Vector3, b: Vec3.Vector3, c: Vec3.Vector3): real {
    var v0 := Vec3.Sub(c, a);
    var v1 := Vec3.Sub(b, a);
    Vec3.Dot(v0, v0) * Vec3.Dot(v1, v1) - Vec3.Dot(v0, v1) * Vec3.Dot(v0, v1)
  }

  /** `barycoordFromPoint`: weights `(1 - u - v, v, u)` of `a`, `b` and `c` for the
      projection of `point` onto the triangle's plane, where `u` and `v` solve the
      normal equations of the edges `c - a` and `b - a`. For a degenerate triangle
      it returns the sentinel `(-2, -1, -1)`. */
  function BarycoordFromPoint(point: Vec3.Vector3, a: Vec3.Vector3, b: Vec3.Vector3, c: Vec3.Vector3): (r: Vec3.Vector3)
    ensures Denominator(a, b, c) == 0.0 ==> r == Vec3.Vector3(-2.0, -1.0, -1.0)
    ensures Denominator(a, b, c) != 0.0 ==> r.x + r.y + r.z == 1.0
  {
    var v0 := Vec3.Sub(c, a);
    var v1 := Vec3.Sub(b, a);
    var v2 := Vec3.Sub(point, a);
    var dot00 := Vec3.Dot(v0, v0);
    var dot01 := Vec3.Dot(v0, v1);
    var dot02 := Vec3.Dot(v0, v2);
    var dot11 := Vec3.Dot(v1, v1);
    var dot12 := Vec3.Dot(v1, v2);
    var denom := dot00 * dot11 - dot01 * dot01;
    if denom == 0.0 then
      Vec3.Vector3(-2.0, -1.0, -1.0)
    else
      var invDenom := 1.0 / denom;
      var u := (dot11 * dot02 - dot01 * dot12) * invDenom;
      var v := (dot00 * dot12 - dot01 * dot02) * invDenom;
      Vec3.Vector3(1.0 - u - v, v, u)
  }

  /** The point `a + s (c - a) + t (b - a)` of the triangle's plane. */
  function Combination(a: Vec3.Vector3, b: Vec3.Vector3, c: Vec3.Vector3, s: real, t: real): Vec3.Vector3 {
    Vec3.Vector3(a.x + (c.x - a.x) * s + (b.x - a.x) * t,
                 a.y + (c.y - a.y) * s + (b.y - a.y) * t,
                 a.z + (c.z - a.z) * s + (b.z - a.z) * t)
  }

  /** The coordinates recover how a point of the plane is combined from the
      vertices: `a + s (c - a) + t (b - a)` has coordinates `(1 - s - t, t, s)`. */
  lemma {:induction false} BarycoordOfCombination(a: Vec3.Vector3, b: Vec3.Vector3, c: Vec3.Vector3, s: real, t: real)
    requires Denominator(a, b, c) != 0.0
    ensures BarycoordFromPoint(Combination(a, b, c, s, t), a, b, c) == Vec3.Vector3(1.0 - s - t, t, s)
  {
    var v0, v1 := Vec3.Sub(c, a), Vec3.Sub(b, a);
    var v2 := Vec3.Sub(Combination(a, b, c, s, t), a);
    var d00, d01, d11 := Vec3.Dot(v0, v0), Vec3.Dot(v0, v1), Vec3.Dot(v1, v1);
    var d02, d12 := Vec3.Dot(v0, v2), Vec3.Dot(v1, v2);
    CombinationOffset(a, b, c, s, t);
    DotOfCombination(v0, v0, v1, s, t, v2);
    DotOfCombination(v1, v0, v1, s, t, v2);
    DotSymmetric(v1, v0);
    var k := 1.0 / (d00 * d11 - d01 * d01);
    var u, v := (d11 * d02 - d01 * d12) * k, (d00 * d12 - d01 * d02) * k;
    SolveNormalEquations(d00, d01, d11, d02, d12, s, t, u, v);
  }

  /** The combined point's offset from `a` is `s (c - a) + t (b - a)`. */
  lemma CombinationOffset(a: Vec3.Vector3, b: Vec3.Vector3, c: Vec3.Vector3, s: real, t: real)
    ensures Vec3.Sub(Combination(a, b, c, s, t), a) ==
            Vec3.Add(Vec3.MultiplyScalar(Vec3.Sub(c, a), s), Vec3.MultiplyScalar(Vec3.Sub(b, a), t))
  {
  }

  lemma DotSymmetric(u: Vec3.Vector3, v: Vec3.Vector3)
    ensures Vec3.Dot(u, v) == Vec3.Dot(v, u)
  {
  }

  /** `e . (s v0 + t v1) == s (e . v0) + t (e . v1)`. */
  lemma DotOfCombination(e: Vec3.Vector3, v0: Vec3.Vector3, v1: Vec3.Vector3, s: real, t: real, w: Vec3.Vector3)
    requires w == Vec3.Add(Vec3.MultiplyScalar(v0, s), Vec3.MultiplyScalar(v1, t))
    ensures Vec3.Dot(e, w) == s * Vec3.Dot(e, v0) + t * Vec3.Dot(e, v1)
  {
    Bilinear(e.x, e.y, e.z, v0.x, v0.y, v0.z, v1.x, v1.y, v1.z, s, t);
  }

  lemma Bilinear(ex: real, ey: real, ez: real, px: real, py: real, pz: real,
                 qx: real, qy: real, qz: real, s: real, t: real)
    ensures ex * (px * s + qx * t) + ey * (py * s + qy * t) + ez * (pz * s + qz * t)
         == s * (ex * px + ey * py + ez * pz) + t * (ex * qx + ey * qy + ez * qz)
  {
  }

  /** When the right-hand sides come from `(s, t)`, the closed-form solution of the
      normal equations returns `(s, t)`. */
  lemma SolveNormalEquations(d00: real, d01: real, d11: real, d02: real, d12: real,
                             s: real, t: real, u: real, v: real)
    requires d00 * d11 - d01 * d01 != 0.0
    requires d02 == s * d00 + t * d01
    requires d12 == s * d01 + t * d11
    requires u == (d11 * d02 - d01 * d12) * (1.0 / (d00 * d11 - d01 * d01))
    requires v == (d00 * d12 - d01 * d02) * (1.0 / (d00 * d11 - d01 * d01))
    ensures u == s && v == t
  {
    var den := d00 * d11 - d01 * d01;
    var k := 1.0 / den;
    assert d11 * d02 - d01 * d12 == s * den;
    assert d00 * d12 - d01 * d02 == t * den;
    assert den * k == 1.0;
    assert u == s * (den * k);
    assert v == t * (den * k);
  }

  /** The vertices have coordinates `(1, 0, 0)`, `(0, 1, 0)` and `(0, 0, 1)`. */
  lemma {:induction false} BarycoordOfVertices(a: Vec3.Vector3, b: Vec3.Vector3, c: Vec3.Vector3)
    requires Denominator(a, b, c) != 0.0
    ensures BarycoordFromPoint(a, a, b, c) == Vec3.Vector3(1.0, 0.0, 0.0)
    ensures BarycoordFromPoint(b, a, b, c) == Vec3.Vector3(0.0, 1.0, 0.0)
    ensures BarycoordFromPoint(c, a, b, c) == Vec3.Vector3(0.0, 0.0, 1.0)
  {
    CombinationAtVertices(a, b, c);
    BarycoordOfCombination(a, b, c, 0.0, 0.0);
    BarycoordOfCombination(a, b, c, 0.0, 1.0);
    BarycoordOfCombination(a, b, c, 1.0, 0.0);
  }

  lemma CombinationAtVertices(a: Vec3.Vector3, b: Vec3.Vector3, c: Vec3.Vector3)
    ensures Combination(a, b, c, 0.0, 0.0) == a
    ensures Combination(a, b, c, 0.0, 1.0) == b
    ensures Combination(a, b, c, 1.0, 0.0) == c
  {
  }

  /** `containsPoint`: the first two coordinates are non-negative and their sum is
      at most 1. That is: the triangle is not degenerate and all three coordinates
      are non-negative. */
  function ContainsPoint(point: Vec3.Vector3, a: Vec3.Vector3, b: Vec3.Vector3, c: Vec3.Vector3): (r: bool)
    ensures var w := BarycoordFromPoint(point, a, b, c);
      r <==> Denominator(a, b, c) != 0.0 && w.x >= 0.0 && w.y >= 0.0 && w.z >= 0.0
  {
    var result := BarycoordFromPoint(point, a, b, c);
    (result.x >= 0.0) && (result.y >= 0.0) && ((result.x + result.y) <= 1.0)
  }

  /** Conversely to `containsPoint`, every point `a + s (c - a) + t (b - a)` with
      `s, t >= 0` and `s + t <= 1` of a proper triangle is contained. */
  lemma {:induction false} ContainsCombination(a: Vec3.Vector3, b: Vec3.Vector3, c: Vec3.Vector3, s: real, t: real)
    requires Denominator(a, b, c) != 0.0
    requires s >= 0.0 && t >= 0.0 && s + t <= 1.0
    ensures ContainsPoint(Combination(a, b, c, s, t), a, b, c)
  {
    BarycoordOfCombination(a, b, c, s, t);
  }

  /** A degenerate triangle contains no point; a proper one contains its vertices. */
  lemma {:induction false} ContainsVertices(a: Vec3.Vector3, b: Vec3.Vector3, c: Vec3.Vector3, p: Vec3.Vector3)
    ensures Denominator(a, b, c) == 0.0 ==> !ContainsPoint(p, a, b, c)
    ensures Denominator(a, b, c) != 0.0 ==> ContainsPoint(a, a, b, c) && ContainsPoint(b, a, b, c) && ContainsPoint(c, a, b, c)
  {
    if Denominator(a, b, c) != 0.0 {
      BarycoordOfVertices(a, b, c);
    }
  }

  /** The unnormalised normal `(c - b) x (a - b)`. */
  function NormalDirection(a: Vec3.Vector3, b: Vec3.Vector3, c: Vec3.Vector3): (r: Vec3.Vector3)
    ensures Vec3.Dot(r, Vec3.Sub(c, b)) == 0.0 && Vec3.Dot(r, Vec3.Sub(a, b)) == 0.0
  {
    Vec3.Cross(Vec3.Sub(c, b), Vec3.Sub(a, b))
  }

  /** The barycentric denominator is the squared length of the normal direction
      (Lagrange's identity), so a triangle is degenerate for `barycoordFromPoint`
      exactly when its normal direction is the zero vector. */
  lemma {:induction false} DenominatorIsNormalLengthSq(a: Vec3.Vector3, b: Vec3.Vector3, c: Vec3.Vector3)
    ensures Denominator(a, b, c) == Vec3.LengthSq(NormalDirection(a, b, c))
    ensures Denominator(a, b, c) == 0.0 <==> NormalDirection(a, b, c) == Vec3.Zero()
  {
    var v0, v1 := Vec3.Sub(c, a), Vec3.Sub(b, a);
    var n := NormalDirection(a, b, c);
    var m := Vec3.CrossVectors(v0, v1);
    assert n == Vec3.Negate(m) by {
      ShiftedCross(a, b, c);
    }
    MathUtil.Lagrange(v0.x, v0.y, v0.z, v1.x, v1.y, v1.z);
    assert Vec3.LengthSq(n) == Vec3.LengthSq(m);
    Vec3.LengthSqZero(n);
  }

  lemma ShiftedCross(a: Vec3.Vector3, b: Vec3.Vector3, c: Vec3.Vector3)
    ensures Vec3.CrossVectors(Vec3.Sub(c, b), Vec3.Sub(a, b)) == Vec3.Negate(Vec3.CrossVectors(Vec3.Sub(c, a), Vec3.Sub(b, a)))
  {
  }

  /** `normal`: the unit normal `(c - b) x (a - b)`, or the zero vector for a
      degenerate triangle. Normalising needs the square root of the squared
      length, which is passed in as `len`. */
  function Normal(a: Vec3.Vector3, b: Vec3.Vector3, c: Vec3.Vector3, len: real): (r: Vec3.Vector3)
    requires len >= 0.0 && len * len == Vec3.LengthSq(NormalDirection(a, b, c))
    ensures NormalDirection(a, b, c) == Vec3.Zero() ==> r == Vec3.Zero()
    ensures NormalDirection(a, b, c) != Vec3.Zero() ==> Vec3.LengthSq(r) == 1.0
    ensures Vec3.Dot(r, Vec3.Sub(c, b)) == 0.0 && Vec3.Dot(r, Vec3.Sub(a, b)) == 0.0
  {
    var result := NormalDirection(a, b, c);
    var resultLengthSq := Vec3.LengthSq(result);
    Vec3.LengthSqZero(result);
    if resultLengthSq > 0.0 then
      var k := 1.0 / len;
      var r := Vec3.MultiplyScalar(result, k);
      UnitScaled(result.x, result.y, result.z, len, r.x, r.y, r.z);
      ScaledOrthogonal(result, Vec3.Sub(c, b), k);
      ScaledOrthogonal(result, Vec3.Sub(a, b), k);
      r
    else
      Vec3.Vector3(0.0, 0.0, 0.0)
  }

  lemma UnitScaled(x: real, y: real, z: real, len: real, rx: real, ry: real, rz: real)
    requires len != 0.0 && len * len == x * x + y * y + z * z
    requires rx == x * (1.0 / len) && ry == y * (1.0 / len) && rz == z * (1.0 / len)
    ensures rx * rx + ry * ry + rz * rz == 1.0
  {
    var k := 1.0 / len;
    var u := k * len;
    assert u == 1.0;
    calc {
      rx * rx + ry * ry + rz * rz;
      (k * k) * (x * x + y * y + z * z);
      (k * k) * (len * len);
      u * u;
      1.0;
    }
  }

  lemma ScaledOrthogonal(n: Vec3.Vector3, e: Vec3.Vector3, k: real)
    requires Vec3.Dot(n, e) == 0.0
    ensures Vec3.Dot(Vec3.MultiplyScalar(n, k), e) == 0.0
  {
    assert Vec3.Dot(Vec3.MultiplyScalar(n, k), e) == k * Vec3.Dot(n, e);
  }

  /** `midpoint` as the source writes it: the vertex sum times `1 / 3`, which is
      integer division and so 0. The result is the origin for every triangle. */
  function MidpointAsWritten(t: Triangle): (r: Vec3.Vector3)
    ensures r == Vec3.Zero()
  {
    var third := (1 / 3) as real;
    Vec3.MultiplyScalar(Vec3.Add(Vec3.Add(t.a, t.b), t.c), third)
  }

  /** A triangle away from the origin whose centroid is not what `midpoint` returns. */
  lemma MidpointCounterexample()
    ensures var t := Triangle(Vec3.Vector3(3.0, 0.0, 0.0), Vec3.Vector3(0.0, 3.0, 0.0), Vec3.Vector3(0.0, 0.0, 3.0));
            MidpointAsWritten(t) != Midpoint(t)
  {
    var t := Triangle(Vec3.Vector3(3.0, 0.0, 0.0), Vec3.Vector3(0.0, 3.0, 0.0), Vec3.Vector3(0.0, 0.0, 3.0));
    CentroidX(t);
    assert MidpointAsWritten(t).x == 0.0;
  }

  lemma CentroidX(t: Triangle)
    requires t.a.x + t.b.x + t.c.x == 3.0
    ensures Midpoint(t).x == 1.0
  {
    assert Midpoint(t).x == (t.a.x + t.b.x + t.c.x) * (1.0 / 3.0);
  }

  /** `midpoint` with a real `1/3`: the centroid, three times which is the vertex sum. */
  function Midpoint(t: Triangle): (r: Vec3.Vector3)
    ensures Vec3.MultiplyScalar(r, 3.0) == Vec3.Add(Vec3.Add(t.a, t.b), t.c)
  {
    Vec3.MultiplyScalar(Vec3.Add(Vec3.Add(t.a, t.b), t.c), 1.0 / 3.0)
  }

  /** The centroid of a proper triangle has coordinates `(1/3, 1/3, 1/3)`, so the
      triangle contains it. */
  lemma {:induction false} MidpointIsInside(t: Triangle)
    requires Denominator(t.a, t.b, t.c) != 0.0
    ensures BarycoordFromPoint(Midpoint(t), t.a, t.b, t.c) == Vec3.Vector3(1.0 / 3.0, 1.0 / 3.0, 1.0 / 3.0)
    ensures ContainsPoint(Midpoint(t), t.a, t.b, t.c)
  {
    var m := Midpoint(t);
    assert m == Combination(t.a, t.b, t.c, 1.0 / 3.0, 1.0 / 3.0);
    BarycoordOfCombination(t.a, t.b, t.c, 1.0 / 3.0, 1.0 / 3.0);
  }

  /** `set` / `copy`: the three vertices are replaced, whatever the receiver held. */
  function Set(t: Triangle, a: Vec3.Vector3, b: Vec3.Vector3, c: Vec3.Vector3): (r: Triangle)
    ensures Equals(r, Triangle(a, b, c))
  {
    t.(a := a, b := b, c := c)
  }

  /** `setFromPointsAndIndices`: the vertices are the indexed points, in order. */
  function SetFromPointsAndIndices(t: Triangle, points: seq<Vec3.Vector3>, i0: int, i1: int, i2: int): (r: Triangle)
    requires 0 <= i0 < |points| && 0 <= i1 < |points| && 0 <= i2 < |points|
    ensures Equals(r, Triangle(points[i0], points[i1], points[i2]))
  {
    t.(a := points[i0], b := points[i1], c := points[i2])
  }

  /** `equals`: the three vertices agree, in order. */
  function Equals(s: Triangle, t: Triangle): (r: bool)
    ensures r <==> s == t
  {
    Vec3.Equals(t.a, s.a) && Vec3.Equals(t.b, s.b) && Vec3.Equals(t.c, s.c)
  }
}
