/** Four-component vectors (homogeneous coordinates). */
module Vec4 {
  import MathUtil
  import Mat4
  import Vec3
  import Vec3Apply

  datatype Vector4 = Vector4(x: real, y: real, z: real, w: real)

  /** Component index accepted by `setComponent` / `getComponent`. */
  type Axis = i: int | 0 <= i < 4

  /** The default constructor: the homogeneous origin `(0, 0, 0, 1)`. */
  function Default(): (r: Vector4)
    ensures r.w == 1.0 && Vec3.Vector3(r.x, r.y, r.z) == Vec3.Zero()
  {
    Vector4(0.0, 0.0, 0.0, 1.0)
  }

  /** `setScalar`: the same value in all four components. */
  function Scalar(s: real): Vector4 {
    Vector4(s, s, s, s)
  }

  function GetComponent(v: Vector4, i: Axis): real {
    match i
    case 0 => v.x
    case 1 => v.y
    case 2 => v.z
    case 3 => v.w
  }

  /** Writes one component; the index is asserted to be in 0..3. Reading it
      back gives the value written and the other components are unchanged. */
  function SetComponent(v: Vector4, i: Axis, value: real): (r: Vector4)
    ensures GetComponent(r, i) == value
    ensures forall j: Axis :: j != i ==> GetComponent(r, j) == GetComponent(v, j)
  {
    match i
    case 0 => v.(x := value)
    case 1 => v.(y := value)
    case 2 => v.(z := value)
    case 3 => v.(w := value)
  }

  /** Writing back a component just read changes nothing. */
  lemma SetComponentOwnValue(v: Vector4, i: Axis)
    ensures SetComponent(v, i, GetComponent(v, i)) == v
  {
  }

  /** Componentwise order. */
  predicate LessEq(a: Vector4, b: Vector4) {
    a.x <= b.x && a.y <= b.y && a.z <= b.z && a.w <= b.w
  }

  /** `add` / `addVectors`; subtracting the same vector undoes it. */
  function Add(v: Vector4, u: Vector4): (r: Vector4)
    ensures Sub(r, u) == v
  {
    Vector4(v.x + u.x, v.y + u.y, v.z + u.z, v.w + u.w)
  }

  /** `sub` / `subVectors`. */
  function Sub(v: Vector4, u: Vector4): Vector4 {
    Vector4(v.x - u.x, v.y - u.y, v.z - u.z, v.w - u.w)
  }

  /** `addScalar`; `subScalar` undoes it. */
  function AddScalar(v: Vector4, s: real): (r: Vector4)
    ensures SubScalar(r, s) == v
    ensures r == Add(v, Scalar(s))
  {
    Vector4(v.x + s, v.y + s, v.z + s, v.w + s)
  }

  function SubScalar(v: Vector4, s: real): Vector4 {
    Vector4(v.x - s, v.y - s, v.z - s, v.w - s)
  }

  /** `addScaledVector`: adds `u` scaled by `s`. */
  function AddScaledVector(v: Vector4, u: Vector4, s: real): (r: Vector4)
    ensures r == Add(v, MultiplyScalar(u, s))
    ensures s == 0.0 ==> r == v
  {
    Vector4(v.x + u.x * s, v.y + u.y * s, v.z + u.z * s, v.w + u.w * s)
  }

  function MultiplyScalar(v: Vector4, s: real): Vector4 {
    Vector4(v.x * s, v.y * s, v.z * s, v.w * s)
  }

  /** `divideScalar`: asserts a non-zero scalar and scales by its reciprocal;
      scaling back by the scalar restores the vector. */
  function DivideScalar(v: Vector4, s: real): (r: Vector4)
    requires s != 0.0
    ensures MultiplyScalar(r, s) == v
  {
    var inv := 1.0 / s;
    MulInverse(v.x, s, inv);
    MulInverse(v.y, s, inv);
    MulInverse(v.z, s, inv);
    MulInverse(v.w, s, inv);
    MultiplyScalar(v, inv)
  }

  lemma MulInverse(a: real, s: real, inv: real)
    requires s != 0.0 && inv == 1.0 / s
    ensures (a * inv) * s == a
  {
    assert inv * s == 1.0;
    assert (a * inv) * s == a * (inv * s);
  }

  /** `applyMatrix4(m)`: the full matrix-vector product, reading all four inputs
      and all sixteen elements. */
  function ApplyMatrix4(v: Vector4, m: Mat4.Matrix4): Vector4 {
    var e := m;
    Vector4(
      e.e0 * v.x + e.e4 * v.y + e.e8 * v.z + e.e12 * v.w,
      e.e1 * v.x + e.e5 * v.y + e.e9 * v.z + e.e13 * v.w,
      e.e2 * v.x + e.e6 * v.y + e.e10 * v.z + e.e14 * v.w,
      e.e3 * v.x + e.e7 * v.y + e.e11 * v.z + e.e15 * v.w)
  }

  /** Row `i` of `m` against `v`: the textbook matrix-vector product. */
  function RowTimesVector(m: Mat4.Matrix4, i: Mat4.Dim, v: Vector4): real {
    Mat4.Entry(m, i, 0) * v.x + Mat4.Entry(m, i, 1) * v.y + Mat4.Entry(m, i, 2) * v.z + Mat4.Entry(m, i, 3) * v.w
  }

  /** Each output component is the corresponding row of the matrix against the whole input. */
  lemma ApplyMatrix4IsProduct(v: Vector4, m: Mat4.Matrix4, i: Axis)
    ensures GetComponent(ApplyMatrix4(v, m), i) == RowTimesVector(m, i, v)
  {
    match i {
      case 0 => case 1 => case 2 => case 3 =>
    }
  }

  /** The identity leaves a vector unchanged. */
  lemma ApplyMatrix4Identity(v: Vector4)
    ensures ApplyMatrix4(v, Mat4.Identity()) == v
  {
  }

  /** For `w = 1` the first three components are what `Vector3::applyMatrix4` gives. */
  lemma ApplyMatrix4AgreesWithVector3(p: Vec3.Vector3, m: Mat4.Matrix4)
    ensures var r := ApplyMatrix4(Vector4(p.x, p.y, p.z, 1.0), m);
      Vec3.Vector3(r.x, r.y, r.z) == Vec3Apply.ApplyMatrix4(p, m)
  {
    Vec3Apply.ApplyMatrix4Components(p, m);
    Components(Vector4(p.x, p.y, p.z, 1.0), m);
  }

  /** Applying `b` and then `a` is applying the product `a * b`. */
  lemma ApplyMatrix4Compose(v: Vector4, a: Mat4.Matrix4, b: Mat4.Matrix4)
    ensures ApplyMatrix4(ApplyMatrix4(v, b), a) == ApplyMatrix4(v, Mat4.MultiplyMatrices(a, b))
  {
    ComposeRow0(v, a, b);
    ComposeRow1(v, a, b);
    ComposeRow2(v, a, b);
    ComposeRow3(v, a, b);
  }

  /** The four components of `applyMatrix4`. */
  lemma Components(v: Vector4, m: Mat4.Matrix4)
    ensures ApplyMatrix4(v, m).x == m.e0 * v.x + m.e4 * v.y + m.e8 * v.z + m.e12 * v.w
    ensures ApplyMatrix4(v, m).y == m.e1 * v.x + m.e5 * v.y + m.e9 * v.z + m.e13 * v.w
    ensures ApplyMatrix4(v, m).z == m.e2 * v.x + m.e6 * v.y + m.e10 * v.z + m.e14 * v.w
    ensures ApplyMatrix4(v, m).w == m.e3 * v.x + m.e7 * v.y + m.e11 * v.z + m.e15 * v.w
  {
  }

  lemma ComposeRow0(v: Vector4, a: Mat4.Matrix4, b: Mat4.Matrix4)
    ensures ApplyMatrix4(ApplyMatrix4(v, b), a).x == ApplyMatrix4(v, Mat4.MultiplyMatrices(a, b)).x
  {
    var u := ApplyMatrix4(v, b);
    var c := Mat4.MultiplyMatrices(a, b);
    Components(v, b);
    Components(u, a);
    Components(v, c);
    Mat4.ProductElement0(a, b);
    Mat4.ProductElement4(a, b);
    Mat4.ProductElement8(a, b);
    Mat4.ProductElement12(a, b);
    LinearRow(a.e0, a.e4, a.e8, a.e12, b, v, u, c.e0, c.e4, c.e8, c.e12);
  }

  lemma ComposeRow1(v: Vector4, a: Mat4.Matrix4, b: Mat4.Matrix4)
    ensures ApplyMatrix4(ApplyMatrix4(v, b), a).y == ApplyMatrix4(v, Mat4.MultiplyMatrices(a, b)).y
  {
    var u := ApplyMatrix4(v, b);
    var c := Mat4.MultiplyMatrices(a, b);
    Components(v, b);
    Components(u, a);
    Components(v, c);
    Mat4.ProductElement1(a, b);
    Mat4.ProductElement5(a, b);
    Mat4.ProductElement9(a, b);
    Mat4.ProductElement13(a, b);
    LinearRow(a.e1, a.e5, a.e9, a.e13, b, v, u, c.e1, c.e5, c.e9, c.e13);
  }

  lemma ComposeRow2(v: Vector4, a: Mat4.Matrix4, b: Mat4.Matrix4)
    ensures ApplyMatrix4(ApplyMatrix4(v, b), a).z == ApplyMatrix4(v, Mat4.MultiplyMatrices(a, b)).z
  {
    var u := ApplyMatrix4(v, b);
    var c := Mat4.MultiplyMatrices(a, b);
    Components(v, b);
    Components(u, a);
    Components(v, c);
    Mat4.ProductElement2(a, b);
    Mat4.ProductElement6(a, b);
    Mat4.ProductElement10(a, b);
    Mat4.ProductElement14(a, b);
    LinearRow(a.e2, a.e6, a.e10, a.e14, b, v, u, c.e2, c.e6, c.e10, c.e14);
  }

  lemma ComposeRow3(v: Vector4, a: Mat4.Matrix4, b: Mat4.Matrix4)
    ensures ApplyMatrix4(ApplyMatrix4(v, b), a).w == ApplyMatrix4(v, Mat4.MultiplyMatrices(a, b)).w
  {
    var u := ApplyMatrix4(v, b);
    var c := Mat4.MultiplyMatrices(a, b);
    Components(v, b);
    Components(u, a);
    Components(v, c);
    Mat4.ProductElement3(a, b);
    Mat4.ProductElement7(a, b);
    Mat4.ProductElement11(a, b);
    Mat4.ProductElement15(a, b);
    LinearRow(a.e3, a.e7, a.e11, a.e15, b, v, u, c.e3, c.e7, c.e11, c.e15);
  }

  /** One row of `a` against `b v`. */
  lemma LinearRow(a1: real, a2: real, a3: real, a4: real, b: Mat4.Matrix4, v: Vector4, u: Vector4,
                  c1: real, c2: real, c3: real, c4: real)
    requires u.x == b.e0 * v.x + b.e4 * v.y + b.e8 * v.z + b.e12 * v.w
    requires u.y == b.e1 * v.x + b.e5 * v.y + b.e9 * v.z + b.e13 * v.w
    requires u.z == b.e2 * v.x + b.e6 * v.y + b.e10 * v.z + b.e14 * v.w
    requires u.w == b.e3 * v.x + b.e7 * v.y + b.e11 * v.z + b.e15 * v.w
    requires c1 == a1 * b.e0 + a2 * b.e1 + a3 * b.e2 + a4 * b.e3
    requires c2 == a1 * b.e4 + a2 * b.e5 + a3 * b.e6 + a4 * b.e7
    requires c3 == a1 * b.e8 + a2 * b.e9 + a3 * b.e10 + a4 * b.e11
    requires c4 == a1 * b.e12 + a2 * b.e13 + a3 * b.e14 + a4 * b.e15
    ensures a1 * u.x + a2 * u.y + a3 * u.z + a4 * u.w == c1 * v.x + c2 * v.y + c3 * v.z + c4 * v.w
  {
    LinearRowReal(a1, a2, a3, a4, b.e0, b.e1, b.e2, b.e3, b.e4, b.e5, b.e6, b.e7,
                  b.e8, b.e9, b.e10, b.e11, b.e12, b.e13, b.e14, b.e15,
                  v.x, v.y, v.z, v.w, u.x, u.y, u.z, u.w, c1, c2, c3, c4);
  }

  lemma LinearRowReal(a1: real, a2: real, a3: real, a4: real,
                      b0: real, b1: real, b2: real, b3: real, b4: real, b5: real, b6: real, b7: real,
                      b8: real, b9: real, b10: real, b11: real, b12: real, b13: real, b14: real, b15: real,
                      x: real, y: real, z: real, w: real, u1: real, u2: real, u3: real, u4: real,
                      c1: real, c2: real, c3: real, c4: real)
    requires u1 == b0 * x + b4 * y + b8 * z + b12 * w
    requires u2 == b1 * x + b5 * y + b9 * z + b13 * w
    requires u3 == b2 * x + b6 * y + b10 * z + b14 * w
    requires u4 == b3 * x + b7 * y + b11 * z + b15 * w
    requires c1 == a1 * b0 + a2 * b1 + a3 * b2 + a4 * b3
    requires c2 == a1 * b4 + a2 * b5 + a3 * b6 + a4 * b7
    requires c3 == a1 * b8 + a2 * b9 + a3 * b10 + a4 * b11
    requires c4 == a1 * b12 + a2 * b13 + a3 * b14 + a4 * b15
    ensures a1 * u1 + a2 * u2 + a3 * u3 + a4 * u4 == c1 * x + c2 * y + c3 * z + c4 * w
  {
    var p1, p2, p3, p4 := b0 * x + b4 * y, b1 * x + b5 * y, b2 * x + b6 * y, b3 * x + b7 * y;
    var q1, q2, q3, q4 := b8 * z + b12 * w, b9 * z + b13 * w, b10 * z + b14 * w, b11 * z + b15 * w;
    LinearHalf(a1, a2, a3, a4, b0, b1, b2, b3, b4, b5, b6, b7, x, y, p1, p2, p3, p4, c1, c2);
    LinearHalf(a1, a2, a3, a4, b8, b9, b10, b11, b12, b13, b14, b15, z, w, q1, q2, q3, q4, c3, c4);
    Distribute(a1, u1, p1, q1);
    Distribute(a2, u2, p2, q2);
    Distribute(a3, u3, p3, q3);
    Distribute(a4, u4, p4, q4);
  }

  /** Two columns of `LinearRowReal`. */
  lemma LinearHalf(a1: real, a2: real, a3: real, a4: real,
                   b0: real, b1: real, b2: real, b3: real, b4: real, b5: real, b6: real, b7: real,
                   x: real, y: real, p1: real, p2: real, p3: real, p4: real, c1: real, c2: real)
    requires p1 == b0 * x + b4 * y && p2 == b1 * x + b5 * y
    requires p3 == b2 * x + b6 * y && p4 == b3 * x + b7 * y
    requires c1 == a1 * b0 + a2 * b1 + a3 * b2 + a4 * b3
    requires c2 == a1 * b4 + a2 * b5 + a3 * b6 + a4 * b7
    ensures a1 * p1 + a2 * p2 + a3 * p3 + a4 * p4 == c1 * x + c2 * y
  {
  }

  lemma Distribute(a: real, u: real, p: real, q: real)
    requires u == p + q
    ensures a * u == a * p + a * q
  {
  }

  /** `min`: `std::min` per component, the componentwise greatest lower bound. */
  function Min(v: Vector4, u: Vector4): (r: Vector4)
    ensures LessEq(r, v) && LessEq(r, u)
    ensures forall i: Axis :: GetComponent(r, i) == GetComponent(v, i) || GetComponent(r, i) == GetComponent(u, i)
  {
    Vector4(Vec3.MinReal(v.x, u.x), Vec3.MinReal(v.y, u.y), Vec3.MinReal(v.z, u.z), Vec3.MinReal(v.w, u.w))
  }

  /** `max`: `std::max` per component, the componentwise least upper bound. */
  function Max(v: Vector4, u: Vector4): (r: Vector4)
    ensures LessEq(v, r) && LessEq(u, r)
    ensures forall i: Axis :: GetComponent(r, i) == GetComponent(v, i) || GetComponent(r, i) == GetComponent(u, i)
  {
    Vector4(Vec3.MaxReal(v.x, u.x), Vec3.MaxReal(v.y, u.y), Vec3.MaxReal(v.z, u.z), Vec3.MaxReal(v.w, u.w))
  }

  /** `clamp`: `max(min, min(max, v))` per component. With ordered bounds the
      result is inside the box and a point already inside is unchanged. */
  function Clamp(v: Vector4, lo: Vector4, hi: Vector4): (r: Vector4)
    ensures LessEq(lo, hi) ==> LessEq(lo, r) && LessEq(r, hi)
    ensures LessEq(lo, v) && LessEq(v, hi) ==> r == v
  {
    Vector4(
      Vec3.MaxReal(lo.x, Vec3.MinReal(hi.x, v.x)),
      Vec3.MaxReal(lo.y, Vec3.MinReal(hi.y, v.y)),
      Vec3.MaxReal(lo.z, Vec3.MinReal(hi.z, v.z)),
      Vec3.MaxReal(lo.w, Vec3.MinReal(hi.w, v.w)))
  }

  /** Each component of `clamp` is the scalar clamp helper. */
  lemma ClampIsScalarClamp(v: Vector4, lo: Vector4, hi: Vector4, i: Axis)
    ensures GetComponent(Clamp(v, lo, hi), i)
         == MathUtil.Clamp(GetComponent(v, i), GetComponent(lo, i), GetComponent(hi, i))
  {
    match i {
      case 0 => case 1 => case 2 => case 3 =>
    }
  }

  /** `clampScalar`: clamps every component into the same range. */
  function ClampScalar(v: Vector4, lo: real, hi: real): (r: Vector4)
    ensures lo <= hi ==> LessEq(Scalar(lo), r) && LessEq(r, Scalar(hi))
    ensures LessEq(Scalar(lo), v) && LessEq(v, Scalar(hi)) ==> r == v
  {
    Clamp(v, Scalar(lo), Scalar(hi))
  }

  /** `negate`: the additive inverse. */
  function Negate(v: Vector4): (r: Vector4)
    ensures Add(v, r) == Vector4(0.0, 0.0, 0.0, 0.0)
  {
    Vector4(-v.x, -v.y, -v.z, -v.w)
  }

  /** Negating twice restores the vector. */
  lemma NegateInvolution(v: Vector4)
    ensures Negate(Negate(v)) == v
  {
  }

  function Dot(v: Vector4, u: Vector4): real {
    v.x * u.x + v.y * u.y + v.z * u.z + v.w * u.w
  }

  function LengthSq(v: Vector4): real {
    v.x * v.x + v.y * v.y + v.z * v.z + v.w * v.w
  }

  /** `lengthSq` is `dot` of the vector with itself. */
  lemma LengthSqIsDot(v: Vector4)
    ensures LengthSq(v) == Dot(v, v)
  {
  }

  /** `lengthManhattan`: the sum of absolute components, zero only for the zero vector. */
  function LengthManhattan(v: Vector4): (r: real)
    ensures r >= 0.0
    ensures r == 0.0 <==> v == Vector4(0.0, 0.0, 0.0, 0.0)
  {
    MathUtil.AbsReal(v.x) + MathUtil.AbsReal(v.y) + MathUtil.AbsReal(v.z) + MathUtil.AbsReal(v.w)
  }

  /** `lerp`: moves `v` the fraction `alpha` of the way towards `u`. */
  function Lerp(v: Vector4, u: Vector4, alpha: real): (r: Vector4)
    ensures alpha == 0.0 ==> r == v
    ensures alpha == 1.0 ==> r == u
  {
    Vector4(v.x + (u.x - v.x) * alpha, v.y + (u.y - v.y) * alpha,
            v.z + (u.z - v.z) * alpha, v.w + (u.w - v.w) * alpha)
  }

  /** `lerpVectors(v1, v2, alpha)`: `(v2 - v1) * alpha + v1`. */
  function LerpVectors(v1: Vector4, v2: Vector4, alpha: real): (r: Vector4)
    ensures alpha == 0.0 ==> r == v1
    ensures alpha == 1.0 ==> r == v2
  {
    Add(MultiplyScalar(Sub(v2, v1), alpha), v1)
  }

  /** `lerpVectors(v1, v2, alpha)` agrees with `v1.lerp(v2, alpha)`. */
  lemma LerpVectorsIsLerp(v1: Vector4, v2: Vector4, alpha: real)
    ensures LerpVectors(v1, v2, alpha) == Lerp(v1, v2, alpha)
  {
    calc {
      LerpVectors(v1, v2, alpha);
      Add(MultiplyScalar(Vector4(v2.x - v1.x, v2.y - v1.y, v2.z - v1.z, v2.w - v1.w), alpha), v1);
      Add(Vector4((v2.x - v1.x) * alpha, (v2.y - v1.y) * alpha, (v2.z - v1.z) * alpha, (v2.w - v1.w) * alpha), v1);
      Vector4((v2.x - v1.x) * alpha + v1.x, (v2.y - v1.y) * alpha + v1.y,
              (v2.z - v1.z) * alpha + v1.z, (v2.w - v1.w) * alpha + v1.w);
      { Vec3.LerpComponent(v1.x, v2.x, alpha);
        Vec3.LerpComponent(v1.y, v2.y, alpha);
        Vec3.LerpComponent(v1.z, v2.z, alpha);
        Vec3.LerpComponent(v1.w, v2.w, alpha); }
      Lerp(v1, v2, alpha);
    }
  }

  /** `equals`: exact componentwise comparison, i.e. value equality. */
  function Equals(v: Vector4, u: Vector4): (r: bool)
    ensures r <==> v == u
  {
    u.x == v.x && u.y == v.y && u.z == v.z && u.w == v.w
  }
}
