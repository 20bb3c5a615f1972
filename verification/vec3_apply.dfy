/** The `Vector3` members that take a matrix or a quaternion (`applyMatrix3`,
    `applyMatrix4`, `applyProjection`, `applyQuaternion`, `setFromMatrixPosition`,
    `setFromMatrixColumn`), apart from `Vec3` because they need `Mat3`, `Mat4`, `Quat`. */
module Vec3Apply {
  import Vec3
  import Mat3
  import Mat4
  import Quat

  /** `applyMatrix3(m)`: the matrix times the vector. */
  function ApplyMatrix3(v: Vec3.Vector3, m: Mat3.Matrix3): Vec3.Vector3 {
    var e := m;
    Vec3.Vector3(
      e.e0 * v.x + e.e3 * v.y + e.e6 * v.z,
      e.e1 * v.x + e.e4 * v.y + e.e7 * v.z,
      e.e2 * v.x + e.e5 * v.y + e.e8 * v.z)
  }

  /** The identity leaves a vector unchanged. */
  lemma ApplyMatrix3Identity(v: Vec3.Vector3)
    ensures ApplyMatrix3(v, Mat3.Identity()) == v
  {
  }

  /** Applying `b` and then `a` is applying the product `a * b`. */
  lemma ApplyMatrix3Compose(v: Vec3.Vector3, a: Mat3.Matrix3, b: Mat3.Matrix3)
    ensures ApplyMatrix3(ApplyMatrix3(v, b), a) == ApplyMatrix3(v, Mat3.Multiply(a, b))
  {
    ApplyMatrix3ComposeRow0(v, a, b);
    ApplyMatrix3ComposeRow1(v, a, b);
    ApplyMatrix3ComposeRow2(v, a, b);
  }

  /** The three components of `applyMatrix3`. */
  lemma ApplyMatrix3Components(v: Vec3.Vector3, m: Mat3.Matrix3)
    ensures ApplyMatrix3(v, m).x == m.e0 * v.x + m.e3 * v.y + m.e6 * v.z
    ensures ApplyMatrix3(v, m).y == m.e1 * v.x + m.e4 * v.y + m.e7 * v.z
    ensures ApplyMatrix3(v, m).z == m.e2 * v.x + m.e5 * v.y + m.e8 * v.z
  {
  }

  /** `applyMatrix3` is linear: it carries differences to differences. */
  lemma ApplyMatrix3Sub(a: Vec3.Vector3, b: Vec3.Vector3, m: Mat3.Matrix3)
    ensures ApplyMatrix3(Vec3.Sub(a, b), m) == Vec3.Sub(ApplyMatrix3(a, m), ApplyMatrix3(b, m))
  {
    ApplyMatrix3Components(Vec3.Sub(a, b), m);
    ApplyMatrix3Components(a, m);
    ApplyMatrix3Components(b, m);
    LinearSub(m.e0, m.e3, m.e6, a.x, a.y, a.z, b.x, b.y, b.z);
    LinearSub(m.e1, m.e4, m.e7, a.x, a.y, a.z, b.x, b.y, b.z);
    LinearSub(m.e2, m.e5, m.e8, a.x, a.y, a.z, b.x, b.y, b.z);
  }

  lemma LinearSub(k1: real, k2: real, k3: real, a1: real, a2: real, a3: real, b1: real, b2: real, b3: real)
    ensures k1 * (a1 - b1) + k2 * (a2 - b2) + k3 * (a3 - b3)
         == (k1 * a1 + k2 * a2 + k3 * a3) - (k1 * b1 + k2 * b2 + k3 * b3)
  {
  }

  /** Moving a matrix across a dot product transposes it. */
  lemma DotApplyMatrix3(a: Vec3.Vector3, b: Vec3.Vector3, m: Mat3.Matrix3)
    ensures Vec3.Dot(ApplyMatrix3(a, m), b) == Vec3.Dot(a, ApplyMatrix3(b, Mat3.Transpose(m)))
  {
    ApplyMatrix3Components(a, m);
    ApplyMatrix3Components(b, Mat3.Transpose(m));
    DotTransposed(m.e0, m.e1, m.e2, m.e3, m.e4, m.e5, m.e6, m.e7, m.e8, a.x, a.y, a.z, b.x, b.y, b.z);
  }

  lemma DotTransposed(m0: real, m1: real, m2: real, m3: real, m4: real, m5: real, m6: real, m7: real, m8: real,
                      a1: real, a2: real, a3: real, b1: real, b2: real, b3: real)
    ensures (m0 * a1 + m3 * a2 + m6 * a3) * b1 + (m1 * a1 + m4 * a2 + m7 * a3) * b2 + (m2 * a1 + m5 * a2 + m8 * a3) * b3
         == a1 * (m0 * b1 + m1 * b2 + m2 * b3) + a2 * (m3 * b1 + m4 * b2 + m5 * b3) + a3 * (m6 * b1 + m7 * b2 + m8 * b3)
  {
  }

  lemma ApplyMatrix3ComposeRow0(v: Vec3.Vector3, a: Mat3.Matrix3, b: Mat3.Matrix3)
    ensures ApplyMatrix3(ApplyMatrix3(v, b), a).x == ApplyMatrix3(v, Mat3.Multiply(a, b)).x
  {
    var u := ApplyMatrix3(v, b);
    var c := Mat3.Multiply(a, b);
    ApplyMatrix3Components(v, b);
    ApplyMatrix3Components(u, a);
    ApplyMatrix3Components(v, c);
    Mat3.ProductElement0(a, b);
    Mat3.ProductElement3(a, b);
    Mat3.ProductElement6(a, b);
    LinearRow(a.e0, a.e3, a.e6, b.e0, b.e1, b.e2, b.e3, b.e4, b.e5, b.e6, b.e7, b.e8,
              v.x, v.y, v.z, u.x, u.y, u.z, c.e0, c.e3, c.e6);
  }

  lemma ApplyMatrix3ComposeRow1(v: Vec3.Vector3, a: Mat3.Matrix3, b: Mat3.Matrix3)
    ensures ApplyMatrix3(ApplyMatrix3(v, b), a).y == ApplyMatrix3(v, Mat3.Multiply(a, b)).y
  {
    var u := ApplyMatrix3(v, b);
    var c := Mat3.Multiply(a, b);
    ApplyMatrix3Components(v, b);
    ApplyMatrix3Components(u, a);
    ApplyMatrix3Components(v, c);
    Mat3.ProductElement1(a, b);
    Mat3.ProductElement4(a, b);
    Mat3.ProductElement7(a, b);
    LinearRow(a.e1, a.e4, a.e7, b.e0, b.e1, b.e2, b.e3, b.e4, b.e5, b.e6, b.e7, b.e8,
              v.x, v.y, v.z, u.x, u.y, u.z, c.e1, c.e4, c.e7);
  }

  lemma ApplyMatrix3ComposeRow2(v: Vec3.Vector3, a: Mat3.Matrix3, b: Mat3.Matrix3)
    ensures ApplyMatrix3(ApplyMatrix3(v, b), a).z == ApplyMatrix3(v, Mat3.Multiply(a, b)).z
  {
    var u := ApplyMatrix3(v, b);
    var c := Mat3.Multiply(a, b);
    ApplyMatrix3Components(v, b);
    ApplyMatrix3Components(u, a);
    ApplyMatrix3Components(v, c);
    Mat3.ProductElement2(a, b);
    Mat3.ProductElement5(a, b);
    Mat3.ProductElement8(a, b);
    LinearRow(a.e2, a.e5, a.e8, b.e0, b.e1, b.e2, b.e3, b.e4, b.e5, b.e6, b.e7, b.e8,
              v.x, v.y, v.z, u.x, u.y, u.z, c.e2, c.e5, c.e8);
  }

  /** One row of `a` against `b v`, on plain reals (`b` in storage order). */
  lemma LinearRow(a1: real, a2: real, a3: real,
                  b0: real, b1: real, b2: real, b3: real, b4: real, b5: real, b6: real, b7: real, b8: real,
                  x: real, y: real, z: real, u1: real, u2: real, u3: real,
                  c1: real, c2: real, c3: real)
    requires u1 == b0 * x + b3 * y + b6 * z
    requires u2 == b1 * x + b4 * y + b7 * z
    requires u3 == b2 * x + b5 * y + b8 * z
    requires c1 == a1 * b0 + a2 * b1 + a3 * b2
    requires c2 == a1 * b3 + a2 * b4 + a3 * b5
    requires c3 == a1 * b6 + a2 * b7 + a3 * b8
    ensures a1 * u1 + a2 * u2 + a3 * u3 == c1 * x + c2 * y + c3 * z
  {
  }

  /** `applyMatrix4(m)`: the affine transform with an implicit `w = 1`. Elements
      3, 7, 11 and 15 (the bottom row) are never read and there is no perspective divide. */
  function ApplyMatrix4(v: Vec3.Vector3, m: Mat4.Matrix4): Vec3.Vector3 {
    var e := m;
    Vec3.Vector3(
      e.e0 * v.x + e.e4 * v.y + e.e8 * v.z + e.e12,
      e.e1 * v.x + e.e5 * v.y + e.e9 * v.z + e.e13,
      e.e2 * v.x + e.e6 * v.y + e.e10 * v.z + e.e14)
  }

  /** The identity leaves a vector unchanged. */
  lemma ApplyMatrix4Identity(v: Vec3.Vector3)
    ensures ApplyMatrix4(v, Mat4.Identity()) == v
  {
  }

  /** A translation matrix adds its offset. */
  lemma ApplyMatrix4Translation(v: Vec3.Vector3, t: Vec3.Vector3)
    ensures ApplyMatrix4(v, Mat4.MakeTranslation(t.x, t.y, t.z)) == Vec3.Add(v, t)
  {
  }

  /** Whatever the bottom row holds, the result is the same. */
  lemma ApplyMatrix4IgnoresBottomRow(v: Vec3.Vector3, m: Mat4.Matrix4, a: real, b: real, c: real, d: real)
    ensures ApplyMatrix4(v, m.(e3 := a, e7 := b, e11 := c, e15 := d)) == ApplyMatrix4(v, m)
  {
  }

  /** The affine transform is the linear part (the upper-left 3x3 block) plus the translation column. */
  lemma ApplyMatrix4IsLinearPlusPosition(v: Vec3.Vector3, m: Mat4.Matrix4)
    ensures ApplyMatrix4(v, m) == Vec3.Add(ApplyMatrix3(v, Mat3.Upper(m)), Mat4.GetPosition(m))
  {
    ApplyMatrix4Components(v, m);
    ApplyUpperComponents(v, m);
  }

  /** `applyMatrix3` with the upper-left block reads the same elements as `applyMatrix4`. */
  lemma ApplyUpperComponents(v: Vec3.Vector3, m: Mat4.Matrix4)
    ensures ApplyMatrix3(v, Mat3.Upper(m)).x == m.e0 * v.x + m.e4 * v.y + m.e8 * v.z
    ensures ApplyMatrix3(v, Mat3.Upper(m)).y == m.e1 * v.x + m.e5 * v.y + m.e9 * v.z
    ensures ApplyMatrix3(v, Mat3.Upper(m)).z == m.e2 * v.x + m.e6 * v.y + m.e10 * v.z
  {
  }

  /** A matrix whose bottom row is `[0, 0, 0, 1]`. */
  predicate IsAffine(m: Mat4.Matrix4) {
    m.e3 == 0.0 && m.e7 == 0.0 && m.e11 == 0.0 && m.e15 == 1.0
  }

  /** Applying an affine `b` and then `a` is applying the product `a * b`. */
  lemma ApplyMatrix4Compose(v: Vec3.Vector3, a: Mat4.Matrix4, b: Mat4.Matrix4)
    requires IsAffine(b)
    ensures ApplyMatrix4(ApplyMatrix4(v, b), a) == ApplyMatrix4(v, Mat4.MultiplyMatrices(a, b))
  {
    ApplyMatrix4ComposeRow0(v, a, b);
    ApplyMatrix4ComposeRow1(v, a, b);
    ApplyMatrix4ComposeRow2(v, a, b);
  }

  /** The three components of `applyMatrix4`. */
  lemma ApplyMatrix4Components(v: Vec3.Vector3, m: Mat4.Matrix4)
    ensures ApplyMatrix4(v, m).x == m.e0 * v.x + m.e4 * v.y + m.e8 * v.z + m.e12
    ensures ApplyMatrix4(v, m).y == m.e1 * v.x + m.e5 * v.y + m.e9 * v.z + m.e13
    ensures ApplyMatrix4(v, m).z == m.e2 * v.x + m.e6 * v.y + m.e10 * v.z + m.e14
  {
  }

  lemma ApplyMatrix4ComposeRow0(v: Vec3.Vector3, a: Mat4.Matrix4, b: Mat4.Matrix4)
    requires IsAffine(b)
    ensures ApplyMatrix4(ApplyMatrix4(v, b), a).x == ApplyMatrix4(v, Mat4.MultiplyMatrices(a, b)).x
  {
    var u := ApplyMatrix4(v, b);
    var c := Mat4.MultiplyMatrices(a, b);
    ApplyMatrix4Components(v, b);
    ApplyMatrix4Components(u, a);
    ApplyMatrix4Components(v, c);
    Mat4.ProductElement0(a, b);
    Mat4.ProductElement4(a, b);
    Mat4.ProductElement8(a, b);
    Mat4.ProductElement12(a, b);
    AffineRow(a.e0, a.e4, a.e8, a.e12, b, v.x, v.y, v.z, u.x, u.y, u.z, c.e0, c.e4, c.e8, c.e12);
  }

  lemma ApplyMatrix4ComposeRow1(v: Vec3.Vector3, a: Mat4.Matrix4, b: Mat4.Matrix4)
    requires IsAffine(b)
    ensures ApplyMatrix4(ApplyMatrix4(v, b), a).y == ApplyMatrix4(v, Mat4.MultiplyMatrices(a, b)).y
  {
    var u := ApplyMatrix4(v, b);
    var c := Mat4.MultiplyMatrices(a, b);
    ApplyMatrix4Components(v, b);
    ApplyMatrix4Components(u, a);
    ApplyMatrix4Components(v, c);
    Mat4.ProductElement1(a, b);
    Mat4.ProductElement5(a, b);
    Mat4.ProductElement9(a, b);
    Mat4.ProductElement13(a, b);
    AffineRow(a.e1, a.e5, a.e9, a.e13, b, v.x, v.y, v.z, u.x, u.y, u.z, c.e1, c.e5, c.e9, c.e13);
  }

  lemma ApplyMatrix4ComposeRow2(v: Vec3.Vector3, a: Mat4.Matrix4, b: Mat4.Matrix4)
    requires IsAffine(b)
    ensures ApplyMatrix4(ApplyMatrix4(v, b), a).z == ApplyMatrix4(v, Mat4.MultiplyMatrices(a, b)).z
  {
    var u := ApplyMatrix4(v, b);
    var c := Mat4.MultiplyMatrices(a, b);
    ApplyMatrix4Components(v, b);
    ApplyMatrix4Components(u, a);
    ApplyMatrix4Components(v, c);
    Mat4.ProductElement2(a, b);
    Mat4.ProductElement6(a, b);
    Mat4.ProductElement10(a, b);
    Mat4.ProductElement14(a, b);
    AffineRow(a.e2, a.e6, a.e10, a.e14, b, v.x, v.y, v.z, u.x, u.y, u.z, c.e2, c.e6, c.e10, c.e14);
  }

  /** One row of `a` against `b v` for an affine `b`. */
  lemma AffineRow(a1: real, a2: real, a3: real, a4: real, b: Mat4.Matrix4,
                  x: real, y: real, z: real, u1: real, u2: real, u3: real,
                  c1: real, c2: real, c3: real, c4: real)
    requires IsAffine(b)
    requires u1 == b.e0 * x + b.e4 * y + b.e8 * z + b.e12
    requires u2 == b.e1 * x + b.e5 * y + b.e9 * z + b.e13
    requires u3 == b.e2 * x + b.e6 * y + b.e10 * z + b.e14
    requires c1 == a1 * b.e0 + a2 * b.e1 + a3 * b.e2 + a4 * b.e3
    requires c2 == a1 * b.e4 + a2 * b.e5 + a3 * b.e6 + a4 * b.e7
    requires c3 == a1 * b.e8 + a2 * b.e9 + a3 * b.e10 + a4 * b.e11
    requires c4 == a1 * b.e12 + a2 * b.e13 + a3 * b.e14 + a4 * b.e15
    ensures a1 * u1 + a2 * u2 + a3 * u3 + a4 == c1 * x + c2 * y + c3 * z + c4
  {
    AffineRowReal(a1, a2, a3, a4, b.e0, b.e1, b.e2, b.e4, b.e5, b.e6, b.e8, b.e9, b.e10,
                  b.e12, b.e13, b.e14, x, y, z, u1, u2, u3, c1, c2, c3, c4);
  }

  lemma AffineRowReal(a1: real, a2: real, a3: real, a4: real,
                      b0: real, b1: real, b2: real, b4: real, b5: real, b6: real,
                      b8: real, b9: real, b10: real, b12: real, b13: real, b14: real,
                      x: real, y: real, z: real, u1: real, u2: real, u3: real,
                      c1: real, c2: real, c3: real, c4: real)
    requires u1 == b0 * x + b4 * y + b8 * z + b12
    requires u2 == b1 * x + b5 * y + b9 * z + b13
    requires u3 == b2 * x + b6 * y + b10 * z + b14
    requires c1 == a1 * b0 + a2 * b1 + a3 * b2 + a4 * 0.0
    requires c2 == a1 * b4 + a2 * b5 + a3 * b6 + a4 * 0.0
    requires c3 == a1 * b8 + a2 * b9 + a3 * b10 + a4 * 0.0
    requires c4 == a1 * b12 + a2 * b13 + a3 * b14 + a4 * 1.0
    ensures a1 * u1 + a2 * u2 + a3 * u3 + a4 == c1 * x + c2 * y + c3 * z + c4
  {
  }

  /** The perspective denominator of `applyProjection`: the bottom row against `(x, y, z, 1)`. */
  function ProjectionW(v: Vec3.Vector3, m: Mat4.Matrix4): real {
    m.e3 * v.x + m.e7 * v.y + m.e11 * v.z + m.e15
  }

  /** `applyProjection(m)`: the affine transform divided by the perspective
      denominator, which must not be zero (the division is not guarded).
      Scaling the result back by the denominator gives `applyMatrix4`; for an
      affine matrix the denominator is 1 and the two agree. */
  function ApplyProjection(v: Vec3.Vector3, m: Mat4.Matrix4): (r: Vec3.Vector3)
    requires ProjectionW(v, m) != 0.0
    ensures Vec3.MultiplyScalar(r, ProjectionW(v, m)) == ApplyMatrix4(v, m)
    ensures IsAffine(m) ==> r == ApplyMatrix4(v, m)
  {
    var w := ProjectionW(v, m);
    var d := 1.0 / w;
    // each component is the corresponding `applyMatrix4` sum times `d`
    var a := ApplyMatrix4(v, m);
    var r := Vec3.Vector3(a.x * d, a.y * d, a.z * d);
    UndoDivide(a.x, w, d);
    UndoDivide(a.y, w, d);
    UndoDivide(a.z, w, d);
    if IsAffine(m) then
      AffineDenominator(v, m);
      r
    else
      r
  }

  /** For an affine matrix the perspective denominator is 1. */
  lemma AffineDenominator(v: Vec3.Vector3, m: Mat4.Matrix4)
    requires IsAffine(m)
    ensures ProjectionW(v, m) == 1.0
  {
    calc {
      ProjectionW(v, m);
      m.e3 * v.x + m.e7 * v.y + m.e11 * v.z + m.e15;
      0.0 * v.x + 0.0 * v.y + 0.0 * v.z + 1.0;
      1.0;
    }
  }

  lemma UndoDivide(a: real, w: real, d: real)
    requires w != 0.0 && d == 1.0 / w
    ensures (a * d) * w == a
    ensures w == 1.0 ==> a * d == a
  {
    assert d * w == 1.0;
    assert (a * d) * w == a * (d * w);
    if w == 1.0 {
      assert d == 1.0;
    }
  }

  /** `applyQuaternion(q)`: the vector as a pure quaternion, multiplied by `q`
      on the left and by the conjugate of `q` on the right. */
  function ApplyQuaternion(v: Vec3.Vector3, q: Quat.Quaternion): Vec3.Vector3 {
    Rotate(v.x, v.y, v.z, q.x, q.y, q.z, q.w)
  }

  /** The arithmetic of `applyQuaternion` on the unpacked components. */
  function Rotate(x: real, y: real, z: real, qx: real, qy: real, qz: real, qw: real): Vec3.Vector3 {
    // quaternion times vector
    var ix := qw * x + qy * z - qz * y;
    var iy := qw * y + qz * x - qx * z;
    var iz := qw * z + qx * y - qy * x;
    var iw := -qx * x - qy * y - qz * z;
    // that times the conjugate of the quaternion
    Vec3.Vector3(
      ix * qw + iw * -qx + iy * -qz - iz * -qy,
      iy * qw + iw * -qy + iz * -qx - ix * -qz,
      iz * qw + iw * -qz + ix * -qy - iy * -qx)
  }

  /** For a unit quaternion, the matrix `makeRotationFromQuaternion` builds moves
      every vector exactly as `applyQuaternion` does. */
  lemma RotationMatrixAppliesQuaternion(v: Vec3.Vector3, q: Quat.Quaternion)
    requires Quat.LengthSq(q) == 1.0
    ensures ApplyMatrix4(v, Mat4.MakeRotationFromQuaternion(q)) == ApplyQuaternion(v, q)
  {
    RotationComponentX(v, q);
    RotationComponentY(v, q);
    RotationComponentZ(v, q);
  }

  /** One component of the matrix product against the same component of `q v q*`. */
  lemma RotationComponentX(v: Vec3.Vector3, q: Quat.Quaternion)
    requires Quat.LengthSq(q) == 1.0
    ensures ApplyMatrix4(v, Mat4.MakeRotationFromQuaternion(q)).x == ApplyQuaternion(v, q).x
  {
    var m := Mat4.MakeRotationFromQuaternion(q);
    RotationEntriesX(q);
    ApplyMatrix4Components(v, m);
    RotationRowX(v.x, v.y, v.z, q.x, q.y, q.z, q.w, m.e0, m.e4, m.e8, m.e12, ApplyQuaternion(v, q).x);
  }

  lemma RotationComponentY(v: Vec3.Vector3, q: Quat.Quaternion)
    requires Quat.LengthSq(q) == 1.0
    ensures ApplyMatrix4(v, Mat4.MakeRotationFromQuaternion(q)).y == ApplyQuaternion(v, q).y
  {
    var m := Mat4.MakeRotationFromQuaternion(q);
    RotationEntriesY(q);
    ApplyMatrix4Components(v, m);
    RotationRowY(v.x, v.y, v.z, q.x, q.y, q.z, q.w, m.e1, m.e5, m.e9, m.e13, ApplyQuaternion(v, q).y);
  }

  lemma RotationComponentZ(v: Vec3.Vector3, q: Quat.Quaternion)
    requires Quat.LengthSq(q) == 1.0
    ensures ApplyMatrix4(v, Mat4.MakeRotationFromQuaternion(q)).z == ApplyQuaternion(v, q).z
  {
    var m := Mat4.MakeRotationFromQuaternion(q);
    RotationEntriesZ(q);
    ApplyMatrix4Components(v, m);
    RotationRowZ(v.x, v.y, v.z, q.x, q.y, q.z, q.w, m.e2, m.e6, m.e10, m.e14, ApplyQuaternion(v, q).z);
  }

  /** The first row of `makeRotationFromQuaternion(q)`, entry by entry. */
  lemma RotationEntriesX(q: Quat.Quaternion)
    ensures Mat4.MakeRotationFromQuaternion(q).e0 == 1.0 - (q.y * (q.y + q.y) + q.z * (q.z + q.z))
    ensures Mat4.MakeRotationFromQuaternion(q).e4 == q.x * (q.y + q.y) - q.w * (q.z + q.z)
    ensures Mat4.MakeRotationFromQuaternion(q).e8 == q.x * (q.z + q.z) + q.w * (q.y + q.y)
    ensures Mat4.MakeRotationFromQuaternion(q).e12 == 0.0
  {
  }

  /** The first row of the rotation matrix against the first component of `q v q*`. */
  lemma RotationRowX(x: real, y: real, z: real, qx: real, qy: real, qz: real, qw: real,
                       m0: real, m4: real, m8: real, m12: real, r: real)
    requires qx * qx + qy * qy + qz * qz + qw * qw == 1.0
    requires m0 == 1.0 - (qy * (qy + qy) + qz * (qz + qz)) && m4 == qx * (qy + qy) - qw * (qz + qz)
    requires m8 == qx * (qz + qz) + qw * (qy + qy) && m12 == 0.0
    requires r == Rotate(x, y, z, qx, qy, qz, qw).x
    ensures m0 * x + m4 * y + m8 * z + m12 == r
  {
    var ix, iy, iz, iw := qw * x + qy * z - qz * y, qw * y + qz * x - qx * z, qw * z + qx * y - qy * x, -qx * x - qy * y - qz * z;
    SandwichX(x, y, z, qx, qy, qz, qw, ix, iy, iz, iw, ix * qw - iw * qx - iy * qz + iz * qy);
    ExpandX(x, y, z, qx, qy, qz, qw, ix, iy, iz, iw, m0, m4, m8);
  }

  /** The first component of `q v q*`, multiplied out; the unit length turns its
      diagonal coefficient into the matrix form `1 - 2(b^2 + c^2)`. */
  lemma ExpandX(x: real, y: real, z: real, qx: real, qy: real, qz: real, qw: real, ix: real, iy: real, iz: real, iw: real,
                  m0: real, m4: real, m8: real)
    requires qx * qx + qy * qy + qz * qz + qw * qw == 1.0
    requires ix == qw * x + qy * z - qz * y && iy == qw * y + qz * x - qx * z
    requires iz == qw * z + qx * y - qy * x && iw == -qx * x - qy * y - qz * z
    requires m0 == 1.0 - (qy * (qy + qy) + qz * (qz + qz)) && m4 == qx * (qy + qy) - qw * (qz + qz)
    requires m8 == qx * (qz + qz) + qw * (qy + qy)
    ensures ix * qw - iw * qx - iy * qz + iz * qy == m0 * x + m4 * y + m8 * z
  {
  }

  /** The second row of `makeRotationFromQuaternion(q)`, entry by entry. */
  lemma RotationEntriesY(q: Quat.Quaternion)
    ensures Mat4.MakeRotationFromQuaternion(q).e1 == q.x * (q.y + q.y) + q.w * (q.z + q.z)
    ensures Mat4.MakeRotationFromQuaternion(q).e5 == 1.0 - (q.x * (q.x + q.x) + q.z * (q.z + q.z))
    ensures Mat4.MakeRotationFromQuaternion(q).e9 == q.y * (q.z + q.z) - q.w * (q.x + q.x)
    ensures Mat4.MakeRotationFromQuaternion(q).e13 == 0.0
  {
  }

  /** The second row of the rotation matrix against the second component of `q v q*`. */
  lemma RotationRowY(x: real, y: real, z: real, qx: real, qy: real, qz: real, qw: real,
                       m1: real, m5: real, m9: real, m13: real, r: real)
    requires qx * qx + qy * qy + qz * qz + qw * qw == 1.0
    requires m1 == qx * (qy + qy) + qw * (qz + qz) && m5 == 1.0 - (qx * (qx + qx) + qz * (qz + qz))
    requires m9 == qy * (qz + qz) - qw * (qx + qx) && m13 == 0.0
    requires r == Rotate(x, y, z, qx, qy, qz, qw).y
    ensures m1 * x + m5 * y + m9 * z + m13 == r
  {
    var ix, iy, iz, iw := qw * x + qy * z - qz * y, qw * y + qz * x - qx * z, qw * z + qx * y - qy * x, -qx * x - qy * y - qz * z;
    SandwichY(x, y, z, qx, qy, qz, qw, ix, iy, iz, iw, iy * qw - iw * qy - iz * qx + ix * qz);
    ExpandY(x, y, z, qx, qy, qz, qw, ix, iy, iz, iw, m1, m5, m9);
  }

  /** The second component of `q v q*`, multiplied out; the unit length turns its
      diagonal coefficient into the matrix form `1 - 2(b^2 + c^2)`. */
  lemma ExpandY(x: real, y: real, z: real, qx: real, qy: real, qz: real, qw: real, ix: real, iy: real, iz: real, iw: real,
                  m1: real, m5: real, m9: real)
    requires qx * qx + qy * qy + qz * qz + qw * qw == 1.0
    requires ix == qw * x + qy * z - qz * y && iy == qw * y + qz * x - qx * z
    requires iz == qw * z + qx * y - qy * x && iw == -qx * x - qy * y - qz * z
    requires m1 == qx * (qy + qy) + qw * (qz + qz) && m5 == 1.0 - (qx * (qx + qx) + qz * (qz + qz))
    requires m9 == qy * (qz + qz) - qw * (qx + qx)
    ensures iy * qw - iw * qy - iz * qx + ix * qz == m1 * x + m5 * y + m9 * z
  {
  }

  /** The third row of `makeRotationFromQuaternion(q)`, entry by entry. */
  lemma RotationEntriesZ(q: Quat.Quaternion)
    ensures Mat4.MakeRotationFromQuaternion(q).e2 == q.x * (q.z + q.z) - q.w * (q.y + q.y)
    ensures Mat4.MakeRotationFromQuaternion(q).e6 == q.y * (q.z + q.z) + q.w * (q.x + q.x)
    ensures Mat4.MakeRotationFromQuaternion(q).e10 == 1.0 - (q.x * (q.x + q.x) + q.y * (q.y + q.y))
    ensures Mat4.MakeRotationFromQuaternion(q).e14 == 0.0
  {
  }

  /** The third row of the rotation matrix against the third component of `q v q*`. */
  lemma RotationRowZ(x: real, y: real, z: real, qx: real, qy: real, qz: real, qw: real,
                       m2: real, m6: real, m10: real, m14: real, r: real)
    requires qx * qx + qy * qy + qz * qz + qw * qw == 1.0
    requires m2 == qx * (qz + qz) - qw * (qy + qy) && m6 == qy * (qz + qz) + qw * (qx + qx)
    requires m10 == 1.0 - (qx * (qx + qx) + qy * (qy + qy)) && m14 == 0.0
    requires r == Rotate(x, y, z, qx, qy, qz, qw).z
    ensures m2 * x + m6 * y + m10 * z + m14 == r
  {
    var ix, iy, iz, iw := qw * x + qy * z - qz * y, qw * y + qz * x - qx * z, qw * z + qx * y - qy * x, -qx * x - qy * y - qz * z;
    SandwichZ(x, y, z, qx, qy, qz, qw, ix, iy, iz, iw, iz * qw - iw * qz - ix * qy + iy * qx);
    ExpandZ(x, y, z, qx, qy, qz, qw, ix, iy, iz, iw, m2, m6, m10);
  }

  /** The third component of `q v q*`, multiplied out; the unit length turns its
      diagonal coefficient into the matrix form `1 - 2(b^2 + c^2)`. */
  lemma ExpandZ(x: real, y: real, z: real, qx: real, qy: real, qz: real, qw: real, ix: real, iy: real, iz: real, iw: real,
                  m2: real, m6: real, m10: real)
    requires qx * qx + qy * qy + qz * qz + qw * qw == 1.0
    requires ix == qw * x + qy * z - qz * y && iy == qw * y + qz * x - qx * z
    requires iz == qw * z + qx * y - qy * x && iw == -qx * x - qy * y - qz * z
    requires m2 == qx * (qz + qz) - qw * (qy + qy) && m6 == qy * (qz + qz) + qw * (qx + qx)
    requires m10 == 1.0 - (qx * (qx + qx) + qy * (qy + qy))
    ensures iz * qw - iw * qz - ix * qy + iy * qx == m2 * x + m6 * y + m10 * z
  {
  }

  /** The vector as a quaternion with zero scalar part. */
  function Pure(v: Vec3.Vector3): Quat.Quaternion {
    Quat.Quaternion(v.x, v.y, v.z, 0.0)
  }

  /** The identity quaternion leaves a vector unchanged. */
  lemma ApplyQuaternionIdentity(v: Vec3.Vector3)
    ensures ApplyQuaternion(v, Quat.Identity()) == v
  {
  }

  /** `applyQuaternion` is the sandwich product `q * v * conjugate(q)`, whose scalar part vanishes. */
  lemma ApplyQuaternionIsConjugation(v: Vec3.Vector3, q: Quat.Quaternion)
    ensures var p := Quat.MultiplyQuaternions(Quat.MultiplyQuaternions(q, Pure(v)), Quat.Conjugate(q));
      ApplyQuaternion(v, q) == Vec3.Vector3(p.x, p.y, p.z) && p.w == 0.0
  {
    var i := Quat.MultiplyQuaternions(q, Pure(v));
    var c := Quat.Conjugate(q);
    var p := Quat.MultiplyQuaternions(i, c);
    var r := ApplyQuaternion(v, q);
    SandwichAtX(v, q);
    SandwichAtY(v, q);
    SandwichAtZ(v, q);
    SandwichAtW(v, q);
  }

  lemma SandwichAtX(v: Vec3.Vector3, q: Quat.Quaternion)
    ensures ApplyQuaternion(v, q).x == Quat.MultiplyQuaternions(Quat.MultiplyQuaternions(q, Pure(v)), Quat.Conjugate(q)).x
  {
    var i := Quat.MultiplyQuaternions(q, Pure(v));
    var p := Quat.MultiplyQuaternions(i, Quat.Conjugate(q));
    TimesPure(q, v);
    TimesConjugate(i, q);
    SandwichX(v.x, v.y, v.z, q.x, q.y, q.z, q.w, i.x, i.y, i.z, i.w, p.x);
  }

  lemma SandwichAtY(v: Vec3.Vector3, q: Quat.Quaternion)
    ensures ApplyQuaternion(v, q).y == Quat.MultiplyQuaternions(Quat.MultiplyQuaternions(q, Pure(v)), Quat.Conjugate(q)).y
  {
    var i := Quat.MultiplyQuaternions(q, Pure(v));
    var p := Quat.MultiplyQuaternions(i, Quat.Conjugate(q));
    TimesPure(q, v);
    TimesConjugate(i, q);
    SandwichY(v.x, v.y, v.z, q.x, q.y, q.z, q.w, i.x, i.y, i.z, i.w, p.y);
  }

  lemma SandwichAtZ(v: Vec3.Vector3, q: Quat.Quaternion)
    ensures ApplyQuaternion(v, q).z == Quat.MultiplyQuaternions(Quat.MultiplyQuaternions(q, Pure(v)), Quat.Conjugate(q)).z
  {
    var i := Quat.MultiplyQuaternions(q, Pure(v));
    var p := Quat.MultiplyQuaternions(i, Quat.Conjugate(q));
    TimesPure(q, v);
    TimesConjugate(i, q);
    SandwichZ(v.x, v.y, v.z, q.x, q.y, q.z, q.w, i.x, i.y, i.z, i.w, p.z);
  }

  lemma SandwichAtW(v: Vec3.Vector3, q: Quat.Quaternion)
    ensures Quat.MultiplyQuaternions(Quat.MultiplyQuaternions(q, Pure(v)), Quat.Conjugate(q)).w == 0.0
  {
    var i := Quat.MultiplyQuaternions(q, Pure(v));
    var p := Quat.MultiplyQuaternions(i, Quat.Conjugate(q));
    TimesPure(q, v);
    TimesConjugate(i, q);
    SandwichW(v.x, v.y, v.z, q.x, q.y, q.z, q.w, i.x, i.y, i.z, i.w, p.w);
  }

  /** The components of `q * v` for a pure quaternion `v`. */
  lemma TimesPure(q: Quat.Quaternion, v: Vec3.Vector3)
    ensures Quat.MultiplyQuaternions(q, Pure(v)).x == q.w * v.x + q.y * v.z - q.z * v.y
    ensures Quat.MultiplyQuaternions(q, Pure(v)).y == q.w * v.y + q.z * v.x - q.x * v.z
    ensures Quat.MultiplyQuaternions(q, Pure(v)).z == q.w * v.z + q.x * v.y - q.y * v.x
    ensures Quat.MultiplyQuaternions(q, Pure(v)).w == -q.x * v.x - q.y * v.y - q.z * v.z
  {
  }

  /** The components of `a * conjugate(q)`. */
  lemma TimesConjugate(a: Quat.Quaternion, q: Quat.Quaternion)
    ensures Quat.MultiplyQuaternions(a, Quat.Conjugate(q)).x == a.x * q.w - a.w * q.x - a.y * q.z + a.z * q.y
    ensures Quat.MultiplyQuaternions(a, Quat.Conjugate(q)).y == a.y * q.w - a.w * q.y - a.z * q.x + a.x * q.z
    ensures Quat.MultiplyQuaternions(a, Quat.Conjugate(q)).z == a.z * q.w - a.w * q.z - a.x * q.y + a.y * q.x
    ensures Quat.MultiplyQuaternions(a, Quat.Conjugate(q)).w == a.w * q.w + a.x * q.x + a.y * q.y + a.z * q.z
  {
  }

  lemma SandwichX(x: real, y: real, z: real, qx: real, qy: real, qz: real, qw: real,
                  i1: real, i2: real, i3: real, i4: real, p1: real)
    requires i1 == qw * x + qy * z - qz * y
    requires i2 == qw * y + qz * x - qx * z
    requires i3 == qw * z + qx * y - qy * x
    requires i4 == -qx * x - qy * y - qz * z
    requires p1 == i1 * qw - i4 * qx - i2 * qz + i3 * qy
    ensures Rotate(x, y, z, qx, qy, qz, qw).x == p1
  {
  }

  lemma SandwichY(x: real, y: real, z: real, qx: real, qy: real, qz: real, qw: real,
                  i1: real, i2: real, i3: real, i4: real, p2: real)
    requires i1 == qw * x + qy * z - qz * y
    requires i2 == qw * y + qz * x - qx * z
    requires i3 == qw * z + qx * y - qy * x
    requires i4 == -qx * x - qy * y - qz * z
    requires p2 == i2 * qw - i4 * qy - i3 * qx + i1 * qz
    ensures Rotate(x, y, z, qx, qy, qz, qw).y == p2
  {
  }

  lemma SandwichZ(x: real, y: real, z: real, qx: real, qy: real, qz: real, qw: real,
                  i1: real, i2: real, i3: real, i4: real, p3: real)
    requires i1 == qw * x + qy * z - qz * y
    requires i2 == qw * y + qz * x - qx * z
    requires i3 == qw * z + qx * y - qy * x
    requires i4 == -qx * x - qy * y - qz * z
    requires p3 == i3 * qw - i4 * qz - i1 * qy + i2 * qx
    ensures Rotate(x, y, z, qx, qy, qz, qw).z == p3
  {
  }

  lemma SandwichW(x: real, y: real, z: real, qx: real, qy: real, qz: real, qw: real,
                  i1: real, i2: real, i3: real, i4: real, p4: real)
    requires i1 == qw * x + qy * z - qz * y
    requires i2 == qw * y + qz * x - qx * z
    requires i3 == qw * z + qx * y - qy * x
    requires i4 == -qx * x - qy * y - qz * z
    requires p4 == i4 * qw + i1 * qx + i2 * qy + i3 * qz
    ensures p4 == 0.0
  {
  }

  /** A unit quaternion rotates: the squared length of the vector is kept. */
  lemma ApplyQuaternionLengthSq(v: Vec3.Vector3, q: Quat.Quaternion)
    requires Quat.LengthSq(q) == 1.0
    ensures Vec3.LengthSq(ApplyQuaternion(v, q)) == Vec3.LengthSq(v)
  {
    var i := Quat.MultiplyQuaternions(q, Pure(v));
    var c := Quat.Conjugate(q);
    var p := Quat.MultiplyQuaternions(i, c);
    var r := ApplyQuaternion(v, q);
    ApplyQuaternionIsConjugation(v, q);
    Quat.LengthSqMultiplicative(i, c);
    Quat.LengthSqMultiplicative(q, Pure(v));
    Quat.LengthSqConjugate(q);
    calc {
      Vec3.LengthSq(r);
      r.x * r.x + r.y * r.y + r.z * r.z;
      p.x * p.x + p.y * p.y + p.z * p.z + p.w * p.w;
      Quat.LengthSq(p);
      Quat.LengthSq(i) * Quat.LengthSq(c);
      Quat.LengthSq(i);
      Quat.LengthSq(Pure(v));
      Vec3.LengthSq(v);
    }
  }

  /** `setFromMatrixPosition(m)`: elements 12, 13 and 14, the image of the origin. */
  function SetFromMatrixPosition(m: Mat4.Matrix4): (r: Vec3.Vector3)
    ensures r == ApplyMatrix4(Vec3.Zero(), m)
  {
    Vec3.Vector3(m.e12, m.e13, m.e14)
  }

  /** Reading the position back after `setPosition` gives the vector written. */
  lemma SetFromMatrixPositionAfterSetPosition(m: Mat4.Matrix4, v: Vec3.Vector3)
    ensures SetFromMatrixPosition(Mat4.SetPosition(m, v)) == v
  {
  }

  /** `setFromMatrixColumn(index, m)`: elements `4 index` to `4 index + 2`, the
      top three entries of column `index`; the array bound limits `index` to 0..3. */
  function SetFromMatrixColumn(index: int, m: Mat4.Matrix4): (r: Vec3.Vector3)
    requires 0 <= index < 4
    ensures r == Vec3.Vector3(Mat4.Entry(m, 0, index), Mat4.Entry(m, 1, index), Mat4.Entry(m, 2, index))
    ensures index == 3 ==> r == SetFromMatrixPosition(m)
  {
    var offset := index * 4;
    Vec3.Vector3(Mat4.At(m, offset), Mat4.At(m, offset + 1), Mat4.At(m, offset + 2))
  }

  /** The unit vector along axis `i`. */
  function UnitAxis(i: Vec3.Axis): Vec3.Vector3 {
    Vec3.SetComponent(Vec3.Zero(), i, 1.0)
  }

  /** Column `i` of the linear part is the image of the `i`-th unit vector. */
  lemma ColumnIsImageOfAxis(m: Mat4.Matrix4, i: Vec3.Axis)
    ensures SetFromMatrixColumn(i, m) == ApplyMatrix3(UnitAxis(i), Mat3.Upper(m))
  {
    match i {
      case 0 => case 1 => case 2 =>
    }
  }
}
