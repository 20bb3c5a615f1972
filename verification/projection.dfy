/** The projection matrices of `Matrix4` (`makeFrustum`, `makeOrthographic`) and
    where they send the corners of their view volumes. */
module Projection {
  import Vec3
  import Mat4
  import Vec3Apply

  /** `makeFrustum`: the perspective projection of the frustum whose near rectangle
      is `[left, right] x [bottom, top]` at depth `near`, reaching depth `far`. The
      bottom row `[0 0 -1 0]` makes the homogeneous `w` equal to `-z`. The source
      divides by the three extents without checking them. */
  function MakeFrustum(left: real, right: real, bottom: real, top: real, near: real, far: real): (r: Mat4.Matrix4)
    requires right != left && top != bottom && far != near
    ensures Mat4.Entry(r, 3, 0) == 0.0 && Mat4.Entry(r, 3, 1) == 0.0 && Mat4.Entry(r, 3, 2) == -1.0 && Mat4.Entry(r, 3, 3) == 0.0
  {
    var x := 2.0 * near / (right - left);
    var y := 2.0 * near / (top - bottom);
    var a := (right + left) / (right - left);
    var b := (top + bottom) / (top - bottom);
    var c := -(far + near) / (far - near);
    var d := -2.0 * far * near / (far - near);
    Mat4.Matrix4(
      x, 0.0, 0.0, 0.0,
      0.0, y, 0.0, 0.0,
      a, b, c, -1.0,
      0.0, 0.0, d, 0.0)
  }

  /** `makeOrthographic`: the parallel projection of the box `[left, right] x
      [bottom, top] x [-far, -near]`. Note the argument order `top, bottom`. The
      bottom row is `[0 0 0 1]`, and the source divides by the three extents
      without checking them. */
  function MakeOrthographic(left: real, right: real, top: real, bottom: real, near: real, far: real): (r: Mat4.Matrix4)
    requires right != left && top != bottom && far != near
    ensures Mat4.Entry(r, 3, 0) == 0.0 && Mat4.Entry(r, 3, 1) == 0.0 && Mat4.Entry(r, 3, 2) == 0.0 && Mat4.Entry(r, 3, 3) == 1.0
  {
    var w := right - left;
    var h := top - bottom;
    var p := far - near;
    var x := (right + left) / w;
    var y := (top + bottom) / h;
    var z := (far + near) / p;
    Mat4.Matrix4(
      2.0 / w, 0.0, 0.0, 0.0,
      0.0, 2.0 / h, 0.0, 0.0,
      0.0, 0.0, -2.0 / p, 0.0,
      -x, -y, -z, 1.0)
  }

  /** `makeFrustum` sends the corners of the near rectangle, at depth `-near`,
      onto the near face of the clip cube `[-1, 1]^3`. */
  lemma FrustumMapsNearCorners(left: real, right: real, bottom: real, top: real, near: real, far: real)
    requires right != left && top != bottom && far != near && near != 0.0
    ensures var m := MakeFrustum(left, right, bottom, top, near, far);
      Vec3Apply.ProjectionW(Vec3.Vector3(left, bottom, -near), m) == near &&
      Vec3Apply.ApplyProjection(Vec3.Vector3(left, bottom, -near), m) == Vec3.Vector3(-1.0, -1.0, -1.0)
    ensures var m := MakeFrustum(left, right, bottom, top, near, far);
      Vec3Apply.ProjectionW(Vec3.Vector3(right, top, -near), m) == near &&
      Vec3Apply.ApplyProjection(Vec3.Vector3(right, top, -near), m) == Vec3.Vector3(1.0, 1.0, -1.0)
  {
    FrustumCorner(left, right, bottom, top, near, far, left, bottom, near, -1.0, -1.0, -1.0);
    FrustumCorner(left, right, bottom, top, near, far, right, top, near, 1.0, 1.0, -1.0);
  }

  /** `makeFrustum` sends the corners of the far rectangle (the near one scaled
      by `far / near`, at depth `-far`) onto the far face of the clip cube. */
  lemma FrustumMapsFarCorners(left: real, right: real, bottom: real, top: real, near: real, far: real)
    requires right != left && top != bottom && far != near && near != 0.0 && far != 0.0
    ensures var m := MakeFrustum(left, right, bottom, top, near, far);
      Vec3Apply.ProjectionW(Vec3.Vector3(left * far / near, bottom * far / near, -far), m) == far &&
      Vec3Apply.ApplyProjection(Vec3.Vector3(left * far / near, bottom * far / near, -far), m) == Vec3.Vector3(-1.0, -1.0, 1.0)
    ensures var m := MakeFrustum(left, right, bottom, top, near, far);
      Vec3Apply.ProjectionW(Vec3.Vector3(right * far / near, top * far / near, -far), m) == far &&
      Vec3Apply.ApplyProjection(Vec3.Vector3(right * far / near, top * far / near, -far), m) == Vec3.Vector3(1.0, 1.0, 1.0)
  {
    ScaleBack(left, far, near);
    ScaleBack(bottom, far, near);
    ScaleBack(right, far, near);
    ScaleBack(top, far, near);
    FrustumCorner(left, right, bottom, top, near, far, left * far / near, bottom * far / near, far, -1.0, -1.0, 1.0);
    FrustumCorner(left, right, bottom, top, near, far, right * far / near, top * far / near, far, 1.0, 1.0, 1.0);
  }

  /** One corner of the frustum: the point `(u, v, -depth)` lying on the edge
      through `(sx * ..., sy * ...)` at depth `depth`, projected to `(sx, sy, sz)`. */
  lemma FrustumCorner(left: real, right: real, bottom: real, top: real, near: real, far: real,
                      u: real, v: real, depth: real, sx: real, sy: real, sz: real)
    requires right != left && top != bottom && far != near && depth != 0.0 && near != 0.0
    requires sx == -1.0 ==> u * near == left * depth
    requires sx == 1.0 ==> u * near == right * depth
    requires sx == -1.0 || sx == 1.0
    requires sy == -1.0 ==> v * near == bottom * depth
    requires sy == 1.0 ==> v * near == top * depth
    requires sy == -1.0 || sy == 1.0
    requires (depth == near && sz == -1.0) || (depth == far && sz == 1.0)
    ensures var m := MakeFrustum(left, right, bottom, top, near, far);
      Vec3Apply.ProjectionW(Vec3.Vector3(u, v, -depth), m) == depth &&
      Vec3Apply.ApplyProjection(Vec3.Vector3(u, v, -depth), m) == Vec3.Vector3(sx, sy, sz)
  {
    var m := MakeFrustum(left, right, bottom, top, near, far);
    var p := Vec3.Vector3(u, v, -depth);
    FrustumCornerHomogeneous(left, right, bottom, top, near, far, u, v, depth, sx, sy, sz);
    ProjectionOfMultiple(p, m, depth, Vec3.Vector3(sx, sy, sz));
  }

  /** When `applyMatrix4` gives `w` times `s` and the denominator is `w`, the
      projection is `s`. */
  lemma ProjectionOfMultiple(p: Vec3.Vector3, m: Mat4.Matrix4, w: real, s: Vec3.Vector3)
    requires w != 0.0 && Vec3Apply.ProjectionW(p, m) == w
    requires Vec3Apply.ApplyMatrix4(p, m) == Vec3.Vector3(s.x * w, s.y * w, s.z * w)
    ensures Vec3Apply.ApplyProjection(p, m) == s
  {
    var r := Vec3Apply.ApplyProjection(p, m);
    assert Vec3.MultiplyScalar(r, w) == Vec3.Vector3(s.x * w, s.y * w, s.z * w);
    DivideOut(r.x, s.x, w);
    DivideOut(r.y, s.y, w);
    DivideOut(r.z, s.z, w);
  }

  /** Before the division: the corner `(u, v, -depth)` goes to `depth` times
      `(sx, sy, sz)`, with homogeneous `w` equal to `depth`. */
  lemma FrustumCornerHomogeneous(left: real, right: real, bottom: real, top: real, near: real, far: real,
                                 u: real, v: real, depth: real, sx: real, sy: real, sz: real)
    requires right != left && top != bottom && far != near && near != 0.0
    requires sx == -1.0 ==> u * near == left * depth
    requires sx == 1.0 ==> u * near == right * depth
    requires sx == -1.0 || sx == 1.0
    requires sy == -1.0 ==> v * near == bottom * depth
    requires sy == 1.0 ==> v * near == top * depth
    requires sy == -1.0 || sy == 1.0
    requires (depth == near && sz == -1.0) || (depth == far && sz == 1.0)
    ensures Vec3Apply.ProjectionW(Vec3.Vector3(u, v, -depth), MakeFrustum(left, right, bottom, top, near, far)) == depth
    ensures Vec3Apply.ApplyMatrix4(Vec3.Vector3(u, v, -depth), MakeFrustum(left, right, bottom, top, near, far))
              == Vec3.Vector3(sx * depth, sy * depth, sz * depth)
  {
    FrustumRowX(left, right, bottom, top, near, far, u, v, depth, sx);
    FrustumRowY(left, right, bottom, top, near, far, u, v, depth, sy);
    FrustumRowZ(left, right, bottom, top, near, far, u, v, depth, sz);
  }

  lemma FrustumRowX(left: real, right: real, bottom: real, top: real, near: real, far: real,
                     u: real, v: real, depth: real, sx: real)
    requires right != left && top != bottom && far != near && near != 0.0
    requires sx == -1.0 ==> u * near == left * depth
    requires sx == 1.0 ==> u * near == right * depth
    requires sx == -1.0 || sx == 1.0
    ensures Vec3Apply.ApplyMatrix4(Vec3.Vector3(u, v, -depth), MakeFrustum(left, right, bottom, top, near, far)).x == sx * depth
  {
    Vec3Apply.ApplyMatrix4Components(Vec3.Vector3(u, v, -depth), MakeFrustum(left, right, bottom, top, near, far));
    PerspectiveEdge(left, right, near, u, depth, sx);
  }

  lemma FrustumRowY(left: real, right: real, bottom: real, top: real, near: real, far: real,
                     u: real, v: real, depth: real, sy: real)
    requires right != left && top != bottom && far != near && near != 0.0
    requires sy == -1.0 ==> v * near == bottom * depth
    requires sy == 1.0 ==> v * near == top * depth
    requires sy == -1.0 || sy == 1.0
    ensures Vec3Apply.ApplyMatrix4(Vec3.Vector3(u, v, -depth), MakeFrustum(left, right, bottom, top, near, far)).y == sy * depth
  {
    Vec3Apply.ApplyMatrix4Components(Vec3.Vector3(u, v, -depth), MakeFrustum(left, right, bottom, top, near, far));
    PerspectiveEdge(bottom, top, near, v, depth, sy);
  }

  lemma FrustumRowZ(left: real, right: real, bottom: real, top: real, near: real, far: real,
                     u: real, v: real, depth: real, sz: real)
    requires right != left && top != bottom && far != near
    requires (depth == near && sz == -1.0) || (depth == far && sz == 1.0)
    ensures Vec3Apply.ApplyMatrix4(Vec3.Vector3(u, v, -depth), MakeFrustum(left, right, bottom, top, near, far)).z == sz * depth
  {
    Vec3Apply.ApplyMatrix4Components(Vec3.Vector3(u, v, -depth), MakeFrustum(left, right, bottom, top, near, far));
    PerspectiveDepth(near, far, depth, sz);
  }

  /** One row of the perspective matrix on an edge point: `u` at depth `depth`
      lies on the plane through the edge `lo` (or `hi`) of the near rectangle. */
  lemma PerspectiveEdge(lo: real, hi: real, near: real, u: real, depth: real, s: real)
    requires hi != lo && near != 0.0
    requires s == -1.0 ==> u * near == lo * depth
    requires s == 1.0 ==> u * near == hi * depth
    requires s == -1.0 || s == 1.0
    ensures 2.0 * near / (hi - lo) * u + (hi + lo) / (hi - lo) * -depth == s * depth
  {
    var w := hi - lo;
    assert 2.0 * near / w * u == 2.0 * (u * near) / w;
    assert (hi + lo) / w * -depth == -((hi + lo) * depth) / w;
    if s == -1.0 {
      assert 2.0 * (lo * depth) - (hi + lo) * depth == -depth * w;
    } else {
      assert 2.0 * (hi * depth) - (hi + lo) * depth == depth * w;
    }
  }

  /** The depth row of the perspective matrix sends depth `near` to `-1` and
      depth `far` to `1` (before the division by `w`). */
  lemma PerspectiveDepth(near: real, far: real, depth: real, s: real)
    requires far != near
    requires (depth == near && s == -1.0) || (depth == far && s == 1.0)
    ensures -(far + near) / (far - near) * -depth + -2.0 * far * near / (far - near) == s * depth
  {
    var p := far - near;
    assert -(far + near) / p * -depth + -2.0 * far * near / p == ((far + near) * depth - 2.0 * far * near) / p;
    if s == -1.0 {
      assert (far + near) * near - 2.0 * far * near == -near * p;
    } else {
      assert (far + near) * far - 2.0 * far * near == far * p;
    }
  }

  /** Scaling a near-plane coordinate out to the far plane. */
  lemma ScaleBack(c: real, far: real, near: real)
    requires near != 0.0
    ensures c * far / near * near == c * far
  {
  }

  /** Cancelling a nonzero factor. */
  lemma DivideOut(q: real, s: real, w: real)
    requires w != 0.0 && q * w == s * w
    ensures q == s
  {
    assert (q - s) * w == 0.0;
  }

  /** `makeOrthographic` is affine, and sends the near-bottom-left corner of the
      box to `(-1, -1, -1)` and its far-top-right corner to `(1, 1, 1)`. */
  lemma OrthographicMapsBox(left: real, right: real, top: real, bottom: real, near: real, far: real)
    requires right != left && top != bottom && far != near
    ensures Vec3Apply.IsAffine(MakeOrthographic(left, right, top, bottom, near, far))
    ensures Vec3Apply.ApplyMatrix4(Vec3.Vector3(left, bottom, -near), MakeOrthographic(left, right, top, bottom, near, far))
              == Vec3.Vector3(-1.0, -1.0, -1.0)
    ensures Vec3Apply.ApplyMatrix4(Vec3.Vector3(right, top, -far), MakeOrthographic(left, right, top, bottom, near, far))
              == Vec3.Vector3(1.0, 1.0, 1.0)
  {
    OrthographicEdge(left, right);
    OrthographicEdge(bottom, top);
    OrthographicDepth(near, far);
  }

  /** The depth row of the orthographic matrix: depth `-near` goes to `-1` and
      depth `-far` to `1`. */
  lemma OrthographicDepth(near: real, far: real)
    requires far != near
    ensures -2.0 / (far - near) * -near + -((far + near) / (far - near)) == -1.0
    ensures -2.0 / (far - near) * -far + -((far + near) / (far - near)) == 1.0
  {
    var p := far - near;
    assert -2.0 / p * -near + -((far + near) / p) == (near - far) / p;
    assert -2.0 / p * -far + -((far + near) / p) == (far - near) / p;
  }

  /** One row of the orthographic matrix: `lo` goes to `-1` and `hi` to `1`. */
  lemma OrthographicEdge(lo: real, hi: real)
    requires hi != lo
    ensures 2.0 / (hi - lo) * lo - (hi + lo) / (hi - lo) == -1.0
    ensures 2.0 / (hi - lo) * hi - (hi + lo) / (hi - lo) == 1.0
  {
    var w := hi - lo;
    assert 2.0 / w * lo - (hi + lo) / w == (lo - hi) / w;
    assert 2.0 / w * hi - (hi + lo) / w == (hi - lo) / w;
  }
}
