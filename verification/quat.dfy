/** Quaternions `(x, y, z, w)` with `w` the scalar part: the Hamilton product,
    conjugate, dot, `lengthSq`, `normalize` with the length supplied by the
    caller, and the endpoint branches of `slerp`. */
module Quat {
  import opened Wrappers

  datatype Quaternion = Quaternion(x: real, y: real, z: real, w: real)

  /** The default constructor: `(0, 0, 0, 1)`, the rotation by angle zero. */
  function Identity(): Quaternion {
    Quaternion(0.0, 0.0, 0.0, 1.0)
  }

  /** `conjugate`: multiplies `x`, `y` and `z` by -1 and keeps `w`. */
  function Conjugate(q: Quaternion): (r: Quaternion)
    ensures r.x == -q.x && r.y == -q.y && r.z == -q.z && r.w == q.w
  {
    Quaternion(q.x * -1.0, q.y * -1.0, q.z * -1.0, q.w)
  }

  /** Conjugating twice restores the quaternion. */
  lemma ConjugateInvolution(q: Quaternion)
    ensures Conjugate(Conjugate(q)) == q
  {
  }

  function Dot(a: Quaternion, b: Quaternion): real {
    a.x * b.x + a.y * b.y + a.z * b.z + a.w * b.w
  }

  function LengthSq(q: Quaternion): real {
    q.x * q.x + q.y * q.y + q.z * q.z + q.w * q.w
  }

  /** `lengthSq` is `dot` of a quaternion with itself, and conjugation keeps it. */
  lemma LengthSqConjugate(q: Quaternion)
    ensures LengthSq(q) == Dot(q, q)
    ensures LengthSq(Conjugate(q)) == LengthSq(q)
  {
    var c := Conjugate(q);
    calc {
      LengthSq(c);
      (-q.x) * (-q.x) + (-q.y) * (-q.y) + (-q.z) * (-q.z) + q.w * q.w;
      { NegSquare(q.x); NegSquare(q.y); NegSquare(q.z); }
      LengthSq(q);
    }
  }

  lemma NegSquare(a: real)
    ensures (-a) * (-a) == a * a
  {
  }

  /** `multiplyQuaternions`: the Hamilton product `a * b`. */
  function MultiplyQuaternions(a: Quaternion, b: Quaternion): Quaternion {
    var qax, qay, qaz, qaw := a.x, a.y, a.z, a.w;
    var qbx, qby, qbz, qbw := b.x, b.y, b.z, b.w;
    Quaternion(
      qax * qbw + qaw * qbx + qay * qbz - qaz * qby,
      qay * qbw + qaw * qby + qaz * qbx - qax * qbz,
      qaz * qbw + qaw * qbz + qax * qby - qay * qbx,
      qaw * qbw - qax * qbx - qay * qby - qaz * qbz)
  }

  /** `multiply(q)`: the receiver times `q`. All eight inputs are read before
      any output is written, so the in-place call is the plain product. */
  function Multiply(q: Quaternion, p: Quaternion): (r: Quaternion)
    ensures LengthSq(r) == LengthSq(q) * LengthSq(p)
    ensures Conjugate(r) == MultiplyQuaternions(Conjugate(p), Conjugate(q))
    ensures p == Identity() ==> r == q
  {
    var a := q;
    LengthSqMultiplicative(a, p);
    ConjugateOfProduct(a, p);
    IdentityNeutral(a);
    MultiplyQuaternions(a, p)
  }

  /** The default quaternion is a two-sided neutral element of the product. */
  lemma IdentityNeutral(q: Quaternion)
    ensures MultiplyQuaternions(Identity(), q) == q
    ensures MultiplyQuaternions(q, Identity()) == q
  {
  }

  /** The four components of the Hamilton product. */
  lemma ProductComponents(a: Quaternion, b: Quaternion)
    ensures MultiplyQuaternions(a, b).x == a.x * b.w + a.w * b.x + a.y * b.z - a.z * b.y
    ensures MultiplyQuaternions(a, b).y == a.y * b.w + a.w * b.y + a.z * b.x - a.x * b.z
    ensures MultiplyQuaternions(a, b).z == a.z * b.w + a.w * b.z + a.x * b.y - a.y * b.x
    ensures MultiplyQuaternions(a, b).w == a.w * b.w - a.x * b.x - a.y * b.y - a.z * b.z
  {
  }

  /** The Hamilton product is associative. */
  lemma MultiplyAssociative(a: Quaternion, b: Quaternion, c: Quaternion)
    ensures MultiplyQuaternions(MultiplyQuaternions(a, b), c) == MultiplyQuaternions(a, MultiplyQuaternions(b, c))
  {
    AssociativeAtX(a, b, c);
    AssociativeAtY(a, b, c);
    AssociativeAtZ(a, b, c);
    AssociativeAtW(a, b, c);
  }

  lemma AssociativeAtX(a: Quaternion, b: Quaternion, c: Quaternion)
    ensures MultiplyQuaternions(MultiplyQuaternions(a, b), c).x == MultiplyQuaternions(a, MultiplyQuaternions(b, c)).x
  {
    var ab := MultiplyQuaternions(a, b);
    var bc := MultiplyQuaternions(b, c);
    ProductComponents(a, b);
    ProductComponents(b, c);
    ProductComponents(ab, c);
    ProductComponents(a, bc);
    AssociativeX(a.x, a.y, a.z, a.w, b.x, b.y, b.z, b.w, c.x, c.y, c.z, c.w, ab.x, ab.y, ab.z, ab.w, bc.x, bc.y, bc.z, bc.w,
                MultiplyQuaternions(ab, c).x, MultiplyQuaternions(a, bc).x);
  }

  lemma AssociativeAtY(a: Quaternion, b: Quaternion, c: Quaternion)
    ensures MultiplyQuaternions(MultiplyQuaternions(a, b), c).y == MultiplyQuaternions(a, MultiplyQuaternions(b, c)).y
  {
    var ab := MultiplyQuaternions(a, b);
    var bc := MultiplyQuaternions(b, c);
    ProductComponents(a, b);
    ProductComponents(b, c);
    ProductComponents(ab, c);
    ProductComponents(a, bc);
    AssociativeY(a.x, a.y, a.z, a.w, b.x, b.y, b.z, b.w, c.x, c.y, c.z, c.w, ab.x, ab.y, ab.z, ab.w, bc.x, bc.y, bc.z, bc.w,
                MultiplyQuaternions(ab, c).y, MultiplyQuaternions(a, bc).y);
  }

  lemma AssociativeAtZ(a: Quaternion, b: Quaternion, c: Quaternion)
    ensures MultiplyQuaternions(MultiplyQuaternions(a, b), c).z == MultiplyQuaternions(a, MultiplyQuaternions(b, c)).z
  {
    var ab := MultiplyQuaternions(a, b);
    var bc := MultiplyQuaternions(b, c);
    ProductComponents(a, b);
    ProductComponents(b, c);
    ProductComponents(ab, c);
    ProductComponents(a, bc);
    AssociativeZ(a.x, a.y, a.z, a.w, b.x, b.y, b.z, b.w, c.x, c.y, c.z, c.w, ab.x, ab.y, ab.z, ab.w, bc.x, bc.y, bc.z, bc.w,
                MultiplyQuaternions(ab, c).z, MultiplyQuaternions(a, bc).z);
  }

  lemma AssociativeAtW(a: Quaternion, b: Quaternion, c: Quaternion)
    ensures MultiplyQuaternions(MultiplyQuaternions(a, b), c).w == MultiplyQuaternions(a, MultiplyQuaternions(b, c)).w
  {
    var ab := MultiplyQuaternions(a, b);
    var bc := MultiplyQuaternions(b, c);
    ProductComponents(a, b);
    ProductComponents(b, c);
    ProductComponents(ab, c);
    ProductComponents(a, bc);
    AssociativeW(a.x, a.y, a.z, a.w, b.x, b.y, b.z, b.w, c.x, c.y, c.z, c.w, ab.x, ab.y, ab.z, ab.w, bc.x, bc.y, bc.z, bc.w,
                MultiplyQuaternions(ab, c).w, MultiplyQuaternions(a, bc).w);
  }

  // The four components of associativity as polynomial identities, with
  // `p` standing for `a * b` and `q` for `b * c`.

  lemma AssociativeX(a1: real, a2: real, a3: real, a4: real, b1: real, b2: real, b3: real, b4: real, c1: real, c2: real, c3: real, c4: real, p1: real, p2: real, p3: real, p4: real, q1: real, q2: real, q3: real, q4: real, l: real, r: real)
    requires p1 == a1 * b4 + a4 * b1 + a2 * b3 - a3 * b2
    requires p2 == a2 * b4 + a4 * b2 + a3 * b1 - a1 * b3
    requires p3 == a3 * b4 + a4 * b3 + a1 * b2 - a2 * b1
    requires p4 == a4 * b4 - a1 * b1 - a2 * b2 - a3 * b3
    requires q1 == b1 * c4 + b4 * c1 + b2 * c3 - b3 * c2
    requires q2 == b2 * c4 + b4 * c2 + b3 * c1 - b1 * c3
    requires q3 == b3 * c4 + b4 * c3 + b1 * c2 - b2 * c1
    requires q4 == b4 * c4 - b1 * c1 - b2 * c2 - b3 * c3
    requires l == p1 * c4 + p4 * c1 + p2 * c3 - p3 * c2
    requires r == a1 * q4 + a4 * q1 + a2 * q3 - a3 * q2
    ensures l == r
  {
  }

  lemma AssociativeY(a1: real, a2: real, a3: real, a4: real, b1: real, b2: real, b3: real, b4: real, c1: real, c2: real, c3: real, c4: real, p1: real, p2: real, p3: real, p4: real, q1: real, q2: real, q3: real, q4: real, l: real, r: real)
    requires p1 == a1 * b4 + a4 * b1 + a2 * b3 - a3 * b2
    requires p2 == a2 * b4 + a4 * b2 + a3 * b1 - a1 * b3
    requires p3 == a3 * b4 + a4 * b3 + a1 * b2 - a2 * b1
    requires p4 == a4 * b4 - a1 * b1 - a2 * b2 - a3 * b3
    requires q1 == b1 * c4 + b4 * c1 + b2 * c3 - b3 * c2
    requires q2 == b2 * c4 + b4 * c2 + b3 * c1 - b1 * c3
    requires q3 == b3 * c4 + b4 * c3 + b1 * c2 - b2 * c1
    requires q4 == b4 * c4 - b1 * c1 - b2 * c2 - b3 * c3
    requires l == p2 * c4 + p4 * c2 + p3 * c1 - p1 * c3
    requires r == a2 * q4 + a4 * q2 + a3 * q1 - a1 * q3
    ensures l == r
  {
  }

  lemma AssociativeZ(a1: real, a2: real, a3: real, a4: real, b1: real, b2: real, b3: real, b4: real, c1: real, c2: real, c3: real, c4: real, p1: real, p2: real, p3: real, p4: real, q1: real, q2: real, q3: real, q4: real, l: real, r: real)
    requires p1 == a1 * b4 + a4 * b1 + a2 * b3 - a3 * b2
    requires p2 == a2 * b4 + a4 * b2 + a3 * b1 - a1 * b3
    requires p3 == a3 * b4 + a4 * b3 + a1 * b2 - a2 * b1
    requires p4 == a4 * b4 - a1 * b1 - a2 * b2 - a3 * b3
    requires q1 == b1 * c4 + b4 * c1 + b2 * c3 - b3 * c2
    requires q2 == b2 * c4 + b4 * c2 + b3 * c1 - b1 * c3
    requires q3 == b3 * c4 + b4 * c3 + b1 * c2 - b2 * c1
    requires q4 == b4 * c4 - b1 * c1 - b2 * c2 - b3 * c3
    requires l == p3 * c4 + p4 * c3 + p1 * c2 - p2 * c1
    requires r == a3 * q4 + a4 * q3 + a1 * q2 - a2 * q1
    ensures l == r
  {
  }

  lemma AssociativeW(a1: real, a2: real, a3: real, a4: real, b1: real, b2: real, b3: real, b4: real, c1: real, c2: real, c3: real, c4: real, p1: real, p2: real, p3: real, p4: real, q1: real, q2: real, q3: real, q4: real, l: real, r: real)
    requires p1 == a1 * b4 + a4 * b1 + a2 * b3 - a3 * b2
    requires p2 == a2 * b4 + a4 * b2 + a3 * b1 - a1 * b3
    requires p3 == a3 * b4 + a4 * b3 + a1 * b2 - a2 * b1
    requires p4 == a4 * b4 - a1 * b1 - a2 * b2 - a3 * b3
    requires q1 == b1 * c4 + b4 * c1 + b2 * c3 - b3 * c2
    requires q2 == b2 * c4 + b4 * c2 + b3 * c1 - b1 * c3
    requires q3 == b3 * c4 + b4 * c3 + b1 * c2 - b2 * c1
    requires q4 == b4 * c4 - b1 * c1 - b2 * c2 - b3 * c3
    requires l == p4 * c4 - p1 * c1 - p2 * c2 - p3 * c3
    requires r == a4 * q4 - a1 * q1 - a2 * q2 - a3 * q3
    ensures l == r
  {
  }

  /** Euler's four-square identity: the squared length is multiplicative. */
  lemma LengthSqMultiplicative(a: Quaternion, b: Quaternion)
    ensures LengthSq(MultiplyQuaternions(a, b)) == LengthSq(a) * LengthSq(b)
  {
    var p := MultiplyQuaternions(a, b);
    FourSquare(a.x, a.y, a.z, a.w, b.x, b.y, b.z, b.w, p.x, p.y, p.z, p.w);
  }

  /** Euler's identity on plain reals, `p` standing for the product. */
  lemma FourSquare(a1: real, a2: real, a3: real, a4: real, b1: real, b2: real, b3: real, b4: real, p1: real, p2: real, p3: real, p4: real)
    requires p1 == a1 * b4 + a4 * b1 + a2 * b3 - a3 * b2
    requires p2 == a2 * b4 + a4 * b2 + a3 * b1 - a1 * b3
    requires p3 == a3 * b4 + a4 * b3 + a1 * b2 - a2 * b1
    requires p4 == a4 * b4 - a1 * b1 - a2 * b2 - a3 * b3
    ensures p1 * p1 + p2 * p2 + p3 * p3 + p4 * p4
         == (a1 * a1 + a2 * a2 + a3 * a3 + a4 * a4) * (b1 * b1 + b2 * b2 + b3 * b3 + b4 * b4)
  {
  }

  /** `q * conjugate(q)` is the real quaternion `|q|^2`. */
  lemma MultiplyConjugate(q: Quaternion)
    ensures MultiplyQuaternions(q, Conjugate(q)) == Quaternion(0.0, 0.0, 0.0, LengthSq(q))
  {
    var c := Conjugate(q);
    var r := MultiplyQuaternions(q, c);
    ConjugateProduct(q.x, q.y, q.z, q.w, c.x, c.y, c.z, c.w);
    assert r.x == 0.0 && r.y == 0.0 && r.z == 0.0;
  }

  lemma ConjugateProduct(x: real, y: real, z: real, w: real, c1: real, c2: real, c3: real, c4: real)
    requires c1 == -x && c2 == -y && c3 == -z && c4 == w
    ensures x * c4 + w * c1 + y * c3 - z * c2 == 0.0
    ensures y * c4 + w * c2 + z * c1 - x * c3 == 0.0
    ensures z * c4 + w * c3 + x * c2 - y * c1 == 0.0
    ensures w * c4 - x * c1 - y * c2 - z * c3 == x * x + y * y + z * z + w * w
  {
  }

  /** The conjugate of a product is the product of the conjugates in reverse order. */
  lemma ConjugateOfProduct(a: Quaternion, b: Quaternion)
    ensures Conjugate(MultiplyQuaternions(a, b)) == MultiplyQuaternions(Conjugate(b), Conjugate(a))
  {
    var p := MultiplyQuaternions(a, b);
    var ca, cb := Conjugate(a), Conjugate(b);
    ConjugateReversed(a.x, a.y, a.z, a.w, b.x, b.y, b.z, b.w, p.x, p.y, p.z, p.w,
                      ca.x, ca.y, ca.z, ca.w, cb.x, cb.y, cb.z, cb.w);
  }

  lemma ConjugateReversed(a1: real, a2: real, a3: real, a4: real, b1: real, b2: real, b3: real, b4: real, p1: real, p2: real, p3: real, p4: real, ca1: real, ca2: real, ca3: real, ca4: real, cb1: real, cb2: real, cb3: real, cb4: real)
    requires p1 == a1 * b4 + a4 * b1 + a2 * b3 - a3 * b2
    requires p2 == a2 * b4 + a4 * b2 + a3 * b1 - a1 * b3
    requires p3 == a3 * b4 + a4 * b3 + a1 * b2 - a2 * b1
    requires p4 == a4 * b4 - a1 * b1 - a2 * b2 - a3 * b3
    requires ca1 == -a1 && ca2 == -a2 && ca3 == -a3 && ca4 == a4
    requires cb1 == -b1 && cb2 == -b2 && cb3 == -b3 && cb4 == b4
    ensures -p1 == cb1 * ca4 + cb4 * ca1 + cb2 * ca3 - cb3 * ca2
    ensures -p2 == cb2 * ca4 + cb4 * ca2 + cb3 * ca1 - cb1 * ca3
    ensures -p3 == cb3 * ca4 + cb4 * ca3 + cb1 * ca2 - cb2 * ca1
    ensures p4 == cb4 * ca4 - cb1 * ca1 - cb2 * ca2 - cb3 * ca3
  {
  }

  /** `normalize`, given `l`, the value `length()` computes (the square root of
      `lengthSq`). A zero quaternion becomes the identity; any other is divided
      by its length and so has unit length afterwards (see `NormalizeUnit`). */
  function Normalize(q: Quaternion, l: real): (r: Quaternion)
    requires l >= 0.0 && l * l == LengthSq(q)
    ensures l == 0.0 ==> r == Identity()
    ensures l != 0.0 ==> r == Quaternion(q.x / l, q.y / l, q.z / l, q.w / l)
  {
    if l == 0.0 then
      Quaternion(0.0, 0.0, 0.0, 1.0)
    else
      var k := 1.0 / l;
      Quaternion(q.x * k, q.y * k, q.z * k, q.w * k)
  }

  /** A normalized quaternion has unit length, whatever the input. */
  lemma NormalizeUnit(q: Quaternion, l: real)
    requires l >= 0.0 && l * l == LengthSq(q)
    ensures LengthSq(Normalize(q, l)) == 1.0
  {
    if l != 0.0 {
      var k := 1.0 / l;
      var r := Normalize(q, l);
      assert r == Quaternion(q.x * k, q.y * k, q.z * k, q.w * k);
      ScaledLengthSq(q.x, q.y, q.z, q.w, k);
      ReciprocalSquare(l, k);
      calc {
        LengthSq(r);
        (q.x * k) * (q.x * k) + (q.y * k) * (q.y * k) + (q.z * k) * (q.z * k) + (q.w * k) * (q.w * k);
        (q.x * q.x + q.y * q.y + q.z * q.z + q.w * q.w) * (k * k);
        (l * l) * (k * k);
        1.0;
      }
    }
  }

  lemma ScaledLengthSq(a: real, b: real, c: real, d: real, k: real)
    ensures (a * k) * (a * k) + (b * k) * (b * k) + (c * k) * (c * k) + (d * k) * (d * k)
         == (a * a + b * b + c * c + d * d) * (k * k)
  {
  }

  lemma ReciprocalSquare(l: real, k: real)
    requires l != 0.0 && k == 1.0 / l
    ensures (l * l) * (k * k) == 1.0
  {
    assert l * k == 1.0;
    assert (l * l) * (k * k) == (l * k) * (l * k);
  }

  /** Normalizing a quaternion that already has unit length changes nothing. */
  lemma NormalizeUnitIdentity(q: Quaternion)
    requires LengthSq(q) == 1.0
    ensures Normalize(q, 1.0) == q
  {
  }

  /** `inverse`: conjugate, then normalize; `l` is the length of the receiver,
      which conjugation does not change. */
  function Inverse(q: Quaternion, l: real): (r: Quaternion)
    requires l >= 0.0 && l * l == LengthSq(q)
    ensures l == 0.0 ==> r == Identity()
  {
    LengthSqConjugate(q);
    Normalize(Conjugate(q), l)
  }

  /** For a unit quaternion the inverse undoes the rotation: `q * q^-1` is the identity. */
  lemma InverseOfUnit(q: Quaternion)
    requires LengthSq(q) == 1.0
    ensures MultiplyQuaternions(q, Inverse(q, 1.0)) == Identity()
  {
    LengthSqConjugate(q);
    assert Inverse(q, 1.0) == Conjugate(q);
    MultiplyConjugate(q);
  }

  /** `slerp(qb, t)` on the receiver `qa`, for the branches that need no square
      root or trigonometry: `t == 0` keeps `qa`, `t == 1` gives `qb`, and when
      `qa` and `qb` (or `-qb`, whichever is on the same side) are at most zero
      apart (`cos(theta/2) >= 1`) the receiver comes back unchanged. `None`
      stands for the remaining, trigonometric branches. */
  function Slerp(qa: Quaternion, qb: Quaternion, t: real): (r: Option<Quaternion>)
    ensures t == 0.0 ==> r == Some(qa)
    ensures t != 0.0 && t == 1.0 ==> r == Some(qb)
    ensures r.Some? ==> r.value == qa || r.value == qb
  {
    if t == 0.0 then Some(qa)
    else if t == 1.0 then Some(qb)
    else
      var cosHalfTheta := Dot(qa, qb);
      var c := if cosHalfTheta < 0.0 then -cosHalfTheta else cosHalfTheta;
      if c >= 1.0 then Some(qa) else None
  }

  /** Interpolating from a unit quaternion to itself, or to its negation (the
      same rotation), returns the start at every `t`. */
  lemma SlerpSameRotation(q: Quaternion, t: real)
    requires LengthSq(q) == 1.0
    ensures Slerp(q, q, t) == Some(q)
    ensures Slerp(q, Quaternion(-q.x, -q.y, -q.z, -q.w), t).Some?
    ensures t != 1.0 ==> Slerp(q, Quaternion(-q.x, -q.y, -q.z, -q.w), t) == Some(q)
  {
    var n := Quaternion(-q.x, -q.y, -q.z, -q.w);
    calc {
      Dot(q, n);
      q.x * (-q.x) + q.y * (-q.y) + q.z * (-q.z) + q.w * (-q.w);
      -(q.x * q.x + q.y * q.y + q.z * q.z + q.w * q.w);
      -LengthSq(q);
    }
  }

  /** `equals`: exact componentwise comparison. */
  function Equals(a: Quaternion, b: Quaternion): (r: bool)
    ensures r <==> a == b
  {
    b.x == a.x && b.y == a.y && b.z == a.z && b.w == a.w
  }
}
