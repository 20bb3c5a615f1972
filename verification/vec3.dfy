/** Three-component vectors: the value type under every geometric class of the library. */
module Vec3 {
  import MathUtil

  datatype Vector3 = Vector3(x: real, y: real, z: real)

  /** Component index accepted by `setComponent` / `getComponent`. */
  type Axis = i: int | 0 <= i < 3

  /** The default constructor: all three components zero. */
  function Zero(): Vector3 {
    Vector3(0.0, 0.0, 0.0)
  }

  /** `setScalar`: the same value in every component. */
  function Scalar(s: real): Vector3 {
    Vector3(s, s, s)
  }

  function GetComponent(v: Vector3, i: Axis): real {
    match i
    case 0 => v.x
    case 1 => v.y
    case 2 => v.z
  }

  /** Writes one component; the index is asserted to be 0, 1 or 2. */
  function SetComponent(v: Vector3, i: Axis, value: real): (r: Vector3)
    ensures GetComponent(r, i) == value
    ensures forall j: Axis :: j != i ==> GetComponent(r, j) == GetComponent(v, j)
  {
    match i
    case 0 => v.(x := value)
    case 1 => v.(y := value)
    case 2 => v.(z := value)
  }

  /** Componentwise order: `a` lies below `b` on every axis. */
  predicate LessEq(a: Vector3, b: Vector3) {
    a.x <= b.x && a.y <= b.y && a.z <= b.z
  }

  /** `add` (and `addVectors`); subtracting the same vector undoes it. */
  function Add(v: Vector3, w: Vector3): (r: Vector3)
    ensures Sub(r, w) == v
  {
    Vector3(v.x + w.x, v.y + w.y, v.z + w.z)
  }

  /** `sub` (and `subVectors`). */
  function Sub(v: Vector3, w: Vector3): Vector3 {
    Vector3(v.x - w.x, v.y - w.y, v.z - w.z)
  }

  /** `addScalar`; `subScalar` undoes it. */
  function AddScalar(v: Vector3, s: real): (r: Vector3)
    ensures SubScalar(r, s) == v
    ensures r == Add(v, Scalar(s))
  {
    Vector3(v.x + s, v.y + s, v.z + s)
  }

  function SubScalar(v: Vector3, s: real): Vector3 {
    Vector3(v.x - s, v.y - s, v.z - s)
  }

  function MultiplyScalar(v: Vector3, s: real): Vector3 {
    Vector3(v.x * s, v.y * s, v.z * s)
  }

  /** `addScaledVector`: adds `w` scaled by `s`. */
  function AddScaledVector(v: Vector3, w: Vector3, s: real): (r: Vector3)
    ensures r == Add(v, MultiplyScalar(w, s))
    ensures s == 0.0 ==> r == v
  {
    Vector3(v.x + w.x * s, v.y + w.y * s, v.z + w.z * s)
  }

  /** `multiply` / `multiplyVectors`: componentwise product. */
  function Multiply(v: Vector3, w: Vector3): Vector3 {
    Vector3(v.x * w.x, v.y * w.y, v.z * w.z)
  }

  /** `divide`: componentwise quotient, asserted to have no zero divisor. */
  function Divide(v: Vector3, w: Vector3): (r: Vector3)
    requires w.x != 0.0 && w.y != 0.0 && w.z != 0.0
    ensures Multiply(r, w) == v
  {
    Vector3(v.x / w.x, v.y / w.y, v.z / w.z)
  }

  /** `divideScalar`: asserts a non-zero scalar and multiplies by its reciprocal. */
  function DivideScalar(v: Vector3, s: real): (r: Vector3)
    requires s != 0.0
    ensures MultiplyScalar(r, s) == v
  {
    var inv := 1.0 / s;
    Vector3(v.x * inv, v.y * inv, v.z * inv)
  }

  /** `std::min(a, b)` on doubles. */
  function MinReal(a: real, b: real): real {
    if b < a then b else a
  }

  function MaxReal(a: real, b: real): real {
    if a < b then b else a
  }

  /** `min`: the componentwise greatest lower bound of the two vectors. */
  function Min(v: Vector3, w: Vector3): (r: Vector3)
    ensures LessEq(r, v) && LessEq(r, w)
    ensures forall u: Vector3 :: LessEq(u, v) && LessEq(u, w) ==> LessEq(u, r)
  {
    Vector3(MinReal(v.x, w.x), MinReal(v.y, w.y), MinReal(v.z, w.z))
  }

  /** `max`: the componentwise least upper bound of the two vectors. */
  function Max(v: Vector3, w: Vector3): (r: Vector3)
    ensures LessEq(v, r) && LessEq(w, r)
    ensures forall u: Vector3 :: LessEq(v, u) && LessEq(w, u) ==> LessEq(r, u)
  {
    Vector3(MaxReal(v.x, w.x), MaxReal(v.y, w.y), MaxReal(v.z, w.z))
  }

  /** `clamp`: `max(lo, min(hi, v))` on each axis. */
  function Clamp(v: Vector3, lo: Vector3, hi: Vector3): (r: Vector3)
    ensures LessEq(lo, hi) ==> LessEq(lo, r) && LessEq(r, hi)
    ensures LessEq(lo, v) && LessEq(v, hi) ==> r == v
    ensures forall i: Axis :: GetComponent(r, i) == MathUtil.Clamp(GetComponent(v, i), GetComponent(lo, i), GetComponent(hi, i))
  {
    Max(lo, Min(hi, v))
  }

  /** `clampScalar`: clamps every component into the same range. */
  function ClampScalar(v: Vector3, lo: real, hi: real): (r: Vector3)
    ensures lo <= hi ==> LessEq(Scalar(lo), r) && LessEq(r, Scalar(hi))
    ensures LessEq(Scalar(lo), v) && LessEq(v, Scalar(hi)) ==> r == v
  {
    Clamp(v, Scalar(lo), Scalar(hi))
  }

  /** `negate`: the additive inverse. */
  function Negate(v: Vector3): (r: Vector3)
    ensures Add(v, r) == Zero()
  {
    Vector3(-v.x, -v.y, -v.z)
  }

  function Dot(v: Vector3, w: Vector3): real {
    v.x * w.x + v.y * w.y + v.z * w.z
  }

  /** `lengthSq`: the squared Euclidean length. */
  function LengthSq(v: Vector3): real {
    v.x * v.x + v.y * v.y + v.z * v.z
  }

  /** `lengthSq` is `dot` of a vector with itself, it is never negative, and it is
      zero exactly for the zero vector. */
  lemma LengthSqZero(v: Vector3)
    ensures LengthSq(v) == Dot(v, v)
    ensures LengthSq(v) >= 0.0
    ensures LengthSq(v) == 0.0 <==> v == Zero()
  {
    if v == Zero() {
      calc {
        LengthSq(v);
        0.0 * 0.0 + 0.0 * 0.0 + 0.0 * 0.0;
        0.0;
      }
    } else {
      calc {
        LengthSq(v);
        v.x * v.x + v.y * v.y + v.z * v.z;
      > { MathUtil.SumOfSquaresPositive(v.x, v.y, v.z); }
        0.0;
      }
    }
  }

  /** `lengthManhattan`: the sum of absolute components. */
  function LengthManhattan(v: Vector3): (r: real)
    ensures r >= 0.0
    ensures r == 0.0 <==> v == Zero()
  {
    MathUtil.AbsReal(v.x) + MathUtil.AbsReal(v.y) + MathUtil.AbsReal(v.z)
  }

  /** `lerp`: moves `v` the fraction `alpha` of the way towards `w`. */
  function Lerp(v: Vector3, w: Vector3, alpha: real): (r: Vector3)
    ensures alpha == 0.0 ==> r == v
    ensures alpha == 1.0 ==> r == w
  {
    Vector3(v.x + (w.x - v.x) * alpha, v.y + (w.y - v.y) * alpha, v.z + (w.z - v.z) * alpha)
  }

  /** `lerpVectors`: `(v2 - v1) * alpha + v1`. */
  function LerpVectors(v1: Vector3, v2: Vector3, alpha: real): (r: Vector3)
    ensures alpha == 0.0 ==> r == v1
    ensures alpha == 1.0 ==> r == v2
  {
    Add(MultiplyScalar(Sub(v2, v1), alpha), v1)
  }

  /** The two interpolation entry points agree. */
  lemma LerpVectorsIsLerp(v1: Vector3, v2: Vector3, alpha: real)
    ensures LerpVectors(v1, v2, alpha) == Lerp(v1, v2, alpha)
  {
    calc {
      LerpVectors(v1, v2, alpha);
      Add(MultiplyScalar(Sub(v2, v1), alpha), v1);
      Add(MultiplyScalar(Vector3(v2.x - v1.x, v2.y - v1.y, v2.z - v1.z), alpha), v1);
      Vector3((v2.x - v1.x) * alpha + v1.x, (v2.y - v1.y) * alpha + v1.y, (v2.z - v1.z) * alpha + v1.z);
      { LerpComponent(v1.x, v2.x, alpha);
        LerpComponent(v1.y, v2.y, alpha);
        LerpComponent(v1.z, v2.z, alpha); }
      Lerp(v1, v2, alpha);
    }
  }

  lemma LerpComponent(a: real, b: real, alpha: real)
    ensures (b - a) * alpha + a == a + (b - a) * alpha
  {
  }

  /** `crossVectors`: the cross product, orthogonal to both factors. */
  function CrossVectors(a: Vector3, b: Vector3): (r: Vector3)
    ensures Dot(r, a) == 0.0 && Dot(r, b) == 0.0
  {
    Vector3(a.y * b.z - a.z * b.y, a.z * b.x - a.x * b.z, a.x * b.y - a.y * b.x)
  }

  /** In-place `cross`: the old components are saved before any is written,
      so the result is the cross product of the old receiver with `w`. */
  function Cross(v: Vector3, w: Vector3): (r: Vector3)
    ensures r == CrossVectors(v, w)
  {
    var x, y, z := v.x, v.y, v.z;
    var r1 := v.(x := y * w.z - z * w.y);
    var r2 := r1.(y := z * w.x - x * w.z);
    r2.(z := x * w.y - y * w.x)
  }

  /** The cross product is anti-commutative. */
  lemma CrossAntiCommutative(a: Vector3, b: Vector3)
    ensures CrossVectors(a, b) == Negate(CrossVectors(b, a))
  {
  }

  /** `reflect`: removes twice the component of `v` along `normal`. */
  function Reflect(v: Vector3, normal: Vector3): (r: Vector3)
    ensures Dot(normal, normal) == 1.0 ==> Dot(r, normal) == -Dot(v, normal)
  {
    var d := Dot(v, normal);
    ReflectFlips(v, normal);
    Sub(v, MultiplyScalar(normal, 2.0 * d))
  }

  lemma ReflectFlips(v: Vector3, n: Vector3)
    ensures Dot(n, n) == 1.0 ==> Dot(Sub(v, MultiplyScalar(n, 2.0 * Dot(v, n))), n) == -Dot(v, n)
  {
    var d := Dot(v, n);
    var m := MultiplyScalar(n, 2.0 * d);
    assert Dot(Sub(v, m), n) == d - Dot(m, n);
    assert Dot(m, n) == 2.0 * d * Dot(n, n);
  }

  /** Reflecting twice in the same unit normal restores the vector. */
  lemma {:induction false} ReflectTwice(v: Vector3, normal: Vector3)
    requires Dot(normal, normal) == 1.0
    ensures Reflect(Reflect(v, normal), normal) == v
  {
    var d := Dot(v, normal);
    var r := Reflect(v, normal);
    assert Dot(r, normal) == -d;
    assert Reflect(r, normal) == Sub(r, MultiplyScalar(normal, -2.0 * d));
  }

  /** `distanceToSquared`: the sum of the squared coordinate differences. */
  function DistanceToSquared(v: Vector3, w: Vector3): real {
    var dx := v.x - w.x;
    var dy := v.y - w.y;
    var dz := v.z - w.z;
    dx * dx + dy * dy + dz * dz
  }

  /** The squared distance is the squared length of the difference vector. */
  lemma DistanceToSquaredIsLengthSq(v: Vector3, w: Vector3)
    ensures DistanceToSquared(v, w) == LengthSq(Sub(v, w))
  {
  }

  lemma SubZero(v: Vector3, w: Vector3)
    ensures Sub(v, w) == Zero() <==> v == w
  {
    if Sub(v, w) == Zero() {
      assert v.x == w.x && v.y == w.y && v.z == w.z;
    }
  }

  /** The squared distance is never negative, and it is zero exactly between equal points. */
  lemma DistanceToSquaredZero(v: Vector3, w: Vector3)
    ensures DistanceToSquared(v, w) >= 0.0
    ensures DistanceToSquared(v, w) == 0.0 <==> v == w
  {
    DistanceLengthZero(v, w);
    DistanceToSquaredIsLengthSq(v, w);
  }

  lemma DistanceLengthZero(v: Vector3, w: Vector3)
    ensures LengthSq(Sub(v, w)) >= 0.0
    ensures LengthSq(Sub(v, w)) == 0.0 <==> v == w
  {
    SubZero(v, w);
    LengthSqZero(Sub(v, w));
  }

  /** The squared distance does not depend on the order of the points. */
  lemma DistanceSymmetric(v: Vector3, w: Vector3)
    ensures DistanceToSquared(v, w) == DistanceToSquared(w, v)
  {
    calc {
      DistanceToSquared(v, w);
      (v.x - w.x) * (v.x - w.x) + (v.y - w.y) * (v.y - w.y) + (v.z - w.z) * (v.z - w.z);
      { MathUtil.SquareOfDifference(v.x, w.x);
        MathUtil.SquareOfDifference(v.y, w.y);
        MathUtil.SquareOfDifference(v.z, w.z); }
      (w.x - v.x) * (w.x - v.x) + (w.y - v.y) * (w.y - v.y) + (w.z - v.z) * (w.z - v.z);
      DistanceToSquared(w, v);
    }
  }

  /** `equals`: exact componentwise comparison, i.e. value equality. */
  function Equals(v: Vector3, w: Vector3): (r: bool)
    ensures r <==> v == w
  {
    w.x == v.x && w.y == v.y && w.z == v.z
  }

  /** `fromArray`: reads three consecutive entries starting at `offset`. */
  function FromArray(a: seq<real>, offset: nat): Vector3
    requires offset + 3 <= |a|
  {
    Vector3(a[offset], a[offset + 1], a[offset + 2])
  }

  /** `toArray`: writes the components at `offset`; the rest of the array is kept,
      and reading the slot back yields the vector. */
  function ToArray(v: Vector3, a: seq<real>, offset: nat): (r: seq<real>)
    requires offset + 3 <= |a|
    ensures |r| == |a|
    ensures FromArray(r, offset) == v
    ensures forall k :: 0 <= k < |a| && !(offset <= k < offset + 3) ==> r[k] == a[k]
  {
    a[offset := v.x][offset + 1 := v.y][offset + 2 := v.z]
  }
}
