/** Two-component vectors. Unlike `Vector3`, several operations here are written
    with explicit comparisons (`min`, `max`, `clamp`) and `divideScalar` has a
    zero-divisor fallback instead of an assertion. */
module Vec2 {
  import MathUtil

  datatype Vector2 = Vector2(x: real, y: real)

  /** Component index accepted by `setComponent` / `getComponent`. */
  type Axis = i: int | 0 <= i < 2

  /** The default constructor: both components zero. */
  function Zero(): Vector2 {
    Vector2(0.0, 0.0)
  }

  /** `setScalar`: the same value in both components. */
  function Scalar(s: real): Vector2 {
    Vector2(s, s)
  }

  /** `width()` reads `x`. */
  function Width(v: Vector2): real {
    v.x
  }

  /** `height()` reads `y`. */
  function Height(v: Vector2): real {
    v.y
  }

  /** `setWidth` writes `x`: afterwards `width()` is the new value and `height()` is unchanged. */
  function SetWidth(v: Vector2, value: real): (r: Vector2)
    ensures Width(r) == value && Height(r) == Height(v)
  {
    v.(x := value)
  }

  /** `setHight` (sic) writes `y`: afterwards `height()` is the new value and `width()` is unchanged. */
  function SetHeight(v: Vector2, value: real): (r: Vector2)
    ensures Height(r) == value && Width(r) == Width(v)
  {
    v.(y := value)
  }

  function GetComponent(v: Vector2, i: Axis): real {
    if i == 0 then v.x else v.y
  }

  /** Writes one component; the index is asserted to be 0 or 1. */
  function SetComponent(v: Vector2, i: Axis, value: real): (r: Vector2)
    ensures GetComponent(r, i) == value
    ensures forall j: Axis :: j != i ==> GetComponent(r, j) == GetComponent(v, j)
  {
    if i == 0 then v.(x := value) else v.(y := value)
  }

  /** Componentwise order. */
  predicate LessEq(a: Vector2, b: Vector2) {
    a.x <= b.x && a.y <= b.y
  }

  /** `add` / `addVectors`; subtracting the same vector undoes it. */
  function Add(v: Vector2, w: Vector2): (r: Vector2)
    ensures Sub(r, w) == v
  {
    Vector2(v.x + w.x, v.y + w.y)
  }

  /** `sub` / `subVectors`. */
  function Sub(v: Vector2, w: Vector2): Vector2 {
    Vector2(v.x - w.x, v.y - w.y)
  }

  /** `addScalar`; `subScalar` undoes it. */
  function AddScalar(v: Vector2, s: real): (r: Vector2)
    ensures SubScalar(r, s) == v
    ensures r == Add(v, Scalar(s))
  {
    Vector2(v.x + s, v.y + s)
  }

  function SubScalar(v: Vector2, s: real): Vector2 {
    Vector2(v.x - s, v.y - s)
  }

  /** `addScaledVector`: adds `w` scaled by `s`. */
  function AddScaledVector(v: Vector2, w: Vector2, s: real): (r: Vector2)
    ensures r == Add(v, MultiplyScalar(w, s))
    ensures s == 0.0 ==> r == v
  {
    Vector2(v.x + w.x * s, v.y + w.y * s)
  }

  /** `multiply`: componentwise product. */
  function Multiply(v: Vector2, w: Vector2): Vector2 {
    Vector2(v.x * w.x, v.y * w.y)
  }

  function MultiplyScalar(v: Vector2, s: real): Vector2 {
    Vector2(v.x * s, v.y * s)
  }

  /** `divide`: componentwise quotient, asserted to have no zero divisor;
      multiplying back by the divisor restores the vector. */
  function Divide(v: Vector2, w: Vector2): (r: Vector2)
    requires w.x != 0.0 && w.y != 0.0
    ensures Multiply(r, w) == v
  {
    Vector2(v.x / w.x, v.y / w.y)
  }

  /** `divideScalar`: a zero scalar yields the zero vector; otherwise the vector
      is scaled by the reciprocal, which scaling by `s` undoes. */
  function DivideScalar(v: Vector2, s: real): (r: Vector2)
    ensures s == 0.0 ==> r == Zero()
    ensures s != 0.0 ==> MultiplyScalar(r, s) == v
  {
    if s != 0.0 then
      var inv := 1.0 / s;
      Vector2(v.x * inv, v.y * inv)
    else
      Vector2(0.0, 0.0)
  }

  /** `min`: replaces a component only when the other one is smaller, which
      yields the componentwise greatest lower bound. */
  function Min(v: Vector2, w: Vector2): (r: Vector2)
    ensures LessEq(r, v) && LessEq(r, w)
    ensures (r.x == v.x || r.x == w.x) && (r.y == v.y || r.y == w.y)
  {
    var x := if v.x > w.x then w.x else v.x;
    var y := if v.y > w.y then w.y else v.y;
    Vector2(x, y)
  }

  /** `max`: the componentwise least upper bound. */
  function Max(v: Vector2, w: Vector2): (r: Vector2)
    ensures LessEq(v, r) && LessEq(w, r)
    ensures (r.x == v.x || r.x == w.x) && (r.y == v.y || r.y == w.y)
  {
    var x := if v.x < w.x then w.x else v.x;
    var y := if v.y < w.y then w.y else v.y;
    Vector2(x, y)
  }

  /** One axis of `clamp`: below the minimum goes to the minimum, otherwise
      above the maximum goes to the maximum. */
  function ClampAxis(value: real, lo: real, hi: real): real {
    if value < lo then lo else if value > hi then hi else value
  }

  /** `clamp`: with ordered bounds the result is inside the box, a point already
      inside is unchanged, and each axis agrees with the scalar `clamp` helper. */
  function Clamp(v: Vector2, lo: Vector2, hi: Vector2): (r: Vector2)
    ensures LessEq(lo, hi) ==> LessEq(lo, r) && LessEq(r, hi)
    ensures LessEq(lo, v) && LessEq(v, hi) ==> r == v
    ensures lo.x <= hi.x ==> r.x == MathUtil.Clamp(v.x, lo.x, hi.x)
    ensures lo.y <= hi.y ==> r.y == MathUtil.Clamp(v.y, lo.y, hi.y)
  {
    Vector2(ClampAxis(v.x, lo.x, hi.x), ClampAxis(v.y, lo.y, hi.y))
  }

  /** With crossed bounds the comparison chain of `Vector2::clamp` picks the
      maximum where the `max(min, min(max, v))` form of the scalar helper (and
      of `Vector3::clamp`) picks the minimum. */
  lemma ClampCrossedBounds()
    ensures Clamp(Vector2(2.0, 0.0), Vector2(1.0, 0.0), Vector2(0.0, 0.0)).x == 0.0
    ensures MathUtil.Clamp(2.0, 1.0, 0.0) == 1.0
  {
  }

  /** `clampScalar`: clamps both components into the same range. */
  function ClampScalar(v: Vector2, lo: real, hi: real): (r: Vector2)
    ensures lo <= hi ==> LessEq(Scalar(lo), r) && LessEq(r, Scalar(hi))
    ensures LessEq(Scalar(lo), v) && LessEq(v, Scalar(hi)) ==> r == v
  {
    Clamp(v, Scalar(lo), Scalar(hi))
  }

  /** `negate`: the additive inverse. */
  function Negate(v: Vector2): (r: Vector2)
    ensures Add(v, r) == Zero()
  {
    Vector2(-v.x, -v.y)
  }

  function Dot(v: Vector2, w: Vector2): real {
    v.x * w.x + v.y * w.y
  }

  function LengthSq(v: Vector2): real {
    v.x * v.x + v.y * v.y
  }

  /** `lengthSq` is `dot` of the vector with itself. */
  lemma LengthSqIsDot(v: Vector2)
    ensures LengthSq(v) == Dot(v, v)
  {
  }

  /** `lengthManhattan`: the sum of absolute components, zero only for the zero vector. */
  function LengthManhattan(v: Vector2): (r: real)
    ensures r >= 0.0
    ensures r == 0.0 <==> v == Zero()
  {
    MathUtil.AbsReal(v.x) + MathUtil.AbsReal(v.y)
  }

  function DistanceToSquared(v: Vector2, w: Vector2): real {
    var dx, dy := v.x - w.x, v.y - w.y;
    dx * dx + dy * dy
  }

  /** The squared distance is the squared length of the difference, and it does
      not depend on the order of the points. */
  lemma DistanceToSquaredSymmetric(v: Vector2, w: Vector2)
    ensures DistanceToSquared(v, w) == LengthSq(Sub(v, w))
    ensures DistanceToSquared(v, w) == DistanceToSquared(w, v)
  {
    calc {
      DistanceToSquared(v, w);
      (v.x - w.x) * (v.x - w.x) + (v.y - w.y) * (v.y - w.y);
      { MathUtil.SquareOfDifference(v.x, w.x);
        MathUtil.SquareOfDifference(v.y, w.y); }
      (w.x - v.x) * (w.x - v.x) + (w.y - v.y) * (w.y - v.y);
      DistanceToSquared(w, v);
    }
  }

  /** `lerp`: moves `v` the fraction `alpha` of the way towards `w`. */
  function Lerp(v: Vector2, w: Vector2, alpha: real): (r: Vector2)
    ensures alpha == 0.0 ==> r == v
    ensures alpha == 1.0 ==> r == w
  {
    Vector2(v.x + (w.x - v.x) * alpha, v.y + (w.y - v.y) * alpha)
  }

  /** `equals`: exact componentwise comparison, i.e. value equality. */
  function Equals(v: Vector2, w: Vector2): (r: bool)
    ensures r <==> v == w
  {
    w.x == v.x && w.y == v.y
  }

  /** `fromArray`: reads entries 0 and 1 (there is no offset parameter). */
  function FromArray(a: seq<real>): Vector2
    requires |a| >= 2
  {
    Vector2(a[0], a[1])
  }

  /** `toArray`: a fresh two-entry array, which `fromArray` reads back. */
  function ToArray(v: Vector2): (r: seq<real>)
    ensures |r| == 2
    ensures FromArray(r) == v
  {
    [v.x, v.y]
  }
}
