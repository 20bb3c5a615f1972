/** Axis-aligned rectangles in the plane, given by a minimum and a maximum corner. */
module Box2 {
  import MathUtil
  import Vec2

  datatype Box2 = Box2(min: Vec2.Vector2, max: Vec2.Vector2)

  /** `set` / `copy`: both corners are replaced, whatever the receiver held. */
  function Set(b: Box2, min: Vec2.Vector2, max: Vec2.Vector2): (r: Box2)
    ensures Equals(r, Box2(min, max))
  {
    b.(min := min, max := max)
  }

  /** `makeEmpty`: both corners become the origin. The result is the one-point box
      at the origin, which `isEmpty` does not report as empty. */
  function MakeEmpty(b: Box2): (r: Box2)
    ensures !IsEmpty(r)
    ensures forall p: Vec2.Vector2 :: ContainsPoint(r, p) <==> p == Vec2.Zero()
  {
    Box2(Vec2.Zero(), Vec2.Zero())
  }

  /** `isEmpty`: some axis has its maximum below its minimum. */
  predicate IsEmpty(b: Box2) {
    b.max.x < b.min.x || b.max.y < b.min.y
  }

  /** A box is empty exactly when it contains no point. */
  lemma {:induction false} IsEmptyIffNoPoint(b: Box2)
    ensures IsEmpty(b) <==> forall p: Vec2.Vector2 :: !ContainsPoint(b, p)
  {
    if !IsEmpty(b) {
      assert ContainsPoint(b, b.min);
    }
  }

  /** `containsPoint`: the point lies within the bounds on both axes. */
  predicate ContainsPoint(b: Box2, p: Vec2.Vector2) {
    !(p.x < b.min.x || p.x > b.max.x ||
      p.y < b.min.y || p.y > b.max.y)
  }

  /** `containsBox`: the other box's bounds lie within this box's bounds. */
  predicate ContainsBox(a: Box2, b: Box2) {
    a.min.x <= b.min.x && b.max.x <= a.max.x &&
    a.min.y <= b.min.y && b.max.y <= a.max.y
  }

  /** For a non-empty box `b`, `containsBox(a, b)` holds exactly when every point
      of `b` is a point of `a`. */
  lemma {:induction false} ContainsBoxIffPoints(a: Box2, b: Box2)
    requires !IsEmpty(b)
    ensures ContainsBox(a, b) <==> forall p: Vec2.Vector2 :: ContainsPoint(b, p) ==> ContainsPoint(a, p)
  {
    if forall p: Vec2.Vector2 :: ContainsPoint(b, p) ==> ContainsPoint(a, p) {
      assert ContainsPoint(b, b.min) && ContainsPoint(b, b.max);
      assert ContainsPoint(a, b.min) && ContainsPoint(a, b.max);
    }
  }

  /** `containsBox` is reflexive, transitive and antisymmetric: a partial order. */
  lemma ContainsBoxOrder(a: Box2, b: Box2, c: Box2)
    ensures ContainsBox(a, a)
    ensures ContainsBox(a, b) && ContainsBox(b, c) ==> ContainsBox(a, c)
    ensures ContainsBox(a, b) && ContainsBox(b, a) ==> a == b
  {
  }

  /** `center`: the midpoint of the corners, which a non-empty box contains. */
  function Center(b: Box2): (r: Vec2.Vector2)
    ensures Vec2.MultiplyScalar(r, 2.0) == Vec2.Add(b.min, b.max)
    ensures !IsEmpty(b) ==> ContainsPoint(b, r)
  {
    Vec2.MultiplyScalar(Vec2.Add(b.min, b.max), 0.5)
  }

  /** `size`: the extent along each axis; it has a negative component exactly
      when the box is empty. */
  function Size(b: Box2): (r: Vec2.Vector2)
    ensures Vec2.Add(b.min, r) == b.max
    ensures IsEmpty(b) <==> !Vec2.LessEq(Vec2.Zero(), r)
  {
    Vec2.Sub(b.max, b.min)
  }

  /** `setFromCenterAndSize`: the box with the given center and size. */
  function SetFromCenterAndSize(b: Box2, center: Vec2.Vector2, size: Vec2.Vector2): (r: Box2)
    ensures Center(r) == center
    ensures Size(r) == size
  {
    var halfSize := Vec2.MultiplyScalar(size, 0.5);
    Box2(Vec2.Sub(center, halfSize), Vec2.Add(center, halfSize))
  }

  /** `expandByPoint`: the box now contains `point` and everything it held before. */
  function ExpandByPoint(b: Box2, point: Vec2.Vector2): (r: Box2)
    ensures ContainsPoint(r, point)
    ensures ContainsBox(r, b)
    ensures forall q: Vec2.Vector2 :: ContainsPoint(b, q) ==> ContainsPoint(r, q)
  {
    Box2(Vec2.Min(b.min, point), Vec2.Max(b.max, point))
  }

  /** `expandByPoint` grows the box no more than needed: every box holding the old
      box and the point holds the result. */
  lemma ExpandByPointLeast(b: Box2, point: Vec2.Vector2, c: Box2)
    requires ContainsBox(c, b) && ContainsPoint(c, point)
    ensures ContainsBox(c, ExpandByPoint(b, point))
  {
  }

  /** `expandByVector`: pushes the corners apart by `v`; the size grows by `2v`. */
  function ExpandByVector(b: Box2, v: Vec2.Vector2): (r: Box2)
    ensures Size(r) == Vec2.Add(Size(b), Vec2.MultiplyScalar(v, 2.0))
    ensures Vec2.LessEq(Vec2.Zero(), v) ==> ContainsBox(r, b)
  {
    Box2(Vec2.Sub(b.min, v), Vec2.Add(b.max, v))
  }

  /** `expandByScalar`: the same as expanding by `(s, s)`. */
  function ExpandByScalar(b: Box2, s: real): (r: Box2)
    ensures r == ExpandByVector(b, Vec2.Scalar(s))
    ensures s >= 0.0 ==> ContainsBox(r, b)
  {
    Box2(Vec2.AddScalar(b.min, -s), Vec2.AddScalar(b.max, s))
  }

  /** The loop of `setFromPoints`: expands by each point in turn. */
  function ExpandByPoints(b: Box2, points: seq<Vec2.Vector2>): (r: Box2)
    ensures ContainsBox(r, b)
    ensures forall i :: 0 <= i < |points| ==> ContainsPoint(r, points[i])
    decreases |points|
  {
    if |points| == 0 then b
    else
      var r := ExpandByPoints(ExpandByPoint(b, points[0]), points[1..]);
      assert forall i :: 1 <= i < |points| ==> points[i] == points[1..][i - 1];
      r
  }

  /** The expanded box is the least box that holds the start box and the points. */
  lemma {:induction false} ExpandByPointsLeast(b: Box2, points: seq<Vec2.Vector2>, c: Box2)
    requires ContainsBox(c, b)
    requires forall i :: 0 <= i < |points| ==> ContainsPoint(c, points[i])
    ensures ContainsBox(c, ExpandByPoints(b, points))
    decreases |points|
  {
    if |points| > 0 {
      ExpandByPointLeast(b, points[0], c);
      ExpandByPointsLeast(ExpandByPoint(b, points[0]), points[1..], c);
    }
  }

  /** `setFromPoints`: starts from `makeEmpty`, the zero box, and expands by each
      point. So the result always contains the origin as well as every point. */
  function SetFromPoints(b: Box2, points: seq<Vec2.Vector2>): (r: Box2)
    ensures ContainsPoint(r, Vec2.Zero())
    ensures !IsEmpty(r)
    ensures forall i :: 0 <= i < |points| ==> ContainsPoint(r, points[i])
  {
    var e := MakeEmpty(b);
    assert ContainsPoint(e, Vec2.Zero());
    ExpandByPoints(e, points)
  }

  /** The result of `setFromPoints` is the least box holding the points and the origin. */
  lemma {:induction false} SetFromPointsLeast(b: Box2, points: seq<Vec2.Vector2>, c: Box2)
    requires ContainsPoint(c, Vec2.Zero())
    requires forall i :: 0 <= i < |points| ==> ContainsPoint(c, points[i])
    ensures ContainsBox(c, SetFromPoints(b, points))
  {
    ExpandByPointsLeast(MakeEmpty(b), points, c);
  }

  /** `intersectsBox`: no axis separates the two boxes. */
  predicate IntersectsBox(a: Box2, b: Box2) {
    !(b.max.x < a.min.x || b.min.x > a.max.x ||
      b.max.y < a.min.y || b.min.y > a.max.y)
  }

  /** `intersectsBox` is symmetric, and a non-empty box intersects itself. */
  lemma IntersectsBoxSymmetric(a: Box2, b: Box2)
    ensures IntersectsBox(a, b) == IntersectsBox(b, a)
    ensures !IsEmpty(a) ==> IntersectsBox(a, a)
  {
  }

  /** Between non-empty boxes, `intersectsBox` holds exactly when they share a point. */
  lemma {:induction false} IntersectsBoxIffCommonPoint(a: Box2, b: Box2)
    requires !IsEmpty(a) && !IsEmpty(b)
    ensures IntersectsBox(a, b) <==> exists p: Vec2.Vector2 :: ContainsPoint(a, p) && ContainsPoint(b, p)
  {
    if IntersectsBox(a, b) {
      var p := Intersect(a, b).min;
      assert ContainsPoint(a, p) && ContainsPoint(b, p);
    }
  }

  /** `clampPoint`: the point clamped into the box on each axis. It is returned
      unchanged exactly when it is contained (with `Vector2::clamp` this holds
      even for an empty box), and for a non-empty box the result is contained. */
  function ClampPoint(b: Box2, p: Vec2.Vector2): (r: Vec2.Vector2)
    ensures r == p <==> ContainsPoint(b, p)
    ensures !IsEmpty(b) ==> ContainsPoint(b, r)
  {
    Vec2.Clamp(p, b.min, b.max)
  }

  /** `getParameter`: where `point` sits in the box, as a fraction of the size
      along each axis. It divides by the size unchecked (a comment beside it notes
      the division by zero), so a flat axis is excluded here. Scaling the size by
      the result and adding the minimum gives back the point, and in a box of
      positive size the point is contained exactly when every fraction is in `[0, 1]`. */
  function GetParameter(b: Box2, point: Vec2.Vector2): (r: Vec2.Vector2)
    requires b.max.x != b.min.x && b.max.y != b.min.y
    ensures Vec2.Add(b.min, Vec2.Multiply(r, Size(b))) == point
    ensures b.min.x < b.max.x && b.min.y < b.max.y ==>
              (ContainsPoint(b, point) <==>
                 0.0 <= r.x <= 1.0 && 0.0 <= r.y <= 1.0)
  {
    MathUtil.AxisFraction(point.x, b.min.x, b.max.x);
    MathUtil.AxisFraction(point.y, b.min.y, b.max.y);
    Vec2.Vector2(
      (point.x - b.min.x) / (b.max.x - b.min.x),
      (point.y - b.min.y) / (b.max.y - b.min.y))
  }

  /** `intersect`: the box of the points both boxes contain. */
  function Intersect(a: Box2, b: Box2): (r: Box2)
    ensures ContainsBox(a, r) && ContainsBox(b, r)
    ensures forall p: Vec2.Vector2 :: ContainsPoint(r, p) <==> ContainsPoint(a, p) && ContainsPoint(b, p)
  {
    Box2(Vec2.Max(a.min, b.min), Vec2.Min(a.max, b.max))
  }

  /** `union_`: a box holding both boxes. */
  function Union(a: Box2, b: Box2): (r: Box2)
    ensures ContainsBox(r, a) && ContainsBox(r, b)
  {
    Box2(Vec2.Min(a.min, b.min), Vec2.Max(a.max, b.max))
  }

  /** The union is the least box that holds both boxes. */
  lemma UnionLeast(a: Box2, b: Box2, c: Box2)
    requires ContainsBox(c, a) && ContainsBox(c, b)
    ensures ContainsBox(c, Union(a, b))
  {
  }

  /** `translate`: moves both corners; the size is kept and a point moved along
      stays inside or outside as before. */
  function Translate(b: Box2, offset: Vec2.Vector2): (r: Box2)
    ensures Size(r) == Size(b)
    ensures forall p: Vec2.Vector2 :: ContainsPoint(r, Vec2.Add(p, offset)) <==> ContainsPoint(b, p)
  {
    Box2(Vec2.Add(b.min, offset), Vec2.Add(b.max, offset))
  }

  /** `equals`: both corners agree. */
  function Equals(a: Box2, b: Box2): (r: bool)
    ensures r <==> a == b
  {
    Vec2.Equals(b.min, a.min) && Vec2.Equals(b.max, a.max)
  }
}
