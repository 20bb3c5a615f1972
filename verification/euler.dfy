/** Euler angles: three angles plus the order the axis rotations apply in. */
module Euler {
  import Vec3

  /** `Euler::RotationOrders`. */
  datatype RotationOrder = XYZ | YZX | ZXY | XZY | YXZ | ZYX

  datatype EulerAngles = EulerAngles(x: real, y: real, z: real, order: RotationOrder)

  /** `Euler::DefaultOrder`. */
  const DefaultOrder: RotationOrder := XYZ

  /** The default constructor: all angles zero, default order. */
  function Default(): (r: EulerAngles)
    ensures r.order == XYZ
    ensures r.x == 0.0 && r.y == 0.0 && r.z == 0.0
  {
    EulerAngles(0.0, 0.0, 0.0, DefaultOrder)
  }

  /** `set`: stores exactly the given angles and order, whatever the receiver held. */
  function Set(e: EulerAngles, x: real, y: real, z: real, order: RotationOrder): (r: EulerAngles)
    ensures Equals(r, EulerAngles(x, y, z, order))
  {
    e.(x := x, y := y, z := z, order := order)
  }

  /** `copy`: after it the receiver `equals` the source. */
  function Copy(e: EulerAngles, source: EulerAngles): (r: EulerAngles)
    ensures Equals(r, source)
  {
    e.(x := source.x, y := source.y, z := source.z, order := source.order)
  }

  /** `equals`: the angles and the order all agree. */
  function Equals(a: EulerAngles, b: EulerAngles): (r: bool)
    ensures r <==> a == b
    ensures a.order != b.order ==> !r
  {
    b.x == a.x && b.y == a.y && b.z == a.z && b.order == a.order
  }

  /** Equal angles under different orders are different Eulers, though they
      give the same `toVector3`. */
  lemma OrderMatters(x: real, y: real, z: real, o1: RotationOrder, o2: RotationOrder)
    requires o1 != o2
    ensures !Equals(EulerAngles(x, y, z, o1), EulerAngles(x, y, z, o2))
    ensures ToVector3(EulerAngles(x, y, z, o1)) == ToVector3(EulerAngles(x, y, z, o2))
  {
  }

  /** `setFromVector3`: the vector's components become the angles. */
  function SetFromVector3(e: EulerAngles, v: Vec3.Vector3, order: RotationOrder): (r: EulerAngles)
    ensures Equals(r, EulerAngles(v.x, v.y, v.z, order))
  {
    Set(e, v.x, v.y, v.z, order)
  }

  /** `toVector3`: the angles as a vector; the order is dropped. */
  function ToVector3(e: EulerAngles): Vec3.Vector3 {
    Vec3.Vector3(e.x, e.y, e.z)
  }

  /** Storing a vector and reading it back gives the vector, under any order. */
  lemma SetFromVector3RoundTrip(e: EulerAngles, v: Vec3.Vector3, order: RotationOrder)
    ensures ToVector3(SetFromVector3(e, v, order)) == v
    ensures SetFromVector3(e, v, order).order == order
  {
  }

  /** Reading the angles out and storing them back under the same order
      rebuilds the Euler, whatever the receiver held. */
  lemma ToVector3RoundTrip(e: EulerAngles, target: EulerAngles)
    ensures SetFromVector3(target, ToVector3(e), e.order) == e
  {
  }
}
