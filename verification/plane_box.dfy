/** The plane-box test, which needs both shapes. */
module PlaneBox {
  import Vec3
  import Plane
  import Box3

  /** `Plane::intersectsBox`: delegates to `Box3::intersectsPlane`, and so inherits
      its sign convention. For a non-empty box it holds exactly when `constant`
      lies between the least and the greatest `normal . x` over the box. */
  function IntersectsBox(pl: Plane.Plane, b: Box3.Box3): (r: bool)
    ensures r == Box3.IntersectsPlane(b, pl)
    ensures !Box3.IsEmpty(b) ==> (r <==>
      (exists p: Vec3.Vector3 :: Box3.ContainsPoint(b, p) && Vec3.Dot(pl.normal, p) <= pl.constant) &&
      (exists q: Vec3.Vector3 :: Box3.ContainsPoint(b, q) && Vec3.Dot(pl.normal, q) >= pl.constant))
  {
    if !Box3.IsEmpty(b) then Box3.IntersectsPlaneIffBracketed(b, pl); Box3.IntersectsPlane(b, pl)
    else Box3.IntersectsPlane(b, pl)
  }

  /** For the one-point box at `p` the test is `normal . p == constant`. */
  lemma {:induction false} PointBox(pl: Plane.Plane, p: Vec3.Vector3)
    ensures IntersectsBox(pl, Box3.Box3(p, p)) <==> Vec3.Dot(pl.normal, p) == pl.constant
  {
    var b := Box3.Box3(p, p);
    assert Box3.LowCorner(b, pl.normal) == p && Box3.HighCorner(b, pl.normal) == p;
  }
}
