/**
 Two of the shapes that are built as primitives (crates/cspace-bullet/src/shapes.rs):
 their boxes hold them wherever they are rigidly placed, and the box answers
 support queries exactly.
 */
module Primitives {
  import opened LinearMath
  import opened Wrappers
  import opened Shapes
  import opened CastHullShape

  // ---- the sphere --------------------------------------------------------

  /** `SphereShape`: all margin. `direction` is the unit vector a support query takes along its argument. */
  function SphereShape(radius: real, direction: Vec3 -> Vec3): ConvexShape {
    Primitive(
      SPHERE_SHAPE,
      (p: Vec3) => p.Dot(p) <= radius * radius,
      (t: Transform) => Aabb(t.origin.Sub(Vec3(radius, radius, radius)), t.origin.Add(Vec3(radius, radius, radius))),
      (v: Vec3) => if radius == 0.0 then ZERO else direction(v).Scale(radius),
      (v: Vec3) => ZERO,
      None)
  }

  /** A point is no further along a unit vector than it is from the origin. */
  lemma AlongUnit(n: Vec3, p: Vec3, radius: real)
    requires n.Dot(n) == 1.0 && p.Dot(p) <= radius * radius && radius >= 0.0
    ensures -radius <= n.Dot(p) <= radius
  {
    var k := n.Dot(p);
    var q := p.Sub(n.Scale(k));
    hide Vec3.Dot, Vec3.Sub, Vec3.Scale;
    DotAdd(q, p, n.Scale(k));
    DotScale(q, k, n);
    DotSym(q, p);
    DotSym(q, n);
    DotAdd(p, p, n.Scale(k));
    DotAdd(n, p, n.Scale(k));
    DotScale(p, k, n);
    DotScale(n, k, n);
    DotSym(p, n);
    assert q.Dot(q) == p.Dot(p) - k * k;
    SquareNotNegative(q);
    if k > radius { SquareMono(radius, k); }
    if -k > radius { SquareMono(radius, -k); }
  }

  lemma SquareNotNegative(q: Vec3)
    ensures q.Dot(q) >= 0.0
  {}

  lemma SquareMono(a: real, b: real)
    requires 0.0 <= a < b
    ensures a * a < b * b
  {
    Widened(a, b - a);
  }

  lemma Widened(a: real, d: real)
    requires a >= 0.0 && d > 0.0
    ensures a * a < (a + d) * (a + d)
  {
    assert (a + d) * (a + d) == a * a + 2.0 * (a * d) + d * d;
  }

  /** The sphere's box ignores the basis, and still holds the sphere under every rigid placement. */
  lemma SphereSound(radius: real, direction: Vec3 -> Vec3)
    requires radius >= 0.0
    ensures AabbSound(SphereShape(radius, direction))
  {
    var s := SphereShape(radius, direction);
    forall t: Transform, p: Vec3 | t.Rigid() && Has(s, p) ensures s.GetAabb(t).Has(t.Apply(p)) {
      hide Transform.Rigid, Vec3.Dot;
      RigidRows(t);
      AlongUnit(t.basis.r0, p, radius);
      AlongUnit(t.basis.r1, p, radius);
      AlongUnit(t.basis.r2, p, radius);
    }
  }

  /** A placement that scales is another matter: the box then loses points. */
  lemma SphereLosesScaled(radius: real, direction: Vec3 -> Vec3)
    requires radius > 0.0
    ensures var t := Transform(Matrix3(Vec3(2.0, 0.0, 0.0), Vec3(0.0, 1.0, 0.0), Vec3(0.0, 0.0, 1.0)), ZERO);
            var p := Vec3(radius, 0.0, 0.0);
            Has(SphereShape(radius, direction), p) && !SphereShape(radius, direction).GetAabb(t).Has(t.Apply(p))
  {}

  // ---- the box -----------------------------------------------------------

  /** The stored half extents grown by the margin. */
  function Inflated(dims: Vec3, margin: real): Vec3 { dims.Add(Vec3(margin, margin, margin)) }

  predicate InBox(h: Vec3, p: Vec3) {
    -h.x <= p.x <= h.x && -h.y <= p.y <= h.y && -h.z <= p.z <= h.z
  }

  /** The corner a direction selects; a zero component selects the positive face. */
  function Corner(h: Vec3, v: Vec3): Vec3 {
    Vec3(if v.x >= 0.0 then h.x else -h.x, if v.y >= 0.0 then h.y else -h.y, if v.z >= 0.0 then h.z else -h.z)
  }

  /** The eight corners, one sign per bit of the index. */
  function Corners(h: Vec3): seq<Vec3> {
    [h, Vec3(-h.x, h.y, h.z), Vec3(h.x, -h.y, h.z), Vec3(-h.x, -h.y, h.z),
     Vec3(h.x, h.y, -h.z), Vec3(-h.x, h.y, -h.z), Vec3(h.x, -h.y, -h.z), Vec3(-h.x, -h.y, -h.z)]
  }

  function BoxShape(dims: Vec3, margin: real): ConvexShape {
    var h := Inflated(dims, margin);
    Primitive(
      BOX_SHAPE,
      (p: Vec3) => InBox(h, p),
      (t: Transform) => Around(t.origin, h, t.basis),
      (v: Vec3) => Corner(h, v),
      (v: Vec3) => Corner(dims, v),
      Some(Corners(h)))
  }

  lemma BoxSound(dims: Vec3, margin: real)
    ensures AabbSound(BoxShape(dims, margin))
  {
    HalfExtentsSound(BoxShape(dims, margin), Inflated(dims, margin));
  }

  /** The corner selected is a point of the box, and none goes further. */
  lemma BoxSupport(dims: Vec3, margin: real)
    requires InBox(Inflated(dims, margin), ZERO)
    ensures IsSupport(BoxShape(dims, margin))
  {
    var (s, h) := (BoxShape(dims, margin), Inflated(dims, margin));
    forall v: Vec3, p: Vec3 | Has(s, p) ensures v.Dot(p) <= v.Dot(s.Support(v)) {
      hide Corner, InBox, Vec3.Dot;
      CornerFurthest(h, v, p);
    }
    forall v: Vec3 ensures Has(s, s.Support(v)) {}
  }

  lemma CornerFurthest(h: Vec3, v: Vec3, p: Vec3)
    requires InBox(h, p)
    ensures v.Dot(p) <= v.Dot(Corner(h, v))
  {
    hide Vec3.Dot;
    Further(v.x, p.x, h.x);
    Further(v.y, p.y, h.y);
    Further(v.z, p.z, h.z);
    DotAtMost(v, p, Corner(h, v));
  }

  lemma DotAtMost(v: Vec3, p: Vec3, c: Vec3)
    requires v.x * p.x <= v.x * c.x && v.y * p.y <= v.y * c.y && v.z * p.z <= v.z * c.z
    ensures v.Dot(p) <= v.Dot(c)
  {}

  lemma Further(v: real, p: real, h: real)
    requires -h <= p <= h
    ensures v * p <= v * (if v >= 0.0 then h else -h)
  {
    if v >= 0.0 { MulMono(v, p, h); } else { MulMono(-v, -h, p); }
  }

  /** In every direction some corner is not below the origin, so averaging the box's corners always has an answer. */
  lemma BoxReaches(dims: Vec3, margin: real, n: Vec3)
    requires InBox(Inflated(dims, margin), ZERO)
    ensures Reaches(BoxShape(dims, margin), n)
  {
    hide Vec3.Dot, Inflated;
    var h := Inflated(dims, margin);
    CornerFurthest(h, n, ZERO);
    DotZero(n);
    DotSym(n, Corner(h, n));
    CornerListed(h, n);
  }

  lemma CornerListed(h: Vec3, v: Vec3)
    ensures Corner(h, v) in Corners(h)
  {
    var k := (if v.x >= 0.0 then 0 else 1) + (if v.y >= 0.0 then 0 else 2) + (if v.z >= 0.0 then 0 else 4);
    assert Corners(h)[k] == Corner(h, v);
  }

  // ---- the other ways of answering with a box ----------------------------

  /** Half extents re-fitted about the placement's origin, as the box and the cylinder do. */
  lemma HalfExtentsSound(s: ConvexShape, h: Vec3)
    requires s.Primitive? && (forall t :: s.aabb(t) == Around(t.origin, h, t.basis))
    requires forall p :: s.contains(p) ==> InBox(h, p)
    ensures AabbSound(s)
  {
    forall t: Transform, p: Vec3 | t.Rigid() && Has(s, p) ensures s.GetAabb(t).Has(t.Apply(p)) {
      hide Transform.Rigid, Vec3.Dot;
      RowBound(t.basis.r0, p, h);
      RowBound(t.basis.r1, p, h);
      RowBound(t.basis.r2, p, h);
    }
  }

  /** A cached local box re-fitted, as the hull does. */
  lemma LocalBoxSound(s: ConvexShape, box: Aabb, margin: real)
    requires s.Primitive? && margin >= 0.0 && (forall t :: s.aabb(t) == TransformAabb(box, margin, t))
    requires forall p :: s.contains(p) ==> box.Has(p)
    ensures AabbSound(s)
  {
    forall t: Transform, p: Vec3 | t.Rigid() && Has(s, p) ensures s.GetAabb(t).Has(t.Apply(p)) {
      hide Transform.Rigid, TransformAabb;
      RefitHas(box, margin, t, p);
    }
  }

  const X_AXIS := Vec3(1.0, 0.0, 0.0)
  const Y_AXIS := Vec3(0.0, 1.0, 0.0)
  const Z_AXIS := Vec3(0.0, 0.0, 1.0)

  /** The support point along `v`, `v` given in the world. */
  function Furthest(s: ConvexShape, t: Transform, v: Vec3): Vec3 { t.Apply(s.Support(t.basis.TMul(v))) }

  /** `get_aabb_slow`: six support queries, grown by the margin once more. */
  function AabbSlow(s: ConvexShape, margin: real, t: Transform): Aabb {
    Aabb(Vec3(Furthest(s, t, X_AXIS.Neg()).x - margin, Furthest(s, t, Y_AXIS.Neg()).y - margin,
              Furthest(s, t, Z_AXIS.Neg()).z - margin),
         Vec3(Furthest(s, t, X_AXIS).x + margin, Furthest(s, t, Y_AXIS).y + margin, Furthest(s, t, Z_AXIS).z + margin))
  }

  lemma FurthestBound(s: ConvexShape, t: Transform, v: Vec3, p: Vec3)
    requires IsSupport(s) && Has(s, p)
    ensures v.Dot(t.Apply(p)) <= v.Dot(Furthest(s, t, v))
  {
    hide Vec3.Dot, Transform.Apply;
    var u := t.basis.TMul(v);
    AlongDelta(t, v, p);
    AlongDelta(t, v, s.Support(u));
    assert u.Dot(p) <= u.Dot(s.Support(u));
  }

  /** Where the support function is right so is a box taken from it, as the cone's is. */
  lemma SlowSound(s: ConvexShape, margin: real)
    requires IsSupport(s) && margin >= 0.0 && s.Primitive? && (forall t :: s.aabb(t) == AabbSlow(s, margin, t))
    ensures AabbSound(s)
  {
    forall t: Transform, p: Vec3 | t.Rigid() && Has(s, p) ensures s.GetAabb(t).Has(t.Apply(p)) {
      hide Transform.Rigid, Vec3.Dot, Furthest, IsSupport;
      FurthestBound(s, t, X_AXIS, p);
      FurthestBound(s, t, Y_AXIS, p);
      FurthestBound(s, t, Z_AXIS, p);
      FurthestBound(s, t, X_AXIS.Neg(), p);
      FurthestBound(s, t, Y_AXIS.Neg(), p);
      FurthestBound(s, t, Z_AXIS.Neg(), p);
      AlongAxes(t.Apply(p));
      AlongAxes(Furthest(s, t, X_AXIS));
      AlongAxes(Furthest(s, t, Y_AXIS));
      AlongAxes(Furthest(s, t, Z_AXIS));
      AlongAxes(Furthest(s, t, X_AXIS.Neg()));
      AlongAxes(Furthest(s, t, Y_AXIS.Neg()));
      AlongAxes(Furthest(s, t, Z_AXIS.Neg()));
    }
  }

  lemma AlongAxes(q: Vec3)
    ensures X_AXIS.Dot(q) == q.x && Y_AXIS.Dot(q) == q.y && Z_AXIS.Dot(q) == q.z
    ensures X_AXIS.Neg().Dot(q) == -q.x && Y_AXIS.Neg().Dot(q) == -q.y && Z_AXIS.Neg().Dot(q) == -q.z
  {
    UnitDot(q);
    DotNeg(X_AXIS, q);
    DotNeg(Y_AXIS, q);
    DotNeg(Z_AXIS, q);
  }

  /** The box of the placed corners, as the triangle's is: it holds whatever convex combinations of them make. */
  lemma CornersSound(s: ConvexShape, corners: seq<Vec3>)
    requires s.Primitive?
    requires forall t: Transform, i {:trigger s.aabb(t), corners[i]} :: 0 <= i < |corners| ==> s.aabb(t).Has(t.Apply(corners[i]))
    requires forall p :: s.contains(p) ==> exists ws: seq<real> :: CombinationOfCorners(corners, ws, p)
    ensures AabbSound(s)
  {
    forall t: Transform, p: Vec3 | t.Rigid() && Has(s, p) ensures s.GetAabb(t).Has(t.Apply(p)) {
      hide Transform.Rigid;
      assert s.contains(p);
      var ws: seq<real> :| CombinationOfCorners(corners, ws, p);
      CombinationInBox(t, s.aabb(t), corners, ws);
    }
  }

  ghost predicate CombinationOfCorners(corners: seq<Vec3>, ws: seq<real>, p: Vec3) {
    |corners| == |ws| && Weights(ws) && Combine(corners, ws) == p
  }
}
