/**
 Convex shapes as the traversal, the narrow phase and the cast layer use them
 (crates/cspace-bullet/src/shapes.rs, crates/cspace-bullet-cast/src/cast_hull_shape.rs).

 A primitive is known by what it answers: its proxy type, its point set, its
 boxes, its two support queries and, for a polyhedron, its vertices.
 */
module Shapes {
  import opened LinearMath
  import opened Wrappers

  /** `BroadphaseNativeType` values. */
  const BOX_SHAPE := 0
  const TRIANGLE_SHAPE := 1
  const SPHERE_SHAPE := 8
  const CUSTOM_CONVEX_SHAPE := 19
  const CONCAVE_SHAPES_START_HERE := 20
  const STATIC_PLANE := 28
  const CONCAVE_SHAPES_END_HERE := 30
  const COMPOUND_SHAPE := 31

  datatype ConvexShape =
    | Primitive(
        proxyType: int,
        contains: Vec3 -> bool,
        aabb: Transform -> Aabb,
        support: Vec3 -> Vec3,
        supportWithoutMargin: Vec3 -> Vec3,
        vertices: Option<seq<Vec3>>)
    | CastHull(shape: ConvexShape, delta: Transform)
  {
    function ShapeType(): int {
      match this
      case Primitive(p, _, _, _, _, _) => p
      case CastHull(_, _) => CUSTOM_CONVEX_SHAPE
    }

    /** `get_aabb`; a swept shape answers with the union of its boxes at both poses. */
    function GetAabb(t: Transform): Aabb {
      match this
      case Primitive(_, _, f, _, _, _) => f(t)
      case CastHull(s, d) => s.GetAabb(t).Merge(s.GetAabb(t.Times(d)))
    }

    /** `local_get_supporting_vertex`; of a swept shape, the better of the two poses, the second on a tie. */
    function Support(v: Vec3): Vec3 {
      match this
      case Primitive(_, _, _, f, _, _) => f(v)
      case CastHull(s, d) =>
        var s0 := s.Support(v);
        var s1 := d.Apply(s.Support(d.basis.TMul(v)));
        if v.Dot(s0) > v.Dot(s1) then s0 else s1
    }

    function SupportWithoutMargin(v: Vec3): Vec3 {
      match this
      case Primitive(_, _, _, _, f, _) => f(v)
      case CastHull(_, _) => Support(v)
    }

    function PolyhedralVertices(): Option<seq<Vec3>> {
      match this
      case Primitive(_, _, _, _, _, vs) => vs
      case CastHull(_, _) => None
    }
  }

  // ---- the point set of a shape ------------------------------------------

  function Combine(pts: seq<Vec3>, ws: seq<real>): Vec3
    requires |pts| == |ws|
  {
    if pts == [] then ZERO else pts[0].Scale(ws[0]).Add(Combine(pts[1..], ws[1..]))
  }

  function Total(ws: seq<real>): real {
    if ws == [] then 0.0 else ws[0] + Total(ws[1..])
  }

  /** The weights of a convex combination. */
  ghost predicate Weights(ws: seq<real>) {
    (forall i :: 0 <= i < |ws| ==> ws[i] >= 0.0) && Total(ws) == 1.0
  }

  /** A point of the shape in its own local frame. */
  ghost predicate Has(s: ConvexShape, p: Vec3)
    decreases s, 1
  {
    match s
    case Primitive(_, f, _, _, _, _) => f(p)
    case CastHull(inner, d) =>
      exists pts: seq<Vec3>, ws: seq<real> :: CombinationOf(inner, d, pts, ws, p)
  }

  /** A point of one of the two placements of a swept shape. */
  ghost predicate Placed(inner: ConvexShape, d: Transform, p: Vec3)
    decreases inner, 2
  {
    Has(inner, p) || exists q :: Has(inner, q) && d.Apply(q) == p
  }

  /** `p` is the convex combination of points taken from the two placements. */
  ghost predicate CombinationOf(inner: ConvexShape, d: Transform, pts: seq<Vec3>, ws: seq<real>, p: Vec3)
    decreases inner, 3
  {
    && |pts| == |ws| && Weights(ws)
    && (forall i :: 0 <= i < |pts| ==> Placed(inner, d, pts[i]))
    && Combine(pts, ws) == p
  }

  /** Wherever the shape is rigidly placed, the box it answers with holds it. */
  ghost predicate AabbSound(s: ConvexShape) {
    forall t: Transform, p: Vec3 :: t.Rigid() && Has(s, p) ==> s.GetAabb(t).Has(t.Apply(p))
  }

  // ---- boxes are convex --------------------------------------------------

  /** No convex combination goes further along `n` than its points do. */
  lemma {:induction false} CombineAtMost(n: Vec3, c: real, pts: seq<Vec3>, ws: seq<real>)
    requires |pts| == |ws|
    requires forall i :: 0 <= i < |ws| ==> ws[i] >= 0.0
    requires forall i :: 0 <= i < |pts| ==> n.Dot(pts[i]) <= c
    ensures n.Dot(Combine(pts, ws)) <= c * Total(ws)
  {
    hide Vec3.Dot, Vec3.Add, Vec3.Scale;
    if pts == [] {
      DotZero(n);
    } else {
      var rest := Combine(pts[1..], ws[1..]);
      CombineAtMost(n, c, pts[1..], ws[1..]);
      DotStep(n, pts[0], ws[0], rest);
      AtMostStep(ws[0], Total(ws[1..]), n.Dot(pts[0]), n.Dot(rest), c);
    }
  }

  lemma DotZero(n: Vec3)
    ensures n.Dot(ZERO) == 0.0
  {}

  lemma DotStep(n: Vec3, p: Vec3, w: real, rest: Vec3)
    ensures n.Dot(p.Scale(w).Add(rest)) == w * n.Dot(p) + n.Dot(rest)
  {
    DotAdd(n, p.Scale(w), rest);
    DotScale(n, w, p);
  }

  lemma AtMostStep(w: real, r: real, a: real, b: real, c: real)
    requires w >= 0.0 && a <= c && b <= c * r
    ensures w * a + b <= c * (w + r)
  {
    MulMono(w, a, c);
    assert c * (w + r) == w * c + c * r;
  }

  lemma CombineBetween(n: Vec3, pts: seq<Vec3>, ws: seq<real>, lo: real, hi: real)
    requires |pts| == |ws| && Weights(ws)
    requires forall i :: 0 <= i < |pts| ==> lo <= n.Dot(pts[i]) && n.Dot(pts[i]) <= hi
    ensures lo <= n.Dot(Combine(pts, ws)) <= hi
  {
    CombineAtMost(n, hi, pts, ws);
    forall i | 0 <= i < |pts| ensures n.Neg().Dot(pts[i]) <= -lo {
      DotNeg(n, pts[i]);
    }
    CombineAtMost(n.Neg(), -lo, pts, ws);
    DotNeg(n, Combine(pts, ws));
  }

  lemma DotNeg(n: Vec3, p: Vec3)
    ensures n.Neg().Dot(p) == -n.Dot(p)
  {}

  lemma CombinationInBox(t: Transform, box: Aabb, pts: seq<Vec3>, ws: seq<real>)
    requires |pts| == |ws| && Weights(ws)
    requires forall i :: 0 <= i < |pts| ==> box.Has(t.Apply(pts[i]))
    ensures box.Has(t.Apply(Combine(pts, ws)))
  {
    var (m, o) := (t.basis, t.origin);
    forall i | 0 <= i < |pts|
      ensures box.mi.x - o.x <= m.r0.Dot(pts[i]) && m.r0.Dot(pts[i]) <= box.mx.x - o.x
      ensures box.mi.y - o.y <= m.r1.Dot(pts[i]) && m.r1.Dot(pts[i]) <= box.mx.y - o.y
      ensures box.mi.z - o.z <= m.r2.Dot(pts[i]) && m.r2.Dot(pts[i]) <= box.mx.z - o.z
    {
      assert box.Has(t.Apply(pts[i]));
    }
    CombineBetween(m.r0, pts, ws, box.mi.x - o.x, box.mx.x - o.x);
    CombineBetween(m.r1, pts, ws, box.mi.y - o.y, box.mx.y - o.y);
    CombineBetween(m.r2, pts, ws, box.mi.z - o.z, box.mx.z - o.z);
  }
}
