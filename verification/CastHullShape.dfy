/**
 The swept shape and support averaging (crates/cspace-bullet-cast/src/cast_hull_shape.rs).
 */
module CastHullShape {
  import opened LinearMath
  import opened Wrappers
  import opened Shapes

  // ---- the box of the swept shape ----------------------------------------

  /** The union of the boxes at the two poses holds the whole swept hull. */
  lemma CastHullSound(inner: ConvexShape, d: Transform)
    requires AabbSound(inner) && d.Rigid()
    ensures AabbSound(CastHull(inner, d))
  {
    var s := CastHull(inner, d);
    forall t: Transform, p: Vec3 | t.Rigid() && Has(s, p)
      ensures s.GetAabb(t).Has(t.Apply(p))
    {
      var pts, ws := Combination(inner, d, p);
      forall i | 0 <= i < |pts| ensures s.GetAabb(t).Has(t.Apply(pts[i])) {
        PlacedInUnion(inner, d, t, pts[i]);
      }
      CombinationInBox(t, s.GetAabb(t), pts, ws);
    }
  }

  lemma Combination(inner: ConvexShape, d: Transform, p: Vec3) returns (pts: seq<Vec3>, ws: seq<real>)
    requires Has(CastHull(inner, d), p)
    ensures CombinationOf(inner, d, pts, ws, p)
  {
    pts, ws :| CombinationOf(inner, d, pts, ws, p);
  }

  lemma PlacedInUnion(inner: ConvexShape, d: Transform, t: Transform, p: Vec3)
    requires AabbSound(inner) && t.Rigid() && d.Rigid() && Placed(inner, d, p)
    ensures CastHull(inner, d).GetAabb(t).Has(t.Apply(p))
  {
    RigidTimes(t, d);
    if Has(inner, p) {
      assert inner.GetAabb(t).Has(t.Apply(p));
    } else {
      var q :| Has(inner, q) && d.Apply(q) == p;
      ApplyTimes(t, d, q);
      assert inner.GetAabb(t.Times(d)).Has(t.Times(d).Apply(q));
    }
  }

  // ---- the support function of the swept shape ---------------------------

  /** The support query answers with a point of the shape that no point of the shape exceeds. */
  ghost predicate IsSupport(s: ConvexShape) {
    && (forall v :: Has(s, s.Support(v)))
    && (forall v: Vec3, p: Vec3 {:trigger Has(s, p), s.Support(v)} :: Has(s, p) ==> v.Dot(p) <= v.Dot(s.Support(v)))
  }

  /** The better of the two supports bounds every point of either placement. */
  lemma PlacedBound(inner: ConvexShape, d: Transform, v: Vec3, p: Vec3)
    requires IsSupport(inner) && Placed(inner, d, p)
    ensures v.Dot(p) <= v.Dot(CastHull(inner, d).Support(v))
  {
    if Has(inner, p) {
      assert v.Dot(p) <= v.Dot(inner.Support(v));
    } else {
      var q :| Has(inner, q) && d.Apply(q) == p;
      var u := d.basis.TMul(v);
      assert u.Dot(q) <= u.Dot(inner.Support(u));
      AlongDelta(d, v, q);
      AlongDelta(d, v, inner.Support(u));
    }
  }

  /** Measuring a moved point is measuring the point along the direction taken back. */
  lemma AlongDelta(d: Transform, v: Vec3, q: Vec3)
    ensures v.Dot(d.Apply(q)) == d.basis.TMul(v).Dot(q) + v.Dot(d.origin)
  {
    Adjoint(d.basis, v, q);
    DotAdd(v, d.basis.Mul(q), d.origin);
  }

  lemma SupportIsPlaced(inner: ConvexShape, d: Transform, v: Vec3)
    requires IsSupport(inner)
    ensures Placed(inner, d, CastHull(inner, d).Support(v))
  {
    assert Has(inner, inner.Support(v));
    var u := d.basis.TMul(v);
    assert Has(inner, inner.Support(u)) && d.Apply(inner.Support(u)) == d.Apply(inner.Support(u));
  }

  lemma PlacedIsInHull(inner: ConvexShape, d: Transform, p: Vec3)
    requires Placed(inner, d, p)
    ensures Has(CastHull(inner, d), p)
  {
    var pts, ws := [p], [1.0];
    assert pts[1..] == [] && ws[1..] == [];
    assert Total(ws) == 1.0 + Total(ws[1..]) == 1.0;
    assert Combine(pts, ws) == p.Scale(1.0).Add(ZERO) == p;
    assert CombinationOf(inner, d, pts, ws, p);
  }

  /**
   The swept shape answers with a point of one of the two placements, and no
   convex combination of points of the placements goes further: it is the
   support function of the convex hull of both.
   */
  lemma SweptSupport(inner: ConvexShape, d: Transform)
    requires IsSupport(inner)
    ensures IsSupport(CastHull(inner, d))
    ensures forall v :: Placed(inner, d, CastHull(inner, d).Support(v))
  {
    var s := CastHull(inner, d);
    forall v
      ensures Placed(inner, d, s.Support(v)) && Has(s, s.Support(v))
    {
      SupportIsPlaced(inner, d, v);
      PlacedIsInHull(inner, d, s.Support(v));
    }
    forall v: Vec3, p: Vec3 | Has(s, p)
      ensures v.Dot(p) <= v.Dot(s.Support(v))
    {
      var pts, ws := Combination(inner, d, p);
      forall i | 0 <= i < |pts| ensures v.Dot(pts[i]) <= v.Dot(s.Support(v)) {
        PlacedBound(inner, d, v, pts[i]);
      }
      CombineAtMost(v, v.Dot(s.Support(v)), pts, ws);
    }
  }

  /** A sweep that goes nowhere answers with the inner shape's support value in every direction. */
  lemma IdentityDelta(inner: ConvexShape, v: Vec3)
    ensures CastHull(inner, IDENTITY).Support(v) == inner.Support(v)
  {
    IdentityBasis(v);
    IdentityApply(inner.Support(v));
  }

  // ---- support averaging -------------------------------------------------

  const BULLET_EPSILON := 0.001
  const FLOOR := -1000.0

  /** The running state of the averaging loop. */
  datatype Band = Band(sum: Vec3, count: nat, support: real)

  const START := Band(ZERO, 0, FLOOR)

  /** One vertex: restart above the band, pass over below it, accumulate inside it. */
  function Accumulate(b: Band, pt: Vec3, n: Vec3): Band {
    var sup := pt.Dot(n);
    if sup > b.support + BULLET_EPSILON then Band(pt, 1, sup)
    else if sup < b.support - BULLET_EPSILON then b
    else Band(b.sum.Add(pt), b.count + 1, b.support)
  }

  function BandOf(vs: seq<Vec3>, n: Vec3): Band {
    if vs == [] then START else Accumulate(BandOf(vs[..|vs| - 1], n), vs[|vs| - 1], n)
  }

  /** The mean of the band; `None` is the not-a-number a zero count divides to. */
  function Mean(b: Band): Option<Vec3> {
    if b.count == 0 then None else Some(b.sum.Scale(1.0 / b.count as real))
  }

  function AverageSupport(shape: ConvexShape, n: Vec3): (real, Option<Vec3>) {
    match shape.PolyhedralVertices()
    case None => var p := shape.SupportWithoutMargin(n); (n.Dot(p), Some(p))
    case Some(vs) => var b := BandOf(vs, n); (b.support, Mean(b))
  }

  method GetAverageSupport(shape: ConvexShape, localNormal: Vec3) returns (support: real, point: Option<Vec3>)
    ensures (support, point) == AverageSupport(shape, localNormal)
  {
    var ptSum, ptCount, maxSupport := ZERO, 0, FLOOR;
    var polyhedron := shape.PolyhedralVertices();
    if polyhedron.None? {
      var p := shape.SupportWithoutMargin(localNormal);
      return localNormal.Dot(p), Some(p);
    }
    var vs := polyhedron.value;
    for i := 0 to |vs|
      invariant Band(ptSum, ptCount, maxSupport) == BandOf(vs[..i], localNormal)
    {
      assert vs[..i + 1][..i] == vs[..i];
      var sup := vs[i].Dot(localNormal);
      if sup > maxSupport + BULLET_EPSILON {
        ptCount := 1;
        ptSum := vs[i];
        maxSupport := sup;
      } else if sup < maxSupport - BULLET_EPSILON {
      } else {
        ptCount := ptCount + 1;
        ptSum := ptSum.Add(vs[i]);
      }
    }
    assert vs[..|vs|] == vs;
    support := maxSupport;
    point := if ptCount == 0 then None else Some(ptSum.Scale(1.0 / ptCount as real));
  }

  function SumOf(vs: seq<Vec3>, kept: seq<nat>): Vec3
    requires forall k :: 0 <= k < |kept| ==> kept[k] < |vs|
  {
    if kept == [] then ZERO else SumOf(vs, kept[..|kept| - 1]).Add(vs[kept[|kept| - 1]])
  }

  /** `kept` picks distinct vertices, in order, each within one epsilon of `support`; nothing is further than that above it. */
  ghost predicate KeptBand(vs: seq<Vec3>, n: Vec3, kept: seq<nat>, support: real) {
    && (forall i, j :: 0 <= i < j < |kept| ==> kept[i] < kept[j])
    && (forall k :: 0 <= k < |kept| ==> kept[k] < |vs|)
    && (forall k :: 0 <= k < |kept| ==>
          support - BULLET_EPSILON <= vs[kept[k]].Dot(n) <= support + BULLET_EPSILON)
    && (forall i :: 0 <= i < |vs| ==> vs[i].Dot(n) <= support + BULLET_EPSILON)
  }

  /** How one more vertex changes the band. */
  lemma KeptStep(vs: seq<Vec3>, n: Vec3, rest: seq<nat>, support: real)
    requires vs != [] && KeptBand(vs[..|vs| - 1], n, rest, support)
    ensures var (m, sup) := (|vs| - 1, vs[|vs| - 1].Dot(n));
            && (sup > support + BULLET_EPSILON ==> KeptBand(vs, n, [m], sup))
            && (sup < support - BULLET_EPSILON ==> KeptBand(vs, n, rest, support))
            && (support - BULLET_EPSILON <= sup <= support + BULLET_EPSILON ==> KeptBand(vs, n, rest + [m], support))
  {
    hide Vec3.Dot;
    var (m, before) := (|vs| - 1, vs[..|vs| - 1]);
    assert forall i :: 0 <= i < m ==> vs[i] == before[i];
    forall k | 0 <= k < |rest| ensures vs[rest[k]] == before[rest[k]] {}
  }

  /** The loop keeps the sum and count of an in-band set of distinct vertices, empty only while every vertex is below the floor. */
  lemma {:induction false} BandKeeps(vs: seq<Vec3>, n: Vec3) returns (kept: seq<nat>)
    ensures KeptBand(vs, n, kept, BandOf(vs, n).support)
    ensures BandOf(vs, n).count == |kept| && BandOf(vs, n).sum == SumOf(vs, kept)
  {
    hide Vec3.Dot, Vec3.Add;
    if vs == [] {
      kept := [];
    } else {
      var m := |vs| - 1;
      var rest := BandKeeps(vs[..m], n);
      var b := BandOf(vs[..m], n);
      var sup := vs[m].Dot(n);
      KeptStep(vs, n, rest, b.support);
      if sup > b.support + BULLET_EPSILON {
        kept := [m];
        SumOfOne(vs, m);
      } else if sup < b.support - BULLET_EPSILON {
        kept := rest;
        SumOfPrefix(vs, m, rest);
      } else {
        kept := rest + [m];
        SumOfPrefix(vs, m, rest);
        assert kept[..|rest|] == rest;
      }
    }
  }

  /** The band is empty exactly while every vertex is below the floor, and its support never is. */
  lemma {:induction false} BandEmpty(vs: seq<Vec3>, n: Vec3)
    ensures BandOf(vs, n).count == 0 <==> forall i :: 0 <= i < |vs| ==> vs[i].Dot(n) < FLOOR - BULLET_EPSILON
    ensures BandOf(vs, n).support >= FLOOR
    ensures BandOf(vs, n).count == 0 ==> BandOf(vs, n).support == FLOOR
  {
    hide Vec3.Dot, Vec3.Add;
    if vs != [] {
      var m := |vs| - 1;
      var before := vs[..m];
      BandEmpty(before, n);
      assert forall i :: 0 <= i < m ==> vs[i] == before[i];
      if BandOf(before, n).count != 0 {
        var i :| 0 <= i < |before| && before[i].Dot(n) >= FLOOR - BULLET_EPSILON;
        assert vs[i].Dot(n) >= FLOOR - BULLET_EPSILON;
      }
    }
  }

  lemma SumOfOne(vs: seq<Vec3>, m: nat)
    requires m < |vs|
    ensures SumOf(vs, [m]) == vs[m]
  {
    var one := [m];
    assert one[..0] == [];
  }

  lemma {:induction false} SumOfPrefix(vs: seq<Vec3>, m: nat, kept: seq<nat>)
    requires m <= |vs| && forall k :: 0 <= k < |kept| ==> kept[k] < m
    ensures SumOf(vs, kept) == SumOf(vs[..m], kept)
  {
    if kept != [] { SumOfPrefix(vs, m, kept[..|kept| - 1]); }
  }

  /**
   On a polyhedron with a vertex above the floor the answer is the mean of a
   nonempty set of vertices, each within two epsilons of the true maximum; the
   reported support value is within one. With no such vertex there is no answer.
   */
  lemma AverageIsNearMaximum(vs: seq<Vec3>, n: Vec3)
    ensures Mean(BandOf(vs, n)).None? <==> forall i :: 0 <= i < |vs| ==> vs[i].Dot(n) < FLOOR - BULLET_EPSILON
    ensures Mean(BandOf(vs, n)).Some? ==>
      exists kept: seq<nat> ::
        && kept != [] && KeptBand(vs, n, kept, BandOf(vs, n).support)
        && Mean(BandOf(vs, n)).value == SumOf(vs, kept).Scale(1.0 / |kept| as real)
    ensures forall kept: seq<nat>, k, i {:trigger kept[k], vs[i]} ::
      KeptBand(vs, n, kept, BandOf(vs, n).support) && 0 <= k < |kept| && 0 <= i < |vs|
      ==> vs[kept[k]].Dot(n) >= vs[i].Dot(n) - 2.0 * BULLET_EPSILON
  {
    BandEmpty(vs, n);
    var kept := BandKeeps(vs, n);
  }

  /** Averaging has something to go by: no vertex list, or a vertex that is not below the floor. */
  ghost predicate Reaches(shape: ConvexShape, n: Vec3) {
    match shape.PolyhedralVertices()
    case None => true
    case Some(vs) => exists i :: 0 <= i < |vs| && vs[i].Dot(n) >= FLOOR - BULLET_EPSILON
  }

  lemma AverageExists(shape: ConvexShape, n: Vec3)
    ensures AverageSupport(shape, n).1.Some? <==> Reaches(shape, n)
  {
    hide Vec3.Dot;
    if shape.PolyhedralVertices().Some? { BandEmpty(shape.PolyhedralVertices().value, n); }
  }
}
