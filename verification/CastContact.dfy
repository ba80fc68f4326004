/**
 The conversion of one swept contact (crates/cspace-bullet-cast/src/cast_contact.rs):
 the non-swept object is reported first, and the contact is placed along the sweep.

 The Euclidean norm enters as a parameter; only that it is not negative is used.
 */
module CastContact {
  import opened LinearMath
  import opened Wrappers
  import opened Shapes
  import opened CastHullShape
  import opened ContactTestData

  const BULLET_SUPPORT_FUNC_TOLERANCE := 0.01
  const BULLET_LENGTH_TOLERANCE := 0.001

  datatype ManifoldPoint = ManifoldPoint(
    localPointA: Vec3, localPointB: Vec3, positionWorldOnA: Vec3, positionWorldOnB: Vec3,
    normalWorldOnB: Vec3, distance1: real, index0: int, index1: int)

  type Norm = Vec3 -> real

  ghost predicate IsNorm(len: Norm) { forall v :: len(v) >= 0.0 }

  /** Where along a sweep from the pose `t0` to the pose `t1` a contact at `pt` with normal `n` lies. */
  function Fraction(len: Norm, shape: ConvexShape, t0: Transform, t1: Transform, n: Vec3, pt: Vec3): Option<real> {
    var (_, local0) := AverageSupport(shape, t0.basis.TMul(n));
    var (_, local1) := AverageSupport(shape, t1.basis.TMul(n));
    if local0.None? || local1.None? then None
    else
      var (world0, world1) := (t0.Apply(local0.value), t1.Apply(local1.value));
      Some(Interpolate(n.Dot(world0), n.Dot(world1), len(pt.Sub(world0)), len(pt.Sub(world1))))
  }

  /** The three-way rule on the two supports and the two distances. */
  function Interpolate(sup0: real, sup1: real, l0c: real, l1c: real): real {
    if sup0 - sup1 > BULLET_SUPPORT_FUNC_TOLERANCE then 0.0
    else if sup1 - sup0 > BULLET_SUPPORT_FUNC_TOLERANCE then 1.0
    else if l0c + l1c < BULLET_LENGTH_TOLERANCE then 0.5
    else l0c / (l0c + l1c)
  }

  function FromCast(castFirst: bool, point: ManifoldPoint): Vec3 {
    point.normalWorldOnB.Scale(if castFirst then -1.0 else 1.0)
  }

  function OnCast(castFirst: bool, point: ManifoldPoint): Vec3 {
    if castFirst then point.positionWorldOnA else point.positionWorldOnB
  }

  function PercentInterpolation(
      len: Norm, castShape: ConvexShape, castWorld: Transform, point: ManifoldPoint, castFirst: bool): Option<real>
    requires castShape.CastHull?
  {
    Fraction(len, castShape.shape, castWorld, castWorld.Times(castShape.delta),
             FromCast(castFirst, point), OnCast(castFirst, point))
  }

  method ApplyCastResult(
      len: Norm, col: Contact, point: ManifoldPoint, castFirst: bool, castShape: ConvexShape, castWorld: Transform)
    returns (r: Contact)
    requires castShape.CastHull? && IsNorm(len)
    ensures r.depth == col.depth && r.pos == col.pos
    ensures r.normal == if castFirst then col.normal.Scale(-1.0) else col.normal
    ensures (r.bodyName1, r.bodyType1) == if castFirst then (col.bodyName2, col.bodyType2) else (col.bodyName1, col.bodyType1)
    ensures (r.bodyName2, r.bodyType2) == if castFirst then (col.bodyName1, col.bodyType1) else (col.bodyName2, col.bodyType2)
    ensures r.percentInterpolation == PercentInterpolation(len, castShape, castWorld, point, castFirst)
  {
    r := col;
    if castFirst {
      r := r.(bodyName1 := r.bodyName2, bodyName2 := r.bodyName1);
      r := r.(bodyType1 := r.bodyType2, bodyType2 := r.bodyType1);
      r := r.(normal := r.normal.Scale(-1.0));
    }
    var n := point.normalWorldOnB.Scale(if castFirst then -1.0 else 1.0);
    var t0, t1 := castWorld, castWorld.Times(castShape.delta);
    var _, local0 := GetAverageSupport(castShape.shape, t0.basis.TMul(n));
    var _, local1 := GetAverageSupport(castShape.shape, t1.basis.TMul(n));
    var percent: Option<real>;
    if local0.None? || local1.None? {
      percent := None;
    } else {
      var world0, world1 := t0.Apply(local0.value), t1.Apply(local1.value);
      var sup0, sup1 := n.Dot(world0), n.Dot(world1);
      if sup0 - sup1 > BULLET_SUPPORT_FUNC_TOLERANCE {
        percent := Some(0.0);
      } else if sup1 - sup0 > BULLET_SUPPORT_FUNC_TOLERANCE {
        percent := Some(1.0);
      } else {
        var ptOnCast := if castFirst then point.positionWorldOnA else point.positionWorldOnB;
        var l0c, l1c := len(ptOnCast.Sub(world0)), len(ptOnCast.Sub(world1));
        if l0c + l1c < BULLET_LENGTH_TOLERANCE {
          percent := Some(0.5);
        } else {
          percent := Some(l0c / (l0c + l1c));
        }
      }
    }
    r := r.(percentInterpolation := percent);
  }

  lemma InterpolateInUnit(sup0: real, sup1: real, l0c: real, l1c: real)
    requires l0c >= 0.0 && l1c >= 0.0
    ensures 0.0 <= Interpolate(sup0, sup1, l0c, l1c) <= 1.0
    ensures Interpolate(sup1, sup0, l1c, l0c) == 1.0 - Interpolate(sup0, sup1, l0c, l1c)
  {
    if l0c + l1c > 0.0 {
      Quotients(l0c, l1c);
    }
  }

  lemma Quotients(a: real, b: real)
    requires a >= 0.0 && b >= 0.0 && a + b > 0.0
    ensures 0.0 <= a / (a + b) <= 1.0
    ensures b / (b + a) == 1.0 - a / (a + b)
  {
    assert a / (a + b) + b / (a + b) == (a + b) / (a + b) == 1.0;
  }

  /** The fraction exists exactly when both poses' averages do, and then is between the start and the end of the sweep. */
  lemma FractionInUnit(len: Norm, castShape: ConvexShape, castWorld: Transform, point: ManifoldPoint, castFirst: bool)
    requires castShape.CastHull? && IsNorm(len)
    ensures var f := PercentInterpolation(len, castShape, castWorld, point, castFirst);
            var n := FromCast(castFirst, point);
            && (f.Some? <==> Reaches(castShape.shape, castWorld.basis.TMul(n))
                             && Reaches(castShape.shape, castWorld.Times(castShape.delta).basis.TMul(n)))
            && (f.Some? ==> 0.0 <= f.value <= 1.0)
  {
    hide Interpolate, AverageSupport, Reaches;
    var (t0, t1) := (castWorld, castWorld.Times(castShape.delta));
    var (n, pt) := (FromCast(castFirst, point), OnCast(castFirst, point));
    AverageExists(castShape.shape, t0.basis.TMul(n));
    AverageExists(castShape.shape, t1.basis.TMul(n));
    var (a, b) := (AverageSupport(castShape.shape, t0.basis.TMul(n)).1, AverageSupport(castShape.shape, t1.basis.TMul(n)).1);
    if a.Some? && b.Some? {
      var (w0, w1) := (t0.Apply(a.value), t1.Apply(b.value));
      InterpolateInUnit(n.Dot(w0), n.Dot(w1), len(pt.Sub(w0)), len(pt.Sub(w1)));
    }
  }

  /** The sweep taken backwards: from the second pose, by the inverse delta. */
  lemma BackwardsPose(w: Transform, d: Transform, v: Vec3)
    requires d.Rigid()
    ensures w.Times(d).Times(d.Inverse()).Apply(v) == w.Apply(v)
    ensures w.Times(d).Times(d.Inverse()).basis.TMul(v) == w.basis.TMul(v)
  {
    ApplyTimes(w.Times(d), d.Inverse(), v);
    ApplyTimes(w, d, d.Inverse().Apply(v));
    InverseApply(d, v);
    TMulTimes(w.Times(d).basis, d.basis.Transpose(), v);
    TMulTimes(w.basis, d.basis, v);
    TransposeTwice(d.basis, d.basis.TMul(w.basis.TMul(v)));
    RigidBasis(d, w.basis.TMul(v));
  }

  /** Exchanging the two poses turns the fraction into one minus itself. */
  lemma FractionReversed(len: Norm, castShape: ConvexShape, castWorld: Transform, point: ManifoldPoint, castFirst: bool)
    requires castShape.CastHull? && castShape.delta.Rigid() && IsNorm(len)
    ensures var forward := PercentInterpolation(len, castShape, castWorld, point, castFirst);
            var backward := PercentInterpolation(len, CastHull(castShape.shape, castShape.delta.Inverse()),
                                                 castWorld.Times(castShape.delta), point, castFirst);
            backward == if forward.Some? then Some(1.0 - forward.value) else None
  {
    hide Interpolate, AverageSupport;
    var (w, d) := (castWorld, castShape.delta);
    var (t0, t1) := (w, w.Times(d));
    var back := t1.Times(d.Inverse());
    var (n, pt) := (FromCast(castFirst, point), OnCast(castFirst, point));
    BackwardsPose(w, d, n);
    var (a, b) := (AverageSupport(castShape.shape, t0.basis.TMul(n)).1, AverageSupport(castShape.shape, t1.basis.TMul(n)).1);
    if a.Some? && b.Some? {
      BackwardsPose(w, d, a.value);
      var (w0, w1) := (t0.Apply(a.value), t1.Apply(b.value));
      InterpolateInUnit(n.Dot(w0), n.Dot(w1), len(pt.Sub(w0)), len(pt.Sub(w1)));
    }
  }

  // ---- which end of the sweep is which -----------------------------------

  /** How far `p` lies along `n`, the shape being placed at `t`. */
  function Reach(t: Transform, p: Vec3, n: Vec3): real { n.Dot(t.Apply(p)) }

  ghost predicate VertexLeads(vs: seq<Vec3>, i: nat, t0: Transform, t1: Transform, n: Vec3)
    requires i < |vs|
  {
    forall j :: 0 <= j < |vs| ==>
      Reach(t0, vs[i], n) > Reach(t1, vs[j], n) + BULLET_SUPPORT_FUNC_TOLERANCE + 2.0 * BULLET_EPSILON
  }

  /** Some point averaging may use at `t0` lies further along `n` than every one it may use at `t1`, by more than the
      tolerance, and, for a vertex list, than the band is deep. */
  ghost predicate Leads(shape: ConvexShape, t0: Transform, t1: Transform, n: Vec3) {
    match shape.PolyhedralVertices()
    case Some(vs) => exists i :: 0 <= i < |vs| && VertexLeads(vs, i, t0, t1, n)
    case None =>
      Reach(t0, shape.SupportWithoutMargin(t0.basis.TMul(n)), n)
      > Reach(t1, shape.SupportWithoutMargin(t1.basis.TMul(n)), n) + BULLET_SUPPORT_FUNC_TOLERANCE
  }

  /** The average at a pose, in the world. */
  function WorldAverage(shape: ConvexShape, t: Transform, n: Vec3): Option<Vec3> {
    var p := AverageSupport(shape, t.basis.TMul(n)).1;
    if p.None? then None else Some(t.Apply(p.value))
  }

  lemma ReachIs(t: Transform, p: Vec3, n: Vec3)
    ensures Reach(t, p, n) == p.Dot(t.basis.TMul(n)) + n.Dot(t.origin)
  {
    DotAdd(n, t.basis.Mul(p), t.origin);
    Adjoint(t.basis, n, p);
    DotSym(p, t.basis.TMul(n));
  }

  lemma {:induction false} SumReach(vs: seq<Vec3>, kept: seq<nat>, n: Vec3, lo: real, hi: real)
    requires forall k :: 0 <= k < |kept| ==> kept[k] < |vs| && lo <= vs[kept[k]].Dot(n) <= hi
    ensures lo * |kept| as real <= SumOf(vs, kept).Dot(n) <= hi * |kept| as real
    decreases |kept|
  {
    hide Vec3.Dot, Vec3.Add;
    if kept == [] {
      DotSym(ZERO, n);
      DotZero(n);
    } else {
      var rest := kept[..|kept| - 1];
      var (sum, last) := (SumOf(vs, rest), vs[kept[|kept| - 1]]);
      SumReach(vs, rest, n, lo, hi);
      DotSym(sum.Add(last), n);
      DotSym(sum, n);
      DotSym(last, n);
      DotAdd(n, sum, last);
      assert SumOf(vs, kept).Dot(n) == sum.Dot(n) + last.Dot(n);
      Grown(lo, |rest| as real, sum.Dot(n), last.Dot(n), hi);
      assert |kept| as real == |rest| as real + 1.0;
    }
  }

  lemma Grown(lo: real, m: real, s: real, v: real, hi: real)
    requires lo * m <= s <= hi * m && lo <= v <= hi
    ensures lo * (m + 1.0) <= s + v <= hi * (m + 1.0)
  {
    assert lo * (m + 1.0) == lo * m + lo && hi * (m + 1.0) == hi * m + hi;
  }

  /** The average reaches at most as far as the furthest vertex, and falls short of any by two epsilons at most. */
  lemma MeanReach(vs: seq<Vec3>, n: Vec3, i: nat, top: real)
    requires i < |vs| && Mean(BandOf(vs, n)).Some? && forall j :: 0 <= j < |vs| ==> vs[j].Dot(n) <= top
    ensures vs[i].Dot(n) - 2.0 * BULLET_EPSILON <= Mean(BandOf(vs, n)).value.Dot(n) <= top
  {
    hide Vec3.Dot, Vec3.Add, Vec3.Scale, BandOf;
    var kept := BandKeeps(vs, n);
    SumReach(vs, kept, n, vs[i].Dot(n) - 2.0 * BULLET_EPSILON, top);
    var (sum, m) := (SumOf(vs, kept), |kept| as real);
    DotSym(sum.Scale(1.0 / m), n);
    DotSym(sum, n);
    DotScale(n, 1.0 / m, sum);
    Divided(m, n.Dot(sum), vs[i].Dot(n) - 2.0 * BULLET_EPSILON, top);
  }

  lemma Divided(m: real, s: real, lo: real, hi: real)
    requires m > 0.0 && lo * m <= s <= hi * m
    ensures lo <= (1.0 / m) * s <= hi
  {
    assert (1.0 / m) * s == s / m;
  }

  /** The averages at the two poses keep such a lead. */
  lemma AverageLeads(shape: ConvexShape, t0: Transform, t1: Transform, n: Vec3)
    requires Leads(shape, t0, t1, n)
    ensures var (w0, w1) := (WorldAverage(shape, t0, n), WorldAverage(shape, t1, n));
            w0.Some? && w1.Some? ==> n.Dot(w0.value) > n.Dot(w1.value) + BULLET_SUPPORT_FUNC_TOLERANCE
  {
    hide Vec3.Dot, Vec3.Scale, Transform.Apply, BandOf, Mean, Matrix3.TMul;
    var (p0, p1) := (AverageSupport(shape, t0.basis.TMul(n)).1, AverageSupport(shape, t1.basis.TMul(n)).1);
    if p0.Some? && p1.Some? && shape.PolyhedralVertices().Some? {
      MeanLeads(shape.PolyhedralVertices().value, t0, t1, n, p0.value, p1.value);
    }
  }

  lemma MeanLeads(vs: seq<Vec3>, t0: Transform, t1: Transform, n: Vec3, p0: Vec3, p1: Vec3)
    requires exists i :: 0 <= i < |vs| && VertexLeads(vs, i, t0, t1, n)
    requires Mean(BandOf(vs, t0.basis.TMul(n))) == Some(p0) && Mean(BandOf(vs, t1.basis.TMul(n))) == Some(p1)
    ensures Reach(t0, p0, n) > Reach(t1, p1, n) + BULLET_SUPPORT_FUNC_TOLERANCE
  {
    hide Reach, Vec3.Dot, BandOf, Mean, Matrix3.TMul;
    var i :| 0 <= i < |vs| && VertexLeads(vs, i, t0, t1, n);
    NotFarBelow(vs, t0, n, p0, i);
    var j := NotAbove(vs, t1, n, p1);
  }

  lemma NotFarBelow(vs: seq<Vec3>, t: Transform, n: Vec3, p: Vec3, i: nat)
    requires i < |vs| && Mean(BandOf(vs, t.basis.TMul(n))) == Some(p)
    ensures Reach(t, p, n) >= Reach(t, vs[i], n) - 2.0 * BULLET_EPSILON
  {
    hide Reach, Vec3.Dot, BandOf, Mean, Matrix3.TMul;
    var m := t.basis.TMul(n);
    var top := Highest(vs, m);
    MeanReach(vs, m, i, vs[top].Dot(m));
    ReachIs(t, p, n);
    ReachIs(t, vs[i], n);
  }

  lemma NotAbove(vs: seq<Vec3>, t: Transform, n: Vec3, p: Vec3) returns (j: nat)
    requires vs != [] && Mean(BandOf(vs, t.basis.TMul(n))) == Some(p)
    ensures j < |vs| && Reach(t, p, n) <= Reach(t, vs[j], n)
  {
    hide Reach, Vec3.Dot, BandOf, Mean, Matrix3.TMul;
    var m := t.basis.TMul(n);
    j := Highest(vs, m);
    MeanReach(vs, m, j, vs[j].Dot(m));
    ReachIs(t, p, n);
    ReachIs(t, vs[j], n);
  }

  lemma {:induction false} Highest(vs: seq<Vec3>, n: Vec3) returns (top: nat)
    requires vs != []
    ensures top < |vs| && forall j :: 0 <= j < |vs| ==> vs[j].Dot(n) <= vs[top].Dot(n)
    decreases |vs|
  {
    hide Vec3.Dot;
    var m := |vs| - 1;
    if m == 0 {
      top := 0;
    } else {
      top := Highest(vs[..m], n);
      assert forall j :: 0 <= j < m ==> vs[..m][j] == vs[j];
      if vs[m].Dot(n) > vs[top].Dot(n) { top := m; }
    }
  }

  lemma FromCastIs(castFirst: bool, point: ManifoldPoint)
    ensures FromCast(castFirst, point) == if castFirst then point.normalWorldOnB.Neg() else point.normalWorldOnB
    ensures OnCast(castFirst, point) == if castFirst then point.positionWorldOnA else point.positionWorldOnB
  {}

  /**
   Which end a contact is filed at. Along the normal that leaves the swept shape,
   turned round when that shape came first: a start pose in the lead means the
   start of the motion, an end pose in the lead its end.
   */
  lemma LeadDecides(len: Norm, castShape: ConvexShape, castWorld: Transform, point: ManifoldPoint, castFirst: bool)
    requires castShape.CastHull?
    requires PercentInterpolation(len, castShape, castWorld, point, castFirst).Some?
    ensures var (n, t1) := (if castFirst then point.normalWorldOnB.Neg() else point.normalWorldOnB,
                            castWorld.Times(castShape.delta));
            var f := PercentInterpolation(len, castShape, castWorld, point, castFirst).value;
            && (Leads(castShape.shape, castWorld, t1, n) ==> f == 0.0)
            && (Leads(castShape.shape, t1, castWorld, n) ==> f == 1.0)
  {
    hide Vec3.Dot, Leads, AverageSupport;
    FromCastIs(castFirst, point);
    var (n, t1) := (FromCast(castFirst, point), castWorld.Times(castShape.delta));
    if Leads(castShape.shape, castWorld, t1, n) { AverageLeads(castShape.shape, castWorld, t1, n); }
    if Leads(castShape.shape, t1, castWorld, n) { AverageLeads(castShape.shape, t1, castWorld, n); }
  }

  /** The averages are level: neither is further along than the other by more than the tolerance. */
  predicate Level(w0: Vec3, w1: Vec3, n: Vec3) {
    n.Dot(w0) - n.Dot(w1) <= BULLET_SUPPORT_FUNC_TOLERANCE && n.Dot(w1) - n.Dot(w0) <= BULLET_SUPPORT_FUNC_TOLERANCE
  }

  /**
   With the averages level, the distances of the contact on the swept shape to
   the two averages decide: a contact at the first average is at the start, one
   at the second at the end, one as good as at both is half-way, and further from
   the first and nearer to the second is later.
   */
  lemma DistancesDecide(len: Norm, castShape: ConvexShape, castWorld: Transform, point: ManifoldPoint, castFirst: bool,
                        w0: Vec3, w1: Vec3)
    requires castShape.CastHull? && IsNorm(len)
    requires var n := if castFirst then point.normalWorldOnB.Neg() else point.normalWorldOnB;
             && WorldAverage(castShape.shape, castWorld, n) == Some(w0)
             && WorldAverage(castShape.shape, castWorld.Times(castShape.delta), n) == Some(w1)
             && Level(w0, w1, n)
    ensures PercentInterpolation(len, castShape, castWorld, point, castFirst).Some?
    ensures var f := PercentInterpolation(len, castShape, castWorld, point, castFirst).value;
            var at := if castFirst then point.positionWorldOnA else point.positionWorldOnB;
            var (d0, d1) := (len(at.Sub(w0)), len(at.Sub(w1)));
            && (d0 == 0.0 && d1 >= BULLET_LENGTH_TOLERANCE ==> f == 0.0)
            && (d1 == 0.0 && d0 >= BULLET_LENGTH_TOLERANCE ==> f == 1.0)
            && (d0 + d1 < BULLET_LENGTH_TOLERANCE ==> f == 0.5)
            && forall later: ManifoldPoint ::
                 var to := if castFirst then later.positionWorldOnA else later.positionWorldOnB;
                 && later.normalWorldOnB == point.normalWorldOnB && d0 + d1 >= BULLET_LENGTH_TOLERANCE
                 && len(to.Sub(w0)) >= d0 && len(to.Sub(w1)) <= d1
                 && len(to.Sub(w0)) + len(to.Sub(w1)) >= BULLET_LENGTH_TOLERANCE
                 ==> PercentInterpolation(len, castShape, castWorld, later, castFirst).Some?
                     && PercentInterpolation(len, castShape, castWorld, later, castFirst).value >= f
  {
    hide Vec3.Dot, AverageSupport, Vec3.Sub, Vec3.Scale;
    FromCastIs(castFirst, point);
    var at := OnCast(castFirst, point);
    var (d0, d1) := (len(at.Sub(w0)), len(at.Sub(w1)));
    forall later: ManifoldPoint |
      && later.normalWorldOnB == point.normalWorldOnB && d0 + d1 >= BULLET_LENGTH_TOLERANCE
      && len(OnCast(castFirst, later).Sub(w0)) >= d0 && len(OnCast(castFirst, later).Sub(w1)) <= d1
      && len(OnCast(castFirst, later).Sub(w0)) + len(OnCast(castFirst, later).Sub(w1)) >= BULLET_LENGTH_TOLERANCE
      ensures PercentInterpolation(len, castShape, castWorld, later, castFirst).Some?
      ensures PercentInterpolation(len, castShape, castWorld, later, castFirst).value
           >= PercentInterpolation(len, castShape, castWorld, point, castFirst).value
    {
      FromCastIs(castFirst, later);
      ShareGrows(d0, d1, len(OnCast(castFirst, later).Sub(w0)), len(OnCast(castFirst, later).Sub(w1)));
    }
  }

  lemma ShareGrows(a: real, b: real, c: real, d: real)
    requires a >= 0.0 && d >= 0.0 && c >= a && d <= b && a + b > 0.0 && c + d > 0.0
    ensures a / (a + b) <= c / (c + d)
  {
    MulMono(a, d, b);
    MulMono(b, a, c);
    assert a * b == b * a && c * b == b * c;
    Shared(a, b, c, d);
    Crossed(a, a + b, c, c + d);
  }

  lemma Shared(a: real, b: real, c: real, d: real)
    ensures c * (a + b) - a * (c + d) == c * b - a * d
  {}

  lemma Crossed(a: real, x: real, c: real, y: real)
    requires x > 0.0 && y > 0.0 && a * y <= c * x
    ensures a / x <= c / y
  {
    Uncancelled(a, x, y);
    Uncancelled(c, y, x);
    assert x * y == y * x;
    Cancelled(a / x, c / y, x * y);
  }

  lemma Uncancelled(a: real, x: real, y: real)
    requires x > 0.0
    ensures (a / x) * (x * y) == a * y
  {
    var p := a / x;
    assert p * x == a;
    assert p * (x * y) == (p * x) * y;
  }

  lemma Cancelled(p: real, q: real, k: real)
    requires k > 0.0 && p * k <= q * k
    ensures p <= q
  {
    assert (q - p) * k >= 0.0;
  }
}
