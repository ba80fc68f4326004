/**
 What culling lets through (crates/cspace-bullet/src/compound_algorithm.rs:286-310, 420-450).
 */
module CompoundCulling {
  import opened LinearMath
  import opened Wrappers
  import opened Shapes
  import opened Dbvt
  import opened Compound
  import opened CompoundAlgorithm

  /** The world boxes of two wrappers overlap on every axis once the first is grown; touching counts. */
  predicate BoxesMeet(x: Wrapper, y: Wrapper, threshold: real) {
    var (a, b) := (x.shape.GetAabb(x.worldTransform), y.shape.GetAabb(y.worldTransform));
    && a.mi.x - threshold <= b.mx.x && b.mi.x <= a.mx.x + threshold
    && a.mi.y - threshold <= b.mx.y && b.mi.y <= a.mx.y + threshold
    && a.mi.z - threshold <= b.mx.z && b.mi.z <= a.mx.z + threshold
  }

  lemma OverlapMeets(x: Wrapper, y: Wrapper, threshold: real)
    ensures ChildOverlaps(x, y, threshold) <==> BoxesMeet(x, y, threshold)
  {}

  /** From two operands down to a dispatched pair by steps into the children of one of them or of both, the boxes meeting
      after each step. */
  ghost predicate MeetsAllTheWay(b0: Wrapper, b1: Wrapper, x: Wrapper, y: Wrapper, threshold: real)
    decreases Size(b0.shape) + Size(b1.shape)
  {
    || (b0.shape.Convex? && b1.shape.Convex? && x == b0 && y == b1)
    || (b0.shape.Compound? && exists i :: 0 <= i < |b0.shape.children| && StepFirst(b0, b1, x, y, threshold, i))
    || (b1.shape.Compound? && exists i :: 0 <= i < |b1.shape.children| && StepSecond(b0, b1, x, y, threshold, i))
    || (b0.shape.Compound? && b1.shape.Compound?
        && exists i, j :: 0 <= i < |b0.shape.children| && 0 <= j < |b1.shape.children| && StepBoth(b0, b1, x, y, threshold, i, j))
  }

  ghost predicate StepFirst(b0: Wrapper, b1: Wrapper, x: Wrapper, y: Wrapper, threshold: real, i: nat)
    requires b0.shape.Compound? && i < |b0.shape.children|
    decreases Size(b0.shape) + Size(b1.shape), 0
  {
    SizeOfChild(b0.shape.children, i);
    BoxesMeet(b0.Child(i), b1, threshold) && MeetsAllTheWay(b0.Child(i), b1, x, y, threshold)
  }

  ghost predicate StepSecond(b0: Wrapper, b1: Wrapper, x: Wrapper, y: Wrapper, threshold: real, i: nat)
    requires b1.shape.Compound? && i < |b1.shape.children|
    decreases Size(b0.shape) + Size(b1.shape), 0
  {
    SizeOfChild(b1.shape.children, i);
    BoxesMeet(b1.Child(i), b0, threshold) && MeetsAllTheWay(b1.Child(i), b0, x, y, threshold)
  }

  ghost predicate StepBoth(b0: Wrapper, b1: Wrapper, x: Wrapper, y: Wrapper, threshold: real, i: nat, j: nat)
    requires b0.shape.Compound? && b1.shape.Compound? && i < |b0.shape.children| && j < |b1.shape.children|
    decreases Size(b0.shape) + Size(b1.shape), 0
  {
    SizeOfChild(b0.shape.children, i);
    SizeOfChild(b1.shape.children, j);
    BoxesMeet(b0.Child(i), b1.Child(j), threshold) && MeetsAllTheWay(b0.Child(i), b1.Child(j), x, y, threshold)
  }

  ghost predicate AllMeet(b0: Wrapper, b1: Wrapper, pairs: seq<(Wrapper, Wrapper)>, threshold: real) {
    forall k :: 0 <= k < |pairs| ==> MeetsAllTheWay(b0, b1, pairs[k].0, pairs[k].1, threshold)
  }

  lemma MeetSwap(b0: Wrapper, b1: Wrapper, pairs: seq<(Wrapper, Wrapper)>, threshold: real)
    requires b1.shape.Compound? && b0.shape.Convex? && AllMeet(b1, b0, pairs, threshold)
    ensures AllMeet(b0, b1, pairs, threshold)
  {
    forall k | 0 <= k < |pairs| ensures MeetsAllTheWay(b0, b1, pairs[k].0, pairs[k].1, threshold) {
      assert MeetsAllTheWay(b1, b0, pairs[k].0, pairs[k].1, threshold);
      var i :| 0 <= i < |b1.shape.children| && StepFirst(b1, b0, pairs[k].0, pairs[k].1, threshold, i);
      assert StepSecond(b0, b1, pairs[k].0, pairs[k].1, threshold, i);
    }
  }

  /** Every dispatched pair was reached by steps whose boxes meet. */
  lemma {:induction false} DispatchedMeets(b0: Wrapper, b1: Wrapper, table: DispatchTable, threshold: real)
    requires Indexed(b0.shape) && Indexed(b1.shape)
    ensures AllMeet(b0, b1, Collide(b0, b1, table, threshold).pairs, threshold)
    decreases Size(b0.shape) + Size(b1.shape), 3
  {
    hide ChildOverlaps, FindAlgorithm, MeetsAllTheWay, BoxesMeet;
    match (b0.shape, b1.shape)
    case (Convex(_), Convex(_)) => TopMeets(b0, b1, threshold);
    case (Compound(_, _, tree0, _), Compound(_, _, tree1, _)) =>
      if tree0.None? || tree1.None? {
        ChildrenMeet(b0, b1, threshold);
      } else {
        PairListIndexed(b0, b1, threshold);
        PairsMeet(b0, b1, PairList(b0, b1, threshold), threshold);
      }
    case (Compound(_, _, _, _), Convex(_)) => ChildrenMeet(b0, b1, threshold);
    case (Convex(_), Compound(_, _, _, _)) =>
      ChildrenMeet(b1, b0, threshold);
      MeetSwap(b0, b1, CollideChildren(b1, b0, threshold).pairs, threshold);
  }

  lemma TopMeets(b0: Wrapper, b1: Wrapper, threshold: real)
    requires b0.shape.Convex? && b1.shape.Convex?
    ensures MeetsAllTheWay(b0, b1, b0, b1, threshold)
  {}

  lemma {:induction false} ChildrenMeet(c: Wrapper, o: Wrapper, threshold: real)
    requires c.shape.Compound? && Indexed(c.shape) && Indexed(o.shape)
    ensures AllMeet(c, o, CollideChildren(c, o, threshold).pairs, threshold)
    decreases Size(c.shape) + Size(o.shape), 2
  {
    ChildListIndexed(c, o, threshold);
    ListMeets(c, o, ChildList(c, o, threshold), threshold);
  }

  lemma {:induction false} ListMeets(c: Wrapper, o: Wrapper, list: seq<nat>, threshold: real)
    requires c.shape.Compound? && Indexed(c.shape) && Indexed(o.shape) && Below(list, |c.shape.children|)
    ensures AllMeet(c, o, CollideList(c, o, list, threshold).pairs, threshold)
    decreases Size(c.shape) + Size(o.shape), 1, |list|
  {
    hide MeetsAllTheWay;
    if list != [] {
      ChildMeets(c, o, list[0], threshold);
      ListMeets(c, o, list[1..], threshold);
    }
  }

  lemma {:induction false} ChildMeets(c: Wrapper, o: Wrapper, i: nat, threshold: real)
    requires c.shape.Compound? && i < |c.shape.children| && Indexed(c.shape) && Indexed(o.shape)
    ensures AllMeet(c, o, CollideChild(c, o, i, threshold).pairs, threshold)
    decreases Size(c.shape) + Size(o.shape), 0
  {
    hide ChildOverlaps, BoxesMeet;
    SizeOfChild(c.shape.children, i);
    DispatchedMeets(c.Child(i), o, ChildTable(threshold), threshold);
    OverlapMeets(c.Child(i), o, threshold);
    var pairs := CollideChild(c, o, i, threshold).pairs;
    forall k | 0 <= k < |pairs| ensures MeetsAllTheWay(c, o, pairs[k].0, pairs[k].1, threshold) {
      assert StepFirst(c, o, pairs[k].0, pairs[k].1, threshold, i);
    }
  }

  lemma {:induction false} PairsMeet(b0: Wrapper, b1: Wrapper, list: seq<(nat, nat)>, threshold: real)
    requires b0.shape.Compound? && b1.shape.Compound? && Indexed(b0.shape) && Indexed(b1.shape)
    requires PairsBelow(list, |b0.shape.children|, |b1.shape.children|)
    ensures AllMeet(b0, b1, CollidePairs(b0, b1, list, threshold).pairs, threshold)
    decreases Size(b0.shape) + Size(b1.shape), 1, |list|
  {
    hide MeetsAllTheWay;
    if list != [] {
      PairMeets(b0, b1, list[0].0, list[0].1, threshold);
      PairsMeet(b0, b1, list[1..], threshold);
    }
  }

  lemma {:induction false} PairMeets(b0: Wrapper, b1: Wrapper, i: nat, j: nat, threshold: real)
    requires b0.shape.Compound? && b1.shape.Compound? && Indexed(b0.shape) && Indexed(b1.shape)
    requires i < |b0.shape.children| && j < |b1.shape.children|
    ensures AllMeet(b0, b1, CollidePair(b0, b1, i, j, threshold).pairs, threshold)
    decreases Size(b0.shape) + Size(b1.shape), 0
  {
    hide ChildOverlaps, BoxesMeet;
    SizeOfChild(b0.shape.children, i);
    SizeOfChild(b1.shape.children, j);
    DispatchedMeets(b0.Child(i), b1.Child(j), ChildTable(threshold), threshold);
    OverlapMeets(b0.Child(i), b1.Child(j), threshold);
    var pairs := CollidePair(b0, b1, i, j, threshold).pairs;
    forall k | 0 <= k < |pairs| ensures MeetsAllTheWay(b0, b1, pairs[k].0, pairs[k].1, threshold) {
      assert StepBoth(b0, b1, pairs[k].0, pairs[k].1, threshold, i, j);
    }
  }

  /** So the boxes of the two leaves themselves meet, unless the query was about two convex shapes to begin with. */
  lemma {:induction false} LeavesMeet(b0: Wrapper, b1: Wrapper, x: Wrapper, y: Wrapper, threshold: real)
    requires MeetsAllTheWay(b0, b1, x, y, threshold)
    ensures (b0.shape.Convex? && b1.shape.Convex? && x == b0 && y == b1) || BoxesMeet(x, y, threshold)
    decreases Size(b0.shape) + Size(b1.shape)
  {
    hide BoxesMeet;
    if b0.shape.Convex? && b1.shape.Convex? && x == b0 && y == b1 {
    } else if i :| b0.shape.Compound? && 0 <= i < |b0.shape.children| && StepFirst(b0, b1, x, y, threshold, i) {
      SizeOfChild(b0.shape.children, i);
      LeavesMeet(b0.Child(i), b1, x, y, threshold);
    } else if i :| b1.shape.Compound? && 0 <= i < |b1.shape.children| && StepSecond(b0, b1, x, y, threshold, i) {
      SizeOfChild(b1.shape.children, i);
      LeavesMeet(b1.Child(i), b0, x, y, threshold);
    } else {
      var i, j :| b0.shape.Compound? && b1.shape.Compound? && 0 <= i < |b0.shape.children| && 0 <= j < |b1.shape.children|
        && StepBoth(b0, b1, x, y, threshold, i, j);
      SizeOfChild(b0.shape.children, i);
      SizeOfChild(b1.shape.children, j);
      LeavesMeet(b0.Child(i), b1.Child(j), x, y, threshold);
    }
  }

  // ---- which algorithm a child pair gets ---------------------------------

  /** Two convex leaves go to the narrow phase exactly when neither is a plane or concave, they are not two spheres or a
      sphere and a triangle, and they are not two boxes looked up among contact points. */
  lemma LeavesResolve(b0: Wrapper, b1: Wrapper, table: DispatchTable, threshold: real)
    requires b0.shape.Convex? && b1.shape.Convex?
    ensures var (t0, t1) := (b0.shape.convex.ShapeType(), b1.shape.convex.ShapeType());
            var r := Collide(b0, b1, table, threshold);
            if && t0 < 20 && t1 < 20 && !(t0 == 8 && (t1 == 8 || t1 == 1)) && !(t0 == 1 && t1 == 8)
               && !(table == ContactPoints && t0 == 0 && t1 == 0)
            then r == Run([(b0, b1)], None) else r.pairs == [] && r.error.Some?
  {}

  /** What the others are reported as: the algorithm their two types call for, in the order of the operands. */
  lemma OthersNamed(b0: Wrapper, b1: Wrapper, table: DispatchTable, threshold: real)
    requires b0.shape.Convex? && b1.shape.Convex?
    ensures var (t0, t1) := (b0.shape.convex.ShapeType(), b1.shape.convex.ShapeType());
            var (flat0, flat1) := (t0 == 28, t1 == 28);
            var (hollow0, hollow1) := (20 < t0 < 30 && !flat0, 20 < t1 < 30 && !flat1);
            var r := Collide(b0, b1, table, threshold);
            && (r.error.Some? ==> r.error.value.proxyType0 == t0 && r.error.value.proxyType1 == t1)
            && (t0 == 8 && t1 == 8 ==> r.error == Some(UnportedAlgorithm(SphereSphere, 8, 8)))
            && (t0 == 8 && t1 == 1 ==> r.error == Some(UnportedAlgorithm(SphereTriangle, 8, 1)))
            && (t0 == 1 && t1 == 8 ==> r.error == Some(UnportedAlgorithm(TriangleSphere, 1, 8)))
            && (t0 < 20 && flat1 ==> r.error == Some(UnportedAlgorithm(ConvexPlane, t0, t1)))
            && (flat0 && t1 < 20 ==> r.error == Some(UnportedAlgorithm(PlaneConvex, t0, t1)))
            && (t0 < 20 && hollow1 ==> r.error == Some(UnportedAlgorithm(ConvexConcave, t0, t1)))
            && (hollow0 && t1 < 20 ==> r.error == Some(UnportedAlgorithm(SwappedConvexConcave, t0, t1)))
            && (t0 < 20 && (t1 == 20 || t1 == 30) ==> r.error == Some(UnportedAlgorithm(Empty, t0, t1)))
            && ((t0 == 20 || t0 == 30) && t1 < 20 ==> r.error == Some(UnportedAlgorithm(Empty, t0, t1)))
            && (t0 >= 20 && t1 >= 20 && t0 != 31 && t1 != 31 ==> r.error == Some(UnportedAlgorithm(Empty, t0, t1)))
  {}

  /**
   Two boxes: asked directly they go to the narrow phase. As a child against a
   box they do so only for a positive threshold; at zero, where the continuous
   check runs, the child is looked up among contact points, and the query ends
   with the unported box algorithm.
   */
  lemma BoxChild(c: Wrapper, o: Wrapper, threshold: real)
    requires c.shape.Compound? && c.shape.tree.None? && |c.shape.children| == 1 && c.shape.children[0].shape.Convex?
    requires o.shape.Convex? && c.shape.children[0].shape.convex.ShapeType() == BOX_SHAPE == o.shape.convex.ShapeType()
    requires BoxesMeet(c.Child(0), o, threshold)
    ensures Collide(c.Child(0), o, ClosestPoints, threshold) == Run([(c.Child(0), o)], None)
    ensures Collide(c, o, ClosestPoints, threshold)
         == if threshold > 0.0 then Run([(c.Child(0), o)], None)
            else Run([], Some(UnportedAlgorithm(BoxBox, BOX_SHAPE, BOX_SHAPE)))
  {
    hide ChildOverlaps, BoxesMeet;
    OverlapMeets(c.Child(0), o, threshold);
    var list := ChildList(c, o, threshold);
    assert list == [0];
    assert list[1..] == [];
    ChildListIndexed(c, o, threshold);
    assert CollideList(c, o, list, threshold)
        == Then(CollideChild(c, o, 0, threshold), CollideList(c, o, list[1..], threshold));
    var r := CollideChild(c, o, 0, threshold);
    assert r == Collide(c.Child(0), o, ChildTable(threshold), threshold);
    assert CollideList(c, o, list[1..], threshold) == NOTHING;
    ThenAssoc(r, NOTHING, NOTHING);
    assert Collide(c, o, ClosestPoints, threshold) == CollideChildren(c, o, threshold) == r;
  }

  /** Of two children added to a compound with a tree, the later one is offered first, when both meet the query volume. */
  lemma LaterChildFirst(t0: Transform, s0: Shape, t1: Transform, s1: Shape, w: Transform, id: nat, o: Wrapper, threshold: real)
    requires var v := o.shape.GetAabb(w.Inverse().Times(o.worldTransform)).Expand(threshold);
             s0.GetAabb(t0).Intersect(v) && s1.GetAabb(t1).Intersect(v)
    ensures ChildList(NewWrapper(WithChild(WithChild(EmptyCompound(true), t0, s0), t1, s1), w, id), o, threshold) == [1, 0]
  {
    hide Transform.Times, Transform.Inverse;
    var (a, b) := (s0.GetAabb(t0), s1.GetAabb(t1));
    var v := o.shape.GetAabb(w.Inverse().Times(o.worldTransform)).Expand(threshold);
    var n := InsertLeaf(Leaf(a, 0), b, 1);
    assert n == Inner(b.Merge(a), Leaf(a, 0), Leaf(b, 1));
    assert n.volume.Intersect(v) by { ContainIntersect(n.volume, a, v); }
    assert Tv(n, v) == [1, 0];
  }
}
