/**
 What re-aiming a sweep guarantees (crates/cspace-bullet-cast/src/cast_object.rs:138-186,
 crates/cspace-bullet/src/compound.rs:268-312).
 */
module CastReposing {
  import opened LinearMath
  import opened Wrappers
  import opened Shapes
  import opened Dbvt
  import opened Compound
  import opened CompoundAlgorithm
  import opened CompoundProperties
  import opened CollisionObject
  import opened CastHullShape
  import opened CastObject

  // ---- the tree follows the children -------------------------------------

  /** In sync once the local box has been recalculated. */
  ghost predicate Settled(s: Shape) {
    s.Compound? && InSync(Recalculated(s))
  }

  lemma UpdateTreeHolds(t: Option<Node>, e: seq<Entry>, i: nat, v: Aabb)
    requires TreeHolds(t, e) && DistinctData(e) && i < |e| && e[i].1 == i
    ensures TreeHolds(Update(t, v, i), e[i := (v, i)])
  {
    TreeDataDistinct(t, e);
    MemberByCount(TreeLeaves(t), e, e[i]);
    assert e[i] in TreeLeaves(t);
    var k :| 0 <= k < |TreeLeaves(t)| && TreeLeaves(t)[k] == e[i];
    UpdateKeeps(t, k, v);
  }

  lemma ReplaceChildTree(s: Shape, i: nat, c: Child)
    requires s.Compound? && s.tree.Some? && i < |s.children| && TreeHolds(s.tree.value, Entries(s.children))
    ensures TreeHolds(ReplaceChild(s, i, c).tree.value, Entries(ReplaceChild(s, i, c).children))
  {
    hide ChildAabb, TreeHolds;
    EntriesDistinct(s.children);
    UpdateTreeHolds(s.tree.value, Entries(s.children), i, ChildAabb(c));
    assert Entries(s.children[i := c]) == Entries(s.children)[i := (ChildAabb(c), i)];
  }

  /** Replacing a child together with its leaf keeps the compound settled. */
  lemma ReplaceChildSettled(s: Shape, i: nat, c: Child)
    requires Settled(s) && i < |s.children| && InSync(c.shape) && c.transform.Rigid()
    ensures Settled(ReplaceChild(s, i, c))
  {
    hide AabbSound, ChildAabb, TreeHolds, Entries;
    var r := ReplaceChild(s, i, c);
    if s.tree.Some? { ReplaceChildTree(s, i, c); }
    forall k | 0 <= k < |r.children|
      ensures InSync(r.children[k].shape) && r.children[k].transform.Rigid()
      ensures Recalculated(r).localAabb.Contain(ChildAabb(r.children[k]))
    {
      UnionContains(r.children, k);
      assert k != i ==> r.children[k] == s.children[k];
    }
  }

  lemma SweptLeafSound(inner: ConvexShape, d: Transform)
    requires AabbSound(inner) && d.Rigid()
    ensures InSync(SweptShape(inner, d))
  {
    CastHullSound(inner, d);
  }

  lemma DeltaRigid(local: Transform, tf1: Transform, tf2: Transform)
    requires local.Rigid() && tf1.Rigid() && tf2.Rigid()
    ensures Delta(local, tf1, tf2).Rigid()
  {
    RigidTimes(tf1, local);
    RigidTimes(tf2, local);
    RigidInverseTimes(tf1.Times(local), tf2.Times(local));
  }

  lemma ReposedLeafSound(c: Child, inner: ConvexShape, tf1: Transform, tf2: Transform)
    requires AabbSound(inner) && c.transform.Rigid() && tf1.Rigid() && tf2.Rigid()
    ensures InSync(ReposedLeaf(c, inner, tf1, tf2).shape)
    ensures ReposedLeaf(c, inner, tf1, tf2).transform == c.transform
  {
    DeltaRigid(c.transform, tf1, tf2);
    SweptLeafSound(inner, Delta(c.transform, tf1, tf2));
  }

  ghost predicate AllSound(inners: seq<ConvexShape>) {
    forall j :: 0 <= j < |inners| ==> AabbSound(inners[j])
  }

  /** Leaf by leaf: transforms stay, the first `n` leaves carry their new deltas, the others are untouched. */
  lemma {:induction false} ReposeHullsExact(s: Shape, inners: seq<ConvexShape>, tf1: Transform, tf2: Transform, n: nat)
    requires s.Compound? && |inners| == |s.children| && n <= |inners|
    ensures var r := ReposeHulls(s, inners, tf1, tf2, n);
            && (forall k :: 0 <= k < n ==> r.children[k] == ReposedLeaf(s.children[k], inners[k], tf1, tf2))
            && (forall k :: n <= k < |s.children| ==> r.children[k] == s.children[k])
            && r.margin == s.margin && r.localAabb == s.localAabb && (r.tree.Some? <==> s.tree.Some?)
    ensures Settled(s) && AllSound(inners) && tf1.Rigid() && tf2.Rigid() ==> Settled(ReposeHulls(s, inners, tf1, tf2, n))
    decreases n
  {
    hide Settled, AabbSound, ReposedLeaf, ChildAabb, Transform.Rigid;
    if n > 0 {
      var t := ReposeHulls(s, inners, tf1, tf2, n - 1);
      ReposeHullsExact(s, inners, tf1, tf2, n - 1);
      if Settled(s) && AllSound(inners) && tf1.Rigid() && tf2.Rigid() {
        SettledRigid(t, n - 1);
        ReposedLeafSound(t.children[n - 1], inners[n - 1], tf1, tf2);
        ReplaceChildSettled(t, n - 1, ReposedLeaf(t.children[n - 1], inners[n - 1], tf1, tf2));
      }
    }
  }

  lemma SettledRigid(s: Shape, i: nat)
    requires Settled(s) && i < |s.children|
    ensures s.children[i].transform.Rigid() && InSync(s.children[i].shape)
  {
    hide AabbSound;
  }

  // ---- one level ---------------------------------------------------------

  ghost predicate OneLevel(hs: seq<ChildHulls>) {
    forall i :: 0 <= i < |hs| ==> hs[i].Hull?
  }

  function Inners(hs: seq<ChildHulls>): seq<ConvexShape>
    requires forall i :: 0 <= i < |hs| ==> hs[i].Hull?
  {
    seq(|hs|, i requires 0 <= i < |hs| => hs[i].inner)
  }

  lemma {:induction false} OneLevelIsHulls(s: Shape, hs: seq<ChildHulls>, tf1: Transform, tf2: Transform, n: nat)
    requires Matches(s, Children(hs)) && OneLevel(hs) && n <= |hs|
    ensures ReposeChildren(s, hs, tf1, tf2, n) == ReposeHulls(s, Inners(hs), tf1, tf2, n)
    decreases n
  {
    hide ReplaceChild, ReposedLeaf;
    if n > 0 { OneLevelIsHulls(s, hs, tf1, tf2, n - 1); }
  }

  /**
   Re-posing a one-level compound: every box and leaf volume is the new child's,
   the local box is their union, and each hull's two placements in the world sit
   where the two poses put the child.
   */
  lemma ReposeCompoundExact(s: Shape, hs: seq<ChildHulls>, tf1: Transform, tf2: Transform)
    requires Matches(s, Children(hs)) && OneLevel(hs) && Settled(s) && AllSound(Inners(hs))
    requires tf1.Rigid() && tf2.Rigid()
    ensures var r := Repose(s, Children(hs), tf1, tf2);
            && r.Compound? && InSync(r) && r.localAabb == Union(r.children) && |r.children| == |s.children|
            && (forall i :: 0 <= i < |hs| ==>
                  && r.children[i].transform == s.children[i].transform
                  && r.children[i].shape == SweptShape(hs[i].inner, Delta(s.children[i].transform, tf1, tf2)))
    ensures forall i, p {:trigger s.children[i], tf2.Times(s.children[i].transform).Apply(p)} :: 0 <= i < |hs| ==>
              var local := s.children[i].transform;
              tf1.Times(local).Times(Delta(local, tf1, tf2)).Apply(p) == tf2.Times(local).Apply(p)
  {
    hide InSync, AabbSound;
    var r := Repose(s, Children(hs), tf1, tf2);
    OneLevelIsHulls(s, hs, tf1, tf2, |hs|);
    ReposeHullsExact(s, Inners(hs), tf1, tf2, |hs|);
    forall i, p | 0 <= i < |hs|
      ensures var local := s.children[i].transform;
              tf1.Times(local).Times(Delta(local, tf1, tf2)).Apply(p) == tf2.Times(local).Apply(p)
    {
      var local := s.children[i].transform;
      SettledRigid(s, i);
      RigidTimes(tf1, local);
      DeltaReaches(tf1.Times(local), tf2.Times(local), p);
    }
  }

  /** Re-posing a single shape: one hull whose placements are the two poses. */
  lemma ReposeSingleExact(s: Shape, inner: ConvexShape, tf1: Transform, tf2: Transform, p: Vec3)
    requires Matches(s, Single(inner)) && tf1.Rigid() && tf2.Rigid() && AabbSound(inner)
    ensures var r := Repose(s, Single(inner), tf1, tf2);
            && r == SweptShape(inner, tf1.InverseTimes(tf2)) && InSync(r)
            && tf1.Times(r.convex.delta).Apply(p) == tf2.Apply(p)
  {
    DeltaReaches(tf1, tf2, p);
    RigidInverseTimes(tf1, tf2);
    SweptLeafSound(inner, tf1.InverseTimes(tf2));
  }

  // ---- at most one level deep: in sync whatever the poses -----------------

  /** Handles of a single shape or of a compound of hulls, over sound inner shapes. */
  ghost predicate Refreshed(h: CastHulls) {
    match h
    case Single(inner) => AabbSound(inner)
    case Children(hs) => OneLevel(hs) && AllSound(Inners(hs))
  }

  /** A convex shape, or a compound of convex shapes. */
  predicate Shallow(s: Shape) {
    s.Compound? ==> forall i :: 0 <= i < |s.children| ==> s.children[i].shape.Convex?
  }

  /** The handles of a shallow shape's twin are refreshed by every re-posing. */
  lemma ShallowRefreshed(s: Shape)
    requires Sweepable(s) && Sound(s) && Shallow(s)
    ensures Refreshed(HullsOf(s))
  {
    hide AabbSound;
    if s.Compound? {
      var hs := HullsOf(s).children;
      forall i | 0 <= i < |hs| ensures hs[i].Hull? && AabbSound(hs[i].inner) {
        assert Sound(s.children[i].shape);
      }
    }
  }

  lemma InSyncSettled(s: Shape)
    requires InSync(s) && s.Compound?
    ensures Settled(s)
  {
    hide AabbSound, ChildAabb, TreeHolds, Entries, Union;
    forall i | 0 <= i < |s.children| ensures Recalculated(s).localAabb.Contain(ChildAabb(s.children[i])) {
      UnionContains(s.children, i);
    }
  }

  /** Re-posing between rigid poses keeps boxes, trees and children in agreement. */
  lemma ReposeInSync(s: Shape, h: CastHulls, tf1: Transform, tf2: Transform)
    requires Matches(s, h) && InSync(s) && Refreshed(h) && tf1.Rigid() && tf2.Rigid()
    ensures InSync(Repose(s, h, tf1, tf2))
  {
    hide InSync, AabbSound, Transform.Rigid;
    match h
    case Single(inner) => ReposeSingleExact(s, inner, tf1, tf2, Vec3(0.0, 0.0, 0.0));
    case Children(hs) => InSyncSettled(s); ReposeCompoundExact(s, hs, tf1, tf2);
  }

  // ---- what re-posing keeps ----------------------------------------------

  lemma {:induction false} ReposeHullsSwept(s: Shape, inners: seq<ConvexShape>, tf1: Transform, tf2: Transform, n: nat)
    requires s.Compound? && |inners| == |s.children| && n <= |inners| && AllHulls(s)
    ensures AllHulls(ReposeHulls(s, inners, tf1, tf2, n)) && AllConvexTypes(ReposeHulls(s, inners, tf1, tf2, n))
    ensures forall j :: 0 <= j < n ==> ReposeHulls(s, inners, tf1, tf2, n).children[j].shape.Convex?
    decreases n
  {
    hide ReplaceChild, ReposedLeaf;
    if n == 0 {
      HullsAreConvexTypes(s);
    } else {
      ReposeHullsSwept(s, inners, tf1, tf2, n - 1);
      var t := ReposeHulls(s, inners, tf1, tf2, n - 1);
      ReposedLeafSwept(t.children[n - 1], inners[n - 1], tf1, tf2);
    }
  }

  lemma ReposedLeafSwept(c: Child, inner: ConvexShape, tf1: Transform, tf2: Transform)
    ensures var r := ReposedLeaf(c, inner, tf1, tf2).shape;
            r.Convex? && AllHulls(r) && AllConvexTypes(r)
  {}

  lemma {:induction false} HullsAreConvexTypes(s: Shape)
    requires AllHulls(s)
    ensures AllConvexTypes(s)
    decreases s
  {
    if s.Compound? {
      forall i | 0 <= i < |s.children| ensures AllConvexTypes(s.children[i].shape) {
        HullsAreConvexTypes(s.children[i].shape);
      }
    }
  }

  lemma {:induction false} ReposeChildrenSwept(s: Shape, hs: seq<ChildHulls>, tf1: Transform, tf2: Transform, n: nat)
    requires Matches(s, Children(hs)) && n <= |hs| && AllHulls(s)
    ensures AllHulls(ReposeChildren(s, hs, tf1, tf2, n))
    ensures Matches(ReposeChildren(s, hs, tf1, tf2, n), Children(hs))
    decreases n
  {
    hide ReposeChild, AllHulls;
    if n > 0 {
      ReposeChildrenSwept(s, hs, tf1, tf2, n - 1);
      var t := ReposeChildren(s, hs, tf1, tf2, n - 1);
      ReposeChildSwept(t, n - 1, hs, tf1, tf2);
    }
  }

  lemma ReposeChildSwept(t: Shape, i: nat, hs: seq<ChildHulls>, tf1: Transform, tf2: Transform)
    requires Matches(t, Children(hs)) && i < |hs| && AllHulls(t)
    ensures AllHulls(ReposeChild(t, i, hs[i], tf1, tf2))
    ensures Matches(ReposeChild(t, i, hs[i], tf1, tf2), Children(hs))
  {
    hide ReplaceChild, ReposedLeaf, Recalculated;
    var r := ReposeChild(t, i, hs[i], tf1, tf2);
    match hs[i]
    case Hull(inner) => ReposedLeafSwept(t.children[i], inner, tf1, tf2);
    case Grandchildren(inners) =>
      ReposeHullsSwept(t.children[i].shape, inners, tf1, tf2, |inners|);
      assert r.children[i].shape == ReposeSecond(t.children[i].shape, inners, tf1, tf2);
  }

  /** Re-posing keeps every leaf a swept hull and the handles fitting. */
  lemma ReposeKeepsSwept(s: Shape, h: CastHulls, tf1: Transform, tf2: Transform)
    requires Matches(s, h) && AllHulls(s)
    ensures AllHulls(Repose(s, h, tf1, tf2)) && Matches(Repose(s, h, tf1, tf2), h)
  {
    if h.Children? { ReposeChildrenSwept(s, h.children, tf1, tf2, |h.children|); }
  }
}
