/**
 Re-posing a compound that has compound children (crates/cspace-bullet-cast/src/cast_object.rs:138-186).

 Two things go astray one level down: a grandchild's delta is taken without its
 parent's placement, and the parent's leaf in the outer tree is not refreshed.
 Both are given their exact conditions, and an input on which each one bites.
 */
module NestedReposing {
  import opened LinearMath
  import opened Wrappers
  import opened Shapes
  import opened Dbvt
  import opened Compound
  import opened CompoundAlgorithm
  import opened CompoundProperties
  import opened CollisionObject
  import opened CastHullShape
  import opened CastObject
  import opened CastReposing
  import opened Primitives

  // ---- two levels: exactly when it is exact ------------------------------

  /**
   A grandchild's delta is taken without its parent's own placement `outer`, so
   its second placement is right for every point exactly when `outer` commutes
   with the object's motion.
   */
  lemma NestedPlacementExact(tf1: Transform, tf2: Transform, outer: Transform, local: Transform)
    requires tf1.Rigid() && local.Rigid()
    ensures (forall p :: tf1.Times(outer).Times(local).Times(Delta(local, tf1, tf2)).Apply(p)
                         == tf2.Times(outer).Times(local).Apply(p))
       <==> outer.Times(tf1.InverseTimes(tf2)) == tf1.InverseTimes(tf2).Times(outer)
  {
    hide Transform.Times, Transform.Apply, Transform.InverseTimes, Delta, Transform.InvXform;
    var d := tf1.InverseTimes(tf2);
    var (placed, wanted) := (tf1.Times(outer).Times(local).Times(Delta(local, tf1, tf2)), tf2.Times(outer).Times(local));
    SameMap(outer.Times(d), d.Times(outer));
    forall p
      ensures placed.Apply(p) == tf1.Apply(outer.Times(d).Apply(local.Apply(p)))
      ensures wanted.Apply(p) == tf1.Apply(d.Times(outer).Apply(local.Apply(p)))
    {
      NestedPlacement(tf1, tf2, outer, local, p);
      ApplyTimes(outer, d, local.Apply(p));
      ApplyTimes(d, outer, local.Apply(p));
    }
    if forall p :: placed.Apply(p) == wanted.Apply(p) {
      forall q ensures outer.Times(d).Apply(q) == d.Times(outer).Apply(q) {
        var p := local.InvXform(q);
        RigidUndo(local, q);
        assert placed.Apply(p) == wanted.Apply(p);
        RigidUndo(tf1, outer.Times(d).Apply(q));
        RigidUndo(tf1, d.Times(outer).Apply(q));
      }
    }
  }

  lemma RigidUndo(t: Transform, q: Vec3)
    requires t.Rigid()
    ensures t.Apply(t.InvXform(q)) == q && t.InvXform(t.Apply(q)) == q
  {}

  lemma NestedPlacement(tf1: Transform, tf2: Transform, outer: Transform, local: Transform, p: Vec3)
    requires tf1.Rigid() && local.Rigid()
    ensures var d := tf1.InverseTimes(tf2);
            && tf1.Times(outer).Times(local).Times(Delta(local, tf1, tf2)).Apply(p)
               == tf1.Apply(outer.Apply(d.Apply(local.Apply(p))))
            && tf2.Times(outer).Times(local).Apply(p) == tf1.Apply(d.Apply(outer.Apply(local.Apply(p))))
  {
    var d := tf1.InverseTimes(tf2);
    var (f, g) := (tf1.Times(local), tf2.Times(local));
    var q := d.Apply(local.Apply(p));
    // The delta carries p to local^-1 (tf1^-1 (tf2 (local p))).
    ApplyTimes(tf1.Times(outer).Times(local), Delta(local, tf1, tf2), p);
    InverseTimesApply(f, g, p);
    InvXformTimes(tf1, local, g.Apply(p));
    ApplyTimes(tf2, local, p);
    InverseTimesApply(tf1, tf2, local.Apply(p));
    assert Delta(local, tf1, tf2).Apply(p) == local.InvXform(q);
    ApplyTimes(tf1.Times(outer), local, local.InvXform(q));
    assert local.Apply(local.InvXform(q)) == q;
    ApplyTimes(tf1, outer, q);
    // The other side: tf2 is tf1 after d.
    var w := outer.Apply(local.Apply(p));
    ApplyTimes(tf2.Times(outer), local, p);
    ApplyTimes(tf2, outer, local.Apply(p));
    InverseTimesApply(tf1, tf2, w);
    assert tf1.Apply(tf1.InvXform(tf2.Apply(w))) == tf2.Apply(w);
  }

  /** Placing a swept leaf at its second pose is placing it where the object's motion takes its first one. */
  lemma DeltaIsMotion(local: Transform, tf1: Transform, tf2: Transform)
    requires tf1.Rigid() && local.Rigid()
    ensures local.Times(Delta(local, tf1, tf2)) == tf1.InverseTimes(tf2).Times(local)
  {
    var d := tf1.InverseTimes(tf2);
    forall p ensures local.Times(Delta(local, tf1, tf2)).Apply(p) == d.Times(local).Apply(p) {
      var q := d.Apply(local.Apply(p));
      ApplyTimes(local, Delta(local, tf1, tf2), p);
      ApplyTimes(d, local, p);
      InverseTimesApply(tf1.Times(local), tf2.Times(local), p);
      InvXformTimes(tf1, local, tf2.Times(local).Apply(p));
      ApplyTimes(tf2, local, p);
      InverseTimesApply(tf1, tf2, local.Apply(p));
      RigidUndo(local, q);
    }
    SameMap(local.Times(Delta(local, tf1, tf2)), d.Times(local));
  }

  // ---- two levels: the outer tree ----------------------------------------

  /** The box of one convex shape placed at `local`, before and after the object's motion `d`. */
  function BothBoxes(inner: ConvexShape, local: Transform, d: Transform): Aabb {
    inner.GetAabb(local).Merge(inner.GetAabb(d.Times(local)))
  }

  function BothUnion(cs: seq<Child>, inners: seq<ConvexShape>, d: Transform): Aabb
    requires |inners| == |cs|
  {
    if cs == [] then EMPTY_AABB
    else
      var n := |cs| - 1;
      Grow(BothUnion(cs[..n], inners[..n], d), BothBoxes(inners[n], cs[n].transform, d))
  }

  /** The box a compound child needs once the object moves by `d`, from its grandchildren's placements and inner shapes. */
  function NeededBox(c: Child, inners: seq<ConvexShape>, d: Transform): Aabb
    requires c.shape.Compound? && |inners| == |c.shape.children|
  {
    if inners == [] then ChildAabb(c)
    else TransformAabb(BothUnion(c.shape.children, inners, d), c.shape.margin, c.transform)
  }

  lemma {:induction false} BothUnionIsUnion(
      cs: seq<Child>, inners: seq<ConvexShape>, swept: seq<Child>, tf1: Transform, tf2: Transform)
    requires |inners| == |cs| == |swept| && tf1.Rigid() && forall j :: 0 <= j < |cs| ==> cs[j].transform.Rigid()
    requires forall j :: 0 <= j < |cs| ==> swept[j] == ReposedLeaf(cs[j], inners[j], tf1, tf2)
    ensures Union(swept) == BothUnion(cs, inners, tf1.InverseTimes(tf2))
    decreases |cs|
  {
    hide Transform.Rigid, Grow, Transform.InverseTimes, ReposedLeaf, ChildAabb, BothBoxes;
    if cs != [] {
      var n := |cs| - 1;
      BothUnionIsUnion(cs[..n], inners[..n], swept[..n], tf1, tf2);
      ReposedLeafBox(cs[n], inners[n], tf1, tf2);
    }
  }

  lemma ReposedLeafBox(c: Child, inner: ConvexShape, tf1: Transform, tf2: Transform)
    requires tf1.Rigid() && c.transform.Rigid()
    ensures ChildAabb(ReposedLeaf(c, inner, tf1, tf2)) == BothBoxes(inner, c.transform, tf1.InverseTimes(tf2))
  {
    hide Transform.Rigid, Transform.Times, Transform.InverseTimes, Aabb.Merge, Delta;
    DeltaIsMotion(c.transform, tf1, tf2);
  }

  /** After re-posing, a compound child's own box is the needed one. */
  lemma ReposedChildBox(c: Child, inners: seq<ConvexShape>, tf1: Transform, tf2: Transform)
    requires c.shape.Compound? && |inners| == |c.shape.children| && tf1.Rigid()
    requires forall j :: 0 <= j < |inners| ==> c.shape.children[j].transform.Rigid()
    ensures ChildAabb(Child(c.transform, ReposeSecond(c.shape, inners, tf1, tf2)))
         == NeededBox(c, inners, tf1.InverseTimes(tf2))
  {
    hide Transform.Rigid, Transform.Times, Transform.InverseTimes, TransformAabb, Around, ReposedLeaf;
    var r := ReposeHulls(c.shape, inners, tf1, tf2, |inners|);
    ReposeHullsExact(c.shape, inners, tf1, tf2, |inners|);
    BothUnionIsUnion(c.shape.children, inners, r.children, tf1, tf2);
  }

  /** What the outer tree holds once the first `n` children have been visited: new boxes for hulls, what was there for
      compound children. */
  function PartEntries(e: seq<Entry>, r: Shape, hs: seq<ChildHulls>, n: nat): seq<Entry>
    requires r.Compound? && |e| == |r.children| == |hs|
  {
    seq(|hs|, i requires 0 <= i < |hs| => (if i < n && hs[i].Hull? then ChildAabb(r.children[i]) else e[i].0, i))
  }

  ghost predicate InPlace(e: seq<Entry>) {
    forall i :: 0 <= i < |e| ==> e[i].1 == i
  }

  lemma {:induction false} OuterTreeHolds(s: Shape, e: seq<Entry>, hs: seq<ChildHulls>, tf1: Transform, tf2: Transform, n: nat)
    requires Matches(s, Children(hs)) && n <= |hs| == |e| && InPlace(e) && s.tree.Some? && TreeHolds(s.tree.value, e)
    ensures var r := ReposeChildren(s, hs, tf1, tf2, n);
            r.tree.Some? && TreeHolds(r.tree.value, PartEntries(e, r, hs, n))
    decreases n
  {
    hide ChildAabb, ReposedLeaf, ReposeSecond, TreeHolds;
    if n == 0 {
      assert PartEntries(e, s, hs, 0) == e;
    } else {
      OuterTreeHolds(s, e, hs, tf1, tf2, n - 1);
      var t := ReposeChildren(s, hs, tf1, tf2, n - 1);
      var r := ReposeChild(t, n - 1, hs[n - 1], tf1, tf2);
      var f := PartEntries(e, t, hs, n - 1);
      if hs[n - 1].Hull? {
        UpdateTreeHolds(t.tree.value, f, n - 1, ChildAabb(r.children[n - 1]));
        assert PartEntries(e, r, hs, n) == f[n - 1 := (ChildAabb(r.children[n - 1]), n - 1)];
      } else {
        assert PartEntries(e, r, hs, n) == f;
      }
    }
  }

  /** Fit to be re-posed: everything rigid and sound, and compound children in sync but for their local boxes. */
  ghost predicate Reposable(s: Shape, hs: seq<ChildHulls>)
    requires Matches(s, Children(hs))
  {
    s.margin >= 0.0 && forall i :: 0 <= i < |hs| ==> s.children[i].transform.Rigid() && ReposableChild(s.children[i].shape, hs[i])
  }

  ghost predicate ReposableChild(s: Shape, h: ChildHulls) {
    match h
    case Hull(inner) => AabbSound(inner)
    case Grandchildren(inners) => Settled(s) && AllSound(inners) && |inners| == |s.children|
  }

  /** The re-posed child, on its own. */
  function ReposedChild(c: Child, h: ChildHulls, tf1: Transform, tf2: Transform): Child
    requires ChildMatches(c.shape, h)
  {
    match h
    case Hull(inner) => ReposedLeaf(c, inner, tf1, tf2)
    case Grandchildren(inners) => Child(c.transform, ReposeSecond(c.shape, inners, tf1, tf2))
  }

  lemma {:induction false} ReposeChildrenAt(s: Shape, hs: seq<ChildHulls>, tf1: Transform, tf2: Transform, n: nat)
    requires Matches(s, Children(hs)) && n <= |hs|
    ensures var r := ReposeChildren(s, hs, tf1, tf2, n);
            && r.margin == s.margin
            && (forall i :: 0 <= i < n ==> r.children[i] == ReposedChild(s.children[i], hs[i], tf1, tf2))
    decreases n
  {
    hide ReposedLeaf, ReposeSecond, ChildAabb;
    if n > 0 { ReposeChildrenAt(s, hs, tf1, tf2, n - 1); }
  }

  lemma ReposedChildFit(c: Child, h: ChildHulls, tf1: Transform, tf2: Transform)
    requires ChildMatches(c.shape, h) && ReposableChild(c.shape, h) && c.transform.Rigid() && tf1.Rigid() && tf2.Rigid()
    ensures var r := ReposedChild(c, h, tf1, tf2);
            r.transform == c.transform && InSync(r.shape) && ChildMatches(r.shape, h) && ReposableChild(r.shape, h)
  {
    hide AabbSound, Transform.Rigid, ReposedLeaf, InSync;
    match h
    case Hull(inner) => ReposedLeafSound(c, inner, tf1, tf2); ReposedLeafSwept(c, inner, tf1, tf2);
    case Grandchildren(inners) =>
      ReposeHullsExact(c.shape, inners, tf1, tf2, |inners|);
      forall j | 0 <= j < |inners|
        ensures ReposeSecond(c.shape, inners, tf1, tf2).children[j].shape.Convex?
      {
        ReposedLeafSwept(c.shape.children[j], inners[j], tf1, tf2);
      }
  }

  /** The box child `i` has after a motion `d`. */
  function NeededAt(c: Child, h: ChildHulls, d: Transform): Aabb
    requires ChildMatches(c.shape, h)
  {
    match h
    case Hull(inner) => BothBoxes(inner, c.transform, d)
    case Grandchildren(inners) => NeededBox(c, inners, d)
  }

  lemma ReposedBox(c: Child, h: ChildHulls, tf1: Transform, tf2: Transform)
    requires ChildMatches(c.shape, h) && ReposableChild(c.shape, h) && c.transform.Rigid() && tf1.Rigid()
    ensures ChildAabb(ReposedChild(c, h, tf1, tf2)) == NeededAt(c, h, tf1.InverseTimes(tf2))
  {
    hide AabbSound, Transform.Rigid;
    match h
    case Hull(inner) => ReposedLeafBox(c, inner, tf1, tf2);
    case Grandchildren(inners) =>
      forall j | 0 <= j < |inners| ensures c.shape.children[j].transform.Rigid() { SettledRigid(c.shape, j); }
      ReposedChildBox(c, inners, tf1, tf2);
  }

  /** Every compound child's filed volume is the box it has after the motion `d`. */
  ghost predicate FiledAsNeeded(e: seq<Entry>, s: Shape, hs: seq<ChildHulls>, d: Transform)
    requires Matches(s, Children(hs)) && |e| == |hs|
  {
    forall i :: 0 <= i < |hs| && hs[i].Grandchildren? ==> e[i].0 == NeededAt(s.children[i], hs[i], d)
  }

  /** Every compound child's filed volume holds the box it has after the motion `d`. */
  ghost predicate FiledCovers(e: seq<Entry>, s: Shape, hs: seq<ChildHulls>, d: Transform)
    requires Matches(s, Children(hs)) && |e| == |hs|
  {
    forall i :: 0 <= i < |hs| && hs[i].Grandchildren? ==> e[i].0.Contain(NeededAt(s.children[i], hs[i], d))
  }

  /** Two lists filed by position that hold the same entries are equal. */
  lemma SameEntries(e: seq<Entry>, f: seq<Entry>)
    requires |e| == |f|
    requires forall i :: 0 <= i < |e| ==> e[i].1 == i && f[i].1 == i
    ensures multiset(e) == multiset(f) <==> e == f
  {
    if multiset(e) == multiset(f) {
      forall i | 0 <= i < |e| ensures e[i] == f[i] {
        MemberByCount(e, f, e[i]);
        assert e[i] in e;
        var k :| 0 <= k < |f| && f[k] == e[i];
      }
    }
  }

  /** A tree read off the entries it holds: it covers the children exactly when each entry's volume does. */
  lemma CoversByEntry(t: Option<Node>, f: seq<Entry>, children: seq<Child>)
    requires TreeHolds(t, f) && InPlace(f) && |f| == |children|
    ensures FiledOnce(TreeLeaves(t), |children|)
    ensures TreeCovers(t, children) <==> forall i :: 0 <= i < |f| ==> f[i].0.Contain(ChildAabb(children[i]))
  {
    hide ChildAabb, Aabb.Contain;
    HoldsFiled(t, f);
    var s := TreeLeaves(t);
    if TreeCovers(t, children) {
      forall i | 0 <= i < |f| ensures f[i].0.Contain(ChildAabb(children[i])) {
        assert HasLeaf(s, i);
        var k :| 0 <= k < |s| && s[k].1 == i;
        assert s[k] == f[i];
      }
    }
  }

  lemma ExactByEntry(t: Option<Node>, f: seq<Entry>, children: seq<Child>)
    requires TreeHolds(t, f) && InPlace(f) && |f| == |children|
    ensures TreeHolds(t, Entries(children)) <==> forall i :: 0 <= i < |f| ==> f[i].0 == ChildAabb(children[i])
  {
    hide ChildAabb, TreeNested;
    var want := Entries(children);
    SameEntries(f, want);
    if f == want {
      forall i | 0 <= i < |f| ensures f[i].0 == ChildAabb(children[i]) {
        assert f[i] == want[i];
      }
    }
    if forall i :: 0 <= i < |f| ==> f[i].0 == ChildAabb(children[i]) {
      assert f == want;
    }
  }

  /** With children fit for culling and a recalculated box, covering is a matter of the tree alone. */
  lemma CoversByTree(s: Shape)
    requires ChildrenCovering(s) && s.margin >= 0.0 && s.localAabb == Union(s.children) && s.tree.Some?
    ensures Covering(s) <==> TreeCovers(s.tree.value, s.children)
  {
    hide ChildAabb, TreeCovers, AabbSound, Union;
    forall i | 0 <= i < |s.children| ensures s.localAabb.Contain(ChildAabb(s.children[i])) {
      UnionContains(s.children, i);
    }
  }

  lemma FiledFromChildren(s: Shape)
    requires ChildrenCovering(s) && s.tree.Some? && TreeNested(s.tree.value)
    requires FiledOnce(TreeLeaves(s.tree.value), |s.children|)
    ensures TreesFiled(s)
  {
    hide Covering, FiledOnce;
    forall i | 0 <= i < |s.children| ensures TreesFiled(s.children[i].shape) {
      CoveringFiled(s.children[i].shape);
    }
  }

  /** Child by child: what re-posing leaves is fit for culling and for re-posing again, and its box is the needed one. */
  lemma ReposedFit(s: Shape, hs: seq<ChildHulls>, tf1: Transform, tf2: Transform)
    requires Matches(s, Children(hs)) && Reposable(s, hs) && tf1.Rigid() && tf2.Rigid()
    ensures var (r, d) := (Repose(s, Children(hs), tf1, tf2), tf1.InverseTimes(tf2));
            && r.Compound? && |r.children| == |hs| && r.margin == s.margin && r.localAabb == Union(r.children)
            && Matches(r, Children(hs)) && Reposable(r, hs) && ChildrenCovering(r)
            && (forall i :: 0 <= i < |hs| ==> r.children[i] == ReposedChild(s.children[i], hs[i], tf1, tf2))
            && (forall i :: 0 <= i < |hs| ==> ChildAabb(r.children[i]) == NeededAt(s.children[i], hs[i], d))
  {
    hide ChildAabb, ReposedChild, NeededAt, Transform.Rigid, Transform.InverseTimes, InSync, Covering, ChildMatches, ReposableChild,
         Union, ReposeChildren;
    ReposeChildrenAt(s, hs, tf1, tf2, |hs|);
    var r := Repose(s, Children(hs), tf1, tf2);
    forall i | 0 <= i < |hs|
      ensures r.children[i].transform.Rigid() && Covering(r.children[i].shape)
      ensures ChildMatches(r.children[i].shape, hs[i]) && ReposableChild(r.children[i].shape, hs[i])
      ensures ChildAabb(r.children[i]) == NeededAt(s.children[i], hs[i], tf1.InverseTimes(tf2))
    {
      ReposedChildFit(s.children[i], hs[i], tf1, tf2);
      InSyncCovers(r.children[i].shape);
      ReposedBox(s.children[i], hs[i], tf1, tf2);
    }
  }

  /**
   A compound of hulls and compounds after re-posing, whatever its tree held
   before. The tree is refreshed for hulls and left as it was for compounds; so
   it is exact exactly when the volumes those are filed under are the boxes they
   now need, and culling is safe exactly when the volumes hold those boxes.
   */
  lemma ReposeCoversExactly(s: Shape, e: seq<Entry>, hs: seq<ChildHulls>, tf1: Transform, tf2: Transform)
    requires Matches(s, Children(hs)) && Reposable(s, hs) && tf1.Rigid() && tf2.Rigid()
    requires |e| == |hs| && InPlace(e) && s.tree.Some? && TreeHolds(s.tree.value, e)
    ensures var (r, d) := (Repose(s, Children(hs), tf1, tf2), tf1.InverseTimes(tf2));
            && Matches(r, Children(hs)) && Reposable(r, hs) && ChildrenCovering(r) && TreesFiled(r)
            && r.tree.Some? && TreeHolds(r.tree.value, PartEntries(e, r, hs, |hs|))
            && (TreeHolds(r.tree.value, Entries(r.children)) <==> FiledAsNeeded(e, s, hs, d))
            && (Covering(r) <==> FiledCovers(e, s, hs, d))
  {
    hide TreeHolds, ChildAabb, ReposedChild, NeededAt, Transform.Rigid, Transform.InverseTimes, ReposeChildren, InSync,
         Covering, TreesFiled, FiledOnce, ChildMatches, ReposableChild, Aabb.Contain, TreeCovers, Reposable;
    var r := Repose(s, Children(hs), tf1, tf2);
    ReposedFit(s, hs, tf1, tf2);
    OuterTreeHolds(s, e, hs, tf1, tf2, |hs|);
    var t := ReposeChildren(s, hs, tf1, tf2, |hs|);
    var f := PartEntries(e, r, hs, |hs|);
    assert f == PartEntries(e, t, hs, |hs|);
    CoversByEntry(r.tree.value, f, r.children);
    ExactByEntry(r.tree.value, f, r.children);
    HoldsNested(r.tree.value, f);
    FiledFromChildren(r);
    MarginKept(r, hs);
    CoversByTree(r);
    forall i | 0 <= i < |hs| ensures f[i].0 == if hs[i].Hull? then ChildAabb(r.children[i]) else e[i].0 {}
    forall i | 0 <= i < |hs| ensures ChildAabb(r.children[i]).Contain(ChildAabb(r.children[i])) {
      ContainsItself(ChildAabb(r.children[i]));
    }
  }

  lemma HoldsNested(t: Option<Node>, f: seq<Entry>)
    requires TreeHolds(t, f)
    ensures TreeNested(t)
  {}

  lemma MarginKept(r: Shape, hs: seq<ChildHulls>)
    requires Matches(r, Children(hs)) && Reposable(r, hs)
    ensures r.margin >= 0.0
  {}

  lemma ContainsItself(a: Aabb)
    ensures a.Contain(a)
  {}

  // ---- whole runs --------------------------------------------------------

  lemma ReposedChildMatches(c: Child, h: ChildHulls, tf1: Transform, tf2: Transform)
    requires ChildMatches(c.shape, h)
    ensures ChildMatches(ReposedChild(c, h, tf1, tf2).shape, h)
  {
    hide ReposedLeaf;
    match h
    case Hull(inner) => ReposedLeafSwept(c, inner, tf1, tf2);
    case Grandchildren(inners) =>
      ReposeHullsExact(c.shape, inners, tf1, tf2, |inners|);
      forall j | 0 <= j < |inners| ensures ReposeSecond(c.shape, inners, tf1, tf2).children[j].shape.Convex? {
        ReposedLeafSwept(c.shape.children[j], inners[j], tf1, tf2);
      }
  }

  lemma ReposeMatches(s: Shape, hs: seq<ChildHulls>, tf1: Transform, tf2: Transform)
    requires Matches(s, Children(hs))
    ensures Matches(Repose(s, Children(hs), tf1, tf2), Children(hs))
  {
    hide ReposedChild, ChildMatches, ReposeChildren;
    ReposeChildrenAt(s, hs, tf1, tf2, |hs|);
    forall i | 0 <= i < |hs| ensures ChildMatches(Repose(s, Children(hs), tf1, tf2).children[i].shape, hs[i]) {
      ReposedChildMatches(s.children[i], hs[i], tf1, tf2);
    }
  }

  type Poses = (Transform, Transform)

  /** The shape after one re-posing after another. */
  function ReposeRun(s: Shape, hs: seq<ChildHulls>, run: seq<Poses>): (r: Shape)
    requires Matches(s, Children(hs))
    ensures Matches(r, Children(hs))
  {
    if run == [] then s
    else
      var (n, t) := (|run| - 1, ReposeRun(s, hs, run[..|run| - 1]));
      ReposeMatches(t, hs, run[n].0, run[n].1);
      Repose(t, Children(hs), run[n].0, run[n].1)
  }

  ghost predicate AllRigid(run: seq<Poses>) {
    forall k :: 0 <= k < |run| ==> run[k].0.Rigid() && run[k].1.Rigid()
  }

  /** Placed alike: what the needed box of a child is computed from. */
  ghost predicate PlacedAlike(c: Child, b: Child, h: ChildHulls)
    requires ChildMatches(c.shape, h) && ChildMatches(b.shape, h)
  {
    && c.transform == b.transform
    && (h.Grandchildren? ==>
          && c.shape.margin == b.shape.margin
          && forall j :: 0 <= j < |h.inners| ==> c.shape.children[j].transform == b.shape.children[j].transform)
  }

  lemma {:induction false} BothUnionAlike(cs: seq<Child>, bs: seq<Child>, inners: seq<ConvexShape>, d: Transform)
    requires |inners| == |cs| == |bs| && forall j :: 0 <= j < |cs| ==> cs[j].transform == bs[j].transform
    ensures BothUnion(cs, inners, d) == BothUnion(bs, inners, d)
    decreases |cs|
  {
    hide BothBoxes, Grow;
    if cs != [] { BothUnionAlike(cs[..|cs| - 1], bs[..|bs| - 1], inners[..|inners| - 1], d); }
  }

  lemma NeededAlike(c: Child, b: Child, h: ChildHulls, d: Transform)
    requires ChildMatches(c.shape, h) && ChildMatches(b.shape, h) && PlacedAlike(c, b, h)
    ensures NeededAt(c, h, d) == NeededAt(b, h, d)
  {
    hide TransformAabb, Around, BothBoxes;
    if h.Grandchildren? { BothUnionAlike(c.shape.children, b.shape.children, h.inners, d); }
  }

  lemma ReposedAlike(c: Child, h: ChildHulls, tf1: Transform, tf2: Transform)
    requires ChildMatches(c.shape, h)
    ensures ChildMatches(ReposedChild(c, h, tf1, tf2).shape, h) && PlacedAlike(ReposedChild(c, h, tf1, tf2), c, h)
  {
    ReposedChildMatches(c, h, tf1, tf2);
    if h.Grandchildren? { ReposeHullsExact(c.shape, h.inners, tf1, tf2, |h.inners|); }
  }

  /** The volumes the tree holds after a run: those of compound children are the ones it started with. */
  ghost predicate RunHolds(s: Shape, e: seq<Entry>, r: Shape, f: seq<Entry>, hs: seq<ChildHulls>)
    requires Matches(s, Children(hs)) && Matches(r, Children(hs)) && |e| == |hs|
  {
    && |f| == |hs| && InPlace(f) && r.tree.Some? && TreeHolds(r.tree.value, f)
    && (forall i :: 0 <= i < |hs| ==> PlacedAlike(r.children[i], s.children[i], hs[i]))
    && (forall i :: 0 <= i < |hs| && hs[i].Grandchildren? ==> f[i].0 == e[i].0)
  }

  /** The leaves of hulls hold the boxes the hulls have. */
  ghost predicate HullsRefreshed(r: Shape, f: seq<Entry>, hs: seq<ChildHulls>)
    requires Matches(r, Children(hs))
  {
    |f| == |hs| && forall i :: 0 <= i < |hs| && hs[i].Hull? ==> f[i].0 == ChildAabb(r.children[i])
  }

  lemma {:induction false} RunKeeps(s: Shape, e: seq<Entry>, hs: seq<ChildHulls>, run: seq<Poses>) returns (f: seq<Entry>)
    requires Matches(s, Children(hs)) && Reposable(s, hs) && AllRigid(run)
    requires |e| == |hs| && InPlace(e) && s.tree.Some? && TreeHolds(s.tree.value, e)
    ensures Reposable(ReposeRun(s, hs, run), hs) && RunHolds(s, e, ReposeRun(s, hs, run), f, hs)
    ensures run != [] ==> HullsRefreshed(ReposeRun(s, hs, run), f, hs)
    decreases |run|
  {
    hide Transform.Rigid, TreeHolds, Reposable, Repose, ChildMatches, ChildAabb;
    if run == [] {
      f := e;
    } else {
      var n := |run| - 1;
      var g := RunKeeps(s, e, hs, run[..n]);
      f := StepKeeps(s, e, ReposeRun(s, hs, run[..n]), g, hs, run[n].0, run[n].1);
    }
  }

  lemma StepKeeps(s: Shape, e: seq<Entry>, t: Shape, g: seq<Entry>, hs: seq<ChildHulls>, tf1: Transform, tf2: Transform)
    returns (f: seq<Entry>)
    requires Matches(s, Children(hs)) && Matches(t, Children(hs)) && |e| == |hs|
    requires Reposable(t, hs) && RunHolds(s, e, t, g, hs) && tf1.Rigid() && tf2.Rigid()
    ensures var r := Repose(t, Children(hs), tf1, tf2);
            Matches(r, Children(hs)) && Reposable(r, hs) && RunHolds(s, e, r, f, hs) && HullsRefreshed(r, f, hs)
  {
    hide Transform.Rigid, TreeHolds, Reposable, Repose, ChildMatches, ChildAabb, PlacedAlike, ReposedChild, NeededAt;
    ReposeCoversExactly(t, g, hs, tf1, tf2);
    ReposedFit(t, hs, tf1, tf2);
    var r := Repose(t, Children(hs), tf1, tf2);
    f := PartEntries(g, r, hs, |hs|);
    forall i | 0 <= i < |hs| ensures PlacedAlike(r.children[i], s.children[i], hs[i]) {
      ReposedAlike(t.children[i], hs[i], tf1, tf2);
      AlikeThrough(r.children[i], t.children[i], s.children[i], hs[i]);
    }
  }

  lemma AlikeThrough(a: Child, b: Child, c: Child, h: ChildHulls)
    requires ChildMatches(a.shape, h) && ChildMatches(b.shape, h) && ChildMatches(c.shape, h)
    requires PlacedAlike(a, b, h) && PlacedAlike(b, c, h)
    ensures PlacedAlike(a, c, h)
  {}

  /**
   After any run of re-posings the volumes compound children are filed under are
   still those of the start. Culling is safe exactly when these hold the boxes
   the last pair of poses calls for; what was in between does not matter.
   */
  lemma RunCoversExactly(s: Shape, e: seq<Entry>, hs: seq<ChildHulls>, run: seq<Poses>)
    requires Matches(s, Children(hs)) && Reposable(s, hs) && AllRigid(run) && run != []
    requires |e| == |hs| && InPlace(e) && s.tree.Some? && TreeHolds(s.tree.value, e)
    ensures var (r, last) := (ReposeRun(s, hs, run), run[|run| - 1]);
            && ChildrenCovering(r) && TreesFiled(r)
            && (Covering(r) <==> FiledCovers(e, s, hs, last.0.InverseTimes(last.1)))
  {
    hide Transform.Rigid, TreeHolds, Reposable, Repose, ChildMatches, ChildAabb, PlacedAlike, NeededAt, Covering, TreesFiled,
         Transform.InverseTimes, Aabb.Contain;
    var n := |run| - 1;
    var t := ReposeRun(s, hs, run[..n]);
    var g := RunKeeps(s, e, hs, run[..n]);
    ReposeCoversExactly(t, g, hs, run[n].0, run[n].1);
    var d := run[n].0.InverseTimes(run[n].1);
    forall i | 0 <= i < |hs| ensures NeededAt(t.children[i], hs[i], d) == NeededAt(s.children[i], hs[i], d) {
      NeededAlike(t.children[i], s.children[i], hs[i], d);
    }
  }

  // ---- the pairs that are lost -------------------------------------------

  /**
   Two leaves that share a point, one of them of a re-posed compound: the pair is
   dispatched if the leaf is a child of its own, and otherwise exactly when the
   volume its parent was filed under at the start meets the query volume.
   */
  lemma RunFindsExactly(
      s: Shape, e: seq<Entry>, hs: seq<ChildHulls>, run: seq<Poses>,
      c: Wrapper, o: Wrapper, threshold: real, pc: seq<nat>, po: seq<nat>, w: Vec3)
    requires Matches(s, Children(hs)) && Reposable(s, hs) && AllRigid(run) && run != []
    requires |e| == |hs| && InPlace(e) && s.tree.Some? && TreeHolds(s.tree.value, e)
    requires c.shape == ReposeRun(s, hs, run) && c.objectId != o.objectId && Indexed(c.shape) && Indexed(o.shape)
    requires Covering(o.shape) && c.worldTransform.Rigid() && o.worldTransform.Rigid() && threshold >= 0.0
    requires TouchesAt(c, pc, w) && TouchesAt(o, po, w) && CollideChildren(c, o, threshold).error.None?
    ensures ValidPath(c.shape, pc) && ValidPath(o.shape, po) && pc != [] && pc[0] < |hs|
    ensures Found(CollideChildren(c, o, threshold).pairs, Descend(c, pc), Descend(o, po))
       <==> hs[pc[0]].Hull? || e[pc[0]].0.Intersect(QueryVolume(c, o, threshold))
  {
    hide Transform.Rigid, TreeHolds, Reposable, ReposeRun, ChildMatches, ChildAabb, Covering, TreesFiled, Indexed, QueryVolume, Found,
         CollideChildren, TouchesAt, PlacedAlike, Aabb.Intersect;
    RunCoversExactly(s, e, hs, run);
    CoveringFiled(o.shape);
    TouchesStep(c, pc, w);
    var f := RunKeeps(s, e, hs, run);
    TreeLeafDecides(c, o, threshold, pc, po, w);
    MeetsByEntry(c.shape.tree.value, f, pc[0], QueryVolume(c, o, threshold));
    if hs[pc[0]].Hull? {
      ChildBoxMeets(c, o, pc, po, w, threshold);
    }
  }

  lemma MeetsByEntry(t: Option<Node>, f: seq<Entry>, i: nat, v: Aabb)
    requires TreeHolds(t, f) && InPlace(f) && i < |f|
    ensures LeafMeets(TreeLeaves(t), i, v) <==> f[i].0.Intersect(v)
  {
    hide Aabb.Intersect;
    HoldsFiled(t, f);
    assert HasLeaf(TreeLeaves(t), i);
  }

  /** The box of a child with the shared point meets the query volume. */
  lemma ChildBoxMeets(c: Wrapper, o: Wrapper, pc: seq<nat>, po: seq<nat>, w: Vec3, threshold: real)
    requires ChildrenCovering(c.shape) && Covering(o.shape) && TouchesAt(c, pc, w) && TouchesAt(o, po, w)
    requires c.worldTransform.Rigid() && o.worldTransform.Rigid() && threshold >= 0.0
    ensures pc != [] && pc[0] < |c.shape.children|
    ensures ChildAabb(c.shape.children[pc[0]]).Intersect(QueryVolume(c, o, threshold))
  {
    hide Covering, QueryVolume, Transform.Rigid, Aabb.Intersect;
    var p :| PathHas(c.shape, pc, p) && c.worldTransform.Apply(p) == w;
    var child := c.shape.children[pc[0]];
    var q :| PathHas(child.shape, pc[1..], q) && child.transform.Apply(q) == p;
    AabbHolds(child.shape, pc[1..], q, child.transform);
    QueryVolumeHas(c, o, po, p, threshold);
    SharedPointIntersects(ChildAabb(child), QueryVolume(c, o, threshold), p);
  }

  lemma MeetByEntries(t: Option<Node>, f: seq<Entry>, u: Option<Node>, g: seq<Entry>, i: nat, j: nat, x: Transform, threshold: real)
    requires TreeHolds(t, f) && InPlace(f) && i < |f| && TreeHolds(u, g) && InPlace(g) && j < |g|
    ensures LeavesMeet(TreeLeaves(t), TreeLeaves(u), i, j, x, threshold) <==> MyIntersect(f[i].0, g[j].0, x, threshold)
  {
    hide MyIntersect;
    HoldsFiled(t, f);
    HoldsFiled(u, g);
    assert HasLeaf(TreeLeaves(t), i) && HasLeaf(TreeLeaves(u), j);
    var k :| 0 <= k < |TreeLeaves(t)| && TreeLeaves(t)[k].1 == i;
    var l :| 0 <= l < |TreeLeaves(u)| && TreeLeaves(u)[l].1 == j;
    if MyIntersect(f[i].0, g[j].0, x, threshold) {
      assert CrossWitness(TreeLeaves(t), TreeLeaves(u), (i, j), k, l, x, threshold);
    }
  }

  /** Volumes that hold the boxes of two children with a shared point pass the two-tree test. */
  lemma FiledBoxesMeet(
      b0: Wrapper, b1: Wrapper, v0: Aabb, v1: Aabb, p0: seq<nat>, p1: seq<nat>, w: Vec3, threshold: real)
    requires ChildrenCovering(b0.shape) && ChildrenCovering(b1.shape) && TouchesAt(b0, p0, w) && TouchesAt(b1, p1, w)
    requires b0.worldTransform.Rigid() && b1.worldTransform.Rigid() && threshold >= 0.0
    ensures p0 != [] && p0[0] < |b0.shape.children| && p1 != [] && p1[0] < |b1.shape.children|
    ensures v0.Contain(ChildAabb(b0.shape.children[p0[0]])) && v1.Contain(ChildAabb(b1.shape.children[p1[0]]))
            ==> MyIntersect(v0, v1, Relative(b0, b1), threshold)
  {
    hide Covering, Transform.Rigid, MyIntersect, ChildAabb, Transform.Apply, Transform.Times;
    var q0 := ChildBoxHas(b0, p0, w);
    var q1 := ChildBoxHas(b1, p1, w);
    ApplyTimes(b0.worldTransform.Inverse(), b1.worldTransform, q1);
    InverseApply(b0.worldTransform, q0);
    if v0.Contain(ChildAabb(b0.shape.children[p0[0]])) && v1.Contain(ChildAabb(b1.shape.children[p1[0]])) {
      MyIntersectAt(v0, v1, Relative(b0, b1), q0, q1, threshold);
    }
  }

  /** The child on the way to a leaf with a world point has it, in the compound's frame, in its box. */
  lemma ChildBoxHas(b: Wrapper, path: seq<nat>, w: Vec3) returns (p: Vec3)
    requires ChildrenCovering(b.shape) && TouchesAt(b, path, w)
    ensures path != [] && path[0] < |b.shape.children|
    ensures ChildAabb(b.shape.children[path[0]]).Has(p) && b.worldTransform.Apply(p) == w
  {
    hide Covering, Transform.Rigid;
    p :| PathHas(b.shape, path, p) && b.worldTransform.Apply(p) == w;
    var child := b.shape.children[path[0]];
    var q :| PathHas(child.shape, path[1..], q) && child.transform.Apply(q) == p;
    AabbHolds(child.shape, path[1..], q, child.transform);
  }

  /** A compound whose tree holds `g`, each volume around its child's box. */
  ghost predicate FiledUnder(s: Shape, g: seq<Entry>) {
    && s.Compound? && s.tree.Some? && TreeHolds(s.tree.value, g) && InPlace(g) && |g| == |s.children|
    && forall j :: 0 <= j < |g| ==> g[j].0.Contain(ChildAabb(s.children[j]))
  }

  /**
   The same against a compound with a tree of its own, whichever operand comes
   first: the two-tree walk finds the pair if the swept leaf is a child of its
   own, and otherwise exactly when the starting volume and the other child's
   volume pass its test.
   */
  lemma RunFindsPairsExactly(
      s: Shape, e: seq<Entry>, hs: seq<ChildHulls>, run: seq<Poses>, c: Wrapper, o: Wrapper, g: seq<Entry>,
      table: DispatchTable, threshold: real, pc: seq<nat>, po: seq<nat>, w: Vec3)
    requires Matches(s, Children(hs)) && Reposable(s, hs) && AllRigid(run) && run != []
    requires |e| == |hs| && InPlace(e) && s.tree.Some? && TreeHolds(s.tree.value, e)
    requires c.shape == ReposeRun(s, hs, run) && c.objectId != o.objectId && Indexed(c.shape) && Indexed(o.shape)
    requires FiledUnder(o.shape, g) && ChildrenCovering(o.shape) && TreesFiled(o.shape)
    requires c.worldTransform.Rigid() && o.worldTransform.Rigid() && threshold >= 0.0
    requires TouchesAt(c, pc, w) && TouchesAt(o, po, w)
    requires Collide(c, o, table, threshold).error.None? && Collide(o, c, table, threshold).error.None?
    ensures ValidPath(c.shape, pc) && ValidPath(o.shape, po) && pc != [] && pc[0] < |hs| && po != [] && po[0] < |g|
    ensures Found(Collide(c, o, table, threshold).pairs, Descend(c, pc), Descend(o, po))
       <==> hs[pc[0]].Hull? || MyIntersect(e[pc[0]].0, g[po[0]].0, Relative(c, o), threshold)
    ensures Found(Collide(o, c, table, threshold).pairs, Descend(o, po), Descend(c, pc))
       <==> hs[pc[0]].Hull? || MyIntersect(g[po[0]].0, e[pc[0]].0, Relative(o, c), threshold)
  {
    hide Transform.Rigid, TreeHolds, Reposable, ReposeRun, ChildMatches, ChildAabb, Covering, TreesFiled, Indexed, Found, Collide,
         TouchesAt, PlacedAlike, MyIntersect, Relative, LeavesMeet, Aabb.Contain;
    RunCoversExactly(s, e, hs, run);
    TouchesStep(c, pc, w);
    TouchesStep(o, po, w);
    var f := RunKeeps(s, e, hs, run);
    var (i, j, tc, to) := (pc[0], po[0], c.shape.tree.value, o.shape.tree.value);
    TreeLeavesDecide(c, o, table, threshold, pc, po, w);
    TreeLeavesDecide(o, c, table, threshold, po, pc, w);
    MeetByEntries(tc, f, to, g, i, j, Relative(c, o), threshold);
    MeetByEntries(to, g, tc, f, j, i, Relative(o, c), threshold);
    if hs[i].Hull? {
      ContainsItself(f[i].0);
      FiledBoxesMeet(c, o, f[i].0, g[j].0, pc, po, w, threshold);
      FiledBoxesMeet(o, c, g[j].0, f[i].0, po, pc, w, threshold);
    }
  }

  // ---- the start of a run ------------------------------------------------

  lemma InSyncSettles(s: Shape)
    requires s.Compound? && InSync(s)
    ensures Settled(s)
  {
    hide AabbSound, ChildAabb, TreeHolds, Union;
    forall i | 0 <= i < |s.children| ensures Union(s.children).Contain(ChildAabb(s.children[i])) {
      UnionContains(s.children, i);
    }
  }

  lemma SweptChildReposable(c: Child)
    requires ChildSweepable(c.shape) && Sound(c.shape) && c.transform.Rigid()
    ensures SweepChild(c).transform == c.transform && ChildMatches(SweepChild(c).shape, ChildHullsOf(c.shape))
    ensures ReposableChild(SweepChild(c).shape, ChildHullsOf(c.shape))
  {
    hide AabbSound, Transform.Rigid, InSync, Built;
    SweepChildKeeps(c);
    if c.shape.Compound? { InSyncSettles(SweepChild(c).shape); }
  }

  /** What a cast object is built with is fit to be re-posed, and its tree is exact. */
  lemma SweptReposable(s: Shape)
    requires Sweepable(s) && Sound(s) && s.Compound?
    ensures HullsOf(s).Children?
    ensures var (t, hs) := (SweepShape(s), HullsOf(s).children);
            && Matches(t, Children(hs)) && Reposable(t, hs)
            && t.tree.Some? && TreeHolds(t.tree.value, Entries(t.children)) && InPlace(Entries(t.children))
  {
    hide AabbSound, ReposableChild, ChildMatches, InSync, TreeHolds, SweepChild, ChildHullsOf, ChildAabb, Transform.Rigid;
    SweepShapeKeeps(s);
    var t := SweepShape(s);
    TwinChildren(s);
    InSyncParts(t);
    forall i | 0 <= i < |s.children|
      ensures t.children[i].transform.Rigid() && ReposableChild(t.children[i].shape, HullsOf(s).children[i])
    {
      SweptChildReposable(s.children[i]);
    }
  }

  lemma TwinChildren(s: Shape)
    requires Sweepable(s) && s.Compound?
    ensures var t := SweepShape(s);
            && t.Compound? && |t.children| == |s.children| && t.margin == BULLET_MARGIN && t.tree.Some?
            && (forall i :: 0 <= i < |s.children| ==> t.children[i] == SweepChild(s.children[i]))
  {
    hide SweepChild;
    var t := SweepAll(s.children);
    assert t == seq(|s.children|, i requires 0 <= i < |s.children| => SweepChild(s.children[i]));
    BuiltTree(t);
  }

  lemma BuiltTree(cs: seq<Child>)
    ensures Built(cs).tree.Some?
  {
    hide Insert, Grow, Shape.GetAabb;
    if cs != [] { BuiltTree(cs[..|cs| - 1]); }
  }

  lemma InSyncParts(s: Shape)
    requires s.Compound? && InSync(s) && s.tree.Some?
    ensures TreeHolds(s.tree.value, Entries(s.children))
  {}

  // ---- an input on which each fault bites --------------------------------

  function Shift(x: real): Transform { Transform(IDENTITY_BASIS, Vec3(x, 0.0, 0.0)) }

  /** A quarter turn about the z axis. */
  const QUARTER_TURN := Transform(Matrix3(Vec3(0.0, -1.0, 0.0), Vec3(1.0, 0.0, 0.0), Vec3(0.0, 0.0, 1.0)), ZERO)

  /** One convex shape in a compound in a compound. */
  function Boxed(outer: Transform, inner: ConvexShape): Shape {
    Built([Child(outer, Built([Child(IDENTITY, Convex(inner))]))])
  }

  lemma BuiltOne(c: Child)
    ensures Built([c]) == WithChild(EmptyCompound(true), c.transform, c.shape)
  {
    assert [c][..0] == [];
  }

  lemma BoxedIs(outer: Transform, inner: ConvexShape)
    requires inner.Primitive? && inner.proxyType != CUSTOM_CONVEX_SHAPE && AabbSound(inner) && outer.Rigid()
    ensures var s := Boxed(outer, inner);
            && s.Compound? && Sweepable(s) && Sound(s) && HullsOf(s) == Children([Grandchildren([inner])])
            && s.children == [Child(outer, Built([Child(IDENTITY, Convex(inner))]))]
  {
    hide Transform.Rigid, AabbSound, WithChild;
    BuiltOne(Child(IDENTITY, Convex(inner)));
    BuiltMargin([Child(IDENTITY, Convex(inner))]);
    BuiltMargin([Child(outer, Built([Child(IDENTITY, Convex(inner))]))]);
    IdentityRigid();
    var s := Boxed(outer, inner);
    assert Sound(Convex(inner)) && Sound(s.children[0].shape);
    assert InnersOf(s.children[0].shape.children) == [inner];
    assert HullsOf(s).children == [Grandchildren([inner])];
  }

  lemma {:induction false} BuiltMargin(cs: seq<Child>)
    ensures Built(cs).margin == 0.0
    decreases |cs|
  {
    hide Insert, Grow, Shape.GetAabb;
    if cs != [] { BuiltMargin(cs[..|cs| - 1]); }
  }

  /** The twin of such a compound, and what re-posing makes of it. */
  lemma BoxedReposed(outer: Transform, inner: ConvexShape, tf1: Transform, tf2: Transform)
    requires inner.Primitive? && inner.proxyType != CUSTOM_CONVEX_SHAPE && AabbSound(inner)
    requires outer.Rigid() && tf1.Rigid() && tf2.Rigid()
    ensures var s := Boxed(outer, inner);
            && Sweepable(s) && Sound(s) && Matches(SweepShape(s), HullsOf(s))
            && var r := Repose(SweepShape(s), HullsOf(s), tf1, tf2);
               && r.Compound? && |r.children| == 1 && r.children[0].transform == outer
               && r.children[0].shape.Compound?
               && r.children[0].shape.children == [Child(IDENTITY, SweptShape(inner, Delta(IDENTITY, tf1, tf2)))]
  {
    hide Transform.Rigid, Built, AabbSound, ReposableChild, Delta, Boxed, Reposable, Sound, Repose, SweepShape, SweepChild, ReposedLeaf;
    BoxedIs(outer, inner);
    var s := Boxed(outer, inner);
    SweptReposable(s);
    TwinChildren(s);
    SweptInside(outer, inner);
    OnlyGrandchild(SweepShape(s), inner, tf1, tf2);
    ReposedLeafIs(inner, tf1, tf2);
  }

  lemma ReposedLeafIs(inner: ConvexShape, tf1: Transform, tf2: Transform)
    ensures ReposedLeaf(SweepLeaf(Child(IDENTITY, Convex(inner))), inner, tf1, tf2)
         == Child(IDENTITY, SweptShape(inner, Delta(IDENTITY, tf1, tf2)))
  {}

  lemma SweptInside(outer: Transform, inner: ConvexShape)
    requires inner.Primitive? && inner.proxyType != CUSTOM_CONVEX_SHAPE
    ensures var c := Child(outer, Built([Child(IDENTITY, Convex(inner))]));
            && ChildSweepable(c.shape) && SweepChild(c).transform == outer && SweepChild(c).shape.Compound?
            && SweepChild(c).shape.children == [SweepLeaf(Child(IDENTITY, Convex(inner)))]
  {
    var one := Child(IDENTITY, Convex(inner));
    assert SweepSecond([one]) == [SweepLeaf(one)];
  }

  /** An only grandchild after re-posing. */
  lemma OnlyGrandchild(t: Shape, inner: ConvexShape, tf1: Transform, tf2: Transform)
    requires Matches(t, Children([Grandchildren([inner])])) && Reposable(t, [Grandchildren([inner])])
    requires tf1.Rigid() && tf2.Rigid()
    ensures var r := Repose(t, Children([Grandchildren([inner])]), tf1, tf2);
            && r.Compound? && |r.children| == 1 && r.children[0].transform == t.children[0].transform
            && r.children[0].shape.Compound? && |t.children[0].shape.children| == 1
            && r.children[0].shape.children == [ReposedLeaf(t.children[0].shape.children[0], inner, tf1, tf2)]
  {
    hide Transform.Rigid, ReposedLeaf, Reposable, Repose, ReposeHulls;
    var c := t.children[0];
    ReposedFit(t, [Grandchildren([inner])], tf1, tf2);
    ReposeHullsExact(c.shape, [inner], tf1, tf2, 1);
  }

  /**
   A grandchild placed wrongly: its parent makes a quarter turn, the object moves
   ten along x, and the second placement ends up ten along y.
   */
  lemma NestedPlacementMisses(inner: ConvexShape)
    requires inner.Primitive? && inner.proxyType != CUSTOM_CONVEX_SHAPE && AabbSound(inner)
    ensures var (s, tf2) := (Boxed(QUARTER_TURN, inner), Shift(10.0));
            && Sweepable(s) && Sound(s) && Matches(SweepShape(s), HullsOf(s))
            && var c := NewWrapper(Repose(SweepShape(s), HullsOf(s), IDENTITY, tf2), IDENTITY, 0);
               && ValidPath(c.shape, [0, 0])
               && var leaf := Descend(c, [0, 0]);
                  && leaf.shape.Convex? && leaf.shape.convex.CastHull?
                  && leaf.worldTransform.Times(leaf.shape.convex.delta).Apply(ZERO) == Vec3(0.0, 10.0, 0.0)
                  && tf2.Times(QUARTER_TURN).Times(IDENTITY).Apply(ZERO) == Vec3(10.0, 0.0, 0.0)
  {
    hide Transform.Rigid, AabbSound, Transform.Times, Transform.InverseTimes, Transform.Apply, Transform.InvXform, Delta, Repose,
         Boxed, SweepShape, HullsOf;
    IdentityRigid();
    ShiftRigid(10.0);
    QuarterTurnRigid();
    var (tf1, tf2) := (IDENTITY, Shift(10.0));
    BoxedReposed(QUARTER_TURN, inner, tf1, tf2);
    NestedPlacement(tf1, tf2, QUARTER_TURN, IDENTITY, ZERO);
    MotionIsShift(10.0, ZERO);
    IdentityApply(ZERO);
    IdentityApply(Vec3(0.0, 10.0, 0.0));
    IdentityApply(Vec3(10.0, 0.0, 0.0));
    QuarterTurnApply(ZERO);
    QuarterTurnApply(Vec3(10.0, 0.0, 0.0));
    var s := Boxed(QUARTER_TURN, inner);
    var c := NewWrapper(Repose(SweepShape(s), HullsOf(s), tf1, tf2), IDENTITY, 0);
    TwoDown(c);
  }

  /** The first child of the first child. */
  lemma TwoDown(c: Wrapper)
    requires c.shape.Compound? && |c.shape.children| > 0
    requires c.shape.children[0].shape.Compound? && |c.shape.children[0].shape.children| > 0
    ensures ValidPath(c.shape, [0, 0]) && Descend(c, [0, 0]) == c.Child(0).Child(0)
  {
    var path: seq<nat> := [0, 0];
    assert path[1..] == [0] && path[1..][1..] == [];
    assert ValidPath(c.shape.children[0].shape, path[1..]);
    assert Descend(c.Child(0), path[1..]) == c.Child(0).Child(0);
  }

  lemma ShiftApply(x: real, p: Vec3)
    ensures Shift(x).Apply(p) == p.Add(Vec3(x, 0.0, 0.0))
  {
    IdentityBasis(p);
  }

  lemma QuarterTurnApply(p: Vec3)
    ensures QUARTER_TURN.Apply(p) == Vec3(-p.y, p.x, p.z)
    ensures QUARTER_TURN.InvXform(p) == Vec3(p.y, -p.x, p.z)
  {
    hide Vec3.Dot, Matrix3.TMul;
    UnitDot(p);
    DotNegative(Vec3(0.0, 1.0, 0.0), p);
    DotNegative(Vec3(1.0, 0.0, 0.0), p);
    TMulIsTransposeMul(QUARTER_TURN.basis, p);
    QuarterTurnRows();
    assert p.Sub(ZERO) == p && Vec3(-p.y, p.x, p.z).Add(ZERO) == Vec3(-p.y, p.x, p.z);
  }

  lemma QuarterTurnRows()
    ensures QUARTER_TURN.basis == Matrix3(Vec3(0.0, 1.0, 0.0).Neg(), Vec3(1.0, 0.0, 0.0), Vec3(0.0, 0.0, 1.0))
    ensures QUARTER_TURN.basis.Transpose() == Matrix3(Vec3(0.0, 1.0, 0.0), Vec3(1.0, 0.0, 0.0).Neg(), Vec3(0.0, 0.0, 1.0))
  {}

  lemma DotNegative(n: Vec3, p: Vec3)
    ensures n.Neg().Dot(p) == -n.Dot(p)
  {}

  lemma ShiftRigid(x: real)
    ensures Shift(x).Rigid()
  {
    IdentityOrthonormal();
    OrthonormalIsRigid(Shift(x));
  }

  lemma QuarterTurnRigid()
    ensures QUARTER_TURN.Rigid()
  {
    hide Transform.Apply, Transform.InvXform;
    forall p ensures QUARTER_TURN.InvXform(QUARTER_TURN.Apply(p)) == p && QUARTER_TURN.Apply(QUARTER_TURN.InvXform(p)) == p {
      QuarterTurnApply(p);
      QuarterTurnApply(Vec3(-p.y, p.x, p.z));
      QuarterTurnApply(Vec3(p.y, -p.x, p.z));
    }
  }

  /** From the identity to a shift, the motion is the shift. */
  lemma MotionIsShift(x: real, p: Vec3)
    ensures IDENTITY.InverseTimes(Shift(x)).Apply(p) == p.Add(Vec3(x, 0.0, 0.0))
  {
    hide Transform.Apply, Transform.InvXform, Transform.InverseTimes;
    InverseTimesApply(IDENTITY, Shift(x), p);
    ShiftApply(x, p);
    IdentityUndo(p.Add(Vec3(x, 0.0, 0.0)));
  }

  lemma IdentityUndo(p: Vec3)
    ensures IDENTITY.InvXform(p) == p
  {
    IdentityBasis(p);
    assert p.Sub(ZERO) == p;
  }

  /** One occupied cell of an octree, two across. */
  const CELL := BoxShape(Vec3(1.0, 1.0, 1.0), 0.0)

  const UNIT_BOX := Aabb(Vec3(-1.0, -1.0, -1.0), Vec3(1.0, 1.0, 1.0))

  lemma RefitIdentity()
    ensures TransformAabb(UNIT_BOX, 0.0, IDENTITY) == UNIT_BOX
  {
    hide AbsDot, Transform.Apply;
    var one := Vec3(1.0, 1.0, 1.0);
    assert UNIT_BOX.mx.Sub(UNIT_BOX.mi).Scale(0.5).Add(Vec3(0.0, 0.0, 0.0)) == one;
    assert UNIT_BOX.mx.Add(UNIT_BOX.mi).Scale(0.5) == ZERO;
    IdentityApply(ZERO);
    AbsDotUnits(one);
  }

  lemma AbsDotUnits(h: Vec3)
    ensures AbsDot(Vec3(1.0, 0.0, 0.0), h) == h.x
    ensures AbsDot(Vec3(0.0, 1.0, 0.0), h) == h.y
    ensures AbsDot(Vec3(0.0, 0.0, 1.0), h) == h.z
  {}

  lemma UnitCell(t: Transform)
    requires t.basis == IDENTITY_BASIS
    ensures CELL.GetAabb(t) == Aabb(t.origin.Sub(Vec3(1.0, 1.0, 1.0)), t.origin.Add(Vec3(1.0, 1.0, 1.0)))
  {
    hide AbsDot;
    AbsDotUnits(Vec3(1.0, 1.0, 1.0));
    assert Inflated(Vec3(1.0, 1.0, 1.0), 0.0) == Vec3(1.0, 1.0, 1.0);
  }

  lemma SweptUnitCell()
    ensures CastHull(CELL, IDENTITY).GetAabb(IDENTITY) == UNIT_BOX
  {
    hide Transform.Times, AbsDot, BoxShape;
    TwiceIdentity();
    UnitCell(IDENTITY);
    assert CELL.GetAabb(IDENTITY) == UNIT_BOX;
  }

  /** The volume a unit box two compounds deep is filed under when its twin is built. */
  lemma BuiltBox()
    ensures var c := Child(IDENTITY, Built([Child(IDENTITY, Convex(CELL))]));
            ChildSweepable(c.shape) && ChildAabb(SweepChild(c)) == UNIT_BOX
  {
    hide Insert, TransformAabb, Transform.Times, Grow, BoxShape, Aabb.Merge, ConvexShape.GetAabb;
    CellIs();
    var leaf := Child(IDENTITY, Convex(CELL));
    BuiltOne(leaf);
    BuiltOne(SweepLeaf(leaf));
    assert SweepSecond(Built([leaf]).children) == [SweepLeaf(leaf)];
    SweptUnitCell();
    GrownToUnit();
    RefitIdentity();
  }

  lemma GrownToUnit()
    ensures Grow(EMPTY_AABB, UNIT_BOX) == UNIT_BOX
  {}

  lemma TwiceIdentity()
    ensures IDENTITY.Times(IDENTITY) == IDENTITY
  {
    forall p ensures IDENTITY.Times(IDENTITY).Apply(p) == IDENTITY.Apply(p) {
      ApplyTimes(IDENTITY, IDENTITY, p);
      IdentityApply(p);
    }
    SameMap(IDENTITY.Times(IDENTITY), IDENTITY);
  }

  /** A unit box at ten, seen from the origin. */
  lemma CellAtTen()
    ensures CELL.GetAabb(IDENTITY.Inverse().Times(Shift(10.0))).Expand(0.0)
         == Aabb(Vec3(9.0, -1.0, -1.0), Vec3(11.0, 1.0, 1.0))
  {
    hide ConvexShape.GetAabb, Transform.Times, Transform.Inverse, Transform.Apply, Transform.InvXform;
    forall p ensures IDENTITY.Inverse().Times(Shift(10.0)).Apply(p) == Shift(10.0).Apply(p) {
      ApplyTimes(IDENTITY.Inverse(), Shift(10.0), p);
      InverseIsInvXform(IDENTITY, Shift(10.0).Apply(p));
      IdentityUndo(Shift(10.0).Apply(p));
    }
    SameMap(IDENTITY.Inverse().Times(Shift(10.0)), Shift(10.0));
    UnitCell(Shift(10.0));
  }

  /** The box's second placement in the twin is ten along x. */
  lemma SweptToTen()
    ensures Has(CastHull(CELL, Delta(IDENTITY, IDENTITY, Shift(10.0))), Vec3(10.0, 0.0, 0.0))
  {
    hide Transform.Rigid, Transform.Times, Transform.InverseTimes, Transform.Apply;
    var (d, w) := (Delta(IDENTITY, IDENTITY, Shift(10.0)), Vec3(10.0, 0.0, 0.0));
    IdentityRigid();
    DeltaIsMotion(IDENTITY, IDENTITY, Shift(10.0));
    ApplyTimes(IDENTITY, d, ZERO);
    IdentityApply(d.Apply(ZERO));
    ApplyTimes(IDENTITY.InverseTimes(Shift(10.0)), IDENTITY, ZERO);
    IdentityApply(ZERO);
    MotionIsShift(10.0, ZERO);
    assert Has(CELL, ZERO) && d.Apply(ZERO) == w;
    PlacedIsInHull(CELL, d, w);
  }

  /** A leaf two identities down has the points its shape has. */
  lemma TouchesTwoDown(c: Wrapper, w: Vec3)
    requires c.worldTransform == IDENTITY && c.shape.Compound? && |c.shape.children| > 0
    requires c.shape.children[0].transform == IDENTITY && c.shape.children[0].shape.Compound?
    requires |c.shape.children[0].shape.children| > 0 && c.shape.children[0].shape.children[0].transform == IDENTITY
    requires var leaf := c.shape.children[0].shape.children[0].shape; leaf.Convex? && Has(leaf.convex, w)
    ensures TouchesAt(c, [0, 0], w)
  {
    hide Has, Transform.Apply;
    IdentityApply(w);
    var path: seq<nat> := [0, 0];
    assert path[1..] == [0] && path[1..][1..] == [];
    var child := c.shape.children[0];
    assert PathHas(child.shape.children[0].shape, path[1..][1..], w) && child.shape.children[0].transform.Apply(w) == w;
    assert path[1..] != [] && path[1..][0] == 0;
    assert PathHas(child.shape, path[1..], w);
    assert PathHas(c.shape, path, w);
  }

  /**
   A touching pair that is lost: a unit box two compounds deep sweeps ten along
   x into a box standing there. The outer tree still files it where it was
   built, the query volume starts at nine, and nothing is dispatched.
   */
  lemma NestedPairLost()
    ensures var s := Boxed(IDENTITY, CELL);
            && Sweepable(s) && Sound(s) && Matches(SweepShape(s), HullsOf(s))
            && var c := NewWrapper(Repose(SweepShape(s), HullsOf(s), IDENTITY, Shift(10.0)), IDENTITY, 0);
               var o := NewWrapper(Convex(CELL), Shift(10.0), 1);
               && TouchesAt(c, [0, 0], Vec3(10.0, 0.0, 0.0)) && TouchesAt(o, [], Vec3(10.0, 0.0, 0.0))
               && Indexed(c.shape) && Indexed(o.shape)
               && Collide(c, o, ClosestPoints, 0.0) == Run([], None)
  {
    hide Transform.Rigid, AabbSound, Repose, Boxed, SweepShape, HullsOf, Delta, TreeHolds, TreesFiled, BoxShape,
         Transform.Times, Transform.Inverse, Indexed, Sound, Sweepable, Matches, Collide, TouchesAt;
    IdentityRigid();
    ShiftRigid(10.0);
    BoxSound(Vec3(1.0, 1.0, 1.0), 0.0);
    CellIs();
    BoxedReposed(IDENTITY, CELL, IDENTITY, Shift(10.0));
    BoxedFiled();
    var s := Boxed(IDENTITY, CELL);
    var c := NewWrapper(Repose(SweepShape(s), HullsOf(s), IDENTITY, Shift(10.0)), IDENTITY, 0);
    var o := NewWrapper(Convex(CELL), Shift(10.0), 1);
    SweptToTen();
    TouchesTwoDown(c, Vec3(10.0, 0.0, 0.0));
    FiledIndexed(c.shape);
    CellAtTen();
    NothingOffered(c, o, [(UNIT_BOX, 0)], ClosestPoints, 0.0);
  }

  /** The twin as it is built: one child, filed under the unit box. */
  lemma BoxedStart()
    ensures var s := Boxed(IDENTITY, CELL);
            && Sweepable(s) && s.Compound? && HullsOf(s).Children? && |HullsOf(s).children| == 1
            && HullsOf(s).children[0].Grandchildren?
            && var (t, hs) := (SweepShape(s), HullsOf(s).children);
               && Matches(t, Children(hs)) && Reposable(t, hs)
               && t.tree.Some? && TreeHolds(t.tree.value, [(UNIT_BOX, 0)])
  {
    hide Transform.Rigid, AabbSound, SweepShape, TreeHolds, SweepChild, ChildAabb, BoxShape, ReposableChild, ChildMatches, Sound,
         Built, ChildSweepable, Reposable, ChildHullsOf;
    var s := Boxed(IDENTITY, CELL);
    IdentityRigid();
    BoxSound(Vec3(1.0, 1.0, 1.0), 0.0);
    CellIs();
    BoxedIs(IDENTITY, CELL);
    SweptReposable(s);
    TwinChildren(s);
    BuiltBox();
    assert Entries(SweepShape(s).children) == [(UNIT_BOX, 0)];
  }

  /** After re-posing the leaf is still filed under the box it was built with. */
  lemma BoxedFiled()
    ensures var s := Boxed(IDENTITY, CELL);
            && Sweepable(s) && Matches(SweepShape(s), HullsOf(s))
            && var r := Repose(SweepShape(s), HullsOf(s), IDENTITY, Shift(10.0));
               r.Compound? && r.tree.Some? && TreesFiled(r) && TreeHolds(r.tree.value, [(UNIT_BOX, 0)])
  {
    hide Transform.Rigid, Repose, Boxed, SweepShape, Reposable, TreeHolds, TreesFiled, BoxShape, ChildMatches, HullsOf, Sweepable;
    var s := Boxed(IDENTITY, CELL);
    IdentityRigid();
    ShiftRigid(10.0);
    BoxedStart();
    StaysFiled(SweepShape(s), UNIT_BOX, HullsOf(s), IDENTITY, Shift(10.0));
  }

  /** The volume of an only child that is a compound outlasts re-posing. */
  lemma StaysFiled(t: Shape, v: Aabb, h: CastHulls, tf1: Transform, tf2: Transform)
    requires Matches(t, h) && h.Children? && |h.children| == 1 && h.children[0].Grandchildren? && Reposable(t, h.children)
    requires t.tree.Some? && TreeHolds(t.tree.value, [(v, 0)]) && tf1.Rigid() && tf2.Rigid()
    ensures var r := Repose(t, h, tf1, tf2);
            r.Compound? && r.tree.Some? && TreesFiled(r) && TreeHolds(r.tree.value, [(v, 0)])
  {
    hide Transform.Rigid, Repose, Reposable, TreeHolds, TreesFiled, ChildAabb, FiledCovers, FiledAsNeeded, ChildMatches, Covering,
         ChildrenCovering;
    var e: seq<Entry> := [(v, 0)];
    ReposeCoversExactly(t, e, h.children, tf1, tf2);
    assert PartEntries(e, Repose(t, h, tf1, tf2), h.children, 1) == e;
  }

  lemma HasZero(list: seq<nat>)
    requires Below(list, 1) && list != []
    ensures 0 in list
  {
    assert list[0] == 0;
  }

  /** A compound of one child, filed under a volume the query volume misses, has nothing to dispatch. */
  lemma NothingOffered(c: Wrapper, o: Wrapper, f: seq<Entry>, table: DispatchTable, threshold: real)
    requires c.shape.Compound? && |c.shape.children| == 1 && o.shape.Convex? && Indexed(c.shape) && Indexed(o.shape)
    requires c.shape.tree.Some? && TreesFiled(c.shape) && TreeHolds(c.shape.tree.value, f) && InPlace(f) && |f| == 1
    requires !f[0].0.Intersect(QueryVolume(c, o, threshold))
    ensures Collide(c, o, table, threshold) == Run([], None)
  {
    hide QueryVolume, TreeHolds, TreesFiled, Indexed, ChildList, Aabb.Intersect;
    MeetsByEntry(c.shape.tree.value, f, 0, QueryVolume(c, o, threshold));
    OfferedExactly(c, o, 0, threshold);
    ChildListIndexed(c, o, threshold);
    var list := ChildList(c, o, threshold);
    if list != [] { HasZero(list); }
    assert CollideList(c, o, [], threshold) == NOTHING;
    assert CollideChildren(c, o, threshold) == NOTHING;
  }

  lemma CellIs()
    ensures CELL.Primitive? && CELL.proxyType == BOX_SHAPE
            && Indexed(Convex(CELL)) && TouchesAt(NewWrapper(Convex(CELL), Shift(10.0), 1), [], Vec3(10.0, 0.0, 0.0))
  {
    ShiftApply(10.0, ZERO);
    assert PathHas(Convex(CELL), [], ZERO);
  }
}
