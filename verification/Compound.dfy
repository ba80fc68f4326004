/**
 Compound shapes (crates/cspace-bullet/src/compound.rs).

 `Shape` is the owned value a compound hands over once it is built;
 `CompoundShape` is the object while it is being built or re-posed in place.
 */
module Compound {
  import opened LinearMath
  import opened Wrappers
  import opened Shapes
  import opened Dbvt

  datatype Child = Child(transform: Transform, shape: Shape)

  /** `tree` is `None` for a compound built without one; the leaf a child owns is the one filed under its index. */
  datatype Shape =
    | Convex(convex: ConvexShape)
    | Compound(children: seq<Child>, localAabb: Aabb, tree: Option<Option<Node>>, margin: real)
  {
    function ShapeType(): int {
      match this
      case Convex(c) => c.ShapeType()
      case Compound(_, _, _, _) => COMPOUND_SHAPE
    }

    function GetAabb(t: Transform): Aabb {
      match this
      case Convex(c) => c.GetAabb(t)
      case Compound(children, box, _, m) =>
        if children == [] then Around(t.Apply(ZERO), Vec3(m, m, m), t.basis)
        else TransformAabb(box, m, t)
    }
  }

  const BT_LARGE_FLOAT := 1000000000000000000.0
  const EMPTY_AABB := Aabb(Vec3(BT_LARGE_FLOAT, BT_LARGE_FLOAT, BT_LARGE_FLOAT),
                           Vec3(-BT_LARGE_FLOAT, -BT_LARGE_FLOAT, -BT_LARGE_FLOAT))

  function ChildAabb(c: Child): Aabb { c.shape.GetAabb(c.transform) }

  /** One child's box folded into the running extents, axis by axis. */
  function Grow(box: Aabb, b: Aabb): Aabb {
    Aabb(Vec3(if box.mi.x > b.mi.x then b.mi.x else box.mi.x,
              if box.mi.y > b.mi.y then b.mi.y else box.mi.y,
              if box.mi.z > b.mi.z then b.mi.z else box.mi.z),
         Vec3(if box.mx.x < b.mx.x then b.mx.x else box.mx.x,
              if box.mx.y < b.mx.y then b.mx.y else box.mx.y,
              if box.mx.z < b.mx.z then b.mx.z else box.mx.z))
  }

  /** The union of the children's boxes, seeded with the inverted extents. */
  function Union(children: seq<Child>): Aabb {
    if children == [] then EMPTY_AABB
    else Grow(Union(children[..|children| - 1]), ChildAabb(children[|children| - 1]))
  }

  /** The tree's leaves, as they should be: child `i`'s box filed under `i`. */
  function Entries(children: seq<Child>): seq<Entry> {
    seq(|children|, i requires 0 <= i < |children| => (ChildAabb(children[i]), i))
  }

  /** The tree is nested and its leaves are exactly `e`. */
  ghost predicate TreeHolds(t: Option<Node>, e: seq<Entry>) {
    TreeNested(t) && multiset(TreeLeaves(t)) == multiset(e)
  }

  /**
   Boxes, tree and children agree at every level: each convex leaf's boxes hold
   it, each child is rigidly placed, the local box holds every child's box and
   the tree has one leaf per child with that child's box.
   */
  ghost predicate InSync(s: Shape) {
    match s
    case Convex(c) => AabbSound(c)
    case Compound(children, box, tree, m) =>
      && m >= 0.0
      && (forall i :: 0 <= i < |children| ==> InSync(children[i].shape))
      && (forall i :: 0 <= i < |children| ==> children[i].transform.Rigid())
      && (forall i :: 0 <= i < |children| ==> box.Contain(ChildAabb(children[i])))
      && (tree.Some? ==> TreeHolds(tree.value, Entries(children)))
  }

  ghost predicate HasLeaf(s: seq<Entry>, i: nat) {
    exists k :: 0 <= k < |s| && s[k].1 == i
  }

  /** The leaves file each of `n` children once. */
  ghost predicate FiledOnce(s: seq<Entry>, n: nat) {
    && DistinctData(s)
    && (forall k :: 0 <= k < |s| ==> s[k].1 < n)
    && (forall i :: 0 <= i < n ==> HasLeaf(s, i))
  }

  /** At every level the tree is nested and files each child once, whatever volume it files it under. */
  ghost predicate TreesFiled(s: Shape) {
    match s
    case Convex(_) => true
    case Compound(children, _, tree, _) =>
      && (forall i :: 0 <= i < |children| ==> TreesFiled(children[i].shape))
      && (tree.Some? ==> TreeNested(tree.value) && FiledOnce(TreeLeaves(tree.value), |children|))
  }

  /** The tree is nested and files each child once, under a volume that holds the child's box. */
  ghost predicate TreeCovers(t: Option<Node>, children: seq<Child>) {
    && TreeNested(t) && FiledOnce(TreeLeaves(t), |children|)
    && (forall k :: 0 <= k < |TreeLeaves(t)| ==>
          TreeLeaves(t)[k].0.Contain(ChildAabb(children[TreeLeaves(t)[k].1])))
  }

  /** What culling needs of a shape: like `InSync`, but volumes in the trees may be larger than the boxes they stand for. */
  ghost predicate Covering(s: Shape) {
    match s
    case Convex(c) => AabbSound(c)
    case Compound(children, box, tree, m) =>
      && m >= 0.0
      && (forall i :: 0 <= i < |children| ==> Covering(children[i].shape))
      && (forall i :: 0 <= i < |children| ==> children[i].transform.Rigid())
      && (forall i :: 0 <= i < |children| ==> box.Contain(ChildAabb(children[i])))
      && (tree.Some? ==> TreeCovers(tree.value, children))
  }

  /** A tree that holds entries filed by position files each once. */
  lemma HoldsFiled(t: Option<Node>, e: seq<Entry>)
    requires TreeHolds(t, e) && forall i :: 0 <= i < |e| ==> e[i].1 == i
    ensures FiledOnce(TreeLeaves(t), |e|)
    ensures forall k :: 0 <= k < |TreeLeaves(t)| ==> TreeLeaves(t)[k].1 < |e| && TreeLeaves(t)[k] == e[TreeLeaves(t)[k].1]
  {
    var s := TreeLeaves(t);
    TreeDataDistinct(t, e);
    forall k | 0 <= k < |s| ensures s[k].1 < |e| && s[k] == e[s[k].1] {
      MemberByCount(s, e, s[k]);
      assert s[k] in s;
    }
    forall i | 0 <= i < |e| ensures HasLeaf(s, i) {
      MemberByCount(s, e, e[i]);
      assert e[i] in s;
      var k :| 0 <= k < |s| && s[k] == e[i];
    }
  }

  lemma HoldsCovers(t: Option<Node>, children: seq<Child>)
    requires TreeHolds(t, Entries(children))
    ensures TreeCovers(t, children)
  {
    HoldsFiled(t, Entries(children));
  }

  lemma {:induction false} InSyncCovers(s: Shape)
    requires InSync(s)
    ensures Covering(s)
    decreases s
  {
    hide AabbSound, ChildAabb, TreeHolds, TreeCovers;
    if s.Compound? {
      forall i | 0 <= i < |s.children| ensures Covering(s.children[i].shape) {
        InSyncCovers(s.children[i].shape);
      }
      if s.tree.Some? { HoldsCovers(s.tree.value, s.children); }
    }
  }

  lemma {:induction false} CoveringFiled(s: Shape)
    requires Covering(s)
    ensures TreesFiled(s)
    decreases s
  {
    hide AabbSound, ChildAabb;
    if s.Compound? {
      forall i | 0 <= i < |s.children| ensures TreesFiled(s.children[i].shape) {
        CoveringFiled(s.children[i].shape);
      }
    }
  }

  // ---- the points of a shape, leaf by leaf -------------------------------

  /** `path` leads to a convex leaf and `p`, in the shape's own frame, is a point of that leaf. */
  ghost predicate PathHas(s: Shape, path: seq<nat>, p: Vec3)
    decreases s
  {
    match s
    case Convex(c) => path == [] && Has(c, p)
    case Compound(children, _, _, _) =>
      && path != [] && path[0] < |children|
      && exists q :: PathHas(children[path[0]].shape, path[1..], q) && children[path[0]].transform.Apply(q) == p
  }

  /** Wherever it is rigidly placed, the shape's box holds every point of every leaf. */
  lemma {:induction false} AabbHolds(s: Shape, path: seq<nat>, p: Vec3, t: Transform)
    requires Covering(s) && PathHas(s, path, p) && t.Rigid()
    ensures s.GetAabb(t).Has(t.Apply(p))
    decreases s
  {
    match s
    case Convex(c) =>
    case Compound(children, box, _, m) =>
      var child := children[path[0]];
      var q :| PathHas(child.shape, path[1..], q) && child.transform.Apply(q) == p;
      AabbHolds(child.shape, path[1..], q, child.transform);
      assert box.Contain(ChildAabb(child));
      assert box.Has(p);
      RefitHas(box, m, t, p);
  }

  lemma EntriesDistinct(children: seq<Child>)
    ensures DistinctData(Entries(children))
  {}

  lemma TreeDataDistinct(t: Option<Node>, e: seq<Entry>)
    requires TreeHolds(t, e) && DistinctData(e)
    ensures DistinctData(TreeLeaves(t))
  {
    var s := TreeLeaves(t);
    assert Distinct(e) by {
      forall i, j | 0 <= i < j < |e| ensures e[i] != e[j] { assert e[i].1 != e[j].1; }
    }
    DistinctByCount(s, e);
    forall i, j | 0 <= i < j < |s| ensures s[i].1 != s[j].1 {
      MemberByCount(s, e, s[i]);
      MemberByCount(s, e, s[j]);
      assert s[i] in s && s[j] in s;
      var a :| 0 <= a < |e| && e[a] == s[i];
      var b :| 0 <= b < |e| && e[b] == s[j];
      assert a != b;
    }
  }

  // ---- the union of the children -----------------------------------------

  lemma GrowContains(box: Aabb, b: Aabb)
    ensures Grow(box, b).Contain(box) && Grow(box, b).Contain(b)
  {}

  lemma {:induction false} UnionContains(children: seq<Child>, i: nat)
    requires i < |children|
    ensures Union(children).Contain(ChildAabb(children[i]))
  {
    var n := |children| - 1;
    GrowContains(Union(children[..n]), ChildAabb(children[n]));
    if i < n { UnionContains(children[..n], i); }
  }

  /** Nothing smaller will do: any box around the children that reaches the seeds holds the union. */
  lemma {:induction false} UnionLeast(children: seq<Child>, b: Aabb)
    requires b.Contain(EMPTY_AABB)
    requires forall i :: 0 <= i < |children| ==> b.Contain(ChildAabb(children[i]))
    ensures b.Contain(Union(children))
  {
    if children != [] { UnionLeast(children[..|children| - 1], b); }
  }

  // ---- values before and after each edit ---------------------------------

  function EmptyCompound(enableTree: bool): Shape {
    Shape.Compound([], EMPTY_AABB, if enableTree then Some(None) else None, 0.0)
  }

  function WithChild(s: Shape, t: Transform, shape: Shape): Shape
    requires s.Compound?
  {
    var box := shape.GetAabb(t);
    Shape.Compound(
      s.children + [Child(t, shape)],
      Grow(s.localAabb, box),
      if s.tree.Some? then Some(Insert(s.tree.value, box, |s.children|)) else None,
      s.margin)
  }

  lemma EmptyInSync(enableTree: bool)
    ensures InSync(EmptyCompound(enableTree))
  {}

  /** Adding a child that is itself in sync keeps the compound in sync, and the local box the union. */
  lemma WithChildInSync(s: Shape, t: Transform, shape: Shape)
    requires s.Compound? && InSync(s) && InSync(shape) && t.Rigid()
    ensures InSync(WithChild(s, t, shape))
    ensures s.localAabb == Union(s.children)
            ==> WithChild(s, t, shape).localAabb == Union(WithChild(s, t, shape).children)
  {
    hide AabbSound, Insert, Shape.GetAabb, Grow;
    var r := WithChild(s, t, shape);
    var n := |s.children|;
    GrowContains(s.localAabb, shape.GetAabb(t));
    assert r.children[..n] == s.children;
    if s.tree.Some? {
      InsertKeeps(s.tree.value, shape.GetAabb(t), n);
      assert Entries(r.children) == Entries(s.children) + [(shape.GetAabb(t), n)];
    }
    forall i | 0 <= i < |r.children|
      ensures InSync(r.children[i].shape)
      ensures r.children[i].transform.Rigid()
      ensures r.localAabb.Contain(ChildAabb(r.children[i]))
    {
      if i < n {
        assert r.children[i] == s.children[i];
        assert s.localAabb.Contain(ChildAabb(s.children[i]));
      }
    }
  }

  // ---- the compound while it is edited in place --------------------------

  class CompoundShape {
    var children: seq<Child>
    var localAabb: Aabb
    var tree: Option<Option<Node>>
    var margin: real

    function Value(): Shape
      reads this
    {
      Shape.Compound(children, localAabb, tree, margin)
    }

    constructor (enableTree: bool)
      ensures Value() == EmptyCompound(enableTree)
    {
      children := [];
      localAabb := EMPTY_AABB;
      tree := if enableTree then Some(None) else None;
      margin := 0.0;
    }

    /** Takes an owned compound value up for editing. */
    constructor Edit(s: Shape)
      requires s.Compound?
      ensures Value() == s
    {
      children := s.children;
      localAabb := s.localAabb;
      tree := s.tree;
      margin := s.margin;
    }

    /** One child's box folded into the local extents, axis by axis. */
    method GrowLocalAabb(b: Aabb)
      modifies this`localAabb
      ensures localAabb == Grow(old(localAabb), b)
    {
      var mi, mx := localAabb.mi, localAabb.mx;
      if mi.x > b.mi.x { mi := mi.(x := b.mi.x); }
      if mx.x < b.mx.x { mx := mx.(x := b.mx.x); }
      if mi.y > b.mi.y { mi := mi.(y := b.mi.y); }
      if mx.y < b.mx.y { mx := mx.(y := b.mx.y); }
      if mi.z > b.mi.z { mi := mi.(z := b.mi.z); }
      if mx.z < b.mx.z { mx := mx.(z := b.mx.z); }
      localAabb := Aabb(mi, mx);
    }

    method AddChildShape(localTransform: Transform, shape: Shape)
      modifies this
      ensures Value() == WithChild(old(Value()), localTransform, shape)
    {
      var box := shape.GetAabb(localTransform);
      GrowLocalAabb(box);
      var index := |children|;
      if tree.Some? {
        tree := Some(Insert(tree.value, box, index));
      }
      children := children + [Child(localTransform, shape)];
    }

    /** `child_shape_mut` written through: the child's shape changes, its boxes do not. */
    method ReplaceChildShape(i: nat, shape: Shape)
      requires i < |children|
      modifies this`children
      ensures children == old(children)[i := Child(old(children)[i].transform, shape)]
    {
      children := children[i := Child(children[i].transform, shape)];
    }

    method UpdateChildTransform(i: nat, t: Transform, recalculate: bool)
      requires i < |children|
      modifies this
      ensures children == old(children)[i := Child(t, old(children)[i].shape)]
      ensures margin == old(margin)
      ensures tree == if old(tree).Some? then Some(Update(old(tree).value, ChildAabb(children[i]), i)) else None
      ensures localAabb == if recalculate then Union(children) else old(localAabb)
    {
      children := children[i := Child(t, children[i].shape)];
      if tree.Some? {
        var box := children[i].shape.GetAabb(t);
        tree := Some(Update(tree.value, box, i));
      }
      if recalculate {
        RecalculateLocalAabb();
      }
    }

    method RecalculateLocalAabb()
      modifies this`localAabb
      ensures localAabb == Union(children)
    {
      localAabb := EMPTY_AABB;
      for j := 0 to |children|
        invariant localAabb == Union(children[..j])
      {
        GrowLocalAabb(children[j].shape.GetAabb(children[j].transform));
        assert children[..j + 1][..j] == children[..j];
      }
      assert children[..|children|] == children;
    }

    method SetMargin(m: real)
      modifies this`margin
      ensures margin == m
    {
      margin := m;
    }
  }
}
