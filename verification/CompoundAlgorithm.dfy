/**
 The dispatch over nested shapes (crates/cspace-bullet/src/compound_algorithm.rs,
 collision_object_wrapper.rs, dispatch.rs and the result state of manifold.rs).

 `Collide` and its companions say, as a value, which leaf pairs a query
 dispatches and in what order; the methods below them are the code, with its
 explicit stacks, its latched failure and its wrapper slots, proved equal to it.
 */
module CompoundAlgorithm {
  import opened LinearMath
  import opened Wrappers
  import opened Shapes
  import opened Dbvt
  import opened Compound

  // ---- wrappers ----------------------------------------------------------

  /** `CollisionObjectWrapper`; `path` stands for the identity of the borrowed shape within its object. */
  datatype Wrapper = Wrapper(
    shape: Shape, worldTransform: Transform, objectId: nat, objectTransform: Transform, path: seq<nat>)
  {
    /** `child`: new shape and world transform, same object. */
    function Child(i: nat): Wrapper
      requires shape.Compound? && i < |shape.children|
    {
      Wrapper(shape.children[i].shape, worldTransform.Times(shape.children[i].transform),
              objectId, objectTransform, path + [i])
    }
  }

  function NewWrapper(shape: Shape, worldTransform: Transform, objectId: nat): Wrapper {
    Wrapper(shape, worldTransform, objectId, worldTransform, [])
  }

  /** The identifier a side carries for a wrapper: its innermost child index, or -1 at the top. */
  function LastIndex(path: seq<nat>): int { if path == [] then -1 else path[|path| - 1] }

  // ---- dispatch ----------------------------------------------------------

  datatype DispatchTable = ClosestPoints | ContactPoints

  datatype Algorithm =
    | SphereSphere | SphereTriangle | TriangleSphere | BoxBox | ConvexPlane | PlaneConvex
    | ConvexConvex | ConvexConcave | SwappedConvexConcave
    | CompoundCompound | CompoundFirst | SwappedCompound | Empty

  predicate IsConvexType(t: int) { t < CONCAVE_SHAPES_START_HERE }
  predicate IsConcaveType(t: int) { CONCAVE_SHAPES_START_HERE < t < CONCAVE_SHAPES_END_HERE }

  function FindAlgorithm(table: DispatchTable, t0: int, t1: int): Algorithm {
    if t0 == SPHERE_SHAPE && t1 == SPHERE_SHAPE then SphereSphere
    else if t0 == SPHERE_SHAPE && t1 == TRIANGLE_SHAPE then SphereTriangle
    else if t0 == TRIANGLE_SHAPE && t1 == SPHERE_SHAPE then TriangleSphere
    else if table == ContactPoints && t0 == BOX_SHAPE && t1 == BOX_SHAPE then BoxBox
    else if IsConvexType(t0) && t1 == STATIC_PLANE then ConvexPlane
    else if IsConvexType(t1) && t0 == STATIC_PLANE then PlaneConvex
    else if IsConvexType(t0) && IsConvexType(t1) then ConvexConvex
    else if IsConvexType(t0) && IsConcaveType(t1) then ConvexConcave
    else if IsConvexType(t1) && IsConcaveType(t0) then SwappedConvexConcave
    else if t0 == COMPOUND_SHAPE && t1 == COMPOUND_SHAPE then CompoundCompound
    else if t0 == COMPOUND_SHAPE then CompoundFirst
    else if t1 == COMPOUND_SHAPE then SwappedCompound
    else Empty
  }

  datatype UnportedAlgorithm = UnportedAlgorithm(algorithm: Algorithm, proxyType0: int, proxyType1: int)

  // ---- what a query dispatches -------------------------------------------

  /** Leaf pairs in dispatch order, and the failure that stopped them if there was one. */
  datatype Run = Run(pairs: seq<(Wrapper, Wrapper)>, error: Option<UnportedAlgorithm>)

  const NOTHING := Run([], None)

  function Then(r: Run, s: Run): Run {
    if r.error.Some? then r else Run(r.pairs + s.pairs, s.error)
  }

  function Size(s: Shape): nat
    decreases s, 1
  {
    match s
    case Convex(_) => 1
    case Compound(children, _, _, _) => 1 + SizeAll(children)
  }

  function SizeAll(cs: seq<Child>): nat
    decreases cs, 0
  {
    if cs == [] then 0 else SizeOf(cs[0]) + SizeAll(cs[1..])
  }

  function SizeOf(c: Child): nat
    decreases c, 2
  {
    Size(c.shape)
  }

  /** Every index in `list` is an index of one of `n` children. */
  ghost predicate Below(list: seq<nat>, n: nat) {
    forall k :: 0 <= k < |list| ==> list[k] < n
  }

  ghost predicate PairsBelow(list: seq<(nat, nat)>, n: nat, m: nat) {
    forall k :: 0 <= k < |list| ==> list[k].0 < n && list[k].1 < m
  }

  lemma {:induction false} SizeOfChild(cs: seq<Child>, i: nat)
    requires i < |cs|
    ensures Size(cs[i].shape) <= SizeAll(cs)
  {
    if i > 0 { SizeOfChild(cs[1..], i - 1); }
  }

  /** The child indices in every tree are indices of children. */
  ghost predicate Indexed(s: Shape) {
    match s
    case Convex(_) => true
    case Compound(children, _, tree, _) =>
      && (forall i :: 0 <= i < |children| ==> Indexed(children[i].shape))
      && (tree.Some? ==> forall k :: 0 <= k < |TreeLeaves(tree.value)| ==> TreeLeaves(tree.value)[k].1 < |children|)
  }

  /** Which table a child pair is looked up in. */
  function ChildTable(threshold: real): DispatchTable {
    if threshold > 0.0 then ClosestPoints else ContactPoints
  }

  function Collide(b0: Wrapper, b1: Wrapper, table: DispatchTable, threshold: real): Run
    requires Indexed(b0.shape) && Indexed(b1.shape)
    decreases Size(b0.shape) + Size(b1.shape), 3
  {
    match (b0.shape, b1.shape)
    case (Convex(c0), Convex(c1)) =>
      var algorithm := FindAlgorithm(table, c0.ShapeType(), c1.ShapeType());
      if algorithm != ConvexConvex
      then Run([], Some(UnportedAlgorithm(algorithm, c0.ShapeType(), c1.ShapeType())))
      else Run([(b0, b1)], None)
    case (Compound(_, _, tree0, _), Compound(_, _, tree1, _)) =>
      if tree0.None? || tree1.None? then CollideChildren(b0, b1, threshold)
      else
        PairListIndexed(b0, b1, threshold);
        CollidePairs(b0, b1, PairList(b0, b1, threshold), threshold)
    case (Compound(_, _, _, _), Convex(_)) => CollideChildren(b0, b1, threshold)
    case (Convex(_), Compound(_, _, _, _)) => CollideChildren(b1, b0, threshold)
  }

  /** The query volume in the compound's own frame. */
  function QueryVolume(c: Wrapper, o: Wrapper, threshold: real): Aabb {
    o.shape.GetAabb(c.worldTransform.Inverse().Times(o.worldTransform)).Expand(threshold)
  }

  /** The children a compound arm offers to its leaf callback, in order. */
  function ChildList(c: Wrapper, o: Wrapper, threshold: real): seq<nat>
    requires c.shape.Compound?
  {
    match c.shape.tree
    case None => seq(|c.shape.children|, i => i)
    case Some(None) => []
    case Some(Some(root)) => Tv(root, QueryVolume(c, o, threshold))
  }

  lemma {:induction false} TvFromLeaves(n: Node, b: Aabb, i: nat)
    requires i in Tv(n, b)
    ensures exists k :: 0 <= k < |Leaves(n)| && Leaves(n)[k].1 == i
  {
    match n
    case Leaf(v, d) => assert Leaves(n)[0].1 == i;
    case Inner(_, l, r) =>
      if i in Tv(r, b) {
        TvFromLeaves(r, b, i);
        var k :| 0 <= k < |Leaves(r)| && Leaves(r)[k].1 == i;
        assert Leaves(n)[k] == Leaves(r)[k];
      } else {
        TvFromLeaves(l, b, i);
        var k :| 0 <= k < |Leaves(l)| && Leaves(l)[k].1 == i;
        assert Leaves(n)[|Leaves(r)| + k] == Leaves(l)[k];
      }
  }

  lemma ChildListIndexed(c: Wrapper, o: Wrapper, threshold: real)
    requires c.shape.Compound? && Indexed(c.shape)
    ensures Below(ChildList(c, o, threshold), |c.shape.children|)
  {
    var list := ChildList(c, o, threshold);
    forall k | 0 <= k < |list| ensures list[k] < |c.shape.children| {
      if c.shape.tree.Some? && c.shape.tree.value.Some? {
        TvFromLeaves(c.shape.tree.value.value, QueryVolume(c, o, threshold), list[k]);
        assert Leaves(c.shape.tree.value.value) == TreeLeaves(c.shape.tree.value);
      }
    }
  }

  function CollideChildren(c: Wrapper, o: Wrapper, threshold: real): Run
    requires c.shape.Compound? && Indexed(c.shape) && Indexed(o.shape)
    decreases Size(c.shape) + Size(o.shape), 2
  {
    if c.shape.children == [] then NOTHING
    else
      ChildListIndexed(c, o, threshold);
      CollideList(c, o, ChildList(c, o, threshold), threshold)
  }

  function CollideList(c: Wrapper, o: Wrapper, list: seq<nat>, threshold: real): Run
    requires c.shape.Compound? && Indexed(c.shape) && Indexed(o.shape)
    requires Below(list, |c.shape.children|)
    decreases Size(c.shape) + Size(o.shape), 1, |list|
  {
    if list == [] then NOTHING
    else Then(CollideChild(c, o, list[0], threshold), CollideList(c, o, list[1..], threshold))
  }

  /** `process_child_shape`: the world boxes are tested, then the child is dispatched as body 0. */
  function CollideChild(c: Wrapper, o: Wrapper, i: nat, threshold: real): Run
    requires c.shape.Compound? && i < |c.shape.children| && Indexed(c.shape) && Indexed(o.shape)
    decreases Size(c.shape) + Size(o.shape), 0
  {
    SizeOfChild(c.shape.children, i);
    if !ChildOverlaps(c.Child(i), o, threshold) then NOTHING
    else Collide(c.Child(i), o, ChildTable(threshold), threshold)
  }

  /** The world-space box test both leaf callbacks make; only the first box is grown. */
  predicate ChildOverlaps(w0: Wrapper, w1: Wrapper, threshold: real) {
    w0.shape.GetAabb(w0.worldTransform).Expand(threshold).Intersect(w1.shape.GetAabb(w1.worldTransform))
  }

  /** Tree 1's frame seen from tree 0's. */
  function Relative(b0: Wrapper, b1: Wrapper): Transform {
    b0.worldTransform.Inverse().Times(b1.worldTransform)
  }

  /** The pairs the two-tree walk offers to its leaf callback, in order. */
  function PairList(b0: Wrapper, b1: Wrapper, threshold: real): seq<(nat, nat)>
    requires b0.shape.Compound? && b1.shape.Compound? && b0.shape.tree.Some? && b1.shape.tree.Some?
  {
    match (b0.shape.tree.value, b1.shape.tree.value)
    case (Some(r0), Some(r1)) => Tt(r0, r1, Relative(b0, b1), threshold)
    case _ => []
  }

  lemma PairListIndexed(b0: Wrapper, b1: Wrapper, threshold: real)
    requires b0.shape.Compound? && b1.shape.Compound? && b0.shape.tree.Some? && b1.shape.tree.Some?
    requires Indexed(b0.shape) && Indexed(b1.shape)
    ensures PairsBelow(PairList(b0, b1, threshold), |b0.shape.children|, |b1.shape.children|)
  {
    var list := PairList(b0, b1, threshold);
    var (t0, t1) := (b0.shape.tree.value, b1.shape.tree.value);
    forall k | 0 <= k < |list| ensures list[k].0 < |b0.shape.children| && list[k].1 < |b1.shape.children| {
      TtFromLeaves(t0.value, t1.value, Relative(b0, b1), threshold, list[k]);
      assert Leaves(t0.value) == TreeLeaves(t0) && Leaves(t1.value) == TreeLeaves(t1);
    }
  }

  lemma {:induction false} TtFromLeaves(a: Node, b: Node, xform: Transform, threshold: real, x: (nat, nat))
    requires x in Tt(a, b, xform, threshold)
    ensures exists k :: 0 <= k < |Leaves(a)| && Leaves(a)[k].1 == x.0
    ensures exists k :: 0 <= k < |Leaves(b)| && Leaves(b)[k].1 == x.1
    decreases Height(a) + Height(b)
  {
    match (a, b)
    case (Leaf(_, i), Leaf(_, j)) =>
      assert Leaves(a)[0].1 == i && Leaves(b)[0].1 == j;
    case (Inner(_, a0, a1), Inner(_, b0, b1)) =>
      var a' := if x in Tt(a1, b1, xform, threshold) || x in Tt(a1, b0, xform, threshold) then a1 else a0;
      var b' := if x in Tt(a1, b1, xform, threshold) || (x in Tt(a0, b1, xform, threshold) && a' == a0)
                then b1 else b0;
      TtFromLeaves(a', b', xform, threshold, x);
      LeavesOfPart(a, a', x.0);
      LeavesOfPart(b, b', x.1);
    case (Inner(_, a0, a1), Leaf(_, _)) =>
      var a' := if x in Tt(a1, b, xform, threshold) then a1 else a0;
      TtFromLeaves(a', b, xform, threshold, x);
      LeavesOfPart(a, a', x.0);
    case (Leaf(_, _), Inner(_, b0, b1)) =>
      var b' := if x in Tt(a, b1, xform, threshold) then b1 else b0;
      TtFromLeaves(a, b', xform, threshold, x);
      LeavesOfPart(b, b', x.1);
  }

  lemma LeavesOfPart(n: Node, part: Node, i: nat)
    requires n.Inner? && (part == n.left || part == n.right)
    requires exists k :: 0 <= k < |Leaves(part)| && Leaves(part)[k].1 == i
    ensures exists k :: 0 <= k < |Leaves(n)| && Leaves(n)[k].1 == i
  {
    var k :| 0 <= k < |Leaves(part)| && Leaves(part)[k].1 == i;
    if part == n.right {
      assert Leaves(n)[k] == Leaves(part)[k];
    } else {
      assert Leaves(n)[|Leaves(n.right)| + k] == Leaves(part)[k];
    }
  }

  function CollidePairs(b0: Wrapper, b1: Wrapper, list: seq<(nat, nat)>, threshold: real): Run
    requires b0.shape.Compound? && b1.shape.Compound? && Indexed(b0.shape) && Indexed(b1.shape)
    requires PairsBelow(list, |b0.shape.children|, |b1.shape.children|)
    decreases Size(b0.shape) + Size(b1.shape), 1, |list|
  {
    if list == [] then NOTHING
    else Then(CollidePair(b0, b1, list[0].0, list[0].1, threshold), CollidePairs(b0, b1, list[1..], threshold))
  }

  /** `CompoundCompoundLeafCallback::process`. */
  function CollidePair(b0: Wrapper, b1: Wrapper, i: nat, j: nat, threshold: real): Run
    requires b0.shape.Compound? && b1.shape.Compound? && Indexed(b0.shape) && Indexed(b1.shape)
    requires i < |b0.shape.children| && j < |b1.shape.children|
    decreases Size(b0.shape) + Size(b1.shape), 0
  {
    SizeOfChild(b0.shape.children, i);
    SizeOfChild(b1.shape.children, j);
    if !ChildOverlaps(b0.Child(i), b1.Child(j), threshold) then NOTHING
    else Collide(b0.Child(i), b1.Child(j), ChildTable(threshold), threshold)
  }

  lemma ThenAssoc(a: Run, b: Run, c: Run)
    ensures Then(Then(a, b), c) == Then(a, Then(b, c))
    ensures Then(NOTHING, a) == a && Then(a, NOTHING) == a
  {
    assert [] + a.pairs == a.pairs && a.pairs + [] == a.pairs;
    if a.error.None? && b.error.None? {
      assert (a.pairs + b.pairs) + c.pairs == a.pairs + (b.pairs + c.pairs);
    }
  }

  lemma {:induction false} CollideListConcat(c: Wrapper, o: Wrapper, s: seq<nat>, t: seq<nat>, threshold: real)
    requires c.shape.Compound? && Indexed(c.shape) && Indexed(o.shape)
    requires Below(s, |c.shape.children|) && Below(t, |c.shape.children|)
    ensures Below(s + t, |c.shape.children|)
    ensures CollideList(c, o, s + t, threshold)
         == Then(CollideList(c, o, s, threshold), CollideList(c, o, t, threshold))
    decreases |s|
  {
    if s == [] {
      assert s + t == t;
      ThenAssoc(CollideList(c, o, t, threshold), NOTHING, NOTHING);
    } else {
      assert (s + t)[1..] == s[1..] + t;
      CollideListConcat(c, o, s[1..], t, threshold);
      ThenAssoc(CollideChild(c, o, s[0], threshold), CollideList(c, o, s[1..], threshold), CollideList(c, o, t, threshold));
    }
  }

  lemma {:induction false} CollidePairsConcat(b0: Wrapper, b1: Wrapper, s: seq<(nat, nat)>, t: seq<(nat, nat)>, threshold: real)
    requires b0.shape.Compound? && b1.shape.Compound? && Indexed(b0.shape) && Indexed(b1.shape)
    requires PairsBelow(s, |b0.shape.children|, |b1.shape.children|)
    requires PairsBelow(t, |b0.shape.children|, |b1.shape.children|)
    ensures PairsBelow(s + t, |b0.shape.children|, |b1.shape.children|)
    ensures CollidePairs(b0, b1, s + t, threshold)
         == Then(CollidePairs(b0, b1, s, threshold), CollidePairs(b0, b1, t, threshold))
    decreases |s|
  {
    if s == [] {
      assert s + t == t;
      ThenAssoc(CollidePairs(b0, b1, t, threshold), NOTHING, NOTHING);
    } else {
      assert (s + t)[1..] == s[1..] + t;
      CollidePairsConcat(b0, b1, s[1..], t, threshold);
      ThenAssoc(CollidePair(b0, b1, s[0].0, s[0].1, threshold),
                CollidePairs(b0, b1, s[1..], threshold), CollidePairs(b0, b1, t, threshold));
    }
  }

  // ---- the result the traversal writes into ------------------------------

  /** What is in force when a pair of convex leaves reaches the narrow phase. */
  datatype Dispatch = Dispatch(
    wrap0: Wrapper, wrap1: Wrapper,
    manifold: (nat, nat),
    slot0: Wrapper, slot1: Wrapper,
    index0: int, index1: int)

  /** `first` is the object the result calls body 0. */
  function EventOf(pair: (Wrapper, Wrapper), first: nat): Dispatch {
    var (w0, w1) := pair;
    var (s0, s1) := if w0.objectId == first then (w0, w1) else (w1, w0);
    Dispatch(w0, w1, (w0.objectId, w1.objectId), s0, s1, LastIndex(s0.path), LastIndex(s1.path))
  }

  function Events(pairs: seq<(Wrapper, Wrapper)>, first: nat): seq<Dispatch> {
    seq(|pairs|, i requires 0 <= i < |pairs| => EventOf(pairs[i], first))
  }

  lemma EventsConcat(s: seq<(Wrapper, Wrapper)>, t: seq<(Wrapper, Wrapper)>, first: nat)
    ensures Events(s + t, first) == Events(s, first) + Events(t, first)
  {}

  class ManifoldResult {
    var manifold: Option<(nat, nat)>
    var body0Wrap: Wrapper
    var body1Wrap: Wrapper
    var index0: int
    var index1: int
    const threshold: real
    var log: seq<Dispatch>

    constructor (wrap0: Wrapper, wrap1: Wrapper, threshold: real)
      ensures body0Wrap == wrap0 && body1Wrap == wrap1 && this.threshold == threshold
      ensures manifold == None && index0 == -1 && index1 == -1 && log == []
    {
      manifold := None;
      body0Wrap, body1Wrap := wrap0, wrap1;
      index0, index1 := -1, -1;
      this.threshold := threshold;
      log := [];
    }

    /** The identifier of the side that speaks for object `id`. */
    function IndexOf(id: nat): int
      reads this
    {
      if id == body0Wrap.objectId then index0 else index1
    }

    /** The slot that speaks for `w`'s object holds `w`, and a convex `w` is identified by its own index. */
    ghost predicate Holds(w: Wrapper)
      reads this
    {
      && (if w.objectId == body0Wrap.objectId then body0Wrap == w else body1Wrap == w)
      && (w.shape.Convex? ==> IndexOf(w.objectId) == LastIndex(w.path))
    }

    /** The two slots hold exactly the two operands, whichever way round. */
    ghost predicate Paired(b0: Wrapper, b1: Wrapper)
      reads this
    {
      && b0.objectId != b1.objectId
      && body0Wrap.objectId != body1Wrap.objectId
      && (body0Wrap.objectId == b0.objectId || body0Wrap.objectId == b1.objectId)
      && Holds(b0) && Holds(b1)
    }

    method SetBody0Wrap(w: Wrapper) returns (displaced: Wrapper)
      modifies this`body0Wrap
      ensures body0Wrap == w && displaced == old(body0Wrap)
    {
      displaced := body0Wrap;
      body0Wrap := w;
    }

    method SetBody1Wrap(w: Wrapper) returns (displaced: Wrapper)
      modifies this`body1Wrap
      ensures body1Wrap == w && displaced == old(body1Wrap)
    {
      displaced := body1Wrap;
      body1Wrap := w;
    }

    /** `convex_convex::process_collision`: the manifold names the two objects dispatched; the narrow phase itself is abstract. */
    method ConvexConvex(w0: Wrapper, w1: Wrapper)
      requires Paired(w0, w1) && w0.shape.Convex? && w1.shape.Convex?
      modifies this`manifold, this`log
      ensures manifold == Some((w0.objectId, w1.objectId))
      ensures log == old(log) + [EventOf((w0, w1), body0Wrap.objectId)]
    {
      manifold := Some((w0.objectId, w1.objectId));
      log := log + [Dispatch(w0, w1, (w0.objectId, w1.objectId), body0Wrap, body1Wrap, index0, index1)];
    }
  }

  // ---- the code ----------------------------------------------------------

  /**
   A swapped dispatch (the result's body 0 is not `b0`'s object) always has a
   convex other side; that is what lets the two-compound callback write both
   slots without asking which is which.
   */
  method ProcessCollision(b0: Wrapper, b1: Wrapper, table: DispatchTable, out: ManifoldResult)
    returns (error: Option<UnportedAlgorithm>)
    requires Indexed(b0.shape) && Indexed(b1.shape)
    requires out.Paired(b0, b1)
    requires out.body0Wrap.objectId != b0.objectId ==> b1.shape.Convex?
    modifies out
    ensures error == Collide(b0, b1, table, out.threshold).error
    ensures out.log == old(out.log) + Events(Collide(b0, b1, table, out.threshold).pairs, old(out.body0Wrap.objectId))
    ensures out.body0Wrap == old(out.body0Wrap) && out.body1Wrap == old(out.body1Wrap)
    ensures b0.shape.Convex? ==> out.IndexOf(b0.objectId) == old(out.IndexOf(b0.objectId))
    ensures b1.shape.Convex? ==> out.IndexOf(b1.objectId) == old(out.IndexOf(b1.objectId))
    decreases Size(b0.shape) + Size(b1.shape), 4
  {
    match (b0.shape, b1.shape)
    case (Convex(c0), Convex(c1)) =>
      var algorithm := FindAlgorithm(table, c0.ShapeType(), c1.ShapeType());
      if algorithm != ConvexConvex {
        return Some(UnportedAlgorithm(algorithm, c0.ShapeType(), c1.ShapeType()));
      }
      out.ConvexConvex(b0, b1);
      error := None;
    case (Compound(_, _, _, _), Compound(_, _, _, _)) =>
      error := CompoundCompoundProcessCollision(b0, b1, out);
    case (Compound(_, _, _, _), Convex(_)) =>
      error := CompoundProcessCollision(b0, b1, out);
    case (Convex(_), Compound(_, _, _, _)) =>
      error := CompoundProcessCollision(b1, b0, out);
  }

  method CompoundProcessCollision(c: Wrapper, o: Wrapper, out: ManifoldResult)
    returns (error: Option<UnportedAlgorithm>)
    requires c.shape.Compound? && Indexed(c.shape) && Indexed(o.shape)
    requires out.Paired(c, o)
    requires out.body0Wrap.objectId != c.objectId ==> o.shape.Convex?
    modifies out
    ensures error == CollideChildren(c, o, out.threshold).error
    ensures out.log == old(out.log) + Events(CollideChildren(c, o, out.threshold).pairs, old(out.body0Wrap.objectId))
    ensures out.body0Wrap == old(out.body0Wrap) && out.body1Wrap == old(out.body1Wrap)
    ensures o.shape.Convex? ==> out.IndexOf(o.objectId) == old(out.IndexOf(o.objectId))
    decreases Size(c.shape) + Size(o.shape), 2
  {
    if |c.shape.children| == 0 {
      return None;
    }
    ChildListIndexed(c, o, out.threshold);
    if c.shape.tree.None? {
      error := CollideInIndexOrder(c, o, out);
    } else {
      error := CollideThroughTree(c, o, out);
    }
  }

  /** The arm without a tree: every child in index order, stopping at the first failure. */
  method CollideInIndexOrder(c: Wrapper, o: Wrapper, out: ManifoldResult)
    returns (error: Option<UnportedAlgorithm>)
    requires c.shape.Compound? && c.shape.tree.None? && Indexed(c.shape) && Indexed(o.shape)
    requires Below(ChildList(c, o, out.threshold), |c.shape.children|)
    requires out.Paired(c, o)
    requires out.body0Wrap.objectId != c.objectId ==> o.shape.Convex?
    modifies out
    ensures var run := CollideList(c, o, ChildList(c, o, out.threshold), out.threshold);
            error == run.error && out.log == old(out.log) + Events(run.pairs, old(out.body0Wrap.objectId))
    ensures out.body0Wrap == old(out.body0Wrap) && out.body1Wrap == old(out.body1Wrap)
    ensures o.shape.Convex? ==> out.IndexOf(o.objectId) == old(out.IndexOf(o.objectId))
    decreases Size(c.shape) + Size(o.shape), 1
  {
    hide ChildOverlaps, Indexed, CollideChild, Size;
    ghost var list := ChildList(c, o, out.threshold);
    ghost var first := out.body0Wrap.objectId;
    ghost var done: seq<nat> := [];
    error := None;
    for index := 0 to |c.shape.children|
      invariant done == list[..index] && Below(done, |c.shape.children|)
      invariant out.body0Wrap == old(out.body0Wrap) && out.body1Wrap == old(out.body1Wrap)
      invariant o.shape.Convex? ==> out.IndexOf(o.objectId) == old(out.IndexOf(o.objectId))
      invariant error == None == CollideList(c, o, done, out.threshold).error
      invariant out.log == old(out.log) + Events(CollideList(c, o, done, out.threshold).pairs, first)
    {
      ExtendList(c, o, done, index, out.threshold, first);
      error := ProcessChildShape(c, o, index, out);
      done := done + [index];
      assert done == list[..index + 1];
      if error.Some? {
        StoppedList(c, o, list, index + 1, out.threshold);
        return;
      }
    }
    assert done == list;
  }

  /** A run that has failed is not changed by the children after it. */
  lemma StoppedList(c: Wrapper, o: Wrapper, list: seq<nat>, n: nat, threshold: real)
    requires c.shape.Compound? && Indexed(c.shape) && Indexed(o.shape)
    requires n <= |list| && Below(list, |c.shape.children|)
    requires CollideList(c, o, list[..n], threshold).error.Some?
    ensures CollideList(c, o, list, threshold) == CollideList(c, o, list[..n], threshold)
  {
    assert list == list[..n] + list[n..];
    CollideListConcat(c, o, list[..n], list[n..], threshold);
  }

  /** One more child after a run over `done`. */
  lemma ExtendList(c: Wrapper, o: Wrapper, done: seq<nat>, i: nat, threshold: real, first: nat)
    requires c.shape.Compound? && Indexed(c.shape) && Indexed(o.shape)
    requires Below(done, |c.shape.children|) && i < |c.shape.children|
    ensures Below(done + [i], |c.shape.children|)
    ensures CollideList(c, o, done + [i], threshold)
         == Then(CollideList(c, o, done, threshold), CollideChild(c, o, i, threshold))
    ensures CollideList(c, o, done, threshold).error.None? ==> (
              Events(CollideList(c, o, done + [i], threshold).pairs, first)
              == Events(CollideList(c, o, done, threshold).pairs, first)
                 + Events(CollideChild(c, o, i, threshold).pairs, first))
  {
    var one := [i];
    CollideListConcat(c, o, done, one, threshold);
    assert one[1..] == [];
    ThenAssoc(CollideChild(c, o, i, threshold), NOTHING, NOTHING);
    EventsConcat(CollideList(c, o, done, threshold).pairs, CollideChild(c, o, i, threshold).pairs, first);
  }

  /** What the nodes still on the stack will hand over: the last pushed is visited first. */
  function StackTv(stack: seq<Node>, b: Aabb): seq<nat> {
    if stack == [] then []
    else Tv(stack[|stack| - 1], b) + StackTv(stack[..|stack| - 1], b)
  }

  function StackWork(stack: seq<Node>): nat {
    if stack == [] then 0
    else 1 + 2 * Height(stack[|stack| - 1]) + StackWork(stack[..|stack| - 1])
  }

  lemma StackTvPush(stack: seq<Node>, n: Node, b: Aabb)
    ensures StackTv(stack + [n], b) == Tv(n, b) + StackTv(stack, b)
    ensures StackWork(stack + [n]) == 1 + 2 * Height(n) + StackWork(stack)
  {
    assert (stack + [n])[..|stack|] == stack;
  }

  /** The top of the stack visited: culled, replaced by its two children, or handed over. */
  lemma StackTvStep(stack: seq<Node>, n: Node, b: Aabb)
    ensures !n.volume.Intersect(b) ==> StackTv(stack + [n], b) == StackTv(stack, b)
    ensures n.volume.Intersect(b) && n.Inner? ==> (
              && StackTv(stack + [n], b) == StackTv(stack + [n.left] + [n.right], b)
              && StackWork(stack + [n.left] + [n.right]) < StackWork(stack + [n]))
    ensures n.volume.Intersect(b) && n.Leaf? ==> StackTv(stack + [n], b) == [n.data] + StackTv(stack, b)
    ensures StackWork(stack) < StackWork(stack + [n])
  {
    StackTvPush(stack, n, b);
    if n.Inner? {
      StackTvPush(stack, n.left, b);
      StackTvPush(stack + [n.left], n.right, b);
      assert Tv(n.right, b) + (Tv(n.left, b) + StackTv(stack, b))
          == (Tv(n.right, b) + Tv(n.left, b)) + StackTv(stack, b);
    }
  }

  /** The log grew by exactly the dispatches of `run`. */
  ghost predicate Logged(before: seq<Dispatch>, after: seq<Dispatch>, run: Run, first: nat) {
    after == before + Events(run.pairs, first)
  }

  lemma StackTvStart(c: Wrapper, o: Wrapper, threshold: real)
    requires c.shape.Compound? && c.shape.tree.Some? && c.shape.tree.value.Some?
    ensures StackTv([c.shape.tree.value.value], QueryVolume(c, o, threshold)) == ChildList(c, o, threshold)
  {
    var (r, b) := (c.shape.tree.value.value, QueryVolume(c, o, threshold));
    StackTvPush([], r, b);
    assert [] + [r] == [r];
    assert Tv(r, b) + [] == Tv(r, b);
  }

  lemma LoggedNothing(log: seq<Dispatch>, first: nat)
    ensures Logged(log, log, NOTHING, first)
  {
    assert log + [] == log;
  }

  /**
   The tree arm. The walk cannot stop early: the first failure is held and the
   leaves after it are passed over.
   */
  method CollideThroughTree(c: Wrapper, o: Wrapper, out: ManifoldResult)
    returns (failure: Option<UnportedAlgorithm>)
    requires c.shape.Compound? && c.shape.tree.Some? && Indexed(c.shape) && Indexed(o.shape)
    requires Below(ChildList(c, o, out.threshold), |c.shape.children|)
    requires out.Paired(c, o)
    requires out.body0Wrap.objectId != c.objectId ==> o.shape.Convex?
    modifies out
    ensures failure == CollideList(c, o, ChildList(c, o, out.threshold), out.threshold).error
    ensures Logged(old(out.log), out.log, CollideList(c, o, ChildList(c, o, out.threshold), out.threshold),
                   old(out.body0Wrap.objectId))
    ensures out.body0Wrap == old(out.body0Wrap) && out.body1Wrap == old(out.body1Wrap)
    ensures o.shape.Convex? ==> out.IndexOf(o.objectId) == old(out.IndexOf(o.objectId))
    decreases Size(c.shape) + Size(o.shape), 1
  {
    hide ChildOverlaps, Indexed, QueryVolume, Tv, Height, Logged;
    failure := None;
    var root := c.shape.tree.value;
    LoggedNothing(out.log, out.body0Wrap.objectId);
    if root.None? {
      return;
    }
    var bounds := QueryVolume(c, o, out.threshold);
    var stack := [root.value];
    ghost var log0 := out.log;
    ghost var list := ChildList(c, o, out.threshold);
    ghost var done: seq<nat> := [];
    StackTvStart(c, o, out.threshold);
    while stack != []
      invariant done + StackTv(stack, bounds) == list
      invariant Below(done, |c.shape.children|)
      invariant out.Paired(c, o)
      invariant out.body0Wrap == old(out.body0Wrap) && out.body1Wrap == old(out.body1Wrap)
      invariant o.shape.Convex? ==> out.IndexOf(o.objectId) == old(out.IndexOf(o.objectId))
      invariant failure == CollideList(c, o, done, out.threshold).error
      invariant Logged(log0, out.log, CollideList(c, o, done, out.threshold), old(out.body0Wrap.objectId))
      decreases StackWork(stack)
    {
      var n: Node := stack[|stack| - 1];
      ghost var whole := stack;
      stack := stack[..|stack| - 1];
      assert whole == stack + [n];
      StackTvStep(stack, n, bounds);
      if n.volume.Intersect(bounds) {
        if n.Inner? {
          stack := stack + [n.left] + [n.right];
        } else {
          assert list[|done|] == n.data;
          failure := VisitLeaf(c, o, n.data, out, failure, done, log0);
          done := done + [n.data];
        }
      }
    }
    assert done + [] == done;
  }

  /** One leaf handed to the callback, which does nothing once a failure is held. */
  method VisitLeaf(c: Wrapper, o: Wrapper, index: nat, out: ManifoldResult, held: Option<UnportedAlgorithm>,
                   ghost done: seq<nat>, ghost log0: seq<Dispatch>)
    returns (failure: Option<UnportedAlgorithm>)
    requires c.shape.Compound? && Indexed(c.shape) && Indexed(o.shape)
    requires Below(done, |c.shape.children|) && index < |c.shape.children|
    requires out.Paired(c, o)
    requires out.body0Wrap.objectId != c.objectId ==> o.shape.Convex?
    requires held == CollideList(c, o, done, out.threshold).error
    requires Logged(log0, out.log, CollideList(c, o, done, out.threshold), out.body0Wrap.objectId)
    modifies out
    ensures Below(done + [index], |c.shape.children|)
    ensures failure == CollideList(c, o, done + [index], out.threshold).error
    ensures Logged(log0, out.log, CollideList(c, o, done + [index], out.threshold), old(out.body0Wrap.objectId))
    ensures out.body0Wrap == old(out.body0Wrap) && out.body1Wrap == old(out.body1Wrap)
    ensures o.shape.Convex? ==> out.IndexOf(o.objectId) == old(out.IndexOf(o.objectId))
    decreases Size(c.shape) + Size(o.shape), 0, 1
  {
    hide ChildOverlaps, Indexed;
    ExtendList(c, o, done, index, out.threshold, out.body0Wrap.objectId);
    failure := held;
    if failure.None? {
      failure := ProcessChildShape(c, o, index, out);
    }
  }

  method ProcessChildShape(c: Wrapper, o: Wrapper, index: nat, out: ManifoldResult)
    returns (outcome: Option<UnportedAlgorithm>)
    requires c.shape.Compound? && index < |c.shape.children| && Indexed(c.shape) && Indexed(o.shape)
    requires out.Paired(c, o)
    requires out.body0Wrap.objectId != c.objectId ==> o.shape.Convex?
    modifies out
    ensures outcome == CollideChild(c, o, index, out.threshold).error
    ensures out.log == old(out.log) + Events(CollideChild(c, o, index, out.threshold).pairs, old(out.body0Wrap.objectId))
    ensures out.body0Wrap == old(out.body0Wrap) && out.body1Wrap == old(out.body1Wrap)
    ensures o.shape.Convex? ==> out.IndexOf(o.objectId) == old(out.IndexOf(o.objectId))
    decreases Size(c.shape) + Size(o.shape), 0, 0
  {
    SizeOfChild(c.shape.children, index);
    var child := c.shape.children[index];
    var newChildWorldTrans := c.worldTransform.Times(child.transform);
    var box0 := child.shape.GetAabb(newChildWorldTrans).Expand(out.threshold);
    var box1 := o.shape.GetAabb(o.worldTransform);
    if !box0.Intersect(box1) {
      return None;
    }
    var compoundWrap := c.Child(index);
    var compoundIsBody0 := out.body0Wrap.objectId == c.objectId;
    var displaced: Wrapper;
    if compoundIsBody0 {
      out.index0 := index;
      displaced := out.SetBody0Wrap(compoundWrap);
    } else {
      out.index1 := index;
      displaced := out.SetBody1Wrap(compoundWrap);
    }
    outcome := ProcessCollision(compoundWrap, o, ChildTable(out.threshold), out);
    if compoundIsBody0 {
      var _ := out.SetBody0Wrap(displaced);
    } else {
      var _ := out.SetBody1Wrap(displaced);
    }
  }

  method CompoundCompoundProcessCollision(b0: Wrapper, b1: Wrapper, out: ManifoldResult)
    returns (error: Option<UnportedAlgorithm>)
    requires b0.shape.Compound? && b1.shape.Compound? && Indexed(b0.shape) && Indexed(b1.shape)
    requires out.Paired(b0, b1) && out.body0Wrap.objectId == b0.objectId
    modifies out
    ensures error == Collide(b0, b1, ClosestPoints, out.threshold).error
    ensures out.log == old(out.log) + Events(Collide(b0, b1, ClosestPoints, out.threshold).pairs, old(out.body0Wrap.objectId))
    ensures out.body0Wrap == old(out.body0Wrap) && out.body1Wrap == old(out.body1Wrap)
    decreases Size(b0.shape) + Size(b1.shape), 3
  {
    if b0.shape.tree.None? || b1.shape.tree.None? {
      error := CompoundProcessCollision(b0, b1, out);
      return;
    }
    PairListIndexed(b0, b1, out.threshold);
    error := MyCollideTt(b0, b1, out);
  }

  lemma ExtendPairs(b0: Wrapper, b1: Wrapper, done: seq<(nat, nat)>, i: nat, j: nat, threshold: real, first: nat)
    requires b0.shape.Compound? && b1.shape.Compound? && Indexed(b0.shape) && Indexed(b1.shape)
    requires PairsBelow(done, |b0.shape.children|, |b1.shape.children|)
    requires i < |b0.shape.children| && j < |b1.shape.children|
    ensures PairsBelow(done + [(i, j)], |b0.shape.children|, |b1.shape.children|)
    ensures CollidePairs(b0, b1, done + [(i, j)], threshold)
         == Then(CollidePairs(b0, b1, done, threshold), CollidePair(b0, b1, i, j, threshold))
    ensures CollidePairs(b0, b1, done, threshold).error.None? ==> (
              Events(CollidePairs(b0, b1, done + [(i, j)], threshold).pairs, first)
              == Events(CollidePairs(b0, b1, done, threshold).pairs, first)
                 + Events(CollidePair(b0, b1, i, j, threshold).pairs, first))
  {
    var one := [(i, j)];
    CollidePairsConcat(b0, b1, done, one, threshold);
    assert one[1..] == [];
    ThenAssoc(CollidePair(b0, b1, i, j, threshold), NOTHING, NOTHING);
    EventsConcat(CollidePairs(b0, b1, done, threshold).pairs, CollidePair(b0, b1, i, j, threshold).pairs, first);
  }

  function StackTt(stack: seq<(Node, Node)>, xform: Transform, threshold: real): seq<(nat, nat)> {
    if stack == [] then []
    else Tt(stack[|stack| - 1].0, stack[|stack| - 1].1, xform, threshold)
         + StackTt(stack[..|stack| - 1], xform, threshold)
  }

  /** The number of steps a stack of pairs can still take. */
  function PairWork(stack: seq<(Node, Node)>): nat {
    if stack == [] then 0
    else NodePairs(stack[|stack| - 1].0, stack[|stack| - 1].1) + PairWork(stack[..|stack| - 1])
  }

  function NodePairs(a: Node, b: Node): nat
    decreases Height(a) + Height(b)
  {
    match (a, b)
    case (Inner(_, a0, a1), Inner(_, b0, b1)) =>
      1 + NodePairs(a0, b0) + NodePairs(a1, b0) + NodePairs(a0, b1) + NodePairs(a1, b1)
    case (Inner(_, a0, a1), Leaf(_, _)) => 1 + NodePairs(a0, b) + NodePairs(a1, b)
    case (Leaf(_, _), Inner(_, b0, b1)) => 1 + NodePairs(a, b0) + NodePairs(a, b1)
    case (Leaf(_, _), Leaf(_, _)) => 1
  }

  lemma StackTtPush(stack: seq<(Node, Node)>, a: Node, b: Node, xform: Transform, threshold: real)
    ensures StackTt(stack + [(a, b)], xform, threshold)
         == Tt(a, b, xform, threshold) + StackTt(stack, xform, threshold)
    ensures PairWork(stack + [(a, b)]) == NodePairs(a, b) + PairWork(stack)
  {
    assert (stack + [(a, b)])[..|stack|] == stack;
  }

  /** What the walk pushes for a pair that is not two leaves. */
  function Pushed(a: Node, b: Node): seq<(Node, Node)> {
    match (a, b)
    case (Inner(_, a0, a1), Inner(_, b0, b1)) => [(a0, b0), (a1, b0), (a0, b1), (a1, b1)]
    case (Inner(_, a0, a1), Leaf(_, _)) => [(a0, b), (a1, b)]
    case (Leaf(_, _), Inner(_, b0, b1)) => [(a, b0), (a, b1)]
    case (Leaf(_, _), Leaf(_, _)) => []
  }

  lemma {:induction false} StackTtConcat(s: seq<(Node, Node)>, t: seq<(Node, Node)>, xform: Transform, threshold: real)
    ensures StackTt(s + t, xform, threshold) == StackTt(t, xform, threshold) + StackTt(s, xform, threshold)
    ensures PairWork(s + t) == PairWork(t) + PairWork(s)
  {
    if t == [] {
      assert s + t == s;
    } else {
      var n := |t| - 1;
      assert s + t == (s + t[..n]) + [t[n]];
      assert t == t[..n] + [t[n]];
      StackTtPush(s + t[..n], t[n].0, t[n].1, xform, threshold);
      StackTtPush(t[..n], t[n].0, t[n].1, xform, threshold);
      StackTtConcat(s, t[..n], xform, threshold);
    }
  }

  lemma StackTtTwo(a: Node, b: Node, c: Node, d: Node, xform: Transform, threshold: real)
    ensures StackTt([(a, b), (c, d)], xform, threshold) == Tt(c, d, xform, threshold) + Tt(a, b, xform, threshold)
    ensures PairWork([(a, b), (c, d)]) == NodePairs(a, b) + NodePairs(c, d)
  {
    hide MyIntersect;
    StackTtPush([], a, b, xform, threshold);
    StackTtPush([(a, b)], c, d, xform, threshold);
    assert [] + [(a, b)] == [(a, b)] && [(a, b)] + [(c, d)] == [(a, b), (c, d)];
    assert Tt(a, b, xform, threshold) + [] == Tt(a, b, xform, threshold);
  }

  /** What is pushed for a pair hands over what the pair would have. */
  lemma PushedIsPair(a: Node, b: Node, xform: Transform, threshold: real)
    requires (a.Inner? || b.Inner?) && MyIntersect(a.volume, b.volume, xform, threshold)
    ensures StackTt(Pushed(a, b), xform, threshold) == Tt(a, b, xform, threshold)
    ensures PairWork(Pushed(a, b)) < NodePairs(a, b)
  {
    hide MyIntersect, StackTt, PairWork;
    if a.Inner? && b.Inner? {
      var s, t := [(a.left, b.left), (a.right, b.left)], [(a.left, b.right), (a.right, b.right)];
      StackTtTwo(a.left, b.left, a.right, b.left, xform, threshold);
      StackTtTwo(a.left, b.right, a.right, b.right, xform, threshold);
      StackTtConcat(s, t, xform, threshold);
      assert Pushed(a, b) == s + t;
    } else if a.Inner? {
      StackTtTwo(a.left, b, a.right, b, xform, threshold);
    } else {
      StackTtTwo(a, b.left, a, b.right, xform, threshold);
    }
  }

  /** The top of the stack visited: culled, replaced, or handed over. */
  lemma StackTtStep(stack: seq<(Node, Node)>, a: Node, b: Node, xform: Transform, threshold: real)
    ensures !MyIntersect(a.volume, b.volume, xform, threshold)
            ==> StackTt(stack + [(a, b)], xform, threshold) == StackTt(stack, xform, threshold)
    ensures MyIntersect(a.volume, b.volume, xform, threshold) && (a.Inner? || b.Inner?) ==> (
              && StackTt(stack + [(a, b)], xform, threshold) == StackTt(stack + Pushed(a, b), xform, threshold)
              && PairWork(stack + Pushed(a, b)) < PairWork(stack + [(a, b)]))
    ensures MyIntersect(a.volume, b.volume, xform, threshold) && a.Leaf? && b.Leaf?
            ==> StackTt(stack + [(a, b)], xform, threshold) == [(a.data, b.data)] + StackTt(stack, xform, threshold)
    ensures PairWork(stack) < PairWork(stack + [(a, b)])
  {
    hide MyIntersect;
    StackTtPush(stack, a, b, xform, threshold);
    if (a.Inner? || b.Inner?) && MyIntersect(a.volume, b.volume, xform, threshold) {
      PushedIsPair(a, b, xform, threshold);
      StackTtConcat(stack, Pushed(a, b), xform, threshold);
    }
  }

  lemma StackTtStart(b0: Wrapper, b1: Wrapper, threshold: real)
    requires b0.shape.Compound? && b1.shape.Compound? && b0.shape.tree.Some? && b1.shape.tree.Some?
    requires b0.shape.tree.value.Some? && b1.shape.tree.value.Some?
    ensures var (r0, r1) := (b0.shape.tree.value.value, b1.shape.tree.value.value);
            StackTt([(r0, r1)], Relative(b0, b1), threshold) == PairList(b0, b1, threshold)
  {
    var (r0, r1) := (b0.shape.tree.value.value, b1.shape.tree.value.value);
    StackTtPush([], r0, r1, Relative(b0, b1), threshold);
    assert [] + [(r0, r1)] == [(r0, r1)];
    assert Tt(r0, r1, Relative(b0, b1), threshold) + [] == Tt(r0, r1, Relative(b0, b1), threshold);
  }

  /** The two-tree walk over an explicit stack; the callback's first failure ends it. */
  method MyCollideTt(b0: Wrapper, b1: Wrapper, out: ManifoldResult)
    returns (error: Option<UnportedAlgorithm>)
    requires b0.shape.Compound? && b1.shape.Compound? && Indexed(b0.shape) && Indexed(b1.shape)
    requires b0.shape.tree.Some? && b1.shape.tree.Some?
    requires PairsBelow(PairList(b0, b1, out.threshold), |b0.shape.children|, |b1.shape.children|)
    requires out.Paired(b0, b1) && out.body0Wrap.objectId == b0.objectId
    modifies out
    ensures error == CollidePairs(b0, b1, PairList(b0, b1, out.threshold), out.threshold).error
    ensures Logged(old(out.log), out.log, CollidePairs(b0, b1, PairList(b0, b1, out.threshold), out.threshold),
                   old(out.body0Wrap.objectId))
    ensures out.body0Wrap == old(out.body0Wrap) && out.body1Wrap == old(out.body1Wrap)
    decreases Size(b0.shape) + Size(b1.shape), 2
  {
    hide ChildOverlaps, Indexed, MyIntersect, Tt, NodePairs, Pushed, Logged, Relative, CollidePair, Size;
    error := None;
    var root0, root1 := b0.shape.tree.value, b1.shape.tree.value;
    LoggedNothing(out.log, out.body0Wrap.objectId);
    if root0.None? || root1.None? {
      return;
    }
    var xform := Relative(b0, b1);
    var stack := [(root0.value, root1.value)];
    ghost var log0 := out.log;
    ghost var list := PairList(b0, b1, out.threshold);
    ghost var done: seq<(nat, nat)> := [];
    StackTtStart(b0, b1, out.threshold);
    while stack != []
      invariant done + StackTt(stack, xform, out.threshold) == list
      invariant PairsBelow(done, |b0.shape.children|, |b1.shape.children|)
      invariant out.Paired(b0, b1)
      invariant out.body0Wrap == old(out.body0Wrap) && out.body1Wrap == old(out.body1Wrap)
      invariant error == None == CollidePairs(b0, b1, done, out.threshold).error
      invariant Logged(log0, out.log, CollidePairs(b0, b1, done, out.threshold), old(out.body0Wrap.objectId))
      decreases PairWork(stack)
    {
      var a: Node, b: Node := stack[|stack| - 1].0, stack[|stack| - 1].1;
      ghost var whole := stack;
      stack := stack[..|stack| - 1];
      assert whole == stack + [(a, b)];
      StackTtStep(stack, a, b, xform, out.threshold);
      if MyIntersect(a.volume, b.volume, xform, out.threshold) {
        if a.Inner? || b.Inner? {
          stack := stack + Pushed(a, b);
        } else {
          assert list[|done|] == (a.data, b.data);
          error := VisitPair(b0, b1, a.data, b.data, out, done, log0);
          done := done + [(a.data, b.data)];
          if error.Some? {
            assert list[..|done|] == done;
            StoppedPairs(b0, b1, list, |done|, out.threshold);
            return;
          }
        }
      }
    }
    assert done + [] == done;
  }

  /** A run that has failed is not changed by the pairs after it. */
  lemma StoppedPairs(b0: Wrapper, b1: Wrapper, list: seq<(nat, nat)>, n: nat, threshold: real)
    requires b0.shape.Compound? && b1.shape.Compound? && Indexed(b0.shape) && Indexed(b1.shape)
    requires n <= |list| && PairsBelow(list, |b0.shape.children|, |b1.shape.children|)
    requires CollidePairs(b0, b1, list[..n], threshold).error.Some?
    ensures CollidePairs(b0, b1, list, threshold) == CollidePairs(b0, b1, list[..n], threshold)
  {
    assert list == list[..n] + list[n..];
    CollidePairsConcat(b0, b1, list[..n], list[n..], threshold);
  }

  method VisitPair(b0: Wrapper, b1: Wrapper, i: nat, j: nat, out: ManifoldResult,
                   ghost done: seq<(nat, nat)>, ghost log0: seq<Dispatch>)
    returns (error: Option<UnportedAlgorithm>)
    requires b0.shape.Compound? && b1.shape.Compound? && Indexed(b0.shape) && Indexed(b1.shape)
    requires i < |b0.shape.children| && j < |b1.shape.children|
    requires PairsBelow(done, |b0.shape.children|, |b1.shape.children|)
    requires out.Paired(b0, b1) && out.body0Wrap.objectId == b0.objectId
    requires CollidePairs(b0, b1, done, out.threshold).error == None
    requires Logged(log0, out.log, CollidePairs(b0, b1, done, out.threshold), out.body0Wrap.objectId)
    modifies out
    ensures PairsBelow(done + [(i, j)], |b0.shape.children|, |b1.shape.children|)
    ensures error == CollidePairs(b0, b1, done + [(i, j)], out.threshold).error
    ensures Logged(log0, out.log, CollidePairs(b0, b1, done + [(i, j)], out.threshold), old(out.body0Wrap.objectId))
    ensures out.body0Wrap == old(out.body0Wrap) && out.body1Wrap == old(out.body1Wrap)
    decreases Size(b0.shape) + Size(b1.shape), 0, 1
  {
    hide ChildOverlaps, Indexed, CollidePairs, CollidePair, PairsBelow, Events;
    ExtendPairs(b0, b1, done, i, j, out.threshold, out.body0Wrap.objectId);
    error := ProcessLeafPair(b0, b1, i, j, out);
  }

  /** `CompoundCompoundLeafCallback::process`: both slots and both identifiers, unconditionally. */
  method ProcessLeafPair(b0: Wrapper, b1: Wrapper, i: nat, j: nat, out: ManifoldResult)
    returns (outcome: Option<UnportedAlgorithm>)
    requires b0.shape.Compound? && b1.shape.Compound? && Indexed(b0.shape) && Indexed(b1.shape)
    requires i < |b0.shape.children| && j < |b1.shape.children|
    requires out.Paired(b0, b1) && out.body0Wrap.objectId == b0.objectId
    modifies out
    ensures outcome == CollidePair(b0, b1, i, j, out.threshold).error
    ensures out.log == old(out.log) + Events(CollidePair(b0, b1, i, j, out.threshold).pairs, old(out.body0Wrap.objectId))
    ensures out.body0Wrap == old(out.body0Wrap) && out.body1Wrap == old(out.body1Wrap)
    decreases Size(b0.shape) + Size(b1.shape), 0, 0
  {
    SizeOfChild(b0.shape.children, i);
    SizeOfChild(b1.shape.children, j);
    var wrap0, wrap1 := b0.Child(i), b1.Child(j);
    var box0 := wrap0.shape.GetAabb(wrap0.worldTransform).Expand(out.threshold);
    var box1 := wrap1.shape.GetAabb(wrap1.worldTransform);
    if !box0.Intersect(box1) {
      return None;
    }
    var displaced0 := out.SetBody0Wrap(wrap0);
    var displaced1 := out.SetBody1Wrap(wrap1);
    out.index0 := i;
    out.index1 := j;
    outcome := ProcessCollision(wrap0, wrap1, ChildTable(out.threshold), out);
    var _ := out.SetBody0Wrap(displaced0);
    var _ := out.SetBody1Wrap(displaced1);
  }
}
