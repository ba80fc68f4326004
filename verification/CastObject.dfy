/**
 Objects that sweep (crates/cspace-bullet-cast/src/cast_object.rs): the shape
 swap that makes one, and re-aiming its sweep at a new pair of poses.
 */
module CastObject {
  import opened LinearMath
  import opened Wrappers
  import opened Shapes
  import opened Dbvt
  import opened Compound
  import opened CompoundAlgorithm
  import opened CompoundProperties
  import opened ContactTestData
  import opened CollisionObject
  import opened CastHullShape

  datatype CastError = AlreadyCast | CompoundTooDeep

  /** The inner shapes of a cast object's swept children, in traversal order. */
  datatype CastHulls = Single(inner: ConvexShape) | Children(children: seq<ChildHulls>)
  datatype ChildHulls = Hull(inner: ConvexShape) | Grandchildren(inners: seq<ConvexShape>)

  const BULLET_MARGIN := 0.0

  predicate IsCast(s: Shape) { s.ShapeType() == CUSTOM_CONVEX_SHAPE }

  function SweptShape(inner: ConvexShape, delta: Transform): Shape { Convex(CastHull(inner, delta)) }

  // ---- what can be made to sweep -----------------------------------------

  /** Why a grandchild cannot be swept. */
  function LeafError(s: Shape): Option<CastError> {
    if s.Compound? then Some(CompoundTooDeep) else if IsCast(s) then Some(AlreadyCast) else None
  }

  /** The first grandchild that cannot be swept. */
  function SecondError(cs: seq<Child>): Option<CastError> {
    if cs == [] then None
    else
      var e := SecondError(cs[..|cs| - 1]);
      if e.Some? then e else LeafError(cs[|cs| - 1].shape)
  }

  function ChildError(s: Shape): Option<CastError> {
    match s
    case Convex(_) => LeafError(s)
    case Compound(cs, _, _, _) => SecondError(cs)
  }

  function ChildrenError(cs: seq<Child>): Option<CastError> {
    if cs == [] then None
    else
      var e := ChildrenError(cs[..|cs| - 1]);
      if e.Some? then e else ChildError(cs[|cs| - 1].shape)
  }

  function ShapeError(s: Shape): Option<CastError> {
    match s
    case Convex(_) => LeafError(s)
    case Compound(cs, _, _, _) => ChildrenError(cs)
  }

  /** At most two levels of compounds, and no leaf that sweeps already. */
  predicate Sweepable(s: Shape) {
    match s
    case Convex(_) => !IsCast(s)
    case Compound(cs, _, _, _) => forall i :: 0 <= i < |cs| ==> ChildSweepable(cs[i].shape)
  }

  predicate ChildSweepable(s: Shape) {
    match s
    case Convex(_) => !IsCast(s)
    case Compound(cs, _, _, _) => forall j :: 0 <= j < |cs| ==> cs[j].shape.Convex? && !IsCast(cs[j].shape)
  }

  lemma {:induction false} SecondErrorExact(cs: seq<Child>)
    ensures SecondError(cs).None? <==> forall j :: 0 <= j < |cs| ==> cs[j].shape.Convex? && !IsCast(cs[j].shape)
    decreases |cs|
  {
    if cs != [] {
      var t := cs[..|cs| - 1];
      SecondErrorExact(t);
      assert forall j :: 0 <= j < |t| ==> t[j] == cs[j];
    }
  }

  lemma {:induction false} ChildrenErrorExact(cs: seq<Child>)
    ensures ChildrenError(cs).None? <==> forall i :: 0 <= i < |cs| ==> ChildSweepable(cs[i].shape)
    decreases |cs|
  {
    if cs != [] {
      var t := cs[..|cs| - 1];
      ChildrenErrorExact(t);
      assert forall j :: 0 <= j < |t| ==> t[j] == cs[j];
      if cs[|cs| - 1].shape.Compound? { SecondErrorExact(cs[|cs| - 1].shape.children); }
    }
  }

  /** Exactly the sweepable shapes are accepted. */
  lemma ErrorExact(s: Shape)
    ensures ShapeError(s).None? <==> Sweepable(s)
  {
    if s.Compound? { ChildrenErrorExact(s.children); }
  }

  // ---- the swept twin ----------------------------------------------------

  /** A child with its convex shape swept by the identity. */
  function SweepLeaf(c: Child): Child
    requires c.shape.Convex?
  {
    Child(c.transform, SweptShape(c.shape.convex, IDENTITY))
  }

  function SweepSecond(cs: seq<Child>): (r: seq<Child>)
    requires forall j :: 0 <= j < |cs| ==> cs[j].shape.Convex?
  {
    seq(|cs|, j requires 0 <= j < |cs| => SweepLeaf(cs[j]))
  }

  function InnersOf(cs: seq<Child>): seq<ConvexShape>
    requires forall j :: 0 <= j < |cs| ==> cs[j].shape.Convex?
  {
    seq(|cs|, j requires 0 <= j < |cs| => cs[j].shape.convex)
  }

  function SweepChild(c: Child): Child
    requires ChildSweepable(c.shape)
  {
    match c.shape
    case Convex(_) => SweepLeaf(c)
    case Compound(cs, _, _, _) => Child(c.transform, WithMargin(Built(SweepSecond(cs)), BULLET_MARGIN))
  }

  function ChildHullsOf(s: Shape): ChildHulls
    requires ChildSweepable(s)
  {
    match s
    case Convex(c) => Hull(c)
    case Compound(cs, _, _, _) => Grandchildren(InnersOf(cs))
  }

  function SweepShape(s: Shape): Shape
    requires Sweepable(s)
  {
    match s
    case Convex(c) => SweptShape(c, IDENTITY)
    case Compound(cs, _, _, _) =>
      WithMargin(Built(seq(|cs|, i requires 0 <= i < |cs| => SweepChild(cs[i]))), BULLET_MARGIN)
  }

  function HullsOf(s: Shape): CastHulls
    requires Sweepable(s)
  {
    match s
    case Convex(c) => Single(c)
    case Compound(cs, _, _, _) => Children(seq(|cs|, i requires 0 <= i < |cs| => ChildHullsOf(cs[i].shape)))
  }

  lemma BuiltNothing()
    ensures Built([]) == EmptyCompound(true)
  {}

  lemma BuiltAppend(cs: seq<Child>, c: Child)
    ensures Built(cs + [c]) == WithChild(Built(cs), c.transform, c.shape)
  {
    assert (cs + [c])[..|cs|] == cs;
  }

  /** One compound child rebuilt over swept grandchildren. */
  method BuildSecond(cs: seq<Child>) returns (r: Result<(Shape, seq<ConvexShape>), CastError>)
    ensures SecondError(cs).Some? ==> r == Err(SecondError(cs).value)
    ensures SecondError(cs).None? ==>
      && (forall j :: 0 <= j < |cs| ==> cs[j].shape.Convex?)
      && r == Ok((WithMargin(Built(SweepSecond(cs)), BULLET_MARGIN), InnersOf(cs)))
  {
    hide WithChild, Built;
    BuiltNothing();
    var second := new CompoundShape(true);
    var grandchildren: seq<ConvexShape> := [];
    for j := 0 to |cs|
      invariant SecondError(cs[..j]).None?
      invariant forall k :: 0 <= k < j ==> cs[k].shape.Convex?
      invariant second.Value() == Built(SweepSecond(cs[..j]))
      invariant grandchildren == InnersOf(cs[..j])
      invariant fresh(second)
    {
      assert cs[..j + 1][..j] == cs[..j];
      if cs[j].shape.Compound? {
        FirstSecondError(cs, j);
        return Err(CompoundTooDeep);
      }
      if IsCast(cs[j].shape) {
        FirstSecondError(cs, j);
        return Err(AlreadyCast);
      }
      var convex := cs[j].shape.convex;
      BuiltAppend(SweepSecond(cs[..j]), SweepLeaf(cs[j]));
      assert SweepSecond(cs[..j + 1]) == SweepSecond(cs[..j]) + [SweepLeaf(cs[j])];
      second.AddChildShape(cs[j].transform, SweptShape(convex, IDENTITY));
      grandchildren := grandchildren + [convex];
    }
    assert cs[..|cs|] == cs;
    second.SetMargin(BULLET_MARGIN);
    r := Ok((second.Value(), grandchildren));
  }

  lemma {:induction false} FirstSecondError(cs: seq<Child>, j: nat)
    requires j < |cs| && SecondError(cs[..j]).None? && LeafError(cs[j].shape).Some?
    ensures SecondError(cs) == LeafError(cs[j].shape)
    decreases |cs| - j
  {
    var n := |cs| - 1;
    if j < n {
      assert cs[..n][..j] == cs[..j];
      FirstSecondError(cs[..n], j);
    }
  }

  lemma {:induction false} FirstChildrenError(cs: seq<Child>, i: nat)
    requires i < |cs| && ChildrenError(cs[..i]).None? && ChildError(cs[i].shape).Some?
    ensures ChildrenError(cs) == ChildError(cs[i].shape)
    decreases |cs| - i
  {
    var n := |cs| - 1;
    if i < n {
      assert cs[..n][..i] == cs[..i];
      FirstChildrenError(cs[..n], i);
    }
  }

  /** The shape swap: the first obstacle in traversal order is reported, and otherwise the whole swept twin is built. */
  method Build(shape: Shape) returns (r: Result<(Shape, CastHulls), CastError>)
    ensures ShapeError(shape).Some? ==> r == Err(ShapeError(shape).value)
    ensures Sweepable(shape) ==> r == Ok((SweepShape(shape), HullsOf(shape)))
  {
    ErrorExact(shape);
    match shape
    case Convex(convex) =>
      if IsCast(shape) {
        return Err(AlreadyCast);
      }
      r := Ok((SweptShape(convex, IDENTITY), Single(convex)));
    case Compound(cs, _, _, _) =>
      r := BuildChildren(cs);
      if Sweepable(shape) {
        assert SweepAll(cs) == seq(|cs|, i requires 0 <= i < |cs| => SweepChild(cs[i]));
        assert AllHullsOf(cs) == seq(|cs|, i requires 0 <= i < |cs| => ChildHullsOf(cs[i].shape));
      }
  }

  function SweepAll(cs: seq<Child>): seq<Child>
    requires forall i :: 0 <= i < |cs| ==> ChildSweepable(cs[i].shape)
  {
    seq(|cs|, i requires 0 <= i < |cs| => SweepChild(cs[i]))
  }

  function AllHullsOf(cs: seq<Child>): seq<ChildHulls>
    requires forall i :: 0 <= i < |cs| ==> ChildSweepable(cs[i].shape)
  {
    seq(|cs|, i requires 0 <= i < |cs| => ChildHullsOf(cs[i].shape))
  }

  /** One child of the compound: its convex shape swept, or its own children. */
  method BuildChild(shape: Shape, t: Transform) returns (r: Result<(Shape, ChildHulls), CastError>)
    ensures ChildError(shape).Some? ==> r == Err(ChildError(shape).value)
    ensures ChildError(shape).None? ==>
      && ChildSweepable(shape)
      && r == Ok((SweepChild(Child(t, shape)).shape, ChildHullsOf(shape)))
  {
    match shape
    case Convex(convex) =>
      if IsCast(shape) {
        return Err(AlreadyCast);
      }
      r := Ok((SweptShape(convex, IDENTITY), Hull(convex)));
    case Compound(second, _, _, _) =>
      SecondErrorExact(second);
      var built := BuildSecond(second);
      match built
      case Err(e) => r := Err(e);
      case Ok(v) => r := Ok((v.0, Grandchildren(v.1)));
  }

  method BuildChildren(cs: seq<Child>) returns (r: Result<(Shape, CastHulls), CastError>)
    ensures ChildrenError(cs).Some? ==> r == Err(ChildrenError(cs).value)
    ensures ChildrenError(cs).None? ==>
      && (forall i :: 0 <= i < |cs| ==> ChildSweepable(cs[i].shape))
      && r == Ok((WithMargin(Built(SweepAll(cs)), BULLET_MARGIN), Children(AllHullsOf(cs))))
  {
    hide WithChild, Built, ChildError, ChildSweepable, SweepChild, ChildHullsOf;
    BuiltNothing();
    var compound := new CompoundShape(true);
    var children: seq<ChildHulls> := [];
    for i := 0 to |cs|
      invariant ChildrenError(cs[..i]).None?
      invariant forall k :: 0 <= k < i ==> ChildSweepable(cs[k].shape)
      invariant compound.Value() == Built(SweepAll(cs[..i]))
      invariant children == AllHullsOf(cs[..i])
      invariant fresh(compound)
    {
      assert cs[..i + 1][..i] == cs[..i];
      var built := BuildChild(cs[i].shape, cs[i].transform);
      if built.Err? {
        FirstChildrenError(cs, i);
        return Err(built.error);
      }
      SweepChildPlaced(cs[i]);
      BuiltAppend(SweepAll(cs[..i]), SweepChild(cs[i]));
      assert SweepAll(cs[..i + 1]) == SweepAll(cs[..i]) + [SweepChild(cs[i])];
      compound.AddChildShape(cs[i].transform, built.value.0);
      children := children + [built.value.1];
    }
    assert cs[..|cs|] == cs;
    compound.SetMargin(BULLET_MARGIN);
    r := Ok((compound.Value(), Children(children)));
  }

  lemma SweepChildPlaced(c: Child)
    requires ChildSweepable(c.shape)
    ensures SweepChild(c).transform == c.transform && Child(c.transform, c.shape) == c
  {}

  // ---- the swept twin sweeps, and is in sync -----------------------------

  lemma SweepChildKeeps(c: Child)
    requires ChildSweepable(c.shape) && Sound(c.shape) && c.transform.Rigid()
    ensures InSync(SweepChild(c).shape) && AllHulls(SweepChild(c).shape) && AllConvexTypes(SweepChild(c).shape)
  {
    hide AabbSound;
    IdentityRigid();
    match c.shape
    case Convex(inner) =>
      CastHullSound(inner, IDENTITY);
    case Compound(cs, _, _, _) =>
      var t := SweepSecond(cs);
      forall j | 0 <= j < |t| ensures InSync(t[j].shape) && t[j].transform.Rigid() {
        CastHullSound(cs[j].shape.convex, IDENTITY);
      }
      BuiltInSync(t);
      WithMarginInSync(Built(t), BULLET_MARGIN);
  }

  /** Every leaf of the twin is a swept hull, and its boxes and trees are in sync whatever the original's were. */
  lemma SweepShapeKeeps(s: Shape)
    requires Sweepable(s) && Sound(s)
    ensures InSync(SweepShape(s)) && AllHulls(SweepShape(s)) && AllConvexTypes(SweepShape(s))
    ensures Matches(SweepShape(s), HullsOf(s))
  {
    hide AabbSound;
    IdentityRigid();
    match s
    case Convex(inner) => CastHullSound(inner, IDENTITY);
    case Compound(cs, _, _, _) =>
      var t := SweepAll(cs);
      assert t == seq(|cs|, i requires 0 <= i < |cs| => SweepChild(cs[i]));
      forall i | 0 <= i < |t|
        ensures InSync(t[i].shape) && t[i].transform.Rigid() && AllHulls(t[i].shape) && AllConvexTypes(t[i].shape)
      {
        SweepChildKeeps(cs[i]);
      }
      BuiltInSync(t);
      WithMarginInSync(Built(t), BULLET_MARGIN);
  }

  // ---- re-posing ---------------------------------------------------------

  /** The handles fit the shape: one per child, of the child's kind. */
  predicate Matches(s: Shape, h: CastHulls) {
    match h
    case Single(_) => s.Convex?
    case Children(hs) =>
      s.Compound? && |hs| == |s.children|
      && forall i :: 0 <= i < |hs| ==> ChildMatches(s.children[i].shape, hs[i])
  }

  predicate ChildMatches(s: Shape, h: ChildHulls) {
    match h
    case Hull(_) => s.Convex?
    case Grandchildren(inners) =>
      s.Compound? && |inners| == |s.children| && forall j :: 0 <= j < |inners| ==> s.children[j].shape.Convex?
  }

  /** The delta of a child placed at `local`, in its own first pose's frame. */
  function Delta(local: Transform, tf1: Transform, tf2: Transform): Transform {
    tf1.Times(local).InverseTimes(tf2.Times(local))
  }

  function Recalculated(s: Shape): (r: Shape)
    requires s.Compound?
    ensures r.Compound? && r.children == s.children
  {
    s.(localAabb := Union(s.children))
  }

  /** Child `i` becomes `c`, and so does its leaf in the tree; the local box is left alone. */
  function ReplaceChild(s: Shape, i: nat, c: Child): (r: Shape)
    requires s.Compound? && i < |s.children|
    ensures r.Compound? && r.children == s.children[i := c]
  {
    Shape.Compound(s.children[i := c], s.localAabb,
                   if s.tree.Some? then Some(Update(s.tree.value, ChildAabb(c), i)) else None, s.margin)
  }

  function ReposedLeaf(c: Child, inner: ConvexShape, tf1: Transform, tf2: Transform): Child {
    Child(c.transform, SweptShape(inner, Delta(c.transform, tf1, tf2)))
  }

  /** The first `n` children re-posed over `inners`. */
  function ReposeHulls(s: Shape, inners: seq<ConvexShape>, tf1: Transform, tf2: Transform, n: nat): (r: Shape)
    requires s.Compound? && |inners| == |s.children| && n <= |inners|
    ensures r.Compound? && |r.children| == |s.children|
  {
    if n == 0 then s
    else
      var t := ReposeHulls(s, inners, tf1, tf2, n - 1);
      ReplaceChild(t, n - 1, ReposedLeaf(t.children[n - 1], inners[n - 1], tf1, tf2))
  }

  function ReposeSecond(s: Shape, inners: seq<ConvexShape>, tf1: Transform, tf2: Transform): (r: Shape)
    requires s.Compound? && |inners| == |s.children|
    ensures r.Compound? && |r.children| == |s.children|
  {
    Recalculated(ReposeHulls(s, inners, tf1, tf2, |inners|))
  }

  /** Child `i` re-posed: a hull's leaf follows it into the tree, a compound's does not. */
  function ReposeChild(s: Shape, i: nat, h: ChildHulls, tf1: Transform, tf2: Transform): (r: Shape)
    requires s.Compound? && i < |s.children| && ChildMatches(s.children[i].shape, h)
    ensures r.Compound? && |r.children| == |s.children|
    ensures forall k :: 0 <= k < |s.children| && k != i ==> r.children[k] == s.children[k]
  {
    var c := s.children[i];
    match h
    case Hull(inner) => ReplaceChild(s, i, ReposedLeaf(c, inner, tf1, tf2))
    case Grandchildren(inners) =>
      s.(children := s.children[i := Child(c.transform, ReposeSecond(c.shape, inners, tf1, tf2))])
  }

  function ReposeChildren(s: Shape, hs: seq<ChildHulls>, tf1: Transform, tf2: Transform, n: nat): (r: Shape)
    requires Matches(s, Children(hs)) && n <= |hs|
    ensures r.Compound? && |r.children| == |s.children|
    ensures forall k :: n <= k < |s.children| ==> r.children[k] == s.children[k]
  {
    if n == 0 then s
    else ReposeChild(ReposeChildren(s, hs, tf1, tf2, n - 1), n - 1, hs[n - 1], tf1, tf2)
  }

  function Repose(s: Shape, h: CastHulls, tf1: Transform, tf2: Transform): Shape
    requires Matches(s, h)
  {
    match h
    case Single(inner) => SweptShape(inner, tf1.InverseTimes(tf2))
    case Children(hs) => Recalculated(ReposeChildren(s, hs, tf1, tf2, |hs|))
  }

  /** A cast object as an owned value. */
  datatype CastValue = CastValue(cow: CollisionObject, hulls: CastHulls)
  {
    ghost predicate Valid() {
      cow.group == KINEMATIC && Matches(cow.shape, hulls)
    }
  }

  /** `CastCollisionObject::new`: the clone with its shape replaced by the swept twin. */
  method NewCastObject(cow: CollisionObject) returns (r: Result<CastValue, CastError>)
    ensures ShapeError(cow.shape).Some? ==> r == Err(ShapeError(cow.shape).value)
    ensures Sweepable(cow.shape) ==> r == Ok(CastValue(cow.(shape := SweepShape(cow.shape)), HullsOf(cow.shape)))
    ensures r.Ok? <==> Sweepable(cow.shape)
  {
    ErrorExact(cow.shape);
    var built := Build(cow.shape);
    match built
    case Err(e) => r := Err(e);
    case Ok((shape, hulls)) => r := Ok(CastValue(cow.(shape := shape), hulls));
  }

  class CastCollisionObject {
    var cow: CollisionObject
    var hulls: CastHulls

    function Value(): CastValue
      reads this
    {
      CastValue(cow, hulls)
    }

    /** Takes an owned cast object up for re-posing. */
    constructor Edit(v: CastValue)
      ensures Value() == v
    {
      cow := v.cow;
      hulls := v.hulls;
    }

    method SetCastTransforms(tf1: Transform, tf2: Transform)
      requires Value().Valid()
      modifies this
      ensures hulls == old(hulls)
      ensures !old(cow).enabled ==> cow == old(cow).(worldTransform := tf1)
      ensures old(cow).enabled ==>
        cow == old(cow).(worldTransform := tf1, shape := Repose(old(cow).shape, old(hulls), tf1, tf2))
    {
      cow := cow.(worldTransform := tf1);
      if !cow.enabled {
        return;
      }
      if hulls.Single? {
        cow := cow.(shape := SweptShape(hulls.inner, tf1.InverseTimes(tf2)));
      } else {
        var shape := ReposeEachChild(cow.shape, hulls.children, tf1, tf2);
        cow := cow.(shape := shape);
      }
    }
  }

  method ReposeEachChild(s: Shape, hs: seq<ChildHulls>, tf1: Transform, tf2: Transform) returns (r: Shape)
    requires Matches(s, Children(hs))
    ensures r == Recalculated(ReposeChildren(s, hs, tf1, tf2, |hs|))
  {
    hide Transform.Times, Transform.InverseTimes, Update, ReposeHulls, ChildAabb;
    var compound := new CompoundShape.Edit(s);
    for i := 0 to |hs|
      invariant compound.Value() == ReposeChildren(s, hs, tf1, tf2, i)
      invariant fresh(compound)
    {
      if hs[i].Hull? {
        var localTf := compound.children[i].transform;
        compound.ReplaceChildShape(i, SweptShape(hs[i].inner, tf1.Times(localTf).InverseTimes(tf2.Times(localTf))));
        compound.UpdateChildTransform(i, localTf, false);
      } else {
        var second := ReposeInPlace(compound.children[i].shape, hs[i].inners, tf1, tf2);
        compound.ReplaceChildShape(i, second);
      }
    }
    compound.RecalculateLocalAabb();
    r := compound.Value();
  }

  /** The compound child taken up, re-posed leaf by leaf and put back. */
  method ReposeInPlace(s: Shape, inners: seq<ConvexShape>, tf1: Transform, tf2: Transform) returns (r: Shape)
    requires s.Compound? && |inners| == |s.children|
    ensures r == ReposeSecond(s, inners, tf1, tf2)
  {
    hide Transform.Times, Transform.InverseTimes, Update, ChildAabb;
    var second := new CompoundShape.Edit(s);
    for j := 0 to |inners|
      invariant second.Value() == ReposeHulls(s, inners, tf1, tf2, j)
      invariant fresh(second)
    {
      var localTf := second.children[j].transform;
      second.ReplaceChildShape(j, SweptShape(inners[j], tf1.Times(localTf).InverseTimes(tf2.Times(localTf))));
      second.UpdateChildTransform(j, localTf, false);
    }
    second.RecalculateLocalAabb();
    r := second.Value();
  }
}
