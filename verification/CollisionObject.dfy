/**
 Collision objects and the filters on them (crates/cspace-bullet-cast/src/collision_object.rs,
 and the two pair filters of cast_callback.rs).
 */
module CollisionObject {
  import opened LinearMath
  import opened Wrappers
  import opened Shapes
  import opened Dbvt
  import opened Compound
  import opened CompoundAlgorithm
  import opened CompoundProperties
  import opened ContactTestData

  /** `CollisionFilterGroup` bits. */
  const STATIC: bv32 := 2
  const KINEMATIC: bv32 := 4

  datatype CollisionObject = CollisionObject(
    name: string, typeId: BodyType, group: bv32, mask: bv32, enabled: bool, touchLinks: set<string>,
    worldTransform: Transform, contactProcessingThreshold: real, shape: Shape)
  {
    /** The shape's box grown by the contact processing threshold. */
    function GetAabb(): Aabb { shape.GetAabb(worldTransform).Expand(contactProcessingThreshold) }
  }

  predicate Intersects(a: bv32, b: bv32) { a & b != 0 }

  /** The group and mask of an active object and of a static one. */
  function FiltersFor(active: bool): (bv32, bv32) {
    if active then (KINEMATIC, KINEMATIC | STATIC) else (STATIC, KINEMATIC)
  }

  predicate Filtered(c: CollisionObject) {
    (c.group, c.mask) == FiltersFor(true) || (c.group, c.mask) == FiltersFor(false)
  }

  predicate IsOnlyKinematic(a: CollisionObject, b: CollisionObject) {
    a.group == KINEMATIC && b.group == KINEMATIC
  }

  /** An attached body against a link it is attached to. */
  predicate Touches(a: CollisionObject, b: CollisionObject) {
    a.typeId == RobotAttached && b.typeId == RobotLink && b.name in a.touchLinks
  }

  predicate NeedBroadphaseCollision(a: CollisionObject, b: CollisionObject) {
    if !Intersects(a.mask, b.group) || !Intersects(b.mask, a.group) then false
    else if !a.enabled || !b.enabled then false
    else if Touches(a, b) then false
    else if Touches(b, a) then false
    else if a.typeId == RobotAttached && b.typeId == RobotAttached && a.touchLinks == b.touchLinks then false
    else true
  }

  datatype AllowedCollisionType = Never | Always | Conditional

  /** The matrix's answer for two names, or `None` when it has no entry. */
  type AllowedCollisions = (string, string) -> Option<AllowedCollisionType>

  /** Whether the pair is allowed, and so may be skipped. */
  predicate AcmCheck(a: string, b: string, acm: Option<AllowedCollisions>) {
    acm.Some? && acm.value(a, b).Some? && acm.value(a, b).value != Never
  }

  predicate NeedsCollision(done: bool, a: CollisionObject, b: CollisionObject, acm: Option<AllowedCollisions>) {
    !done && !IsOnlyKinematic(a, b) && !AcmCheck(a.name, b.name, acm)
  }

  lemma FilterBits()
    ensures !Intersects(STATIC, KINEMATIC) && Intersects(KINEMATIC, KINEMATIC)
    ensures Intersects(KINEMATIC | STATIC, KINEMATIC) && Intersects(KINEMATIC | STATIC, STATIC)
    ensures !Intersects(KINEMATIC, STATIC)
  {}

  /** An active object's group is kinematic and its mask lets both groups in; a static one's group is static and its mask lets
      in kinematic objects alone. */
  lemma FilterWords(c: CollisionObject, group: bv32)
    ensures FiltersFor(true) == (4, 6) && FiltersFor(false) == (2, 4)
    ensures Filtered(c) <==> (c.group == 4 && c.mask == 6) || (c.group == 2 && c.mask == 4)
    ensures group == 2 || group == 4 ==> Intersects(FiltersFor(true).1, group)
    ensures group == 2 || group == 4 ==> (Intersects(FiltersFor(false).1, group) <==> group == 4)
  {}

  /** The pair filter does not depend on the order of the pair. */
  lemma FilterIsSymmetric(a: CollisionObject, b: CollisionObject)
    ensures NeedBroadphaseCollision(a, b) == NeedBroadphaseCollision(b, a)
  {}

  /**
   Which pairs are stored. One whose filter words do not meet both ways is not; a
   disabled object is in none; an attached body and a link are, unless the body is allowed to touch the link,
   whichever comes first; two attached bodies are, unless they may touch the same
   links; every other pair is.
   */
  lemma FilterByKind(a: CollisionObject, b: CollisionObject)
    ensures !Intersects(a.mask, b.group) || !Intersects(b.mask, a.group) || !a.enabled || !b.enabled
        ==> !NeedBroadphaseCollision(a, b)
    ensures Intersects(a.mask, b.group) && Intersects(b.mask, a.group) && a.enabled && b.enabled ==>
      match (a.typeId, b.typeId)
      case (RobotAttached, RobotLink) => NeedBroadphaseCollision(a, b) <==> !(exists n :: n in a.touchLinks && n == b.name)
      case (RobotLink, RobotAttached) => NeedBroadphaseCollision(a, b) <==> !(exists n :: n in b.touchLinks && n == a.name)
      case (RobotAttached, RobotAttached) =>
        NeedBroadphaseCollision(a, b) <==> exists n :: (n in a.touchLinks) != (n in b.touchLinks)
      case _ => NeedBroadphaseCollision(a, b)
  {
    hide Intersects;
    assert a.touchLinks == b.touchLinks <==> forall n :: (n in a.touchLinks) == (n in b.touchLinks);
  }

  /** Between them the two filters let through only pairs with exactly one kinematic side. */
  lemma ExactlyOneKinematic(a: CollisionObject, b: CollisionObject, done: bool, acm: Option<AllowedCollisions>)
    requires Filtered(a) && Filtered(b)
    requires NeedBroadphaseCollision(a, b) && NeedsCollision(done, a, b, acm)
    ensures (a.group == KINEMATIC && b.group == STATIC) || (a.group == STATIC && b.group == KINEMATIC)
  {
    FilterBits();
  }

  // ---- cloning -----------------------------------------------------------

  /** The compound `add_child_shape` builds from the given children, one after another. */
  function Built(children: seq<Child>): (s: Shape)
    ensures s.Compound? && s.children == children
  {
    if children == [] then EmptyCompound(true)
    else WithChild(Built(children[..|children| - 1]), children[|children| - 1].transform, children[|children| - 1].shape)
  }

  function WithMargin(s: Shape, margin: real): (r: Shape)
    requires s.Compound?
    ensures r.Compound? && r.children == s.children
  {
    s.(margin := margin)
  }

  /** Same convex leaves, rebuilt compounds. */
  function CloneShape(s: Shape): Shape
    decreases s, 1
  {
    match s
    case Convex(c) => s
    case Compound(children, _, _, m) => WithMargin(Built(CloneChildren(children)), m)
  }

  function CloneChildren(cs: seq<Child>): (r: seq<Child>)
    ensures |r| == |cs|
    decreases cs, 0
  {
    if cs == [] then [] else CloneChildren(cs[..|cs| - 1]) + [CloneChild(cs[|cs| - 1])]
  }

  function CloneChild(c: Child): Child
    decreases c, 2
  {
    Child(c.transform, CloneShape(c.shape))
  }

  lemma {:induction false} CloneChildrenAt(cs: seq<Child>, i: nat)
    requires i < |cs|
    ensures CloneChildren(cs)[i] == CloneChild(cs[i])
    decreases |cs|
  {
    if i < |cs| - 1 { CloneChildrenAt(cs[..|cs| - 1], i); }
  }

  /** Leaves sound, children rigid, margins not negative: everything in-sync asks of a shape but its boxes and trees. */
  ghost predicate Sound(s: Shape) {
    match s
    case Convex(c) => AabbSound(c)
    case Compound(children, _, _, m) =>
      && m >= 0.0
      && (forall i :: 0 <= i < |children| ==> Sound(children[i].shape))
      && (forall i :: 0 <= i < |children| ==> children[i].transform.Rigid())
  }

  /** A compound built up from children in sync is in sync, with the union for its local box. */
  lemma {:induction false} BuiltInSync(children: seq<Child>)
    requires forall i :: 0 <= i < |children| ==> InSync(children[i].shape) && children[i].transform.Rigid()
    ensures InSync(Built(children)) && Built(children).localAabb == Union(children)
    decreases |children|
  {
    hide InSync;
    if children == [] {
      EmptyInSync(true);
    } else {
      var n := |children| - 1;
      BuiltInSync(children[..n]);
      WithChildInSync(Built(children[..n]), children[n].transform, children[n].shape);
      assert children[..n] + [children[n]] == children;
    }
  }

  lemma WithMarginInSync(s: Shape, margin: real)
    requires s.Compound? && InSync(s) && margin >= 0.0
    ensures InSync(WithMargin(s, margin))
  {
    hide AabbSound;
  }

  /** Cloning rebuilds boxes and trees in sync whatever state they were in. */
  lemma {:induction false} CloneInSync(s: Shape)
    requires Sound(s)
    ensures InSync(CloneShape(s))
    decreases s
  {
    hide AabbSound;
    if s.Compound? {
      var cs := CloneChildren(s.children);
      forall i | 0 <= i < |cs| ensures InSync(cs[i].shape) && cs[i].transform.Rigid() {
        CloneChildrenAt(s.children, i);
        CloneInSync(s.children[i].shape);
      }
      BuiltInSync(cs);
      WithMarginInSync(Built(cs), s.margin);
    }
  }

  /** A clone has the same points, leaf by leaf. */
  lemma {:induction false} CloneHas(s: Shape, path: seq<nat>, p: Vec3)
    ensures PathHas(CloneShape(s), path, p) <==> PathHas(s, path, p)
    decreases s
  {
    hide Built, WithMargin, Has, Transform.Apply;
    if s.Compound? && path != [] && path[0] < |s.children| {
      var (i, rest) := (path[0], path[1..]);
      var (child, clone) := (s.children[i], CloneShape(s).children[i]);
      CloneChildrenAt(s.children, i);
      assert clone == CloneChild(child);
      if PathHas(s, path, p) {
        var q :| PathHas(child.shape, rest, q) && child.transform.Apply(q) == p;
        CloneHas(child.shape, rest, q);
        assert PathHas(clone.shape, rest, q) && clone.transform.Apply(q) == p;
      }
      if PathHas(CloneShape(s), path, p) {
        var q :| PathHas(clone.shape, rest, q) && clone.transform.Apply(q) == p;
        CloneHas(child.shape, rest, q);
        assert PathHas(child.shape, rest, q) && child.transform.Apply(q) == p;
      }
    }
  }
}
