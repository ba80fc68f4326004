/**
 What the dispatch over nested shapes guarantees: every pair of leaves that
 share a point is dispatched, none twice, each as a leaf of the object it is
 attributed to.
 */
module CompoundProperties {
  import opened LinearMath
  import opened Wrappers
  import opened Shapes
  import opened Dbvt
  import opened Compound
  import opened CompoundAlgorithm

  // ---- leaves of a wrapper -----------------------------------------------

  ghost predicate ValidPath(s: Shape, path: seq<nat>)
    decreases |path|
  {
    path == [] || (s.Compound? && path[0] < |s.children| && ValidPath(s.children[path[0]].shape, path[1..]))
  }

  /** The wrapper built by taking the children along `path`. */
  ghost function Descend(b: Wrapper, path: seq<nat>): Wrapper
    requires ValidPath(b.shape, path)
    decreases |path|
  {
    if path == [] then b else Descend(b.Child(path[0]), path[1..])
  }

  /** `x` wraps a convex leaf below `b`, posed by the transforms on the way down. */
  ghost predicate LeafOf(b: Wrapper, x: Wrapper) {
    x.shape.Convex? && exists path :: ValidPath(b.shape, path) && Descend(b, path) == x
  }

  lemma {:induction false} DescendKeeps(b: Wrapper, path: seq<nat>)
    requires ValidPath(b.shape, path)
    ensures Descend(b, path).objectId == b.objectId
    ensures Descend(b, path).objectTransform == b.objectTransform
    ensures Descend(b, path).path == b.path + path
    decreases |path|
  {
    if path != [] {
      DescendKeeps(b.Child(path[0]), path[1..]);
      assert [path[0]] + path[1..] == path;
    }
  }

  lemma LeafOfChild(b: Wrapper, i: nat, x: Wrapper)
    requires b.shape.Compound? && i < |b.shape.children| && LeafOf(b.Child(i), x)
    ensures LeafOf(b, x)
  {
    var path :| ValidPath(b.Child(i).shape, path) && Descend(b.Child(i), path) == x;
    var p := [i] + path;
    assert p[1..] == path;
    assert ValidPath(b.shape, p) && Descend(b, p) == x;
  }

  lemma LeafOfKeeps(b: Wrapper, x: Wrapper)
    requires LeafOf(b, x)
    ensures x.objectId == b.objectId && x.objectTransform == b.objectTransform && b.path <= x.path
  {
    var path :| ValidPath(b.shape, path) && Descend(b, path) == x;
    DescendKeeps(b, path);
  }

  // ---- every dispatch is of two leaves, one of each operand --------------

  ghost predicate Leads(b0: Wrapper, b1: Wrapper, e: (Wrapper, Wrapper)) {
    (LeafOf(b0, e.0) && LeafOf(b1, e.1)) || (LeafOf(b0, e.1) && LeafOf(b1, e.0))
  }

  ghost predicate AllLead(b0: Wrapper, b1: Wrapper, pairs: seq<(Wrapper, Wrapper)>) {
    forall k :: 0 <= k < |pairs| ==> Leads(b0, b1, pairs[k])
  }

  lemma AllLeadChild(c: Wrapper, o: Wrapper, i: nat, pairs: seq<(Wrapper, Wrapper)>)
    requires c.shape.Compound? && i < |c.shape.children| && AllLead(c.Child(i), o, pairs)
    ensures AllLead(c, o, pairs)
  {
    forall k | 0 <= k < |pairs| ensures Leads(c, o, pairs[k]) {
      assert Leads(c.Child(i), o, pairs[k]);
      if LeafOf(c.Child(i), pairs[k].0) && LeafOf(o, pairs[k].1) {
        LeafOfChild(c, i, pairs[k].0);
      } else {
        LeafOfChild(c, i, pairs[k].1);
      }
    }
  }

  lemma AllLeadSwap(b0: Wrapper, b1: Wrapper, pairs: seq<(Wrapper, Wrapper)>)
    requires AllLead(b0, b1, pairs)
    ensures AllLead(b1, b0, pairs)
  {
    forall k | 0 <= k < |pairs| ensures Leads(b1, b0, pairs[k]) {
      assert Leads(b0, b1, pairs[k]);
    }
  }

  lemma {:induction false} DispatchesLeaves(b0: Wrapper, b1: Wrapper, table: DispatchTable, threshold: real)
    requires Indexed(b0.shape) && Indexed(b1.shape)
    ensures AllLead(b0, b1, Collide(b0, b1, table, threshold).pairs)
    decreases Size(b0.shape) + Size(b1.shape), 3
  {
    hide ChildOverlaps, FindAlgorithm;
    match (b0.shape, b1.shape)
    case (Convex(_), Convex(_)) =>
      assert ValidPath(b0.shape, []) && Descend(b0, []) == b0;
      assert ValidPath(b1.shape, []) && Descend(b1, []) == b1;
    case (Compound(_, _, tree0, _), Compound(_, _, tree1, _)) =>
      if tree0.None? || tree1.None? {
        ChildrenLeaves(b0, b1, threshold);
      } else {
        PairListIndexed(b0, b1, threshold);
        PairsLeaves(b0, b1, PairList(b0, b1, threshold), threshold);
      }
    case (Compound(_, _, _, _), Convex(_)) => ChildrenLeaves(b0, b1, threshold);
    case (Convex(_), Compound(_, _, _, _)) =>
      ChildrenLeaves(b1, b0, threshold);
      AllLeadSwap(b1, b0, CollideChildren(b1, b0, threshold).pairs);
  }

  lemma {:induction false} ChildrenLeaves(c: Wrapper, o: Wrapper, threshold: real)
    requires c.shape.Compound? && Indexed(c.shape) && Indexed(o.shape)
    ensures AllLead(c, o, CollideChildren(c, o, threshold).pairs)
    decreases Size(c.shape) + Size(o.shape), 2
  {
    ChildListIndexed(c, o, threshold);
    ListLeaves(c, o, ChildList(c, o, threshold), threshold);
  }

  lemma {:induction false} ChildLeaves(c: Wrapper, o: Wrapper, i: nat, threshold: real)
    requires c.shape.Compound? && i < |c.shape.children| && Indexed(c.shape) && Indexed(o.shape)
    ensures AllLead(c.Child(i), o, CollideChild(c, o, i, threshold).pairs)
    decreases Size(c.shape) + Size(o.shape), 0
  {
    hide ChildOverlaps;
    SizeOfChild(c.shape.children, i);
    DispatchesLeaves(c.Child(i), o, ChildTable(threshold), threshold);
  }

  lemma {:induction false} PairLeaves(b0: Wrapper, b1: Wrapper, i: nat, j: nat, threshold: real)
    requires b0.shape.Compound? && b1.shape.Compound? && Indexed(b0.shape) && Indexed(b1.shape)
    requires i < |b0.shape.children| && j < |b1.shape.children|
    ensures AllLead(b0.Child(i), b1.Child(j), CollidePair(b0, b1, i, j, threshold).pairs)
    decreases Size(b0.shape) + Size(b1.shape), 0
  {
    hide ChildOverlaps;
    SizeOfChild(b0.shape.children, i);
    SizeOfChild(b1.shape.children, j);
    DispatchesLeaves(b0.Child(i), b1.Child(j), ChildTable(threshold), threshold);
  }

  lemma {:induction false} ListLeaves(c: Wrapper, o: Wrapper, list: seq<nat>, threshold: real)
    requires c.shape.Compound? && Indexed(c.shape) && Indexed(o.shape) && Below(list, |c.shape.children|)
    ensures AllLead(c, o, CollideList(c, o, list, threshold).pairs)
    decreases Size(c.shape) + Size(o.shape), 1, |list|
  {
    if list != [] {
      ChildLeaves(c, o, list[0], threshold);
      AllLeadChild(c, o, list[0], CollideChild(c, o, list[0], threshold).pairs);
      ListLeaves(c, o, list[1..], threshold);
    }
  }

  lemma {:induction false} PairsLeaves(b0: Wrapper, b1: Wrapper, list: seq<(nat, nat)>, threshold: real)
    requires b0.shape.Compound? && b1.shape.Compound? && Indexed(b0.shape) && Indexed(b1.shape)
    requires PairsBelow(list, |b0.shape.children|, |b1.shape.children|)
    ensures AllLead(b0, b1, CollidePairs(b0, b1, list, threshold).pairs)
    decreases Size(b0.shape) + Size(b1.shape), 1, |list|
  {
    if list != [] {
      PairLeaves(b0, b1, list[0].0, list[0].1, threshold);
      AllLeadBoth(b0, b1, list[0].0, list[0].1, CollidePair(b0, b1, list[0].0, list[0].1, threshold).pairs);
      PairsLeaves(b0, b1, list[1..], threshold);
    }
  }

  lemma AllLeadBoth(b0: Wrapper, b1: Wrapper, i: nat, j: nat, pairs: seq<(Wrapper, Wrapper)>)
    requires b0.shape.Compound? && b1.shape.Compound? && i < |b0.shape.children| && j < |b1.shape.children|
    requires AllLead(b0.Child(i), b1.Child(j), pairs)
    ensures AllLead(b0, b1, pairs)
  {
    AllLeadChild(b0, b1.Child(j), i, pairs);
    AllLeadSwap(b0, b1.Child(j), pairs);
    AllLeadChild(b1, b0, j, pairs);
    AllLeadSwap(b1, b0, pairs);
  }

  // ---- no pair of leaves is dispatched twice -----------------------------

  /** The two leaf paths of a dispatch, object `id`'s first. */
  function Key(e: (Wrapper, Wrapper), id: nat): (seq<nat>, seq<nat>) {
    if e.0.objectId == id then (e.0.path, e.1.path) else (e.1.path, e.0.path)
  }

  ghost predicate DistinctKeys(pairs: seq<(Wrapper, Wrapper)>, id: nat) {
    forall i, j :: 0 <= i < j < |pairs| ==> Key(pairs[i], id) != Key(pairs[j], id)
  }

  /** Object `id`'s leaf lies below `p` and the other object's below `q`. */
  ghost predicate KeysBelow(pairs: seq<(Wrapper, Wrapper)>, id: nat, p: seq<nat>, q: seq<nat>) {
    forall k :: 0 <= k < |pairs| ==> p <= Key(pairs[k], id).0 && q <= Key(pairs[k], id).1
  }

  lemma LeadsBelow(b0: Wrapper, b1: Wrapper, pairs: seq<(Wrapper, Wrapper)>)
    requires AllLead(b0, b1, pairs) && b0.objectId != b1.objectId
    ensures KeysBelow(pairs, b0.objectId, b0.path, b1.path)
    ensures KeysBelow(pairs, b1.objectId, b1.path, b0.path)
  {
    forall k | 0 <= k < |pairs|
      ensures b0.path <= Key(pairs[k], b0.objectId).0 && b1.path <= Key(pairs[k], b0.objectId).1
      ensures b1.path <= Key(pairs[k], b1.objectId).0 && b0.path <= Key(pairs[k], b1.objectId).1
    {
      assert Leads(b0, b1, pairs[k]);
      if LeafOf(b0, pairs[k].0) && LeafOf(b1, pairs[k].1) {
        LeafOfKeeps(b0, pairs[k].0);
        LeafOfKeeps(b1, pairs[k].1);
      } else {
        LeafOfKeeps(b0, pairs[k].1);
        LeafOfKeeps(b1, pairs[k].0);
      }
    }
  }

  lemma DistinctKeysSwap(b0: Wrapper, b1: Wrapper, pairs: seq<(Wrapper, Wrapper)>)
    requires AllLead(b0, b1, pairs) && b0.objectId != b1.objectId && DistinctKeys(pairs, b0.objectId)
    ensures DistinctKeys(pairs, b1.objectId)
  {
    forall k | 0 <= k < |pairs|
      ensures Key(pairs[k], b1.objectId) == (Key(pairs[k], b0.objectId).1, Key(pairs[k], b0.objectId).0)
    {
      assert Leads(b0, b1, pairs[k]);
      if LeafOf(b0, pairs[k].0) && LeafOf(b1, pairs[k].1) {
        LeafOfKeeps(b0, pairs[k].0);
        LeafOfKeeps(b1, pairs[k].1);
      } else {
        LeafOfKeeps(b0, pairs[k].1);
        LeafOfKeeps(b1, pairs[k].0);
      }
    }
  }

  lemma DistinctKeysConcat(s: seq<(Wrapper, Wrapper)>, t: seq<(Wrapper, Wrapper)>, id: nat)
    requires DistinctKeys(s, id) && DistinctKeys(t, id)
    requires forall i, j :: 0 <= i < |s| && 0 <= j < |t| ==> Key(s[i], id) != Key(t[j], id)
    ensures DistinctKeys(s + t, id)
  {}

  lemma {:induction false} NoneTwice(b0: Wrapper, b1: Wrapper, table: DispatchTable, threshold: real)
    requires Indexed(b0.shape) && Indexed(b1.shape) && TreesFiled(b0.shape) && TreesFiled(b1.shape)
    requires b0.objectId != b1.objectId
    ensures DistinctKeys(Collide(b0, b1, table, threshold).pairs, b0.objectId)
    decreases Size(b0.shape) + Size(b1.shape), 3
  {
    hide ChildOverlaps, FindAlgorithm;
    match (b0.shape, b1.shape)
    case (Convex(_), Convex(_)) =>
    case (Compound(_, _, tree0, _), Compound(_, _, tree1, _)) =>
      if tree0.None? || tree1.None? {
        ChildrenOnce(b0, b1, threshold);
      } else {
        PairListIndexed(b0, b1, threshold);
        PairListDistinct(b0, b1, threshold);
        PairsOnce(b0, b1, PairList(b0, b1, threshold), threshold);
      }
    case (Compound(_, _, _, _), Convex(_)) => ChildrenOnce(b0, b1, threshold);
    case (Convex(_), Compound(_, _, _, _)) =>
      ChildrenOnce(b1, b0, threshold);
      ChildrenLeaves(b1, b0, threshold);
      DistinctKeysSwap(b1, b0, CollideChildren(b1, b0, threshold).pairs);
  }

  lemma PairListDistinct(b0: Wrapper, b1: Wrapper, threshold: real)
    requires b0.shape.Compound? && b1.shape.Compound? && b0.shape.tree.Some? && b1.shape.tree.Some?
    requires TreesFiled(b0.shape) && TreesFiled(b1.shape)
    ensures Distinct(PairList(b0, b1, threshold))
  {
    hide Relative;
    var (t0, t1) := (b0.shape.tree.value, b1.shape.tree.value);
    if t0.Some? && t1.Some? {
      TtDistinct(t0.value, t1.value, Relative(b0, b1), threshold);
    }
  }

  lemma ChildListDistinct(c: Wrapper, o: Wrapper, threshold: real)
    requires c.shape.Compound? && TreesFiled(c.shape)
    ensures Distinct(ChildList(c, o, threshold))
  {
    hide QueryVolume;
    if c.shape.tree.Some? && c.shape.tree.value.Some? {
      var r := c.shape.tree.value.value;
      TvIsScan(r, QueryVolume(c, o, threshold));
      HitsDistinct(Leaves(r), QueryVolume(c, o, threshold));
    }
  }

  lemma {:induction false} ChildrenOnce(c: Wrapper, o: Wrapper, threshold: real)
    requires c.shape.Compound? && Indexed(c.shape) && Indexed(o.shape) && TreesFiled(c.shape) && TreesFiled(o.shape)
    requires c.objectId != o.objectId
    ensures DistinctKeys(CollideChildren(c, o, threshold).pairs, c.objectId)
    decreases Size(c.shape) + Size(o.shape), 2
  {
    ChildListIndexed(c, o, threshold);
    ChildListDistinct(c, o, threshold);
    ListOnce(c, o, ChildList(c, o, threshold), threshold);
  }

  lemma {:induction false} ListOnce(c: Wrapper, o: Wrapper, list: seq<nat>, threshold: real)
    requires c.shape.Compound? && Indexed(c.shape) && Indexed(o.shape) && TreesFiled(c.shape) && TreesFiled(o.shape)
    requires Below(list, |c.shape.children|) && Distinct(list) && c.objectId != o.objectId
    ensures DistinctKeys(CollideList(c, o, list, threshold).pairs, c.objectId)
    ensures forall k :: 0 <= k < |CollideList(c, o, list, threshold).pairs| ==>
              var p := Key(CollideList(c, o, list, threshold).pairs[k], c.objectId).0;
              |p| > |c.path| && p[|c.path|] in list
    decreases Size(c.shape) + Size(o.shape), 1, |list|
  {
    hide TreesFiled, Indexed;
    if list != [] {
      var (r, s) := (CollideChild(c, o, list[0], threshold).pairs, CollideList(c, o, list[1..], threshold).pairs);
      ChildOnce(c, o, list[0], threshold);
      ChildLeaves(c, o, list[0], threshold);
      LeadsBelow(c.Child(list[0]), o, r);
      ListOnce(c, o, list[1..], threshold);
      forall i, j | 0 <= i < |r| && 0 <= j < |s| ensures Key(r[i], c.objectId) != Key(s[j], c.objectId) {
        assert Key(r[i], c.objectId).0[|c.path|] == list[0];
      }
      DistinctKeysConcat(r, s, c.objectId);
      assert forall x :: x in list[1..] ==> x in list;
    }
  }

  lemma {:induction false} ChildOnce(c: Wrapper, o: Wrapper, i: nat, threshold: real)
    requires c.shape.Compound? && i < |c.shape.children| && Indexed(c.shape) && Indexed(o.shape)
    requires TreesFiled(c.shape) && TreesFiled(o.shape) && c.objectId != o.objectId
    ensures DistinctKeys(CollideChild(c, o, i, threshold).pairs, c.objectId)
    decreases Size(c.shape) + Size(o.shape), 0
  {
    hide ChildOverlaps;
    SizeOfChild(c.shape.children, i);
    NoneTwice(c.Child(i), o, ChildTable(threshold), threshold);
  }

  lemma {:induction false} PairOnce(b0: Wrapper, b1: Wrapper, i: nat, j: nat, threshold: real)
    requires b0.shape.Compound? && b1.shape.Compound? && Indexed(b0.shape) && Indexed(b1.shape)
    requires i < |b0.shape.children| && j < |b1.shape.children|
    requires TreesFiled(b0.shape) && TreesFiled(b1.shape) && b0.objectId != b1.objectId
    ensures DistinctKeys(CollidePair(b0, b1, i, j, threshold).pairs, b0.objectId)
    decreases Size(b0.shape) + Size(b1.shape), 0
  {
    hide ChildOverlaps;
    SizeOfChild(b0.shape.children, i);
    SizeOfChild(b1.shape.children, j);
    NoneTwice(b0.Child(i), b1.Child(j), ChildTable(threshold), threshold);
  }

  lemma {:induction false} PairsOnce(b0: Wrapper, b1: Wrapper, list: seq<(nat, nat)>, threshold: real)
    requires b0.shape.Compound? && b1.shape.Compound? && Indexed(b0.shape) && Indexed(b1.shape)
    requires TreesFiled(b0.shape) && TreesFiled(b1.shape) && b0.objectId != b1.objectId
    requires PairsBelow(list, |b0.shape.children|, |b1.shape.children|) && Distinct(list)
    ensures DistinctKeys(CollidePairs(b0, b1, list, threshold).pairs, b0.objectId)
    ensures forall k :: 0 <= k < |CollidePairs(b0, b1, list, threshold).pairs| ==>
              var (p, q) := Key(CollidePairs(b0, b1, list, threshold).pairs[k], b0.objectId);
              |p| > |b0.path| && |q| > |b1.path| && (p[|b0.path|], q[|b1.path|]) in list
    decreases Size(b0.shape) + Size(b1.shape), 1, |list|
  {
    hide TreesFiled, Indexed;
    if list != [] {
      var (i, j) := list[0];
      var (r, s) := (CollidePair(b0, b1, i, j, threshold).pairs, CollidePairs(b0, b1, list[1..], threshold).pairs);
      PairOnce(b0, b1, i, j, threshold);
      PairLeaves(b0, b1, i, j, threshold);
      LeadsBelow(b0.Child(i), b1.Child(j), r);
      PairsOnce(b0, b1, list[1..], threshold);
      forall k | 0 <= k < |r|
        ensures Key(r[k], b0.objectId).0[|b0.path|] == i && Key(r[k], b0.objectId).1[|b1.path|] == j {}
      forall k, l | 0 <= k < |r| && 0 <= l < |s| ensures Key(r[k], b0.objectId) != Key(s[l], b0.objectId) {
        assert Key(r[k], b0.objectId).0[|b0.path|] == i;
      }
      DistinctKeysConcat(r, s, b0.objectId);
      assert forall x :: x in list[1..] ==> x in list;
    }
  }

  // ---- every pair of leaves that share a point is dispatched -------------

  /** The leaf of `b` at `path` has the world point `w`. */
  ghost predicate TouchesAt(b: Wrapper, path: seq<nat>, w: Vec3) {
    exists p :: PathHas(b.shape, path, p) && b.worldTransform.Apply(p) == w
  }

  ghost predicate Found(pairs: seq<(Wrapper, Wrapper)>, x: Wrapper, y: Wrapper) {
    (x, y) in pairs || (y, x) in pairs
  }

  lemma {:induction false} PathHasValid(s: Shape, path: seq<nat>, p: Vec3)
    requires PathHas(s, path, p)
    ensures ValidPath(s, path)
    decreases s
  {
    if s.Compound? {
      var child := s.children[path[0]];
      var q :| PathHas(child.shape, path[1..], q) && child.transform.Apply(q) == p;
      PathHasValid(child.shape, path[1..], q);
    }
  }

  lemma TouchesValid(b: Wrapper, path: seq<nat>, w: Vec3)
    requires TouchesAt(b, path, w)
    ensures ValidPath(b.shape, path)
  {
    var p :| PathHas(b.shape, path, p) && b.worldTransform.Apply(p) == w;
    PathHasValid(b.shape, path, p);
  }

  lemma ExpandHas(box: Aabb, d: real, p: Vec3)
    requires box.Has(p) && d >= 0.0
    ensures box.Expand(d).Has(p)
  {}

  /** The world box of a shape holds every world point of its leaves. */
  lemma WorldBoxHas(b: Wrapper, path: seq<nat>, w: Vec3)
    requires Covering(b.shape) && b.worldTransform.Rigid() && TouchesAt(b, path, w)
    ensures b.shape.GetAabb(b.worldTransform).Has(w)
  {
    var p :| PathHas(b.shape, path, p) && b.worldTransform.Apply(p) == w;
    AabbHolds(b.shape, path, p, b.worldTransform);
  }

  lemma OverlapAt(b0: Wrapper, b1: Wrapper, p0: seq<nat>, p1: seq<nat>, w: Vec3, threshold: real)
    requires Covering(b0.shape) && Covering(b1.shape) && threshold >= 0.0
    requires b0.worldTransform.Rigid() && b1.worldTransform.Rigid()
    requires TouchesAt(b0, p0, w) && TouchesAt(b1, p1, w)
    ensures ChildOverlaps(b0, b1, threshold)
  {
    WorldBoxHas(b0, p0, w);
    WorldBoxHas(b1, p1, w);
    ExpandHas(b0.shape.GetAabb(b0.worldTransform), threshold, w);
    SharedPointIntersects(b0.shape.GetAabb(b0.worldTransform).Expand(threshold), b1.shape.GetAabb(b1.worldTransform), w);
  }

  /** One level down: the child on the path has the same world point, and the tree's box for it has the local one. */
  lemma TouchesChild(b: Wrapper, path: seq<nat>, w: Vec3) returns (p: Vec3)
    requires b.shape.Compound? && Covering(b.shape) && TouchesAt(b, path, w)
    ensures path != [] && path[0] < |b.shape.children|
    ensures TouchesAt(b.Child(path[0]), path[1..], w)
    ensures ChildAabb(b.shape.children[path[0]]).Has(p) && b.worldTransform.Apply(p) == w
  {
    p :| PathHas(b.shape, path, p) && b.worldTransform.Apply(p) == w;
    var child := b.shape.children[path[0]];
    var q :| PathHas(child.shape, path[1..], q) && child.transform.Apply(q) == p;
    AabbHolds(child.shape, path[1..], q, child.transform);
    ApplyTimes(b.worldTransform, child.transform, q);
  }

  /** The tree has child `i`'s leaf. */
  lemma EntryInTree(s: Shape, i: nat) returns (k: nat)
    requires s.Compound? && Covering(s) && s.tree.Some? && i < |s.children|
    ensures s.tree.value.Some? && k < |Leaves(s.tree.value.value)|
    ensures Leaves(s.tree.value.value)[k].1 == i && Leaves(s.tree.value.value)[k].0.Contain(ChildAabb(s.children[i]))
  {
    var t := s.tree.value;
    assert HasLeaf(TreeLeaves(t), i);
    k :| 0 <= k < |TreeLeaves(t)| && TreeLeaves(t)[k].1 == i;
  }

  /** The query volume, taken in the compound's frame, has the local copy of a shared world point. */
  lemma QueryVolumeHas(c: Wrapper, o: Wrapper, po: seq<nat>, p: Vec3, threshold: real)
    requires Covering(o.shape) && c.worldTransform.Rigid() && o.worldTransform.Rigid() && threshold >= 0.0
    requires TouchesAt(o, po, c.worldTransform.Apply(p))
    ensures QueryVolume(c, o, threshold).Has(p)
  {
    var w := c.worldTransform.Apply(p);
    var t := c.worldTransform.Inverse().Times(o.worldTransform);
    var q :| PathHas(o.shape, po, q) && o.worldTransform.Apply(q) == w;
    ApplyTimes(c.worldTransform.Inverse(), o.worldTransform, q);
    InverseApply(c.worldTransform, p);
    RigidInverse(c.worldTransform);
    RigidTimes(c.worldTransform.Inverse(), o.worldTransform);
    AabbHolds(o.shape, po, q, t);
    ExpandHas(o.shape.GetAabb(t), threshold, p);
  }

  lemma ChildOffered(c: Wrapper, o: Wrapper, pc: seq<nat>, po: seq<nat>, w: Vec3, threshold: real)
    requires c.shape.Compound? && Covering(c.shape) && Covering(o.shape) && threshold >= 0.0
    requires c.worldTransform.Rigid() && o.worldTransform.Rigid()
    requires TouchesAt(c, pc, w) && TouchesAt(o, po, w)
    ensures pc != [] && pc[0] < |c.shape.children|
    ensures pc[0] in ChildList(c, o, threshold)
  {
    hide AabbSound, QueryVolume;
    var p := TouchesChild(c, pc, w);
    if c.shape.tree.Some? {
      var k := EntryInTree(c.shape, pc[0]);
      var root := c.shape.tree.value.value;
      QueryVolumeHas(c, o, po, p, threshold);
      var v := QueryVolume(c, o, threshold);
      SharedPointIntersects(Leaves(root)[k].0, v, p);
      TvIsScan(root, v);
      HitsHas(Leaves(root), v, k);
    } else {
      assert ChildList(c, o, threshold)[pc[0]] == pc[0];
    }
  }

  lemma PairOffered(b0: Wrapper, b1: Wrapper, p0: seq<nat>, p1: seq<nat>, w: Vec3, threshold: real)
    requires b0.shape.Compound? && b1.shape.Compound? && b0.shape.tree.Some? && b1.shape.tree.Some?
    requires Covering(b0.shape) && Covering(b1.shape) && b0.worldTransform.Rigid() && threshold >= 0.0
    requires TouchesAt(b0, p0, w) && TouchesAt(b1, p1, w)
    ensures p0 != [] && p0[0] < |b0.shape.children| && p1 != [] && p1[0] < |b1.shape.children|
    ensures (p0[0], p1[0]) in PairList(b0, b1, threshold)
  {
    hide AabbSound;
    var q0 := TouchesChild(b0, p0, w);
    var q1 := TouchesChild(b1, p1, w);
    var k0 := EntryInTree(b0.shape, p0[0]);
    var k1 := EntryInTree(b1.shape, p1[0]);
    var (r0, r1) := (b0.shape.tree.value.value, b1.shape.tree.value.value);
    var x := Relative(b0, b1);
    ApplyTimes(b0.worldTransform.Inverse(), b1.worldTransform, q1);
    InverseApply(b0.worldTransform, q0);
    assert x.Apply(q1) == q0;
    MyIntersectAt(Leaves(r0)[k0].0, Leaves(r1)[k1].0, x, q0, q1, threshold);
    assert CrossWitness(Leaves(r0), Leaves(r1), (p0[0], p1[0]), k0, k1, x, threshold);
    TtExact(r0, r1, (p0[0], p1[0]), x, threshold);
  }

  lemma MyIntersectAt(a: Aabb, b: Aabb, x: Transform, p: Vec3, q: Vec3, threshold: real)
    requires a.Has(p) && b.Has(q) && x.Apply(q) == p && threshold >= 0.0
    ensures MyIntersect(a, b, x, threshold)
  {
    RefitHas(b, 0.0, x, q);
    ExpandHas(TransformAabb(b, 0.0, x), threshold, p);
    SharedPointIntersects(a, TransformAabb(b, 0.0, x).Expand(threshold), p);
  }

  lemma {:induction false} ListIncludes(c: Wrapper, o: Wrapper, list: seq<nat>, i: nat, threshold: real)
    requires c.shape.Compound? && Indexed(c.shape) && Indexed(o.shape) && Below(list, |c.shape.children|)
    requires i in list && CollideList(c, o, list, threshold).error.None?
    ensures i < |c.shape.children| && CollideChild(c, o, i, threshold).error.None?
    ensures forall e :: e in CollideChild(c, o, i, threshold).pairs ==> e in CollideList(c, o, list, threshold).pairs
    decreases |list|
  {
    hide ChildOverlaps;
    if i != list[0] { ListIncludes(c, o, list[1..], i, threshold); }
  }

  lemma {:induction false} PairsInclude(b0: Wrapper, b1: Wrapper, list: seq<(nat, nat)>, x: (nat, nat), threshold: real)
    requires b0.shape.Compound? && b1.shape.Compound? && Indexed(b0.shape) && Indexed(b1.shape)
    requires PairsBelow(list, |b0.shape.children|, |b1.shape.children|)
    requires x in list && CollidePairs(b0, b1, list, threshold).error.None?
    ensures x.0 < |b0.shape.children| && x.1 < |b1.shape.children|
    ensures CollidePair(b0, b1, x.0, x.1, threshold).error.None?
    ensures forall e :: e in CollidePair(b0, b1, x.0, x.1, threshold).pairs ==> e in CollidePairs(b0, b1, list, threshold).pairs
    decreases |list|
  {
    hide ChildOverlaps;
    if x != list[0] { PairsInclude(b0, b1, list[1..], x, threshold); }
  }

  /**
   Culling loses nothing: a query that reports no unported algorithm has
   dispatched every pair of convex leaves that share a world point, through
   whichever arm and at whatever depth.
   */
  lemma {:induction false} CullingIsConservative(
      b0: Wrapper, b1: Wrapper, table: DispatchTable, threshold: real, p0: seq<nat>, p1: seq<nat>, w: Vec3)
    requires Indexed(b0.shape) && Indexed(b1.shape) && Covering(b0.shape) && Covering(b1.shape)
    requires b0.worldTransform.Rigid() && b1.worldTransform.Rigid() && threshold >= 0.0
    requires TouchesAt(b0, p0, w) && TouchesAt(b1, p1, w)
    requires Collide(b0, b1, table, threshold).error.None?
    ensures ValidPath(b0.shape, p0) && ValidPath(b1.shape, p1)
    ensures Found(Collide(b0, b1, table, threshold).pairs, Descend(b0, p0), Descend(b1, p1))
    decreases Size(b0.shape) + Size(b1.shape), 3
  {
    hide ChildOverlaps, FindAlgorithm, AabbSound, Relative;
    TouchesValid(b0, p0, w);
    TouchesValid(b1, p1, w);
    match (b0.shape, b1.shape)
    case (Convex(_), Convex(_)) =>
      assert p0 == [] && p1 == [];
    case (Compound(_, _, tree0, _), Compound(_, _, tree1, _)) =>
      if tree0.None? || tree1.None? {
        ChildrenConservative(b0, b1, threshold, p0, p1, w);
      } else {
        PairsConservative(b0, b1, table, threshold, p0, p1, w);
      }
    case (Compound(_, _, _, _), Convex(_)) => ChildrenConservative(b0, b1, threshold, p0, p1, w);
    case (Convex(_), Compound(_, _, _, _)) => ChildrenConservative(b1, b0, threshold, p1, p0, w);
  }

  lemma {:induction false} ChildrenConservative(
      c: Wrapper, o: Wrapper, threshold: real, pc: seq<nat>, po: seq<nat>, w: Vec3)
    requires c.shape.Compound? && Indexed(c.shape) && Indexed(o.shape) && Covering(c.shape) && Covering(o.shape)
    requires c.worldTransform.Rigid() && o.worldTransform.Rigid() && threshold >= 0.0
    requires TouchesAt(c, pc, w) && TouchesAt(o, po, w)
    requires CollideChildren(c, o, threshold).error.None?
    ensures ValidPath(c.shape, pc) && ValidPath(o.shape, po)
    ensures Found(CollideChildren(c, o, threshold).pairs, Descend(c, pc), Descend(o, po))
    decreases Size(c.shape) + Size(o.shape), 2
  {
    hide ChildOverlaps, AabbSound, ChildList;
    TouchesValid(c, pc, w);
    TouchesValid(o, po, w);
    var _ := TouchesChild(c, pc, w);
    var i := pc[0];
    var list := ChildList(c, o, threshold);
    ChildListIndexed(c, o, threshold);
    ChildOffered(c, o, pc, po, w, threshold);
    ListIncludes(c, o, list, i, threshold);
    RigidTimes(c.worldTransform, c.shape.children[i].transform);
    OverlapAt(c.Child(i), o, pc[1..], po, w, threshold);
    SizeOfChild(c.shape.children, i);
    CullingIsConservative(c.Child(i), o, ChildTable(threshold), threshold, pc[1..], po, w);
  }

  lemma {:induction false} PairsConservative(
      b0: Wrapper, b1: Wrapper, table: DispatchTable, threshold: real, p0: seq<nat>, p1: seq<nat>, w: Vec3)
    requires b0.shape.Compound? && b1.shape.Compound? && b0.shape.tree.Some? && b1.shape.tree.Some?
    requires Indexed(b0.shape) && Indexed(b1.shape) && Covering(b0.shape) && Covering(b1.shape)
    requires b0.worldTransform.Rigid() && b1.worldTransform.Rigid() && threshold >= 0.0
    requires TouchesAt(b0, p0, w) && TouchesAt(b1, p1, w)
    requires Collide(b0, b1, table, threshold).error.None?
    ensures ValidPath(b0.shape, p0) && ValidPath(b1.shape, p1)
    ensures Found(Collide(b0, b1, table, threshold).pairs, Descend(b0, p0), Descend(b1, p1))
    decreases Size(b0.shape) + Size(b1.shape), 2
  {
    hide ChildOverlaps, AabbSound, PairList;
    TouchesValid(b0, p0, w);
    TouchesValid(b1, p1, w);
    var _ := TouchesChild(b0, p0, w);
    var _ := TouchesChild(b1, p1, w);
    var (i, j) := (p0[0], p1[0]);
    PairListIndexed(b0, b1, threshold);
    PairOffered(b0, b1, p0, p1, w, threshold);
    PairsInclude(b0, b1, PairList(b0, b1, threshold), (i, j), threshold);
    RigidTimes(b0.worldTransform, b0.shape.children[i].transform);
    RigidTimes(b1.worldTransform, b1.shape.children[j].transform);
    OverlapAt(b0.Child(i), b1.Child(j), p0[1..], p1[1..], w, threshold);
    SizeOfChild(b0.shape.children, i);
    SizeOfChild(b1.shape.children, j);
    CullingIsConservative(b0.Child(i), b1.Child(j), ChildTable(threshold), threshold, p0[1..], p1[1..], w);
  }

  /** The children of a compound are fit for culling, whatever its own boxes and tree volumes are. */
  ghost predicate ChildrenCovering(s: Shape) {
    s.Compound? && forall i :: 0 <= i < |s.children| ==> Covering(s.children[i].shape) && s.children[i].transform.Rigid()
  }

  ghost predicate LeafMeets(s: seq<Entry>, i: nat, v: Aabb) {
    exists k :: 0 <= k < |s| && s[k].1 == i && s[k].0.Intersect(v)
  }

  lemma OfferedExactly(c: Wrapper, o: Wrapper, i: nat, threshold: real)
    requires c.shape.Compound? && c.shape.tree.Some? && TreesFiled(c.shape)
    ensures i in ChildList(c, o, threshold) <==> LeafMeets(TreeLeaves(c.shape.tree.value), i, QueryVolume(c, o, threshold))
  {
    hide QueryVolume;
    if c.shape.tree.value.Some? {
      var (n, v) := (c.shape.tree.value.value, QueryVolume(c, o, threshold));
      TvIsScan(n, v);
      if i in Hits(Leaves(n), v) { HitsFrom(Leaves(n), v, i); }
      if k :| 0 <= k < |Leaves(n)| && Leaves(n)[k].1 == i && Leaves(n)[k].0.Intersect(v) {
        HitsHas(Leaves(n), v, k);
      }
    }
  }

  /**
   Where the children are fit for culling but the tree over them may be stale,
   a pair of leaves that share a point is dispatched exactly when the volume the
   child is filed under meets the query volume.
   */
  lemma TreeLeafDecides(c: Wrapper, o: Wrapper, threshold: real, pc: seq<nat>, po: seq<nat>, w: Vec3)
    requires c.shape.Compound? && c.shape.tree.Some? && TreesFiled(c.shape) && ChildrenCovering(c.shape)
    requires Indexed(c.shape) && Covering(o.shape) && TreesFiled(o.shape) && Indexed(o.shape)
    requires c.worldTransform.Rigid() && o.worldTransform.Rigid() && threshold >= 0.0 && c.objectId != o.objectId
    requires TouchesAt(c, pc, w) && TouchesAt(o, po, w)
    requires CollideChildren(c, o, threshold).error.None?
    ensures ValidPath(c.shape, pc) && ValidPath(o.shape, po) && pc != []
    ensures Found(CollideChildren(c, o, threshold).pairs, Descend(c, pc), Descend(o, po))
       <==> LeafMeets(TreeLeaves(c.shape.tree.value), pc[0], QueryVolume(c, o, threshold))
  {
    hide ChildOverlaps, Covering, TreesFiled, ChildList, QueryVolume, Indexed, LeafMeets, Transform.Rigid;
    TouchesValid(c, pc, w);
    TouchesValid(o, po, w);
    TouchesStep(c, pc, w);
    var (i, list) := (pc[0], ChildList(c, o, threshold));
    var (x, y) := (Descend(c, pc), Descend(o, po));
    ChildListIndexed(c, o, threshold);
    ChildListDistinct(c, o, threshold);
    OfferedExactly(c, o, i, threshold);
    var pairs := CollideList(c, o, list, threshold).pairs;
    if Found(pairs, x, y) {
      ListOnce(c, o, list, threshold);
      DescendKeeps(c, pc);
      DescendKeeps(o, po);
      var k :| 0 <= k < |pairs| && (pairs[k] == (x, y) || pairs[k] == (y, x));
      assert Key(pairs[k], c.objectId).0 == c.path + pc;
    }
    if i in list {
      ListIncludes(c, o, list, i, threshold);
      RigidTimes(c.worldTransform, c.shape.children[i].transform);
      OverlapAt(c.Child(i), o, pc[1..], po, w, threshold);
      ChildIndexed(c.shape, i);
      CullingIsConservative(c.Child(i), o, ChildTable(threshold), threshold, pc[1..], po, w);
    }
  }

  /** Some leaf filed under `i` and some leaf filed under `j` pass the two-tree test. */
  ghost predicate LeavesMeet(s: seq<Entry>, t: seq<Entry>, i: nat, j: nat, x: Transform, threshold: real) {
    exists k, l :: CrossWitness(s, t, (i, j), k, l, x, threshold)
  }

  lemma PairOfferedExactly(b0: Wrapper, b1: Wrapper, i: nat, j: nat, threshold: real)
    requires b0.shape.Compound? && b1.shape.Compound? && b0.shape.tree.Some? && b1.shape.tree.Some?
    requires TreesFiled(b0.shape) && TreesFiled(b1.shape)
    ensures (i, j) in PairList(b0, b1, threshold)
       <==> LeavesMeet(TreeLeaves(b0.shape.tree.value), TreeLeaves(b1.shape.tree.value), i, j, Relative(b0, b1), threshold)
  {
    hide Relative, CrossWitness;
    var (t0, t1) := (b0.shape.tree.value, b1.shape.tree.value);
    if t0.Some? && t1.Some? {
      TtExact(t0.value, t1.value, (i, j), Relative(b0, b1), threshold);
      assert TreeLeaves(t0) == Leaves(t0.value) && TreeLeaves(t1) == Leaves(t1.value);
    } else {
      NoCrossing(TreeLeaves(t0), TreeLeaves(t1), (i, j), Relative(b0, b1), threshold);
    }
  }

  lemma NoCrossing(s: seq<Entry>, t: seq<Entry>, x: (nat, nat), xform: Transform, threshold: real)
    requires s == [] || t == []
    ensures forall k, l :: !CrossWitness(s, t, x, k, l, xform, threshold)
  {}

  /**
   The same for two compounds with trees: a pair of leaves that share a point is
   dispatched exactly when the two volumes their parents are filed under pass
   the test of the two-tree walk.
   */
  lemma TreeLeavesDecide(b0: Wrapper, b1: Wrapper, table: DispatchTable, threshold: real, p0: seq<nat>, p1: seq<nat>, w: Vec3)
    requires b0.shape.Compound? && b1.shape.Compound? && b0.shape.tree.Some? && b1.shape.tree.Some?
    requires TreesFiled(b0.shape) && TreesFiled(b1.shape) && ChildrenCovering(b0.shape) && ChildrenCovering(b1.shape)
    requires Indexed(b0.shape) && Indexed(b1.shape) && b0.objectId != b1.objectId
    requires b0.worldTransform.Rigid() && b1.worldTransform.Rigid() && threshold >= 0.0
    requires TouchesAt(b0, p0, w) && TouchesAt(b1, p1, w)
    requires Collide(b0, b1, table, threshold).error.None?
    ensures ValidPath(b0.shape, p0) && ValidPath(b1.shape, p1) && p0 != [] && p1 != []
    ensures Found(Collide(b0, b1, table, threshold).pairs, Descend(b0, p0), Descend(b1, p1))
       <==> LeavesMeet(TreeLeaves(b0.shape.tree.value), TreeLeaves(b1.shape.tree.value), p0[0], p1[0],
                       Relative(b0, b1), threshold)
  {
    hide ChildOverlaps, Covering, TreesFiled, PairList, Relative, Indexed, LeavesMeet, Transform.Rigid;
    TouchesValid(b0, p0, w);
    TouchesValid(b1, p1, w);
    TouchesStep(b0, p0, w);
    TouchesStep(b1, p1, w);
    var (i, j, list) := (p0[0], p1[0], PairList(b0, b1, threshold));
    PairListIndexed(b0, b1, threshold);
    PairOfferedExactly(b0, b1, i, j, threshold);
    if Found(CollidePairs(b0, b1, list, threshold).pairs, Descend(b0, p0), Descend(b1, p1)) {
      FoundWasOffered(b0, b1, threshold, p0, p1);
    }
    if (i, j) in list {
      OfferedIsFound(b0, b1, threshold, p0, p1, w);
    }
  }

  lemma FoundWasOffered(b0: Wrapper, b1: Wrapper, threshold: real, p0: seq<nat>, p1: seq<nat>)
    requires b0.shape.Compound? && b1.shape.Compound? && b0.shape.tree.Some? && b1.shape.tree.Some?
    requires TreesFiled(b0.shape) && TreesFiled(b1.shape) && Indexed(b0.shape) && Indexed(b1.shape)
    requires b0.objectId != b1.objectId && ValidPath(b0.shape, p0) && ValidPath(b1.shape, p1) && p0 != [] && p1 != []
    requires PairsBelow(PairList(b0, b1, threshold), |b0.shape.children|, |b1.shape.children|)
    requires Found(CollidePairs(b0, b1, PairList(b0, b1, threshold), threshold).pairs, Descend(b0, p0), Descend(b1, p1))
    ensures (p0[0], p1[0]) in PairList(b0, b1, threshold)
  {
    hide ChildOverlaps, TreesFiled, PairList, Indexed;
    var list := PairList(b0, b1, threshold);
    var pairs := CollidePairs(b0, b1, list, threshold).pairs;
    PairListDistinct(b0, b1, threshold);
    PairsOnce(b0, b1, list, threshold);
    DescendKeeps(b0, p0);
    DescendKeeps(b1, p1);
    var (x, y) := (Descend(b0, p0), Descend(b1, p1));
    var k :| 0 <= k < |pairs| && (pairs[k] == (x, y) || pairs[k] == (y, x));
    assert Key(pairs[k], b0.objectId) == (b0.path + p0, b1.path + p1);
  }

  lemma OfferedIsFound(b0: Wrapper, b1: Wrapper, threshold: real, p0: seq<nat>, p1: seq<nat>, w: Vec3)
    requires b0.shape.Compound? && b1.shape.Compound? && ChildrenCovering(b0.shape) && ChildrenCovering(b1.shape)
    requires Indexed(b0.shape) && Indexed(b1.shape)
    requires b0.worldTransform.Rigid() && b1.worldTransform.Rigid() && threshold >= 0.0
    requires TouchesAt(b0, p0, w) && TouchesAt(b1, p1, w)
    requires b0.shape.tree.Some? && b1.shape.tree.Some?
    requires PairsBelow(PairList(b0, b1, threshold), |b0.shape.children|, |b1.shape.children|)
    requires CollidePairs(b0, b1, PairList(b0, b1, threshold), threshold).error.None?
    requires p0 != [] && p1 != [] && (p0[0], p1[0]) in PairList(b0, b1, threshold)
    ensures ValidPath(b0.shape, p0) && ValidPath(b1.shape, p1)
    ensures Found(CollidePairs(b0, b1, PairList(b0, b1, threshold), threshold).pairs, Descend(b0, p0), Descend(b1, p1))
  {
    hide ChildOverlaps, Covering, PairList, Indexed, Transform.Rigid;
    TouchesValid(b0, p0, w);
    TouchesValid(b1, p1, w);
    TouchesStep(b0, p0, w);
    TouchesStep(b1, p1, w);
    var (i, j) := (p0[0], p1[0]);
    PairsInclude(b0, b1, PairList(b0, b1, threshold), (i, j), threshold);
    RigidTimes(b0.worldTransform, b0.shape.children[i].transform);
    RigidTimes(b1.worldTransform, b1.shape.children[j].transform);
    OverlapAt(b0.Child(i), b1.Child(j), p0[1..], p1[1..], w, threshold);
    ChildIndexed(b0.shape, i);
    ChildIndexed(b1.shape, j);
    CullingIsConservative(b0.Child(i), b1.Child(j), ChildTable(threshold), threshold, p0[1..], p1[1..], w);
  }

  lemma TouchesStep(b: Wrapper, path: seq<nat>, w: Vec3)
    requires b.shape.Compound? && TouchesAt(b, path, w)
    ensures path != [] && path[0] < |b.shape.children| && TouchesAt(b.Child(path[0]), path[1..], w)
  {
    var p :| PathHas(b.shape, path, p) && b.worldTransform.Apply(p) == w;
    var child := b.shape.children[path[0]];
    var q :| PathHas(child.shape, path[1..], q) && child.transform.Apply(q) == p;
    ApplyTimes(b.worldTransform, child.transform, q);
  }

  lemma ChildIndexed(s: Shape, i: nat)
    requires s.Compound? && i < |s.children| && Indexed(s)
    ensures Indexed(s.children[i].shape)
  {}

  /** Trees that file each child once hold indices of children only. */
  lemma {:induction false} FiledIndexed(s: Shape)
    requires TreesFiled(s)
    ensures Indexed(s)
    decreases s
  {
    if s.Compound? {
      forall i | 0 <= i < |s.children| ensures Indexed(s.children[i].shape) {
        FiledIndexed(s.children[i].shape);
      }
    }
  }

  // ---- attribution -------------------------------------------------------

  /**
   At every dispatch the slot that speaks for an object holds the very wrapper
   dispatched for it, the manifold names the dispatched objects in dispatch
   order, each slot's wrapper is a leaf of its own object, and each identifier
   is that leaf's innermost index.
   */
  lemma SlotsNameTheDispatched(b0: Wrapper, b1: Wrapper, table: DispatchTable, threshold: real, first: nat, k: nat)
    requires Indexed(b0.shape) && Indexed(b1.shape) && b0.objectId != b1.objectId
    requires first == b0.objectId || first == b1.objectId
    requires k < |Collide(b0, b1, table, threshold).pairs|
    ensures var d := Events(Collide(b0, b1, table, threshold).pairs, first)[k];
            var (f, s) := if first == b0.objectId then (b0, b1) else (b1, b0);
            && LeafOf(f, d.slot0) && LeafOf(s, d.slot1)
            && d.slot0.objectId == f.objectId && d.slot1.objectId == s.objectId
            && d.slot0.objectTransform == f.objectTransform && d.slot1.objectTransform == s.objectTransform
            && ((d.wrap0 == d.slot0 && d.wrap1 == d.slot1) || (d.wrap0 == d.slot1 && d.wrap1 == d.slot0))
            && d.manifold == (d.wrap0.objectId, d.wrap1.objectId)
            && d.index0 == LastIndex(d.slot0.path) && d.index1 == LastIndex(d.slot1.path)
  {
    var pairs := Collide(b0, b1, table, threshold).pairs;
    DispatchesLeaves(b0, b1, table, threshold);
    assert Leads(b0, b1, pairs[k]);
    if LeafOf(b0, pairs[k].0) && LeafOf(b1, pairs[k].1) {
      LeafOfKeeps(b0, pairs[k].0);
      LeafOfKeeps(b1, pairs[k].1);
    } else {
      LeafOfKeeps(b0, pairs[k].1);
      LeafOfKeeps(b1, pairs[k].0);
    }
  }

  // ---- swept operands ----------------------------------------------------

  /** Every convex leaf is a swept hull. */
  predicate AllHulls(s: Shape) {
    match s
    case Convex(c) => c.CastHull?
    case Compound(children, _, _, _) => forall i :: 0 <= i < |children| ==> AllHulls(children[i].shape)
  }

  /** Every convex leaf reports a convex proxy type. */
  predicate AllConvexTypes(s: Shape) {
    match s
    case Convex(c) => IsConvexType(c.ShapeType())
    case Compound(children, _, _, _) => forall i :: 0 <= i < |children| ==> AllConvexTypes(children[i].shape)
  }

  lemma {:induction false} AllHullsLeaf(b: Wrapper, path: seq<nat>)
    requires AllHulls(b.shape) && ValidPath(b.shape, path)
    ensures AllHulls(Descend(b, path).shape)
    decreases |path|
  {
    if path != [] { AllHullsLeaf(b.Child(path[0]), path[1..]); }
  }

  lemma LeafOfHulls(b: Wrapper, x: Wrapper)
    requires AllHulls(b.shape) && LeafOf(b, x)
    ensures x.shape.Convex? && x.shape.convex.CastHull?
  {
    var path :| ValidPath(b.shape, path) && Descend(b, path) == x;
    AllHullsLeaf(b, path);
  }

  ghost predicate OneSwept(s: Shape, t: Shape) {
    AllConvexTypes(s) && AllConvexTypes(t) && (AllHulls(s) || AllHulls(t))
  }

  /** With a swept operand on one side no dispatch at any depth reaches an unported algorithm. */
  lemma {:induction false} SweptNeverUnported(b0: Wrapper, b1: Wrapper, table: DispatchTable, threshold: real)
    requires Indexed(b0.shape) && Indexed(b1.shape) && OneSwept(b0.shape, b1.shape)
    ensures Collide(b0, b1, table, threshold).error.None?
    decreases Size(b0.shape) + Size(b1.shape), 3
  {
    hide ChildOverlaps, Indexed;
    match (b0.shape, b1.shape)
    case (Convex(_), Convex(_)) =>
    case (Compound(_, _, tree0, _), Compound(_, _, tree1, _)) =>
      if tree0.None? || tree1.None? {
        ChildListIndexed(b0, b1, threshold);
        SweptList(b0, b1, ChildList(b0, b1, threshold), threshold);
      } else {
        PairListIndexed(b0, b1, threshold);
        SweptPairs(b0, b1, PairList(b0, b1, threshold), threshold);
      }
    case (Compound(_, _, _, _), Convex(_)) =>
      ChildListIndexed(b0, b1, threshold);
      SweptList(b0, b1, ChildList(b0, b1, threshold), threshold);
    case (Convex(_), Compound(_, _, _, _)) =>
      ChildListIndexed(b1, b0, threshold);
      SweptList(b1, b0, ChildList(b1, b0, threshold), threshold);
  }

  lemma {:induction false} SweptList(c: Wrapper, o: Wrapper, list: seq<nat>, threshold: real)
    requires c.shape.Compound? && Indexed(c.shape) && Indexed(o.shape) && OneSwept(c.shape, o.shape)
    requires Below(list, |c.shape.children|)
    ensures CollideList(c, o, list, threshold).error.None?
    decreases Size(c.shape) + Size(o.shape), 1, |list|
  {
    hide ChildOverlaps;
    if list != [] {
      SizeOfChild(c.shape.children, list[0]);
      SweptNeverUnported(c.Child(list[0]), o, ChildTable(threshold), threshold);
      SweptList(c, o, list[1..], threshold);
    }
  }

  lemma {:induction false} SweptPairs(b0: Wrapper, b1: Wrapper, list: seq<(nat, nat)>, threshold: real)
    requires b0.shape.Compound? && b1.shape.Compound? && Indexed(b0.shape) && Indexed(b1.shape)
    requires OneSwept(b0.shape, b1.shape) && PairsBelow(list, |b0.shape.children|, |b1.shape.children|)
    ensures CollidePairs(b0, b1, list, threshold).error.None?
    decreases Size(b0.shape) + Size(b1.shape), 1, |list|
  {
    hide ChildOverlaps;
    if list != [] {
      var (i, j) := list[0];
      SizeOfChild(b0.shape.children, i);
      SizeOfChild(b1.shape.children, j);
      SweptNeverUnported(b0.Child(i), b1.Child(j), ChildTable(threshold), threshold);
      SweptPairs(b0, b1, list[1..], threshold);
    }
  }
}
