/**
 The swept twin stands where the original stood, and keeps standing there
 (crates/cspace-bullet-cast/src/cast_object.rs:102-186, 202-267).
 */
module SweptTwin {
  import opened LinearMath
  import opened Wrappers
  import opened Shapes
  import opened Compound
  import opened CompoundAlgorithm
  import opened CompoundProperties
  import opened CollisionObject
  import opened CastObject
  import opened CastReposing

  /** `r` is `s` with every convex leaf swept: same nesting, same placements, and each leaf's own shape inside its hull. */
  ghost predicate Twins(s: Shape, r: Shape) {
    match s
    case Convex(c) => r.Convex? && r.convex.CastHull? && r.convex.shape == c
    case Compound(cs, _, _, _) =>
      && r.Compound? && |r.children| == |cs|
      && forall i :: 0 <= i < |cs| ==> r.children[i].transform == cs[i].transform && Twins(cs[i].shape, r.children[i].shape)
  }

  /** Leaf by leaf: the path that leads to a leaf of the original leads, by the same placements, to the hull over it. */
  lemma {:induction false} SameLeaves(s: Shape, r: Shape, w: Transform, id: nat, o: Transform, at: seq<nat>, path: seq<nat>)
    requires Twins(s, r)
    ensures ValidPath(s, path) <==> ValidPath(r, path)
    ensures ValidPath(s, path) ==>
      var (x, y) := (Descend(Wrapper(s, w, id, o, at), path), Descend(Wrapper(r, w, id, o, at), path));
      && x.worldTransform == y.worldTransform
      && (x.shape.Convex? <==> y.shape.Convex?)
      && (x.shape.Convex? ==> y.shape.convex.CastHull? && y.shape.convex.shape == x.shape.convex)
    decreases |path|
  {
    if path != [] && s.Compound? && path[0] < |s.children| {
      var (c, d) := (s.children[path[0]], r.children[path[0]]);
      SameLeaves(c.shape, d.shape, w.Times(c.transform), id, o, at + [path[0]], path[1..]);
    }
  }

  lemma InHull(c: ConvexShape, d: Transform, p: Vec3)
    requires Has(c, p)
    ensures Has(CastHull(c, d), p)
  {
    assert Placed(c, d, p);
    assert Combine([p], [1.0]) == p.Scale(1.0).Add(Combine([], []));
    assert Total([1.0]) == 1.0 + Total([]);
    assert CombinationOf(c, d, [p], [1.0], p);
  }

  /** Every point of the original is a point of the twin, leaf by leaf. */
  lemma {:induction false} TwinHas(s: Shape, r: Shape, path: seq<nat>, p: Vec3)
    requires Twins(s, r) && PathHas(s, path, p)
    ensures PathHas(r, path, p)
    decreases s
  {
    hide Has, Transform.Apply;
    if s.Convex? {
      InHull(s.convex, r.convex.delta, p);
    } else {
      var (c, d) := (s.children[path[0]], r.children[path[0]]);
      var q :| PathHas(c.shape, path[1..], q) && c.transform.Apply(q) == p;
      TwinHas(c.shape, d.shape, path[1..], q);
      assert PathHas(d.shape, path[1..], q) && d.transform.Apply(q) == p;
    }
  }

  // ---- building ----------------------------------------------------------

  lemma SweepChildTwins(c: Child)
    requires ChildSweepable(c.shape)
    ensures SweepChild(c).transform == c.transform && Twins(c.shape, SweepChild(c).shape)
  {}

  /** The twin as it is built. */
  lemma SweepTwins(s: Shape)
    requires Sweepable(s)
    ensures Twins(s, SweepShape(s))
  {
    hide SweepChild, Built;
    if s.Compound? {
      forall i | 0 <= i < |s.children|
        ensures SweepShape(s).children[i].transform == s.children[i].transform
        ensures Twins(s.children[i].shape, SweepShape(s).children[i].shape)
      {
        SweepChildTwins(s.children[i]);
      }
    }
  }

  // ---- re-posing ---------------------------------------------------------

  lemma TwinsMatch(s: Shape, r: Shape)
    requires Sweepable(s) && Twins(s, r)
    ensures Matches(r, HullsOf(s))
  {
    if s.Compound? {
      forall i | 0 <= i < |s.children| ensures ChildMatches(r.children[i].shape, ChildHullsOf(s.children[i].shape)) {
        assert Twins(s.children[i].shape, r.children[i].shape);
      }
    }
  }

  lemma {:induction false} ReposedLeaves(r: Shape, inners: seq<ConvexShape>, tf1: Transform, tf2: Transform, n: nat)
    requires r.Compound? && |inners| == |r.children| && n <= |inners|
    ensures var t := ReposeHulls(r, inners, tf1, tf2, n);
            && (forall j :: 0 <= j < |inners| ==> t.children[j].transform == r.children[j].transform)
            && (forall j :: 0 <= j < n ==> t.children[j].shape == SweptShape(inners[j], Delta(r.children[j].transform, tf1, tf2)))
            && (forall j :: n <= j < |inners| ==> t.children[j] == r.children[j])
    decreases n
  {
    hide Delta;
    if n > 0 { ReposedLeaves(r, inners, tf1, tf2, n - 1); }
  }

  lemma ReposedChildTwins(c: Child, d: Child, h: ChildHulls, tf1: Transform, tf2: Transform)
    requires ChildSweepable(c.shape) && h == ChildHullsOf(c.shape) && Twins(c.shape, d.shape) && ChildMatches(d.shape, h)
    ensures h.Hull? ==> Twins(c.shape, ReposedLeaf(d, h.inner, tf1, tf2).shape)
    ensures h.Grandchildren? ==> Twins(c.shape, ReposeSecond(d.shape, h.inners, tf1, tf2))
  {
    if h.Grandchildren? { ReposedLeaves(d.shape, h.inners, tf1, tf2, |h.inners|); }
  }

  lemma {:induction false} ReposedChildrenTwins(s: Shape, r: Shape, tf1: Transform, tf2: Transform, n: nat)
    requires Sweepable(s) && s.Compound? && Twins(s, r) && Matches(r, HullsOf(s)) && n <= |s.children|
    ensures Twins(s, ReposeChildren(r, HullsOf(s).children, tf1, tf2, n))
    decreases n
  {
    hide ReposedLeaf, ReposeSecond, ChildHullsOf, Twins;
    if n > 0 {
      ReposedChildrenTwins(s, r, tf1, tf2, n - 1);
      var hs := HullsOf(s).children;
      var t := ReposeChildren(r, hs, tf1, tf2, n - 1);
      TwinsAt(s, t, n - 1);
      ReposedChildTwins(s.children[n - 1], t.children[n - 1], hs[n - 1], tf1, tf2);
      var u := ReposeChild(t, n - 1, hs[n - 1], tf1, tf2);
      assert u.children[n - 1].transform == t.children[n - 1].transform by { KeepsPlace(t, n - 1, hs[n - 1], tf1, tf2); }
      TwinReplaced(s, t, u, n - 1);
    }
  }

  lemma KeepsPlace(t: Shape, i: nat, h: ChildHulls, tf1: Transform, tf2: Transform)
    requires t.Compound? && i < |t.children| && ChildMatches(t.children[i].shape, h)
    ensures ReposeChild(t, i, h, tf1, tf2).children[i].transform == t.children[i].transform
  {}

  lemma TwinsAt(s: Shape, r: Shape, i: nat)
    requires Twins(s, r) && s.Compound? && i < |s.children|
    ensures r.Compound? && |r.children| == |s.children|
    ensures r.children[i].transform == s.children[i].transform && Twins(s.children[i].shape, r.children[i].shape)
  {}

  lemma TwinReplaced(s: Shape, t: Shape, u: Shape, i: nat)
    requires Twins(s, t) && s.Compound? && u.Compound? && i < |s.children| == |u.children| && t.Compound?
    requires |t.children| == |s.children| && forall k :: 0 <= k < |s.children| && k != i ==> u.children[k] == t.children[k]
    requires u.children[i].transform == t.children[i].transform && Twins(s.children[i].shape, u.children[i].shape)
    ensures Twins(s, u)
  {}

  /** Re-posing keeps the twin a twin: every leaf gets the handle of its own shape. */
  lemma ReposeTwins(s: Shape, r: Shape, tf1: Transform, tf2: Transform)
    requires Sweepable(s) && Twins(s, r)
    ensures Matches(r, HullsOf(s)) && Twins(s, Repose(r, HullsOf(s), tf1, tf2))
  {
    TwinsMatch(s, r);
    if s.Compound? { ReposedChildrenTwins(s, r, tf1, tf2, |s.children|); }
  }

  /** The twin after a sequence of re-posings: still a twin. */
  ghost function AfterRun(s: Shape, run: seq<(Transform, Transform)>): (r: Shape)
    requires Sweepable(s)
    ensures Matches(r, HullsOf(s)) && Twins(s, r)
    decreases |run|
  {
    if run == [] then
      SweepTwins(s);
      TwinsMatch(s, SweepShape(s));
      SweepShape(s)
    else
      var (r, poses) := (AfterRun(s, run[..|run| - 1]), run[|run| - 1]);
      ReposeTwins(s, r, poses.0, poses.1);
      TwinsMatch(s, Repose(r, HullsOf(s), poses.0, poses.1));
      Repose(r, HullsOf(s), poses.0, poses.1)
  }
}
