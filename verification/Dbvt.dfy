/**
 The dynamic bounding-volume tree a compound shape keeps over its children
 (crates/cspace-bullet/src/dbvt.rs), as a value: node identity, the parent
 links and the one-node free slot of the original are not represented.
 */
module Dbvt {
  import opened LinearMath
  import opened Wrappers

  datatype Node =
    | Leaf(volume: Aabb, data: nat)
    | Inner(volume: Aabb, left: Node, right: Node)

  /** A leaf as a pair of its volume and the child index stored in it. */
  type Entry = (Aabb, nat)

  /** The leaves in the order the traversals reach them: the right subtree first. */
  function Leaves(n: Node): seq<Entry> {
    match n
    case Leaf(v, d) => [(v, d)]
    case Inner(_, l, r) => Leaves(r) + Leaves(l)
  }

  ghost predicate Nested(n: Node) {
    match n
    case Leaf(_, _) => true
    case Inner(v, l, r) => v.Contain(l.volume) && v.Contain(r.volume) && Nested(l) && Nested(r)
  }

  function TreeLeaves(t: Option<Node>): seq<Entry> {
    if t.None? then [] else Leaves(t.value)
  }

  ghost predicate TreeNested(t: Option<Node>) { t.Some? ==> Nested(t.value) }

  lemma {:induction false} LeavesInside(n: Node, k: nat)
    requires Nested(n) && k < |Leaves(n)|
    ensures n.volume.Contain(Leaves(n)[k].0)
  {
    match n
    case Leaf(_, _) =>
    case Inner(_, l, r) =>
      if k < |Leaves(r)| { LeavesInside(r, k); } else { LeavesInside(l, k - |Leaves(r)|); }
  }

  // ---- one volume against a tree -----------------------------------------

  /** The child indices `collide_tv_no_stack_alloc` hands to its policy, in order. */
  function Tv(n: Node, b: Aabb): seq<nat> {
    if !n.volume.Intersect(b) then []
    else match n
      case Leaf(_, d) => [d]
      case Inner(_, l, r) => Tv(r, b) + Tv(l, b)
  }

  /** The naive scan: every leaf tested on its own. */
  function Hits(s: seq<Entry>, b: Aabb): seq<nat> {
    if s == [] then []
    else (if s[0].0.Intersect(b) then [s[0].1] else []) + Hits(s[1..], b)
  }

  lemma {:induction false} HitsConcat(s: seq<Entry>, t: seq<Entry>, b: Aabb)
    ensures Hits(s + t, b) == Hits(s, b) + Hits(t, b)
  {
    if s == [] {
      assert s + t == t;
    } else {
      assert (s + t)[1..] == s[1..] + t;
      HitsConcat(s[1..], t, b);
    }
  }

  lemma {:induction false} HitsNone(s: seq<Entry>, b: Aabb)
    requires forall k :: 0 <= k < |s| ==> !s[k].0.Intersect(b)
    ensures Hits(s, b) == []
  {
    if s != [] { HitsNone(s[1..], b); }
  }

  /** Culling subtrees changes neither the leaves found nor their order. */
  lemma {:induction false} TvIsScan(n: Node, b: Aabb)
    requires Nested(n)
    ensures Tv(n, b) == Hits(Leaves(n), b)
  {
    if !n.volume.Intersect(b) {
      forall k | 0 <= k < |Leaves(n)| ensures !Leaves(n)[k].0.Intersect(b) {
        LeavesInside(n, k);
        if Leaves(n)[k].0.Intersect(b) { ContainIntersect(n.volume, Leaves(n)[k].0, b); }
      }
      HitsNone(Leaves(n), b);
    } else {
      match n
      case Leaf(v, d) =>
      case Inner(_, l, r) =>
        TvIsScan(l, b);
        TvIsScan(r, b);
        HitsConcat(Leaves(r), Leaves(l), b);
    }
  }

  lemma {:induction false} HitsHas(s: seq<Entry>, b: Aabb, k: nat)
    requires k < |s| && s[k].0.Intersect(b)
    ensures s[k].1 in Hits(s, b)
  {
    if k > 0 { HitsHas(s[1..], b, k - 1); }
  }

  lemma {:induction false} HitsFrom(s: seq<Entry>, b: Aabb, i: nat)
    requires i in Hits(s, b)
    ensures exists k :: 0 <= k < |s| && s[k].1 == i && s[k].0.Intersect(b)
  {
    if s[0].0.Intersect(b) && i == s[0].1 {
    } else {
      HitsFrom(s[1..], b, i);
      var k :| 0 <= k < |s[1..]| && s[1..][k].1 == i && s[1..][k].0.Intersect(b);
      assert s[k + 1] == s[1..][k];
    }
  }

  ghost predicate Distinct<T>(s: seq<T>) {
    forall i, j :: 0 <= i < j < |s| ==> s[i] != s[j]
  }

  ghost predicate DistinctData(s: seq<Entry>) {
    forall i, j :: 0 <= i < j < |s| ==> s[i].1 != s[j].1
  }

  lemma DistinctConcat<T>(s: seq<T>, t: seq<T>)
    requires Distinct(s) && Distinct(t)
    requires forall x :: x in s ==> x !in t
    ensures Distinct(s + t)
  {
    forall i, j | 0 <= i < j < |s + t| ensures (s + t)[i] != (s + t)[j] {
      if i < |s| <= j {
        assert (s + t)[i] in s;
        assert (s + t)[j] in t;
      }
    }
  }

  lemma {:induction false} HitsDistinct(s: seq<Entry>, b: Aabb)
    requires DistinctData(s)
    ensures Distinct(Hits(s, b))
  {
    if s != [] {
      HitsDistinct(s[1..], b);
      forall k | 0 <= k < |s[1..]| ensures s[1..][k].1 != s[0].1 {
        assert s[1..][k] == s[k + 1];
      }
      if s[0].1 in Hits(s[1..], b) { HitsFrom(s[1..], b, s[0].1); }
    }
  }

  // ---- two trees ---------------------------------------------------------

  /** `my_intersect`: tree 1's volume re-fitted in tree 0's frame and grown by the threshold. */
  predicate MyIntersect(a: Aabb, b: Aabb, xform: Transform, threshold: real) {
    a.Intersect(TransformAabb(b, 0.0, xform).Expand(threshold))
  }

  /** Monotone: boxes around an intersecting pair intersect too. */
  lemma MyIntersectMonotone(a: Aabb, b: Aabb, a': Aabb, b': Aabb, xform: Transform, threshold: real)
    requires a.Contain(a') && b.Contain(b') && MyIntersect(a', b', xform, threshold)
    ensures MyIntersect(a, b, xform, threshold)
  {
    RefitMonotone(b', b, 0.0, xform);
  }

  function Height(n: Node): nat {
    match n
    case Leaf(_, _) => 0
    case Inner(_, l, r) => 1 + Height(l) + Height(r)
  }

  /** The leaf pairs `my_collide_tt` hands to its callback, in order. */
  function Tt(a: Node, b: Node, xform: Transform, threshold: real): seq<(nat, nat)>
    decreases Height(a) + Height(b)
  {
    if !MyIntersect(a.volume, b.volume, xform, threshold) then []
    else match (a, b)
      case (Inner(_, a0, a1), Inner(_, b0, b1)) =>
        Tt(a1, b1, xform, threshold) + Tt(a0, b1, xform, threshold)
          + Tt(a1, b0, xform, threshold) + Tt(a0, b0, xform, threshold)
      case (Inner(_, a0, a1), Leaf(_, _)) => Tt(a1, b, xform, threshold) + Tt(a0, b, xform, threshold)
      case (Leaf(_, _), Inner(_, b0, b1)) => Tt(a, b1, xform, threshold) + Tt(a, b0, xform, threshold)
      case (Leaf(_, i), Leaf(_, j)) => [(i, j)]
  }

  /** One row of the double loop. */
  function Row(e: Entry, t: seq<Entry>, xform: Transform, threshold: real): seq<(nat, nat)> {
    if t == [] then []
    else (if MyIntersect(e.0, t[0].0, xform, threshold) then [(e.1, t[0].1)] else [])
         + Row(e, t[1..], xform, threshold)
  }

  /** The double loop over every pair of leaves. */
  function Cross(s: seq<Entry>, t: seq<Entry>, xform: Transform, threshold: real): seq<(nat, nat)> {
    if s == [] then [] else Row(s[0], t, xform, threshold) + Cross(s[1..], t, xform, threshold)
  }

  lemma {:induction false} RowConcat(e: Entry, t: seq<Entry>, u: seq<Entry>, xform: Transform, threshold: real)
    ensures Row(e, t + u, xform, threshold) == Row(e, t, xform, threshold) + Row(e, u, xform, threshold)
  {
    if t == [] {
      assert t + u == u;
    } else {
      assert (t + u)[1..] == t[1..] + u;
      RowConcat(e, t[1..], u, xform, threshold);
    }
  }

  lemma {:induction false} CrossLeft(s: seq<Entry>, s': seq<Entry>, t: seq<Entry>, xform: Transform, threshold: real)
    ensures Cross(s + s', t, xform, threshold) == Cross(s, t, xform, threshold) + Cross(s', t, xform, threshold)
  {
    if s == [] {
      assert s + s' == s';
    } else {
      assert (s + s')[1..] == s[1..] + s';
      CrossLeft(s[1..], s', t, xform, threshold);
    }
  }

  lemma {:induction false} CrossRight(s: seq<Entry>, t: seq<Entry>, u: seq<Entry>, xform: Transform, threshold: real)
    ensures multiset(Cross(s, t + u, xform, threshold))
         == multiset(Cross(s, t, xform, threshold)) + multiset(Cross(s, u, xform, threshold))
  {
    if s != [] {
      RowConcat(s[0], t, u, xform, threshold);
      CrossRight(s[1..], t, u, xform, threshold);
    }
  }

  lemma {:induction false} RowNone(e: Entry, t: seq<Entry>, xform: Transform, threshold: real)
    requires forall k :: 0 <= k < |t| ==> !MyIntersect(e.0, t[k].0, xform, threshold)
    ensures Row(e, t, xform, threshold) == []
  {
    if t != [] { RowNone(e, t[1..], xform, threshold); }
  }

  lemma {:induction false} CrossNone(s: seq<Entry>, t: seq<Entry>, xform: Transform, threshold: real)
    requires forall i, k :: 0 <= i < |s| && 0 <= k < |t| ==> !MyIntersect(s[i].0, t[k].0, xform, threshold)
    ensures Cross(s, t, xform, threshold) == []
  {
    if s != [] {
      RowNone(s[0], t, xform, threshold);
      forall i, k | 0 <= i < |s[1..]| && 0 <= k < |t|
        ensures !MyIntersect(s[1..][i].0, t[k].0, xform, threshold)
      {
        assert s[1..][i] == s[i + 1];
      }
      CrossNone(s[1..], t, xform, threshold);
    }
  }

  /** The culled two-tree walk reaches exactly the pairs the double loop does, with the same counts. */
  lemma {:induction false} TtIsDoubleLoop(a: Node, b: Node, xform: Transform, threshold: real)
    requires Nested(a) && Nested(b)
    ensures multiset(Tt(a, b, xform, threshold)) == multiset(Cross(Leaves(a), Leaves(b), xform, threshold))
    decreases Height(a) + Height(b)
  {
    hide MyIntersect;
    if !MyIntersect(a.volume, b.volume, xform, threshold) {
      TtPruned(a, b, xform, threshold);
    } else {
      match (a, b)
      case (Inner(_, a0, a1), Inner(_, b0, b1)) =>
        TtIsDoubleLoop(a1, b1, xform, threshold);
        TtIsDoubleLoop(a0, b1, xform, threshold);
        TtIsDoubleLoop(a1, b0, xform, threshold);
        TtIsDoubleLoop(a0, b0, xform, threshold);
        CrossRight(Leaves(a), Leaves(b1), Leaves(b0), xform, threshold);
        CrossLeft(Leaves(a1), Leaves(a0), Leaves(b1), xform, threshold);
        CrossLeft(Leaves(a1), Leaves(a0), Leaves(b0), xform, threshold);
      case (Inner(_, a0, a1), Leaf(_, _)) =>
        TtIsDoubleLoop(a1, b, xform, threshold);
        TtIsDoubleLoop(a0, b, xform, threshold);
        CrossLeft(Leaves(a1), Leaves(a0), Leaves(b), xform, threshold);
      case (Leaf(_, _), Inner(_, b0, b1)) =>
        TtIsDoubleLoop(a, b1, xform, threshold);
        TtIsDoubleLoop(a, b0, xform, threshold);
        CrossRight(Leaves(a), Leaves(b1), Leaves(b0), xform, threshold);
      case (Leaf(v, i), Leaf(w, j)) =>
        assert Leaves(a)[1..] == [] && Leaves(b)[1..] == [];
        assert Row(Leaves(a)[0], Leaves(b), xform, threshold) == [(i, j)];
        assert Cross(Leaves(a), Leaves(b), xform, threshold) == [(i, j)];
    }
  }

  lemma TtPruned(a: Node, b: Node, xform: Transform, threshold: real)
    requires Nested(a) && Nested(b) && !MyIntersect(a.volume, b.volume, xform, threshold)
    ensures Cross(Leaves(a), Leaves(b), xform, threshold) == []
  {
    forall i, k | 0 <= i < |Leaves(a)| && 0 <= k < |Leaves(b)|
      ensures !MyIntersect(Leaves(a)[i].0, Leaves(b)[k].0, xform, threshold)
    {
      LeavesInside(a, i);
      LeavesInside(b, k);
      if MyIntersect(Leaves(a)[i].0, Leaves(b)[k].0, xform, threshold) {
        MyIntersectMonotone(a.volume, b.volume, Leaves(a)[i].0, Leaves(b)[k].0, xform, threshold);
      }
    }
    CrossNone(Leaves(a), Leaves(b), xform, threshold);
  }

  lemma {:induction false} RowHas(e: Entry, t: seq<Entry>, k: nat, xform: Transform, threshold: real)
    requires k < |t| && MyIntersect(e.0, t[k].0, xform, threshold)
    ensures (e.1, t[k].1) in Row(e, t, xform, threshold)
  {
    if k > 0 { RowHas(e, t[1..], k - 1, xform, threshold); }
  }

  lemma {:induction false} CrossHas(s: seq<Entry>, t: seq<Entry>, i: nat, k: nat, xform: Transform, threshold: real)
    requires i < |s| && k < |t| && MyIntersect(s[i].0, t[k].0, xform, threshold)
    ensures (s[i].1, t[k].1) in Cross(s, t, xform, threshold)
  {
    if i == 0 {
      RowHas(s[0], t, k, xform, threshold);
    } else {
      CrossHas(s[1..], t, i - 1, k, xform, threshold);
    }
  }

  lemma {:induction false} RowFrom(e: Entry, t: seq<Entry>, x: (nat, nat), xform: Transform, threshold: real)
    requires x in Row(e, t, xform, threshold)
    ensures x.0 == e.1
    ensures exists k :: 0 <= k < |t| && t[k].1 == x.1 && MyIntersect(e.0, t[k].0, xform, threshold)
  {
    if MyIntersect(e.0, t[0].0, xform, threshold) && x == (e.1, t[0].1) {
    } else {
      RowFrom(e, t[1..], x, xform, threshold);
      var k :| 0 <= k < |t[1..]| && t[1..][k].1 == x.1 && MyIntersect(e.0, t[1..][k].0, xform, threshold);
      assert t[k + 1] == t[1..][k];
    }
  }

  ghost predicate CrossWitness(s: seq<Entry>, t: seq<Entry>, x: (nat, nat), i: int, k: int, xform: Transform, threshold: real) {
    0 <= i < |s| && 0 <= k < |t| && s[i].1 == x.0 && t[k].1 == x.1 && MyIntersect(s[i].0, t[k].0, xform, threshold)
  }

  lemma {:induction false} CrossFrom(s: seq<Entry>, t: seq<Entry>, x: (nat, nat), xform: Transform, threshold: real)
    requires x in Cross(s, t, xform, threshold)
    ensures exists i, k :: CrossWitness(s, t, x, i, k, xform, threshold)
  {
    if x in Row(s[0], t, xform, threshold) {
      RowFrom(s[0], t, x, xform, threshold);
      var k :| 0 <= k < |t| && t[k].1 == x.1 && MyIntersect(s[0].0, t[k].0, xform, threshold);
      assert CrossWitness(s, t, x, 0, k, xform, threshold);
    } else {
      CrossFrom(s[1..], t, x, xform, threshold);
      var i, k :| CrossWitness(s[1..], t, x, i, k, xform, threshold);
      assert s[i + 1] == s[1..][i];
      assert CrossWitness(s, t, x, i + 1, k, xform, threshold);
    }
  }

  lemma {:induction false} RowDistinct(e: Entry, t: seq<Entry>, xform: Transform, threshold: real)
    requires DistinctData(t)
    ensures Distinct(Row(e, t, xform, threshold))
  {
    if t != [] {
      RowDistinct(e, t[1..], xform, threshold);
      forall k | 0 <= k < |t[1..]| ensures t[1..][k].1 != t[0].1 {
        assert t[1..][k] == t[k + 1];
      }
      if (e.1, t[0].1) in Row(e, t[1..], xform, threshold) {
        RowFrom(e, t[1..], (e.1, t[0].1), xform, threshold);
      }
    }
  }

  lemma {:induction false} CrossDistinct(s: seq<Entry>, t: seq<Entry>, xform: Transform, threshold: real)
    requires DistinctData(s) && DistinctData(t)
    ensures Distinct(Cross(s, t, xform, threshold))
  {
    if s != [] {
      RowDistinct(s[0], t, xform, threshold);
      CrossDistinct(s[1..], t, xform, threshold);
      forall k | 0 <= k < |s[1..]| ensures s[1..][k].1 != s[0].1 {
        assert s[1..][k] == s[k + 1];
      }
      forall x | x in Row(s[0], t, xform, threshold)
        ensures x !in Cross(s[1..], t, xform, threshold)
      {
        RowFrom(s[0], t, x, xform, threshold);
        if x in Cross(s[1..], t, xform, threshold) {
          CrossFrom(s[1..], t, x, xform, threshold);
        }
      }
      DistinctConcat(Row(s[0], t, xform, threshold), Cross(s[1..], t, xform, threshold));
    }
  }

  // ---- distinctness through multisets ------------------------------------

  lemma CountTwice<T>(s: seq<T>, i: nat, j: nat)
    requires i < j < |s| && s[i] == s[j]
    ensures multiset(s)[s[i]] >= 2
  {
    assert s == s[..j] + s[j..];
    assert s[i] in s[..j] by { assert s[..j][i] == s[i]; }
    assert s[j] in s[j..] by { assert s[j..][0] == s[j]; }
  }

  lemma {:induction false} CountOnce<T>(s: seq<T>, x: T)
    requires Distinct(s)
    ensures multiset(s)[x] <= 1
  {
    if s != [] {
      CountOnce(s[1..], x);
      assert s == [s[0]] + s[1..];
      if s[0] == x {
        forall k | 0 <= k < |s[1..]| ensures s[1..][k] != s[0] {
          assert s[1..][k] == s[k + 1];
        }
        assert multiset(s[1..])[x] == 0;
      }
    }
  }

  lemma DistinctByCount<T>(s: seq<T>, t: seq<T>)
    requires Distinct(t) && multiset(s) == multiset(t)
    ensures Distinct(s)
  {
    forall i, j | 0 <= i < j < |s| ensures s[i] != s[j] {
      if s[i] == s[j] {
        CountTwice(s, i, j);
        CountOnce(t, s[i]);
      }
    }
  }

  lemma MemberByCount<T>(s: seq<T>, t: seq<T>, x: T)
    requires multiset(s) == multiset(t)
    ensures x in s <==> x in t
  {
    assert x in s <==> x in multiset(s);
    assert x in t <==> x in multiset(t);
  }

  /** The two-tree walk hands over no pair twice. */
  lemma TtDistinct(a: Node, b: Node, xform: Transform, threshold: real)
    requires Nested(a) && Nested(b) && DistinctData(Leaves(a)) && DistinctData(Leaves(b))
    ensures Distinct(Tt(a, b, xform, threshold))
  {
    TtIsDoubleLoop(a, b, xform, threshold);
    CrossDistinct(Leaves(a), Leaves(b), xform, threshold);
    DistinctByCount(Tt(a, b, xform, threshold), Cross(Leaves(a), Leaves(b), xform, threshold));
  }

  /** Exactly the leaf pairs that satisfy `my_intersect`. */
  lemma TtExact(a: Node, b: Node, x: (nat, nat), xform: Transform, threshold: real)
    requires Nested(a) && Nested(b)
    ensures x in Tt(a, b, xform, threshold) <==>
            exists i, k :: CrossWitness(Leaves(a), Leaves(b), x, i, k, xform, threshold)
  {
    TtIsDoubleLoop(a, b, xform, threshold);
    MemberByCount(Tt(a, b, xform, threshold), Cross(Leaves(a), Leaves(b), xform, threshold), x);
    if x in Cross(Leaves(a), Leaves(b), xform, threshold) {
      CrossFrom(Leaves(a), Leaves(b), x, xform, threshold);
    }
    if i, k :| CrossWitness(Leaves(a), Leaves(b), x, i, k, xform, threshold) {
      CrossHas(Leaves(a), Leaves(b), i, k, xform, threshold);
    }
  }

  // ---- edits -------------------------------------------------------------

  function Proximity(a: Aabb, b: Aabb): real {
    var d := a.mi.Add(a.mx).Sub(b.mi.Add(b.mx));
    Abs(d.x) + Abs(d.y) + Abs(d.z)
  }

  /** `select`: a tie goes to the second child. */
  predicate SelectsFirst(o: Aabb, a: Aabb, b: Aabb) { Proximity(o, a) < Proximity(o, b) }

  /** `insert_leaf`: descend by `select`, pair up with the leaf found, widen on the way back. */
  function InsertLeaf(n: Node, v: Aabb, data: nat): Node {
    match n
    case Leaf(w, _) => Inner(v.Merge(w), n, Leaf(v, data))
    case Inner(w, l, r) =>
      if SelectsFirst(v, l.volume, r.volume) then
        var l' := InsertLeaf(l, v, data);
        Inner(Widen(w, l'.volume, l'.volume, r.volume), l', r)
      else
        var r' := InsertLeaf(r, v, data);
        Inner(Widen(w, r'.volume, l.volume, r'.volume), l, r')
  }

  /** A parent's volume stays if it still holds the changed child, and is re-merged otherwise. */
  function Widen(w: Aabb, changed: Aabb, l: Aabb, r: Aabb): Aabb {
    if w.Contain(changed) then w else l.Merge(r)
  }

  function Insert(t: Option<Node>, v: Aabb, data: nat): Option<Node> {
    if t.None? then Some(Leaf(v, data)) else Some(InsertLeaf(t.value, v, data))
  }

  /** Twice how far the centres of two boxes lie apart, axis by axis. */
  function Gap(a: Aabb, b: Aabb): real {
    Abs((a.mi.x + a.mx.x) - (b.mi.x + b.mx.x)) + Abs((a.mi.y + a.mx.y) - (b.mi.y + b.mx.y))
    + Abs((a.mi.z + a.mx.z) - (b.mi.z + b.mx.z))
  }

  /** Going at each branching to the child with the nearer centre, the second on a tie, leads to the `k`-th leaf visited. */
  ghost predicate LeadsTo(n: Node, v: Aabb, k: nat) {
    match n
    case Leaf(_, _) => k == 0
    case Inner(_, l, r) =>
      if Gap(v, l.volume) < Gap(v, r.volume) then k >= |Leaves(r)| && LeadsTo(l, v, k - |Leaves(r)|)
      else k < |Leaves(r)| && LeadsTo(r, v, k)
  }

  lemma ProximityIsGap(a: Aabb, b: Aabb)
    ensures Proximity(a, b) == Gap(a, b)
  {
    var d := a.mi.Add(a.mx).Sub(b.mi.Add(b.mx));
    assert d.x == (a.mi.x + a.mx.x) - (b.mi.x + b.mx.x) && d.y == (a.mi.y + a.mx.y) - (b.mi.y + b.mx.y)
        && d.z == (a.mi.z + a.mx.z) - (b.mi.z + b.mx.z);
    hide Abs;
  }

  lemma SelectsByGap(v: Aabb, a: Aabb, b: Aabb)
    ensures SelectsFirst(v, a, b) <==> Gap(v, a) < Gap(v, b)
  {
    hide Gap, Proximity;
    ProximityIsGap(v, a);
    ProximityIsGap(v, b);
  }

  /** One branching of the way down. */
  lemma InsertStep(n: Node, v: Aabb, data: nat)
    requires n.Inner?
    ensures Leaves(n) == Leaves(n.right) + Leaves(n.left)
    ensures SelectsFirst(v, n.left.volume, n.right.volume) ==>
      && Leaves(InsertLeaf(n, v, data)) == Leaves(n.right) + Leaves(InsertLeaf(n.left, v, data))
      && forall i: nat {:trigger LeadsTo(n.left, v, i)} :: LeadsTo(n.left, v, i) ==> LeadsTo(n, v, i + |Leaves(n.right)|)
    ensures !SelectsFirst(v, n.left.volume, n.right.volume) ==>
      && Leaves(InsertLeaf(n, v, data)) == Leaves(InsertLeaf(n.right, v, data)) + Leaves(n.left)
      && forall i: nat {:trigger LeadsTo(n.right, v, i)} ::
           i < |Leaves(n.right)| && LeadsTo(n.right, v, i) ==> LeadsTo(n, v, i)
  {
    hide Gap, SelectsFirst, Widen;
    SelectsByGap(v, n.left.volume, n.right.volume);
  }

  /** A new leaf is filed beside the leaf that leads to, and is visited just before it; the others keep their order. */
  lemma {:induction false} InsertBeside(n: Node, v: Aabb, data: nat) returns (k: nat)
    ensures k < |Leaves(n)| && LeadsTo(n, v, k)
    ensures Leaves(InsertLeaf(n, v, data)) == Leaves(n)[..k] + [(v, data)] + Leaves(n)[k..]
    decreases n, 1
  {
    if n.Leaf? {
      k := 0;
      assert Leaves(n)[..0] == [] && Leaves(n)[0..] == Leaves(n);
    } else {
      k := BesideInner(n, v, data);
    }
  }

  lemma {:induction false} BesideInner(n: Node, v: Aabb, data: nat) returns (k: nat)
    requires n.Inner?
    ensures k < |Leaves(n)| && LeadsTo(n, v, k)
    ensures Leaves(InsertLeaf(n, v, data)) == Leaves(n)[..k] + [(v, data)] + Leaves(n)[k..]
    decreases n, 0
  {
    hide Leaves, InsertLeaf, LeadsTo, SelectsFirst;
    InsertStep(n, v, data);
    if SelectsFirst(v, n.left.volume, n.right.volume) {
      var i := InsertBeside(n.left, v, data);
      k := i + |Leaves(n.right)|;
      SplicedSecond(Leaves(n.right), Leaves(n.left), i, (v, data));
    } else {
      k := InsertBeside(n.right, v, data);
      SplicedFirst(Leaves(n.right), Leaves(n.left), k, (v, data));
    }
  }

  lemma SplicedSecond<T>(s: seq<T>, t: seq<T>, i: nat, x: T)
    requires i <= |t|
    ensures s + (t[..i] + [x] + t[i..]) == (s + t)[..i + |s|] + [x] + (s + t)[i + |s|..]
  {}

  lemma SplicedFirst<T>(s: seq<T>, t: seq<T>, i: nat, x: T)
    requires i <= |s|
    ensures (s[..i] + [x] + s[i..]) + t == (s + t)[..i] + [x] + (s + t)[i..]
  {}

  /** `remove_leaf`: the sibling takes the parent's place and the volumes above are re-merged. */
  function Remove(n: Node, data: nat): Option<Node> {
    match n
    case Leaf(_, d) => if d == data then None else Some(n)
    case Inner(w, l, r) =>
      match (Remove(l, data), Remove(r, data))
      case (None, _) => Some(r)
      case (_, None) => Some(l)
      case (Some(l'), Some(r')) => if l' == l && r' == r then Some(n) else Some(Inner(l'.volume.Merge(r'.volume), l', r'))
  }

  /** `update`: take the leaf out and insert it again with its new volume. */
  function Update(t: Option<Node>, v: Aabb, data: nat): Option<Node> {
    if t.None? then None else Insert(Remove(t.value, data), v, data)
  }

  lemma MergeContains(a: Aabb, b: Aabb)
    ensures a.Merge(b).Contain(a) && a.Merge(b).Contain(b)
  {}

  lemma {:induction false} InsertLeafNested(n: Node, v: Aabb, data: nat)
    requires Nested(n)
    ensures Nested(InsertLeaf(n, v, data))
  {
    match n
    case Leaf(w, d) => MergeContains(v, w);
    case Inner(w, l, r) =>
      if SelectsFirst(v, l.volume, r.volume) {
        InsertLeafNested(l, v, data);
        MergeContains(InsertLeaf(l, v, data).volume, r.volume);
      } else {
        InsertLeafNested(r, v, data);
        MergeContains(l.volume, InsertLeaf(r, v, data).volume);
      }
  }

  lemma InsertLeafAdds(n: Node, v: Aabb, data: nat)
    ensures multiset(Leaves(InsertLeaf(n, v, data))) == multiset(Leaves(n)) + multiset{(v, data)}
  {
    hide Leaves, InsertLeaf, LeadsTo;
    var k := InsertBeside(n, v, data);
    var s := Leaves(n);
    assert s == s[..k] + s[k..];
  }

  lemma InsertKeeps(t: Option<Node>, v: Aabb, data: nat)
    requires TreeNested(t)
    ensures TreeNested(Insert(t, v, data))
    ensures multiset(TreeLeaves(Insert(t, v, data))) == multiset(TreeLeaves(t)) + multiset{(v, data)}
  {
    if t.Some? {
      InsertLeafNested(t.value, v, data);
      InsertLeafAdds(t.value, v, data);
    }
  }

  /** Every entry but the ones filed under `data`, in order. */
  function Without(s: seq<Entry>, data: nat): seq<Entry> {
    if s == [] then [] else (if s[0].1 == data then [] else [s[0]]) + Without(s[1..], data)
  }

  lemma {:induction false} WithoutConcat(s: seq<Entry>, t: seq<Entry>, data: nat)
    ensures Without(s + t, data) == Without(s, data) + Without(t, data)
  {
    if s == [] {
      assert s + t == t;
    } else {
      assert (s + t)[1..] == s[1..] + t;
      WithoutConcat(s[1..], t, data);
    }
  }

  lemma {:induction false} WithoutAbsent(s: seq<Entry>, data: nat)
    requires forall k :: 0 <= k < |s| ==> s[k].1 != data
    ensures Without(s, data) == s
  {
    if s != [] { WithoutAbsent(s[1..], data); }
  }

  lemma {:induction false} WithoutSplit(s: seq<Entry>, k: nat)
    requires k < |s| && DistinctData(s)
    ensures multiset(Without(s, s[k].1)) == multiset(s) - multiset{s[k]}
  {
    assert s == s[..k] + ([s[k]] + s[k + 1..]);
    WithoutConcat(s[..k], [s[k]] + s[k + 1..], s[k].1);
    WithoutConcat([s[k]], s[k + 1..], s[k].1);
    WithoutAbsent(s[..k], s[k].1);
    WithoutAbsent(s[k + 1..], s[k].1);
    var one := [s[k]];
    assert one[1..] == [] && Without(one, s[k].1) == [];
  }

  lemma DistinctParts(r: seq<Entry>, l: seq<Entry>)
    requires DistinctData(r + l)
    ensures DistinctData(r) && DistinctData(l)
    ensures forall i, j :: 0 <= i < |r| && 0 <= j < |l| ==> r[i].1 != l[j].1
  {
    var s := r + l;
    assert r == s[..|r|] && l == s[|r|..];
    forall i, j | 0 <= i < |r| && 0 <= j < |l| ensures r[i].1 != l[j].1 {
      assert s[i] == r[i] && s[|r| + j] == l[j];
    }
  }

  lemma {:induction false} RemoveLeaves(n: Node, data: nat)
    requires DistinctData(Leaves(n))
    ensures TreeLeaves(Remove(n, data)) == Without(Leaves(n), data)
    ensures Remove(n, data).None? ==> n == Leaf(n.volume, data)
  {
    match n
    case Leaf(_, _) => assert Leaves(n)[1..] == [];
    case Inner(w, l, r) =>
      DistinctParts(Leaves(r), Leaves(l));
      RemoveLeaves(l, data);
      RemoveLeaves(r, data);
      WithoutConcat(Leaves(r), Leaves(l), data);
      if Remove(l, data).None? {
        assert Leaves(l)[0].1 == data;
        WithoutAbsent(Leaves(r), data);
      } else if Remove(r, data).None? {
        assert Leaves(r)[0].1 == data;
        WithoutAbsent(Leaves(l), data);
      }
  }

  lemma {:induction false} RemoveNested(n: Node, data: nat)
    requires Nested(n)
    ensures TreeNested(Remove(n, data))
  {
    match n
    case Leaf(_, _) =>
    case Inner(w, l, r) =>
      RemoveNested(l, data);
      RemoveNested(r, data);
      if Remove(l, data).Some? && Remove(r, data).Some? {
        MergeContains(Remove(l, data).value.volume, Remove(r, data).value.volume);
      }
  }

  /** Updating the leaf filed under `data` swaps that one entry and keeps the nesting. */
  lemma UpdateKeeps(t: Option<Node>, k: nat, v: Aabb)
    requires TreeNested(t) && DistinctData(TreeLeaves(t)) && k < |TreeLeaves(t)|
    ensures var e := TreeLeaves(t)[k];
            && TreeNested(Update(t, v, e.1))
            && multiset(TreeLeaves(Update(t, v, e.1)))
               == multiset(TreeLeaves(t)) - multiset{e} + multiset{(v, e.1)}
  {
    var e := TreeLeaves(t)[k];
    RemoveNested(t.value, e.1);
    RemoveLeaves(t.value, e.1);
    WithoutSplit(Leaves(t.value), k);
    InsertKeeps(Remove(t.value, e.1), v, e.1);
  }
}
