/**
 The collection of objects a continuous check runs over
 (crates/cspace-bullet-cast/src/cast_bvh_manager.rs).

 The broadphase is modelled by contract: its proxies are an arena whose handles
 are never reused, its pairs are kept in order, without repetition, each let in
 by the filter callback when it is announced. Which proxies its trees report as
 overlapping is a parameter of the operations that consult them.
 */
module CastBvhManager {
  import opened LinearMath
  import opened Wrappers
  import opened Shapes
  import opened Dbvt
  import opened Compound
  import opened CompoundAlgorithm
  import opened CompoundProperties
  import opened ContactTestData
  import opened CollisionObject
  import opened CastContact
  import opened CastCallback
  import opened CastObject
  import opened CastReposing

  datatype ManagedObject = Cast(cast: CastValue) | Static(cow: CollisionObject)
  {
    function Object(): CollisionObject {
      match this
      case Cast(cast) => cast.cow
      case Static(cow) => cow
    }

    /** Kinematic objects are swept and only they are; either way the object is fit to be queried. */
    ghost predicate Valid() {
      && Managed(Object())
      && (Cast? <==> Object().group == KINEMATIC)
      && (Cast? ==> cast.Valid())
    }
  }

  /** A slot's object and its proxy; `None` for the proxy is the placeholder while it is being created. */
  type Slot = Option<(ManagedObject, Option<nat>)>

  datatype Proxy = Proxy(clientObject: nat, aabb: Aabb, live: bool)

  // ---- what the two stores keep ------------------------------------------

  /** `byName` is a bijection onto the occupied slots, and each slot holds the object of that name. */
  ghost predicate Named(slots: seq<Slot>, byName: map<string, nat>) {
    && (forall n :: n in byName ==> byName[n] < |slots| && slots[byName[n]].Some? && slots[byName[n]].value.0.Object().name == n)
    && (forall i :: 0 <= i < |slots| && slots[i].Some? ==>
          slots[i].value.0.Object().name in byName && byName[slots[i].value.0.Object().name] == i)
  }

  ghost predicate AllValid(slots: seq<Slot>) {
    forall i :: 0 <= i < |slots| && slots[i].Some? ==> slots[i].value.0.Valid()
  }

  /** Every live proxy names an occupied slot; no slot has two. */
  ghost predicate Backed(slots: seq<Slot>, proxies: seq<Proxy>) {
    && (forall p :: 0 <= p < |proxies| && proxies[p].live ==>
          proxies[p].clientObject < |slots| && slots[proxies[p].clientObject].Some?)
    && (forall p, q :: 0 <= p < q < |proxies| && proxies[p].live && proxies[q].live ==>
          proxies[p].clientObject != proxies[q].clientObject)
  }

  /** Every occupied slot knows its own live proxy. */
  ghost predicate Handled(slots: seq<Slot>, proxies: seq<Proxy>) {
    forall i :: 0 <= i < |slots| && slots[i].Some? ==> HandledAt(slots, proxies, i)
  }

  ghost predicate HandledAt(slots: seq<Slot>, proxies: seq<Proxy>, i: nat)
    requires i < |slots| && slots[i].Some?
  {
    && slots[i].value.1.Some?
    && slots[i].value.1.value < |proxies|
    && proxies[slots[i].value.1.value] == Proxy(i, proxies[slots[i].value.1.value].aabb, true)
  }

  function ObjectOf(slots: seq<Slot>, proxies: seq<Proxy>, p: nat): CollisionObject
    requires p < |proxies| && proxies[p].clientObject < |slots| && slots[proxies[p].clientObject].Some?
  {
    slots[proxies[p].clientObject].value.0.Object()
  }

  ghost predicate PairStands(slots: seq<Slot>, proxies: seq<Proxy>, pair: (nat, nat))
    requires Backed(slots, proxies)
  {
    && pair.0 < pair.1 < |proxies| && proxies[pair.0].live && proxies[pair.1].live
    && NeedBroadphaseCollision(ObjectOf(slots, proxies, pair.0), ObjectOf(slots, proxies, pair.1))
  }

  /** Every stored pair is of two live proxies whose objects the filter lets collide, and none is stored twice. */
  ghost predicate Paired(slots: seq<Slot>, proxies: seq<Proxy>, pairs: seq<(nat, nat)>)
    requires Backed(slots, proxies)
  {
    && (forall k :: 0 <= k < |pairs| ==> PairStands(slots, proxies, pairs[k]))
    && Distinct(pairs)
  }

  /** Slots are only ever appended or emptied: an emptied slot stays empty and a name never moves in. */
  ghost predicate Evolves(before: seq<Slot>, after: seq<Slot>) {
    && |before| <= |after|
    && forall i :: 0 <= i < |before| && after[i].Some? ==>
         before[i].Some? && before[i].value.0.Object().name == after[i].value.0.Object().name
  }

  lemma EvolvesTransitive(a: seq<Slot>, b: seq<Slot>, c: seq<Slot>)
    requires Evolves(a, b) && Evolves(b, c)
    ensures Evolves(a, c)
  {}

  class ObjectStore {
    var slots: seq<Slot>
    var byName: map<string, nat>

    constructor ()
      ensures slots == [] && byName == map[]
    {
      slots, byName := [], map[];
    }

    /** The object filed in a slot; the original panics on an empty one. */
    function Object(slot: nat): CollisionObject
      requires slot < |slots| && slots[slot].Some?
      reads this
    {
      slots[slot].value.0.Object()
    }
  }

  // ---- the broadphase ----------------------------------------------------

  class Broadphase {
    /** The way back to the objects the installed filter callback holds. */
    const store: ObjectStore
    var proxies: seq<Proxy>
    var pairs: seq<(nat, nat)>

    constructor (store: ObjectStore)
      ensures this.store == store && proxies == [] && pairs == []
    {
      this.store := store;
      proxies, pairs := [], [];
    }

    ghost predicate Live(p: nat)
      reads this
    {
      p < |proxies| && proxies[p].live
    }

    /** Each live proxy names an occupied slot, so the filter callback can follow it. */
    ghost predicate Sound()
      reads this, store
    {
      Backed(store.slots, proxies) && Paired(store.slots, proxies, pairs)
    }

    /** One overlapping pair: filtered, ordered by age and stored once. */
    method Announce(a: nat, b: nat)
      requires Sound() && Live(a) && Live(b)
      modifies this`pairs
      ensures Sound()
      ensures forall x :: x in pairs <==> x in old(pairs) || (EitherWay(a, b, x) && PairStands(store.slots, proxies, x))
      ensures old(pairs) <= pairs
    {
      if a == b {
        return;
      }
      FilterIsSymmetric(store.Object(proxies[a].clientObject), store.Object(proxies[b].clientObject));
      if !NeedBroadphaseCollision(store.Object(proxies[a].clientObject), store.Object(proxies[b].clientObject)) {
        return;
      }
      var pair := Ordered(a, b);
      assert PairStands(store.slots, proxies, pair);
      if pair in pairs {
        return;
      }
      pairs := pairs + [pair];
    }

    /** Several overlapping pairs, one after another. */
    method AnnounceAll(found: seq<(nat, nat)>)
      requires Sound() && forall k :: 0 <= k < |found| ==> Live(found[k].0) && Live(found[k].1)
      modifies this`pairs
      ensures Sound()
      ensures forall x :: x in pairs <==> x in old(pairs) || (Announced(found, x) && PairStands(store.slots, proxies, x))
      ensures old(pairs) <= pairs
    {
      hide PairStands, Paired, Backed;
      for k := 0 to |found|
        invariant Sound() && old(pairs) <= pairs
        invariant forall x :: x in pairs <==>
                    x in old(pairs) || (Announced(found[..k], x) && PairStands(store.slots, proxies, x))
      {
        Announce(found[k].0, found[k].1);
        AnnouncedLast(found, k);
      }
      assert found[..|found|] == found;
    }

    /** The proxy is in place, and its slot occupied, before the first pair it takes part in is filtered. */
    method CreateProxy(aabb: Aabb, client: nat, hits: seq<nat>) returns (handle: nat)
      requires Sound() && forall k :: 0 <= k < |hits| ==> Live(hits[k])
      requires client < |store.slots| && store.slots[client].Some?
      requires forall p :: 0 <= p < |proxies| && proxies[p].live ==> proxies[p].clientObject != client
      modifies this
      ensures Sound()
      ensures handle == |old(proxies)| && proxies == old(proxies) + [Proxy(client, aabb, true)]
      ensures forall x :: x in pairs <==>
                x in old(pairs) || (Announced(Against(hits, handle), x) && PairStands(store.slots, proxies, x))
      ensures old(pairs) <= pairs
    {
      handle := |proxies|;
      proxies := proxies + [Proxy(client, aabb, true)];
      forall k | 0 <= k < |pairs| ensures PairStands(store.slots, proxies, pairs[k]) {
        assert PairStands(store.slots, old(proxies), pairs[k]);
      }
      AnnounceAll(Against(hits, handle));
    }

    method SetAabb(handle: nat, aabb: Aabb, hits: seq<nat>)
      requires Sound() && Live(handle) && forall k :: 0 <= k < |hits| ==> Live(hits[k])
      modifies this
      ensures Sound()
      ensures proxies == old(proxies)[handle := old(proxies)[handle].(aabb := aabb)]
      ensures forall x :: x in pairs <==>
                x in old(pairs) || (Announced(Against(hits, handle), x) && PairStands(store.slots, proxies, x))
      ensures old(pairs) <= pairs
    {
      proxies := proxies[handle := proxies[handle].(aabb := aabb)];
      forall k | 0 <= k < |pairs| ensures PairStands(store.slots, proxies, pairs[k]) {
        assert PairStands(store.slots, old(proxies), pairs[k]);
      }
      AnnounceAll(Against(hits, handle));
    }

    method DestroyProxy(handle: nat)
      requires Sound() && Live(handle)
      modifies this
      ensures Sound()
      ensures proxies == old(proxies)[handle := old(proxies)[handle].(live := false)]
      ensures pairs == Keeping(old(pairs), handle)
    {
      ghost var before := pairs;
      pairs := Keeping(pairs, handle);
      proxies := proxies[handle := proxies[handle].(live := false)];
      KeepingFrom(before, handle);
      forall k | 0 <= k < |pairs| ensures PairStands(store.slots, proxies, pairs[k]) {
        assert pairs[k] in pairs;
        var j :| 0 <= j < |before| && before[j] == pairs[k];
        assert PairStands(store.slots, old(proxies), before[j]);
      }
    }

    /** The pair set brought up to date: pairs that have drifted apart are dropped, pairs found are announced. */
    method CalculateOverlappingPairs(dropped: set<(nat, nat)>, found: seq<(nat, nat)>)
      requires Sound()
      requires forall k :: 0 <= k < |found| ==> Live(found[k].0) && Live(found[k].1)
      modifies this`pairs
      ensures Sound()
      ensures forall x :: x in pairs <==>
                (x in old(pairs) && x !in dropped) || (Announced(found, x) && PairStands(store.slots, proxies, x))
    {
      ghost var before := pairs;
      pairs := Outside(pairs, dropped);
      OutsideFrom(before, dropped);
      forall k | 0 <= k < |pairs| ensures PairStands(store.slots, proxies, pairs[k]) {
        assert pairs[k] in pairs;
        var j :| 0 <= j < |before| && before[j] == pairs[k];
        assert PairStands(store.slots, proxies, before[j]);
      }
      AnnounceAll(found);
    }
  }

  /** A pair with the older proxy first. */
  function Ordered(a: nat, b: nat): (nat, nat) { if a > b then (b, a) else (a, b) }

  /** The pair is of these two proxies. */
  predicate EitherWay(a: nat, b: nat, x: (nat, nat)) { x == (a, b) || x == (b, a) }

  function Against(hits: seq<nat>, a: nat): (r: seq<(nat, nat)>)
    ensures |r| == |hits|
  {
    seq(|hits|, k requires 0 <= k < |hits| => (hits[k], a))
  }

  ghost predicate Announced(found: seq<(nat, nat)>, x: (nat, nat)) {
    exists k :: 0 <= k < |found| && EitherWay(found[k].0, found[k].1, x)
  }

  lemma AnnouncedLast(found: seq<(nat, nat)>, k: nat)
    requires k < |found|
    ensures forall x :: Announced(found[..k + 1], x) <==> Announced(found[..k], x) || EitherWay(found[k].0, found[k].1, x)
  {
    forall x | Announced(found[..k], x) || EitherWay(found[k].0, found[k].1, x) ensures Announced(found[..k + 1], x) {
      if Announced(found[..k], x) {
        var j :| 0 <= j < k && EitherWay(found[..k][j].0, found[..k][j].1, x);
        assert found[..k + 1][j] == found[j];
      } else {
        assert found[..k + 1][k] == found[k];
      }
    }
  }

  /** The pairs that do not mention a proxy, in order. */
  function Keeping(pairs: seq<(nat, nat)>, h: nat): seq<(nat, nat)> {
    if pairs == [] then []
    else Keeping(pairs[..|pairs| - 1], h)
         + (if pairs[|pairs| - 1].0 == h || pairs[|pairs| - 1].1 == h then [] else [pairs[|pairs| - 1]])
  }

  lemma {:induction false} KeepingFrom(pairs: seq<(nat, nat)>, h: nat)
    requires Distinct(pairs)
    ensures Distinct(Keeping(pairs, h))
    ensures forall x :: x in Keeping(pairs, h) <==> x in pairs && x.0 != h && x.1 != h
    decreases |pairs|
  {
    if pairs != [] {
      var n := |pairs| - 1;
      KeepingFrom(pairs[..n], h);
      assert pairs == pairs[..n] + [pairs[n]];
      assert pairs[n] !in pairs[..n];
    }
  }

  function Outside(pairs: seq<(nat, nat)>, dropped: set<(nat, nat)>): seq<(nat, nat)> {
    if pairs == [] then []
    else Outside(pairs[..|pairs| - 1], dropped)
         + (if pairs[|pairs| - 1] in dropped then [] else [pairs[|pairs| - 1]])
  }

  lemma {:induction false} OutsideFrom(pairs: seq<(nat, nat)>, dropped: set<(nat, nat)>)
    requires Distinct(pairs)
    ensures Distinct(Outside(pairs, dropped))
    ensures forall x :: x in Outside(pairs, dropped) <==> x in pairs && x !in dropped
    decreases |pairs|
  {
    if pairs != [] {
      var n := |pairs| - 1;
      OutsideFrom(pairs[..n], dropped);
      assert pairs == pairs[..n] + [pairs[n]];
      assert pairs[n] !in pairs[..n];
    }
  }

  // ---- shapes that may be added ------------------------------------------

  /** What the constructor of a collision object leaves: filter words for an active or static object, and shapes the traversal can walk. */
  ghost predicate Addable(c: CollisionObject) {
    Filtered(c) && Indexed(c.shape) && AllConvexTypes(c.shape)
  }

  ghost predicate DataBelow(t: Option<Node>, n: nat) {
    forall k :: 0 <= k < |TreeLeaves(t)| ==> TreeLeaves(t)[k].1 < n
  }

  lemma InsertBelow(t: Option<Node>, v: Aabb, data: nat, n: nat)
    requires DataBelow(t, n) && data < n
    ensures DataBelow(Insert(t, v, data), n)
  {
    var s := TreeLeaves(Insert(t, v, data));
    if t.Some? { InsertLeafAdds(t.value, v, data); }
    forall k | 0 <= k < |s| ensures s[k].1 < n {
      assert s[k] in multiset(s);
      if s[k] != (v, data) {
        assert s[k] in TreeLeaves(t);
        var j :| 0 <= j < |TreeLeaves(t)| && TreeLeaves(t)[j] == s[k];
      }
    }
  }

  lemma {:induction false} RemoveSubset(n: Node, data: nat, e: Entry)
    requires e in TreeLeaves(Remove(n, data))
    ensures e in Leaves(n)
  {
    match n
    case Leaf(_, _) =>
    case Inner(_, l, r) =>
      if Remove(l, data).Some? && Remove(r, data).Some? {
        if e in TreeLeaves(Remove(l, data)) { RemoveSubset(l, data, e); }
        if e in TreeLeaves(Remove(r, data)) { RemoveSubset(r, data, e); }
      }
  }

  lemma UpdateBelow(t: Option<Node>, v: Aabb, data: nat, n: nat)
    requires DataBelow(t, n) && data < n
    ensures DataBelow(Update(t, v, data), n)
  {
    if t.Some? {
      var r := Remove(t.value, data);
      forall k | 0 <= k < |TreeLeaves(r)| ensures TreeLeaves(r)[k].1 < n {
        assert TreeLeaves(r)[k] in TreeLeaves(r);
        RemoveSubset(t.value, data, TreeLeaves(r)[k]);
        var j :| 0 <= j < |TreeLeaves(t)| && TreeLeaves(t)[j] == TreeLeaves(r)[k];
      }
      InsertBelow(r, v, data, n);
    }
  }

  lemma {:induction false} BuiltIndexed(cs: seq<Child>)
    requires forall i :: 0 <= i < |cs| ==> Indexed(cs[i].shape)
    ensures Indexed(Built(cs))
    ensures Built(cs).tree.Some? && DataBelow(Built(cs).tree.value, |cs|)
    decreases |cs|
  {
    hide ChildAabb;
    if cs != [] {
      var n := |cs| - 1;
      BuiltIndexed(cs[..n]);
      InsertBelow(Built(cs[..n]).tree.value, cs[n].shape.GetAabb(cs[n].transform), n, |cs|);
    }
  }

  lemma SweepChildIndexed(c: Child)
    requires ChildSweepable(c.shape)
    ensures Indexed(SweepChild(c).shape) && AllHulls(SweepChild(c).shape)
  {
    if c.shape.Compound? {
      var cs := c.shape.children;
      SecondIndexed(cs);
      hide Built, SweepSecond, SweepLeaf;
      BuiltIndexed(SweepSecond(cs));
      assert AllHulls(SweepChild(c).shape);
    }
  }

  lemma SecondIndexed(cs: seq<Child>)
    requires forall j :: 0 <= j < |cs| ==> cs[j].shape.Convex?
    ensures |SweepSecond(cs)| == |cs|
    ensures forall j :: 0 <= j < |cs| ==> Indexed(SweepSecond(cs)[j].shape) && AllHulls(SweepSecond(cs)[j].shape)
  {
    forall j | 0 <= j < |cs| ensures Indexed(SweepSecond(cs)[j].shape) && AllHulls(SweepSecond(cs)[j].shape) {
      assert SweepSecond(cs)[j] == SweepLeaf(cs[j]);
    }
  }

  lemma SweepMatches(s: Shape)
    requires Sweepable(s)
    ensures Matches(SweepShape(s), HullsOf(s))
  {
    hide Built;
  }

  /** The swept twin can be walked, and every leaf of it is a swept hull. */
  lemma SweepShapeIndexed(s: Shape)
    requires Sweepable(s)
    ensures Indexed(SweepShape(s)) && AllHulls(SweepShape(s)) && AllConvexTypes(SweepShape(s))
    ensures Matches(SweepShape(s), HullsOf(s))
  {
    hide Built, SweepSecond, InnersOf, SweepChild, Matches;
    SweepMatches(s);
    if s.Compound? {
      var t := SweepAll(s.children);
      forall i | 0 <= i < |t| ensures Indexed(t[i].shape) && AllHulls(t[i].shape) {
        SweepChildIndexed(s.children[i]);
      }
      BuiltIndexed(t);
    }
    HullsAreConvexTypes(SweepShape(s));
  }

  lemma ReplaceIndexed(s: Shape, i: nat, c: Child)
    requires s.Compound? && i < |s.children| && Indexed(s) && Indexed(c.shape)
    ensures Indexed(ReplaceChild(s, i, c))
  {
    hide ChildAabb;
    if s.tree.Some? { UpdateBelow(s.tree.value, ChildAabb(c), i, |s.children|); }
  }

  lemma ReposedLeafIndexed(c: Child, inner: ConvexShape, tf1: Transform, tf2: Transform)
    ensures Indexed(ReposedLeaf(c, inner, tf1, tf2).shape)
  {}

  lemma {:induction false} ReposeHullsIndexed(s: Shape, inners: seq<ConvexShape>, tf1: Transform, tf2: Transform, n: nat)
    requires s.Compound? && |inners| == |s.children| && n <= |inners| && Indexed(s)
    ensures Indexed(ReposeHulls(s, inners, tf1, tf2, n))
    decreases n
  {
    hide ReplaceChild, ReposedLeaf, Indexed;
    if n > 0 {
      ReposeHullsIndexed(s, inners, tf1, tf2, n - 1);
      var t := ReposeHulls(s, inners, tf1, tf2, n - 1);
      ReposedLeafIndexed(t.children[n - 1], inners[n - 1], tf1, tf2);
      ReplaceIndexed(t, n - 1, ReposedLeaf(t.children[n - 1], inners[n - 1], tf1, tf2));
    }
  }

  lemma {:induction false} ReposeChildrenIndexed(s: Shape, hs: seq<ChildHulls>, tf1: Transform, tf2: Transform, n: nat)
    requires Matches(s, Children(hs)) && n <= |hs| && Indexed(s)
    ensures Indexed(ReposeChildren(s, hs, tf1, tf2, n))
    decreases n
  {
    hide ReplaceChild, ReposedLeaf, ReposeHulls;
    if n > 0 {
      ReposeChildrenIndexed(s, hs, tf1, tf2, n - 1);
      var t := ReposeChildren(s, hs, tf1, tf2, n - 1);
      if hs[n - 1].Hull? {
        ReposedLeafIndexed(t.children[n - 1], hs[n - 1].inner, tf1, tf2);
        ReplaceIndexed(t, n - 1, ReposedLeaf(t.children[n - 1], hs[n - 1].inner, tf1, tf2));
      } else {
        ReposeHullsIndexed(t.children[n - 1].shape, hs[n - 1].inners, tf1, tf2, |hs[n - 1].inners|);
      }
    }
  }

  /** Re-posing a managed object leaves it managed. */
  lemma ReposeKeepsManaged(v: CastValue, tf1: Transform, tf2: Transform)
    requires v.Valid() && Managed(v.cow)
    ensures var c := v.cow.(worldTransform := tf1, shape := Repose(v.cow.shape, v.hulls, tf1, tf2));
            Managed(c) && CastValue(c, v.hulls).Valid()
  {
    ReposeKeepsSwept(v.cow.shape, v.hulls, tf1, tf2);
    HullsAreConvexTypes(Repose(v.cow.shape, v.hulls, tf1, tf2));
    if v.hulls.Children? {
      ReposeChildrenIndexed(v.cow.shape, v.hulls.children, tf1, tf2, |v.hulls.children|);
    }
  }

  // ---- the manager -------------------------------------------------------

  const BULLET_DEFAULT_CONTACT_DISTANCE := 0.0

  datatype AddObjectError = DuplicateName(name: string) | NotSweepable(error: CastError)

  /** A proxy's own pair, by object. */
  function ReportOf(q: Query, slots: seq<Slot>, proxies: seq<Proxy>, pair: (nat, nat)): PairContacts
    requires pair.0 < |proxies| && proxies[pair.0].clientObject < |slots| && slots[proxies[pair.0].clientObject].Some?
    requires pair.1 < |proxies| && proxies[pair.1].clientObject < |slots| && slots[proxies[pair.1].clientObject].Some?
    requires Queryable(ObjectOf(slots, proxies, pair.0)) && Queryable(ObjectOf(slots, proxies, pair.1))
  {
    PairReport(q, ObjectOf(slots, proxies, pair.0), proxies[pair.0].clientObject,
               ObjectOf(slots, proxies, pair.1), proxies[pair.1].clientObject)
  }

  /** What the stored pairs report, in order. */
  function Reports(q: Query, slots: seq<Slot>, proxies: seq<Proxy>, pairs: seq<(nat, nat)>): seq<PairContacts>
    requires Backed(slots, proxies) && AllValid(slots) && Paired(slots, proxies, pairs)
  {
    seq(|pairs|, k requires 0 <= k < |pairs| =>
      (assert PairStands(slots, proxies, pairs[k]);
       ReportOf(q, slots, proxies, pairs[k])))
  }

  /** Names being unique, no two stored pairs are filed under one key. */
  lemma ReportsDistinct(q: Query, slots: seq<Slot>, byName: map<string, nat>, proxies: seq<Proxy>, pairs: seq<(nat, nat)>)
    requires Named(slots, byName) && Backed(slots, proxies) && AllValid(slots) && Paired(slots, proxies, pairs)
    ensures DistinctPairs(Reports(q, slots, proxies, pairs))
  {
    hide Managed, NeedBroadphaseCollision, PairReport;
    var r := Reports(q, slots, proxies, pairs);
    forall i, j | 0 <= i < j < |r| ensures r[i].key != r[j].key {
      assert PairStands(slots, proxies, pairs[i]) && PairStands(slots, proxies, pairs[j]);
      var (a, b) := (ObjectOf(slots, proxies, pairs[i].0), ObjectOf(slots, proxies, pairs[i].1));
      var (c, d) := (ObjectOf(slots, proxies, pairs[j].0), ObjectOf(slots, proxies, pairs[j].1));
      ReportKey(q, slots, proxies, pairs[i]);
      ReportKey(q, slots, proxies, pairs[j]);
      KeyIdentifiesPair(a.name, b.name, c.name, d.name);
      SameName(slots, byName, proxies, pairs[i].0, pairs[j].0);
      SameName(slots, byName, proxies, pairs[i].1, pairs[j].1);
      SameName(slots, byName, proxies, pairs[i].0, pairs[j].1);
      SameName(slots, byName, proxies, pairs[i].1, pairs[j].0);
      assert pairs[i] != pairs[j];
    }
  }

  /**
   The query answers "in collision" whenever a stored pair that the matrix does
   not allow has two leaves with a common point, whatever the request, the
   budgets and the order of the pairs.
   */
  lemma TouchingPairCollides(
      q: Query, slots: seq<Slot>, byName: map<string, nat>, proxies: seq<Proxy>, pairs: seq<(nat, nat)>,
      k: nat, p0: seq<nat>, p1: seq<nat>, w: Vec3)
    requires Named(slots, byName) && Backed(slots, proxies) && AllValid(slots) && Paired(slots, proxies, pairs)
    requires k < |pairs| && PairStands(slots, proxies, pairs[k])
    requires q.contactDistance == 0.0 && SeesContact(q.narrow)
    requires var (a, b) := (ObjectOf(slots, proxies, pairs[k].0), ObjectOf(slots, proxies, pairs[k].1));
             && NeedsCollision(false, a, b, q.acm)
             && Covering(a.shape) && Covering(b.shape) && a.worldTransform.Rigid() && b.worldTransform.Rigid()
             && TouchesAt(Top(a, proxies[pairs[k].0].clientObject), p0, w)
             && TouchesAt(Top(b, proxies[pairs[k].1].clientObject), p1, w)
    ensures RunPairs(FRESH, q.request, q.contactDistance, Reports(q, slots, proxies, pairs)).collision
  {
    hide Managed, NeedBroadphaseCollision, PairReport, Covering, Transform.Rigid, TouchesAt, SeesContact, RunPairs, NeedsCollision;
    var (a, b) := (ObjectOf(slots, proxies, pairs[k].0), ObjectOf(slots, proxies, pairs[k].1));
    TouchingIsReported(q, a, proxies[pairs[k].0].clientObject, b, proxies[pairs[k].1].clientObject, p0, p1, w);
    var ps := Reports(q, slots, proxies, pairs);
    assert ps[k] in ps && AnyWithin(ps[k].reported, q.contactDistance);
    VerdictIsExistence(ps, q.request, q.contactDistance);
  }

  lemma ReportKey(q: Query, slots: seq<Slot>, proxies: seq<Proxy>, pair: (nat, nat))
    requires Backed(slots, proxies) && AllValid(slots) && PairStands(slots, proxies, pair)
    ensures Queryable(ObjectOf(slots, proxies, pair.0)) && Queryable(ObjectOf(slots, proxies, pair.1))
    ensures ReportOf(q, slots, proxies, pair).key
         == ObjectPairKey(ObjectOf(slots, proxies, pair.0).name, ObjectOf(slots, proxies, pair.1).name)
  {}

  lemma SameName(slots: seq<Slot>, byName: map<string, nat>, proxies: seq<Proxy>, p: nat, q: nat)
    requires Named(slots, byName) && Backed(slots, proxies)
    requires p < |proxies| && q < |proxies| && proxies[p].live && proxies[q].live
    ensures ObjectOf(slots, proxies, p).name == ObjectOf(slots, proxies, q).name <==> p == q
  {}

  /** The filter reads nothing that moving or re-posing an object changes. */
  ghost predicate SameFilter(a: CollisionObject, b: CollisionObject) {
    a.name == b.name && a.typeId == b.typeId && a.group == b.group && a.mask == b.mask
    && a.enabled == b.enabled && a.touchLinks == b.touchLinks
  }

  lemma SameFilterNeeds(a: CollisionObject, b: CollisionObject, c: CollisionObject, d: CollisionObject)
    requires SameFilter(a, c) && SameFilter(b, d)
    ensures NeedBroadphaseCollision(a, b) == NeedBroadphaseCollision(c, d)
  {}

  ghost predicate SameSlots(before: seq<Slot>, after: seq<Slot>) {
    && |before| <= |after|
    && forall i :: 0 <= i < |before| && before[i].Some? ==>
         after[i].Some? && SameFilter(before[i].value.0.Object(), after[i].value.0.Object())
  }

  /** Slots that keep what the filter reads keep every pair. */
  lemma SameObjectsKeepPairs(before: seq<Slot>, after: seq<Slot>, proxies: seq<Proxy>, pairs: seq<(nat, nat)>)
    requires Backed(before, proxies) && Paired(before, proxies, pairs) && SameSlots(before, after)
    ensures Backed(after, proxies) && Paired(after, proxies, pairs)
  {
    hide NeedBroadphaseCollision;
    forall k | 0 <= k < |pairs| ensures PairStands(after, proxies, pairs[k]) {
      assert PairStands(before, proxies, pairs[k]);
      SameFilterNeeds(ObjectOf(before, proxies, pairs[k].0), ObjectOf(before, proxies, pairs[k].1),
                      ObjectOf(after, proxies, pairs[k].0), ObjectOf(after, proxies, pairs[k].1));
    }
  }

  lemma PushKeepsPairs(before: seq<Slot>, after: seq<Slot>, proxies: seq<Proxy>, pairs: seq<(nat, nat)>)
    requires Backed(before, proxies) && Paired(before, proxies, pairs) && before <= after
    ensures Backed(after, proxies) && Paired(after, proxies, pairs)
  {
    SameObjectsKeepPairs(before, after, proxies, pairs);
  }

  lemma SweptIsValid(cow: CollisionObject)
    requires Addable(cow) && cow.group == KINEMATIC && Sweepable(cow.shape)
    ensures Cast(CastValue(cow.(shape := SweepShape(cow.shape)), HullsOf(cow.shape))).Valid()
  {
    SweepShapeIndexed(cow.shape);
  }

  lemma StaticIsValid(cow: CollisionObject)
    requires Addable(cow) && cow.group != KINEMATIC
    ensures Static(cow).Valid()
  {}

  lemma EmptyKeepsPairs(slots: seq<Slot>, slot: nat, proxies: seq<Proxy>, pairs: seq<(nat, nat)>, proxy: nat)
    requires Backed(slots, proxies) && Paired(slots, proxies, pairs) && slot < |slots|
    requires proxy < |proxies| && proxies[proxy].clientObject == slot && !proxies[proxy].live
    requires forall p :: 0 <= p < |proxies| && p != proxy && proxies[p].live ==> proxies[p].clientObject != slot
    ensures Backed(slots[slot := None], proxies) && Paired(slots[slot := None], proxies, pairs)
  {
    hide NeedBroadphaseCollision;
    forall k | 0 <= k < |pairs| ensures PairStands(slots[slot := None], proxies, pairs[k]) {
      assert PairStands(slots, proxies, pairs[k]);
    }
  }

  lemma ReposedIsValid(v: CastValue, tf1: Transform, tf2: Transform)
    requires Cast(v).Valid()
    ensures Cast(v.(cow := v.cow.(worldTransform := tf1))).Valid()
    ensures Cast(v.(cow := v.cow.(worldTransform := tf1, shape := Repose(v.cow.shape, v.hulls, tf1, tf2)))).Valid()
  {
    ReposeKeepsManaged(v, tf1, tf2);
  }

  /** Names, handles and validity after a slot is appended together with its proxy. */
  lemma FiledKeeps(slots: seq<Slot>, byName: map<string, nat>, proxies: seq<Proxy>, m: ManagedObject, aabb: Aabb)
    requires Named(slots, byName) && AllValid(slots) && Handled(slots, proxies)
    requires m.Valid() && m.Object().name !in byName
    ensures var slots' := slots + [Some((m, Some(|proxies|)))];
            && Named(slots', byName[m.Object().name := |slots|]) && AllValid(slots') && Evolves(slots, slots')
            && Handled(slots', proxies + [Proxy(|slots|, aabb, true)])
  {
    hide ManagedObject.Valid;
    var slots' := slots + [Some((m, Some(|proxies|)))];
    forall i | 0 <= i < |slots'| && slots'[i].Some? ensures HandledAt(slots', proxies + [Proxy(|slots|, aabb, true)], i) {
      assert i < |slots| ==> HandledAt(slots, proxies, i);
    }
  }

  /** The same after a slot is emptied and its proxy retired. */
  lemma EmptiedKeeps(slots: seq<Slot>, byName: map<string, nat>, proxies: seq<Proxy>, name: string)
    requires Named(slots, byName) && AllValid(slots) && Handled(slots, proxies) && Backed(slots, proxies) && name in byName
    ensures byName[name] < |slots| && slots[byName[name]].Some? && HandledAt(slots, proxies, byName[name])
    ensures var slot := byName[name];
            var proxy := slots[slot].value.1.value;
            && Named(slots[slot := None], byName - {name}) && AllValid(slots[slot := None])
            && Evolves(slots, slots[slot := None])
            && Handled(slots[slot := None], proxies[proxy := proxies[proxy].(live := false)])
            && (forall p :: 0 <= p < |proxies| && p != proxy && proxies[p].live ==> proxies[p].clientObject != slot)
  {
    hide ManagedObject.Valid;
    var slot := byName[name];
    assert HandledAt(slots, proxies, slot);
    var proxy := slots[slot].value.1.value;
    var proxies' := proxies[proxy := proxies[proxy].(live := false)];
    forall i | 0 <= i < |slots| && i != slot && slots[i].Some? ensures HandledAt(slots[slot := None], proxies', i) {
      assert HandledAt(slots, proxies, i);
    }
  }

  /** The same after an object is replaced by one of its own name, and its proxy's box refreshed. */
  lemma ReplacedKeeps(slots: seq<Slot>, byName: map<string, nat>, proxies: seq<Proxy>, name: string, m: ManagedObject,
                      aabb: Aabb)
    requires Named(slots, byName) && AllValid(slots) && Handled(slots, proxies) && name in byName
    requires m.Valid() && m.Object().name == name
    ensures byName[name] < |slots| && slots[byName[name]].Some? && HandledAt(slots, proxies, byName[name])
    ensures var slot := byName[name];
            var proxy := slots[slot].value.1;
            var slots' := slots[slot := Some((m, proxy))];
            && Named(slots', byName) && AllValid(slots') && Evolves(slots, slots') && Handled(slots', proxies)
            && Handled(slots', proxies[proxy.value := proxies[proxy.value].(aabb := aabb)])
  {
    hide ManagedObject.Valid;
    var slot := byName[name];
    assert HandledAt(slots, proxies, slot);
    var proxy := slots[slot].value.1;
    var slots' := slots[slot := Some((m, proxy))];
    var proxies' := proxies[proxy.value := proxies[proxy.value].(aabb := aabb)];
    forall i | 0 <= i < |slots| && slots'[i].Some? ensures HandledAt(slots', proxies, i) && HandledAt(slots', proxies', i) {
      assert HandledAt(slots, proxies, i);
    }
  }

  lemma NamedSlot(slots: seq<Slot>, byName: map<string, nat>, proxies: seq<Proxy>, name: string)
    requires Named(slots, byName) && AllValid(slots) && Handled(slots, proxies) && name in byName
    ensures byName[name] < |slots| && slots[byName[name]].Some? && HandledAt(slots, proxies, byName[name])
    ensures slots[byName[name]].value.0.Valid() && slots[byName[name]].value.0.Object().name == name
  {}

  lemma PairedDistinct(slots: seq<Slot>, proxies: seq<Proxy>, pairs: seq<(nat, nat)>)
    requires Backed(slots, proxies) && Paired(slots, proxies, pairs)
    ensures Distinct(pairs)
  {}

  // ---- boxes that stay true ----------------------------------------------

  /**
   The object's boxes and trees agree with its leaves, it is rigidly placed, and
   a swept one is at most one compound deep, so that re-posing refreshes all of
   them.
   */
  ghost predicate Kept(m: ManagedObject) {
    var c := m.Object();
    && InSync(c.shape) && c.worldTransform.Rigid() && c.contactProcessingThreshold >= 0.0
    && (m.Cast? ==> Refreshed(m.cast.hulls))
  }

  /** What adding asks for that: a swept object's boxes are rebuilt, so only its leaves need be sound. */
  ghost predicate KeptOnceAdded(c: CollisionObject) {
    && c.worldTransform.Rigid() && c.contactProcessingThreshold >= 0.0
    && (if c.group == KINEMATIC then Sound(c.shape) && Shallow(c.shape) else InSync(c.shape))
  }

  /** Every object is kept so, and the broadphase has the box each enabled one has now. */
  ghost predicate AllKept(slots: seq<Slot>, proxies: seq<Proxy>)
    requires Handled(slots, proxies)
  {
    forall i :: 0 <= i < |slots| && slots[i].Some? ==>
      && Kept(slots[i].value.0)
      && (slots[i].value.0.Object().enabled ==> BoxIsCurrent(slots, proxies, i))
  }

  ghost predicate BoxIsCurrent(slots: seq<Slot>, proxies: seq<Proxy>, i: nat)
    requires Handled(slots, proxies) && i < |slots| && slots[i].Some?
  {
    assert HandledAt(slots, proxies, i);
    proxies[slots[i].value.1.value].aabb == slots[i].value.0.Object().GetAabb()
  }

  lemma SweptIsKept(c: CollisionObject)
    requires KeptOnceAdded(c) && c.group == KINEMATIC && Sweepable(c.shape)
    ensures Kept(Cast(CastValue(c.(shape := SweepShape(c.shape)), HullsOf(c.shape))))
  {
    hide InSync, AllHulls, AllConvexTypes, Matches;
    SweepShapeKeeps(c.shape);
    ShallowRefreshed(c.shape);
  }

  lemma ReposedIsKept(v: CastValue, tf1: Transform, tf2: Transform)
    requires v.Valid() && Kept(Cast(v)) && tf1.Rigid() && tf2.Rigid()
    ensures Kept(Cast(v.(cow := v.cow.(worldTransform := tf1))))
    ensures Kept(Cast(v.(cow := v.cow.(worldTransform := tf1, shape := Repose(v.cow.shape, v.hulls, tf1, tf2)))))
  {
    hide InSync, Transform.Rigid, Refreshed;
    ReposeInSync(v.cow.shape, v.hulls, tf1, tf2);
  }

  lemma KeptSlot(slots: seq<Slot>, proxies: seq<Proxy>, i: nat)
    requires Handled(slots, proxies) && AllKept(slots, proxies) && i < |slots| && slots[i].Some?
    ensures Kept(slots[i].value.0)
  {}

  lemma FiledIsKept(slots: seq<Slot>, proxies: seq<Proxy>, m: ManagedObject)
    requires Handled(slots, proxies) && AllKept(slots, proxies) && Kept(m)
    ensures var (slots', proxies') := (slots + [Some((m, Some(|proxies|)))],
                                       proxies + [Proxy(|slots|, m.Object().GetAabb(), true)]);
            Handled(slots', proxies') && AllKept(slots', proxies')
  {
    hide Kept, CollisionObject.GetAabb;
    var (slots', proxies') := (slots + [Some((m, Some(|proxies|)))], proxies + [Proxy(|slots|, m.Object().GetAabb(), true)]);
    forall i | 0 <= i < |slots'| && slots'[i].Some? ensures HandledAt(slots', proxies', i) {
      assert i < |slots| ==> HandledAt(slots, proxies, i);
    }
    forall i | 0 <= i < |slots| && slots[i].Some? && slots[i].value.0.Object().enabled ensures BoxIsCurrent(slots', proxies', i) {
      assert HandledAt(slots, proxies, i) && BoxIsCurrent(slots, proxies, i);
    }
  }

  lemma EmptiedIsKept(slots: seq<Slot>, proxies: seq<Proxy>, slot: nat, proxy: nat)
    requires Handled(slots, proxies) && AllKept(slots, proxies) && slot < |slots| && proxy < |proxies|
    requires Handled(slots[slot := None], proxies[proxy := proxies[proxy].(live := false)])
    ensures AllKept(slots[slot := None], proxies[proxy := proxies[proxy].(live := false)])
  {
    hide Kept, CollisionObject.GetAabb;
    var (slots', proxies') := (slots[slot := None], proxies[proxy := proxies[proxy].(live := false)]);
    forall i | 0 <= i < |slots'| && slots'[i].Some? && slots'[i].value.0.Object().enabled ensures BoxIsCurrent(slots', proxies', i) {
      assert HandledAt(slots, proxies, i) && BoxIsCurrent(slots, proxies, i);
    }
  }

  /** An object replaced in place, its box refreshed if it is enabled. */
  lemma ReplacedIsKept(slots: seq<Slot>, proxies: seq<Proxy>, slot: nat, m: ManagedObject)
    requires Handled(slots, proxies) && AllKept(slots, proxies) && slot < |slots| && slots[slot].Some? && Kept(m)
    ensures HandledAt(slots, proxies, slot)
    ensures var proxy := slots[slot].value.1;
            var slots' := slots[slot := Some((m, proxy))];
            var proxies' := if m.Object().enabled
                            then proxies[proxy.value := proxies[proxy.value].(aabb := m.Object().GetAabb())] else proxies;
            Handled(slots', proxies') && AllKept(slots', proxies')
  {
    hide Kept, CollisionObject.GetAabb;
    assert HandledAt(slots, proxies, slot);
    var proxy := slots[slot].value.1;
    var slots' := slots[slot := Some((m, proxy))];
    var proxies' := if m.Object().enabled
                    then proxies[proxy.value := proxies[proxy.value].(aabb := m.Object().GetAabb())] else proxies;
    forall i | 0 <= i < |slots'| && slots'[i].Some? ensures HandledAt(slots', proxies', i) {
      assert HandledAt(slots, proxies, i);
    }
    forall i | 0 <= i < |slots'| && slots'[i].Some? && slots'[i].value.0.Object().enabled ensures BoxIsCurrent(slots', proxies', i) {
      assert HandledAt(slots', proxies', i);
      if i != slot { assert HandledAt(slots, proxies, i) && BoxIsCurrent(slots, proxies, i); }
    }
  }

  // ---- no touching pair is missed ----------------------------------------

  /** The two proxies' objects have leaves with the point in common, and no filter lets them off. */
  ghost predicate Touching(
      acm: Option<AllowedCollisions>, slots: seq<Slot>, proxies: seq<Proxy>, x: (nat, nat),
      p0: seq<nat>, p1: seq<nat>, w: Vec3)
    requires Backed(slots, proxies)
  {
    && PairStands(slots, proxies, x)
    && var (a, b) := (ObjectOf(slots, proxies, x.0), ObjectOf(slots, proxies, x.1));
    && NeedsCollision(false, a, b, acm)
    && TouchesAt(Top(a, proxies[x.0].clientObject), p0, w)
    && TouchesAt(Top(b, proxies[x.1].clientObject), p1, w)
  }

  ghost predicate SomeTouching(acm: Option<AllowedCollisions>, slots: seq<Slot>, proxies: seq<Proxy>)
    requires Backed(slots, proxies)
  {
    exists x, p0, p1, w :: Touching(acm, slots, proxies, x, p0, p1, w)
  }

  ghost predicate BoxesMeet(proxies: seq<Proxy>, x: (nat, nat)) {
    && x.0 < x.1 < |proxies| && proxies[x.0].live && proxies[x.1].live
    && proxies[x.0].aabb.Intersect(proxies[x.1].aabb)
  }

  /** The broadphase does its part: a pair whose boxes meet is stored and stays so, or is found. */
  ghost predicate FindsAll(proxies: seq<Proxy>, pairs: seq<(nat, nat)>, dropped: set<(nat, nat)>, found: seq<(nat, nat)>) {
    forall x :: BoxesMeet(proxies, x) ==> (x in pairs && x !in dropped) || Announced(found, x)
  }

  lemma FoundAll(
      slots: seq<Slot>, proxies: seq<Proxy>, before: seq<(nat, nat)>, dropped: set<(nat, nat)>, found: seq<(nat, nat)>,
      after: seq<(nat, nat)>)
    requires Backed(slots, proxies) && FindsAll(proxies, before, dropped, found)
    requires forall x :: x in after <==> (x in before && x !in dropped) || (Announced(found, x) && PairStands(slots, proxies, x))
    ensures forall x :: BoxesMeet(proxies, x) && PairStands(slots, proxies, x) ==> x in after
  {
    hide PairStands, BoxesMeet, Announced, Backed;
  }

  /** An object's box holds the points of its leaves. */
  lemma BoxHasPoint(c: CollisionObject, id: nat, path: seq<nat>, w: Vec3)
    requires InSync(c.shape) && c.worldTransform.Rigid() && c.contactProcessingThreshold >= 0.0
    requires TouchesAt(Top(c, id), path, w)
    ensures Covering(c.shape) && c.GetAabb().Has(w)
  {
    hide Covering, InSync, Transform.Rigid, PathHas;
    InSyncCovers(c.shape);
    var p :| PathHas(c.shape, path, p) && c.worldTransform.Apply(p) == w;
    AabbHolds(c.shape, path, p, c.worldTransform);
  }

  /** The proxy of a live slot carries that object's box. */
  lemma ProxyHasPoint(slots: seq<Slot>, proxies: seq<Proxy>, p: nat, path: seq<nat>, w: Vec3)
    requires Handled(slots, proxies) && Backed(slots, proxies) && AllKept(slots, proxies)
    requires p < |proxies| && proxies[p].live && ObjectOf(slots, proxies, p).enabled
    requires TouchesAt(Top(ObjectOf(slots, proxies, p), proxies[p].clientObject), path, w)
    ensures proxies[p].aabb.Has(w)
    ensures Covering(ObjectOf(slots, proxies, p).shape) && ObjectOf(slots, proxies, p).worldTransform.Rigid()
  {
    hide Covering, InSync, Transform.Rigid, TouchesAt, CollisionObject.GetAabb, Aabb.Has, Refreshed;
    var i := proxies[p].clientObject;
    assert HandledAt(slots, proxies, i) && BoxIsCurrent(slots, proxies, i);
    BoxHasPoint(ObjectOf(slots, proxies, p), i, path, w);
  }

  /**
   The query misses nothing: if the stored pairs include every pair the filter
   lets in whose boxes meet, then any two leaves of unexempted objects that
   share a point make it answer "in collision".
   */
  lemma QueryMissesNothing(
      q: Query, slots: seq<Slot>, byName: map<string, nat>, proxies: seq<Proxy>, pairs: seq<(nat, nat)>)
    requires Named(slots, byName) && Backed(slots, proxies) && AllValid(slots) && Paired(slots, proxies, pairs)
    requires Handled(slots, proxies) && AllKept(slots, proxies)
    requires forall x :: BoxesMeet(proxies, x) && PairStands(slots, proxies, x) ==> x in pairs
    requires q.contactDistance == 0.0 && SeesContact(q.narrow) && SomeTouching(q.acm, slots, proxies)
    ensures RunPairs(FRESH, q.request, q.contactDistance, Reports(q, slots, proxies, pairs)).collision
  {
    hide Covering, Transform.Rigid, TouchesAt, SeesContact, RunPairs, NeedsCollision, Named, AllValid, AllKept, Handled, Backed, Paired;
    var x, p0, p1, w :| Touching(q.acm, slots, proxies, x, p0, p1, w);
    ProxyHasPoint(slots, proxies, x.0, p0, w);
    ProxyHasPoint(slots, proxies, x.1, p1, w);
    assert BoxesMeet(proxies, x);
    var k :| 0 <= k < |pairs| && pairs[k] == x;
    TouchingPairCollides(q, slots, byName, proxies, pairs, k, p0, p1, w);
  }

  class BulletCastBvhManager {
    const store: ObjectStore
    const broadphase: Broadphase

    ghost predicate Valid()
      reads this, store, broadphase
    {
      && broadphase.store == store
      && Named(store.slots, store.byName)
      && AllValid(store.slots)
      && broadphase.Sound()
      && Handled(store.slots, broadphase.proxies)
    }

    /** Boxes and trees of everything held are true, as the broadphase knows them. */
    ghost predicate InOrder()
      reads this, store, broadphase
    {
      Valid() && AllKept(store.slots, broadphase.proxies)
    }

    ghost predicate LiveAll(hits: seq<nat>)
      reads broadphase
    {
      forall k :: 0 <= k < |hits| ==> hits[k] < |broadphase.proxies| && broadphase.proxies[hits[k]].live
    }

    constructor ()
      ensures InOrder() && fresh(store) && fresh(broadphase)
      ensures store.slots == [] && store.byName == map[] && broadphase.proxies == [] && broadphase.pairs == []
    {
      var s := new ObjectStore();
      var b := new Broadphase(s);
      store, broadphase := s, b;
    }

    /** A failed add changes nothing; a successful one fills the next slot, in the form its filter group asks for. */
    method AddCollisionObject(cow: CollisionObject, hits: seq<nat>) returns (r: Option<AddObjectError>)
      requires Valid() && Addable(cow) && LiveAll(hits)
      modifies store, broadphase
      ensures Valid() && Evolves(old(store.slots), store.slots)
      ensures old(InOrder()) && KeptOnceAdded(cow) ==> InOrder()
      ensures r.Some? ==>
        && store.slots == old(store.slots) && store.byName == old(store.byName)
        && broadphase.proxies == old(broadphase.proxies) && broadphase.pairs == old(broadphase.pairs)
      ensures r == if cow.name in old(store.byName) then Some(DuplicateName(cow.name))
                   else if cow.group == KINEMATIC && ShapeError(cow.shape).Some?
                   then Some(NotSweepable(ShapeError(cow.shape).value)) else None
      ensures r.None? ==>
        var n := |old(store.slots)|;
        && |store.slots| == n + 1 && store.slots[..n] == old(store.slots) && store.slots[n].Some?
        && store.byName == old(store.byName)[cow.name := n]
        && store.slots[n].value.0.Object().name == cow.name
        && (cow.group == KINEMATIC ==> (
              && Sweepable(cow.shape)
              && store.slots[n].value.0 == Cast(CastValue(cow.(shape := SweepShape(cow.shape)), HullsOf(cow.shape)))))
        && (cow.group != KINEMATIC ==> store.slots[n].value.0 == Static(cow))
    {
      hide Managed, Addable, Indexed, AllHulls, AllConvexTypes, Repose, NeedBroadphaseCollision, InSync, AllKept;
      if cow.name in store.byName {
        return Some(DuplicateName(cow.name));
      }
      var managed: ManagedObject;
      if cow.group == KINEMATIC {
        ErrorExact(cow.shape);
        var cast := NewCastObject(cow);
        if cast.Err? {
          return Some(NotSweepable(cast.error));
        }
        managed := Cast(cast.value);
        SweptIsValid(cow);
        if KeptOnceAdded(cow) { SweptIsKept(cow); }
      } else {
        managed := Static(cow);
        StaticIsValid(cow);
      }
      File(managed, hits);
      r := None;
    }

    /** The slot is filled, under a placeholder, before the proxy exists; the handle follows. */
    method File(managed: ManagedObject, hits: seq<nat>)
      requires Valid() && managed.Valid() && managed.Object().name !in store.byName && LiveAll(hits)
      modifies store, broadphase
      ensures Valid() && Evolves(old(store.slots), store.slots)
      ensures old(InOrder()) && Kept(managed) ==> InOrder()
      ensures var n := |old(store.slots)|;
              && |store.slots| == n + 1 && store.slots[..n] == old(store.slots)
              && store.slots[n].Some? && store.slots[n].value.0 == managed
              && store.byName == old(store.byName)[managed.Object().name := n]
    {
      hide Named, AllValid, Handled, Paired, PairStands, Evolves, ManagedObject.Valid, Kept, AllKept;
      var name := managed.Object().name;
      var aabb := managed.Object().GetAabb();
      if InOrder() && Kept(managed) { FiledIsKept(store.slots, broadphase.proxies, managed); }
      FiledKeeps(store.slots, store.byName, broadphase.proxies, managed, aabb);
      var slot := |store.slots|;
      store.slots := store.slots + [Some((managed, None))];
      store.byName := store.byName[name := slot];
      PushKeepsPairs(old(store.slots), store.slots, broadphase.proxies, broadphase.pairs);
      var proxy := broadphase.CreateProxy(aabb, slot, hits);
      ghost var mid := store.slots;
      store.slots := store.slots[slot := Some((store.slots[slot].value.0, Some(proxy)))];
      SameObjectsKeepPairs(mid, store.slots, broadphase.proxies, broadphase.pairs);
      assert store.slots == old(store.slots) + [Some((managed, Some(proxy)))];
    }

    /** Whether an object of that name was there; its slot is emptied and its proxy and pairs go with it. */
    method RemoveCollisionObject(name: string) returns (found: bool)
      requires Valid()
      modifies store, broadphase
      ensures Valid() && Evolves(old(store.slots), store.slots)
      ensures old(InOrder()) ==> InOrder()
      ensures found == (name in old(store.byName))
      ensures !found ==>
        && store.slots == old(store.slots) && store.byName == old(store.byName)
        && broadphase.proxies == old(broadphase.proxies) && broadphase.pairs == old(broadphase.pairs)
      ensures found ==>
        var slot := old(store.byName)[name];
        var proxy := old(store.slots)[slot].value.1.value;
        && store.slots == old(store.slots)[slot := None]
        && store.byName == old(store.byName) - {name}
        && broadphase.proxies == old(broadphase.proxies)[proxy := old(broadphase.proxies)[proxy].(live := false)]
        && broadphase.pairs == Keeping(old(broadphase.pairs), proxy)
    {
      hide Named, AllValid, Handled, Paired, PairStands, Backed, AllKept;
      if name !in store.byName {
        return false;
      }
      EmptiedKeeps(store.slots, store.byName, broadphase.proxies, name);
      PairedDistinct(store.slots, broadphase.proxies, broadphase.pairs);
      var slot := store.byName[name];
      var proxy := store.slots[slot].value.1.value;
      if InOrder() { EmptiedIsKept(store.slots, broadphase.proxies, slot, proxy); }
      KeepingFrom(broadphase.pairs, proxy);
      broadphase.DestroyProxy(proxy);
      EmptyKeepsPairs(store.slots, slot, broadphase.proxies, broadphase.pairs, proxy);
      store.slots := store.slots[slot := None];
      store.byName := store.byName - {name};
      found := true;
    }

    /**
     Re-posing: an unknown name is ignored; a disabled object only moves; an
     enabled one has its shape re-posed and its box in the broadphase refreshed.
     A name that is not swept is outside the contract: the original panics on it.
     */
    method SetCastCollisionObjectsTransform(name: string, tf1: Transform, tf2: Transform, hits: seq<nat>)
      requires Valid() && LiveAll(hits)
      requires name in store.byName ==> store.slots[store.byName[name]].value.0.Cast?
      modifies store, broadphase
      ensures Valid() && Evolves(old(store.slots), store.slots)
      ensures old(InOrder()) && tf1.Rigid() && tf2.Rigid() ==> InOrder()
      ensures store.byName == old(store.byName)
      ensures name !in old(store.byName) ==>
        && store.slots == old(store.slots)
        && broadphase.proxies == old(broadphase.proxies) && broadphase.pairs == old(broadphase.pairs)
      ensures name in old(store.byName) ==>
        var slot := old(store.byName)[name];
        var (v, proxy) := (old(store.slots)[slot].value.0.cast, old(store.slots)[slot].value.1);
        && v.Valid()
        && store.slots == old(store.slots)[slot := Some((Cast(v.(cow :=
             if v.cow.enabled then v.cow.(worldTransform := tf1, shape := Repose(v.cow.shape, v.hulls, tf1, tf2))
             else v.cow.(worldTransform := tf1))), proxy))]
        && broadphase.proxies == if v.cow.enabled
             then old(broadphase.proxies)[proxy.value :=
                    old(broadphase.proxies)[proxy.value].(aabb := store.slots[slot].value.0.Object().GetAabb())]
             else old(broadphase.proxies)
    {
      hide Managed, NeedBroadphaseCollision, Repose, CollisionObject.GetAabb, Paired, PairStands, Handled, Backed,
           AllKept, Kept, AllValid, Transform.Rigid;
      if name !in store.byName {
        return;
      }
      var slot := store.byName[name];
      NamedSlot(store.slots, store.byName, broadphase.proxies, name);
      var (managed, proxy) := store.slots[slot].value;
      var cast := new CastCollisionObject.Edit(managed.cast);
      cast.SetCastTransforms(tf1, tf2);
      ReposedIsValid(managed.cast, tf1, tf2);
      ghost var before := store.slots;
      if InOrder() && tf1.Rigid() && tf2.Rigid() {
        KeptSlot(before, broadphase.proxies, slot);
        ReposedIsKept(managed.cast, tf1, tf2);
        ReplacedIsKept(before, broadphase.proxies, slot, Cast(cast.Value()));
      }
      ReplacedKeeps(before, store.byName, broadphase.proxies, name, Cast(cast.Value()), cast.Value().cow.GetAabb());
      store.slots := store.slots[slot := Some((Cast(cast.Value()), proxy))];
      SameObjectsKeepPairs(before, store.slots, broadphase.proxies, broadphase.pairs);
      if !cast.cow.enabled {
        return;
      }
      broadphase.SetAabb(proxy.value, cast.cow.GetAabb(), hits);
    }

    /**
     The query never fails, and its result is what the accumulation policy makes
     of what the stored pairs report, in the order they are stored.
     */
    method ContactTest(
        request: CastRequest, acm: Option<AllowedCollisions>, narrow: NarrowPhase, len: Norm,
        dropped: set<(nat, nat)>, found: seq<(nat, nat)>)
      returns (failure: Option<CastCallbackError>, result: CastResult)
      requires Valid() && IsNorm(len)
      requires forall k :: 0 <= k < |found| ==> broadphase.Live(found[k].0) && broadphase.Live(found[k].1)
      modifies broadphase
      ensures Valid() && broadphase.proxies == old(broadphase.proxies)
      ensures old(InOrder()) ==> InOrder()
      ensures fresh(result) && failure == None
      ensures DistinctPairs(Reports(Query(request, BULLET_DEFAULT_CONTACT_DISTANCE, acm, narrow, len),
                                    store.slots, broadphase.proxies, broadphase.pairs))
      ensures result.Value() == RunPairs(FRESH, request, BULLET_DEFAULT_CONTACT_DISTANCE,
                Reports(Query(request, BULLET_DEFAULT_CONTACT_DISTANCE, acm, narrow, len),
                        store.slots, broadphase.proxies, broadphase.pairs))
      ensures (&& old(InOrder()) && SeesContact(narrow)
               && SomeTouching(acm, store.slots, broadphase.proxies)
               && FindsAll(broadphase.proxies, old(broadphase.pairs), dropped, found)) ==> result.collision
    {
      hide Managed, NeedBroadphaseCollision, RunPairs, PairReport, AllKept, SomeTouching, SeesContact, PairStands, FindsAll,
           Named, Handled, AllValid, Reports, DistinctPairs;
      broadphase.CalculateOverlappingPairs(dropped, found);
      result := new CastResult();
      var q := Query(request, BULLET_DEFAULT_CONTACT_DISTANCE, acm, narrow, len);
      ReportsDistinct(q, store.slots, store.byName, broadphase.proxies, broadphase.pairs);
      if InOrder() && SeesContact(narrow) && SomeTouching(acm, store.slots, broadphase.proxies)
         && FindsAll(broadphase.proxies, old(broadphase.pairs), dropped, found) {
        FoundAll(store.slots, broadphase.proxies, old(broadphase.pairs), dropped, found, broadphase.pairs);
        QueryMissesNothing(q, store.slots, store.byName, broadphase.proxies, broadphase.pairs);
      }
      failure := ProcessAllPairs(q, result);
    }

    /** The stored pairs handed to the overlap callback in order, none after one that failed. */
    method ProcessAllPairs(q: Query, result: CastResult) returns (failure: Option<CastCallbackError>)
      requires Valid() && IsNorm(q.len)
      modifies result
      ensures failure == None
      ensures result.Value() == RunPairs(old(result.Value()), q.request, q.contactDistance,
                                         Reports(q, store.slots, broadphase.proxies, broadphase.pairs))
    {
      hide Managed, NeedBroadphaseCollision, RunPair, PairReport, PairStands, Named, Handled, AllValid;
      failure := None;
      ghost var reports := Reports(q, store.slots, broadphase.proxies, broadphase.pairs);
      for k := 0 to |broadphase.pairs|
        invariant failure == None
        invariant result.Value() == RunPairs(old(result.Value()), q.request, q.contactDistance, reports[..k])
      {
        assert reports[..k + 1][..k] == reports[..k];
        if failure.None? {
          failure := ProcessPair(q, result, k);
        }
      }
      assert reports[..|reports|] == reports;
    }

    /** One stored pair handed to the overlap callback. */
    method ProcessPair(q: Query, result: CastResult, k: nat) returns (failure: Option<CastCallbackError>)
      requires Valid() && IsNorm(q.len) && k < |broadphase.pairs|
      modifies result
      ensures failure == None
      ensures result.Value() == RunPair(old(result.Value()), q.request, q.contactDistance,
                                        Reports(q, store.slots, broadphase.proxies, broadphase.pairs)[k])
    {
      hide Managed, NeedBroadphaseCollision, RunPair, PairReport, Overlap, Distinct;
      var pair := broadphase.pairs[k];
      assert PairStands(store.slots, broadphase.proxies, pair);
      var id0, id1 := broadphase.proxies[pair.0].clientObject, broadphase.proxies[pair.1].clientObject;
      var cow0, cow1 := store.Object(id0), store.Object(id1);
      ManagedQueryable(cow0);
      ManagedQueryable(cow1);
      OverlapNeverFails(q, result.Value(), cow0, id0, cow1, id1);
      failure := ProcessOverlap(q, result, cow0, id0, cow1, id1);
    }
  }
}
