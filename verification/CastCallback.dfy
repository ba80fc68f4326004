/**
 From a broadphase pair to stored contacts (crates/cspace-bullet-cast/src/cast_callback.rs).

 The narrow phase is a parameter: what it reports for two leaves. The traversal
 never reads the callback's state, so its dispatches are gathered first and
 their contacts handed over in the same order afterwards.
 */
module CastCallback {
  import opened LinearMath
  import opened Wrappers
  import opened Shapes
  import opened Compound
  import opened CompoundAlgorithm
  import opened CompoundProperties
  import opened ContactTestData
  import opened CollisionObject
  import opened CastContact

  datatype CastCallbackError = SweptSideIsNotAHull | Unported(unported: UnportedAlgorithm)

  /** What `add_contact_point` is called with. */
  datatype RawPoint = RawPoint(normalOnB: Vec3, pointInWorld: Vec3, depth: real)

  type NarrowPhase = (Wrapper, Wrapper) -> seq<RawPoint>

  /** What stays fixed over one query. */
  datatype Query = Query(
    request: CastRequest, contactDistance: real, acm: Option<AllowedCollisions>, narrow: NarrowPhase, len: Norm)

  /** The two wrappers a contact was produced for, each with its object. */
  datatype CastPair = CastPair(wrap0: Wrapper, cow0: CollisionObject, wrap1: Wrapper, cow1: CollisionObject)

  /** The manifold was created around the object the result calls body 1. */
  predicate IsSwapped(d: Dispatch) { d.manifold.0 != d.slot0.objectId }

  function PairOf(d: Dispatch, cow0: CollisionObject, cow1: CollisionObject): CastPair {
    if IsSwapped(d) then CastPair(d.slot1, cow1, d.slot0, cow0) else CastPair(d.slot0, cow0, d.slot1, cow1)
  }

  function PointOf(d: Dispatch, raw: RawPoint): ManifoldPoint {
    var pointA := raw.pointInWorld.Add(raw.normalOnB.Scale(raw.depth));
    var (bodyA, bodyB) := if IsSwapped(d) then (d.slot1, d.slot0) else (d.slot0, d.slot1);
    var (index0, index1) := if IsSwapped(d) then (d.index1, d.index0) else (d.index0, d.index1);
    ManifoldPoint(bodyA.objectTransform.InvXform(pointA), bodyB.objectTransform.InvXform(raw.pointInWorld),
                  pointA, raw.pointInWorld, raw.normalOnB, raw.depth, index0, index1)
  }

  /** The contact as it is first filed. */
  function Pending(point: ManifoldPoint, pair: CastPair): Contact {
    Contact(pair.cow0.name, pair.cow1.name, pair.cow0.typeId, pair.cow1.typeId,
            point.normalWorldOnB.Scale(-1.0), point.positionWorldOnA, point.distance1, Some(0.0))
  }

  predicate CastFirst(pair: CastPair) { pair.cow0.group == KINEMATIC }

  function SweptWrap(pair: CastPair): Wrapper { if CastFirst(pair) then pair.wrap0 else pair.wrap1 }

  predicate SweptIsHull(pair: CastPair) {
    SweptWrap(pair).shape.Convex? && SweptWrap(pair).shape.convex.CastHull?
  }

  /** The contact once the swept side is known: the other object first, placed along the sweep. */
  function Finished(len: Norm, point: ManifoldPoint, pair: CastPair): Contact
    requires SweptIsHull(pair)
  {
    var c := Pending(point, pair);
    var first := CastFirst(pair);
    var w := SweptWrap(pair);
    Contact(if first then c.bodyName2 else c.bodyName1, if first then c.bodyName1 else c.bodyName2,
            if first then c.bodyType2 else c.bodyType1, if first then c.bodyType1 else c.bodyType2,
            if first then c.normal.Scale(-1.0) else c.normal, c.pos, c.depth,
            PercentInterpolation(len, w.shape.convex, w.worldTransform, point, first))
  }

  // ---- one contact -------------------------------------------------------

  /** The state and the latched error after one reported point. */
  function AddPoint(q: Query, cow0: CollisionObject, cow1: CollisionObject,
                    s: State, error: Option<CastCallbackError>, d: Dispatch, raw: RawPoint): (State, Option<CastCallbackError>)
  {
    if s.done || s.pairDone || raw.depth > q.contactDistance || error.Some? then (s, error)
    else
      var pair := PairOf(d, cow0, cow1);
      var point := PointOf(d, raw);
      var key := ObjectPairKey(pair.cow0.name, pair.cow1.name);
      var (t, stored) := Accept(s, q.request, Pending(point, pair), key);
      if !stored then (t, None)
      else if !SweptIsHull(pair) then (t, Some(SweptSideIsNotAHull))
      else (t.(contacts := t.contacts[key := WriteLast(t, key, Finished(q.len, point, pair))]), None)
  }

  function WriteLast(t: State, key: Key, c: Contact): seq<Contact> {
    if key in t.contacts && t.contacts[key] != [] then t.contacts[key][..|t.contacts[key]| - 1] + [c] else []
  }

  class BridgedManifoldResult {
    const query: Query
    const cow0: CollisionObject
    const cow1: CollisionObject
    const result: CastResult
    var error: Option<CastCallbackError>

    constructor (query: Query, cow0: CollisionObject, cow1: CollisionObject, result: CastResult)
      ensures this.query == query && this.cow0 == cow0 && this.cow1 == cow1 && this.result == result
      ensures error == None
    {
      this.query, this.cow0, this.cow1, this.result := query, cow0, cow1, result;
      error := None;
    }

    method AddContactPoint(d: Dispatch, raw: RawPoint)
      requires IsNorm(query.len)
      modifies this, result
      ensures (result.Value(), error) == AddPoint(query, cow0, cow1, old(result.Value()), old(error), d, raw)
    {
      if result.done || result.pairDone || raw.depth > query.contactDistance {
        return;
      }
      if error.Some? {
        return;
      }
      var failed := AddCastSingleResult(PointOf(d, raw), PairOf(d, cow0, cow1));
      if failed.Some? {
        error := failed;
      }
    }

    method AddCastSingleResult(point: ManifoldPoint, pair: CastPair) returns (failed: Option<CastCallbackError>)
      requires IsNorm(query.len)
      modifies result
      ensures var key := ObjectPairKey(pair.cow0.name, pair.cow1.name);
              var (t, stored) := Accept(old(result.Value()), query.request, Pending(point, pair), key);
              (result.Value(), failed) ==
                if !stored then (t, None)
                else if !SweptIsHull(pair) then (t, Some(SweptSideIsNotAHull))
                else (t.(contacts := t.contacts[key := WriteLast(t, key, Finished(query.len, point, pair))]), None)
    {
      var key := ObjectPairKey(pair.cow0.name, pair.cow1.name);
      var contact := Pending(point, pair);
      var stored := result.ProcessResult(query.request, contact, key);
      if !stored {
        return None;
      }
      var castFirst := pair.cow0.group == KINEMATIC;
      var first := if castFirst then pair.wrap0 else pair.wrap1;
      if !first.shape.Convex? || !first.shape.convex.CastHull? {
        return Some(SweptSideIsNotAHull);
      }
      var finished := ApplyCastResult(query.len, contact, point, castFirst, first.shape.convex, first.worldTransform);
      result.SetLastContact(key, finished);
      failed := None;
    }
  }

  // ---- one pair ----------------------------------------------------------

  /** Every point the narrow phase reports, dispatch by dispatch. */
  function Points(narrow: NarrowPhase, log: seq<Dispatch>): seq<(Dispatch, RawPoint)> {
    if log == [] then []
    else
      var d := log[|log| - 1];
      Points(narrow, log[..|log| - 1]) + Tagged(d, narrow(d.wrap0, d.wrap1))
  }

  function Tagged(d: Dispatch, raws: seq<RawPoint>): seq<(Dispatch, RawPoint)> {
    seq(|raws|, i requires 0 <= i < |raws| => (d, raws[i]))
  }

  function Feed(q: Query, cow0: CollisionObject, cow1: CollisionObject, s: State, points: seq<(Dispatch, RawPoint)>)
    : (State, Option<CastCallbackError>)
  {
    if points == [] then (s, None)
    else
      var (t, e) := Feed(q, cow0, cow1, s, points[..|points| - 1]);
      AddPoint(q, cow0, cow1, t, e, points[|points| - 1].0, points[|points| - 1].1)
  }

  /** Shapes a query can be run over: the trees index their children. */
  ghost predicate Queryable(c: CollisionObject) { Indexed(c.shape) }

  function Top(c: CollisionObject, id: nat): Wrapper { NewWrapper(c.shape, c.worldTransform, id) }

  /** The traversal of one pair. */
  function PairRun(q: Query, cow0: CollisionObject, id0: nat, cow1: CollisionObject, id1: nat): Run
    requires Queryable(cow0) && Queryable(cow1)
  {
    Collide(Top(cow0, id0), Top(cow1, id1), ClosestPoints, q.contactDistance)
  }

  function PairPoints(q: Query, cow0: CollisionObject, id0: nat, cow1: CollisionObject, id1: nat): seq<(Dispatch, RawPoint)>
    requires Queryable(cow0) && Queryable(cow1)
  {
    Points(q.narrow, Events(PairRun(q, cow0, id0, cow1, id1).pairs, id0))
  }

  /** The state after one pair, and the failure it ended with. */
  function Overlap(q: Query, s: State, cow0: CollisionObject, id0: nat, cow1: CollisionObject, id1: nat)
    : (State, Option<CastCallbackError>)
    requires Queryable(cow0) && Queryable(cow1)
  {
    var s := s.(pairDone := false);
    if !NeedsCollision(s.done, cow0, cow1, q.acm) then (s, None)
    else
      var (t, e) := Feed(q, cow0, cow1, s, PairPoints(q, cow0, id0, cow1, id1));
      var unported := PairRun(q, cow0, id0, cow1, id1).error;
      (t, if e.Some? then e else if unported.Some? then Some(Unported(unported.value)) else None)
  }

  method ProcessOverlap(q: Query, result: CastResult, cow0: CollisionObject, id0: nat, cow1: CollisionObject, id1: nat)
    returns (failure: Option<CastCallbackError>)
    requires Queryable(cow0) && Queryable(cow1) && id0 != id1 && IsNorm(q.len)
    modifies result
    ensures (result.Value(), failure) == Overlap(q, old(result.Value()), cow0, id0, cow1, id1)
  {
    hide Collide, Feed, Points, Indexed, AcmCheck;
    result.pairDone := false;
    ghost var s := result.Value();
    if result.done {
      return None;
    }
    if !NeedsCollision(result.done, cow0, cow1, q.acm) {
      return None;
    }
    var wrap0, wrap1 := NewWrapper(cow0.shape, cow0.worldTransform, id0), NewWrapper(cow1.shape, cow1.worldTransform, id1);
    var out := new ManifoldResult(wrap0, wrap1, q.contactDistance);
    var outcome := ProcessCollision(wrap0, wrap1, ClosestPoints, out);
    assert out.log == Events(PairRun(q, cow0, id0, cow1, id1).pairs, id0);
    var error := HandOver(q, result, cow0, cow1, out.log);
    if error.Some? {
      return error;
    }
    failure := if outcome.Some? then Some(Unported(outcome.value)) else None;
  }

  method HandOver(q: Query, result: CastResult, cow0: CollisionObject, cow1: CollisionObject, log: seq<Dispatch>)
    returns (error: Option<CastCallbackError>)
    requires IsNorm(q.len)
    modifies result
    ensures (result.Value(), error) == Feed(q, cow0, cow1, old(result.Value()), Points(q.narrow, log))
  {
    hide Accept, AddPoint;
    var bridge := new BridgedManifoldResult(q, cow0, cow1, result);
    ghost var s := result.Value();
    for k := 0 to |log|
      invariant (result.Value(), bridge.error) == Feed(q, cow0, cow1, s, Points(q.narrow, log[..k]))
      invariant bridge.query == q && bridge.cow0 == cow0 && bridge.cow1 == cow1 && bridge.result == result && fresh(bridge)
    {
      var d := log[k];
      var raws := q.narrow(d.wrap0, d.wrap1);
      ghost var before := Points(q.narrow, log[..k]);
      assert log[..k + 1][..k] == log[..k];
      assert before + Tagged(d, raws[..0]) == before;
      for i := 0 to |raws|
        invariant (result.Value(), bridge.error) == Feed(q, cow0, cow1, s, before + Tagged(d, raws[..i]))
        invariant bridge.query == q && bridge.cow0 == cow0 && bridge.cow1 == cow1 && bridge.result == result && fresh(bridge)
      {
        ghost var so_far := before + Tagged(d, raws[..i]);
        assert before + Tagged(d, raws[..i + 1]) == so_far + [(d, raws[i])];
        assert (so_far + [(d, raws[i])])[..|so_far|] == so_far;
        bridge.AddContactPoint(d, raws[i]);
      }
      assert raws[..|raws|] == raws;
    }
    assert log[..|log|] == log;
    error := bridge.error;
  }

  // ---- attribution -------------------------------------------------------

  /**
   The pair a contact is filed under names the objects that produced it: each
   wrapper is the one dispatched, a leaf of the object beside it, at every depth
   and whichever way round the dispatch was.
   */
  lemma PairNamesItsObjects(q: Query, cow0: CollisionObject, id0: nat, cow1: CollisionObject, id1: nat, k: nat)
    requires Queryable(cow0) && Queryable(cow1) && id0 != id1
    requires k < |PairRun(q, cow0, id0, cow1, id1).pairs|
    ensures var d := Events(PairRun(q, cow0, id0, cow1, id1).pairs, id0)[k];
            var pair := PairOf(d, cow0, cow1);
            && pair.wrap0 == d.wrap0 && pair.wrap1 == d.wrap1
            && (IsSwapped(d) <==> d.wrap0.objectId == id1)
            && (if IsSwapped(d)
                then pair.cow0 == cow1 && pair.cow1 == cow0
                     && LeafOf(Top(cow1, id1), pair.wrap0) && LeafOf(Top(cow0, id0), pair.wrap1)
                else pair.cow0 == cow0 && pair.cow1 == cow1
                     && LeafOf(Top(cow0, id0), pair.wrap0) && LeafOf(Top(cow1, id1), pair.wrap1))
  {
    SlotsNameTheDispatched(Top(cow0, id0), Top(cow1, id1), ClosestPoints, q.contactDistance, id0, k);
  }

  /** The two local points are taken in the frames of the objects named, not of their children. */
  lemma PointUsesObjectFrames(q: Query, cow0: CollisionObject, id0: nat, cow1: CollisionObject, id1: nat, k: nat, raw: RawPoint)
    requires Queryable(cow0) && Queryable(cow1) && id0 != id1
    requires k < |PairRun(q, cow0, id0, cow1, id1).pairs|
    ensures var d := Events(PairRun(q, cow0, id0, cow1, id1).pairs, id0)[k];
            var (pair, point) := (PairOf(d, cow0, cow1), PointOf(d, raw));
            && point.localPointA == pair.cow0.worldTransform.InvXform(point.positionWorldOnA)
            && point.localPointB == pair.cow1.worldTransform.InvXform(point.positionWorldOnB)
            && point.index0 == (if pair.wrap0.path == [] then -1 else pair.wrap0.path[|pair.wrap0.path| - 1])
            && point.index1 == (if pair.wrap1.path == [] then -1 else pair.wrap1.path[|pair.wrap1.path| - 1])
  {
    SlotsNameTheDispatched(Top(cow0, id0), Top(cow1, id1), ClosestPoints, q.contactDistance, id0, k);
  }

  // ---- objects as the manager holds them ---------------------------------

  /** Filter words as the constructor writes them, and swept leaves exactly where they are needed. */
  ghost predicate Managed(c: CollisionObject) {
    && Filtered(c) && Indexed(c.shape) && AllConvexTypes(c.shape)
    && (c.group == KINEMATIC ==> AllHulls(c.shape))
  }

  ghost predicate OneKinematic(a: CollisionObject, b: CollisionObject) {
    (a.group == KINEMATIC && b.group == STATIC) || (a.group == STATIC && b.group == KINEMATIC)
  }

  lemma SweptSideIsAHull(q: Query, cow0: CollisionObject, id0: nat, cow1: CollisionObject, id1: nat, k: nat)
    requires Managed(cow0) && Managed(cow1) && OneKinematic(cow0, cow1) && id0 != id1
    requires k < |PairRun(q, cow0, id0, cow1, id1).pairs|
    ensures SweptIsHull(PairOf(Events(PairRun(q, cow0, id0, cow1, id1).pairs, id0)[k], cow0, cow1))
  {
    hide PairRun, AllConvexTypes;
    PairNamesItsObjects(q, cow0, id0, cow1, id1, k);
    var pair := PairOf(Events(PairRun(q, cow0, id0, cow1, id1).pairs, id0)[k], cow0, cow1);
    var (swept, id) := if cow0.group == KINEMATIC then (cow0, id0) else (cow1, id1);
    assert LeafOf(Top(swept, id), SweptWrap(pair));
    LeafOfHulls(Top(swept, id), SweptWrap(pair));
  }

  /** The contact a reported point ends up as. */
  function Filed'(q: Query, cow0: CollisionObject, cow1: CollisionObject, d: Dispatch, raw: RawPoint): Contact {
    var (pair, point) := (PairOf(d, cow0, cow1), PointOf(d, raw));
    if SweptIsHull(pair) then Finished(q.len, point, pair) else Pending(point, pair)
  }

  function AllFiled(q: Query, cow0: CollisionObject, cow1: CollisionObject, points: seq<(Dispatch, RawPoint)>): seq<Contact> {
    seq(|points|, i requires 0 <= i < |points| => Filed'(q, cow0, cow1, points[i].0, points[i].1))
  }

  ghost predicate AllHullPoints(cow0: CollisionObject, cow1: CollisionObject, points: seq<(Dispatch, RawPoint)>) {
    forall i :: 0 <= i < |points| ==> SweptIsHull(PairOf(points[i].0, cow0, cow1))
  }

  lemma AddPointIsReport(q: Query, cow0: CollisionObject, cow1: CollisionObject, s: State, d: Dispatch, raw: RawPoint)
    requires SweptIsHull(PairOf(d, cow0, cow1))
    ensures AddPoint(q, cow0, cow1, s, None, d, raw)
         == (Report(s, q.request, q.contactDistance, ObjectPairKey(cow0.name, cow1.name), Filed'(q, cow0, cow1, d, raw)), None)
  {
    hide PointOf, PercentInterpolation;
    KeyIdentifiesPair(cow0.name, cow1.name, cow1.name, cow0.name);
    var (pair, point) := (PairOf(d, cow0, cow1), PointOf(d, raw));
    PointDepth(d, raw);
    var key := ObjectPairKey(cow0.name, cow1.name);
    assert ObjectPairKey(pair.cow0.name, pair.cow1.name) == key;
    var finished := Finished(q.len, point, pair);
    if !(s.done || s.pairDone || raw.depth > q.contactDistance) && Accept(s, q.request, Pending(point, pair), key).1 {
      StoreThenFinish(s, q.request, Pending(point, pair), finished, key);
    }
  }

  lemma PointDepth(d: Dispatch, raw: RawPoint)
    ensures PointOf(d, raw).distance1 == raw.depth
  {}

  lemma {:induction false} FeedIsReportAll(
      q: Query, cow0: CollisionObject, cow1: CollisionObject, s: State, points: seq<(Dispatch, RawPoint)>)
    requires AllHullPoints(cow0, cow1, points)
    ensures Feed(q, cow0, cow1, s, points)
         == (ReportAll(s, q.request, q.contactDistance, ObjectPairKey(cow0.name, cow1.name),
                       AllFiled(q, cow0, cow1, points)), None)
    decreases |points|
  {
    hide AddPoint, Report, Filed', SweptIsHull;
    if points != [] {
      var n := |points| - 1;
      FeedIsReportAll(q, cow0, cow1, s, points[..n]);
      var cs := AllFiled(q, cow0, cow1, points);
      assert cs[..n] == AllFiled(q, cow0, cow1, points[..n]);
      AddPointIsReport(q, cow0, cow1, Feed(q, cow0, cow1, s, points[..n]).0, points[n].0, points[n].1);
    }
  }

  lemma {:induction false} PointsFrom(narrow: NarrowPhase, log: seq<Dispatch>, i: nat)
    requires i < |Points(narrow, log)|
    ensures Points(narrow, log)[i].0 in log
    decreases |log|
  {
    var n := |log| - 1;
    var rest := Points(narrow, log[..n]);
    if i < |rest| { PointsFrom(narrow, log[..n], i); }
  }

  /** The contacts a pair reports over a whole run, as the accumulation policy sees them. */
  function PairReport(q: Query, cow0: CollisionObject, id0: nat, cow1: CollisionObject, id1: nat): PairContacts
    requires Queryable(cow0) && Queryable(cow1)
  {
    PairContacts(ObjectPairKey(cow0.name, cow1.name),
                 if !NeedsCollision(false, cow0, cow1, q.acm) then []
                 else AllFiled(q, cow0, cow1, PairPoints(q, cow0, id0, cow1, id1)))
  }

  lemma PairPointsHull(q: Query, cow0: CollisionObject, id0: nat, cow1: CollisionObject, id1: nat)
    requires Managed(cow0) && Managed(cow1) && OneKinematic(cow0, cow1) && id0 != id1
    ensures AllHullPoints(cow0, cow1, PairPoints(q, cow0, id0, cow1, id1))
  {
    hide SweptIsHull, PairOf, PairRun, Managed;
    assert Queryable(cow0) && Queryable(cow1) by { ManagedQueryable(cow0); ManagedQueryable(cow1); }
    var log := Events(PairRun(q, cow0, id0, cow1, id1).pairs, id0);
    var points := PairPoints(q, cow0, id0, cow1, id1);
    forall i | 0 <= i < |points| ensures SweptIsHull(PairOf(points[i].0, cow0, cow1)) {
      PointsFrom(q.narrow, log, i);
      var k :| 0 <= k < |log| && log[k] == points[i].0;
      SweptSideIsAHull(q, cow0, id0, cow1, id1, k);
    }
  }

  lemma ManagedQueryable(c: CollisionObject)
    requires Managed(c)
    ensures Queryable(c)
  {}

  /**
   A pair the broadphase let through never fails: the swept side is a hull at
   every contact and no dispatch reaches an unported algorithm. The pair adds
   exactly what the accumulation policy makes of its reported contacts.
   */
  lemma OverlapNeverFails(q: Query, s: State, cow0: CollisionObject, id0: nat, cow1: CollisionObject, id1: nat)
    requires Managed(cow0) && Managed(cow1) && id0 != id1 && NeedBroadphaseCollision(cow0, cow1)
    ensures Overlap(q, s, cow0, id0, cow1, id1)
         == (RunPair(s, q.request, q.contactDistance, PairReport(q, cow0, id0, cow1, id1)), None)
  {
    hide Indexed, AllConvexTypes, AllHulls, NeedBroadphaseCollision, AcmCheck, PairPoints;
    assert Queryable(cow0) && Queryable(cow1);
    var s' := s.(pairDone := false);
    if NeedsCollision(s'.done, cow0, cow1, q.acm) {
      ExactlyOneKinematic(cow0, cow1, s'.done, q.acm);
      PairPointsHull(q, cow0, id0, cow1, id1);
      FeedIsReportAll(q, cow0, cow1, s', PairPoints(q, cow0, id0, cow1, id1));
      SweptNeverUnported(Top(cow0, id0), Top(cow1, id1), ClosestPoints, q.contactDistance);
    }
  }

  /**
   A swept pair whose boxes and trees cover their children hands every two leaves that
   share a world point to the narrow phase, once.
   */
  lemma SweptPairCoversAll(
      q: Query, cow0: CollisionObject, id0: nat, cow1: CollisionObject, id1: nat, p0: seq<nat>, p1: seq<nat>, w: Vec3)
    requires Managed(cow0) && Managed(cow1) && OneKinematic(cow0, cow1) && id0 != id1 && q.contactDistance >= 0.0
    requires Covering(cow0.shape) && Covering(cow1.shape) && cow0.worldTransform.Rigid() && cow1.worldTransform.Rigid()
    requires TouchesAt(Top(cow0, id0), p0, w) && TouchesAt(Top(cow1, id1), p1, w)
    ensures ValidPath(cow0.shape, p0) && ValidPath(cow1.shape, p1)
    ensures Found(PairRun(q, cow0, id0, cow1, id1).pairs, Descend(Top(cow0, id0), p0), Descend(Top(cow1, id1), p1))
    ensures DistinctKeys(PairRun(q, cow0, id0, cow1, id1).pairs, id0)
  {
    SweptNeverUnported(Top(cow0, id0), Top(cow1, id1), ClosestPoints, q.contactDistance);
    CullingIsConservative(Top(cow0, id0), Top(cow1, id1), ClosestPoints, q.contactDistance, p0, p1, w);
    CoveringFiled(cow0.shape);
    CoveringFiled(cow1.shape);
    NoneTwice(Top(cow0, id0), Top(cow1, id1), ClosestPoints, q.contactDistance);
  }

  // ---- touching leaves are reported --------------------------------------

  ghost predicate Penetrates(raws: seq<RawPoint>) {
    exists i :: 0 <= i < |raws| && raws[i].depth <= 0.0
  }

  /** A narrow phase that sees contact: for two convex leaves with a common point it reports a point that is not apart. */
  ghost predicate SeesContact(narrow: NarrowPhase) {
    forall x: Wrapper, y: Wrapper, w: Vec3 {:trigger TouchesAt(x, [], w), TouchesAt(y, [], w)} ::
      TouchesAt(x, [], w) && TouchesAt(y, [], w) ==> Penetrates(narrow(x, y))
  }

  /** A leaf reached by its path has the point by itself. */
  lemma {:induction false} LeafTouches(b: Wrapper, path: seq<nat>, w: Vec3)
    requires ValidPath(b.shape, path) && TouchesAt(b, path, w)
    ensures TouchesAt(Descend(b, path), [], w)
    decreases |path|
  {
    if path != [] {
      TouchesStep(b, path, w);
      LeafTouches(b.Child(path[0]), path[1..], w);
    }
  }

  /** Every point reported for a dispatch is handed over. */
  lemma {:induction false} PointsHave(narrow: NarrowPhase, log: seq<Dispatch>, k: nat, i: nat)
    requires k < |log| && i < |narrow(log[k].wrap0, log[k].wrap1)|
    ensures (log[k], narrow(log[k].wrap0, log[k].wrap1)[i]) in Points(narrow, log)
    decreases |log|
  {
    var n := |log| - 1;
    var d := log[n];
    if k < n {
      PointsHave(narrow, log[..n], k, i);
    } else {
      assert Tagged(d, narrow(d.wrap0, d.wrap1))[i] == (d, narrow(d.wrap0, d.wrap1)[i]);
    }
  }

  lemma FiledDepth(q: Query, cow0: CollisionObject, cow1: CollisionObject, d: Dispatch, raw: RawPoint)
    ensures Filed'(q, cow0, cow1, d, raw).depth == raw.depth
  {
    hide PercentInterpolation;
  }

  /**
   A pair whose swept leaf meets a leaf of the other object reports a contact
   that counts as a collision: culling offers the two leaves, the narrow phase
   sees them, and the point is filed at the depth it was seen at.
   */
  lemma TouchingIsReported(
      q: Query, cow0: CollisionObject, id0: nat, cow1: CollisionObject, id1: nat, p0: seq<nat>, p1: seq<nat>, w: Vec3)
    requires Managed(cow0) && Managed(cow1) && NeedBroadphaseCollision(cow0, cow1) && NeedsCollision(false, cow0, cow1, q.acm)
    requires id0 != id1 && q.contactDistance >= 0.0 && SeesContact(q.narrow)
    requires Covering(cow0.shape) && Covering(cow1.shape) && cow0.worldTransform.Rigid() && cow1.worldTransform.Rigid()
    requires TouchesAt(Top(cow0, id0), p0, w) && TouchesAt(Top(cow1, id1), p1, w)
    ensures Queryable(cow0) && Queryable(cow1) && AnyWithin(PairReport(q, cow0, id0, cow1, id1).reported, 0.0)
  {
    hide Covering, Transform.Rigid, Collide, Indexed, AllConvexTypes, AllHulls, AcmCheck, NeedBroadphaseCollision, Filed', Points,
         TouchesAt;
    ExactlyOneKinematic(cow0, cow1, false, q.acm);
    SweptPairCoversAll(q, cow0, id0, cow1, id1, p0, p1, w);
    LeafTouches(Top(cow0, id0), p0, w);
    LeafTouches(Top(cow1, id1), p1, w);
    var pairs := PairRun(q, cow0, id0, cow1, id1).pairs;
    var (x, y) := (Descend(Top(cow0, id0), p0), Descend(Top(cow1, id1), p1));
    var k :| 0 <= k < |pairs| && (pairs[k] == (x, y) || pairs[k] == (y, x));
    SeenAt(q, cow0, id0, cow1, id1, k, w);
  }

  lemma SeenAt(q: Query, cow0: CollisionObject, id0: nat, cow1: CollisionObject, id1: nat, k: nat, w: Vec3)
    requires Queryable(cow0) && Queryable(cow1) && NeedsCollision(false, cow0, cow1, q.acm) && SeesContact(q.narrow)
    requires var pairs := PairRun(q, cow0, id0, cow1, id1).pairs;
             k < |pairs| && TouchesAt(pairs[k].0, [], w) && TouchesAt(pairs[k].1, [], w)
    ensures AnyWithin(PairReport(q, cow0, id0, cow1, id1).reported, 0.0)
  {
    hide Collide, Indexed, AcmCheck, Filed', TouchesAt, PairRun;
    var log := Events(PairRun(q, cow0, id0, cow1, id1).pairs, id0);
    var raws := q.narrow(log[k].wrap0, log[k].wrap1);
    var i :| 0 <= i < |raws| && raws[i].depth <= 0.0;
    PointsHave(q.narrow, log, k, i);
    var points := PairPoints(q, cow0, id0, cow1, id1);
    var j :| 0 <= j < |points| && points[j] == (log[k], raws[i]);
    FiledDepth(q, cow0, cow1, log[k], raws[i]);
    assert PairReport(q, cow0, id0, cow1, id1).reported[j].depth == raws[i].depth;
  }

  // ---- what a filed contact says -----------------------------------------

  lemma {:induction false} PointOrigin(narrow: NarrowPhase, log: seq<Dispatch>, i: nat) returns (k: nat, j: nat)
    requires i < |Points(narrow, log)|
    ensures k < |log| && j < |narrow(log[k].wrap0, log[k].wrap1)|
    ensures Points(narrow, log)[i] == (log[k], narrow(log[k].wrap0, log[k].wrap1)[j])
    decreases |log|
  {
    var n := |log| - 1;
    var rest := Points(narrow, log[..n]);
    if i < |rest| {
      k, j := PointOrigin(narrow, log[..n], i);
    } else {
      k, j := n, i - |rest|;
    }
  }

  lemma TurnedTwice(n: Vec3)
    ensures n.Scale(-1.0).Scale(-1.0) == n
  {}

  /** The kinematic one of two objects and the other, with their identities. */
  function Movers(cow0: CollisionObject, id0: nat, cow1: CollisionObject, id1: nat): ((CollisionObject, nat), (CollisionObject, nat)) {
    if cow0.group == KINEMATIC then ((cow0, id0), (cow1, id1)) else ((cow1, id1), (cow0, id0))
  }

  /**
   A filed contact, told by the objects and the raw point it came from. Body 1 is
   the object that stands still and body 2 the one that sweeps, whichever came
   first in the pair and in the dispatch; the normal runs from body 1 to body 2;
   position and depth are the raw point's; and the fraction is that of the
   dispatched hull of body 2 at the raw point.
   */
  lemma ContactTellsItsPoint(q: Query, cow0: CollisionObject, id0: nat, cow1: CollisionObject, id1: nat, i: nat)
    returns (k: nat, j: nat)
    requires Managed(cow0) && Managed(cow1) && OneKinematic(cow0, cow1) && id0 != id1
    requires Queryable(cow0) && Queryable(cow1) && i < |PairReport(q, cow0, id0, cow1, id1).reported|
    ensures k < |PairRun(q, cow0, id0, cow1, id1).pairs|
    ensures var (x, y) := PairRun(q, cow0, id0, cow1, id1).pairs[k];
            j < |q.narrow(x, y)|
    ensures var (x, y) := PairRun(q, cow0, id0, cow1, id1).pairs[k];
            var (raw, c) := (q.narrow(x, y)[j], PairReport(q, cow0, id0, cow1, id1).reported[i]);
            var ((moving, id), (still, _)) := Movers(cow0, id0, cow1, id1);
            var w := if y.objectId == id then y else x;
            && c.bodyName1 == still.name && c.bodyType1 == still.typeId
            && c.bodyName2 == moving.name && c.bodyType2 == moving.typeId
            && c.normal == (if y.objectId == id then raw.normalOnB.Scale(-1.0) else raw.normalOnB)
            && c.depth == raw.depth && c.pos == raw.pointInWorld.Add(raw.normalOnB.Scale(raw.depth))
            && w.objectId == id && w.shape.Convex? && w.shape.convex.CastHull?
            && exists p: ManifoldPoint ::
                 && p.normalWorldOnB == raw.normalOnB && p.positionWorldOnA == c.pos && p.positionWorldOnB == raw.pointInWorld
                 && c.percentInterpolation
                    == PercentInterpolation(q.len, w.shape.convex, w.worldTransform, p, y.objectId != id)
  {
    hide PercentInterpolation, AcmCheck, Managed, Vec3.Scale, Vec3.Add, LeafOf, Collide;
    var pairs := PairRun(q, cow0, id0, cow1, id1).pairs;
    var log := Events(pairs, id0);
    k, j := PointOrigin(q.narrow, log, i);
    var (d, raw) := (log[k], q.narrow(pairs[k].0, pairs[k].1)[j]);
    SlotsNameTheDispatched(Top(cow0, id0), Top(cow1, id1), ClosestPoints, q.contactDistance, id0, k);
    SweptSideIsAHull(q, cow0, id0, cow1, id1, k);
    TurnedTwice(raw.normalOnB);
    var (pair, p) := (PairOf(d, cow0, cow1), PointOf(d, raw));
    assert PairReport(q, cow0, id0, cow1, id1).reported[i] == Finished(q.len, p, pair);
  }

  // ---- the allowed-collision matrix --------------------------------------

  /** What the matrix has for two objects, in the order the pair is stored. */
  function Entry(q: Query, a: CollisionObject, b: CollisionObject): Option<AllowedCollisionType> {
    if q.acm.None? then None else q.acm.value(a.name, b.name)
  }

  /** A pair marked as allowed, always or conditionally, reports nothing; one marked never or not marked at all is asked, so
      that two touching leaves of it are reported. */
  lemma MatrixDecides(
      q: Query, cow0: CollisionObject, id0: nat, cow1: CollisionObject, id1: nat, p0: seq<nat>, p1: seq<nat>, w: Vec3)
    requires Managed(cow0) && Managed(cow1) && NeedBroadphaseCollision(cow0, cow1) && OneKinematic(cow0, cow1)
    requires id0 != id1 && q.contactDistance >= 0.0 && SeesContact(q.narrow)
    requires Covering(cow0.shape) && Covering(cow1.shape) && cow0.worldTransform.Rigid() && cow1.worldTransform.Rigid()
    requires TouchesAt(Top(cow0, id0), p0, w) && TouchesAt(Top(cow1, id1), p1, w)
    ensures Queryable(cow0) && Queryable(cow1)
    ensures match Entry(q, cow0, cow1)
            case Some(Always) => PairReport(q, cow0, id0, cow1, id1).reported == []
            case Some(Conditional) => PairReport(q, cow0, id0, cow1, id1).reported == []
            case Some(Never) => AnyWithin(PairReport(q, cow0, id0, cow1, id1).reported, 0.0)
            case None => AnyWithin(PairReport(q, cow0, id0, cow1, id1).reported, 0.0)
  {
    hide Covering, Transform.Rigid, Collide, Indexed, AllConvexTypes, AllHulls, NeedBroadphaseCollision, Filed', Points, TouchesAt,
         AnyWithin, SeesContact, PairPoints;
    if NeedsCollision(false, cow0, cow1, q.acm) { TouchingIsReported(q, cow0, id0, cow1, id1, p0, p1, w); }
  }
}
