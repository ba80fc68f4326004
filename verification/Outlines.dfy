/**
 Outlines: cycles of vertices linked by `next` and `prev`, spliced and searched in the plane
 (crates/cspace-bullet/src/convex_hull_computer.rs:836-870, 1323-1325, 1356-1435, 1484-1488).
 */
module Outlines {
  import opened GridSort
  import opened HalfEdges
  import opened HullBounds

  // ---- cycles ------------------------------------------------------------

  ghost predicate NeighboursAt(verts: seq<Vertex>, cyc: seq<nat>, i: nat)
    requires i < |cyc|
  {
    && cyc[i] < |verts|
    && verts[cyc[i]].next == cyc[Succ(i, |cyc|)] && verts[cyc[i]].prev == cyc[Pred(i, |cyc|)]
  }

  /** `next` and `prev` run around `cyc`, inverse to each other. */
  ghost predicate PolygonOf(verts: seq<Vertex>, cyc: seq<nat>) {
    |cyc| > 0 && Distinct(cyc) && forall i :: 0 <= i < |cyc| ==> NeighboursAt(verts, cyc, i)
  }

  lemma RotatedPolygon(verts: seq<Vertex>, cyc: seq<nat>, i: nat)
    requires PolygonOf(verts, cyc) && i < |cyc|
    ensures PolygonOf(verts, Rotated(cyc, i))
  {
    var r := Rotated(cyc, i);
    RotatedMembers(cyc, i);
    forall k | 0 <= k < |r| ensures NeighboursAt(verts, r, k) {
      var j := if k + i < |cyc| then k + i else k + i - |cyc|;
      assert r[k] == cyc[j] && NeighboursAt(verts, cyc, j);
      assert r[Succ(k, |r|)] == cyc[Succ(j, |cyc|)] && r[Pred(k, |r|)] == cyc[Pred(j, |cyc|)];
    }
  }

  /** A vertex's neighbours are on its cycle, and `next` and `prev` undo each other. */
  lemma Neighbours(verts: seq<Vertex>, cyc: seq<nat>, v: nat)
    requires PolygonOf(verts, cyc) && v in cyc
    ensures v < |verts| && verts[v].next >= 0 && verts[v].prev >= 0
    ensures verts[v].next in cyc && verts[v].prev in cyc
    ensures verts[v].next < |verts| && verts[v].prev < |verts|
    ensures verts[verts[v].next].prev == v && verts[verts[v].prev].next == v
    ensures verts[v].prev == v <==> |cyc| == 1
  {
    var i := IndexOf(cyc, v);
    assert NeighboursAt(verts, cyc, i);
    assert NeighboursAt(verts, cyc, Succ(i, |cyc|)) && NeighboursAt(verts, cyc, Pred(i, |cyc|));
  }

  /** The stretch of a cycle from `u` to `v` along `next`. */
  ghost function Arc(cyc: seq<nat>, u: nat, v: nat): seq<nat>
    requires u in cyc && v in cyc
  {
    RotatedMembers(cyc, IndexOf(cyc, u));
    From(cyc, u)[..IndexOf(From(cyc, u), v) + 1]
  }

  lemma ArcFacts(verts: seq<Vertex>, cyc: seq<nat>, u: nat, v: nat)
    requires PolygonOf(verts, cyc) && u in cyc && v in cyc
    ensures var arc := Arc(cyc, u, v);
            && |arc| > 0 && arc[0] == u && arc[|arc| - 1] == v && Distinct(arc)
            && (forall x :: x in arc ==> x in cyc && x < |verts|)
            && (forall k :: 0 < k < |arc| ==> StepAt(verts, arc, k))
  {
    RotatedMembers(cyc, IndexOf(cyc, u));
    RotatedPolygon(verts, cyc, IndexOf(cyc, u));
    var r := From(cyc, u);
    var arc := Arc(cyc, u, v);
    forall x | x in arc ensures x in cyc && x < |verts| {
      assert x in r;
      Neighbours(verts, cyc, x);
    }
    forall k | 0 < k < |arc| ensures StepAt(verts, arc, k) {
      assert NeighboursAt(verts, r, k) && NeighboursAt(verts, r, k - 1);
    }
  }

  /** Consecutive vertices of an arc are linked both ways. */
  ghost predicate StepAt(verts: seq<Vertex>, arc: seq<nat>, k: nat)
    requires 0 < k < |arc|
  {
    && arc[k - 1] < |verts| && arc[k] < |verts|
    && verts[arc[k - 1]].next == arc[k] && verts[arc[k]].prev == arc[k - 1]
  }

  // ---- the splice --------------------------------------------------------

  /** `a.next = b; b.prev = a`. */
  function Join(verts: seq<Vertex>, a: nat, b: nat): seq<Vertex>
    requires a < |verts| && b < |verts|
  {
    var half := verts[a := verts[a].(next := b)];
    half[b := half[b].(prev := a)]
  }

  lemma JoinFields(verts: seq<Vertex>, a: nat, b: nat)
    requires a < |verts| && b < |verts|
    ensures |Join(verts, a, b)| == |verts|
    ensures forall x :: 0 <= x < |verts| ==>
              && Join(verts, a, b)[x].next == (if x == a then b else verts[x].next)
              && Join(verts, a, b)[x].prev == (if x == b then a else verts[x].prev)
              && SameButPolygon(verts[x], Join(verts, a, b)[x])
  {}

  predicate SameButPolygon(v: Vertex, w: Vertex) {
    v.edges == w.edges && v.point == w.point && v.copy == w.copy
  }

  /** Two arcs, each run forwards and joined end to end both ways, are one cycle. */
  lemma ArcsClose(verts: seq<Vertex>, p: seq<nat>, q: seq<nat>)
    requires |p| > 0 && |q| > 0 && Distinct(p + q)
    requires forall x :: x in p + q ==> x < |verts|
    requires forall k :: 0 < k < |p| ==> StepAt(verts, p, k)
    requires forall k :: 0 < k < |q| ==> StepAt(verts, q, k)
    ensures p[0] in p + q && q[0] in p + q && p[|p| - 1] in p + q && q[|q| - 1] in p + q
    ensures PolygonOf(Join(Join(verts, q[|q| - 1], p[0]), p[|p| - 1], q[0]), p + q)
  {
    var m, n := |p|, |q|;
    var r := p + q;
    assert r[0] == p[0] && r[m - 1] == p[m - 1] && r[m] == q[0] && r[m + n - 1] == q[n - 1];
    assert r[0] in r && r[m - 1] in r && r[m] in r && r[m + n - 1] in r;
    var half := Join(verts, q[n - 1], p[0]);
    var verts' := Join(half, p[m - 1], q[0]);
    JoinFields(verts, q[n - 1], p[0]);
    JoinFields(half, p[m - 1], q[0]);
    hide Join;
    forall k | 0 <= k < m + n ensures NeighboursAt(verts', r, k) {
      assert r[k] in r;
      assert 0 < k < m ==> StepAt(verts, p, k);
      assert k + 1 < m ==> StepAt(verts, p, k + 1);
      assert m < k ==> StepAt(verts, q, k - m);
      assert m <= k && k + 1 < m + n ==> StepAt(verts, q, k - m + 1);
    }
  }

  /** Taking a vertex out of a cycle of several. */
  lemma WithoutVertex(verts: seq<Vertex>, cyc: seq<nat>, v: nat)
    requires PolygonOf(verts, cyc) && v in cyc && |cyc| > 1
    ensures v < |verts| && 0 <= verts[v].prev < |verts| && 0 <= verts[v].next < |verts|
    ensures PolygonOf(Join(verts, verts[v].prev, verts[v].next), After(cyc, v))
  {
    Neighbours(verts, cyc, v);
    var i, n := IndexOf(cyc, v), |cyc|;
    var r := Rotated(cyc, i);
    RotatedPolygon(verts, cyc, i);
    AfterMembers(cyc, v);
    var rest := r[1..];
    assert NeighboursAt(verts, r, 0);
    JoinFields(verts, r[n - 1], r[1]);
    var verts' := Join(verts, r[n - 1], r[1]);
    hide Join;
    forall k | 0 <= k < n - 1 ensures NeighboursAt(verts', rest, k) {
      assert NeighboursAt(verts, r, k + 1);
      assert rest[k] == r[k + 1];
    }
  }

  // ---- the grid and its 32-bit arithmetic --------------------------------

  predicate OnAxis(c: int) { Within(c, GRID) }

  /** A difference of two grid coordinates. */
  function Diff(a: int, b: int): (d: int)
    requires OnAxis(a) && OnAxis(b)
    ensures Within(d, SPAN) && FitsI32(d)
  {
    a - b
  }

  /** A product of two such differences fits 32 bits. */
  function Times(a: int, b: int): (p: int)
    requires Within(a, SPAN) && Within(b, SPAN)
    ensures p == Mul(a, b) && FitsI32(p)
  {
    ProductWithin(a, b, SPAN, SPAN);
    Mul(a, b)
  }

  ghost predicate Gridded(verts: seq<Vertex>, cyc: seq<nat>) {
    forall v :: v in cyc ==> v < |verts| && OnAxis(verts[v].point.x) && OnAxis(verts[v].point.y)
  }

  predicate SameXy(p: Point32, q: Point32) { p.x == q.x && p.y == q.y }

  /** No two vertices of the outline project to one point. */
  ghost predicate DistinctXy(verts: seq<Vertex>, cyc: seq<nat>) {
    forall u, v :: u in cyc && v in cyc && u < |verts| && v < |verts| && SameXy(verts[u].point, verts[v].point) ==> u == v
  }

  /** An outline as the searches find it. */
  ghost predicate Outline(verts: seq<Vertex>, cyc: seq<nat>) {
    PolygonOf(verts, cyc) && Gridded(verts, cyc) && DistinctXy(verts, cyc)
  }

  // ---- the tangent searches ----------------------------------------------

  /** The neighbour a search looks at: one way round on the first side, the other on the second. */
  function Neighbour(verts: seq<Vertex>, v: nat, forward: bool): int
    requires v < |verts|
  {
    if forward then verts[v].next else verts[v].prev
  }

  /** `w` is level with or below `v`, and straight below it or on or below the bridge prolonged beyond `v`. */
  predicate FallsBehind(dx: int, dy: int, dxw: int, dyw: int)
    requires Within(dx, SPAN) && Within(dy, SPAN) && Within(dxw, SPAN) && Within(dyw, SPAN)
  {
    dyw <= 0 && (dxw == 0 || (dxw < 0 && Times(dyw, dx) <= Times(dy, dxw)))
  }

  /** The strict form for the far end. */
  predicate FallsAhead(dx: int, dy: int, dxw: int, dyw: int)
    requires Within(dx, SPAN) && Within(dy, SPAN) && Within(dxw, SPAN) && Within(dyw, SPAN)
  {
    dyw < 0 && (dxw == 0 || (dxw < 0 && Times(dyw, dx) < Times(dy, dxw)))
  }

  /** The same for the bridge that leans the other way: `w` level with or above. */
  predicate RisesBehind(dx: int, dy: int, dxw: int, dyw: int)
    requires Within(dx, SPAN) && Within(dy, SPAN) && Within(dxw, SPAN) && Within(dyw, SPAN)
  {
    dyw >= 0 && (dxw == 0 || (dxw < 0 && Times(dyw, dx) <= Times(dy, dxw)))
  }

  predicate RisesAhead(dx: int, dy: int, dxw: int, dyw: int)
    requires Within(dx, SPAN) && Within(dy, SPAN) && Within(dxw, SPAN) && Within(dyw, SPAN)
  {
    dyw > 0 && (dxw == 0 || (dxw < 0 && Times(dyw, dx) < Times(dy, dxw)))
  }

  /** Signed horizontal difference: the second search looks at the mirrored picture. */
  function Across(verts: seq<Vertex>, from: nat, to: nat, sign: int): (d: int)
    requires from < |verts| && to < |verts| && OnAxis(verts[from].point.x) && OnAxis(verts[to].point.x)
    requires sign == 1 || sign == -1
    ensures Within(d, SPAN) && FitsI32(d)
  {
    Diff(verts[to].point.x, verts[from].point.x) * sign
  }

  function Up(verts: seq<Vertex>, from: nat, to: nat): (d: int)
    requires from < |verts| && to < |verts| && OnAxis(verts[from].point.y) && OnAxis(verts[to].point.y)
    ensures Within(d, SPAN) && FitsI32(d)
  {
    Diff(verts[to].point.y, verts[from].point.y)
  }

  /** Signs of a step, enough to see that a search moves one way only. */
  lemma StepSigns(dx: int, dy: int, dxw: int, dyw: int)
    requires Within(dx, SPAN) && Within(dy, SPAN) && Within(dxw, SPAN) && Within(dyw, SPAN)
    ensures FallsBehind(dx, dy, dxw, dyw) ==> dyw <= 0 && dxw <= 0
    ensures FallsAhead(dx, dy, dxw, dyw) ==> dyw < 0 && dxw <= 0
    ensures RisesBehind(dx, dy, dxw, dyw) ==> dyw >= 0 && dxw <= 0
    ensures RisesAhead(dx, dy, dxw, dyw) ==> dyw > 0 && dxw <= 0
  {}

  /** A neighbour on an outline is another of its vertices and projects elsewhere. */
  lemma NeighbourElsewhere(verts: seq<Vertex>, cyc: seq<nat>, v: nat, forward: bool)
    requires Outline(verts, cyc) && v in cyc
    ensures v < |verts| && OnAxis(verts[v].point.x) && OnAxis(verts[v].point.y)
    ensures var w := Neighbour(verts, v, forward);
            && w >= 0 && w in cyc && w < |verts| && OnAxis(verts[w].point.x) && OnAxis(verts[w].point.y)
            && (if w == v then forall u :: u in cyc ==> u == v else !SameXy(verts[v].point, verts[w].point))
  {
    Neighbours(verts, cyc, v);
    assert verts[v].next == v ==> |cyc| == 1 by {
      Neighbours(verts, cyc, verts[v].next);
    }
  }

  predicate GridAt(verts: seq<Vertex>, v: nat)
    requires v < |verts|
  {
    OnAxis(verts[v].point.x) && OnAxis(verts[v].point.y)
  }

  /** `t` does not continue the vertical run `from` started. */
  ghost predicate RunEnds(verts: seq<Vertex>, from: nat, v: nat, t: int, down: bool)
    requires v < |verts| && from < |verts|
  {
    && 0 <= t < |verts|
    && (t == from || verts[t].point.x != verts[from].point.x
        || (if down then verts[t].point.y > verts[v].point.y else verts[t].point.y < verts[v].point.y))
  }

  // ---- extremes ----------------------------------------------------------

  predicate LessXy(a: Point32, b: Point32) { a.x < b.x || (a.x == b.x && a.y < b.y) }

  predicate LessYx(a: Point32, b: Point32) { a.y < b.y || (a.y == b.y && a.x < b.x) }

  /** `v` is on the outline and none of its vertices comes before it. */
  ghost predicate FirstBy(verts: seq<Vertex>, cyc: seq<nat>, v: int, xFirst: bool) {
    && v >= 0 && v in cyc && v < |verts|
    && forall u :: u in cyc && u < |verts| ==>
         !(if xFirst then LessXy(verts[u].point, verts[v].point) else LessYx(verts[u].point, verts[v].point))
  }

  ghost predicate LastBy(verts: seq<Vertex>, cyc: seq<nat>, v: int, xFirst: bool) {
    && v >= 0 && v in cyc && v < |verts|
    && forall u :: u in cyc && u < |verts| ==>
         !(if xFirst then LessXy(verts[v].point, verts[u].point) else LessYx(verts[v].point, verts[u].point))
  }
}
