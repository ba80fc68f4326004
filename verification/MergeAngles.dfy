/**
 Choosing the edge that turns least around the current bridge
 (crates/cspace-bullet/src/convex_hull_computer.rs:1203-1288, 1898-1918).
 */
module MergeAngles {
  import opened Int128
  import opened Rationals
  import opened GridSort
  import opened HalfEdges
  import opened HullBounds
  import opened VectorLaws

  datatype Orientation = Neither | Clockwise | CounterClockwise

  function At(p: Point32): Vector { Vector(p.x, p.y, p.z) }

  /** All coordinates are on the grid. */
  ghost predicate AllOnGrid(verts: seq<Vertex>) {
    forall v :: 0 <= v < |verts| ==> At(verts[v].point).In(GRID)
  }

  /** The links a ring edge relies on. */
  predicate Sound(verts: seq<Vertex>, edges: seq<InternalEdge>, e: int) {
    && 0 <= e < |edges| && 0 <= edges[e].target < |verts|
    && 0 <= edges[e].reverse < |edges| && 0 <= edges[edges[e].reverse].target < |verts|
  }

  /** Adjacency on the ring decides; on a two-edge ring, where both neighbours coincide, a triple product does. */
  function GetOrientation(verts: seq<Vertex>, edges: seq<InternalEdge>, prev: int, next: int, s: Vector, t: Vector)
    : Orientation
    requires Sound(verts, edges, prev) && Sound(verts, edges, next)
  {
    if edges[prev].next == next then
      if edges[prev].prev == next then
        var n := t.Cross(s);
        var origin := At(verts[edges[edges[next].reverse].target].point);
        var m := At(verts[edges[prev].target].point).Minus(origin).Cross(At(verts[edges[next].target].point).Minus(origin));
        if n.Dot(m) > 0 then CounterClockwise else Clockwise
      else CounterClockwise
    else if edges[prev].prev == next then Clockwise
    else Neither
  }

  lemma CrossFlips(u: Vector, v: Vector, n: Vector)
    ensures n.Dot(u.Cross(v)) == -n.Dot(v.Cross(u))
  {
    MulCommutes(u.y, v.z);
    MulCommutes(u.z, v.y);
    MulCommutes(u.z, v.x);
    MulCommutes(u.x, v.z);
    MulCommutes(u.x, v.y);
    MulCommutes(u.y, v.x);
    var c, d := u.Cross(v), v.Cross(u);
    assert c.x == -d.x && c.y == -d.y && c.z == -d.z by { hide Mul; }
    MulNegates(n.x, d.x);
    MulNegates(n.y, d.y);
    MulNegates(n.z, d.z);
  }

  lemma MulCommutes(a: int, b: int)
    ensures Mul(a, b) == Mul(b, a)
  {}

  lemma MulNegates(a: int, b: int)
    ensures Mul(a, -b) == -Mul(a, b)
  {}

  /** Exchanging the two edges exchanges the two directions, except that a degenerate two-edge ring is clockwise both
      ways. */
  lemma OrientationFlips(verts: seq<Vertex>, edges: seq<InternalEdge>, prev: int, next: int, s: Vector, t: Vector)
    requires Sound(verts, edges, prev) && Sound(verts, edges, next)
    requires edges[edges[prev].reverse].target == edges[edges[next].reverse].target
    requires edges[prev].next == next <==> edges[next].prev == prev
    requires edges[next].next == prev <==> edges[prev].prev == next
    ensures var a, b := GetOrientation(verts, edges, prev, next, s, t), GetOrientation(verts, edges, next, prev, s, t);
            var origin := At(verts[edges[edges[next].reverse].target].point);
            var m := At(verts[edges[prev].target].point).Minus(origin).Cross(At(verts[edges[next].target].point).Minus(origin));
            var flat := edges[prev].next == next && edges[prev].prev == next && t.Cross(s).Dot(m) == 0;
            && (a == Neither <==> b == Neither)
            && (flat ==> a == b == Clockwise)
            && (!flat ==> (a == CounterClockwise <==> b == Clockwise) && (a == Clockwise <==> b == CounterClockwise))
  {
    hide Mul, Vector.Cross, Vector.Dot, Vector.Minus;
    var origin := At(verts[edges[edges[next].reverse].target].point);
    CrossFlips(At(verts[edges[prev].target].point).Minus(origin), At(verts[edges[next].target].point).Minus(origin), t.Cross(s));
  }

  /**
   On the ring of a vertex: where there are three edges or more, the one after an
   edge is counter-clockwise of it, the one before it clockwise, and no other is
   either.
   */
  lemma RingOrientation(verts: seq<Vertex>, edges: seq<InternalEdge>, v: int, ring: seq<nat>, i: nat, j: nat, s: Vector, t: Vector)
    requires RingOf(edges, v, ring) && |ring| >= 3 && i < |ring| && j < |ring|
    requires Sound(verts, edges, ring[i]) && Sound(verts, edges, ring[j])
    ensures GetOrientation(verts, edges, ring[i], ring[j], s, t)
         == if j == Succ(i, |ring|) then CounterClockwise else if j == Pred(i, |ring|) then Clockwise else Neither
  {
    assert LinkedAt(edges, ring, i);
    assert j != Succ(i, |ring|) ==> ring[j] != ring[Succ(i, |ring|)];
    assert j != Pred(i, |ring|) ==> ring[j] != ring[Pred(i, |ring|)];
    assert ring[Succ(i, |ring|)] != ring[Pred(i, |ring|)];
  }

  /** On a ring of two edges `a` and `b`, the other edge is counter-clockwise exactly when `t` and `s` turn the way `a` and
      `b` do, seen from the same side. */
  lemma PairOrientation(verts: seq<Vertex>, edges: seq<InternalEdge>, v: int, ring: seq<nat>, s: Vector, t: Vector)
    requires RingOf(edges, v, ring) && |ring| == 2 && 0 <= v < |verts|
    requires Sound(verts, edges, ring[0]) && Sound(verts, edges, ring[1])
    ensures var (o, p, q) := (verts[v].point, verts[edges[ring[0]].target].point, verts[edges[ring[1]].target].point);
            var (a, b) := (Vector(p.x - o.x, p.y - o.y, p.z - o.z), Vector(q.x - o.x, q.y - o.y, q.z - o.z));
            GetOrientation(verts, edges, ring[0], ring[1], s, t)
            == if t.Dot(a) * s.Dot(b) > t.Dot(b) * s.Dot(a) then CounterClockwise else Clockwise
  {
    hide Vector.Dot, Vector.Cross;
    assert LinkedAt(edges, ring, 0) && LinkedAt(edges, ring, 1);
    var o := At(verts[v].point);
    var (a, b) := (At(verts[edges[ring[0]].target].point).Minus(o), At(verts[edges[ring[1]].target].point).Minus(o));
    TiedVolume(t, s, a, b);
    DotTurns(t.Cross(s), a.Cross(b));
  }

  /**
   The tie-break of the turn search is never on a flat ring: of two edges that
   turn equally around the bridge `s`, neither straight along it, the triple
   product vanishes only if they leave in one line.
   */
  lemma FlatTieInLine(a: Vector, b: Vector, r: Vector, s: Vector)
    requires var u, v := r.Cross(s), s.Cross(r.Cross(s));
             && (u.Dot(b) != 0 || v.Dot(b) != 0)
             && u.Dot(a) * v.Dot(b) == u.Dot(b) * v.Dot(a)
    ensures b.Cross(s).Dot(a.Cross(b)) == 0 <==> a.Cross(b) == ORIGIN
  {
    hide Vector.Dot, Vector.Cross, Plus, Scaled;
    var u, v, w, n := r.Cross(s), s.Cross(r.Cross(s)), a.Cross(b), b.Cross(s);
    DotNothing(n);
    if n.Dot(w) == 0 {
      Across(r, s, w, a, b);
      BridgeSide(b, r, s);
      CrossTwice(w, b, s);
      InPlane(a, b);
      DotTurns(w, b);
      AcrossBoth(w, b, s);
      AlongAndAcross(w, n);
    }
  }

  /** A tie puts the volume's base across the bridge. */
  lemma Across(r: Vector, s: Vector, w: Vector, a: Vector, b: Vector)
    requires w == a.Cross(b)
    requires var u, v := r.Cross(s), s.Cross(r.Cross(s));
             && (u.Dot(b) != 0 || v.Dot(b) != 0)
             && u.Dot(a) * v.Dot(b) == u.Dot(b) * v.Dot(a)
    ensures w.Dot(s) == 0
  {
    hide Vector.Dot, Vector.Cross, Plus, Scaled;
    var u, v := r.Cross(s), s.Cross(r.Cross(s));
    TiedVolume(u, v, a, b);
    CrossTwice(u, s, u);
    InPlane(r, s);
    DotTurns(u, s);
    PlusNothing(u.Cross(v), u);
    DotScaled(w, s, u.Dot(u));
    if u.Dot(u) == 0 {
      SquareZero(u);
      DotNothing(s);
      DotNothing(b);
      DotTurns(u, b);
      DotTurns(v, b);
    }
  }

  lemma PlusNothing(u: Vector, v: Vector)
    ensures Plus(u, Scaled(v, 0)) == u
  {}

  lemma AcrossBoth(w: Vector, b: Vector, s: Vector)
    requires w.Dot(b) == 0 && w.Dot(s) == 0
    ensures w.Cross(b.Cross(s)) == ORIGIN
  {
    hide Vector.Dot, Vector.Cross;
    CrossTwice(w, b, s);
  }

  /** An edge with an angle around the bridge is not along it. */
  lemma BridgeSide(b: Vector, r: Vector, s: Vector)
    requires r.Cross(s).Dot(b) != 0 || s.Cross(r.Cross(s)).Dot(b) != 0
    ensures b.Cross(s) != ORIGIN
  {
    hide Vector.Dot, Vector.Cross, Plus, Scaled;
    var u, n := r.Cross(s), b.Cross(s);
    TripleTurns(b, r, s);
    TripleTurns(r, s, b);
    TripleTurns(s, b, r);
    TripleTurns(b, s, u);
    TripleTurns(s, u, b);
    TripleTurns(u, b, s);
    DotTurns(b, u);
    DotTurns(b, s.Cross(u));
    DotNothing(u);
    DotNothing(r);
    if n == ORIGIN { CrossBack(b, s); }
  }

  lemma CrossBack(u: Vector, v: Vector)
    requires u.Cross(v) == ORIGIN
    ensures v.Cross(u) == ORIGIN
  {
    MulCommutes(u.x, v.y);
    MulCommutes(u.y, v.x);
    MulCommutes(u.x, v.z);
    MulCommutes(u.z, v.x);
    MulCommutes(u.y, v.z);
    MulCommutes(u.z, v.y);
    hide Mul;
  }

  /** The direction an edge of `start` turns to, as an exact cotangent. */
  function Turn(verts: seq<Vertex>, edges: seq<InternalEdge>, start: nat, e: int): Vector
    requires start < |verts| && Sound(verts, edges, e)
  {
    At(verts[edges[e].target].point).Minus(At(verts[start].point))
  }

  /** The bounds on the vectors of the current turn, as `AngleFits` gives them. */
  predicate TurnBounds(rxs: Vector, sxrxs: Vector) { rxs.In(NUDGED) && sxrxs.In(2 * (SPAN * NUDGED)) }

  function Cot(verts: seq<Vertex>, edges: seq<InternalEdge>, start: nat, e: int, rxs: Vector, sxrxs: Vector)
    : (r: Rational64)
    requires start < |verts| && Sound(verts, edges, e) && TurnBounds(rxs, sxrxs)
    requires At(verts[start].point).In(GRID) && At(verts[edges[e].target].point).In(GRID)
    ensures r.Formed()
  {
    var t := Turn(verts, edges, start, e);
    DotsFit(At(verts[start].point), At(verts[edges[e].target].point), rxs, sxrxs);
    NewRational64(t.Dot(sxrxs), t.Dot(rxs))
  }

  lemma DotsFit(start: Vector, target: Vector, rxs: Vector, sxrxs: Vector)
    requires start.In(GRID) && target.In(GRID) && TurnBounds(rxs, sxrxs)
    ensures var t := target.Minus(start); Within(t.Dot(sxrxs), P57 - 1) && Within(t.Dot(rxs), P57 - 1)
  {
    hide Mul, Vector.Minus, Vector.Cross, Vector.Dot, Vector.In;
    Magnitudes();
    VectorsIn(target, start, GRID, GRID);
    VectorsIn(target.Minus(start), sxrxs, SPAN, 2 * (SPAN * NUDGED));
    VectorsIn(target.Minus(start), rxs, SPAN, NUDGED);
  }

  /**
   What is compared is the cotangent of the turn from the plane of `rxs` and
   `sxrxs`: of two edges neither of which lies in the plane across `rxs`, the
   order is that of the quotients of their two projections; and an edge has none
   exactly when both vanish, as they do straight along the bridge.
   */
  lemma CotOrders(verts: seq<Vertex>, edges: seq<InternalEdge>, start: nat, e: int, f: int, rxs: Vector, sxrxs: Vector)
    requires start < |verts| && Sound(verts, edges, e) && Sound(verts, edges, f) && TurnBounds(rxs, sxrxs) && AllOnGrid(verts)
    ensures var (o, p, q) := (verts[start].point, verts[edges[e].target].point, verts[edges[f].target].point);
            var (a, b) := (Vector(p.x - o.x, p.y - o.y, p.z - o.z), Vector(q.x - o.x, q.y - o.y, q.z - o.z));
            && (Cot(verts, edges, start, e, rxs, sxrxs).IsNan() <==> a.Dot(rxs) == 0 && a.Dot(sxrxs) == 0)
            && (a.Dot(rxs) != 0 && b.Dot(rxs) != 0 ==>
                  Sgn(Compare64(Cot(verts, edges, start, e, rxs, sxrxs), Cot(verts, edges, start, f, rxs, sxrxs)))
                  == Sgn(a.Dot(sxrxs) * b.Dot(rxs) - b.Dot(sxrxs) * a.Dot(rxs)) * Sgn(a.Dot(rxs)) * Sgn(b.Dot(rxs)))
  {
    hide Vector.Dot, Compare64, Sgn;
    var (s, t) := (Turn(verts, edges, start, e), Turn(verts, edges, start, f));
    DotsFit(At(verts[start].point), At(verts[edges[e].target].point), rxs, sxrxs);
    DotsFit(At(verts[start].point), At(verts[edges[f].target].point), rxs, sxrxs);
    OverZero(s.Dot(sxrxs), s.Dot(rxs));
    if s.Dot(rxs) != 0 && t.Dot(rxs) != 0 {
      Compare64Exact(s.Dot(sxrxs), s.Dot(rxs), t.Dot(sxrxs), t.Dot(rxs));
    }
  }

  /** An edge from an earlier round whose direction is not straight back along the bridge. */
  ghost predicate Candidate(verts: seq<Vertex>, edges: seq<InternalEdge>, stamp: int, start: nat, e: int,
                            rxs: Vector, sxrxs: Vector)
  {
    && start < |verts| && Sound(verts, edges, e) && TurnBounds(rxs, sxrxs)
    && At(verts[start].point).In(GRID) && At(verts[edges[e].target].point).In(GRID)
    && edges[e].copy > stamp && !Cot(verts, edges, start, e, rxs, sxrxs).IsNan()
  }

  /** `best` is a candidate among the first `k` ring edges, none of them turns less than `cot`, and `best` turns by it. */
  ghost predicate Least(verts: seq<Vertex>, edges: seq<InternalEdge>, stamp: int, start: nat, rxs: Vector, sxrxs: Vector,
                        ring: seq<nat>, k: nat, best: int, cot: Rational64)
  {
    && k <= |ring|
    && (best == NIL ==> forall j :: 0 <= j < k ==> !Candidate(verts, edges, stamp, start, ring[j], rxs, sxrxs))
    && (best != NIL ==>
          && best >= 0 && best in ring[..k] && cot.Formed()
          && Candidate(verts, edges, stamp, start, best, rxs, sxrxs)
          && Compare64(Cot(verts, edges, start, best, rxs, sxrxs), cot) == 0
          && (forall j :: 0 <= j < k && Candidate(verts, edges, stamp, start, ring[j], rxs, sxrxs) ==>
                Compare64(cot, Cot(verts, edges, start, ring[j], rxs, sxrxs)) <= 0))
  }

  /** A ring edge that is no candidate changes nothing. */
  lemma LeastSkips(verts: seq<Vertex>, edges: seq<InternalEdge>, stamp: int, start: nat, rxs: Vector, sxrxs: Vector,
                   ring: seq<nat>, k: nat, best: int, cot: Rational64)
    requires k < |ring| && Least(verts, edges, stamp, start, rxs, sxrxs, ring, k, best, cot)
    requires !Candidate(verts, edges, stamp, start, ring[k], rxs, sxrxs)
    ensures Least(verts, edges, stamp, start, rxs, sxrxs, ring, k + 1, best, cot)
  {
    assert ring[..k + 1] == ring[..k] + [ring[k]];
  }

  /** A candidate that turns less, or the first one, takes over. */
  lemma LeastTakes(verts: seq<Vertex>, edges: seq<InternalEdge>, stamp: int, start: nat, rxs: Vector, sxrxs: Vector,
                   ring: seq<nat>, k: nat, best: int, cot: Rational64)
    requires k < |ring| && Least(verts, edges, stamp, start, rxs, sxrxs, ring, k, best, cot)
    requires Candidate(verts, edges, stamp, start, ring[k], rxs, sxrxs)
    requires best == NIL || Compare64(Cot(verts, edges, start, ring[k], rxs, sxrxs), cot) < 0
    ensures Least(verts, edges, stamp, start, rxs, sxrxs, ring, k + 1, ring[k], Cot(verts, edges, start, ring[k], rxs, sxrxs))
  {
    hide Compare64;
    assert ring[..k + 1] == ring[..k] + [ring[k]];
    var c := Cot(verts, edges, start, ring[k], rxs, sxrxs);
    Compare64Same(c);
    forall j | 0 <= j < k && Candidate(verts, edges, stamp, start, ring[j], rxs, sxrxs)
      ensures Compare64(c, Cot(verts, edges, start, ring[j], rxs, sxrxs)) <= 0
    {
      Compare64Transitive(c, cot, Cot(verts, edges, start, ring[j], rxs, sxrxs));
    }
  }

  /** A candidate that turns no less may stay out, and on a tie it may take the name without changing the angle. */
  lemma LeastTies(verts: seq<Vertex>, edges: seq<InternalEdge>, stamp: int, start: nat, rxs: Vector, sxrxs: Vector,
                  ring: seq<nat>, k: nat, best: int, cot: Rational64)
    requires k < |ring| && Least(verts, edges, stamp, start, rxs, sxrxs, ring, k, best, cot) && best != NIL
    requires Candidate(verts, edges, stamp, start, ring[k], rxs, sxrxs)
    requires Compare64(Cot(verts, edges, start, ring[k], rxs, sxrxs), cot) >= 0
    ensures Least(verts, edges, stamp, start, rxs, sxrxs, ring, k + 1, best, cot)
    ensures Compare64(Cot(verts, edges, start, ring[k], rxs, sxrxs), cot) == 0 ==>
              Least(verts, edges, stamp, start, rxs, sxrxs, ring, k + 1, ring[k], cot)
  {
    hide Compare64;
    assert ring[..k + 1] == ring[..k] + [ring[k]];
    Compare64Reversed(Cot(verts, edges, start, ring[k], rxs, sxrxs), cot);
  }

  lemma Compare64Same(c: Rational64)
    ensures Compare64(c, c) == 0
  {
    Commute(c.numerator, c.denominator);
  }

  /** What the walk around a vertex reads. */
  lemma RingSound(verts: seq<Vertex>, edges: seq<InternalEdge>, head: int, free: seq<nat>, rings: seq<seq<nat>>,
                  pending: set<nat>, v: nat)
    requires Arena(verts, edges, head, free, rings, pending) && v < |verts|
    ensures |rings| == |verts| && verts[v].edges == (if rings[v] == [] then NIL else rings[v][0])
    ensures Distinct(rings[v]) && Cyclic(edges, rings[v])
    ensures forall e :: e in rings[v] ==> Sound(verts, edges, e)
  {
    RingMembers(edges, rings);
    RingIsThere(edges, rings, v);
    forall e | e in rings[v] ensures Sound(verts, edges, e) {
      assert rings[v][IndexOf(rings[v], e)] == e;
    }
  }

  /** The best edge and its cotangent after one more ring edge. */
  function Considered(verts: seq<Vertex>, edges: seq<InternalEdge>, stamp: int, ccw: bool, start: nat,
                      s: Vector, rxs: Vector, sxrxs: Vector, best: (int, Rational64), e: int): (int, Rational64)
    requires start < |verts| && Sound(verts, edges, e) && TurnBounds(rxs, sxrxs) && AllOnGrid(verts)
    requires best.0 == NIL || Sound(verts, edges, best.0)
  {
    if edges[e].copy <= stamp then best
    else
      var c := Cot(verts, edges, start, e, rxs, sxrxs);
      if c.IsNan() then best
      else if best.0 == NIL || Compare64(c, best.1) < 0 then (e, c)
      else if Compare64(c, best.1) == 0
              && ccw == (GetOrientation(verts, edges, best.0, e, s, Turn(verts, edges, start, e)) == CounterClockwise)
      then (e, best.1)
      else best
  }

  /**
   A candidate that turns as little as the best edge so far, on a ring of three
   edges or more: looking counter-clockwise it takes over exactly when it follows
   that edge on the ring, looking clockwise exactly when it does not.
   */
  lemma TieTaken(verts: seq<Vertex>, edges: seq<InternalEdge>, stamp: int, ccw: bool, start: nat,
                 s: Vector, rxs: Vector, sxrxs: Vector, ring: seq<nat>, i: nat, j: nat, cot: Rational64)
    requires start < |verts| && TurnBounds(rxs, sxrxs) && AllOnGrid(verts)
    requires RingOf(edges, start, ring) && |ring| >= 3 && i < |ring| && j < |ring|
    requires Sound(verts, edges, ring[i]) && Sound(verts, edges, ring[j])
    requires Candidate(verts, edges, stamp, start, ring[j], rxs, sxrxs)
    requires Compare64(Cot(verts, edges, start, ring[j], rxs, sxrxs), cot) == 0
    ensures Considered(verts, edges, stamp, ccw, start, s, rxs, sxrxs, (ring[i], cot), ring[j])
         == (if ccw then (if j == Succ(i, |ring|) then ring[j] else ring[i])
             else (if j == Succ(i, |ring|) then ring[i] else ring[j]), cot)
  {
    hide Compare64, Cot, GetOrientation;
    RingOrientation(verts, edges, start, ring, i, j, s, Turn(verts, edges, start, ring[j]));
  }

  /** The walk over the first `k` ring edges. */
  ghost function Scan(verts: seq<Vertex>, edges: seq<InternalEdge>, stamp: int, ccw: bool, start: nat,
                      s: Vector, rxs: Vector, sxrxs: Vector, ring: seq<nat>, k: nat): (r: (int, Rational64))
    requires start < |verts| && TurnBounds(rxs, sxrxs) && AllOnGrid(verts) && k <= |ring|
    requires forall e :: e in ring ==> Sound(verts, edges, e)
    ensures r.0 == NIL || (r.0 >= 0 && r.0 in ring)
  {
    if k == 0 then (NIL, NewRational64(0, 0))
    else Considered(verts, edges, stamp, ccw, start, s, rxs, sxrxs,
                    Scan(verts, edges, stamp, ccw, start, s, rxs, sxrxs, ring, k - 1), ring[k - 1])
  }

  /** The walk ends on an edge that turns least: there is an answer exactly when there is a candidate, and then no
      candidate has a smaller cotangent. */
  lemma {:induction false} ScanIsLeast(verts: seq<Vertex>, edges: seq<InternalEdge>, stamp: int, ccw: bool, start: nat,
                                       s: Vector, rxs: Vector, sxrxs: Vector, ring: seq<nat>, k: nat)
    requires start < |verts| && TurnBounds(rxs, sxrxs) && AllOnGrid(verts) && k <= |ring|
    requires forall e :: e in ring ==> Sound(verts, edges, e)
    ensures var r := Scan(verts, edges, stamp, ccw, start, s, rxs, sxrxs, ring, k);
            Least(verts, edges, stamp, start, rxs, sxrxs, ring, k, r.0, r.1)
  {
    hide Compare64, Cot, Turn, TurnBounds, GetOrientation;
    if k > 0 {
      var e := ring[k - 1];
      var r := Scan(verts, edges, stamp, ccw, start, s, rxs, sxrxs, ring, k - 1);
      ScanIsLeast(verts, edges, stamp, ccw, start, s, rxs, sxrxs, ring, k - 1);
      assert Sound(verts, edges, e);
      if !Candidate(verts, edges, stamp, start, e, rxs, sxrxs) {
        LeastSkips(verts, edges, stamp, start, rxs, sxrxs, ring, k - 1, r.0, r.1);
      } else if r.0 == NIL || Compare64(Cot(verts, edges, start, e, rxs, sxrxs), r.1) < 0 {
        LeastTakes(verts, edges, stamp, start, rxs, sxrxs, ring, k - 1, r.0, r.1);
      } else {
        LeastTies(verts, edges, stamp, start, rxs, sxrxs, ring, k - 1, r.0, r.1);
      }
    }
  }

  /** The do-while walk around the ring of `start`. */
  method FindMaxAngle(hull: HullInternal, ccw: bool, start: nat, s: Vector, rxs: Vector, sxrxs: Vector)
    returns (minEdge: int, minCot: Rational64)
    requires hull.Valid() && start < |hull.verts| && start < |hull.rings| && TurnBounds(rxs, sxrxs) && AllOnGrid(hull.verts)
    ensures forall e :: e in hull.rings[start] ==> Sound(hull.verts, hull.edges, e)
    ensures (minEdge, minCot) == Scan(hull.verts, hull.edges, hull.mergeStamp, ccw, start, s, rxs, sxrxs,
                                      hull.rings[start], |hull.rings[start]|)
    ensures Least(hull.verts, hull.edges, hull.mergeStamp, start, rxs, sxrxs,
                  hull.rings[start], |hull.rings[start]|, minEdge, minCot)
  {
    hide Arena, Compare64, Cot, Turn, TurnBounds, GetOrientation, Considered, Least;
    RingSound(hull.verts, hull.edges, hull.edgeFree, hull.free, hull.rings, hull.pending, start);
    ghost var ring := hull.rings[start];
    minEdge, minCot := NIL, NewRational64(0, 0);
    var first := hull.verts[start].edges;
    ghost var k := 0;
    if first != NIL {
      var e := first;
      while true
        invariant k < |ring| && e == ring[k]
        invariant (minEdge, minCot) == Scan(hull.verts, hull.edges, hull.mergeStamp, ccw, start, s, rxs, sxrxs, ring, k)
        decreases |ring| - k
      {
        assert e in ring && LinkedAt(hull.edges, ring, k);
        minEdge, minCot := Consider(hull, ccw, start, s, rxs, sxrxs, minEdge, minCot, e);
        e := hull.edges[e].next;
        k := k + 1;
        assert k < |ring| ==> ring[k] != ring[0];
        if e == first {
          break;
        }
      }
    }
    ScanIsLeast(hull.verts, hull.edges, hull.mergeStamp, ccw, start, s, rxs, sxrxs, ring, |ring|);
  }

  /** One edge of the walk. */
  method Consider(hull: HullInternal, ccw: bool, start: nat, s: Vector, rxs: Vector, sxrxs: Vector,
                  best: int, cot: Rational64, e: int)
    returns (minEdge: int, minCot: Rational64)
    requires start < |hull.verts| && TurnBounds(rxs, sxrxs) && AllOnGrid(hull.verts) && Sound(hull.verts, hull.edges, e)
    requires best == NIL || Sound(hull.verts, hull.edges, best)
    ensures (minEdge, minCot)
         == Considered(hull.verts, hull.edges, hull.mergeStamp, ccw, start, s, rxs, sxrxs, (best, cot), e)
  {
    hide Compare64, Cot, Turn, TurnBounds, GetOrientation;
    minEdge, minCot := best, cot;
    if hull.edges[e].copy > hull.mergeStamp {
      var t := Turn(hull.verts, hull.edges, start, e);
      var c := Cot(hull.verts, hull.edges, start, e, rxs, sxrxs);
      if !c.IsNan() {
        if minEdge == NIL {
          minCot := c;
          minEdge := e;
        } else {
          var cmp := Compare64(c, minCot);
          if cmp < 0 {
            minCot := c;
            minEdge := e;
          } else if cmp == 0 && ccw == (GetOrientation(hull.verts, hull.edges, minEdge, e, s, t) == CounterClockwise) {
            minEdge := e;
          }
        }
      }
    }
  }
}
