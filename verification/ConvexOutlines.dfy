/**
 Convex outlines: where the tangent searches end, and what the two tangents leave
 (crates/cspace-bullet/src/convex_hull_computer.rs:1349-1502).
 */
module ConvexOutlines {
  import opened GridSort
  import opened HalfEdges
  import opened HullBounds
  import opened Plane
  import opened Outlines

  function Spot(verts: seq<Vertex>, v: nat): Vec
    requires v < |verts|
  {
    Vec(verts[v].point.x, verts[v].point.y)
  }

  ghost predicate There(verts: seq<Vertex>, cyc: seq<nat>) { forall v :: v in cyc ==> v < |verts| }

  function Spots(verts: seq<Vertex>, cyc: seq<nat>): (s: seq<Vec>)
    requires There(verts, cyc)
    ensures |s| == |cyc|
  {
    seq(|cyc|, i requires 0 <= i < |cyc| => (assert cyc[i] in cyc; Spot(verts, cyc[i])))
  }

  lemma FewConvex(verts: seq<Vertex>, cyc: seq<nat>)
    requires There(verts, cyc) && |cyc| <= 2
    ensures Convex(Spots(verts, cyc))
  {}

  /** An outline that turns left at each of its vertices, counter-clockwise along `next`, with no vertex on a line between two others. */
  ghost predicate ConvexOutline(verts: seq<Vertex>, cyc: seq<nat>) {
    Outline(verts, cyc) && There(verts, cyc) && Convex(Spots(verts, cyc))
  }

  // ---- pictures ----------------------------------------------------------

  /** The searches look at one picture and its mirror images. */
  datatype Frame = Frame(sx: int, sy: int) {
    predicate Valid() { (sx == 1 || sx == -1) && (sy == 1 || sy == -1) }
    function Sees(a: Vec): Vec { Vec(sx * a.x, sy * a.y) }
  }

  /** From `u` to `x`, as the frame shows it. */
  function To(verts: seq<Vertex>, u: nat, x: nat, f: Frame): Vec
    requires u < |verts| && x < |verts|
  {
    f.Sees(Spot(verts, x).Minus(Spot(verts, u)))
  }

  lemma SeesCross(f: Frame, a: Vec, b: Vec)
    requires f.Valid()
    ensures Cross(f.Sees(a), f.Sees(b)) == f.sx * f.sy * Cross(a, b)
  {}

  lemma SpotsTurned(verts: seq<Vertex>, cyc: seq<nat>, i: nat)
    requires There(verts, cyc) && Convex(Spots(verts, cyc)) && i <= |cyc|
    ensures There(verts, Rotated(cyc, i)) && Convex(Spots(verts, Rotated(cyc, i)))
  {
    var s := Spots(verts, cyc);
    RotatedMembers(cyc, i);
    ConvexTurned(s, i);
    assert Spots(verts, Rotated(cyc, i)) == s[i..] + s[..i];
  }

  /** The hand the frame gives: which neighbour of a vertex a search looks at. */
  predicate Handed(f: Frame, dir: bool) { f.Valid() && f.sx * f.sy == if dir then -1 else 1 }

  /** Every other vertex lies between the two neighbours `n` and `m`. */
  ghost predicate Fanned(verts: seq<Vertex>, cyc: seq<nat>, v: nat, n: nat, m: nat, f: Frame)
    requires There(verts, cyc) && v < |verts| && n < |verts| && m < |verts|
  {
    forall x :: x in cyc && x != v ==>
      && (x == n || Cross(To(verts, v, n, f), To(verts, v, x, f)) > 0)
      && (x == m || Cross(To(verts, v, x, f), To(verts, v, m, f)) > 0)
  }

  lemma ConvexFanned(verts: seq<Vertex>, cyc: seq<nat>, v: nat, dir: bool, f: Frame)
    requires ConvexOutline(verts, cyc) && v in cyc && Handed(f, dir)
    ensures v < |verts| && Neighbour(verts, v, dir) in cyc && Neighbour(verts, v, !dir) in cyc
    ensures Fanned(verts, cyc, v, Neighbour(verts, v, !dir), Neighbour(verts, v, dir), f)
  {
    hide Cross, Frame.Sees;
    Neighbours(verts, cyc, v);
    var i := IndexOf(cyc, v);
    var r := Rotated(cyc, i);
    var last := |r| - 1;
    RotatedMembers(cyc, i);
    SpotsTurned(verts, cyc, i);
    RotatedPolygon(verts, cyc, i);
    assert NeighboursAt(verts, r, 0);
    var s := Spots(verts, r);
    var (a, b) := (verts[v].next, verts[v].prev);
    forall x | x in cyc && x != v
      ensures x == a || Cross(Spot(verts, a).Minus(Spot(verts, v)), Spot(verts, x).Minus(Spot(verts, v))) > 0
      ensures x == b || Cross(Spot(verts, x).Minus(Spot(verts, v)), Spot(verts, b).Minus(Spot(verts, v))) > 0
    {
      assert x in r;
      var k :| 0 <= k < |r| && r[k] == x;
      assert k > 1 ==> LeftOf(s[0], s[1], s[k]);
      assert 0 < k < last ==> LeftOf(s[0], s[k], s[last]);
    }
    forall x | x in cyc && x != v
      ensures x == Neighbour(verts, v, !dir) || Cross(To(verts, v, Neighbour(verts, v, !dir), f), To(verts, v, x, f)) > 0
      ensures x == Neighbour(verts, v, dir) || Cross(To(verts, v, x, f), To(verts, v, Neighbour(verts, v, dir), f)) > 0
    {
      var (pa, pb, px) := (Spot(verts, a).Minus(Spot(verts, v)), Spot(verts, b).Minus(Spot(verts, v)),
                           Spot(verts, x).Minus(Spot(verts, v)));
      SeesCross(f, pa, px);
      SeesCross(f, px, pa);
      SeesCross(f, pb, px);
      SeesCross(f, px, pb);
      CrossTurns(pa, px);
      CrossTurns(pb, px);
    }
  }

  // ---- a search under way ------------------------------------------------

  /** Nothing of `p` lies outside the bridge from `u` to `v`, and what lies on its line lies ahead of `u`. */
  ghost predicate NearInside(verts: seq<Vertex>, p: seq<nat>, u: nat, v: nat, f: Frame)
    requires There(verts, p) && u < |verts| && v < |verts|
  {
    forall x :: x in p && x != u ==>
      && Cross(To(verts, u, v, f), To(verts, u, x, f)) >= 0
      && (Cross(To(verts, u, v, f), To(verts, u, x, f)) == 0 ==> To(verts, u, x, f).x > 0)
  }

  /** The same for `q` and the far end. */
  ghost predicate FarInside(verts: seq<Vertex>, q: seq<nat>, u: nat, v: nat, f: Frame)
    requires There(verts, q) && u < |verts| && v < |verts|
  {
    forall x :: x in q && x != v ==>
      && Cross(To(verts, u, v, f), To(verts, v, x, f)) >= 0
      && (Cross(To(verts, u, v, f), To(verts, v, x, f)) == 0 ==> To(verts, v, x, f).x < 0)
  }

  ghost predicate Rightmost(verts: seq<Vertex>, cyc: seq<nat>, v: nat, f: Frame)
    requires There(verts, cyc) && v < |verts|
  {
    forall x :: x in cyc ==> To(verts, v, x, f).x <= 0
  }

  ghost predicate Above(verts: seq<Vertex>, p: seq<nat>, q: seq<nat>, f: Frame)
    requires There(verts, p) && There(verts, q)
  {
    forall x, y :: x in p && y in q ==> To(verts, x, y, f).y >= 0
  }

  /** What a search needs: convex outlines, one above the other, and the rightmost vertex of each to start from. */
  ghost predicate Facing(verts: seq<Vertex>, p: seq<nat>, q: seq<nat>, start0: nat, start1: nat, f: Frame) {
    && f.Valid() && ConvexOutline(verts, p) && ConvexOutline(verts, q) && Above(verts, p, q, f)
    && start0 in p && start1 in q && Rightmost(verts, p, start0, f) && Rightmost(verts, q, start1, f)
  }

  /** The near end has not moved, or came from a vertex up and ahead of it that is not outside the bridge. */
  ghost predicate NearState(verts: seq<Vertex>, p: seq<nat>, start: nat, u: nat, v: nat, dir: bool, f: Frame)
    requires There(verts, p) && u in p && v < |verts|
  {
    u == start
    || (var n := Neighbour(verts, u, !dir);
        && n in p && n != u && To(verts, u, n, f).x >= 0 && To(verts, u, n, f).y >= 0
        && Cross(To(verts, u, v, f), To(verts, u, n, f)) >= 0)
  }

  /** The far end has not moved, or came from `b`, outside the bridge that had settled at `a`. */
  ghost predicate FarState(verts: seq<Vertex>, p: seq<nat>, q: seq<nat>, start: nat, v: nat, dir: bool, f: Frame, a: nat, b: nat)
    requires There(verts, p) && There(verts, q) && v in q
  {
    v == start
    || (&& a in p && b in q && b == Neighbour(verts, v, !dir) && b != v && NearInside(verts, p, a, b, f)
        && To(verts, v, b, f).x >= 0 && To(verts, v, b, f).y >= 0
        && Cross(To(verts, a, b, f), To(verts, a, v, f)) < 0)
  }

  ghost predicate Sliding(verts: seq<Vertex>, p: seq<nat>, q: seq<nat>, start0: nat, start1: nat, u: nat, v: nat, dir: bool,
                          f: Frame, a: nat, b: nat)
  {
    && Facing(verts, p, q, start0, start1, f) && Handed(f, dir) && u in p && v in q && Rightward(To(verts, u, v, f))
    && NearState(verts, p, start0, u, v, dir, f) && FarState(verts, p, q, start1, v, dir, f, a, b)
  }

  // ---- vectors between three vertices ------------------------------------

  lemma Routes(verts: seq<Vertex>, u: nat, v: nat, x: nat, f: Frame)
    requires u < |verts| && v < |verts| && x < |verts|
    ensures To(verts, u, x, f).x == To(verts, u, v, f).x + To(verts, v, x, f).x
    ensures To(verts, u, x, f).y == To(verts, u, v, f).y + To(verts, v, x, f).y
    ensures To(verts, v, u, f).x == -To(verts, u, v, f).x && To(verts, v, u, f).y == -To(verts, u, v, f).y
  {
    Scales(f.sx, verts[u].point.x, verts[v].point.x, verts[x].point.x);
    Scales(f.sy, verts[u].point.y, verts[v].point.y, verts[x].point.y);
  }

  lemma Scales(s: int, a: int, b: int, c: int)
    ensures s * (c - a) == s * (b - a) + s * (c - b) && s * (a - b) == -(s * (b - a))
  {}

  lemma Somewhere(verts: seq<Vertex>, cyc: seq<nat>, u: nat, x: nat, f: Frame)
    requires ConvexOutline(verts, cyc) && u in cyc && x in cyc && u != x && f.Valid()
    ensures To(verts, u, x, f).x != 0 || To(verts, u, x, f).y != 0
  {
    assert !SameXy(verts[u].point, verts[x].point);
  }

  /** A vertex of a convex outline among the fan of another's neighbours. */
  lemma Among(verts: seq<Vertex>, cyc: seq<nat>, v: nat, dir: bool, f: Frame, x: nat)
    requires ConvexOutline(verts, cyc) && v in cyc && x in cyc && x != v && Handed(f, dir)
    ensures v < |verts| && x < |verts|
    ensures var (n, m) := (Neighbour(verts, v, !dir), Neighbour(verts, v, dir));
            && n in cyc && m in cyc && n != v && m != v && n < |verts| && m < |verts|
            && To(verts, v, n, f) != Vec(0, 0) && To(verts, v, m, f) != Vec(0, 0)
            && AmongFan(To(verts, v, n, f), To(verts, v, m, f), To(verts, v, x, f))
  {
    hide Cross, To, ConvexOutline;
    ConvexFanned(verts, cyc, v, dir, f);
    Facts(verts, cyc);
    var (n, m) := (Neighbour(verts, v, !dir), Neighbour(verts, v, dir));
    NeighbourElsewhere(verts, cyc, v, dir);
    NeighbourElsewhere(verts, cyc, v, !dir);
    Somewhere(verts, cyc, v, n, f);
    Somewhere(verts, cyc, v, m, f);
    assert Fanned(verts, cyc, v, n, m, f);
    if n == m && x != n { CrossTurns(To(verts, v, n, f), To(verts, v, x, f)); }
  }

  lemma Facts(verts: seq<Vertex>, cyc: seq<nat>)
    requires ConvexOutline(verts, cyc)
    ensures Outline(verts, cyc) && There(verts, cyc)
  {}

  // ---- the near end ------------------------------------------------------

  /** When the neighbour ahead has not fallen, nothing of the outline is outside. */
  lemma NearSettles(verts: seq<Vertex>, p: seq<nat>, start: nat, u: nat, v: nat, dir: bool, f: Frame)
    requires ConvexOutline(verts, p) && start in p && u in p && v < |verts| && Handed(f, dir)
    requires Rightmost(verts, p, start, f) && Rightward(To(verts, u, v, f)) && NearState(verts, p, start, u, v, dir, f)
    requires var m := Neighbour(verts, u, dir);
             m == u || (0 <= m < |verts| && NotFallen(To(verts, u, v, f), To(verts, u, m, f)))
    ensures NearInside(verts, p, u, v, f)
  {
    hide Cross, To, Rightward, NotFallen, ConvexOutline, AmongFan;
    Facts(verts, p);
    forall x | x in p && x != u
      ensures Cross(To(verts, u, v, f), To(verts, u, x, f)) >= 0
      ensures Cross(To(verts, u, v, f), To(verts, u, x, f)) == 0 ==> To(verts, u, x, f).x > 0
    {
      Among(verts, p, u, dir, f, x);
      var (n, m) := (Neighbour(verts, u, !dir), Neighbour(verts, u, dir));
      NearVector(To(verts, u, v, f), To(verts, u, n, f), To(verts, u, m, f), To(verts, u, x, f), u == start);
    }
  }

  /** One step of the near end, to a neighbour that has fallen. */
  lemma NearSteps(verts: seq<Vertex>, p: seq<nat>, start: nat, u: nat, v: nat, dir: bool, f: Frame, w: nat)
    requires ConvexOutline(verts, p) && u in p && v < |verts| && Handed(f, dir) && Rightward(To(verts, u, v, f))
    requires w == Neighbour(verts, u, dir) && w != u && w < |verts| && !NotFallen(To(verts, u, v, f), To(verts, u, w, f))
    ensures w in p && Rightward(To(verts, w, v, f)) && NearState(verts, p, start, w, v, dir, f)
  {
    Neighbours(verts, p, u);
    Routes(verts, w, u, v, f);
    Routes(verts, u, w, u, f);
    FallenBack(To(verts, u, v, f), To(verts, u, w, f), To(verts, w, v, f), To(verts, w, u, f));
  }

  lemma FallenBack(d: Vec, m: Vec, d': Vec, n: Vec)
    requires Rightward(d) && !NotFallen(d, m) && d' == d.Minus(m) && n.x == -m.x && n.y == -m.y
    ensures Rightward(d') && n.x >= 0 && n.y >= 0 && Cross(d', n) >= 0
  {
    if m.x == 0 { Signs(d.x, m.y); }
    assert Cross(d', n) == -Cross(d, m);
  }

  // ---- the far end -------------------------------------------------------

  lemma FarSettles(verts: seq<Vertex>, p: seq<nat>, q: seq<nat>, start: nat, u: nat, v: nat, dir: bool, f: Frame, a: nat, b: nat)
    requires ConvexOutline(verts, q) && There(verts, p) && start in q && v in q && u in p && Handed(f, dir)
    requires Above(verts, p, q, f) && NearInside(verts, p, u, v, f)
    requires Rightmost(verts, q, start, f) && Rightward(To(verts, u, v, f)) && FarState(verts, p, q, start, v, dir, f, a, b)
    requires var m := Neighbour(verts, v, dir);
             m == v || (0 <= m < |verts| && !Steps(To(verts, u, v, f), To(verts, v, m, f)))
    ensures FarInside(verts, q, u, v, f)
  {
    hide Cross, To, Rightward, Steps, ConvexOutline, AmongFan;
    Facts(verts, q);
    if v != start { CameFrom(verts, p, q, u, v, f, a, b); }
    forall x | x in q && x != v
      ensures Cross(To(verts, u, v, f), To(verts, v, x, f)) >= 0
      ensures Cross(To(verts, u, v, f), To(verts, v, x, f)) == 0 ==> To(verts, v, x, f).x < 0
    {
      Among(verts, q, v, dir, f, x);
      var (n, m) := (Neighbour(verts, v, !dir), Neighbour(verts, v, dir));
      Routes(verts, u, v, m, f);
      FarVector(To(verts, u, v, f), To(verts, v, n, f), To(verts, v, m, f), To(verts, v, x, f), v == start);
    }
  }

  /** The vertex the far end came from is inside the bridge that has settled since. */
  lemma CameFrom(verts: seq<Vertex>, p: seq<nat>, q: seq<nat>, u: nat, v: nat, f: Frame, a: nat, b: nat)
    requires There(verts, p) && There(verts, q) && u in p && a in p && v in q && b in q
    requires NearInside(verts, p, u, v, f) && NearInside(verts, p, a, b, f)
    requires Cross(To(verts, a, b, f), To(verts, a, v, f)) < 0
    ensures Cross(To(verts, u, v, f), To(verts, v, b, f)) > 0
  {
    Pictured(verts, a, b, v, f);
    Pictured(verts, a, b, u, f);
    Pictured(verts, u, v, a, f);
    Pictured(verts, u, v, b, f);
    SelfCross(To(verts, a, b, f));
    SelfCross(To(verts, u, v, f));
    hide Cross, To;
    assert a == u ==> Ccw(f.Sees(Spot(verts, u)), f.Sees(Spot(verts, v)), f.Sees(Spot(verts, a))) == 0;
    CameFromInside(f.Sees(Spot(verts, a)), f.Sees(Spot(verts, b)), f.Sees(Spot(verts, u)), f.Sees(Spot(verts, v)));
  }

  lemma Pictured(verts: seq<Vertex>, a: nat, b: nat, c: nat, f: Frame)
    requires a < |verts| && b < |verts| && c < |verts|
    ensures Ccw(f.Sees(Spot(verts, a)), f.Sees(Spot(verts, b)), f.Sees(Spot(verts, c)))
         == Cross(To(verts, a, b, f), To(verts, a, c, f)) == Cross(To(verts, a, b, f), To(verts, b, c, f))
    ensures c == a ==> Cross(To(verts, a, b, f), To(verts, a, c, f)) == 0
  {
    Routes(verts, a, b, c, f);
    Spread(f, Spot(verts, a), Spot(verts, b));
    Spread(f, Spot(verts, a), Spot(verts, c));
    Shifted(To(verts, a, b, f), To(verts, a, c, f), To(verts, b, c, f));
  }

  lemma Spread(f: Frame, a: Vec, b: Vec)
    ensures f.Sees(b).Minus(f.Sees(a)) == f.Sees(b.Minus(a))
  {
    Scales(f.sx, a.x, b.x, b.x);
    Scales(f.sy, a.y, b.y, b.y);
  }

  lemma Shifted(d: Vec, x: Vec, y: Vec)
    requires x.x == d.x + y.x && x.y == d.y + y.y
    ensures Cross(d, x) == Cross(d, y)
  {}

  /** One step of the far end: the bridge turns less steep, so what was inside the near end stays inside. */
  lemma FarSteps(verts: seq<Vertex>, p: seq<nat>, q: seq<nat>, start0: nat, start1: nat, u: nat, v: nat, dir: bool, f: Frame,
                 w: nat)
    requires ConvexOutline(verts, p) && ConvexOutline(verts, q) && start0 in p && u in p && v in q && Handed(f, dir)
    requires Above(verts, p, q, f) && Rightward(To(verts, u, v, f)) && NearState(verts, p, start0, u, v, dir, f)
    requires NearInside(verts, p, u, v, f)
    requires w == Neighbour(verts, v, dir) && w != v && w < |verts| && Steps(To(verts, u, v, f), To(verts, v, w, f))
    ensures w in q && Rightward(To(verts, u, w, f)) && NearState(verts, p, start0, u, w, dir, f)
    ensures FarState(verts, p, q, start1, w, dir, f, u, v)
  {
    hide Cross, To, ConvexOutline, NearInside;
    Facts(verts, p);
    Facts(verts, q);
    Neighbours(verts, q, v);
    Routes(verts, u, v, w, f);
    Routes(verts, v, w, v, f);
    SteppedDown(To(verts, u, v, f), To(verts, v, w, f), To(verts, u, w, f));
    if u != start0 {
      KeepsInside(To(verts, u, v, f), To(verts, u, w, f), To(verts, u, Neighbour(verts, u, !dir), f));
    }
  }

  lemma SteppedDown(d: Vec, m: Vec, d': Vec)
    requires Rightward(d) && Steps(d, m) && d'.x == d.x + m.x && d'.y == d.y + m.y
    ensures Cross(d, d') < 0 && m.x <= 0 && m.y < 0
  {
    if m.x == 0 { Product(d.x, m.y); }
  }

  lemma KeepsInside(d: Vec, d': Vec, n: Vec)
    requires Rightward(d) && Rightward(d') && Cross(d, d') < 0 && n.x >= 0 && n.y >= 0 && Cross(d, n) >= 0
    ensures Cross(d', n) >= 0
  {
    Coordinates(d', n, d);
    CrossTurns(n, d);
    hide Cross;
    Product(Cross(d', n), d.x);
    Signs(Cross(n, d), d'.x);
    Signs(Cross(d, d'), n.x);
  }

  // ---- the search as a whole ---------------------------------------------

  lemma SlidingStarts(verts: seq<Vertex>, p: seq<nat>, q: seq<nat>, start0: nat, start1: nat, dir: bool, f: Frame)
    requires Facing(verts, p, q, start0, start1, f) && Handed(f, dir) && To(verts, start0, start1, f).x > 0
    ensures Sliding(verts, p, q, start0, start1, start0, start1, dir, f, start0, start1)
  {
    hide To;
  }

  lemma SlidingNear(verts: seq<Vertex>, p: seq<nat>, q: seq<nat>, start0: nat, start1: nat, u: nat, v: nat, dir: bool,
                    f: Frame, a: nat, b: nat, w: nat)
    requires Sliding(verts, p, q, start0, start1, u, v, dir, f, a, b)
    requires w == Neighbour(verts, u, dir) && w != u && w < |verts| && !NotFallen(To(verts, u, v, f), To(verts, u, w, f))
    ensures Sliding(verts, p, q, start0, start1, w, v, dir, f, a, b)
  {
    hide To, Cross, ConvexOutline, NearInside, NotFallen, NearState;
    Facts(verts, p);
    Facts(verts, q);
    NearSteps(verts, p, start0, u, v, dir, f, w);
  }

  lemma SlidingFar(verts: seq<Vertex>, p: seq<nat>, q: seq<nat>, start0: nat, start1: nat, u: nat, v: nat, dir: bool,
                   f: Frame, a: nat, b: nat, w: nat)
    requires Sliding(verts, p, q, start0, start1, u, v, dir, f, a, b) && Resting(verts, u, v, dir, f)
    requires w == Neighbour(verts, v, dir) && w != v && w < |verts| && Steps(To(verts, u, v, f), To(verts, v, w, f))
    ensures Sliding(verts, p, q, start0, start1, u, w, dir, f, u, v)
  {
    hide To, Cross, ConvexOutline, NearInside, NotFallen, NearState, FarState, Steps, Above, Rightmost, Rightward;
    Facts(verts, p);
    Facts(verts, q);
    NearSettles(verts, p, start0, u, v, dir, f);
    FarSteps(verts, p, q, start0, start1, u, v, dir, f, w);
  }

  /** The near end's neighbour has not fallen. */
  ghost predicate Resting(verts: seq<Vertex>, u: nat, v: nat, dir: bool, f: Frame)
    requires u < |verts| && v < |verts|
  {
    var m := Neighbour(verts, u, dir);
    m == u || (0 <= m < |verts| && NotFallen(To(verts, u, v, f), To(verts, u, m, f)))
  }

  /** Where neither end moves on, nothing of either outline is outside the bridge. */
  lemma SlidingEnds(verts: seq<Vertex>, p: seq<nat>, q: seq<nat>, start0: nat, start1: nat, u: nat, v: nat, dir: bool,
                    f: Frame, a: nat, b: nat)
    requires Sliding(verts, p, q, start0, start1, u, v, dir, f, a, b) && Resting(verts, u, v, dir, f)
    requires var m := Neighbour(verts, v, dir);
             m == v || (0 <= m < |verts| && !Steps(To(verts, u, v, f), To(verts, v, m, f)))
    ensures NearInside(verts, p, u, v, f) && FarInside(verts, q, u, v, f)
  {
    hide To, Cross, ConvexOutline, NearInside, FarInside, NotFallen, NearState, FarState, Steps, Above, Rightmost, Rightward;
    Facts(verts, p);
    Facts(verts, q);
    NearSettles(verts, p, start0, u, v, dir, f);
    FarSettles(verts, p, q, start1, u, v, dir, f, a, b);
  }

  // ---- a bridge, in the picture itself -----------------------------------

  /** Positive when `x` lies to the left of the line from `u` to `v`. */
  function Turn(verts: seq<Vertex>, u: nat, v: nat, x: nat): int
    requires u < |verts| && v < |verts| && x < |verts|
  {
    Ccw(Spot(verts, u), Spot(verts, v), Spot(verts, x))
  }

  /** All of `p` lies before all of `q`, bottom up and left to right. */
  ghost predicate Below(verts: seq<Vertex>, p: seq<nat>, q: seq<nat>)
    requires There(verts, p) && There(verts, q)
  {
    forall x, y :: x in p && y in q ==> LessYx(verts[x].point, verts[y].point)
  }

  /**
   No vertex of either outline lies outside the bridge from `v0` to `v1`, to its
   right for `sign` 1 and to its left for -1, and one on its line lies between
   its ends.
   */
  ghost predicate Bridge(verts: seq<Vertex>, p: seq<nat>, q: seq<nat>, v0: nat, v1: nat, sign: int)
    requires There(verts, p) && There(verts, q) && v0 < |verts| && v1 < |verts|
  {
    && (forall x :: x in p && x != v0 ==>
          && sign * Turn(verts, v0, v1, x) >= 0
          && (Turn(verts, v0, v1, x) == 0 ==> LessYx(verts[v0].point, verts[x].point)))
    && (forall x :: x in q && x != v1 ==>
          && sign * Turn(verts, v0, v1, x) >= 0
          && (Turn(verts, v0, v1, x) == 0 ==> LessYx(verts[x].point, verts[v1].point)))
  }

  /** What a search on one side asks: two convex outlines, one before the other, and an extreme vertex of each on that side. */
  ghost predicate Poised(verts: seq<Vertex>, p: seq<nat>, q: seq<nat>, start0: nat, start1: nat, side: bool, sign: int) {
    && sign == (if side then -1 else 1)
    && ConvexOutline(verts, p) && ConvexOutline(verts, q) && Below(verts, p, q) && start0 in p && start1 in q
    && (forall x :: x in p ==> (verts[x].point.x - verts[start0].point.x) * sign <= 0)
    && (forall x :: x in q ==> (verts[x].point.x - verts[start1].point.x) * sign <= 0)
  }

  lemma PoisedFaces(verts: seq<Vertex>, p: seq<nat>, q: seq<nat>, start0: nat, start1: nat, side: bool, sign: int)
    requires Poised(verts, p, q, start0, start1, side, sign)
    ensures Facing(verts, p, q, start0, start1, Frame(sign, 1)) && Handed(Frame(sign, 1), side)
    ensures Facing(verts, q, p, start1, start0, Frame(sign, -1)) && Handed(Frame(sign, -1), !side)
  {
    hide ConvexOutline;
    Facts(verts, p);
    Facts(verts, q);
  }

  lemma SameWay(d: Vec, x: Vec)
    requires Cross(d, x) == 0 && d.x * x.x > 0 && (d.y > 0 || (d.y == 0 && d.x > 0))
    ensures x.y > 0 || (x.y == 0 && x.x > 0)
  {
    Product(d.x, x.x);
    Product(-d.x, -x.x);
    if d.y > 0 {
      if d.x > 0 {
        assert x.x > 0 by { Signs(d.x, x.x); }
        Product(d.y, x.x);
        Signs(d.x, x.y);
      } else {
        assert x.x < 0 by { Signs(d.x, x.x); }
        Product(d.y, x.x);
        Signs(d.x, x.y);
      }
    } else {
      Product(d.x, x.y);
      Product(d.x, -x.y);
      Signs(d.x, x.x);
    }
  }

  lemma SeenTurn(verts: seq<Vertex>, u: nat, v: nat, x: nat, sx: int, sy: int)
    requires u < |verts| && v < |verts| && x < |verts| && Frame(sx, sy).Valid()
    ensures Cross(To(verts, u, v, Frame(sx, sy)), To(verts, u, x, Frame(sx, sy))) == sx * sy * Turn(verts, u, v, x)
    ensures Cross(To(verts, u, v, Frame(sx, sy)), To(verts, v, x, Frame(sx, sy))) == sx * sy * Turn(verts, u, v, x)
    ensures Turn(verts, v, u, x) == -Turn(verts, u, v, x)
  {
    SeesCross(Frame(sx, sy), Spot(verts, v).Minus(Spot(verts, u)), Spot(verts, x).Minus(Spot(verts, u)));
    Pictured(verts, u, v, x, Frame(sx, sy));
    CcwTurns(Spot(verts, u), Spot(verts, v), Spot(verts, x));
    CcwTurns(Spot(verts, v), Spot(verts, u), Spot(verts, x));
  }

  /** On the line of a bridge that rises, a vertex towards its far end comes after its near end. */
  lemma OnLineAfter(verts: seq<Vertex>, u: nat, v: nat, x: nat, y: nat, sign: int)
    requires u < |verts| && v < |verts| && x < |verts| && y < |verts| && LessYx(verts[u].point, verts[v].point)
    requires sign == 1 || sign == -1
    requires Cross(Spot(verts, v).Minus(Spot(verts, u)), Spot(verts, y).Minus(Spot(verts, x))) == 0
    requires sign * (verts[v].point.x - verts[u].point.x) > 0 && sign * (verts[y].point.x - verts[x].point.x) > 0
    ensures LessYx(verts[x].point, verts[y].point)
  {
    var (d, w) := (Spot(verts, v).Minus(Spot(verts, u)), Spot(verts, y).Minus(Spot(verts, x)));
    Product(d.x, w.x);
    SameWay(d, w);
  }

  lemma DownIsBridge(verts: seq<Vertex>, p: seq<nat>, q: seq<nat>, u: nat, v: nat, sign: int)
    requires There(verts, p) && There(verts, q) && Below(verts, p, q) && u in p && v in q && (sign == 1 || sign == -1)
    requires Rightward(To(verts, u, v, Frame(sign, 1)))
    requires NearInside(verts, p, u, v, Frame(sign, 1)) && FarInside(verts, q, u, v, Frame(sign, 1))
    ensures Bridge(verts, p, q, u, v, sign)
  {
    var f := Frame(sign, 1);
    forall x | x in p && x != u
      ensures sign * Turn(verts, u, v, x) >= 0 && (Turn(verts, u, v, x) == 0 ==> LessYx(verts[u].point, verts[x].point))
    {
      SeenTurn(verts, u, v, x, sign, 1);
      if Turn(verts, u, v, x) == 0 { OnLineAfter(verts, u, v, u, x, sign); }
    }
    forall x | x in q && x != v
      ensures sign * Turn(verts, u, v, x) >= 0 && (Turn(verts, u, v, x) == 0 ==> LessYx(verts[x].point, verts[v].point))
    {
      SeenTurn(verts, u, v, x, sign, 1);
      if Turn(verts, u, v, x) == 0 {
        BackOnLine(verts, u, v, x);
        OnLineAfter(verts, u, v, x, v, sign);
      }
    }
  }

  lemma BackOnLine(verts: seq<Vertex>, u: nat, v: nat, x: nat)
    requires u < |verts| && v < |verts| && x < |verts| && Turn(verts, u, v, x) == 0
    ensures Cross(Spot(verts, v).Minus(Spot(verts, u)), Spot(verts, v).Minus(Spot(verts, x))) == 0
    ensures Cross(Spot(verts, v).Minus(Spot(verts, u)), Spot(verts, x).Minus(Spot(verts, v))) == 0
  {
    Backwards(Spot(verts, v).Minus(Spot(verts, u)), Spot(verts, x).Minus(Spot(verts, u)), Spot(verts, v).Minus(Spot(verts, x)),
              Spot(verts, x).Minus(Spot(verts, v)));
  }

  lemma Backwards(d: Vec, x: Vec, y: Vec, z: Vec)
    requires Cross(d, x) == 0 && y.x == d.x - x.x && y.y == d.y - x.y && z.x == -y.x && z.y == -y.y
    ensures Cross(d, y) == 0 && Cross(d, z) == 0
  {}

  lemma UpIsBridge(verts: seq<Vertex>, p: seq<nat>, q: seq<nat>, u: nat, v: nat, sign: int)
    requires There(verts, p) && There(verts, q) && Below(verts, p, q) && u in p && v in q && (sign == 1 || sign == -1)
    requires Rightward(To(verts, v, u, Frame(sign, -1)))
    requires NearInside(verts, q, v, u, Frame(sign, -1)) && FarInside(verts, p, v, u, Frame(sign, -1))
    ensures Bridge(verts, p, q, u, v, sign)
  {
    forall x | x in p && x != u
      ensures sign * Turn(verts, u, v, x) >= 0 && (Turn(verts, u, v, x) == 0 ==> LessYx(verts[u].point, verts[x].point))
    {
      SeenTurn(verts, v, u, x, sign, -1);
      if Turn(verts, u, v, x) == 0 { OnLineAfter(verts, u, v, u, x, -sign); }
    }
    forall x | x in q && x != v
      ensures sign * Turn(verts, u, v, x) >= 0 && (Turn(verts, u, v, x) == 0 ==> LessYx(verts[x].point, verts[v].point))
    {
      SeenTurn(verts, v, u, x, sign, -1);
      if Turn(verts, u, v, x) == 0 {
        BackOnLine(verts, u, v, x);
        OnLineAfter(verts, u, v, x, v, -sign);
      }
    }
  }

  // ---- vertical tangents -------------------------------------------------

  /** Three vertices of a convex outline are never in line. */
  lemma NoThreeInLine(verts: seq<Vertex>, cyc: seq<nat>, a: nat, b: nat, c: nat)
    requires ConvexOutline(verts, cyc) && a in cyc && b in cyc && c in cyc && a != b && b != c && a != c
    ensures Turn(verts, a, b, c) != 0
  {
    var s := Spots(verts, cyc);
    var (i, j, k) := (IndexOf(cyc, a), IndexOf(cyc, b), IndexOf(cyc, c));
    CcwTurns(s[i], s[j], s[k]);
    CcwTurns(s[j], s[i], s[k]);
    assert i < j < k ==> LeftOf(s[i], s[j], s[k]);
    assert j < k < i ==> LeftOf(s[j], s[k], s[i]);
    assert k < i < j ==> LeftOf(s[k], s[i], s[j]);
    assert i < k < j ==> LeftOf(s[i], s[k], s[j]);
    assert k < j < i ==> LeftOf(s[k], s[j], s[i]);
    assert j < i < k ==> LeftOf(s[j], s[i], s[k]);
    hide Ccw;
  }

  /** Where the slide along a vertical run ends, the outline has nothing lower in that column. */
  lemma LowestInColumn(verts: seq<Vertex>, cyc: seq<nat>, start: nat, v: nat, dir: bool, f: Frame, u: nat)
    requires ConvexOutline(verts, cyc) && Handed(f, dir) && start in cyc && v in cyc && u in cyc && u != v
    requires Rightmost(verts, cyc, start, f)
    requires To(verts, start, v, f).x == 0 && To(verts, start, v, f).y <= 0 && To(verts, v, u, f).x == 0
    requires var t := Neighbour(verts, v, dir);
             0 <= t < |verts| && (t == start || To(verts, v, t, f).x != 0 || To(verts, v, t, f).y > 0)
    ensures To(verts, v, u, f).y > 0
  {
    Somewhere(verts, cyc, v, u, f);
    if v != start {
      if u == start {
        Routes(verts, v, start, start, f);
      } else {
        NoThreeInLine(verts, cyc, v, start, u);
        SeenTurn(verts, v, start, u, f.sx, f.sy);
        Routes(verts, start, v, start, f);
      }
    } else {
      Among(verts, cyc, v, dir, f, u);
      var (n, m) := (Neighbour(verts, v, !dir), Neighbour(verts, v, dir));
      InColumn(To(verts, v, n, f), To(verts, v, m, f), To(verts, v, u, f));
    }
  }

  lemma InColumn(n: Vec, m: Vec, x: Vec)
    requires AmongFan(n, m, x) && n.x <= 0 && m.x <= 0 && x.x == 0 && (m.x != 0 || m.y > 0)
    ensures x.y >= 0
  {
    if x.y < 0 {
      Signs(x.y, m.x);
    }
  }

  /** Both ends at the ends of their runs: nothing lies outside the vertical bridge. */
  lemma ColumnIsBridge(verts: seq<Vertex>, p: seq<nat>, q: seq<nat>, start0: nat, start1: nat, u: nat, v: nat, side: bool, sign: int)
    requires Poised(verts, p, q, start0, start1, side, sign) && u in p && v in q
    requires verts[start0].point.x == verts[start1].point.x == verts[u].point.x == verts[v].point.x
    requires verts[u].point.y <= verts[start0].point.y && verts[v].point.y >= verts[start1].point.y
    requires RunEnds(verts, start0, u, Neighbour(verts, u, side), true)
    requires RunEnds(verts, start1, v, Neighbour(verts, v, !side), false)
    ensures Bridge(verts, p, q, u, v, sign)
  {
    hide ConvexOutline, NearInside, FarInside;
    PoisedFaces(verts, p, q, start0, start1, side, sign);
    Facts(verts, p);
    Facts(verts, q);
    forall x | x in p && x != u
      ensures sign * Turn(verts, u, v, x) >= 0 && (Turn(verts, u, v, x) == 0 ==> LessYx(verts[u].point, verts[x].point))
    {
      UprightTurn(verts, u, v, x, sign);
      if verts[x].point.x == verts[u].point.x { LowestInColumn(verts, p, start0, u, side, Frame(sign, 1), x); }
    }
    forall x | x in q && x != v
      ensures sign * Turn(verts, u, v, x) >= 0 && (Turn(verts, u, v, x) == 0 ==> LessYx(verts[x].point, verts[v].point))
    {
      UprightTurn(verts, u, v, x, sign);
      if verts[x].point.x == verts[v].point.x { LowestInColumn(verts, q, start1, v, !side, Frame(sign, -1), x); }
    }
  }

  lemma UprightTurn(verts: seq<Vertex>, u: nat, v: nat, x: nat, sign: int)
    requires u < |verts| && v < |verts| && x < |verts| && (sign == 1 || sign == -1)
    requires verts[u].point.x == verts[v].point.x && verts[u].point.y < verts[v].point.y
    requires (verts[x].point.x - verts[u].point.x) * sign <= 0
    ensures sign * Turn(verts, u, v, x) >= 0 && (Turn(verts, u, v, x) == 0 <==> verts[x].point.x == verts[u].point.x)
  {
    var (h, w) := (verts[v].point.y - verts[u].point.y, verts[x].point.x - verts[u].point.x);
    assert Turn(verts, u, v, x) == -(h * w);
    Signs(h, w);
    Product(h, w);
  }

  // ---- what the two bridges leave ----------------------------------------

  const FAR := 4 * GRID + 1

  /** Linear functions that order the grid bottom up and left to right, and left to right and bottom up. */
  const BY_YX := Vec(1, FAR)
  const BY_XY := Vec(FAR, 1)

  lemma LexIsLinear(a: Point32, b: Point32)
    requires OnAxis(a.x) && OnAxis(a.y) && OnAxis(b.x) && OnAxis(b.y)
    ensures LessYx(a, b) <==> Dot(BY_YX, Vec(b.x, b.y).Minus(Vec(a.x, a.y))) > 0
    ensures LessXy(a, b) <==> Dot(BY_XY, Vec(b.x, b.y).Minus(Vec(a.x, a.y))) > 0
    ensures SameXy(a, b) <==> Dot(BY_YX, Vec(b.x, b.y).Minus(Vec(a.x, a.y))) == 0
  {}

  lemma SpotOrder(verts: seq<Vertex>, u: nat, v: nat)
    requires u < |verts| && v < |verts| && GridAt(verts, u) && GridAt(verts, v)
    ensures LessYx(verts[u].point, verts[v].point) <==> Dot(BY_YX, Spot(verts, v).Minus(Spot(verts, u))) > 0
    ensures Spot(verts, u) == Spot(verts, v) <==> Dot(BY_YX, Spot(verts, u).Minus(Spot(verts, v))) == 0
  {
    LexIsLinear(verts[u].point, verts[v].point);
    LexIsLinear(verts[v].point, verts[u].point);
  }

  /** The two bridges of a merge: the right one from `c0` up to `c1`, the left one from `low0` up to `low1`. */
  ghost predicate Bridges(verts: seq<Vertex>, p: seq<nat>, q: seq<nat>, low0: nat, c0: nat, c1: nat, low1: nat) {
    && ConvexOutline(verts, p) && ConvexOutline(verts, q) && Below(verts, p, q)
    && low0 in p && c0 in p && c1 in q && low1 in q
    && Bridge(verts, p, q, c0, c1, 1) && Bridge(verts, p, q, low0, low1, -1)
  }

  lemma ArcParts(cyc: seq<nat>, u: nat, v: nat)
    requires u in cyc && v in cyc && Distinct(cyc)
    ensures var arc := Arc(cyc, u, v);
            && |arc| > 0 && arc[0] == u && arc[|arc| - 1] == v && arc <= Rotated(cyc, IndexOf(cyc, u))
            && forall x :: x in arc ==> x in cyc
  {
    RotatedMembers(cyc, IndexOf(cyc, u));
    var r := From(cyc, u);
    var arc := Arc(cyc, u, v);
    assert r[0] == u && arc == r[..|arc|];
    forall x | x in arc ensures x in cyc { assert x in r; }
  }

  lemma ArcConvex(verts: seq<Vertex>, cyc: seq<nat>, u: nat, v: nat)
    requires ConvexOutline(verts, cyc) && u in cyc && v in cyc
    ensures There(verts, Arc(cyc, u, v)) && Convex(Spots(verts, Arc(cyc, u, v)))
  {
    ArcParts(cyc, u, v);
    SpotsTurned(verts, cyc, IndexOf(cyc, u));
    var (arc, r) := (Arc(cyc, u, v), Rotated(cyc, IndexOf(cyc, u)));
    var (s, t) := (Spots(verts, arc), Spots(verts, r));
    assert forall k :: 0 <= k < |arc| ==> s[k] == t[k];
    forall i, j, k | 0 <= i < j < k < |s| ensures LeftOf(s[i], s[j], s[k]) {
      assert LeftOf(t[i], t[j], t[k]);
    }
  }

  lemma SpotsApart(verts: seq<Vertex>, cyc: seq<nat>)
    requires Gridded(verts, cyc) && DistinctXy(verts, cyc) && Distinct(cyc) && There(verts, cyc)
    ensures Apart(Spots(verts, cyc), BY_YX)
  {
    var s := Spots(verts, cyc);
    forall i, j | 0 <= i < j < |s| ensures Dot(BY_YX, s[i].Minus(s[j])) != 0 {
      assert cyc[i] in cyc && cyc[j] in cyc && cyc[i] != cyc[j];
      SpotOrder(verts, cyc[i], cyc[j]);
    }
  }

  lemma SpotsPrecede(verts: seq<Vertex>, p: seq<nat>, q: seq<nat>, y: nat)
    requires Gridded(verts, p) && Gridded(verts, q) && There(verts, p) && There(verts, q) && Below(verts, p, q) && y in q
    ensures Precedes(Spots(verts, p), Spot(verts, y), BY_YX)
  {
    var s := Spots(verts, p);
    forall i | 0 <= i < |s| ensures Dot(BY_YX, Spot(verts, y).Minus(s[i])) > 0 {
      assert p[i] in p;
      SpotOrder(verts, p[i], y);
    }
  }

  lemma SpotsBridge(verts: seq<Vertex>, p: seq<nat>, q: seq<nat>, u: nat, v: nat, sign: int)
    requires Gridded(verts, p) && Gridded(verts, q) && There(verts, p) && There(verts, q) && u in p && v in q
    requires Bridge(verts, p, q, u, v, sign)
    ensures NearSide(Spots(verts, p), Spot(verts, u), Spot(verts, v), sign, BY_YX)
    ensures FarSide(Spots(verts, q), Spot(verts, u), Spot(verts, v), sign, BY_YX)
  {
    hide Ccw, Dot, Vec.Minus;
    var (s, t) := (Spots(verts, p), Spots(verts, q));
    forall i | 0 <= i < |s| && s[i] != Spot(verts, u)
      ensures sign * Ccw(Spot(verts, u), Spot(verts, v), s[i]) >= 0
      ensures Ccw(Spot(verts, u), Spot(verts, v), s[i]) == 0 ==> Dot(BY_YX, s[i].Minus(Spot(verts, u))) > 0
    {
      assert p[i] in p;
      SpotOrder(verts, u, p[i]);
      assert sign * Turn(verts, u, v, p[i]) >= 0;
    }
    forall i | 0 <= i < |t| && t[i] != Spot(verts, v)
      ensures sign * Ccw(Spot(verts, u), Spot(verts, v), t[i]) >= 0
      ensures Ccw(Spot(verts, u), Spot(verts, v), t[i]) == 0 ==> Dot(BY_YX, Spot(verts, v).Minus(t[i])) > 0
    {
      assert q[i] in q;
      SpotOrder(verts, q[i], v);
      assert sign * Turn(verts, u, v, q[i]) >= 0;
    }
  }

  /** Fewer vertices, same bridge. */
  lemma FewerBridged(verts: seq<Vertex>, p: seq<nat>, q: seq<nat>, p': seq<nat>, q': seq<nat>, u: nat, v: nat, sign: int)
    requires There(verts, p) && There(verts, q) && u in p && v in q && Bridge(verts, p, q, u, v, sign)
    requires (forall x :: x in p' ==> x in p) && (forall x :: x in q' ==> x in q)
    ensures There(verts, p') && There(verts, q') && Bridge(verts, p', q', u, v, sign)
  {
    hide Turn;
  }

  /** The two arcs kept close up. */
  lemma ArcsClosing(verts: seq<Vertex>, p: seq<nat>, q: seq<nat>, low0: nat, c0: nat, c1: nat, low1: nat)
    requires Bridges(verts, p, q, low0, c0, c1, low1)
    ensures var (a, b) := (Arc(p, low0, c0), Arc(q, c1, low1));
            && There(verts, a) && There(verts, b) && |a| > 0 && |b| > 0
            && Spots(verts, a)[0] == Spot(verts, low0) && Spots(verts, a)[|a| - 1] == Spot(verts, c0)
            && Spots(verts, b)[0] == Spot(verts, c1) && Spots(verts, b)[|b| - 1] == Spot(verts, low1)
            && Closing(Spots(verts, a), Spots(verts, b), BY_YX)
  {
    ArcParts(p, low0, c0);
    ArcParts(q, c1, low1);
    ArcConvex(verts, p, low0, c0);
    ArcConvex(verts, q, c1, low1);
    var (a, b) := (Arc(p, low0, c0), Arc(q, c1, low1));
    hide Turn, LessYx, Convex, Arc;
    ArcDistinct(p, low0, c0);
    ArcDistinct(q, c1, low1);
    SpotsApart(verts, a);
    SpotsApart(verts, b);
    FewerBridged(verts, p, q, a, b, c0, c1, 1);
    FewerBridged(verts, p, q, a, b, low0, low1, -1);
    SpotsBridge(verts, a, b, c0, c1, 1);
    SpotsBridge(verts, a, b, low0, low1, -1);
    forall k | 0 <= k < |b| ensures Precedes(Spots(verts, a), Spots(verts, b)[k], BY_YX) {
      assert b[k] in b;
      SpotsPrecede(verts, a, b, b[k]);
    }
  }

  lemma ArcDistinct(cyc: seq<nat>, u: nat, v: nat)
    requires u in cyc && v in cyc && Distinct(cyc)
    ensures Distinct(Arc(cyc, u, v))
  {
    RotatedMembers(cyc, IndexOf(cyc, u));
    ArcParts(cyc, u, v);
  }

  lemma BridgedChains(verts: seq<Vertex>, p: seq<nat>, q: seq<nat>, low0: nat, c0: nat, c1: nat, low1: nat)
    requires Bridges(verts, p, q, low0, c0, c1, low1)
    ensures There(verts, p) && There(verts, q)
    ensures NearSide(Spots(verts, p), Spot(verts, c0), Spot(verts, c1), 1, BY_YX)
    ensures NearSide(Spots(verts, p), Spot(verts, low0), Spot(verts, low1), -1, BY_YX)
    ensures FarSide(Spots(verts, q), Spot(verts, c0), Spot(verts, c1), 1, BY_YX)
    ensures FarSide(Spots(verts, q), Spot(verts, low0), Spot(verts, low1), -1, BY_YX)
  {
    hide Turn, LessYx, Convex;
    SpotsBridge(verts, p, q, c0, c1, 1);
    SpotsBridge(verts, p, q, low0, low1, -1);
  }

  /** From the `i`-th to the `j`-th vertex of a chain and on to `x` is a left turn. */
  ghost predicate TurnsLeft(verts: seq<Vertex>, chain: seq<nat>, i: nat, j: nat, x: nat) {
    && i < |chain| && j < |chain| && chain[i] < |verts| && chain[j] < |verts| && x < |verts|
    && Turn(verts, chain[i], chain[j], x) > 0
  }

  /** The kept arc of the lower outline turns left towards every vertex of the upper one. */
  lemma LowerArcSees(verts: seq<Vertex>, p: seq<nat>, q: seq<nat>, low0: nat, c0: nat, c1: nat, low1: nat, i: nat, j: nat, y: nat)
    requires Bridges(verts, p, q, low0, c0, c1, low1) && y in q && i < j < |Arc(p, low0, c0)|
    ensures TurnsLeft(verts, Arc(p, low0, c0), i, j, y)
  {
    hide Turn, Arc, ConvexOutline, Below, Bridge, Closing, NearSide, FarSide, CutOff, Beyond, Ccw, Precedes, BY_YX;
    ArcsClosing(verts, p, q, low0, c0, c1, low1);
    LowerFacts(verts, p, q, low0, c0, c1, low1, y);
    var (s, t) := (Spots(verts, Arc(p, low0, c0)), Spots(verts, Arc(q, c1, low1)));
    ClosingBridged(s, t, BY_YX);
    FarIsBeyond(s, t, Spots(verts, q), BY_YX, IndexOf(q, y));
    ChainSees(s, t[0], t[|t| - 1], Spot(verts, y), BY_YX, i, j);
    var a := Arc(p, low0, c0);
    assert a[i] in a && a[j] in a;
    TurnIs(verts, a[i], a[j], y);
  }

  lemma LowerFacts(verts: seq<Vertex>, p: seq<nat>, q: seq<nat>, low0: nat, c0: nat, c1: nat, low1: nat, y: nat)
    requires Bridges(verts, p, q, low0, c0, c1, low1) && y in q
    ensures There(verts, Arc(p, low0, c0)) && There(verts, q)
    ensures Precedes(Spots(verts, Arc(p, low0, c0)), Spot(verts, y), BY_YX)
    ensures FarSide(Spots(verts, q), Spot(verts, c0), Spot(verts, c1), 1, BY_YX)
    ensures FarSide(Spots(verts, q), Spot(verts, low0), Spot(verts, low1), -1, BY_YX)
    ensures forall x :: x in Arc(p, low0, c0) ==> x < |verts|
  {
    hide Turn, LessYx, Convex, Arc, Bridge, NearSide, FarSide, Ccw, Dot;
    ArcParts(p, low0, c0);
    BridgedChains(verts, p, q, low0, c0, c1, low1);
    SpotsPrecede(verts, p, q, y);
    SomeOf(verts, p, Arc(p, low0, c0), Spot(verts, y));
  }

  lemma TurnIs(verts: seq<Vertex>, u: nat, v: nat, x: nat)
    requires u < |verts| && v < |verts| && x < |verts|
    ensures Turn(verts, u, v, x) == Ccw(Spot(verts, u), Spot(verts, v), Spot(verts, x))
    ensures Turn(verts, u, v, x) > 0 <==> LeftOf(Spot(verts, u), Spot(verts, v), Spot(verts, x))
  {}

  lemma SomeOf(verts: seq<Vertex>, p: seq<nat>, a: seq<nat>, b: Vec)
    requires There(verts, p) && There(verts, a) && Precedes(Spots(verts, p), b, BY_YX) && forall x :: x in a ==> x in p
    ensures Precedes(Spots(verts, a), b, BY_YX)
  {
    hide Dot, Vec.Minus;
    forall i | 0 <= i < |a| ensures Dot(BY_YX, b.Minus(Spots(verts, a)[i])) > 0 {
      assert a[i] in p;
      var k := IndexOf(p, a[i]);
      assert Spots(verts, p)[k] == Spots(verts, a)[i];
    }
  }

  /** and the kept arc of the upper outline towards every vertex of the lower one. */
  lemma UpperArcSees(verts: seq<Vertex>, p: seq<nat>, q: seq<nat>, low0: nat, c0: nat, c1: nat, low1: nat, i: nat, j: nat, x: nat)
    requires Bridges(verts, p, q, low0, c0, c1, low1) && x in p && i < j < |Arc(q, c1, low1)|
    ensures TurnsLeft(verts, Arc(q, c1, low1), i, j, x)
  {
    hide Turn, Arc, ConvexOutline, Below, Bridge, Closing, NearSide, FarSide, CutOff, Beyond, Ccw, Precedes, BY_YX;
    ArcsClosing(verts, p, q, low0, c0, c1, low1);
    UpperFacts(verts, p, q, low0, c0, c1, low1);
    var (s, t) := (Spots(verts, Arc(p, low0, c0)), Spots(verts, Arc(q, c1, low1)));
    FarChainSees(s, t, Spots(verts, p), BY_YX, i, j, IndexOf(p, x));
    var b := Arc(q, c1, low1);
    assert b[i] in b && b[j] in b;
    TurnIs(verts, b[i], b[j], x);
  }

  lemma UpperFacts(verts: seq<Vertex>, p: seq<nat>, q: seq<nat>, low0: nat, c0: nat, c1: nat, low1: nat)
    requires Bridges(verts, p, q, low0, c0, c1, low1)
    ensures There(verts, Arc(q, c1, low1)) && There(verts, p)
    ensures NearSide(Spots(verts, p), Spot(verts, c0), Spot(verts, c1), 1, BY_YX)
    ensures NearSide(Spots(verts, p), Spot(verts, low0), Spot(verts, low1), -1, BY_YX)
    ensures forall l :: 0 <= l < |Arc(q, c1, low1)| ==> Precedes(Spots(verts, p), Spots(verts, Arc(q, c1, low1))[l], BY_YX)
    ensures forall x :: x in Arc(q, c1, low1) ==> x < |verts|
  {
    hide Turn, LessYx, Convex, Arc, Bridge, NearSide, FarSide, Ccw, Dot, Precedes;
    ArcParts(q, c1, low1);
    BridgedChains(verts, p, q, low0, c0, c1, low1);
    var b := Arc(q, c1, low1);
    forall l | 0 <= l < |b| ensures Precedes(Spots(verts, p), Spots(verts, b)[l], BY_YX) {
      assert b[l] in b;
      SpotsPrecede(verts, p, q, b[l]);
    }
  }

  /** `x` lies to the left of, or on, every edge of the outline. */
  ghost predicate Encloses(verts: seq<Vertex>, cyc: seq<nat>, x: nat) {
    && x < |verts| && There(verts, cyc)
    && forall i :: 0 <= i < |cyc| ==> EdgeLeaves(verts, cyc, i, x)
  }

  ghost predicate EdgeLeaves(verts: seq<Vertex>, cyc: seq<nat>, i: nat, x: nat)
    requires x < |verts| && There(verts, cyc) && i < |cyc|
  {
    var (u, v) := (cyc[i], cyc[Succ(i, |cyc|)]);
    assert u in cyc && v in cyc;
    Turn(verts, u, v, x) >= 0
  }

  lemma AtEnds(verts: seq<Vertex>, u: nat, v: nat)
    requires u < |verts| && v < |verts|
    ensures Turn(verts, u, v, u) == 0 && Turn(verts, u, v, v) == 0 && Turn(verts, u, u, v) == 0
  {}

  /** A convex outline encloses its own vertices. */
  lemma EnclosesOwn(verts: seq<Vertex>, cyc: seq<nat>, i: nat, x: nat)
    requires ConvexOutline(verts, cyc) && x in cyc && i < |cyc|
    ensures x < |verts| && There(verts, cyc) && EdgeLeaves(verts, cyc, i, x)
    ensures var (u, v) := (cyc[i], cyc[Succ(i, |cyc|)]); u < |verts| && v < |verts| && Turn(verts, u, v, x) >= 0
  {
    var (u, v) := (cyc[i], cyc[Succ(i, |cyc|)]);
    assert u in cyc && v in cyc;
    AtEnds(verts, u, v);
    if x != u && x != v {
      var (s, k, j) := (Spots(verts, cyc), IndexOf(cyc, x), Succ(i, |cyc|));
      CcwTurns(s[i], s[j], s[k]);
      TurnIs(verts, u, v, x);
      assert i < j < k ==> LeftOf(s[i], s[j], s[k]);
      assert k < i < j ==> LeftOf(s[k], s[i], s[j]);
      assert j < k < i ==> LeftOf(s[j], s[k], s[i]);
    }
  }

  /** Two consecutive vertices of an arc are consecutive on the cycle. */
  lemma ArcEdge(cyc: seq<nat>, u: nat, v: nat, i: nat)
    requires u in cyc && v in cyc && Distinct(cyc) && i + 1 < |Arc(cyc, u, v)|
    ensures var arc := Arc(cyc, u, v);
            exists k :: 0 <= k < |cyc| && cyc[k] == arc[i] && cyc[Succ(k, |cyc|)] == arc[i + 1]
  {
    ArcParts(cyc, u, v);
    var o := IndexOf(cyc, u);
    var r := Rotated(cyc, o);
    var k := if i + o < |cyc| then i + o else i + o - |cyc|;
    assert r[i] == cyc[k] && r[i + 1] == cyc[Succ(k, |cyc|)];
  }

  /** The merged outline: an arc of each, closed by the bridges, encloses every vertex of both. */
  lemma MergedEncloses(verts: seq<Vertex>, p: seq<nat>, q: seq<nat>, low0: nat, c0: nat, c1: nat, low1: nat, x: nat)
    requires Bridges(verts, p, q, low0, c0, c1, low1) && (x in p || x in q)
    ensures Encloses(verts, Arc(p, low0, c0) + Arc(q, c1, low1), x)
  {
    var (a, b) := (Arc(p, low0, c0), Arc(q, c1, low1));
    ArcParts(p, low0, c0);
    ArcParts(q, c1, low1);
    hide Turn, LessYx, Convex, Arc;
    var m := |a|;
    var r := a + b;
    assert There(verts, r);
    forall i | 0 <= i < |r| ensures EdgeLeaves(verts, r, i, x) {
      if i + 1 < m {
        if x in p {
          ArcEdge(p, low0, c0, i);
          var k :| 0 <= k < |p| && p[k] == a[i] && p[Succ(k, |p|)] == a[i + 1];
          EnclosesOwn(verts, p, k, x);
        } else {
          LowerArcSees(verts, p, q, low0, c0, c1, low1, i, i + 1, x);
        }
      } else if i + 1 == m {
        AtEnds(verts, c0, c1);
        assert r[i] == c0 && r[Succ(i, |r|)] == b[0] == c1;
      } else if i + 1 < |r| {
        if x in q {
          ArcEdge(q, c1, low1, i - m);
          var k :| 0 <= k < |q| && q[k] == b[i - m] && q[Succ(k, |q|)] == b[i + 1 - m];
          EnclosesOwn(verts, q, k, x);
        } else {
          UpperArcSees(verts, p, q, low0, c0, c1, low1, i - m, i + 1 - m, x);
        }
      } else {
        AtEnds(verts, low1, low0);
        SeenTurn(verts, low0, low1, x, 1, 1);
        assert r[i] == b[|b| - 1] == low1 && r[Succ(i, |r|)] == a[0] == low0;
      }
    }
  }

  /** The merged outline is convex. */
  lemma MergedConvex(verts: seq<Vertex>, p: seq<nat>, q: seq<nat>, low0: nat, c0: nat, c1: nat, low1: nat)
    requires Bridges(verts, p, q, low0, c0, c1, low1)
    ensures var r := Arc(p, low0, c0) + Arc(q, c1, low1); There(verts, r) && Convex(Spots(verts, r))
  {
    hide Turn, Arc, ConvexOutline, Below, Bridge, Closing, Convex;
    ArcsClosing(verts, p, q, low0, c0, c1, low1);
    var (a, b) := (Arc(p, low0, c0), Arc(q, c1, low1));
    ClosedConvex(Spots(verts, a), Spots(verts, b), BY_YX);
    assert Spots(verts, a + b) == Spots(verts, a) + Spots(verts, b);
  }

  /** `x` is the only highest vertex of a linear function among both outlines. */
  ghost predicate Corner(verts: seq<Vertex>, p: seq<nat>, q: seq<nat>, x: nat, h: Vec)
    requires There(verts, p) && There(verts, q) && x < |verts|
  {
    forall y :: (y in p || y in q) && y != x ==> Dot(h, Spot(verts, x).Minus(Spot(verts, y))) > 0
  }

  /** No corner of the two outlines taken together is cut off. */
  lemma CornersKept(verts: seq<Vertex>, p: seq<nat>, q: seq<nat>, low0: nat, c0: nat, c1: nat, low1: nat, x: nat, h: Vec)
    requires Bridges(verts, p, q, low0, c0, c1, low1) && (x in p || x in q) && Corner(verts, p, q, x, h)
    ensures x in Arc(p, low0, c0) + Arc(q, c1, low1)
  {
    hide Turn, Arc, ConvexOutline, Below, Bridge, Dot, Vec.Minus;
    Facts(verts, p);
    Facts(verts, q);
    ArcParts(p, low0, c0);
    ArcParts(q, c1, low1);
    var (a, b) := (Arc(p, low0, c0), Arc(q, c1, low1));
    if x !in a + b {
      if x in p {
        LowerDropped(verts, p, q, low0, c0, c1, low1, x, h);
      } else {
        UpperDropped(verts, p, q, low0, c0, c1, low1, x, h);
      }
    }
  }

  /** A vertex off an arc lies beyond its chord. */
  lemma BeyondChord(verts: seq<Vertex>, cyc: seq<nat>, u: nat, v: nat, x: nat)
    requires ConvexOutline(verts, cyc) && u in cyc && v in cyc && x in cyc && x !in Arc(cyc, u, v)
    ensures u < |verts| && v < |verts| && x < |verts| && x != u && x != v && (u == v || Turn(verts, u, v, x) > 0)
  {
    ArcParts(cyc, u, v);
    var r := Rotated(cyc, IndexOf(cyc, u));
    RotatedMembers(cyc, IndexOf(cyc, u));
    SpotsTurned(verts, cyc, IndexOf(cyc, u));
    var (s, m) := (Spots(verts, r), |Arc(cyc, u, v)| - 1);
    assert x in r;
    var k :| 0 <= k < |r| && r[k] == x;
    assert forall i :: 0 <= i <= m ==> r[i] == Arc(cyc, u, v)[i] && r[i] in Arc(cyc, u, v);
    assert m > 0 ==> LeftOf(s[0], s[m], s[k]);
  }

  lemma LowerDropped(verts: seq<Vertex>, p: seq<nat>, q: seq<nat>, low0: nat, c0: nat, c1: nat, low1: nat, x: nat, h: Vec)
    requires Bridges(verts, p, q, low0, c0, c1, low1) && x in p && x !in Arc(p, low0, c0)
    ensures !Corner(verts, p, q, x, h)
  {
    ArcParts(q, c1, low1);
    hide Arc, ConvexOutline, Below, LessYx, Dot, Vec.Minus, Ccw;
    Facts(verts, p);
    Facts(verts, q);
    BeyondChord(verts, p, low0, c0, x);
    var b := Arc(q, c1, low1);
    if |b| > 1 { UpperArcSees(verts, p, q, low0, c0, c1, low1, 0, |b| - 1, x); }
    SpotOrder(verts, c0, x);
    BelowAt(verts, p, q, x, c1);
    CcwTurns(Spot(verts, low0), Spot(verts, low1), Spot(verts, x));
    CcwTurns(Spot(verts, low1), Spot(verts, low0), Spot(verts, x));
    CutOffIsLower(Spot(verts, x), Spot(verts, low0), Spot(verts, c0), Spot(verts, c1), Spot(verts, low1), BY_YX, h);
  }

  lemma BelowAt(verts: seq<Vertex>, p: seq<nat>, q: seq<nat>, x: nat, y: nat)
    requires There(verts, p) && There(verts, q) && Gridded(verts, p) && Gridded(verts, q) && Below(verts, p, q) && x in p && y in q
    ensures x != y && Dot(BY_YX, Spot(verts, y).Minus(Spot(verts, x))) > 0
  {
    SpotOrder(verts, x, y);
  }

  lemma UpperDropped(verts: seq<Vertex>, p: seq<nat>, q: seq<nat>, low0: nat, c0: nat, c1: nat, low1: nat, x: nat, h: Vec)
    requires Bridges(verts, p, q, low0, c0, c1, low1) && x in q && x !in Arc(q, c1, low1)
    ensures !Corner(verts, p, q, x, h)
  {
    ArcParts(p, low0, c0);
    hide Arc, ConvexOutline, Below, LessYx, Dot, Vec.Minus, Ccw, Opposite;
    Facts(verts, p);
    Facts(verts, q);
    BeyondChord(verts, q, c1, low1, x);
    var a := Arc(p, low0, c0);
    if |a| > 1 { LowerArcSees(verts, p, q, low0, c0, c1, low1, 0, |a| - 1, x); }
    SpotOrder(verts, x, low1);
    BelowAt(verts, p, q, low0, x);
    BelowAt(verts, p, q, c0, x);
    var (X, L, C, E, G) := (Spot(verts, x), Spot(verts, c1), Spot(verts, low1), Spot(verts, low0), Spot(verts, c0));
    CcwTurns(C, E, X);
    CcwTurns(E, C, X);
    TurnedTriple(C, E, X, BY_YX);
    TurnedTriple(G, L, X, BY_YX);
    TurnedTriple(L, C, X, BY_YX);
    TurnedTriple(E, G, X, BY_YX);
    TurnedTriple(X, C, X, BY_YX);
    TurnedTriple(E, X, X, BY_YX);
    TurnedDot(h, X, L);
    TurnedDot(h, X, C);
    TurnedDot(h, X, E);
    TurnedDot(h, X, G);
    CutOffIsLower(Opposite(X), Opposite(L), Opposite(C), Opposite(E), Opposite(G), BY_YX, Opposite(h));
  }

  lemma TurnedDot(h: Vec, x: Vec, a: Vec)
    ensures Dot(Opposite(h), Opposite(x).Minus(Opposite(a))) == Dot(h, x.Minus(a))
  {}

  // ---- the tests the searches run ----------------------------------------

  lemma SeenFalling(verts: seq<Vertex>, u: nat, v: nat, sign: int)
    requires u < |verts| && v < |verts| && GridAt(verts, u) && GridAt(verts, v) && (sign == 1 || sign == -1)
    ensures To(verts, u, v, Frame(sign, 1)) == Vec(Across(verts, u, v, sign), Up(verts, u, v))
    ensures To(verts, v, u, Frame(sign, -1)) == Vec(-Across(verts, u, v, sign), Up(verts, u, v))
  {}

  lemma FallingTests(dx: int, dy: int, dxw: int, dyw: int)
    requires Within(dx, SPAN) && Within(dy, SPAN) && Within(dxw, SPAN) && Within(dyw, SPAN)
    ensures FallsBehind(dx, dy, dxw, dyw) <==> !NotFallen(Vec(dx, dy), Vec(dxw, dyw))
    ensures dx + dxw > 0 && FallsAhead(dx, dy, dxw, dyw) <==> Steps(Vec(dx, dy), Vec(dxw, dyw))
    ensures RisesBehind(dx, dy, dxw, dyw) <==> !NotFallen(Vec(-dx, dy), Vec(dxw, -dyw))
    ensures dx - dxw < 0 && RisesAhead(dx, dy, dxw, dyw) <==> Steps(Vec(-dx, dy), Vec(dxw, -dyw))
  {
    assert -dx * -dyw == dyw * dx;
  }

  // ---- one vertex fewer --------------------------------------------------

  lemma FewerConvex(verts: seq<Vertex>, verts': seq<Vertex>, cyc: seq<nat>, v: nat)
    requires ConvexOutline(verts, cyc) && v in cyc && |verts'| == |verts| && Outline(verts', After(cyc, v))
    requires forall x :: 0 <= x < |verts| ==> SameButPolygon(verts[x], verts'[x])
    ensures ConvexOutline(verts', After(cyc, v))
  {
    var (r, rest) := (Rotated(cyc, IndexOf(cyc, v)), After(cyc, v));
    AfterMembers(cyc, v);
    SpotsTurned(verts, cyc, IndexOf(cyc, v));
    var (s, t) := (Spots(verts, r), Spots(verts', rest));
    forall k | 0 <= k < |t| ensures t[k] == s[k + 1] {
      assert rest[k] == r[k + 1] && rest[k] in rest;
    }
    forall i, j, k | 0 <= i < j < k < |t| ensures LeftOf(t[i], t[j], t[k]) {
      assert LeftOf(s[i + 1], s[j + 1], s[k + 1]);
    }
  }

  lemma SameConvex(verts: seq<Vertex>, verts': seq<Vertex>, cyc: seq<nat>)
    requires ConvexOutline(verts, cyc) && |verts'| == |verts| && Outline(verts', cyc)
    requires forall x :: 0 <= x < |verts| ==> SameButPolygon(verts[x], verts'[x])
    ensures ConvexOutline(verts', cyc)
  {
    assert There(verts', cyc);
    assert Spots(verts', cyc) == Spots(verts, cyc);
  }

  /** Next to the only highest vertex: none of the others is higher than both its neighbours. */
  lemma NextHighest(verts: seq<Vertex>, cyc: seq<nat>, v: nat, x: nat, h: Vec)
    requires ConvexOutline(verts, cyc) && v in cyc && x in cyc && x != v
    requires Dot(h, Spot(verts, v).Minus(Spot(verts, x))) > 0
    ensures var (n, m) := (verts[v].next, verts[v].prev);
            && 0 <= n < |verts| && 0 <= m < |verts|
            && (Dot(h, Spot(verts, x).Minus(Spot(verts, n))) <= 0 || Dot(h, Spot(verts, x).Minus(Spot(verts, m))) <= 0)
  {
    Neighbours(verts, cyc, v);
    var (n, m) := (verts[v].next, verts[v].prev);
    if x == n || x == m {
      DotMinus(h, Spot(verts, x), Spot(verts, x));
    } else {
      var i := IndexOf(cyc, v);
      var r := Rotated(cyc, i);
      RotatedMembers(cyc, i);
      RotatedPolygon(verts, cyc, i);
      SpotsTurned(verts, cyc, i);
      assert NeighboursAt(verts, r, 0) && x in r;
      var k :| 0 <= k < |r| && r[k] == x;
      var (s, last) := (Spots(verts, r), |r| - 1);
      assert 1 < k < last;
      assert LeftOf(s[0], s[1], s[k]) && LeftOf(s[0], s[k], s[last]) && LeftOf(s[1], s[k], s[last]);
      Peak(s[0], s[1], s[k], s[last], h);
    }
  }

  lemma Peak(v: Vec, n: Vec, x: Vec, m: Vec, h: Vec)
    requires LeftOf(v, n, x) && LeftOf(v, x, m) && LeftOf(n, x, m) && Dot(h, v.Minus(x)) > 0
    ensures Dot(h, x.Minus(n)) <= 0 || Dot(h, x.Minus(m)) <= 0
  {
    var (a, b, c) := (n.Minus(v), x.Minus(v), m.Minus(v));
    ThreeVectors(a, b, c, h);
    DotMinus(h, n, v);
    DotMinus(h, x, v);
    DotMinus(h, m, v);
    DotMinus(h, v, x);
    DotMinus(h, x, n);
    DotMinus(h, x, m);
    CrossTurns(c, a);
    AcrossThree(v, n, x, m);
    hide Cross, Dot, Vec.Minus;
    Negative(Cross(c, a), Dot(h, b));
    Lowest(Cross(a, b), Cross(b, c), Cross(a, c), Dot(h, a), Dot(h, b), Dot(h, c));
  }

  lemma Negative(a: int, b: int)
    ensures a * b == -(-a * b)
  {}

  lemma AcrossThree(v: Vec, n: Vec, x: Vec, m: Vec)
    ensures var (a, b, c) := (n.Minus(v), x.Minus(v), m.Minus(v));
            && Ccw(v, n, x) == Cross(a, b) && Ccw(v, x, m) == Cross(b, c)
            && Ccw(n, x, m) == Cross(a, b) + Cross(b, c) - Cross(a, c)
  {
    var (a, b, c) := (n.Minus(v), x.Minus(v), m.Minus(v));
    Wider3(a, b, c);
    assert x.Minus(n) == b.Minus(a) && m.Minus(n) == c.Minus(a);
  }

  lemma Wider3(a: Vec, b: Vec, c: Vec)
    ensures Cross(b.Minus(a), c.Minus(a)) == Cross(a, b) + Cross(b, c) - Cross(a, c)
  {}

  lemma Lowest(i: int, j: int, k: int, a: int, b: int, c: int)
    requires i > 0 && j > 0 && i + j > k && b < 0 && i * c + j * a == k * b
    ensures b <= a || b <= c
  {
    if a < b && c < b {
      Monotone(i, c, b);
      Monotone(j, a, b);
      assert i * b + j * b == (i + j) * b;
      Product(i + j - k, b);
    }
  }
}
