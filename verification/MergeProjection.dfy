/**
 Splicing the projected polygons of two partial hulls
 (crates/cspace-bullet/src/convex_hull_computer.rs:836-870, 1298-1502, 1706-1761).

 Each partial hull keeps the outline of its projection on the (x, y) grid as a cycle of vertices linked by `next` and
 `prev`, together with four extreme vertices of that outline.
 */
module MergeProjection {
  import opened GridSort
  import opened HalfEdges
  import opened HullBounds
  import opened Plane
  import opened Outlines
  import opened ConvexOutlines

  datatype IntermediateHull = IntermediateHull(minXy: int, maxXy: int, minYx: int, maxYx: int)

  // ---- the searches ------------------------------------------------------

  /** Nothing is left to slide down to from either end. */
  ghost predicate SettledLow(verts: seq<Vertex>, v0: nat, v1: nat, side: bool, sign: int)
    requires v0 < |verts| && v1 < |verts| && (sign == 1 || sign == -1)
  {
    var w0, w1 := Neighbour(verts, v0, side), Neighbour(verts, v1, side);
    && 0 <= w0 < |verts| && 0 <= w1 < |verts| && GridAt(verts, v0) && GridAt(verts, v1) && GridAt(verts, w0) && GridAt(verts, w1)
    && var dx, dy := Across(verts, v0, v1, sign), Up(verts, v0, v1);
    && dx > 0
    && (w0 == v0 || !FallsBehind(dx, dy, Across(verts, v0, w0, sign), Up(verts, v0, w0)))
    && (w1 == v1 || Across(verts, v0, w1, sign) <= 0
        || !FallsAhead(dx, dy, Across(verts, v1, w1, sign), Up(verts, v1, w1)))
  }

  /** Nothing is left to slide up to from either end. */
  ghost predicate SettledHigh(verts: seq<Vertex>, v0: nat, v1: nat, side: bool, sign: int)
    requires v0 < |verts| && v1 < |verts| && (sign == 1 || sign == -1)
  {
    var w0, w1 := Neighbour(verts, v0, !side), Neighbour(verts, v1, !side);
    && 0 <= w0 < |verts| && 0 <= w1 < |verts| && GridAt(verts, v0) && GridAt(verts, v1) && GridAt(verts, w0) && GridAt(verts, w1)
    && var dx, dy := Across(verts, v0, v1, sign), Up(verts, v0, v1);
    && dx < 0
    && (w1 == v1 || !RisesBehind(dx, dy, Across(verts, v1, w1, sign), Up(verts, v1, w1)))
    && (w0 == v0 || Across(verts, w0, v1, sign) >= 0
        || !RisesAhead(dx, dy, Across(verts, v0, w0, sign), Up(verts, v0, w0)))
  }

  /** The bridge runs left to right: both ends slide down until neither neighbour is any lower. */
  method SlideDown(verts: seq<Vertex>, start0: nat, start1: nat, side: bool, sign: int, ghost p: seq<nat>, ghost q: seq<nat>)
    returns (v0: nat, v1: nat)
    requires Outline(verts, p) && Outline(verts, q) && start0 in p && start1 in q && (sign == 1 || sign == -1)
    requires start0 < |verts| && start1 < |verts| && GridAt(verts, start0) && GridAt(verts, start1)
    requires Across(verts, start0, start1, sign) > 0
    ensures v0 in p && v1 in q && v0 < |verts| && v1 < |verts| && SettledLow(verts, v0, v1, side, sign)
    ensures Poised(verts, p, q, start0, start1, side, sign) ==> Bridge(verts, p, q, v0, v1, sign)
  {
    hide Outline, FallsBehind, FallsAhead, Neighbour, Poised, SlidingDown, Bridge;
    v0, v1 := start0, start1;
    ghost var a, b := v0, v1;
    var dx := Across(verts, v0, v1, sign);
    DownStarts(verts, p, q, start0, start1, side, sign);
    while true
      invariant v0 in p && v1 in q && v0 < |verts| && v1 < |verts| && GridAt(verts, v0) && GridAt(verts, v1)
      invariant dx == Across(verts, v0, v1, sign) > 0
      invariant SlidingDown(verts, p, q, start0, start1, v0, v1, side, sign, a, b)
      decreases (verts[v0].point.x + verts[v1].point.x) * sign + verts[v0].point.y + verts[v1].point.y + 4 * GRID
    {
      NeighbourElsewhere(verts, p, v0, side);
      NeighbourElsewhere(verts, q, v1, side);
      var dy := Up(verts, v0, v1);
      var w0 := Neighbour(verts, v0, side);
      if w0 != v0 {
        var dx0 := Across(verts, v0, w0, sign);
        var dy0 := Up(verts, v0, w0);
        StepSigns(dx, dy, dx0, dy0);
        if FallsBehind(dx, dy, dx0, dy0) {
          DownNear(verts, p, q, start0, start1, v0, v1, side, sign, a, b, w0);
          v0 := w0;
          dx := Across(verts, v0, v1, sign);
          continue;
        }
      }
      var w1 := Neighbour(verts, v1, side);
      if w1 != v1 {
        var dx1 := Across(verts, v1, w1, sign);
        var dy1 := Up(verts, v1, w1);
        var dxn := Across(verts, v0, w1, sign);
        StepSigns(dx, dy, dx1, dy1);
        if dxn > 0 && FallsAhead(dx, dy, dx1, dy1) {
          DownFar(verts, p, q, start0, start1, v0, v1, side, sign, a, b, w0, w1);
          a, b := v0, v1;
          v1 := w1;
          dx := dxn;
          continue;
        }
      }
      break;
    }
    DownEnds(verts, p, q, start0, start1, v0, v1, side, sign, a, b);
  }

  /** For outlines fit to be searched, the search is under way. */
  ghost predicate SlidingDown(verts: seq<Vertex>, p: seq<nat>, q: seq<nat>, start0: nat, start1: nat, v0: nat, v1: nat,
                              side: bool, sign: int, a: nat, b: nat)
  {
    Poised(verts, p, q, start0, start1, side, sign)
    ==> Sliding(verts, p, q, start0, start1, v0, v1, side, Frame(sign, 1), a, b)
  }

  lemma DownStarts(verts: seq<Vertex>, p: seq<nat>, q: seq<nat>, start0: nat, start1: nat, side: bool, sign: int)
    requires start0 < |verts| && start1 < |verts| && GridAt(verts, start0) && GridAt(verts, start1)
    requires (sign == 1 || sign == -1) && Across(verts, start0, start1, sign) > 0
    ensures SlidingDown(verts, p, q, start0, start1, start0, start1, side, sign, start0, start1)
  {
    if Poised(verts, p, q, start0, start1, side, sign) {
      PoisedFaces(verts, p, q, start0, start1, side, sign);
      SeenFalling(verts, start0, start1, sign);
      SlidingStarts(verts, p, q, start0, start1, side, Frame(sign, 1));
    }
  }

  lemma DownNear(verts: seq<Vertex>, p: seq<nat>, q: seq<nat>, start0: nat, start1: nat, v0: nat, v1: nat, side: bool,
                 sign: int, a: nat, b: nat, w0: nat)
    requires SlidingDown(verts, p, q, start0, start1, v0, v1, side, sign, a, b) && (sign == 1 || sign == -1)
    requires v0 < |verts| && v1 < |verts| && GridAt(verts, v0) && GridAt(verts, v1)
    requires w0 < |verts| && GridAt(verts, w0) && w0 == Neighbour(verts, v0, side) && w0 != v0
    requires FallsBehind(Across(verts, v0, v1, sign), Up(verts, v0, v1), Across(verts, v0, w0, sign), Up(verts, v0, w0))
    ensures SlidingDown(verts, p, q, start0, start1, w0, v1, side, sign, a, b)
  {
    hide Poised, Sliding, FallsBehind, To, NotFallen, Steps;
    DownTests(verts, v0, v1, w0, sign);
    if Poised(verts, p, q, start0, start1, side, sign) {
      SlidingNear(verts, p, q, start0, start1, v0, v1, side, Frame(sign, 1), a, b, w0);
    }
  }

  lemma DownFar(verts: seq<Vertex>, p: seq<nat>, q: seq<nat>, start0: nat, start1: nat, v0: nat, v1: nat, side: bool,
                sign: int, a: nat, b: nat, w0: nat, w1: nat)
    requires SlidingDown(verts, p, q, start0, start1, v0, v1, side, sign, a, b) && (sign == 1 || sign == -1)
    requires v0 < |verts| && v1 < |verts| && GridAt(verts, v0) && GridAt(verts, v1)
    requires w0 < |verts| && GridAt(verts, w0) && w0 == Neighbour(verts, v0, side)
    requires w1 < |verts| && GridAt(verts, w1) && w1 == Neighbour(verts, v1, side) && w1 != v1
    requires var (dx, dy) := (Across(verts, v0, v1, sign), Up(verts, v0, v1));
             && (w0 == v0 || !FallsBehind(dx, dy, Across(verts, v0, w0, sign), Up(verts, v0, w0)))
             && Across(verts, v0, w1, sign) > 0 && FallsAhead(dx, dy, Across(verts, v1, w1, sign), Up(verts, v1, w1))
    ensures SlidingDown(verts, p, q, start0, start1, v0, w1, side, sign, v0, v1)
  {
    hide Poised, Sliding, FallsBehind, FallsAhead, To, NotFallen, Steps;
    DownTests(verts, v0, v1, w0, sign);
    DownTests(verts, v0, v1, w1, sign);
    if Poised(verts, p, q, start0, start1, side, sign) {
      SlidingFar(verts, p, q, start0, start1, v0, v1, side, Frame(sign, 1), a, b, w1);
    }
  }

  lemma DownEnds(verts: seq<Vertex>, p: seq<nat>, q: seq<nat>, start0: nat, start1: nat, v0: nat, v1: nat, side: bool, sign: int,
                 a: nat, b: nat)
    requires v0 < |verts| && v1 < |verts| && (sign == 1 || sign == -1) && SettledLow(verts, v0, v1, side, sign)
    requires SlidingDown(verts, p, q, start0, start1, v0, v1, side, sign, a, b)
    ensures Poised(verts, p, q, start0, start1, side, sign) ==> Bridge(verts, p, q, v0, v1, sign)
  {
    hide Poised, FallsBehind, FallsAhead, To, NotFallen, Steps, Facing, NearState, FarState, Rightward, NearInside, FarInside, Bridge;
    var (w0, w1) := (Neighbour(verts, v0, side), Neighbour(verts, v1, side));
    DownTests(verts, v0, v1, w0, sign);
    DownTests(verts, v0, v1, w1, sign);
    if Poised(verts, p, q, start0, start1, side, sign) {
      SlidingEnds(verts, p, q, start0, start1, v0, v1, side, Frame(sign, 1), a, b);
      PoisedBelow(verts, p, q, start0, start1, side, sign);
      DownIsBridge(verts, p, q, v0, v1, sign);
    }
  }

  lemma PoisedBelow(verts: seq<Vertex>, p: seq<nat>, q: seq<nat>, start0: nat, start1: nat, side: bool, sign: int)
    requires Poised(verts, p, q, start0, start1, side, sign)
    ensures There(verts, p) && There(verts, q) && Below(verts, p, q)
  {}

  /** The tests on a step from either end, in the picture the search looks at. */
  lemma DownTests(verts: seq<Vertex>, v0: nat, v1: nat, w: nat, sign: int)
    requires v0 < |verts| && v1 < |verts| && w < |verts| && GridAt(verts, v0) && GridAt(verts, v1) && GridAt(verts, w)
    requires sign == 1 || sign == -1
    ensures var (f, dx, dy) := (Frame(sign, 1), Across(verts, v0, v1, sign), Up(verts, v0, v1));
            && (FallsBehind(dx, dy, Across(verts, v0, w, sign), Up(verts, v0, w))
                <==> !NotFallen(To(verts, v0, v1, f), To(verts, v0, w, f)))
            && (Across(verts, v0, w, sign) > 0 && FallsAhead(dx, dy, Across(verts, v1, w, sign), Up(verts, v1, w))
                <==> Steps(To(verts, v0, v1, f), To(verts, v1, w, f)))
  {
    SeenFalling(verts, v0, v1, sign);
    SeenFalling(verts, v0, w, sign);
    SeenFalling(verts, v1, w, sign);
    AcrossAdds(verts, v0, v1, w, sign);
    FallingTests(Across(verts, v0, v1, sign), Up(verts, v0, v1), Across(verts, v0, w, sign), Up(verts, v0, w));
    FallingTests(Across(verts, v0, v1, sign), Up(verts, v0, v1), Across(verts, v1, w, sign), Up(verts, v1, w));
  }

  lemma AcrossAdds(verts: seq<Vertex>, u: nat, v: nat, w: nat, sign: int)
    requires u < |verts| && v < |verts| && w < |verts| && GridAt(verts, u) && GridAt(verts, v) && GridAt(verts, w)
    requires sign == 1 || sign == -1
    ensures Across(verts, u, w, sign) == Across(verts, u, v, sign) + Across(verts, v, w, sign)
    ensures Across(verts, v, u, sign) == -Across(verts, u, v, sign) && Up(verts, v, u) == -Up(verts, u, v)
  {}

  /** The bridge runs right to left: both ends slide up. */
  method SlideUp(verts: seq<Vertex>, start0: nat, start1: nat, side: bool, sign: int, ghost p: seq<nat>, ghost q: seq<nat>)
    returns (v0: nat, v1: nat)
    requires Outline(verts, p) && Outline(verts, q) && start0 in p && start1 in q && (sign == 1 || sign == -1)
    requires start0 < |verts| && start1 < |verts| && GridAt(verts, start0) && GridAt(verts, start1)
    requires Across(verts, start0, start1, sign) < 0
    ensures v0 in p && v1 in q && v0 < |verts| && v1 < |verts| && SettledHigh(verts, v0, v1, side, sign)
    ensures Poised(verts, p, q, start0, start1, side, sign) ==> Bridge(verts, p, q, v0, v1, sign)
  {
    hide Outline, RisesBehind, RisesAhead, Neighbour, Poised, SlidingUp, Bridge;
    v0, v1 := start0, start1;
    ghost var a, b := v1, v0;
    var dx := Across(verts, v0, v1, sign);
    UpStarts(verts, p, q, start0, start1, side, sign);
    while true
      invariant v0 in p && v1 in q && v0 < |verts| && v1 < |verts| && GridAt(verts, v0) && GridAt(verts, v1)
      invariant dx == Across(verts, v0, v1, sign) < 0
      invariant SlidingUp(verts, p, q, start0, start1, v0, v1, side, sign, a, b)
      decreases (verts[v0].point.x + verts[v1].point.x) * sign - verts[v0].point.y - verts[v1].point.y + 4 * GRID
    {
      NeighbourElsewhere(verts, p, v0, !side);
      NeighbourElsewhere(verts, q, v1, !side);
      var dy := Up(verts, v0, v1);
      var w1 := Neighbour(verts, v1, !side);
      if w1 != v1 {
        var dx1 := Across(verts, v1, w1, sign);
        var dy1 := Up(verts, v1, w1);
        StepSigns(dx, dy, dx1, dy1);
        if RisesBehind(dx, dy, dx1, dy1) {
          UpNear(verts, p, q, start0, start1, v0, v1, side, sign, a, b, w1);
          v1 := w1;
          dx := Across(verts, v0, v1, sign);
          continue;
        }
      }
      var w0 := Neighbour(verts, v0, !side);
      if w0 != v0 {
        var dx0 := Across(verts, v0, w0, sign);
        var dy0 := Up(verts, v0, w0);
        var dxn := Across(verts, w0, v1, sign);
        StepSigns(dx, dy, dx0, dy0);
        if dxn < 0 && RisesAhead(dx, dy, dx0, dy0) {
          UpFar(verts, p, q, start0, start1, v0, v1, side, sign, a, b, w1, w0);
          a, b := v1, v0;
          v0 := w0;
          dx := dxn;
          continue;
        }
      }
      break;
    }
    UpEnds(verts, p, q, start0, start1, v0, v1, side, sign, a, b);
  }

  /** The same picture upside down, with the ends exchanged. */
  ghost predicate SlidingUp(verts: seq<Vertex>, p: seq<nat>, q: seq<nat>, start0: nat, start1: nat, v0: nat, v1: nat,
                            side: bool, sign: int, a: nat, b: nat)
  {
    Poised(verts, p, q, start0, start1, side, sign)
    ==> Sliding(verts, q, p, start1, start0, v1, v0, !side, Frame(sign, -1), a, b)
  }

  lemma UpStarts(verts: seq<Vertex>, p: seq<nat>, q: seq<nat>, start0: nat, start1: nat, side: bool, sign: int)
    requires start0 < |verts| && start1 < |verts| && GridAt(verts, start0) && GridAt(verts, start1)
    requires (sign == 1 || sign == -1) && Across(verts, start0, start1, sign) < 0
    ensures SlidingUp(verts, p, q, start0, start1, start0, start1, side, sign, start1, start0)
  {
    if Poised(verts, p, q, start0, start1, side, sign) {
      PoisedFaces(verts, p, q, start0, start1, side, sign);
      SeenFalling(verts, start0, start1, sign);
      SlidingStarts(verts, q, p, start1, start0, !side, Frame(sign, -1));
    }
  }

  lemma UpNear(verts: seq<Vertex>, p: seq<nat>, q: seq<nat>, start0: nat, start1: nat, v0: nat, v1: nat, side: bool,
               sign: int, a: nat, b: nat, w1: nat)
    requires SlidingUp(verts, p, q, start0, start1, v0, v1, side, sign, a, b) && (sign == 1 || sign == -1)
    requires v0 < |verts| && v1 < |verts| && GridAt(verts, v0) && GridAt(verts, v1)
    requires w1 < |verts| && GridAt(verts, w1) && w1 == Neighbour(verts, v1, !side) && w1 != v1
    requires RisesBehind(Across(verts, v0, v1, sign), Up(verts, v0, v1), Across(verts, v1, w1, sign), Up(verts, v1, w1))
    ensures SlidingUp(verts, p, q, start0, start1, v0, w1, side, sign, a, b)
  {
    hide Poised, Sliding, RisesBehind, To, NotFallen, Steps;
    UpTests(verts, v0, v1, w1, sign);
    if Poised(verts, p, q, start0, start1, side, sign) {
      SlidingNear(verts, q, p, start1, start0, v1, v0, !side, Frame(sign, -1), a, b, w1);
    }
  }

  lemma UpFar(verts: seq<Vertex>, p: seq<nat>, q: seq<nat>, start0: nat, start1: nat, v0: nat, v1: nat, side: bool,
              sign: int, a: nat, b: nat, w1: nat, w0: nat)
    requires SlidingUp(verts, p, q, start0, start1, v0, v1, side, sign, a, b) && (sign == 1 || sign == -1)
    requires v0 < |verts| && v1 < |verts| && GridAt(verts, v0) && GridAt(verts, v1)
    requires w1 < |verts| && GridAt(verts, w1) && w1 == Neighbour(verts, v1, !side)
    requires w0 < |verts| && GridAt(verts, w0) && w0 == Neighbour(verts, v0, !side) && w0 != v0
    requires var (dx, dy) := (Across(verts, v0, v1, sign), Up(verts, v0, v1));
             && (w1 == v1 || !RisesBehind(dx, dy, Across(verts, v1, w1, sign), Up(verts, v1, w1)))
             && Across(verts, w0, v1, sign) < 0 && RisesAhead(dx, dy, Across(verts, v0, w0, sign), Up(verts, v0, w0))
    ensures SlidingUp(verts, p, q, start0, start1, w0, v1, side, sign, v1, v0)
  {
    hide Poised, Sliding, RisesBehind, RisesAhead, To, NotFallen, Steps;
    UpTests(verts, v0, v1, w0, sign);
    UpTests(verts, v0, v1, w1, sign);
    if Poised(verts, p, q, start0, start1, side, sign) {
      SlidingFar(verts, q, p, start1, start0, v1, v0, !side, Frame(sign, -1), a, b, w0);
    }
  }

  lemma UpEnds(verts: seq<Vertex>, p: seq<nat>, q: seq<nat>, start0: nat, start1: nat, v0: nat, v1: nat, side: bool, sign: int,
               a: nat, b: nat)
    requires v0 < |verts| && v1 < |verts| && (sign == 1 || sign == -1) && SettledHigh(verts, v0, v1, side, sign)
    requires SlidingUp(verts, p, q, start0, start1, v0, v1, side, sign, a, b)
    ensures Poised(verts, p, q, start0, start1, side, sign) ==> Bridge(verts, p, q, v0, v1, sign)
  {
    hide Poised, RisesBehind, RisesAhead, To, NotFallen, Steps, Facing, NearState, FarState, Rightward, NearInside, FarInside, Bridge;
    var (w0, w1) := (Neighbour(verts, v0, !side), Neighbour(verts, v1, !side));
    UpTests(verts, v0, v1, w0, sign);
    UpTests(verts, v0, v1, w1, sign);
    if Poised(verts, p, q, start0, start1, side, sign) {
      SlidingEnds(verts, q, p, start1, start0, v1, v0, !side, Frame(sign, -1), a, b);
      PoisedBelow(verts, p, q, start0, start1, side, sign);
      UpIsBridge(verts, p, q, v0, v1, sign);
    }
  }

  lemma UpTests(verts: seq<Vertex>, v0: nat, v1: nat, w: nat, sign: int)
    requires v0 < |verts| && v1 < |verts| && w < |verts| && GridAt(verts, v0) && GridAt(verts, v1) && GridAt(verts, w)
    requires sign == 1 || sign == -1
    ensures var (f, dx, dy) := (Frame(sign, -1), Across(verts, v0, v1, sign), Up(verts, v0, v1));
            && (RisesBehind(dx, dy, Across(verts, v1, w, sign), Up(verts, v1, w))
                <==> !NotFallen(To(verts, v1, v0, f), To(verts, v1, w, f)))
            && (Across(verts, w, v1, sign) < 0 && RisesAhead(dx, dy, Across(verts, v0, w, sign), Up(verts, v0, w))
                <==> Steps(To(verts, v1, v0, f), To(verts, v0, w, f)))
  {
    SeenFalling(verts, v0, v1, sign);
    SeenFalling(verts, w, v1, sign);
    SeenFalling(verts, w, v0, sign);
    AcrossAdds(verts, v0, w, v1, sign);
    AcrossAdds(verts, w, v0, v0, sign);
    AcrossAdds(verts, w, v1, v1, sign);
    FallingTests(Across(verts, v0, v1, sign), Up(verts, v0, v1), Across(verts, v1, w, sign), Up(verts, v1, w));
    FallingTests(Across(verts, v0, v1, sign), Up(verts, v0, v1), Across(verts, v0, w, sign), Up(verts, v0, w));
  }

  /** Same projected x: slide along the vertical run to its end. */
  method SlideColumn(verts: seq<Vertex>, from: nat, forward: bool, down: bool, ghost cyc: seq<nat>) returns (v: nat)
    requires Outline(verts, cyc) && from in cyc && from < |verts|
    ensures v in cyc && v < |verts| && verts[v].point.x == verts[from].point.x
    ensures if down then verts[v].point.y <= verts[from].point.y else verts[v].point.y >= verts[from].point.y
    ensures RunEnds(verts, from, v, Neighbour(verts, v, forward), down)
  {
    hide Outline, Neighbour;
    var x, y := verts[from].point.x, verts[from].point.y;
    v := from;
    while true
      invariant v in cyc && v < |verts| && verts[v].point.x == x && verts[v].point.y == y
      invariant if down then y <= verts[from].point.y else y >= verts[from].point.y
      decreases if down then y + GRID else GRID - y
    {
      NeighbourElsewhere(verts, cyc, v, forward);
      var t := Neighbour(verts, v, forward);
      if t == from || verts[t].point.x != x || (if down then verts[t].point.y > y else verts[t].point.y < y) {
        break;
      }
      v := t;
      y := verts[t].point.y;
    }
  }

  /** One tangent: which search runs depends on which way the bridge leans. */
  method Tangent(verts: seq<Vertex>, start0: nat, start1: nat, side: bool, sign: int, ghost p: seq<nat>, ghost q: seq<nat>)
    returns (v0: nat, v1: nat)
    requires Outline(verts, p) && Outline(verts, q) && start0 in p && start1 in q && (sign == 1 || sign == -1)
    requires start0 < |verts| && start1 < |verts| && GridAt(verts, start0) && GridAt(verts, start1)
    ensures v0 in p && v1 in q && v0 < |verts| && v1 < |verts|
    ensures Settled(verts, start0, start1, v0, v1, side, sign)
    ensures Poised(verts, p, q, start0, start1, side, sign) ==> Bridge(verts, p, q, v0, v1, sign)
  {
    hide Outline, SettledLow, SettledHigh, RunEnds, Poised, Bridge, Neighbour;
    var dx := Across(verts, start0, start1, sign);
    if dx > 0 {
      v0, v1 := SlideDown(verts, start0, start1, side, sign, p, q);
    } else if dx < 0 {
      v0, v1 := SlideUp(verts, start0, start1, side, sign, p, q);
    } else {
      v0 := SlideColumn(verts, start0, side, true, p);
      v1 := SlideColumn(verts, start1, !side, false, q);
      if Poised(verts, p, q, start0, start1, side, sign) { ColumnIsBridge(verts, p, q, start0, start1, v0, v1, side, sign); }
    }
  }

  ghost predicate Settled(verts: seq<Vertex>, start0: nat, start1: nat, v0: nat, v1: nat, side: bool, sign: int)
    requires start0 < |verts| && start1 < |verts| && GridAt(verts, start0) && GridAt(verts, start1)
    requires v0 < |verts| && v1 < |verts| && (sign == 1 || sign == -1)
  {
    var dx := Across(verts, start0, start1, sign);
    && (dx > 0 ==> SettledLow(verts, v0, v1, side, sign))
    && (dx < 0 ==> SettledHigh(verts, v0, v1, side, sign))
    && (dx == 0 ==>
          && verts[v0].point.x == verts[start0].point.x == verts[start1].point.x == verts[v1].point.x
          && RunEnds(verts, start0, v0, Neighbour(verts, v0, side), true)
          && RunEnds(verts, start1, v1, Neighbour(verts, v1, !side), false))
  }

  // ---- the merge of two outlines -----------------------------------------

  /** The extremes name vertices of the outline. */
  ghost predicate Names(h: IntermediateHull, cyc: seq<nat>) {
    && h.minXy >= 0 && h.minXy in cyc && h.maxXy >= 0 && h.maxXy in cyc
    && h.minYx >= 0 && h.minYx in cyc && h.maxYx >= 0 && h.maxYx in cyc
  }

  /** The outline left once a vertex that coincides with the other hull is taken off it. */
  ghost function Remaining(verts: seq<Vertex>, q: seq<nat>, v0: int, v1: int): seq<nat> {
    if Touch(verts, v0, v1) && v1 in q
    then After(q, v1) else q
  }

  /** The coincident vertex leaves its outline; extremes it held pass to the better of its neighbours. */
  method DropCoincident(hull: HullInternal, h1: IntermediateHull, v1: nat, ghost q: seq<nat>) returns (h: IntermediateHull)
    requires PolygonOf(hull.verts, q) && Names(h1, q) && v1 in q && |q| > 1 && h1.minYx == v1
    modifies hull`verts
    ensures |hull.verts| == old(|hull.verts|)
    ensures forall x :: 0 <= x < |hull.verts| ==> SameButPolygon(old(hull.verts[x]), hull.verts[x])
    ensures PolygonOf(hull.verts, After(q, v1))
    ensures h.minXy >= 0 && h.minXy in After(q, v1) && h.maxXy >= 0 && h.maxXy in After(q, v1)
    ensures h1.minXy != v1 ==> h.minXy == h1.minXy
    ensures h1.maxXy != v1 ==> h.maxXy == h1.maxXy
    ensures v1 < |hull.verts| && h.minXy < |hull.verts| && h.maxXy < |hull.verts|
    ensures forall x :: 0 <= x < |hull.verts| && x !in q ==> hull.verts[x] == old(hull.verts[x])
    ensures forall u :: u == old(hull.verts[v1].next) || u == old(hull.verts[v1].prev) ==>
              && 0 <= u < |hull.verts|
              && (h1.minXy == v1 ==> !LessXy(hull.verts[u].point, hull.verts[h.minXy].point))
              && (h1.maxXy == v1 ==> !LessXy(hull.verts[h.maxXy].point, hull.verts[u].point))
    ensures h.maxYx == h1.maxYx && h.minYx == h1.minYx
    ensures PassedOn(old(hull.verts), q, v1, h1, h)
  {
    WithoutVertex(hull.verts, q, v1);
    Neighbours(hull.verts, q, v1);
    Neighbours(hull.verts, q, h1.minXy);
    Neighbours(hull.verts, q, h1.maxXy);
    AfterMembers(q, v1);
    JoinFields(hull.verts, hull.verts[v1].prev, hull.verts[v1].next);
    h := h1;
    var v1p, v1n := hull.verts[v1].prev, hull.verts[v1].next;
    hull.verts := hull.verts[v1p := hull.verts[v1p].(next := v1n)];
    hull.verts := hull.verts[v1n := hull.verts[v1n].(prev := v1p)];
    assert hull.verts == Join(old(hull.verts), v1p, v1n);
    if v1 == h.minXy {
      h := h.(minXy := if LessXy(hull.verts[v1n].point, hull.verts[v1p].point) then v1n else v1p);
    }
    if v1 == h.maxXy {
      h := h.(maxXy := if LessXy(hull.verts[v1p].point, hull.verts[v1n].point) then v1n else v1p);
    }
    assert v1p != v1 && v1n != v1;
  }

  /** Writing only polygon links keeps the edge arena. */
  lemma PolygonWritesKeep(verts: seq<Vertex>, verts': seq<Vertex>, edges: seq<InternalEdge>, head: int, free: seq<nat>,
                          rings: seq<seq<nat>>, pending: set<nat>)
    requires Arena(verts, edges, head, free, rings, pending) && |verts'| == |verts|
    requires forall x :: 0 <= x < |verts| ==> SameButPolygon(verts[x], verts'[x])
    ensures Arena(verts', edges, head, free, rings, pending)
  {}

  /** Points and removal leave an outline an outline. */
  lemma OutlineKept(verts: seq<Vertex>, verts': seq<Vertex>, q: seq<nat>, q': seq<nat>)
    requires Gridded(verts, q) && DistinctXy(verts, q) && PolygonOf(verts', q') && |verts'| == |verts|
    requires forall x :: 0 <= x < |verts| ==> SameButPolygon(verts[x], verts'[x])
    requires forall x :: x in q' ==> x in q
    ensures Outline(verts', q')
  {}

  /** Leaving another cycle's vertices alone keeps a cycle. */
  lemma PolygonFrame(verts: seq<Vertex>, verts': seq<Vertex>, p: seq<nat>)
    requires PolygonOf(verts, p) && |verts'| == |verts|
    requires forall x :: x in p && x < |verts| ==> verts'[x] == verts[x]
    ensures PolygonOf(verts', p)
  {
    forall i | 0 <= i < |p| ensures NeighboursAt(verts', p, i) {
      assert NeighboursAt(verts, p, i);
    }
  }

  ghost predicate Disjoint(p: seq<nat>, q: seq<nat>) { forall x :: x in p ==> x !in q }

  /** The two joins of a merge turn an arc of each cycle into one cycle. */
  lemma SpliceArcs(verts: seq<Vertex>, p: seq<nat>, q: seq<nat>, v0: nat, v00: nat, v10: nat, v1: nat)
    requires PolygonOf(verts, p) && PolygonOf(verts, q) && Disjoint(p, q)
    requires v0 in p && v00 in p && v10 in q && v1 in q
    ensures v0 < |verts| && v00 < |verts| && v10 < |verts| && v1 < |verts| && v0 != v1 && v00 != v10
    ensures PolygonOf(Join(Join(verts, v1, v0), v00, v10), Arc(p, v0, v00) + Arc(q, v10, v1))
  {
    var a, b := Arc(p, v0, v00), Arc(q, v10, v1);
    ArcFacts(verts, p, v0, v00);
    ArcFacts(verts, q, v10, v1);
    assert Distinct(a + b) by {
      forall i, j | 0 <= i < j < |a + b| ensures (a + b)[i] != (a + b)[j] {
        if i < |a| <= j {
          assert a[i] in p && b[j - |a|] in q;
        }
      }
    }
    ArcsClose(verts, a, b);
  }

  /** Both tangents, one per side; the second one in the mirrored picture. */
  method Tangents(verts: seq<Vertex>, h0: IntermediateHull, h1: IntermediateHull, ghost p: seq<nat>, ghost q: seq<nat>)
    returns (v0: nat, v1: nat, v00: nat, v10: nat)
    requires Outline(verts, p) && Outline(verts, q)
    requires h0.minXy >= 0 && h0.minXy in p && h0.maxXy >= 0 && h0.maxXy in p
    requires h1.minXy >= 0 && h1.minXy in q && h1.maxXy >= 0 && h1.maxXy in q
    ensures v0 in p && v00 in p && v1 in q && v10 in q
    ensures v0 < |verts| && v00 < |verts| && v1 < |verts| && v10 < |verts|
    ensures h0.minXy < |verts| && h0.maxXy < |verts| && h1.minXy < |verts| && h1.maxXy < |verts|
    ensures GridAt(verts, h0.minXy) && GridAt(verts, h0.maxXy) && GridAt(verts, h1.minXy) && GridAt(verts, h1.maxXy)
    ensures Settled(verts, h0.maxXy, h1.maxXy, v00, v10, false, 1)
    ensures Settled(verts, h0.minXy, h1.minXy, v0, v1, true, -1)
    ensures Poised(verts, p, q, h0.maxXy, h1.maxXy, false, 1) ==> Bridge(verts, p, q, v00, v10, 1)
    ensures Poised(verts, p, q, h0.minXy, h1.minXy, true, -1) ==> Bridge(verts, p, q, v0, v1, -1)
  {
    NeighbourElsewhere(verts, p, h0.minXy, true);
    NeighbourElsewhere(verts, p, h0.maxXy, true);
    NeighbourElsewhere(verts, q, h1.minXy, true);
    NeighbourElsewhere(verts, q, h1.maxXy, true);
    hide Outline, Settled, Poised, Bridge;
    v0, v1 := h0.maxXy, h1.maxXy;
    v00, v10 := v0, v1;
    var sign, side := 1, 0;
    while side <= 1
      invariant 0 <= side <= 2 && sign == (if side == 0 then 1 else -1)
      invariant v0 in p && v1 in q && v00 in p && v10 in q
      invariant v0 < |verts| && v1 < |verts| && v00 < |verts| && v10 < |verts|
      invariant side == 0 ==> v0 == h0.maxXy && v1 == h1.maxXy
      invariant side == 1 ==> v0 == h0.minXy && v1 == h1.minXy
      invariant side >= 1 ==> Settled(verts, h0.maxXy, h1.maxXy, v00, v10, false, 1)
      invariant side == 2 ==> Settled(verts, h0.minXy, h1.minXy, v0, v1, true, -1)
      invariant side >= 1 && Poised(verts, p, q, h0.maxXy, h1.maxXy, false, 1) ==> Bridge(verts, p, q, v00, v10, 1)
      invariant side == 2 && Poised(verts, p, q, h0.minXy, h1.minXy, true, -1) ==> Bridge(verts, p, q, v0, v1, -1)
    {
      v0, v1 := Tangent(verts, v0, v1, side != 0, sign, p, q);
      if side == 0 {
        v00, v10 := v0, v1;
        v0, v1 := h0.minXy, h1.minXy;
        sign := -1;
      }
      side := side + 1;
    }
  }

  /** The four writes that close the merged outline. */
  method JoinOutlines(hull: HullInternal, v0: nat, v00: nat, v10: nat, v1: nat, ghost p: seq<nat>, ghost q: seq<nat>)
    requires PolygonOf(hull.verts, p) && PolygonOf(hull.verts, q) && Disjoint(p, q)
    requires v0 in p && v00 in p && v10 in q && v1 in q
    requires v0 < |hull.verts| && v00 < |hull.verts| && v10 < |hull.verts| && v1 < |hull.verts|
    modifies hull`verts
    ensures |hull.verts| == old(|hull.verts|)
    ensures forall x :: 0 <= x < |hull.verts| ==> SameButPolygon(old(hull.verts[x]), hull.verts[x])
    ensures PolygonOf(hull.verts, Arc(p, v0, v00) + Arc(q, v10, v1))
  {
    hide PolygonOf, Arc;
    SpliceArcs(hull.verts, p, q, v0, v00, v10, v1);
    ghost var before := hull.verts;
    hull.verts := hull.verts[v0 := hull.verts[v0].(prev := v1)];
    hull.verts := hull.verts[v1 := hull.verts[v1].(next := v0)];
    assert hull.verts == Join(before, v1, v0);
    hull.verts := hull.verts[v00 := hull.verts[v00].(next := v10)];
    hull.verts := hull.verts[v10 := hull.verts[v10].(prev := v00)];
  }

  /** What the merge reads about two named vertices. */
  lemma TouchReads(verts: seq<Vertex>, edges: seq<InternalEdge>, head: int, free: seq<nat>, rings: seq<seq<nat>>,
                   pending: set<nat>, p: seq<nat>, q: seq<nat>, v0: nat, v1: nat)
    requires Arena(verts, edges, head, free, rings, pending) && PolygonOf(verts, p) && PolygonOf(verts, q)
    requires v0 in p && v1 in q
    ensures v0 < |verts| && v1 < |verts| == |rings| && (verts[v1].prev == v1 <==> |q| == 1)
    ensures verts[v1].edges == (if rings[v1] == [] then NIL else rings[v1][0])
    ensures rings[v1] != [] ==> rings[v1][0] < |edges|
  {
    Neighbours(verts, p, v0);
    Neighbours(verts, q, v1);
    RingIsThere(edges, rings, v1);
    assert rings[v1] != [] ==> LinkedAt(edges, rings[v1], 0);
  }

  /** Splices the outline of `h1` into that of `h0`. The answer is false exactly when the hulls touch in a single
      vertex of `h1` that projects onto `h0`'s; then nothing is written and the bridge starts vertically. Otherwise the
      outline becomes an arc of the first followed by an arc of the second, cut where the searches settled: `mid` and
      `k` are the links and the second hull as the searches found them. */
  method MergeOutlines(hull: HullInternal, h0: IntermediateHull, h1: IntermediateHull, ghost p: seq<nat>, ghost q: seq<nat>)
    returns (spliced: bool, h: IntermediateHull, c0: int, c1: int,
             ghost low0: nat, ghost low1: nat, ghost mid: seq<Vertex>, ghost k: IntermediateHull)
    requires hull.Valid() && Outline(hull.verts, p) && Outline(hull.verts, q) && Disjoint(p, q)
    requires Names(h0, p) && Names(h1, q)
    modifies hull`verts
    ensures hull.Valid() && |hull.verts| == old(|hull.verts|)
    ensures forall x :: 0 <= x < |hull.verts| ==> SameButPolygon(old(hull.verts[x]), hull.verts[x])
    ensures spliced <==> !(Touch(hull.verts, h0.maxYx, h1.minYx) && |q| == 1)
    ensures !spliced ==> hull.verts == old(hull.verts) && h == h0 && c0 == h0.maxYx && h1.minYx < |hull.rings|
    ensures !spliced ==>
              c1 == (if hull.rings[h1.minYx] == [] then h1.minYx else hull.edges[hull.rings[h1.minYx][0]].target)
    ensures spliced ==>
              var q' := Remaining(hull.verts, q, h0.maxYx, h1.minYx);
              && low0 in p && c0 >= 0 && c0 in p && c1 >= 0 && c1 in q' && low1 in q'
              && PolygonOf(hull.verts, Arc(p, low0, c0) + Arc(q', c1, low1))
              && Outline(mid, p) && Outline(mid, q') && |mid| == |hull.verts|
              && (Touch(hull.verts, h0.maxYx, h1.minYx) || (mid == old(hull.verts) && k == h1))
              && SettledBothSides(mid, h0, k, c0, c1, low0, low1)
              && IsMerged(hull.verts, h0, k, h)
    ensures old(Mergeable(hull.verts, p, q, h0, h1)) ==>
              if spliced
              then HullOf(hull.verts, Arc(p, low0, c0) + Arc(Remaining(hull.verts, q, h0.maxYx, h1.minYx), c1, low1), p + q, h)
              else HullOf(hull.verts, p, p + q, h)
  {
    hide PolygonOf, Gridded, DistinctXy, Arc, Settled, Arena, Disjoint, Mergeable, HullOf, Rest, PassedOn;
    TouchReads(hull.verts, hull.edges, hull.edgeFree, hull.free, hull.rings, hull.pending, p, q, h0.maxYx, h1.minYx);
    low0, low1, mid, k := 0, 0, hull.verts, h1;
    var v0, v1 := h0.maxYx, h1.minYx;
    var k1 := h1;
    ghost var q' := q;
    if SameXy(hull.verts[v0].point, hull.verts[v1].point) {
      var v1p := hull.verts[v1].prev;
      if v1p == v1 {
        h, c0, spliced := h0, v0, false;
        if hull.verts[v1].edges != NIL {
          v1 := hull.edges[hull.verts[v1].edges].target;
        }
        c1 := v1;
        if Mergeable(hull.verts, p, q, h0, h1) { LoneHull(hull.verts, p, q, h0, h1); }
        return;
      }
      k1 := DropCoincident(hull, h1, v1, q);
      q' := After(q, v1);
    }
    RestIs(old(hull.verts), q, q', h0.maxYx, h1, k1);
    AfterDrop(old(hull.verts), hull.verts, p, q, q', v1);
    mid, k := hull.verts, k1;
    var v00, v10;
    v0, v1, v00, v10 := CloseOutlines(hull, h0, k1, p, q');
    PolygonWritesKeep(old(hull.verts), hull.verts, hull.edges, hull.edgeFree, hull.free, hull.rings, hull.pending);
    h := h0;
    if hull.verts[k1.minXy].point.x < hull.verts[h0.minXy].point.x {
      h := h.(minXy := k1.minXy);
    }
    if hull.verts[k1.maxXy].point.x >= hull.verts[h0.maxXy].point.x {
      h := h.(maxXy := k1.maxXy);
    }
    h := h.(maxYx := k1.maxYx);
    c0, c1, low0, low1, spliced := v00, v10, v0, v1, true;
    if old(Mergeable(hull.verts, p, q, h0, h1)) {
      WholeHull(old(hull.verts), mid, hull.verts, p, q, q', h0, h1, k, h, low0, v00, v10, low1);
    }
  }

  lemma RestIs(verts: seq<Vertex>, q: seq<nat>, q': seq<nat>, v0: int, h1: IntermediateHull, k: IntermediateHull)
    requires h1.minYx >= 0 && h1.minYx in q
    requires if Touch(verts, v0, h1.minYx) then q' == After(q, h1.minYx) && |q| > 1 && PassedOn(verts, q, h1.minYx, h1, k)
             else q' == q && k == h1
    ensures Rest(verts, q, q', v0, h1, k)
  {}

  /** Both tangents, and the cycle closed over them. */
  method CloseOutlines(hull: HullInternal, h0: IntermediateHull, k: IntermediateHull, ghost p: seq<nat>, ghost q: seq<nat>)
    returns (v0: nat, v1: nat, v00: nat, v10: nat)
    requires Outline(hull.verts, p) && Outline(hull.verts, q) && Disjoint(p, q)
    requires h0.minXy >= 0 && h0.minXy in p && h0.maxXy >= 0 && h0.maxXy in p
    requires k.minXy >= 0 && k.minXy in q && k.maxXy >= 0 && k.maxXy in q
    modifies hull`verts
    ensures |hull.verts| == old(|hull.verts|)
    ensures forall x :: 0 <= x < |hull.verts| ==> SameButPolygon(old(hull.verts[x]), hull.verts[x])
    ensures v0 in p && v00 in p && v1 in q && v10 in q
    ensures PolygonOf(hull.verts, Arc(p, v0, v00) + Arc(q, v10, v1))
    ensures SettledBothSides(old(hull.verts), h0, k, v00, v10, v0, v1)
    ensures v0 < |hull.verts| && v00 < |hull.verts| && v1 < |hull.verts| && v10 < |hull.verts|
    ensures old(Poised(hull.verts, p, q, h0.maxXy, k.maxXy, false, 1) ==> Bridge(hull.verts, p, q, v00, v10, 1))
    ensures old(Poised(hull.verts, p, q, h0.minXy, k.minXy, true, -1) ==> Bridge(hull.verts, p, q, v0, v1, -1))
  {
    hide PolygonOf, Gridded, DistinctXy, Arc, Settled, Poised, Bridge;
    v0, v1, v00, v10 := Tangents(hull.verts, h0, k, p, q);
    JoinOutlines(hull, v0, v00, v10, v1, p, q);
  }

  ghost predicate SettledBothSides(mid: seq<Vertex>, h0: IntermediateHull, k: IntermediateHull, c0: int, c1: int,
                                   low0: nat, low1: nat)
  {
    && 0 <= h0.maxXy < |mid| && 0 <= h0.minXy < |mid| && 0 <= k.maxXy < |mid| && 0 <= k.minXy < |mid|
    && GridAt(mid, h0.minXy) && GridAt(mid, h0.maxXy) && GridAt(mid, k.minXy) && GridAt(mid, k.maxXy)
    && 0 <= c0 < |mid| && 0 <= c1 < |mid| && low0 < |mid| && low1 < |mid|
    && Settled(mid, h0.maxXy, k.maxXy, c0, c1, false, 1)
    && Settled(mid, h0.minXy, k.minXy, low0, low1, true, -1)
  }

  /** The merged extremes: on equal x the first hull's minimum and the second hull's maximum win. */
  ghost predicate IsMerged(verts: seq<Vertex>, h0: IntermediateHull, k: IntermediateHull, h: IntermediateHull) {
    && 0 <= h0.minXy < |verts| && 0 <= k.minXy < |verts| && 0 <= h0.maxXy < |verts| && 0 <= k.maxXy < |verts|
    && h.minXy == (if verts[k.minXy].point.x < verts[h0.minXy].point.x then k.minXy else h0.minXy)
    && h.maxXy == (if verts[k.maxXy].point.x < verts[h0.maxXy].point.x then h0.maxXy else k.maxXy)
    && h.minYx == h0.minYx && h.maxYx == k.maxYx
  }

  /** Both outlines as the tangent searches find them. */
  lemma AfterDrop(verts: seq<Vertex>, verts': seq<Vertex>, p: seq<nat>, q: seq<nat>, q': seq<nat>, v1: nat)
    requires Outline(verts, p) && Outline(verts, q) && Disjoint(p, q) && |verts'| == |verts| && PolygonOf(verts', q')
    requires q' == q || (v1 in q && q' == After(q, v1))
    requires forall x :: 0 <= x < |verts| ==> SameButPolygon(verts[x], verts'[x])
    requires forall x :: 0 <= x < |verts| && x !in q ==> verts'[x] == verts[x]
    ensures Outline(verts', p) && Outline(verts', q') && Disjoint(p, q')
  {
    if v1 in q {
      AfterMembers(q, v1);
    }
    PolygonFrame(verts, verts', p);
    OutlineKept(verts, verts', p, p);
    OutlineKept(verts, verts', q, q');
  }

  predicate Touch(verts: seq<Vertex>, v0: int, v1: int) {
    0 <= v0 < |verts| && 0 <= v1 < |verts| && SameXy(verts[v0].point, verts[v1].point)
  }

  // ---- what the order of the halves gives --------------------------------

  /** Every vertex of `p` lies strictly before every vertex of `q` in the sort order, as the split guarantees. */
  ghost predicate HalvesOrdered(verts: seq<Vertex>, p: seq<nat>, q: seq<nat>) {
    forall u, v :: u in p && v in q && u < |verts| && v < |verts| ==> Less(verts[u].point, verts[v].point)
  }

  /** Taking the one coincident vertex off keeps all projections of the two hulls together distinct. */
  lemma MergedDistinct(verts: seq<Vertex>, p: seq<nat>, q: seq<nat>, v0: int, v1: int, merged: seq<nat>)
    requires DistinctXy(verts, p) && DistinctXy(verts, q) && Distinct(q) && HalvesOrdered(verts, p, q)
    requires LastBy(verts, p, v0, false) && FirstBy(verts, q, v1, false)
    requires forall x :: x in merged ==> x in p || x in Remaining(verts, q, v0, v1)
    ensures DistinctXy(verts, merged)
    ensures Touch(verts, v0, v1) ==> verts[v0].point.z < verts[v1].point.z
  {
    var q' := Remaining(verts, q, v0, v1);
    AfterMembers(q, v1);
    assert Less(verts[v0].point, verts[v1].point);
    forall a, b | a in p && b in q && a < |verts| && b < |verts| && SameXy(verts[a].point, verts[b].point)
      ensures a == v0 && b == v1
    {
      assert Less(verts[a].point, verts[b].point);
      assert !LessYx(verts[v0].point, verts[a].point) && !LessYx(verts[b].point, verts[v1].point);
      assert SameXy(verts[a].point, verts[v0].point) && SameXy(verts[b].point, verts[v1].point);
    }
    assert Touch(verts, v0, v1) ==> v1 !in q';
  }

  /** The merged extremes are extreme over both outlines together, ties included, because the halves are ordered. */
  lemma MergedExtremes(verts: seq<Vertex>, p: seq<nat>, q: seq<nat>, h0: IntermediateHull, k: IntermediateHull,
                       h: IntermediateHull)
    requires HalvesOrdered(verts, p, q) && IsMerged(verts, h0, k, h)
    requires FirstBy(verts, p, h0.minXy, true) && LastBy(verts, p, h0.maxXy, true) && FirstBy(verts, p, h0.minYx, false)
    requires FirstBy(verts, q, k.minXy, true) && LastBy(verts, q, k.maxXy, true) && LastBy(verts, q, k.maxYx, false)
    ensures FirstBy(verts, p + q, h.minXy, true) && LastBy(verts, p + q, h.maxXy, true)
    ensures FirstBy(verts, p + q, h.minYx, false) && LastBy(verts, p + q, h.maxYx, false)
  {
    assert Less(verts[h0.minXy].point, verts[k.minXy].point) && Less(verts[h0.maxXy].point, verts[k.maxXy].point);
    assert forall u :: u in p && u < |verts| ==> Less(verts[u].point, verts[k.maxYx].point);
    assert forall u :: u in q && u < |verts| ==> Less(verts[h0.minYx].point, verts[u].point);
  }

  // ---- the outlines the recursion starts from ----------------------------

  /** All four extremes are right for the outline. */
  ghost predicate Extremes(verts: seq<Vertex>, cyc: seq<nat>, h: IntermediateHull) {
    && FirstBy(verts, cyc, h.minXy, true) && LastBy(verts, cyc, h.maxXy, true)
    && FirstBy(verts, cyc, h.minYx, false) && LastBy(verts, cyc, h.maxYx, false)
  }

  /** An extreme of more vertices is one of fewer as long as it is among them. */
  lemma StillExtreme(verts: seq<Vertex>, all: seq<nat>, cyc: seq<nat>, v: int, xFirst: bool)
    requires v >= 0 && v in cyc && forall x :: x in cyc ==> x in all
    ensures FirstBy(verts, all, v, xFirst) ==> FirstBy(verts, cyc, v, xFirst)
    ensures LastBy(verts, all, v, xFirst) ==> LastBy(verts, cyc, v, xFirst)
  {
    hide LessXy, LessYx;
  }

  // ---- the merge as a whole ----------------------------------------------

  /** Two partial hulls as the recursion hands them over: convex outlines with right extremes, one half before the other. */
  ghost predicate Mergeable(verts: seq<Vertex>, p: seq<nat>, q: seq<nat>, h0: IntermediateHull, h1: IntermediateHull) {
    && ConvexOutline(verts, p) && ConvexOutline(verts, q) && HalvesOrdered(verts, p, q)
    && Extremes(verts, p, h0) && Extremes(verts, q, h1)
  }

  /** `cyc` is the convex hull of the projections of `all`, and `h` has its extremes: it is convex, made of vertices of
      `all`, none of these lies outside, and the extremes are those of `all`. */
  ghost predicate HullOf(verts: seq<Vertex>, cyc: seq<nat>, all: seq<nat>, h: IntermediateHull) {
    && ConvexOutline(verts, cyc) && Extremes(verts, cyc, h) && Extremes(verts, all, h)
    && (forall x :: x in cyc ==> x in all)
    && (forall x :: x in all ==> Encloses(verts, cyc, x))
  }

  ghost predicate SamePoints(verts: seq<Vertex>, verts': seq<Vertex>) {
    |verts'| == |verts| && forall x :: 0 <= x < |verts| ==> verts'[x].point == verts[x].point
  }

  lemma SameExtremes(verts: seq<Vertex>, verts': seq<Vertex>, cyc: seq<nat>, v: int, xFirst: bool)
    requires SamePoints(verts, verts')
    ensures FirstBy(verts, cyc, v, xFirst) <==> FirstBy(verts', cyc, v, xFirst)
    ensures LastBy(verts, cyc, v, xFirst) <==> LastBy(verts', cyc, v, xFirst)
  {
    hide LessXy, LessYx;
    assert forall u :: 0 <= u < |verts| ==> verts'[u].point == verts[u].point;
  }

  /** Off the second outline goes only the vertex that coincides with the first; then all of it lies above. */
  lemma RemainingAbove(verts: seq<Vertex>, p: seq<nat>, q: seq<nat>, v0: int, v1: int)
    requires There(verts, p) && There(verts, q) && HalvesOrdered(verts, p, q) && Distinct(q)
    requires LastBy(verts, p, v0, false) && FirstBy(verts, q, v1, false)
    requires DistinctXy(verts, p) && DistinctXy(verts, q)
    ensures There(verts, Remaining(verts, q, v0, v1)) && Below(verts, p, Remaining(verts, q, v0, v1))
  {
    AfterMembers(q, v1);
    var q' := Remaining(verts, q, v0, v1);
    forall x, y | x in p && y in q' ensures LessYx(verts[x].point, verts[y].point) {
      assert Less(verts[x].point, verts[y].point);
      if SameXy(verts[x].point, verts[y].point) {
        assert !LessYx(verts[v0].point, verts[x].point) && !LessYx(verts[y].point, verts[v1].point);
        assert Less(verts[v0].point, verts[v1].point);
        assert SameXy(verts[y].point, verts[v1].point) && SameXy(verts[x].point, verts[v0].point);
      }
    }
  }

  /** What the better neighbour of a removed minimum or maximum is: the new one. */
  lemma NextFirst(verts: seq<Vertex>, q: seq<nat>, v1: nat, k: int)
    requires ConvexOutline(verts, q) && v1 in q && FirstBy(verts, q, v1, true)
    requires k >= 0 && k in After(q, v1) && k < |verts| && v1 < |verts|
    requires NoneBefore(verts, v1, k)
    ensures FirstBy(verts, After(q, v1), k, true)
  {
    AfterMembers(q, v1);
    Neighbours(verts, q, v1);
    var (n, m) := (verts[v1].next, verts[v1].prev);
    forall x | x in After(q, v1) && x < |verts| ensures !LessXy(verts[x].point, verts[k].point) {
      if LessXy(verts[x].point, verts[k].point) {
        var h := Opposite(BY_XY);
        LexOpposite(verts, q, v1, x);
        LexOpposite(verts, q, x, n);
        LexOpposite(verts, q, x, m);
        assert !SameXy(verts[v1].point, verts[x].point);
        hide Dot, LessXy;
        LexChain(verts[x].point, verts[k].point, verts[n].point);
        LexChain(verts[x].point, verts[k].point, verts[m].point);
        LexTotal(verts[v1].point, verts[x].point);
        NextHighest(verts, q, v1, x, h);
      }
    }
  }

  lemma NextLast(verts: seq<Vertex>, q: seq<nat>, v1: nat, k: int)
    requires ConvexOutline(verts, q) && v1 in q && LastBy(verts, q, v1, true)
    requires k >= 0 && k in After(q, v1) && k < |verts| && v1 < |verts|
    requires NoneAfter(verts, v1, k)
    ensures LastBy(verts, After(q, v1), k, true)
  {
    AfterMembers(q, v1);
    Neighbours(verts, q, v1);
    var (n, m) := (verts[v1].next, verts[v1].prev);
    forall x | x in After(q, v1) && x < |verts| ensures !LessXy(verts[k].point, verts[x].point) {
      if LessXy(verts[k].point, verts[x].point) {
        LexOpposite(verts, q, x, v1);
        LexOpposite(verts, q, n, x);
        LexOpposite(verts, q, m, x);
        assert !SameXy(verts[v1].point, verts[x].point);
        hide Dot, LessXy;
        LexChain2(verts[n].point, verts[k].point, verts[x].point);
        LexChain2(verts[m].point, verts[k].point, verts[x].point);
        LexTotal(verts[x].point, verts[v1].point);
        NextHighest(verts, q, v1, x, BY_XY);
      }
    }
  }

  lemma LexOpposite(verts: seq<Vertex>, cyc: seq<nat>, u: nat, v: nat)
    requires Outline(verts, cyc) && u in cyc && v in cyc
    ensures u < |verts| && v < |verts|
    ensures LessXy(verts[u].point, verts[v].point) <==> Dot(BY_XY, Spot(verts, v).Minus(Spot(verts, u))) > 0
    ensures LessXy(verts[u].point, verts[v].point) <==> Dot(Opposite(BY_XY), Spot(verts, u).Minus(Spot(verts, v))) > 0
  {
    LexIsLinear(verts[u].point, verts[v].point);
    OppositeDot(BY_XY, Spot(verts, v), Spot(verts, u));
  }

  lemma LexChain(a: Point32, b: Point32, c: Point32)
    requires LessXy(a, b) && !LessXy(c, b)
    ensures LessXy(a, c)
  {}

  lemma LexChain2(a: Point32, b: Point32, c: Point32)
    requires !LessXy(b, a) && LessXy(b, c)
    ensures LessXy(a, c)
  {}

  lemma LexTotal(a: Point32, b: Point32)
    requires !LessXy(b, a) && !SameXy(a, b)
    ensures LessXy(a, b)
  {}

  /** The second hull's extremes after its vertex `v1` has left, as the code passes them on. */
  ghost predicate PassedOn(verts: seq<Vertex>, q: seq<nat>, v1: nat, h1: IntermediateHull, k: IntermediateHull)
    requires v1 in q
  {
    && v1 < |verts| && k.maxYx == h1.maxYx
    && k.minXy >= 0 && k.minXy in After(q, v1) && k.minXy < |verts| && (h1.minXy != v1 ==> k.minXy == h1.minXy)
    && k.maxXy >= 0 && k.maxXy in After(q, v1) && k.maxXy < |verts| && (h1.maxXy != v1 ==> k.maxXy == h1.maxXy)
    && (h1.minXy == v1 ==> NoneBefore(verts, v1, k.minXy))
    && (h1.maxXy == v1 ==> NoneAfter(verts, v1, k.maxXy))
  }

  /** Neither neighbour of `v1` comes before `k`, or after it. */
  predicate NoneBefore(verts: seq<Vertex>, v1: nat, k: nat)
    requires v1 < |verts| && k < |verts|
  {
    && 0 <= verts[v1].next < |verts| && !LessXy(verts[verts[v1].next].point, verts[k].point)
    && 0 <= verts[v1].prev < |verts| && !LessXy(verts[verts[v1].prev].point, verts[k].point)
  }

  predicate NoneAfter(verts: seq<Vertex>, v1: nat, k: nat)
    requires v1 < |verts| && k < |verts|
  {
    && 0 <= verts[v1].next < |verts| && !LessXy(verts[k].point, verts[verts[v1].next].point)
    && 0 <= verts[v1].prev < |verts| && !LessXy(verts[k].point, verts[verts[v1].prev].point)
  }

  lemma RemainingExtremes(verts: seq<Vertex>, q: seq<nat>, v1: nat, h1: IntermediateHull, k: IntermediateHull)
    requires ConvexOutline(verts, q) && Extremes(verts, q, h1) && v1 in q && v1 == h1.minYx && |q| > 1
    requires PassedOn(verts, q, v1, h1, k)
    ensures FirstBy(verts, After(q, v1), k.minXy, true) && LastBy(verts, After(q, v1), k.maxXy, true)
    ensures LastBy(verts, After(q, v1), k.maxYx, false)
  {
    AfterMembers(q, v1);
    if h1.minXy == v1 { NextFirst(verts, q, v1, k.minXy); }
    if h1.maxXy == v1 { NextLast(verts, q, v1, k.maxXy); }
    TopIsNotBottom(verts, q, h1);
  }

  /** On an outline of several vertices the highest is not the lowest. */
  lemma TopIsNotBottom(verts: seq<Vertex>, q: seq<nat>, h1: IntermediateHull)
    requires ConvexOutline(verts, q) && Extremes(verts, q, h1) && |q| > 1
    ensures h1.maxYx != h1.minYx
  {
    var (a, b) := (q[0], q[1]);
    assert a in q && b in q && a != b;
    assert !SameXy(verts[a].point, verts[b].point);
  }

  /** What taking the coincident vertex off leaves of the second hull. */
  ghost predicate Rest(verts: seq<Vertex>, q: seq<nat>, q': seq<nat>, v0: int, h1: IntermediateHull, k: IntermediateHull) {
    && q' == Remaining(verts, q, v0, h1.minYx)
    && if Touch(verts, v0, h1.minYx) then h1.minYx in q && |q| > 1 && PassedOn(verts, q, h1.minYx, h1, k) else k == h1
  }

  lemma RestExtremes(verts: seq<Vertex>, q: seq<nat>, q': seq<nat>, v0: int, h1: IntermediateHull, k: IntermediateHull)
    requires ConvexOutline(verts, q) && Extremes(verts, q, h1) && Rest(verts, q, q', v0, h1, k)
    ensures FirstBy(verts, q', k.minXy, true) && LastBy(verts, q', k.maxXy, true) && LastBy(verts, q', k.maxYx, false)
  {
    hide ConvexOutline, LessXy, LessYx, PassedOn;
    if Touch(verts, v0, h1.minYx) { RemainingExtremes(verts, q, h1.minYx, h1, k); }
  }

  lemma RestConvex(verts: seq<Vertex>, mid: seq<Vertex>, q: seq<nat>, q': seq<nat>, v0: int, h1: IntermediateHull,
                   k: IntermediateHull)
    requires ConvexOutline(verts, q) && Rest(verts, q, q', v0, h1, k) && |mid| == |verts| && Outline(mid, q')
    requires forall x :: 0 <= x < |verts| ==> SameButPolygon(verts[x], mid[x])
    ensures ConvexOutline(mid, q')
  {
    hide ConvexOutline, PassedOn, Outline;
    if Touch(verts, v0, h1.minYx) {
      FewerConvex(verts, mid, q, h1.minYx);
    } else {
      SameConvex(verts, mid, q);
    }
  }

  lemma SameBelow(verts: seq<Vertex>, mid: seq<Vertex>, p: seq<nat>, q: seq<nat>)
    requires SamePoints(verts, mid) && There(verts, p) && There(verts, q) && Below(verts, p, q)
    ensures There(mid, p) && There(mid, q) && Below(mid, p, q)
  {
    hide LessYx;
  }

  lemma MidConvex(verts: seq<Vertex>, mid: seq<Vertex>, p: seq<nat>, q: seq<nat>, q': seq<nat>, h0: IntermediateHull,
                  h1: IntermediateHull, k: IntermediateHull)
    requires Mergeable(verts, p, q, h0, h1) && |mid| == |verts| && Rest(verts, q, q', h0.maxYx, h1, k)
    requires forall x :: 0 <= x < |verts| ==> SameButPolygon(verts[x], mid[x])
    requires Outline(mid, p) && Outline(mid, q')
    ensures ConvexOutline(mid, p) && ConvexOutline(mid, q') && There(mid, p) && There(mid, q') && Below(mid, p, q')
  {
    OutlineParts(verts, p);
    OutlineParts(verts, q);
    hide ConvexOutline, Outline, FirstBy, LastBy, HalvesOrdered, Below, PassedOn, SameButPolygon, PolygonOf, Gridded, DistinctXy;
    SameConvex(verts, mid, p);
    RestConvex(verts, mid, q, q', h0.maxYx, h1, k);
    RemainingAbove(verts, p, q, h0.maxYx, h1.minYx);
    SamePointsToo(verts, mid);
    SameBelow(verts, mid, p, q');
  }

  lemma MidExtremes(verts: seq<Vertex>, mid: seq<Vertex>, p: seq<nat>, q: seq<nat>, q': seq<nat>, h0: IntermediateHull,
                    h1: IntermediateHull, k: IntermediateHull)
    requires Mergeable(verts, p, q, h0, h1) && |mid| == |verts| && Rest(verts, q, q', h0.maxYx, h1, k)
    requires forall x :: 0 <= x < |verts| ==> SameButPolygon(verts[x], mid[x])
    ensures FirstBy(mid, p, h0.minXy, true) && LastBy(mid, p, h0.maxXy, true) && FirstBy(mid, p, h0.minYx, false)
    ensures FirstBy(mid, q', k.minXy, true) && LastBy(mid, q', k.maxXy, true) && LastBy(mid, q', k.maxYx, false)
  {
    hide ConvexOutline, FirstBy, LastBy, HalvesOrdered, PassedOn, SameButPolygon;
    SamePointsToo(verts, mid);
    RestExtremes(verts, q, q', h0.maxYx, h1, k);
    SameExtremes(verts, mid, q', k.minXy, true);
    SameExtremes(verts, mid, q', k.maxXy, true);
    SameExtremes(verts, mid, q', k.maxYx, false);
    SameExtremes(verts, mid, p, h0.minXy, true);
    SameExtremes(verts, mid, p, h0.maxXy, true);
    SameExtremes(verts, mid, p, h0.minYx, false);
  }

  /** Both sides are ready to be searched. */
  lemma MidPoised(mid: seq<Vertex>, p: seq<nat>, q': seq<nat>, h0: IntermediateHull, k: IntermediateHull)
    requires ConvexOutline(mid, p) && ConvexOutline(mid, q') && There(mid, p) && There(mid, q') && Below(mid, p, q')
    requires FirstBy(mid, p, h0.minXy, true) && LastBy(mid, p, h0.maxXy, true)
    requires FirstBy(mid, q', k.minXy, true) && LastBy(mid, q', k.maxXy, true)
    ensures Poised(mid, p, q', h0.maxXy, k.maxXy, false, 1) && Poised(mid, p, q', h0.minXy, k.minXy, true, -1)
  {
    hide ConvexOutline, Below;
    Sideways(mid, p, h0.minXy, h0.maxXy);
    Sideways(mid, q', k.minXy, k.maxXy);
  }

  lemma OutlineParts(verts: seq<Vertex>, cyc: seq<nat>)
    requires ConvexOutline(verts, cyc)
    ensures There(verts, cyc) && Distinct(cyc) && DistinctXy(verts, cyc) && Gridded(verts, cyc) && PolygonOf(verts, cyc)
  {}

  lemma SamePointsToo(verts: seq<Vertex>, mid: seq<Vertex>)
    requires |mid| == |verts| && forall x :: 0 <= x < |verts| ==> SameButPolygon(verts[x], mid[x])
    ensures SamePoints(verts, mid)
  {}

  lemma Sideways(verts: seq<Vertex>, cyc: seq<nat>, low: int, high: int)
    requires There(verts, cyc) && FirstBy(verts, cyc, low, true) && LastBy(verts, cyc, high, true)
    ensures high in cyc && forall x :: x in cyc ==> (verts[x].point.x - verts[high].point.x) * 1 <= 0
    ensures low in cyc && forall x :: x in cyc ==> (verts[x].point.x - verts[low].point.x) * -1 <= 0
  {}

  /** The only first or last vertex of both outlines is a corner of the two together. */
  lemma ExtremeIsCorner(verts: seq<Vertex>, p: seq<nat>, q: seq<nat>, v: nat, xFirst: bool)
    requires Gridded(verts, p) && Gridded(verts, q) && There(verts, p) && There(verts, q) && DistinctXy(verts, p + q) && v in p + q
    ensures v < |verts|
    ensures FirstBy(verts, p + q, v, xFirst) ==> Corner(verts, p, q, v, Opposite(if xFirst then BY_XY else BY_YX))
    ensures LastBy(verts, p + q, v, xFirst) ==> Corner(verts, p, q, v, if xFirst then BY_XY else BY_YX)
  {
    hide LessXy, LessYx;
    var h := if xFirst then BY_XY else BY_YX;
    forall y | (y in p || y in q) && y != v
      ensures FirstBy(verts, p + q, v, xFirst) ==> Dot(Opposite(h), Spot(verts, v).Minus(Spot(verts, y))) > 0
      ensures LastBy(verts, p + q, v, xFirst) ==> Dot(h, Spot(verts, v).Minus(Spot(verts, y))) > 0
    {
      assert y in p + q;
      LexIsLinear(verts[v].point, verts[y].point);
      LexIsLinear(verts[y].point, verts[v].point);
      OppositeDot(h, Spot(verts, y), Spot(verts, v));
      assert !SameXy(verts[v].point, verts[y].point);
      LexTotal2(verts[v].point, verts[y].point);
    }
  }

  lemma LexTotal2(a: Point32, b: Point32)
    requires !SameXy(a, b)
    ensures LessXy(a, b) || LessXy(b, a)
    ensures LessYx(a, b) || LessYx(b, a)
  {}

  lemma BelowOrders(verts: seq<Vertex>, p: seq<nat>, q: seq<nat>)
    requires There(verts, p) && There(verts, q) && Below(verts, p, q) && DistinctXy(verts, p) && DistinctXy(verts, q)
    ensures HalvesOrdered(verts, p, q) && DistinctXy(verts, p + q)
  {}

  /** An extreme of both outlines together is on the merged one, and its extreme. */
  lemma ExtremeStays(verts: seq<Vertex>, p: seq<nat>, q: seq<nat>, low0: nat, c0: nat, c1: nat, low1: nat, v: int, xFirst: bool,
                     first: bool)
    requires Bridges(verts, p, q, low0, c0, c1, low1)
    requires if first then FirstBy(verts, p + q, v, xFirst) else LastBy(verts, p + q, v, xFirst)
    ensures var r := Arc(p, low0, c0) + Arc(q, c1, low1);
            if first then FirstBy(verts, r, v, xFirst) else LastBy(verts, r, v, xFirst)
  {
    hide Arc, Bridge, LessXy, LessYx, Below, DistinctXy, Gridded, PolygonOf, Convex, Dot, Corner;
    OutlineParts(verts, p);
    OutlineParts(verts, q);
    BelowOrders(verts, p, q);
    ExtremeIsCorner(verts, p, q, v, xFirst);
    var h := if xFirst then BY_XY else BY_YX;
    CornersKept(verts, p, q, low0, c0, c1, low1, v, if first then Opposite(h) else h);
    ArcParts(p, low0, c0);
    ArcParts(q, c1, low1);
    StillExtreme(verts, p + q, Arc(p, low0, c0) + Arc(q, c1, low1), v, xFirst);
  }

  lemma MergedOutline(mid: seq<Vertex>, after: seq<Vertex>, p: seq<nat>, q: seq<nat>, merged: seq<nat>)
    requires ConvexOutline(mid, p) && ConvexOutline(mid, q) && Below(mid, p, q) && SamePoints(mid, after)
    requires There(mid, merged) && Convex(Spots(mid, merged)) && PolygonOf(after, merged)
    requires forall x :: x in merged ==> x in p || x in q
    ensures ConvexOutline(after, merged)
  {
    hide PolygonOf, Convex, LessYx;
    BelowOrders(mid, p, q);
    assert There(after, merged);
    assert Spots(after, merged) == Spots(mid, merged);
    assert DistinctXy(after, merged) by {
      assert forall x :: x in merged ==> x in p + q;
    }
  }

  lemma SameEncloses(verts: seq<Vertex>, verts': seq<Vertex>, cyc: seq<nat>, x: nat, y: nat)
    requires SamePoints(verts, verts') && Encloses(verts, cyc, x) && y < |verts| && SameXy(verts[x].point, verts[y].point)
    ensures Encloses(verts', cyc, y)
  {
    forall i | 0 <= i < |cyc| ensures EdgeLeaves(verts', cyc, i, y) {
      assert EdgeLeaves(verts, cyc, i, x);
      assert cyc[i] in cyc && cyc[Succ(i, |cyc|)] in cyc;
    }
  }

  lemma SameMerged(mid: seq<Vertex>, after: seq<Vertex>, h0: IntermediateHull, k: IntermediateHull, h: IntermediateHull)
    requires SamePoints(mid, after) && IsMerged(after, h0, k, h)
    ensures IsMerged(mid, h0, k, h)
  {}

  lemma MergedExtremesStay(mid: seq<Vertex>, p: seq<nat>, q: seq<nat>, low0: nat, c0: nat, c1: nat, low1: nat,
                           h0: IntermediateHull, k: IntermediateHull, h: IntermediateHull)
    requires Bridges(mid, p, q, low0, c0, c1, low1) && IsMerged(mid, h0, k, h)
    requires FirstBy(mid, p, h0.minXy, true) && LastBy(mid, p, h0.maxXy, true) && FirstBy(mid, p, h0.minYx, false)
    requires FirstBy(mid, q, k.minXy, true) && LastBy(mid, q, k.maxXy, true) && LastBy(mid, q, k.maxYx, false)
    ensures Extremes(mid, Arc(p, low0, c0) + Arc(q, c1, low1), h) && Extremes(mid, p + q, h)
  {
    OutlineParts(mid, p);
    OutlineParts(mid, q);
    hide Arc, ConvexOutline, Bridge, Below, DistinctXy, Gridded, PolygonOf, HalvesOrdered, FirstBy, LastBy;
    BelowOrders(mid, p, q);
    MergedExtremes(mid, p, q, h0, k, h);
    ExtremeStays(mid, p, q, low0, c0, c1, low1, h.minXy, true, true);
    ExtremeStays(mid, p, q, low0, c0, c1, low1, h.maxXy, true, false);
    ExtremeStays(mid, p, q, low0, c0, c1, low1, h.minYx, false, true);
    ExtremeStays(mid, p, q, low0, c0, c1, low1, h.maxYx, false, false);
  }

  lemma AllSameExtremes(verts: seq<Vertex>, verts': seq<Vertex>, cyc: seq<nat>, h: IntermediateHull)
    requires SamePoints(verts, verts') && Extremes(verts, cyc, h)
    ensures Extremes(verts', cyc, h)
  {
    hide FirstBy, LastBy, SamePoints;
    SameExtremes(verts, verts', cyc, h.minXy, true);
    SameExtremes(verts, verts', cyc, h.maxXy, true);
    SameExtremes(verts, verts', cyc, h.minYx, false);
    SameExtremes(verts, verts', cyc, h.maxYx, false);
  }

  /** Closed by the two bridges, the arcs are the hull of both outlines. */
  lemma MergedIsHull(mid: seq<Vertex>, after: seq<Vertex>, p: seq<nat>, q: seq<nat>, low0: nat, c0: nat, c1: nat, low1: nat,
                     h0: IntermediateHull, k: IntermediateHull, h: IntermediateHull)
    requires Bridges(mid, p, q, low0, c0, c1, low1) && SamePoints(mid, after)
    requires PolygonOf(after, Arc(p, low0, c0) + Arc(q, c1, low1)) && IsMerged(after, h0, k, h)
    requires FirstBy(mid, p, h0.minXy, true) && LastBy(mid, p, h0.maxXy, true) && FirstBy(mid, p, h0.minYx, false)
    requires FirstBy(mid, q, k.minXy, true) && LastBy(mid, q, k.maxXy, true) && LastBy(mid, q, k.maxYx, false)
    ensures HullOf(after, Arc(p, low0, c0) + Arc(q, c1, low1), p + q, h)
  {
    OutlineParts(mid, p);
    OutlineParts(mid, q);
    ArcParts(p, low0, c0);
    ArcParts(q, c1, low1);
    hide Arc, ConvexOutline, Bridge, Below, DistinctXy, Gridded, PolygonOf, Convex, Encloses, FirstBy, LastBy, IsMerged, Extremes,
         SamePoints;
    var r := Arc(p, low0, c0) + Arc(q, c1, low1);
    MergedConvex(mid, p, q, low0, c0, c1, low1);
    MergedOutline(mid, after, p, q, r);
    SameMerged(mid, after, h0, k, h);
    MergedExtremesStay(mid, p, q, low0, c0, c1, low1, h0, k, h);
    AllSameExtremes(mid, after, r, h);
    AllSameExtremes(mid, after, p + q, h);
    AllEnclosed(mid, after, p, q, low0, c0, c1, low1);
  }

  lemma AllEnclosed(mid: seq<Vertex>, after: seq<Vertex>, p: seq<nat>, q: seq<nat>, low0: nat, c0: nat, c1: nat, low1: nat)
    requires Bridges(mid, p, q, low0, c0, c1, low1) && SamePoints(mid, after)
    ensures forall x :: x in p + q ==> Encloses(after, Arc(p, low0, c0) + Arc(q, c1, low1), x)
  {
    hide Arc, ConvexOutline, Bridge, Below, Encloses, SamePoints;
    var r := Arc(p, low0, c0) + Arc(q, c1, low1);
    forall x | x in p + q ensures Encloses(after, r, x) {
      MergedEncloses(mid, p, q, low0, c0, c1, low1, x);
      OwnXy(mid, r, x);
      SameEncloses(mid, after, r, x, x);
    }
  }

  lemma OwnXy(verts: seq<Vertex>, cyc: seq<nat>, x: nat)
    requires Encloses(verts, cyc, x)
    ensures x < |verts| && SameXy(verts[x].point, verts[x].point)
  {}

  /** The vertex taken off projects onto one of the first hull's. */
  lemma TakenOff(verts: seq<Vertex>, after: seq<Vertex>, p: seq<nat>, q: seq<nat>, q': seq<nat>, h0: IntermediateHull,
                 h1: IntermediateHull, k: IntermediateHull, r: seq<nat>, h: IntermediateHull)
    requires SamePoints(verts, after) && Rest(verts, q, q', h0.maxYx, h1, k) && HullOf(after, r, p + q', h)
    requires Distinct(q) && There(verts, q) && h0.maxYx in p
    ensures HullOf(after, r, p + q, h)
  {
    hide ConvexOutline, Extremes, EdgeLeaves, PassedOn;
    assert h0.maxYx in p + q' && h0.maxYx < |after|;
    if h1.minYx >= 0 && h1.minYx in q { AfterMembers(q, h1.minYx); }
    CoincidentExtremes(after, p + q', p + q, h0.maxYx, h1.minYx, h);
    forall x | x in p + q ensures Encloses(after, r, x) {
      if x !in p + q' {
        assert x == h1.minYx && h0.maxYx in p + q';
        CoincidentEnclosed(after, r, h0.maxYx, x);
      }
    }
  }

  /** A vertex at the spot of another changes no extreme. */
  lemma CoincidentExtremes(verts: seq<Vertex>, all: seq<nat>, more: seq<nat>, x: nat, y: int, h: IntermediateHull)
    requires Extremes(verts, all, h) && x in all && x < |verts| && forall v :: v in all ==> v in more
    requires forall v :: v in more && v < |verts| ==> v in all || (v == y && SameXy(verts[x].point, verts[v].point))
    ensures Extremes(verts, more, h)
  {}

  lemma CoincidentEnclosed(verts: seq<Vertex>, cyc: seq<nat>, x: nat, y: nat)
    requires Encloses(verts, cyc, x) && y < |verts| && SameXy(verts[x].point, verts[y].point)
    ensures Encloses(verts, cyc, y)
  {
    SameEncloses(verts, verts, cyc, x, y);
  }

  /** The merge of two hulls leaves the hull of both. */
  lemma WholeHull(verts: seq<Vertex>, mid: seq<Vertex>, after: seq<Vertex>, p: seq<nat>, q: seq<nat>, q': seq<nat>,
                  h0: IntermediateHull, h1: IntermediateHull, k: IntermediateHull, h: IntermediateHull,
                  low0: nat, c0: nat, c1: nat, low1: nat)
    requires Mergeable(verts, p, q, h0, h1) && Rest(verts, q, q', h0.maxYx, h1, k) && Outline(mid, p) && Outline(mid, q')
    requires |mid| == |verts| == |after|
    requires forall x :: 0 <= x < |verts| ==> SameButPolygon(verts[x], mid[x])
    requires forall x :: 0 <= x < |verts| ==> SameButPolygon(mid[x], after[x])
    requires low0 in p && c0 in p && c1 in q' && low1 in q' && low0 < |mid| && c0 < |mid| && c1 < |mid| && low1 < |mid|
    requires Poised(mid, p, q', h0.maxXy, k.maxXy, false, 1) ==> Bridge(mid, p, q', c0, c1, 1)
    requires Poised(mid, p, q', h0.minXy, k.minXy, true, -1) ==> Bridge(mid, p, q', low0, low1, -1)
    requires PolygonOf(after, Arc(p, low0, c0) + Arc(q', c1, low1)) && IsMerged(after, h0, k, h)
    ensures HullOf(after, Arc(p, low0, c0) + Arc(q', c1, low1), p + q, h)
  {
    OutlineParts(verts, q);
    Named(verts, p, h0);
    hide Arc, ConvexOutline, Bridge, Below, DistinctXy, Gridded, PolygonOf, Convex, HullOf, FirstBy, LastBy, IsMerged, Extremes,
         SamePoints, SameButPolygon, Rest, HalvesOrdered, Poised;
    MidConvex(verts, mid, p, q, q', h0, h1, k);
    MidExtremes(verts, mid, p, q, q', h0, h1, k);
    MidPoised(mid, p, q', h0, k);
    SamePointsToo(mid, after);
    BothSame(verts, mid, after);
    MergedIsHull(mid, after, p, q', low0, c0, c1, low1, h0, k, h);
    TakenOff(verts, after, p, q, q', h0, h1, k, Arc(p, low0, c0) + Arc(q', c1, low1), h);
  }

  lemma Named(verts: seq<Vertex>, p: seq<nat>, h0: IntermediateHull)
    requires Extremes(verts, p, h0)
    ensures h0.maxYx in p
  {}

  lemma BothSame(verts: seq<Vertex>, mid: seq<Vertex>, after: seq<Vertex>)
    requires |mid| == |verts| && SamePoints(mid, after) && forall x :: 0 <= x < |verts| ==> SameButPolygon(verts[x], mid[x])
    ensures SamePoints(verts, after)
  {}

  /** A lone vertex that projects onto the first hull adds nothing to it. */
  lemma LoneHull(verts: seq<Vertex>, p: seq<nat>, q: seq<nat>, h0: IntermediateHull, h1: IntermediateHull)
    requires Mergeable(verts, p, q, h0, h1) && Touch(verts, h0.maxYx, h1.minYx) && |q| == 1
    ensures HullOf(verts, p, p + q, h0)
  {
    Named(verts, p, h0);
    hide Convex, PolygonOf, DistinctXy, FirstBy, LastBy;
    assert q == [q[0]] && h1.minYx == q[0] by { OnlyOne(verts, q, h1); }
    forall x | x in p + q ensures Encloses(verts, p, x) {
      if x in p {
        OwnEnclosed(verts, p, x);
      } else {
        OwnEnclosed(verts, p, h0.maxYx);
        CoincidentEnclosed(verts, p, h0.maxYx, x);
      }
    }
  }

  lemma OnlyOne(verts: seq<Vertex>, q: seq<nat>, h1: IntermediateHull)
    requires Extremes(verts, q, h1) && |q| == 1
    ensures q == [q[0]] && h1.minYx == q[0]
  {}

  lemma OwnEnclosed(verts: seq<Vertex>, cyc: seq<nat>, x: nat)
    requires ConvexOutline(verts, cyc) && x in cyc
    ensures Encloses(verts, cyc, x)
  {
    hide ConvexOutline;
    OutlineParts(verts, cyc);
    forall i | 0 <= i < |cyc| ensures EdgeLeaves(verts, cyc, i, x) {
      EnclosesOwn(verts, cyc, i, x);
    }
  }

  /** Three points that are not in line, in two halves of one and two: all three stay corners. */
  lemma ThreeCorners(verts: seq<Vertex>, cyc: seq<nat>, h: IntermediateHull)
    requires |verts| == 3 && HullOf(verts, cyc, [0] + [1, 2], h)
    requires Spot(verts, 0) == Vec(0, 0) && Spot(verts, 1) == Vec(4, 1) && Spot(verts, 2) == Vec(6, 2)
    ensures 0 in cyc && 1 in cyc && 2 in cyc
  {
    assert 0 in [0] + [1, 2] && 1 in [0] + [1, 2] && 2 in [0] + [1, 2];
    assert h.minXy == 0 && h.maxXy == 2;
    if 1 !in cyc {
      forall x | x in cyc ensures x == 0 || x == 2 { assert x in [0] + [1, 2]; }
      var i := IndexOf(cyc, 0);
      NextOfTwo(cyc, i);
      MissesOne(verts, cyc, i);
    }
  }

  lemma MissesOne(verts: seq<Vertex>, cyc: seq<nat>, i: nat)
    requires |verts| == 3 && There(verts, cyc) && i < |cyc| && cyc[i] == 0 && cyc[Succ(i, |cyc|)] == 2
    requires Spot(verts, 0) == Vec(0, 0) && Spot(verts, 1) == Vec(4, 1) && Spot(verts, 2) == Vec(6, 2)
    ensures !Encloses(verts, cyc, 1)
  {
    assert Turn(verts, 0, 2, 1) == -2;
    assert !EdgeLeaves(verts, cyc, i, 1);
  }

  lemma NextOfTwo(cyc: seq<nat>, i: nat)
    requires Distinct(cyc) && i < |cyc| && cyc[i] == 0 && 2 in cyc && forall x :: x in cyc ==> x == 0 || x == 2
    ensures cyc[Succ(i, |cyc|)] in cyc && cyc[Succ(i, |cyc|)] == 2
  {
    var j := IndexOf(cyc, 2);
    assert i < j || j < i;
    assert cyc[Succ(i, |cyc|)] in cyc;
    assert Succ(i, |cyc|) != i;
  }

  /** Edge heads play no part in an outline. */
  lemma SameLinks(verts: seq<Vertex>, verts': seq<Vertex>, cyc: seq<nat>, h: IntermediateHull)
    requires PolygonOf(verts, cyc) && DistinctXy(verts, cyc) && Extremes(verts, cyc, h) && |verts'| == |verts|
    requires forall x :: 0 <= x < |verts| ==>
               verts'[x].next == verts[x].next && verts'[x].prev == verts[x].prev && verts'[x].point == verts[x].point
    ensures PolygonOf(verts', cyc) && DistinctXy(verts', cyc) && Extremes(verts', cyc, h)
  {
    forall i | 0 <= i < |cyc| ensures NeighboursAt(verts', cyc, i) {
      assert NeighboursAt(verts, cyc, i);
    }
  }

  /** A single vertex is its own outline. */
  method SingleHull(hull: HullInternal, v: nat) returns (result: IntermediateHull)
    requires hull.Valid() && v < |hull.verts| && v < |hull.rings| && hull.rings[v] == []
    modifies hull`verts
    ensures hull.Valid() && |hull.verts| == old(|hull.verts|)
    ensures forall x :: 0 <= x < |hull.verts| ==> SameButPolygon(old(hull.verts[x]), hull.verts[x])
    ensures PolygonOf(hull.verts, [v]) && DistinctXy(hull.verts, [v]) && Extremes(hull.verts, [v], result)
    ensures There(hull.verts, [v]) && Convex(Spots(hull.verts, [v]))
  {
    hull.verts := hull.verts[v := hull.verts[v].(edges := NIL)];
    hull.verts := hull.verts[v := hull.verts[v].(next := v, prev := v)];
    PolygonWritesKeep(old(hull.verts), hull.verts, hull.edges, hull.edgeFree, hull.free, hull.rings, hull.pending);
    result := IntermediateHull(v, v, v, v);
    assert NeighboursAt(hull.verts, [v], 0);
  }

  /** The outline of two vertices in sort order: one of them when they are stacked, else both. */
  method PairOutline(hull: HullInternal, v: nat, w: nat) returns (result: IntermediateHull, ghost outline: seq<nat>)
    requires v < |hull.verts| && w < |hull.verts| && v != w && Less(hull.verts[v].point, hull.verts[w].point)
    modifies hull`verts
    ensures |hull.verts| == old(|hull.verts|)
    ensures forall x :: 0 <= x < |hull.verts| ==> SameButPolygon(old(hull.verts[x]), hull.verts[x])
    ensures outline == if SameXy(hull.verts[v].point, hull.verts[w].point) then [v] else [v, w]
    ensures PolygonOf(hull.verts, outline) && DistinctXy(hull.verts, outline) && Extremes(hull.verts, outline, result)
    ensures There(hull.verts, outline) && Convex(Spots(hull.verts, outline))
  {
    var dx := hull.verts[v].point.x - hull.verts[w].point.x;
    var dy := hull.verts[v].point.y - hull.verts[w].point.y;
    if dx == 0 && dy == 0 {
      hull.verts := hull.verts[v := hull.verts[v].(next := v, prev := v)];
      result := IntermediateHull(v, v, v, v);
      outline := [v];
      assert NeighboursAt(hull.verts, outline, 0);
    } else {
      hull.verts := hull.verts[v := hull.verts[v].(next := w, prev := w)];
      hull.verts := hull.verts[w := hull.verts[w].(next := v, prev := v)];
      result := IntermediateHull(v, w, v, w);
      if !(dx < 0 || (dx == 0 && dy < 0)) {
        result := result.(minXy := w, maxXy := v);
      }
      if !(dy < 0 || (dy == 0 && dx < 0)) {
        result := result.(minYx := w, maxYx := v);
      }
      outline := [v, w];
      assert NeighboursAt(hull.verts, outline, 0) && NeighboursAt(hull.verts, outline, 1);
    }
  }

  /** Two vertices in sort order: their outline, and one edge pair between them either way. */
  method PairHull(hull: HullInternal, v: nat, w: nat) returns (result: IntermediateHull, ghost outline: seq<nat>)
    requires hull.Valid() && v < |hull.verts| && w < |hull.verts| && v != w && |hull.rings| == |hull.verts|
    requires hull.rings[v] == [] && hull.rings[w] == [] && Less(hull.verts[v].point, hull.verts[w].point)
    modifies hull
    ensures hull.Valid() && hull.pending == old(hull.pending) && |hull.verts| == old(|hull.verts|)
    ensures forall x :: 0 <= x < |hull.verts| ==> hull.verts[x].point == old(hull.verts[x].point)
    ensures outline == if SameXy(hull.verts[v].point, hull.verts[w].point) then [v] else [v, w]
    ensures PolygonOf(hull.verts, outline) && DistinctXy(hull.verts, outline) && Extremes(hull.verts, outline, result)
    ensures There(hull.verts, outline) && Convex(Spots(hull.verts, outline))
    ensures |hull.rings| == old(|hull.rings|) && |hull.rings[v]| == 1 && |hull.rings[w]| == 1
    ensures hull.rings == old(hull.rings)[v := hull.rings[v]][w := hull.rings[w]]
    ensures var e, r := hull.rings[v][0], hull.rings[w][0];
            && e < |hull.edges| && r < |hull.edges| && hull.edges[e].reverse == r && hull.edges[r].reverse == e
            && hull.edges[e].target == w && hull.edges[r].target == v
  {
    hide Arena, PolygonOf, DistinctXy, Extremes;
    result, outline := PairOutline(hull, v, w);
    PolygonWritesKeep(old(hull.verts), hull.verts, hull.edges, hull.edgeFree, hull.free, hull.rings, hull.pending);
    ghost var linked := hull.verts;
    var e := hull.BridgeLoneVertices(v, w);
    SameLinks(linked, hull.verts, outline, result);
  }
}
