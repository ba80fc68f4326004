/**
 Magnitudes of the integer arithmetic of a merge
 (crates/cspace-bullet/src/convex_hull_computer.rs:559-665, 1211-1288, 1517-1693, 1839-1914, 2084-2125).

 The grid has 10216 steps along each axis, so coordinates lie in [-5108, 5108]. The point from which a merge measures
 its first turn is a grid point nudged by one step.
 */
module HullBounds {

  const GRID := 5108
  const P57 := 0x200_0000_0000_0000

  predicate Within(n: int, m: int) { -m <= n <= m }

  predicate FitsI32(n: int) { -0x8000_0000 <= n < 0x8000_0000 }

  function Mul(a: int, b: int): int { a * b }

  lemma Monotone(k: int, a: int, b: int)
    requires 0 <= k && a <= b
    ensures k * a <= k * b
  {}

  lemma ProductWithin(a: int, b: int, m: int, n: int)
    requires Within(a, m) && Within(b, n)
    ensures Within(Mul(a, b), Mul(m, n))
  {
    var x := if a < 0 then -a else a;
    Monotone(x, b, n);
    Monotone(x, -n, b);
    Monotone(n, x, m);
    assert n * m == m * n && n * x == x * n && x * -n == -(x * n);
    assert a * b == x * b || a * b == -(x * b);
  }

  // ---- vectors -----------------------------------------------------------

  datatype Vector = Vector(x: int, y: int, z: int) {
    function Minus(v: Vector): Vector { Vector(x - v.x, y - v.y, z - v.z) }

    function Cross(v: Vector): Vector {
      Vector(Mul(y, v.z) - Mul(z, v.y), Mul(z, v.x) - Mul(x, v.z), Mul(x, v.y) - Mul(y, v.x))
    }

    function Dot(v: Vector): int { Mul(x, v.x) + Mul(y, v.y) + Mul(z, v.z) }

    predicate In(m: int) { Within(x, m) && Within(y, m) && Within(z, m) }
  }

  /** Every product in `u.Cross(v)` and `u.Dot(v)` lies within `b`. */
  predicate ProductsWithin(u: Vector, v: Vector, b: int) {
    && Within(Mul(u.x, v.x), b) && Within(Mul(u.x, v.y), b) && Within(Mul(u.x, v.z), b)
    && Within(Mul(u.y, v.x), b) && Within(Mul(u.y, v.y), b) && Within(Mul(u.y, v.z), b)
    && Within(Mul(u.z, v.x), b) && Within(Mul(u.z, v.y), b) && Within(Mul(u.z, v.z), b)
  }

  /** Products, differences and partial sums of cross and dot products. */
  lemma VectorsIn(u: Vector, v: Vector, m: int, n: int)
    requires u.In(m) && v.In(n)
    ensures ProductsWithin(u, v, Mul(m, n))
    ensures u.Minus(v).In(m + n)
    ensures u.Cross(v).In(2 * Mul(m, n))
    ensures Within(Mul(u.x, v.x) + Mul(u.y, v.y), 2 * Mul(m, n)) && Within(u.Dot(v), 3 * Mul(m, n))
  {
    hide Mul;
    ProductWithin(u.x, v.x, m, n);
    ProductWithin(u.x, v.y, m, n);
    ProductWithin(u.x, v.z, m, n);
    ProductWithin(u.y, v.x, m, n);
    ProductWithin(u.y, v.y, m, n);
    ProductWithin(u.y, v.z, m, n);
    ProductWithin(u.z, v.x, m, n);
    ProductWithin(u.z, v.y, m, n);
    ProductWithin(u.z, v.z, m, n);
  }

  const SPAN := 2 * GRID
  const AREA := 2 * (SPAN * SPAN)
  const NUDGED := 2 * ((SPAN + 1) * SPAN)

  /** The magnitudes that occur. */
  lemma Magnitudes()
    ensures 2 * Mul(SPAN, SPAN) == AREA && 2 * Mul(SPAN + 1, SPAN) == NUDGED
    ensures 2 * Mul(SPAN, NUDGED) == 2 * (SPAN * NUDGED) && 2 * Mul(SPAN, AREA) == 2 * (SPAN * AREA)
    ensures 3 * Mul(AREA, AREA) < P57 && 3 * Mul(SPAN, SPAN) < P57 && 3 * Mul(SPAN + 1, SPAN) < P57
    ensures 3 * Mul(SPAN, NUDGED) < P57 && 3 * Mul(SPAN, AREA) < P57 && 3 * Mul(GRID, AREA) < P57
    ensures 3 * Mul(SPAN, 2 * (SPAN * NUDGED)) < P57 && 3 * Mul(SPAN, 2 * (SPAN * AREA)) < P57
    ensures 6 * Mul(GRID, 2 * (SPAN * AREA)) < P57
    ensures 0 <= Mul(SPAN, SPAN) && 0 <= Mul(SPAN + 1, SPAN) && 0 <= Mul(SPAN, NUDGED) && 0 <= Mul(SPAN, AREA)
    ensures 0 <= Mul(AREA, AREA) && 0 <= Mul(GRID, 2 * (SPAN * AREA)) && 0 <= Mul(GRID, AREA)
    ensures 0 <= Mul(SPAN, 2 * (SPAN * NUDGED)) && 0 <= Mul(SPAN, 2 * (SPAN * AREA))
  {}

  lemma Wider(u: Vector, v: Vector, b: int, c: int)
    requires ProductsWithin(u, v, b) && b <= c
    ensures ProductsWithin(u, v, c)
  {
    hide Mul;
  }

  /** Products, partial sum and sum of a dot product all lie within `b`. */
  predicate DotWithin(u: Vector, v: Vector, b: int) {
    ProductsWithin(u, v, b) && Within(Mul(u.x, v.x) + Mul(u.y, v.y), b) && Within(u.Dot(v), b)
  }

  /** Products and differences of a cross product all lie within `b`. */
  predicate CrossWithin(u: Vector, v: Vector, b: int) {
    ProductsWithin(u, v, b) && u.Cross(v).In(b)
  }

  lemma DotIn(u: Vector, v: Vector, m: int, n: int)
    requires u.In(m) && v.In(n) && 0 <= Mul(m, n) && 3 * Mul(m, n) < P57
    ensures DotWithin(u, v, P57 - 1)
  {
    hide Mul, Vector.Dot, Vector.Cross, ProductsWithin;
    VectorsIn(u, v, m, n);
    Wider(u, v, Mul(m, n), P57 - 1);
  }

  lemma CrossIn(u: Vector, v: Vector, m: int, n: int)
    requires u.In(m) && v.In(n) && 0 <= Mul(m, n) && 3 * Mul(m, n) < P57
    ensures CrossWithin(u, v, P57 - 1) && u.Cross(v).In(2 * Mul(m, n))
  {
    hide Mul, Vector.Dot, Vector.Cross, ProductsWithin;
    VectorsIn(u, v, m, n);
    Wider(u, v, Mul(m, n), P57 - 1);
  }

  lemma DifferenceIn(u: Vector, v: Vector, m: int, n: int)
    requires u.In(m) && v.In(n)
    ensures u.Minus(v).In(m + n)
  {}

  // ---- the four routines -------------------------------------------------

  /** `get_orientation`: the triple product that breaks the tie on a two-edge ring. */
  lemma OrientationFits(prev: Vector, next: Vector, origin: Vector, s: Vector, t: Vector)
    requires prev.In(GRID) && next.In(GRID) && origin.In(GRID) && s.In(SPAN) && t.In(SPAN)
    ensures var a, b := prev.Minus(origin), next.Minus(origin);
            var n, m := t.Cross(s), a.Cross(b);
            && CrossWithin(t, s, P57 - 1) && a.In(SPAN) && b.In(SPAN) && CrossWithin(a, b, P57 - 1)
            && n.In(AREA) && m.In(AREA) && DotWithin(n, m, P57 - 1)
  {
    hide Mul, Vector.Minus, Vector.Cross, Vector.Dot, Vector.In, CrossWithin, DotWithin;
    Magnitudes();
    DifferenceIn(prev, origin, GRID, GRID);
    DifferenceIn(next, origin, GRID, GRID);
    CrossIn(t, s, SPAN, SPAN);
    CrossIn(prev.Minus(origin), next.Minus(origin), SPAN, SPAN);
    DotIn(t.Cross(s), prev.Minus(origin).Cross(next.Minus(origin)), AREA, AREA);
  }

  /** `merge`, before its loop: the vertical plane through the bridge, and the edges at its ends measured against it. */
  lemma SetUpFits(c0: Vector, c1: Vector, start: Vector, target: Vector)
    requires c0.In(GRID) && c1.In(GRID) && start.In(GRID) && target.In(GRID)
    ensures var s, d, down := c1.Minus(c0), target.Minus(start), Vector(0, 0, -1);
            var normal := down.Cross(s);
            var t := s.Cross(normal);
            && s.In(SPAN) && d.In(SPAN) && down.In(SPAN)
            && CrossWithin(down, s, P57 - 1) && normal.In(2 * SPAN)
            && CrossWithin(s, normal, P57 - 1) && t.In(2 * (SPAN * (2 * SPAN)))
            && DotWithin(d, normal, P57 - 1) && DotWithin(d, t, P57 - 1)
  {
    hide Vector.Minus, Vector.Cross, Vector.Dot, CrossWithin, DotWithin;
    var s, d, down := c1.Minus(c0), target.Minus(start), Vector(0, 0, -1);
    DifferenceIn(c1, c0, GRID, GRID);
    DifferenceIn(target, start, GRID, GRID);
    CrossIn(down, s, 1, SPAN);
    CrossIn(s, down.Cross(s), SPAN, 2 * SPAN);
    DotIn(d, down.Cross(s), SPAN, 2 * SPAN);
    DotIn(d, s.Cross(down.Cross(s)), SPAN, 2 * (SPAN * (2 * SPAN)));
  }

  /** `find_max_angle`, the vectors set up once per turn included: `from` is the possibly nudged previous point. */
  lemma AngleFits(c0: Vector, c1: Vector, from: Vector, start: Vector, target: Vector)
    requires c0.In(GRID) && c1.In(GRID) && from.In(GRID + 1) && start.In(GRID) && target.In(GRID)
    ensures var s, r, t := c1.Minus(c0), from.Minus(c0), target.Minus(start);
            var rxs := r.Cross(s);
            var sxrxs := s.Cross(rxs);
            && s.In(SPAN) && t.In(SPAN) && r.In(SPAN + 1)
            && CrossWithin(r, s, P57 - 1) && rxs.In(NUDGED)
            && CrossWithin(s, rxs, P57 - 1) && sxrxs.In(2 * (SPAN * NUDGED))
            && DotWithin(t, sxrxs, P57 - 1) && DotWithin(t, rxs, P57 - 1)
  {
    hide Mul, Vector.Minus, Vector.Cross, Vector.Dot, Vector.In, CrossWithin, DotWithin;
    Magnitudes();
    var s, r, t := c1.Minus(c0), from.Minus(c0), target.Minus(start);
    var rxs := r.Cross(s);
    DifferenceIn(c1, c0, GRID, GRID);
    DifferenceIn(from, c0, GRID + 1, GRID);
    DifferenceIn(target, start, GRID, GRID);
    CrossIn(r, s, SPAN + 1, SPAN);
    CrossIn(s, rxs, SPAN, NUDGED);
    DotIn(t, s.Cross(rxs), SPAN, 2 * (SPAN * NUDGED));
    DotIn(t, rxs, SPAN, NUDGED);
  }

  /** `find_edge_for_coplanar_faces`: `e` and `f` are any two vertices it looks at. */
  lemma CoplanarFits(c0: Vector, c1: Vector, seed: Vector, e: Vector, f: Vector)
    requires c0.In(GRID) && c1.In(GRID) && seed.In(GRID) && e.In(GRID) && f.In(GRID)
    ensures var s, d, q := c1.Minus(c0), f.Minus(e), seed.Minus(c0);
            var normal := q.Cross(s);
            var perp := s.Cross(normal);
            && s.In(SPAN) && d.In(SPAN) && q.In(SPAN)
            && CrossWithin(q, s, P57 - 1) && normal.In(AREA)
            && CrossWithin(s, normal, P57 - 1) && perp.In(2 * (SPAN * AREA))
            && DotWithin(c0, normal, P57 - 1) && DotWithin(e, normal, P57 - 1) && DotWithin(d, normal, P57 - 1)
            && DotWithin(e, perp, P57 - 1) && DotWithin(f, perp, P57 - 1) && DotWithin(d, perp, P57 - 1)
            && Within(f.Dot(perp) - e.Dot(perp), P57 - 1) && DotWithin(d, s, P57 - 1)
  {
    hide Mul, Vector.Minus, Vector.Cross, Vector.Dot, Vector.In, CrossWithin, DotWithin, ProductsWithin;
    Magnitudes();
    var s, d, q := c1.Minus(c0), f.Minus(e), seed.Minus(c0);
    var normal := q.Cross(s);
    var perp := s.Cross(normal);
    DifferenceIn(c1, c0, GRID, GRID);
    DifferenceIn(f, e, GRID, GRID);
    DifferenceIn(seed, c0, GRID, GRID);
    CrossIn(q, s, SPAN, SPAN);
    CrossIn(s, normal, SPAN, AREA);
    DotIn(c0, normal, GRID, AREA);
    DotIn(e, normal, GRID, AREA);
    DotIn(d, normal, SPAN, AREA);
    DotIn(e, perp, GRID, 2 * (SPAN * AREA));
    DotIn(f, perp, GRID, 2 * (SPAN * AREA));
    DotIn(d, perp, SPAN, 2 * (SPAN * AREA));
    DotIn(d, s, SPAN, SPAN);
    VectorsIn(e, perp, GRID, 2 * (SPAN * AREA));
    VectorsIn(f, perp, GRID, 2 * (SPAN * AREA));
  }
}
