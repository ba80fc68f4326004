/**
 Identities of integer vectors (the arithmetic of crates/cspace-bullet/src/convex_hull_computer.rs:559-665).
 */
module VectorLaws {
  import opened HullBounds

  function Plus(u: Vector, v: Vector): Vector { Vector(u.x + v.x, u.y + v.y, u.z + v.z) }

  function Scaled(u: Vector, k: int): Vector { Vector(u.x * k, u.y * k, u.z * k) }

  const ORIGIN := Vector(0, 0, 0)

  lemma TwoTerms(d: int, r: int, m: int, q: int, n: int)
    ensures d * (r * m - q * n) == d * r * m - d * q * n
  {
    assert d * (r * m) == d * r * m && d * (q * n) == d * q * n;
    assert d * (r * m - q * n) == d * (r * m) - d * (q * n);
  }

  lemma TripleTerm(a: int, b: int, c: int, d: int, e: int)
    ensures Mul(a, Mul(b, c) - Mul(d, e)) == a * b * c - a * d * e
  {
    TwoTerms(a, b, c, d, e);
  }

  /** The triple product may be turned round. */
  lemma TripleTurns(a: Vector, b: Vector, c: Vector)
    ensures a.Dot(b.Cross(c)) == b.Dot(c.Cross(a))
  {
    TripleTerm(a.x, b.y, c.z, b.z, c.y);
    TripleTerm(a.y, b.z, c.x, b.x, c.z);
    TripleTerm(a.z, b.x, c.y, b.y, c.x);
    TripleTerm(b.x, c.y, a.z, c.z, a.y);
    TripleTerm(b.y, c.z, a.x, c.x, a.z);
    TripleTerm(b.z, c.x, a.y, c.y, a.x);
  }

  /** Both directions of a face lie in its plane. */
  lemma InPlane(u: Vector, v: Vector)
    ensures u.Dot(u.Cross(v)) == 0 && v.Dot(u.Cross(v)) == 0
  {
    Triple(u.x, u.y, u.z, v.x, v.y, v.z);
    Triple(v.x, v.y, v.z, u.x, u.y, u.z);
  }

  lemma Triple(a: int, b: int, c: int, x: int, y: int, z: int)
    ensures a * (b * z - c * y) + b * (c * x - a * z) + c * (a * y - b * x) == 0
  {
    assert a * (b * z - c * y) == a * b * z - a * c * y;
    assert b * (c * x - a * z) == b * c * x - a * b * z;
    assert c * (a * y - b * x) == a * c * y - b * c * x;
  }

  /** A vector crossed with a cross product. */
  lemma CrossTwice(a: Vector, p: Vector, q: Vector)
    ensures Plus(a.Cross(p.Cross(q)), Scaled(q, a.Dot(p))) == Scaled(p, a.Dot(q))
  {
    CrossTwiceAt(a.x, a.y, a.z, p.x, p.y, p.z, q.x, q.y, q.z);
    CrossTwiceAt(a.y, a.z, a.x, p.y, p.z, p.x, q.y, q.z, q.x);
    CrossTwiceAt(a.z, a.x, a.y, p.z, p.x, p.y, q.z, q.x, q.y);
  }

  lemma CrossTwiceAt(a: int, b: int, c: int, p: int, q: int, r: int, x: int, y: int, z: int)
    ensures b * (p * y - q * x) - c * (r * x - p * z) + x * (a * p + b * q + c * r) == p * (a * x + b * y + c * z)
  {}

  lemma DotPlus(n: Vector, u: Vector, v: Vector)
    ensures n.Dot(Plus(u, v)) == n.Dot(u) + n.Dot(v)
  {}

  lemma DotScaled(n: Vector, u: Vector, k: int)
    ensures n.Dot(Scaled(u, k)) == n.Dot(u) * k
  {
    assert n.x * (u.x * k) == (n.x * u.x) * k && n.y * (u.y * k) == (n.y * u.y) * k && n.z * (u.z * k) == (n.z * u.z) * k;
    assert (n.x * u.x + n.y * u.y + n.z * u.z) * k == (n.x * u.x) * k + (n.y * u.y) * k + (n.z * u.z) * k;
  }

  lemma DotTurns(u: Vector, v: Vector)
    ensures u.Dot(v) == v.Dot(u)
  {}

  lemma DotNothing(u: Vector)
    ensures u.Dot(ORIGIN) == 0
    ensures u.Cross(ORIGIN) == ORIGIN && ORIGIN.Cross(u) == ORIGIN
  {}

  lemma SquareZero(u: Vector)
    requires u.Dot(u) == 0
    ensures u == ORIGIN
  {}

  lemma ScaledZero(u: Vector, k: int)
    requires Scaled(u, k) == ORIGIN && k != 0
    ensures u == ORIGIN
  {}

  /** The product of two planes' worth of projections: the tie and the volume it stands for. */
  lemma TiedVolume(u: Vector, v: Vector, a: Vector, b: Vector)
    ensures a.Cross(b).Dot(u.Cross(v)) == u.Dot(a) * v.Dot(b) - u.Dot(b) * v.Dot(a)
  {
    hide Vector.Dot, Vector.Cross, Plus, Scaled;
    var w := a.Cross(b);
    TripleTurns(u, v, w);
    TripleTurns(v, w, u);
    CrossTwice(v, a, b);
    DotPlus(u, v.Cross(w), Scaled(b, v.Dot(a)));
    DotScaled(u, b, v.Dot(a));
    DotScaled(u, a, v.Dot(b));
  }

  /** A vector that is both along and across another, which is not nothing, is nothing. */
  lemma AlongAndAcross(w: Vector, n: Vector)
    requires w.Cross(n) == ORIGIN && n.Dot(w) == 0 && n != ORIGIN
    ensures w == ORIGIN
  {
    hide Vector.Cross, Vector.Dot;
    CrossTwice(n, w, n);
    DotNothing(n);
    if n.Dot(n) == 0 {
      SquareZero(n);
    } else {
      assert Scaled(w, n.Dot(n)) == ORIGIN;
      ScaledZero(w, n.Dot(n));
    }
  }
}
