/**
 The vertex where a shifted face meets two of its neighbours
 (crates/cspace-bullet/src/convex_hull_computer.rs:480-506, 739-750, 2375-2384, 2510-2553).

 The solve keeps the determinant as a denominator and everything else as 128-bit patterns, whose wraps cancel. What is
 formed in 64 bits before it is widened, a direction times a right-hand side, does not cancel when it wraps: the model
 takes it as a build without overflow checks does (one with them stops), and counts the wraps.
 */
module ShiftFace {
  import opened Int128
  import opened Rationals
  import opened HullBounds
  import opened VectorLaws

  /** A point with 128-bit numerators over one denominator. */
  datatype PointR128 = PointR128(x: U128, y: U128, z: U128, denominator: U128)

  /** A face: a point on it, two directions in it. */
  datatype Face = Face(origin: Vector, dir0: Vector, dir1: Vector) {
    function Normal(): Vector { dir0.Cross(dir1) }
  }

  // ---- the solve as the code does it -------------------------------------

  /** The 2x2 system: both in-plane directions against both neighbour normals, and the two right-hand sides. */
  datatype System = System(m00: int, m01: int, m10: int, m11: int, r0: int, r1: int) {
    function Det(): int { m00 * m11 - m01 * m10 }
  }

  function SystemOf(face: Face, shifted: Vector, f0: Face, f1: Face): System {
    var n0, n1 := f0.Normal(), f1.Normal();
    System(face.dir0.Dot(n0), face.dir1.Dot(n0), face.dir0.Dot(n1), face.dir1.Dot(n1),
           f0.origin.Minus(shifted).Dot(n0), f1.origin.Minus(shifted).Dot(n1))
  }

  /** A direction times a right-hand side, in 64 bits. */
  function Times64(d: int, r: int): I64 { WrapI64(d * r) }

  /** One coordinate, in the order the code adds it up. */
  function Coordinate(s: System, det: U128, d0: int, d1: int, origin: int): U128 {
    Add(Sub(Add(Sub(MulI64(Times64(d0, s.r0), s.m11), MulI64(Times64(d0, s.r1), s.m01)), MulI64(Times64(d1, s.r1), s.m00)),
            MulI64(Times64(d1, s.r0), s.m10)),
        MulByI64(det, origin))
  }

  function SolveVertex(face: Face, shifted: Vector, f0: Face, f1: Face): PointR128 {
    var s := SystemOf(face, shifted, f0, f1);
    var det := Sub(MulI64(s.m00, s.m11), MulI64(s.m01, s.m10));
    PointR128(Coordinate(s, det, face.dir0.x, face.dir1.x, shifted.x),
              Coordinate(s, det, face.dir0.y, face.dir1.y, shifted.y),
              Coordinate(s, det, face.dir0.z, face.dir1.z, shifted.z),
              det)
  }

  /** `Vertex::dot` of a synthesised vertex. */
  function VertexDot(p: PointR128, b: Vector): Rational128 { FromRatio(DotNumerator(p, b), p.denominator) }

  function DotNumerator(p: PointR128, b: Vector): U128 {
    Add(Add(MulByI64(p.x, b.x), MulByI64(p.y, b.y)), MulByI64(p.z, b.z))
  }

  // ---- the solve over the integers ---------------------------------------

  /** The same point without wrapping: `det` times the true solution. */
  function Exact(s: System, face: Face, shifted: Vector): Vector {
    Plus(Plus(Scaled(face.dir0, s.r0 * s.m11 - s.r1 * s.m01), Scaled(face.dir1, s.r1 * s.m00 - s.r0 * s.m10)),
         Scaled(shifted, s.Det()))
  }

  predicate FitsI64(x: int) { -P63 <= x < P63 }

  /** How often a product wraps round 64 bits. */
  function Wraps(x: int): (w: int)
    ensures x == WrapI64(x) + P64 * w
    ensures w == 0 <==> FitsI64(x)
  {
    WrapsEvenly(x);
    (x - WrapI64(x)) / P64
  }

  lemma WrapsEvenly(x: int)
    ensures (x - WrapI64(x)) % P64 == 0
    ensures (x - WrapI64(x)) / P64 == 0 <==> FitsI64(x)
  {}

  /** What the wraps of one coordinate leave out, in units of 2^64. */
  function Slip(s: System, d0: int, d1: int): int {
    Wraps(d0 * s.r0) * s.m11 - Wraps(d0 * s.r1) * s.m01 + Wraps(d1 * s.r1) * s.m00 - Wraps(d1 * s.r0) * s.m10
  }

  function SlipOf(s: System, face: Face): Vector {
    Vector(Slip(s, face.dir0.x, face.dir1.x), Slip(s, face.dir0.y, face.dir1.y), Slip(s, face.dir0.z, face.dir1.z))
  }

  /** The exact point less what the wraps leave out. */
  function Slipped(e: Vector, slip: Vector): Vector { e.Minus(Scaled(slip, P64)) }

  lemma TermSlips(d: int, r: int, m: int)
    ensures Times64(d, r) * m == d * r * m - P64 * (Wraps(d * r) * m)
  {
    var (x, w) := (d * r, Wraps(d * r));
    assert x * m == (WrapI64(x) + P64 * w) * m == WrapI64(x) * m + P64 * (w * m);
  }

  lemma CoordinateExact(s: System, d0: int, d1: int, origin: int)
    ensures Coordinate(s, Pattern(s.Det()), d0, d1, origin)
         == Pattern(d0 * (s.r0 * s.m11 - s.r1 * s.m01) + d1 * (s.r1 * s.m00 - s.r0 * s.m10) + origin * s.Det()
                    - P64 * Slip(s, d0, d1))
  {
    var a, b := Times64(d0, s.r0) * s.m11, Times64(d0, s.r1) * s.m01;
    var c, d := Times64(d1, s.r1) * s.m00, Times64(d1, s.r0) * s.m10;
    hide Pattern, Add, Sub, MulByI64, Times64, Wraps;
    SubPattern(a, b);
    AddPattern(a - b, c);
    SubPattern(a - b + c, d);
    MulByPattern(s.Det(), origin);
    AddPattern(a - b + c - d, s.Det() * origin);
    TermSlips(d0, s.r0, s.m11);
    TermSlips(d0, s.r1, s.m01);
    TermSlips(d1, s.r1, s.m00);
    TermSlips(d1, s.r0, s.m10);
    TwoTerms(d0, s.r0, s.m11, s.r1, s.m01);
    TwoTerms(d1, s.r1, s.m00, s.r0, s.m10);
    assert s.Det() * origin == origin * s.Det();
  }

  /** The coordinates are the patterns of the exact point, less 2^64 times what the 64-bit products wrapped. */
  lemma SolveExact(face: Face, shifted: Vector, f0: Face, f1: Face)
    ensures var s := SystemOf(face, shifted, f0, f1);
            var e := Slipped(Exact(s, face, shifted), SlipOf(s, face));
            SolveVertex(face, shifted, f0, f1) == PointR128(Pattern(e.x), Pattern(e.y), Pattern(e.z), Pattern(s.Det()))
  {
    hide Pattern, Add, Sub, MulByI64, Coordinate, Slip;
    var s := SystemOf(face, shifted, f0, f1);
    SubPattern(s.m00 * s.m11, s.m01 * s.m10);
    CoordinateExact(s, face.dir0.x, face.dir1.x, shifted.x);
    CoordinateExact(s, face.dir0.y, face.dir1.y, shifted.y);
    CoordinateExact(s, face.dir0.z, face.dir1.z, shifted.z);
  }

  lemma DotNumeratorExact(e: Vector, d: U128, b: Vector)
    ensures DotNumerator(PointR128(Pattern(e.x), Pattern(e.y), Pattern(e.z), d), b) == Pattern(e.Dot(b))
  {
    hide Pattern, Add, MulByI64;
    MulByPattern(e.x, b.x);
    MulByPattern(e.y, b.y);
    MulByPattern(e.z, b.z);
    AddPattern(e.x * b.x, e.y * b.y);
    AddPattern(e.x * b.x + e.y * b.y, e.z * b.z);
  }

  // ---- the three planes --------------------------------------------------

  lemma DotLinear(u: Vector, v: Vector, w: Vector, a: int, b: int, c: int, n: Vector)
    ensures Plus(Plus(Scaled(u, a), Scaled(v, b)), Scaled(w, c)).Dot(n) == u.Dot(n) * a + v.Dot(n) * b + w.Dot(n) * c
  {
    LinearTerm(u.x, v.x, w.x, a, b, c, n.x);
    LinearTerm(u.y, v.y, w.y, a, b, c, n.y);
    LinearTerm(u.z, v.z, w.z, a, b, c, n.z);
    DotScales(u, n, a);
    DotScales(v, n, b);
    DotScales(w, n, c);
  }

  lemma LinearTerm(u: int, v: int, w: int, a: int, b: int, c: int, n: int)
    ensures Mul(u * a + v * b + w * c, n) == u * n * a + v * n * b + w * n * c
  {
    assert (u * a + v * b + w * c) * n == (u * a) * n + (v * b) * n + (w * c) * n;
    assert (u * a) * n == u * n * a && (v * b) * n == v * n * b && (w * c) * n == w * n * c;
  }

  lemma DotScales(u: Vector, n: Vector, a: int)
    ensures u.Dot(n) * a == u.x * n.x * a + u.y * n.y * a + u.z * n.z * a
  {
    assert (u.x * n.x + u.y * n.y + u.z * n.z) * a == (u.x * n.x) * a + (u.y * n.y) * a + (u.z * n.z) * a;
  }

  /** Cramer's rule for the two unknown multiples. */
  lemma Cramer(s: System)
    ensures s.m00 * (s.r0 * s.m11 - s.r1 * s.m01) + s.m01 * (s.r1 * s.m00 - s.r0 * s.m10) == s.r0 * s.Det()
    ensures s.m10 * (s.r0 * s.m11 - s.r1 * s.m01) + s.m11 * (s.r1 * s.m00 - s.r0 * s.m10) == s.r1 * s.Det()
  {
    var (a, b, c, d, p, q) := (s.m00, s.m01, s.m10, s.m11, s.r0, s.r1);
    Expand2(a, p, d, q, b);
    Expand2(b, q, a, p, c);
    Expand2(c, p, d, q, b);
    Expand2(d, q, a, p, c);
    Expand2(p, a, d, b, c);
    Expand2(q, a, d, b, c);
  }

  lemma Expand2(k: int, a: int, b: int, c: int, d: int)
    ensures k * (a * b - c * d) == k * a * b - k * c * d
  {
    TwoTerms(k, a, b, c, d);
  }

  /** Over the integers the vertex lies on all three planes: `det` times each plane's distance. */
  lemma OnThreePlanes(face: Face, shifted: Vector, f0: Face, f1: Face)
    ensures var s := SystemOf(face, shifted, f0, f1);
            var e := Exact(s, face, shifted);
            && e.Dot(face.Normal()) == s.Det() * shifted.Dot(face.Normal())
            && e.Dot(f0.Normal()) == s.Det() * f0.origin.Dot(f0.Normal())
            && e.Dot(f1.Normal()) == s.Det() * f1.origin.Dot(f1.Normal())
  {
    hide Mul, Vector.Dot, Vector.Cross, Plus, Scaled;
    var s := SystemOf(face, shifted, f0, f1);
    var a, b, d := s.r0 * s.m11 - s.r1 * s.m01, s.r1 * s.m00 - s.r0 * s.m10, s.Det();
    var n, n0, n1 := face.Normal(), f0.Normal(), f1.Normal();
    InPlane(face.dir0, face.dir1);
    DotLinear(face.dir0, face.dir1, shifted, a, b, d, n);
    DotLinear(face.dir0, face.dir1, shifted, a, b, d, n0);
    DotLinear(face.dir0, face.dir1, shifted, a, b, d, n1);
    Cramer(s);
    Offset(f0.origin, shifted, n0, d);
    Offset(f1.origin, shifted, n1, d);
  }

  lemma Offset(o: Vector, shifted: Vector, n: Vector, d: int)
    ensures o.Minus(shifted).Dot(n) * d + shifted.Dot(n) * d == d * o.Dot(n)
  {
    Difference(o.x, shifted.x, n.x);
    Difference(o.y, shifted.y, n.y);
    Difference(o.z, shifted.z, n.z);
    var p, q := o.Dot(n), shifted.Dot(n);
    assert o.Minus(shifted).Dot(n) == p - q;
    assert (p - q) * d + q * d == d * p;
  }

  lemma Difference(o: int, w: int, n: int)
    ensures Mul(o - w, n) == Mul(o, n) - Mul(w, n)
  {}

  lemma SlippedDot(e: Vector, slip: Vector, n: Vector)
    ensures Slipped(e, slip).Dot(n) == e.Dot(n) - P64 * slip.Dot(n)
  {
    SlippedTerm(e.x, slip.x, n.x);
    SlippedTerm(e.y, slip.y, n.y);
    SlippedTerm(e.z, slip.z, n.z);
    hide Mul;
  }

  lemma SlippedTerm(e: int, k: int, n: int)
    ensures Mul(e - k * P64, n) == Mul(e, n) - P64 * Mul(k, n)
  {
    assert (e - k * P64) * n == e * n - (k * P64) * n;
  }

  /** The numerator of each plane distance is the pattern of `det` times the plane's own, less 2^64 times what the wraps
      leave out along that plane's normal. */
  lemma VertexOnPlanes(face: Face, shifted: Vector, f0: Face, f1: Face)
    ensures var s := SystemOf(face, shifted, f0, f1);
            var (p, slip) := (SolveVertex(face, shifted, f0, f1), SlipOf(s, face));
            && p.denominator == Pattern(s.Det())
            && DotNumerator(p, face.Normal())
               == Pattern(s.Det() * shifted.Dot(face.Normal()) - P64 * slip.Dot(face.Normal()))
            && DotNumerator(p, f0.Normal()) == Pattern(s.Det() * f0.origin.Dot(f0.Normal()) - P64 * slip.Dot(f0.Normal()))
            && DotNumerator(p, f1.Normal()) == Pattern(s.Det() * f1.origin.Dot(f1.Normal()) - P64 * slip.Dot(f1.Normal()))
  {
    hide Mul, Vector.Dot, Vector.Cross, Plus, Scaled, Pattern, DotNumerator, System.Det, SlipOf, Slipped;
    var s := SystemOf(face, shifted, f0, f1);
    var (e, slip) := (Exact(s, face, shifted), SlipOf(s, face));
    SolveExact(face, shifted, f0, f1);
    OnThreePlanes(face, shifted, f0, f1);
    PlaneNumerator(e, slip, Pattern(s.Det()), face.Normal());
    PlaneNumerator(e, slip, Pattern(s.Det()), f0.Normal());
    PlaneNumerator(e, slip, Pattern(s.Det()), f1.Normal());
  }

  lemma PlaneNumerator(e: Vector, slip: Vector, d: U128, b: Vector)
    ensures var v := Slipped(e, slip);
            DotNumerator(PointR128(Pattern(v.x), Pattern(v.y), Pattern(v.z), d), b) == Pattern(e.Dot(b) - P64 * slip.Dot(b))
  {
    DotNumeratorExact(Slipped(e, slip), d, b);
    SlippedDot(e, slip, b);
  }

  // ---- and the code sees that it does ------------------------------------

  /** Comparing `x` over `det` with `k`, all as patterns, answers "equal" exactly when `x` is `det * k` modulo 2^128 and
      reads with the sign of `det * k`. */
  lemma EqualExactly(x: int, det: int, k: I64)
    requires det != 0 && -P127 < det < P127 && k > -P63
    ensures CompareI64(FromRatio(Pattern(x), Pattern(det)), k) == 0
       <==> Pattern(x) == Pattern(det * k) && GetSign(Pattern(x)) == Sgn(det * k)
  {
    hide Pattern, GetSign, Neg, MulByI64;
    SmallPattern(det);
    SgnProduct(det, k);
    MagProduct(det, k);
    SignKept(x);
    SignKept(det * k);
    SmallPattern(Mag(det));
    MulByPattern(Mag(det), Mag(k));
    var sign := GetSign(Pattern(x));
    var r := FromRatio(Pattern(x), Pattern(det));
    assert r.denominator == Mag(det) && r.sign == if det > 0 then sign else -sign;
    assert Sgn(det * k) == if det > 0 then Sgn(k) else -Sgn(k);
    if sign == Sgn(det * k) { SameMagnitude(x, det * k); }
  }

  /** Of two patterns with one sign, equal magnitudes are equal patterns. */
  lemma SameMagnitude(x: int, y: int)
    requires GetSign(Pattern(x)) == Sgn(y)
    ensures (if GetSign(Pattern(x)) >= 0 then Pattern(x) else Neg(Pattern(x))) == Pattern(Mag(y)) <==> Pattern(x) == Pattern(y)
  {
    NegPattern(y);
  }

  /** A pattern that keeps the sign keeps the magnitude, modulo 2^128. */
  lemma SignKept(x: int)
    ensures -1 <= GetSign(Pattern(x)) <= 1
    ensures x == 0 ==> GetSign(Pattern(x)) == 0
    ensures GetSign(Pattern(x)) == 0 ==> Pattern(x) == Pattern(0)
    ensures GetSign(Pattern(x)) == Sgn(x) ==>
              (if GetSign(Pattern(x)) >= 0 then Pattern(x) else Neg(Pattern(x))) == Pattern(Mag(x))
  {
    NegPattern(x);
  }

  lemma SlipPattern(y: int, z: int)
    ensures Pattern(y - P64 * z) == Pattern(y) <==> z % P64 == 0
  {}

  /** The code's test of one plane, wraps and all. */
  lemma PlaneTest(det: int, k: I64, z: int)
    requires det != 0 && -P127 < det < P127 && k > -P63
    ensures CompareI64(FromRatio(Pattern(det * k - P64 * z), Pattern(det)), k) == 0
       <==> z % P64 == 0 && GetSign(Pattern(det * k)) == Sgn(det * k)
  {
    hide Pattern, GetSign, CompareI64, FromRatio;
    EqualExactly(det * k - P64 * z, det, k);
    SlipPattern(det * k, z);
  }

  /** A synthesised vertex tests as lying on each of its three planes exactly when what the wraps leave out is, along
      that plane's normal, a multiple of 2^64, and the determinant times the plane's distance keeps its sign in 128 bits. */
  lemma SolvedVertexTestsOnPlane(face: Face, shifted: Vector, f0: Face, f1: Face)
    requires var det := SystemOf(face, shifted, f0, f1).Det(); det != 0 && -P127 < det < P127
    requires -P63 < shifted.Dot(face.Normal()) < P63
    requires -P63 < f0.origin.Dot(f0.Normal()) < P63 && -P63 < f1.origin.Dot(f1.Normal()) < P63
    ensures var det := SystemOf(face, shifted, f0, f1).Det();
            var (p, slip) := (SolveVertex(face, shifted, f0, f1), SlipOf(SystemOf(face, shifted, f0, f1), face));
            var (k, k0, k1) := (shifted.Dot(face.Normal()), f0.origin.Dot(f0.Normal()), f1.origin.Dot(f1.Normal()));
            && (CompareI64(VertexDot(p, face.Normal()), k) == 0
                <==> slip.Dot(face.Normal()) % P64 == 0 && GetSign(Pattern(det * k)) == Sgn(det * k))
            && (CompareI64(VertexDot(p, f0.Normal()), k0) == 0
                <==> slip.Dot(f0.Normal()) % P64 == 0 && GetSign(Pattern(det * k0)) == Sgn(det * k0))
            && (CompareI64(VertexDot(p, f1.Normal()), k1) == 0
                <==> slip.Dot(f1.Normal()) % P64 == 0 && GetSign(Pattern(det * k1)) == Sgn(det * k1))
  {
    hide Vector.Dot, Vector.Cross, Pattern, DotNumerator, SolveVertex, SystemOf, CompareI64, GetSign, FromRatio, System.Det, SlipOf;
    var (det, slip) := (SystemOf(face, shifted, f0, f1).Det(), SlipOf(SystemOf(face, shifted, f0, f1), face));
    VertexOnPlanes(face, shifted, f0, f1);
    PlaneTest(det, shifted.Dot(face.Normal()), slip.Dot(face.Normal()));
    PlaneTest(det, f0.origin.Dot(f0.Normal()), slip.Dot(f0.Normal()));
    PlaneTest(det, f1.origin.Dot(f1.Normal()), slip.Dot(f1.Normal()));
  }

  /** A zero determinant tests as on the plane only for a plane through the origin. */
  lemma DegenerateVertex(k: I64)
    ensures CompareI64(FromRatio(Pattern(0), Pattern(0)), k) == 0 <==> k == 0
  {}

  // ---- sizes -------------------------------------------------------------

  function Size(u: Vector): nat { Mag(u.x) + Mag(u.y) + Mag(u.z) }

  lemma DotSize(u: Vector, v: Vector, m: nat)
    requires u.In(m)
    ensures Within(u.Dot(v), Mul(m, Size(v)))
  {
    hide Mul;
    TermSize(u.x, v.x, m);
    TermSize(u.y, v.y, m);
    TermSize(u.z, v.z, m);
    SumSizes(m, Mag(v.x), Mag(v.y), Mag(v.z));
  }

  lemma TermSize(a: int, b: int, m: nat)
    requires Within(a, m)
    ensures Within(Mul(a, b), Mul(m, Mag(b)))
  {
    ProductWithin(a, b, m, Mag(b));
  }

  lemma SumSizes(m: int, a: int, b: int, c: int)
    ensures Mul(m, a) + Mul(m, b) + Mul(m, c) == Mul(m, a + b + c)
  {}

  /** A vector of signs. */
  predicate Signs(s: Vector) { (s.x == 1 || s.x == -1) && (s.y == 1 || s.y == -1) && (s.z == 1 || s.z == -1) }

  lemma SignCross(c: Vector, s: Vector, n: nat)
    requires c.In(n) && Signs(s)
    ensures Size(c.Cross(s)) <= 4 * n
  {
    UnitProduct(c.x, s.y);
    UnitProduct(c.x, s.z);
    UnitProduct(c.y, s.x);
    UnitProduct(c.y, s.z);
    UnitProduct(c.z, s.x);
    UnitProduct(c.z, s.y);
    hide Mul;
  }

  lemma UnitProduct(a: int, s: int)
    ensures s == 1 ==> Mul(a, s) == a
    ensures s == -1 ==> Mul(a, s) == -a
  {}

  /** Twice the area two vectors span, measured by the sum of its coordinates. */
  lemma AreaSize(b: Vector, c: Vector, m: nat, n: nat)
    requires b.In(m) && c.In(n)
    ensures Size(b.Cross(c)) <= Mul(m, 4 * n)
  {
    hide Mul, Vector.Cross;
    var w := b.Cross(c);
    var s := Vector(if w.x < 0 then -1 else 1, if w.y < 0 then -1 else 1, if w.z < 0 then -1 else 1);
    SignedSize(s, w);
    TripleTurns(s, b, c);
    SignCross(c, s, n);
    DotSize(b, c.Cross(s), m);
    MulMonotone(m, Size(c.Cross(s)), 4 * n);
  }

  lemma SignedSize(s: Vector, w: Vector)
    requires s == Vector(if w.x < 0 then -1 else 1, if w.y < 0 then -1 else 1, if w.z < 0 then -1 else 1)
    ensures s.Dot(w) == Size(w)
  {}

  lemma MulMonotone(k: int, a: int, b: int)
    requires 0 <= k && a <= b
    ensures Mul(k, a) <= Mul(k, b)
  {
    HullBounds.Monotone(k, a, b);
  }

  /** The volume three vectors span is at most four boxes. */
  lemma TripleWithin(a: Vector, b: Vector, c: Vector, k: nat, m: nat, n: nat)
    requires a.In(k) && b.In(m) && c.In(n)
    ensures Within(a.Dot(b.Cross(c)), Mul(k, Mul(m, 4 * n)))
  {
    hide Mul, Vector.Dot, Vector.Cross, Vector.In;
    AreaSize(b, c, m, n);
    DotSize(a, b.Cross(c), k);
    MulMonotone(k, Size(b.Cross(c)), Mul(m, 4 * n));
  }

  /** Bounds on a plane's distance, on an entry of the system, and on its determinant. */
  const DISTANCE := GRID * (SPAN * (4 * SPAN))
  const VOLUME := SPAN * (SPAN * (4 * SPAN))

  predicate InSpan(f: Face) { f.dir0.In(SPAN) && f.dir1.In(SPAN) }

  lemma DistanceWithin(o: Vector, f: Face)
    requires o.In(GRID) && InSpan(f)
    ensures Within(o.Dot(f.Normal()), DISTANCE)
  {
    hide Vector.Dot, Vector.Cross, Vector.In;
    TripleWithin(o, f.dir0, f.dir1, GRID, SPAN, SPAN);
  }

  lemma EntryWithin(d: Vector, f: Face)
    requires d.In(SPAN) && InSpan(f)
    ensures Within(d.Dot(f.Normal()), VOLUME)
  {
    hide Vector.Dot, Vector.Cross, Vector.In;
    TripleWithin(d, f.dir0, f.dir1, SPAN, SPAN, SPAN);
  }

  const DETERMINANT := 2 * (VOLUME * VOLUME)

  lemma GridDetWithin(face: Face, shifted: Vector, f0: Face, f1: Face)
    requires InSpan(face) && InSpan(f0) && InSpan(f1)
    ensures Within(SystemOf(face, shifted, f0, f1).Det(), DETERMINANT)
  {
    hide Vector.Dot, Vector.Cross, Vector.In;
    var s := SystemOf(face, shifted, f0, f1);
    EntryWithin(face.dir0, f0);
    EntryWithin(face.dir1, f0);
    EntryWithin(face.dir0, f1);
    EntryWithin(face.dir1, f1);
    ProductWithin(s.m00, s.m11, VOLUME, VOLUME);
    ProductWithin(s.m01, s.m10, VOLUME, VOLUME);
  }

  /** The determinant times a plane's distance stays within 128 bits. */
  lemma ProductFits(det: int, k: int)
    requires Within(det, DETERMINANT) && Within(k, DISTANCE)
    ensures -P127 < det < P127 && -P63 < k < P63 && -P127 < det * k < P127
    ensures GetSign(Pattern(det * k)) == Sgn(det * k)
  {
    ProductWithin(det, k, DETERMINANT, DISTANCE);
    assert Mul(DETERMINANT, DISTANCE) < P127;
    SmallPattern(det * k);
  }

  // ---- the 64-bit products -----------------------------------------------

  /** A direction times a right-hand side fits 64 bits. */
  predicate TimesFits(v: Vector, r: int) { FitsI64(v.x * r) && FitsI64(v.y * r) && FitsI64(v.z * r) }

  /** All twelve products of the solve fit 64 bits. */
  predicate ProductsFit(face: Face, s: System) {
    && TimesFits(face.dir0, s.r0) && TimesFits(face.dir0, s.r1) && TimesFits(face.dir1, s.r0) && TimesFits(face.dir1, s.r1)
  }

  /** Products that fit leave nothing out. */
  lemma FitSlipsNothing(face: Face, s: System)
    requires ProductsFit(face, s)
    ensures SlipOf(s, face) == ORIGIN
  {
    hide FitsI64;
    NoSlip(s, face.dir0.x, face.dir1.x);
    NoSlip(s, face.dir0.y, face.dir1.y);
    NoSlip(s, face.dir0.z, face.dir1.z);
  }

  lemma NoSlip(s: System, d0: int, d1: int)
    requires FitsI64(d0 * s.r0) && FitsI64(d0 * s.r1) && FitsI64(d1 * s.r0) && FitsI64(d1 * s.r1)
    ensures Slip(s, d0, d1) == 0
  {}

  function Higher(a: int, b: int): int { if a < b then b else a }
  function Lower(a: int, b: int): int { if a < b then a else b }

  /** The largest and the least coordinate of the two directions. */
  function Highest(f: Face): int {
    Higher(Higher(Higher(f.dir0.x, f.dir0.y), f.dir0.z), Higher(Higher(f.dir1.x, f.dir1.y), f.dir1.z))
  }

  function Lowest(f: Face): int {
    Lower(Lower(Lower(f.dir0.x, f.dir0.y), f.dir0.z), Lower(Lower(f.dir1.x, f.dir1.y), f.dir1.z))
  }

  /** How far a neighbour's plane lies from the shifted origin, along its normal. */
  function Away(f: Face, shifted: Vector): int { f.origin.Dot(f.Normal()) - shifted.Dot(f.Normal()) }

  /**
   The products fit exactly when four of them do: the extreme coordinates of the
   directions times the extreme distances of the two planes from the shifted
   origin.
   */
  lemma ProductsFitExactly(face: Face, shifted: Vector, f0: Face, f1: Face)
    ensures var (high, low) := (Higher(Away(f0, shifted), Away(f1, shifted)), Lower(Away(f0, shifted), Away(f1, shifted)));
            ProductsFit(face, SystemOf(face, shifted, f0, f1))
            <==> && FitsI64(Highest(face) * high) && FitsI64(Highest(face) * low)
                 && FitsI64(Lowest(face) * high) && FitsI64(Lowest(face) * low)
  {
    hide Vector.Dot, Vector.Cross, Vector.Minus, FitsI64;
    var s := SystemOf(face, shifted, f0, f1);
    RightHandIs(f0, shifted);
    RightHandIs(f1, shifted);
    assert ProductsFit(face, s) <==> SixFit(face, s.r0) && SixFit(face, s.r1);
    SixFitExactly(face, s.r0);
    SixFitExactly(face, s.r1);
  }

  lemma RightHandIs(f: Face, shifted: Vector)
    ensures f.origin.Minus(shifted).Dot(f.Normal()) == Away(f, shifted)
  {
    hide Vector.Cross;
    var n := f.Normal();
    Difference(f.origin.x, shifted.x, n.x);
    Difference(f.origin.y, shifted.y, n.y);
    Difference(f.origin.z, shifted.z, n.z);
    hide Mul;
  }

  predicate SixFit(f: Face, r: int) { TimesFits(f.dir0, r) && TimesFits(f.dir1, r) }

  /** Of six multiples of one number the extreme ones decide. */
  lemma SixFitExactly(f: Face, r: int)
    ensures SixFit(f, r) <==> FitsI64(Highest(f) * r) && FitsI64(Lowest(f) * r)
  {
    hide FitsI64;
    BetweenFits(f.dir0.x, Lowest(f), Highest(f), r);
    BetweenFits(f.dir0.y, Lowest(f), Highest(f), r);
    BetweenFits(f.dir0.z, Lowest(f), Highest(f), r);
    BetweenFits(f.dir1.x, Lowest(f), Highest(f), r);
    BetweenFits(f.dir1.y, Lowest(f), Highest(f), r);
    BetweenFits(f.dir1.z, Lowest(f), Highest(f), r);
  }

  lemma BetweenFits(d: int, low: int, high: int, r: int)
    requires low <= d <= high
    ensures FitsI64(high * r) && FitsI64(low * r) ==> FitsI64(d * r)
  {
    if r >= 0 {
      HullBounds.Monotone(r, low, d);
      HullBounds.Monotone(r, d, high);
    } else {
      HullBounds.Monotone(-r, low, d);
      HullBounds.Monotone(-r, d, high);
      Negated(r, low);
      Negated(r, d);
      Negated(r, high);
    }
  }

  lemma Negated(r: int, x: int)
    ensures -r * x == -(x * r)
  {}

  /** How far from the centre of the grid a shifted origin is always safe. */
  const REACH := 2_000_000
  const RIGHT_HAND := (GRID + REACH) * (SPAN * (4 * SPAN))

  predicate EntriesFit(s: System) {
    && Within(s.m00, VOLUME) && Within(s.m01, VOLUME) && Within(s.m10, VOLUME) && Within(s.m11, VOLUME)
    && Within(s.r0, RIGHT_HAND) && Within(s.r1, RIGHT_HAND)
  }

  lemma TimesWithin(v: Vector, r: int)
    requires v.In(SPAN) && Within(r, RIGHT_HAND)
    ensures TimesFits(v, r)
  {
    ProductWithin(v.x, r, SPAN, RIGHT_HAND);
    ProductWithin(v.y, r, SPAN, RIGHT_HAND);
    ProductWithin(v.z, r, SPAN, RIGHT_HAND);
    assert Mul(SPAN, RIGHT_HAND) < P63;
  }

  lemma RightHandWithin(f: Face, shifted: Vector)
    requires InSpan(f) && f.origin.In(GRID) && shifted.In(REACH)
    ensures Within(f.origin.Minus(shifted).Dot(f.Normal()), RIGHT_HAND)
  {
    hide Vector.Dot, Vector.Cross;
    TripleWithin(f.origin.Minus(shifted), f.dir0, f.dir1, GRID + REACH, SPAN, SPAN);
  }

  const I32_MAX := 0x7FFF_FFFF

  /** A right-hand side itself is formed without overflow wherever 32 bits can put the shifted origin. */
  lemma RightHandFits(f: Face, shifted: Vector)
    requires InSpan(f) && f.origin.In(GRID) && shifted.In(I32_MAX - GRID)
    ensures var (d, n) := (f.origin.Minus(shifted), f.Normal());
            d.In(I32_MAX) && n.In(AREA) && DotWithin(d, n, P63 - 1)
  {
    hide Vector.Dot, Vector.Cross, ProductsWithin;
    var d := f.origin.Minus(shifted);
    VectorsIn(f.dir0, f.dir1, SPAN, SPAN);
    assert 2 * Mul(SPAN, SPAN) == AREA && 3 * Mul(I32_MAX, AREA) < P63;
    VectorsIn(d, f.Normal(), I32_MAX, AREA);
    Wider(d, f.Normal(), Mul(I32_MAX, AREA), P63 - 1);
  }

  /** With faces on the grid and the shifted origin within reach, the 64-bit products fit. */
  lemma SolveFits(face: Face, shifted: Vector, f0: Face, f1: Face)
    requires InSpan(face) && InSpan(f0) && InSpan(f1) && f0.origin.In(GRID) && f1.origin.In(GRID) && shifted.In(REACH)
    ensures var s := SystemOf(face, shifted, f0, f1);
            EntriesFit(s) && Within(s.Det(), DETERMINANT) && DETERMINANT < P127 && ProductsFit(face, s)
  {
    hide Vector.Dot, Vector.Cross, Vector.Minus, Vector.In, TimesFits, System.Det;
    var s := SystemOf(face, shifted, f0, f1);
    GridDetWithin(face, shifted, f0, f1);
    EntryWithin(face.dir0, f0);
    EntryWithin(face.dir1, f0);
    EntryWithin(face.dir0, f1);
    EntryWithin(face.dir1, f1);
    RightHandWithin(f0, shifted);
    RightHandWithin(f1, shifted);
    TimesWithin(face.dir0, s.r0);
    TimesWithin(face.dir0, s.r1);
    TimesWithin(face.dir1, s.r0);
    TimesWithin(face.dir1, s.r1);
  }

  // ---- the test, with faces on the grid ----------------------------------

  /** What the comparisons with the three planes' distances can take. */
  predicate DistancesFit(face: Face, shifted: Vector, f0: Face, f1: Face) {
    && -P63 < shifted.Dot(face.Normal()) < P63
    && -P63 < f0.origin.Dot(f0.Normal()) < P63 && -P63 < f1.origin.Dot(f1.Normal()) < P63
  }

  /** The code's own test finds the vertex on the shifted plane and on both neighbours' planes. */
  predicate TestsOnAll(face: Face, shifted: Vector, f0: Face, f1: Face)
    requires DistancesFit(face, shifted, f0, f1)
  {
    var p := SolveVertex(face, shifted, f0, f1);
    && CompareI64(VertexDot(p, face.Normal()), shifted.Dot(face.Normal())) == 0
    && CompareI64(VertexDot(p, f0.Normal()), f0.origin.Dot(f0.Normal())) == 0
    && CompareI64(VertexDot(p, f1.Normal()), f1.origin.Dot(f1.Normal())) == 0
  }

  /**
   With faces on the grid and a shifted plane no further out than grid points
   are, wherever on that plane the shifted origin lies: the vertex tests as lying
   on all three planes exactly when what the wraps leave out is a multiple of
   2^64 along all three normals; in particular when the products fit.
   */
  lemma ShiftedTestsOnPlanes(face: Face, shifted: Vector, f0: Face, f1: Face)
    requires InSpan(face) && InSpan(f0) && InSpan(f1) && f0.origin.In(GRID) && f1.origin.In(GRID)
    requires Within(shifted.Dot(face.Normal()), DISTANCE) && SystemOf(face, shifted, f0, f1).Det() != 0
    ensures DistancesFit(face, shifted, f0, f1)
    ensures var slip := SlipOf(SystemOf(face, shifted, f0, f1), face);
            && (TestsOnAll(face, shifted, f0, f1)
                <==> slip.Dot(face.Normal()) % P64 == 0 && slip.Dot(f0.Normal()) % P64 == 0 && slip.Dot(f1.Normal()) % P64 == 0)
            && (ProductsFit(face, SystemOf(face, shifted, f0, f1)) ==> TestsOnAll(face, shifted, f0, f1))
  {
    hide Vector.Dot, Vector.Cross, Vector.In, InSpan, Pattern, DotNumerator, SolveVertex, SystemOf, CompareI64, GetSign, FromRatio,
         System.Det, VertexDot, SlipOf, ProductsFit;
    var s := SystemOf(face, shifted, f0, f1);
    GridDetWithin(face, shifted, f0, f1);
    DistanceWithin(f0.origin, f0);
    DistanceWithin(f1.origin, f1);
    ProductFits(s.Det(), shifted.Dot(face.Normal()));
    ProductFits(s.Det(), f0.origin.Dot(f0.Normal()));
    ProductFits(s.Det(), f1.origin.Dot(f1.Normal()));
    SolvedVertexTestsOnPlane(face, shifted, f0, f1);
    if ProductsFit(face, s) {
      FitSlipsNothing(face, s);
      NothingAlong(face.Normal());
      NothingAlong(f0.Normal());
      NothingAlong(f1.Normal());
    }
  }

  lemma NothingAlong(n: Vector)
    ensures ORIGIN.Dot(n) == 0
  {
    DotNothing(n);
    DotTurns(ORIGIN, n);
  }

  /** With everything on the grid the only condition left is that the determinant is not zero. */
  lemma OnGridTestsOnPlane(face: Face, shifted: Vector, f0: Face, f1: Face)
    requires InSpan(face) && InSpan(f0) && InSpan(f1) && shifted.In(GRID) && f0.origin.In(GRID) && f1.origin.In(GRID)
    requires SystemOf(face, shifted, f0, f1).Det() != 0
    ensures DistancesFit(face, shifted, f0, f1) && TestsOnAll(face, shifted, f0, f1)
  {
    hide Vector.Dot, Vector.Cross, SystemOf, TestsOnAll, ProductsFit;
    DistanceWithin(shifted, face);
    SolveFits(face, shifted, f0, f1);
    ShiftedTestsOnPlanes(face, shifted, f0, f1);
  }

  /** The point `e / det` lies in the box of the grid. */
  predicate InsideGrid(e: Vector, det: int) { e.In(GRID * Mag(det)) }

  /** A plane through grid directions is no further from a point of the box than from its corners. */
  lemma InsideDistance(e: Vector, det: int, f: Face)
    requires InsideGrid(e, det) && Within(det, DETERMINANT) && InSpan(f)
    ensures Within(e.Dot(f.Normal()), Mul(Mag(det), DISTANCE))
  {
    hide Vector.Dot, Vector.Cross, Vector.In, Mul;
    TripleWithin(e, f.dir0, f.dir1, GRID * Mag(det), SPAN, SPAN);
    Regroup(Mag(det));
  }

  lemma Regroup(d: nat)
    ensures Mul(GRID * d, Mul(SPAN, 4 * SPAN)) == Mul(d, DISTANCE)
  {}

  /**
   Tested against any other plane, a synthesised vertex inside the box of the
   grid comes out on the side it is on, above, on or below, unless the wraps
   leave out something along that plane's normal.
   */
  lemma VertexComparesExactly(face: Face, shifted: Vector, f0: Face, f1: Face, other: Face, k: I64)
    requires InSpan(face) && InSpan(f0) && InSpan(f1) && InSpan(other) && Within(k, DISTANCE)
    requires var det := SystemOf(face, shifted, f0, f1).Det();
             det != 0 && InsideGrid(Exact(SystemOf(face, shifted, f0, f1), face, shifted), det)
    requires SlipOf(SystemOf(face, shifted, f0, f1), face).Dot(other.Normal()) % P64 == 0
    ensures var (s, e) := (SystemOf(face, shifted, f0, f1), Exact(SystemOf(face, shifted, f0, f1), face, shifted));
            CompareI64(VertexDot(SolveVertex(face, shifted, f0, f1), other.Normal()), k)
            == Sgn(e.Dot(other.Normal()) - k * s.Det()) * Sgn(s.Det())
  {
    hide Vector.Dot, Vector.Cross, Vector.In, InSpan, Pattern, DotNumerator, SolveVertex, SystemOf, CompareI64, GetSign, FromRatio,
         System.Det, Exact, InsideGrid, SlipOf, Slipped;
    var s := SystemOf(face, shifted, f0, f1);
    var (det, e, n) := (s.Det(), Exact(s, face, shifted), other.Normal());
    SolveExact(face, shifted, f0, f1);
    PlaneNumerator(e, SlipOf(s, face), Pattern(det), n);
    SlipPattern(e.Dot(n), SlipOf(s, face).Dot(n));
    GridDetWithin(face, shifted, f0, f1);
    InsideDistance(e, det, other);
    RatioComparesExactly(e.Dot(n), det, k);
  }

  /** Two readings that fit, compared through their patterns. */
  lemma RatioComparesExactly(x: int, det: int, k: I64)
    requires det != 0 && Within(det, DETERMINANT) && Within(k, DISTANCE) && Within(x, Mul(Mag(det), DISTANCE))
    ensures CompareI64(FromRatio(Pattern(x), Pattern(det)), k) == Sgn(x - k * det) * Sgn(det)
  {
    hide Pattern, GetSign, Neg, CompareI64, FromRatio;
    ReadingsFit(x, det);
    SmallPattern(x);
    SmallPattern(det);
    RatioIs(x, det);
    var r := FromRatio(Pattern(x), Pattern(det));
    ProductWithin(Mag(det), Mag(k), DETERMINANT, DISTANCE);
    assert Mul(DETERMINANT, DISTANCE) < P127;
    CompareI64Exact(r, k);
    DifferenceTurns(x, det, k);
  }

  lemma ReadingsFit(x: int, det: int)
    requires Within(det, DETERMINANT) && Within(x, Mul(Mag(det), DISTANCE))
    ensures -P127 < x < P127 && -P127 < det < P127
  {
    ProductWithin(Mag(det), DISTANCE, DETERMINANT, DISTANCE);
    assert Mul(DETERMINANT, DISTANCE) < P127;
  }

  lemma RatioIs(x: int, det: int)
    requires -P127 < x < P127 && -P127 < det < P127 && det != 0
    ensures var r := FromRatio(Pattern(x), Pattern(det));
            r.Formed() && !r.isInt64 && r.denominator == Mag(det) && r.Num() == Sgn(det) * x
  {
    hide Pattern, GetSign, Neg;
    SmallPattern(x);
    SmallPattern(det);
  }

  lemma DifferenceTurns(x: int, det: int, k: int)
    ensures Sgn(Sgn(det) * x - k * Mag(det)) == Sgn(x - k * det) * Sgn(det)
  {
    if det < 0 {
      assert -x - k * -det == -(x - k * det);
    }
  }

  // ---- a shift on which the products do not fit --------------------------

  /** The three corners a face is built from. */
  predicate CornersOnGrid(f: Face) {
    f.origin.In(GRID) && Plus(f.origin, f.dir0).In(GRID) && Plus(f.origin, f.dir1).In(GRID)
  }

  const STEEP := Face(Vector(-GRID, 1, -GRID), Vector(SPAN, -1, 0), Vector(0, 0, SPAN))
  const SIDE := Face(Vector(-GRID, -GRID, -GRID), Vector(0, SPAN, 0), Vector(0, 0, SPAN))
  const FLOOR := Face(Vector(-GRID, -GRID, -GRID), Vector(SPAN, 0, 0), Vector(0, SPAN, 0))

  /** Fifty million steps along x, as axes of very different scale make it. */
  const FAR := Vector(49_994_892, 1, -GRID)

  /**
   Three faces with corners on the grid and a shift that passes the guard, its
   plane still above a corner of the grid: the products do not fit, and the
   vertex tests as off the shifted plane and off a neighbour's.
   */
  lemma FarShiftMissesPlanes()
    ensures CornersOnGrid(STEEP) && CornersOnGrid(SIDE) && CornersOnGrid(FLOOR)
    ensures InSpan(STEEP) && InSpan(SIDE) && InSpan(FLOOR) && SystemOf(STEEP, FAR, SIDE, FLOOR).Det() != 0
    ensures Vector(GRID, GRID, GRID).Dot(STEEP.Normal()) < FAR.Dot(STEEP.Normal()) < STEEP.origin.Dot(STEEP.Normal())
    ensures !ProductsFit(STEEP, SystemOf(STEEP, FAR, SIDE, FLOOR)) && DistancesFit(STEEP, FAR, SIDE, FLOOR)
    ensures var p := SolveVertex(STEEP, FAR, SIDE, FLOOR);
            && CompareI64(VertexDot(p, STEEP.Normal()), FAR.Dot(STEEP.Normal())) != 0
            && CompareI64(VertexDot(p, SIDE.Normal()), SIDE.origin.Dot(SIDE.Normal())) != 0
  {
    hide SolveVertex, CompareI64, VertexDot, SystemOf, SlipOf, ProductsFit, Pattern, GetSign;
    FarSystem();
    FarSlip();
    FarDistances();
    SolvedVertexTestsOnPlane(STEEP, FAR, SIDE, FLOOR);
  }

  const CUBE := SPAN * (SPAN * SPAN)

  lemma FarSystem()
    ensures SystemOf(STEEP, FAR, SIDE, FLOOR) == System(CUBE, 0, 0, CUBE, -50_000_000 * (SPAN * SPAN), 0)
    ensures SystemOf(STEEP, FAR, SIDE, FLOOR).Det() == CUBE * CUBE
  {}

  /** The product of the first direction's x with the first right-hand side wraps three times, and no other does. */
  lemma FarSlip()
    ensures var s := SystemOf(STEEP, FAR, SIDE, FLOOR); !ProductsFit(STEEP, s) && SlipOf(s, STEEP) == Vector(-3 * CUBE, 0, 0)
  {
    hide SystemOf;
    FarSystem();
  }

  lemma FarDistances()
    ensures STEEP.Normal() == Vector(-SPAN, -(SPAN * SPAN), 0) && SIDE.Normal() == Vector(SPAN * SPAN, 0, 0)
    ensures FLOOR.Normal() == Vector(0, 0, SPAN * SPAN) && 0 < CUBE * CUBE < P127
    ensures Vector(-3 * CUBE, 0, 0).Dot(STEEP.Normal()) % P64 != 0 && Vector(-3 * CUBE, 0, 0).Dot(SIDE.Normal()) % P64 != 0
  {}
}
