/**
 Vectors, bases, rigid transforms and axis-aligned boxes over the reals
 (crates/cspace-bullet/src/linear_math.rs). `f32` rounding is not modelled.
 */
module LinearMath {

  datatype Vec3 = Vec3(x: real, y: real, z: real) {
    function Add(b: Vec3): Vec3 { Vec3(x + b.x, y + b.y, z + b.z) }
    function Sub(b: Vec3): Vec3 { Vec3(x - b.x, y - b.y, z - b.z) }
    function Scale(k: real): Vec3 { Vec3(k * x, k * y, k * z) }
    function Neg(): Vec3 { Vec3(-x, -y, -z) }
    function Dot(b: Vec3): real { x * b.x + y * b.y + z * b.z }
  }

  const ZERO := Vec3(0.0, 0.0, 0.0)

  function Abs(r: real): real { if r < 0.0 then -r else r }

  /** `btMatrix3x3`, held as its three rows. */
  datatype Matrix3 = Matrix3(r0: Vec3, r1: Vec3, r2: Vec3) {
    function Mul(v: Vec3): Vec3 { Vec3(r0.Dot(v), r1.Dot(v), r2.Dot(v)) }

    /** `transposed_mul_vec`: the transpose applied to a vector. */
    function TMul(v: Vec3): Vec3 {
      r0.Scale(v.x).Add(r1.Scale(v.y)).Add(r2.Scale(v.z))
    }

    /** `btMatrix3x3::operator*`: each row of the product is a row of `this` through `m`. */
    function Times(m: Matrix3): Matrix3 { Matrix3(m.TMul(r0), m.TMul(r1), m.TMul(r2)) }

    function Transpose(): Matrix3 {
      Matrix3(Vec3(r0.x, r1.x, r2.x), Vec3(r0.y, r1.y, r2.y), Vec3(r0.z, r1.z, r2.z))
    }

    /** Rows are orthonormal. */
    ghost predicate RowsOrthonormal() {
      && r0.Dot(r0) == 1.0 && r1.Dot(r1) == 1.0 && r2.Dot(r2) == 1.0
      && r0.Dot(r1) == 0.0 && r0.Dot(r2) == 0.0 && r1.Dot(r2) == 0.0
    }

    /** Rows and columns are orthonormal, which is what a rotation's basis is. */
    ghost predicate Orthonormal() {
      RowsOrthonormal() && Transpose().RowsOrthonormal()
    }
  }

  datatype Transform = Transform(basis: Matrix3, origin: Vec3) {
    function Apply(p: Vec3): Vec3 { basis.Mul(p).Add(origin) }

    /** `operator*`. */
    function Times(t: Transform): Transform {
      Transform(basis.Times(t.basis), Apply(t.origin))
    }

    function Inverse(): Transform {
      Transform(basis.Transpose(), basis.TMul(origin.Neg()))
    }

    function InvXform(p: Vec3): Vec3 { basis.TMul(p.Sub(origin)) }

    /** `inverse_times`: computed from the difference of the two origins. */
    function InverseTimes(t: Transform): Transform {
      Transform(basis.Transpose().Times(t.basis), basis.TMul(t.origin.Sub(origin)))
    }

    /** The inverse taken through the transposed basis undoes the transform on every point. */
    ghost predicate Rigid() {
      && (forall p {:trigger InvXform(Apply(p))} :: InvXform(Apply(p)) == p)
      && (forall p {:trigger Apply(InvXform(p))} :: Apply(InvXform(p)) == p)
    }
  }

  const IDENTITY_BASIS := Matrix3(Vec3(1.0, 0.0, 0.0), Vec3(0.0, 1.0, 0.0), Vec3(0.0, 0.0, 1.0))
  const IDENTITY := Transform(IDENTITY_BASIS, ZERO)

  // ---- bases -------------------------------------------------------------

  /** The transpose is the adjoint. */
  lemma Adjoint(m: Matrix3, u: Vec3, v: Vec3)
    ensures m.TMul(u).Dot(v) == u.Dot(m.Mul(v))
  {
    var (a, b, c) := (m.r0, m.r1, m.r2);
    assert (a.x * u.x + b.x * u.y + c.x * u.z) * v.x
         + (a.y * u.x + b.y * u.y + c.y * u.z) * v.y
         + (a.z * u.x + b.z * u.y + c.z * u.z) * v.z
        == u.x * (a.x * v.x + a.y * v.y + a.z * v.z)
         + u.y * (b.x * v.x + b.y * v.y + b.z * v.z)
         + u.z * (c.x * v.x + c.y * v.y + c.z * v.z);
  }

  lemma MulTimes(a: Matrix3, b: Matrix3, v: Vec3)
    ensures a.Times(b).Mul(v) == a.Mul(b.Mul(v))
  {
    Adjoint(b, a.r0, v);
    Adjoint(b, a.r1, v);
    Adjoint(b, a.r2, v);
  }

  lemma MulAdd(m: Matrix3, u: Vec3, v: Vec3)
    ensures m.Mul(u.Add(v)) == m.Mul(u).Add(m.Mul(v))
    ensures m.Mul(u.Sub(v)) == m.Mul(u).Sub(m.Mul(v))
  {
    DotAdd(m.r0, u, v);
    DotAdd(m.r1, u, v);
    DotAdd(m.r2, u, v);
  }

  lemma DotAdd(n: Vec3, u: Vec3, v: Vec3)
    ensures n.Dot(u.Add(v)) == n.Dot(u) + n.Dot(v)
    ensures n.Dot(u.Sub(v)) == n.Dot(u) - n.Dot(v)
  {
    assert n.x * (u.x + v.x) == n.x * u.x + n.x * v.x;
    assert n.y * (u.y + v.y) == n.y * u.y + n.y * v.y;
    assert n.z * (u.z + v.z) == n.z * u.z + n.z * v.z;
    assert n.x * (u.x - v.x) == n.x * u.x - n.x * v.x;
    assert n.y * (u.y - v.y) == n.y * u.y - n.y * v.y;
    assert n.z * (u.z - v.z) == n.z * u.z - n.z * v.z;
  }

  lemma DotScale(n: Vec3, k: real, v: Vec3)
    ensures n.Dot(v.Scale(k)) == k * n.Dot(v)
  {
    assert n.x * (k * v.x) == k * (n.x * v.x);
    assert n.y * (k * v.y) == k * (n.y * v.y);
    assert n.z * (k * v.z) == k * (n.z * v.z);
    assert k * (n.x * v.x + n.y * v.y + n.z * v.z)
        == k * (n.x * v.x) + k * (n.y * v.y) + k * (n.z * v.z);
  }

  lemma TMulIsTransposeMul(m: Matrix3, v: Vec3)
    ensures m.TMul(v) == m.Transpose().Mul(v)
  {}

  /** A vector rebuilt from its coordinates along orthonormal rows. */
  lemma MulTMul(m: Matrix3, v: Vec3)
    requires m.RowsOrthonormal()
    ensures m.Mul(m.TMul(v)) == v
  {
    MulTMulRow(m.r0, m.r0, m.r1, m.r2, v);
    MulTMulRow(m.r1, m.r0, m.r1, m.r2, v);
    MulTMulRow(m.r2, m.r0, m.r1, m.r2, v);
    DotSym(m.r0, m.r1);
    DotSym(m.r0, m.r2);
    DotSym(m.r1, m.r2);
  }

  lemma DotSym(a: Vec3, b: Vec3)
    ensures a.Dot(b) == b.Dot(a)
  {}

  lemma MulTMulRow(n: Vec3, a: Vec3, b: Vec3, c: Vec3, v: Vec3)
    ensures n.Dot(a.Scale(v.x).Add(b.Scale(v.y)).Add(c.Scale(v.z)))
         == v.x * n.Dot(a) + v.y * n.Dot(b) + v.z * n.Dot(c)
  {
    DotAdd(n, a.Scale(v.x).Add(b.Scale(v.y)), c.Scale(v.z));
    DotAdd(n, a.Scale(v.x), b.Scale(v.y));
    DotScale(n, v.x, a);
    DotScale(n, v.y, b);
    DotScale(n, v.z, c);
  }

  lemma TMulMul(m: Matrix3, v: Vec3)
    requires m.Orthonormal()
    ensures m.TMul(m.Mul(v)) == v
  {
    var t := m.Transpose();
    assert t.Transpose() == m;
    MulTMul(t, v);
    TMulIsTransposeMul(m, m.Mul(v));
    TMulIsTransposeMul(t, v);
  }

  lemma TMulTimes(a: Matrix3, b: Matrix3, v: Vec3)
    ensures a.Times(b).TMul(v) == b.TMul(a.TMul(v))
  {
    TMulLinear(b, a.r0.Scale(v.x).Add(a.r1.Scale(v.y)), a.r2.Scale(v.z));
    TMulLinear(b, a.r0.Scale(v.x), a.r1.Scale(v.y));
    TMulScale(b, v.x, a.r0);
    TMulScale(b, v.y, a.r1);
    TMulScale(b, v.z, a.r2);
  }

  lemma TMulLinear(m: Matrix3, u: Vec3, v: Vec3)
    ensures m.TMul(u.Add(v)) == m.TMul(u).Add(m.TMul(v))
    ensures m.TMul(u.Sub(v)) == m.TMul(u).Sub(m.TMul(v))
  {
    TMulIsTransposeMul(m, u);
    TMulIsTransposeMul(m, v);
    TMulIsTransposeMul(m, u.Add(v));
    TMulIsTransposeMul(m, u.Sub(v));
    MulAdd(m.Transpose(), u, v);
  }

  lemma TMulScale(m: Matrix3, k: real, v: Vec3)
    ensures m.TMul(v.Scale(k)) == m.TMul(v).Scale(k)
  {
    var t := m.Transpose();
    calc {
      m.TMul(v.Scale(k));
      { TMulIsTransposeMul(m, v.Scale(k)); }
      t.Mul(v.Scale(k));
      { DotScale(t.r0, k, v); DotScale(t.r1, k, v); DotScale(t.r2, k, v); }
      t.Mul(v).Scale(k);
      { TMulIsTransposeMul(m, v); }
      m.TMul(v).Scale(k);
    }
  }

  lemma TransposeTwice(m: Matrix3, v: Vec3)
    ensures m.Transpose().TMul(v) == m.Mul(v)
  {
    TMulIsTransposeMul(m.Transpose(), v);
  }

  // ---- transforms as a group acting on points ----------------------------

  lemma ApplyTimes(s: Transform, t: Transform, p: Vec3)
    ensures s.Times(t).Apply(p) == s.Apply(t.Apply(p))
  {
    MulTimes(s.basis, t.basis, p);
    MulAdd(s.basis, t.basis.Mul(p), t.origin);
  }

  /** A rotation's basis makes a rigid transform. */
  lemma OrthonormalIsRigid(t: Transform)
    requires t.basis.Orthonormal()
    ensures t.Rigid()
  {
    forall p
      ensures t.InvXform(t.Apply(p)) == p && t.Apply(t.InvXform(p)) == p
    {
      assert t.Apply(p).Sub(t.origin) == t.basis.Mul(p);
      TMulMul(t.basis, p);
      MulTMul(t.basis, p.Sub(t.origin));
      assert p.Sub(t.origin).Add(t.origin) == p;
    }
  }

  lemma RigidBasis(t: Transform, v: Vec3)
    requires t.Rigid()
    ensures t.basis.TMul(t.basis.Mul(v)) == v
    ensures t.basis.Mul(t.basis.TMul(v)) == v
  {
    assert t.Apply(v).Sub(t.origin) == t.basis.Mul(v);
    assert t.InvXform(t.Apply(v)) == v;
    var p := v.Add(t.origin);
    assert p.Sub(t.origin) == v;
    assert t.Apply(t.InvXform(p)) == p;
    assert t.Apply(t.InvXform(p)).Sub(t.origin) == t.basis.Mul(t.basis.TMul(v));
  }

  lemma InvXformTimes(s: Transform, t: Transform, q: Vec3)
    requires s.Rigid()
    ensures s.Times(t).InvXform(q) == t.InvXform(s.InvXform(q))
  {
    var (a, b) := (s.basis, t.basis);
    var d := q.Sub(s.Apply(t.origin));
    TMulTimes(a, b, d);
    RigidBasis(s, t.origin);
    assert d == q.Sub(s.origin).Sub(a.Mul(t.origin));
    TMulLinear(a, q.Sub(s.origin), a.Mul(t.origin));
  }

  /** Rigid transforms are closed under composition. */
  lemma RigidTimes(s: Transform, t: Transform)
    requires s.Rigid() && t.Rigid()
    ensures s.Times(t).Rigid()
  {
    var r := s.Times(t);
    forall p
      ensures r.InvXform(r.Apply(p)) == p && r.Apply(r.InvXform(p)) == p
    {
      ApplyTimes(s, t, p);
      InvXformTimes(s, t, s.Apply(t.Apply(p)));
      assert s.InvXform(s.Apply(t.Apply(p))) == t.Apply(p);
      assert t.InvXform(t.Apply(p)) == p;
      InvXformTimes(s, t, p);
      ApplyTimes(s, t, t.InvXform(s.InvXform(p)));
      assert t.Apply(t.InvXform(s.InvXform(p))) == s.InvXform(p);
      assert s.Apply(s.InvXform(p)) == p;
    }
  }

  lemma InverseIsInvXform(t: Transform, q: Vec3)
    ensures t.Inverse().Apply(q) == t.InvXform(q)
  {
    var m := t.basis.Transpose();
    var o := t.origin;
    TMulIsTransposeMul(t.basis, o.Neg());
    TMulIsTransposeMul(t.basis, q.Sub(o));
    MulAdd(m, q, o.Neg());
    assert q.Add(o.Neg()) == q.Sub(o);
  }

  lemma InverseApply(t: Transform, p: Vec3)
    requires t.Rigid()
    ensures t.Inverse().Apply(t.Apply(p)) == p
    ensures t.Apply(t.Inverse().Apply(p)) == p
  {
    InverseIsInvXform(t, t.Apply(p));
    InverseIsInvXform(t, p);
    assert t.InvXform(t.Apply(p)) == p && t.Apply(t.InvXform(p)) == p;
  }

  lemma InverseInvXform(t: Transform, q: Vec3)
    requires t.Rigid()
    ensures t.Inverse().InvXform(q) == t.Apply(q)
  {
    var o := t.basis.TMul(t.origin.Neg());
    TransposeTwice(t.basis, q.Sub(o));
    MulAdd(t.basis, q, o);
    RigidBasis(t, t.origin.Neg());
  }

  lemma RigidInverse(t: Transform)
    requires t.Rigid()
    ensures t.Inverse().Rigid()
  {
    var r := t.Inverse();
    forall p
      ensures r.InvXform(r.Apply(p)) == p && r.Apply(r.InvXform(p)) == p
    {
      InverseIsInvXform(t, p);
      InverseInvXform(t, t.InvXform(p));
      InverseInvXform(t, p);
      InverseIsInvXform(t, t.Apply(p));
      assert t.InvXform(t.Apply(p)) == p && t.Apply(t.InvXform(p)) == p;
    }
  }

  /** The rows of a rigid transform's basis are unit vectors. */
  lemma RigidRows(t: Transform)
    requires t.Rigid()
    ensures t.basis.r0.Dot(t.basis.r0) == 1.0 && t.basis.r1.Dot(t.basis.r1) == 1.0 && t.basis.r2.Dot(t.basis.r2) == 1.0
  {
    hide Transform.Rigid, Matrix3.TMul, Vec3.Dot;
    TMulUnits(t.basis);
    RigidBasis(t, Vec3(1.0, 0.0, 0.0));
    RigidBasis(t, Vec3(0.0, 1.0, 0.0));
    RigidBasis(t, Vec3(0.0, 0.0, 1.0));
  }

  /** The transpose takes the unit vectors to the rows. */
  lemma TMulUnits(m: Matrix3)
    ensures m.TMul(Vec3(1.0, 0.0, 0.0)) == m.r0
    ensures m.TMul(Vec3(0.0, 1.0, 0.0)) == m.r1
    ensures m.TMul(Vec3(0.0, 0.0, 1.0)) == m.r2
  {
    hide Vec3.Scale;
    ScaleUnits(m.r0);
    ScaleUnits(m.r1);
    ScaleUnits(m.r2);
  }

  lemma ScaleUnits(v: Vec3)
    ensures v.Scale(1.0) == v && v.Scale(0.0) == ZERO
  {}

  lemma InverseTimesApply(s: Transform, t: Transform, p: Vec3)
    ensures s.InverseTimes(t).Apply(p) == s.InvXform(t.Apply(p))
  {
    var m := s.basis.Transpose();
    MulTimes(m, t.basis, p);
    TMulIsTransposeMul(s.basis, t.origin.Sub(s.origin));
    TMulIsTransposeMul(s.basis, t.Apply(p).Sub(s.origin));
    MulAdd(m, t.basis.Mul(p), t.origin.Sub(s.origin));
    assert t.Apply(p).Sub(s.origin) == t.basis.Mul(p).Add(t.origin.Sub(s.origin));
  }

  lemma InverseTimesInvXform(s: Transform, t: Transform, q: Vec3)
    requires s.Rigid()
    ensures s.InverseTimes(t).InvXform(q) == t.InvXform(s.Apply(q))
  {
    var (a, d) := (s.basis, t.origin.Sub(s.origin));
    TMulTimes(a.Transpose(), t.basis, q.Sub(a.TMul(d)));
    TransposeTwice(a, q.Sub(a.TMul(d)));
    MulAdd(a, q, a.TMul(d));
    RigidBasis(s, d);
    assert s.Apply(q).Sub(t.origin) == a.Mul(q).Sub(d);
  }

  lemma RigidInverseTimes(s: Transform, t: Transform)
    requires s.Rigid() && t.Rigid()
    ensures s.InverseTimes(t).Rigid()
  {
    var r := s.InverseTimes(t);
    forall p
      ensures r.InvXform(r.Apply(p)) == p && r.Apply(r.InvXform(p)) == p
    {
      InverseTimesApply(s, t, p);
      InverseTimesInvXform(s, t, s.InvXform(t.Apply(p)));
      assert s.Apply(s.InvXform(t.Apply(p))) == t.Apply(p);
      assert t.InvXform(t.Apply(p)) == p;
      InverseTimesInvXform(s, t, p);
      InverseTimesApply(s, t, t.InvXform(s.Apply(p)));
      assert t.Apply(t.InvXform(s.Apply(p))) == s.Apply(p);
      assert s.InvXform(s.Apply(p)) == p;
    }
  }

  /** The swept delta puts the second placement where it belongs. */
  lemma DeltaReaches(s: Transform, t: Transform, p: Vec3)
    requires s.Rigid()
    ensures s.Times(s.InverseTimes(t)).Apply(p) == t.Apply(p)
  {
    ApplyTimes(s, s.InverseTimes(t), p);
    InverseTimesApply(s, t, p);
    assert s.Apply(s.InvXform(t.Apply(p))) == t.Apply(p);
  }

  lemma IdentityApply(p: Vec3)
    ensures IDENTITY.Apply(p) == p
  {
    calc {
      IDENTITY.Apply(p);
      IDENTITY_BASIS.Mul(p).Add(ZERO);
      { IdentityBasis(p); }
      p.Add(ZERO);
      p;
    }
  }

  /** Two affine maps agree on every point exactly when they are the same transform. */
  lemma SameMap(s: Transform, t: Transform)
    ensures (forall p :: s.Apply(p) == t.Apply(p)) <==> s == t
  {
    if forall p :: s.Apply(p) == t.Apply(p) {
      var (x, y, z) := (Vec3(1.0, 0.0, 0.0), Vec3(0.0, 1.0, 0.0), Vec3(0.0, 0.0, 1.0));
      hide Transform.Apply, Matrix3.Mul;
      assert s.Apply(ZERO) == t.Apply(ZERO) && s.Apply(x) == t.Apply(x);
      assert s.Apply(y) == t.Apply(y) && s.Apply(z) == t.Apply(z);
      Columns(s);
      Columns(t);
    }
  }

  /** A transform read off the images of the origin and the unit vectors. */
  lemma Columns(t: Transform)
    ensures t.Apply(ZERO) == t.origin
    ensures t.Apply(Vec3(1.0, 0.0, 0.0)) == Vec3(t.basis.r0.x, t.basis.r1.x, t.basis.r2.x).Add(t.origin)
    ensures t.Apply(Vec3(0.0, 1.0, 0.0)) == Vec3(t.basis.r0.y, t.basis.r1.y, t.basis.r2.y).Add(t.origin)
    ensures t.Apply(Vec3(0.0, 0.0, 1.0)) == Vec3(t.basis.r0.z, t.basis.r1.z, t.basis.r2.z).Add(t.origin)
  {
    hide Vec3.Dot;
    Coordinates(t.basis.r0);
    Coordinates(t.basis.r1);
    Coordinates(t.basis.r2);
  }

  lemma Coordinates(n: Vec3)
    ensures n.Dot(ZERO) == 0.0 && n.Dot(Vec3(1.0, 0.0, 0.0)) == n.x
    ensures n.Dot(Vec3(0.0, 1.0, 0.0)) == n.y && n.Dot(Vec3(0.0, 0.0, 1.0)) == n.z
  {}

  lemma IdentityRigid()
    ensures IDENTITY.Rigid()
  {
    IdentityOrthonormal();
    OrthonormalIsRigid(IDENTITY);
  }

  lemma IdentityBasis(p: Vec3)
    ensures IDENTITY_BASIS.Mul(p) == p
    ensures IDENTITY_BASIS.TMul(p) == p
  {
    UnitDot(p);
    TMulIsTransposeMul(IDENTITY_BASIS, p);
  }

  lemma IdentityOrthonormal()
    ensures IDENTITY_BASIS.Orthonormal()
  {
    assert IDENTITY_BASIS.Transpose() == IDENTITY_BASIS;
  }

  lemma UnitDot(p: Vec3)
    ensures Vec3(1.0, 0.0, 0.0).Dot(p) == p.x
    ensures Vec3(0.0, 1.0, 0.0).Dot(p) == p.y
    ensures Vec3(0.0, 0.0, 1.0).Dot(p) == p.z
  {}

  // ---- boxes -------------------------------------------------------------

  /** An axis-aligned box; also `btDbvtAabbMm`. */
  datatype Aabb = Aabb(mi: Vec3, mx: Vec3) {
    ghost predicate Has(p: Vec3) {
      && mi.x <= p.x <= mx.x && mi.y <= p.y <= mx.y && mi.z <= p.z <= mx.z
    }

    /** `DbvtVolume::contain`. */
    predicate Contain(a: Aabb) {
      && mi.x <= a.mi.x && mi.y <= a.mi.y && mi.z <= a.mi.z
      && mx.x >= a.mx.x && mx.y >= a.mx.y && mx.z >= a.mx.z
    }

    /** `intersect` and `test_aabb_against_aabb2`: touching counts. */
    predicate Intersect(b: Aabb) {
      && mi.x <= b.mx.x && mx.x >= b.mi.x
      && mi.y <= b.mx.y && mx.y >= b.mi.y
      && mi.z <= b.mx.z && mx.z >= b.mi.z
    }

    /** Grown by `d` on every face. */
    function Expand(d: real): Aabb {
      Aabb(mi.Sub(Vec3(d, d, d)), mx.Add(Vec3(d, d, d)))
    }

    /** `merge`: the smallest box around both. */
    function Merge(b: Aabb): Aabb {
      Aabb(Vec3(Min(mi.x, b.mi.x), Min(mi.y, b.mi.y), Min(mi.z, b.mi.z)),
           Vec3(Max(mx.x, b.mx.x), Max(mx.y, b.mx.y), Max(mx.z, b.mx.z)))
    }
  }

  function Min(a: real, b: real): real { if a < b then a else b }
  function Max(a: real, b: real): real { if a > b then a else b }

  /** `transform_aabb`: re-fit a box under a transform through the absolute basis. */
  function TransformAabb(box: Aabb, margin: real, t: Transform): Aabb {
    var half := box.mx.Sub(box.mi).Scale(0.5).Add(Vec3(margin, margin, margin));
    Around(t.Apply(box.mx.Add(box.mi).Scale(0.5)), half, t.basis)
  }

  function Around(center: Vec3, half: Vec3, m: Matrix3): Aabb {
    var extent := Vec3(AbsDot(m.r0, half), AbsDot(m.r1, half), AbsDot(m.r2, half));
    Aabb(center.Sub(extent), center.Add(extent))
  }

  function AbsDot(n: Vec3, h: Vec3): real { Abs(n.x) * h.x + Abs(n.y) * h.y + Abs(n.z) * h.z }

  lemma AbsMul(n: real, d: real, h: real)
    requires -h <= d <= h
    ensures -(Abs(n) * h) <= n * d <= Abs(n) * h
  {
    if n < 0.0 {
      MulMono(-n, d, h);
      MulMono(-n, -h, d);
    } else {
      MulMono(n, d, h);
      MulMono(n, -h, d);
    }
  }

  lemma MulMono(k: real, a: real, b: real)
    requires 0.0 <= k && a <= b
    ensures k * a <= k * b
  {}

  lemma RowBound(n: Vec3, d: Vec3, h: Vec3)
    requires -h.x <= d.x <= h.x && -h.y <= d.y <= h.y && -h.z <= d.z <= h.z
    ensures -AbsDot(n, h) <= n.Dot(d) <= AbsDot(n, h)
  {
    AbsMul(n.x, d.x, h.x);
    AbsMul(n.y, d.y, h.y);
    AbsMul(n.z, d.z, h.z);
  }

  /** Re-fitting never loses a point of the box, for any linear basis and a margin that does not shrink. */
  lemma RefitHas(box: Aabb, margin: real, t: Transform, p: Vec3)
    requires box.Has(p) && margin >= 0.0
    ensures TransformAabb(box, margin, t).Has(t.Apply(p))
  {
    var half := box.mx.Sub(box.mi).Scale(0.5).Add(Vec3(margin, margin, margin));
    var c := box.mx.Add(box.mi).Scale(0.5);
    RowBound(t.basis.r0, p.Sub(c), half);
    RowBound(t.basis.r1, p.Sub(c), half);
    RowBound(t.basis.r2, p.Sub(c), half);
    MulAdd(t.basis, p, c);
  }

  /** Re-fitting is monotone under containment. */
  lemma RefitMonotone(a: Aabb, b: Aabb, margin: real, t: Transform)
    requires b.Contain(a)
    ensures TransformAabb(b, margin, t).Contain(TransformAabb(a, margin, t))
  {
    var ha := a.mx.Sub(a.mi).Scale(0.5).Add(Vec3(margin, margin, margin));
    var hb := b.mx.Sub(b.mi).Scale(0.5).Add(Vec3(margin, margin, margin));
    var ca := a.mx.Add(a.mi).Scale(0.5);
    var cb := b.mx.Add(b.mi).Scale(0.5);
    MulAdd(t.basis, cb, ca);
    RefitRow(t.basis.r0, cb.Sub(ca), ha, hb);
    RefitRow(t.basis.r1, cb.Sub(ca), ha, hb);
    RefitRow(t.basis.r2, cb.Sub(ca), ha, hb);
  }

  lemma RefitRow(n: Vec3, d: Vec3, ha: Vec3, hb: Vec3)
    requires ha.x - hb.x <= d.x <= hb.x - ha.x
    requires ha.y - hb.y <= d.y <= hb.y - ha.y
    requires ha.z - hb.z <= d.z <= hb.z - ha.z
    ensures AbsDot(n, ha) - AbsDot(n, hb) <= n.Dot(d) <= AbsDot(n, hb) - AbsDot(n, ha)
  {
    RowBound(n, d, hb.Sub(ha));
    assert Abs(n.x) * (hb.x - ha.x) == Abs(n.x) * hb.x - Abs(n.x) * ha.x;
    assert Abs(n.y) * (hb.y - ha.y) == Abs(n.y) * hb.y - Abs(n.y) * ha.y;
    assert Abs(n.z) * (hb.z - ha.z) == Abs(n.z) * hb.z - Abs(n.z) * ha.z;
  }

  lemma SharedPointIntersects(a: Aabb, b: Aabb, p: Vec3)
    requires a.Has(p) && b.Has(p)
    ensures a.Intersect(b)
  {}

  lemma ContainIntersect(outer: Aabb, inner: Aabb, other: Aabb)
    requires outer.Contain(inner) && inner.Intersect(other)
    ensures outer.Intersect(other)
  {}
}
