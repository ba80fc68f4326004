/**
 Which way round vectors and points of the plane turn.
 */
module Plane {
  datatype Vec = Vec(x: int, y: int) {
    function Minus(v: Vec): Vec { Vec(x - v.x, y - v.y) }
  }

  /** Positive when `b` lies to the left of `a`. */
  function Cross(a: Vec, b: Vec): int { a.x * b.y - a.y * b.x }

  /** A linear function, given by its coefficients. */
  function Dot(f: Vec, a: Vec): int { f.x * a.x + f.y * a.y }

  /** Positive when `c` lies to the left of the line from `a` to `b`. */
  function Ccw(a: Vec, b: Vec, c: Vec): int { Cross(b.Minus(a), c.Minus(a)) }

  predicate LeftOf(a: Vec, b: Vec, c: Vec) { Ccw(a, b, c) > 0 }

  // ---- identities --------------------------------------------------------

  lemma CrossTurns(a: Vec, b: Vec)
    ensures Cross(a, b) == -Cross(b, a)
  {}

  lemma CcwTurns(a: Vec, b: Vec, c: Vec)
    ensures Ccw(a, b, c) == Ccw(b, c, a) == Ccw(c, a, b)
    ensures Ccw(a, c, b) == -Ccw(a, b, c)
  {}

  lemma DotMinus(f: Vec, a: Vec, b: Vec)
    ensures Dot(f, a.Minus(b)) == Dot(f, a) - Dot(f, b)
  {}

  /** Three vectors of the plane depend on each other, and so do the values of a linear function on them. */
  lemma ThreeVectors(a: Vec, b: Vec, c: Vec, f: Vec)
    ensures Cross(a, b) * Dot(f, c) + Cross(b, c) * Dot(f, a) + Cross(c, a) * Dot(f, b) == 0
  {
    Term(a, b, c, f.x, f.y);
  }

  lemma Term(a: Vec, b: Vec, c: Vec, u: int, v: int)
    ensures Cross(a, b) * (u * c.x + v * c.y) + Cross(b, c) * (u * a.x + v * a.y) + Cross(c, a) * (u * b.x + v * b.y) == 0
  {}

  /** The identity of Pluecker for four vectors. */
  lemma FourVectors(x: Vec, y: Vec, z: Vec, w: Vec)
    ensures Cross(x, z) * Cross(y, w) == Cross(x, y) * Cross(z, w) + Cross(x, w) * Cross(y, z)
  {}

  /** On parallel vectors two linear functions are in proportion. */
  lemma Parallel(a: Vec, b: Vec, f: Vec, h: Vec)
    requires Cross(a, b) == 0
    ensures Dot(f, a) * Dot(h, b) == Dot(f, b) * Dot(h, a)
  {
    assert Dot(f, a) * Dot(h, b) - Dot(f, b) * Dot(h, a) == Cross(f, h) * Cross(a, b);
  }

  lemma Product(a: int, b: int)
    ensures a > 0 && b > 0 ==> a * b > 0
    ensures a < 0 && b > 0 ==> a * b < 0
    ensures a > 0 && b < 0 ==> a * b < 0
    ensures a < 0 && b < 0 ==> a * b > 0
    ensures a == 0 || b == 0 ==> a * b == 0
  {}

  // ---- order by direction ------------------------------------------------

  /** Among vectors on the positive side of a linear function, turning left is transitive. */
  lemma Transitive(a: Vec, b: Vec, c: Vec, f: Vec)
    requires Dot(f, a) > 0 && Dot(f, b) > 0 && Dot(f, c) > 0 && Cross(a, b) >= 0 && Cross(b, c) >= 0
    ensures Cross(a, c) >= 0
    ensures Cross(a, c) == 0 ==> Cross(a, b) == 0 && Cross(b, c) == 0
  {
    hide Cross, Dot;
    ThreeVectors(a, b, c, f);
    CrossTurns(c, a);
    Product(Cross(a, b), Dot(f, c));
    Product(Cross(b, c), Dot(f, a));
    Product(Cross(c, a), Dot(f, b));
  }

  /** With `w` to the left of `y`, what lies between them both ways round. */
  lemma Between(x: Vec, y: Vec, z: Vec, w: Vec)
    requires Cross(y, w) > 0 && Cross(x, y) >= 0 && Cross(z, w) >= 0 && Cross(x, w) >= 0 && Cross(y, z) >= 0
    requires (Cross(x, y) > 0 && Cross(z, w) > 0) || (Cross(x, w) > 0 && Cross(y, z) > 0)
    ensures Cross(x, z) > 0
  {
    hide Cross;
    FourVectors(x, y, z, w);
    Product(Cross(x, y), Cross(z, w));
    Product(Cross(x, w), Cross(y, z));
    Product(Cross(x, z), Cross(y, w));
  }

  /** What lies strictly between two vectors lies to the left of everything they both lie to the left of. */
  lemma InFan(d: Vec, n: Vec, m: Vec, x: Vec)
    requires Cross(n, m) > 0 && Cross(n, x) > 0 && Cross(x, m) > 0
    requires Cross(d, n) >= 0 && Cross(d, m) >= 0 && (Cross(d, n) > 0 || Cross(d, m) > 0)
    ensures Cross(d, x) > 0
  {
    Between(d, n, x, m);
  }

  // ---- convex sequences of points ----------------------------------------

  /** Any three of the points, in order, turn left: corners of a convex polygon, none on a line with two others. */
  ghost predicate Convex(s: seq<Vec>) {
    forall i, j, k :: 0 <= i < j < k < |s| ==> LeftOf(s[i], s[j], s[k])
  }

  lemma ConvexTurned(s: seq<Vec>, r: nat)
    requires Convex(s) && r <= |s|
    ensures Convex(s[r..] + s[..r])
  {
    var t := s[r..] + s[..r];
    forall i, j, k | 0 <= i < j < k < |t| ensures LeftOf(t[i], t[j], t[k]) {
      var n := |s| - r;
      var (a, b, c) := (if i < n then i + r else i - n, if j < n then j + r else j - n, if k < n then k + r else k - n);
      assert t[i] == s[a] && t[j] == s[b] && t[k] == s[c];
      CcwTurns(s[a], s[b], s[c]);
      if k < n || n <= i {
        assert LeftOf(s[a], s[b], s[c]);
      } else if n <= j {
        assert LeftOf(s[b], s[c], s[a]);
      } else {
        assert LeftOf(s[c], s[a], s[b]);
      }
    }
  }

  // ---- two chains and two bridges ----------------------------------------

  /**
   A point `b` beyond both bridges' near ends sees the chord from `l` to `c` from
   its left. `e` and `g` are the far ends of the bridges that start at `c` and at
   `l`; nothing lies outside either bridge, and what lies on its line lies between
   its ends; `f` grows from the near side to the far side.
   */
  lemma AcrossChord(l: Vec, c: Vec, e: Vec, g: Vec, b: Vec, f: Vec)
    requires Dot(f, b.Minus(c)) > 0 && Dot(f, b.Minus(l)) > 0 && Dot(f, e.Minus(c)) > 0 && Dot(f, g.Minus(l)) > 0
    requires Ccw(c, e, b) >= 0 && Ccw(c, e, l) >= 0 && (Ccw(c, e, l) == 0 ==> Dot(f, l.Minus(c)) > 0)
    requires Ccw(g, l, b) >= 0 && Ccw(g, l, c) >= 0 && (Ccw(g, l, c) == 0 ==> Dot(f, c.Minus(l)) > 0)
    requires Dot(f, c.Minus(l)) != 0
    ensures Ccw(l, c, b) > 0
  {
    var (v, d, h) := (c.Minus(l), e.Minus(c), g.Minus(l));
    ChordTerms(l, c, e, g, b, f);
    hide Cross, Dot, Ccw, Vec.Minus;
    if Ccw(l, c, b) <= 0 {
      if Dot(f, v) > 0 {
        Transitive(v, d, b.Minus(c), f);
      } else {
        Transitive(l.Minus(c), b.Minus(l), h, f);
      }
    }
  }

  lemma ChordTerms(l: Vec, c: Vec, e: Vec, g: Vec, b: Vec, f: Vec)
    ensures Ccw(l, c, b) == Cross(c.Minus(l), b.Minus(c)) == -Cross(l.Minus(c), b.Minus(l))
    ensures Ccw(c, e, l) == Cross(c.Minus(l), e.Minus(c)) && Ccw(c, e, b) == Cross(e.Minus(c), b.Minus(c))
    ensures Ccw(g, l, c) == -Cross(l.Minus(c), g.Minus(l)) && Ccw(g, l, b) == Cross(b.Minus(l), g.Minus(l))
    ensures Dot(f, l.Minus(c)) == -Dot(f, c.Minus(l))
  {}

  /** Seen from one end of a chain, the order of the bridge, the point beyond, the other end and an inner point. */
  lemma LastSees(d: Vec, y: Vec, w: Vec, z: Vec, f: Vec)
    requires Cross(d, y) >= 0 && Cross(d, w) > 0 && Cross(y, w) > 0 && Cross(w, z) > 0
    requires Cross(d, z) >= 0 && (Cross(d, z) == 0 ==> Dot(f, z) > 0) && Dot(f, d) > 0 && Dot(f, w) != 0
    ensures Cross(y, z) > 0
  {
    hide Cross, Dot;
    CrossTurns(d, y);
    CrossTurns(y, z);
    CrossTurns(d, z);
    FourVectors(d, y, w, z);
    Product(Cross(d, w), Cross(y, z));
    Product(Cross(d, y), Cross(w, z));
    Product(Cross(d, z), Cross(y, w));
    if Cross(d, z) == 0 {
      ThreeVectors(d, w, z, f);
      Product(Cross(d, w), Dot(f, z));
      Product(Cross(w, z), Dot(f, d));
      Product(Cross(z, d), Dot(f, w));
      CrossTurns(z, d);
    }
  }

  /** The same from the other end, everything the other way round. */
  lemma FirstSees(d: Vec, y: Vec, w: Vec, z: Vec, f: Vec)
    requires Cross(y, d) >= 0 && Cross(w, d) > 0 && Cross(w, y) > 0 && Cross(z, w) > 0
    requires Cross(z, d) >= 0 && (Cross(z, d) == 0 ==> Dot(f, z) > 0) && Dot(f, d) > 0 && Dot(f, w) != 0
    ensures Cross(z, y) > 0
  {
    Swapped(y, d);
    Swapped(w, d);
    Swapped(w, y);
    Swapped(z, w);
    Swapped(z, d);
    Swapped(z, y);
    hide Cross;
    LastSees(Mirror(d), Mirror(y), Mirror(w), Mirror(z), Mirror(f));
  }

  function Mirror(a: Vec): Vec { Vec(a.y, a.x) }

  lemma Swapped(a: Vec, b: Vec)
    ensures Cross(Mirror(b), Mirror(a)) == Cross(a, b)
  {}

  /** Nothing of `s` lies outside the bridge from `c` to `e`, and what lies on its line lies towards `e`. */
  ghost predicate NearSide(s: seq<Vec>, c: Vec, e: Vec, sign: int, f: Vec) {
    forall i :: 0 <= i < |s| && s[i] != c ==>
      sign * Ccw(c, e, s[i]) >= 0 && (Ccw(c, e, s[i]) == 0 ==> Dot(f, s[i].Minus(c)) > 0)
  }

  /** `f` tells the points of `s` apart, and all of them lie before `b`. */
  ghost predicate Apart(s: seq<Vec>, f: Vec) { forall i, j :: 0 <= i < j < |s| ==> Dot(f, s[i].Minus(s[j])) != 0 }
  ghost predicate Precedes(s: seq<Vec>, b: Vec, f: Vec) { forall i :: 0 <= i < |s| ==> Dot(f, b.Minus(s[i])) > 0 }

  /** Bridges from the ends of a chain: `e` is the far end of the one that starts at its last point, `g` of the one that
      starts at its first; the far ends are outside neither bridge. */
  ghost predicate CutOff(s: seq<Vec>, e: Vec, g: Vec, f: Vec) {
    && |s| > 0 && Convex(s) && Apart(s, f) && Precedes(s, e, f) && Precedes(s, g, f)
    && NearSide(s, s[|s| - 1], e, 1, f) && NearSide(s, s[0], g, -1, f)
    && Ccw(s[|s| - 1], e, g) >= 0 && Ccw(s[0], g, e) <= 0
  }

  /** A point beyond the chain that is outside neither bridge. */
  ghost predicate Beyond(s: seq<Vec>, e: Vec, g: Vec, b: Vec, f: Vec)
    requires |s| > 0
  {
    Precedes(s, b, f) && Ccw(s[|s| - 1], e, b) >= 0 && Ccw(s[0], g, b) <= 0
  }

  lemma OwnEnds(s: seq<Vec>, e: Vec, g: Vec, f: Vec)
    requires CutOff(s, e, g, f)
    ensures Beyond(s, e, g, e, f) && Beyond(s, e, g, g, f)
  {}

  /** The chord between the ends turns left towards such a point. */
  lemma ChordSees(s: seq<Vec>, e: Vec, g: Vec, b: Vec, f: Vec)
    requires CutOff(s, e, g, f) && Beyond(s, e, g, b, f) && |s| > 1
    ensures LeftOf(s[0], s[|s| - 1], b)
  {
    hide Cross, Dot, Ccw, Vec.Minus, Convex;
    var (l, c) := (s[0], s[|s| - 1]);
    CcwTurns(l, g, b);
    CcwTurns(l, g, c);
    CcwTurns(g, l, b);
    CcwTurns(g, l, c);
    SwapDot(f, l, c);
    SameSpot(c, l, f);
    AcrossChord(l, c, e, g, b, f);
  }

  lemma SwapDot(f: Vec, a: Vec, b: Vec)
    ensures Dot(f, a.Minus(b)) == -Dot(f, b.Minus(a))
  {}

  lemma SameSpot(a: Vec, b: Vec, f: Vec)
    ensures Dot(f, a.Minus(b)) != 0 ==> a != b
  {}

  lemma FirstEndSees(s: seq<Vec>, e: Vec, g: Vec, b: Vec, f: Vec, j: nat)
    requires CutOff(s, e, g, f) && Beyond(s, e, g, b, f) && 0 < j < |s| - 1
    ensures LeftOf(s[0], s[j], b)
  {
    hide Cross, Dot, Vec.Minus, Convex;
    var (l, c) := (s[0], s[|s| - 1]);
    OwnEnds(s, e, g, f);
    ChordSees(s, e, g, b, f);
    ChordSees(s, e, g, g, f);
    LeftTriple(s, 0, j, |s| - 1);
    CcwTurns(l, g, b);
    CcwTurns(l, g, s[j]);
    SwapDot(f, l, c);
    SwapDot(f, l, s[j]);
    SameSpot(s[j], l, f);
    FirstSees(g.Minus(l), b.Minus(l), c.Minus(l), s[j].Minus(l), f);
  }

  lemma LastEndSees(s: seq<Vec>, e: Vec, g: Vec, b: Vec, f: Vec, i: nat)
    requires CutOff(s, e, g, f) && Beyond(s, e, g, b, f) && 0 < i < |s| - 1
    ensures LeftOf(s[i], s[|s| - 1], b)
  {
    hide Cross, Dot, Vec.Minus, Convex;
    var (l, c) := (s[0], s[|s| - 1]);
    OwnEnds(s, e, g, f);
    ChordSees(s, e, g, b, f);
    ChordSees(s, e, g, e, f);
    LeftTriple(s, 0, i, |s| - 1);
    CcwTurns(l, c, e);
    CcwTurns(l, c, b);
    CcwTurns(l, s[i], c);
    CcwTurns(c, b, s[i]);
    SameSpot(s[i], c, f);
    SwapDot(f, l, c);
    LastSees(e.Minus(c), b.Minus(c), l.Minus(c), s[i].Minus(c), f);
  }

  lemma LeftTriple(s: seq<Vec>, i: nat, j: nat, k: nat)
    requires Convex(s) && i < j < k < |s|
    ensures LeftOf(s[i], s[j], s[k])
  {}

  /** Cut off by two bridges, a chain turns left all along towards every point beyond that is outside neither. */
  lemma ChainSees(s: seq<Vec>, e: Vec, g: Vec, b: Vec, f: Vec, i: nat, j: nat)
    requires CutOff(s, e, g, f) && Beyond(s, e, g, b, f) && i < j < |s|
    ensures LeftOf(s[i], s[j], b)
  {
    hide Cross, Dot, Vec.Minus, Convex, CutOff, Beyond;
    var m := |s| - 1;
    if i == 0 && j == m {
      ChordSees(s, e, g, b, f);
    } else if i == 0 {
      FirstEndSees(s, e, g, b, f, j);
    } else if j == m {
      LastEndSees(s, e, g, b, f, i);
    } else {
      InnerSees(s, e, g, b, f, i, j);
    }
  }

  lemma InnerSees(s: seq<Vec>, e: Vec, g: Vec, b: Vec, f: Vec, i: nat, j: nat)
    requires CutOff(s, e, g, f) && Beyond(s, e, g, b, f) && 0 < i < j < |s| - 1
    ensures LeftOf(s[i], s[j], b)
  {
    var (l, o, c) := (s[0], s[i], s[|s| - 1]);
    FirstEndSees(s, e, g, b, f, i);
    LastEndSees(s, e, g, b, f, i);
    LeftTriple(s, 0, i, |s| - 1);
    LeftTriple(s, 0, i, j);
    LeftTriple(s, i, j, |s| - 1);
    hide Cross, Dot, Vec.Minus, Convex, CutOff, Beyond;
    CcwTurns(l, o, c);
    CcwTurns(l, o, b);
    CcwTurns(l, o, s[j]);
    Between(s[j].Minus(o), c.Minus(o), b.Minus(o), l.Minus(o));
  }

  /** The same for the far end: nothing of `s` lies outside, and what lies on the line lies towards `c`. */
  ghost predicate FarSide(s: seq<Vec>, c: Vec, e: Vec, sign: int, f: Vec) {
    forall i :: 0 <= i < |s| && s[i] != e ==>
      sign * Ccw(c, e, s[i]) >= 0 && (Ccw(c, e, s[i]) == 0 ==> Dot(f, e.Minus(s[i])) > 0)
  }

  /** Two chains, one before the other, with a bridge from the end of each to the start of the other. */
  ghost predicate Closing(s: seq<Vec>, t: seq<Vec>, f: Vec) {
    && |s| > 0 && |t| > 0 && Convex(s) && Convex(t) && Apart(s, f) && Apart(t, f)
    && (forall k :: 0 <= k < |t| ==> Precedes(s, t[k], f))
    && NearSide(s, s[|s| - 1], t[0], 1, f) && FarSide(t, s[|s| - 1], t[0], 1, f)
    && NearSide(s, s[0], t[|t| - 1], -1, f) && FarSide(t, s[0], t[|t| - 1], -1, f)
  }

  lemma OnOwnLine(a: Vec, b: Vec)
    ensures Ccw(a, b, b) == 0 && Ccw(a, b, a) == 0
  {}

  lemma ClosingBridged(s: seq<Vec>, t: seq<Vec>, f: Vec)
    requires Closing(s, t, f)
    ensures CutOff(s, t[0], t[|t| - 1], f)
  {
    OnOwnLine(s[|s| - 1], t[0]);
    OnOwnLine(s[0], t[|t| - 1]);
    hide Cross, Dot, Ccw, Vec.Minus, Convex, Apart;
    assert Precedes(s, t[0], f) && Precedes(s, t[|t| - 1], f);
  }

  /** A point of the far side that both bridges leave inside is beyond the near chain. */
  lemma FarIsBeyond(s: seq<Vec>, t: seq<Vec>, q: seq<Vec>, f: Vec, k: nat)
    requires Closing(s, t, f) && k < |q| && Precedes(s, q[k], f)
    requires FarSide(q, s[|s| - 1], t[0], 1, f) && FarSide(q, s[0], t[|t| - 1], -1, f)
    ensures Beyond(s, t[0], t[|t| - 1], q[k], f)
  {
    OnOwnLine(s[|s| - 1], t[0]);
    OnOwnLine(s[0], t[|t| - 1]);
    hide Cross, Dot, Ccw, Vec.Minus, Convex, Apart;
  }

  // ---- the picture upside down -------------------------------------------

  function Opposite(a: Vec): Vec { Vec(-a.x, -a.y) }
  function Turned(s: seq<Vec>): (r: seq<Vec>)
    ensures |r| == |s|
  {
    seq(|s|, i requires 0 <= i < |s| => Opposite(s[i]))
  }

  lemma TurnedTriple(a: Vec, b: Vec, c: Vec, f: Vec)
    ensures Ccw(Opposite(a), Opposite(b), Opposite(c)) == Ccw(a, b, c)
    ensures Dot(f, Opposite(a).Minus(Opposite(b))) == Dot(f, b.Minus(a))
    ensures Opposite(a) == Opposite(b) <==> a == b
    ensures Opposite(Opposite(a)) == a
  {}

  lemma TurnedSides(s: seq<Vec>, c: Vec, e: Vec, sign: int, f: Vec)
    ensures FarSide(s, c, e, sign, f) ==> NearSide(Turned(s), Opposite(e), Opposite(c), -sign, f)
    ensures NearSide(s, c, e, sign, f) ==> FarSide(Turned(s), Opposite(e), Opposite(c), -sign, f)
  {
    hide Cross, Dot, Ccw, Vec.Minus, Opposite;
    forall i | 0 <= i < |s|
      ensures Ccw(Opposite(e), Opposite(c), Turned(s)[i]) == -Ccw(c, e, s[i])
      ensures Dot(f, Turned(s)[i].Minus(Opposite(e))) == Dot(f, e.Minus(s[i]))
      ensures Dot(f, Opposite(c).Minus(Turned(s)[i])) == Dot(f, s[i].Minus(c))
      ensures (Turned(s)[i] == Opposite(e) <==> s[i] == e) && (Turned(s)[i] == Opposite(c) <==> s[i] == c)
      ensures -sign * -Ccw(c, e, s[i]) == sign * Ccw(c, e, s[i])
    {
      TurnedTriple(e, c, s[i], f);
      TurnedTriple(s[i], e, c, f);
      TurnedTriple(c, s[i], e, f);
      CcwTurns(e, c, s[i]);
      CcwTurns(c, e, s[i]);
    }
  }

  lemma TurnedClosing(s: seq<Vec>, t: seq<Vec>, f: Vec)
    requires Closing(s, t, f)
    ensures Closing(Turned(t), Turned(s), f)
  {
    TurnedSides(s, s[|s| - 1], t[0], 1, f);
    TurnedSides(t, s[|s| - 1], t[0], 1, f);
    TurnedSides(s, s[0], t[|t| - 1], -1, f);
    TurnedSides(t, s[0], t[|t| - 1], -1, f);
    TurnedConvex(s, f);
    TurnedConvex(t, f);
    hide Cross, Dot, Ccw, Vec.Minus, Convex, Apart, NearSide, FarSide, Opposite;
    forall i, k | 0 <= i < |t| && 0 <= k < |s| ensures Dot(f, Turned(s)[k].Minus(Turned(t)[i])) > 0 {
      TurnedTriple(s[k], t[i], t[i], f);
      assert Precedes(s, t[i], f);
    }
  }

  lemma TurnedConvex(s: seq<Vec>, f: Vec)
    ensures Convex(s) ==> Convex(Turned(s))
    ensures Apart(s, f) ==> Apart(Turned(s), f)
  {
    hide Cross, Dot, Ccw, Vec.Minus, Opposite;
    forall i, j, k | 0 <= i < j < k < |s| && Convex(s) ensures LeftOf(Turned(s)[i], Turned(s)[j], Turned(s)[k]) {
      assert LeftOf(s[i], s[j], s[k]);
      TurnedTriple(s[i], s[j], s[k], f);
    }
    forall i, j | 0 <= i < j < |s| && Apart(s, f) ensures Dot(f, Turned(s)[i].Minus(Turned(s)[j])) != 0 {
      TurnedTriple(s[i], s[j], s[j], f);
      SwapDot(f, s[i], s[j]);
    }
  }

  /** The far chain turns left all along towards the points of the near side. */
  lemma FarChainSees(s: seq<Vec>, t: seq<Vec>, p: seq<Vec>, f: Vec, i: nat, j: nat, k: nat)
    requires Closing(s, t, f) && i < j < |t| && k < |p| && forall l :: 0 <= l < |t| ==> Precedes(p, t[l], f)
    requires NearSide(p, s[|s| - 1], t[0], 1, f) && NearSide(p, s[0], t[|t| - 1], -1, f)
    ensures LeftOf(t[i], t[j], p[k])
  {
    hide Cross, Dot, Ccw, Vec.Minus, Closing, NearSide, FarSide, Opposite, CutOff, Beyond;
    TurnedClosing(s, t, f);
    ClosingEnds(s, t, f);
    ClosingEnds(Turned(t), Turned(s), f);
    var (s', t', p') := (Turned(t), Turned(s), Turned(p));
    TurnedSides(p, s[|s| - 1], t[0], 1, f);
    TurnedSides(p, s[0], t[|t| - 1], -1, f);
    forall l | 0 <= l < |s'| ensures Dot(f, p'[k].Minus(s'[l])) > 0 {
      TurnedTriple(p[k], t[l], t[l], f);
      assert Precedes(p, t[l], f);
    }
    ClosingBridged(s', t', f);
    FarIsBeyond(s', t', p', f, k);
    ChainSees(s', t'[0], t'[|t'| - 1], p'[k], f, i, j);
    TurnedTriple(t[i], t[j], p[k], f);
  }

  lemma ClosingEnds(s: seq<Vec>, t: seq<Vec>, f: Vec)
    requires Closing(s, t, f)
    ensures |s| > 0 && |t| > 0
  {}

  /** Closed by the two bridges, the two chains are one convex polygon. */
  lemma ClosedConvex(s: seq<Vec>, t: seq<Vec>, f: Vec)
    requires Closing(s, t, f)
    ensures Convex(s + t)
  {
    hide LeftOf, Closing;
    var r := s + t;
    forall i, j, k | 0 <= i < j < k < |r| ensures LeftOf(r[i], r[j], r[k]) {
      ClosedTriple(s, t, f, i, j, k);
    }
  }

  lemma ClosedTriple(s: seq<Vec>, t: seq<Vec>, f: Vec, i: nat, j: nat, k: nat)
    requires Closing(s, t, f) && i < j < k < |s| + |t|
    ensures LeftOf((s + t)[i], (s + t)[j], (s + t)[k])
  {
    ClosingParts(s, t, f);
    hide Closing, Convex, LeftOf, NearSide, FarSide, Precedes;
    var m := |s|;
    if k < m {
      LeftTriple(s, i, j, k);
    } else if m <= i {
      LeftTriple(t, i - m, j - m, k - m);
    } else if j < m {
      TwoNear(s, t, f, i, j, k - m);
    } else {
      TwoFar(s, t, f, i, j - m, k - m);
    }
  }

  lemma TwoNear(s: seq<Vec>, t: seq<Vec>, f: Vec, i: nat, j: nat, k: nat)
    requires Closing(s, t, f) && i < j < |s| && k < |t|
    ensures LeftOf(s[i], s[j], t[k])
  {
    ClosingParts(s, t, f);
    hide Closing, Convex, LeftOf, NearSide, FarSide, Precedes, CutOff, Beyond;
    ClosingBridged(s, t, f);
    FarIsBeyond(s, t, t, f, k);
    ChainSees(s, t[0], t[|t| - 1], t[k], f, i, j);
  }

  lemma TwoFar(s: seq<Vec>, t: seq<Vec>, f: Vec, i: nat, j: nat, k: nat)
    requires Closing(s, t, f) && i < |s| && j < k < |t|
    ensures LeftOf(s[i], t[j], t[k])
  {
    ClosingParts(s, t, f);
    hide Closing, Convex, Ccw, NearSide, FarSide, Precedes;
    FarChainSees(s, t, s, f, j, k, i);
    CcwTurns(s[i], t[j], t[k]);
  }

  lemma ClosingParts(s: seq<Vec>, t: seq<Vec>, f: Vec)
    requires Closing(s, t, f)
    ensures |s| > 0 && |t| > 0 && Convex(s) && Convex(t) && forall k :: 0 <= k < |t| ==> Precedes(s, t[k], f)
    ensures NearSide(s, s[|s| - 1], t[0], 1, f) && FarSide(t, s[|s| - 1], t[0], 1, f)
    ensures NearSide(s, s[0], t[|t| - 1], -1, f) && FarSide(t, s[0], t[|t| - 1], -1, f)
  {}

  // ---- a corner cut off is no extreme ------------------------------------

  /**
   A point inside both bridges and the two chords between their ends is not the
   only highest point of a linear function among the four ends.
   */
  lemma CutOffIsLower(x: Vec, l: Vec, c: Vec, e: Vec, g: Vec, f: Vec, h: Vec)
    requires Ccw(c, e, x) >= 0 && (Ccw(c, e, x) == 0 ==> Dot(f, x.Minus(c)) > 0) && Dot(f, e.Minus(x)) > 0
    requires Ccw(g, l, x) >= 0 && (l == c || Ccw(l, c, x) > 0) && (e == g || Ccw(e, g, x) > 0)
    ensures Dot(h, x.Minus(l)) <= 0 || Dot(h, x.Minus(c)) <= 0 || Dot(h, x.Minus(e)) <= 0 || Dot(h, x.Minus(g)) <= 0
  {
    var h' := Opposite(h);
    var (a, b, d, o) := (c.Minus(x), e.Minus(x), g.Minus(x), l.Minus(x));
    CcwTurns(x, c, e);
    CcwTurns(x, g, l);
    CcwTurns(x, l, c);
    CcwTurns(x, e, g);
    OppositeDot(h, x, c);
    OppositeDot(h, x, e);
    OppositeDot(h, x, g);
    OppositeDot(h, x, l);
    SelfCross(b);
    SwapDot(f, x, c);
    hide Cross, Dot, Vec.Minus, Opposite;
    CrossTurns(o, a);
    CrossTurns(d, a);
    if Dot(h, x.Minus(l)) > 0 && Dot(h, x.Minus(c)) > 0 && Dot(h, x.Minus(e)) > 0 && Dot(h, x.Minus(g)) > 0 {
      Transitive(a, b, d, h');
      Transitive(a, d, o, h');
      Parallels(a, b, f, h');
      Product(Dot(f, a), Dot(h', b));
      Product(Dot(f, b), Dot(h', a));
    }
  }

  lemma Parallels(a: Vec, b: Vec, f: Vec, h: Vec)
    ensures Cross(a, b) == 0 ==> Dot(f, a) * Dot(h, b) == Dot(f, b) * Dot(h, a)
  {
    if Cross(a, b) == 0 { Parallel(a, b, f, h); }
  }

  lemma OppositeDot(h: Vec, x: Vec, a: Vec)
    ensures Dot(Opposite(h), a.Minus(x)) == Dot(h, x.Minus(a))
  {}

  lemma SelfCross(a: Vec)
    ensures Cross(a, a) == 0
  {}

  // ---- one end of a bridge against a polygon ------------------------------

  /** `m` does not lie level with or below and behind, on or outside the line along `d`. */
  predicate NotFallen(d: Vec, m: Vec) { !(m.y <= 0 && (m.x == 0 || (m.x < 0 && Cross(d, m) <= 0))) }

  predicate Rightward(d: Vec) { d.x > 0 && d.y >= 0 }

  lemma Coordinates(a: Vec, b: Vec, c: Vec)
    ensures Cross(a, b) * c.x + Cross(b, c) * a.x + Cross(c, a) * b.x == 0
    ensures Cross(a, b) * c.y + Cross(b, c) * a.y + Cross(c, a) * b.y == 0
  {
    ThreeVectors(a, b, c, Vec(1, 0));
    ThreeVectors(a, b, c, Vec(0, 1));
  }

  /** From the rightmost corner: a neighbour that has not fallen is inside. */
  lemma StartInside(d: Vec, m: Vec)
    requires Rightward(d) && m.x <= 0 && NotFallen(d, m)
    ensures Cross(d, m) > 0
  {
    Product(d.x, m.y);
    Product(d.y, m.x);
  }

  /** and so is the neighbour on its other hand. */
  lemma StartOther(d: Vec, n: Vec, m: Vec)
    requires Rightward(d) && m.x <= 0 && n.x <= 0 && Cross(n, m) > 0 && Cross(d, m) >= 0
    ensures Cross(d, n) > 0
  {
    Coordinates(n, m, d);
    CrossTurns(d, m);
    hide Cross;
    Product(Cross(n, m), d.x);
    Signs(Cross(d, n), m.x);
    Signs(Cross(m, d), n.x);
  }

  lemma Signs(a: int, b: int)
    ensures a <= 0 && b <= 0 ==> a * b >= 0
    ensures a >= 0 && b <= 0 ==> a * b <= 0
    ensures a >= 0 && b >= 0 ==> a * b >= 0
    ensures a <= 0 && b >= 0 ==> a * b <= 0
  {}

  /** After a step: the corner left behind is up and ahead of `u`, on or inside the line; then so is the one in front. */
  lemma MovedInside(d: Vec, n: Vec, m: Vec)
    requires Rightward(d) && n.x >= 0 && n.y >= 0 && Cross(d, n) >= 0 && Cross(n, m) > 0 && NotFallen(d, m)
    ensures Cross(d, m) > 0
  {
    if Cross(d, m) <= 0 { OutsideFalls(d, n, m); }
  }

  lemma OutsideFalls(d: Vec, n: Vec, m: Vec)
    requires Rightward(d) && n.x >= 0 && n.y >= 0 && Cross(d, n) >= 0 && Cross(n, m) > 0 && Cross(d, m) <= 0
    ensures m.x < 0 && m.y <= 0 && (Cross(d, m) < 0 ==> m.y < 0)
  {
    if m.x < 0 && m.y == 0 { Level(d, m); }
    Coordinates(n, m, d);
    CrossTurns(d, m);
    hide Cross;
    Product(Cross(n, m), d.x);
    Signs(Cross(n, m), d.y);
    Signs(Cross(m, d), n.x);
    Signs(Cross(m, d), n.y);
    Product(Cross(d, n), m.x);
    Product(Cross(d, n), m.y);
    Signs(Cross(d, n), m.x);
  }

  lemma Level(d: Vec, m: Vec)
    requires Rightward(d) && m.x < 0 && m.y == 0
    ensures Cross(d, m) >= 0
  {
    Signs(d.y, m.x);
  }

  /** At the far end: what has not fallen ahead of the near end, and is not below it, is not outside. */
  lemma AheadInside(d: Vec, m: Vec)
    requires Rightward(d) && m.x <= 0 && d.y + m.y >= 0
    requires !(d.x + m.x > 0 && m.y < 0 && (m.x == 0 || (m.x < 0 && Cross(d, m) < 0)))
    ensures Cross(d, m) >= 0
  {
    Product(d.x, m.y);
    Signs(d.x, m.y);
    Signs(d.y, m.x);
    if d.x + m.x <= 0 {
      Signs(d.x, d.y + m.y);
      Signs(d.y, d.x + m.x);
    }
  }

  /** Once the near end has settled on a steeper line, the corner the far end came from is still inside. */
  lemma CameFromInside(a: Vec, b: Vec, u: Vec, v: Vec)
    requires Ccw(a, b, v) < 0 && Ccw(a, b, u) >= 0 && Ccw(u, v, a) >= 0
    ensures Ccw(u, v, b) > 0
  {
    assert Ccw(u, v, b) == -Ccw(a, b, v) + Ccw(a, b, u) + Ccw(u, v, a);
  }

  /** `x` is one of two neighbours or between them. */
  predicate AmongFan(n: Vec, m: Vec, x: Vec) {
    (x == n && x == m) || (Cross(n, m) > 0 && (x == n || x == m || (Cross(n, x) > 0 && Cross(x, m) > 0)))
  }

  /** All of a polygon as a near end sees it that need not move on. */
  lemma NearVector(d: Vec, n: Vec, m: Vec, x: Vec, first: bool)
    requires Rightward(d) && NotFallen(d, m) && AmongFan(n, m, x) && n != Vec(0, 0)
    requires if first then n.x <= 0 && m.x <= 0 else n.x >= 0 && n.y >= 0 && Cross(d, n) >= 0
    ensures Cross(d, x) >= 0 && (Cross(d, x) == 0 ==> x.x > 0)
  {
    if !first && Cross(d, n) == 0 { OnLineAhead(d, n); }
    if first { StartInside(d, m); }
    hide Cross, Rightward, NotFallen;
    if Cross(n, m) > 0 {
      if first { StartOther(d, n, m); } else { MovedInside(d, n, m); }
      if x != n && x != m { InFan(d, n, m, x); }
    }
  }

  lemma OnLineAhead(d: Vec, n: Vec)
    requires Rightward(d) && n.x >= 0 && n.y >= 0 && n != Vec(0, 0) && Cross(d, n) == 0
    ensures n.x > 0
  {
    if n.x == 0 { Product(d.x, n.y); }
  }

  /** The test of the far end, which also asks that the step stays ahead of the near end. */
  predicate Steps(d: Vec, m: Vec) { d.x + m.x > 0 && m.y < 0 && (m.x == 0 || (m.x < 0 && Cross(d, m) < 0)) }

  /** All of a polygon as a far end sees it that need not move on; all of it is level with or above the near end. */
  lemma FarVector(d: Vec, n: Vec, m: Vec, x: Vec, first: bool)
    requires Rightward(d) && !Steps(d, m) && d.y + m.y >= 0 && AmongFan(n, m, x) && m != Vec(0, 0)
    requires if first then n.x <= 0 && m.x <= 0 else n.x >= 0 && n.y >= 0 && Cross(d, n) > 0
    ensures Cross(d, x) >= 0 && (Cross(d, x) == 0 ==> x.x < 0)
  {
    FarInner(d, n, m, first);
    if Cross(d, m) == 0 && m.x == 0 { Product(d.x, m.y); }
    hide Cross, Rightward;
    if x != n && x != m { InFan(d, n, m, x); }
  }

  lemma FarInner(d: Vec, n: Vec, m: Vec, first: bool)
    requires Rightward(d) && !Steps(d, m) && d.y + m.y >= 0 && (n == m || Cross(n, m) > 0)
    requires if first then n.x <= 0 && m.x <= 0 else n.x >= 0 && n.y >= 0 && Cross(d, n) > 0
    ensures Cross(d, m) >= 0 && (Cross(d, m) == 0 ==> m.x <= 0)
    ensures n == m || Cross(d, n) > 0
  {
    if first {
      AheadInside(d, m);
      if n != m { StartOther(d, n, m); }
    } else if n != m && Cross(d, m) <= 0 {
      OutsideFalls(d, n, m);
      AheadInside(d, m);
    }
  }
}
