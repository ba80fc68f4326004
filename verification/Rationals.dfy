/**
 The exact rational comparisons that decide the hull
 (crates/cspace-bullet/src/convex_hull_computer.rs:342-507).
 */
module Rationals {
  import opened Int128

  function Sgn(x: int): int { if x < 0 then -1 else if x > 0 then 1 else 0 }
  function Mag(x: int): nat { if x < 0 then -x else x }

  // ---- 64 bits -----------------------------------------------------------

  datatype Rational64 = Rational64(numerator: U64, denominator: U64, sign: int)
  {
    predicate IsNegativeInfinity() { sign < 0 && denominator == 0 }
    predicate IsPositiveInfinity() { sign > 0 && denominator == 0 }
    predicate IsNan() { sign == 0 && denominator == 0 }

    /** A sign of its own, zero exactly with the numerator. */
    predicate Formed() { -1 <= sign <= 1 && (sign == 0 <==> numerator == 0) }
  }

  function NewRational64(n: I64, d: I64): (r: Rational64)
    ensures r.Formed()
  {
    Rational64(Mag(n), Mag(d), if d < 0 then -Sgn(n) else Sgn(n))
  }

  function Compare64(a: Rational64, b: Rational64): int {
    if a.sign != b.sign then a.sign - b.sign
    else if a.sign == 0 then 0
    else a.sign * Ucmp(MulU64(a.numerator, b.denominator), MulU64(a.denominator, b.numerator))
  }

  /** With finite values the comparison is the sign of the difference of the two fractions. */
  lemma Compare64Exact(n: I64, d: I64, m: I64, e: I64)
    requires d != 0 && e != 0
    ensures Sgn(Compare64(NewRational64(n, d), NewRational64(m, e))) == Sgn(n * e - m * d) * Sgn(d) * Sgn(e)
  {
    var (a, b) := (NewRational64(n, d), NewRational64(m, e));
    MagProduct(n, e);
    MagProduct(m, d);
    Commute(Mag(d), Mag(m));
    if a.sign == b.sign != 0 {
    } else {
      SgnProduct(n, e);
      SgnProduct(m, d);
    }
  }

  lemma Commute(a: int, b: int)
    ensures a * b == b * a
  {}

  lemma MagProduct(x: int, y: int)
    ensures Mag(x) * Mag(y) == Mag(x * y)
    ensures Sgn(x * y) == Sgn(x) * Sgn(y)
  {
    assert (-x) * y == -(x * y) && x * (-y) == -(x * y) && (-x) * (-y) == x * y;
    SgnProduct(x, y);
  }

  lemma SgnProduct(x: int, y: int)
    ensures Sgn(x * y) == Sgn(x) * Sgn(y)
  {
    if x > 0 && y > 0 { PositiveProduct(x, y); }
    if x > 0 && y < 0 { PositiveProduct(x, -y); }
    if x < 0 && y > 0 { PositiveProduct(-x, y); }
    if x < 0 && y < 0 { PositiveProduct(-x, -y); }
  }

  lemma PositiveProduct(x: int, y: int)
    requires x > 0 && y > 0
    ensures x * y > 0
    ensures (-x) * y == -(x * y) && x * (-y) == -(x * y) && (-x) * (-y) == x * y
  {}

  /** Exchanging the operands reverses the answer, so any two values are comparable. */
  lemma Compare64Reversed(a: Rational64, b: Rational64)
    requires a.Formed() && b.Formed()
    ensures Compare64(b, a) == -Compare64(a, b)
  {
    Commute(a.numerator, b.denominator);
    Commute(a.denominator, b.numerator);
  }

  lemma CrossTransitive(n: nat, d: nat, m: nat, e: nat, k: nat, f: nat)
    requires m > 0 && n * e <= d * m && m * f <= e * k
    ensures n * f <= d * k
  {
    if e == 0 {
      assert m * f <= 0;
      if f > 0 { PositiveProduct(m, f); }
    } else {
      // Multiply by e > 0 and chain through m.
      Monotone(f, n * e, d * m);
      Monotone(d, m * f, e * k);
      assert f * (n * e) == e * (n * f);
      assert f * (d * m) == d * (m * f);
      assert d * (e * k) == e * (d * k);
      Cancel(e, n * f, d * k);
    }
  }

  lemma Cancel(e: int, a: int, b: int)
    requires e > 0 && e * a <= e * b
    ensures a <= b
  {
    if b + 1 <= a {
      Monotone(e, b + 1, a);
    }
  }

  /** The comparison is transitive on everything the constructor builds, infinities and 0/0 included. */
  lemma Compare64Transitive(a: Rational64, b: Rational64, c: Rational64)
    requires a.Formed() && b.Formed() && c.Formed()
    requires Compare64(a, b) <= 0 && Compare64(b, c) <= 0
    ensures Compare64(a, c) <= 0
  {
    if a.sign == b.sign == c.sign == 1 {
      CrossTransitive(a.numerator, a.denominator, b.numerator, b.denominator, c.numerator, c.denominator);
    }
    if a.sign == b.sign == c.sign == -1 {
      Flip(a, b);
      Flip(b, c);
      CrossTransitive(c.numerator, c.denominator, b.numerator, b.denominator, a.numerator, a.denominator);
      Flip(a, c);
    }
  }

  /** Between negative values the magnitudes compare the other way. */
  lemma Flip(a: Rational64, b: Rational64)
    requires a.Formed() && b.Formed() && a.sign == b.sign == -1
    ensures Compare64(a, b) <= 0 <==> b.numerator * a.denominator <= b.denominator * a.numerator
  {
    Commute(a.numerator, b.denominator);
    Commute(a.denominator, b.numerator);
  }

  /** Over zero: nothing over it is no number, anything else is the infinity of its sign. */
  lemma OverZero(n: I64, d: I64)
    ensures var r := NewRational64(n, d);
            && (r.IsNan() <==> n == 0 && d == 0)
            && (r.IsPositiveInfinity() <==> n > 0 && d == 0)
            && (r.IsNegativeInfinity() <==> n < 0 && d == 0)
  {}

  /** The two infinities bound everything, strictly unless it is the same infinity. */
  lemma InfinitiesBound(a: Rational64, inf: Rational64)
    requires a.Formed() && inf.Formed()
    ensures inf.IsPositiveInfinity() ==>
      Compare64(a, inf) <= 0 && (Compare64(a, inf) == 0 <==> a.IsPositiveInfinity())
    ensures inf.IsNegativeInfinity() ==>
      Compare64(a, inf) >= 0 && (Compare64(a, inf) == 0 <==> a.IsNegativeInfinity())
  {
    if a.sign == inf.sign != 0 && inf.denominator == 0 {
      assert a.numerator * inf.denominator == 0;
      if a.denominator > 0 { PositiveProduct(a.denominator, inf.numerator); }
    }
  }

  // ---- 128 bits ----------------------------------------------------------

  datatype Rational128 = Rational128(numerator: U128, denominator: U128, sign: int, isInt64: bool)
  {
    function Num(): int { sign * numerator }

    predicate Formed() {
      && -1 <= sign <= 1 && (sign == 0 <==> numerator == 0) && denominator > 0
      && (isInt64 ==> denominator == 1 && numerator < P63)
    }
  }

  /** Two's-complement wrap to 64 bits. */
  function WrapI64(x: int): I64 { (x + P63) % P64 - P63 }

  function FromInteger(v: I64): Rational128 {
    Rational128(FromI64(if v > 0 then v else if v < 0 then WrapI64(-(v as int)) else 0), 1, Sgn(v), true)
  }

  function FromRatio(n: U128, d: U128): Rational128 {
    var sign := GetSign(n);
    var num := if sign >= 0 then n else Neg(n);
    if GetSign(d) >= 0 then Rational128(num, d, sign, false) else Rational128(num, Neg(d), -sign, false)
  }

  /** An integer keeps its value; only the least one does not have its magnitude. */
  lemma FromIntegerExact(v: I64)
    requires v > -P63
    ensures FromInteger(v).Formed() && FromInteger(v).isInt64
    ensures FromInteger(v).Num() == v && FromInteger(v).denominator == 1
  {}

  /** A ratio of two patterns keeps the value of its two's-complement reading, and over zero its sign. */
  lemma FromRatioExact(n: U128, d: U128)
    ensures d != 0 ==> FromRatio(n, d).Formed()
    ensures FromRatio(n, d).sign == (if d == 0 then Sgn(Signed(n)) else Sgn(Signed(n)) * Sgn(Signed(d)))
    ensures FromRatio(n, d).Num() * Signed(d) == Signed(n) * FromRatio(n, d).denominator
    ensures FromRatio(n, d).denominator == Mag(Signed(d))
  {
    var r := FromRatio(n, d);
    assert r.numerator == Mag(Signed(n));
    if d >= P127 {
      assert r.Num() == -Signed(n);
      assert (-Signed(n)) * Signed(d) == Signed(n) * (-Signed(d));
    }
  }

  function CompareI64(r: Rational128, b: I64): int {
    if r.isInt64 then
      var low := Low(r.numerator);
      Ucmp(WrapI64(r.sign * (if low >= P63 then low - P64 else low)), b)
    else if b == 0 then r.sign
    else if b > 0 && r.sign <= 0 then -1
    else if b < 0 && r.sign >= 0 then 1
    else
      var b := if b > 0 then b else WrapI64(-(b as int));
      Ucmp(r.numerator, MulByI64(r.denominator, b)) * r.sign
  }

  function Compare(a: Rational128, b: Rational128): int {
    if a.sign != b.sign then a.sign - b.sign
    else if a.sign == 0 then 0
    else if a.isInt64 then
      var low := Low(a.numerator);
      -CompareI64(b, WrapI64(a.sign * (if low >= P63 then low - P64 else low)))
    else
      var (nbdLow, nbdHigh) := DmulU128(a.numerator, b.denominator);
      var (dbnLow, dbnHigh) := DmulU128(a.denominator, b.numerator);
      var cmp := Ucmp(nbdHigh, dbnHigh);
      if cmp != 0 then cmp * a.sign else Ucmp(nbdLow, dbnLow) * a.sign
  }

  /** High half first, then low half: the order of the 256-bit products. */
  lemma HalvesOrder(a: U128, b: U128, c: U128, d: U128)
    ensures var (low, high) := DmulU128(a, b);
            var (low', high') := DmulU128(c, d);
            (if Ucmp(high, high') != 0 then Ucmp(high, high') else Ucmp(low, low')) == Ucmp(a * b, c * d)
  {
    DmulIsExact(a, b);
    DmulIsExact(c, d);
  }

  lemma IntegerReading(r: Rational128)
    requires r.Formed() && r.isInt64
    ensures var low := Low(r.numerator);
            WrapI64(r.sign * (if low >= P63 then low - P64 else low)) == r.Num()
  {}

  /** Where the multiplication by the denominator is exact, comparing with an integer is the sign of the difference. */
  lemma CompareI64Exact(r: Rational128, b: I64)
    requires r.Formed() && (r.isInt64 || b > -P63)
    requires !r.isInt64 && r.sign == Sgn(b) != 0 ==> r.denominator < P127 && r.denominator * Mag(b) < P128
    ensures CompareI64(r, b) == Sgn(r.Num() - b * r.denominator)
  {
    if r.isInt64 {
      IntegerReading(r);
    } else if r.sign == Sgn(b) != 0 {
      MulByExact(r.denominator, Mag(b));
      assert b * r.denominator == r.sign * (r.denominator * Mag(b)) by { SignedProduct(r.denominator, b); }
    } else {
      SgnProduct(b, r.denominator);
    }
  }

  lemma SignedProduct(d: int, b: int)
    ensures b * d == Sgn(b) * (d * Mag(b))
  {
    assert b < 0 ==> b * d == -(d * Mag(b));
  }

  lemma MulByExact(d: U128, k: nat)
    requires d < P127 && d * k < P128
    ensures MulByI64(d, k) == d * k
  {}

  /** When the product does wrap, the answer is right exactly if the wrapped product still exceeds the numerator. */
  lemma CompareI64WrapsExactly(r: Rational128, b: I64)
    requires r.Formed() && !r.isInt64 && b > -P63 && r.sign == Sgn(b) != 0 && r.denominator < P127
    ensures CompareI64(r, b) == Sgn(r.Num() - b * r.denominator)
            <==> r.denominator * Mag(b) < P128 || r.numerator < (r.denominator * Mag(b)) % P128
  {
    if r.denominator * Mag(b) < P128 {
      CompareI64Exact(r, b);
    } else {
      assert b * r.denominator == r.sign * (r.denominator * Mag(b)) by { SignedProduct(r.denominator, b); }
    }
  }

  /**
   The comparison of two rationals is the sign of the exact difference, for
   every mix of integers and ratios whose integer side meets a denominator it
   can be multiplied by.
   */
  lemma CompareExact(a: Rational128, b: Rational128)
    requires a.Formed() && b.Formed()
    requires a.isInt64 && !b.isInt64 && a.sign == b.sign != 0 ==>
      b.denominator < P127 && b.denominator * a.numerator < P128
    ensures Sgn(Compare(a, b)) == Sgn(a.Num() * b.denominator - b.Num() * a.denominator)
  {
    NumSign(a);
    NumSign(b);
    if a.sign != b.sign {
      SgnProduct(a.Num(), b.denominator);
      SgnProduct(b.Num(), a.denominator);
    } else if a.sign == 0 {
    } else if a.isInt64 {
      IntegerReading(a);
      CompareI64Exact(b, a.Num());
    } else {
      RatioCompares(a, b);
    }
  }

  lemma RatioCompares(a: Rational128, b: Rational128)
    requires a.Formed() && b.Formed() && a.sign == b.sign != 0 && !a.isInt64
    ensures Sgn(Compare(a, b)) == Sgn(a.Num() * b.denominator - b.Num() * a.denominator)
  {
    hide DmulU128;
    var (x, y) := (a.numerator * b.denominator, a.denominator * b.numerator);
    HalvesOrder(a.numerator, b.denominator, a.denominator, b.numerator);
    Commute(a.denominator, b.numerator);
    Factor(a.sign, a.numerator, b.denominator);
    Factor(b.sign, b.numerator, a.denominator);
    assert Compare(a, b) == Ucmp(x, y) * a.sign;
    assert a.Num() * b.denominator - b.Num() * a.denominator == a.sign * x - a.sign * y;
  }

  lemma NumSign(r: Rational128)
    requires r.Formed()
    ensures Sgn(r.Num()) == r.sign && Mag(r.Num()) == r.numerator
  {}

  lemma Factor(s: int, x: int, y: int)
    requires -1 <= s <= 1
    ensures (s * x) * y == s * (x * y)
  {}
}
