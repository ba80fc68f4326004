/**
 128-bit modular arithmetic and the exact double-width product
 (crates/cspace-bullet/src/convex_hull_computer.rs:160-330).
 */
module Int128 {

  const P63 := 0x8000_0000_0000_0000
  const P64 := 0x1_0000_0000_0000_0000
  const P127 := 0x8000_0000_0000_0000_0000_0000_0000_0000
  const P128 := 0x1_0000_0000_0000_0000_0000_0000_0000_0000

  type U64 = x: int | 0 <= x < P64
  type I64 = x: int | -P63 <= x < P63
  type U128 = x: int | 0 <= x < P128

  function Low(a: U128): U64 { a % P64 }
  function High(a: U128): U64 { a / P64 }

  /** The two's-complement pattern of an integer. */
  function Pattern(x: int): U128 { x % P128 }

  /** The two's-complement reading of a pattern. */
  function Signed(a: U128): int { if a < P127 then a else a - P128 }

  function FromI64(v: I64): U128 { Pattern(v) }
  function Add(a: U128, b: U128): U128 { (a + b) % P128 }
  function Neg(a: U128): U128 { (P128 - a) % P128 }
  function Sub(a: U128, b: U128): U128 { Add(a, Neg(b)) }

  function GetSign(a: U128): int { if a >= P127 then -1 else if a != 0 then 1 else 0 }

  /** Three-way unsigned comparison. */
  function Ucmp(a: int, b: int): int { if a < b then -1 else if a == b then 0 else 1 }

  /** `mul_u64`: two 64-bit values never overflow 128 bits. */
  function MulU64(a: U64, b: U64): (r: U128)
    ensures r == a * b
  {
    ProductBelow(a, P64, b, P64);
    a * b
  }

  /** `mul_i64`: the signed product, as a pattern. */
  function MulI64(a: int, b: int): U128 { Pattern(a * b) }

  /** `mul_by_i64`: sign and magnitude, truncated to 128 bits. */
  function MulByI64(a: U128, b: int): U128 {
    var negative := a >= P127;
    var m := if negative then Neg(a) else a;
    var (negative', k) := if b < 0 then (!negative, -b) else (negative, b);
    var result := (m * k) % P128;
    if negative' then Neg(result) else result
  }

  lemma ProductBelow(a: int, m: int, b: int, n: int)
    requires 0 <= a < m && 0 <= b < n
    ensures 0 <= a * b <= (m - 1) * (n - 1)
  {
    assert a * b <= (m - 1) * b by { Monotone(b, a, m - 1); }
    assert (m - 1) * b <= (m - 1) * (n - 1) by { Monotone(m - 1, b, n - 1); }
  }

  lemma Monotone(k: int, a: int, b: int)
    requires 0 <= k && a <= b
    ensures k * a <= k * b && a * k <= b * k
  {}

  // ---- patterns form a ring ----------------------------------------------

  lemma AddPattern(x: int, y: int)
    ensures Add(Pattern(x), Pattern(y)) == Pattern(x + y)
  {}

  lemma NegPattern(x: int)
    ensures Neg(Pattern(x)) == Pattern(-x)
  {}

  lemma SubPattern(x: int, y: int)
    ensures Sub(Pattern(x), Pattern(y)) == Pattern(x - y)
  {
    NegPattern(y);
    AddPattern(x, -y);
  }

  /** A value and its pattern have the same products, as patterns. */
  lemma ProductPattern(x: int, k: int)
    ensures Pattern(Pattern(x) * k) == Pattern(x * k)
  {
    var q := x / P128;
    assert x == Pattern(x) + P128 * q;
    assert x * k == Pattern(x) * k + P128 * (q * k);
    var (y, z) := (Pattern(x) * k, q * k);
    assert (y + P128 * z) % P128 == y % P128;
  }

  /** The sign-and-magnitude product is the modular product of the pattern by the signed factor. */
  lemma MulByPattern(x: int, b: int)
    ensures MulByI64(Pattern(x), b) == Pattern(x * b)
  {
    var a := Pattern(x);
    var m := if a >= P127 then Neg(a) else a;
    var k := if b < 0 then -b else b;
    ProductPattern(x, b);
    ProductPattern(-x, k);
    ProductPattern(x, k);
    NegPattern(x);
    NegPattern(x * k);
    NegPattern((-x) * k);
    assert (-x) * k == -(x * k);
    assert b < 0 ==> x * b == -(x * k);
  }

  lemma SmallPattern(x: int)
    requires -P127 <= x < P127
    ensures Signed(Pattern(x)) == x
    ensures GetSign(Pattern(x)) == if x < 0 then -1 else if x > 0 then 1 else 0
    ensures x >= 0 ==> Pattern(x) == x
    ensures x < 0 ==> Neg(Pattern(x)) == -x
  {}

  // ---- the 256-bit product -----------------------------------------------

  /** `dmul_u128`: four partial products and the carries folded by hand. */
  function DmulU128(a: U128, b: U128): (U128, U128) {
    var p00 := MulU64(Low(a), Low(b));
    var p01 := MulU64(Low(a), High(b));
    var p10 := MulU64(High(a), Low(b));
    var p11 := MulU64(High(a), High(b));
    var p0110 := Add(Low(p01), Low(p10));
    var p11 := Add(p11, High(p01));
    var p11 := Add(p11, High(p10));
    var p11 := Add(p11, High(p0110));
    var shifted := Low(p0110) * P64;
    var sum := (p00 + shifted) % P128;
    var p11 := if p00 + shifted >= P128 then Add(p11, 1) else p11;
    (sum, p11)
  }

  lemma Expand(ah: int, al: int, bh: int, bl: int)
    ensures (ah * P64 + al) * (bh * P64 + bl) == (ah * bh) * P128 + (al * bh + ah * bl) * P64 + al * bl
  {
    var (x, y) := (ah * P64, bh * P64);
    assert (x + al) * (y + bl) == x * y + x * bl + al * y + al * bl;
    assert x * y == (ah * bh) * P128 by { Regroup(ah, bh); }
    assert x * bl == (ah * bl) * P64 by { Swap(ah, P64, bl); }
    assert al * y == (al * bh) * P64 by { Assoc(al, bh, P64); }
    Distribute(al * bh, ah * bl, P64);
  }

  lemma Regroup(a: int, b: int)
    ensures (a * P64) * (b * P64) == (a * b) * P128
  {
    Assoc(a * P64, b, P64);
    Swap(a, P64, b);
    Assoc(a * b, P64, P64);
  }

  lemma Assoc(a: int, b: int, c: int)
    ensures a * (b * c) == (a * b) * c
  {}

  lemma Swap(a: int, p: int, b: int)
    ensures (a * p) * b == (a * b) * p
  {}

  lemma Distribute(a: int, b: int, p: int)
    ensures (a + b) * p == a * p + b * p
  {}

  /** The two halves are the exact product: nothing is lost in the carries. */
  lemma DmulIsExact(a: U128, b: U128)
    ensures var (low, high) := DmulU128(a, b);
            low + high * P128 == a * b
  {
    var (ah, al, bh, bl) := (High(a), Low(a), High(b), Low(b));
    var (p00, p01, p10, p11) := (al * bl, al * bh, ah * bl, ah * bh);
    ProductBelow(al, P64, bl, P64);
    ProductBelow(al, P64, bh, P64);
    ProductBelow(ah, P64, bl, P64);
    ProductBelow(ah, P64, bh, P64);
    Expand(ah, al, bh, bl);
    assert a == ah * P64 + al && b == bh * P64 + bl;
    assert a * b == p11 * P128 + (p01 + p10) * P64 + p00;
    ProductBelow(a, P128, b, P128);
    Fold(p00, p01, p10, p11, a * b);
  }

  /** The carries, with the four partial products as given numbers. */
  lemma Fold(p00: U128, p01: U128, p10: U128, p11: U128, product: int)
    requires product == p11 * P128 + (p01 + p10) * P64 + p00
    requires product < P128 * P128
    ensures var mid := Add(Low(p01), Low(p10));
            var shifted := Low(mid) * P64;
            var high := Add(Add(Add(p11, High(p01)), High(p10)), High(mid));
            var high' := if p00 + shifted >= P128 then Add(high, 1) else high;
            (p00 + shifted) % P128 + high' * P128 == product
  {
    var (l01, h01, l10, h10) := (Low(p01), High(p01), Low(p10), High(p10));
    Halves(p01);
    Halves(p10);
    AddSmall(l01, l10);
    var mid := Add(l01, l10);
    var (lm, hm) := (Low(mid), High(mid));
    Halves(mid);
    var carried := p11 + h01 + h10 + hm;
    var s := p00 + lm * P64;
    assert product == carried * P128 + s;
    CarryFits(carried, s, product);
    AddSmall(p11, h01);
    AddSmall(p11 + h01, h10);
    AddSmall(p11 + h01 + h10, hm);
    if s >= P128 { AddSmall(carried, 1); }
  }

  lemma Halves(a: U128)
    ensures a == High(a) * P64 + Low(a)
  {}

  lemma AddSmall(a: int, b: int)
    requires 0 <= a && 0 <= b && a + b < P128
    ensures Add(a, b) == a + b
  {}

  /** The low half and its carry leave a high half that fits. */
  lemma CarryFits(carried: int, s: int, product: int)
    requires 0 <= carried && 0 <= s < 2 * P128
    requires product == carried * P128 + s && product < P128 * P128
    ensures carried < P128
    ensures s >= P128 ==> carried + 1 < P128
    ensures s % P128 == if s >= P128 then s - P128 else s
  {}
}
