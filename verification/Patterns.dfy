/**
 Two's complement patterns: integers modulo a power of two, and what each scalar
 operation does to the integers behind them.
 */
module Patterns {
  import opened IR
  import opened Scalar
  import opened SignedMagic

  /** The w-bit pattern of an integer. */
  function Pat(x: int, w: nat): (r: nat)
    ensures r < Pow2(w)
  {
    x % Pow2(w)
  }

  predicate InRange(x: int, w: nat)
    requires w >= 1
  {
    0 - Pow2(w - 1) <= x < Pow2(w - 1)
  }

  lemma ModUnique(x: int, m: int, k: int, r: int)
    requires m > 0 && x == m * k + r && 0 <= r < m
    ensures x % m == r
  {
    DivUnique(x, m, k, r);
  }

  /** Integers that differ by a multiple of 2^w have one pattern. */
  lemma PatShift(x: int, k: int, w: nat)
    ensures Pat(x + Pow2(w) * k, w) == Pat(x, w)
  {
    var m := Pow2(w);
    var q, r := x / m, x % m;
    assert x == m * q + r;
    assert x + m * k == m * (q + k) + r;
    ModUnique(x + m * k, m, q + k, r);
  }

  lemma PatOf(x: int, w: nat) returns (k: int)
    ensures x == Pat(x, w) + Pow2(w) * k
  {
    k := x / Pow2(w);
  }

  lemma PatAddLeft(x: int, y: int, w: nat)
    ensures Pat(Pat(x, w) + y, w) == Pat(x + y, w)
  {
    var k := PatOf(x, w);
    PatShift(Pat(x, w) + y, k, w);
  }

  lemma PatAdd(x: int, y: int, w: nat)
    ensures Pat(Pat(x, w) + Pat(y, w), w) == Pat(x + y, w)
  {
    hide Pat;
    PatAddLeft(x, Pat(y, w), w);
    PatAddLeft(y, x, w);
  }

  lemma PatSub(x: int, y: int, w: nat)
    ensures Pat(Pat(x, w) - Pat(y, w), w) == Pat(x - y, w)
  {
    var k := PatOf(y, w);
    hide Pat;
    PatAddLeft(x, 0 - Pat(y, w), w);
    PatShift(x - y, k, w);
  }

  lemma PatMulLeft(x: int, y: int, w: nat)
    ensures Pat(Pat(x, w) * y, w) == Pat(x * y, w)
  {
    var k := PatOf(x, w);
    var m, a := Pow2(w), Pat(x, w);
    assert x * y == a * y + m * (k * y) by {
      assert (a + m * k) * y == a * y + (m * k) * y;
      assert (m * k) * y == m * (k * y);
    }
    PatShift(a * y, k * y, w);
  }

  lemma PatMul(x: int, y: int, w: nat)
    ensures Pat(Pat(x, w) * Pat(y, w), w) == Pat(x * y, w)
  {
    hide Pat;
    PatMulLeft(x, Pat(y, w), w);
    assert x * Pat(y, w) == Pat(y, w) * x && y * x == x * y;
    PatMulLeft(y, x, w);
  }

  /** A pattern at a wider width has the narrower pattern below it. */
  lemma PatNarrow(x: int, w: nat, v: nat)
    requires w <= v
    ensures Pat(Pat(x, v), w) == Pat(x, w)
  {
    var k := PatOf(x, v);
    Pow2Adds(w, v - w);
    assert Pow2(v) * k == Pow2(w) * (Pow2(v - w) * k);
    PatShift(Pat(x, v), Pow2(v - w) * k, w);
  }

  lemma PatIdem(x: int, w: nat)
    requires 0 <= x < Pow2(w)
    ensures Pat(x, w) == x
  {
    ModUnique(x, Pow2(w), 0, x);
  }

  /** Masking what wraps at 64 bits is the pattern. */
  lemma MaskIsPat(x: int, w: nat)
    requires 1 <= w <= 64
    ensures MaskValue(ToU64(x), w) == Pat(x, w)
  {
    Pow2Values();
    PatNarrow(x, w, 64);
  }

  lemma SignExtendPat(x: int, w: nat)
    requires 1 <= w <= 64 && InRange(x, w)
    ensures SignExtend(Pat(x, w), w) == x
  {
    assert Pow2(w) == 2 * Pow2(w - 1);
    PatIdem(Pat(x, w), w);
    if x >= 0 {
      PatIdem(x, w);
    } else {
      PatShift(x, 1, w);
      PatIdem(x + Pow2(w), w);
    }
  }

  // ----- What each operation does to patterns

  lemma AddCase(w: nat, u: nat, v: nat)
    requires w >= 1
    ensures FoldScalar(Add, w, u, v) == Some(MaskValue(ToU64(u + v), w))
  {
    hide MaskValue, ToU64, SignExtend;
  }

  lemma SubCase(w: nat, u: nat, v: nat)
    requires w >= 1
    ensures FoldScalar(Sub, w, u, v) == Some(MaskValue(ToU64(u - v), w))
  {
    hide MaskValue, ToU64, SignExtend;
  }

  lemma MulCase(w: nat, u: nat, v: nat)
    requires w >= 1
    ensures FoldScalar(Mul, w, u, v) == Some(MaskValue(ToU64(u * v), w))
  {
    hide MaskValue, ToU64, SignExtend;
  }

  lemma FoldAdd(x: int, y: int, w: nat)
    requires 1 <= w <= 64
    ensures FoldScalar(Add, w, Pat(x, w), Pat(y, w)) == Some(Pat(x + y, w))
  {
    hide *;
    AddCase(w, Pat(x, w), Pat(y, w));
    MaskIsPat(Pat(x, w) + Pat(y, w), w);
    PatAdd(x, y, w);
  }

  lemma FoldSub(x: int, y: int, w: nat)
    requires 1 <= w <= 64
    ensures FoldScalar(Sub, w, Pat(x, w), Pat(y, w)) == Some(Pat(x - y, w))
  {
    hide *;
    SubCase(w, Pat(x, w), Pat(y, w));
    MaskIsPat(Pat(x, w) - Pat(y, w), w);
    PatSub(x, y, w);
  }

  lemma FoldMul(x: int, y: int, w: nat)
    requires 1 <= w <= 64
    ensures FoldScalar(Mul, w, Pat(x, w), Pat(y, w)) == Some(Pat(x * y, w))
  {
    hide *;
    MulCase(w, Pat(x, w), Pat(y, w));
    MaskIsPat(Pat(x, w) * Pat(y, w), w);
    PatMul(x, y, w);
  }

  // The shifts and conversions of FoldScalar, spelled out.

  lemma SarCase(w: nat, u: nat, k: nat)
    requires w >= 1 && k < 64
    ensures FoldScalar(Sar, w, u, k) == Some(MaskValue(ToU64(SignExtend(u, w) / Pow2(k)), w))
  {
    hide MaskValue, ToU64, SignExtend, Pow2, TruncDiv, TruncRem, BitAnd, BitOr, BitXor, Bit;
    assert k % 64 == k;
  }

  lemma ShrCase(w: nat, u: nat, k: nat)
    requires w >= 1 && k < 64
    ensures FoldScalar(Shr, w, u, k) == Some(MaskValue(ShiftDown(u, k), w))
  {
    hide MaskValue, ToU64, SignExtend, ShiftDown, Pow2, TruncDiv, TruncRem, BitAnd, BitOr, BitXor, Bit;
    assert k % 64 == k;
  }

  lemma ExtCase(w: nat, u: nat, k: nat)
    requires w >= 1 && k < 64
    ensures FoldScalar(ExtSW, w, u, k) == Some(MaskValue(ToU64(SignExtend(u, 32)), w))
  {
    hide MaskValue, ToU64, SignExtend, Pow2, TruncDiv, TruncRem, BitAnd, BitOr, BitXor, Bit;
    assert k % 64 == k;
  }

  lemma TruncCase(w: nat, u: nat, k: nat)
    requires w >= 1 && k < 64
    ensures FoldScalar(TruncD, w, u, k) == Some(MaskValue(u, w))
  {
    hide MaskValue, ToU64, SignExtend, Pow2, TruncDiv, TruncRem, BitAnd, BitOr, BitXor, Bit;
    assert k % 64 == k;
  }

  lemma FoldSar(x: int, k: nat, w: nat)
    requires 1 <= w <= 64 && InRange(x, w) && k < 64
    ensures FoldScalar(Sar, w, Pat(x, w), k) == Some(Pat(x / Pow2(k), w))
  {
    hide FoldScalar, MaskValue, ToU64, SignExtend, Pow2, InRange, Pat;
    SarCase(w, Pat(x, w), k);
    SignExtendPat(x, w);
    MaskIsPat(x / Pow2(k), w);
  }

  lemma FoldShr(u: nat, k: nat, w: nat)
    requires 1 <= w <= 64 && k < 64 && u < Pow2(w)
    ensures FoldScalar(Shr, w, u, k) == Some(u / Pow2(k))
  {
    hide FoldScalar, SignExtend, Pow2;
    ShrCase(w, u, k);
    DivLe(u, Pow2(k));
    PatIdem(u / Pow2(k), w);
  }

  lemma DivLe(u: nat, m: nat)
    requires m >= 1
    ensures u / m <= u
  {
    assert u == m * (u / m) + u % m;
    MulLe(u / m, 1, m);
  }

  lemma FoldExtSW(x: int)
    requires IsInt32(x)
    ensures FoldScalar(ExtSW, 64, Pat(x, 32), 0) == Some(Pat(x, 64))
  {
    Int32InRange(x);
    hide FoldScalar, MaskValue, ToU64, SignExtend, Pow2, InRange, Pat;
    ExtCase(64, Pat(x, 32), 0);
    SignExtendPat(x, 32);
    MaskIsPat(x, 64);
  }

  lemma ExtUWCase(w: nat, u: nat, k: nat)
    requires w >= 1 && k < 64
    ensures FoldScalar(ExtUW, w, u, k) == Some(MaskValue(u, w))
  {
    hide MaskValue, ToU64, SignExtend, Pow2, TruncDiv, TruncRem, BitAnd, BitOr, BitXor, Bit;
    assert k % 64 == k;
  }

  lemma FoldExtUW(x: int)
    ensures FoldScalar(ExtUW, 64, Pat(x, 32), 0) == Some(Pat(Pat(x, 32), 64))
  {
    hide FoldScalar, Pow2, SignExtend;
    ExtUWCase(64, Pat(x, 32), 0);
    Pow2Grows(32, 64);
    PatIdem(Pat(x, 32), 64);
  }

  lemma UdivCase(w: nat, u: nat, c: nat)
    requires w >= 1 && c != 0
    ensures u / c >= 0 && u % c >= 0
    ensures FoldScalar(Udiv, w, u, c) == Some(MaskValue(u / c, w))
    ensures FoldScalar(Urem, w, u, c) == Some(MaskValue(u % c, w))
  {
    hide MaskValue, ToU64, SignExtend, Pow2, TruncDiv, TruncRem, BitAnd, BitOr, BitXor, Bit;
    QuotientNonnegative(u, c);
  }

  lemma Int32InRange(x: int)
    ensures InRange(x, 32) <==> IsInt32(x)
  {
    Pow2Values();
  }

  lemma FoldTrunc(x: int)
    ensures FoldScalar(TruncD, 32, Pat(x, 64), 0) == Some(Pat(x, 32))
  {
    hide FoldScalar, Pow2, SignExtend;
    TruncCase(32, Pat(x, 64), 0);
    PatNarrow(x, 32, 64);
  }

  lemma FoldDiv(x: int, c: nat, w: nat)
    requires 1 <= w <= 64 && InRange(x, w) && SignExtend(c, w) != 0
    ensures FoldScalar(Div, w, Pat(x, w), c) == Some(Pat(TruncDiv(x, SignExtend(c, w)), w))
    ensures FoldScalar(Rem, w, Pat(x, w), c) == Some(Pat(TruncRem(x, SignExtend(c, w)), w))
  {
    SignExtendPat(x, w);
    MaskIsPat(TruncDiv(x, SignExtend(c, w)), w);
    MaskIsPat(TruncRem(x, SignExtend(c, w)), w);
  }
}
