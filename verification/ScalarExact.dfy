/**
 The folder opcode by opcode: what each operation does to the integers, or the bits, that
 patterns stand for, and where signed comparisons are folded at the wrong width.
 */
module ScalarExact {
  import opened IR
  import opened Scalar
  import opened Patterns
  import opened UnrollTheorems
  import opened UnrollWords

  // ----- Arithmetic

  lemma NegNotCase(w: nat, u: nat, v: nat)
    requires w >= 1
    ensures FoldScalar(Neg, w, u, v) == Some(MaskValue(ToU64(0 - u), w))
    ensures FoldScalar(Not, w, u, v) == Some(MaskValue(ToU64(-1 - u), w))
  {
    hide MaskValue, ToU64, SignExtend, TruncDiv, TruncRem, BitAnd, BitOr, BitXor, Bit, ShiftDown, Pow2;
  }

  lemma ShlCase(w: nat, u: nat, k: nat)
    requires w >= 1
    ensures FoldScalar(Shl, w, u, k) == Some(MaskValue(ToU64(u * Pow2(k % 64)), w))
  {
    hide MaskValue, ToU64, SignExtend, TruncDiv, TruncRem, BitAnd, BitOr, BitXor, Bit, ShiftDown, Pow2;
  }

  /** Integers modulo 2^w. */
  lemma ArithmeticExactly(w: nat, x: int, y: int)
    requires 1 <= w <= 64
    ensures FoldScalar(Add, w, Pat(x, w), Pat(y, w)) == Some(Pat(x + y, w))
    ensures FoldScalar(Sub, w, Pat(x, w), Pat(y, w)) == Some(Pat(x - y, w))
    ensures FoldScalar(Mul, w, Pat(x, w), Pat(y, w)) == Some(Pat(x * y, w))
    ensures FoldScalar(Neg, w, Pat(x, w), Pat(y, w)) == Some(Pat(0 - x, w))
    ensures FoldScalar(Not, w, Pat(x, w), Pat(y, w)) == Some(Pat(-1 - x, w))
    ensures forall k: nat | k < 64 :: FoldScalar(Shl, w, Pat(x, w), k) == Some(Pat(x * Pow2(k), w))
  {
    hide *;
    FoldAdd(x, y, w);
    FoldSub(x, y, w);
    FoldMul(x, y, w);
    NegNotCase(w, Pat(x, w), Pat(y, w));
    MaskIsPat(0 - Pat(x, w), w);
    MaskIsPat(-1 - Pat(x, w), w);
    Mirrored(0, x, w);
    Mirrored(-1, x, w);
    forall k: nat | k < 64
      ensures FoldScalar(Shl, w, Pat(x, w), k) == Some(Pat(x * Pow2(k), w))
    {
      ShlCase(w, Pat(x, w), k);
      MaskIsPat(Pat(x, w) * Pow2(k), w);
      PatMulLeft(x, Pow2(k), w);
    }
  }

  lemma Mirrored(c: int, x: int, w: nat)
    ensures Pat(c - Pat(x, w), w) == Pat(c - x, w)
  {
    var k := PatOf(x, w);
    hide Pat;
    PatShift(c - x, k, w);
  }

  lemma ZeroCase(w: nat, u: nat, v: nat)
    requires w >= 1
    ensures SignExtend(v, w) == 0 ==> FoldScalar(Div, w, u, v) == FoldScalar(Rem, w, u, v) == None
    ensures v == 0 ==> FoldScalar(Udiv, w, u, v) == FoldScalar(Urem, w, u, v) == None
  {
    hide MaskValue, ToU64, SignExtend, TruncDiv, TruncRem, BitAnd, BitOr, BitXor, Bit, ShiftDown, Pow2;
  }

  /** Signed division goes towards zero; there is no quotient by zero. */
  lemma DivisionExactly(w: nat, x: int, y: int)
    requires 1 <= w <= 64 && InRange(x, w) && InRange(y, w)
    ensures if y == 0 then FoldScalar(Div, w, Pat(x, w), Pat(y, w)) == FoldScalar(Rem, w, Pat(x, w), Pat(y, w)) == None
            else && FoldScalar(Div, w, Pat(x, w), Pat(y, w)) == Some(Pat(TruncDiv(x, y), w))
                 && FoldScalar(Rem, w, Pat(x, w), Pat(y, w)) == Some(Pat(TruncRem(x, y), w))
  {
    hide *;
    SignExtendPat(y, w);
    if y == 0 { ZeroCase(w, Pat(x, w), Pat(y, w)); } else { FoldDiv(x, Pat(y, w), w); }
  }

  lemma UnsignedDivisionExactly(w: nat, u: nat, v: nat)
    requires w >= 1 && u < Pow2(w)
    ensures if v == 0 then FoldScalar(Udiv, w, u, v) == FoldScalar(Urem, w, u, v) == None
            else FoldScalar(Udiv, w, u, v) == Some(u / v) && FoldScalar(Urem, w, u, v) == Some(u % v)
  {
    hide *;
    if v == 0 {
      ZeroCase(w, u, v);
    } else {
      UdivCase(w, u, v);
      DivLe(u, v);
      ModLe(u, v);
      MaskKeeps(u / v, w);
      MaskKeeps(u % v, w);
    }
  }

  lemma MaskKeeps(u: nat, w: nat)
    requires u < Pow2(w)
    ensures MaskValue(u, w) == u
  {
    PatIdem(u, w);
  }

  // ----- Bits

  predicate BitAt(u: nat, k: nat) {
    if k == 0 then u % 2 == 1 else BitAt(u / 2, k - 1)
  }

  lemma {:induction false} AndBit(a: nat, b: nat, k: nat)
    ensures BitAt(BitAnd(a, b), k) <==> BitAt(a, k) && BitAt(b, k)
    decreases k
  {
    if a == 0 || b == 0 { NoBit(k); }
    else if k > 0 { AndBit(a / 2, b / 2, k - 1); }
  }

  lemma {:induction false} OrBit(a: nat, b: nat, k: nat)
    ensures BitAt(BitOr(a, b), k) <==> BitAt(a, k) || BitAt(b, k)
    decreases k
  {
    if a == 0 || b == 0 { NoBit(k); }
    else if k > 0 { OrBit(a / 2, b / 2, k - 1); }
  }

  lemma {:induction false} XorBit(a: nat, b: nat, k: nat)
    ensures BitAt(BitXor(a, b), k) <==> BitAt(a, k) != BitAt(b, k)
    decreases k
  {
    if a == 0 || b == 0 { NoBit(k); }
    else if k > 0 { XorBit(a / 2, b / 2, k - 1); }
  }

  lemma {:induction false} NoBit(k: nat)
    ensures !BitAt(0, k)
  {
    if k > 0 { NoBit(k - 1); }
  }

  /** Masking keeps the low bits. */
  lemma {:induction false} MaskBit(u: nat, w: nat, k: nat)
    requires k < w
    ensures BitAt(u % Pow2(w), k) <==> BitAt(u, k)
    decreases k
  {
    HalfOfMasked(u, w);
    if k > 0 { MaskBit(u / 2, w - 1, k - 1); }
  }

  lemma HalfOfMasked(u: nat, w: nat)
    requires w >= 1
    ensures (u % Pow2(w)) % 2 == u % 2 && (u % Pow2(w)) / 2 == (u / 2) % Pow2(w - 1)
  {
    var m := Pow2(w - 1);
    var q, r := (u / 2) / m, (u / 2) % m;
    assert u == 2 * (u / 2) + u % 2 && u / 2 == m * q + r;
    assert u == 2 * m * q + (2 * r + u % 2) by { assert 2 * (m * q) == 2 * m * q; }
    ModUnique(u, 2 * m, q, 2 * r + u % 2);
  }

  /** What a one's complement does to the bits. */
  lemma {:induction false} NotBit(u: nat, w: nat, k: nat)
    requires k < w && u < Pow2(w)
    ensures BitAt(Pow2(w) - 1 - u, k) <==> !BitAt(u, k)
    decreases k
  {
    var m := Pow2(w - 1);
    assert Pow2(w) == 2 * m;
    assert (2 * m - 1 - u) % 2 == 1 - u % 2 && (2 * m - 1 - u) / 2 == m - 1 - u / 2;
    if k > 0 { NotBit(u / 2, w - 1, k - 1); }
  }

  lemma BitwiseCase(w: nat, u: nat, v: nat)
    requires w >= 1
    ensures FoldScalar(And, w, u, v) == Some(MaskValue(BitAnd(u, v), w))
    ensures FoldScalar(Or, w, u, v) == Some(MaskValue(BitOr(u, v), w))
    ensures FoldScalar(Xor, w, u, v) == Some(MaskValue(BitXor(u, v), w))
  {
    hide MaskValue, ToU64, SignExtend, TruncDiv, TruncRem, BitAnd, BitOr, BitXor, Bit, ShiftDown, Pow2;
  }

  /** Bit by bit. */
  lemma BitwiseExactly(w: nat, u: nat, v: nat, k: nat)
    requires 1 <= w <= 64 && k < w && u < Pow2(w) && v < Pow2(w)
    ensures FoldScalar(And, w, u, v).Some? && FoldScalar(Or, w, u, v).Some?
    ensures FoldScalar(Xor, w, u, v).Some? && FoldScalar(Not, w, u, v).Some?
    ensures BitAt(FoldScalar(And, w, u, v).value, k) <==> BitAt(u, k) && BitAt(v, k)
    ensures BitAt(FoldScalar(Or, w, u, v).value, k) <==> BitAt(u, k) || BitAt(v, k)
    ensures BitAt(FoldScalar(Xor, w, u, v).value, k) <==> BitAt(u, k) != BitAt(v, k)
    ensures BitAt(FoldScalar(Not, w, u, v).value, k) <==> !BitAt(u, k)
  {
    hide FoldScalar, Pow2, BitAt, BitAnd, BitOr, BitXor, ToU64;
    BitwiseCase(w, u, v);
    AndBit(u, v, k);
    OrBit(u, v, k);
    XorBit(u, v, k);
    MaskBit(BitAnd(u, v), w, k);
    MaskBit(BitOr(u, v), w, k);
    MaskBit(BitXor(u, v), w, k);
    NegNotCase(w, u, v);
    MaskIsPat(-1 - u, w);
    PatShift(-1 - u, 1, w);
    PatIdem(Pow2(w) - 1 - u, w);
    NotBit(u, w, k);
  }

  // ----- Conversions

  /** The opcodes that extend from n bits, with the sign and without. */
  function SignExtension(n: nat): Opcode
    requires n in {8, 16, 32}
  {
    if n == 8 then ExtSB else if n == 16 then ExtSH else ExtSW
  }

  function ZeroExtension(n: nat): Opcode
    requires n in {8, 16, 32}
  {
    if n == 8 then ExtUB else if n == 16 then ExtUH else ExtUW
  }

  lemma ConversionCase(n: nat, w: nat, u: nat, v: nat)
    requires w >= 1 && n in {8, 16, 32}
    ensures FoldScalar(SignExtension(n), w, u, v) == Some(MaskValue(ToU64(SignExtend(u, n)), w))
    ensures FoldScalar(ZeroExtension(n), w, u, v) == Some(MaskValue(u, w))
  {
    hide MaskValue, ToU64, SignExtend, TruncDiv, TruncRem, BitAnd, BitOr, BitXor, Bit, ShiftDown, Pow2;
  }

  lemma CopyCase(op: Opcode, w: nat, u: nat, v: nat)
    requires w >= 1 && op in {Copy, Cast, TruncD}
    ensures FoldScalar(op, w, u, v) == Some(MaskValue(u, w))
  {
    hide MaskValue, ToU64, SignExtend, TruncDiv, TruncRem, BitAnd, BitOr, BitXor, Bit, ShiftDown, Pow2;
  }

  /** Extensions keep the integer, signed or not, and all others keep the low bits. */
  lemma ConversionsExactly(n: nat, w: nat, x: int, u: nat, c: nat)
    requires n in {8, 16, 32} && 1 <= w <= 64 && InRange(x, n) && u < Pow2(64)
    ensures FoldScalar(SignExtension(n), w, Pat(x, n), c) == Some(Pat(x, w))
    ensures forall op | op in {ZeroExtension(n), Copy, Cast, TruncD} :: FoldScalar(op, w, u, c) == Some(Pat(u, w))
  {
    hide *;
    CopyCase(Copy, w, u, c);
    CopyCase(Cast, w, u, c);
    CopyCase(TruncD, w, u, c);
    ConversionCase(n, w, Pat(x, n), c);
    ConversionCase(n, w, u, c);
    SignExtendPat(x, n);
    MaskIsPat(x, w);
    MaskIsPat(u, w);
    Pow2Values();
    PatIdem(u, 64);
    ToU64Is(u);
  }

  lemma ToU64Is(u: nat)
    ensures u < TWO64 ==> ToU64(u) == u
  {
  }

  // ----- Comparisons

  const COMPARISONS: set<Opcode> := {Cslt, Csle, Csgt, Csge, Cult, Cule, Cugt, Cuge}

  /** Equal words, whatever the width of the result. */
  lemma EqualityExactly(w: nat, u: nat, v: nat)
    requires w >= 1
    ensures FoldScalar(Ceq, w, u, v) == Some(Bit(u == v)) && FoldScalar(Cne, w, u, v) == Some(Bit(u != v))
  {
    hide MaskValue, ToU64, SignExtend, TruncDiv, TruncRem, BitAnd, BitOr, BitXor, Bit, ShiftDown, Pow2;
  }

  /** A comparison reads its operands at the width of its result. */
  lemma ComparisonCase(op: Opcode, r: nat, u: nat, v: nat)
    requires r >= 1 && op in COMPARISONS
    ensures FoldScalar(op, r, u, v) == Some(Bit(Compares(op, Reads(op, r, u), Reads(op, r, v))))
  {
    hide MaskValue, ToU64, SignExtend, TruncDiv, TruncRem, BitAnd, BitOr, BitXor, Bit, ShiftDown, Pow2;
  }

  /** Folding at width r compares w-bit words. */
  ghost predicate FoldsRight(op: Opcode, r: nat, w: nat)
    requires r >= 1 && w >= 1
  {
    forall u: nat, v: nat | u < Pow2(w) && v < Pow2(w) ::
      FoldScalar(op, r, u, v) == Some(Bit(Compares(op, Reads(op, w, u), Reads(op, w, v))))
  }

  /** Signed comparisons are folded right exactly where the result is as wide as the operands. */
  lemma ComparisonsExactly(op: Opcode, r: nat, w: nat)
    requires op in COMPARISONS && 1 <= r <= 64 && 1 <= w <= 64
    ensures FoldsRight(op, r, w) <==> (IsSigned(op) ==> r == w)
  {
    hide FoldScalar, Compares, Reads, SignExtend, Pow2;
    if r == w || !IsSigned(op) {
      forall u: nat, v: nat | u < Pow2(w) && v < Pow2(w)
        ensures FoldScalar(op, r, u, v) == Some(Bit(Compares(op, Reads(op, w, u), Reads(op, w, v))))
      {
        ComparisonCase(op, r, u, v);
        if !IsSigned(op) { ReadsUnsigned(op, r, w, u); ReadsUnsigned(op, r, w, v); }
      }
    } else {
      var u := WrongWidth(op, r, w);
      ComparisonCase(op, r, u, 0);
      assert FoldScalar(op, r, u, 0) != Some(Bit(Compares(op, Reads(op, w, u), Reads(op, w, 0))));
    }
  }

  lemma ReadsUnsigned(op: Opcode, r: nat, w: nat, u: nat)
    requires r >= 1 && w >= 1 && !IsSigned(op)
    ensures Reads(op, r, u) == Reads(op, w, u)
  {
  }

  /** The highest bit of the narrower of the two widths is a sign at one of them only. */
  lemma WrongWidth(op: Opcode, r: nat, w: nat) returns (u: nat)
    requires IsSigned(op) && r >= 1 && w >= 1 && r <= 64 && w <= 64 && r != w
    ensures u < Pow2(w)
    ensures Compares(op, Reads(op, r, u), Reads(op, r, 0)) != Compares(op, Reads(op, w, u), Reads(op, w, 0))
  {
    hide SignExtend, Pow2;
    var n := if r < w then r else w;
    u := Pow2(n - 1);
    TopBit(n, if r < w then w else r);
    assert n < w ==> Pow2(n) < Pow2(w) by { if n < w { Pow2Grows(n, w); } }
  }

  lemma TopBit(n: nat, m: nat)
    requires 1 <= n < m <= 64
    ensures Pow2(n - 1) < Pow2(n) && SignExtend(Pow2(n - 1), n) == 0 - Pow2(n - 1)
    ensures SignExtend(Pow2(n - 1), m) == Pow2(n - 1) && SignExtend(0, n) == SignExtend(0, m) == 0
  {
    assert Pow2(n) == 2 * Pow2(n - 1) && Pow2(m) == 2 * Pow2(m - 1);
    if n < m - 1 { Pow2Grows(n, m - 1); }
    SignExtendPat(0 - Pow2(n - 1), n);
    PatShift(0 - Pow2(n - 1), 1, n);
    PatIdem(Pow2(n - 1), n);
    PatIdem(Pow2(n - 1), m);
    SignExtendPat(Pow2(n - 1), m);
    PatIdem(0, n);
    PatIdem(0, m);
    SignExtendPat(0, n);
    SignExtendPat(0, m);
  }

  /** Comparisons have 32-bit results: 2^31 in 64 bits is taken for less than nought. */
  lemma WideComparison()
    ensures FoldScalar(Cslt, 32, TWO31, 0) == Some(1)
    ensures Reads(Cslt, 64, TWO31) == TWO31 && !Compares(Cslt, Reads(Cslt, 64, TWO31), Reads(Cslt, 64, 0))
  {
    hide SignExtend, Pow2;
    Pow2Values();
    TopBit(32, 64);
    ComparisonCase(Cslt, 32, TWO31, 0);
  }

  // ----- What folds

  /** The operations with a result, whatever the operands. */
  predicate AlwaysFolds(op: Opcode) {
    || op in {Add, Sub, Mul, And, Or, Xor, Shl, Shr, Sar, Neg, Not}
    || op in {Ceq, Cne, Cslt, Csle, Csgt, Csge, Cult, Cule, Cugt, Cuge}
    || op in {Copy, Cast, ExtUB, ExtUH, ExtUW, ExtSB, ExtSH, ExtSW, ExtS, TruncD}
  }

  lemma TotalCase(op: Opcode, w: nat, u: nat, v: nat)
    requires w >= 1 && AlwaysFolds(op)
    ensures FoldScalar(op, w, u, v).Some?
  {
    hide MaskValue, ToU64, SignExtend, TruncDiv, TruncRem, BitAnd, BitOr, BitXor, Bit, ShiftDown, Pow2;
  }

  lemma NoCase(op: Opcode, w: nat, u: nat, v: nat)
    requires w >= 1 && !AlwaysFolds(op) && op !in {Div, Rem, Udiv, Urem}
    ensures FoldScalar(op, w, u, v).None?
  {
    hide MaskValue, ToU64, SignExtend, TruncDiv, TruncRem, BitAnd, BitOr, BitXor, Bit, ShiftDown, Pow2;
  }

  /** The others fold unless they divide by zero. */
  lemma FoldsExactly(op: Opcode, w: nat, u: nat, v: nat)
    requires w >= 1
    ensures FoldScalar(op, w, u, v).Some? <==>
              || AlwaysFolds(op)
              || (op in {Div, Rem} && SignExtend(v, w) != 0)
              || (op in {Udiv, Urem} && v != 0)
  {
    if op in {Div, Rem, Udiv, Urem} {
      hide MaskValue, ToU64, SignExtend, TruncDiv, TruncRem;
    } else {
      hide *;
      if AlwaysFolds(op) { TotalCase(op, w, u, v); } else { NoCase(op, w, u, v); }
    }
  }
}
