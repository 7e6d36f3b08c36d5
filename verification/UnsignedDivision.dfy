/**
 Replacing an unsigned division or remainder by a constant, and all that the pass does with
 one instruction: for which constants the replacement is right.
 */
module UnsignedDivision {
  import opened IR
  import opened Scalar
  import opened SignedMagic
  import opened UnsignedMagic
  import opened Patterns
  import opened DivisionStrengthReduction

  /** A function of the numerator read as unsigned. */
  ghost function Over(h: int -> int, w: nat): int -> int {
    x => h(Pat(x, w))
  }

  ghost function DividedBy(d: nat): int -> int
    requires d > 0
  {
    n => n / d
  }

  ghost function HighPart(m: nat, p: nat): int -> int {
    n => (m * n) / Pow2(p)
  }

  // ----- The emitted code

  lemma ProductFits(x: int, m: nat)
    requires m < TWO32
    ensures 0 <= Pat(x, 32) * m < TWO64 && Pat(x, 32) < TWO32
  {
    Pow2Values();
    MulMono(Pat(x, 32), m, TWO32 - 1, TWO32 - 1);
  }

  lemma HighHalf(x: int, m: nat)
    requires m < TWO32
    ensures Pat(Pat(x, 32) * m, 64) / Pow2(32) == Pat(Over(HighPart(m, 32), 32)(x), 64)
    ensures 0 <= Over(HighPart(m, 32), 32)(x) < TWO32
  {
    ProductFits(x, m);
    Pow2Values();
    var y: nat := Pat(x, 32) * m;
    PatIdem(y, 64);
    hide Pow2, Pat;
    assert m * Pat(x, 32) == y;
    QuotientNonnegative(y, TWO32);
    BelowQuotient(y, TWO32, TWO32);
    PatIdem(y / TWO32, 64);
  }

  lemma BelowQuotient(y: nat, a: nat, b: nat)
    requires a > 0 && y < a * b
    ensures y / a < b
  {
    if y / a >= b { MulLe(a, b, y / a); }
  }

  lemma HighShifts(m: nat)
    requires m < TWO32
    ensures ShiftsTo(Times(LowWord(Numerator()), Constantly(m)), Over(HighPart(m, 32), 32), 32, 64, 32)
  {
    hide Pow2, Pat, InRange;
    forall x | InRange(x, 32)
      ensures Pat(Times(LowWord(Numerator()), Constantly(m))(x), 64) / Pow2(32) == Pat(Over(HighPart(m, 32), 32)(x), 64)
    {
      HighHalf(x, m);
    }
  }

  lemma HighDown(m: nat, k: nat)
    requires m < TWO32
    ensures ShiftsTo(Over(HighPart(m, 32), 32), Over(HighPart(m, 32 + k), 32), k, 32, 32)
  {
    hide Pow2, Pat, InRange;
    forall x | InRange(x, 32)
      ensures Pat(Over(HighPart(m, 32), 32)(x), 32) / Pow2(k) == Pat(Over(HighPart(m, 32 + k), 32)(x), 32)
    {
      HighHalf(x, m);
      Pow2Values();
      Pow2Adds(32, k);
      ShiftedHigh(m * Pat(x, 32), k);
    }
  }

  lemma ShiftedHigh(y: int, k: nat)
    requires 0 <= y / TWO32 < TWO32
    ensures Pat(y / Pow2(32), 32) / Pow2(k) == Pat(y / Pow2(32 + k), 32)
  {
    Pow2Values();
    Pow2Adds(32, k);
    PatIdem(y / TWO32, 32);
    hide Pow2, Pat;
    FloorFloor(y, TWO32, Pow2(k));
    DivLe(y / TWO32, Pow2(k));
    QuotientNonnegative(y / TWO32, Pow2(k));
    PatIdem((y / TWO32) / Pow2(k), 32);
  }

  /** Extend, multiply, shift by 32, truncate, shift; the sum for larger multipliers is never needed. */
  method EmitUnsignedMagic(b: IRBuilder, n: Value, um: UMagic) returns (q: Value)
    requires um.magic < TWO32 && um.shift <= 31 && !um.addIndicator
    requires Computes(b.code, n, Numerator(), 32, 32)
    modifies b
    ensures old(b.code) <= b.code && Computes(b.code, q, Over(HighPart(um.magic, 32 + um.shift), 32), 32, 32)
  {
    hide *;
    var m := um.magic;
    HighShifts(m);
    HighDown(m, um.shift);
    q := b.CreateExtUW(n, Numerator(), 32);
    ConstComputes(b.code, m, 64, 32);
    q := b.CreateMul(q, ConstInt(m, 64), 64, LowWord(Numerator()), Constantly(m), 32);
    q := b.CreateShr(q, 32, 64, Times(LowWord(Numerator()), Constantly(m)), Over(HighPart(m, 32), 32), 32);
    q := b.CreateTruncD(q, Over(HighPart(m, 32), 32), 32);
    q := b.CreateShr(q, um.shift, 32, Over(HighPart(m, 32), 32), Over(HighPart(m, 32 + um.shift), 32), 32);
  }

  lemma PowerShifts(k: nat, w: nat)
    requires 1 <= w <= 64
    ensures ShiftsTo(Numerator(), Over(DividedBy(Pow2(k)), w), k, w, w)
  {
    forall x | InRange(x, w)
      ensures Pat(Numerator()(x), w) / Pow2(k) == Pat(Over(DividedBy(Pow2(k)), w)(x), w)
    {
      hide InRange, Pow2;
      DivLe(Pat(x, w), Pow2(k));
      QuotientNonnegative(Pat(x, w), Pow2(k));
      PatIdem(Pat(x, w) / Pow2(k), w);
    }
  }

  lemma ByOne(code: seq<Instr>, n: Value, w: nat)
    requires w >= 1 && Computes(code, n, Numerator(), w, w)
    ensures Computes(code, n, Over(DividedBy(1), w), w, w)
  {
    hide OperandBits, InRange;
    forall x | InRange(x, w)
      ensures OperandBits(code, n, |code|, Pat(x, w)) == Pat(Over(DividedBy(1), w)(x), w)
    {
      PatIdem(Pat(x, w), w);
    }
  }

  // ----- Divisors

  /** The divisor as the pass reads it. */
  function UnsignedDivisor(c: nat, w: nat): nat {
    Pat(c, w)
  }

  lemma DivisorIs(c: nat, w: nat)
    requires (w == 32 || w == 64) && StoredAs(c, w)
    ensures UnsignedDivisor(c, w) < Pow2(w) && (UnsignedDivisor(c, w) == 0 <==> c == 0)
    ensures c < Pow2(w) ==> UnsignedDivisor(c, w) == c
    ensures c >= Pow2(w) ==> w == 32 && UnsignedDivisor(c, w) >= TWO31
    ensures SignExtend(c, 64) == 0 <==> c == 0
  {
    Pow2Values();
    Signed64Is(c);
    hide Pow2, SignExtend;
    if c < Pow2(w) {
      PatIdem(c, w);
    } else {
      PatShift(c, 0 - (TWO32 - 1), 32);
      PatIdem(c - TWO32 * (TWO32 - 1), 32);
    }
  }

  /** Only powers of two divide powers of two. */
  lemma {:induction false} DividesPower(d: nat, k: nat)
    requires d > 0 && Pow2(k) % d == 0
    ensures IsPower(d)
    decreases d
  {
    if d == 1 {
      assert d == Pow2(0);
    } else if d % 2 == 1 {
      OddPower(d, k);
    } else {
      var q := Pow2(k) / d;
      assert Pow2(k) == d * q;
      Halves(d, q);
      if k == 0 {
        QuotientNonnegative(1, d);
        MulLe(d, 1, q);
      }
      DivUnique(Pow2(k - 1), d / 2, q, 0);
      DividesPower(d / 2, k - 1);
      var j: nat :| d / 2 == Pow2(j);
      assert d == Pow2(j + 1);
    }
  }

  lemma NoPowerDivides(d: nat)
    requires d > 0 && !IsPower(d)
    ensures TWO32 % d != 0
  {
    Pow2Values();
    if TWO32 % d == 0 { DividesPower(d, 32); }
  }

  lemma PowerBelow(d: nat, k: nat, w: nat)
    requires d == Pow2(k) < Pow2(w)
    ensures k < w
  {
    if k > w { Pow2Grows(w, k); }
  }

  // ----- What the operation itself gives

  function UnsignedOp(isRem: bool): Opcode {
    if isRem then Urem else Udiv
  }

  /** The operation on a w-bit numerator, by the constant as it is stored. */
  lemma FoldUnsigned(n: nat, c: nat, w: nat, isRem: bool)
    requires 1 <= w <= 64 && n < Pow2(w) && c > 0
    ensures FoldScalar(UnsignedOp(isRem), w, n, c) == Some(if isRem then n % c else n / c)
    ensures 0 <= n / c <= n && 0 <= n % c <= n
  {
    hide FoldScalar, Pow2;
    UdivCase(w, n, c);
    DivLe(n, c);
    ModLe(n, c);
    PatIdem(n / c, w);
    PatIdem(n % c, w);
  }

  /** What stands in the place of the result: the quotient q, or the numerator less q times the divisor. */
  ghost function Instead(q: int -> int, d: nat, isRem: bool): int -> int {
    n => if isRem then n - q(n) * d else q(n)
  }

  /** The value put in place, at every numerator. */
  ghost predicate Stands(code: seq<Instr>, v: Value, q: int -> int, d: nat, w: nat, isRem: bool)
    requires w >= 1
  {
    forall n: nat | n < Pow2(w) :: OperandBits(code, v, |code|, n) == Pat(Instead(q, d, isRem)(n), w)
  }

  lemma QuotientStands(code: seq<Instr>, v: Value, q: int -> int, d: nat, w: nat)
    requires 1 <= w <= 64 && Computes(code, v, Over(q, w), w, w)
    ensures Stands(code, v, q, d, w, false)
  {
    hide OperandBits, Pat, InRange, Pow2;
    forall n: nat | n < Pow2(w)
      ensures OperandBits(code, v, |code|, n) == Pat(Instead(q, d, false)(n), w)
    {
      var x := NumeratorOf(n, w);
      assert Over(q, w)(x) == q(n);
    }
  }

  lemma RemainderStands(code: seq<Instr>, v: Value, q: int -> int, d: nat, w: nat)
    requires 1 <= w <= 64 && Computes(code, v, Minus(Numerator(), Times(Over(q, w), Constantly(d))), w, w)
    ensures Stands(code, v, q, d, w, true)
  {
    hide OperandBits, Pat, InRange, Pow2;
    forall n: nat | n < Pow2(w)
      ensures OperandBits(code, v, |code|, n) == Pat(Instead(q, d, true)(n), w)
    {
      var x := NumeratorOf(n, w);
      assert Over(q, w)(x) == q(n);
      SamePattern(x, n, q(n) * d, w);
    }
  }

  lemma SamePattern(x: int, n: nat, y: int, w: nat)
    requires Pat(x, w) == n
    ensures Pat(x - y, w) == Pat(n - y, w)
  {
    var k := PatOf(x, w);
    hide Pat;
    assert x - y == (n - y) + Pow2(w) * k;
    PatShift(n - y, k, w);
  }

  /** Right at every numerator. */
  lemma StandsRight(code: seq<Instr>, v: Value, q: int -> int, c: nat, w: nat, isRem: bool)
    requires 1 <= w <= 64 && 0 < c && Stands(code, v, q, c, w, isRem)
    requires forall n: nat | n < Pow2(w) :: q(n) == n / c
    ensures Replaces(code, v, UnsignedOp(isRem), c, w)
  {
    hide FoldScalar, OperandBits, Pat, Pow2;
    forall n: nat | n < Pow2(w)
      ensures FoldScalar(UnsignedOp(isRem), w, n, c) == Some(OperandBits(code, v, |code|, n))
    {
      FoldUnsigned(n, c, w, isRem);
      assert n == c * (n / c) + n % c && (n / c) * c == c * (n / c);
      PatIdem(n / c, w);
      PatIdem(n % c, w);
    }
  }

  lemma WrongRemainder(n: nat, c: nat, w: nat)
    requires 0 < c < Pow2(w)
    ensures Pat(n - (n / c + 1) * c, w) != n % c
  {
    var k, r := n / c, n % c;
    var power := Pow2(w);
    assert n == c * k + r;
    assert (k + 1) * c == c * k + c;
    PatShift(r - c, 1, w);
    hide *;
    PatIdem(r - c + power, w);
  }

  lemma WrongQuotient(n: nat, c: nat, w: nat)
    requires 3 <= c && n < Pow2(w) && Pow2(w) > 1
    ensures Pat(n / c + 1, w) != n / c
  {
    var k := n / c;
    QuotientNonnegative(n, c);
    assert n == c * k + n % c;
    MulLe(k, 3, c);
    assert c * k == k * c;
    hide *;
    PatIdem(k + 1, w);
  }

  /** One too much is wrong, for the quotient and for the remainder. */
  lemma StandsWrong(code: seq<Instr>, v: Value, q: int -> int, c: nat, w: nat, isRem: bool, n: nat)
    requires 1 <= w <= 64 && 3 <= c < Pow2(w) && Stands(code, v, q, c, w, isRem) && n < Pow2(w) && q(n) == n / c + 1
    ensures !Replaces(code, v, UnsignedOp(isRem), c, w)
  {
    hide FoldScalar, OperandBits, Pat, Pow2, Replaces;
    FoldUnsigned(n, c, w, isRem);
    if isRem { WrongRemainder(n, c, w); } else { WrongQuotient(n, c, w); }
    NotReplaced(code, v, UnsignedOp(isRem), c, w, n);
  }

  lemma NotReplaced(code: seq<Instr>, v: Value, op: Opcode, c: nat, w: nat, n: nat)
    requires w >= 1 && n < Pow2(w) && FoldScalar(op, w, n, c) != Some(OperandBits(code, v, |code|, n))
    ensures !Replaces(code, v, op, c, w)
  {
    hide FoldScalar, OperandBits;
  }

  /** A constant stored sign-extended divides nothing but itself; d of its multiples are not lost. */
  lemma StandsApart(code: seq<Instr>, v: Value, q: int -> int, c: nat, d: nat, isRem: bool, n: nat)
    requires c >= TWO32 && TWO31 <= d < TWO32 && Stands(code, v, q, d, 32, isRem) && n < TWO32
    requires q(n) == 1 || (q(n) == 2 && d != TWO31)
    ensures !Replaces(code, v, UnsignedOp(isRem), c, 32)
  {
    hide FoldScalar, OperandBits, Pat, Pow2, Replaces;
    Pow2Values();
    FoldUnsigned(n, c, 32, isRem);
    DivUnique(n, c, 0, n);
    if isRem {
      LostMultiple(n, q(n), d);
    } else {
      PatIdem(q(n), 32);
    }
    NotReplaced(code, v, UnsignedOp(isRem), c, 32, n);
  }

  lemma LostMultiple(n: nat, k: int, d: nat)
    requires n < TWO32 && TWO31 <= d < TWO32 && (k == 1 || (k == 2 && d != TWO31))
    ensures Pat(n - k * d, 32) != n
  {
    Pow2Values();
    hide Pow2, Pat;
    var y := n - k * d;
    assert k * d == d || k * d == 2 * d;
    if y >= 0 {
      PatIdem(y, 32);
    } else if y + TWO32 >= 0 {
      PatShift(y, 1, 32);
      PatIdem(y + TWO32, 32);
    } else {
      PatShift(y, 2, 32);
      PatIdem(y + 2 * TWO32, 32);
    }
  }

  // ----- The unsigned branch

  /** The constants for which it is right. */
  ghost predicate UnsignedRight(c: nat, w: nat)
    requires c > 0
  {
    c < Pow2(w) && (IsPower(c) || (w == 32 && (TWO32 + 1) % c == 0))
  }

  /** How the quotient by d is computed. */
  ghost predicate IsUnsignedQuotient(q: int -> int, d: nat, w: nat)
    requires 0 < d && (w == 32 ==> d < TWO32)
  {
    if IsPower(d) then q == DividedBy(d)
    else w == 32 && exists um: UMagic :: IsUnsignedMagicFor(d, um) && q == HighPart(um.magic, 32 + um.shift)
  }

  lemma MagicOf(q: int -> int, d: nat, w: nat) returns (um: UMagic)
    requires 0 < d && (w == 32 ==> d < TWO32) && IsUnsignedQuotient(q, d, w) && !IsPower(d)
    ensures w == 32 && IsUnsignedMagicFor(d, um) && forall n: int :: q(n) == (um.magic * n) / Pow2(32 + um.shift)
  {
    hide IsUnsignedMagicFor, IsPower, Pow2;
    um :| IsUnsignedMagicFor(d, um) && q == HighPart(um.magic, 32 + um.shift);
    assert forall n: int :: HighPart(um.magic, 32 + um.shift)(n) == (um.magic * n) / Pow2(32 + um.shift);
  }

  /** The quotient by a constant that is held as it is read. */
  lemma PlainReplaces(code: seq<Instr>, v: Value, q: int -> int, c: nat, w: nat, isRem: bool)
    requires (w == 32 || w == 64) && 0 < c < Pow2(w) && (w == 32 ==> c < TWO32)
    requires Stands(code, v, q, c, w, isRem) && IsUnsignedQuotient(q, c, w)
    ensures Replaces(code, v, UnsignedOp(isRem), c, w) <==> UnsignedRight(c, w)
  {
    Pow2Values();
    if IsPower(c) {
      assert forall n: nat :: DividedBy(c)(n) == n / c;
      hide *;
      StandsRight(code, v, q, c, w, isRem);
    } else {
      var um := MagicOf(q, c, w);
      NoPowerDivides(c);
      NotOne(c);
      UnsignedExactly(c, um);
      hide Replaces, Stands, IsUnsignedMagicFor, IsPower, IsUnsignedQuotient, Pow2;
      if (TWO32 + 1) % c == 0 {
        forall n: nat | n < Pow2(w)
          ensures q(n) == n / c
        {
          assert HighQuotient(um, n) == n / c;
        }
        StandsRight(code, v, q, c, w, isRem);
      } else {
        var n := OneTooMuch(c, um);
        StandsWrong(code, v, q, c, w, isRem, n);
      }
    }
  }

  lemma TopPowerIs(d: nat)
    requires IsPower(d) && TWO31 <= d < TWO32
    ensures d == TWO31
  {
    var k: nat :| d == Pow2(k);
    Pow2Values();
    if k < 31 { Pow2Grows(k, 31); }
    if k > 32 { Pow2Grows(32, k); }
  }

  lemma HalfRangeNoPower(d: nat)
    requires !IsPower(d)
    ensures d != TWO31
  {
    NotHalfRange(d);
  }

  lemma PowerIsQuotient(q: int -> int, d: nat)
    requires 0 < d < TWO32 && IsUnsignedQuotient(q, d, 32) && IsPower(d)
    ensures forall n: nat :: q(n) == n / d
  {
    assert forall n: nat :: DividedBy(d)(n) == n / d;
  }

  lemma AtMostTwo(n: nat, d: nat, k: int)
    requires n < TWO32 && TWO31 < d && k == n / d + 1
    ensures k == 1 || k == 2
  {
    QuotientNonnegative(n, d);
    BelowQuotient(n, d, 2);
  }

  /** A numerator at which the quotient is not nought, and its product with d not either. */
  lemma SeenNumerator(q: int -> int, d: nat) returns (n: nat)
    requires TWO31 <= d < TWO32 && IsUnsignedQuotient(q, d, 32)
    ensures n < TWO32 && (q(n) == 1 || (q(n) == 2 && d != TWO31))
  {
    hide IsUnsignedMagicFor, IsPower, IsUnsignedQuotient, Pow2;
    if IsPower(d) {
      TopPowerIs(d);
      PowerIsQuotient(q, d);
      n := TWO31;
    } else {
      var um := MagicOf(q, d, 32);
      NoPowerDivides(d);
      HalfRangeNoPower(d);
      LargeDividesNot(d);
      n := OneTooMuch(d, um);
      AtMostTwo(n, d, q(n));
    }
  }

  lemma UnsignedReplaces(code: seq<Instr>, v: Value, q: int -> int, c: nat, w: nat, isRem: bool)
    requires (w == 32 || w == 64) && StoredAs(c, w) && c > 0 && UnsignedDivisor(c, w) > 0
    requires w == 32 ==> UnsignedDivisor(c, w) < TWO32
    requires IsUnsignedQuotient(q, UnsignedDivisor(c, w), w) && Stands(code, v, q, UnsignedDivisor(c, w), w, isRem)
    ensures Replaces(code, v, UnsignedOp(isRem), c, w) <==> UnsignedRight(c, w)
  {
    DivisorIs(c, w);
    Pow2Values();
    hide Replaces, Stands, IsUnsignedQuotient, IsPower, Pow2, UnsignedDivisor;
    if c < Pow2(w) {
      PlainReplaces(code, v, q, c, w, isRem);
    } else {
      var n := SeenNumerator(q, UnsignedDivisor(c, w));
      StandsApart(code, v, q, c, UnsignedDivisor(c, w), isRem, n);
    }
  }

  /** The quotient: nothing for one, a shift for a power of two, the product for others of 32 bits. */
  method EmitUnsignedQuotient(b: IRBuilder, n: Value, d: nat, w: nat)
    returns (done: bool, v: Value, ghost q: int -> int)
    requires (w == 32 || w == 64) && 0 < d < Pow2(w) && (w == 32 ==> d < TWO32)
    requires Computes(b.code, n, Numerator(), w, w)
    modifies b
    ensures done <==> w == 32 || IsPower(d)
    ensures old(b.code) <= b.code && (!done ==> b.code == old(b.code))
    ensures done ==> IsUnsignedQuotient(q, d, w) && Computes(b.code, v, Over(q, w), w, w)
  {
    hide *;
    v := n;
    q := DividedBy(d);
    if d == 1 {
      OneIsPower();
      ByOne(b.code, n, w);
      PowerQuotient(d, w);
      return true, v, q;
    }
    AndPredecessor(d);
    if BitAnd(d, d - 1) == 0 {
      var shift := Log2(d);
      PowerBelow(d, shift, w);
      PowerShifts(shift, w);
      v := b.CreateShr(n, shift, w, Numerator(), Over(DividedBy(Pow2(shift)), w), w);
      PowerQuotient(d, w);
      return true, v, q;
    }
    if w == 32 {
      NoPowerDivides(d);
      var um := ComputeUnsignedMagic32(d);
      var e := MagicParts(d, um);
      v := EmitUnsignedMagic(b, n, um);
      q := HighPart(um.magic, 32 + um.shift);
      ProductQuotient(d, um);
      return true, v, q;
    }
    return false, v, q;
  }

  lemma OneIsPower()
    ensures IsPower(1)
  {
    assert Pow2(0) == 1;
  }

  lemma PowerQuotient(d: nat, w: nat)
    requires 0 < d && (w == 32 ==> d < TWO32) && IsPower(d)
    ensures IsUnsignedQuotient(DividedBy(d), d, w)
  {
  }

  lemma ProductQuotient(d: nat, um: UMagic)
    requires 0 < d < TWO32 && !IsPower(d) && IsUnsignedMagicFor(d, um)
    ensures IsUnsignedQuotient(HighPart(um.magic, 32 + um.shift), d, 32)
  {
  }

  method ProcessUnsigned(b: IRBuilder, n: Value, c: nat, w: nat, isRem: bool) returns (done: bool, v: Value)
    requires (w == 32 || w == 64) && StoredAs(c, w) && Computes(b.code, n, Numerator(), w, w)
    modifies b
    ensures done <==> c != 0 && (w == 32 || IsPower(c))
    ensures old(b.code) <= b.code && (!done ==> b.code == old(b.code))
    ensures done ==> (Replaces(b.code, v, UnsignedOp(isRem), c, w) <==> UnsignedRight(c, w))
  {
    hide *;
    DivisorIs(c, w);
    v := n;
    if SignExtend(c, 64) == 0 { return false, v; }
    var d := Pat(c, w);
    DivisorValue(c, w);
    ghost var code0 := b.code;
    ghost var q;
    done, v, q := EmitUnsignedQuotient(b, n, d, w);
    if !done { return; }
    if isRem {
      Later(code0, b.code, n, Numerator(), w, w);
      ghost var code1 := b.code;
      v := b.CreateMulRaw(v, c, w, Over(q, w), d, w);
      Later(code1, b.code, n, Numerator(), w, w);
      v := b.CreateSub(n, v, w, Numerator(), Times(Over(q, w), Constantly(d)), w);
      RemainderStands(b.code, v, q, d, w);
    } else {
      QuotientStands(b.code, v, q, d, w);
    }
    UnsignedReplaces(b.code, v, q, c, w, isRem);
  }

  lemma DivisorValue(c: nat, w: nat)
    requires (w == 32 || w == 64) && StoredAs(c, w)
    ensures UnsignedDivisor(c, w) == Pat(c, w) && Pat(UnsignedDivisor(c, w), w) == Pat(c, w)
    ensures Pow2(32) == TWO32 && (w == 64 ==> c < Pow2(64))
  {
    Pow2Values();
    PatIdem(Pat(c, w), w);
  }

  // ----- The whole instruction

  /** The operation that stands for the opcode. */
  function DivisionOpcode(signed: bool, isRem: bool): Opcode {
    if signed then DivisionOp(isRem) else UnsignedOp(isRem)
  }

  /** The constants that are replaced. */
  ghost predicate IsReplaced(c: nat, w: nat, signed: bool) {
    if signed then Reducible(c, w) else c != 0 && (w == 32 || IsPower(c))
  }

  /** The constants for which what replaces the operation is the operation. */
  ghost predicate IsRightFor(c: nat, w: nat, signed: bool, isRem: bool) {
    if signed then isRem || !(w == 32 && c == TWO31) else c > 0 && UnsignedRight(c, w)
  }

  /** Which constants are replaced, for all four operations, and for which of them that is right. */
  method ProcessInstruction(b: IRBuilder, n: Value, c: nat, w: nat, signed: bool, isRem: bool)
    returns (done: bool, v: Value)
    requires (w == 32 || w == 64) && StoredAs(c, w) && Computes(b.code, n, Numerator(), w, w)
    modifies b
    ensures done <==> IsReplaced(c, w, signed)
    ensures old(b.code) <= b.code && (!done ==> b.code == old(b.code))
    ensures done ==> (Replaces(b.code, v, DivisionOpcode(signed, isRem), c, w) <==> IsRightFor(c, w, signed, isRem))
  {
    hide Replaces, Reducible, IsPower, UnsignedRight, Computes, StoredAs;
    if signed {
      done, v := ProcessSigned(b, n, c, w, isRem);
    } else {
      done, v := ProcessUnsigned(b, n, c, w, isRem);
    }
  }
}
