/**
 Replacing a signed division or remainder by a constant with shifts and products.
 The emitted instructions are judged by the same scalar semantics as the division
 they stand in for.
 */
module DivisionStrengthReduction {
  import opened IR
  import opened Scalar
  import opened SignedMagic
  import opened Patterns

  // ----- Straight-line code over one numerator, Arg(0)

  function OperandBits(code: seq<Instr>, v: Value, k: nat, n: nat): nat
    requires k <= |code|
    decreases k, 0
  {
    match v
    case Arg(_) => n
    case Cst(w) => w.bits
    case Inst(j) => if j < k then ResultBits(code, j, n) else 0
    case _ => 0
  }

  function ResultBits(code: seq<Instr>, k: nat, n: nat): nat
    requires k < |code|
    decreases k, 1
  {
    var instr := code[k];
    var u1 := if |instr.operands| > 0 then OperandBits(code, instr.operands[0], k, n) else 0;
    var u2 := if |instr.operands| > 1 then OperandBits(code, instr.operands[1], k, n) else 0;
    if instr.ty == 0 then 0
    else
      var r := FoldScalar(instr.op, instr.ty, u1, u2);
      if r.Some? then r.value else 0
  }

  lemma {:induction false} PrefixResult(code: seq<Instr>, code': seq<Instr>, k: nat, n: nat)
    requires code <= code' && k < |code|
    ensures ResultBits(code', k, n) == ResultBits(code, k, n)
    decreases k
  {
    var instr := code[k];
    assert code'[k] == instr;
    forall i | 0 <= i < |instr.operands|
      ensures OperandBits(code', instr.operands[i], k, n) == OperandBits(code, instr.operands[i], k, n)
    {
      if instr.operands[i].Inst? && instr.operands[i].id < k {
        PrefixResult(code, code', instr.operands[i].id, n);
      }
    }
  }

  /** On every numerator x of width w0 the operand is the w-bit pattern of f(x). */
  ghost predicate Computes(code: seq<Instr>, v: Value, f: int -> int, w: nat, w0: nat)
    requires w0 >= 1
  {
    && (v.Inst? ==> v.id < |code|)
    && forall x | InRange(x, w0) :: OperandBits(code, v, |code|, Pat(x, w0)) == Pat(f(x), w)
  }

  lemma Later(code: seq<Instr>, code': seq<Instr>, v: Value, f: int -> int, w: nat, w0: nat)
    requires w0 >= 1 && code <= code' && Computes(code, v, f, w, w0)
    ensures Computes(code', v, f, w, w0)
  {
    forall x | InRange(x, w0)
      ensures OperandBits(code', v, |code'|, Pat(x, w0)) == Pat(f(x), w)
    {
      if v.Inst? { PrefixResult(code, code', v.id, Pat(x, w0)); }
    }
  }

  // The functions computed along the way, by name.

  ghost function Numerator(): int -> int { x => x }

  ghost function Constantly(c: int): int -> int { x => c }

  ghost function LowWord(f: int -> int): int -> int { x => Pat(f(x), 32) }

  ghost function Plus(f: int -> int, g: int -> int): int -> int { x => f(x) + g(x) }

  ghost function Minus(f: int -> int, g: int -> int): int -> int { x => f(x) - g(x) }

  ghost function Times(f: int -> int, g: int -> int): int -> int { x => f(x) * g(x) }

  ghost function Down(f: int -> int, k: nat): int -> int { x => f(x) / Pow2(k) }

  ghost function IsNegative(f: int -> int): int -> int { x => if f(x) < 0 then 1 else 0 }

  /** The high part of the product with m, 2^p being the unit. */
  ghost function High(m: int, p: nat): int -> int { x => (x * m) / Pow2(p) }

  ghost function Quotient(d: int): int -> int
    requires d != 0
  {
    x => TruncDiv(x, d)
  }

  ghost function Remainder(d: int): int -> int
    requires d != 0
  {
    x => TruncRem(x, d)
  }

  /** A logical right shift turns the patterns of f into those of g. */
  ghost predicate ShiftsTo(f: int -> int, g: int -> int, k: nat, w: nat, w0: nat)
    requires w0 >= 1
  {
    forall x | InRange(x, w0) :: Pat(f(x), w) / Pow2(k) == Pat(g(x), w)
  }

  lemma SameFunction(code: seq<Instr>, v: Value, f: int -> int, g: int -> int, w: nat, w0: nat)
    requires w0 >= 1 && Computes(code, v, f, w, w0)
    requires forall x | InRange(x, w0) :: f(x) == g(x)
    ensures Computes(code, v, g, w, w0)
  {
  }

  lemma SameOperand(code: seq<Instr>, code': seq<Instr>, v: Value, n: nat)
    requires code <= code' && (v.Inst? ==> v.id < |code|)
    ensures OperandBits(code', v, |code|, n) == OperandBits(code, v, |code|, n)
  {
    if v.Inst? { PrefixResult(code, code', v.id, n); }
  }

  /** The last of the instructions, from the values of its operands before it. */
  lemma LastResult(code: seq<Instr>, op: Opcode, ty: nat, a: Value, b: Value, n: nat)
    requires ty >= 1 && (a.Inst? ==> a.id < |code|) && (b.Inst? ==> b.id < |code|)
    ensures var code' := code + [Instr(op, ty, [a, b], 0)];
            var r := FoldScalar(op, ty, OperandBits(code, a, |code|, n), OperandBits(code, b, |code|, n));
            OperandBits(code', Inst(|code|), |code'|, n) == if r.Some? then r.value else 0
  {
    hide FoldScalar;
    var code' := code + [Instr(op, ty, [a, b], 0)];
    assert code'[|code|] == Instr(op, ty, [a, b], 0);
    SameOperand(code, code', a, n);
    SameOperand(code, code', b, n);
    assert code'[|code|].operands[0] == a && code'[|code|].operands[1] == b;
  }

  lemma LastUnary(code: seq<Instr>, op: Opcode, ty: nat, a: Value, n: nat)
    requires ty >= 1 && (a.Inst? ==> a.id < |code|)
    ensures var code' := code + [Instr(op, ty, [a], 0)];
            var r := FoldScalar(op, ty, OperandBits(code, a, |code|, n), 0);
            OperandBits(code', Inst(|code|), |code'|, n) == if r.Some? then r.value else 0
  {
    hide FoldScalar;
    var code' := code + [Instr(op, ty, [a], 0)];
    assert code'[|code|] == Instr(op, ty, [a], 0);
    SameOperand(code, code', a, n);
    assert code'[|code|].operands[0] == a;
  }

  lemma AddPoint(code: seq<Instr>, a: Value, b: Value, w: nat, x: int, y: int, n: nat)
    requires 1 <= w <= 64 && (a.Inst? ==> a.id < |code|) && (b.Inst? ==> b.id < |code|)
    requires OperandBits(code, a, |code|, n) == Pat(x, w) && OperandBits(code, b, |code|, n) == Pat(y, w)
    ensures var code' := code + [Instr(Add, w, [a, b], 0)];
            OperandBits(code', Inst(|code|), |code'|, n) == Pat(x + y, w)
  {
    hide FoldScalar, Pat, OperandBits;
    LastResult(code, Add, w, a, b, n);
    FoldAdd(x, y, w);
  }

  lemma SubPoint(code: seq<Instr>, a: Value, b: Value, w: nat, x: int, y: int, n: nat)
    requires 1 <= w <= 64 && (a.Inst? ==> a.id < |code|) && (b.Inst? ==> b.id < |code|)
    requires OperandBits(code, a, |code|, n) == Pat(x, w) && OperandBits(code, b, |code|, n) == Pat(y, w)
    ensures var code' := code + [Instr(Sub, w, [a, b], 0)];
            OperandBits(code', Inst(|code|), |code'|, n) == Pat(x - y, w)
  {
    hide FoldScalar, Pat, OperandBits;
    LastResult(code, Sub, w, a, b, n);
    FoldSub(x, y, w);
  }

  lemma SarPoint(code: seq<Instr>, a: Value, k: nat, w: nat, x: int, n: nat)
    requires 1 <= w <= 64 && k < 64 && (a.Inst? ==> a.id < |code|) && InRange(x, w)
    requires OperandBits(code, a, |code|, n) == Pat(x, w)
    ensures var code' := code + [Instr(Sar, w, [a, Cst(Word(w, k))], 0)];
            OperandBits(code', Inst(|code|), |code'|, n) == Pat(x / Pow2(k), w)
  {
    assert OperandBits(code, Cst(Word(w, k)), |code|, n) == k;
    hide FoldScalar, Pat, OperandBits, Pow2, InRange;
    LastResult(code, Sar, w, a, Cst(Word(w, k)), n);
    FoldSar(x, k, w);
  }

  lemma ShrPoint(code: seq<Instr>, a: Value, k: nat, w: nat, u: nat, n: nat)
    requires 1 <= w <= 64 && k < 64 && (a.Inst? ==> a.id < |code|) && u < Pow2(w)
    requires OperandBits(code, a, |code|, n) == u
    ensures var code' := code + [Instr(Shr, w, [a, Cst(Word(w, k))], 0)];
            OperandBits(code', Inst(|code|), |code'|, n) == u / Pow2(k)
  {
    assert OperandBits(code, Cst(Word(w, k)), |code|, n) == k;
    hide FoldScalar, OperandBits, Pow2;
    LastResult(code, Shr, w, a, Cst(Word(w, k)), n);
    FoldShr(u, k, w);
  }

  /** A constant operand counts only modulo 2^w. */
  lemma MulRawPoint(code: seq<Instr>, a: Value, c: nat, u: int, w: nat, x: int, n: nat)
    requires 1 <= w <= 64 && (a.Inst? ==> a.id < |code|) && Pat(c, w) == Pat(u, w)
    requires OperandBits(code, a, |code|, n) == Pat(x, w)
    ensures var code' := code + [Instr(Mul, w, [a, Cst(Word(w, c))], 0)];
            OperandBits(code', Inst(|code|), |code'|, n) == Pat(x * u, w)
  {
    assert OperandBits(code, Cst(Word(w, c)), |code|, n) == c;
    hide FoldScalar, OperandBits, Pat;
    LastResult(code, Mul, w, a, Cst(Word(w, c)), n);
    FoldMulRaw(x, c, u, w);
  }

  lemma FoldMulRaw(x: int, c: nat, u: int, w: nat)
    requires 1 <= w <= 64 && Pat(c, w) == Pat(u, w)
    ensures FoldScalar(Mul, w, Pat(x, w), c) == Some(Pat(x * u, w))
  {
    hide Pat;
    MaskIsPat(Pat(x, w) * c, w);
    PatMulLeft(x, c, w);
    PatMul(x, c, w);
    PatMul(x, u, w);
  }

  lemma MulPoint(code: seq<Instr>, a: Value, b: Value, w: nat, x: int, y: int, n: nat)
    requires 1 <= w <= 64 && (a.Inst? ==> a.id < |code|) && (b.Inst? ==> b.id < |code|)
    requires OperandBits(code, a, |code|, n) == Pat(x, w) && OperandBits(code, b, |code|, n) == Pat(y, w)
    ensures var code' := code + [Instr(Mul, w, [a, b], 0)];
            OperandBits(code', Inst(|code|), |code'|, n) == Pat(x * y, w)
  {
    hide FoldScalar, Pat, OperandBits;
    LastResult(code, Mul, w, a, b, n);
    FoldMul(x, y, w);
  }

  lemma ExtUWPoint(code: seq<Instr>, a: Value, y: int, n: nat)
    requires (a.Inst? ==> a.id < |code|) && OperandBits(code, a, |code|, n) == Pat(y, 32)
    ensures var code' := code + [Instr(ExtUW, 64, [a], 0)];
            OperandBits(code', Inst(|code|), |code'|, n) == Pat(Pat(y, 32), 64)
  {
    hide FoldScalar, Pat, OperandBits;
    LastUnary(code, ExtUW, 64, a, n);
    FoldExtUW(y);
  }

  lemma ExtSWPoint(code: seq<Instr>, a: Value, y: int, n: nat)
    requires (a.Inst? ==> a.id < |code|) && OperandBits(code, a, |code|, n) == Pat(y, 32) && InRange(y, 32)
    ensures var code' := code + [Instr(ExtSW, 64, [a], 0)];
            OperandBits(code', Inst(|code|), |code'|, n) == Pat(y, 64)
  {
    hide FoldScalar, Pat, OperandBits, InRange;
    LastUnary(code, ExtSW, 64, a, n);
    Int32InRange(y);
    FoldExtSW(y);
  }

  lemma TruncPoint(code: seq<Instr>, a: Value, y: int, n: nat)
    requires (a.Inst? ==> a.id < |code|) && OperandBits(code, a, |code|, n) == Pat(y, 64)
    ensures var code' := code + [Instr(TruncD, 32, [a], 0)];
            OperandBits(code', Inst(|code|), |code'|, n) == Pat(y, 32)
  {
    hide FoldScalar, Pat, OperandBits;
    LastUnary(code, TruncD, 32, a, n);
    FoldTrunc(y);
  }

  /** A constant of the given width holding the pattern of c. */
  function ConstInt(c: int, w: nat): Value {
    Cst(Word(w, Pat(c, w)))
  }

  lemma AddComputes(code: seq<Instr>, a: Value, b: Value, w: nat, f: int -> int, g: int -> int, w0: nat)
    requires 1 <= w <= 64 && w0 >= 1 && Computes(code, a, f, w, w0) && Computes(code, b, g, w, w0)
    ensures Computes(code + [Instr(Add, w, [a, b], 0)], Inst(|code|), Plus(f, g), w, w0)
  {
    var code' := code + [Instr(Add, w, [a, b], 0)];
    hide Pat, InRange, OperandBits;
    forall x | InRange(x, w0)
      ensures OperandBits(code', Inst(|code|), |code'|, Pat(x, w0)) == Pat(f(x) + g(x), w)
    {
      AddPoint(code, a, b, w, f(x), g(x), Pat(x, w0));
    }
  }

  lemma SubComputes(code: seq<Instr>, a: Value, b: Value, w: nat, f: int -> int, g: int -> int, w0: nat)
    requires 1 <= w <= 64 && w0 >= 1 && Computes(code, a, f, w, w0) && Computes(code, b, g, w, w0)
    ensures Computes(code + [Instr(Sub, w, [a, b], 0)], Inst(|code|), Minus(f, g), w, w0)
  {
    var code' := code + [Instr(Sub, w, [a, b], 0)];
    hide Pat, InRange, OperandBits;
    forall x | InRange(x, w0)
      ensures OperandBits(code', Inst(|code|), |code'|, Pat(x, w0)) == Pat(f(x) - g(x), w)
    {
      SubPoint(code, a, b, w, f(x), g(x), Pat(x, w0));
    }
  }

  lemma MulComputes(code: seq<Instr>, a: Value, b: Value, w: nat, f: int -> int, g: int -> int, w0: nat)
    requires 1 <= w <= 64 && w0 >= 1 && Computes(code, a, f, w, w0) && Computes(code, b, g, w, w0)
    ensures Computes(code + [Instr(Mul, w, [a, b], 0)], Inst(|code|), Times(f, g), w, w0)
  {
    var code' := code + [Instr(Mul, w, [a, b], 0)];
    hide Pat, InRange, OperandBits;
    forall x | InRange(x, w0)
      ensures OperandBits(code', Inst(|code|), |code'|, Pat(x, w0)) == Pat(f(x) * g(x), w)
    {
      MulPoint(code, a, b, w, f(x), g(x), Pat(x, w0));
    }
  }

  lemma MulRawComputes(code: seq<Instr>, a: Value, c: nat, w: nat, f: int -> int, u: int, w0: nat)
    requires 1 <= w <= 64 && w0 >= 1 && Computes(code, a, f, w, w0) && Pat(c, w) == Pat(u, w)
    ensures Computes(code + [Instr(Mul, w, [a, Cst(Word(w, c))], 0)], Inst(|code|), Times(f, Constantly(u)), w, w0)
  {
    var code' := code + [Instr(Mul, w, [a, Cst(Word(w, c))], 0)];
    hide Pat, InRange, OperandBits;
    forall x | InRange(x, w0)
      ensures OperandBits(code', Inst(|code|), |code'|, Pat(x, w0)) == Pat(f(x) * u, w)
    {
      MulRawPoint(code, a, c, u, w, f(x), Pat(x, w0));
    }
  }

  lemma SarComputes(code: seq<Instr>, a: Value, k: nat, w: nat, f: int -> int, w0: nat)
    requires 1 <= w <= 64 && w0 >= 1 && k < 64 && Computes(code, a, f, w, w0)
    requires StaysIn(f, w, w0)
    ensures Computes(code + [Instr(Sar, w, [a, Cst(Word(w, k))], 0)], Inst(|code|), Down(f, k), w, w0)
  {
    var code' := code + [Instr(Sar, w, [a, Cst(Word(w, k))], 0)];
    hide Pat, InRange, Pow2, OperandBits;
    forall x | InRange(x, w0)
      ensures OperandBits(code', Inst(|code|), |code'|, Pat(x, w0)) == Pat(f(x) / Pow2(k), w)
    {
      SarPoint(code, a, k, w, f(x), Pat(x, w0));
    }
  }

  lemma ShrComputes(code: seq<Instr>, a: Value, k: nat, w: nat, f: int -> int, g: int -> int, w0: nat)
    requires 1 <= w <= 64 && w0 >= 1 && k < 64 && Computes(code, a, f, w, w0)
    requires ShiftsTo(f, g, k, w, w0)
    ensures Computes(code + [Instr(Shr, w, [a, Cst(Word(w, k))], 0)], Inst(|code|), g, w, w0)
  {
    var code' := code + [Instr(Shr, w, [a, Cst(Word(w, k))], 0)];
    hide InRange, Pow2, OperandBits;
    forall x | InRange(x, w0)
      ensures OperandBits(code', Inst(|code|), |code'|, Pat(x, w0)) == Pat(g(x), w)
    {
      ShrPoint(code, a, k, w, Pat(f(x), w), Pat(x, w0));
    }
  }

  lemma ExtSWComputes(code: seq<Instr>, a: Value, f: int -> int, w0: nat)
    requires w0 >= 1 && Computes(code, a, f, 32, w0) && StaysIn(f, 32, w0)
    ensures Computes(code + [Instr(ExtSW, 64, [a], 0)], Inst(|code|), f, 64, w0)
  {
    var code' := code + [Instr(ExtSW, 64, [a], 0)];
    hide FoldScalar, Pat, InRange, OperandBits;
    forall x | InRange(x, w0)
      ensures OperandBits(code', Inst(|code|), |code'|, Pat(x, w0)) == Pat(f(x), 64)
    {
      ExtSWPoint(code, a, f(x), Pat(x, w0));
    }
  }

  lemma ExtUWComputes(code: seq<Instr>, a: Value, f: int -> int, w0: nat)
    requires w0 >= 1 && Computes(code, a, f, 32, w0)
    ensures Computes(code + [Instr(ExtUW, 64, [a], 0)], Inst(|code|), LowWord(f), 64, w0)
  {
    var code' := code + [Instr(ExtUW, 64, [a], 0)];
    hide FoldScalar, Pat, InRange, OperandBits;
    forall x | InRange(x, w0)
      ensures OperandBits(code', Inst(|code|), |code'|, Pat(x, w0)) == Pat(LowWord(f)(x), 64)
    {
      ExtUWPoint(code, a, f(x), Pat(x, w0));
    }
  }

  lemma TruncDComputes(code: seq<Instr>, a: Value, f: int -> int, w0: nat)
    requires w0 >= 1 && Computes(code, a, f, 64, w0)
    ensures Computes(code + [Instr(TruncD, 32, [a], 0)], Inst(|code|), f, 32, w0)
  {
    var code' := code + [Instr(TruncD, 32, [a], 0)];
    hide FoldScalar, Pat, InRange, OperandBits;
    forall x | InRange(x, w0)
      ensures OperandBits(code', Inst(|code|), |code'|, Pat(x, w0)) == Pat(f(x), 32)
    {
      TruncPoint(code, a, f(x), Pat(x, w0));
    }
  }

  class IRBuilder {
    var code: seq<Instr>

    constructor ()
      ensures code == []
    {
      code := [];
    }

    method CreateAdd(a: Value, b: Value, w: nat, ghost f: int -> int, ghost g: int -> int, ghost w0: nat)
      returns (v: Value)
      requires 1 <= w <= 64 && w0 >= 1 && Computes(code, a, f, w, w0) && Computes(code, b, g, w, w0)
      modifies this
      ensures code == old(code) + [Instr(Add, w, [a, b], 0)] && v == Inst(|old(code)|)
      ensures Computes(code, v, Plus(f, g), w, w0)
    {
      hide *;
      AddComputes(code, a, b, w, f, g, w0);
      code := code + [Instr(Add, w, [a, b], 0)];
      v := Inst(|code| - 1);
    }

    method CreateSub(a: Value, b: Value, w: nat, ghost f: int -> int, ghost g: int -> int, ghost w0: nat)
      returns (v: Value)
      requires 1 <= w <= 64 && w0 >= 1 && Computes(code, a, f, w, w0) && Computes(code, b, g, w, w0)
      modifies this
      ensures code == old(code) + [Instr(Sub, w, [a, b], 0)] && v == Inst(|old(code)|)
      ensures Computes(code, v, Minus(f, g), w, w0)
    {
      hide *;
      SubComputes(code, a, b, w, f, g, w0);
      code := code + [Instr(Sub, w, [a, b], 0)];
      v := Inst(|code| - 1);
    }

    method CreateMul(a: Value, b: Value, w: nat, ghost f: int -> int, ghost g: int -> int, ghost w0: nat)
      returns (v: Value)
      requires 1 <= w <= 64 && w0 >= 1 && Computes(code, a, f, w, w0) && Computes(code, b, g, w, w0)
      modifies this
      ensures code == old(code) + [Instr(Mul, w, [a, b], 0)] && v == Inst(|old(code)|)
      ensures Computes(code, v, Times(f, g), w, w0)
    {
      hide *;
      MulComputes(code, a, b, w, f, g, w0);
      code := code + [Instr(Mul, w, [a, b], 0)];
      v := Inst(|code| - 1);
    }

    /** A product with a constant as it is stored. */
    method CreateMulRaw(a: Value, c: nat, w: nat, ghost f: int -> int, ghost u: int, ghost w0: nat)
      returns (v: Value)
      requires 1 <= w <= 64 && w0 >= 1 && Computes(code, a, f, w, w0) && Pat(c, w) == Pat(u, w)
      modifies this
      ensures code == old(code) + [Instr(Mul, w, [a, Cst(Word(w, c))], 0)] && v == Inst(|old(code)|)
      ensures Computes(code, v, Times(f, Constantly(u)), w, w0)
    {
      hide *;
      MulRawComputes(code, a, c, w, f, u, w0);
      code := code + [Instr(Mul, w, [a, Cst(Word(w, c))], 0)];
      v := Inst(|code| - 1);
    }

    method CreateSar(a: Value, k: nat, w: nat, ghost f: int -> int, ghost w0: nat)
      returns (v: Value)
      requires 1 <= w <= 64 && w0 >= 1 && k < 64 && Computes(code, a, f, w, w0)
      requires StaysIn(f, w, w0)
      modifies this
      ensures code == old(code) + [Instr(Sar, w, [a, Cst(Word(w, k))], 0)] && v == Inst(|old(code)|)
      ensures Computes(code, v, Down(f, k), w, w0)
    {
      hide *;
      SarComputes(code, a, k, w, f, w0);
      code := code + [Instr(Sar, w, [a, Cst(Word(w, k))], 0)];
      v := Inst(|code| - 1);
    }

    /** A logical shift; g must say what it makes of the patterns. */
    method CreateShr(a: Value, k: nat, w: nat, ghost f: int -> int, ghost g: int -> int, ghost w0: nat)
      returns (v: Value)
      requires 1 <= w <= 64 && w0 >= 1 && k < 64 && Computes(code, a, f, w, w0)
      requires ShiftsTo(f, g, k, w, w0)
      modifies this
      ensures code == old(code) + [Instr(Shr, w, [a, Cst(Word(w, k))], 0)] && v == Inst(|old(code)|)
      ensures Computes(code, v, g, w, w0)
    {
      hide *;
      ShrComputes(code, a, k, w, f, g, w0);
      code := code + [Instr(Shr, w, [a, Cst(Word(w, k))], 0)];
      v := Inst(|code| - 1);
    }

    method CreateExtSW(a: Value, ghost f: int -> int, ghost w0: nat) returns (v: Value)
      requires w0 >= 1 && Computes(code, a, f, 32, w0) && StaysIn(f, 32, w0)
      modifies this
      ensures code == old(code) + [Instr(ExtSW, 64, [a], 0)] && v == Inst(|old(code)|)
      ensures Computes(code, v, f, 64, w0)
    {
      hide *;
      ExtSWComputes(code, a, f, w0);
      code := code + [Instr(ExtSW, 64, [a], 0)];
      v := Inst(|code| - 1);
    }

    method CreateExtUW(a: Value, ghost f: int -> int, ghost w0: nat) returns (v: Value)
      requires w0 >= 1 && Computes(code, a, f, 32, w0)
      modifies this
      ensures code == old(code) + [Instr(ExtUW, 64, [a], 0)] && v == Inst(|old(code)|)
      ensures Computes(code, v, LowWord(f), 64, w0)
    {
      hide *;
      ExtUWComputes(code, a, f, w0);
      code := code + [Instr(ExtUW, 64, [a], 0)];
      v := Inst(|code| - 1);
    }

    method CreateTruncD(a: Value, ghost f: int -> int, ghost w0: nat) returns (v: Value)
      requires w0 >= 1 && Computes(code, a, f, 64, w0)
      modifies this
      ensures code == old(code) + [Instr(TruncD, 32, [a], 0)] && v == Inst(|old(code)|)
      ensures Computes(code, v, f, 32, w0)
    {
      hide *;
      TruncDComputes(code, a, f, w0);
      code := code + [Instr(TruncD, 32, [a], 0)];
      v := Inst(|code| - 1);
    }
  }

  // ----- Pointwise facts behind the emitted code

  lemma ConstComputes(code: seq<Instr>, c: int, w: nat, w0: nat)
    requires w0 >= 1
    ensures Computes(code, ConstInt(c, w), Constantly(c), w, w0)
  {
  }

  lemma MultiplierSize(d: int, sm: Magic)
    requires IsInt32(d) && Abs(d) >= 2 && IsMagicFor(d, sm)
    ensures Abs(Multiplier(sm)) < TWO32
  {
    var m := if d < 0 then -Multiplier(sm) else Multiplier(sm);
    SignedProduct(d, m);
    MultiplierBound(d, 32 + sm.shift, m);
  }

  lemma ProductInRange(x: int, c: int)
    requires IsInt32(x) && IsInt32(c)
    ensures InRange(x * c, 64)
  {
    Pow2Values();
    MulMono(Abs(x), Abs(c), TWO31, TWO31);
    AbsProduct(x, c);
  }

  lemma AbsProduct(x: int, y: int)
    ensures x * y == Abs(x) * Abs(y) || x * y == -(Abs(x) * Abs(y))
  {
    if x < 0 { assert x * y == -((-x) * y); }
    if y < 0 { assert Abs(x) * y == -(Abs(x) * (-y)); }
  }

  lemma FloorShift(y: int, m: int, k: int)
    requires m > 0
    ensures (y + m * k) / m == y / m + k
  {
    var q, r := y / m, y % m;
    assert y == m * q + r;
    assert y + m * k == m * (q + k) + r;
    DivUnique(y + m * k, m, q + k, r);
  }

  lemma FloorFloor(y: int, a: int, b: int)
    requires a > 0 && b > 0
    ensures a * b > 0 && (y / a) / b == y / (a * b)
  {
    var q, r := y / a, y % a;
    var u, v := q / b, q % b;
    assert y == a * q + r && q == b * u + v;
    assert a * q == a * (b * u) + a * v;
    assert a * (b * u) == (a * b) * u;
    MulLe(a, 0, v);
    MulLe(a, v, b - 1);
    assert a * (b - 1) == a * b - a;
    assert a * b >= a by { MulLe(a, 1, b); }
    DivUnique(y, a * b, u, a * v + r);
  }

  /** The numerator added back or taken off makes up for the truncated multiplier. */
  lemma CorrectedHigh(x: int, sm: Magic)
    ensures (x * sm.magic) / TWO32 + sm.numeratorCorrection * x == (x * Multiplier(sm)) / TWO32
  {
    var k := sm.numeratorCorrection * x;
    assert x * Multiplier(sm) == x * sm.magic + TWO32 * k by {
      assert x * (sm.magic + sm.numeratorCorrection * TWO32)
          == x * sm.magic + x * (sm.numeratorCorrection * TWO32);
      assert x * (sm.numeratorCorrection * TWO32) == TWO32 * (sm.numeratorCorrection * x);
    }
    FloorShift(x * sm.magic, TWO32, k);
  }

  lemma HighInRange(x: int, m: int)
    requires IsInt32(x) && Abs(m) < TWO32
    ensures IsInt32((x * m) / TWO32)
  {
    AbsProduct(x, m);
    MulMono(Abs(x), Abs(m), TWO31, TWO32 - 1);
  }

  lemma ShiftedInRange(h: int, k: nat)
    requires IsInt32(h)
    ensures IsInt32(h / Pow2(k))
  {
    var p, q := Pow2(k), h / Pow2(k);
    assert h == p * q + h % p;
    if h >= 0 {
      if q < 0 { MulLe(p, q, -1); }
      MulLe(q, 1, p);
    } else {
      if q >= 0 { MulLe(p, 0, q); }
      MulLe(-q - 1, 1, p);
      assert (-q - 1) * p == -(p * q) - p;
    }
  }

  /** Shifting the sign bit down. */
  lemma SignBit(y: int)
    requires IsInt32(y)
    ensures Pat(y, 32) / Pow2(31) == Pat(if y < 0 then 1 else 0, 32)
  {
    Pow2Values();
    PatIdem(1, 32);
    PatIdem(0, 32);
    if y >= 0 {
      PatIdem(y, 32);
    } else {
      PatShift(y, 1, 32);
      PatIdem(y + TWO32, 32);
    }
  }

  // ----- The magic path

  ghost predicate StaysIn(f: int -> int, w: nat, w0: nat)
    requires w >= 1 && w0 >= 1
  {
    forall x | InRange(x, w0) :: InRange(f(x), w)
  }

  lemma ProductStays(c: int)
    requires IsInt32(c)
    ensures StaysIn(Times(Numerator(), Constantly(c)), 64, 32) && StaysIn(Numerator(), 32, 32)
  {
    forall x | InRange(x, 32)
      ensures InRange(x * c, 64)
    {
      Int32InRange(x);
      ProductInRange(x, c);
    }
  }

  lemma NameHigh(code: seq<Instr>, v: Value, c: int, w: nat)
    requires Computes(code, v, Down(Times(Numerator(), Constantly(c)), 32), w, 32)
    ensures Computes(code, v, High(c, 32), w, 32)
  {
    hide Pow2;
    SameFunction(code, v, Down(Times(Numerator(), Constantly(c)), 32), High(c, 32), w, 32);
  }

  /** Extend, multiply, shift arithmetically by 32, truncate. */
  method EmitProduct(b: IRBuilder, n: Value, c: int) returns (v: Value)
    requires IsInt32(c) && Computes(b.code, n, Numerator(), 32, 32)
    modifies b
    ensures old(b.code) <= b.code && Computes(b.code, v, High(c, 32), 32, 32)
  {
    hide *;
    ProductStays(c);
    v := b.CreateExtSW(n, Numerator(), 32);
    ConstComputes(b.code, c, 64, 32);
    v := b.CreateMul(v, ConstInt(c, 64), 64, Numerator(), Constantly(c), 32);
    v := b.CreateSar(v, 32, 64, Times(Numerator(), Constantly(c)), 32);
    NameHigh(b.code, v, c, 64);
    v := b.CreateTruncD(v, High(c, 32), 32);
  }

  lemma NameCorrected(code: seq<Instr>, v: Value, sm: Magic)
    requires -1 <= sm.numeratorCorrection <= 1
    requires Computes(code, v, if sm.numeratorCorrection > 0 then Plus(High(sm.magic, 32), Numerator())
                               else if sm.numeratorCorrection < 0 then Minus(High(sm.magic, 32), Numerator())
                               else High(sm.magic, 32), 32, 32)
    ensures Computes(code, v, High(Multiplier(sm), 32), 32, 32)
  {
    var f := if sm.numeratorCorrection > 0 then Plus(High(sm.magic, 32), Numerator())
             else if sm.numeratorCorrection < 0 then Minus(High(sm.magic, 32), Numerator())
             else High(sm.magic, 32);
    Pow2Values();
    forall x | InRange(x, 32)
      ensures f(x) == High(Multiplier(sm), 32)(x)
    {
      hide Multiplier, InRange, Pow2;
      CorrectedHigh(x, sm);
    }
    SameFunction(code, v, f, High(Multiplier(sm), 32), 32, 32);
  }

  method EmitHigh(b: IRBuilder, n: Value, sm: Magic) returns (v: Value)
    requires IsInt32(sm.magic) && -1 <= sm.numeratorCorrection <= 1
    requires Computes(b.code, n, Numerator(), 32, 32)
    modifies b
    ensures old(b.code) <= b.code && Computes(b.code, v, High(Multiplier(sm), 32), 32, 32)
  {
    hide *;
    ghost var code0 := b.code;
    v := EmitProduct(b, n, sm.magic);
    Later(code0, b.code, n, Numerator(), 32, 32);
    if sm.numeratorCorrection > 0 {
      v := b.CreateAdd(v, n, 32, High(sm.magic, 32), Numerator(), 32);
    } else if sm.numeratorCorrection < 0 {
      v := b.CreateSub(v, n, 32, High(sm.magic, 32), Numerator(), 32);
    }
    NameCorrected(b.code, v, sm);
  }

  lemma HighStays(d: int, sm: Magic)
    requires IsInt32(d) && Abs(d) >= 2 && IsMagicFor(d, sm)
    ensures StaysIn(High(Multiplier(sm), 32), 32, 32)
  {
    MultiplierSize(d, sm);
    Pow2Values();
    forall x | InRange(x, 32)
      ensures InRange(High(Multiplier(sm), 32)(x), 32)
    {
      Int32InRange(x);
      HighInRange(x, Multiplier(sm));
      Int32InRange((x * Multiplier(sm)) / TWO32);
    }
  }

  lemma NameShifted(code: seq<Instr>, v: Value, m: int, k: nat)
    requires Computes(code, v, Down(High(m, 32), k), 32, 32)
    ensures Computes(code, v, High(m, 32 + k), 32, 32)
  {
    forall x | InRange(x, 32)
      ensures Down(High(m, 32), k)(x) == High(m, 32 + k)(x)
    {
      hide Pow2, InRange;
      FloorFloor(x * m, Pow2(32), Pow2(k));
      Pow2Adds(32, k);
    }
    SameFunction(code, v, Down(High(m, 32), k), High(m, 32 + k), 32, 32);
  }

  /** The shifted product, its sign bit, and the quotient the two add up to. */
  lemma SignPoint(d: int, x: int, sm: Magic)
    requires IsInt32(d) && Abs(d) >= 2 && IsMagicFor(d, sm) && IsInt32(x) && sm.shift >= 0
    ensures var q := (x * Multiplier(sm)) / Pow2(32 + sm.shift);
            && Pat(q, 32) / Pow2(31) == Pat(if q < 0 then 1 else 0, 32)
            && q + (if q < 0 then 1 else 0) == TruncDiv(x, d)
  {
    hide IsMagicFor, Multiplier, Pow2, Pat, TruncDiv;
    var m := Multiplier(sm);
    MultiplierSize(d, sm);
    HighInRange(x, m);
    ShiftedInRange((x * m) / TWO32, sm.shift);
    Pow2Adds(32, sm.shift);
    Pow2Values();
    FloorFloor(x * m, TWO32, Pow2(sm.shift));
    SignBit((x * m) / Pow2(32 + sm.shift));
    MagicQuotient(d, x, sm);
  }

  /** What the final shift and addition need and give. */
  ghost predicate SignAdds(f: int -> int, d: int)
    requires d != 0
  {
    && ShiftsTo(f, IsNegative(f), 31, 32, 32)
    && (forall x | InRange(x, 32) :: Plus(f, IsNegative(f))(x) == Quotient(d)(x))
  }

  lemma SignAddsUp(d: int, sm: Magic)
    requires IsInt32(d) && Abs(d) >= 2 && IsMagicFor(d, sm) && sm.shift >= 0
    ensures SignAdds(High(Multiplier(sm), 32 + sm.shift), d)
  {
    hide IsMagicFor, Multiplier, Pow2, Pat, InRange, TruncDiv;
    var f := High(Multiplier(sm), 32 + sm.shift);
    forall x | InRange(x, 32)
      ensures Pat(f(x), 32) / Pow2(31) == Pat(IsNegative(f)(x), 32)
      ensures Plus(f, IsNegative(f))(x) == Quotient(d)(x)
    {
      Int32InRange(x);
      SignPoint(d, x, sm);
    }
  }

  method EmitSign(b: IRBuilder, q: Value, d: int, ghost f: int -> int) returns (v: Value)
    requires d != 0 && Computes(b.code, q, f, 32, 32) && SignAdds(f, d)
    modifies b
    ensures old(b.code) <= b.code && Computes(b.code, v, Quotient(d), 32, 32)
  {
    hide Computes, InRange, ShiftsTo, IsNegative, Plus, Quotient;
    ghost var code0 := b.code;
    v := b.CreateShr(q, 31, 32, f, IsNegative(f), 32);
    Later(code0, b.code, q, f, 32, 32);
    v := b.CreateAdd(q, v, 32, f, IsNegative(f), 32);
    SameFunction(b.code, v, Plus(f, IsNegative(f)), Quotient(d), 32, 32);
  }

  lemma MagicFacts(d: int, sm: Magic)
    requires Abs(d) >= 2 && IsMagicFor(d, sm)
    ensures d != 0 && 0 <= sm.shift <= 30 && IsInt32(sm.magic) && -1 <= sm.numeratorCorrection <= 1
  {
  }

  /** Multiply, take the high half, correct, shift, and add the sign. */
  method EmitMagic(b: IRBuilder, n: Value, d: int, sm: Magic) returns (q: Value)
    requires IsInt32(d) && Abs(d) >= 2 && IsMagicFor(d, sm)
    requires Computes(b.code, n, Numerator(), 32, 32)
    modifies b
    ensures old(b.code) <= b.code && Computes(b.code, q, Quotient(d), 32, 32)
  {
    hide *;
    MagicFacts(d, sm);
    var m := Multiplier(sm);
    q := EmitHigh(b, n, sm);
    if sm.shift > 0 {
      HighStays(d, sm);
      q := b.CreateSar(q, sm.shift, 32, High(m, 32), 32);
      NameShifted(b.code, q, m, sm.shift);
    }
    SignAddsUp(d, sm);
    q := EmitSign(b, q, d, High(m, 32 + sm.shift));
  }

  // ----- Powers of two

  /** What is added to a negative numerator before shifting. */
  ghost function Adjust(k: nat): int -> int {
    x => if x < 0 then Pow2(k) - 1 else 0
  }

  lemma AllOnesShifted(k: nat, w: nat)
    requires k <= w
    ensures (Pow2(w) - 1) / Pow2(w - k) == Pow2(k) - 1
  {
    Pow2Adds(w - k, k);
    hide *;
    OneShort(Pow2(w - k), Pow2(k));
  }

  lemma OneShort(a: int, b: int)
    requires a > 0
    ensures (a * b - 1) / a == b - 1
  {
    assert a * (b - 1) == a * b - a;
    DivUnique(a * b - 1, a, b - 1, a - 1);
  }

  lemma SignFill(x: int, w: nat)
    requires w >= 1 && InRange(x, w)
    ensures x / Pow2(w - 1) == if x < 0 then -1 else 0
  {
    var m := Pow2(w - 1);
    if x < 0 { DivUnique(x, m, -1, x + m); } else { DivUnique(x, m, 0, x); }
  }

  lemma AdjustShifts(k: nat, w: nat)
    requires 1 <= k < w
    ensures ShiftsTo(Down(Numerator(), w - 1), Adjust(k), w - k, w, w)
  {
    forall x | InRange(x, w)
      ensures Pat(x / Pow2(w - 1), w) / Pow2(w - k) == Pat(Adjust(k)(x), w)
    {
      SignFill(x, w);
      Pow2Grows(k, w);
      if x < 0 {
        PatShift(-1, 1, w);
        PatIdem(Pow2(w) - 1, w);
        AllOnesShifted(k, w);
        PatIdem(Pow2(k) - 1, w);
      } else {
        PatIdem(0, w);
      }
    }
  }

  lemma AdjustedStays(k: nat, w: nat)
    requires 1 <= k < w
    ensures StaysIn(Plus(Numerator(), Adjust(k)), w, w) && StaysIn(Numerator(), w, w)
  {
    if k < w - 1 { Pow2Grows(k, w - 1); }
  }

  /** Rounding up by shifting: the quotient of a negative numerator is rounded towards zero. */
  lemma AdjustedQuotient(x: int, k: nat)
    ensures (x + Adjust(k)(x)) / Pow2(k) == TruncDiv(x, Pow2(k))
  {
    var p := Pow2(k);
    if x < 0 {
      var q, r := (-x) / p, (-x) % p;
      assert -x == p * q + r;
      assert p * (-q) == -(p * q);
      DivUnique(x + (p - 1), p, -q, p - 1 - r);
    }
  }

  lemma NamePowerQuotient(code: seq<Instr>, v: Value, k: nat, w: nat)
    requires w >= 1 && Computes(code, v, Down(Plus(Numerator(), Adjust(k)), k), w, w)
    ensures Computes(code, v, Quotient(Pow2(k)), w, w)
  {
    forall x | InRange(x, w)
      ensures Down(Plus(Numerator(), Adjust(k)), k)(x) == Quotient(Pow2(k))(x)
    {
      AdjustedQuotient(x, k);
    }
    SameFunction(code, v, Down(Plus(Numerator(), Adjust(k)), k), Quotient(Pow2(k)), w, w);
  }

  lemma NegatedDivisor(x: int, d: int)
    requires d > 0
    ensures TruncDiv(x, 0 - d) == 0 - TruncDiv(x, d)
  {
  }

  lemma NameNegated(code: seq<Instr>, v: Value, d: int, w: nat)
    requires w >= 1 && d > 0 && Computes(code, v, Minus(Constantly(0), Quotient(d)), w, w)
    ensures Computes(code, v, Quotient(0 - d), w, w)
  {
    forall x | InRange(x, w)
      ensures Minus(Constantly(0), Quotient(d))(x) == Quotient(0 - d)(x)
    {
      hide InRange, TruncDiv;
      NegatedDivisor(x, d);
    }
    hide Computes, InRange;
    SameFunction(code, v, Minus(Constantly(0), Quotient(d)), Quotient(0 - d), w, w);
  }

  /** Fill with the sign, keep its low k bits, add, shift, and negate for a negative divisor. */
  method EmitPowerOfTwo(b: IRBuilder, n: Value, k: nat, negative: bool, w: nat) returns (q: Value)
    requires 1 <= k < w <= 64 && Computes(b.code, n, Numerator(), w, w)
    modifies b
    ensures old(b.code) <= b.code
    ensures Computes(b.code, q, Quotient(if negative then 0 - Pow2(k) else Pow2(k)), w, w)
  {
    hide *;
    ghost var code0 := b.code;
    AdjustedStays(k, w);
    AdjustShifts(k, w);
    var sign := b.CreateSar(n, w - 1, w, Numerator(), w);
    var adj := b.CreateShr(sign, w - k, w, Down(Numerator(), w - 1), Adjust(k), w);
    Later(code0, b.code, n, Numerator(), w, w);
    var nAdj := b.CreateAdd(n, adj, w, Numerator(), Adjust(k), w);
    q := b.CreateSar(nAdj, k, w, Plus(Numerator(), Adjust(k)), w);
    NamePowerQuotient(b.code, q, k, w);
    if negative {
      ConstComputes(b.code, 0, w, w);
      q := b.CreateSub(ConstInt(0, w), q, w, Constantly(0), Quotient(Pow2(k)), w);
      NameNegated(b.code, q, Pow2(k), w);
    }
  }

  // ----- The instruction

  ghost predicate IsPower(a: nat) {
    exists k: nat :: a == Pow2(k)
  }

  lemma {:induction false} AndPredecessor(a: nat)
    requires a > 0
    ensures BitAnd(a, a - 1) == 0 <==> IsPower(a)
  {
    if a == 1 {
      assert a == Pow2(0);
    } else if a % 2 == 1 {
      AndSelf(a / 2);
      assert BitAnd(a, a - 1) == 2 * BitAnd(a / 2, a / 2);
      forall k: nat ensures a != Pow2(k) {
        if k > 0 { assert Pow2(k) == 2 * Pow2(k - 1); }
      }
    } else {
      AndPredecessor(a / 2);
      assert (a - 1) / 2 == a / 2 - 1;
      forall k: nat ensures a == Pow2(k) ==> IsPower(a / 2) {
        if k > 0 && a == Pow2(k) { assert a / 2 == Pow2(k - 1); }
      }
      forall k: nat ensures a / 2 == Pow2(k) ==> IsPower(a) {
        if a / 2 == Pow2(k) { assert a == Pow2(k + 1); }
      }
    }
  }

  /** A 32-bit divisor is held in 64 bits sign-extended or zero-extended. */
  predicate StoredAs(c: nat, w: nat) {
    c < TWO64 && (w == 32 ==> c < TWO32 || c >= TWO64 - TWO31)
  }

  ghost predicate HoldsInteger(c: nat, w: nat, x: int)
    requires w >= 1
  {
    InRange(x, w) && (c == Pat(x, w) || c == Pat(x, 64))
  }

  /** Those are the w-bit integers, their patterns extended by zeros or by the sign. */
  lemma StoredExactly(c: nat, w: nat)
    requires w == 32 || w == 64
    ensures StoredAs(c, w) <==> exists x :: HoldsInteger(c, w, x)
  {
    Pow2Values();
    hide Pow2, Pat;
    if StoredAs(c, w) {
      var n := if c < TWO32 then w else 64;
      var x := SignedOf(c, n);
      assert HoldsInteger(c, w, x);
    }
    forall x | HoldsInteger(c, w, x)
      ensures StoredAs(c, w)
    {
      HeldIsStored(c, w, x);
    }
  }

  lemma SignedOf(c: nat, w: nat) returns (x: int)
    requires 1 <= w <= 64 && c < Pow2(w)
    ensures InRange(x, w) && Pat(x, w) == c && x == if c < Pow2(w - 1) then c else c - Pow2(w)
  {
    x := if c < Pow2(w - 1) then c else c - Pow2(w);
    assert Pow2(w) == 2 * Pow2(w - 1);
    PatIdem(c, w);
    if x != c { PatShift(c, -1, w); }
  }

  lemma HeldIsStored(c: nat, w: nat, x: int)
    requires (w == 32 || w == 64) && HoldsInteger(c, w, x)
    ensures StoredAs(c, w)
  {
    Pow2Values();
    hide Pow2;
    if w == 32 {
      if x >= 0 { PatIdem(x, 64); } else { PatShift(x, 1, 64); PatIdem(x + Pow2(64), 64); }
    }
  }

  /** The divisor the emitted code divides by: only one stored constant is read otherwise than by the division. */
  function UsedDivisor(c: nat, w: nat): int
    requires w >= 1
  {
    if w == 32 && c == TWO31 then TWO31 else SignExtend(c, w)
  }

  /** The divisors that are replaced. */
  ghost predicate Reducible(c: nat, w: nat) {
    && SignExtend(c, 64) != 0
    && (w == 64 ==> IsPower(Abs(SignExtend(c, 64))))
    && (w == 32 ==> c != TWO32 - 1)
  }

  /** At every numerator the value has the bits that the operation folds to. */
  ghost predicate Replaces(code: seq<Instr>, v: Value, op: Opcode, c: nat, w: nat)
    requires w >= 1
  {
    forall n: nat | n < Pow2(w) :: FoldScalar(op, w, n, c) == Some(OperandBits(code, v, |code|, n))
  }

  // ----- The stored divisor, as each side reads it

  lemma Signed64Is(c: nat)
    requires c < TWO64
    ensures SignExtend(c, 64) == if c < 2 * TWO62 then c else c - TWO64
  {
    hide Pow2;
    Pow2Values();
  }

  lemma Signed32Is(c: nat)
    requires StoredAs(c, 32)
    ensures SignExtend(c, 32) == if c < TWO31 then c else if c < TWO32 then c - TWO32 else c - TWO64
  {
    hide Pow2;
    Pow2Values();
    if c < TWO32 { ModUnique(c, TWO32, 0, c); } else { ModUnique(c, TWO32, TWO32 - 1, c - (TWO64 - TWO32)); }
  }

  lemma StoredSmall(c: nat, w: nat)
    requires StoredAs(c, w) && (w == 32 || w == 64)
    ensures Pat(c, w) == Pat(UsedDivisor(c, w), w)
    ensures w == 64 ==> SignExtend(c, 64) == UsedDivisor(c, w)
    ensures w == 64 ==> 0 - 2 * TWO62 <= SignExtend(c, 64) < 2 * TWO62
    ensures w == 32 ==> SignExtend(c, 64) == if c < TWO32 then c else c - TWO64
    ensures w == 32 ==> UsedDivisor(c, w) == if c <= TWO31 then c else if c < TWO32 then c - TWO32 else c - TWO64
  {
    hide Pow2, SignExtend, Pat;
    Pow2Values();
    Signed64Is(c);
    if w == 64 {
      if c >= 2 * TWO62 { PatShift(c, -1, 64); }
    } else {
      Signed32Is(c);
      if TWO31 < c < TWO32 { PatShift(c, -1, 32); }
      if c >= TWO32 { PatShift(c, 0 - TWO32, 32); }
    }
  }

  lemma PowerDivisor(c: nat, w: nat, k: nat)
    requires StoredAs(c, w) && (w == 32 || w == 64)
    requires Abs(SignExtend(c, 64)) == Pow2(k) && Pow2(k) > 1
    ensures 1 <= k < w
    ensures UsedDivisor(c, w) == if SignExtend(c, 64) < 0 then 0 - Pow2(k) else Pow2(k)
    ensures Reducible(c, w)
  {
    StoredSmall(c, w);
    Pow2Values();
    hide Pow2, SignExtend, Pat, UsedDivisor;
    if k > w { Pow2Grows(w, k); }
    if k < 31 { Pow2Grows(k, 31); }
    if k > 32 { Pow2Grows(32, k); }
  }

  lemma ToInt32Near(x: int)
    requires 0 - TWO31 <= x < TWO31 + TWO32
    ensures ToInt32(x) == if x < TWO31 then x else x - TWO32
  {
  }

  lemma NotHalfRange(a: nat)
    requires !IsPower(a)
    ensures a != TWO31
  {
    Pow2Values();
    assert Pow2(31) == TWO31;
  }

  lemma MagicDivisor(c: nat, d: int)
    requires StoredAs(c, 32) && d == SignExtend(c, 64) && Abs(d) > 1 && !IsPower(Abs(d))
    ensures c != TWO32 - 1 ==> Abs(ToInt32(d)) >= 2 && ToInt32(d) == UsedDivisor(c, 32)
    ensures c == TWO32 - 1 ==> ToInt32(d) == -1
  {
    hide SignExtend, Pat, UsedDivisor, IsPower, ToInt32;
    StoredSmall(c, 32);
    NotHalfRange(Abs(d));
    ToInt32Near(d);
  }

  lemma UnitDivisor(c: nat, w: nat)
    requires StoredAs(c, w) && (w == 32 || w == 64) && Abs(SignExtend(c, 64)) == 1
    ensures UsedDivisor(c, w) == SignExtend(c, 64) && Reducible(c, w)
  {
    StoredSmall(c, w);
    assert Pow2(0) == 1;
    hide SignExtend, Pat, UsedDivisor;
  }

  lemma NameUnit(code: seq<Instr>, v: Value, d: int, w: nat)
    requires w >= 1 && (d == 1 || d == -1)
    requires Computes(code, v, if d == 1 then Numerator() else Minus(Constantly(0), Numerator()), w, w)
    ensures Computes(code, v, Quotient(d), w, w)
  {
    var f := if d == 1 then Numerator() else Minus(Constantly(0), Numerator());
    forall x | InRange(x, w)
      ensures f(x) == Quotient(d)(x)
    {
      hide InRange;
    }
    hide Computes, InRange;
    SameFunction(code, v, f, Quotient(d), w, w);
  }

  lemma NameRemainder(code: seq<Instr>, v: Value, d: int, w: nat)
    requires w >= 1 && d != 0
    requires Computes(code, v, Minus(Numerator(), Times(Quotient(d), Constantly(d))), w, w)
    ensures Computes(code, v, Remainder(d), w, w)
  {
    var f := Minus(Numerator(), Times(Quotient(d), Constantly(d)));
    forall x | InRange(x, w)
      ensures f(x) == Remainder(d)(x)
    {
      hide InRange, TruncDiv;
    }
    hide Computes, InRange;
    SameFunction(code, v, f, Remainder(d), w, w);
  }

  lemma IrreducibleWide(c: nat, d: int)
    requires d == SignExtend(c, 64) && !IsPower(Abs(d))
    ensures !Reducible(c, 64)
  {
  }

  lemma ReducibleMagic(c: nat)
    requires SignExtend(c, 64) != 0
    ensures Reducible(c, 32) <==> c != TWO32 - 1
  {
  }

  /** The shift that reaches a power of two. */
  method Log2(a: nat) returns (k: nat)
    requires a > 0 && IsPower(a)
    ensures a == Pow2(k)
  {
    k := 0;
    ghost var e: nat :| a == Pow2(e);
    while Pow2(k) < a
      invariant k <= e
      decreases e - k
    {
      if k == e { assert false; }
      k := k + 1;
    }
    if k < e { Pow2Grows(k, e); }
  }

  /** The quotient by the constant, where the divisor is one that is reduced. */
  method EmitQuotient(b: IRBuilder, n: Value, c: nat, w: nat) returns (done: bool, q: Value)
    requires (w == 32 || w == 64) && StoredAs(c, w) && Computes(b.code, n, Numerator(), w, w)
    modifies b
    ensures done <==> Reducible(c, w)
    ensures old(b.code) <= b.code && (!done ==> b.code == old(b.code))
    ensures done ==> UsedDivisor(c, w) != 0 && Computes(b.code, q, Quotient(UsedDivisor(c, w)), w, w)
  {
    hide *;
    q := n;
    var d := SignExtend(c, 64);
    if d == 0 { ZeroDivisor(c, w); return false, q; }
    var absD := Abs(d);
    AbsValue(d);
    if d == 1 || d == -1 {
      UnitDivisor(c, w);
      if d == -1 {
        ConstComputes(b.code, 0, w, w);
        q := b.CreateSub(ConstInt(0, w), n, w, Constantly(0), Numerator(), w);
      }
      NameUnit(b.code, q, d, w);
      return true, q;
    }
    AndPredecessor(absD);
    if BitAnd(absD, absD - 1) == 0 {
      var shift := Log2(absD);
      PowerDivisor(c, w, shift);
      q := EmitPowerOfTwo(b, n, shift, d < 0, w);
      return true, q;
    }
    if w == 32 {
      MagicDivisor(c, d);
      ReducibleMagic(c);
      MinusOne();
      var sm := ComputeSignedMagic32(ToInt32(d));
      IsValid(ToInt32(d), sm);
      if !sm.valid { return false, q; }
      q := EmitMagic(b, n, ToInt32(d), sm);
      return true, q;
    }
    IrreducibleWide(c, d);
    return false, q;
  }

  lemma ZeroDivisor(c: nat, w: nat)
    requires SignExtend(c, 64) == 0
    ensures !Reducible(c, w)
  {
  }

  lemma AbsValue(d: int)
    requires d != 0
    ensures Abs(d) > 0 && (Abs(d) == 1 <==> d == 1 || d == -1)
  {
  }

  lemma MinusOne()
    ensures Abs(-1) == 1
  {
  }

  lemma IsValid(d: int, sm: Magic)
    requires if Abs(d) <= 1 then sm == INVALID else IsMagicFor(d, sm)
    ensures sm.valid <==> Abs(d) >= 2
    ensures sm.valid ==> IsMagicFor(d, sm) && d != 0 && d != -1
    ensures IsInt32(ToInt32(d))
  {
  }

  // ----- Exactness

  lemma NumeratorOf(n: nat, w: nat) returns (x: int)
    requires 1 <= w <= 64 && n < Pow2(w)
    ensures InRange(x, w) && Pat(x, w) == n
  {
    assert Pow2(w) == 2 * Pow2(w - 1);
    if n >= Pow2(w - 1) {
      x := n - Pow2(w);
      PatShift(n, -1, w);
      PatIdem(n, w);
    } else {
      x := n;
      PatIdem(n, w);
    }
  }

  function DivisionOp(isRem: bool): Opcode {
    if isRem then Rem else Div
  }

  ghost function DivisionBy(d: int, isRem: bool): int -> int
    requires d != 0
  {
    if isRem then Remainder(d) else Quotient(d)
  }

  lemma ReplacedAt(code: seq<Instr>, v: Value, c: nat, w: nat, isRem: bool, x: int)
    requires 1 <= w <= 64 && InRange(x, w) && SignExtend(c, w) != 0
    requires Computes(code, v, DivisionBy(UsedDivisor(c, w), isRem), w, w) && UsedDivisor(c, w) != 0
    ensures FoldScalar(DivisionOp(isRem), w, Pat(x, w), c) == Some(Pat(DivisionBy(SignExtend(c, w), isRem)(x), w))
    ensures OperandBits(code, v, |code|, Pat(x, w)) == Pat(DivisionBy(UsedDivisor(c, w), isRem)(x), w)
  {
    hide FoldScalar, SignExtend, TruncDiv, TruncRem, Pat, InRange;
    FoldDiv(x, c, w);
  }

  lemma SignFlipRemainder(x: int)
    ensures DivisionBy(TWO31, true)(x) == DivisionBy(0 - TWO31, true)(x)
  {
    NegatedDivisor(x, TWO31);
    hide TruncDiv;
  }

  lemma ReplacesAlways(code: seq<Instr>, v: Value, c: nat, w: nat, isRem: bool)
    requires 1 <= w <= 64 && SignExtend(c, w) != 0 && UsedDivisor(c, w) != 0
    requires Computes(code, v, DivisionBy(UsedDivisor(c, w), isRem), w, w)
    requires forall x: int :: DivisionBy(UsedDivisor(c, w), isRem)(x) == DivisionBy(SignExtend(c, w), isRem)(x)
    ensures Replaces(code, v, DivisionOp(isRem), c, w)
  {
    hide FoldScalar, SignExtend, Pat, Computes, UsedDivisor, DivisionBy, OperandBits, InRange;
    forall n: nat | n < Pow2(w)
      ensures FoldScalar(DivisionOp(isRem), w, n, c) == Some(OperandBits(code, v, |code|, n))
    {
      var x := NumeratorOf(n, w);
      ReplacedAt(code, v, c, w, isRem, x);
    }
  }

  lemma HalfRange()
    ensures SignExtend(TWO31, 32) == 0 - TWO31 && UsedDivisor(TWO31, 32) == TWO31
    ensures InRange(0 - TWO31, 32) && TWO31 < Pow2(32)
    ensures Pat(0 - TWO31, 32) == TWO31 && Pat(1, 32) != Pat(-1, 32)
    ensures TruncDiv(0 - TWO31, TWO31) == -1 && TruncDiv(0 - TWO31, 0 - TWO31) == 1
  {
    Pow2Values();
    PatIdem(TWO31, 32);
    PatShift(TWO31, -1, 32);
    PatIdem(1, 32);
    PatIdem(TWO32 - 1, 32);
    PatShift(TWO32 - 1, -1, 32);
  }

  /** The least numerator, divided by itself held as a positive constant, gives -1 instead of 1. */
  lemma WrongAtHalfRange(code: seq<Instr>, v: Value)
    requires Computes(code, v, Quotient(TWO31), 32, 32)
    ensures !Replaces(code, v, Div, TWO31, 32)
  {
    hide FoldScalar, SignExtend, Pat, Computes, UsedDivisor, OperandBits, InRange, TruncDiv, Pow2;
    HalfRange();
    ReplacedAt(code, v, TWO31, 32, false, 0 - TWO31);
    assert FoldScalar(Div, 32, TWO31, TWO31) != Some(OperandBits(code, v, |code|, TWO31));
  }

  lemma OtherDivisors(c: nat, w: nat)
    requires w >= 1 && !(w == 32 && c == TWO31)
    ensures UsedDivisor(c, w) == SignExtend(c, w)
  {
  }

  /** The replacement is the operation itself, but for the quotient by one zero-extended constant. */
  lemma ReplacesExactly(code: seq<Instr>, v: Value, c: nat, w: nat, isRem: bool)
    requires 1 <= w <= 64 && UsedDivisor(c, w) != 0
    requires Computes(code, v, DivisionBy(UsedDivisor(c, w), isRem), w, w)
    ensures Replaces(code, v, DivisionOp(isRem), c, w) <==> isRem || !(w == 32 && c == TWO31)
  {
    if w == 32 && c == TWO31 {
      HalfRange();
      hide SignExtend, Pat, Computes, Replaces, UsedDivisor, InRange, TruncDiv, TruncRem, Pow2;
      if isRem {
        forall x: int
          ensures DivisionBy(TWO31, true)(x) == DivisionBy(0 - TWO31, true)(x)
        {
          SignFlipRemainder(x);
        }
        ReplacesAlways(code, v, c, w, isRem);
      } else {
        WrongAtHalfRange(code, v);
      }
    } else {
      OtherDivisors(c, w);
      hide *;
      ReplacesAlways(code, v, c, w, isRem);
    }
  }

  /**
   A signed division or remainder: which divisors are replaced, and that the value put in the
   place of the result has its bits at every numerator.
   */
  method ProcessSigned(b: IRBuilder, n: Value, c: nat, w: nat, isRem: bool) returns (done: bool, v: Value)
    requires (w == 32 || w == 64) && StoredAs(c, w) && Computes(b.code, n, Numerator(), w, w)
    modifies b
    ensures done <==> Reducible(c, w)
    ensures old(b.code) <= b.code && (!done ==> b.code == old(b.code))
    ensures done ==> (Replaces(b.code, v, DivisionOp(isRem), c, w) <==> isRem || !(w == 32 && c == TWO31))
  {
    hide *;
    ghost var code0 := b.code;
    done, v := EmitQuotient(b, n, c, w);
    if !done { return; }
    ghost var d := UsedDivisor(c, w);
    if isRem {
      StoredSmall(c, w);
      Later(code0, b.code, n, Numerator(), w, w);
      ghost var code1 := b.code;
      v := b.CreateMulRaw(v, c, w, Quotient(d), d, w);
      Later(code1, b.code, n, Numerator(), w, w);
      v := b.CreateSub(n, v, w, Numerator(), Times(Quotient(d), Constantly(d)), w);
      NameRemainder(b.code, v, d, w);
    }
    AsDivision(d);
    ReplacesExactly(b.code, v, c, w, isRem);
  }

  lemma AsDivision(d: int)
    requires d != 0
    ensures DivisionBy(d, true) == Remainder(d) && DivisionBy(d, false) == Quotient(d)
  {
  }
}
