/**
 Affine forms, constant plus a sum of coefficient times leaf, as they are scaled and
 merged under overflow checks, and what a form says about a value.
 */
module AffineForms {
  import opened IR
  import opened Scalar
  import opened Patterns

  datatype Term = Term(value: Value, coefficient: int, bitWidth: nat, isSigned: bool)

  datatype AffineExpr = AffineExpr(terms: seq<Term>, constant: int, width: nat, signed: bool, isValid: bool)

  /** Instructions and the widths of the arguments. */
  datatype Program = Program(code: map<Id, Instr>, argWidths: seq<nat>)

  const MIN64: int := -0x8000_0000_0000_0000
  const MAX64: int := 0x7FFF_FFFF_FFFF_FFFF

  predicate InInt64(x: int) {
    MIN64 <= x <= MAX64
  }

  predicate IsCoefficientSafe(c: int, bitWidth: nat, isSigned: bool) {
    if bitWidth == 0 || bitWidth >= 64 then true
    else if isSigned then 0 - Pow2(bitWidth - 1) <= c < Pow2(bitWidth - 1)
    else 0 <= c < Pow2(bitWidth)
  }

  /** The width of a value's integer type, 0 where it has none. */
  function TypeWidth(p: Program, v: Value): nat {
    match v
    case Inst(id) => if id in p.code then p.code[id].ty else 0
    case Cst(w) => w.width
    case Arg(k) => if k < |p.argWidths| then p.argWidths[k] else 0
    case _ => 0
  }

  // ----- Building forms

  function Leaf(p: Program, v: Value): AffineExpr {
    AffineExpr([Term(v, 1, TypeWidth(p, v), true)], 0, TypeWidth(p, v), true, true)
  }

  /** A constant is held in 64 bits and read as signed. */
  function ConstantForm(w: Word): AffineExpr {
    AffineExpr([], SignExtend(w.bits, 64), w.width, true, true)
  }

  function ScaleTerms(terms: seq<Term>, coeff: int, bitWidth: nat): Option<seq<Term>> {
    if terms == [] then Some([])
    else
      var front, t := ScaleTerms(terms[..|terms| - 1], coeff, bitWidth), Last(terms);
      var c := t.coefficient * coeff;
      if front.None? || !InInt64(c) || !IsCoefficientSafe(c, bitWidth, t.isSigned) then None
      else Some(front.value + [t.(coefficient := c)])
  }

  /** A form times a constant. */
  function Scale(e: AffineExpr, coeff: int, bitWidth: nat): Option<AffineExpr> {
    var c := e.constant * coeff;
    if !InInt64(c) || !IsCoefficientSafe(c, bitWidth, true) then None
    else
      var terms := ScaleTerms(e.terms, coeff, bitWidth);
      if terms.None? then None else Some(AffineExpr(terms.value, c, bitWidth, e.signed, true))
  }

  /** One more term: added to the one with its leaf, or put at the end. */
  function MergeTerm(terms: seq<Term>, t: Term, width: nat): Option<seq<Term>> {
    if terms == [] then if IsCoefficientSafe(t.coefficient, width, t.isSigned) then Some([t]) else None
    else if terms[0].value == t.value then
      var c := terms[0].coefficient + t.coefficient;
      if InInt64(c) && IsCoefficientSafe(c, width, terms[0].isSigned)
          then Some([terms[0].(coefficient := c)] + terms[1..])
      else None
    else
      var rest := MergeTerm(terms[1..], t, width);
      if rest.Some? then Some([terms[0]] + rest.value) else None
  }

  function MergeTerms(terms: seq<Term>, rhs: seq<Term>, width: nat, subtract: bool): Option<seq<Term>> {
    if rhs == [] then Some(terms)
    else
      var front, t := MergeTerms(terms, rhs[..|rhs| - 1], width, subtract), Last(rhs);
      if front.None? || (subtract && t.coefficient == MIN64) then None
      else MergeTerm(front.value, Signed(t, subtract), width)
  }

  function NonZero(terms: seq<Term>): seq<Term> {
    if terms == [] then []
    else NonZero(terms[..|terms| - 1]) + if Last(terms).coefficient != 0 then [Last(terms)] else []
  }

  /** A sum or difference of forms of one width. */
  function Merge(lhs: AffineExpr, rhs: AffineExpr, subtract: bool): Option<AffineExpr> {
    if !lhs.isValid || !rhs.isValid then None
    else if lhs.width != 0 && rhs.width != 0 && lhs.width != rhs.width then None
    else
      var width := if lhs.width != 0 then lhs.width else rhs.width;
      var c := if subtract then lhs.constant - rhs.constant else lhs.constant + rhs.constant;
      if !InInt64(c) || !IsCoefficientSafe(c, width, true) then None
      else
        var terms := MergeTerms(lhs.terms, rhs.terms, width, subtract);
        if terms.None? then None
        else Some(AffineExpr(NonZero(terms.value), c, width, lhs.signed || rhs.signed, true))
  }

  /** A form without a width takes it from the value's type. */
  function Widened(p: Program, v: Value, e: AffineExpr): AffineExpr {
    if e.width == 0 then e.(width := TypeWidth(p, v)) else e
  }

  // ----- Meaning

  function Sum(terms: seq<Term>, env: Value -> nat): int {
    if terms == [] then 0 else Sum(terms[..|terms| - 1], env) + Last(terms).coefficient * env(Last(terms).value)
  }

  predicate DistinctLeaves(terms: seq<Term>) {
    forall i, j | 0 <= i < j < |terms| :: terms[i].value != terms[j].value
  }

  predicate IsAffineOp(op: Opcode) {
    op == Add || op == Sub || op == Mul || op == Shl
  }

  predicate IsExtension(op: Opcode) {
    op == ExtSB || op == ExtSH || op == ExtSW || op == ExtS || op == ExtUB || op == ExtUH || op == ExtUW || op == TruncD
  }

  /** One width throughout: the operands of arithmetic are as wide as its result, and nothing is extended. */
  ghost predicate SingleWidth(p: Program) {
    forall id | id in p.code :: OneWidth(p, p.code[id])
  }

  predicate OneWidth(p: Program, instr: Instr) {
    && !IsExtension(instr.op)
    && (IsAffineOp(instr.op) ==>
          && 1 <= instr.ty <= 64
          && (|instr.operands| >= 2 ==>
                && TypeWidth(p, instr.operands[0]) == instr.ty
                && (instr.op != Shl ==> TypeWidth(p, instr.operands[1]) == instr.ty)))
  }

  /** Constants are themselves, and every arithmetic instruction has the result the folder gives it. */
  ghost predicate Consistent(p: Program, env: Value -> nat) {
    && (forall w: Word :: env(Cst(w)) == w.bits)
    && (forall id | id in p.code && IsAffineOp(p.code[id].op) && |p.code[id].operands| >= 2 && p.code[id].ty >= 1 ::
          var instr := p.code[id];
          Some(env(Inst(id))) == FoldScalar(instr.op, instr.ty, env(instr.operands[0]), env(instr.operands[1])))
  }

  /** In every consistent environment the value is what the form says, modulo its width. */
  ghost predicate Describes(p: Program, v: Value, e: AffineExpr) {
    forall env: Value -> nat | Consistent(p, env) ::
      Pat(env(v), TypeWidth(p, v)) == Pat(e.constant + Sum(e.terms, env), TypeWidth(p, v))
  }

  ghost predicate Sound(p: Program, v: Value, e: AffineExpr) {
    e.isValid && DistinctLeaves(e.terms) && Describes(p, v, e)
  }

  // ----- Sums

  lemma {:induction false} SumSplit(a: seq<Term>, b: seq<Term>, env: Value -> nat)
    ensures Sum(a + b, env) == Sum(a, env) + Sum(b, env)
    decreases |b|
  {
    if b == [] {
      assert a + b == a;
    } else {
      SumSplit(a, b[..|b| - 1], env);
      assert (a + b)[..|a + b| - 1] == a + b[..|b| - 1];
    }
  }

  lemma SumOne(t: Term, env: Value -> nat)
    ensures Sum([t], env) == t.coefficient * env(t.value)
  {
    assert [t][..0] == [];
  }

  lemma {:induction false} ScaledSum(terms: seq<Term>, coeff: int, bitWidth: nat, env: Value -> nat)
    requires ScaleTerms(terms, coeff, bitWidth).Some?
    ensures Sum(ScaleTerms(terms, coeff, bitWidth).value, env) == Sum(terms, env) * coeff
    ensures |ScaleTerms(terms, coeff, bitWidth).value| == |terms|
    ensures forall i | 0 <= i < |terms| :: ScaleTerms(terms, coeff, bitWidth).value[i].value == terms[i].value
  {
    if terms != [] {
      var front, t := terms[..|terms| - 1], Last(terms);
      ScaledSum(front, coeff, bitWidth, env);
      var scaled := ScaleTerms(front, coeff, bitWidth).value;
      var t' := t.(coefficient := t.coefficient * coeff);
      assert ScaleTerms(terms, coeff, bitWidth).value == scaled + [t'];
      SumSplit(scaled, [t'], env);
      SumOne(t', env);
      hide *;
      Reassociate(t.coefficient, coeff, env(t.value), Sum(front, env));
    }
  }

  lemma Reassociate(c: int, k: int, x: int, s: int)
    ensures s * k + (c * k) * x == (s + c * x) * k
  {
    assert (c * k) * x == (c * x) * k;
  }

  lemma SumFirst(t: Term, rest: seq<Term>, env: Value -> nat)
    ensures Sum([t] + rest, env) == t.coefficient * env(t.value) + Sum(rest, env)
  {
    hide Sum;
    SumSplit([t], rest, env);
    SumOne(t, env);
  }

  lemma SumNext(front: seq<Term>, t: Term, env: Value -> nat)
    ensures Sum(front + [t], env) == Sum(front, env) + t.coefficient * env(t.value)
  {
    hide Sum;
    SumSplit(front, [t], env);
    SumOne(t, env);
  }

  lemma NoSum(env: Value -> nat)
    ensures Sum([], env) == 0
  {
  }

  /** The ways to merge a term. */
  lemma MergeTermCases(terms: seq<Term>, t: Term, width: nat)
    requires MergeTerm(terms, t, width).Some?
    ensures var r := MergeTerm(terms, t, width).value;
            if terms == [] then r == [t]
            else if terms[0].value == t.value then
              r == [terms[0].(coefficient := terms[0].coefficient + t.coefficient)] + terms[1..]
            else MergeTerm(terms[1..], t, width).Some? && r == [terms[0]] + MergeTerm(terms[1..], t, width).value
  {
    hide IsCoefficientSafe, InInt64;
  }

  lemma {:induction false} MergedTermSum(terms: seq<Term>, t: Term, width: nat, env: Value -> nat)
    requires MergeTerm(terms, t, width).Some?
    ensures Sum(MergeTerm(terms, t, width).value, env) == Sum(terms, env) + t.coefficient * env(t.value)
  {
    hide *;
    MergeTermCases(terms, t, width);
    if terms == [] {
      SumOne(t, env);
      NoSum(env);
    } else {
      assert terms == [terms[0]] + terms[1..];
      SumFirst(terms[0], terms[1..], env);
      if terms[0].value == t.value {
        SumFirst(terms[0].(coefficient := terms[0].coefficient + t.coefficient), terms[1..], env);
        Distribute(terms[0].coefficient, t.coefficient, env(t.value));
      } else {
        MergedTermSum(terms[1..], t, width, env);
        SumFirst(terms[0], MergeTerm(terms[1..], t, width).value, env);
      }
    }
  }

  /** Whose leaves a merged term list has: those of the list and the term's. */
  ghost predicate LeavesFrom(r: seq<Term>, terms: seq<Term>, t: Term) {
    forall u | u in r :: u.value == t.value || exists s :: s in terms && s.value == u.value
  }

  lemma {:induction false} MergedLeaves(terms: seq<Term>, t: Term, width: nat)
    requires DistinctLeaves(terms) && MergeTerm(terms, t, width).Some?
    ensures DistinctLeaves(MergeTerm(terms, t, width).value)
    ensures LeavesFrom(MergeTerm(terms, t, width).value, terms, t)
  {
    MergeTermCases(terms, t, width);
    hide MergeTerm;
    if terms != [] {
      if terms[0].value == t.value {
        SameLeaves(terms, t);
      } else {
        MergedLeaves(terms[1..], t, width);
        StillDistinct(terms, t, MergeTerm(terms[1..], t, width).value);
      }
    }
  }

  lemma SameLeaves(terms: seq<Term>, t: Term)
    requires terms != [] && DistinctLeaves(terms) && terms[0].value == t.value
    ensures var r := [terms[0].(coefficient := terms[0].coefficient + t.coefficient)] + terms[1..];
            DistinctLeaves(r) && LeavesFrom(r, terms, t)
  {
    assert forall s | s in terms[1..] :: s in terms;
  }

  lemma Distribute(a: int, b: int, x: int)
    ensures (a + b) * x == a * x + b * x
  {
  }

  lemma StillDistinct(terms: seq<Term>, t: Term, rest: seq<Term>)
    requires terms != [] && DistinctLeaves(terms) && terms[0].value != t.value && DistinctLeaves(rest)
    requires LeavesFrom(rest, terms[1..], t)
    ensures DistinctLeaves([terms[0]] + rest) && LeavesFrom([terms[0]] + rest, terms, t)
  {
    forall u | u in rest
      ensures u.value != terms[0].value
      ensures u.value == t.value || exists s :: s in terms && s.value == u.value
    {
      if u.value != t.value {
        var s :| s in terms[1..] && s.value == u.value;
        assert s in terms;
      }
    }
    assert terms[0] in terms;
    assert forall k | 0 <= k < |rest| :: rest[k] in rest;
  }

  function Signed(t: Term, subtract: bool): Term {
    t.(coefficient := if subtract then 0 - t.coefficient else t.coefficient)
  }

  lemma MergeTermsNext(terms: seq<Term>, rhs: seq<Term>, width: nat, subtract: bool)
    requires rhs != [] && MergeTerms(terms, rhs, width, subtract).Some?
    ensures var front := MergeTerms(terms, rhs[..|rhs| - 1], width, subtract);
            && front.Some? && MergeTerm(front.value, Signed(Last(rhs), subtract), width).Some?
            && MergeTerms(terms, rhs, width, subtract).value
               == MergeTerm(front.value, Signed(Last(rhs), subtract), width).value
  {
    hide MergeTerm;
  }

  lemma NoMerge(terms: seq<Term>, width: nat, subtract: bool)
    ensures MergeTerms(terms, [], width, subtract) == Some(terms)
  {
  }

  lemma NegateProduct(c: int, x: int)
    ensures (0 - c) * x == 0 - c * x
  {
  }

  lemma {:induction false} MergedSum(terms: seq<Term>, rhs: seq<Term>, width: nat, subtract: bool, env: Value -> nat)
    requires MergeTerms(terms, rhs, width, subtract).Some?
    ensures Sum(MergeTerms(terms, rhs, width, subtract).value, env)
         == Sum(terms, env) + (if subtract then 0 - Sum(rhs, env) else Sum(rhs, env))
  {
    hide MergeTerm, MergeTerms, Sum;
    if rhs == [] {
      NoMerge(terms, width, subtract);
      NoSum(env);
    } else {
      var front, t := rhs[..|rhs| - 1], Last(rhs);
      MergeTermsNext(terms, rhs, width, subtract);
      MergedSum(terms, front, width, subtract, env);
      MergedTermSum(MergeTerms(terms, front, width, subtract).value, Signed(t, subtract), width, env);
      assert rhs == front + [t];
      SumNext(front, t, env);
      NegateProduct(t.coefficient, env(t.value));
    }
  }

  lemma {:induction false} MergedDistinct(terms: seq<Term>, rhs: seq<Term>, width: nat, subtract: bool)
    requires DistinctLeaves(terms) && MergeTerms(terms, rhs, width, subtract).Some?
    ensures DistinctLeaves(MergeTerms(terms, rhs, width, subtract).value)
  {
    hide MergeTerm, MergeTerms, DistinctLeaves;
    if rhs == [] {
      NoMerge(terms, width, subtract);
    } else {
      var front, t := rhs[..|rhs| - 1], Last(rhs);
      MergeTermsNext(terms, rhs, width, subtract);
      MergedDistinct(terms, front, width, subtract);
      MergedLeaves(MergeTerms(terms, front, width, subtract).value, Signed(t, subtract), width);
    }
  }

  lemma NonZeroNext(front: seq<Term>, t: Term)
    ensures NonZero(front + [t]) == NonZero(front) + if t.coefficient != 0 then [t] else []
    ensures NonZero([]) == []
  {
    assert (front + [t])[..|front|] == front;
  }

  lemma {:induction false} NonZeroSum(terms: seq<Term>, env: Value -> nat)
    ensures Sum(NonZero(terms), env) == Sum(terms, env)
  {
    hide Sum, NonZero;
    if terms == [] {
      NonZeroNext([], Term(Arg(0), 0, 0, true));
    } else {
      var front, t := terms[..|terms| - 1], Last(terms);
      assert terms == front + [t];
      NonZeroSum(front, env);
      NonZeroNext(front, t);
      SumNext(front, t, env);
      SumNext(NonZero(front), t, env);
      if t.coefficient == 0 {
        assert t.coefficient * env(t.value) == 0;
        assert NonZero(front) + [] == NonZero(front);
      }
    }
  }

  lemma {:induction false} NonZeroDistinct(terms: seq<Term>)
    requires DistinctLeaves(terms)
    ensures DistinctLeaves(NonZero(terms)) && forall t | t in NonZero(terms) :: t in terms
  {
    if terms != [] {
      var front, t := terms[..|terms| - 1], Last(terms);
      assert terms == front + [t];
      NonZeroDistinct(front);
      NonZeroNext(front, t);
      hide NonZero;
      LastLeaf(terms);
      NotLast(NonZero(front), t);
    }
  }

  lemma LastLeaf(terms: seq<Term>)
    requires terms != [] && DistinctLeaves(terms)
    ensures forall s | s in terms[..|terms| - 1] :: s.value != Last(terms).value
  {
  }

  lemma NotLast(kept: seq<Term>, t: Term)
    requires DistinctLeaves(kept) && forall s | s in kept :: s.value != t.value
    ensures DistinctLeaves(kept + [t])
  {
    assert forall k | 0 <= k < |kept| :: kept[k] in kept;
  }

  // ----- Soundness of the operations

  lemma CongAdd(x: int, y: int, x': int, y': int, w: nat)
    requires Pat(x, w) == Pat(x', w) && Pat(y, w) == Pat(y', w)
    ensures Pat(x + y, w) == Pat(x' + y', w) && Pat(x - y, w) == Pat(x' - y', w)
  {
    hide Pat;
    PatAdd(x, y, w);
    PatAdd(x', y', w);
    PatSub(x, y, w);
    PatSub(x', y', w);
  }

  lemma CongMul(x: int, y: int, x': int, y': int, w: nat)
    requires Pat(x, w) == Pat(x', w) && Pat(y, w) == Pat(y', w)
    ensures Pat(x * y, w) == Pat(x' * y', w)
  {
    hide Pat;
    PatMul(x, y, w);
    PatMul(x', y', w);
  }

  /** A constant read as signed is the same pattern. */
  lemma SignedConstant(bits: nat, w: nat)
    requires w <= 64
    ensures Pat(SignExtend(bits, 64), w) == Pat(bits, w)
  {
    var v := Pat(bits, 64);
    PatNarrow(bits, w, 64);
    if v >= Pow2(63) {
      PatShift(v, -1, 64);
      PatNarrow(v - Pow2(64), w, 64);
      PatNarrow(v, w, 64);
    }
  }

  lemma LeafSound(p: Program, v: Value)
    ensures Sound(p, v, Leaf(p, v))
  {
    forall env: Value -> nat
      ensures Sum(Leaf(p, v).terms, env) == env(v)
    {
      SumOne(Leaf(p, v).terms[0], env);
    }
  }

  lemma ConstantSound(p: Program, w: Word)
    requires w.width <= 64
    ensures Sound(p, Cst(w), ConstantForm(w))
  {
    SignedConstant(w.bits, w.width);
    hide Pat, SignExtend;
  }

  lemma FoldArithmetic(op: Opcode, w: nat, a: nat, b: nat)
    requires 1 <= w <= 64 && IsAffineOp(op)
    ensures FoldScalar(op, w, a, b) ==
            Some(Pat(if op == Add then a + b else if op == Sub then a - b else if op == Mul then a * b
                     else a * Pow2(b % 64), w))
  {
    hide MaskValue, ToU64, SignExtend, Pow2, TruncDiv, TruncRem, BitAnd, BitOr, BitXor, Bit, Pat;
    if op == Add { MaskIsPat(a + b, w); }
    else if op == Sub { MaskIsPat(a - b, w); }
    else if op == Mul { MaskIsPat(a * b, w); }
    else { MaskIsPat(a * Pow2(b % 64), w); }
  }

  lemma FoldedResult(p: Program, id: Id, env: Value -> nat)
    requires SingleWidth(p) && Consistent(p, env) && id in p.code
    requires IsAffineOp(p.code[id].op) && |p.code[id].operands| >= 2
    ensures 1 <= p.code[id].ty <= 64
    ensures Some(env(Inst(id))) ==
            FoldScalar(p.code[id].op, p.code[id].ty, env(p.code[id].operands[0]), env(p.code[id].operands[1]))
  {
    hide FoldScalar;
    assert OneWidth(p, p.code[id]);
  }

  /** What a consistent environment holds for an instruction. */
  lemma ResultIs(p: Program, id: Id, env: Value -> nat)
    requires SingleWidth(p) && Consistent(p, env) && id in p.code
    requires IsAffineOp(p.code[id].op) && |p.code[id].operands| >= 2
    ensures var instr := p.code[id];
            var a, b := env(instr.operands[0]), env(instr.operands[1]);
            && 1 <= instr.ty <= 64
            && (instr.op == Add ==> env(Inst(id)) == Pat(a + b, instr.ty))
            && (instr.op == Sub ==> env(Inst(id)) == Pat(a - b, instr.ty))
            && (instr.op == Mul ==> env(Inst(id)) == Pat(a * b, instr.ty))
            && (instr.op == Shl ==> env(Inst(id)) == Pat(a * Pow2(b % 64), instr.ty))
  {
    hide *;
    FoldedResult(p, id, env);
    FoldArithmetic(p.code[id].op, p.code[id].ty, env(p.code[id].operands[0]), env(p.code[id].operands[1]));
  }

  lemma PatTwice(x: int, w: nat)
    ensures Pat(Pat(x, w), w) == Pat(x, w)
  {
    PatIdem(Pat(x, w), w);
  }

  lemma WidthsOf(p: Program, id: Id)
    requires SingleWidth(p) && id in p.code && IsAffineOp(p.code[id].op) && |p.code[id].operands| >= 2
    ensures var instr := p.code[id];
            && TypeWidth(p, Inst(id)) == instr.ty == TypeWidth(p, instr.operands[0]) && 1 <= instr.ty <= 64
            && (instr.op != Shl ==> TypeWidth(p, instr.operands[1]) == instr.ty)
  {
    assert OneWidth(p, p.code[id]);
  }

  /** What a merge gives, in parts. */
  lemma MergeParts(a: AffineExpr, b: AffineExpr, subtract: bool)
    requires Merge(a, b, subtract).Some?
    ensures var e := Merge(a, b, subtract).value;
            var width := if a.width != 0 then a.width else b.width;
            && e.isValid && MergeTerms(a.terms, b.terms, width, subtract).Some?
            && e.terms == NonZero(MergeTerms(a.terms, b.terms, width, subtract).value)
            && e.constant == (if subtract then a.constant - b.constant else a.constant + b.constant)
  {
    hide MergeTerms, NonZero, IsCoefficientSafe;
  }

  lemma MergeEvaluates(a: AffineExpr, b: AffineExpr, subtract: bool, env: Value -> nat)
    requires Merge(a, b, subtract).Some?
    ensures var e := Merge(a, b, subtract).value;
            var x, y := a.constant + Sum(a.terms, env), b.constant + Sum(b.terms, env);
            e.constant + Sum(e.terms, env) == if subtract then x - y else x + y
  {
    hide *;
    MergeParts(a, b, subtract);
    var width := if a.width != 0 then a.width else b.width;
    MergedSum(a.terms, b.terms, width, subtract, env);
    NonZeroSum(MergeTerms(a.terms, b.terms, width, subtract).value, env);
  }

  lemma MergeLeaves(a: AffineExpr, b: AffineExpr, subtract: bool)
    requires DistinctLeaves(a.terms) && Merge(a, b, subtract).Some?
    ensures Merge(a, b, subtract).value.isValid && DistinctLeaves(Merge(a, b, subtract).value.terms)
  {
    hide *;
    MergeParts(a, b, subtract);
    var width := if a.width != 0 then a.width else b.width;
    MergedDistinct(a.terms, b.terms, width, subtract);
    NonZeroDistinct(MergeTerms(a.terms, b.terms, width, subtract).value);
  }

  lemma DescribedAt(p: Program, v: Value, e: AffineExpr, env: Value -> nat)
    requires Describes(p, v, e) && Consistent(p, env)
    ensures Pat(env(v), TypeWidth(p, v)) == Pat(e.constant + Sum(e.terms, env), TypeWidth(p, v))
  {
  }

  lemma AffineSum(op: Opcode)
    requires op == Add || op == Sub
    ensures IsAffineOp(op) && (op == Add <==> op != Sub)
  {
  }

  lemma MergeAt(p: Program, id: Id, a: AffineExpr, b: AffineExpr, env: Value -> nat)
    requires SingleWidth(p) && id in p.code && |p.code[id].operands| >= 2
    requires p.code[id].op == Add || p.code[id].op == Sub
    requires Describes(p, p.code[id].operands[0], a) && Describes(p, p.code[id].operands[1], b)
    requires Merge(a, b, p.code[id].op == Sub).Some? && Consistent(p, env)
    ensures var e := Merge(a, b, p.code[id].op == Sub).value;
            Pat(env(Inst(id)), TypeWidth(p, Inst(id))) == Pat(e.constant + Sum(e.terms, env), TypeWidth(p, Inst(id)))
  {
    hide *;
    var instr := p.code[id];
    var subtract := instr.op == Sub;
    var w := instr.ty;
    AffineSum(instr.op);
    WidthsOf(p, id);
    ResultIs(p, id, env);
    DescribedAt(p, instr.operands[0], a, env);
    DescribedAt(p, instr.operands[1], b, env);
    MergeEvaluates(a, b, subtract, env);
    Combine(env(instr.operands[0]), env(instr.operands[1]), a.constant + Sum(a.terms, env),
            b.constant + Sum(b.terms, env), subtract, w);
  }

  lemma Combine(x: int, y: int, x': int, y': int, subtract: bool, w: nat)
    requires Pat(x, w) == Pat(x', w) && Pat(y, w) == Pat(y', w)
    ensures Pat(Pat(if subtract then x - y else x + y, w), w) == Pat(if subtract then x' - y' else x' + y', w)
  {
    hide *;
    CongAdd(x, y, x', y', w);
    PatTwice(if subtract then x - y else x + y, w);
  }

  /** The merged forms of the operands describe the sum or difference. */
  lemma MergeSound(p: Program, id: Id, a: AffineExpr, b: AffineExpr)
    requires SingleWidth(p) && id in p.code && |p.code[id].operands| >= 2
    requires p.code[id].op == Add || p.code[id].op == Sub
    requires Sound(p, p.code[id].operands[0], a) && Sound(p, p.code[id].operands[1], b)
    requires Merge(a, b, p.code[id].op == Sub).Some?
    ensures Sound(p, Inst(id), Merge(a, b, p.code[id].op == Sub).value)
  {
    hide SingleWidth, Consistent, Merge, DistinctLeaves, Pat, Sum, TypeWidth;
    MergeLeaves(a, b, p.code[id].op == Sub);
    forall env: Value -> nat | Consistent(p, env)
      ensures var e := Merge(a, b, p.code[id].op == Sub).value;
              Pat(env(Inst(id)), TypeWidth(p, Inst(id))) == Pat(e.constant + Sum(e.terms, env), TypeWidth(p, Inst(id)))
    {
      MergeAt(p, id, a, b, env);
    }
  }

  lemma ScaleParts(e: AffineExpr, coeff: int, w: nat)
    requires Scale(e, coeff, w).Some?
    ensures ScaleTerms(e.terms, coeff, w).Some?
    ensures var r := Scale(e, coeff, w).value;
            r.isValid && r.terms == ScaleTerms(e.terms, coeff, w).value && r.constant == e.constant * coeff
  {
    hide ScaleTerms, IsCoefficientSafe;
  }

  lemma ScaleEvaluates(e: AffineExpr, coeff: int, w: nat, env: Value -> nat)
    requires Scale(e, coeff, w).Some?
    ensures var r := Scale(e, coeff, w).value;
            r.constant + Sum(r.terms, env) == (e.constant + Sum(e.terms, env)) * coeff
  {
    hide *;
    ScaleParts(e, coeff, w);
    ScaledSum(e.terms, coeff, w, env);
    Distribute(e.constant, Sum(e.terms, env), coeff);
  }

  lemma ScaleLeaves(e: AffineExpr, coeff: int, w: nat)
    requires DistinctLeaves(e.terms) && Scale(e, coeff, w).Some?
    ensures Scale(e, coeff, w).value.isValid && DistinctLeaves(Scale(e, coeff, w).value.terms)
  {
    hide Scale, ScaleTerms, Sum;
    ScaleParts(e, coeff, w);
    ScaledSum(e.terms, coeff, w, v => 0);
  }

  /** A value congruent to another times a constant is described by the scaled form. */
  lemma ScaleSound(p: Program, u: Value, v: Value, e: AffineExpr, coeff: int)
    requires Sound(p, v, e) && TypeWidth(p, v) == TypeWidth(p, u)
    requires forall env: Value -> nat | Consistent(p, env) ::
               Pat(env(u), TypeWidth(p, v)) == Pat(env(v) * coeff, TypeWidth(p, v))
    requires Scale(e, coeff, TypeWidth(p, v)).Some?
    ensures Sound(p, u, Scale(e, coeff, TypeWidth(p, v)).value)
  {
    hide Consistent, Scale, DistinctLeaves, Pat, Sum, TypeWidth;
    var w := TypeWidth(p, v);
    var r := Scale(e, coeff, w).value;
    ScaleLeaves(e, coeff, w);
    forall env: Value -> nat | Consistent(p, env)
      ensures Pat(env(u), w) == Pat(r.constant + Sum(r.terms, env), w)
    {
      ScaleEvaluates(e, coeff, w, env);
      CongMul(env(v), coeff, e.constant + Sum(e.terms, env), coeff, w);
    }
  }

  lemma ConstantIs(p: Program, env: Value -> nat, v: Value)
    requires Consistent(p, env)
    ensures v.Cst? ==> env(v) == v.word.bits
  {
    if v.Cst? { assert v == Cst(v.word); }
  }

  /** A product with a constant operand. */
  lemma ProductIs(p: Program, id: Id, env: Value -> nat)
    requires SingleWidth(p) && Consistent(p, env) && id in p.code && p.code[id].op == Mul && |p.code[id].operands| >= 2
    ensures var instr := p.code[id];
            var x, y := instr.operands[0], instr.operands[1];
            && (y.Cst? ==> Pat(env(Inst(id)), instr.ty) == Pat(env(x) * SignExtend(y.word.bits, 64), instr.ty))
            && (x.Cst? ==> Pat(env(Inst(id)), instr.ty) == Pat(env(y) * SignExtend(x.word.bits, 64), instr.ty))
  {
    var instr := p.code[id];
    assert IsAffineOp(instr.op);
    hide *;
    var x, y := instr.operands[0], instr.operands[1];
    ResultIs(p, id, env);
    ConstantIs(p, env, x);
    ConstantIs(p, env, y);
    PatTwice(env(x) * env(y), instr.ty);
    if y.Cst? {
      SignedConstant(y.word.bits, instr.ty);
      CongMul(env(x), env(y), env(x), SignExtend(y.word.bits, 64), instr.ty);
    }
    if x.Cst? {
      SignedConstant(x.word.bits, instr.ty);
      CongMul(env(y), env(x), env(y), SignExtend(x.word.bits, 64), instr.ty);
      Commute(env(x), env(y));
    }
  }

  lemma Commute(x: int, y: int)
    ensures x * y == y * x
  {
  }

  /** A shift by a constant in range. */
  lemma ShiftIs(p: Program, id: Id, env: Value -> nat, k: nat)
    requires SingleWidth(p) && Consistent(p, env) && id in p.code && p.code[id].op == Shl && |p.code[id].operands| >= 2
    requires p.code[id].operands[1].Cst? && SignExtend(p.code[id].operands[1].word.bits, 64) == k && k < 63
    ensures Pat(env(Inst(id)), p.code[id].ty) == Pat(env(p.code[id].operands[0]) * Pow2(k), p.code[id].ty)
  {
    var instr := p.code[id];
    assert IsAffineOp(instr.op);
    hide *;
    var bits := instr.operands[1].word.bits;
    ResultIs(p, id, env);
    ConstantIs(p, env, instr.operands[1]);
    SmallSigned(bits, k);
    PatTwice(env(instr.operands[0]) * Pow2(k), instr.ty);
  }

  /** The shift count is the same whether read as a signed word or modulo 64. */
  lemma SmallSigned(bits: nat, k: nat)
    requires SignExtend(bits, 64) == k && k < 63
    ensures bits % 64 == k
  {
    SmallPattern(bits, k);
    var q := bits / TWO64;
    assert bits == TWO64 * q + k;
    hide *;
    ModUnique(bits, 64, 0x400_0000_0000_0000 * q, k);
  }

  lemma SmallPattern(bits: nat, k: nat)
    requires SignExtend(bits, 64) == k && k < 63
    ensures bits % TWO64 == k
  {
    Pow2Values();
    hide Pow2;
  }

  // ----- Extensions of a leaf

  predicate ExtendsSign(op: Opcode) {
    op == ExtSB || op == ExtSH || op == ExtSW || op == ExtS
  }

  /** What an extension of a leaf is taken for: the leaf, in the wider type. */
  function ExtensionForm(leaf: Value, srcBits: nat, dstBits: nat, op: Opcode): AffineExpr {
    AffineExpr([Term(leaf, 1, srcBits, ExtendsSign(op))], 0, dstBits, ExtendsSign(op), true)
  }

  lemma UnsignedExtCase(u: nat)
    ensures FoldScalar(ExtUW, 64, u, 0) == Some(u)
  {
    hide SignExtend, ToU64, ShiftDown, BitAnd, BitOr, BitXor, TruncDiv, TruncRem, Pow2;
  }

  lemma ExtCases(u: nat)
    ensures FoldScalar(ExtSW, 64, u, 0) == Some(ToU64(SignExtend(u, 32))) && FoldScalar(ExtUW, 64, u, 0) == Some(u)
  {
    hide FoldScalar, SignExtend, ToU64, Pow2;
    ExtCase(64, u, 0);
    UnsignedExtCase(u);
  }

  lemma MergeOneMore(terms: seq<Term>, front: seq<Term>, t: Term, width: nat)
    ensures MergeTerms(terms, [], width, true) == Some(terms)
    ensures MergeTerms(terms, front, width, true).Some? && t.coefficient != MIN64 ==>
              MergeTerms(terms, front + [t], width, true)
                  == MergeTerm(MergeTerms(terms, front, width, true).value, Signed(t, true), width)
  {
    assert (front + [t])[..|front|] == front;
  }

  lemma MergedAway(leaf: Value, s: bool, t: bool)
    ensures var a, b := AffineExpr([Term(leaf, 1, 32, s)], 0, 64, s, true),
            AffineExpr([Term(leaf, 1, 32, t)], 0, 64, t, true);
            Merge(a, b, true) == Some(AffineExpr([], 0, 64, s || t, true))
  {
    var terms := [Term(leaf, 1, 32, s)];
    MergeOneMore(terms, [], Term(leaf, 1, 32, t), 64);
    assert [] + [Term(leaf, 1, 32, t)] == [Term(leaf, 1, 32, t)];
    assert [Term(leaf, 0, 32, s)] + terms[1..] == [Term(leaf, 0, 32, s)];
    assert [Term(leaf, 0, 32, s)][..0] == [];
    assert NonZero([Term(leaf, 0, 32, s)]) == [] + [];
  }

  /**
   The difference of a zero-extension and a sign-extension of one 32-bit leaf is taken for
   nought.  It is, exactly where the leaf is not negative.
   */
  lemma ExtensionsMerged(leaf: Value, u: nat)
    requires u < TWO32
    ensures Merge(ExtensionForm(leaf, 32, 64, ExtUW), ExtensionForm(leaf, 32, 64, ExtSW), true)
            == Some(AffineExpr([], 0, 64, true, true))
    ensures FoldScalar(ExtUW, 64, u, 0) == FoldScalar(ExtSW, 64, u, 0) <==> SignExtend(u, 32) >= 0
  {
    MergedAway(leaf, false, true);
    ExtCases(u);
    Pow2Values();
    hide FoldScalar, Merge, Pow2;
  }
}
