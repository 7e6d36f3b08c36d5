/**
 When the affine analysis succeeds, operation by operation, and which coefficients it then
 finds: it gives up only where a result does not fit, or is not affine.
 */
module AffineExact {
  import opened IR
  import opened Scalar
  import opened AffineForms
  import opened AffineAnalysis

  /** The number fits a signed integer of the width, 64 bits at most. */
  predicate Fits(c: int, w: nat) {
    if 0 < w < 64 then 0 - Pow2(w - 1) <= c < Pow2(w - 1)
    else -0x8000_0000_0000_0000 <= c < 0x8000_0000_0000_0000
  }

  predicate FitsTerms(terms: seq<Term>) {
    forall i | 0 <= i < |terms| :: terms[i].isSigned && Fits(terms[i].coefficient, 64)
  }

  lemma FitsIs(c: int, w: nat)
    ensures Fits(c, w) <==> InInt64(c) && IsCoefficientSafe(c, w, true)
  {
    if 0 < w < 64 {
      Pow2Values();
      if w < 63 { Pow2Grows(w - 1, 63); }
      if w == 63 { Pow2Grows(62, 63); }
    }
  }

  // ----- Scaling

  ghost predicate ScaledFits(terms: seq<Term>, coeff: int, w: nat) {
    forall i | 0 <= i < |terms| :: Fits(terms[i].coefficient * coeff, w)
  }

  lemma {:induction false} ScaleTermsExactly(terms: seq<Term>, coeff: int, w: nat)
    requires FitsTerms(terms)
    ensures ScaleTerms(terms, coeff, w).Some? <==> ScaledFits(terms, coeff, w)
    ensures ScaleTerms(terms, coeff, w).Some? ==>
              var r := ScaleTerms(terms, coeff, w).value;
              && |r| == |terms|
              && forall i | 0 <= i < |r| :: r[i] == terms[i].(coefficient := terms[i].coefficient * coeff)
  {
    hide Fits, InInt64, IsCoefficientSafe;
    if terms != [] {
      var front, t := terms[..|terms| - 1], Last(terms);
      ScaleTermsExactly(front, coeff, w);
      FitsIs(t.coefficient * coeff, w);
      assert forall i | 0 <= i < |front| :: front[i] == terms[i];
    }
  }

  /** A form times a constant fits exactly if all its parts do, and these are the products. */
  lemma ScaleExactly(e: AffineExpr, coeff: int, w: nat)
    requires FitsTerms(e.terms)
    ensures Scale(e, coeff, w).Some? <==> Fits(e.constant * coeff, w) && ScaledFits(e.terms, coeff, w)
    ensures Scale(e, coeff, w).Some? ==>
              var r := Scale(e, coeff, w).value;
              && r.constant == e.constant * coeff && r.width == w && |r.terms| == |e.terms|
              && forall i | 0 <= i < |r.terms| ::
                   r.terms[i] == e.terms[i].(coefficient := e.terms[i].coefficient * coeff)
  {
    hide Fits, InInt64, IsCoefficientSafe, ScaleTerms, ScaledFits;
    ScaleTermsExactly(e.terms, coeff, w);
    FitsIs(e.constant * coeff, w);
  }

  // ----- Merging

  /** The coefficient of a leaf, nought where it does not occur. */
  function Coefficient(terms: seq<Term>, v: Value): int {
    if terms == [] then 0 else if terms[0].value == v then terms[0].coefficient else Coefficient(terms[1..], v)
  }

  lemma {:induction false} NoCoefficient(terms: seq<Term>, v: Value)
    requires forall i | 0 <= i < |terms| :: terms[i].value != v
    ensures Coefficient(terms, v) == 0
  {
    if terms != [] { NoCoefficient(terms[1..], v); }
  }

  lemma {:induction false} CoefficientAt(terms: seq<Term>, i: nat)
    requires DistinctLeaves(terms) && i < |terms|
    ensures Coefficient(terms, terms[i].value) == terms[i].coefficient
  {
    if i > 0 { CoefficientAt(terms[1..], i - 1); }
  }

  lemma RestFits(terms: seq<Term>)
    requires FitsTerms(terms) && DistinctLeaves(terms) && terms != []
    ensures FitsTerms(terms[1..]) && DistinctLeaves(terms[1..]) && terms[0].isSigned
    ensures forall i | 0 <= i < |terms[1..]| :: terms[1..][i].value != terms[0].value
  {
    hide Fits;
    assert forall i | 0 <= i < |terms| - 1 :: terms[1..][i] == terms[i + 1];
  }

  /** One more term: it can be added exactly if the sum fits. */
  lemma {:induction false} MergeTermExactly(terms: seq<Term>, t: Term, w: nat)
    requires FitsTerms(terms) && DistinctLeaves(terms) && t.isSigned && Fits(t.coefficient, 64)
    ensures MergeTerm(terms, t, w).Some? <==> Fits(Coefficient(terms, t.value) + t.coefficient, w)
    ensures MergeTerm(terms, t, w).Some? ==>
              var r := MergeTerm(terms, t, w).value;
              && FitsTerms(r) && DistinctLeaves(r)
              && (forall v :: Coefficient(r, v) == Coefficient(terms, v) + if v == t.value then t.coefficient else 0)
              && (forall i | 0 <= i < |r| ::
                    r[i].value == t.value || exists j :: 0 <= j < |terms| && terms[j].value == r[i].value)
    decreases |terms|
  {
    hide Fits, InInt64, IsCoefficientSafe;
    if terms == [] {
      FitsIs(t.coefficient, w);
      FitsIs(t.coefficient, 64);
      WidthSafe(t.coefficient, w);
      assert [t][1..] == [];
    } else if terms[0].value == t.value {
      var c := terms[0].coefficient + t.coefficient;
      FitsIs(c, w);
      FitsWider(c, w);
      RestFits(terms);
      var r := [terms[0].(coefficient := c)] + terms[1..];
      assert r[1..] == terms[1..] && r[0].value == t.value;
      NoCoefficient(terms[1..], t.value);
    } else {
      RestFits(terms);
      MergeTermExactly(terms[1..], t, w);
      if MergeTerm(terms[1..], t, w).Some? {
        var rest := MergeTerm(terms[1..], t, w).value;
        var r := [terms[0]] + rest;
        assert r[1..] == rest;
        assert forall i | 0 < i < |r| :: r[i] == rest[i - 1];
        assert forall j | 0 <= j < |terms| - 1 :: terms[1..][j] == terms[j + 1];
      }
    }
  }

  lemma WidthSafe(c: int, w: nat)
    requires InInt64(c)
    ensures IsCoefficientSafe(c, w, true) <==> Fits(c, w)
  {
    FitsIs(c, w);
  }

  lemma FitsWider(c: int, w: nat)
    ensures Fits(c, w) ==> Fits(c, 64)
  {
    FitsIs(c, w);
    FitsIs(c, 64);
  }

  /** The coefficients of a sum or difference. */
  function Total(a: seq<Term>, b: seq<Term>, subtract: bool, v: Value): int {
    if subtract then Coefficient(a, v) - Coefficient(b, v) else Coefficient(a, v) + Coefficient(b, v)
  }

  /** Each leaf of the second form has a total that fits; and nothing is subtracted that cannot be negated. */
  ghost predicate TotalsFit(a: seq<Term>, b: seq<Term>, subtract: bool, w: nat) {
    forall i | 0 <= i < |b| ::
      Fits(Total(a, b, subtract, b[i].value), w) && !(subtract && b[i].coefficient == -0x8000_0000_0000_0000)
  }

  lemma FrontFits(b: seq<Term>)
    requires b != [] && FitsTerms(b) && DistinctLeaves(b)
    ensures FitsTerms(b[..|b| - 1]) && DistinctLeaves(b[..|b| - 1])
    ensures Last(b).isSigned && Fits(Last(b).coefficient, 64)
    ensures var front := b[..|b| - 1]; forall i | 0 <= i < |front| :: front[i].value != Last(b).value
  {
    hide Fits;
  }

  lemma {:induction false} CoefficientFront(b: seq<Term>, v: Value)
    requires b != [] && DistinctLeaves(b)
    ensures Coefficient(b, v) == if v == Last(b).value then Last(b).coefficient else Coefficient(b[..|b| - 1], v)
  {
    if |b| > 1 {
      CoefficientFront(b[1..], v);
      assert b[1..][..|b| - 2] == b[..|b| - 1][1..];
    } else {
      assert b[..0] == [] && b[1..] == [];
    }
  }

  lemma CoefficientBehind(front: seq<Term>, t: Term, v: Value)
    requires DistinctLeaves(front) && forall i | 0 <= i < |front| :: front[i].value != t.value
    ensures Coefficient(front + [t], v) == if v == t.value then t.coefficient else Coefficient(front, v)
  {
    CoefficientFront(front + [t], v);
    assert (front + [t])[..|front|] == front;
  }

  lemma NegationFits(t: Term, subtract: bool)
    requires t.isSigned && Fits(t.coefficient, 64) && !(subtract && t.coefficient == MIN64)
    ensures Signed(t, subtract).isSigned && Fits(Signed(t, subtract).coefficient, 64)
    ensures Signed(t, subtract).value == t.value
    ensures Signed(t, subtract).coefficient == if subtract then 0 - t.coefficient else t.coefficient
  {
  }

  lemma TotalsFront(a: seq<Term>, b: seq<Term>, subtract: bool, w: nat)
    requires b != [] && FitsTerms(b) && DistinctLeaves(b)
    ensures TotalsFit(a, b, subtract, w) <==>
              && TotalsFit(a, b[..|b| - 1], subtract, w)
              && Fits(Total(a, b, subtract, Last(b).value), w)
              && !(subtract && Last(b).coefficient == MIN64)
  {
    var front := b[..|b| - 1];
    FrontFits(b);
    hide Fits, FitsTerms;
    forall i | 0 <= i < |front|
      ensures Total(a, b, subtract, b[i].value) == Total(a, front, subtract, front[i].value)
    {
      CoefficientFront(b, b[i].value);
    }
    hide Total;
    assert forall i | 0 <= i < |front| :: front[i] == b[i];
  }

  /** A second list of terms merged in. */
  lemma {:induction false} MergeTermsExactly(a: seq<Term>, b: seq<Term>, w: nat, subtract: bool)
    requires FitsTerms(a) && DistinctLeaves(a) && FitsTerms(b) && DistinctLeaves(b)
    ensures MergeTerms(a, b, w, subtract).Some? <==> TotalsFit(a, b, subtract, w)
    ensures MergeTerms(a, b, w, subtract).Some? ==>
              var r := MergeTerms(a, b, w, subtract).value;
              && FitsTerms(r) && DistinctLeaves(r) && forall v :: Coefficient(r, v) == Total(a, b, subtract, v)
    decreases |b|
  {
    if b != [] {
      var front, t := b[..|b| - 1], Last(b);
      FrontFits(b);
      TotalsFront(a, b, subtract, w);
      MergeTermsExactly(a, front, w, subtract);
      var m := MergeTerms(a, front, w, subtract);
      if m.Some? && !(subtract && t.coefficient == MIN64) {
        NegationFits(t, subtract);
        MergeTermExactly(m.value, Signed(t, subtract), w);
        NoCoefficient(front, t.value);
        forall v
          ensures Coefficient(b, v) == if v == t.value then t.coefficient else Coefficient(front, v)
        {
          CoefficientFront(b, v);
        }
      }
      hide Fits, FitsTerms, DistinctLeaves, Coefficient, MergeTerm, TotalsFit;
    }
  }

  lemma {:induction false} NonZeroKeeps(terms: seq<Term>)
    requires FitsTerms(terms) && DistinctLeaves(terms)
    ensures FitsTerms(NonZero(terms)) && DistinctLeaves(NonZero(terms))
    ensures forall i | 0 <= i < |NonZero(terms)| ::
              exists j :: 0 <= j < |terms| && terms[j].value == NonZero(terms)[i].value
    ensures forall v :: Coefficient(NonZero(terms), v) == Coefficient(terms, v)
  {
    if terms != [] {
      var front, t := terms[..|terms| - 1], Last(terms);
      FrontFits(terms);
      NonZeroKeeps(front);
      var r := NonZero(terms);
      hide Fits;
      assert forall i | 0 <= i < |front| :: front[i] == terms[i];
      NoCoefficient(front, t.value);
      assert r == NonZero(front) + if t.coefficient != 0 then [t] else [];
      if t.coefficient == 0 { assert r == NonZero(front); }
      hide NonZero;
      forall v
        ensures Coefficient(r, v) == Coefficient(terms, v)
      {
        CoefficientFront(terms, v);
        if t.coefficient != 0 { CoefficientBehind(NonZero(front), t, v); }
      }
    }
  }

  /** Two forms of one width: their sum or difference fits exactly if all its parts do, and these are the totals. */
  lemma MergeExactly(a: AffineExpr, b: AffineExpr, subtract: bool)
    requires a.isValid && b.isValid && FitsTerms(a.terms) && DistinctLeaves(a.terms)
    requires FitsTerms(b.terms) && DistinctLeaves(b.terms)
    requires a.width == b.width || a.width == 0 || b.width == 0
    ensures var w := if a.width != 0 then a.width else b.width;
            var c := if subtract then a.constant - b.constant else a.constant + b.constant;
            && (Merge(a, b, subtract).Some? <==> Fits(c, w) && TotalsFit(a.terms, b.terms, subtract, w))
            && (Merge(a, b, subtract).Some? ==>
                  var r := Merge(a, b, subtract).value;
                  && r.isValid && r.width == w && r.constant == c && FitsTerms(r.terms) && DistinctLeaves(r.terms)
                  && forall v :: Coefficient(r.terms, v) == Total(a.terms, b.terms, subtract, v))
  {
    hide Fits, FitsTerms, DistinctLeaves, Coefficient, Total, TotalsFit, MergeTerms, NonZero, InInt64,
         IsCoefficientSafe;
    var w := if a.width != 0 then a.width else b.width;
    FitsIs(if subtract then a.constant - b.constant else a.constant + b.constant, w);
    MergeTermsExactly(a.terms, b.terms, w, subtract);
    var m := MergeTerms(a.terms, b.terms, w, subtract);
    if m.Some? { NonZeroKeeps(m.value); }
  }

  // ----- Direct evaluation

  /** A form as direct evaluation gives it. */
  ghost predicate Proper(e: AffineExpr) {
    e.isValid && FitsTerms(e.terms) && DistinctLeaves(e.terms)
  }

  lemma WidenedProper(p: Program, v: Value, e: AffineExpr)
    requires Proper(e)
    ensures Proper(Widened(p, v, e)) && Widened(p, v, e).terms == e.terms && Widened(p, v, e).constant == e.constant
  {
  }

  lemma LeavesProper(p: Program, v: Value, w: Word)
    ensures Proper(Leaf(p, v)) && Proper(ConstantForm(w))
  {
  }

  lemma ScaledProper(e: AffineExpr, coeff: int, w: nat)
    requires Proper(e) && Scale(e, coeff, w).Some?
    ensures Proper(Scale(e, coeff, w).value)
  {
    ScaleExactly(e, coeff, w);
    var r := Scale(e, coeff, w).value;
    forall i | 0 <= i < |r.terms|
      ensures Fits(r.terms[i].coefficient, 64)
    {
      FitsWider(e.terms[i].coefficient * coeff, w);
    }
    hide Fits, Scale;
  }

  lemma MergedProper(a: AffineExpr, b: AffineExpr, subtract: bool)
    requires Proper(a) && Proper(b) && Merge(a, b, subtract).Some?
    ensures Proper(Merge(a, b, subtract).value)
  {
    assert a.width == b.width || a.width == 0 || b.width == 0;
    hide Merge, FitsTerms, DistinctLeaves;
    MergeExactly(a, b, subtract);
  }

  lemma {:induction false} DirectProper(p: Program, rank: map<Id, nat>, v: Value)
    requires Ranked(p, rank) && Direct(p, rank, v).Some?
    ensures Proper(Direct(p, rank, v).value)
    decreases Level(rank, v)
  {
    if v.Cst? {
      LeavesProper(p, v, v.word);
      WidenedProper(p, v, ConstantForm(v.word));
    } else if IsArithmetic(p, v) {
      RawProper(p, rank, v.id);
      WidenedProper(p, v, DirectRaw(p, rank, v.id).value);
    } else {
      LeavesProper(p, v, Word(0, 0));
      WidenedProper(p, v, Leaf(p, v));
    }
  }

  lemma {:induction false} RawProper(p: Program, rank: map<Id, nat>, id: Id)
    requires Ranked(p, rank) && IsArithmetic(p, Inst(id)) && DirectRaw(p, rank, id).Some?
    ensures Proper(DirectRaw(p, rank, id).value)
    decreases Level(rank, Inst(id)), 0
  {
    var instr := p.code[id];
    assert RankedAt(p, rank, id);
    var x, y, w := instr.operands[0], instr.operands[1], OpWidth(instr);
    hide Proper, Scale, Merge, Direct, Ranked;
    if Direct(p, rank, x).Some? { DirectProper(p, rank, x); }
    if Direct(p, rank, y).Some? { DirectProper(p, rank, y); }
    if instr.op == Mul && x.Cst? && y.Cst? {
      NoTermsProper(AffineExpr([], Signed64(x) * Signed64(y), w, true, true));
    } else if instr.op == Mul && y.Cst? {
      ScaledProper(Direct(p, rank, x).value, Signed64(y), w);
    } else if instr.op == Mul {
      ScaledProper(Direct(p, rank, y).value, Signed64(x), w);
    } else if instr.op == Shl {
      ScaledProper(Direct(p, rank, x).value, Pow2(Signed64(y)), w);
    } else {
      MergedProper(Direct(p, rank, x).value, Direct(p, rank, y).value, instr.op == Sub);
    }
  }

  lemma NoTermsProper(e: AffineExpr)
    requires e.isValid && e.terms == []
    ensures Proper(e)
  {
  }

  lemma ShiftRange(shift: int, w: nat)
    ensures ShiftInRange(shift, w) <==> 0 <= shift < 63 && (w == 0 || shift < w)
  {
  }

  lemma OperandWidth(instr: Instr)
    ensures OpWidth(instr) == if instr.ty == 0 then 64 else instr.ty
  {
  }

  /** A shift is affine exactly if it is by a constant in range, and what it makes of its operand's form fits. */
  lemma ShiftExactly(p: Program, rank: map<Id, nat>, id: Id)
    requires Ranked(p, rank) && id in p.code && p.code[id].op == Shl && |p.code[id].operands| >= 2
    ensures IsArithmetic(p, Inst(id))
    ensures var instr := p.code[id];
            var x, y, w := instr.operands[0], instr.operands[1], if instr.ty == 0 then 64 else instr.ty;
            && (DirectRaw(p, rank, id).Some? <==>
                  && y.Cst? && 0 <= Signed64(y) < 63 && Signed64(y) < w && Direct(p, rank, x).Some?
                  && Fits(Direct(p, rank, x).value.constant * Pow2(Signed64(y)), w)
                  && ScaledFits(Direct(p, rank, x).value.terms, Pow2(Signed64(y)), w))
            && (DirectRaw(p, rank, id).Some? ==>
                  var e, r := Direct(p, rank, x).value, DirectRaw(p, rank, id).value;
                  && r.constant == e.constant * Pow2(Signed64(y)) && |r.terms| == |e.terms|
                  && forall i | 0 <= i < |r.terms| ::
                       r.terms[i] == e.terms[i].(coefficient := e.terms[i].coefficient * Pow2(Signed64(y))))
  {
    var instr := p.code[id];
    var x, y, w := instr.operands[0], instr.operands[1], OpWidth(instr);
    OperandWidth(instr);
    ShiftRange(Signed64(y), w);
    hide ShiftInRange, OpWidth;
    if y.Cst? && ShiftInRange(Signed64(y), w) && Direct(p, rank, x).Some? {
      hide Proper, Scale, Direct, Fits, ScaledFits, Ranked;
      DirectProper(p, rank, x);
      ProperFits(Direct(p, rank, x).value);
      ScaleExactly(Direct(p, rank, x).value, Pow2(Signed64(y)), w);
    }
  }

  lemma ProperFits(e: AffineExpr)
    requires Proper(e)
    ensures e.isValid && FitsTerms(e.terms) && DistinctLeaves(e.terms)
  {
  }

  /** What the analysis looks through, and the conversions that are left out. */
  lemma OpcodesAre(op: Opcode)
    ensures IsAffineOp(op) <==> op in {Add, Sub, Mul, Shl}
    ensures IsExtension(op) <==> op in {ExtSB, ExtSH, ExtSW, ExtS, ExtUB, ExtUH, ExtUW, TruncD}
    ensures ExtendsSign(op) <==> op in {ExtSB, ExtSH, ExtSW, ExtS}
  {
  }

  /** The width of a value: of an instruction, a constant or a parameter. */
  predicate HasWidth(p: Program, v: Value, w: nat) {
    || (v.Inst? && v.id in p.code && w == p.code[v.id].ty)
    || (v.Cst? && w == v.word.width)
    || (v.Arg? && v.index < |p.argWidths| && w == p.argWidths[v.index])
  }

  lemma WidthExactly(p: Program, v: Value, w: nat)
    requires HasWidth(p, v, w)
    ensures TypeWidth(p, v) == w
  {
  }

  /** A constant is itself, and any other value that is no sum, difference, product or shift is a leaf. */
  lemma LeavesExactly(p: Program, rank: map<Id, nat>, v: Value, w: nat)
    requires Ranked(p, rank) && HasWidth(p, v, w)
    requires v.Inst? ==> p.code[v.id].op !in {Add, Sub, Mul, Shl} && !IsExtension(p.code[v.id].op)
    ensures Direct(p, rank, v) ==
              if v.Cst? then Some(AffineExpr([], Signed64(v), w, true, true))
              else Some(AffineExpr([Term(v, 1, w, true)], 0, w, true, true))
  {
    if v.Inst? { OpcodesAre(p.code[v.id].op); }
    WidthExactly(p, v, w);
    hide TypeWidth, SignExtend, Ranked, IsAffineOp, IsExtension;
  }

  /** Of two constants the product fits. */
  lemma ConstantsExactly(p: Program, rank: map<Id, nat>, id: Id)
    requires Ranked(p, rank) && id in p.code && p.code[id].op == Mul && |p.code[id].operands| >= 2
    requires p.code[id].operands[0].Cst? && p.code[id].operands[1].Cst?
    ensures IsArithmetic(p, Inst(id))
    ensures var instr := p.code[id];
            var w := if instr.ty == 0 then 64 else instr.ty;
            var c := Signed64(instr.operands[0]) * Signed64(instr.operands[1]);
            && (DirectRaw(p, rank, id).Some? <==> Fits(c, w))
            && (DirectRaw(p, rank, id).Some? ==>
                  DirectRaw(p, rank, id).value.terms == [] && DirectRaw(p, rank, id).value.constant == c)
  {
    var instr := p.code[id];
    OperandWidth(instr);
    FitsIs(Signed64(instr.operands[0]) * Signed64(instr.operands[1]), OpWidth(instr));
    hide OpWidth, Fits, InInt64, IsCoefficientSafe;
  }

  /** The product of a constant, operand k, and the other operand: what it makes of the other's form fits. */
  lemma ProductExactly(p: Program, rank: map<Id, nat>, id: Id, k: nat)
    requires Ranked(p, rank) && id in p.code && p.code[id].op == Mul && |p.code[id].operands| >= 2 && k < 2
    requires p.code[id].operands[k].Cst? && !p.code[id].operands[1 - k].Cst?
    ensures IsArithmetic(p, Inst(id))
    ensures var instr := p.code[id];
            var c, form, w := Signed64(instr.operands[k]), Direct(p, rank, instr.operands[1 - k]),
                              if instr.ty == 0 then 64 else instr.ty;
            && (DirectRaw(p, rank, id).Some? <==>
                  form.Some? && Fits(form.value.constant * c, w) && ScaledFits(form.value.terms, c, w))
            && (DirectRaw(p, rank, id).Some? ==>
                  var e, r := form.value, DirectRaw(p, rank, id).value;
                  && r.constant == e.constant * c && |r.terms| == |e.terms|
                  && forall i | 0 <= i < |r.terms| ::
                       r.terms[i] == e.terms[i].(coefficient := e.terms[i].coefficient * c))
  {
    var instr := p.code[id];
    var c, v, w := Signed64(instr.operands[k]), instr.operands[1 - k], OpWidth(instr);
    OperandWidth(instr);
    hide OpWidth, Proper, Scale, Fits, ScaledFits, InInt64, IsCoefficientSafe;
    if Direct(p, rank, v).Some? {
      hide Direct, Ranked;
      DirectProper(p, rank, v);
      ProperFits(Direct(p, rank, v).value);
      ScaleExactly(Direct(p, rank, v).value, c, w);
    }
  }

  /** A product without a constant factor is not affine. */
  lemma NoConstantFactor(p: Program, rank: map<Id, nat>, id: Id)
    requires Ranked(p, rank) && id in p.code && p.code[id].op == Mul && |p.code[id].operands| >= 2
    requires !p.code[id].operands[0].Cst? && !p.code[id].operands[1].Cst?
    ensures IsArithmetic(p, Inst(id)) && DirectRaw(p, rank, id) == None
  {
  }

  /** A sum or difference of affine operands is affine exactly if their widths agree and all totals fit. */
  lemma SumExactly(p: Program, rank: map<Id, nat>, id: Id)
    requires Ranked(p, rank) && id in p.code && p.code[id].op in {Add, Sub} && |p.code[id].operands| >= 2
    ensures IsArithmetic(p, Inst(id))
    ensures var x, y := Direct(p, rank, p.code[id].operands[0]), Direct(p, rank, p.code[id].operands[1]);
            (x.Some? && y.Some? && (x.value.width == y.value.width || x.value.width == 0 || y.value.width == 0)) ==>
              var a, b, subtract := x.value, y.value, p.code[id].op == Sub;
              var w := if a.width != 0 then a.width else b.width;
              var c := if subtract then a.constant - b.constant else a.constant + b.constant;
              && (DirectRaw(p, rank, id).Some? <==> Fits(c, w) && TotalsFit(a.terms, b.terms, subtract, w))
              && (DirectRaw(p, rank, id).Some? ==>
                    var r := DirectRaw(p, rank, id).value;
                    r.constant == c && forall v :: Coefficient(r.terms, v) == Total(a.terms, b.terms, subtract, v))
    ensures var x, y := Direct(p, rank, p.code[id].operands[0]), Direct(p, rank, p.code[id].operands[1]);
            DirectRaw(p, rank, id).Some? ==>
              x.Some? && y.Some? && (x.value.width == y.value.width || x.value.width == 0 || y.value.width == 0)
  {
    hide *;
    RawSum(p, rank, id);
    var x, y := Direct(p, rank, p.code[id].operands[0]), Direct(p, rank, p.code[id].operands[1]);
    if x.Some? && y.Some? {
      DirectProper(p, rank, p.code[id].operands[0]);
      DirectProper(p, rank, p.code[id].operands[1]);
      ProperFits(x.value);
      ProperFits(y.value);
      MergeWidths(x.value, y.value, p.code[id].op == Sub);
      if x.value.width == y.value.width || x.value.width == 0 || y.value.width == 0 {
        MergeExactly(x.value, y.value, p.code[id].op == Sub);
      }
    }
  }

  lemma RawSum(p: Program, rank: map<Id, nat>, id: Id)
    requires Ranked(p, rank) && id in p.code && p.code[id].op in {Add, Sub} && |p.code[id].operands| >= 2
    ensures IsArithmetic(p, Inst(id))
    ensures var x, y := Direct(p, rank, p.code[id].operands[0]), Direct(p, rank, p.code[id].operands[1]);
            var r := if x.Some? && y.Some? then Merge(x.value, y.value, p.code[id].op == Sub) else None;
            DirectRaw(p, rank, id) == r
  {
    hide Merge, Direct, Ranked;
  }

  lemma MergeWidths(a: AffineExpr, b: AffineExpr, subtract: bool)
    ensures Merge(a, b, subtract).Some? ==> a.width == b.width || a.width == 0 || b.width == 0
  {
    hide MergeTerms, InInt64, IsCoefficientSafe;
  }
}
