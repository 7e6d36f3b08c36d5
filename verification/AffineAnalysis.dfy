/**
 The memoised affine analysis: a recursive walk with a cache, a budget of nodes and a
 set of values in progress, checked against direct evaluation.
 */
module AffineAnalysis {
  import opened IR
  import opened Scalar
  import opened Patterns
  import opened AffineForms

  // ----- Direct evaluation

  predicate IsArithmetic(p: Program, v: Value) {
    v.Inst? && v.id in p.code && IsAffineOp(p.code[v.id].op)
  }

  /** How deep arithmetic nests below a value. */
  function Level(rank: map<Id, nat>, v: Value): nat {
    if v.Inst? && v.id in rank then rank[v.id] + 1 else 0
  }

  /** Arithmetic does not feed into itself. */
  ghost predicate Ranked(p: Program, rank: map<Id, nat>) {
    forall id | id in p.code && IsAffineOp(p.code[id].op) :: RankedAt(p, rank, id)
  }

  ghost predicate RankedAt(p: Program, rank: map<Id, nat>, id: Id)
    requires id in p.code
  {
    id in rank && forall i | 0 <= i < |p.code[id].operands| :: Level(rank, p.code[id].operands[i]) <= rank[id]
  }

  /** The width at which an operation works. */
  function OpWidth(instr: Instr): nat {
    if instr.ty == 0 then 64 else instr.ty
  }

  function Signed64(v: Value): int {
    if v.Cst? then SignExtend(v.word.bits, 64) else 0
  }

  function ConstantProduct(x: int, y: int, w: nat): Option<AffineExpr> {
    if InInt64(x * y) && IsCoefficientSafe(x * y, w, true) then Some(AffineExpr([], x * y, w, true, true)) else None
  }

  function ScaleIf(e: Option<AffineExpr>, coeff: int, w: nat): Option<AffineExpr> {
    if e.Some? then Scale(e.value, coeff, w) else None
  }

  function MergeIf(a: Option<AffineExpr>, b: Option<AffineExpr>, subtract: bool): Option<AffineExpr> {
    if a.Some? && b.Some? then Merge(a.value, b.value, subtract) else None
  }

  predicate ShiftInRange(shift: int, w: nat) {
    0 <= shift < 63 && (w == 0 || shift < w)
  }

  /** The form of an instruction, from those of its operands, with neither cache nor budget. */
  ghost function DirectRaw(p: Program, rank: map<Id, nat>, id: Id): Option<AffineExpr>
    requires Ranked(p, rank) && IsArithmetic(p, Inst(id))
    decreases Level(rank, Inst(id)), 0
  {
    var instr := p.code[id];
    assert RankedAt(p, rank, id);
    if |instr.operands| < 2 then None
    else
      var x, y, w := instr.operands[0], instr.operands[1], OpWidth(instr);
      if instr.op == Mul then
        if x.Cst? && y.Cst? then ConstantProduct(Signed64(x), Signed64(y), w)
        else if y.Cst? then ScaleIf(Direct(p, rank, x), Signed64(y), w)
        else if x.Cst? then ScaleIf(Direct(p, rank, y), Signed64(x), w)
        else None
      else if instr.op == Shl then
        if !y.Cst? || !ShiftInRange(Signed64(y), w) then None else ScaleIf(Direct(p, rank, x), Pow2(Signed64(y)), w)
      else MergeIf(Direct(p, rank, x), Direct(p, rank, y), instr.op == Sub)
  }

  ghost function Direct(p: Program, rank: map<Id, nat>, v: Value): Option<AffineExpr>
    requires Ranked(p, rank)
    decreases Level(rank, v), 1
  {
    var e := if v.Cst? then Some(ConstantForm(v.word))
             else if IsArithmetic(p, v) then DirectRaw(p, rank, v.id)
             else Some(Leaf(p, v));
    if e.Some? then Some(Widened(p, v, e.value)) else None
  }

  /** The nodes direct evaluation goes through. */
  ghost function Nodes(p: Program, rank: map<Id, nat>, v: Value): nat
    requires Ranked(p, rank)
    decreases Level(rank, v)
  {
    if IsArithmetic(p, v) && |p.code[v.id].operands| >= 2 then
      assert RankedAt(p, rank, v.id);
      1 + Nodes(p, rank, p.code[v.id].operands[0]) + Nodes(p, rank, p.code[v.id].operands[1])
    else 1
  }

  // ----- What a result is worth

  /** Sound where there is one; and where arithmetic does not feed into itself, that of direct evaluation. */
  ghost predicate Good(p: Program, rank: Option<map<Id, nat>>, v: Value, ok: bool, e: AffineExpr, exhausted: bool)
    requires rank.Some? ==> Ranked(p, rank.value)
  {
    && (ok ==> Sound(p, v, e))
    && (rank.Some? ==>
          && (ok ==> Direct(p, rank.value, v) == Some(e))
          && (!ok ==> Direct(p, rank.value, v) == None || exhausted))
  }

  /** The same before the width is filled in. */
  ghost predicate GoodRaw(p: Program, rank: Option<map<Id, nat>>, id: Id, ok: bool, e: AffineExpr, exhausted: bool)
    requires (rank.Some? ==> Ranked(p, rank.value)) && IsArithmetic(p, Inst(id))
  {
    && (ok ==> Sound(p, Inst(id), e))
    && (rank.Some? ==>
          && (ok ==> DirectRaw(p, rank.value, id) == Some(e))
          && (!ok ==> DirectRaw(p, rank.value, id) == None || exhausted))
  }

  ghost predicate GoodCache(p: Program, rank: Option<map<Id, nat>>, cache: map<Value, AffineExpr>)
    requires rank.Some? ==> Ranked(p, rank.value)
  {
    forall v | v in cache :: Good(p, rank, v, true, cache[v], false)
  }

  /** Where arithmetic does not feed into itself, what is in progress is above what is looked at. */
  ghost predicate Above(rank: Option<map<Id, nat>>, v: Value, inProgress: set<Value>) {
    rank.Some? ==> forall u | u in inProgress :: Level(rank.value, u) > Level(rank.value, v)
  }

  lemma WidenedSound(p: Program, v: Value, e: AffineExpr)
    requires Sound(p, v, e)
    ensures Sound(p, v, Widened(p, v, e))
  {
    hide Consistent, Pat, Sum, TypeWidth;
  }

  lemma LeafGood(p: Program, rank: Option<map<Id, nat>>, v: Value)
    requires (rank.Some? ==> Ranked(p, rank.value)) && !v.Cst? && !IsArithmetic(p, v)
    ensures Good(p, rank, v, true, Widened(p, v, Leaf(p, v)), false)
  {
    LeafSound(p, v);
    WidenedSound(p, v, Leaf(p, v));
    hide Sound, Leaf, Widened, Ranked;
  }

  lemma ConstantGood(p: Program, rank: Option<map<Id, nat>>, w: Word)
    requires (rank.Some? ==> Ranked(p, rank.value)) && w.width <= 64
    ensures Good(p, rank, Cst(w), true, Widened(p, Cst(w), ConstantForm(w)), false)
  {
    ConstantSound(p, w);
    WidenedSound(p, Cst(w), ConstantForm(w));
    hide Sound, ConstantForm, Widened, Ranked;
  }

  lemma ArithmeticGood(p: Program, rank: Option<map<Id, nat>>, id: Id, ok: bool, e: AffineExpr, exhausted: bool)
    requires (rank.Some? ==> Ranked(p, rank.value)) && IsArithmetic(p, Inst(id))
    requires GoodRaw(p, rank, id, ok, e, exhausted)
    ensures Good(p, rank, Inst(id), ok, if ok then Widened(p, Inst(id), e) else e, exhausted)
  {
    if ok { WidenedSound(p, Inst(id), e); }
    hide Sound, Widened, Ranked, DirectRaw;
  }

  /** The direct form of a product is None where that of its only factor is. */
  lemma ProductFails(p: Program, rank: map<Id, nat>, id: Id, i: nat)
    requires Ranked(p, rank) && IsArithmetic(p, Inst(id)) && |p.code[id].operands| >= 2 && i < 2 && p.code[id].op == Mul
    requires !p.code[id].operands[i].Cst? && p.code[id].operands[1 - i].Cst?
    requires Direct(p, rank, p.code[id].operands[i]) == None
    ensures DirectRaw(p, rank, id) == None
  {
    hide Ranked, RankedAt, Direct, Scale, ConstantProduct, Signed64, OpWidth, Pow2, MergeIf;
  }

  lemma ShiftFails(p: Program, rank: map<Id, nat>, id: Id)
    requires Ranked(p, rank) && IsArithmetic(p, Inst(id)) && |p.code[id].operands| >= 2 && p.code[id].op == Shl
    requires Direct(p, rank, p.code[id].operands[0]) == None
    ensures DirectRaw(p, rank, id) == None
  {
    hide Ranked, RankedAt, Direct, Scale, ConstantProduct, Signed64, OpWidth, MergeIf;
  }

  lemma SumFails(p: Program, rank: map<Id, nat>, id: Id, i: nat)
    requires Ranked(p, rank) && IsArithmetic(p, Inst(id)) && |p.code[id].operands| >= 2 && i < 2
    requires p.code[id].op != Mul && p.code[id].op != Shl && Direct(p, rank, p.code[id].operands[i]) == None
    ensures DirectRaw(p, rank, id) == None
  {
    hide Ranked, RankedAt, Direct, Merge, ConstantProduct, Signed64, OpWidth, Pow2, ScaleIf;
  }

  /** A failed operand fails the instruction. */
  lemma OperandFails(p: Program, rank: Option<map<Id, nat>>, id: Id, i: nat, e: AffineExpr, exhausted: bool)
    requires (rank.Some? ==> Ranked(p, rank.value)) && IsArithmetic(p, Inst(id)) && |p.code[id].operands| >= 2 && i < 2
    requires Good(p, rank, p.code[id].operands[i], false, e, exhausted)
    requires p.code[id].op == Mul ==> !p.code[id].operands[i].Cst? && p.code[id].operands[1 - i].Cst?
    requires p.code[id].op == Shl ==> i == 0
    ensures GoodRaw(p, rank, id, false, e, exhausted)
  {
    hide Sound, Ranked, RankedAt, Direct, DirectRaw;
    if rank.Some? && !exhausted {
      if p.code[id].op == Mul {
        ProductFails(p, rank.value, id, i);
      } else if p.code[id].op == Shl {
        ShiftFails(p, rank.value, id);
      } else {
        SumFails(p, rank.value, id, i);
      }
    }
  }

  // ----- The success of each operation

  lemma ScaledGood(p: Program, rank: Option<map<Id, nat>>, id: Id, i: nat, e: AffineExpr, coeff: int)
    requires SingleWidth(p) && (rank.Some? ==> Ranked(p, rank.value))
    requires IsArithmetic(p, Inst(id)) && |p.code[id].operands| >= 2 && i < 2
    requires Good(p, rank, p.code[id].operands[i], true, e, false)
    requires || (p.code[id].op == Mul && !p.code[id].operands[i].Cst? && p.code[id].operands[1 - i].Cst?
                 && coeff == Signed64(p.code[id].operands[1 - i]))
             || (p.code[id].op == Shl && i == 0 && p.code[id].operands[1].Cst?
                 && ShiftInRange(Signed64(p.code[id].operands[1]), OpWidth(p.code[id]))
                 && coeff == Pow2(Signed64(p.code[id].operands[1])))
    ensures var r := Scale(e, coeff, OpWidth(p.code[id]));
            GoodRaw(p, rank, id, r.Some?, if r.Some? then r.value else e, false)
  {
    var instr := p.code[id];
    var v := instr.operands[i];
    WidthsOf(p, id);
    forall env: Value -> nat | Consistent(p, env)
      ensures Pat(env(Inst(id)), TypeWidth(p, v)) == Pat(env(v) * coeff, TypeWidth(p, v))
    {
      hide Consistent, SingleWidth, Pat, TypeWidth, Pow2, SignExtend, Sound, Good, Ranked;
      if instr.op == Mul {
        ProductIs(p, id, env);
      } else {
        ShiftIs(p, id, env, Signed64(instr.operands[1]));
      }
    }
    hide Consistent, SingleWidth, Pat, TypeWidth, Pow2, SignExtend, Sound, Ranked, Scale;
    if Scale(e, coeff, OpWidth(instr)).Some? {
      ScaleSound(p, Inst(id), v, e, coeff);
    }
  }

  lemma MergedGood(p: Program, rank: Option<map<Id, nat>>, id: Id, a: AffineExpr, b: AffineExpr)
    requires SingleWidth(p) && (rank.Some? ==> Ranked(p, rank.value))
    requires IsArithmetic(p, Inst(id)) && |p.code[id].operands| >= 2 && (p.code[id].op == Add || p.code[id].op == Sub)
    requires Good(p, rank, p.code[id].operands[0], true, a, false)
    requires Good(p, rank, p.code[id].operands[1], true, b, false)
    ensures var r := Merge(a, b, p.code[id].op == Sub);
            GoodRaw(p, rank, id, r.Some?, if r.Some? then r.value else a, false)
  {
    hide SingleWidth, Sound, Merge, Ranked;
    if Merge(a, b, p.code[id].op == Sub).Some? {
      MergeSound(p, id, a, b);
    }
  }

  lemma ConstantsAt(p: Program, id: Id, env: Value -> nat)
    requires SingleWidth(p) && Consistent(p, env) && id in p.code && p.code[id].op == Mul && |p.code[id].operands| >= 2
    requires p.code[id].operands[0].Cst? && p.code[id].operands[1].Cst?
    ensures Pat(env(Inst(id)), TypeWidth(p, Inst(id)))
         == Pat(Signed64(p.code[id].operands[0]) * Signed64(p.code[id].operands[1]), TypeWidth(p, Inst(id)))
  {
    hide *;
    MulIsAffine();
    WidthsOf(p, id);
    var x, y := p.code[id].operands[0], p.code[id].operands[1];
    ProductIs(p, id, env);
    ConstantIs(p, env, x);
    SignedIs(x);
    SignedIs(y);
    SignedConstant(x.word.bits, p.code[id].ty);
    CongMul(env(x), Signed64(y), Signed64(x), Signed64(y), p.code[id].ty);
  }

  lemma MulIsAffine()
    ensures IsAffineOp(Mul)
  {
  }

  lemma SignedIs(v: Value)
    requires v.Cst?
    ensures Signed64(v) == SignExtend(v.word.bits, 64)
  {
  }

  lemma ConstantsSound(p: Program, id: Id, c: int, w: nat)
    requires SingleWidth(p) && id in p.code && p.code[id].op == Mul && |p.code[id].operands| >= 2
    requires p.code[id].operands[0].Cst? && p.code[id].operands[1].Cst?
    requires c == Signed64(p.code[id].operands[0]) * Signed64(p.code[id].operands[1])
    ensures Sound(p, Inst(id), AffineExpr([], c, w, true, true))
  {
    hide Consistent, SingleWidth, Pat, TypeWidth, Signed64;
    forall env: Value -> nat | Consistent(p, env)
      ensures Pat(env(Inst(id)), TypeWidth(p, Inst(id))) == Pat(c + Sum([], env), TypeWidth(p, Inst(id)))
    {
      ConstantsAt(p, id, env);
      NoSum(env);
    }
  }

  lemma ConstantsGood(p: Program, rank: Option<map<Id, nat>>, id: Id, e: AffineExpr)
    requires SingleWidth(p) && (rank.Some? ==> Ranked(p, rank.value))
    requires IsArithmetic(p, Inst(id)) && |p.code[id].operands| >= 2 && p.code[id].op == Mul
    requires p.code[id].operands[0].Cst? && p.code[id].operands[1].Cst?
    ensures var r := ConstantProduct(Signed64(p.code[id].operands[0]), Signed64(p.code[id].operands[1]),
                                     OpWidth(p.code[id]));
            GoodRaw(p, rank, id, r.Some?, if r.Some? then r.value else e, false)
  {
    var instr := p.code[id];
    hide SingleWidth, Signed64, Sound, Ranked, IsCoefficientSafe, OpWidth;
    ConstantsSound(p, id, Signed64(instr.operands[0]) * Signed64(instr.operands[1]), OpWidth(instr));
  }

  lemma RejectedGood(p: Program, rank: Option<map<Id, nat>>, id: Id, e: AffineExpr)
    requires (rank.Some? ==> Ranked(p, rank.value)) && IsArithmetic(p, Inst(id))
    requires var instr := p.code[id];
             || |instr.operands| < 2
             || (instr.op == Mul && !instr.operands[0].Cst? && !instr.operands[1].Cst?)
             || (instr.op == Shl
                 && (!instr.operands[1].Cst? || !ShiftInRange(Signed64(instr.operands[1]), OpWidth(instr))))
    ensures GoodRaw(p, rank, id, false, e, false)
  {
    hide Sound, Ranked;
  }

  lemma GoodWeakens(p: Program, rank: Option<map<Id, nat>>, id: Id, ok: bool, e: AffineExpr, exhausted: bool)
    requires (rank.Some? ==> Ranked(p, rank.value)) && IsArithmetic(p, Inst(id)) && GoodRaw(p, rank, id, ok, e, false)
    ensures GoodRaw(p, rank, id, ok, e, exhausted)
  {
    hide Sound, Ranked, DirectRaw;
  }

  lemma GoodExact(p: Program, rank: Option<map<Id, nat>>, v: Value, e: AffineExpr, exhausted: bool)
    requires (rank.Some? ==> Ranked(p, rank.value)) && Good(p, rank, v, true, e, exhausted)
    ensures Good(p, rank, v, true, e, false) && e.isValid
  {
    hide Consistent, Describes, Ranked, Direct;
  }

  // ----- The loops over terms

  /** Scaling, term by term. */
  method ScaleForm(e: AffineExpr, coeff: int, w: nat) returns (ok: bool, r: AffineExpr)
    ensures ok <==> Scale(e, coeff, w).Some?
    ensures ok ==> r == Scale(e, coeff, w).value
  {
    hide IsCoefficientSafe;
    r := AffineExpr([], 0, 0, false, false);
    var newConstant := e.constant * coeff;
    if !InInt64(newConstant) || !IsCoefficientSafe(newConstant, w, true) {
      return false, r;
    }
    r := AffineExpr([], newConstant, w, e.signed, false);
    for k := 0 to |e.terms|
      invariant ScaleTerms(e.terms[..k], coeff, w) == Some(r.terms)
      invariant r == AffineExpr(r.terms, newConstant, w, e.signed, false)
    {
      assert e.terms[..k + 1][..k] == e.terms[..k];
      var term := e.terms[k];
      var newCoeff := term.coefficient * coeff;
      if !InInt64(newCoeff) || !IsCoefficientSafe(newCoeff, w, term.isSigned) {
        ScaleFails(e.terms, coeff, w, k + 1);
        return false, r;
      }
      r := r.(terms := r.terms + [term.(coefficient := newCoeff)]);
    }
    assert e.terms[..|e.terms|] == e.terms;
    r := r.(isValid := true);
    ok := true;
  }

  lemma {:induction false} ScaleFails(terms: seq<Term>, coeff: int, w: nat, k: nat)
    requires k <= |terms| && ScaleTerms(terms[..k], coeff, w).None?
    ensures ScaleTerms(terms, coeff, w).None?
    decreases |terms|
  {
    hide IsCoefficientSafe;
    if k < |terms| {
      assert terms[..|terms| - 1][..k] == terms[..k];
      ScaleFails(terms[..|terms| - 1], coeff, w, k);
    } else {
      assert terms[..k] == terms;
    }
  }

  /** Looks for the term's leaf; adds to it, or appends. */
  method MergeOne(terms: seq<Term>, t: Term, width: nat) returns (ok: bool, r: seq<Term>)
    ensures ok <==> MergeTerm(terms, t, width).Some?
    ensures ok ==> r == MergeTerm(terms, t, width).value
  {
    hide IsCoefficientSafe;
    r := terms;
    assert terms[0..] == terms && terms[..0] == [];
    NothingBefore(MergeTerm(terms, t, width));
    for k := 0 to |terms|
      invariant MergeTerm(terms, t, width) == Behind(terms[..k], MergeTerm(terms[k..], t, width))
    {
      var l := terms[k];
      if l.value == t.value {
        var c := l.coefficient + t.coefficient;
        if !InInt64(c) || !IsCoefficientSafe(c, width, l.isSigned) {
          return false, r;
        }
        r := terms[k := l.(coefficient := c)];
        assert r == terms[..k] + ([l.(coefficient := c)] + terms[k..][1..]);
        return true, r;
      }
      assert terms[k..][1..] == terms[k + 1..] && terms[..k + 1] == terms[..k] + [l];
      BehindNext(terms[..k], l, MergeTerm(terms[k + 1..], t, width));
    }
    assert terms[..|terms|] == terms;
    if !IsCoefficientSafe(t.coefficient, width, t.isSigned) {
      return false, r;
    }
    r := terms + [t];
    ok := true;
  }

  function Behind(front: seq<Term>, rest: Option<seq<Term>>): Option<seq<Term>> {
    if rest.Some? then Some(front + rest.value) else None
  }

  lemma NothingBefore(rest: Option<seq<Term>>)
    ensures Behind([], rest) == rest
  {
    if rest.Some? { assert [] + rest.value == rest.value; }
  }

  lemma BehindNext(front: seq<Term>, l: Term, rest: Option<seq<Term>>)
    ensures Behind(front + [l], rest) == Behind(front, if rest.Some? then Some([l] + rest.value) else None)
  {
    if rest.Some? { assert front + [l] + rest.value == front + ([l] + rest.value); }
  }

  lemma {:induction false} MergeFails(terms: seq<Term>, rhs: seq<Term>, width: nat, subtract: bool, k: nat)
    requires k <= |rhs| && MergeTerms(terms, rhs[..k], width, subtract).None?
    ensures MergeTerms(terms, rhs, width, subtract).None?
    decreases |rhs|
  {
    hide MergeTerm;
    if k < |rhs| {
      assert rhs[..|rhs| - 1][..k] == rhs[..k];
      MergeFails(terms, rhs[..|rhs| - 1], width, subtract, k);
    } else {
      assert rhs[..k] == rhs;
    }
  }

  method MergeAll(terms: seq<Term>, rhs: seq<Term>, width: nat, subtract: bool) returns (ok: bool, merged: seq<Term>)
    ensures ok <==> MergeTerms(terms, rhs, width, subtract).Some?
    ensures ok ==> merged == MergeTerms(terms, rhs, width, subtract).value
  {
    hide MergeTerm;
    merged := terms;
    for k := 0 to |rhs|
      invariant MergeTerms(terms, rhs[..k], width, subtract) == Some(merged)
    {
      assert rhs[..k + 1][..k] == rhs[..k];
      var rTerm := rhs[k];
      if subtract && rTerm.coefficient == MIN64 {
        MergeFails(terms, rhs, width, subtract, k + 1);
        return false, merged;
      }
      var done, next := MergeOne(merged, Signed(rTerm, subtract), width);
      if !done {
        MergeFails(terms, rhs, width, subtract, k + 1);
        return false, merged;
      }
      merged := next;
    }
    assert rhs[..|rhs|] == rhs;
    ok := true;
  }

  /** Merging: widths must agree, sums must fit, and cancelled terms go. */
  method MergeAffine(lhs: AffineExpr, rhs: AffineExpr, subtract: bool) returns (ok: bool, r: AffineExpr)
    ensures ok <==> Merge(lhs, rhs, subtract).Some?
    ensures ok ==> r == Merge(lhs, rhs, subtract).value
  {
    hide MergeTerms, IsCoefficientSafe;
    r := AffineExpr([], 0, 0, false, false);
    if !lhs.isValid || !rhs.isValid { return false, r; }
    var width := if lhs.width != 0 then lhs.width else rhs.width;
    if lhs.width != 0 && rhs.width != 0 && lhs.width != rhs.width { return false, r; }
    var newConstant := if subtract then lhs.constant - rhs.constant else lhs.constant + rhs.constant;
    if !InInt64(newConstant) || !IsCoefficientSafe(newConstant, width, true) { return false, r; }
    var done, merged := MergeAll(lhs.terms, rhs.terms, width, subtract);
    if !done { return false, r; }
    var kept := [];
    for k := 0 to |merged|
      invariant kept == NonZero(merged[..k])
    {
      assert merged[..k + 1][..k] == merged[..k];
      if merged[k].coefficient != 0 {
        kept := kept + [merged[k]];
      }
    }
    assert merged[..|merged|] == merged;
    r := AffineExpr(kept, newConstant, width, lhs.signed || rhs.signed, true);
    ok := true;
  }

  // ----- The walk

  /** What the budget leaves. */
  function Room(visited: int, budget: int): nat {
    if visited <= budget then budget - visited + 1 else 0
  }

  class AnalysisState {
    var nodesVisited: int
    const nodeBudget: int
    var inProgress: set<Value>

    constructor (budget: int)
      ensures nodesVisited == 0 && nodeBudget == budget && inProgress == {}
    {
      nodesVisited, nodeBudget, inProgress := 0, budget, {};
    }
  }

  ghost predicate Trusted(p: Program, rank: Option<map<Id, nat>>, cache: map<Value, AffineExpr>) {
    SingleWidth(p) && (rank.Some? ==> Ranked(p, rank.value)) && GoodCache(p, rank, cache)
  }

  /** A value the walk may look at. */
  ghost predicate Visitable(p: Program, rank: Option<map<Id, nat>>, v: Value, inProgress: set<Value>) {
    (v.Cst? ==> v.word.width <= 64) && Above(rank, v, inProgress)
  }

  lemma OperandVisitable(p: Program, rank: Option<map<Id, nat>>, id: Id, i: nat, inProgress: set<Value>)
    requires SingleWidth(p) && (rank.Some? ==> Ranked(p, rank.value)) && IsArithmetic(p, Inst(id))
    requires |p.code[id].operands| >= 2 && i < 2 && (p.code[id].op == Shl ==> i == 0)
    requires Above(rank, Inst(id), inProgress)
    ensures Visitable(p, rank, p.code[id].operands[i], inProgress + {Inst(id)})
  {
    WidthsOf(p, id);
    if rank.Some? { assert RankedAt(p, rank.value, id); }
  }

  lemma NodesOf(p: Program, rank: map<Id, nat>, id: Id)
    requires Ranked(p, rank) && IsArithmetic(p, Inst(id))
    ensures Nodes(p, rank, Inst(id)) >= 1
    ensures |p.code[id].operands| >= 2 ==>
              Nodes(p, rank, Inst(id)) ==
              1 + Nodes(p, rank, p.code[id].operands[0]) + Nodes(p, rank, p.code[id].operands[1])
    ensures |p.code[id].operands| >= 2 ==>
              Nodes(p, rank, p.code[id].operands[0]) >= 1 && Nodes(p, rank, p.code[id].operands[1]) >= 1
  {
    hide Ranked;
  }

  lemma OneNode(p: Program, rank: map<Id, nat>, v: Value)
    requires Ranked(p, rank)
    ensures Nodes(p, rank, v) >= 1
  {
    hide Ranked;
  }

  lemma CycleGood(p: Program, rank: Option<map<Id, nat>>, v: Value, inProgress: set<Value>)
    requires (rank.Some? ==> Ranked(p, rank.value)) && Above(rank, v, inProgress) && v in inProgress
    ensures Good(p, rank, v, true, Leaf(p, v), false)
  {
    LeafSound(p, v);
    hide Sound;
  }

  lemma CacheGrows(p: Program, rank: Option<map<Id, nat>>, cache: map<Value, AffineExpr>, v: Value, e: AffineExpr)
    requires Trusted(p, rank, cache) && Good(p, rank, v, true, e, false)
    ensures Trusted(p, rank, cache[v := e])
  {
    hide Good, Ranked, SingleWidth;
  }

  lemma CacheHit(p: Program, rank: Option<map<Id, nat>>, cache: map<Value, AffineExpr>, v: Value, exhausted: bool)
    requires Trusted(p, rank, cache) && v in cache
    ensures Good(p, rank, v, true, cache[v], exhausted) && cache[v].isValid
  {
    assert Good(p, rank, v, true, cache[v], false);
    hide Ranked, SingleWidth, Direct, Describes;
  }

  lemma OutOfBudget(p: Program, rank: Option<map<Id, nat>>, v: Value, e: AffineExpr)
    requires rank.Some? ==> Ranked(p, rank.value)
    ensures Good(p, rank, v, false, e, true)
  {
    hide Ranked, Direct;
  }

  lemma TrustedParts(p: Program, rank: Option<map<Id, nat>>, cache: map<Value, AffineExpr>)
    requires Trusted(p, rank, cache)
    ensures SingleWidth(p) && (rank.Some? ==> Ranked(p, rank.value))
  {
  }

  const BLANK := AffineExpr([], 0, 0, false, false)

  class Analysis {
    const p: Program
    var cache: map<Value, AffineExpr>

    constructor (p: Program)
      ensures this.p == p && cache == map[]
    {
      this.p := p;
      cache := map[];
    }

    method ClearCache()
      modifies `cache
      ensures cache == map[]
    {
      cache := map[];
    }

    method AnalyzeMul(id: Id, state: AnalysisState, ghost rank: Option<map<Id, nat>>)
      returns (ok: bool, result: AffineExpr)
      requires Trusted(p, rank, cache) && IsArithmetic(p, Inst(id)) && p.code[id].op == Mul
      requires |p.code[id].operands| >= 2 ==>
                 && Visitable(p, rank, p.code[id].operands[0], state.inProgress)
                 && Visitable(p, rank, p.code[id].operands[1], state.inProgress)
      modifies `cache, state`nodesVisited, state`inProgress
      ensures Trusted(p, rank, cache) && (rank.Some? ==> Ranked(p, rank.value))
      ensures state.inProgress == old(state.inProgress) && old(state.nodesVisited) <= state.nodesVisited
      ensures GoodRaw(p, rank, id, ok, result, state.nodesVisited > state.nodeBudget)
      ensures rank.Some? ==> state.nodesVisited <= old(state.nodesVisited) + Nodes(p, rank.value, Inst(id)) - 1
      decreases Room(state.nodesVisited, state.nodeBudget), 3
    {
      hide Trusted, Ranked, Good, GoodRaw, Visitable, Nodes, ConstantProduct, Signed64, OpWidth, Level;
      TrustedParts(p, rank, cache);
      if rank.Some? { NodesOf(p, rank.value, id); }
      ok, result := false, BLANK;
      var instr := p.code[id];
      if |instr.operands| < 2 {
        RejectedGood(p, rank, id, result);
        GoodWeakens(p, rank, id, false, result, state.nodesVisited > state.nodeBudget);
        return;
      }
      var op0, op1, w := instr.operands[0], instr.operands[1], OpWidth(instr);
      if op0.Cst? && op1.Cst? {
        ConstantsGood(p, rank, id, BLANK);
        var r := ConstantProduct(Signed64(op0), Signed64(op1), w);
        ok := r.Some?;
        if ok { result := r.value; }
        GoodWeakens(p, rank, id, ok, result, state.nodesVisited > state.nodeBudget);
        return;
      }
      if !op0.Cst? && !op1.Cst? {
        RejectedGood(p, rank, id, result);
        GoodWeakens(p, rank, id, false, result, state.nodesVisited > state.nodeBudget);
        return;
      }
      var i := if op1.Cst? then 0 else 1;
      ok, result := AnalyzeScaled(id, i, Signed64(instr.operands[1 - i]), state, rank);
    }

    /** The operand's form, scaled by the constant. */
    method AnalyzeScaled(id: Id, i: nat, coeff: int, state: AnalysisState, ghost rank: Option<map<Id, nat>>)
      returns (ok: bool, result: AffineExpr)
      requires Trusted(p, rank, cache) && IsArithmetic(p, Inst(id)) && |p.code[id].operands| >= 2 && i < 2
      requires || (p.code[id].op == Mul && !p.code[id].operands[i].Cst? && p.code[id].operands[1 - i].Cst?
                   && coeff == Signed64(p.code[id].operands[1 - i]))
               || (p.code[id].op == Shl && i == 0 && p.code[id].operands[1].Cst?
                   && ShiftInRange(Signed64(p.code[id].operands[1]), OpWidth(p.code[id]))
                   && coeff == Pow2(Signed64(p.code[id].operands[1])))
      requires Visitable(p, rank, p.code[id].operands[i], state.inProgress)
      modifies `cache, state`nodesVisited, state`inProgress
      ensures Trusted(p, rank, cache) && (rank.Some? ==> Ranked(p, rank.value))
      ensures state.inProgress == old(state.inProgress) && old(state.nodesVisited) <= state.nodesVisited
      ensures GoodRaw(p, rank, id, ok, result, state.nodesVisited > state.nodeBudget)
      ensures rank.Some? ==> state.nodesVisited <= old(state.nodesVisited) + Nodes(p, rank.value, Inst(id)) - 1
      decreases Room(state.nodesVisited, state.nodeBudget), 2
    {
      hide Trusted, Ranked, Good, GoodRaw, Visitable, Nodes, Scale;
      TrustedParts(p, rank, cache);
      if rank.Some? { NodesOf(p, rank.value, id); }
      var sub;
      ok, sub := AnalyzeImpl(p.code[id].operands[i], state, rank);
      result := sub;
      ghost var exhausted := state.nodesVisited > state.nodeBudget;
      if !ok {
        OperandFails(p, rank, id, i, sub, exhausted);
        return;
      }
      GoodExact(p, rank, p.code[id].operands[i], sub, exhausted);
      ScaledGood(p, rank, id, i, sub, coeff);
      ok, result := ScaleForm(sub, coeff, OpWidth(p.code[id]));
      FailureIsFailure(p, rank, id, ok, sub, result);
      GoodWeakens(p, rank, id, ok, result, exhausted);
    }

    method AnalyzeShl(id: Id, state: AnalysisState, ghost rank: Option<map<Id, nat>>)
      returns (ok: bool, result: AffineExpr)
      requires Trusted(p, rank, cache) && IsArithmetic(p, Inst(id)) && p.code[id].op == Shl
      requires |p.code[id].operands| >= 2 ==> Visitable(p, rank, p.code[id].operands[0], state.inProgress)
      modifies `cache, state`nodesVisited, state`inProgress
      ensures Trusted(p, rank, cache) && (rank.Some? ==> Ranked(p, rank.value))
      ensures state.inProgress == old(state.inProgress) && old(state.nodesVisited) <= state.nodesVisited
      ensures GoodRaw(p, rank, id, ok, result, state.nodesVisited > state.nodeBudget)
      ensures rank.Some? ==> state.nodesVisited <= old(state.nodesVisited) + Nodes(p, rank.value, Inst(id)) - 1
      decreases Room(state.nodesVisited, state.nodeBudget), 3
    {
      hide Trusted, Ranked, Good, GoodRaw, Visitable, Nodes;
      TrustedParts(p, rank, cache);
      if rank.Some? { NodesOf(p, rank.value, id); }
      ok, result := false, BLANK;
      var instr := p.code[id];
      if |instr.operands| < 2 || !instr.operands[1].Cst?
         || !ShiftInRange(Signed64(instr.operands[1]), OpWidth(instr))
      {
        RejectedGood(p, rank, id, result);
        GoodWeakens(p, rank, id, false, result, state.nodesVisited > state.nodeBudget);
        return;
      }
      ok, result := AnalyzeScaled(id, 0, Pow2(Signed64(instr.operands[1])), state, rank);
    }

    method AnalyzeAddSub(id: Id, subtract: bool, state: AnalysisState, ghost rank: Option<map<Id, nat>>)
      returns (ok: bool, result: AffineExpr)
      requires Trusted(p, rank, cache) && IsArithmetic(p, Inst(id)) && p.code[id].op == if subtract then Sub else Add
      requires |p.code[id].operands| >= 2 ==>
                 && Visitable(p, rank, p.code[id].operands[0], state.inProgress)
                 && Visitable(p, rank, p.code[id].operands[1], state.inProgress)
      modifies `cache, state`nodesVisited, state`inProgress
      ensures Trusted(p, rank, cache) && (rank.Some? ==> Ranked(p, rank.value))
      ensures state.inProgress == old(state.inProgress) && old(state.nodesVisited) <= state.nodesVisited
      ensures GoodRaw(p, rank, id, ok, result, state.nodesVisited > state.nodeBudget)
      ensures rank.Some? ==> state.nodesVisited <= old(state.nodesVisited) + Nodes(p, rank.value, Inst(id)) - 1
      decreases Room(state.nodesVisited, state.nodeBudget), 2
    {
      hide Trusted, Ranked, Good, GoodRaw, Visitable, Nodes, Merge;
      TrustedParts(p, rank, cache);
      if rank.Some? { NodesOf(p, rank.value, id); }
      ok, result := false, BLANK;
      var instr := p.code[id];
      if |instr.operands| < 2 {
        RejectedGood(p, rank, id, result);
        GoodWeakens(p, rank, id, false, result, state.nodesVisited > state.nodeBudget);
        return;
      }
      var ok0, expr0 := AnalyzeImpl(instr.operands[0], state, rank);
      ghost var exhausted0 := state.nodesVisited > state.nodeBudget;
      if !ok0 {
        OperandFails(p, rank, id, 0, expr0, exhausted0);
        return false, expr0;
      }
      GoodExact(p, rank, instr.operands[0], expr0, exhausted0);
      var ok1, expr1 := AnalyzeImpl(instr.operands[1], state, rank);
      ghost var exhausted := state.nodesVisited > state.nodeBudget;
      if !ok1 {
        OperandFails(p, rank, id, 1, expr1, exhausted);
        return false, expr1;
      }
      GoodExact(p, rank, instr.operands[1], expr1, exhausted);
      MergedGood(p, rank, id, expr0, expr1);
      ok, result := MergeAffine(expr0, expr1, subtract);
      FailureIsFailure(p, rank, id, ok, expr0, result);
      GoodWeakens(p, rank, id, ok, result, exhausted);
    }

    method AnalyzeArithmetic(id: Id, state: AnalysisState, ghost rank: Option<map<Id, nat>>)
      returns (ok: bool, result: AffineExpr)
      requires Trusted(p, rank, cache) && IsArithmetic(p, Inst(id))
      requires Inst(id) !in state.inProgress && Above(rank, Inst(id), state.inProgress)
      modifies `cache, state`nodesVisited, state`inProgress
      ensures Trusted(p, rank, cache) && (rank.Some? ==> Ranked(p, rank.value))
      ensures state.inProgress == old(state.inProgress) && old(state.nodesVisited) <= state.nodesVisited
      ensures GoodRaw(p, rank, id, ok, result, state.nodesVisited > state.nodeBudget)
      ensures rank.Some? ==> state.nodesVisited <= old(state.nodesVisited) + Nodes(p, rank.value, Inst(id)) - 1
      decreases Room(state.nodesVisited, state.nodeBudget), 4
    {
      hide Trusted, Ranked, GoodRaw, Visitable, Nodes, Above;
      TrustedParts(p, rank, cache);
      var op := p.code[id].op;
      if |p.code[id].operands| >= 2 {
        OperandVisitable(p, rank, id, 0, state.inProgress);
        if op != Shl { OperandVisitable(p, rank, id, 1, state.inProgress); }
      }
      state.inProgress := state.inProgress + {Inst(id)};
      if op == Mul {
        ok, result := AnalyzeMul(id, state, rank);
      } else if op == Shl {
        ok, result := AnalyzeShl(id, state, rank);
      } else {
        ok, result := AnalyzeAddSub(id, op == Sub, state, rank);
      }
      state.inProgress := state.inProgress - {Inst(id)};
    }

    method AnalyzeImpl(value: Value, state: AnalysisState, ghost rank: Option<map<Id, nat>>)
      returns (ok: bool, result: AffineExpr)
      requires Trusted(p, rank, cache) && Visitable(p, rank, value, state.inProgress)
      modifies `cache, state`nodesVisited, state`inProgress
      ensures Trusted(p, rank, cache) && (rank.Some? ==> Ranked(p, rank.value))
      ensures state.inProgress == old(state.inProgress) && old(state.nodesVisited) < state.nodesVisited
      ensures Good(p, rank, value, ok, result, state.nodesVisited > state.nodeBudget)
      ensures rank.Some? ==> state.nodesVisited <= old(state.nodesVisited) + Nodes(p, rank.value, value)
      decreases Room(state.nodesVisited, state.nodeBudget), 1
    {
      hide Trusted, Ranked, Good, GoodRaw, Nodes, Above, Direct, Widened;
      TrustedParts(p, rank, cache);
      if rank.Some? { OneNode(p, rank.value, value); }
      ok, result := false, BLANK;
      state.nodesVisited := state.nodesVisited + 1;
      if state.nodesVisited > state.nodeBudget {
        OutOfBudget(p, rank, value, result);
        return;
      }
      if value in state.inProgress {
        CycleGood(p, rank, value, state.inProgress);
        return true, Leaf(p, value);
      }
      if value in cache {
        CacheHit(p, rank, cache, value, false);
        return true, cache[value];
      }
      if value.Cst? {
        ConstantGood(p, rank, value.word);
        ok, result := true, Widened(p, value, ConstantForm(value.word));
      } else if IsArithmetic(p, value) {
        ok, result := AnalyzeArithmetic(value.id, state, rank);
        ghost var exhausted := state.nodesVisited > state.nodeBudget;
        ArithmeticGood(p, rank, value.id, ok, result, exhausted);
        if !ok { return; }
        result := Widened(p, value, result);
        GoodExact(p, rank, value, result, exhausted);
      } else {
        LeafGood(p, rank, value);
        ok, result := true, Widened(p, value, Leaf(p, value));
      }
      CacheGrows(p, rank, cache, value, result);
      cache := cache[value := result];
      CacheHit(p, rank, cache, value, state.nodesVisited > state.nodeBudget);
    }

    /**
     Whatever the cache holds and whatever the budget, a valid result is sound.  Where
     arithmetic does not feed into itself it is the result of direct evaluation, and
     within the budget there is one exactly when direct evaluation has one.
     */
    method Analyze(value: Value, nodeBudget: int, ghost rank: Option<map<Id, nat>>) returns (result: AffineExpr)
      requires Trusted(p, rank, cache) && (value.Cst? ==> value.word.width <= 64)
      modifies `cache
      ensures Trusted(p, rank, cache)
      ensures result.isValid ==> Sound(p, value, result)
      ensures rank.Some? ==> Ranked(p, rank.value) && (result.isValid ==> Direct(p, rank.value, value) == Some(result))
      ensures rank.Some? && Nodes(p, rank.value, value) <= nodeBudget ==>
                (result.isValid <==> Direct(p, rank.value, value).Some?)
    {
      hide Trusted, Ranked, Direct, Nodes, Sound;
      TrustedParts(p, rank, cache);
      if value in cache {
        CacheHit(p, rank, cache, value, false);
        return cache[value];
      }
      var state := new AnalysisState(nodeBudget);
      var ok;
      ok, result := AnalyzeImpl(value, state, rank);
      if ok {
        GoodExact(p, rank, value, result, state.nodesVisited > nodeBudget);
        if result.width == 0 && TypeWidth(p, value) != 0 {
          WidthFilled(p, rank, value, result);
          result := result.(width := TypeWidth(p, value), signed := true);
        }
        CacheGrows(p, rank, cache, value, result);
        cache := cache[value := result];
      } else {
        result := result.(isValid := false);
      }
    }
  }

  /** A form that is left without a width belongs to a value whose type has none. */
  lemma WidthFilled(p: Program, rank: Option<map<Id, nat>>, v: Value, e: AffineExpr)
    requires (rank.Some? ==> Ranked(p, rank.value)) && Good(p, rank, v, true, e, false)
    requires e.width == 0 && TypeWidth(p, v) != 0
    ensures Good(p, rank, v, true, e.(width := TypeWidth(p, v), signed := true), false)
  {
    hide Ranked, DirectRaw, Consistent, Pat, Sum, TypeWidth;
  }

  lemma FailureIsFailure(p: Program, rank: Option<map<Id, nat>>, id: Id, ok: bool, e: AffineExpr, r: AffineExpr)
    requires (rank.Some? ==> Ranked(p, rank.value)) && IsArithmetic(p, Inst(id))
    requires GoodRaw(p, rank, id, ok, if ok then r else e, false)
    ensures GoodRaw(p, rank, id, ok, r, false)
  {
    hide Ranked, DirectRaw, Sound;
  }
}
