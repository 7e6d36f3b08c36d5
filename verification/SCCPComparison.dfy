/**
 Comparisons have 32-bit results, and the folder reads their operands at that width. A
 function that returns the comparison of two constants: what the pass makes of it, and for
 exactly which constants that returns what the function does.
 */
module FoldedComparison {
  import opened IR
  import opened Simulation
  import opened Scalar
  import opened Lattice
  import opened Erasure
  import opened PropagationSoundness
  import opened PropagationExact
  import opened UnrollTheorems
  import opened UnrollWords
  import opened ScalarExact

  /** The folder, on two integers. */
  ghost predicate FoldsIntegers(folder: Folder) {
    forall op, ty: nat, a: Word, b: Word | ty >= 1 ::
      folder.scalar(op, ty, [a, b]) == WordOf(ty, FoldScalar(op, ty, a.bits, b.bits))
  }

  function WordOf(ty: nat, bits: Option<nat>): Option<Word> {
    if bits.Some? then Some(Word(ty, bits.value)) else None
  }

  /** The comparison of w-bit words. */
  function Compared(op: Opcode, w: nat, u: nat, v: nat): Word
    requires w >= 1
  {
    Word(32, Bit(Compares(op, Reads(op, w, u), Reads(op, w, v))))
  }

  ghost predicate ComparesWords(m: Machine, op: Opcode, w: nat)
    requires w >= 1
  {
    forall u: nat, v: nat, mem, x, mem' | u < Pow2(w) && v < Pow2(w) ::
      m.sem(op, 32, [Word(w, u), Word(w, v)], mem, x, mem') <==> mem' == mem && x == Compared(op, w, u, v)
  }

  /** One block: the comparison, and the return of its result. */
  ghost predicate ComparingFunction(f: Function, op: Opcode, w: nat, u: nat, v: nat) {
    && f.order == [0] && f.blocks == map[0 := [0, 1]]
    && f.code == map[0 := Instr(op, 32, [Cst(Word(w, u)), Cst(Word(w, v))], 0), 1 := Instr(Ret, 0, [Inst(0)], 0)]
  }

  // ----- What the pass makes of it

  ghost predicate ReturnsAtOnce(g: Function, r: Word) {
    && g.order == [0] && g.blocks == map[0 := [1]]
    && 1 in g.code && g.code[1] == Instr(Ret, 0, [Cst(r)], 0)
  }

  lemma ComparisonFolds(folder: Folder, op: Opcode, w: nat, u: nat, v: nat)
    requires FoldsIntegers(folder) && op in COMPARISONS
    ensures folder.scalar(op, 32, [Word(w, u), Word(w, v)]) == Some(Compared(op, 32, u, v))
  {
    hide FoldScalar, Compares, Reads;
    ComparisonCase(op, 32, u, v);
  }

  lemma ComparisonOpcode(op: Opcode)
    requires op in COMPARISONS
    ensures op !in {Phi, Call, Ret, Jmp, Jz, Jnz, Br, Syscall, ExternCall, Alloc, Load, Store, VAArg}
    ensures op != Phi && op != Call && op != Ret && !IsJump(op) && !AlwaysBottom(op) && !IsTerminator(op)
  {
  }

  lemma EntryFound(f: Function, folder: Folder, sol: Solution)
    requires Found(f, folder, sol)
    ensures f.order != [] && f.order[0] in sol.blocks
  {
    hide Stable;
  }

  lemma ComparisonCode(f: Function, op: Opcode, w: nat, u: nat, v: nat)
    requires ComparingFunction(f, op, w, u, v)
    ensures f.order == [0] && 0 in f.blocks && f.blocks[0] == [0, 1] && 0 in f.blocks[0] && f.blocks.Keys == {0}
    ensures 0 in f.code && f.code[0] == Instr(op, 32, [Cst(Word(w, u)), Cst(Word(w, v))], 0)
    ensures 1 in f.code && f.code[1] == Instr(Ret, 0, [Inst(0)], 0)
  {
  }

  lemma ConstantWords(a: Word, b: Word, lattice: map<Id, Entry>)
    ensures HasWords([Cst(a), Cst(b)], lattice, [a, b])
  {
  }

  lemma IsExecuted(f: Function, sol: Solution, id: Id)
    requires id in f.code && f.code[id].parent in sol.blocks
    requires f.code[id].parent in f.blocks && id in f.blocks[f.code[id].parent]
    ensures Executed(f, sol, id)
  {
  }

  lemma ComparisonExecuted(f: Function, folder: Folder, sol: Solution, op: Opcode, w: nat, u: nat, v: nat)
    requires ComparingFunction(f, op, w, u, v) && Found(f, folder, sol)
    ensures Executed(f, sol, 0) && f.code[0] == Instr(op, 32, [Cst(Word(w, u)), Cst(Word(w, v))], 0)
    ensures HasWords(f.code[0].operands, sol.lattice, [Word(w, u), Word(w, v)])
  {
    hide *;
    EntryFound(f, folder, sol);
    ComparisonCode(f, op, w, u, v);
    IsExecuted(f, sol, 0);
    ConstantWords(Word(w, u), Word(w, v), sol.lattice);
  }

  lemma ReturnStays(f: Function, op: Opcode, w: nat, u: nat, v: nat, sol: Solution, id: Id)
    requires ComparingFunction(f, op, w, u, v) && Executed(f, sol, id) && f.code[id].ty != 0
    ensures id == 0
  {
  }

  lemma ComparisonFound(f: Function, folder: Folder, sol: Solution, op: Opcode, w: nat, u: nat, v: nat)
    requires ComparingFunction(f, op, w, u, v) && op in COMPARISONS && FoldsIntegers(folder) && Found(f, folder, sol)
    ensures var plan, r := ConstantPlan(f, sol), Compared(op, 32, u, v);
            && plan.dead == {0} && 0 in plan.subst && plan.subst[0] == r
            && 0 in sol.lattice && sol.lattice[0] == Constant(r)
  {
    hide *;
    var plan, r := ConstantPlan(f, sol), Compared(op, 32, u, v);
    ComparisonFolds(folder, op, w, u, v);
    ComparisonOpcode(op);
    ComparisonExecuted(f, folder, sol, op, w, u, v);
    ReplacedExactly(f, folder, sol, 0, r);
    EntryExactly(f, folder, sol, 0, []);
    ReplacedMeans(f, sol, 0, r);
    forall id | id in plan.dead
      ensures id == 0
    {
      NeverReplaced(f, folder, sol, id);
      ReturnStays(f, op, w, u, v, sol, id);
    }
  }

  lemma KeepsReturnAlone()
    ensures Keep([0, 1], {0}) == [1]
  {
    assert [0, 1][1..] == [1] && [1][1..] == [];
  }

  lemma ComparisonRewritten(f: Function, plan: Plan, r: Word, op: Opcode, w: nat, u: nat, v: nat)
    requires ComparingFunction(f, op, w, u, v) && plan.dead == {0} && 0 in plan.subst && plan.subst[0] == r
    ensures ReturnsAtOnce(Rewrite(f, plan), r)
  {
    KeepsReturnAlone();
    hide Keep;
  }

  // ----- Runs

  lemma NoPhis(f: Function, list: seq<Id>)
    requires list != [] && list[0] in f.code && f.code[list[0]].op != Phi
    ensures LeadingPhis(list, f.code) == 0
  {
  }

  lemma {:induction false} OnlyReturns(m: Machine, g: Function, r: Word, run: seq<State>)
    requires ReturnsAtOnce(g, r) && IsRun(m, g, run)
    ensures var s := Last(run); (s.ret == None && s.path == [0] && s.pc == 0) || s.ret == Some(Some(r))
    decreases |run|
  {
    if |run| > 1 {
      RunShrinks(m, g, run);
      OnlyReturns(m, g, r, run[..|run| - 1]);
      NoPhis(g, [1]);
    }
  }

  lemma CompareStep(m: Machine, op: Opcode, w: nat, u: nat, v: nat, s: State, s': State)
    requires op in COMPARISONS && w >= 1 && u < Pow2(w) && v < Pow2(w) && ComparesWords(m, op, w)
    requires s' == s.(pc := 1, env := s.env[0 := Compared(op, w, u, v)]) && s.pc == 0
    ensures InstrStep(m, 0, Instr(op, 32, [Cst(Word(w, u)), Cst(Word(w, v))], 0), s, s')
  {
    ComparisonOpcode(op);
    hide Compared, Pow2, COMPARISONS, IsJump, IsTerminator, AlwaysBottom;
    assert FetchAll([Cst(Word(w, u)), Cst(Word(w, v))], s.env, m.params) == [Word(w, u), Word(w, v)];
  }

  lemma ReturnStep(m: Machine, s: State, s': State)
    requires 0 in s.env && s' == s.(ret := Some(Some(s.env[0])))
    ensures InstrStep(m, 1, Instr(Ret, 0, [Inst(0)], 0), s, s')
  {
  }

  lemma StepOf(m: Machine, f: Function, s: State, s': State)
    requires s.ret.None? && s.path == [0] && 0 in f.blocks && s.pc < |f.blocks[0]|
    requires LeadingPhis(f.blocks[0], f.code) == 0
    requires f.blocks[0][s.pc] in f.code && InstrStep(m, f.blocks[0][s.pc], f.code[f.blocks[0][s.pc]], s, s')
    ensures Step(m, f, s, s')
  {
    hide LeadingPhis, InstrStep;
  }

  lemma RunOfTwo(m: Machine, f: Function, s0: State, s1: State, s2: State)
    requires Initial(f, s0) && Step(m, f, s0, s1) && Step(m, f, s1, s2)
    ensures IsRun(m, f, [s0, s1, s2]) && Last([s0, s1, s2]) == s2
  {
    hide Step, Initial;
  }

  lemma ComparisonReturns(m: Machine, f: Function, op: Opcode, w: nat, u: nat, v: nat)
    requires ComparingFunction(f, op, w, u, v) && op in COMPARISONS && w >= 1 && u < Pow2(w) && v < Pow2(w)
    requires ComparesWords(m, op, w)
    ensures MayReturn(m, f, map[], [0], Some(Compared(op, w, u, v)), map[])
  {
    var x := Compared(op, w, u, v);
    var s0 := State([0], 0, map[], map[], None);
    var s1 := s0.(pc := 1, env := s0.env[0 := x]);
    var s2 := s1.(ret := Some(Some(x)));
    ComparisonCode(f, op, w, u, v);
    ComparisonOpcode(op);
    NoPhis(f, f.blocks[0]);
    CompareStep(m, op, w, u, v, s0, s1);
    ReturnStep(m, s1, s2);
    hide Compared, Pow2, COMPARISONS, ComparingFunction, ComparesWords, InstrStep, Step, LeadingPhis, IsRun;
    StepOf(m, f, s0, s1);
    StepOf(m, f, s1, s2);
    RunOfTwo(m, f, s0, s1, s2);
  }

  // ----- When that is right

  /** The pass then knows no more than the machine does. */
  lemma RightFold(m: Machine, f: Function, sol: Solution, op: Opcode, w: nat, u: nat, v: nat)
    returns (folder: Folder)
    requires ComparingFunction(f, op, w, u, v) && op in COMPARISONS && w >= 1 && u < Pow2(w) && v < Pow2(w)
    requires ComparesWords(m, op, w) && Compared(op, w, u, v) == Compared(op, 32, u, v)
    requires 0 in sol.lattice && sol.lattice[0] == Constant(Compared(op, 32, u, v))
    requires exists other :: Solves(f, other, sol)
    ensures FoldSound(m, folder) && Solves(f, folder, sol) && NoBareValues(f)
  {
    hide *;
    var r, ws := Compared(op, w, u, v), [Word(w, u), Word(w, v)];
    folder := FoldOnly(op, ws, r);
    OneFold(op, ws, r);
    FoldsItself(op, ws, r);
    OneFoldSound(m, op, w, u, v);
    OneFoldSolves(f, folder, sol, op, w, u, v);
  }

  function OneScalar(op: Opcode, ws: seq<Word>, r: Word, op': Opcode, ty: nat, args: seq<Word>): Option<Word> {
    if op' == op && ty == 32 && args == ws then Some(r) else None
  }

  function FoldOnly(op: Opcode, ws: seq<Word>, r: Word): Folder {
    Folder((op', ty: nat, args) => OneScalar(op, ws, r, op', ty, args), (name, args) => None)
  }

  lemma OneFold(op: Opcode, ws: seq<Word>, r: Word)
    ensures forall op', ty, args ::
              FoldOnly(op, ws, r).scalar(op', ty, args) == OneScalar(op, ws, r, op', ty, args)
    ensures forall name, args :: FoldOnly(op, ws, r).call(name, args) == None
  {
    hide OneScalar;
  }

  lemma FoldsItself(op: Opcode, ws: seq<Word>, r: Word)
    ensures OneScalar(op, ws, r, op, 32, ws) == Some(r)
  {
  }

  lemma OneFoldSound(m: Machine, op: Opcode, w: nat, u: nat, v: nat)
    requires w >= 1 && u < Pow2(w) && v < Pow2(w) && ComparesWords(m, op, w)
    ensures FoldSound(m, FoldOnly(op, [Word(w, u), Word(w, v)], Compared(op, w, u, v)))
  {
    var ws, r := [Word(w, u), Word(w, v)], Compared(op, w, u, v);
    OneFold(op, ws, r);
    hide Compared, Pow2, FoldOnly, AlwaysBottom, OneScalar;
    forall op', ty, args, mem, x, mem' | m.sem(op', ty, args, mem, x, mem')
      ensures var o := OneScalar(op, ws, r, op', ty, args); o.Some? ==> x == o.value && mem' == mem
    {
      OneResult(m, op, w, u, v, op', ty, args, mem, x, mem');
    }
  }

  lemma OneResult(m: Machine, op: Opcode, w: nat, u: nat, v: nat, op': Opcode, ty: nat, args: seq<Word>, mem: Memory,
                  x: Word, mem': Memory)
    requires w >= 1 && u < Pow2(w) && v < Pow2(w) && ComparesWords(m, op, w) && m.sem(op', ty, args, mem, x, mem')
    ensures var o := OneScalar(op, [Word(w, u), Word(w, v)], Compared(op, w, u, v), op', ty, args);
            o.Some? ==> x == o.value && mem' == mem
  {
    hide Compared, Pow2;
  }

  lemma OneFoldSolves(f: Function, folder: Folder, sol: Solution, op: Opcode, w: nat, u: nat, v: nat)
    requires ComparingFunction(f, op, w, u, v) && op in COMPARISONS
    requires folder.scalar(op, 32, [Word(w, u), Word(w, v)]) == Some(Compared(op, 32, u, v))
    requires 0 in sol.lattice && sol.lattice[0] == Constant(Compared(op, 32, u, v))
    requires exists other :: Solves(f, other, sol)
    ensures Solves(f, folder, sol) && NoBareValues(f)
  {
    hide *;
    var other :| Solves(f, other, sol);
    ComparisonCode(f, op, w, u, v);
    ComparisonTargets(f, op, w, u, v);
    ComparisonStable(f.code[0], folder, sol, op, w, u, v);
    BothStable(f, folder, sol);
    SolvesAgain(f, other, folder, sol);
  }

  lemma BothStable(f: Function, folder: Folder, sol: Solution)
    requires 0 in f.code && 1 in f.code && TargetsExist(f, f.code[0]) && TargetsExist(f, f.code[1])
    requires !IsJump(f.code[0].op) && !IsJump(f.code[1].op) && f.code[1].ty == 0 && 0 in sol.lattice
    requires Transfer(f.code[0], folder, sol.lattice, sol.edges) == sol.lattice[0]
    ensures Stable(f, folder, 0, sol.lattice, sol.edges) && Stable(f, folder, 1, sol.lattice, sol.edges)
  {
    hide Transfer, TargetsExist, IsJump;
  }

  lemma SolvesAgain(f: Function, other: Folder, folder: Folder, sol: Solution)
    requires Solves(f, other, sol) && f.blocks.Keys == {0} && f.blocks[0] == [0, 1]
    requires 0 in f.code && 1 in f.code && TargetsExist(f, f.code[0]) && TargetsExist(f, f.code[1])
    requires Stable(f, folder, 0, sol.lattice, sol.edges) && Stable(f, folder, 1, sol.lattice, sol.edges)
    ensures Solves(f, folder, sol)
  {
    hide Stable, TargetsExist;
  }

  lemma ComparisonTargets(f: Function, op: Opcode, w: nat, u: nat, v: nat)
    requires ComparingFunction(f, op, w, u, v) && op in COMPARISONS
    ensures TargetsExist(f, f.code[0]) && TargetsExist(f, f.code[1]) && NoBareValues(f)
    ensures !IsJump(f.code[0].op) && !IsJump(f.code[1].op)
  {
    ComparisonOpcode(op);
    hide COMPARISONS, AlwaysBottom;
  }

  lemma ComparisonStable(instr: Instr, folder: Folder, sol: Solution, op: Opcode, w: nat, u: nat, v: nat)
    requires instr == Instr(op, 32, [Cst(Word(w, u)), Cst(Word(w, v))], 0) && op in COMPARISONS
    requires folder.scalar(op, 32, [Word(w, u), Word(w, v)]) == Some(Compared(op, 32, u, v))
    ensures Transfer(instr, folder, sol.lattice, sol.edges) == Constant(Compared(op, 32, u, v))
  {
    ComparisonOpcode(op);
    hide Compared, COMPARISONS, IsJump, AlwaysBottom;
    assert Words(instr.operands, sol.lattice) == [Word(w, u), Word(w, v)];
  }

  /** The pass keeps what the function returns exactly where the comparison is the same at both widths. */
  lemma ComparisonKeptExactly(m: Machine, f: Function, folder: Folder, sol: Solution, op: Opcode, w: nat,
                              u: nat, v: nat)
    requires ComparingFunction(f, op, w, u, v) && op in COMPARISONS && w >= 1 && u < Pow2(w) && v < Pow2(w)
    requires ComparesWords(m, op, w) && FoldsIntegers(folder) && Found(f, folder, sol)
    ensures Preserves(m, f, Rewrite(f, ConstantPlan(f, sol))) <==> Compared(op, w, u, v) == Compared(op, 32, u, v)
  {
    var g, r := Rewrite(f, ConstantPlan(f, sol)), Compared(op, 32, u, v);
    hide *;
    ComparisonFound(f, folder, sol, op, w, u, v);
    ComparisonRewritten(f, ConstantPlan(f, sol), r, op, w, u, v);
    FoundSolves(f, folder, sol);
    if Compared(op, w, u, v) == r {
      var folder' := RightFold(m, f, sol, op, w, u, v);
      RewritePreservesRuns(m, f, folder', sol);
    } else {
      ComparisonReturns(m, f, op, w, u, v);
      ReturnsOnly(m, g, r, Compared(op, w, u, v));
      KeepsReturn(m, f, g, Compared(op, w, u, v));
    }
  }

  lemma FoundSolves(f: Function, folder: Folder, sol: Solution)
    requires Found(f, folder, sol)
    ensures Solves(f, folder, sol)
  {
  }

  lemma ReturnsOnly(m: Machine, g: Function, r: Word, x: Word)
    requires ReturnsAtOnce(g, r) && x != r
    ensures !MayReturn(m, g, map[], [0], Some(x), map[])
  {
    hide ReturnsAtOnce, Step, Initial;
    forall run: seq<State> | IsRun(m, g, run)
      ensures Last(run).ret != Some(Some(x))
    {
      OnlyReturns(m, g, r, run);
    }
  }

  lemma KeepsReturn(m: Machine, f: Function, g: Function, x: Word)
    requires MayReturn(m, f, map[], [0], Some(x), map[])
    ensures Preserves(m, f, g) ==> MayReturn(m, g, map[], [0], Some(x), map[])
  {
    hide MayReturn;
  }
}
