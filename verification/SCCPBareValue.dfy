/**
 Why soundness asks that no operation make a value out of no operands: a visit to
 such an operation does nothing, its entry stays Top, and a branch on it is never
 followed, although a run takes it.  What the engine finds describes a run exactly
 as long as the run meets no such operation.
 */
module BareValue {
  import opened IR
  import opened Lattice
  import opened Erasure
  import opened PropagationSoundness
  import opened SparseConditional

  /** The entry block computes x from nothing and branches on it. */
  ghost predicate BranchesOnBareValue(f: Function, x: Id, br: Id) {
    && WellFormed(f) && f.order[0] in f.blocks && f.blocks[f.order[0]] == [x, br]
    && x in f.code && br in f.code
    && BareValue(f.code[x])
    && f.code[br].op == Br && f.code[br].operands[0] == Inst(x)
  }

  /** What the engine ends at. */
  ghost predicate FinestSolution(f: Function, folder: Folder, sol: Solution) {
    Solves(f, folder, sol) && CallFree(f) && forall o | Solves(f, folder, o) :: Finer(sol, o)
  }

  /** A state of the engine in which nothing is known and no edge is executable. */
  ghost function Stalled(f: Function): Solution
    requires f.order != []
  {
    Solution(map id | id in ValueIds(f) :: Top, {}, {f.order[0]})
  }

  lemma EntryStable(f: Function, folder: Folder, x: Id, br: Id)
    requires BranchesOnBareValue(f, x, br)
    ensures TargetsExist(f, f.code[x]) && Stable(f, folder, x, Stalled(f).lattice, {})
    ensures TargetsExist(f, f.code[br]) && Stable(f, folder, br, Stalled(f).lattice, {})
  {
    var entry := f.order[0];
    assert f.blocks[entry][0] == x && x in f.blocks[entry];
    assert x in ValueIds(f);
  }

  /** The engine may rest there. */
  lemma Stalls(f: Function, folder: Folder, x: Id, br: Id)
    requires BranchesOnBareValue(f, x, br)
    ensures Solves(f, folder, Stalled(f))
  {
    EntryStable(f, folder, x, br);
    var sol := Stalled(f);
    forall b, i | b in sol.blocks && 0 <= i < |f.blocks[b]|
      ensures Stable(f, folder, f.blocks[b][i], sol.lattice, sol.edges)
    {
    }
    assert sol.lattice.Keys == ValueIds(f);
  }

  /** Without calls the engine does end there. */
  lemma EngineStalls(f: Function, folder: Folder, sol: Solution, x: Id, br: Id)
    requires BranchesOnBareValue(f, x, br) && FinestSolution(f, folder, sol)
    ensures sol.edges == {} && sol.blocks == {f.order[0]} && x in sol.lattice && sol.lattice[x].Top?
  {
    Stalls(f, folder, x, br);
    assert Finer(sol, Stalled(f));
    assert f.blocks[f.order[0]][0] == x;
    assert x in ValueIds(f);
  }

  lemma BareStep(m: Machine, f: Function, x: Id, br: Id, w: Word, mem: Memory)
    requires BranchesOnBareValue(f, x, br)
    requires m.sem(f.code[x].op, f.code[x].ty, [], mem, w, mem)
    ensures Step(m, f, State([f.order[0]], 0, map[], mem, None), State([f.order[0]], 1, map[x := w], mem, None))
  {
    var s, s' := State([f.order[0]], 0, map[], mem, None), State([f.order[0]], 1, map[x := w], mem, None);
    assert FetchAll(f.code[x].operands, s.env, m.params) == [];
    assert OpStep(m, x, f.code[x], s, s');
  }

  /** Yet a run leaves the entry block. */
  lemma RunEscapes(m: Machine, f: Function, x: Id, br: Id, w: Word, mem: Memory) returns (run: seq<State>)
    requires BranchesOnBareValue(f, x, br)
    requires m.sem(f.code[x].op, f.code[x].ty, [], mem, w, mem)
    ensures IsRun(m, f, run) && !Described(Stalled(f), Last(run))
  {
    BareStep(m, f, x, br, w, mem);
    var s := State([f.order[0]], 1, map[x := w], mem, None);
    var s' := s.(path := s.path + [BranchTarget(f.code[br], w)], pc := 0);
    assert InstrStep(m, br, f.code[br], s, s');
    run := [State([f.order[0]], 0, map[], mem, None), s, s'];
    assert !PathExecutable(Stalled(f), s'.path) by {
      assert (s'.path[0], s'.path[1]) !in Stalled(f).edges;
    }
  }

  // ----- Exactly which runs are described

  /** Without calls, an entry that the transfer leaves at Top may be put back to Top. */
  lemma BackToTop(f: Function, folder: Folder, sol: Solution, x: Id)
    requires Solves(f, folder, sol) && CallFree(f) && x in f.code && BareValue(f.code[x]) && x in sol.lattice
    ensures Solves(f, folder, sol.(lattice := sol.lattice[x := Top]))
  {
    var lat := sol.lattice[x := Top];
    forall b, i | b in sol.blocks && 0 <= i < |f.blocks[b]|
      ensures Stable(f, folder, f.blocks[b][i], lat, sol.edges)
    {
      var id := f.blocks[b][i];
      assert Stable(f, folder, id, sol.lattice, sol.edges);
      if IsJump(f.code[id].op) {
        SuccessorsGrow(f, f.code[id], lat, sol.lattice);
      } else if id != x {
        TransferFalls(f.code[id], folder, lat, sol.edges, sol.lattice, sol.edges);
      }
    }
  }

  lemma BareStaysTop(f: Function, folder: Folder, sol: Solution, x: Id)
    requires FinestSolution(f, folder, sol) && x in f.code && BareValue(f.code[x]) && x in sol.lattice
    ensures sol.lattice[x].Top?
  {
    BackToTop(f, folder, sol, x);
    hide Solves;
    assert Finer(sol, sol.(lattice := sol.lattice[x := Top]));
  }

  lemma EnvGrows(m: Machine, f: Function, s: State, s': State)
    requires Step(m, f, s, s')
    ensures s.env.Keys <= s'.env.Keys
  {
  }

  lemma {:induction false} RunEnvGrows(m: Machine, f: Function, run: seq<State>, i: nat)
    requires IsRun(m, f, run) && i < |run|
    ensures run[i].env.Keys <= Last(run).env.Keys
    decreases |run|
  {
    if i < |run| - 1 {
      RunShrinks(m, f, run);
      RunEnvGrows(m, f, run[..|run| - 1], i);
      EnvGrows(m, f, run[|run| - 2], run[|run| - 1]);
    }
  }

  /** Executing the operation records its value. */
  lemma BareRecorded(m: Machine, f: Function, s: State, s': State)
    requires WellFormed(f) && Step(m, f, s, s') && AtBare(f, s)
    ensures f.blocks[Last(s.path)][s.pc] in s'.env && f.blocks[Last(s.path)][s.pc] in ValueIds(f)
  {
    var id := f.blocks[Last(s.path)][s.pc];
    assert id in f.blocks[Last(s.path)];
  }

  lemma RunStep(m: Machine, f: Function, run: seq<State>, i: nat)
    requires IsRun(m, f, run) && i + 1 < |run|
    ensures Step(m, f, run[i], run[i + 1])
  {
    var j := i + 1;
    assert Step(m, f, run[j - 1], run[j]);
  }

  /**
   Of a function without calls, the engine's result describes a run exactly when the run has
   executed no operation that makes a value out of no operands.
   */
  lemma DescribesExactly(m: Machine, f: Function, folder: Folder, sol: Solution, run: seq<State>)
    requires FinestSolution(f, folder, sol) && FoldSound(m, folder) && IsRun(m, f, run)
    ensures Described(sol, Last(run)) <==> forall i | 0 <= i < |run| - 1 :: !AtBare(f, run[i])
  {
    assert Solves(f, folder, sol) && WellFormed(f) && sol.lattice.Keys == ValueIds(f);
    hide FoldSound, Solves, FinestSolution, AtBare, Step, WellFormed, ValueIds;
    if i: nat :| i < |run| - 1 && AtBare(f, run[i]) {
      RunStep(m, f, run, i);
      BareRecorded(m, f, run[i], run[i + 1]);
      var id := f.blocks[Last(run[i].path)][run[i].pc];
      RunEnvGrows(m, f, run, i + 1);
      BareIs(f, run[i]);
      BareStaysTop(f, folder, sol, id);
      assert id in Last(run).env && id in sol.lattice && !Describes(sol.lattice[id], Last(run).env[id]);
    } else {
      RunDescribed(m, f, folder, sol, run);
    }
  }

  lemma BareIs(f: Function, s: State)
    requires AtBare(f, s)
    ensures s.path != [] && Last(s.path) in f.blocks && s.pc < |f.blocks[Last(s.path)]|
    ensures f.blocks[Last(s.path)][s.pc] in f.code && BareValue(f.code[f.blocks[Last(s.path)][s.pc]])
  {
  }

  // ----- A loop that is rewritten wrongly

  const ZERO := Word(32, 0)
  const FIVE := Word(32, 5)
  const TEN := Word(32, 10)

  ghost predicate WaitingCode(code: map<Id, Instr>) {
    && code.Keys == {0, 1, 2, 3, 4, 5, 6}
    && code[0] == Instr(Jmp, 0, [Blk(1)], 0)
    && code[1] == Instr(Phi, 32, [Blk(0), Cst(FIVE), Blk(2), Cst(ZERO)], 1)
    && code[2] == Instr(Add, 32, [Inst(1), Inst(1)], 1)
    && code[3] == Instr(Alloc4, 64, [], 1)
    && code[4] == Instr(Br, 0, [Inst(3), Blk(2), Blk(2)], 1)
    && code[5] == Instr(Br, 0, [Inst(2), Blk(1), Blk(3)], 2)
    && code[6] == Instr(Ret, 0, [Inst(2)], 3)
  }

  /**
   A loop that doubles 5, and 0 from then on, and goes round again while the double is not 0.
   On the way it reserves a slot on the stack and branches on its address.
   */
  ghost predicate WaitingLoop(f: Function) {
    f.order == [0, 1, 2, 3] && f.blocks == map[0 := [0], 1 := [1, 2, 3, 4], 2 := [5], 3 := [6]] && WaitingCode(f.code)
  }

  ghost predicate Doubles(m: Machine, folder: Folder, w: Word) {
    && folder.scalar(Add, 32, [FIVE, FIVE]) == Some(TEN)
    && (forall mem :: m.sem(Add, 32, [FIVE, FIVE], mem, TEN, mem))
    && (forall mem :: m.sem(Add, 32, [ZERO, ZERO], mem, ZERO, mem))
    && (forall mem :: m.sem(Alloc4, 64, [], mem, w, mem))
  }

  /** There are such functions, and machines that folding agrees with. */
  lemma WaitingLoopExists() returns (f: Function, m: Machine, folder: Folder)
    ensures WaitingLoop(f) && FoldSound(m, folder) && Doubles(m, folder, Word(64, 16))
  {
    var code := map[
      0 := Instr(Jmp, 0, [Blk(1)], 0),
      1 := Instr(Phi, 32, [Blk(0), Cst(FIVE), Blk(2), Cst(ZERO)], 1),
      2 := Instr(Add, 32, [Inst(1), Inst(1)], 1),
      3 := Instr(Alloc4, 64, [], 1),
      4 := Instr(Br, 0, [Inst(3), Blk(2), Blk(2)], 1),
      5 := Instr(Br, 0, [Inst(2), Blk(1), Blk(3)], 2),
      6 := Instr(Ret, 0, [Inst(2)], 3)
    ];
    f := Function([0, 1, 2, 3], map[0 := [0], 1 := [1, 2, 3, 4], 2 := [5], 3 := [6]], code);
    folder := Folder((op: Opcode, ty: nat, args: seq<Word>) =>
                       if op == Add && |args| == 2 then Some(Word(ty, args[0].bits + args[1].bits)) else None,
                     (name: nat, args: seq<Word>) => None);
    m := Machine([], (op: Opcode, ty: nat, args: seq<Word>, mem: Memory, v: Word, mem': Memory) =>
                   mem' == mem && if op == Add && |args| == 2 then v == Word(ty, args[0].bits + args[1].bits)
                                  else op == Alloc4 && v == Word(64, 16));
  }

  lemma WaitingTargets(f: Function)
    requires WaitingLoop(f)
    ensures CallFree(f) && forall id | id in f.code :: TargetsExist(f, f.code[id])
  {
    forall id | id in f.code
      ensures TargetsExist(f, f.code[id]) && f.code[id].op != Call
    {
      if id == 4 {
        WaitingTarget(f, f.code[4], 2, 2);
      } else if id == 5 {
        WaitingTarget(f, f.code[5], 1, 3);
      }
    }
    hide TargetsExist, WaitingCode;
  }

  lemma WaitingTarget(f: Function, instr: Instr, yes: BlockId, no: BlockId)
    requires instr.op == Br && |instr.operands| == 3 && instr.operands[1] == Blk(yes) && instr.operands[2] == Blk(no)
    requires yes in f.blocks && no in f.blocks
    ensures TargetsExist(f, instr)
  {
  }

  lemma WaitingParents(f: Function)
    requires WaitingLoop(f)
    ensures forall b, i | b in f.blocks && 0 <= i < |f.blocks[b]| ::
              f.blocks[b][i] in f.code && f.code[f.blocks[b][i]].parent == b
  {
  }

  lemma WaitingPhis(f: Function)
    requires WaitingLoop(f)
    ensures forall b | b in f.blocks :: PhisLead(f.blocks[b], f.code)
  {
  }

  lemma WaitingLists(f: Function)
    requires WaitingLoop(f)
    ensures f.order != [] && (forall b :: b in f.order <==> b in f.blocks)
    ensures forall i, j | 0 <= i < j < |f.order| :: f.order[i] != f.order[j]
    ensures forall b, i, j | b in f.blocks && 0 <= i < j < |f.blocks[b]| :: f.blocks[b][i] != f.blocks[b][j]
  {
    hide WaitingCode;
  }

  lemma WaitingWellFormed(f: Function)
    requires WaitingLoop(f)
    ensures WellFormed(f)
  {
    hide WaitingLoop, PhisLead, TargetsExist;
    WaitingTargets(f);
    WaitingParents(f);
    WaitingPhis(f);
    WaitingLists(f);
  }

  /** What the engine knows of it. */
  ghost function Known(): Solution {
    Solution(map[1 := Constant(FIVE), 2 := Constant(TEN), 3 := Top], {(0, 1)}, {0, 1})
  }

  lemma KnownValues(f: Function)
    requires WaitingLoop(f)
    ensures ValueIds(f) == {1, 2, 3}
  {
    assert f.blocks[1][0] == 1 && f.blocks[1][1] == 2 && f.blocks[1][2] == 3;
    forall id
      ensures id in ValueIds(f) <==> id in {1, 2, 3}
    {
    }
  }

  lemma LoopPhi(lattice: map<Id, Entry>, edges: set<Edge>)
    requires (0, 1) in edges && (2, 1) !in edges
    ensures PhiValue([Blk(0), Cst(FIVE), Blk(2), Cst(ZERO)], 1, lattice, edges, 0, Top) == Constant(FIVE)
  {
    var operands := [Blk(0), Cst(FIVE), Blk(2), Cst(ZERO)];
    assert PhiValue(operands, 1, lattice, edges, 2, Constant(FIVE)) == Constant(FIVE);
    assert PhiValue(operands, 1, lattice, edges, 1, Constant(FIVE)) == Constant(FIVE);
  }

  lemma LoopDouble(folder: Folder, lattice: map<Id, Entry>, edges: set<Edge>)
    requires folder.scalar(Add, 32, [FIVE, FIVE]) == Some(TEN) && 1 in lattice && lattice[1] == Constant(FIVE)
    ensures Transfer(Instr(Add, 32, [Inst(1), Inst(1)], 1), folder, lattice, edges) == Constant(TEN)
  {
    var operands := [Inst(1), Inst(1)];
    assert AllConstant(operands, lattice) && !AnyBottom(operands, lattice);
    assert Words(operands, lattice) == [FIVE, FIVE];
  }

  /** What the first five instructions ask of a solution. */
  lemma LoopStable(f: Function, folder: Folder, lattice: map<Id, Entry>, edges: set<Edge>)
    requires WaitingLoop(f) && folder.scalar(Add, 32, [FIVE, FIVE]) == Some(TEN)
    requires 1 in lattice && 2 in lattice && 3 in lattice && (forall id | id in f.code :: TargetsExist(f, f.code[id]))
    ensures Stable(f, folder, 0, lattice, edges) <==> (0, 1) in edges
    ensures (0, 1) in edges && (2, 1) !in edges ==>
              (Stable(f, folder, 1, lattice, edges) <==> Leq(Constant(FIVE), lattice[1]))
    ensures lattice[1] == Constant(FIVE) ==> (Stable(f, folder, 2, lattice, edges) <==> Leq(Constant(TEN), lattice[2]))
    ensures lattice[3].Top? ==> Stable(f, folder, 3, lattice, edges) && Stable(f, folder, 4, lattice, edges)
  {
    if (0, 1) in edges && (2, 1) !in edges { LoopPhi(lattice, edges); }
    if lattice[1] == Constant(FIVE) { LoopDouble(folder, lattice, edges); }
    hide PhiValue, OperationValue, TargetsExist;
  }

  lemma KnownSolves(f: Function, folder: Folder)
    requires WaitingLoop(f) && folder.scalar(Add, 32, [FIVE, FIVE]) == Some(TEN)
    ensures Solves(f, folder, Known())
  {
    hide WellFormed, ValueIds, Stable, WaitingCode;
    WaitingWellFormed(f);
    WaitingTargets(f);
    KnownValues(f);
    LoopStable(f, folder, Known().lattice, Known().edges);
    WaitingParents(f);
    forall b, i | b in Known().blocks && 0 <= i < |f.blocks[b]|
      ensures f.blocks[b][i] in f.code && Stable(f, folder, f.blocks[b][i], Known().lattice, Known().edges)
    {
      assert b == 0 || b == 1;
    }
  }

  lemma SolutionVisits(f: Function, folder: Folder, sol: Solution, b: BlockId, i: nat)
    requires Solves(f, folder, sol) && b in sol.blocks && b in f.blocks && i < |f.blocks[b]|
    ensures f.blocks[b][i] in f.code && TargetsExist(f, f.code[f.blocks[b][i]])
    ensures Stable(f, folder, f.blocks[b][i], sol.lattice, sol.edges)
  {
  }

  lemma SolutionShape(f: Function, folder: Folder, sol: Solution)
    requires Solves(f, folder, sol)
    ensures f.order != [] && f.order[0] in sol.blocks && sol.lattice.Keys == ValueIds(f)
    ensures forall e | e in sol.edges :: e.1 in sol.blocks
  {
  }

  /** And that is where it ends. */
  lemma EngineKnows(f: Function, folder: Folder, sol: Solution)
    requires WaitingLoop(f) && folder.scalar(Add, 32, [FIVE, FIVE]) == Some(TEN) && FinestSolution(f, folder, sol)
    ensures sol == Known()
  {
    hide Solves, ValueIds, Stable, WaitingCode, TargetsExist;
    KnownSolves(f, folder);
    KnownValues(f);
    WaitingTargets(f);
    SolutionShape(f, folder, sol);
    assert Finer(sol, Known());
    LoopStable(f, folder, sol.lattice, sol.edges);
    SolutionVisits(f, folder, sol, 0, 0);
    assert (0, 1) in sol.edges && 1 in sol.blocks;
    SolutionVisits(f, folder, sol, 1, 0);
    SolutionVisits(f, folder, sol, 1, 1);
    assert sol.lattice == Known().lattice;
  }

  // ----- What the rewritten loop does

  lemma KnownPlan(f: Function)
    requires WaitingLoop(f)
    ensures ConstantPlan(f, Known()) == Plan({2}, map[2 := TEN])
  {
    forall id
      ensures id in Known().lattice && Replaceable(f, Known(), id) <==> id == 2
    {
    }
    assert ConstantPlan(f, Known()).dead == {2};
  }

  lemma KeepOne(id: Id, list: seq<Id>, dead: set<Id>)
    ensures Keep([id] + list, dead) == (if id in dead then [] else [id]) + Keep(list, dead)
  {
    assert ([id] + list)[1..] == list;
  }

  /** The block of the rewritten function, and the branch that ends the loop. */
  ghost predicate RewrittenLoop(g: Function) {
    && g.order == [0, 1, 2, 3] && g.blocks == map[0 := [0], 1 := [1, 3, 4], 2 := [5], 3 := [6]]
    && g.code.Keys == {0, 1, 2, 3, 4, 5, 6}
    && g.code[0] == Instr(Jmp, 0, [Blk(1)], 0)
    && g.code[1].op == Phi && g.code[3].op == Alloc4
    && g.code[4] == Instr(Br, 0, [Inst(3), Blk(2), Blk(2)], 1)
    && g.code[5] == Instr(Br, 0, [Cst(TEN), Blk(1), Blk(3)], 2)
  }

  lemma LoopKept()
    ensures Keep([0], {2}) == [0] && Keep([1, 2, 3, 4], {2}) == [1, 3, 4] && Keep([5], {2}) == [5]
    ensures Keep([6], {2}) == [6]
  {
    hide Keep;
    KeepNone({2});
    KeepOne(0, [], {2});
    KeepOne(5, [], {2});
    KeepOne(6, [], {2});
    KeepOne(4, [], {2});
    KeepOne(3, [4], {2});
    KeepOne(2, [3, 4], {2});
    KeepOne(1, [2, 3, 4], {2});
    assert [3] + [4] == [3, 4] && [2] + [3, 4] == [2, 3, 4] && [1] + [2, 3, 4] == [1, 2, 3, 4]
           && [1] + [3, 4] == [1, 3, 4];
    assert [0] + [] == [0] && [4] + [] == [4] && [5] + [] == [5] && [6] + [] == [6] && [] + [3, 4] == [3, 4];
  }

  lemma LoopSubstituted(code: map<Id, Instr>, code': map<Id, Instr>)
    requires WaitingCode(code)
    requires code' == map id | id in code :: code[id].(operands := SubstAll(code[id].operands, map[2 := TEN]))
    ensures code'.Keys == code.Keys && code'[0] == code[0] && code'[4] == code[4]
    ensures code'[1].op == Phi && code'[3].op == Alloc4 && code'[5] == Instr(Br, 0, [Cst(TEN), Blk(1), Blk(3)], 2)
  {
    assert SubstAll([Inst(2), Blk(1), Blk(3)], map[2 := TEN]) == [Cst(TEN), Blk(1), Blk(3)];
    assert SubstAll([Inst(3), Blk(2), Blk(2)], map[2 := TEN]) == [Inst(3), Blk(2), Blk(2)];
    assert SubstAll([Blk(1)], map[2 := TEN]) == [Blk(1)];
    hide SubstAll;
  }

  lemma LoopRewritten(f: Function)
    requires WaitingLoop(f)
    ensures RewrittenLoop(Rewrite(f, Plan({2}, map[2 := TEN])))
  {
    hide Keep, SubstAll, WaitingCode;
    LoopSubstituted(f.code, Rewrite(f, Plan({2}, map[2 := TEN])).code);
    WaitingKeys(f.code);
    BlocksRewritten(f);
    hide Rewrite;
  }

  lemma BlocksRewritten(f: Function)
    requires f.order == [0, 1, 2, 3] && f.blocks == map[0 := [0], 1 := [1, 2, 3, 4], 2 := [5], 3 := [6]]
    ensures var g := Rewrite(f, Plan({2}, map[2 := TEN]));
            g.order == [0, 1, 2, 3] && g.blocks == map[0 := [0], 1 := [1, 3, 4], 2 := [5], 3 := [6]]
  {
    hide Keep, SubstAll;
    LoopKept();
    LoopBlocks(Rewrite(f, Plan({2}, map[2 := TEN])).blocks);
  }

  lemma LoopBlocks(blocks: map<BlockId, seq<Id>>)
    requires blocks.Keys == {0, 1, 2, 3} && blocks[0] == [0] && blocks[1] == [1, 3, 4] && blocks[2] == [5]
    requires blocks[3] == [6]
    ensures blocks == map[0 := [0], 1 := [1, 3, 4], 2 := [5], 3 := [6]]
  {
  }

  lemma WaitingKeys(code: map<Id, Instr>)
    requires WaitingCode(code)
    ensures code.Keys == {0, 1, 2, 3, 4, 5, 6} && code[0] == Instr(Jmp, 0, [Blk(1)], 0)
    ensures code[4] == Instr(Br, 0, [Inst(3), Blk(2), Blk(2)], 1)
  {
  }

  lemma KeepNone(dead: set<Id>)
    ensures Keep([], dead) == []
  {
  }

  /** Still in the loop. */
  predicate GoesRound(s: State) {
    s.ret.None? && s.path != [] && Last(s.path) <= 2
  }

  lemma RoundAgain(m: Machine, g: Function, s: State, s': State)
    requires RewrittenLoop(g) && GoesRound(s) && Step(m, g, s, s')
    ensures GoesRound(s')
  {
    hide LeadingPhis, InstrStep;
    var list := g.blocks[Last(s.path)];
    if !(s.pc == 0 && LeadingPhis(list, g.code) > 0) {
      var id := list[s.pc];
      assert InstrStep(m, id, g.code[id], s, s');
      hide Step, PhiStep;
      StaysInLoop(m, id, g.code[id], s, s');
    }
  }

  /** No instruction of the first three blocks leaves them. */
  lemma StaysInLoop(m: Machine, id: Id, instr: Instr, s: State, s': State)
    requires GoesRound(s) && InstrStep(m, id, instr, s, s')
    requires instr.op != Ret && instr.op != Jz && instr.op != Jnz
    requires instr.op == Jmp ==> instr.operands == [Blk(1)]
    requires instr.op == Br
             ==> instr.operands == [Inst(3), Blk(2), Blk(2)] || instr.operands == [Cst(TEN), Blk(1), Blk(3)]
    ensures GoesRound(s')
  {
  }

  lemma {:induction false} NeverLeaves(m: Machine, g: Function, run: seq<State>)
    requires RewrittenLoop(g) && IsRun(m, g, run)
    ensures GoesRound(Last(run))
    decreases |run|
  {
    hide Step, RewrittenLoop;
    if |run| == 1 {
      FirstBlock(g);
    } else {
      RunShrinks(m, g, run);
      NeverLeaves(m, g, run[..|run| - 1]);
      RoundAgain(m, g, Last(run[..|run| - 1]), Last(run));
    }
  }

  lemma FirstBlock(g: Function)
    requires RewrittenLoop(g)
    ensures g.order == [0, 1, 2, 3]
  {
  }

  // ----- What the original does

  lemma StepAt(m: Machine, f: Function, s: State, s': State)
    requires s.ret.None? && s.path != [] && Last(s.path) in f.blocks && s.pc < |f.blocks[Last(s.path)]|
    requires s.pc > 0 || LeadingPhis(f.blocks[Last(s.path)], f.code) == 0
    requires var id := f.blocks[Last(s.path)][s.pc]; id in f.code && InstrStep(m, id, f.code[id], s, s')
    ensures Step(m, f, s, s')
  {
    hide LeadingPhis, InstrStep;
  }

  lemma NoPhisIn(f: Function)
    requires WaitingLoop(f)
    ensures LeadingPhis([0], f.code) == 0 && LeadingPhis([5], f.code) == 0 && LeadingPhis([6], f.code) == 0
    ensures LeadingPhis([1, 2, 3, 4], f.code) == 1
  {
    assert PhisEnd([1, 2, 3, 4], f.code, 1) == 1;
  }

  /** What the phi receives from either side. */
  predicate Enters(pred: BlockId, c: Word) {
    (pred == 0 && c == FIVE) || (pred == 2 && c == ZERO)
  }

  lemma LoopIncoming(pred: BlockId, c: Word)
    requires Enters(pred, c)
    ensures IncomingFrom([Blk(0), Cst(FIVE), Blk(2), Cst(ZERO)], pred, 0) == Some(Cst(c))
  {
    var operands := [Blk(0), Cst(FIVE), Blk(2), Cst(ZERO)];
    assert IncomingFrom(operands, pred, 1) == if pred == 2 then Some(Cst(ZERO)) else None;
  }

  lemma PhiPart(m: Machine, f: Function, s: State, s': State, c: Word)
    requires WaitingLoop(f) && s.ret.None? && |s.path| >= 2 && Last(s.path) == 1 && s.pc == 0
    requires Enters(s.path[|s.path| - 2], c) && s' == s.(pc := 1, env := s.env[1 := c])
    ensures Step(m, f, s, s')
  {
    hide WaitingCode, IncomingFrom, LeadingPhis, PhiStep;
    NoPhisIn(f);
    PhiOfLoop(m, f, s, s', c);
  }

  lemma PhiOfLoop(m: Machine, f: Function, s: State, s': State, c: Word)
    requires WaitingLoop(f) && |s.path| >= 2
    requires Enters(s.path[|s.path| - 2], c) && s' == s.(pc := 1, env := s.env[1 := c])
    ensures forall i | 0 <= i < 1 :: [1, 2, 3, 4][i] in f.code
    ensures PhiStep(m, f, [1, 2, 3, 4], 1, s, s')
  {
    LoopIncoming(s.path[|s.path| - 2], c);
    hide IncomingFrom, LeadingPhis;
    var list: seq<Id> := [1, 2, 3, 4];
    assert list[0] == 1;
    var ids := set i | 0 <= i < 1 :: list[i];
    assert forall x :: x in ids <==> x == 1;
  }

  /** Once round: phi, double, slot, branch. */
  lemma OnceRound(m: Machine, f: Function, folder: Folder, w: Word, run: seq<State>, c: Word, d: Word)
    returns (run': seq<State>)
    requires WaitingLoop(f) && Doubles(m, folder, w) && IsRun(m, f, run) && run != []
    requires (c == FIVE && d == TEN) || (c == ZERO && d == ZERO)
    requires var s := Last(run);
             s.ret.None? && |s.path| >= 2 && Last(s.path) == 1 && s.pc == 0 && Enters(s.path[|s.path| - 2], c)
    ensures IsRun(m, f, run') && run' != [] && run'[0] == run[0]
    ensures var s := Last(run);
            && Last(run').path == s.path + [2] && Last(run').pc == 0 && Last(run').ret.None? && Last(run').mem == s.mem
            && 2 in Last(run').env && Last(run').env[2] == d
  {
    hide Step, InstrStep, IsRun;
    var s0 := Last(run);
    var s1 := s0.(pc := 1, env := s0.env[1 := c]);
    var s2 := s1.(pc := 2, env := s1.env[2 := d]);
    var s3 := s2.(pc := 3, env := s2.env[3 := w]);
    var s4 := s3.(path := s0.path + [2], pc := 0);
    PhiPart(m, f, s0, s1, c);
    DoublePart(m, s1, s2, c, d);
    StepAt(m, f, s1, s2);
    SlotPart(m, s2, s3, w);
    StepAt(m, f, s2, s3);
    BranchPart(m, 4, s3, s4, Inst(3), 2, 2);
    StepAt(m, f, s3, s4);
    run' := Extended(m, f, run, s1);
    run' := Extended(m, f, run', s2);
    run' := Extended(m, f, run', s3);
    run' := Extended(m, f, run', s4);
  }

  lemma Extended(m: Machine, f: Function, run: seq<State>, s': State) returns (run': seq<State>)
    requires run != [] && IsRun(m, f, run) && Step(m, f, Last(run), s')
    ensures IsRun(m, f, run') && run' != [] && run'[0] == run[0] && Last(run') == s'
  {
    RunExtends(m, f, run, s');
    run' := run + [s'];
  }

  lemma DoublePart(m: Machine, s: State, s': State, c: Word, d: Word)
    requires 1 in s.env && s.env[1] == c && m.sem(Add, 32, [c, c], s.mem, d, s.mem)
    requires s' == s.(pc := s.pc + 1, env := s.env[2 := d])
    ensures InstrStep(m, 2, Instr(Add, 32, [Inst(1), Inst(1)], 1), s, s')
  {
    assert FetchAll([Inst(1), Inst(1)], s.env, m.params) == [c, c];
  }

  lemma SlotPart(m: Machine, s: State, s': State, w: Word)
    requires m.sem(Alloc4, 64, [], s.mem, w, s.mem) && s' == s.(pc := s.pc + 1, env := s.env[3 := w])
    ensures InstrStep(m, 3, Instr(Alloc4, 64, [], 1), s, s')
  {
    assert FetchAll([], s.env, m.params) == [];
  }

  lemma BranchPart(m: Machine, id: Id, s: State, s': State, v: Value, yes: BlockId, no: BlockId)
    requires Ready(v, s.env, m.params)
    requires s' == s.(path := s.path + [if Fetch(v, s.env, m.params).bits != 0 then yes else no], pc := 0)
    ensures forall b :: InstrStep(m, id, Instr(Br, 0, [v, Blk(yes), Blk(no)], b), s, s')
  {
  }

  /** The test at the end of the loop. */
  lemma TestPart(m: Machine, f: Function, run: seq<State>, d: Word) returns (run': seq<State>)
    requires WaitingLoop(f) && run != [] && IsRun(m, f, run)
    requires var s := Last(run);
             s.ret.None? && s.path != [] && Last(s.path) == 2 && s.pc == 0 && 2 in s.env && s.env[2] == d
    ensures IsRun(m, f, run') && run' != [] && run'[0] == run[0]
    ensures Last(run') == Last(run).(path := Last(run).path + [if d.bits != 0 then 1 else 3])
  {
    hide Step, InstrStep, IsRun, LeadingPhis;
    NoPhisIn(f);
    var s := Last(run);
    var t := s.(path := s.path + [if d.bits != 0 then 1 else 3], pc := 0);
    BranchPart(m, 5, s, t, Inst(2), 1, 3);
    StepAt(m, f, s, t);
    run' := Extended(m, f, run, t);
  }

  lemma EntryPart(m: Machine, f: Function, mem: Memory) returns (run: seq<State>)
    requires WaitingLoop(f)
    ensures IsRun(m, f, run) && run != [] && run[0].mem == mem
    ensures Last(run) == State([0, 1], 0, map[], mem, None)
  {
    hide Step, InstrStep, IsRun, LeadingPhis;
    var start := State([0], 0, map[], mem, None);
    NoPhisIn(f);
    StartRun(m, f, start);
    run := [start];
    var s := start.(path := [0] + [1], pc := 0);
    JumpPart(m, start, s);
    StepAt(m, f, start, s);
    run := Extended(m, f, run, s);
  }

  lemma ExitPart(m: Machine, f: Function, run: seq<State>) returns (run': seq<State>)
    requires WaitingLoop(f) && run != [] && IsRun(m, f, run)
    requires var s := Last(run); s.ret.None? && s.path != [] && Last(s.path) == 3 && s.pc == 0 && 2 in s.env
    ensures IsRun(m, f, run') && run' != [] && run'[0] == run[0]
    ensures Last(run') == Last(run).(ret := Some(Some(Last(run).env[2])))
  {
    hide Step, InstrStep, IsRun, LeadingPhis;
    NoPhisIn(f);
    var s := Last(run);
    var r := s.(ret := Some(Some(s.env[2])));
    ReturnPart(m, s, r);
    StepAt(m, f, s, r);
    run' := Extended(m, f, run, r);
  }

  /** The original leaves the loop the second time round, and returns 0. */
  lemma LoopReturns(m: Machine, f: Function, folder: Folder, w: Word, mem: Memory)
    requires WaitingLoop(f) && Doubles(m, folder, w)
    ensures MayReturn(m, f, mem, [0, 1, 2, 1, 2, 3], Some(ZERO), mem)
  {
    hide Step, InstrStep, IsRun, Doubles, LeadingPhis, Enters, WaitingLoop;
    EntersFrom();
    var run := EntryPart(m, f, mem);
    run := OnceRound(m, f, folder, w, run, FIVE, TEN);
    run := TestPart(m, f, run, TEN);
    assert [0, 1] + [2] + [1] == [0, 1, 2, 1];
    run := OnceRound(m, f, folder, w, run, ZERO, ZERO);
    run := TestPart(m, f, run, ZERO);
    assert [0, 1, 2, 1] + [2] + [3] == [0, 1, 2, 1, 2, 3];
    run := ExitPart(m, f, run);
  }

  lemma EntersFrom()
    ensures Enters(0, FIVE) && Enters(2, ZERO)
  {
  }

  lemma StartRun(m: Machine, f: Function, s: State)
    requires WaitingLoop(f) && s == State([0], 0, map[], s.mem, None)
    ensures IsRun(m, f, [s])
  {
  }

  lemma JumpPart(m: Machine, s: State, s': State)
    requires s' == s.(path := s.path + [1], pc := 0)
    ensures InstrStep(m, 0, Instr(Jmp, 0, [Blk(1)], 0), s, s')
  {
  }

  lemma ReturnPart(m: Machine, s: State, s': State)
    requires 2 in s.env && s' == s.(ret := Some(Some(s.env[2])))
    ensures InstrStep(m, 6, Instr(Ret, 0, [Inst(2)], 3), s, s')
  {
  }

  /** The pass loses that: what it makes of the function goes round for ever. */
  lemma WrongRewrite(m: Machine, f: Function, folder: Folder, sol: Solution, w: Word, mem: Memory)
    requires WaitingLoop(f) && Doubles(m, folder, w) && FoldSound(m, folder) && FinestSolution(f, folder, sol)
    ensures MayReturn(m, f, mem, [0, 1, 2, 1, 2, 3], Some(ZERO), mem)
    ensures forall path, ret, mem' :: !MayReturn(m, Rewrite(f, ConstantPlan(f, sol)), mem, path, ret, mem')
  {
    LoopReturns(m, f, folder, w, mem);
    EngineKnows(f, folder, sol);
    KnownPlan(f);
    LoopRewritten(f);
    var g := Rewrite(f, ConstantPlan(f, sol));
    hide RewrittenLoop, IsRun, Rewrite, ConstantPlan;
    forall run: seq<State> | IsRun(m, g, run)
      ensures run != [] && Last(run).ret.None?
    {
      RunsNonempty(m, g, run);
      NeverLeaves(m, g, run);
    }
  }

  lemma RunsNonempty(m: Machine, g: Function, run: seq<State>)
    requires IsRun(m, g, run)
    ensures run != []
  {
  }
}
