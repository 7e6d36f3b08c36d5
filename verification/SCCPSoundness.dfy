/**
 What a solution says about runs: control stays on executable edges, and every
 value computed is the one the lattice promises.  Hence replacing constants by
 their words and erasing them changes nothing a caller sees.
 */
module PropagationSoundness {
  import opened IR
  import opened Lattice
  import opened Erasure
  import opened Simulation

  /** Folding agrees with the machine: what folds has that result only, and does not touch memory. */
  ghost predicate FoldSound(m: Machine, folder: Folder) {
    && (forall op, ty, args, mem, v, mem' | m.sem(op, ty, args, mem, v, mem') && op != Call && !AlwaysBottom(op) ::
          var r := folder.scalar(op, ty, args); r.Some? ==> v == r.value && mem' == mem)
    && (forall ty: nat, args: seq<Word>, mem, v, mem' | m.sem(Call, ty, args, mem, v, mem') && args != [] ::
          var r := folder.call(args[0].bits, args[1..]); r.Some? ==> v == r.value && mem' == mem)
  }

  predicate IsValueOp(instr: Instr) {
    instr.ty != 0 && instr.op != Phi && !IsJump(instr.op)
  }

  /**
   An operation that makes a value out of no operands, and is not known to make any value: the engine
   waits for it forever.
   */
  predicate BareValue(instr: Instr) {
    IsValueOp(instr) && instr.op != Call && instr.op != Ret && !AlwaysBottom(instr.op) && instr.operands == []
  }

  ghost predicate NoBareValues(f: Function) {
    forall id | id in f.code :: !BareValue(f.code[id])
  }

  /** The state is about to execute such an operation. */
  ghost predicate AtBare(f: Function, s: State) {
    && s.path != [] && Last(s.path) in f.blocks && s.pc < |f.blocks[Last(s.path)]|
    && f.blocks[Last(s.path)][s.pc] in f.code && BareValue(f.code[f.blocks[Last(s.path)][s.pc]])
  }

  /** The entry admits the word; Top admits nothing. */
  predicate Describes(e: Entry, w: Word) {
    e.Bottom? || e == Constant(w)
  }

  ghost predicate EnvDescribed(lattice: map<Id, Entry>, env: map<Id, Word>) {
    forall id | id in env && id in lattice :: Describes(lattice[id], env[id])
  }

  ghost predicate PathExecutable(sol: Solution, path: seq<BlockId>) {
    && path != []
    && (forall i | 0 <= i < |path| :: path[i] in sol.blocks)
    && (forall i | 0 < i < |path| :: (path[i - 1], path[i]) in sol.edges)
  }

  ghost predicate Described(sol: Solution, s: State) {
    PathExecutable(sol, s.path) && EnvDescribed(sol.lattice, s.env)
  }

  lemma OperandDescribed(v: Value, lattice: map<Id, Entry>, env: map<Id, Word>, params: seq<Word>)
    requires EnvDescribed(lattice, env) && Ready(v, env, params)
    ensures Describes(LatticeValue(v, lattice), Fetch(v, env, params))
  {
  }

  // ----- Operations

  lemma OperationDescribed(m: Machine, folder: Folder, instr: Instr, lattice: map<Id, Entry>, env: map<Id, Word>,
                           mem: Memory, v: Word, mem': Memory)
    requires FoldSound(m, folder) && EnvDescribed(lattice, env)
    requires instr.op != Call && !AlwaysBottom(instr.op)
    requires AllReady(instr.operands, env, m.params)
    requires m.sem(instr.op, instr.ty, FetchAll(instr.operands, env, m.params), mem, v, mem')
    ensures var e := OperationValue(instr, folder, lattice);
            Describes(e, v) && (e.Constant? ==> mem' == mem)
  {
    var operands := instr.operands;
    forall i | 0 <= i < |operands|
      ensures Describes(LatticeValue(operands[i], lattice), Fetch(operands[i], env, m.params))
    {
      OperandDescribed(operands[i], lattice, env, m.params);
    }
    if !AnyBottom(operands, lattice) {
      assert forall i | 0 <= i < |operands| ::
          LatticeValue(operands[i], lattice) == Constant(Fetch(operands[i], env, m.params));
      assert Words(operands, lattice) == FetchAll(operands, env, m.params);
    }
  }

  lemma CallDescribed(m: Machine, folder: Folder, instr: Instr, lattice: map<Id, Entry>, env: map<Id, Word>,
                      mem: Memory, v: Word, mem': Memory)
    requires FoldSound(m, folder) && EnvDescribed(lattice, env) && instr.op == Call
    requires AllReady(instr.operands, env, m.params)
    requires m.sem(Call, instr.ty, FetchAll(instr.operands, env, m.params), mem, v, mem')
    ensures var e := CallValue(instr.operands, lattice, folder);
            Describes(e, v) && (e.Constant? ==> mem' == mem)
  {
    var operands := instr.operands;
    if operands != [] && operands[0].Fun? && AllConstant(operands[1..], lattice) {
      var args := FetchAll(operands, env, m.params);
      forall i | 0 <= i < |operands| - 1
        ensures Words(operands[1..], lattice)[i] == args[1..][i]
      {
        assert operands[1..][i] == operands[i + 1];
        OperandDescribed(operands[i + 1], lattice, env, m.params);
      }
      assert Words(operands[1..], lattice) == args[1..];
      assert args[0].bits == operands[0].name;
    }
  }

  /** An operation's result is described by its transfer; if that is a constant, memory is untouched. */
  lemma TransferDescribed(m: Machine, folder: Folder, instr: Instr, lattice: map<Id, Entry>, edges: set<Edge>,
                          env: map<Id, Word>, mem: Memory, v: Word, mem': Memory)
    requires FoldSound(m, folder) && EnvDescribed(lattice, env)
    requires IsValueOp(instr)
    requires instr.operands == [] ==> instr.op == Call || AlwaysBottom(instr.op)
    requires AllReady(instr.operands, env, m.params)
    requires m.sem(instr.op, instr.ty, FetchAll(instr.operands, env, m.params), mem, v, mem')
    ensures var e := Transfer(instr, folder, lattice, edges);
            Describes(e, v) && (e.Constant? ==> mem' == mem)
  {
    if instr.op == Call {
      CallDescribed(m, folder, instr, lattice, env, mem, v, mem');
    } else if !AlwaysBottom(instr.op) {
      OperationDescribed(m, folder, instr, lattice, env, mem, v, mem');
    }
  }

  // ----- Phis

  lemma {:induction false} IncomingIndex(operands: seq<Value>, pred: BlockId, k: nat) returns (j: nat)
    requires IncomingFrom(operands, pred, k).Some?
    ensures k <= j && 2 * j + 1 < |operands|
    ensures IncomingPair(operands, j) == Some((pred, IncomingFrom(operands, pred, k).value))
    decreases |operands| - 2 * k
  {
    var pair := IncomingPair(operands, k);
    if pair.Some? && pair.value.0 == pred {
      j := k;
    } else {
      j := IncomingIndex(operands, pred, k + 1);
    }
  }

  lemma PhiDescribed(operands: seq<Value>, pred: BlockId, b: BlockId, lattice: map<Id, Entry>, edges: set<Edge>,
                     env: map<Id, Word>, params: seq<Word>)
    requires EnvDescribed(lattice, env) && (pred, b) in edges
    requires IncomingFrom(operands, pred, 0).Some? && Ready(IncomingFrom(operands, pred, 0).value, env, params)
    ensures Describes(PhiValue(operands, b, lattice, edges, 0, Top),
                      Fetch(IncomingFrom(operands, pred, 0).value, env, params))
  {
    var j := IncomingIndex(operands, pred, 0);
    assert PhiInput(operands, b, edges, j);
    PhiValueAbove(operands, b, lattice, edges, 0, Top);
    OperandDescribed(IncomingFrom(operands, pred, 0).value, lattice, env, params);
  }

  // ----- One step

  lemma StableAt(f: Function, folder: Folder, sol: Solution, b: BlockId, i: nat)
    requires Solves(f, folder, sol) && b in sol.blocks && b in f.blocks && i < |f.blocks[b]|
    ensures var id := f.blocks[b][i];
            && id in f.code && TargetsExist(f, f.code[id]) && f.code[id].parent == b
            && Stable(f, folder, id, sol.lattice, sol.edges)
  {
  }

  lemma PhiStepDescribed(m: Machine, f: Function, folder: Folder, sol: Solution, list: seq<Id>, n: nat,
                         s: State, s': State)
    requires Described(sol, s) && n <= |list|
    requires forall i | 0 <= i < n ::
               && list[i] in f.code && f.code[list[i]].op == Phi && f.code[list[i]].parent == Last(s.path)
               && TargetsExist(f, f.code[list[i]]) && Stable(f, folder, list[i], sol.lattice, sol.edges)
    requires forall i | 0 <= i < n :: list[i] in sol.lattice ==> f.code[list[i]].ty != 0
    requires PhiStep(m, f, list, n, s, s')
    ensures EnvDescribed(sol.lattice, s'.env)
  {
    forall id | id in s'.env && id in sol.lattice
      ensures Describes(sol.lattice[id], s'.env[id])
    {
      if id in list[..n] {
        var i :| 0 <= i < n && list[i] == id;
        PhiDescribed(f.code[id].operands, s.path[|s.path| - 2], Last(s.path), sol.lattice, sol.edges, s.env, m.params);
      } else {
        assert id in s.env;
      }
    }
  }

  lemma OpStepDescribed(m: Machine, f: Function, folder: Folder, sol: Solution, id: Id, s: State, s': State)
    requires FoldSound(m, folder) && id in f.code && !BareValue(f.code[id])
    requires Described(sol, s)
    requires id in f.code && TargetsExist(f, f.code[id]) && Stable(f, folder, id, sol.lattice, sol.edges)
    requires f.code[id].op != Phi && f.code[id].op != Ret && !IsJump(f.code[id].op)
    requires id in sol.lattice ==> f.code[id].ty != 0
    requires OpStep(m, id, f.code[id], s, s')
    ensures EnvDescribed(sol.lattice, s'.env)
    ensures id in sol.lattice && sol.lattice[id].Constant? ==> s'.mem == s.mem
  {
    if id in sol.lattice {
      TransferDescribed(m, folder, f.code[id], sol.lattice, sol.edges, s.env, s.mem, s'.env[id], s'.mem);
    }
  }

  lemma JumpDescribed(m: Machine, f: Function, folder: Folder, sol: Solution, id: Id, s: State, s': State)
    requires Described(sol, s)
    requires id in f.code && TargetsExist(f, f.code[id]) && Stable(f, folder, id, sol.lattice, sol.edges)
    requires f.code[id].parent == Last(s.path) && (forall e | e in sol.edges :: e.1 in sol.blocks)
    requires IsJump(f.code[id].op) && InstrStep(m, id, f.code[id], s, s')
    ensures Described(sol, s')
  {
    var instr := f.code[id];
    if IsCondBranch(instr.op) {
      OperandDescribed(instr.operands[0], sol.lattice, s.env, m.params);
    }
    assert Last(s'.path) in Successors(instr, sol.lattice);
    assert (Last(s.path), Last(s'.path)) in sol.edges;
  }

  lemma InLattice(f: Function, folder: Folder, sol: Solution, id: Id)
    requires Solves(f, folder, sol) && id in sol.lattice
    ensures id in f.code && f.code[id].ty != 0
  {
    assert id in ValueIds(f);
  }

  /** The step executes an instruction, not phis. */
  ghost predicate AtOp(f: Function, s: State, id: Id) {
    && s.path != [] && Last(s.path) in f.blocks && s.pc < |f.blocks[Last(s.path)]|
    && f.blocks[Last(s.path)][s.pc] == id && id in f.code && f.code[id].op != Phi
  }

  lemma StepDescribed(m: Machine, f: Function, folder: Folder, sol: Solution, s: State, s': State)
    requires Solves(f, folder, sol) && FoldSound(m, folder) && !AtBare(f, s)
    requires Described(sol, s) && Step(m, f, s, s')
    ensures Described(sol, s')
    ensures forall id | AtOp(f, s, id) && id in sol.lattice && sol.lattice[id].Constant?
            && !IsTerminator(f.code[id].op) ::
              s'.mem == s.mem
  {
    var b := Last(s.path);
    var list := f.blocks[b];
    var n := LeadingPhis(list, f.code);
    assert b in sol.blocks;
    if s.pc == 0 && n > 0 {
      forall i | 0 <= i < n
        ensures TargetsExist(f, f.code[list[i]]) && f.code[list[i]].parent == b
        ensures Stable(f, folder, list[i], sol.lattice, sol.edges)
        ensures list[i] in sol.lattice ==> f.code[list[i]].ty != 0
      {
        StableAt(f, folder, sol, b, i);
        if list[i] in sol.lattice { InLattice(f, folder, sol, list[i]); }
      }
      PhiStepDescribed(m, f, folder, sol, list, n, s, s');
    } else {
      var id := list[s.pc];
      StableAt(f, folder, sol, b, s.pc);
      if id in sol.lattice { InLattice(f, folder, sol, id); }
      if IsJump(f.code[id].op) {
        JumpDescribed(m, f, folder, sol, id, s, s');
      } else if f.code[id].op != Ret {
        OpStepDescribed(m, f, folder, sol, id, s, s');
      }
    }
  }

  // ----- Every run

  /** As long as no value has been made out of nothing, a run stays described. */
  lemma {:induction false} RunDescribed(m: Machine, f: Function, folder: Folder, sol: Solution, run: seq<State>)
    requires Solves(f, folder, sol) && FoldSound(m, folder) && IsRun(m, f, run)
    requires forall i | 0 <= i < |run| - 1 :: !AtBare(f, run[i])
    ensures forall i | 0 <= i < |run| :: Described(sol, run[i])
    decreases |run|
  {
    hide AtBare, Solves, FoldSound;
    if |run| == 1 {
      StartDescribed(m, f, folder, sol, run);
    } else {
      var before := run[..|run| - 1];
      RunDescribed(m, f, folder, sol, before);
      assert Described(sol, before[|run| - 2]);
      StepDescribed(m, f, folder, sol, run[|run| - 2], run[|run| - 1]);
      forall i | 0 <= i < |run|
        ensures Described(sol, run[i])
      {
        if i < |run| - 1 {
          assert Described(sol, before[i]);
        }
      }
    }
  }

  lemma StartDescribed(m: Machine, f: Function, folder: Folder, sol: Solution, run: seq<State>)
    requires Solves(f, folder, sol) && IsRun(m, f, run)
    ensures Described(sol, run[0])
  {
  }

  /**
   Soundness over every run: whatever the inputs, every edge taken is executable and
   every value computed is the one its entry promises (and no entry still says Top).
   */
  lemma Soundness(m: Machine, f: Function, folder: Folder, sol: Solution, run: seq<State>)
    requires Solves(f, folder, sol) && FoldSound(m, folder) && NoBareValues(f)
    requires IsRun(m, f, run)
    ensures forall i | 0 <= i < |run| :: Described(sol, run[i])
  {
    hide Solves, FoldSound, Described, IsRun;
    RunDescribed(m, f, folder, sol, run);
  }

  // ----- The rewrite

  /** The instructions found constant in executable blocks, and their words. */
  ghost predicate Replaceable(f: Function, sol: Solution, id: Id) {
    && id in sol.lattice && sol.lattice[id].Constant?
    && id in f.code && f.code[id].parent in sol.blocks
    && !IsTerminator(f.code[id].op) && f.code[id].op != Phi
  }

  ghost function ConstantPlan(f: Function, sol: Solution): Plan {
    var dead := set id | id in sol.lattice && Replaceable(f, sol, id);
    Plan(dead, map id | id in dead :: sol.lattice[id].word)
  }

  lemma PlanClosed(f: Function, sol: Solution)
    ensures Closed(f, ConstantPlan(f, sol))
  {
  }

  /** The last step of a run respects the plan. */
  lemma LastStepConfirmed(m: Machine, f: Function, folder: Folder, sol: Solution, s: State, s': State)
    requires Solves(f, folder, sol) && FoldSound(m, folder) && NoBareValues(f)
    requires Described(sol, s) && Step(m, f, s, s') && AtDead(f, ConstantPlan(f, sol), s)
    ensures s'.mem == s.mem
  {
    StepDescribed(m, f, folder, sol, s, s');
    assert AtOp(f, s, f.blocks[Last(s.path)][s.pc]);
  }

  lemma DescribedAgrees(f: Function, sol: Solution, s: State)
    requires Described(sol, s)
    ensures Agrees(ConstantPlan(f, sol).subst, s.env)
  {
  }

  lemma PlanConfirmed(m: Machine, f: Function, folder: Folder, sol: Solution)
    requires Solves(f, folder, sol) && FoldSound(m, folder) && NoBareValues(f)
    ensures Confirmed(m, f, ConstantPlan(f, sol))
  {
    hide Solves, FoldSound, NoBareValues, Described, ConstantPlan, Step;
    var plan := ConstantPlan(f, sol);
    forall run | IsRun(m, f, run)
      ensures RunConfirms(f, plan, run)
    {
      Soundness(m, f, folder, sol, run);
      assert Described(sol, run[|run| - 1]);
      DescribedAgrees(f, sol, Last(run));
      if |run| >= 2 && AtDead(f, plan, run[|run| - 2]) {
        assert Step(m, f, run[|run| - 1 - 1], run[|run| - 1]);
        LastStepConfirmed(m, f, folder, sol, run[|run| - 2], Last(run));
      }
    }
  }

  /**
   The rewrite preserves meaning: from any memory the rewritten function returns, by the same
   blocks, with the same value and memory, exactly what the original does; it can differ only
   where the original gets stuck.
   */
  lemma RewritePreservesRuns(m: Machine, f: Function, folder: Folder, sol: Solution)
    requires Solves(f, folder, sol) && FoldSound(m, folder) && NoBareValues(f)
    ensures Preserves(m, f, Rewrite(f, ConstantPlan(f, sol)))
  {
    PlanClosed(f, sol);
    PlanConfirmed(m, f, folder, sol);
    ErasurePreserves(m, f, ConstantPlan(f, sol));
  }
}
