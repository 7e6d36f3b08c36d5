/**
 Elimination opcode by opcode: exactly which instructions it keeps, and exactly what has to be
 true of the others for it to preserve every function.
 */
module DeadCodeExact {
  import opened IR
  import opened Simulation
  import opened Erasure
  import opened DeadCode

  /** What is kept for its own sake. */
  const SPARED: set<Opcode> := {
    Call, Syscall, Store, Stored, Stores, Storel, Storeh, Storeb, VStore, VScatter, Ret, Jmp, Jz, Jnz, Br
  }

  lemma RootIsSpared(op: Opcode)
    ensures IsRoot(op) <==> op in SPARED
  {
  }

  // ----- What is kept

  /** From an instruction that is spared, each to one of its operands. */
  ghost predicate IsNeed(f: Function, chain: seq<Id>) {
    && chain != [] && chain[0] in f.code && f.code[chain[0]].op in SPARED && chain[0] in AllIds(f)
    && forall i | 0 < i < |chain| :: Needs(f, chain[i - 1], chain[i])
  }

  predicate Needs(f: Function, a: Id, b: Id) {
    a in f.code && Inst(b) in f.code[a].operands
  }

  ghost predicate IsNeeded(f: Function, id: Id) {
    exists chain: seq<Id> :: IsNeed(f, chain) && Last(chain) == id
  }

  lemma {:induction false} NeedIsLive(f: Function, live: set<Id>, chain: seq<Id>)
    requires LiveClosed(f, live) && IsNeed(f, chain)
    ensures Last(chain) in live
    decreases |chain|
  {
    if |chain| == 1 {
      RootIsSpared(f.code[chain[0]].op);
      var b :| b in f.blocks && chain[0] in f.blocks[b];
      hide SPARED, IsRoot;
      assert chain[0] in Roots(f.blocks[b], f.code);
    } else {
      hide SPARED;
      var front := chain[..|chain| - 1];
      assert front[0] == chain[0];
      NeedIsLive(f, live, front);
      assert Needs(f, chain[|chain| - 2], chain[|chain| - 1]);
      assert Last(chain) in Used(f.code[Last(front)].operands);
    }
  }

  lemma NeedExtends(f: Function, chain: seq<Id>, x: Id)
    requires IsNeed(f, chain) && Needs(f, Last(chain), x)
    ensures IsNeed(f, chain + [x]) && Last(chain + [x]) == x
  {
    hide SPARED, Needs, AllIds;
    var longer := chain + [x];
    assert longer[0] == chain[0];
    forall i | 0 < i < |longer|
      ensures Needs(f, longer[i - 1], longer[i])
    {
      assert i < |chain| ==> Needs(f, chain[i - 1], chain[i]);
    }
  }

  lemma NeededNext(f: Function, id: Id, x: Id)
    requires IsNeeded(f, id) && id in f.code && x in Used(f.code[id].operands)
    ensures IsNeeded(f, x)
  {
    var chain: seq<Id> :| IsNeed(f, chain) && Last(chain) == id;
    NeedExtends(f, chain, x);
  }

  lemma NeededClosed(f: Function, needed: set<Id>)
    requires OperandsExist(f) && forall id :: id in needed <==> id in f.code && IsNeeded(f, id)
    ensures LiveClosed(f, needed)
  {
    hide SPARED, IsRoot, IsNeeded;
    forall b, id | b in f.blocks && id in Roots(f.blocks[b], f.code)
      ensures id in needed
    {
      RootIsSpared(f.code[id].op);
      assert id in AllIds(f);
      assert IsNeed(f, [id]) && Last([id]) == id;
      RootNeeded(f, id);
    }
    forall id, x | id in needed && x in Used(f.code[id].operands)
      ensures x in needed
    {
      NeededNext(f, id, x);
    }
  }

  lemma RootNeeded(f: Function, id: Id)
    requires IsNeed(f, [id])
    ensures IsNeeded(f, id)
  {
    assert Last([id]) == id;
  }

  /** Marked is what an instruction that is spared needs, through any number of operands. */
  lemma MarkedExactly(f: Function, live: set<Id>, id: Id)
    requires OperandsExist(f) && IsLiveSet(f, live)
    ensures id in live <==> id in f.code && IsNeeded(f, id)
  {
    var needed := set x | x in f.code && IsNeeded(f, x);
    NeededClosed(f, needed);
    if id in f.code && IsNeeded(f, id) {
      var chain: seq<Id> :| IsNeed(f, chain) && Last(chain) == id;
      NeedIsLive(f, live, chain);
    }
  }

  /** What is swept away: all instructions that nothing spared needs. */
  lemma SweptExactly(f: Function, live: set<Id>, id: Id)
    requires OperandsExist(f) && IsLiveSet(f, live) && id in AllIds(f)
    ensures id in SweepPlan(f, live).dead <==> !IsNeeded(f, id)
  {
    MarkedExactly(f, live, id);
    hide IsNeeded;
    var b :| b in f.blocks && id in f.blocks[b];
  }

  // ----- When elimination preserves every function

  ghost predicate LeavesMemory(m: Machine, op: Opcode) {
    forall ty, args, mem, v, mem' | m.sem(op, ty, args, mem, v, mem') :: mem' == mem
  }

  /** Whatever the function, without what is not marked it does what it did. */
  ghost predicate PreservesAlways(m: Machine) {
    forall f, live | WellFormed(f) && OperandsExist(f) && IsLiveSet(f, live) ::
      Preserves(m, f, Rewrite(f, SweepPlan(f, live)))
  }

  function Constants(args: seq<Word>): (vs: seq<Value>)
    ensures |vs| == |args| && forall i | 0 <= i < |args| :: vs[i] == Cst(args[i])
  {
    seq(|args|, i requires 0 <= i < |args| => Cst(args[i]))
  }

  /** One operation on constants, whose result is not used. */
  function Idle(op: Opcode, ty: nat, args: seq<Word>): Function {
    Function([0], map[0 := [0, 1]], map[0 := Instr(op, ty, Constants(args), 0), 1 := Instr(Ret, 0, [], 0)])
  }

  lemma NotSpared(op: Opcode)
    requires op !in SPARED
    ensures !IsTerminator(op) && !IsRoot(op)
  {
  }

  lemma IdleParts(op: Opcode, ty: nat, args: seq<Word>)
    requires op !in SPARED && op != Phi
    ensures WellFormed(Idle(op, ty, args)) && OperandsExist(Idle(op, ty, args))
  {
    hide SPARED;
    var f := Idle(op, ty, args);
    IdleCode(op, ty, args);
    hide TargetsExist, Used, Constants;
    assert 0 in f.order;
    assert f.blocks[0] == [0, 1];
    assert forall i | 0 <= i < 2 :: f.blocks[0][i] == i;
  }

  lemma IdleCode(op: Opcode, ty: nat, args: seq<Word>)
    requires op !in SPARED && op != Phi
    ensures var f := Idle(op, ty, args);
            && f.code.Keys == {0, 1}
            && (forall id | id in f.code :: TargetsExist(f, f.code[id]) && f.code[id].op != Phi)
            && (forall id | id in f.code :: f.code[id].parent == 0 && Used(f.code[id].operands) == {})
  {
    hide SPARED;
    NotSpared(op);
    assert Used(Constants(args)) == {} && Used([]) == {};
  }

  lemma IdleIds(op: Opcode, ty: nat, args: seq<Word>)
    ensures AllIds(Idle(op, ty, args)) == {0, 1}
  {
    var f := Idle(op, ty, args);
    assert f.blocks.Keys == {0} && f.blocks[0] == [0, 1];
    forall id
      ensures id in AllIds(f) <==> id == 0 || id == 1
    {
      assert id in [0, 1] <==> id == 0 || id == 1;
    }
  }

  lemma IdleLive(op: Opcode, ty: nat, args: seq<Word>)
    requires op !in SPARED && op != Phi
    ensures IsLiveSet(Idle(op, ty, args), {1})
    ensures SweepPlan(Idle(op, ty, args), {1}) == Plan({0}, map[])
  {
    hide SPARED;
    var f := Idle(op, ty, args);
    IdleParts(op, ty, args);
    IdleIds(op, ty, args);
    NotSpared(op);
    assert Roots(f.blocks[0], f.code) == {1};
    assert LiveClosed(f, {1});
  }

  lemma IdleSwept(op: Opcode, ty: nat, args: seq<Word>, g: Function)
    requires g == Rewrite(Idle(op, ty, args), Plan({0}, map[]))
    ensures g.order == [0] && g.blocks == map[0 := [1]] && 1 in g.code && g.code[1] == Instr(Ret, 0, [], 0)
  {
    var dead: set<Id> := {0};
    assert [0, 1][1..] == [1] && [1][1..] == [];
    assert Keep([0, 1], dead) == [1];
    assert SubstAll([], map[]) == [];
  }

  lemma IdleReturns(m: Machine, op: Opcode, ty: nat, args: seq<Word>, mem: Memory, v: Word, mem': Memory)
    requires op !in SPARED && op != Phi && m.sem(op, ty, args, mem, v, mem')
    ensures MayReturn(m, Idle(op, ty, args), mem, [0], None, mem')
  {
    hide SPARED;
    NotSpared(op);
    var f := Idle(op, ty, args);
    var s0 := State([0], 0, map[], mem, None);
    var s1 := State([0], 1, map[0 := v], mem', None);
    var s2 := s1.(ret := Some(None));
    assert FetchAll(f.code[0].operands, s0.env, m.params) == args;
    assert OpStep(m, 0, f.code[0], s0, s1);
    assert Step(m, f, s0, s1) && Step(m, f, s1, s2);
    assert IsRun(m, f, [s0, s1, s2]);
  }

  lemma {:induction false} OnlyReturns(m: Machine, g: Function, run: seq<State>)
    requires g.order == [0] && g.blocks == map[0 := [1]] && 1 in g.code && g.code[1] == Instr(Ret, 0, [], 0)
    requires IsRun(m, g, run)
    ensures Last(run).mem == run[0].mem && Last(run).path == [0]
    decreases |run|
  {
    if |run| > 1 {
      RunShrinks(m, g, run);
      OnlyReturns(m, g, run[..|run| - 1]);
      var s := run[|run| - 2];
      assert s.pc == 0 ==> InstrStep(m, 1, g.code[1], s, Last(run));
    }
  }

  /** An operation that writes memory, but is not spared, is lost where its result is not used. */
  lemma WriteLost(m: Machine, op: Opcode, ty: nat, args: seq<Word>, mem: Memory, v: Word, mem': Memory)
    requires op !in SPARED && op != Phi && m.sem(op, ty, args, mem, v, mem') && mem' != mem
    ensures !PreservesAlways(m)
  {
    var f := Idle(op, ty, args);
    hide *;
    IdleParts(op, ty, args);
    IdleLive(op, ty, args);
    IdleReturns(m, op, ty, args, mem, v, mem');
    var g := Rewrite(f, SweepPlan(f, {1}));
    IdleSwept(op, ty, args, g);
    NotReturned(m, g, mem, mem');
    NotAlways(m, f, {1}, mem, [0], None, mem');
  }

  lemma NotReturned(m: Machine, g: Function, mem: Memory, mem': Memory)
    requires g.order == [0] && g.blocks == map[0 := [1]] && 1 in g.code && g.code[1] == Instr(Ret, 0, [], 0)
    requires mem' != mem
    ensures !MayReturn(m, g, mem, [0], None, mem')
  {
    hide IsRun;
    forall run: seq<State> | IsRun(m, g, run)
      ensures run != [] && Last(run).mem == run[0].mem
    {
      NotEmpty(m, g, run);
      OnlyReturns(m, g, run);
    }
  }

  lemma NotEmpty(m: Machine, g: Function, run: seq<State>)
    requires IsRun(m, g, run)
    ensures run != []
  {
  }

  lemma NotAlways(m: Machine, f: Function, live: set<Id>, mem: Memory, path: seq<BlockId>, ret: Option<Word>,
                  mem': Memory)
    requires WellFormed(f) && OperandsExist(f) && IsLiveSet(f, live)
    requires MayReturn(m, f, mem, path, ret, mem')
    requires !MayReturn(m, Rewrite(f, SweepPlan(f, live)), mem, path, ret, mem')
    ensures !PreservesAlways(m)
  {
    hide WellFormed, OperandsExist, IsLiveSet, MayReturn, Rewrite, SweepPlan;
  }

  /**
   Elimination preserves all functions exactly on machines where no operation writes memory but
   those that are spared.
   */
  lemma EliminationExactly(m: Machine)
    ensures PreservesAlways(m) <==> forall op | op !in SPARED && op != Phi :: LeavesMemory(m, op)
  {
    hide *;
    if forall op | op !in SPARED && op != Phi :: LeavesMemory(m, op) {
      SparedListed(m);
      ListedPreserves(m);
    } else {
      var op :| op !in SPARED && op != Phi && !LeavesMemory(m, op);
      WriterLost(m, op);
    }
  }

  lemma WriterLost(m: Machine, op: Opcode)
    requires op !in SPARED && op != Phi && !LeavesMemory(m, op)
    ensures !PreservesAlways(m)
  {
    var ty, args, mem, v, mem' :| m.sem(op, ty, args, mem, v, mem') && mem' != mem;
    hide *;
    WriteLost(m, op, ty, args, mem, v, mem');
  }

  lemma SparedListed(m: Machine)
    requires forall op | op !in SPARED && op != Phi :: LeavesMemory(m, op)
    ensures EffectsListed(m)
  {
    hide SPARED, IsRoot;
    forall op, ty, args, mem, v, mem' | m.sem(op, ty, args, mem, v, mem') && !IsRoot(op) && op != Phi
      ensures mem' == mem
    {
      RootIsSpared(op);
      assert LeavesMemory(m, op);
    }
  }

  lemma ListedPreserves(m: Machine)
    requires EffectsListed(m)
    ensures PreservesAlways(m)
  {
    hide WellFormed, OperandsExist, IsLiveSet, Preserves, Rewrite, SweepPlan, EffectsListed;
    forall f, live | WellFormed(f) && OperandsExist(f) && IsLiveSet(f, live)
      ensures Preserves(m, f, Rewrite(f, SweepPlan(f, live)))
    {
      EliminationPreservesRuns(m, f, live);
    }
  }
}
