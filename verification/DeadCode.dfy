/**
 Mark-and-sweep elimination of dead instructions: the marked set is the least one
 with every effect, every terminator and every operand of what it holds, and
 sweeping the rest leaves all runs as they were.
 */
module DeadCode {
  import opened IR
  import opened Simulation
  import opened Erasure

  predicate IsStore(op: Opcode) {
    || op.Store? || op.Stored? || op.Stores? || op.Storel? || op.Storeh? || op.Storeb?
    || op.VStore? || op.VScatter?
  }

  predicate HasSideEffects(op: Opcode) {
    op.Call? || op.Syscall? || IsStore(op) || op.Ret?
  }

  predicate IsRoot(op: Opcode) {
    HasSideEffects(op) || IsTerminator(op)
  }

  /** Whatever is not listed as a side effect or terminator leaves memory alone, as phis do in any case. */
  ghost predicate EffectsListed(m: Machine) {
    forall op, ty, args, mem, v, mem' | m.sem(op, ty, args, mem, v, mem') && !IsRoot(op) && op != Phi :: mem' == mem
  }

  ghost function Roots(list: seq<Id>, code: map<Id, Instr>): set<Id> {
    set id | id in list && id in code && IsRoot(code[id].op)
  }

  /** The instructions among the operands. */
  ghost function Used(operands: seq<Value>): set<Id> {
    set v | v in operands && v.Inst? :: v.id
  }

  ghost predicate OperandsExist(f: Function) {
    && (forall b, id | b in f.blocks && id in f.blocks[b] :: id in f.code)
    && (forall id | id in f.code :: Used(f.code[id].operands) <= f.code.Keys)
  }

  /** A set that holds the roots and the operands of whatever it holds. */
  ghost predicate LiveClosed(f: Function, s: set<Id>) {
    && (forall b | b in f.blocks :: Roots(f.blocks[b], f.code) <= s)
    && (forall id | id in s && id in f.code :: Used(f.code[id].operands) <= s)
  }

  ghost predicate IsLiveSet(f: Function, live: set<Id>) {
    LiveClosed(f, live) && forall s: set<Id> | LiveClosed(f, s) :: live <= s
  }

  method MarkRoots(list: seq<Id>, code: map<Id, Instr>, live: set<Id>) returns (live': set<Id>)
    requires forall id | id in list :: id in code
    ensures live' == live + Roots(list, code)
  {
    live' := live;
    for k := 0 to |list|
      invariant live' == live + Roots(list[..k], code)
    {
      assert list[..k + 1] == list[..k] + [list[k]];
      if IsRoot(code[list[k]].op) {
        live' := live' + {list[k]};
      }
    }
    assert list[..|list|] == list;
  }

  /** Inserts the operands that are instructions, and queues the new ones. */
  method MarkOperands(operands: seq<Value>, live: set<Id>, worklist: set<Id>)
    returns (live': set<Id>, worklist': set<Id>)
    ensures live' == live + Used(operands)
    ensures worklist' == worklist + (Used(operands) - live)
  {
    live', worklist' := live, worklist;
    for k := 0 to |operands|
      invariant live' == live + Used(operands[..k])
      invariant worklist' == worklist + (Used(operands[..k]) - live)
    {
      assert operands[..k + 1] == operands[..k] + [operands[k]];
      UsedNext(operands, k);
      if operands[k].Inst? && operands[k].id !in live' {
        live' := live' + {operands[k].id};
        worklist' := worklist' + {operands[k].id};
      }
    }
    assert operands[..|operands|] == operands;
  }

  lemma UsedNext(operands: seq<Value>, k: nat)
    requires k < |operands|
    ensures Used(operands[..k + 1]) == Used(operands[..k]) + (if operands[k].Inst? then {operands[k].id} else {})
  {
    assert operands[..k + 1] == operands[..k] + [operands[k]];
  }

  /** Every root is marked, nothing is marked without need, and marked instructions await or have had their operands. */
  ghost predicate Marking(f: Function, live: set<Id>, worklist: set<Id>) {
    && worklist <= live <= f.code.Keys
    && (forall b | b in f.blocks :: Roots(f.blocks[b], f.code) <= live)
    && (forall id | id in live - worklist && id in f.code :: Used(f.code[id].operands) <= live)
    && (forall s: set<Id> | LiveClosed(f, s) :: live <= s)
  }

  lemma MarkingKeeps(f: Function, live: set<Id>, worklist: set<Id>, curr: Id)
    requires OperandsExist(f) && Marking(f, live, worklist) && curr in worklist
    ensures curr in f.code
    ensures Marking(f, live + Used(f.code[curr].operands),
                    worklist - {curr} + (Used(f.code[curr].operands) - live))
  {
  }

  method MarkAllRoots(f: Function) returns (live: set<Id>)
    requires WellFormed(f) && OperandsExist(f)
    ensures Marking(f, live, live)
  {
    live := {};
    for k := 0 to |f.order|
      invariant forall i | 0 <= i < k && f.order[i] in f.blocks :: Roots(f.blocks[f.order[i]], f.code) <= live
      invariant live <= f.code.Keys && forall s: set<Id> | LiveClosed(f, s) :: live <= s
    {
      assert f.order[k] in f.order;
      live := MarkRoots(f.blocks[f.order[k]], f.code, live);
    }
  }

  /** Marks from the roots through operands until the worklist is empty. */
  method MarkLive(f: Function) returns (live: set<Id>)
    requires WellFormed(f) && OperandsExist(f)
    ensures IsLiveSet(f, live)
  {
    live := MarkAllRoots(f);
    hide *;
    var worklist := live;
    while worklist != {}
      invariant Marking(f, live, worklist)
      decreases f.code.Keys - live, worklist
    {
      var curr :| curr in worklist;
      MarkingKeeps(f, live, worklist, curr);
      ghost var live0 := live;
      live, worklist := MarkOperands(f.code[curr].operands, live, worklist - {curr});
      MarkingBound(f, live, worklist);
      assert live0 <= live;
    }
    MarkingDone(f, live);
  }

  lemma MarkingBound(f: Function, live: set<Id>, worklist: set<Id>)
    requires Marking(f, live, worklist)
    ensures worklist <= live <= f.code.Keys
  {
  }

  lemma MarkingDone(f: Function, live: set<Id>)
    requires Marking(f, live, {})
    ensures IsLiveSet(f, live)
  {
  }

  // ----- Sweeping

  ghost function AllIds(f: Function): set<Id> {
    set b, id | b in f.blocks && id in f.blocks[b] :: id
  }

  ghost function SweepPlan(f: Function, live: set<Id>): Plan {
    Plan(AllIds(f) - live, map[])
  }

  /** One block's sweep. */
  method SweepBlock(list: seq<Id>, code: map<Id, Instr>, live: set<Id>, ghost dead: set<Id>)
    returns (kept: seq<Id>, removed: nat)
    requires forall id | id in list :: id in code && (id in dead <==> id !in live)
    requires Roots(list, code) <= live
    ensures kept == Keep(list, dead) && removed == |list| - |kept|
    ensures removed == 0 ==> kept == list
  {
    kept, removed := [], 0;
    for k := 0 to |list|
      invariant kept == Keep(list[..k], dead) && removed == k - |kept|
      invariant removed == 0 ==> kept == list[..k]
    {
      var op := code[list[k]].op;
      KeepNext(list, k, dead);
      if list[k] !in live && !HasSideEffects(op) && !IsTerminator(op) {
        removed := removed + 1;
      } else {
        assert list[k] in live;
        kept := kept + [list[k]];
      }
    }
    assert list[..|list|] == list;
  }

  ghost predicate SweptBefore(f: Function, g: Function, dead: set<Id>, k: nat)
    requires k <= |f.order|
  {
    && g.order == f.order && g.code == f.code && g.blocks.Keys == f.blocks.Keys
    && (forall b | b in f.order[..k] && b in f.blocks :: g.blocks[b] == Keep(f.blocks[b], dead))
    && (forall b | b in f.blocks && b !in f.order[..k] :: g.blocks[b] == f.blocks[b])
  }

  /** The number of instructions in the listed blocks. */
  function Size(blocks: map<BlockId, seq<Id>>, order: seq<BlockId>): nat
    requires forall b | b in order :: b in blocks
  {
    if order == [] then 0 else |blocks[order[0]]| + Size(blocks, order[1..])
  }

  lemma {:induction false} SizeElsewhere(blocks: map<BlockId, seq<Id>>, order: seq<BlockId>, b: BlockId, list: seq<Id>)
    requires forall b | b in order :: b in blocks
    requires b !in order
    ensures Size(blocks[b := list], order) == Size(blocks, order)
  {
    if order != [] { SizeElsewhere(blocks, order[1..], b, list); }
  }

  lemma {:induction false} SizeUpdate(blocks: map<BlockId, seq<Id>>, order: seq<BlockId>, k: nat, list: seq<Id>)
    requires forall b | b in order :: b in blocks
    requires k < |order| && forall i, j | 0 <= i < j < |order| :: order[i] != order[j]
    ensures Size(blocks[order[k] := list], order) + |blocks[order[k]]| == Size(blocks, order) + |list|
  {
    if k == 0 {
      SizeElsewhere(blocks, order[1..], order[0], list);
    } else {
      SizeUpdate(blocks, order[1..], k - 1, list);
    }
  }

  lemma SweepReady(f: Function, g: Function, live: set<Id>, k: nat)
    requires WellFormed(f) && OperandsExist(f) && k < |f.order| && IsLiveSet(f, live)
    requires SweptBefore(f, g, SweepPlan(f, live).dead, k)
    ensures f.order[k] in f.blocks && g.blocks[f.order[k]] == f.blocks[f.order[k]]
    ensures var list := f.blocks[f.order[k]];
            && Roots(list, f.code) <= live
            && forall id | id in list :: id in f.code && (id in SweepPlan(f, live).dead <==> id !in live)
    ensures forall b | b in f.order :: b in g.blocks
    ensures forall i, j | 0 <= i < j < |f.order| :: f.order[i] != f.order[j]
  {
    assert f.order[k] in f.order && f.order[k] !in f.order[..k];
  }

  lemma SweepNext(f: Function, g: Function, g': Function, dead: set<Id>, k: nat)
    requires WellFormed(f) && k < |f.order| && f.order[k] in f.blocks && SweptBefore(f, g, dead, k)
    requires g' == g.(blocks := g.blocks[f.order[k] := Keep(f.blocks[f.order[k]], dead)])
    ensures SweptBefore(f, g', dead, k + 1)
  {
    assert f.order[..k + 1] == f.order[..k] + [f.order[k]];
    assert f.order[k] !in f.order[..k];
    hide WellFormed, Keep;
  }

  lemma SweepDone(f: Function, g: Function, dead: set<Id>)
    requires WellFormed(f) && SweptBefore(f, g, dead, |f.order|)
    ensures g == Rewrite(f, Plan(dead, map[]))
  {
    var g' := Rewrite(f, Plan(dead, map[]));
    assert f.order[..|f.order|] == f.order;
    assert g.blocks == g'.blocks;
    forall id | id in f.code
      ensures SubstAll(f.code[id].operands, map[]) == f.code[id].operands
    {
    }
    assert g'.code == f.code;
  }

  lemma SweepPlanIs(f: Function, live: set<Id>)
    ensures SweepPlan(f, live) == Plan(SweepPlan(f, live).dead, map[])
  {
  }

  lemma SameBlocks(g: Function, b: BlockId)
    requires b in g.blocks
    ensures g.(blocks := g.blocks[b := g.blocks[b]]) == g
  {
    assert g.blocks[b := g.blocks[b]] == g.blocks;
  }

  lemma SizeDefined(f: Function, g: Function, dead: set<Id>, k: nat)
    requires WellFormed(f) && k <= |f.order| && SweptBefore(f, g, dead, k)
    ensures forall b | b in f.order :: b in g.blocks && b in f.blocks
  {
  }

  lemma NothingSwept(f: Function, dead: set<Id>)
    ensures SweptBefore(f, f, dead, 0)
  {
  }

  /** Sweeps what is not marked; `removed` counts the instructions gone. */
  method EliminateDeadInstructions(f: Function) returns (g: Function, removed: nat, ghost live: set<Id>)
    requires WellFormed(f) && OperandsExist(f)
    ensures IsLiveSet(f, live) && g == Rewrite(f, SweepPlan(f, live))
    ensures forall b | b in f.order :: b in f.blocks && b in g.blocks
    ensures Size(g.blocks, f.order) + removed == Size(f.blocks, f.order)
    ensures removed == 0 ==> g == f
  {
    hide *;
    var marked := MarkLive(f);
    live := marked;
    ghost var dead := SweepPlan(f, live).dead;
    g, removed := f, 0;
    NothingSwept(f, dead);
    SizeDefined(f, f, dead, 0);
    for k := 0 to |f.order|
      invariant SweptBefore(f, g, dead, k)
      invariant forall b | b in f.order :: b in f.blocks && b in g.blocks
      invariant Size(g.blocks, f.order) + removed == Size(f.blocks, f.order)
      invariant removed == 0 ==> g == f
    {
      SweepReady(f, g, live, k);
      var b := f.order[k];
      var kept, n := SweepBlock(g.blocks[b], f.code, marked, dead);
      SizeUpdate(g.blocks, f.order, k, kept);
      SweepNext(f, g, g.(blocks := g.blocks[b := kept]), dead, k);
      SameBlocks(g, b);
      g := g.(blocks := g.blocks[b := kept]);
      removed := removed + n;
    }
    SweepDone(f, g, dead);
    SweepPlanIs(f, live);
  }

  // ----- Meaning

  lemma SweepClosed(f: Function, live: set<Id>)
    requires WellFormed(f) && OperandsExist(f) && IsLiveSet(f, live)
    ensures Closed(f, SweepPlan(f, live))
  {
    var plan := SweepPlan(f, live);
    forall id | id in plan.dead && id in f.code
      ensures !IsRoot(f.code[id].op)
    {
      DeadNotRoot(f, live, id);
    }
    forall b, i | b in f.blocks && 0 <= i < |f.blocks[b]| && f.blocks[b][i] in f.code && f.blocks[b][i] !in plan.dead
      ensures UsesCovered(f.code[f.blocks[b][i]].operands, plan)
    {
      var id := f.blocks[b][i];
      assert id in f.blocks[b] && id in AllIds(f);
      assert id in live;
      assert Used(f.code[id].operands) <= live;
    }
  }

  lemma DeadNotRoot(f: Function, live: set<Id>, id: Id)
    requires IsLiveSet(f, live) && id in SweepPlan(f, live).dead && id in f.code
    ensures !IsRoot(f.code[id].op)
  {
    var b :| b in f.blocks && id in f.blocks[b];
    assert Roots(f.blocks[b], f.code) <= live;
  }

  /** A step at an instruction that is no root leaves memory alone. */
  lemma QuietStep(m: Machine, f: Function, s: State, s': State)
    requires EffectsListed(m) && Step(m, f, s, s')
    requires s.pc < |f.blocks[Last(s.path)]|
    requires var id := f.blocks[Last(s.path)][s.pc]; id in f.code ==> !IsRoot(f.code[id].op)
    ensures s'.mem == s.mem
  {
  }

  lemma SweepConfirmed(m: Machine, f: Function, live: set<Id>)
    requires WellFormed(f) && OperandsExist(f) && IsLiveSet(f, live) && EffectsListed(m)
    ensures Confirmed(m, f, SweepPlan(f, live))
  {
    var plan := SweepPlan(f, live);
    hide WellFormed, OperandsExist, IsLiveSet, EffectsListed, Step, AllIds;
    forall run: seq<State> | IsRun(m, f, run)
      ensures RunConfirms(f, plan, run)
    {
      if |run| >= 2 && AtDead(f, plan, run[|run| - 2]) {
        var s := run[|run| - 2];
        assert Step(m, f, run[|run| - 1 - 1], run[|run| - 1]);
        if f.blocks[Last(s.path)][s.pc] in f.code {
          DeadNotRoot(f, live, f.blocks[Last(s.path)][s.pc]);
        }
        QuietStep(m, f, s, Last(run));
      }
    }
  }

  /**
   Elimination preserves all runs: with the same blocks, value and memory the swept function
   returns exactly what the original does; it can differ only where the original gets stuck.
   */
  lemma EliminationPreservesRuns(m: Machine, f: Function, live: set<Id>)
    requires WellFormed(f) && OperandsExist(f) && IsLiveSet(f, live) && EffectsListed(m)
    ensures Preserves(m, f, Rewrite(f, SweepPlan(f, live)))
  {
    SweepClosed(f, live);
    SweepConfirmed(m, f, live);
    ErasurePreserves(m, f, SweepPlan(f, live));
  }
}
