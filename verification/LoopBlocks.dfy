/**
 A loop of two blocks as a part of a function: what its runs are, step by step.
 */
module LoopBlocks {
  import opened IR
  import opened Reordering
  import opened BlockReordering
  import opened BlockRuns
  import opened ValueCloner
  import opened LoopUnroll
  import UnrollEquivalence

  /** Header and latch, their parts, and where the header leads when its condition is zero. */
  datatype Place = Place(header: BlockId, latch: BlockId, exit: BlockId, hs: Shape, ls: Shape)

  /** The loop's two blocks stand in the function: the header branches to the latch, the latch jumps back. */
  ghost predicate InFunction(f: Function, lp: Loop, at: Place) {
    && at.exit != at.latch && lp.phis != []
    && at.header in f.blocks && f.blocks[at.header] == lp.header == Assemble(at.hs) && ValidShape(f.code, at.hs)
    && at.latch in f.blocks && f.blocks[at.latch] == lp.latchBlock == Assemble(at.ls) && ValidShape(f.code, at.ls)
    && at.hs.phis == lp.phis && at.ls.phis == []
    && f.code[at.hs.term].op in {Jnz, Br}
    && f.code[at.hs.term].operands == [Inst(lp.cond), Blk(at.latch), Blk(at.exit)]
    && f.code[at.ls.term].op == Jmp && f.code[at.ls.term].operands == [Blk(at.header)]
    && (forall p | p in lp.phis :: p in lp.latch) && Receive(f.code, lp.phis, at.latch, lp.latch)
  }

  // ----- What is cloned of a block are its operations

  lemma ClonedExactly(op: Opcode)
    ensures IsCloned(op) <==> op !in {Phi, Jmp, Jnz, Jz, Br}
  {
  }

  lemma {:induction false} ClonedAll(list: seq<Id>, code: map<Id, Instr>)
    requires forall id | id in list :: id in code && code[id].op !in {Phi, Jmp, Jnz, Jz, Br}
    ensures ClonedOnly(list, code) == list
  {
    hide IsCloned;
    if list != [] {
      assert Last(list) in list && list == list[..|list| - 1] + [Last(list)];
      ClonedExactly(code[Last(list)].op);
      ClonedAll(list[..|list| - 1], code);
    }
  }

  lemma {:induction false} ClonedNone(list: seq<Id>, code: map<Id, Instr>)
    requires forall id | id in list :: id in code && code[id].op in {Phi, Jmp, Jnz, Jz, Br}
    ensures ClonedOnly(list, code) == []
  {
    hide IsCloned;
    if list != [] {
      assert Last(list) in list;
      ClonedExactly(code[Last(list)].op);
      ClonedNone(list[..|list| - 1], code);
    }
  }

  /** Of a block that ends in a jump, what stands between the phis and the jump is cloned, all of it and in order. */
  lemma ClonedShape(code: map<Id, Instr>, sh: Shape)
    requires ValidShape(code, sh) && code[sh.term].op in {Jmp, Jnz, Jz, Br}
    ensures ClonedOnly(Assemble(sh), code) == sh.body
  {
    hide ClonedOnly, IsPlain, IsTerminator;
    forall id | id in sh.body
      ensures code[id].op !in {Phi, Jmp, Jnz, Jz, Br}
    {
      PlainIsNoJump(code[id].op);
    }
    ClonedAll(sh.body, code);
    ClonedNone(sh.phis, code);
    ClonedNone([sh.term], code);
    hide ValidShape;
    ClonedConcat(sh.phis + sh.body, [sh.term], code);
    ClonedConcat(sh.phis, sh.body, code);
    assert [] + sh.body + [] == sh.body;
  }

  lemma PlainIsNoJump(op: Opcode)
    requires IsPlain(op)
    ensures op !in {Phi, Jmp, Jnz, Jz, Br}
  {
  }

  lemma LoopOps(f: Function, lp: Loop, at: Place)
    requires InFunction(f, lp, at)
    ensures HeaderOps(f.code, lp) == at.hs.body && LatchOps(f.code, lp) == at.ls.body
    ensures Body(f.code, lp) == at.hs.body + at.ls.body
  {
    hide ValidShape, Assemble, Receive, ClonedOnly;
    ClonedShape(f.code, at.hs);
    ClonedShape(f.code, at.ls);
    ClonedConcat(lp.header, lp.latchBlock, f.code);
  }

  // ----- Runs of the loop are runs of the function

  /** The blocks entered in n rounds. */
  function Trail(at: Place, n: nat): seq<BlockId> {
    if n == 0 then [] else [at.latch, at.header] + Trail(at, n - 1)
  }

  /** The header has been entered, and its phis are set. */
  ghost predicate AtHeader(f: Function, at: Place, s: State) {
    s.ret.None? && s.path != [] && Last(s.path) == at.header && s.pc == |at.hs.phis|
  }

  /** After n rounds, in front of the header's branch. */
  function AfterRounds(at: Place, n: nat, s: State, env: map<Id, Word>, mem: Memory): State {
    EndState(at.hs, s.(path := s.path + Trail(at, n)), env, mem)
  }

  /** At the header once more, its phis set. */
  function NextRound(at: Place, s: State, env: map<Id, Word>, mem: Memory): State {
    s.(path := s.path + [at.latch, at.header], pc := |at.hs.phis|, env := env, mem := mem)
  }

  lemma HeaderBegun(f: Function, lp: Loop, at: Place, s: State)
    requires InFunction(f, lp, at) && AtHeader(f, at, s)
    ensures Begun(f, at.hs, s) && BranchesTo(f, at.hs, lp.cond, at.latch, at.exit) && at.latch != at.exit
    ensures forall p | p in lp.phis :: p in lp.latch
  {
    hide Assemble, Receive;
  }

  lemma LatchBegun(f: Function, lp: Loop, at: Place, s: State, env: map<Id, Word>, mem: Memory)
    requires InFunction(f, lp, at) && AtHeader(f, at, s)
    ensures Begun(f, at.ls, EnterState(s, at.latch, env, mem)) && JumpsTo(f, at.ls, at.header)
  {
    hide Assemble, Receive;
  }

  /** Back at the header, in front of its phis. */
  function Returned(at: Place, s: State, env: map<Id, Word>, mem: Memory): State {
    EnterState(EnterState(s, at.latch, env, mem), at.header, env, mem)
  }

  /** The phis set again. */
  lemma PhisAgain(m: Machine, f: Function, lp: Loop, at: Place, s: State, env: map<Id, Word>, mem: Memory, s': State)
    requires InFunction(f, lp, at) && AtHeader(f, at, s)
    ensures forall p | p in lp.phis :: p in lp.latch
    ensures Step(m, f, Returned(at, s, env, mem), s') <==>
              && UnrollEquivalence.LatchesReady(m, lp, env)
              && s' == NextRound(at, s, UnrollEquivalence.NextPhis(m, lp, env), mem)
  {
    var a := Returned(at, s, env, mem);
    assert a.path == s.path + [at.latch, at.header];
    assert Arrived(f, at.hs, at.latch, a) && at.hs.phis == lp.phis != [] by {
      hide ValidShape, Assemble, Receive;
    }
    assert Receive(f.code, lp.phis, at.latch, lp.latch);
    assert NextRound(at, s, UnrollEquivalence.NextPhis(m, lp, env), mem)
        == a.(pc := |at.hs.phis|, env := UnrollEquivalence.NextPhis(m, lp, env));
    hide InFunction, Arrived, Step, Receive, NextRound, Returned;
    PhisPassed(m, f, at.hs, at.latch, a, s', lp.latch);
    hide Fetch, IR.Ready;
  }

  lemma TrailNext(at: Place, n: nat, s: State, env1: map<Id, Word>, mem1: Memory, env: map<Id, Word>, mem: Memory)
    requires n > 0
    ensures AfterRounds(at, n, s, env, mem) == AfterRounds(at, n - 1, NextRound(at, s, env1, mem1), env, mem)
    ensures AfterRounds(at, n, s, env, mem).path == s.path + ([at.latch] + ([at.header] + Trail(at, n - 1)))
  {
    assert s.path + ([at.latch, at.header] + Trail(at, n - 1)) == s.path + [at.latch, at.header] + Trail(at, n - 1);
    assert [at.latch, at.header] + Trail(at, n - 1) == [at.latch] + ([at.header] + Trail(at, n - 1));
  }

  lemma NextRoundIs(f: Function, at: Place, s: State, env: map<Id, Word>, mem: Memory)
    requires AtHeader(f, at, s)
    ensures AtHeader(f, at, NextRound(at, s, env, mem))
    ensures NextRound(at, s, env, mem).env == env && NextRound(at, s, env, mem).mem == mem
  {
  }

  lemma NoTrail(at: Place, s: State, env: map<Id, Word>, mem: Memory)
    ensures AfterRounds(at, 0, s, env, mem) == EndState(at.hs, s, env, mem)
    ensures var t := AfterRounds(at, 0, s, env, mem);
            t.path == s.path && t.pc == |at.hs.phis| + |at.hs.body| && t.env == env && t.mem == mem
  {
    assert s.path + [] == s.path;
  }

  // ----- Whatever the loop does, steps do

  /** One round, from the header to the header. */
  lemma RoundLeads(m: Machine, f: Function, lp: Loop, at: Place, s: State, envh: map<Id, Word>, memh: Memory,
                   env1: map<Id, Word>, mem1: Memory)
    requires InFunction(f, lp, at) && AtHeader(f, at, s)
    requires Runs(m, f.code, at.hs.body, s.env, s.mem, envh, memh) && lp.cond in envh && envh[lp.cond].bits != 0
    requires Runs(m, f.code, at.ls.body, envh, memh, env1, mem1) && UnrollEquivalence.LatchesReady(m, lp, env1)
    ensures forall p | p in lp.phis :: p in lp.latch
    ensures Reaches(m, f, s, NextRound(at, s, UnrollEquivalence.NextPhis(m, lp, env1), mem1))
  {
    hide *;
    HeaderBegun(f, lp, at, s);
    BranchLeads(m, f, at.hs, s, lp.cond, at.latch, at.exit, envh, memh);
    var l := EnterState(s, at.latch, envh, memh);
    EnterParts(s, at.latch, envh, memh);
    LatchBegun(f, lp, at, s, envh, memh);
    ThroughLeads(m, f, at.ls, l, at.header, env1, mem1);
    var a, s' := Returned(at, s, env1, mem1), NextRound(at, s, UnrollEquivalence.NextPhis(m, lp, env1), mem1);
    ReturnedFrom(at, s, envh, memh, env1, mem1);
    PhisAgain(m, f, lp, at, s, env1, mem1, s');
    StepReaches(m, f, a, s');
    ReachesThen(m, f, s, l, a);
    ReachesThen(m, f, s, a, s');
  }

  lemma ReturnedFrom(at: Place, s: State, envh: map<Id, Word>, memh: Memory, env: map<Id, Word>, mem: Memory)
    ensures EnterState(EnterState(s, at.latch, envh, memh), at.header, env, mem) == Returned(at, s, env, mem)
  {
  }

  lemma {:induction false} RoundsLead(m: Machine, f: Function, lp: Loop, at: Place, n: nat, s: State,
                                      envX: map<Id, Word>, memX: Memory)
    requires InFunction(f, lp, at) && AtHeader(f, at, s)
    requires UnrollEquivalence.Rounds(m, f.code, lp, n, s.env, s.mem, envX, memX)
    ensures Reaches(m, f, s, AfterRounds(at, n, s, envX, memX)) && lp.cond in envX && envX[lp.cond].bits == 0
    decreases n
  {
    hide *;
    LoopOps(f, lp, at);
    HeaderBegun(f, lp, at, s);
    var envh, memh := HeaderRun(m, f.code, lp, n, s.env, s.mem, envX, memX);
    if n == 0 {
      BodyLeads(m, f, at.hs, s, envh, memh);
      NoTrail(at, s, envh, memh);
    } else {
      var env1, mem1 := RoundRun(m, f.code, lp, n, envh, memh, envX, memX);
      var env2 := UnrollEquivalence.NextPhis(m, lp, env1);
      RoundLeads(m, f, lp, at, s, envh, memh, env1, mem1);
      var s' := NextRound(at, s, env2, mem1);
      NextRoundIs(f, at, s, env2, mem1);
      RoundsLead(m, f, lp, at, n - 1, s', envX, memX);
      TrailNext(at, n, s, env2, mem1, envX, memX);
      ReachesThen(m, f, s, s', AfterRounds(at, n, s, envX, memX));
    }
  }

  lemma HeaderRun(m: Machine, code: map<Id, Instr>, lp: Loop, n: nat, env: map<Id, Word>, mem: Memory,
                  envX: map<Id, Word>, memX: Memory)
    returns (envh: map<Id, Word>, memh: Memory)
    requires UnrollEquivalence.Rounds(m, code, lp, n, env, mem, envX, memX)
    ensures Runs(m, code, HeaderOps(code, lp), env, mem, envh, memh) && lp.cond in envh
    ensures if n == 0 then envh[lp.cond].bits == 0 && envX == envh && memX == memh
            else envh[lp.cond].bits != 0 && UnrollEquivalence.Round(m, code, lp, n, envh, memh, envX, memX)
  {
    hide Runs, UnrollEquivalence.Round;
    envh, memh :|
      && Runs(m, code, HeaderOps(code, lp), env, mem, envh, memh) && lp.cond in envh
      && if n == 0 then envh[lp.cond].bits == 0 && envX == envh && memX == memh
         else envh[lp.cond].bits != 0 && UnrollEquivalence.Round(m, code, lp, n, envh, memh, envX, memX);
  }

  lemma RoundRun(m: Machine, code: map<Id, Instr>, lp: Loop, n: nat, envh: map<Id, Word>, memh: Memory,
                 envX: map<Id, Word>, memX: Memory)
    returns (env1: map<Id, Word>, mem1: Memory)
    requires n > 0 && UnrollEquivalence.Round(m, code, lp, n, envh, memh, envX, memX)
    ensures Runs(m, code, LatchOps(code, lp), envh, memh, env1, mem1) && UnrollEquivalence.LatchesReady(m, lp, env1)
    ensures forall p | p in lp.phis :: p in lp.latch
    ensures UnrollEquivalence.Rounds(m, code, lp, n - 1, UnrollEquivalence.NextPhis(m, lp, env1), mem1, envX, memX)
  {
    hide Runs, UnrollEquivalence.Rounds;
    env1, mem1 :|
      && Runs(m, code, LatchOps(code, lp), envh, memh, env1, mem1) && UnrollEquivalence.LatchesReady(m, lp, env1)
      && UnrollEquivalence.Rounds(m, code, lp, n - 1, UnrollEquivalence.NextPhis(m, lp, env1), mem1, envX, memX);
  }

  // ----- Whatever steps do, the loop does

  /** One round, passed from the header to the header. */
  lemma RoundPassed(m: Machine, f: Function, lp: Loop, at: Place, k: nat, s: State, t: State, rest: seq<BlockId>)
    returns (envh: map<Id, Word>, memh: Memory, env1: map<Id, Word>, mem1: Memory, j: nat)
    requires InFunction(f, lp, at) && AtHeader(f, at, s) && Leads(m, f, k, s, t)
    requires t.path == s.path + ([at.latch] + ([at.header] + rest)) && t.pc > 0
    ensures Runs(m, f.code, at.hs.body, s.env, s.mem, envh, memh) && lp.cond in envh && envh[lp.cond].bits != 0
    ensures Runs(m, f.code, at.ls.body, envh, memh, env1, mem1) && UnrollEquivalence.LatchesReady(m, lp, env1)
    ensures forall p | p in lp.phis :: p in lp.latch
    ensures Leads(m, f, j, NextRound(at, s, UnrollEquivalence.NextPhis(m, lp, env1), mem1), t)
  {
    hide *;
    HeaderBegun(f, lp, at, s);
    var l, i := BranchPassed(m, f, at.hs, k, s, t, lp.cond, at.latch, at.exit, at.latch, [at.header] + rest);
    envh, memh := l.env, l.mem;
    EnterParts(s, at.latch, envh, memh);
    LongerPath(s.path, at.latch, [at.header] + rest);
    LatchBegun(f, lp, at, s, envh, memh);
    var a, i' := ThroughPassed(m, f, at.ls, i, l, t, at.header, rest);
    env1, mem1 := a.env, a.mem;
    EnterParts(l, at.header, env1, mem1);
    ReturnedFrom(at, s, envh, memh, env1, mem1);
    NoLead(m, f, a, t);
    var s' := FirstLead(m, f, i', a, t);
    PhisAgain(m, f, lp, at, s, env1, mem1, s');
    j := i' - 1;
  }

  lemma AfterRoundsIs(f: Function, lp: Loop, at: Place, n: nat, s: State, env: map<Id, Word>, mem: Memory)
    requires InFunction(f, lp, at)
    ensures var t := AfterRounds(at, n, s, env, mem);
            t.pc == |at.hs.phis| + |at.hs.body| && t.pc > 0 && t.env == env && t.mem == mem
    ensures at.hs.term in f.code && f.code[at.hs.term].op in {Jmp, Jnz, Br}
  {
    hide Assemble, Receive;
  }

  lemma {:induction false} LeadsRounds(m: Machine, f: Function, lp: Loop, at: Place, n: nat, k: nat, s: State,
                                       envX: map<Id, Word>, memX: Memory)
    requires InFunction(f, lp, at) && AtHeader(f, at, s)
    requires Leads(m, f, k, s, AfterRounds(at, n, s, envX, memX))
    requires lp.cond in envX && envX[lp.cond].bits == 0
    ensures UnrollEquivalence.Rounds(m, f.code, lp, n, s.env, s.mem, envX, memX)
    decreases n
  {
    hide *;
    LoopOps(f, lp, at);
    var t := AfterRounds(at, n, s, envX, memX);
    AfterRoundsIs(f, lp, at, n, s, envX, memX);
    if n == 0 {
      HeaderBegun(f, lp, at, s);
      NoTrail(at, s, envX, memX);
      BodyIsLast(m, f, at.hs, k, s, t);
      RoundsNone(m, f.code, lp, s.env, s.mem, envX, memX);
    } else {
      TrailNext(at, n, s, envX, memX, envX, memX);
      var envh, memh, env1, mem1, j := RoundPassed(m, f, lp, at, k, s, t, Trail(at, n - 1));
      var env2 := UnrollEquivalence.NextPhis(m, lp, env1);
      TrailNext(at, n, s, env2, mem1, envX, memX);
      NextRoundIs(f, at, s, env2, mem1);
      LeadsRounds(m, f, lp, at, n - 1, j, NextRound(at, s, env2, mem1), envX, memX);
      RoundsOneMore(m, f.code, lp, n, s.env, s.mem, envh, memh, env1, mem1, envX, memX);
    }
  }

  lemma RoundsNone(m: Machine, code: map<Id, Instr>, lp: Loop, env: map<Id, Word>, mem: Memory,
                   envX: map<Id, Word>, memX: Memory)
    requires Runs(m, code, HeaderOps(code, lp), env, mem, envX, memX) && lp.cond in envX && envX[lp.cond].bits == 0
    ensures UnrollEquivalence.Rounds(m, code, lp, 0, env, mem, envX, memX)
  {
    hide Runs;
  }

  lemma RoundsOneMore(m: Machine, code: map<Id, Instr>, lp: Loop, n: nat, env: map<Id, Word>, mem: Memory,
                      envh: map<Id, Word>, memh: Memory, env1: map<Id, Word>, mem1: Memory,
                      envX: map<Id, Word>, memX: Memory)
    requires n > 0 && Runs(m, code, HeaderOps(code, lp), env, mem, envh, memh)
    requires lp.cond in envh && envh[lp.cond].bits != 0
    requires Runs(m, code, LatchOps(code, lp), envh, memh, env1, mem1) && UnrollEquivalence.LatchesReady(m, lp, env1)
    requires forall p | p in lp.phis :: p in lp.latch
    requires UnrollEquivalence.Rounds(m, code, lp, n - 1, UnrollEquivalence.NextPhis(m, lp, env1), mem1, envX, memX)
    ensures UnrollEquivalence.Rounds(m, code, lp, n, env, mem, envX, memX)
  {
    hide Runs, UnrollEquivalence.Rounds;
    assert UnrollEquivalence.Round(m, code, lp, n, envh, memh, envX, memX);
    hide UnrollEquivalence.Round;
    RoundsFold(m, code, lp, n, env, mem, envh, memh, envX, memX);
  }

  lemma RoundsFold(m: Machine, code: map<Id, Instr>, lp: Loop, n: nat, env: map<Id, Word>, mem: Memory,
                   envh: map<Id, Word>, memh: Memory, envX: map<Id, Word>, memX: Memory)
    requires n > 0 && Runs(m, code, HeaderOps(code, lp), env, mem, envh, memh)
    requires lp.cond in envh && envh[lp.cond].bits != 0
    requires UnrollEquivalence.Round(m, code, lp, n, envh, memh, envX, memX)
    ensures UnrollEquivalence.Rounds(m, code, lp, n, env, mem, envX, memX)
  {
    hide Runs, UnrollEquivalence.Round;
  }

  /**
   n rounds of the loop, with the header's condition zero in the end, are exactly what steps of
   the function make that enter latch and header n times.
   */
  lemma LoopRunsExactly(m: Machine, f: Function, lp: Loop, at: Place, n: nat, s: State, envX: map<Id, Word>,
                        memX: Memory)
    requires InFunction(f, lp, at) && AtHeader(f, at, s)
    ensures UnrollEquivalence.Rounds(m, f.code, lp, n, s.env, s.mem, envX, memX) <==>
              && lp.cond in envX && envX[lp.cond].bits == 0
              && Reaches(m, f, s, AfterRounds(at, n, s, envX, memX))
  {
    hide InFunction, AtHeader, AfterRounds, UnrollEquivalence.Rounds, Leads;
    if UnrollEquivalence.Rounds(m, f.code, lp, n, s.env, s.mem, envX, memX) {
      RoundsLead(m, f, lp, at, n, s, envX, memX);
    } else if lp.cond in envX && envX[lp.cond].bits == 0 && Reaches(m, f, s, AfterRounds(at, n, s, envX, memX)) {
      var k: nat :| Leads(m, f, k, s, AfterRounds(at, n, s, envX, memX));
      LeadsRounds(m, f, lp, at, n, k, s, envX, memX);
    }
  }
}
