/**
 A block that ends in Jnz: the scheduler takes the branch for an ordinary operation
 and may place it ahead of operations it does not depend on.
 */
module SchedulerBranch {
  import opened IR
  import opened Reordering
  import opened InstructionScheduler
  import opened SchedulingRuns

  const BLOCK: seq<Id> := [0, 1, 2, 3]

  /** Two copies, a negation of the second, a branch on the first; then a return of the negation. */
  ghost predicate BranchCode(code: map<Id, Instr>) {
    && 0 in code && code[0] == Instr(Copy, 32, [Arg(0)], 0)
    && 1 in code && code[1] == Instr(Copy, 32, [Arg(0)], 0)
    && 2 in code && code[2] == Instr(Neg, 32, [Inst(1)], 0)
    && 3 in code && code[3] == Instr(Jnz, 0, [Inst(0), Blk(1), Blk(1)], 0)
    && 4 in code && code[4] == Instr(Ret, 0, [Inst(2)], 1)
  }

  ghost predicate BranchFunction(f: Function) {
    && f.order == [0, 1] && f.blocks == map[0 := BLOCK, 1 := [4]] && BranchCode(f.code)
  }

  lemma BranchExists() returns (f: Function)
    ensures BranchFunction(f)
  {
    var code := map[
      0 := Instr(Copy, 32, [Arg(0)], 0),
      1 := Instr(Copy, 32, [Arg(0)], 0),
      2 := Instr(Neg, 32, [Inst(1)], 0),
      3 := Instr(Jnz, 0, [Inst(0), Blk(1), Blk(1)], 0),
      4 := Instr(Ret, 0, [Inst(2)], 1)
    ];
    f := Function([0, 1], map[0 := BLOCK, 1 := [4]], code);
  }

  // ----- The schedule of its first block

  lemma AscendingPair(list: seq<nat>)
    requires Ascending(list)
    ensures |list| <= 1 || list[0] < list[1]
  {
  }

  lemma DistinctPair(list: seq<nat>)
    requires Distinct(list)
    ensures |list| <= 1 || list[0] != list[1]
  {
  }

  lemma HasElements(list: seq<nat>)
    ensures list == [] || (list[0] in list && (|list| > 1 ==> list[1] in list))
  {
  }

  lemma OneMember(list: seq<nat>, x: nat)
    requires (Ascending(list) || Distinct(list)) && forall y: nat :: y in list <==> y == x
    ensures list == [x]
  {
    assert x in list;
    HasElements(list);
    if Ascending(list) { AscendingPair(list); } else { DistinctPair(list); }
  }

  lemma NoMember(list: seq<nat>)
    requires forall y: nat :: y !in list
    ensures list == []
  {
    HasElements(list);
  }

  lemma BranchDepends(code: map<Id, Instr>, i: nat, j: nat)
    requires BranchCode(code)
    ensures forall id | id in BLOCK :: id in code
    ensures Depends(code, BLOCK, i, j) <==> (i == 1 && j == 2) || (i == 0 && j == 3)
  {
  }

  lemma BranchDag(code: map<Id, Instr>, dag: Dag)
    requires BranchCode(code) && forall id | id in BLOCK :: id in code
    requires IsDagOf(dag, code, BLOCK)
    ensures dag == Dag([[], [], [1], [0]], [[3], [2], [], []])
  {
    forall i: nat, j: nat | j < 4
      ensures i in dag.preds[j] <==> (i == 1 && j == 2) || (i == 0 && j == 3)
    {
      BranchDepends(code, i, j);
    }
    hide Depends, BranchCode, Distinct, Ascending;
    BranchLists(dag);
  }

  lemma BranchLists(dag: Dag)
    requires ValidDag(dag) && |dag.preds| == 4
    requires forall i: nat, j: nat | j < 4 :: i in dag.preds[j] <==> (i == 1 && j == 2) || (i == 0 && j == 3)
    ensures dag == Dag([[], [], [1], [0]], [[3], [2], [], []])
  {
    NoMember(dag.preds[0]);
    NoMember(dag.preds[1]);
    OneMember(dag.preds[2], 1);
    OneMember(dag.preds[3], 0);
    hide Distinct;
    OneMember(dag.succs[0], 3);
    OneMember(dag.succs[1], 2);
    NoMember(dag.succs[2]);
    NoMember(dag.succs[3]);
  }

  lemma LatencyNext(front: seq<Id>, x: Id, code: map<Id, Instr>)
    requires (forall id | id in front :: id in code) && x in code
    ensures forall id | id in front + [x] :: id in code
    ensures Latencies(front + [x], code, {}) == Latencies(front, code, {}) + [Latency(code[x].op, false)]
  {
    assert (front + [x])[..|front|] == front;
  }

  lemma BranchOps(code: map<Id, Instr>)
    requires BranchCode(code)
    ensures forall id | id in BLOCK :: id in code && Latency(code[id].op, false) == 1
    ensures 0 in BLOCK && 1 in BLOCK && 2 in BLOCK && 3 in BLOCK && BLOCK == [0, 1, 2, 3]
  {
  }

  lemma NoLatencies(code: map<Id, Instr>)
    ensures Latencies([], code, {}) == []
  {
  }

  lemma BranchLatencies(code: map<Id, Instr>)
    requires BranchCode(code)
    ensures forall id | id in BLOCK :: id in code
    ensures Latencies(BLOCK, code, {}) == [1, 1, 1, 1]
  {
    hide *;
    BranchOps(code);
    NoLatencies(code);
    LatencyNext([], 0, code);
    LatencyNext([0], 1, code);
    LatencyNext([0, 1], 2, code);
    LatencyNext([0, 1, 2], 3, code);
    assert [] + [0] == [0] && [0] + [1] == [0, 1] && [0, 1] + [2] == [0, 1, 2] && [0, 1, 2] + [3] == BLOCK;
  }

  lemma BranchHeights(dag: Dag, h: seq<nat>)
    requires dag.succs == [[3], [2], [], []] && AreHeights(dag, [1, 1, 1, 1], h)
    ensures h == [2, 2, 1, 1]
  {
    assert [3][..0] == [] && [2][..0] == [];
    assert MaxHeight(h, [3]) == At(h, 3) && MaxHeight(h, [2]) == At(h, 2);
  }

  lemma FreshOne(dag: Dag, done: seq<nat>, x: nat)
    ensures Fresh(dag, done, [x]) == if x < |dag.preds| && AllIn(dag.preds[x], done) then [x] else []
  {
    assert [x][..0] == [];
  }

  lemma BestBeats(h: seq<nat>, l: seq<nat>, ready: seq<nat>, i: nat, k: nat)
    requires IsBest(h, l, ready, i) && k < |ready|
    ensures !Lower(h, l, ready[i], ready[k]) && (k < i ==> Lower(h, l, ready[k], ready[i]))
  {
  }

  lemma BestUnique(h: seq<nat>, l: seq<nat>, ready: seq<nat>, i: nat, j: nat)
    requires IsBest(h, l, ready, i) && IsBest(h, l, ready, j)
    ensures i == j
  {
    BestBeats(h, l, ready, i, j);
    BestBeats(h, l, ready, j, i);
  }

  /** A round in which position i is the best. */
  lemma RoundAt(dag: Dag, h: seq<nat>, l: seq<nat>, order: seq<nat>, trace: seq<seq<nat>>, k: nat, i: nat)
    requires Rounds(dag, h, l, order, trace) && k <= |order| && trace[|order|] == [] && trace[k] != []
    requires IsBest(h, l, trace[k], i)
    ensures k < |order| && order[k] == trace[k][i] && order[k] < |dag.succs|
    ensures order[..k + 1] == order[..k] + [order[k]]
    ensures trace[k + 1] == Without(trace[k], i) + Fresh(dag, order[..k + 1], dag.succs[order[k]])
  {
    assert Round(dag, h, l, order[..k], trace[k], order[k], trace[k + 1]);
    hide Fresh, Roots, Rounds;
    var j: nat :| IsBest(h, l, trace[k], j) && j < |trace[k]| && trace[k][j] == order[k]
                  && trace[k + 1] == Without(trace[k], j) + Fresh(dag, order[..k] + [order[k]], dag.succs[order[k]]);
    BestUnique(h, l, trace[k], i, j);
    assert order[..k + 1] == order[..k] + [order[k]];
  }

  lemma FirstIsBest()
    ensures IsBest([2, 2, 1, 1], [1, 1, 1, 1], [0, 1], 0) && IsBest([2, 2, 1, 1], [1, 1, 1, 1], [1, 3], 0)
    ensures IsBest([2, 2, 1, 1], [1, 1, 1, 1], [3, 2], 0) && IsBest([2, 2, 1, 1], [1, 1, 1, 1], [2], 0)
  {
  }

  lemma BranchFresh(dag: Dag)
    requires dag == Dag([[], [], [1], [0]], [[3], [2], [], []])
    ensures Fresh(dag, [0], [3]) == [3] && Fresh(dag, [0, 1], [2]) == [2]
    ensures Fresh(dag, [0, 1, 3], []) == [] && Fresh(dag, [0, 1, 3, 2], []) == []
  {
    FreshOne(dag, [0], 3);
    FreshOne(dag, [0, 1], 2);
    hide Fresh;
    FreshNothing(dag, [0, 1, 3]);
    FreshNothing(dag, [0, 1, 3, 2]);
  }

  lemma BranchRoots(dag: Dag)
    requires dag == Dag([[], [], [1], [0]], [[3], [2], [], []])
    ensures Roots(dag, |dag.preds|) == [0, 1]
  {
    assert Roots(dag, 0) == [] && Roots(dag, 1) == [0] && Roots(dag, 2) == [0, 1];
    assert Roots(dag, 3) == [0, 1] && Roots(dag, 4) == [0, 1];
  }

  lemma StartsWithRoots(dag: Dag, h: seq<nat>, l: seq<nat>, order: seq<nat>, trace: seq<seq<nat>>)
    requires Rounds(dag, h, l, order, trace)
    ensures |trace| == |order| + 1 && trace[0] == Roots(dag, |dag.preds|)
  {
  }

  /** Round by round: the first copy, the second, then the branch ahead of the negation. */
  lemma BranchRounds(dag: Dag, order: seq<nat>, trace: seq<seq<nat>>)
    requires dag == Dag([[], [], [1], [0]], [[3], [2], [], []])
    requires Rounds(dag, [2, 2, 1, 1], [1, 1, 1, 1], order, trace) && |trace| == |order| + 1 && trace[|order|] == []
    ensures order == [0, 1, 3, 2]
  {
    hide Rounds, Roots, Fresh, AllIn, IsBest, Lower, At;
    var h, l := [2, 2, 1, 1], [1, 1, 1, 1];
    FirstIsBest();
    BranchFresh(dag);
    BranchRoots(dag);
    StartsWithRoots(dag, h, l, order, trace);
    RoundAt(dag, h, l, order, trace, 0, 0);
    assert order[..1] == [0] && trace[1] == [1, 3];
    RoundAt(dag, h, l, order, trace, 1, 0);
    assert order[..2] == [0, 1] && trace[2] == [3, 2];
    RoundAt(dag, h, l, order, trace, 2, 0);
    assert order[..3] == [0, 1, 3] && trace[3] == [2];
    RoundAt(dag, h, l, order, trace, 3, 0);
    assert order[..4] == [0, 1, 3, 2] && trace[4] == [];
    EndsThere(dag, h, l, order, trace);
    assert order == order[..4];
  }

  lemma EndsThere(dag: Dag, h: seq<nat>, l: seq<nat>, order: seq<nat>, trace: seq<seq<nat>>)
    requires Rounds(dag, h, l, order, trace) && |order| >= 4 && trace[4] == []
    ensures |order| == 4
  {
    assert |order| > 4 ==> Round(dag, h, l, order[..4], trace[4], order[4], trace[4 + 1]);
  }

  lemma BranchKinds(code: map<Id, Instr>)
    requires BranchCode(code)
    ensures BLOCK == [0, 1, 2, 3]
    ensures forall id | 0 <= id < 4 :: id in code && code[id].op != Phi && !EndsSchedule(code[id].op)
  {
  }

  lemma BranchParts(code: map<Id, Instr>)
    requires BranchCode(code)
    ensures forall id | id in BLOCK :: id in code
    ensures Phis(BLOCK, code) == [] && Body(BLOCK, code) == BLOCK && Terminator(BLOCK, code) == None
  {
    hide *;
    BranchKinds(code);
    PartsOfPhis([], code);
    PartsNext([], 0, code);
    PartsNext([0], 1, code);
    PartsNext([0, 1], 2, code);
    PartsNext([0, 1, 2], 3, code);
    assert [] + [0] == [0] && [0] + [1] == [0, 1] && [0, 1] + [2] == [0, 1, 2] && [0, 1, 2] + [3] == BLOCK;
  }

  /** The scheduled block branches before it negates. */
  lemma BranchOvertakes(code: map<Id, Instr>, out: seq<Id>)
    requires BranchCode(code) && (forall id | id in BLOCK :: id in code) && BlockScheduled(code, {}, BLOCK, out)
    ensures out == [0, 1, 3, 2]
  {
    BranchParts(code);
    BranchLatencies(code);
    hide BranchCode, Phis, Body, Terminator, Latencies, IsDagOf, AreHeights, Rounds, Named;
    var body' :| IsSchedule(code, {}, BLOCK, body') && out == [] + body' + [];
    var dag, h, order, trace :| ScheduledBy(code, {}, BLOCK, body', dag, h, order, trace);
    BranchDag(code, dag);
    BranchHeights(dag, h);
    StartsWithRoots(dag, h, [1, 1, 1, 1], order, trace);
    BranchRounds(dag, order, trace);
    BranchNamed();
  }

  lemma BranchNamed()
    ensures Named(BLOCK, [0, 1, 3, 2]) == [0, 1, 3, 2]
  {
  }

  // ----- What that does to the function

  /** Where a run of the scheduled function can be: never past the negation. */
  ghost predicate BeforeNegation(s: State) {
    s.ret.None? && 2 !in s.env && ((s.path == [0] && s.pc <= 2) || (s.path == [0, 1] && s.pc == 0))
  }

  ghost predicate ScheduledBranch(g: Function) {
    g.order == [0, 1] && g.blocks == map[0 := [0, 1, 3, 2], 1 := [4]] && BranchCode(g.code)
  }

  lemma NoPhis(list: seq<Id>, code: map<Id, Instr>)
    requires list != [] && list[0] in code && code[list[0]].op != Phi
    ensures LeadingPhis(list, code) == 0
  {
  }

  lemma NegationMissed(m: Machine, g: Function, s: State, s': State)
    requires ScheduledBranch(g) && BeforeNegation(s) && Step(m, g, s, s')
    ensures BeforeNegation(s')
  {
    hide LeadingPhis, InstrStep;
    NoPhis(g.blocks[0], g.code);
    NoPhis(g.blocks[1], g.code);
    var id := g.blocks[Last(s.path)][s.pc];
    assert InstrStep(m, id, g.code[id], s, s');
    hide Step;
    if id == 4 {
      NotReadyToReturn(m, s, s');
    } else {
      StaysBefore(m, g, s, s', id);
    }
  }

  lemma StaysBefore(m: Machine, g: Function, s: State, s': State, id: Id)
    requires ScheduledBranch(g) && BeforeNegation(s) && s.path == [0] && id == [0, 1, 3, 2][s.pc]
    requires id in g.code && InstrStep(m, id, g.code[id], s, s')
    ensures BeforeNegation(s')
  {
    assert id == 3 ==> s'.path == [0] + [1];
  }

  lemma NotReadyToReturn(m: Machine, s: State, s': State)
    requires 2 !in s.env
    ensures !InstrStep(m, 4, Instr(Ret, 0, [Inst(2)], 1), s, s')
  {
  }

  lemma {:induction false} NeverPast(m: Machine, g: Function, run: seq<State>)
    requires ScheduledBranch(g) && IsRun(m, g, run)
    ensures BeforeNegation(Last(run))
    decreases |run|
  {
    if |run| > 1 {
      RunShrinks(m, g, run);
      hide ScheduledBranch, Step;
      NeverPast(m, g, run[..|run| - 1]);
      NegationMissed(m, g, Last(run[..|run| - 1]), Last(run));
    }
  }

  lemma ShortBlock(code: map<Id, Instr>, out: seq<Id>)
    requires 4 in code && BlockScheduled(code, {}, [4], out)
    ensures out == [4]
  {
  }

  lemma BranchBlocks(f: Function, g: Function)
    requires BranchFunction(f) && AllScheduled(f, g, {}, f.order)
    ensures ScheduledBranch(g)
  {
    hide BranchCode, BlockScheduled;
    assert 0 in f.order && 1 in f.order;
    assert 0 in f.blocks && 1 in f.blocks;
    BranchOvertakes(f.code, g.blocks[0]);
    ShortBlock(f.code, g.blocks[1]);
  }

  /** The scheduled function returns nothing, on any machine. */
  lemma ScheduledBranchNeverReturns(m: Machine, f: Function, g: Function, mem: Memory, path: seq<BlockId>,
                                    ret: Option<Word>, mem': Memory)
    requires BranchFunction(f) && AllScheduled(f, g, {}, f.order)
    ensures !MayReturn(m, g, mem, path, ret, mem')
  {
    BranchBlocks(f, g);
    hide BranchFunction, AllScheduled, ScheduledBranch;
    forall run: seq<State> | IsRun(m, g, run)
      ensures Last(run).ret.None?
    {
      NeverPast(m, g, run);
    }
  }

  // ----- The original returns

  lemma StepAt(m: Machine, f: Function, s: State, s': State)
    requires BranchFunction(f) && s.ret.None? && s.path != [] && Last(s.path) in f.blocks
    requires s.pc < |f.blocks[Last(s.path)]|
    requires var id := f.blocks[Last(s.path)][s.pc]; id in f.code && InstrStep(m, id, f.code[id], s, s')
    ensures Step(m, f, s, s')
  {
    NoPhis(f.blocks[0], f.code);
    NoPhis(f.blocks[1], f.code);
    hide LeadingPhis, InstrStep;
  }

  lemma CopyStep(m: Machine, id: Id, s: State, s': State, c: Word)
    requires |m.params| == 1 && m.sem(Copy, 32, [m.params[0]], s.mem, c, s.mem)
    requires s' == s.(pc := s.pc + 1, env := s.env[id := c])
    ensures InstrStep(m, id, Instr(Copy, 32, [Arg(0)], 0), s, s')
  {
    assert FetchAll([Arg(0)], s.env, m.params) == [m.params[0]];
  }

  lemma NegStep(m: Machine, s: State, s': State, c: Word, v: Word)
    requires 1 in s.env && s.env[1] == c && m.sem(Neg, 32, [c], s.mem, v, s.mem)
    requires s' == s.(pc := s.pc + 1, env := s.env[2 := v])
    ensures InstrStep(m, 2, Instr(Neg, 32, [Inst(1)], 0), s, s')
  {
    assert FetchAll([Inst(1)], s.env, m.params) == [c];
  }

  lemma BranchStep(m: Machine, id: Id, s: State, s': State)
    requires 0 in s.env && s' == s.(path := s.path + [1], pc := 0)
    ensures InstrStep(m, id, Instr(Jnz, 0, [Inst(0), Blk(1), Blk(1)], 0), s, s')
  {
  }

  lemma ReturnStep(m: Machine, id: Id, s: State, s': State)
    requires 2 in s.env && s' == s.(ret := Some(Some(s.env[2])))
    ensures InstrStep(m, id, Instr(Ret, 0, [Inst(2)], 1), s, s')
  {
  }

  /** The steps of the run, on the instructions alone. */
  lemma BranchSteps(m: Machine, mem: Memory, c: Word, v: Word) returns (run: seq<State>)
    requires |m.params| == 1 && m.sem(Copy, 32, [m.params[0]], mem, c, mem) && m.sem(Neg, 32, [c], mem, v, mem)
    ensures |run| == 6 && run[0] == State([0], 0, map[], mem, None)
    ensures forall k | 0 <= k < 4 :: run[k].path == [0] && run[k].pc == k && run[k].ret.None?
    ensures InstrStep(m, 0, Instr(Copy, 32, [Arg(0)], 0), run[0], run[1])
    ensures InstrStep(m, 1, Instr(Copy, 32, [Arg(0)], 0), run[1], run[2])
    ensures InstrStep(m, 2, Instr(Neg, 32, [Inst(1)], 0), run[2], run[3])
    ensures InstrStep(m, 3, Instr(Jnz, 0, [Inst(0), Blk(1), Blk(1)], 0), run[3], run[4])
    ensures InstrStep(m, 4, Instr(Ret, 0, [Inst(2)], 1), run[4], run[5])
    ensures run[4].path == [0, 1] && run[4].pc == 0 && run[4].ret.None?
    ensures run[5].path == [0, 1] && run[5].ret == Some(Some(v)) && run[5].mem == mem
  {
    hide *;
    var s0 := State([0], 0, map[], mem, None);
    var s1 := s0.(pc := 1, env := s0.env[0 := c]);
    var s2 := s1.(pc := 2, env := s1.env[1 := c]);
    var s3 := s2.(pc := 3, env := s2.env[2 := v]);
    var s4 := s3.(path := [0] + [1], pc := 0);
    var s5 := s4.(ret := Some(Some(v)));
    CopyStep(m, 0, s0, s1, c);
    CopyStep(m, 1, s1, s2, c);
    NegStep(m, s2, s3, c, v);
    BranchStep(m, 3, s3, s4);
    ReturnStep(m, 4, s4, s5);
    run := [s0, s1, s2, s3, s4, s5];
    assert [0] + [1] == [0, 1];
  }

  /** It returns the negation wherever the operations have results. */
  lemma BranchReturns(m: Machine, f: Function, mem: Memory, c: Word, v: Word)
    requires BranchFunction(f)
    requires |m.params| == 1 && m.sem(Copy, 32, [m.params[0]], mem, c, mem) && m.sem(Neg, 32, [c], mem, v, mem)
    ensures MayReturn(m, f, mem, [0, 1], Some(v), mem)
  {
    hide InstrStep, Step;
    var run := BranchSteps(m, mem, c, v);
    StepAt(m, f, run[0], run[1]);
    StepAt(m, f, run[1], run[2]);
    StepAt(m, f, run[2], run[3]);
    StepAt(m, f, run[3], run[4]);
    StepAt(m, f, run[4], run[5]);
    hide BranchCode;
    assert IsRun(m, f, run);
    assert Last(run) == run[5];
  }
}
