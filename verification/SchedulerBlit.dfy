/**
 A copy from memory to memory is not among the operations that the scheduler keeps in order:
 a load from where it copies to is placed ahead of it and reads what was there before.
 */
module SchedulerBlit {
  import opened IR
  import opened Simulation
  import opened Reordering
  import opened InstructionScheduler
  import opened SchedulerExact

  const LINE: seq<Id> := [0, 1, 2]

  /** Copy the byte at the second parameter to the first, and return it from there. */
  ghost predicate BlitCode(code: map<Id, Instr>) {
    && code.Keys == {0, 1, 2}
    && code[0] == Instr(Blit, 0, [Arg(0), Arg(1), Cst(Word(64, 1))], 0)
    && code[1] == Instr(Load, 8, [Arg(0)], 0)
    && code[2] == Instr(Ret, 0, [Inst(1)], 0)
  }

  ghost predicate BlitFunction(f: Function) {
    f.order == [0] && f.blocks == map[0 := LINE] && BlitCode(f.code)
  }

  lemma BlitExists() returns (f: Function)
    ensures BlitFunction(f) && WellFormed(f)
  {
    f := Function([0], map[0 := LINE],
                  map[0 := Instr(Blit, 0, [Arg(0), Arg(1), Cst(Word(64, 1))], 0), 1 := Instr(Load, 8, [Arg(0)], 0),
                      2 := Instr(Ret, 0, [Inst(1)], 0)]);
    assert 0 in f.order;
    assert forall i | 0 <= i < 3 :: LINE[i] == i;
  }

  // ----- The schedule

  lemma BlitParts(code: map<Id, Instr>)
    requires BlitCode(code)
    ensures forall id | id in LINE :: id in code
    ensures Phis(LINE, code) == [] && Body(LINE, code) == [0, 1] && Terminator(LINE, code) == Some(2)
  {
    hide Phis, Body, Terminator;
    NoParts(code);
    PartsNext([], 0, code);
    PartsNext([0], 1, code);
    PartsNext([0, 1], 2, code);
    assert [] + [0] == [0] && [0] + [1] == [0, 1] && [0, 1] + [2] == LINE;
    assert [0, 1] + [] == [0, 1];
  }

  lemma BlitFree(code: map<Id, Instr>)
    requires BlitCode(code)
    ensures forall id | id in [0, 1] :: id in code
    ensures IsFree(code, [0, 1], 0) && IsFree(code, [0, 1], 1)
    ensures code[0].op == Blit && code[1].op == Load
  {
  }

  /** The load does not wait for the copy, and takes longer. */
  lemma LoadFirst(code: map<Id, Instr>, out: seq<Id>)
    requires BlitCode(code) && IsSchedule(code, {}, [0, 1], out)
    ensures out == [1, 0]
  {
    hide *;
    var vectors: set<Id> := {};
    assert 0 !in vectors && 1 !in vectors;
    BlitFree(code);
    assert Distinct([0, 1]) by { Pair(0, 1); }
    ScheduleIsOrder(code, vectors, [0, 1], out);
    assert 0 in [0, 1] && 1 in [0, 1];
    var p := PositionIn(out, 0);
    var q := PositionIn(out, 1);
    FreeByLatency(code, vectors, [0, 1], out, 0, 1, p, q);
    BlitLatencies();
    assert [0, 1][0] == 0 && [0, 1][1] == 1;
    assert q < p;
    assert |out| == 2;
  }

  lemma BlitLatencies()
    ensures Latency(Blit, false) == 1 && Latency(Load, false) == 4
  {
    LatencyExactly(Blit);
    LatencyExactly(Load);
  }

  lemma Pair(a: Id, b: Id)
    requires a != b
    ensures Distinct([a, b])
  {
  }

  lemma BlitOvertaken(code: map<Id, Instr>, out: seq<Id>)
    requires BlitCode(code) && (forall id | id in LINE :: id in code) && BlockScheduled(code, {}, LINE, out)
    ensures out == [1, 0, 2]
  {
    hide Phis, Body, Terminator, IsSchedule, BlitCode;
    BlitParts(code);
    assert BlockScheduled(code, {}, LINE, out) && |LINE| == 3;
    var body' :| IsSchedule(code, {}, Body(LINE, code), body')
                 && out == Phis(LINE, code) + body' + ListOf(Terminator(LINE, code));
    LoadFirst(code, body');
  }

  // ----- What becomes of the runs

  function ByteAt(mem: Memory, a: nat): nat {
    if a in mem then mem[a] else 0
  }

  /** A machine with copies of one byte, and loads. */
  predicate CopySem(op: Opcode, ty: nat, args: seq<Word>, mem: Memory, v: Word, mem': Memory) {
    || (op == Blit && |args| == 3 && v == Word(0, 0) && mem' == mem[args[0].bits := ByteAt(mem, args[1].bits)])
    || (op == Load && |args| == 1 && v == Word(ty, ByteAt(mem, args[0].bits)) && mem' == mem)
  }

  ghost function CopyMachine(): Machine {
    Machine([Word(64, 8), Word(64, 16)], CopySem)
  }

  lemma CopyArgs(env: map<Id, Word>)
    ensures var ps := CopyMachine().params;
            && AllReady([Arg(0), Arg(1), Cst(Word(64, 1))], env, ps) && AllReady([Arg(0)], env, ps)
            && FetchAll([Arg(0), Arg(1), Cst(Word(64, 1))], env, ps) == [Word(64, 8), Word(64, 16), Word(64, 1)]
            && FetchAll([Arg(0)], env, ps) == [Word(64, 8)]
  {
  }

  lemma NoPhis(list: seq<Id>, code: map<Id, Instr>)
    requires list != [] && list[0] in code && code[list[0]].op != Phi
    ensures LeadingPhis(list, code) == 0
  {
  }

  lemma BlitStep(f: Function, s: State, s': State)
    requires BlitFunction(f) && s.path == [0] && s.pc == 0 && s.ret.None?
    requires s' == s.(pc := 1, env := s.env[0 := Word(0, 0)], mem := s.mem[8 := ByteAt(s.mem, 16)])
    ensures Step(CopyMachine(), f, s, s')
  {
    CopyArgs(s.env);
    NoPhis(LINE, f.code);
    assert OpStep(CopyMachine(), 0, f.code[0], s, s');
  }

  lemma LoadStep(f: Function, s: State, s': State)
    requires BlitFunction(f) && s.path == [0] && s.pc == 1 && s.ret.None?
    requires s' == s.(pc := 2, env := s.env[1 := Word(8, ByteAt(s.mem, 8))])
    ensures Step(CopyMachine(), f, s, s')
  {
    CopyArgs(s.env);
    assert OpStep(CopyMachine(), 1, f.code[1], s, s');
  }

  /** In order, the byte is copied and returned. */
  lemma BlitReturns(f: Function, b: nat)
    requires BlitFunction(f)
    ensures MayReturn(CopyMachine(), f, map[16 := b], [0], Some(Word(8, b)), map[16 := b, 8 := b])
  {
    var m := CopyMachine();
    var s0 := State([0], 0, map[], map[16 := b], None);
    var s1 := State([0], 1, map[0 := Word(0, 0)], map[16 := b, 8 := b], None);
    var s2 := State([0], 2, map[0 := Word(0, 0), 1 := Word(8, b)], map[16 := b, 8 := b], None);
    var s3 := s2.(ret := Some(Some(Word(8, b))));
    BlitStep(f, s0, s1);
    LoadStep(f, s1, s2);
    NoPhis(LINE, f.code);
    assert Step(m, f, s2, s3);
    var run := [s0, s1, s2, s3];
    assert IsRun(m, f, run);
  }

  /** Scheduled, nothing is read. */
  ghost predicate ReadsNothing(s: State) {
    && s.path == [0]
    && (s.pc == 0 ==> 8 !in s.mem)
    && (1 in s.env ==> s.env[1] == Word(8, 0))
    && (s.ret.Some? ==> s.ret == Some(Some(Word(8, 0))))
  }

  lemma ReadsNothingNext(g: Function, s: State, s': State)
    requires g.order == [0] && g.blocks == map[0 := [1, 0, 2]] && BlitCode(g.code)
    requires ReadsNothing(s) && Step(CopyMachine(), g, s, s')
    ensures ReadsNothing(s')
  {
    NoPhis([1, 0, 2], g.code);
    CopyArgs(s.env);
    hide LeadingPhis;
    assert InstrStep(CopyMachine(), [1, 0, 2][s.pc], g.code[[1, 0, 2][s.pc]], s, s');
  }

  lemma {:induction false} AlwaysReadsNothing(g: Function, run: seq<State>)
    requires g.order == [0] && g.blocks == map[0 := [1, 0, 2]] && BlitCode(g.code)
    requires IsRun(CopyMachine(), g, run) && 8 !in run[0].mem
    ensures ReadsNothing(Last(run))
    decreases |run|
  {
    if |run| > 1 {
      RunShrinks(CopyMachine(), g, run);
      hide BlitCode, Step, ReadsNothing;
      AlwaysReadsNothing(g, run[..|run| - 1]);
      ReadsNothingNext(g, Last(run[..|run| - 1]), Last(run));
    }
  }

  /** So the scheduled function does not do what the original does. */
  lemma BlitMissed(f: Function, g: Function)
    requires BlitFunction(f) && g.order == f.order && g.code == f.code && g.blocks.Keys == {0}
    requires (forall id | id in LINE :: id in f.code) && BlockScheduled(f.code, {}, LINE, g.blocks[0])
    ensures !Preserves(CopyMachine(), f, g)
  {
    BlitOvertaken(f.code, g.blocks[0]);
    assert g.blocks == map[0 := [1, 0, 2]];
    BlitReturns(f, 1);
    if MayReturn(CopyMachine(), g, map[16 := 1], [0], Some(Word(8, 1)), map[16 := 1, 8 := 1]) {
      var run: seq<State> :| IsRun(CopyMachine(), g, run) && run[0].mem == map[16 := 1]
                             && Last(run).ret == Some(Some(Word(8, 1)));
      hide BlockScheduled, IsRun, BlitFunction;
      AlwaysReadsNothing(g, run);
    }
  }
}
