/**
 Two functions that the removal of dead stores changes on the byte machine: one reads the
 location through another pointer, one overwrites less than it wrote.
 */
module DeadStoreExamples {
  import opened IR
  import opened Simulation
  import opened Erasure
  import opened DeadCode
  import opened DeadStores
  import opened DeadStoreRuns
  import opened DeadStoreChains
  import opened ByteMemory
  import opened Reordering

  // ----- Read through another pointer

  /**
   Store through the first parameter, load through the second, store through the first again; return
   what was read.
   */
  ghost predicate AliasCode(code: map<Id, Instr>) {
    && code.Keys == {0, 1, 2, 3}
    && code[0] == Instr(Store, 32, [Cst(Word(32, 1)), Arg(0)], 0)
    && code[1] == Instr(Load, 32, [Arg(1)], 0)
    && code[2] == Instr(Store, 32, [Cst(Word(32, 2)), Arg(0)], 0)
    && code[3] == Instr(Ret, 0, [Inst(1)], 0)
  }

  function AliasFunction(): Function {
    Function([0], map[0 := [0, 1, 2, 3]],
             map[0 := Instr(Store, 32, [Cst(Word(32, 1)), Arg(0)], 0), 1 := Instr(Load, 32, [Arg(1)], 0),
                 2 := Instr(Store, 32, [Cst(Word(32, 2)), Arg(0)], 0), 3 := Instr(Ret, 0, [Inst(1)], 0)])
  }

  lemma AliasIsCode()
    ensures AliasFunction().order == [0] && AliasFunction().blocks == map[0 := [0, 1, 2, 3]]
    ensures AliasCode(AliasFunction().code)
  {
  }

  lemma AliasWellFormed(f: Function)
    requires f.order == [0] && f.blocks == map[0 := [0, 1, 2, 3]] && AliasCode(f.code)
    ensures WellFormed(f)
  {
    assert 0 in f.order;
    forall id | id in f.code
      ensures f.code[id].op != Phi && TargetsExist(f, f.code[id]) && f.code[id].parent == 0
    {
      assert id in {0, 1, 2, 3};
    }
    var list := f.blocks[0];
    assert forall i | 0 <= i < |list| :: list[i] == i && list[i] in f.code;
    hide AliasCode, TargetsExist;
  }

  lemma NoPhis(list: seq<Id>, code: map<Id, Instr>)
    requires list != [] && list[0] in code && code[list[0]].op != Phi
    ensures LeadingPhis(list, code) == 0
  {
  }

  /** The scan takes the first store for dead. */
  lemma AliasDead(f: Function)
    requires f.order == [0] && f.blocks == map[0 := [0, 1, 2, 3]] && AliasCode(f.code) && WellFormed(f)
    ensures 0 in AllDeadStores(f) && 1 !in AllDeadStores(f) && 2 !in AllDeadStores(f) && 3 !in AllDeadStores(f)
  {
    hide WellFormed, AllDeadStores;
    var list := f.blocks[0];
    assert list == [0, 1, 2, 3];
    assert StoresTo(f.code[list[2]], Arg(0)) && Undisturbed(list, f.code, 1, 2, Arg(0));
    assert IsDeadStore(list, f.code, 0);
    assert !IsDeadStore(list, f.code, 1) && !IsDeadStore(list, f.code, 2) && !IsDeadStore(list, f.code, 3);
    hide IsDeadStore, AllDeadStores, WellFormed, AliasCode;
    DeadIsStore(f, 0, 0);
    DeadIsStore(f, 0, 1);
    DeadIsStore(f, 0, 2);
    DeadIsStore(f, 0, 3);
  }

  /** The removal on a function of one block. */
  lemma RewrittenLine(f: Function, g: Function, list: seq<Id>, kept: seq<Id>)
    requires WellFormed(f) && f.order == [0] && f.blocks == map[0 := list] && g == Rewrite(f, StorePlan(f))
    requires kept == Keep(list, AllDeadStores(f))
    ensures g.order == [0] && g.blocks == map[0 := kept] && g.code == f.code
  {
    hide AllDeadStores, WellFormed, Keep;
    forall id | id in f.code
      ensures SubstAll(f.code[id].operands, map[]) == f.code[id].operands
    {
    }
  }

  lemma AliasRewritten(f: Function, g: Function)
    requires f.order == [0] && f.blocks == map[0 := [0, 1, 2, 3]] && AliasCode(f.code) && WellFormed(f)
    requires g == Rewrite(f, StorePlan(f))
    ensures g.order == [0] && g.blocks == map[0 := [1, 2, 3]] && AliasCode(g.code)
  {
    AliasDead(f);
    hide *;
    KeepFour(0, 1, 2, 3, AllDeadStores(f));
    RewrittenLine(f, g, [0, 1, 2, 3], [1, 2, 3]);
  }

  lemma KeepFour(a: Id, b: Id, c: Id, d: Id, dead: set<Id>)
    requires a in dead && b !in dead && c !in dead && d !in dead
    ensures Keep([a, b, c, d], dead) == [b, c, d]
  {
    KeepHead(a, [b, c, d], dead);
    KeepHead(b, [c, d], dead);
    KeepHead(c, [d], dead);
    KeepHead(d, [], dead);
    assert [a] + [b, c, d] == [a, b, c, d] && [b] + [c, d] == [b, c, d] && [c] + [d] == [c, d] && [d] + [] == [d];
  }

  lemma KeepHead(x: Id, rest: seq<Id>, dead: set<Id>)
    ensures Keep([x] + rest, dead) == (if x in dead then [] else [x]) + Keep(rest, dead)
    ensures Keep([], dead) == []
  {
    assert ([x] + rest)[1..] == rest;
  }

  /** Without the first store the load sees nothing. */
  ghost predicate SeesNothing(s: State) {
    && s.path == [0]
    && (s.pc == 0 ==> s.mem == map[])
    && (1 in s.env ==> s.env[1] == Word(32, 0))
    && (s.ret.Some? ==> s.ret == Some(Some(Word(32, 0))))
  }

  lemma NothingInMemory()
    ensures LoadBytes(map[], 8, 4) == 0
  {
  }

  lemma SeesNothingNext(g: Function, s: State, s': State)
    requires g.order == [0] && g.blocks == map[0 := [1, 2, 3]] && AliasCode(g.code)
    requires SeesNothing(s) && Step(ByteMachine(), g, s, s')
    ensures SeesNothing(s')
  {
    NothingInMemory();
    NoPhis([1, 2, 3], g.code);
    hide LoadBytes, StoreBytes, LeadingPhis;
    assert InstrStep(ByteMachine(), [1, 2, 3][s.pc], g.code[[1, 2, 3][s.pc]], s, s');
    if s.pc == 0 {
      assert FetchAll([Arg(1)], s.env, ByteMachine().params) == [Word(64, 8)];
    }
  }

  lemma {:induction false} AlwaysSeesNothing(g: Function, run: seq<State>)
    requires g.order == [0] && g.blocks == map[0 := [1, 2, 3]] && AliasCode(g.code)
    requires IsRun(ByteMachine(), g, run) && run[0].mem == map[]
    ensures SeesNothing(Last(run))
    decreases |run|
  {
    if |run| > 1 {
      RunShrinks(ByteMachine(), g, run);
      hide AliasCode, Step, SeesNothing;
      AlwaysSeesNothing(g, run[..|run| - 1]);
      SeesNothingNext(g, Last(run[..|run| - 1]), Last(run));
    }
  }

  /** The memory after the first store. */
  function OneStored(): Memory {
    StoreBytes(map[], 8, 1, 4)
  }

  lemma OneIsThere()
    ensures LoadBytes(OneStored(), 8, 4) == 1
  {
    assert OneStored() == map[8 := 1, 9 := 0, 10 := 0, 11 := 0];
    var mem := OneStored();
    assert LoadBytes(mem, 11, 1) == 0;
    assert LoadBytes(mem, 10, 2) == 0;
    assert LoadBytes(mem, 9, 3) == 0;
  }

  /** The steps of the run, on the instructions alone. */
  lemma AliasSteps() returns (run: seq<State>)
    ensures |run| == 5 && run[0] == State([0], 0, map[], map[], None)
    ensures forall k | 0 <= k < 4 :: run[k].path == [0] && run[k].pc == k && run[k].ret.None?
    ensures InstrStep(ByteMachine(), 0, Instr(Store, 32, [Cst(Word(32, 1)), Arg(0)], 0), run[0], run[1])
    ensures InstrStep(ByteMachine(), 1, Instr(Load, 32, [Arg(1)], 0), run[1], run[2])
    ensures InstrStep(ByteMachine(), 2, Instr(Store, 32, [Cst(Word(32, 2)), Arg(0)], 0), run[2], run[3])
    ensures InstrStep(ByteMachine(), 3, Instr(Ret, 0, [Inst(1)], 0), run[3], run[4])
    ensures run[4].path == [0] && run[4].ret == Some(Some(Word(32, 1)))
    ensures run[4].mem == StoreBytes(OneStored(), 8, 2, 4)
  {
    hide *;
    var after := StoreBytes(OneStored(), 8, 2, 4);
    var s0 := State([0], 0, map[], map[], None);
    var s1 := State([0], 1, map[0 := Word(0, 0)], OneStored(), None);
    var s2 := State([0], 2, map[0 := Word(0, 0), 1 := Word(32, 1)], OneStored(), None);
    var s3 := State([0], 3, map[0 := Word(0, 0), 1 := Word(32, 1), 2 := Word(0, 0)], after, None);
    var s4 := s3.(ret := Some(Some(Word(32, 1))));
    OneIsThere();
    OneStoredIs();
    StoreStep(0, 1, s0, s1);
    LoadStep(1, 1, s1, s2);
    StoreStep(2, 2, s2, s3);
    ReturnStep(3, 1, s3, s4);
    run := [s0, s1, s2, s3, s4];
  }

  /** The original sees its own store. */
  lemma AliasReturns(f: Function)
    requires f.order == [0] && f.blocks == map[0 := [0, 1, 2, 3]] && AliasCode(f.code)
    ensures MayReturn(ByteMachine(), f, map[], [0], Some(Word(32, 1)), StoreBytes(OneStored(), 8, 2, 4))
  {
    hide StoreBytes, LeadingPhis, OneStored, Step, InstrStep, ByteMachine;
    var m, list := ByteMachine(), [0, 1, 2, 3];
    NoPhis(list, f.code);
    var run := AliasSteps();
    InBlock(m, f, list, run[0], run[1]);
    InBlock(m, f, list, run[1], run[2]);
    InBlock(m, f, list, run[2], run[3]);
    InBlock(m, f, list, run[3], run[4]);
    hide AliasCode;
    assert IsRun(m, f, run);
    assert Last(run) == run[4];
  }

  lemma InBlock(m: Machine, f: Function, list: seq<Id>, s: State, s': State)
    requires s.path == [0] && s.ret.None? && 0 in f.blocks && f.blocks[0] == list && LeadingPhis(list, f.code) == 0
    requires s.pc < |list| && list[s.pc] in f.code && InstrStep(m, list[s.pc], f.code[list[s.pc]], s, s')
    ensures Step(m, f, s, s')
  {
    hide InstrStep, LeadingPhis;
  }

  lemma StoreStep(id: Id, x: nat, s: State, s': State)
    requires s' == s.(pc := s.pc + 1, env := s.env[id := Word(0, 0)], mem := StoreBytes(s.mem, 8, x, 4))
    ensures InstrStep(ByteMachine(), id, Instr(Store, 32, [Cst(Word(32, x)), Arg(0)], 0), s, s')
  {
    hide StoreBytes, LoadBytes;
    assert FetchAll([Cst(Word(32, x)), Arg(0)], s.env, ByteMachine().params) == [Word(32, x), Word(64, 8)];
  }

  lemma LoadStep(id: Id, x: nat, s: State, s': State)
    requires s' == s.(pc := s.pc + 1, env := s.env[id := Word(32, x)]) && LoadBytes(s.mem, 8, 4) == x
    ensures InstrStep(ByteMachine(), id, Instr(Load, 32, [Arg(1)], 0), s, s')
  {
    hide StoreBytes, LoadBytes;
    assert FetchAll([Arg(1)], s.env, ByteMachine().params) == [Word(64, 8)];
  }

  lemma ReturnStep(id: Id, v: Id, s: State, s': State)
    requires v in s.env && s' == s.(ret := Some(Some(s.env[v])))
    ensures InstrStep(ByteMachine(), id, Instr(Ret, 0, [Inst(v)], 0), s, s')
  {
  }

  lemma OneStoredIs()
    ensures OneStored() == StoreBytes(map[], 8, 1, 4)
  {
  }

  /** Removing the store changes what is returned, although the machine keeps every law. */
  lemma AliasedLoadMissed()
    ensures WellFormed(AliasFunction())
    ensures LastStoreWins(ByteMachine()) && StoreLaws(ByteMachine()) && MemoryListed(ByteMachine())
    ensures !Preserves(ByteMachine(), AliasFunction(), Rewrite(AliasFunction(), StorePlan(AliasFunction())))
  {
    ByteMachineLaws();
    ByteMachineStoreLaws();
    AliasIsCode();
    AliasWellFormed(AliasFunction());
    var f := AliasFunction();
    var g := Rewrite(f, StorePlan(f));
    hide AliasFunction, WellFormed, LastStoreWins, StoreLaws, MemoryListed, StorePlan, Rewrite, ByteMachine, StoreBytes,
         OneStored;
    AliasReturns(f);
    AliasRewritten(f, g);
    hide AliasCode, IsRun;
    forall run: seq<State> | IsRun(ByteMachine(), g, run) && run != [] && run[0].mem == map[]
      ensures Last(run).ret != Some(Some(Word(32, 1)))
    {
      AlwaysSeesNothing(g, run);
    }
    NeverReturnsOne(g, StoreBytes(OneStored(), 8, 2, 4));
  }

  lemma NeverReturnsOne(g: Function, mem': Memory)
    requires forall run: seq<State> | IsRun(ByteMachine(), g, run) && run != [] && run[0].mem == map[] ::
               Last(run).ret != Some(Some(Word(32, 1)))
    ensures !MayReturn(ByteMachine(), g, map[], [0], Some(Word(32, 1)), mem')
  {
  }

  // ----- Overwritten in part

  /** Store a word, then a byte, through the same pointer. */
  ghost predicate NarrowCode(code: map<Id, Instr>) {
    && code.Keys == {0, 1, 2}
    && code[0] == Instr(Store, 32, [Cst(Word(32, 256)), Arg(0)], 0)
    && code[1] == Instr(Storeb, 0, [Cst(Word(32, 0)), Arg(0)], 0)
    && code[2] == Instr(Ret, 0, [], 0)
  }

  function NarrowFunction(): Function {
    Function([0], map[0 := [0, 1, 2]],
             map[0 := Instr(Store, 32, [Cst(Word(32, 256)), Arg(0)], 0),
                 1 := Instr(Storeb, 0, [Cst(Word(32, 0)), Arg(0)], 0), 2 := Instr(Ret, 0, [], 0)])
  }

  lemma NarrowIsCode()
    ensures NarrowFunction().order == [0] && NarrowFunction().blocks == map[0 := [0, 1, 2]]
    ensures NarrowCode(NarrowFunction().code)
  {
  }

  lemma NarrowWellFormed(f: Function)
    requires f.order == [0] && f.blocks == map[0 := [0, 1, 2]] && NarrowCode(f.code)
    ensures WellFormed(f)
  {
    assert 0 in f.order;
    forall id | id in f.code
      ensures f.code[id].op != Phi && TargetsExist(f, f.code[id]) && f.code[id].parent == 0
    {
      assert id in {0, 1, 2};
    }
    var list := f.blocks[0];
    assert forall i | 0 <= i < |list| :: list[i] == i && list[i] in f.code;
    hide NarrowCode, TargetsExist;
  }

  lemma NarrowDead(f: Function)
    requires f.order == [0] && f.blocks == map[0 := [0, 1, 2]] && NarrowCode(f.code) && WellFormed(f)
    ensures 0 in AllDeadStores(f) && 1 !in AllDeadStores(f) && 2 !in AllDeadStores(f)
  {
    hide WellFormed, AllDeadStores;
    var list := f.blocks[0];
    assert list == [0, 1, 2];
    assert StoresTo(f.code[list[1]], Arg(0)) && Undisturbed(list, f.code, 1, 1, Arg(0));
    assert IsDeadStore(list, f.code, 0);
    assert !IsDeadStore(list, f.code, 1) && !IsDeadStore(list, f.code, 2);
    hide IsDeadStore, AllDeadStores, WellFormed, NarrowCode;
    DeadIsStore(f, 0, 0);
    DeadIsStore(f, 0, 1);
    DeadIsStore(f, 0, 2);
  }

  lemma NarrowRewritten(f: Function, g: Function)
    requires f.order == [0] && f.blocks == map[0 := [0, 1, 2]] && NarrowCode(f.code) && WellFormed(f)
    requires g == Rewrite(f, StorePlan(f))
    ensures g.order == [0] && g.blocks == map[0 := [1, 2]] && NarrowCode(g.code)
  {
    NarrowDead(f);
    hide *;
    var dead := AllDeadStores(f);
    KeepHead(0, [1, 2], dead);
    KeepHead(1, [2], dead);
    KeepHead(2, [], dead);
    assert [0] + [1, 2] == [0, 1, 2] && [1] + [2] == [1, 2] && [2] + [] == [2];
    RewrittenLine(f, g, [0, 1, 2], [1, 2]);
  }

  lemma OneByte(mem: Memory, x: nat)
    ensures StoreBytes(mem, 8, x, 1) == mem[8 := x % 256]
  {
    assert StoreBytes(mem[8 := x % 256], 9, x / 256, 0) == mem[8 := x % 256];
  }

  lemma FourBytes()
    ensures 9 in StoreBytes(map[], 8, 256, 4) && StoreBytes(map[], 8, 256, 4)[9] == 1
  {
    assert StoreBytes(map[], 8, 256, 4) == map[8 := 0, 9 := 1, 10 := 0, 11 := 0];
  }

  lemma ByteStep(id: Id, x: nat, s: State, s': State)
    requires s' == s.(pc := s.pc + 1, env := s.env[id := Word(0, 0)], mem := StoreBytes(s.mem, 8, x, 1))
    ensures InstrStep(ByteMachine(), id, Instr(Storeb, 0, [Cst(Word(32, x)), Arg(0)], 0), s, s')
  {
    hide StoreBytes, LoadBytes;
    assert FetchAll([Cst(Word(32, x)), Arg(0)], s.env, ByteMachine().params) == [Word(32, x), Word(64, 8)];
  }

  lemma StopStep(id: Id, s: State, s': State)
    requires s' == s.(ret := Some(None))
    ensures InstrStep(ByteMachine(), id, Instr(Ret, 0, [], 0), s, s')
  {
  }

  lemma NarrowSteps() returns (run: seq<State>)
    ensures |run| == 4 && run[0] == State([0], 0, map[], map[], None)
    ensures forall k | 0 <= k < 3 :: run[k].path == [0] && run[k].pc == k && run[k].ret.None?
    ensures InstrStep(ByteMachine(), 0, Instr(Store, 32, [Cst(Word(32, 256)), Arg(0)], 0), run[0], run[1])
    ensures InstrStep(ByteMachine(), 1, Instr(Storeb, 0, [Cst(Word(32, 0)), Arg(0)], 0), run[1], run[2])
    ensures InstrStep(ByteMachine(), 2, Instr(Ret, 0, [], 0), run[2], run[3])
    ensures run[3].path == [0] && run[3].ret == Some(None) && 9 in run[3].mem
  {
    hide *;
    var s0 := State([0], 0, map[], map[], None);
    var s1 := s0.(pc := 1, env := s0.env[0 := Word(0, 0)], mem := StoreBytes(s0.mem, 8, 256, 4));
    var s2 := s1.(pc := 2, env := s1.env[1 := Word(0, 0)], mem := StoreBytes(s1.mem, 8, 0, 1));
    var s3 := s2.(ret := Some(None));
    FourBytes();
    OneByte(s1.mem, 0);
    StoreStep(0, 256, s0, s1);
    ByteStep(1, 0, s1, s2);
    StopStep(2, s2, s3);
    run := [s0, s1, s2, s3];
  }

  lemma NarrowReturns(f: Function) returns (mem': Memory)
    requires f.order == [0] && f.blocks == map[0 := [0, 1, 2]] && NarrowCode(f.code)
    ensures 9 in mem' && MayReturn(ByteMachine(), f, map[], [0], None, mem')
  {
    hide LeadingPhis, Step, InstrStep, ByteMachine;
    var m, list := ByteMachine(), [0, 1, 2];
    NoPhis(list, f.code);
    var run := NarrowSteps();
    InBlock(m, f, list, run[0], run[1]);
    InBlock(m, f, list, run[1], run[2]);
    InBlock(m, f, list, run[2], run[3]);
    hide NarrowCode;
    assert IsRun(m, f, run);
    assert Last(run) == run[3];
    mem' := run[3].mem;
  }

  lemma OneByteOnlyNext(g: Function, s: State, s': State)
    requires g.order == [0] && g.blocks == map[0 := [1, 2]] && NarrowCode(g.code)
    requires s.path == [0] && 9 !in s.mem && Step(ByteMachine(), g, s, s')
    ensures s'.path == [0] && 9 !in s'.mem
  {
    NoPhis([1, 2], g.code);
    OneByte(s.mem, 0);
    hide LoadBytes, StoreBytes, LeadingPhis;
    assert InstrStep(ByteMachine(), [1, 2][s.pc], g.code[[1, 2][s.pc]], s, s');
    if s.pc == 0 {
      assert FetchAll([Cst(Word(32, 0)), Arg(0)], s.env, ByteMachine().params) == [Word(32, 0), Word(64, 8)];
    }
  }

  lemma {:induction false} OneByteOnly(g: Function, run: seq<State>)
    requires g.order == [0] && g.blocks == map[0 := [1, 2]] && NarrowCode(g.code)
    requires IsRun(ByteMachine(), g, run) && run[0].mem == map[]
    ensures Last(run).path == [0] && 9 !in Last(run).mem
    decreases |run|
  {
    if |run| > 1 {
      RunShrinks(ByteMachine(), g, run);
      hide NarrowCode, Step;
      OneByteOnly(g, run[..|run| - 1]);
      OneByteOnlyNext(g, Last(run[..|run| - 1]), Last(run));
    }
  }

  /** The bytes that the narrower store leaves alone are lost with the wider one. */
  lemma NarrowStoreLeavesBytes()
    ensures WellFormed(NarrowFunction())
    ensures !Preserves(ByteMachine(), NarrowFunction(), Rewrite(NarrowFunction(), StorePlan(NarrowFunction())))
  {
    NarrowIsCode();
    NarrowWellFormed(NarrowFunction());
    var f := NarrowFunction();
    var g := Rewrite(f, StorePlan(f));
    hide NarrowFunction, WellFormed, StorePlan, Rewrite, ByteMachine, StoreBytes;
    var mem' := NarrowReturns(f);
    NarrowRewritten(f, g);
    hide NarrowCode, IsRun;
    forall run: seq<State> | IsRun(ByteMachine(), g, run) && run != [] && run[0].mem == map[]
      ensures 9 !in Last(run).mem
    {
      OneByteOnly(g, run);
    }
    NeverLeaves(g, mem');
  }

  lemma NeverLeaves(g: Function, mem': Memory)
    requires forall run: seq<State> | IsRun(ByteMachine(), g, run) && run != [] && run[0].mem == map[] ::
               9 !in Last(run).mem
    requires 9 in mem'
    ensures !MayReturn(ByteMachine(), g, map[], [0], None, mem')
  {
  }
}
