/**
 From blocks to functions: when every block keeps its phis and its terminator and the
 operations between them keep their joint effect, the function returns what it did and
 gets stuck where it did.
 */
module BlockReordering {
  import opened IR
  import opened Reordering
  import opened Simulation

  /** The parts of a block: phis, operations, one terminator. */
  datatype Shape = Shape(phis: seq<Id>, body: seq<Id>, term: Id)

  function Assemble(sh: Shape): seq<Id> {
    sh.phis + sh.body + [sh.term]
  }

  ghost predicate ValidShape(code: map<Id, Instr>, sh: Shape) {
    && (forall id | id in sh.phis :: id in code && code[id].op == Phi)
    && (forall id | id in sh.body :: id in code && IsPlain(code[id].op))
    && sh.term in code && IsTerminator(code[sh.term].op)
  }

  /** The same block but for the order of its operations. */
  ghost predicate SameBlock(m: Machine, code: map<Id, Instr>, list: seq<Id>, list': seq<Id>, sh: Shape, sh': Shape) {
    && ValidShape(code, sh) && list == Assemble(sh)
    && ValidShape(code, sh') && list' == Assemble(sh')
    && sh'.phis == sh.phis && sh'.term == sh.term && |sh'.body| == |sh.body|
    && SameEffect(m, code, sh.body, sh'.body)
  }

  ghost predicate BlockReordered(m: Machine, code: map<Id, Instr>, list: seq<Id>, list': seq<Id>) {
    exists sh, sh' :: SameBlock(m, code, list, list', sh, sh')
  }

  /** g is f with operations reordered within blocks. */
  ghost predicate Reordered(m: Machine, f: Function, g: Function) {
    && g.order == f.order && g.code == f.code && g.blocks.Keys == f.blocks.Keys
    && forall b | b in f.blocks :: b in g.blocks && BlockReordered(m, f.code, f.blocks[b], g.blocks[b])
  }

  lemma ReorderedBack(m: Machine, f: Function, g: Function)
    requires Reordered(m, f, g)
    ensures Reordered(m, g, f)
  {
    hide SameEffect, ValidShape, Assemble;
    forall b | b in g.blocks
      ensures b in f.blocks && BlockReordered(m, g.code, g.blocks[b], f.blocks[b])
    {
      assert b in f.blocks;
      var sh, sh' :| SameBlock(m, f.code, f.blocks[b], g.blocks[b], sh, sh');
      SameBlockBack(m, f.code, f.blocks[b], g.blocks[b], sh, sh');
    }
  }

  lemma SameBlockBack(m: Machine, code: map<Id, Instr>, list: seq<Id>, list': seq<Id>, sh: Shape, sh': Shape)
    requires SameBlock(m, code, list, list', sh, sh')
    ensures SameBlock(m, code, list', list, sh', sh)
  {
  }

  // ----- One block

  lemma ShapePhis(code: map<Id, Instr>, sh: Shape)
    requires ValidShape(code, sh)
    ensures LeadingPhis(Assemble(sh), code) == |sh.phis|
  {
    var list, k := Assemble(sh), |sh.phis|;
    forall i | 0 <= i < k
      ensures list[i] in code && code[list[i]].op == Phi
    {
      assert list[i] == sh.phis[i] && sh.phis[i] in sh.phis;
    }
    assert list[k] == if sh.body == [] then sh.term else sh.body[0];
    assert sh.body != [] ==> sh.body[0] in sh.body;
  }

  lemma {:induction false} RunsSnoc(m: Machine, code: map<Id, Instr>, list: seq<Id>, x: Id,
                                    env: map<Id, Word>, mem: Memory, env1: map<Id, Word>, mem1: Memory, v: Word,
                                    mem2: Memory)
    requires Runs(m, code, list, env, mem, env1, mem1) && x in code && OpRuns(m, code[x], env1, mem1, v, mem2)
    ensures Runs(m, code, list + [x], env, mem, env1[x := v], mem2)
    decreases |list|
  {
    if list == [] {
      assert [x] + [] == list + [x];
      RunsOne(m, code, x, [], env, mem, v, mem2, env1[x := v], mem2);
    } else {
      assert list == [list[0]] + list[1..];
      var w, mid := FirstOf(m, code, list[0], list[1..], env, mem, env1, mem1);
      RunsSnoc(m, code, list[1..], x, env[list[0] := w], mid, env1, mem1, v, mem2);
      RunsOne(m, code, list[0], list[1..] + [x], env, mem, w, mid, env1[x := v], mem2);
      assert [list[0]] + (list[1..] + [x]) == list + [x];
    }
  }

  /** Where a run stands among the operations of a block. */
  ghost predicate AtOperation(g: Function, sh: Shape, j: nat, t: State) {
    && t.ret.None? && t.path != [] && Last(t.path) in g.blocks
    && g.blocks[Last(t.path)] == Assemble(sh) && ValidShape(g.code, sh)
    && j <= |sh.body| && t.pc == |sh.phis| + j
  }

  lemma OperationStep(m: Machine, g: Function, sh: Shape, j: nat, t: State, v: Word, mem': Memory)
    requires AtOperation(g, sh, j, t) && j < |sh.body|
    requires OpRuns(m, g.code[sh.body[j]], t.env, t.mem, v, mem')
    ensures Step(m, g, t, t.(pc := t.pc + 1, env := t.env[sh.body[j] := v], mem := mem'))
  {
    ShapePhis(g.code, sh);
    assert Assemble(sh)[t.pc] == sh.body[j];
    assert sh.body[j] in sh.body;
    hide ValidShape;
  }

  /** The operations still to come, run one by one. */
  lemma {:induction false} RunThrough(m: Machine, g: Function, sh: Shape, j: nat, run: seq<State>,
                                      env': map<Id, Word>, mem': Memory) returns (run': seq<State>)
    requires IsRun(m, g, run) && AtOperation(g, sh, j, Last(run))
    requires Runs(m, g.code, sh.body[j..], Last(run).env, Last(run).mem, env', mem')
    ensures IsRun(m, g, run') && run' != [] && run'[0] == run[0]
    ensures Last(run') == Last(run).(pc := |sh.phis| + |sh.body|, env := env', mem := mem')
    decreases |sh.body| - j
  {
    var t := Last(run);
    run' := run;
    if j < |sh.body| {
      var x := sh.body[j];
      assert sh.body[j..] == [x] + sh.body[j + 1..];
      var v, mid := FirstOf(m, g.code, x, sh.body[j + 1..], t.env, t.mem, env', mem');
      OperationStep(m, g, sh, j, t, v, mid);
      var t' := t.(pc := t.pc + 1, env := t.env[x := v], mem := mid);
      RunExtends(m, g, run, t');
      hide Step, Runs, OpRuns, ValidShape, Assemble;
      assert AtOperation(g, sh, j + 1, t');
      run' := RunThrough(m, g, sh, j + 1, run + [t'], env', mem');
    }
  }

  // ----- Simulation

  /** The run of g stands where control entered the block, the run of f k operations further. */
  ghost predicate Amid(m: Machine, f: Function, sh: Shape, k: nat, s: State, t: State) {
    && AtOperation(f, sh, k, s)
    && t == s.(pc := |sh.phis|, env := t.env, mem := t.mem)
    && Runs(m, f.code, sh.body[..k], t.env, t.mem, s.env, s.mem)
  }

  ghost predicate Trails(m: Machine, f: Function, s: State, t: State) {
    || (t == s && (s.pc == 0 || s.ret.Some?))
    || exists sh, k :: Amid(m, f, sh, k, s, t)
  }

  lemma AssembleOnce(code: map<Id, Instr>, sh: Shape, sh2: Shape)
    requires ValidShape(code, sh) && ValidShape(code, sh2) && Assemble(sh) == Assemble(sh2)
    ensures sh == sh2
  {
    ShapePhis(code, sh);
    ShapePhis(code, sh2);
    var list := Assemble(sh);
    assert |sh.phis| == |sh2.phis| && |sh.body| == |sh2.body|;
    assert sh.phis == list[..|sh.phis|] == sh2.phis;
    assert sh.body == list[|sh.phis|..|sh.phis| + |sh.body|] == sh2.body;
    assert sh.term == list[|list| - 1] == sh2.term;
  }

  /** Phis are taken from a block's front, which both functions share. */
  lemma PhisTogether(m: Machine, f: Function, g: Function, sh: Shape, sh': Shape, s: State, s': State)
    requires g.code == f.code && ValidShape(f.code, sh) && ValidShape(f.code, sh') && sh.phis == sh'.phis
    requires s.ret.None? && s.path != [] && Last(s.path) in f.blocks && Last(s.path) in g.blocks
    requires f.blocks[Last(s.path)] == Assemble(sh) && g.blocks[Last(s.path)] == Assemble(sh')
    requires Step(m, f, s, s') && s.pc == 0 && |sh.phis| > 0
    ensures Step(m, g, s, s')
    ensures Amid(m, f, sh, 0, s', s')
  {
    ShapePhis(f.code, sh);
    ShapePhis(f.code, sh');
    var n, list, list' := |sh.phis|, Assemble(sh), Assemble(sh');
    assert list[..n] == sh.phis == list'[..n];
    assert forall i | 0 <= i < n :: list[i] == sh.phis[i] == list'[i];
    hide ValidShape, Assemble, LeadingPhis, Runs;
    assert PhiStep(m, f, list, n, s, s');
    PhiPrefix(m, f, g, list, list', n, s, s');
    hide PhiStep;
    assert AtOperation(f, sh, 0, s');
    NoOperations(m, f.code, s'.env, s'.mem);
    assert sh.body[..0] == [];
  }

  lemma NoOperations(m: Machine, code: map<Id, Instr>, env: map<Id, Word>, mem: Memory)
    ensures Runs(m, code, [], env, mem, env, mem)
  {
  }

  lemma PhiPrefix(m: Machine, f: Function, g: Function, list: seq<Id>, list': seq<Id>, n: nat, s: State, s': State)
    requires g.code == f.code && n <= |list| && n <= |list'| && list[..n] == list'[..n]
    requires forall i | 0 <= i < n :: list[i] == list'[i]
    requires forall i | 0 <= i < n :: list[i] in f.code
    requires PhiStep(m, f, list, n, s, s')
    ensures PhiStep(m, g, list', n, s, s')
    ensures s'.path == s.path && s'.pc == n && s'.ret == s.ret
  {
    assert (set i | 0 <= i < n :: list[i]) == (set i | 0 <= i < n :: list'[i]);
  }

  /** One operation of f: the run of g need not move. */
  lemma OperationStepped(m: Machine, f: Function, sh: Shape, k: nat, s: State, s': State)
    requires AtOperation(f, sh, k, s) && k < |sh.body|
    requires Step(m, f, s, s') && (s.pc > 0 || sh.phis == [])
    ensures sh.body[k] in f.code && OpStep(m, sh.body[k], f.code[sh.body[k]], s, s') && AtOperation(f, sh, k + 1, s')
  {
    hide LeadingPhis, ValidShape, Assemble, InstrStep;
    ShapePhis(f.code, sh);
    BodyAt(f.code, sh, k);
    PlainSteps(m, sh.body[k], f.code[sh.body[k]], s, s');
  }

  lemma BodyAt(code: map<Id, Instr>, sh: Shape, k: nat)
    requires ValidShape(code, sh) && k < |sh.body|
    ensures |sh.phis| + k < |Assemble(sh)| && Assemble(sh)[|sh.phis| + k] == sh.body[k]
    ensures sh.body[k] in code && IsPlain(code[sh.body[k]].op)
  {
    assert sh.body[k] in sh.body;
  }

  lemma PlainSteps(m: Machine, id: Id, instr: Instr, s: State, s': State)
    requires IsPlain(instr.op)
    ensures InstrStep(m, id, instr, s, s') <==> OpStep(m, id, instr, s, s')
  {
    hide OpStep;
  }

  lemma OperationTogether(m: Machine, f: Function, sh: Shape, k: nat, s: State, t: State, s': State)
    requires Amid(m, f, sh, k, s, t) && k < |sh.body|
    requires Step(m, f, s, s') && (s.pc > 0 || sh.phis == [])
    ensures Amid(m, f, sh, k + 1, s', t)
  {
    hide AtOperation, Runs, Step;
    var x := sh.body[k];
    OperationStepped(m, f, sh, k, s, s');
    RunsSnoc(m, f.code, sh.body[..k], x, t.env, t.mem, s.env, s.mem, s'.env[x], s'.mem);
    assert sh.body[..k] + [x] == sh.body[..k + 1];
  }

  /** A terminator only looks at the state. */
  lemma TerminatorTogether(m: Machine, f: Function, g: Function, sh: Shape, sh': Shape, s: State, s': State)
    requires g.code == f.code && AtOperation(f, sh, |sh.body|, s) && AtOperation(g, sh', |sh'.body|, s)
    requires sh.term == sh'.term
    requires Step(m, f, s, s') && (s.pc > 0 || sh.phis == []) && (s.pc > 0 || sh'.phis == [])
    ensures Step(m, g, s, s') && (s'.pc == 0 || s'.ret.Some?)
  {
    ShapePhis(f.code, sh);
    ShapePhis(f.code, sh');
    assert Assemble(sh)[s.pc] == sh.term && Assemble(sh')[s.pc] == sh.term;
    hide ValidShape, Assemble, LeadingPhis;
  }

  lemma RunGrows(m: Machine, f: Function, run: seq<State>, s': State)
    requires IsRun(m, f, run) && Step(m, f, Last(run), s')
    ensures IsRun(m, f, run + [s']) && Last(run + [s']) == s' && (run + [s'])[0] == run[0]
  {
    RunExtends(m, f, run, s');
  }

  /** Where the two runs stand, when the block is past its phis. */
  lemma Standing(m: Machine, f: Function, sh: Shape, s: State, t: State) returns (k: nat)
    requires s.ret.None? && s.path != [] && Last(s.path) in f.blocks
    requires ValidShape(f.code, sh) && f.blocks[Last(s.path)] == Assemble(sh)
    requires Trails(m, f, s, t) && (s.pc > 0 || sh.phis == [])
    ensures Amid(m, f, sh, k, s, t)
  {
    hide ValidShape, Assemble;
    if t == s && s.pc == 0 {
      k := 0;
      assert sh.body[..0] == [];
    } else {
      var sh2, j :| Amid(m, f, sh2, j, s, t);
      hide Runs;
      AssembleOnce(f.code, sh, sh2);
      k := j;
    }
  }

  lemma SameOperations(m: Machine, code: map<Id, Instr>, a: seq<Id>, b: seq<Id>, env: map<Id, Word>, mem: Memory,
                       env': map<Id, Word>, mem': Memory)
    requires SameEffect(m, code, a, b) && Runs(m, code, a, env, mem, env', mem')
    ensures Runs(m, code, b, env, mem, env', mem')
  {
    hide Runs;
  }

  /** Within a block: an operation of f leaves g where it is, the terminator makes g catch up. */
  lemma AmidStep(m: Machine, f: Function, g: Function, sh: Shape, sh': Shape, k: nat, s: State, s': State,
                 run: seq<State>)
    returns (run': seq<State>)
    requires g.code == f.code && s.path != [] && Last(s.path) in g.blocks && g.blocks[Last(s.path)] == Assemble(sh')
    requires ValidShape(g.code, sh') && sh'.phis == sh.phis && sh'.term == sh.term && |sh'.body| == |sh.body|
    requires SameEffect(m, f.code, sh.body, sh'.body)
    requires IsRun(m, g, run) && Amid(m, f, sh, k, s, Last(run)) && Step(m, f, s, s') && (s.pc > 0 || sh.phis == [])
    ensures IsRun(m, g, run') && run' != [] && run'[0] == run[0] && Trails(m, f, s', Last(run'))
  {
    assert run != [];
    hide Step, IsRun, Runs, ValidShape, Assemble, SameEffect;
    var t := Last(run);
    if k < |sh.body| {
      OperationTogether(m, f, sh, k, s, t, s');
      hide Amid;
      run' := run;
    } else {
      assert sh.body[..k] == sh.body && sh'.body[0..] == sh'.body;
      SameOperations(m, f.code, sh.body, sh'.body, t.env, t.mem, s.env, s.mem);
      assert AtOperation(g, sh', 0, t);
      run' := RunThrough(m, g, sh', 0, run, s.env, s.mem);
      assert Last(run') == s;
      assert AtOperation(g, sh', |sh'.body|, s);
      TerminatorTogether(m, f, g, sh, sh', s, s');
      RunGrows(m, g, run', s');
      run' := run' + [s'];
    }
  }

  lemma ShapesOf(m: Machine, f: Function, g: Function, b: BlockId) returns (sh: Shape, sh': Shape)
    requires Reordered(m, f, g) && b in f.blocks
    ensures b in g.blocks && f.blocks[b] == Assemble(sh) && g.blocks[b] == Assemble(sh')
    ensures ValidShape(f.code, sh) && ValidShape(f.code, sh') && g.code == f.code
    ensures sh'.phis == sh.phis && sh'.term == sh.term && |sh'.body| == |sh.body|
    ensures SameEffect(m, f.code, sh.body, sh'.body)
  {
    hide SameEffect, ValidShape, Assemble;
    assert BlockReordered(m, f.code, f.blocks[b], g.blocks[b]);
    sh, sh' :| SameBlock(m, f.code, f.blocks[b], g.blocks[b], sh, sh');
  }

  lemma StepStands(m: Machine, f: Function, s: State, s': State)
    requires Step(m, f, s, s')
    ensures s.ret.None? && s.path != [] && Last(s.path) in f.blocks
  {
  }

  lemma FollowsStep(m: Machine, f: Function, g: Function, s: State, s': State, run: seq<State>)
    returns (run': seq<State>)
    requires Reordered(m, f, g) && Step(m, f, s, s') && IsRun(m, g, run) && Trails(m, f, s, Last(run))
    ensures IsRun(m, g, run') && run' != [] && run'[0] == run[0] && Trails(m, f, s', Last(run'))
  {
    StepStands(m, f, s, s');
    var sh, sh' := ShapesOf(m, f, g, Last(s.path));
    var t := Last(run);
    hide Step, IsRun, Runs, ValidShape, Assemble, Reordered, SameEffect, AtOperation;
    if s.pc == 0 && |sh.phis| > 0 {
      AtEntry(m, f, sh, s, t);
      PhisTogether(m, f, g, sh, sh', s, s');
      RunGrows(m, g, run, s');
      run' := run + [s'];
    } else {
      var k := Standing(m, f, sh, s, t);
      hide Follows, Amid;
      run' := AmidStep(m, f, g, sh, sh', k, s, s', run);
    }
  }

  lemma AtEntry(m: Machine, f: Function, sh: Shape, s: State, t: State)
    requires s.ret.None? && s.path != [] && Last(s.path) in f.blocks
    requires ValidShape(f.code, sh) && f.blocks[Last(s.path)] == Assemble(sh)
    requires Trails(m, f, s, t) && s.pc == 0 && |sh.phis| > 0
    ensures t == s
  {
    hide ValidShape, Assemble, Runs;
    if t != s {
      var sh2, j :| Amid(m, f, sh2, j, s, t);
      AssembleOnce(f.code, sh, sh2);
    }
  }

  lemma {:induction false} FollowsRun(m: Machine, f: Function, g: Function, run: seq<State>)
    returns (run': seq<State>)
    requires Reordered(m, f, g) && IsRun(m, f, run)
    ensures IsRun(m, g, run') && run' != [] && run'[0] == run[0] && Trails(m, f, Last(run), Last(run'))
    decreases |run|
  {
    if |run| == 1 {
      assert Initial(g, run[0]);
      run' := run;
    } else {
      RunShrinks(m, f, run);
      var before := run[..|run| - 1];
      hide Step, IsRun, Reordered, Follows;
      run' := FollowsRun(m, f, g, before);
      run' := FollowsStep(m, f, g, Last(before), Last(run), run');
    }
  }

  lemma ReturnsToo(m: Machine, f: Function, g: Function, mem: Memory, path: seq<BlockId>, ret: Option<Word>,
                   mem': Memory)
    requires Reordered(m, f, g) && MayReturn(m, f, mem, path, ret, mem')
    ensures MayReturn(m, g, mem, path, ret, mem')
  {
    hide Step, Reordered, AtOperation;
    var run: seq<State> :| IsRun(m, f, run) && run[0].mem == mem
               && Last(run).path == path && Last(run).ret == Some(ret) && Last(run).mem == mem';
    var run' := FollowsRun(m, f, g, run);
    ReturnedTogether(m, f, Last(run), Last(run'));
  }

  lemma ReturnedTogether(m: Machine, f: Function, s: State, t: State)
    requires Trails(m, f, s, t) && s.ret.Some?
    ensures t == s
  {
  }

  /** A function and its reordering return the same values, along the same blocks, with the same memory. */
  lemma ReorderingPreservesReturns(m: Machine, f: Function, g: Function, mem: Memory, path: seq<BlockId>,
                                   ret: Option<Word>, mem': Memory)
    requires Reordered(m, f, g)
    ensures MayReturn(m, f, mem, path, ret, mem') <==> MayReturn(m, g, mem, path, ret, mem')
  {
    ReorderedBack(m, f, g);
    if MayReturn(m, f, mem, path, ret, mem') { ReturnsToo(m, f, g, mem, path, ret, mem'); }
    if MayReturn(m, g, mem, path, ret, mem') { ReturnsToo(m, g, f, mem, path, ret, mem'); }
  }

  // ----- Stuck runs

  lemma StuckOperation(m: Machine, f: Function, sh: Shape, k: nat, s: State)
    requires AtOperation(f, sh, k, s) && k < |sh.body| && Stuck(m, f, s)
    ensures sh.body[k] in f.code && NoResult(m, f.code[sh.body[k]], s.env, s.mem)
  {
    assert sh.body[k] in sh.body;
    hide Step, OpRuns, AtOperation;
    if !NoResult(m, f.code[sh.body[k]], s.env, s.mem) {
      var v, mem' := SomeResult(m, f.code[sh.body[k]], s.env, s.mem);
      OperationStep(m, f, sh, k, s, v, mem');
    }
  }

  /** Some operations run, and then one that cannot. */
  lemma {:induction false} StuckAfterRuns(m: Machine, code: map<Id, Instr>, list: seq<Id>, k: nat,
                                          env: map<Id, Word>, mem: Memory, env': map<Id, Word>, mem': Memory)
    requires k < |list| && Runs(m, code, list[..k], env, mem, env', mem')
    requires list[k] in code && NoResult(m, code[list[k]], env', mem')
    ensures StuckIn(m, code, list, env, mem)
    decreases k
  {
    hide Runs, StuckIn, NoResult, OpRuns;
    assert list == [list[0]] + list[1..];
    StuckOne(m, code, list[0], list[1..], env, mem);
    if k == 0 {
      assert list[..0] == [];
      NothingRun(m, code, env, mem, env', mem');
    } else {
      assert list[..k] == [list[0]] + list[1..][..k - 1];
      var v, mid := FirstOf(m, code, list[0], list[1..][..k - 1], env, mem, env', mem');
      StuckAfterRuns(m, code, list[1..], k - 1, env[list[0] := v], mid, env', mem');
    }
  }

  lemma NothingRun(m: Machine, code: map<Id, Instr>, env: map<Id, Word>, mem: Memory, env': map<Id, Word>, mem': Memory)
    requires Runs(m, code, [], env, mem, env', mem')
    ensures env' == env && mem' == mem
  {
  }

  /** An operation that cannot run stops the function there. */
  lemma OperationStuck(m: Machine, g: Function, sh: Shape, j: nat, t: State)
    requires AtOperation(g, sh, j, t) && j < |sh.body| && sh.body[j] in g.code
    requires NoResult(m, g.code[sh.body[j]], t.env, t.mem)
    ensures Stuck(m, g, t)
  {
    hide LeadingPhis, NoResult;
    ShapePhis(g.code, sh);
    assert sh.body[j] in sh.body;
    assert Assemble(sh)[t.pc] == sh.body[j];
    forall t' | Step(m, g, t, t')
      ensures false
    {
      NoOpStep(m, sh.body[j], g.code[sh.body[j]], t, t');
    }
  }

  lemma NoOpStep(m: Machine, id: Id, instr: Instr, t: State, t': State)
    requires NoResult(m, instr, t.env, t.mem)
    ensures !OpStep(m, id, instr, t, t')
  {
    if OpStep(m, id, instr, t, t') {
      assert OpRuns(m, instr, t.env, t.mem, t'.env[id], t'.mem);
    }
  }

  /** The function can come to the operation that cannot run. */
  lemma {:induction false} RunIntoStuck(m: Machine, g: Function, sh: Shape, j: nat, run: seq<State>)
    returns (run': seq<State>)
    requires IsRun(m, g, run) && AtOperation(g, sh, j, Last(run))
    requires StuckIn(m, g.code, sh.body[j..], Last(run).env, Last(run).mem)
    ensures IsRun(m, g, run') && run' != [] && run'[0] == run[0]
    ensures Stuck(m, g, Last(run')) && Last(run').path == Last(run).path
    decreases |sh.body| - j
  {
    var t := Last(run);
    run' := run;
    var x := sh.body[j];
    assert sh.body[j..] == [x] + sh.body[j + 1..];
    hide Step, StuckIn, NoResult, OpRuns, ValidShape, Assemble, AtOperation;
    StuckOne(m, g.code, x, sh.body[j + 1..], t.env, t.mem);
    if NoResult(m, g.code[x], t.env, t.mem) {
      OperationStuck(m, g, sh, j, t);
    } else {
      var v: Word, mid: Memory :| OpRuns(m, g.code[x], t.env, t.mem, v, mid)
         && StuckIn(m, g.code, sh.body[j + 1..], t.env[x := v], mid);
      OperationStep(m, g, sh, j, t, v, mid);
      var t' := t.(pc := t.pc + 1, env := t.env[x := v], mem := mid);
      RunExtends(m, g, run, t');
      NextOperation(g, sh, j, t, t');
      run' := RunIntoStuck(m, g, sh, j + 1, run + [t']);
    }
  }

  lemma NextOperation(g: Function, sh: Shape, j: nat, t: State, t': State)
    requires AtOperation(g, sh, j, t) && j < |sh.body| && t' == t.(pc := t.pc + 1, env := t'.env, mem := t'.mem)
    ensures AtOperation(g, sh, j + 1, t')
  {
    hide ValidShape, Assemble;
  }

  lemma NotStuck(m: Machine, f: Function, s: State, s': State)
    requires Step(m, f, s, s')
    ensures !Stuck(m, f, s)
  {
    hide Step;
  }

  lemma StuckOrSteps(m: Machine, f: Function, s: State) returns (s': State)
    requires s.ret.None? && !Stuck(m, f, s)
    ensures Step(m, f, s, s')
  {
    hide Step;
    s' :| Step(m, f, s, s');
  }

  lemma NowhereStuck(m: Machine, g: Function, s: State)
    requires s.ret.None? && !(s.path != [] && Last(s.path) in g.blocks)
    ensures Stuck(m, g, s)
  {
  }

  lemma NowhereTogether(m: Machine, f: Function, s: State, t: State)
    requires Trails(m, f, s, t) && !(s.path != [] && Last(s.path) in f.blocks)
    ensures t == s
  {
  }

  lemma SameKeys(m: Machine, f: Function, g: Function)
    requires Reordered(m, f, g)
    ensures g.blocks.Keys == f.blocks.Keys && g.code == f.code
  {
    hide BlockReordered;
  }

  /** At the phis neither can step. */
  lemma StuckAtPhis(m: Machine, f: Function, g: Function, sh: Shape, sh': Shape, s: State)
    requires g.code == f.code && ValidShape(f.code, sh) && ValidShape(f.code, sh') && sh.phis == sh'.phis
    requires s.path != [] && Last(s.path) in f.blocks && Last(s.path) in g.blocks
    requires f.blocks[Last(s.path)] == Assemble(sh) && g.blocks[Last(s.path)] == Assemble(sh')
    requires Stuck(m, f, s) && s.ret.None? && s.pc == 0 && |sh.phis| > 0
    ensures Stuck(m, g, s)
  {
    hide Step, ValidShape, Assemble, Stuck;
    if !Stuck(m, g, s) {
      var s' := StuckOrSteps(m, g, s);
      PhisTogether(m, g, f, sh', sh, s, s');
      NotStuck(m, f, s, s');
    }
  }

  /** Nor at the terminator. */
  lemma StuckAtTerminator(m: Machine, f: Function, g: Function, sh: Shape, sh': Shape, s: State)
    requires g.code == f.code && AtOperation(f, sh, |sh.body|, s) && AtOperation(g, sh', |sh'.body|, s)
    requires sh.term == sh'.term
    requires Stuck(m, f, s) && s.ret.None? && (s.pc > 0 || sh.phis == []) && (s.pc > 0 || sh'.phis == [])
    ensures Stuck(m, g, s)
  {
    hide Step, AtOperation, Stuck;
    if !Stuck(m, g, s) {
      var s' := StuckOrSteps(m, g, s);
      TerminatorTogether(m, g, f, sh', sh, s, s');
      NotStuck(m, f, s, s');
    }
  }

  lemma StuckSame(m: Machine, code: map<Id, Instr>, a: seq<Id>, b: seq<Id>, env: map<Id, Word>, mem: Memory)
    requires SameEffect(m, code, a, b) && StuckIn(m, code, a, env, mem)
    ensures StuckIn(m, code, b, env, mem)
  {
    hide SameRuns, StuckIn;
  }

  /** Within a block: where f is stuck, g is or comes to be. */
  lemma AmidStuck(m: Machine, f: Function, g: Function, sh: Shape, sh': Shape, k: nat, s: State, run: seq<State>)
    returns (run': seq<State>)
    requires g.code == f.code && s.path != [] && Last(s.path) in g.blocks && g.blocks[Last(s.path)] == Assemble(sh')
    requires ValidShape(g.code, sh') && sh'.phis == sh.phis && sh'.term == sh.term && |sh'.body| == |sh.body|
    requires SameEffect(m, f.code, sh.body, sh'.body)
    requires IsRun(m, g, run) && Amid(m, f, sh, k, s, Last(run)) && Stuck(m, f, s) && (s.pc > 0 || sh.phis == [])
    ensures IsRun(m, g, run') && run' != [] && run'[0] == run[0]
    ensures Stuck(m, g, Last(run')) && Last(run').path == s.path
  {
    assert run != [] && s.ret.None?;
    hide Step, IsRun, Runs, StuckIn, ValidShape, Assemble, SameEffect, Stuck;
    var t := Last(run);
    assert sh'.body[0..] == sh'.body;
    assert AtOperation(g, sh', 0, t);
    if k < |sh.body| {
      StuckOperation(m, f, sh, k, s);
      StuckAfterRuns(m, f.code, sh.body, k, t.env, t.mem, s.env, s.mem);
      StuckSame(m, f.code, sh.body, sh'.body, t.env, t.mem);
      run' := RunIntoStuck(m, g, sh', 0, run);
    } else {
      assert sh.body[..k] == sh.body;
      SameOperations(m, f.code, sh.body, sh'.body, t.env, t.mem, s.env, s.mem);
      run' := RunThrough(m, g, sh', 0, run, s.env, s.mem);
      assert Last(run') == s;
      assert AtOperation(g, sh', |sh'.body|, s);
      StuckAtTerminator(m, f, g, sh, sh', s);
    }
  }

  lemma StuckTogether(m: Machine, f: Function, g: Function, s: State, run: seq<State>) returns (run': seq<State>)
    requires Reordered(m, f, g) && Stuck(m, f, s) && IsRun(m, g, run) && Trails(m, f, s, Last(run))
    ensures IsRun(m, g, run') && run' != [] && run'[0] == run[0] && Stuck(m, g, Last(run')) && Last(run').path == s.path
  {
    assert run != [] && s.ret.None?;
    SameKeys(m, f, g);
    hide Step, IsRun, Runs, ValidShape, Assemble, Reordered, SameEffect, AtOperation, Trails, Amid, Stuck;
    run' := run;
    if !(s.path != [] && Last(s.path) in f.blocks) {
      NowhereTogether(m, f, s, Last(run));
      NowhereStuck(m, g, s);
    } else {
      var sh, sh' := ShapesOf(m, f, g, Last(s.path));
      if s.pc == 0 && |sh.phis| > 0 {
        AtEntry(m, f, sh, s, Last(run));
        StuckAtPhis(m, f, g, sh, sh', s);
      } else {
        var k := Standing(m, f, sh, s, Last(run));
        run' := AmidStuck(m, f, g, sh, sh', k, s, run);
      }
    }
  }

  lemma GetsStuckToo(m: Machine, f: Function, g: Function, mem: Memory, path: seq<BlockId>)
    requires Reordered(m, f, g) && MayGetStuck(m, f, mem, path)
    ensures MayGetStuck(m, g, mem, path)
  {
    hide Step, Reordered, Trails, Stuck;
    var run: seq<State> :| IsRun(m, f, run) && run[0].mem == mem && Stuck(m, f, Last(run)) && Last(run).path <= path;
    var run' := FollowsRun(m, f, g, run);
    run' := StuckTogether(m, f, g, Last(run), run');
  }

  lemma ReorderingPreservesOne(m: Machine, f: Function, g: Function)
    requires Reordered(m, f, g) && Reordered(m, g, f)
    ensures Preserves(m, f, g)
  {
    hide Reordered, MayReturn, MayGetStuck;
    forall mem, path, ret, mem'
      ensures MayReturn(m, f, mem, path, ret, mem') <==> MayReturn(m, g, mem, path, ret, mem')
    {
      ReorderingPreservesReturns(m, f, g, mem, path, ret, mem');
    }
    forall mem, path | MayGetStuck(m, g, mem, path)
      ensures MayGetStuck(m, f, mem, path)
    {
      GetsStuckToo(m, g, f, mem, path);
    }
  }

  /**
   No caller can tell a function from its reordering: each returns what the other does, and gets
   stuck where the other does.
   */
  lemma ReorderingPreserves(m: Machine, f: Function, g: Function)
    requires Reordered(m, f, g)
    ensures Preserves(m, f, g) && Preserves(m, g, f)
  {
    hide Reordered, MayReturn, MayGetStuck, Preserves;
    ReorderedBack(m, f, g);
    ReorderingPreservesOne(m, f, g);
    ReorderingPreservesOne(m, g, f);
  }
}
