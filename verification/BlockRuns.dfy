/**
 Runs from one point of a function to another, and how a block is passed: its phis at once,
 its operations one by one, then its terminator.
 */
module BlockRuns {
  import opened IR
  import opened Reordering
  import opened BlockReordering

  /** n steps lead from s to t. */
  ghost predicate Leads(m: Machine, f: Function, n: nat, s: State, t: State) {
    if n == 0 then t == s else exists s' :: Step(m, f, s, s') && Leads(m, f, n - 1, s', t)
  }

  ghost predicate Reaches(m: Machine, f: Function, s: State, t: State) {
    exists n: nat :: Leads(m, f, n, s, t)
  }

  lemma {:induction false} LeadsThen(m: Machine, f: Function, n: nat, k: nat, s: State, t: State, u: State)
    requires Leads(m, f, n, s, t) && Leads(m, f, k, t, u)
    ensures Leads(m, f, n + k, s, u)
    decreases n
  {
    hide Step;
    if n > 0 {
      var s' := FirstLead(m, f, n, s, t);
      LeadsThen(m, f, n - 1, k, s', t, u);
    }
  }

  lemma ReachesThen(m: Machine, f: Function, s: State, t: State, u: State)
    requires Reaches(m, f, s, t) && Reaches(m, f, t, u)
    ensures Reaches(m, f, s, u)
  {
    hide Leads;
    var n: nat :| Leads(m, f, n, s, t);
    var k: nat :| Leads(m, f, k, t, u);
    LeadsThen(m, f, n, k, s, t, u);
  }

  lemma StepReaches(m: Machine, f: Function, s: State, s': State)
    requires Step(m, f, s, s')
    ensures Reaches(m, f, s, s')
  {
    hide Step;
    assert Leads(m, f, 0, s', s');
    assert Leads(m, f, 1, s, s');
  }

  /** What a run comes to, continued. */
  lemma {:induction false} RunLeads(m: Machine, f: Function, run: seq<State>, n: nat, t: State)
    returns (run': seq<State>)
    requires IsRun(m, f, run) && Leads(m, f, n, Last(run), t)
    ensures IsRun(m, f, run') && run <= run' && Last(run') == t
    decreases n
  {
    hide *;
    NotEmpty(m, f, run);
    run' := run;
    if n > 0 {
      var s' := FirstLead(m, f, n, Last(run), t);
      RunGrows(m, f, run, s');
      NotEmpty(m, f, run + [s']);
      run' := RunLeads(m, f, run + [s'], n - 1, t);
    } else {
      NoLead(m, f, Last(run), t);
    }
  }

  lemma NotEmpty(m: Machine, f: Function, run: seq<State>)
    ensures IsRun(m, f, run) ==> run != []
  {
  }

  lemma FirstLead(m: Machine, f: Function, n: nat, s: State, t: State) returns (s': State)
    requires Leads(m, f, n, s, t) && n > 0
    ensures Step(m, f, s, s') && Leads(m, f, n - 1, s', t)
  {
    hide Step;
    s' :| Step(m, f, s, s') && Leads(m, f, n - 1, s', t);
  }

  lemma NoLead(m: Machine, f: Function, s: State, t: State)
    ensures Leads(m, f, 0, s, t) <==> t == s
  {
  }

  lemma StepPath(m: Machine, f: Function, s: State, s': State)
    requires Step(m, f, s, s')
    ensures s.path <= s'.path && s.ret.None?
  {
  }

  /** Paths only grow. */
  lemma {:induction false} PathGrows(m: Machine, f: Function, n: nat, s: State, t: State)
    requires Leads(m, f, n, s, t)
    ensures s.path <= t.path
    decreases n
  {
    hide Step;
    if n > 0 {
      var s' := FirstLead(m, f, n, s, t);
      StepPath(m, f, s, s');
      PathGrows(m, f, n - 1, s', t);
    }
  }

  // ----- Phis

  /** The phis hold the values. */
  function Assigned(phis: seq<Id>, vals: map<Id, Value>, env: map<Id, Word>, params: seq<Word>): map<Id, Word>
    requires forall p | p in phis :: p in vals
  {
    env + map p | p in phis :: Fetch(vals[p], env, params)
  }

  /** What the phis receive along the edge from the block. */
  ghost predicate Receive(code: map<Id, Instr>, phis: seq<Id>, pred: BlockId, vals: map<Id, Value>) {
    forall p | p in phis ::
      p in code && code[p].op == Phi && p in vals && IncomingFrom(code[p].operands, pred, 0) == Some(vals[p])
  }

  ghost predicate ValuesReady(phis: seq<Id>, vals: map<Id, Value>, env: map<Id, Word>, params: seq<Word>)
    requires forall p | p in phis :: p in vals
  {
    forall p | p in phis :: IR.Ready(vals[p], env, params)
  }

  /** A run has come to a block by an edge. */
  ghost predicate Arrived(f: Function, sh: Shape, pred: BlockId, s: State) {
    && s.ret.None? && |s.path| >= 2 && s.pc == 0 && s.path[|s.path| - 2] == pred
    && Last(s.path) in f.blocks && f.blocks[Last(s.path)] == Assemble(sh) && ValidShape(f.code, sh)
  }

  lemma PhiStepIs(m: Machine, f: Function, list: seq<Id>, n: nat, s: State, s': State, vals: map<Id, Value>)
    requires n <= |list| && |s.path| >= 2 && forall i | 0 <= i < n :: list[i] in f.code
    requires Receive(f.code, list[..n], s.path[|s.path| - 2], vals)
    ensures PhiStep(m, f, list, n, s, s') <==>
              && ValuesReady(list[..n], vals, s.env, m.params)
              && s' == s.(pc := n, env := Assigned(list[..n], vals, s.env, m.params))
  {
    var phis, pred := list[..n], s.path[|s.path| - 2];
    hide *;
    PhiListed(f, list, n, pred, vals);
    ReadyListed(m, f, list, n, pred, vals, s.env);
    PhiValues(m, phis, vals, s.env, s'.env);
    PhiStepParts(m, f, list, n, pred, vals, s, s');
  }

  lemma PhiStepParts(m: Machine, f: Function, list: seq<Id>, n: nat, pred: BlockId, vals: map<Id, Value>, s: State,
                     s': State)
    requires n <= |list| && |s.path| >= 2 && (forall i | 0 <= i < n :: list[i] in f.code)
    requires pred == s.path[|s.path| - 2]
    requires Receive(f.code, list[..n], pred, vals)
    requires forall p | p in list[..n] :: p in vals
    ensures PhiStep(m, f, list, n, s, s') <==>
              && (forall i | 0 <= i < n ::
                    var v := IncomingFrom(f.code[list[i]].operands, pred, 0);
                    v.Some? && IR.Ready(v.value, s.env, m.params))
              && s' == s.(pc := n, env := s'.env)
              && s'.env.Keys == s.env.Keys + (set p | p in list[..n])
              && (forall p | p in list[..n] :: p in s'.env && s'.env[p] == Fetch(vals[p], s.env, m.params))
              && (forall x | x in s.env && x !in list[..n] :: x in s'.env && s'.env[x] == s.env[x])
  {
    hide IncomingFrom, Fetch, IR.Ready, Receive;
    PhiListed(f, list, n, pred, vals);
    if s'.env.Keys == s.env.Keys + (set p | p in list[..n]) {
      ValuesListed(m, f, list, n, pred, vals, s.env, s'.env);
    }
  }

  lemma ReadyListed(m: Machine, f: Function, list: seq<Id>, n: nat, pred: BlockId, vals: map<Id, Value>,
                    env: map<Id, Word>)
    requires n <= |list| && Receive(f.code, list[..n], pred, vals) && forall i | 0 <= i < n :: list[i] in f.code
    ensures (forall i | 0 <= i < n ::
               var v := IncomingFrom(f.code[list[i]].operands, pred, 0);
               v.Some? && IR.Ready(v.value, env, m.params))
            <==> ValuesReady(list[..n], vals, env, m.params)
  {
    hide IncomingFrom, IR.Ready, Receive;
    PhiListed(f, list, n, pred, vals);
  }

  lemma ValuesListed(m: Machine, f: Function, list: seq<Id>, n: nat, pred: BlockId, vals: map<Id, Value>,
                     env: map<Id, Word>, env': map<Id, Word>)
    requires n <= |list| && Receive(f.code, list[..n], pred, vals) && forall i | 0 <= i < n :: list[i] in f.code
    requires env'.Keys == env.Keys + (set p | p in list[..n])
    requires forall p | p in list[..n] :: p in vals
    ensures forall i | 0 <= i < n ::
              list[i] in env' && IncomingFrom(f.code[list[i]].operands, pred, 0).Some?
    ensures (forall i | 0 <= i < n ::
               env'[list[i]] == Fetch(IncomingFrom(f.code[list[i]].operands, pred, 0).value, env, m.params))
            <==> forall p | p in list[..n] :: p in env' && env'[p] == Fetch(vals[p], env, m.params)
  {
    hide IncomingFrom, Fetch, Receive;
    PhiListed(f, list, n, pred, vals);
  }

  lemma PhiListed(f: Function, list: seq<Id>, n: nat, pred: BlockId, vals: map<Id, Value>)
    requires n <= |list| && Receive(f.code, list[..n], pred, vals)
    ensures forall i | 0 <= i < n ::
              && list[i] in list[..n] && list[i] in f.code && list[i] in vals
              && IncomingFrom(f.code[list[i]].operands, pred, 0) == Some(vals[list[i]])
    ensures forall p | p in list[..n] :: exists i :: 0 <= i < n && list[i] == p
    ensures (set i | 0 <= i < n :: list[i]) == (set p | p in list[..n])
  {
    var phis := list[..n];
    hide IncomingFrom;
    forall i | 0 <= i < n
      ensures list[i] in phis
    {
      assert phis[i] == list[i];
    }
    forall p | p in phis
      ensures exists i :: 0 <= i < n && list[i] == p
    {
      var i :| 0 <= i < |phis| && phis[i] == p;
      assert list[i] == p;
    }
  }

  /** The environment after the phis, element by element. */
  lemma PhiValues(m: Machine, phis: seq<Id>, vals: map<Id, Value>, env: map<Id, Word>, env': map<Id, Word>)
    requires forall p | p in phis :: p in vals
    ensures env' == Assigned(phis, vals, env, m.params) <==>
              && env'.Keys == env.Keys + (set p | p in phis)
              && (forall p | p in phis :: p in env' && env'[p] == Fetch(vals[p], env, m.params))
              && (forall x | x in env && x !in phis :: x in env' && env'[x] == env[x])
  {
    hide Fetch;
    var full := Assigned(phis, vals, env, m.params);
    assert full.Keys == env.Keys + (set p | p in phis);
    if && env'.Keys == full.Keys
       && (forall p | p in phis :: p in env' && env'[p] == Fetch(vals[p], env, m.params))
       && (forall x | x in env && x !in phis :: x in env' && env'[x] == env[x])
    {
      assert env' == full;
    }
  }

  /** A block is entered by setting its phis. */
  lemma PhisPassed(m: Machine, f: Function, sh: Shape, pred: BlockId, s: State, s': State, vals: map<Id, Value>)
    requires Arrived(f, sh, pred, s) && sh.phis != [] && Receive(f.code, sh.phis, pred, vals)
    ensures Step(m, f, s, s') <==>
              && ValuesReady(sh.phis, vals, s.env, m.params)
              && s' == s.(pc := |sh.phis|, env := Assigned(sh.phis, vals, s.env, m.params))
  {
    var list, n := Assemble(sh), |sh.phis|;
    assert list[..n] == sh.phis;
    ShapePhis(f.code, sh);
    assert forall i | 0 <= i < n :: list[i] == sh.phis[i] && sh.phis[i] in sh.phis;
    hide LeadingPhis, ValidShape, Assemble, PhiStep, Receive, Assigned, ValuesReady;
    PhiStepIs(m, f, list, n, s, s', vals);
  }

  // ----- Operations

  lemma NoneLeft(m: Machine, code: map<Id, Instr>, env: map<Id, Word>, mem: Memory, env': map<Id, Word>, mem': Memory)
    ensures Runs(m, code, [], env, mem, env', mem') <==> env' == env && mem' == mem
  {
  }

  /** The operations still to come run one by one. */
  lemma {:induction false} OperationsLead(m: Machine, f: Function, sh: Shape, j: nat, s: State, env': map<Id, Word>,
                                          mem': Memory)
    requires AtOperation(f, sh, j, s) && Runs(m, f.code, sh.body[j..], s.env, s.mem, env', mem')
    ensures Leads(m, f, |sh.body| - j, s, s.(pc := |sh.phis| + |sh.body|, env := env', mem := mem'))
    decreases |sh.body| - j
  {
    hide *;
    AtOperationIs(f, sh, j, s);
    var t := s.(pc := |sh.phis| + |sh.body|, env := env', mem := mem');
    if j == |sh.body| {
      assert sh.body[j..] == [];
      NoneLeft(m, f.code, s.env, s.mem, env', mem');
      NoLead(m, f, s, t);
    } else {
      var x := sh.body[j];
      assert sh.body[j..] == [x] + sh.body[j + 1..];
      var v, mid := FirstOf(m, f.code, x, sh.body[j + 1..], s.env, s.mem, env', mem');
      var s' := s.(pc := s.pc + 1, env := s.env[x := v], mem := mid);
      OperationStep(m, f, sh, j, s, v, mid);
      NextOperation(f, sh, j, s, s');
      OperationsLead(m, f, sh, j + 1, s', env', mem');
      StepLeads(m, f, |sh.body| - j, s, s', t);
    }
  }

  lemma NextOperation(f: Function, sh: Shape, j: nat, s: State, s': State)
    requires AtOperation(f, sh, j, s) && j < |sh.body| && s' == s.(pc := s.pc + 1, env := s'.env, mem := s'.mem)
    ensures AtOperation(f, sh, j + 1, s')
  {
    hide ValidShape, Assemble;
  }

  lemma StepLeads(m: Machine, f: Function, n: nat, s: State, s': State, t: State)
    requires n > 0 && Step(m, f, s, s') && Leads(m, f, n - 1, s', t)
    ensures Leads(m, f, n, s, t)
  {
    hide Step;
  }

  /** Beyond its operations a block is left only by way of its terminator. */
  lemma {:induction false} BodyPassed(m: Machine, f: Function, sh: Shape, j: nat, n: nat, s: State, t: State)
    returns (mid: State)
    requires AtOperation(f, sh, j, s) && (s.pc > 0 || sh.phis == []) && Leads(m, f, n, s, t) && n >= |sh.body| - j
    ensures mid == s.(pc := |sh.phis| + |sh.body|, env := mid.env, mem := mid.mem)
    ensures Runs(m, f.code, sh.body[j..], s.env, s.mem, mid.env, mid.mem)
    ensures AtOperation(f, sh, |sh.body|, mid) && Leads(m, f, n - (|sh.body| - j), mid, t)
    decreases n
  {
    hide *;
    AtOperationIs(f, sh, j, s);
    if j == |sh.body| {
      mid := s;
      assert sh.body[j..] == [];
      NoneLeft(m, f.code, s.env, s.mem, s.env, s.mem);
      assert s == s.(pc := |sh.phis| + |sh.body|, env := s.env, mem := s.mem);
    } else {
      var s' := FirstLead(m, f, n, s, t);
      OperationStepped(m, f, sh, j, s, s');
      AtOperationIs(f, sh, j + 1, s');
      mid := BodyPassed(m, f, sh, j + 1, n - 1, s', t);
      var x := sh.body[j];
      assert sh.body[j..] == [x] + sh.body[j + 1..];
      SteppedRuns(m, x, f.code[x], s, s');
      RunsOne(m, f.code, x, sh.body[j + 1..], s.env, s.mem, s'.env[x], s'.mem, mid.env, mid.mem);
    }
  }

  lemma AtOperationIs(f: Function, sh: Shape, j: nat, s: State)
    requires AtOperation(f, sh, j, s)
    ensures s.ret.None? && j <= |sh.body| && s.pc == |sh.phis| + j
  {
  }

  lemma SteppedRuns(m: Machine, id: Id, instr: Instr, s: State, s': State)
    requires OpStep(m, id, instr, s, s')
    ensures id in s'.env && OpRuns(m, instr, s.env, s.mem, s'.env[id], s'.mem)
    ensures s' == s.(pc := s.pc + 1, env := s.env[id := s'.env[id]], mem := s'.mem)
  {
  }

  /** Short of its terminator a run is still in the block. */
  lemma {:induction false} StillInBody(m: Machine, f: Function, sh: Shape, j: nat, n: nat, s: State, t: State)
    requires AtOperation(f, sh, j, s) && (s.pc > 0 || sh.phis == []) && Leads(m, f, n, s, t) && n < |sh.body| - j
    ensures t.path == s.path && t.pc == s.pc + n
    decreases n
  {
    hide *;
    NoLead(m, f, s, t);
    if n > 0 {
      var s' := FirstLead(m, f, n, s, t);
      OperationStepped(m, f, sh, j, s, s');
      SteppedRuns(m, sh.body[j], f.code[sh.body[j]], s, s');
      StillInBody(m, f, sh, j + 1, n - 1, s', t);
    }
  }

  // ----- Terminators

  lemma AtTerminator(m: Machine, f: Function, sh: Shape, s: State, s': State)
    requires AtOperation(f, sh, |sh.body|, s) && (s.pc > 0 || sh.phis == [])
    ensures sh.term in f.code && (Step(m, f, s, s') <==> InstrStep(m, sh.term, f.code[sh.term], s, s'))
  {
    ShapePhis(f.code, sh);
    assert Assemble(sh)[s.pc] == sh.term;
    hide LeadingPhis, InstrStep;
  }

  /** A jump leads to its block. */
  lemma Jumps(m: Machine, f: Function, sh: Shape, s: State, s': State, b: BlockId)
    requires AtOperation(f, sh, |sh.body|, s) && (s.pc > 0 || sh.phis == []) && sh.term in f.code
    requires f.code[sh.term].op == Jmp && f.code[sh.term].operands == [Blk(b)]
    ensures Step(m, f, s, s') <==> s' == s.(path := s.path + [b], pc := 0)
  {
    AtTerminator(m, f, sh, s, s');
    hide AtOperation, Step;
  }

  /** A Jnz or Br leads to the first of its blocks exactly where its condition is not zero. */
  lemma Branches(m: Machine, f: Function, sh: Shape, s: State, s': State, cond: Id, yes: BlockId, no: BlockId)
    requires AtOperation(f, sh, |sh.body|, s) && (s.pc > 0 || sh.phis == []) && sh.term in f.code
    requires f.code[sh.term].op in {Jnz, Br} && f.code[sh.term].operands == [Inst(cond), Blk(yes), Blk(no)]
    ensures Step(m, f, s, s') <==>
              && cond in s.env
              && s' == s.(path := s.path + [if s.env[cond].bits != 0 then yes else no], pc := 0)
  {
    AtTerminator(m, f, sh, s, s');
    hide AtOperation, Step;
  }

  // ----- Through a block

  lemma LeadReaches(m: Machine, f: Function, n: nat, s: State, t: State)
    requires Leads(m, f, n, s, t)
    ensures Reaches(m, f, s, t)
  {
    hide Leads;
  }

  /** The block has been entered and its phis, if any, are set. */
  ghost predicate Begun(f: Function, sh: Shape, s: State) {
    AtOperation(f, sh, 0, s) && (s.pc > 0 || sh.phis == [])
  }

  /** The operations of the block are done. */
  ghost predicate Ended(f: Function, sh: Shape, s: State) {
    AtOperation(f, sh, |sh.body|, s) && (s.pc > 0 || sh.phis == [])
  }

  function EndState(sh: Shape, s: State, env: map<Id, Word>, mem: Memory): State {
    s.(pc := |sh.phis| + |sh.body|, env := env, mem := mem)
  }

  lemma BodyLeads(m: Machine, f: Function, sh: Shape, s: State, env: map<Id, Word>, mem: Memory)
    requires Begun(f, sh, s) && Runs(m, f.code, sh.body, s.env, s.mem, env, mem)
    ensures Reaches(m, f, s, EndState(sh, s, env, mem)) && Ended(f, sh, EndState(sh, s, env, mem))
  {
    hide *;
    assert sh.body[0..] == sh.body;
    BegunIs(f, sh, s);
    EndStateIs(f, sh, s, env, mem);
    OperationsLead(m, f, sh, 0, s, env, mem);
    LeadReaches(m, f, |sh.body|, s, EndState(sh, s, env, mem));
  }

  /** A run beyond the operations of a block has come to its terminator. */
  lemma WholeBody(m: Machine, f: Function, sh: Shape, k: nat, s: State, t: State) returns (mid: State, j: nat)
    requires Begun(f, sh, s) && Leads(m, f, k, s, t)
    requires t.path != s.path || t.pc == |sh.phis| + |sh.body|
    ensures mid == EndState(sh, s, mid.env, mid.mem) && Ended(f, sh, mid)
    ensures Runs(m, f.code, sh.body, s.env, s.mem, mid.env, mid.mem)
    ensures Leads(m, f, j, mid, t) && j <= k
  {
    hide *;
    BegunIs(f, sh, s);
    if k < |sh.body| { StillInBody(m, f, sh, 0, k, s, t); }
    mid := BodyPassed(m, f, sh, 0, k, s, t);
    j := k - |sh.body|;
    assert sh.body[0..] == sh.body;
    EndStateIs(f, sh, s, mid.env, mid.mem);
  }

  lemma BegunIs(f: Function, sh: Shape, s: State)
    requires Begun(f, sh, s)
    ensures AtOperation(f, sh, 0, s) && (s.pc > 0 || sh.phis == []) && s.pc == |sh.phis| && s.ret.None?
  {
  }

  lemma EndStateIs(f: Function, sh: Shape, s: State, env: map<Id, Word>, mem: Memory)
    ensures EndState(sh, s, env, mem) == s.(pc := |sh.phis| + |sh.body|, env := env, mem := mem)
    ensures Begun(f, sh, s) ==> Ended(f, sh, EndState(sh, s, env, mem))
  {
    hide Assemble, ValidShape;
  }

  ghost predicate JumpsTo(f: Function, sh: Shape, b: BlockId) {
    sh.term in f.code && f.code[sh.term].op == Jmp && f.code[sh.term].operands == [Blk(b)]
  }

  ghost predicate BranchesTo(f: Function, sh: Shape, cond: Id, yes: BlockId, no: BlockId) {
    && sh.term in f.code && f.code[sh.term].op in {Jnz, Br}
    && f.code[sh.term].operands == [Inst(cond), Blk(yes), Blk(no)]
  }

  /** The block b has just been entered from where s is, with this environment and memory. */
  function EnterState(s: State, b: BlockId, env: map<Id, Word>, mem: Memory): State {
    s.(path := s.path + [b], pc := 0, env := env, mem := mem)
  }

  lemma JumpStep(m: Machine, f: Function, sh: Shape, s: State, s': State, b: BlockId)
    requires Ended(f, sh, s) && JumpsTo(f, sh, b)
    ensures Step(m, f, s, s') <==> s' == EnterState(s, b, s.env, s.mem)
  {
    hide Step, AtOperation;
    Jumps(m, f, sh, s, s', b);
  }

  lemma BranchStep(m: Machine, f: Function, sh: Shape, s: State, s': State, cond: Id, yes: BlockId, no: BlockId)
    requires Ended(f, sh, s) && BranchesTo(f, sh, cond, yes, no)
    ensures Step(m, f, s, s') <==>
              cond in s.env && s' == EnterState(s, if s.env[cond].bits != 0 then yes else no, s.env, s.mem)
  {
    hide Step, AtOperation;
    Branches(m, f, sh, s, s', cond, yes, no);
  }

  /** Through a block that ends in a jump. */
  lemma ThroughLeads(m: Machine, f: Function, sh: Shape, s: State, b: BlockId, env: map<Id, Word>, mem: Memory)
    requires Begun(f, sh, s) && JumpsTo(f, sh, b) && Runs(m, f.code, sh.body, s.env, s.mem, env, mem)
    ensures Reaches(m, f, s, EnterState(s, b, env, mem))
  {
    hide *;
    BodyLeads(m, f, sh, s, env, mem);
    var mid := EndState(sh, s, env, mem);
    EnterFrom(sh, s, b, env, mem);
    JumpStep(m, f, sh, mid, EnterState(s, b, env, mem), b);
    StepReaches(m, f, mid, EnterState(s, b, env, mem));
    ReachesThen(m, f, s, mid, EnterState(s, b, env, mem));
  }

  lemma EnterFrom(sh: Shape, s: State, b: BlockId, env: map<Id, Word>, mem: Memory)
    ensures var mid := EndState(sh, s, env, mem);
            mid.env == env && mid.mem == mem && EnterState(mid, b, mid.env, mid.mem) == EnterState(s, b, env, mem)
  {
  }

  /** Through a block whose branch leads on. */
  lemma BranchLeads(m: Machine, f: Function, sh: Shape, s: State, cond: Id, yes: BlockId, no: BlockId,
                    env: map<Id, Word>, mem: Memory)
    requires Begun(f, sh, s) && BranchesTo(f, sh, cond, yes, no)
    requires Runs(m, f.code, sh.body, s.env, s.mem, env, mem) && cond in env
    ensures Reaches(m, f, s, EnterState(s, if env[cond].bits != 0 then yes else no, env, mem))
  {
    hide *;
    var b := if env[cond].bits != 0 then yes else no;
    BodyLeads(m, f, sh, s, env, mem);
    var mid := EndState(sh, s, env, mem);
    EnterFrom(sh, s, b, env, mem);
    BranchStep(m, f, sh, mid, EnterState(s, b, env, mem), cond, yes, no);
    StepReaches(m, f, mid, EnterState(s, b, env, mem));
    ReachesThen(m, f, s, mid, EnterState(s, b, env, mem));
  }

  lemma LongerPath(a: seq<BlockId>, b: BlockId, rest: seq<BlockId>)
    ensures a + ([b] + rest) != a && a + [b] + rest == a + ([b] + rest)
  {
    assert |a + ([b] + rest)| > |a|;
  }

  lemma PathsSplit(a: seq<BlockId>, x: BlockId, rest: seq<BlockId>, t: seq<BlockId>)
    requires a + [x] <= t && t == a + rest
    ensures rest != [] && x == rest[0]
  {
    assert t[|a|] == x;
  }

  /** A run beyond a block that ends in a jump has passed through it. */
  lemma ThroughPassed(m: Machine, f: Function, sh: Shape, k: nat, s: State, t: State, b: BlockId, rest: seq<BlockId>)
    returns (a: State, j: nat)
    requires Begun(f, sh, s) && JumpsTo(f, sh, b) && Leads(m, f, k, s, t) && t.path == s.path + ([b] + rest)
    ensures a == EnterState(s, b, a.env, a.mem)
    ensures Runs(m, f.code, sh.body, s.env, s.mem, a.env, a.mem) && Leads(m, f, j, a, t) && j < k
  {
    hide *;
    LongerPath(s.path, b, rest);
    var mid, i := WholeBody(m, f, sh, k, s, t);
    EndStateIs(f, sh, s, mid.env, mid.mem);
    NoLead(m, f, mid, t);
    a := FirstLead(m, f, i, mid, t);
    JumpStep(m, f, sh, mid, a, b);
    EnterFrom(sh, s, b, mid.env, mid.mem);
    EnterParts(mid, b, mid.env, mid.mem);
    j := i - 1;
  }

  lemma EnterParts(s: State, b: BlockId, env: map<Id, Word>, mem: Memory)
    ensures EnterState(s, b, env, mem).env == env && EnterState(s, b, env, mem).mem == mem
    ensures EnterState(s, b, env, mem).ret == s.ret && EnterState(s, b, env, mem).pc == 0
    ensures EnterState(s, b, env, mem).path == s.path + [b]
  {
  }

  /** A run beyond a block that ends in a branch has passed it as the condition says. */
  lemma BranchPassed(m: Machine, f: Function, sh: Shape, k: nat, s: State, t: State, cond: Id, yes: BlockId,
                     no: BlockId, b: BlockId, rest: seq<BlockId>)
    returns (a: State, j: nat)
    requires Begun(f, sh, s) && BranchesTo(f, sh, cond, yes, no) && Leads(m, f, k, s, t)
    requires t.path == s.path + ([b] + rest) && yes != no
    ensures a == EnterState(s, b, a.env, a.mem)
    ensures cond in a.env && b == if a.env[cond].bits != 0 then yes else no
    ensures Runs(m, f.code, sh.body, s.env, s.mem, a.env, a.mem) && Leads(m, f, j, a, t) && j < k
  {
    hide *;
    LongerPath(s.path, b, rest);
    var mid, i := WholeBody(m, f, sh, k, s, t);
    EndStateIs(f, sh, s, mid.env, mid.mem);
    NoLead(m, f, mid, t);
    a := FirstLead(m, f, i, mid, t);
    BranchStep(m, f, sh, mid, a, cond, yes, no);
    var x := if mid.env[cond].bits != 0 then yes else no;
    EnterFrom(sh, s, x, mid.env, mid.mem);
    EnterParts(mid, x, mid.env, mid.mem);
    PathGrows(m, f, i - 1, a, t);
    PathsSplit(s.path, x, [b] + rest, t.path);
    j := i - 1;
  }

  /** A run that ends behind the operations of the block it stands in. */
  lemma BodyIsLast(m: Machine, f: Function, sh: Shape, k: nat, s: State, t: State)
    requires Begun(f, sh, s) && Leads(m, f, k, s, t) && t.path == s.path && t.pc == |sh.phis| + |sh.body|
    requires sh.term in f.code && f.code[sh.term].op in {Jmp, Jnz, Br}
    ensures t == EndState(sh, s, t.env, t.mem) && Runs(m, f.code, sh.body, s.env, s.mem, t.env, t.mem)
  {
    hide *;
    var mid, j := WholeBody(m, f, sh, k, s, t);
    EndStateIs(f, sh, s, mid.env, mid.mem);
    NoLead(m, f, mid, t);
    if j > 0 {
      var a := FirstLead(m, f, j, mid, t);
      PathGrows(m, f, j - 1, a, t);
      Leaves(m, f, sh, mid, a);
    }
  }

  lemma Leaves(m: Machine, f: Function, sh: Shape, s: State, s': State)
    requires Ended(f, sh, s) && sh.term in f.code && f.code[sh.term].op in {Jmp, Jnz, Br} && Step(m, f, s, s')
    ensures |s'.path| > |s.path|
  {
    hide Step, AtOperation;
    AtTerminator(m, f, sh, s, s');
  }
}
