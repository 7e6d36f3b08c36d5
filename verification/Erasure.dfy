/**
 Erasing instructions and substituting constants for them: what constant
 propagation and dead-code elimination both do to a function.  This module says
 when that leaves every run as it was.
 */
module Erasure {
  import opened IR
  import opened Simulation

  /** Which instructions go, and the words that stand in for the ones still used. */
  datatype Plan = Plan(dead: set<Id>, subst: map<Id, Word>)

  function Keep(list: seq<Id>, dead: set<Id>): seq<Id> {
    if list == [] then []
    else (if list[0] in dead then [] else [list[0]]) + Keep(list[1..], dead)
  }

  function SubstValue(v: Value, subst: map<Id, Word>): Value {
    if v.Inst? && v.id in subst then Cst(subst[v.id]) else v
  }

  function SubstAll(vs: seq<Value>, subst: map<Id, Word>): (r: seq<Value>)
    ensures |r| == |vs|
    ensures forall i | 0 <= i < |vs| :: r[i] == SubstValue(vs[i], subst)
  {
    seq(|vs|, i requires 0 <= i < |vs| => SubstValue(vs[i], subst))
  }

  function Rewrite(f: Function, plan: Plan): Function {
    Function(f.order,
             map b | b in f.blocks :: Keep(f.blocks[b], plan.dead),
             map id | id in f.code :: f.code[id].(operands := SubstAll(f.code[id].operands, plan.subst)))
  }

  /** Terminators stay, and a surviving instruction uses an erased one only if a word stands in for it. */
  ghost predicate Closed(f: Function, plan: Plan) {
    && (forall id | id in plan.dead && id in f.code :: !IsTerminator(f.code[id].op))
    && (forall id | id in plan.subst :: id in plan.dead)
    && (forall b, i | b in f.blocks && 0 <= i < |f.blocks[b]| && f.blocks[b][i] in f.code ::
          f.blocks[b][i] !in plan.dead ==> UsesCovered(f.code[f.blocks[b][i]].operands, plan))
  }

  ghost predicate UsesCovered(operands: seq<Value>, plan: Plan) {
    forall k | 0 <= k < |operands| && operands[k].Inst? ::
      operands[k].id in plan.dead ==> operands[k].id in plan.subst
  }

  ghost predicate Agrees(subst: map<Id, Word>, env: map<Id, Word>) {
    forall id | id in subst && id in env :: env[id] == subst[id]
  }

  /** The state is about to execute an erased instruction. */
  ghost predicate AtDead(f: Function, plan: Plan, s: State) {
    && s.path != [] && Last(s.path) in f.blocks && s.pc < |f.blocks[Last(s.path)]|
    && f.blocks[Last(s.path)][s.pc] in plan.dead
  }

  ghost predicate RunConfirms(f: Function, plan: Plan, run: seq<State>)
    requires run != []
  {
    && Agrees(plan.subst, Last(run).env)
    && (|run| >= 2 && AtDead(f, plan, run[|run| - 2]) ==> Last(run).mem == run[|run| - 2].mem)
  }

  /** On every run the stand-ins have the values computed, and the erased instructions leave memory alone. */
  ghost predicate Confirmed(m: Machine, f: Function, plan: Plan) {
    forall run | IsRun(m, f, run) :: RunConfirms(f, plan, run)
  }

  /** How a state of the rewritten function corresponds to one of the original. */
  ghost predicate Related(f: Function, plan: Plan, s: State, t: State) {
    && s.path != [] && Last(s.path) in f.blocks
    && var list := f.blocks[Last(s.path)];
    && t.path == s.path && t.mem == s.mem && t.ret == s.ret
    && s.pc <= |list| && (s.pc == 0 || LeadingPhis(list, f.code) <= s.pc)
    && t.pc == |Keep(list[..s.pc], plan.dead)|
    && t.env == s.env - plan.dead
  }

  // ----- Lists without the erased instructions

  lemma {:induction false} KeepConcat(a: seq<Id>, b: seq<Id>, dead: set<Id>)
    ensures Keep(a + b, dead) == Keep(a, dead) + Keep(b, dead)
  {
    if a == [] {
      assert a + b == b;
    } else {
      assert (a + b)[1..] == a[1..] + b;
      KeepConcat(a[1..], b, dead);
    }
  }

  lemma KeepNext(list: seq<Id>, i: nat, dead: set<Id>)
    requires i < |list|
    ensures Keep(list[..i + 1], dead) == Keep(list[..i], dead) + (if list[i] in dead then [] else [list[i]])
    ensures list[i] !in dead ==>
              |Keep(list[..i], dead)| < |Keep(list, dead)| && Keep(list, dead)[|Keep(list[..i], dead)|] == list[i]
  {
    assert list[..i + 1] == list[..i] + [list[i]];
    KeepConcat(list[..i], [list[i]], dead);
    assert list == list[..i + 1] + list[i + 1..];
    KeepConcat(list[..i + 1], list[i + 1..], dead);
  }

  lemma KeepGrows(list: seq<Id>, i: nat, j: nat, dead: set<Id>)
    requires i <= j <= |list|
    ensures |Keep(list[..i], dead)| <= |Keep(list[..j], dead)|
  {
    assert list[..j] == list[..i] + list[i..j];
    KeepConcat(list[..i], list[i..j], dead);
  }

  lemma {:induction false} KeepMembers(list: seq<Id>, dead: set<Id>)
    ensures forall id :: id in Keep(list, dead) <==> id in list && id !in dead
  {
    if list != [] {
      KeepMembers(list[1..], dead);
    }
  }

  lemma {:induction false} KeepAllDead(list: seq<Id>, dead: set<Id>)
    requires forall i | 0 <= i < |list| :: list[i] in dead
    ensures Keep(list, dead) == []
  {
    if list != [] {
      KeepAllDead(list[1..], dead);
    }
  }

  /** The phis that survive are exactly the leading phis of the shortened block. */
  lemma KeptPhis(list: seq<Id>, code: map<Id, Instr>, code': map<Id, Instr>, dead: set<Id>)
    requires PhisLead(list, code)
    requires forall i | 0 <= i < |list| :: list[i] in code
    requires forall id | id in code :: id in code' && code'[id].op == code[id].op
    ensures LeadingPhis(Keep(list, dead), code') == |Keep(list[..LeadingPhis(list, code)], dead)|
    ensures Keep(list[..LeadingPhis(list, code)], dead) <= Keep(list, dead)
  {
    var n := LeadingPhis(list, code);
    var front, back := Keep(list[..n], dead), Keep(list[n..], dead);
    assert list == list[..n] + list[n..];
    KeepConcat(list[..n], list[n..], dead);
    forall i | 0 <= i < |front|
      ensures front[i] in code' && code'[front[i]].op == Phi
    {
      KeepMembers(list[..n], dead);
      assert front[i] in front;
      var j :| 0 <= j < n && list[j] == front[i];
    }
    if back != [] {
      assert code'[back[0]].op != Phi by {
        KeepMembers(list[n..], dead);
        assert back[0] in back;
        var j :| 0 <= j < |list[n..]| && list[n..][j] == back[0];
        assert list[n + j] == back[0];
      }
      assert (front + back)[|front|] == back[0];
    }
    LeadingPhisUnique(front, back, code');
  }

  lemma LeadingPhisUnique(front: seq<Id>, back: seq<Id>, code: map<Id, Instr>)
    requires forall i | 0 <= i < |front| :: front[i] in code && code[front[i]].op == Phi
    requires back != [] ==> back[0] !in code || code[back[0]].op != Phi
    ensures LeadingPhis(front + back, code) == |front|
  {
    var list := front + back;
    assert forall i | 0 <= i < |front| :: list[i] == front[i];
    assert back != [] ==> list[|front|] == back[0];
  }

  // ----- Operands

  lemma SubstFetch(v: Value, plan: Plan, env: map<Id, Word>, params: seq<Word>)
    requires v.Inst? && v.id in plan.dead ==> v.id in plan.subst
    requires forall id | id in plan.subst :: id in plan.dead
    requires Agrees(plan.subst, env)
    ensures Ready(v, env, params) ==>
              && Ready(SubstValue(v, plan.subst), env - plan.dead, params)
              && Fetch(SubstValue(v, plan.subst), env - plan.dead, params) == Fetch(v, env, params)
  {
  }

  lemma SubstFetchAll(vs: seq<Value>, plan: Plan, env: map<Id, Word>, params: seq<Word>)
    requires UsesCovered(vs, plan)
    requires forall id | id in plan.subst :: id in plan.dead
    requires Agrees(plan.subst, env)
    requires AllReady(vs, env, params)
    ensures AllReady(SubstAll(vs, plan.subst), env - plan.dead, params)
    ensures FetchAll(SubstAll(vs, plan.subst), env - plan.dead, params) == FetchAll(vs, env, params)
  {
    forall i | 0 <= i < |vs|
      ensures Ready(SubstAll(vs, plan.subst)[i], env - plan.dead, params)
      ensures Fetch(SubstAll(vs, plan.subst)[i], env - plan.dead, params) == Fetch(vs[i], env, params)
    {
      SubstFetch(vs[i], plan, env, params);
    }
  }

  lemma {:induction false} SubstIncoming(vs: seq<Value>, pred: BlockId, k: nat, plan: Plan)
    ensures IncomingFrom(SubstAll(vs, plan.subst), pred, k)
         == (if IncomingFrom(vs, pred, k).Some? then Some(SubstValue(IncomingFrom(vs, pred, k).value, plan.subst))
             else None)
    ensures IncomingFrom(vs, pred, k).Some? ==> IncomingFrom(vs, pred, k).value in vs
    decreases |vs| - 2 * k
  {
    if 2 * k + 1 < |vs| {
      SubstIncoming(vs, pred, k + 1, plan);
    }
  }

  // ----- One step

  /** The block a related pair stands in, after the rewrite. */
  lemma RewrittenBlock(f: Function, plan: Plan, s: State, t: State)
    requires WellFormed(f) && Closed(f, plan) && Related(f, plan, s, t)
    ensures var g := Rewrite(f, plan);
            var list := f.blocks[Last(s.path)];
            var n := LeadingPhis(list, f.code);
            && g.blocks[Last(t.path)] == Keep(list, plan.dead)
            && LeadingPhis(g.blocks[Last(t.path)], g.code) == |Keep(list[..n], plan.dead)|
            && Keep(list[..n], plan.dead) <= Keep(list, plan.dead)
            && (n <= s.pc ==> |Keep(list[..n], plan.dead)| <= t.pc)
  {
    var list := f.blocks[Last(s.path)];
    var n := LeadingPhis(list, f.code);
    KeptPhis(list, f.code, Rewrite(f, plan).code, plan.dead);
    if n <= s.pc {
      KeepGrows(list, n, s.pc, plan.dead);
    }
  }

  /** What one surviving phi receives is unchanged. */
  lemma SurvivingPhiValue(operands: seq<Value>, pred: BlockId, plan: Plan, env: map<Id, Word>, params: seq<Word>)
    requires UsesCovered(operands, plan)
    requires forall id | id in plan.subst :: id in plan.dead
    requires Agrees(plan.subst, env)
    requires IncomingFrom(operands, pred, 0).Some? && Ready(IncomingFrom(operands, pred, 0).value, env, params)
    ensures var v, v' := IncomingFrom(operands, pred, 0), IncomingFrom(SubstAll(operands, plan.subst), pred, 0);
            && v'.Some? && Ready(v'.value, env - plan.dead, params)
            && Fetch(v'.value, env - plan.dead, params) == Fetch(v.value, env, params)
  {
    SubstIncoming(operands, pred, 0, plan);
    SubstFetch(IncomingFrom(operands, pred, 0).value, plan, env, params);
  }

  ghost predicate PhisCovered(f: Function, plan: Plan, list: seq<Id>, n: nat)
    requires n <= |list|
  {
    forall i | 0 <= i < n && list[i] !in plan.dead ::
      list[i] in f.code && UsesCovered(f.code[list[i]].operands, plan)
  }

  lemma SurvivingPhi(m: Machine, f: Function, plan: Plan, list: seq<Id>, n: nat, s: State, s': State, id: Id)
    requires n <= |list| && forall i | 0 <= i < n :: list[i] in f.code
    requires PhisCovered(f, plan, list, n)
    requires forall id | id in plan.subst :: id in plan.dead
    requires Agrees(plan.subst, s.env)
    requires PhiStep(m, f, list, n, s, s')
    requires id in Keep(list[..n], plan.dead)
    ensures id in f.code && id in s'.env && id !in plan.dead
    ensures var v := IncomingFrom(SubstAll(f.code[id].operands, plan.subst), s.path[|s.path| - 2], 0);
            && v.Some? && Ready(v.value, s.env - plan.dead, m.params)
            && s'.env[id] == Fetch(v.value, s.env - plan.dead, m.params)
  {
    KeepMembers(list[..n], plan.dead);
    var j :| 0 <= j < n && list[j] == id;
    SurvivingPhiValue(f.code[id].operands, s.path[|s.path| - 2], plan, s.env, m.params);
  }

  /** A phi step of the original is the phi step of the survivors. */
  lemma PhiSurvivors(m: Machine, f: Function, g: Function, plan: Plan, list: seq<Id>, n: nat,
                     s: State, s': State, t: State, t': State)
    requires n <= |list| && forall i | 0 <= i < n :: list[i] in f.code
    requires PhisCovered(f, plan, list, n)
    requires forall id | id in plan.subst :: id in plan.dead
    requires Agrees(plan.subst, s.env)
    requires PhiStep(m, f, list, n, s, s')
    requires t.path == s.path && t.env == s.env - plan.dead
    requires t' == t.(pc := |Keep(list[..n], plan.dead)|, env := s'.env - plan.dead)
    requires Keep(list[..n], plan.dead) <= Keep(list, plan.dead)
    requires forall i | 0 <= i < |Keep(list[..n], plan.dead)| ::
               var id := Keep(list, plan.dead)[i];
               id in f.code && id in g.code && g.code[id].operands == SubstAll(f.code[id].operands, plan.subst)
    ensures PhiStep(m, g, Keep(list, plan.dead), |Keep(list[..n], plan.dead)|, t, t')
  {
    hide IncomingFrom, Ready, Fetch, Keep, SubstAll, PhisCovered, Agrees;
    var front := Keep(list[..n], plan.dead);
    var kept := Keep(list, plan.dead);
    forall i | 0 <= i < |front|
      ensures var v := IncomingFrom(g.code[kept[i]].operands, s.path[|s.path| - 2], 0);
              && v.Some? && Ready(v.value, t.env, m.params)
              && kept[i] in t'.env && t'.env[kept[i]] == Fetch(v.value, t.env, m.params)
    {
      assert front[i] in front;
      SurvivingPhi(m, f, plan, list, n, s, s', kept[i]);
    }
    assert kept[..|front|] == front;
    KeptEnv(list, n, plan, s, s', front, t');
    assert (set i | 0 <= i < |front| :: front[i]) == (set i | 0 <= i < |front| :: kept[i]);
  }

  /** What the rewrite makes of the instructions of a block and of its first phis. */
  lemma KeptInstructions(f: Function, plan: Plan, b: BlockId, n: nat)
    requires WellFormed(f) && Closed(f, plan) && b in f.blocks && n <= |f.blocks[b]|
    ensures PhisCovered(f, plan, f.blocks[b], n)
    ensures forall i | 0 <= i < |Keep(f.blocks[b], plan.dead)| ::
              var id, g := Keep(f.blocks[b], plan.dead)[i], Rewrite(f, plan);
              id in f.code && id in g.code && g.code[id].operands == SubstAll(f.code[id].operands, plan.subst)
  {
    hide UsesCovered, TargetsExist, LeadingPhis, SubstAll, IsTerminator;
    var kept := Keep(f.blocks[b], plan.dead);
    KeepMembers(f.blocks[b], plan.dead);
    assert forall i | 0 <= i < |kept| :: kept[i] in kept;
  }

  lemma PhiForward(m: Machine, f: Function, plan: Plan, s: State, s': State, t: State)
    returns (moved: bool, t': State)
    requires WellFormed(f) && Closed(f, plan) && Related(f, plan, s, t)
    requires Agrees(plan.subst, s.env)
    requires s.pc == 0 && LeadingPhis(f.blocks[Last(s.path)], f.code) > 0 && Step(m, f, s, s')
    ensures Related(f, plan, s', t')
    ensures if moved then Step(m, Rewrite(f, plan), t, t') else t' == t && Ahead(s, s')
  {
    hide IncomingFrom, Ready, Fetch, SubstAll, TargetsExist, Agrees, IsTerminator, UsesCovered, PhisCovered;
    var list := f.blocks[Last(s.path)];
    var n := LeadingPhis(list, f.code);
    var front := Keep(list[..n], plan.dead);
    RewrittenBlock(f, plan, s, t);
    assert list[..0] == [];
    t' := t.(pc := |front|, env := s'.env - plan.dead);
    moved := front != [];
    if moved {
      KeptInstructions(f, plan, Last(s.path), n);
      PhiSurvivors(m, f, Rewrite(f, plan), plan, list, n, s, s', t, t');
    } else {
      DeadPhis(list, n, plan, s, s');
    }
  }

  lemma DeadPhis(list: seq<Id>, n: nat, plan: Plan, s: State, s': State)
    requires n <= |list| && Keep(list[..n], plan.dead) == []
    requires s'.env.Keys == s.env.Keys + (set i | 0 <= i < n :: list[i])
    requires forall id | id in s.env && id !in list[..n] :: s'.env[id] == s.env[id]
    ensures s'.env - plan.dead == s.env - plan.dead
  {
    KeepMembers(list[..n], plan.dead);
    forall i | 0 <= i < n
      ensures list[i] in plan.dead
    {
      assert list[i] in list[..n];
      assert list[i] !in Keep(list[..n], plan.dead);
    }
  }

  lemma KeptEnv(list: seq<Id>, n: nat, plan: Plan, s: State, s': State, kept: seq<Id>, t': State)
    requires n <= |list| && kept == Keep(list[..n], plan.dead)
    requires s'.env.Keys == s.env.Keys + (set i | 0 <= i < n :: list[i])
    requires forall id | id in s.env && id !in list[..n] :: s'.env[id] == s.env[id]
    requires t'.env == s'.env - plan.dead
    ensures t'.env.Keys == (s.env - plan.dead).Keys + (set i | 0 <= i < |kept| :: kept[i])
    ensures forall id | id in s.env - plan.dead && id !in kept :: t'.env[id] == (s.env - plan.dead)[id]
  {
    KeepMembers(list[..n], plan.dead);
    forall id
      ensures id in t'.env.Keys <==> id in (s.env - plan.dead).Keys + (set i | 0 <= i < |kept| :: kept[i])
    {
      if id in list[..n] && id !in plan.dead {
        assert id in kept;
      }
      if id in (set i | 0 <= i < |kept| :: kept[i]) {
        assert id in kept;
        assert id in list[..n];
      }
    }
  }

  /** A step of the original past an erased instruction is no step of the rewritten function. */
  lemma DeadForward(m: Machine, f: Function, plan: Plan, s: State, s': State, t: State)
    requires WellFormed(f) && Closed(f, plan) && Related(f, plan, s, t)
    requires LeadingPhis(f.blocks[Last(s.path)], f.code) <= s.pc
    requires AtDead(f, plan, s) && Step(m, f, s, s') && s'.mem == s.mem
    ensures Related(f, plan, s', t) && s'.pc == s.pc + 1 && Last(s'.path) == Last(s.path)
  {
    var list := f.blocks[Last(s.path)];
    KeepNext(list, s.pc, plan.dead);
    assert !IsTerminator(f.code[list[s.pc]].op);
    assert s'.env - plan.dead == s.env - plan.dead;
  }

  lemma TerminatorForward(m: Machine, instr: Instr, id: Id, plan: Plan, s: State, s': State, t: State)
    requires IsTerminator(instr.op) && InstrStep(m, id, instr, s, s')
    requires UsesCovered(instr.operands, plan) && forall id | id in plan.subst :: id in plan.dead
    requires Agrees(plan.subst, s.env)
    requires t.path == s.path && t.mem == s.mem && t.ret == s.ret && t.env == s.env - plan.dead
    ensures InstrStep(m, id, instr.(operands := SubstAll(instr.operands, plan.subst)), t,
                      s'.(env := s'.env - plan.dead, pc := if instr.op == Ret then t.pc else 0))
  {
    if instr.operands != [] {
      SubstFetch(instr.operands[0], plan, s.env, m.params);
    }
  }

  lemma OpForward(m: Machine, instr: Instr, id: Id, plan: Plan, s: State, s': State, t: State)
    requires OpStep(m, id, instr, s, s') && id !in plan.dead
    requires UsesCovered(instr.operands, plan) && forall id | id in plan.subst :: id in plan.dead
    requires Agrees(plan.subst, s.env)
    requires t.path == s.path && t.mem == s.mem && t.ret == s.ret && t.env == s.env - plan.dead
    ensures OpStep(m, id, instr.(operands := SubstAll(instr.operands, plan.subst)), t,
                   s'.(env := s'.env - plan.dead, pc := t.pc + 1))
  {
    SubstFetchAll(instr.operands, plan, s.env, m.params);
    assert s'.env - plan.dead == (s.env - plan.dead)[id := s'.env[id]];
  }

  lemma TerminatorRelated(m: Machine, f: Function, plan: Plan, s: State, s': State, t: State)
    requires WellFormed(f) && Related(f, plan, s, t)
    requires s.pc < |f.blocks[Last(s.path)]|
    requires var id := f.blocks[Last(s.path)][s.pc];
             id in f.code && IsTerminator(f.code[id].op) && InstrStep(m, id, f.code[id], s, s')
    ensures var op := f.code[f.blocks[Last(s.path)][s.pc]].op;
            Related(f, plan, s', s'.(env := s'.env - plan.dead, pc := if op == Ret then t.pc else 0))
  {
    StaysInFunction(m, f, f.blocks[Last(s.path)][s.pc], s, s');
    assert f.blocks[Last(s'.path)][..0] == [];
  }

  lemma OpRelated(m: Machine, f: Function, plan: Plan, s: State, s': State, t: State)
    requires Related(f, plan, s, t)
    requires s.pc < |f.blocks[Last(s.path)]| && LeadingPhis(f.blocks[Last(s.path)], f.code) <= s.pc
    requires var id := f.blocks[Last(s.path)][s.pc];
             id in f.code && id !in plan.dead && OpStep(m, id, f.code[id], s, s')
    ensures Related(f, plan, s', s'.(env := s'.env - plan.dead, pc := t.pc + 1))
  {
    KeepNext(f.blocks[Last(s.path)], s.pc, plan.dead);
  }

  lemma InstrForward(m: Machine, f: Function, plan: Plan, s: State, s': State, t: State)
    returns (t': State)
    requires WellFormed(f) && Closed(f, plan) && Related(f, plan, s, t)
    requires Agrees(plan.subst, s.env)
    requires LeadingPhis(f.blocks[Last(s.path)], f.code) <= s.pc
    requires !AtDead(f, plan, s) && Step(m, f, s, s')
    ensures Step(m, Rewrite(f, plan), t, t') && Related(f, plan, s', t')
  {
    var id := f.blocks[Last(s.path)][s.pc];
    var instr := f.code[id];
    assert UsesCovered(instr.operands, plan);
    if IsTerminator(instr.op) {
      TerminatorForward(m, instr, id, plan, s, s', t);
      t' := s'.(env := s'.env - plan.dead, pc := if instr.op == Ret then t.pc else 0);
      TerminatorRelated(m, f, plan, s, s', t);
    } else {
      OpForward(m, instr, id, plan, s, s', t);
      t' := s'.(env := s'.env - plan.dead, pc := t.pc + 1);
      OpRelated(m, f, plan, s, s', t);
    }
    RewrittenStep(m, f, plan, s, t, t');
  }

  /** A related state executes the surviving instruction the original stands at. */
  lemma RewrittenStep(m: Machine, f: Function, plan: Plan, s: State, t: State, t': State)
    requires WellFormed(f) && Closed(f, plan) && Related(f, plan, s, t)
    requires s.ret.None? && s.pc < |f.blocks[Last(s.path)]| && !AtDead(f, plan, s)
    requires LeadingPhis(f.blocks[Last(s.path)], f.code) <= s.pc
    ensures var id := f.blocks[Last(s.path)][s.pc];
            Step(m, Rewrite(f, plan), t, t')
            <==> InstrStep(m, id, f.code[id].(operands := SubstAll(f.code[id].operands, plan.subst)), t, t')
  {
    RewrittenBlock(f, plan, s, t);
    KeepNext(f.blocks[Last(s.path)], s.pc, plan.dead);
  }

  lemma StaysInFunction(m: Machine, f: Function, id: Id, s: State, s': State)
    requires id in f.code && TargetsExist(f, f.code[id]) && InstrStep(m, id, f.code[id], s, s')
    requires s.path != [] && Last(s.path) in f.blocks
    ensures s'.path != [] && Last(s'.path) in f.blocks
    ensures IsTerminator(f.code[id].op) && f.code[id].op != Ret ==> s'.pc == 0
    ensures f.code[id].op == Ret ==> s'.path == s.path && s'.pc == s.pc
  {
  }

  lemma Forward(m: Machine, f: Function, plan: Plan, s: State, s': State, t: State)
    returns (moved: bool, t': State)
    requires WellFormed(f) && Closed(f, plan) && Related(f, plan, s, t)
    requires Agrees(plan.subst, s.env) && Step(m, f, s, s')
    requires AtDead(f, plan, s) ==> s'.mem == s.mem
    ensures Related(f, plan, s', t')
    ensures if moved then Step(m, Rewrite(f, plan), t, t') else t' == t && Ahead(s, s')
  {
    var n := LeadingPhis(f.blocks[Last(s.path)], f.code);
    if s.pc == 0 && n > 0 {
      moved, t' := PhiForward(m, f, plan, s, s', t);
    } else if AtDead(f, plan, s) {
      DeadForward(m, f, plan, s, s', t);
      moved, t' := false, t;
    } else {
      t' := InstrForward(m, f, plan, s, s', t);
      moved := true;
    }
  }

  // ----- One step backwards

  lemma PhiDeterministic(m: Machine, f: Function, list: seq<Id>, n: nat, s: State, s1: State, s2: State)
    requires n <= |list| && forall i | 0 <= i < n :: list[i] in f.code
    requires PhiStep(m, f, list, n, s, s1) && PhiStep(m, f, list, n, s, s2)
    ensures s1 == s2
  {
    forall id | id in s1.env
      ensures s1.env[id] == s2.env[id]
    {
      if id in list[..n] {
        var i :| 0 <= i < n && list[i] == id;
      }
    }
    assert s1.env == s2.env;
  }

  /** Phi steps and terminators leave no choice. */
  lemma Deterministic(m: Machine, f: Function, s: State, s1: State, s2: State)
    requires Step(m, f, s, s1) && Step(m, f, s, s2)
    requires var list := f.blocks[Last(s.path)];
             || (s.pc == 0 && LeadingPhis(list, f.code) > 0)
             || IsTerminator(f.code[list[s.pc]].op)
    ensures s1 == s2
  {
    var list := f.blocks[Last(s.path)];
    if s.pc == 0 && LeadingPhis(list, f.code) > 0 {
      PhiDeterministic(m, f, list, LeadingPhis(list, f.code), s, s1, s2);
    }
  }

  /** The rewritten function stands at its phis only if the original does. */
  lemma PhiMatched(m: Machine, f: Function, plan: Plan, s: State, s1: State, t: State, t': State)
    requires WellFormed(f) && Closed(f, plan) && Related(f, plan, s, t)
    requires Agrees(plan.subst, s.env)
    requires s.pc == 0 && LeadingPhis(f.blocks[Last(s.path)], f.code) > 0 && Step(m, f, s, s1)
    requires Step(m, Rewrite(f, plan), t, t')
    ensures Related(f, plan, s1, t) || Related(f, plan, s1, t')
  {
    var moved, t'' := PhiForward(m, f, plan, s, s1, t);
    if moved {
      RewrittenBlock(f, plan, s, t);
      var list := f.blocks[Last(s.path)];
      assert list[..0] == [];
      if Keep(list[..LeadingPhis(list, f.code)], plan.dead) == [] {
        StepsFromSamePc(m, f, plan, s, s1, t'', t);
      } else {
        Deterministic(m, Rewrite(f, plan), t, t', t'');
      }
    }
  }

  lemma StepsFromSamePc(m: Machine, f: Function, plan: Plan, s: State, s1: State, t'': State, t: State)
    requires Related(f, plan, s, t) && Related(f, plan, s1, t'')
    requires s.pc == 0
    requires var list := f.blocks[Last(s.path)];
             var n := LeadingPhis(list, f.code);
             n > 0 && PhiStep(m, f, list, n, s, s1) && Keep(list[..n], plan.dead) == []
    ensures Related(f, plan, s1, t)
  {
    var list := f.blocks[Last(s.path)];
    DeadPhis(list, LeadingPhis(list, f.code), plan, s, s1);
    assert list[..0] == [];
  }

  lemma OpBackward(m: Machine, instr: Instr, id: Id, plan: Plan, s: State, t: State, t': State)
    returns (s': State)
    requires AllReady(instr.operands, s.env, m.params) && id !in plan.dead
    requires UsesCovered(instr.operands, plan) && forall id | id in plan.subst :: id in plan.dead
    requires Agrees(plan.subst, s.env)
    requires t.path == s.path && t.mem == s.mem && t.ret == s.ret && t.env == s.env - plan.dead
    requires OpStep(m, id, instr.(operands := SubstAll(instr.operands, plan.subst)), t, t')
    ensures OpStep(m, id, instr, s, s') && t' == s'.(env := s'.env - plan.dead, pc := t.pc + 1)
  {
    SubstFetchAll(instr.operands, plan, s.env, m.params);
    s' := s.(pc := s.pc + 1, env := s.env[id := t'.env[id]], mem := t'.mem);
    assert t'.env == s'.env - plan.dead;
  }

  /** The result a surviving operation has in the rewritten function is one it may have in the original. */
  lemma OpMatched(m: Machine, f: Function, plan: Plan, s: State, s1: State, t: State, t': State)
    returns (s': State)
    requires WellFormed(f) && Closed(f, plan) && Related(f, plan, s, t)
    requires Agrees(plan.subst, s.env)
    requires LeadingPhis(f.blocks[Last(s.path)], f.code) <= s.pc && !AtDead(f, plan, s)
    requires Step(m, f, s, s1) && !IsTerminator(f.code[f.blocks[Last(s.path)][s.pc]].op)
    requires Step(m, Rewrite(f, plan), t, t')
    ensures Step(m, f, s, s') && Related(f, plan, s', t')
  {
    var id := f.blocks[Last(s.path)][s.pc];
    RewrittenStep(m, f, plan, s, t, t');
    assert UsesCovered(f.code[id].operands, plan);
    s' := OpBackward(m, f.code[id], id, plan, s, t, t');
    OpRelated(m, f, plan, s, s', t);
  }

  lemma InstrMatched(m: Machine, f: Function, plan: Plan, s: State, s1: State, t: State, t': State)
    returns (s': State)
    requires WellFormed(f) && Closed(f, plan) && Related(f, plan, s, t)
    requires Agrees(plan.subst, s.env)
    requires LeadingPhis(f.blocks[Last(s.path)], f.code) <= s.pc && !AtDead(f, plan, s)
    requires Step(m, f, s, s1)
    requires Step(m, Rewrite(f, plan), t, t')
    ensures Step(m, f, s, s') && Related(f, plan, s', t')
  {
    var id := f.blocks[Last(s.path)][s.pc];
    if IsTerminator(f.code[id].op) {
      var t'' := InstrForward(m, f, plan, s, s1, t);
      RewrittenStep(m, f, plan, s, t, t');
      RewrittenStep(m, f, plan, s, t, t'');
      assert t'' == t';
      s' := s1;
    } else {
      s' := OpMatched(m, f, plan, s, s1, t, t');
    }
  }

  // ----- Whole runs

  /** The original either takes the step of the rewritten function, or comes one erased instruction nearer to it. */
  lemma CatchUp(m: Machine, f: Function, plan: Plan, s: State, s1: State, t: State, t': State)
    returns (matched: bool, s': State)
    requires WellFormed(f) && Closed(f, plan) && Related(f, plan, s, t)
    requires Agrees(plan.subst, s.env) && Step(m, f, s, s1)
    requires AtDead(f, plan, s) ==> s1.mem == s.mem
    requires Step(m, Rewrite(f, plan), t, t')
    ensures Step(m, f, s, s')
    ensures if matched then Related(f, plan, s', t') else s' == s1 && Related(f, plan, s', t) && Ahead(s, s')
  {
    var n := LeadingPhis(f.blocks[Last(s.path)], f.code);
    if s.pc == 0 && n > 0 {
      PhiMatched(m, f, plan, s, s1, t, t');
      matched, s' := Related(f, plan, s1, t'), s1;
    } else if AtDead(f, plan, s) {
      DeadForward(m, f, plan, s, s1, t);
      matched, s' := false, s1;
    } else {
      s' := InstrMatched(m, f, plan, s, s1, t, t');
      matched := true;
    }
  }

  ghost predicate Comes(m: Machine, f: Function, s: State) {
    exists run: seq<State> :: IsRun(m, f, run) && Last(run) == s
  }

  ghost function RelatedRuns(m: Machine, f: Function, plan: Plan): Relation {
    (s: State, t: State) => Comes(m, f, s) && Related(f, plan, s, t)
  }

  /** What confirmation says of a step from a state that runs come to. */
  lemma StepConfirmed(m: Machine, f: Function, plan: Plan, s: State, s': State)
    requires Confirmed(m, f, plan) && Comes(m, f, s) && Step(m, f, s, s')
    ensures Comes(m, f, s') && Agrees(plan.subst, s.env) && (AtDead(f, plan, s) ==> s'.mem == s.mem)
  {
    hide Step, AtDead, Agrees;
    var run: seq<State> :| IsRun(m, f, run) && Last(run) == s;
    RunExtends(m, f, run, s');
    assert RunConfirms(f, plan, run);
    assert RunConfirms(f, plan, run + [s']);
  }

  lemma InitialRelated(m: Machine, f: Function, plan: Plan, s: State)
    requires WellFormed(f)
    ensures Initial(f, s) <==> Initial(Rewrite(f, plan), s)
    ensures Initial(f, s) ==> Comes(m, f, s) && Related(f, plan, s, s)
  {
    if Initial(f, s) {
      assert IsRun(m, f, [s]) && Last([s]) == s;
      assert f.order[0] in f.order;
      assert f.blocks[f.order[0]][..0] == [];
    }
  }

  lemma RelatedAlike(f: Function, plan: Plan, s: State, t: State)
    requires Related(f, plan, s, t)
    ensures Alike(f, s, t)
  {
  }

  /** The rewrite adds and removes nothing a caller could see, except where the original gets stuck. */
  lemma ErasurePreserves(m: Machine, f: Function, plan: Plan)
    requires WellFormed(f) && Closed(f, plan) && Confirmed(m, f, plan)
    ensures Preserves(m, f, Rewrite(f, plan))
  {
    var g, r := Rewrite(f, plan), RelatedRuns(m, f, plan);
    hide Related, Closed, Confirmed, WellFormed, Rewrite, Step, Initial, Alike, Comes;
    forall s
      ensures Initial(f, s) <==> Initial(g, s)
      ensures Initial(f, s) ==> r(s, s)
    {
      InitialRelated(m, f, plan, s);
    }
    forall s, t | r(s, t)
      ensures Alike(f, s, t)
    {
      RelatedAlike(f, plan, s, t);
    }
    forall s, s', t | r(s, t) && Step(m, f, s, s')
      ensures Follows(m, g, r, s, s', t)
    {
      StepConfirmed(m, f, plan, s, s');
      var moved, t' := Forward(m, f, plan, s, s', t);
    }
    forall s, s1, t, t' | r(s, t) && Step(m, g, t, t') && Step(m, f, s, s1)
      ensures Precedes(m, f, r, s, t, t')
    {
      StepConfirmed(m, f, plan, s, s1);
      var matched, s' := CatchUp(m, f, plan, s, s1, t, t');
      StepConfirmed(m, f, plan, s, s');
    }
    SimulationPreserves(m, f, g, r);
  }
}
