/**
 Runs of a function through its loop, and runs of the function whose blocks the unroller has
 made through these: from the preheader to the exit, one does what the other does.
 */
module UnrolledRuns {
  import opened IR
  import opened BlockReordering
  import opened BlockRuns
  import opened ValueCloner
  import opened LoopUnroll
  import opened LoopBlocks
  import opened UnrolledBlocks
  import opened UnrollWords
  import UnrollEquivalence
  import UnrollTheorems

  // ----- Into the loop

  /** The block has been entered from the preheader. */
  ghost predicate Entering(f: Function, sh: Shape, b: BlockId, pre: BlockId, s: State) {
    Arrived(f, sh, pre, s) && Last(s.path) == b
  }

  /** Both loops entered from one environment: their phis hold the same. */
  lemma BothEnter(m: Machine, ar: UnrollEquivalence.Arith, f: Function, lp: Loop, at: Place, g: Function, u: Unrolled,
                  bk: Blocks, base: Id, block: BlockId, pre: BlockId, s: State, s2: State)
    returns (t: State, t2: State)
    requires UnrollEquivalence.Setting(m, ar, f.code, lp, u, base, block)
    requires InFunction(f, lp, at) && InUnrolled(g, f.code, lp, u, bk)
    requires Entering(f, at.hs, at.header, pre, s) && Entering(g, bk.us, bk.uHeader, pre, s2)
    requires s2.env == s.env && s2.mem == s.mem
    requires Receive(f.code, lp.phis, pre, lp.init) && ReceiveAs(g.code, lp.phis, u.uPhi, pre, lp.init)
    requires ValuesReady(lp.phis, lp.init, s.env, m.params)
    ensures Step(m, f, s, t) && AtHeader(f, at, t) && t.path == s.path && t.mem == s.mem
    ensures Step(m, g, s2, t2) && AtUnrolled(g, bk, t2) && t2.path == s2.path && t2.mem == s.mem
    ensures forall p | p in lp.phis :: p in Insts(u.uPhi)
    ensures UnrollEquivalence.Matched(m, f.code, lp, u.uPhi, base, t.env, t2.env)
  {
    hide *;
    HeaderPhis(f, lp, at);
    PhisStand(g, f.code, lp, u, bk);
    ReceiveDefined(f.code, lp.phis, pre, lp.init);
    InitReady(m, lp, s.env);
    t := s.(pc := |at.hs.phis|, env := Assigned(lp.phis, lp.init, s.env, m.params));
    EnteringIs(f, at.hs, at.header, pre, s);
    PhisPassed(m, f, at.hs, pre, s, t, lp.init);
    ReceivedById(g.code, lp.phis, u.uPhi, pre, lp.init);
    AssignedById(m, lp.phis, u.uPhi, lp.init, s.env);
    var env2 := UnrollEquivalence.AssignAll(m.params, lp.phis, u.uPhi, lp.init, s.env);
    t2 := s2.(pc := |bk.us.phis|, env := env2);
    EnteringIs(g, bk.us, bk.uHeader, pre, s2);
    ReadyAssignable(m, lp, u.uPhi, s.env);
    PhisPassed(m, g, bk.us, pre, s2, t2, ById(lp.phis, u.uPhi, lp.init));
    UnrollTheorems.EntersAlike(m, ar, f.code, lp, u, base, block, s.env);
    EnteredIs(m, lp, s.env);
    AtHeaderIs(f, at, t);
    AtUnrolledWhen(g, bk, t2);
  }

  lemma HeaderPhis(f: Function, lp: Loop, at: Place)
    requires InFunction(f, lp, at)
    ensures at.hs.phis == lp.phis != []
  {
    hide ValidShape, Assemble, Receive;
  }

  lemma EnteringIs(f: Function, sh: Shape, b: BlockId, pre: BlockId, s: State)
    requires Entering(f, sh, b, pre, s)
    ensures Arrived(f, sh, pre, s) && s.ret.None? && s.path != [] && Last(s.path) == b
  {
    hide ValidShape, Assemble;
  }

  lemma AtHeaderIs(f: Function, at: Place, s: State)
    ensures AtHeader(f, at, s) <==> s.ret.None? && s.path != [] && Last(s.path) == at.header && s.pc == |at.hs.phis|
  {
  }

  lemma AtUnrolledWhen(g: Function, bk: Blocks, s: State)
    ensures AtUnrolled(g, bk, s) <==> s.ret.None? && s.path != [] && Last(s.path) == bk.uHeader && s.pc == |bk.us.phis|
  {
  }

  lemma InitReady(m: Machine, lp: Loop, env: map<Id, Word>)
    requires forall p | p in lp.phis :: p in lp.init
    requires ValuesReady(lp.phis, lp.init, env, m.params)
    ensures forall p | p in lp.phis :: p in lp.init && IR.Ready(lp.init[p], env, m.params)
  {
  }

  lemma ReadyAssignable(m: Machine, lp: Loop, dst: map<Id, Id>, env: map<Id, Word>)
    requires forall p | p in lp.phis :: p in dst && p in lp.init && IR.Ready(lp.init[p], env, m.params)
    ensures UnrollEquivalence.AllAssignable(m.params, lp.phis, dst, lp.init, env)
  {
  }

  lemma EnteredIs(m: Machine, lp: Loop, env: map<Id, Word>)
    requires forall p | p in lp.phis :: p in lp.init
    ensures UnrollTheorems.Entered(m, lp, env) == Assigned(lp.phis, lp.init, env, m.params)
  {
  }

  // ----- Out of the loop

  /** The block where both ways out meet, with a phi for each phi of the header. */
  ghost predicate ExitStands(g: Function, lp: Loop, u: Unrolled, bk: Blocks, fs: Shape, finals: map<Id, Id>) {
    && bk.finalExit in g.blocks && g.blocks[bk.finalExit] == Assemble(fs) && ValidShape(g.code, fs)
    && (forall p | p in lp.phis :: p in finals) && fs.phis == PhiIds(lp.phis, finals) && Apart(lp.phis, finals)
    && ReceiveAs(g.code, lp.phis, finals, bk.epiHeader, FinalVals(lp, u, false))
    && ReceiveAs(g.code, lp.phis, finals, bk.epiBody, FinalVals(lp, u, true))
  }

  /** What the phis at the exit receive; a null that the unroller left is a null operand. */
  function FinalVals(lp: Loop, u: Unrolled, once: bool): map<Id, Value> {
    map p | p in lp.phis :: OrNull(UnrollEquivalence.FinalPhi(u, once, p))
  }

  function OrNull(v: Option<Value>): Value {
    if v.Some? then v.value else Null
  }

  /** The phis at the exit hold what the header's phis held. */
  ghost predicate HoldsFinals(lp: Loop, finals: map<Id, Id>, envX: map<Id, Word>, env: map<Id, Word>) {
    forall p | p in lp.phis :: p in finals && p in envX && finals[p] in env && env[finals[p]] == envX[p]
  }

  /** All latch values are defined in the loop, so that no operand at the exit is null. */
  ghost predicate LatchesInLoop(code: map<Id, Instr>, lp: Loop) {
    forall p | p in lp.phis :: LatchInLoop(code, lp, p)
  }

  lemma FinalsReady(m: Machine, code: map<Id, Instr>, lp: Loop, u: Unrolled, once: bool, envX: map<Id, Word>,
                    envY: map<Id, Word>)
    requires UnrollTheorems.FinalPhis(m, code, lp, u, once, envX, envY) && LatchesInLoop(code, lp)
    ensures forall p | p in lp.phis ::
              && p in FinalVals(lp, u, once) && IR.Ready(FinalVals(lp, u, once)[p], envY, m.params)
              && p in envX && Fetch(FinalVals(lp, u, once)[p], envY, m.params) == envX[p]
  {
    hide LatchInLoop, UnrollEquivalence.FinalPhi, IR.Ready, Fetch;
  }

  /** Past the epilogue the exit is entered with the final values. */
  lemma Leaves(m: Machine, g: Function, code: map<Id, Instr>, lp: Loop, u: Unrolled, bk: Blocks, fs: Shape,
               finals: map<Id, Id>, k: nat, once: bool, s2: State, envX: map<Id, Word>, envY: map<Id, Word>,
               memY: Memory)
    returns (z: State)
    requires InUnrolled(g, code, lp, u, bk) && ExitStands(g, lp, u, bk, fs, finals) && AtUnrolled(g, bk, s2)
    requires UnrollTheorems.FinalPhis(m, code, lp, u, once, envX, envY) && LatchesInLoop(code, lp)
    requires !once ==> u.condEpi in envY && envY[u.condEpi].bits == 0
    ensures Reaches(m, g, AfterPairs(bk, k, once, s2, envY, memY), z)
    ensures z.ret.None? && z.path != [] && Last(z.path) == bk.finalExit && z.pc == |fs.phis| && z.mem == memY
    ensures HoldsFinals(lp, finals, envX, z.env)
  {
    hide *;
    var y := AfterPairs(bk, k, once, s2, envY, memY);
    var vals := FinalVals(lp, u, once);
    var pre := if once then bk.epiBody else bk.epiHeader;
    FinalsReady(m, code, lp, u, once, envX, envY);
    ExitParts(g, lp, u, bk, fs, finals, once);
    PhisStand(g, code, lp, u, bk);
    assert |PhiIds(lp.phis, u.uPhi)| == |lp.phis|;
    ReceivedById(g.code, lp.phis, finals, pre, vals);
    AssignedById(m, lp.phis, finals, vals, envY);
    var a := EnterState(y, bk.finalExit, envY, memY);
    LeavesTo(m, g, code, lp, u, bk, k, once, s2, envY, memY);
    ExitArrives(g, lp, u, bk, fs, finals, k, once, s2, envY, memY);
    EnterParts(y, bk.finalExit, envY, memY);
    var env' := UnrollEquivalence.AssignAll(m.params, lp.phis, finals, vals, envY);
    FinalsAssigned(m, lp, finals, vals, envX, envY);
    z := a.(pc := |fs.phis|, env := env');
    PhisPassed(m, g, fs, pre, a, z, ById(lp.phis, finals, vals));
    StepReaches(m, g, y, a);
    StepReaches(m, g, a, z);
    ReachesThen(m, g, y, a, z);
  }

  lemma ExitParts(g: Function, lp: Loop, u: Unrolled, bk: Blocks, fs: Shape, finals: map<Id, Id>, once: bool)
    requires ExitStands(g, lp, u, bk, fs, finals)
    ensures (forall p | p in lp.phis :: p in finals) && fs.phis == PhiIds(lp.phis, finals) && Apart(lp.phis, finals)
    ensures ReceiveAs(g.code, lp.phis, finals, if once then bk.epiBody else bk.epiHeader, FinalVals(lp, u, once))
  {
    hide ReceiveAs, ValidShape, Assemble, Apart, FinalVals;
  }

  lemma FinalsAssigned(m: Machine, lp: Loop, finals: map<Id, Id>, vals: map<Id, Value>, envX: map<Id, Word>,
                       envY: map<Id, Word>)
    requires (forall p | p in lp.phis :: p in finals && p in vals) && Apart(lp.phis, finals)
    requires forall p | p in lp.phis ::
               IR.Ready(vals[p], envY, m.params) && p in envX && Fetch(vals[p], envY, m.params) == envX[p]
    ensures UnrollEquivalence.AllAssignable(m.params, lp.phis, finals, vals, envY)
    ensures HoldsFinals(lp, finals, envX, UnrollEquivalence.AssignAll(m.params, lp.phis, finals, vals, envY))
  {
    hide IR.Ready, Fetch, UnrollEquivalence.AssignAll;
    UnrollEquivalence.Assigned(m.params, lp.phis, finals, vals, envY);
  }

  /** The last step out of the epilogue. */
  lemma LeavesTo(m: Machine, g: Function, code: map<Id, Instr>, lp: Loop, u: Unrolled, bk: Blocks, k: nat, once: bool,
                 s2: State, envY: map<Id, Word>, memY: Memory)
    requires InUnrolled(g, code, lp, u, bk) && AtUnrolled(g, bk, s2)
    requires !once ==> u.condEpi in envY && envY[u.condEpi].bits == 0
    ensures var y := AfterPairs(bk, k, once, s2, envY, memY);
            Step(m, g, y, EnterState(y, bk.finalExit, envY, memY))
  {
    hide *;
    var y := AfterPairs(bk, k, once, s2, envY, memY);
    var a := EnterState(y, bk.finalExit, envY, memY);
    AfterPairsEnds(g, code, lp, u, bk, k, once, s2, envY, memY);
    if once {
      JumpStep(m, g, bk.bs, y, a, bk.finalExit);
    } else {
      BranchStep(m, g, bk.es, y, a, u.condEpi, bk.epiBody, bk.finalExit);
    }
  }

  lemma AfterPairsEnds(g: Function, code: map<Id, Instr>, lp: Loop, u: Unrolled, bk: Blocks, k: nat, once: bool,
                       s2: State, envY: map<Id, Word>, memY: Memory)
    requires InUnrolled(g, code, lp, u, bk) && AtUnrolled(g, bk, s2)
    ensures var y := AfterPairs(bk, k, once, s2, envY, memY);
            && y.env == envY && y.mem == memY && Ended(g, if once then bk.bs else bk.es, y)
    ensures JumpsTo(g, bk.bs, bk.finalExit) && BranchesTo(g, bk.es, u.condEpi, bk.epiBody, bk.finalExit)
  {
    var y := AfterPairs(bk, k, once, s2, envY, memY);
    assert Last(y.path) == if once then bk.epiBody else bk.epiHeader;
    hide Assemble, ReceiveAs, SameCode, JumpsTo, BranchesTo, PairTrail, ValidShape;
    TermsThere(g, code, lp, u, bk);
  }

  lemma TermsThere(g: Function, code: map<Id, Instr>, lp: Loop, u: Unrolled, bk: Blocks)
    requires InUnrolled(g, code, lp, u, bk)
    ensures bk.bs.phis == [] && |bk.es.phis| > 0
  {
    hide ValidShape, Assemble, ReceiveAs, SameCode, JumpsTo, BranchesTo;
  }

  lemma ExitArrives(g: Function, lp: Loop, u: Unrolled, bk: Blocks, fs: Shape, finals: map<Id, Id>, k: nat, once: bool,
                    s2: State, envY: map<Id, Word>, memY: Memory)
    requires ExitStands(g, lp, u, bk, fs, finals) && AtUnrolled(g, bk, s2) && lp.phis != []
    ensures var a := EnterState(AfterPairs(bk, k, once, s2, envY, memY), bk.finalExit, envY, memY);
            && Arrived(g, fs, if once then bk.epiBody else bk.epiHeader, a) && fs.phis != []
            && a.ret.None? && a.path != [] && Last(a.path) == bk.finalExit && a.env == envY && a.mem == memY
  {
    var y := AfterPairs(bk, k, once, s2, envY, memY);
    assert Last(y.path) == if once then bk.epiBody else bk.epiHeader;
    hide ValidShape, Assemble, ReceiveAs, PairTrail, Apart;
  }

  // ----- From the preheader to the exit

  lemma LoopIsThere(m: Machine, ar: UnrollEquivalence.Arith, f: Function, lp: Loop, u: Unrolled, base: Id,
                    block: BlockId)
    requires UnrollEquivalence.Setting(m, ar, f.code, lp, u, base, block)
    ensures Body(f.code, lp) != []
  {
    hide *;
    UnrollEquivalence.SettingParts(m, ar, f.code, lp, u, base, block);
    CondInBody(m, ar, f.code, lp);
  }

  lemma CondInBody(m: Machine, ar: UnrollEquivalence.Arith, code: map<Id, Instr>, lp: Loop)
    requires UnrollEquivalence.WhileForm(m, ar, code, lp)
    ensures Body(code, lp) != []
  {
    ClonedConcat(lp.header, lp.latchBlock, code);
  }

  /**
   Whatever the function does from the preheader through n rounds of the loop, the function with
   the unrolled blocks does, and at the exit memory and the values of the header's phis are the
   same: on words, for a counter that does not wrap to where its test holds again.
   */
  lemma UnrolledRunsFollow(m: Machine, f: Function, lp: Loop, at: Place, g: Function, u: Unrolled, bk: Blocks,
                           fs: Shape, finals: map<Id, Id>, base: Id, block: BlockId, w: nat, step: int, pre: BlockId,
                           n: nat, s: State, t: State, s2: State, envX: map<Id, Word>, memX: Memory)
    returns (k: nat, once: bool, z: State)
    requires InFunction(f, lp, at) && InUnrolled(g, f.code, lp, u, bk) && ExitStands(g, lp, u, bk, fs, finals)
    requires w >= 1 && step != 0
    requires UnrollEquivalence.Setting(m, WordArith(lp.cmp, w, step), f.code, lp, u, base, block)
    requires LatchesInLoop(f.code, lp)
    requires Receive(f.code, lp.phis, pre, lp.init) && ReceiveAs(g.code, lp.phis, u.uPhi, pre, lp.init)
    requires Entering(f, at.hs, at.header, pre, s) && Entering(g, bk.us, bk.uHeader, pre, s2)
    requires s2.env == s.env && s2.mem == s.mem
    requires Step(m, f, s, t) && WordLoop(m, lp, w, step, t.env)
    requires NoSecondWind(lp.cmp, w, First(lp, w, t.env), Limit(m, lp, w, t.env), step)
    requires Reaches(m, f, t, AfterRounds(at, n, t, envX, memX)) && lp.cond in envX && envX[lp.cond].bits == 0
    ensures n == WordTrips(lp.cmp, First(lp, w, t.env), Limit(m, lp, w, t.env), step) == 2 * k + (if once then 1 else 0)
    ensures Reaches(m, g, s2, z)
    ensures z.ret.None? && z.path != [] && Last(z.path) == bk.finalExit && z.pc == |fs.phis|
    ensures z.mem == memX && HoldsFinals(lp, finals, envX, z.env)
  {
    hide *;
    var ar := WordArith(lp.cmp, w, step);
    LoopIsThere(m, ar, f, lp, u, base, block);
    EnteredReady(m, f, lp, at, pre, s, t);
    var t1, t2 := BothEnter(m, ar, f, lp, at, g, u, bk, base, block, pre, s, s2);
    EnteredOnce(m, f, lp, at, pre, s, t, t1);
    LoopRunsExactly(m, f, lp, at, n, t, envX, memX);
    var envY;
    k, once, envY := UnrolledFollowsOnWords(m, f.code, lp, u, base, block, w, step, n, t.env, t.mem, envX, memX,
                                            t2.env);
    UnrolledRunsExactly(m, g, f.code, lp, u, bk, k, once, t2, envY, memX);
    var y := AfterPairs(bk, k, once, t2, envY, memX);
    z := Leaves(m, g, f.code, lp, u, bk, fs, finals, k, once, t2, envX, envY, memX);
    StepReaches(m, g, s2, t2);
    ReachesThen(m, g, s2, t2, y);
    ReachesThen(m, g, s2, y, z);
  }

  lemma EnteredReady(m: Machine, f: Function, lp: Loop, at: Place, pre: BlockId, s: State, t: State)
    requires InFunction(f, lp, at) && Entering(f, at.hs, at.header, pre, s) && Receive(f.code, lp.phis, pre, lp.init)
    requires Step(m, f, s, t)
    ensures (forall p | p in lp.phis :: p in lp.init) && ValuesReady(lp.phis, lp.init, s.env, m.params)
  {
    hide *;
    HeaderPhis(f, lp, at);
    EnteringIs(f, at.hs, at.header, pre, s);
    ReceiveDefined(f.code, lp.phis, pre, lp.init);
    PhisPassed(m, f, at.hs, pre, s, t, lp.init);
  }

  lemma ReceiveDefined(code: map<Id, Instr>, phis: seq<Id>, pred: BlockId, vals: map<Id, Value>)
    requires Receive(code, phis, pred, vals)
    ensures forall p | p in phis :: p in vals
  {
    hide IncomingFrom;
  }

  lemma EnteredOnce(m: Machine, f: Function, lp: Loop, at: Place, pre: BlockId, s: State, t: State, t1: State)
    requires InFunction(f, lp, at) && Entering(f, at.hs, at.header, pre, s) && Receive(f.code, lp.phis, pre, lp.init)
    requires Step(m, f, s, t) && Step(m, f, s, t1)
    ensures t == t1
  {
    hide *;
    HeaderPhis(f, lp, at);
    EnteringIs(f, at.hs, at.header, pre, s);
    ReceiveDefined(f.code, lp.phis, pre, lp.init);
    PhisPassed(m, f, at.hs, pre, s, t, lp.init);
    PhisPassed(m, f, at.hs, pre, s, t1, lp.init);
  }

  /**
   And whatever the unrolled blocks do from the preheader through k pairs and the epilogue, the
   loop does, where its header has results and one step more than its rounds does not wrap.
   */
  lemma LoopRunsFollow(m: Machine, f: Function, lp: Loop, at: Place, g: Function, u: Unrolled, bk: Blocks,
                       base: Id, block: BlockId, w: nat, step: int, pre: BlockId, k: nat, once: bool, s: State,
                       t: State, s2: State, t2: State, envY: map<Id, Word>, memY: Memory)
    returns (n: nat, envX: map<Id, Word>)
    requires InFunction(f, lp, at) && InUnrolled(g, f.code, lp, u, bk)
    requires w >= 1 && step != 0
    requires UnrollEquivalence.Setting(m, WordArith(lp.cmp, w, step), f.code, lp, u, base, block)
    requires Receive(f.code, lp.phis, pre, lp.init) && ReceiveAs(g.code, lp.phis, u.uPhi, pre, lp.init)
    requires Entering(f, at.hs, at.header, pre, s) && Entering(g, bk.us, bk.uHeader, pre, s2)
    requires s2.env == s.env && s2.mem == s.mem
    requires Step(m, f, s, t) && Step(m, g, s2, t2) && WordLoop(m, lp, w, step, t.env)
    requires UnrollTheorems.HeaderTotal(m, f.code, lp) && UnrollTheorems.OutsideReady(m, f.code, lp, t.env)
    requires var x, y := First(lp, w, t.env), Limit(m, lp, w, t.env);
             Within(lp.cmp, w, x + (WordTrips(lp.cmp, x, y, step) + 1) * step)
    requires Reaches(m, g, t2, AfterPairs(bk, k, once, t2, envY, memY))
    requires !once ==> u.condEpi in envY && envY[u.condEpi].bits == 0
    ensures n == 2 * k + (if once then 1 else 0)
    ensures Reaches(m, f, t, AfterRounds(at, n, t, envX, memY)) && lp.cond in envX && envX[lp.cond].bits == 0
    ensures UnrollTheorems.FinalPhis(m, f.code, lp, u, once, envX, envY)
  {
    hide *;
    var ar := WordArith(lp.cmp, w, step);
    LoopIsThere(m, ar, f, lp, u, base, block);
    EnteredReady(m, f, lp, at, pre, s, t);
    var t1, t3 := BothEnter(m, ar, f, lp, at, g, u, bk, base, block, pre, s, s2);
    EnteredOnce(m, f, lp, at, pre, s, t, t1);
    UnrolledOnce(m, g, f.code, lp, u, bk, pre, s2, t2, t3);
    UnrolledRunsExactly(m, g, f.code, lp, u, bk, k, once, t2, envY, memY);
    n, envX := LoopFollowsOnWords(m, f.code, lp, u, base, block, w, step, k, once, t.env, t.mem, t2.env, envY, memY);
    LoopRunsExactly(m, f, lp, at, n, t, envX, memY);
  }

  lemma UnrolledOnce(m: Machine, g: Function, code: map<Id, Instr>, lp: Loop, u: Unrolled, bk: Blocks, pre: BlockId,
                     s: State, t: State, t1: State)
    requires InUnrolled(g, code, lp, u, bk) && Entering(g, bk.us, bk.uHeader, pre, s)
    requires ReceiveAs(g.code, lp.phis, u.uPhi, pre, lp.init) && Step(m, g, s, t) && Step(m, g, s, t1)
    ensures t == t1
  {
    hide *;
    PhisStand(g, code, lp, u, bk);
    EnteringIs(g, bk.us, bk.uHeader, pre, s);
    ReceivedById(g.code, lp.phis, u.uPhi, pre, lp.init);
    ReceiveDefined(g.code, bk.us.phis, pre, ById(lp.phis, u.uPhi, lp.init));
    PhisPassed(m, g, bk.us, pre, s, t, ById(lp.phis, u.uPhi, lp.init));
    PhisPassed(m, g, bk.us, pre, s, t1, ById(lp.phis, u.uPhi, lp.init));
  }
}
