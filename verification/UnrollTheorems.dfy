/**
 Two rounds of the loop against one of the unrolled loop, and from there whole runs.
 */
module UnrollTheorems {
  import opened IR
  import opened Reordering
  import opened ValueCloner
  import opened LoopUnroll
  import opened UnrollEquivalence

  /** The values the phis have after the first clone of the body. */
  ghost function FirstLatches(code: map<Id, Instr>, lp: Loop, u: Unrolled): map<Id, Value>
    requires forall p | p in lp.phis :: p in Insts(u.uPhi)
  {
    LatchValues(lp, MapAfter(PhiMap(lp.phis, Insts(u.uPhi)), Body(code, lp), u.first0))
  }

  lemma FirstLatchesIs(code: map<Id, Instr>, lp: Loop, u: Unrolled)
    requires forall p | p in lp.phis :: p in Insts(u.uPhi)
    ensures FirstLatches(code, lp, u)
            == LatchValues(lp, MapAfter(PhiMap(lp.phis, Insts(u.uPhi)), Body(code, lp), u.first0))
  {
  }

  lemma BackMap(code: map<Id, Instr>, lp: Loop, u: Unrolled, full: ValueMap)
    requires forall p | p in lp.phis :: p in lp.latch && p in u.back && u.back[p] == Mapped(full, lp.latch[p])
    ensures forall p | p in lp.phis :: p in LatchValues(lp, full)
    ensures PhiMap(lp.phis, u.back) == PhiMap(lp.phis, LatchValues(lp, full))
  {
    LatchValuesDefined(lp, full);
    forall v
      ensures v in PhiMap(lp.phis, u.back) <==> v in PhiMap(lp.phis, LatchValues(lp, full))
      ensures v in PhiMap(lp.phis, u.back) ==> PhiMap(lp.phis, u.back)[v] == PhiMap(lp.phis, LatchValues(lp, full))[v]
    {
      PhiMapAt(lp.phis, u.back, v);
      PhiMapAt(lp.phis, LatchValues(lp, full), v);
    }
  }

  /** Behind the second body the new phis take the values that match. */
  lemma BackEdge(m: Machine, ar: Arith, code: map<Id, Instr>, lp: Loop, u: Unrolled, base: Id, block: BlockId,
                 env3: map<Id, Word>, env2: map<Id, Word>)
    requires Setting(m, ar, code, lp, u, base, block) && LatchesReady(m, lp, env3)
    requires forall p | p in lp.phis :: p in Insts(u.uPhi) && p in u.uPhi && p in u.back && p in lp.latch
    requires forall p | p in lp.phis :: p in FirstLatches(code, lp, u)
    requires var full := MapAfter(PhiMap(lp.phis, FirstLatches(code, lp, u)), Body(code, lp), u.first1);
             && Corresponds(m.params, base, [], full, env3, env2)
             && MapsBelow(full, u.first1 + |Body(code, lp)|)
             && forall p | p in lp.phis :: u.back[p] == Mapped(full, lp.latch[p])
    ensures AllAssignable(m.params, lp.phis, u.uPhi, u.back, env2)
    ensures Matched(m, code, lp, u.uPhi, base, NextPhis(m, lp, env3),
                    AssignAll(m.params, lp.phis, u.uPhi, u.back, env2))
  {
    hide *;
    SettingParts(m, ar, code, lp, u, base, block);
    ValidLatches(code, lp, base);
    var full := MapAfter(PhiMap(lp.phis, FirstLatches(code, lp, u)), Body(code, lp), u.first1);
    NextIteration(m, base, code, lp, FirstLatches(code, lp, u), u.first1, u.first1 + |Body(code, lp)|, env3, env2);
    BackMap(code, lp, u, full);
    NextPhisAre(m, lp, env3);
    Renamed(m.params, base, Body(code, lp), lp.phis, u.back, u.uPhi, base, u.addStep, NextPhis(m, lp, env3), env2);
    AsMatched(m, code, lp, u.uPhi, base, NextPhis(m, lp, env3), AssignAll(m.params, lp.phis, u.uPhi, u.back, env2));
  }

  /** What the unrolling provides for the two bodies, with the names used here. */
  lemma PairSetup(m: Machine, ar: Arith, code: map<Id, Instr>, lp: Loop, u: Unrolled, base: Id, block: BlockId)
    requires Setting(m, ar, code, lp, u, base, block)
    ensures ValidLoop(code, lp, base) && base <= u.first0 && u.first1 == u.first0 + |Body(code, lp)|
    ensures forall p | p in lp.phis :: p in Insts(u.uPhi) && p in u.uPhi && p in u.back && p in lp.latch
    ensures forall p | p in lp.phis :: p in FirstLatches(code, lp, u)
    ensures MapsBelow(PhiMap(lp.phis, Insts(u.uPhi)), u.first0)
    ensures AreClones(code, u.code, PhiMap(lp.phis, Insts(u.uPhi)), Body(code, lp), u.first0, block)
    ensures AreClones(code, u.code, PhiMap(lp.phis, FirstLatches(code, lp, u)), Body(code, lp), u.first1, block)
    ensures forall p | p in lp.phis ::
              u.back[p] == Mapped(MapAfter(PhiMap(lp.phis, FirstLatches(code, lp, u)), Body(code, lp), u.first1),
                                  lp.latch[p])
  {
    hide *;
    SettingParts(m, ar, code, lp, u, base, block);
    MapsBelowPhis(lp.phis, u.uPhi, base, u.addStep);
    BelowMore(PhiMap(lp.phis, Insts(u.uPhi)), u.addStep, u.first0);
    UnrollingBodies(code, lp, u, base, block);
    FirstLatchesIs(code, lp, u);
  }

  lemma BelowMore(vmap: ValueMap, lo: Id, hi: Id)
    requires MapsBelow(vmap, lo) && lo <= hi
    ensures MapsBelow(vmap, hi)
  {
  }

  /** Two rounds of the loop, done by the two bodies. */
  lemma TwoRounds(m: Machine, ar: Arith, code: map<Id, Instr>, lp: Loop, u: Unrolled, base: Id, block: BlockId,
                  env: map<Id, Word>, mem: Memory, env1: map<Id, Word>, mem1: Memory, env3: map<Id, Word>, mem3: Memory,
                  envt: map<Id, Word>)
    returns (envA: map<Id, Word>, envB: map<Id, Word>)
    requires Setting(m, ar, code, lp, u, base, block)
    requires forall p | p in lp.phis :: p in Insts(u.uPhi) && p in u.uPhi && p in u.back && p in lp.latch
    requires Matched(m, code, lp, u.uPhi, base, env, envt)
    requires Runs(m, code, Body(code, lp), env, mem, env1, mem1) && LatchesReady(m, lp, env1)
    requires Runs(m, code, Body(code, lp), NextPhis(m, lp, env1), mem1, env3, mem3) && LatchesReady(m, lp, env3)
    ensures Runs(m, u.code, Ids(u.first0, |Body(code, lp)|), envt, mem, envA, mem1)
    ensures Runs(m, u.code, Ids(u.first1, |Body(code, lp)|), envA, mem1, envB, mem3)
    ensures AllAssignable(m.params, lp.phis, u.uPhi, u.back, envB)
    ensures Matched(m, code, lp, u.uPhi, base, NextPhis(m, lp, env3),
                    AssignAll(m.params, lp.phis, u.uPhi, u.back, envB))
  {
    hide *;
    PairSetup(m, ar, code, lp, u, base, block);
    MatchedParts(m, code, lp, u.uPhi, base, env, envt);
    envA := BodyFollows(m, code, u.code, lp, Insts(u.uPhi), base, u.first0, block, env, mem, env1, mem1, envt);
    FirstLatchesIs(code, lp, u);
    NextIteration(m, base, code, lp, Insts(u.uPhi), u.first0, u.first1, env1, envA);
    LatchMapBelow(code, lp, MapAfter(PhiMap(lp.phis, Insts(u.uPhi)), Body(code, lp), u.first0), base, u.first1);
    envB := BodyFollows(m, code, u.code, lp, FirstLatches(code, lp, u), base, u.first1, block,
                        NextPhis(m, lp, env1), mem1, env3, mem3, envA);
    BackEdge(m, ar, code, lp, u, base, block, env3, envB);
  }

  // ----- The epilogue

  /** What the phi at the exit holds is what the loop's phi holds. */
  ghost predicate FinalPhis(m: Machine, code: map<Id, Instr>, lp: Loop, u: Unrolled, once: bool,
                            envX: map<Id, Word>, envY: map<Id, Word>)
  {
    forall p | p in lp.phis && (once ==> LatchInLoop(code, lp, p)) ::
      && p in envX && FinalPhi(u, once, p).Some?
      && IR.Ready(FinalPhi(u, once, p).value, envY, m.params)
      && Fetch(FinalPhi(u, once, p).value, envY, m.params) == envX[p]
  }

  lemma EpilogueMakes(m: Machine, code: map<Id, Instr>, lp: Loop, u: Unrolled, once: bool, env2: map<Id, Word>,
                      mem: Memory, envt: map<Id, Word>, envY: map<Id, Word>, memY: Memory)
    requires AllAssignable(m.params, lp.phis, u.epiPhi, Insts(u.uPhi), env2)
    requires Runs(m, u.code, [u.condEpi], AssignAll(m.params, lp.phis, u.epiPhi, Insts(u.uPhi), env2), mem, envt, mem)
    requires u.condEpi in envt
    requires if once then envt[u.condEpi].bits != 0
             && Runs(m, u.code, Ids(u.firstEpi, |Body(code, lp)|), envt, mem, envY, memY)
             else envt[u.condEpi].bits == 0 && envY == envt && memY == mem
    ensures Epilogue(m, code, lp, u, once, env2, mem, envY, memY)
  {
    hide Runs, AssignAll, Insts;
  }

  lemma PairsEnd(m: Machine, code: map<Id, Instr>, lp: Loop, u: Unrolled, once: bool, env2: map<Id, Word>, mem: Memory,
                 envt: map<Id, Word>, envY: map<Id, Word>, memY: Memory)
    requires Runs(m, u.code, [u.addStep, u.cond2x], env2, mem, envt, mem) && u.cond2x in envt
    requires envt[u.cond2x].bits == 0 && Epilogue(m, code, lp, u, once, envt, mem, envY, memY)
    ensures Pairs(m, code, lp, u, 0, once, env2, mem, envY, memY)
  {
    hide Runs, Epilogue;
  }

  lemma PairsGoOn(m: Machine, code: map<Id, Instr>, lp: Loop, u: Unrolled, k: nat, once: bool, env2: map<Id, Word>,
                  mem: Memory,
                  envt: map<Id, Word>, envA: map<Id, Word>, mem1: Memory, envB: map<Id, Word>, mem3: Memory,
                  envY: map<Id, Word>, memY: Memory)
    requires Runs(m, u.code, [u.addStep, u.cond2x], env2, mem, envt, mem) && u.cond2x in envt
    requires envt[u.cond2x].bits != 0
    requires Runs(m, u.code, Ids(u.first0, |Body(code, lp)|), envt, mem, envA, mem1)
    requires Runs(m, u.code, Ids(u.first1, |Body(code, lp)|), envA, mem1, envB, mem3)
    requires AllAssignable(m.params, lp.phis, u.uPhi, u.back, envB)
    requires Pairs(m, code, lp, u, k, once, AssignAll(m.params, lp.phis, u.uPhi, u.back, envB), mem3, envY, memY)
    ensures Pairs(m, code, lp, u, k + 1, once, env2, mem, envY, memY)
  {
    hide Runs, AllAssignable, AssignAll;
    assert Pair(m, code, lp, u, k + 1, once, envt, mem, envY, memY);
  }

  lemma EpiHeaderPhi(m: Machine, code: map<Id, Instr>, lp: Loop, u: Unrolled, base: Id, env: map<Id, Word>,
                     env2: map<Id, Word>, p: Id)
    requires (forall q | q in lp.phis :: q in Insts(u.epiPhi) && q in u.epiPhi)
    requires Matched(m, code, lp, u.epiPhi, base, env, env2)
    requires p in lp.phis && p < base && p !in Body(code, lp) && FinalPhi(u, false, p) == Some(Inst(u.epiPhi[p]))
    ensures p in env && IR.Ready(FinalPhi(u, false, p).value, env2, m.params)
    ensures Fetch(FinalPhi(u, false, p).value, env2, m.params) == env[p]
  {
    MatchedParts(m, code, lp, u.epiPhi, base, env, env2);
    PhisIn(lp, env, p);
    CorrespondsAt(m.params, base, Body(code, lp), PhiMap(lp.phis, Insts(u.epiPhi)), env, env2, p);
    MappedPhi(lp.phis, Insts(u.epiPhi), p);
    hide PhiMap, Corresponds, Body, Matched;
  }

  /** The loop goes round no more: neither does the unrolled one. */
  lemma NoMore(m: Machine, ar: Arith, code: map<Id, Instr>, lp: Loop, u: Unrolled, base: Id, block: BlockId,
               env: map<Id, Word>, mem: Memory, envX: map<Id, Word>, memX: Memory, env2: map<Id, Word>)
    returns (envY: map<Id, Word>)
    requires Setting(m, ar, code, lp, u, base, block) && forall p | p in lp.phis :: p in Insts(u.uPhi)
    requires Matched(m, code, lp, u.uPhi, base, env, env2) && Rounds(m, code, lp, 0, env, mem, envX, memX)
    requires lp.iv in envX && !ar.holds(ar.next(envX[lp.iv]), Bound(m, lp, envX))
    ensures Pairs(m, code, lp, u, 0, false, env2, mem, envY, memX) && FinalPhis(m, code, lp, u, false, envX, envY)
  {
    hide *;
    SettingParts(m, ar, code, lp, u, base, block);
    ValidLatches(code, lp, base);
    MatchedParts(m, code, lp, u.uPhi, base, env, env2);
    LastRound(m, ar, code, lp, base, env, mem, envX, memX);
    var envt := DoubleTest(m, ar, code, lp, u, base, block, env, env2, mem);
    EpiloguePhis(m, ar, code, lp, u, base, block, env, envt);
    var envE := AssignAll(m.params, lp.phis, u.epiPhi, Insts(u.uPhi), envt);
    envY := EpilogueTest(m, ar, code, lp, u, base, block, env, envE, mem);
    EpilogueMakes(m, code, lp, u, false, envt, mem, envY, envY, mem);
    PairsEnd(m, code, lp, u, false, env2, mem, envt, envY, mem);
    UnrollingBodies(code, lp, u, base, block);
    forall p | p in lp.phis
      ensures p in envX && FinalPhi(u, false, p).Some? && IR.Ready(FinalPhi(u, false, p).value, envY, m.params)
      ensures Fetch(FinalPhi(u, false, p).value, envY, m.params) == envX[p]
    {
      EpiHeaderPhi(m, code, lp, u, base, env, envY, p);
    }
    FinalPhisIf(m, code, lp, u, false, envX, envY);
  }

  lemma FinalPhisIf(m: Machine, code: map<Id, Instr>, lp: Loop, u: Unrolled, once: bool, envX: map<Id, Word>,
                    envY: map<Id, Word>)
    requires forall p | p in lp.phis && (once ==> LatchInLoop(code, lp, p)) ::
               && p in envX && FinalPhi(u, once, p).Some?
               && IR.Ready(FinalPhi(u, once, p).value, envY, m.params)
               && Fetch(FinalPhi(u, once, p).value, envY, m.params) == envX[p]
    ensures FinalPhis(m, code, lp, u, once, envX, envY)
  {
    hide FinalPhi, LatchInLoop, Fetch, IR.Ready;
  }

  /** The loop goes round exactly once more: the epilogue does it. */
  lemma OnceMore(m: Machine, ar: Arith, code: map<Id, Instr>, lp: Loop, u: Unrolled, base: Id, block: BlockId,
                 env: map<Id, Word>, mem: Memory, envX: map<Id, Word>, memX: Memory, env2: map<Id, Word>)
    returns (envY: map<Id, Word>)
    requires Setting(m, ar, code, lp, u, base, block) && forall p | p in lp.phis :: p in Insts(u.uPhi)
    requires Matched(m, code, lp, u.uPhi, base, env, env2) && Rounds(m, code, lp, 1, env, mem, envX, memX)
    ensures Pairs(m, code, lp, u, 0, true, env2, mem, envY, memX) && FinalPhis(m, code, lp, u, true, envX, envY)
  {
    hide *;
    SettingParts(m, ar, code, lp, u, base, block);
    ValidLatches(code, lp, base);
    MatchedParts(m, code, lp, u.uPhi, base, env, env2);
    var env1, mem1 := OneRound(m, ar, code, lp, base, 1, env, mem, envX, memX);
    LastRound(m, ar, code, lp, base, NextPhis(m, lp, env1), mem1, envX, memX);
    var envt := DoubleTest(m, ar, code, lp, u, base, block, env, env2, mem);
    EpiloguePhis(m, ar, code, lp, u, base, block, env, envt);
    var envE := AssignAll(m.params, lp.phis, u.epiPhi, Insts(u.uPhi), envt);
    var envE' := EpilogueTest(m, ar, code, lp, u, base, block, env, envE, mem);
    UnrollingBodies(code, lp, u, base, block);
    EpiBelow(code, lp, u, base, block);
    MatchedParts(m, code, lp, u.epiPhi, base, env, envE');
    envY := BodyFollows(m, code, u.code, lp, Insts(u.epiPhi), base, u.firstEpi, block, env, mem, env1, mem1, envE');
    EpilogueMakes(m, code, lp, u, true, envt, mem, envE', envY, mem1);
    PairsEnd(m, code, lp, u, true, env2, mem, envt, envY, mem1);
    NextPhisAre(m, lp, env1);
    var full := MapAfter(PhiMap(lp.phis, Insts(u.epiPhi)), Body(code, lp), u.firstEpi);
    forall p | p in lp.phis && LatchInLoop(code, lp, p)
      ensures p in envX && FinalPhi(u, true, p).Some? && IR.Ready(FinalPhi(u, true, p).value, envY, m.params)
      ensures Fetch(FinalPhi(u, true, p).value, envY, m.params) == envX[p]
    {
      LatchFetched(m, code, lp, full, base, u.firstEpi + |Body(code, lp)|, env1, envY, p);
    }
    FinalPhisIf(m, code, lp, u, true, envX, envY);
  }

  lemma EpiBelow(code: map<Id, Instr>, lp: Loop, u: Unrolled, base: Id, block: BlockId)
    requires IsUnrolling(code, lp, u, base, block) && forall p | p in lp.phis :: p in Insts(u.epiPhi)
    ensures MapsBelow(PhiMap(lp.phis, Insts(u.epiPhi)), u.firstEpi) && base <= u.firstEpi
  {
    hide *;
    UnrollingParts(code, lp, u, base, block);
    MapsBelowPhis(lp.phis, u.epiPhi, u.first1 + |Body(code, lp)|, u.condEpi);
    BelowMore(PhiMap(lp.phis, Insts(u.epiPhi)), u.condEpi, u.firstEpi);
  }

  lemma LatchFetched(m: Machine, code: map<Id, Instr>, lp: Loop, full: ValueMap, base: Id, limit: Id,
                     env1: map<Id, Word>, envY: map<Id, Word>, p: Id)
    requires ValidLoop(code, lp, base) && Corresponds(m.params, base, [], full, env1, envY) && MapsBelow(full, limit)
    requires LatchesReady(m, lp, env1) && p in lp.phis && p in lp.latch
    ensures IR.Ready(Mapped(full, lp.latch[p]), envY, m.params)
    ensures Fetch(Mapped(full, lp.latch[p]), envY, m.params) == Fetch(lp.latch[p], env1, m.params)
  {
    ValidLatches(code, lp, base);
    hide ValidLoop, Corresponds, MapsBelow, Mapped;
    MappedFetch(m.params, base, [], full, limit, env1, envY, lp.latch[p]);
  }

  // ----- Whole runs

  /**
   Whatever the loop does, for any number of rounds, the unrolled loop does in half as many
   and perhaps one in the epilogue: the same memory, the same values in the phis.  All that
   is asked is that the loop's test, having failed after an even number of rounds, would not
   hold again one step further on.
   */
  lemma {:induction false} UnrolledFollows(m: Machine, ar: Arith, code: map<Id, Instr>, lp: Loop, u: Unrolled, base: Id,
                                           block: BlockId, n: nat, env: map<Id, Word>, mem: Memory,
                                           envX: map<Id, Word>, memX: Memory, env2: map<Id, Word>)
    returns (k: nat, once: bool, envY: map<Id, Word>)
    requires Setting(m, ar, code, lp, u, base, block) && forall p | p in lp.phis :: p in Insts(u.uPhi)
    requires Matched(m, code, lp, u.uPhi, base, env, env2) && Rounds(m, code, lp, n, env, mem, envX, memX)
    requires n % 2 == 0 ==> lp.iv in envX && !ar.holds(ar.next(envX[lp.iv]), Bound(m, lp, envX))
    ensures n == 2 * k + (if once then 1 else 0)
    ensures Pairs(m, code, lp, u, k, once, env2, mem, envY, memX) && FinalPhis(m, code, lp, u, once, envX, envY)
    decreases n
  {
    hide *;
    if n == 0 {
      k, once := 0, false;
      envY := NoMore(m, ar, code, lp, u, base, block, env, mem, envX, memX, env2);
    } else if n == 1 {
      k, once := 0, true;
      envY := OnceMore(m, ar, code, lp, u, base, block, env, mem, envX, memX, env2);
    } else {
      SettingParts(m, ar, code, lp, u, base, block);
      MatchedParts(m, code, lp, u.uPhi, base, env, env2);
      var env1, mem1 := OneRound(m, ar, code, lp, base, n, env, mem, envX, memX);
      var env3, mem3 := OneRound(m, ar, code, lp, base, n - 1, NextPhis(m, lp, env1), mem1, envX, memX);
      var envt := DoubleTest(m, ar, code, lp, u, base, block, env, env2, mem);
      var envA, envB := TwoRounds(m, ar, code, lp, u, base, block, env, mem, env1, mem1, env3, mem3, envt);
      k, once, envY := UnrolledFollows(m, ar, code, lp, u, base, block, n - 2, NextPhis(m, lp, env3), mem3, envX, memX,
                                       AssignAll(m.params, lp.phis, u.uPhi, u.back, envB));
      PairsGoOn(m, code, lp, u, k, once, env2, mem, envt, envA, mem1, envB, mem3, envY, memX);
      k := k + 1;
    }
  }

  // ----- And back: the loop follows the unrolled loop

  /** What comes from outside the loop is there: latch values and operands of header operations. */
  ghost predicate OutsideReady(m: Machine, code: map<Id, Instr>, lp: Loop, env: map<Id, Word>) {
    && IR.Ready(lp.bound, env, m.params)
    && (forall p | p in lp.phis && p in lp.latch && !LatchInLoop(code, lp, p) :: IR.Ready(lp.latch[p], env, m.params))
    && (forall id, i | id in HeaderOps(code, lp) && id in code && 0 <= i < |code[id].operands| ::
          FromOutside(code, lp, code[id].operands[i]) ==> IR.Ready(code[id].operands[i], env, m.params))
  }

  ghost predicate FromOutside(code: map<Id, Instr>, lp: Loop, v: Value) {
    v.Inst? ==> v.id !in lp.phis && v.id !in Body(code, lp)
  }

  /** Every operation of the header has a result whatever its operands. */
  ghost predicate HeaderTotal(m: Machine, code: map<Id, Instr>, lp: Loop) {
    forall id, env: map<Id, Word>, mem: Memory
        | id in HeaderOps(code, lp) && id in code && AllReady(code[id].operands, env, m.params) ::
      HasResult(m, code[id], env, mem)
  }

  ghost predicate HasResult(m: Machine, instr: Instr, env: map<Id, Word>, mem: Memory) {
    exists v: Word, mem': Memory :: OpRuns(m, instr, env, mem, v, mem')
  }

  /** The operations from position k on can be run. */
  lemma {:induction false} HeaderCanRun(m: Machine, code: map<Id, Instr>, lp: Loop, base: Id, k: nat,
                                        env: map<Id, Word>, mem: Memory)
    returns (env': map<Id, Word>, mem': Memory)
    requires ValidLoop(code, lp, base) && HeaderTotal(m, code, lp) && OutsideReady(m, code, lp, env) && PhisSet(lp, env)
    requires k <= |HeaderOps(code, lp)| && forall j | 0 <= j < k :: HeaderOps(code, lp)[j] in env
    ensures Runs(m, code, HeaderOps(code, lp)[k..], env, mem, env', mem')
    decreases |HeaderOps(code, lp)| - k
  {
    hide *;
    var ops := HeaderOps(code, lp);
    if k == |ops| {
      env', mem' := env, mem;
      assert ops[k..] == [];
      RunsNothing(m, code, env, mem, env, mem);
    } else {
      OperandsReady(m, code, lp, base, k, env);
      var v, mid := ResultAt(m, code, lp, ops[k], env, mem);
      OutsideStill(m, code, lp, base, env, ops[k], v);
      env', mem' := HeaderCanRun(m, code, lp, base, k + 1, env[ops[k] := v], mid);
      RunsOne(m, code, ops[k], ops[k + 1..], env, mem, v, mid, env', mem');
      assert [ops[k]] + ops[k + 1..] == ops[k..];
    }
  }

  lemma ResultAt(m: Machine, code: map<Id, Instr>, lp: Loop, id: Id, env: map<Id, Word>, mem: Memory)
    returns (v: Word, mem': Memory)
    requires HeaderTotal(m, code, lp) && id in HeaderOps(code, lp) && id in code
    requires AllReady(code[id].operands, env, m.params)
    ensures OpRuns(m, code[id], env, mem, v, mem')
  {
    hide OpRuns, HeaderOps, AllReady;
    assert HasResult(m, code[id], env, mem);
    v, mem' :| OpRuns(m, code[id], env, mem, v, mem');
  }

  lemma OperandsReady(m: Machine, code: map<Id, Instr>, lp: Loop, base: Id, k: nat, env: map<Id, Word>)
    requires ValidLoop(code, lp, base) && OutsideReady(m, code, lp, env) && PhisSet(lp, env)
    requires k < |HeaderOps(code, lp)| && forall j | 0 <= j < k :: HeaderOps(code, lp)[j] in env
    ensures HeaderOps(code, lp)[k] in code && AllReady(code[HeaderOps(code, lp)[k]].operands, env, m.params)
  {
    var ops, body := HeaderOps(code, lp), Body(code, lp);
    BodyParts(code, lp, base);
    assert body[k] == ops[k] && ops[k] in ops;
    InScopeAt(code, body, base, k);
    var operands := code[ops[k]].operands;
    forall i | 0 <= i < |operands|
      ensures IR.Ready(operands[i], env, m.params)
    {
      if !FromOutside(code, lp, operands[i]) {
        var y := operands[i].id;
        assert y !in body[k..];
        if y in lp.phis { PhisIn(lp, env, y); } else {
          var j := PositionIn(body, y);
          InTail(body, k, j);
          assert ops[j] == body[j];
        }
      }
    }
  }

  lemma InTail(list: seq<Id>, k: nat, j: nat)
    requires k <= |list| && j < |list|
    ensures j >= k ==> list[j] in list[k..]
  {
    if j >= k { assert list[k..][j - k] == list[j]; }
  }

  lemma InScopeAt(code: map<Id, Instr>, body: seq<Id>, base: Id, k: nat)
    requires InScope(code, body, base) && k < |body|
    ensures body[k] in code && OperandsInScope(code[body[k]].operands, base, body[k..])
  {
  }

  /** Assigning an operation of the loop takes nothing from outside away. */
  lemma OutsideStill(m: Machine, code: map<Id, Instr>, lp: Loop, base: Id, env: map<Id, Word>, id: Id, v: Word)
    requires OutsideReady(m, code, lp, env) && PhisSet(lp, env)
    ensures OutsideReady(m, code, lp, env[id := v]) && PhisSet(lp, env[id := v])
  {
    hide HeaderOps, LatchInLoop, FromOutside;
  }

  /** After a body, everything from outside is still there, and the latch values are. */
  lemma OutsideAfter(m: Machine, code: map<Id, Instr>, lp: Loop, base: Id, env: map<Id, Word>, mem: Memory,
                     env1: map<Id, Word>, mem1: Memory)
    requires ValidLoop(code, lp, base) && OutsideReady(m, code, lp, env) && PhisSet(lp, env)
    requires Runs(m, code, Body(code, lp), env, mem, env1, mem1)
    ensures LatchesReady(m, lp, env1) && OutsideReady(m, code, lp, NextPhis(m, lp, env1))
    ensures PhisSet(lp, NextPhis(m, lp, env1)) && forall p | p in lp.phis :: p in lp.latch
  {
    ValidLatches(code, lp, base);
    forall x: Id | x in env || x in Body(code, lp)
      ensures x in env1
    {
      if x in Body(code, lp) {
        BodyAssigns(m, code, Body(code, lp), env, mem, env1, mem1, x);
      } else {
        OutsideRuns(m, code, Body(code, lp), env, mem, env1, mem1, x);
      }
    }
    hide ValidLoop, Body, Runs, HeaderOps, InScope;
    MoreReady(m, code, lp, env, env1);
    hide OutsideReady;
    NextPhisAre(m, lp, env1);
    MoreReady(m, code, lp, env, NextPhis(m, lp, env1));
  }

  lemma {:induction false} BodyAssigns(m: Machine, code: map<Id, Instr>, list: seq<Id>, env: map<Id, Word>, mem: Memory,
                                       env': map<Id, Word>, mem': Memory, x: Id)
    requires Runs(m, code, list, env, mem, env', mem') && (x in list || x in env)
    ensures x in env'
    decreases |list|
  {
    if list != [] {
      assert list == [list[0]] + list[1..];
      var v, mid := FirstOf(m, code, list[0], list[1..], env, mem, env', mem');
      BodyAssigns(m, code, list[1..], env[list[0] := v], mid, env', mem', x);
    }
  }

  lemma MoreReady(m: Machine, code: map<Id, Instr>, lp: Loop, env: map<Id, Word>, env1: map<Id, Word>)
    requires OutsideReady(m, code, lp, env) && PhisSet(lp, env) && forall x: Id | x in env :: x in env1
    requires forall p | p in lp.phis :: p in lp.latch
    ensures OutsideReady(m, code, lp, env1)
    ensures (forall x: Id | x in Body(code, lp) :: x in env1) ==> LatchesReady(m, lp, env1)
  {
    hide HeaderOps, Body, FromOutside;
  }

  lemma PairsParts(m: Machine, code: map<Id, Instr>, lp: Loop, u: Unrolled, k: nat, once: bool, env2: map<Id, Word>,
                   mem: Memory, envY: map<Id, Word>, memY: Memory)
    returns (envt: map<Id, Word>, memt: Memory, envA: map<Id, Word>, mem1: Memory, envB: map<Id, Word>, mem3: Memory)
    requires Pairs(m, code, lp, u, k, once, env2, mem, envY, memY)
    ensures Runs(m, u.code, [u.addStep, u.cond2x], env2, mem, envt, memt) && u.cond2x in envt
    ensures k == 0 ==> envt[u.cond2x].bits == 0 && Epilogue(m, code, lp, u, once, envt, memt, envY, memY)
    ensures k > 0 ==>
              && envt[u.cond2x].bits != 0
              && Runs(m, u.code, Ids(u.first0, |Body(code, lp)|), envt, memt, envA, mem1)
              && Runs(m, u.code, Ids(u.first1, |Body(code, lp)|), envA, mem1, envB, mem3)
              && AllAssignable(m.params, lp.phis, u.uPhi, u.back, envB)
              && (forall p | p in lp.phis :: p in u.uPhi && p in u.back)
              && Pairs(m, code, lp, u, k - 1, once, AssignAll(m.params, lp.phis, u.uPhi, u.back, envB), mem3, envY,
                       memY)
  {
    hide Runs, Epilogue, Body, AssignAll, Fetch;
    envt, memt :| Runs(m, u.code, [u.addStep, u.cond2x], env2, mem, envt, memt) && u.cond2x in envt
      && if k == 0 then envt[u.cond2x].bits == 0 && Epilogue(m, code, lp, u, once, envt, memt, envY, memY)
         else envt[u.cond2x].bits != 0 && Pair(m, code, lp, u, k, once, envt, memt, envY, memY);
    envA, mem1, envB, mem3 := envt, memt, envt, memt;
    if k > 0 {
      envA, mem1, envB, mem3 :|
        && Runs(m, u.code, Ids(u.first0, |Body(code, lp)|), envt, memt, envA, mem1)
        && Runs(m, u.code, Ids(u.first1, |Body(code, lp)|), envA, mem1, envB, mem3)
        && AllAssignable(m.params, lp.phis, u.uPhi, u.back, envB)
        && Pairs(m, code, lp, u, k - 1, once, AssignAll(m.params, lp.phis, u.uPhi, u.back, envB), mem3, envY, memY);
    }
  }

  lemma EpilogueParts(m: Machine, code: map<Id, Instr>, lp: Loop, u: Unrolled, once: bool, env2: map<Id, Word>,
                      mem: Memory, envY: map<Id, Word>, memY: Memory) returns (envt: map<Id, Word>, memt: Memory)
    requires Epilogue(m, code, lp, u, once, env2, mem, envY, memY)
    ensures AllAssignable(m.params, lp.phis, u.epiPhi, Insts(u.uPhi), env2)
    ensures forall p | p in lp.phis :: p in u.epiPhi && p in Insts(u.uPhi)
    ensures Runs(m, u.code, [u.condEpi], AssignAll(m.params, lp.phis, u.epiPhi, Insts(u.uPhi), env2), mem, envt, memt)
    ensures u.condEpi in envt
    ensures if once then envt[u.condEpi].bits != 0
            && Runs(m, u.code, Ids(u.firstEpi, |Body(code, lp)|), envt, memt, envY, memY)
            else envt[u.condEpi].bits == 0 && envY == envt && memY == memt
  {
    hide Runs, Body, AssignAll, Fetch, Insts;
    envt, memt :| Runs(m, u.code, [u.condEpi], AssignAll(m.params, lp.phis, u.epiPhi, Insts(u.uPhi), env2), mem, envt,
                       memt)
         && u.condEpi in envt
         && if once then envt[u.condEpi].bits != 0
            && Runs(m, u.code, Ids(u.firstEpi, |Body(code, lp)|), envt, memt, envY, memY)
            else envt[u.condEpi].bits == 0 && envY == envt && memY == memt;
  }

  /** A round that a body has been run for and whose test holds. */
  lemma RoundMade(m: Machine, ar: Arith, code: map<Id, Instr>, lp: Loop, base: Id, n: nat, env: map<Id, Word>,
                  mem: Memory, env1: map<Id, Word>, mem1: Memory, envX: map<Id, Word>, memX: Memory)
    requires ValidLoop(code, lp, base) && TestMeans(m, ar, lp) && WhileForm(m, ar, code, lp) && PhisSet(lp, env)
    requires Runs(m, code, Body(code, lp), env, mem, env1, mem1) && LatchesReady(m, lp, env1)
    requires forall p | p in lp.phis :: p in lp.latch
    requires lp.iv in env && ar.holds(env[lp.iv], Bound(m, lp, env))
    requires Rounds(m, code, lp, n, NextPhis(m, lp, env1), mem1, envX, memX)
    ensures Rounds(m, code, lp, n + 1, env, mem, envX, memX)
  {
    hide *;
    BodyParts(code, lp, base);
    var envh, memh := RunsSplit(m, code, HeaderOps(code, lp), LatchOps(code, lp), env, mem, env1, mem1);
    HeaderTest(m, ar, code, lp, base, env, mem, envh, memh);
    RoundsGoOn(m, code, lp, n, env, mem, envh, memh, env1, mem1, envX, memX);
  }

  lemma RoundsGoOn(m: Machine, code: map<Id, Instr>, lp: Loop, n: nat, env: map<Id, Word>, mem: Memory,
                   envh: map<Id, Word>, memh: Memory, env1: map<Id, Word>, mem1: Memory, envX: map<Id, Word>,
                   memX: Memory)
    requires Runs(m, code, HeaderOps(code, lp), env, mem, envh, memh) && lp.cond in envh && envh[lp.cond].bits != 0
    requires Runs(m, code, LatchOps(code, lp), envh, memh, env1, mem1) && LatchesReady(m, lp, env1)
    requires forall p | p in lp.phis :: p in lp.latch
    requires Rounds(m, code, lp, n, NextPhis(m, lp, env1), mem1, envX, memX)
    ensures Rounds(m, code, lp, n + 1, env, mem, envX, memX)
  {
    hide Runs, HeaderOps, LatchOps, NextPhis;
    assert Round(m, code, lp, n + 1, envh, memh, envX, memX);
  }

  /** The failing test, made. */
  lemma LastMade(m: Machine, ar: Arith, code: map<Id, Instr>, lp: Loop, base: Id, env: map<Id, Word>, mem: Memory)
    returns (envX: map<Id, Word>)
    requires ValidLoop(code, lp, base) && TestMeans(m, ar, lp) && WhileForm(m, ar, code, lp) && PhisSet(lp, env)
    requires HeaderTotal(m, code, lp) && OutsideReady(m, code, lp, env)
    requires lp.iv in env && !ar.holds(env[lp.iv], Bound(m, lp, env))
    ensures Rounds(m, code, lp, 0, env, mem, envX, mem)
  {
    hide *;
    var memX;
    envX, memX := HeaderCanRun(m, code, lp, base, 0, env, mem);
    assert HeaderOps(code, lp)[0..] == HeaderOps(code, lp);
    HeaderTest(m, ar, code, lp, base, env, mem, envX, memX);
    RoundsEnd(m, code, lp, env, mem, envX, memX);
  }

  lemma RoundsEnd(m: Machine, code: map<Id, Instr>, lp: Loop, env: map<Id, Word>, mem: Memory, envX: map<Id, Word>,
                  memX: Memory)
    requires Runs(m, code, HeaderOps(code, lp), env, mem, envX, memX) && lp.cond in envX && envX[lp.cond].bits == 0
    ensures Rounds(m, code, lp, 0, env, mem, envX, memX)
  {
    hide Runs, HeaderOps;
  }

  lemma BoundReady(m: Machine, code: map<Id, Instr>, lp: Loop, env: map<Id, Word>)
    requires OutsideReady(m, code, lp, env)
    ensures IR.Ready(lp.bound, env, m.params)
  {
  }

  /** The induction variable and the bound after a body. */
  lemma AfterBody(m: Machine, ar: Arith, code: map<Id, Instr>, lp: Loop, base: Id, env: map<Id, Word>, mem: Memory,
                  env1: map<Id, Word>, mem1: Memory)
    requires ValidLoop(code, lp, base) && WhileForm(m, ar, code, lp) && PhisSet(lp, env)
    requires Runs(m, code, Body(code, lp), env, mem, env1, mem1) && forall p | p in lp.phis :: p in lp.latch
    ensures lp.iv in env && lp.iv in NextPhis(m, lp, env1) && NextPhis(m, lp, env1)[lp.iv] == ar.next(env[lp.iv])
    ensures Bound(m, lp, NextPhis(m, lp, env1)) == Bound(m, lp, env)
  {
    hide *;
    ValidLatches(code, lp, base);
    LatchStep(m, ar, code, lp, base, env, mem, env1, mem1);
    NextPhisAre(m, lp, env1);
    if lp.bound.Inst? { OutsideBound(code, lp, base); }
    BoundKept(m, lp, env, NextPhis(m, lp, env1));
  }

  /** The word the induction variable has after j steps. */
  ghost function Stepped(ar: Arith, a: Word, j: nat): Word
    decreases j
  {
    if j == 0 then a else Stepped(ar, ar.next(a), j - 1)
  }

  /** The test does not hold one step further on without holding before. */
  ghost predicate NoReentryAt(ar: Arith, a: Word, b: Word, j: nat) {
    ar.holds(Stepped(ar, a, j + 1), b) ==> ar.holds(Stepped(ar, a, j), b)
  }

  ghost predicate NoReentry(ar: Arith, a: Word, b: Word, k: nat) {
    forall j: nat | j <= k :: NoReentryAt(ar, a, b, 2 * j)
  }

  lemma NoReentryNow(ar: Arith, a: Word, b: Word, k: nat)
    requires NoReentry(ar, a, b, k)
    ensures ar.holds(ar.next(a), b) ==> ar.holds(a, b)
    ensures k > 0 ==> NoReentry(ar, ar.next(ar.next(a)), b, k - 1)
  {
    assert NoReentryAt(ar, a, b, 2 * 0);
    assert Stepped(ar, a, 1) == Stepped(ar, ar.next(a), 0);
    if k > 0 {
      forall j: nat | j <= k - 1
        ensures NoReentryAt(ar, ar.next(ar.next(a)), b, 2 * j)
      {
        assert NoReentryAt(ar, a, b, 2 * (j + 1));
        assert Stepped(ar, a, 2 * j + 2) == Stepped(ar, ar.next(a), 2 * j + 1);
        assert Stepped(ar, a, 2 * j + 3) == Stepped(ar, ar.next(a), 2 * j + 2);
      }
    }
  }

  /** The epilogue's body, done by the loop. */
  lemma EpilogueLeads(m: Machine, ar: Arith, code: map<Id, Instr>, lp: Loop, u: Unrolled, base: Id, block: BlockId,
                      once: bool,
                      env: map<Id, Word>, mem: Memory, env2: map<Id, Word>, envY: map<Id, Word>, memY: Memory)
    returns (n: nat, envX: map<Id, Word>)
    requires Setting(m, ar, code, lp, u, base, block) && HeaderTotal(m, code, lp) && OutsideReady(m, code, lp, env)
    requires forall p | p in lp.phis :: p in Insts(u.uPhi)
    requires Matched(m, code, lp, u.uPhi, base, env, env2) && Pairs(m, code, lp, u, 0, once, env2, mem, envY, memY)
    ensures n == (if once then 1 else 0) && Rounds(m, code, lp, n, env, mem, envX, memY)
    ensures FinalPhis(m, code, lp, u, once, envX, envY)
  {
    hide *;
    SettingParts(m, ar, code, lp, u, base, block);
    ValidLatches(code, lp, base);
    BoundReady(m, code, lp, env);
    MatchedParts(m, code, lp, u.uPhi, base, env, env2);
    var envt, memt, envA, memA, envB, memB := PairsParts(m, code, lp, u, 0, once, env2, mem, envY, memY);
    DoubleTested(m, ar, code, lp, u, base, block, env, env2, mem, envt, memt);
    EpiloguePhis(m, ar, code, lp, u, base, block, env, envt);
    var envE := AssignAll(m.params, lp.phis, u.epiPhi, Insts(u.uPhi), envt);
    var envE', memE := EpilogueParts(m, code, lp, u, once, envt, memt, envY, memY);
    EpilogueTested(m, ar, code, lp, u, base, block, env, envE, memt, envE', memE);
    UnrollingBodies(code, lp, u, base, block);
    if once {
      n := 1;
      EpiBelow(code, lp, u, base, block);
      MatchedParts(m, code, lp, u.epiPhi, base, env, envE');
      var env1 := BodyLeads(m, code, u.code, lp, Insts(u.epiPhi), base, u.firstEpi, block, env, mem, envE', envY, memY);
      OutsideAfter(m, code, lp, base, env, mem, env1, memY);
      AfterBody(m, ar, code, lp, base, env, mem, env1, memY);
      envX := LastMade(m, ar, code, lp, base, NextPhis(m, lp, env1), memY);
      RoundMade(m, ar, code, lp, base, 0, env, mem, env1, memY, envX, memY);
      LastRound(m, ar, code, lp, base, NextPhis(m, lp, env1), memY, envX, memY);
      NextPhisAre(m, lp, env1);
      forall p | p in lp.phis && LatchInLoop(code, lp, p)
        ensures p in envX && FinalPhi(u, true, p).Some? && IR.Ready(FinalPhi(u, true, p).value, envY, m.params)
        ensures Fetch(FinalPhi(u, true, p).value, envY, m.params) == envX[p]
      {
        LatchFetched(m, code, lp, MapAfter(PhiMap(lp.phis, Insts(u.epiPhi)), Body(code, lp), u.firstEpi), base,
                     u.firstEpi + |Body(code, lp)|, env1, envY, p);
      }
      FinalPhisIf(m, code, lp, u, true, envX, envY);
    } else {
      n := 0;
      envX := LastMade(m, ar, code, lp, base, env, mem);
      LastRound(m, ar, code, lp, base, env, mem, envX, mem);
      forall p | p in lp.phis
        ensures p in envX && FinalPhi(u, false, p).Some? && IR.Ready(FinalPhi(u, false, p).value, envY, m.params)
        ensures Fetch(FinalPhi(u, false, p).value, envY, m.params) == envX[p]
      {
        EpiHeaderPhi(m, code, lp, u, base, env, envY, p);
      }
      FinalPhisIf(m, code, lp, u, false, envX, envY);
    }
  }

  /** A pair of bodies, done by the loop in two rounds. */
  lemma PairLeads(m: Machine, ar: Arith, code: map<Id, Instr>, lp: Loop, u: Unrolled, base: Id, block: BlockId,
                  env: map<Id, Word>, mem: Memory, envt: map<Id, Word>, envA: map<Id, Word>, mem1: Memory,
                  envB: map<Id, Word>, mem3: Memory)
    returns (env1: map<Id, Word>, env3: map<Id, Word>)
    requires Setting(m, ar, code, lp, u, base, block) && OutsideReady(m, code, lp, env)
    requires forall p | p in lp.phis :: p in Insts(u.uPhi) && p in u.uPhi && p in u.back && p in lp.latch
    requires Matched(m, code, lp, u.uPhi, base, env, envt)
    requires Runs(m, u.code, Ids(u.first0, |Body(code, lp)|), envt, mem, envA, mem1)
    requires Runs(m, u.code, Ids(u.first1, |Body(code, lp)|), envA, mem1, envB, mem3)
    ensures Runs(m, code, Body(code, lp), env, mem, env1, mem1) && LatchesReady(m, lp, env1)
    ensures OutsideReady(m, code, lp, NextPhis(m, lp, env1)) && PhisSet(lp, NextPhis(m, lp, env1))
    ensures Runs(m, code, Body(code, lp), NextPhis(m, lp, env1), mem1, env3, mem3) && LatchesReady(m, lp, env3)
    ensures OutsideReady(m, code, lp, NextPhis(m, lp, env3))
    ensures AllAssignable(m.params, lp.phis, u.uPhi, u.back, envB)
    ensures Matched(m, code, lp, u.uPhi, base, NextPhis(m, lp, env3),
                    AssignAll(m.params, lp.phis, u.uPhi, u.back, envB))
  {
    hide *;
    PairSetup(m, ar, code, lp, u, base, block);
    MatchedParts(m, code, lp, u.uPhi, base, env, envt);
    env1 := BodyLeads(m, code, u.code, lp, Insts(u.uPhi), base, u.first0, block, env, mem, envt, envA, mem1);
    OutsideAfter(m, code, lp, base, env, mem, env1, mem1);
    FirstLatchesIs(code, lp, u);
    NextIteration(m, base, code, lp, Insts(u.uPhi), u.first0, u.first1, env1, envA);
    LatchMapBelow(code, lp, MapAfter(PhiMap(lp.phis, Insts(u.uPhi)), Body(code, lp), u.first0), base, u.first1);
    env3 := BodyLeads(m, code, u.code, lp, FirstLatches(code, lp, u), base, u.first1, block,
                      NextPhis(m, lp, env1), mem1, envA, envB, mem3);
    OutsideAfter(m, code, lp, base, NextPhis(m, lp, env1), mem1, env3, mem3);
    BackEdge(m, ar, code, lp, u, base, block, env3, envB);
  }

  /** The unrolled loop does nothing that the loop does not do. */
  lemma {:induction false} LoopFollows(m: Machine, ar: Arith, code: map<Id, Instr>, lp: Loop, u: Unrolled, base: Id,
                                       block: BlockId, k: nat, once: bool, env: map<Id, Word>, mem: Memory,
                                       env2: map<Id, Word>, envY: map<Id, Word>, memY: Memory)
    returns (n: nat, envX: map<Id, Word>)
    requires Setting(m, ar, code, lp, u, base, block) && HeaderTotal(m, code, lp) && OutsideReady(m, code, lp, env)
    requires forall p | p in lp.phis :: p in Insts(u.uPhi)
    requires Matched(m, code, lp, u.uPhi, base, env, env2) && Pairs(m, code, lp, u, k, once, env2, mem, envY, memY)
    requires lp.iv in env && NoReentry(ar, env[lp.iv], Bound(m, lp, env), k)
    ensures n == 2 * k + (if once then 1 else 0)
    ensures Rounds(m, code, lp, n, env, mem, envX, memY) && FinalPhis(m, code, lp, u, once, envX, envY)
    decreases k
  {
    hide *;
    if k == 0 {
      n, envX := EpilogueLeads(m, ar, code, lp, u, base, block, once, env, mem, env2, envY, memY);
    } else {
      SettingParts(m, ar, code, lp, u, base, block);
      ValidLatches(code, lp, base);
      BoundReady(m, code, lp, env);
      MatchedParts(m, code, lp, u.uPhi, base, env, env2);
      NoReentryNow(ar, env[lp.iv], Bound(m, lp, env), k);
      var envt, memt, envA, mem1, envB, mem3 := PairsParts(m, code, lp, u, k, once, env2, mem, envY, memY);
      DoubleTested(m, ar, code, lp, u, base, block, env, env2, mem, envt, memt);
      var env1, env3 := PairLeads(m, ar, code, lp, u, base, block, env, mem, envt, envA, mem1, envB, mem3);
      AfterBody(m, ar, code, lp, base, env, mem, env1, mem1);
      AfterBody(m, ar, code, lp, base, NextPhis(m, lp, env1), mem1, env3, mem3);
      n, envX := LoopFollows(m, ar, code, lp, u, base, block, k - 1, once, NextPhis(m, lp, env3), mem3,
                             AssignAll(m.params, lp.phis, u.uPhi, u.back, envB), envY, memY);
      RoundMade(m, ar, code, lp, base, n, NextPhis(m, lp, env1), mem1, env3, mem3, envX, memY);
      RoundMade(m, ar, code, lp, base, n + 1, env, mem, env1, mem1, envX, memY);
      n := n + 2;
    }
  }

  // ----- Before the loop

  /** The loop's phis set from the preheader. */
  ghost function Entered(m: Machine, lp: Loop, env: map<Id, Word>): map<Id, Word>
    requires forall p | p in lp.phis :: p in lp.init
  {
    env + map p | p in lp.phis :: Fetch(lp.init[p], env, m.params)
  }

  /** Entering the loop and entering the unrolled loop from one state, the two stand alike. */
  lemma EntersAlike(m: Machine, ar: Arith, code: map<Id, Instr>, lp: Loop, u: Unrolled, base: Id, block: BlockId,
                    env: map<Id, Word>)
    requires Setting(m, ar, code, lp, u, base, block)
    requires forall p | p in lp.phis :: p in lp.init && IR.Ready(lp.init[p], env, m.params)
    ensures forall p | p in lp.phis :: p in u.uPhi && p in Insts(u.uPhi)
    ensures Matched(m, code, lp, u.uPhi, base, Entered(m, lp, env), AssignAll(m.params, lp.phis, u.uPhi, lp.init, env))
  {
    hide *;
    SettingParts(m, ar, code, lp, u, base, block);
    ValidLatches(code, lp, base);
    forall x: Id | x < base && x !in Body(code, lp)
      ensures SameValue(m.params, Entered(m, lp, env), x, env, Mapped(PhiMap(lp.phis, lp.init), Inst(x)))
    {
      EnteredAt(m, lp, env, x);
    }
    CorrespondsIf(m.params, base, Body(code, lp), PhiMap(lp.phis, lp.init), Entered(m, lp, env), env);
    EnteredPhis(m, lp, env);
    Renamed(m.params, base, Body(code, lp), lp.phis, lp.init, u.uPhi, base, u.addStep, Entered(m, lp, env), env);
    AsMatched(m, code, lp, u.uPhi, base, Entered(m, lp, env), AssignAll(m.params, lp.phis, u.uPhi, lp.init, env));
  }

  lemma EnteredAt(m: Machine, lp: Loop, env: map<Id, Word>, x: Id)
    requires forall p | p in lp.phis :: p in lp.init && IR.Ready(lp.init[p], env, m.params)
    ensures SameValue(m.params, Entered(m, lp, env), x, env, Mapped(PhiMap(lp.phis, lp.init), Inst(x)))
  {
    MappedPhi(lp.phis, lp.init, x);
    hide PhiMap, Mapped;
    if x !in lp.phis { SameInst(m.params, Entered(m, lp, env), x, env, x); }
  }

  lemma EnteredPhis(m: Machine, lp: Loop, env: map<Id, Word>)
    requires forall p | p in lp.phis :: p in lp.init
    ensures PhisSet(lp, Entered(m, lp, env)) && forall p | p in lp.phis :: p in Entered(m, lp, env)
  {
    hide Fetch;
  }

  // ----- How often the two go round

  ghost predicate LoopTrips(ar: Arith, a: Word, b: Word, n: nat) {
    (forall j: nat | j < n :: ar.holds(Stepped(ar, a, j), b)) && !ar.holds(Stepped(ar, a, n), b)
  }

  ghost predicate PairHolds(ar: Arith, a: Word, b: Word, j: nat) {
    ar.holds(Stepped(ar, a, 2 * j + 1), b)
  }

  ghost predicate UnrolledTrips(ar: Arith, a: Word, b: Word, k: nat, once: bool) {
    && (forall j: nat | j < k :: PairHolds(ar, a, b, j)) && !PairHolds(ar, a, b, k)
    && (once <==> ar.holds(Stepped(ar, a, 2 * k), b))
  }

  /** The same for a loop that leaves where its test holds, as by Jnz to the exit. */
  ghost predicate LeavingTrips(ar: Arith, a: Word, b: Word, n: nat) {
    (forall j: nat | j < n :: !ar.holds(Stepped(ar, a, j), b)) && ar.holds(Stepped(ar, a, n), b)
  }

  /**
   Its unrolling goes on where the test holds, and so never makes as many rounds, whatever the counter:
   none, if the loop makes two or more.
   */
  lemma LeavesOnTrue(ar: Arith, a: Word, b: Word, n: nat, k: nat, once: bool)
    requires LeavingTrips(ar, a, b, n) && UnrolledTrips(ar, a, b, k, once)
    ensures 2 * k + (if once then 1 else 0) != n
    ensures n >= 2 ==> k == 0 && !once
  {
    hide Stepped;
    if k == 0 {
      assert once <==> ar.holds(Stepped(ar, a, 2 * 0), b);
      assert !PairHolds(ar, a, b, 0);
    } else {
      assert PairHolds(ar, a, b, 0);
    }
  }

  lemma SteppedOnce(ar: Arith, a: Word, j: nat)
    ensures Stepped(ar, a, j + 1) == Stepped(ar, ar.next(a), j)
  {
  }

  lemma {:induction false} SteppedNext(ar: Arith, a: Word, j: nat)
    ensures Stepped(ar, a, j + 1) == ar.next(Stepped(ar, a, j))
    decreases j
  {
    SteppedOnce(ar, a, j);
    if j > 0 { SteppedNext(ar, ar.next(a), j - 1); }
  }

  lemma TripsMore(ar: Arith, a: Word, b: Word, n: nat)
    requires ar.holds(a, b) && LoopTrips(ar, ar.next(a), b, n)
    ensures LoopTrips(ar, a, b, n + 1)
  {
    forall j: nat | j < n + 1
      ensures ar.holds(Stepped(ar, a, j), b)
    {
      if j > 0 { SteppedOnce(ar, a, j - 1); }
    }
    SteppedOnce(ar, a, n);
  }

  lemma PairTripsMore(ar: Arith, a: Word, b: Word, k: nat, once: bool)
    requires ar.holds(ar.next(a), b) && UnrolledTrips(ar, ar.next(ar.next(a)), b, k, once)
    ensures UnrolledTrips(ar, a, b, k + 1, once)
  {
    forall j: nat
      ensures Stepped(ar, a, j + 2) == Stepped(ar, ar.next(ar.next(a)), j)
    {
      SteppedOnce(ar, a, j + 1);
      SteppedOnce(ar, ar.next(a), j);
    }
    SteppedOnce(ar, a, 0);
    forall j: nat | j <= k + 1
      ensures PairHolds(ar, a, b, j) <==> if j == 0 then true else PairHolds(ar, ar.next(ar.next(a)), b, j - 1)
    {
      if j > 0 { assert 2 * j + 1 == 2 * (j - 1) + 1 + 2; }
    }
    assert 2 * (k + 1) == 2 * k + 2;
  }

  /** The trip counts are equal exactly when, after an even count, the test would not hold again. */
  lemma TripsAgree(ar: Arith, a: Word, b: Word, n: nat, k: nat, once: bool)
    requires LoopTrips(ar, a, b, n) && UnrolledTrips(ar, a, b, k, once)
    ensures 2 * k + (if once then 1 else 0) == n ==> (n % 2 == 0 ==> !ar.holds(Stepped(ar, a, n + 1), b))
  {
    if 2 * k + (if once then 1 else 0) == n && n % 2 == 0 {
      assert !PairHolds(ar, a, b, k);
    }
  }

  lemma {:induction false} RoundsTrips(m: Machine, ar: Arith, code: map<Id, Instr>, lp: Loop, base: Id, n: nat,
                                       env: map<Id, Word>, mem: Memory, envX: map<Id, Word>, memX: Memory)
    requires ValidLoop(code, lp, base) && TestMeans(m, ar, lp) && WhileForm(m, ar, code, lp) && PhisSet(lp, env)
    requires Rounds(m, code, lp, n, env, mem, envX, memX)
    ensures lp.iv in env && LoopTrips(ar, env[lp.iv], Bound(m, lp, env), n)
    ensures lp.iv in envX && envX[lp.iv] == Stepped(ar, env[lp.iv], n) && Bound(m, lp, envX) == Bound(m, lp, env)
    decreases n
  {
    hide *;
    ValidLatches(code, lp, base);
    if n == 0 {
      LastRound(m, ar, code, lp, base, env, mem, envX, memX);
      NoTrips(ar, env[lp.iv], Bound(m, lp, env));
    } else {
      var env1, mem1 := OneRound(m, ar, code, lp, base, n, env, mem, envX, memX);
      RoundsTrips(m, ar, code, lp, base, n - 1, NextPhis(m, lp, env1), mem1, envX, memX);
      TripsMore(ar, env[lp.iv], Bound(m, lp, env), n - 1);
      SteppedOnce(ar, env[lp.iv], n - 1);
    }
  }

  lemma NoTrips(ar: Arith, a: Word, b: Word)
    requires !ar.holds(a, b)
    ensures LoopTrips(ar, a, b, 0) && Stepped(ar, a, 0) == a
  {
  }

  lemma NoPairTrips(ar: Arith, a: Word, b: Word, once: bool)
    requires !ar.holds(ar.next(a), b) && (once <==> ar.holds(a, b))
    ensures UnrolledTrips(ar, a, b, 0, once)
  {
    SteppedOnce(ar, a, 0);
  }

  lemma {:induction false} PairsTrips(m: Machine, ar: Arith, code: map<Id, Instr>, lp: Loop, u: Unrolled, base: Id,
                                      block: BlockId,
                                      k: nat, once: bool, env: map<Id, Word>, mem: Memory, env2: map<Id, Word>,
                                      envY: map<Id, Word>, memY: Memory)
    requires Setting(m, ar, code, lp, u, base, block) && OutsideReady(m, code, lp, env)
    requires forall p | p in lp.phis :: p in Insts(u.uPhi)
    requires Matched(m, code, lp, u.uPhi, base, env, env2) && Pairs(m, code, lp, u, k, once, env2, mem, envY, memY)
    ensures lp.iv in env && UnrolledTrips(ar, env[lp.iv], Bound(m, lp, env), k, once)
    decreases k
  {
    hide *;
    SettingParts(m, ar, code, lp, u, base, block);
    ValidLatches(code, lp, base);
    BoundReady(m, code, lp, env);
    MatchedParts(m, code, lp, u.uPhi, base, env, env2);
    var envt, memt, envA, mem1, envB, mem3 := PairsParts(m, code, lp, u, k, once, env2, mem, envY, memY);
    DoubleTested(m, ar, code, lp, u, base, block, env, env2, mem, envt, memt);
    if k == 0 {
      EpiloguePhis(m, ar, code, lp, u, base, block, env, envt);
      var envE := AssignAll(m.params, lp.phis, u.epiPhi, Insts(u.uPhi), envt);
      var envE', memE := EpilogueParts(m, code, lp, u, once, envt, memt, envY, memY);
      EpilogueTested(m, ar, code, lp, u, base, block, env, envE, memt, envE', memE);
      NoPairTrips(ar, env[lp.iv], Bound(m, lp, env), once);
    } else {
      var env1, env3 := PairLeads(m, ar, code, lp, u, base, block, env, mem, envt, envA, mem1, envB, mem3);
      AfterBody(m, ar, code, lp, base, env, mem, env1, mem1);
      AfterBody(m, ar, code, lp, base, NextPhis(m, lp, env1), mem1, env3, mem3);
      PairsTrips(m, ar, code, lp, u, base, block, k - 1, once, NextPhis(m, lp, env3), mem3,
                 AssignAll(m.params, lp.phis, u.uPhi, u.back, envB), envY, memY);
      PairTripsMore(ar, env[lp.iv], Bound(m, lp, env), k - 1, once);
    }
  }

  /** The unrolled loop goes round as often. */
  ghost predicate SameRounds(m: Machine, code: map<Id, Instr>, lp: Loop, u: Unrolled, n: nat, env2: map<Id, Word>,
                             mem: Memory)
  {
    exists k: nat, once: bool, envY: map<Id, Word>, memY: Memory ::
      2 * k + (if once then 1 else 0) == n && Pairs(m, code, lp, u, k, once, env2, mem, envY, memY)
  }

  lemma SameRoundsIf(m: Machine, code: map<Id, Instr>, lp: Loop, u: Unrolled, n: nat, env2: map<Id, Word>, mem: Memory,
                     k: nat, once: bool, envY: map<Id, Word>, memY: Memory)
    requires 2 * k + (if once then 1 else 0) == n && Pairs(m, code, lp, u, k, once, env2, mem, envY, memY)
    ensures SameRounds(m, code, lp, u, n, env2, mem)
  {
    hide Pairs;
  }

  lemma SameRoundsGive(m: Machine, code: map<Id, Instr>, lp: Loop, u: Unrolled, n: nat, env2: map<Id, Word>,
                       mem: Memory)
    returns (k: nat, once: bool, envY: map<Id, Word>, memY: Memory)
    requires SameRounds(m, code, lp, u, n, env2, mem)
    ensures 2 * k + (if once then 1 else 0) == n && Pairs(m, code, lp, u, k, once, env2, mem, envY, memY)
  {
    hide Pairs;
    k, once, envY, memY :|
      2 * k + (if once then 1 else 0) == n && Pairs(m, code, lp, u, k, once, env2, mem, envY, memY);
  }

  /**
   The unrolled loop can go round as often as the loop did exactly when the failed test, after
   an even number of rounds, would not hold again one step further on.
   */
  lemma SameRoundsExactly(m: Machine, ar: Arith, code: map<Id, Instr>, lp: Loop, u: Unrolled, base: Id, block: BlockId,
                          n: nat, env: map<Id, Word>, mem: Memory, envX: map<Id, Word>, memX: Memory,
                          env2: map<Id, Word>)
    requires Setting(m, ar, code, lp, u, base, block) && OutsideReady(m, code, lp, env)
    requires forall p | p in lp.phis :: p in Insts(u.uPhi)
    requires Matched(m, code, lp, u.uPhi, base, env, env2) && Rounds(m, code, lp, n, env, mem, envX, memX)
    ensures lp.iv in envX
    ensures SameRounds(m, code, lp, u, n, env2, mem) <==>
              (n % 2 == 0 ==> !ar.holds(ar.next(envX[lp.iv]), Bound(m, lp, envX)))
  {
    hide *;
    SettingParts(m, ar, code, lp, u, base, block);
    MatchedParts(m, code, lp, u.uPhi, base, env, env2);
    RoundsTrips(m, ar, code, lp, base, n, env, mem, envX, memX);
    SteppedNext(ar, env[lp.iv], n);
    if SameRounds(m, code, lp, u, n, env2, mem) {
      var k, once, envY, memY := SameRoundsGive(m, code, lp, u, n, env2, mem);
      PairsTrips(m, ar, code, lp, u, base, block, k, once, env, mem, env2, envY, memY);
      TripsAgree(ar, env[lp.iv], Bound(m, lp, env), n, k, once);
    }
    if n % 2 == 0 ==> !ar.holds(ar.next(envX[lp.iv]), Bound(m, lp, envX)) {
      var k, once, envY := UnrolledFollows(m, ar, code, lp, u, base, block, n, env, mem, envX, memX, env2);
      SameRoundsIf(m, code, lp, u, n, env2, mem, k, once, envY, memX);
    }
  }

  // ----- When the test cannot hold again

  /** What a comparison says of integers, signed or unsigned as it has them. */
  predicate Compares(op: Opcode, x: int, y: int) {
    if op == Cslt || op == Cult then x < y
    else if op == Csle || op == Cule then x <= y
    else if op == Csgt || op == Cugt then x > y
    else x >= y
  }

  predicate IsUpward(op: Opcode) {
    op == Cslt || op == Cult || op == Csle || op == Cule
  }

  /** Where the step does not wrap: exactly when it goes the way the comparison bounds. */
  lemma StepAgrees(op: Opcode, step: int)
    ensures (forall i: int, bound: int :: Compares(op, i + step, bound) ==> Compares(op, i, bound))
       <==> (if IsUpward(op) then step >= 0 else step <= 0)
  {
    if IsUpward(op) && step < 0 {
      assert Compares(op, 1 + step, if op == Cslt || op == Cult then 1 else 0);
      assert !Compares(op, 1, if op == Cslt || op == Cult then 1 else 0);
    }
    if !IsUpward(op) && step > 0 {
      assert Compares(op, -1 + step, if op == Csgt || op == Cugt then -1 else 0);
      assert !Compares(op, -1, if op == Csgt || op == Cugt then -1 else 0);
    }
  }
}
