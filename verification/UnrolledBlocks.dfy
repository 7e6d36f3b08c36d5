/**
 The unrolled loop as blocks of a function: what its runs are, step by step.
 */
module UnrolledBlocks {
  import opened IR
  import opened Reordering
  import opened BlockReordering
  import opened BlockRuns
  import opened ValueCloner
  import opened LoopUnroll
  import UnrollEquivalence

  /** The new blocks and their parts; the last one is where both ways out of the loop meet. */
  datatype Blocks = Blocks(
    uHeader: BlockId, body0: BlockId, body1: BlockId, epiHeader: BlockId, epiBody: BlockId, finalExit: BlockId,
    us: Shape, s0: Shape, s1: Shape, es: Shape, bs: Shape)

  /** The new phis, in the order of the old ones. */
  function PhiIds(phis: seq<Id>, dst: map<Id, Id>): (ids: seq<Id>)
    requires forall p | p in phis :: p in dst
    ensures |ids| == |phis| && forall i | 0 <= i < |phis| :: ids[i] == dst[phis[i]]
  {
    seq(|phis|, i requires 0 <= i < |phis| => dst[phis[i]])
  }

  ghost predicate Stands(g: Function, b: BlockId, sh: Shape, phis: seq<Id>, body: seq<Id>) {
    && b in g.blocks && g.blocks[b] == Assemble(sh) && ValidShape(g.code, sh)
    && sh.phis == phis && sh.body == body
  }

  /** Along the edge from the block the new phis receive these values. */
  ghost predicate ReceiveAs(code: map<Id, Instr>, phis: seq<Id>, dst: map<Id, Id>, pred: BlockId,
                            vals: map<Id, Value>)
  {
    forall p | p in phis ::
      && p in dst && p in vals && dst[p] in code && code[dst[p]].op == Phi
      && IncomingFrom(code[dst[p]].operands, pred, 0) == Some(vals[p])
  }

  /** The same instructions, each in whatever block. */
  ghost predicate SameCode(a: map<Id, Instr>, b: map<Id, Instr>, list: seq<Id>) {
    forall id | id in list :: id in a && id in b && b[id] == a[id].(parent := b[id].parent)
  }

  /** The blocks that unrolling makes stand in the function, joined by their jumps and branches. */
  ghost predicate InUnrolled(g: Function, code: map<Id, Instr>, lp: Loop, u: Unrolled, bk: Blocks) {
    && lp.phis != [] && (forall p | p in lp.phis :: p in u.uPhi && p in u.epiPhi)
    && bk.body0 != bk.epiHeader && bk.epiBody != bk.finalExit
    && Stands(g, bk.uHeader, bk.us, PhiIds(lp.phis, u.uPhi), [u.addStep, u.cond2x])
    && Stands(g, bk.body0, bk.s0, [], Ids(u.first0, |Body(code, lp)|))
    && Stands(g, bk.body1, bk.s1, [], Ids(u.first1, |Body(code, lp)|))
    && Stands(g, bk.epiHeader, bk.es, PhiIds(lp.phis, u.epiPhi), [u.condEpi])
    && Stands(g, bk.epiBody, bk.bs, [], Ids(u.firstEpi, |Body(code, lp)|))
    && BranchesTo(g, bk.us, u.cond2x, bk.body0, bk.epiHeader)
    && JumpsTo(g, bk.s0, bk.body1) && JumpsTo(g, bk.s1, bk.uHeader)
    && BranchesTo(g, bk.es, u.condEpi, bk.epiBody, bk.finalExit) && JumpsTo(g, bk.bs, bk.finalExit)
    && ReceiveAs(g.code, lp.phis, u.uPhi, bk.body1, u.back)
    && ReceiveAs(g.code, lp.phis, u.epiPhi, bk.uHeader, Insts(u.uPhi))
    && SameCode(u.code, g.code, bk.us.body) && SameCode(u.code, g.code, bk.s0.body)
    && SameCode(u.code, g.code, bk.s1.body) && SameCode(u.code, g.code, bk.es.body)
    && SameCode(u.code, g.code, bk.bs.body)
    && Distinct(lp.phis) && Apart(lp.phis, u.uPhi) && Apart(lp.phis, u.epiPhi)
  }

  /** No two phis have the same replacement. */
  ghost predicate Apart(phis: seq<Id>, dst: map<Id, Id>) {
    forall p, q | p in phis && q in phis && p in dst && q in dst && p != q :: dst[p] != dst[q]
  }

  // ----- The code of the blocks

  lemma ParentIsNothing(m: Machine, instr: Instr, b: BlockId, env: map<Id, Word>, mem: Memory, v: Word, mem': Memory)
    requires OpRuns(m, instr, env, mem, v, mem')
    ensures OpRuns(m, instr.(parent := b), env, mem, v, mem')
  {
  }

  lemma {:induction false} RunsThere(m: Machine, a: map<Id, Instr>, b: map<Id, Instr>, list: seq<Id>,
                                     env: map<Id, Word>, mem: Memory, env': map<Id, Word>, mem': Memory)
    requires SameCode(a, b, list) && Runs(m, a, list, env, mem, env', mem')
    ensures Runs(m, b, list, env, mem, env', mem')
    decreases |list|
  {
    if list != [] {
      var id, rest := list[0], list[1..];
      assert list == [id] + rest && id in list;
      var v, mid := FirstOf(m, a, id, rest, env, mem, env', mem');
      ParentIsNothing(m, a[id], b[id].parent, env, mem, v, mid);
      hide Runs, OpRuns;
      assert forall x | x in rest :: x in list;
      RunsThere(m, a, b, rest, env[id := v], mid, env', mem');
      RunsOne(m, b, id, rest, env, mem, v, mid, env', mem');
    }
  }

  lemma SameRunsThere(m: Machine, a: map<Id, Instr>, b: map<Id, Instr>, list: seq<Id>, env: map<Id, Word>, mem: Memory,
                      env': map<Id, Word>, mem': Memory)
    requires SameCode(a, b, list)
    ensures Runs(m, a, list, env, mem, env', mem') <==> Runs(m, b, list, env, mem, env', mem')
  {
    hide Runs;
    assert SameCode(b, a, list);
    if Runs(m, a, list, env, mem, env', mem') { RunsThere(m, a, b, list, env, mem, env', mem'); }
    if Runs(m, b, list, env, mem, env', mem') { RunsThere(m, b, a, list, env, mem, env', mem'); }
  }

  /** What is to run in each of the blocks, in terms of the unrolled code. */
  lemma BlockCode(m: Machine, g: Function, code: map<Id, Instr>, lp: Loop, u: Unrolled, bk: Blocks,
                  env: map<Id, Word>, mem: Memory, env': map<Id, Word>, mem': Memory)
    requires InUnrolled(g, code, lp, u, bk)
    ensures Runs(m, u.code, [u.addStep, u.cond2x], env, mem, env', mem')
       <==> Runs(m, g.code, bk.us.body, env, mem, env', mem')
    ensures Runs(m, u.code, Ids(u.first0, |Body(code, lp)|), env, mem, env', mem')
       <==> Runs(m, g.code, bk.s0.body, env, mem, env', mem')
    ensures Runs(m, u.code, Ids(u.first1, |Body(code, lp)|), env, mem, env', mem')
       <==> Runs(m, g.code, bk.s1.body, env, mem, env', mem')
    ensures Runs(m, u.code, [u.condEpi], env, mem, env', mem') <==> Runs(m, g.code, bk.es.body, env, mem, env', mem')
    ensures Runs(m, u.code, Ids(u.firstEpi, |Body(code, lp)|), env, mem, env', mem')
       <==> Runs(m, g.code, bk.bs.body, env, mem, env', mem')
  {
    hide Runs, SameCode, ValidShape, Assemble, ReceiveAs, BranchesTo, JumpsTo;
    SameRunsThere(m, u.code, g.code, bk.us.body, env, mem, env', mem');
    SameRunsThere(m, u.code, g.code, bk.s0.body, env, mem, env', mem');
    SameRunsThere(m, u.code, g.code, bk.s1.body, env, mem, env', mem');
    SameRunsThere(m, u.code, g.code, bk.es.body, env, mem, env', mem');
    SameRunsThere(m, u.code, g.code, bk.bs.body, env, mem, env', mem');
  }

  // ----- The phis

  /** What each new phi receives. */
  function ById(phis: seq<Id>, dst: map<Id, Id>, vals: map<Id, Value>): map<Id, Value>
    requires forall p | p in phis :: p in dst && p in vals
  {
    if phis == [] then map[]
    else ById(phis[..|phis| - 1], dst, vals)[dst[Last(phis)] := vals[Last(phis)]]
  }

  lemma {:induction false} ByIdAt(phis: seq<Id>, dst: map<Id, Id>, vals: map<Id, Value>)
    requires (forall p | p in phis :: p in dst && p in vals) && Apart(phis, dst)
    ensures forall p | p in phis :: dst[p] in ById(phis, dst, vals) && ById(phis, dst, vals)[dst[p]] == vals[p]
  {
    if phis != [] {
      var front, last := phis[..|phis| - 1], Last(phis);
      assert phis == front + [last];
      ByIdAt(front, dst, vals);
    }
  }

  lemma InPhiIds(phis: seq<Id>, dst: map<Id, Id>, x: Id)
    requires forall p | p in phis :: p in dst
    ensures x in PhiIds(phis, dst) <==> exists p :: p in phis && dst[p] == x
  {
    var ids := PhiIds(phis, dst);
    if x in ids {
      var i :| 0 <= i < |ids| && ids[i] == x;
      assert phis[i] in phis;
    }
    if p :| p in phis && dst[p] == x {
      var i :| 0 <= i < |phis| && phis[i] == p;
      assert ids[i] == x;
    }
  }

  lemma ReceivedById(code: map<Id, Instr>, phis: seq<Id>, dst: map<Id, Id>, pred: BlockId, vals: map<Id, Value>)
    requires ReceiveAs(code, phis, dst, pred, vals) && Apart(phis, dst)
    ensures forall p | p in phis :: p in dst && p in vals
    ensures Receive(code, PhiIds(phis, dst), pred, ById(phis, dst, vals))
  {
    ByIdAt(phis, dst, vals);
    hide IncomingFrom, ById;
    forall q | q in PhiIds(phis, dst)
      ensures exists p :: p in phis && dst[p] == q
    {
      InPhiIds(phis, dst, q);
    }
  }

  /** Setting the new phis by their ids, or by the old ones. */
  lemma AssignedById(m: Machine, phis: seq<Id>, dst: map<Id, Id>, vals: map<Id, Value>, env: map<Id, Word>)
    requires (forall p | p in phis :: p in dst && p in vals) && Apart(phis, dst)
    ensures forall q | q in PhiIds(phis, dst) :: q in ById(phis, dst, vals)
    ensures Assigned(PhiIds(phis, dst), ById(phis, dst, vals), env, m.params)
         == UnrollEquivalence.AssignAll(m.params, phis, dst, vals, env)
    ensures ValuesReady(PhiIds(phis, dst), ById(phis, dst, vals), env, m.params)
       <==> UnrollEquivalence.AllAssignable(m.params, phis, dst, vals, env)
  {
    var ids, byId := PhiIds(phis, dst), ById(phis, dst, vals);
    ByIdAt(phis, dst, vals);
    hide ById, Fetch, IR.Ready, UnrollEquivalence.AssignAll;
    forall x
      ensures x in ids <==> exists p :: p in phis && dst[p] == x
    {
      InPhiIds(phis, dst, x);
    }
    UnrollEquivalence.Assigned(m.params, phis, dst, vals, env);
    var all := UnrollEquivalence.AssignAll(m.params, phis, dst, vals, env);
    var set' := Assigned(ids, byId, env, m.params);
    forall x
      ensures (x in all <==> x in set') && (x in all ==> all[x] == set'[x])
    {
      if x in ids {
        var p :| p in phis && dst[p] == x;
      } else {
        assert UnrollEquivalence.NoTarget(phis, dst, x);
      }
    }
    assert all == set';
  }

  // ----- Runs of the unrolled loop

  /** The blocks entered in n pairs of bodies. */
  function PairTrail(bk: Blocks, n: nat): seq<BlockId> {
    if n == 0 then [] else [bk.body0, bk.body1, bk.uHeader] + PairTrail(bk, n - 1)
  }

  function EndTrail(bk: Blocks, once: bool): seq<BlockId> {
    if once then [bk.epiHeader, bk.epiBody] else [bk.epiHeader]
  }

  /** The new header has been entered, and its phis are set. */
  ghost predicate AtUnrolled(g: Function, bk: Blocks, s: State) {
    s.ret.None? && s.path != [] && Last(s.path) == bk.uHeader && s.pc == |bk.us.phis|
  }

  /** After n pairs and the epilogue, in front of the branch or jump to the exit. */
  function AfterPairs(bk: Blocks, n: nat, once: bool, s: State, env: map<Id, Word>, mem: Memory): State {
    s.(path := s.path + PairTrail(bk, n) + EndTrail(bk, once),
       pc := if once then |bk.bs.phis| + |bk.bs.body| else |bk.es.phis| + |bk.es.body|, env := env, mem := mem)
  }

  /** At the new header once more, its phis set. */
  function NextPair(bk: Blocks, s: State, env: map<Id, Word>, mem: Memory): State {
    s.(path := s.path + [bk.body0, bk.body1, bk.uHeader], pc := |bk.us.phis|, env := env, mem := mem)
  }

  /** At the epilogue's test, its phis set. */
  function AtEpilogue(bk: Blocks, s: State, env: map<Id, Word>, mem: Memory): State {
    s.(path := s.path + [bk.epiHeader], pc := |bk.es.phis|, env := env, mem := mem)
  }

  lemma UnrolledBegun(g: Function, code: map<Id, Instr>, lp: Loop, u: Unrolled, bk: Blocks, s: State)
    requires InUnrolled(g, code, lp, u, bk) && AtUnrolled(g, bk, s)
    ensures Begun(g, bk.us, s) && BranchesTo(g, bk.us, u.cond2x, bk.body0, bk.epiHeader) && bk.body0 != bk.epiHeader
    ensures bk.us.phis != [] && bk.es.phis != []
  {
    hide ValidShape, Assemble, ReceiveAs, SameCode, JumpsTo, BranchesTo;
  }

  lemma BodyBegun(g: Function, code: map<Id, Instr>, lp: Loop, u: Unrolled, bk: Blocks, s: State, env: map<Id, Word>,
                  mem: Memory)
    requires InUnrolled(g, code, lp, u, bk) && s.ret.None?
    ensures Begun(g, bk.s0, EnterState(s, bk.body0, env, mem)) && JumpsTo(g, bk.s0, bk.body1)
    ensures Begun(g, bk.s1, EnterState(s, bk.body1, env, mem)) && JumpsTo(g, bk.s1, bk.uHeader)
    ensures Begun(g, bk.bs, EnterState(s, bk.epiBody, env, mem)) && JumpsTo(g, bk.bs, bk.finalExit)
  {
    hide ValidShape, Assemble, ReceiveAs, SameCode, JumpsTo, BranchesTo;
  }

  lemma EpilogueBegun(g: Function, code: map<Id, Instr>, lp: Loop, u: Unrolled, bk: Blocks, s: State,
                      env: map<Id, Word>, mem: Memory)
    requires InUnrolled(g, code, lp, u, bk) && AtUnrolled(g, bk, s)
    ensures Begun(g, bk.es, AtEpilogue(bk, s, env, mem)) && bk.epiBody != bk.finalExit
    ensures BranchesTo(g, bk.es, u.condEpi, bk.epiBody, bk.finalExit)
  {
    hide ValidShape, Assemble, ReceiveAs, SameCode, JumpsTo, BranchesTo;
  }

  /** Two bodies on, in front of the phis. */
  function TwoOn(bk: Blocks, s: State, env: map<Id, Word>, mem: Memory): State {
    EnterState(EnterState(EnterState(s, bk.body0, env, mem), bk.body1, env, mem), bk.uHeader, env, mem)
  }

  lemma PhisAgain(m: Machine, g: Function, code: map<Id, Instr>, lp: Loop, u: Unrolled, bk: Blocks, s: State,
                  env: map<Id, Word>, mem: Memory, s': State)
    requires InUnrolled(g, code, lp, u, bk) && AtUnrolled(g, bk, s)
    ensures forall p | p in lp.phis :: p in u.uPhi && p in u.back
    ensures Step(m, g, TwoOn(bk, s, env, mem), s') <==>
              && UnrollEquivalence.AllAssignable(m.params, lp.phis, u.uPhi, u.back, env)
              && s' == NextPair(bk, s, UnrollEquivalence.AssignAll(m.params, lp.phis, u.uPhi, u.back, env), mem)
  {
    hide *;
    PhisStand(g, code, lp, u, bk);
    ReceivedById(g.code, lp.phis, u.uPhi, bk.body1, u.back);
    var env' := UnrollEquivalence.AssignAll(m.params, lp.phis, u.uPhi, u.back, env);
    AssignedById(m, lp.phis, u.uPhi, u.back, env);
    TwoOnArrives(g, code, lp, u, bk, s, env, env', mem);
    PhisPassed(m, g, bk.us, bk.body1, TwoOn(bk, s, env, mem), s', ById(lp.phis, u.uPhi, u.back));
    TwoOnParts(bk, s, env, mem);
  }

  lemma PhisStand(g: Function, code: map<Id, Instr>, lp: Loop, u: Unrolled, bk: Blocks)
    requires InUnrolled(g, code, lp, u, bk)
    ensures ReceiveAs(g.code, lp.phis, u.uPhi, bk.body1, u.back) && Apart(lp.phis, u.uPhi)
    ensures ReceiveAs(g.code, lp.phis, u.epiPhi, bk.uHeader, Insts(u.uPhi)) && Apart(lp.phis, u.epiPhi)
    ensures (forall p | p in lp.phis :: p in u.uPhi && p in u.epiPhi)
    ensures bk.us.phis == PhiIds(lp.phis, u.uPhi) && bk.es.phis == PhiIds(lp.phis, u.epiPhi)
    ensures bk.us.phis != [] && bk.es.phis != []
  {
    hide ValidShape, Assemble, ReceiveAs, SameCode, JumpsTo, BranchesTo, Apart;
  }

  lemma TwoOnArrives(g: Function, code: map<Id, Instr>, lp: Loop, u: Unrolled, bk: Blocks, s: State,
                     env: map<Id, Word>, env': map<Id, Word>, mem: Memory)
    requires InUnrolled(g, code, lp, u, bk) && AtUnrolled(g, bk, s)
    ensures Arrived(g, bk.us, bk.body1, TwoOn(bk, s, env, mem))
    ensures NextPair(bk, s, env', mem) == TwoOn(bk, s, env, mem).(pc := |bk.us.phis|, env := env')
  {
    var a := TwoOn(bk, s, env, mem);
    assert a.path == s.path + [bk.body0, bk.body1, bk.uHeader];
    hide ValidShape, Assemble, ReceiveAs, SameCode, JumpsTo, BranchesTo, Apart;
  }

  lemma EpilogueArrives(g: Function, code: map<Id, Instr>, lp: Loop, u: Unrolled, bk: Blocks, s: State,
                        env: map<Id, Word>, env': map<Id, Word>, mem: Memory)
    requires InUnrolled(g, code, lp, u, bk) && AtUnrolled(g, bk, s)
    ensures Arrived(g, bk.es, bk.uHeader, EnterState(s, bk.epiHeader, env, mem))
    ensures AtEpilogue(bk, s, env', mem) == EnterState(s, bk.epiHeader, env, mem).(pc := |bk.es.phis|, env := env')
  {
    hide ValidShape, Assemble, ReceiveAs, SameCode, JumpsTo, BranchesTo, Apart;
  }

  lemma TwoOnParts(bk: Blocks, s: State, env: map<Id, Word>, mem: Memory)
    ensures TwoOn(bk, s, env, mem).env == env && TwoOn(bk, s, env, mem).mem == mem
  {
  }

  lemma EpiloguePhis(m: Machine, g: Function, code: map<Id, Instr>, lp: Loop, u: Unrolled, bk: Blocks, s: State,
                     env: map<Id, Word>, mem: Memory, s': State)
    requires InUnrolled(g, code, lp, u, bk) && AtUnrolled(g, bk, s)
    ensures forall p | p in lp.phis :: p in u.epiPhi && p in Insts(u.uPhi)
    ensures Step(m, g, EnterState(s, bk.epiHeader, env, mem), s') <==>
              && UnrollEquivalence.AllAssignable(m.params, lp.phis, u.epiPhi, Insts(u.uPhi), env)
              && s' == AtEpilogue(bk, s, UnrollEquivalence.AssignAll(m.params, lp.phis, u.epiPhi, Insts(u.uPhi), env),
                                  mem)
  {
    hide *;
    PhisStand(g, code, lp, u, bk);
    ReceivedById(g.code, lp.phis, u.epiPhi, bk.uHeader, Insts(u.uPhi));
    var env' := UnrollEquivalence.AssignAll(m.params, lp.phis, u.epiPhi, Insts(u.uPhi), env);
    AssignedById(m, lp.phis, u.epiPhi, Insts(u.uPhi), env);
    EpilogueArrives(g, code, lp, u, bk, s, env, env', mem);
    PhisPassed(m, g, bk.es, bk.uHeader, EnterState(s, bk.epiHeader, env, mem), s',
               ById(lp.phis, u.epiPhi, Insts(u.uPhi)));
    EnterParts(s, bk.epiHeader, env, mem);
  }

  lemma TrailNext(bk: Blocks, n: nat, once: bool, s: State, env1: map<Id, Word>, mem1: Memory, env: map<Id, Word>,
                  mem: Memory)
    requires n > 0
    ensures AfterPairs(bk, n, once, s, env, mem) == AfterPairs(bk, n - 1, once, NextPair(bk, s, env1, mem1), env, mem)
    ensures AfterPairs(bk, n, once, s, env, mem).path
         == s.path + ([bk.body0] + ([bk.body1] + ([bk.uHeader] + (PairTrail(bk, n - 1) + EndTrail(bk, once)))))
  {
    var rest, end := PairTrail(bk, n - 1), EndTrail(bk, once);
    var three := [bk.body0, bk.body1, bk.uHeader];
    assert s.path + (three + rest) + end == s.path + three + rest + end;
    assert s.path + (three + rest) + end == s.path + ([bk.body0] + ([bk.body1] + ([bk.uHeader] + (rest + end))));
  }

  lemma NextPairIs(g: Function, bk: Blocks, s: State, env: map<Id, Word>, mem: Memory)
    requires AtUnrolled(g, bk, s)
    ensures AtUnrolled(g, bk, NextPair(bk, s, env, mem))
    ensures NextPair(bk, s, env, mem).env == env && NextPair(bk, s, env, mem).mem == mem
  {
  }

  lemma AtEpilogueIs(bk: Blocks, s: State, env: map<Id, Word>, mem: Memory)
    ensures var e := AtEpilogue(bk, s, env, mem);
            && e.env == env && e.mem == mem && e.ret == s.ret && e.path == s.path + [bk.epiHeader]
            && e.pc == |bk.es.phis|
  {
  }

  lemma NoPairs(bk: Blocks, once: bool, s: State, e: map<Id, Word>, m1: Memory, x: map<Id, Word>, m2: Memory,
                env: map<Id, Word>, mem: Memory)
    ensures AfterPairs(bk, 0, false, s, env, mem) == EndState(bk.es, AtEpilogue(bk, s, e, m1), env, mem)
    ensures AfterPairs(bk, 0, true, s, env, mem)
         == EndState(bk.bs, EnterState(AtEpilogue(bk, s, e, m1), bk.epiBody, x, m2), env, mem)
    ensures AfterPairs(bk, 0, once, s, env, mem).path == s.path + ([bk.epiHeader] + if once then [bk.epiBody] else [])
    ensures AfterPairs(bk, 0, once, s, env, mem).env == env && AfterPairs(bk, 0, once, s, env, mem).mem == mem
  {
    assert s.path + [] + EndTrail(bk, false) == s.path + [bk.epiHeader];
    assert s.path + [] + EndTrail(bk, true) == s.path + [bk.epiHeader] + [bk.epiBody];
    assert [bk.epiHeader] + [] == [bk.epiHeader];
  }

  // ----- The parts of a run of the unrolled loop

  lemma TestParts(m: Machine, code: map<Id, Instr>, lp: Loop, u: Unrolled, n: nat, once: bool, env: map<Id, Word>,
                  mem: Memory, envX: map<Id, Word>, memX: Memory)
    returns (envt: map<Id, Word>, memt: Memory)
    requires UnrollEquivalence.Pairs(m, code, lp, u, n, once, env, mem, envX, memX)
    ensures Runs(m, u.code, [u.addStep, u.cond2x], env, mem, envt, memt) && u.cond2x in envt
    ensures if n == 0 then
              envt[u.cond2x].bits == 0 && UnrollEquivalence.Epilogue(m, code, lp, u, once, envt, memt, envX, memX)
            else envt[u.cond2x].bits != 0 && UnrollEquivalence.Pair(m, code, lp, u, n, once, envt, memt, envX, memX)
  {
    hide Runs, UnrollEquivalence.Epilogue, UnrollEquivalence.Pair;
    envt, memt :|
      && Runs(m, u.code, [u.addStep, u.cond2x], env, mem, envt, memt) && u.cond2x in envt
      && if n == 0 then
           envt[u.cond2x].bits == 0 && UnrollEquivalence.Epilogue(m, code, lp, u, once, envt, memt, envX, memX)
         else envt[u.cond2x].bits != 0 && UnrollEquivalence.Pair(m, code, lp, u, n, once, envt, memt, envX, memX);
  }

  lemma PairParts(m: Machine, code: map<Id, Instr>, lp: Loop, u: Unrolled, n: nat, once: bool, envt: map<Id, Word>,
                  memt: Memory, envX: map<Id, Word>, memX: Memory)
    returns (env0: map<Id, Word>, mem0: Memory, env1: map<Id, Word>, mem1: Memory)
    requires n > 0 && UnrollEquivalence.Pair(m, code, lp, u, n, once, envt, memt, envX, memX)
    ensures Runs(m, u.code, Ids(u.first0, |Body(code, lp)|), envt, memt, env0, mem0)
    ensures Runs(m, u.code, Ids(u.first1, |Body(code, lp)|), env0, mem0, env1, mem1)
    ensures UnrollEquivalence.AllAssignable(m.params, lp.phis, u.uPhi, u.back, env1)
    ensures forall p | p in lp.phis :: p in u.uPhi && p in u.back
    ensures UnrollEquivalence.Pairs(m, code, lp, u, n - 1, once,
                                    UnrollEquivalence.AssignAll(m.params, lp.phis, u.uPhi, u.back, env1), mem1, envX,
                                    memX)
  {
    hide Runs, UnrollEquivalence.Pairs, UnrollEquivalence.AssignAll, Body;
    env0, mem0, env1, mem1 :|
      && Runs(m, u.code, Ids(u.first0, |Body(code, lp)|), envt, memt, env0, mem0)
      && Runs(m, u.code, Ids(u.first1, |Body(code, lp)|), env0, mem0, env1, mem1)
      && UnrollEquivalence.AllAssignable(m.params, lp.phis, u.uPhi, u.back, env1)
      && UnrollEquivalence.Pairs(m, code, lp, u, n - 1, once,
                                 UnrollEquivalence.AssignAll(m.params, lp.phis, u.uPhi, u.back, env1), mem1, envX,
                                 memX);
  }

  lemma EpilogueParts(m: Machine, code: map<Id, Instr>, lp: Loop, u: Unrolled, once: bool, env: map<Id, Word>,
                      mem: Memory, envX: map<Id, Word>, memX: Memory)
    returns (envt: map<Id, Word>, memt: Memory)
    requires UnrollEquivalence.Epilogue(m, code, lp, u, once, env, mem, envX, memX)
    ensures UnrollEquivalence.AllAssignable(m.params, lp.phis, u.epiPhi, Insts(u.uPhi), env)
    ensures forall p | p in lp.phis :: p in u.epiPhi && p in Insts(u.uPhi)
    ensures Runs(m, u.code, [u.condEpi], UnrollEquivalence.AssignAll(m.params, lp.phis, u.epiPhi, Insts(u.uPhi), env),
                 mem, envt, memt)
    ensures u.condEpi in envt
    ensures if once then envt[u.condEpi].bits != 0
            && Runs(m, u.code, Ids(u.firstEpi, |Body(code, lp)|), envt, memt, envX, memX)
            else envt[u.condEpi].bits == 0 && envX == envt && memX == memt
  {
    hide Runs, UnrollEquivalence.AssignAll, Body;
    envt, memt :|
      && Runs(m, u.code, [u.condEpi], UnrollEquivalence.AssignAll(m.params, lp.phis, u.epiPhi, Insts(u.uPhi), env), mem,
              envt, memt)
      && u.condEpi in envt
      && if once then envt[u.condEpi].bits != 0
         && Runs(m, u.code, Ids(u.firstEpi, |Body(code, lp)|), envt, memt, envX, memX)
         else envt[u.condEpi].bits == 0 && envX == envt && memX == memt;
  }

  // ----- Whatever the unrolled loop does, steps do

  lemma EpilogueLeads(m: Machine, g: Function, code: map<Id, Instr>, lp: Loop, u: Unrolled, bk: Blocks, once: bool,
                      s: State, env: map<Id, Word>, mem: Memory, envX: map<Id, Word>, memX: Memory)
    requires InUnrolled(g, code, lp, u, bk) && AtUnrolled(g, bk, s)
    requires UnrollEquivalence.Epilogue(m, code, lp, u, once, env, mem, envX, memX)
    ensures Reaches(m, g, EnterState(s, bk.epiHeader, env, mem), AfterPairs(bk, 0, once, s, envX, memX))
    ensures !once ==> u.condEpi in envX && envX[u.condEpi].bits == 0
  {
    hide *;
    var envt, memt := EpilogueParts(m, code, lp, u, once, env, mem, envX, memX);
    var env' := UnrollEquivalence.AssignAll(m.params, lp.phis, u.epiPhi, Insts(u.uPhi), env);
    var e, t := AtEpilogue(bk, s, env', mem), AfterPairs(bk, 0, once, s, envX, memX);
    EpiloguePhis(m, g, code, lp, u, bk, s, env, mem, e);
    StepReaches(m, g, EnterState(s, bk.epiHeader, env, mem), e);
    EpilogueBegun(g, code, lp, u, bk, s, env', mem);
    AtEpilogueIs(bk, s, env', mem);
    AtUnrolledIs(g, bk, s);
    NoPairs(bk, once, s, env', mem, envt, memt, envX, memX);
    BlockCode(m, g, code, lp, u, bk, env', mem, envt, memt);
    if once {
      BlockCode(m, g, code, lp, u, bk, envt, memt, envX, memX);
      BranchLeads(m, g, bk.es, e, u.condEpi, bk.epiBody, bk.finalExit, envt, memt);
      BodyBegun(g, code, lp, u, bk, e, envt, memt);
      EnterParts(e, bk.epiBody, envt, memt);
      BodyLeads(m, g, bk.bs, EnterState(e, bk.epiBody, envt, memt), envX, memX);
      ReachesThen(m, g, e, EnterState(e, bk.epiBody, envt, memt), t);
    } else {
      BodyLeads(m, g, bk.es, e, envt, memt);
    }
    ReachesThen(m, g, EnterState(s, bk.epiHeader, env, mem), e, t);
  }

  lemma AtUnrolledIs(g: Function, bk: Blocks, s: State)
    requires AtUnrolled(g, bk, s)
    ensures s.ret.None? && s.path != []
  {
  }

  lemma PairLeads(m: Machine, g: Function, code: map<Id, Instr>, lp: Loop, u: Unrolled, bk: Blocks, s: State,
                  envt: map<Id, Word>, memt: Memory, env0: map<Id, Word>, mem0: Memory, env1: map<Id, Word>,
                  mem1: Memory)
    requires InUnrolled(g, code, lp, u, bk) && AtUnrolled(g, bk, s)
    requires Runs(m, u.code, Ids(u.first0, |Body(code, lp)|), envt, memt, env0, mem0)
    requires Runs(m, u.code, Ids(u.first1, |Body(code, lp)|), env0, mem0, env1, mem1)
    requires UnrollEquivalence.AllAssignable(m.params, lp.phis, u.uPhi, u.back, env1)
    ensures forall p | p in lp.phis :: p in u.uPhi && p in u.back
    ensures Reaches(m, g, EnterState(s, bk.body0, envt, memt),
                    NextPair(bk, s, UnrollEquivalence.AssignAll(m.params, lp.phis, u.uPhi, u.back, env1), mem1))
  {
    hide *;
    AtUnrolledIs(g, bk, s);
    BackThere(g, code, lp, u, bk);
    var a := EnterState(s, bk.body0, envt, memt);
    var b := EnterState(a, bk.body1, env0, mem0);
    BodyBegun(g, code, lp, u, bk, s, envt, memt);
    EnterParts(s, bk.body0, envt, memt);
    BlockCode(m, g, code, lp, u, bk, envt, memt, env0, mem0);
    ThroughLeads(m, g, bk.s0, a, bk.body1, env0, mem0);
    BodyBegun(g, code, lp, u, bk, a, env0, mem0);
    EnterParts(a, bk.body1, env0, mem0);
    BlockCode(m, g, code, lp, u, bk, env0, mem0, env1, mem1);
    ThroughLeads(m, g, bk.s1, b, bk.uHeader, env1, mem1);
    TwoOnFrom(bk, s, envt, memt, env0, mem0, env1, mem1);
    var c := TwoOn(bk, s, env1, mem1);
    PhisAgain(m, g, code, lp, u, bk, s, env1, mem1,
              NextPair(bk, s, UnrollEquivalence.AssignAll(m.params, lp.phis, u.uPhi, u.back, env1), mem1));
    var d := NextPair(bk, s, UnrollEquivalence.AssignAll(m.params, lp.phis, u.uPhi, u.back, env1), mem1);
    StepReaches(m, g, c, d);
    ReachesThen(m, g, a, b, c);
    ReachesThen(m, g, a, c, d);
  }

  lemma BackThere(g: Function, code: map<Id, Instr>, lp: Loop, u: Unrolled, bk: Blocks)
    requires InUnrolled(g, code, lp, u, bk)
    ensures forall p | p in lp.phis :: p in u.uPhi && p in u.back
  {
    hide Stands, SameCode, JumpsTo, BranchesTo, IncomingFrom;
  }

  lemma TwoOnFrom(bk: Blocks, s: State, envt: map<Id, Word>, memt: Memory, env0: map<Id, Word>, mem0: Memory,
                  env1: map<Id, Word>, mem1: Memory)
    ensures EnterState(EnterState(EnterState(s, bk.body0, envt, memt), bk.body1, env0, mem0), bk.uHeader, env1, mem1)
         == TwoOn(bk, s, env1, mem1)
  {
  }

  lemma {:induction false} PairsLead(m: Machine, g: Function, code: map<Id, Instr>, lp: Loop, u: Unrolled, bk: Blocks,
                                     n: nat, once: bool, s: State, envX: map<Id, Word>, memX: Memory)
    requires InUnrolled(g, code, lp, u, bk) && AtUnrolled(g, bk, s)
    requires UnrollEquivalence.Pairs(m, code, lp, u, n, once, s.env, s.mem, envX, memX)
    ensures Reaches(m, g, s, AfterPairs(bk, n, once, s, envX, memX))
    ensures !once ==> u.condEpi in envX && envX[u.condEpi].bits == 0
    decreases n
  {
    hide *;
    var t := AfterPairs(bk, n, once, s, envX, memX);
    var envt, memt := TestParts(m, code, lp, u, n, once, s.env, s.mem, envX, memX);
    UnrolledBegun(g, code, lp, u, bk, s);
    BlockCode(m, g, code, lp, u, bk, s.env, s.mem, envt, memt);
    BranchLeads(m, g, bk.us, s, u.cond2x, bk.body0, bk.epiHeader, envt, memt);
    if n == 0 {
      EpilogueLeads(m, g, code, lp, u, bk, once, s, envt, memt, envX, memX);
      ReachesThen(m, g, s, EnterState(s, bk.epiHeader, envt, memt), t);
    } else {
      var env0, mem0, env1, mem1 := PairParts(m, code, lp, u, n, once, envt, memt, envX, memX);
      PairLeads(m, g, code, lp, u, bk, s, envt, memt, env0, mem0, env1, mem1);
      var env2 := UnrollEquivalence.AssignAll(m.params, lp.phis, u.uPhi, u.back, env1);
      var s' := NextPair(bk, s, env2, mem1);
      NextPairIs(g, bk, s, env2, mem1);
      PairsLead(m, g, code, lp, u, bk, n - 1, once, s', envX, memX);
      TrailNext(bk, n, once, s, env2, mem1, envX, memX);
      ReachesThen(m, g, s, EnterState(s, bk.body0, envt, memt), s');
      ReachesThen(m, g, s, s', t);
    }
  }

  // ----- Whatever steps do, the unrolled loop does

  lemma EpiloguePassed(m: Machine, g: Function, code: map<Id, Instr>, lp: Loop, u: Unrolled, bk: Blocks, once: bool,
                       k: nat, s: State, env: map<Id, Word>, mem: Memory, envX: map<Id, Word>, memX: Memory)
    requires InUnrolled(g, code, lp, u, bk) && AtUnrolled(g, bk, s)
    requires Leads(m, g, k, EnterState(s, bk.epiHeader, env, mem), AfterPairs(bk, 0, once, s, envX, memX))
    requires !once ==> u.condEpi in envX && envX[u.condEpi].bits == 0
    ensures UnrollEquivalence.Epilogue(m, code, lp, u, once, env, mem, envX, memX)
  {
    hide *;
    var a, t := EnterState(s, bk.epiHeader, env, mem), AfterPairs(bk, 0, once, s, envX, memX);
    AtUnrolledIs(g, bk, s);
    UnrolledBegun(g, code, lp, u, bk, s);
    EnterParts(s, bk.epiHeader, env, mem);
    NotThere(bk, once, s, env, mem, envX, memX);
    NoLead(m, g, a, t);
    var e := FirstLead(m, g, k, a, t);
    EpiloguePhis(m, g, code, lp, u, bk, s, env, mem, e);
    var env' := UnrollEquivalence.AssignAll(m.params, lp.phis, u.epiPhi, Insts(u.uPhi), env);
    EpilogueBegun(g, code, lp, u, bk, s, env', mem);
    AtEpilogueIs(bk, s, env', mem);
    NoPairs(bk, once, s, env', mem, envX, memX, envX, memX);
    if once {
      OneOn(s.path, bk.epiHeader, bk.epiBody);
      var b, j := BranchPassed(m, g, bk.es, k - 1, e, t, u.condEpi, bk.epiBody, bk.finalExit, bk.epiBody, []);
      BlockCode(m, g, code, lp, u, bk, env', mem, b.env, b.mem);
      BodyBegun(g, code, lp, u, bk, e, b.env, b.mem);
      EnterParts(e, bk.epiBody, b.env, b.mem);
      NoPairs(bk, once, s, env', mem, b.env, b.mem, envX, memX);
      BranchIsIn(g, bk.bs, bk.finalExit);
      EndParts(bk.bs, b, envX, memX);
      BodyIsLast(m, g, bk.bs, j, b, t);
      BlockCode(m, g, code, lp, u, bk, b.env, b.mem, envX, memX);
      EpilogueMade(m, code, lp, u, once, env, mem, b.env, b.mem, envX, memX);
    } else {
      assert [bk.epiHeader] + [] == [bk.epiHeader];
      EndParts(bk.es, e, envX, memX);
      ConditionIsIn(g, bk.es, u.condEpi, bk.epiBody, bk.finalExit);
      BodyIsLast(m, g, bk.es, k - 1, e, t);
      BlockCode(m, g, code, lp, u, bk, env', mem, envX, memX);
      EpilogueMade(m, code, lp, u, once, env, mem, envX, memX, envX, memX);
    }
  }

  lemma OneOn(path: seq<BlockId>, a: BlockId, b: BlockId)
    ensures path + ([a] + [b]) == path + [a] + ([b] + [])
  {
  }

  /** Entering the epilogue is not yet its end. */
  lemma NotThere(bk: Blocks, once: bool, s: State, env: map<Id, Word>, mem: Memory, envX: map<Id, Word>, memX: Memory)
    requires bk.es.phis != []
    ensures EnterState(s, bk.epiHeader, env, mem) != AfterPairs(bk, 0, once, s, envX, memX)
  {
    var a, t := EnterState(s, bk.epiHeader, env, mem), AfterPairs(bk, 0, once, s, envX, memX);
    assert |a.path| == |s.path| + 1 && |t.path| == |s.path| + |EndTrail(bk, once)|;
    assert !once ==> t.pc > 0;
  }

  lemma EndParts(sh: Shape, s: State, env: map<Id, Word>, mem: Memory)
    ensures var t := EndState(sh, s, env, mem);
            t.path == s.path && t.pc == |sh.phis| + |sh.body| && t.env == env && t.mem == mem
  {
  }

  lemma BranchIsIn(g: Function, sh: Shape, b: BlockId)
    requires JumpsTo(g, sh, b)
    ensures sh.term in g.code && g.code[sh.term].op in {Jmp, Jnz, Br}
  {
  }

  lemma ConditionIsIn(g: Function, sh: Shape, cond: Id, yes: BlockId, no: BlockId)
    requires BranchesTo(g, sh, cond, yes, no)
    ensures sh.term in g.code && g.code[sh.term].op in {Jmp, Jnz, Br}
  {
  }

  lemma EpilogueMade(m: Machine, code: map<Id, Instr>, lp: Loop, u: Unrolled, once: bool, env: map<Id, Word>,
                     mem: Memory, envt: map<Id, Word>, memt: Memory, envX: map<Id, Word>, memX: Memory)
    requires UnrollEquivalence.AllAssignable(m.params, lp.phis, u.epiPhi, Insts(u.uPhi), env)
    requires forall p | p in lp.phis :: p in u.epiPhi && p in Insts(u.uPhi)
    requires Runs(m, u.code, [u.condEpi], UnrollEquivalence.AssignAll(m.params, lp.phis, u.epiPhi, Insts(u.uPhi), env),
                  mem, envt, memt)
    requires u.condEpi in envt
    requires if once then envt[u.condEpi].bits != 0
             && Runs(m, u.code, Ids(u.firstEpi, |Body(code, lp)|), envt, memt, envX, memX)
             else envt[u.condEpi].bits == 0 && envX == envt && memX == memt
    ensures UnrollEquivalence.Epilogue(m, code, lp, u, once, env, mem, envX, memX)
  {
    hide Runs, UnrollEquivalence.AssignAll, Body, Ids, UnrollEquivalence.AllAssignable;
  }

  /** A pair of bodies, passed from the new header to the new header. */
  lemma PairPassed(m: Machine, g: Function, code: map<Id, Instr>, lp: Loop, u: Unrolled, bk: Blocks, k: nat, s: State,
                   envt: map<Id, Word>, memt: Memory, t: State, rest: seq<BlockId>)
    returns (env0: map<Id, Word>, mem0: Memory, env1: map<Id, Word>, mem1: Memory, j: nat)
    requires InUnrolled(g, code, lp, u, bk) && AtUnrolled(g, bk, s)
    requires Leads(m, g, k, EnterState(s, bk.body0, envt, memt), t) && t.pc > 0
    requires t.path == s.path + ([bk.body0] + ([bk.body1] + ([bk.uHeader] + rest)))
    ensures Runs(m, u.code, Ids(u.first0, |Body(code, lp)|), envt, memt, env0, mem0)
    ensures Runs(m, u.code, Ids(u.first1, |Body(code, lp)|), env0, mem0, env1, mem1)
    ensures UnrollEquivalence.AllAssignable(m.params, lp.phis, u.uPhi, u.back, env1)
    ensures forall p | p in lp.phis :: p in u.uPhi && p in u.back
    ensures Leads(m, g, j, NextPair(bk, s, UnrollEquivalence.AssignAll(m.params, lp.phis, u.uPhi, u.back, env1), mem1),
                  t)
  {
    hide *;
    AtUnrolledIs(g, bk, s);
    var a := EnterState(s, bk.body0, envt, memt);
    EnterParts(s, bk.body0, envt, memt);
    LongerPath(s.path, bk.body0, [bk.body1] + ([bk.uHeader] + rest));
    LongerPath(s.path + [bk.body0], bk.body1, [bk.uHeader] + rest);
    BodyBegun(g, code, lp, u, bk, s, envt, memt);
    var b, i := ThroughPassed(m, g, bk.s0, k, a, t, bk.body1, [bk.uHeader] + rest);
    env0, mem0 := b.env, b.mem;
    BlockCode(m, g, code, lp, u, bk, envt, memt, env0, mem0);
    EnterParts(a, bk.body1, env0, mem0);
    BodyBegun(g, code, lp, u, bk, a, env0, mem0);
    var c, i' := ThroughPassed(m, g, bk.s1, i, b, t, bk.uHeader, rest);
    env1, mem1 := c.env, c.mem;
    BlockCode(m, g, code, lp, u, bk, env0, mem0, env1, mem1);
    EnterParts(b, bk.uHeader, env1, mem1);
    TwoOnFrom(bk, s, envt, memt, env0, mem0, env1, mem1);
    NoLead(m, g, c, t);
    var d := FirstLead(m, g, i', c, t);
    PhisAgain(m, g, code, lp, u, bk, s, env1, mem1, d);
    j := i' - 1;
  }

  lemma AfterPairsIs(g: Function, code: map<Id, Instr>, lp: Loop, u: Unrolled, bk: Blocks, n: nat, once: bool, s: State,
                     env: map<Id, Word>, mem: Memory)
    requires InUnrolled(g, code, lp, u, bk) && (once ==> |bk.bs.body| > 0)
    ensures AfterPairs(bk, n, once, s, env, mem).pc > 0
  {
    hide ValidShape, Assemble, ReceiveAs, SameCode, JumpsTo, BranchesTo, PairTrail;
  }

  lemma {:induction false} LeadsPairs(m: Machine, g: Function, code: map<Id, Instr>, lp: Loop, u: Unrolled, bk: Blocks,
                                      n: nat, once: bool, k: nat, s: State, envX: map<Id, Word>, memX: Memory)
    requires InUnrolled(g, code, lp, u, bk) && AtUnrolled(g, bk, s) && Body(code, lp) != []
    requires Leads(m, g, k, s, AfterPairs(bk, n, once, s, envX, memX))
    requires !once ==> u.condEpi in envX && envX[u.condEpi].bits == 0
    ensures UnrollEquivalence.Pairs(m, code, lp, u, n, once, s.env, s.mem, envX, memX)
    decreases n
  {
    hide *;
    var t := AfterPairs(bk, n, once, s, envX, memX);
    UnrolledBegun(g, code, lp, u, bk, s);
    BodyThere(g, code, lp, u, bk);
    AfterPairsIs(g, code, lp, u, bk, n, once, s, envX, memX);
    if n == 0 {
      NoPairs(bk, once, s, envX, memX, envX, memX, envX, memX);
      var a, j := BranchPassed(m, g, bk.us, k, s, t, u.cond2x, bk.body0, bk.epiHeader, bk.epiHeader,
                               if once then [bk.epiBody] else []);
      BlockCode(m, g, code, lp, u, bk, s.env, s.mem, a.env, a.mem);
      EpiloguePassed(m, g, code, lp, u, bk, once, j, s, a.env, a.mem, envX, memX);
      PairsNone(m, code, lp, u, once, s.env, s.mem, a.env, a.mem, envX, memX);
    } else {
      TrailNext(bk, n, once, s, envX, memX, envX, memX);
      var rest := PairTrail(bk, n - 1) + EndTrail(bk, once);
      var a, j := BranchPassed(m, g, bk.us, k, s, t, u.cond2x, bk.body0, bk.epiHeader, bk.body0,
                               [bk.body1] + ([bk.uHeader] + rest));
      BlockCode(m, g, code, lp, u, bk, s.env, s.mem, a.env, a.mem);
      var env0, mem0, env1, mem1, i := PairPassed(m, g, code, lp, u, bk, j, s, a.env, a.mem, t, rest);
      var env2 := UnrollEquivalence.AssignAll(m.params, lp.phis, u.uPhi, u.back, env1);
      TrailNext(bk, n, once, s, env2, mem1, envX, memX);
      NextPairIs(g, bk, s, env2, mem1);
      LeadsPairs(m, g, code, lp, u, bk, n - 1, once, i, NextPair(bk, s, env2, mem1), envX, memX);
      PairsOneMore(m, code, lp, u, n, once, s.env, s.mem, a.env, a.mem, env0, mem0, env1, mem1, envX, memX);
    }
  }

  lemma BodyThere(g: Function, code: map<Id, Instr>, lp: Loop, u: Unrolled, bk: Blocks)
    requires InUnrolled(g, code, lp, u, bk)
    ensures |bk.bs.body| == |Body(code, lp)|
  {
    hide ValidShape, Assemble, ReceiveAs, SameCode, JumpsTo, BranchesTo, Body;
  }

  lemma PairsNone(m: Machine, code: map<Id, Instr>, lp: Loop, u: Unrolled, once: bool, env: map<Id, Word>, mem: Memory,
                  envt: map<Id, Word>, memt: Memory, envX: map<Id, Word>, memX: Memory)
    requires Runs(m, u.code, [u.addStep, u.cond2x], env, mem, envt, memt) && u.cond2x in envt
    requires envt[u.cond2x].bits == 0 && UnrollEquivalence.Epilogue(m, code, lp, u, once, envt, memt, envX, memX)
    ensures UnrollEquivalence.Pairs(m, code, lp, u, 0, once, env, mem, envX, memX)
  {
    hide Runs, UnrollEquivalence.Epilogue;
  }

  lemma PairsOneMore(m: Machine, code: map<Id, Instr>, lp: Loop, u: Unrolled, n: nat, once: bool, env: map<Id, Word>,
                     mem: Memory, envt: map<Id, Word>, memt: Memory, env0: map<Id, Word>, mem0: Memory,
                     env1: map<Id, Word>, mem1: Memory, envX: map<Id, Word>, memX: Memory)
    requires n > 0 && Runs(m, u.code, [u.addStep, u.cond2x], env, mem, envt, memt)
    requires u.cond2x in envt && envt[u.cond2x].bits != 0
    requires Runs(m, u.code, Ids(u.first0, |Body(code, lp)|), envt, memt, env0, mem0)
    requires Runs(m, u.code, Ids(u.first1, |Body(code, lp)|), env0, mem0, env1, mem1)
    requires UnrollEquivalence.AllAssignable(m.params, lp.phis, u.uPhi, u.back, env1)
    requires forall p | p in lp.phis :: p in u.uPhi && p in u.back
    requires UnrollEquivalence.Pairs(m, code, lp, u, n - 1, once,
                                     UnrollEquivalence.AssignAll(m.params, lp.phis, u.uPhi, u.back, env1), mem1, envX,
                                     memX)
    ensures UnrollEquivalence.Pairs(m, code, lp, u, n, once, env, mem, envX, memX)
  {
    hide Runs, UnrollEquivalence.Pairs, UnrollEquivalence.AssignAll, Body, Ids, UnrollEquivalence.AllAssignable;
    assert UnrollEquivalence.Pair(m, code, lp, u, n, once, envt, memt, envX, memX);
    hide UnrollEquivalence.Pair;
    PairsFold(m, code, lp, u, n, once, env, mem, envt, memt, envX, memX);
  }

  lemma PairsFold(m: Machine, code: map<Id, Instr>, lp: Loop, u: Unrolled, n: nat, once: bool, env: map<Id, Word>,
                  mem: Memory, envt: map<Id, Word>, memt: Memory, envX: map<Id, Word>, memX: Memory)
    requires n > 0 && Runs(m, u.code, [u.addStep, u.cond2x], env, mem, envt, memt)
    requires u.cond2x in envt && envt[u.cond2x].bits != 0
    requires UnrollEquivalence.Pair(m, code, lp, u, n, once, envt, memt, envX, memX)
    ensures UnrollEquivalence.Pairs(m, code, lp, u, n, once, env, mem, envX, memX)
  {
    hide Runs, UnrollEquivalence.Pair;
  }

  /**
   n pairs of rounds and the epilogue, with its body or without, are exactly what steps of the
   function make that enter the new blocks in that order.
   */
  lemma UnrolledRunsExactly(m: Machine, g: Function, code: map<Id, Instr>, lp: Loop, u: Unrolled, bk: Blocks, n: nat,
                            once: bool, s: State, envX: map<Id, Word>, memX: Memory)
    requires InUnrolled(g, code, lp, u, bk) && AtUnrolled(g, bk, s) && Body(code, lp) != []
    ensures UnrollEquivalence.Pairs(m, code, lp, u, n, once, s.env, s.mem, envX, memX) <==>
              && (!once ==> u.condEpi in envX && envX[u.condEpi].bits == 0)
              && Reaches(m, g, s, AfterPairs(bk, n, once, s, envX, memX))
  {
    hide InUnrolled, AtUnrolled, AfterPairs, UnrollEquivalence.Pairs, Leads, Body;
    if UnrollEquivalence.Pairs(m, code, lp, u, n, once, s.env, s.mem, envX, memX) {
      PairsLead(m, g, code, lp, u, bk, n, once, s, envX, memX);
    } else if && (!once ==> u.condEpi in envX && envX[u.condEpi].bits == 0)
              && Reaches(m, g, s, AfterPairs(bk, n, once, s, envX, memX)) {
      var k: nat :| Leads(m, g, k, s, AfterPairs(bk, n, once, s, envX, memX));
      LeadsPairs(m, g, code, lp, u, bk, n, once, k, s, envX, memX);
    }
  }
}
