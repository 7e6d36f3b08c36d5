/**
 The runs of a loop that tests in its header, and those of its unrolling: the same
 memory and the same values in the phis, for every number of iterations.
 */
module UnrollEquivalence {
  import opened IR
  import opened Reordering
  import opened ValueCloner
  import opened LoopUnroll

  /** What the step and the comparison do to words. */
  datatype Arith = Arith(next: Word -> Word, holds: (Word, Word) -> bool)

  ghost predicate AddMeans(m: Machine, ar: Arith, lp: Loop) {
    && (forall a: Word, mem: Memory, v: Word, mem': Memory | m.sem(Add, lp.ivType, [a, lp.step], mem, v, mem') ::
          mem' == mem && v == ar.next(a))
    && (forall a: Word, mem: Memory :: m.sem(Add, lp.ivType, [a, lp.step], mem, ar.next(a), mem))
  }

  ghost predicate TestMeans(m: Machine, ar: Arith, lp: Loop) {
    && (forall ty: nat, a: Word, b: Word, mem: Memory, v: Word, mem': Memory
        | m.sem(lp.cmp, ty, [a, b], mem, v, mem') ::
          mem' == mem && (v.bits != 0 <==> ar.holds(a, b)))
    && (forall a: Word, b: Word, mem: Memory :: Testable(m, lp, a, b, mem))
  }

  ghost predicate Testable(m: Machine, lp: Loop, a: Word, b: Word, mem: Memory) {
    exists v: Word :: m.sem(lp.cmp, 1, [a, b], mem, v, mem)
  }

  /** The header tests the induction variable, the latch steps it, and the header leaves memory alone. */
  ghost predicate WhileForm(m: Machine, ar: Arith, code: map<Id, Instr>, lp: Loop) {
    && lp.cond in HeaderOps(code, lp) && lp.cond in code
    && code[lp.cond].op == lp.cmp && code[lp.cond].operands == [Inst(lp.iv), lp.bound]
    && lp.iv in lp.latch && lp.latch[lp.iv].Inst? && lp.latch[lp.iv].id in Body(code, lp) && lp.latch[lp.iv].id in code
    && StepMeans(m, ar, code[lp.latch[lp.iv].id], lp.iv)
    && forall id | id in HeaderOps(code, lp) :: id in code && Quiet(m, code[id])
  }

  ghost predicate StepMeans(m: Machine, ar: Arith, instr: Instr, iv: Id) {
    forall env: map<Id, Word>, mem: Memory, v: Word, mem': Memory | OpRuns(m, instr, env, mem, v, mem') ::
      iv in env && v == ar.next(env[iv])
  }

  ghost predicate Quiet(m: Machine, instr: Instr) {
    forall env: map<Id, Word>, mem: Memory, v: Word, mem': Memory | OpRuns(m, instr, env, mem, v, mem') :: mem' == mem
  }

  // ----- Runs of the loop

  ghost predicate LatchesReady(m: Machine, lp: Loop, env: map<Id, Word>) {
    forall p | p in lp.phis :: p in lp.latch && IR.Ready(lp.latch[p], env, m.params)
  }

  /** The phis take their values from the latch, all at once. */
  ghost function NextPhis(m: Machine, lp: Loop, env: map<Id, Word>): map<Id, Word>
    requires forall p | p in lp.phis :: p in lp.latch
  {
    env + map p | p in lp.phis :: Fetch(lp.latch[p], env, m.params)
  }

  /** From a header with its phis set: n times round, then out. */
  ghost predicate Rounds(m: Machine, code: map<Id, Instr>, lp: Loop, n: nat, env: map<Id, Word>, mem: Memory,
                         envX: map<Id, Word>, memX: Memory)
    decreases n
  {
    exists envh: map<Id, Word>, memh: Memory ::
      && Runs(m, code, HeaderOps(code, lp), env, mem, envh, memh) && lp.cond in envh
      && if n == 0 then envh[lp.cond].bits == 0 && envX == envh && memX == memh
         else envh[lp.cond].bits != 0 && Round(m, code, lp, n, envh, memh, envX, memX)
  }

  ghost predicate Round(m: Machine, code: map<Id, Instr>, lp: Loop, n: nat, envh: map<Id, Word>, memh: Memory,
                        envX: map<Id, Word>, memX: Memory)
    requires n > 0
    decreases n, 0
  {
    exists env1: map<Id, Word>, mem1: Memory ::
      && Runs(m, code, LatchOps(code, lp), envh, memh, env1, mem1)
      && LatchesReady(m, lp, env1)
      && Rounds(m, code, lp, n - 1, NextPhis(m, lp, env1), mem1, envX, memX)
  }

  // ----- Runs of the unrolled loop

  /** Destinations take the values, all fetched from one environment. */
  ghost function AssignAll(params: seq<Word>, phis: seq<Id>, dst: map<Id, Id>, vals: map<Id, Value>,
                           from: map<Id, Word>): map<Id, Word>
    requires forall p | p in phis :: p in dst && p in vals
  {
    if phis == [] then from
    else
      var p := Last(phis);
      AssignAll(params, phis[..|phis| - 1], dst, vals, from)[dst[p] := Fetch(vals[p], from, params)]
  }

  ghost predicate AllAssignable(params: seq<Word>, phis: seq<Id>, dst: map<Id, Id>, vals: map<Id, Value>,
                                env: map<Id, Word>)
  {
    forall p | p in phis :: p in dst && p in vals && IR.Ready(vals[p], env, params)
  }

  ghost predicate Pairs(m: Machine, code: map<Id, Instr>, lp: Loop, u: Unrolled, n: nat, once: bool,
                        env: map<Id, Word>, mem: Memory, envX: map<Id, Word>, memX: Memory)
    decreases n
  {
    exists envt: map<Id, Word>, memt: Memory ::
      && Runs(m, u.code, [u.addStep, u.cond2x], env, mem, envt, memt) && u.cond2x in envt
      && if n == 0 then envt[u.cond2x].bits == 0 && Epilogue(m, code, lp, u, once, envt, memt, envX, memX)
         else envt[u.cond2x].bits != 0 && Pair(m, code, lp, u, n, once, envt, memt, envX, memX)
  }

  ghost predicate Pair(m: Machine, code: map<Id, Instr>, lp: Loop, u: Unrolled, n: nat, once: bool,
                       envt: map<Id, Word>, memt: Memory, envX: map<Id, Word>, memX: Memory)
    requires n > 0
    decreases n, 0
  {
    exists env0: map<Id, Word>, mem0: Memory, env1: map<Id, Word>, mem1: Memory ::
      && Runs(m, u.code, Ids(u.first0, |Body(code, lp)|), envt, memt, env0, mem0)
      && Runs(m, u.code, Ids(u.first1, |Body(code, lp)|), env0, mem0, env1, mem1)
      && AllAssignable(m.params, lp.phis, u.uPhi, u.back, env1)
      && Pairs(m, code, lp, u, n - 1, once, AssignAll(m.params, lp.phis, u.uPhi, u.back, env1), mem1, envX, memX)
  }

  /** The phis again, the test again, and at most one more body. */
  ghost predicate Epilogue(m: Machine, code: map<Id, Instr>, lp: Loop, u: Unrolled, once: bool,
                           env: map<Id, Word>, mem: Memory, envX: map<Id, Word>, memX: Memory)
  {
    && AllAssignable(m.params, lp.phis, u.epiPhi, Insts(u.uPhi), env)
    && exists envt: map<Id, Word>, memt: Memory ::
         && Runs(m, u.code, [u.condEpi], AssignAll(m.params, lp.phis, u.epiPhi, Insts(u.uPhi), env), mem, envt, memt)
         && u.condEpi in envt
         && if once then envt[u.condEpi].bits != 0
            && Runs(m, u.code, Ids(u.firstEpi, |Body(code, lp)|), envt, memt, envX, memX)
            else envt[u.condEpi].bits == 0 && envX == envt && memX == memt
  }

  /** What the phi at the exit receives; None is the null operand. */
  function FinalPhi(u: Unrolled, once: bool, p: Id): Option<Value> {
    if once then if p in u.finalBody then u.finalBody[p] else None
    else if p in u.finalHeader then u.finalHeader[p] else None
  }

  // ----- Assignments

  /** The environment after the assignments: destinations hold the values, all else is as it was. */
  ghost predicate HasAssigned(params: seq<Word>, phis: seq<Id>, dst: map<Id, Id>, vals: map<Id, Value>,
                              from: map<Id, Word>, env: map<Id, Word>)
    requires forall p | p in phis :: p in dst && p in vals
  {
    && (forall p | p in phis :: dst[p] in env && env[dst[p]] == Fetch(vals[p], from, params))
    && (forall x: Id | NoTarget(phis, dst, x) :: (x in env <==> x in from) && (x in env ==> env[x] == from[x]))
  }

  ghost predicate NoTarget(phis: seq<Id>, dst: map<Id, Id>, x: Id) {
    forall p | p in phis && p in dst :: dst[p] != x
  }

  lemma AssignedNext(params: seq<Word>, front: seq<Id>, last: Id, dst: map<Id, Id>, vals: map<Id, Value>,
                     from: map<Id, Word>, env: map<Id, Word>)
    requires forall p | p in front + [last] :: p in dst && p in vals
    requires forall p | p in front :: p in dst && p in vals
    requires forall p, q | p in front + [last] && q in front + [last] && p != q :: dst[p] != dst[q]
    requires HasAssigned(params, front, dst, vals, from, env) && last in dst && last in vals
    ensures HasAssigned(params, front + [last], dst, vals, from, env[dst[last] := Fetch(vals[last], from, params)])
  {
    hide Fetch;
    var env' := env[dst[last] := Fetch(vals[last], from, params)];
    forall p | p in front + [last]
      ensures dst[p] in env' && env'[dst[p]] == Fetch(vals[p], from, params)
    {
      assert p != last ==> p in front;
    }
    forall x: Id | NoTarget(front + [last], dst, x)
      ensures (x in env' <==> x in from) && (x in env' ==> env'[x] == from[x])
    {
      assert last in front + [last] && forall p | p in front :: p in front + [last];
      assert NoTarget(front, dst, x);
    }
  }

  lemma {:induction false} Assigned(params: seq<Word>, phis: seq<Id>, dst: map<Id, Id>, vals: map<Id, Value>,
                                    from: map<Id, Word>)
    requires forall p | p in phis :: p in dst && p in vals
    requires forall p, q | p in phis && q in phis && p != q :: dst[p] != dst[q]
    ensures HasAssigned(params, phis, dst, vals, from, AssignAll(params, phis, dst, vals, from))
  {
    if phis != [] {
      var front, last := phis[..|phis| - 1], Last(phis);
      assert phis == front + [last];
      hide Fetch, HasAssigned;
      Assigned(params, front, dst, vals, from);
      AssignedNext(params, front, last, dst, vals, from, AssignAll(params, front, dst, vals, from));
    }
  }

  /** A name above all that the map speaks of may be assigned. */
  lemma Harmless(params: seq<Word>, base: Id, rest: seq<Id>, vmap: ValueMap, limit: Id, env: map<Id, Word>,
                 env2: map<Id, Word>, c: Id, w: Word)
    requires Corresponds(params, base, rest, vmap, env, env2) && MapsBelow(vmap, limit) && base <= c && limit <= c
    ensures Corresponds(params, base, rest, vmap, env, env2[c := w])
  {
    forall x: Id | x < base && x !in rest
      ensures SameValue(params, env, x, env2[c := w], Mapped(vmap, Inst(x)))
    {
      assert SameValue(params, env, x, env2, Mapped(vmap, Inst(x)));
    }
  }

  lemma MappedPhi(phis: seq<Id>, to: map<Id, Value>, x: Id)
    requires forall p | p in phis :: p in to
    ensures Mapped(PhiMap(phis, to), Inst(x)) == if x in phis then to[x] else Inst(x)
  {
    PhiMapAt(phis, to, Inst(x));
  }

  lemma CorrespondsAt(params: seq<Word>, base: Id, rest: seq<Id>, vmap: ValueMap, env: map<Id, Word>,
                      env2: map<Id, Word>, x: Id)
    requires Corresponds(params, base, rest, vmap, env, env2) && x < base && x !in rest
    ensures SameValue(params, env, x, env2, Mapped(vmap, Inst(x)))
  {
  }

  lemma SameValueIs(params: seq<Word>, env: map<Id, Word>, x: Id, env2: map<Id, Word>, v: Value)
    requires SameValue(params, env, x, env2, v)
    ensures x in env <==> IR.Ready(v, env2, params)
    ensures x in env ==> env[x] == Fetch(v, env2, params)
  {
  }

  lemma SameInst(params: seq<Word>, env: map<Id, Word>, x: Id, env2: map<Id, Word>, y: Id)
    ensures SameValue(params, env, x, env2, Inst(y)) <==> (x in env <==> y in env2) && (x in env ==> env[x] == env2[y])
  {
  }

  lemma InstsAt(m: map<Id, Id>, p: Id)
    requires p in m
    ensures p in Insts(m) && Insts(m)[p] == Inst(m[p])
  {
  }

  lemma RenamedAt(params: seq<Word>, base: Id, rest: seq<Id>, phis: seq<Id>, src: map<Id, Value>, dst: map<Id, Id>,
                  lo: Id, hi: Id, env: map<Id, Word>, env2: map<Id, Word>, env3: map<Id, Word>, x: Id)
    requires forall p | p in phis :: p in src && p in dst && p in env && p in Insts(dst)
    requires FreshPhis(phis, dst, lo, hi) && base <= lo && x < base && x !in rest
    requires Corresponds(params, base, rest, PhiMap(phis, src), env, env2)
    requires HasAssigned(params, phis, dst, src, env2, env3)
    ensures SameValue(params, env, x, env3, Mapped(PhiMap(phis, Insts(dst)), Inst(x)))
    ensures x in phis ==> IR.Ready(src[x], env2, params)
  {
    MappedPhi(phis, src, x);
    MappedPhi(phis, Insts(dst), x);
    CorrespondsAt(params, base, rest, PhiMap(phis, src), env, env2, x);
    hide PhiMap, Corresponds, SameValue, Fetch, IR.Ready, Mapped, Insts;
    if x in phis {
      InstsAt(dst, x);
      SameValueIs(params, env, x, env2, src[x]);
      SameInst(params, env, x, env3, dst[x]);
    } else {
      assert NoTarget(phis, dst, x);
      SameInst(params, env, x, env2, x);
      SameInst(params, env, x, env3, x);
    }
  }

  lemma CorrespondsIf(params: seq<Word>, base: Id, rest: seq<Id>, vmap: ValueMap, env: map<Id, Word>,
                      env2: map<Id, Word>)
    requires forall x: Id | x < base && x !in rest :: SameValue(params, env, x, env2, Mapped(vmap, Inst(x)))
    ensures Corresponds(params, base, rest, vmap, env, env2)
  {
  }

  lemma Injective(phis: seq<Id>, dst: map<Id, Id>, lo: Id, hi: Id)
    requires FreshPhis(phis, dst, lo, hi)
    ensures forall p, q | p in phis && q in phis && p != q :: p in dst && q in dst && dst[p] != dst[q]
  {
  }

  /** Giving the phis new names, with the values they stand for. */
  lemma Renamed(params: seq<Word>, base: Id, rest: seq<Id>, phis: seq<Id>, src: map<Id, Value>, dst: map<Id, Id>,
                lo: Id, hi: Id, env: map<Id, Word>, env2: map<Id, Word>)
    requires forall p | p in phis :: p in src && p in dst && p in env && p < base && p !in rest && p in Insts(dst)
    requires FreshPhis(phis, dst, lo, hi) && base <= lo
    requires Corresponds(params, base, rest, PhiMap(phis, src), env, env2)
    ensures AllAssignable(params, phis, dst, src, env2)
    ensures Corresponds(params, base, rest, PhiMap(phis, Insts(dst)), env, AssignAll(params, phis, dst, src, env2))
  {
    hide PhiMap, SameValue, Fetch, IR.Ready, Mapped, Insts, AssignAll, FreshPhis, HasAssigned, Corresponds;
    Injective(phis, dst, lo, hi);
    Assigned(params, phis, dst, src, env2);
    var env3 := AssignAll(params, phis, dst, src, env2);
    forall x: Id | x < base && x !in rest
      ensures SameValue(params, env, x, env3, Mapped(PhiMap(phis, Insts(dst)), Inst(x)))
      ensures x in phis ==> IR.Ready(src[x], env2, params)
    {
      RenamedAt(params, base, rest, phis, src, dst, lo, hi, env, env2, env3, x);
    }
    CorrespondsIf(params, base, rest, PhiMap(phis, Insts(dst)), env, env3);
  }

  lemma NextAt(m: Machine, base: Id, code: map<Id, Instr>, lp: Loop, to: map<Id, Value>, first: Id, limit: Id,
               env: map<Id, Word>, env2: map<Id, Word>, x: Id)
    requires (forall p | p in lp.phis :: p in to && p in lp.latch && Below(lp.latch[p], base))
    requires LatchesReady(m, lp, env)
    requires var full := MapAfter(PhiMap(lp.phis, to), Body(code, lp), first);
             Corresponds(m.params, base, [], full, env, env2) && MapsBelow(full, limit)
    requires x < base && x !in Body(code, lp)
    requires forall p | p in lp.phis :: p in LatchValues(lp, MapAfter(PhiMap(lp.phis, to), Body(code, lp), first))
    ensures SameValue(m.params, NextPhis(m, lp, env), x, env2,
                      Mapped(PhiMap(lp.phis, LatchValues(lp, MapAfter(PhiMap(lp.phis, to), Body(code, lp), first))),
                             Inst(x)))
  {
    var full := MapAfter(PhiMap(lp.phis, to), Body(code, lp), first);
    MappedPhi(lp.phis, LatchValues(lp, full), x);
    hide MapAfter, PhiMap, Body, Corresponds, MapsBelow;
    if x in lp.phis {
      MappedFetch(m.params, base, [], full, limit, env, env2, lp.latch[x]);
    } else {
      KeysAfter(PhiMap(lp.phis, to), Body(code, lp), first, Inst(x));
      PhiMapAt(lp.phis, to, Inst(x));
      CorrespondsAt(m.params, base, [], full, env, env2, x);
    }
  }

  /** After a body: the phis take their latch values, which the map after the body knows. */
  lemma NextIteration(m: Machine, base: Id, code: map<Id, Instr>, lp: Loop, to: map<Id, Value>, first: Id, limit: Id,
                      env: map<Id, Word>, env2: map<Id, Word>)
    requires ValidLoop(code, lp, base) && forall p | p in lp.phis :: p in to
    requires var full := MapAfter(PhiMap(lp.phis, to), Body(code, lp), first);
             Corresponds(m.params, base, [], full, env, env2) && MapsBelow(full, limit)
    requires LatchesReady(m, lp, env)
    ensures forall p | p in lp.phis ::
              p in lp.latch && p in LatchValues(lp, MapAfter(PhiMap(lp.phis, to), Body(code, lp), first))
    ensures Corresponds(m.params, base, Body(code, lp),
                        PhiMap(lp.phis, LatchValues(lp, MapAfter(PhiMap(lp.phis, to), Body(code, lp), first))),
                        NextPhis(m, lp, env), env2)
  {
    ValidLatches(code, lp, base);
    LatchValuesDefined(lp, MapAfter(PhiMap(lp.phis, to), Body(code, lp), first));
    hide MapAfter, PhiMap, Body, MapsBelow, SameValue, LatchesReady, ValidLoop, LatchValues, Mapped, NextPhis;
    forall x: Id | x < base && x !in Body(code, lp)
      ensures SameValue(m.params, NextPhis(m, lp, env), x, env2,
                        Mapped(PhiMap(lp.phis, LatchValues(lp, MapAfter(PhiMap(lp.phis, to), Body(code, lp), first))),
                               Inst(x)))
    {
      NextAt(m, base, code, lp, to, first, limit, env, env2, x);
    }
  }

  lemma ValidLatches(code: map<Id, Instr>, lp: Loop, base: Id)
    requires ValidLoop(code, lp, base)
    ensures forall p | p in lp.phis :: p in lp.latch && Below(lp.latch[p], base) && p < base && p !in Body(code, lp)
    ensures lp.iv in lp.phis && Distinct(lp.phis) && InScope(code, Body(code, lp), base)
  {
    BodyInCode(code, lp);
    hide Body, InScope, Distinct;
  }

  // ----- What one iteration says about the induction variable

  /** The state when the k-th operation of a list ran, and what became of its result. */
  lemma {:induction false} RunsAt(m: Machine, code: map<Id, Instr>, list: seq<Id>, k: nat, env: map<Id, Word>,
                                  mem: Memory, env': map<Id, Word>, mem': Memory)
    returns (envk: map<Id, Word>, memk: Memory, v: Word, memk': Memory)
    requires Distinct(list) && k < |list| && Runs(m, code, list, env, mem, env', mem')
    ensures list[k] in code && OpRuns(m, code[list[k]], envk, memk, v, memk')
    ensures list[k] in env' && env'[list[k]] == v
    ensures forall x: Id | x !in list :: (x in envk <==> x in env) && (x in env ==> envk[x] == env[x])
    decreases |list|
  {
    var x, rest := list[0], list[1..];
    assert list == [x] + rest;
    var w, mid := FirstOf(m, code, x, rest, env, mem, env', mem');
    hide OpRuns;
    DistinctRest(list);
    if k == 0 {
      envk, memk, v, memk' := env, mem, w, mid;
      OutsideRuns(m, code, rest, env[x := w], mid, env', mem', x);
    } else {
      envk, memk, v, memk' := RunsAt(m, code, rest, k - 1, env[x := w], mid, env', mem');
    }
  }

  lemma DistinctRest(list: seq<Id>)
    requires Distinct(list) && list != []
    ensures Distinct(list[1..]) && list[0] !in list[1..] && forall x | x in list[1..] :: x in list
  {
  }

  /** Names that are not assigned keep their words. */
  lemma {:induction false} OutsideRuns(m: Machine, code: map<Id, Instr>, list: seq<Id>, env: map<Id, Word>, mem: Memory,
                                       env': map<Id, Word>, mem': Memory, x: Id)
    requires Runs(m, code, list, env, mem, env', mem') && x !in list
    ensures (x in env' <==> x in env) && (x in env ==> env'[x] == env[x])
    decreases |list|
  {
    if list != [] {
      assert list == [list[0]] + list[1..];
      var v, mid := FirstOf(m, code, list[0], list[1..], env, mem, env', mem');
      OutsideRuns(m, code, list[1..], env[list[0] := v], mid, env', mem', x);
    }
  }

  lemma {:induction false} RunsConcat(m: Machine, code: map<Id, Instr>, a: seq<Id>, b: seq<Id>, env: map<Id, Word>,
                                      mem: Memory, env1: map<Id, Word>, mem1: Memory, env': map<Id, Word>, mem': Memory)
    requires Runs(m, code, a, env, mem, env1, mem1) && Runs(m, code, b, env1, mem1, env', mem')
    ensures Runs(m, code, a + b, env, mem, env', mem')
    decreases |a|
  {
    if a == [] {
      assert a + b == b;
    } else {
      var x, rest := a[0], a[1..];
      assert a == [x] + rest;
      var v, mid := FirstOf(m, code, x, rest, env, mem, env1, mem1);
      RunsConcat(m, code, rest, b, env[x := v], mid, env1, mem1, env', mem');
      RunsOne(m, code, x, rest + b, env, mem, v, mid, env', mem');
      assert [x] + (rest + b) == a + b;
    }
  }

  lemma {:induction false} RunsSplit(m: Machine, code: map<Id, Instr>, a: seq<Id>, b: seq<Id>, env: map<Id, Word>,
                                     mem: Memory, env': map<Id, Word>, mem': Memory)
    returns (env1: map<Id, Word>, mem1: Memory)
    requires Runs(m, code, a + b, env, mem, env', mem')
    ensures Runs(m, code, a, env, mem, env1, mem1) && Runs(m, code, b, env1, mem1, env', mem')
    decreases |a|
  {
    if a == [] {
      assert a + b == b;
      env1, mem1 := env, mem;
    } else {
      var x, rest := a[0], a[1..];
      assert a == [x] + rest && a + b == [x] + (rest + b);
      var v, mid := FirstOf(m, code, x, rest + b, env, mem, env', mem');
      env1, mem1 := RunsSplit(m, code, rest, b, env[x := v], mid, env', mem');
      RunsOne(m, code, x, rest, env, mem, v, mid, env1, mem1);
    }
  }

  lemma {:induction false} QuietRuns(m: Machine, code: map<Id, Instr>, list: seq<Id>, env: map<Id, Word>, mem: Memory,
                                     env': map<Id, Word>, mem': Memory)
    requires Runs(m, code, list, env, mem, env', mem') && forall id | id in list :: id in code && Quiet(m, code[id])
    ensures mem' == mem
    decreases |list|
  {
    if list != [] {
      var x, rest := list[0], list[1..];
      assert list == [x] + rest;
      var v, mid := FirstOf(m, code, x, rest, env, mem, env', mem');
      assert x in list && forall id | id in rest :: id in list;
      QuietRuns(m, code, rest, env[x := v], mid, env', mem');
    }
  }

  // ----- The loop's parts

  lemma BodyParts(code: map<Id, Instr>, lp: Loop, base: Id)
    requires ValidLoop(code, lp, base)
    ensures Body(code, lp) == HeaderOps(code, lp) + LatchOps(code, lp)
    ensures Distinct(Body(code, lp)) && Distinct(HeaderOps(code, lp))
  {
    ClonedConcat(lp.header, lp.latchBlock, code);
    hide ClonedOnly;
    DistinctPrefix(HeaderOps(code, lp), LatchOps(code, lp));
  }

  lemma DistinctPrefix(a: seq<Id>, b: seq<Id>)
    ensures Distinct(a + b) ==> Distinct(a)
  {
    assert forall i | 0 <= i < |a| :: (a + b)[i] == a[i];
  }

  /** The bound and the phis are not assigned by the body. */
  lemma OutsideBody(code: map<Id, Instr>, lp: Loop, base: Id, x: Id)
    requires ValidLoop(code, lp, base) && (x in lp.phis || lp.bound == Inst(x))
    ensures x !in Body(code, lp) && x !in HeaderOps(code, lp) && x !in LatchOps(code, lp)
  {
    ValidLatches(code, lp, base);
    BodyParts(code, lp, base);
    hide Body, HeaderOps, LatchOps, InScope;
  }

  /** The word of the loop's bound. */
  ghost function Bound(m: Machine, lp: Loop, env: map<Id, Word>): Word {
    Fetch(lp.bound, env, m.params)
  }

  lemma BoundKept(m: Machine, lp: Loop, env: map<Id, Word>, env': map<Id, Word>)
    requires lp.bound.Inst?
             ==> (lp.bound.id in env <==> lp.bound.id in env')
                 && (lp.bound.id in env ==> env'[lp.bound.id] == env[lp.bound.id])
    ensures Bound(m, lp, env') == Bound(m, lp, env)
    ensures IR.Ready(lp.bound, env', m.params) <==> IR.Ready(lp.bound, env, m.params)
  {
  }

  ghost predicate PhisSet(lp: Loop, env: map<Id, Word>) {
    forall p | p in lp.phis :: p in env
  }

  /** The test: what the comparison in the header makes of the induction variable. */
  lemma HeaderTest(m: Machine, ar: Arith, code: map<Id, Instr>, lp: Loop, base: Id, env: map<Id, Word>, mem: Memory,
                   envh: map<Id, Word>, memh: Memory)
    requires ValidLoop(code, lp, base) && TestMeans(m, ar, lp) && WhileForm(m, ar, code, lp)
    requires Runs(m, code, HeaderOps(code, lp), env, mem, envh, memh) && PhisSet(lp, env)
    ensures memh == mem && lp.cond in envh && IR.Ready(lp.bound, env, m.params)
    ensures envh[lp.cond].bits != 0 <==> ar.holds(env[lp.iv], Bound(m, lp, env))
  {
    hide *;
    WhileParts(m, ar, code, lp);
    PhisIn(lp, env, lp.iv);
    var ops := HeaderOps(code, lp);
    QuietRuns(m, code, ops, env, mem, envh, memh);
    BodyParts(code, lp, base);
    ValidLatches(code, lp, base);
    OutsideBody(code, lp, base, lp.iv);
    if lp.bound.Inst? { OutsideBound(code, lp, base); }
    var k := PositionIn(ops, lp.cond);
    var envk, memk, v, memk' := RunsAt(m, code, ops, k, env, mem, envh, memh);
    CompareRuns(m, ar, lp, code[lp.cond], envk, memk, v, memk');
    BoundKept(m, lp, env, envk);
  }

  lemma OutsideBound(code: map<Id, Instr>, lp: Loop, base: Id)
    requires ValidLoop(code, lp, base) && lp.bound.Inst?
    ensures lp.bound.id !in Body(code, lp) && lp.bound.id !in HeaderOps(code, lp) && lp.bound.id !in lp.phis
    ensures lp.bound.id < base
  {
    OutsideBody(code, lp, base, lp.bound.id);
  }

  lemma PhisIn(lp: Loop, env: map<Id, Word>, p: Id)
    requires PhisSet(lp, env)
    ensures p in lp.phis ==> p in env
  {
  }

  lemma WhileParts(m: Machine, ar: Arith, code: map<Id, Instr>, lp: Loop)
    requires WhileForm(m, ar, code, lp)
    ensures lp.cond in HeaderOps(code, lp) && lp.cond in code
    ensures code[lp.cond].op == lp.cmp && code[lp.cond].operands == [Inst(lp.iv), lp.bound]
    ensures lp.iv in lp.latch && lp.latch[lp.iv].Inst? && lp.latch[lp.iv].id in Body(code, lp)
    ensures lp.latch[lp.iv].id in code
    ensures StepMeans(m, ar, code[lp.latch[lp.iv].id], lp.iv)
    ensures forall id | id in HeaderOps(code, lp) :: id in code && Quiet(m, code[id])
  {
    hide HeaderOps, Body, StepMeans, Quiet;
  }

  lemma CompareRuns(m: Machine, ar: Arith, lp: Loop, instr: Instr, env: map<Id, Word>, mem: Memory, v: Word,
                    mem': Memory)
    requires TestMeans(m, ar, lp) && instr.op == lp.cmp && instr.operands == [Inst(lp.iv), lp.bound]
    requires OpRuns(m, instr, env, mem, v, mem')
    ensures lp.iv in env && IR.Ready(lp.bound, env, m.params)
    ensures v.bits != 0 <==> ar.holds(env[lp.iv], Bound(m, lp, env))
  {
    assert IR.Ready(instr.operands[0], env, m.params) && IR.Ready(instr.operands[1], env, m.params);
    assert FetchAll(instr.operands, env, m.params) == [env[lp.iv], Bound(m, lp, env)];
    hide Fetch;
  }

  // ----- One round, the last test

  lemma LatchStep(m: Machine, ar: Arith, code: map<Id, Instr>, lp: Loop, base: Id, env: map<Id, Word>, mem: Memory,
                  env1: map<Id, Word>, mem1: Memory)
    requires ValidLoop(code, lp, base) && WhileForm(m, ar, code, lp) && PhisSet(lp, env)
    requires Runs(m, code, Body(code, lp), env, mem, env1, mem1)
    ensures lp.iv in env && Fetch(lp.latch[lp.iv], env1, m.params) == ar.next(env[lp.iv])
    ensures lp.bound.Inst?
            ==> (lp.bound.id in env <==> lp.bound.id in env1)
                && (lp.bound.id in env ==> env1[lp.bound.id] == env[lp.bound.id])
  {
    hide *;
    WhileParts(m, ar, code, lp);
    ValidLatches(code, lp, base);
    PhisIn(lp, env, lp.iv);
    OutsideBody(code, lp, base, lp.iv);
    BodyParts(code, lp, base);
    var id := lp.latch[lp.iv].id;
    var k := PositionIn(Body(code, lp), id);
    var envk, memk, v, memk' := RunsAt(m, code, Body(code, lp), k, env, mem, env1, mem1);
    StepRuns(m, ar, code[id], lp.iv, envk, memk, v, memk');
    FetchInst(m, env1, id);
    if lp.bound.Inst? {
      OutsideBound(code, lp, base);
      OutsideRuns(m, code, Body(code, lp), env, mem, env1, mem1, lp.bound.id);
    }
  }

  lemma StepRuns(m: Machine, ar: Arith, instr: Instr, iv: Id, env: map<Id, Word>, mem: Memory, v: Word, mem': Memory)
    requires StepMeans(m, ar, instr, iv) && OpRuns(m, instr, env, mem, v, mem')
    ensures iv in env && v == ar.next(env[iv])
  {
    hide OpRuns;
  }

  lemma FetchInst(m: Machine, env: map<Id, Word>, id: Id)
    requires id in env
    ensures Fetch(Inst(id), env, m.params) == env[id]
  {
  }

  lemma NextPhisAre(m: Machine, lp: Loop, env: map<Id, Word>)
    requires forall p | p in lp.phis :: p in lp.latch
    ensures PhisSet(lp, NextPhis(m, lp, env))
    ensures forall p | p in lp.phis ::
              p in NextPhis(m, lp, env) && NextPhis(m, lp, env)[p] == Fetch(lp.latch[p], env, m.params)
    ensures forall x: Id | x !in lp.phis ::
              (x in NextPhis(m, lp, env) <==> x in env) && (x in env ==> NextPhis(m, lp, env)[x] == env[x])
  {
    hide Fetch;
  }

  lemma RoundsParts(m: Machine, code: map<Id, Instr>, lp: Loop, n: nat, env: map<Id, Word>, mem: Memory,
                    envX: map<Id, Word>, memX: Memory)
    returns (envh: map<Id, Word>, memh: Memory, env1: map<Id, Word>, mem1: Memory)
    requires Rounds(m, code, lp, n, env, mem, envX, memX)
    ensures Runs(m, code, HeaderOps(code, lp), env, mem, envh, memh) && lp.cond in envh
    ensures n == 0 ==> envh[lp.cond].bits == 0 && envX == envh && memX == memh
    ensures n > 0 ==>
              && envh[lp.cond].bits != 0 && Runs(m, code, LatchOps(code, lp), envh, memh, env1, mem1)
              && LatchesReady(m, lp, env1) && (forall p | p in lp.phis :: p in lp.latch)
              && Rounds(m, code, lp, n - 1, NextPhis(m, lp, env1), mem1, envX, memX)
  {
    hide Runs, HeaderOps, LatchOps, NextPhis;
    envh, memh :| Runs(m, code, HeaderOps(code, lp), env, mem, envh, memh) && lp.cond in envh
      && if n == 0 then envh[lp.cond].bits == 0 && envX == envh && memX == memh
         else envh[lp.cond].bits != 0 && Round(m, code, lp, n, envh, memh, envX, memX);
    env1, mem1 := env, mem;
    if n > 0 {
      env1, mem1 :| Runs(m, code, LatchOps(code, lp), envh, memh, env1, mem1)
        && LatchesReady(m, lp, env1)
        && Rounds(m, code, lp, n - 1, NextPhis(m, lp, env1), mem1, envX, memX);
    }
  }

  /** One time round. */
  lemma OneRound(m: Machine, ar: Arith, code: map<Id, Instr>, lp: Loop, base: Id, n: nat, env: map<Id, Word>,
                 mem: Memory, envX: map<Id, Word>, memX: Memory)
    returns (env1: map<Id, Word>, mem1: Memory)
    requires ValidLoop(code, lp, base) && TestMeans(m, ar, lp) && WhileForm(m, ar, code, lp) && PhisSet(lp, env)
    requires n > 0 && Rounds(m, code, lp, n, env, mem, envX, memX)
    ensures Runs(m, code, Body(code, lp), env, mem, env1, mem1) && LatchesReady(m, lp, env1)
    ensures forall p | p in lp.phis :: p in lp.latch
    ensures Rounds(m, code, lp, n - 1, NextPhis(m, lp, env1), mem1, envX, memX) && PhisSet(lp, NextPhis(m, lp, env1))
    ensures lp.iv in env && ar.holds(env[lp.iv], Bound(m, lp, env)) && IR.Ready(lp.bound, env, m.params)
    ensures lp.iv in NextPhis(m, lp, env1) && NextPhis(m, lp, env1)[lp.iv] == ar.next(env[lp.iv])
    ensures Bound(m, lp, NextPhis(m, lp, env1)) == Bound(m, lp, env)
  {
    hide *;
    ValidLatches(code, lp, base);
    PhisIn(lp, env, lp.iv);
    var envh, memh;
    envh, memh, env1, mem1 := RoundsParts(m, code, lp, n, env, mem, envX, memX);
    HeaderTest(m, ar, code, lp, base, env, mem, envh, memh);
    BodyParts(code, lp, base);
    RunsConcat(m, code, HeaderOps(code, lp), LatchOps(code, lp), env, mem, envh, memh, env1, mem1);
    LatchStep(m, ar, code, lp, base, env, mem, env1, mem1);
    NextPhisAre(m, lp, env1);
    if lp.bound.Inst? { OutsideBound(code, lp, base); }
    BoundKept(m, lp, env, NextPhis(m, lp, env1));
  }

  /** The test that fails. */
  lemma LastRound(m: Machine, ar: Arith, code: map<Id, Instr>, lp: Loop, base: Id, env: map<Id, Word>, mem: Memory,
                  envX: map<Id, Word>, memX: Memory)
    requires ValidLoop(code, lp, base) && TestMeans(m, ar, lp) && WhileForm(m, ar, code, lp) && PhisSet(lp, env)
    requires Rounds(m, code, lp, 0, env, mem, envX, memX)
    ensures memX == mem && lp.iv in env && !ar.holds(env[lp.iv], Bound(m, lp, env)) && IR.Ready(lp.bound, env, m.params)
    ensures forall p | p in lp.phis :: p in env && p in envX && envX[p] == env[p]
    ensures Bound(m, lp, envX) == Bound(m, lp, env)
  {
    hide *;
    ValidLatches(code, lp, base);
    PhisIn(lp, env, lp.iv);
    var envh, memh, env1, mem1 := RoundsParts(m, code, lp, 0, env, mem, envX, memX);
    HeaderTest(m, ar, code, lp, base, env, mem, envh, memh);
    forall p | p in lp.phis
      ensures p in env && p in envX && envX[p] == env[p]
    {
      PhisIn(lp, env, p);
      OutsideBody(code, lp, base, p);
      OutsideRuns(m, code, HeaderOps(code, lp), env, mem, envh, memh, p);
    }
    if lp.bound.Inst? {
      OutsideBound(code, lp, base);
      OutsideRuns(m, code, HeaderOps(code, lp), env, mem, envh, memh, lp.bound.id);
    }
    BoundKept(m, lp, env, envX);
  }

  // ----- The new tests

  ghost predicate Setting(m: Machine, ar: Arith, code: map<Id, Instr>, lp: Loop, u: Unrolled, base: Id, block: BlockId)
  {
    && ValidLoop(code, lp, base) && IsUnrolling(code, lp, u, base, block)
    && AddMeans(m, ar, lp) && TestMeans(m, ar, lp) && WhileForm(m, ar, code, lp)
  }

  lemma SettingParts(m: Machine, ar: Arith, code: map<Id, Instr>, lp: Loop, u: Unrolled, base: Id, block: BlockId)
    requires Setting(m, ar, code, lp, u, base, block)
    ensures ValidLoop(code, lp, base) && IsUnrolling(code, lp, u, base, block)
    ensures AddMeans(m, ar, lp) && TestMeans(m, ar, lp) && WhileForm(m, ar, code, lp)
    ensures forall p | p in lp.phis :: p in lp.latch && p in u.uPhi && p in u.epiPhi && p in u.back
    ensures forall p | p in lp.phis :: p in Insts(u.uPhi) && p in Insts(u.epiPhi)
    ensures FreshPhis(lp.phis, u.uPhi, base, u.addStep) && base <= u.addStep < u.cond2x < u.first0
    ensures u.first1 == u.first0 + |Body(code, lp)| && u.first1 + |Body(code, lp)| <= u.condEpi < u.firstEpi
    ensures FreshPhis(lp.phis, u.epiPhi, u.first1 + |Body(code, lp)|, u.condEpi)
    ensures lp.iv in lp.phis
  {
    SettingSplit(m, ar, code, lp, u, base, block);
    hide *;
    ValidLatches(code, lp, base);
    UnrollingParts(code, lp, u, base, block);
    IvMapped(lp, u.uPhi, base, u.addStep);
    IvMapped(lp, u.epiPhi, u.first1 + |Body(code, lp)|, u.condEpi);
    forall p | p in lp.phis
      ensures p in Insts(u.uPhi) && p in Insts(u.epiPhi)
    {
      InstsAt(u.uPhi, p);
      InstsAt(u.epiPhi, p);
    }
  }

  lemma SettingSplit(m: Machine, ar: Arith, code: map<Id, Instr>, lp: Loop, u: Unrolled, base: Id, block: BlockId)
    requires Setting(m, ar, code, lp, u, base, block)
    ensures ValidLoop(code, lp, base) && IsUnrolling(code, lp, u, base, block)
    ensures AddMeans(m, ar, lp) && TestMeans(m, ar, lp) && WhileForm(m, ar, code, lp)
  {
  }

  lemma UnrollingParts(code: map<Id, Instr>, lp: Loop, u: Unrolled, base: Id, block: BlockId)
    requires IsUnrolling(code, lp, u, base, block)
    ensures forall p | p in lp.phis :: p in lp.latch && p in u.back
    ensures FreshPhis(lp.phis, u.uPhi, base, u.addStep) && base <= u.addStep < u.cond2x < u.first0
    ensures u.first1 == u.first0 + |Body(code, lp)| && u.first1 + |Body(code, lp)| <= u.condEpi < u.firstEpi
    ensures FreshPhis(lp.phis, u.epiPhi, u.first1 + |Body(code, lp)|, u.condEpi) && lp.iv in lp.phis
  {
    hide AreClones, FreshPhis, Body, LatchInLoop, MapAfter, Mapped, Map0, Map1, MapEpi;
  }

  /** The tests the unroller put in. */
  lemma UnrollingTests(code: map<Id, Instr>, lp: Loop, u: Unrolled, base: Id, block: BlockId)
    requires IsUnrolling(code, lp, u, base, block) && lp.iv in u.uPhi && lp.iv in u.epiPhi
    ensures u.addStep in u.code
    ensures u.code[u.addStep] == Instr(Add, lp.ivType, [Inst(u.uPhi[lp.iv]), Cst(lp.step)], block)
    ensures u.cond2x in u.code && u.code[u.cond2x] == Instr(lp.cmp, 1, [Inst(u.addStep), lp.bound], block)
    ensures u.condEpi in u.code && u.code[u.condEpi] == Instr(lp.cmp, 1, [Inst(u.epiPhi[lp.iv]), lp.bound], block)
  {
    hide AreClones, FreshPhis, Body, LatchInLoop, MapAfter, Mapped, Map0, Map1, MapEpi, Layout;
  }

  /** The bodies, and what the phis receive behind them. */
  lemma UnrollingBodies(code: map<Id, Instr>, lp: Loop, u: Unrolled, base: Id, block: BlockId)
    requires IsUnrolling(code, lp, u, base, block)
    requires forall p | p in lp.phis ::
               p in Insts(u.uPhi) && p in Insts(u.epiPhi) && p in u.back && p in lp.latch && p in u.uPhi
                  && p in u.epiPhi
    ensures var body := Body(code, lp);
            var map0 := PhiMap(lp.phis, Insts(u.uPhi));
            var vals0 := LatchValues(lp, MapAfter(map0, body, u.first0));
            && AreClones(code, u.code, map0, body, u.first0, block)
            && (forall p | p in lp.phis :: p in vals0)
            && AreClones(code, u.code, PhiMap(lp.phis, vals0), body, u.first1, block)
            && AreClones(code, u.code, PhiMap(lp.phis, Insts(u.epiPhi)), body, u.firstEpi, block)
            && (forall p | p in lp.phis ::
                  u.back[p] == Mapped(MapAfter(PhiMap(lp.phis, vals0), body, u.first1), lp.latch[p]))
            && (forall p | p in lp.phis ::
                  && FinalPhi(u, false, p) == Some(Inst(u.epiPhi[p]))
                  && FinalPhi(u, true, p) ==
                       if LatchInLoop(code, lp, p) then
                         Some(Mapped(MapAfter(PhiMap(lp.phis, Insts(u.epiPhi)), body, u.firstEpi), lp.latch[p]))
                       else None)
  {
    LatchValuesDefined(lp, MapAfter(PhiMap(lp.phis, Insts(u.uPhi)), Body(code, lp), u.first0));
    hide AreClones, FreshPhis, Body, LatchInLoop, MapAfter, Mapped, PhiMap, Layout, LatchValues, Insts;
  }

  lemma MapsBelowPhis(phis: seq<Id>, dst: map<Id, Id>, lo: Id, hi: Id)
    requires FreshPhis(phis, dst, lo, hi) && forall p | p in phis :: p in Insts(dst)
    ensures MapsBelow(PhiMap(phis, Insts(dst)), hi)
  {
    forall v | v in PhiMap(phis, Insts(dst))
      ensures v.Inst? && PhiMap(phis, Insts(dst))[v].Some? && Mapped(PhiMap(phis, Insts(dst)), v).Inst?
      ensures Mapped(PhiMap(phis, Insts(dst)), v).id < hi
    {
      PhiMapAt(phis, Insts(dst), v);
    }
  }

  /** One operation, seen from outside: its result is recorded, and nothing else changes. */
  lemma OneRuns(m: Machine, code: map<Id, Instr>, id: Id, env: map<Id, Word>, mem: Memory, v: Word, mem': Memory)
    requires id in code
    ensures OpRuns(m, code[id], env, mem, v, mem') ==> Runs(m, code, [id], env, mem, env[id := v], mem')
  {
    if OpRuns(m, code[id], env, mem, v, mem') {
      assert [id] + [] == [id];
      RunsNothing(m, code, env[id := v], mem', env[id := v], mem');
      RunsOne(m, code, id, [], env, mem, v, mem', env[id := v], mem');
    }
  }

  lemma OneRan(m: Machine, code: map<Id, Instr>, id: Id, env: map<Id, Word>, mem: Memory, env': map<Id, Word>,
               mem': Memory)
    returns (v: Word)
    requires Runs(m, code, [id], env, mem, env', mem')
    ensures id in code && OpRuns(m, code[id], env, mem, v, mem') && env' == env[id := v]
  {
    assert [id] + [] == [id];
    var mid;
    v, mid := FirstOf(m, code, id, [], env, mem, env', mem');
    RunsNothing(m, code, env[id := v], mid, env', mem');
  }

  lemma CompareOp(m: Machine, ar: Arith, lp: Loop, iv: Id, block: BlockId, env: map<Id, Word>, mem: Memory)
    requires TestMeans(m, ar, lp) && iv in env && IR.Ready(lp.bound, env, m.params)
    ensures exists v: Word :: OpRuns(m, Instr(lp.cmp, 1, [Inst(iv), lp.bound], block), env, mem, v, mem)
    ensures forall v: Word, mem': Memory
            | OpRuns(m, Instr(lp.cmp, 1, [Inst(iv), lp.bound], block), env, mem, v, mem') ::
              mem' == mem && (v.bits != 0 <==> ar.holds(env[iv], Bound(m, lp, env)))
  {
    var operands := [Inst(iv), lp.bound];
    var args := FetchAll(operands, env, m.params);
    assert args == [env[iv], Bound(m, lp, env)];
    assert AllReady(operands, env, m.params);
    hide Fetch, FetchAll;
    assert Testable(m, lp, env[iv], Bound(m, lp, env), mem);
    var v: Word :| m.sem(lp.cmp, 1, [env[iv], Bound(m, lp, env)], mem, v, mem);
    assert OpRuns(m, Instr(lp.cmp, 1, operands, block), env, mem, v, mem);
  }

  lemma AddOp(m: Machine, ar: Arith, lp: Loop, iv: Id, block: BlockId, env: map<Id, Word>, mem: Memory)
    requires AddMeans(m, ar, lp) && iv in env
    ensures OpRuns(m, Instr(Add, lp.ivType, [Inst(iv), Cst(lp.step)], block), env, mem, ar.next(env[iv]), mem)
    ensures forall v: Word, mem': Memory
            | OpRuns(m, Instr(Add, lp.ivType, [Inst(iv), Cst(lp.step)], block), env, mem, v, mem') ::
              mem' == mem && v == ar.next(env[iv])
  {
    var operands := [Inst(iv), Cst(lp.step)];
    assert FetchAll(operands, env, m.params) == [env[iv], lp.step];
    assert AllReady(operands, env, m.params);
  }

  /** What is known where the unrolled loop tests: the new phis and the bound correspond. */
  lemma TestReady(m: Machine, lp: Loop, base: Id, rest: seq<Id>, dst: map<Id, Id>, env: map<Id, Word>,
                  env2: map<Id, Word>)
    requires (forall p | p in lp.phis :: p in Insts(dst) && p in dst) && lp.iv in lp.phis && lp.iv in env
    requires Corresponds(m.params, base, rest, PhiMap(lp.phis, Insts(dst)), env, env2)
    requires lp.iv < base && lp.iv !in rest && IR.Ready(lp.bound, env, m.params)
    requires lp.bound.Inst? ==> lp.bound.id < base && lp.bound.id !in rest && lp.bound.id !in lp.phis
    ensures dst[lp.iv] in env2 && env2[dst[lp.iv]] == env[lp.iv]
    ensures IR.Ready(lp.bound, env2, m.params) && Bound(m, lp, env2) == Bound(m, lp, env)
  {
    CorrespondsAt(m.params, base, rest, PhiMap(lp.phis, Insts(dst)), env, env2, lp.iv);
    MappedPhi(lp.phis, Insts(dst), lp.iv);
    if lp.bound.Inst? {
      CorrespondsAt(m.params, base, rest, PhiMap(lp.phis, Insts(dst)), env, env2, lp.bound.id);
      MappedPhi(lp.phis, Insts(dst), lp.bound.id);
    }
    hide PhiMap, Corresponds;
  }

  /** The loop stands before its header and the unrolled loop before its own, with the same values. */
  ghost predicate Matched(m: Machine, code: map<Id, Instr>, lp: Loop, dst: map<Id, Id>, base: Id,
                          env: map<Id, Word>, env2: map<Id, Word>)
    requires forall p | p in lp.phis :: p in Insts(dst)
  {
    PhisSet(lp, env) && Corresponds(m.params, base, Body(code, lp), PhiMap(lp.phis, Insts(dst)), env, env2)
  }

  lemma MatchedKept(m: Machine, code: map<Id, Instr>, lp: Loop, dst: map<Id, Id>, base: Id, lo: Id, limit: Id,
                    env: map<Id, Word>, env2: map<Id, Word>, c: Id, w: Word)
    requires (forall p | p in lp.phis :: p in Insts(dst)) && Matched(m, code, lp, dst, base, env, env2)
    requires FreshPhis(lp.phis, dst, lo, limit) && base <= c && limit <= c
    ensures Matched(m, code, lp, dst, base, env, env2[c := w])
  {
    hide Body, Corresponds, PhiMap, MapsBelow, FreshPhis;
    MapsBelowPhis(lp.phis, dst, lo, limit);
    Harmless(m.params, base, Body(code, lp), PhiMap(lp.phis, Insts(dst)), limit, env, env2, c, w);
  }

  /** What the new tests see. */
  lemma MatchedTest(m: Machine, code: map<Id, Instr>, lp: Loop, dst: map<Id, Id>, base: Id,
                    env: map<Id, Word>, env2: map<Id, Word>)
    requires ValidLoop(code, lp, base) && forall p | p in lp.phis :: p in Insts(dst) && p in dst
    requires Matched(m, code, lp, dst, base, env, env2) && IR.Ready(lp.bound, env, m.params)
    ensures lp.iv in env && lp.iv in dst && dst[lp.iv] in env2 && env2[dst[lp.iv]] == env[lp.iv]
    ensures IR.Ready(lp.bound, env2, m.params) && Bound(m, lp, env2) == Bound(m, lp, env)
  {
    MatchedParts(m, code, lp, dst, base, env, env2);
    hide *;
    ValidLatches(code, lp, base);
    PhisIn(lp, env, lp.iv);
    if lp.bound.Inst? { OutsideBound(code, lp, base); }
    TestReady(m, lp, base, Body(code, lp), dst, env, env2);
  }

  lemma MatchedParts(m: Machine, code: map<Id, Instr>, lp: Loop, dst: map<Id, Id>, base: Id,
                     env: map<Id, Word>, env2: map<Id, Word>)
    requires (forall p | p in lp.phis :: p in Insts(dst)) && Matched(m, code, lp, dst, base, env, env2)
    ensures PhisSet(lp, env) && Corresponds(m.params, base, Body(code, lp), PhiMap(lp.phis, Insts(dst)), env, env2)
  {
    hide Corresponds, Body;
  }

  lemma BoundBelow(m: Machine, code: map<Id, Instr>, lp: Loop, base: Id, env: map<Id, Word>, c: Id, w: Word)
    requires ValidLoop(code, lp, base) && base <= c && IR.Ready(lp.bound, env, m.params)
    ensures IR.Ready(lp.bound, env[c := w], m.params) && Bound(m, lp, env[c := w]) == Bound(m, lp, env)
  {
    if lp.bound.Inst? { OutsideBound(code, lp, base); }
    hide ValidLoop;
    BoundKept(m, lp, env, env[c := w]);
  }

  /** The doubled test can be run, and holds where the loop would go round once more after this round. */
  lemma DoubleTest(m: Machine, ar: Arith, code: map<Id, Instr>, lp: Loop, u: Unrolled, base: Id, block: BlockId,
                   env: map<Id, Word>, env2: map<Id, Word>, mem: Memory) returns (envt: map<Id, Word>)
    requires Setting(m, ar, code, lp, u, base, block) && forall p | p in lp.phis :: p in Insts(u.uPhi)
    requires Matched(m, code, lp, u.uPhi, base, env, env2) && IR.Ready(lp.bound, env, m.params)
    ensures Runs(m, u.code, [u.addStep, u.cond2x], env2, mem, envt, mem) && u.cond2x in envt && lp.iv in env
    ensures envt[u.cond2x].bits != 0 <==> ar.holds(ar.next(env[lp.iv]), Bound(m, lp, env))
    ensures Matched(m, code, lp, u.uPhi, base, env, envt)
  {
    hide *;
    SettingParts(m, ar, code, lp, u, base, block);
    MatchedTest(m, code, lp, u.uPhi, base, env, env2);
    UnrollingTests(code, lp, u, base, block);
    var iv := u.uPhi[lp.iv];
    AddOp(m, ar, lp, iv, block, env2, mem);
    OneRuns(m, u.code, u.addStep, env2, mem, ar.next(env2[iv]), mem);
    var env3 := env2[u.addStep := ar.next(env2[iv])];
    MatchedKept(m, code, lp, u.uPhi, base, base, u.addStep, env, env2, u.addStep, ar.next(env2[iv]));
    BoundBelow(m, code, lp, base, env2, u.addStep, ar.next(env2[iv]));
    CompareOp(m, ar, lp, u.addStep, block, env3, mem);
    var v: Word :| OpRuns(m, Instr(lp.cmp, 1, [Inst(u.addStep), lp.bound], block), env3, mem, v, mem);
    OneRuns(m, u.code, u.cond2x, env3, mem, v, mem);
    envt := env3[u.cond2x := v];
    MatchedKept(m, code, lp, u.uPhi, base, base, u.addStep, env, env3, u.cond2x, v);
    RunsConcat(m, u.code, [u.addStep], [u.cond2x], env2, mem, env3, mem, envt, mem);
    assert [u.addStep] + [u.cond2x] == [u.addStep, u.cond2x];
  }

  /** However it is run, it says the same. */
  lemma DoubleTested(m: Machine, ar: Arith, code: map<Id, Instr>, lp: Loop, u: Unrolled, base: Id, block: BlockId,
                     env: map<Id, Word>, env2: map<Id, Word>, mem: Memory, envt: map<Id, Word>, memt: Memory)
    requires Setting(m, ar, code, lp, u, base, block) && forall p | p in lp.phis :: p in Insts(u.uPhi)
    requires Matched(m, code, lp, u.uPhi, base, env, env2) && IR.Ready(lp.bound, env, m.params)
    requires Runs(m, u.code, [u.addStep, u.cond2x], env2, mem, envt, memt)
    ensures memt == mem && u.cond2x in envt && lp.iv in env
    ensures envt[u.cond2x].bits != 0 <==> ar.holds(ar.next(env[lp.iv]), Bound(m, lp, env))
    ensures Matched(m, code, lp, u.uPhi, base, env, envt)
  {
    hide *;
    SettingParts(m, ar, code, lp, u, base, block);
    MatchedTest(m, code, lp, u.uPhi, base, env, env2);
    UnrollingTests(code, lp, u, base, block);
    var iv := u.uPhi[lp.iv];
    assert [u.addStep] + [u.cond2x] == [u.addStep, u.cond2x];
    var env3, mem3 := RunsSplit(m, u.code, [u.addStep], [u.cond2x], env2, mem, envt, memt);
    var w := OneRan(m, u.code, u.addStep, env2, mem, env3, mem3);
    AddOp(m, ar, lp, iv, block, env2, mem);
    MatchedKept(m, code, lp, u.uPhi, base, base, u.addStep, env, env2, u.addStep, w);
    BoundBelow(m, code, lp, base, env2, u.addStep, w);
    var v := OneRan(m, u.code, u.cond2x, env3, mem3, envt, memt);
    CompareOp(m, ar, lp, u.addStep, block, env3, mem);
    MatchedKept(m, code, lp, u.uPhi, base, base, u.addStep, env, env3, u.cond2x, v);
  }

  /** The epilogue's phis take over. */
  lemma EpiloguePhis(m: Machine, ar: Arith, code: map<Id, Instr>, lp: Loop, u: Unrolled, base: Id, block: BlockId,
                     env: map<Id, Word>, env2: map<Id, Word>)
    requires Setting(m, ar, code, lp, u, base, block)
    requires forall p | p in lp.phis :: p in Insts(u.uPhi) && p in Insts(u.epiPhi)
    requires forall p | p in lp.phis :: p in u.epiPhi
    requires Matched(m, code, lp, u.uPhi, base, env, env2)
    ensures AllAssignable(m.params, lp.phis, u.epiPhi, Insts(u.uPhi), env2)
    ensures Matched(m, code, lp, u.epiPhi, base, env, AssignAll(m.params, lp.phis, u.epiPhi, Insts(u.uPhi), env2))
  {
    hide *;
    SettingParts(m, ar, code, lp, u, base, block);
    ValidLatches(code, lp, base);
    MatchedParts(m, code, lp, u.uPhi, base, env, env2);
    forall p | p in lp.phis
      ensures p in env
    {
      PhisIn(lp, env, p);
    }
    Renamed(m.params, base, Body(code, lp), lp.phis, Insts(u.uPhi), u.epiPhi, u.first1 + |Body(code, lp)|, u.condEpi,
            env, env2);
    AsMatched(m, code, lp, u.epiPhi, base, env, AssignAll(m.params, lp.phis, u.epiPhi, Insts(u.uPhi), env2));
  }

  lemma AsMatched(m: Machine, code: map<Id, Instr>, lp: Loop, dst: map<Id, Id>, base: Id,
                  env: map<Id, Word>, env2: map<Id, Word>)
    requires (forall p | p in lp.phis :: p in Insts(dst)) && PhisSet(lp, env)
    requires Corresponds(m.params, base, Body(code, lp), PhiMap(lp.phis, Insts(dst)), env, env2)
    ensures Matched(m, code, lp, dst, base, env, env2)
  {
    hide Corresponds, Body;
  }

  /** The epilogue's test, which is the loop's. */
  lemma EpilogueTest(m: Machine, ar: Arith, code: map<Id, Instr>, lp: Loop, u: Unrolled, base: Id, block: BlockId,
                     env: map<Id, Word>, env2: map<Id, Word>, mem: Memory) returns (envt: map<Id, Word>)
    requires Setting(m, ar, code, lp, u, base, block) && forall p | p in lp.phis :: p in Insts(u.epiPhi)
    requires Matched(m, code, lp, u.epiPhi, base, env, env2) && IR.Ready(lp.bound, env, m.params)
    ensures Runs(m, u.code, [u.condEpi], env2, mem, envt, mem) && u.condEpi in envt && lp.iv in env
    ensures envt[u.condEpi].bits != 0 <==> ar.holds(env[lp.iv], Bound(m, lp, env))
    ensures Matched(m, code, lp, u.epiPhi, base, env, envt)
  {
    hide *;
    SettingParts(m, ar, code, lp, u, base, block);
    MatchedTest(m, code, lp, u.epiPhi, base, env, env2);
    UnrollingTests(code, lp, u, base, block);
    var iv := u.epiPhi[lp.iv];
    CompareOp(m, ar, lp, iv, block, env2, mem);
    var v: Word :| OpRuns(m, Instr(lp.cmp, 1, [Inst(iv), lp.bound], block), env2, mem, v, mem);
    OneRuns(m, u.code, u.condEpi, env2, mem, v, mem);
    envt := env2[u.condEpi := v];
    MatchedKept(m, code, lp, u.epiPhi, base, u.first1 + |Body(code, lp)|, u.condEpi, env, env2, u.condEpi, v);
  }

  lemma EpilogueTested(m: Machine, ar: Arith, code: map<Id, Instr>, lp: Loop, u: Unrolled, base: Id, block: BlockId,
                       env: map<Id, Word>, env2: map<Id, Word>, mem: Memory, envt: map<Id, Word>, memt: Memory)
    requires Setting(m, ar, code, lp, u, base, block) && forall p | p in lp.phis :: p in Insts(u.epiPhi)
    requires Matched(m, code, lp, u.epiPhi, base, env, env2) && IR.Ready(lp.bound, env, m.params)
    requires Runs(m, u.code, [u.condEpi], env2, mem, envt, memt)
    ensures memt == mem && u.condEpi in envt && lp.iv in env
    ensures envt[u.condEpi].bits != 0 <==> ar.holds(env[lp.iv], Bound(m, lp, env))
    ensures Matched(m, code, lp, u.epiPhi, base, env, envt)
  {
    hide *;
    SettingParts(m, ar, code, lp, u, base, block);
    MatchedTest(m, code, lp, u.epiPhi, base, env, env2);
    UnrollingTests(code, lp, u, base, block);
    var v := OneRan(m, u.code, u.condEpi, env2, mem, envt, memt);
    CompareOp(m, ar, lp, u.epiPhi[lp.iv], block, env2, mem);
    MatchedKept(m, code, lp, u.epiPhi, base, u.first1 + |Body(code, lp)|, u.condEpi, env, env2, u.condEpi, v);
  }

  // ----- Bodies

  /** A cloned body follows the original. */
  lemma BodyFollows(m: Machine, code: map<Id, Instr>, code': map<Id, Instr>, lp: Loop, to: map<Id, Value>, base: Id,
                    first: Id, block: BlockId, env: map<Id, Word>, mem: Memory, env1: map<Id, Word>, mem1: Memory,
                    env2: map<Id, Word>) returns (env3: map<Id, Word>)
    requires ValidLoop(code, lp, base) && (forall p | p in lp.phis :: p in to) && base <= first
    requires AreClones(code, code', PhiMap(lp.phis, to), Body(code, lp), first, block)
    requires MapsBelow(PhiMap(lp.phis, to), first)
    requires Corresponds(m.params, base, Body(code, lp), PhiMap(lp.phis, to), env, env2)
    requires Runs(m, code, Body(code, lp), env, mem, env1, mem1)
    ensures Runs(m, code', Ids(first, |Body(code, lp)|), env2, mem, env3, mem1)
    ensures Corresponds(m.params, base, [], MapAfter(PhiMap(lp.phis, to), Body(code, lp), first), env1, env3)
    ensures MapsBelow(MapAfter(PhiMap(lp.phis, to), Body(code, lp), first), first + |Body(code, lp)|)
  {
    ValidLatches(code, lp, base);
    hide *;
    env3 := Substitution(m, code, code', PhiMap(lp.phis, to), Body(code, lp), base, first, block, env, mem, env1, mem1,
                         env2);
  }

  /** The original follows a cloned body. */
  lemma BodyLeads(m: Machine, code: map<Id, Instr>, code': map<Id, Instr>, lp: Loop, to: map<Id, Value>, base: Id,
                  first: Id, block: BlockId, env: map<Id, Word>, mem: Memory, env2: map<Id, Word>, env3: map<Id, Word>,
                  mem1: Memory) returns (env1: map<Id, Word>)
    requires ValidLoop(code, lp, base) && (forall p | p in lp.phis :: p in to) && base <= first
    requires AreClones(code, code', PhiMap(lp.phis, to), Body(code, lp), first, block)
    requires MapsBelow(PhiMap(lp.phis, to), first)
    requires Corresponds(m.params, base, Body(code, lp), PhiMap(lp.phis, to), env, env2)
    requires Runs(m, code', Ids(first, |Body(code, lp)|), env2, mem, env3, mem1)
    ensures Runs(m, code, Body(code, lp), env, mem, env1, mem1)
    ensures Corresponds(m.params, base, [], MapAfter(PhiMap(lp.phis, to), Body(code, lp), first), env1, env3)
    ensures MapsBelow(MapAfter(PhiMap(lp.phis, to), Body(code, lp), first), first + |Body(code, lp)|)
  {
    ValidLatches(code, lp, base);
    hide *;
    env1 := SubstitutionBack(m, code, code', PhiMap(lp.phis, to), Body(code, lp), base, first, block, env, mem, env2,
                             env3, mem1);
  }

  /** Latch values known after a body below the limit are below it. */
  lemma LatchMapBelow(code: map<Id, Instr>, lp: Loop, full: ValueMap, base: Id, limit: Id)
    requires ValidLoop(code, lp, base) && MapsBelow(full, limit) && base <= limit
    requires forall p | p in lp.phis :: p in LatchValues(lp, full)
    ensures MapsBelow(PhiMap(lp.phis, LatchValues(lp, full)), limit)
  {
    hide ValidLoop, Body, InScope, PhiMap;
    ValidLatches(code, lp, base);
    var vmap := PhiMap(lp.phis, LatchValues(lp, full));
    forall v | v in vmap
      ensures v.Inst? && vmap[v].Some? && (Mapped(vmap, v).Inst? ==> Mapped(vmap, v).id < limit)
    {
      PhiMapAt(lp.phis, LatchValues(lp, full), v);
      var w := lp.latch[v.id];
      assert Mapped(vmap, v) == Mapped(full, w);
    }
  }
}
