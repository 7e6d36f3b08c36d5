/**
 Unrolling a loop twice: what the unroller builds for a loop that tests in its header,
 and how its runs compare with those of the loop.
 */
module LoopUnroll {
  import opened IR
  import opened Reordering
  import opened ValueCloner

  /** A loop of two blocks: phis, the rest of the header, the latch, and its induction variable. */
  datatype Loop = Loop(
    phis: seq<Id>, init: map<Id, Value>, latch: map<Id, Value>, header: seq<Id>, latchBlock: seq<Id>,
    iv: Id, ivType: nat, step: Word, cond: Id, cmp: Opcode, bound: Value)

  /** The new header, the two bodies, the epilogue, and the phis at the exit with their two operands. */
  datatype Unrolled = Unrolled(
    code: map<Id, Instr>, uPhi: map<Id, Id>, addStep: Id, cond2x: Id, first0: Id, first1: Id, back: map<Id, Value>,
    epiPhi: map<Id, Id>, condEpi: Id, firstEpi: Id,
    finalHeader: map<Id, Option<Value>>, finalBody: map<Id, Option<Value>>)

  function Body(code: map<Id, Instr>, lp: Loop): seq<Id> {
    ClonedOnly(lp.header + lp.latchBlock, code)
  }

  function HeaderOps(code: map<Id, Instr>, lp: Loop): seq<Id> {
    ClonedOnly(lp.header, code)
  }

  function LatchOps(code: map<Id, Instr>, lp: Loop): seq<Id> {
    ClonedOnly(lp.latchBlock, code)
  }

  lemma {:induction false} ClonedConcat(a: seq<Id>, b: seq<Id>, code: map<Id, Instr>)
    ensures ClonedOnly(a + b, code) == ClonedOnly(a, code) + ClonedOnly(b, code)
    decreases |b|
  {
    if b == [] {
      assert a + b == a;
    } else {
      ClonedConcat(a, b[..|b| - 1], code);
      assert (a + b)[..|a + b| - 1] == a + b[..|b| - 1];
    }
  }

  ghost predicate Below(v: Value, base: Id) {
    v.Inst? ==> v.id < base
  }

  /** All ids of the program are below base; the loop is in SSA form and its bound comes from outside. */
  ghost predicate ValidLoop(code: map<Id, Instr>, lp: Loop, base: Id) {
    && (forall id | id in code :: id < base)
    && (forall id | id in lp.header + lp.latchBlock :: id in code)
    && Distinct(lp.phis) && lp.iv in lp.phis
    && (forall p | p in lp.phis :: p in code && code[p].op == Phi && p in lp.init && p in lp.latch
          && Below(lp.init[p], base) && Below(lp.latch[p], base))
    && InScope(code, Body(code, lp), base)
    && Below(lp.bound, base) && (lp.bound.Inst? ==> lp.bound.id !in lp.phis && lp.bound.id !in Body(code, lp))
  }

  // ----- Maps of phis

  function InstsOf(ids: seq<Id>): (r: set<Value>)
    ensures forall v | v in r :: v.Inst? && v.id in ids
    ensures forall id | id in ids :: Inst(id) in r
  {
    set id | id in ids :: Inst(id)
  }

  /** Each phi to its replacement. */
  function PhiMap(phis: seq<Id>, to: map<Id, Value>): ValueMap
    requires forall p | p in phis :: p in to
  {
    map v | v in InstsOf(phis) :: Some(to[v.id])
  }

  function Insts(m: map<Id, Id>): map<Id, Value> {
    map p | p in m :: Inst(m[p])
  }

  /** The values the phis receive at the end of a body cloned under the map. */
  function LatchValues(lp: Loop, vmap: ValueMap): map<Id, Value> {
    map p | p in lp.latch :: Mapped(vmap, lp.latch[p])
  }

  ghost predicate FreshPhis(phis: seq<Id>, m: map<Id, Id>, lo: Id, hi: Id) {
    && (forall p | p in phis :: p in m && lo <= m[p] < hi)
    && (forall p, q | p in phis && q in phis && p != q :: m[p] != m[q])
  }

  function Map0(lp: Loop, u: Unrolled): ValueMap
    requires forall p | p in lp.phis :: p in u.uPhi
  {
    PhiMap(lp.phis, Insts(u.uPhi))
  }

  function MapEpi(lp: Loop, u: Unrolled): ValueMap
    requires forall p | p in lp.phis :: p in u.epiPhi
  {
    PhiMap(lp.phis, Insts(u.epiPhi))
  }

  function Map1(code: map<Id, Instr>, lp: Loop, u: Unrolled): ValueMap
    requires forall p | p in lp.phis :: p in u.uPhi && p in lp.latch
  {
    PhiMap(lp.phis, LatchValues(lp, MapAfter(Map0(lp, u), Body(code, lp), u.first0)))
  }

  /** The latch value is a phi or an operation of the loop: the maps know it. */
  ghost predicate LatchInLoop(code: map<Id, Instr>, lp: Loop, p: Id) {
    p in lp.latch && lp.latch[p].Inst? && (lp.latch[p].id in lp.phis || lp.latch[p].id in Body(code, lp))
  }

  /** The pieces the unroller builds, and where their ids lie. */
  ghost predicate Layout(code: map<Id, Instr>, lp: Loop, u: Unrolled, base: Id) {
    && FreshPhis(lp.phis, u.uPhi, base, u.addStep) && u.addStep < u.cond2x < u.first0
    && u.first1 == u.first0 + |Body(code, lp)|
    && FreshPhis(lp.phis, u.epiPhi, u.first1 + |Body(code, lp)|, u.condEpi) && u.condEpi < u.firstEpi
    && base <= u.addStep && u.first1 + |Body(code, lp)| <= u.condEpi
  }

  ghost predicate IsUnrolling(code: map<Id, Instr>, lp: Loop, u: Unrolled, base: Id, block: BlockId) {
    && (forall p | p in lp.phis :: p in lp.latch)
    && Layout(code, lp, u, base) && lp.iv in lp.phis
    && var body := Body(code, lp);
    && (forall id | id in code :: id in u.code && u.code[id] == code[id])
    && u.addStep in u.code && u.code[u.addStep] == Instr(Add, lp.ivType, [Inst(u.uPhi[lp.iv]), Cst(lp.step)], block)
    && u.cond2x in u.code && u.code[u.cond2x] == Instr(lp.cmp, 1, [Inst(u.addStep), lp.bound], block)
    && u.condEpi in u.code && u.code[u.condEpi] == Instr(lp.cmp, 1, [Inst(u.epiPhi[lp.iv]), lp.bound], block)
    && AreClones(code, u.code, Map0(lp, u), body, u.first0, block)
    && AreClones(code, u.code, Map1(code, lp, u), body, u.first1, block)
    && AreClones(code, u.code, MapEpi(lp, u), body, u.firstEpi, block)
    && (forall p | p in lp.phis ::
          && p in u.back && u.back[p] == Mapped(MapAfter(Map1(code, lp, u), body, u.first1), lp.latch[p])
          && p in u.finalHeader && u.finalHeader[p] == Some(Inst(u.epiPhi[p]))
          && p in u.finalBody
          && u.finalBody[p] == if LatchInLoop(code, lp, p) then
                                 Some(Mapped(MapAfter(MapEpi(lp, u), body, u.firstEpi), lp.latch[p]))
                               else None)
  }

  // ----- Building it

  lemma PhiMapNext(phis: seq<Id>, to: map<Id, Value>, p: Id, v: Value)
    requires (forall q | q in phis :: q in to) && p !in phis
    ensures PhiMap(phis + [p], to[p := v]) == PhiMap(phis, to)[Inst(p) := Some(v)]
  {
    var a, b := PhiMap(phis + [p], to[p := v]), PhiMap(phis, to)[Inst(p) := Some(v)];
    assert a.Keys == b.Keys by {
      forall x ensures x in a.Keys <==> x in b.Keys {
        if x in b.Keys && x != Inst(p) { assert x.Inst? && x.id in phis && x.id in phis + [p]; }
        if x == Inst(p) { assert p in phis + [p]; }
      }
    }
  }

  lemma NewPhiNext(phis: seq<Id>, m: map<Id, Id>, first: Id, p: Id)
    requires FreshPhis(phis, m, first, first + |phis|) && p !in phis && forall q | q in m :: q in phis
    ensures FreshPhis(phis + [p], m[p := first + |phis|], first, first + |phis| + 1)
    ensures forall q | q in m[p := first + |phis|] :: q in phis + [p]
    ensures Insts(m[p := first + |phis|]) == Insts(m)[p := Inst(first + |phis|)]
  {
  }

  lemma NewPhiMap(phis: seq<Id>, m: map<Id, Id>, first: Id, p: Id)
    requires FreshPhis(phis, m, first, first + |phis|) && p !in phis && forall q | q in m :: q in phis
    ensures FreshPhis(phis + [p], m[p := first + |phis|], first, first + |phis| + 1)
    ensures (forall q | q in phis :: q in Insts(m)) && forall q | q in phis + [p] :: q in Insts(m[p := first + |phis|])
    ensures PhiMap(phis + [p], Insts(m[p := first + |phis|]))
            == PhiMap(phis, Insts(m))[Inst(p) := Some(Inst(first + |phis|))]
  {
    NewPhiNext(phis, m, first, p);
    PhiMapNext(phis, Insts(m), p, Inst(first + |phis|));
  }

  lemma NoPhis(first: Id)
    ensures FreshPhis([], map[], first, first)
    ensures (forall q | q in [] :: q in Insts(map[])) && PhiMap([], Insts(map[])) == map[]
  {
  }

  lemma NotYet(phis: seq<Id>, k: nat)
    requires Distinct(phis) && k < |phis|
    ensures phis[k] !in phis[..k] && phis[..k + 1] == phis[..k] + [phis[k]]
  {
  }

  /** The phis are replaced as the map of values says. */
  ghost predicate MapsPhis(phis: seq<Id>, m: map<Id, Id>, vmap: ValueMap) {
    && (forall q | q in m :: q in phis)
    && (forall p | p in phis :: p in Insts(m))
    && vmap == PhiMap(phis, Insts(m))
  }

  lemma MapsPhisNext(phis: seq<Id>, m: map<Id, Id>, vmap: ValueMap, first: Id, p: Id)
    requires FreshPhis(phis, m, first, first + |phis|) && p !in phis && MapsPhis(phis, m, vmap)
    ensures FreshPhis(phis + [p], m[p := first + |phis|], first, first + |phis| + 1)
    ensures MapsPhis(phis + [p], m[p := first + |phis|], vmap[Inst(p) := Some(Inst(first + |phis|))])
  {
    NewPhiNext(phis, m, first, p);
    NewPhiMap(phis, m, first, p);
    hide FreshPhis, Insts, PhiMap;
  }

  lemma MapsNoPhis(first: Id)
    ensures FreshPhis([], map[], first, first) && MapsPhis([], map[], map[])
  {
    NoPhis(first);
  }

  /** New phis for those of the header, and the map to them. */
  method NewPhis(phis: seq<Id>, first: Id) returns (m: map<Id, Id>, vmap: ValueMap)
    requires Distinct(phis)
    ensures FreshPhis(phis, m, first, first + |phis|) && MapsPhis(phis, m, vmap)
  {
    hide *;
    m, vmap := map[], map[];
    MapsNoPhis(first);
    for k := 0 to |phis|
      invariant FreshPhis(phis[..k], m, first, first + k) && MapsPhis(phis[..k], m, vmap)
    {
      NotYet(phis, k);
      MapsPhisNext(phis[..k], m, vmap, first, phis[k]);
      m := m[phis[k] := first + k];
      vmap := vmap[Inst(phis[k]) := Some(Inst(first + k))];
    }
    assert phis[..|phis|] == phis;
  }

  /** What a map knows after cloning: the phis and the operations. */
  lemma {:induction false} KeysAfter(vmap: ValueMap, list: seq<Id>, first: Id, v: Value)
    ensures v in MapAfter(vmap, list, first) <==> v in vmap || (v.Inst? && v.id in list)
  {
    if list != [] {
      var front := list[..|list| - 1];
      assert list == front + [Last(list)];
      KeysAfter(vmap, front, first, v);
    }
  }

  lemma PhiMapAt(phis: seq<Id>, to: map<Id, Value>, v: Value)
    requires forall p | p in phis :: p in to
    ensures v in PhiMap(phis, to) <==> v.Inst? && v.id in phis
    ensures v in PhiMap(phis, to) ==> PhiMap(phis, to)[v] == Some(to[v.id])
  {
  }

  /** A lookup that inserts null where there was no entry. */
  function LookedUp(vmap: ValueMap, v: Value): ValueMap {
    if v in vmap then vmap else vmap[v := None]
  }

  /** Each phi with the value it has at the end of a body; the lookups leave nulls behind. */
  method LatchMap(lp: Loop, vmap: ValueMap) returns (m: map<Id, Value>, next: ValueMap, vmap': ValueMap)
    requires NoNulls(vmap) && Distinct(lp.phis) && forall p | p in lp.phis :: p in lp.latch
    ensures forall p | p in lp.phis :: p in m && m[p] == Mapped(vmap, lp.latch[p])
    ensures next == PhiMap(lp.phis, LatchValues(lp, vmap))
    ensures forall v | v in vmap :: v in vmap' && vmap'[v] == vmap[v]
    ensures forall p | p in lp.phis && lp.latch[p] !in vmap :: lp.latch[p] in vmap' && vmap'[lp.latch[p]] == None
  {
    m, next, vmap' := map[], map[], vmap;
    for k := 0 to |lp.phis|
      invariant forall j | 0 <= j < k :: lp.phis[j] in m && m[lp.phis[j]] == Mapped(vmap, lp.latch[lp.phis[j]])
      invariant forall j | 0 <= j < k && lp.latch[lp.phis[j]] !in vmap :: lp.latch[lp.phis[j]] in vmap'
      invariant forall v | v in vmap :: v in vmap' && vmap'[v] == vmap[v]
      invariant forall v | v in vmap' && v !in vmap :: vmap'[v] == None
      invariant forall v | v in next :: v.Inst? && v.id in lp.phis[..k]
      invariant forall j | 0 <= j < k ::
                  Inst(lp.phis[j]) in next && next[Inst(lp.phis[j])] == Some(Mapped(vmap, lp.latch[lp.phis[j]]))
    {
      var phi := lp.phis[k];
      assert phi in lp.phis && lp.phis[..k + 1] == lp.phis[..k] + [phi];
      var latchV := lp.latch[phi];
      vmap' := LookedUp(vmap', latchV);
      var latchVal := vmap'[latchV];
      var value := if latchVal.Some? then latchVal.value else latchV;
      m := m[phi := value];
      next := next[Inst(phi) := Some(value)];
    }
    assert lp.phis[..|lp.phis|] == lp.phis;
    NextIsPhiMap(lp, vmap, next);
  }

  lemma NextIsPhiMap(lp: Loop, vmap: ValueMap, next: ValueMap)
    requires forall p | p in lp.phis :: p in lp.latch
    requires forall v | v in next :: v.Inst? && v.id in lp.phis
    requires forall j | 0 <= j < |lp.phis| ::
               Inst(lp.phis[j]) in next && next[Inst(lp.phis[j])] == Some(Mapped(vmap, lp.latch[lp.phis[j]]))
    ensures next == PhiMap(lp.phis, LatchValues(lp, vmap))
  {
    forall v
      ensures v in next <==> v in PhiMap(lp.phis, LatchValues(lp, vmap))
      ensures v in next ==> next[v] == PhiMap(lp.phis, LatchValues(lp, vmap))[v]
    {
      PhiMapAt(lp.phis, LatchValues(lp, vmap), v);
      if v.Inst? && v.id in lp.phis {
        var j :| 0 <= j < |lp.phis| && lp.phis[j] == v.id;
        assert v == Inst(lp.phis[j]);
      }
    }
  }

  lemma {:induction false} ClonedSame(list: seq<Id>, code: map<Id, Instr>, code2: map<Id, Instr>)
    requires forall id | id in list :: id in code && id in code2 && code2[id] == code[id]
    ensures ClonedOnly(list, code2) == ClonedOnly(list, code)
  {
    if list != [] {
      assert Last(list) in list;
      ClonedSame(list[..|list| - 1], code, code2);
    }
  }

  /** Code that only grew. */
  ghost predicate Extends(code: map<Id, Instr>, code2: map<Id, Instr>) {
    forall id | id in code :: id in code2 && code2[id] == code[id]
  }

  lemma ClonesKept(code: map<Id, Instr>, codeA: map<Id, Instr>, codeB: map<Id, Instr>, codeC: map<Id, Instr>,
                   vmap: ValueMap, list: seq<Id>, first: Id, block: BlockId)
    requires Extends(code, codeA) && Extends(codeB, codeC) && (forall id | id in list :: id in code)
    requires AreClones(codeA, codeB, vmap, list, first, block)
    ensures AreClones(code, codeC, vmap, list, first, block)
  {
    hide CloneInstruction, MapAfter;
    forall k | 0 <= k < |list|
      ensures list[k] in code && first + k in codeC
      ensures codeC[first + k] == CloneInstruction(MapAfter(vmap, list[..k], first), code[list[k]], block)
    {
      assert list[k] in list;
    }
  }

  lemma ExtendsThen(a: map<Id, Instr>, b: map<Id, Instr>, c: map<Id, Instr>)
    requires Extends(a, b) && Extends(b, c)
    ensures Extends(a, c)
  {
  }

  ghost predicate AllBelow(code: map<Id, Instr>, limit: Id) {
    forall id | id in code :: id < limit
  }

  lemma Added(code: map<Id, Instr>, id: Id, instr: Instr)
    requires AllBelow(code, id)
    ensures Extends(code, code[id := instr]) && AllBelow(code[id := instr], id + 1)
  {
  }

  /** One body: the operations of the loop cloned under the map. */
  method CloneBody(ghost code: map<Id, Instr>, now: map<Id, Instr>, lp: Loop, vmap: ValueMap, first: Id, block: BlockId)
    returns (code': map<Id, Instr>, vmap': ValueMap, next: Id)
    requires (forall id | id in lp.header + lp.latchBlock :: id in code) && Extends(code, now)
    requires AllBelow(now, first) && NoNulls(vmap)
    ensures vmap' == MapAfter(vmap, Body(code, lp), first) && NoNulls(vmap')
    ensures AreClones(code, code', vmap, Body(code, lp), first, block)
    ensures next == first + |Body(code, lp)| && Extends(now, code') && AllBelow(code', next)
  {
    ClonedSame(lp.header + lp.latchBlock, code, now);
    BodyInCode(code, lp);
    hide AreClones, MapAfter, ClonedOnly;
    var clones;
    code', clones, vmap' := CloneBlocks(now, lp.header + lp.latchBlock, vmap, first, block);
    next := first + |clones|;
    ClonesKept(code, now, code', code', vmap, Body(code, lp), first, block);
  }

  lemma BodyInCode(code: map<Id, Instr>, lp: Loop)
    ensures forall id | id in Body(code, lp) :: id in code && IsCloned(code[id].op)
  {
  }

  lemma PhiMapNoNulls(phis: seq<Id>, to: map<Id, Value>)
    requires forall p | p in phis :: p in to
    ensures NoNulls(PhiMap(phis, to))
  {
  }

  lemma MapsPhisIs(phis: seq<Id>, m: map<Id, Id>, vmap: ValueMap)
    requires MapsPhis(phis, m, vmap)
    ensures (forall p | p in phis :: p in m && p in Insts(m)) && vmap == PhiMap(phis, Insts(m)) && NoNulls(vmap)
  {
  }

  lemma InLoopKeys(code: map<Id, Instr>, lp: Loop, to: map<Id, Value>, first: Id, p: Id)
    requires (forall q | q in lp.phis :: q in to) && p in lp.latch
    ensures LatchInLoop(code, lp, p) <==> lp.latch[p] in MapAfter(PhiMap(lp.phis, to), Body(code, lp), first)
  {
    KeysAfter(PhiMap(lp.phis, to), Body(code, lp), first, lp.latch[p]);
    PhiMapAt(lp.phis, to, lp.latch[p]);
    hide MapAfter, PhiMap, Body;
  }

  /** The exit phis: from the epilogue's test, and from its body. */
  method FinalPhis(ghost code: map<Id, Instr>, lp: Loop, epiPhi: map<Id, Id>, mapEpi: ValueMap, map1: ValueMap,
                   ghost firstEpi: Id, ghost first1: Id, ghost to1: map<Id, Value>, ghost map1Before: ValueMap)
    returns (finalHeader: map<Id, Option<Value>>, finalBody: map<Id, Option<Value>>)
    requires forall p | p in lp.phis :: p in lp.latch && p in epiPhi && p in Insts(epiPhi) && p in to1
    requires mapEpi == MapAfter(PhiMap(lp.phis, Insts(epiPhi)), Body(code, lp), firstEpi) && NoNulls(mapEpi)
    requires map1Before == MapAfter(PhiMap(lp.phis, to1), Body(code, lp), first1)
    requires forall p | p in lp.phis && lp.latch[p] !in map1Before :: lp.latch[p] in map1 && map1[lp.latch[p]] == None
    ensures forall p | p in lp.phis :: p in finalHeader && finalHeader[p] == Some(Inst(epiPhi[p]))
    ensures forall p | p in lp.phis :: p in finalBody &&
              finalBody[p] == if LatchInLoop(code, lp, p) then Some(Mapped(mapEpi, lp.latch[p])) else None
  {
    hide MapAfter, PhiMap, LatchInLoop, Body, Insts;
    finalHeader, finalBody := map[], map[];
    for k := 0 to |lp.phis|
      invariant forall j | 0 <= j < k ::
                  lp.phis[j] in finalHeader && finalHeader[lp.phis[j]] == Some(Inst(epiPhi[lp.phis[j]]))
      invariant forall j | 0 <= j < k :: lp.phis[j] in finalBody &&
                  finalBody[lp.phis[j]] ==
                    if LatchInLoop(code, lp, lp.phis[j]) then Some(Mapped(mapEpi, lp.latch[lp.phis[j]])) else None
    {
      var phi := lp.phis[k];
      assert phi in lp.phis;
      InLoopKeys(code, lp, Insts(epiPhi), firstEpi, phi);
      InLoopKeys(code, lp, to1, first1, phi);
      var fromTest := Some(Inst(epiPhi[phi]));
      finalHeader := finalHeader[phi := fromTest];
      var latchV := lp.latch[phi];
      var fromBody := if latchV in mapEpi then mapEpi[latchV]
                      else if latchV in map1 then map1[latchV]
                      else fromTest;
      finalBody := finalBody[phi := fromBody];
    }
  }

  /** What a valid loop gives the construction. */
  lemma ValidParts(code: map<Id, Instr>, lp: Loop, base: Id)
    requires ValidLoop(code, lp, base)
    ensures AllBelow(code, base) && (forall id | id in lp.header + lp.latchBlock :: id in code)
    ensures Distinct(lp.phis) && lp.iv in lp.phis && forall p | p in lp.phis :: p in lp.latch
  {
  }

  lemma ExtendsSelf(code: map<Id, Instr>)
    ensures Extends(code, code)
  {
  }

  lemma IvMapped(lp: Loop, m: map<Id, Id>, lo: Id, hi: Id)
    requires FreshPhis(lp.phis, m, lo, hi) && lp.iv in lp.phis
    ensures lp.iv in m && forall p | p in lp.phis :: p in m
  {
  }

  lemma LatchValuesDefined(lp: Loop, vmap: ValueMap)
    requires forall p | p in lp.phis :: p in lp.latch
    ensures forall p | p in lp.phis :: p in LatchValues(lp, vmap)
  {
  }

  lemma BodyMembers(code: map<Id, Instr>, lp: Loop)
    ensures forall id | id in Body(code, lp) :: id in code
  {
  }

  lemma AddedAt(code: map<Id, Instr>, id: Id, instr: Instr, code2: map<Id, Instr>)
    requires Extends(code[id := instr], code2)
    ensures id in code2 && code2[id] == instr
  {
  }

  /** The new header and the two bodies. */
  method UnrollBodies(code: map<Id, Instr>, lp: Loop, base: Id, block: BlockId)
    returns (code': map<Id, Instr>, uPhi: map<Id, Id>, addStep: Id, cond2x: Id, first0: Id, first1: Id, next: Id,
             back: map<Id, Value>, map1: ValueMap, ghost latch0: map<Id, Value>, ghost map1Before: ValueMap)
    requires AllBelow(code, base) && (forall id | id in lp.header + lp.latchBlock :: id in code)
    requires Distinct(lp.phis) && lp.iv in lp.phis && forall p | p in lp.phis :: p in lp.latch
    ensures base <= addStep < cond2x < first0 && first1 == first0 + |Body(code, lp)|
    ensures next == first1 + |Body(code, lp)|
    ensures FreshPhis(lp.phis, uPhi, base, addStep) && forall p | p in lp.phis :: p in uPhi && p in Insts(uPhi)
    ensures Extends(code, code') && AllBelow(code', next) && lp.iv in uPhi
    ensures addStep in code' && code'[addStep] == Instr(Add, lp.ivType, [Inst(uPhi[lp.iv]), Cst(lp.step)], block)
    ensures cond2x in code' && code'[cond2x] == Instr(lp.cmp, 1, [Inst(addStep), lp.bound], block)
    ensures AreClones(code, code', PhiMap(lp.phis, Insts(uPhi)), Body(code, lp), first0, block)
    ensures latch0 == LatchValues(lp, MapAfter(PhiMap(lp.phis, Insts(uPhi)), Body(code, lp), first0))
    ensures forall p | p in lp.phis :: p in latch0
    ensures AreClones(code, code', PhiMap(lp.phis, latch0), Body(code, lp), first1, block)
    ensures map1Before == MapAfter(PhiMap(lp.phis, latch0), Body(code, lp), first1)
    ensures forall p | p in lp.phis :: p in back && back[p] == Mapped(map1Before, lp.latch[p])
    ensures forall p | p in lp.phis && lp.latch[p] !in map1Before :: lp.latch[p] in map1 && map1[lp.latch[p]] == None
  {
    hide *;
    BodyMembers(code, lp);
    var vmap0;
    uPhi, vmap0 := NewPhis(lp.phis, base);
    MapsPhisIs(lp.phis, uPhi, vmap0);
    addStep := base + |lp.phis|;
    IvMapped(lp, uPhi, base, addStep);
    var add := Instr(Add, lp.ivType, [Inst(uPhi[lp.iv]), Cst(lp.step)], block);
    var code1 := code[addStep := add];
    BelowNext(code, base, addStep);
    Added(code, addStep, add);
    cond2x := addStep + 1;
    var test := Instr(lp.cmp, 1, [Inst(addStep), lp.bound], block);
    var code2 := code1[cond2x := test];
    Added(code1, cond2x, test);
    ExtendsThen(code, code1, code2);
    first0 := cond2x + 1;
    var code3, vmap0';
    code3, vmap0', first1 := CloneBody(code, code2, lp, vmap0, first0, block);
    ExtendsThen(code, code2, code3);
    LatchValuesDefined(lp, vmap0');
    latch0 := LatchValues(lp, vmap0');
    var unused0, vmap1, nulls0 := LatchMap(lp, vmap0');
    PhiMapNoNulls(lp.phis, latch0);
    var vmap1';
    code', vmap1', next := CloneBody(code, code3, lp, vmap1, first1, block);
    map1Before := vmap1';
    ExtendsThen(code, code3, code');
    var unused1;
    back, unused1, map1 := LatchMap(lp, vmap1');
    ExtendsThen(code2, code3, code');
    ExtendsThen(code1, code2, code');
    AddedAt(code, addStep, add, code');
    AddedAt(code1, cond2x, test, code');
    ExtendsSelf(code);
    ClonesKept(code, code, code3, code', vmap0, Body(code, lp), first0, block);
  }

  method UnrollLoop(code: map<Id, Instr>, lp: Loop, base: Id, block: BlockId) returns (u: Unrolled)
    requires ValidLoop(code, lp, base)
    ensures IsUnrolling(code, lp, u, base, block)
  {
    hide *;
    ValidParts(code, lp, base);
    BodyMembers(code, lp);
    ghost var latch0, map1Before;
    var code4, uPhi, addStep, cond2x, first0, first1, epiFirst, back, map1;
    code4, uPhi, addStep, cond2x, first0, first1, epiFirst, back, map1, latch0,
        map1Before := UnrollBodies(code, lp, base, block);
    var epiPhi, mapEpi := NewPhis(lp.phis, epiFirst);
    MapsPhisIs(lp.phis, epiPhi, mapEpi);
    var condEpi := epiFirst + |lp.phis|;
    IvMapped(lp, epiPhi, epiFirst, condEpi);
    var testEpi := Instr(lp.cmp, 1, [Inst(epiPhi[lp.iv]), lp.bound], block);
    var code5 := code4[condEpi := testEpi];
    BelowNext(code4, epiFirst, condEpi);
    Added(code4, condEpi, testEpi);
    ExtendsThen(code, code4, code5);
    var firstEpi := condEpi + 1;
    var code6, mapEpi', end := CloneBody(code, code5, lp, mapEpi, firstEpi, block);
    var finalHeader, finalBody := FinalPhis(code, lp, epiPhi, mapEpi', map1, firstEpi, first1, latch0, map1Before);
    u := Unrolled(code6, uPhi, addStep, cond2x, first0, first1, back, epiPhi, condEpi, firstEpi, finalHeader,
                  finalBody);
    ExtendsThen(code4, code5, code6);
    ExtendsThen(code, code4, code6);
    AddedAt(code4, condEpi, testEpi, code6);
    StillThere(code4, code6, addStep);
    StillThere(code4, code6, cond2x);
    ExtendsSelf(code);
    ClonesKept(code, code, code4, code6, PhiMap(lp.phis, Insts(uPhi)), Body(code, lp), first0, block);
    ClonesKept(code, code, code4, code6, PhiMap(lp.phis, latch0), Body(code, lp), first1, block);
    MapsOf(code, lp, u);
    Assembled(code, lp, u, base, block);
  }

  lemma StillThere(code: map<Id, Instr>, code': map<Id, Instr>, id: Id)
    requires Extends(code, code') && id in code
    ensures id in code' && code'[id] == code[id]
  {
  }

  lemma BelowNext(code: map<Id, Instr>, base: Id, id: Id)
    requires AllBelow(code, base) && base <= id
    ensures AllBelow(code, id)
  {
  }

  lemma MapsOf(code: map<Id, Instr>, lp: Loop, u: Unrolled)
    requires forall p | p in lp.phis :: p in u.uPhi && p in u.epiPhi && p in lp.latch
    ensures Map0(lp, u) == PhiMap(lp.phis, Insts(u.uPhi)) && MapEpi(lp, u) == PhiMap(lp.phis, Insts(u.epiPhi))
    ensures Map1(code, lp, u) == PhiMap(lp.phis, LatchValues(lp, MapAfter(Map0(lp, u), Body(code, lp), u.first0)))
  {
  }

  lemma Assembled(code: map<Id, Instr>, lp: Loop, u: Unrolled, base: Id, block: BlockId)
    requires (forall p | p in lp.phis :: p in lp.latch && p in u.uPhi && p in u.epiPhi) && lp.iv in lp.phis
    requires FreshPhis(lp.phis, u.uPhi, base, u.addStep) && u.addStep < u.cond2x < u.first0 && base <= u.addStep
    requires u.first1 == u.first0 + |Body(code, lp)| && u.first1 + |Body(code, lp)| <= u.condEpi < u.firstEpi
    requires FreshPhis(lp.phis, u.epiPhi, u.first1 + |Body(code, lp)|, u.condEpi)
    requires Extends(code, u.code)
    requires u.addStep in u.code
    requires u.code[u.addStep] == Instr(Add, lp.ivType, [Inst(u.uPhi[lp.iv]), Cst(lp.step)], block)
    requires u.cond2x in u.code && u.code[u.cond2x] == Instr(lp.cmp, 1, [Inst(u.addStep), lp.bound], block)
    requires u.condEpi in u.code && u.code[u.condEpi] == Instr(lp.cmp, 1, [Inst(u.epiPhi[lp.iv]), lp.bound], block)
    requires AreClones(code, u.code, Map0(lp, u), Body(code, lp), u.first0, block)
    requires AreClones(code, u.code, Map1(code, lp, u), Body(code, lp), u.first1, block)
    requires AreClones(code, u.code, MapEpi(lp, u), Body(code, lp), u.firstEpi, block)
    requires forall p | p in lp.phis ::
               p in u.back && u.back[p] == Mapped(MapAfter(Map1(code, lp, u), Body(code, lp), u.first1), lp.latch[p])
    requires forall p | p in lp.phis :: p in u.finalHeader && u.finalHeader[p] == Some(Inst(u.epiPhi[p]))
    requires forall p | p in lp.phis :: p in u.finalBody &&
               u.finalBody[p] == if LatchInLoop(code, lp, p) then
                                   Some(Mapped(MapAfter(MapEpi(lp, u), Body(code, lp), u.firstEpi), lp.latch[p]))
                                 else None
    ensures IsUnrolling(code, lp, u, base, block)
  {
    hide FreshPhis, AreClones, MapAfter, Map0, Map1, MapEpi, Body, LatchInLoop, Mapped;
  }
}
