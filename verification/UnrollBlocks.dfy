/**
 The blocks that the unroller makes of its pieces, and what becomes of the rest of the
 function: the loop's blocks are gone, the preheader leads to the new header, the exit is
 entered from the new last block, and uses outside the loop see the phis there.
 */
module UnrollBlocks {
  import opened IR
  import opened Reordering
  import opened BlockReordering
  import opened BlockRuns
  import opened ValueCloner
  import opened LoopUnroll
  import opened LoopBlocks
  import opened UnrolledBlocks
  import opened UnrolledRuns
  import UnrollEquivalence

  /** Names for the new blocks. */
  datatype Names = Names(uHeader: BlockId, body0: BlockId, body1: BlockId, epiHeader: BlockId, epiBody: BlockId,
                         finalExit: BlockId)

  ghost predicate FreshNames(f: Function, nm: Names) {
    && {nm.uHeader, nm.body0, nm.body1, nm.epiHeader, nm.epiBody, nm.finalExit} !! f.blocks.Keys
    && Distinct([nm.uHeader, nm.body0, nm.body1, nm.epiHeader, nm.epiBody, nm.finalExit])
  }

  /** The first id behind all that the pieces use. */
  function Top(code: map<Id, Instr>, lp: Loop, u: Unrolled): Id {
    u.firstEpi + |Body(code, lp)|
  }

  // ----- The new instructions

  /** Which block a new operation is put in. */
  function Home(lp: Loop, u: Unrolled, nm: Names, n: nat, id: Id): BlockId {
    if id < u.first0 then nm.uHeader
    else if id < u.first0 + n then nm.body0
    else if id < u.first1 + n then nm.body1
    else if id < u.firstEpi then nm.epiHeader
    else nm.epiBody
  }

  /** Header phis give way to the phis at the exit. */
  function Outside(lp: Loop, finals: map<Id, Id>, v: Value): Value {
    if v.Inst? && v.id in lp.phis && v.id in finals then Inst(finals[v.id]) else v
  }

  /** A block operand that named one of the two blocks of the loop. */
  function Renamed(at: Place, to: BlockId, v: Value): Value {
    if v == Blk(at.header) || v == Blk(at.latch) then Blk(to) else v
  }

  /** An instruction that was there before: the preheader's last, a phi of the exit, or another. */
  function Kept(f: Function, lp: Loop, at: Place, pre: BlockId, nm: Names, finals: map<Id, Id>, id: Id): Instr
    requires id in f.code
  {
    var instr := f.code[id];
    var operands := instr.operands;
    instr.(operands := seq(|operands|, i requires 0 <= i < |operands| =>
      var v := Outside(lp, finals, operands[i]);
      if pre in f.blocks && f.blocks[pre] != [] && id == Last(f.blocks[pre]) then
        (if v == Blk(at.header) then Blk(nm.uHeader) else v)
      else if IsExitPhi(f, at, id) && i % 2 == 0 then Renamed(at, nm.finalExit, v)
      else v))
  }

  predicate IsExitPhi(f: Function, at: Place, id: Id) {
    at.exit in f.blocks && id in f.blocks[at.exit][..LeadingPhis(f.blocks[at.exit], f.code)]
  }

  function Moved(f: Function, lp: Loop, at: Place, pre: BlockId, u: Unrolled, nm: Names, finals: map<Id, Id>)
    : map<Id, Instr>
  {
    map id | id in u.code ::
      if id in f.code then Kept(f, lp, at, pre, nm, finals, id)
      else u.code[id].(parent := Home(lp, u, nm, |Body(f.code, lp)|, id))
  }

  /** New phis for the old ones, each with a value along one edge or two. */
  ghost predicate ArePhis(code: map<Id, Instr>, types: map<Id, Instr>, phis: seq<Id>, dst: map<Id, Id>, from1: BlockId,
                          vals1: map<Id, Value>, from2: Option<BlockId>, vals2: map<Id, Value>, block: BlockId)
  {
    forall p | p in phis :: p in types && p in dst && p in vals1 && p in vals2 && dst[p] in code
      && code[dst[p]] == NewPhi(types[p].ty, from1, vals1[p], from2, vals2[p], block)
  }

  /** A phi for each phi of the header, with one operand pair or two. */
  method AddPhis(code: map<Id, Instr>, types: map<Id, Instr>, phis: seq<Id>, dst: map<Id, Id>, from1: BlockId,
                 vals1: map<Id, Value>, from2: Option<BlockId>, vals2: map<Id, Value>, block: BlockId)
    returns (code': map<Id, Instr>)
    requires forall p | p in phis :: p in types && p in dst && p in vals1 && p in vals2
    requires Apart(phis, dst)
    ensures ArePhis(code', types, phis, dst, from1, vals1, from2, vals2, block)
    ensures forall id | id in code && (forall p | p in phis :: dst[p] != id) :: id in code' && code'[id] == code[id]
  {
    code' := code;
    for k := 0 to |phis|
      invariant ArePhis(code', types, phis[..k], dst, from1, vals1, from2, vals2, block)
      invariant forall id | id in code && (forall p | p in phis :: dst[p] != id) :: id in code' && code'[id] == code[id]
    {
      hide NewPhi;
      var p := phis[k];
      assert p in phis && phis[..k + 1] == phis[..k] + [p];
      code' := code'[dst[p] := NewPhi(types[p].ty, from1, vals1[p], from2, vals2[p], block)];
    }
    assert phis[..|phis|] == phis;
  }

  function NewPhi(ty: nat, from1: BlockId, v1: Value, from2: Option<BlockId>, v2: Value, block: BlockId): Instr {
    Instr(Phi, ty, [Blk(from1), v1] + if from2.Some? then [Blk(from2.value), v2] else [], block)
  }

  /** What the new phi receives along its two edges. */
  lemma NewPhiReceives(ty: nat, a: BlockId, v: Value, b: Option<BlockId>, w: Value, block: BlockId)
    ensures IncomingFrom(NewPhi(ty, a, v, b, w, block).operands, a, 0) == Some(v)
    ensures b.Some? && b.value != a ==> IncomingFrom(NewPhi(ty, a, v, b, w, block).operands, b.value, 0) == Some(w)
  {
    var operands := NewPhi(ty, a, v, b, w, block).operands;
    assert operands[0] == Blk(a) && operands[1] == v;
    assert b.Some? ==> operands[2] == Blk(b.value) && operands[3] == w;
    assert IncomingPair(operands, 0) == Some((a, v));
    if b.Some? { assert IncomingPair(operands, 1) == Some((b.value, w)); }
  }

  // ----- The new blocks

  function BlocksOf(code: map<Id, Instr>, lp: Loop, u: Unrolled, nm: Names): Blocks
    requires forall p | p in lp.phis :: p in u.uPhi && p in u.epiPhi
  {
    var n, top := |Body(code, lp)|, Top(code, lp, u);
    Blocks(nm.uHeader, nm.body0, nm.body1, nm.epiHeader, nm.epiBody, nm.finalExit,
           Shape(PhiIds(lp.phis, u.uPhi), [u.addStep, u.cond2x], top),
           Shape([], Ids(u.first0, n), top + 1),
           Shape([], Ids(u.first1, n), top + 2),
           Shape(PhiIds(lp.phis, u.epiPhi), [u.condEpi], top + 3),
           Shape([], Ids(u.firstEpi, n), top + 4))
  }

  function ExitShape(code: map<Id, Instr>, lp: Loop, u: Unrolled, finals: map<Id, Id>): Shape
    requires forall p | p in lp.phis :: p in finals
  {
    Shape(PhiIds(lp.phis, finals), [], Top(code, lp, u) + 5)
  }

  /** The jumps and branches that end them. */
  function WithJumps(code: map<Id, Instr>, u: Unrolled, nm: Names, top: Id, exit: BlockId): map<Id, Instr> {
    code[top := Instr(Jnz, 0, [Inst(u.cond2x), Blk(nm.body0), Blk(nm.epiHeader)], nm.uHeader)]
        [top + 1 := Instr(Jmp, 0, [Blk(nm.body1)], nm.body0)]
        [top + 2 := Instr(Jmp, 0, [Blk(nm.uHeader)], nm.body1)]
        [top + 3 := Instr(Jnz, 0, [Inst(u.condEpi), Blk(nm.epiBody), Blk(nm.finalExit)], nm.epiHeader)]
        [top + 4 := Instr(Jmp, 0, [Blk(nm.finalExit)], nm.epiBody)]
        [top + 5 := Instr(Jmp, 0, [Blk(exit)], nm.finalExit)]
  }

  function WithBlocks(blocks: map<BlockId, seq<Id>>, at: Place, bk: Blocks, fs: Shape): map<BlockId, seq<Id>> {
    (blocks - {at.header, at.latch})
        [bk.uHeader := Assemble(bk.us)][bk.body0 := Assemble(bk.s0)][bk.body1 := Assemble(bk.s1)]
        [bk.epiHeader := Assemble(bk.es)][bk.epiBody := Assemble(bk.bs)][bk.finalExit := Assemble(fs)]
  }

  function WithoutLoop(order: seq<BlockId>, at: Place): seq<BlockId> {
    if order == [] then []
    else (if order[0] == at.header || order[0] == at.latch then [] else [order[0]]) + WithoutLoop(order[1..], at)
  }

  /** The loop's blocks taken out of the layout, the new ones put behind it. */
  method NewOrder(order: seq<BlockId>, at: Place, nm: Names) returns (order': seq<BlockId>)
    ensures order' == WithoutLoop(order, at)
                      + [nm.uHeader, nm.body0, nm.body1, nm.epiHeader, nm.epiBody, nm.finalExit]
  {
    order' := [];
    var k := 0;
    while k < |order|
      invariant k <= |order| && order' + WithoutLoop(order[k..], at) == WithoutLoop(order, at)
    {
      assert order[k..][1..] == order[k + 1..];
      if order[k] != at.header && order[k] != at.latch {
        order' := order' + [order[k]];
      }
      k := k + 1;
    }
    order' := order' + [nm.uHeader, nm.body0, nm.body1, nm.epiHeader, nm.epiBody, nm.finalExit];
  }

  /** What the pieces are given by, and where their ids lie. */
  ghost predicate Pieces(f: Function, lp: Loop, at: Place, u: Unrolled, base: Id, block: BlockId, pre: BlockId,
                         nm: Names, finals: map<Id, Id>)
  {
    && InFunction(f, lp, at) && IsUnrolling(f.code, lp, u, base, block) && ValidLoop(f.code, lp, base)
    && IsPlain(lp.cmp) && FreshNames(f, nm) && pre in f.blocks && pre != at.header && pre != at.latch
    && FreshPhis(lp.phis, finals, Top(f.code, lp, u) + 6, Top(f.code, lp, u) + 6 + |lp.phis|)
  }

  /** The ids of the pieces, apart from each other and from those of the function. */
  lemma PiecesApart(f: Function, lp: Loop, at: Place, u: Unrolled, base: Id, block: BlockId, pre: BlockId, nm: Names,
                    finals: map<Id, Id>)
    requires Pieces(f, lp, at, u, base, block, pre, nm, finals)
    ensures (forall p | p in lp.phis :: p in f.code && p in u.uPhi && p in u.epiPhi && p in finals)
    ensures (forall p | p in lp.phis :: p in lp.init && p in u.back && p in lp.latch)
    ensures Distinct(lp.phis) && lp.phis != []
    ensures Apart(lp.phis, u.uPhi) && Apart(lp.phis, u.epiPhi) && Apart(lp.phis, finals)
    ensures forall id | id in f.code :: id < base
    ensures var n, top := |Body(f.code, lp)|, Top(f.code, lp, u);
            && base <= u.addStep < u.cond2x < u.first0 && u.first1 == u.first0 + n && u.first1 + n <= u.condEpi
            && u.condEpi < u.firstEpi && top == u.firstEpi + n
            && (forall p | p in lp.phis :: base <= u.uPhi[p] < u.addStep)
            && (forall p | p in lp.phis :: u.first1 + n <= u.epiPhi[p] < u.condEpi)
            && (forall p | p in lp.phis :: top + 6 <= finals[p])
    ensures pre !in {nm.uHeader, nm.body0, nm.body1, nm.epiHeader, nm.epiBody, nm.finalExit}
  {
    hide AreClones, MapAfter, Body, Map0, Map1, MapEpi, LatchInLoop, ValidShape, Assemble, Receive, InScope, Mapped;
  }

  /** The bodies hold clones of the loop's operations. */
  lemma BodiesArePlain(f: Function, lp: Loop, at: Place, u: Unrolled, base: Id, block: BlockId, first: Id)
    requires InFunction(f, lp, at) && IsUnrolling(f.code, lp, u, base, block)
    requires first in {u.first0, u.first1, u.firstEpi}
    ensures forall id | id in Ids(first, |Body(f.code, lp)|) :: id in u.code && IsPlain(u.code[id].op)
  {
    hide *;
    var body := Body(f.code, lp);
    LoopOps(f, lp, at);
    BodiesCloned(f, lp, u, base, block, first);
    forall id | id in Ids(first, |body|)
      ensures id in u.code && IsPlain(u.code[id].op)
    {
      IdsAt(first, |body|, id);
      var x := body[id - first];
      SameOpsAt(f.code, u.code, body, first, id - first);
      assert x in at.hs.body || x in at.ls.body by { InEither(at.hs.body, at.ls.body, id - first); }
      OperationPlain(f, lp, at, x);
    }
  }

  lemma SameOpsAt(code: map<Id, Instr>, code': map<Id, Instr>, list: seq<Id>, first: Id, k: nat)
    requires SameOps(code, code', list, first) && k < |list|
    ensures list[k] in code && first + k in code' && code'[first + k].op == code[list[k]].op
  {
  }

  lemma IdsAt(first: Id, n: nat, id: Id)
    ensures id in Ids(first, n) <==> first <= id < first + n
  {
    if first <= id < first + n { assert Ids(first, n)[id - first] == id; }
  }

  lemma InEither(a: seq<Id>, b: seq<Id>, k: nat)
    requires k < |a + b|
    ensures (a + b)[k] in a || (a + b)[k] in b
  {
  }

  lemma OperationPlain(f: Function, lp: Loop, at: Place, x: Id)
    requires InFunction(f, lp, at) && (x in at.hs.body || x in at.ls.body)
    ensures x in f.code && IsPlain(f.code[x].op)
  {
    hide Assemble, Receive, IsPlain, IsTerminator;
  }

  /** The k-th of the consecutive ids has the opcode of the k-th of the list. */
  ghost predicate SameOps(code: map<Id, Instr>, code': map<Id, Instr>, list: seq<Id>, first: Id) {
    forall k | 0 <= k < |list| ::
      list[k] in code && first + k in code' && code'[first + k].op == code[list[k]].op
  }

  lemma BodiesCloned(f: Function, lp: Loop, u: Unrolled, base: Id, block: BlockId, first: Id)
    requires IsUnrolling(f.code, lp, u, base, block) && first in {u.first0, u.first1, u.firstEpi}
    ensures SameOps(f.code, u.code, Body(f.code, lp), first)
  {
    hide *;
    UnrollEquivalence.UnrollingParts(f.code, lp, u, base, block);
    PhisDefined(lp, u, base);
    UnrollEquivalence.UnrollingBodies(f.code, lp, u, base, block);
    var body, map0 := Body(f.code, lp), PhiMap(lp.phis, Insts(u.uPhi));
    if first == u.first0 {
      ClonesOps(f.code, u.code, map0, body, u.first0, block);
    } else if first == u.first1 {
      var vals0 := LatchValues(lp, MapAfter(map0, body, u.first0));
      ClonesOps(f.code, u.code, PhiMap(lp.phis, vals0), body, u.first1, block);
    } else {
      ClonesOps(f.code, u.code, PhiMap(lp.phis, Insts(u.epiPhi)), body, u.firstEpi, block);
    }
  }

  lemma PhisDefined(lp: Loop, u: Unrolled, base: Id)
    requires FreshPhis(lp.phis, u.uPhi, base, u.addStep)
    requires exists lo: Id, hi: Id :: FreshPhis(lp.phis, u.epiPhi, lo, hi)
    ensures forall p | p in lp.phis :: p in u.uPhi && p in u.epiPhi && p in Insts(u.uPhi) && p in Insts(u.epiPhi)
  {
  }

  lemma ClonesOps(code: map<Id, Instr>, code': map<Id, Instr>, vmap: ValueMap, list: seq<Id>, first: Id, block: BlockId)
    requires AreClones(code, code', vmap, list, first, block)
    ensures SameOps(code, code', list, first)
  {
    hide MapAfter, MapAll, AreClones;
    forall k | 0 <= k < |list|
      ensures list[k] in code && first + k in code' && code'[first + k].op == code[list[k]].op
    {
      CloneAt(code, code', vmap, list, first, block, k);
    }
  }

  lemma CloneAt(code: map<Id, Instr>, code': map<Id, Instr>, vmap: ValueMap, list: seq<Id>, first: Id, block: BlockId,
                k: nat)
    requires AreClones(code, code', vmap, list, first, block) && k < |list|
    ensures list[k] in code && first + k in code'
    ensures code'[first + k] == CloneInstruction(MapAfter(vmap, list[..k], first), code[list[k]], block)
  {
    hide MapAfter, CloneInstruction;
  }

  // ----- Putting them together

  /** An operation of the new blocks, by where its id lies. */
  predicate IsNew(code: map<Id, Instr>, lp: Loop, u: Unrolled, id: Id) {
    var n := |Body(code, lp)|;
    || id == u.addStep || id == u.cond2x || id == u.condEpi
    || u.first0 <= id < u.first0 + n || u.first1 <= id < u.first1 + n || u.firstEpi <= id < u.firstEpi + n
  }

  /** The code once everything is in. */
  ghost predicate CodeBuilt(code: map<Id, Instr>, f: Function, lp: Loop, at: Place, u: Unrolled, pre: BlockId,
                            nm: Names, finals: map<Id, Id>)
  {
    && OldBuilt(code, f, lp, at, pre, u, nm, finals)
    && ArePhis(code, f.code, lp.phis, u.uPhi, pre, lp.init, Some(nm.body1), u.back, nm.uHeader)
    && ArePhis(code, f.code, lp.phis, u.epiPhi, nm.uHeader, Insts(u.uPhi), None, Insts(u.uPhi), nm.epiHeader)
    && ArePhis(code, f.code, lp.phis, finals, nm.epiHeader, FinalVals(lp, u, false), Some(nm.epiBody),
               FinalVals(lp, u, true), nm.finalExit)
  }

  ghost predicate JumpsBuilt(code: map<Id, Instr>, u: Unrolled, nm: Names, top: Id, exit: BlockId) {
    && top in code && code[top] == Instr(Jnz, 0, [Inst(u.cond2x), Blk(nm.body0), Blk(nm.epiHeader)], nm.uHeader)
    && top + 1 in code && code[top + 1] == Instr(Jmp, 0, [Blk(nm.body1)], nm.body0)
    && top + 2 in code && code[top + 2] == Instr(Jmp, 0, [Blk(nm.uHeader)], nm.body1)
    && top + 3 in code
    && code[top + 3] == Instr(Jnz, 0, [Inst(u.condEpi), Blk(nm.epiBody), Blk(nm.finalExit)], nm.epiHeader)
    && top + 4 in code && code[top + 4] == Instr(Jmp, 0, [Blk(nm.finalExit)], nm.epiBody)
    && top + 5 in code && code[top + 5] == Instr(Jmp, 0, [Blk(exit)], nm.finalExit)
  }

  lemma WithJumpsAt(code: map<Id, Instr>, u: Unrolled, nm: Names, top: Id, exit: BlockId)
    ensures JumpsBuilt(WithJumps(code, u, nm, top, exit), u, nm, top, exit)
    ensures forall id | id in code && !(top <= id < top + 6) ::
              id in WithJumps(code, u, nm, top, exit) && WithJumps(code, u, nm, top, exit)[id] == code[id]
  {
  }

  /** The blocks that unrolling makes, in place of the loop's. */
  method BuildBlocks(f: Function, lp: Loop, at: Place, u: Unrolled, ghost base: Id, ghost block: BlockId, pre: BlockId,
                     nm: Names, finals: map<Id, Id>)
    returns (g: Function, ghost bk: Blocks, ghost fs: Shape)
    requires Pieces(f, lp, at, u, base, block, pre, nm, finals)
    ensures InUnrolled(g, f.code, lp, u, bk) && ExitStands(g, lp, u, bk, fs, finals)
    ensures ReceiveAs(g.code, lp.phis, u.uPhi, pre, lp.init)
    ensures bk.uHeader == nm.uHeader && bk.finalExit == nm.finalExit
    ensures fs.body == [] && JumpsTo(g, fs, at.exit)
    ensures g.order == WithoutLoop(f.order, at)
                       + [nm.uHeader, nm.body0, nm.body1, nm.epiHeader, nm.epiBody, nm.finalExit]
    ensures forall b | b in f.blocks && b != at.header && b != at.latch :: b in g.blocks && g.blocks[b] == f.blocks[b]
    ensures forall id | id in f.code :: id in g.code && g.code[id] == Kept(f, lp, at, pre, nm, finals, id)
  {
    hide *;
    PiecesApart(f, lp, at, u, base, block, pre, nm, finals);
    InstsDefined(lp, u);
    var top := Top(f.code, lp, u);
    var code0 := Moved(f, lp, at, pre, u, nm, finals);
    var code1 := AddPhis(code0, f.code, lp.phis, u.uPhi, pre, lp.init, Some(nm.body1), u.back, nm.uHeader);
    var code2 := AddPhis(code1, f.code, lp.phis, u.epiPhi, nm.uHeader, Insts(u.uPhi), None, Insts(u.uPhi),
                         nm.epiHeader);
    var code3 := AddPhis(code2, f.code, lp.phis, finals, nm.epiHeader, FinalVals(lp, u, false), Some(nm.epiBody),
                         FinalVals(lp, u, true), nm.finalExit);
    var code4 := WithJumps(code3, u, nm, top, at.exit);
    MovedAt(f, lp, at, pre, u, nm, finals, base, block);
    AddedAt(code0, code1, f, lp, at, pre, u, nm, finals, base, block, u.uPhi);
    AddedAt(code1, code2, f, lp, at, pre, u, nm, finals, base, block, u.epiPhi);
    AddedAt(code2, code3, f, lp, at, pre, u, nm, finals, base, block, finals);
    WithJumpsAt(code3, u, nm, top, at.exit);
    AllBuilt(code1, code2, code3, code4, f, lp, at, pre, u, nm, finals, base, block);
    var order := NewOrder(f.order, at, nm);
    bk, fs := BlocksOf(f.code, lp, u, nm), ExitShape(f.code, lp, u, finals);
    var blocks := WithBlocks(f.blocks, at, BlocksOf(f.code, lp, u, nm), ExitShape(f.code, lp, u, finals));
    g := Function(order, blocks, code4);
    BlocksBuilt(g, f, lp, at, u, base, block, pre, nm, finals);
  }

  lemma InstsDefined(lp: Loop, u: Unrolled)
    requires forall p | p in lp.phis :: p in u.uPhi
    ensures forall p | p in lp.phis :: p in Insts(u.uPhi)
    ensures forall p | p in lp.phis :: p in FinalVals(lp, u, false) && p in FinalVals(lp, u, true)
  {
  }

  /** What is neither a phi nor a jump that was added. */
  ghost predicate OldBuilt(code: map<Id, Instr>, f: Function, lp: Loop, at: Place, pre: BlockId, u: Unrolled,
                           nm: Names, finals: map<Id, Id>)
  {
    && (forall id | id in f.code :: id in code && code[id] == Kept(f, lp, at, pre, nm, finals, id))
    && (forall id | IsNew(f.code, lp, u, id) && id in u.code ::
          id in code && code[id] == u.code[id].(parent := Home(lp, u, nm, |Body(f.code, lp)|, id)))
  }

  lemma MovedAt(f: Function, lp: Loop, at: Place, pre: BlockId, u: Unrolled, nm: Names, finals: map<Id, Id>,
                base: Id, block: BlockId)
    requires Pieces(f, lp, at, u, base, block, pre, nm, finals)
    ensures OldBuilt(Moved(f, lp, at, pre, u, nm, finals), f, lp, at, pre, u, nm, finals)
  {
    hide *;
    PiecesNames(f, lp, at, u, base, block, pre, nm, finals);
    CodeExtends(f, lp, u, base, block);
    forall id: Id | IsNew(f.code, lp, u, id)
      ensures id !in f.code
    {
      NewIsNotOld(f, lp, at, u, base, block, pre, nm, finals, id);
    }
    MovedBuilt(f, lp, at, pre, u, nm, finals);
  }

  lemma MovedBuilt(f: Function, lp: Loop, at: Place, pre: BlockId, u: Unrolled, nm: Names, finals: map<Id, Id>)
    requires (forall id | id in f.code :: id in u.code) && forall id: Id | IsNew(f.code, lp, u, id) :: id !in f.code
    ensures OldBuilt(Moved(f, lp, at, pre, u, nm, finals), f, lp, at, pre, u, nm, finals)
  {
    hide Kept, Home, Body, IsNew;
  }

  lemma NewIsNotOld(f: Function, lp: Loop, at: Place, u: Unrolled, base: Id, block: BlockId, pre: BlockId, nm: Names,
                    finals: map<Id, Id>, id: Id)
    requires Pieces(f, lp, at, u, base, block, pre, nm, finals) && IsNew(f.code, lp, u, id)
    ensures id !in f.code
  {
    PiecesApart(f, lp, at, u, base, block, pre, nm, finals);
    hide Pieces, Body, Top, Apart;
  }

  /** No phi and no jump that is added has the id of an operation. */
  lemma IdsApart(f: Function, lp: Loop, at: Place, u: Unrolled, base: Id, block: BlockId, pre: BlockId, nm: Names,
                 finals: map<Id, Id>, id: Id)
    requires Pieces(f, lp, at, u, base, block, pre, nm, finals) && (id in f.code || IsNew(f.code, lp, u, id))
    ensures forall p | p in lp.phis ::
              && p in u.uPhi && p in u.epiPhi && p in finals
              && u.uPhi[p] != id && u.epiPhi[p] != id && finals[p] != id
    ensures !(Top(f.code, lp, u) <= id < Top(f.code, lp, u) + 6)
  {
    hide *;
    PiecesApart(f, lp, at, u, base, block, pre, nm, finals);
    var n, top := |Body(f.code, lp)|, Top(f.code, lp, u);
    if id in f.code {
      assert id < base;
    } else {
      NewRanges(f.code, lp, u, id);
    }
  }

  lemma NewRanges(code: map<Id, Instr>, lp: Loop, u: Unrolled, id: Id)
    requires IsNew(code, lp, u, id)
    ensures var n := |Body(code, lp)|;
            || id == u.addStep || id == u.cond2x || id == u.condEpi
            || u.first0 <= id < u.first0 + n || u.first1 <= id < u.first1 + n || u.firstEpi <= id < u.firstEpi + n
  {
    hide Body;
  }

  /** Nor that of another phi. */
  lemma PhisApart(f: Function, lp: Loop, at: Place, u: Unrolled, base: Id, block: BlockId, pre: BlockId, nm: Names,
                  finals: map<Id, Id>, p: Id)
    requires Pieces(f, lp, at, u, base, block, pre, nm, finals) && p in lp.phis
    ensures forall q | q in lp.phis :: q in u.uPhi && q in u.epiPhi && q in finals
    ensures forall q | q in lp.phis ::
              u.uPhi[p] != u.epiPhi[q] && u.uPhi[p] != finals[q] && u.epiPhi[p] != finals[q]
    ensures var top := Top(f.code, lp, u);
            && !(top <= u.uPhi[p] < top + 6) && !(top <= u.epiPhi[p] < top + 6) && !(top <= finals[p] < top + 6)
  {
    PiecesApart(f, lp, at, u, base, block, pre, nm, finals);
    hide Pieces, Body, Top, Apart;
  }

  lemma CodeExtends(f: Function, lp: Loop, u: Unrolled, base: Id, block: BlockId)
    requires IsUnrolling(f.code, lp, u, base, block)
    ensures forall id | id in f.code :: id in u.code
  {
    hide AreClones, Body, Layout, LatchInLoop, MapAfter, Map0, Map1, MapEpi, Mapped;
  }

  lemma AddedAt(code: map<Id, Instr>, code': map<Id, Instr>, f: Function, lp: Loop, at: Place, pre: BlockId,
                u: Unrolled, nm: Names, finals: map<Id, Id>, base: Id, block: BlockId, dst: map<Id, Id>)
    requires Pieces(f, lp, at, u, base, block, pre, nm, finals)
    requires dst == u.uPhi || dst == u.epiPhi || dst == finals
    requires OldBuilt(code, f, lp, at, pre, u, nm, finals) && forall p | p in lp.phis :: p in dst
    requires forall id | id in code && (forall p | p in lp.phis :: dst[p] != id) :: id in code' && code'[id] == code[id]
    ensures OldBuilt(code', f, lp, at, pre, u, nm, finals)
  {
    hide Pieces, Kept, Home, Body, IsNew;
    forall id: Id | id in f.code || IsNew(f.code, lp, u, id)
      ensures forall p | p in lp.phis :: dst[p] != id
    {
      IdsApart(f, lp, at, u, base, block, pre, nm, finals, id);
    }
  }

  lemma AllBuilt(code1: map<Id, Instr>, code2: map<Id, Instr>, code3: map<Id, Instr>, code4: map<Id, Instr>,
                 f: Function, lp: Loop, at: Place, pre: BlockId, u: Unrolled, nm: Names, finals: map<Id, Id>, base: Id,
                 block: BlockId)
    requires Pieces(f, lp, at, u, base, block, pre, nm, finals)
    requires forall p | p in lp.phis :: p in u.uPhi && p in u.epiPhi && p in finals
    requires OldBuilt(code3, f, lp, at, pre, u, nm, finals)
    requires ArePhis(code1, f.code, lp.phis, u.uPhi, pre, lp.init, Some(nm.body1), u.back, nm.uHeader)
    requires ArePhis(code2, f.code, lp.phis, u.epiPhi, nm.uHeader, Insts(u.uPhi), None, Insts(u.uPhi), nm.epiHeader)
    requires ArePhis(code3, f.code, lp.phis, finals, nm.epiHeader, FinalVals(lp, u, false), Some(nm.epiBody),
                     FinalVals(lp, u, true), nm.finalExit)
    requires forall id | id in code1 && (forall p | p in lp.phis :: u.epiPhi[p] != id) ::
               id in code2 && code2[id] == code1[id]
    requires forall id | id in code2 && (forall p | p in lp.phis :: finals[p] != id) ::
               id in code3 && code3[id] == code2[id]
    requires var top := Top(f.code, lp, u);
             forall id | id in code3 && !(top <= id < top + 6) :: id in code4 && code4[id] == code3[id]
    ensures CodeBuilt(code4, f, lp, at, u, pre, nm, finals)
  {
    hide OldBuilt, ArePhis, Pieces, FinalVals, Insts, Top;
    forall p | p in lp.phis
      ensures u.uPhi[p] in code1 ==> u.uPhi[p] in code4 && code4[u.uPhi[p]] == code1[u.uPhi[p]]
      ensures u.epiPhi[p] in code2 ==> u.epiPhi[p] in code4 && code4[u.epiPhi[p]] == code2[u.epiPhi[p]]
      ensures finals[p] in code3 ==> finals[p] in code4 && code4[finals[p]] == code3[finals[p]]
    {
      PhisApart(f, lp, at, u, base, block, pre, nm, finals, p);
    }
    PhisKept(code1, code4, f.code, lp.phis, u.uPhi, pre, lp.init, Some(nm.body1), u.back, nm.uHeader);
    PhisKept(code2, code4, f.code, lp.phis, u.epiPhi, nm.uHeader, Insts(u.uPhi), None, Insts(u.uPhi), nm.epiHeader);
    PhisKept(code3, code4, f.code, lp.phis, finals, nm.epiHeader, FinalVals(lp, u, false), Some(nm.epiBody),
             FinalVals(lp, u, true), nm.finalExit);
    OldKept(code3, code4, f, lp, at, pre, u, nm, finals, base, block);
  }

  lemma PhisKept(code: map<Id, Instr>, code': map<Id, Instr>, types: map<Id, Instr>, phis: seq<Id>, dst: map<Id, Id>,
                 a: BlockId, vals: map<Id, Value>, b: Option<BlockId>, vals2: map<Id, Value>, block: BlockId)
    requires ArePhis(code, types, phis, dst, a, vals, b, vals2, block)
    requires forall p | p in phis && p in dst && dst[p] in code :: dst[p] in code' && code'[dst[p]] == code[dst[p]]
    ensures ArePhis(code', types, phis, dst, a, vals, b, vals2, block)
  {
    hide NewPhi;
  }

  lemma OldKept(code3: map<Id, Instr>, code4: map<Id, Instr>, f: Function, lp: Loop, at: Place, pre: BlockId,
                u: Unrolled, nm: Names, finals: map<Id, Id>, base: Id, block: BlockId)
    requires Pieces(f, lp, at, u, base, block, pre, nm, finals) && OldBuilt(code3, f, lp, at, pre, u, nm, finals)
    requires var top := Top(f.code, lp, u);
             forall id | id in code3 && !(top <= id < top + 6) :: id in code4 && code4[id] == code3[id]
    ensures OldBuilt(code4, f, lp, at, pre, u, nm, finals)
  {
    hide Pieces, Kept, Home, Body, Top, IsNew;
    forall id: Id | id in f.code || IsNew(f.code, lp, u, id)
      ensures !(Top(f.code, lp, u) <= id < Top(f.code, lp, u) + 6)
    {
      IdsApart(f, lp, at, u, base, block, pre, nm, finals, id);
    }
  }

  /** Blocks and code as they are meant to be. */
  lemma BlocksBuilt(g: Function, f: Function, lp: Loop, at: Place, u: Unrolled, base: Id, block: BlockId, pre: BlockId,
                    nm: Names, finals: map<Id, Id>)
    requires Pieces(f, lp, at, u, base, block, pre, nm, finals)
    requires CodeBuilt(g.code, f, lp, at, u, pre, nm, finals)
    requires JumpsBuilt(g.code, u, nm, Top(f.code, lp, u), at.exit)
    requires forall p | p in lp.phis :: p in u.uPhi && p in u.epiPhi && p in finals
    requires g.blocks == WithBlocks(f.blocks, at, BlocksOf(f.code, lp, u, nm), ExitShape(f.code, lp, u, finals))
    ensures var bk, fs := BlocksOf(f.code, lp, u, nm), ExitShape(f.code, lp, u, finals);
            && InUnrolled(g, f.code, lp, u, bk) && ExitStands(g, lp, u, bk, fs, finals)
            && ReceiveAs(g.code, lp.phis, u.uPhi, pre, lp.init)
            && bk.uHeader == nm.uHeader && bk.finalExit == nm.finalExit && fs.body == [] && JumpsTo(g, fs, at.exit)
    ensures forall b | b in f.blocks && b != at.header && b != at.latch :: b in g.blocks && g.blocks[b] == f.blocks[b]
    ensures forall id | id in f.code :: id in g.code && g.code[id] == Kept(f, lp, at, pre, nm, finals, id)
  {
    hide *;
    PiecesApart(f, lp, at, u, base, block, pre, nm, finals);
    PiecesNames(f, lp, at, u, base, block, pre, nm, finals);
    BlocksAre(f, lp, u, nm, finals);
    PhisBuilt(g.code, f, lp, at, u, base, block, pre, nm, finals);
    ShapesBuilt(g.code, f, lp, at, u, base, block, pre, nm, finals);
    NamesBuilt(f, at, nm, BlocksOf(f.code, lp, u, nm), ExitShape(f.code, lp, u, finals));
    BranchesBuilt(g, f, lp, u, nm, finals, at.exit);
    NamesApart(f, nm);
    StandTogether(g, f.code, lp, u, BlocksOf(f.code, lp, u, nm), ExitShape(f.code, lp, u, finals), finals);
    KeptBuilt(g.code, f, lp, at, u, pre, nm, finals);
  }

  lemma KeptBuilt(code: map<Id, Instr>, f: Function, lp: Loop, at: Place, u: Unrolled, pre: BlockId, nm: Names,
                  finals: map<Id, Id>)
    requires CodeBuilt(code, f, lp, at, u, pre, nm, finals)
    ensures forall id | id in f.code :: id in code && code[id] == Kept(f, lp, at, pre, nm, finals, id)
  {
    hide Kept, Home, NewPhi, FinalVals;
  }

  lemma PhisBuilt(code: map<Id, Instr>, f: Function, lp: Loop, at: Place, u: Unrolled, base: Id, block: BlockId,
                  pre: BlockId, nm: Names, finals: map<Id, Id>)
    requires Pieces(f, lp, at, u, base, block, pre, nm, finals) && CodeBuilt(code, f, lp, at, u, pre, nm, finals)
    ensures ReceiveAs(code, lp.phis, u.uPhi, pre, lp.init) && ReceiveAs(code, lp.phis, u.uPhi, nm.body1, u.back)
    ensures ReceiveAs(code, lp.phis, u.epiPhi, nm.uHeader, Insts(u.uPhi))
    ensures ReceiveAs(code, lp.phis, finals, nm.epiHeader, FinalVals(lp, u, false))
    ensures ReceiveAs(code, lp.phis, finals, nm.epiBody, FinalVals(lp, u, true))
  {
    hide *;
    PiecesApart(f, lp, at, u, base, block, pre, nm, finals);
    PiecesNames(f, lp, at, u, base, block, pre, nm, finals);
    NamesApart(f, nm);
    InstsDefined(lp, u);
    NewPhisAre(code, f, lp, at, u, pre, nm, finals);
    FirstReceived(code, f.code, lp.phis, u.uPhi, pre, lp.init, Some(nm.body1), u.back, nm.uHeader);
    FirstReceived(code, f.code, lp.phis, u.epiPhi, nm.uHeader, Insts(u.uPhi), None, Insts(u.uPhi), nm.epiHeader);
    FirstReceived(code, f.code, lp.phis, finals, nm.epiHeader, FinalVals(lp, u, false), Some(nm.epiBody),
                  FinalVals(lp, u, true), nm.finalExit);
    SecondReceived(code, f.code, lp.phis, u.uPhi, pre, lp.init, nm.body1, u.back, nm.uHeader);
    SecondReceived(code, f.code, lp.phis, finals, nm.epiHeader, FinalVals(lp, u, false), nm.epiBody,
                   FinalVals(lp, u, true), nm.finalExit);
  }

  lemma NewPhisAre(code: map<Id, Instr>, f: Function, lp: Loop, at: Place, u: Unrolled, pre: BlockId, nm: Names,
                   finals: map<Id, Id>)
    requires CodeBuilt(code, f, lp, at, u, pre, nm, finals)
    ensures ArePhis(code, f.code, lp.phis, u.uPhi, pre, lp.init, Some(nm.body1), u.back, nm.uHeader)
    ensures ArePhis(code, f.code, lp.phis, u.epiPhi, nm.uHeader, Insts(u.uPhi), None, Insts(u.uPhi), nm.epiHeader)
    ensures ArePhis(code, f.code, lp.phis, finals, nm.epiHeader, FinalVals(lp, u, false), Some(nm.epiBody),
                    FinalVals(lp, u, true), nm.finalExit)
  {
    hide ArePhis, OldBuilt;
  }

  lemma FirstReceived(code: map<Id, Instr>, types: map<Id, Instr>, phis: seq<Id>, dst: map<Id, Id>, a: BlockId,
                      vals: map<Id, Value>, b: Option<BlockId>, vals2: map<Id, Value>, block: BlockId)
    requires ArePhis(code, types, phis, dst, a, vals, b, vals2, block)
    ensures ReceiveAs(code, phis, dst, a, vals)
  {
    hide IncomingFrom;
    forall p | p in phis
      ensures IncomingFrom(code[dst[p]].operands, a, 0) == Some(vals[p])
    {
      NewPhiReceives(types[p].ty, a, vals[p], b, vals2[p], block);
    }
  }

  lemma SecondReceived(code: map<Id, Instr>, types: map<Id, Instr>, phis: seq<Id>, dst: map<Id, Id>, a: BlockId,
                       vals: map<Id, Value>, b: BlockId, vals2: map<Id, Value>, block: BlockId)
    requires ArePhis(code, types, phis, dst, a, vals, Some(b), vals2, block) && a != b
    ensures ReceiveAs(code, phis, dst, b, vals2)
  {
    hide IncomingFrom;
    forall p | p in phis
      ensures IncomingFrom(code[dst[p]].operands, b, 0) == Some(vals2[p])
    {
      NewPhiReceives(types[p].ty, a, vals[p], Some(b), vals2[p], block);
    }
  }

  lemma NamesApart(f: Function, nm: Names)
    requires FreshNames(f, nm)
    ensures nm.body0 != nm.epiHeader && nm.epiBody != nm.finalExit && nm.epiHeader != nm.epiBody
    ensures nm.uHeader !in f.blocks && nm.body1 !in f.blocks && nm.body0 !in f.blocks
    ensures nm.epiHeader !in f.blocks && nm.epiBody !in f.blocks && nm.finalExit !in f.blocks
  {
    var list := [nm.uHeader, nm.body0, nm.body1, nm.epiHeader, nm.epiBody, nm.finalExit];
    assert list[1] != list[3] && list[4] != list[5] && list[3] != list[4];
    var names := {nm.uHeader, nm.body0, nm.body1, nm.epiHeader, nm.epiBody, nm.finalExit};
    assert nm.uHeader in names && nm.body0 in names && nm.body1 in names;
    assert nm.epiHeader in names && nm.epiBody in names && nm.finalExit in names;
  }

  lemma PiecesNames(f: Function, lp: Loop, at: Place, u: Unrolled, base: Id, block: BlockId, pre: BlockId, nm: Names,
                    finals: map<Id, Id>)
    requires Pieces(f, lp, at, u, base, block, pre, nm, finals)
    ensures FreshNames(f, nm) && InFunction(f, lp, at) && IsUnrolling(f.code, lp, u, base, block) && IsPlain(lp.cmp)
    ensures at.header in f.blocks && at.latch in f.blocks
  {
    hide FreshNames, IsUnrolling, ValidShape, Assemble, Receive, IsPlain;
  }

  /** Operations of a new block, as they were made. */
  lemma NewOps(code: map<Id, Instr>, f: Function, lp: Loop, at: Place, u: Unrolled, pre: BlockId, nm: Names,
               finals: map<Id, Id>, list: seq<Id>)
    requires CodeBuilt(code, f, lp, at, u, pre, nm, finals)
    requires forall id | id in list :: IsNew(f.code, lp, u, id) && id in u.code && IsPlain(u.code[id].op)
    ensures SameCode(u.code, code, list) && forall id | id in list :: id in code && IsPlain(code[id].op)
  {
    hide Kept, Home, NewPhi, FinalVals, IsNew, IsPlain;
  }

  lemma NewPhis(code: map<Id, Instr>, f: Function, lp: Loop, at: Place, u: Unrolled, pre: BlockId, nm: Names,
                finals: map<Id, Id>, dst: map<Id, Id>)
    requires CodeBuilt(code, f, lp, at, u, pre, nm, finals) && (dst == u.uPhi || dst == u.epiPhi || dst == finals)
    ensures forall p | p in lp.phis :: p in dst
    ensures forall id | id in PhiIds(lp.phis, dst) :: id in code && code[id].op == Phi
  {
    hide Kept, Home, FinalVals, IsNew;
    forall id | id in PhiIds(lp.phis, dst)
      ensures id in code && code[id].op == Phi
    {
      InPhiIds(lp.phis, dst, id);
    }
  }

  /** The operations of the new header and of the epilogue's test. */
  lemma TestsArePlain(f: Function, lp: Loop, u: Unrolled, base: Id, block: BlockId)
    requires IsUnrolling(f.code, lp, u, base, block) && IsPlain(lp.cmp)
    ensures forall id | id in [u.addStep, u.cond2x] || id in [u.condEpi] ::
              IsNew(f.code, lp, u, id) && id in u.code && IsPlain(u.code[id].op)
  {
    hide AreClones, Body, LatchInLoop, MapAfter, Map0, Map1, MapEpi, Mapped, Layout;
  }

  lemma BodyIdsAreNew(code: map<Id, Instr>, lp: Loop, u: Unrolled, first: Id)
    requires first in {u.first0, u.first1, u.firstEpi}
    ensures forall id | id in Ids(first, |Body(code, lp)|) :: IsNew(code, lp, u, id)
  {
    forall id | id in Ids(first, |Body(code, lp)|)
      ensures IsNew(code, lp, u, id)
    {
      IdsAt(first, |Body(code, lp)|, id);
    }
  }

  lemma ShapeIsValid(code: map<Id, Instr>, sh: Shape)
    requires forall id | id in sh.phis :: id in code && code[id].op == Phi
    requires forall id | id in sh.body :: id in code && IsPlain(code[id].op)
    requires sh.term in code && IsTerminator(code[sh.term].op)
    ensures ValidShape(code, sh)
  {
  }

  lemma JumpsEnd(code: map<Id, Instr>, u: Unrolled, nm: Names, top: Id, exit: BlockId)
    requires JumpsBuilt(code, u, nm, top, exit)
    ensures forall id | top <= id < top + 6 :: id in code && IsTerminator(code[id].op)
  {
  }

  lemma ShapesBuilt(code: map<Id, Instr>, f: Function, lp: Loop, at: Place, u: Unrolled, base: Id, block: BlockId,
                    pre: BlockId, nm: Names, finals: map<Id, Id>)
    requires Pieces(f, lp, at, u, base, block, pre, nm, finals) && CodeBuilt(code, f, lp, at, u, pre, nm, finals)
    requires JumpsBuilt(code, u, nm, Top(f.code, lp, u), at.exit)
    requires forall p | p in lp.phis :: p in u.uPhi && p in u.epiPhi && p in finals
    ensures var bk := BlocksOf(f.code, lp, u, nm);
            && ValidShape(code, bk.us) && ValidShape(code, bk.s0) && ValidShape(code, bk.s1)
            && ValidShape(code, bk.es) && ValidShape(code, bk.bs)
            && SameCode(u.code, code, bk.us.body) && SameCode(u.code, code, bk.s0.body)
            && SameCode(u.code, code, bk.s1.body) && SameCode(u.code, code, bk.es.body)
            && SameCode(u.code, code, bk.bs.body)
    ensures ValidShape(code, ExitShape(f.code, lp, u, finals))
  {
    hide *;
    var n, top := |Body(f.code, lp)|, Top(f.code, lp, u);
    PiecesNames(f, lp, at, u, base, block, pre, nm, finals);
    BlocksAre(f, lp, u, nm, finals);
    TestsArePlain(f, lp, u, base, block);
    NewOps(code, f, lp, at, u, pre, nm, finals, [u.addStep, u.cond2x]);
    NewOps(code, f, lp, at, u, pre, nm, finals, [u.condEpi]);
    BodyBuilt(code, f, lp, at, u, base, block, pre, nm, finals, u.first0);
    BodyBuilt(code, f, lp, at, u, base, block, pre, nm, finals, u.first1);
    BodyBuilt(code, f, lp, at, u, base, block, pre, nm, finals, u.firstEpi);
    NewPhis(code, f, lp, at, u, pre, nm, finals, u.uPhi);
    NewPhis(code, f, lp, at, u, pre, nm, finals, u.epiPhi);
    NewPhis(code, f, lp, at, u, pre, nm, finals, finals);
    JumpsEnd(code, u, nm, top, at.exit);
    var bk := BlocksOf(f.code, lp, u, nm);
    ShapeIsValid(code, bk.us);
    ShapeIsValid(code, bk.s0);
    ShapeIsValid(code, bk.s1);
    ShapeIsValid(code, bk.es);
    ShapeIsValid(code, bk.bs);
    ShapeIsValid(code, ExitShape(f.code, lp, u, finals));
  }

  lemma BodyBuilt(code: map<Id, Instr>, f: Function, lp: Loop, at: Place, u: Unrolled, base: Id, block: BlockId,
                  pre: BlockId, nm: Names, finals: map<Id, Id>, first: Id)
    requires InFunction(f, lp, at) && IsUnrolling(f.code, lp, u, base, block)
    requires CodeBuilt(code, f, lp, at, u, pre, nm, finals) && first in {u.first0, u.first1, u.firstEpi}
    ensures var list := Ids(first, |Body(f.code, lp)|);
            SameCode(u.code, code, list) && forall id | id in list :: id in code && IsPlain(code[id].op)
  {
    hide *;
    BodiesArePlain(f, lp, at, u, base, block, first);
    BodyIdsAreNew(f.code, lp, u, first);
    NewOps(code, f, lp, at, u, pre, nm, finals, Ids(first, |Body(f.code, lp)|));
  }

  lemma BlocksAre(f: Function, lp: Loop, u: Unrolled, nm: Names, finals: map<Id, Id>)
    requires forall p | p in lp.phis :: p in u.uPhi && p in u.epiPhi && p in finals
    ensures var bk, fs, n, top := BlocksOf(f.code, lp, u, nm), ExitShape(f.code, lp, u, finals), |Body(f.code, lp)|,
                                  Top(f.code, lp, u);
            && bk.uHeader == nm.uHeader && bk.body0 == nm.body0 && bk.body1 == nm.body1
            && bk.epiHeader == nm.epiHeader && bk.epiBody == nm.epiBody && bk.finalExit == nm.finalExit
            && bk.us == Shape(PhiIds(lp.phis, u.uPhi), [u.addStep, u.cond2x], top)
            && bk.s0 == Shape([], Ids(u.first0, n), top + 1) && bk.s1 == Shape([], Ids(u.first1, n), top + 2)
            && bk.es == Shape(PhiIds(lp.phis, u.epiPhi), [u.condEpi], top + 3)
            && bk.bs == Shape([], Ids(u.firstEpi, n), top + 4) && fs == Shape(PhiIds(lp.phis, finals), [], top + 5)
  {
    hide Body, Top;
  }

  lemma BranchesBuilt(g: Function, f: Function, lp: Loop, u: Unrolled, nm: Names, finals: map<Id, Id>, exit: BlockId)
    requires forall p | p in lp.phis :: p in u.uPhi && p in u.epiPhi && p in finals
    requires JumpsBuilt(g.code, u, nm, Top(f.code, lp, u), exit)
    ensures var bk := BlocksOf(f.code, lp, u, nm);
            && BranchesTo(g, bk.us, u.cond2x, bk.body0, bk.epiHeader)
            && JumpsTo(g, bk.s0, bk.body1) && JumpsTo(g, bk.s1, bk.uHeader)
            && BranchesTo(g, bk.es, u.condEpi, bk.epiBody, bk.finalExit) && JumpsTo(g, bk.bs, bk.finalExit)
    ensures JumpsTo(g, ExitShape(f.code, lp, u, finals), exit)
  {
    BlocksAre(f, lp, u, nm, finals);
    hide BlocksOf, ExitShape, Body, Top;
  }

  lemma NamesBuilt(f: Function, at: Place, nm: Names, bk: Blocks, fs: Shape)
    requires FreshNames(f, nm)
    requires bk.uHeader == nm.uHeader && bk.body0 == nm.body0 && bk.body1 == nm.body1
    requires bk.epiHeader == nm.epiHeader && bk.epiBody == nm.epiBody && bk.finalExit == nm.finalExit
    ensures var blocks := WithBlocks(f.blocks, at, bk, fs);
            && bk.uHeader in blocks && blocks[bk.uHeader] == Assemble(bk.us)
            && bk.body0 in blocks && blocks[bk.body0] == Assemble(bk.s0)
            && bk.body1 in blocks && blocks[bk.body1] == Assemble(bk.s1)
            && bk.epiHeader in blocks && blocks[bk.epiHeader] == Assemble(bk.es)
            && bk.epiBody in blocks && blocks[bk.epiBody] == Assemble(bk.bs)
            && bk.finalExit in blocks && blocks[bk.finalExit] == Assemble(fs)
            && forall b | b in f.blocks && b != at.header && b != at.latch :: b in blocks && blocks[b] == f.blocks[b]
  {
    hide Assemble;
    NamesApart(f, nm);
    NamesDistinct(f, nm);
  }

  lemma NamesDistinct(f: Function, nm: Names)
    requires FreshNames(f, nm)
    ensures nm.uHeader !in {nm.body0, nm.body1, nm.epiHeader, nm.epiBody, nm.finalExit}
    ensures nm.body0 !in {nm.body1, nm.epiHeader, nm.epiBody, nm.finalExit}
    ensures nm.body1 !in {nm.epiHeader, nm.epiBody, nm.finalExit}
    ensures nm.epiHeader !in {nm.epiBody, nm.finalExit} && nm.epiBody != nm.finalExit
  {
    var list := [nm.uHeader, nm.body0, nm.body1, nm.epiHeader, nm.epiBody, nm.finalExit];
    assert forall i, j | 0 <= i < j < 6 :: list[i] != list[j];
    assert list[0] == nm.uHeader && list[1] == nm.body0 && list[2] == nm.body1;
    assert list[3] == nm.epiHeader && list[4] == nm.epiBody && list[5] == nm.finalExit;
  }

  /** All of it. */
  lemma StandTogether(g: Function, code: map<Id, Instr>, lp: Loop, u: Unrolled, bk: Blocks, fs: Shape,
                      finals: map<Id, Id>)
    requires lp.phis != [] && Distinct(lp.phis)
    requires forall p | p in lp.phis :: p in u.uPhi && p in u.epiPhi && p in finals
    requires Apart(lp.phis, u.uPhi) && Apart(lp.phis, u.epiPhi) && Apart(lp.phis, finals)
    requires bk.body0 != bk.epiHeader && bk.epiBody != bk.finalExit
    requires bk.uHeader in g.blocks && g.blocks[bk.uHeader] == Assemble(bk.us) && ValidShape(g.code, bk.us)
    requires bk.body0 in g.blocks && g.blocks[bk.body0] == Assemble(bk.s0) && ValidShape(g.code, bk.s0)
    requires bk.body1 in g.blocks && g.blocks[bk.body1] == Assemble(bk.s1) && ValidShape(g.code, bk.s1)
    requires bk.epiHeader in g.blocks && g.blocks[bk.epiHeader] == Assemble(bk.es) && ValidShape(g.code, bk.es)
    requires bk.epiBody in g.blocks && g.blocks[bk.epiBody] == Assemble(bk.bs) && ValidShape(g.code, bk.bs)
    requires bk.finalExit in g.blocks && g.blocks[bk.finalExit] == Assemble(fs) && ValidShape(g.code, fs)
    requires bk.us.phis == PhiIds(lp.phis, u.uPhi) && bk.us.body == [u.addStep, u.cond2x]
    requires bk.s0.phis == [] && bk.s0.body == Ids(u.first0, |Body(code, lp)|)
    requires bk.s1.phis == [] && bk.s1.body == Ids(u.first1, |Body(code, lp)|)
    requires bk.es.phis == PhiIds(lp.phis, u.epiPhi) && bk.es.body == [u.condEpi]
    requires bk.bs.phis == [] && bk.bs.body == Ids(u.firstEpi, |Body(code, lp)|)
    requires fs.phis == PhiIds(lp.phis, finals)
    requires BranchesTo(g, bk.us, u.cond2x, bk.body0, bk.epiHeader)
    requires JumpsTo(g, bk.s0, bk.body1) && JumpsTo(g, bk.s1, bk.uHeader)
    requires BranchesTo(g, bk.es, u.condEpi, bk.epiBody, bk.finalExit) && JumpsTo(g, bk.bs, bk.finalExit)
    requires ReceiveAs(g.code, lp.phis, u.uPhi, bk.body1, u.back)
    requires ReceiveAs(g.code, lp.phis, u.epiPhi, bk.uHeader, Insts(u.uPhi))
    requires ReceiveAs(g.code, lp.phis, finals, bk.epiHeader, FinalVals(lp, u, false))
    requires ReceiveAs(g.code, lp.phis, finals, bk.epiBody, FinalVals(lp, u, true))
    requires SameCode(u.code, g.code, bk.us.body) && SameCode(u.code, g.code, bk.s0.body)
    requires SameCode(u.code, g.code, bk.s1.body) && SameCode(u.code, g.code, bk.es.body)
    requires SameCode(u.code, g.code, bk.bs.body)
    ensures InUnrolled(g, code, lp, u, bk) && ExitStands(g, lp, u, bk, fs, finals)
  {
    hide Assemble, ValidShape, BranchesTo, JumpsTo, ReceiveAs, SameCode, Apart, Distinct, Body, FinalVals, Insts;
  }

  /** The whole of it: pieces and blocks, from the loop in its function. */
  method UnrollInFunction(f: Function, lp: Loop, at: Place, base: Id, pre: BlockId, nm: Names)
    returns (g: Function, u: Unrolled, finals: map<Id, Id>, ghost bk: Blocks, ghost fs: Shape)
    requires InFunction(f, lp, at) && ValidLoop(f.code, lp, base) && IsPlain(lp.cmp) && FreshNames(f, nm)
    requires pre in f.blocks && pre != at.header && pre != at.latch
    ensures IsUnrolling(f.code, lp, u, base, nm.uHeader) && InUnrolled(g, f.code, lp, u, bk)
    ensures ExitStands(g, lp, u, bk, fs, finals) && ReceiveAs(g.code, lp.phis, u.uPhi, pre, lp.init)
    ensures bk.uHeader == nm.uHeader && bk.finalExit == nm.finalExit && fs.body == [] && JumpsTo(g, fs, at.exit)
    ensures g.order == WithoutLoop(f.order, at)
                       + [nm.uHeader, nm.body0, nm.body1, nm.epiHeader, nm.epiBody, nm.finalExit]
    ensures forall b | b in f.blocks && b != at.header && b != at.latch :: b in g.blocks && g.blocks[b] == f.blocks[b]
    ensures forall id | id in f.code :: id in g.code && g.code[id] == Kept(f, lp, at, pre, nm, finals, id)
  {
    hide *;
    ValidParts(f.code, lp, base);
    u := UnrollLoop(f.code, lp, base, nm.uHeader);
    var vmap;
    finals, vmap := LoopUnroll.NewPhis(lp.phis, Top(f.code, lp, u) + 6);
    PiecesAre(f, lp, at, u, base, nm.uHeader, pre, nm, finals);
    g, bk, fs := BuildBlocks(f, lp, at, u, base, nm.uHeader, pre, nm, finals);
  }

  lemma PiecesAre(f: Function, lp: Loop, at: Place, u: Unrolled, base: Id, block: BlockId, pre: BlockId, nm: Names,
                  finals: map<Id, Id>)
    requires InFunction(f, lp, at) && IsUnrolling(f.code, lp, u, base, block) && ValidLoop(f.code, lp, base)
    requires IsPlain(lp.cmp) && FreshNames(f, nm) && pre in f.blocks && pre != at.header && pre != at.latch
    requires FreshPhis(lp.phis, finals, Top(f.code, lp, u) + 6, Top(f.code, lp, u) + 6 + |lp.phis|)
    ensures Pieces(f, lp, at, u, base, block, pre, nm, finals)
  {
    hide InFunction, IsUnrolling, ValidLoop, IsPlain, FreshNames, FreshPhis;
  }
}
