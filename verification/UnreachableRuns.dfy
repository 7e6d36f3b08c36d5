/**
 Why no run can tell that unreachable blocks are gone, and the loop that removes them.
 */
module UnreachableRuns {
  import opened IR
  import opened Simulation
  import opened Erasure
  import opened UnreachableBlocks

  ghost function IdsOfAll(f: Function, gone: set<BlockId>): set<Id> {
    set b, id | b in gone && b in f.blocks && id in f.blocks[b] :: id
  }

  function NullOption(v: Option<Value>, ids: set<Id>, blocks: set<BlockId>): Option<Value> {
    if v.Some? then Some(NullValue(v.value, ids, blocks)) else None
  }

  /** j is i when the instructions `ids` and the blocks `gone` are no more. */
  ghost predicate TrimmedInstr(i: Instr, j: Instr, ids: set<Id>, gone: set<BlockId>) {
    && j.op == i.op && j.ty == i.ty && j.parent == i.parent
    && (i.op != Phi ==> j.operands == NullAll(i.operands, ids, gone))
    && (i.op == Phi ==>
          && PhiPairs(j.operands)
          && (forall v | v in j.operands :: v == Null || (v in i.operands && v == NullValue(v, ids, gone)))
          && (forall p: BlockId | p !in gone ::
                IncomingFrom(j.operands, p, 0) == NullOption(IncomingFrom(i.operands, p, 0), ids, gone)))
  }

  /** g is f without the blocks `gone`. */
  ghost predicate Trimmed(f: Function, g: Function, gone: set<BlockId>) {
    && g.order == Keep(f.order, gone) && g.blocks == f.blocks - gone
    && g.code.Keys == f.code.Keys - IdsOfAll(f, gone)
    && forall id | id in g.code :: TrimmedInstr(f.code[id], g.code[id], IdsOfAll(f, gone), gone)
  }

  lemma {:induction false} NulledIncoming(operands: seq<Value>, p: BlockId, k: nat, ids: set<Id>, gone: set<BlockId>)
    requires PhiPairs(operands) && p !in gone
    ensures IncomingFrom(NullAll(operands, ids, gone), p, k) == NullOption(IncomingFrom(operands, p, k), ids, gone)
    decreases |operands| - 2 * k
  {
    if 2 * k + 1 < |operands| {
      NulledIncoming(operands, p, k + 1, ids, gone);
    }
  }

  lemma NulledPairs(operands: seq<Value>, ids: set<Id>, gone: set<BlockId>)
    requires PhiPairs(operands)
    ensures PhiPairs(NullAll(operands, ids, gone))
  {
  }

  lemma NullTwice(v: Value, ids: set<Id>, gone: set<BlockId>, ids': set<Id>, gone': set<BlockId>)
    ensures NullValue(NullValue(v, ids, gone), ids', gone') == NullValue(v, ids + ids', gone + gone')
    ensures NullValue(NullValue(v, ids, gone), ids, gone) == NullValue(v, ids, gone)
  {
  }

  lemma NullAllTwice(vs: seq<Value>, ids: set<Id>, gone: set<BlockId>, ids': set<Id>, gone': set<BlockId>)
    ensures NullAll(NullAll(vs, ids, gone), ids', gone') == NullAll(vs, ids + ids', gone + gone')
  {
    forall i | 0 <= i < |vs|
      ensures NullValue(NullValue(vs[i], ids, gone), ids', gone') == NullValue(vs[i], ids + ids', gone + gone')
    {
      NullTwice(vs[i], ids, gone, ids', gone');
    }
  }

  /** One more block gone. */
  lemma TrimmedMore(i: Instr, j: Instr, k: Instr, ids: set<Id>, gone: set<BlockId>, ids': set<Id>, b: BlockId)
    requires TrimmedInstr(i, j, ids, gone) && DetachedInstr(j, k, b)
    ensures TrimmedInstr(i, k.(operands := NullAll(k.operands, ids', {b})), ids + ids', gone + {b})
  {
    var l := k.(operands := NullAll(k.operands, ids', {b}));
    if i.op != Phi {
      NullAllTwice(i.operands, ids, gone, ids', {b});
    } else {
      NulledPairs(k.operands, ids', {b});
      forall p: BlockId | p !in gone + {b}
        ensures IncomingFrom(l.operands, p, 0) == NullOption(IncomingFrom(i.operands, p, 0), ids + ids', gone + {b})
      {
        NulledIncoming(k.operands, p, 0, ids', {b});
        var v := IncomingFrom(i.operands, p, 0);
        if v.Some? { NullTwice(v.value, ids, gone, ids', {b}); }
      }
      forall v | v in l.operands
        ensures v == Null || (v in i.operands && v == NullValue(v, ids + ids', gone + {b}))
      {
        var n :| 0 <= n < |l.operands| && l.operands[n] == v;
        assert k.operands[n] in k.operands;
        assert k.operands[n] in j.operands;
      }
    }
  }

  lemma {:induction false} KeepKeep(list: seq<Id>, a: set<Id>, b: set<Id>)
    ensures Keep(Keep(list, a), b) == Keep(list, a + b)
  {
    if list != [] {
      KeepKeep(list[1..], a, b);
      var front, rest := if list[0] in a then [] else [list[0]], Keep(list[1..], a);
      assert front != [] ==> (front + rest)[1..] == rest && (front + rest)[0] == list[0];
      assert front == [] ==> front + rest == rest;
    }
  }

  lemma IdsOfMore(f: Function, g: Function, gone: set<BlockId>, b: BlockId)
    requires g.blocks == f.blocks - gone && b in g.blocks
    ensures IdsOfAll(f, gone + {b}) == IdsOfAll(f, gone) + IdsOf(g, b)
  {
  }

  lemma RemoveIsTrim(f: Function, g: Function, gone: set<BlockId>, b: BlockId)
    requires Trimmed(f, g, gone) && b in g.blocks
    ensures Trimmed(f, RemoveBlock(g, b), gone + {b})
  {
    var h, ids := RemoveBlock(g, b), IdsOf(g, b);
    KeepKeep(f.order, gone, {b});
    IdsOfMore(f, g, gone, b);
    DetachedAll(g.blocks, g.code, Exits(g, b), b, |Exits(g, b)|);
    var code := Detached(g.blocks, g.code, Exits(g, b), b, |Exits(g, b)|);
    assert f.blocks - gone - {b} == f.blocks - (gone + {b});
    hide TrimmedInstr, DetachedInstr, Detached, IdsOfAll, IdsOf, Exits, Keep;
    assert h == WithoutBlock(g, b, code);
    forall id | id in h.code
      ensures TrimmedInstr(f.code[id], h.code[id], IdsOfAll(f, gone + {b}), gone + {b})
    {
      TrimmedMore(f.code[id], g.code[id], code[id], IdsOfAll(f, gone), gone, ids, b);
    }
  }

  lemma NothingTrimmed(f: Function)
    requires Tidy(f)
    ensures Trimmed(f, f, {})
  {
    KeepEverything(f.order);
    assert IdsOfAll(f, {}) == {};
    assert f.blocks - {} == f.blocks;
    forall id | id in f.code
      ensures TrimmedInstr(f.code[id], f.code[id], {}, {})
    {
      assert LabelsInPlace(f.code[id]);
      hide Tidy;
      assert NullAll(f.code[id].operands, {}, {}) == f.code[id].operands;
    }
  }

  lemma {:induction false} KeepEverything(list: seq<Id>)
    ensures Keep(list, {}) == list
  {
    if list != [] { KeepEverything(list[1..]); }
  }

  // ----- The loop over the blocks

  /** The blocks from position 1 up to k that were not found. */
  function Dropped(order: seq<BlockId>, reachable: set<BlockId>, k: nat): seq<BlockId>
    requires k <= |order|
  {
    if k <= 1 then []
    else Dropped(order, reachable, k - 1) + (if order[k - 1] in reachable then [] else [order[k - 1]])
  }

  lemma {:induction false} DroppedAre(order: seq<BlockId>, reachable: set<BlockId>, k: nat)
    requires k <= |order|
    ensures forall b: BlockId :: b in Dropped(order, reachable, k)
              <==> b in (if k <= 1 then [] else order[1..k]) && b !in reachable
  {
    if k > 1 {
      DroppedAre(order, reachable, k - 1);
      assert order[1..k] == order[1..k - 1] + [order[k - 1]];
    }
  }

  ghost function Elements(bs: seq<BlockId>): set<BlockId> {
    set b | b in bs
  }

  lemma RemoveNext(f: Function, bs: seq<BlockId>, b: BlockId)
    requires b in f.blocks && b !in bs && Trimmed(f, RemoveAll(f, bs), Elements(bs))
    ensures RemoveAll(f, bs + [b]) == RemoveBlock(RemoveAll(f, bs), b)
    ensures Trimmed(f, RemoveAll(f, bs + [b]), Elements(bs + [b]))
  {
    assert (bs + [b])[..|bs|] == bs && Last(bs + [b]) == b;
    hide RemoveBlock, Trimmed;
    assert Elements(bs + [b]) == Elements(bs) + {b};
    TrimmedBlocks(f, RemoveAll(f, bs), Elements(bs));
    RemoveIsTrim(f, RemoveAll(f, bs), Elements(bs), b);
  }

  lemma TrimmedBlocks(f: Function, g: Function, gone: set<BlockId>)
    requires Trimmed(f, g, gone)
    ensures g.blocks == f.blocks - gone
  {
  }

  lemma BlockInOrder(f: Function, k: nat)
    requires Tidy(f) && 1 <= k < |f.order|
    ensures f.order[k] in f.blocks && f.order[k] !in f.order[1..k]
    ensures forall c, i, j | c in f.blocks && 0 <= i < j < |f.blocks[c]| :: f.blocks[c][i] != f.blocks[c][j]
  {
    assert f.order[k] in f.order;
  }

  /** The blocks no chain of terminators leads to. */
  ghost predicate AreUnreachable(f: Function, gone: set<BlockId>)
    requires f.order != []
  {
    forall b: BlockId :: b in gone <==> b in f.blocks && !Reachable(f, b)
  }

  lemma DroppedAreUnreachable(f: Function, reachable: set<BlockId>)
    requires Tidy(f) && f.order != [] && (forall b: BlockId :: b in reachable <==> Reachable(f, b))
    requires f.order[0] in reachable
    ensures AreUnreachable(f, Elements(Dropped(f.order, reachable, |f.order|)))
  {
    DroppedAre(f.order, reachable, |f.order|);
    assert f.order == [f.order[0]] + f.order[1..];
    assert f.order[1..|f.order|] == f.order[1..];
    assert forall b: BlockId :: b in f.order <==> b in f.blocks;
    hide Tidy, Dropped;
  }

  method EliminateUnreachableBlocks(f: Function) returns (g: Function, changed: bool, ghost gone: set<BlockId>)
    requires Tidy(f)
    ensures f.order != [] && AreUnreachable(f, gone) && Trimmed(f, g, gone)
    ensures changed <==> gone != {}
    ensures !changed ==> g == f
  {
    hide *;
    NothingTrimmed(f);
    var reachable := FindReachableBlocks(f);
    g, changed := f, false;
    ghost var bs: seq<BlockId> := [];
    RemoveNone(f, reachable);
    for k := 1 to |f.order|
      invariant bs == Dropped(f.order, reachable, k) && g == RemoveAll(f, bs) && Trimmed(f, g, Elements(bs))
      invariant changed <==> bs != []
      invariant !changed ==> g == f
    {
      BlockInOrder(f, k);
      DroppedNext(f.order, reachable, k);
      if f.order[k] !in reachable {
        TrimmedBlocks(f, g, Elements(bs));
        DistinctKept(f, g, Elements(bs));
        RemoveNext(f, bs, f.order[k]);
        g := EliminateBlock(g, f.order[k]);
        changed := true;
        bs := bs + [f.order[k]];
      }
    }
    gone := Elements(bs);
    DroppedAreUnreachable(f, reachable);
    NoElements(bs);
  }

  lemma NoElements(bs: seq<BlockId>)
    ensures bs != [] <==> Elements(bs) != {}
  {
    if bs != [] { assert bs[0] in Elements(bs); }
  }

  lemma RemoveNone(f: Function, reachable: set<BlockId>)
    requires Trimmed(f, f, {})
    ensures RemoveAll(f, []) == f && Trimmed(f, f, Elements([]))
    ensures 1 <= |f.order| ==> Dropped(f.order, reachable, 1) == []
    ensures 0 <= |f.order| ==> Dropped(f.order, reachable, 0) == []
  {
    assert Elements([]) == {};
  }

  lemma DroppedNext(order: seq<BlockId>, reachable: set<BlockId>, k: nat)
    requires 1 <= k < |order|
    ensures Dropped(order, reachable, k + 1)
         == Dropped(order, reachable, k) + (if order[k] in reachable then [] else [order[k]])
    ensures order[k] !in order[1..k] ==> order[k] !in Dropped(order, reachable, k)
  {
    DroppedAre(order, reachable, k);
  }

  lemma DistinctKept(f: Function, g: Function, gone: set<BlockId>)
    requires g.blocks == f.blocks - gone
    requires forall c, i, j | c in f.blocks && 0 <= i < j < |f.blocks[c]| :: f.blocks[c][i] != f.blocks[c][j]
    ensures forall c, i, j | c in g.blocks && 0 <= i < j < |g.blocks[c]| :: g.blocks[c][i] != g.blocks[c][j]
  {
  }

  // ----- No run can tell

  /** A state in reachable blocks, with values of reachable instructions. */
  ghost predicate InReach(f: Function, gone: set<BlockId>, s: State) {
    && s.path != [] && (forall i | 0 <= i < |s.path| :: s.path[i] in f.blocks && s.path[i] !in gone)
    && s.pc <= |f.blocks[Last(s.path)]|
    && s.env.Keys !! IdsOfAll(f, gone)
  }

  lemma NullReady(v: Value, ids: set<Id>, gone: set<BlockId>, env: map<Id, Word>, params: seq<Word>)
    requires env.Keys !! ids && (v.Blk? ==> v.block !in gone)
    ensures Ready(NullValue(v, ids, gone), env, params) <==> Ready(v, env, params)
    ensures Ready(v, env, params) ==> NullValue(v, ids, gone) == v
  {
  }

  lemma NullAllReady(vs: seq<Value>, ids: set<Id>, gone: set<BlockId>, env: map<Id, Word>, params: seq<Word>)
    requires env.Keys !! ids && forall i | 0 <= i < |vs| && vs[i].Blk? :: vs[i].block !in gone
    ensures AllReady(NullAll(vs, ids, gone), env, params) <==> AllReady(vs, env, params)
    ensures AllReady(vs, env, params) ==> NullAll(vs, ids, gone) == vs
  {
    forall i | 0 <= i < |vs|
      ensures Ready(NullValue(vs[i], ids, gone), env, params) <==> Ready(vs[i], env, params)
      ensures Ready(vs[i], env, params) ==> NullValue(vs[i], ids, gone) == vs[i]
    {
      NullReady(vs[i], ids, gone, env, params);
    }
    assert forall i | 0 <= i < |vs| :: NullAll(vs, ids, gone)[i] == NullValue(vs[i], ids, gone);
  }

  /** The facts about an instruction in a reachable block. */
  lemma ReachInstr(f: Function, g: Function, gone: set<BlockId>, b: BlockId, id: Id)
    requires Tidy(f) && f.order != [] && AreUnreachable(f, gone) && Trimmed(f, g, gone)
    requires b in f.blocks && b !in gone && id in f.blocks[b]
    ensures b in g.blocks && g.blocks[b] == f.blocks[b] && id in f.code && id in g.code && id !in IdsOfAll(f, gone)
    ensures LabelsInPlace(f.code[id]) && TargetsExist(f, f.code[id])
    ensures TrimmedInstr(f.code[id], g.code[id], IdsOfAll(f, gone), gone)
    ensures IsTerminator(f.code[id].op)
            ==> forall c: BlockId | Blk(c) in f.code[id].operands :: c in f.blocks && c !in gone
  {
    assert f.code[id].parent == b;
    if IsTerminator(f.code[id].op) {
      TerminatorExits(f, b, id);
      forall c: BlockId | Blk(c) in f.code[id].operands
        ensures c in f.blocks && c !in gone
      {
        hide Tidy, Exits, Reachable;
        assert Leads(f, b, c);
        LeadsInside(f, b, c);
        ReachableNext(f, b, c);
      }
    }
  }

  lemma {:induction false} SamePhis(f: Function, g: Function, list: seq<Id>, i: nat)
    requires i <= |list| && forall id | id in list :: id in f.code && id in g.code && g.code[id].op == f.code[id].op
    ensures PhisEnd(list, f.code, i) == PhisEnd(list, g.code, i)
    decreases |list| - i
  {
    if i < |list| {
      assert list[i] in list;
      SamePhis(f, g, list, i + 1);
    }
  }

  /** Operands that are read, as opposed to jumped to, are no labels. */
  lemma OperandsRead(i: Instr, k: int)
    requires LabelsInPlace(i) && i.op != Phi && 0 <= k < |i.operands|
    requires IsTerminator(i.op) ==> k == 0 && i.op != Jmp
    ensures !i.operands[k].Blk?
  {
  }

  lemma SameOp(m: Machine, id: Id, i: Instr, j: Instr, ids: set<Id>, gone: set<BlockId>, s: State, s': State)
    requires LabelsInPlace(i) && i.op != Phi && !IsTerminator(i.op)
    requires TrimmedInstr(i, j, ids, gone) && s.env.Keys !! ids
    ensures OpStep(m, id, i, s, s') <==> OpStep(m, id, j, s, s')
  {
    forall k | 0 <= k < |i.operands|
      ensures !i.operands[k].Blk?
    {
      OperandsRead(i, k);
    }
    NullAllReady(i.operands, ids, gone, s.env, m.params);
  }

  lemma SameTerminator(m: Machine, id: Id, i: Instr, j: Instr, ids: set<Id>, gone: set<BlockId>, s: State, s': State)
    requires LabelsInPlace(i) && IsTerminator(i.op)
    requires forall c: BlockId | Blk(c) in i.operands :: c !in gone
    requires TrimmedInstr(i, j, ids, gone) && s.env.Keys !! ids
    ensures InstrStep(m, id, i, s, s') <==> InstrStep(m, id, j, s, s')
  {
    forall k | 0 <= k < |i.operands|
      ensures i.operands[k].Blk? ==> i.operands[k].block !in gone
    {
      if i.operands[k].Blk? { assert Blk(i.operands[k].block) in i.operands; }
    }
    forall k | 0 <= k < |i.operands|
      ensures Ready(j.operands[k], s.env, m.params) <==> Ready(i.operands[k], s.env, m.params)
      ensures Ready(i.operands[k], s.env, m.params) ==> j.operands[k] == i.operands[k]
      ensures i.operands[k].Blk? <==> j.operands[k].Blk?
    {
      NullReady(i.operands[k], ids, gone, s.env, m.params);
    }
  }

  /** The input from a block that stays: the same, or ready in neither. */
  lemma SameInput(i: Instr, j: Instr, ids: set<Id>, gone: set<BlockId>, p: BlockId, env: map<Id, Word>,
                  params: seq<Word>)
    requires LabelsInPlace(i) && i.op == Phi && TrimmedInstr(i, j, ids, gone) && p !in gone && env.Keys !! ids
    ensures var v, w := IncomingFrom(i.operands, p, 0), IncomingFrom(j.operands, p, 0);
            && (v.Some? <==> w.Some?)
            && (v.Some? ==> (Ready(v.value, env, params) <==> Ready(w.value, env, params)))
            && (v.Some? && Ready(v.value, env, params) ==> w == v)
  {
    var v := IncomingFrom(i.operands, p, 0);
    if v.Some? {
      IncomingIsValue(i.operands, p, 0);
      NullReady(v.value, ids, gone, env, params);
    }
  }

  lemma {:induction false} IncomingIsValue(operands: seq<Value>, p: BlockId, k: nat)
    requires PhiPairs(operands) && IncomingFrom(operands, p, k).Some?
    ensures !IncomingFrom(operands, p, k).value.Blk?
    decreases |operands| - 2 * k
  {
    var pair := IncomingPair(operands, k);
    if !(pair.Some? && pair.value.0 == p) { IncomingIsValue(operands, p, k + 1); }
  }

  /** A ready phi input is one and the same in both. */
  ghost predicate SameIncoming(i: Instr, j: Instr, p: BlockId, env: map<Id, Word>, params: seq<Word>) {
    var v, w := IncomingFrom(i.operands, p, 0), IncomingFrom(j.operands, p, 0);
    && (v.Some? <==> w.Some?)
    && (v.Some? ==> (Ready(v.value, env, params) <==> Ready(w.value, env, params)))
    && (v.Some? && Ready(v.value, env, params) ==> w == v)
  }

  lemma PhiStepFrom(m: Machine, f: Function, g: Function, list: seq<Id>, n: nat, s: State, s': State)
    requires n <= |list| && forall i | 0 <= i < n :: list[i] in f.code && list[i] in g.code
    requires |s.path| >= 2 ==>
               forall i | 0 <= i < n ::
                   SameIncoming(f.code[list[i]], g.code[list[i]], s.path[|s.path| - 2], s.env, m.params)
    requires PhiStep(m, f, list, n, s, s')
    ensures PhiStep(m, g, list, n, s, s')
  {
    hide IncomingFrom, Ready, Fetch;
    assert forall i | 0 <= i < n ::
             SameIncoming(f.code[list[i]], g.code[list[i]], s.path[|s.path| - 2], s.env, m.params);
  }

  lemma SameIncomingBack(i: Instr, j: Instr, p: BlockId, env: map<Id, Word>, params: seq<Word>)
    requires SameIncoming(i, j, p, env, params)
    ensures SameIncoming(j, i, p, env, params)
  {
  }

  lemma SamePhiStep(m: Machine, f: Function, g: Function, ids: set<Id>, gone: set<BlockId>, list: seq<Id>, n: nat,
                    s: State, s': State)
    requires n <= |list| && s.env.Keys !! ids && (forall i | 0 <= i < |s.path| :: s.path[i] !in gone)
    requires forall i | 0 <= i < n ::
               list[i] in f.code && f.code[list[i]].op == Phi && MirroredInstr(f, g, ids, gone, list[i])
    ensures forall i | 0 <= i < n :: list[i] in g.code
    ensures PhiStep(m, f, list, n, s, s') <==> PhiStep(m, g, list, n, s, s')
  {
    if |s.path| >= 2 {
      var pred := s.path[|s.path| - 2];
      forall i | 0 <= i < n
        ensures SameIncoming(f.code[list[i]], g.code[list[i]], pred, s.env, m.params)
        ensures SameIncoming(g.code[list[i]], f.code[list[i]], pred, s.env, m.params)
      {
        SameInput(f.code[list[i]], g.code[list[i]], ids, gone, pred, s.env, m.params);
        SameIncomingBack(f.code[list[i]], g.code[list[i]], pred, s.env, m.params);
      }
    }
    hide SameIncoming, PhiStep, TrimmedInstr, LabelsInPlace;
    if PhiStep(m, f, list, n, s, s') { PhiStepFrom(m, f, g, list, n, s, s'); }
    if PhiStep(m, g, list, n, s, s') { PhiStepFrom(m, g, f, list, n, s, s'); }
  }

  /** What is known of the two versions of an instruction in a reachable block. */
  ghost predicate MirroredInstr(f: Function, g: Function, ids: set<Id>, gone: set<BlockId>, id: Id) {
    && id in f.code && id in g.code && id !in ids && g.code[id].op == f.code[id].op
    && LabelsInPlace(f.code[id]) && TrimmedInstr(f.code[id], g.code[id], ids, gone)
    && (IsTerminator(f.code[id].op)
        ==> forall c: BlockId | Blk(c) in f.code[id].operands :: c in f.blocks && c !in gone)
  }

  lemma Mirrored(f: Function, g: Function, gone: set<BlockId>, b: BlockId, id: Id)
    requires Tidy(f) && f.order != [] && AreUnreachable(f, gone) && Trimmed(f, g, gone)
    requires b in f.blocks && b !in gone && id in f.blocks[b]
    ensures MirroredInstr(f, g, IdsOfAll(f, gone), gone, id)
  {
    ReachInstr(f, g, gone, b, id);
    hide *;
    SameOpcode(f.code[id], g.code[id], IdsOfAll(f, gone), gone);
    MirroredFold(f, g, IdsOfAll(f, gone), gone, id);
  }

  lemma MirroredFold(f: Function, g: Function, ids: set<Id>, gone: set<BlockId>, id: Id)
    requires id in f.code && id in g.code && id !in ids && g.code[id].op == f.code[id].op
    requires LabelsInPlace(f.code[id]) && TrimmedInstr(f.code[id], g.code[id], ids, gone)
    requires IsTerminator(f.code[id].op)
             ==> forall c: BlockId | Blk(c) in f.code[id].operands :: c in f.blocks && c !in gone
    ensures MirroredInstr(f, g, ids, gone, id)
  {
  }

  lemma SameInstrStep(m: Machine, id: Id, i: Instr, j: Instr, ids: set<Id>, gone: set<BlockId>, s: State, s': State)
    requires LabelsInPlace(i) && TrimmedInstr(i, j, ids, gone) && s.env.Keys !! ids
    requires IsTerminator(i.op) ==> forall c: BlockId | Blk(c) in i.operands :: c !in gone
    ensures InstrStep(m, id, i, s, s') <==> InstrStep(m, id, j, s, s')
  {
    if i.op != Phi {
      if IsTerminator(i.op) {
        SameTerminator(m, id, i, j, ids, gone, s, s');
      } else {
        SameOp(m, id, i, j, ids, gone, s, s');
      }
    }
  }

  /** Steps in a block whose instructions are mirrored. */
  lemma SameStepIn(m: Machine, f: Function, g: Function, ids: set<Id>, gone: set<BlockId>, s: State, s': State)
    requires s.path != [] && Last(s.path) in f.blocks && Last(s.path) in g.blocks
    requires g.blocks[Last(s.path)] == f.blocks[Last(s.path)]
    requires s.env.Keys !! ids && (forall i | 0 <= i < |s.path| :: s.path[i] !in gone)
    requires forall id | id in f.blocks[Last(s.path)] :: MirroredInstr(f, g, ids, gone, id)
    ensures Step(m, f, s, s') <==> Step(m, g, s, s')
  {
    var list := f.blocks[Last(s.path)];
    hide TrimmedInstr, LabelsInPlace, PhiStep, InstrStep;
    SamePhis(f, g, list, 0);
    var n := LeadingPhis(list, f.code);
    assert forall i | 0 <= i < n :: list[i] in list;
    if s.pc == 0 && n > 0 {
      hide MirroredInstr;
      SamePhiStep(m, f, g, ids, gone, list, n, s, s');
    } else if s.pc < |list| {
      assert list[s.pc] in list;
      SameInstrStep(m, list[s.pc], f.code[list[s.pc]], g.code[list[s.pc]], ids, gone, s, s');
    }
  }

  lemma ReachFacts(f: Function, gone: set<BlockId>, s: State)
    requires InReach(f, gone, s)
    ensures s.path != [] && Last(s.path) in f.blocks && Last(s.path) !in gone && s.env.Keys !! IdsOfAll(f, gone)
    ensures forall i | 0 <= i < |s.path| :: s.path[i] !in gone
  {
  }

  /** The two functions take the same steps. */
  lemma SameStep(m: Machine, f: Function, g: Function, gone: set<BlockId>, s: State, s': State)
    requires Tidy(f) && f.order != [] && AreUnreachable(f, gone) && Trimmed(f, g, gone) && InReach(f, gone, s)
    ensures Step(m, f, s, s') <==> Step(m, g, s, s')
  {
    hide *;
    ReachFacts(f, gone, s);
    TrimmedBlocks(f, g, gone);
    forall id | id in f.blocks[Last(s.path)]
      ensures MirroredInstr(f, g, IdsOfAll(f, gone), gone, id)
    {
      Mirrored(f, g, gone, Last(s.path), id);
    }
    SameStepIn(m, f, g, IdsOfAll(f, gone), gone, s, s');
  }

  lemma SameOpcode(i: Instr, j: Instr, ids: set<Id>, gone: set<BlockId>)
    requires TrimmedInstr(i, j, ids, gone)
    ensures j.op == i.op
  {
  }

  /** Runs stay where terminators lead. */
  lemma StaysInReach(m: Machine, f: Function, g: Function, gone: set<BlockId>, s: State, s': State)
    requires Tidy(f) && f.order != [] && AreUnreachable(f, gone) && Trimmed(f, g, gone) && InReach(f, gone, s)
    requires Step(m, f, s, s')
    ensures InReach(f, gone, s')
  {
    hide *;
    ReachFacts(f, gone, s);
    forall id | id in f.blocks[Last(s.path)]
      ensures MirroredInstr(f, g, IdsOfAll(f, gone), gone, id)
    {
      Mirrored(f, g, gone, Last(s.path), id);
    }
    StepEffect(m, f, s, s');
    InReachNext(f, g, gone, IdsOfAll(f, gone), s, s');
  }

  lemma InReachNext(f: Function, g: Function, gone: set<BlockId>, ids: set<Id>, s: State, s': State)
    requires InReach(f, gone, s) && ids == IdsOfAll(f, gone)
    requires forall id | id in f.blocks[Last(s.path)] :: MirroredInstr(f, g, ids, gone, id)
    requires s'.path == s.path || exists id, c: BlockId ::
               && id in f.blocks[Last(s.path)] && id in f.code && IsTerminator(f.code[id].op)
                  && Blk(c) in f.code[id].operands
               && s' == s.(path := s.path + [c], pc := 0)
    requires s'.path == s.path && s.pc <= |f.blocks[Last(s.path)]| ==> s'.pc <= |f.blocks[Last(s.path)]|
    requires forall id | id in s'.env && id !in s.env :: id in f.blocks[Last(s.path)]
    ensures InReach(f, gone, s')
  {
    hide TrimmedInstr, LabelsInPlace, IdsOfAll;
    assert s'.env.Keys !! ids;
    if s'.path != s.path {
      var id, c: BlockId :| id in f.blocks[Last(s.path)] && id in f.code && IsTerminator(f.code[id].op)
        && Blk(c) in f.code[id].operands && s' == s.(path := s.path + [c], pc := 0);
      assert MirroredInstr(f, g, ids, gone, id);
      assert c in f.blocks && c !in gone;
    }
  }

  /** Where a step may lead, and which values it may define. */
  lemma StepEffect(m: Machine, f: Function, s: State, s': State)
    requires Step(m, f, s, s')
    ensures s'.path == s.path || exists id, c: BlockId ::
              && id in f.blocks[Last(s.path)] && id in f.code && IsTerminator(f.code[id].op)
                 && Blk(c) in f.code[id].operands
              && s' == s.(path := s.path + [c], pc := 0)
    ensures s'.path == s.path && s.pc <= |f.blocks[Last(s.path)]| ==> s'.pc <= |f.blocks[Last(s.path)]|
    ensures forall id | id in s'.env && id !in s.env :: id in f.blocks[Last(s.path)]
  {
    var list := f.blocks[Last(s.path)];
    var n := LeadingPhis(list, f.code);
    if !(s.pc == 0 && n > 0) {
      var id := list[s.pc];
      if s'.path != s.path {
        var c := Last(s'.path);
        assert id in list && Blk(c) in f.code[id].operands && s' == s.(path := s.path + [c], pc := 0);
      }
    }
  }

  lemma StartsInReach(f: Function, g: Function, gone: set<BlockId>, s: State)
    requires Tidy(f) && f.order != [] && AreUnreachable(f, gone) && Trimmed(f, g, gone)
    ensures g.order != [] && g.order[0] == f.order[0]
    ensures Initial(f, s) ==> InReach(f, gone, s)
  {
    EntryReachable(f);
  }

  lemma ReachAlike(f: Function, g: Function, gone: set<BlockId>, s: State)
    requires InReach(f, gone, s) && g.blocks == f.blocks - gone
    ensures Alike(f, s, s) && Alike(g, s, s)
  {
  }

  ghost function InReachOf(f: Function, gone: set<BlockId>): Relation {
    (s: State, t: State) => t == s && InReach(f, gone, s)
  }

  /** Functions with the same steps, from the states of a relation that they keep. */
  lemma SameStepsPreserve(m: Machine, f: Function, g: Function, r: Relation)
    requires forall s :: Initial(f, s) <==> Initial(g, s)
    requires forall s | Initial(f, s) :: r(s, s)
    requires forall s, t | r(s, t) :: t == s && Alike(f, s, s)
    requires forall s, s' | r(s, s) :: Step(m, f, s, s') <==> Step(m, g, s, s')
    requires forall s, s' | r(s, s) && Step(m, f, s, s') :: r(s', s')
    ensures Preserves(m, f, g)
  {
    hide Initial, Step, Alike, Preserves;
    SimulationPreserves(m, f, g, r);
  }

  lemma ReachFactsForAll(m: Machine, f: Function, g: Function, gone: set<BlockId>)
    requires Tidy(f) && f.order != [] && AreUnreachable(f, gone) && Trimmed(f, g, gone)
    ensures var r := InReachOf(f, gone);
            && (forall s :: Initial(f, s) <==> Initial(g, s))
            && (forall s | Initial(f, s) :: r(s, s))
            && (forall s, t | r(s, t) :: t == s && Alike(f, s, s) && Alike(g, s, s))
            && (forall s, s' | r(s, s) :: Step(m, f, s, s') <==> Step(m, g, s, s'))
            && (forall s, s' | r(s, s) && Step(m, f, s, s') :: r(s', s'))
  {
    hide Tidy, AreUnreachable, Trimmed, InReach, Step, Alike;
    TrimmedBlocks(f, g, gone);
    forall s
      ensures Initial(f, s) <==> Initial(g, s)
      ensures Initial(f, s) ==> InReach(f, gone, s)
    {
      StartsInReach(f, g, gone, s);
    }
    forall s | InReach(f, gone, s)
      ensures Alike(f, s, s) && Alike(g, s, s)
    {
      ReachAlike(f, g, gone, s);
    }
    forall s, s' | InReach(f, gone, s)
      ensures Step(m, f, s, s') <==> Step(m, g, s, s')
      ensures Step(m, f, s, s') ==> InReach(f, gone, s')
    {
      SameStep(m, f, g, gone, s, s');
      if Step(m, f, s, s') { StaysInReach(m, f, g, gone, s, s'); }
    }
  }

  /** Removing unreachable blocks changes no run at all: each function preserves the other. */
  lemma TrimPreserves(m: Machine, f: Function, g: Function, gone: set<BlockId>)
    requires Tidy(f) && f.order != [] && AreUnreachable(f, gone) && Trimmed(f, g, gone)
    ensures Preserves(m, f, g) && Preserves(m, g, f)
  {
    hide *;
    ReachFactsForAll(m, f, g, gone);
    SameStepsPreserve(m, f, g, InReachOf(f, gone));
    SameStepsPreserve(m, g, f, InReachOf(f, gone));
  }
}
