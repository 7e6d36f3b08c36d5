/**
 What unrolling does to the rest of the function: outside the loop every instruction sees what
 it saw, the preheader leads into the new blocks, and the exit receives along the new edge what
 it received along the old one.
 */
module UnrollOutside {
  import opened IR
  import opened Reordering
  import opened BlockReordering
  import opened BlockRuns
  import opened LoopUnroll
  import opened LoopBlocks
  import opened UnrollBlocks

  /** Two environments outside the loop: the phis at the exit stand for those of the header, all else is the same. */
  ghost predicate SameOutside(lp: Loop, finals: map<Id, Id>, env: map<Id, Word>, env2: map<Id, Word>) {
    && (forall p | p in lp.phis :: p in finals && (p in env <==> finals[p] in env2))
    && (forall p | p in lp.phis && p in env :: env2[finals[p]] == env[p])
    && (forall x: Id | x !in lp.phis :: (x in env ==> x in env2 && env2[x] == env[x]))
  }

  /** The value is of no operation of the loop, or is there. */
  ghost predicate SeenOutside(v: Value, env: map<Id, Word>) {
    v.Inst? ==> v.id in env
  }

  lemma OutsideFetched(m: Machine, lp: Loop, finals: map<Id, Id>, env: map<Id, Word>, env2: map<Id, Word>, v: Value)
    requires SameOutside(lp, finals, env, env2) && SeenOutside(v, env)
    ensures IR.Ready(Outside(lp, finals, v), env2, m.params) <==> IR.Ready(v, env, m.params)
    ensures Fetch(Outside(lp, finals, v), env2, m.params) == Fetch(v, env, m.params)
  {
  }

  lemma AllFetched(m: Machine, lp: Loop, finals: map<Id, Id>, env: map<Id, Word>, env2: map<Id, Word>, vs: seq<Value>,
                   ws: seq<Value>)
    requires SameOutside(lp, finals, env, env2) && |ws| == |vs|
    requires forall i | 0 <= i < |vs| :: SeenOutside(vs[i], env) && ws[i] == Outside(lp, finals, vs[i])
    ensures AllReady(ws, env2, m.params) <==> AllReady(vs, env, m.params)
    ensures FetchAll(ws, env2, m.params) == FetchAll(vs, env, m.params)
  {
    forall i | 0 <= i < |vs|
      ensures IR.Ready(ws[i], env2, m.params) <==> IR.Ready(vs[i], env, m.params)
      ensures Fetch(ws[i], env2, m.params) == Fetch(vs[i], env, m.params)
    {
      OutsideFetched(m, lp, finals, env, env2, vs[i]);
    }
    hide Fetch, IR.Ready, Outside;
  }

  /** The instruction is neither the preheader's last nor a phi of the exit. */
  ghost predicate Elsewhere(f: Function, at: Place, pre: BlockId, id: Id) {
    && id in f.code && !IsExitPhi(f, at, id)
    && (pre in f.blocks && f.blocks[pre] != [] ==> id != Last(f.blocks[pre]))
  }

  /** An operation outside the loop does what it did. */
  lemma RunsOutside(m: Machine, f: Function, lp: Loop, at: Place, pre: BlockId, nm: Names, finals: map<Id, Id>, id: Id,
                    env: map<Id, Word>, env2: map<Id, Word>, mem: Memory, v: Word, mem': Memory)
    requires Elsewhere(f, at, pre, id) && SameOutside(lp, finals, env, env2)
    requires forall i | 0 <= i < |f.code[id].operands| :: SeenOutside(f.code[id].operands[i], env)
    ensures OpRuns(m, f.code[id], env, mem, v, mem')
       <==> OpRuns(m, Kept(f, lp, at, pre, nm, finals, id), env2, mem, v, mem')
  {
    var instr, kept := f.code[id], Kept(f, lp, at, pre, nm, finals, id);
    AllFetched(m, lp, finals, env, env2, instr.operands, kept.operands);
  }

  /** A jump or branch outside the loop goes where it went; from the preheader, to the new header for the old one. */
  lemma JumpsOutside(m: Machine, f: Function, lp: Loop, at: Place, pre: BlockId, nm: Names, finals: map<Id, Id>,
                     id: Id, s: State, s': State, s2: State)
    requires id in f.code && !IsExitPhi(f, at, id) && pre in f.blocks && f.blocks[pre] != []
    requires f.code[id].op in {Jmp, Jz, Jnz, Br} && InstrStep(m, id, f.code[id], s, s')
    requires SameOutside(lp, finals, s.env, s2.env)
    requires f.code[id].op != Jmp ==> !f.code[id].operands[0].Blk? && SeenOutside(f.code[id].operands[0], s.env)
    ensures |s'.path| == |s.path| + 1
    ensures var to := if id == Last(f.blocks[pre]) && Last(s'.path) == at.header then nm.uHeader else Last(s'.path);
            InstrStep(m, id, Kept(f, lp, at, pre, nm, finals, id), s2, s2.(path := s2.path + [to], pc := 0))
  {
    var instr, kept := f.code[id], Kept(f, lp, at, pre, nm, finals, id);
    KeptOperands(f, lp, at, pre, nm, finals, id);
    hide Kept;
    if instr.op != Jmp {
      OutsideFetched(m, lp, finals, s.env, s2.env, instr.operands[0]);
    }
  }

  lemma KeptOperands(f: Function, lp: Loop, at: Place, pre: BlockId, nm: Names, finals: map<Id, Id>, id: Id)
    requires id in f.code && !IsExitPhi(f, at, id) && pre in f.blocks && f.blocks[pre] != []
    ensures var instr, kept := f.code[id], Kept(f, lp, at, pre, nm, finals, id);
            && kept.op == instr.op && |kept.operands| == |instr.operands|
            && forall i | 0 <= i < |instr.operands| ::
                 kept.operands[i] == if id == Last(f.blocks[pre]) && instr.operands[i] == Blk(at.header)
                                     then Blk(nm.uHeader) else Outside(lp, finals, instr.operands[i])
  {
  }

  // ----- The phis of the exit

  /** Pairs of a block and a value, as phis are built. */
  ghost predicate BlocksFirst(operands: seq<Value>) {
    forall k: nat | 2 * k + 1 < |operands| :: operands[2 * k].Blk?
  }

  /** What the exit's phi received from the header it receives from the new last block, and from others what it did. */
  lemma {:induction false} ExitReceives(f: Function, lp: Loop, at: Place, pre: BlockId, nm: Names,
                                        finals: map<Id, Id>, id: Id, b: BlockId, k: nat)
    requires id in f.code && IsExitPhi(f, at, id) && BlocksFirst(f.code[id].operands)
    requires pre in f.blocks && f.blocks[pre] != [] ==> id != Last(f.blocks[pre])
    requires b != nm.finalExit && forall i | 0 <= i < |f.code[id].operands| ::
               f.code[id].operands[i] != Blk(at.latch) && f.code[id].operands[i] != Blk(nm.finalExit)
    ensures Received(f.code[id].operands, Kept(f, lp, at, pre, nm, finals, id).operands, b,
                     if b == at.header then nm.finalExit else b, lp, finals, k)
    decreases |f.code[id].operands| - 2 * k
  {
    var was, now := f.code[id].operands, Kept(f, lp, at, pre, nm, finals, id).operands;
    if 2 * k + 1 < |was| {
      assert was[2 * k].Blk? && was[2 * k] != Blk(at.latch);
      assert now[2 * k] == if was[2 * k] == Blk(at.header) then Blk(nm.finalExit) else was[2 * k];
      assert now[2 * k + 1] == Outside(lp, finals, was[2 * k + 1]);
      hide Kept, Outside;
      ExitReceives(f, lp, at, pre, nm, finals, id, b, k + 1);
    }
  }

  /** The value along the edge, from pair k on, as it is seen outside. */
  ghost predicate Received(was: seq<Value>, now: seq<Value>, b: BlockId, b': BlockId, lp: Loop, finals: map<Id, Id>,
                           k: nat)
  {
    IncomingFrom(now, b', k)
    == if IncomingFrom(was, b, k).Some? then Some(Outside(lp, finals, IncomingFrom(was, b, k).value)) else None
  }
}
