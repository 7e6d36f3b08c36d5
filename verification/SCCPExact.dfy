/**
 Exactly what the propagation finds, opcode by opcode: which entries are constant, which
 edges and blocks are executable, and which instructions are replaced.
 */
module PropagationExact {
  import opened IR
  import opened Lattice
  import opened Erasure
  import opened PropagationSoundness
  import opened SparseConditional

  /** What the engine ends at. */
  ghost predicate Found(f: Function, folder: Folder, sol: Solution) {
    Solves(f, folder, sol) && Warranted(f, folder, sol)
  }

  /** The operand is a constant, or an instruction found constant. */
  predicate HasWord(v: Value, lattice: map<Id, Entry>, w: Word) {
    v == Cst(w) || (v.Inst? && v.id in lattice && lattice[v.id] == Constant(w))
  }

  ghost predicate HasWords(vs: seq<Value>, lattice: map<Id, Entry>, ws: seq<Word>) {
    |ws| == |vs| && forall i | 0 <= i < |vs| :: HasWord(vs[i], lattice, ws[i])
  }

  /** Nothing has been found out about the operand yet. */
  predicate IsOpen(v: Value, lattice: map<Id, Entry>) {
    v.Inst? && v.id in lattice && lattice[v.id] == Top
  }

  /** Nothing is to be found out about the operand. */
  predicate IsUnknown(v: Value, lattice: map<Id, Entry>) {
    !v.Cst? && (v.Inst? && v.id in lattice ==> lattice[v.id] == Bottom)
  }

  ghost predicate SomeUnknown(vs: seq<Value>, lattice: map<Id, Entry>) {
    exists i :: 0 <= i < |vs| && IsUnknown(vs[i], lattice)
  }

  ghost predicate SomeOpen(vs: seq<Value>, lattice: map<Id, Entry>) {
    exists i :: 0 <= i < |vs| && IsOpen(vs[i], lattice)
  }

  ghost predicate Executed(f: Function, sol: Solution, id: Id) {
    && id in f.code && f.code[id].parent in sol.blocks
    && f.code[id].parent in f.blocks && id in f.blocks[f.code[id].parent]
  }

  // ----- Entries

  lemma WordOfOperand(v: Value, lattice: map<Id, Entry>)
    ensures forall w :: HasWord(v, lattice, w) <==> LatticeValue(v, lattice) == Constant(w)
    ensures IsOpen(v, lattice) <==> LatticeValue(v, lattice).Top?
    ensures IsUnknown(v, lattice) <==> LatticeValue(v, lattice).Bottom?
  {
  }

  lemma WordsOfOperands(vs: seq<Value>, lattice: map<Id, Entry>, ws: seq<Word>)
    requires HasWords(vs, lattice, ws)
    ensures AllConstant(vs, lattice) && Words(vs, lattice) == ws
    ensures !SomeUnknown(vs, lattice) && !AnyBottom(vs, lattice)
  {
    hide HasWord, LatticeValue, IsUnknown;
    forall i | 0 <= i < |vs|
      ensures LatticeValue(vs[i], lattice) == Constant(ws[i]) && !IsUnknown(vs[i], lattice)
    {
      WordOfOperand(vs[i], lattice);
    }
  }

  lemma UnknownOperands(vs: seq<Value>, lattice: map<Id, Entry>)
    ensures SomeUnknown(vs, lattice) <==> AnyBottom(vs, lattice)
    ensures !SomeUnknown(vs, lattice) && SomeOpen(vs, lattice) ==> !AnyBottom(vs, lattice) && !AllConstant(vs, lattice)
  {
    forall i | 0 <= i < |vs|
      ensures IsUnknown(vs[i], lattice) <==> LatticeValue(vs[i], lattice).Bottom?
      ensures IsOpen(vs[i], lattice) <==> LatticeValue(vs[i], lattice).Top?
    {
      WordOfOperand(vs[i], lattice);
    }
    hide LatticeValue, IsUnknown, IsOpen;
  }

  lemma KnownOperands(vs: seq<Value>, lattice: map<Id, Entry>) returns (ws: seq<Word>)
    requires !SomeUnknown(vs, lattice) && !SomeOpen(vs, lattice)
    ensures HasWords(vs, lattice, ws)
  {
    forall i | 0 <= i < |vs|
      ensures LatticeValue(vs[i], lattice).Constant?
    {
      WordOfOperand(vs[i], lattice);
    }
    ws := Words(vs, lattice);
  }

  /** What was found about an instruction is what its operands give. */
  lemma EntryIsTransfer(f: Function, folder: Folder, sol: Solution, id: Id)
    requires Found(f, folder, sol) && Executed(f, sol, id) && f.code[id].ty != 0 && !IsJump(f.code[id].op)
    ensures id in sol.lattice && Leq(Transfer(f.code[id], folder, sol.lattice, sol.edges), sol.lattice[id])
    ensures f.code[id].op != Call ==> sol.lattice[id] == Transfer(f.code[id], folder, sol.lattice, sol.edges)
  {
    hide Transfer;
    SolutionStable(f, folder, sol, id);
  }

  /**
   The entry of an operation, by its opcode and operands. The opcodes of the first case have no
   constant result; those left out are phis, calls and what ends a block.
   */
  lemma EntryExactly(f: Function, folder: Folder, sol: Solution, id: Id, ws: seq<Word>)
    requires Found(f, folder, sol) && Executed(f, sol, id) && f.code[id].ty != 0
    requires f.code[id].op !in {Phi, Call, Ret, Jmp, Jz, Jnz, Br}
    ensures id in sol.lattice
    ensures f.code[id].op in {Syscall, ExternCall, Alloc, Load, Store, VAArg} ==> sol.lattice[id] == Bottom
    ensures f.code[id].op !in {Syscall, ExternCall, Alloc, Load, Store, VAArg} ==>
              var vs := f.code[id].operands;
              && (vs == [] ==> sol.lattice[id] == Top)
              && (SomeUnknown(vs, sol.lattice) ==> sol.lattice[id] == Bottom)
              && (SomeOpen(vs, sol.lattice) && !SomeUnknown(vs, sol.lattice) ==> sol.lattice[id] == Top)
              && (vs != [] && HasWords(vs, sol.lattice, ws) ==>
                    var r := folder.scalar(f.code[id].op, f.code[id].ty, ws);
                    sol.lattice[id] == if r.Some? then Constant(r.value) else Bottom)
  {
    var vs := f.code[id].operands;
    hide Found, Executed, AllConstant, AnyBottom, SomeUnknown, SomeOpen, HasWords, AlwaysBottom, IsJump, PhiValue;
    NeverConstant(f.code[id].op);
    EntryIsTransfer(f, folder, sol, id);
    UnknownOperands(vs, sol.lattice);
    if HasWords(vs, sol.lattice, ws) { WordsOfOperands(vs, sol.lattice, ws); }
    if vs == [] { NoneUnknown(sol.lattice); }
  }

  lemma NoneUnknown(lattice: map<Id, Entry>)
    ensures !SomeUnknown([], lattice) && !SomeOpen([], lattice)
  {
  }

  lemma NeverConstant(op: Opcode)
    ensures AlwaysBottom(op) <==> op in {Syscall, ExternCall, Alloc, Load, Store, VAArg}
    ensures IsJump(op) <==> op in {Jmp, Jz, Jnz, Br}
  {
  }

  /** A call is constant only if it is direct, its arguments are, and the evaluator says so. */
  lemma CallIsConstant(f: Function, folder: Folder, sol: Solution, id: Id, w: Word) returns (ws: seq<Word>)
    requires Found(f, folder, sol) && Executed(f, sol, id) && f.code[id].ty != 0 && f.code[id].op == Call
    requires id in sol.lattice && sol.lattice[id] == Constant(w)
    ensures var vs := f.code[id].operands;
            && vs != [] && vs[0].Fun? && HasWords(vs[1..], sol.lattice, ws)
            && folder.call(vs[0].name, ws) == Some(w)
  {
    EntryIsTransfer(f, folder, sol, id);
    var vs := f.code[id].operands;
    ws := Words(vs[1..], sol.lattice);
    forall i | 0 <= i < |vs[1..]|
      ensures HasWord(vs[1..][i], sol.lattice, ws[i])
    {
      WordOfOperand(vs[1..][i], sol.lattice);
    }
  }

  /** The value operand of a phi input whose edge is executable. */
  ghost predicate ArrivesAt(instr: Instr, sol: Solution, k: nat, v: Value) {
    && 2 * k + 1 < |instr.operands| && v != Null
    && exists a :: (a, instr.parent) in sol.edges
                   && (|| (instr.operands[2 * k] == Blk(a) && instr.operands[2 * k + 1] == v)
                       || (!instr.operands[2 * k].Blk? && instr.operands[2 * k + 1] == Blk(a)
                           && instr.operands[2 * k] == v))
  }

  lemma ArrivesIsInput(instr: Instr, sol: Solution, k: nat, v: Value)
    ensures ArrivesAt(instr, sol, k, v) <==>
              PhiInput(instr.operands, instr.parent, sol.edges, k) && IncomingPair(instr.operands, k).value.1 == v
  {
  }

  /** A phi has exactly the value that all inputs over executable edges agree on. */
  lemma PhiExactly(f: Function, folder: Folder, sol: Solution, id: Id, w: Word)
    requires Found(f, folder, sol) && Executed(f, sol, id) && f.code[id].ty != 0 && f.code[id].op == Phi
    ensures id in sol.lattice
    ensures sol.lattice[id] == Top <==> forall k: nat, v | ArrivesAt(f.code[id], sol, k, v) :: IsOpen(v, sol.lattice)
    ensures sol.lattice[id] == Constant(w) <==>
              && (forall k: nat, v | ArrivesAt(f.code[id], sol, k, v) ::
                    HasWord(v, sol.lattice, w) || IsOpen(v, sol.lattice))
              && (exists k: nat, v :: ArrivesAt(f.code[id], sol, k, v) && HasWord(v, sol.lattice, w))
  {
    EntryIsTransfer(f, folder, sol, id);
    PhiEntry(f.code[id], sol, w);
  }

  lemma PhiEntry(instr: Instr, sol: Solution, w: Word)
    ensures var e := PhiValue(instr.operands, instr.parent, sol.lattice, sol.edges, 0, Top);
            && (e == Top <==> forall k: nat, v | ArrivesAt(instr, sol, k, v) :: IsOpen(v, sol.lattice))
            && (e == Constant(w) <==>
                  && (forall k: nat, v | ArrivesAt(instr, sol, k, v) ::
                        HasWord(v, sol.lattice, w) || IsOpen(v, sol.lattice))
                  && (exists k: nat, v :: ArrivesAt(instr, sol, k, v) && HasWord(v, sol.lattice, w)))
  {
    var e := PhiValue(instr.operands, instr.parent, sol.lattice, sol.edges, 0, Top);
    hide PhiValue, ArrivesAt, HasWord, IsOpen, LatticeValue;
    forall k: nat, v
      ensures ArrivesAt(instr, sol, k, v) ==> Leq(LatticeValue(v, sol.lattice), e)
      ensures HasWord(v, sol.lattice, w) <==> LatticeValue(v, sol.lattice) == Constant(w)
      ensures IsOpen(v, sol.lattice) <==> LatticeValue(v, sol.lattice) == Top
    {
      ArrivesIsInput(instr, sol, k, v);
      PhiValueAbove(instr.operands, instr.parent, sol.lattice, sol.edges, 0, Top);
      WordOfOperand(v, sol.lattice);
    }
    PhiBelow(instr, sol, Top);
    PhiBelow(instr, sol, Constant(w));
  }

  lemma PhiBelow(instr: Instr, sol: Solution, u: Entry)
    ensures (forall k: nat, v | ArrivesAt(instr, sol, k, v) :: Leq(LatticeValue(v, sol.lattice), u))
            ==> Leq(PhiValue(instr.operands, instr.parent, sol.lattice, sol.edges, 0, Top), u)
  {
    hide ArrivesAt, LatticeValue;
    if forall k: nat, v | ArrivesAt(instr, sol, k, v) :: Leq(LatticeValue(v, sol.lattice), u) {
      forall k: nat | PhiInput(instr.operands, instr.parent, sol.edges, k)
        ensures Leq(LatticeValue(IncomingPair(instr.operands, k).value.1, sol.lattice), u)
      {
        ArrivesIsInput(instr, sol, k, IncomingPair(instr.operands, k).value.1);
      }
      PhiValueLeast(instr.operands, instr.parent, sol.lattice, sol.edges, 0, Top, u);
    }
  }

  // ----- Edges and blocks

  /** The jump or branch may go to b: always, by a condition found constant, or by one that is unknown. */
  ghost predicate MayGo(instr: Instr, lattice: map<Id, Entry>, b: BlockId) {
    || (instr.op == Jmp && instr.operands != [] && instr.operands[0] == Blk(b))
    || (instr.op in {Jz, Jnz, Br} && |instr.operands| == 3
        && (|| (IsUnknown(instr.operands[0], lattice) && (instr.operands[1] == Blk(b) || instr.operands[2] == Blk(b)))
            || exists w :: HasWord(instr.operands[0], lattice, w)
                           && instr.operands[if (w.bits == 0) == (instr.op == Jz) then 1 else 2] == Blk(b)))
  }

  lemma GoesIsSuccessor(f: Function, instr: Instr, lattice: map<Id, Entry>, b: BlockId)
    requires TargetsExist(f, instr)
    ensures MayGo(instr, lattice, b) <==> b in Successors(instr, lattice)
  {
    if |instr.operands| == 3 {
      var v := instr.operands[0];
      WordOfOperand(v, lattice);
      if LatticeValue(v, lattice).Constant? {
        assert HasWord(v, lattice, LatticeValue(v, lattice).word);
      }
    }
  }

  /** The executable edges are exactly those that a jump or branch of an executable block may take. */
  lemma EdgesExactly(f: Function, folder: Folder, sol: Solution, e: Edge)
    requires Found(f, folder, sol)
    ensures e in sol.edges <==>
              exists id :: Executed(f, sol, id) && f.code[id].parent == e.0 && MayGo(f.code[id], sol.lattice, e.1)
  {
    hide MayGo, Successors;
    if e in sol.edges {
      assert EdgeWarranted(f, sol.lattice, sol.blocks, e);
      var id :| id in f.code && f.code[id].parent == e.0 && e.0 in sol.blocks && e.0 in f.blocks && id in f.blocks[e.0]
                && TargetsExist(f, f.code[id]) && e.1 in Successors(f.code[id], sol.lattice);
      GoesIsSuccessor(f, f.code[id], sol.lattice, e.1);
      assert Executed(f, sol, id);
    }
    if id :| Executed(f, sol, id) && f.code[id].parent == e.0 && MayGo(f.code[id], sol.lattice, e.1) {
      assert TargetsExist(f, f.code[id]);
      GoesIsSuccessor(f, f.code[id], sol.lattice, e.1);
      SolutionStable(f, folder, sol, id);
      GoesByJump(f.code[id], sol.lattice, e.1);
    }
  }

  lemma GoesByJump(instr: Instr, lattice: map<Id, Entry>, b: BlockId)
    requires MayGo(instr, lattice, b)
    ensures IsJump(instr.op)
  {
  }

  lemma {:induction false} ChainExecuted(f: Function, folder: Folder, sol: Solution, path: seq<BlockId>)
    requires Solves(f, folder, sol) && f.order != [] && IsChain(f, sol.edges, path)
    ensures Last(path) in sol.blocks
    decreases |path|
  {
    if |path| > 1 {
      var e := (path[|path| - 2], path[|path| - 1]);
      assert e in sol.edges && e.1 in sol.blocks;
    }
  }

  /** The executable blocks are exactly those that chains of executable edges lead to from the entry. */
  lemma BlocksExactly(f: Function, folder: Folder, sol: Solution, b: BlockId)
    requires Found(f, folder, sol)
    ensures f.order != [] && (b in sol.blocks <==> Chained(f, sol.edges, b))
  {
    assert WellFormed(f);
    hide WellFormed;
    if Chained(f, sol.edges, b) {
      var path: seq<BlockId> :| IsChain(f, sol.edges, path) && Last(path) == b;
      ChainExecuted(f, folder, sol, path);
    }
  }

  // ----- Replacement

  /** An operation of one of the other opcodes is replaced by w exactly where its operands are words that fold to w. */
  lemma ReplacedExactly(f: Function, folder: Folder, sol: Solution, id: Id, w: Word)
    requires Found(f, folder, sol) && Executed(f, sol, id) && f.code[id].ty != 0
    requires f.code[id].op !in {Phi, Call, Ret, Jmp, Jz, Jnz, Br}
    ensures var plan := ConstantPlan(f, sol);
            id in plan.dead && id in plan.subst && plan.subst[id] == w <==>
              && f.code[id].op !in {Syscall, ExternCall, Alloc, Load, Store, VAArg}
              && f.code[id].operands != []
              && exists ws :: HasWords(f.code[id].operands, sol.lattice, ws)
                              && folder.scalar(f.code[id].op, f.code[id].ty, ws) == Some(w)
  {
    var vs := f.code[id].operands;
    hide *;
    EntryExactly(f, folder, sol, id, []);
    ReplacedMeans(f, sol, id, w);
    if !SomeUnknown(vs, sol.lattice) && !SomeOpen(vs, sol.lattice) {
      var ws := KnownOperands(vs, sol.lattice);
      EntryExactly(f, folder, sol, id, ws);
      forall us | HasWords(vs, sol.lattice, us)
        ensures us == ws
      {
        WordsOfOperands(vs, sol.lattice, us);
        WordsOfOperands(vs, sol.lattice, ws);
      }
    } else {
      forall us
        ensures !HasWords(vs, sol.lattice, us)
      {
        NoWords(vs, sol.lattice, us);
      }
    }
  }

  lemma NoWords(vs: seq<Value>, lattice: map<Id, Entry>, ws: seq<Word>)
    requires SomeUnknown(vs, lattice) || SomeOpen(vs, lattice)
    ensures !HasWords(vs, lattice, ws)
  {
  }

  lemma ReplacedMeans(f: Function, sol: Solution, id: Id, w: Word)
    requires Executed(f, sol, id) && f.code[id].ty != 0 && id in sol.lattice
    requires f.code[id].op !in {Phi, Ret, Jmp, Jz, Jnz, Br}
    ensures var plan := ConstantPlan(f, sol);
            id in plan.dead && id in plan.subst && plan.subst[id] == w <==> sol.lattice[id] == Constant(w)
  {
  }

  /** Phis and what ends a block are never replaced, and nothing is that no run of the engine has come to. */
  lemma NeverReplaced(f: Function, folder: Folder, sol: Solution, id: Id)
    requires Found(f, folder, sol) && id in ConstantPlan(f, sol).dead
    ensures Executed(f, sol, id) && f.code[id].ty != 0 && f.code[id].op !in {Phi, Ret, Jmp, Jz, Jnz, Br}
  {
  }
}
