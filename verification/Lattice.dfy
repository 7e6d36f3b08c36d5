/**
 What sparse conditional constant propagation computes: the three-level lattice,
 the value each instruction has given its operands, and what it means for a
 set of edges and a lattice map to be a solution.
 */
module Lattice {
  import opened IR

  datatype Entry = Top | Constant(word: Word) | Bottom

  /** b is a, or what a may fall to. */
  predicate Leq(a: Entry, b: Entry) {
    a.Top? || b.Bottom? || a == b
  }

  /** The entry an instruction has after `next` arrives on top of `old`. */
  function Join(prev: Entry, next: Entry): (r: Entry)
    ensures Leq(prev, r) && Leq(next, r)
    ensures forall u :: Leq(prev, u) && Leq(next, u) ==> Leq(r, u)
  {
    if prev.Bottom? || next.Top? then prev
    else if prev.Top? then next
    else if prev == next then prev
    else Bottom
  }

  /** How instructions with constant operands are evaluated. */
  datatype Folder = Folder(scalar: (Opcode, nat, seq<Word>) -> Option<Word>,
                           call: (nat, seq<Word>) -> Option<Word>)

  type Edge = (BlockId, BlockId)

  datatype Solution = Solution(lattice: map<Id, Entry>, edges: set<Edge>, blocks: set<BlockId>)

  function LatticeValue(v: Value, lattice: map<Id, Entry>): Entry {
    match v
    case Cst(w) => Constant(w)
    case Inst(id) => if id in lattice then lattice[id] else Bottom
    case _ => Bottom
  }

  // ----- Transfer of one instruction

  /** The entry of a phi in block b, from pair k on, with `acc` gathered so far. */
  function PhiValue(operands: seq<Value>, b: BlockId, lattice: map<Id, Entry>, edges: set<Edge>, k: nat, acc: Entry)
    : Entry
    decreases |operands| - 2 * k
  {
    if 2 * k + 1 >= |operands| then acc
    else
      var pair := IncomingPair(operands, k);
      if pair.None? || pair.value.1.Null? || (pair.value.0, b) !in edges
          then PhiValue(operands, b, lattice, edges, k + 1, acc)
      else
        var val := LatticeValue(pair.value.1, lattice);
        if val.Bottom? then Bottom
        else if val.Top? then PhiValue(operands, b, lattice, edges, k + 1, acc)
        else if acc.Top? then PhiValue(operands, b, lattice, edges, k + 1, val)
        else if acc != val then Bottom
        else PhiValue(operands, b, lattice, edges, k + 1, acc)
  }

  ghost predicate AnyBottom(operands: seq<Value>, lattice: map<Id, Entry>) {
    exists i :: 0 <= i < |operands| && LatticeValue(operands[i], lattice).Bottom?
  }

  ghost predicate AllConstant(operands: seq<Value>, lattice: map<Id, Entry>) {
    forall i | 0 <= i < |operands| :: LatticeValue(operands[i], lattice).Constant?
  }

  function Words(operands: seq<Value>, lattice: map<Id, Entry>): (r: seq<Word>)
    requires forall i | 0 <= i < |operands| :: LatticeValue(operands[i], lattice).Constant?
    ensures |r| == |operands|
    ensures forall i | 0 <= i < |operands| :: Constant(r[i]) == LatticeValue(operands[i], lattice)
  {
    seq(|operands|, i requires 0 <= i < |operands| => LatticeValue(operands[i], lattice).word)
  }

  function Folded(result: Option<Word>): Entry {
    if result.Some? then Constant(result.value) else Bottom
  }

  ghost function CallValue(operands: seq<Value>, lattice: map<Id, Entry>, folder: Folder): Entry {
    if operands != [] && operands[0].Fun? && AllConstant(operands[1..], lattice) then
      Folded(folder.call(operands[0].name, Words(operands[1..], lattice)))
    else Bottom
  }

  predicate AlwaysBottom(op: Opcode) {
    op == Syscall || op == ExternCall || op == Alloc || op == Load || op == Store || op == VAArg
  }

  /** An operation is constant when its operands are and they fold; it waits while an operand is still Top. */
  ghost function OperationValue(instr: Instr, folder: Folder, lattice: map<Id, Entry>): Entry {
    if AnyBottom(instr.operands, lattice) then Bottom
    else if AllConstant(instr.operands, lattice) then
      Folded(folder.scalar(instr.op, instr.ty, Words(instr.operands, lattice)))
    else Top
  }

  /** The entry an instruction that is not a jump or branch should have. */
  ghost function Transfer(instr: Instr, folder: Folder, lattice: map<Id, Entry>, edges: set<Edge>): Entry {
    if instr.op == Phi then PhiValue(instr.operands, instr.parent, lattice, edges, 0, Top)
    else if instr.op == Call then CallValue(instr.operands, lattice, folder)
    else if AlwaysBottom(instr.op) then Bottom
    else if instr.operands == [] then Top
    else OperationValue(instr, folder, lattice)
  }

  predicate IsJump(op: Opcode) {
    op == Jmp || IsCondBranch(op)
  }

  /** The blocks a jump or branch may go to, as far as the lattice knows. */
  function Successors(instr: Instr, lattice: map<Id, Entry>): set<BlockId>
    requires instr.op == Jmp ==> |instr.operands| > 0 && instr.operands[0].Blk?
    requires IsCondBranch(instr.op) ==>
               |instr.operands| == 3 && instr.operands[1].Blk? && instr.operands[2].Blk?
  {
    if instr.op == Jmp then {instr.operands[0].block}
    else if IsCondBranch(instr.op) then
      match LatticeValue(instr.operands[0], lattice)
      case Top => {}
      case Constant(w) => {BranchTarget(instr, w)}
      case Bottom => {instr.operands[1].block, instr.operands[2].block}
    else {}
  }

  // ----- Solutions

  ghost function Placed(f: Function): set<Id> {
    set b, id | b in f.blocks && id in f.blocks[b] :: id
  }

  ghost function ValueIds(f: Function): set<Id> {
    set b, id | b in f.blocks && id in f.blocks[b] && id in f.code && f.code[id].ty != 0 :: id
  }

  /** Visiting the instruction would change nothing. */
  ghost predicate Stable(f: Function, folder: Folder, id: Id, lattice: map<Id, Entry>, edges: set<Edge>)
    requires id in f.code && TargetsExist(f, f.code[id])
  {
    var instr := f.code[id];
    if IsJump(instr.op) then forall b | b in Successors(instr, lattice) :: (instr.parent, b) in edges
    else instr.ty != 0 ==> id in lattice && Leq(Transfer(instr, folder, lattice, edges), lattice[id])
  }

  /** Every reachable block is in, every edge leads into it, and no instruction in it wants more. */
  ghost predicate Solves(f: Function, folder: Folder, sol: Solution) {
    && WellFormed(f)
    && f.order[0] in sol.blocks && sol.blocks <= f.blocks.Keys
    && sol.lattice.Keys == ValueIds(f)
    && (forall e | e in sol.edges :: e.1 in sol.blocks)
    && (forall b, i | b in sol.blocks && 0 <= i < |f.blocks[b]| ::
          Stable(f, folder, f.blocks[b][i], sol.lattice, sol.edges))
  }

  ghost predicate Falls(a: map<Id, Entry>, b: map<Id, Entry>) {
    a.Keys == b.Keys && forall id | id in a :: Leq(a[id], b[id])
  }

  /** a claims at least as much as b: more constants, fewer edges. */
  ghost predicate Finer(a: Solution, b: Solution) {
    Falls(a.lattice, b.lattice) && a.edges <= b.edges && a.blocks <= b.blocks
  }

  // ----- The phi value is the least entry above its executable inputs

  ghost predicate PhiInput(operands: seq<Value>, b: BlockId, edges: set<Edge>, k: nat) {
    && 2 * k + 1 < |operands| && IncomingPair(operands, k).Some?
    && !IncomingPair(operands, k).value.1.Null? && (IncomingPair(operands, k).value.0, b) in edges
  }

  lemma {:induction false} PhiValueAbove(operands: seq<Value>, b: BlockId, lattice: map<Id, Entry>, edges: set<Edge>,
                                         k: nat, acc: Entry)
    ensures Leq(acc, PhiValue(operands, b, lattice, edges, k, acc))
    ensures forall j | k <= j && PhiInput(operands, b, edges, j) ::
              Leq(LatticeValue(IncomingPair(operands, j).value.1, lattice),
                  PhiValue(operands, b, lattice, edges, k, acc))
    decreases |operands| - 2 * k
  {
    if 2 * k + 1 < |operands| {
      var acc' := if PhiInput(operands, b, edges, k)
                  then Join(acc, LatticeValue(IncomingPair(operands, k).value.1, lattice)) else acc;
      PhiValueAbove(operands, b, lattice, edges, k + 1, acc');
    }
  }

  lemma {:induction false} PhiValueLeast(operands: seq<Value>, b: BlockId, lattice: map<Id, Entry>, edges: set<Edge>,
                                         k: nat, acc: Entry, u: Entry)
    requires Leq(acc, u)
    requires forall j | k <= j && PhiInput(operands, b, edges, j) ::
               Leq(LatticeValue(IncomingPair(operands, j).value.1, lattice), u)
    ensures Leq(PhiValue(operands, b, lattice, edges, k, acc), u)
    decreases |operands| - 2 * k
  {
    if 2 * k + 1 < |operands| {
      if PhiInput(operands, b, edges, k) {
        var val := LatticeValue(IncomingPair(operands, k).value.1, lattice);
        assert Leq(val, u);
        if !val.Bottom? && (val.Top? || acc.Top? || acc == val) {
          PhiValueLeast(operands, b, lattice, edges, k + 1, Join(acc, val), u);
        }
      } else {
        PhiValueLeast(operands, b, lattice, edges, k + 1, acc, u);
      }
    }
  }

  // ----- Transfer is monotone

  lemma LatticeValueFalls(v: Value, a: map<Id, Entry>, b: map<Id, Entry>)
    requires Falls(a, b)
    ensures Leq(LatticeValue(v, a), LatticeValue(v, b))
  {
  }

  lemma PhiValueFalls(operands: seq<Value>, b: BlockId, lat: map<Id, Entry>, edges: set<Edge>,
                      lat': map<Id, Entry>, edges': set<Edge>)
    requires Falls(lat, lat') && edges <= edges'
    ensures Leq(PhiValue(operands, b, lat, edges, 0, Top), PhiValue(operands, b, lat', edges', 0, Top))
  {
    var u := PhiValue(operands, b, lat', edges', 0, Top);
    PhiValueAbove(operands, b, lat', edges', 0, Top);
    forall j | 0 <= j && PhiInput(operands, b, edges, j)
      ensures Leq(LatticeValue(IncomingPair(operands, j).value.1, lat), u)
    {
      assert PhiInput(operands, b, edges', j);
      LatticeValueFalls(IncomingPair(operands, j).value.1, lat, lat');
    }
    PhiValueLeast(operands, b, lat, edges, 0, Top, u);
  }

  lemma TransferFalls(instr: Instr, folder: Folder, lat: map<Id, Entry>, edges: set<Edge>,
                      lat': map<Id, Entry>, edges': set<Edge>)
    requires Falls(lat, lat') && edges <= edges' && instr.op != Call
    ensures Leq(Transfer(instr, folder, lat, edges), Transfer(instr, folder, lat', edges'))
  {
    if instr.op == Phi {
      PhiValueFalls(instr.operands, instr.parent, lat, edges, lat', edges');
    } else if AlwaysBottom(instr.op) || instr.operands == [] {
    } else {
      forall i | 0 <= i < |instr.operands|
        ensures Leq(LatticeValue(instr.operands[i], lat), LatticeValue(instr.operands[i], lat'))
      {
        LatticeValueFalls(instr.operands[i], lat, lat');
      }
      if AllConstant(instr.operands, lat) && !AnyBottom(instr.operands, lat') {
        assert AllConstant(instr.operands, lat') by {
          forall i | 0 <= i < |instr.operands|
            ensures LatticeValue(instr.operands[i], lat').Constant?
          {
            assert !LatticeValue(instr.operands[i], lat').Bottom?;
          }
        }
        assert Words(instr.operands, lat) == Words(instr.operands, lat');
      }
    }
  }

  lemma SuccessorsGrow(f: Function, instr: Instr, lat: map<Id, Entry>, lat': map<Id, Entry>)
    requires TargetsExist(f, instr) && Falls(lat, lat')
    ensures Successors(instr, lat) <= Successors(instr, lat')
  {
    if IsCondBranch(instr.op) {
      LatticeValueFalls(instr.operands[0], lat, lat');
    }
  }

  // ----- Transfer looks only at operands and at edges into its block

  lemma {:induction false} PhiValueLocal(operands: seq<Value>, b: BlockId, lat: map<Id, Entry>, edges: set<Edge>,
                                         lat': map<Id, Entry>, edges': set<Edge>, k: nat, acc: Entry)
    requires forall v | v in operands :: LatticeValue(v, lat) == LatticeValue(v, lat')
    requires forall p :: (p, b) in edges <==> (p, b) in edges'
    ensures PhiValue(operands, b, lat, edges, k, acc) == PhiValue(operands, b, lat', edges', k, acc)
    decreases |operands| - 2 * k
  {
    if 2 * k + 1 < |operands| {
      var pair := IncomingPair(operands, k);
      assert pair.Some? ==> pair.value.1 in operands;
      if PhiInput(operands, b, edges, k) && acc.Top? && LatticeValue(pair.value.1, lat).Constant? {
        PhiValueLocal(operands, b, lat, edges, lat', edges', k + 1, LatticeValue(pair.value.1, lat));
      } else {
        PhiValueLocal(operands, b, lat, edges, lat', edges', k + 1, acc);
      }
    }
  }

  lemma TransferLocal(instr: Instr, folder: Folder, lat: map<Id, Entry>, edges: set<Edge>,
                      lat': map<Id, Entry>, edges': set<Edge>)
    requires forall v | v in instr.operands :: LatticeValue(v, lat) == LatticeValue(v, lat')
    requires instr.op == Phi ==> forall p :: (p, instr.parent) in edges <==> (p, instr.parent) in edges'
    ensures Transfer(instr, folder, lat, edges) == Transfer(instr, folder, lat', edges')
  {
    var operands := instr.operands;
    if instr.op == Phi {
      PhiValueLocal(operands, instr.parent, lat, edges, lat', edges', 0, Top);
    } else {
      assert forall i | 0 <= i < |operands| :: operands[i] in operands;
      if instr.op == Call && operands != [] {
        var args := operands[1..];
        assert forall i | 0 <= i < |args| :: args[i] == operands[i + 1];
        assert AllConstant(args, lat) == AllConstant(args, lat');
        if AllConstant(args, lat) {
          assert Words(args, lat) == Words(args, lat');
        }
      } else if AllConstant(operands, lat) {
        assert Words(operands, lat) == Words(operands, lat');
      }
    }
  }
}
