/**
 Removing the blocks no chain of terminators leads to, with the phi inputs that came
 from them; and why no run can tell.
 */
module UnreachableBlocks {
  import opened IR
  import opened Erasure

  // ----- Reachability

  /** The last terminator among the first n instructions. */
  function FindTerminator(list: seq<Id>, code: map<Id, Instr>, n: nat): (t: Option<Id>)
    requires n <= |list|
    ensures t.Some? ==> t.value in list[..n] && t.value in code && IsTerminator(code[t.value].op)
  {
    if n == 0 then None
    else if list[n - 1] in code && IsTerminator(code[list[n - 1]].op) then Some(list[n - 1])
    else FindTerminator(list, code, n - 1)
  }

  function Exits(f: Function, a: BlockId): seq<Value> {
    if a !in f.blocks then []
    else
      var t := FindTerminator(f.blocks[a], f.code, |f.blocks[a]|);
      if t.Some? then f.code[t.value].operands else []
  }

  predicate Leads(f: Function, a: BlockId, b: BlockId) {
    Blk(b) in Exits(f, a)
  }

  ghost predicate IsChain(f: Function, p: seq<BlockId>) {
    p != [] && forall i | 0 < i < |p| :: Leads(f, p[i - 1], p[i])
  }

  ghost predicate Reachable(f: Function, b: BlockId)
    requires f.order != []
  {
    exists p: seq<BlockId> :: IsChain(f, p) && p[0] == f.order[0] && Last(p) == b
  }

  lemma {:induction false} LastEnds(list: seq<Id>, code: map<Id, Instr>, n: nat)
    requires n <= |list|
    ensures FindTerminator(list, code, n).Some? ==>
              exists k :: 0 <= k < n && FindTerminator(list, code, n) == Some(list[k]) && EndsAt(list, code, n, k)
    ensures FindTerminator(list, code, n).None? ==> forall k | 0 <= k < n :: !Ends(list, code, k)
  {
    if n > 0 {
      EndsIs(list, code, n - 1);
      hide Ends;
      if FindTerminator(list, code, n) == Some(list[n - 1]) && Ends(list, code, n - 1) {
        assert EndsAt(list, code, n, n - 1);
      } else {
        LastEnds(list, code, n - 1);
        if FindTerminator(list, code, n).Some? {
          var k :| 0 <= k < n - 1 && FindTerminator(list, code, n - 1) == Some(list[k]) && EndsAt(list, code, n - 1, k);
          assert EndsAt(list, code, n, k);
        }
      }
    }
  }

  /** A return, a jump or a branch. */
  predicate Ends(list: seq<Id>, code: map<Id, Instr>, k: int)
    requires 0 <= k < |list|
  {
    list[k] in code && code[list[k]].op in {Ret, Jmp, Jz, Jnz, Br}
  }

  lemma EndsIs(list: seq<Id>, code: map<Id, Instr>, k: nat)
    requires k < |list|
    ensures Ends(list, code, k) <==> list[k] in code && IsTerminator(code[list[k]].op)
  {
  }

  /** The last of the first n instructions that ends a block stands at k. */
  ghost predicate EndsAt(list: seq<Id>, code: map<Id, Instr>, n: nat, k: int)
    requires n <= |list|
  {
    0 <= k < n && Ends(list, code, k) && forall j | k < j < n :: !Ends(list, code, j)
  }

  /** One block leads to another exactly if its last return, jump or branch names it. */
  lemma LeadsExactly(f: Function, a: BlockId, b: BlockId)
    ensures Leads(f, a, b) <==>
              && a in f.blocks
              && exists k :: EndsAt(f.blocks[a], f.code, |f.blocks[a]|, k) && Blk(b) in f.code[f.blocks[a][k]].operands
  {
    if a in f.blocks {
      var list := f.blocks[a];
      LastEnds(list, f.code, |list|);
      hide FindTerminator, Ends;
      forall k, j | EndsAt(list, f.code, |list|, k) && EndsAt(list, f.code, |list|, j)
        ensures k == j
      {
      }
      if k :| EndsAt(list, f.code, |list|, k) { EndsIs(list, f.code, k); }
    }
  }

  lemma ReachableNext(f: Function, a: BlockId, b: BlockId)
    requires f.order != [] && Reachable(f, a) && Leads(f, a, b)
    ensures Reachable(f, b)
  {
    hide Leads;
    var p: seq<BlockId> :| IsChain(f, p) && p[0] == f.order[0] && Last(p) == a;
    assert IsChain(f, p + [b]);
  }

  lemma {:induction false} ChainStaysIn(f: Function, p: seq<BlockId>, s: set<BlockId>)
    requires IsChain(f, p) && p[0] in s
    requires forall a: BlockId, b: BlockId | a in s && Leads(f, a, b) :: b in s
    ensures Last(p) in s
    decreases |p|
  {
    if |p| > 1 {
      ChainStaysIn(f, p[..|p| - 1], s);
      assert Leads(f, p[|p| - 2], Last(p));
    }
  }

  // ----- What is asked of a function

  /** Labels are the targets of terminators and the blocks of phi pairs, and nothing else. */
  ghost predicate LabelsInPlace(instr: Instr) {
    if instr.op == Phi then
      forall k: nat | 2 * k + 1 < |instr.operands| :: !(instr.operands[2 * k].Blk? && instr.operands[2 * k + 1].Blk?)
    else if instr.op == Jmp then forall i | 0 < i < |instr.operands| :: !instr.operands[i].Blk?
    else if IsCondBranch(instr.op) then |instr.operands| == 3 && !instr.operands[0].Blk?
    else forall i | 0 <= i < |instr.operands| :: !instr.operands[i].Blk?
  }

  /** Blocks have one terminator at most, and terminators stand in their blocks. */
  ghost predicate Tidy(f: Function) {
    && WellFormed(f)
    && (forall b, i, j | b in f.blocks && 0 <= i < j < |f.blocks[b]| ::
          !(IsTerminator(f.code[f.blocks[b][i]].op) && IsTerminator(f.code[f.blocks[b][j]].op)))
    && (forall id | id in f.code :: LabelsInPlace(f.code[id]))
    && (forall id | id in f.code && IsTerminator(f.code[id].op) ::
          f.code[id].parent in f.blocks && id in f.blocks[f.code[id].parent])
  }

  lemma {:induction false} OnlyTerminator(list: seq<Id>, code: map<Id, Instr>, n: nat, k: nat)
    requires k < n <= |list| && list[k] in code && IsTerminator(code[list[k]].op)
    requires forall j | k < j < n && list[j] in code :: !IsTerminator(code[list[j]].op)
    ensures FindTerminator(list, code, n) == Some(list[k])
  {
    if k < n - 1 { OnlyTerminator(list, code, n - 1, k); }
  }

  /** The terminator of a block is what its exits come from. */
  lemma TerminatorExits(f: Function, b: BlockId, id: Id)
    requires Tidy(f) && b in f.blocks && id in f.blocks[b] && IsTerminator(f.code[id].op)
    ensures Exits(f, b) == f.code[id].operands
  {
    var list := f.blocks[b];
    var k :| 0 <= k < |list| && list[k] == id;
    forall j | k < j < |list|
      ensures !IsTerminator(f.code[list[j]].op)
    {
      assert !(IsTerminator(f.code[list[k]].op) && IsTerminator(f.code[list[j]].op));
    }
    OnlyTerminator(list, f.code, |list|, k);
  }

  /** Exits are blocks of the function. */
  lemma LeadsInside(f: Function, a: BlockId, b: BlockId)
    requires Tidy(f) && Leads(f, a, b)
    ensures a in f.blocks && b in f.blocks
  {
    var t := FindTerminator(f.blocks[a], f.code, |f.blocks[a]|);
    assert t.Some?;
    var instr := f.code[t.value];
    assert LabelsInPlace(instr) && TargetsExist(f, instr) && instr.operands == Exits(f, a);
    hide *;
    LabelledExit(f, instr, b);
  }

  lemma LabelledExit(f: Function, instr: Instr, b: BlockId)
    requires LabelsInPlace(instr) && TargetsExist(f, instr) && IsTerminator(instr.op) && Blk(b) in instr.operands
    ensures b in f.blocks
  {
    var i :| 0 <= i < |instr.operands| && instr.operands[i] == Blk(b);
  }

  // ----- Finding the reachable blocks

  ghost function Labels(operands: seq<Value>): set<BlockId> {
    set v | v in operands && v.Blk? :: v.block
  }

  lemma LabelsNext(operands: seq<Value>, k: nat)
    requires k < |operands|
    ensures Labels(operands[..k + 1]) == Labels(operands[..k]) + (if operands[k].Blk? then {operands[k].block} else {})
  {
    assert operands[..k + 1] == operands[..k] + [operands[k]];
  }

  /** Inserts the blocks among the operands, and pushes the new ones. */
  method InsertTargets(operands: seq<Value>, reachable: set<BlockId>, worklist: seq<BlockId>)
    returns (reachable': set<BlockId>, worklist': seq<BlockId>)
    ensures reachable' == reachable + Labels(operands)
    ensures forall b: BlockId :: b in worklist' <==> b in worklist || b in Labels(operands) - reachable
    ensures reachable' == reachable ==> worklist' == worklist
  {
    reachable', worklist' := reachable, worklist;
    for k := 0 to |operands|
      invariant reachable' == reachable + Labels(operands[..k])
      invariant forall b: BlockId :: b in worklist' <==> b in worklist || b in Labels(operands[..k]) - reachable
      invariant reachable' == reachable ==> worklist' == worklist
    {
      LabelsNext(operands, k);
      if operands[k].Blk? && operands[k].block !in reachable' {
        reachable' := reachable' + {operands[k].block};
        worklist' := worklist' + [operands[k].block];
      }
    }
    assert operands[..|operands|] == operands;
  }

  /** Everything found is reachable, and what is no longer waiting has had its exits followed. */
  ghost predicate Exploring(f: Function, reachable: set<BlockId>, worklist: seq<BlockId>)
    requires f.order != []
  {
    && f.order[0] in reachable && reachable <= f.blocks.Keys
    && (forall b | b in reachable :: Reachable(f, b))
    && (forall b | b in worklist :: b in reachable)
    && (forall a: BlockId, b: BlockId | a in reachable && a !in worklist && Leads(f, a, b) :: b in reachable)
  }

  lemma ExploringNext(f: Function, reachable: set<BlockId>, worklist: seq<BlockId>, reachable': set<BlockId>,
                      worklist': seq<BlockId>)
    requires Tidy(f) && f.order != [] && Exploring(f, reachable, worklist) && worklist != []
    requires reachable' == reachable + Labels(Exits(f, Last(worklist)))
    requires forall b: BlockId :: b in worklist' <==>
               b in worklist[..|worklist| - 1] || b in Labels(Exits(f, Last(worklist))) - reachable
    ensures Exploring(f, reachable', worklist')
  {
    hide Reachable, Tidy, Exits;
    var a := Last(worklist);
    assert a in worklist;
    assert worklist == worklist[..|worklist| - 1] + [a];
    forall b: BlockId | b in Labels(Exits(f, a))
      ensures b in f.blocks && Reachable(f, b)
    {
      assert Leads(f, a, b);
      LeadsInside(f, a, b);
      ReachableNext(f, a, b);
    }
  }

  lemma EntryReachable(f: Function)
    requires Tidy(f)
    ensures f.order != [] && f.order[0] in f.blocks && Reachable(f, f.order[0])
  {
    assert f.order[0] in f.order;
    assert IsChain(f, [f.order[0]]);
  }

  lemma Explored(f: Function, reachable: set<BlockId>)
    requires f.order != [] && Exploring(f, reachable, [])
    ensures forall b: BlockId :: b in reachable <==> Reachable(f, b)
  {
    forall b: BlockId | Reachable(f, b)
      ensures b in reachable
    {
      var p: seq<BlockId> :| IsChain(f, p) && p[0] == f.order[0] && Last(p) == b;
      ChainStaysIn(f, p, reachable);
    }
  }

  method FindReachableBlocks(f: Function) returns (reachable: set<BlockId>)
    requires Tidy(f)
    ensures f.order != [] && forall b: BlockId :: b in reachable <==> Reachable(f, b)
    ensures reachable <= f.blocks.Keys && f.order[0] in reachable
  {
    EntryReachable(f);
    hide Tidy, Reachable, Leads, Exits, FindTerminator;
    reachable := {f.order[0]};
    var worklist := [f.order[0]];
    while worklist != []
      invariant Exploring(f, reachable, worklist)
      decreases f.blocks.Keys - reachable, |worklist|
    {
      var curr := Last(worklist);
      ghost var reachable0, worklist0 := reachable, worklist;
      reachable, worklist := InsertTargets(Exits(f, curr), reachable, worklist[..|worklist| - 1]);
      ExploringNext(f, reachable0, worklist0, reachable, worklist);
      assert reachable == reachable0 || exists b :: b in reachable && b !in reachable0;
    }
    Explored(f, reachable);
  }

  // ----- Removing one block

  /** A phi without the first pair that names b where its labels should stand. */
  function RemoveIncoming(operands: seq<Value>, b: BlockId, k: nat): seq<Value>
    decreases |operands| - k
  {
    if k >= |operands| then operands
    else if operands[k] == Blk(b) then operands[..k] + (if k + 2 <= |operands| then operands[k + 2..] else [])
    else RemoveIncoming(operands, b, k + 2)
  }

  /** The first n of the list lose an input from b. */
  function DetachPhis(code: map<Id, Instr>, list: seq<Id>, n: nat, b: BlockId): map<Id, Instr>
    requires n <= |list|
  {
    map id | id in code ::
      if id in list[..n] then code[id].(operands := RemoveIncoming(code[id].operands, b, 0)) else code[id]
  }

  /** The same for the leading phis of each of the first k exits. */
  function Detached(blocks: map<BlockId, seq<Id>>, code: map<Id, Instr>, exits: seq<Value>, b: BlockId,
                    k: nat): map<Id, Instr>
    requires k <= |exits|
  {
    if k == 0 then code
    else
      var before := Detached(blocks, code, exits, b, k - 1);
      if exits[k - 1].Blk? && exits[k - 1].block in blocks then
        var list := blocks[exits[k - 1].block];
        DetachPhis(before, list, LeadingPhis(list, before), b)
      else before
  }

  /** What becomes of an operand when instructions and blocks are gone. */
  function NullValue(v: Value, ids: set<Id>, blocks: set<BlockId>): Value {
    if (v.Inst? && v.id in ids) || (v.Blk? && v.block in blocks) then Null else v
  }

  function NullAll(vs: seq<Value>, ids: set<Id>, blocks: set<BlockId>): (r: seq<Value>)
    ensures |r| == |vs|
    ensures forall i | 0 <= i < |vs| :: r[i] == NullValue(vs[i], ids, blocks)
  {
    seq(|vs|, i requires 0 <= i < |vs| => NullValue(vs[i], ids, blocks))
  }

  function IdsOf(f: Function, b: BlockId): set<Id> {
    if b in f.blocks then set id | id in f.blocks[b] else {}
  }

  function WithoutBlock(f: Function, b: BlockId, code: map<Id, Instr>): Function {
    var ids := IdsOf(f, b);
    Function(Keep(f.order, {b}), f.blocks - {b},
             map id | id in code && id !in ids :: code[id].(operands := NullAll(code[id].operands, ids, {b})))
  }

  function RemoveBlock(f: Function, b: BlockId): Function {
    WithoutBlock(f, b, Detached(f.blocks, f.code, Exits(f, b), b, |Exits(f, b)|))
  }

  function RemoveAll(f: Function, bs: seq<BlockId>): Function {
    if bs == [] then f else RemoveBlock(RemoveAll(f, bs[..|bs| - 1]), Last(bs))
  }

  /** The loop over the instructions of one exit, up to the first that is no phi. */
  method DetachFrom(code: map<Id, Instr>, list: seq<Id>, b: BlockId) returns (code': map<Id, Instr>)
    requires forall i, j | 0 <= i < j < |list| :: list[i] != list[j]
    ensures code' == DetachPhis(code, list, LeadingPhis(list, code), b)
  {
    code' := code;
    var i := 0;
    DetachNone(code, list, b);
    while i < |list| && list[i] in code' && code'[list[i]].op == Phi
      invariant i <= |list| && code' == DetachPhis(code, list, i, b)
      invariant PhisEnd(list, code, 0) == PhisEnd(list, code, i)
    {
      DetachNext(code, list, i, b);
      code' := code'[list[i] := code'[list[i]].(operands := RemoveIncoming(code'[list[i]].operands, b, 0))];
      i := i + 1;
    }
  }

  lemma DetachNone(code: map<Id, Instr>, list: seq<Id>, b: BlockId)
    ensures DetachPhis(code, list, 0, b) == code
  {
  }

  lemma DetachNext(code: map<Id, Instr>, list: seq<Id>, i: nat, b: BlockId)
    requires i < |list| && list[i] in code && forall i, j | 0 <= i < j < |list| :: list[i] != list[j]
    ensures var code' := DetachPhis(code, list, i, b);
            list[i] in code'
            && DetachPhis(code, list, i + 1, b)
               == code'[list[i] := code'[list[i]].(operands := RemoveIncoming(code'[list[i]].operands, b, 0))]
  {
    assert list[..i + 1] == list[..i] + [list[i]];
    assert list[i] !in list[..i];
  }

  method EliminateBlock(f: Function, b: BlockId) returns (g: Function)
    requires forall c, i, j | c in f.blocks && 0 <= i < j < |f.blocks[c]| :: f.blocks[c][i] != f.blocks[c][j]
    ensures g == RemoveBlock(f, b)
  {
    var exits := Exits(f, b);
    var code := f.code;
    for k := 0 to |exits|
      invariant code == Detached(f.blocks, f.code, exits, b, k)
    {
      if exits[k].Blk? && exits[k].block in f.blocks {
        code := DetachFrom(code, f.blocks[exits[k].block], b);
      }
    }
    g := WithoutBlock(f, b, code);
  }

  // ----- What removal leaves

  /** No pair of a phi holds two labels. */
  ghost predicate PhiPairs(operands: seq<Value>) {
    forall k: nat | 2 * k + 1 < |operands| :: !(operands[2 * k].Blk? && operands[2 * k + 1].Blk?)
  }

  ghost predicate DetachedInstr(i: Instr, j: Instr, b: BlockId) {
    && j.op == i.op && j.ty == i.ty && j.parent == i.parent
    && (i.op != Phi ==> j.operands == i.operands)
    && (i.op == Phi && PhiPairs(i.operands) ==>
          && PhiPairs(j.operands) && (forall v | v in j.operands :: v in i.operands)
          && (forall p: BlockId | p != b :: IncomingFrom(j.operands, p, 0) == IncomingFrom(i.operands, p, 0)))
  }

  lemma {:induction false} IncomingShifted(operands: seq<Value>, j: nat, k: nat, p: BlockId)
    requires 2 * j + 2 <= |operands| && j <= k
    ensures IncomingFrom(operands[..2 * j] + operands[2 * j + 2..], p, k) == IncomingFrom(operands, p, k + 1)
    decreases |operands| - 2 * k
  {
    var short := operands[..2 * j] + operands[2 * j + 2..];
    if 2 * (k + 1) + 1 < |operands| {
      assert short[2 * k] == operands[2 * (k + 1)] && short[2 * k + 1] == operands[2 * (k + 1) + 1];
      IncomingShifted(operands, j, k + 1, p);
    }
  }

  lemma PairsShifted(operands: seq<Value>, j: nat)
    requires 2 * j + 2 <= |operands| && PhiPairs(operands)
    ensures PhiPairs(operands[..2 * j] + operands[2 * j + 2..])
  {
    var short := operands[..2 * j] + operands[2 * j + 2..];
    forall k: nat | 2 * k + 1 < |short|
      ensures !(short[2 * k].Blk? && short[2 * k + 1].Blk?)
    {
      var k' := if k < j then k else k + 1;
      assert short[2 * k] == operands[2 * k'] && short[2 * k + 1] == operands[2 * k' + 1];
    }
  }

  lemma {:induction false} RemovedFront(operands: seq<Value>, b: BlockId, k: nat)
    requires k <= |operands|
    ensures k <= |RemoveIncoming(operands, b, k)| <= |operands| && RemoveIncoming(operands, b, k)[..k] == operands[..k]
    ensures |operands| - 2 <= |RemoveIncoming(operands, b, k)|
    decreases |operands| - k
  {
    if k < |operands| && operands[k] != Blk(b) && k + 2 <= |operands| {
      RemovedFront(operands, b, k + 2);
      var r := RemoveIncoming(operands, b, k + 2);
      assert r[..k] == r[..k + 2][..k];
    }
  }

  /** The inputs from other blocks stay as they were. */
  lemma {:induction false} RemovedIncoming(operands: seq<Value>, b: BlockId, j: nat, p: BlockId)
    requires PhiPairs(operands) && p != b && 2 * j <= |operands|
    ensures IncomingFrom(RemoveIncoming(operands, b, 2 * j), p, j) == IncomingFrom(operands, p, j)
    decreases |operands| - 2 * j
  {
    if 2 * j + 1 < |operands| {
      if operands[2 * j] == Blk(b) {
        IncomingShifted(operands, j, j, p);
      } else {
        RemovedIncoming(operands, b, j + 1, p);
        RemovedFront(operands, b, 2 * j + 2);
        var r := RemoveIncoming(operands, b, 2 * j + 2);
        assert r[2 * j] == r[..2 * j + 2][2 * j] && r[2 * j + 1] == r[..2 * j + 2][2 * j + 1];
      }
    }
  }

  lemma {:induction false} RemovedPairs(operands: seq<Value>, b: BlockId, j: nat)
    requires PhiPairs(operands) && 2 * j <= |operands|
    ensures PhiPairs(RemoveIncoming(operands, b, 2 * j))
    ensures forall v | v in RemoveIncoming(operands, b, 2 * j) :: v in operands
    decreases |operands| - 2 * j
  {
    if 2 * j < |operands| {
      if operands[2 * j] == Blk(b) {
        if 2 * j + 2 <= |operands| { PairsShifted(operands, j); }
      } else if 2 * j + 2 <= |operands| {
        RemovedPairs(operands, b, j + 1);
      }
    }
  }

  lemma RemovedFromInstr(i: Instr, b: BlockId)
    requires i.op == Phi
    ensures DetachedInstr(i, i.(operands := RemoveIncoming(i.operands, b, 0)), b)
  {
    if PhiPairs(i.operands) {
      RemovedPairs(i.operands, b, 0);
      forall p: BlockId | p != b
        ensures IncomingFrom(RemoveIncoming(i.operands, b, 0), p, 0) == IncomingFrom(i.operands, p, 0)
      {
        RemovedIncoming(i.operands, b, 0, p);
      }
    }
  }

  lemma {:induction false} DetachedAll(blocks: map<BlockId, seq<Id>>, code: map<Id, Instr>, exits: seq<Value>,
                                       b: BlockId, k: nat)
    requires k <= |exits|
    ensures var code' := Detached(blocks, code, exits, b, k);
            code'.Keys == code.Keys && forall id | id in code :: DetachedInstr(code[id], code'[id], b)
  {
    if k > 0 {
      DetachedAll(blocks, code, exits, b, k - 1);
      var before := Detached(blocks, code, exits, b, k - 1);
      if exits[k - 1].Blk? && exits[k - 1].block in blocks {
        var list := blocks[exits[k - 1].block];
        var n := LeadingPhis(list, before);
        var code' := DetachPhis(before, list, n, b);
        forall id | id in code
          ensures DetachedInstr(code[id], code'[id], b)
        {
          if id in list[..n] {
            RemovedFromInstr(before[id], b);
          }
        }
      }
    }
  }
}
