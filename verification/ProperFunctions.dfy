/**
 What the eliminations of dead code work on, and that none of them spoils it.
 */
module ProperFunctions {
  import opened IR
  import opened Erasure
  import opened UnreachableBlocks
  import opened UnreachableRuns
  import opened DeadCode

  /** What the eliminations work on: labels and terminators in place, operands that exist. */
  ghost predicate Proper(f: Function) {
    Tidy(f) && OperandsExist(f)
  }

  // ----- Sweeping keeps functions proper

  lemma {:induction false} KeepOrder(list: seq<Id>, dead: set<Id>, i: nat, j: nat) returns (i': nat, j': nat)
    requires i < j < |Keep(list, dead)|
    ensures i' < j' < |list| && list[i'] == Keep(list, dead)[i] && list[j'] == Keep(list, dead)[j]
  {
    if list[0] in dead {
      i', j' := KeepOrder(list[1..], dead, i, j);
      i', j' := i' + 1, j' + 1;
    } else if i > 0 {
      i', j' := KeepOrder(list[1..], dead, i - 1, j - 1);
      i', j' := i' + 1, j' + 1;
    } else {
      i' := 0;
      KeepMembers(list[1..], dead);
      assert Keep(list, dead)[j] == Keep(list[1..], dead)[j - 1];
      assert Keep(list[1..], dead)[j - 1] in Keep(list[1..], dead);
      var k :| 0 <= k < |list[1..]| && list[1..][k] == Keep(list, dead)[j];
      j' := k + 1;
    }
  }

  /** Only operations go. */
  ghost predicate Sweepable(f: Function, dead: set<Id>) {
    forall id | id in dead && id in f.code :: !IsTerminator(f.code[id].op)
  }

  lemma SweptShape(f: Function, dead: set<Id>)
    ensures var g := Rewrite(f, Plan(dead, map[]));
            && g.order == f.order && g.code == f.code && g.blocks.Keys == f.blocks.Keys
            && forall b | b in f.blocks :: g.blocks[b] == Keep(f.blocks[b], dead)
  {
    forall id | id in f.code
      ensures SubstAll(f.code[id].operands, map[]) == f.code[id].operands
    {
    }
    assert Rewrite(f, Plan(dead, map[])).code == f.code;
  }

  /** A block of the swept function, by members and by order. */
  lemma SweptBlock(f: Function, g: Function, dead: set<Id>, b: BlockId)
    requires Tidy(f) && Sweepable(f, dead) && b in f.blocks && b in g.blocks && g.blocks[b] == Keep(f.blocks[b], dead)
    requires g.code == f.code
    ensures forall i | 0 <= i < |g.blocks[b]| :: g.blocks[b][i] in f.code && f.code[g.blocks[b][i]].parent == b
    ensures forall i, j | 0 <= i < j < |g.blocks[b]| ::
              && g.blocks[b][i] != g.blocks[b][j]
              && !(IsTerminator(f.code[g.blocks[b][i]].op) && IsTerminator(f.code[g.blocks[b][j]].op))
              && (f.code[g.blocks[b][j]].op == Phi ==> f.code[g.blocks[b][i]].op == Phi)
    ensures forall id | id in f.blocks[b] && IsTerminator(f.code[id].op) :: id in g.blocks[b]
  {
    var list, kept := f.blocks[b], g.blocks[b];
    KeepMembers(list, dead);
    forall i | 0 <= i < |kept|
      ensures kept[i] in f.code && f.code[kept[i]].parent == b
    {
      assert kept[i] in kept;
    }
    forall i: nat, j: nat | i < j < |kept|
      ensures kept[i] != kept[j]
      ensures !(IsTerminator(f.code[kept[i]].op) && IsTerminator(f.code[kept[j]].op))
      ensures f.code[kept[j]].op == Phi ==> f.code[kept[i]].op == Phi
    {
      var i', j' := KeepOrder(list, dead, i, j);
      assert PhisLead(list, f.code);
    }
  }

  lemma SweptProper(f: Function, dead: set<Id>)
    requires Proper(f) && Sweepable(f, dead)
    ensures Proper(Rewrite(f, Plan(dead, map[])))
  {
    var g := Rewrite(f, Plan(dead, map[]));
    SweptShape(f, dead);
    hide Rewrite, Sweepable, Keep;
    forall b | b in g.blocks
      ensures SweptWell(f, g, b)
    {
      SweptBlock(f, g, dead, b);
    }
    SweptTidy(f, g);
    OperandsStay(f, g, dead);
  }

  ghost predicate SweptWell(f: Function, g: Function, b: BlockId) {
    && b in g.blocks && b in f.blocks
    && (forall i | 0 <= i < |g.blocks[b]| :: g.blocks[b][i] in f.code && f.code[g.blocks[b][i]].parent == b)
    && (forall i, j | 0 <= i < j < |g.blocks[b]| ::
          && g.blocks[b][i] != g.blocks[b][j]
          && !(IsTerminator(f.code[g.blocks[b][i]].op) && IsTerminator(f.code[g.blocks[b][j]].op))
          && (f.code[g.blocks[b][j]].op == Phi ==> f.code[g.blocks[b][i]].op == Phi))
    && (forall id | id in f.blocks[b] && id in f.code && IsTerminator(f.code[id].op) :: id in g.blocks[b])
  }

  lemma SweptTidy(f: Function, g: Function)
    requires Tidy(f) && g.order == f.order && g.code == f.code && g.blocks.Keys == f.blocks.Keys
    requires forall b | b in g.blocks :: SweptWell(f, g, b)
    ensures Tidy(g)
  {
    hide LabelsInPlace;
    forall id | id in g.code
      ensures TargetsExist(g, g.code[id])
    {
      assert TargetsExist(f, f.code[id]);
    }
    hide TargetsExist;
    forall b | b in g.blocks
      ensures PhisLead(g.blocks[b], g.code)
    {
      assert SweptWell(f, g, b);
    }
  }

  lemma OperandsStay(f: Function, g: Function, dead: set<Id>)
    requires Proper(f) && g.code == f.code && g.blocks.Keys == f.blocks.Keys
    requires forall b | b in g.blocks :: SweptWell(f, g, b)
    ensures OperandsExist(g)
  {
    forall b, id | b in g.blocks && id in g.blocks[b]
      ensures id in g.code
    {
      assert SweptWell(f, g, b);
      var i :| 0 <= i < |g.blocks[b]| && g.blocks[b][i] == id;
    }
  }

  // ----- Removing unreachable blocks keeps functions proper

  lemma TrimmedTerminator(f: Function, g: Function, gone: set<BlockId>, id: Id)
    requires Tidy(f) && f.order != [] && AreUnreachable(f, gone) && Trimmed(f, g, gone)
    requires id in g.code && IsTerminator(g.code[id].op)
    ensures g.code[id].parent in g.blocks && id in g.blocks[g.code[id].parent]
    ensures TargetsExist(g, g.code[id]) && LabelsInPlace(g.code[id])
  {
    var i, j, ids := f.code[id], g.code[id], IdsOfAll(f, gone);
    assert TrimmedInstr(i, j, ids, gone);
    var b := i.parent;
    assert b in f.blocks && id in f.blocks[b];
    assert b !in gone;
    ReachInstr(f, g, gone, b, id);
    hide Tidy, AreUnreachable, Trimmed, IdsOfAll;
    TerminatorKept(f, g, gone, i, j, ids);
  }

  lemma TerminatorKept(f: Function, g: Function, gone: set<BlockId>, i: Instr, j: Instr, ids: set<Id>)
    requires IsTerminator(i.op) && TrimmedInstr(i, j, ids, gone) && LabelsInPlace(i) && TargetsExist(f, i)
    requires forall c: BlockId | Blk(c) in i.operands :: c in f.blocks && c !in gone
    requires g.blocks == f.blocks - gone
    ensures TargetsExist(g, j) && LabelsInPlace(j)
  {
    assert forall k | 0 <= k < |i.operands| :: i.operands[k] in i.operands;
    assert forall k | 0 <= k < |j.operands| :: j.operands[k] == NullValue(i.operands[k], ids, gone);
  }

  lemma TrimmedLabels(i: Instr, j: Instr, ids: set<Id>, gone: set<BlockId>)
    requires TrimmedInstr(i, j, ids, gone) && LabelsInPlace(i) && !IsTerminator(i.op)
    ensures LabelsInPlace(j)
  {
    if i.op != Phi {
      forall k | 0 <= k < |j.operands|
        ensures !j.operands[k].Blk?
      {
        OperandsRead(i, k);
      }
    }
  }

  lemma TrimmedOperands(f: Function, i: Instr, j: Instr, ids: set<Id>, gone: set<BlockId>)
    requires TrimmedInstr(i, j, ids, gone) && Used(i.operands) <= f.code.Keys
    ensures Used(j.operands) <= f.code.Keys - ids
  {
    forall v | v in j.operands && v.Inst?
      ensures v.id in f.code.Keys - ids
    {
      var k :| 0 <= k < |j.operands| && j.operands[k] == v;
      if i.op == Phi {
        assert v in i.operands && v == NullValue(v, ids, gone);
      } else {
        assert i.operands[k] in i.operands;
      }
      assert v.id in Used(i.operands);
    }
  }

  lemma TrimmedBlock(f: Function, g: Function, gone: set<BlockId>, b: BlockId)
    requires Tidy(f) && f.order != [] && AreUnreachable(f, gone) && Trimmed(f, g, gone) && b in g.blocks
    ensures b in f.blocks && b !in gone && g.blocks[b] == f.blocks[b]
    ensures forall id | id in g.blocks[b] ::
              id in f.code && id in g.code && g.code[id].op == f.code[id].op && g.code[id].parent == b
    ensures PhisLead(g.blocks[b], g.code)
  {
    forall id | id in g.blocks[b]
      ensures id in f.code && id in g.code && g.code[id].op == f.code[id].op && g.code[id].parent == b
    {
      ReachInstr(f, g, gone, b, id);
      assert f.code[id].parent == b;
      SameOpcode(f.code[id], g.code[id], IdsOfAll(f, gone), gone);
      SameParent(f.code[id], g.code[id], IdsOfAll(f, gone), gone);
    }
    assert PhisLead(f.blocks[b], f.code);
    hide Tidy, Trimmed;
    var list := g.blocks[b];
    forall i, j | 0 <= i < j < |list| && list[i] in g.code && list[j] in g.code
      ensures g.code[list[j]].op == Phi ==> g.code[list[i]].op == Phi
    {
      assert list[i] in list && list[j] in list;
    }
  }

  lemma SameParent(i: Instr, j: Instr, ids: set<Id>, gone: set<BlockId>)
    requires TrimmedInstr(i, j, ids, gone)
    ensures j.parent == i.parent
  {
  }

  lemma TrimmedOrder(f: Function, g: Function, gone: set<BlockId>)
    requires Tidy(f) && f.order != [] && AreUnreachable(f, gone) && Trimmed(f, g, gone)
    ensures g.order != [] && (forall b :: b in g.order <==> b in g.blocks)
    ensures forall i, j | 0 <= i < j < |g.order| :: g.order[i] != g.order[j]
  {
    StartsInReach(f, g, gone, State([], 0, map[], map[], None));
    KeepMembers(f.order, gone);
    forall i: nat, j: nat | i < j < |g.order|
      ensures g.order[i] != g.order[j]
    {
      var i', j' := KeepOrder(f.order, gone, i, j);
    }
  }

  /** What is known of an instruction after the removal. */
  lemma TrimmedCode(f: Function, g: Function, gone: set<BlockId>, id: Id)
    requires Proper(f) && f.order != [] && AreUnreachable(f, gone) && Trimmed(f, g, gone) && id in g.code
    ensures TargetsExist(g, g.code[id]) && LabelsInPlace(g.code[id]) && Used(g.code[id].operands) <= g.code.Keys
    ensures IsTerminator(g.code[id].op) ==> g.code[id].parent in g.blocks && id in g.blocks[g.code[id].parent]
  {
    assert TrimmedInstr(f.code[id], g.code[id], IdsOfAll(f, gone), gone);
    SameOpcode(f.code[id], g.code[id], IdsOfAll(f, gone), gone);
    assert LabelsInPlace(f.code[id]) && Used(f.code[id].operands) <= f.code.Keys;
    assert g.code.Keys == f.code.Keys - IdsOfAll(f, gone);
    hide Proper, Tidy, AreUnreachable, TrimmedInstr, LabelsInPlace, IdsOfAll, Used;
    TrimmedOperands(f, f.code[id], g.code[id], IdsOfAll(f, gone), gone);
    if IsTerminator(g.code[id].op) {
      ProperIsTidy(f);
      TrimmedTerminator(f, g, gone, id);
    } else {
      TrimmedLabels(f.code[id], g.code[id], IdsOfAll(f, gone), gone);
    }
  }

  lemma ProperIsTidy(f: Function)
    requires Proper(f)
    ensures Tidy(f) && OperandsExist(f) && WellFormed(f) && f.order != []
  {
  }

  lemma TrimmedProper(f: Function, g: Function, gone: set<BlockId>)
    requires Proper(f) && f.order != [] && AreUnreachable(f, gone) && Trimmed(f, g, gone)
    ensures Proper(g)
  {
    ProperIsTidy(f);
    TrimmedOrder(f, g, gone);
    forall id | id in g.code
      ensures TargetsExist(g, g.code[id]) && LabelsInPlace(g.code[id]) && Used(g.code[id].operands) <= g.code.Keys
      ensures IsTerminator(g.code[id].op) ==> g.code[id].parent in g.blocks && id in g.blocks[g.code[id].parent]
    {
      TrimmedCode(f, g, gone, id);
    }
    forall b | b in g.blocks
      ensures b in f.blocks && g.blocks[b] == f.blocks[b]
      ensures forall id | id in g.blocks[b] ::
                id in f.code && id in g.code && g.code[id].op == f.code[id].op && g.code[id].parent == b
      ensures PhisLead(g.blocks[b], g.code)
    {
      TrimmedBlock(f, g, gone, b);
    }
    hide Proper, OperandsExist, AreUnreachable, Trimmed, TargetsExist, LabelsInPlace, Used, PhisLead;
    TidyBlocks(f, g);
    ProperFold(g);
  }

  lemma ProperFold(g: Function)
    requires Tidy(g)
    requires forall id | id in g.code :: Used(g.code[id].operands) <= g.code.Keys
    ensures Proper(g)
  {
    hide Used;
  }

  lemma TidyBlocks(f: Function, g: Function)
    requires Tidy(f)
    requires g.order != [] && (forall b :: b in g.order <==> b in g.blocks)
    requires forall i, j | 0 <= i < j < |g.order| :: g.order[i] != g.order[j]
    requires forall id | id in g.code :: TargetsExist(g, g.code[id]) && LabelsInPlace(g.code[id])
    requires forall id | id in g.code && IsTerminator(g.code[id].op) ::
               g.code[id].parent in g.blocks && id in g.blocks[g.code[id].parent]
    requires forall b | b in g.blocks :: b in f.blocks && g.blocks[b] == f.blocks[b] && PhisLead(g.blocks[b], g.code)
    requires forall b, id | b in g.blocks && id in g.blocks[b] ::
               id in f.code && id in g.code && g.code[id].op == f.code[id].op && g.code[id].parent == b
    ensures Tidy(g)
  {
    hide TargetsExist, LabelsInPlace, PhisLead;
    assert forall b, i | b in g.blocks && 0 <= i < |g.blocks[b]| :: g.blocks[b][i] in g.blocks[b];
  }
}
