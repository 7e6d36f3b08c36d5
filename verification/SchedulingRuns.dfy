/**
 Why a schedule changes nothing: blocks that end in Br, Jmp or Ret, and blocks that end in
 a branch which the scheduler takes for an operation but keeps last.
 */
module SchedulingRuns {
  import opened IR
  import opened Simulation
  import opened Reordering
  import opened BlockReordering
  import opened InstructionScheduler
  import opened LastInSchedule

  /**
   A block that keeps its shape: phis, operations, uses behind definitions, and a Br, Jmp or
   Ret, or another terminator that the scheduler keeps last.
   */
  ghost predicate Schedulable(code: map<Id, Instr>, vectors: set<Id>, list: seq<Id>) {
    Distinct(list) && exists sh :: OrderedShape(code, list, sh) || BranchShape(code, vectors, list, sh)
  }

  /** Each operation but the last has one behind it that depends on it. */
  ghost predicate AllNeeded(code: map<Id, Instr>, list: seq<Id>)
    requires forall id | id in list :: id in code
  {
    forall i: nat | i < |list| - 1 :: exists j: nat :: i < j < |list| && DependsOn(code, list[i], list[j])
  }

  /** What makes the scheduler keep the last operation last, and nothing else does. */
  ghost predicate StaysLast(code: map<Id, Instr>, vectors: set<Id>, body: seq<Id>)
    requires forall id | id in body :: id in code
  {
    forall out | IsSchedule(code, vectors, body, out) :: LooseInTime(code, vectors, body, out)
  }

  /** No operation is loose where all are needed. */
  lemma NeededStays(code: map<Id, Instr>, vectors: set<Id>, body: seq<Id>)
    requires (forall id | id in body :: id in code) && AllNeeded(code, body)
    ensures StaysLast(code, vectors, body)
  {
    hide DependsOn, IsSchedule, InTime;
  }

  /** A block that ends in another terminator, which is no vector instruction. */
  ghost predicate BranchShape(code: map<Id, Instr>, vectors: set<Id>, list: seq<Id>, sh: Shape) {
    && ValidShape(code, sh) && list == Assemble(sh) && sh.term !in vectors
    && !EndsSchedule(code[sh.term].op) && UsesBehind(code, sh.body + [sh.term])
       && StaysLast(code, vectors, sh.body + [sh.term])
  }

  /** An order of the operations that the scheduler may choose. */
  ghost predicate IsOrder(code: map<Id, Instr>, list: seq<Id>, list': seq<Id>)
    requires forall id | id in list :: id in code
  {
    && |list'| == |list| && Distinct(list') && (forall id: Id :: id in list <==> id in list')
    && KeepsOrder(code, list, list')
  }

  lemma NeededBehind(code: map<Id, Instr>, list: seq<Id>, i: nat) returns (j: nat)
    requires (forall id | id in list :: id in code) && AllNeeded(code, list) && i < |list| - 1
    ensures i < j < |list| && DependsOn(code, list[i], list[j])
  {
    hide DependsOn;
    j :| i < j < |list| && DependsOn(code, list[i], list[j]);
  }

  /** What depends on an operation is behind it in every order. */
  lemma StillBehind(code: map<Id, Instr>, list: seq<Id>, list': seq<Id>, i: nat, j: nat, p: nat, q: nat)
    requires (forall id | id in list :: id in code) && IsOrder(code, list, list') && i < j < |list|
    requires DependsOn(code, list[i], list[j])
    requires p < |list'| && q < |list'| && list'[p] == list[i] && list'[q] == list[j]
    ensures p < q
  {
    hide DependsOn;
  }

  lemma OrderMembers(code: map<Id, Instr>, list: seq<Id>, list': seq<Id>)
    requires (forall id | id in list :: id in code) && IsOrder(code, list, list')
    ensures |list'| == |list| && forall id: Id :: id in list <==> id in list'
  {
  }

  /** The last operation stays the last, where all others are needed behind them. */
  lemma LastStays(code: map<Id, Instr>, list: seq<Id>, list': seq<Id>)
    requires list != [] && Distinct(list) && (forall id | id in list :: id in code)
    requires IsOrder(code, list, list') && AllNeeded(code, list)
    ensures Last(list') == Last(list)
  {
    hide IsOrder, AllNeeded, DependsOn;
    OrderMembers(code, list, list');
    var n := |list|;
    assert list'[n - 1] in list';
    var i := PositionIn(list, list'[n - 1]);
    if i < n - 1 {
      var j := NeededBehind(code, list, i);
      assert list[j] in list;
      var q := PositionIn(list', list[j]);
      StillBehind(code, list, list', i, j, n - 1, q);
    }
  }

  /** One operation moved to the end. */
  lemma MovedLast(code: map<Id, Instr>, list: seq<Id>, i: nat)
    requires Distinct(list) && (forall id | id in list :: id in code) && i < |list| - 1
    requires forall j: nat | i < j < |list| :: !DependsOn(code, list[i], list[j])
    ensures IsOrder(code, list, Without(list, i) + [list[i]])
  {
    var rest := Without(list, i);
    var list' := rest + [list[i]];
    WithoutMembers(list, i);
    hide DependsOn;
    forall a, b, p, q | 0 <= a < b < |list| && 0 <= p < |list'| && 0 <= q < |list'|
      && list'[p] == list[a] && list'[q] == list[b] && DependsOn(code, list[a], list[b])
      ensures p < q
    {
      if p < |rest| { WithoutAt(list, i, p); }
      if q < |rest| { WithoutAt(list, i, q); }
    }
  }

  /**
   Every order that keeps dependences keeps the last operation last exactly when all others are
   needed behind them.
   */
  lemma LastStaysExactly(code: map<Id, Instr>, list: seq<Id>)
    requires list != [] && Distinct(list) && forall id | id in list :: id in code
    ensures AllNeeded(code, list) <==> forall list': seq<Id> :: IsOrder(code, list, list') ==> Last(list') == Last(list)
  {
    hide IsOrder, DependsOn;
    if AllNeeded(code, list) {
      forall list': seq<Id> | IsOrder(code, list, list')
        ensures list' != [] && Last(list') == Last(list)
      {
        OrderLength(code, list, list');
        LastStays(code, list, list');
      }
    } else {
      var i: nat :| i < |list| - 1 && forall j: nat :: !(i < j < |list| && DependsOn(code, list[i], list[j]));
      MovedLast(code, list, i);
      assert Last(Without(list, i) + [list[i]]) != Last(list);
    }
  }

  lemma OrderLength(code: map<Id, Instr>, list: seq<Id>, list': seq<Id>)
    requires (forall id | id in list :: id in code) && IsOrder(code, list, list')
    ensures |list'| == |list|
  {
  }

  ghost predicate OrderedShape(code: map<Id, Instr>, list: seq<Id>, sh: Shape) {
    && ValidShape(code, sh) && list == Assemble(sh)
    && EndsSchedule(code[sh.term].op) && UsesBehind(code, sh.body)
  }

  lemma {:induction false} PartsOfPhis(a: seq<Id>, code: map<Id, Instr>)
    requires forall id | id in a :: id in code && code[id].op == Phi
    ensures Phis(a, code) == a && Body(a, code) == [] && Terminator(a, code) == None
  {
    if a != [] {
      hide *;
      var front, x := a[..|a| - 1], a[|a| - 1];
      assert a == front + [x] && x in a;
      PartsOfPhis(front, code);
      PartsNext(front, x, code);
      PhiEndsNothing();
    }
  }

  lemma PlainIsPlain(op: Opcode)
    requires IsPlain(op)
    ensures op != Phi && !EndsSchedule(op)
  {
  }

  lemma {:induction false} PartsBehind(a: seq<Id>, b: seq<Id>, code: map<Id, Instr>)
    requires forall id | id in a :: id in code
    requires forall id | id in b :: id in code && IsPlain(code[id].op)
    ensures forall id | id in a + b :: id in code
    ensures Phis(a + b, code) == Phis(a, code) && Body(a + b, code) == Body(a, code) + b
    ensures Terminator(a + b, code) == Terminator(a, code)
  {
    if b == [] {
      assert a + b == a;
    } else {
      var front, x := b[..|b| - 1], b[|b| - 1];
      assert b == front + [x] && x in b;
      hide *;
      PartsBehind(a, front, code);
      PartsBehindNext(a, front, x, code);
    }
  }

  lemma PartsBehindNext(a: seq<Id>, front: seq<Id>, x: Id, code: map<Id, Instr>)
    requires x in code && IsPlain(code[x].op)
    requires forall id | id in a :: id in code
    requires forall id | id in a + front :: id in code
    requires Phis(a + front, code) == Phis(a, code) && Body(a + front, code) == Body(a, code) + front
    requires Terminator(a + front, code) == Terminator(a, code)
    ensures forall id | id in a + (front + [x]) :: id in code
    ensures Phis(a + (front + [x]), code) == Phis(a, code)
    ensures Body(a + (front + [x]), code) == Body(a, code) + (front + [x])
    ensures Terminator(a + (front + [x]), code) == Terminator(a, code)
  {
    hide *;
    PlainIsPlain(code[x].op);
    PartsNext(a + front, x, code);
    assert a + (front + [x]) == a + front + [x];
    assert Body(a, code) + (front + [x]) == Body(a, code) + front + [x];
  }

  lemma Parts(code: map<Id, Instr>, list: seq<Id>, sh: Shape)
    requires OrderedShape(code, list, sh)
    ensures forall id | id in list :: id in code
    ensures Phis(list, code) == sh.phis && Body(list, code) == sh.body && Terminator(list, code) == Some(sh.term)
  {
    PartsOfPhis(sh.phis, code);
    PartsBehind(sh.phis, sh.body, code);
    var front := sh.phis + sh.body;
    PartsNext(front, sh.term, code);
    assert code[sh.term].op != Phi && list == front + [sh.term];
    hide Phis, Body, Terminator;
    assert [] + sh.body == sh.body;
  }

  lemma ScheduledBlockIsReordered(m: Machine, code: map<Id, Instr>, vectors: set<Id>, list: seq<Id>, out: seq<Id>)
    requires MemoryListed(m) && Schedulable(code, vectors, list)
    requires (forall id | id in list :: id in code) && BlockScheduled(code, vectors, list, out)
    ensures BlockReordered(m, code, list, out)
  {
    var sh :| OrderedShape(code, list, sh) || BranchShape(code, vectors, list, sh);
    hide *;
    SchedulableDistinct(code, vectors, list);
    if |list| <= 2 {
      ShapeFacts(code, vectors, list, sh);
      ShortKept(code, vectors, list, out);
      SameItself(m, code, sh.body);
      AsReordered(m, code, list, sh, sh.body);
    } else if OrderedShape(code, list, sh) {
      ShapeFacts(code, vectors, list, sh);
      Parts(code, list, sh);
      var body' := ScheduleOf(code, vectors, list, out, sh);
      BodyDistinct(list, code);
      ScheduleHasSameEffect(m, code, vectors, sh.body, body');
      AsReordered(m, code, list, sh, body');
    } else {
      BranchReordered(m, code, vectors, list, out, sh);
    }
  }

  lemma SchedulableDistinct(code: map<Id, Instr>, vectors: set<Id>, list: seq<Id>)
    requires Schedulable(code, vectors, list)
    ensures Distinct(list)
  {
  }

  lemma PartsWithBranch(code: map<Id, Instr>, vectors: set<Id>, list: seq<Id>, sh: Shape)
    requires BranchShape(code, vectors, list, sh)
    ensures forall id | id in list :: id in code
    ensures Phis(list, code) == sh.phis && Body(list, code) == sh.body + [sh.term] && Terminator(list, code) == None
  {
    PartsOfPhis(sh.phis, code);
    PartsBehind(sh.phis, sh.body, code);
    var front := sh.phis + sh.body;
    PartsNext(front, sh.term, code);
    assert code[sh.term].op != Phi && list == front + [sh.term];
    hide Phis, Body, Terminator;
    assert [] + sh.body == sh.body;
  }

  /** What is left of a schedule whose last operation stayed. */
  lemma FrontIsOrder(code: map<Id, Instr>, body: seq<Id>, t: Id, out: seq<Id>)
    requires Distinct(body + [t]) && (forall id | id in body + [t] :: id in code)
    requires IsOrder(code, body + [t], out) && out != [] && Last(out) == t
    ensures var rest := out[..|out| - 1];
            && Distinct(body) && (forall id | id in body :: id in code) && IsOrder(code, body, rest)
               && out == rest + [t]
  {
    var all, rest := body + [t], out[..|out| - 1];
    var n := |body|;
    assert forall i | 0 <= i < n :: all[i] == body[i];
    assert all[n] == t;
    forall id: Id
      ensures id in body <==> id in rest
    {
      assert id in all <==> id in out;
      if id in body {
        var i := PositionIn(body, id);
        assert id != t;
        var k := PositionIn(out, id);
        assert k < |rest| && rest[k] == id;
      }
      if id in rest {
        var k := PositionIn(rest, id);
        assert out[k] == id && id != out[|out| - 1];
        var i := PositionIn(all, id);
        assert i < n && body[i] == id;
      }
    }
    hide DependsOn;
    forall i, j, p, q | 0 <= i < j < |body| && 0 <= p < |rest| && 0 <= q < |rest|
      && rest[p] == body[i] && rest[q] == body[j] && DependsOn(code, body[i], body[j])
      ensures p < q
    {
      assert out[p] == all[i] && out[q] == all[j];
    }
  }

  lemma BranchFacts(code: map<Id, Instr>, vectors: set<Id>, list: seq<Id>, sh: Shape)
    requires Distinct(list) && BranchShape(code, vectors, list, sh)
    ensures ValidShape(code, sh) && list == Assemble(sh) && (forall id | id in sh.body + [sh.term] :: id in code)
    ensures UsesBehind(code, sh.body) && StaysLast(code, vectors, sh.body + [sh.term]) && Distinct(sh.body + [sh.term])
    ensures sh.term in code && Latency(code[sh.term].op, sh.term in vectors) == 1
  {
    hide Distinct, UsesBehind, StaysLast;
    assert list == sh.phis + (sh.body + [sh.term]);
    DistinctEnd(sh.phis, sh.body + [sh.term]);
    UsesBehindFront(code, sh.body, sh.term);
  }

  lemma DistinctEnd(a: seq<Id>, b: seq<Id>)
    requires Distinct(a + b)
    ensures Distinct(b)
  {
    assert forall i | 0 <= i < |b| :: b[i] == (a + b)[|a| + i];
  }

  lemma UsesBehindFront(code: map<Id, Instr>, front: seq<Id>, x: Id)
    requires UsesBehind(code, front + [x])
    ensures UsesBehind(code, front) && forall id | id in front + [x] :: id in code
  {
    hide Uses;
    assert forall i | 0 <= i < |front| :: front[i] == (front + [x])[i];
    assert forall id | id in front :: id in front + [x];
  }

  lemma LastOf(front: seq<Id>, x: Id)
    ensures Last(front + [x]) == x
  {
  }

  lemma ScheduleOfBranch(code: map<Id, Instr>, vectors: set<Id>, list: seq<Id>, out: seq<Id>, sh: Shape)
    returns (body': seq<Id>)
    requires (forall id | id in list :: id in code) && BlockScheduled(code, vectors, list, out) && |list| > 2
    requires Phis(list, code) == sh.phis && Body(list, code) == sh.body + [sh.term] && Terminator(list, code) == None
    ensures IsSchedule(code, vectors, sh.body + [sh.term], body') && out == sh.phis + body'
  {
    hide IsSchedule, Phis, Body, Terminator;
    body' :| IsSchedule(code, vectors, Body(list, code), body')
             && out == Phis(list, code) + body' + ListOf(Terminator(list, code));
  }

  lemma OrderIs(code: map<Id, Instr>, list: seq<Id>, list': seq<Id>)
    requires forall id | id in list :: id in code
    ensures IsOrder(code, list, list') <==>
              && |list'| == |list| && Distinct(list') && (forall id: Id :: id in list <==> id in list')
              && KeepsOrder(code, list, list')
  {
  }

  /** A branch that the scheduler keeps last may be scheduled with the operations. */
  lemma BranchReordered(m: Machine, code: map<Id, Instr>, vectors: set<Id>, list: seq<Id>, out: seq<Id>, sh: Shape)
    requires MemoryListed(m) && Distinct(list) && BranchShape(code, vectors, list, sh) && |list| > 2
    requires (forall id | id in list :: id in code) && BlockScheduled(code, vectors, list, out)
    ensures BlockReordered(m, code, list, out)
  {
    hide *;
    BranchFacts(code, vectors, list, sh);
    PartsWithBranch(code, vectors, list, sh);
    var all := sh.body + [sh.term];
    var body' := ScheduleOfBranch(code, vectors, list, out, sh);
    ScheduleIsOrder(code, vectors, all, body');
    OrderIs(code, all, body');
    LastOf(sh.body, sh.term);
    LastStaysWhen(code, vectors, all, body');
    StaysLastMeans(code, vectors, all, body');
    FrontIsOrder(code, sh.body, sh.term, body');
    var rest := body'[..|body'| - 1];
    OrderIs(code, sh.body, rest);
    ReorderingHasSameEffect(m, code, sh.body, rest);
    AsReordered(m, code, list, sh, rest);
    AssembledAgain(sh, rest);
    assert out == sh.phis + (rest + [sh.term]);
    assert sh.phis + (rest + [sh.term]) == sh.phis + rest + [sh.term];
  }

  lemma StaysLastMeans(code: map<Id, Instr>, vectors: set<Id>, body: seq<Id>, out: seq<Id>)
    requires (forall id | id in body :: id in code) && StaysLast(code, vectors, body)
    requires IsSchedule(code, vectors, body, out)
    ensures LooseInTime(code, vectors, body, out)
  {
    hide LooseInTime, IsSchedule;
  }

  lemma AssembledAgain(sh: Shape, body: seq<Id>)
    ensures Assemble(sh.(body := body)) == sh.phis + body + [sh.term]
  {
  }

  lemma ShapeFacts(code: map<Id, Instr>, vectors: set<Id>, list: seq<Id>, sh: Shape)
    requires OrderedShape(code, list, sh) || BranchShape(code, vectors, list, sh)
    ensures ValidShape(code, sh) && list == Assemble(sh)
    ensures OrderedShape(code, list, sh) ==> UsesBehind(code, sh.body)
  {
  }

  lemma ShortKept(code: map<Id, Instr>, vectors: set<Id>, list: seq<Id>, out: seq<Id>)
    requires (forall id | id in list :: id in code) && BlockScheduled(code, vectors, list, out) && |list| <= 2
    ensures out == list
  {
  }

  lemma ScheduleOf(code: map<Id, Instr>, vectors: set<Id>, list: seq<Id>, out: seq<Id>, sh: Shape)
    returns (body': seq<Id>)
    requires (forall id | id in list :: id in code) && BlockScheduled(code, vectors, list, out) && |list| > 2
    requires Phis(list, code) == sh.phis && Body(list, code) == sh.body && Terminator(list, code) == Some(sh.term)
    ensures IsSchedule(code, vectors, sh.body, body') && out == Assemble(sh.(body := body'))
  {
    hide IsSchedule, Phis, Body, Terminator;
    body' :| IsSchedule(code, vectors, Body(list, code), body')
             && out == Phis(list, code) + body' + ListOf(Terminator(list, code));
  }

  lemma AsReordered(m: Machine, code: map<Id, Instr>, list: seq<Id>, sh: Shape, body': seq<Id>)
    requires ValidShape(code, sh) && list == Assemble(sh) && SameEffect(m, code, sh.body, body')
    requires |body'| == |sh.body| && forall id: Id :: id in sh.body <==> id in body'
    ensures BlockReordered(m, code, list, Assemble(sh.(body := body')))
  {
    hide SameEffect, Assemble;
    assert SameBlock(m, code, list, Assemble(sh.(body := body')), sh, sh.(body := body'));
  }

  lemma ScheduledIsReordered(m: Machine, f: Function, g: Function, vectors: set<Id>)
    requires WellFormed(f) && MemoryListed(m) && AllScheduled(f, g, vectors, f.order)
    requires forall b | b in f.blocks :: Schedulable(f.code, vectors, f.blocks[b])
    ensures Reordered(m, f, g)
  {
    hide Schedulable, MemoryListed, BlockScheduled, BlockReordered;
    assert forall b | b in f.blocks :: b in f.order;
    forall b | b in f.blocks
      ensures b in g.blocks && BlockReordered(m, f.code, f.blocks[b], g.blocks[b])
    {
      ScheduledBlockIsReordered(m, f.code, vectors, f.blocks[b], g.blocks[b]);
    }
  }

  /**
   No caller can tell a function from its schedule: each returns what the other does, and gets stuck
   where the other does.
   */
  lemma SchedulingPreserves(m: Machine, f: Function, g: Function, vectors: set<Id>)
    requires WellFormed(f) && MemoryListed(m) && AllScheduled(f, g, vectors, f.order)
    requires forall b | b in f.blocks :: Schedulable(f.code, vectors, f.blocks[b])
    ensures Preserves(m, f, g) && Preserves(m, g, f)
  {
    hide Schedulable, MemoryListed, AllScheduled, Reordered, WellFormed, Preserves;
    ScheduledIsReordered(m, f, g, vectors);
    ReorderingPreserves(m, f, g);
  }
}
