/**
 The scheduler opcode by opcode: which instructions it moves, which of them it keeps in order
 and why it has to, and which of two that may go goes first.
 */
module SchedulerExact {
  import opened IR
  import opened Simulation
  import opened Reordering
  import opened InstructionScheduler
  import opened LastInSchedule
  import opened SchedulingRuns

  /** The operations that keep their order among themselves. */
  const MEMORY: set<Opcode> := {
    Load, Loadub, Loadsb, Loaduh, Loadsh, Loaduw, Loadl, Loads, Loadd,
    Store, Storeb, Storeh, Storel, Stores, Stored,
    Call, Syscall, ExternCall, Alloc, Alloc4, Alloc16, VLoad, VStore, VGather, VScatter
  }

  lemma MemoryOpcodes(op: Opcode)
    ensures IsMem(op) <==> op in MEMORY
  {
  }

  /** The operation neither reads nor writes memory. */
  ghost predicate Ignores(m: Machine, op: Opcode) {
    forall ty, args, mem, v, mem' | m.sem(op, ty, args, mem, v, mem') ::
      mem' == mem && forall mem2 :: m.sem(op, ty, args, mem2, v, mem2)
  }

  /** What the theorems on reordering ask of a machine: all but these operations ignore memory. */
  lemma MemoryListedExactly(m: Machine)
    ensures MemoryListed(m) <==> forall op | op !in MEMORY :: Ignores(m, op)
  {
    hide IsMem, MEMORY;
    forall op
      ensures IsMem(op) <==> op in MEMORY
    {
      MemoryOpcodes(op);
    }
    if forall op | op !in MEMORY :: Ignores(m, op) {
      forall op, ty, args, mem, v, mem' | m.sem(op, ty, args, mem, v, mem') && !IsMem(op)
        ensures mem' == mem && forall mem2 :: m.sem(op, ty, args, mem2, v, mem2)
      {
        assert Ignores(m, op);
      }
    }
  }

  /** On such machines scheduled functions do what the originals do, whatever these operations do to memory. */
  lemma SchedulingPreservesListed(m: Machine, f: Function, g: Function, vectors: set<Id>)
    requires WellFormed(f) && AllScheduled(f, g, vectors, f.order)
    requires forall b | b in f.blocks :: Schedulable(f.code, vectors, f.blocks[b])
    requires forall op | op !in MEMORY :: Ignores(m, op)
    ensures Preserves(m, f, g) && Preserves(m, g, f)
  {
    MemoryListedExactly(m);
    SchedulingPreserves(m, f, g, vectors);
  }

  // ----- Edges

  /** Edges lead from definitions to uses, and between any two memory operations. */
  lemma EdgesExactly(dag: Dag, code: map<Id, Instr>, body: seq<Id>, i: nat, j: nat)
    requires (forall id | id in body :: id in code) && IsDagOf(dag, code, body) && j < |body|
    ensures i in dag.preds[j] <==>
              && i < j
              && (|| Inst(body[i]) in code[body[j]].operands
                  || (code[body[i]].op in MEMORY && code[body[j]].op in MEMORY))
  {
    if i < j { DependsMeans(code, body[i], body[j]); }
    hide DependsOn, ValidDag;
  }

  lemma DependsMeans(code: map<Id, Instr>, a: Id, b: Id)
    requires a in code && b in code
    ensures DependsOn(code, a, b) <==>
              Inst(a) in code[b].operands || (code[a].op in MEMORY && code[b].op in MEMORY)
  {
    hide IsMem, MEMORY;
    MemoryOpcodes(code[a].op);
    MemoryOpcodes(code[b].op);
  }

  /** b has what a has, and its memory operations are in the order of a. */
  ghost predicate KeepsMemory(code: map<Id, Instr>, a: seq<Id>, b: seq<Id>) {
    forall i, j, p, q | 0 <= i < j < |a| && 0 <= p < |b| && 0 <= q < |b| && b[p] == a[i] && b[q] == a[j]
      && a[i] in code && a[j] in code && code[a[i]].op in MEMORY && code[a[j]].op in MEMORY :: p < q
  }

  lemma ScheduleKeepsMemory(code: map<Id, Instr>, vectors: set<Id>, body: seq<Id>, out: seq<Id>)
    requires Distinct(body) && IsSchedule(code, vectors, body, out)
    ensures KeepsMemory(code, body, out)
  {
    ScheduleIsOrder(code, vectors, body, out);
    hide DependsOn, IsSchedule, Distinct, MEMORY;
    forall i, j, p, q | 0 <= i < j < |body| && 0 <= p < |out| && 0 <= q < |out|
      && out[p] == body[i] && out[q] == body[j]
      && body[i] in code && body[j] in code && code[body[i]].op in MEMORY && code[body[j]].op in MEMORY
      ensures p < q
    {
      DependsMeans(code, body[i], body[j]);
    }
  }

  // ----- Why memory operations have to keep their order

  function Count(mem: Memory): nat {
    if 0 in mem then mem[0] else 0
  }

  /** Every memory operation reads how many there have been, and counts itself. */
  predicate CountingSem(op: Opcode, ty: nat, args: seq<Word>, mem: Memory, v: Word, mem': Memory) {
    if op in MEMORY then v == Word(64, Count(mem)) && mem' == mem[0 := Count(mem) + 1]
    else v == Word(ty, 0) && mem' == mem
  }

  ghost function Counting(params: seq<Word>): Machine {
    Machine(params, CountingSem)
  }

  lemma CountingListed(params: seq<Word>)
    ensures MemoryListed(Counting(params))
  {
    MemoryListedExactly(Counting(params));
    hide IsMem, MEMORY;
  }

  function MemoryCount(code: map<Id, Instr>, list: seq<Id>): nat {
    if list == [] then 0
    else MemoryCount(code, list[..|list| - 1]) + if Last(list) in code && code[Last(list)].op in MEMORY then 1 else 0
  }

  lemma {:induction false} MemoryCountSplits(code: map<Id, Instr>, a: seq<Id>, b: seq<Id>)
    ensures MemoryCount(code, a + b) == MemoryCount(code, a) + MemoryCount(code, b)
    decreases |b|
  {
    if b == [] {
      assert a + b == a;
    } else {
      hide MEMORY;
      MemoryCountSplits(code, a, b[..|b| - 1]);
      assert (a + b)[..|a + b| - 1] == a + b[..|b| - 1];
    }
  }

  lemma CountBehind(code: map<Id, Instr>, list: seq<Id>, k: nat)
    requires 0 < k <= |list| && list[0] in code
    ensures MemoryCount(code, list[..k])
         == MemoryCount(code, list[1..][..k - 1]) + if code[list[0]].op in MEMORY then 1 else 0
  {
    hide MEMORY;
    assert list[..k] == [list[0]] + list[1..][..k - 1];
    MemoryCountSplits(code, [list[0]], list[1..][..k - 1]);
    assert [list[0]][..0] == [];
  }

  /** The operands of the listed operations are values, whatever has run. */
  ghost predicate AlwaysReady(code: map<Id, Instr>, list: seq<Id>, env: map<Id, Word>, params: seq<Word>) {
    forall id | id in list :: id in code && AllReady(code[id].operands, env, params)
  }

  lemma ReadyStill(operands: seq<Value>, env: map<Id, Word>, params: seq<Word>, id: Id, w: Word)
    requires AllReady(operands, env, params)
    ensures AllReady(operands, env[id := w], params)
  {
  }

  lemma CountsItself(instr: Instr, env: map<Id, Word>, mem: Memory, params: seq<Word>)
    requires AllReady(instr.operands, env, params)
    ensures if instr.op in MEMORY then
              OpRuns(Counting(params), instr, env, mem, Word(64, Count(mem)), mem[0 := Count(mem) + 1])
            else OpRuns(Counting(params), instr, env, mem, Word(instr.ty, 0), mem)
  {
    hide MEMORY;
  }

  /** The list runs, and each memory operation comes to know its place. */
  lemma {:induction false} CountedRun(code: map<Id, Instr>, list: seq<Id>, env: map<Id, Word>, mem: Memory,
                                      params: seq<Word>)
    returns (env': map<Id, Word>, mem': Memory)
    requires Distinct(list) && AlwaysReady(code, list, env, params)
    ensures Runs(Counting(params), code, list, env, mem, env', mem')
    ensures forall id | id !in list :: (id in env <==> id in env') && (id in env ==> env'[id] == env[id])
    ensures forall k | 0 <= k < |list| && code[list[k]].op in MEMORY ::
              list[k] in env' && env'[list[k]] == Word(64, Count(mem) + MemoryCount(code, list[..k]))
    decreases |list|
  {
    if list == [] {
      env', mem' := env, mem;
    } else {
      hide MEMORY, AllReady, Runs, OpRuns, Counting, MemoryCount, Count;
      var id, rest := list[0], list[1..];
      var op := code[id].op;
      var w := if op in MEMORY then Word(64, Count(mem)) else Word(code[id].ty, 0);
      var mid := if op in MEMORY then mem[0 := Count(mem) + 1] else mem;
      CountsItself(code[id], env, mem, params);
      forall x | x in rest
        ensures x in code && AllReady(code[x].operands, env[id := w], params)
      {
        ReadyStill(code[x].operands, env, params, id, w);
      }
      assert id !in rest;
      env', mem' := CountedRun(code, rest, env[id := w], mid, params);
      RunsOne(Counting(params), code, id, rest, env, mem, w, mid, env', mem');
      assert [id] + rest == list;
      forall k | 0 <= k < |list| && code[list[k]].op in MEMORY
        ensures list[k] in env' && env'[list[k]] == Word(64, Count(mem) + MemoryCount(code, list[..k]))
      {
        if k > 0 {
          CountBehind(code, list, k);
          assert rest[k - 1] == list[k];
        }
      }
    }
  }

  lemma RunIsOne(params: seq<Word>, code: map<Id, Instr>, list: seq<Id>, env: map<Id, Word>, mem: Memory,
                 a: map<Id, Word>, am: Memory, b: map<Id, Word>, bm: Memory)
    requires Runs(Counting(params), code, list, env, mem, a, am) && Runs(Counting(params), code, list, env, mem, b, bm)
    ensures a == b && am == bm
    decreases |list|
  {
    if list != [] {
      var v, mid :| OpRuns(Counting(params), code[list[0]], env, mem, v, mid)
                    && Runs(Counting(params), code, list[1..], env[list[0] := v], mid, a, am);
      hide MEMORY, AllReady;
      RunIsOne(params, code, list[1..], env[list[0] := v], mid, a, am, b, bm);
    }
  }

  /**
   An order of the operations has the effect of the original on the counting machine only if
   memory operations keep their order: none of these edges may be left out.
   */
  lemma OrderIsSeen(code: map<Id, Instr>, a: seq<Id>, b: seq<Id>, env: map<Id, Word>, params: seq<Word>)
    requires Distinct(a) && Distinct(b) && (forall id: Id :: id in a <==> id in b)
    requires AlwaysReady(code, a, env, params) && SameRuns(Counting(params), code, a, b)
    ensures KeepsMemory(code, a, b)
  {
    var envA, memA := CountedRun(code, a, env, map[], params);
    var envB, memB := CountedRun(code, b, env, map[], params);
    RunIsOne(params, code, a, env, map[], envA, memA, envB, memB);
    hide Runs, Distinct, MEMORY, SameRuns, AlwaysReady;
    forall i, j, p, q | 0 <= i < j < |a| && 0 <= p < |b| && 0 <= q < |b| && b[p] == a[i] && b[q] == a[j]
      && a[i] in code && a[j] in code && code[a[i]].op in MEMORY && code[a[j]].op in MEMORY
      ensures p < q
    {
      CountsMore(code, a, i, j);
      if q <= p { CountsMore(code, b, q, p); }
    }
  }

  lemma CountsMore(code: map<Id, Instr>, list: seq<Id>, i: nat, j: nat)
    requires i <= j < |list| && list[i] in code && code[list[i]].op in MEMORY
    ensures MemoryCount(code, list[..i]) <= MemoryCount(code, list[..j])
    ensures i < j ==> MemoryCount(code, list[..i]) < MemoryCount(code, list[..j])
  {
    hide MEMORY;
    assert list[..j] == list[..i] + list[i..j];
    MemoryCountSplits(code, list[..i], list[i..j]);
    if i < j {
      assert list[i..j] == [list[i]] + list[i + 1..j];
      MemoryCountSplits(code, [list[i]], list[i + 1..j]);
      assert [list[i]][..0] == [];
    }
  }

  // ----- What is moved

  /** Phis stay in front, and what is none of Br, Jmp and Ret is scheduled. */
  lemma {:induction false} PartsExactly(list: seq<Id>, code: map<Id, Instr>, id: Id)
    requires forall x | x in list :: x in code
    ensures id in Phis(list, code) <==> id in list && code[id].op == Phi
    ensures id in Body(list, code) <==> id in list && code[id].op !in {Phi, Br, Jmp, Ret}
  {
    if list != [] {
      var front, x := list[..|list| - 1], Last(list);
      assert list == front + [x];
      PartsExactly(front, code, id);
      PartsNext(front, x, code);
      EndsExactly(code[x].op);
      hide Phis, Body, Terminator, EndsSchedule;
      assert forall b: seq<Id> :: b + [] == b;
    }
  }

  lemma EndsExactly(op: Opcode)
    ensures EndsSchedule(op) <==> op in {Br, Jmp, Ret}
  {
  }

  /** Of all Br, Jmp and Ret of a block the last one ends what is made of it. */
  lemma {:induction false} TerminatorExactly(list: seq<Id>, code: map<Id, Instr>)
    requires forall x | x in list :: x in code
    ensures Terminator(list, code).None? ==> forall x | x in list :: code[x].op !in {Br, Jmp, Ret}
    ensures Terminator(list, code).Some? ==>
              exists k :: 0 <= k < |list| && Terminator(list, code) == Some(list[k])
                          && code[list[k]].op in {Br, Jmp, Ret}
                          && forall j | k < j < |list| :: code[list[j]].op !in {Br, Jmp, Ret}
  {
    if list != [] {
      var front, x := list[..|list| - 1], Last(list);
      assert list == front + [x];
      TerminatorExactly(front, code);
      PartsNext(front, x, code);
      EndsExactly(code[x].op);
      hide Phis, Body, Terminator, EndsSchedule;
      if Terminator(front, code).Some? && code[x].op !in {Br, Jmp, Ret} {
        var k :| 0 <= k < |front| && Terminator(front, code) == Some(front[k]) && code[front[k]].op in {Br, Jmp, Ret}
                 && forall j | k < j < |front| :: code[front[j]].op !in {Br, Jmp, Ret};
        assert list[k] == front[k];
      }
    }
  }

  // ----- What goes first

  lemma LatencyExactly(op: Opcode)
    ensures Latency(op, true) == 3 && Latency(op, false) in {1, 3, 4, 5}
    ensures Latency(op, false) == 5 <==> op == Call
    ensures Latency(op, false) == 4 <==> op in {Load, FMUL, FDIV}
    ensures Latency(op, false) == 3 <==> op in {Mul, Div, Rem}
  {
  }

  /** The one with the longer way to go, or the longer latency, goes out first once both are ready. */
  lemma {:induction false} HigherFirst(dag: Dag, h: seq<nat>, latency: seq<nat>, order: seq<nat>,
                                       trace: seq<seq<nat>>, k: nat, a: nat, b: nat)
    requires Drained(dag, h, latency, order, trace) && k < |trace| && k <= |order| && b in trace[k]
    requires a in order[..k] || a in trace[k]
    requires At(h, a) > At(h, b) || (At(h, a) == At(h, b) && At(latency, a) > At(latency, b))
    ensures Earlier(order, a, b)
    decreases |order| - k
  {
    hide *;
    PriorityMeans(h, latency, b, a);
    DrainedMeans(dag, h, latency, order, trace);
    ReadyAt(dag, h, latency, order, trace, k);
    if a in order[..k] {
      PlacedEarlier(order, k, a, b);
    } else {
      NotAtEnd(trace[k], b);
      var i := RoundParts(dag, h, latency, order, trace, k);
      var news := Fresh(dag, order[..k + 1], dag.succs[order[k]]);
      BestNotLower(h, latency, trace[k], i, a, b);
      StillReady(trace[k], i, news, b);
      if order[k] == a {
        assert order[..k + 1][k] == a;
      } else {
        StillReady(trace[k], i, news, a);
      }
      HigherFirst(dag, h, latency, order, trace, k + 1, a, b);
    }
  }

  lemma BestNotLower(h: seq<nat>, latency: seq<nat>, ready: seq<nat>, i: nat, a: nat, b: nat)
    requires IsBest(h, latency, ready, i) && a in ready && Lower(h, latency, b, a)
    ensures i < |ready| && ready[i] != b
  {
  }

  /** Nothing in the block depends on the operation, and it depends on nothing. */
  ghost predicate IsFree(code: map<Id, Instr>, body: seq<Id>, i: nat)
    requires (forall id | id in body :: id in code) && i < |body|
  {
    forall j: nat | j < |body| && j != i ::
      && Inst(body[i]) !in code[body[j]].operands && Inst(body[j]) !in code[body[i]].operands
      && !(code[body[i]].op in MEMORY && code[body[j]].op in MEMORY)
  }

  lemma FreeInDag(dag: Dag, code: map<Id, Instr>, body: seq<Id>, i: nat)
    requires (forall id | id in body :: id in code) && IsDagOf(dag, code, body) && i < |body| && IsFree(code, body, i)
    ensures |dag.preds| == |body| == |dag.succs| && dag.preds[i] == [] && dag.succs[i] == []
  {
    hide MEMORY;
    if dag.preds[i] != [] {
      assert dag.preds[i][0] in dag.preds[i];
      EdgesExactly(dag, code, body, dag.preds[i][0], i);
    }
    if dag.succs[i] != [] {
      var j := dag.succs[i][0];
      assert j in dag.succs[i] && i in dag.preds[j];
      EdgesExactly(dag, code, body, i, j);
    }
  }

  lemma FreeHeight(dag: Dag, latency: seq<nat>, h: seq<nat>, i: nat)
    requires AreHeights(dag, latency, h) && i < |dag.succs| && dag.succs[i] == []
    ensures At(h, i) == At(latency, i)
  {
  }

  lemma FreeIsReady(dag: Dag, h: seq<nat>, latency: seq<nat>, order: seq<nat>, trace: seq<seq<nat>>, i: nat)
    requires Drained(dag, h, latency, order, trace) && i < |dag.preds| && dag.preds[i] == []
    ensures |trace| > 0 && trace[0] == Roots(dag, |dag.preds|) && i in trace[0]
  {
    RootsMembers(dag, |dag.preds|);
  }

  /** Of two free operations the one of greater latency is placed first, and of equals the one that was. */
  lemma FreeByLatency(code: map<Id, Instr>, vectors: set<Id>, body: seq<Id>, out: seq<Id>, i: nat, j: nat, p: nat,
                      q: nat)
    requires Distinct(body) && IsSchedule(code, vectors, body, out) && (forall id | id in body :: id in code)
    requires i < j < |body| && IsFree(code, body, i) && IsFree(code, body, j)
    requires p < |out| && q < |out| && out[p] == body[i] && out[q] == body[j]
    ensures p < q <==>
              Latency(code[body[i]].op, body[i] in vectors) >= Latency(code[body[j]].op, body[j] in vectors)
  {
    hide *;
    var dag, h, order, trace := ScheduleMeans(code, vectors, body, out);
    var latency := Latencies(body, code, vectors);
    FreeInDag(dag, code, body, i);
    FreeInDag(dag, code, body, j);
    LatencyAt(body, code, vectors, i);
    LatencyAt(body, code, vectors, j);
    FreeOrder(dag, h, latency, order, trace, i, j);
    DrainedMeans(dag, h, latency, order, trace);
    EarlierPlaces(body, order, i, j, p, q);
    EarlierPlaces(body, order, j, i, q, p);
  }

  lemma FreeOrder(dag: Dag, h: seq<nat>, latency: seq<nat>, order: seq<nat>, trace: seq<seq<nat>>, i: nat, j: nat)
    requires Drained(dag, h, latency, order, trace) && AreHeights(dag, latency, h)
    requires i < j < |dag.preds| == |dag.succs| == |latency|
    requires dag.preds[i] == [] && dag.succs[i] == [] && dag.preds[j] == [] && dag.succs[j] == []
    ensures if latency[i] >= latency[j] then Earlier(order, i, j) else Earlier(order, j, i)
  {
    hide *;
    FreeHeight(dag, latency, h, i);
    FreeHeight(dag, latency, h, j);
    FreeIsReady(dag, h, latency, order, trace, i);
    FreeIsReady(dag, h, latency, order, trace, j);
    PriorityMeans(h, latency, i, j);
    PriorityMeans(h, latency, j, i);
    if latency[i] > latency[j] {
      HigherFirst(dag, h, latency, order, trace, 0, i, j);
    } else if latency[i] < latency[j] {
      HigherFirst(dag, h, latency, order, trace, 0, j, i);
    } else {
      RootsAscending(dag, |dag.preds|);
      EarlierAscending(trace[0], i, j);
      FirstComeFirstOut(dag, h, latency, order, trace, 0, i, j);
    }
  }

  lemma PriorityMeans(h: seq<nat>, latency: seq<nat>, i: nat, j: nat)
    ensures Lower(h, latency, i, j) <==>
              At(h, i) < At(h, j) || (At(h, i) == At(h, j) && At(latency, i) < At(latency, j))
    ensures SamePriority(h, latency, i, j) <==> At(h, i) == At(h, j) && At(latency, i) == At(latency, j)
    ensures i < |latency| ==> At(latency, i) == latency[i]
  {
  }

  lemma ScheduleMeans(code: map<Id, Instr>, vectors: set<Id>, body: seq<Id>, out: seq<Id>)
    returns (dag: Dag, h: seq<nat>, order: seq<nat>, trace: seq<seq<nat>>)
    requires Distinct(body) && IsSchedule(code, vectors, body, out)
    ensures (forall id | id in body :: id in code) && IsDagOf(dag, code, body)
    ensures AreHeights(dag, Latencies(body, code, vectors), h)
    ensures Drained(dag, h, Latencies(body, code, vectors), order, trace)
    ensures out == Named(body, order) && |dag.preds| == |dag.succs| == |body|
  {
    dag, h, order, trace :| ScheduledBy(code, vectors, body, out, dag, h, order, trace);
  }

  lemma EarlierPlaces(body: seq<Id>, order: seq<nat>, i: nat, j: nat, p: nat, q: nat)
    requires Distinct(body) && i < |body| && j < |body| && p < |order| && q < |order|
    requires Named(body, order)[p] == body[i] && Named(body, order)[q] == body[j]
    requires Distinct(order) && forall y: nat :: y in order <==> y < |body|
    ensures Earlier(order, i, j) ==> p < q
  {
    assert order[p] in order && order[q] in order;
    assert order[p] == i && order[q] == j;
  }
}
