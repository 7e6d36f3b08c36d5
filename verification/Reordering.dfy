/**
 Straight-line code may be reordered as long as no instruction overtakes one it
 depends on: first for a list of operations, then for the blocks of a function and
 all its runs.
 */
module Reordering {
  import opened IR

  /** What the scheduler takes to read or write memory. */
  predicate IsMem(op: Opcode) {
    || op.Load? || op.Loadub? || op.Loadsb? || op.Loaduh? || op.Loadsh? || op.Loaduw? || op.Loadl?
    || op.Loads? || op.Loadd?
    || op.Store? || op.Storeb? || op.Storeh? || op.Storel? || op.Stores? || op.Stored?
    || op.Call? || op.Syscall? || op.ExternCall?
    || op.Alloc? || op.Alloc4? || op.Alloc16?
    || op.VLoad? || op.VStore? || op.VGather? || op.VScatter?
  }

  /** Whatever is not listed neither reads nor writes memory. */
  ghost predicate MemoryListed(m: Machine) {
    forall op, ty, args, mem, v, mem' | m.sem(op, ty, args, mem, v, mem') && !IsMem(op) ::
      mem' == mem && forall mem2 :: m.sem(op, ty, args, mem2, v, mem2)
  }

  predicate IsPlain(op: Opcode) {
    op != Phi && !IsTerminator(op)
  }

  predicate Uses(instr: Instr, id: Id) {
    Inst(id) in instr.operands
  }

  /** b needs a to have run: it uses its result, or both touch memory. */
  predicate DependsOn(code: map<Id, Instr>, a: Id, b: Id)
    requires a in code && b in code
  {
    Uses(code[b], a) || (IsMem(code[a].op) && IsMem(code[b].op))
  }

  // ----- Lists of operations

  ghost predicate OpRuns(m: Machine, instr: Instr, env: map<Id, Word>, mem: Memory, v: Word, mem': Memory) {
    AllReady(instr.operands, env, m.params)
       && m.sem(instr.op, instr.ty, FetchAll(instr.operands, env, m.params), mem, v, mem')
  }

  /** The listed operations take (env, mem) to (env', mem'). */
  ghost predicate Runs(m: Machine, code: map<Id, Instr>, list: seq<Id>, env: map<Id, Word>, mem: Memory,
                       env': map<Id, Word>, mem': Memory)
  {
    if list == [] then env' == env && mem' == mem
    else
      list[0] in code && exists v: Word, mid: Memory ::
        OpRuns(m, code[list[0]], env, mem, v, mid) && Runs(m, code, list[1..], env[list[0] := v], mid, env', mem')
  }

  /** The operation cannot run. */
  ghost predicate NoResult(m: Machine, instr: Instr, env: map<Id, Word>, mem: Memory) {
    forall v: Word, mem': Memory :: !OpRuns(m, instr, env, mem, v, mem')
  }

  /** The listed operations, begun in (env, mem), may come to one that cannot run. */
  ghost predicate StuckIn(m: Machine, code: map<Id, Instr>, list: seq<Id>, env: map<Id, Word>, mem: Memory) {
    && list != [] && list[0] in code
    && (|| NoResult(m, code[list[0]], env, mem)
        || exists v: Word, mid: Memory ::
             OpRuns(m, code[list[0]], env, mem, v, mid) && StuckIn(m, code, list[1..], env[list[0] := v], mid))
  }

  ghost predicate SameRuns(m: Machine, code: map<Id, Instr>, a: seq<Id>, b: seq<Id>) {
    forall env: map<Id, Word>, mem: Memory, env': map<Id, Word>, mem': Memory ::
      Runs(m, code, a, env, mem, env', mem') <==> Runs(m, code, b, env, mem, env', mem')
  }

  ghost predicate SameStuck(m: Machine, code: map<Id, Instr>, a: seq<Id>, b: seq<Id>) {
    forall env: map<Id, Word>, mem: Memory :: StuckIn(m, code, a, env, mem) <==> StuckIn(m, code, b, env, mem)
  }

  /** The same results from every state, and stuck from the same states. */
  ghost predicate SameEffect(m: Machine, code: map<Id, Instr>, a: seq<Id>, b: seq<Id>) {
    SameRuns(m, code, a, b) && SameStuck(m, code, a, b)
  }

  lemma UnusedResult(m: Machine, instr: Instr, id: Id, env: map<Id, Word>, w: Word)
    requires !Uses(instr, id)
    ensures AllReady(instr.operands, env[id := w], m.params) == AllReady(instr.operands, env, m.params)
    ensures FetchAll(instr.operands, env[id := w], m.params) == FetchAll(instr.operands, env, m.params)
  {
    forall i | 0 <= i < |instr.operands|
      ensures Ready(instr.operands[i], env[id := w], m.params) == Ready(instr.operands[i], env, m.params)
      ensures Fetch(instr.operands[i], env[id := w], m.params) == Fetch(instr.operands[i], env, m.params)
    {
      assert instr.operands[i] in instr.operands;
    }
  }

  lemma UnusedRuns(m: Machine, instr: Instr, id: Id, env: map<Id, Word>, w: Word, mem: Memory, v: Word, mem': Memory)
    requires !Uses(instr, id)
    ensures OpRuns(m, instr, env[id := w], mem, v, mem') <==> OpRuns(m, instr, env, mem, v, mem')
  {
    UnusedResult(m, instr, id, env, w);
  }

  lemma QuietOp(m: Machine, instr: Instr, env: map<Id, Word>, mem: Memory, v: Word, mem': Memory, mem2: Memory)
    requires MemoryListed(m) && !IsMem(instr.op) && OpRuns(m, instr, env, mem, v, mem')
    ensures mem' == mem && OpRuns(m, instr, env, mem2, v, mem2)
  {
  }

  /** Neither uses the other's result and at most one touches memory. */
  ghost predicate Independent(code: map<Id, Instr>, a: Id, b: Id) {
    && a in code && b in code && a != b
    && !Uses(code[a], b) && !Uses(code[b], a)
    && !(IsMem(code[a].op) && IsMem(code[b].op))
  }

  lemma RunsOne(m: Machine, code: map<Id, Instr>, a: Id, list: seq<Id>, env: map<Id, Word>, mem: Memory,
                v: Word, mid: Memory, env': map<Id, Word>, mem': Memory)
    requires a in code && OpRuns(m, code[a], env, mem, v, mid) && Runs(m, code, list, env[a := v], mid, env', mem')
    ensures Runs(m, code, [a] + list, env, mem, env', mem')
  {
    assert ([a] + list)[1..] == list;
  }

  lemma FirstOf(m: Machine, code: map<Id, Instr>, a: Id, list: seq<Id>, env: map<Id, Word>, mem: Memory,
                env': map<Id, Word>, mem': Memory) returns (v: Word, mid: Memory)
    requires Runs(m, code, [a] + list, env, mem, env', mem')
    ensures a in code && OpRuns(m, code[a], env, mem, v, mid) && Runs(m, code, list, env[a := v], mid, env', mem')
  {
    var all := [a] + list;
    assert all[0] == a && all[1..] == list;
    v, mid :| OpRuns(m, code[all[0]], env, mem, v, mid) && Runs(m, code, all[1..], env[all[0] := v], mid, env', mem');
  }

  /** Two operations that are independent run in either order. */
  lemma SwapFirst(m: Machine, code: map<Id, Instr>, a: Id, b: Id, list: seq<Id>, env: map<Id, Word>, mem: Memory,
                  env': map<Id, Word>, mem': Memory)
    requires MemoryListed(m) && Independent(code, a, b)
    requires Runs(m, code, [a] + ([b] + list), env, mem, env', mem')
    ensures Runs(m, code, [b] + ([a] + list), env, mem, env', mem')
  {
    var va, ma := FirstOf(m, code, a, [b] + list, env, mem, env', mem');
    var vb, mb := FirstOf(m, code, b, list, env[a := va], ma, env', mem');
    UnusedRuns(m, code[b], a, env, va, ma, vb, mb);
    assert env[a := va][b := vb] == env[b := vb][a := va];
    hide Runs, MemoryListed, OpRuns;
    if !IsMem(code[a].op) {
      QuietOp(m, code[a], env, mem, va, ma, mb);
      UnusedRuns(m, code[a], b, env, vb, mb, va, mb);
      RunsOne(m, code, a, list, env[b := vb], mb, va, mb, env', mem');
      RunsOne(m, code, b, [a] + list, env, mem, vb, mb, env', mem');
    } else {
      QuietOp(m, code[b], env, ma, vb, mb, mem);
      UnusedRuns(m, code[a], b, env, vb, mem, va, ma);
      RunsOne(m, code, a, list, env[b := vb], mem, va, ma, env', mem');
      RunsOne(m, code, b, [a] + list, env, mem, vb, mem, env', mem');
    }
  }

  lemma SwapSame(m: Machine, code: map<Id, Instr>, a: Id, b: Id, list: seq<Id>)
    requires MemoryListed(m) && Independent(code, a, b)
    ensures SameRuns(m, code, [a] + ([b] + list), [b] + ([a] + list))
  {
    hide Runs, MemoryListed;
    forall env: map<Id, Word>, mem: Memory, env': map<Id, Word>, mem': Memory
      ensures Runs(m, code, [a] + ([b] + list), env, mem, env', mem')
         <==> Runs(m, code, [b] + ([a] + list), env, mem, env', mem')
    {
      if Runs(m, code, [a] + ([b] + list), env, mem, env', mem') {
        SwapFirst(m, code, a, b, list, env, mem, env', mem');
      }
      if Runs(m, code, [b] + ([a] + list), env, mem, env', mem') {
        SwapFirst(m, code, b, a, list, env, mem, env', mem');
      }
    }
  }

  lemma SameAfter(m: Machine, code: map<Id, Instr>, x: Id, a: seq<Id>, b: seq<Id>)
    requires SameEffect(m, code, a, b)
    ensures SameEffect(m, code, [x] + a, [x] + b)
  {
    hide Runs, StuckIn;
    SameRunsAfter(m, code, x, a, b);
    forall env: map<Id, Word>, mem: Memory
      ensures StuckIn(m, code, [x] + a, env, mem) <==> StuckIn(m, code, [x] + b, env, mem)
    {
      if StuckIn(m, code, [x] + a, env, mem) { StuckAfter(m, code, x, a, b, env, mem); }
      if StuckIn(m, code, [x] + b, env, mem) { StuckAfter(m, code, x, b, a, env, mem); }
    }
  }

  lemma StuckOne(m: Machine, code: map<Id, Instr>, x: Id, list: seq<Id>, env: map<Id, Word>, mem: Memory)
    ensures StuckIn(m, code, [x] + list, env, mem) <==>
              && x in code
              && (|| NoResult(m, code[x], env, mem)
                  || exists v: Word, mid: Memory ::
                       OpRuns(m, code[x], env, mem, v, mid) && StuckIn(m, code, list, env[x := v], mid))
  {
    assert ([x] + list)[1..] == list;
  }

  lemma StuckAfter(m: Machine, code: map<Id, Instr>, x: Id, a: seq<Id>, b: seq<Id>, env: map<Id, Word>, mem: Memory)
    requires SameStuck(m, code, a, b) && StuckIn(m, code, [x] + a, env, mem)
    ensures StuckIn(m, code, [x] + b, env, mem)
  {
    hide StuckIn, NoResult, OpRuns;
    StuckOne(m, code, x, a, env, mem);
    StuckOne(m, code, x, b, env, mem);
  }

  /** Whether an operation can run does not depend on one that is independent of it. */
  lemma NoResultKept(m: Machine, code: map<Id, Instr>, a: Id, b: Id, env: map<Id, Word>, mem: Memory, va: Word,
                     ma: Memory)
    requires MemoryListed(m) && Independent(code, a, b) && OpRuns(m, code[a], env, mem, va, ma)
    ensures NoResult(m, code[b], env[a := va], ma) <==> NoResult(m, code[b], env, mem)
  {
    hide OpRuns, NoResult, MemoryListed;
    if !NoResult(m, code[b], env, mem) {
      var v, mem' := SomeResult(m, code[b], env, mem);
      if IsMem(code[b].op) {
        QuietOp(m, code[a], env, mem, va, ma, mem);
      } else {
        QuietOp(m, code[b], env, mem, v, mem', ma);
        mem' := ma;
      }
      UnusedRuns(m, code[b], a, env, va, ma, v, mem');
      HasSomeResult(m, code[b], env[a := va], ma, v, mem');
    }
    if !NoResult(m, code[b], env[a := va], ma) {
      var v, mem' := SomeResult(m, code[b], env[a := va], ma);
      UnusedRuns(m, code[b], a, env, va, ma, v, mem');
      if IsMem(code[b].op) {
        QuietOp(m, code[a], env, mem, va, ma, mem);
      } else {
        QuietOp(m, code[b], env, ma, v, mem', mem);
        mem' := mem;
      }
      HasSomeResult(m, code[b], env, mem, v, mem');
    }
  }

  lemma HasSomeResult(m: Machine, instr: Instr, env: map<Id, Word>, mem: Memory, v: Word, mem': Memory)
    requires OpRuns(m, instr, env, mem, v, mem')
    ensures !NoResult(m, instr, env, mem)
  {
    hide OpRuns;
  }

  /** The two results, in the other order. */
  lemma SwapBoth(m: Machine, code: map<Id, Instr>, a: Id, b: Id, env: map<Id, Word>, mem: Memory, va: Word, ma: Memory,
                 vb: Word, mb: Memory)
    returns (ma': Memory)
    requires MemoryListed(m) && Independent(code, a, b)
    requires OpRuns(m, code[a], env, mem, va, ma) && OpRuns(m, code[b], env[a := va], ma, vb, mb)
    ensures OpRuns(m, code[b], env, mem, vb, ma') && OpRuns(m, code[a], env[b := vb], ma', va, mb)
    ensures env[a := va][b := vb] == env[b := vb][a := va]
  {
    hide OpRuns, MemoryListed;
    UnusedRuns(m, code[b], a, env, va, ma, vb, mb);
    if !IsMem(code[a].op) {
      QuietOp(m, code[a], env, mem, va, ma, mb);
      UnusedRuns(m, code[a], b, env, vb, mb, va, mb);
      ma' := mb;
    } else {
      QuietOp(m, code[b], env, ma, vb, mb, mem);
      UnusedRuns(m, code[a], b, env, vb, mem, va, ma);
      ma' := mem;
    }
  }

  lemma StuckSwap(m: Machine, code: map<Id, Instr>, a: Id, b: Id, list: seq<Id>, env: map<Id, Word>, mem: Memory)
    requires MemoryListed(m) && Independent(code, a, b)
    requires StuckIn(m, code, [a] + ([b] + list), env, mem)
    ensures StuckIn(m, code, [b] + ([a] + list), env, mem)
  {
    hide StuckIn, NoResult, OpRuns, MemoryListed;
    StuckOne(m, code, a, [b] + list, env, mem);
    StuckOne(m, code, b, [a] + list, env, mem);
    if !NoResult(m, code[b], env, mem) {
      if NoResult(m, code[a], env, mem) {
        var vb, mb := SomeResult(m, code[b], env, mem);
        NoResultKept(m, code, b, a, env, mem, vb, mb);
        StuckOne(m, code, a, list, env[b := vb], mb);
      } else {
        var va: Word, ma: Memory :| OpRuns(m, code[a], env, mem, va, ma)
           && StuckIn(m, code, [b] + list, env[a := va], ma);
        StuckOne(m, code, b, list, env[a := va], ma);
        NoResultKept(m, code, a, b, env, mem, va, ma);
        var vb: Word, mb: Memory :| OpRuns(m, code[b], env[a := va], ma, vb, mb)
           && StuckIn(m, code, list, env[a := va][b := vb], mb);
        var ma' := SwapBoth(m, code, a, b, env, mem, va, ma, vb, mb);
        StuckOne(m, code, a, list, env[b := vb], ma');
      }
    }
  }

  lemma SomeResult(m: Machine, instr: Instr, env: map<Id, Word>, mem: Memory) returns (v: Word, mem': Memory)
    requires !NoResult(m, instr, env, mem)
    ensures OpRuns(m, instr, env, mem, v, mem')
  {
    v, mem' :| OpRuns(m, instr, env, mem, v, mem');
  }

  lemma SwapSameEffect(m: Machine, code: map<Id, Instr>, a: Id, b: Id, list: seq<Id>)
    requires MemoryListed(m) && Independent(code, a, b)
    ensures SameEffect(m, code, [a] + ([b] + list), [b] + ([a] + list))
  {
    hide Runs, StuckIn, MemoryListed;
    SwapSame(m, code, a, b, list);
    forall env: map<Id, Word>, mem: Memory
      ensures StuckIn(m, code, [a] + ([b] + list), env, mem) <==> StuckIn(m, code, [b] + ([a] + list), env, mem)
    {
      if StuckIn(m, code, [a] + ([b] + list), env, mem) { StuckSwap(m, code, a, b, list, env, mem); }
      if StuckIn(m, code, [b] + ([a] + list), env, mem) { StuckSwap(m, code, b, a, list, env, mem); }
    }
  }

  lemma SameRunsAfter(m: Machine, code: map<Id, Instr>, x: Id, a: seq<Id>, b: seq<Id>)
    requires SameRuns(m, code, a, b)
    ensures SameRuns(m, code, [x] + a, [x] + b)
  {
    hide Runs;
    forall env: map<Id, Word>, mem: Memory, env': map<Id, Word>, mem': Memory
      ensures Runs(m, code, [x] + a, env, mem, env', mem') <==> Runs(m, code, [x] + b, env, mem, env', mem')
    {
      if Runs(m, code, [x] + a, env, mem, env', mem') {
        var v, mid := FirstOf(m, code, x, a, env, mem, env', mem');
        RunsOne(m, code, x, b, env, mem, v, mid, env', mem');
      }
      if Runs(m, code, [x] + b, env, mem, env', mem') {
        var v, mid := FirstOf(m, code, x, b, env, mem, env', mem');
        RunsOne(m, code, x, a, env, mem, v, mid, env', mem');
      }
    }
  }

  lemma SameTransitive(m: Machine, code: map<Id, Instr>, a: seq<Id>, b: seq<Id>, c: seq<Id>)
    requires SameEffect(m, code, a, b) && SameEffect(m, code, b, c)
    ensures SameEffect(m, code, a, c)
  {
    hide Runs, StuckIn;
  }

  /** An operation moves to the front past operations independent of it. */
  lemma {:induction false} MoveToFront(m: Machine, code: map<Id, Instr>, before: seq<Id>, x: Id, after: seq<Id>)
    requires MemoryListed(m) && forall a | a in before :: Independent(code, a, x)
    ensures SameEffect(m, code, before + ([x] + after), [x] + (before + after))
    decreases |before|
  {
    hide Runs, StuckIn, MemoryListed;
    if before == [] {
      assert before + ([x] + after) == [x] + (before + after);
    } else {
      var a, rest := before[0], before[1..];
      assert before == [a] + rest;
      assert a in before;
      MoveToFront(m, code, rest, x, after);
      SameAfter(m, code, a, rest + ([x] + after), [x] + (rest + after));
      SwapSameEffect(m, code, a, x, rest + after);
      hide SameEffect;
      SameTransitive(m, code, [a] + (rest + ([x] + after)), [a] + ([x] + (rest + after)), [x] + ([a] + (rest + after)));
      assert [a] + (rest + ([x] + after)) == before + ([x] + after);
      assert [a] + (rest + after) == before + after;
    }
  }

  // ----- Reorderings

  ghost predicate Distinct(list: seq<Id>) {
    forall i, j | 0 <= i < j < |list| :: list[i] != list[j]
  }

  /** Results are used only behind the operations that give them. */
  ghost predicate UsesBehind(code: map<Id, Instr>, list: seq<Id>) {
    && (forall id | id in list :: id in code)
    && forall i, j | 0 <= i <= j < |list| :: !Uses(code[list[i]], list[j])
  }

  /** No operation stands before one that it depends on and that it used to follow. */
  ghost predicate KeepsOrder(code: map<Id, Instr>, list: seq<Id>, list': seq<Id>)
    requires forall id | id in list :: id in code
  {
    forall i, j, p, q | 0 <= i < j < |list| && 0 <= p < |list'| && 0 <= q < |list'|
      && list'[p] == list[i] && list'[q] == list[j] && DependsOn(code, list[i], list[j]) :: p < q
  }

  lemma {:induction false} PositionIn(list: seq<Id>, x: Id) returns (i: nat)
    requires x in list
    ensures i < |list| && list[i] == x
  {
    i :| 0 <= i < |list| && list[i] == x;
  }

  function Without(list: seq<Id>, i: nat): seq<Id>
    requires i < |list|
  {
    list[..i] + list[i + 1..]
  }

  /** The k-th element of a list with one taken out. */
  lemma WithoutAt(list: seq<Id>, i: nat, k: nat)
    requires i < |list| && k < |list| - 1
    ensures Without(list, i)[k] == list[if k < i then k else k + 1]
  {
  }

  lemma WithoutMembers(list: seq<Id>, i: nat)
    requires i < |list| && Distinct(list)
    ensures Distinct(Without(list, i))
    ensures forall x: Id :: x in Without(list, i) <==> x in list && x != list[i]
  {
    var rest := Without(list, i);
    forall x: Id | x in list && x != list[i]
      ensures x in rest
    {
      var k := PositionIn(list, x);
      if k < i { assert rest[k] == x; } else { assert rest[k - 1] == x; }
    }
  }

  lemma RestKeeps(code: map<Id, Instr>, list: seq<Id>, list': seq<Id>, i: nat)
    requires Distinct(list) && UsesBehind(code, list) && KeepsOrder(code, list, list')
    requires list' != [] && i < |list|
    ensures UsesBehind(code, Without(list, i)) && KeepsOrder(code, Without(list, i), list'[1..])
  {
    WithoutMembers(list, i);
    var rest := Without(list, i);
    hide Uses, DependsOn;
    forall a, b | 0 <= a <= b < |rest|
      ensures !Uses(code[rest[a]], rest[b])
    {
      WithoutAt(list, i, a);
      WithoutAt(list, i, b);
    }
    forall a, b, p, q | 0 <= a < b < |rest| && 0 <= p < |list'| - 1 && 0 <= q < |list'| - 1
      && list'[1..][p] == rest[a] && list'[1..][q] == rest[b] && DependsOn(code, rest[a], rest[b])
      ensures p < q
    {
      WithoutAt(list, i, a);
      WithoutAt(list, i, b);
      assert list'[p + 1] == rest[a] && list'[q + 1] == rest[b];
    }
  }

  /** What stands before the first of the new order is independent of it. */
  lemma FirstIsFree(code: map<Id, Instr>, list: seq<Id>, list': seq<Id>, i: nat, k: nat)
    requires Distinct(list) && UsesBehind(code, list) && KeepsOrder(code, list, list')
    requires list' != [] && i < |list| && list[i] == list'[0] && k < i && list[k] in list'
    ensures Independent(code, list[k], list[i])
  {
    var p := PositionIn(list', list[k]);
    assert !DependsOn(code, list[k], list[i]);
  }

  lemma SameItself(m: Machine, code: map<Id, Instr>, list: seq<Id>)
    ensures SameEffect(m, code, list, list)
  {
    hide Runs, StuckIn;
  }

  lemma WithoutIs(list: seq<Id>, i: nat)
    requires i < |list|
    ensures |Without(list, i)| == |list| - 1
  {
  }

  /** An operation that all before it are independent of, moved to the front. */
  lemma FrontMoved(m: Machine, code: map<Id, Instr>, list: seq<Id>, i: nat)
    requires MemoryListed(m) && i < |list| && forall k: nat | k < i :: Independent(code, list[k], list[i])
    ensures SameEffect(m, code, list, [list[i]] + Without(list, i))
  {
    hide SameEffect, Independent, MemoryListed;
    assert list == list[..i] + ([list[i]] + list[i + 1..]);
    MoveToFront(m, code, list[..i], list[i], list[i + 1..]);
  }

  /** The first of the new order, moved to the front of the old one. */
  lemma FirstMoved(m: Machine, code: map<Id, Instr>, list: seq<Id>, list': seq<Id>, i: nat)
    requires MemoryListed(m) && Distinct(list) && UsesBehind(code, list) && KeepsOrder(code, list, list')
    requires (forall id :: id in list <==> id in list') && list' != [] && i < |list| && list[i] == list'[0]
    ensures SameEffect(m, code, list, [list[i]] + Without(list, i))
  {
    hide MemoryListed, Distinct, UsesBehind, KeepsOrder, SameEffect, Independent;
    forall k: nat | k < i
      ensures Independent(code, list[k], list[i])
    {
      assert list[k] in list;
      FirstIsFree(code, list, list', i, k);
    }
    FrontMoved(m, code, list, i);
  }

  lemma HeadAndTail(list: seq<Id>)
    requires list != []
    ensures list == [list[0]] + list[1..] && Without(list, 0) == list[1..] && |list[1..]| == |list| - 1
  {
  }

  /** A permutation that keeps the order of whatever depends has the same effect. */
  lemma {:induction false} ReorderingHasSameEffect(m: Machine, code: map<Id, Instr>, list: seq<Id>, list': seq<Id>)
    requires MemoryListed(m) && Distinct(list) && Distinct(list') && |list| == |list'|
    requires forall id :: id in list <==> id in list'
    requires UsesBehind(code, list) && KeepsOrder(code, list, list')
    ensures SameEffect(m, code, list, list')
    decreases |list|
  {
    hide *;
    if list == [] {
      assert list == list';
      SameItself(m, code, list);
    } else {
      var i := PositionIn(list, list'[0]);
      var rest := Without(list, i);
      WithoutIs(list, i);
      HeadAndTail(list');
      WithoutMembers(list, i);
      WithoutMembers(list', 0);
      RestKeeps(code, list, list', i);
      ReorderingHasSameEffect(m, code, rest, list'[1..]);
      FirstMoved(m, code, list, list', i);
      SameAfter(m, code, list[i], rest, list'[1..]);
      SameTransitive(m, code, list, [list[i]] + rest, list');
    }
  }
}
