/**
 When removing dead stores preserves all runs: where the store that follows is at least as
 wide and nothing between the two touches memory.
 */
module DeadStoreRuns {
  import opened IR
  import opened Simulation
  import opened Erasure
  import opened DeadCode
  import opened DeadStores
  import opened Reordering

  /** Stores of consecutive bytes. */
  predicate KnownWidth(op: Opcode) {
    op == Store || op == Stored || op == Stores || op == Storel || op == Storeh || op == Storeb || op == VStore
  }

  /** The bytes a store writes: by its opcode, or by the type, in bits, of the value it stores. */
  function StoreWidth(op: Opcode, ty: nat): nat {
    if op == Storeb then 1
    else if op == Storeh then 2
    else if op == Stores then 4
    else if op == Storel || op == Stored then 8
    else ty / 8
  }

  predicate AtLeastAsWide(next: Instr, store: Instr) {
    StoreWidth(next.op, next.ty) >= StoreWidth(store.op, store.ty)
  }

  /** After a store, one at least as wide to the same address acts as if the first had not been. */
  ghost predicate LastStoreWins(m: Machine) {
    forall op: Opcode, ty: nat, v: Word, p: Word, mem: Memory, w: Word, mem': Memory
        | KnownWidth(op) && m.sem(op, ty, [v, p], mem, w, mem') ::
      forall op': Opcode, ty': nat, v': Word, w': Word, mem'': Memory
        | KnownWidth(op') && StoreWidth(op', ty') >= StoreWidth(op, ty) ::
        m.sem(op', ty', [v', p], mem', w', mem'') <==> m.sem(op', ty', [v', p], mem, w', mem'')
  }

  lemma Wins(m: Machine, op: Opcode, ty: nat, v: Word, p: Word, mem: Memory, w: Word, mem': Memory,
             op': Opcode, ty': nat, v': Word, w': Word, mem'': Memory)
    requires LastStoreWins(m) && KnownWidth(op) && KnownWidth(op') && StoreWidth(op', ty') >= StoreWidth(op, ty)
    requires m.sem(op, ty, [v, p], mem, w, mem')
    ensures m.sem(op', ty', [v', p], mem', w', mem'') <==> m.sem(op', ty', [v', p], mem, w', mem'')
  {
  }

  /** The instruction neither is the pointer nor touches memory. */
  predicate PassesBy(instr: Instr, id: Id, ptr: Value) {
    IsPlain(instr.op) && !IsMem(instr.op) && ptr != Inst(id)
  }

  /** Store j takes the place of store k: at least as wide, same pointer, and only bystanders between. */
  ghost predicate Supersedes(list: seq<Id>, code: map<Id, Instr>, k: nat, j: nat) {
    && k < j < |list| && list[k] in code && list[j] in code
    && KnownWidth(code[list[k]].op) && KnownWidth(code[list[j]].op) && AtLeastAsWide(code[list[j]], code[list[k]])
    && |code[list[k]].operands| == 2 && |code[list[j]].operands| == 2
    && code[list[j]].operands[1] == code[list[k]].operands[1]
    && code[list[k]].operands[1] != Inst(list[k])
    && forall i | k < i < j :: list[i] in code && PassesBy(code[list[i]], list[i], code[list[k]].operands[1])
  }

  /** Every store the scan removes is superseded in this sense. */
  ghost predicate StoresSuperseded(f: Function)
    requires WellFormed(f)
  {
    forall b, k: nat | b in f.blocks && IsDeadStore(f.blocks[b], f.code, k) ::
        exists j: nat :: Supersedes(f.blocks[b], f.code, k, j)
  }

  /** Stores have no results to use. */
  ghost predicate StoresUnused(f: Function) {
    forall id, v | id in f.code && v in f.code[id].operands && v.Inst? && v.id in f.code :: !IsStore(f.code[v.id].op)
  }

  lemma StorePlanClosed(f: Function)
    requires WellFormed(f) && StoresUnused(f)
    ensures Closed(f, StorePlan(f))
    ensures forall id | id in AllDeadStores(f) :: id in f.code && IsStore(f.code[id].op)
  {
    hide WellFormed, AllDeadStores;
    forall id | id in AllDeadStores(f)
      ensures id in f.code && IsStore(f.code[id].op)
    {
      var b := DeadStoreAt(f, id);
    }
    assert forall id | id in StorePlan(f).dead && id in f.code :: !IsTerminator(f.code[id].op);
  }

  lemma DeadIsStore(f: Function, b: BlockId, k: nat)
    requires WellFormed(f) && b in f.blocks && k < |f.blocks[b]|
    ensures f.blocks[b][k] in AllDeadStores(f) <==> IsDeadStore(f.blocks[b], f.code, k)
  {
    var list := f.blocks[b];
    var id := list[k];
    if id in AllDeadStores(f) {
      var c :| c in f.blocks && id in DeadStoresFrom(f.blocks[c], f.code, 0);
      assert f.code[id].parent == b && f.code[id].parent == c;
      var i: nat :| i < |list| && IsDeadStore(list, f.code, i) && list[i] == id;
      assert i == k;
    }
    if IsDeadStore(list, f.code, k) {
      assert id in DeadStoresFrom(list, f.code, 0);
    }
  }

  // ----- The relation

  /** The run is behind the dead store k and not behind store j, which supersedes it. */
  ghost predicate Pending(f: Function, s: State, k: nat, j: nat) {
    && s.ret.None? && s.path != [] && Last(s.path) in f.blocks
    && k < s.pc <= j && Supersedes(f.blocks[Last(s.path)], f.code, k, j)
  }

  /** One memory is the other after a store like k. */
  ghost predicate StoreApart(m: Machine, store: Instr, s: State, mem: Memory) {
    |store.operands| == 2 && Ready(store.operands[1], s.env, m.params)
    && exists v, w :: m.sem(store.op, store.ty, [v, Fetch(store.operands[1], s.env, m.params)], mem, w, s.mem)
  }

  ghost predicate PendingStore(m: Machine, f: Function, s: State, mem: Memory) {
    exists k: nat, j: nat :: Pending(f, s, k, j) && StoreApart(m, f.code[f.blocks[Last(s.path)][k]], s, mem)
  }

  ghost predicate Linked(m: Machine, f: Function, plan: Plan, s: State, t: State) {
    Related(f, plan, s.(mem := t.mem), t) && (s.mem == t.mem || PendingStore(m, f, s, t.mem))
  }

  /** The removal is one that may be made. */
  ghost predicate Sound(m: Machine, f: Function, plan: Plan) {
    && WellFormed(f) && plan == StorePlan(f) && StoresSuperseded(f) && StoresUnused(f)
    && LastStoreWins(m) && MemoryListed(m)
  }

  // ----- Steps with another memory

  lemma NotAtPhis(list: seq<Id>, code: map<Id, Instr>, pc: nat)
    requires pc < |list| && list[pc] in code && code[list[pc]].op != Phi
    ensures pc == 0 ==> LeadingPhis(list, code) == 0
  {
  }

  /** What a step at a plain instruction is. */
  lemma PlainStep(m: Machine, f: Function, s: State, s': State)
    requires s.ret.None? && s.path != [] && Last(s.path) in f.blocks && s.pc < |f.blocks[Last(s.path)]|
    requires f.blocks[Last(s.path)][s.pc] in f.code && IsPlain(f.code[f.blocks[Last(s.path)][s.pc]].op)
    ensures var id := f.blocks[Last(s.path)][s.pc]; Step(m, f, s, s') <==> OpStep(m, id, f.code[id], s, s')
  {
    NotAtPhis(f.blocks[Last(s.path)], f.code, s.pc);
  }

  lemma QuietOpStep(m: Machine, id: Id, instr: Instr, s: State, s': State, mem: Memory)
    requires MemoryListed(m) && !IsMem(instr.op) && OpStep(m, id, instr, s, s')
    ensures s'.mem == s.mem && OpStep(m, id, instr, s.(mem := mem), s'.(mem := mem))
  {
  }

  /** Between the two stores memory does not matter. */
  lemma QuietTransfer(m: Machine, f: Function, s: State, s': State, mem: Memory, k: nat, j: nat)
    requires MemoryListed(m) && Pending(f, s, k, j) && s.pc < j && Step(m, f, s, s')
    ensures s'.mem == s.mem && Step(m, f, s.(mem := mem), s'.(mem := mem))
    ensures var id := f.blocks[Last(s.path)][s.pc];
            && s' == s.(pc := s.pc + 1, env := s'.env) && id in s'.env && s'.env == s.env[id := s'.env[id]]
  {
    var id := f.blocks[Last(s.path)][s.pc];
    assert PassesBy(f.code[id], id, f.code[f.blocks[Last(s.path)][k]].operands[1]);
    PlainStep(m, f, s, s');
    PlainStep(m, f, s.(mem := mem), s'.(mem := mem));
    hide Step, MemoryListed, Pending;
    QuietOpStep(m, id, f.code[id], s, s', mem);
  }

  /** At the second store it makes no difference whether the first has been made. */
  lemma WinTransfer(m: Machine, f: Function, s: State, s': State, mem: Memory, k: nat, j: nat)
    requires LastStoreWins(m) && Pending(f, s, k, j) && s.pc == j
    requires StoreApart(m, f.code[f.blocks[Last(s.path)][k]], s, mem)
    ensures Step(m, f, s, s') <==> Step(m, f, s.(mem := mem), s')
  {
    var list := f.blocks[Last(s.path)];
    var store, next := f.code[list[k]], f.code[list[j]];
    assert Supersedes(list, f.code, k, j);
    assert IsPlain(next.op);
    PlainStep(m, f, s, s');
    PlainStep(m, f, s.(mem := mem), s');
    var p := Fetch(store.operands[1], s.env, m.params);
    var v, w :| m.sem(store.op, store.ty, [v, p], mem, w, s.mem);
    var args := FetchAll(next.operands, s.env, m.params);
    assert args == [args[0], p];
    if list[j] in s'.env {
      Wins(m, store.op, store.ty, v, p, mem, w, s.mem, next.op, next.ty, args[0], s'.env[list[j]], s'.mem);
    }
  }

  // ----- The first store

  lemma DeadPosition(m: Machine, f: Function, plan: Plan, s: State, t: State)
    requires Sound(m, f, plan) && AtDead(f, plan, s) && Related(f, plan, s, t)
    ensures var list := f.blocks[Last(s.path)];
            && list[s.pc] in f.code && IsPlain(f.code[list[s.pc]].op) && LeadingPhis(list, f.code) <= s.pc
            && exists j: nat :: Supersedes(list, f.code, s.pc, j)
  {
    var list := f.blocks[Last(s.path)];
    DeadIsStore(f, Last(s.path), s.pc);
    assert IsDeadStore(list, f.code, s.pc);
    assert list[s.pc] in list;
    if s.pc == 0 { NotAtPhis(list, f.code, 0); }
  }

  /** Past an erased instruction the other function stays where it is. */
  lemma DeadMoves(f: Function, plan: Plan, s: State, s': State, t: State)
    requires Related(f, plan, s, t) && AtDead(f, plan, s)
    requires var list := f.blocks[Last(s.path)];
             LeadingPhis(list, f.code) <= s.pc && s'.env.Keys == s.env.Keys + {list[s.pc]}
             && s' == s.(pc := s.pc + 1, env := s.env[list[s.pc] := s'.env[list[s.pc]]])
    ensures Related(f, plan, s', t)
  {
    KeepNext(f.blocks[Last(s.path)], s.pc, plan.dead);
    assert s'.env - plan.dead == s.env - plan.dead;
  }

  /** A store from mem to the new memory, at the pointer of store k. */
  lemma NowApart(m: Machine, id: Id, store: Instr, s: State, s': State)
    requires OpStep(m, id, store, s, s') && |store.operands| == 2 && store.operands[1] != Inst(id)
    ensures StoreApart(m, store, s', s.mem)
  {
    var args := FetchAll(store.operands, s.env, m.params);
    assert args == [args[0], args[1]];
    assert m.sem(store.op, store.ty, [args[0], Fetch(store.operands[1], s'.env, m.params)], s.mem, s'.env[id], s'.mem);
  }

  /** Executing a dead store. */
  lemma DeadStep(m: Machine, f: Function, plan: Plan, s: State, s': State, t: State)
    requires Sound(m, f, plan) && AtDead(f, plan, s) && Related(f, plan, s, t) && Step(m, f, s, s')
    ensures Linked(m, f, plan, s', t) && Ahead(s, s')
  {
    DeadPosition(m, f, plan, s, t);
    var list := f.blocks[Last(s.path)];
    var j: nat :| Supersedes(list, f.code, s.pc, j);
    var id := list[s.pc];
    assert s.ret.None? && id in f.code && f.code[id].operands[1] != Inst(id) && |f.code[id].operands| == 2;
    assert s.path != [] && Last(s.path) in f.blocks && s.pc < |list|;
    hide *;
    PlainStep(m, f, s, s');
    DeadStepFrom(m, f, plan, s, s', t, j);
  }

  lemma DeadStepFrom(m: Machine, f: Function, plan: Plan, s: State, s': State, t: State, j: nat)
    requires AtDead(f, plan, s) && Related(f, plan, s, t) && s.ret.None?
    requires LeadingPhis(f.blocks[Last(s.path)], f.code) <= s.pc && Supersedes(f.blocks[Last(s.path)], f.code, s.pc, j)
    requires var id := f.blocks[Last(s.path)][s.pc]; id in f.code && OpStep(m, id, f.code[id], s, s')
    ensures Linked(m, f, plan, s', t) && Ahead(s, s')
  {
    var list := f.blocks[Last(s.path)];
    NowApart(m, list[s.pc], f.code[list[s.pc]], s, s');
    DeadMoves(f, plan, s, s'.(mem := s.mem), t);
    hide StoreApart, Related, AtDead;
    assert Related(f, plan, s'.(mem := s.mem), t) ==> t.mem == s.mem by {
      RelatedMemory(f, plan, s'.(mem := s.mem), t);
    }
    assert Pending(f, s', s.pc, j);
  }

  lemma RelatedMemory(f: Function, plan: Plan, s: State, t: State)
    ensures Related(f, plan, s, t) ==> t.mem == s.mem
  {
  }

  // ----- Steps of linked states

  /** Past a bystander the stores stay pending. */
  lemma PendingNext(m: Machine, f: Function, s: State, s': State, mem: Memory, k: nat, j: nat)
    requires Pending(f, s, k, j) && s.pc < j && StoreApart(m, f.code[f.blocks[Last(s.path)][k]], s, mem)
    requires var id := f.blocks[Last(s.path)][s.pc];
             s' == s.(pc := s.pc + 1, env := s'.env) && id in s'.env && s'.env == s.env[id := s'.env[id]]
    ensures PendingStore(m, f, s', mem)
  {
    var list := f.blocks[Last(s.path)];
    var store := f.code[list[k]];
    assert PassesBy(f.code[list[s.pc]], list[s.pc], store.operands[1]);
    assert Pending(f, s', k, j);
    hide Pending, Supersedes;
    assert Fetch(store.operands[1], s'.env, m.params) == Fetch(store.operands[1], s.env, m.params);
    assert StoreApart(m, store, s', mem);
  }

  lemma BystanderLives(m: Machine, f: Function, plan: Plan, s: State, k: nat, j: nat)
    requires Sound(m, f, plan) && Pending(f, s, k, j) && s.pc < j
    ensures !AtDead(f, plan, s)
  {
    var list := f.blocks[Last(s.path)];
    assert PassesBy(f.code[list[s.pc]], list[s.pc], f.code[list[k]].operands[1]);
    DeadIsStore(f, Last(s.path), s.pc);
  }

  lemma SoundMeans(m: Machine, f: Function, plan: Plan)
    requires Sound(m, f, plan)
    ensures WellFormed(f) && Closed(f, plan) && MemoryListed(m) && LastStoreWins(m)
    ensures forall env: map<Id, Word> :: Agrees(plan.subst, env)
  {
    StorePlanClosed(f);
  }

  /** A step where memory is the same, or as good as the same. */
  lemma EvenForward(m: Machine, f: Function, plan: Plan, u: State, s': State, t: State)
    requires Sound(m, f, plan) && Related(f, plan, u, t) && Step(m, f, u, s')
    ensures (Ahead(u, s') && Linked(m, f, plan, s', t))
         || exists t' :: Step(m, Rewrite(f, plan), t, t') && Linked(m, f, plan, s', t')
  {
    hide *;
    SoundMeans(m, f, plan);
    if AtDead(f, plan, u) {
      DeadStep(m, f, plan, u, s', t);
    } else {
      var moved, t' := Forward(m, f, plan, u, s', t);
      MatchedLinked(m, f, plan, s', t, t');
    }
  }

  /** A step between the two stores. */
  lemma BystanderForward(m: Machine, f: Function, plan: Plan, s: State, s': State, t: State, k: nat, j: nat)
    requires Sound(m, f, plan) && Related(f, plan, s.(mem := t.mem), t) && Step(m, f, s, s')
    requires Pending(f, s, k, j) && s.pc < j && StoreApart(m, f.code[f.blocks[Last(s.path)][k]], s, t.mem)
    ensures (Ahead(s, s') && Linked(m, f, plan, s', t))
         || exists t' :: Step(m, Rewrite(f, plan), t, t') && Linked(m, f, plan, s', t')
  {
    hide *;
    SoundMeans(m, f, plan);
    PendingAhead(f, s, k, j, t.mem);
    QuietTransfer(m, f, s, s', t.mem, k, j);
    BystanderLives(m, f, plan, s.(mem := t.mem), k, j);
    PendingNext(m, f, s, s', t.mem, k, j);
    var moved, t' := Forward(m, f, plan, s.(mem := t.mem), s'.(mem := t.mem), t);
    StillPending(m, f, plan, s', t, t');
    AheadAnyway(s, s', t.mem);
  }

  lemma AheadAnyway(s: State, s': State, mem: Memory)
    ensures Ahead(s.(mem := mem), s'.(mem := mem)) <==> Ahead(s, s')
    ensures Ahead(s.(mem := mem), s') <==> Ahead(s, s')
  {
  }

  lemma StillPending(m: Machine, f: Function, plan: Plan, s': State, t: State, t': State)
    requires PendingStore(m, f, s', t.mem)
    ensures Related(f, plan, s'.(mem := t.mem), t) ==> Linked(m, f, plan, s', t)
    ensures Related(f, plan, s'.(mem := t.mem), t') ==> Linked(m, f, plan, s', t')
  {
    hide Related, PendingStore;
    RelatedMemory(f, plan, s'.(mem := t.mem), t');
  }

  lemma LinkedMeans(m: Machine, f: Function, plan: Plan, s: State, t: State) returns (k: nat, j: nat)
    requires Linked(m, f, plan, s, t)
    ensures Related(f, plan, s.(mem := t.mem), t)
    ensures s.mem == t.mem ==> s.(mem := t.mem) == s
    ensures s.mem != t.mem ==> Pending(f, s, k, j) && StoreApart(m, f.code[f.blocks[Last(s.path)][k]], s, t.mem)
  {
    k, j := 0, 0;
    if s.mem != t.mem {
      k, j :| Pending(f, s, k, j) && StoreApart(m, f.code[f.blocks[Last(s.path)][k]], s, t.mem);
    }
  }

  lemma LinkedForward(m: Machine, f: Function, plan: Plan, s: State, s': State, t: State)
    requires Sound(m, f, plan) && Linked(m, f, plan, s, t) && Step(m, f, s, s')
    ensures (Ahead(s, s') && Linked(m, f, plan, s', t))
         || exists t' :: Step(m, Rewrite(f, plan), t, t') && Linked(m, f, plan, s', t')
  {
    hide Sound, Linked, Related, Step, Rewrite, Pending, StoreApart;
    var k, j := LinkedMeans(m, f, plan, s, t);
    AheadAnyway(s, s', t.mem);
    if s.mem == t.mem {
      EvenForward(m, f, plan, s, s', t);
    } else {
      PendingAhead(f, s, k, j, t.mem);
      if s.pc < j {
        BystanderForward(m, f, plan, s, s', t, k, j);
      } else {
        SoundMeans(m, f, plan);
        WinTransfer(m, f, s, s', t.mem, k, j);
        EvenForward(m, f, plan, s.(mem := t.mem), s', t);
      }
    }
  }

  lemma PendingAhead(f: Function, s: State, k: nat, j: nat, mem: Memory)
    requires Pending(f, s, k, j)
    ensures s.pc <= j && Pending(f, s.(mem := mem), k, j)
  {
  }

  lemma EvenBackward(m: Machine, f: Function, plan: Plan, u: State, s1: State, t: State, t': State) returns (s': State)
    requires Sound(m, f, plan) && Related(f, plan, u, t) && Step(m, Rewrite(f, plan), t, t') && Step(m, f, u, s1)
    ensures Step(m, f, u, s') && (Linked(m, f, plan, s', t') || (Ahead(u, s') && Linked(m, f, plan, s', t)))
  {
    hide *;
    SoundMeans(m, f, plan);
    if AtDead(f, plan, u) {
      DeadStep(m, f, plan, u, s1, t);
      s' := s1;
    } else {
      var matched, s2 := CatchUp(m, f, plan, u, s1, t, t');
      s' := s2;
      MatchedLinked(m, f, plan, s', t, t');
    }
  }

  lemma BystanderBackward(m: Machine, f: Function, plan: Plan, s: State, s1: State, t: State, t': State, k: nat, j: nat)
    returns (s': State)
    requires Sound(m, f, plan) && Related(f, plan, s.(mem := t.mem), t) && Step(m, Rewrite(f, plan), t, t')
    requires Step(m, f, s, s1)
    requires Pending(f, s, k, j) && s.pc < j && StoreApart(m, f.code[f.blocks[Last(s.path)][k]], s, t.mem)
    ensures Step(m, f, s, s') && (Linked(m, f, plan, s', t') || (Ahead(s, s') && Linked(m, f, plan, s', t)))
  {
    hide *;
    var u := s.(mem := t.mem);
    SoundMeans(m, f, plan);
    PendingAhead(f, s, k, j, t.mem);
    QuietTransfer(m, f, s, s1, t.mem, k, j);
    BystanderLives(m, f, plan, u, k, j);
    var matched, s2 := CatchUp(m, f, plan, u, s1.(mem := t.mem), t, t');
    QuietTransfer(m, f, u, s2, s.mem, k, j);
    s' := s2.(mem := s.mem);
    assert u.(mem := s.mem) == s && s'.(mem := t.mem) == s2;
    PendingNext(m, f, s, s', t.mem, k, j);
    StillPending(m, f, plan, s', t, t');
    AheadAnyway(s, s', t.mem);
  }

  lemma LinkedBackward(m: Machine, f: Function, plan: Plan, s: State, s1: State, t: State, t': State)
    requires Sound(m, f, plan) && Linked(m, f, plan, s, t) && Step(m, Rewrite(f, plan), t, t') && Step(m, f, s, s1)
    ensures exists s' :: Step(m, f, s, s')
                         && (Linked(m, f, plan, s', t') || (Ahead(s, s') && Linked(m, f, plan, s', t)))
  {
    hide Sound, Linked, Related, Step, Rewrite, Pending, StoreApart, Ahead;
    var k, j := LinkedMeans(m, f, plan, s, t);
    if s.mem == t.mem {
      var s' := EvenBackward(m, f, plan, s, s1, t, t');
    } else {
      PendingAhead(f, s, k, j, t.mem);
      if s.pc < j {
        var s' := BystanderBackward(m, f, plan, s, s1, t, t', k, j);
      } else {
        SoundMeans(m, f, plan);
        WinTransfer(m, f, s, s1, t.mem, k, j);
        var s' := EvenBackward(m, f, plan, s.(mem := t.mem), s1, t, t');
        WinTransfer(m, f, s, s', t.mem, k, j);
        AheadAnyway(s, s', t.mem);
      }
    }
  }

  lemma MatchedLinked(m: Machine, f: Function, plan: Plan, s': State, t: State, t': State)
    ensures Related(f, plan, s', t') ==> Linked(m, f, plan, s', t')
    ensures Related(f, plan, s', t) ==> Linked(m, f, plan, s', t)
  {
    RelatedMemory(f, plan, s', t);
    RelatedMemory(f, plan, s', t');
  }

  lemma LinkedAlike(m: Machine, f: Function, plan: Plan, s: State, t: State)
    requires Linked(m, f, plan, s, t)
    ensures Alike(f, s, t)
  {
  }

  lemma LinkedStart(m: Machine, f: Function, plan: Plan, s: State)
    requires Sound(m, f, plan)
    ensures Initial(f, s) <==> Initial(Rewrite(f, plan), s)
    ensures Initial(f, s) ==> Linked(m, f, plan, s, s)
  {
    SoundMeans(m, f, plan);
    hide Sound, StorePlan, Closed, LastStoreWins, MemoryListed;
    InitialRelated(m, f, plan, s);
    assert s.(mem := s.mem) == s;
  }

  /**
   Removing dead stores preserves all runs where every store removed is superseded: the next
   one has the same pointer and is at least as wide, and what stands between neither reads
   nor writes memory. Stores then only have to obey the law that the last of them wins.
   */
  lemma DeadStoresPreserveRuns(m: Machine, f: Function)
    requires WellFormed(f) && StoresSuperseded(f) && StoresUnused(f) && LastStoreWins(m) && MemoryListed(m)
    ensures Preserves(m, f, Rewrite(f, StorePlan(f)))
  {
    var plan := StorePlan(f);
    var g := Rewrite(f, plan);
    assert Sound(m, f, plan);
    var r: Relation := (s: State, t: State) => Linked(m, f, plan, s, t);
    hide Sound, WellFormed, StorePlan, StoresSuperseded, StoresUnused, LastStoreWins, MemoryListed, Linked, Rewrite,
         Step, Initial, Alike;
    forall s
      ensures Initial(f, s) <==> Initial(g, s)
      ensures Initial(f, s) ==> r(s, s)
    {
      LinkedStart(m, f, plan, s);
    }
    forall s, t | r(s, t)
      ensures Alike(f, s, t)
    {
      LinkedAlike(m, f, plan, s, t);
    }
    forall s, s', t | r(s, t) && Step(m, f, s, s')
      ensures Follows(m, g, r, s, s', t)
    {
      LinkedForward(m, f, plan, s, s', t);
    }
    forall s, s1, t, t' | r(s, t) && Step(m, g, t, t') && Step(m, f, s, s1)
      ensures Precedes(m, f, r, s, t, t')
    {
      LinkedBackward(m, f, plan, s, s1, t, t');
    }
    SimulationPreserves(m, f, g, r);
  }
}
