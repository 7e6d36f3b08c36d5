/**
 When removing dead stores preserves all runs, with other stores in between: several
 removed stores may then be waiting for the ones that follow them.
 */
module DeadStoreChains {
  import opened IR
  import opened Simulation
  import opened Erasure
  import opened DeadCode
  import opened DeadStores
  import opened DeadStoreRuns
  import opened Reordering

  // ----- Stores as events

  datatype StoreEvent = StoreEvent(op: Opcode, ty: nat, value: Word, pointer: Word, result: Word)

  /** How many bytes, and where. */
  type Place = (nat, Word)

  function PlaceOf(e: StoreEvent): Place {
    (StoreWidth(e.op, e.ty), e.pointer)
  }

  /** The store writes all of the place. */
  predicate Fills(e: StoreEvent, x: Place) {
    e.pointer == x.1 && StoreWidth(e.op, e.ty) >= x.0
  }

  ghost predicate DoesStore(m: Machine, e: StoreEvent, mem: Memory, mem': Memory) {
    KnownWidth(e.op) && m.sem(e.op, e.ty, [e.value, e.pointer], mem, e.result, mem')
  }

  ghost predicate StoreRun(m: Machine, events: seq<StoreEvent>, mem: Memory, mem': Memory) {
    if events == [] then mem' == mem
    else exists mid: Memory :: DoesStore(m, events[0], mem, mid) && StoreRun(m, events[1..], mid, mem')
  }

  predicate Covers(events: seq<StoreEvent>, x: Place) {
    exists i :: 0 <= i < |events| && Fills(events[i], x)
  }

  /** Stores do not look at memory, and have one effect. */
  ghost predicate StoresBlind(m: Machine) {
    && (forall e: StoreEvent, mem: Memory, mem': Memory, mem2: Memory | DoesStore(m, e, mem, mem') ::
        CanStore(m, e, mem2))
    && (forall e: StoreEvent, mem: Memory, a: Memory, b: Memory | DoesStore(m, e, mem, a) && DoesStore(m, e, mem, b) ::
        a == b)
  }

  ghost predicate CanStore(m: Machine, e: StoreEvent, mem: Memory) {
    exists mem': Memory :: DoesStore(m, e, mem, mem')
  }

  /** A store is lost once stores to follow include one that fills its place. */
  ghost predicate LaterStoreWins(m: Machine) {
    forall e: StoreEvent, events: seq<StoreEvent>, mem: Memory, mem': Memory, end: Memory
      | DoesStore(m, e, mem, mem') && Covers(events, PlaceOf(e)) ::
      StoreRun(m, events, mem', end) <==> StoreRun(m, events, mem, end)
  }

  ghost predicate StoreLaws(m: Machine) {
    StoresBlind(m) && LaterStoreWins(m)
  }

  // ----- Memories that differ at some places

  ghost predicate CoversAll(events: seq<StoreEvent>, places: set<Place>) {
    forall x | x in places :: Covers(events, x)
  }

  /** Stores to all the places make the two memories one. */
  ghost predicate Agree(m: Machine, places: set<Place>, a: Memory, b: Memory) {
    forall events: seq<StoreEvent>, end: Memory | CoversAll(events, places) ::
      StoreRun(m, events, a, end) <==> StoreRun(m, events, b, end)
  }

  lemma AgreeNowhere(m: Machine, a: Memory, b: Memory)
    ensures Agree(m, {}, a, b) <==> a == b
  {
    if Agree(m, {}, a, b) {
      assert CoversAll([], {});
      assert StoreRun(m, [], a, a) <==> StoreRun(m, [], b, a);
    }
  }

  lemma AgreeMore(m: Machine, places: set<Place>, more: set<Place>, a: Memory, b: Memory)
    requires Agree(m, places, a, b) && places <= more
    ensures Agree(m, more, a, b)
  {
    hide StoreRun, Covers;
    forall events: seq<StoreEvent>, end: Memory | CoversAll(events, more)
      ensures StoreRun(m, events, a, end) <==> StoreRun(m, events, b, end)
    {
      assert CoversAll(events, places);
    }
  }

  lemma AgreeSwaps(m: Machine, places: set<Place>, a: Memory, b: Memory)
    requires Agree(m, places, a, b)
    ensures Agree(m, places, b, a)
  {
    hide StoreRun, CoversAll;
  }

  function Unfilled(places: set<Place>, e: StoreEvent): set<Place> {
    set x | x in places && !Fills(e, x)
  }

  /** What fills the place of e fills all that e does. */
  lemma CoversFilled(events: seq<StoreEvent>, e: StoreEvent, x: Place)
    requires Covers(events, PlaceOf(e)) && Fills(e, x)
    ensures Covers(events, x)
  {
    var i :| 0 <= i < |events| && Fills(events[i], PlaceOf(e));
    assert Fills(events[i], x);
  }

  /** A store that only one side makes. */
  lemma AgreeMissed(m: Machine, places: set<Place>, e: StoreEvent, a: Memory, a': Memory, b: Memory)
    requires LaterStoreWins(m) && Agree(m, places, a, b) && DoesStore(m, e, a, a')
    ensures Agree(m, Unfilled(places, e) + {PlaceOf(e)}, a', b)
  {
    hide StoreRun, Covers, DoesStore, Fills;
    forall events: seq<StoreEvent>, end: Memory | CoversAll(events, Unfilled(places, e) + {PlaceOf(e)})
      ensures StoreRun(m, events, a', end) <==> StoreRun(m, events, b, end)
    {
      assert Covers(events, PlaceOf(e));
      forall x | x in places
        ensures Covers(events, x)
      {
        if Fills(e, x) { CoversFilled(events, e, x); } else { assert x in Unfilled(places, e); }
      }
      assert CoversAll(events, places);
    }
  }

  lemma FirstEvent(m: Machine, e: StoreEvent, events: seq<StoreEvent>, mem: Memory, mid: Memory, end: Memory)
    requires StoresBlind(m) && DoesStore(m, e, mem, mid)
    ensures StoreRun(m, [e] + events, mem, end) <==> StoreRun(m, events, mid, end)
  {
    assert ([e] + events)[1..] == events;
    hide DoesStore;
  }

  lemma CoversFirst(e: StoreEvent, events: seq<StoreEvent>, places: set<Place>)
    requires CoversAll(events, Unfilled(places, e))
    ensures CoversAll([e] + events, places)
  {
    var all := [e] + events;
    forall x | x in places
      ensures Covers(all, x)
    {
      if Fills(e, x) {
        assert Fills(all[0], x);
      } else {
        assert x in Unfilled(places, e);
        assert Covers(events, x);
        var i :| 0 <= i < |events| && Fills(events[i], x);
        assert all[i + 1] == events[i];
      }
    }
  }

  /** A store that both sides make. */
  lemma AgreeBoth(m: Machine, places: set<Place>, e: StoreEvent, a: Memory, a': Memory, b: Memory) returns (b': Memory)
    requires StoresBlind(m) && Agree(m, places, a, b) && DoesStore(m, e, a, a')
    ensures DoesStore(m, e, b, b') && Agree(m, Unfilled(places, e), a', b')
  {
    hide StoreRun, CoversAll, DoesStore;
    assert CanStore(m, e, b);
    b' :| DoesStore(m, e, b, b');
    forall events: seq<StoreEvent>, end: Memory | CoversAll(events, Unfilled(places, e))
      ensures StoreRun(m, events, a', end) <==> StoreRun(m, events, b', end)
    {
      CoversFirst(e, events, places);
      FirstEvent(m, e, events, a, a', end);
      FirstEvent(m, e, events, b, b', end);
    }
  }

  // ----- The condition

  /** A store of so many bytes with its two operands. */
  predicate IsSizedStore(instr: Instr) {
    KnownWidth(instr.op) && |instr.operands| == 2
  }

  /** The instruction does not give the pointer, and neither reads memory nor calls. */
  predicate Clear(instr: Instr, id: Id, ptr: Value) {
    ptr != Inst(id) && (IsSizedStore(instr) || (IsPlain(instr.op) && !IsMem(instr.op)))
  }

  /** Store j makes up for store k: at least as wide, same pointer, and between them only stores and bystanders. */
  ghost predicate MadeUpFor(list: seq<Id>, code: map<Id, Instr>, k: nat, j: nat) {
    && k < j < |list| && list[k] in code && list[j] in code
    && IsSizedStore(code[list[k]]) && IsSizedStore(code[list[j]]) && AtLeastAsWide(code[list[j]], code[list[k]])
    && code[list[j]].operands[1] == code[list[k]].operands[1]
    && code[list[k]].operands[1] != Inst(list[k])
    && forall i | k < i < j :: list[i] in code && Clear(code[list[i]], list[i], code[list[k]].operands[1])
  }

  /** Every store the scan removes is made up for. */
  ghost predicate StoresMadeUp(f: Function)
    requires WellFormed(f)
  {
    forall b, k: nat | b in f.blocks && IsDeadStore(f.blocks[b], f.code, k) ::
        exists j: nat :: MadeUpFor(f.blocks[b], f.code, k, j)
  }

  // ----- What is waiting

  /** Store k was removed, has been executed, and the store that makes up for it is still to come. */
  ghost predicate Waiting(f: Function, list: seq<Id>, pc: nat, k: nat, j: nat) {
    k < pc <= j && MadeUpFor(list, f.code, k, j)
  }

  ghost predicate Waits(f: Function, list: seq<Id>, pc: nat, k: nat) {
    exists j: nat :: Waiting(f, list, pc, k, j)
  }

  function PlaceAt(m: Machine, f: Function, list: seq<Id>, k: nat, env: map<Id, Word>): Place
    requires k < |list| && list[k] in f.code && IsSizedStore(f.code[list[k]])
  {
    (StoreWidth(f.code[list[k]].op, f.code[list[k]].ty), Fetch(f.code[list[k]].operands[1], env, m.params))
  }

  ghost function WaitingPlaces(m: Machine, f: Function, s: State): set<Place> {
    if s.ret.None? && s.path != [] && Last(s.path) in f.blocks then
      var list := f.blocks[Last(s.path)];
      set k: nat | k < s.pc && Waits(f, list, s.pc, k) :: PlaceAt(m, f, list, k, s.env)
    else {}
  }

  ghost predicate Chained(m: Machine, f: Function, plan: Plan, s: State, t: State) {
    Related(f, plan, s.(mem := t.mem), t) && Agree(m, WaitingPlaces(m, f, s), s.mem, t.mem)
  }

  ghost predicate Harmless(m: Machine, f: Function, plan: Plan) {
    && WellFormed(f) && plan == StorePlan(f) && StoresMadeUp(f) && StoresUnused(f)
    && StoreLaws(m) && MemoryListed(m)
  }

  /** The state is about to execute this instruction, not a phi. */
  ghost predicate AtPlain(f: Function, s: State, id: Id) {
    && s.ret.None? && s.path != [] && Last(s.path) in f.blocks && s.pc < |f.blocks[Last(s.path)]|
    && f.blocks[Last(s.path)][s.pc] == id && id in f.code && IsPlain(f.code[id].op)
  }

  /** Executing an instruction changes only its own value. */
  ghost predicate Moves(s: State, s': State, id: Id) {
    s' == s.(pc := s.pc + 1, env := s'.env, mem := s'.mem) && id in s'.env && s'.env == s.env[id := s'.env[id]]
  }

  lemma StillWaits(m: Machine, f: Function, s: State, s': State, id: Id, k: nat, j: nat)
    requires AtPlain(f, s, id) && Moves(s, s', id) && Waiting(f, f.blocks[Last(s.path)], s.pc, k, j) && s.pc < j
    ensures Waits(f, f.blocks[Last(s.path)], s'.pc, k)
    ensures PlaceAt(m, f, f.blocks[Last(s.path)], k, s'.env) == PlaceAt(m, f, f.blocks[Last(s.path)], k, s.env)
    ensures PlaceAt(m, f, f.blocks[Last(s.path)], k, s.env) in WaitingPlaces(m, f, s')
  {
    var list := f.blocks[Last(s.path)];
    assert Clear(f.code[list[s.pc]], list[s.pc], f.code[list[k]].operands[1]);
    assert Waiting(f, list, s'.pc, k, j);
    hide Waiting, MadeUpFor;
  }

  /** Past a bystander what waits goes on waiting. */
  lemma BystanderPlaces(m: Machine, f: Function, s: State, s': State, id: Id)
    requires AtPlain(f, s, id) && !IsMem(f.code[id].op) && Moves(s, s', id)
    ensures WaitingPlaces(m, f, s) <= WaitingPlaces(m, f, s')
  {
    var list := f.blocks[Last(s.path)];
    forall x | x in WaitingPlaces(m, f, s)
      ensures x in WaitingPlaces(m, f, s')
    {
      var k: nat :| k < s.pc && Waits(f, list, s.pc, k) && x == PlaceAt(m, f, list, k, s.env);
      var j: nat :| Waiting(f, list, s.pc, k, j);
      hide AtPlain, WaitingPlaces, Moves;
      assert s.pc != j;
      StillWaits(m, f, s, s', id, k, j);
    }
  }

  /** Past a store, all that it does not fill goes on waiting. */
  lemma StorePlaces(m: Machine, f: Function, s: State, s': State, id: Id, e: StoreEvent)
    requires AtPlain(f, s, id) && IsSizedStore(f.code[id]) && Moves(s, s', id)
    requires PlaceOf(e) == PlaceAt(m, f, f.blocks[Last(s.path)], s.pc, s.env)
    ensures Unfilled(WaitingPlaces(m, f, s), e) <= WaitingPlaces(m, f, s')
  {
    var list := f.blocks[Last(s.path)];
    forall x | x in Unfilled(WaitingPlaces(m, f, s), e)
      ensures x in WaitingPlaces(m, f, s')
    {
      var k: nat :| k < s.pc && Waits(f, list, s.pc, k) && x == PlaceAt(m, f, list, k, s.env);
      var j: nat :| Waiting(f, list, s.pc, k, j);
      hide AtPlain, WaitingPlaces, Moves;
      assert s.pc != j;
      StillWaits(m, f, s, s', id, k, j);
    }
  }

  /** A removed store waits from then on. */
  lemma RemovedWaits(m: Machine, f: Function, s: State, s': State, id: Id, j: nat)
    requires AtPlain(f, s, id) && Moves(s, s', id) && MadeUpFor(f.blocks[Last(s.path)], f.code, s.pc, j)
    ensures PlaceAt(m, f, f.blocks[Last(s.path)], s.pc, s.env) in WaitingPlaces(m, f, s')
  {
    var list := f.blocks[Last(s.path)];
    assert Waiting(f, list, s'.pc, s.pc, j);
    assert Waits(f, list, s'.pc, s.pc);
    hide Waiting, Waits;
  }

  /** Nothing waits at anything but a store or a bystander, nor behind it. */
  lemma NothingWaits(m: Machine, f: Function, s: State)
    requires s.ret.None? && s.path != [] && Last(s.path) in f.blocks
    requires s.pc < |f.blocks[Last(s.path)]| ==>
               var id := f.blocks[Last(s.path)][s.pc];
               id in f.code ==> !IsSizedStore(f.code[id]) && !(IsPlain(f.code[id].op) && !IsMem(f.code[id].op))
    ensures WaitingPlaces(m, f, s) == {}
  {
    var list := f.blocks[Last(s.path)];
    forall k: nat, j: nat
      ensures !Waiting(f, list, s.pc, k, j)
    {
      if Waiting(f, list, s.pc, k, j) {
        assert false;
      }
    }
    hide Waiting;
  }

  // ----- Steps

  function EventOf(m: Machine, instr: Instr, s: State, result: Word): StoreEvent
    requires IsSizedStore(instr)
  {
    StoreEvent(instr.op, instr.ty, Fetch(instr.operands[0], s.env, m.params), Fetch(instr.operands[1], s.env, m.params),
               result)
  }

  /** A step at a store makes it, and the same step is there from any memory it can be made in. */
  lemma StoreSteps(m: Machine, id: Id, instr: Instr, s: State, s': State, mem: Memory, mem': Memory)
    requires IsSizedStore(instr) && OpStep(m, id, instr, s, s')
    ensures DoesStore(m, EventOf(m, instr, s, s'.env[id]), s.mem, s'.mem) && Moves(s, s', id)
    ensures DoesStore(m, EventOf(m, instr, s, s'.env[id]), mem, mem') ==>
              OpStep(m, id, instr, s.(mem := mem), s'.(mem := mem'))
  {
    var args := FetchAll(instr.operands, s.env, m.params);
    assert args == [args[0], args[1]];
  }

  lemma AtStore(m: Machine, f: Function, s: State, s': State, id: Id)
    requires AtPlain(f, s, id)
    ensures id in f.code && (Step(m, f, s, s') <==> OpStep(m, id, f.code[id], s, s'))
    ensures forall mem: Memory :: AtPlain(f, s.(mem := mem), id)
  {
    PlainStep(m, f, s, s');
  }

  lemma HarmlessMeans(m: Machine, f: Function, plan: Plan)
    requires Harmless(m, f, plan)
    ensures WellFormed(f) && Closed(f, plan) && MemoryListed(m) && StoresBlind(m) && LaterStoreWins(m)
    ensures forall env: map<Id, Word> :: Agrees(plan.subst, env)
  {
    StorePlanClosed(f);
  }

  /** An erased instruction is a store that is made up for. */
  lemma RemovedStore(m: Machine, f: Function, plan: Plan, s: State) returns (j: nat)
    requires Harmless(m, f, plan) && AtDead(f, plan, s)
    ensures MadeUpFor(f.blocks[Last(s.path)], f.code, s.pc, j)
  {
    DeadIsStore(f, Last(s.path), s.pc);
    assert IsDeadStore(f.blocks[Last(s.path)], f.code, s.pc);
    j :| MadeUpFor(f.blocks[Last(s.path)], f.code, s.pc, j);
  }

  lemma RemovedIsPlain(m: Machine, f: Function, plan: Plan, s: State, t: State)
    requires Harmless(m, f, plan) && AtDead(f, plan, s) && Related(f, plan, s, t) && s.ret.None?
    ensures s.path != [] && Last(s.path) in f.blocks && s.pc < |f.blocks[Last(s.path)]|
    ensures f.blocks[Last(s.path)][s.pc] in f.code
    ensures var list := f.blocks[Last(s.path)];
            AtPlain(f, s, list[s.pc]) && IsSizedStore(f.code[list[s.pc]]) && LeadingPhis(list, f.code) <= s.pc
  {
    hide Harmless, WellFormed, Clear, StoreWidth, IsDeadStore;
    var j := RemovedStore(m, f, plan, s);
    if s.pc == 0 { NotAtPhis(f.blocks[Last(s.path)], f.code, 0); }
  }

  lemma PlaceIsEvents(m: Machine, f: Function, s: State, id: Id, result: Word)
    requires AtPlain(f, s, id) && IsSizedStore(f.code[id])
    ensures PlaceOf(EventOf(m, f.code[id], s, result)) == PlaceAt(m, f, f.blocks[Last(s.path)], s.pc, s.env)
  {
  }

  /** f makes a store that was removed: one more waits. */
  lemma RemovedForward(m: Machine, f: Function, plan: Plan, s: State, s': State, t: State)
    requires Harmless(m, f, plan) && Chained(m, f, plan, s, t) && AtDead(f, plan, s) && Step(m, f, s, s')
    ensures Chained(m, f, plan, s', t) && Ahead(s, s')
  {
    hide *;
    HarmlessMeans(m, f, plan);
    var u := s.(mem := t.mem);
    ChainedMeans(m, f, plan, s, t);
    RunsOn(m, f, s, s');
    SameBut(f, plan, s, t.mem);
    RemovedIsPlain(m, f, plan, u, t);
    SameBut(f, plan, u, s.mem);
    var id := f.blocks[Last(s.path)][s.pc];
    PlainAnyway(f, u, s.mem, id);
    AtStore(m, f, s, s', id);
    StoreSteps(m, id, f.code[id], s, s', s.mem, s'.mem);
    var e := EventOf(m, f.code[id], s, s'.env[id]);
    AgreeMissed(m, WaitingPlaces(m, f, s), e, s.mem, s'.mem, t.mem);
    PlaceIsEvents(m, f, s, id, s'.env[id]);
    var j := RemovedStore(m, f, plan, s);
    RemovedWaits(m, f, s, s', id, j);
    StorePlaces(m, f, s, s', id, e);
    AgreeMore(m, Unfilled(WaitingPlaces(m, f, s), e) + {PlaceOf(e)}, WaitingPlaces(m, f, s'), s'.mem, t.mem);
    MovesOn(f, plan, s, s', t, id);
    ChainedIf(m, f, plan, s', t);
  }

  lemma ChainedMeans(m: Machine, f: Function, plan: Plan, s: State, t: State)
    requires Chained(m, f, plan, s, t)
    ensures Related(f, plan, s.(mem := t.mem), t) && Agree(m, WaitingPlaces(m, f, s), s.mem, t.mem)
  {
  }

  lemma ChainedIf(m: Machine, f: Function, plan: Plan, s: State, t: State)
    requires Related(f, plan, s.(mem := t.mem), t) && Agree(m, WaitingPlaces(m, f, s), s.mem, t.mem)
    ensures Chained(m, f, plan, s, t)
  {
  }

  lemma RunsOn(m: Machine, f: Function, s: State, s': State)
    requires Step(m, f, s, s')
    ensures s.ret.None? && s.path != [] && Last(s.path) in f.blocks
  {
  }

  lemma SameBut(f: Function, plan: Plan, s: State, mem: Memory)
    ensures AtDead(f, plan, s.(mem := mem)) <==> AtDead(f, plan, s)
    ensures s.(mem := mem).(mem := s.mem) == s
  {
  }

  lemma PlainAnyway(f: Function, s: State, mem: Memory, id: Id)
    ensures AtPlain(f, s.(mem := mem), id) <==> AtPlain(f, s, id)
  {
  }

  lemma MovesOn(f: Function, plan: Plan, s: State, s': State, t: State, id: Id)
    requires AtDead(f, plan, s) && Related(f, plan, s.(mem := t.mem), t) && Moves(s, s', id) && AtPlain(f, s, id)
    requires LeadingPhis(f.blocks[Last(s.path)], f.code) <= s.pc
    ensures Related(f, plan, s'.(mem := t.mem), t) && Ahead(s, s')
  {
    DeadMoves(f, plan, s.(mem := t.mem), s'.(mem := t.mem), t);
  }

  /** The other function takes the step that is there from its memory. */
  lemma MatchForward(m: Machine, f: Function, plan: Plan, s: State, s': State, t: State, mem': Memory)
    requires Harmless(m, f, plan) && Related(f, plan, s.(mem := t.mem), t) && !AtDead(f, plan, s)
    requires Step(m, f, s.(mem := t.mem), s'.(mem := mem')) && Agree(m, WaitingPlaces(m, f, s'), s'.mem, mem')
    ensures (Ahead(s, s') && Chained(m, f, plan, s', t))
         || exists t' :: Step(m, Rewrite(f, plan), t, t') && Chained(m, f, plan, s', t')
  {
    hide *;
    HarmlessMeans(m, f, plan);
    SameBut(f, plan, s, t.mem);
    var moved, t' := Forward(m, f, plan, s.(mem := t.mem), s'.(mem := mem'), t);
    RelatedMemory(f, plan, s'.(mem := mem'), t');
    MemTwice(s', mem', t'.mem);
    ChainedIf(m, f, plan, s', t');
    AheadEither(s, s', t.mem, mem');
  }

  lemma MemTwice(s: State, a: Memory, b: Memory)
    ensures s.(mem := a).(mem := b) == s.(mem := b) && s.(mem := a).mem == a
  {
  }

  lemma AheadEither(s: State, s': State, a: Memory, b: Memory)
    ensures Ahead(s.(mem := a), s'.(mem := b)) <==> Ahead(s, s')
  {
  }

  /** Both make a store. */
  lemma StoreForward(m: Machine, f: Function, plan: Plan, s: State, s': State, t: State, id: Id)
    requires Harmless(m, f, plan) && Chained(m, f, plan, s, t) && !AtDead(f, plan, s) && Step(m, f, s, s')
    requires AtPlain(f, s, id) && IsSizedStore(f.code[id])
    ensures (Ahead(s, s') && Chained(m, f, plan, s', t))
         || exists t' :: Step(m, Rewrite(f, plan), t, t') && Chained(m, f, plan, s', t')
  {
    hide *;
    HarmlessMeans(m, f, plan);
    ChainedMeans(m, f, plan, s, t);
    AtStore(m, f, s, s', id);
    StoreSteps(m, id, f.code[id], s, s', t.mem, s'.mem);
    var e := EventOf(m, f.code[id], s, s'.env[id]);
    var mem' := AgreeBoth(m, WaitingPlaces(m, f, s), e, s.mem, s'.mem, t.mem);
    StoreSteps(m, id, f.code[id], s, s', t.mem, mem');
    AtStore(m, f, s.(mem := t.mem), s'.(mem := mem'), id);
    PlaceIsEvents(m, f, s, id, s'.env[id]);
    StorePlaces(m, f, s, s', id, e);
    AgreeMore(m, Unfilled(WaitingPlaces(m, f, s), e), WaitingPlaces(m, f, s'), s'.mem, mem');
    MatchForward(m, f, plan, s, s', t, mem');
  }

  lemma BystanderSteps(m: Machine, f: Function, s: State, s': State, id: Id, mem: Memory)
    requires MemoryListed(m) && AtPlain(f, s, id) && !IsMem(f.code[id].op) && Step(m, f, s, s')
    ensures s'.mem == s.mem && Moves(s, s', id) && Step(m, f, s.(mem := mem), s'.(mem := mem))
  {
    hide Step, MemoryListed;
    AtStore(m, f, s, s', id);
    AtStore(m, f, s.(mem := mem), s'.(mem := mem), id);
    QuietOpStep(m, id, f.code[id], s, s', mem);
  }

  lemma BystanderForward(m: Machine, f: Function, plan: Plan, s: State, s': State, t: State, id: Id)
    requires Harmless(m, f, plan) && Chained(m, f, plan, s, t) && !AtDead(f, plan, s) && Step(m, f, s, s')
    requires AtPlain(f, s, id) && !IsMem(f.code[id].op)
    ensures (Ahead(s, s') && Chained(m, f, plan, s', t))
         || exists t' :: Step(m, Rewrite(f, plan), t, t') && Chained(m, f, plan, s', t')
  {
    hide *;
    HarmlessMeans(m, f, plan);
    ChainedMeans(m, f, plan, s, t);
    BystanderSteps(m, f, s, s', id, t.mem);
    BystanderPlaces(m, f, s, s', id);
    AgreeMore(m, WaitingPlaces(m, f, s), WaitingPlaces(m, f, s'), s'.mem, t.mem);
    MatchForward(m, f, plan, s, s', t, t.mem);
  }

  /** Neither at a store of so many bytes nor at a bystander. */
  ghost predicate Elsewhere(f: Function, s: State) {
    forall id | AtPlain(f, s, id) :: !IsSizedStore(f.code[id]) && IsMem(f.code[id].op)
  }

  lemma NothingWaitsElsewhere(m: Machine, f: Function, s: State)
    requires Elsewhere(f, s) && s.ret.None? && s.path != [] && Last(s.path) in f.blocks
    ensures WaitingPlaces(m, f, s) == {}
  {
    var list := f.blocks[Last(s.path)];
    if s.pc < |list| && list[s.pc] in f.code && IsPlain(f.code[list[s.pc]].op) {
      assert AtPlain(f, s, list[s.pc]);
    }
    hide Elsewhere, WaitingPlaces;
    NothingWaits(m, f, s);
  }

  lemma SomeWaiting(m: Machine, f: Function, s: State, k: nat, j: nat)
    requires s.ret.None? && s.path != [] && Last(s.path) in f.blocks && Waiting(f, f.blocks[Last(s.path)], s.pc, k, j)
    ensures WaitingPlaces(m, f, s) != {}
  {
    var list := f.blocks[Last(s.path)];
    assert Waits(f, list, s.pc, k);
    assert PlaceAt(m, f, list, k, s.env) in WaitingPlaces(m, f, s);
  }

  /** Where a step elsewhere leads. */
  lemma StepElsewhere(m: Machine, f: Function, s: State, s': State)
    requires Elsewhere(f, s) && Step(m, f, s, s')
    ensures || s'.ret.Some? || s'.pc == 0
            || (&& s'.path == s.path && s.pc < s'.pc && s.ret.None? && s.path != [] && Last(s.path) in f.blocks
                && forall k: nat | s.pc <= k < s'.pc ::
                     k < |f.blocks[Last(s.path)]| && f.blocks[Last(s.path)][k] in f.code
                     && !IsSizedStore(f.code[f.blocks[Last(s.path)][k]]))
  {
    hide LeadingPhis, PhiStep, InstrStep, AtPlain, IsSizedStore, IsPlain, IsMem, Elsewhere;
    var list := f.blocks[Last(s.path)];
    if s.pc == 0 && LeadingPhis(list, f.code) > 0 {
      PhisElsewhere(m, f, list, LeadingPhis(list, f.code), s, s');
    } else {
      var id := list[s.pc];
      InstrElsewhere(m, id, f.code[id], s, s');
      if IsSizedStore(f.code[id]) { NotElsewhere(f, s, id); }
    }
  }

  lemma NotElsewhere(f: Function, s: State, id: Id)
    requires s.ret.None? && s.path != [] && Last(s.path) in f.blocks && s.pc < |f.blocks[Last(s.path)]|
    requires f.blocks[Last(s.path)][s.pc] == id && id in f.code && IsPlain(f.code[id].op) && IsSizedStore(f.code[id])
    ensures !Elsewhere(f, s)
  {
    PlainAt(f, s, id);
  }

  lemma PlainAt(f: Function, s: State, id: Id)
    requires s.ret.None? && s.path != [] && Last(s.path) in f.blocks && s.pc < |f.blocks[Last(s.path)]|
    requires f.blocks[Last(s.path)][s.pc] == id && id in f.code && IsPlain(f.code[id].op)
    ensures AtPlain(f, s, id)
  {
  }

  lemma PhisElsewhere(m: Machine, f: Function, list: seq<Id>, n: nat, s: State, s': State)
    requires n <= |list| && forall i | 0 <= i < n :: list[i] in f.code && f.code[list[i]].op == Phi
    requires PhiStep(m, f, list, n, s, s')
    ensures s'.path == s.path && s'.pc == n && forall k: nat | k < n :: !IsSizedStore(f.code[list[k]])
  {
  }

  lemma InstrElsewhere(m: Machine, id: Id, instr: Instr, s: State, s': State)
    requires InstrStep(m, id, instr, s, s')
    ensures IsSizedStore(instr) ==> IsPlain(instr.op)
    ensures s'.ret.Some? || s'.pc == 0 || (s'.path == s.path && s'.pc == s.pc + 1)
  {
  }

  lemma NothingWaitsAfter(m: Machine, f: Function, s: State, s': State)
    requires Elsewhere(f, s) && Step(m, f, s, s')
    ensures WaitingPlaces(m, f, s) == {} && WaitingPlaces(m, f, s') == {}
  {
    hide Step, Elsewhere, MadeUpFor;
    RunsOn(m, f, s, s');
    NothingWaitsElsewhere(m, f, s);
    StepElsewhere(m, f, s, s');
    if s'.ret.None? && s'.pc > 0 {
      var list := f.blocks[Last(s.path)];
      forall k: nat, j: nat
        ensures !Waiting(f, list, s'.pc, k, j)
      {
        if Waiting(f, list, s'.pc, k, j) {
          MadeUpStore(f, list, k, j);
          WaitedBefore(f, list, s.pc, s'.pc, k, j);
          SomeWaiting(m, f, s, k, j);
        }
      }
    }
  }

  lemma WaitedBefore(f: Function, list: seq<Id>, pc: nat, pc': nat, k: nat, j: nat)
    requires Waiting(f, list, pc', k, j) && k < pc <= pc'
    ensures Waiting(f, list, pc, k, j)
  {
  }

  lemma MadeUpStore(f: Function, list: seq<Id>, k: nat, j: nat)
    requires MadeUpFor(list, f.code, k, j)
    ensures k < |list| && list[k] in f.code && IsSizedStore(f.code[list[k]])
  {
  }

  lemma OtherForward(m: Machine, f: Function, plan: Plan, s: State, s': State, t: State)
    requires Harmless(m, f, plan) && Chained(m, f, plan, s, t) && !AtDead(f, plan, s) && Step(m, f, s, s')
    requires Elsewhere(f, s)
    ensures (Ahead(s, s') && Chained(m, f, plan, s', t))
         || exists t' :: Step(m, Rewrite(f, plan), t, t') && Chained(m, f, plan, s', t')
  {
    hide *;
    ChainedMeans(m, f, plan, s, t);
    NothingWaitsAfter(m, f, s, s');
    AgreeNowhere(m, s.mem, t.mem);
    AgreeNowhere(m, s'.mem, s'.mem);
    SameBut(f, plan, s, t.mem);
    MatchForward(m, f, plan, s, s', t, s'.mem);
  }

  lemma PlainHere(f: Function, s: State) returns (id: Id)
    requires !Elsewhere(f, s)
    ensures AtPlain(f, s, id) && id in f.code && (IsSizedStore(f.code[id]) || !IsMem(f.code[id].op))
  {
    id :| AtPlain(f, s, id) && !(!IsSizedStore(f.code[id]) && IsMem(f.code[id].op));
  }

  lemma ChainedForward(m: Machine, f: Function, plan: Plan, s: State, s': State, t: State)
    requires Harmless(m, f, plan) && Chained(m, f, plan, s, t) && Step(m, f, s, s')
    ensures (Ahead(s, s') && Chained(m, f, plan, s', t))
         || exists t' :: Step(m, Rewrite(f, plan), t, t') && Chained(m, f, plan, s', t')
  {
    hide *;
    if AtDead(f, plan, s) {
      RemovedForward(m, f, plan, s, s', t);
    } else if Elsewhere(f, s) {
      OtherForward(m, f, plan, s, s', t);
    } else {
      var id := PlainHere(f, s);
      if IsSizedStore(f.code[id]) {
        StoreForward(m, f, plan, s, s', t, id);
      } else {
        BystanderForward(m, f, plan, s, s', t, id);
      }
    }
  }

  // ----- And back

  /** A step of the other function, from the memory it has. */
  lemma MatchBackward(m: Machine, f: Function, plan: Plan, s: State, u1: State, t: State, t': State)
    returns (matched: bool, s2: State)
    requires Harmless(m, f, plan) && Related(f, plan, s.(mem := t.mem), t) && !AtDead(f, plan, s)
    requires Step(m, f, s.(mem := t.mem), u1) && Step(m, Rewrite(f, plan), t, t')
    ensures Step(m, f, s.(mem := t.mem), s2)
    ensures if matched then Related(f, plan, s2, t') && t'.mem == s2.mem
            else Related(f, plan, s2, t) && t.mem == s2.mem && Ahead(s.(mem := t.mem), s2)
  {
    hide *;
    HarmlessMeans(m, f, plan);
    SameBut(f, plan, s, t.mem);
    matched, s2 := CatchUp(m, f, plan, s.(mem := t.mem), u1, t, t');
    RelatedMemory(f, plan, s2, t');
    RelatedMemory(f, plan, s2, t);
  }

  lemma ChainedFrom(m: Machine, f: Function, plan: Plan, s': State, s2: State, t: State)
    requires s' == s2.(mem := s'.mem) && Agree(m, WaitingPlaces(m, f, s'), s'.mem, s2.mem)
    requires Related(f, plan, s2, t) && t.mem == s2.mem
    ensures Chained(m, f, plan, s', t)
  {
    hide Related, Agree, WaitingPlaces;
    assert s'.(mem := t.mem) == s2;
  }

  lemma StoreBackward(m: Machine, f: Function, plan: Plan, s: State, s1: State, t: State, t': State, id: Id)
    returns (s': State)
    requires Harmless(m, f, plan) && Chained(m, f, plan, s, t) && !AtDead(f, plan, s)
    requires Step(m, f, s, s1) && Step(m, Rewrite(f, plan), t, t')
    requires AtPlain(f, s, id) && id in f.code && IsSizedStore(f.code[id])
    ensures Step(m, f, s, s') && (Chained(m, f, plan, s', t') || (Ahead(s, s') && Chained(m, f, plan, s', t)))
  {
    hide *;
    HarmlessMeans(m, f, plan);
    ChainedMeans(m, f, plan, s, t);
    var u, places := s.(mem := t.mem), WaitingPlaces(m, f, s);
    AtStore(m, f, s, s1, id);
    StoreSteps(m, id, f.code[id], s, s1, t.mem, s1.mem);
    var mem1 := AgreeBoth(m, places, EventOf(m, f.code[id], s, s1.env[id]), s.mem, s1.mem, t.mem);
    StoreSteps(m, id, f.code[id], s, s1, t.mem, mem1);
    AtStore(m, f, u, s1.(mem := mem1), id);
    var matched, s2 := MatchBackward(m, f, plan, s, s1.(mem := mem1), t, t');
    AtStore(m, f, u, s2, id);
    StoreSteps(m, id, f.code[id], u, s2, s.mem, s2.mem);
    EventSame(m, f.code[id], s, t.mem, s2.env[id]);
    var e := EventOf(m, f.code[id], s, s2.env[id]);
    AgreeSwaps(m, places, s.mem, t.mem);
    var mem' := AgreeBoth(m, places, e, t.mem, s2.mem, s.mem);
    StoreSteps(m, id, f.code[id], u, s2, s.mem, mem');
    AgreeSwaps(m, Unfilled(places, e), s2.mem, mem');
    s' := s2.(mem := mem');
    MemTwice(s, t.mem, s.mem);
    SameBut(f, plan, s, t.mem);
    AtStore(m, f, s, s', id);
    MovesToo(u, s2, s, s', id);
    PlaceIsEvents(m, f, s, id, s2.env[id]);
    StorePlaces(m, f, s, s', id, e);
    AgreeMore(m, Unfilled(places, e), WaitingPlaces(m, f, s'), mem', s2.mem);
    if matched { ChainedFrom(m, f, plan, s', s2, t'); } else { ChainedFrom(m, f, plan, s', s2, t); }
    AheadToo(s, t.mem, s2, mem');
  }

  lemma EventSame(m: Machine, instr: Instr, s: State, mem: Memory, result: Word)
    requires IsSizedStore(instr)
    ensures EventOf(m, instr, s.(mem := mem), result) == EventOf(m, instr, s, result)
  {
  }

  lemma MovesToo(u: State, s2: State, s: State, s': State, id: Id)
    requires Moves(u, s2, id) && u == s.(mem := u.mem) && s' == s2.(mem := s'.mem)
    ensures Moves(s, s', id)
  {
  }

  lemma AheadToo(s: State, mem: Memory, s2: State, mem': Memory)
    ensures Ahead(s.(mem := mem), s2) <==> Ahead(s, s2.(mem := mem'))
  {
  }

  lemma BystanderBackward(m: Machine, f: Function, plan: Plan, s: State, s1: State, t: State, t': State, id: Id)
    returns (s': State)
    requires Harmless(m, f, plan) && Chained(m, f, plan, s, t) && !AtDead(f, plan, s)
    requires Step(m, f, s, s1) && Step(m, Rewrite(f, plan), t, t')
    requires AtPlain(f, s, id) && id in f.code && !IsMem(f.code[id].op)
    ensures Step(m, f, s, s') && (Chained(m, f, plan, s', t') || (Ahead(s, s') && Chained(m, f, plan, s', t)))
  {
    hide *;
    HarmlessMeans(m, f, plan);
    ChainedMeans(m, f, plan, s, t);
    var u := s.(mem := t.mem);
    BystanderSteps(m, f, s, s1, id, t.mem);
    var matched, s2 := MatchBackward(m, f, plan, s, s1.(mem := t.mem), t, t');
    PlainAnyway(f, s, t.mem, id);
    BystanderSteps(m, f, u, s2, id, s.mem);
    s' := s2.(mem := s.mem);
    MemTwice(s, t.mem, s.mem);
    SameBut(f, plan, s, t.mem);
    MovesToo(u, s2, s, s', id);
    BystanderPlaces(m, f, s, s', id);
    AgreeMore(m, WaitingPlaces(m, f, s), WaitingPlaces(m, f, s'), s.mem, t.mem);
    if matched { ChainedFrom(m, f, plan, s', s2, t'); } else { ChainedFrom(m, f, plan, s', s2, t); }
    AheadToo(s, t.mem, s2, s.mem);
  }

  lemma OtherBackward(m: Machine, f: Function, plan: Plan, s: State, s1: State, t: State, t': State) returns (s': State)
    requires Harmless(m, f, plan) && Chained(m, f, plan, s, t) && !AtDead(f, plan, s) && Elsewhere(f, s)
    requires Step(m, f, s, s1) && Step(m, Rewrite(f, plan), t, t')
    ensures Step(m, f, s, s') && (Chained(m, f, plan, s', t') || (Ahead(s, s') && Chained(m, f, plan, s', t)))
  {
    hide *;
    ChainedMeans(m, f, plan, s, t);
    NothingWaitsAfter(m, f, s, s1);
    AgreeNowhere(m, s.mem, t.mem);
    SameBut(f, plan, s, t.mem);
    var matched, s2 := MatchBackward(m, f, plan, s, s1, t, t');
    s' := s2;
    NothingWaitsAfter(m, f, s, s');
    AgreeNowhere(m, s'.mem, s'.mem);
    if matched { ChainedFrom(m, f, plan, s', s2, t'); } else { ChainedFrom(m, f, plan, s', s2, t); }
  }

  lemma ChainedBackward(m: Machine, f: Function, plan: Plan, s: State, s1: State, t: State, t': State)
    requires Harmless(m, f, plan) && Chained(m, f, plan, s, t) && Step(m, Rewrite(f, plan), t, t') && Step(m, f, s, s1)
    ensures exists s' :: Step(m, f, s, s')
                         && (Chained(m, f, plan, s', t') || (Ahead(s, s') && Chained(m, f, plan, s', t)))
  {
    hide *;
    if AtDead(f, plan, s) {
      RemovedForward(m, f, plan, s, s1, t);
    } else if Elsewhere(f, s) {
      var s' := OtherBackward(m, f, plan, s, s1, t, t');
    } else {
      var id := PlainHere(f, s);
      if IsSizedStore(f.code[id]) {
        var s' := StoreBackward(m, f, plan, s, s1, t, t', id);
      } else {
        var s' := BystanderBackward(m, f, plan, s, s1, t, t', id);
      }
    }
  }

  lemma ChainedAlike(m: Machine, f: Function, plan: Plan, s: State, t: State)
    requires Chained(m, f, plan, s, t)
    ensures Alike(f, s, t)
  {
    hide Agree;
    AgreeNowhere(m, s.mem, t.mem);
  }

  lemma ChainedStart(m: Machine, f: Function, plan: Plan, s: State)
    requires Harmless(m, f, plan)
    ensures Initial(f, s) <==> Initial(Rewrite(f, plan), s)
    ensures Initial(f, s) ==> Chained(m, f, plan, s, s)
  {
    HarmlessMeans(m, f, plan);
    hide Harmless, StorePlan, Closed, StoresBlind, LaterStoreWins, MemoryListed, Agree, Related;
    InitialRelated(m, f, plan, s);
    assert s.(mem := s.mem) == s;
    AgreeNowhere(m, s.mem, s.mem);
    if Initial(f, s) {
      AgreeMore(m, {}, WaitingPlaces(m, f, s), s.mem, s.mem);
    }
  }

  /**
   Removing dead stores preserves all runs where every store removed is made up for: the next
   one has the same pointer and is at least as wide, and what stands between, other stores included, gives
   no pointer, reads no memory and calls nothing.
   */
  lemma DeadStoreChainsPreserveRuns(m: Machine, f: Function)
    requires WellFormed(f) && StoresMadeUp(f) && StoresUnused(f) && StoreLaws(m) && MemoryListed(m)
    ensures Preserves(m, f, Rewrite(f, StorePlan(f)))
  {
    var plan := StorePlan(f);
    var g := Rewrite(f, plan);
    assert Harmless(m, f, plan);
    var r: Relation := (s: State, t: State) => Chained(m, f, plan, s, t);
    hide Harmless, WellFormed, StorePlan, StoresMadeUp, StoresUnused, StoreLaws, MemoryListed, Chained, Rewrite, Step,
         Initial, Alike;
    forall s
      ensures Initial(f, s) <==> Initial(g, s)
      ensures Initial(f, s) ==> r(s, s)
    {
      ChainedStart(m, f, plan, s);
    }
    forall s, t | r(s, t)
      ensures Alike(f, s, t)
    {
      ChainedAlike(m, f, plan, s, t);
    }
    forall s, s', t | r(s, t) && Step(m, f, s, s')
      ensures Follows(m, g, r, s, s', t)
    {
      ChainedForward(m, f, plan, s, s', t);
    }
    forall s, s1, t, t' | r(s, t) && Step(m, g, t, t') && Step(m, f, s, s1)
      ensures Precedes(m, f, r, s, t, t')
    {
      ChainedBackward(m, f, plan, s, s1, t, t');
    }
    SimulationPreserves(m, f, g, r);
  }
}
