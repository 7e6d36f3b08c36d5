/**
 Lines of stores on the byte machine: exactly when a store may be left out, and exactly when
 the scan for dead stores is harmless, whatever the pointers are.
 */
module DeadStoreLines {
  import opened IR
  import opened Erasure
  import opened DeadStores
  import opened DeadStoreRuns
  import opened DeadStoreChains
  import opened ByteMemory

  // ----- When a store may be left out of a line of stores

  /** The memory after the stores. */
  function AfterStores(events: seq<StoreEvent>, mem: Memory): Memory {
    if events == [] then mem
    else
      AfterStores(events[1..], StoreBytes(mem, events[0].pointer.bits, events[0].value.bits,
                                          StoreWidth(events[0].op, events[0].ty)))
  }

  ghost predicate AreStores(events: seq<StoreEvent>) {
    forall e | e in events :: KnownWidth(e.op) && e.result == Word(0, 0)
  }

  lemma {:induction false} StoresRun(events: seq<StoreEvent>, mem: Memory, end: Memory)
    requires AreStores(events)
    ensures StoreRun(ByteMachine(), events, mem, end) <==> end == AfterStores(events, mem)
    decreases |events|
  {
    hide StoreBytes, ByteMachine, DoesStore, StoreWidth;
    if events != [] {
      var e := events[0];
      assert e in events;
      var mid0 := StoreBytes(mem, e.pointer.bits, e.value.bits, StoreWidth(e.op, e.ty));
      ByteStores(e, mem, mid0);
      StoresRun(events[1..], mid0, end);
      forall mid: Memory | DoesStore(ByteMachine(), e, mem, mid)
        ensures mid == mid0
      {
        ByteStores(e, mem, mid);
      }
    }
  }

  predicate Touches(e: StoreEvent, x: nat) {
    e.pointer.bits <= x < e.pointer.bits + StoreWidth(e.op, e.ty)
  }

  lemma {:induction false} Untouched(events: seq<StoreEvent>, mem: Memory, x: nat)
    requires forall e | e in events :: !Touches(e, x)
    ensures x in AfterStores(events, mem) <==> x in mem
    decreases |events|
  {
    hide StoreBytes, StoreWidth;
    if events != [] {
      var e := events[0];
      assert e in events;
      StoreElsewhere(mem, e.pointer.bits, e.value.bits, StoreWidth(e.op, e.ty), x);
      Untouched(events[1..], StoreBytes(mem, e.pointer.bits, e.value.bits, StoreWidth(e.op, e.ty)), x);
    }
  }

  /** Stores one after the other, as instructions. */
  predicate IsLine(line: seq<Instr>) {
    forall i | 0 <= i < |line| :: IsSizedStore(line[i])
  }

  /** What a name stands for. */
  function Held(at: map<Value, Word>, v: Value): Word {
    if v in at then at[v] else Word(0, 0)
  }

  function Events(line: seq<Instr>, at: map<Value, Word>): (events: seq<StoreEvent>)
    requires IsLine(line)
    ensures |events| == |line| && AreStores(events)
    ensures forall i | 0 <= i < |line| :: events[i] == StoreEvent(line[i].op, line[i].ty, Held(at, line[i].operands[0]),
                                                                  Held(at, line[i].operands[1]), Word(0, 0))
  {
    seq(|line|, i requires 0 <= i < |line| =>
      StoreEvent(line[i].op, line[i].ty, Held(at, line[i].operands[0]), Held(at, line[i].operands[1]), Word(0, 0)))
  }

  /** Whatever the names stand for and memory holds, the line does the same without its first store. */
  ghost predicate NotMissed(line: seq<Instr>)
    requires IsLine(line) && line != []
  {
    forall at: map<Value, Word>, mem: Memory, end: Memory ::
      StoreRun(ByteMachine(), Events(line, at), mem, end) <==> StoreRun(ByteMachine(), Events(line, at)[1..], mem, end)
  }

  /** A later store to the pointer, as the operands name it, is at least as wide. */
  ghost predicate WrittenOver(line: seq<Instr>)
    requires IsLine(line) && line != []
  {
    exists j :: 0 < j < |line| && line[j].operands[1] == line[0].operands[1] && AtLeastAsWide(line[j], line[0])
  }

  lemma NotMissedIf(line: seq<Instr>)
    requires IsLine(line) && line != [] && WrittenOver(line)
    ensures NotMissed(line)
  {
    forall at: map<Value, Word>, mem: Memory, end: Memory
      ensures StoreRun(ByteMachine(), Events(line, at), mem, end)
              <==> StoreRun(ByteMachine(), Events(line, at)[1..], mem, end)
    {
      hide StoreRun, ByteMachine, WrittenOver, AreStores;
      WrittenOverCovers(line, at);
      WrittenOverRun(Events(line, at), mem, end);
    }
  }

  lemma WrittenOverCovers(line: seq<Instr>, at: map<Value, Word>)
    requires IsLine(line) && line != [] && WrittenOver(line)
    ensures Covers(Events(line, at)[1..], PlaceOf(Events(line, at)[0]))
  {
    var j :| 0 < j < |line| && line[j].operands[1] == line[0].operands[1] && AtLeastAsWide(line[j], line[0]);
    var events := Events(line, at);
    hide StoreWidth, IsLine, AreStores, Held;
    assert events[1..][j - 1] == events[j];
    assert Fills(events[j], PlaceOf(events[0]));
  }

  lemma WrittenOverRun(events: seq<StoreEvent>, mem: Memory, end: Memory)
    requires AreStores(events) && events != [] && Covers(events[1..], PlaceOf(events[0]))
    ensures StoreRun(ByteMachine(), events, mem, end) <==> StoreRun(ByteMachine(), events[1..], mem, end)
  {
    hide StoreBytes, ByteMachine, DoesStore, StoreRun, Covers;
    var e := events[0];
    assert e in events;
    var mid := StoreBytes(mem, e.pointer.bits, e.value.bits, StoreWidth(e.op, e.ty));
    ByteStores(e, mem, mid);
    ByteMachineStoreLaws();
    FirstEvent(ByteMachine(), e, events[1..], mem, mid, end);
    assert [e] + events[1..] == events;
  }

  lemma NoBytes(line: seq<Instr>)
    requires IsLine(line) && line != [] && StoreWidth(line[0].op, line[0].ty) == 0
    ensures NotMissed(line)
  {
    forall at: map<Value, Word>, mem: Memory, end: Memory
      ensures StoreRun(ByteMachine(), Events(line, at), mem, end)
              <==> StoreRun(ByteMachine(), Events(line, at)[1..], mem, end)
    {
      var events := Events(line, at);
      hide StoreRun, ByteMachine;
      StoresRun(events, mem, end);
      StoresRun(events[1..], mem, end);
    }
  }

  function Widest(line: seq<Instr>): (n: nat)
    ensures forall i | 0 <= i < |line| :: StoreWidth(line[i].op, line[i].ty) <= n
  {
    if line == [] then 0
    else
      var n, rest := StoreWidth(line[0].op, line[0].ty), Widest(line[1..]);
      assert forall i | 0 < i < |line| :: line[i] == line[1..][i - 1];
      if n > rest then n else rest
  }

  /** The names but one stand for 0, and that one for an address out of their reach. */
  function Far(line: seq<Instr>, k: nat): map<Value, Word>
    requires IsLine(line) && k < |line|
  {
    map[line[k].operands[1] := Word(64, Widest(line))]
  }

  function LastByte(line: seq<Instr>, k: nat): nat
    requires IsLine(line) && k < |line| && StoreWidth(line[k].op, line[k].ty) > 0
  {
    Widest(line) + StoreWidth(line[k].op, line[k].ty) - 1
  }

  lemma FarMissed(line: seq<Instr>, k: nat, j: nat)
    requires IsLine(line) && k < |line| && j < |line| && StoreWidth(line[k].op, line[k].ty) > 0
    requires line[j].operands[1] == line[k].operands[1] ==> !AtLeastAsWide(line[j], line[k])
    ensures !Touches(Events(line, Far(line, k))[j], LastByte(line, k))
  {
  }

  lemma LaterMissed(line: seq<Instr>, k: nat, j: nat)
    requires IsLine(line) && k < j < |line| && !WrittenOver(line[k..])
    ensures line[j].operands[1] == line[k].operands[1] ==> !AtLeastAsWide(line[j], line[k])
  {
    assert line[k..][j - k] == line[j] && line[k..][0] == line[k];
  }

  /** A byte written by store k, and by none after it, is there in the end. */
  lemma {:induction false} StillThere(events: seq<StoreEvent>, k: nat, x: nat, mem: Memory)
    requires k < |events| && Touches(events[k], x)
    requires forall j | k < j < |events| :: !Touches(events[j], x)
    ensures x in AfterStores(events, mem)
    decreases |events|
  {
    var e := events[0];
    var mid := StoreBytes(mem, e.pointer.bits, e.value.bits, StoreWidth(e.op, e.ty));
    if k == 0 {
      StoreHere(mem, mem, e.pointer.bits, e.value.bits, StoreWidth(e.op, e.ty), x);
      hide StoreBytes, StoreWidth, Touches;
      Untouched(events[1..], mid, x);
    } else {
      hide StoreBytes, StoreWidth, Touches;
      StillThere(events[1..], k - 1, x, mid);
    }
  }

  lemma FarTouched(line: seq<Instr>, k: nat)
    requires IsLine(line) && k < |line| && StoreWidth(line[k].op, line[k].ty) > 0
    ensures Touches(Events(line, Far(line, k))[k], LastByte(line, k))
  {
  }

  /** With its pointer beyond the reach of all others, the last byte of the first store stays. */
  lemma LastByteStays(line: seq<Instr>)
    requires IsLine(line) && line != [] && StoreWidth(line[0].op, line[0].ty) > 0 && !WrittenOver(line)
    ensures !NotMissed(line)
  {
    var at, x := Far(line, 0), LastByte(line, 0);
    var events := Events(line, at);
    assert line[0..] == line;
    hide Touches, WrittenOver, StoreWidth, Far, LastByte, AfterStores, StoreRun, ByteMachine, AreStores, IsLine, Held;
    forall j: nat | 0 < j < |line|
      ensures !Touches(events[j], x)
    {
      LaterMissed(line, 0, j);
      FarMissed(line, 0, j);
    }
    FarTouched(line, 0);
    StillThere(events, 0, x, map[]);
    forall e | e in events[1..]
      ensures !Touches(e, x)
    {
      var j :| 0 <= j < |events| - 1 && events[1..][j] == e;
      assert events[j + 1] == e;
    }
    Untouched(events[1..], map[], x);
    StoresRun(events, map[], AfterStores(events, map[]));
    StoresRun(events[1..], map[], AfterStores(events, map[]));
  }

  /**
   A store may be left out of a line of stores, whatever the names stand for and memory holds,
   exactly when it writes nothing or a later store to the same name is at least as wide.
   */
  lemma WrittenOverExactly(line: seq<Instr>)
    requires IsLine(line) && line != []
    ensures NotMissed(line) <==> StoreWidth(line[0].op, line[0].ty) == 0 || WrittenOver(line)
  {
    hide NotMissed, WrittenOver, IsLine;
    if StoreWidth(line[0].op, line[0].ty) == 0 {
      NoBytes(line);
    } else if WrittenOver(line) {
      NotMissedIf(line);
    } else {
      LastByteStays(line);
    }
  }

  // ----- When the scan may run over a line of stores

  predicate OnlyStores(list: seq<Id>, code: map<Id, Instr>) {
    forall id | id in list :: id in code && IsSizedStore(code[id])
  }

  function Line(list: seq<Id>, code: map<Id, Instr>): (line: seq<Instr>)
    requires OnlyStores(list, code)
    ensures |line| == |list| && IsLine(line)
    ensures forall i | 0 <= i < |list| :: line[i] == code[list[i]]
  {
    seq(|list|, i requires 0 <= i < |list| => code[list[i]])
  }

  /** The memory after the stores of the line. */
  function AfterLine(line: seq<Instr>, at: map<Value, Word>, mem: Memory): Memory
    requires IsLine(line)
  {
    AfterStores(Events(line, at), mem)
  }

  function AfterOne(store: Instr, at: map<Value, Word>, mem: Memory): Memory
    requires IsSizedStore(store)
  {
    StoreBytes(mem, Held(at, store.operands[1]).bits, Held(at, store.operands[0]).bits, StoreWidth(store.op, store.ty))
  }

  lemma AfterFirst(store: Instr, line: seq<Instr>, at: map<Value, Word>, mem: Memory)
    requires IsSizedStore(store) && IsLine(line)
    ensures IsLine([store] + line)
    ensures AfterLine([store] + line, at, mem) == AfterLine(line, at, AfterOne(store, at, mem))
  {
    assert Events([store] + line, at)[1..] == Events(line, at);
  }

  /** The first of the line may go. */
  ghost predicate Spare(line: seq<Instr>)
    requires IsLine(line) && line != []
  {
    StoreWidth(line[0].op, line[0].ty) == 0 || WrittenOver(line)
  }

  lemma NotMissedMeans(line: seq<Instr>, at: map<Value, Word>, mem: Memory)
    requires IsLine(line) && line != [] && NotMissed(line)
    ensures AfterStores(Events(line, at), mem) == AfterStores(Events(line, at)[1..], mem)
  {
    hide StoreRun, ByteMachine, AfterStores, IsLine;
    var events := Events(line, at);
    StoresRun(events, mem, AfterStores(events, mem));
    StoresRun(events[1..], mem, AfterStores(events, mem));
  }

  lemma LineRest(store: Instr, line: seq<Instr>, at: map<Value, Word>)
    requires IsLine([store] + line) && IsLine(line)
    ensures Events([store] + line, at)[1..] == Events(line, at)
  {
    hide *;
    var all, rest := [store] + line, Events(line, at);
    forall i: nat | i < |rest|
      ensures Events(all, at)[1..][i] == rest[i]
    {
      assert all[i + 1] == line[i];
    }
  }

  lemma RestIsLine(store: Instr, line: seq<Instr>)
    requires IsLine([store] + line)
    ensures IsLine(line)
  {
    var all := [store] + line;
    hide IsSizedStore;
    assert forall i | 0 <= i < |line| :: line[i] == all[i + 1];
  }

  lemma SpareNotMissed(line: seq<Instr>)
    requires IsLine(line) && line != [] && Spare(line)
    ensures NotMissed(line)
  {
    hide WrittenOver, NotMissed, StoreWidth;
    WrittenOverExactly(line);
  }

  lemma FirstLeftOut(store: Instr, line: seq<Instr>, at: map<Value, Word>, mem: Memory)
    requires IsLine([store] + line) && Spare([store] + line)
    ensures IsLine(line) && AfterLine([store] + line, at, mem) == AfterLine(line, at, mem)
  {
    RestIsLine(store, line);
    LineRest(store, line, at);
    hide IsLine, Spare, NotMissed, AfterStores, Events;
    SpareNotMissed([store] + line);
    NotMissedMeans([store] + line, at, mem);
  }

  lemma LineHead(id: Id, list: seq<Id>, code: map<Id, Instr>)
    requires OnlyStores([id] + list, code)
    ensures OnlyStores(list, code) && id in code && IsSizedStore(code[id])
    ensures Line([id] + list, code) == [code[id]] + Line(list, code)
  {
    assert id in [id] + list;
    assert forall x | x in list :: x in [id] + list;
    assert Line([id] + list, code) == [code[id]] + Line(list, code);
  }

  lemma KeepHead(id: Id, list: seq<Id>, dead: set<Id>)
    ensures Keep([id] + list, dead) == if id in dead then Keep(list, dead) else [id] + Keep(list, dead)
  {
    assert ([id] + list)[1..] == list;
  }

  lemma OnlyKept(list: seq<Id>, code: map<Id, Instr>, dead: set<Id>)
    requires OnlyStores(list, code)
    ensures OnlyStores(Keep(list, dead), code)
  {
    KeepMembers(list, dead);
  }

  /** Those of the listed stores that are gone could go. */
  ghost predicate SpareGone(list: seq<Id>, code: map<Id, Instr>, dead: set<Id>)
    requires OnlyStores(list, code)
  {
    forall k | 0 <= k < |list| && list[k] in dead :: Spare(Line(list, code)[k..])
  }

  lemma SpareGoneTail(id: Id, list: seq<Id>, code: map<Id, Instr>, dead: set<Id>)
    requires OnlyStores([id] + list, code) && SpareGone([id] + list, code, dead)
    ensures OnlyStores(list, code) && SpareGone(list, code, dead)
    ensures id in dead ==> Spare(Line([id] + list, code))
  {
    LineHead(id, list, code);
    var all := [id] + list;
    assert Line(all, code)[0..] == Line(all, code);
    hide Spare, OnlyStores;
    forall k | 0 <= k < |list| && list[k] in dead
      ensures Spare(Line(list, code)[k..])
    {
      assert all[k + 1] == list[k];
      assert Line(list, code)[k..] == Line(all, code)[k + 1..];
    }
    assert all[0] == id;
  }

  /** Leaving out stores of the list that may go. */
  lemma {:induction false} SpareLeftOut(list: seq<Id>, code: map<Id, Instr>, dead: set<Id>, at: map<Value, Word>,
                                        mem: Memory)
    requires OnlyStores(list, code) && SpareGone(list, code, dead)
    ensures OnlyStores(Keep(list, dead), code)
    ensures AfterLine(Line(Keep(list, dead), code), at, mem) == AfterLine(Line(list, code), at, mem)
    decreases |list|
  {
    OnlyKept(list, code, dead);
    if list == [] {
      assert Keep(list, dead) == list;
    } else {
      hide *;
      var id, rest := list[0], list[1..];
      assert list == [id] + rest;
      LineHead(id, rest, code);
      KeepHead(id, rest, dead);
      OnlyKept(rest, code, dead);
      SpareGoneTail(id, rest, code, dead);
      if id in dead {
        FirstLeftOut(code[id], Line(rest, code), at, mem);
        SpareLeftOut(rest, code, dead, at, mem);
      } else {
        AfterFirst(code[id], Line(rest, code), at, mem);
        SpareLeftOut(rest, code, dead, at, AfterOne(code[id], at, mem));
        LineHead(id, Keep(rest, dead), code);
        AfterFirst(code[id], Line(Keep(rest, dead), code), at, mem);
      }
    }
  }

  /** Whatever the names stand for, the listed stores without the dead ones do the same. */
  ghost predicate ScanHarmless(list: seq<Id>, code: map<Id, Instr>)
    requires OnlyStores(list, code)
  {
    var kept := Keep(list, DeadStoresFrom(list, code, 0));
    KeepMembers(list, DeadStoresFrom(list, code, 0));
    forall at: map<Value, Word>, mem: Memory ::
        AfterLine(Line(kept, code), at, mem) == AfterLine(Line(list, code), at, mem)
  }

  /** What the scan removes may go. */
  ghost predicate DeadSpare(list: seq<Id>, code: map<Id, Instr>)
    requires OnlyStores(list, code)
  {
    forall k: nat | IsDeadStore(list, code, k) :: Spare(Line(list, code)[k..])
  }

  lemma DeadHere(list: seq<Id>, code: map<Id, Instr>, k: nat)
    requires (forall id | id in list :: id in code) && (forall i, j | 0 <= i < j < |list| :: list[i] != list[j])
    requires k < |list|
    ensures list[k] in DeadStoresFrom(list, code, 0) <==> IsDeadStore(list, code, k)
  {
    hide IsDeadStore;
  }

  /** In a line of stores, a store is dead if its pointer is named again. */
  lemma NamedAgain(list: seq<Id>, code: map<Id, Instr>, i: nat, k: nat)
    requires OnlyStores(list, code) && i < k < |list|
    requires code[list[i]].operands[1] == code[list[k]].operands[1] != Null
    ensures IsDeadStore(list, code, i)
  {
    assert forall j | 0 <= j < |list| :: list[j] in list;
    assert StoresTo(code[list[k]], code[list[i]].operands[1]);
    assert Undisturbed(list, code, i + 1, k, code[list[i]].operands[1]);
  }

  lemma DeadPointer(list: seq<Id>, code: map<Id, Instr>, k: nat)
    requires (forall id | id in list :: id in code) && IsDeadStore(list, code, k)
    ensures k < |list| && list[k] in code && |code[list[k]].operands| >= 2 && code[list[k]].operands[1] != Null
  {
    assert list[k] in list;
  }

  /** Neither a later store nor a kept one writes the last byte. */
  lemma OthersMissed(list: seq<Id>, code: map<Id, Instr>, k: nat, j: nat)
    requires OnlyStores(list, code) && forall i, j | 0 <= i < j < |list| :: list[i] != list[j]
    requires IsDeadStore(list, code, k) && StoreWidth(code[list[k]].op, code[list[k]].ty) > 0
    requires !WrittenOver(Line(list, code)[k..])
    requires j < |list| && (j > k || list[j] !in DeadStoresFrom(list, code, 0))
    ensures !Touches(Events(Line(list, code), Far(Line(list, code), k))[j], LastByte(Line(list, code), k))
  {
    var line := Line(list, code);
    hide *;
    DeadPointer(list, code, k);
    DeadHere(list, code, j);
    DeadHere(list, code, k);
    if j > k {
      LaterMissed(line, k, j);
    } else if j < k && code[list[j]].operands[1] == code[list[k]].operands[1] {
      NamedAgain(list, code, j, k);
    }
    FarMissed(line, k, j);
  }

  lemma EventAt(list: seq<Id>, code: map<Id, Instr>, kept: seq<Id>, at: map<Value, Word>, e: StoreEvent)
    returns (j: nat)
    requires OnlyStores(list, code) && OnlyStores(kept, code) && forall id | id in kept :: id in list
    requires e in Events(Line(kept, code), at)
    ensures j < |list| && list[j] in kept && Events(Line(list, code), at)[j] == e
  {
    var i :| 0 <= i < |kept| && Events(Line(kept, code), at)[i] == e;
    assert kept[i] in kept;
    j :| 0 <= j < |list| && list[j] == kept[i];
  }

  /** A dead store that may not go leaves a byte that no kept store writes. */
  lemma DeadByteLost(list: seq<Id>, code: map<Id, Instr>, k: nat)
    requires OnlyStores(list, code) && forall i, j | 0 <= i < j < |list| :: list[i] != list[j]
    requires IsDeadStore(list, code, k) && !Spare(Line(list, code)[k..])
    ensures !ScanHarmless(list, code)
  {
    var dead := DeadStoresFrom(list, code, 0);
    var line, kept := Line(list, code), Keep(list, dead);
    KeepMembers(list, dead);
    DeadPointer(list, code, k);
    assert StoreWidth(line[k].op, line[k].ty) > 0 && !WrittenOver(line[k..]);
    OnlyKept(list, code, dead);
    hide Spare, IsDeadStore, DeadStoresFrom, Keep, WrittenOver, Touches, StoreWidth, Far, LastByte, AfterStores,
         OnlyStores;
    var at, x := Far(line, k), LastByte(line, k);
    var events, keptEvents := Events(line, at), Events(Line(kept, code), at);
    forall j: nat | j < |list| && (j > k || list[j] !in dead)
      ensures !Touches(events[j], x)
    {
      OthersMissed(list, code, k, j);
    }
    forall e | e in keptEvents
      ensures !Touches(e, x)
    {
      var j := EventAt(list, code, kept, at, e);
    }
    Untouched(keptEvents, map[], x);
    FarTouched(line, k);
    StillThere(events, k, x, map[]);
    assert AfterLine(Line(kept, code), at, map[]) != AfterLine(line, at, map[]);
  }

  lemma DeadMayGo(list: seq<Id>, code: map<Id, Instr>)
    requires OnlyStores(list, code) && (forall i, j | 0 <= i < j < |list| :: list[i] != list[j])
    requires DeadSpare(list, code)
    ensures SpareGone(list, code, DeadStoresFrom(list, code, 0))
  {
    hide IsDeadStore, DeadStoresFrom, Spare;
    forall k | 0 <= k < |list| && list[k] in DeadStoresFrom(list, code, 0)
      ensures Spare(Line(list, code)[k..])
    {
      DeadHere(list, code, k);
    }
  }

  /**
   Over a line of stores the scan is harmless, whatever the names stand for and memory holds,
   exactly when each store that it removes writes nothing or is followed by one to the same
   name that is at least as wide.
   */
  lemma ScanExactly(list: seq<Id>, code: map<Id, Instr>)
    requires OnlyStores(list, code) && forall i, j | 0 <= i < j < |list| :: list[i] != list[j]
    ensures ScanHarmless(list, code) <==> DeadSpare(list, code)
  {
    if DeadSpare(list, code) {
      DeadMayGo(list, code);
      hide IsDeadStore, DeadStoresFrom, Keep, AfterLine, Spare, DeadSpare;
      forall at: map<Value, Word>, mem: Memory
        ensures OnlyStores(Keep(list, DeadStoresFrom(list, code, 0)), code)
        ensures AfterLine(Line(Keep(list, DeadStoresFrom(list, code, 0)), code), at, mem)
                == AfterLine(Line(list, code), at, mem)
      {
        SpareLeftOut(list, code, DeadStoresFrom(list, code, 0), at, mem);
      }
    } else {
      hide IsDeadStore, Spare, ScanHarmless;
      var k: nat :| IsDeadStore(list, code, k) && !Spare(Line(list, code)[k..]);
      DeadByteLost(list, code, k);
    }
  }
}
