/**
 Stores that a later store to the same pointer makes superfluous: which ones the scan of
 a block removes, when removing them preserves all runs, and two programs for which it
 does not.
 */
module DeadStores {
  import opened IR
  import opened Erasure
  import opened DeadCode

  predicate IsLoad(op: Opcode) {
    || op.Load? || op.Loadd? || op.Loads? || op.Loadl? || op.Loaduw? || op.Loadsh? || op.Loaduh?
    || op.Loadsb? || op.Loadub? || op.VLoad? || op.VGather?
  }

  predicate IsCall(op: Opcode) {
    op.Call? || op.Syscall?
  }

  /** A load from the pointer, as the operands name it. */
  predicate LoadsFrom(i: Instr, ptr: Value) {
    IsLoad(i.op) && i.operands != [] && i.operands[0] == ptr
  }

  predicate StoresTo(i: Instr, ptr: Value) {
    IsStore(i.op) && |i.operands| >= 2 && i.operands[1] == ptr
  }

  /** Some store to ptr stands at k or later, with no load from ptr and no call before it. */
  ghost predicate Overwritten(list: seq<Id>, code: map<Id, Instr>, k: nat, ptr: Value)
    requires forall id | id in list :: id in code
  {
    exists j: nat :: k <= j < |list| && StoresTo(code[list[j]], ptr) && Undisturbed(list, code, k, j, ptr)
  }

  ghost predicate Undisturbed(list: seq<Id>, code: map<Id, Instr>, k: nat, j: nat, ptr: Value)
    requires j <= |list| && forall id | id in list :: id in code
  {
    forall i | k <= i < j :: !LoadsFrom(code[list[i]], ptr) && !IsCall(code[list[i]].op)
  }

  /** A store whose pointer is stored to again before anything the scan takes for a reader. */
  ghost predicate IsDeadStore(list: seq<Id>, code: map<Id, Instr>, k: nat)
    requires forall id | id in list :: id in code
  {
    && k < |list| && IsStore(code[list[k]].op) && |code[list[k]].operands| >= 2
    && code[list[k]].operands[1] != Null && Overwritten(list, code, k + 1, code[list[k]].operands[1])
  }

  ghost function DeadStoresFrom(list: seq<Id>, code: map<Id, Instr>, k: nat): set<Id>
    requires forall id | id in list :: id in code
  {
    set i: nat | k <= i < |list| && IsDeadStore(list, code, i) :: list[i]
  }

  predicate WritesTo(instr: Instr, ptr: Value) {
    && instr.op in {Store, Stored, Stores, Storel, Storeh, Storeb, VStore, VScatter}
    && |instr.operands| >= 2 && instr.operands[1] == ptr
  }

  predicate MayRead(instr: Instr, ptr: Value) {
    || instr.op in {Call, Syscall}
    || (instr.op in {Load, Loadd, Loads, Loadl, Loaduw, Loadsh, Loaduh, Loadsb, Loadub, VLoad, VGather}
        && instr.operands != [] && instr.operands[0] == ptr)
  }

  /** Dead stores, opcode by opcode: stored to again, with no load by that name and no call or system call before. */
  lemma DeadByOpcodes(list: seq<Id>, code: map<Id, Instr>, k: nat)
    requires forall id | id in list :: id in code
    ensures IsDeadStore(list, code, k) <==>
              && k < |list| && |code[list[k]].operands| >= 2
              && var ptr := code[list[k]].operands[1];
                 && ptr != Null && WritesTo(code[list[k]], ptr)
                 && exists j: nat :: k < j < |list| && WritesTo(code[list[j]], ptr)
                                     && forall i | k < i < j :: !MayRead(code[list[i]], ptr)
  {
    forall i: nat, ptr | i < |list|
      ensures StoresTo(code[list[i]], ptr) <==> WritesTo(code[list[i]], ptr)
      ensures LoadsFrom(code[list[i]], ptr) || IsCall(code[list[i]].op) <==> MayRead(code[list[i]], ptr)
    {
      OpcodesAre(code[list[i]].op);
    }
    if k < |list| && |code[list[k]].operands| >= 2 {
      assert StoresTo(code[list[k]], code[list[k]].operands[1]) <==> IsStore(code[list[k]].op);
    }
    hide StoresTo, LoadsFrom, IsCall, WritesTo, MayRead, IsStore;
    if IsDeadStore(list, code, k) {
      var ptr := code[list[k]].operands[1];
      var j: nat :| k + 1 <= j < |list| && StoresTo(code[list[j]], ptr) && Undisturbed(list, code, k + 1, j, ptr);
      assert forall i | k < i < j :: !MayRead(code[list[i]], ptr);
    }
  }

  lemma OpcodesAre(op: Opcode)
    ensures IsStore(op) <==> op in {Store, Stored, Stores, Storel, Storeh, Storeb, VStore, VScatter}
    ensures IsCall(op) <==> op in {Call, Syscall}
    ensures IsLoad(op) <==>
              op in {Load, Loadd, Loads, Loadl, Loaduw, Loadsh, Loaduh, Loadsb, Loadub, VLoad, VGather}
  {
  }

  // ----- The scan

  lemma UndisturbedStep(list: seq<Id>, code: map<Id, Instr>, k: nat, j: nat, ptr: Value)
    requires (forall id | id in list :: id in code) && k < |list| && j <= |list|
    ensures Undisturbed(list, code, k, k, ptr)
    ensures k < j ==> (Undisturbed(list, code, k, j, ptr) <==>
              !LoadsFrom(code[list[k]], ptr) && !IsCall(code[list[k]].op) && Undisturbed(list, code, k + 1, j, ptr))
  {
    hide LoadsFrom, IsCall;
  }

  /** One instruction earlier. */
  lemma OverwrittenStep(list: seq<Id>, code: map<Id, Instr>, k: nat, ptr: Value)
    requires (forall id | id in list :: id in code) && k < |list|
    ensures Overwritten(list, code, k, ptr) <==>
              StoresTo(code[list[k]], ptr)
              || (!LoadsFrom(code[list[k]], ptr) && !IsCall(code[list[k]].op) && Overwritten(list, code, k + 1, ptr))
  {
    hide StoresTo, LoadsFrom, IsCall, Undisturbed;
    UndisturbedStep(list, code, k, k, ptr);
    if Overwritten(list, code, k + 1, ptr) {
      var j: nat :| k + 1 <= j < |list| && StoresTo(code[list[j]], ptr) && Undisturbed(list, code, k + 1, j, ptr);
      UndisturbedStep(list, code, k, j, ptr);
    }
    if Overwritten(list, code, k, ptr) {
      var j: nat :| k <= j < |list| && StoresTo(code[list[j]], ptr) && Undisturbed(list, code, k, j, ptr);
      UndisturbedStep(list, code, k, j, ptr);
    }
  }

  lemma NothingOverwritten(list: seq<Id>, code: map<Id, Instr>, ptr: Value)
    requires forall id | id in list :: id in code
    ensures !Overwritten(list, code, |list|, ptr)
  {
  }

  lemma DeadStoresStep(list: seq<Id>, code: map<Id, Instr>, k: nat)
    requires (forall id | id in list :: id in code) && k < |list|
    ensures DeadStoresFrom(list, code, k)
         == DeadStoresFrom(list, code, k + 1) + (if IsDeadStore(list, code, k) then {list[k]} else {})
  {
    hide IsDeadStore;
  }

  /** The sets of the scan: pointers written next, and pointers read before they are written. */
  ghost predicate Scanned(list: seq<Id>, code: map<Id, Instr>, k: nat, loaded: set<Value>, overwritten: set<Value>)
    requires forall id | id in list :: id in code
  {
    loaded !! overwritten && Null !in overwritten
    && forall ptr | ptr != Null :: ptr in overwritten <==> Overwritten(list, code, k, ptr)
  }

  lemma ScannedStep(list: seq<Id>, code: map<Id, Instr>, k: nat, loaded: set<Value>, overwritten: set<Value>,
                    loaded': set<Value>, overwritten': set<Value>)
    requires (forall id | id in list :: id in code) && k < |list| && Scanned(list, code, k + 1, loaded, overwritten)
    requires loaded' !! overwritten' && Null !in overwritten'
    requires forall ptr | ptr != Null :: ptr in overwritten' <==>
               StoresTo(code[list[k]], ptr)
                  || (!LoadsFrom(code[list[k]], ptr) && !IsCall(code[list[k]].op) && ptr in overwritten)
    ensures Scanned(list, code, k, loaded', overwritten')
  {
    hide StoresTo, LoadsFrom, IsCall, Overwritten;
    forall ptr | ptr != Null
      ensures ptr in overwritten' <==> Overwritten(list, code, k, ptr)
    {
      OverwrittenStep(list, code, k, ptr);
    }
  }

  /** One instruction of the scan from the end. */
  method ScanInstruction(list: seq<Id>, code: map<Id, Instr>, k: nat, loaded: set<Value>, overwritten: set<Value>,
                         toRemove: set<Id>)
    returns (loaded': set<Value>, overwritten': set<Value>, toRemove': set<Id>)
    requires (forall id | id in list :: id in code) && k < |list| && Scanned(list, code, k + 1, loaded, overwritten)
    requires toRemove == DeadStoresFrom(list, code, k + 1)
    ensures Scanned(list, code, k, loaded', overwritten') && toRemove' == DeadStoresFrom(list, code, k)
  {
    DeadStoresStep(list, code, k);
    hide Overwritten, DeadStoresFrom;
    loaded', overwritten', toRemove' := loaded, overwritten, toRemove;
    var instr := code[list[k]];
    if IsLoad(instr.op) {
      if instr.operands != [] && instr.operands[0] != Null {
        loaded' := loaded' + {instr.operands[0]};
        overwritten' := overwritten' - {instr.operands[0]};
      }
    } else if IsStore(instr.op) {
      if |instr.operands| >= 2 && instr.operands[1] != Null {
        var ptr := instr.operands[1];
        if ptr in overwritten' && ptr !in loaded' {
          toRemove' := toRemove' + {list[k]};
        } else {
          overwritten' := overwritten' + {ptr};
          loaded' := loaded' - {ptr};
        }
      }
    } else if instr.op == Call || instr.op == Syscall {
      loaded', overwritten' := {}, {};
    }
    ScannedStep(list, code, k, loaded, overwritten, loaded', overwritten');
  }

  method ScanBlock(list: seq<Id>, code: map<Id, Instr>) returns (toRemove: set<Id>)
    requires forall id | id in list :: id in code
    ensures toRemove == DeadStoresFrom(list, code, 0)
  {
    hide IsDeadStore, Overwritten;
    var loaded, overwritten: set<Value> := {}, {};
    toRemove := {};
    var k: nat := |list|;
    forall ptr | ptr != Null
      ensures !Overwritten(list, code, |list|, ptr)
    {
      NothingOverwritten(list, code, ptr);
    }
    while k > 0
      invariant k <= |list| && Scanned(list, code, k, loaded, overwritten) && toRemove == DeadStoresFrom(list, code, k)
    {
      k := k - 1;
      loaded, overwritten, toRemove := ScanInstruction(list, code, k, loaded, overwritten, toRemove);
    }
  }

  // ----- The whole function

  ghost function AllDeadStores(f: Function): set<Id>
    requires WellFormed(f)
  {
    set b, id | b in f.blocks && id in DeadStoresFrom(f.blocks[b], f.code, 0) :: id
  }

  /** Where a dead store stands. */
  lemma DeadStoreAt(f: Function, id: Id) returns (b: BlockId)
    requires WellFormed(f) && id in AllDeadStores(f)
    ensures b in f.blocks && id in f.blocks[b] && id in f.code && IsStore(f.code[id].op)
  {
    b :| b in f.blocks && id in DeadStoresFrom(f.blocks[b], f.code, 0);
    hide WellFormed, Overwritten;
  }

  ghost function StorePlan(f: Function): Plan
    requires WellFormed(f)
  {
    Plan(AllDeadStores(f), map[])
  }

  method RemoveInstructions(list: seq<Id>, toRemove: set<Id>) returns (kept: seq<Id>)
    ensures kept == Keep(list, toRemove)
  {
    kept := [];
    for k := 0 to |list|
      invariant kept == Keep(list[..k], toRemove)
    {
      KeepNext(list, k, toRemove);
      if list[k] !in toRemove { kept := kept + [list[k]]; }
    }
    assert list[..|list|] == list;
  }

  lemma {:induction false} KeepLocal(list: seq<Id>, a: set<Id>, b: set<Id>)
    requires forall id | id in list :: id in a <==> id in b
    ensures Keep(list, a) == Keep(list, b)
  {
    if list != [] { KeepLocal(list[1..], a, b); }
  }

  lemma {:induction false} KeepSize(list: seq<Id>, dead: set<Id>)
    ensures |Keep(list, dead)| <= |list|
    ensures |Keep(list, dead)| == |list| <==> Keep(list, dead) == list
  {
    if list != [] { KeepSize(list[1..], dead); }
  }

  lemma DeadStoresOfBlock(f: Function, b: BlockId)
    requires WellFormed(f) && b in f.blocks
    ensures forall id | id in f.blocks[b] :: id in f.code
    ensures Keep(f.blocks[b], DeadStoresFrom(f.blocks[b], f.code, 0)) == Keep(f.blocks[b], AllDeadStores(f))
  {
    var list, here := f.blocks[b], DeadStoresFrom(f.blocks[b], f.code, 0);
    forall id | id in list
      ensures id in here <==> id in AllDeadStores(f)
    {
      if id in AllDeadStores(f) {
        var c :| c in f.blocks && id in DeadStoresFrom(f.blocks[c], f.code, 0);
        assert id in f.blocks[c];
        assert f.code[id].parent == b && f.code[id].parent == c;
      }
    }
    hide WellFormed, AllDeadStores, DeadStoresFrom;
    KeepLocal(list, here, AllDeadStores(f));
  }

  /** What one block's removal needs to know. */
  lemma StoresReady(f: Function, g: Function, k: nat)
    requires WellFormed(f) && k < |f.order| && SweptBefore(f, g, AllDeadStores(f), k)
    ensures f.order[k] in f.blocks && g.blocks[f.order[k]] == f.blocks[f.order[k]]
    ensures forall b | b in f.order :: b in g.blocks && b in f.blocks
    ensures forall i, j | 0 <= i < j < |f.order| :: f.order[i] != f.order[j]
  {
    assert f.order[k] in f.order && f.order[k] !in f.order[..k];
  }

  method EliminateDeadStores(f: Function) returns (g: Function, removed: nat)
    requires WellFormed(f)
    ensures g == Rewrite(f, StorePlan(f))
    ensures forall b | b in f.order :: b in f.blocks && b in g.blocks
    ensures Size(g.blocks, f.order) + removed == Size(f.blocks, f.order)
    ensures removed == 0 ==> g == f
  {
    hide *;
    g, removed := f, 0;
    NothingSwept(f, AllDeadStores(f));
    SizeDefined(f, f, AllDeadStores(f), 0);
    for k := 0 to |f.order|
      invariant SweptBefore(f, g, AllDeadStores(f), k)
      invariant forall b | b in f.order :: b in f.blocks && b in g.blocks
      invariant Size(g.blocks, f.order) + removed == Size(f.blocks, f.order)
      invariant removed == 0 ==> g == f
    {
      StoresReady(f, g, k);
      var b := f.order[k];
      DeadStoresOfBlock(f, b);
      var toRemove := ScanBlock(f.blocks[b], f.code);
      var kept := RemoveInstructions(f.blocks[b], toRemove);
      KeepSize(f.blocks[b], toRemove);
      SizeUpdate(g.blocks, f.order, k, kept);
      SweepNext(f, g, g.(blocks := g.blocks[b := kept]), AllDeadStores(f), k);
      SameBlocks(g, b);
      g := g.(blocks := g.blocks[b := kept]);
      removed := removed + (|f.blocks[b]| - |kept|);
    }
    SweepDone(f, g, AllDeadStores(f));
    StorePlanIs(f);
  }

  lemma StorePlanIs(f: Function)
    requires WellFormed(f)
    ensures StorePlan(f) == Plan(AllDeadStores(f), map[])
  {
  }
}
