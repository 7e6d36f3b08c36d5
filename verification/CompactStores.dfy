/**
 When the stores of a block that name one pointer are in good order: each that stays is at
 least as wide as those before it, back to a reader that stays. Then whatever the scan
 removes is harmless, and no elimination spoils the order.
 */
module CompactStores {
  import opened IR
  import opened Erasure
  import opened UnreachableBlocks
  import opened UnreachableRuns
  import opened DeadCode
  import opened DeadStores
  import opened DeadStoreRuns
  import opened DeadStoreChains
  import opened ProperFunctions

  // ----- Instructions that no elimination removes

  /** Roots of the marking that are no stores. */
  predicate IsAnchor(op: Opcode) {
    IsRoot(op) && !IsStore(op)
  }

  /** The instruction takes the value of x; a phi, from a reachable block. */
  ghost predicate Takes(f: Function, instr: Instr, x: Id)
    requires f.order != []
  {
    if instr.op == Phi then
      exists p: BlockId :: p in f.blocks && Reachable(f, p) && IncomingFrom(instr.operands, p, 0) == Some(Inst(x))
    else Inst(x) in instr.operands
  }

  ghost predicate Reached(f: Function, id: Id)
    requires f.order != []
  {
    id in f.code && exists b: BlockId :: b in f.blocks && Reachable(f, b) && id in f.blocks[b]
  }

  /** A set with the reachable anchors and what its reachable members take. */
  ghost predicate AnchorClosed(f: Function, s: set<Id>)
    requires f.order != []
  {
    && (forall id: Id | Reached(f, id) && IsAnchor(f.code[id].op) :: id in s)
    && (forall id: Id, x: Id | id in s && Reached(f, id) && Takes(f, f.code[id], x) :: x in s)
  }

  /** What reachable anchors need. */
  ghost function Anchored(f: Function): set<Id>
    requires f.order != []
  {
    set id: Id | id in f.code && forall s: set<Id> | AnchorClosed(f, s) :: id in s
  }

  lemma AnchoredIn(f: Function, s: set<Id>)
    requires f.order != [] && AnchorClosed(f, s)
    ensures Anchored(f) <= s
  {
    hide AnchorClosed;
  }

  lemma AnchorsAnchored(f: Function, id: Id)
    requires f.order != [] && Reached(f, id) && IsAnchor(f.code[id].op)
    ensures id in Anchored(f)
  {
    hide Takes;
  }

  lemma TakenAnchored(f: Function, id: Id, x: Id)
    requires f.order != [] && id in Anchored(f) && Reached(f, id) && Takes(f, f.code[id], x) && x in f.code
    ensures x in Anchored(f)
  {
    hide Reached, Takes;
  }

  lemma {:induction false} IncomingIsOperand(operands: seq<Value>, p: BlockId, k: nat)
    ensures IncomingFrom(operands, p, k).Some? ==> IncomingFrom(operands, p, k).value in operands
    decreases |operands| - 2 * k
  {
    if 2 * k + 1 < |operands| { IncomingIsOperand(operands, p, k + 1); }
  }

  lemma TakesUses(f: Function, instr: Instr, x: Id)
    requires f.order != [] && Takes(f, instr, x)
    ensures Inst(x) in instr.operands && x in Used(instr.operands)
  {
    if instr.op == Phi {
      var p: BlockId :| p in f.blocks && Reachable(f, p) && IncomingFrom(instr.operands, p, 0) == Some(Inst(x));
      IncomingIsOperand(instr.operands, p, 0);
    }
    assert Inst(x) in instr.operands;
    assert Inst(x).id == x;
  }

  /** The marking holds everything anchored. */
  lemma AnchoredLive(f: Function, live: set<Id>)
    requires f.order != [] && IsLiveSet(f, live)
    ensures Anchored(f) <= live
  {
    forall id: Id | Reached(f, id) && IsAnchor(f.code[id].op)
      ensures id in live
    {
      var b: BlockId :| b in f.blocks && Reachable(f, b) && id in f.blocks[b];
      assert id in Roots(f.blocks[b], f.code);
    }
    forall id: Id, x: Id | id in live && Reached(f, id) && Takes(f, f.code[id], x)
      ensures x in live
    {
      TakesUses(f, f.code[id], x);
    }
    hide Reached, Takes, IsLiveSet;
    AnchoredIn(f, live);
  }

  /** What counts for its own sake: calls, returns and jumps. */
  lemma AnchorsAre(op: Opcode)
    ensures IsAnchor(op) <==> op in {Call, Syscall, Ret, Jmp, Jz, Jnz, Br}
    ensures IsAnchor(op) ==> !IsStore(op)
  {
  }

  /** No store is anchored where the results of stores are not used. */
  lemma NoStoreAnchored(f: Function)
    requires Proper(f) && f.order != [] && StoresUnused(f)
    ensures forall id | id in Anchored(f) :: id in f.code && !IsStore(f.code[id].op)
  {
    var s := set id | id in f.code && !IsStore(f.code[id].op);
    forall id: Id, x: Id | id in s && Reached(f, id) && Takes(f, f.code[id], x)
      ensures x in s
    {
      TakesUses(f, f.code[id], x);
      assert Used(f.code[id].operands) <= f.code.Keys;
      assert !IsStore(f.code[Inst(x).id].op);
    }
    forall id | id in f.code && IsAnchor(f.code[id].op)
      ensures id in s
    {
      AnchorsAre(f.code[id].op);
    }
    hide Takes, Proper, IsStore, IsAnchor;
    assert AnchorClosed(f, s);
    AnchoredIn(f, s);
  }

  // ----- The order asked for

  predicate SamePointer(list: seq<Id>, code: map<Id, Instr>, k: nat, j: nat)
    requires k < |list| && j < |list| && list[k] in code && list[j] in code
  {
    && IsStore(code[list[k]].op) && |code[list[k]].operands| >= 2 && code[list[k]].operands[1] != Null
    && StoresTo(code[list[j]], code[list[k]].operands[1])
  }

  /** A call, or a load from the pointer that is anchored. */
  predicate Parts(instr: Instr, id: Id, ptr: Value, anchored: set<Id>) {
    IsCall(instr.op) || (LoadsFrom(instr, ptr) && id in anchored)
  }

  ghost predicate Parted(list: seq<Id>, code: map<Id, Instr>, anchored: set<Id>, k: nat, j: nat, ptr: Value)
    requires j <= |list| && forall id | id in list :: id in code
  {
    exists i :: k < i < j && Parts(code[list[i]], list[i], ptr, anchored)
  }

  /**
   A load from the pointer, which keeps the scan away; or a bystander, or a store: to the pointer,
   or, where chains are allowed, to anywhere.
   */
  predicate StandsBetween(instr: Instr, id: Id, ptr: Value, chains: bool) {
    LoadsFrom(instr, ptr) || if chains then Clear(instr, id, ptr) else PassesBy(instr, id, ptr) || StoresTo(instr, ptr)
  }

  /** The second store is at least as wide, and nothing is between them but what may stand there. */
  ghost predicate Compact(list: seq<Id>, code: map<Id, Instr>, k: nat, j: nat, chains: bool)
    requires k < j < |list| && forall id | id in list :: id in code
  {
    var store, next := code[list[k]], code[list[j]];
    && IsSizedStore(store) && IsSizedStore(next) && AtLeastAsWide(next, store) && store.operands[1] != Inst(list[k])
    && forall i | k < i < j :: StandsBetween(code[list[i]], list[i], store.operands[1], chains)
  }

  ghost predicate BlockCompact(list: seq<Id>, code: map<Id, Instr>, anchored: set<Id>, chains: bool)
    requires forall id | id in list :: id in code
  {
    forall k: nat, j: nat | k < j < |list| && SamePointer(list, code, k, j)
        && !Parted(list, code, anchored, k, j, code[list[k]].operands[1]) && (chains ==> !IsDeadStore(list, code, j)) ::
      Compact(list, code, k, j, chains)
  }

  /**
   Of two stores of a block to one pointer, with no call and no anchored load from it between
   them, the second is at least as wide and nothing else between them touches memory. Where
   chains are allowed, this is asked only of a second store that the scan leaves alone, and
   other stores may stand between.
   */
  ghost predicate StoresCompact(f: Function, chains: bool) {
    f.order != [] && forall b | b in f.blocks ::
      (forall id | id in f.blocks[b] :: id in f.code) && BlockCompact(f.blocks[b], f.code, Anchored(f), chains)
  }

  // ----- What the scan then finds

  /** The first store to the pointer from k on. */
  lemma {:induction false} FirstStore(list: seq<Id>, code: map<Id, Instr>, k: nat, j: nat, ptr: Value) returns (n: nat)
    requires (forall id | id in list :: id in code) && k <= j < |list| && StoresTo(code[list[j]], ptr)
    ensures k <= n <= j && StoresTo(code[list[n]], ptr) && forall i | k <= i < n :: !StoresTo(code[list[i]], ptr)
    decreases j - k
  {
    if StoresTo(code[list[k]], ptr) { n := k; } else { n := FirstStore(list, code, k + 1, j, ptr); }
  }

  lemma StoreIsNoReader(instr: Instr, ptr: Value)
    requires IsStore(instr.op)
    ensures !LoadsFrom(instr, ptr) && !IsCall(instr.op)
  {
  }

  /** The store that makes k dead. */
  lemma DeadBy(list: seq<Id>, code: map<Id, Instr>, k: nat) returns (n: nat)
    requires (forall id | id in list :: id in code) && IsDeadStore(list, code, k)
    ensures k < n < |list| && list[k] in code && list[n] in code && IsStore(code[list[k]].op)
    ensures |code[list[k]].operands| >= 2
    ensures code[list[k]].operands[1] != Null
    ensures StoresTo(code[list[n]], code[list[k]].operands[1])
    ensures Undisturbed(list, code, k + 1, n, code[list[k]].operands[1])
  {
    assert list[k] in list;
    n :| k + 1 <= n < |list| && StoresTo(code[list[n]], code[list[k]].operands[1])
         && Undisturbed(list, code, k + 1, n, code[list[k]].operands[1]);
    assert list[n] in list;
  }

  lemma UndisturbedBoth(list: seq<Id>, code: map<Id, Instr>, i: nat, j: nat, n: nat, ptr: Value)
    requires (forall id | id in list :: id in code) && i <= j < n <= |list| && list[j] in code
    requires IsStore(code[list[j]].op)
    requires Undisturbed(list, code, i, j, ptr) && Undisturbed(list, code, j + 1, n, ptr)
    ensures Undisturbed(list, code, i, n, ptr)
  {
    StoreIsNoReader(code[list[j]], ptr);
    hide LoadsFrom, IsCall, IsStore;
  }

  /** The store that stays of those that make k dead. */
  lemma {:induction false} LastingStore(list: seq<Id>, code: map<Id, Instr>, k: nat) returns (n: nat)
    requires (forall id | id in list :: id in code) && IsDeadStore(list, code, k)
    ensures k < n < |list| && list[k] in code && |code[list[k]].operands| >= 2
    ensures StoresTo(code[list[n]], code[list[k]].operands[1])
    ensures Undisturbed(list, code, k + 1, n, code[list[k]].operands[1])
    ensures !IsDeadStore(list, code, n)
    decreases |list| - k
  {
    hide *;
    n := DeadBy(list, code, k);
    if IsDeadStore(list, code, n) {
      var j, ptr := n, code[list[k]].operands[1];
      n := LastingStore(list, code, j);
      StorePointer(code[list[j]], ptr);
      UndisturbedBoth(list, code, k + 1, j, n, ptr);
    }
  }

  lemma StorePointer(i: Instr, ptr: Value)
    requires StoresTo(i, ptr)
    ensures IsStore(i.op) && |i.operands| >= 2 && i.operands[1] == ptr
  {
  }

  lemma UndisturbedUnparted(list: seq<Id>, code: map<Id, Instr>, anchored: set<Id>, k: nat, j: nat, ptr: Value)
    requires (forall id | id in list :: id in code) && k < j <= |list| && Undisturbed(list, code, k + 1, j, ptr)
    ensures !Parted(list, code, anchored, k, j, ptr)
  {
    hide LoadsFrom, IsCall;
  }

  lemma DeadSamePointer(list: seq<Id>, code: map<Id, Instr>, k: nat, n: nat)
    requires (forall id | id in list :: id in code) && IsDeadStore(list, code, k) && k < n < |list|
    requires list[k] in code && |code[list[k]].operands| >= 2 && StoresTo(code[list[n]], code[list[k]].operands[1])
    ensures list[n] in code && SamePointer(list, code, k, n)
    ensures code[list[n]].operands[1] == code[list[k]].operands[1]
  {
    assert list[n] in list;
  }

  lemma CompactMadeUp(list: seq<Id>, code: map<Id, Instr>, anchored: set<Id>, k: nat)
    requires (forall id | id in list :: id in code) && BlockCompact(list, code, anchored, true)
    requires IsDeadStore(list, code, k)
    ensures exists j: nat :: MadeUpFor(list, code, k, j)
  {
    hide BlockCompact, Clear, PassesBy, LoadsFrom, IsCall, StoresTo, IsDeadStore;
    var n := LastingStore(list, code, k);
    var ptr := code[list[k]].operands[1];
    UndisturbedUnparted(list, code, anchored, k, n, ptr);
    DeadSamePointer(list, code, k, n);
    CompactPair(list, code, anchored, k, n, true);
    assert forall i | k < i < n :: list[i] in list;
    assert MadeUpFor(list, code, k, n);
  }

  lemma CompactPair(list: seq<Id>, code: map<Id, Instr>, anchored: set<Id>, k: nat, j: nat, chains: bool)
    requires (forall id | id in list :: id in code) && BlockCompact(list, code, anchored, chains) && k < j < |list|
    requires list[k] in code && list[j] in code && SamePointer(list, code, k, j)
    requires !Parted(list, code, anchored, k, j, code[list[k]].operands[1]) && (chains ==> !IsDeadStore(list, code, j))
    ensures Compact(list, code, k, j, chains)
  {
    hide SamePointer, Parted, IsDeadStore;
  }

  lemma CompactSupersedes(list: seq<Id>, code: map<Id, Instr>, anchored: set<Id>, k: nat)
    requires (forall id | id in list :: id in code) && BlockCompact(list, code, anchored, false)
    requires IsDeadStore(list, code, k)
    ensures exists j: nat :: Supersedes(list, code, k, j)
  {
    assert list[k] in list;
    var ptr := code[list[k]].operands[1];
    var j: nat :| k + 1 <= j < |list| && StoresTo(code[list[j]], ptr) && Undisturbed(list, code, k + 1, j, ptr);
    hide BlockCompact, PassesBy, LoadsFrom, IsCall, StoresTo, IsDeadStore;
    var n := FirstStore(list, code, k + 1, j, ptr);
    UndisturbedUnparted(list, code, anchored, k, n, ptr);
    DeadSamePointer(list, code, k, n);
    CompactPair(list, code, anchored, k, n, false);
    assert forall i | k < i < n :: list[i] in list;
    assert Supersedes(list, code, k, n);
  }

  /** Stores in order are superseded, or made up for, when they are dead. */
  lemma CompactSuperseded(f: Function, chains: bool)
    requires WellFormed(f) && StoresCompact(f, chains)
    ensures if chains then StoresMadeUp(f) else StoresSuperseded(f)
  {
    forall b, k: nat | b in f.blocks && IsDeadStore(f.blocks[b], f.code, k)
      ensures if chains then exists j: nat :: MadeUpFor(f.blocks[b], f.code, k, j)
              else exists j: nat :: Supersedes(f.blocks[b], f.code, k, j)
    {
      assert BlockCompact(f.blocks[b], f.code, Anchored(f), chains);
      hide StoresCompact, WellFormed, BlockCompact, IsDeadStore;
      if chains {
        CompactMadeUp(f.blocks[b], f.code, Anchored(f), k);
      } else {
        CompactSupersedes(f.blocks[b], f.code, Anchored(f), k);
      }
    }
  }

  // ----- Positions in what is kept

  function Rank(list: seq<Id>, dead: set<Id>, i: nat): nat
    requires i <= |list|
  {
    |Keep(list[..i], dead)|
  }

  lemma RankNext(list: seq<Id>, dead: set<Id>, i: nat)
    requires i < |list|
    ensures Rank(list, dead, i + 1) == Rank(list, dead, i) + if list[i] in dead then 0 else 1
    ensures list[i] !in dead ==>
              Rank(list, dead, i) < |Keep(list, dead)| && Keep(list, dead)[Rank(list, dead, i)] == list[i]
  {
    KeepNext(list, i, dead);
  }

  lemma {:induction false} RankGrows(list: seq<Id>, dead: set<Id>, i: nat, j: nat)
    requires i <= j <= |list|
    ensures Rank(list, dead, i) <= Rank(list, dead, j)
    ensures i < j && list[i] !in dead ==> Rank(list, dead, i) < Rank(list, dead, j)
    decreases j
  {
    if i < j {
      RankGrows(list, dead, i, j - 1);
      RankNext(list, dead, j - 1);
    }
  }

  lemma {:induction false} Unrank(list: seq<Id>, dead: set<Id>, i: nat, n: nat) returns (k: nat)
    requires i <= |list| && n < Rank(list, dead, i)
    ensures k < i && list[k] !in dead && Rank(list, dead, k) == n
    decreases i
  {
    assert i > 0;
    RankNext(list, dead, i - 1);
    if n < Rank(list, dead, i - 1) { k := Unrank(list, dead, i - 1, n); } else { k := i - 1; }
  }

  /** Where the n-th that is kept stood. */
  lemma KeptFrom(list: seq<Id>, dead: set<Id>, n: nat) returns (k: nat)
    requires n < |Keep(list, dead)|
    ensures k < |list| && list[k] !in dead && Rank(list, dead, k) == n && Keep(list, dead)[n] == list[k]
  {
    assert list[..|list|] == list;
    k := Unrank(list, dead, |list|, n);
    RankNext(list, dead, k);
  }

  /** Kept before is kept before. */
  lemma KeptOrder(list: seq<Id>, dead: set<Id>, i: nat, j: nat)
    requires i < |list| && j < |list| && list[i] !in dead && list[j] !in dead
    ensures i < j <==> Rank(list, dead, i) < Rank(list, dead, j)
  {
    if i < j { RankGrows(list, dead, i, j); } else { RankGrows(list, dead, j, i); }
  }

  // ----- Removing instructions keeps the order

  /** What goes is neither anchored nor a call, and a store only if it is dead. */
  ghost predicate MayGo(list: seq<Id>, code: map<Id, Instr>, dead: set<Id>, anchored: set<Id>)
    requires forall id | id in list :: id in code
  {
    forall k | 0 <= k < |list| && list[k] in dead ::
      !IsCall(code[list[k]].op) && list[k] !in anchored && (IsStore(code[list[k]].op) ==> IsDeadStore(list, code, k))
  }

  lemma StillParted(list: seq<Id>, code: map<Id, Instr>, dead: set<Id>, anchored: set<Id>, anchored': set<Id>,
                    k: nat, j: nat, ptr: Value)
    requires (forall id | id in list :: id in code) && (forall id | id in Keep(list, dead) :: id in code)
    requires MayGo(list, code, dead, anchored) && k < j < |list| && list[k] !in dead && list[j] !in dead
    requires forall id | id in anchored && id in Keep(list, dead) :: id in anchored'
    requires Parted(list, code, anchored, k, j, ptr)
    ensures Rank(list, dead, j) <= |Keep(list, dead)|
    ensures Parted(Keep(list, dead), code, anchored', Rank(list, dead, k), Rank(list, dead, j), ptr)
  {
    var i: nat :| k < i < j && Parts(code[list[i]], list[i], ptr, anchored);
    assert list[i] !in dead;
    hide MayGo, Keep, LoadsFrom, IsCall, IsDeadStore, Rank;
    RankNext(list, dead, i);
    RankNext(list, dead, j);
    KeptOrder(list, dead, k, i);
    KeptOrder(list, dead, i, j);
    var n := Rank(list, dead, i);
    assert Keep(list, dead)[n] in Keep(list, dead);
    assert Parts(code[Keep(list, dead)[n]], Keep(list, dead)[n], ptr, anchored');
  }

  lemma UndisturbedKept(list: seq<Id>, code: map<Id, Instr>, dead: set<Id>, k: nat, n: nat, ptr: Value)
    requires (forall id | id in list :: id in code) && (forall id | id in Keep(list, dead) :: id in code)
    requires k < n < |list| && list[k] !in dead && list[n] !in dead && Undisturbed(list, code, k + 1, n, ptr)
    ensures Rank(list, dead, n) <= |Keep(list, dead)|
    ensures Undisturbed(Keep(list, dead), code, Rank(list, dead, k) + 1, Rank(list, dead, n), ptr)
  {
    hide Keep, LoadsFrom, IsCall, Rank;
    RankNext(list, dead, n);
    var kept := Keep(list, dead);
    forall i: nat | Rank(list, dead, k) + 1 <= i < Rank(list, dead, n)
      ensures !LoadsFrom(code[kept[i]], ptr) && !IsCall(code[kept[i]].op)
    {
      var i' := KeptFrom(list, dead, i);
      KeptOrder(list, dead, k, i');
      KeptOrder(list, dead, i', n);
    }
  }

  /** A store that is dead stays dead as long as it is there. */
  lemma StillDead(list: seq<Id>, code: map<Id, Instr>, dead: set<Id>, anchored: set<Id>, k: nat)
    requires (forall id | id in list :: id in code) && (forall id | id in Keep(list, dead) :: id in code)
    requires MayGo(list, code, dead, anchored) && IsDeadStore(list, code, k) && k < |list| && list[k] !in dead
    ensures IsDeadStore(Keep(list, dead), code, Rank(list, dead, k))
  {
    var ptr := code[list[k]].operands[1];
    hide *;
    var n0 := DeadBy(list, code, k);
    var n := LastingStore(list, code, k);
    StorePointer(code[list[n]], ptr);
    NotGone(list, code, dead, anchored, n);
    RankNext(list, dead, k);
    RankNext(list, dead, n);
    KeptOrder(list, dead, k, n);
    UndisturbedKept(list, code, dead, k, n, ptr);
    DeadFold(Keep(list, dead), code, Rank(list, dead, k), Rank(list, dead, n));
  }

  lemma NotGone(list: seq<Id>, code: map<Id, Instr>, dead: set<Id>, anchored: set<Id>, n: nat)
    requires (forall id | id in list :: id in code) && MayGo(list, code, dead, anchored)
    requires n < |list| && list[n] in code && IsStore(code[list[n]].op) && !IsDeadStore(list, code, n)
    ensures list[n] !in dead
  {
    hide IsDeadStore, IsStore, IsCall;
  }

  lemma DeadFold(list: seq<Id>, code: map<Id, Instr>, k: nat, n: nat)
    requires (forall id | id in list :: id in code) && k < n < |list|
    requires list[k] in code && IsStore(code[list[k]].op) && |code[list[k]].operands| >= 2
    requires code[list[k]].operands[1] != Null
    requires list[n] in code && StoresTo(code[list[n]], code[list[k]].operands[1])
    requires Undisturbed(list, code, k + 1, n, code[list[k]].operands[1])
    ensures IsDeadStore(list, code, k)
  {
    hide StoresTo;
  }

  lemma CompactKept(list: seq<Id>, code: map<Id, Instr>, dead: set<Id>, k: nat, j: nat, k': nat, j': nat, chains: bool)
    requires (forall id | id in list :: id in code) && (forall id | id in Keep(list, dead) :: id in code)
    requires k < j < |Keep(list, dead)| && k' < j' < |list| && list[k'] !in dead && list[j'] !in dead
    requires Rank(list, dead, k') == k && Rank(list, dead, j') == j
    requires Keep(list, dead)[k] == list[k'] && Keep(list, dead)[j] == list[j'] && Compact(list, code, k', j', chains)
    ensures Compact(Keep(list, dead), code, k, j, chains)
  {
    hide Keep, Rank, StandsBetween, AtLeastAsWide;
    var kept := Keep(list, dead);
    forall i: nat | k < i < j
      ensures StandsBetween(code[kept[i]], kept[i], code[kept[k]].operands[1], chains)
    {
      var i' := KeptFrom(list, dead, i);
      KeptOrder(list, dead, k', i');
      KeptOrder(list, dead, i', j');
    }
  }

  /** What goes leaves the stores in order. */
  lemma KeepsCompact(list: seq<Id>, code: map<Id, Instr>, dead: set<Id>, anchored: set<Id>, anchored': set<Id>,
                     chains: bool)
    requires (forall id | id in list :: id in code) && BlockCompact(list, code, anchored, chains)
    requires MayGo(list, code, dead, anchored)
    requires forall id | id in anchored && id in Keep(list, dead) :: id in anchored'
    ensures forall id | id in Keep(list, dead) :: id in code
    ensures BlockCompact(Keep(list, dead), code, anchored', chains)
  {
    var kept := Keep(list, dead);
    KeepMembers(list, dead);
    hide Keep, MayGo, Rank, Parted, IsDeadStore, Compact, StoresTo, BlockCompact;
    forall k: nat, j: nat | k < j < |kept| && SamePointer(kept, code, k, j)
        && !Parted(kept, code, anchored', k, j, code[kept[k]].operands[1]) && (chains ==> !IsDeadStore(kept, code, j))
      ensures Compact(kept, code, k, j, chains)
    {
      var k' := KeptFrom(list, dead, k);
      var j' := KeptFrom(list, dead, j);
      KeptOrder(list, dead, k', j');
      var ptr := code[kept[k]].operands[1];
      if Parted(list, code, anchored, k', j', ptr) { StillParted(list, code, dead, anchored, anchored', k', j', ptr); }
      if IsDeadStore(list, code, j') { StillDead(list, code, dead, anchored, j'); }
      assert SamePointer(list, code, k', j');
      CompactPair(list, code, anchored, k', j', chains);
      CompactKept(list, code, dead, k, j, k', j', chains);
    }
    BlockCompactFold(kept, code, anchored', chains);
  }

  lemma BlockCompactFold(list: seq<Id>, code: map<Id, Instr>, anchored: set<Id>, chains: bool)
    requires forall id | id in list :: id in code
    requires forall k: nat, j: nat | k < j < |list| && SamePointer(list, code, k, j)
        && !Parted(list, code, anchored, k, j, code[list[k]].operands[1]) && (chains ==> !IsDeadStore(list, code, j)) ::
      Compact(list, code, k, j, chains)
    ensures BlockCompact(list, code, anchored, chains)
  {
    hide Compact, Parted, IsDeadStore, StoresTo;
  }

  // ----- What is anchored stays so

  /** Chains of terminators from the entry go on in g. */
  lemma ReachableStays(f: Function, g: Function)
    requires f.order != [] && g.order != [] && g.order[0] == f.order[0]
    requires forall a: BlockId, b: BlockId | Reachable(f, a) && Leads(f, a, b) :: Leads(g, a, b)
    ensures forall b: BlockId | Reachable(f, b) :: Reachable(g, b)
  {
    hide Leads;
    forall b: BlockId | Reachable(f, b)
      ensures Reachable(g, b)
    {
      var p: seq<BlockId> :| IsChain(f, p) && p[0] == f.order[0] && Last(p) == b;
      forall i | 0 < i < |p|
        ensures Leads(g, p[i - 1], p[i])
      {
        assert IsChain(f, p[..i]) && Last(p[..i]) == p[i - 1];
      }
      assert IsChain(g, p);
    }
  }

  /** The terminator that leads from one block to another. */
  lemma LeadingTerminator(f: Function, a: BlockId, b: BlockId) returns (id: Id)
    requires Leads(f, a, b)
    ensures a in f.blocks && id in f.blocks[a] && id in f.code && IsTerminator(f.code[id].op)
    ensures Blk(b) in f.code[id].operands
  {
    var t := FindTerminator(f.blocks[a], f.code, |f.blocks[a]|);
    id := t.value;
  }

  lemma SweptLeads(f: Function, g: Function, dead: set<Id>, a: BlockId, b: BlockId)
    requires g.code == f.code && g.blocks.Keys == f.blocks.Keys && Tidy(g) && Sweepable(f, dead) && Leads(f, a, b)
    requires forall b | b in f.blocks :: g.blocks[b] == Keep(f.blocks[b], dead)
    ensures Leads(g, a, b)
  {
    var id := LeadingTerminator(f, a, b);
    KeepMembers(f.blocks[a], dead);
    hide Leads, Tidy;
    TerminatorExits(g, a, id);
    LeadsFold(g, a, b);
  }

  lemma LeadsFold(f: Function, a: BlockId, b: BlockId)
    requires Blk(b) in Exits(f, a)
    ensures Leads(f, a, b)
  {
  }

  lemma SweptReached(f: Function, g: Function, dead: set<Id>, id: Id)
    requires f.order != [] && g.order != [] && Reached(f, id) && id !in dead && g.code == f.code
    requires g.blocks.Keys == f.blocks.Keys
    requires forall b | b in f.blocks :: g.blocks[b] == Keep(f.blocks[b], dead)
    requires forall b: BlockId | Reachable(f, b) :: Reachable(g, b)
    ensures Reached(g, id)
  {
    hide Reachable;
    var b: BlockId :| b in f.blocks && Reachable(f, b) && id in f.blocks[b];
    KeepMembers(f.blocks[b], dead);
  }

  lemma SweptTakes(f: Function, g: Function, instr: Instr, x: Id)
    requires f.order != [] && g.order != [] && g.blocks.Keys == f.blocks.Keys && Takes(f, instr, x)
    requires forall b: BlockId | Reachable(f, b) :: Reachable(g, b)
    ensures Takes(g, instr, x)
  {
    hide Reachable;
  }

  lemma SweptAnchored(f: Function, g: Function, dead: set<Id>)
    requires Proper(f) && Proper(g) && f.order != [] && g.order == f.order && g.code == f.code
    requires g.blocks.Keys == f.blocks.Keys
    requires forall b | b in f.blocks :: g.blocks[b] == Keep(f.blocks[b], dead)
    requires Sweepable(f, dead) && Anchored(f) !! dead
    ensures Anchored(f) <= Anchored(g)
  {
    ProperIsTidy(g);
    forall a: BlockId, b: BlockId | Reachable(f, a) && Leads(f, a, b)
      ensures Leads(g, a, b)
    {
      SweptLeads(f, g, dead, a, b);
    }
    ReachableStays(f, g);
    var known := Anchored(f);
    forall id: Id, s: set<Id> | id in known && AnchorClosed(g, s)
      ensures id in s
    {
      SweptClosed(f, g, dead, s);
      AnchoredIn(f, s * known);
    }
    hide AnchorClosed, Proper, Sweepable, Reachable, Leads;
    assert known <= f.code.Keys;
  }

  /** A closed set of g, but for what is not anchored in f, is one of f. */
  lemma SweptClosed(f: Function, g: Function, dead: set<Id>, s: set<Id>)
    requires Proper(f) && f.order != [] && g.order == f.order && g.code == f.code && g.blocks.Keys == f.blocks.Keys
    requires forall b | b in f.blocks :: g.blocks[b] == Keep(f.blocks[b], dead)
    requires forall b: BlockId | Reachable(f, b) :: Reachable(g, b)
    requires Anchored(f) !! dead && AnchorClosed(g, s)
    ensures AnchorClosed(f, s * Anchored(f))
  {
    hide Anchored, Reached, Takes, Reachable, IsAnchor;
    forall id: Id | Reached(f, id) && id in f.code && IsAnchor(f.code[id].op)
      ensures id in s * Anchored(f)
    {
      AnchorsAnchored(f, id);
      SweptReached(f, g, dead, id);
    }
    forall id: Id, x: Id | id in s * Anchored(f) && Reached(f, id) && id in f.code && Takes(f, f.code[id], x)
      ensures x in s * Anchored(f)
    {
      TakesUses(f, f.code[id], x);
      SweptReached(f, g, dead, id);
      SweptTakes(f, g, f.code[id], x);
      assert Used(f.code[id].operands) <= f.code.Keys;
      TakenAnchored(f, id, x);
    }
    ClosedFold(f, s * Anchored(f));
  }

  lemma ClosedFold(f: Function, s: set<Id>)
    requires f.order != []
    requires forall id: Id | Reached(f, id) && id in f.code && IsAnchor(f.code[id].op) :: id in s
    requires forall id: Id, x: Id | id in s && Reached(f, id) && id in f.code && Takes(f, f.code[id], x) :: x in s
    ensures AnchorClosed(f, s)
  {
    hide Takes, IsAnchor;
  }

  // ----- The eliminations keep the order

  ghost predicate Storewise(f: Function, chains: bool) {
    StoresCompact(f, chains) && StoresUnused(f)
  }

  /** All that goes may go. */
  ghost predicate AllMayGo(f: Function, dead: set<Id>)
    requires f.order != []
  {
    forall b | b in f.blocks ::
        (forall id | id in f.blocks[b] :: id in f.code) && MayGo(f.blocks[b], f.code, dead, Anchored(f))
  }

  lemma SweptCompact(f: Function, dead: set<Id>, chains: bool)
    requires Proper(f) && f.order != [] && Sweepable(f, dead) && AllMayGo(f, dead) && Anchored(f) !! dead
    requires Storewise(f, chains)
    ensures Storewise(Rewrite(f, Plan(dead, map[])), chains)
  {
    var g := Rewrite(f, Plan(dead, map[]));
    SweptShape(f, dead);
    SweptProper(f, dead);
    hide Rewrite, Keep, Anchored, Sweepable, Proper;
    SweptAnchored(f, g, dead);
    forall b | b in g.blocks
      ensures (forall id | id in g.blocks[b] :: id in g.code) && BlockCompact(g.blocks[b], g.code, Anchored(g), chains)
    {
      hide BlockCompact, MayGo;
      KeepsCompact(f.blocks[b], f.code, dead, Anchored(f), Anchored(g), chains);
    }
  }

  lemma SweepMayGo(f: Function, live: set<Id>)
    requires Proper(f) && IsLiveSet(f, live)
    ensures f.order != [] && Sweepable(f, SweepPlan(f, live).dead) && AllMayGo(f, SweepPlan(f, live).dead)
    ensures Anchored(f) !! SweepPlan(f, live).dead
  {
    ProperIsTidy(f);
    SweepPlanIs(f, live);
    AnchoredLive(f, live);
    var dead := SweepPlan(f, live).dead;
    assert dead !! live;
    hide Anchored, IsLiveSet, IsDeadStore, SweepPlan;
    forall id | id in dead && id in f.code
      ensures !IsRoot(f.code[id].op)
    {
      DeadNotRoot(f, live, id);
    }
    hide WellFormed, Tidy;
    forall b, k: nat | b in f.blocks && k < |f.blocks[b]|
      ensures f.blocks[b][k] in f.code
    {
      assert f.blocks[b][k] in f.blocks[b];
    }
  }

  lemma StoresMayGoHere(f: Function, b: BlockId, anchored: set<Id>)
    requires WellFormed(f) && b in f.blocks && forall id | id in anchored && id in f.code :: !IsStore(f.code[id].op)
    ensures forall id | id in f.blocks[b] :: id in f.code
    ensures MayGo(f.blocks[b], f.code, AllDeadStores(f), anchored)
  {
    var list := f.blocks[b];
    hide AllDeadStores, IsDeadStore, IsStore, IsCall, WellFormed;
    KnownHere(f, b);
    forall k: nat | k < |list| && list[k] in AllDeadStores(f)
      ensures !IsCall(f.code[list[k]].op) && list[k] !in anchored && IsDeadStore(list, f.code, k)
    {
      var c := DeadStoreAt(f, list[k]);
      DeadIsStore(f, b, k);
      StoreIsNoReader(f.code[list[k]], Null);
    }
  }

  lemma KnownHere(f: Function, b: BlockId)
    requires WellFormed(f) && b in f.blocks
    ensures forall id | id in f.blocks[b] :: id in f.code
  {
  }

  lemma StoresSweepable(f: Function)
    requires f.order != [] && WellFormed(f)
    requires forall id | id in AllDeadStores(f) :: id in f.code && IsStore(f.code[id].op)
    requires forall id | id in Anchored(f) :: id in f.code && !IsStore(f.code[id].op)
    ensures Sweepable(f, AllDeadStores(f)) && Anchored(f) !! AllDeadStores(f)
  {
    hide AllDeadStores, Anchored, WellFormed;
  }

  lemma AllMayGoFold(f: Function, dead: set<Id>)
    requires f.order != []
    requires forall b | b in f.blocks ::
               (forall id | id in f.blocks[b] :: id in f.code) && MayGo(f.blocks[b], f.code, dead, Anchored(f))
    ensures AllMayGo(f, dead)
  {
    hide MayGo, Anchored;
  }

  lemma StoresMayGo(f: Function)
    requires Proper(f) && StoresUnused(f)
    ensures f.order != [] && WellFormed(f) && Sweepable(f, AllDeadStores(f)) && AllMayGo(f, AllDeadStores(f))
    ensures Anchored(f) !! AllDeadStores(f)
  {
    hide *;
    ProperIsTidy(f);
    NoStoreAnchored(f);
    StorePlanClosed(f);
    StoresSweepable(f);
    forall b | b in f.blocks
      ensures (forall id | id in f.blocks[b] :: id in f.code)
      ensures MayGo(f.blocks[b], f.code, AllDeadStores(f), Anchored(f))
    {
      StoresMayGoHere(f, b, Anchored(f));
    }
    AllMayGoFold(f, AllDeadStores(f));
  }

  // ----- So does removing unreachable blocks

  lemma TrimmedLeads(f: Function, g: Function, gone: set<BlockId>, a: BlockId, b: BlockId)
    requires Tidy(f) && Tidy(g) && f.order != [] && AreUnreachable(f, gone) && Trimmed(f, g, gone)
    requires Reachable(f, a) && Leads(f, a, b)
    ensures Leads(g, a, b)
  {
    var id := LeadingTerminator(f, a, b);
    assert a !in gone;
    LeadsInside(f, a, b);
    ReachableNext(f, a, b);
    assert b !in gone;
    ReachInstr(f, g, gone, a, id);
    hide Tidy, AreUnreachable, Trimmed, Leads, IdsOfAll;
    LabelStays(f.code[id], g.code[id], IdsOfAll(f, gone), gone, b);
    TerminatorExits(g, a, id);
    LeadsFold(g, a, b);
  }

  lemma LabelStays(i: Instr, j: Instr, ids: set<Id>, gone: set<BlockId>, b: BlockId)
    requires TrimmedInstr(i, j, ids, gone) && IsTerminator(i.op) && Blk(b) in i.operands && b !in gone
    ensures j.op == i.op && Blk(b) in j.operands
  {
    var k :| 0 <= k < |i.operands| && i.operands[k] == Blk(b);
    assert j.operands[k] == Blk(b);
  }

  lemma TrimmedReachable(f: Function, g: Function, gone: set<BlockId>)
    requires Proper(f) && f.order != [] && AreUnreachable(f, gone) && Trimmed(f, g, gone)
    ensures g.order != [] && g.order[0] == f.order[0] && Proper(g)
    ensures forall b: BlockId | Reachable(f, b) :: Reachable(g, b)
  {
    ProperIsTidy(f);
    TrimmedProper(f, g, gone);
    ProperIsTidy(g);
    StartsInReach(f, g, gone, State([], 0, map[], map[], None));
    hide Proper, Tidy, AreUnreachable, Trimmed, Leads;
    forall a: BlockId, b: BlockId | Reachable(f, a) && Leads(f, a, b)
      ensures Leads(g, a, b)
    {
      TrimmedLeads(f, g, gone, a, b);
    }
    ReachableStays(f, g);
  }

  lemma TrimmedTakes(f: Function, g: Function, gone: set<BlockId>, i: Instr, j: Instr, ids: set<Id>, x: Id)
    requires f.order != [] && g.order != [] && Takes(f, i, x) && TrimmedInstr(i, j, ids, gone) && x !in ids
    requires forall b: BlockId | b in f.blocks && Reachable(f, b) :: b in g.blocks && Reachable(g, b) && b !in gone
    ensures Takes(g, j, x)
  {
    hide Reachable;
    if i.op == Phi {
      var p: BlockId :| p in f.blocks && Reachable(f, p) && IncomingFrom(i.operands, p, 0) == Some(Inst(x));
      assert IncomingFrom(j.operands, p, 0) == NullOption(IncomingFrom(i.operands, p, 0), ids, gone);
    } else {
      var k :| 0 <= k < |i.operands| && i.operands[k] == Inst(x);
      assert j.operands[k] == Inst(x);
    }
  }

  /** Where a reachable instruction is afterwards. */
  lemma TrimmedReached(f: Function, g: Function, gone: set<BlockId>, id: Id)
    requires Tidy(f) && f.order != [] && g.order != [] && AreUnreachable(f, gone) && Trimmed(f, g, gone)
    requires Reached(f, id)
    requires forall b: BlockId | Reachable(f, b) :: Reachable(g, b)
    ensures id in f.code && id in g.code && id !in IdsOfAll(f, gone) && Reached(g, id)
    ensures TrimmedInstr(f.code[id], g.code[id], IdsOfAll(f, gone), gone)
  {
    var b: BlockId :| b in f.blocks && Reachable(f, b) && id in f.blocks[b];
    assert b !in gone;
    ReachInstr(f, g, gone, b, id);
  }

  /** A closed set of g, with what is gone, is one of f. */
  lemma TrimmedClosed(f: Function, g: Function, gone: set<BlockId>, s: set<Id>)
    requires Tidy(f) && f.order != [] && g.order != [] && AreUnreachable(f, gone) && Trimmed(f, g, gone)
    requires forall b: BlockId | Reachable(f, b) :: Reachable(g, b)
    requires AnchorClosed(g, s)
    ensures AnchorClosed(f, s + IdsOfAll(f, gone))
  {
    var ids := IdsOfAll(f, gone);
    assert forall b: BlockId | b in f.blocks && Reachable(f, b) :: b in g.blocks && Reachable(g, b) && b !in gone;
    hide Tidy, AreUnreachable, Trimmed, Reached, Takes, Reachable, IsAnchor, IdsOfAll, TrimmedInstr;
    forall id: Id | Reached(f, id) && id in f.code && IsAnchor(f.code[id].op)
      ensures id in s + ids
    {
      TrimmedReached(f, g, gone, id);
      SameOpcode(f.code[id], g.code[id], ids, gone);
    }
    forall id: Id, x: Id | id in s + ids && Reached(f, id) && id in f.code && Takes(f, f.code[id], x)
      ensures x in s + ids
    {
      TrimmedReached(f, g, gone, id);
      if x !in ids { TrimmedTakes(f, g, gone, f.code[id], g.code[id], ids, x); }
    }
    ClosedFold(f, s + ids);
  }

  lemma TrimmedAnchored(f: Function, g: Function, gone: set<BlockId>)
    requires Tidy(f) && f.order != [] && g.order != [] && AreUnreachable(f, gone) && Trimmed(f, g, gone)
    requires forall b: BlockId | Reachable(f, b) :: Reachable(g, b)
    ensures forall id | id in Anchored(f) && id in g.code :: id in Anchored(g)
  {
    forall id: Id, s: set<Id> | id in Anchored(f) && id in g.code && AnchorClosed(g, s)
      ensures id in s
    {
      TrimmedClosed(f, g, gone, s);
      AnchoredIn(f, s + IdsOfAll(f, gone));
    }
    hide Tidy, AreUnreachable, AnchorClosed, Reachable;
  }

  /** An instruction does to a pointer that stays what it did. */
  lemma SameTouch(i: Instr, j: Instr, ids: set<Id>, gone: set<BlockId>, id: Id, ptr: Value)
    requires TrimmedInstr(i, j, ids, gone) && ptr != Null && ptr == NullValue(ptr, ids, gone)
    ensures j.op == i.op && j.ty == i.ty && (StoresTo(j, ptr) <==> StoresTo(i, ptr))
    ensures LoadsFrom(j, ptr) <==> LoadsFrom(i, ptr)
    ensures IsStore(i.op) ==> |j.operands| == |i.operands|
    ensures (Clear(j, id, ptr) <==> Clear(i, id, ptr)) && (PassesBy(j, id, ptr) <==> PassesBy(i, id, ptr))
  {
  }

  /** The pointer of a store, before and after. */
  lemma SamePlace(i: Instr, j: Instr, ids: set<Id>, gone: set<BlockId>)
    requires TrimmedInstr(i, j, ids, gone) && IsStore(j.op) && |j.operands| >= 2 && j.operands[1] != Null
    ensures |i.operands| == |j.operands| && i.operands[1] == j.operands[1] == NullValue(j.operands[1], ids, gone)
  {
  }

  /** Each instruction of the list is what was there, but for operands that are gone. */
  ghost predicate ListTrimmed(list: seq<Id>, code: map<Id, Instr>, code': map<Id, Instr>, ids: set<Id>,
                              gone: set<BlockId>)
  {
    forall id | id in list :: id in code && id in code' && TrimmedInstr(code[id], code'[id], ids, gone)
  }

  lemma TrimmedUndisturbed(list: seq<Id>, code: map<Id, Instr>, code': map<Id, Instr>, ids: set<Id>, gone: set<BlockId>,
                           k: nat, j: nat, ptr: Value)
    requires ListTrimmed(list, code, code', ids, gone) && ptr != Null && ptr == NullValue(ptr, ids, gone) && j <= |list|
    requires Undisturbed(list, code, k, j, ptr)
    ensures Undisturbed(list, code', k, j, ptr)
  {
    hide TrimmedInstr, LoadsFrom, IsCall, StoresTo;
    forall i | k <= i < j
      ensures !LoadsFrom(code'[list[i]], ptr) && !IsCall(code'[list[i]].op)
    {
      SameTouch(code[list[i]], code'[list[i]], ids, gone, list[i], ptr);
    }
  }

  lemma TrimmedDead(list: seq<Id>, code: map<Id, Instr>, code': map<Id, Instr>, ids: set<Id>, gone: set<BlockId>,
                    k: nat)
    requires ListTrimmed(list, code, code', ids, gone) && IsDeadStore(list, code, k)
    requires k < |list| && list[k] in code' && |code'[list[k]].operands| >= 2 && code'[list[k]].operands[1] != Null
    ensures IsDeadStore(list, code', k)
  {
    hide TrimmedInstr, StoresTo, IsDeadStore, Undisturbed;
    var n := DeadBy(list, code, k);
    var ptr := code'[list[k]].operands[1];
    assert list[k] in list && list[n] in list;
    SameOpcode(code[list[k]], code'[list[k]], ids, gone);
    SamePlace(code[list[k]], code'[list[k]], ids, gone);
    SameTouch(code[list[n]], code'[list[n]], ids, gone, list[n], ptr);
    TrimmedUndisturbed(list, code, code', ids, gone, k + 1, n, ptr);
    DeadFold(list, code', k, n);
  }

  lemma TrimmedParted(list: seq<Id>, code: map<Id, Instr>, code': map<Id, Instr>, ids: set<Id>, gone: set<BlockId>,
                      anchored: set<Id>, anchored': set<Id>, k: nat, j: nat, ptr: Value)
    requires ListTrimmed(list, code, code', ids, gone) && ptr != Null && ptr == NullValue(ptr, ids, gone) && j <= |list|
    requires forall id | id in anchored && id in code' :: id in anchored'
    requires Parted(list, code, anchored, k, j, ptr)
    ensures Parted(list, code', anchored', k, j, ptr)
  {
    var i :| k < i < j && Parts(code[list[i]], list[i], ptr, anchored);
    hide TrimmedInstr, LoadsFrom, IsCall, StoresTo;
    SameTouch(code[list[i]], code'[list[i]], ids, gone, list[i], ptr);
    assert Parts(code'[list[i]], list[i], ptr, anchored');
  }

  /** The stores of a block that stays, as they were but for operands that are gone. */
  lemma NulledCompact(list: seq<Id>, code: map<Id, Instr>, code': map<Id, Instr>, ids: set<Id>, gone: set<BlockId>,
                      anchored: set<Id>, anchored': set<Id>, chains: bool)
    requires (forall id | id in list :: id in code && id in code') && ListTrimmed(list, code, code', ids, gone)
    requires forall id | id in anchored && id in code' :: id in anchored'
    requires BlockCompact(list, code, anchored, chains)
    ensures BlockCompact(list, code', anchored', chains)
  {
    hide TrimmedInstr, StoresTo, IsDeadStore, Undisturbed, Parted, BlockCompact, Compact, ListTrimmed;
    forall k: nat, j: nat | k < j < |list| && SamePointer(list, code', k, j)
        && !Parted(list, code', anchored', k, j, code'[list[k]].operands[1])
           && (chains ==> !IsDeadStore(list, code', j))
      ensures Compact(list, code', k, j, chains)
    {
      var ptr := code'[list[k]].operands[1];
      TrimmedAt(list, code, code', ids, gone, k, ptr);
      TrimmedAt(list, code, code', ids, gone, j, ptr);
      StorePointer(code'[list[j]], ptr);
      if Parted(list, code, anchored, k, j, ptr) {
        TrimmedParted(list, code, code', ids, gone, anchored, anchored', k, j, ptr);
      }
      if IsDeadStore(list, code, j) { TrimmedDead(list, code, code', ids, gone, j); }
      CompactPair(list, code, anchored, k, j, chains);
      TrimmedPair(list, code, code', ids, gone, k, j, chains);
    }
    BlockCompactFold(list, code', anchored', chains);
  }

  /** A store to a pointer that is not null. */
  lemma TrimmedAt(list: seq<Id>, code: map<Id, Instr>, code': map<Id, Instr>, ids: set<Id>, gone: set<BlockId>, k: nat,
                  ptr: Value)
    requires ListTrimmed(list, code, code', ids, gone) && k < |list| && list[k] in code' && list[k] in code
    requires StoresTo(code'[list[k]], ptr) && ptr != Null
    ensures StoresTo(code[list[k]], ptr) && ptr == NullValue(ptr, ids, gone)
    ensures IsStore(code[list[k]].op) && |code[list[k]].operands| >= 2 && code[list[k]].operands[1] == ptr
  {
    assert list[k] in list;
    SamePlace(code[list[k]], code'[list[k]], ids, gone);
  }

  lemma TrimmedPair(list: seq<Id>, code: map<Id, Instr>, code': map<Id, Instr>, ids: set<Id>, gone: set<BlockId>,
                    k: nat, j: nat, chains: bool)
    requires (forall id | id in list :: id in code && id in code') && ListTrimmed(list, code, code', ids, gone)
    requires k < j < |list| && SamePointer(list, code', k, j) && Compact(list, code, k, j, chains)
    ensures Compact(list, code', k, j, chains)
  {
    var ptr := code'[list[k]].operands[1];
    assert list[k] in list && list[j] in list;
    SamePlace(code[list[k]], code'[list[k]], ids, gone);
    SamePlace(code[list[j]], code'[list[j]], ids, gone);
    SameTouch(code[list[k]], code'[list[k]], ids, gone, list[k], ptr);
    SameTouch(code[list[j]], code'[list[j]], ids, gone, list[j], ptr);
    hide TrimmedInstr, StoresTo, LoadsFrom, Clear, PassesBy;
    forall i | k < i < j
      ensures StandsBetween(code'[list[i]], list[i], ptr, chains)
    {
      SameTouch(code[list[i]], code'[list[i]], ids, gone, list[i], ptr);
    }
  }

  lemma TrimmedCompact(f: Function, g: Function, gone: set<BlockId>, chains: bool)
    requires Proper(f) && f.order != [] && AreUnreachable(f, gone) && Trimmed(f, g, gone) && Storewise(f, chains)
    ensures Storewise(g, chains)
  {
    ProperIsTidy(f);
    TrimmedReachable(f, g, gone);
    TrimmedAnchored(f, g, gone);
    hide Anchored, Proper;
    forall b | b in g.blocks
      ensures (forall id | id in g.blocks[b] :: id in g.code) && BlockCompact(g.blocks[b], g.code, Anchored(g), chains)
    {
      TrimmedBlock(f, g, gone, b);
      assert BlockCompact(f.blocks[b], f.code, Anchored(f), chains);
      forall id | id in g.blocks[b]
        ensures TrimmedInstr(f.code[id], g.code[id], IdsOfAll(f, gone), gone)
      {
        ReachInstr(f, g, gone, b, id);
      }
      hide Tidy, AreUnreachable, Trimmed, StoresCompact, TrimmedInstr, IdsOfAll, BlockCompact;
      NulledCompact(g.blocks[b], f.code, g.code, IdsOfAll(f, gone), gone, Anchored(f), Anchored(g), chains);
    }
    TrimmedUnused(f, g, gone);
  }

  lemma TrimmedUnused(f: Function, g: Function, gone: set<BlockId>)
    requires Trimmed(f, g, gone) && StoresUnused(f)
    ensures StoresUnused(g)
  {
    forall id, v | id in g.code && v in g.code[id].operands && v.Inst? && v.id in g.code
      ensures !IsStore(g.code[v.id].op)
    {
      var ids := IdsOfAll(f, gone);
      assert TrimmedInstr(f.code[id], g.code[id], ids, gone);
      SameOpcode(f.code[v.id], g.code[v.id], ids, gone);
      hide Trimmed;
      TrimmedUse(f.code[id], g.code[id], ids, gone, v);
    }
  }

  lemma TrimmedUse(i: Instr, j: Instr, ids: set<Id>, gone: set<BlockId>, v: Value)
    requires TrimmedInstr(i, j, ids, gone) && v in j.operands && v != Null
    ensures v in i.operands
  {
    var k :| 0 <= k < |j.operands| && j.operands[k] == v;
    if i.op != Phi { assert i.operands[k] in i.operands; }
  }
}
