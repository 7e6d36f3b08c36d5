/**
 The loop around the three eliminations: it ends, leaves nothing to eliminate, and
 preserves all runs of functions whose repeated stores are in good order once what is
 unreachable or unused is gone.
 */
module DeadInstructionElimination {
  import opened IR
  import opened Simulation
  import opened Erasure
  import opened UnreachableBlocks
  import opened UnreachableRuns
  import opened DeadCode
  import opened DeadStores
  import opened DeadStoreRuns
  import opened DeadStoreChains
  import opened Reordering
  import opened ProperFunctions
  import opened CompactStores

  // ----- Termination

  ghost predicate Listed(f: Function) {
    forall b | b in f.order :: b in f.blocks
  }

  /** Blocks and instructions together. */
  ghost function Weight(f: Function): nat
    requires Listed(f)
  {
    |f.order| + Size(f.blocks, f.order)
  }

  lemma ProperListed(f: Function)
    requires Proper(f)
    ensures Listed(f)
  {
  }

  lemma {:induction false} TrimmedSize(blocks: map<BlockId, seq<Id>>, blocks': map<BlockId, seq<Id>>,
                                       order: seq<BlockId>, gone: set<BlockId>)
    requires (forall b | b in order :: b in blocks) && blocks' == blocks - gone
    ensures forall b | b in Keep(order, gone) :: b in blocks'
    ensures Size(blocks', Keep(order, gone)) <= Size(blocks, order) && |Keep(order, gone)| <= |order|
    ensures (exists b :: b in order && b in gone) ==> |Keep(order, gone)| < |order|
  {
    KeepMembers(order, gone);
    if order != [] {
      TrimmedSize(blocks, blocks', order[1..], gone);
      var rest := Keep(order[1..], gone);
      assert ([order[0]] + rest)[1..] == rest && [] + rest == rest;
    }
  }

  lemma TrimWeighs(f: Function, g: Function, gone: set<BlockId>)
    requires Proper(f) && f.order != [] && AreUnreachable(f, gone) && Trimmed(f, g, gone)
    ensures Listed(f) && Listed(g) && Weight(g) <= Weight(f) && (gone != {} ==> Weight(g) < Weight(f))
  {
    TrimmedSize(f.blocks, g.blocks, f.order, gone);
    if gone != {} {
      var b :| b in gone;
      assert b in f.blocks;
      assert b in f.order;
    }
  }

  // ----- The loop

  /** A machine whose operations do no more to memory than their opcodes say. */
  ghost predicate Lawful(m: Machine, chains: bool) {
    EffectsListed(m) && MemoryListed(m) && if chains then StoreLaws(m) else LastStoreWins(m)
  }

  /** Where the stores of f are in order, those of g are too, and g does what f does. */
  ghost predicate KeepsCompactMeaning(f: Function, g: Function, chains: bool) {
    Storewise(f, chains) ==> Storewise(g, chains) && forall m | Lawful(m, chains) :: Preserves(m, f, g)
  }

  /** And so whether or not chains of stores are allowed. */
  ghost predicate KeepsMeaning(f: Function, g: Function) {
    forall chains: bool :: KeepsCompactMeaning(f, g, chains)
  }

  lemma KeepsMeaningThen(f: Function, g: Function, h: Function)
    requires KeepsMeaning(f, g) && KeepsMeaning(g, h)
    ensures KeepsMeaning(f, h)
  {
    hide Storewise, Lawful, Preserves;
    forall chains: bool
      ensures KeepsCompactMeaning(f, h, chains)
    {
      assert KeepsCompactMeaning(f, g, chains) && KeepsCompactMeaning(g, h, chains);
      if Storewise(f, chains) {
        forall m | Lawful(m, chains)
          ensures Preserves(m, f, h)
        {
          PreservesThen(m, f, g, h);
        }
      }
    }
  }

  lemma KeepsMeaningItself(f: Function)
    ensures KeepsMeaning(f, f)
  {
    hide Storewise, Lawful;
    forall chains: bool, m | Lawful(m, chains)
      ensures Preserves(m, f, f)
    {
      PreservesItself(m, f);
    }
  }

  lemma TrimKeepsMeaning(f: Function, g: Function, gone: set<BlockId>)
    requires Proper(f) && f.order != [] && AreUnreachable(f, gone) && Trimmed(f, g, gone)
    ensures KeepsMeaning(f, g)
  {
    ProperIsTidy(f);
    hide Proper, Tidy, AreUnreachable, Trimmed, Preserves, Lawful, StoresCompact, StoresUnused;
    forall chains: bool
      ensures KeepsCompactMeaning(f, g, chains)
    {
      if Storewise(f, chains) {
        TrimmedCompact(f, g, gone, chains);
        forall m | Lawful(m, chains)
          ensures Preserves(m, f, g)
        {
          TrimPreserves(m, f, g, gone);
        }
      }
    }
  }

  lemma SweepKeepsMeaning(f: Function, live: set<Id>)
    requires Proper(f) && IsLiveSet(f, live)
    ensures KeepsMeaning(f, Rewrite(f, SweepPlan(f, live)))
  {
    ProperIsTidy(f);
    SweepPlanIs(f, live);
    hide Proper, Tidy, IsLiveSet, SweepPlan, Rewrite, Preserves, MemoryListed, LastStoreWins, StoreLaws, EffectsListed,
         OperandsExist, WellFormed, StoresCompact, StoresUnused;
    forall chains: bool
      ensures KeepsCompactMeaning(f, Rewrite(f, SweepPlan(f, live)), chains)
    {
      if Storewise(f, chains) {
        SweepMayGo(f, live);
        SweptCompact(f, SweepPlan(f, live).dead, chains);
        forall m | Lawful(m, chains)
          ensures Preserves(m, f, Rewrite(f, SweepPlan(f, live)))
        {
          EliminationPreservesRuns(m, f, live);
        }
      }
    }
  }

  lemma StoresKeepMeaning(f: Function)
    requires Proper(f)
    ensures WellFormed(f) && KeepsMeaning(f, Rewrite(f, StorePlan(f)))
  {
    ProperIsTidy(f);
    StorePlanIs(f);
    hide Proper, Tidy, StorePlan, Rewrite, Preserves, MemoryListed, LastStoreWins, StoreLaws, EffectsListed,
         OperandsExist, WellFormed, StoresCompact, StoresUnused, StoresSuperseded, StoresMadeUp;
    forall chains: bool
      ensures KeepsCompactMeaning(f, Rewrite(f, StorePlan(f)), chains)
    {
      if Storewise(f, chains) {
        StorewiseMeans(f, chains);
        StoresMayGo(f);
        SweptCompact(f, StorePlan(f).dead, chains);
        CompactSuperseded(f, chains);
        forall m | Lawful(m, chains)
          ensures Preserves(m, f, Rewrite(f, StorePlan(f)))
        {
          if chains { DeadStoreChainsPreserveRuns(m, f); } else { DeadStoresPreserveRuns(m, f); }
        }
      }
    }
  }

  lemma StorewiseMeans(f: Function, chains: bool)
    requires Storewise(f, chains)
    ensures StoresCompact(f, chains) && StoresUnused(f)
  {
  }

  // ----- Once what is unreachable or unused is gone

  /** h is f after unreachable blocks and then dead instructions have been removed. */
  ghost predicate IsCleaned(f: Function, h: Function) {
    f.order != [] && exists gone: set<BlockId>, mid: Function, live: set<Id> ::
      AreUnreachable(f, gone) && Trimmed(f, mid, gone) && IsLiveSet(mid, live)
         && h == Rewrite(mid, SweepPlan(mid, live))
  }

  /** Whatever the stores are. */
  ghost predicate AlwaysPreserves(f: Function, g: Function) {
    forall m | EffectsListed(m) :: Preserves(m, f, g)
  }

  lemma CleaningPreserves(f: Function, mid: Function, gone: set<BlockId>, live: set<Id>)
    requires Proper(f) && f.order != [] && AreUnreachable(f, gone) && Trimmed(f, mid, gone) && Proper(mid)
    requires IsLiveSet(mid, live)
    ensures IsCleaned(f, Rewrite(mid, SweepPlan(mid, live)))
    ensures AlwaysPreserves(f, Rewrite(mid, SweepPlan(mid, live)))
  {
    ProperIsTidy(f);
    ProperIsTidy(mid);
    hide Proper, Tidy, AreUnreachable, Trimmed, Preserves, IsLiveSet, SweepPlan, Rewrite, EffectsListed, WellFormed,
         OperandsExist;
    forall m | EffectsListed(m)
      ensures Preserves(m, f, Rewrite(mid, SweepPlan(mid, live)))
    {
      TrimPreserves(m, f, mid, gone);
      EliminationPreservesRuns(m, mid, live);
      PreservesThen(m, f, mid, Rewrite(mid, SweepPlan(mid, live)));
    }
  }

  /** Everything is reachable, every instruction is live, and no store is dead. */
  ghost predicate NothingLeft(f: Function) {
    && Proper(f)
    && (forall b | b in f.blocks :: f.order != [] && Reachable(f, b))
    && (exists live :: IsLiveSet(f, live) && AllIds(f) <= live)
    && WellFormed(f) && AllDeadStores(f) == {}
  }

  lemma NoneSwept(f: Function, dead: set<Id>)
    requires Rewrite(f, Plan(dead, map[])) == f
    ensures AllIds(f) !! dead
  {
    SweptShape(f, dead);
    hide Rewrite;
    forall b, id | b in f.blocks && id in f.blocks[b]
      ensures id !in dead
    {
      KeepMembers(f.blocks[b], dead);
    }
  }

  lemma RoundLeftNothing(f: Function, gone: set<BlockId>, live: set<Id>)
    requires Proper(f) && f.order != [] && AreUnreachable(f, gone) && gone == {}
    requires IsLiveSet(f, live) && Rewrite(f, SweepPlan(f, live)) == f
    requires WellFormed(f) && Rewrite(f, StorePlan(f)) == f
    ensures NothingLeft(f)
  {
    SweepPlanIs(f, live);
    StorePlanIs(f);
    hide Proper, WellFormed, IsLiveSet, Rewrite;
    NoneSwept(f, SweepPlan(f, live).dead);
    NoneSwept(f, AllDeadStores(f));
    DeadStoresListed(f);
  }

  lemma DeadStoresListed(f: Function)
    requires WellFormed(f)
    ensures AllDeadStores(f) <= AllIds(f)
  {
    forall id | id in AllDeadStores(f)
      ensures id in AllIds(f)
    {
      hide WellFormed, AllDeadStores;
      var b := DeadStoreAt(f, id);
    }
  }

  lemma SweepIsProper(f: Function, live: set<Id>)
    requires Proper(f) && IsLiveSet(f, live)
    ensures Proper(Rewrite(f, SweepPlan(f, live))) && Rewrite(f, SweepPlan(f, live)).order == f.order
  {
    ProperIsTidy(f);
    SweepPlanIs(f, live);
    forall id | id in SweepPlan(f, live).dead && id in f.code
      ensures !IsTerminator(f.code[id].op)
    {
      DeadNotRoot(f, live, id);
    }
    hide Proper, IsLiveSet, SweepPlan;
    SweptProper(f, SweepPlan(f, live).dead);
  }

  lemma StoresLeaveProper(f: Function)
    requires Proper(f)
    ensures WellFormed(f) && Proper(Rewrite(f, StorePlan(f))) && Rewrite(f, StorePlan(f)).order == f.order
  {
    ProperIsTidy(f);
    StorePlanIs(f);
    forall id | id in AllDeadStores(f) && id in f.code
      ensures !IsTerminator(f.code[id].op)
    {
      hide Proper, WellFormed, AllDeadStores;
      var b := DeadStoreAt(f, id);
    }
    hide Proper, StorePlan, AllDeadStores;
    SweptProper(f, AllDeadStores(f));
  }

  lemma WeightIs(f: Function)
    requires Listed(f)
    ensures Weight(f) == |f.order| + Size(f.blocks, f.order)
  {
  }

  /** One round: unreachable blocks, dead instructions, dead stores. */
  method Round(f: Function) returns (g: Function, changed: bool, ghost cleaned: Function)
    requires Proper(f)
    ensures Proper(g) && Listed(f) && Listed(g) && KeepsMeaning(f, g)
    ensures IsCleaned(f, cleaned) && AlwaysPreserves(f, cleaned) && KeepsMeaning(cleaned, g)
    ensures changed <==> Weight(g) < Weight(f)
    ensures !changed ==> g == f && NothingLeft(g)
  {
    hide *;
    changed := false;
    ProperIsTidy(f);
    ProperListed(f);
    var f1, blocksGone, gone := EliminateUnreachableBlocks(f);
    if blocksGone { changed := true; }
    TrimmedProper(f, f1, gone);
    TrimKeepsMeaning(f, f1, gone);
    TrimWeighs(f, f1, gone);
    ProperIsTidy(f1);
    var f2, removed, live := EliminateDeadInstructions(f1);
    if removed > 0 { changed := true; }
    SweepIsProper(f1, live);
    SweepKeepsMeaning(f1, live);
    CleaningPreserves(f, f1, gone, live);
    cleaned := f2;
    ProperIsTidy(f2);
    var f3, stores := EliminateDeadStores(f2);
    if stores > 0 { changed := true; }
    StoresLeaveProper(f2);
    StoresKeepMeaning(f2);
    g := f3;
    ProperListed(f2);
    ProperListed(f3);
    WeightIs(f1);
    WeightIs(f2);
    WeightIs(f3);
    KeepsMeaningThen(f, f1, f2);
    KeepsMeaningThen(f, f2, f3);
    if !changed {
      RoundLeftNothing(f, gone, live);
    }
  }

  /**
   Rounds until one finds nothing: every round that finds something makes the function
   lighter. The result has nothing left to eliminate; and if stores are in order, in f or
   only once what is unreachable or unused is gone, it does on every lawful machine what f
   does.
   */
  method PerformTransformation(f: Function) returns (g: Function, changed: bool, ghost cleaned: Function)
    requires Proper(f)
    ensures NothingLeft(g) && KeepsMeaning(f, g)
    ensures IsCleaned(f, cleaned) && AlwaysPreserves(f, cleaned) && KeepsMeaning(cleaned, g)
    ensures Listed(f) && Listed(g) && (changed <==> Weight(g) < Weight(f))
    ensures !changed ==> g == f
  {
    hide *;
    changed := false;
    var iterationChanged := true;
    g := f;
    cleaned := f;
    ghost var started := false;
    ProperListed(f);
    KeepsMeaningItself(f);
    while iterationChanged
      invariant Proper(g) && Listed(g) && KeepsMeaning(f, g)
      invariant if started then IsCleaned(f, cleaned) && AlwaysPreserves(f, cleaned) && KeepsMeaning(cleaned, g)
                else iterationChanged && g == f
      invariant Weight(g) <= Weight(f) && (changed <==> Weight(g) < Weight(f))
      invariant !changed ==> g == f
      invariant !iterationChanged ==> NothingLeft(g)
      decreases Weight(g), if iterationChanged then 1 else 0
    {
      ghost var g0, cleaned0 := g, cleaned;
      g, iterationChanged, cleaned := Round(g);
      KeepsMeaningThen(f, g0, g);
      if started {
        cleaned := cleaned0;
        KeepsMeaningThen(cleaned, g0, g);
      }
      started := true;
      if iterationChanged { changed := true; }
    }
  }
}
