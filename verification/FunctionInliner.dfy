/**
 The inliner: the search that decides whether one function can reach another, what
 inlining does to the call graph, and why inlining until nothing changes ends.
 */
module FunctionInliner {
  import opened IR
  import opened CallGraph

  // ----- The search

  /** What was visited since `before` calls only what was visited, and never the target. */
  ghost predicate Explored(m: Module, before: set<FunId>, visited: set<FunId>, target: FunId) {
    forall f: FunId, g: FunId | f in visited && f !in before && Calls(m, f, g) :: g != target && g in visited
  }

  /** The same with `current` only explored up to some of its calls. */
  ghost predicate Exploring(m: Module, before: set<FunId>, current: FunId, visited: set<FunId>, target: FunId,
                            done: seq<Item>)
  {
    && before + {current} <= visited
    && (forall f: FunId, g: FunId | f in visited && f !in before && f != current && Calls(m, f, g) ::
        g != target && g in visited)
    && (forall g: FunId | HasCall(done, g) :: g != target && g in visited)
  }

  lemma {:induction false} ExploredAvoids(m: Module, visited: set<FunId>, target: FunId, p: seq<FunId>)
    requires Explored(m, {}, visited, target) && IsCallPath(m, p) && p[0] in visited
    ensures Last(p) != target
    decreases |p|
  {
    FirstCall(m, p);
    if |p| > 2 { ExploredAvoids(m, visited, target, p[1..]); }
  }

  lemma HasCallNext(done: seq<Item>, item: Item)
    ensures forall g: FunId :: HasCall(done + [item], g) <==> HasCall(done, g) || (item.CallTo? && item.callee == g)
  {
    forall g: FunId
      ensures HasCall(done + [item], g) <==> HasCall(done, g) || (item.CallTo? && item.callee == g)
    {
      var all := done + [item];
      if HasCall(done, g) {
        var i :| 0 <= i < |done| && done[i].CallTo? && done[i].callee == g;
        assert all[i].callee == g;
      }
      if item.CallTo? && item.callee == g { assert all[|done|].callee == g; }
      if HasCall(all, g) {
        var i :| 0 <= i < |all| && all[i].CallTo? && all[i].callee == g;
        if i < |done| { assert done[i].callee == g; }
      }
    }
  }

  lemma NoCalls()
    ensures forall g: FunId :: !HasCall([], g)
  {
  }

  /** Depth first over the calls, block by block. */
  method CalleeCanReach(m: Module, current: FunId, target: FunId, visited: set<FunId>)
    returns (found: bool, visited': set<FunId>)
    requires Closed(m) && current in m && visited <= m.Keys
    ensures visited <= visited' <= m.Keys
    ensures found ==> Reaches(m, current, target)
    ensures !found ==> current in visited' && Explored(m, visited, visited', target)
    decreases m.Keys - visited
  {
    visited' := visited;
    if current in visited {
      return false, visited;
    }
    visited' := visited + {current};
    var blocks := m[current];
    NoCalls();
    for b := 0 to |blocks|
      invariant visited' <= m.Keys && Exploring(m, visited, current, visited', target, Flat(blocks[..b]))
    {
      assert blocks[..b + 1][..b] == blocks[..b] && Last(blocks[..b + 1]) == blocks[b];
      assert Flat(blocks[..b]) + blocks[b][..0] == Flat(blocks[..b]);
      for k := 0 to |blocks[b]|
        invariant visited' <= m.Keys
        invariant Exploring(m, visited, current, visited', target, Flat(blocks[..b]) + blocks[b][..k])
      {
        hide Exploring, Explored, Calls, HasCall, Flat, Reaches, Closed;
        var item := blocks[b][k];
        ghost var done := Flat(blocks[..b]) + blocks[b][..k];
        assert done + [item] == Flat(blocks[..b]) + blocks[b][..k + 1];
        if item.CallTo? {
          var subCallee := item.callee;
          CalledHere(m, current, b, k);
          if subCallee == target {
            CallReaches(m, current, target);
            return true, visited';
          }
          ghost var before := visited';
          ExploringBelow(m, visited, current, visited', target, done);
          found, visited' := CalleeCanReach(m, subCallee, target, visited');
          if found {
            CallReaches(m, current, subCallee);
            ReachesThen(m, current, subCallee, target);
            return;
          }
          ExploringOn(m, visited, current, before, visited', target, done, item);
        } else {
          PlainOn(m, visited, current, visited', target, done, item);
        }
      }
      assert blocks[b][..|blocks[b]|] == blocks[b];
    }
    assert blocks[..|blocks|] == blocks;
    found := false;
    assert Explored(m, visited, visited', target);
  }

  lemma ExploringBelow(m: Module, before: set<FunId>, current: FunId, visited: set<FunId>, target: FunId,
                       done: seq<Item>)
    requires Exploring(m, before, current, visited, target, done)
    ensures before + {current} <= visited
  {
  }

  lemma PlainOn(m: Module, before: set<FunId>, current: FunId, visited: set<FunId>, target: FunId, done: seq<Item>,
                item: Item)
    requires Exploring(m, before, current, visited, target, done) && !item.CallTo?
    ensures Exploring(m, before, current, visited, target, done + [item])
  {
    HasCallNext(done, item);
    hide HasCall, Calls;
  }

  lemma ExploringOn(m: Module, before: set<FunId>, current: FunId, visited: set<FunId>, visited': set<FunId>,
                    target: FunId, done: seq<Item>, item: Item)
    requires Exploring(m, before, current, visited, target, done)
    requires item.CallTo? && item.callee != target && item.callee in visited' && visited <= visited'
    requires Explored(m, visited, visited', target)
    ensures Exploring(m, before, current, visited', target, done + [item])
  {
    HasCallNext(done, item);
    hide HasCall, Calls;
  }

  /** The k-th instruction of the b-th block is one of the function's calls. */
  lemma CalledHere(m: Module, f: FunId, b: nat, k: nat)
    requires Closed(m) && f in m && b < |m[f]| && k < |m[f][b]| && m[f][b][k].CallTo?
    ensures Calls(m, f, m[f][b][k].callee) && m[f][b][k].callee in m
  {
    var blocks := m[f];
    assert blocks == blocks[..b] + ([blocks[b]] + blocks[b + 1..]);
    FlatSplits(blocks[..b], [blocks[b]] + blocks[b + 1..]);
    FlatSplits([blocks[b]], blocks[b + 1..]);
    FlatOne(blocks[b]);
    var n := |Flat(blocks[..b])|;
    assert Flat(blocks)[n + k] == blocks[b][k];
  }

  /** Whether a nonempty chain of calls leads from one function to another. */
  method CanReach(m: Module, current: FunId, target: FunId) returns (found: bool)
    requires Closed(m) && current in m
    ensures found <==> Reaches(m, current, target)
  {
    var visited;
    found, visited := CalleeCanReach(m, current, target, {});
    if !found && Reaches(m, current, target) {
      ghost var p: seq<FunId> :| IsCallPath(m, p) && p[0] == current && Last(p) == target;
      ExploredAvoids(m, visited, target, p);
    }
  }

  // ----- Which calls may be inlined

  function Size(blocks: seq<seq<Item>>): nat {
    |Flat(blocks)|
  }

  ghost predicate Inlinable(m: Module, callee: FunId, caller: FunId, threshold: nat) {
    && callee in m && callee != caller && m[callee] != []
    && !Recursive(m, callee) && !Reaches(m, callee, caller)
    && Size(m[callee]) <= threshold
  }

  method CanInline(m: Module, callee: FunId, caller: FunId, threshold: nat) returns (r: bool)
    requires Closed(m) && callee in m && caller in m
    ensures r <==> Inlinable(m, callee, caller, threshold)
  {
    if callee == caller { return false; }
    var blocks := m[callee];
    if blocks == [] { return false; }
    var self := CanReach(m, callee, callee);
    if self { return false; }
    var back := CanReach(m, callee, caller);
    if back { return false; }
    var totalInstrs := 0;
    for b := 0 to |blocks|
      invariant totalInstrs == |Flat(blocks[..b])|
    {
      assert blocks[..b + 1][..b] == blocks[..b];
      totalInstrs := totalInstrs + |blocks[b]|;
    }
    assert blocks[..|blocks|] == blocks;
    r := totalInstrs <= threshold;
  }

  // ----- Inlining

  /** A call site: block and position. */
  datatype Site = Site(block: nat, index: nat)

  predicate IsSite(m: Module, caller: FunId, site: Site) {
    && caller in m && site.block < |m[caller]| && site.index < |m[caller][site.block]|
    && m[caller][site.block][site.index].CallTo?
  }

  function CalleeAt(m: Module, caller: FunId, site: Site): FunId
    requires IsSite(m, caller, site)
  {
    m[caller][site.block][site.index].callee
  }

  function CloneItem(item: Item): Item {
    if item.Return? then Plain else item
  }

  function CloneBlock(block: seq<Item>): (r: seq<Item>)
    ensures |r| == |block| && forall i | 0 <= i < |block| :: r[i] == CloneItem(block[i])
  {
    seq(|block|, i requires 0 <= i < |block| => CloneItem(block[i]))
  }

  function CloneBlocks(blocks: seq<seq<Item>>): (r: seq<seq<Item>>)
    ensures |r| == |blocks|
  {
    if blocks == [] then [] else CloneBlocks(blocks[..|blocks| - 1]) + [CloneBlock(Last(blocks))]
  }

  function ReturnValues(items: seq<Item>): nat {
    if items == [] then 0
    else ReturnValues(items[..|items| - 1]) + if Last(items).Return? && Last(items).hasValue then 1 else 0
  }

  /** The phi that joins several returned values. */
  function JoinPhi(m: Module, caller: FunId, site: Site): seq<Item>
    requires IsSite(m, caller, site) && CalleeAt(m, caller, site) in m
  {
    if !m[caller][site.block][site.index].isVoid && ReturnValues(Flat(m[CalleeAt(m, caller, site)])) > 1 then [Plain]
        else []
  }

  /** The caller's blocks: split at the call, the callee's clone between the halves. */
  function InlinedBlocks(m: Module, caller: FunId, site: Site): seq<seq<Item>>
    requires IsSite(m, caller, site) && CalleeAt(m, caller, site) in m
  {
    var blocks, b, k := m[caller], site.block, site.index;
    blocks[..b] + [blocks[b][..k] + [Plain]] + CloneBlocks(m[CalleeAt(m, caller, site)])
      + [JoinPhi(m, caller, site) + blocks[b][k + 1..]] + blocks[b + 1..]
  }

  function Inline(m: Module, caller: FunId, site: Site): Module
    requires IsSite(m, caller, site) && CalleeAt(m, caller, site) in m
  {
    m[caller := InlinedBlocks(m, caller, site)]
  }

  // What a caller's instructions are before and after.

  function Before(m: Module, caller: FunId, site: Site): seq<Item>
    requires IsSite(m, caller, site)
  {
    Flat(m[caller][..site.block]) + m[caller][site.block][..site.index]
  }

  function After(m: Module, caller: FunId, site: Site): seq<Item>
    requires IsSite(m, caller, site)
  {
    m[caller][site.block][site.index + 1..] + Flat(m[caller][site.block + 1..])
  }

  lemma FlatAround(m: Module, caller: FunId, site: Site)
    requires IsSite(m, caller, site)
    ensures Flat(m[caller]) == Before(m, caller, site) + [m[caller][site.block][site.index]] + After(m, caller, site)
  {
    BeforeAfter(m, caller, site);
    hide Flat, Before, After;
    FlatAt(m[caller], site.block, site.index);
  }

  lemma FlatAt(blocks: seq<seq<Item>>, b: nat, k: nat)
    requires b < |blocks| && k < |blocks[b]|
    ensures Flat(blocks)
         == (Flat(blocks[..b]) + blocks[b][..k]) + [blocks[b][k]] + (blocks[b][k + 1..] + Flat(blocks[b + 1..]))
  {
    hide Flat;
    var list := blocks[b];
    assert blocks == blocks[..b] + ([list] + blocks[b + 1..]);
    FlatSplits(blocks[..b], [list] + blocks[b + 1..]);
    FlatSplits([list], blocks[b + 1..]);
    FlatOne(list);
    assert list == list[..k] + [list[k]] + list[k + 1..];
    Regroup(Flat(blocks[..b]), list[..k], [list[k]], list[k + 1..], Flat(blocks[b + 1..]));
  }

  lemma Regroup(a: seq<Item>, b: seq<Item>, c: seq<Item>, d: seq<Item>, e: seq<Item>)
    ensures a + (b + c + d + e) == (a + b) + c + (d + e)
  {
  }

  lemma FlatInlined(m: Module, caller: FunId, site: Site)
    requires IsSite(m, caller, site) && CalleeAt(m, caller, site) in m
    ensures Flat(InlinedBlocks(m, caller, site)) ==
            Before(m, caller, site) + [Plain] + Flat(CloneBlocks(m[CalleeAt(m, caller, site)]))
              + JoinPhi(m, caller, site) + After(m, caller, site)
  {
    var blocks, b, k := m[caller], site.block, site.index;
    var clone := CloneBlocks(m[CalleeAt(m, caller, site)]);
    var head, tail := blocks[b][..k] + [Plain], JoinPhi(m, caller, site) + blocks[b][k + 1..];
    assert InlinedBlocks(m, caller, site) == blocks[..b] + [head] + clone + [tail] + blocks[b + 1..];
    hide *;
    BeforeAfter(m, caller, site);
    FlatSplits(blocks[..b] + [head] + clone + [tail], blocks[b + 1..]);
    FlatSplits(blocks[..b] + [head] + clone, [tail]);
    FlatSplits(blocks[..b] + [head], clone);
    FlatSplits(blocks[..b], [head]);
    FlatOne(head);
    FlatOne(tail);
  }

  lemma BeforeAfter(m: Module, caller: FunId, site: Site)
    requires IsSite(m, caller, site)
    ensures site.block < |m[caller]| && site.index < |m[caller][site.block]|
    ensures Before(m, caller, site) == Flat(m[caller][..site.block]) + m[caller][site.block][..site.index]
    ensures After(m, caller, site) == m[caller][site.block][site.index + 1..] + Flat(m[caller][site.block + 1..])
  {
  }

  // ----- Returns and size

  /** The returns among the instructions. */
  function Returns(items: seq<Item>): seq<Item> {
    if items == [] then [] else Returns(items[..|items| - 1]) + if Last(items).Return? then [Last(items)] else []
  }

  lemma {:induction false} ReturnsSplit(a: seq<Item>, b: seq<Item>)
    ensures Returns(a + b) == Returns(a) + Returns(b)
    decreases |b|
  {
    if b == [] {
      assert a + b == a;
    } else {
      ReturnsSplit(a, b[..|b| - 1]);
      assert (a + b)[..|a + b| - 1] == a + b[..|b| - 1];
    }
  }

  lemma {:induction false} NoReturns(items: seq<Item>)
    requires forall i | 0 <= i < |items| :: !items[i].Return?
    ensures Returns(items) == []
  {
    if items != [] { NoReturns(items[..|items| - 1]); }
  }

  /** No clone returns. */
  lemma {:induction false} ClonesDoNotReturn(blocks: seq<seq<Item>>)
    ensures Returns(Flat(CloneBlocks(blocks))) == [] && |Flat(CloneBlocks(blocks))| == |Flat(blocks)|
  {
    if blocks != [] {
      var front, last := blocks[..|blocks| - 1], Last(blocks);
      ClonesDoNotReturn(front);
      NoReturns(CloneBlock(last));
      hide CloneBlock;
      assert CloneBlocks(blocks)[..|blocks| - 1] == CloneBlocks(front);
      ReturnsSplit(Flat(CloneBlocks(front)), CloneBlock(last));
    }
  }

  lemma ReturnsOfOne(item: Item)
    ensures Returns([item]) == if item.Return? then [item] else []
  {
    assert [item][..0] == [];
  }

  /** Inlined, the callee returns to behind the call: the caller's returns are those it had. */
  lemma InliningKeepsReturns(m: Module, caller: FunId, site: Site)
    requires IsSite(m, caller, site) && CalleeAt(m, caller, site) in m
    ensures Returns(Flat(InlinedBlocks(m, caller, site))) == Returns(Flat(m[caller]))
  {
    hide *;
    CallIsThere(m, caller, site);
    FlatAround(m, caller, site);
    FlatInlined(m, caller, site);
    ClonesDoNotReturn(m[CalleeAt(m, caller, site)]);
    ReturnsOfOne(m[caller][site.block][site.index]);
    ReturnsOfOne(Plain);
    var before, after := Before(m, caller, site), After(m, caller, site);
    ReturnsAround(before, [m[caller][site.block][site.index]], [], [], after);
    ReturnsAround(before, [Plain], Flat(CloneBlocks(m[CalleeAt(m, caller, site)])), JoinPhi(m, caller, site), after);
  }

  lemma CallIsThere(m: Module, caller: FunId, site: Site)
    requires IsSite(m, caller, site) && CalleeAt(m, caller, site) in m
    ensures caller in m && site.block < |m[caller]| && site.index < |m[caller][site.block]|
    ensures !m[caller][site.block][site.index].Return? && Returns(JoinPhi(m, caller, site)) == [] && Returns([]) == []
  {
    NoReturns(JoinPhi(m, caller, site));
  }

  lemma ReturnsAround(a: seq<Item>, b: seq<Item>, c: seq<Item>, d: seq<Item>, e: seq<Item>)
    ensures Returns(b) == [] && Returns(c) == [] && Returns(d) == [] ==>
              Returns(a + b + c + d + e) == Returns(a) + Returns(e)
    ensures a + b + [] + [] + e == a + b + e
  {
    hide Returns;
    ReturnsSplit(a + b + c + d, e);
    ReturnsSplit(a + b + c, d);
    ReturnsSplit(a + b, c);
    ReturnsSplit(a, b);
    assert a + b + [] + [] == a + b && Returns(a) + [] == Returns(a);
  }

  /** Two returns with a value. */
  ghost predicate ReturnsTwice(items: seq<Item>) {
    exists i, j :: 0 <= i < j < |items|
      && items[i].Return? && items[i].hasValue && items[j].Return? && items[j].hasValue
  }

  lemma {:induction false} ReturnValuesCount(items: seq<Item>)
    ensures ReturnValues(items) > 0 <==> exists i :: 0 <= i < |items| && items[i].Return? && items[i].hasValue
    ensures ReturnValues(items) > 1 <==> ReturnsTwice(items)
  {
    if items != [] {
      var front := items[..|items| - 1];
      ReturnValuesCount(front);
      assert forall i | 0 <= i < |front| :: front[i] == items[i];
      if ReturnsTwice(items) && !ReturnsTwice(front) {
        var i, j :| 0 <= i < j < |items|
                    && items[i].Return? && items[i].hasValue && items[j].Return? && items[j].hasValue;
        assert j == |front| && front[i] == items[i];
      }
    }
  }

  /**
   What inlining adds to the caller: the callee's instructions, and a phi where the call has a value
   and the callee returns one at more than one place.
   */
  lemma InlinedSize(m: Module, caller: FunId, site: Site)
    requires IsSite(m, caller, site) && CalleeAt(m, caller, site) in m
    ensures var callee := Flat(m[CalleeAt(m, caller, site)]);
            var phis := if !m[caller][site.block][site.index].isVoid && ReturnsTwice(callee) then 1 else 0;
            |Flat(InlinedBlocks(m, caller, site))| == |Flat(m[caller])| + |callee| + phis
  {
    FlatAround(m, caller, site);
    FlatInlined(m, caller, site);
    ClonesDoNotReturn(m[CalleeAt(m, caller, site)]);
    ReturnValuesCount(Flat(m[CalleeAt(m, caller, site)]));
  }

  // ----- Calls and weights of a clone

  lemma HasCallSplits(a: seq<Item>, b: seq<Item>, g: FunId)
    ensures HasCall(a + b, g) <==> HasCall(a, g) || HasCall(b, g)
  {
    if HasCall(a, g) {
      var i :| 0 <= i < |a| && a[i].CallTo? && a[i].callee == g;
      assert (a + b)[i].callee == g;
    }
    if HasCall(b, g) {
      var i :| 0 <= i < |b| && b[i].CallTo? && b[i].callee == g;
      assert (a + b)[|a| + i].callee == g;
    }
    if HasCall(a + b, g) {
      var i :| 0 <= i < |a + b| && (a + b)[i].CallTo? && (a + b)[i].callee == g;
      if i < |a| { assert a[i].callee == g; } else { assert b[i - |a|].callee == g; }
    }
  }

  lemma CloneBlockCalls(block: seq<Item>, g: FunId)
    ensures HasCall(CloneBlock(block), g) <==> HasCall(block, g)
  {
    if HasCall(block, g) {
      var i :| 0 <= i < |block| && block[i].CallTo? && block[i].callee == g;
      assert CloneBlock(block)[i].callee == g;
    }
  }

  lemma {:induction false} CloneCalls(blocks: seq<seq<Item>>, g: FunId)
    ensures HasCall(Flat(CloneBlocks(blocks)), g) <==> HasCall(Flat(blocks), g)
  {
    if blocks != [] {
      var front, last := blocks[..|blocks| - 1], Last(blocks);
      hide HasCall;
      CloneCalls(front, g);
      CloneBlockCalls(last, g);
      FlatSplits(CloneBlocks(front), [CloneBlock(last)]);
      FlatOne(CloneBlock(last));
      HasCallSplits(Flat(CloneBlocks(front)), CloneBlock(last), g);
      HasCallSplits(Flat(front), last, g);
    }
  }

  lemma {:induction false} CloneBlockWeight(m: Module, block: seq<Item>)
    requires Closed(m)
    ensures Weight(m, CloneBlock(block)) == Weight(m, block)
    decreases |block|
  {
    hide CallWeight, Closed;
    if block != [] {
      assert CloneBlock(block)[..|block| - 1] == CloneBlock(block[..|block| - 1]);
      CloneBlockWeight(m, block[..|block| - 1]);
    }
  }

  lemma {:induction false} CloneWeight(m: Module, blocks: seq<seq<Item>>)
    requires Closed(m)
    ensures Weight(m, Flat(CloneBlocks(blocks))) == Weight(m, Flat(blocks))
  {
    if blocks != [] {
      var front, last := blocks[..|blocks| - 1], Last(blocks);
      hide Weight, Closed;
      CloneWeight(m, front);
      CloneBlockWeight(m, last);
      FlatSplits(CloneBlocks(front), [CloneBlock(last)]);
      FlatOne(CloneBlock(last));
      WeightSplits(m, Flat(CloneBlocks(front)), CloneBlock(last));
      WeightSplits(m, Flat(front), last);
    }
  }

  // ----- The call graph after inlining

  /** The caller's calls: those around the site, and the callee's. */
  lemma CallerCalls(m: Module, caller: FunId, site: Site, g: FunId)
    requires IsSite(m, caller, site) && CalleeAt(m, caller, site) in m
    ensures Calls(m, caller, g) <==>
              HasCall(Before(m, caller, site), g) || CalleeAt(m, caller, site) == g
                 || HasCall(After(m, caller, site), g)
    ensures Calls(Inline(m, caller, site), caller, g) <==>
              || HasCall(Before(m, caller, site), g) || HasCall(After(m, caller, site), g)
              || Calls(m, CalleeAt(m, caller, site), g)
  {
    var a, c, z := Before(m, caller, site), m[caller][site.block][site.index], After(m, caller, site);
    var clone := Flat(CloneBlocks(m[CalleeAt(m, caller, site)]));
    var phi := JoinPhi(m, caller, site);
    FlatAround(m, caller, site);
    FlatInlined(m, caller, site);
    CloneCalls(m[CalleeAt(m, caller, site)], g);
    OneItem(c, g);
    OneItem(Plain, g);
    assert !HasCall(phi, g);
    hide HasCall, Before, After, CloneBlocks, JoinPhi;
    HasCallSplits(a + [c], z, g);
    HasCallSplits(a, [c], g);
    HasCallSplits(a + [Plain] + clone + phi, z, g);
    HasCallSplits(a + [Plain] + clone, phi, g);
    HasCallSplits(a + [Plain], clone, g);
    HasCallSplits(a, [Plain], g);
  }

  lemma OneItem(item: Item, g: FunId)
    ensures HasCall([item], g) <==> item.CallTo? && item.callee == g
  {
    if item.CallTo? && item.callee == g { assert [item][0].callee == g; }
  }

  lemma OtherCalls(m: Module, caller: FunId, site: Site, f: FunId, g: FunId)
    requires IsSite(m, caller, site) && CalleeAt(m, caller, site) in m && f != caller
    ensures Calls(Inline(m, caller, site), f, g) <==> Calls(m, f, g)
  {
  }

  /** Every call after inlining was a chain of calls before. */
  lemma CallWasChain(m: Module, caller: FunId, site: Site, f: FunId, g: FunId)
    requires IsSite(m, caller, site) && CalleeAt(m, caller, site) in m
    requires Calls(Inline(m, caller, site), f, g)
    ensures Reaches(m, f, g)
  {
    hide Calls, HasCall, Inline, Reaches;
    if f == caller {
      CallerCalls(m, caller, site, g);
      var callee := CalleeAt(m, caller, site);
      if Calls(m, callee, g) {
        CallerCalls(m, caller, site, callee);
        CallReaches(m, caller, callee);
        CallReaches(m, callee, g);
        ReachesThen(m, caller, callee, g);
      } else {
        CallReaches(m, caller, g);
      }
    } else {
      OtherCalls(m, caller, site, f, g);
      CallReaches(m, f, g);
    }
  }

  lemma {:induction false} ChainWasChain(m: Module, caller: FunId, site: Site, p: seq<FunId>)
    requires IsSite(m, caller, site) && CalleeAt(m, caller, site) in m
    requires IsCallPath(Inline(m, caller, site), p)
    ensures Reaches(m, p[0], Last(p))
    decreases |p|
  {
    FirstCall(Inline(m, caller, site), p);
    hide Calls, Inline, Reaches;
    CallWasChain(m, caller, site, p[0], p[1]);
    if |p| > 2 {
      ChainWasChain(m, caller, site, p[1..]);
      ReachesThen(m, p[0], p[1], Last(p));
    }
  }

  /** Inlining lets no function reach what it did not reach. */
  lemma InliningAddsNoReach(m: Module, caller: FunId, site: Site, f: FunId, g: FunId)
    requires IsSite(m, caller, site) && CalleeAt(m, caller, site) in m && Reaches(Inline(m, caller, site), f, g)
    ensures Reaches(m, f, g)
  {
    var p: seq<FunId> :| IsCallPath(Inline(m, caller, site), p) && p[0] == f && Last(p) == g;
    ChainWasChain(m, caller, site, p);
  }

  /** And takes away at most the reach of the callee itself. */
  lemma {:induction false} ChainStays(m: Module, caller: FunId, site: Site, p: seq<FunId>)
    requires IsSite(m, caller, site) && CalleeAt(m, caller, site) in m && CalleeAt(m, caller, site) != caller
    requires IsCallPath(m, p) && Last(p) != CalleeAt(m, caller, site)
    ensures Reaches(Inline(m, caller, site), p[0], Last(p))
    decreases |p|
  {
    var m', callee := Inline(m, caller, site), CalleeAt(m, caller, site);
    FirstCall(m, p);
    hide Calls, HasCall, Inline, Reaches;
    if |p| > 2 { ChainStays(m, caller, site, p[1..]); }
    if p[0] == caller { CallerCalls(m, caller, site, p[1]); } else { OtherCalls(m, caller, site, p[0], p[1]); }
    if Calls(m', p[0], p[1]) {
      CallReaches(m', p[0], p[1]);
      if |p| > 2 { ReachesThen(m', p[0], p[1], Last(p)); }
    } else {
      CalleeOfCallee(m, caller, site, Last(p));
    }
  }

  /** What the callee reaches after inlining, so does the caller. */
  lemma CalleeOfCallee(m: Module, caller: FunId, site: Site, g: FunId)
    requires IsSite(m, caller, site) && CalleeAt(m, caller, site) in m && CalleeAt(m, caller, site) != caller
    requires Reaches(Inline(m, caller, site), CalleeAt(m, caller, site), g)
    ensures Reaches(Inline(m, caller, site), caller, g)
  {
    var m', callee := Inline(m, caller, site), CalleeAt(m, caller, site);
    var q: seq<FunId> :| IsCallPath(m', q) && q[0] == callee && Last(q) == g;
    FirstCall(m', q);
    OtherCalls(m, caller, site, callee, q[1]);
    CallerCalls(m, caller, site, q[1]);
    CallReaches(m', caller, q[1]);
    if |q| > 2 {
      assert Reaches(m', q[1], g) by { assert IsCallPath(m', q[1..]); }
      ReachesThen(m', caller, q[1], g);
    }
  }

  lemma SameRecursive(m: Module, caller: FunId, site: Site, g: FunId)
    requires IsSite(m, caller, site) && CalleeAt(m, caller, site) in m && CalleeAt(m, caller, site) != caller
    requires !Recursive(m, CalleeAt(m, caller, site))
    ensures Recursive(Inline(m, caller, site), g) <==> Recursive(m, g)
  {
    if Recursive(m, g) {
      var p: seq<FunId> :| IsCallPath(m, p) && p[0] == g && Last(p) == g;
      ChainStays(m, caller, site, p);
    }
    if Recursive(Inline(m, caller, site), g) { InliningAddsNoReach(m, caller, site, g, g); }
  }

  lemma StillClosed(m: Module, caller: FunId, site: Site)
    requires Closed(m) && IsSite(m, caller, site) && CalleeAt(m, caller, site) in m
    ensures Closed(Inline(m, caller, site))
  {
    var m' := Inline(m, caller, site);
    assert m'.Keys == m.Keys;
    hide Inline, HasCall;
    forall f: FunId, g: FunId | Calls(m', f, g)
      ensures g in m'
    {
      CallWasChain(m, caller, site, f, g);
      LastIsCalled(m, f, g);
    }
  }

  lemma LastIsCalled(m: Module, f: FunId, g: FunId)
    requires Closed(m) && Reaches(m, f, g)
    ensures g in m
  {
    var p: seq<FunId> :| IsCallPath(m, p) && p[0] == f && Last(p) == g;
    assert Calls(m, p[|p| - 2], p[|p| - 1]);
  }

  // ----- Weights after inlining

  /** A call whose weight inlining into the caller cannot change. */
  ghost predicate Untouched(m: Module, caller: FunId, g: FunId) {
    Recursive(m, g) || (g != caller && !Reaches(m, g, caller))
  }

  ghost predicate Sound(m: Module, caller: FunId, site: Site) {
    && Closed(m) && IsSite(m, caller, site) && CalleeAt(m, caller, site) in m && CalleeAt(m, caller, site) != caller
    && !Recursive(m, CalleeAt(m, caller, site)) && !Reaches(m, CalleeAt(m, caller, site), caller)
    && Closed(Inline(m, caller, site))
  }

  lemma CalleeUntouched(m: Module, caller: FunId, g: FunId, h: FunId)
    requires g != caller && !Reaches(m, g, caller) && Calls(m, g, h)
    ensures Untouched(m, caller, h)
  {
    hide Calls, Reaches;
    CallReaches(m, g, h);
    if Reaches(m, h, caller) { ReachesThen(m, g, h, caller); }
  }

  lemma {:induction false} SameCallWeight(m: Module, caller: FunId, site: Site, g: FunId)
    requires Sound(m, caller, site) && Untouched(m, caller, g)
    ensures CallWeight(Inline(m, caller, site), g) == CallWeight(m, g)
    decreases |ReachSet(m, g)|, 1, 0
  {
    var m' := Inline(m, caller, site);
    SameRecursive(m, caller, site, g);
    NoWeight(m, g);
    NoWeight(m', g);
    if !Recursive(m, g) && g in m {
      assert m'[g] == m[g];
      CallsOwn(m, g);
      hide Calls, HasCall, Closed, Recursive, Reaches, Inline;
      SameItems(m, caller, site, g, Flat(m[g]));
      CallWeightIs(m, g);
      CallWeightIs(m', g);
    }
  }

  lemma {:induction false} SameItems(m: Module, caller: FunId, site: Site, g: FunId, items: seq<Item>)
    requires Sound(m, caller, site) && g != caller && !Reaches(m, g, caller)
    requires forall h: FunId | HasCall(items, h) :: Calls(m, g, h)
    ensures Weight(Inline(m, caller, site), items) == Weight(m, items)
    decreases |ReachSet(m, g)|, 0, |items|
  {
    if items != [] {
      FrontCalls(items);
      var last := Last(items);
      if last.CallTo? {
        CalleeUntouched(m, caller, g, last.callee);
        OneCall(m, caller, site, g, last.callee);
      }
      hide Calls, HasCall, Closed, Reaches, Inline;
      SameItems(m, caller, site, g, items[..|items| - 1]);
    }
  }

  lemma {:induction false} OneCall(m: Module, caller: FunId, site: Site, g: FunId, h: FunId)
    requires Sound(m, caller, site) && Calls(m, g, h) && Untouched(m, caller, h)
    ensures CallWeight(Inline(m, caller, site), h) == CallWeight(m, h)
    decreases |ReachSet(m, g)|, 0, 0
  {
    SameRecursive(m, caller, site, h);
    hide Calls, Closed, Reaches, Inline;
    if Recursive(m, h) {
      NoWeight(m, h);
      NoWeight(Inline(m, caller, site), h);
    } else {
      RankFalls(m, g, h);
      SameCallWeight(m, caller, site, h);
    }
  }

  lemma {:induction false} SameWeight(m: Module, caller: FunId, site: Site, items: seq<Item>)
    requires Sound(m, caller, site) && forall h: FunId | HasCall(items, h) :: Untouched(m, caller, h)
    ensures Weight(Inline(m, caller, site), items) == Weight(m, items)
    decreases |items|
  {
    if items != [] {
      FrontCalls(items);
      hide Sound, HasCall, Untouched, Inline, Closed;
      var last := Last(items);
      if last.CallTo? { SameCallWeight(m, caller, site, last.callee); }
      IsClosed(m, caller, site);
      SameWeight(m, caller, site, items[..|items| - 1]);
    }
  }

  lemma IsClosed(m: Module, caller: FunId, site: Site)
    requires Sound(m, caller, site)
    ensures Closed(m) && Closed(Inline(m, caller, site)) && IsSite(m, caller, site) && CalleeAt(m, caller, site) in m
  {
  }

  /** What the caller calls afterwards is untouched. */
  lemma CallerUntouched(m: Module, caller: FunId, site: Site, h: FunId)
    requires Sound(m, caller, site) && Calls(Inline(m, caller, site), caller, h)
    ensures Untouched(m, caller, h)
  {
    hide Calls, Reaches, HasCall, Inline, Closed;
    CallerCalls(m, caller, site, h);
    if Calls(m, CalleeAt(m, caller, site), h) {
      CalleeUntouched(m, caller, CalleeAt(m, caller, site), h);
    } else {
      CallReaches(m, caller, h);
      if Reaches(m, h, caller) { ReachesThen(m, h, caller, h); }
    }
  }

  lemma PhiWeighsNothing(m: Module, caller: FunId, site: Site)
    requires Closed(m) && IsSite(m, caller, site) && CalleeAt(m, caller, site) in m
    ensures Weight(m, JoinPhi(m, caller, site)) == 0 && Weight(m, [Plain]) == 0
  {
    assert [Plain][..0] == [];
  }

  lemma OneWeight(m: Module, item: Item)
    requires Closed(m)
    ensures Weight(m, [item]) == if item.CallTo? then CallWeight(m, item.callee) else 0
  {
    assert [item][..0] == [];
    assert Weight(m, []) == 0;
    hide CallWeight, Closed;
  }

  /** Each inlining takes one off the weight of the caller's calls. */
  lemma InliningDropsWeight(m: Module, caller: FunId, site: Site)
    requires Sound(m, caller, site)
    ensures Closed(Inline(m, caller, site)) && caller in Inline(m, caller, site)
    ensures Weight(Inline(m, caller, site), Flat(Inline(m, caller, site)[caller])) + 1 == Weight(m, Flat(m[caller]))
  {
    var m', callee := Inline(m, caller, site), CalleeAt(m, caller, site);
    var a, c, z := Before(m, caller, site), m[caller][site.block][site.index], After(m, caller, site);
    var clone, phi := Flat(CloneBlocks(m[callee])), JoinPhi(m, caller, site);
    assert m'[caller] == InlinedBlocks(m, caller, site);
    CallsOwn(m', caller);
    forall h: FunId | HasCall(Flat(m'[caller]), h)
      ensures Untouched(m, caller, h)
    {
      CallerUntouched(m, caller, site, h);
    }
    SameWeight(m, caller, site, Flat(m'[caller]));
    FlatAround(m, caller, site);
    FlatInlined(m, caller, site);
    hide Closed, Weight, Flat, CloneBlocks, Before, After, Reaches, InlinedBlocks, JoinPhi, CallWeight, Calls, HasCall;
    WeightSplits(m, a + [c], z);
    WeightSplits(m, a, [c]);
    WeightSplits(m, a + [Plain] + clone + phi, z);
    WeightSplits(m, a + [Plain] + clone, phi);
    WeightSplits(m, a + [Plain], clone);
    WeightSplits(m, a, [Plain]);
    OneWeight(m, c);
    PhiWeighsNothing(m, caller, site);
    CloneWeight(m, m[callee]);
    CallWeightIs(m, callee);
  }

  // ----- The loops

  /** Inlining only ever took reach away, and made no function recursive or not. */
  ghost predicate Tamer(m: Module, m': Module) {
    && m'.Keys == m.Keys && Closed(m')
    && (forall f: FunId, g: FunId | Reaches(m', f, g) :: Reaches(m, f, g))
    && (forall g: FunId :: Recursive(m', g) <==> Recursive(m, g))
  }

  /** No call of the function is both allowed and wanted. */
  ghost predicate Settled(m: Module, caller: FunId, threshold: nat, profitable: (Module, FunId, Site) -> bool) {
    forall site | IsSite(m, caller, site) && profitable(m, caller, site) ::
      !Inlinable(m, CalleeAt(m, caller, site), caller, threshold)
  }

  lemma InlinableIsSound(m: Module, caller: FunId, site: Site, threshold: nat)
    requires Closed(m) && IsSite(m, caller, site) && Inlinable(m, CalleeAt(m, caller, site), caller, threshold)
    ensures Sound(m, caller, site) && Tamer(m, Inline(m, caller, site))
  {
    StillClosed(m, caller, site);
    var m' := Inline(m, caller, site);
    assert m'.Keys == m.Keys;
    hide Reaches, Inline, Closed;
    forall f: FunId, g: FunId | Reaches(m', f, g)
      ensures Reaches(m, f, g)
    {
      InliningAddsNoReach(m, caller, site, f, g);
    }
    forall g: FunId
      ensures Recursive(m', g) <==> Recursive(m, g)
    {
      SameRecursive(m, caller, site, g);
    }
  }

  lemma TamerThen(a: Module, b: Module, c: Module)
    requires Tamer(a, b) && Tamer(b, c)
    ensures Tamer(a, c)
  {
    hide Reaches, Recursive, Closed;
  }

  /** Looks through the caller's calls for the first to inline. */
  method InlineFirst(m: Module, caller: FunId, threshold: nat, profitable: (Module, FunId, Site) -> bool)
    returns (m': Module, localChanged: bool)
    requires Closed(m) && caller in m
    ensures Tamer(m, m')
    ensures if localChanged then Weight(m', Flat(m'[caller])) + 1 == Weight(m, Flat(m[caller]))
            else m' == m && Settled(m, caller, threshold, profitable)
  {
    var blocks: seq<seq<Item>> := m[caller];
    for b := 0 to |blocks|
      invariant forall site | IsSite(m, caller, site) && site.block < b && profitable(m, caller, site) ::
                  !Inlinable(m, CalleeAt(m, caller, site), caller, threshold)
    {
      for k := 0 to |blocks[b]|
        invariant forall site | IsSite(m, caller, site) && profitable(m, caller, site)
                                && (site.block < b || (site.block == b && site.index < k)) ::
                    !Inlinable(m, CalleeAt(m, caller, site), caller, threshold)
      {
        hide Closed, Inlinable, Tamer, Weight, Flat, Inline;
        if blocks[b][k].CallTo? {
          var site := Site(b, k);
          CalledHere(m, caller, b, k);
          var allowed := CanInline(m, blocks[b][k].callee, caller, threshold);
          if allowed && profitable(m, caller, site) {
            InlinableIsSound(m, caller, site, threshold);
            InliningDropsWeight(m, caller, site);
            return Inline(m, caller, site), true;
          }
        }
      }
    }
    hide Inlinable;
    m', localChanged := m, false;
  }

  /** Inlines into one function until nothing changes; the weight counts down. */
  method InlineInto(m: Module, caller: FunId, threshold: nat, profitable: (Module, FunId, Site) -> bool)
    returns (m': Module, count: nat)
    requires Closed(m) && caller in m
    ensures Tamer(m, m') && Settled(m', caller, threshold, profitable)
    ensures Weight(m', Flat(m'[caller])) + count == Weight(m, Flat(m[caller]))
    ensures count == 0 ==> m' == m
  {
    hide Weight, Flat, Inlinable, Settled, Reaches, Recursive, IsCallPath;
    m', count := m, 0;
    var localChanged := true;
    while localChanged
      invariant Tamer(m, m') && caller in m' && Closed(m')
      invariant Weight(m', Flat(m'[caller])) + count == Weight(m, Flat(m[caller]))
      invariant count == 0 ==> m' == m
      invariant !localChanged ==> Settled(m', caller, threshold, profitable)
      decreases Weight(m', Flat(m'[caller])), localChanged
    {
      ghost var before := m';
      m', localChanged := InlineFirst(m', caller, threshold, profitable);
      TamerThen(m, before, m');
      if localChanged { count := count + 1; }
    }
  }

  /** At most ten passes over the module; without a change in the last, every function is settled. */
  method RunOnModule(m: Module, order: seq<FunId>, threshold: nat, profitable: (Module, FunId, Site) -> bool)
    returns (m': Module, changed: bool, settled: bool)
    requires Closed(m) && forall f | f in order :: f in m
    ensures Tamer(m, m')
    ensures !changed ==> m' == m && settled
    ensures settled ==> forall f | f in order && m'[f] != [] :: Settled(m', f, threshold, profitable)
  {
    hide Weight, Flat, Inlinable, Settled, Reaches, Recursive, IsCallPath, Calls;
    m', changed := m, false;
    var moduleChanged, passLimit := true, 10;
    while moduleChanged && passLimit > 0
      invariant Tamer(m, m') && (!changed ==> m' == m) && (!changed && passLimit < 10 ==> !moduleChanged)
      invariant passLimit < 10 || (moduleChanged && passLimit == 10)
      invariant !moduleChanged ==> forall f | f in order && m'[f] != [] :: Settled(m', f, threshold, profitable)
      decreases passLimit
    {
      passLimit := passLimit - 1;
      moduleChanged := false;
      ghost var start := m';
      for k := 0 to |order|
        invariant Tamer(m, m') && (!changed ==> m' == m && !moduleChanged) && (!moduleChanged ==> m' == start)
        invariant !moduleChanged ==>
                    forall f | f in order[..k] && m'[f] != [] :: Settled(m', f, threshold, profitable)
      {
        assert order[..k + 1] == order[..k] + [order[k]] && order[k] in order;
        if m'[order[k]] != [] {
          ghost var before := m';
          var count;
          m', count := InlineInto(m', order[k], threshold, profitable);
          TamerThen(m, before, m');
          if count > 0 {
            moduleChanged, changed := true, true;
          }
        }
      }
      assert order[..|order|] == order;
    }
    settled := !moduleChanged;
  }
}
