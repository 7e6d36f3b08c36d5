/**
 The dominator tree: set dataflow in place until nothing changes, then immediate
 dominators, then the walk that answers dominance queries.
 */
module Dominators {
  import opened IR
  import opened ControlFlow

  // ----- The dataflow

  /** d reaches the set of b through all of its predecessors, or is b. */
  ghost predicate Flows(g: Graph, doms: seq<set<nat>>, d: nat, b: nat) {
    || d == b
    || (&& b < |g.preds| && g.preds[b] != []
        && forall q | q in g.preds[b] :: q < |doms| && d in doms[q])
  }

  /** Nothing that dominates is missing, and no set is below what flows into it. */
  ghost predicate Above(g: Graph, doms: seq<set<nat>>) {
    && |doms| == |g.preds| > 0
    && doms[0] == {0}
    && (forall b, d: nat | 0 <= b < |doms| && d in doms[b] :: d < |doms|)
    && (forall b: nat, d: nat | b < |doms| && d < |doms| && Dominates(g, d, b) :: d in doms[b])
    && (forall b: nat, d: nat | 0 < b < |doms| && Flows(g, doms, d, b) :: d in doms[b])
  }

  ghost predicate Settled(g: Graph, doms: seq<set<nat>>, b: nat) {
    b < |doms| && forall d: nat | d in doms[b] :: Flows(g, doms, d, b)
  }

  /** The sets say exactly which blocks dominate. */
  ghost predicate Exact(g: Graph, doms: seq<set<nat>>) {
    && |doms| == |g.preds|
    && (forall b: nat, d: nat | b < |doms| && d in doms[b] :: d < |doms|)
    && (forall b: nat, d: nat | b < |doms| && d < |doms| :: d in doms[b] <==> Dominates(g, d, b))
  }

  function Total(doms: seq<set<nat>>): nat {
    if doms == [] then 0 else |doms[0]| + Total(doms[1..])
  }

  lemma {:induction false} TotalUpdate(doms: seq<set<nat>>, b: nat, s: set<nat>)
    requires b < |doms|
    ensures Total(doms[b := s]) + |doms[b]| == Total(doms) + |s|
  {
    if b == 0 {
      assert doms[b := s][1..] == doms[1..];
    } else {
      TotalUpdate(doms[1..], b - 1, s);
      assert doms[b := s][1..] == doms[1..][b - 1 := s];
    }
  }

  lemma SmallerSet(s: set<nat>, t: set<nat>)
    requires s <= t && s != t
    ensures |s| < |t|
  {
    var x :| x in t && x !in s;
    assert t == s + (t - s) && x in t - s;
  }

  lemma StartAbove(g: Graph, doms: seq<set<nat>>)
    requires ValidGraph(g) && |doms| == |g.preds| > 0
    requires doms[0] == {0}
    requires forall b, x: nat | 0 < b < |doms| :: x in doms[b] <==> x < |doms|
    ensures Above(g, doms)
  {
    forall b: nat, d: nat | b < |doms| && d < |doms| && Dominates(g, d, b)
      ensures d in doms[b]
    {
      if b == 0 { RootDominator(g, d, 0); }
    }
    forall b: nat, d: nat | 0 < b < |doms| && Flows(g, doms, d, b)
      ensures d in doms[b]
    {
      if d != b { assert g.preds[b][0] in g.preds[b]; }
    }
  }

  /** One block's new set keeps the dominators in, and the set it replaces above it. */
  lemma RefineKeeps(g: Graph, doms: seq<set<nat>>, b: nat, s: set<nat>)
    requires ValidGraph(g) && Above(g, doms) && 0 < b < |doms|
    requires forall d: nat :: d in s <==> Flows(g, doms, d, b)
    ensures s <= doms[b] && Above(g, doms[b := s])
  {
    var doms' := doms[b := s];
    forall d: nat, c: nat | 0 < c < |doms| && Flows(g, doms', d, c)
      ensures Flows(g, doms, d, c)
    {
    }
    forall d: nat | d < |doms| && Dominates(g, d, b)
      ensures d in s
    {
      DominatorFlows(g, doms, d, b);
    }
  }

  lemma DominatorFlows(g: Graph, doms: seq<set<nat>>, d: nat, b: nat)
    requires ValidGraph(g) && Above(g, doms) && 0 < b < |doms| && d < |doms| && Dominates(g, d, b)
    ensures Flows(g, doms, d, b)
  {
    if d != b {
      if g.preds[b] == [] { RootDominator(g, d, b); }
      forall q | q in g.preds[b]
        ensures q < |doms| && d in doms[q]
      {
        DominatesPred(g, d, q, b);
      }
    }
  }

  lemma {:induction false} SettledOnPath(g: Graph, doms: seq<set<nat>>, d: nat, b: nat, p: seq<nat>)
    requires ValidGraph(g) && Above(g, doms) && forall c: nat | 0 < c < |doms| :: Settled(g, doms, c)
    requires RootPath(g, p, b) && b < |doms| && d in doms[b]
    ensures d in p
    decreases |p|
  {
    assert b in p;
    if b != 0 && d != b {
      assert Settled(g, doms, b) && Flows(g, doms, d, b);
      if |p| == 1 {
        assert false;
      } else {
        var q := FirstEdge(g, p);
        SettledOnPath(g, doms, d, q, p[..|p| - 1]);
      }
    }
  }

  lemma SettledIsExact(g: Graph, doms: seq<set<nat>>)
    requires ValidGraph(g) && Above(g, doms) && forall c: nat | 0 < c < |doms| :: Settled(g, doms, c)
    ensures Exact(g, doms)
  {
    forall b: nat, d: nat | b < |doms| && d < |doms| && d in doms[b]
      ensures Dominates(g, d, b)
    {
      forall p: seq<nat> | RootPath(g, p, b)
        ensures d in p
      {
        SettledOnPath(g, doms, d, b, p);
      }
    }
  }

  /** The intersection over the predecessors, and the block itself. */
  method NewDomSet(g: Graph, doms: seq<set<nat>>, b: nat) returns (s: set<nat>)
    requires ValidGraph(g) && |doms| == |g.preds| && b < |doms|
    ensures forall d: nat :: d in s <==> Flows(g, doms, d, b)
  {
    s := {};
    var preds := g.preds[b];
    if preds != [] {
      s := doms[preds[0]];
      for i := 1 to |preds|
        invariant forall d: nat :: d in s <==> forall j | 0 <= j < i :: d in doms[preds[j]]
      {
        s := s * doms[preds[i]];
      }
    }
    s := s + {b};
  }

  /** The sets at the fixpoint, which is exact. */
  method DomSets(g: Graph) returns (doms: seq<set<nat>>)
    requires ValidGraph(g) && |g.preds| > 0
    ensures Exact(g, doms)
  {
    hide Above, Flows, ValidGraph, Exact, Settled, Total;
    var n := |g.preds|;
    var allBlocks: set<nat> := {};
    for b := 0 to n
      invariant forall x: nat :: x in allBlocks <==> x < b
    {
      allBlocks := allBlocks + {b};
    }
    doms := seq(n, b => if b == 0 then {0} else allBlocks);
    StartAbove(g, doms);
    var changed := true;
    while changed
      invariant |doms| == n && Above(g, doms)
      invariant !changed ==> forall c: nat | 0 < c < n :: Settled(g, doms, c)
      decreases Total(doms), if changed then 1 else 0
    {
      changed := false;
      ghost var before := doms;
      for b := 0 to n
        invariant |doms| == n && Above(g, doms)
        invariant if changed then Total(doms) < Total(before) else doms == before
        invariant !changed ==> forall c: nat | 0 < c < b :: Settled(g, doms, c)
      {
        if b != 0 {
          var newDomSet := NewDomSet(g, doms, b);
          RefineKeeps(g, doms, b, newDomSet);
          if newDomSet != doms[b] {
            TotalUpdate(doms, b, newDomSet);
            SmallerSet(newDomSet, doms[b]);
            doms := doms[b := newDomSet];
            changed := true;
          } else {
            IsSettled(g, doms, b, newDomSet);
          }
        }
      }
    }
    SettledIsExact(g, doms);
  }

  lemma IsSettled(g: Graph, doms: seq<set<nat>>, b: nat, s: set<nat>)
    requires b < |doms| && s == doms[b] && forall d: nat :: d in s <==> Flows(g, doms, d, b)
    ensures Settled(g, doms, b)
  {
  }

  // ----- Immediate dominators

  /** The strict dominator of b that all others dominate. */
  ghost predicate IsIdom(g: Graph, d: nat, b: nat) {
    && d < |g.preds| && d != b && Dominates(g, d, b)
    && forall e: nat | e < |g.preds| && e != b && Dominates(g, e, b) :: Dominates(g, e, d)
  }

  /** The selection, on the computed sets. */
  ghost predicate Selected(doms: seq<set<nat>>, d: nat, b: nat) {
    && d < |doms| && b < |doms| && d in doms[b] && d != b
    && forall e: nat | e in doms[b] && e != b && e != d :: e in doms[d]
  }

  lemma SelectedIsIdom(g: Graph, doms: seq<set<nat>>, d: nat, b: nat)
    requires Exact(g, doms) && b < |doms|
    ensures Selected(doms, d, b) <==> IsIdom(g, d, b)
  {
    DominatesSelf(g, d);
  }

  lemma {:induction false} IdomUnique(g: Graph, d: nat, e: nat, b: nat)
    requires Reached(g, b) && IsIdom(g, d, b) && IsIdom(g, e, b)
    ensures d == e
  {
    if d != e {
      DominatorNode(g, d, b);
      var p: seq<nat> :| RootPath(g, p, d);
      NoMutual(g, d, e, p);
    }
  }

  /** The last strict dominator on a path to b, before position k. */
  lemma {:induction false} LastStrict(g: Graph, b: nat, p: seq<nat>, k: nat) returns (j: nat)
    requires k <= |p| && exists i :: 0 <= i < k && p[i] != b && Dominates(g, p[i], b)
    ensures j < k && p[j] != b && Dominates(g, p[j], b)
    ensures forall i | j < i < k :: p[i] != b ==> !Dominates(g, p[i], b)
  {
    j := k - 1;
    if p[j] == b || !Dominates(g, p[j], b) {
      j := LastStrict(g, b, p, k - 1);
    }
  }

  /** A reached block has an immediate dominator exactly when anything strictly dominates it. */
  lemma IdomExists(g: Graph, e: nat, b: nat) returns (d: nat)
    requires ValidGraph(g) && Reached(g, b) && e != b && Dominates(g, e, b)
    ensures IsIdom(g, d, b)
  {
    var p: seq<nat> :| RootPath(g, p, b);
    PathNodes(g, p);
    assert e in p;
    var j := LastStrict(g, b, p, |p|);
    d := p[j];
    forall e: nat | e < |g.preds| && e != b && Dominates(g, e, b)
      ensures Dominates(g, e, d)
    {
      assert e !in p[j + 1..];
      LaterIsDominated(g, b, p, j, e);
    }
  }

  /** Strict dominance by way of the immediate dominator. */
  lemma DominatesThroughIdom(g: Graph, a: nat, d: nat, b: nat)
    requires IsIdom(g, d, b) && Reached(g, b) && a < |g.preds|
    ensures Dominates(g, a, d) <==> a != b && Dominates(g, a, b)
  {
    if Dominates(g, a, d) {
      DominatesTransitive(g, a, d, b);
      if a == b {
        DominatorNode(g, d, b);
        var p: seq<nat> :| RootPath(g, p, d);
        NoMutual(g, d, b, p);
      }
    }
  }

  // ----- The tree

  type IdomMap = map<nat, Option<nat>>

  function Idom(m: IdomMap, b: nat): Option<nat> {
    if b in m then m[b] else None
  }

  /** The entry has none; every other block has one where there is one, and is absent otherwise. */
  ghost predicate IdomsFound(g: Graph, m: IdomMap) {
    && (forall b: nat | b in m :: b < |g.preds|)
    && (|g.preds| > 0 ==> 0 in m && m[0] == None)
    && (forall b: nat | 0 < b < |g.preds| && b in m :: m[b].Some? && IsIdom(g, m[b].value, b))
    && (forall b: nat, d: nat | 0 < b < |g.preds| && IsIdom(g, d, b) :: b in m)
  }

  predicate IsChild(children: map<nat, seq<nat>>, b: nat, d: nat) {
    d in children && b in children[d]
  }

  /** Each block's children, each once, are the blocks it is the immediate dominator of. */
  ghost predicate ChildrenFound(m: IdomMap, children: map<nat, seq<nat>>, below: nat) {
    && (forall d: nat | d in children :: children[d] != [])
    && (forall d: nat, i, j | d in children && 0 <= i < j < |children[d]| :: children[d][i] < children[d][j])
    && (forall d: nat, b: nat :: IsChild(children, b, d) <==> (b < below && Idom(m, b) == Some(d)))
  }

  lemma ChildAdded(m: IdomMap, children: map<nat, seq<nat>>, b: nat)
    requires ChildrenFound(m, children, b) && Idom(m, b).Some?
    ensures var d := Idom(m, b).value;
            var siblings := if d in children then children[d] else [];
            ChildrenFound(m, children[d := siblings + [b]], b + 1)
  {
    var d := Idom(m, b).value;
    var siblings := if d in children then children[d] else [];
    var children' := children[d := siblings + [b]];
    forall i | 0 <= i < |siblings|
      ensures siblings[i] < b
    {
      assert IsChild(children, siblings[i], d);
    }
    forall e: nat, c: nat
      ensures IsChild(children', c, e) <==> (c < b + 1 && Idom(m, c) == Some(e))
    {
      assert IsChild(children, c, e) <==> (c < b && Idom(m, c) == Some(e));
      if e == d { assert c in children'[d] <==> c in siblings || c == b; }
    }
  }

  lemma EntryHasNone(g: Graph)
    requires |g.preds| > 0
    ensures forall d: nat :: !IsIdom(g, d, 0)
  {
    hide Dominates;
    EntryAlone(g);
    forall d: nat | Dominates(g, d, 0)
      ensures d == 0
    {
      RootDominator(g, d, 0);
    }
  }

  class DominatorTree {
    var iDomMap: IdomMap
    var childrenMap: map<nat, seq<nat>>

    constructor ()
      ensures iDomMap == map[] && childrenMap == map[]
    {
      iDomMap, childrenMap := map[], map[];
    }

    /** The block that passes the selection, if any. */
    method Select(doms: seq<set<nat>>, b: nat) returns (r: Option<nat>)
      requires b < |doms| && forall e | e in doms[b] :: e < |doms|
      ensures r.Some? ==> Selected(doms, r.value, b)
      ensures r.None? ==> forall d: nat :: !Selected(doms, d, b)
    {
      var sdom := doms[b] - {b};
      var left := sdom;
      while left != {}
        invariant left <= sdom
        invariant forall d: nat | d in sdom - left :: !Selected(doms, d, b)
        decreases left
      {
        var d1 :| d1 in left;
        left := left - {d1};
        var others := sdom - {d1};
        var isIdom := true;
        while others != {}
          invariant others <= sdom - {d1}
          invariant isIdom <==> forall e | e in sdom - {d1} - others :: e in doms[d1]
          decreases others
        {
          var d2 :| d2 in others;
          others := others - {d2};
          if d2 !in doms[d1] {
            isIdom := false;
            break;
          }
        }
        if isIdom { return Some(d1); }
      }
      r := None;
    }

    method FindIdoms(g: Graph, doms: seq<set<nat>>)
      requires |doms| > 0 && Exact(g, doms)
      modifies `iDomMap
      ensures IdomsFound(g, iDomMap)
    {
      iDomMap := map[0 := None];
      for b := 1 to |doms|
        invariant forall c: nat | c in iDomMap :: c < b
        invariant 0 in iDomMap && iDomMap[0] == None
        invariant forall c: nat | 0 < c < b && c in iDomMap :: iDomMap[c].Some? && IsIdom(g, iDomMap[c].value, c)
        invariant forall c: nat, d: nat | 0 < c < b && IsIdom(g, d, c) :: c in iDomMap
      {
        hide Dominates, Selected, IsIdom;
        var idom := Select(doms, b);
        forall d: nat
          ensures Selected(doms, d, b) <==> IsIdom(g, d, b)
        {
          SelectedIsIdom(g, doms, d, b);
        }
        if idom.Some? {
          iDomMap := iDomMap[b := idom];
        }
      }
    }

    method BuildChildren(n: nat)
      requires childrenMap == map[]
      modifies `childrenMap
      ensures ChildrenFound(iDomMap, childrenMap, n)
    {
      for b := 0 to n
        invariant ChildrenFound(iDomMap, childrenMap, b)
      {
        assert iDomMap == old(iDomMap);
        if b in iDomMap && iDomMap[b].Some? {
          var idom := iDomMap[b].value;
          var siblings := if idom in childrenMap then childrenMap[idom] else [];
          ChildAdded(iDomMap, childrenMap, b);
          childrenMap := childrenMap[idom := siblings + [b]];
        }
      }
    }

    method Run(g: Graph)
      requires ValidGraph(g)
      modifies this
      ensures IdomsFound(g, iDomMap) && ChildrenFound(iDomMap, childrenMap, |g.preds|)
    {
      iDomMap, childrenMap := map[], map[];
      if |g.preds| == 0 { return; }
      var doms := DomSets(g);
      FindIdoms(g, doms);
      BuildChildren(|g.preds|);
    }

    /** The immediate dominator, if the block has one. */
    method GetImmediateDominator(ghost g: Graph, b: nat) returns (r: Option<nat>)
      requires IdomsFound(g, iDomMap)
      ensures r == Idom(iDomMap, b)
      ensures r.Some? ==> 0 < b < |g.preds| && IsIdom(g, r.value, b)
      ensures r.None? && b < |g.preds| ==> forall d: nat :: !IsIdom(g, d, b)
    {
      if b == 0 && |g.preds| > 0 { EntryHasNone(g); }
      r := if b in iDomMap then iDomMap[b] else None;
    }

    /**
     The walk up the tree.  It ends because every block above a reached one is reached; and from
     the only block that is not reached, because all others are.
     */
    method DominatesWalk(ghost g: Graph, a: nat, b: nat) returns (r: bool)
      requires ValidGraph(g) && IdomsFound(g, iDomMap) && a < |g.preds| && b < |g.preds|
      requires Reached(g, b) || OnlyUnreached(g, b)
      ensures Reached(g, b) ==> (r <==> Dominates(g, a, b))
      ensures !Reached(g, b) ==> (r <==> a == b || Idom(iDomMap, b).Some?)
    {
      hide Dominates, Reached, IsIdom, ValidGraph;
      ClimbsIs(g, iDomMap, a, b);
      if a == b {
        return true;
      }
      var current: Option<nat> := Some(b);
      while current != None
        invariant current.Some? ==> current.value < |g.preds| && current.value != a
        invariant current.Some? ==> Reached(g, current.value) || OnlyUnreached(g, current.value)
        invariant Climbs(g, iDomMap, a, b) <==> current.Some? && Climbs(g, iDomMap, a, current.value)
        decreases if current.Some? then Depth(g, current.value) + 1 else 0
      {
        ParentReached(g, iDomMap, current.value);
        current := GetImmediateDominator(g, current.value);
        if current.Some? { ClimbsIs(g, iDomMap, a, current.value); }
        if current == Some(a) {
          return true;
        }
      }
      r := false;
    }
  }

  // ----- The walk

  /** How many blocks dominate b. */
  ghost function Depth(g: Graph, b: nat): nat {
    |DominatorsOf(g, b)|
  }

  ghost function DominatorsOf(g: Graph, b: nat): set<nat> {
    set d: nat | d < |g.preds| && Dominates(g, d, b)
  }

  lemma DepthFalls(g: Graph, d: nat, b: nat)
    requires IsIdom(g, d, b) && Reached(g, b) && b < |g.preds|
    ensures Depth(g, d) < Depth(g, b)
  {
    hide Dominates, Reached, IsIdom;
    forall a: nat | a < |g.preds|
      ensures Dominates(g, a, d) <==> a != b && Dominates(g, a, b)
    {
      DominatesThroughIdom(g, a, d, b);
    }
    DominatesSelf(g, b);
    assert b in DominatorsOf(g, b) && b !in DominatorsOf(g, d);
    SmallerSet(DominatorsOf(g, d), DominatorsOf(g, b));
  }

  lemma IdomIsStrict(g: Graph, d: nat, b: nat)
    requires IsIdom(g, d, b)
    ensures d < |g.preds| && d != b && Dominates(g, d, b)
  {
  }

  /** One step up: reached, shallower, and the same question. */
  lemma WalkStep(g: Graph, m: IdomMap, a: nat, b: nat)
    requires ValidGraph(g) && IdomsFound(g, m) && a < |g.preds| && b < |g.preds| && Reached(g, b) && a != b
    ensures var idom := Idom(m, b);
            && (Dominates(g, a, b) <==> idom.Some? && Dominates(g, a, idom.value))
            && (idom.Some? ==>
                  && idom.value < |g.preds| && Reached(g, idom.value)
                  && IsIdom(g, idom.value, b)
                  && Depth(g, idom.value) < Depth(g, b))
  {
    hide Dominates, Reached, IsIdom, ValidGraph, Depth;
    var idom := Idom(m, b);
    if idom.Some? {
      IdomIsStrict(g, idom.value, b);
      DominatorNode(g, idom.value, b);
      DominatesThroughIdom(g, a, idom.value, b);
      DepthFalls(g, idom.value, b);
    } else if b == 0 {
      EntryAlone(g);
      if Dominates(g, a, 0) { RootDominator(g, a, 0); }
    } else if Dominates(g, a, b) {
      var d := IdomExists(g, a, b);
    }
  }

  lemma EntryAlone(g: Graph)
    requires |g.preds| > 0
    ensures IsRoot(g, 0)
  {
  }

  // ----- Blocks that nothing reaches

  ghost predicate OnlyUnreached(g: Graph, b: nat) {
    !Reached(g, b) && forall c: nat | c < |g.preds| && c != b :: Reached(g, c)
  }

  /** What the walk from b answers about a. */
  ghost predicate Climbs(g: Graph, m: IdomMap, a: nat, b: nat) {
    a == b || (Idom(m, b).Some? && Dominates(g, a, Idom(m, b).value))
  }

  /** Any two blocks that are not reached are immediate dominators of each other. */
  lemma UnreachedIdom(g: Graph, d: nat, b: nat)
    requires !Reached(g, d) && !Reached(g, b) && d != b && d < |g.preds|
    ensures IsIdom(g, d, b)
  {
  }

  /** Above a block that is not reached there is another of the kind, unless it is the only one. */
  lemma UnreachedParent(g: Graph, m: IdomMap, b: nat)
    requires ValidGraph(g) && IdomsFound(g, m) && b < |g.preds| && !Reached(g, b)
    ensures OnlyUnreached(g, b) ==> (Idom(m, b).Some? ==> Reached(g, Idom(m, b).value))
    ensures !OnlyUnreached(g, b) ==> Idom(m, b).Some? && !Reached(g, Idom(m, b).value) && Idom(m, b).value != b
    ensures Idom(m, b).Some? ==> Idom(m, b).value < |g.preds|
  {
    EntryReached(g);
    hide Reached, ValidGraph;
    if !OnlyUnreached(g, b) {
      var c: nat :| c < |g.preds| && c != b && !Reached(g, c);
      UnreachedIdom(g, c, b);
      var d := Idom(m, b).value;
      assert IsIdom(g, d, b);
      if Reached(g, d) {
        assert Dominates(g, c, b) by { AllDominate(g, c, b); }
        DominatorNode(g, c, d);
      }
    }
  }

  lemma EntryReached(g: Graph)
    requires |g.preds| > 0
    ensures Reached(g, 0)
  {
    assert RootPath(g, [0], 0);
  }

  lemma AllDominate(g: Graph, d: nat, b: nat)
    requires !Reached(g, b)
    ensures Dominates(g, d, b)
  {
  }

  /** The parent is reached and less deep. */
  lemma ParentReached(g: Graph, m: IdomMap, b: nat)
    requires ValidGraph(g) && IdomsFound(g, m) && b < |g.preds| && (Reached(g, b) || OnlyUnreached(g, b))
    ensures Idom(m, b).Some? ==>
              && Idom(m, b).value < |g.preds| && Reached(g, Idom(m, b).value)
              && Depth(g, Idom(m, b).value) < Depth(g, b)
  {
    if Idom(m, b).Some? {
      var d := Idom(m, b).value;
      if Reached(g, b) {
        IdomIsStrict(g, d, b);
        WalkStep(g, m, d, b);
      } else {
        UnreachedParent(g, m, b);
        UnreachedDeeper(g, d, b);
      }
    }
  }

  lemma UnreachedDeeper(g: Graph, d: nat, b: nat)
    requires Reached(g, d) && !Reached(g, b) && b < |g.preds|
    ensures Depth(g, d) < Depth(g, b)
  {
    hide Dominates, Reached;
    forall a: nat | a < |g.preds|
      ensures Dominates(g, a, b)
    {
      AllDominate(g, a, b);
    }
    if Dominates(g, b, d) { DominatorNode(g, b, d); }
    assert b in DominatorsOf(g, b) && b !in DominatorsOf(g, d);
    SmallerSet(DominatorsOf(g, d), DominatorsOf(g, b));
  }

  lemma ClimbsIs(g: Graph, m: IdomMap, a: nat, b: nat)
    requires ValidGraph(g) && IdomsFound(g, m) && a < |g.preds| && b < |g.preds|
    ensures Reached(g, b) ==> (Climbs(g, m, a, b) <==> Dominates(g, a, b))
    ensures !Reached(g, b) ==> (Climbs(g, m, a, b) <==> a == b || Idom(m, b).Some?)
  {
    if Reached(g, b) {
      if a == b { DominatesSelf(g, b); } else { WalkStep(g, m, a, b); }
    } else if a != b && Idom(m, b).Some? {
      EntryReached(g);
      AllDominate(g, a, b);
      assert IsIdom(g, Idom(m, b).value, b);
    }
  }

  /** Where n steps up from b lead. */
  function WalkUp(m: IdomMap, b: nat, n: nat): Option<nat>
    decreases n
  {
    if n == 0 then Some(b)
    else if Idom(m, b).Some? then WalkUp(m, Idom(m, b).value, n - 1)
    else None
  }

  lemma {:induction false} WalkEnds(g: Graph, m: IdomMap, b: nat, n: nat)
    requires ValidGraph(g) && IdomsFound(g, m) && b < |g.preds| && (Reached(g, b) || OnlyUnreached(g, b))
    requires Depth(g, b) < n
    ensures WalkUp(m, b, n).None?
    decreases n
  {
    hide Reached, ValidGraph, IdomsFound, Depth;
    ParentReached(g, m, b);
    if Idom(m, b).Some? { WalkEnds(g, m, Idom(m, b).value, n - 1); }
  }

  lemma {:induction false} WalkGoesOnForever(g: Graph, m: IdomMap, b: nat, n: nat)
    requires ValidGraph(g) && IdomsFound(g, m) && b < |g.preds| && !Reached(g, b) && !OnlyUnreached(g, b)
    ensures WalkUp(m, b, n).Some? && !Reached(g, WalkUp(m, b, n).value)
    decreases n
  {
    hide Reached, ValidGraph, IdomsFound;
    if n > 0 {
      UnreachedParent(g, m, b);
      WalkGoesOnForever(g, m, Idom(m, b).value, n - 1);
    }
  }

  /** The walk up has no end exactly from a block that is not reached and is not the only such block. */
  lemma WalkEndsExactly(g: Graph, m: IdomMap, b: nat)
    requires ValidGraph(g) && IdomsFound(g, m) && b < |g.preds|
    ensures (forall n: nat :: WalkUp(m, b, n).Some?)
              <==> !Reached(g, b) && exists c: nat :: c < |g.preds| && c != b && !Reached(g, c)
    ensures (forall n: nat :: WalkUp(m, b, n).Some?) ==> forall n: nat :: !Reached(g, WalkUp(m, b, n).value)
  {
    hide Reached, ValidGraph, IdomsFound, Depth, WalkUp;
    if Reached(g, b) || OnlyUnreached(g, b) {
      WalkEnds(g, m, b, Depth(g, b) + 1);
    } else {
      forall n: nat
        ensures WalkUp(m, b, n).Some? && !Reached(g, WalkUp(m, b, n).value)
      {
        WalkGoesOnForever(g, m, b, n);
      }
    }
  }

  // ----- The tree as a whole

  /** In a graph whose only root is the entry, every other reached block has exactly one parent. */
  lemma IdomTree(g: Graph, m: IdomMap, b: nat)
    requires ValidGraph(g) && IdomsFound(g, m) && 0 < b < |g.preds| && Reached(g, b)
    requires forall c: nat | 0 < c < |g.preds| :: g.preds[c] != []
    ensures Idom(m, b).Some? && Reached(g, Idom(m, b).value)
    ensures forall d: nat :: IsIdom(g, d, b) <==> Idom(m, b) == Some(d)
    ensures Depth(g, Idom(m, b).value) < Depth(g, b)
  {
    EntryDominatesAll(g, b);
    WalkStep(g, m, 0, b);
    hide Dominates, Reached, IsIdom, ValidGraph, Depth;
    forall d: nat | IsIdom(g, d, b)
      ensures Idom(m, b) == Some(d)
    {
      IdomUnique(g, d, Idom(m, b).value, b);
    }
  }

  lemma EntryDominatesAll(g: Graph, b: nat)
    requires forall c: nat | 0 < c < |g.preds| :: g.preds[c] != []
    ensures Dominates(g, 0, b)
  {
    forall p: seq<nat> | RootPath(g, p, b)
      ensures 0 in p
    {
      assert p[0] == 0;
    }
  }

  /** Two blocks that only reach each other are each other's parent. */
  lemma UnreachedCycle(m: IdomMap)
    requires IdomsFound(Graph([[], [2], [1]], [[], [2], [1]]), m)
    ensures Idom(m, 1) == Some(2) && Idom(m, 2) == Some(1)
  {
    var g := Graph([[], [2], [1]], [[], [2], [1]]);
    forall b: nat, p: seq<nat> | 0 < b < 3 && RootPath(g, p, b)
      ensures false
    {
      StuckAtEntry(g, p, b);
    }
    forall d: nat, b: nat | 0 < b < 3 && d < 3
      ensures Dominates(g, d, b)
    {
    }
    assert RootPath(g, [0], 0);
    assert !Dominates(g, 1, 0) && !Dominates(g, 2, 0);
    assert IsIdom(g, 2, 1) && IsIdom(g, 1, 2);
    assert !IsIdom(g, 0, 1) && !IsIdom(g, 0, 2);
  }

  lemma {:induction false} StuckAtEntry(g: Graph, p: seq<nat>, b: nat)
    requires g == Graph([[], [2], [1]], [[], [2], [1]]) && RootPath(g, p, b)
    ensures b == 0
    decreases |p|
  {
    if |p| >= 2 {
      var q := FirstEdge(g, p);
      StuckAtEntry(g, p[..|p| - 1], q);
      assert Edge(g, 0, b);
    }
  }
}
