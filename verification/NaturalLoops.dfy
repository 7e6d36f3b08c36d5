/**
 Natural loops: the back edges of a graph, and the blocks each of them closes a loop
 over.
 */
module NaturalLoops {
  import opened IR
  import opened ControlFlow
  import opened Dominators

  /** An edge from the latch to a header that dominates it. */
  datatype BackEdge = BackEdge(latch: nat, header: nat)

  ghost predicate IsBackEdge(g: Graph, e: BackEdge) {
    && e.latch < |g.succs| && e.header in g.succs[e.latch]
    && Dominates(g, e.header, e.latch)
  }

  /** x reaches the latch without passing through the header. */
  ghost predicate ReachesAvoiding(g: Graph, x: nat, latch: nat, header: nat) {
    exists p: seq<nat> :: AvoidingPath(g, p, x, latch, header)
  }

  ghost predicate AvoidingPath(g: Graph, p: seq<nat>, x: nat, latch: nat, header: nat) {
    IsPath(g, p) && p[0] == x && Last(p) == latch && header !in p
  }

  ghost predicate IsNaturalLoop(g: Graph, blocks: set<nat>, header: nat, latch: nat) {
    forall x: nat :: x in blocks <==> x == header || ReachesAvoiding(g, x, latch, header)
  }

  ghost predicate Leaves(g: Graph, blocks: set<nat>, x: nat) {
    x in blocks && x < |g.succs| && exists s | s in g.succs[x] :: s !in blocks
  }

  lemma AvoidingStep(g: Graph, q: nat, x: nat, latch: nat, header: nat)
    requires ValidGraph(g) && ReachesAvoiding(g, x, latch, header) && Edge(g, q, x) && q != header
    ensures ReachesAvoiding(g, q, latch, header)
  {
    var p: seq<nat> :| AvoidingPath(g, p, x, latch, header);
    assert IsPath(g, [q, x]);
    PathJoin(g, [q, x], p);
    assert AvoidingPath(g, [q, x] + p[1..], q, latch, header);
  }

  /** A set with the latch that is closed under predecessors of all but the header has every block of the loop. */
  lemma {:induction false} ClosedHasAll(g: Graph, blocks: set<nat>, p: seq<nat>, x: nat, latch: nat, header: nat)
    requires ValidGraph(g) && AvoidingPath(g, p, x, latch, header) && latch in blocks
    requires forall b: nat, q: nat | b in blocks && b != header && Edge(g, q, b) :: q in blocks
    ensures x in blocks
    decreases |p|
  {
    if |p| > 1 {
      PathSuffix(g, p, 1);
      assert AvoidingPath(g, p[1..], p[1], latch, header);
      ClosedHasAll(g, blocks, p[1..], p[1], latch, header);
      assert Edge(g, p[0], p[1]);
    }
  }

  /** The worklist holds what was inserted and not yet expanded. */
  ghost predicate Growing(g: Graph, blocks: set<nat>, worklist: seq<nat>, header: nat, latch: nat) {
    && latch in blocks && header in blocks
    && (forall x | x in worklist :: x in blocks && x < |g.preds|)
    && (forall b: nat, q: nat | b in blocks && b != header && b !in worklist && Edge(g, q, b) :: q in blocks)
    && (forall x: nat | x in blocks :: x < |g.preds|)
    && (forall x: nat | x in blocks && x != header :: ReachesAvoiding(g, x, latch, header))
    && header !in worklist
  }

  lemma GrowthDone(g: Graph, blocks: set<nat>, header: nat, latch: nat)
    requires ValidGraph(g) && Growing(g, blocks, [], header, latch)
    ensures IsNaturalLoop(g, blocks, header, latch)
  {
    forall x: nat | ReachesAvoiding(g, x, latch, header)
      ensures x in blocks
    {
      var p: seq<nat> :| AvoidingPath(g, p, x, latch, header);
      ClosedHasAll(g, blocks, p, x, latch, header);
    }
  }

  class Loop {
    var header: nat
    var blocks: set<nat>
    var exits: set<nat>

    constructor (header: nat)
      ensures this.header == header && blocks == {} && exits == {}
    {
      this.header := header;
      blocks, exits := {}, {};
    }

    /** Inserts the predecessors of one block and queues the new ones. */
    method Expand(g: Graph, latch: nat, rest: seq<nat>, curr: nat) returns (worklist: seq<nat>)
      requires ValidGraph(g) && Growing(g, blocks, rest + [curr], header, latch)
      modifies `blocks
      ensures Growing(g, blocks, worklist, header, latch)
      ensures old(blocks) < blocks || (blocks == old(blocks) && worklist == rest)
    {
      worklist := rest;
      assert curr in rest + [curr] && forall x | x in rest :: x in rest + [curr];
      var preds := g.preds[curr];
      for k := 0 to |preds|
        invariant old(blocks) <= blocks && (blocks == old(blocks) ==> worklist == rest)
        invariant latch in blocks && header in blocks && header !in worklist && curr in blocks
        invariant forall x | x in worklist :: x in blocks && x < |g.preds|
        invariant forall x: nat | x in blocks :: x < |g.preds|
        invariant forall b: nat, q: nat | b in blocks && b != header && b !in worklist && b != curr && Edge(g, q, b) ::
                    q in blocks
        invariant forall j | 0 <= j < k :: preds[j] in blocks
        invariant forall x: nat | x in blocks && x != header :: ReachesAvoiding(g, x, latch, header)
      {
        hide ReachesAvoiding;
        var pred := preds[k];
        assert Edge(g, pred, curr);
        if pred !in blocks {
          AvoidingStep(g, pred, curr, latch, header);
          blocks := blocks + {pred};
          worklist := worklist + [pred];
        }
      }
    }

    method FindExits(g: Graph)
      requires ValidGraph(g) && exits == {} && forall x: nat | x in blocks :: x < |g.preds|
      modifies `exits
      ensures forall x: nat :: x in exits <==> Leaves(g, blocks, x)
    {
      var left := blocks;
      while left != {}
        invariant left <= blocks
        invariant forall x: nat :: x in exits <==> x !in left && Leaves(g, blocks, x)
        decreases left
      {
        var bb: nat :| bb in left;
        left := left - {bb};
        for k := 0 to |g.succs[bb]|
          invariant forall x: nat | x != bb :: x in exits <==> x !in left && Leaves(g, blocks, x)
          invariant bb in exits <==> exists j | 0 <= j < k :: g.succs[bb][j] !in blocks
        {
          if g.succs[bb][k] !in blocks {
            exits := exits + {bb};
          }
        }
      }
    }

    method Build(g: Graph, latch: nat)
      requires ValidGraph(g) && latch < |g.preds| && header < |g.preds| && blocks == {} && exits == {}
      modifies `blocks, `exits
      ensures IsNaturalLoop(g, blocks, header, latch)
      ensures forall x: nat :: x in exits <==> Leaves(g, blocks, x)
    {
      blocks := {header};
      if header != latch {
        blocks := blocks + {latch};
        var worklist := [latch];
        LatchReaches(g, latch, header);
        while worklist != []
          invariant Growing(g, blocks, worklist, header, latch) && exits == {}
          decreases |g.preds| - |blocks|, |worklist|
        {
          hide Growing, ValidGraph;
          var curr := Last(worklist);
          assert worklist == worklist[..|worklist| - 1] + [curr];
          ghost var before := blocks;
          Bounded(g, blocks, worklist, header, latch);
          worklist := Expand(g, latch, worklist[..|worklist| - 1], curr);
          Bounded(g, blocks, worklist, header, latch);
          if before != blocks { SmallerSet(before, blocks); }
        }
        GrowthDone(g, blocks, header, latch);
        InGraph(g, blocks, header, latch);
      } else {
        OneBlockLoop(g, header);
      }
      FindExits(g);
    }
  }

  lemma LatchReaches(g: Graph, latch: nat, header: nat)
    requires latch < |g.preds| && header < |g.preds| && header != latch
    ensures Growing(g, {header, latch}, [latch], header, latch)
  {
    assert AvoidingPath(g, [latch], latch, latch, header);
  }

  lemma InGraph(g: Graph, blocks: set<nat>, header: nat, latch: nat)
    requires Growing(g, blocks, [], header, latch)
    ensures forall x: nat | x in blocks :: x < |g.preds|
  {
  }

  lemma OneBlockLoop(g: Graph, header: nat)
    ensures IsNaturalLoop(g, {header}, header, header)
  {
    forall x: nat, p: seq<nat>
      ensures !AvoidingPath(g, p, x, header, header)
    {
      if p != [] { assert Last(p) in p; }
    }
  }

  lemma Bounded(g: Graph, blocks: set<nat>, worklist: seq<nat>, header: nat, latch: nat)
    requires Growing(g, blocks, worklist, header, latch)
    ensures |blocks| <= |g.preds|
  {
    AtMost(blocks, |g.preds|);
  }

  lemma {:induction false} AtMost(s: set<nat>, n: nat)
    requires forall x | x in s :: x < n
    ensures |s| <= n
  {
    if n > 0 {
      AtMost(s - {n - 1}, n - 1);
      if n - 1 in s { assert s == s - {n - 1} + {n - 1}; }
    } else {
      assert s == {};
    }
  }

  // ----- Back edges and what a loop is

  /** Lists, in layout order, the edges whose target dominates their source. */
  method FindBackEdges(g: Graph) returns (backEdges: seq<BackEdge>)
    requires ValidGraph(g) && forall b: nat | b < |g.succs| && g.succs[b] != [] :: Reached(g, b)
    ensures forall e :: e in backEdges <==> IsBackEdge(g, e)
  {
    hide Dominates, Reached, IdomsFound, ChildrenFound;
    var tree := new DominatorTree();
    tree.Run(g);
    backEdges := [];
    for b := 0 to |g.succs|
      invariant IdomsFound(g, tree.iDomMap)
      invariant forall e :: e in backEdges <==> IsBackEdge(g, e) && e.latch < b
    {
      for k := 0 to |g.succs[b]|
        invariant IdomsFound(g, tree.iDomMap)
        invariant forall e: BackEdge | e.latch != b :: e in backEdges <==> IsBackEdge(g, e) && e.latch < b
        invariant forall h: nat ::
                    BackEdge(b, h) in backEdges <==> h in g.succs[b][..k] && Dominates(g, h, b)
      {
        var succ := g.succs[b][k];
        assert g.succs[b][..k + 1] == g.succs[b][..k] + [succ];
        assert Reached(g, b);
        var back := tree.DominatesWalk(g, succ, b);
        if back {
          backEdges := backEdges + [BackEdge(b, succ)];
        }
      }
      assert g.succs[b][..|g.succs[b]|] == g.succs[b];
    }
  }

  /** The header of a back edge dominates every block of its loop. */
  lemma HeaderDominates(g: Graph, blocks: set<nat>, e: BackEdge, x: nat)
    requires ValidGraph(g) && IsBackEdge(g, e) && IsNaturalLoop(g, blocks, e.header, e.latch) && x in blocks
    ensures Dominates(g, e.header, x)
  {
    if x == e.header {
      DominatesSelf(g, x);
    } else {
      var q: seq<nat> :| AvoidingPath(g, q, x, e.latch, e.header);
      forall p: seq<nat> | RootPath(g, p, x)
        ensures e.header in p
      {
        PathJoin(g, p, q);
        assert RootPath(g, p + q[1..], e.latch);
        assert e.header in p + q[1..];
      }
    }
  }

  /** A loop is entered at its header alone. */
  lemma EnteredAtHeader(g: Graph, blocks: set<nat>, e: BackEdge, q: nat, x: nat)
    requires ValidGraph(g) && IsNaturalLoop(g, blocks, e.header, e.latch)
    requires x in blocks && x != e.header && Edge(g, q, x)
    ensures q in blocks
  {
    if q != e.header { AvoidingStep(g, q, x, e.latch, e.header); }
  }

  /** And every block of it goes round: from the header to the block, and from the block back to the header. */
  lemma GoesRound(g: Graph, blocks: set<nat>, e: BackEdge, x: nat) returns (there: seq<nat>, back: seq<nat>)
    requires ValidGraph(g) && AllReached(g)
    requires IsBackEdge(g, e) && IsNaturalLoop(g, blocks, e.header, e.latch) && x in blocks && x < |g.preds|
    ensures IsPath(g, there) && there[0] == e.header && Last(there) == x
    ensures IsPath(g, back) && back[0] == x && Last(back) == e.header && |back| >= 2 - (if x == e.header then 1 else 0)
  {
    HeaderDominates(g, blocks, e, x);
    assert Reached(g, x);
    var p: seq<nat> :| RootPath(g, p, x);
    var i :| 0 <= i < |p| && p[i] == e.header;
    PathSuffix(g, p, i);
    there := p[i..];
    if x == e.header {
      back := [x];
    } else {
      var q: seq<nat> :| AvoidingPath(g, q, x, e.latch, e.header);
      assert Edge(g, e.latch, e.header);
      PathExtend(g, q, e.header);
      back := q + [e.header];
    }
  }
}
