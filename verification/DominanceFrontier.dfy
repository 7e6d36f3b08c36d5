/**
 Dominance frontiers by walking up the dominator tree from the predecessors of each
 join.
 */
module Frontiers {
  import opened IR
  import opened ControlFlow
  import opened Dominators

  ghost predicate Strictly(g: Graph, d: nat, b: nat) {
    d != b && Dominates(g, d, b)
  }

  /** x dominates a predecessor of b but does not strictly dominate b. */
  ghost predicate InFrontier(g: Graph, x: nat, b: nat) {
    b < |g.preds| && !Strictly(g, x, b) && exists p | p in g.preds[b] :: Dominates(g, x, p)
  }

  predicate Listed(frontiers: map<nat, set<nat>>, x: nat, b: nat) {
    x in frontiers && b in frontiers[x]
  }

  /** One walk's part of the frontier. */
  ghost predicate FromPred(g: Graph, x: nat, p: nat, b: nat) {
    x < |g.preds| && Dominates(g, x, p) && !Strictly(g, x, b)
  }

  /** Where the walk from a predecessor of b stands: past `visited`, below every strict dominator of b. */
  ghost predicate Walking(g: Graph, p: nat, b: nat, visited: set<nat>, runner: Option<nat>) {
    && (runner.Some? ==> runner.value < |g.preds| && Reached(g, runner.value))
    && (forall x: nat | x < |g.preds| ::
          Dominates(g, x, p) <==> x in visited || (runner.Some? && Dominates(g, x, runner.value)))
    && (forall x: nat | x in visited :: x < |g.preds| && !Strictly(g, x, b))
    && (forall e: nat | e < |g.preds| && Strictly(g, e, b) :: runner.Some? && Dominates(g, e, runner.value))
  }

  lemma WalkStarts(g: Graph, p: nat, b: nat)
    requires ValidGraph(g) && Reached(g, p) && b < |g.preds| && p in g.preds[b]
    ensures Walking(g, p, b, {}, Some(p))
  {
    assert Edge(g, p, b);
    forall e: nat | e < |g.preds| && Strictly(g, e, b)
      ensures Dominates(g, e, p)
    {
      DominatesPred(g, e, p, b);
    }
  }

  /** Below the immediate dominator of b nothing strictly dominates b. */
  lemma RunnerNotStrict(g: Graph, m: IdomMap, p: nat, b: nat, visited: set<nat>, r: nat)
    requires ValidGraph(g) && Reached(g, b) && IdomsFound(g, m) && b < |g.preds|
    requires Walking(g, p, b, visited, Some(r)) && Idom(m, b) != Some(r)
    ensures !Strictly(g, r, b)
  {
    if Strictly(g, r, b) {
      WalkStep(g, m, r, b);
      var i := Idom(m, b).value;
      IdomIsStrict(g, i, b);
      assert Strictly(g, i, b);
      var q: seq<nat> :| RootPath(g, q, r);
      NoMutual(g, r, i, q);
    }
  }

  lemma WalkGoesOn(g: Graph, m: IdomMap, p: nat, b: nat, visited: set<nat>, r: nat)
    requires ValidGraph(g) && Reached(g, b) && IdomsFound(g, m) && b < |g.preds|
    requires Walking(g, p, b, visited, Some(r)) && Idom(m, b) != Some(r)
    ensures Walking(g, p, b, visited + {r}, Idom(m, r))
    ensures Idom(m, r).Some? ==> Depth(g, Idom(m, r).value) < Depth(g, r)
  {
    RunnerNotStrict(g, m, p, b, visited, r);
    hide Dominates, Reached, ValidGraph, IdomsFound, Idom, Depth;
    forall x: nat | x < |g.preds|
      ensures Dominates(g, x, r) <==> x == r || (Idom(m, r).Some? && Dominates(g, x, Idom(m, r).value))
    {
      if x == r { DominatesSelf(g, r); } else { WalkStep(g, m, x, r); }
    }
    NextReached(g, m, r);
  }

  lemma NextReached(g: Graph, m: IdomMap, r: nat)
    requires ValidGraph(g) && IdomsFound(g, m) && r < |g.preds| && Reached(g, r)
    ensures Idom(m, r).Some? ==>
              && Idom(m, r).value < |g.preds| && Reached(g, Idom(m, r).value)
              && Depth(g, Idom(m, r).value) < Depth(g, r)
  {
    if Idom(m, r).Some? {
      IdomIsStrict(g, Idom(m, r).value, r);
      WalkStep(g, m, Idom(m, r).value, r);
    }
  }

  /** Where the walk ends, it has visited exactly its part of the frontier. */
  lemma WalkDone(g: Graph, m: IdomMap, p: nat, b: nat, visited: set<nat>, runner: Option<nat>)
    requires ValidGraph(g) && Reached(g, b) && IdomsFound(g, m) && b < |g.preds|
    requires Walking(g, p, b, visited, runner) && (runner == Idom(m, b) || runner.None?)
    ensures runner == Idom(m, b)
    ensures forall x: nat :: x in visited <==> FromPred(g, x, p, b)
  {
    hide Dominates, Reached, ValidGraph, IdomsFound, Idom;
    if runner.None? && Idom(m, b).Some? {
      IdomStrictly(g, m, b);
    }
    forall x: nat | x < |g.preds| && runner.Some?
      ensures Dominates(g, x, runner.value) <==> Strictly(g, x, b)
    {
      IdomBelow(g, m, x, b);
    }
  }

  lemma IdomStrictly(g: Graph, m: IdomMap, b: nat)
    requires IdomsFound(g, m) && b < |g.preds| && Idom(m, b).Some?
    ensures Idom(m, b).value < |g.preds| && Strictly(g, Idom(m, b).value, b)
    ensures IsIdom(g, Idom(m, b).value, b)
  {
  }

  lemma IdomBelow(g: Graph, m: IdomMap, x: nat, b: nat)
    requires IdomsFound(g, m) && Reached(g, b) && b < |g.preds| && Idom(m, b).Some? && x < |g.preds|
    ensures Dominates(g, x, Idom(m, b).value) <==> Strictly(g, x, b)
  {
    IdomStrictly(g, m, b);
    DominatesThroughIdom(g, x, Idom(m, b).value, b);
  }

  /** Nothing unreached leads into a join. */
  ghost predicate JoinsReached(g: Graph) {
    forall b: nat, p: nat | b < |g.preds| && |g.preds[b]| >= 2 && p in g.preds[b] :: Reached(g, p)
  }

  lemma PredReached(g: Graph, p: nat, b: nat)
    requires b < |g.preds| && p in g.preds[b] && Reached(g, p)
    ensures Reached(g, b)
  {
    var q: seq<nat> :| RootPath(g, q, p);
    assert Edge(g, p, b);
    PathExtend(g, q, b);
    assert RootPath(g, q + [b], b);
  }

  class DominanceFrontier {
    var frontiers: map<nat, set<nat>>

    constructor ()
      ensures frontiers == map[]
    {
      frontiers := map[];
    }

    /** From one predecessor of b up to the immediate dominator of b. */
    method Walk(g: Graph, domTree: DominatorTree, p: nat, b: nat)
      requires ValidGraph(g) && Reached(g, p) && IdomsFound(g, domTree.iDomMap)
      requires b < |g.preds| && p in g.preds[b]
      modifies this
      ensures forall x: nat, c: nat ::
                Listed(frontiers, x, c) <==> Listed(old(frontiers), x, c) || (c == b && FromPred(g, x, p, b))
    {
      hide Walking, ValidGraph, IdomsFound, FromPred, Reached, IsIdom;
      PredReached(g, p, b);
      var runner: Option<nat> := Some(p);
      ghost var visited: set<nat> := {};
      WalkStarts(g, p, b);
      var idom := domTree.GetImmediateDominator(g, b);
      while runner != idom
        invariant Walking(g, p, b, visited, runner)
        invariant forall x: nat, c: nat ::
                    Listed(frontiers, x, c) <==> Listed(old(frontiers), x, c) || (c == b && x in visited)
        decreases if runner.Some? then Depth(g, runner.value) + 1 else 0
      {
        if runner == None { break; }
        var r := runner.value;
        WalkGoesOn(g, domTree.iDomMap, p, b, visited, r);
        frontiers := frontiers[r := (if r in frontiers then frontiers[r] else {}) + {b}];
        visited := visited + {r};
        runner := domTree.GetImmediateDominator(g, r);
      }
      WalkDone(g, domTree.iDomMap, p, b, visited, runner);
    }

    /**
     The frontiers gain, for every block with two or more predecessors, exactly the blocks it is in the
     frontier of.
     */
    method Run(g: Graph, domTree: DominatorTree)
      requires ValidGraph(g) && JoinsReached(g) && IdomsFound(g, domTree.iDomMap)
      modifies this
      ensures forall x: nat, b: nat ::
                Listed(frontiers, x, b) <==>
                  Listed(old(frontiers), x, b)
                     || (x < |g.preds| && b < |g.preds| && |g.preds[b]| >= 2 && InFrontier(g, x, b))
    {
      hide ValidGraph, Reached, IdomsFound, Dominates, Strictly;
      for b := 0 to |g.preds|
        invariant forall x: nat, c: nat ::
                    Listed(frontiers, x, c) <==>
                      Listed(old(frontiers), x, c)
                         || (x < |g.preds| && c < b && |g.preds[c]| >= 2 && InFrontier(g, x, c))
      {
        if |g.preds[b]| >= 2 {
          ghost var before := frontiers;
          for k := 0 to |g.preds[b]|
            invariant forall x: nat, c: nat ::
                        Listed(frontiers, x, c) <==>
                          Listed(before, x, c) || (c == b && exists j | 0 <= j < k :: FromPred(g, x, g.preds[b][j], b))
          {
            Walk(g, domTree, g.preds[b][k], b);
          }
          forall x: nat
            ensures (exists j | 0 <= j < |g.preds[b]| :: FromPred(g, x, g.preds[b][j], b))
               <==> x < |g.preds| && InFrontier(g, x, b)
          {
            OverPreds(g, x, b);
          }
        }
      }
    }
  }

  lemma OverPreds(g: Graph, x: nat, b: nat)
    requires b < |g.preds|
    ensures (exists j | 0 <= j < |g.preds[b]| :: FromPred(g, x, g.preds[b][j], b))
       <==> x < |g.preds| && InFrontier(g, x, b)
  {
    hide Dominates;
    if x < |g.preds| && InFrontier(g, x, b) {
      var p :| p in g.preds[b] && Dominates(g, x, p);
      var j :| 0 <= j < |g.preds[b]| && g.preds[b][j] == p;
      assert FromPred(g, x, g.preds[b][j], b);
    }
  }

  // ----- When looking only at joins is exact

  /** With one predecessor, everything that dominates it strictly dominates the block, unless that is the entry. */
  lemma OnePredNoFrontier(g: Graph, x: nat, b: nat)
    requires ValidGraph(g) && AllReached(g) && 0 < b < |g.preds| && |g.preds[b]| == 1
    ensures !InFrontier(g, x, b)
  {
    var p := g.preds[b][0];
    if Dominates(g, x, p) {
      forall q: seq<nat> | RootPath(g, q, b)
        ensures x in q
      {
        assert |q| >= 2;
        var e := FirstEdge(g, q);
        assert RootPath(g, q[..|q| - 1], p);
        assert x in q[..|q| - 1];
      }
      if x == b {
        assert Reached(g, b);
        var q: seq<nat> :| RootPath(g, q, b);
        SoleSelf(g, b, p, q);
      }
    }
  }

  /** A block that is not a root is not its own only way in. */
  lemma {:induction false} SoleSelf(g: Graph, b: nat, p: nat, q: seq<nat>)
    requires 0 < b < |g.preds| && g.preds[b] == [p] && Dominates(g, b, p)
    requires RootPath(g, q, b)
    ensures false
    decreases |q|
  {
    assert |q| >= 2;
    var e := FirstEdge(g, q);
    assert RootPath(g, q[..|q| - 1], p);
    var i :| 0 <= i < |q| - 1 && q[..|q| - 1][i] == b;
    PathPrefix(g, q, i + 1);
    SoleSelf(g, b, p, q[..i + 1]);
  }

  lemma EntryFrontier(g: Graph)
    requires ValidGraph(g) && |g.preds| > 0 && |g.preds[0]| == 1
    ensures InFrontier(g, g.preds[0][0], 0) && g.preds[0][0] < |g.preds|
  {
    var p := g.preds[0][0];
    DominatesSelf(g, p);
    if Strictly(g, p, 0) { RootDominator(g, p, 0); }
    assert p in g.preds[0];
  }

  /** Joins alone give the whole frontier exactly when the entry does not have just one predecessor. */
  lemma JoinsSuffice(g: Graph)
    requires ValidGraph(g) && AllReached(g) && |g.preds| > 0
    ensures (forall x: nat, b: nat | x < |g.preds| && InFrontier(g, x, b) :: b < |g.preds| && |g.preds[b]| >= 2)
       <==> |g.preds[0]| != 1
  {
    hide ValidGraph, AllReached, InFrontier;
    if |g.preds[0]| == 1 {
      EntryFrontier(g);
    } else {
      forall x: nat, b: nat | x < |g.preds| && InFrontier(g, x, b)
        ensures b < |g.preds| && |g.preds[b]| >= 2
      {
        HasPred(g, x, b);
        if |g.preds[b]| == 1 { OnePredNoFrontier(g, x, b); }
      }
    }
  }

  lemma HasPred(g: Graph, x: nat, b: nat)
    requires InFrontier(g, x, b)
    ensures b < |g.preds| && g.preds[b] != []
  {
  }

  /** What a first run leaves is the dominance frontier, exactly when the entry does not have just one predecessor. */
  lemma FrontiersExact(g: Graph, frontiers: map<nat, set<nat>>)
    requires ValidGraph(g) && AllReached(g) && |g.preds| > 0
    requires forall x: nat, b: nat ::
               Listed(frontiers, x, b) <==> x < |g.preds| && b < |g.preds| && |g.preds[b]| >= 2 && InFrontier(g, x, b)
    ensures (forall x: nat, b: nat | x < |g.preds| :: Listed(frontiers, x, b) <==> InFrontier(g, x, b))
       <==> |g.preds[0]| != 1
  {
    JoinsSuffice(g);
    hide ValidGraph, AllReached, InFrontier;
    forall x: nat, b: nat | x < |g.preds| && InFrontier(g, x, b)
      ensures b < |g.preds|
    {
      HasPred(g, x, b);
    }
  }
}
