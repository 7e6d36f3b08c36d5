/**
 Control-flow graphs as the block lists of predecessors and successors give them,
 and dominance by its paths.
 */
module ControlFlow {
  import opened IR

  /** Blocks are numbered in layout order, 0 being the entry.  A neighbour may be listed more than once. */
  datatype Graph = Graph(preds: seq<seq<nat>>, succs: seq<seq<nat>>)

  ghost predicate ValidGraph(g: Graph) {
    && |g.preds| == |g.succs|
    && (forall b, k | 0 <= b < |g.preds| && 0 <= k < |g.preds[b]| :: g.preds[b][k] < |g.preds|)
    && (forall b, k | 0 <= b < |g.succs| && 0 <= k < |g.succs[b]| :: g.succs[b][k] < |g.succs|)
    && (forall a, b | 0 <= a < |g.succs| && 0 <= b < |g.preds| :: b in g.succs[a] <==> a in g.preds[b])
  }

  predicate Edge(g: Graph, a: nat, b: nat) {
    b < |g.preds| && a in g.preds[b]
  }

  ghost predicate IsPath(g: Graph, p: seq<nat>) {
    p != [] && p[0] < |g.preds| && forall i | 0 < i < |p| :: Edge(g, p[i - 1], p[i])
  }

  /** Where paths may start: the entry, and any block nothing leads to. */
  predicate IsRoot(g: Graph, b: nat) {
    b < |g.preds| && (b == 0 || g.preds[b] == [])
  }

  ghost predicate RootPath(g: Graph, p: seq<nat>, b: nat) {
    IsPath(g, p) && IsRoot(g, p[0]) && Last(p) == b
  }

  ghost predicate Reached(g: Graph, b: nat) {
    exists p: seq<nat> :: RootPath(g, p, b)
  }

  ghost predicate AllReached(g: Graph) {
    forall b: nat | b < |g.preds| :: Reached(g, b)
  }

  /** Every path from a root to b passes through d. */
  ghost predicate Dominates(g: Graph, d: nat, b: nat) {
    forall p: seq<nat> | RootPath(g, p, b) :: d in p
  }

  /** The same, for paths from the entry alone. */
  ghost predicate EntryDominates(g: Graph, d: nat, b: nat) {
    forall p: seq<nat> | IsPath(g, p) && p[0] == 0 && Last(p) == b :: d in p
  }

  // ----- Paths

  lemma PathPrefix(g: Graph, p: seq<nat>, k: nat)
    requires IsPath(g, p) && 0 < k <= |p|
    ensures IsPath(g, p[..k]) && p[..k][0] == p[0] && Last(p[..k]) == p[k - 1]
    ensures RootPath(g, p, Last(p)) ==> RootPath(g, p[..k], p[k - 1])
  {
  }

  lemma PathSuffix(g: Graph, p: seq<nat>, k: nat)
    requires ValidGraph(g) && IsPath(g, p) && k < |p|
    ensures IsPath(g, p[k..]) && p[k..][0] == p[k] && Last(p[k..]) == Last(p)
  {
    var q := p[k..];
    PathNodes(g, p);
    forall i | 0 < i < |q|
      ensures Edge(g, q[i - 1], q[i])
    {
      assert q[i - 1] == p[k + i - 1] && q[i] == p[k + i];
    }
  }

  lemma PathNodes(g: Graph, p: seq<nat>)
    requires IsPath(g, p)
    ensures forall i | 0 <= i < |p| :: p[i] < |g.preds|
  {
    forall i | 0 <= i < |p|
      ensures p[i] < |g.preds|
    {
      if i > 0 { assert Edge(g, p[i - 1], p[i]); }
    }
  }

  lemma PathExtend(g: Graph, p: seq<nat>, b: nat)
    requires IsPath(g, p) && Edge(g, Last(p), b)
    ensures IsPath(g, p + [b]) && (p + [b])[0] == p[0] && Last(p + [b]) == b
  {
  }

  /** Two paths that meet, as one. */
  lemma PathJoin(g: Graph, p: seq<nat>, q: seq<nat>)
    requires IsPath(g, p) && IsPath(g, q) && Last(p) == q[0]
    ensures IsPath(g, p + q[1..]) && (p + q[1..])[0] == p[0] && Last(p + q[1..]) == Last(q)
  {
    var r := p + q[1..];
    forall i | 0 < i < |r|
      ensures Edge(g, r[i - 1], r[i])
    {
      if i >= |p| {
        var j := i - |p| + 1;
        assert r[i] == q[j] && Edge(g, q[j - 1], q[j]);
        assert r[i - 1] == q[j - 1];
      }
    }
  }

  lemma FirstEdge(g: Graph, p: seq<nat>) returns (q: nat)
    requires IsPath(g, p) && |p| >= 2
    ensures Edge(g, q, Last(p)) && IsPath(g, p[..|p| - 1]) && Last(p[..|p| - 1]) == q
    ensures p[..|p| - 1][0] == p[0]
  {
    q := p[|p| - 2];
    PathPrefix(g, p, |p| - 1);
  }

  // ----- Dominance

  lemma DominatesSelf(g: Graph, b: nat)
    ensures Dominates(g, b, b)
  {
    forall p: seq<nat> | RootPath(g, p, b)
      ensures b in p
    {
      assert p[|p| - 1] == b;
    }
  }

  lemma RootDominator(g: Graph, d: nat, b: nat)
    requires IsRoot(g, b) && Dominates(g, d, b)
    ensures d == b
  {
    assert RootPath(g, [b], b);
  }

  lemma DominatorNode(g: Graph, d: nat, b: nat)
    requires Reached(g, b) && Dominates(g, d, b)
    ensures d < |g.preds| && Reached(g, d)
  {
    var p :| RootPath(g, p, b);
    PathNodes(g, p);
    var i :| 0 <= i < |p| && p[i] == d;
    PathPrefix(g, p, i + 1);
  }

  lemma DominatesTransitive(g: Graph, a: nat, b: nat, c: nat)
    requires Dominates(g, a, b) && Dominates(g, b, c)
    ensures Dominates(g, a, c)
  {
    forall p: seq<nat> | RootPath(g, p, c)
      ensures a in p
    {
      assert b in p;
      var i :| 0 <= i < |p| && p[i] == b;
      PathPrefix(g, p, i + 1);
      assert a in p[..i + 1];
    }
  }

  /** What dominates a block strictly dominates its predecessors. */
  lemma DominatesPred(g: Graph, d: nat, q: nat, b: nat)
    requires Dominates(g, d, b) && d != b && Edge(g, q, b)
    ensures Dominates(g, d, q)
  {
    forall p: seq<nat> | RootPath(g, p, q)
      ensures d in p
    {
      PathExtend(g, p, b);
      assert d in p + [b];
    }
  }

  lemma {:induction false} NoMutual(g: Graph, a: nat, b: nat, p: seq<nat>)
    requires a != b && Dominates(g, a, b) && Dominates(g, b, a) && RootPath(g, p, a)
    ensures false
    decreases |p|
  {
    assert b in p;
    var i :| 0 <= i < |p| && p[i] == b;
    PathPrefix(g, p, i + 1);
    var q := p[..i + 1];
    assert a in q;
    var j :| 0 <= j < |q| && q[j] == a;
    PathPrefix(g, p, j + 1);
    assert j != i;
    NoMutual(g, a, b, p[..j + 1]);
  }

  /** Of two blocks on the way to b that b cannot avoid, the later one is dominated by the other. */
  lemma LaterIsDominated(g: Graph, b: nat, p: seq<nat>, j: nat, e: nat)
    requires ValidGraph(g) && RootPath(g, p, b) && j < |p|
    requires Dominates(g, e, b) && e !in p[j + 1..]
    ensures Dominates(g, e, p[j])
  {
    forall q | RootPath(g, q, p[j])
      ensures e in q
    {
      PathSuffix(g, p, j);
      PathJoin(g, q, p[j..]);
      assert p[j..][1..] == p[j + 1..];
      assert RootPath(g, q + p[j + 1..], b);
      assert e in q + p[j + 1..];
    }
  }

  /** From the entry or from every root: the same dominance exactly when the entry is the only root. */
  lemma EntryDominance(g: Graph)
    requires ValidGraph(g) && |g.preds| > 0
    ensures (forall d: nat, b: nat | d < |g.preds| && b < |g.preds| :: EntryDominates(g, d, b) <==> Dominates(g, d, b))
       <==> (forall b: nat | 0 < b < |g.preds| :: g.preds[b] != [])
  {
    if b: nat :| 0 < b < |g.preds| && g.preds[b] == [] {
      forall p: seq<nat> | IsPath(g, p) && p[0] == 0 && Last(p) == b
        ensures 0 in p
      {
      }
      assert EntryDominates(g, 0, b);
      if Dominates(g, 0, b) { RootDominator(g, 0, b); }
    } else {
      forall d: nat, b: nat | d < |g.preds| && b < |g.preds|
        ensures EntryDominates(g, d, b) <==> Dominates(g, d, b)
      {
        SameRoots(g, d, b);
      }
    }
  }

  lemma SameRoots(g: Graph, d: nat, b: nat)
    requires |g.preds| > 0 && forall b: nat | 0 < b < |g.preds| :: g.preds[b] != []
    ensures EntryDominates(g, d, b) <==> Dominates(g, d, b)
  {
    if EntryDominates(g, d, b) {
      forall p: seq<nat> | RootPath(g, p, b)
        ensures d in p
      {
        assert IsPath(g, p) && p[0] == 0 && Last(p) == b;
      }
    }
    if Dominates(g, d, b) {
      forall p: seq<nat> | IsPath(g, p) && p[0] == 0 && Last(p) == b
        ensures d in p
      {
        assert RootPath(g, p, b);
      }
    }
  }
}
