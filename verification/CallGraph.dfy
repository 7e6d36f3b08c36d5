/**
 Modules as their functions' call sites, reachability between functions, and how much
 inlining a call can lead to.
 */
module CallGraph {
  import opened IR

  type FunId = nat

  /** What matters of an instruction: a direct call, a return, or anything else. */
  datatype Item = CallTo(callee: FunId, isVoid: bool) | Return(hasValue: bool) | Plain

  /** The blocks of each function; an external function has none. */
  type Module = map<FunId, seq<seq<Item>>>

  function Flat(blocks: seq<seq<Item>>): seq<Item> {
    if blocks == [] then [] else Flat(blocks[..|blocks| - 1]) + Last(blocks)
  }

  predicate HasCall(items: seq<Item>, g: FunId) {
    exists i :: 0 <= i < |items| && items[i].CallTo? && items[i].callee == g
  }

  predicate Calls(m: Module, f: FunId, g: FunId) {
    f in m && HasCall(Flat(m[f]), g)
  }

  /** Every function that is called is in the module. */
  ghost predicate Closed(m: Module) {
    forall f: FunId, g: FunId | Calls(m, f, g) :: g in m
  }

  ghost predicate IsCallPath(m: Module, p: seq<FunId>) {
    |p| >= 2 && forall i | 0 < i < |p| :: Calls(m, p[i - 1], p[i])
  }

  /** A nonempty chain of calls. */
  ghost predicate Reaches(m: Module, f: FunId, g: FunId) {
    exists p: seq<FunId> :: IsCallPath(m, p) && p[0] == f && Last(p) == g
  }

  ghost predicate Recursive(m: Module, f: FunId) {
    Reaches(m, f, f)
  }

  lemma CallReaches(m: Module, f: FunId, g: FunId)
    requires Calls(m, f, g)
    ensures Reaches(m, f, g)
  {
    assert IsCallPath(m, [f, g]);
  }

  lemma ReachesThen(m: Module, f: FunId, g: FunId, h: FunId)
    requires Reaches(m, f, g) && Reaches(m, g, h)
    ensures Reaches(m, f, h)
  {
    var p: seq<FunId> :| IsCallPath(m, p) && p[0] == f && Last(p) == g;
    var q: seq<FunId> :| IsCallPath(m, q) && q[0] == g && Last(q) == h;
    var r := p + q[1..];
    forall i | 0 < i < |r|
      ensures Calls(m, r[i - 1], r[i])
    {
      if i >= |p| {
        var j := i - |p| + 1;
        assert r[i] == q[j] && r[i - 1] == q[j - 1];
        assert Calls(m, q[j - 1], q[j]);
      } else {
        assert Calls(m, p[i - 1], p[i]);
      }
    }
    assert IsCallPath(m, r) && r[0] == f && Last(r) == h;
  }

  /** The first call of a chain, and the rest of it. */
  lemma FirstCall(m: Module, p: seq<FunId>)
    requires IsCallPath(m, p)
    ensures Calls(m, p[0], p[1]) && (|p| > 2 ==> IsCallPath(m, p[1..]) && Last(p[1..]) == Last(p))
  {
    assert Calls(m, p[1 - 1], p[1]);
    if |p| > 2 {
      forall i | 0 < i < |p| - 1
        ensures Calls(m, p[1..][i - 1], p[1..][i])
      {
        assert Calls(m, p[i + 1 - 1], p[i + 1]);
      }
    }
  }

  // ----- Weights

  ghost function ReachSet(m: Module, f: FunId): set<FunId> {
    set g | g in m && Reaches(m, f, g)
  }

  /** A function that is not recursive reaches fewer functions than its callers. */
  lemma RankFalls(m: Module, f: FunId, g: FunId)
    requires Closed(m) && Calls(m, f, g) && !Recursive(m, g)
    ensures g in m && |ReachSet(m, g)| < |ReachSet(m, f)|
  {
    hide Calls;
    CallReaches(m, f, g);
    forall h | h in ReachSet(m, g)
      ensures h in ReachSet(m, f)
    {
      ReachesThen(m, f, g, h);
    }
    assert g in ReachSet(m, f) && g !in ReachSet(m, g);
    FewerIn(ReachSet(m, g), ReachSet(m, f), g);
  }

  lemma FewerIn(s: set<FunId>, t: set<FunId>, x: FunId)
    requires s <= t && x in t && x !in s
    ensures |s| < |t|
  {
    assert t == s + (t - s) && x in t - s;
  }

  /** How many inlinings a call can lead to: none for a recursive callee, else one and those of the callee's calls. */
  ghost function CallWeight(m: Module, g: FunId): nat
    requires Closed(m)
    decreases |ReachSet(m, g)|, 1, 0
  {
    if Recursive(m, g) || g !in m then 0
    else
      CallsOwn(m, g);
      1 + ItemsWeight(m, g, Flat(m[g]))
  }

  ghost function ItemsWeight(m: Module, g: FunId, items: seq<Item>): nat
    requires Closed(m) && forall h: FunId | HasCall(items, h) :: Calls(m, g, h)
    decreases |ReachSet(m, g)|, 0, |items|
  {
    if items == [] then 0
    else
      var front, last := items[..|items| - 1], Last(items);
      FrontCalls(items);
      var w := if last.CallTo? && !Recursive(m, last.callee) then
                 RankFalls(m, g, last.callee);
                 CallWeight(m, last.callee)
               else 0;
      ItemsWeight(m, g, front) + w
  }

  lemma FrontCalls(items: seq<Item>)
    requires items != []
    ensures forall h: FunId | HasCall(items[..|items| - 1], h) :: HasCall(items, h)
    ensures Last(items).CallTo? ==> HasCall(items, Last(items).callee)
  {
    forall h: FunId | HasCall(items[..|items| - 1], h)
      ensures HasCall(items, h)
    {
      var i :| 0 <= i < |items| - 1 && items[..|items| - 1][i].CallTo? && items[..|items| - 1][i].callee == h;
      assert items[i].CallTo? && items[i].callee == h;
    }
    if Last(items).CallTo? { assert items[|items| - 1].callee == Last(items).callee; }
  }

  lemma CallsOwn(m: Module, g: FunId)
    requires g in m
    ensures forall h: FunId | HasCall(Flat(m[g]), h) :: Calls(m, g, h)
  {
  }

  /** The weights of the calls in a list. */
  ghost function Weight(m: Module, items: seq<Item>): nat
    requires Closed(m)
  {
    if items == [] then 0
    else Weight(m, items[..|items| - 1]) + if Last(items).CallTo? then CallWeight(m, Last(items).callee) else 0
  }

  lemma {:induction false} ItemsAreWeighed(m: Module, g: FunId, items: seq<Item>)
    requires Closed(m) && forall h: FunId | HasCall(items, h) :: Calls(m, g, h)
    ensures ItemsWeight(m, g, items) == Weight(m, items)
    decreases |items|
  {
    if items != [] {
      FrontCalls(items);
      hide HasCall, Calls, Closed, Recursive;
      ItemsAreWeighed(m, g, items[..|items| - 1]);
      if Last(items).CallTo? { NoWeight(m, Last(items).callee); }
    }
  }

  lemma NoWeight(m: Module, g: FunId)
    requires Closed(m)
    ensures Recursive(m, g) ==> CallWeight(m, g) == 0
  {
  }

  /** The weight of a call to a function that is not recursive. */
  lemma CallWeightIs(m: Module, g: FunId)
    requires Closed(m) && g in m && !Recursive(m, g)
    ensures CallWeight(m, g) == 1 + Weight(m, Flat(m[g]))
  {
    CallsOwn(m, g);
    hide HasCall, Calls, Closed, Recursive;
    ItemsAreWeighed(m, g, Flat(m[g]));
  }

  lemma {:induction false} WeightSplits(m: Module, a: seq<Item>, b: seq<Item>)
    requires Closed(m)
    ensures Weight(m, a + b) == Weight(m, a) + Weight(m, b)
    decreases |b|
  {
    hide CallWeight, Closed;
    if b == [] {
      assert a + b == a;
    } else {
      WeightSplits(m, a, b[..|b| - 1]);
      assert (a + b)[..|a + b| - 1] == a + b[..|b| - 1];
    }
  }

  lemma {:induction false} FlatSplits(a: seq<seq<Item>>, b: seq<seq<Item>>)
    ensures Flat(a + b) == Flat(a) + Flat(b)
    decreases |b|
  {
    if b == [] {
      assert a + b == a;
    } else {
      FlatSplits(a, b[..|b| - 1]);
      assert (a + b)[..|a + b| - 1] == a + b[..|b| - 1] && Last(a + b) == Last(b);
      assert Flat(a + b) == Flat(a) + Flat(b[..|b| - 1]) + Last(b);
    }
  }

  lemma FlatOne(block: seq<Item>)
    ensures Flat([block]) == block
  {
    assert [block][..0] == [];
  }
}
