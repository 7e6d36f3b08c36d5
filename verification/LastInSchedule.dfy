/**
 Where the scheduler places the last operation of a block, when that is a branch that counts
 as an operation: exactly when it stays the last. Whatever is ready with it by then has the
 same priority, and among equals the first to have become ready goes first.
 */
module LastInSchedule {
  import opened IR
  import opened Reordering
  import opened InstructionScheduler

  // ----- Equals go in the order in which they become ready

  ghost predicate Earlier(list: seq<nat>, a: nat, b: nat) {
    exists i, j :: 0 <= i < j < |list| && list[i] == a && list[j] == b
  }

  predicate SamePriority(h: seq<nat>, latency: seq<nat>, a: nat, b: nat) {
    At(h, a) == At(h, b) && At(latency, a) == At(latency, b)
  }

  /** Rounds to the end. */
  ghost predicate Drained(dag: Dag, h: seq<nat>, latency: seq<nat>, order: seq<nat>, trace: seq<seq<nat>>) {
    ValidDag(dag) && Rounds(dag, h, latency, order, trace) && trace[|order|] == []
  }

  lemma DrainedMeans(dag: Dag, h: seq<nat>, latency: seq<nat>, order: seq<nat>, trace: seq<seq<nat>>)
    requires Drained(dag, h, latency, order, trace)
    ensures ValidDag(dag) && |dag.preds| == |dag.succs| && |trace| == |order| + 1 && trace[|order|] == []
    ensures trace[0] == Roots(dag, |dag.preds|)
    ensures Distinct(order) && forall y: nat :: y in order <==> y < |dag.preds|
  {
    ScheduleIsTopological(dag, h, latency, order, trace);
  }

  lemma ReadyAt(dag: Dag, h: seq<nat>, latency: seq<nat>, order: seq<nat>, trace: seq<seq<nat>>, k: nat)
    requires Drained(dag, h, latency, order, trace) && k <= |order|
    ensures |trace| == |order| + 1 && Distinct(trace[k])
    ensures forall y: nat | y < |dag.preds| :: y in trace[k] <==> y !in order[..k] && AllIn(dag.preds[y], order[..k])
    ensures forall y: nat | y in trace[k] || y in order[..k] :: y < |dag.preds|
  {
    RoundsAreSane(dag, h, latency, order, trace, k);
    hide Rounds, ValidDag;
  }

  lemma RoundParts(dag: Dag, h: seq<nat>, latency: seq<nat>, order: seq<nat>, trace: seq<seq<nat>>, k: nat)
    returns (i: nat)
    requires Drained(dag, h, latency, order, trace) && k < |order|
    ensures |trace| == |order| + 1 && IsBest(h, latency, trace[k], i) && i < |trace[k]| && trace[k][i] == order[k]
    ensures order[k] < |dag.succs|
    ensures trace[k + 1] == Without(trace[k], i) + Fresh(dag, order[..k + 1], dag.succs[order[k]])
  {
    assert Round(dag, h, latency, order[..k], trace[k], order[k], trace[k + 1]);
    hide ValidDag, Rounds, IsBest, Fresh;
    i :| IsBest(h, latency, trace[k], i) && i < |trace[k]| && trace[k][i] == order[k]
         && trace[k + 1] == Without(trace[k], i) + Fresh(dag, order[..k] + [order[k]], dag.succs[order[k]]);
    assert order[..k] + [order[k]] == order[..k + 1];
  }

  lemma BestIsFirst(h: seq<nat>, latency: seq<nat>, ready: seq<nat>, i: nat, a: nat, b: nat)
    requires IsBest(h, latency, ready, i) && Distinct(ready) && Earlier(ready, a, b) && SamePriority(h, latency, a, b)
    ensures i < |ready| && ready[i] != b
  {
  }

  lemma EarlierKept(list: seq<nat>, i: nat, news: seq<nat>, a: nat, b: nat)
    requires i < |list| && Earlier(list, a, b) && list[i] != a && list[i] != b
    ensures Earlier(Without(list, i) + news, a, b)
  {
    var p, q :| 0 <= p < q < |list| && list[p] == a && list[q] == b;
    var p', q' := if p < i then p else p - 1, if q < i then q else q - 1;
    var all := Without(list, i) + news;
    assert all[p'] == a && all[q'] == b;
  }

  lemma EarlierNew(list: seq<nat>, i: nat, news: seq<nat>, a: nat, b: nat)
    requires i < |list| && a in list && list[i] != a && b in news
    ensures Earlier(Without(list, i) + news, a, b)
  {
    var p := PositionAt(list, a);
    var q := PositionAt(news, b);
    var p' := if p < i then p else p - 1;
    var all := Without(list, i) + news;
    assert all[p'] == a && all[|Without(list, i)| + q] == b;
  }

  lemma EarlierBehind(front: seq<nat>, news: seq<nat>, a: nat, b: nat)
    requires Earlier(news, a, b)
    ensures Earlier(front + news, a, b)
  {
    var p, q :| 0 <= p < q < |news| && news[p] == a && news[q] == b;
    var all := front + news;
    assert all[|front| + p] == a && all[|front| + q] == b;
  }

  lemma EarlierAscending(list: seq<nat>, a: nat, b: nat)
    requires Ascending(list) && a in list && b in list && a < b
    ensures Earlier(list, a, b)
  {
    var p := PositionAt(list, a);
    var q := PositionAt(list, b);
  }

  lemma StillReady(list: seq<nat>, i: nat, news: seq<nat>, b: nat)
    requires i < |list| && b in list && list[i] != b
    ensures b in Without(list, i) + news
  {
    var q := PositionAt(list, b);
    var q' := if q < i then q else q - 1;
    var all := Without(list, i) + news;
    assert all[q'] == b;
  }

  lemma PlacedEarlier(order: seq<nat>, k: nat, a: nat, b: nat)
    requires k <= |order| && a in order[..k] && b in order && b !in order[..k]
    ensures Earlier(order, a, b)
  {
    var p := PositionAt(order[..k], a);
    var q := PositionAt(order, b);
    InPrefix(order, k, q);
    assert order[p] == a;
  }

  lemma InPrefix(order: seq<nat>, k: nat, q: nat)
    requires k <= |order| && q < |order|
    ensures q < k ==> order[q] in order[..k]
  {
    if q < k { assert order[..k][q] == order[q]; }
  }

  /** Of two with the same priority, the one that is ahead in the ready list goes out first. */
  lemma {:induction false} FirstComeFirstOut(dag: Dag, h: seq<nat>, latency: seq<nat>, order: seq<nat>,
                                             trace: seq<seq<nat>>,
                                              k: nat, a: nat, b: nat)
    requires Drained(dag, h, latency, order, trace) && k < |trace| && k <= |order| && b in trace[k]
    requires a in order[..k] || Earlier(trace[k], a, b)
    requires SamePriority(h, latency, a, b)
    ensures Earlier(order, a, b)
    decreases |order| - k
  {
    hide *;
    DrainedMeans(dag, h, latency, order, trace);
    ReadyAt(dag, h, latency, order, trace, k);
    if a in order[..k] {
      PlacedEarlier(order, k, a, b);
    } else {
      assert k < |order| by { NotAtEnd(trace[k], b); }
      var i := RoundParts(dag, h, latency, order, trace, k);
      var news := Fresh(dag, order[..k + 1], dag.succs[order[k]]);
      BestIsFirst(h, latency, trace[k], i, a, b);
      StillReady(trace[k], i, news, b);
      if order[k] == a {
        assert order[..k + 1][k] == a;
      } else {
        EarlierKept(trace[k], i, news, a, b);
      }
      FirstComeFirstOut(dag, h, latency, order, trace, k + 1, a, b);
    }
  }

  lemma NotAtEnd(ready: seq<nat>, b: nat)
    requires b in ready
    ensures ready != []
  {
  }

  // ----- When an operation becomes ready

  /** The first round in which y is ready. */
  lemma EnteredAt(dag: Dag, h: seq<nat>, latency: seq<nat>, order: seq<nat>, trace: seq<seq<nat>>, y: nat)
    returns (k: nat)
    requires Drained(dag, h, latency, order, trace) && y < |dag.preds|
    ensures |trace| == |order| + 1 && k <= |order| && y in trace[k] && AllIn(dag.preds[y], order[..k])
    ensures k > 0 ==> y !in trace[k - 1] && y !in order[..k - 1]
  {
    hide *;
    DrainedMeans(dag, h, latency, order, trace);
    var pos := PositionAt(order, y);
    PlacedBehind(dag, h, latency, order, trace, pos);
    k := Least(dag.preds[y], order, pos);
    NotPlaced(order, pos, k);
    ReadyAt(dag, h, latency, order, trace, k);
    if k > 0 {
      ReadyAt(dag, h, latency, order, trace, k - 1);
      NotPlaced(order, pos, k - 1);
    }
  }

  lemma PlacedBehind(dag: Dag, h: seq<nat>, latency: seq<nat>, order: seq<nat>, trace: seq<seq<nat>>, k: nat)
    requires Drained(dag, h, latency, order, trace) && k < |order|
    ensures order[k] < |dag.preds| && AllIn(dag.preds[order[k]], order[..k])
  {
    ScheduleIsTopological(dag, h, latency, order, trace);
  }

  lemma NotPlaced(order: seq<nat>, pos: nat, k: nat)
    requires Distinct(order) && k <= pos < |order|
    ensures order[pos] !in order[..k]
  {
  }

  lemma {:induction false} Least(list: seq<nat>, order: seq<nat>, n: nat) returns (k: nat)
    requires n <= |order| && AllIn(list, order[..n])
    ensures k <= n && AllIn(list, order[..k]) && (k > 0 ==> !AllIn(list, order[..k - 1]))
    decreases n
  {
    if n > 0 && AllIn(list, order[..n - 1]) { k := Least(list, order, n - 1); } else { k := n; }
  }

  lemma AllInGrows(list: seq<nat>, order: seq<nat>, k: nat, n: nat)
    requires k <= |order| && n <= |order| && AllIn(list, order[..k])
    ensures k <= n ==> AllIn(list, order[..n])
  {
    if k <= n { assert order[..n][..k] == order[..k]; }
  }

  /** Whenever t can be placed, x can. */
  ghost predicate NoLater(dag: Dag, order: seq<nat>, x: nat, t: nat)
    requires x < |dag.preds| && t < |dag.preds|
  {
    forall k: nat | k <= |order| && AllIn(dag.preds[t], order[..k]) :: AllIn(dag.preds[x], order[..k])
  }

  lemma {:induction false} RootsAscending(dag: Dag, n: nat)
    requires n <= |dag.preds|
    ensures Ascending(Roots(dag, n)) && forall x | x in Roots(dag, n) :: x < n
  {
    if n > 0 {
      RootsAscending(dag, n - 1);
      AscendingNext(Roots(dag, n - 1), n - 1);
    }
  }

  lemma AscendingNext(list: seq<nat>, x: nat)
    requires Ascending(list) && forall y | y in list :: y < x
    ensures Ascending(list + [x]) && list + [] == list
  {
    assert forall i | 0 <= i < |list| :: list[i] in list;
  }

  lemma {:induction false} FreshAscending(dag: Dag, done: seq<nat>, list: seq<nat>)
    requires Ascending(list)
    ensures Ascending(Fresh(dag, done, list)) && forall x | x in Fresh(dag, done, list) :: x in list
  {
    if list != [] {
      var front := list[..|list| - 1];
      FreshAscending(dag, done, front);
      hide AllIn;
      forall x | x in Fresh(dag, done, front)
        ensures x < Last(list)
      {
        var i := PositionAt(front, x);
        assert list[i] == x;
      }
      AscendingNext(Fresh(dag, done, front), Last(list));
    }
  }

  lemma NewsAscending(dag: Dag, done: seq<nat>, x: nat)
    requires ValidDag(dag) && x < |dag.succs|
    ensures Ascending(Fresh(dag, done, dag.succs[x]))
  {
    FreshAscending(dag, done, dag.succs[x]);
  }

  lemma InNews(list: seq<nat>, i: nat, news: seq<nat>, x: nat)
    requires i < |list| && x in Without(list, i) + news
    ensures x in list || x in news
  {
    var p := PositionAt(Without(list, i) + news, x);
    if p < |list| - 1 { WithoutAt(list, i, p); } else { assert news[p - (|list| - 1)] == x; }
  }

  /** What can be placed whenever t can, and comes before it in the block, is ahead of it. */
  lemma InTimeIsEarlier(dag: Dag, h: seq<nat>, latency: seq<nat>, order: seq<nat>, trace: seq<seq<nat>>, x: nat, t: nat)
    requires Drained(dag, h, latency, order, trace) && x < t < |dag.preds| && SamePriority(h, latency, x, t)
    requires NoLater(dag, order, x, t)
    ensures Earlier(order, x, t)
  {
    hide *;
    DrainedMeans(dag, h, latency, order, trace);
    var k := EnteredAt(dag, h, latency, order, trace, t);
    ReadyAt(dag, h, latency, order, trace, k);
    NoLaterAt(dag, order, x, t, k);
    if x !in order[..k] {
      if k == 0 {
        RootsAscending(dag, |dag.preds|);
        EarlierAscending(trace[0], x, t);
      } else {
        var i := RoundParts(dag, h, latency, order, trace, k - 1);
        var news := Fresh(dag, order[..k], dag.succs[order[k - 1]]);
        InNews(trace[k - 1], i, news, t);
        InNews(trace[k - 1], i, news, x);
        if x in news {
          NewsAscending(dag, order[..k], order[k - 1]);
          EarlierAscending(news, x, t);
          EarlierBehind(Without(trace[k - 1], i), news, x, t);
        } else {
          NowPlaced(order, k, x);
          EarlierNew(trace[k - 1], i, news, x, t);
        }
      }
    }
    FirstComeFirstOut(dag, h, latency, order, trace, k, x, t);
  }

  lemma NowPlaced(order: seq<nat>, k: nat, x: nat)
    requires 0 < k <= |order|
    ensures order[k - 1] in order[..k]
    ensures x in order[..k - 1] ==> x in order[..k]
    ensures x in order[..k] ==> x in order[..k - 1] || x == order[k - 1]
  {
    assert order[..k] == order[..k - 1] + [order[k - 1]];
  }

  lemma NoLaterAt(dag: Dag, order: seq<nat>, x: nat, t: nat, k: nat)
    requires x < |dag.preds| && t < |dag.preds| && NoLater(dag, order, x, t) && k <= |order|
    requires AllIn(dag.preds[t], order[..k])
    ensures AllIn(dag.preds[x], order[..k])
  {
    hide AllIn;
  }

  lemma LaterAt(dag: Dag, order: seq<nat>, x: nat, t: nat) returns (k: nat)
    requires x < |dag.preds| && t < |dag.preds| && !NoLater(dag, order, x, t)
    ensures k <= |order| && AllIn(dag.preds[t], order[..k]) && !AllIn(dag.preds[x], order[..k])
  {
    hide AllIn;
    k :| k <= |order| && AllIn(dag.preds[t], order[..k]) && !AllIn(dag.preds[x], order[..k]);
  }

  /** What cannot is behind it. */
  lemma LateIsBehind(dag: Dag, h: seq<nat>, latency: seq<nat>, order: seq<nat>, trace: seq<seq<nat>>, x: nat, t: nat)
    requires Drained(dag, h, latency, order, trace) && x < |dag.preds| && t < |dag.preds| && x != t
    requires SamePriority(h, latency, t, x) && !NoLater(dag, order, x, t)
    ensures Earlier(order, t, x)
  {
    hide *;
    var k0 := LaterAt(dag, order, x, t);
    DrainedMeans(dag, h, latency, order, trace);
    var k := EnteredAt(dag, h, latency, order, trace, x);
    AllInGrows(dag.preds[x], order, k, k0);
    AllInGrows(dag.preds[t], order, k0, k - 1);
    ReadyAt(dag, h, latency, order, trace, k - 1);
    if t !in order[..k] {
      var i := RoundParts(dag, h, latency, order, trace, k - 1);
      var news := Fresh(dag, order[..k], dag.succs[order[k - 1]]);
      InNews(trace[k - 1], i, news, x);
      NowPlaced(order, k, t);
      EarlierNew(trace[k - 1], i, news, t, x);
    }
    FirstComeFirstOut(dag, h, latency, order, trace, k, t, x);
  }

  // ----- Nothing but equals is left when the last of the block is picked

  /** An operation of latency one that none depends on. */
  predicate Loose(dag: Dag, latency: seq<nat>, x: nat) {
    x < |dag.succs| && dag.succs[x] == [] && At(latency, x) == 1
  }

  ghost predicate Positive(latency: seq<nat>) {
    forall i | 0 <= i < |latency| :: latency[i] >= 1
  }

  lemma LooseHeight(dag: Dag, latency: seq<nat>, h: seq<nat>, x: nat)
    requires ValidDag(dag) && AreHeights(dag, latency, h) && Positive(latency) && x < |dag.succs|
    ensures At(h, x) >= 1 && At(latency, x) >= 1
    ensures At(h, x) == 1 <==> Loose(dag, latency, x)
    ensures At(h, x) == 1 ==> forall y: nat | y < |dag.preds| :: x !in dag.preds[y]
  {
    if dag.succs[x] != [] {
      var s := dag.succs[x][0];
      assert s in dag.succs[x];
      assert h[s] == latency[s] + MaxHeight(h, dag.succs[s]);
      MaxHeightBound(h, dag.succs[x], s);
    }
  }

  /** Whatever is out of t's way when it is picked is as loose as t. */
  lemma PickedAmongLoose(dag: Dag, h: seq<nat>, latency: seq<nat>, ready: seq<nat>, i: nat, y: nat)
    requires ValidDag(dag) && AreHeights(dag, latency, h) && Positive(latency) && IsBest(h, latency, ready, i)
    requires ready[i] < |dag.succs| && Loose(dag, latency, ready[i]) && y in ready && y < |dag.succs|
    ensures Loose(dag, latency, y)
  {
    LooseHeight(dag, latency, h, y);
    LooseHeight(dag, latency, h, ready[i]);
    hide Loose, AreHeights;
    var j := PositionAt(ready, y);
  }

  lemma {:induction false} AllReadyThen(dag: Dag, h: seq<nat>, latency: seq<nat>, order: seq<nat>, trace: seq<seq<nat>>,
                                        k: nat, y: nat)
    requires Drained(dag, h, latency, order, trace) && AreHeights(dag, latency, h) && Positive(latency)
    requires k < |order| && order[k] < |dag.succs| && Loose(dag, latency, order[k]) && y < |dag.preds|
    requires y !in order[..k]
    ensures |trace| == |order| + 1 && y in trace[k]
    decreases y
  {
    hide *;
    DrainedMeans(dag, h, latency, order, trace);
    ReadyAt(dag, h, latency, order, trace, k);
    if y !in trace[k] {
      var p := MissingPred(dag, order[..k], y);
      AllReadyThen(dag, h, latency, order, trace, k, p);
      var i := RoundParts(dag, h, latency, order, trace, k);
      PickedAmongLoose(dag, h, latency, trace[k], i, p);
      LooseHeight(dag, latency, h, p);
    }
  }

  lemma MissingPred(dag: Dag, done: seq<nat>, y: nat) returns (p: nat)
    requires ValidDag(dag) && y < |dag.preds| && !AllIn(dag.preds[y], done)
    ensures p in dag.preds[y] && p !in done && p < y
  {
    p :| p in dag.preds[y] && p !in done;
  }

  /** What comes out behind a loose operation is loose. */
  lemma LooseBehind(dag: Dag, h: seq<nat>, latency: seq<nat>, order: seq<nat>, trace: seq<seq<nat>>, k: nat, y: nat)
    requires Drained(dag, h, latency, order, trace) && AreHeights(dag, latency, h) && Positive(latency)
    requires k < |order| && order[k] < |dag.succs| && Loose(dag, latency, order[k]) && y < |dag.succs|
    requires y !in order[..k]
    ensures Loose(dag, latency, y)
  {
    hide *;
    DrainedMeans(dag, h, latency, order, trace);
    AllReadyThen(dag, h, latency, order, trace, k, y);
    var i := RoundParts(dag, h, latency, order, trace, k);
    PickedAmongLoose(dag, h, latency, trace[k], i, y);
  }

  lemma LastIsBehind(order: seq<nat>, x: nat, t: nat)
    requires Distinct(order) && order != [] && Last(order) == t
    ensures !Earlier(order, t, x)
  {
  }

  /**
   The last operation of the block, if loose, stays the last exactly when it is never ready without
   the other loose ones.
   */
  lemma LastOutExactly(dag: Dag, h: seq<nat>, latency: seq<nat>, order: seq<nat>, trace: seq<seq<nat>>, t: nat)
    requires Drained(dag, h, latency, order, trace) && AreHeights(dag, latency, h) && Positive(latency)
    requires t + 1 == |dag.preds| && |dag.succs| == |dag.preds| && Loose(dag, latency, t)
    ensures order != []
    ensures Last(order) == t <==> forall x: nat | x < t && Loose(dag, latency, x) :: NoLater(dag, order, x, t)
  {
    hide *;
    DrainedMeans(dag, h, latency, order, trace);
    var pos := PositionAt(order, t);
    if Last(order) == t {
      forall x: nat | x < t && Loose(dag, latency, x)
        ensures NoLater(dag, order, x, t)
      {
        LooseAlike(dag, latency, h, x, t);
        LastIsBehind(order, x, t);
        if !NoLater(dag, order, x, t) { LateIsBehind(dag, h, latency, order, trace, x, t); }
      }
    } else {
      var y := Last(order);
      LastPlace(order, pos, y);
      LooseBehind(dag, h, latency, order, trace, pos, y);
      LooseAlike(dag, latency, h, y, t);
      if NoLater(dag, order, y, t) {
        InTimeIsEarlier(dag, h, latency, order, trace, y, t);
        LastIsBehind(order, t, y);
      }
    }
  }

  lemma LastPlace(order: seq<nat>, pos: nat, y: nat)
    requires Distinct(order) && pos < |order| && y == Last(order) && y != order[pos]
    ensures y in order && y !in order[..pos]
  {
  }

  lemma LooseAlike(dag: Dag, latency: seq<nat>, h: seq<nat>, x: nat, t: nat)
    requires ValidDag(dag) && AreHeights(dag, latency, h) && Positive(latency)
    requires Loose(dag, latency, x) && Loose(dag, latency, t)
    ensures SamePriority(h, latency, x, t) && SamePriority(h, latency, t, x)
  {
    LooseHeight(dag, latency, h, x);
    LooseHeight(dag, latency, h, t);
  }

  // ----- In terms of the block

  /** An operation of latency one that no later one depends on. */
  ghost predicate IsLoose(code: map<Id, Instr>, vectors: set<Id>, body: seq<Id>, i: nat)
    requires (forall id | id in body :: id in code) && i < |body|
  {
    && Latency(code[body[i]].op, body[i] in vectors) == 1
    && forall j: nat | i < j < |body| :: !DependsOn(code, body[i], body[j])
  }

  ghost predicate NotBehind(out: seq<Id>, a: Id, b: Id) {
    exists i, j :: 0 <= i <= j < |out| && out[i] == a && out[j] == b
  }

  /** What operation i depends on comes no later than something the last operation depends on. */
  ghost predicate InTime(code: map<Id, Instr>, body: seq<Id>, out: seq<Id>, i: nat)
    requires (forall id | id in body :: id in code) && i < |body|
  {
    forall p: nat | p < i && DependsOn(code, body[p], body[i]) ::
      exists q: nat :: q < |body| - 1 && DependsOn(code, body[q], body[|body| - 1]) && NotBehind(out, body[p], body[q])
  }

  ghost predicate LooseInTime(code: map<Id, Instr>, vectors: set<Id>, body: seq<Id>, out: seq<Id>)
    requires forall id | id in body :: id in code
  {
    forall i: nat | i < |body| - 1 && IsLoose(code, vectors, body, i) :: InTime(code, body, out, i)
  }

  lemma {:induction false} LatencyAt(body: seq<Id>, code: map<Id, Instr>, vectors: set<Id>, i: nat)
    requires (forall id | id in body :: id in code) && i < |body|
    ensures |Latencies(body, code, vectors)| == |body|
    ensures Latencies(body, code, vectors)[i] == Latency(code[body[i]].op, body[i] in vectors)
    decreases |body|
  {
    hide Latency;
    var front := body[..|body| - 1];
    if i < |body| - 1 {
      LatencyAt(front, code, vectors, i);
    } else {
      LatenciesLong(front, code, vectors);
    }
  }

  lemma {:induction false} LatenciesLong(body: seq<Id>, code: map<Id, Instr>, vectors: set<Id>)
    requires forall id | id in body :: id in code
    ensures |Latencies(body, code, vectors)| == |body|
  {
    if body != [] { LatenciesLong(body[..|body| - 1], code, vectors); }
  }

  lemma LatenciesPositive(body: seq<Id>, code: map<Id, Instr>, vectors: set<Id>)
    requires forall id | id in body :: id in code
    ensures Positive(Latencies(body, code, vectors)) && |Latencies(body, code, vectors)| == |body|
  {
    LatenciesLong(body, code, vectors);
    hide Latencies;
    forall i: nat | i < |body|
      ensures Latencies(body, code, vectors)[i] >= 1
    {
      LatencyAt(body, code, vectors, i);
    }
  }

  lemma LooseMeans(dag: Dag, code: map<Id, Instr>, vectors: set<Id>, body: seq<Id>, i: nat)
    requires (forall id | id in body :: id in code) && IsDagOf(dag, code, body) && i < |body|
    ensures Loose(dag, Latencies(body, code, vectors), i) <==> IsLoose(code, vectors, body, i)
  {
    LatencyAt(body, code, vectors, i);
    hide Latencies, Latency, DependsOn;
    if dag.succs[i] != [] {
      assert dag.succs[i][0] in dag.succs[i];
      assert Depends(code, body, i, dag.succs[i][0]);
    }
    forall j: nat | i < j < |body|
      ensures j in dag.succs[i] <==> DependsOn(code, body[i], body[j])
    {
      assert j in dag.succs[i] <==> i in dag.preds[j];
      assert i in dag.preds[j] <==> Depends(code, body, i, j);
    }
  }

  lemma PositionOf(body: seq<Id>, order: seq<nat>, p: nat) returns (k: nat)
    requires Distinct(order) && (forall y: nat :: y in order <==> y < |body|) && p < |body|
    ensures k < |order| && order[k] == p && Named(body, order)[k] == body[p]
    ensures forall n: nat | n <= |order| :: p in order[..n] <==> k < n
  {
    k := PositionAt(order, p);
    forall n: nat | n <= |order|
      ensures p in order[..n] <==> k < n
    {
      if k < n { assert order[..n][k] == p; }
    }
  }

  lemma OnlyThere(body: seq<Id>, order: seq<nat>, p: nat, k: nat, n: nat)
    requires Distinct(body) && Distinct(order) && (forall y: nat :: y in order <==> y < |body|) && p < |body|
    requires k < |order| && order[k] == p && n < |order| && Named(body, order)[n] == body[p]
    ensures n == k
  {
    assert order[n] in order && order[k] in order;
  }

  lemma NotBehindMeans(body: seq<Id>, order: seq<nat>, p: nat, q: nat, k: nat, n: nat)
    requires Distinct(body) && Distinct(order) && (forall y: nat :: y in order <==> y < |body|) && p < |body|
    requires q < |body|
    requires k < |order| && order[k] == p && n < |order| && order[n] == q
    ensures NotBehind(Named(body, order), body[p], body[q]) <==> k <= n
  {
    var out := Named(body, order);
    assert order[k] in order && order[n] in order;
    if NotBehind(out, body[p], body[q]) {
      var i, j :| 0 <= i <= j < |out| && out[i] == body[p] && out[j] == body[q];
      OnlyThere(body, order, p, k, i);
      OnlyThere(body, order, q, n, j);
    }
    assert out[k] == body[p] && out[n] == body[q];
  }

  /** An edge of the graph, as a dependence. */
  lemma EdgeMeans(dag: Dag, code: map<Id, Instr>, body: seq<Id>, p: nat, i: nat)
    requires (forall id | id in body :: id in code) && IsDagOf(dag, code, body) && p < |body| && i < |body|
    ensures p in dag.preds[i] <==> p < i && DependsOn(code, body[p], body[i])
    ensures forall q | q in dag.preds[i] :: q < |body|
  {
    hide DependsOn;
    assert p in dag.preds[i] <==> Depends(code, body, p, i);
  }

  lemma InTimeIsNoLater(dag: Dag, code: map<Id, Instr>, body: seq<Id>, order: seq<nat>, i: nat)
    requires Distinct(body) && (forall id | id in body :: id in code) && IsDagOf(dag, code, body) && i < |body|
    requires Distinct(order) && forall y: nat :: y in order <==> y < |body|
    requires InTime(code, body, Named(body, order), i)
    ensures i < |dag.preds| && |body| == |dag.preds| && NoLater(dag, order, i, |body| - 1)
  {
    var t: nat, out := |body| - 1, Named(body, order);
    DagFacts(dag, code, body);
    hide DependsOn, Named, NotBehind, IsDagOf, Distinct;
    forall k: nat, p: nat | k <= |order| && AllIn(dag.preds[t], order[..k]) && p in dag.preds[i]
      ensures p in order[..k]
    {
      EdgeMeans(dag, code, body, 0, i);
      EdgeMeans(dag, code, body, p, i);
      var q: nat :| q < t && DependsOn(code, body[q], body[t]) && NotBehind(out, body[p], body[q]);
      EdgeMeans(dag, code, body, q, t);
      var kp := PositionOf(body, order, p);
      var kq := PositionOf(body, order, q);
      NotBehindMeans(body, order, p, q, kp, kq);
    }
  }

  lemma LateOne(code: map<Id, Instr>, body: seq<Id>, out: seq<Id>, i: nat) returns (p: nat)
    requires (forall id | id in body :: id in code) && i < |body| && !InTime(code, body, out, i)
    ensures p < i && DependsOn(code, body[p], body[i])
    ensures forall q: nat | q < |body| - 1 && DependsOn(code, body[q], body[|body| - 1]) ::
              !NotBehind(out, body[p], body[q])
  {
    hide DependsOn, NotBehind;
    p :| p < i && DependsOn(code, body[p], body[i])
      && forall q: nat :: !(q < |body| - 1 && DependsOn(code, body[q], body[|body| - 1])
                            && NotBehind(out, body[p], body[q]));
  }

  lemma NoLaterIsInTime(dag: Dag, code: map<Id, Instr>, body: seq<Id>, order: seq<nat>, i: nat)
    requires Distinct(body) && (forall id | id in body :: id in code) && IsDagOf(dag, code, body) && i < |body|
    requires Distinct(order) && forall y: nat :: y in order <==> y < |body|
    requires !InTime(code, body, Named(body, order), i)
    ensures i < |dag.preds| && |body| == |dag.preds| && !NoLater(dag, order, i, |body| - 1)
  {
    var t: nat, out := |body| - 1, Named(body, order);
    DagFacts(dag, code, body);
    hide DependsOn, Named, NotBehind, IsDagOf, Distinct;
    hide InTime;
    var p := LateOne(code, body, out, i);
    EdgeMeans(dag, code, body, p, i);
    EdgeMeans(dag, code, body, p, t);
    var kp := PositionOf(body, order, p);
    forall q | q in dag.preds[t]
      ensures q in order[..kp]
    {
      EdgeMeans(dag, code, body, q, t);
      var kq := PositionOf(body, order, q);
      NotBehindMeans(body, order, p, q, kp, kq);
    }
    assert !AllIn(dag.preds[i], order[..kp]);
  }

  /**
   A last operation of latency one stays the last exactly when whatever each other operation of
   latency one without dependents depends on is placed no later than what the last one does.
   */
  lemma LastStaysWhen(code: map<Id, Instr>, vectors: set<Id>, body: seq<Id>, out: seq<Id>)
    requires body != [] && Distinct(body) && IsSchedule(code, vectors, body, out) && Last(body) in code
    requires Latency(code[Last(body)].op, Last(body) in vectors) == 1
    ensures (forall id | id in body :: id in code) && out != []
    ensures Last(out) == Last(body) <==> LooseInTime(code, vectors, body, out)
  {
    hide Latency, Latencies, DependsOn, IsDagOf, AreHeights, Rounds, Named, InTime, IsLoose, Loose, NoLater, Distinct;
    var dag, h, order, trace :| ScheduledBy(code, vectors, body, out, dag, h, order, trace);
    assert forall id | id in body :: id in code;
    DagFacts(dag, code, body);
    var t, latency := |body| - 1, Latencies(body, code, vectors);
    assert Drained(dag, h, latency, order, trace);
    DrainedMeans(dag, h, latency, order, trace);
    LatenciesPositive(body, code, vectors);
    LastIsLoose(code, vectors, body);
    LooseMeans(dag, code, vectors, body, t);
    LastOutExactly(dag, h, latency, order, trace, t);
    forall i: nat | i < t
      ensures Loose(dag, latency, i) <==> IsLoose(code, vectors, body, i)
      ensures NoLater(dag, order, i, t) <==> InTime(code, body, out, i)
    {
      LooseMeans(dag, code, vectors, body, i);
      if InTime(code, body, out, i) {
        InTimeIsNoLater(dag, code, body, order, i);
      } else {
        NoLaterIsInTime(dag, code, body, order, i);
      }
    }
    LastNamed(body, order);
  }

  lemma LastIsLoose(code: map<Id, Instr>, vectors: set<Id>, body: seq<Id>)
    requires body != [] && (forall id | id in body :: id in code)
    requires Latency(code[Last(body)].op, Last(body) in vectors) == 1
    ensures IsLoose(code, vectors, body, |body| - 1)
  {
  }

  lemma LastNamed(body: seq<Id>, order: seq<nat>)
    requires Distinct(body) && body != [] && order != [] && forall y: nat :: y in order <==> y < |body|
    ensures Last(Named(body, order)) == Last(body) <==> Last(order) == |body| - 1
  {
    assert order[|order| - 1] in order;
  }

  /** Where the last operation depends on none of the block, only operations that depend on none either may be loose. */
  lemma LastStaysAlone(code: map<Id, Instr>, vectors: set<Id>, body: seq<Id>, out: seq<Id>)
    requires body != [] && Distinct(body) && IsSchedule(code, vectors, body, out)
    requires forall id | id in body :: id in code
    requires Latency(code[Last(body)].op, Last(body) in vectors) == 1
    requires forall q: nat | q < |body| - 1 :: !DependsOn(code, body[q], Last(body))
    ensures out != []
    ensures Last(out) == Last(body) <==>
              forall i: nat, p: nat | p < i < |body| - 1 && IsLoose(code, vectors, body, i) ::
                  !DependsOn(code, body[p], body[i])
  {
    hide Latency, DependsOn, IsSchedule, IsLoose, NotBehind;
    LastStaysWhen(code, vectors, body, out);
    forall i: nat | i < |body| - 1
      ensures InTime(code, body, out, i) <==> forall p: nat | p < i :: !DependsOn(code, body[p], body[i])
    {
    }
  }
}
