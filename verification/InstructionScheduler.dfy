/**
 List scheduling of a block: the dependence graph of its operations, their heights,
 and the greedy loop over the ready list.
 */
module InstructionScheduler {
  import opened IR
  import opened Reordering

  const FMUL := Other(0)
  const FDIV := Other(1)

  function OpcodeLatency(op: Opcode): nat {
    if op == Load || op == FMUL || op == FDIV then 4
    else if op == Mul || op == Div || op == Rem then 3
    else if op == Call then 5
    else 1
  }

  /** Instructions over vectors count 3 whatever their opcode. */
  function Latency(op: Opcode, isVector: bool): (l: nat)
    ensures l >= 1
  {
    if isVector then 3 else OpcodeLatency(op)
  }

  // ----- The parts of a block

  predicate EndsSchedule(op: Opcode) {
    op == Br || op == Jmp || op == Ret
  }

  function Phis(list: seq<Id>, code: map<Id, Instr>): seq<Id>
    requires forall id | id in list :: id in code
  {
    if list == [] then []
    else
      var front := list[..|list| - 1];
      Phis(front, code) + if code[Last(list)].op == Phi then [Last(list)] else []
  }

  function Body(list: seq<Id>, code: map<Id, Instr>): (body: seq<Id>)
    requires forall id | id in list :: id in code
    ensures forall id | id in body :: id in list
  {
    if list == [] then []
    else
      var front, op := list[..|list| - 1], code[Last(list)].op;
      Body(front, code) + if op == Phi || EndsSchedule(op) then [] else [Last(list)]
  }

  /** The terminator that survives is the last one. */
  function Terminator(list: seq<Id>, code: map<Id, Instr>): Option<Id>
    requires forall id | id in list :: id in code
  {
    if list == [] then None
    else if EndsSchedule(code[Last(list)].op) then Some(Last(list))
    else Terminator(list[..|list| - 1], code)
  }

  function ListOf(o: Option<Id>): seq<Id> {
    if o.Some? then [o.value] else []
  }

  method Split(list: seq<Id>, code: map<Id, Instr>) returns (phis: seq<Id>, body: seq<Id>, terminator: Option<Id>)
    requires forall id | id in list :: id in code
    ensures phis == Phis(list, code) && body == Body(list, code) && terminator == Terminator(list, code)
  {
    hide Phis, Body, Terminator;
    phis, body, terminator := [], [], None;
    NoParts(code);
    for k := 0 to |list|
      invariant phis == Phis(list[..k], code)
      invariant body == Body(list[..k], code)
      invariant terminator == Terminator(list[..k], code)
    {
      assert list[..k + 1] == list[..k] + [list[k]];
      PartsNext(list[..k], list[k], code);
      PhiEndsNothing();
      var op := code[list[k]].op;
      if op == Phi {
        phis := phis + [list[k]];
      } else if EndsSchedule(op) {
        terminator := Some(list[k]);
      } else {
        body := body + [list[k]];
      }
    }
    assert list[..|list|] == list;
  }

  lemma PartsNext(front: seq<Id>, x: Id, code: map<Id, Instr>)
    requires (forall id | id in front :: id in code) && x in code
    ensures forall id | id in front + [x] :: id in code
    ensures Phis(front + [x], code) == Phis(front, code) + if code[x].op == Phi then [x] else []
    ensures Body(front + [x], code) ==
            Body(front, code) + if code[x].op == Phi || EndsSchedule(code[x].op) then [] else [x]
    ensures Terminator(front + [x], code) == if EndsSchedule(code[x].op) then Some(x) else Terminator(front, code)
  {
    var list := front + [x];
    assert list[..|list| - 1] == front && Last(list) == x;
    assert forall id | id in list :: id in code;
  }

  lemma PhiEndsNothing()
    ensures !EndsSchedule(Phi)
  {
  }

  lemma NoParts(code: map<Id, Instr>)
    ensures Phis([], code) == [] && Body([], code) == [] && Terminator([], code) == None
  {
  }

  // ----- The dependence graph over the positions of the operations

  datatype Dag = Dag(preds: seq<seq<nat>>, succs: seq<seq<nat>>)

  predicate Ascending(list: seq<nat>) {
    forall i, j | 0 <= i < j < |list| :: list[i] < list[j]
  }

  ghost predicate Depends(code: map<Id, Instr>, body: seq<Id>, i: nat, j: nat)
    requires forall id | id in body :: id in code
  {
    i < j < |body| && DependsOn(code, body[i], body[j])
  }

  ghost predicate ValidDag(dag: Dag) {
    && |dag.preds| == |dag.succs|
    && (forall j: nat, i: nat | j < |dag.preds| && i in dag.preds[j] :: i < j)
    && (forall i: nat, j: nat | i < |dag.succs| && j in dag.succs[i] :: i < j < |dag.preds|)
    && (forall i: nat, j: nat | i < j < |dag.preds| :: j in dag.succs[i] <==> i in dag.preds[j])
    && (forall j | 0 <= j < |dag.preds| :: Distinct(dag.preds[j]))
    && (forall i | 0 <= i < |dag.succs| :: Ascending(dag.succs[i]))
  }

  /** The graph has an edge exactly where one operation depends on an earlier one. */
  ghost predicate IsDagOf(dag: Dag, code: map<Id, Instr>, body: seq<Id>)
    requires forall id | id in body :: id in code
  {
    && ValidDag(dag) && |dag.preds| == |body|
    && forall i: nat, j: nat | j < |body| :: i in dag.preds[j] <==> Depends(code, body, i, j)
  }

  /** Rows before i are complete, row i has `row`, later rows are empty. */
  ghost predicate Rows(dag: Dag, code: map<Id, Instr>, body: seq<Id>, i: nat, row: set<nat>)
    requires forall id | id in body :: id in code
  {
    && ValidDag(dag) && |dag.preds| == |body|
    && (forall p: nat, j: nat | j < i && j < |body| :: p in dag.preds[j] <==> Depends(code, body, p, j))
    && (i < |body| ==> forall p: nat :: p in dag.preds[i] <==> p in row)
    && (forall j: nat | i < j < |body| :: dag.preds[j] == [])
  }

  function WithEdge(dag: Dag, p: nat, i: nat): Dag
    requires p < |dag.succs| && i < |dag.preds|
  {
    Dag(dag.preds[i := dag.preds[i] + [p]], dag.succs[p := dag.succs[p] + [i]])
  }

  lemma EdgeAdded(dag: Dag, code: map<Id, Instr>, body: seq<Id>, i: nat, row: set<nat>, p: nat)
    requires forall id | id in body :: id in code
    requires Rows(dag, code, body, i, row) && p < i < |body| && p !in row
    ensures Rows(WithEdge(dag, p, i), code, body, i, row + {p})
  {
    hide Depends;
    var dag' := WithEdge(dag, p, i);
    forall k | 0 <= k < |dag.succs[p]|
      ensures dag.succs[p][k] < i
    {
      assert dag.succs[p][k] in dag.succs[p];
      var j: nat := dag.succs[p][k];
      assert p in dag.preds[j];
    }
    assert Ascending(dag'.succs[p]);
    assert Distinct(dag'.preds[i]);
  }

  /** What is behind operand k of an operation: the position that defines it, if it is in the body. */
  ghost function Sources(body: seq<Id>, operands: seq<Value>): set<nat> {
    set p: nat | p < |body| && Inst(body[p]) in operands
  }

  ghost function MemoryBefore(code: map<Id, Instr>, body: seq<Id>, i: nat): set<nat>
    requires forall id | id in body :: id in code
  {
    set p: nat | p < i && p < |body| && IsMem(code[body[p]].op)
  }

  ghost function Members(list: seq<nat>): set<nat> {
    set p | p in list
  }

  method AddEdges(dag: Dag, code: map<Id, Instr>, body: seq<Id>, i: nat, sources: seq<nat>, ghost row: set<nat>)
    returns (dag': Dag)
    requires forall id | id in body :: id in code
    requires Rows(dag, code, body, i, row) && i < |body| && forall p | p in sources :: p < i
    ensures Rows(dag', code, body, i, row + Members(sources))
  {
    dag' := dag;
    ghost var row' := row;
    for k := 0 to |sources|
      invariant row' == row + Members(sources[..k])
      invariant Rows(dag', code, body, i, row')
    {
      hide Rows;
      assert sources[..k + 1] == sources[..k] + [sources[k]];
      assert sources[k] in sources;
      RowOf(dag', code, body, i, row');
      if sources[k] !in dag'.preds[i] {
        EdgeAdded(dag', code, body, i, row', sources[k]);
        dag' := WithEdge(dag', sources[k], i);
        row' := row' + {sources[k]};
      }
    }
    assert sources[..|sources|] == sources;
  }

  lemma RowOf(dag: Dag, code: map<Id, Instr>, body: seq<Id>, i: nat, row: set<nat>)
    requires forall id | id in body :: id in code
    requires Rows(dag, code, body, i, row) && i < |body|
    ensures |dag.preds| == |dag.succs| == |body| && forall p: nat :: p in dag.preds[i] <==> p in row
  {
  }

  /** The operands that are operations of the body, in operand order. */
  method OperandNodes(operands: seq<Value>, nodeMap: map<Id, nat>, body: seq<Id>) returns (nodes: seq<nat>)
    requires forall id | id in nodeMap :: nodeMap[id] < |body| && body[nodeMap[id]] == id
    requires Distinct(body) && forall id | id in body :: id in nodeMap
    ensures forall p: nat :: p in nodes <==> p in Sources(body, operands)
  {
    nodes := [];
    for k := 0 to |operands|
      invariant forall p: nat :: p in nodes <==> p in Sources(body, operands[..k])
    {
      assert operands[..k + 1] == operands[..k] + [operands[k]];
      if operands[k].Inst? && operands[k].id in nodeMap {
        nodes := nodes + [nodeMap[operands[k].id]];
      }
    }
    assert operands[..|operands|] == operands;
  }

  lemma RowComplete(dag: Dag, code: map<Id, Instr>, body: seq<Id>, i: nat, row: set<nat>)
    requires Distinct(body) && UsesBehind(code, body) && i < |body| && Rows(dag, code, body, i, row)
    requires row == Sources(body, code[body[i]].operands) +
                    (if IsMem(code[body[i]].op) then MemoryBefore(code, body, i) else {})
    ensures Rows(dag, code, body, i + 1, {})
  {
    assert forall id | id in body :: id in code;
    forall p: nat
      ensures p in row <==> Depends(code, body, p, i)
    {
      DependsIff(code, body, i, p);
    }
    hide Depends, UsesBehind, Sources, MemoryBefore, Distinct, Ascending, IsMem;
    RowClosed(dag, code, body, i, row);
  }

  lemma RowClosed(dag: Dag, code: map<Id, Instr>, body: seq<Id>, i: nat, row: set<nat>)
    requires (forall id | id in body :: id in code) && i < |body| && Rows(dag, code, body, i, row)
    requires forall p: nat :: p in row <==> Depends(code, body, p, i)
    ensures Rows(dag, code, body, i + 1, {})
  {
    hide Depends, ValidDag;
  }

  lemma DependsIff(code: map<Id, Instr>, body: seq<Id>, i: nat, p: nat)
    requires UsesBehind(code, body) && i < |body| && forall id | id in body :: id in code
    ensures Depends(code, body, p, i) <==>
              p in Sources(body, code[body[i]].operands)
                 || (IsMem(code[body[i]].op) && p in MemoryBefore(code, body, i))
  {
    hide IsMem;
    if p in Sources(body, code[body[i]].operands) { SourcesBefore(code, body, i, p); }
  }

  lemma SourcesBefore(code: map<Id, Instr>, body: seq<Id>, i: nat, p: nat)
    requires UsesBehind(code, body) && i < |body| && p in Sources(body, code[body[i]].operands)
    ensures p < i
  {
    assert Uses(code[body[i]], body[p]);
  }

  method NodeMap(body: seq<Id>) returns (nodeMap: map<Id, nat>)
    requires Distinct(body)
    ensures forall id | id in nodeMap :: nodeMap[id] < |body| && body[nodeMap[id]] == id
    ensures forall id | id in body :: id in nodeMap
  {
    nodeMap := map[];
    for k := 0 to |body|
      invariant forall id | id in nodeMap :: nodeMap[id] < k && body[nodeMap[id]] == id
      invariant forall j | 0 <= j < k :: body[j] in nodeMap
    {
      nodeMap := nodeMap[body[k] := k];
    }
  }

  /** Data edges from the operands, then an edge from every earlier memory operation. */
  method BuildDag(code: map<Id, Instr>, body: seq<Id>) returns (dag: Dag)
    requires Distinct(body) && UsesBehind(code, body)
    ensures IsDagOf(dag, code, body)
  {
    var nodeMap := NodeMap(body);
    var n := |body|;
    dag := Dag(seq(n, i => []), seq(n, i => []));
    var memoryOps: seq<nat> := [];
    assert Rows(dag, code, body, 0, {});
    for i := 0 to n
      invariant Rows(dag, code, body, i, {})
      invariant forall p: nat :: p in memoryOps <==> p in MemoryBefore(code, body, i)
    {
      hide *;
      InCode(code, body, i);
      dag := AddRow(dag, code, body, i, nodeMap, memoryOps);
      NextMemory(code, body, i);
      if IsMem(code[body[i]].op) {
        memoryOps := memoryOps + [i];
      }
    }
    RowsDone(dag, code, body);
  }

  lemma NextMemory(code: map<Id, Instr>, body: seq<Id>, i: nat)
    requires UsesBehind(code, body) && i < |body|
    ensures forall id | id in body :: id in code
    ensures body[i] in code
    ensures MemoryBefore(code, body, i + 1) ==
            MemoryBefore(code, body, i) + (if IsMem(code[body[i]].op) then {i} else {})
  {
    InCode(code, body, i);
  }

  lemma RowsDone(dag: Dag, code: map<Id, Instr>, body: seq<Id>)
    requires (forall id | id in body :: id in code) && Rows(dag, code, body, |body|, {})
    ensures IsDagOf(dag, code, body)
  {
  }

  lemma MembersAre(list: seq<nat>, s: set<nat>)
    requires forall p: nat :: p in list <==> p in s
    ensures Members(list) == s
  {
  }

  /** The edges into one operation. */
  method AddRow(dag: Dag, code: map<Id, Instr>, body: seq<Id>, i: nat, nodeMap: map<Id, nat>, memoryOps: seq<nat>)
    returns (dag': Dag)
    requires Distinct(body) && UsesBehind(code, body) && i < |body| && forall id | id in body :: id in code
    requires forall id | id in nodeMap :: nodeMap[id] < |body| && body[nodeMap[id]] == id
    requires forall id | id in body :: id in nodeMap
    requires Rows(dag, code, body, i, {})
    requires forall p: nat :: p in memoryOps <==> p in MemoryBefore(code, body, i)
    ensures Rows(dag', code, body, i + 1, {})
  {
    hide *;
    InCode(code, body, i);
    var nodes := OperandNodes(code[body[i]].operands, nodeMap, body);
    forall p: nat | p in nodes
      ensures p < i
    {
      SourcesBefore(code, body, i, p);
    }
    MembersAre(nodes, Sources(body, code[body[i]].operands));
    dag' := AddEdges(dag, code, body, i, nodes, {});
    ghost var row := {} + Sources(body, code[body[i]].operands);
    if IsMem(code[body[i]].op) {
      MembersAre(memoryOps, MemoryBefore(code, body, i));
      MemoryIsBefore(code, body, i);
      dag' := AddEdges(dag', code, body, i, memoryOps, row);
      row := row + MemoryBefore(code, body, i);
    }
    assert row == Sources(body, code[body[i]].operands) +
                  (if IsMem(code[body[i]].op) then MemoryBefore(code, body, i) else {});
    RowComplete(dag', code, body, i, row);
  }

  lemma MemoryIsBefore(code: map<Id, Instr>, body: seq<Id>, i: nat)
    requires forall id | id in body :: id in code
    ensures forall p | p in MemoryBefore(code, body, i) :: p < i
  {
  }

  lemma InCode(code: map<Id, Instr>, body: seq<Id>, i: nat)
    requires UsesBehind(code, body) && i < |body|
    ensures forall id | id in body :: id in code
    ensures body[i] in code
  {
    assert body[i] in body;
  }

  // ----- Heights

  function Max(a: nat, b: nat): nat {
    if a < b then b else a
  }

  function At(s: seq<nat>, i: nat): nat {
    if i < |s| then s[i] else 0
  }

  function MaxHeight(h: seq<nat>, nodes: seq<nat>): nat {
    if nodes == [] then 0 else Max(MaxHeight(h, nodes[..|nodes| - 1]), At(h, Last(nodes)))
  }

  /** An operation's height: its latency on top of the greatest height that depends on it. */
  ghost predicate AreHeights(dag: Dag, latency: seq<nat>, h: seq<nat>) {
    && |h| == |latency| == |dag.succs|
    && forall i | 0 <= i < |h| :: h[i] == latency[i] + MaxHeight(h, dag.succs[i])
  }

  lemma {:induction false} MaxHeightLocal(h: seq<nat>, h': seq<nat>, nodes: seq<nat>)
    requires |h| == |h'| && forall k | k in nodes && k < |h| :: h[k] == h'[k]
    ensures MaxHeight(h, nodes) == MaxHeight(h', nodes)
  {
    if nodes != [] {
      MaxHeightLocal(h, h', nodes[..|nodes| - 1]);
      assert Last(nodes) in nodes;
    }
  }

  lemma {:induction false} MaxHeightBound(h: seq<nat>, nodes: seq<nat>, k: nat)
    requires k in nodes
    ensures At(h, k) <= MaxHeight(h, nodes)
  {
    if k != Last(nodes) {
      assert nodes == nodes[..|nodes| - 1] + [Last(nodes)];
      MaxHeightBound(h, nodes[..|nodes| - 1], k);
    }
  }

  lemma {:induction false} MaxHeightReached(h: seq<nat>, nodes: seq<nat>) returns (k: nat)
    requires nodes != []
    ensures k in nodes && At(h, k) == MaxHeight(h, nodes)
  {
    k := Last(nodes);
    var front := nodes[..|nodes| - 1];
    if front != [] && MaxHeight(h, front) > At(h, k) {
      k := MaxHeightReached(h, front);
      assert nodes == front + [Last(nodes)];
    }
  }

  method ComputeHeights(dag: Dag, latency: seq<nat>) returns (h: seq<nat>)
    requires ValidDag(dag) && |latency| == |dag.succs|
    ensures AreHeights(dag, latency, h)
  {
    var n := |latency|;
    h := seq(n, i => 0);
    for i := n downto 0
      invariant |h| == n
      invariant forall j | i <= j < n :: h[j] == latency[j] + MaxHeight(h, dag.succs[j])
    {
      var maxSuccHeight := 0;
      for k := 0 to |dag.succs[i]|
        invariant maxSuccHeight == MaxHeight(h, dag.succs[i][..k])
      {
        assert dag.succs[i][..k + 1][..k] == dag.succs[i][..k];
        assert dag.succs[i][k] in dag.succs[i];
        maxSuccHeight := Max(maxSuccHeight, At(h, dag.succs[i][k]));
      }
      assert dag.succs[i][..|dag.succs[i]|] == dag.succs[i];
      ghost var before := h;
      h := h[i := latency[i] + maxSuccHeight];
      forall j | i <= j < n
        ensures MaxHeight(h, dag.succs[j]) == MaxHeight(before, dag.succs[j])
      {
        MaxHeightLocal(before, h, dag.succs[j]);
      }
    }
  }

  predicate IsChain(dag: Dag, p: seq<nat>) {
    && p != [] && p[0] < |dag.succs|
    && (|p| > 1 ==> p[1] in dag.succs[p[0]] && IsChain(dag, p[1..]))
  }

  function TotalLatency(latency: seq<nat>, p: seq<nat>): nat {
    if p == [] then 0 else At(latency, p[0]) + TotalLatency(latency, p[1..])
  }

  lemma HeightOf(dag: Dag, latency: seq<nat>, h: seq<nat>, i: nat)
    requires AreHeights(dag, latency, h) && i < |dag.succs|
    ensures At(h, i) == At(latency, i) + MaxHeight(h, dag.succs[i])
  {
    hide MaxHeight;
  }

  lemma SuccForward(dag: Dag, i: nat, j: nat)
    requires ValidDag(dag) && i < |dag.succs| && j in dag.succs[i]
    ensures i < j < |dag.succs|
  {
  }

  /** No chain of dependences from an operation is longer than its height. */
  lemma {:induction false} HeightBounds(dag: Dag, latency: seq<nat>, h: seq<nat>, p: seq<nat>)
    requires ValidDag(dag) && AreHeights(dag, latency, h) && IsChain(dag, p)
    ensures TotalLatency(latency, p) <= At(h, p[0])
    decreases |p|
  {
    HeightOf(dag, latency, h, p[0]);
    if |p| > 1 {
      HeightBounds(dag, latency, h, p[1..]);
      MaxHeightBound(h, dag.succs[p[0]], p[1]);
    }
    assert |p| == 1 ==> p[1..] == [];
  }

  /** And one is as long: the height is the length of the critical path. */
  lemma {:induction false} HeightAttained(dag: Dag, latency: seq<nat>, h: seq<nat>, i: nat) returns (p: seq<nat>)
    requires ValidDag(dag) && AreHeights(dag, latency, h) && i < |dag.succs|
    ensures IsChain(dag, p) && p[0] == i && TotalLatency(latency, p) == At(h, i)
    decreases |dag.succs| - i
  {
    HeightOf(dag, latency, h, i);
    if dag.succs[i] == [] {
      p := [i];
      assert p[1..] == [];
    } else {
      var k := MaxHeightReached(h, dag.succs[i]);
      SuccForward(dag, i, k);
      var q := HeightAttained(dag, latency, h, k);
      p := [i] + q;
      hide MaxHeight, ValidDag, AreHeights;
      assert p[1..] == q && p[1] == k;
    }
  }

  // ----- The ready list

  predicate AllIn(list: seq<nat>, done: seq<nat>) {
    forall p | p in list :: p in done
  }

  /** Those of the list whose predecessors are all done, in the list's order. */
  function Fresh(dag: Dag, done: seq<nat>, list: seq<nat>): seq<nat> {
    if list == [] then []
    else
      var last := Last(list);
      Fresh(dag, done, list[..|list| - 1]) + if last < |dag.preds| && AllIn(dag.preds[last], done) then [last] else []
  }

  function Roots(dag: Dag, n: nat): seq<nat>
    requires n <= |dag.preds|
  {
    if n == 0 then [] else Roots(dag, n - 1) + if dag.preds[n - 1] == [] then [n - 1] else []
  }

  predicate Lower(h: seq<nat>, latency: seq<nat>, a: nat, b: nat) {
    At(h, a) < At(h, b) || (At(h, a) == At(h, b) && At(latency, a) < At(latency, b))
  }

  /** The first of the greatest by height, then latency. */
  ghost predicate IsBest(h: seq<nat>, latency: seq<nat>, ready: seq<nat>, i: nat) {
    && i < |ready|
    && (forall j | 0 <= j < |ready| :: !Lower(h, latency, ready[i], ready[j]))
    && (forall j | 0 <= j < i :: Lower(h, latency, ready[j], ready[i]))
  }

  /** One round: the best goes out, and what it was the last to hold up comes in behind. */
  ghost predicate Round(dag: Dag, h: seq<nat>, latency: seq<nat>, done: seq<nat>, ready: seq<nat>, x: nat,
                        ready': seq<nat>)
  {
    x < |dag.succs| &&
    exists i: nat :: IsBest(h, latency, ready, i) && ready[i] == x
                  && ready' == Without(ready, i) + Fresh(dag, done + [x], dag.succs[x])
  }

  /** `order` came out round by round, `trace` being the ready lists. */
  ghost predicate Rounds(dag: Dag, h: seq<nat>, latency: seq<nat>, order: seq<nat>, trace: seq<seq<nat>>) {
    && |trace| == |order| + 1 && trace[0] == Roots(dag, |dag.preds|)
    && forall k | 0 <= k < |order| :: Round(dag, h, latency, order[..k], trace[k], order[k], trace[k + 1])
  }

  /** The ready are exactly those not out whose predecessors all are, each once; nothing is out before a predecessor. */
  ghost predicate Sane(dag: Dag, order: seq<nat>, ready: seq<nat>) {
    && Distinct(order) && Distinct(ready)
    && (forall x | x in order || x in ready :: x < |dag.preds|)
    && (forall x: nat | x < |dag.preds| :: x in ready <==> x !in order && AllIn(dag.preds[x], order))
    && (forall k | 0 <= k < |order| :: order[k] < |dag.preds| && AllIn(dag.preds[order[k]], order[..k]))
  }

  lemma {:induction false} FreshMembers(dag: Dag, done: seq<nat>, list: seq<nat>)
    requires Distinct(list)
    ensures forall x: nat :: x in Fresh(dag, done, list) <==> x in list && x < |dag.preds| && AllIn(dag.preds[x], done)
    ensures Distinct(Fresh(dag, done, list))
  {
    if list != [] {
      var front := list[..|list| - 1];
      assert list == front + [Last(list)];
      FreshMembers(dag, done, front);
      hide AllIn;
      assert Last(list) !in front;
    }
  }

  lemma {:induction false} RootsMembers(dag: Dag, n: nat)
    requires n <= |dag.preds|
    ensures forall x: nat :: x in Roots(dag, n) <==> x < n && dag.preds[x] == []
    ensures Distinct(Roots(dag, n))
  {
    if n > 0 { RootsMembers(dag, n - 1); }
  }

  lemma SaneStart(dag: Dag)
    ensures Sane(dag, [], Roots(dag, |dag.preds|))
  {
    RootsMembers(dag, |dag.preds|);
    forall x: nat | x < |dag.preds|
      ensures AllIn(dag.preds[x], []) <==> dag.preds[x] == []
    {
      if dag.preds[x] != [] { assert dag.preds[x][0] in dag.preds[x]; }
    }
  }

  /** What else becomes ready. */
  lemma ReadyNext(dag: Dag, order: seq<nat>, ready: seq<nat>, x: nat, y: nat)
    requires ValidDag(dag) && Sane(dag, order, ready) && x in ready && y < |dag.preds|
    ensures (y !in order + [x] && AllIn(dag.preds[y], order + [x]))
       <==> ((y in ready && y != x) || (y in dag.succs[x] && AllIn(dag.preds[y], order + [x])))
    ensures y in dag.succs[x] ==> y !in ready && y !in order + [x]
  {
    if y in dag.succs[x] {
      assert x in dag.preds[y];
      forall k | 0 <= k < |order|
        ensures order[k] != y
      {
        assert AllIn(dag.preds[order[k]], order[..k]);
        assert forall p | p in order[..k] :: p in order;
      }
    }
  }

  lemma SaneStep(dag: Dag, order: seq<nat>, ready: seq<nat>, i: nat)
    requires ValidDag(dag) && Sane(dag, order, ready) && i < |ready|
    ensures ready[i] < |dag.succs|
    ensures Sane(dag, order + [ready[i]], Without(ready, i) + Fresh(dag, order + [ready[i]], dag.succs[ready[i]]))
  {
    var x := ready[i];
    assert x in ready;
    var order' := order + [x];
    var news := Fresh(dag, order', dag.succs[x]);
    AscendingDistinct(dag.succs[x]);
    FreshMembers(dag, order', dag.succs[x]);
    WithoutMembers(ready, i);
    forall y: nat | y < |dag.preds|
      ensures y in Without(ready, i) + news <==> y !in order' && AllIn(dag.preds[y], order')
      ensures y in news ==> y !in Without(ready, i)
    {
      hide AllIn, Without, Fresh;
      ReadyNext(dag, order, ready, x, y);
    }
    hide Without, Fresh, ValidDag;
    DistinctConcat(Without(ready, i), news);
    forall k | 0 <= k < |order'|
      ensures order'[k] < |dag.preds| && AllIn(dag.preds[order'[k]], order'[..k])
    {
      if k < |order| { assert order'[..k] == order[..k]; } else { assert order'[..k] == order; }
    }
  }

  lemma AscendingDistinct(list: seq<nat>)
    requires Ascending(list)
    ensures Distinct(list)
  {
  }

  lemma DistinctConcat(a: seq<nat>, b: seq<nat>)
    requires Distinct(a) && Distinct(b) && forall x | x in b :: x !in a
    ensures Distinct(a + b)
  {
    forall i, j | 0 <= i < j < |a + b|
      ensures (a + b)[i] != (a + b)[j]
    {
      if i < |a| <= j { assert (a + b)[i] in a && (a + b)[j] in b; }
    }
  }

  lemma NoneBelowZero(list: seq<nat>)
    ensures (exists x: nat :: x in list) <==> list != []
  {
    if list != [] { assert list[0] in list; }
  }

  lemma {:induction false} DistinctBounded(list: seq<nat>, n: nat)
    requires Distinct(list) && forall x | x in list :: x < n
    ensures |list| <= n
    decreases n
  {
    if n > 0 {
      if n - 1 in list {
        var i :| 0 <= i < |list| && list[i] == n - 1;
        WithoutMembers(list, i);
        DistinctBounded(Without(list, i), n - 1);
      } else {
        DistinctBounded(list, n - 1);
      }
    } else {
      NoneBelowZero(list);
    }
  }

  /** When nothing is ready, everything is out. */
  lemma {:induction false} AllOut(dag: Dag, order: seq<nat>, x: nat)
    requires ValidDag(dag) && Sane(dag, order, []) && x < |dag.preds|
    ensures x in order
    decreases x
  {
    forall p | p in dag.preds[x]
      ensures p in order
    {
      AllOut(dag, order, p);
    }
  }

  function Missing(list: seq<nat>, done: seq<nat>): nat {
    if list == [] then 0 else Missing(list[..|list| - 1], done) + if Last(list) in done then 0 else 1
  }

  lemma {:induction false} MissingNone(list: seq<nat>, done: seq<nat>)
    ensures Missing(list, done) == 0 <==> AllIn(list, done)
  {
    if list != [] {
      var front := list[..|list| - 1];
      assert list == front + [Last(list)];
      MissingNone(front, done);
    }
  }

  lemma {:induction false} MissingDrops(list: seq<nat>, done: seq<nat>, x: nat)
    requires Distinct(list) && x !in done
    ensures Missing(list, done) == Missing(list, done + [x]) + if x in list then 1 else 0
  {
    if list != [] {
      var front := list[..|list| - 1];
      assert list == front + [Last(list)];
      MissingDrops(front, done, x);
    }
  }

  /** The counts of unscheduled predecessors. */
  ghost predicate Counts(dag: Dag, done: seq<nat>, unscheduled: seq<nat>) {
    |unscheduled| == |dag.preds| && forall y | 0 <= y < |dag.preds| :: unscheduled[y] == Missing(dag.preds[y], done)
  }

  method PickBest(h: seq<nat>, latency: seq<nat>, ready: seq<nat>) returns (i: nat)
    requires ready != []
    ensures IsBest(h, latency, ready, i)
  {
    i := 0;
    for j := 1 to |ready|
      invariant i < j
      invariant forall k | 0 <= k < j :: !Lower(h, latency, ready[i], ready[k])
      invariant forall k | 0 <= k < i :: Lower(h, latency, ready[k], ready[i])
    {
      if Lower(h, latency, ready[i], ready[j]) {
        i := j;
      }
    }
  }

  lemma CountAt(dag: Dag, done: seq<nat>, x: nat, y: nat)
    requires ValidDag(dag) && x !in done && x < |dag.preds| && y < |dag.preds|
    ensures Missing(dag.preds[y], done) == Missing(dag.preds[y], done + [x]) + if y in dag.succs[x] then 1 else 0
    ensures Missing(dag.preds[y], done + [x]) == 0 <==> AllIn(dag.preds[y], done + [x])
  {
    MissingDrops(dag.preds[y], done, x);
    MissingNone(dag.preds[y], done + [x]);
    hide Missing, AllIn;
    assert x in dag.preds[y] ==> x < y;
  }

  lemma SuccAt(dag: Dag, x: nat, k: nat)
    requires ValidDag(dag) && x < |dag.succs| && k < |dag.succs[x]|
    ensures dag.succs[x][k] < |dag.preds| && dag.succs[x][k] in dag.succs[x] && dag.succs[x][k] !in dag.succs[x][..k]
  {
    assert dag.succs[x][k] in dag.succs[x];
  }

  /** The counts after the first k dependents of x have been told. */
  ghost predicate Halfway(dag: Dag, done: seq<nat>, x: nat, k: nat, unscheduled: seq<nat>) {
    && |unscheduled| == |dag.preds| && x < |dag.succs| && k <= |dag.succs[x]|
    && forall y: nat | y < |dag.preds| ::
         unscheduled[y] == Missing(dag.preds[y], if y in dag.succs[x][..k] then done + [x] else done)
  }

  lemma HalfwayStep(dag: Dag, done: seq<nat>, x: nat, k: nat, unscheduled: seq<nat>)
    requires ValidDag(dag) && x < |dag.preds| && x !in done
    requires Halfway(dag, done, x, k, unscheduled) && k < |dag.succs[x]|
    ensures var s := dag.succs[x][k];
            && s < |unscheduled| && unscheduled[s] > 0
            && Halfway(dag, done, x, k + 1, unscheduled[s := unscheduled[s] - 1])
            && Fresh(dag, done + [x], dag.succs[x][..k + 1])
               == Fresh(dag, done + [x], dag.succs[x][..k]) + if unscheduled[s] - 1 == 0 then [s] else []
  {
    SuccAt(dag, x, k);
    var succs, s := dag.succs[x], dag.succs[x][k];
    CountAt(dag, done, x, s);
    assert succs[..k + 1] == succs[..k] + [s] && succs[..k + 1][..k] == succs[..k];
    FreshNext(dag, done + [x], succs[..k], s);
    hide Missing, AllIn, ValidDag, Fresh;
  }

  lemma FreshNothing(dag: Dag, done: seq<nat>)
    ensures Fresh(dag, done, []) == []
  {
  }

  lemma FreshNext(dag: Dag, done: seq<nat>, list: seq<nat>, s: nat)
    ensures Fresh(dag, done, list + [s]) ==
            Fresh(dag, done, list) + if s < |dag.preds| && AllIn(dag.preds[s], done) then [s] else []
  {
    hide AllIn;
    assert (list + [s])[..|list|] == list;
  }

  lemma HalfwayEnds(dag: Dag, done: seq<nat>, x: nat, unscheduled: seq<nat>)
    requires ValidDag(dag) && x < |dag.preds| && x !in done
    ensures |dag.succs| == |dag.preds|
    ensures Counts(dag, done, unscheduled) ==> Halfway(dag, done, x, 0, unscheduled)
    ensures Halfway(dag, done, x, |dag.succs[x]|, unscheduled) ==> Counts(dag, done + [x], unscheduled)
  {
    var succs := dag.succs[x];
    assert succs[..|succs|] == succs && succs[..0] == [];
    forall y: nat | y < |dag.preds|
      ensures y !in succs ==> Missing(dag.preds[y], done) == Missing(dag.preds[y], done + [x])
    {
      CountAt(dag, done, x, y);
    }
    hide Missing, ValidDag;
  }

  /** Takes x off the counts of what depends on it. */
  method Release(dag: Dag, unscheduled: seq<nat>, ready: seq<nat>, x: nat, ghost done: seq<nat>)
    returns (unscheduled': seq<nat>, ready': seq<nat>)
    requires ValidDag(dag) && Counts(dag, done, unscheduled) && x < |dag.preds| && x !in done
    ensures Counts(dag, done + [x], unscheduled')
    ensures ready' == ready + Fresh(dag, done + [x], dag.succs[x])
  {
    hide *;
    unscheduled', ready' := unscheduled, ready;
    HalfwayEnds(dag, done, x, unscheduled);
    var succs := dag.succs[x];
    FreshNothing(dag, done + [x]);
    assert succs[..0] == [];
    for k := 0 to |succs|
      invariant Halfway(dag, done, x, k, unscheduled')
      invariant ready' == ready + Fresh(dag, done + [x], succs[..k])
    {
      HalfwayStep(dag, done, x, k, unscheduled');
      var s := succs[k];
      unscheduled' := unscheduled'[s := unscheduled'[s] - 1];
      if unscheduled'[s] == 0 {
        ready' := ready' + [s];
      }
    }
    assert succs[..|succs|] == succs;
    HalfwayEnds(dag, done, x, unscheduled');
  }

  /** The operations at the given positions. */
  function Named(body: seq<Id>, order: seq<nat>): (r: seq<Id>)
    ensures |r| == |order| && forall k | 0 <= k < |order| :: r[k] == At(body, order[k])
  {
    seq(|order|, k requires 0 <= k < |order| => At(body, order[k]))
  }

  lemma InitialCounts(dag: Dag, unscheduled: seq<nat>)
    requires |unscheduled| == |dag.preds|
    requires forall y: nat | y < |dag.preds| :: unscheduled[y] == |dag.preds[y]|
    ensures Counts(dag, [], unscheduled)
  {
    forall y: nat | y < |dag.preds|
      ensures Missing(dag.preds[y], []) == |dag.preds[y]|
    {
      NothingDone(dag.preds[y]);
    }
  }

  lemma {:induction false} NothingDone(list: seq<nat>)
    ensures Missing(list, []) == |list|
  {
    if list != [] { NothingDone(list[..|list| - 1]); }
  }

  lemma RoundsStart(dag: Dag, h: seq<nat>, latency: seq<nat>)
    ensures Rounds(dag, h, latency, [], [Roots(dag, |dag.preds|)])
  {
  }

  lemma RoundsGoOn(dag: Dag, h: seq<nat>, latency: seq<nat>, order: seq<nat>, trace: seq<seq<nat>>, x: nat,
                   ready': seq<nat>)
    requires Rounds(dag, h, latency, order, trace) && Round(dag, h, latency, order, trace[|order|], x, ready')
    ensures Rounds(dag, h, latency, order + [x], trace + [ready'])
  {
    hide Round, Roots;
    var order', trace' := order + [x], trace + [ready'];
    forall k | 0 <= k < |order'|
      ensures Round(dag, h, latency, order'[..k], trace'[k], order'[k], trace'[k + 1])
    {
      if k < |order| {
        assert order'[..k] == order[..k];
      } else {
        assert order'[..k] == order;
      }
    }
  }

  lemma RoundIsSane(dag: Dag, h: seq<nat>, latency: seq<nat>, order: seq<nat>, ready: seq<nat>, i: nat,
                    ready': seq<nat>)
    requires ValidDag(dag) && Sane(dag, order, ready) && IsBest(h, latency, ready, i)
    requires ready[i] < |dag.succs| && ready' == Without(ready, i) + Fresh(dag, order + [ready[i]], dag.succs[ready[i]])
    ensures Round(dag, h, latency, order, ready, ready[i], ready') && Sane(dag, order + [ready[i]], ready')
    ensures |order| < |dag.preds|
  {
    SaneStep(dag, order, ready, i);
    var order' := order + [ready[i]];
    hide ValidDag, Without, Fresh, IsBest, AllIn;
    assert forall x | x in order' :: x < |dag.preds|;
    DistinctBounded(order', |dag.preds|);
  }

  lemma BestReady(dag: Dag, order: seq<nat>, ready: seq<nat>, h: seq<nat>, latency: seq<nat>, i: nat)
    requires ValidDag(dag) && Sane(dag, order, ready) && IsBest(h, latency, ready, i)
    ensures i < |ready| && ready[i] < |dag.preds| && |dag.preds| == |dag.succs| && ready[i] !in order
  {
    assert ready[i] in ready;
  }

  /** The positions not yet moved out. */
  ghost predicate Owned(owner: set<nat>, n: nat, order: seq<nat>) {
    forall k: nat :: k in owner <==> k < n && k !in order
  }

  method InitialReady(dag: Dag) returns (unscheduled: seq<nat>, ready: seq<nat>)
    ensures Counts(dag, [], unscheduled) && ready == Roots(dag, |dag.preds|)
  {
    var n := |dag.preds|;
    unscheduled := seq(n, y requires 0 <= y < n => |dag.preds[y]|);
    InitialCounts(dag, unscheduled);
    hide Counts;
    ready := [];
    for k := 0 to n
      invariant ready == Roots(dag, k)
    {
      if unscheduled[k] == 0 {
        ready := ready + [k];
      }
    }
  }

  method AllNodes(n: nat) returns (owner: set<nat>)
    ensures Owned(owner, n, [])
  {
    owner := {};
    for k := 0 to n
      invariant forall x: nat :: x in owner <==> x < k
    {
      owner := owner + {k};
    }
  }

  lemma NamedNext(body: seq<Id>, order: seq<nat>, x: nat)
    requires x < |body|
    ensures Named(body, order + [x]) == Named(body, order) + [body[x]]
  {
  }

  lemma OwnedNext(owner: set<nat>, n: nat, order: seq<nat>, x: nat)
    requires Owned(owner, n, order) && x < n && x !in order
    ensures x in owner && Owned(owner - {x}, n, order + [x])
  {
  }

  /** The operations that still have an owner, in their old order. */
  function Leftover(body: seq<Id>, owner: set<nat>, n: nat): seq<Id>
    requires n <= |body|
  {
    if n == 0 then [] else Leftover(body, owner, n - 1) + if n - 1 in owner then [body[n - 1]] else []
  }

  /**
   The last resort for operations that never became ready. By then the source has moved its
   list of operations to their owners, and would look them up under null; as nothing is left,
   it makes no difference.
   */
  method Fallback(body: seq<Id>, out: seq<Id>, owner: set<nat>) returns (out': seq<Id>)
    ensures out' == out + Leftover(body, owner, |body|)
  {
    out' := out;
    for k := 0 to |body|
      invariant out' == out + Leftover(body, owner, k)
    {
      if k in owner {
        out' := out' + [body[k]];
      }
    }
  }

  /** There are none. */
  lemma {:induction false} NothingLeft(dag: Dag, body: seq<Id>, owner: set<nat>, order: seq<nat>, n: nat)
    requires ValidDag(dag) && |dag.preds| == |body| && Sane(dag, order, []) && Owned(owner, |body|, order)
    requires n <= |body|
    ensures Leftover(body, owner, n) == []
  {
    if n > 0 {
      AllOut(dag, order, n - 1);
      NothingLeft(dag, body, owner, order, n - 1);
    }
  }

  /** The list scheduling loop; every operation has an owner until it is moved to the output. */
  method DrainReady(dag: Dag, h: seq<nat>, latency: seq<nat>, body: seq<Id>)
    returns (out: seq<Id>, ghost order: seq<nat>, ghost trace: seq<seq<nat>>)
    requires ValidDag(dag) && |dag.preds| == |body|
    ensures Rounds(dag, h, latency, order, trace) && |trace| == |order| + 1 && trace[|order|] == []
    ensures Sane(dag, order, []) && out == Named(body, order)
  {
    hide *;
    var unscheduled, ready := InitialReady(dag);
    SaneStart(dag);
    RoundsStart(dag, h, latency);
    var owner := AllNodes(|body|);
    out := [];
    NamedNothing(body);
    order, trace := [], [ready];
    while ready != []
      invariant Rounds(dag, h, latency, order, trace) && |trace| == |order| + 1 && trace[|order|] == ready
      invariant Sane(dag, order, ready) && Counts(dag, order, unscheduled)
      invariant out == Named(body, order) && Owned(owner, |body|, order)
      decreases |body| - |order|
    {
      var best := PickBest(h, latency, ready);
      BestReady(dag, order, ready, h, latency, best);
      var chosen := ready[best];
      ghost var before := ready;
      ready := Without(ready, best);
      OwnedNext(owner, |body|, order, chosen);
      NamedNext(body, order, chosen);
      if chosen in owner {
        out := out + [body[chosen]];
        owner := owner - {chosen};
      }
      unscheduled, ready := Release(dag, unscheduled, ready, chosen, order);
      RoundIsSane(dag, h, latency, order, before, best, ready);
      RoundsGoOn(dag, h, latency, order, trace, chosen, ready);
      order, trace := order + [chosen], trace + [ready];
    }
    NothingLeft(dag, body, owner, order, |body|);
    out := Fallback(body, out, owner);
  }

  lemma NamedNothing(body: seq<Id>)
    ensures Named(body, []) == []
  {
  }

  // ----- What a schedule is

  function Latencies(body: seq<Id>, code: map<Id, Instr>, vectors: set<Id>): seq<nat>
    requires forall id | id in body :: id in code
  {
    if body == [] then []
    else
      Latencies(body[..|body| - 1], code, vectors) + [Latency(code[Last(body)].op, Last(body) in vectors)]
  }

  method GetLatencies(body: seq<Id>, code: map<Id, Instr>, vectors: set<Id>) returns (latency: seq<nat>)
    requires forall id | id in body :: id in code
    ensures latency == Latencies(body, code, vectors) && |latency| == |body|
  {
    latency := [];
    for k := 0 to |body|
      invariant latency == Latencies(body[..k], code, vectors) && |latency| == k
    {
      assert body[..k + 1][..k] == body[..k];
      latency := latency + [Latency(code[body[k]].op, body[k] in vectors)];
    }
    assert body[..|body|] == body;
  }

  /** The order comes out of greedy rounds over the dependence graph, by critical path length and latency. */
  ghost predicate ScheduledBy(code: map<Id, Instr>, vectors: set<Id>, body: seq<Id>, out: seq<Id>,
                              dag: Dag, h: seq<nat>, order: seq<nat>, trace: seq<seq<nat>>)
  {
    && (forall id | id in body :: id in code)
    && IsDagOf(dag, code, body) && AreHeights(dag, Latencies(body, code, vectors), h)
    && Rounds(dag, h, Latencies(body, code, vectors), order, trace) && trace[|order|] == []
    && out == Named(body, order)
  }

  ghost predicate IsSchedule(code: map<Id, Instr>, vectors: set<Id>, body: seq<Id>, out: seq<Id>) {
    exists dag, h, order, trace :: ScheduledBy(code, vectors, body, out, dag, h, order, trace)
  }

  /** What becomes of a block: the phis, the schedule, the terminator. */
  ghost predicate BlockScheduled(code: map<Id, Instr>, vectors: set<Id>, list: seq<Id>, out: seq<Id>)
    requires forall id | id in list :: id in code
  {
    if |list| <= 2 then out == list
    else
      exists body' :: IsSchedule(code, vectors, Body(list, code), body')
                   && out == Phis(list, code) + body' + ListOf(Terminator(list, code))
  }

  method ScheduleBody(code: map<Id, Instr>, vectors: set<Id>, body: seq<Id>) returns (out: seq<Id>)
    requires Distinct(body) && UsesBehind(code, body)
    ensures IsSchedule(code, vectors, body, out)
  {
    assert forall id | id in body :: id in code;
    var dag := BuildDag(code, body);
    var latency := GetLatencies(body, code, vectors);
    var h := ComputeHeights(dag, latency);
    hide *;
    DagFacts(dag, code, body);
    ghost var order, trace;
    out, order, trace := DrainReady(dag, h, latency, body);
    Bundle(code, vectors, body, out, dag, h, order, trace);
  }

  lemma DagFacts(dag: Dag, code: map<Id, Instr>, body: seq<Id>)
    requires (forall id | id in body :: id in code) && IsDagOf(dag, code, body)
    ensures ValidDag(dag) && |dag.preds| == |dag.succs| == |body|
  {
  }

  lemma Bundle(code: map<Id, Instr>, vectors: set<Id>, body: seq<Id>, out: seq<Id>,
               dag: Dag, h: seq<nat>, order: seq<nat>, trace: seq<seq<nat>>)
    requires forall id | id in body :: id in code
    requires IsDagOf(dag, code, body) && AreHeights(dag, Latencies(body, code, vectors), h)
    requires Rounds(dag, h, Latencies(body, code, vectors), order, trace) && |trace| == |order| + 1
    requires trace[|order|] == []
    requires out == Named(body, order)
    ensures IsSchedule(code, vectors, body, out)
  {
    assert ScheduledBy(code, vectors, body, out, dag, h, order, trace);
  }

  lemma {:induction false} BodyDistinct(list: seq<Id>, code: map<Id, Instr>)
    requires (forall id | id in list :: id in code) && Distinct(list)
    ensures Distinct(Body(list, code))
  {
    if list != [] {
      var front := list[..|list| - 1];
      BodyDistinct(front, code);
      assert Last(list) !in front;
      assert Last(list) !in Body(front, code);
    }
  }

  method ScheduleBasicBlock(code: map<Id, Instr>, vectors: set<Id>, list: seq<Id>) returns (out: seq<Id>, changed: bool)
    requires (forall id | id in list :: id in code) && Distinct(list) && UsesBehind(code, Body(list, code))
    ensures BlockScheduled(code, vectors, list, out)
    ensures changed <==> |list| > 2 && Body(list, code) != []
  {
    hide *;
    if |list| <= 2 {
      ShortBlock(code, vectors, list);
      return list, false;
    }
    var phis, body, terminator := Split(list, code);
    BodyDistinct(list, code);
    if body == [] {
      out := phis + ListOf(terminator);
      EmptySchedule(code, vectors);
      assert out == phis + [] + ListOf(terminator);
      KeptBlock(code, vectors, list, out, []);
      return out, false;
    }
    var scheduled := ScheduleBody(code, vectors, body);
    out := phis + scheduled + ListOf(terminator);
    KeptBlock(code, vectors, list, out, scheduled);
    changed := true;
  }

  lemma ShortBlock(code: map<Id, Instr>, vectors: set<Id>, list: seq<Id>)
    requires (forall id | id in list :: id in code) && |list| <= 2
    ensures BlockScheduled(code, vectors, list, list)
  {
  }

  lemma KeptBlock(code: map<Id, Instr>, vectors: set<Id>, list: seq<Id>, out: seq<Id>, body': seq<Id>)
    requires (forall id | id in list :: id in code) && |list| > 2
    requires IsSchedule(code, vectors, Body(list, code), body')
    requires out == Phis(list, code) + body' + ListOf(Terminator(list, code))
    ensures BlockScheduled(code, vectors, list, out)
  {
    hide IsSchedule, Phis, Body, ListOf, Terminator;
  }

  lemma EmptySchedule(code: map<Id, Instr>, vectors: set<Id>)
    ensures IsSchedule(code, vectors, [], [])
  {
    assert ScheduledBy(code, vectors, [], [], Dag([], []), [], [], [[]]);
  }

  // ----- A schedule changes nothing

  lemma {:induction false} RoundsAreSane(dag: Dag, h: seq<nat>, latency: seq<nat>, order: seq<nat>,
                                         trace: seq<seq<nat>>, n: nat)
    requires ValidDag(dag) && Rounds(dag, h, latency, order, trace) && n <= |order|
    ensures Sane(dag, order[..n], trace[n])
  {
    hide Sane, ValidDag;
    if n == 0 {
      SaneStart(dag);
      assert order[..0] == [];
    } else {
      RoundsAreSane(dag, h, latency, order, trace, n - 1);
      var k := n - 1;
      assert Round(dag, h, latency, order[..k], trace[k], order[k], trace[k + 1]);
      hide Rounds, IsBest;
      var i: nat :| IsBest(h, latency, trace[k], i) && i < |trace[k]| && trace[k][i] == order[k]
            && trace[k + 1] == Without(trace[k], i) + Fresh(dag, order[..k] + [order[k]], dag.succs[order[k]]);
      SaneStep(dag, order[..k], trace[k], i);
      assert order[..k] + [order[k]] == order[..n];
    }
  }

  /** Every operation comes out once, behind all it depends on. */
  lemma ScheduleIsTopological(dag: Dag, h: seq<nat>, latency: seq<nat>, order: seq<nat>, trace: seq<seq<nat>>)
    requires ValidDag(dag) && Rounds(dag, h, latency, order, trace) && trace[|order|] == []
    ensures Distinct(order) && forall k: nat :: k in order <==> k < |dag.preds|
    ensures forall k | 0 <= k < |order| :: order[k] < |dag.preds| && AllIn(dag.preds[order[k]], order[..k])
  {
    RoundsAreSane(dag, h, latency, order, trace, |order|);
    assert order[..|order|] == order;
    forall k: nat | k < |dag.preds|
      ensures k in order
    {
      AllOut(dag, order, k);
    }
  }

  lemma PositionAt(list: seq<nat>, x: nat) returns (k: nat)
    requires x in list
    ensures k < |list| && list[k] == x
  {
    k :| 0 <= k < |list| && list[k] == x;
  }

  lemma NamedIsPermutation(body: seq<Id>, order: seq<nat>)
    requires Distinct(body) && Distinct(order) && forall k: nat :: k in order <==> k < |body|
    ensures var out := Named(body, order);
            Distinct(out) && |out| == |body| && forall id: Id :: id in body <==> id in out
  {
    var out := Named(body, order);
    forall k | 0 <= k < |order|
      ensures order[k] < |body| && out[k] == body[order[k]]
    {
      assert order[k] in order;
    }
    forall id: Id | id in body
      ensures id in out
    {
      var i := PositionIn(body, id);
      var k := PositionAt(order, i);
      assert out[k] == id;
    }
    SameLength(order, |body|);
  }

  lemma {:induction false} SameLength(order: seq<nat>, n: nat)
    requires Distinct(order) && forall k: nat :: k in order <==> k < n
    ensures |order| == n
  {
    if n > 0 {
      var i := PositionAt(order, n - 1);
      WithoutMembers(order, i);
      SameLength(Without(order, i), n - 1);
    } else {
      NoneBelowZero(order);
    }
  }

  lemma ScheduleKeepsOrder(code: map<Id, Instr>, body: seq<Id>, dag: Dag, order: seq<nat>)
    requires Distinct(body) && (forall id | id in body :: id in code) && IsDagOf(dag, code, body)
    requires Distinct(order)
    requires forall k | 0 <= k < |order| :: order[k] < |dag.preds| && AllIn(dag.preds[order[k]], order[..k])
    ensures KeepsOrder(code, body, Named(body, order))
  {
    var out := Named(body, order);
    hide DependsOn, ValidDag;
    forall i, j, p, q | 0 <= i < j < |body| && 0 <= p < |out| && 0 <= q < |out|
      && out[p] == body[i] && out[q] == body[j] && DependsOn(code, body[i], body[j])
      ensures p < q
    {
      assert order[p] == i && order[q] == j;
      assert Depends(code, body, i, j) && i in dag.preds[j];
      assert i in order[..q];
      var p' := PositionAt(order[..q], i);
      assert p' == p;
    }
  }

  /** A schedule is a permutation in which no operation overtakes one it depends on. */
  lemma ScheduleIsOrder(code: map<Id, Instr>, vectors: set<Id>, body: seq<Id>, out: seq<Id>)
    requires Distinct(body) && IsSchedule(code, vectors, body, out)
    ensures |out| == |body| && Distinct(out) && forall id: Id :: id in body <==> id in out
    ensures (forall id | id in body :: id in code) && KeepsOrder(code, body, out)
  {
    var dag, h, order, trace :| ScheduledBy(code, vectors, body, out, dag, h, order, trace);
    assert forall id | id in body :: id in code;
    DagFacts(dag, code, body);
    var latency := Latencies(body, code, vectors);
    hide Distinct, ValidDag, Named, IsDagOf, AllIn;
    ScheduleIsTopological(dag, h, latency, order, trace);
    hide Rounds;
    NamedIsPermutation(body, order);
    ScheduleKeepsOrder(code, body, dag, order);
  }

  /** The scheduled operations have the effect they had. */
  lemma ScheduleHasSameEffect(m: Machine, code: map<Id, Instr>, vectors: set<Id>, body: seq<Id>, out: seq<Id>)
    requires MemoryListed(m) && Distinct(body) && UsesBehind(code, body) && IsSchedule(code, vectors, body, out)
    ensures SameEffect(m, code, body, out)
    ensures |out| == |body| && Distinct(out) && forall id: Id :: id in body <==> id in out
  {
    hide *;
    ScheduleIsOrder(code, vectors, body, out);
    ReorderingHasSameEffect(m, code, body, out);
  }

  // ----- Whole functions

  ghost predicate Ordered(f: Function) {
    forall b | b in f.blocks ::
      (forall id | id in f.blocks[b] :: id in f.code) && UsesBehind(f.code, Body(f.blocks[b], f.code))
  }

  ghost predicate AllScheduled(f: Function, g: Function, vectors: set<Id>, done: seq<BlockId>) {
    && g.order == f.order && g.code == f.code && g.blocks.Keys == f.blocks.Keys
    && (forall b | b in f.blocks && b !in done :: g.blocks[b] == f.blocks[b])
    && (forall b | b in f.blocks && b in done ::
          (forall id | id in f.blocks[b] :: id in f.code) && BlockScheduled(f.code, vectors, f.blocks[b], g.blocks[b]))
  }

  lemma BlockReady(f: Function, k: nat)
    requires WellFormed(f) && Ordered(f) && k < |f.order|
    ensures var b := f.order[k];
            && b in f.blocks && b !in f.order[..k] && Distinct(f.blocks[b])
            && (forall id | id in f.blocks[b] :: id in f.code) && UsesBehind(f.code, Body(f.blocks[b], f.code))
  {
    assert f.order[k] in f.order;
    hide UsesBehind;
  }

  lemma NextScheduled(f: Function, g: Function, vectors: set<Id>, k: nat, out: seq<Id>)
    requires k < |f.order| && AllScheduled(f, g, vectors, f.order[..k]) && f.order[k] in f.blocks
    requires f.order[k] !in f.order[..k] && forall id | id in f.blocks[f.order[k]] :: id in f.code
    requires BlockScheduled(f.code, vectors, f.blocks[f.order[k]], out)
    ensures g.blocks[f.order[k]] == f.blocks[f.order[k]]
    ensures AllScheduled(f, g.(blocks := g.blocks[f.order[k] := out]), vectors, f.order[..k + 1])
  {
    hide BlockScheduled;
    assert f.order[..k + 1] == f.order[..k] + [f.order[k]];
  }

  lemma SameSoFar(f: Function, g: Function, vectors: set<Id>, k: nat)
    requires k < |f.order| && AllScheduled(f, g, vectors, f.order[..k]) && f.order[k] in f.blocks
    requires f.order[k] !in f.order[..k]
    ensures f.order[k] in g.blocks && g.blocks[f.order[k]] == f.blocks[f.order[k]] && g.code == f.code
  {
    hide BlockScheduled;
  }

  /** The scheduler takes the block up. */
  ghost predicate HasBody(f: Function, b: BlockId) {
    && b in f.blocks && (forall id | id in f.blocks[b] :: id in f.code)
    && |f.blocks[b]| > 2 && Body(f.blocks[b], f.code) != []
  }

  lemma HasBodyIs(f: Function, b: BlockId)
    requires b in f.blocks && forall id | id in f.blocks[b] :: id in f.code
    ensures HasBody(f, b) <==> |f.blocks[b]| > 2 && Body(f.blocks[b], f.code) != []
  {
  }

  method Run(f: Function, vectors: set<Id>) returns (g: Function, changed: bool)
    requires WellFormed(f) && Ordered(f)
    ensures AllScheduled(f, g, vectors, f.order)
    ensures changed <==> exists b :: b in f.order && HasBody(f, b)
  {
    g, changed := f, false;
    StartsUnscheduled(f, vectors);
    hide *;
    for k := 0 to |f.order|
      invariant AllScheduled(f, g, vectors, f.order[..k])
      invariant changed <==> exists b :: b in f.order[..k] && HasBody(f, b)
    {
      BlockReady(f, k);
      HasBodyIs(f, f.order[k]);
      assert f.order[..k + 1] == f.order[..k] + [f.order[k]];
      SameSoFar(f, g, vectors, k);
      var b := f.order[k];
      var out, here := ScheduleBasicBlock(g.code, vectors, g.blocks[b]);
      NextScheduled(f, g, vectors, k, out);
      g := g.(blocks := g.blocks[b := out]);
      changed := changed || here;
    }
    assert f.order[..|f.order|] == f.order;
  }

  lemma StartsUnscheduled(f: Function, vectors: set<Id>)
    ensures AllScheduled(f, f, vectors, f.order[..0])
  {
    hide BlockScheduled;
  }
}
