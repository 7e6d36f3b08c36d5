/**
 Building the predecessor and successor lists from the first terminator of each block,
 and what the resulting graph says about runs.
 */
module CFGBuilder {
  import opened IR
  import opened ControlFlow

  /** What ends a block in the eyes of the builder. */
  predicate EndsBlock(op: Opcode) {
    op == Jmp || op == Br || op == Jnz || op == Ret
  }

  function FirstTerminator(list: seq<Id>, code: map<Id, Instr>): (k: Option<nat>)
    ensures k.Some? ==> k.value < |list| && list[k.value] in code && EndsBlock(code[list[k.value]].op)
    ensures forall i | 0 <= i < (if k.Some? then k.value else |list|) && list[i] in code :: !EndsBlock(code[list[i]].op)
  {
    if list == [] then None
    else if list[0] in code && EndsBlock(code[list[0]].op) then Some(0)
    else
      var k := FirstTerminator(list[1..], code);
      if k.Some? then Some(k.value + 1) else None
  }

  /** Where a terminator may go. */
  function Targets(instr: Instr): set<BlockId>
    requires instr.op == Jmp ==> |instr.operands| > 0 && instr.operands[0].Blk?
    requires IsCondBranch(instr.op) ==> |instr.operands| == 3 && instr.operands[1].Blk? && instr.operands[2].Blk?
  {
    if instr.op == Jmp then {instr.operands[0].block}
    else if IsCondBranch(instr.op) then {instr.operands[1].block, instr.operands[2].block}
    else {}
  }

  /** Control may pass from the k-th block to block b: by its terminator, or by falling through. */
  ghost predicate FlowsTo(f: Function, k: nat, b: BlockId)
    requires WellFormed(f) && k < |f.order|
  {
    assert f.order[k] in f.order;
    var list := f.blocks[f.order[k]];
    var t := FirstTerminator(list, f.code);
    if t.Some? then b in Targets(f.code[list[t.value]])
    else k + 1 < |f.order| && b == f.order[k + 1]
  }

  ghost predicate NoRepeats(lists: seq<seq<nat>>) {
    forall k: nat, i, j | k < |lists| && 0 <= i < j < |lists[k]| :: lists[k][i] != lists[k][j]
  }

  /** The graph of a function: its edges are where control may flow, and no neighbour is listed twice. */
  ghost predicate IsCFG(f: Function, g: Graph)
    requires WellFormed(f)
  {
    && ValidGraph(g) && |g.succs| == |f.order|
    && NoRepeats(g.preds) && NoRepeats(g.succs)
    && forall a: nat, b: nat | a < |f.order| && b < |f.order| :: b in g.succs[a] <==> FlowsTo(f, a, f.order[b])
  }

  /** Edges so far: those of the blocks before k, and from block k those in `more`. */
  ghost predicate Built(f: Function, g: Graph, k: nat, more: set<BlockId>)
    requires WellFormed(f) && k <= |f.order|
  {
    && ValidGraph(g) && |g.succs| == |f.order|
    && NoRepeats(g.preds) && NoRepeats(g.succs)
    && forall a: nat, b: nat | a < |f.order| && b < |f.order| ::
         b in g.succs[a] <==> (a < k && FlowsTo(f, a, f.order[b])) || (a == k && f.order[b] in more)
  }

  function AddOnce(list: seq<nat>, b: nat): seq<nat> {
    if b in list then list else list + [b]
  }

  lemma AddedOnce(list: seq<nat>, b: nat)
    ensures forall x: nat :: x in AddOnce(list, b) <==> x in list || x == b
  {
  }

  function WithEdge(g: Graph, a: nat, b: nat): Graph
    requires a < |g.succs| && b < |g.preds|
  {
    Graph(g.preds[b := AddOnce(g.preds[b], a)], g.succs[a := AddOnce(g.succs[a], b)])
  }

  lemma EdgeAdded(g: Graph, a: nat, b: nat)
    requires ValidGraph(g) && NoRepeats(g.preds) && NoRepeats(g.succs) && a < |g.succs| && b < |g.preds|
    ensures var g' := WithEdge(g, a, b);
            && ValidGraph(g') && NoRepeats(g'.preds) && NoRepeats(g'.succs) && |g'.succs| == |g.succs|
            && forall x: nat, y: nat | x < |g.succs| && y < |g.succs| ::
                 y in g'.succs[x] <==> y in g.succs[x] || (x == a && y == b)
  {
    AddedOnce(g.succs[a], b);
    AddedOnce(g.preds[b], a);
    hide AddOnce;
    var g' := WithEdge(g, a, b);
    forall x: nat, k | x < |g.succs| && 0 <= k < |g'.succs[x]|
      ensures g'.succs[x][k] < |g.succs|
    {
      assert g'.succs[x][k] in g'.succs[x];
    }
    forall x: nat, k | x < |g.preds| && 0 <= k < |g'.preds[x]|
      ensures g'.preds[x][k] < |g.preds|
    {
      assert g'.preds[x][k] in g'.preds[x];
    }
    StillDistinct(g.succs, a, b);
    StillDistinct(g.preds, b, a);
  }

  lemma StillDistinct(lists: seq<seq<nat>>, a: nat, b: nat)
    requires a < |lists| && NoRepeats(lists)
    ensures NoRepeats(lists[a := AddOnce(lists[a], b)])
  {
  }

  lemma {:induction false} IndexFound(order: seq<BlockId>, b: BlockId) returns (k: nat)
    requires b in order
    ensures k < |order| && order[k] == b
  {
    k :| 0 <= k < |order| && order[k] == b;
  }

  method Index(order: seq<BlockId>, b: BlockId) returns (k: nat)
    requires b in order
    ensures k < |order| && order[k] == b
  {
    k := 0;
    while order[k] != b
      invariant k < |order| && b in order[k..]
      decreases |order| - k
    {
      assert order[k..] == [order[k]] + order[k + 1..];
      k := k + 1;
    }
  }

  /** One edge, in both lists. */
  method AddEdge(f: Function, g: Graph, k: nat, b: BlockId, ghost more: set<BlockId>) returns (g': Graph)
    requires WellFormed(f) && k < |f.order| && b in f.blocks && Built(f, g, k, more)
    ensures Built(f, g', k, more + {b})
  {
    var t := Index(f.order, b);
    EdgeAdded(g, k, t);
    g' := WithEdge(g, k, t);
    hide FlowsTo, ValidGraph, NoRepeats, WithEdge;
    forall c: nat | c < |f.order|
      ensures f.order[c] == b <==> c == t
    {
      OrderDistinct(f, c, t);
    }
  }

  lemma OrderDistinct(f: Function, c: nat, t: nat)
    requires WellFormed(f) && c < |f.order| && t < |f.order|
    ensures f.order[c] == f.order[t] <==> c == t
  {
    var i, j := if c < t then c else t, if c < t then t else c;
    assert i < j ==> f.order[i] != f.order[j];
  }

  lemma NextBlock(f: Function, g: Graph, k: nat, more: set<BlockId>)
    requires WellFormed(f) && k < |f.order| && Built(f, g, k, more)
    requires forall b | b in f.order :: FlowsTo(f, k, b) <==> b in more
    ensures Built(f, g, k + 1, {})
  {
    hide FlowsTo, ValidGraph, NoRepeats;
  }

  /** The targets of the k-th block's first terminator, or its fall-through. */
  ghost function Exits(f: Function, k: nat): set<BlockId>
    requires WellFormed(f) && k < |f.order|
  {
    assert f.order[k] in f.order;
    var list := f.blocks[f.order[k]];
    var t := FirstTerminator(list, f.code);
    if t.Some? then Targets(f.code[list[t.value]]) else if k + 1 < |f.order| then {f.order[k + 1]} else {}
  }

  lemma BlockAt(f: Function, k: nat)
    requires WellFormed(f) && k < |f.order|
    ensures f.order[k] in f.blocks
    ensures var t := FirstTerminator(f.blocks[f.order[k]], f.code);
            t.Some? ==> f.blocks[f.order[k]][t.value] in f.code
                        && TargetsExist(f, f.code[f.blocks[f.order[k]][t.value]])
    ensures k + 1 < |f.order| ==> f.order[k + 1] in f.blocks
    ensures forall b :: FlowsTo(f, k, b) <==> b in Exits(f, k)
  {
    assert f.order[k] in f.order;
    if k + 1 < |f.order| { assert f.order[k + 1] in f.order; }
  }

  /** Adds the edges of one block. */
  method LinkBlock(f: Function, g: Graph, k: nat) returns (g': Graph)
    requires WellFormed(f) && k < |f.order| && Built(f, g, k, {})
    ensures Built(f, g', k + 1, {})
  {
    hide Built, WellFormed, FlowsTo, FirstTerminator;
    BlockAt(f, k);
    g' := g;
    var list := f.blocks[f.order[k]];
    var t := FirstTerminator(list, f.code);
    if t.Some? {
      var instr := f.code[list[t.value]];
      if instr.op == Jmp {
        g' := AddEdge(f, g', k, instr.operands[0].block, {});
        assert {} + {instr.operands[0].block} == Exits(f, k);
      } else if IsCondBranch(instr.op) {
        g' := AddEdge(f, g', k, instr.operands[1].block, {});
        g' := AddEdge(f, g', k, instr.operands[2].block, {} + {instr.operands[1].block});
        assert {} + {instr.operands[1].block} + {instr.operands[2].block} == Exits(f, k);
      }
    } else if k + 1 < |f.order| {
      g' := AddEdge(f, g', k, f.order[k + 1], {});
      assert {} + {f.order[k + 1]} == Exits(f, k);
    }
    NextBlock(f, g', k, Exits(f, k));
  }

  method Run(f: Function) returns (g: Graph)
    requires WellFormed(f)
    ensures IsCFG(f, g)
  {
    var n := |f.order|;
    g := Graph(seq(n, i => []), seq(n, i => []));
    assert Built(f, g, 0, {});
    for k := 0 to n
      invariant Built(f, g, k, {})
    {
      g := LinkBlock(f, g, k);
    }
  }

  // ----- The edges, opcode by opcode

  /** The first Jmp, Br, Jnz or Ret of the block stands at k. */
  ghost predicate EndsAt(f: Function, list: seq<Id>, k: nat) {
    && k < |list| && list[k] in f.code && f.code[list[k]].op in {Jmp, Br, Jnz, Ret}
    && forall i | 0 <= i < k && list[i] in f.code :: f.code[list[i]].op !in {Jmp, Br, Jnz, Ret}
  }

  ghost predicate NeverEnds(f: Function, list: seq<Id>) {
    forall i | 0 <= i < |list| && list[i] in f.code :: f.code[list[i]].op !in {Jmp, Br, Jnz, Ret}
  }

  /** A jump to the block, or a branch with the block as one of its two targets. */
  predicate LeadsTo(instr: Instr, b: BlockId) {
    || (instr.op == Jmp && instr.operands != [] && instr.operands[0] == Blk(b))
    || (instr.op in {Br, Jnz} && |instr.operands| == 3 && (instr.operands[1] == Blk(b) || instr.operands[2] == Blk(b)))
  }

  /**
   The edges of the graph: where the first Jmp, Br, Jnz or Ret of a block leads, and to the next
   block from one that has none of these. A block whose first one is Ret has no successor.
   */
  lemma EdgesExactly(f: Function, g: Graph, a: nat, b: nat)
    requires WellFormed(f) && IsCFG(f, g) && a < |f.order| && b < |f.order|
    ensures f.order[a] in f.blocks
    ensures var list := f.blocks[f.order[a]];
            Edge(g, a, b) <==>
              || (exists k: nat :: EndsAt(f, list, k) && LeadsTo(f.code[list[k]], f.order[b]))
              || (NeverEnds(f, list) && b == a + 1)
  {
    BlockAt(f, a);
    var list := f.blocks[f.order[a]];
    var t := FirstTerminator(list, f.code);
    assert Edge(g, a, b) <==> b in g.succs[a];
    assert b in g.succs[a] <==> FlowsTo(f, a, f.order[b]);
    if a + 1 < |f.order| { OrderDistinct(f, b, a + 1); }
    hide WellFormed, IsCFG, FirstTerminator, LeadsTo, TargetsExist;
    if t.Some? {
      FirstEndsAt(f, list, t.value);
      TargetsLead(f, f.code[list[t.value]], f.order[b]);
    } else {
      assert NeverEnds(f, list);
    }
  }

  lemma FirstEndsAt(f: Function, list: seq<Id>, n: nat)
    requires FirstTerminator(list, f.code) == Some(n)
    ensures forall k: nat :: EndsAt(f, list, k) <==> k == n
    ensures !NeverEnds(f, list)
  {
    assert EndsAt(f, list, n);
    hide FirstTerminator;
  }

  lemma TargetsLead(f: Function, instr: Instr, b: BlockId)
    requires TargetsExist(f, instr) && EndsBlock(instr.op)
    ensures b in Targets(instr) <==> LeadsTo(instr, b)
  {
  }

  /** A jump takes its edge, and a branch on what an instruction computes each of its two. */
  lemma EdgeIsTaken(m: Machine, f: Function, g: Graph, a: nat, b: nat, k: nat) returns (s: State, s': State)
    requires WellFormed(f) && IsCFG(f, g) && a < |f.order| && b < |f.order| && Edge(g, a, b)
    requires f.order[a] in f.blocks && EndsAt(f, f.blocks[f.order[a]], k)
    requires var instr := f.code[f.blocks[f.order[a]][k]];
             instr.op == Jmp || (instr.operands != [] && instr.operands[0].Inst?)
    ensures var id := f.blocks[f.order[a]][k];
            && s.path == [f.order[a]] && s.pc == k && InstrStep(m, id, f.code[id], s, s')
            && s'.path == s.path + [f.order[b]] && s'.pc == 0
  {
    EdgesExactly(f, g, a, b);
    var id := f.blocks[f.order[a]][k];
    var instr := f.code[id];
    EndsOnce(f, f.blocks[f.order[a]], k);
    hide WellFormed, IsCFG;
    assert LeadsTo(instr, f.order[b]);
    var bits := if instr.op != Jmp && instr.operands[1] == Blk(f.order[b]) then 1 else 0;
    var env := if instr.op == Jmp then map[] else map[instr.operands[0].id := Word(1, bits)];
    s := State([f.order[a]], k, env, map[], None);
    s' := s.(path := s.path + [f.order[b]], pc := 0);
  }

  lemma EndsOnce(f: Function, list: seq<Id>, k: nat)
    requires EndsAt(f, list, k)
    ensures !NeverEnds(f, list) && forall j: nat :: EndsAt(f, list, j) ==> j == k
  {
  }

  // ----- Runs follow the graph

  /** Control leaves blocks only by instructions the builder knows. */
  ghost predicate NoJz(f: Function) {
    forall id | id in f.code :: f.code[id].op != Jz
  }

  /** The blocks a run has entered are a path from the entry, and the run is not past a terminator. */
  ghost predicate OnPath(f: Function, g: Graph, p: seq<nat>, s: State)
    requires WellFormed(f)
  {
    && IsPath(g, p) && p[0] == 0 && |p| == |s.path|
    && (forall i | 0 <= i < |p| :: p[i] < |f.order| && f.order[p[i]] == s.path[i])
    && (s.ret.None? ==>
          var list := f.blocks[f.order[Last(p)]];
          s.pc <= |list| && forall i | 0 <= i < s.pc && list[i] in f.code :: !EndsBlock(f.code[list[i]].op))
  }

  lemma OnPathStart(m: Machine, f: Function, g: Graph, s: State)
    requires WellFormed(f) && IsCFG(f, g) && Initial(f, s)
    ensures OnPath(f, g, [0], s)
  {
  }

  /** Where a terminator that is not behind another may go, an edge leads. */
  lemma TargetEdge(f: Function, g: Graph, k: nat, pc: nat, t: nat)
    requires WellFormed(f) && IsCFG(f, g) && k < |f.order| && t < |f.order| && f.order[k] in f.blocks
    requires var list := f.blocks[f.order[k]];
             && pc < |list| && list[pc] in f.code && EndsBlock(f.code[list[pc]].op)
             && TargetsExist(f, f.code[list[pc]])
             && (forall i | 0 <= i < pc && list[i] in f.code :: !EndsBlock(f.code[list[i]].op))
             && f.order[t] in Targets(f.code[list[pc]])
    ensures Edge(g, k, t)
  {
    FirstIs(f.blocks[f.order[k]], f.code, pc);
    hide FirstTerminator, Targets;
    assert FlowsTo(f, k, f.order[t]);
    assert t in g.succs[k];
  }

  lemma JumpTarget(m: Machine, f: Function, id: Id, instr: Instr, s: State, s': State) returns (target: BlockId)
    requires WellFormed(f) && id in f.code && instr == f.code[id] && InstrStep(m, id, instr, s, s')
    requires instr.op == Jmp || IsCondBranch(instr.op)
    ensures TargetsExist(f, instr) && target in Targets(instr) && target in f.order
    ensures s' == s.(path := s.path + [target], pc := 0)
  {
    assert TargetsExist(f, instr);
    target := Last(s'.path);
  }

  /** A jump goes along an edge. */
  lemma JumpAlongEdge(m: Machine, f: Function, g: Graph, p: seq<nat>, s: State, s': State) returns (p': seq<nat>)
    requires WellFormed(f) && NoJz(f) && IsCFG(f, g) && OnPath(f, g, p, s) && s.ret.None?
    requires s.path != [] && Last(s.path) in f.blocks
    requires var list := f.blocks[Last(s.path)];
             && s.pc < |list| && list[s.pc] in f.code && InstrStep(m, list[s.pc], f.code[list[s.pc]], s, s')
             && (f.code[list[s.pc]].op == Jmp || IsCondBranch(f.code[list[s.pc]].op))
    ensures OnPath(f, g, p', s')
  {
    var list := f.blocks[Last(s.path)];
    var target := JumpTarget(m, f, list[s.pc], f.code[list[s.pc]], s, s');
    var t := IndexFound(f.order, target);
    hide WellFormed, IsCFG, InstrStep, Targets, TargetsExist;
    TargetEdge(f, g, Last(p), s.pc, t);
    PathExtend(g, p, t);
    p' := p + [t];
  }

  lemma {:induction false} FirstIs(list: seq<Id>, code: map<Id, Instr>, k: nat)
    requires k < |list| && list[k] in code && EndsBlock(code[list[k]].op)
    requires forall i | 0 <= i < k && list[i] in code :: !EndsBlock(code[list[i]].op)
    ensures FirstTerminator(list, code) == Some(k)
  {
    if k > 0 {
      assert list[1..][k - 1] == list[k];
      FirstIs(list[1..], code, k - 1);
    }
  }

  /** A step that is no jump stays in its block and passes no terminator, unless it returns. */
  lemma StepInBlock(m: Machine, f: Function, s: State, s': State)
    requires NoJz(f) && Step(m, f, s, s')
    ensures var list := f.blocks[Last(s.path)];
            || (s.pc < |list| && list[s.pc] in f.code
                && InstrStep(m, list[s.pc], f.code[list[s.pc]], s, s')
                && (f.code[list[s.pc]].op == Jmp || IsCondBranch(f.code[list[s.pc]].op)))
            || (s'.path == s.path && s'.ret.Some?)
            || (s'.path == s.path && s.pc <= s'.pc <= |list|
                && forall i | s.pc <= i < s'.pc && list[i] in f.code :: !EndsBlock(f.code[list[i]].op))
  {
    var list := f.blocks[Last(s.path)];
    var n := LeadingPhis(list, f.code);
    if s.pc == 0 && n > 0 {
      PhisDoNotEnd(f, list, n);
      assert s'.pc == n;
    }
  }

  lemma StepOnPath(m: Machine, f: Function, g: Graph, p: seq<nat>, s: State, s': State) returns (p': seq<nat>)
    requires WellFormed(f) && NoJz(f) && IsCFG(f, g) && OnPath(f, g, p, s) && Step(m, f, s, s')
    ensures OnPath(f, g, p', s')
  {
    StepInBlock(m, f, s, s');
    assert s.ret.None? && s.path != [] && Last(s.path) in f.blocks;
    p' := p;
    hide WellFormed, IsCFG, InstrStep, NoJz, Step;
    var list := f.blocks[Last(s.path)];
    if s.pc < |list| && list[s.pc] in f.code && InstrStep(m, list[s.pc], f.code[list[s.pc]], s, s')
       && (f.code[list[s.pc]].op == Jmp || IsCondBranch(f.code[list[s.pc]].op))
    {
      hide OnPath;
      p' := JumpAlongEdge(m, f, g, p, s, s');
    }
  }

  lemma PhisDoNotEnd(f: Function, list: seq<Id>, n: nat)
    requires n == LeadingPhis(list, f.code)
    ensures forall i | 0 <= i < n :: list[i] in f.code && !EndsBlock(f.code[list[i]].op)
  {
  }

  lemma {:induction false} RunOnPath(m: Machine, f: Function, g: Graph, run: seq<State>) returns (p: seq<nat>)
    requires WellFormed(f) && NoJz(f) && IsCFG(f, g) && IsRun(m, f, run)
    ensures OnPath(f, g, p, Last(run))
    decreases |run|
  {
    if |run| == 1 {
      OnPathStart(m, f, g, run[0]);
      p := [0];
    } else {
      var q := RunOnPath(m, f, g, run[..|run| - 1]);
      p := StepOnPath(m, f, g, q, run[|run| - 2], run[|run| - 1]);
    }
  }

  /** What dominance is for: a run that is in a block has been in every block that dominates it. */
  lemma DominatorsAreVisited(m: Machine, f: Function, g: Graph, run: seq<State>, d: nat, b: nat)
    requires WellFormed(f) && NoJz(f) && IsCFG(f, g) && IsRun(m, f, run)
    requires d < |f.order| && b < |f.order| && Dominates(g, d, b)
    requires Last(run).path != [] && Last(Last(run).path) == f.order[b]
    ensures f.order[d] in Last(run).path
  {
    var p := RunOnPath(m, f, g, run);
    OrderDistinct(f, Last(p), b);
    assert IsRoot(g, 0);
    assert RootPath(g, p, b);
    var i :| 0 <= i < |p| && p[i] == d;
    assert Last(run).path[i] == f.order[d];
  }
}
