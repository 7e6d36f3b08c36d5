/**
 The worklist engine of sparse conditional constant propagation: it ends, and it
 ends at a solution; without calls, at the finest one there is.
 */
module SparseConditional {
  import opened IR
  import opened Lattice
  import opened Erasure
  import opened PropagationSoundness

  /** The instructions using each instruction, as the use lists record them. */
  ghost predicate UseListsOf(f: Function, uses: map<Id, seq<Id>>) {
    && uses.Keys == Placed(f)
    && (forall id | id in uses :: forall j | j in uses[id] :: j in Placed(f))
    && (forall id, j | id in uses && j in Placed(f) && j in f.code && Inst(id) in f.code[j].operands :: j in uses[id])
  }

  ghost function AllEdges(f: Function): set<Edge> {
    set p, b | p in f.blocks && b in f.blocks :: (p, b)
  }

  // ----- The engine's state as a value

  datatype Snapshot = Snapshot(sol: Solution, instrs: seq<Id>, blocks: seq<BlockId>)

  /** The instruction is stable, or a worklist will bring a visit to it. */
  ghost predicate Handled(f: Function, folder: Folder, s: Snapshot, id: Id)
    requires id in f.code && TargetsExist(f, f.code[id])
  {
    || Stable(f, folder, id, s.sol.lattice, s.sol.edges)
    || id in s.instrs
    || (f.code[id].op == Phi && f.code[id].parent in s.blocks)
  }

  /** Nothing in an executable block is forgotten, apart from `exempt`. */
  ghost predicate Accounted(f: Function, folder: Folder, s: Snapshot, exempt: set<Id>)
    requires WellFormed(f)
  {
    && s.sol.blocks <= f.blocks.Keys
    && (f.order[0] in s.sol.blocks || f.order[0] in s.blocks)
    && (forall e | e in s.sol.edges :: e.1 in s.sol.blocks || e.1 in s.blocks)
    && (forall b, i | b in s.sol.blocks && 0 <= i < |f.blocks[b]| ::
          f.blocks[b][i] in exempt || Handled(f, folder, s, f.blocks[b][i]))
  }

  /** Lowering one entry keeps everything accounted for, once its users are queued. */
  lemma LoweringKeeps(f: Function, folder: Folder, s: Snapshot, s': Snapshot, id: Id, e: Entry, exempt: set<Id>)
    requires WellFormed(f) && Accounted(f, folder, s, exempt)
    requires id in s.sol.lattice
    requires s' == Snapshot(s.sol.(lattice := s.sol.lattice[id := e]), s'.instrs, s.blocks)
    requires forall j | j in s.instrs :: j in s'.instrs
    requires forall j | j in f.code && j in Placed(f) && Inst(id) in f.code[j].operands :: j in s'.instrs
    requires id in f.code && TargetsExist(f, f.code[id]) && Handled(f, folder, s', id)
    ensures Accounted(f, folder, s', exempt - {id})
  {
    forall b, i | b in s.sol.blocks && 0 <= i < |f.blocks[b]|
      ensures f.blocks[b][i] in exempt - {id} || Handled(f, folder, s', f.blocks[b][i])
    {
      var j := f.blocks[b][i];
      if j != id && j !in exempt && Inst(id) !in f.code[j].operands {
        StableLocal(f, folder, j, s.sol.lattice, s'.sol.lattice, s.sol.edges);
      } else if j != id && j !in exempt {
        assert b in f.blocks && j in f.blocks[b];
        assert j in Placed(f);
      }
    }
  }

  lemma StableLocal(f: Function, folder: Folder, j: Id, lat: map<Id, Entry>, lat': map<Id, Entry>, edges: set<Edge>)
    requires j in f.code && TargetsExist(f, f.code[j])
    requires j in lat <==> j in lat'
    requires j in lat ==> lat[j] == lat'[j]
    requires forall v | v in f.code[j].operands :: LatticeValue(v, lat) == LatticeValue(v, lat')
    ensures Stable(f, folder, j, lat, edges) <==> Stable(f, folder, j, lat', edges)
  {
    TransferLocal(f.code[j], folder, lat, edges, lat', edges);
    if IsCondBranch(f.code[j].op) {
      assert f.code[j].operands[0] in f.code[j].operands;
    }
  }

  /** Adding an edge keeps everything accounted for, once its target is queued. */
  lemma EdgeKeeps(f: Function, folder: Folder, s: Snapshot, p: BlockId, t: BlockId, exempt: set<Id>)
    requires WellFormed(f) && Accounted(f, folder, s, exempt)
    ensures Accounted(f, folder,
                      Snapshot(s.sol.(edges := s.sol.edges + {(p, t)}), s.instrs, s.blocks + [t]), exempt)
  {
    var s' := Snapshot(s.sol.(edges := s.sol.edges + {(p, t)}), s.instrs, s.blocks + [t]);
    forall b, i | b in s.sol.blocks && 0 <= i < |f.blocks[b]|
      ensures f.blocks[b][i] in exempt || Handled(f, folder, s', f.blocks[b][i])
    {
      var j := f.blocks[b][i];
      if j !in exempt && !(f.code[j].op == Phi && f.code[j].parent == t) {
        TransferLocal(f.code[j], folder, s.sol.lattice, s.sol.edges, s.sol.lattice, s'.sol.edges);
      }
    }
  }

  // ----- How far there is to fall

  ghost function Tops(lattice: map<Id, Entry>): set<Id> {
    set id | id in lattice && lattice[id].Top?
  }

  ghost function NotBottom(lattice: map<Id, Entry>): set<Id> {
    set id | id in lattice && !lattice[id].Bottom?
  }

  ghost function Potential(f: Function, lattice: map<Id, Entry>, edges: set<Edge>): nat {
    |AllEdges(f) - edges| + |Tops(lattice)| + |NotBottom(lattice)|
  }

  lemma SubsetSize<T>(a: set<T>, b: set<T>)
    requires a <= b
    ensures |a| <= |b|
    ensures a != b ==> |a| < |b|
  {
    assert b == a + (b - a);
  }

  lemma LoweringShrinks(f: Function, lattice: map<Id, Entry>, id: Id, e: Entry, edges: set<Edge>)
    requires id in lattice && Leq(lattice[id], e) && lattice[id] != e
    ensures Potential(f, lattice[id := e], edges) < Potential(f, lattice, edges)
  {
    var lattice' := lattice[id := e];
    SubsetSize(Tops(lattice'), Tops(lattice));
    SubsetSize(NotBottom(lattice'), NotBottom(lattice));
    if lattice[id].Top? {
      assert id in Tops(lattice) && id !in Tops(lattice');
    } else {
      assert id in NotBottom(lattice) && id !in NotBottom(lattice');
    }
  }

  lemma EdgeShrinks(f: Function, lattice: map<Id, Entry>, edges: set<Edge>, e: Edge)
    requires e in AllEdges(f) && e !in edges
    ensures Potential(f, lattice, edges + {e}) < Potential(f, lattice, edges)
  {
    assert e in AllEdges(f) - edges;
    SubsetSize(AllEdges(f) - (edges + {e}), AllEdges(f) - edges);
  }

  // ----- The engine stays above every solution

  ghost predicate CallFree(f: Function) {
    forall id | id in f.code :: f.code[id].op != Call
  }

  /** Everything the engine has found so far holds in every solution, and it has given up nothing without a reason. */
  ghost predicate Finest(f: Function, folder: Folder, sol: Solution) {
    Warranted(f, folder, sol) && (CallFree(f) ==> forall o | Solves(f, folder, o) :: Finer(sol, o))
  }

  /** A jump of an executable block may take the edge, as far as the lattice knows. */
  ghost predicate EdgeWarranted(f: Function, lattice: map<Id, Entry>, blocks: set<BlockId>, e: Edge) {
    exists id :: id in f.code && f.code[id].parent == e.0 && e.0 in blocks && e.0 in f.blocks && id in f.blocks[e.0]
                 && TargetsExist(f, f.code[id]) && e.1 in Successors(f.code[id], lattice)
  }

  /** No entry is lower than the operands make it, and no edge or block executable without a jump that leads there. */
  ghost predicate Warranted(f: Function, folder: Folder, sol: Solution) {
    && f.order != []
    && (forall id | id in sol.lattice && id in f.code && f.code[id].op != Call ::
          Leq(sol.lattice[id], Transfer(f.code[id], folder, sol.lattice, sol.edges)))
    && (forall id | id in sol.lattice && id in f.code && f.code[id].parent !in sol.blocks :: sol.lattice[id].Top?)
    && (forall e | e in sol.edges :: EdgeWarranted(f, sol.lattice, sol.blocks, e))
    && (forall b | b in sol.blocks :: Chained(f, sol.edges, b))
  }

  /** A chain of executable edges leads from the entry to the block. */
  ghost predicate Chained(f: Function, edges: set<Edge>, b: BlockId)
    requires f.order != []
  {
    exists path: seq<BlockId> :: IsChain(f, edges, path) && Last(path) == b
  }

  ghost predicate IsChain(f: Function, edges: set<Edge>, path: seq<BlockId>)
    requires f.order != []
  {
    path != [] && path[0] == f.order[0] && forall i | 0 < i < |path| :: (path[i - 1], path[i]) in edges
  }

  lemma ChainGrows(f: Function, edges: set<Edge>, edges': set<Edge>, b: BlockId)
    requires f.order != [] && Chained(f, edges, b) && edges <= edges'
    ensures Chained(f, edges', b)
  {
    var path: seq<BlockId> :| IsChain(f, edges, path) && Last(path) == b;
    assert IsChain(f, edges', path);
  }

  lemma ChainExtends(f: Function, edges: set<Edge>, e: Edge)
    requires f.order != [] && Chained(f, edges, e.0) && e in edges
    ensures Chained(f, edges, e.1)
  {
    var path: seq<BlockId> :| IsChain(f, edges, path) && Last(path) == e.0;
    assert IsChain(f, edges, path + [e.1]);
  }

  lemma EdgeStaysWarranted(f: Function, lat: map<Id, Entry>, lat': map<Id, Entry>, blocks: set<BlockId>,
                           blocks': set<BlockId>, e: Edge)
    requires EdgeWarranted(f, lat, blocks, e) && Falls(lat, lat') && blocks <= blocks'
    ensures EdgeWarranted(f, lat', blocks', e)
  {
    var id :| id in f.code && f.code[id].parent == e.0 && e.0 in blocks && e.0 in f.blocks && id in f.blocks[e.0]
              && TargetsExist(f, f.code[id]) && e.1 in Successors(f.code[id], lat);
    SuccessorsGrow(f, f.code[id], lat, lat');
  }

  lemma LoweringWarranted(f: Function, folder: Folder, sol: Solution, id: Id)
    requires Warranted(f, folder, sol) && id in f.code && f.code[id].parent in sol.blocks && id in sol.lattice
    ensures Warranted(f, folder, sol.(lattice := sol.lattice[id := Join(sol.lattice[id],
                                                    Transfer(f.code[id], folder, sol.lattice, sol.edges))]))
  {
    var lat := sol.lattice[id := Join(sol.lattice[id], Transfer(f.code[id], folder, sol.lattice, sol.edges))];
    hide Transfer, EdgeWarranted, Chained;
    forall j | j in lat && j in f.code && f.code[j].op != Call
      ensures Leq(lat[j], Transfer(f.code[j], folder, lat, sol.edges))
    {
      TransferFalls(f.code[j], folder, sol.lattice, sol.edges, lat, sol.edges);
    }
    forall e | e in sol.edges
      ensures EdgeWarranted(f, lat, sol.blocks, e)
    {
      EdgeStaysWarranted(f, sol.lattice, lat, sol.blocks, sol.blocks, e);
    }
  }

  lemma EdgeAddedWarranted(f: Function, folder: Folder, sol: Solution, id: Id, t: BlockId)
    requires Warranted(f, folder, sol) && id in f.code && f.code[id].parent in sol.blocks
    requires f.code[id].parent in f.blocks && id in f.blocks[f.code[id].parent]
    requires TargetsExist(f, f.code[id]) && t in Successors(f.code[id], sol.lattice)
    ensures Warranted(f, folder, sol.(edges := sol.edges + {(f.code[id].parent, t)}))
  {
    var e := (f.code[id].parent, t);
    assert EdgeWarranted(f, sol.lattice, sol.blocks, e);
    hide Transfer, EdgeWarranted, Chained;
    forall j | j in sol.lattice && j in f.code && f.code[j].op != Call
      ensures Leq(sol.lattice[j], Transfer(f.code[j], folder, sol.lattice, sol.edges + {e}))
    {
      TransferFalls(f.code[j], folder, sol.lattice, sol.edges, sol.lattice, sol.edges + {e});
    }
    forall b | b in sol.blocks
      ensures Chained(f, sol.edges + {e}, b)
    {
      ChainGrows(f, sol.edges, sol.edges + {e}, b);
    }
  }

  lemma BlockAddedWarranted(f: Function, folder: Folder, sol: Solution, b: BlockId)
    requires Warranted(f, folder, sol) && Reached(f, sol.edges, b)
    ensures Warranted(f, folder, sol.(blocks := sol.blocks + {b}))
  {
    hide Transfer;
    if b == f.order[0] {
      assert IsChain(f, sol.edges, [b]);
    } else {
      var p :| (p, b) in sol.edges;
      assert EdgeWarranted(f, sol.lattice, sol.blocks, (p, b));
      ChainExtends(f, sol.edges, (p, b));
    }
    hide EdgeWarranted, Chained, Reached;
    forall e | e in sol.edges
      ensures EdgeWarranted(f, sol.lattice, sol.blocks + {b}, e)
    {
      EdgeStaysWarranted(f, sol.lattice, sol.lattice, sol.blocks, sol.blocks + {b}, e);
    }
  }

  lemma SolutionStable(f: Function, folder: Folder, o: Solution, id: Id)
    requires Solves(f, folder, o)
    requires id in f.code && f.code[id].parent in o.blocks && id in f.blocks[f.code[id].parent]
    ensures Stable(f, folder, id, o.lattice, o.edges)
  {
    var b := f.code[id].parent;
    var i :| 0 <= i < |f.blocks[b]| && f.blocks[b][i] == id;
  }

  lemma LoweringStaysFinest(f: Function, folder: Folder, sol: Solution, id: Id)
    requires WellFormed(f) && Finest(f, folder, sol)
    requires id in f.code && f.code[id].parent in sol.blocks
    requires f.code[id].parent in f.blocks && id in f.blocks[f.code[id].parent]
    requires !IsJump(f.code[id].op) && id in sol.lattice && f.code[id].ty != 0
    ensures Finest(f, folder, sol.(lattice := sol.lattice[id := Join(sol.lattice[id],
                                                    Transfer(f.code[id], folder, sol.lattice, sol.edges))]))
  {
    LoweringWarranted(f, folder, sol, id);
    if CallFree(f) {
      hide Warranted, Transfer, Solves, Finer, Join;
      forall o | Solves(f, folder, o)
        ensures Finer(sol.(lattice := sol.lattice[id := Join(sol.lattice[id],
                                                    Transfer(f.code[id], folder, sol.lattice, sol.edges))]), o)
      {
        LoweringStaysFiner(f, folder, sol, id, o);
      }
    }
  }

  lemma LoweringStaysFiner(f: Function, folder: Folder, sol: Solution, id: Id, o: Solution)
    requires WellFormed(f) && CallFree(f) && Solves(f, folder, o) && Finer(sol, o)
    requires id in f.code && f.code[id].parent in sol.blocks
    requires f.code[id].parent in f.blocks && id in f.blocks[f.code[id].parent]
    requires !IsJump(f.code[id].op) && id in sol.lattice && f.code[id].ty != 0
    ensures Finer(sol.(lattice := sol.lattice[id := Join(sol.lattice[id],
                                                    Transfer(f.code[id], folder, sol.lattice, sol.edges))]), o)
  {
    hide Transfer;
    SolutionStable(f, folder, o, id);
    TransferFalls(f.code[id], folder, sol.lattice, sol.edges, o.lattice, o.edges);
  }

  lemma EdgeStaysFinest(f: Function, folder: Folder, sol: Solution, id: Id, t: BlockId)
    requires WellFormed(f) && Finest(f, folder, sol)
    requires id in f.code && f.code[id].parent in sol.blocks
    requires f.code[id].parent in f.blocks && id in f.blocks[f.code[id].parent]
    requires IsJump(f.code[id].op) && TargetsExist(f, f.code[id]) && t in Successors(f.code[id], sol.lattice)
    ensures Finest(f, folder, sol.(edges := sol.edges + {(f.code[id].parent, t)}))
  {
    EdgeAddedWarranted(f, folder, sol, id, t);
    hide Warranted;
    if CallFree(f) {
      forall o | Solves(f, folder, o)
        ensures Finer(sol.(edges := sol.edges + {(f.code[id].parent, t)}), o)
      {
        SolutionStable(f, folder, o, id);
        SuccessorsGrow(f, f.code[id], sol.lattice, o.lattice);
      }
    }
  }

  // ----- What every step of the engine keeps

  /** The in-worklist set mirrors the instruction worklist, which holds nothing twice. */
  ghost predicate QueueOk(queue: seq<Id>, queued: set<Id>) {
    && (forall id :: id in queued <==> id in queue)
    && (forall i, j | 0 <= i < j < |queue| :: queue[i] != queue[j])
  }

  /** The block is the entry or has an executable edge into it. */
  ghost predicate Reached(f: Function, edges: set<Edge>, b: BlockId)
    requires f.order != []
  {
    b == f.order[0] || exists p :: (p, b) in edges
  }

  ghost predicate Shape(f: Function, uses: map<Id, seq<Id>>, s: Snapshot) {
    && WellFormed(f) && UseListsOf(f, uses)
    && s.sol.lattice.Keys == ValueIds(f)
    && (forall id | id in s.instrs :: id in Placed(f))
    && (forall b | b in s.blocks :: b in f.blocks && Reached(f, s.sol.edges, b))
    && s.sol.blocks <= f.blocks.Keys
    && s.sol.edges <= AllEdges(f)
  }

  ghost predicate Inv(f: Function, folder: Folder, uses: map<Id, seq<Id>>, s: Snapshot, exempt: set<Id>) {
    Shape(f, uses, s) && Accounted(f, folder, s, exempt) && Finest(f, folder, s.sol)
  }

  /** What a visit may do to the state: entries fall, edges and queues grow, and nothing is queued for free. */
  ghost predicate Advances(f: Function, s: Snapshot, s': Snapshot) {
    && s'.sol.blocks == s.sol.blocks
    && Falls(s.sol.lattice, s'.sol.lattice) && s.sol.edges <= s'.sol.edges
    && (|| Potential(f, s'.sol.lattice, s'.sol.edges) < Potential(f, s.sol.lattice, s.sol.edges)
        || s' == s)
  }

  lemma InvParts(f: Function, folder: Folder, uses: map<Id, seq<Id>>, s: Snapshot, exempt: set<Id>)
    requires Inv(f, folder, uses, s, exempt)
    ensures WellFormed(f) && Shape(f, uses, s) && Accounted(f, folder, s, exempt) && Finest(f, folder, s.sol)
  {
  }

  lemma AdvancesTransitive(f: Function, s: Snapshot, s': Snapshot, s'': Snapshot)
    requires Advances(f, s, s') && Advances(f, s', s'')
    ensures Advances(f, s, s'')
  {
  }

  lemma AdvancesReflexive(f: Function, s: Snapshot)
    ensures Advances(f, s, s)
  {
  }

  /** The instruction may be visited: it stands in a block found executable. */
  ghost predicate Visitable(f: Function, s: Snapshot, id: Id) {
    && id in Placed(f) && id in f.code && TargetsExist(f, f.code[id])
    && f.code[id].parent in s.sol.blocks
    && f.code[id].parent in f.blocks && id in f.blocks[f.code[id].parent]
    && (f.code[id].ty != 0 ==> id in ValueIds(f))
  }

  lemma InBlock(f: Function, s: Snapshot, id: Id)
    requires WellFormed(f) && id in Placed(f)
    ensures id in f.code
    ensures f.code[id].parent in s.sol.blocks ==> Visitable(f, s, id)
  {
    var b :| b in f.blocks && id in f.blocks[b];
    var i :| 0 <= i < |f.blocks[b]| && f.blocks[b][i] == id;
  }

  /** A stable instruction needs no exemption. */
  lemma Settle(f: Function, folder: Folder, uses: map<Id, seq<Id>>, s: Snapshot, id: Id, exempt: set<Id>)
    requires Inv(f, folder, uses, s, exempt) && Visitable(f, s, id)
    requires Stable(f, folder, id, s.sol.lattice, s.sol.edges)
    ensures Inv(f, folder, uses, s, exempt - {id}) && Advances(f, s, s)
  {
  }

  /** After its entry has been lowered an instruction is stable, unless it uses itself and so is queued. */
  lemma Revisited(f: Function, folder: Folder, uses: map<Id, seq<Id>>, id: Id, lat: map<Id, Entry>, e: Entry,
                  edges: set<Edge>, queue: seq<Id>)
    requires UseListsOf(f, uses) && id in Placed(f)
    requires id in lat && id in f.code && !IsJump(f.code[id].op) && TargetsExist(f, f.code[id])
    requires Leq(Transfer(f.code[id], folder, lat, edges), e)
    requires forall j | j in uses[id] :: j in queue
    ensures id in queue || Stable(f, folder, id, lat[id := e], edges)
  {
    if Inst(id) !in f.code[id].operands {
      TransferLocal(f.code[id], folder, lat, edges, lat[id := e], edges);
    }
  }

  /** A queue after the users of an instruction have been put in it. */
  ghost predicate Enqueued(queue: seq<Id>, queue': seq<Id>, users: seq<Id>) {
    && (forall j | j in queue :: j in queue')
    && (forall j | j in users :: j in queue')
    && (forall j | j in queue' :: j in queue || j in users)
  }

  lemma UpdateInv(f: Function, folder: Folder, uses: map<Id, seq<Id>>, s: Snapshot, s': Snapshot, id: Id,
                  exempt: set<Id>)
    requires Inv(f, folder, uses, s, exempt) && Visitable(f, s, id)
    requires !IsJump(f.code[id].op) && f.code[id].ty != 0 && id in uses && id in s.sol.lattice
    requires var e := Join(s.sol.lattice[id], Transfer(f.code[id], folder, s.sol.lattice, s.sol.edges));
             && e != s.sol.lattice[id]
             && s' == Snapshot(s.sol.(lattice := s.sol.lattice[id := e]), s'.instrs, s.blocks)
    requires Enqueued(s.instrs, s'.instrs, uses[id])
    ensures Inv(f, folder, uses, s', exempt - {id}) && Advances(f, s, s')
  {
    hide *;
    InvParts(f, folder, uses, s, exempt);
    VisitableFacts(f, uses, s, id);
    var e := Join(s.sol.lattice[id], Transfer(f.code[id], folder, s.sol.lattice, s.sol.edges));
    UpdateShape(f, uses, s, s', id, e);
    UpdateHandled(f, folder, uses, s, s', id, e);
    LoweringFinest(f, folder, s, id);
    UpdateAccounted(f, folder, uses, s, s', id, e, exempt);
    InvWhole(f, folder, uses, s', exempt - {id});
  }

  lemma InvWhole(f: Function, folder: Folder, uses: map<Id, seq<Id>>, s: Snapshot, exempt: set<Id>)
    requires Shape(f, uses, s) && Accounted(f, folder, s, exempt) && Finest(f, folder, s.sol)
    ensures Inv(f, folder, uses, s, exempt)
  {
  }

  lemma UpdateShape(f: Function, uses: map<Id, seq<Id>>, s: Snapshot, s': Snapshot, id: Id, e: Entry)
    requires Shape(f, uses, s) && id in uses && id in s.sol.lattice
    requires s' == Snapshot(s.sol.(lattice := s.sol.lattice[id := e]), s'.instrs, s.blocks)
    requires Enqueued(s.instrs, s'.instrs, uses[id])
    requires Leq(s.sol.lattice[id], e) && e != s.sol.lattice[id]
    ensures Shape(f, uses, s') && Advances(f, s, s')
  {
    hide UseListsOf, WellFormed, ValueIds, Placed, AllEdges, Reached, Potential;
    UseListsPlaced(f, uses, id);
    LoweringShrinks(f, s.sol.lattice, id, e, s.sol.edges);
  }

  lemma UseListsPlaced(f: Function, uses: map<Id, seq<Id>>, id: Id)
    requires UseListsOf(f, uses) && id in uses
    ensures forall j | j in uses[id] :: j in Placed(f)
  {
  }

  lemma UpdateHandled(f: Function, folder: Folder, uses: map<Id, seq<Id>>, s: Snapshot, s': Snapshot, id: Id, e: Entry)
    requires Shape(f, uses, s) && Visitable(f, s, id) && id in uses && id in s.sol.lattice
    requires !IsJump(f.code[id].op)
    requires e == Join(s.sol.lattice[id], Transfer(f.code[id], folder, s.sol.lattice, s.sol.edges))
    requires s' == Snapshot(s.sol.(lattice := s.sol.lattice[id := e]), s'.instrs, s.blocks)
    requires Enqueued(s.instrs, s'.instrs, uses[id])
    ensures Leq(s.sol.lattice[id], e) && Handled(f, folder, s', id)
  {
    Revisited(f, folder, uses, id, s.sol.lattice, e, s.sol.edges, s'.instrs);
  }

  lemma LoweringFinest(f: Function, folder: Folder, s: Snapshot, id: Id)
    requires WellFormed(f) && Finest(f, folder, s.sol) && Visitable(f, s, id)
    requires !IsJump(f.code[id].op) && id in s.sol.lattice && f.code[id].ty != 0
    ensures Finest(f, folder, s.sol.(lattice := s.sol.lattice[id := Join(s.sol.lattice[id],
                                                    Transfer(f.code[id], folder, s.sol.lattice, s.sol.edges))]))
  {
    LoweringStaysFinest(f, folder, s.sol, id);
  }

  lemma UpdateAccounted(f: Function, folder: Folder, uses: map<Id, seq<Id>>, s: Snapshot, s': Snapshot, id: Id,
                        e: Entry, exempt: set<Id>)
    requires Shape(f, uses, s) && Accounted(f, folder, s, exempt) && Visitable(f, s, id)
    requires id in uses && id in s.sol.lattice && Handled(f, folder, s', id)
    requires s' == Snapshot(s.sol.(lattice := s.sol.lattice[id := e]), s'.instrs, s.blocks)
    requires Enqueued(s.instrs, s'.instrs, uses[id])
    ensures Accounted(f, folder, s', exempt - {id})
  {
    hide Accounted, Handled;
    LoweringKeeps(f, folder, s, s', id, e, exempt);
  }

  lemma NoUpdateInv(f: Function, folder: Folder, uses: map<Id, seq<Id>>, s: Snapshot, id: Id, exempt: set<Id>)
    requires Inv(f, folder, uses, s, exempt) && Visitable(f, s, id)
    requires !IsJump(f.code[id].op)
    requires f.code[id].ty != 0 ==> id in s.sol.lattice
    requires f.code[id].ty != 0 ==> Leq(Transfer(f.code[id], folder, s.sol.lattice, s.sol.edges), s.sol.lattice[id])
    ensures Inv(f, folder, uses, s, exempt - {id}) && Advances(f, s, s)
  {
    Settle(f, folder, uses, s, id, exempt);
  }

  lemma AddEdgeInv(f: Function, folder: Folder, uses: map<Id, seq<Id>>, s: Snapshot, id: Id, t: BlockId,
                   exempt: set<Id>)
    requires Inv(f, folder, uses, s, exempt) && Visitable(f, s, id)
    requires IsJump(f.code[id].op) && t in Successors(f.code[id], s.sol.lattice)
    requires (f.code[id].parent, t) !in s.sol.edges
    ensures var s' := Snapshot(s.sol.(edges := s.sol.edges + {(f.code[id].parent, t)}), s.instrs, s.blocks + [t]);
            Inv(f, folder, uses, s', exempt) && Advances(f, s, s')
  {
    EdgeKeeps(f, folder, s, f.code[id].parent, t, exempt);
    EdgeStaysFinest(f, folder, s.sol, id, t);
    EdgeShape(f, uses, s, id, t);
  }

  lemma EdgeShape(f: Function, uses: map<Id, seq<Id>>, s: Snapshot, id: Id, t: BlockId)
    requires Shape(f, uses, s) && Visitable(f, s, id)
    requires IsJump(f.code[id].op) && t in Successors(f.code[id], s.sol.lattice)
    requires (f.code[id].parent, t) !in s.sol.edges
    ensures var s' := Snapshot(s.sol.(edges := s.sol.edges + {(f.code[id].parent, t)}), s.instrs, s.blocks + [t]);
            Shape(f, uses, s') && Advances(f, s, s')
  {
    hide *;
    EdgeInFunction(f, uses, s, id, t);
    var e := (f.code[id].parent, t);
    EdgeShrinks(f, s.sol.lattice, s.sol.edges, e);
    forall b
      ensures Reached(f, s.sol.edges, b) || b == t ==> Reached(f, s.sol.edges + {e}, b)
    {
      ReachedGrows(f, s.sol.edges, e, b);
    }
    EdgeShapeWhole(f, uses, s, e);
  }

  lemma EdgeShapeWhole(f: Function, uses: map<Id, seq<Id>>, s: Snapshot, e: Edge)
    requires Shape(f, uses, s) && e in AllEdges(f) && e.1 in f.blocks && f.order != []
    requires forall b :: Reached(f, s.sol.edges, b) || b == e.1 ==> Reached(f, s.sol.edges + {e}, b)
    requires Potential(f, s.sol.lattice, s.sol.edges + {e}) < Potential(f, s.sol.lattice, s.sol.edges)
    ensures var s' := Snapshot(s.sol.(edges := s.sol.edges + {e}), s.instrs, s.blocks + [e.1]);
            Shape(f, uses, s') && Advances(f, s, s')
  {
    hide UseListsOf, WellFormed, Reached, Potential, AllEdges;
  }

  lemma SuccessorInside(f: Function, instr: Instr, lattice: map<Id, Entry>, t: BlockId)
    requires TargetsExist(f, instr) && t in Successors(instr, lattice)
    ensures t in f.blocks
  {
  }

  lemma EdgeInFunction(f: Function, uses: map<Id, seq<Id>>, s: Snapshot, id: Id, t: BlockId)
    requires Shape(f, uses, s) && Visitable(f, s, id)
    requires IsJump(f.code[id].op) && t in Successors(f.code[id], s.sol.lattice)
    ensures id in f.code && t in f.blocks && (f.code[id].parent, t) in AllEdges(f) && f.order != []
  {
    hide UseListsOf, Reached, PhisLead, ValueIds, Placed, Successors;
    SuccessorInside(f, f.code[id], s.sol.lattice, t);
  }

  lemma ReachedGrows(f: Function, edges: set<Edge>, e: Edge, b: BlockId)
    requires f.order != []
    ensures Reached(f, edges, b) || b == e.1 ==> Reached(f, edges + {e}, b)
  {
    if b == e.1 {
      assert (e.0, b) in edges + {e};
    } else if Reached(f, edges, b) && b != f.order[0] {
      var p :| (p, b) in edges;
      assert (p, b) in edges + {e};
    }
  }

  lemma LatticeSet(lattice: map<Id, Entry>, id: Id, val: Entry)
    requires id in lattice && lattice[id := Join(lattice[id], val)] != lattice
    ensures Join(lattice[id], val) != lattice[id]
  {
    assert lattice[id := lattice[id]] == lattice;
  }

  lemma LatticeKept(lattice: map<Id, Entry>, id: Id, val: Entry, ty: nat)
    requires ty != 0 ==> id in lattice && lattice[id := Join(lattice[id], val)] == lattice
    ensures ty != 0 ==> Leq(val, lattice[id])
  {
    if ty != 0 {
      assert lattice[id := Join(lattice[id], val)][id] == lattice[id];
    }
  }

  /** The cases of the transfer of a value instruction. */
  lemma TransferCases(instr: Instr, folder: Folder, lattice: map<Id, Entry>, edges: set<Edge>)
    ensures Transfer(instr, folder, lattice, edges)
         == if instr.op == Phi then PhiValue(instr.operands, instr.parent, lattice, edges, 0, Top)
            else if instr.op == Call then CallValue(instr.operands, lattice, folder)
            else if AlwaysBottom(instr.op) then Bottom
            else if instr.operands == [] then Top
            else OperationValue(instr, folder, lattice)
    ensures instr.op == Phi || instr.op == Call || AlwaysBottom(instr.op) ==> !IsJump(instr.op)
  {
  }

  lemma BranchCases(f: Function, instr: Instr, lattice: map<Id, Entry>)
    requires TargetsExist(f, instr)
    ensures instr.op == Jmp ==>
              && IsJump(instr.op) && |instr.operands| > 0 && instr.operands[0].Blk?
              && Successors(instr, lattice) == {instr.operands[0].block}
    ensures IsCondBranch(instr.op) ==>
              && IsJump(instr.op) && |instr.operands| == 3 && instr.operands[1].Blk? && instr.operands[2].Blk?
              && Successors(instr, lattice) ==
                 match LatticeValue(instr.operands[0], lattice)
                 case Top => {}
                 case Constant(w) => {BranchTarget(instr, w)}
                 case Bottom => {instr.operands[1].block, instr.operands[2].block}
    ensures instr.op != Jmp && !IsCondBranch(instr.op) <==> !IsJump(instr.op)
  {
  }

  lemma JumpStable(f: Function, folder: Folder, id: Id, lattice: map<Id, Entry>, edges: set<Edge>)
    requires id in f.code && TargetsExist(f, f.code[id]) && IsJump(f.code[id].op)
    requires forall b | b in Successors(f.code[id], lattice) :: (f.code[id].parent, b) in edges
    ensures Stable(f, folder, id, lattice, edges)
  {
  }

  lemma VisitableFacts(f: Function, uses: map<Id, seq<Id>>, s: Snapshot, id: Id)
    requires Visitable(f, s, id)
    ensures id in f.code && TargetsExist(f, f.code[id])
    ensures Shape(f, uses, s) ==> id in uses && (f.code[id].ty != 0 ==> id in s.sol.lattice)
  {
  }

  lemma StillVisitable(f: Function, s: Snapshot, s': Snapshot, id: Id)
    requires Visitable(f, s, id) && Advances(f, s, s')
    ensures Visitable(f, s', id)
  {
  }

  lemma SettleAfter(f: Function, folder: Folder, uses: map<Id, seq<Id>>, s: Snapshot, s': Snapshot, id: Id,
                    exempt: set<Id>)
    requires Visitable(f, s, id) && Advances(f, s, s')
    requires Inv(f, folder, uses, s', exempt) && Stable(f, folder, id, s'.sol.lattice, s'.sol.edges)
    ensures Inv(f, folder, uses, s', exempt - {id})
  {
    Settle(f, folder, uses, s', id, exempt);
  }

  lemma NothingToDo(f: Function, folder: Folder, uses: map<Id, seq<Id>>, s: Snapshot, id: Id, exempt: set<Id>)
    requires Inv(f, folder, uses, s, exempt) && Visitable(f, s, id)
    requires !IsJump(f.code[id].op) && Transfer(f.code[id], folder, s.sol.lattice, s.sol.edges).Top?
    ensures Inv(f, folder, uses, s, exempt - {id}) && Advances(f, s, s)
  {
    Settle(f, folder, uses, s, id, exempt);
  }

  // ----- Taking work off the queues

  lemma DequeueShape(f: Function, uses: map<Id, seq<Id>>, s: Snapshot, s': Snapshot)
    requires Shape(f, uses, s) && s'.sol.lattice == s.sol.lattice && s'.sol.edges == s.sol.edges
    requires forall id | id in s'.instrs :: id in s.instrs
    requires forall b | b in s'.blocks :: b in s.blocks
    requires forall b | b in s'.sol.blocks :: b in s.sol.blocks || b in s.blocks
    ensures Shape(f, uses, s')
  {
  }

  /** A block met for the first time becomes executable, and all its instructions are due. */
  lemma PopFirst(f: Function, folder: Folder, uses: map<Id, seq<Id>>, s: Snapshot, exempt: set<Id>)
    requires Inv(f, folder, uses, s, {}) && s.blocks != []
    requires var b := Last(s.blocks); b in f.blocks && forall id | id in f.blocks[b] :: id in exempt
    ensures var s' := Snapshot(s.sol.(blocks := s.sol.blocks + {Last(s.blocks)}), s.instrs, s.blocks[..|s.blocks| - 1]);
            Inv(f, folder, uses, s', exempt)
  {
    var bb := Last(s.blocks);
    var s' := Snapshot(s.sol.(blocks := s.sol.blocks + {bb}), s.instrs, s.blocks[..|s.blocks| - 1]);
    DequeueShape(f, uses, s, s');
    PopAccounted(f, folder, s, s', exempt);
    FinestGrows(f, folder, s.sol, bb);
  }

  lemma FinestGrows(f: Function, folder: Folder, sol: Solution, b: BlockId)
    requires f.order != [] && Reached(f, sol.edges, b) && Finest(f, folder, sol)
    ensures Finest(f, folder, sol.(blocks := sol.blocks + {b}))
  {
    BlockAddedWarranted(f, folder, sol, b);
    hide Warranted;
    if CallFree(f) {
      forall o | Solves(f, folder, o)
        ensures Finer(sol.(blocks := sol.blocks + {b}), o)
      {
        if b != f.order[0] {
          var p :| (p, b) in sol.edges;
          assert (p, b) in o.edges;
        }
      }
    }
  }

  lemma PopAccounted(f: Function, folder: Folder, s: Snapshot, s': Snapshot, exempt: set<Id>)
    requires WellFormed(f) && Accounted(f, folder, s, {}) && s.blocks != [] && Last(s.blocks) in f.blocks
    requires var bb := Last(s.blocks);
             && s' == Snapshot(s.sol.(blocks := s.sol.blocks + {bb}), s.instrs, s.blocks[..|s.blocks| - 1])
             && (forall id | id in f.blocks[bb] && id in f.code && (f.code[id].op == Phi || bb !in s.sol.blocks) ::
                   id in exempt)
    ensures Accounted(f, folder, s', exempt)
  {
    var bb := Last(s.blocks);
    assert forall b | b in s.blocks :: b in s'.blocks || b == bb;
    forall b, i | b in s'.sol.blocks && 0 <= i < |f.blocks[b]|
      ensures f.blocks[b][i] in exempt || Handled(f, folder, s', f.blocks[b][i])
    {
      var id := f.blocks[b][i];
      if b in s.sol.blocks {
        assert Handled(f, folder, s, id);
      }
    }
  }

  /** A block met again has a new edge into it, which only its phis can feel. */
  lemma PopAgain(f: Function, folder: Folder, uses: map<Id, seq<Id>>, s: Snapshot, exempt: set<Id>)
    requires Inv(f, folder, uses, s, {}) && s.blocks != [] && Last(s.blocks) in s.sol.blocks
    requires var b := Last(s.blocks);
             b in f.blocks && forall id | id in f.blocks[b] && id in f.code && f.code[id].op == Phi :: id in exempt
    ensures Inv(f, folder, uses, s.(blocks := s.blocks[..|s.blocks| - 1]), exempt)
  {
    var s' := s.(blocks := s.blocks[..|s.blocks| - 1]);
    assert s.sol.blocks + {Last(s.blocks)} == s.sol.blocks;
    assert s' == Snapshot(s.sol.(blocks := s.sol.blocks + {Last(s.blocks)}), s.instrs, s.blocks[..|s.blocks| - 1]);
    DequeueShape(f, uses, s, s');
    PopAccounted(f, folder, s, s', exempt);
  }

  lemma PopInstr(f: Function, folder: Folder, uses: map<Id, seq<Id>>, s: Snapshot)
    requires Inv(f, folder, uses, s, {}) && s.instrs != []
    ensures var s' := s.(instrs := s.instrs[..|s.instrs| - 1]);
            var id := Last(s.instrs);
            && Inv(f, folder, uses, s', {id}) && id in f.code
            && (if f.code[id].parent in s.sol.blocks then Visitable(f, s', id) else Inv(f, folder, uses, s', {}))
  {
    var s' := s.(instrs := s.instrs[..|s.instrs| - 1]);
    DequeueShape(f, uses, s, s');
    InBlock(f, s', Last(s.instrs));
    PopInstrAccounted(f, folder, s);
  }

  lemma PopInstrAccounted(f: Function, folder: Folder, s: Snapshot)
    requires WellFormed(f) && Accounted(f, folder, s, {}) && s.instrs != [] && Last(s.instrs) in f.code
    ensures var s' := s.(instrs := s.instrs[..|s.instrs| - 1]);
            var id := Last(s.instrs);
            && Accounted(f, folder, s', {id})
            && (f.code[id].parent !in s.sol.blocks ==> Accounted(f, folder, s', {}))
  {
    hide Stable, TargetsExist;
    var s' := s.(instrs := s.instrs[..|s.instrs| - 1]);
    var id := Last(s.instrs);
    assert forall j | j in s.instrs :: j in s'.instrs || j == id;
    forall b, i | b in s'.sol.blocks && 0 <= i < |f.blocks[b]|
      ensures f.blocks[b][i] == id || Handled(f, folder, s', f.blocks[b][i])
    {
      assert Handled(f, folder, s, f.blocks[b][i]);
    }
  }

  lemma RestOfList(list: seq<Id>, k: nat, left: set<Id>)
    requires k < |list| && forall id | id in left :: id in list[k..]
    ensures forall id | id in left - {list[k]} :: id in list[k + 1..]
  {
    assert list[k..] == [list[k]] + list[k + 1..];
  }

  lemma VisitableInBlock(f: Function, folder: Folder, uses: map<Id, seq<Id>>, s: Snapshot, exempt: set<Id>,
                         b: BlockId, i: nat)
    requires Inv(f, folder, uses, s, exempt) && b in s.sol.blocks && b in f.blocks && i < |f.blocks[b]|
    ensures Visitable(f, s, f.blocks[b][i])
  {
    var id := f.blocks[b][i];
    assert id in f.blocks[b];
    InBlock(f, s, id);
  }

  /** With both queues empty nothing is left to do. */
  lemma Drained(f: Function, folder: Folder, uses: map<Id, seq<Id>>, s: Snapshot)
    requires Inv(f, folder, uses, s, {}) && s.instrs == [] && s.blocks == []
    ensures Solves(f, folder, s.sol) && Finest(f, folder, s.sol)
  {
    forall b, i | b in s.sol.blocks && 0 <= i < |f.blocks[b]|
      ensures Stable(f, folder, f.blocks[b][i], s.sol.lattice, s.sol.edges)
    {
      assert Handled(f, folder, s, f.blocks[b][i]);
    }
  }

  lemma Started(f: Function, folder: Folder, uses: map<Id, seq<Id>>, s: Snapshot)
    requires WellFormed(f) && UseListsOf(f, uses)
    requires s.sol.lattice.Keys == ValueIds(f) && forall id | id in s.sol.lattice :: s.sol.lattice[id] == Top
    requires s.sol.edges == {} && s.sol.blocks == {} && s.instrs == [] && s.blocks == [f.order[0]]
    ensures Inv(f, folder, uses, s, {})
  {
    assert f.order[0] in f.order;
  }

  ghost function PhisOf(f: Function, b: BlockId): set<Id>
    requires b in f.blocks
  {
    set id | id in f.blocks[b] && id in f.code && f.code[id].op == Phi
  }

  /** Past the first instruction that is not a phi there are no more phis. */
  lemma PhisOver(f: Function, folder: Folder, uses: map<Id, seq<Id>>, s: Snapshot, b: BlockId, k: nat, left: set<Id>)
    requires Inv(f, folder, uses, s, left) && b in f.blocks && k < |f.blocks[b]|
    requires f.blocks[b][k] in f.code && f.code[f.blocks[b][k]].op != Phi
    requires forall id | id in left :: id in f.code && f.code[id].op == Phi && id in f.blocks[b][k..]
    ensures left == {} && Inv(f, folder, uses, s, {})
  {
    hide Accounted, Finest;
    forall id | id in f.blocks[b][k..] && id in f.code
      ensures f.code[id].op != Phi
    {
      var j :| k <= j < |f.blocks[b]| && f.blocks[b][j] == id;
    }
  }

  lemma AdvancesBlocks(f: Function, s: Snapshot, s': Snapshot)
    requires Advances(f, s, s')
    ensures s'.sol.blocks == s.sol.blocks
  {
  }

  lemma AdvancesPotential(f: Function, s: Snapshot, s': Snapshot)
    requires Advances(f, s, s')
    ensures Potential(f, s'.sol.lattice, s'.sol.edges) < Potential(f, s.sol.lattice, s.sol.edges) || s' == s
  {
  }

  lemma QueuedBlock(f: Function, folder: Folder, uses: map<Id, seq<Id>>, s: Snapshot)
    requires Inv(f, folder, uses, s, {}) && s.blocks != []
    ensures s.blocks[|s.blocks| - 1] == Last(s.blocks) && Last(s.blocks) in f.blocks
    ensures forall id | id in f.blocks[Last(s.blocks)] :: id in f.code
    ensures forall id | id in PhisOf(f, Last(s.blocks)) ::
              id in f.blocks[Last(s.blocks)] && id in f.code && f.code[id].op == Phi
    ensures forall id | id in f.blocks[Last(s.blocks)] && id in f.code && f.code[id].op == Phi ::
              id in PhisOf(f, Last(s.blocks))
  {
  }

  lemma HasEntry(f: Function)
    requires WellFormed(f)
    ensures f.order != []
  {
  }

  lemma QueueEmpty()
    ensures QueueOk([], {})
  {
  }

  lemma QueuePop(queue: seq<Id>, queued: set<Id>)
    requires QueueOk(queue, queued) && queue != []
    ensures queue[|queue| - 1] == Last(queue)
    ensures QueueOk(queue[..|queue| - 1], queued - {Last(queue)})
  {
    assert queue == queue[..|queue| - 1] + [Last(queue)];
  }

  lemma FinestMeans(f: Function, folder: Folder, sol: Solution)
    requires Finest(f, folder, sol)
    ensures Warranted(f, folder, sol)
    ensures CallFree(f) ==> forall o | Solves(f, folder, o) :: Finer(sol, o)
  {
  }

  // ----- Replacing one constant after the other

  lemma {:induction false} KeepTwice(list: seq<Id>, a: set<Id>, b: set<Id>)
    ensures Keep(Keep(list, a), b) == Keep(list, a + b)
  {
    if list != [] {
      KeepTwice(list[1..], a, b);
      KeepConcat(if list[0] in a then [] else [list[0]], Keep(list[1..], a), b);
    }
  }

  lemma {:induction false} KeepOthers(list: seq<Id>, a: set<Id>, id: Id)
    requires id !in list
    ensures Keep(list, a + {id}) == Keep(list, a)
  {
    if list != [] {
      KeepOthers(list[1..], a, id);
    }
  }

  /** Replaces the uses of one instruction and takes it out of its block. */
  function ReplaceAndErase(g: Function, b: BlockId, id: Id, w: Word): Function
    requires b in g.blocks
  {
    Function(g.order,
             g.blocks[b := Keep(g.blocks[b], {id})],
             map j | j in g.code :: g.code[j].(operands := SubstAll(g.code[j].operands, map[id := w])))
  }

  lemma ReplaceOneMore(f: Function, plan: Plan, b: BlockId, id: Id, w: Word)
    requires b in f.blocks && id !in plan.subst
    requires forall b' | b' in f.blocks && b' != b :: id !in f.blocks[b']
    ensures ReplaceAndErase(Rewrite(f, plan), b, id, w)
         == Rewrite(f, Plan(plan.dead + {id}, plan.subst[id := w]))
  {
    hide Keep;
    var plan' := Plan(plan.dead + {id}, plan.subst[id := w]);
    var g, g' := ReplaceAndErase(Rewrite(f, plan), b, id, w), Rewrite(f, plan');
    forall b' | b' in f.blocks
      ensures g.blocks[b'] == g'.blocks[b']
    {
      KeepTwice(f.blocks[b'], plan.dead, {id});
      if b' != b { KeepOthers(f.blocks[b'], plan.dead, id); }
    }
    forall j | j in f.code
      ensures g.code[j] == g'.code[j]
    {
      SubstTwice(f.code[j].operands, plan.subst, id, w);
    }
  }

  lemma SubstTwice(vs: seq<Value>, subst: map<Id, Word>, id: Id, w: Word)
    requires id !in subst
    ensures SubstAll(SubstAll(vs, subst), map[id := w]) == SubstAll(vs, subst[id := w])
  {
  }

  /** The plan replaces constants only, each by its own word. */
  ghost predicate Partial(f: Function, sol: Solution, plan: Plan) {
    && plan.dead <= ConstantPlan(f, sol).dead
    && plan.subst.Keys == plan.dead
    && forall id | id in plan.dead :: plan.subst[id] == ConstantPlan(f, sol).subst[id]
  }

  /** What has been replaced before the k-th block is looked at. */
  ghost predicate ReplacedBefore(f: Function, sol: Solution, plan: Plan, k: nat)
    requires k <= |f.order|
  {
    && Partial(f, sol, plan)
    && (forall i, id
        | 0 <= i < k && f.order[i] in f.blocks && id in f.blocks[f.order[i]] && id in ConstantPlan(f, sol).dead ::
          id in plan.dead)
    && (forall id | id in plan.dead :: id in f.code && f.code[id].parent in f.order[..k])
  }

  lemma {:induction false} KeepIntact(list: seq<Id>, dead: set<Id>)
    requires forall id | id in list :: id !in dead
    ensures Keep(list, dead) == list
  {
    if list != [] { KeepIntact(list[1..], dead); }
  }

  lemma NothingReplaced(f: Function, sol: Solution)
    ensures f == Rewrite(f, Plan({}, map[])) && ReplacedBefore(f, sol, Plan({}, map[]), 0)
  {
    forall b | b in f.blocks
      ensures Keep(f.blocks[b], {}) == f.blocks[b]
    {
      KeepIntact(f.blocks[b], {});
    }
    forall id | id in f.code
      ensures SubstAll(f.code[id].operands, map[]) == f.code[id].operands
    {
    }
    assert f.blocks == Rewrite(f, Plan({}, map[])).blocks;
    assert f.code == Rewrite(f, Plan({}, map[])).code;
  }

  /** A block not yet looked at still has its own list. */
  lemma Untouched(f: Function, sol: Solution, plan: Plan, k: nat)
    requires WellFormed(f) && k < |f.order| && ReplacedBefore(f, sol, plan, k)
    ensures f.order[k] in f.blocks && Rewrite(f, plan).blocks[f.order[k]] == f.blocks[f.order[k]]
    ensures forall id | id in f.blocks[f.order[k]] :: id in f.code && f.code[id].parent == f.order[k]
    ensures Unique(f.blocks[f.order[k]])
  {
    var b := f.order[k];
    assert b in f.order;
    forall id | id in f.blocks[b]
      ensures id in f.code && f.code[id].parent == b && id !in plan.dead
    {
      var i :| 0 <= i < |f.blocks[b]| && f.blocks[b][i] == id;
    }
    KeepIntact(f.blocks[b], plan.dead);
  }

  ghost predicate Unique(list: seq<Id>) {
    forall i, j | 0 <= i < j < |list| :: list[i] != list[j]
  }

  /** The instructions of the block that are to be replaced. */
  ghost predicate ConstantsOf(f: Function, sol: Solution, b: BlockId, toReplace: seq<Id>)
    requires b in f.blocks
  {
    Unique(toReplace) && forall id :: id in toReplace <==> id in f.blocks[b] && Replaceable(f, sol, id)
  }

  /** Part way through a block: its first n constants have gone too. */
  ghost predicate ReplacedWithin(f: Function, sol: Solution, plan: Plan, k: nat, toReplace: seq<Id>, n: nat,
                                 before: Plan)
    requires k <= |f.order| && n <= |toReplace|
  {
    && ReplacedBefore(f, sol, before, k) && Partial(f, sol, plan)
    && plan.dead == before.dead + (set id | id in toReplace[..n])
  }

  lemma ReplaceNext(f: Function, sol: Solution, plan: Plan, k: nat, toReplace: seq<Id>, n: nat, before: Plan)
    requires WellFormed(f) && k < |f.order| && f.order[k] in f.blocks && n < |toReplace|
    requires ReplacedWithin(f, sol, plan, k, toReplace, n, before)
    requires ConstantsOf(f, sol, f.order[k], toReplace)
    ensures var id := toReplace[n];
            && id in sol.lattice && sol.lattice[id].Constant?
            && var plan' := Plan(plan.dead + {id}, plan.subst[id := sol.lattice[id].word]);
            && ReplacedWithin(f, sol, plan', k, toReplace, n + 1, before)
            && ReplaceAndErase(Rewrite(f, plan), f.order[k], id, sol.lattice[id].word) == Rewrite(f, plan')
  {
    hide *;
    var id := toReplace[n];
    NextConstant(f, sol, f.order[k], toReplace, n);
    ParentUnique(f, f.order[k], id);
    NotYetReplaced(f, sol, plan, k, toReplace, n, before);
    WithinNext(f, sol, plan, k, toReplace, n, before);
    ReplaceOneMore(f, plan, f.order[k], id, sol.lattice[id].word);
    RewriteBlocks(f, plan);
  }

  lemma NextConstant(f: Function, sol: Solution, b: BlockId, toReplace: seq<Id>, n: nat)
    requires b in f.blocks && n < |toReplace| && ConstantsOf(f, sol, b, toReplace)
    ensures toReplace[n] in f.blocks[b] && Unique(toReplace)
    ensures toReplace[n] in sol.lattice && sol.lattice[toReplace[n]].Constant?
    ensures toReplace[n] in ConstantPlan(f, sol).dead
  {
    assert toReplace[n] in toReplace;
  }

  lemma WithinNext(f: Function, sol: Solution, plan: Plan, k: nat, toReplace: seq<Id>, n: nat, before: Plan)
    requires k <= |f.order| && n < |toReplace|
    requires ReplacedWithin(f, sol, plan, k, toReplace, n, before)
    requires toReplace[n] in ConstantPlan(f, sol).dead
    ensures var id := toReplace[n];
            && id in sol.lattice && sol.lattice[id].Constant?
            && ReplacedWithin(f, sol, Plan(plan.dead + {id}, plan.subst[id := sol.lattice[id].word]),
                              k, toReplace, n + 1, before)
  {
    hide ReplacedBefore;
    assert toReplace[..n + 1] == toReplace[..n] + [toReplace[n]];
  }

  lemma NotYetReplaced(f: Function, sol: Solution, plan: Plan, k: nat, toReplace: seq<Id>, n: nat, before: Plan)
    requires WellFormed(f) && k < |f.order| && n < |toReplace| && Unique(toReplace)
    requires ReplacedWithin(f, sol, plan, k, toReplace, n, before)
    requires toReplace[n] in f.code && f.code[toReplace[n]].parent == f.order[k]
    ensures toReplace[n] !in plan.dead && toReplace[n] !in plan.subst
  {
    assert toReplace[n] !in toReplace[..n];
    assert f.order[k] !in f.order[..k];
  }

  lemma ParentUnique(f: Function, b: BlockId, id: Id)
    requires WellFormed(f) && b in f.blocks && id in f.blocks[b]
    ensures id in f.code && f.code[id].parent == b
    ensures forall b' | b' in f.blocks && b' != b :: id !in f.blocks[b']
  {
    var i :| 0 <= i < |f.blocks[b]| && f.blocks[b][i] == id;
    forall b', j | b' in f.blocks && 0 <= j < |f.blocks[b']|
      ensures f.code[f.blocks[b'][j]].parent == b'
    {
    }
  }

  lemma BlockReplaced(f: Function, sol: Solution, plan: Plan, k: nat, toReplace: seq<Id>, before: Plan)
    requires WellFormed(f) && k < |f.order| && f.order[k] in f.blocks
    requires ReplacedWithin(f, sol, plan, k, toReplace, |toReplace|, before)
    requires ConstantsOf(f, sol, f.order[k], toReplace)
    ensures ReplacedBefore(f, sol, plan, k + 1)
  {
    hide ConstantPlan, ConstantsOf, Partial, WellFormed;
    BlockConstants(f, sol, f.order[k], toReplace);
    assert toReplace[..|toReplace|] == toReplace;
    assert f.order[..k + 1] == f.order[..k] + [f.order[k]];
    forall id | id in plan.dead
      ensures id in f.code && f.code[id].parent in f.order[..k + 1]
    {
      if id in toReplace { ParentUnique(f, f.order[k], id); }
    }
  }

  lemma BlockConstants(f: Function, sol: Solution, b: BlockId, toReplace: seq<Id>)
    requires b in f.blocks && ConstantsOf(f, sol, b, toReplace)
    ensures forall id | id in toReplace :: id in f.blocks[b]
    ensures forall id | id in f.blocks[b] && id in ConstantPlan(f, sol).dead :: id in toReplace
  {
  }

  lemma BlockSkipped(f: Function, sol: Solution, plan: Plan, k: nat)
    requires WellFormed(f) && k < |f.order| && ReplacedBefore(f, sol, plan, k) && f.order[k] !in sol.blocks
    ensures ReplacedBefore(f, sol, plan, k + 1)
  {
    assert f.order[..k + 1] == f.order[..k] + [f.order[k]];
    forall id | f.order[k] in f.blocks && id in f.blocks[f.order[k]]
      ensures id !in ConstantPlan(f, sol).dead
    {
      ParentUnique(f, f.order[k], id);
    }
  }

  lemma SolutionParts(f: Function, folder: Folder, sol: Solution)
    requires Solves(f, folder, sol)
    ensures WellFormed(f) && sol.lattice.Keys == ValueIds(f)
  {
  }

  lemma WithinStart(f: Function, sol: Solution, plan: Plan, k: nat, toReplace: seq<Id>)
    requires k <= |f.order| && ReplacedBefore(f, sol, plan, k)
    ensures ReplacedWithin(f, sol, plan, k, toReplace, 0, plan)
  {
  }

  lemma RewriteBlocks(f: Function, plan: Plan)
    ensures Rewrite(f, plan).blocks.Keys == f.blocks.Keys
  {
  }

  lemma EmptyPlan(f: Function, sol: Solution)
    requires ConstantPlan(f, sol).dead == {}
    ensures ConstantPlan(f, sol) == Plan({}, map[])
  {
  }

  lemma AllReplaced(f: Function, folder: Folder, sol: Solution, plan: Plan)
    requires Solves(f, folder, sol) && ReplacedBefore(f, sol, plan, |f.order|)
    ensures plan == ConstantPlan(f, sol)
  {
    SolutionParts(f, folder, sol);
    hide Solves;
    forall id | id in ConstantPlan(f, sol).dead
      ensures id in plan.dead
    {
      assert id in ValueIds(f);
      var b :| b in f.blocks && id in f.blocks[b];
      assert b in f.order;
    }
    assert plan.dead == ConstantPlan(f, sol).dead;
    assert plan.subst == ConstantPlan(f, sol).subst;
  }

  // ----- The engine

  /** The values of a block have entries. */
  ghost predicate BlockEntered(f: Function, b: BlockId, lattice: map<Id, Entry>) {
    b in f.blocks ==> forall id | id in f.blocks[b] && id in f.code && f.code[id].ty != 0 :: id in lattice
  }

  lemma BlockIds(f: Function, k: nat)
    requires WellFormed(f) && k < |f.order|
    ensures f.order[k] in f.blocks
    ensures forall j | 0 <= j < |f.blocks[f.order[k]]| :: f.blocks[f.order[k]][j] in f.code
    ensures forall id | id in f.blocks[f.order[k]] && id in f.code && f.code[id].ty != 0 :: id in ValueIds(f)
  {
    assert f.order[k] in f.order;
  }

  lemma AllEntered(f: Function, lattice: map<Id, Entry>)
    requires WellFormed(f) && lattice.Keys <= ValueIds(f)
    requires forall i | 0 <= i < |f.order| :: BlockEntered(f, f.order[i], lattice)
    ensures lattice.Keys == ValueIds(f)
  {
    forall id | id in ValueIds(f)
      ensures id in lattice
    {
      var b :| b in f.blocks && id in f.blocks[b];
      assert b in f.order;
      var i :| 0 <= i < |f.order| && f.order[i] == b;
      assert BlockEntered(f, f.order[i], lattice);
    }
  }

  class SCCP {
    const f: Function
    const folder: Folder
    const uses: map<Id, seq<Id>>
    var lattice: map<Id, Entry>
    var instructionWorklist: seq<Id>
    var inInstructionWorklist: set<Id>
    var blockWorklist: seq<BlockId>
    var executableBlocks: set<BlockId>
    var executableEdges: set<Edge>

    ghost function Snap(): Snapshot
      reads this
    {
      Snapshot(Solution(lattice, executableEdges, executableBlocks), instructionWorklist, blockWorklist)
    }

    lemma SnapFields()
      ensures Snap() == Snapshot(Solution(lattice, executableEdges, executableBlocks), instructionWorklist,
                                 blockWorklist)
    {
    }

    constructor (f: Function, folder: Folder, uses: map<Id, seq<Id>>)
      ensures this.f == f && this.folder == folder && this.uses == uses
    {
      this.f, this.folder, this.uses := f, folder, uses;
      lattice, instructionWorklist, inInstructionWorklist, blockWorklist := map[], [], {}, [];
      executableBlocks, executableEdges := {}, {};
    }

    /** Lowers an entry and queues the users if that changed anything. */
    method SetLatticeValue(id: Id, val: Entry)
      requires id in f.code && id in uses && QueueOk(instructionWorklist, inInstructionWorklist)
      requires f.code[id].ty != 0 ==> id in lattice
      modifies this`lattice, this`instructionWorklist, this`inInstructionWorklist
      ensures QueueOk(instructionWorklist, inInstructionWorklist)
      ensures lattice == if f.code[id].ty == 0 then old(lattice)
                         else old(lattice)[id := Join(old(lattice)[id], val)]
      ensures if lattice == old(lattice) then instructionWorklist == old(instructionWorklist)
              else Enqueued(old(instructionWorklist), instructionWorklist, uses[id])
    {
      if f.code[id].ty == 0 { return; }
      var prev := lattice[id];
      var next := val;
      if prev.Bottom? || next.Top? {
        assert lattice == lattice[id := prev];
        return;
      }
      if prev.Constant? && next.Constant? {
        if prev.word == next.word {
          assert lattice == lattice[id := prev];
          return;
        }
        next := Bottom;
      }
      lattice := lattice[id := next];
      assert old(lattice)[id] != lattice[id];
      for k := 0 to |uses[id]|
        invariant QueueOk(instructionWorklist, inInstructionWorklist)
        invariant lattice == old(lattice)[id := next]
        invariant Enqueued(old(instructionWorklist), instructionWorklist, uses[id][..k])
      {
        var user := uses[id][k];
        assert uses[id][..k + 1] == uses[id][..k] + [user];
        if user !in inInstructionWorklist {
          inInstructionWorklist := inInstructionWorklist + {user};
          instructionWorklist := instructionWorklist + [user];
        }
      }
      assert uses[id][..|uses[id]|] == uses[id];
    }

    /** The loop over a phi's operand pairs. */
    method EvaluatePhi(operands: seq<Value>, b: BlockId) returns (result: Entry)
      ensures result == PhiValue(operands, b, lattice, executableEdges, 0, Top)
    {
      result := Top;
      var k := 0;
      while 2 * k + 1 < |operands|
        invariant PhiValue(operands, b, lattice, executableEdges, k, result)
               == PhiValue(operands, b, lattice, executableEdges, 0, Top)
        decreases |operands| - 2 * k
      {
        var pair := IncomingPair(operands, k);
        if pair.Some? && !pair.value.1.Null? && (pair.value.0, b) in executableEdges {
          var val := LatticeValue(pair.value.1, lattice);
          if val.Bottom? { return Bottom; }
          if val.Constant? {
            if result.Top? {
              result := val;
            } else if result != val {
              return Bottom;
            }
          }
        }
        k := k + 1;
      }
    }

    /** The loop over the operands of an operation. */
    method EvaluateOperands(instr: Instr) returns (result: Entry)
      requires instr.operands != []
      ensures result == OperationValue(instr, folder, lattice)
    {
      var allConst, anyBottom := true, false;
      var words := [];
      for k := 0 to |instr.operands|
        invariant anyBottom <==> exists i :: 0 <= i < k && LatticeValue(instr.operands[i], lattice).Bottom?
        invariant allConst <==> forall i | 0 <= i < k :: LatticeValue(instr.operands[i], lattice).Constant?
        invariant allConst ==> |words| == k
        invariant allConst ==> forall i | 0 <= i < k :: Constant(words[i]) == LatticeValue(instr.operands[i], lattice)
      {
        var v := LatticeValue(instr.operands[k], lattice);
        if v.Bottom? { anyBottom := true; }
        if !v.Constant? { allConst := false; }
        if allConst { words := words + [v.word]; }
      }
      if anyBottom { return Bottom; }
      if allConst {
        assert words == Words(instr.operands, lattice);
        return Folded(folder.scalar(instr.op, instr.ty, words));
      }
      return Top;
    }

    method EvaluateCall(operands: seq<Value>) returns (result: Entry)
      ensures result == CallValue(operands, lattice, folder)
    {
      if operands == [] || !operands[0].Fun? { return Bottom; }
      var args, words := operands[1..], [];
      for k := 0 to |args|
        invariant |words| == k
        invariant forall i | 0 <= i < k :: Constant(words[i]) == LatticeValue(args[i], lattice)
      {
        var v := LatticeValue(args[k], lattice);
        if !v.Constant? { return Bottom; }
        words := words + [v.word];
      }
      assert words == Words(args, lattice);
      return Folded(folder.call(operands[0].name, words));
    }

    /** Gives a value instruction its transfer value. */
    method Update(id: Id, val: Entry, ghost exempt: set<Id>)
      requires Inv(f, folder, uses, Snap(), exempt) && QueueOk(instructionWorklist, inInstructionWorklist)
      requires Visitable(f, Snap(), id)
      requires !IsJump(f.code[id].op) && val == Transfer(f.code[id], folder, lattice, executableEdges)
      modifies this
      ensures Inv(f, folder, uses, Snap(), exempt - {id}) && QueueOk(instructionWorklist, inInstructionWorklist)
      ensures Advances(f, old(Snap()), Snap())
    {
      hide *;
      SnapFields();
      ghost var s := Snap();
      InvParts(f, folder, uses, s, exempt);
      VisitableFacts(f, uses, s, id);
      SetLatticeValue(id, val);
      SnapFields();
      ghost var s' := Snap();
      if f.code[id].ty != 0 && lattice != s.sol.lattice {
        LatticeSet(s.sol.lattice, id, val);
        UpdateInv(f, folder, uses, s, s', id, exempt);
      } else {
        LatticeKept(s.sol.lattice, id, val, f.code[id].ty);
        NoUpdateInv(f, folder, uses, s, id, exempt);
      }
    }

    /** Makes an edge executable and queues its target, if it is new. */
    method AddEdge(id: Id, t: BlockId, ghost exempt: set<Id>)
      requires Inv(f, folder, uses, Snap(), exempt) && Visitable(f, Snap(), id)
      requires IsJump(f.code[id].op) && t in Successors(f.code[id], lattice)
      modifies this`executableEdges, this`blockWorklist
      ensures Inv(f, folder, uses, Snap(), exempt)
      ensures executableEdges == old(executableEdges) + {(f.code[id].parent, t)}
      ensures Advances(f, old(Snap()), Snap())
    {
      hide *;
      SnapFields();
      ghost var s := Snap();
      VisitableFacts(f, uses, s, id);
      var e := (f.code[id].parent, t);
      if e !in executableEdges {
        AddEdgeInv(f, folder, uses, s, id, t, exempt);
        executableEdges := executableEdges + {e};
        blockWorklist := blockWorklist + [t];
        SnapFields();
      } else {
        AdvancesReflexive(f, s);
        assert executableEdges == executableEdges + {e};
      }
    }

    method VisitBranch(id: Id, ghost exempt: set<Id>)
      requires Inv(f, folder, uses, Snap(), exempt) && Visitable(f, Snap(), id)
      requires IsCondBranch(f.code[id].op)
      modifies this`executableEdges, this`blockWorklist
      ensures Inv(f, folder, uses, Snap(), exempt) && Advances(f, old(Snap()), Snap())
      ensures Stable(f, folder, id, lattice, executableEdges)
    {
      hide *;
      SnapFields();
      ghost var s := Snap();
      VisitableFacts(f, uses, s, id);
      var instr := f.code[id];
      BranchCases(f, instr, lattice);
      var cond := LatticeValue(instr.operands[0], lattice);
      if cond.Constant? {
        AddEdge(id, BranchTarget(instr, cond.word), exempt);
      } else if cond.Bottom? {
        AddEdge(id, instr.operands[1].block, exempt);
        SnapFields();
        ghost var s' := Snap();
        StillVisitable(f, s, s', id);
        AddEdge(id, instr.operands[2].block, exempt);
        AdvancesTransitive(f, s, s', Snap());
      } else {
        AdvancesReflexive(f, s);
      }
      SnapFields();
      JumpStable(f, folder, id, lattice, executableEdges);
    }

    /** Visits one instruction of an executable block; afterwards it needs no exemption. */
    method Visit(id: Id, ghost exempt: set<Id>)
      requires Inv(f, folder, uses, Snap(), exempt) && QueueOk(instructionWorklist, inInstructionWorklist)
      requires Visitable(f, Snap(), id)
      modifies this
      ensures Inv(f, folder, uses, Snap(), exempt - {id}) && QueueOk(instructionWorklist, inInstructionWorklist)
      ensures Advances(f, old(Snap()), Snap())
    {
      hide *;
      SnapFields();
      ghost var s := Snap();
      VisitableFacts(f, uses, s, id);
      var instr := f.code[id];
      BranchCases(f, instr, lattice);
      TransferCases(instr, folder, lattice, executableEdges);
      if instr.op == Phi {
        var val := EvaluatePhi(instr.operands, instr.parent);
        Update(id, val, exempt);
      } else if instr.op == Jmp {
        AddEdge(id, instr.operands[0].block, exempt);
        SnapFields();
        JumpStable(f, folder, id, lattice, executableEdges);
        SettleAfter(f, folder, uses, s, Snap(), id, exempt);
      } else if IsCondBranch(instr.op) {
        VisitBranch(id, exempt);
        SnapFields();
        SettleAfter(f, folder, uses, s, Snap(), id, exempt);
      } else if instr.op == Call {
        var val := EvaluateCall(instr.operands);
        Update(id, val, exempt);
      } else if AlwaysBottom(instr.op) {
        Update(id, Bottom, exempt);
      } else if instr.operands == [] {
        NothingToDo(f, folder, uses, s, id, exempt);
      } else {
        var val := EvaluateOperands(instr);
        Update(id, val, exempt);
      }
    }

    method Initialize()
      requires WellFormed(f)
      modifies this
      ensures lattice.Keys == ValueIds(f) && forall id | id in lattice :: lattice[id] == Top
      ensures instructionWorklist == [] && inInstructionWorklist == {} && blockWorklist == []
      ensures executableBlocks == {} && executableEdges == {}
    {
      hide ValueIds, WellFormed;
      lattice, instructionWorklist, inInstructionWorklist, blockWorklist := map[], [], {}, [];
      executableBlocks, executableEdges := {}, {};
      for k := 0 to |f.order|
        invariant lattice.Keys <= ValueIds(f) && forall id | id in lattice :: lattice[id] == Top
        invariant forall i | 0 <= i < k :: BlockEntered(f, f.order[i], lattice)
        invariant instructionWorklist == [] && inInstructionWorklist == {} && blockWorklist == []
        invariant executableBlocks == {} && executableEdges == {}
      {
        BlockIds(f, k);
        var list := f.blocks[f.order[k]];
        for n := 0 to |list|
          invariant lattice.Keys <= ValueIds(f) && forall id | id in lattice :: lattice[id] == Top
          invariant forall i | 0 <= i < k :: BlockEntered(f, f.order[i], lattice)
          invariant forall j | 0 <= j < n :: f.code[list[j]].ty != 0 ==> list[j] in lattice
          invariant instructionWorklist == [] && inInstructionWorklist == {} && blockWorklist == []
          invariant executableBlocks == {} && executableEdges == {}
        {
          if f.code[list[n]].ty != 0 {
            lattice := lattice[list[n] := Top];
          }
        }
      }
      AllEntered(f, lattice);
    }

    /** Visits the instructions of a block, all of them or only its phis. */
    method VisitBlock(b: BlockId, first: bool, ghost exempt: set<Id>)
      requires Inv(f, folder, uses, Snap(), exempt) && QueueOk(instructionWorklist, inInstructionWorklist)
      requires b in executableBlocks && b in f.blocks
      requires forall id | id in exempt :: id in f.blocks[b] && id in f.code && (first || f.code[id].op == Phi)
      modifies this
      ensures Inv(f, folder, uses, Snap(), {}) && QueueOk(instructionWorklist, inInstructionWorklist)
      ensures Advances(f, old(Snap()), Snap())
    {
      hide *;
      var list := f.blocks[b];
      ghost var s0, left := Snap(), exempt;
      SnapFields();
      AdvancesReflexive(f, s0);
      var k := 0;
      while k < |list|
        invariant k <= |list| && b in executableBlocks
        invariant forall id | id in left :: id in exempt && id in list[k..]
        invariant Inv(f, folder, uses, Snap(), left) && QueueOk(instructionWorklist, inInstructionWorklist)
        invariant Advances(f, s0, Snap())
      {
        var id := list[k];
        SnapFields();
        ghost var s := Snap();
        VisitableInBlock(f, folder, uses, s, left, b, k);
        VisitableFacts(f, uses, s, id);
        if !first && f.code[id].op != Phi {
          PhisOver(f, folder, uses, s, b, k, left);
          left := {};
          break;
        }
        RestOfList(list, k, left);
        Visit(id, left);
        left := left - {id};
        AdvancesTransitive(f, s0, s, Snap());
        AdvancesBlocks(f, s, Snap());
        SnapFields();
        k := k + 1;
      }
      assert left == {};
    }

    /** Works the block queue off. */
    method DrainBlocks()
      requires Inv(f, folder, uses, Snap(), {}) && QueueOk(instructionWorklist, inInstructionWorklist)
      modifies this
      ensures Inv(f, folder, uses, Snap(), {}) && QueueOk(instructionWorklist, inInstructionWorklist)
      ensures blockWorklist == []
      ensures || Potential(f, lattice, executableEdges) < old(Potential(f, lattice, executableEdges))
              || (Potential(f, lattice, executableEdges) == old(Potential(f, lattice, executableEdges))
                  && instructionWorklist == old(instructionWorklist))
    {
      hide *;
      while blockWorklist != []
        invariant Inv(f, folder, uses, Snap(), {}) && QueueOk(instructionWorklist, inInstructionWorklist)
        invariant || Potential(f, lattice, executableEdges) < old(Potential(f, lattice, executableEdges))
                  || (Potential(f, lattice, executableEdges) == old(Potential(f, lattice, executableEdges))
                      && instructionWorklist == old(instructionWorklist))
        decreases Potential(f, lattice, executableEdges), |blockWorklist|
      {
        SnapFields();
        ghost var s := Snap();
        QueuedBlock(f, folder, uses, s);
        var bb := blockWorklist[|blockWorklist| - 1];
        blockWorklist := blockWorklist[..|blockWorklist| - 1];
        var first := bb !in executableBlocks;
        ghost var exempt := if first then set id | id in f.blocks[bb] else PhisOf(f, bb);
        if first {
          executableBlocks := executableBlocks + {bb};
          PopFirst(f, folder, uses, s, exempt);
        } else {
          PopAgain(f, folder, uses, s, exempt);
        }
        SnapFields();
        ghost var s' := Snap();
        VisitBlock(bb, first, exempt);
        SnapFields();
        AdvancesPotential(f, s', Snap());
      }
    }

    /**
     The propagation loop: both queues empty, and a solution in which nothing has been given
     up without a reason; without calls, the finest one.
     */
    method Propagate()
      requires WellFormed(f) && UseListsOf(f, uses)
      modifies this
      ensures Solves(f, folder, Solution(lattice, executableEdges, executableBlocks))
      ensures Warranted(f, folder, Solution(lattice, executableEdges, executableBlocks))
      ensures CallFree(f) ==> forall o | Solves(f, folder, o) ::
                Finer(Solution(lattice, executableEdges, executableBlocks), o)
    {
      hide *;
      HasEntry(f);
      Initialize();
      blockWorklist := blockWorklist + [f.order[0]];
      SnapFields();
      Started(f, folder, uses, Snap());
      QueueEmpty();
      while blockWorklist != [] || instructionWorklist != []
        invariant Inv(f, folder, uses, Snap(), {}) && QueueOk(instructionWorklist, inInstructionWorklist)
        decreases Potential(f, lattice, executableEdges), |blockWorklist|, |instructionWorklist|
      {
        DrainBlocks();
        if instructionWorklist != [] {
          SnapFields();
          ghost var s := Snap();
          PopInstr(f, folder, uses, s);
          QueuePop(instructionWorklist, inInstructionWorklist);
          var id := instructionWorklist[|instructionWorklist| - 1];
          instructionWorklist := instructionWorklist[..|instructionWorklist| - 1];
          inInstructionWorklist := inInstructionWorklist - {id};
          SnapFields();
          ghost var s' := Snap();
          if f.code[id].parent in executableBlocks {
            Visit(id, {id});
            assert {id} - {id} == {};
            SnapFields();
            AdvancesPotential(f, s', Snap());
          }
        }
      }
      SnapFields();
      Drained(f, folder, uses, Snap());
      FinestMeans(f, folder, Snap().sol);
    }

    /** The constants of a block, as they stand in its list. */
    method CollectConstants(list: seq<Id>, b: BlockId) returns (toReplace: seq<Id>)
      requires Unique(list) && forall id | id in list :: id in f.code && f.code[id].parent == b
      requires b in executableBlocks && b in f.blocks && list == f.blocks[b]
      ensures ConstantsOf(f, Snap().sol, b, toReplace)
    {
      ghost var sol := Snap().sol;
      toReplace := [];
      for k := 0 to |list|
        invariant forall id :: id in toReplace <==> id in list[..k] && Replaceable(f, sol, id)
        invariant Unique(toReplace)
      {
        var op := f.code[list[k]].op;
        assert list[k] !in list[..k];
        assert list[..k + 1] == list[..k] + [list[k]];
        if !IsTerminator(op) && op != Phi && LatticeValue(Inst(list[k]), lattice).Constant? {
          toReplace := toReplace + [list[k]];
        }
      }
      assert list[..|list|] == list;
    }

    /** Replaces and erases the constants, block by block. */
    method ReplaceConstants() returns (g: Function, changed: bool)
      requires Solves(f, folder, Snap().sol)
      ensures g == Rewrite(f, ConstantPlan(f, Snap().sol))
      ensures changed <==> ConstantPlan(f, Snap().sol).dead != {}
    {
      hide *;
      SnapFields();
      ghost var sol := Snap().sol;
      SolutionParts(f, folder, sol);
      g, changed := f, false;
      ghost var plan := Plan({}, map[]);
      NothingReplaced(f, sol);
      for k := 0 to |f.order|
        invariant g == Rewrite(f, plan) && ReplacedBefore(f, sol, plan, k)
        invariant changed <==> plan.dead != {}
      {
        var b := f.order[k];
        Untouched(f, sol, plan, k);
        if b in executableBlocks {
          var toReplace := CollectConstants(f.blocks[b], b);
          ghost var before := plan;
          WithinStart(f, sol, plan, k, toReplace);
          for n := 0 to |toReplace|
            invariant g == Rewrite(f, plan) && ReplacedWithin(f, sol, plan, k, toReplace, n, before)
            invariant changed <==> plan.dead != {}
          {
            ReplaceNext(f, sol, plan, k, toReplace, n, before);
            RewriteBlocks(f, plan);
            var id := toReplace[n];
            g := ReplaceAndErase(g, b, id, lattice[id].word);
            plan := Plan(plan.dead + {id}, plan.subst[id := lattice[id].word]);
            changed := true;
            assert id in plan.dead;
          }
          BlockReplaced(f, sol, plan, k, toReplace, before);
        } else {
          BlockSkipped(f, sol, plan, k);
        }
      }
      AllReplaced(f, folder, sol, plan);
    }

    /** The whole pass. */
    method PerformTransformation() returns (g: Function, changed: bool)
      requires WellFormed(f) && UseListsOf(f, uses)
      modifies this
      ensures Solves(f, folder, Snap().sol) && Warranted(f, folder, Snap().sol)
      ensures CallFree(f) ==> forall o | Solves(f, folder, o) :: Finer(Snap().sol, o)
      ensures g == Rewrite(f, ConstantPlan(f, Snap().sol))
      ensures changed <==> ConstantPlan(f, Snap().sol).dead != {}
      ensures !changed ==> g == f
    {
      hide *;
      Propagate();
      SnapFields();
      g, changed := ReplaceConstants();
      if !changed {
        NothingReplaced(f, Snap().sol);
        EmptyPlan(f, Snap().sol);
      }
    }
  }
}
