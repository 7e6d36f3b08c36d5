/**
 Cloning straight-line code through a map of values: what a clone computes, against
 what the original computes.
 */
module ValueCloner {
  import opened IR
  import opened Reordering

  /** A value and its replacement; the null pointer that a lookup can leave behind is None. */
  type ValueMap = map<Value, Option<Value>>

  /** Values without an entry stand for themselves. */
  function GetMappedValue(vmap: ValueMap, v: Value): Option<Value> {
    if v in vmap then vmap[v] else Some(v)
  }

  /** The same, where no replacement is null. */
  function Mapped(vmap: ValueMap, v: Value): Value {
    if v in vmap && vmap[v].Some? then vmap[v].value else v
  }

  function MapAll(vmap: ValueMap, operands: seq<Value>): (r: seq<Value>)
    ensures |r| == |operands| && forall i | 0 <= i < |operands| :: r[i] == Mapped(vmap, operands[i])
  {
    seq(|operands|, i requires 0 <= i < |operands| => Mapped(vmap, operands[i]))
  }

  function CloneInstruction(vmap: ValueMap, instr: Instr, block: BlockId): Instr {
    Instr(instr.op, instr.ty, MapAll(vmap, instr.operands), block)
  }

  ghost predicate NoNulls(vmap: ValueMap) {
    forall v | v in vmap :: vmap[v].Some?
  }

  /** Without nulls, what a lookup finds is the replacement. */
  lemma LookupFinds(vmap: ValueMap, v: Value)
    ensures NoNulls(vmap) ==> GetMappedValue(vmap, v) == Some(Mapped(vmap, v))
    ensures GetMappedValue(vmap, v).None? <==> v in vmap && vmap[v].None?
  {
  }

  /** The instruction over again, each operand looked up. */
  method Clone(vmap: ValueMap, instr: Instr, block: BlockId) returns (r: Instr)
    requires NoNulls(vmap)
    ensures r == CloneInstruction(vmap, instr, block)
  {
    hide Mapped, GetMappedValue, NoNulls;
    var newOperands: seq<Value> := [];
    for k := 0 to |instr.operands|
      invariant |newOperands| == k && forall j | 0 <= j < k :: newOperands[j] == Mapped(vmap, instr.operands[j])
    {
      LookupFinds(vmap, instr.operands[k]);
      newOperands := newOperands + [GetMappedValue(vmap, instr.operands[k]).value];
    }
    assert newOperands == MapAll(vmap, instr.operands);
    r := Instr(instr.op, instr.ty, newOperands, block);
  }

  /** The map once the listed instructions have been cloned under consecutive ids. */
  function MapAfter(vmap: ValueMap, list: seq<Id>, first: Id): ValueMap {
    if list == [] then vmap
    else MapAfter(vmap, list[..|list| - 1], first)[Inst(Last(list)) := Some(Inst(first + |list| - 1))]
  }

  function Ids(first: Id, n: nat): (r: seq<Id>)
    ensures |r| == n && forall i | 0 <= i < n :: r[i] == first + i
  {
    seq(n, i requires 0 <= i < n => first + i)
  }

  /** The k-th clone is the k-th instruction under the map as it stood then. */
  ghost predicate AreClones(code: map<Id, Instr>, code': map<Id, Instr>, vmap: ValueMap, list: seq<Id>, first: Id,
                            block: BlockId)
  {
    forall k | 0 <= k < |list| ::
      && list[k] in code && first + k in code'
      && code'[first + k] == CloneInstruction(MapAfter(vmap, list[..k], first), code[list[k]], block)
  }

  /** Instructions cloned from a block: neither phis nor jumps. */
  predicate IsCloned(op: Opcode) {
    op != Phi && op != Jmp && op != Jnz && op != Jz && op != Br
  }

  function ClonedOnly(list: seq<Id>, code: map<Id, Instr>): (r: seq<Id>)
    ensures forall id | id in r :: id in list && id in code && IsCloned(code[id].op)
  {
    if list == [] then []
    else
      var id := Last(list);
      ClonedOnly(list[..|list| - 1], code) + if id in code && IsCloned(code[id].op) then [id] else []
  }

  lemma MapAfterNext(vmap: ValueMap, list: seq<Id>, id: Id, first: Id)
    ensures MapAfter(vmap, list + [id], first) == MapAfter(vmap, list, first)[Inst(id) := Some(Inst(first + |list|))]
  {
    assert (list + [id])[..|list|] == list;
  }

  lemma ClonedNext(list: seq<Id>, id: Id, code: map<Id, Instr>)
    requires id in code
    ensures ClonedOnly(list + [id], code) == ClonedOnly(list, code) + if IsCloned(code[id].op) then [id] else []
  {
    assert (list + [id])[..|list|] == list;
  }

  lemma NothingCloned(code: map<Id, Instr>, vmap: ValueMap, first: Id, block: BlockId)
    ensures ClonedOnly([], code) == [] && Ids(first, 0) == [] && MapAfter(vmap, [], first) == vmap
    ensures AreClones(code, code, vmap, [], first, block)
  {
  }

  lemma IdsNext(first: Id, n: nat)
    ensures Ids(first, n + 1) == Ids(first, n) + [first + n] && |Ids(first, n)| == n
  {
  }

  lemma NoNullsNext(vmap: ValueMap, id: Id, c: Id)
    requires NoNulls(vmap)
    ensures NoNulls(vmap[Inst(id) := Some(Inst(c))])
  {
  }

  /** Clones the instructions one after the other, extending the map behind each. */
  method CloneBlocks(code: map<Id, Instr>, list: seq<Id>, vmap: ValueMap, first: Id, block: BlockId)
    returns (code': map<Id, Instr>, clones: seq<Id>, vmap': ValueMap)
    requires (forall id | id in list :: id in code) && (forall id | id in code :: id < first) && NoNulls(vmap)
    ensures var body := ClonedOnly(list, code);
            && clones == Ids(first, |body|) && vmap' == MapAfter(vmap, body, first) && NoNulls(vmap')
            && (forall id | id in code :: id in code' && code'[id] == code[id])
            && (forall id | id in code' :: id < first + |body|)
            && AreClones(code, code', vmap, body, first, block)
  {
    hide *;
    code', clones, vmap' := code, [], vmap;
    ghost var body := [];
    NothingCloned(code, vmap, first, block);
    for k := 0 to |list|
      invariant body == ClonedOnly(list[..k], code)
      invariant clones == Ids(first, |body|) && |clones| == |body| && vmap' == MapAfter(vmap, body, first)
      invariant NoNulls(vmap')
      invariant forall id | id in code :: id in code' && code'[id] == code[id]
      invariant forall id | id in code' :: id < first + |body|
      invariant AreClones(code, code', vmap, body, first, block)
    {
      assert list[..k + 1] == list[..k] + [list[k]];
      var id := list[k];
      ClonedNext(list[..k], id, code);
      if IsCloned(code[id].op) {
        var c := first + |clones|;
        MapAfterNext(vmap, body, id, first);
        IdsNext(first, |body|);
        NoNullsNext(vmap', id, c);
        ClonesGrow(code, code', vmap, body, first, block, id);
        var cloned := Clone(vmap', code[id], block);
        code' := code'[c := cloned];
        clones := clones + [c];
        vmap' := vmap'[Inst(id) := Some(Inst(c))];
        body := body + [id];
      } else {
        assert body + [] == body;
      }
    }
    assert list[..|list|] == list;
  }

  lemma ClonesGrow(code: map<Id, Instr>, code': map<Id, Instr>, vmap: ValueMap, body: seq<Id>, first: Id,
                   block: BlockId, id: Id)
    requires AreClones(code, code', vmap, body, first, block) && id in code
    requires forall x | x in code' :: x < first + |body|
    ensures AreClones(code, code'[first + |body| := CloneInstruction(MapAfter(vmap, body, first), code[id], block)],
                      vmap, body + [id], first, block)
  {
    hide CloneInstruction, MapAfter;
    var all := body + [id];
    var code'' := code'[first + |body| := CloneInstruction(MapAfter(vmap, body, first), code[id], block)];
    forall k | 0 <= k < |all|
      ensures all[k] in code && first + k in code''
      ensures code''[first + k] == CloneInstruction(MapAfter(vmap, all[..k], first), code[all[k]], block)
    {
      if k < |body| {
        assert all[k] == body[k] && all[..k] == body[..k];
      } else {
        assert all[k] == id && all[..k] == body;
      }
    }
  }

  // ----- Corresponding environments

  /** x in one environment is v in the other. */
  ghost predicate SameValue(params: seq<Word>, env: map<Id, Word>, x: Id, env2: map<Id, Word>, v: Value) {
    && (x in env <==> IR.Ready(v, env2, params))
    && (x in env ==> env[x] == Fetch(v, env2, params))
  }

  /** Every id below `base` that is not still to come is what the map makes of it. */
  ghost predicate Corresponds(params: seq<Word>, base: Id, rest: seq<Id>, vmap: ValueMap,
                              env: map<Id, Word>, env2: map<Id, Word>)
  {
    forall x: Id | x < base && x !in rest :: SameValue(params, env, x, env2, Mapped(vmap, Inst(x)))
  }

  /** Only instructions are replaced, by values that are in scope. */
  ghost predicate MapsBelow(vmap: ValueMap, limit: Id) {
    && NoNulls(vmap)
    && (forall v | v in vmap :: v.Inst?)
    && (forall v | v in vmap :: Mapped(vmap, v).Inst? ==> Mapped(vmap, v).id < limit)
  }

  lemma MappedFetch(params: seq<Word>, base: Id, rest: seq<Id>, vmap: ValueMap, limit: Id,
                    env: map<Id, Word>, env2: map<Id, Word>, v: Value)
    requires Corresponds(params, base, rest, vmap, env, env2) && MapsBelow(vmap, limit)
    requires v.Inst? ==> v.id < base && v.id !in rest
    ensures IR.Ready(v, env, params) <==> IR.Ready(Mapped(vmap, v), env2, params)
    ensures IR.Ready(v, env, params) ==> Fetch(v, env, params) == Fetch(Mapped(vmap, v), env2, params)
  {
    if v.Inst? { assert SameValue(params, env, v.id, env2, Mapped(vmap, v)); } else { assert v !in vmap; }
  }

  ghost predicate OperandsInScope(operands: seq<Value>, base: Id, rest: seq<Id>) {
    forall i | 0 <= i < |operands| :: operands[i].Inst? ==> operands[i].id < base && operands[i].id !in rest
  }

  /** A clone does what the original does. */
  lemma CloneRuns(m: Machine, base: Id, rest: seq<Id>, vmap: ValueMap, limit: Id, env: map<Id, Word>,
                  env2: map<Id, Word>, instr: Instr, block: BlockId, mem: Memory, v: Word, mem': Memory)
    requires Corresponds(m.params, base, rest, vmap, env, env2) && MapsBelow(vmap, limit)
    requires OperandsInScope(instr.operands, base, rest)
    ensures OpRuns(m, instr, env, mem, v, mem') <==> OpRuns(m, CloneInstruction(vmap, instr, block), env2, mem, v, mem')
  {
    var operands, operands' := instr.operands, MapAll(vmap, instr.operands);
    forall i | 0 <= i < |operands|
      ensures IR.Ready(operands[i], env, m.params) <==> IR.Ready(operands'[i], env2, m.params)
      ensures IR.Ready(operands[i], env, m.params) ==>
                Fetch(operands[i], env, m.params) == Fetch(operands'[i], env2, m.params)
    {
      MappedFetch(m.params, base, rest, vmap, limit, env, env2, operands[i]);
    }
    hide Corresponds, MapsBelow, Mapped, Fetch, IR.Ready;
    AllReadySame(m, operands, operands', env, env2);
    if AllReady(operands, env, m.params) {
      assert FetchAll(operands, env, m.params) == FetchAll(operands', env2, m.params);
    }
  }

  lemma AllReadySame(m: Machine, a: seq<Value>, b: seq<Value>, env: map<Id, Word>, env2: map<Id, Word>)
    requires |a| == |b| && forall i | 0 <= i < |a| :: IR.Ready(a[i], env, m.params) <==> IR.Ready(b[i], env2, m.params)
    ensures AllReady(a, env, m.params) <==> AllReady(b, env2, m.params)
  {
    hide IR.Ready;
    if AllReady(b, env2, m.params) {
      assert forall i | 0 <= i < |b| :: IR.Ready(b[i], env2, m.params);
    }
  }

  /** Both assign: the id to come and its clone. */
  lemma BothAssign(params: seq<Word>, base: Id, x: Id, rest: seq<Id>, vmap: ValueMap, c: Id,
                   env: map<Id, Word>, env2: map<Id, Word>, w: Word)
    requires Corresponds(params, base, [x] + rest, vmap, env, env2) && MapsBelow(vmap, c)
    requires x < base <= c && x !in rest
    ensures Corresponds(params, base, rest, vmap[Inst(x) := Some(Inst(c))], env[x := w], env2[c := w])
    ensures MapsBelow(vmap[Inst(x) := Some(Inst(c))], c + 1)
  {
    var vmap' := vmap[Inst(x) := Some(Inst(c))];
    forall y: Id | y < base && y !in rest
      ensures SameValue(params, env[x := w], y, env2[c := w], Mapped(vmap', Inst(y)))
    {
      if y != x {
        assert SameValue(params, env, y, env2, Mapped(vmap, Inst(y)));
        assert Mapped(vmap', Inst(y)) == Mapped(vmap, Inst(y));
      }
    }
    forall v | v in vmap'
      ensures v.Inst? && vmap'[v].Some? && (Mapped(vmap', v).Inst? ==> Mapped(vmap', v).id < c + 1)
    {
      if v != Inst(x) { assert v in vmap && Mapped(vmap', v) == Mapped(vmap, v); }
    }
  }

  // ----- The substitution lemma

  ghost predicate InScope(code: map<Id, Instr>, list: seq<Id>, base: Id) {
    && (forall k | 0 <= k < |list| :: list[k] in code && list[k] < base)
    && (forall k | 0 <= k < |list| :: OperandsInScope(code[list[k]].operands, base, list[k..]))
    && Distinct(list)
  }

  lemma ScopeRest(code: map<Id, Instr>, list: seq<Id>, base: Id)
    requires InScope(code, list, base) && list != []
    ensures InScope(code, list[1..], base) && list[0] !in list[1..] && list[0] < base && list[0] in code
    ensures OperandsInScope(code[list[0]].operands, base, list)
  {
    var rest: seq<Id> := list[1..];
    assert list[0..] == list;
    forall k | 0 <= k < |rest|
      ensures rest[k] in code && rest[k] < base && OperandsInScope(code[rest[k]].operands, base, rest[k..])
    {
      assert rest[k] == list[k + 1] && rest[k..] == list[k + 1..];
    }
  }

  lemma ClonesRest(code: map<Id, Instr>, code': map<Id, Instr>, vmap: ValueMap, list: seq<Id>, first: Id,
                   block: BlockId)
    requires AreClones(code, code', vmap, list, first, block) && list != []
    ensures first in code' && code'[first] == CloneInstruction(vmap, code[list[0]], block)
    ensures AreClones(code, code', vmap[Inst(list[0]) := Some(Inst(first))], list[1..], first + 1, block)
    ensures MapAfter(vmap, list, first) == MapAfter(vmap[Inst(list[0]) := Some(Inst(first))], list[1..], first + 1)
  {
    hide CloneInstruction;
    assert list[..0] == [] && first + 0 == first;
    var vmap' := vmap[Inst(list[0]) := Some(Inst(first))];
    forall k | 0 <= k < |list| - 1
      ensures MapAfter(vmap', list[1..][..k], first + 1) == MapAfter(vmap, list[..k + 1], first)
    {
      MapAfterRest(vmap, list[..k + 1], first);
      assert list[..k + 1][1..] == list[1..][..k];
    }
    MapAfterRest(vmap, list, first);
    assert forall k | 0 <= k < |list| - 1 :: list[1..][k] == list[k + 1] && first + 1 + k == first + (k + 1);
  }

  lemma {:induction false} MapAfterRest(vmap: ValueMap, list: seq<Id>, first: Id)
    requires list != []
    ensures MapAfter(vmap, list, first) == MapAfter(vmap[Inst(list[0]) := Some(Inst(first))], list[1..], first + 1)
    decreases |list|
  {
    if |list| == 1 {
      assert list[..0] == [] && list[1..] == [];
    } else {
      var front := list[..|list| - 1];
      MapAfterRest(vmap, front, first);
      assert list[1..][..|list| - 2] == front[1..];
    }
  }

  lemma RunsNothing(m: Machine, code: map<Id, Instr>, env: map<Id, Word>, mem: Memory, env': map<Id, Word>,
                    mem': Memory)
    ensures Runs(m, code, [], env, mem, env', mem') <==> env' == env && mem' == mem
  {
  }

  lemma IdsRest(first: Id, n: nat)
    requires n > 0
    ensures Ids(first, n) == [first] + Ids(first + 1, n - 1)
  {
  }

  /**
   What the original does from an environment, its clone does from a corresponding one:
   same memory, and the environments correspond again, by the map the cloning left.
   */
  lemma {:induction false} Substitution(m: Machine, code: map<Id, Instr>, code': map<Id, Instr>, vmap: ValueMap,
                                        list: seq<Id>,
                                        base: Id, first: Id, block: BlockId, env: map<Id, Word>, mem: Memory,
                                        env': map<Id, Word>, mem': Memory, env2: map<Id, Word>)
    returns (env2': map<Id, Word>)
    requires InScope(code, list, base) && AreClones(code, code', vmap, list, first, block)
    requires base <= first && MapsBelow(vmap, first) && Corresponds(m.params, base, list, vmap, env, env2)
    requires Runs(m, code, list, env, mem, env', mem')
    ensures Runs(m, code', Ids(first, |list|), env2, mem, env2', mem')
    ensures Corresponds(m.params, base, [], MapAfter(vmap, list, first), env', env2')
    ensures MapsBelow(MapAfter(vmap, list, first), first + |list|)
    decreases |list|
  {
    hide *;
    NothingCloned(code, vmap, first, block);
    if list == [] {
      RunsNothing(m, code, env, mem, env', mem');
      env2' := env2;
      RunsNothing(m, code', env2, mem, env2', mem');
    } else {
      var x, rest := list[0], list[1..];
      assert list == [x] + rest;
      ScopeRest(code, list, base);
      ClonesRest(code, code', vmap, list, first, block);
      var v, mid := FirstOf(m, code, x, rest, env, mem, env', mem');
      CloneRuns(m, base, list, vmap, first, env, env2, code[x], block, mem, v, mid);
      BothAssign(m.params, base, x, rest, vmap, first, env, env2, v);
      env2' := Substitution(m, code, code', vmap[Inst(x) := Some(Inst(first))], rest, base, first + 1, block,
                            env[x := v], mid, env', mem', env2[first := v]);
      IdsRest(first, |list|);
      RunsOne(m, code', first, Ids(first + 1, |rest|), env2, mem, v, mid, env2', mem');
    }
  }

  /** And back: what the clone does, the original does. */
  lemma {:induction false} SubstitutionBack(m: Machine, code: map<Id, Instr>, code': map<Id, Instr>, vmap: ValueMap,
                                            list: seq<Id>,
                                            base: Id, first: Id, block: BlockId, env: map<Id, Word>, mem: Memory,
                                            env2: map<Id, Word>, env2': map<Id, Word>, mem': Memory)
    returns (env': map<Id, Word>)
    requires InScope(code, list, base) && AreClones(code, code', vmap, list, first, block)
    requires base <= first && MapsBelow(vmap, first) && Corresponds(m.params, base, list, vmap, env, env2)
    requires Runs(m, code', Ids(first, |list|), env2, mem, env2', mem')
    ensures Runs(m, code, list, env, mem, env', mem')
    ensures Corresponds(m.params, base, [], MapAfter(vmap, list, first), env', env2')
    ensures MapsBelow(MapAfter(vmap, list, first), first + |list|)
    decreases |list|
  {
    hide *;
    NothingCloned(code, vmap, first, block);
    if list == [] {
      RunsNothing(m, code', env2, mem, env2', mem');
      env' := env;
      RunsNothing(m, code, env, mem, env', mem');
    } else {
      var x, rest := list[0], list[1..];
      assert list == [x] + rest;
      ScopeRest(code, list, base);
      ClonesRest(code, code', vmap, list, first, block);
      IdsRest(first, |list|);
      var v, mid := FirstOf(m, code', first, Ids(first + 1, |rest|), env2, mem, env2', mem');
      CloneRuns(m, base, list, vmap, first, env, env2, code[x], block, mem, v, mid);
      BothAssign(m.params, base, x, rest, vmap, first, env, env2, v);
      env' := SubstitutionBack(m, code, code', vmap[Inst(x) := Some(Inst(first))], rest, base, first + 1, block,
                               env[x := v], mid, env2[first := v], env2', mem');
      RunsOne(m, code, x, rest, env, mem, v, mid, env', mem');
    }
  }
}
