/**
 The SSA form that every pass works on, and what a run of it is.

 A pass never looks inside an operation, so the meaning of operations is a
 parameter: a Machine says which results and which memory an operation may give.
 A division by zero, say, is an operation with no result; a run that reaches one
 is stuck there.
 */
module IR {

  type Id = nat
  type BlockId = nat
  type Memory = map<nat, nat>

  datatype Option<+T> = None | Some(value: T)

  /** A typed bit pattern.  Constants are interned, so equal words are one constant. */
  datatype Word = Word(width: nat, bits: nat)

  datatype Value =
    | Inst(id: Id)
    | Cst(word: Word)
    | Arg(index: nat)
    | Blk(block: BlockId)
    | Fun(name: nat)
    | Null

  datatype Opcode =
    | Ret | Jmp | Jz | Jnz | Br | Hlt
    | Add | Sub | Mul | Div | Udiv | Rem | Urem | And | Or | Xor | Shl | Shr | Sar | SMin | SMax
    | Neg | Not
    | Alloc | Alloc4 | Alloc16
    | Load | Loadd | Loads | Loadl | Loaduw | Loadsh | Loaduh | Loadsb | Loadub
    | Store | Stored | Stores | Storel | Storeh | Storeb
    | VLoad | VStore | VGather | VScatter
    | Call | Phi | Copy
    | Ceq | Cne | Csle | Cslt | Csge | Csgt | Cule | Cult | Cuge | Cugt
    | Blit
    | ExtUB | ExtUH | ExtUW | ExtSB | ExtSH | ExtSW | ExtS | TruncD | Cast
    | VAStart | VAArg | Syscall | ExternCall
    | Other(code: nat)  // floating point, vector arithmetic and conversions between number formats

  /** An instruction; type 0 is void. */
  datatype Instr = Instr(op: Opcode, ty: nat, operands: seq<Value>, parent: BlockId)

  /** A function: its blocks in layout order (the first is the entry), each a list of instructions. */
  datatype Function = Function(order: seq<BlockId>, blocks: map<BlockId, seq<Id>>, code: map<Id, Instr>)

  predicate IsTerminator(op: Opcode) {
    op == Ret || op == Jmp || op == Jz || op == Jnz || op == Br
  }

  predicate IsCondBranch(op: Opcode) {
    op == Br || op == Jnz || op == Jz
  }

  // ----- Well-formed functions

  ghost predicate PhisLead(list: seq<Id>, code: map<Id, Instr>) {
    forall i, j | 0 <= i < j < |list| && list[i] in code && list[j] in code ::
      code[list[j]].op == Phi ==> code[list[i]].op == Phi
  }

  /** Jumps and branches name blocks of the function. */
  ghost predicate TargetsExist(f: Function, instr: Instr) {
    && (instr.op == Jmp ==> |instr.operands| > 0 && instr.operands[0].Blk? && instr.operands[0].block in f.blocks)
    && (IsCondBranch(instr.op) ==>
          && |instr.operands| == 3
          && instr.operands[1].Blk? && instr.operands[1].block in f.blocks
          && instr.operands[2].Blk? && instr.operands[2].block in f.blocks)
  }

  ghost predicate WellFormed(f: Function) {
    && f.order != []
    && (forall b :: b in f.order <==> b in f.blocks)
    && (forall i, j | 0 <= i < j < |f.order| :: f.order[i] != f.order[j])
    && (forall b, i | b in f.blocks && 0 <= i < |f.blocks[b]| ::
          f.blocks[b][i] in f.code && f.code[f.blocks[b][i]].parent == b)
    && (forall b, i, j | b in f.blocks && 0 <= i < j < |f.blocks[b]| :: f.blocks[b][i] != f.blocks[b][j])
    && (forall b | b in f.blocks :: PhisLead(f.blocks[b], f.code))
    && (forall id | id in f.code :: TargetsExist(f, f.code[id]))
  }

  function Entry(f: Function): BlockId
    requires f.order != []
  {
    f.order[0]
  }

  // ----- Phi operands

  /** The k-th (block, value) pair of a phi, in whichever order the two operands stand. */
  function IncomingPair(operands: seq<Value>, k: nat): Option<(BlockId, Value)>
    requires 2 * k + 1 < |operands|
  {
    var a, b := operands[2 * k], operands[2 * k + 1];
    if a.Blk? then Some((a.block, b))
    else if b.Blk? then Some((b.block, a))
    else None
  }

  /** The value a phi receives along the edge from `pred`: that of the first pair naming it. */
  function IncomingFrom(operands: seq<Value>, pred: BlockId, k: nat): (r: Option<Value>)
    decreases |operands| - 2 * k
  {
    if 2 * k + 1 >= |operands| then None
    else
      var pair := IncomingPair(operands, k);
      if pair.Some? && pair.value.0 == pred then Some(pair.value.1)
      else IncomingFrom(operands, pred, k + 1)
  }

  // ----- Runs

  /** What operations may do: sem(op, type, arguments, memory, result, memory afterwards). */
  datatype Machine = Machine(params: seq<Word>, sem: (Opcode, nat, seq<Word>, Memory, Word, Memory) -> bool)

  /** A point of a run.  `path` lists the blocks entered so far, the current one last. */
  datatype State = State(path: seq<BlockId>, pc: nat, env: map<Id, Word>, mem: Memory, ret: Option<Option<Word>>)

  predicate Ready(v: Value, env: map<Id, Word>, params: seq<Word>) {
    match v
    case Inst(id) => id in env
    case Arg(k) => k < |params|
    case Null => false
    case _ => true
  }

  /** The word an operand stands for; labels carry no information. */
  function Fetch(v: Value, env: map<Id, Word>, params: seq<Word>): Word {
    match v
    case Inst(id) => if id in env then env[id] else Word(0, 0)
    case Cst(w) => w
    case Arg(k) => if k < |params| then params[k] else Word(0, 0)
    case Blk(b) => Word(0, b)
    case Fun(name) => Word(64, name)
    case Null => Word(0, 0)
  }

  predicate AllReady(vs: seq<Value>, env: map<Id, Word>, params: seq<Word>) {
    forall i | 0 <= i < |vs| :: Ready(vs[i], env, params)
  }

  function FetchAll(vs: seq<Value>, env: map<Id, Word>, params: seq<Word>): (r: seq<Word>)
    ensures |r| == |vs|
    ensures forall i | 0 <= i < |vs| :: r[i] == Fetch(vs[i], env, params)
  {
    seq(|vs|, i requires 0 <= i < |vs| => Fetch(vs[i], env, params))
  }

  function Last<T>(s: seq<T>): T
    requires s != []
  {
    s[|s| - 1]
  }

  /** Where the run of phis that starts at index i of a block ends. */
  function PhisEnd(list: seq<Id>, code: map<Id, Instr>, i: nat): (n: nat)
    requires i <= |list|
    ensures i <= n <= |list|
    ensures forall j | i <= j < n :: list[j] in code && code[list[j]].op == Phi
    ensures n < |list| ==> list[n] !in code || code[list[n]].op != Phi
    decreases |list| - i
  {
    if i == |list| || list[i] !in code || code[list[i]].op != Phi then i else PhisEnd(list, code, i + 1)
  }

  /** The number of phis a block starts with. */
  function LeadingPhis(list: seq<Id>, code: map<Id, Instr>): (n: nat)
    ensures n <= |list|
    ensures forall i | 0 <= i < n :: list[i] in code && code[list[i]].op == Phi
    ensures n < |list| ==> list[n] !in code || code[list[n]].op != Phi
  {
    PhisEnd(list, code, 0)
  }

  /** All leading phis of the block are assigned at once, from the values before the block. */
  ghost predicate PhiStep(m: Machine, f: Function, list: seq<Id>, n: nat, s: State, s': State)
    requires n <= |list| && forall i | 0 <= i < n :: list[i] in f.code
  {
    && |s.path| >= 2
    && var pred := s.path[|s.path| - 2];
    && (forall i | 0 <= i < n ::
          var v := IncomingFrom(f.code[list[i]].operands, pred, 0);
          v.Some? && Ready(v.value, s.env, m.params))
    && s' == s.(pc := n, env := s'.env)
    && s'.env.Keys == s.env.Keys + (set i | 0 <= i < n :: list[i])
    && (forall i | 0 <= i < n ::
          s'.env[list[i]] == Fetch(IncomingFrom(f.code[list[i]].operands, pred, 0).value, s.env, m.params))
    && (forall id | id in s.env && id !in list[..n] :: s'.env[id] == s.env[id])
  }

  /** Jz branches on zero, Br and Jnz on anything else. */
  predicate Taken(op: Opcode, w: Word) {
    if op == Jz then w.bits == 0 else w.bits != 0
  }

  function BranchTarget(instr: Instr, cond: Word): BlockId
    requires |instr.operands| == 3 && instr.operands[1].Blk? && instr.operands[2].Blk?
  {
    if Taken(instr.op, cond) then instr.operands[1].block else instr.operands[2].block
  }

  /** An operation: its result, void or not, is recorded under its id. */
  predicate OpStep(m: Machine, id: Id, instr: Instr, s: State, s': State) {
    && AllReady(instr.operands, s.env, m.params)
    && id in s'.env
    && s' == s.(pc := s.pc + 1, env := s.env[id := s'.env[id]], mem := s'.mem)
    && m.sem(instr.op, instr.ty, FetchAll(instr.operands, s.env, m.params), s.mem, s'.env[id], s'.mem)
  }

  predicate InstrStep(m: Machine, id: Id, instr: Instr, s: State, s': State) {
    if instr.op == Phi then false
    else if instr.op == Jmp then
      && |instr.operands| > 0 && instr.operands[0].Blk?
      && s' == s.(path := s.path + [instr.operands[0].block], pc := 0)
    else if IsCondBranch(instr.op) then
      && |instr.operands| == 3 && instr.operands[1].Blk? && instr.operands[2].Blk?
      && Ready(instr.operands[0], s.env, m.params)
      && s' == s.(path := s.path + [BranchTarget(instr, Fetch(instr.operands[0], s.env, m.params))], pc := 0)
    else if instr.op == Ret then
      if instr.operands == [] then s' == s.(ret := Some(None))
      else
        && Ready(instr.operands[0], s.env, m.params)
        && s' == s.(ret := Some(Some(Fetch(instr.operands[0], s.env, m.params))))
    else OpStep(m, id, instr, s, s')
  }

  ghost predicate Step(m: Machine, f: Function, s: State, s': State) {
    && s.ret.None?
    && s.path != [] && Last(s.path) in f.blocks
    && var list := f.blocks[Last(s.path)];
    var n := LeadingPhis(list, f.code);
    if s.pc == 0 && n > 0 then PhiStep(m, f, list, n, s, s')
    else s.pc < |list| && list[s.pc] in f.code && InstrStep(m, list[s.pc], f.code[list[s.pc]], s, s')
  }

  ghost predicate Initial(f: Function, s: State) {
    f.order != [] && s == State([f.order[0]], 0, map[], s.mem, None)
  }

  ghost predicate IsRun(m: Machine, f: Function, run: seq<State>) {
    && run != []
    && Initial(f, run[0])
    && forall i | 0 < i < |run| :: Step(m, f, run[i - 1], run[i])
  }

  /** The state has not returned, and nothing can happen in it. */
  ghost predicate Stuck(m: Machine, f: Function, s: State) {
    s.ret.None? && forall s' :: !Step(m, f, s, s')
  }

  lemma RunExtends(m: Machine, f: Function, run: seq<State>, s': State)
    requires IsRun(m, f, run) && Step(m, f, Last(run), s')
    ensures IsRun(m, f, run + [s']) && Last(run + [s']) == s' && (run + [s'])[|run| - 1] == Last(run)
  {
  }

  lemma RunShrinks(m: Machine, f: Function, run: seq<State>)
    requires IsRun(m, f, run) && |run| >= 2
    ensures var before := run[..|run| - 1];
            && IsRun(m, f, before) && before[0] == run[0]
            && Last(before) == run[|run| - 2] && Step(m, f, Last(before), Last(run))
  {
  }

  /** Started in mem, the function may visit the blocks of `path` and return `ret`, leaving mem'. */
  ghost predicate MayReturn(m: Machine, f: Function, mem: Memory, path: seq<BlockId>, ret: Option<Word>, mem': Memory) {
    exists run: seq<State> :: IsRun(m, f, run) && run[0].mem == mem
                  && Last(run).path == path && Last(run).ret == Some(ret) && Last(run).mem == mem'
  }

  /** Started in mem, the function may get stuck after visiting a prefix of `path`. */
  ghost predicate MayGetStuck(m: Machine, f: Function, mem: Memory, path: seq<BlockId>) {
    exists run: seq<State> :: IsRun(m, f, run) && run[0].mem == mem && Stuck(m, f, Last(run)) && Last(run).path <= path
  }
}
