/**
 Why a loop whose loads and stores were found apart can run in chunks: all lanes of one
 operation before the next operation, instead of all operations of one iteration before
 the next iteration.
 */
module VectorMemory {
  import opened IR
  import opened Scalar
  import opened TripSplit
  import opened SplitVisits
  import opened AliasGuard

  // ----- Bytes

  function ByteAt(mem: Memory, a: nat): nat {
    if a in mem then mem[a] else 0
  }

  /** How far a lies above start, round the end of the address space. */
  function Offset(start: int, a: nat): (r: nat)
    ensures r < TWO64
  {
    ToU64(a - start)
  }

  function Read(mem: Memory, start: int, size: nat): (r: seq<nat>) {
    if size == 0 then [] else Read(mem, start, size - 1) + [ByteAt(mem, ToU64(start + (size - 1)))]
  }

  function Write(mem: Memory, start: int, bytes: seq<nat>): Memory
    decreases |bytes|
  {
    if bytes == [] then mem else Write(mem[ToU64(start) := bytes[0]], start + 1, bytes[1..])
  }

  lemma OffsetStep(start: int, a: nat)
    requires a < TWO64
    ensures Offset(start, a) == 0 <==> a == ToU64(start)
    ensures Offset(start + 1, a) == if Offset(start, a) == 0 then TWO64 - 1 else Offset(start, a) - 1
  {
  }

  /** What is read back after a write. */
  lemma {:induction false} WriteAt(mem: Memory, start: int, bytes: seq<nat>, a: nat)
    requires a < TWO64 && |bytes| <= TWO64
    ensures ByteAt(Write(mem, start, bytes), a)
         == if Offset(start, a) < |bytes| then bytes[Offset(start, a)] else ByteAt(mem, a)
    decreases |bytes|
  {
    if bytes != [] {
      OffsetStep(start, a);
      WriteAt(mem[ToU64(start) := bytes[0]], start + 1, bytes[1..], a);
    }
  }

  lemma {:induction false} ReadIs(mem: Memory, mem': Memory, start: int, size: nat)
    requires size <= TWO64
    requires forall a: nat | a < TWO64 && Offset(start, a) < size :: ByteAt(mem, a) == ByteAt(mem', a)
    ensures Read(mem, start, size) == Read(mem', start, size)
  {
    if size > 0 {
      OffsetAbove(start, size - 1);
      ReadIs(mem, mem', start, size - 1);
    }
  }

  lemma OffsetAbove(start: int, k: nat)
    requires k < TWO64
    ensures Offset(start, ToU64(start + k)) == k
  {
  }

  // ----- The body of a loop

  /** A load, or a store of a value computed from what the iteration has loaded so far. */
  datatype Op = LoadOp(base: nat) | StoreOp(base: nat, value: seq<seq<nat>> -> seq<nat>)

  /** The operations, the address of each base, and the size of an element. */
  datatype LoopBody = LoopBody(ops: seq<Op>, addr: nat -> nat, size: nat)

  function Start(b: LoopBody, op: Op, i: int): int {
    b.addr(op.base) + i * b.size
  }

  // ----- The scalar loop

  /** Iteration i from its operation k, after the loads vals. */
  function Iteration(mem: Memory, b: LoopBody, i: int, k: nat, vals: seq<seq<nat>>): Memory
    requires k <= |b.ops|
    decreases |b.ops| - k
  {
    if k == |b.ops| then mem
    else if b.ops[k].LoadOp? then Iteration(mem, b, i, k + 1, vals + [Read(mem, Start(b, b.ops[k], i), b.size)])
    else Iteration(Write(mem, Start(b, b.ops[k], i), b.ops[k].value(vals)), b, i, k + 1, vals)
  }

  /** The iterations from lo below hi, one after another. */
  function ScalarLoop(mem: Memory, b: LoopBody, lo: int, hi: int): Memory
    decreases hi - lo
  {
    if lo >= hi then mem else ScalarLoop(Iteration(mem, b, lo, 0, []), b, lo + 1, hi)
  }

  // ----- Apartness

  /** Every value has the size of an element, and two operations of which one stores are apart. */
  ghost predicate Apart(b: LoopBody, lo: int, hi: int) {
    && 1 <= b.size <= 8 && hi - lo <= TWO32
    && (forall k, vs: seq<seq<nat>> | 0 <= k < |b.ops| && b.ops[k].StoreOp? :: |b.ops[k].value(vs)| == b.size)
    && (forall j, k | 0 <= j < |b.ops| && 0 <= k < |b.ops| && j != k && (b.ops[j].StoreOp? || b.ops[k].StoreOp?) ::
          Separate(b.addr(b.ops[j].base), b.addr(b.ops[k].base), lo, hi, b.size))
  }

  /** The byte a belongs to what the operation touches in iteration i. */
  predicate Covers(b: LoopBody, op: Op, i: int, a: nat) {
    a < TWO64 && Offset(Start(b, op, i), a) < b.size
  }

  /** Two elements that share a byte start less than an element apart, round the address space. */
  lemma Overlap(s: int, t: int, size: nat, a: nat)
    requires Offset(s, a) < size && Offset(t, a) < size
    ensures exists n: int :: 0 - size < s - t - n * TWO64 < size
  {
    var u, v := (a - s) / TWO64, (a - t) / TWO64;
    assert a - s == u * TWO64 + Offset(s, a) && a - t == v * TWO64 + Offset(t, a);
    var n := v - u;
    assert 0 - size < s - t - n * TWO64 < size;
  }

  lemma NoOverlap(s: int, t: int, size: nat, a: nat)
    requires size <= 8
    requires size <= s - t <= TWO64 - size || size <= t - s <= TWO64 - size
    ensures !(Offset(s, a) < size && Offset(t, a) < size)
  {
    if Offset(s, a) < size && Offset(t, a) < size {
      Overlap(s, t, size, a);
    }
  }

  /** Different elements of one array do not share a byte. */
  lemma ElementsApart(b: LoopBody, op: Op, i: int, j: int, a: nat)
    requires 1 <= b.size <= 8 && i != j && 0 - TWO32 <= i - j <= TWO32
    ensures !(Covers(b, op, i, a) && Covers(b, op, j, a))
  {
    Spread(i, j, b.size);
    StartsApart(i - j, b.size);
    hide Offset;
    NoOverlap(Start(b, op, i), Start(b, op, j), b.size, a);
  }

  lemma StartsApart(d: int, size: nat)
    requires 1 <= size <= 8 && d != 0 && 0 - TWO32 <= d <= TWO32
    ensures size <= d * size <= TWO64 - size || size <= -(d * size) <= TWO64 - size
  {
    if d > 0 { MulLe(size, 1, d); MulLe(size, d, TWO32); } else { MulLe(size, d, -1); MulLe(size, 0 - TWO32, d); }
  }

  lemma OperationsApart(b: LoopBody, lo: int, hi: int, j: nat, k: nat, i: int, i': int, a: nat)
    requires Apart(b, lo, hi) && j < |b.ops| && k < |b.ops| && j != k && (b.ops[j].StoreOp? || b.ops[k].StoreOp?)
    requires lo <= i < hi && lo <= i' < hi
    ensures !(Covers(b, b.ops[j], i, a) && Covers(b, b.ops[k], i', a))
  {
    var p, q := b.addr(b.ops[j].base), b.addr(b.ops[k].base);
    assert Separate(p, q, lo, hi, b.size) && 1 <= b.size <= 8;
    hide Apart, Offset;
    InRange2(p, q, lo, hi, b.size, i, i');
    NoOverlap(Start(b, b.ops[j], i), Start(b, b.ops[k], i'), b.size, a);
  }

  lemma InRange2(p: nat, q: nat, lo: int, hi: int, size: nat, i: int, i': int)
    requires Separate(p, q, lo, hi, size) && lo <= i < hi && lo <= i' < hi && size >= 1
    ensures var s, t := p + i * size, q + i' * size;
            size <= s - t <= TWO64 - size || size <= t - s <= TWO64 - size
  {
    hide *;
    var x, y, u, v := lo * size, hi * size, i * size, i' * size;
    MulLe(size, lo, i);
    MulLe(size, i + 1, hi);
    MulLe(size, lo, i');
    MulLe(size, i' + 1, hi);
    Spread(i + 1, 1, size);
    Spread(i' + 1, 1, size);
    SeparateIs(p, q, lo, hi, size, x, y);
  }

  lemma SeparateIs(p: nat, q: nat, lo: int, hi: int, size: nat, x: int, y: int)
    requires Separate(p, q, lo, hi, size) && x == lo * size && y == hi * size
    ensures 0 <= p + x && p + y <= TWO64 && 0 <= q + x && q + y <= TWO64 && (p + y <= q + x || q + y <= p + x)
  {
  }

  // ----- What memory holds, whatever the order

  /** What the loads before operation k bring in iteration i, from the memory before the loop. */
  ghost function LoadsBefore(mem0: Memory, b: LoopBody, k: nat, i: int): seq<seq<nat>>
    requires k <= |b.ops|
  {
    if k == 0 then []
    else
      LoadsBefore(mem0, b, k - 1, i)
        + if b.ops[k - 1].LoadOp? then [Read(mem0, Start(b, b.ops[k - 1], i), b.size)] else []
  }

  /** What the store k writes in iteration i. */
  ghost function Stored(mem0: Memory, b: LoopBody, k: nat, i: int): seq<nat>
    requires k < |b.ops| && b.ops[k].StoreOp?
  {
    b.ops[k].value(LoadsBefore(mem0, b, k, i))
  }

  ghost function StoredByte(mem0: Memory, b: LoopBody, k: nat, i: int, a: nat): nat
    requires k < |b.ops| && b.ops[k].StoreOp?
  {
    var bytes, at := Stored(mem0, b, k, i), Offset(Start(b, b.ops[k], i), a);
    if at < |bytes| then bytes[at] else 0
  }

  /**
   How far a loop is: all iterations below from, the operations before k for the vf iterations
   from there, and operation k itself for the first l of them. The scalar loop has vf == 1.
   */
  datatype Progress = Progress(from: int, vf: nat, k: nat, l: nat)

  predicate Made(p: Progress, k: nat, i: int) {
    i < p.from || (i < p.from + p.vf && k < p.k) || (k == p.k && i < p.from + p.l)
  }

  /** Store k of iteration i has been made. */
  predicate StoreMade(b: LoopBody, lo: int, hi: int, p: Progress, k: nat, i: int) {
    k < |b.ops| && b.ops[k].StoreOp? && lo <= i < hi && Made(p, k, i)
  }

  ghost predicate Untouched(b: LoopBody, lo: int, hi: int, p: Progress, a: nat) {
    forall k: nat, i: int | StoreMade(b, lo, hi, p, k, i) :: !Covers(b, b.ops[k], i, a)
  }

  /** The stores that were made left their value; all other bytes are as before the loop. */
  ghost predicate Explained(mem: Memory, mem0: Memory, b: LoopBody, lo: int, hi: int, p: Progress) {
    && (forall k: nat, i: int, a: nat | StoreMade(b, lo, hi, p, k, i) && Covers(b, b.ops[k], i, a) ::
          ByteAt(mem, a) == StoredByte(mem0, b, k, i, a))
    && (forall a: nat | a < TWO64 && Untouched(b, lo, hi, p, a) :: ByteAt(mem, a) == ByteAt(mem0, a))
  }

  lemma NothingMade(mem0: Memory, b: LoopBody, lo: int, hi: int, vf: nat)
    ensures Explained(mem0, mem0, b, lo, hi, Progress(lo, vf, 0, 0))
  {
  }

  /** Only the stores made matter. */
  lemma SameProgress(mem: Memory, mem0: Memory, b: LoopBody, lo: int, hi: int, p: Progress, p': Progress)
    requires Explained(mem, mem0, b, lo, hi, p)
    requires forall k: nat, i: int :: StoreMade(b, lo, hi, p, k, i) <==> StoreMade(b, lo, hi, p', k, i)
    ensures Explained(mem, mem0, b, lo, hi, p')
  {
    hide Covers, StoreMade, StoredByte;
    forall a: nat | a < TWO64 && Untouched(b, lo, hi, p', a)
      ensures ByteAt(mem, a) == ByteAt(mem0, a)
    {
      assert Untouched(b, lo, hi, p, a);
    }
  }

  /** Nothing else fits the description. */
  lemma Determined(mem: Memory, mem': Memory, mem0: Memory, b: LoopBody, lo: int, hi: int, p: Progress, a: nat)
    requires Explained(mem, mem0, b, lo, hi, p) && Explained(mem', mem0, b, lo, hi, p) && a < TWO64
    ensures ByteAt(mem, a) == ByteAt(mem', a)
  {
    hide Covers, StoredByte;
    if !Untouched(b, lo, hi, p, a) {
      var k: nat, i: int :| k < |b.ops| && StoreMade(b, lo, hi, p, k, i) && Covers(b, b.ops[k], i, a);
    }
  }

  /** A load sees the memory before the loop. */
  lemma LoadSeesStart(mem: Memory, mem0: Memory, b: LoopBody, lo: int, hi: int, p: Progress, k: nat, i: int)
    requires Apart(b, lo, hi) && Explained(mem, mem0, b, lo, hi, p)
    requires k < |b.ops| && b.ops[k].LoadOp? && lo <= i < hi
    ensures Read(mem, Start(b, b.ops[k], i), b.size) == Read(mem0, Start(b, b.ops[k], i), b.size)
  {
    forall a: nat | a < TWO64 && Offset(Start(b, b.ops[k], i), a) < b.size
      ensures ByteAt(mem, a) == ByteAt(mem0, a)
    {
      assert Covers(b, b.ops[k], i, a);
      hide Covers, Apart, Offset, Start;
      forall j: nat, i': int | StoreMade(b, lo, hi, p, j, i')
        ensures !Covers(b, b.ops[j], i', a)
      {
        OperationsApart(b, lo, hi, j, k, i', i, a);
      }
      assert Untouched(b, lo, hi, p, a);
    }
    ReadIs(mem, mem0, Start(b, b.ops[k], i), b.size);
  }

  /** A byte of another store is not in this one. */
  lemma StoresApart(b: LoopBody, lo: int, hi: int, k: nat, i: int, j: nat, i': int, a: nat)
    requires Apart(b, lo, hi) && k < |b.ops| && b.ops[k].StoreOp? && lo <= i < hi
    requires j < |b.ops| && b.ops[j].StoreOp? && lo <= i' < hi && !(j == k && i' == i)
    ensures !(Covers(b, b.ops[j], i', a) && Covers(b, b.ops[k], i, a))
  {
    if j != k {
      hide Apart, Covers;
      OperationsApart(b, lo, hi, j, k, i', i, a);
    } else {
      assert 1 <= b.size <= 8 && hi - lo <= TWO32;
      hide Apart, Covers;
      ElementsApart(b, b.ops[k], i, i', a);
    }
  }

  lemma StoredSize(mem0: Memory, b: LoopBody, lo: int, hi: int, k: nat, i: int)
    requires Apart(b, lo, hi) && k < |b.ops| && b.ops[k].StoreOp?
    ensures |Stored(mem0, b, k, i)| == b.size <= 8
  {
  }

  lemma ByteAfterStore(mem: Memory, mem0: Memory, b: LoopBody, lo: int, hi: int, k: nat, i: int, a: nat)
    requires Apart(b, lo, hi) && k < |b.ops| && b.ops[k].StoreOp? && a < TWO64
    ensures ByteAt(Write(mem, Start(b, b.ops[k], i), Stored(mem0, b, k, i)), a)
         == if Covers(b, b.ops[k], i, a) then StoredByte(mem0, b, k, i, a) else ByteAt(mem, a)
  {
    StoredSize(mem0, b, lo, hi, k, i);
    hide Write, Stored, Start, Offset, Apart;
    WriteAt(mem, Start(b, b.ops[k], i), Stored(mem0, b, k, i), a);
  }

  /** One more store. */
  lemma StoreExplained(mem: Memory, mem0: Memory, b: LoopBody, lo: int, hi: int, p: Progress, p': Progress, k: nat,
                       i: int)
    requires Apart(b, lo, hi) && Explained(mem, mem0, b, lo, hi, p)
    requires k < |b.ops| && b.ops[k].StoreOp? && lo <= i < hi
    requires forall j: nat, i': int :: StoreMade(b, lo, hi, p', j, i')
               <==> StoreMade(b, lo, hi, p, j, i') || (j == k && i' == i)
    ensures Explained(Write(mem, Start(b, b.ops[k], i), Stored(mem0, b, k, i)), mem0, b, lo, hi, p')
  {
    var mem' := Write(mem, Start(b, b.ops[k], i), Stored(mem0, b, k, i));
    forall a: nat | a < TWO64
      ensures ByteAt(mem', a) == if Covers(b, b.ops[k], i, a) then StoredByte(mem0, b, k, i, a) else ByteAt(mem, a)
    {
      ByteAfterStore(mem, mem0, b, lo, hi, k, i, a);
    }
    forall j: nat, i': int, a: nat | StoreMade(b, lo, hi, p', j, i') && Covers(b, b.ops[j], i', a)
      ensures ByteAt(mem', a) == StoredByte(mem0, b, j, i', a)
    {
      assert a < TWO64 && lo <= i' < hi && j < |b.ops| && b.ops[j].StoreOp?;
      hide Write, Stored, Apart, Covers, StoreMade, StoredByte, Untouched, Start, ByteAt;
      if !(j == k && i' == i) {
        StoresApart(b, lo, hi, k, i, j, i', a);
      }
    }
    forall a: nat | a < TWO64 && Untouched(b, lo, hi, p', a)
      ensures ByteAt(mem', a) == ByteAt(mem0, a)
    {
      hide Write, Stored, Apart, Covers, StoreMade, StoredByte, Start, ByteAt;
      assert StoreMade(b, lo, hi, p', k, i);
      assert Untouched(b, lo, hi, p, a);
    }
  }

  // ----- The scalar order

  lemma {:induction false} IterationExplained(mem: Memory, mem0: Memory, b: LoopBody, lo: int, hi: int, i: int, k: nat)
    requires Apart(b, lo, hi) && lo <= i < hi && k <= |b.ops|
    requires Explained(mem, mem0, b, lo, hi, Progress(i, 1, k, 0))
    ensures Explained(Iteration(mem, b, i, k, LoadsBefore(mem0, b, k, i)), mem0, b, lo, hi, Progress(i + 1, 1, 0, 0))
    decreases |b.ops| - k
  {
    hide Explained, Apart, Write, Read, Start;
    if k == |b.ops| {
      SameProgress(mem, mem0, b, lo, hi, Progress(i, 1, k, 0), Progress(i + 1, 1, 0, 0));
    } else if b.ops[k].LoadOp? {
      LoadSeesStart(mem, mem0, b, lo, hi, Progress(i, 1, k, 0), k, i);
      SameProgress(mem, mem0, b, lo, hi, Progress(i, 1, k, 0), Progress(i, 1, k + 1, 0));
      IterationExplained(mem, mem0, b, lo, hi, i, k + 1);
    } else {
      StoreExplained(mem, mem0, b, lo, hi, Progress(i, 1, k, 0), Progress(i, 1, k + 1, 0), k, i);
      assert LoadsBefore(mem0, b, k + 1, i) == LoadsBefore(mem0, b, k, i);
      IterationExplained(Write(mem, Start(b, b.ops[k], i), Stored(mem0, b, k, i)), mem0, b, lo, hi, i, k + 1);
    }
  }

  lemma {:induction false} ScalarExplained(mem: Memory, mem0: Memory, b: LoopBody, lo: int, hi: int, i: int, end: int)
    requires Apart(b, lo, hi) && lo <= i <= end <= hi && Explained(mem, mem0, b, lo, hi, Progress(i, 1, 0, 0))
    ensures Explained(ScalarLoop(mem, b, i, end), mem0, b, lo, hi, Progress(end, 1, 0, 0))
    decreases end - i
  {
    hide Explained, Apart, Iteration;
    if i < end {
      IterationExplained(mem, mem0, b, lo, hi, i, 0);
      ScalarExplained(Iteration(mem, b, i, 0, []), mem0, b, lo, hi, i + 1, end);
    }
  }

  // ----- The vector order

  /** Every lane has loaded what its own iteration loads. */
  ghost predicate LanesHold(lanes: seq<seq<seq<nat>>>, mem0: Memory, b: LoopBody, i: int, k: nat) {
    k <= |b.ops| && forall l: nat | l < |lanes| :: lanes[l] == LoadsBefore(mem0, b, k, i + l)
  }

  /** A vector load: one element for each lane. */
  method VectorLoad(mem: Memory, b: LoopBody, i: int, k: nat, lanes: seq<seq<seq<nat>>>,
                    ghost mem0: Memory, ghost lo: int, ghost hi: int)
    returns (r: seq<seq<seq<nat>>>)
    requires lo <= i && i + |lanes| <= hi && k < |b.ops| && b.ops[k].LoadOp?
    requires Apart(b, lo, hi)
             ==> Explained(mem, mem0, b, lo, hi, Progress(i, |lanes|, k, 0)) && LanesHold(lanes, mem0, b, i, k)
    ensures |r| == |lanes| && (Apart(b, lo, hi) ==> LanesHold(r, mem0, b, i, k + 1))
  {
    hide Explained, Apart, Read, Start;
    r := lanes;
    for l := 0 to |lanes|
      invariant |r| == |lanes|
      invariant Apart(b, lo, hi) ==> forall m: nat | m < l :: r[m] == LoadsBefore(mem0, b, k + 1, i + m)
      invariant Apart(b, lo, hi) ==> forall m: nat | l <= m < |lanes| :: r[m] == LoadsBefore(mem0, b, k, i + m)
    {
      if Apart(b, lo, hi) { LoadSeesStart(mem, mem0, b, lo, hi, Progress(i, |lanes|, k, 0), k, i + l); }
      r := r[l := r[l] + [Read(mem, Start(b, b.ops[k], i + l), b.size)]];
    }
  }

  /** A vector store: each lane's value at its own element. */
  method VectorStore(mem: Memory, b: LoopBody, i: int, k: nat, lanes: seq<seq<seq<nat>>>,
                     ghost mem0: Memory, ghost lo: int, ghost hi: int)
    returns (r: Memory)
    requires lo <= i && i + |lanes| <= hi && k < |b.ops| && b.ops[k].StoreOp?
    requires Apart(b, lo, hi)
             ==> Explained(mem, mem0, b, lo, hi, Progress(i, |lanes|, k, 0)) && LanesHold(lanes, mem0, b, i, k)
    ensures Apart(b, lo, hi) ==> Explained(r, mem0, b, lo, hi, Progress(i, |lanes|, k + 1, 0))
  {
    hide Explained, Apart, Write, Start;
    r := mem;
    for l := 0 to |lanes|
      invariant Apart(b, lo, hi) ==> Explained(r, mem0, b, lo, hi, Progress(i, |lanes|, k, l))
    {
      if Apart(b, lo, hi) {
        StoreExplained(r, mem0, b, lo, hi, Progress(i, |lanes|, k, l), Progress(i, |lanes|, k, l + 1), k, i + l);
      }
      r := Write(r, Start(b, b.ops[k], i + l), b.ops[k].value(lanes[l]));
    }
    if Apart(b, lo, hi) {
      SameProgress(r, mem0, b, lo, hi, Progress(i, |lanes|, k, |lanes|), Progress(i, |lanes|, k + 1, 0));
    }
  }

  /** One round of the vector loop. */
  method VectorRound(mem: Memory, b: LoopBody, i: int, vf: nat, ghost mem0: Memory, ghost lo: int, ghost hi: int)
    returns (r: Memory)
    requires lo <= i && i + vf <= hi
    requires Apart(b, lo, hi) ==> Explained(mem, mem0, b, lo, hi, Progress(i, vf, 0, 0))
    ensures Apart(b, lo, hi) ==> Explained(r, mem0, b, lo, hi, Progress(i + vf, vf, 0, 0))
  {
    hide Explained, Apart, Made;
    r := mem;
    var lanes: seq<seq<seq<nat>>> := seq(vf, _ => []);
    for k := 0 to |b.ops|
      invariant |lanes| == vf
      invariant Apart(b, lo, hi)
                ==> LanesHold(lanes, mem0, b, i, k) && Explained(r, mem0, b, lo, hi, Progress(i, vf, k, 0))
    {
      if b.ops[k].LoadOp? {
        lanes := VectorLoad(r, b, i, k, lanes, mem0, lo, hi);
        if Apart(b, lo, hi) { LoadMoves(r, mem0, b, lo, hi, i, vf, k); }
      } else {
        r := VectorStore(r, b, i, k, lanes, mem0, lo, hi);
        if Apart(b, lo, hi) { StoreKeepsLanes(lanes, mem0, b, i, k); }
      }
    }
    if Apart(b, lo, hi) { RoundDone(r, mem0, b, lo, hi, i, vf); }
  }

  lemma LoadMoves(mem: Memory, mem0: Memory, b: LoopBody, lo: int, hi: int, i: int, vf: nat, k: nat)
    requires k < |b.ops| && b.ops[k].LoadOp? && Explained(mem, mem0, b, lo, hi, Progress(i, vf, k, 0))
    ensures Explained(mem, mem0, b, lo, hi, Progress(i, vf, k + 1, 0))
  {
    hide Explained;
    SameProgress(mem, mem0, b, lo, hi, Progress(i, vf, k, 0), Progress(i, vf, k + 1, 0));
  }

  lemma StoreKeepsLanes(lanes: seq<seq<seq<nat>>>, mem0: Memory, b: LoopBody, i: int, k: nat)
    requires LanesHold(lanes, mem0, b, i, k) && k < |b.ops| && b.ops[k].StoreOp?
    ensures LanesHold(lanes, mem0, b, i, k + 1)
  {
    forall l: nat | l < |lanes|
      ensures lanes[l] == LoadsBefore(mem0, b, k + 1, i + l)
    {
      assert LoadsBefore(mem0, b, k + 1, i + l) == LoadsBefore(mem0, b, k, i + l) + [];
    }
  }

  lemma RoundDone(mem: Memory, mem0: Memory, b: LoopBody, lo: int, hi: int, i: int, vf: nat)
    requires Explained(mem, mem0, b, lo, hi, Progress(i, vf, |b.ops|, 0))
    ensures Explained(mem, mem0, b, lo, hi, Progress(i + vf, vf, 0, 0))
  {
    hide Explained;
    SameProgress(mem, mem0, b, lo, hi, Progress(i, vf, |b.ops|, 0), Progress(i + vf, vf, 0, 0));
  }

  /** The vector loop up to mid, if that lies ahead. */
  method VectorLoop(mem: Memory, b: LoopBody, lo: int, mid: int, vf: nat, ghost chunks: nat, ghost hi: int)
    returns (r: Memory)
    requires vf >= 1 && lo + chunks * vf <= hi && (mid == lo + chunks * vf || (chunks == 0 && mid <= lo))
    ensures Apart(b, lo, hi) ==> Explained(r, mem, b, lo, hi, Progress(lo + chunks * vf, 1, 0, 0))
    ensures chunks == 0 ==> r == mem
  {
    hide Explained, Apart, Made;
    r := mem;
    NothingMade(mem, b, lo, hi, vf);
    var i := lo;
    ghost var c: nat := 0;
    while i < mid
      invariant c <= chunks && i == lo + c * vf && (i <= mid || c == chunks) && (c == 0 ==> r == mem)
      invariant Apart(b, lo, hi) ==> Explained(r, mem, b, lo, hi, Progress(i, vf, 0, 0))
      decreases mid - i
    {
      NextChunk(c, chunks, vf);
      r := VectorRound(r, b, i, vf, mem, lo, hi);
      i := i + vf;
      c := c + 1;
    }
    if c < chunks { NextChunk(c, chunks, vf); }
    if Apart(b, lo, hi) { LoopDone(r, mem, b, lo, hi, i, vf); }
  }

  lemma NextChunk(c: nat, chunks: nat, vf: nat)
    requires vf >= 1 && c * vf < chunks * vf
    ensures (c + 1) * vf == c * vf + vf <= chunks * vf && c < chunks
  {
    if chunks <= c { MulLe(vf, chunks, c); }
    MulLe(vf, c + 1, chunks);
  }

  lemma LoopDone(mem: Memory, mem0: Memory, b: LoopBody, lo: int, hi: int, mid: int, vf: nat)
    requires Explained(mem, mem0, b, lo, hi, Progress(mid, vf, 0, 0))
    ensures Explained(mem, mem0, b, lo, hi, Progress(mid, 1, 0, 0))
  {
    hide Explained;
    SameProgress(mem, mem0, b, lo, hi, Progress(mid, vf, 0, 0), Progress(mid, 1, 0, 0));
  }

  /** The same bytes throughout the address space. */
  ghost predicate SameMemory(mem: Memory, mem': Memory) {
    forall a: nat | a < TWO64 :: ByteAt(mem, a) == ByteAt(mem', a)
  }

  /** Chunks up to any point and the scalar loop from there leave memory as the scalar loop alone. */
  lemma ChunksThenScalar(mem: Memory, mid': Memory, b: LoopBody, lo: int, mid: int, hi: int, end: int)
    requires Apart(b, lo, hi) && lo <= mid <= end <= hi && Explained(mid', mem, b, lo, hi, Progress(mid, 1, 0, 0))
    ensures SameMemory(ScalarLoop(mid', b, mid, end), ScalarLoop(mem, b, lo, end))
  {
    hide Apart, Explained, ScalarLoop, ByteAt;
    NothingMade(mem, b, lo, hi, 1);
    ScalarExplained(mem, mem, b, lo, hi, lo, end);
    ScalarExplained(mid', mem, b, lo, hi, mid, end);
    forall a: nat | a < TWO64
      ensures ByteAt(ScalarLoop(mid', b, mid, end), a) == ByteAt(ScalarLoop(mem, b, lo, end), a)
    {
      Determined(ScalarLoop(mid', b, mid, end), ScalarLoop(mem, b, lo, end), mem, b, lo, hi, Progress(end, 1, 0, 0), a);
    }
  }

  /** The iterations at the visited indices, in their order. */
  function RunVisits(mem: Memory, b: LoopBody, v: seq<int>): Memory
    decreases |v|
  {
    if v == [] then mem else RunVisits(Iteration(mem, b, v[0], 0, []), b, v[1..])
  }

  lemma {:induction false} VisitsInARow(mem: Memory, b: LoopBody, lo: int, v: seq<int>)
    requires forall k: nat | k < |v| :: v[k] == lo + k
    ensures RunVisits(mem, b, v) == ScalarLoop(mem, b, lo, lo + |v|)
    decreases |v|
  {
    hide Iteration;
    if v != [] {
      assert v[0] == lo;
      VisitsInARow(Iteration(mem, b, lo, 0, []), b, lo + 1, v[1..]);
    }
  }

  /** Counters that do not wrap run the iterations of the scalar loop. */
  lemma CountersInARow(mem: Memory, b: LoopBody, first: nat, n: nat)
    requires first < TWO32 && S32(first) + n < TWO31
    ensures RunVisits(mem, b, Visits(first, 1, n)) == ScalarLoop(mem, b, S32(first), S32(first) + n)
  {
    SignedWord(first);
    hide S32, Counter, RunVisits, ScalarLoop;
    forall k: nat | k < n
      ensures Visits(first, 1, n)[k] == S32(first) + k
    {
      CounterIs(first, 1, k, S32(first));
    }
    VisitsInARow(mem, b, S32(first), Visits(first, 1, n));
  }

  // ----- The versioned loop

  /** How the vectorizer records the operations. */
  function AccessesOf(b: LoopBody): (r: seq<MemoryAccess>)
    ensures |r| == |b.ops|
    ensures forall k: nat | k < |r| :: r[k] == MemoryAccess(b.ops[k].StoreOp?, b.ops[k].base, 0, b.size)
  {
    seq(|b.ops|, k requires 0 <= k < |b.ops| => MemoryAccess(b.ops[k].StoreOp?, b.ops[k].base, 0, b.size))
  }

  ghost predicate GoodBody(b: LoopBody) {
    && 1 <= b.size <= 8 && (forall base: nat :: b.addr(base) < TWO64)
    && (forall k, vs: seq<seq<nat>> | 0 <= k < |b.ops| && b.ops[k].StoreOp? :: |b.ops[k].value(vs)| == b.size)
  }

  /** Different allocations do not share what the loop touches of them. */
  ghost predicate AllocationsApart(b: LoopBody, allocs: set<nat>, lo: int, hi: int) {
    forall p: nat, q: nat | p != q && p in allocs && q in allocs :: Separate(b.addr(p), b.addr(q), lo, hi, b.size)
  }

  /** The guard's answer for all checks. */
  ghost predicate GuardHolds(b: LoopBody, checks: seq<(nat, nat)>, init: nat, bound: nat) {
    forall c | c in checks ::
        PairSafe(b.addr(c.0), b.addr(c.1), ToU64(U32(bound - init) * b.size), ToU64(bound * b.size), S32(init) >= 0)
  }

  lemma SeparateSwaps(p: nat, q: nat, lo: int, hi: int, size: nat)
    requires Separate(p, q, lo, hi, size)
    ensures Separate(q, p, lo, hi, size)
  {
  }

  /** The end of what the loop touches when it counts up from the start as often as was counted. */
  function TouchedEnd(init: nat, bound: nat): int {
    S32(init) + U32(bound - init)
  }

  /** A count worth splitting, from a start that is not negative, ends at the bound as an unsigned word. */
  lemma TouchedToBound(init: nat, bound: nat, vf: nat)
    requires init < TWO32 && bound < TWO32 && vf >= 1 && HasVec(TripCount(init, bound, 1), vf) && S32(init) == init
    ensures TouchedEnd(init, bound) == bound
  {
    S32Is(init);
    U32Is(bound - init);
    S32Is(U32(bound - init));
    hide S32, U32;
  }

  lemma PairIsSeparate(b: LoopBody, allocs: set<nat>, checks: seq<(nat, nat)>, init: nat, bound: nat, vf: nat, j: nat,
                       k: nat)
    requires GoodBody(b) && init < TWO32 && bound < TWO32 && vf >= 1 && HasVec(TripCount(init, bound, 1), vf)
    requires AllocationsApart(b, allocs, S32(init), TouchedEnd(init, bound))
    requires ChecksUpTo(AccessesOf(b), allocs, |b.ops|, 0, checks) && GuardHolds(b, checks, init, bound)
    requires j < k < |b.ops| && (b.ops[j].StoreOp? || b.ops[k].StoreOp?)
    ensures Separate(b.addr(b.ops[j].base), b.addr(b.ops[k].base), S32(init), TouchedEnd(init, bound), b.size)
  {
    hide S32, U32, PairSafe, Separate, ToU64, TripCount, HasVec, TouchedEnd;
    var accesses := AccessesOf(b);
    var p, q := b.ops[j].base, b.ops[k].base;
    assert !SameBaseWrite(accesses[j], accesses[k]);
    if NeedsCheck(allocs, accesses[j], accesses[k]) {
      var c := OrderedPair(p, q);
      assert c in checks;
      hide ChecksUpTo;
      GuardIsSound(b.addr(c.0), b.addr(c.1), init, bound, b.size);
      TouchedToBound(init, bound, vf);
      SeparateSwaps(b.addr(c.0), b.addr(c.1), init, bound, b.size);
    }
  }

  /** Accesses that pass the classification and the guard are apart. */
  lemma GuardedIsApart(b: LoopBody, allocs: set<nat>, checks: seq<(nat, nat)>, init: nat, bound: nat, vf: nat)
    requires GoodBody(b) && init < TWO32 && bound < TWO32 && vf >= 1 && HasVec(TripCount(init, bound, 1), vf)
    requires AllocationsApart(b, allocs, S32(init), TouchedEnd(init, bound))
    requires ChecksUpTo(AccessesOf(b), allocs, |b.ops|, 0, checks) && GuardHolds(b, checks, init, bound)
    ensures Apart(b, S32(init), TouchedEnd(init, bound))
  {
    U32Is(bound - init);
    assert TouchedEnd(init, bound) - S32(init) <= TWO32;
    hide S32, U32, ChecksUpTo, GuardHolds, Separate, AllocationsApart, TripCount, HasVec, TouchedEnd;
    forall j, k | 0 <= j < |b.ops| && 0 <= k < |b.ops| && j != k && (b.ops[j].StoreOp? || b.ops[k].StoreOp?)
      ensures Separate(b.addr(b.ops[j].base), b.addr(b.ops[k].base), S32(init), TouchedEnd(init, bound), b.size)
    {
      if j < k {
        PairIsSeparate(b, allocs, checks, init, bound, vf, j, k);
      } else {
        PairIsSeparate(b, allocs, checks, init, bound, vf, k, j);
        SeparateSwaps(b.addr(b.ops[k].base), b.addr(b.ops[j].base), S32(init), TouchedEnd(init, bound), b.size);
      }
    }
  }

  /** What the code asks of the operations p and q. */
  ghost predicate PairPasses(b: LoopBody, allocs: set<nat>, init: nat, bound: nat, p: nat, q: nat)
    requires p < |b.ops| && q < |b.ops|
  {
    var x, y := AccessesOf(b)[p], AccessesOf(b)[q];
    var c := OrderedPair(x.base, y.base);
    && !SameBaseWrite(x, y)
    && (NeedsCheck(allocs, x, y) ==>
          PairSafe(b.addr(c.0), b.addr(c.1), ToU64(U32(bound - init) * b.size), ToU64(bound * b.size), S32(init) >= 0))
  }

  ghost predicate AllPairsPass(b: LoopBody, allocs: set<nat>, init: nat, bound: nat) {
    forall p: nat, q: nat | p < q < |b.ops| :: PairPasses(b, allocs, init, bound, p, q)
  }

  /** The list of checks stands for the pairs that need one. */
  lemma ChecksStandForPairs(b: LoopBody, allocs: set<nat>, checks: seq<(nat, nat)>, init: nat, bound: nat)
    requires ChecksUpTo(AccessesOf(b), allocs, |b.ops|, 0, checks)
    ensures GuardHolds(b, checks, init, bound) <==> AllPairsPass(b, allocs, init, bound)
  {
    var accesses := AccessesOf(b);
    hide S32, U32, PairSafe, ToU64, NeedsCheck, SameBaseWrite, OrderedPair;
    if GuardHolds(b, checks, init, bound) {
      forall p: nat, q: nat | p < q < |b.ops|
        ensures PairPasses(b, allocs, init, bound, p, q)
      {
        assert !SameBaseWrite(accesses[p], accesses[q]);
      }
    }
    if AllPairsPass(b, allocs, init, bound) {
      forall c | c in checks
        ensures PairSafe(b.addr(c.0), b.addr(c.1), ToU64(U32(bound - init) * b.size), ToU64(bound * b.size),
                         S32(init) >= 0)
      {
        assert Called(accesses, allocs, c);
        var p, q :| 0 <= p < q < |accesses| && NeedsCheck(allocs, accesses[p], accesses[q])
           && c == OrderedPair(accesses[p].base, accesses[q].base);
        assert PairPasses(b, allocs, init, bound, p, q);
      }
    }
  }

  lemma SameBaseFails(b: LoopBody, allocs: set<nat>, init: nat, bound: nat)
    requires exists p, q :: 0 <= p < q < |b.ops| && SameBaseWrite(AccessesOf(b)[p], AccessesOf(b)[q])
    ensures !AllPairsPass(b, allocs, init, bound)
  {
    hide SameBaseWrite;
    var p, q :| 0 <= p < q < |b.ops| && SameBaseWrite(AccessesOf(b)[p], AccessesOf(b)[q]);
    assert !PairPasses(b, allocs, init, bound, p, q);
  }

  /** Classification and guard: whether the vector loop may run. */
  method MayVectorize(b: LoopBody, allocs: set<nat>, init: nat, bound: nat, ghost vf: nat) returns (ok: bool)
    requires GoodBody(b) && init < TWO32 && bound < TWO32 && vf >= 1
    ensures ok <==> AllPairsPass(b, allocs, init, bound)
    ensures ok && HasVec(TripCount(init, bound, 1), vf)
            && AllocationsApart(b, allocs, S32(init), TouchedEnd(init, bound))
            ==> Apart(b, S32(init), TouchedEnd(init, bound))
  {
    assert 1 <= b.size;
    hide *;
    Sizes(b);
    var kind, checks := ClassifyMemory(AccessesOf(b), allocs);
    ok := kind != Unsafe;
    if kind == RequiresRuntimeCheck {
      ok := EvaluateGuard(checks, b.addr, init, bound, b.size);
    }
    if kind == Unsafe {
      SameBaseFails(b, allocs, init, bound);
    } else {
      AllChecked(b, allocs, checks);
      GuardEvaluated(b, checks, init, bound);
      ChecksStandForPairs(b, allocs, checks, init, bound);
      if ok && HasVec(TripCount(init, bound, 1), vf)
         && AllocationsApart(b, allocs, S32(init), TouchedEnd(init, bound)) {
        GuardedIsApart(b, allocs, checks, init, bound, vf);
      }
    }
  }

  lemma TouchedOrdered(init: nat, bound: nat)
    requires init < TWO32 && bound < TWO32 && S32(init) <= S32(bound)
    ensures TouchedEnd(init, bound) == S32(bound)
  {
    S32Is(init);
    S32Is(bound);
    U32Is(bound - init);
    hide S32, U32;
  }

  lemma UnitFacts(init: nat, bound: nat, vf: nat, nVec: nat, n1: nat, n2: nat)
    requires vf >= 1 && SplitFacts(init, bound, 1, vf, nVec, n1, n2)
    ensures nVec < TWO32 && n1 * vf <= U32(bound - init)
    ensures S32(nVec) == S32(init) + n1 * vf || (n1 == 0 && S32(nVec) <= S32(init))
    ensures n2 == if S32(nVec) < S32(bound) then S32(bound) - S32(nVec) else 0
    ensures S32(init) <= S32(bound) ==> S32(nVec) == S32(init) + n1 * vf
  {
    assert U32(bound - init) == TripCount(init, bound, 1);
    assert (n1 * vf) * 1 == n1 * vf;
    assert n2 == Rounds(S32(nVec), S32(bound), 1);
    hide S32, U32, TripCount, SplitRuns, NoWrap;
  }

  /** Where the loops of the split leave off, in iterations. */
  lemma SplitIterations(init: nat, bound: nat, vf: nat, nVec: nat, n1: nat, n2: nat)
    requires init < TWO32 && bound < TWO32 && vf >= 1 && SplitFacts(init, bound, 1, vf, nVec, n1, n2)
    ensures nVec < TWO32 && S32(nVec) + n2 < TWO31 && 0 <= n1 * vf
    ensures S32(nVec) == S32(init) + n1 * vf || (n1 == 0 && S32(nVec) <= S32(init))
    ensures n2 == if S32(nVec) < S32(bound) then S32(bound) - S32(nVec) else 0
    ensures S32(init) + n1 * vf <= TouchedEnd(init, bound)
    ensures n1 > 0 ==> S32(nVec) + n2 <= TouchedEnd(init, bound)
  {
    hide U32, S32, SplitFacts;
    MulLe(vf, 0, n1);
    UnitFacts(init, bound, vf, nVec, n1, n2);
    SignedWord(nVec);
    SignedWord(bound);
    if S32(init) <= S32(bound) { TouchedOrdered(init, bound); }
  }

  lemma UnitNoWrap(init: nat, bound: nat)
    requires init < TWO32 && bound < TWO32
    ensures NoWrap(S32(init), S32(bound), 1)
    ensures Rounds(S32(init), S32(bound), 1) == if S32(init) < S32(bound) then S32(bound) - S32(init) else 0
  {
    SignedWord(init);
    SignedWord(bound);
    hide S32;
  }

  lemma LoopFrom(mem: Memory, b: LoopBody, lo: int, hi: int, n: nat)
    requires n == if lo < hi then hi - lo else 0
    ensures ScalarLoop(mem, b, lo, hi) == ScalarLoop(mem, b, lo, lo + n)
  {
  }

  /** Vector loop and epilogue leave the memory that the visited iterations leave, one after another. */
  lemma SplitMemory(mem: Memory, chunked: Memory, b: LoopBody, init: nat, bound: nat, vf: nat, nVec: nat, n1: nat,
                    n2: nat)
    requires init < TWO32 && bound < TWO32 && vf >= 1 && SplitFacts(init, bound, 1, vf, nVec, n1, n2)
    requires n1 == 0 ==> chunked == mem
    requires n1 > 0 ==> Apart(b, S32(init), TouchedEnd(init, bound))
    requires n1 > 0 ==> Explained(chunked, mem, b, S32(init), TouchedEnd(init, bound),
                                  Progress(S32(init) + n1 * vf, 1, 0, 0))
    ensures SameMemory(ScalarLoop(chunked, b, S32(nVec), S32(bound)),
                       RunVisits(mem, b, ChunkVisits(init, 1, vf, n1) + Visits(nVec, 1, n2)))
  {
    hide *;
    SplitIterations(init, bound, vf, nVec, n1, n2);
    LoopFrom(chunked, b, S32(nVec), S32(bound), n2);
    if n1 == 0 {
      NoChunksAtAll(init, vf);
      assert [] + Visits(nVec, 1, n2) == Visits(nVec, 1, n2);
      CountersInARow(mem, b, nVec, n2);
      SameMemoryItself(RunVisits(mem, b, Visits(nVec, 1, n2)));
    } else {
      ChunksAreVisits(init, 1, vf, n1);
      SameWord(init, nVec, n1 * vf);
      assert (n1 * vf) * 1 == n1 * vf;
      VisitsConcat(init, 1, n1 * vf, n2);
      CountersInARow(mem, b, init, n1 * vf + n2);
      ChunksThenScalar(mem, chunked, b, S32(init), S32(nVec), TouchedEnd(init, bound), S32(nVec) + n2);
    }
  }

  lemma NoChunksAtAll(init: nat, vf: nat)
    ensures ChunkVisits(init, 1, vf, 0) == []
  {
  }

  /** Bounds out of order that send neither loop round. */
  lemma NothingRuns(mem: Memory, b: LoopBody, init: nat, bound: nat, vf: nat, nVec: nat, n1: nat, n2: nat)
    requires init < TWO32 && bound < TWO32 && vf >= 1 && SplitFacts(init, bound, 1, vf, nVec, n1, n2)
    requires S32(bound) < S32(init) && TripCount(init, bound, 1) % vf == 0
    ensures n1 == 0
    ensures ScalarLoop(mem, b, S32(nVec), S32(bound)) == mem == ScalarLoop(mem, b, S32(init), S32(bound))
  {
    hide S32, TripCount, SplitRuns, NoWrap;
    SplitIterations(init, bound, vf, nVec, n1, n2);
  }

  /** With the bounds in order, the emitted loops leave memory as the scalar loop does. */
  lemma OrderedMemory(mem: Memory, chunked: Memory, b: LoopBody, init: nat, bound: nat, vf: nat, nVec: nat, n1: nat,
                      n2: nat)
    requires init < TWO32 && bound < TWO32 && vf >= 1 && SplitFacts(init, bound, 1, vf, nVec, n1, n2)
    requires S32(init) <= S32(bound) && Apart(b, S32(init), TouchedEnd(init, bound)) && (n1 == 0 ==> chunked == mem)
    requires Explained(chunked, mem, b, S32(init), TouchedEnd(init, bound), Progress(S32(init) + n1 * vf, 1, 0, 0))
    ensures SameMemory(ScalarLoop(chunked, b, S32(nVec), S32(bound)), ScalarLoop(mem, b, S32(init), S32(bound)))
  {
    hide *;
    SplitMemory(mem, chunked, b, init, bound, vf, nVec, n1, n2);
    OrderedVisits(init, bound, 1, vf, nVec, n1, n2);
    UnitNoWrap(init, bound);
    NoWrapSum(init, bound);
    CountersInARow(mem, b, init, Rounds(S32(init), S32(bound), 1));
    LoopFrom(mem, b, S32(init), S32(bound), Rounds(S32(init), S32(bound), 1));
  }

  lemma NoWrapSum(init: nat, bound: nat)
    requires NoWrap(S32(init), S32(bound), 1)
    ensures S32(init) + Rounds(S32(init), S32(bound), 1) < TWO31
  {
    hide S32, Rounds;
  }

  lemma HasRounds(init: nat, bound: nat, vf: nat)
    requires init < TWO32 && bound < TWO32 && vf >= 1 && HasVec(TripCount(init, bound, 1), vf)
    ensures S32(init) != S32(bound)
  {
    S32Is(init);
    S32Is(bound);
    U32Is(bound - init);
    S32Is(0);
    hide U32, S32;
  }

  /** The allocations hold what the original loop touches of them. */
  ghost predicate AllocationsHold(b: LoopBody, allocs: set<nat>, init: nat, bound: nat) {
    S32(init) < S32(bound) ==> AllocationsApart(b, allocs, S32(init), S32(bound))
  }

  lemma HeldIsTouched(b: LoopBody, allocs: set<nat>, init: nat, bound: nat, vf: nat)
    requires init < TWO32 && bound < TWO32 && vf >= 1 && HasVec(TripCount(init, bound, 1), vf)
    requires S32(init) <= S32(bound) && AllocationsHold(b, allocs, init, bound)
    ensures AllocationsApart(b, allocs, S32(init), TouchedEnd(init, bound))
  {
    hide S32, AllocationsApart, TouchedEnd, HasVec, TripCount;
    HasRounds(init, bound, vf);
    TouchedOrdered(init, bound);
  }

  /**
   Classification, guard, vector loop and epilogue of a loop with step one.  Wherever the split
   is right, or the guard fails, memory ends as the scalar loop leaves it; and where the touched
   parts of allocations are apart, it always ends as the visited iterations leave it.
   */
  method RunVersionedLoop(mem: Memory, b: LoopBody, allocs: set<nat>, init: nat, bound: nat, vf: nat, ghost k: nat)
    returns (r: Memory)
    requires GoodBody(b) && init < TWO32 && bound < TWO32 && k <= 30 && vf == Pow2(k)
    requires AllocationsHold(b, allocs, init, bound)
    ensures RightSplit(init, bound, 1, vf) || !AllPairsPass(b, allocs, init, bound)
            ==> SameMemory(r, ScalarLoop(mem, b, S32(init), S32(bound)))
    ensures AllPairsPass(b, allocs, init, bound) && AllocationsApart(b, allocs, S32(init), TouchedEnd(init, bound)) ==>
              forall v: seq<int> | EmittedVisits(init, bound, 1, vf, v) :: SameMemory(r, RunVisits(mem, b, v))
  {
    assert 1 < TWO31;
    hide *;
    Pow2Positive(k);
    var allSafe := MayVectorize(b, allocs, init, bound, vf);
    var trip := TripCount(init, bound, 1);
    UnitNoWrap(init, bound);
    if allSafe && HasVec(trip, vf) {
      ghost var n1, n2 := SplitRounds(init, bound, 1, k);
      var mid := VectorEnd(init, VectorCount(trip, vf), 1);
      WordEnd(init, bound, 1, vf);
      SplitIterations(init, bound, vf, mid, n1, n2);
      var chunked := VectorLoop(mem, b, S32(init), S32(mid), vf, n1, TouchedEnd(init, bound));
      r := ScalarLoop(chunked, b, S32(mid), S32(bound));
      if RightSplit(init, bound, 1, vf) {
        RightMemory(mem, chunked, b, allocs, init, bound, vf, mid, n1, n2);
      }
      if AllocationsApart(b, allocs, S32(init), TouchedEnd(init, bound)) {
        SplitMemory(mem, chunked, b, init, bound, vf, mid, n1, n2);
        forall v: seq<int> | EmittedVisits(init, bound, 1, vf, v)
          ensures SameMemory(r, RunVisits(mem, b, v))
        {
          EmittedSplit(init, bound, 1, k, n1, n2, v);
        }
      }
    } else {
      r := ScalarLoop(mem, b, S32(init), S32(bound));
      SameMemoryItself(r);
      if allSafe {
        forall v: seq<int> | EmittedVisits(init, bound, 1, vf, v)
          ensures SameMemory(r, RunVisits(mem, b, v))
        {
          EmittedWhole(init, bound, 1, vf, v);
          ScalarMemory(mem, b, init, bound, v);
        }
      }
    }
  }

  /** What the right split leaves. */
  lemma RightMemory(mem: Memory, chunked: Memory, b: LoopBody, allocs: set<nat>, init: nat, bound: nat, vf: nat,
                    nVec: nat, n1: nat, n2: nat)
    requires init < TWO32 && bound < TWO32 && vf >= 1 && SplitFacts(init, bound, 1, vf, nVec, n1, n2)
    requires HasVec(TripCount(init, bound, 1), vf) && RightSplit(init, bound, 1, vf)
    requires AllocationsHold(b, allocs, init, bound)
    requires n1 == 0 ==> chunked == mem
    requires AllocationsApart(b, allocs, S32(init), TouchedEnd(init, bound))
             ==> Apart(b, S32(init), TouchedEnd(init, bound))
    requires Apart(b, S32(init), TouchedEnd(init, bound)) ==>
               Explained(chunked, mem, b, S32(init), TouchedEnd(init, bound), Progress(S32(init) + n1 * vf, 1, 0, 0))
    ensures SameMemory(ScalarLoop(chunked, b, S32(nVec), S32(bound)), ScalarLoop(mem, b, S32(init), S32(bound)))
  {
    hide *;
    if S32(init) <= S32(bound) {
      HeldIsTouched(b, allocs, init, bound, vf);
      OrderedMemory(mem, chunked, b, init, bound, vf, nVec, n1, n2);
    } else {
      NothingLeft(init, bound, vf);
      NothingRuns(mem, b, init, bound, vf, nVec, n1, n2);
      SameMemoryItself(mem);
    }
  }

  lemma NothingLeft(init: nat, bound: nat, vf: nat)
    requires vf >= 1 && HasVec(TripCount(init, bound, 1), vf) && RightSplit(init, bound, 1, vf)
    requires S32(bound) < S32(init)
    ensures TripCount(init, bound, 1) % vf == 0
  {
    hide S32, TripCount;
  }

  lemma ScalarMemory(mem: Memory, b: LoopBody, init: nat, bound: nat, v: seq<int>)
    requires init < TWO32 && bound < TWO32 && ScalarVisits(init, bound, 1, v)
    ensures SameMemory(ScalarLoop(mem, b, S32(init), S32(bound)), RunVisits(mem, b, v))
  {
    hide *;
    UnitNoWrap(init, bound);
    var n := Rounds(S32(init), S32(bound), 1);
    ScalarRounds(init, bound, 1);
    AsScalar(init, bound, 1, n);
    ScalarUnique(init, bound, 1, v, Visits(init, 1, n));
    NoWrapSum(init, bound);
    CountersInARow(mem, b, init, n);
    LoopFrom(mem, b, S32(init), S32(bound), n);
    SameMemoryItself(RunVisits(mem, b, v));
  }

  // ----- Bounds out of order

  /** A loop that reads one array and fills another with ones. */
  const FILL := LoopBody([LoadOp(0), StoreOp(1, vs => [1, 1, 1, 1])], base => if base == 0 then 4096
                         else 0x100_0000_0000, 4)

  lemma FillSeparate(lo: int)
    requires lo == TWO31 - 101
    ensures Separate(4096, 0x100_0000_0000, lo, TWO31, 4) && Separate(0x100_0000_0000, 4096, lo, TWO31, 4)
  {
  }

  lemma FillApart(lo: int)
    requires lo == TWO31 - 101
    ensures GoodBody(FILL) && Apart(FILL, lo, TWO31)
  {
    FillSeparate(lo);
    hide Separate;
  }

  lemma FillPasses()
    ensures AllPairsPass(FILL, {}, TWO31 - 101, TWO31)
  {
    var init := TWO31 - 101;
    S32Is(init);
    FillSeparate(init);
    hide S32, U32, Separate, PairSafe, ToU64;
    GuardIsExact(4096, 0x100_0000_0000, init, TWO31, 4);
    assert PairPasses(FILL, {}, init, TWO31, 0, 1);
  }

  /** The first element filled. */
  lemma FillWrites(lo: int, r: Memory)
    requires lo == TWO31 - 101 && Explained(r, map[], FILL, lo, TWO31, Progress(lo + 96, 1, 0, 0))
    ensures ByteAt(r, 0x100_0000_0000 + 4 * lo) == 1
  {
    var a: nat := 0x100_0000_0000 + 4 * lo;
    assert StoreMade(FILL, lo, TWO31, Progress(lo + 96, 1, 0, 0), 1, lo) && Covers(FILL, FILL.ops[1], lo, a);
  }

  /**
   The guard does not look at the order of the bounds: here it passes, the vector loop fills 96
   elements, and the scalar loop would have run no round.
   */
  lemma UnorderedMemory()
    ensures var init, bound := TWO31 - 101, TWO31;
            && GoodBody(FILL) && AllocationsHold(FILL, {}, init, bound) && AllPairsPass(FILL, {}, init, bound)
            && AllocationsApart(FILL, {}, S32(init), TouchedEnd(init, bound))
            && ScalarLoop(map[], FILL, S32(init), S32(bound)) == map[]
            && EmittedVisits(init, bound, 1, 8, Visits(init, 1, 96))
            && !SameMemory(RunVisits(map[], FILL, Visits(init, 1, 96)), map[])
  {
    hide S32, U32, ScalarLoop, RunVisits, Apart, Explained, EmittedVisits, ScalarVisits, Visits, Counter, AllPairsPass,
         GoodBody, TouchedEnd, Separate, HasVec, TripCount, FILL;
    var init, bound := TWO31 - 101, TWO31;
    UnorderedVector();
    FillApart(init);
    FillPasses();
    S32Is(init);
    LoopFrom(map[], FILL, S32(init), S32(bound), 0);
    NoIterations(map[], FILL, S32(init));
    CountersInARow(map[], FILL, init, 96);
    NothingMade(map[], FILL, init, bound, 1);
    ScalarExplained(map[], map[], FILL, init, bound, init, init + 96);
    FillWrites(init, RunVisits(map[], FILL, Visits(init, 1, 96)));
    FillStart(init);
  }

  lemma NoIterations(mem: Memory, b: LoopBody, lo: int)
    ensures ScalarLoop(mem, b, lo, lo + 0) == mem
  {
  }

  lemma FillStart(lo: int)
    requires lo == TWO31 - 101
    ensures ByteAt(map[], 0x100_0000_0000 + 4 * lo) == 0 && 0x100_0000_0000 + 4 * lo < TWO64
  {
  }

  lemma AllChecked(b: LoopBody, allocs: set<nat>, checks: seq<(nat, nat)>)
    requires ChecksUpTo(AccessesOf(b), allocs, |AccessesOf(b)|, 0, checks)
    ensures ChecksUpTo(AccessesOf(b), allocs, |b.ops|, 0, checks)
  {
  }

  lemma Sizes(b: LoopBody)
    requires 1 <= b.size
    ensures forall a | a in AccessesOf(b) :: a.elementSize > 0
  {
  }

  lemma SameMemoryItself(mem: Memory)
    ensures SameMemory(mem, mem)
  {
  }

  lemma GuardEvaluated(b: LoopBody, checks: seq<(nat, nat)>, init: nat, bound: nat)
    ensures GuardHolds(b, checks, init, bound) <==> forall c | c in checks ::
              PairSafe(b.addr(c.0), b.addr(c.1), ToU64(U32(bound - init) * b.size), ToU64(bound * b.size),
                       S32(init) >= 0)
  {
  }
}
