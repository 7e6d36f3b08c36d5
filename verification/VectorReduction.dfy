/**
 A reduction over loaded terms: lanes that start from the identity, chunks, a horizontal
 collapse and a scalar tail, against the sequential fold.
 */
module VectorReduction {
  import opened IR
  import opened Scalar
  import opened SignedMagic
  import opened Patterns
  import opened TripSplit
  import opened SplitVisits

  datatype ReductionKind = ReduceAdd | ReduceMul | SignedMin | SignedMax

  function Identity(kind: ReductionKind): nat {
    match kind
    case ReduceAdd => 0
    case ReduceMul => 1
    case SignedMin => TWO31 - 1
    case SignedMax => TWO31
  }

  /** One step of the reduction on 32-bit words. */
  function Combine(kind: ReductionKind, a: nat, b: nat): nat {
    match kind
    case ReduceAdd => U32(a + b)
    case ReduceMul => U32(a * b)
    case SignedMin => if S32(a) <= S32(b) then a else b
    case SignedMax => if S32(a) >= S32(b) then a else b
  }

  // ----- A commutative monoid

  lemma CombineInRange(kind: ReductionKind, a: nat, b: nat)
    requires a < TWO32 && b < TWO32
    ensures Combine(kind, a, b) < TWO32
  {
    Pow2Values();
  }

  lemma SameSigned(a: nat, b: nat)
    requires a < TWO32 && b < TWO32 && S32(a) == S32(b)
    ensures a == b
  {
    S32Is(a);
    S32Is(b);
  }

  lemma CombineCommutes(kind: ReductionKind, a: nat, b: nat)
    requires a < TWO32 && b < TWO32
    ensures Combine(kind, a, b) == Combine(kind, b, a)
  {
    if S32(a) == S32(b) { SameSigned(a, b); }
    hide S32, U32;
    assert a * b == b * a;
  }

  lemma SumAssociates(a: nat, b: nat, c: nat)
    ensures U32(U32(a + b) + c) == U32(a + U32(b + c))
  {
    hide Pat;
    PatAddLeft(a + b, c, 32);
    PatAddLeft(b + c, a, 32);
  }

  lemma ProductAssociates(a: nat, b: nat, c: nat)
    ensures U32(U32(a * b) * c) == U32(a * U32(b * c))
  {
    hide Pat;
    PatMulLeft(a * b, c, 32);
    PatMulLeft(b * c, a, 32);
    assert (a * b) * c == (b * c) * a;
    assert a * Pat(b * c, 32) == Pat(b * c, 32) * a;
  }

  lemma CombineAssociates(kind: ReductionKind, a: nat, b: nat, c: nat)
    requires a < TWO32 && b < TWO32 && c < TWO32
    ensures Combine(kind, Combine(kind, a, b), c) == Combine(kind, a, Combine(kind, b, c))
  {
    hide U32, S32;
    SumAssociates(a, b, c);
    ProductAssociates(a, b, c);
  }

  lemma CombineIdentity(kind: ReductionKind, a: nat)
    requires a < TWO32
    ensures Identity(kind) < TWO32
    ensures Combine(kind, Identity(kind), a) == a && Combine(kind, a, Identity(kind)) == a
  {
    Pow2Values();
    PatIdem(a, 32);
    S32Is(a);
    S32Is(TWO31 - 1);
    S32Is(TWO31);
    if S32(a) == S32(Identity(kind)) { S32Is(Identity(kind)); SameSigned(a, Identity(kind)); }
  }

  lemma Swap4(kind: ReductionKind, a: nat, b: nat, c: nat, d: nat)
    requires a < TWO32 && b < TWO32 && c < TWO32 && d < TWO32
    ensures Combine(kind, Combine(kind, a, b), Combine(kind, c, d))
            == Combine(kind, Combine(kind, a, c), Combine(kind, b, d))
  {
    CombineInRange(kind, c, d);
    CombineInRange(kind, b, d);
    CombineAssociates(kind, a, b, Combine(kind, c, d));
    CombineAssociates(kind, b, c, d);
    CombineCommutes(kind, b, c);
    CombineAssociates(kind, c, b, d);
    CombineAssociates(kind, a, c, Combine(kind, b, d));
    hide Combine;
  }

  // ----- The sequential fold

  type Terms = nat -> nat

  ghost predicate Words(f: Terms) {
    forall j: nat :: f(j) < TWO32
  }

  /** start combined with the n terms from position lo, in order. */
  ghost function Fold(kind: ReductionKind, start: nat, f: Terms, lo: nat, n: nat): nat
    decreases n
  {
    if n == 0 then start else Combine(kind, Fold(kind, start, f, lo, n - 1), f(lo + n - 1))
  }

  lemma {:induction false} FoldInRange(kind: ReductionKind, start: nat, f: Terms, lo: nat, n: nat)
    requires start < TWO32 && Words(f)
    ensures Fold(kind, start, f, lo, n) < TWO32
    decreases n
  {
    if n > 0 {
      FoldInRange(kind, start, f, lo, n - 1);
      CombineInRange(kind, Fold(kind, start, f, lo, n - 1), f(lo + n - 1));
    }
  }

  lemma {:induction false} FoldSplits(kind: ReductionKind, start: nat, f: Terms, lo: nat, n: nat, more: nat)
    ensures Fold(kind, start, f, lo, n + more) == Fold(kind, Fold(kind, start, f, lo, n), f, lo + n, more)
    decreases more
  {
    if more > 0 { FoldSplits(kind, start, f, lo, n, more - 1); }
  }

  /** Starting from the identity and combining with start afterwards is the same. */
  lemma {:induction false} FoldStart(kind: ReductionKind, start: nat, f: Terms, lo: nat, n: nat)
    requires start < TWO32 && Words(f)
    ensures Fold(kind, start, f, lo, n) == Combine(kind, start, Fold(kind, Identity(kind), f, lo, n))
    decreases n
  {
    CombineIdentity(kind, start);
    if n > 0 {
      FoldStart(kind, start, f, lo, n - 1);
      FoldInRange(kind, Identity(kind), f, lo, n - 1);
      CombineAssociates(kind, start, Fold(kind, Identity(kind), f, lo, n - 1), f(lo + n - 1));
    }
  }

  // ----- Lanes

  /** The horizontal collapse, lane by lane from the first. */
  function Collapse(kind: ReductionKind, lanes: seq<nat>): nat
    requires lanes != []
  {
    if |lanes| == 1 then lanes[0] else Combine(kind, Collapse(kind, lanes[..|lanes| - 1]), Last(lanes))
  }

  ghost predicate AllWords(lanes: seq<nat>) {
    forall l | 0 <= l < |lanes| :: lanes[l] < TWO32
  }

  function Lanewise(kind: ReductionKind, a: seq<nat>, b: seq<nat>): (r: seq<nat>)
    requires |a| == |b|
    ensures |r| == |a| && forall l | 0 <= l < |a| :: r[l] == Combine(kind, a[l], b[l])
  {
    seq(|a|, l requires 0 <= l < |a| => Combine(kind, a[l], b[l]))
  }

  lemma {:induction false} CollapseInRange(kind: ReductionKind, lanes: seq<nat>)
    requires lanes != [] && AllWords(lanes)
    ensures Collapse(kind, lanes) < TWO32
  {
    if |lanes| > 1 {
      CollapseInRange(kind, lanes[..|lanes| - 1]);
      CombineInRange(kind, Collapse(kind, lanes[..|lanes| - 1]), Last(lanes));
    }
  }

  /** Collapsing after a lanewise step is stepping after collapsing. */
  lemma {:induction false} CollapseLanewise(kind: ReductionKind, a: seq<nat>, b: seq<nat>)
    requires |a| == |b| && a != [] && AllWords(a) && AllWords(b)
    ensures Collapse(kind, Lanewise(kind, a, b)) == Combine(kind, Collapse(kind, a), Collapse(kind, b))
    decreases |a|
  {
    hide Combine;
    var n := |a|;
    if n > 1 {
      CollapseLanewise(kind, a[..n - 1], b[..n - 1]);
      assert Lanewise(kind, a, b)[..n - 1] == Lanewise(kind, a[..n - 1], b[..n - 1]);
      CollapseInRange(kind, a[..n - 1]);
      CollapseInRange(kind, b[..n - 1]);
      Swap4(kind, Collapse(kind, a[..n - 1]), Last(a), Collapse(kind, b[..n - 1]), Last(b));
    }
  }

  lemma {:induction false} CollapseIdentity(kind: ReductionKind, lanes: seq<nat>)
    requires lanes != [] && forall l | 0 <= l < |lanes| :: lanes[l] == Identity(kind)
    ensures Collapse(kind, lanes) == Identity(kind) && AllWords(lanes)
    decreases |lanes|
  {
    CombineIdentity(kind, 0);
    CombineIdentity(kind, Identity(kind));
    if |lanes| > 1 { CollapseIdentity(kind, lanes[..|lanes| - 1]); }
  }

  /** A chunk of terms collapses to their fold. */
  lemma {:induction false} CollapseChunk(kind: ReductionKind, f: Terms, lo: nat, chunk: seq<nat>)
    requires chunk != [] && Words(f) && forall l | 0 <= l < |chunk| :: chunk[l] == f(lo + l)
    ensures Collapse(kind, chunk) == Fold(kind, Identity(kind), f, lo, |chunk|) && AllWords(chunk)
    decreases |chunk|
  {
    hide Combine;
    if |chunk| == 1 {
      CombineIdentity(kind, f(lo));
      assert Fold(kind, Identity(kind), f, lo, 0) == Identity(kind);
    } else {
      CollapseChunk(kind, f, lo, chunk[..|chunk| - 1]);
    }
  }

  /** The lanes after some chunks stand for the fold so far. */
  ghost predicate LanesFold(kind: ReductionKind, f: Terms, lanes: seq<nat>, done: nat) {
    lanes != [] && AllWords(lanes) && Collapse(kind, lanes) == Fold(kind, Identity(kind), f, 0, done)
  }

  lemma LanesStep(kind: ReductionKind, f: Terms, lanes: seq<nat>, chunk: seq<nat>, done: nat)
    requires LanesFold(kind, f, lanes, done) && Words(f)
    requires |chunk| == |lanes| && forall l | 0 <= l < |chunk| :: chunk[l] == f(done + l)
    ensures LanesFold(kind, f, Lanewise(kind, lanes, chunk), done + |chunk|)
  {
    hide *;
    LanesParts(kind, f, lanes, done);
    CollapseChunk(kind, f, done, chunk);
    CollapseLanewise(kind, lanes, chunk);
    IdentityWord(kind);
    FoldInRange(kind, Identity(kind), f, 0, done);
    FoldStart(kind, Fold(kind, Identity(kind), f, 0, done), f, done, |chunk|);
    FoldSplits(kind, Identity(kind), f, 0, done, |chunk|);
    LanewiseWords(kind, lanes, chunk);
    AsLanes(kind, f, Lanewise(kind, lanes, chunk), done + |chunk|);
  }

  lemma LanesParts(kind: ReductionKind, f: Terms, lanes: seq<nat>, done: nat)
    requires LanesFold(kind, f, lanes, done)
    ensures lanes != [] && AllWords(lanes) && Collapse(kind, lanes) == Fold(kind, Identity(kind), f, 0, done)
  {
  }

  lemma AsLanes(kind: ReductionKind, f: Terms, lanes: seq<nat>, done: nat)
    requires lanes != [] && AllWords(lanes) && Collapse(kind, lanes) == Fold(kind, Identity(kind), f, 0, done)
    ensures LanesFold(kind, f, lanes, done)
  {
  }

  lemma IdentityWord(kind: ReductionKind)
    ensures Identity(kind) < TWO32
  {
  }

  lemma LanewiseWords(kind: ReductionKind, a: seq<nat>, b: seq<nat>)
    requires |a| == |b| && AllWords(a) && AllWords(b)
    ensures AllWords(Lanewise(kind, a, b))
  {
    forall l | 0 <= l < |a|
      ensures Combine(kind, a[l], b[l]) < TWO32
    {
      CombineInRange(kind, a[l], b[l]);
    }
    hide Combine;
  }

  // ----- The emitted loops

  /** The index in round j. */
  ghost function Index(i: int, j: nat, step: nat): int {
    i + j * step
  }

  /** The first round of a chunk. */
  ghost function ChunkStart(c: nat, vf: nat): nat {
    c * vf
  }

  /** Where the element of an index lies, in 64-bit arithmetic on the sign-extended index. */
  function Address(base: nat, index: int, size: nat): nat {
    ToU64(base + index * size)
  }

  /** The terms of the loop: what is loaded at each round's index. */
  ghost function Loaded(load: nat -> nat, base: nat, size: nat, i: int, step: nat): Terms {
    (j: nat) => load(Address(base, i + j * step, size))
  }

  lemma LaneAddress(base: nat, index: int, size: nat, l: nat)
    ensures ToU64(Address(base, index, size) + l * size) == Address(base, index + l, size)
  {
    var x := base + index * size;
    assert base + (index + l) * size == x + l * size by { assert (index + l) * size == index * size + l * size; }
    WrapTwice(x, l * size);
  }

  lemma WrapTwice(x: int, y: int)
    ensures ToU64(ToU64(x) + y) == ToU64(x + y)
  {
    Pow2Values();
    PatAddLeft(x, y, 64);
  }

  /** The lanes of one chunk: one contiguous load for step 1, a load per lane otherwise. */
  method LoadChunk(load: nat -> nat, base: nat, size: nat, iCnt: nat, step: nat, vf: nat, ghost i: int, ghost done: nat)
    returns (chunk: seq<nat>)
    requires iCnt < TWO32 && step >= 1 && vf >= 1 && S32(iCnt) == Index(i, done, step)
    requires 0 - TWO31 <= i && Index(i, done + vf, step) < TWO31
    ensures |chunk| == vf && forall l: nat | l < vf :: chunk[l] == Loaded(load, base, size, i, step)(done + l)
  {
    hide *;
    chunk := [];
    for l := 0 to vf
      invariant |chunk| == l
      invariant forall j: nat | j < l :: chunk[j] == Loaded(load, base, size, i, step)(done + j)
    {
      TermAt(load, base, size, i, step, done + l);
      LaneStays(i, done, l, vf, step);
      if step == 1 {
        LaneAddress(base, S32(iCnt), size, l);
        UnitIndex(i, done, l);
        chunk := chunk + [load(ToU64(Address(base, S32(iCnt), size) + l * size))];
      } else {
        IndexNext(iCnt, i, done, l, step);
        chunk := chunk + [load(Address(base, S32(U32(iCnt + l * step)), size))];
      }
    }
  }

  lemma UnitIndex(i: int, done: nat, l: nat)
    ensures Index(i, done, 1) + l == Index(i, done + l, 1)
  {
  }

  lemma LaneStays(i: int, done: nat, l: nat, vf: nat, step: nat)
    requires l < vf && 0 - TWO31 <= i && Index(i, done + vf, step) < TWO31
    ensures 0 - TWO31 <= Index(i, done + l, step) < TWO31
  {
    MulMono(done + l, step, done + vf, step);
    MulLe(step, 0, done + l);
  }

  lemma VectorEndIs(iCnt: nat, l: nat, step: nat)
    ensures VectorEnd(iCnt, l, step) == U32(iCnt + l * step)
  {
  }

  lemma LaneIndex(i: int, done: nat, l: nat, step: nat)
    ensures i + (done + l) * step == i + done * step + l * step
  {
  }

  /** The sequential loop from round `lo` on: what the epilogue does, and the original loop from the start. */
  method ScalarLoop(load: nat -> nat, base: nat, size: nat, start: nat, first: nat, bound: nat, step: nat,
                    kind: ReductionKind, ghost i: int, ghost lo: nat)
    returns (sum: nat)
    requires first < TWO32 && bound < TWO32 && 1 <= step < TWO31 && 0 - TWO31 <= i < TWO31
    requires NoWrap(i, S32(bound), step)
    requires lo <= Rounds(i, S32(bound), step) && S32(first) == Index(i, lo, step)
    ensures sum == Fold(kind, start, Loaded(load, base, size, i, step), lo, Rounds(i, S32(bound), step) - lo)
  {
    hide *;
    sum := start;
    var index: nat := first;
    ghost var f, n, done: nat := Loaded(load, base, size, i, step), Rounds(i, S32(bound), step), 0;
    NoneYet(kind, start, f, lo);
    while S32(index) < S32(bound)
      invariant index < TWO32 && lo + done <= n && S32(index) == Index(i, lo + done, step)
      invariant sum == Fold(kind, start, f, lo, done)
      decreases n - done
    {
      NextRound(i, S32(bound), step, lo + done);
      TermAt(load, base, size, i, step, lo + done);
      OneMore(kind, start, f, lo, done);
      sum := Combine(kind, sum, load(Address(base, S32(index), size)));
      IndexStays(i, S32(bound), step, lo + done + 1);
      IndexNext(index, i, lo + done, 1, step);
      index := U32(index + 1 * step);
      done := done + 1;
    }
    LastRound(i, S32(bound), step, lo + done);
  }

  lemma NoneYet(kind: ReductionKind, start: nat, f: Terms, lo: nat)
    ensures Fold(kind, start, f, lo, 0) == start
  {
  }

  lemma TermAt(load: nat -> nat, base: nat, size: nat, i: int, step: nat, j: nat)
    ensures Loaded(load, base, size, i, step)(j) == load(Address(base, Index(i, j, step), size))
  {
  }

  /** Stepping the 32-bit counter steps the index. */
  lemma IndexNext(index: nat, i: int, j: nat, l: nat, step: nat)
    requires index < TWO32 && S32(index) == Index(i, j, step) && 0 - TWO31 <= Index(i, j + l, step) < TWO31
    ensures U32(index + l * step) < TWO32 && S32(U32(index + l * step)) == Index(i, j + l, step)
  {
    LaneIndex(i, j, l, step);
    EndIs(index, l, step, i + j * step);
    VectorEndIs(index, l, step);
    hide U32, S32, VectorEnd;
    IndexInRange(index + l * step);
  }

  lemma IndexInRange(x: int)
    ensures U32(x) < TWO32
  {
    Pow2Values();
  }

  /** Below the bound there is a round to come. */
  lemma NextRound(i: int, b: int, step: nat, j: nat)
    requires step >= 1 && Index(i, j, step) < b
    ensures j < Rounds(i, b, step)
  {
    MulLe(step, 0, j);
    DivBounds(b - i + (step - 1), step);
    var n := Rounds(i, b, step);
    assert step * n + step > b - i + (step - 1);
    if j >= n { MulLe(step, n, j); }
  }

  /** At the bound there is none. */
  lemma LastRound(i: int, b: int, step: nat, j: nat)
    requires step >= 1 && j <= Rounds(i, b, step) && !(Index(i, j, step) < b)
    ensures j == Rounds(i, b, step)
  {
    var n := Rounds(i, b, step);
    if i < b {
      DivBounds(b - i + (step - 1), step);
      if j < n { MulLe(step, j + 1, n); }
    }
  }

  lemma IndexStays(i: int, b: int, step: nat, j: nat)
    requires step >= 1 && 0 - TWO31 <= i && NoWrap(i, b, step) && j <= Rounds(i, b, step)
    ensures 0 - TWO31 <= Index(i, j, step) < TWO31
  {
    MulMono(j, step, Rounds(i, b, step), step);
    MulLe(step, 0, j);
  }

  lemma OneMore(kind: ReductionKind, start: nat, f: Terms, lo: nat, n: nat)
    ensures Fold(kind, start, f, lo, n + 1) == Combine(kind, Fold(kind, start, f, lo, n), f(lo + n))
  {
  }

  lemma InitLanes(kind: ReductionKind, f: Terms, lanes: seq<nat>)
    requires lanes != [] && forall l | 0 <= l < |lanes| :: lanes[l] == Identity(kind)
    ensures LanesFold(kind, f, lanes, 0)
  {
    CollapseIdentity(kind, lanes);
  }

  lemma SignedLow(u: nat)
    requires u < TWO32
    ensures 0 - TWO31 <= S32(u) < TWO31
  {
    S32Is(u);
  }

  lemma LoadedWords(load: nat -> nat, base: nat, size: nat, i: int, step: nat)
    requires forall a: nat :: load(a) < TWO32
    ensures Words(Loaded(load, base, size, i, step))
  {
    hide Address;
  }

  /** Chunk numbers and indices grow together. */
  lemma ChunkOrder(i: int, c: nat, d: nat, vf: nat, step: nat)
    requires c <= d
    ensures i <= Index(i, ChunkStart(c, vf), step) <= Index(i, ChunkStart(d, vf), step)
  {
    MulMono(c, vf, d, vf);
    MulMono(c * vf, step, d * vf, step);
    MulLe(vf, 0, c);
    MulLe(step, 0, c * vf);
  }

  lemma ChunkNext(c: nat, vf: nat)
    ensures ChunkStart(c, vf) + vf == ChunkStart(c + 1, vf)
  {
  }

  lemma NoChunk(i: int, vf: nat, step: nat)
    ensures ChunkStart(0, vf) == 0 && Index(i, 0, step) == i
  {
  }

  lemma ChunkToCome(i: int, c: nat, chunks: nat, vf: nat, step: nat)
    requires c <= chunks && Index(i, ChunkStart(c, vf), step) < Index(i, ChunkStart(chunks, vf), step)
    ensures c < chunks
  {
  }

  lemma ChunksDone(i: int, c: nat, chunks: nat, vf: nat, step: nat)
    requires c <= chunks && vf >= 1 && step >= 1
    requires !(Index(i, ChunkStart(c, vf), step) < Index(i, ChunkStart(chunks, vf), step))
    ensures c == chunks
  {
    if c < chunks {
      ChunkOrder(i, c + 1, chunks, vf, step);
      ChunkNext(c, vf);
      LaneIndex(i, ChunkStart(c, vf), vf, step);
      hide ChunkStart;
      MulLe(vf, 1, step);
    }
  }

  /** The vector loop: chunk after chunk up to the end that was computed, if that lies ahead. */
  method VectorLoop(load: nat -> nat, base: nat, size: nat, init: nat, nVec: nat, step: nat, vf: nat,
                    kind: ReductionKind, ghost chunks: nat)
    returns (lanes: seq<nat>)
    requires init < TWO32 && nVec < TWO32 && 1 <= step < TWO31 && vf >= 1 && (forall a: nat :: load(a) < TWO32)
    requires S32(nVec) == Index(S32(init), ChunkStart(chunks, vf), step) || (chunks == 0 && S32(nVec) <= S32(init))
    ensures |lanes| == vf && LanesFold(kind, Loaded(load, base, size, S32(init), step), lanes, ChunkStart(chunks, vf))
  {
    hide *;
    var identity := Identity(kind);
    lanes := seq(vf, l => identity);
    var iCnt: nat := init;
    ghost var i, f, c: nat := S32(init), Loaded(load, base, size, S32(init), step), 0;
    InitLanes(kind, f, lanes);
    SignedLow(init);
    NoChunk(i, vf, step);
    LoadedWords(load, base, size, i, step);
    SignedLow(nVec);
    while S32(iCnt) < S32(nVec)
      invariant iCnt < TWO32 && c <= chunks && S32(iCnt) == Index(i, ChunkStart(c, vf), step)
      invariant |lanes| == vf && LanesFold(kind, f, lanes, ChunkStart(c, vf))
      decreases chunks - c
    {
      ChunkToCome(i, c, chunks, vf, step);
      ChunkOrder(i, c + 1, chunks, vf, step);
      ChunkNext(c, vf);
      var chunk := LoadChunk(load, base, size, iCnt, step, vf, i, ChunkStart(c, vf));
      LanesStep(kind, f, lanes, chunk, ChunkStart(c, vf));
      lanes := Lanewise(kind, lanes, chunk);
      IndexNext(iCnt, i, ChunkStart(c, vf), vf, step);
      iCnt := U32(iCnt + vf * step);
      c := c + 1;
    }
    ChunksDone(i, c, chunks, vf, step);
  }

  /** The lanes, stored and loaded back one by one. */
  method HorizontalCollapse(kind: ReductionKind, lanes: seq<nat>) returns (sum: nat)
    requires lanes != []
    ensures sum == Collapse(kind, lanes)
  {
    hide Combine;
    sum := lanes[0];
    assert lanes[..1] == [lanes[0]];
    for lane := 1 to |lanes|
      invariant sum == Collapse(kind, lanes[..lane])
    {
      assert lanes[..lane + 1][..lane] == lanes[..lane];
      sum := Combine(kind, sum, lanes[lane]);
    }
    assert lanes[..|lanes|] == lanes;
  }

  /** The terms at the visited indices, folded in their order. */
  ghost function FoldVisits(kind: ReductionKind, start: nat, load: nat -> nat, base: nat, size: nat, v: seq<int>): nat {
    if v == [] then start
    else Combine(kind, FoldVisits(kind, start, load, base, size, v[..|v| - 1]), load(Address(base, v[|v| - 1], size)))
  }

  lemma {:induction false} FoldConcat(kind: ReductionKind, start: nat, load: nat -> nat, base: nat, size: nat,
                                      v: seq<int>, w: seq<int>)
    ensures FoldVisits(kind, start, load, base, size, v + w)
         == FoldVisits(kind, FoldVisits(kind, start, load, base, size, v), load, base, size, w)
    decreases |w|
  {
    hide Combine, Address;
    if w == [] {
      assert v + w == v;
    } else {
      FoldConcat(kind, start, load, base, size, v, w[..|w| - 1]);
      assert (v + w)[..|v + w| - 1] == v + w[..|w| - 1];
    }
  }

  /** Counters that do not wrap visit the terms of the loop in their order. */
  lemma {:induction false} FoldOfVisits(kind: ReductionKind, start: nat, load: nat -> nat, base: nat, size: nat,
                                        first: nat, step: nat, n: nat)
    requires first < TWO32 && S32(first) + n * step < TWO31
    ensures FoldVisits(kind, start, load, base, size, Visits(first, step, n))
         == Fold(kind, start, Loaded(load, base, size, S32(first), step), 0, n)
    decreases n
  {
    hide Combine, Address, S32, Counter;
    if n > 0 {
      SumTimes(n - 1, 1, step);
      FoldOfVisits(kind, start, load, base, size, first, step, n - 1);
      assert Visits(first, step, n)[..n - 1] == Visits(first, step, n - 1);
      SignedLow(first);
      MulLe(step, 0, n - 1);
      CounterIs(first, step, n - 1, S32(first));
      TermAt(load, base, size, S32(first), step, n - 1);
    }
  }

  /** The two loops, one after the other, fold what they visit. */
  lemma SplitFold(kind: ReductionKind, start: nat, load: nat -> nat, base: nat, size: nat, init: nat, bound: nat,
                  step: nat, vf: nat, nVec: nat, n1: nat, n2: nat, lanes: seq<nat>)
    requires init < TWO32 && start < TWO32 && step >= 1 && vf >= 1 && (forall a: nat :: load(a) < TWO32)
    requires SplitFacts(init, bound, step, vf, nVec, n1, n2)
    requires LanesFold(kind, Loaded(load, base, size, S32(init), step), lanes, ChunkStart(n1, vf))
    ensures FoldVisits(kind, start, load, base, size, ChunkVisits(init, step, vf, n1) + Visits(nVec, step, n2))
         == Fold(kind, Combine(kind, start, Collapse(kind, lanes)), Loaded(load, base, size, S32(nVec), step), 0, n2)
  {
    hide *;
    var f := Loaded(load, base, size, S32(init), step);
    SplitRanges(init, bound, step, vf, nVec, n1, n2);
    ChunksAreVisits(init, step, vf, n1);
    ChunkStartIs(n1, vf);
    FoldConcat(kind, start, load, base, size, Visits(init, step, n1 * vf), Visits(nVec, step, n2));
    FoldOfVisits(kind, start, load, base, size, init, step, n1 * vf);
    LanesParts(kind, f, lanes, n1 * vf);
    LoadedWords(load, base, size, S32(init), step);
    FoldStart(kind, start, f, 0, n1 * vf);
    FoldOfVisits(kind, Fold(kind, start, f, 0, n1 * vf), load, base, size, nVec, step, n2);
  }

  lemma ChunkStartIs(c: nat, vf: nat)
    ensures ChunkStart(c, vf) == c * vf && 0 <= c * vf
  {
  }

  /** Neither loop's counter wraps. */
  lemma SplitRanges(init: nat, bound: nat, step: nat, vf: nat, nVec: nat, n1: nat, n2: nat)
    requires init < TWO32 && step >= 1 && vf >= 1 && SplitFacts(init, bound, step, vf, nVec, n1, n2)
    ensures nVec < TWO32 && S32(init) + (n1 * vf) * step < TWO31 && S32(nVec) + n2 * step < TWO31
    ensures S32(nVec) == Index(S32(init), ChunkStart(n1, vf), step) || (n1 == 0 && S32(nVec) <= S32(init))
    ensures n2 == Rounds(S32(nVec), S32(bound), step) && NoWrap(S32(nVec), S32(bound), step)
  {
    SignedLow(init);
    SignedLow(nVec);
    hide S32, Rounds, TripCount, SplitRuns;
  }

  /** The fold of what the original loop visits. */
  lemma ScalarFold(kind: ReductionKind, start: nat, load: nat -> nat, base: nat, size: nat, init: nat, bound: nat,
                   step: nat, v: seq<int>)
    requires init < TWO32 && step >= 1 && NoWrap(S32(init), S32(bound), step) && ScalarVisits(init, bound, step, v)
    ensures FoldVisits(kind, start, load, base, size, v)
         == Fold(kind, start, Loaded(load, base, size, S32(init), step), 0, Rounds(S32(init), S32(bound), step))
  {
    hide *;
    var n := Rounds(S32(init), S32(bound), step);
    ScalarRounds(init, bound, step);
    AsScalar(init, bound, step, n);
    ScalarUnique(init, bound, step, v, Visits(init, step, n));
    NoWrapIs(S32(init), S32(bound), step);
    FoldOfVisits(kind, start, load, base, size, init, step, n);
  }

  lemma NoWrapIs(i: int, b: int, step: nat)
    requires step >= 1 && NoWrap(i, b, step)
    ensures i + Rounds(i, b, step) * step < TWO31
  {
    hide Rounds;
  }

  /** Where the split is right, the emitted loops fold the terms of the original loop. */
  lemma RightFold(kind: ReductionKind, start: nat, load: nat -> nat, base: nat, size: nat, init: nat, bound: nat,
                  step: nat, k: nat, sum: nat)
    requires init < TWO32 && bound < TWO32 && 1 <= step < TWO31 && k <= 30 && NoWrap(S32(init), S32(bound), step)
    requires Pow2(k) >= 1 && RightSplit(init, bound, step, Pow2(k))
    requires forall v: seq<int> | EmittedVisits(init, bound, step, Pow2(k), v) ::
               sum == FoldVisits(kind, start, load, base, size, v)
    ensures sum == Fold(kind, start, Loaded(load, base, size, S32(init), step), 0, Rounds(S32(init), S32(bound), step))
  {
    hide *;
    var scalar, emitted := SplitExactly(init, bound, step, k);
    ScalarFold(kind, start, load, base, size, init, bound, step, scalar);
  }

  /**
   The vectorised reduction, as emitted: the split, the vector loop over identity lanes, the
   collapse, the start value combined once, the scalar tail.  It folds what the emitted loops
   visit, which is the sequential fold wherever the split is right.
   */
  method RunReduction(load: nat -> nat, base: nat, size: nat, init: nat, bound: nat, step: nat, vf: nat,
                      kind: ReductionKind, start: nat, ghost k: nat)
    returns (sum: nat)
    requires init < TWO32 && bound < TWO32 && start < TWO32 && 1 <= step < TWO31 && k <= 30 && vf == Pow2(k)
    requires (forall a: nat :: load(a) < TWO32) && NoWrap(S32(init), S32(bound), step)
    ensures forall v: seq<int> | EmittedVisits(init, bound, step, vf, v) ::
              sum == FoldVisits(kind, start, load, base, size, v)
    ensures RightSplit(init, bound, step, vf) ==>
              sum == Fold(kind, start, Loaded(load, base, size, S32(init), step), 0,
                          Rounds(S32(init), S32(bound), step))
  {
    hide *;
    Pow2Positive(k);
    SignedLow(init);
    FirstRound(S32(init), S32(bound), step);
    var tripCount := TripCount(init, bound, step);
    if HasVec(tripCount, vf) {
      ghost var n1, n2 := SplitRounds(init, bound, step, k);
      var vectorCount := VectorCount(tripCount, vf);
      var nVec := VectorEnd(init, vectorCount, step);
      WordEnd(init, bound, step, vf);
      SplitRanges(init, bound, step, vf, nVec, n1, n2);
      var lanes := VectorLoop(load, base, size, init, nVec, step, vf, kind, n1);
      LanesParts(kind, Loaded(load, base, size, S32(init), step), lanes, ChunkStart(n1, vf));
      var reduced := HorizontalCollapse(kind, lanes);
      FirstRound(S32(nVec), S32(bound), step);
      SignedLow(nVec);
      sum := ScalarLoop(load, base, size, Combine(kind, start, reduced), nVec, bound, step, kind, S32(nVec), 0);
      SplitFold(kind, start, load, base, size, init, bound, step, vf, nVec, n1, n2, lanes);
      forall v: seq<int> | EmittedVisits(init, bound, step, vf, v)
        ensures sum == FoldVisits(kind, start, load, base, size, v)
      {
        EmittedSplit(init, bound, step, k, n1, n2, v);
      }
    } else {
      sum := ScalarLoop(load, base, size, start, init, bound, step, kind, S32(init), 0);
      forall v: seq<int> | EmittedVisits(init, bound, step, vf, v)
        ensures sum == FoldVisits(kind, start, load, base, size, v)
      {
        EmittedWhole(init, bound, step, vf, v);
        ScalarFold(kind, start, load, base, size, init, bound, step, v);
      }
    }
    if RightSplit(init, bound, step, vf) { RightFold(kind, start, load, base, size, init, bound, step, k, sum); }
  }

  /** Adding up ones, the emitted loops count one round where the original loop makes none. */
  lemma UnorderedSum(load: nat -> nat, base: nat, size: nat, start: nat)
    requires start < TWO32 && forall a: nat :: load(a) == 1
    ensures var init, bound := TWO31 - 1, TWO31 + 8;
            && NoWrap(S32(init), S32(bound), 1) && Rounds(S32(init), S32(bound), 1) == 0
            && EmittedVisits(init, bound, 1, 8, [7 - TWO31])
            && FoldVisits(ReduceAdd, start, load, base, size, [7 - TWO31]) == U32(start + 1) != start
  {
    hide U32, S32, Combine, Address, FoldVisits, EmittedVisits, ScalarVisits, NoWrap, Rounds;
    UnorderedEpilogue();
    NothingToDo(TWO31 - 1, TWO31 + 8);
    OneTerm(load, base, size, start, 7 - TWO31);
    U32Is(start + 1);
  }

  lemma NothingToDo(init: nat, bound: nat)
    requires init < TWO32 && S32(bound) < S32(init)
    ensures NoWrap(S32(init), S32(bound), 1) && Rounds(S32(init), S32(bound), 1) == 0
  {
    SignedLow(init);
  }

  lemma OneTerm(load: nat -> nat, base: nat, size: nat, start: nat, index: int)
    requires forall a: nat :: load(a) == 1
    ensures FoldVisits(ReduceAdd, start, load, base, size, [index]) == U32(start + 1)
  {
    hide Address, U32;
    assert [index][..0] == [];
  }

  lemma FirstRound(i: int, b: int, step: nat)
    requires step >= 1
    ensures Index(i, 0, step) == i
  {
  }
}
