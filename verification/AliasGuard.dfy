/**
 Which memory accesses of a loop may be vectorised, and the test that guards them at
 run time.
 */
module AliasGuard {
  import opened Scalar
  import opened SignedMagic
  import opened TripSplit

  // ----- Classification

  datatype MemoryAccess = MemoryAccess(isStore: bool, base: nat, constantOffset: int, elementSize: nat)

  datatype Legality = SafeStatically | RequiresRuntimeCheck | Unsafe

  /** Both bases come from allocations, which never overlap. */
  predicate IsKnownDistinctAllocation(allocs: set<nat>, a: nat, b: nat) {
    a != b && a in allocs && b in allocs
  }

  predicate HasWrite(a: MemoryAccess, b: MemoryAccess) {
    a.isStore || b.isStore
  }

  function OrderedPair(a: nat, b: nat): (nat, nat) {
    if b < a then (b, a) else (a, b)
  }

  /** A pair that calls for a test at run time. */
  predicate NeedsCheck(allocs: set<nat>, a: MemoryAccess, b: MemoryAccess) {
    HasWrite(a, b) && a.base != b.base && !IsKnownDistinctAllocation(allocs, a.base, b.base)
  }

  predicate SameBaseWrite(a: MemoryAccess, b: MemoryAccess) {
    HasWrite(a, b) && a.base == b.base
  }

  /** Two accesses call for this check. */
  ghost predicate Called(accesses: seq<MemoryAccess>, allocs: set<nat>, c: (nat, nat)) {
    exists p, q | 0 <= p < q < |accesses| ::
      NeedsCheck(allocs, accesses[p], accesses[q]) && c == OrderedPair(accesses[p].base, accesses[q].base)
  }

  /** The checks cover the pairs before (i, j), each once. */
  ghost predicate ChecksUpTo(accesses: seq<MemoryAccess>, allocs: set<nat>, i: nat, j: nat, checks: seq<(nat, nat)>) {
    && (forall p, q | 0 <= p < q < |accesses| && (p < i || (p == i && q < j)) ::
          && !SameBaseWrite(accesses[p], accesses[q])
          && (NeedsCheck(allocs, accesses[p], accesses[q])
              ==> OrderedPair(accesses[p].base, accesses[q].base) in checks))
    && (forall c | c in checks :: Called(accesses, allocs, c))
    && (forall c, d | 0 <= c < d < |checks| :: checks[c] != checks[d])
  }

  method ClassifyMemory(accesses: seq<MemoryAccess>, allocs: set<nat>) returns (kind: Legality, checks: seq<(nat, nat)>)
    requires forall a | a in accesses :: a.elementSize > 0
    ensures kind == Unsafe <==> exists p, q :: 0 <= p < q < |accesses| && SameBaseWrite(accesses[p], accesses[q])
    ensures kind != Unsafe ==> ChecksUpTo(accesses, allocs, |accesses|, 0, checks)
    ensures kind != Unsafe ==> (kind == SafeStatically <==> checks == [])
  {
    checks := [];
    for i := 0 to |accesses|
      invariant ChecksUpTo(accesses, allocs, i, 0, checks)
    {
      for j := i + 1 to |accesses|
        invariant ChecksUpTo(accesses, allocs, i, j, checks)
      {
        var first, second := accesses[i], accesses[j];
        if first.isStore || second.isStore {
          if first.base == second.base {
            assert SameBaseWrite(accesses[i], accesses[j]);
            return Unsafe, checks;
          }
          if !IsKnownDistinctAllocation(allocs, first.base, second.base) {
            var pair := OrderedPair(first.base, second.base);
            assert NeedsCheck(allocs, accesses[i], accesses[j]);
            if pair !in checks {
              checks := checks + [pair];
            }
          }
        }
      }
    }
    kind := if checks == [] then SafeStatically else RequiresRuntimeCheck;
  }

  /** The accesses x and y, one of them a store, are to c.0 and c.1, the smaller first and not both allocations. */
  predicate WantsCheck(x: MemoryAccess, y: MemoryAccess, allocs: set<nat>, c: (nat, nat)) {
    && (x.isStore || y.isStore) && c.0 < c.1 && !(c.0 in allocs && c.1 in allocs)
    && ((x.base == c.0 && y.base == c.1) || (x.base == c.1 && y.base == c.0))
  }

  lemma WantedExactly(x: MemoryAccess, y: MemoryAccess, allocs: set<nat>, c: (nat, nat))
    ensures NeedsCheck(allocs, x, y) && c == OrderedPair(x.base, y.base) <==> WantsCheck(x, y, allocs, c)
  {
  }

  /** The checks, without the predicates that find them. */
  lemma ChecksExactly(accesses: seq<MemoryAccess>, allocs: set<nat>, checks: seq<(nat, nat)>, c: (nat, nat))
    requires ChecksUpTo(accesses, allocs, |accesses|, 0, checks)
    ensures c in checks <==> exists p, q :: 0 <= p < q < |accesses| && WantsCheck(accesses[p], accesses[q], allocs, c)
  {
    hide NeedsCheck, OrderedPair, WantsCheck;
    forall p, q | 0 <= p < q < |accesses|
      ensures NeedsCheck(allocs, accesses[p], accesses[q]) && c == OrderedPair(accesses[p].base, accesses[q].base) <==>
                WantsCheck(accesses[p], accesses[q], allocs, c)
    {
      WantedExactly(accesses[p], accesses[q], allocs, c);
    }
  }

  // ----- The guard

  /** One pair's test, in the emitted 64-bit arithmetic. */
  predicate PairSafe(first: nat, second: nat, byteLength: nat, endOffset: nat, startNonnegative: bool) {
    var firstDisjoint := first <= second && ToU64(second - first) >= byteLength;
    var secondDisjoint := second <= first && ToU64(first - second) >= byteLength;
    var capacitiesValid := ToU64(0 - first) >= endOffset && ToU64(0 - second) >= endOffset;
    startNonnegative && capacitiesValid && (firstDisjoint || secondDisjoint)
  }

  /** The conjunction over the checks. */
  method EvaluateGuard(checks: seq<(nat, nat)>, addr: nat -> nat, init: nat, bound: nat, size: nat)
    returns (allSafe: bool)
    ensures allSafe <==> forall c | c in checks ::
              PairSafe(addr(c.0), addr(c.1), ToU64(U32(bound - init) * size), ToU64(bound * size), S32(init) >= 0)
  {
    hide PairSafe;
    var tripCount := U32(bound - init);
    var byteLength := ToU64(tripCount * size);
    var endOffset := ToU64(bound * size);
    var startNonnegative := S32(init) >= 0;
    allSafe := true;
    for k := 0 to |checks|
      invariant allSafe <==> forall c | c in checks[..k] ::
                  PairSafe(addr(c.0), addr(c.1), byteLength, endOffset, startNonnegative)
    {
      assert checks[..k + 1] == checks[..k] + [checks[k]];
      var safe := PairSafe(addr(checks[k].0), addr(checks[k].1), byteLength, endOffset, startNonnegative);
      allSafe := allSafe && safe;
    }
    assert checks[..|checks|] == checks;
  }

  /**
   No byte that one access touches is touched by the other, while the index runs from lo to
   hi; and neither range leaves the address space.
   */
  ghost predicate Separate(a: nat, b: nat, lo: int, hi: int, size: nat) {
    && 0 <= a + lo * size && a + hi * size <= TWO64
    && 0 <= b + lo * size && b + hi * size <= TWO64
    && (a + hi * size <= b + lo * size || b + hi * size <= a + lo * size)
  }

  /** Neither product of the emitted test wraps. */
  lemma ByteCounts(init: nat, bound: nat, size: nat)
    requires init < TWO32 && bound < TWO32 && 1 <= size <= 8
    ensures ToU64(U32(bound - init) * size) == U32(bound - init) * size && ToU64(bound * size) == bound * size
    ensures init <= bound ==> U32(bound - init) * size == bound * size - init * size
    ensures 0 <= init * size && 0 <= U32(bound - init) * size
  {
    U32Is(bound - init);
    var n := U32(bound - init);
    hide U32, ToU64;
    MulMono(bound, size, TWO32, 8);
    MulMono(n, size, TWO32, 8);
    Spread(bound, init, size);
    MulLe(size, 0, init);
    MulLe(size, 0, bound);
    MulLe(size, 0, n);
    WordU64(bound * size);
    WordU64(n * size);
  }

  lemma Spread(b: int, i: int, size: int)
    ensures (b - i) * size == b * size - i * size
  {
  }

  lemma SmallU64(x: nat)
    requires x < TWO64
    ensures ToU64(0 - x) == if x == 0 then 0 else TWO64 - x
  {
  }

  lemma WordU64(x: nat)
    ensures x < TWO64 ==> ToU64(x) == x
  {
  }

  /**
   A true test means that nothing wraps and the two ranges from the start up to the bound are
   apart, the bound read as an unsigned word.
   */
  lemma GuardIsSound(first: nat, second: nat, init: nat, bound: nat, size: nat)
    requires first < TWO64 && second < TWO64 && init < TWO32 && bound < TWO32 && 1 <= size <= 8
    requires PairSafe(first, second, ToU64(U32(bound - init) * size), ToU64(bound * size), S32(init) >= 0)
    ensures S32(init) == init && Separate(first, second, init, bound, size)
  {
    hide *;
    PairUnfold(first, second, ToU64(U32(bound - init) * size), ToU64(bound * size), S32(init) >= 0);
    S32Is(init);
    ByteCounts(init, bound, size);
    SmallU64(first);
    SmallU64(second);
    if first <= second { WordU64(second - first); } else { WordU64(first - second); }
    if bound < init { MulLe(size, bound, init); }
    SeparateFold(first, second, init, bound, size, init * size, bound * size);
  }

  lemma PairUnfold(first: nat, second: nat, byteLength: nat, endOffset: nat, startNonnegative: bool)
    requires PairSafe(first, second, byteLength, endOffset, startNonnegative)
    ensures startNonnegative && ToU64(0 - first) >= endOffset && ToU64(0 - second) >= endOffset
    ensures (first <= second && ToU64(second - first) >= byteLength)
            || (second <= first && ToU64(first - second) >= byteLength)
  {
  }

  lemma SeparateFold(a: nat, b: nat, lo: int, hi: int, size: nat, x: int, y: int)
    requires x == lo * size && y == hi * size && 0 <= x && a + y <= TWO64 && b + y <= TWO64
    requires a + y <= b + x || b + y <= a + x
    ensures Separate(a, b, lo, hi, size)
  {
  }

  /**
   Unless the count wraps, the test is exact: it says that the start is not negative, that the
   ranges are apart, and that no range that ends above zero has its base at address zero, whose
   room to the end of memory reads as none.
   */
  lemma GuardIsExact(first: nat, second: nat, init: nat, bound: nat, size: nat)
    requires first < TWO64 && second < TWO64 && init < TWO32 && bound < TWO32 && 1 <= size <= 8
    ensures init <= bound ==>
              (PairSafe(first, second, ToU64(U32(bound - init) * size), ToU64(bound * size), S32(init) >= 0)
               <==> S32(init) >= 0 && Separate(first, second, init, bound, size)
                    && (bound > 0 ==> first > 0 && second > 0))
  {
    var byteLength, endOffset := ToU64(U32(bound - init) * size), ToU64(bound * size);
    ByteCounts(init, bound, size);
    hide S32, U32;
    SmallU64(first);
    SmallU64(second);
    if bound > 0 { MulLe(size, 1, bound); }
    if PairSafe(first, second, byteLength, endOffset, S32(init) >= 0) {
      GuardIsSound(first, second, init, bound, size);
    }
    if init <= bound && Separate(first, second, init, bound, size) && (bound > 0 ==> first > 0 && second > 0) {
      if first <= second { WordU64(second - first); } else { WordU64(first - second); }
      SeparateUnfold(first, second, init, bound, size, init * size, bound * size);
      hide Separate, ToU64;
    }
  }

  lemma SeparateUnfold(a: nat, b: nat, lo: int, hi: int, size: nat, x: int, y: int)
    requires x == lo * size && y == hi * size && Separate(a, b, lo, hi, size)
    ensures a + y <= TWO64 && b + y <= TWO64 && (a + y <= b + x || b + y <= a + x)
  {
  }
}
