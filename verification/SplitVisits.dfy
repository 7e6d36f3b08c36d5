/**
 The indices that the vector loop and the scalar epilogue visit, against those that the
 original loop visits; and exactly when they are the same.
 */
module SplitVisits {
  import opened Scalar
  import opened SignedMagic
  import opened Patterns
  import opened TripSplit

  /** The value of a 32-bit counter after k steps. */
  function Counter(first: nat, step: nat, k: nat): int {
    S32(U32(first + k * step))
  }

  /** A loop that counts from first while below end makes n rounds. */
  ghost predicate LoopRounds(first: nat, end: nat, step: nat, n: nat) {
    && (forall k: nat | k < n :: Counter(first, step, k) < S32(end))
    && !(Counter(first, step, n) < S32(end))
  }

  function Visits(first: nat, step: nat, n: nat): (v: seq<int>)
    ensures |v| == n && forall k: nat | k < n :: v[k] == Counter(first, step, k)
  {
    seq(n, (k: nat) => Counter(first, step, k))
  }

  /** The lanes of n rounds of the vector loop, in their order. */
  function ChunkVisits(first: nat, step: nat, vf: nat, n: nat): seq<int> {
    if n == 0 then [] else ChunkVisits(first, step, vf, n - 1) + Visits(U32(first + (n - 1) * (vf * step)), step, vf)
  }

  /** What the original loop visits. */
  ghost predicate ScalarVisits(init: nat, bound: nat, step: nat, v: seq<int>) {
    exists n: nat :: LoopRounds(init, bound, step, n) && v == Visits(init, step, n)
  }

  /** What a vector loop of n1 rounds and an epilogue of n2 rounds visit. */
  ghost predicate SplitRuns(init: nat, nVec: nat, bound: nat, step: nat, vf: nat, n1: nat, n2: nat) {
    LoopRounds(init, nVec, vf * step, n1) && LoopRounds(nVec, bound, step, n2)
  }

  function SplitEnd(init: nat, bound: nat, step: nat, vf: nat): nat
    requires step >= 1
  {
    VectorEnd(init, VectorCount(TripCount(init, bound, step), vf), step)
  }

  /** What the emitted code visits: vector loop and epilogue, or the epilogue alone. */
  ghost predicate EmittedVisits(init: nat, bound: nat, step: nat, vf: nat, v: seq<int>)
    requires step >= 1
  {
    if HasVec(TripCount(init, bound, step), vf) then
      var nVec := SplitEnd(init, bound, step, vf);
      exists n1: nat, n2: nat ::
        SplitRuns(init, nVec, bound, step, vf, n1, n2) && v == ChunkVisits(init, step, vf, n1) + Visits(nVec, step, n2)
    else ScalarVisits(init, bound, step, v)
  }

  /** The bounds are in order, or no vector loop is wanted, or nothing would be left for the epilogue. */
  predicate RightSplit(init: nat, bound: nat, step: nat, vf: nat)
    requires step >= 1 && vf >= 1
  {
    var trip := TripCount(init, bound, step);
    S32(init) <= S32(bound) || !HasVec(trip, vf) || trip % vf == 0
  }

  // ----- There is one list of visits

  lemma RoundsUnique(first: nat, end: nat, step: nat, n: nat, n': nat)
    requires LoopRounds(first, end, step, n) && LoopRounds(first, end, step, n')
    ensures n == n'
  {
    hide Counter;
    assert n < n' ==> Counter(first, step, n) < S32(end);
    assert n' < n ==> Counter(first, step, n') < S32(end);
  }

  lemma ScalarUnique(init: nat, bound: nat, step: nat, v: seq<int>, w: seq<int>)
    requires ScalarVisits(init, bound, step, v) && ScalarVisits(init, bound, step, w)
    ensures v == w
  {
    hide LoopRounds, Visits;
    var n: nat :| LoopRounds(init, bound, step, n) && v == Visits(init, step, n);
    var n': nat :| LoopRounds(init, bound, step, n') && w == Visits(init, step, n');
    RoundsUnique(init, bound, step, n, n');
  }

  lemma EmittedUnique(init: nat, bound: nat, step: nat, vf: nat, v: seq<int>, w: seq<int>)
    requires step >= 1 && EmittedVisits(init, bound, step, vf, v) && EmittedVisits(init, bound, step, vf, w)
    ensures v == w
  {
    hide LoopRounds, Visits, ChunkVisits, ScalarVisits, TripCount, HasVec, SplitEnd;
    if HasVec(TripCount(init, bound, step), vf) {
      var nVec := SplitEnd(init, bound, step, vf);
      var n1: nat, n2: nat :| SplitRuns(init, nVec, bound, step, vf, n1, n2)
        && v == ChunkVisits(init, step, vf, n1) + Visits(nVec, step, n2);
      var m1: nat, m2: nat :| SplitRuns(init, nVec, bound, step, vf, m1, m2)
        && w == ChunkVisits(init, step, vf, m1) + Visits(nVec, step, m2);
      RoundsUnique(init, nVec, vf * step, n1, m1);
      RoundsUnique(nVec, bound, step, n2, m2);
    } else {
      ScalarUnique(init, bound, step, v, w);
    }
  }

  // ----- Lists of counters

  lemma WrapInside(x: int, y: int)
    ensures U32(U32(x) + y) == U32(x + y)
  {
    hide *;
    PatAddLeft(x, y, 32);
    U32IsPat(x);
    U32IsPat(x + y);
    U32IsPat(U32(x) + y);
  }

  lemma U32IsPat(x: int)
    ensures U32(x) == Pat(x, 32)
  {
  }

  /** A counter that starts further on. */
  lemma CounterFrom(first: nat, step: nat, j: nat, k: nat)
    ensures Counter(U32(first + j * step), step, k) == Counter(first, step, j + k)
  {
    hide *;
    CounterIsWord(first, step, j + k);
    CounterIsWord(U32(first + j * step), step, k);
    WrapInside(first + j * step, k * step);
    SumTimes(j, k, step);
  }

  lemma CounterIsWord(first: nat, step: nat, k: nat)
    ensures Counter(first, step, k) == S32(U32(first + k * step))
  {
  }

  lemma SumTimes(j: nat, k: nat, step: nat)
    ensures (j + k) * step == j * step + k * step
  {
  }

  lemma VisitsConcat(first: nat, step: nat, j: nat, n: nat)
    ensures Visits(first, step, j) + Visits(U32(first + j * step), step, n) == Visits(first, step, j + n)
  {
    hide Counter;
    var v, w := Visits(first, step, j) + Visits(U32(first + j * step), step, n), Visits(first, step, j + n);
    forall k: nat | k < j + n
      ensures v[k] == w[k]
    {
      if k >= j { CounterFrom(first, step, j, k - j); }
    }
  }

  lemma Flatten(n: nat, vf: nat, step: nat)
    ensures n * (vf * step) == (n * vf) * step
  {
  }

  lemma OneMoreChunk(n: nat, vf: nat)
    requires n > 0
    ensures n * vf == (n - 1) * vf + vf
  {
  }

  /** The lanes of the vector rounds are consecutive counters. */
  lemma {:induction false} ChunksAreVisits(first: nat, step: nat, vf: nat, n: nat)
    ensures ChunkVisits(first, step, vf, n) == Visits(first, step, n * vf)
  {
    hide Visits;
    if n == 0 {
      NoVisits(first, step);
    } else {
      ChunksAreVisits(first, step, vf, n - 1);
      Flatten(n - 1, vf, step);
      VisitsConcat(first, step, (n - 1) * vf, vf);
      OneMoreChunk(n, vf);
    }
  }

  lemma NoVisits(first: nat, step: nat)
    ensures Visits(first, step, 0) == []
  {
  }

  lemma WordsSplit()
    ensures TWO32 == 2 * TWO31 && TWO31 == 0x8000_0000
  {
  }

  // ----- Rounds without wrapping

  lemma CounterIs(first: nat, step: nat, k: nat, i: int)
    requires first < TWO32 && i == S32(first) && 0 - TWO31 <= i + k * step < TWO31
    ensures Counter(first, step, k) == i + k * step
  {
    EndIs(first, k, step, i);
    hide S32, U32;
    CounterEnd(first, step, k);
  }

  lemma CounterEnd(first: nat, step: nat, k: nat)
    ensures Counter(first, step, k) == S32(VectorEnd(first, k, step))
  {
  }

  /** Rounds below n stay below the end, which is reached after n of them. */
  lemma RoundsReach(i: int, b: int, step: nat)
    requires step >= 1
    ensures var n := Rounds(i, b, step);
            && b <= i + n * step && (n > 0 ==> i + (n - 1) * step < b)
            && (i >= b ==> n == 0)
  {
    if i < b {
      DivBounds(b - i + (step - 1), step);
      var n := Rounds(i, b, step);
      assert step * n == n * step;
      if n > 0 { assert (n - 1) * step == n * step - step; }
    }
  }

  lemma CountsUp(first: nat, end: nat, step: nat, i: int, n: nat)
    requires first < TWO32 && i == S32(first) && 0 - TWO31 <= i && i + n * step < TWO31
    requires n > 0 ==> i + (n - 1) * step < S32(end)
    requires S32(end) <= i + n * step
    ensures LoopRounds(first, end, step, n)
  {
    hide S32, Counter;
    forall k: nat | k <= n
      ensures Counter(first, step, k) == i + k * step
    {
      MulLe(step, 0, k);
      MulLe(step, k, n);
      CounterIs(first, step, k, i);
    }
    forall k: nat | k < n
      ensures Counter(first, step, k) < S32(end)
    {
      MulLe(step, k, n - 1);
    }
  }

  /** The original loop makes as many rounds as were counted for it. */
  lemma ScalarRounds(first: nat, end: nat, step: nat)
    requires first < TWO32 && step >= 1 && NoWrap(S32(first), S32(end), step)
    ensures LoopRounds(first, end, step, Rounds(S32(first), S32(end), step))
  {
    S32Is(first);
    hide S32, Rounds;
    RoundsReach(S32(first), S32(end), step);
    CountsUp(first, end, step, S32(first), Rounds(S32(first), S32(end), step));
  }

  // ----- Bounds out of order

  /** A trip count worth splitting, although the bounds are out of order, comes from a range that wraps once. */
  lemma UnorderedTrip(init: nat, bound: nat, step: nat, vf: nat) returns (t: nat)
    requires init < TWO32 && bound < TWO32 && 1 <= step < TWO31 && vf >= 1
    requires S32(bound) < S32(init) && HasVec(TripCount(init, bound, step), vf)
    ensures t == S32(bound) - S32(init) + TWO32 && t + (step - 1) < TWO32
    ensures var trip := TripCount(init, bound, step); trip < TWO31 && t <= trip * step <= t + (step - 1) && trip >= vf
  {
    S32Is(init);
    S32Is(bound);
    U32Is(bound - init);
    var trip := TripCount(init, bound, step);
    t := U32(bound - init);
    hide U32, S32;
    SignedTrip(init, bound, step, vf);
    if step > 1 {
      U32Is(t + (step - 1));
      TripCountIs(init, bound, step);
      hide TripCount;
      if t + (step - 1) >= TWO32 {
        SmallDiv(t + (step - 1) - TWO32, step);
      }
      DivBounds(t + (step - 1), step);
      assert step * trip == trip * step;
    }
  }

  lemma SignedTrip(init: nat, bound: nat, step: nat, vf: nat)
    requires init < TWO32 && bound < TWO32 && 1 <= step < TWO31 && vf >= 1 && HasVec(TripCount(init, bound, step), vf)
    ensures vf <= TripCount(init, bound, step) < TWO31
  {
    var trip := TripCount(init, bound, step);
    TripInRange(init, bound, step);
    S32Is(trip);
  }

  lemma TripInRange(init: nat, bound: nat, step: nat)
    requires step >= 1
    ensures TripCount(init, bound, step) < TWO32
  {
    U32Is(bound - init);
    U32Is(U32(bound - init) + (step - 1));
    hide U32;
    if step > 1 { DivBounds(U32(U32(bound - init) + (step - 1)), step); }
  }

  // ----- The split, in every case

  /** Where vector loop and epilogue begin and end, and how many rounds they make. */
  ghost predicate SplitFacts(init: nat, bound: nat, step: nat, vf: nat, nVec: nat, n1: nat, n2: nat)
    requires step >= 1 && vf >= 1
  {
    var i, b, e := S32(init), S32(bound), S32(nVec);
    && nVec < TWO32 && SplitRuns(init, nVec, bound, step, vf, n1, n2) && n1 * vf <= TripCount(init, bound, step)
    && (e == i + (n1 * vf) * step || (n1 == 0 && e <= i))
    && n2 == Rounds(e, b, step) && NoWrap(e, b, step)
    && (i <= b ==> e == i + (n1 * vf) * step && n1 * vf + n2 == Rounds(i, b, step))
    && (b < i ==> (n1 == 0 && n2 == 0 <==> TripCount(init, bound, step) % vf == 0))
  }

  /** Rounds that are left after some of them. */
  lemma RoundsLeft(i: int, b: int, step: nat, count: nat)
    requires step >= 1 && count <= Rounds(i, b, step)
    ensures Rounds(i + count * step, b, step) == Rounds(i, b, step) - count
  {
    var n := Rounds(i, b, step);
    if i < b {
      DivBounds(b - i + (step - 1), step);
      SumTimes(count, n - count, step);
      assert step * n == n * step;
      var e := i + count * step;
      if count < n {
        MulLe(step, 1, n - count);
        assert (n - count) * step == step * (n - count);
        DivUnique(b - e + (step - 1), step, n - count, b - e + (step - 1) - step * (n - count));
      }
    } else {
      assert count * step == 0;
    }
  }

  /** What the split takes, with the bounds in order. */
  lemma ChunksTaken(init: nat, bound: nat, step: nat, k: nat) returns (chunks: nat)
    requires init < TWO32 && bound < TWO32 && 1 <= step < TWO31 && k <= 30
    requires S32(init) <= S32(bound) && NoWrap(S32(init), S32(bound), step)
    requires HasVec(TripCount(init, bound, step), Pow2(k))
    ensures var count := VectorCount(TripCount(init, bound, step), Pow2(k));
            && count == chunks * Pow2(k) && count <= Rounds(S32(init), S32(bound), step)
               && count <= TripCount(init, bound, step)
            && S32(SplitEnd(init, bound, step, Pow2(k))) == S32(init) + count * step
    ensures Pow2(k) >= 1
  {
    OrderedSplit(init, bound, step, k);
    WordEnd(init, bound, step, Pow2(k));
    TripInRange(init, bound, step);
    CountMasked(TripCount(init, bound, step), k);
    hide S32, Rounds, TripCount, VectorCount, VectorEnd, Pow2, HasVec;
    chunks :| VectorCount(TripCount(init, bound, step), Pow2(k)) == chunks * Pow2(k) && chunks >= 1;
  }

  lemma OrderedFacts(init: nat, bound: nat, step: nat, k: nat) returns (n1: nat, n2: nat)
    requires init < TWO32 && bound < TWO32 && 1 <= step < TWO31 && k <= 30
    requires S32(init) <= S32(bound) && NoWrap(S32(init), S32(bound), step)
    requires HasVec(TripCount(init, bound, step), Pow2(k))
    ensures SplitFacts(init, bound, step, Pow2(k), SplitEnd(init, bound, step, Pow2(k)), n1, n2)
  {
    hide *;
    WordsSplit();
    var i, b, vf := S32(init), S32(bound), Pow2(k);
    var count, nVec := VectorCount(TripCount(init, bound, step), vf), SplitEnd(init, bound, step, vf);
    n1 := ChunksTaken(init, bound, step, k);
    n2 := Rounds(i, b, step) - count;
    SignedWord(init);
    WordEnd(init, bound, step, vf);
    SignedWord(nVec);
    RoundsLeft(i, b, step, count);
    ChunkRounds(init, nVec, step, vf, n1, i);
    SumTimes(count, n2, step);
    NoWrapLeft(i, b, step, count);
    ScalarRounds(nVec, bound, step);
    OrderedFold(init, bound, step, vf, nVec, n1, n2);
  }

  lemma NoWrapLeft(i: int, b: int, step: nat, count: nat)
    requires step >= 1 && NoWrap(i, b, step) && count <= Rounds(i, b, step)
    ensures NoWrap(i + count * step, b, step)
  {
    RoundsLeft(i, b, step, count);
    hide Rounds;
    SumTimes(count, Rounds(i, b, step) - count, step);
  }

  lemma OrderedFold(init: nat, bound: nat, step: nat, vf: nat, nVec: nat, n1: nat, n2: nat)
    requires step >= 1 && vf >= 1 && nVec < TWO32 && S32(init) <= S32(bound)
    requires LoopRounds(init, nVec, vf * step, n1) && LoopRounds(nVec, bound, step, n2)
    requires S32(nVec) == S32(init) + (n1 * vf) * step && n1 * vf + n2 == Rounds(S32(init), S32(bound), step)
    requires n2 == Rounds(S32(nVec), S32(bound), step) && NoWrap(S32(nVec), S32(bound), step)
    requires n1 * vf <= TripCount(init, bound, step)
    ensures SplitFacts(init, bound, step, vf, nVec, n1, n2)
  {
    hide S32, LoopRounds, Rounds, NoWrap, TripCount;
  }

  /** The rounds of the vector loop, where its end does not wrap. */
  lemma ChunkRounds(init: nat, nVec: nat, step: nat, vf: nat, chunks: nat, i: int)
    requires init < TWO32 && step >= 1 && vf >= 1 && i == S32(init) && 0 - TWO31 <= i
    requires S32(nVec) == i + (chunks * vf) * step < TWO31
    ensures LoopRounds(init, nVec, vf * step, chunks)
  {
    hide S32, LoopRounds;
    Flatten(chunks, vf, step);
    MulLe(step, 1, vf);
    var stride := vf * step;
    assert stride == step * vf;
    if chunks > 0 { assert (chunks - 1) * stride == chunks * stride - stride; }
    CountsUp(init, nVec, stride, i, chunks);
  }

  lemma WordEnd(init: nat, bound: nat, step: nat, vf: nat)
    requires step >= 1
    ensures SplitEnd(init, bound, step, vf) < TWO32
    ensures SplitEnd(init, bound, step, vf) == VectorEnd(init, VectorCount(TripCount(init, bound, step), vf), step)
  {
    U32Is(init + VectorCount(TripCount(init, bound, step), vf) * step);
  }

  /** The end of the vector loop, as a signed word, where it lies beyond the signed range. */
  lemma EndWraps(init: nat, count: nat, step: nat, i: int)
    requires init < TWO32 && i == S32(init) && TWO31 <= i + count * step < TWO31 + TWO32
    ensures S32(VectorEnd(init, count, step)) == i + count * step - TWO32
  {
    S32Is(init);
    Pow2Values();
    var x := init + count * step;
    var y := i + count * step - TWO32;
    assert x == y + TWO32 || x == y + 2 * TWO32;
    hide S32, Pow2;
    if x == y + TWO32 { PatShift(y, 1, 32); } else { PatShift(y, 2, 32); }
    Int32InRange(y);
    EndPattern(y);
    EndIsPattern(init, count, step);
  }

  lemma EndIsPattern(init: nat, count: nat, step: nat)
    ensures VectorEnd(init, count, step) == Pat(init + count * step, 32)
  {
  }

  /** The rounds counted, in steps, against those of the vector loop. */
  lemma CountedSteps(trip: nat, k: nat, step: nat)
    requires trip < TWO32 && k <= 31 && trip >= Pow2(k)
    ensures var vf := Pow2(k);
            var count := VectorCount(trip, vf);
            && count == (trip / vf) * vf && trip / vf >= 1 && count >= 1 && count <= trip
            && (trip % vf == 0 ==> count * step == trip * step)
            && (trip % vf != 0 ==> count * step + step <= trip * step)
            && step <= count * step <= trip * step
  {
    hide VectorCount, Pow2;
    CountMasked(trip, k);
    ChunksOf(trip, Pow2(k));
    hide *;
    CountedFrom(trip, Pow2(k), trip / Pow2(k), VectorCount(trip, Pow2(k)), trip % Pow2(k), step);
  }

  lemma CountedFrom(trip: nat, vf: nat, q: nat, count: nat, r: nat, step: nat)
    requires count == q * vf && vf >= 1 && q >= 1 && count + r == trip
    ensures 1 <= count <= trip && step <= count * step <= trip * step
    ensures r == 0 ==> count * step == trip * step
    ensures r != 0 ==> count * step + step <= trip * step
  {
    MulLe(vf, 1, q);
    MulLe(step, 1, count);
    MulLe(step, count, trip);
    if r != 0 {
      MulLe(step, count + 1, trip);
      SumTimes(count, 1, step);
    }
  }

  /** The vector loop runs to its end, and the epilogue has nothing to do. */
  lemma EndAhead(init: nat, bound: nat, step: nat, k: nat, t: nat)
    requires init < TWO32 && bound < TWO32 && 1 <= step < TWO31 && k <= 30 && S32(bound) < S32(init)
    requires t == S32(bound) - S32(init) + TWO32
    requires var trip := TripCount(init, bound, step); trip < TWO31 && t <= trip * step && trip >= Pow2(k)
    requires S32(init) + VectorCount(TripCount(init, bound, step), Pow2(k)) * step < TWO31
    ensures SplitFacts(init, bound, step, Pow2(k), SplitEnd(init, bound, step, Pow2(k)),
                       TripCount(init, bound, step) / Pow2(k), 0)
  {
    hide *;
    WordsSplit();
    var i, b, vf := S32(init), S32(bound), Pow2(k);
    var trip, nVec := TripCount(init, bound, step), SplitEnd(init, bound, step, Pow2(k));
    SignedWord(init);
    SignedWord(bound);
    CountedSteps(trip, k, step);
    WordEnd(init, bound, step, vf);
    EndIs(init, VectorCount(trip, vf), step, i);
    ChunkRounds(init, nVec, step, vf, trip / vf, i);
    NoRounds(nVec, bound, step);
    EpilogueFits(S32(nVec), b, step, i);
    FactsFold(init, bound, step, vf, nVec, trip / vf, 0);
  }

  /** The end wraps to below the start: the vector loop is not entered. */
  lemma EndBehind(init: nat, bound: nat, step: nat, k: nat, t: nat)
    requires init < TWO32 && bound < TWO32 && 1 <= step < TWO31 && k <= 30 && S32(bound) < S32(init)
    requires t == S32(bound) - S32(init) + TWO32 && t + (step - 1) < TWO32
    requires var trip := TripCount(init, bound, step);
             trip < TWO31 && t <= trip * step <= t + (step - 1) && trip >= Pow2(k)
    requires S32(init) + VectorCount(TripCount(init, bound, step), Pow2(k)) * step >= TWO31
    ensures var nVec := SplitEnd(init, bound, step, Pow2(k));
            SplitFacts(init, bound, step, Pow2(k), nVec, 0, Rounds(S32(nVec), S32(bound), step))
  {
    hide *;
    WordsSplit();
    var i, b, vf := S32(init), S32(bound), Pow2(k);
    var trip, nVec := TripCount(init, bound, step), SplitEnd(init, bound, step, Pow2(k));
    SignedWord(init);
    SignedWord(bound);
    CountedSteps(trip, k, step);
    WordEnd(init, bound, step, vf);
    EndWraps(init, VectorCount(trip, vf), step, i);
    NoRounds(init, nVec, vf * step);
    EpilogueFits(S32(nVec), b, step, i);
    ScalarRounds(nVec, bound, step);
    FactsFold(init, bound, step, vf, nVec, 0, Rounds(S32(nVec), b, step));
  }

  lemma UnorderedFacts(init: nat, bound: nat, step: nat, k: nat) returns (n1: nat, n2: nat)
    requires init < TWO32 && bound < TWO32 && 1 <= step < TWO31 && k <= 30
    requires S32(bound) < S32(init) && HasVec(TripCount(init, bound, step), Pow2(k))
    ensures SplitFacts(init, bound, step, Pow2(k), SplitEnd(init, bound, step, Pow2(k)), n1, n2)
  {
    hide *;
    var t := UnorderedTrip(init, bound, step, Pow2(k));
    if S32(init) + VectorCount(TripCount(init, bound, step), Pow2(k)) * step < TWO31 {
      EndAhead(init, bound, step, k, t);
      n1, n2 := TripCount(init, bound, step) / Pow2(k), 0;
    } else {
      EndBehind(init, bound, step, k, t);
      n1, n2 := 0, Rounds(S32(SplitEnd(init, bound, step, Pow2(k))), S32(bound), step);
    }
  }

  lemma SignedWord(u: nat)
    requires u < TWO32
    ensures 0 - TWO31 <= S32(u) < TWO31
  {
    S32Is(u);
  }

  lemma NoRounds(first: nat, end: nat, step: nat)
    requires first < TWO32 && S32(end) <= S32(first)
    ensures LoopRounds(first, end, step, 0)
  {
    SignedWord(first);
    hide S32;
    CounterIs(first, step, 0, S32(first));
  }

  lemma EpilogueFits(e: int, b: int, step: nat, i: int)
    requires step >= 1 && e < TWO31 && (e < b ==> b + (step - 1) < TWO31)
    ensures NoWrap(e, b, step) && (Rounds(e, b, step) == 0 <==> b <= e)
  {
    RoundsReach(e, b, step);
    var n := Rounds(e, b, step);
    if n > 0 { SumTimes(n - 1, 1, step); }
  }

  lemma FactsFold(init: nat, bound: nat, step: nat, vf: nat, nVec: nat, n1: nat, n2: nat)
    requires step >= 1 && vf >= 1 && nVec < TWO32 && S32(bound) < S32(init)
    requires LoopRounds(init, nVec, vf * step, n1) && LoopRounds(nVec, bound, step, n2)
    requires S32(nVec) == S32(init) + (n1 * vf) * step || (n1 == 0 && S32(nVec) <= S32(init))
    requires n2 == Rounds(S32(nVec), S32(bound), step) && NoWrap(S32(nVec), S32(bound), step)
    requires (n1 == 0 && n2 == 0 <==> TripCount(init, bound, step) % vf == 0) && n1 * vf <= TripCount(init, bound, step)
    ensures SplitFacts(init, bound, step, vf, nVec, n1, n2)
  {
    hide S32, LoopRounds, Rounds, NoWrap, TripCount;
  }

  /** Whatever the bounds, the emitted loops end, after so many rounds. */
  lemma SplitRounds(init: nat, bound: nat, step: nat, k: nat) returns (n1: nat, n2: nat)
    requires init < TWO32 && bound < TWO32 && 1 <= step < TWO31 && k <= 30 && NoWrap(S32(init), S32(bound), step)
    requires HasVec(TripCount(init, bound, step), Pow2(k))
    ensures SplitFacts(init, bound, step, Pow2(k), SplitEnd(init, bound, step, Pow2(k)), n1, n2)
  {
    hide *;
    if S32(init) <= S32(bound) {
      n1, n2 := OrderedFacts(init, bound, step, k);
    } else {
      n1, n2 := UnorderedFacts(init, bound, step, k);
    }
  }

  // ----- Exactness

  lemma SplitFactsRuns(init: nat, bound: nat, step: nat, vf: nat, nVec: nat, n1: nat, n2: nat)
    requires step >= 1 && vf >= 1 && SplitFacts(init, bound, step, vf, nVec, n1, n2)
    ensures SplitRuns(init, nVec, bound, step, vf, n1, n2)
  {
  }

  /** With the bounds in order, chunks and epilogue visit the counters of the original loop. */
  lemma OrderedVisits(init: nat, bound: nat, step: nat, vf: nat, nVec: nat, n1: nat, n2: nat)
    requires init < TWO32 && step >= 1 && vf >= 1 && S32(init) <= S32(bound)
    requires SplitFacts(init, bound, step, vf, nVec, n1, n2)
    ensures ChunkVisits(init, step, vf, n1) + Visits(nVec, step, n2)
            == Visits(init, step, Rounds(S32(init), S32(bound), step))
  {
    hide *;
    OrderedParts(init, bound, step, vf, nVec, n1, n2);
    ChunksAreVisits(init, step, vf, n1);
    NatProduct(n1, vf, step);
    SameWord(init, nVec, (n1 * vf) * step);
    VisitsConcat(init, step, n1 * vf, n2);
  }

  lemma NatProduct(a: nat, b: nat, c: nat)
    ensures 0 <= a * b && 0 <= (a * b) * c
  {
  }

  lemma VisitCount(init: nat, step: nat, vf: nat, nVec: nat, n1: nat, n2: nat)
    ensures |ChunkVisits(init, step, vf, n1) + Visits(nVec, step, n2)| == n1 * vf + n2
  {
    ChunksAreVisits(init, step, vf, n1);
    hide ChunkVisits;
  }

  lemma OrderedParts(init: nat, bound: nat, step: nat, vf: nat, nVec: nat, n1: nat, n2: nat)
    requires step >= 1 && vf >= 1 && SplitFacts(init, bound, step, vf, nVec, n1, n2) && S32(init) <= S32(bound)
    ensures nVec < TWO32 && S32(nVec) == S32(init) + (n1 * vf) * step
    ensures n1 * vf + n2 == Rounds(S32(init), S32(bound), step)
  {
    hide S32, Rounds, LoopRounds, NoWrap, TripCount;
  }

  /** A word is determined by its signed value. */
  lemma SameWord(init: nat, end: nat, span: nat)
    requires init < TWO32 && end < TWO32 && S32(end) == S32(init) + span
    ensures end == U32(init + span)
  {
    S32Is(init);
    S32Is(end);
    hide S32, U32;
    WrapOnce(init + span, end);
  }

  lemma WrapOnce(x: nat, w: nat)
    requires w < TWO32 && (x == w || x == w + TWO32)
    ensures U32(x) == w
  {
    U32Is(w);
    Pow2Values();
    if x == w + TWO32 { PatShift(w, 1, 32); }
  }

  lemma EmittedFrom(init: nat, bound: nat, step: nat, k: nat, n1: nat, n2: nat)
    requires step >= 1 && HasVec(TripCount(init, bound, step), Pow2(k))
    requires SplitRuns(init, SplitEnd(init, bound, step, Pow2(k)), bound, step, Pow2(k), n1, n2)
    ensures EmittedVisits(init, bound, step, Pow2(k),
                          ChunkVisits(init, step, Pow2(k), n1) + Visits(SplitEnd(init, bound, step, Pow2(k)), step, n2))
  {
    hide LoopRounds, Visits, ChunkVisits;
  }

  lemma Pow2Positive(k: nat)
    ensures Pow2(k) >= 1
  {
  }

  /** What the emitted code visits, where it splits the loop. */
  lemma EmittedSplit(init: nat, bound: nat, step: nat, k: nat, n1: nat, n2: nat, v: seq<int>)
    requires step >= 1 && HasVec(TripCount(init, bound, step), Pow2(k)) && Pow2(k) >= 1
    requires SplitFacts(init, bound, step, Pow2(k), SplitEnd(init, bound, step, Pow2(k)), n1, n2)
    requires EmittedVisits(init, bound, step, Pow2(k), v)
    ensures v == ChunkVisits(init, step, Pow2(k), n1) + Visits(SplitEnd(init, bound, step, Pow2(k)), step, n2)
  {
    hide *;
    SplitFactsRuns(init, bound, step, Pow2(k), SplitEnd(init, bound, step, Pow2(k)), n1, n2);
    EmittedFrom(init, bound, step, k, n1, n2);
    EmittedUnique(init, bound, step, Pow2(k), v,
                  ChunkVisits(init, step, Pow2(k), n1) + Visits(SplitEnd(init, bound, step, Pow2(k)), step, n2));
  }

  lemma EmittedWhole(init: nat, bound: nat, step: nat, vf: nat, v: seq<int>)
    requires step >= 1 && !HasVec(TripCount(init, bound, step), vf) && EmittedVisits(init, bound, step, vf, v)
    ensures ScalarVisits(init, bound, step, v)
  {
    hide ScalarVisits, TripCount, HasVec;
  }

  lemma AsScalar(init: nat, bound: nat, step: nat, n: nat)
    requires LoopRounds(init, bound, step, n)
    ensures ScalarVisits(init, bound, step, Visits(init, step, n))
  {
    hide LoopRounds;
  }

  /**
   The emitted loops visit what the original loop visits, in its order, exactly when the
   bounds are in order, or the count is below one chunk, or it is a multiple of one: then
   bounds out of order send neither loop round.
   */
  lemma SplitExactly(init: nat, bound: nat, step: nat, k: nat) returns (scalar: seq<int>, emitted: seq<int>)
    requires init < TWO32 && bound < TWO32 && 1 <= step < TWO31 && k <= 30 && NoWrap(S32(init), S32(bound), step)
    ensures ScalarVisits(init, bound, step, scalar) && EmittedVisits(init, bound, step, Pow2(k), emitted)
    ensures emitted == scalar <==> RightSplit(init, bound, step, Pow2(k))
  {
    var i, b, vf := S32(init), S32(bound), Pow2(k);
    hide S32, Visits, ChunkVisits, Rounds, LoopRounds, NoWrap, Pow2, TripCount, HasVec, SplitEnd;
    scalar := Visits(init, step, Rounds(i, b, step));
    ScalarRounds(init, bound, step);
    if HasVec(TripCount(init, bound, step), vf) {
      var n1, n2 := SplitRounds(init, bound, step, k);
      SplitFactsRuns(init, bound, step, vf, SplitEnd(init, bound, step, vf), n1, n2);
      VisitCount(init, step, vf, SplitEnd(init, bound, step, vf), n1, n2);
      if i <= b { OrderedVisits(init, bound, step, vf, SplitEnd(init, bound, step, vf), n1, n2); }
      EmittedFrom(init, bound, step, k, n1, n2);
      emitted := ChunkVisits(init, step, vf, n1) + Visits(SplitEnd(init, bound, step, vf), step, n2);
      if b < i {
        RoundsReach(i, b, step);
        VisitsMany(init, step, Rounds(i, b, step));
        MulLe(vf, 0, n1);
        if n1 > 0 { MulLe(vf, 1, n1); }
      }
    } else {
      emitted := scalar;
    }
  }

  lemma VisitsMany(first: nat, step: nat, n: nat)
    ensures |Visits(first, step, n)| == n
  {
  }

  // ----- Bounds out of order

  /** A start that is not negative and a bound that is, with a small difference of their words. */
  lemma SmallTrip(init: nat, bound: nat, t: nat)
    requires init < TWO31 <= bound < TWO32 && bound - init == t && 8 <= t < TWO31
    ensures S32(init) == init && S32(bound) == bound - TWO32
    ensures TripCount(init, bound, 1) == t && HasVec(t, 8) && NoWrap(S32(init), S32(bound), 1)
    ensures LoopRounds(init, bound, 1, 0) && ScalarVisits(init, bound, 1, [])
    ensures SplitEnd(init, bound, 1, 8) == U32(init + (t - t % 8)) && Pow2(3) == 8
  {
    S32Is(init);
    S32Is(bound);
    S32Is(t);
    U32Is(bound - init);
    assert Pow2(3) == 8;
    CountMasked(t, 3);
    NoRounds(init, bound, 1);
    NoVisits(init, 1);
    EndOf(init, bound, t);
  }

  lemma EndOf(init: nat, bound: nat, t: nat)
    requires TripCount(init, bound, 1) == t && VectorCount(t, 8) == t - t % 8
    ensures SplitEnd(init, bound, 1, 8) == U32(init + (t - t % 8))
  {
    hide U32, VectorCount, TripCount;
  }

  /** Harmless: eight rounds counted for a vector factor of eight, and none made. */
  lemma UnorderedRight()
    ensures var init, bound := TWO31 - 1, TWO31 + 7;
            && S32(bound) < S32(init) && HasVec(TripCount(init, bound, 1), 8) && RightSplit(init, bound, 1, 8)
            && ScalarVisits(init, bound, 1, []) && EmittedVisits(init, bound, 1, 8, [])
  {
    hide *;
    WordsSplit();
    var init, bound := TWO31 - 1, TWO31 + 7;
    SmallTrip(init, bound, 8);
    Multiple(init, bound, 8);
    var scalar, emitted := SplitExactly(init, bound, 1, 3);
    ScalarUnique(init, bound, 1, scalar, []);
  }

  lemma Multiple(init: nat, bound: nat, t: nat)
    requires TripCount(init, bound, 1) == t && t % 8 == 0
    ensures RightSplit(init, bound, 1, 8)
  {
    hide TripCount, HasVec, S32;
  }

  /** One round too many, in the epilogue: nine rounds counted, eight of them skipped over the end of the words. */
  lemma UnorderedEpilogue()
    ensures var init, bound := TWO31 - 1, TWO31 + 8;
            && S32(bound) < S32(init) && HasVec(TripCount(init, bound, 1), 8)
            && ScalarVisits(init, bound, 1, []) && EmittedVisits(init, bound, 1, 8, [7 - TWO31])
  {
    hide *;
    WordsSplit();
    var init, bound, nVec := TWO31 - 1, TWO31 + 8, TWO31 + 7;
    SmallTrip(init, bound, 9);
    U32Is(nVec);
    S32Is(nVec);
    NoRounds(init, nVec, 8 * 1);
    CountsUp(nVec, bound, 1, 7 - TWO31, 1);
    RunsFold(init, nVec, bound, 0, 1);
    EmittedFrom(init, bound, 1, 3, 0, 1);
    CounterIs(nVec, 1, 0, 7 - TWO31);
    OneVisit(nVec);
    NoChunks(init);
  }

  lemma RunsFold(init: nat, nVec: nat, bound: nat, n1: nat, n2: nat)
    requires LoopRounds(init, nVec, 8 * 1, n1) && LoopRounds(nVec, bound, 1, n2)
    ensures SplitRuns(init, nVec, bound, 1, 8, n1, n2)
  {
    hide LoopRounds;
  }

  lemma OneVisit(first: nat)
    ensures Visits(first, 1, 1) == [Counter(first, 1, 0)]
  {
  }

  lemma NoChunks(first: nat)
    ensures ChunkVisits(first, 1, 8, 0) == []
    ensures forall v: seq<int> :: [] + v == v
  {
  }

  /** Ninety-six rounds too many, in the vector loop: its end does not wrap, and the bound does. */
  lemma UnorderedVector()
    ensures var init, bound := TWO31 - 101, TWO31;
            && S32(bound) < S32(init) == init && TripCount(init, bound, 1) == 101 && HasVec(101, 8)
            && ScalarVisits(init, bound, 1, []) && EmittedVisits(init, bound, 1, 8, Visits(init, 1, 96))
            && forall k: nat | k < 96 :: Counter(init, 1, k) == init + k
  {
    hide *;
    WordsSplit();
    var init, bound, nVec := TWO31 - 101, TWO31, TWO31 - 5;
    SmallTrip(init, bound, 101);
    U32Is(nVec);
    S32Is(nVec);
    ChunkRounds(init, nVec, 1, 8, 12, init);
    NoRounds(nVec, bound, 1);
    RunsFold(init, nVec, bound, 12, 0);
    EmittedFrom(init, bound, 1, 3, 12, 0);
    ChunksAreVisits(init, 1, 8, 12);
    NoVisits(nVec, 1);
    assert Visits(init, 1, 96) + [] == Visits(init, 1, 96);
    forall k: nat | k < 96
      ensures Counter(init, 1, k) == init + k
    {
      CounterIs(init, 1, k, init);
    }
  }
}
