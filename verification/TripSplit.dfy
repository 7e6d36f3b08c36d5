/**
 How the vectorizer splits the iterations of a loop between the vector loop and the
 scalar epilogue, in the 32-bit arithmetic of the code it emits.
 */
module TripSplit {
  import opened Scalar
  import opened SignedMagic
  import opened Patterns

  function U32(x: int): (r: nat)
    ensures r < Pow2(32)
  {
    Pat(x, 32)
  }

  function S32(u: nat): int {
    SignExtend(u, 32)
  }

  /** Bound less start, in steps, rounded up: as the preheader computes it. */
  function TripCount(init: nat, bound: nat, step: nat): nat
    requires step >= 1
  {
    var t := U32(bound - init);
    if step == 1 then t else U32(t + (step - 1)) / step
  }

  predicate HasVec(trip: nat, vf: nat) {
    S32(trip) > vf - 1
  }

  /** The count with its low bits masked away. */
  function VectorCount(trip: nat, vf: nat): nat {
    BitAnd(trip, U32(0 - vf))
  }

  function VectorEnd(init: nat, count: nat, step: nat): nat {
    U32(init + count * step)
  }

  /** How often the scalar loop goes round from i, for a bound that is not wrapped past. */
  function Rounds(i: int, b: int, step: nat): nat
    requires step >= 1
  {
    if i < b then (b - i + (step - 1)) / step else 0
  }

  /** The induction variable does not leave the signed range. */
  predicate NoWrap(i: int, b: int, step: nat)
    requires step >= 1
  {
    i + Rounds(i, b, step) * step < TWO31
  }

  // ----- Masks

  lemma {:induction false} AndOnes(t: nat, n: nat)
    requires t < Pow2(n)
    ensures BitAnd(t, Pow2(n) - 1) == t
  {
    if n > 0 && t > 0 {
      assert (Pow2(n) - 1) / 2 == Pow2(n - 1) - 1;
      AndOnes(t / 2, n - 1);
    }
  }

  /** The low bit is masked away; the rest is one bit shorter. */
  lemma AndEvenMask(t: nat, mask: nat)
    requires mask % 2 == 0
    ensures BitAnd(t, mask) == 2 * BitAnd(t / 2, mask / 2)
  {
  }

  lemma {:induction false} AndMask(t: nat, k: nat, n: nat)
    requires t < Pow2(n) && k <= n
    ensures Pow2(k) <= Pow2(n) && BitAnd(t, Pow2(n) - Pow2(k)) == t - t % Pow2(k)
    decreases n
  {
    hide BitAnd, Pow2;
    if k < n { Pow2Grows(k, n); }
    if k == 0 {
      AndOnes(t, n);
      Pow2Step(0);
    } else {
      Pow2Step(k);
      Pow2Step(n);
      AndMask(t / 2, k - 1, n - 1);
      MaskDoubled(t, Pow2(k - 1), Pow2(n - 1));
    }
  }

  lemma MaskDoubled(t: nat, low: nat, all: nat)
    requires 0 < low <= all && BitAnd(t / 2, all - low) == t / 2 - (t / 2) % low
    ensures BitAnd(t, 2 * all - 2 * low) == t - t % (2 * low)
  {
    hide BitAnd;
    AndEvenMask(t, 2 * all - 2 * low);
    HalfMod(t, low);
  }

  lemma HalfMod(t: nat, m: nat)
    requires m > 0
    ensures t % (2 * m) == 2 * ((t / 2) % m) + t % 2
  {
    var h := t / 2;
    var q, r := h / m, h % m;
    assert h == m * q + r;
    assert t == (2 * m) * q + (2 * r + t % 2);
    ModUnique(t, 2 * m, q, 2 * r + t % 2);
  }

  // ----- Signed and unsigned

  lemma S32Is(u: nat)
    requires u < TWO32
    ensures S32(u) == if u < TWO31 then u else u - TWO32
  {
    Pow2Values();
  }

  /** The vector loop is entered for a whole chunk or more; a count of 2^31 or more passes for negative. */
  lemma EnteredExactly(trip: nat, vf: nat)
    requires trip < TWO32 && vf >= 1
    ensures HasVec(trip, vf) <==> vf <= trip < TWO31
  {
    S32Is(trip);
    hide S32;
  }

  lemma U32Is(x: int)
    ensures 0 - TWO32 <= x < 2 * TWO32 ==> U32(x) == if x < 0 then x + TWO32 else if x < TWO32 then x else x - TWO32
    ensures U32(x) < TWO32
  {
    Pow2Values();
    if 0 <= x < TWO32 { PatIdem(x, 32); }
    if 0 - TWO32 <= x < 0 {
      PatShift(x, 1, 32);
      PatIdem(x + TWO32, 32);
    }
    if TWO32 <= x < 2 * TWO32 {
      PatShift(x, -1, 32);
      PatIdem(x - TWO32, 32);
    }
  }

  lemma DivBounds(x: int, d: nat)
    requires d >= 1
    ensures d * (x / d) <= x < d * (x / d) + d
    ensures x >= 0 ==> 0 <= x / d <= x
  {
    if x >= 0 { DivLe(x, d); }
  }

  /** Where the bounds are in order, the computed count is the number of rounds, or too small to use. */
  lemma CountIsRounds(init: nat, bound: nat, step: nat)
    requires init < TWO32 && bound < TWO32 && 1 <= step < TWO31 && S32(init) <= S32(bound)
    ensures TripCount(init, bound, step) < TWO32
    ensures TripCount(init, bound, step) == Rounds(S32(init), S32(bound), step) || TripCount(init, bound, step) == 0
  {
    S32Is(init);
    S32Is(bound);
    U32Is(bound - init);
    hide U32, S32, Rounds;
    var t := U32(bound - init);
    assert t == S32(bound) - S32(init);
    if step > 1 {
      hide TripCount;
      TripCountIs(init, bound, step);
      CountFor(t, step);
    }
    RoundsFor(S32(init), S32(bound), t, step);
  }

  /** Rounding up may wrap, and then nothing is left to divide. */
  lemma CountFor(t: nat, step: nat)
    requires t < TWO32 && 1 < step < TWO31
    ensures U32(t + (step - 1)) / step < TWO32
    ensures U32(t + (step - 1)) / step == (t + (step - 1)) / step || U32(t + (step - 1)) / step == 0
  {
    U32Is(t + (step - 1));
    hide U32;
    DivBounds(U32(t + (step - 1)), step);
    if t + (step - 1) >= TWO32 { SmallDiv(t + (step - 1) - TWO32, step); }
  }

  lemma RoundsFor(i: int, b: int, t: nat, step: nat)
    requires step >= 1 && t == b - i
    ensures Rounds(i, b, step) == if step == 1 then t else (t + (step - 1)) / step
  {
    if t == 0 && step > 1 { SmallDiv(step - 1, step); }
  }

  lemma TripCountIs(init: nat, bound: nat, step: nat)
    requires step > 1
    ensures TripCount(init, bound, step) == U32(U32(bound - init) + (step - 1)) / step
  {
  }

  /** Up to 5 by twos is three rounds; from -2^31 to 2^31 - 1 rounding up wraps, and the count is nought. */
  lemma CountRoundsUp()
    ensures TripCount(0, 5, 2) == 3
    ensures TripCount(TWO31, TWO31 - 1, 2) == 0 && Rounds(S32(TWO31), S32(TWO31 - 1), 2) == TWO31
  {
    U32Is(5);
    U32Is(6);
    U32Is(-1);
    U32Is(TWO32);
    S32Is(TWO31);
    S32Is(TWO31 - 1);
    hide U32, S32;
  }

  lemma SmallDiv(x: nat, d: nat)
    requires x < d
    ensures x / d == 0
  {
  }

  /** The vector loop takes whole chunks of real rounds and leaves less than one chunk. */
  ghost predicate GoodSplit(init: nat, bound: nat, step: nat, vf: nat)
    requires step >= 1
  {
    var i, rounds := S32(init), Rounds(S32(init), S32(bound), step);
    var count := VectorCount(TripCount(init, bound, step), vf);
    && count <= rounds && S32(VectorEnd(init, count, step)) == i + count * step
    && (exists chunks: nat :: count == chunks * vf && chunks >= 1) && rounds - count < vf
  }

  lemma ChunksOf(t: nat, vf: nat)
    requires vf >= 1 && t >= vf
    ensures t - t % vf == (t / vf) * vf && t / vf >= 1 && t % vf < vf
  {
    DivBounds(t, vf);
    assert t == vf * (t / vf) + t % vf;
  }

  lemma MaskIsNegative(k: nat)
    requires k <= 31
    ensures U32(0 - Pow2(k)) == Pow2(32) - Pow2(k) && Pow2(k) <= TWO31
  {
    Pow2Values();
    if k < 31 { Pow2Grows(k, 31); }
    U32Is(0 - Pow2(k));
  }

  lemma CountMasked(trip: nat, k: nat)
    requires trip < TWO32 && k <= 31
    ensures VectorCount(trip, Pow2(k)) == trip - trip % Pow2(k)
  {
    hide Pow2, U32, BitAnd;
    Pow2Values();
    MaskIsNegative(k);
    AndMask(trip, k, 32);
  }

  lemma EndIs(init: nat, count: nat, step: nat, i: int)
    requires init < TWO32 && i == S32(init) && 0 - TWO31 <= i + count * step < TWO31
    ensures S32(VectorEnd(init, count, step)) == i + count * step
  {
    S32Is(init);
    Pow2Values();
    var x := init + count * step;
    var y := i + count * step;
    assert x == y || x == y + TWO32;
    if x == y + TWO32 { PatShift(y, 1, 32); }
    hide S32;
    Int32InRange(y);
    EndPattern(y);
  }

  lemma EndPattern(y: int)
    requires InRange(y, 32)
    ensures S32(Pat(y, 32)) == y
  {
    SignExtendPat(y, 32);
  }

  lemma OrderedSplit(init: nat, bound: nat, step: nat, k: nat)
    requires init < TWO32 && bound < TWO32 && 1 <= step < TWO31 && k <= 30
    requires S32(init) <= S32(bound) && NoWrap(S32(init), S32(bound), step)
    requires HasVec(TripCount(init, bound, step), Pow2(k))
    ensures GoodSplit(init, bound, step, Pow2(k))
  {
    var i, rounds, trip, vf := S32(init), Rounds(S32(init), S32(bound), step), TripCount(init, bound, step), Pow2(k);
    CountIsRounds(init, bound, step);
    S32Is(trip);
    S32Is(init);
    CountMasked(trip, k);
    hide S32, Rounds, TripCount, VectorCount, VectorEnd, Pow2;
    ChunksOf(trip, vf);
    var count := VectorCount(trip, vf);
    assert count == (trip / vf) * vf;
    MulLe(step, count, rounds);
    SplitStays(i, count, rounds, step);
    EndIs(init, count, step, i);
  }

  lemma SplitStays(i: int, count: nat, rounds: nat, step: nat)
    requires count <= rounds && i + rounds * step < TWO31
    ensures i <= i + count * step < TWO31
  {
    MulMono(count, step, rounds, step);
    MulLe(count, 0, step);
  }
}
