/**
 Unrolling on machine words: when the loop and its unrolling go round equally often,
 in terms of the start, the bound and the step.
 */
module UnrollWords {
  import opened IR
  import opened Scalar
  import opened Patterns
  import opened TripSplit
  import opened SplitVisits
  import opened LoopUnroll
  import opened UnrollEquivalence
  import opened UnrollTheorems

  predicate IsSigned(op: Opcode) {
    op == Cslt || op == Csle || op == Csgt || op == Csge
  }

  /** The integer that a comparison takes a word for. */
  function Reads(op: Opcode, w: nat, bits: nat): int
    requires w >= 1
  {
    if IsSigned(op) then SignExtend(bits, w) else bits
  }

  /** The integers there are words for. */
  predicate Within(op: Opcode, w: nat, x: int)
    requires w >= 1
  {
    if IsSigned(op) then 0 - Pow2(w - 1) <= x < Pow2(w - 1) else 0 <= x < Pow2(w)
  }

  /** Steps and comparisons of w-bit words. */
  function WordArith(op: Opcode, w: nat, step: int): Arith
    requires w >= 1
  {
    Arith((a: Word) => Word(w, Pat(a.bits + step, w)),
          (a: Word, b: Word) => Compares(op, Reads(op, w, a.bits), Reads(op, w, b.bits)))
  }

  /** What is left of an integer in a word. */
  function Wrapped(op: Opcode, w: nat, x: int): int
    requires w >= 1
  {
    Reads(op, w, Pat(x, w))
  }

  lemma WithinIsKept(op: Opcode, w: nat, x: int)
    requires 1 <= w <= 64 && Within(op, w, x)
    ensures Wrapped(op, w, x) == x
  {
    if IsSigned(op) { SignExtendPat(x, w); } else { PatIdem(x, w); }
  }

  lemma ReadsWithin(op: Opcode, w: nat, bits: nat)
    requires 1 <= w <= 64 && bits < Pow2(w)
    ensures Within(op, w, Reads(op, w, bits))
    ensures bits == Reads(op, w, bits) || bits == Reads(op, w, bits) + Pow2(w)
  {
    hide Pow2, SignExtend;
    HalfOf(w);
    SignExtendIs(bits, w);
  }

  lemma SignExtendIs(bits: nat, w: nat)
    requires 1 <= w <= 64 && bits < Pow2(w)
    ensures SignExtend(bits, w) == if bits >= Pow2(w - 1) then bits - Pow2(w) else bits
  {
    hide Pow2;
    PatIdem(bits, w);
    assert bits % Pow2(w) == bits by { PatIs(bits, w); }
  }

  lemma PatIs(x: int, w: nat)
    ensures Pat(x, w) == x % Pow2(w)
  {
  }

  lemma HalfOf(w: nat)
    requires w >= 1
    ensures Pow2(w) == 2 * Pow2(w - 1)
  {
  }

  /** Adding to the bits is adding to the integer. */
  lemma ReadsAdd(op: Opcode, w: nat, bits: nat, d: int)
    requires 1 <= w <= 64 && bits < Pow2(w)
    ensures Pat(bits + d, w) == Pat(Reads(op, w, bits) + d, w)
  {
    ReadsWithin(op, w, bits);
    hide Reads, Within, Pat, Pow2;
    PatShift(Reads(op, w, bits) + d, 1, w);
  }

  lemma {:induction false} SteppedBits(op: Opcode, w: nat, step: int, a: Word, j: nat)
    requires 1 <= w <= 64 && a.bits < Pow2(w)
    ensures Stepped(WordArith(op, w, step), a, j).bits == Pat(a.bits + j * step, w)
    decreases j
  {
    hide Stepped, Pat, Reads, Pow2;
    if j == 0 {
      PatIdem(a.bits, w);
      NotStepped(WordArith(op, w, step), a);
    } else {
      SteppedBits(op, w, step, a, j - 1);
      SteppedNext(WordArith(op, w, step), a, j - 1);
      PatAddLeft(a.bits + (j - 1) * step, step, w);
      assert a.bits + (j - 1) * step + step == a.bits + j * step;
    }
  }

  lemma NotStepped(ar: Arith, a: Word)
    ensures Stepped(ar, a, 0) == a
  {
  }

  /** The test after j steps. */
  lemma HoldsAt(op: Opcode, w: nat, step: int, a: Word, b: Word, j: nat)
    requires 1 <= w <= 64 && a.bits < Pow2(w)
    ensures var ar := WordArith(op, w, step);
            ar.holds(Stepped(ar, a, j), b)
            <==> Compares(op, Wrapped(op, w, Reads(op, w, a.bits) + j * step), Reads(op, w, b.bits))
  {
    hide *;
    SteppedBits(op, w, step, a, j);
    ReadsAdd(op, w, a.bits, j * step);
    ArithHolds(op, w, step, Stepped(WordArith(op, w, step), a, j), b);
    WrappedIs(op, w, Reads(op, w, a.bits) + j * step);
  }

  lemma ArithHolds(op: Opcode, w: nat, step: int, a: Word, b: Word)
    requires w >= 1
    ensures WordArith(op, w, step).holds(a, b) <==> Compares(op, Reads(op, w, a.bits), Reads(op, w, b.bits))
  {
  }

  lemma WrappedIs(op: Opcode, w: nat, x: int)
    requires w >= 1
    ensures Wrapped(op, w, x) == Reads(op, w, Pat(x, w))
  {
  }

  // ----- Counting rounds

  predicate IsStrict(op: Opcode) {
    op == Cslt || op == Cult || op == Csgt || op == Cugt
  }

  /** The step goes the way the comparison bounds. */
  predicate Towards(op: Opcode, step: int) {
    if IsUpward(op) then step > 0 else step < 0
  }

  /** How far x is from where the comparison with y fails. */
  function Gap(op: Opcode, x: int, y: int): int {
    (if IsUpward(op) then y - x else x - y) + (if IsStrict(op) then 0 else 1)
  }

  /** The number of rounds from x, in steps towards the bound y, where nothing wraps. */
  function WordTrips(op: Opcode, x: int, y: int, step: int): nat
    requires step != 0
  {
    TripSplit.Rounds(0, Gap(op, x, y), Abs(step))
  }

  lemma SignedProduct(j: nat, step: int)
    ensures j * Abs(step) == if step < 0 then 0 - j * step else j * step
  {
  }

  lemma GapCounts(op: Opcode, x: int, y: int, step: int, j: nat)
    requires Towards(op, step)
    ensures Compares(op, x + j * step, y) <==> j * Abs(step) < Gap(op, x, y)
  {
    SignedProduct(j, step);
    var d := j * step;
    hide Abs;
  }

  /** Before the last round the comparison holds, and after it no more. */
  lemma TripsCount(op: Opcode, x: int, y: int, step: int, j: nat)
    requires Towards(op, step)
    ensures Compares(op, x + j * step, y) <==> j < WordTrips(op, x, y, step)
  {
    hide Compares, Gap, TripSplit.Rounds;
    var n, m, gap := WordTrips(op, x, y, step), Abs(step), Gap(op, x, y);
    GapCounts(op, x, y, step, j);
    RoundsReach(0, gap, m);
    if j < n { MulLe(m, j, n - 1); } else { MulLe(m, n, j); }
  }

  /** Between two integers there are words for, there are words for all. */
  lemma WithinBetween(op: Opcode, w: nat, x: int, step: int, j: nat, n: nat)
    requires w >= 1 && j <= n && Within(op, w, x) && Within(op, w, x + n * step)
    ensures Within(op, w, x + j * step)
  {
    hide *;
    var lo, hi := WithinIs(op, w);
    if step >= 0 {
      MulLe(step, 0, j);
      MulLe(step, j, n);
    } else {
      MulLe(0 - step, 0, j);
      MulLe(0 - step, j, n);
    }
  }

  lemma WithinIs(op: Opcode, w: nat) returns (lo: int, hi: int)
    requires w >= 1
    ensures forall x :: Within(op, w, x) <==> lo <= x < hi
  {
    if IsSigned(op) {
      lo, hi := 0 - Pow2(w - 1), Pow2(w - 1);
    } else {
      lo, hi := 0, Pow2(w);
    }
    hide Pow2;
  }

  /** Where the loop's own counter does not wrap, it makes as many rounds as were counted. */
  lemma WordsLoopTrips(op: Opcode, w: nat, step: int, a: Word, b: Word)
    requires 1 <= w <= 64 && a.bits < Pow2(w) && Towards(op, step)
    requires var x, y := Reads(op, w, a.bits), Reads(op, w, b.bits); Within(op, w, x + WordTrips(op, x, y, step) * step)
    ensures LoopTrips(WordArith(op, w, step), a, b, WordTrips(op, Reads(op, w, a.bits), Reads(op, w, b.bits), step))
  {
    hide *;
    TowardsIs(op, step);
    var n := WordTrips(op, Reads(op, w, a.bits), Reads(op, w, b.bits), step);
    forall j: nat | j <= n
      ensures WordArith(op, w, step).holds(Stepped(WordArith(op, w, step), a, j), b) <==> j < n
    {
      TripAt(op, w, step, a, b, n, j);
    }
    TripsFold(WordArith(op, w, step), a, b, n);
  }

  lemma TripAt(op: Opcode, w: nat, step: int, a: Word, b: Word, n: nat, j: nat)
    requires 1 <= w <= 64 && a.bits < Pow2(w) && Towards(op, step) && step != 0 && j <= n
    requires n == WordTrips(op, Reads(op, w, a.bits), Reads(op, w, b.bits), step)
    requires Within(op, w, Reads(op, w, a.bits) + n * step)
    ensures WordArith(op, w, step).holds(Stepped(WordArith(op, w, step), a, j), b) <==> j < n
  {
    hide *;
    ReadsWithin(op, w, a.bits);
    WithinBetween(op, w, Reads(op, w, a.bits), step, j, n);
    WithinIsKept(op, w, Reads(op, w, a.bits) + j * step);
    HoldsAt(op, w, step, a, b, j);
    TripsCount(op, Reads(op, w, a.bits), Reads(op, w, b.bits), step, j);
  }

  lemma TripsFold(ar: Arith, a: Word, b: Word, n: nat)
    requires forall j: nat | j <= n :: ar.holds(Stepped(ar, a, j), b) <==> j < n
    ensures LoopTrips(ar, a, b, n)
  {
    hide Stepped;
  }

  lemma TripsUnique(ar: Arith, a: Word, b: Word, n: nat, n': nat)
    requires LoopTrips(ar, a, b, n) && LoopTrips(ar, a, b, n')
    ensures n == n'
  {
    hide Stepped;
    assert n < n' ==> ar.holds(Stepped(ar, a, n), b);
    assert n' < n ==> ar.holds(Stepped(ar, a, n'), b);
  }

  /** One more step than the loop makes does not wrap to where the test holds again. */
  predicate NoSecondWind(op: Opcode, w: nat, x: int, y: int, step: int)
    requires w >= 1 && step != 0
  {
    var n := WordTrips(op, x, y, step);
    n % 2 == 0 ==> !Compares(op, Wrapped(op, w, x + (n + 1) * step), y)
  }

  /** Room for two steps beyond the bound, and one from the start, is enough. */
  lemma RoomIsEnough(op: Opcode, w: nat, x: int, y: int, step: int)
    requires 1 <= w <= 64 && Towards(op, step) && Within(op, w, x) && Within(op, w, y)
    requires Within(op, w, x + step) && Within(op, w, y + 2 * step)
    ensures var n := WordTrips(op, x, y, step);
            Within(op, w, x + n * step) && Within(op, w, x + (n + 1) * step) && NoSecondWind(op, w, x, y, step)
  {
    hide *;
    TowardsIs(op, step);
    var n := WordTrips(op, x, y, step);
    LastWithin(op, w, x, y, step);
    RoomBetween(op, w, x, y, step, n);
    SecondWindIs(op, w, x, y, step);
  }

  lemma RoomBetween(op: Opcode, w: nat, x: int, y: int, step: int, n: nat)
    requires 1 <= w <= 64 && Towards(op, step) && step != 0 && Within(op, w, x)
    requires n == WordTrips(op, x, y, step) && Within(op, w, x + (n + 1) * step)
    ensures Within(op, w, x + n * step) && !Compares(op, Wrapped(op, w, x + (n + 1) * step), y)
  {
    hide *;
    WithinBetween(op, w, x, step, n, n + 1);
    WithinIsKept(op, w, x + (n + 1) * step);
    TripsCount(op, x, y, step, n + 1);
  }

  lemma SecondWindIs(op: Opcode, w: nat, x: int, y: int, step: int)
    requires w >= 1 && step != 0
    ensures NoSecondWind(op, w, x, y, step) <==>
              (WordTrips(op, x, y, step) % 2 == 0
               ==> !Compares(op, Wrapped(op, w, x + (WordTrips(op, x, y, step) + 1) * step), y))
  {
    hide WordTrips, Compares, Wrapped;
  }

  /** How far the last round goes: at least over the gap, and less than a step beyond. */
  lemma TripsReach(op: Opcode, x: int, y: int, step: int) returns (d: int)
    requires Towards(op, step)
    ensures d == WordTrips(op, x, y, step) * step
    ensures step > 0 ==> d >= 0 && (d > 0 ==> x + d <= y + step)
    ensures step < 0 ==> d <= 0 && (d < 0 ==> x + d >= y + step)
  {
    GapIs(op, x, y, step);
    hide *;
    var n, m, gap := WordTrips(op, x, y, step), Abs(step), Gap(op, x, y);
    RoundsReach(0, gap, m);
    SignedProduct(n, step);
    LastStep(n, m);
    d := n * step;
    Reach(x, y, step, d, m, gap, n * m, (n - 1) * m, n > 0);
  }

  lemma LastStep(n: nat, m: nat)
    ensures (n - 1) * m == n * m - m && n * m >= 0 && (n == 0 ==> n * m == 0)
  {
  }

  lemma Reach(x: int, y: int, step: int, d: int, m: int, gap: int, over: int, before: int, some: bool)
    requires m >= 1 && m == (if step > 0 then step else 0 - step) && over == (if step < 0 then 0 - d else d)
    requires over >= 0
    requires gap - (if step > 0 then y - x else x - y) == 0 || gap - (if step > 0 then y - x else x - y) == 1
    requires gap <= over && before == over - m && (if some then before < gap else over == 0)
    ensures step > 0 ==> d >= 0 && (d > 0 ==> x + d <= y + step)
    ensures step < 0 ==> d <= 0 && (d < 0 ==> x + d >= y + step)
  {
  }

  lemma GapIs(op: Opcode, x: int, y: int, step: int)
    requires Towards(op, step)
    ensures step != 0 && Abs(step) >= 1 && Abs(step) == if step > 0 then step else 0 - step
    ensures Gap(op, x, y) - (if step > 0 then y - x else x - y) == 0
            || Gap(op, x, y) - (if step > 0 then y - x else x - y) == 1
    ensures WordTrips(op, x, y, step) == TripSplit.Rounds(0, Gap(op, x, y), Abs(step))
  {
    hide TripSplit.Rounds;
  }

  lemma LastWithin(op: Opcode, w: nat, x: int, y: int, step: int)
    requires 1 <= w <= 64 && Towards(op, step) && Within(op, w, x) && Within(op, w, y)
    requires Within(op, w, x + step) && Within(op, w, y + 2 * step)
    ensures Within(op, w, x + (WordTrips(op, x, y, step) + 1) * step)
  {
    hide *;
    TowardsIs(op, step);
    var d := TripsReach(op, x, y, step);
    var lo, hi := WithinIs(op, w);
    assert (WordTrips(op, x, y, step) + 1) * step == d + step;
  }

  // ----- The loops on words

  /** Where the step does not wrap, the test does not hold after it without holding before. */
  lemma StepBack(op: Opcode, w: nat, step: int, a: Word, b: Word, i: nat)
    requires 1 <= w <= 64 && a.bits < Pow2(w) && Towards(op, step)
    requires Within(op, w, Reads(op, w, a.bits) + (i + 1) * step)
    ensures NoReentryAt(WordArith(op, w, step), a, b, i)
  {
    hide *;
    TowardsIs(op, step);
    var x, y := Reads(op, w, a.bits), Reads(op, w, b.bits);
    ReadsWithin(op, w, a.bits);
    assert x + (i + 1) * step == x + i * step + step;
    WithinBetween(op, w, x, step, i, i + 1);
    WithinIsKept(op, w, x + i * step);
    WithinIsKept(op, w, x + (i + 1) * step);
    HoldsAt(op, w, step, a, b, i);
    HoldsAt(op, w, step, a, b, i + 1);
    StepAgrees(op, step);
    assert Compares(op, x + i * step + step, y) ==> Compares(op, x + i * step, y);
    ReentryIs(WordArith(op, w, step), a, b, i);
  }

  lemma TowardsIs(op: Opcode, step: int)
    requires Towards(op, step)
    ensures step != 0 && if IsUpward(op) then step >= 0 else step <= 0
  {
  }

  lemma ReentryIs(ar: Arith, a: Word, b: Word, i: nat)
    ensures NoReentryAt(ar, a, b, i) <==> (ar.holds(Stepped(ar, a, i + 1), b) ==> ar.holds(Stepped(ar, a, i), b))
  {
  }

  /** Where nothing wraps in 2k + 1 steps, the test cannot hold again. */
  lemma WordsNoReentry(op: Opcode, w: nat, step: int, a: Word, b: Word, k: nat)
    requires 1 <= w <= 64 && a.bits < Pow2(w) && Towards(op, step)
    requires Within(op, w, Reads(op, w, a.bits) + (2 * k + 1) * step)
    ensures NoReentry(WordArith(op, w, step), a, b, k)
  {
    hide Within, Reads, Pow2, WordArith, NoReentryAt, Towards;
    ReadsWithin(op, w, a.bits);
    forall j: nat | j <= k
      ensures NoReentryAt(WordArith(op, w, step), a, b, 2 * j)
    {
      WithinBetween(op, w, Reads(op, w, a.bits), step, 2 * j + 1, 2 * k + 1);
      StepBack(op, w, step, a, b, 2 * j);
    }
  }

  lemma PairHeld(ar: Arith, a: Word, b: Word, k: nat, once: bool, j: nat)
    requires UnrolledTrips(ar, a, b, k, once) && j < k
    ensures ar.holds(Stepped(ar, a, 2 * j + 1), b)
  {
    hide Stepped;
    assert PairHolds(ar, a, b, j);
  }

  /** Nor does the unrolled loop then make more pairs than there are rounds. */
  lemma PairsWithinTrips(op: Opcode, w: nat, step: int, a: Word, b: Word, k: nat, once: bool, n: nat)
    requires 1 <= w <= 64 && a.bits < Pow2(w) && Towards(op, step) && step != 0
    requires UnrolledTrips(WordArith(op, w, step), a, b, k, once)
    requires n == WordTrips(op, Reads(op, w, a.bits), Reads(op, w, b.bits), step)
    requires Within(op, w, Reads(op, w, a.bits) + (n + 1) * step)
    ensures 2 * k <= n
  {
    hide *;
    ReadsWithin(op, w, a.bits);
    if 2 * k > n {
      var j := 2 * (n / 2) + 1;
      PairHeld(WordArith(op, w, step), a, b, k, once, n / 2);
      WithinBetween(op, w, Reads(op, w, a.bits), step, j, n + 1);
      WithinIsKept(op, w, Reads(op, w, a.bits) + j * step);
      HoldsAt(op, w, step, a, b, j);
      TripsCount(op, Reads(op, w, a.bits), Reads(op, w, b.bits), step, j);
    }
  }

  lemma TripsRoom(op: Opcode, w: nat, step: int, a: Word, b: Word, k: nat, once: bool, n: nat)
    requires 1 <= w <= 64 && a.bits < Pow2(w) && Towards(op, step) && step != 0
    requires UnrolledTrips(WordArith(op, w, step), a, b, k, once)
    requires n == WordTrips(op, Reads(op, w, a.bits), Reads(op, w, b.bits), step)
    requires Within(op, w, Reads(op, w, a.bits) + (n + 1) * step)
    ensures NoReentry(WordArith(op, w, step), a, b, k)
  {
    hide *;
    PairsWithinTrips(op, w, step, a, b, k, once, n);
    ReadsWithin(op, w, a.bits);
    WithinBetween(op, w, Reads(op, w, a.bits), step, 2 * k + 1, n + 1);
    WordsNoReentry(op, w, step, a, b, k);
  }

  /** The same condition, on the word the loop ends with. */
  lemma SecondWindAt(op: Opcode, w: nat, step: int, a: Word, b: Word, n: nat)
    requires 1 <= w <= 64 && a.bits < Pow2(w) && step != 0
    requires n == WordTrips(op, Reads(op, w, a.bits), Reads(op, w, b.bits), step)
    ensures NoSecondWind(op, w, Reads(op, w, a.bits), Reads(op, w, b.bits), step)
       <==> (n % 2 == 0
             ==> !WordArith(op, w, step).holds(WordArith(op, w, step).next(Stepped(WordArith(op, w, step), a, n)), b))
  {
    hide *;
    SteppedNext(WordArith(op, w, step), a, n);
    HoldsAt(op, w, step, a, b, n + 1);
    SecondWindIs(op, w, Reads(op, w, a.bits), Reads(op, w, b.bits), step);
  }

  /** The words a loop starts from, and that its counter stays in them. */
  ghost predicate WordLoop(m: Machine, lp: Loop, w: nat, step: int, env: map<Id, Word>) {
    && 1 <= w <= 64 && lp.iv in env && env[lp.iv].bits < Pow2(w) && Towards(lp.cmp, step)
    && Within(lp.cmp, w, First(lp, w, env) + WordTrips(lp.cmp, First(lp, w, env), Limit(m, lp, w, env), step) * step)
  }

  /** The integers that the loop counts from and up or down to. */
  ghost function First(lp: Loop, w: nat, env: map<Id, Word>): int
    requires w >= 1 && lp.iv in env
  {
    Reads(lp.cmp, w, env[lp.iv].bits)
  }

  ghost function Limit(m: Machine, lp: Loop, w: nat, env: map<Id, Word>): int
    requires w >= 1
  {
    Reads(lp.cmp, w, Bound(m, lp, env).bits)
  }

  /** A loop on words goes round as often as was counted, and how it stands then. */
  lemma WordRounds(m: Machine, code: map<Id, Instr>, lp: Loop, u: Unrolled, base: Id, block: BlockId, w: nat, step: int,
                   n: nat, env: map<Id, Word>, mem: Memory, envX: map<Id, Word>, memX: Memory, env2: map<Id, Word>)
    requires WordLoop(m, lp, w, step, env) && Setting(m, WordArith(lp.cmp, w, step), code, lp, u, base, block)
    requires forall p | p in lp.phis :: p in Insts(u.uPhi)
    requires Matched(m, code, lp, u.uPhi, base, env, env2)
    requires UnrollEquivalence.Rounds(m, code, lp, n, env, mem, envX, memX)
    ensures n == WordTrips(lp.cmp, First(lp, w, env), Limit(m, lp, w, env), step)
    ensures lp.iv in envX
    ensures NoSecondWind(lp.cmp, w, First(lp, w, env), Limit(m, lp, w, env), step)
       <==> (n % 2 == 0
             ==> !WordArith(lp.cmp, w, step).holds(WordArith(lp.cmp, w, step).next(envX[lp.iv]), Bound(m, lp, envX)))
  {
    hide *;
    WordLoopParts(m, lp, w, step, env);
    var ar := WordArith(lp.cmp, w, step);
    var a, b := env[lp.iv], Bound(m, lp, env);
    SettingParts(m, ar, code, lp, u, base, block);
    MatchedParts(m, code, lp, u.uPhi, base, env, env2);
    RoundsTrips(m, ar, code, lp, base, n, env, mem, envX, memX);
    WordsLoopTrips(lp.cmp, w, step, a, b);
    TripsUnique(ar, a, b, n, WordTrips(lp.cmp, First(lp, w, env), Limit(m, lp, w, env), step));
    SecondWindAt(lp.cmp, w, step, a, b, n);
  }

  lemma WordLoopParts(m: Machine, lp: Loop, w: nat, step: int, env: map<Id, Word>)
    requires WordLoop(m, lp, w, step, env)
    ensures 1 <= w <= 64 && lp.iv in env && env[lp.iv].bits < Pow2(w) && Towards(lp.cmp, step) && step != 0
    ensures First(lp, w, env) == Reads(lp.cmp, w, env[lp.iv].bits)
    ensures Limit(m, lp, w, env) == Reads(lp.cmp, w, Bound(m, lp, env).bits)
    ensures Within(lp.cmp, w,
                   First(lp, w, env) + WordTrips(lp.cmp, First(lp, w, env), Limit(m, lp, w, env), step) * step)
  {
    hide Within, WordTrips, Reads;
  }

  /**
   The unrolled loop can go round as often as the loop did exactly when one step more than the
   rounds counted from start, bound and step, if those are even, does not wrap to where the
   test holds again.
   */
  lemma SameRoundsOnWords(m: Machine, code: map<Id, Instr>, lp: Loop, u: Unrolled, base: Id, block: BlockId, w: nat,
                          step: int,
                          n: nat, env: map<Id, Word>, mem: Memory, envX: map<Id, Word>, memX: Memory,
                          env2: map<Id, Word>)
    requires WordLoop(m, lp, w, step, env) && Setting(m, WordArith(lp.cmp, w, step), code, lp, u, base, block)
    requires OutsideReady(m, code, lp, env) && forall p | p in lp.phis :: p in Insts(u.uPhi)
    requires Matched(m, code, lp, u.uPhi, base, env, env2)
    requires UnrollEquivalence.Rounds(m, code, lp, n, env, mem, envX, memX)
    ensures n == WordTrips(lp.cmp, First(lp, w, env), Limit(m, lp, w, env), step)
    ensures SameRounds(m, code, lp, u, n, env2, mem)
       <==> NoSecondWind(lp.cmp, w, First(lp, w, env), Limit(m, lp, w, env), step)
  {
    hide *;
    WordLoopParts(m, lp, w, step, env);
    WordRounds(m, code, lp, u, base, block, w, step, n, env, mem, envX, memX, env2);
    SameRoundsExactly(m, WordArith(lp.cmp, w, step), code, lp, u, base, block, n, env, mem, envX, memX, env2);
  }

  /** Under that condition the unrolled loop does what the loop does. */
  lemma UnrolledFollowsOnWords(m: Machine, code: map<Id, Instr>, lp: Loop, u: Unrolled, base: Id, block: BlockId,
                               w: nat, step: int,
                               n: nat, env: map<Id, Word>, mem: Memory, envX: map<Id, Word>, memX: Memory,
                               env2: map<Id, Word>)
    returns (k: nat, once: bool, envY: map<Id, Word>)
    requires WordLoop(m, lp, w, step, env) && Setting(m, WordArith(lp.cmp, w, step), code, lp, u, base, block)
    requires NoSecondWind(lp.cmp, w, First(lp, w, env), Limit(m, lp, w, env), step)
    requires forall p | p in lp.phis :: p in Insts(u.uPhi)
    requires Matched(m, code, lp, u.uPhi, base, env, env2)
    requires UnrollEquivalence.Rounds(m, code, lp, n, env, mem, envX, memX)
    ensures n == WordTrips(lp.cmp, First(lp, w, env), Limit(m, lp, w, env), step) == 2 * k + (if once then 1 else 0)
    ensures Pairs(m, code, lp, u, k, once, env2, mem, envY, memX)
    ensures UnrollTheorems.FinalPhis(m, code, lp, u, once, envX, envY)
  {
    hide *;
    WordLoopParts(m, lp, w, step, env);
    WordRounds(m, code, lp, u, base, block, w, step, n, env, mem, envX, memX, env2);
    k, once, envY :=
        UnrolledFollows(m, WordArith(lp.cmp, w, step), code, lp, u, base, block, n, env, mem, envX, memX, env2);
  }

  /** And where one step more than the rounds counted does not wrap, the loop does what the unrolled loop does. */
  lemma LoopFollowsOnWords(m: Machine, code: map<Id, Instr>, lp: Loop, u: Unrolled, base: Id, block: BlockId, w: nat,
                           step: int, k: nat, once: bool, env: map<Id, Word>, mem: Memory,
                           env2: map<Id, Word>, envY: map<Id, Word>, memY: Memory)
    returns (n: nat, envX: map<Id, Word>)
    requires WordLoop(m, lp, w, step, env) && Setting(m, WordArith(lp.cmp, w, step), code, lp, u, base, block)
    requires HeaderTotal(m, code, lp) && OutsideReady(m, code, lp, env) && forall p | p in lp.phis :: p in Insts(u.uPhi)
    requires Matched(m, code, lp, u.uPhi, base, env, env2) && Pairs(m, code, lp, u, k, once, env2, mem, envY, memY)
    requires var x, y := First(lp, w, env), Limit(m, lp, w, env);
             Within(lp.cmp, w, x + (WordTrips(lp.cmp, x, y, step) + 1) * step)
    ensures n == 2 * k + (if once then 1 else 0)
    ensures UnrollEquivalence.Rounds(m, code, lp, n, env, mem, envX, memY)
    ensures UnrollTheorems.FinalPhis(m, code, lp, u, once, envX, envY)
  {
    hide *;
    WordLoopParts(m, lp, w, step, env);
    var ar, x, y := WordArith(lp.cmp, w, step), First(lp, w, env), Limit(m, lp, w, env);
    PairsTrips(m, ar, code, lp, u, base, block, k, once, env, mem, env2, envY, memY);
    TripsRoom(lp.cmp, w, step, env[lp.iv], Bound(m, lp, env), k, once, WordTrips(lp.cmp, x, y, step));
    n, envX := LoopFollows(m, ar, code, lp, u, base, block, k, once, env, mem, env2, envY, memY);
  }

  /**
   A 32-bit counter that starts at 2^31 - 3 and counts by one below 2^31 - 1: two rounds, after
   which one more step wraps to -2^31 and the test for a pair holds again.
   */
  lemma SecondWind()
    ensures var ar, a, b := WordArith(Cslt, 32, 1), Word(32, TWO31 - 3), Word(32, TWO31 - 1);
            && LoopTrips(ar, a, b, 2)
            && Reads(Cslt, 32, Stepped(ar, a, 3).bits) == 0 - TWO31
            && forall k: nat, once: bool | 2 * k + (if once then 1 else 0) == 2 :: !UnrolledTrips(ar, a, b, k, once)
    ensures WordTrips(Cslt, TWO31 - 3, TWO31 - 1, 1) == 2 && !NoSecondWind(Cslt, 32, TWO31 - 3, TWO31 - 1, 1)
  {
    hide Pow2, SignExtend, Pat, Stepped, WordArith, Within;
    var ar, a, b := WordArith(Cslt, 32, 1), Word(32, TWO31 - 3), Word(32, TWO31 - 1);
    HalfRangeWords();
    assert WordTrips(Cslt, TWO31 - 3, TWO31 - 1, 1) == 2;
    WordsLoopTrips(Cslt, 32, 1, a, b);
    HoldsAt(Cslt, 32, 1, a, b, 3);
    SteppedBits(Cslt, 32, 1, a, 3);
    assert PairHolds(ar, a, b, 1);
  }

  lemma HalfRangeWords()
    ensures Pow2(32) == TWO32 && Reads(Cslt, 32, TWO31 - 3) == TWO31 - 3 && Reads(Cslt, 32, TWO31 - 1) == TWO31 - 1
    ensures Pat(TWO31 - 3 + 3 * 1, 32) == TWO31 && Reads(Cslt, 32, TWO31) == 0 - TWO31 && Within(Cslt, 32, TWO31 - 1)
  {
    Pow2Values();
    PatIdem(TWO31, 32);
    S32Is(TWO31 - 3);
    S32Is(TWO31 - 1);
    S32Is(TWO31);
    hide Pow2, Pat, SignExtend;
  }
}
