/**
 The multiplier search for unsigned division by a constant. Its exit test lets it stop
 too early: for which divisors the product is nevertheless the quotient at every numerator.
 */
module UnsignedMagic {
  import opened Scalar
  import opened SignedMagic

  datatype UMagic = UMagic(magic: nat, shift: nat, addIndicator: bool)

  /** The largest multiple of d below 2^32. */
  function LastMultiple(d: nat): nat
    requires 0 < d < TWO32
  {
    assert (TWO32 - 1) % d <= TWO32 - 1 by { ModLe(TWO32 - 1, d); }
    TWO32 - 1 - (TWO32 - 1) % d
  }

  lemma LastMultipleIs(d: nat)
    requires 0 < d < TWO32
    ensures LastMultiple(d) == d * ((TWO32 - 1) / d) && LastMultiple(d) > 0 && LastMultiple(d) > TWO32 - 1 - d
  {
    var q := (TWO32 - 1) / d;
    assert TWO32 - 1 == d * q + (TWO32 - 1) % d;
  }

  /** The exit test at exponent p, on the quotients and remainders of 2^p. */
  ghost predicate Stops(d: nat, p: nat, q1: nat, r2: nat) {
    Pow2(p) > (d - 1 - r2) * (q1 + 1)
  }

  /** The search stops at p. */
  ghost predicate StopsAt(d: nat, p: nat)
    requires 0 < d < TWO32
  {
    exists q1: nat, r1: nat, q2: nat, r2: nat ::
      Divides(p, q1, r1, LastMultiple(d)) && Divides(p, q2, r2, d) && Stops(d, p, q1, r2)
  }

  lemma DividesUnique(p: nat, q: nat, r: nat, q': nat, r': nat, x: int)
    requires Divides(p, q, r, x) && Divides(p, q', r', x)
    ensures q == q' && r == r'
  {
    assert q * x == x * q && q' * x == x * q';
    DivUnique(Pow2(p), x, q, r);
    DivUnique(Pow2(p), x, q', r');
  }

  lemma StopsIs(d: nat, p: nat, q1: nat, r1: nat, q2: nat, r2: nat)
    requires 0 < d < TWO32 && Divides(p, q1, r1, LastMultiple(d)) && Divides(p, q2, r2, d)
    ensures StopsAt(d, p) <==> Stops(d, p, q1, r2)
  {
    if StopsAt(d, p) {
      var q1': nat, r1': nat, q2': nat, r2': nat :|
        Divides(p, q1', r1', LastMultiple(d)) && Divides(p, q2', r2', d) && Stops(d, p, q1', r2');
      hide Divides, LastMultiple, Stops;
      DividesUnique(p, q1, r1, q1', r1', LastMultiple(d));
      DividesUnique(p, q2, r2, q2', r2', d);
    }
  }

  /** The least exponent from 32 on at which the search stops, and the rounded up reciprocal there. */
  ghost predicate IsUnsignedMagicFor(d: nat, um: UMagic)
    requires 0 < d < TWO32
  {
    && um.shift <= 31 && !um.addIndicator && um.magic < TWO32 && um.magic == Pow2(32 + um.shift) / d + 1
    && StopsAt(d, 32 + um.shift) && forall p | 32 <= p < 32 + um.shift :: !StopsAt(d, p)
  }

  // ----- Divisors up to 2^31: the search stops at once

  lemma SmallStopsAt32(d: nat, q1: nat, r1: nat, q2: nat, r2: nat)
    requires 0 < d <= TWO31 && Divides(32, q1, r1, LastMultiple(d)) && Divides(32, q2, r2, d)
    requires LastMultiple(d) > TWO31
    ensures StopsAt(d, 32) && q1 == 1
  {
    StopsIs(d, 32, q1, r1, q2, r2);
    hide LastMultiple;
    Pow2Values();
    var nc := LastMultiple(d);
    assert q1 * nc == nc * q1;
    if q1 == 0 { assert false; }
    if q1 >= 2 { MulLe(nc, 2, q1); }
  }

  /** The last multiple is beyond 2^31, but for powers of two. */
  lemma LastMultipleLarge(d: nat)
    requires 0 < d < TWO32 && TWO32 % d != 0
    ensures LastMultiple(d) > TWO31
  {
    LastMultipleIs(d);
    var q := (TWO32 - 1) / d;
    hide LastMultiple;
    if d * q <= TWO31 {
      MulLe(d, if q >= 2 then 2 else q, q);
      assert d * q > TWO32 - 1 - d;
      assert d >= TWO31;
      if q == 1 {
        assert d == TWO31;
        DivUnique(TWO32, d, 2, 0);
      }
    }
  }

  // ----- Divisors beyond: one doubling after the other

  lemma LargeMultiple(d: nat)
    requires TWO31 < d < TWO32
    ensures LastMultiple(d) == d
  {
    DivUnique(TWO32 - 1, d, 1, TWO32 - 1 - d);
  }

  /** As long as x copies of what d lacks of 2^32 fit into d, the quotient is x. */
  lemma LargeDivides(d: nat, k: nat)
    requires TWO31 < d < TWO32 && Pow2(k) * (TWO32 - d) < d
    ensures Divides(32 + k, Pow2(k), Pow2(k) * (TWO32 - d), d)
  {
    Pow2Adds(k, 32);
    Pow2Values();
    var x := Pow2(k);
    hide Pow2;
    assert x * d + x * (TWO32 - d) == x * TWO32;
    MulLe(x, 0, TWO32 - d);
  }

  /** The remainder is at most half of d where the search goes on. */
  lemma HalfLeft(d: nat, c: nat, x: nat)
    requires d < TWO32 && x >= 1 && x * c < d && x * TWO32 <= (d - 1 - x * c) * (x + 1)
    ensures 2 * (x * c) < d
  {
    var delta := d - 1 - x * c;
    if 2 * (x * c) >= d {
      MulLe(x, delta, TWO31 - 1);
      assert delta * (x + 1) == x * delta + delta;
      assert x * (TWO31 - 1) == x * TWO31 - x;
      assert x * TWO32 == x * TWO31 + x * TWO31;
      MulLe(TWO31, 1, x);
    }
  }

  lemma LargeGoesOn(d: nat, k: nat)
    requires TWO31 < d < TWO32 && Pow2(k) * (TWO32 - d) < d && !StopsAt(d, 32 + k)
    ensures Pow2(k) * TWO32 <= (d - 1 - Pow2(k) * (TWO32 - d)) * (Pow2(k) + 1)
    ensures Pow2(k + 1) * (TWO32 - d) < d
  {
    hide *;
    var c, x := TWO32 - d, Pow2(k);
    LargeDivides(d, k);
    LargeMultiple(d);
    StopsIs(d, 32 + k, x, x * c, x, x * c);
    Pow2Adds(k, 32);
    Pow2Values();
    Pow2Step(k + 1);
    StopsMeans(d, 32 + k, x, x * c);
    HalfLeft(d, c, x);
    assert (2 * x) * c == 2 * (x * c);
  }

  lemma StopsMeans(d: nat, p: nat, q1: nat, r2: nat)
    ensures Stops(d, p, q1, r2) <==> Pow2(p) > (d - 1 - r2) * (q1 + 1)
  {
  }

  /** What is known after k rounds without a stop. */
  lemma {:induction false} LargeState(d: nat, k: nat)
    requires TWO31 < d < TWO32 && forall p | 32 <= p < 32 + k :: !StopsAt(d, p)
    ensures Pow2(k) * (TWO32 - d) < d && Pow2(k) < TWO32 && k <= 31
  {
    hide StopsAt;
    if k == 0 {
      assert Pow2(0) == 1;
    } else {
      LargeState(d, k - 1);
      LargeGoesOn(d, k - 1);
    }
    MulLe(Pow2(k), 1, TWO32 - d);
    BelowTop(k);
  }

  lemma BelowTop(k: nat)
    ensures Pow2(k) < TWO32 ==> k <= 31
  {
    Pow2Values();
    if k > 32 { Pow2Grows(32, k); }
  }

  // ----- The search

  lemma QuotientIs(p: nat, q: nat, r: nat, d: nat)
    requires d > 0 && Divides(p, q, r, d)
    ensures Pow2(p) / d == q && Pow2(p) % d == r
  {
    assert q * d == d * q;
    DivUnique(Pow2(p), d, q, r);
  }

  /** The multiplier fits in 32 bits, so that nothing need be added. */
  lemma MultiplierFits(d: nat, p: nat, q2: nat, r2: nat)
    requires 0 < d < TWO32 && TWO32 % d != 0 && 32 <= p && Divides(p, q2, r2, d)
    requires forall k | 32 <= k < p :: !StopsAt(d, k)
    requires d <= TWO31 ==> p == 32
    ensures q2 + 1 < TWO32
  {
    Pow2Values();
    hide StopsAt, Pow2;
    if d <= TWO31 {
      if d == 1 { DivUnique(TWO32, 1, TWO32, 0); }
      if q2 + 1 >= TWO32 {
        MulLe(d, TWO32 - 1, q2);
        assert q2 * d == d * q2;
        MulLe(TWO32 - 1, 2, d);
      }
    } else {
      LargeState(d, p - 32);
      LargeDivides(d, p - 32);
      DividesUnique(p, q2, r2, Pow2(p - 32), Pow2(p - 32) * (TWO32 - d), d);
      TopPower(p - 32);
    }
  }

  lemma TopPower(k: nat)
    requires k <= 31
    ensures Pow2(k) <= TWO31
  {
    Pow2Values();
    if k < 31 { Pow2Grows(k, 31); }
  }

  lemma SmallStops(d: nat)
    requires 0 < d <= TWO31 && TWO32 % d != 0
    ensures StopsAt(d, 32)
  {
    Pow2Values();
    LastMultipleLarge(d);
    var nc := LastMultiple(d);
    hide LastMultiple, StopsAt, Pow2;
    QuotientNonnegative(TWO32, nc);
    QuotientNonnegative(TWO32, d);
    var q1: nat, q2: nat := TWO32 / nc, TWO32 / d;
    assert q1 * nc == nc * q1 && q2 * d == d * q2;
    SmallStopsAt32(d, q1, TWO32 % nc, q2, TWO32 % d);
  }

  /** The search has come to an end by exponent 63. */
  lemma EndsInTime(d: nat, p: nat)
    requires 0 < d < TWO32 && TWO32 % d != 0 && forall k | 32 <= k < p :: !StopsAt(d, k)
    ensures p <= 63 && (d <= TWO31 ==> p <= 32)
  {
    if d <= TWO31 {
      SmallStops(d);
    } else if p >= 32 {
      LargeState(d, p - 32);
    }
  }

  /** The product of the exit test stays below 2^64. */
  lemma TestFits(p: nat, q1: nat, r1: nat, nc: nat, delta: nat)
    requires p <= 63 && nc > TWO31 && Divides(p, q1, r1, nc) && delta < TWO32 - 1
    ensures delta * (q1 + 1) < TWO64
  {
    Pow2Values();
    if p < 63 { Pow2Grows(p, 63); }
    hide Pow2;
    if q1 >= TWO32 { MulMono(TWO32, TWO31 + 1, q1, nc); }
    MulMono(delta, q1 + 1, TWO32 - 2, TWO32);
  }

  lemma MagicFold(d: nat, p: nat, q2: nat, um: UMagic)
    requires 0 < d < TWO32 && 32 <= p <= 63 && um == UMagic(q2 + 1, p - 32, q2 + 1 >= TWO32)
    requires q2 + 1 < TWO32 && Pow2(p) / d == q2
    requires StopsAt(d, p) && forall k | 32 <= k < p :: !StopsAt(d, k)
    ensures IsUnsignedMagicFor(d, um)
  {
  }

  method ComputeUnsignedMagic32(d: nat) returns (um: UMagic)
    requires 0 < d < TWO32 && TWO32 % d != 0
    ensures IsUnsignedMagicFor(d, um)
  {
    hide Divides, StopsAt, LastMultiple, IsUnsignedMagicFor, Pow2;
    LastMultipleIs(d);
    LastMultipleLarge(d);
    var nc := TWO32 - 1 - (TWO32 - 1) % d;
    assert nc == LastMultiple(d) by { LastMultipleValue(d); }
    var p: nat := 31;
    var q1: nat, r1: nat := DivideStart(nc);
    var q2: nat, r2: nat := DivideStart(d);
    var again := true;
    while again
      invariant 31 <= p <= 63 && (p == 31 ==> again)
      invariant r1 < nc && Divides(p, q1, r1, nc)
      invariant r2 < d && Divides(p, q2, r2, d)
      invariant p > 31 ==> (again <==> !StopsAt(d, p))
      invariant forall k | 32 <= k < p :: !StopsAt(d, k)
      decreases 63 - p, again
    {
      EndsInTime(d, p + 1);
      q1, r1 := Double(q1, r1, nc, p);
      q2, r2 := Double(q2, r2, d, p);
      p := p + 1;
      assert p < 64;  // the search would give up at 64, but never gets there
      var delta := d - 1 - r2;
      TestFits(p, q1, r1, nc, delta);
      StopsIs(d, p, q1, r1, q2, r2);
      again := Pow2(p) <= delta * (q1 + 1);
    }
    EndsInTime(d, p);
    MultiplierFits(d, p, q2, r2);
    QuotientIs(p, q2, r2, d);
    um := UMagic(q2 + 1, p - 32, q2 + 1 >= TWO32);
    MagicFold(d, p, q2, um);
  }

  lemma LastMultipleValue(d: nat)
    requires 0 < d < TWO32
    ensures LastMultiple(d) == TWO32 - 1 - (TWO32 - 1) % d
  {
  }

  // ----- Where the product is the quotient

  /** The quotient that the product gives. */
  function HighQuotient(um: UMagic, n: nat): int {
    (um.magic * n) / Pow2(32 + um.shift)
  }

  ghost predicate QuotientRight(d: nat, um: UMagic)
    requires d > 0
  {
    forall n: nat | n < TWO32 :: HighQuotient(um, n) == n / d
  }

  /** A reciprocal of 2^32 + 1 is exact enough. */
  lemma RightAt(d: nat, m: nat, n: nat)
    requires d >= 2 && m * d == TWO32 + 1 && n < TWO32
    ensures (m * n) / TWO32 == n / d
  {
    var q, r := n / d, n % d;
    assert n == d * q + r;
    MulLe(TWO32, r, d - 1);
    assert r * TWO32 == TWO32 * r && d * TWO32 == TWO32 * d;
    assert TWO32 * (d - 1) == TWO32 * d - TWO32;
    Rounded(d, 1, TWO32, m, n, q, r);
  }

  /** Any larger excess carries the last numerator below a multiple over to it. */
  lemma SmallWrong(d: nat, m: nat, e: nat) returns (n: nat)
    requires 2 <= d <= TWO31 && m * d == TWO32 + e && 2 <= e < d
    ensures n < TWO32 && (m * n) / TWO32 == n / d + 1
  {
    if m < 3 { MulMono(m, d, 2, TWO31); }
    assert d * (m - 1) == m * d - d;
    assert d * (m - 2) == m * d - 2 * d;
    n := TWO32 + e - d - 1;
    DivUnique(n, d, m - 2, d - 1);
    var left := e * (m - 1) - m;
    assert m * n == TWO32 * (m - 1) + left by {
      assert m * n == m * (d * (m - 1)) - m;
      assert m * (d * (m - 1)) == (m * d) * (m - 1);
      assert (TWO32 + e) * (m - 1) == TWO32 * (m - 1) + e * (m - 1);
    }
    MulLe(m - 1, 2, e);
    MulLe(m - 1, e, d);
    assert e * (m - 1) == (m - 1) * e && d * (m - 1) == (m - 1) * d;
    DivUnique(m * n, TWO32, m - 1, left);
  }

  /** Where the search stopped there was room for one more of each. */
  lemma ExitRoom(c: nat, x: nat, d: nat)
    requires c >= 1 && x >= 1 && d == TWO32 - c && x * TWO32 <= (d - 1 - x * c) * (x + 1) && x * c < d
    ensures (2 * x + 1) * (c + 1) <= TWO32
  {
    var delta := d - 1 - x * c;
    assert delta == TWO32 - 1 - c * (x + 1) by { assert c * (x + 1) == x * c + c; }
    var y := c * (x + 1);
    assert delta * (x + 1) == (TWO32 - 1 - y) * (x + 1) == TWO32 * (x + 1) - (x + 1) - y * (x + 1);
    assert TWO32 * (x + 1) == x * TWO32 + TWO32;
    assert y * (x + 1) <= TWO32 - (x + 1);
    assert y * (x + 1) == y * x + y;
    assert y * x == c * x * x + c * x by { assert (c * (x + 1)) * x == (c * x) * x + c * x; }
    assert y == c * x + c;
    assert (2 * x + 1) * (c + 1) == 2 * (c * x) + 2 * x + c + 1;
    MulMono(1, x, c * x, x) by { MulMono(1, 1, c, x); }
    assert (c * x) * x >= 1 * x;
  }

  lemma LargeRoom(d: nat, k: nat)
    requires TWO31 < d < TWO32 && forall p | 32 <= p < 32 + k :: !StopsAt(d, p)
    ensures Pow2(k) * (TWO32 - d) < d && (Pow2(k) + 1) * (TWO32 - d + 1) <= TWO32
  {
    hide StopsAt, Pow2;
    LargeState(d, k);
    Pow2Step(k);
    if k > 0 {
      LargeState(d, k - 1);
      LargeGoesOn(d, k - 1);
      hide *;
      ExitRoom(TWO32 - d, Pow2(k - 1), d);
    }
  }

  /** The numerator before d is taken for one more. */
  lemma LargeWrong(d: nat, k: nat)
    requires TWO31 < d < TWO32 && forall p | 32 <= p < 32 + k :: !StopsAt(d, p)
    ensures ((Pow2(k) + 1) * (d - 1)) / Pow2(32 + k) == 1 && (d - 1) / d == 0
  {
    LargeRoom(d, k);
    Pow2Adds(k, 32);
    Pow2Values();
    var c, x := TWO32 - d, Pow2(k);
    DivUnique(d - 1, d, 0, d - 1);
    hide *;
    LargeProduct(d, c, x);
  }

  lemma LargeProduct(d: nat, c: nat, x: nat)
    requires d >= 1 && c >= 1 && x >= 1 && d + c == TWO32 && (x + 1) * (c + 1) <= TWO32
    ensures ((x + 1) * (d - 1)) / (x * TWO32) == 1
  {
    var left := TWO32 - (x + 1) * (c + 1);
    assert (x + 1) * (c + 1) == x * c + x + c + 1;
    assert (x + 1) * (d - 1) == x * d + d - x - 1;
    assert x * d == x * TWO32 - x * c by { assert x * (TWO32 - c) == x * TWO32 - x * c; }
    MulLe(TWO32, 1, x);
    MulLe(x + 1, 1, c + 1);
    DivUnique((x + 1) * (d - 1), x * TWO32, 1, left);
  }

  lemma MagicParts(d: nat, um: UMagic) returns (e: nat)
    requires 0 < d < TWO32 && IsUnsignedMagicFor(d, um)
    ensures um.magic * d == Pow2(32 + um.shift) + e && 1 <= e <= d && um.shift <= 31
    ensures forall p | 32 <= p < 32 + um.shift :: !StopsAt(d, p)
    ensures e == d - Pow2(32 + um.shift) % d && um.magic < TWO32 && !um.addIndicator
  {
    hide StopsAt;
    var power := Pow2(32 + um.shift);
    e := d - power % d;
    assert power == d * (power / d) + power % d;
    assert (power / d + 1) * d == d * (power / d) + d;
  }

  lemma SmallShift(d: nat, um: UMagic)
    requires 0 < d <= TWO31 && TWO32 % d != 0 && IsUnsignedMagicFor(d, um)
    ensures um.shift == 0
  {
    SmallStops(d);
    hide StopsAt;
  }

  lemma LargeMagic(d: nat, um: UMagic)
    requires TWO31 < d < TWO32 && IsUnsignedMagicFor(d, um)
    ensures um.magic == Pow2(um.shift) + 1
  {
    hide StopsAt;
    LargeState(d, um.shift);
    LargeDivides(d, um.shift);
    QuotientIs(32 + um.shift, Pow2(um.shift), Pow2(um.shift) * (TWO32 - d), d);
  }

  /** The excess is one exactly for divisors of 2^32 + 1. */
  lemma ExcessOne(d: nat)
    requires d >= 2
    ensures TWO32 % d == d - 1 <==> (TWO32 + 1) % d == 0
  {
    var q, r := TWO32 / d, TWO32 % d;
    assert TWO32 == d * q + r;
    if r == d - 1 {
      assert d * (q + 1) == d * q + d;
      DivUnique(TWO32 + 1, d, q + 1, 0);
    } else {
      DivUnique(TWO32 + 1, d, q, r + 1);
    }
  }

  lemma NotOne(d: nat)
    requires 0 < d && TWO32 % d != 0
    ensures d >= 3
  {
    if d == 1 { DivUnique(TWO32, 1, TWO32, 0); }
    if d == 2 { DivUnique(TWO32, 2, TWO31, 0); }
  }

  /** No divisor beyond 2^31 divides 2^32 + 1. */
  lemma LargeDividesNot(d: nat)
    requires TWO31 < d < TWO32
    ensures (TWO32 + 1) % d != 0
  {
    DivUnique(TWO32 + 1, d, 1, TWO32 + 1 - d);
  }

  /** A numerator at which the product gives one too much. */
  lemma OneTooMuch(d: nat, um: UMagic) returns (n: nat)
    requires 0 < d < TWO32 && TWO32 % d != 0 && IsUnsignedMagicFor(d, um) && (TWO32 + 1) % d != 0
    ensures n < TWO32 && HighQuotient(um, n) == n / d + 1
  {
    var e := MagicParts(d, um);
    NotOne(d);
    ExcessOne(d);
    Pow2Values();
    hide StopsAt, IsUnsignedMagicFor;
    if d <= TWO31 {
      SmallShift(d, um);
      n := SmallWrong(d, um.magic, e);
    } else {
      LargeMagic(d, um);
      LargeWrong(d, um.shift);
      n := d - 1;
    }
  }

  /**
   The product is the quotient at every 32-bit numerator exactly for the divisors of 2^32 + 1:
   for any other, the search stops before the excess is small enough.
   */
  lemma UnsignedExactly(d: nat, um: UMagic)
    requires 0 < d < TWO32 && TWO32 % d != 0 && IsUnsignedMagicFor(d, um)
    ensures QuotientRight(d, um) <==> (TWO32 + 1) % d == 0
  {
    hide IsUnsignedMagicFor, HighQuotient;
    if (TWO32 + 1) % d == 0 {
      forall n: nat | n < TWO32
        ensures HighQuotient(um, n) == n / d
      {
        RightFor(d, um, n);
      }
    } else {
      var n := OneTooMuch(d, um);
    }
  }

  lemma RightFor(d: nat, um: UMagic, n: nat)
    requires 0 < d < TWO32 && TWO32 % d != 0 && IsUnsignedMagicFor(d, um) && (TWO32 + 1) % d == 0 && n < TWO32
    ensures HighQuotient(um, n) == n / d
  {
    var e := MagicParts(d, um);
    NotOne(d);
    ExcessOne(d);
    Pow2Values();
    hide StopsAt, IsUnsignedMagicFor;
    if d > TWO31 { LargeDividesNot(d); }
    SmallShift(d, um);
    RightAt(d, um.magic, n);
  }

  /** 2^32 + 1 is composite; and 3, say, does not divide it. */
  lemma RightAndWrong()
    ensures (TWO32 + 1) % 641 == 0 && (TWO32 + 1) % 6700417 == 0 && (TWO32 + 1) % 3 != 0
  {
    DivUnique(TWO32 + 1, 641, 6700417, 0);
    DivUnique(TWO32 + 1, 6700417, 641, 0);
  }
}
