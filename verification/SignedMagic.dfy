/**
 The multiplier search behind division by a constant: for every divisor it ends with
 a multiplier and shift whose product, rounded down and adjusted by the sign, is the
 quotient rounded towards zero.
 */
module SignedMagic {
  import opened Scalar

  /** A 32-bit multiplier, how far to shift its high product, and whether the numerator is added back or taken off. */
  datatype Magic = Magic(magic: int, shift: int, numeratorCorrection: int, valid: bool)

  predicate IsInt32(x: int) {
    -0x8000_0000 <= x < 0x8000_0000
  }

  /** One more than the largest magnitude whose quotient the multiplier must get right. */
  function Limit(d: int): nat {
    if d < 0 then TWO31 + 1 else TWO31
  }

  /** The largest multiple of |d| not above the limit, less one: the critical numerator. */
  function Critical(d: int): int
    requires d != 0
  {
    Limit(d) - 1 - Limit(d) % Abs(d)
  }

  /** How far 2^p is from the next multiple of |d|. */
  function Excess(d: int, p: nat): (e: nat)
    requires d != 0
    ensures 1 <= e <= Abs(d)
  {
    Abs(d) - Pow2(p) % Abs(d)
  }

  /** The exponent is large enough that rounding cannot reach the next quotient. */
  predicate Enough(d: int, p: nat)
    requires d != 0
  {
    Critical(d) * Excess(d, p) < Pow2(p)
  }

  /** The correction folded back in: the multiplier as an ordinary integer. */
  function Multiplier(sm: Magic): int {
    sm.magic + sm.numeratorCorrection * TWO32
  }

  /** The result carries the least exponent that is enough, and the multiplier that belongs to it. */
  ghost predicate IsMagicFor(d: int, sm: Magic)
    requires d != 0
  {
    && sm.valid && 0 <= sm.shift <= 30
    && Enough(d, 32 + sm.shift)
    && (forall p | 32 <= p < 32 + sm.shift :: !Enough(d, p))
    && Multiplier(sm) * d == Pow2(32 + sm.shift) + Excess(d, 32 + sm.shift)
    && IsInt32(sm.magic) && -1 <= sm.numeratorCorrection <= 1
  }

  const INVALID := Magic(0, 0, 0, false)

  // ----- Products and quotients

  lemma MulMono(a: int, b: int, c: int, d: int)
    requires 0 <= a <= c && 0 <= b <= d
    ensures a * b <= c * d
  {
    MulLe(b, a, c);
    MulLe(c, b, d);
  }

  lemma DivUnique(n: int, a: int, q: int, r: int)
    requires a > 0 && n == a * q + r && 0 <= r < a
    ensures n / a == q && n % a == r
  {
    var q', r' := n / a, n % a;
    assert n == a * q' + r';
    if q < q' {
      MulLe(a, q + 1, q');
    } else if q > q' {
      MulLe(a, q' + 1, q);
    }
  }

  // ----- The search

  lemma CriticalBounds(d: int)
    requires IsInt32(d) && Abs(d) >= 2
    ensures 2 <= Abs(d) <= TWO31
    ensures Abs(d) - 1 <= Critical(d) <= TWO31
    ensures (Critical(d) + 1) / Abs(d) == Limit(d) / Abs(d)
    ensures Critical(d) + 1 == Abs(d) * (Limit(d) / Abs(d))
  {
    var a, t := Abs(d), Limit(d);
    var q := t / a;
    assert t == a * q + t % a;
    assert q >= 1;
    MulLe(a, 1, q);
    DivUnique(a * q, a, q, 0);
  }

  /** Only odd divisors divide 2^31 + 1, and those divide no power of two. */
  lemma {:induction false} OddDividesNoPower(a: nat, k: nat)
    requires a >= 2 && (TWO31 + 1) % a == 0
    ensures Pow2(k) % a != 0
  {
    var q := (TWO31 + 1) / a;
    assert TWO31 + 1 == a * q;
    Halves(a, q);
    OddPower(a, k);
  }

  lemma {:induction false} OddPower(a: nat, k: nat)
    requires a >= 2 && a % 2 == 1
    ensures Pow2(k) % a != 0
  {
    if k == 0 {
      DivUnique(1, a, 0, 1);
    } else if Pow2(k) % a == 0 {
      var q := Pow2(k) / a;
      assert Pow2(k) == a * q;
      OddFactor(a, q, Pow2(k - 1));
      DivUnique(Pow2(k - 1), a, q / 2, 0);
      OddPower(a, k - 1);
    }
  }

  lemma Halves(a: nat, q: nat)
    ensures a % 2 == 0 ==> a * q == 2 * ((a / 2) * q)
    ensures a % 2 == 1 ==> a * q == 2 * ((a / 2) * q) + q
  {
    var b := a / 2;
    if a % 2 == 0 {
      assert a * q == (b + b) * q == b * q + b * q;
    } else {
      assert a * q == (b + b + 1) * q == b * q + b * q + q;
    }
  }

  lemma OddFactor(a: nat, q: nat, h: nat)
    requires a % 2 == 1 && a * q == 2 * h
    ensures a * (q / 2) == h
  {
    Halves(a, q);
    assert q % 2 == 0;
    Halves(q, a);
    assert q * a == a * q;
    assert a * (q / 2) == (q / 2) * a;
  }

  /** q and r are the quotient and the remainder of 2^p by x. */
  ghost predicate Divides(p: nat, q: nat, r: nat, x: int) {
    r < x && q * x + r == Pow2(p)
  }

  /** One doubling of a quotient and its remainder. */
  method Double(q: nat, r: nat, x: nat, ghost p: nat) returns (q': nat, r': nat)
    requires r < x && Divides(p, q, r, x)
    ensures r' < x && Divides(p + 1, q', r', x)
  {
    if r >= x - r {
      q', r' := 2 * q + 1, 2 * r - x;
    } else {
      q', r' := 2 * q, 2 * r;
    }
    assert 2 * (q * x + r) == (2 * q) * x + 2 * r == (2 * q + 1) * x + (2 * r - x);
  }

  lemma ExcessIs(d: int, p: nat, q2: nat, r2: nat)
    requires d != 0 && Divides(p, q2, r2, Abs(d))
    ensures Excess(d, p) == Abs(d) - r2 && (q2 + 1) * Abs(d) == Pow2(p) + Excess(d, p)
  {
    DivUnique(Pow2(p), Abs(d), q2, r2);
  }

  /** The loop's exit test compares q1, r1 with delta and so 2^p with the product. */
  lemma ExitTest(d: int, p: nat, q1: nat, r1: nat, e: nat)
    requires d != 0 && Divides(p, q1, r1, Critical(d)) && e == Excess(d, p)
    ensures q1 < e || (q1 == e && r1 == 0) <==> !Enough(d, p)
  {
    hide Critical, Excess, Pow2;
    var nc := Critical(d);
    assert q1 * nc == nc * q1;
    if q1 < e {
      MulLe(nc, q1 + 1, e);
    } else if q1 > e {
      MulLe(nc, e + 1, q1);
    }
  }

  /** 2^31 divided by x. */
  method DivideStart(x: nat) returns (q: nat, r: nat)
    requires x > 0
    ensures r < x && Divides(31, q, r, x)
  {
    Pow2Values();
    q := TWO31 / x;
    assert TWO31 == x * q + TWO31 % x;
    assert q * x == x * q;
    r := TWO31 - q * x;
  }

  lemma CastBack(d: int, m: int, magic: int, correction: int)
    requires 0 < m < TWO32 && d != 0
    requires magic == ToInt32(if d < 0 then -m else m)
    requires correction == if d > 0 && magic < 0 then 1 else if d < 0 && magic > 0 then -1 else 0
    ensures magic + correction * TWO32 == if d < 0 then -m else m
  {
  }

  lemma SignedProduct(d: int, m: int)
    ensures (if d < 0 then -m else m) * d == m * Abs(d)
  {
  }

  /** From p = 62 on every exponent is enough. */
  lemma EnoughAt62(d: int, p: nat)
    requires IsInt32(d) && Abs(d) >= 2 && p >= 62
    ensures Enough(d, p)
  {
    CriticalBounds(d);
    var nc, e, a := Critical(d), Excess(d, p), Abs(d);
    assert Pow2(p) >= TWO62 by {
      Pow2Values();
      if p > 62 { Pow2Grows(62, p); }
    }
    if nc == TWO31 {
      assert e < TWO31 by { CriticalAtLimit(d, p); }
      MulMono(nc, e, TWO31, TWO31 - 1);
    } else {
      MulMono(nc, e, TWO31 - 1, TWO31);
    }
  }

  /** The critical numerator reaches 2^31 only for negative divisors of 2^31 + 1, which are odd. */
  lemma CriticalAtLimit(d: int, p: nat)
    requires IsInt32(d) && Abs(d) >= 2 && Critical(d) == TWO31
    ensures Excess(d, p) < Abs(d)
  {
    OddDividesNoPower(Abs(d), p);
  }

  /** The multiplier fits in 32 bits without its sign. */
  lemma MultiplierBound(d: int, p: nat, m: int)
    requires IsInt32(d) && Abs(d) >= 2 && p >= 32
    requires m * Abs(d) == Pow2(p) + Excess(d, p)
    requires p > 32 ==> !Enough(d, p - 1)
    ensures 0 < m < TWO32
  {
    var a, e, nc := Abs(d), Excess(d, p), Critical(d);
    CriticalBounds(d);
    if m <= 0 { MulLe(a, m, 0); }
    if m >= TWO32 {
      MulLe(a, TWO32, m);
      if p == 32 {
        Pow2Values();
        MulLe(TWO32, 2, a);
        assert false;
      } else {
        var e' := Excess(d, p - 1);
        assert Pow2(p) <= 2 * (nc * e');
        if nc == TWO31 {
          CriticalAtLimit(d, p - 1);
          MulLe(TWO31, e', a - 1);
        } else {
          MulMono(nc, e', TWO31 - 1, a);
        }
        assert false;
      }
    }
  }

  /** Casting a 64-bit value to int32_t. */
  function ToInt32(x: int): (r: int)
    ensures IsInt32(r)
  {
    (x + TWO31) % TWO32 - TWO31
  }

  method ComputeSignedMagic32(d: int) returns (sm: Magic)
    requires IsInt32(d)
    ensures if Abs(d) <= 1 then sm == INVALID else IsMagicFor(d, sm)
  {
    sm := INVALID;
    if d == 0 || d == 1 || d == -1 { return; }
    CriticalBounds(d);
    var ad := Abs(d);
    var t := if d < 0 then TWO31 + 1 else TWO31;
    var anc := t - 1 - t % ad;
    assert anc == Critical(d);
    sm := Search(d, ad, anc);
  }

  /** The doubling loop and the signed multiplier it ends with. */
  method Search(d: int, ad: nat, anc: nat) returns (sm: Magic)
    requires IsInt32(d) && d != 0 && ad == Abs(d) >= 2 && anc == Critical(d) && anc > 0
    ensures IsMagicFor(d, sm)
  {
    hide Critical, Excess, Enough, Pow2, Divides, Limit, ToInt32, Abs;
    var p := 31;
    var q1: nat, r1: nat := DivideStart(anc);
    var q2: nat, r2: nat := DivideStart(ad);
    var again := true;
    while again
      invariant 31 <= p <= 62 && (p == 31 ==> again)
      invariant r1 < anc && Divides(p, q1, r1, anc)
      invariant r2 < ad && Divides(p, q2, r2, ad)
      invariant p > 31 ==> (again <==> !Enough(d, p))
      invariant forall k | 32 <= k < p :: !Enough(d, k)
      decreases 62 - p, again
    {
      if p == 62 { EnoughAt62(d, p); }
      q1, r1 := Double(q1, r1, anc, p);
      q2, r2 := Double(q2, r2, ad, p);
      p := p + 1;
      assert p < 63;  // the search would give up at 63, but never gets there
      var delta := ad - r2;
      ExcessIs(d, p, q2, r2);
      ExitTest(d, p, q1, r1, delta);
      again := q1 < delta || (q1 == delta && r1 == 0);
    }
    ExcessIs(d, p, q2, r2);
    var m := q2 + 1;
    MultiplierBound(d, p, m);
    var magic := ToInt32(if d < 0 then -m else m);
    var correction := if d > 0 && magic < 0 then 1 else if d < 0 && magic > 0 then -1 else 0;
    sm := Magic(magic, p - 32, correction, p - 32 < 32);
    CastBack(d, m, magic, correction);
    SignedProduct(d, m);
    assert Multiplier(sm) * d == m * ad;
  }

  // ----- The quotient

  /** Rounding up the reciprocal moves n by less than the distance to the next quotient. */
  lemma Slack(a: int, nc: int, e: int, power: int, n: int, q: int, r: int)
    requires a >= 2 && 1 <= e <= a && nc >= a - 1 && nc * e < power
    requires n == a * q + r && 0 <= r < a && n >= 0
    requires n <= nc || (r <= a - 2 && n == nc + 1 + r)
    ensures r * power + e * n < a * power
  {
    assert nc * e == e * nc;
    if n <= nc {
      MulLe(e, n, nc);
      MulLe(power, r + 1, a);
      assert power * (r + 1) == r * power + power && power * a == a * power;
    } else {
      MulLe(e, r + 1, nc);
      assert e * n == e * nc + e * (r + 1);
      MulLe(power, r + 2, a);
      assert power * (r + 2) == r * power + power + power && power * a == a * power;
    }
  }

  /** From the slack to the rounded quotient, for numerators of either sign. */
  lemma Scaled(a: int, e: int, power: int, m: int, n: int, q: int, r: int)
    requires m * a == power + e && n == a * q + r
    ensures a * (m * n - power * q) == r * power + e * n
  {
    assert a * (m * n) == (m * a) * n == power * n + e * n;
    assert power * n == power * (a * q) + power * r;
    assert power * (a * q) == a * (power * q);
    assert a * (m * n - power * q) == a * (m * n) - a * (power * q);
  }

  /** x exceeds power * q by y, and a * y is at most a * power. */
  lemma QuotientFrom(a: int, power: int, x: int, y: int, q: int, s: int)
    requires a >= 2 && power > 0 && x == power * q + y && a * y == s && 0 <= s <= a * power
    ensures s < a * power ==> x / power == q
    ensures s > 0 ==> -x / power == -q - 1
  {
    if y < 0 { MulLe(a, y, -1); }
    if y > power { MulLe(a, power + 1, y); }
    if s < a * power {
      DivUnique(x, power, q, y);
    }
    if s > 0 {
      assert power * (-q - 1) == -(power * q) - power;
      DivUnique(-x, power, -q - 1, power - y);
    }
  }

  lemma Rounded(a: int, e: int, power: int, m: int, n: int, q: int, r: int)
    requires a >= 2 && e >= 1 && power > 0 && m * a == power + e
    requires n == a * q + r && 0 <= r < a && n >= 0
    requires r * power + e * n <= a * power
    ensures r * power + e * n < a * power ==> (m * n) / power == q
    ensures n > 0 ==> -(m * n) / power == -q - 1
  {
    Scaled(a, e, power, m, n, q, r);
    MulLe(power, 0, r);
    MulLe(e, 0, n);
    if n > 0 { MulLe(e, 1, n); }
    QuotientFrom(a, power, m * n, m * n - power * q, q, r * power + e * n);
  }

  /** |d| and numerators below the limit leave room. */
  lemma RoomBelowLimit(d: int, p: nat, n: int)
    requires IsInt32(d) && Abs(d) >= 2 && Enough(d, p)
    requires 0 <= n <= Limit(d) && (n == Limit(d) ==> Limit(d) % Abs(d) <= Abs(d) - 2)
    ensures (n % Abs(d)) * Pow2(p) + Excess(d, p) * n < Abs(d) * Pow2(p)
  {
    var a, nc, t := Abs(d), Critical(d), Limit(d);
    CriticalBounds(d);
    var q, r := n / a, n % a;
    assert n == a * q + r;
    if n > nc {
      DivUnique(n, a, t / a, n - (nc + 1));
    }
    Slack(a, nc, Excess(d, p), Pow2(p), n, q, r);
  }

  /**
   The one numerator the critical value does not cover is -2^31 for a positive divisor of
   2^31 + 1; there the search stops at once, and the product is exactly at the bound.
   */
  lemma RoomAtLimit(d: int, p: nat)
    requires IsInt32(d) && d >= 2 && TWO31 % d == d - 1
    requires p >= 32 && forall k | 32 <= k < p :: !Enough(d, k)
    ensures (TWO31 % d) * Pow2(p) + Excess(d, p) * TWO31 == d * Pow2(p)
  {
    LimitDivisor(d);
    Pow2Values();
    assert Excess(d, 32) == 2;
    assert Critical(d) == TWO31 - d;
    assert Enough(d, 32);
    assert p == 32;
  }

  lemma LimitDivisor(d: nat)
    requires d >= 2 && TWO31 % d == d - 1
    ensures TWO32 % d == d - 2
  {
    var c := TWO31 / d + 1;
    assert TWO31 == d * (TWO31 / d) + (d - 1);
    assert d * c == TWO31 + 1;
    Halves(d, c);
    assert d * (2 * c - 1) == 2 * (d * c) - d;
    DivUnique(TWO32, d, 2 * c - 1, d - 2);
  }

  /** The high product, shifted and adjusted by its sign, is the quotient rounded towards zero. */
  lemma MagicQuotient(d: int, n: int, sm: Magic)
    requires IsInt32(d) && Abs(d) >= 2 && IsInt32(n) && IsMagicFor(d, sm)
    ensures var q := (Multiplier(sm) * n) / Pow2(32 + sm.shift);
            TruncDiv(n, d) == q + (if q < 0 then 1 else 0)
  {
    var a, p := Abs(d), 32 + sm.shift;
    var power, e := Pow2(p), Excess(d, p);
    var m := if d < 0 then -Multiplier(sm) else Multiplier(sm);
    var k := Abs(n);
    SignedProduct(d, m);
    RoomForAll(d, p, n);
    DivisionOf(k, a);
    hide *;
    Rounded(a, e, power, m, k, k / a, k % a);
    ProductSign(Multiplier(sm), n, m, d);
    SignedQuotient(d, n, Multiplier(sm) * n, m * k, power);
  }

  lemma DivisionOf(k: nat, a: nat)
    requires a > 0
    ensures k == a * (k / a) + k % a && 0 <= k % a < a
  {
  }

  lemma RoomForAll(d: int, p: nat, n: int)
    requires IsInt32(d) && Abs(d) >= 2 && IsInt32(n) && p >= 32
    requires Enough(d, p) && forall k | 32 <= k < p :: !Enough(d, k)
    ensures var left := (Abs(n) % Abs(d)) * Pow2(p) + Excess(d, p) * Abs(n);
            left <= Abs(d) * Pow2(p) && ((n < 0) == (d < 0) || n == 0 ==> left < Abs(d) * Pow2(p))
  {
    if Abs(n) == Limit(d) && Limit(d) % Abs(d) == Abs(d) - 1 {
      LimitReached(d, n, Abs(n));
      RoomAtLimit(d, p);
    } else {
      RoomBelowLimit(d, p, Abs(n));
    }
  }

  lemma ProductSign(x: int, n: int, m: int, d: int)
    requires m == if d < 0 then -x else x
    ensures x * n == if (n < 0) == (d < 0) then m * Abs(n) else -(m * Abs(n))
  {
    if d < 0 {
      assert x * n == m * (-n);
    }
    if n < 0 {
      assert m * n == -(m * (-n));
    }
  }

  lemma LimitReached(d: int, n: int, k: int)
    requires IsInt32(d) && IsInt32(n) && Abs(d) >= 2 && k == Abs(n)
    requires k == Limit(d) && Limit(d) % Abs(d) == Abs(d) - 1
    ensures d > 0 && n == -0x8000_0000 && k == TWO31
  {
  }

  lemma QuotientSign(n: int, d: int)
    requires Abs(d) >= 2
    ensures Abs(n) / Abs(d) >= 0 && (n == 0 ==> Abs(n) / Abs(d) == 0)
    ensures TruncDiv(n, d) == if (n < 0) == (d < 0) || n == 0 then Abs(n) / Abs(d) else -(Abs(n) / Abs(d))
  {
    QuotientNonnegative(Abs(n), Abs(d));
    TruncDivIs(n, d, Abs(n) / Abs(d));
  }

  lemma TruncDivIs(n: int, d: int, k: int)
    requires d != 0 && k == Abs(n) / Abs(d)
    ensures TruncDiv(n, d) == if (n < 0) == (d < 0) || n == 0 then k else -k
  {
    hide Abs;
  }

  lemma SignedQuotient(d: int, n: int, x: int, y: int, power: int)
    requires Abs(d) >= 2 && power > 0
    requires x == if (n < 0) == (d < 0) then y else -y
    requires (n < 0) == (d < 0) || n == 0 ==> y / power == Abs(n) / Abs(d)
    requires n != 0 ==> -y / power == -(Abs(n) / Abs(d)) - 1
    requires n == 0 ==> y == 0
    ensures var q := x / power; TruncDiv(n, d) == q + (if q < 0 then 1 else 0)
  {
    QuotientSign(n, d);
    hide TruncDiv, Abs;
    if (n < 0) == (d < 0) {
      assert x == y;
    } else if n == 0 {
      assert x == y;
    } else {
      assert x == -y;
    }
  }
}
