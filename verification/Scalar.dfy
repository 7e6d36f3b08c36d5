/**
 The meaning of scalar integer operations on 64-bit patterns, as the constant folder
 has it: results are masked to the type's width, and signed operations first
 sign-extend their operands from it.
 */
module Scalar {
  import opened IR

  function Pow2(n: nat): (r: nat)
    ensures r >= 1
  {
    if n == 0 then 1 else 2 * Pow2(n - 1)
  }

  const TWO31: nat := 0x8000_0000
  const TWO32: nat := 0x1_0000_0000
  const TWO62: nat := 0x4000_0000_0000_0000
  const TWO64: nat := 0x1_0000_0000_0000_0000

  lemma {:induction false} Pow2Values()
    ensures Pow2(31) == TWO31 && Pow2(32) == TWO32 && Pow2(62) == TWO62 && Pow2(63) == 2 * TWO62 && Pow2(64) == TWO64
  {
    Pow2Adds(16, 15);
    Pow2Adds(16, 16);
    Pow2Adds(31, 31);
    Pow2Adds(32, 32);
    Pow2Adds(32, 31);
    assert Pow2(4) == 16 && Pow2(3) == 8;
    Pow2Adds(4, 4);
    Pow2Adds(8, 8);
    Pow2Adds(4, 3);
    Pow2Adds(8, 7);
  }

  lemma Pow2Step(n: nat)
    ensures Pow2(0) == 1 && (n > 0 ==> Pow2(n) == 2 * Pow2(n - 1))
  {
  }

  lemma {:induction false} Pow2Adds(a: nat, b: nat)
    ensures Pow2(a + b) == Pow2(a) * Pow2(b)
  {
    if a > 0 {
      Pow2Adds(a - 1, b);
    }
  }

  lemma {:induction false} Pow2Grows(a: nat, b: nat)
    requires a < b
    ensures Pow2(a) < Pow2(b)
    decreases b
  {
    if a < b - 1 {
      Pow2Grows(a, b - 1);
    }
  }

  // ----- Widths and signs

  function MaskValue(val: nat, width: nat): (r: nat)
    ensures width < 64 ==> r < Pow2(width)
  {
    if width >= 64 then val else val % Pow2(width)
  }

  function SignExtend(val: nat, width: nat): int
    requires width >= 1
  {
    var w := if width >= 64 then 64 else width;
    var v := val % Pow2(w);
    if v >= Pow2(w - 1) then v - Pow2(w) else v
  }

  /** A conversion to uint64_t. */
  function ToU64(x: int): (r: nat)
    ensures r < TWO64
  {
    x % TWO64
  }

  /** Division as C++ has it, towards zero. */
  function TruncDiv(a: int, b: int): int
    requires b != 0
  {
    if (a >= 0) == (b > 0) || a == 0 then Abs(a) / Abs(b) else -(Abs(a) / Abs(b))
  }

  function Abs(a: int): nat {
    if a < 0 then -a else a
  }

  function TruncRem(a: int, b: int): int
    requires b != 0
  {
    a - TruncDiv(a, b) * b
  }

  lemma MulLe(a: int, x: int, y: int)
    requires a >= 0 && x <= y
    ensures a * x <= a * y
  {
    assert a * (y - x) >= 0;
  }

  lemma QuotientNonnegative(a: int, b: int)
    requires a >= 0 && b > 0
    ensures a / b >= 0 && (a == 0 ==> a / b == 0)
  {
    var q := a / b;
    assert a == b * q + a % b && 0 <= a % b < b;
    if q < 0 { MulLe(b, q, -1); }
    if a == 0 && q > 0 { MulLe(b, 1, q); }
  }

  lemma ModLe(x: nat, d: nat)
    requires d > 0
    ensures x % d <= x
  {
    QuotientNonnegative(x, d);
    MulLe(d, 0, x / d);
  }

  function ShiftDown(u: nat, k: nat): nat {
    QuotientNonnegative(u, Pow2(k));
    u / Pow2(k)
  }

  function Bit(b: bool): nat {
    if b then 1 else 0
  }

  // ----- Bits

  function BitAnd(a: nat, b: nat): nat {
    if a == 0 || b == 0 then 0 else (a % 2) * (b % 2) + 2 * BitAnd(a / 2, b / 2)
  }

  function BitOr(a: nat, b: nat): nat {
    if a == 0 || b == 0 then a + b else Bit(a % 2 + b % 2 > 0) + 2 * BitOr(a / 2, b / 2)
  }

  function BitXor(a: nat, b: nat): nat {
    if a == 0 || b == 0 then a + b else Bit(a % 2 != b % 2) + 2 * BitXor(a / 2, b / 2)
  }

  lemma {:induction false} AndSelf(a: nat)
    ensures BitAnd(a, a) == a
  {
    if a > 0 { AndSelf(a / 2); }
  }

  // ----- The folder

  /** The operation on the patterns u1 and u2 at the width of the result type; None where it does not fold. */
  function FoldScalar(op: Opcode, width: nat, u1: nat, u2: nat): Option<nat>
    requires width >= 1
  {
    var s1, s2 := SignExtend(u1, width), SignExtend(u2, width);
    if op == Add then Some(MaskValue(ToU64(u1 + u2), width))
    else if op == Sub then Some(MaskValue(ToU64(u1 - u2), width))
    else if op == Mul then Some(MaskValue(ToU64(u1 * u2), width))
    else if op == Div then if s2 == 0 then None else Some(MaskValue(ToU64(TruncDiv(s1, s2)), width))
    else if op == Udiv then if u2 == 0 then None else Some(MaskValue(u1 / u2, width))
    else if op == Rem then if s2 == 0 then None else Some(MaskValue(ToU64(TruncRem(s1, s2)), width))
    else if op == Urem then if u2 == 0 then None else Some(MaskValue(u1 % u2, width))
    else if op == And then Some(MaskValue(BitAnd(u1, u2), width))
    else if op == Or then Some(MaskValue(BitOr(u1, u2), width))
    else if op == Xor then Some(MaskValue(BitXor(u1, u2), width))
    else if op == Shl then Some(MaskValue(ToU64(u1 * Pow2(u2 % 64)), width))
    else if op == Shr then Some(MaskValue(ShiftDown(u1, u2 % 64), width))
    else if op == Sar then Some(MaskValue(ToU64(s1 / Pow2(u2 % 64)), width))
    else if op == Neg then Some(MaskValue(ToU64(0 - u1), width))
    else if op == Not then Some(MaskValue(ToU64(-1 - u1), width))
    else if op == Ceq then Some(Bit(u1 == u2))
    else if op == Cne then Some(Bit(u1 != u2))
    else if op == Csle then Some(Bit(s1 <= s2))
    else if op == Cslt then Some(Bit(s1 < s2))
    else if op == Csge then Some(Bit(s1 >= s2))
    else if op == Csgt then Some(Bit(s1 > s2))
    else if op == Cule then Some(Bit(u1 <= u2))
    else if op == Cult then Some(Bit(u1 < u2))
    else if op == Cuge then Some(Bit(u1 >= u2))
    else if op == Cugt then Some(Bit(u1 > u2))
    else if op == Copy || op == ExtUB || op == ExtUH || op == ExtUW || op == Cast || op == TruncD then
      Some(MaskValue(u1, width))
    else if op == ExtSB then Some(MaskValue(ToU64(SignExtend(u1, 8)), width))
    else if op == ExtSH then Some(MaskValue(ToU64(SignExtend(u1, 16)), width))
    else if op == ExtSW then Some(MaskValue(ToU64(SignExtend(u1, 32)), width))
    else if op == ExtS then Some(MaskValue(ToU64(s1), width))
    else None
  }
}
