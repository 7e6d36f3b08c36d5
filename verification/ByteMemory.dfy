/**
 A machine whose memory is bytes, with all loads and stores; it keeps every law that the
 removal of dead stores relies on.
 */
module ByteMemory {
  import opened IR
  import opened DeadCode
  import opened DeadStoreRuns
  import opened DeadStoreChains
  import opened Reordering
  import opened Scalar

  /** The lowest n bytes of x at a. */
  function StoreBytes(mem: Memory, a: nat, x: nat, n: nat): Memory
    decreases n
  {
    if n == 0 then mem else StoreBytes(mem[a := x % 256], a + 1, x / 256, n - 1)
  }

  function LoadBytes(mem: Memory, a: nat, n: nat): nat
    decreases n
  {
    if n == 0 then 0 else (if a in mem then mem[a] % 256 else 0) + 256 * LoadBytes(mem, a + 1, n - 1)
  }

  /** Loads of consecutive bytes. */
  predicate IsSizedLoad(op: Opcode) {
    || op.Load? || op.Loadd? || op.Loads? || op.Loadl? || op.Loaduw? || op.Loadsh? || op.Loaduh?
    || op.Loadsb? || op.Loadub? || op.VLoad?
  }

  /** The bytes a load reads: by its opcode, or by the type, in bits, of what it loads. */
  function LoadWidth(op: Opcode, ty: nat): nat {
    if op == Loadsb || op == Loadub then 1
    else if op == Loadsh || op == Loaduh then 2
    else if op == Loaduw || op == Loads then 4
    else if op == Loadl || op == Loadd then 8
    else ty / 8
  }

  /** The bytes as a number of the type: negative ones of Loadsb and Loadsh are extended. */
  function Extended(op: Opcode, ty: nat, x: nat): nat {
    if op == Loadsb && x >= 0x80 && ty > 8 then x + HighBits(8, ty)
    else if op == Loadsh && x >= 0x8000 && ty > 16 then x + HighBits(16, ty)
    else x
  }

  /** The bits from n up to below ty, all set. */
  function HighBits(n: nat, ty: nat): (r: nat)
    requires n < ty
    ensures r == Pow2(ty) - Pow2(n)
  {
    Pow2Grows(n, ty);
    Pow2(ty) - Pow2(n)
  }

  /** What is at the base and four times the index, for each lane. */
  function GatherBytes(mem: Memory, base: nat, indices: nat, lanes: nat): nat
    decreases lanes
  {
    if lanes == 0 then 0
    else
      LoadBytes(mem, base + 4 * (indices % TWO32), 4) + TWO32 * GatherBytes(mem, base, indices / TWO32, lanes - 1)
  }

  function ScatterBytes(mem: Memory, base: nat, values: nat, indices: nat, lanes: nat): Memory
    decreases lanes
  {
    if lanes == 0 then mem
    else
      ScatterBytes(StoreBytes(mem, base + 4 * (indices % TWO32), values % TWO32, 4), base, values / TWO32,
                   indices / TWO32, lanes - 1)
  }

  /** All loads and stores; vectors go lane by lane. */
  predicate ByteSem(op: Opcode, ty: nat, args: seq<Word>, mem: Memory, v: Word, mem': Memory) {
    if KnownWidth(op) then
      |args| == 2 && v == Word(0, 0) && mem' == StoreBytes(mem, args[1].bits, args[0].bits, StoreWidth(op, ty))
    else if IsSizedLoad(op) then
      && |args| == 1 && mem' == mem
      && v == Word(ty, Extended(op, ty, LoadBytes(mem, args[0].bits, LoadWidth(op, ty))))
    else if op == VGather then
      && |args| == 2 && mem' == mem
      && v == Word(ty, GatherBytes(mem, args[0].bits, args[1].bits, ty / 32))
    else
      && op == VScatter && |args| == 3 && v == Word(0, 0)
      && mem' == ScatterBytes(mem, args[1].bits, args[0].bits, args[2].bits, ty / 32)
  }

  /** Both parameters are the address 8. */
  ghost function ByteMachine(): Machine {
    Machine([Word(64, 8), Word(64, 8)], ByteSem)
  }

  /** The same bytes but for the n from a on. */
  ghost predicate SameOutside(mem: Memory, mem': Memory, a: nat, n: nat) {
    forall x: nat | !(a <= x < a + n) :: (x in mem <==> x in mem') && (x in mem ==> mem[x] == mem'[x])
  }

  lemma {:induction false} StoreElsewhere(mem: Memory, b: nat, y: nat, k: nat, x: nat)
    requires !(b <= x < b + k)
    ensures var mem' := StoreBytes(mem, b, y, k); (x in mem <==> x in mem') && (x in mem ==> mem[x] == mem'[x])
    decreases k
  {
    if k > 0 { StoreElsewhere(mem[b := y % 256], b + 1, y / 256, k - 1, x); }
  }

  lemma {:induction false} StoreHere(mem: Memory, mem': Memory, b: nat, y: nat, k: nat, x: nat)
    requires b <= x < b + k
    ensures x in StoreBytes(mem, b, y, k) && x in StoreBytes(mem', b, y, k)
    ensures StoreBytes(mem, b, y, k)[x] == StoreBytes(mem', b, y, k)[x]
    decreases k
  {
    var y0: nat := y % 256;
    if x == b {
      StoreElsewhere(mem[b := y0], b + 1, y / 256, k - 1, x);
      StoreElsewhere(mem'[b := y0], b + 1, y / 256, k - 1, x);
    } else {
      StoreHere(mem[b := y0], mem'[b := y0], b + 1, y / 256, k - 1, x);
    }
  }

  /** A store leaves its own bytes alike, and the others as alike as they were. */
  lemma StoreBothSides(mem: Memory, mem': Memory, a: nat, n: nat, b: nat, y: nat, k: nat)
    requires SameOutside(mem, mem', a, n)
    ensures SameOutside(StoreBytes(mem, b, y, k), StoreBytes(mem', b, y, k), a, n)
    ensures a == b && n <= k ==> StoreBytes(mem, b, y, k) == StoreBytes(mem', b, y, k)
  {
    var r, r' := StoreBytes(mem, b, y, k), StoreBytes(mem', b, y, k);
    hide StoreBytes;
    forall x: nat
      ensures !(a <= x < a + n) || b <= x < b + k ==> (x in r <==> x in r') && (x in r ==> r[x] == r'[x])
    {
      if b <= x < b + k {
        StoreHere(mem, mem', b, y, k, x);
      } else {
        StoreElsewhere(mem, b, y, k, x);
        StoreElsewhere(mem', b, y, k, x);
      }
    }
  }

  lemma StoreOneSide(mem: Memory, a: nat, y: nat, n: nat)
    ensures SameOutside(StoreBytes(mem, a, y, n), mem, a, n) && SameOutside(mem, StoreBytes(mem, a, y, n), a, n)
  {
    hide StoreBytes;
    forall x: nat | !(a <= x < a + n)
      ensures (x in mem <==> x in StoreBytes(mem, a, y, n)) && (x in mem ==> mem[x] == StoreBytes(mem, a, y, n)[x])
    {
      StoreElsewhere(mem, a, y, n, x);
    }
  }

  /** What a store at least as wide to the same address leaves. */
  lemma StoreTwice(mem: Memory, a: nat, x: nat, n: nat, y: nat, k: nat)
    requires n <= k
    ensures StoreBytes(StoreBytes(mem, a, x, n), a, y, k) == StoreBytes(mem, a, y, k)
  {
    StoreOneSide(mem, a, x, n);
    StoreBothSides(StoreBytes(mem, a, x, n), mem, a, n, a, y, k);
  }

  // ----- What a store writes, a load of the same width reads

  function Bytes256(n: nat): (r: nat)
    ensures r > 0
  {
    if n == 0 then 1 else 256 * Bytes256(n - 1)
  }

  lemma {:induction false} LoadBelow(mem: Memory, a: nat, n: nat)
    ensures LoadBytes(mem, a, n) < Bytes256(n)
    decreases n
  {
    if n > 0 { LoadBelow(mem, a + 1, n - 1); }
  }

  lemma {:induction false} LoadStored(mem: Memory, a: nat, x: nat, n: nat)
    ensures LoadBytes(StoreBytes(mem, a, x, n), a, n) == x % Bytes256(n)
    decreases n
  {
    if n > 0 {
      var low: nat := x % 256;
      StoreElsewhere(mem[a := low], a + 1, x / 256, n - 1, a);
      LoadStored(mem[a := low], a + 1, x / 256, n - 1);
      LowAndHigh(x, Bytes256(n - 1));
    }
  }

  lemma LowAndHigh(x: nat, b: nat)
    requires b > 0
    ensures x % (256 * b) == x % 256 + 256 * (x / 256 % b)
  {
    var q, r := x / 256 / b, x / 256 % b;
    assert x == 256 * (q * b + r) + x % 256;
    assert x == q * (256 * b) + (256 * r + x % 256);
    DivUnique(x, 256 * b, q, 256 * r + x % 256);
  }

  lemma DivUnique(x: nat, d: nat, q: nat, r: nat)
    requires d > 0 && x == q * d + r && r < d
    ensures x % d == r
  {
    var k := x / d - q;
    assert x % d == x - (x / d) * d;
    assert (x / d) * d == (q + k) * d == q * d + k * d;
    assert x % d == r - k * d;
    assert k > 0 ==> k * d >= d;
    assert k < 0 ==> k * d + d <= 0;
  }

  /** The store takes the value to the address and writes no other bytes than the n from there. */
  ghost predicate Puts(op: Opcode, ty: nat, v: nat, a: nat, n: nat, mem: Memory, mem': Memory) {
    ByteSem(op, ty, [Word(ty, v), Word(64, a)], mem, Word(0, 0), mem') && SameOutside(mem, mem', a, n)
  }

  /** What is loaded from the address. */
  ghost predicate Gets(op: Opcode, ty: nat, a: nat, mem: Memory, v: nat) {
    ByteSem(op, ty, [Word(64, a)], mem, Word(ty, v), mem)
  }

  lemma Bytes256Values()
    ensures Bytes256(1) == 0x100 && Bytes256(2) == 0x1_0000 && Bytes256(4) == TWO32 && Bytes256(8) == TWO64
  {
    assert Bytes256(3) == 0x100_0000 && Bytes256(5) == 256 * TWO32 && Bytes256(6) == 256 * Bytes256(5);
    assert Bytes256(7) == 256 * Bytes256(6);
  }

  /** What was stored at the address can be loaded from there, as any opcode of the width has it. */
  lemma PutThenGet(store: Opcode, load: Opcode, ty: nat, ty': nat, n: nat, mem: Memory, a: nat, x: nat)
    requires KnownWidth(store) && StoreWidth(store, ty) == n
    requires IsSizedLoad(load) && !KnownWidth(load) && LoadWidth(load, ty') == n
    ensures Puts(store, ty, x, a, n, mem, StoreBytes(mem, a, x, n))
    ensures Gets(load, ty', a, StoreBytes(mem, a, x, n), Extended(load, ty', x % Bytes256(n)))
  {
    hide StoreBytes, LoadBytes, Bytes256, SameOutside, Extended, StoreWidth, LoadWidth;
    LoadStored(mem, a, x, n);
    StoreOneSide(mem, a, x, n);
  }

  lemma StoreWidths(ty: nat)
    ensures KnownWidth(Storeb) && StoreWidth(Storeb, ty) == 1
    ensures KnownWidth(Storeh) && StoreWidth(Storeh, ty) == 2
    ensures KnownWidth(Stores) && StoreWidth(Stores, ty) == 4
    ensures KnownWidth(Storel) && StoreWidth(Storel, ty) == 8
    ensures KnownWidth(Stored) && StoreWidth(Stored, ty) == 8
    ensures KnownWidth(Store) && StoreWidth(Store, ty) == ty / 8
    ensures KnownWidth(VStore) && StoreWidth(VStore, ty) == ty / 8
  {
  }

  lemma NarrowLoads(ty: nat)
    ensures forall op | op in {Loadub, Loadsb} :: IsSizedLoad(op) && !KnownWidth(op) && LoadWidth(op, ty) == 1
    ensures forall op | op in {Loaduh, Loadsh} :: IsSizedLoad(op) && !KnownWidth(op) && LoadWidth(op, ty) == 2
  {
  }

  lemma WideLoads(ty: nat)
    ensures forall op | op in {Loaduw, Loads} :: IsSizedLoad(op) && !KnownWidth(op) && LoadWidth(op, ty) == 4
    ensures forall op | op in {Loadl, Loadd} :: IsSizedLoad(op) && !KnownWidth(op) && LoadWidth(op, ty) == 8
    ensures forall op | op in {Load, VLoad} :: IsSizedLoad(op) && !KnownWidth(op) && LoadWidth(op, ty) == ty / 8
  {
  }

  lemma HighBitsValues()
    ensures HighBits(8, 32) == 0xffff_ff00 && HighBits(16, 32) == 0xffff_0000
  {
    Pow2Values();
    Pow2Adds(8, 8);
    assert Pow2(8) == 0x100;
  }

  lemma ExtendedValues(x: nat)
    ensures Extended(Loadsb, 32, x) == if x < 0x80 then x else x + 0xffff_ff00
    ensures Extended(Loadsh, 32, x) == if x < 0x8000 then x else x + 0xffff_0000
    ensures forall op, ty | op != Loadsb && op != Loadsh :: Extended(op, ty, x) == x
  {
    HighBitsValues();
    hide HighBits;
  }

  lemma ByteRoundTrip(mem: Memory, a: nat, x: nat, ty: nat) returns (mem': Memory)
    ensures Puts(Storeb, ty, x, a, 1, mem, mem') && Gets(Loadub, 32, a, mem', x % 0x100)
    ensures Gets(Loadsb, 32, a, mem', if x % 0x100 < 0x80 then x % 0x100 else x % 0x100 + 0xffff_ff00)
  {
    hide *;
    StoreWidths(ty);
    NarrowLoads(32);
    mem' := StoreBytes(mem, a, x, 1);
    Bytes256Values();
    PutThenGet(Storeb, Loadub, ty, 32, 1, mem, a, x);
    PutThenGet(Storeb, Loadsb, ty, 32, 1, mem, a, x);
    ExtendedValues(x % 0x100);
  }

  lemma HalfRoundTrip(mem: Memory, a: nat, x: nat, ty: nat) returns (mem': Memory)
    ensures Puts(Storeh, ty, x, a, 2, mem, mem') && Gets(Loaduh, 32, a, mem', x % 0x1_0000)
    ensures Gets(Loadsh, 32, a, mem', if x % 0x1_0000 < 0x8000 then x % 0x1_0000 else x % 0x1_0000 + 0xffff_0000)
  {
    hide *;
    StoreWidths(ty);
    NarrowLoads(32);
    mem' := StoreBytes(mem, a, x, 2);
    Bytes256Values();
    PutThenGet(Storeh, Loaduh, ty, 32, 2, mem, a, x);
    PutThenGet(Storeh, Loadsh, ty, 32, 2, mem, a, x);
    ExtendedValues(x % 0x1_0000);
  }

  lemma WordRoundTrip(mem: Memory, a: nat, x: nat, ty: nat) returns (mem': Memory)
    ensures Puts(Stores, ty, x, a, 4, mem, mem') && Puts(Store, 32, x, a, 4, mem, mem')
    ensures Gets(Loads, 32, a, mem', x % TWO32) && Gets(Loaduw, 32, a, mem', x % TWO32)
    ensures Gets(Load, 32, a, mem', x % TWO32)
  {
    hide *;
    StoreWidths(ty);
    StoreWidths(32);
    WideLoads(32);
    mem' := StoreBytes(mem, a, x, 4);
    Bytes256Values();
    ExtendedValues(x % TWO32);
    PutThenGet(Stores, Loads, ty, 32, 4, mem, a, x);
    PutThenGet(Stores, Loaduw, ty, 32, 4, mem, a, x);
    PutThenGet(Store, Load, 32, 32, 4, mem, a, x);
  }

  lemma LongRoundTrip(mem: Memory, a: nat, x: nat, ty: nat) returns (mem': Memory)
    ensures Puts(Storel, ty, x, a, 8, mem, mem') && Puts(Stored, ty, x, a, 8, mem, mem')
    ensures Gets(Loadl, 64, a, mem', x % TWO64) && Gets(Loadd, 64, a, mem', x % TWO64)
  {
    hide *;
    StoreWidths(ty);
    WideLoads(64);
    mem' := StoreBytes(mem, a, x, 8);
    Bytes256Values();
    ExtendedValues(x % TWO64);
    PutThenGet(Storel, Loadl, ty, 64, 8, mem, a, x);
    PutThenGet(Stored, Loadd, ty, 64, 8, mem, a, x);
  }

  /** Without a width of their own, scalars and vectors have that of their type. */
  lemma TypedRoundTrip(mem: Memory, a: nat, x: nat, ty: nat) returns (mem': Memory)
    ensures Puts(Store, ty, x, a, ty / 8, mem, mem') && Puts(VStore, ty, x, a, ty / 8, mem, mem')
    ensures Gets(Load, ty, a, mem', x % Bytes256(ty / 8)) && Gets(VLoad, ty, a, mem', x % Bytes256(ty / 8))
  {
    hide *;
    StoreWidths(ty);
    WideLoads(ty);
    ExtendedValues(x % Bytes256(ty / 8));
    mem' := StoreBytes(mem, a, x, ty / 8);
    PutThenGet(Store, Load, ty, ty, ty / 8, mem, a, x);
    PutThenGet(VStore, VLoad, ty, ty, ty / 8, mem, a, x);
  }

  /** The machine keeps every law that the removal relies on. */
  lemma ByteMachineLaws()
    ensures LastStoreWins(ByteMachine()) && MemoryListed(ByteMachine()) && EffectsListed(ByteMachine())
  {
    hide StoreBytes, LoadBytes, StoreWidth, Extended, LoadWidth, GatherBytes, ScatterBytes;
    forall mem: Memory, a: nat, x: nat, n: nat, y: nat, k: nat | n <= k
      ensures StoreBytes(StoreBytes(mem, a, x, n), a, y, k) == StoreBytes(mem, a, y, k)
    {
      StoreTwice(mem, a, x, n, y, k);
    }
  }

  lemma ByteStores(e: StoreEvent, mem: Memory, mem': Memory)
    ensures DoesStore(ByteMachine(), e, mem, mem') <==>
              && KnownWidth(e.op) && e.result == Word(0, 0)
              && mem' == StoreBytes(mem, e.pointer.bits, e.value.bits, StoreWidth(e.op, e.ty))
  {
    hide StoreBytes, LoadBytes, Extended, LoadWidth, GatherBytes, ScatterBytes;
  }

  lemma {:induction false} LaterRuns(events: seq<StoreEvent>, mem: Memory, mem': Memory, e: StoreEvent, end: Memory)
    requires SameOutside(mem, mem', e.pointer.bits, StoreWidth(e.op, e.ty)) && Covers(events, PlaceOf(e))
    requires StoreRun(ByteMachine(), events, mem, end)
    ensures StoreRun(ByteMachine(), events, mem', end)
    decreases |events|
  {
    hide StoreBytes, ByteMachine, SameOutside, DoesStore;
    var first := events[0];
    var mid: Memory :| DoesStore(ByteMachine(), first, mem, mid) && StoreRun(ByteMachine(), events[1..], mid, end);
    ByteStores(first, mem, mid);
    var mid' := StoreBytes(mem', first.pointer.bits, first.value.bits, StoreWidth(first.op, first.ty));
    ByteStores(first, mem', mid');
    StoreBothSides(mem, mem', e.pointer.bits, StoreWidth(e.op, e.ty), first.pointer.bits, first.value.bits,
                   StoreWidth(first.op, first.ty));
    if !Fills(first, PlaceOf(e)) {
      var i :| 0 <= i < |events| && Fills(events[i], PlaceOf(e));
      assert Fills(events[1..][i - 1], PlaceOf(e));
      LaterRuns(events[1..], mid, mid', e, end);
    }
  }

  lemma ByteMachineStoreLaws()
    ensures StoreLaws(ByteMachine())
  {
    var m := ByteMachine();
    hide StoreBytes, ByteMachine, DoesStore, StoreRun, Covers;
    forall e: StoreEvent, mem: Memory, mem': Memory, mem2: Memory | DoesStore(m, e, mem, mem')
      ensures CanStore(m, e, mem2)
    {
      ByteStores(e, mem, mem');
      ByteStores(e, mem2, StoreBytes(mem2, e.pointer.bits, e.value.bits, StoreWidth(e.op, e.ty)));
    }
    forall e: StoreEvent, mem: Memory, a: Memory, b: Memory | DoesStore(m, e, mem, a) && DoesStore(m, e, mem, b)
      ensures a == b
    {
      ByteStores(e, mem, a);
      ByteStores(e, mem, b);
    }
    forall e: StoreEvent, events: seq<StoreEvent>, mem: Memory, mem': Memory, end: Memory
      | DoesStore(m, e, mem, mem') && Covers(events, PlaceOf(e))
      ensures StoreRun(m, events, mem', end) <==> StoreRun(m, events, mem, end)
    {
      ByteStores(e, mem, mem');
      StoreOneSide(mem, e.pointer.bits, e.value.bits, StoreWidth(e.op, e.ty));
      if StoreRun(m, events, mem, end) { LaterRuns(events, mem, mem', e, end); }
      if StoreRun(m, events, mem', end) { LaterRuns(events, mem', mem, e, end); }
    }
  }
}
