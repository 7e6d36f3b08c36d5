/**
 A line of stores and loads on the byte machine: exactly when its first store may be left
 out, whatever the pointers are. A load through another name may read what the store wrote.
 */
module AliasedLoads {
  import opened IR
  import opened DeadStoreRuns
  import opened DeadStoreChains
  import opened ByteMemory
  import opened DeadStoreLines

  predicate IsPlainLoad(instr: Instr) {
    IsSizedLoad(instr.op) && |instr.operands| == 1
  }

  predicate IsAccess(instr: Instr) {
    IsSizedStore(instr) || IsPlainLoad(instr)
  }

  predicate AreAccesses(line: seq<Instr>) {
    forall i | 0 <= i < |line| :: IsAccess(line[i])
  }

  function Address(instr: Instr): Value
    requires IsAccess(instr)
  {
    if IsSizedLoad(instr.op) then instr.operands[0] else instr.operands[1]
  }

  function Bytes(instr: Instr): nat {
    if IsSizedLoad(instr.op) then LoadWidth(instr.op, instr.ty) else StoreWidth(instr.op, instr.ty)
  }

  function HeldAll(at: map<Value, Word>, operands: seq<Value>): seq<Word> {
    seq(|operands|, i requires 0 <= i < |operands| => Held(at, operands[i]))
  }

  /** The line may run from mem to end with these results, where names stand for what `at` says. */
  ghost predicate LineRun(m: Machine, line: seq<Instr>, at: map<Value, Word>, mem: Memory, results: seq<Word>,
                          end: Memory)
  {
    if line == [] then results == [] && end == mem
    else results != [] && exists mid: Memory ::
      m.sem(line[0].op, line[0].ty, HeldAll(at, line[0].operands), mem, results[0], mid)
      && LineRun(m, line[1..], at, mid, results[1..], end)
  }

  /** Whatever the names stand for and memory holds, the line loads and leaves the same without its first store. */
  ghost predicate Unnoticed(line: seq<Instr>)
    requires line != []
  {
    forall at: map<Value, Word>, mem: Memory, results: seq<Word>, end: Memory ::
      LineRun(ByteMachine(), line, at, mem, [Word(0, 0)] + results, end)
      <==> LineRun(ByteMachine(), line[1..], at, mem, results, end)
  }

  // ----- What the line does

  /** The memory after one access. */
  function Next(instr: Instr, at: map<Value, Word>, mem: Memory): Memory
    requires IsAccess(instr)
  {
    if IsSizedLoad(instr.op) then mem else AfterOne(instr, at, mem)
  }

  function Result(instr: Instr, at: map<Value, Word>, mem: Memory): Word
    requires IsAccess(instr)
  {
    if IsSizedLoad(instr.op) then
      Word(instr.ty, Extended(instr.op, instr.ty, LoadBytes(mem, Held(at, Address(instr)).bits, Bytes(instr))))
    else Word(0, 0)
  }

  lemma OneAccess(instr: Instr, at: map<Value, Word>, mem: Memory, w: Word, mem': Memory)
    requires IsAccess(instr)
    ensures ByteMachine().sem(instr.op, instr.ty, HeldAll(at, instr.operands), mem, w, mem')
            <==> w == Result(instr, at, mem) && mem' == Next(instr, at, mem)
  {
    hide StoreBytes, LoadBytes, StoreWidth;
  }

  function Results(line: seq<Instr>, at: map<Value, Word>, mem: Memory): (results: seq<Word>)
    requires AreAccesses(line)
    ensures |results| == |line|
  {
    if line == [] then [] else [Result(line[0], at, mem)] + Results(line[1..], at, Next(line[0], at, mem))
  }

  function End(line: seq<Instr>, at: map<Value, Word>, mem: Memory): Memory
    requires AreAccesses(line)
  {
    if line == [] then mem else End(line[1..], at, Next(line[0], at, mem))
  }

  lemma {:induction false} LineRuns(line: seq<Instr>, at: map<Value, Word>, mem: Memory, results: seq<Word>,
                                    end: Memory)
    requires AreAccesses(line)
    ensures LineRun(ByteMachine(), line, at, mem, results, end)
            <==> results == Results(line, at, mem) && end == End(line, at, mem)
    decreases |line|
  {
    hide ByteMachine, IsAccess, Result, Next;
    if line != [] {
      var next := Next(line[0], at, mem);
      if results != [] {
        forall mid: Memory
          ensures ByteMachine().sem(line[0].op, line[0].ty, HeldAll(at, line[0].operands), mem, results[0], mid)
                  <==> results[0] == Result(line[0], at, mem) && mid == next
        {
          OneAccess(line[0], at, mem, results[0], mid);
        }
        LineRuns(line[1..], at, next, results[1..], end);
        assert results == [results[0]] + results[1..];
      }
    }
  }

  // ----- The condition

  /** Store s, made after `first`, decides all that the load reads: by its own name, or over all of `first`. */
  predicate Decides(s: Instr, first: Instr, load: Instr)
    requires IsAccess(s) && IsSizedStore(first) && IsPlainLoad(load)
  {
    IsSizedStore(s) && ((Address(s) == Address(load) && Bytes(s) >= Bytes(load))
                        || (Address(s) == Address(first) && Bytes(s) >= Bytes(first)))
  }

  /** The load reads nothing, or some store after the first decides what it reads. */
  ghost predicate Guarded(line: seq<Instr>, i: nat)
    requires AreAccesses(line) && 0 < i < |line| && IsSizedStore(line[0]) && IsPlainLoad(line[i])
  {
    Bytes(line[i]) == 0 || exists j :: 0 < j < i && Decides(line[j], line[0], line[i])
  }

  /** A later store to the same name is at least as wide. */
  ghost predicate Covered(line: seq<Instr>)
    requires AreAccesses(line) && line != [] && IsSizedStore(line[0])
  {
    exists j :: 0 < j < |line| && IsSizedStore(line[j]) && Address(line[j]) == Address(line[0])
       && Bytes(line[j]) >= Bytes(line[0])
  }

  ghost predicate Harmless(line: seq<Instr>)
    requires AreAccesses(line) && line != [] && IsSizedStore(line[0])
  {
    Bytes(line[0]) == 0 || (Covered(line) && forall i: nat | 0 < i < |line| && IsPlainLoad(line[i]) :: Guarded(line, i))
  }

  // ----- Enough

  ghost predicate SameAt(mem: Memory, mem': Memory, x: nat) {
    (x in mem <==> x in mem') && (x in mem ==> mem[x] == mem'[x])
  }

  predicate Writes(instr: Instr, at: map<Value, Word>, x: nat)
    requires IsAccess(instr)
  {
    IsSizedStore(instr) && Held(at, Address(instr)).bits <= x < Held(at, Address(instr)).bits + Bytes(instr)
  }

  /** The memories agree but for bytes of the first store that none of the first n accesses has written. */
  ghost predicate AgreeSince(line: seq<Instr>, n: nat, at: map<Value, Word>, mem: Memory, mem': Memory)
    requires AreAccesses(line) && 0 < n <= |line|
  {
    forall x: nat | !Writes(line[0], at, x) || (exists j :: 0 < j < n && Writes(line[j], at, x)) :: SameAt(mem, mem', x)
  }

  lemma AccessBothSides(instr: Instr, at: map<Value, Word>, mem: Memory, mem': Memory, x: nat)
    requires IsAccess(instr) && (SameAt(mem, mem', x) || Writes(instr, at, x))
    ensures SameAt(Next(instr, at, mem), Next(instr, at, mem'), x)
  {
    hide StoreBytes, StoreWidth;
    if !IsSizedLoad(instr.op) {
      var a, v, n := Held(at, Address(instr)).bits, Held(at, instr.operands[0]).bits, Bytes(instr);
      if a <= x < a + n {
        StoreHere(mem, mem', a, v, n, x);
      } else {
        StoreElsewhere(mem, a, v, n, x);
        StoreElsewhere(mem', a, v, n, x);
      }
    }
  }

  lemma AgreeNext(line: seq<Instr>, n: nat, at: map<Value, Word>, mem: Memory, mem': Memory)
    requires AreAccesses(line) && 0 < n < |line| && AgreeSince(line, n, at, mem, mem')
    ensures AgreeSince(line, n + 1, at, Next(line[n], at, mem), Next(line[n], at, mem'))
  {
    hide Writes, Next, SameAt, IsAccess;
    forall x: nat | !Writes(line[0], at, x) || (exists j :: 0 < j < n + 1 && Writes(line[j], at, x))
      ensures SameAt(Next(line[n], at, mem), Next(line[n], at, mem'), x)
    {
      AccessBothSides(line[n], at, mem, mem', x);
    }
  }

  lemma {:induction false} LoadAlike(mem: Memory, mem': Memory, a: nat, n: nat)
    requires forall x: nat | a <= x < a + n :: SameAt(mem, mem', x)
    ensures LoadBytes(mem, a, n) == LoadBytes(mem', a, n)
    decreases n
  {
    if n > 0 {
      assert SameAt(mem, mem', a);
      LoadAlike(mem, mem', a + 1, n - 1);
    }
  }

  /** The load reads nothing that the first store wrote. */
  ghost predicate Misses(line: seq<Instr>, i: nat, at: map<Value, Word>)
    requires AreAccesses(line) && 0 < i < |line|
  {
    forall x: nat | Held(at, Address(line[i])).bits <= x < Held(at, Address(line[i])).bits + Bytes(line[i]) ::
      !Writes(line[0], at, x)
  }

  lemma GuardedAlike(line: seq<Instr>, n: nat, at: map<Value, Word>, mem: Memory, mem': Memory)
    requires AreAccesses(line) && 0 < n < |line| && IsSizedStore(line[0]) && AgreeSince(line, n, at, mem, mem')
    requires IsPlainLoad(line[n]) ==> Guarded(line, n) || Misses(line, n, at)
    ensures Result(line[n], at, mem) == Result(line[n], at, mem')
  {
    hide StoreWidth, LoadBytes;
    if IsPlainLoad(line[n]) {
      var a, w := Held(at, Address(line[n])).bits, Bytes(line[n]);
      if w > 0 && Guarded(line, n) {
        var j :| 0 < j < n && Decides(line[j], line[0], line[n]);
        forall x: nat | a <= x < a + w
          ensures SameAt(mem, mem', x)
        {
          assert Writes(line[j], at, x) || !Writes(line[0], at, x);
        }
      }
      LoadAlike(mem, mem', a, w);
    }
  }

  lemma {:induction false} RestAlike(line: seq<Instr>, n: nat, at: map<Value, Word>, mem: Memory, mem': Memory)
    requires AreAccesses(line) && 0 < n <= |line| && IsSizedStore(line[0]) && AgreeSince(line, n, at, mem, mem')
    requires Covered(line)
    requires forall i: nat | 0 < i < |line| && IsPlainLoad(line[i]) :: Guarded(line, i) || Misses(line, i, at)
    ensures AreAccesses(line[n..])
    ensures Results(line[n..], at, mem) == Results(line[n..], at, mem')
    ensures End(line[n..], at, mem) == End(line[n..], at, mem')
    decreases |line| - n
  {
    hide Guarded, Misses, Result, Next, IsAccess, AgreeSince;
    if n == |line| {
      CoveredAgree(line, at, mem, mem');
    } else {
      GuardedAlike(line, n, at, mem, mem');
      AgreeNext(line, n, at, mem, mem');
      RestAlike(line, n + 1, at, Next(line[n], at, mem), Next(line[n], at, mem'));
      assert line[n..][1..] == line[n + 1..] && line[n..][0] == line[n];
    }
  }

  lemma CoveredAgree(line: seq<Instr>, at: map<Value, Word>, mem: Memory, mem': Memory)
    requires AreAccesses(line) && line != [] && IsSizedStore(line[0]) && Covered(line)
    requires AgreeSince(line, |line|, at, mem, mem')
    ensures mem == mem'
  {
    hide StoreWidth;
    var j :| 0 < j < |line| && IsSizedStore(line[j]) && Address(line[j]) == Address(line[0])
       && Bytes(line[j]) >= Bytes(line[0]);
    forall x: nat
      ensures SameAt(mem, mem', x)
    {
      assert !Writes(line[0], at, x) || Writes(line[j], at, x);
    }
    hide AgreeSince;
    assert forall x: nat :: SameAt(mem, mem', x);
    SameEverywhere(mem, mem');
  }

  lemma SameEverywhere(mem: Memory, mem': Memory)
    requires forall x: nat :: SameAt(mem, mem', x)
    ensures mem == mem'
  {
    forall x: nat
      ensures (x in mem <==> x in mem') && (x in mem ==> mem[x] == mem'[x])
    {
      assert SameAt(mem, mem', x);
    }
  }

  /** Covered, and not read where the names stand, the first store makes no difference. */
  lemma CoveredUnnoticed(line: seq<Instr>, at: map<Value, Word>, mem: Memory)
    requires AreAccesses(line) && line != [] && IsSizedStore(line[0])
    requires Bytes(line[0]) == 0 || Covered(line)
    requires Bytes(line[0]) == 0
          || forall i: nat | 0 < i < |line| && IsPlainLoad(line[i]) :: Guarded(line, i) || Misses(line, i, at)
    ensures AreAccesses(line[1..])
    ensures Results(line[1..], at, Next(line[0], at, mem)) == Results(line[1..], at, mem)
    ensures End(line[1..], at, Next(line[0], at, mem)) == End(line[1..], at, mem)
  {
    var next := Next(line[0], at, mem);
    if Bytes(line[0]) == 0 {
      assert next == mem;
    } else {
      forall x: nat | !Writes(line[0], at, x)
        ensures SameAt(next, mem, x)
      {
        StoreElsewhere(mem, Held(at, Address(line[0])).bits, Held(at, line[0].operands[0]).bits, Bytes(line[0]), x);
      }
      hide Next, Writes, Covered, Guarded;
      assert AgreeSince(line, 1, at, next, mem);
      RestAlike(line, 1, at, next, mem);
    }
  }

  lemma HarmlessUnnoticed(line: seq<Instr>, at: map<Value, Word>, mem: Memory)
    requires AreAccesses(line) && line != [] && IsSizedStore(line[0]) && Harmless(line)
    ensures AreAccesses(line[1..])
    ensures Results(line[1..], at, Next(line[0], at, mem)) == Results(line[1..], at, mem)
    ensures End(line[1..], at, Next(line[0], at, mem)) == End(line[1..], at, mem)
  {
    CoveredUnnoticed(line, at, mem);
  }

  // ----- And needed

  /** Storing and setting another byte in either order. */
  lemma {:induction false} StoreBeside(mem: Memory, x: nat, b: nat, a: nat, v: nat, n: nat)
    requires !(a <= x < a + n)
    ensures StoreBytes(mem[x := b], a, v, n) == StoreBytes(mem, a, v, n)[x := b]
    decreases n
  {
    if n > 0 {
      assert mem[x := b][a := v % 256] == mem[a := v % 256][x := b];
      StoreBeside(mem[a := v % 256], x, b, a + 1, v / 256, n - 1);
    }
  }

  lemma {:induction false} LoadDiffers(mem: Memory, x: nat, b: nat, a: nat, n: nat)
    requires a <= x < a + n && x in mem && mem[x] % 256 != b % 256
    ensures LoadBytes(mem, a, n) != LoadBytes(mem[x := b], a, n)
    decreases n
  {
    if x == a {
      var mem' := mem[x := b];
      forall y: nat | a + 1 <= y < a + n
        ensures SameAt(mem, mem', y)
      {
      }
      LoadAlike(mem, mem', a + 1, n - 1);
    } else {
      LoadDiffers(mem, x, b, a + 1, n - 1);
    }
  }

  /** Until a byte is written it makes the same difference. */
  lemma NextBeside(instr: Instr, at: map<Value, Word>, mem: Memory, x: nat, b: nat)
    requires IsAccess(instr) && !Writes(instr, at, x) && x in mem
    ensures Next(instr, at, mem[x := b]) == Next(instr, at, mem)[x := b]
    ensures x in Next(instr, at, mem) && Next(instr, at, mem)[x] == mem[x]
  {
    hide StoreBytes, StoreWidth;
    if !IsSizedLoad(instr.op) {
      StoreBeside(mem, x, b, Held(at, Address(instr)).bits, Held(at, instr.operands[0]).bits, Bytes(instr));
      StoreElsewhere(mem, Held(at, Address(instr)).bits, Held(at, instr.operands[0]).bits, Bytes(instr), x);
    }
  }

  /** The load at i reads the byte. */
  lemma {:induction false} ReadDiffers(line: seq<Instr>, i: nat, at: map<Value, Word>, mem: Memory, x: nat, b: nat)
    requires AreAccesses(line) && i < |line| && IsPlainLoad(line[i]) && x in mem && mem[x] % 256 != b % 256
    requires forall j | 0 <= j < i :: !Writes(line[j], at, x)
    requires Held(at, Address(line[i])).bits <= x < Held(at, Address(line[i])).bits + Bytes(line[i])
    ensures Results(line, at, mem) != Results(line, at, mem[x := b])
    decreases i
  {
    hide Next, Writes, LoadBytes;
    if i == 0 {
      LoadDiffers(mem, x, b, Held(at, Address(line[0])).bits, Bytes(line[0]));
      assert Results(line, at, mem)[0] != Results(line, at, mem[x := b])[0];
    } else {
      NextBeside(line[0], at, mem, x, b);
      ReadDiffers(line[1..], i - 1, at, Next(line[0], at, mem), x, b);
      assert Results(line, at, mem)[1..] == Results(line[1..], at, Next(line[0], at, mem));
      assert Results(line, at, mem[x := b])[1..] == Results(line[1..], at, Next(line[0], at, mem[x := b]));
    }
  }

  /** The byte is there in the end. */
  lemma {:induction false} EndDiffers(line: seq<Instr>, at: map<Value, Word>, mem: Memory, x: nat, b: nat)
    requires AreAccesses(line) && x in mem && mem[x] != b
    requires forall j | 0 <= j < |line| :: !Writes(line[j], at, x)
    ensures x in End(line, at, mem) && End(line, at, mem)[x] == mem[x]
    ensures End(line, at, mem) != End(line, at, mem[x := b])
    decreases |line|
  {
    hide Next, Writes;
    if line != [] {
      NextBeside(line[0], at, mem, x, b);
      EndDiffers(line[1..], at, Next(line[0], at, mem), x, b);
    }
  }

  lemma StoreIs(store: Instr, at: map<Value, Word>, mem: Memory)
    requires IsSizedStore(store)
    ensures IsAccess(store) && !IsSizedLoad(store.op) && Bytes(store) == StoreWidth(store.op, store.ty)
    ensures |store.operands| == 2 && Address(store) == store.operands[1]
    ensures Next(store, at, mem) == StoreBytes(mem, Held(at, Address(store)).bits, Held(at, store.operands[0]).bits,
                                               Bytes(store))
  {
    hide StoreBytes, StoreWidth;
  }

  lemma NextByte(y: nat)
    ensures (y + 1) % 256 != y % 256
  {
  }

  /** A memory that holds what the first store writes, but for one byte. */
  lemma ByteChanged(first: Instr, at: map<Value, Word>, x: nat) returns (mem: Memory, b: nat)
    requires IsSizedStore(first) && Writes(first, at, x)
    ensures x in Next(first, at, mem) && Next(first, at, mem)[x] % 256 != b % 256
    ensures mem == Next(first, at, mem)[x := b]
  {
    StoreIs(first, at, map[]);
    var a, v, n := Held(at, Address(first)).bits, Held(at, first.operands[0]).bits, Bytes(first);
    assert a <= x < a + n;
    hide *;
    var full := StoreBytes(map[], a, v, n);
    StoreHere(map[], map[], a, v, n, x);
    NextByte(full[x]);
    b := full[x] + 1;
    mem := full[x := b];
    forall y: nat
      ensures SameAt(StoreBytes(mem, a, v, n), full, y)
    {
      StoredAgain(mem, x, b, a, v, n, y);
    }
    SameEverywhere(StoreBytes(mem, a, v, n), full);
    StoreIs(first, at, mem);
  }

  lemma StoredAgain(mem: Memory, x: nat, b: nat, a: nat, v: nat, n: nat, y: nat)
    requires a <= x < a + n && mem == StoreBytes(map[], a, v, n)[x := b]
    ensures SameAt(StoreBytes(mem, a, v, n), StoreBytes(map[], a, v, n), y)
  {
    hide StoreBytes;
    if a <= y < a + n {
      StoreHere(mem, map[], a, v, n, y);
    } else {
      StoreElsewhere(mem, a, v, n, y);
    }
  }

  function Farthest(line: seq<Instr>): (n: nat)
    ensures forall i | 0 <= i < |line| :: Bytes(line[i]) <= n
  {
    if line == [] then 0
    else
      var n, rest := Bytes(line[0]), Farthest(line[1..]);
      assert forall i | 0 < i < |line| :: line[i] == line[1..][i - 1];
      if n > rest then n else rest
  }

  /** Where the first store and a load may be so that the load reads a byte of it that no store between writes. */
  lemma Meet(line: seq<Instr>, i: nat) returns (at: map<Value, Word>, x: nat)
    requires AreAccesses(line) && 0 < i < |line| && IsSizedStore(line[0]) && IsPlainLoad(line[i]) && !Guarded(line, i)
    requires Bytes(line[0]) > 0
    ensures Writes(line[0], at, x) && forall j | 0 < j < i :: !Writes(line[j], at, x)
    ensures Held(at, Address(line[i])).bits <= x < Held(at, Address(line[i])).bits + Bytes(line[i])
  {
    hide StoreWidth;
    var p, q, n, w, far := Address(line[0]), Address(line[i]), Bytes(line[0]), Bytes(line[i]), Farthest(line);
    if p == q {
      at, x := map[p := Word(64, far)], far + (if n < w then n else w) - 1;
    } else {
      at, x := map[p := Word(64, far + w), q := Word(64, far + n)], far + n + w - 1;
    }
    forall j | 0 < j < i
      ensures !Writes(line[j], at, x)
    {
      assert !Decides(line[j], line[0], line[i]);
    }
  }

  lemma Apart(line: seq<Instr>) returns (at: map<Value, Word>, x: nat)
    requires AreAccesses(line) && line != [] && IsSizedStore(line[0]) && Bytes(line[0]) > 0 && !Covered(line)
    ensures Writes(line[0], at, x) && forall j | 0 < j < |line| :: !Writes(line[j], at, x)
  {
    hide StoreWidth;
    var far := Farthest(line);
    at, x := map[Address(line[0]) := Word(64, far)], far + Bytes(line[0]) - 1;
  }

  lemma RestMisses(line: seq<Instr>, n: nat, at: map<Value, Word>, x: nat)
    requires AreAccesses(line) && 0 < n <= |line| && forall j | 0 < j < n :: !Writes(line[j], at, x)
    ensures IsAccess(line[0]) && AreAccesses(line[1..]) && forall j | 0 <= j < n - 1 :: !Writes(line[1..][j], at, x)
  {
    hide Writes, IsAccess;
  }

  lemma MissedInTheEnd(line: seq<Instr>) returns (at: map<Value, Word>, mem: Memory)
    requires AreAccesses(line) && line != [] && IsSizedStore(line[0]) && Bytes(line[0]) > 0 && !Covered(line)
    ensures AreAccesses(line[1..])
    ensures End(line[1..], at, Next(line[0], at, mem)) != End(line[1..], at, mem)
  {
    hide *;
    var x, b: nat;
    at, x := Apart(line);
    mem, b := ByteChanged(line[0], at, x);
    RestMisses(line, |line|, at, x);
    EndDiffers(line[1..], at, Next(line[0], at, mem), x, b);
  }

  lemma MissedByLoad(line: seq<Instr>, i: nat) returns (at: map<Value, Word>, mem: Memory)
    requires AreAccesses(line) && 0 < i < |line| && IsSizedStore(line[0]) && Bytes(line[0]) > 0
    requires IsPlainLoad(line[i]) && !Guarded(line, i)
    ensures AreAccesses(line[1..])
    ensures Results(line[1..], at, Next(line[0], at, mem)) != Results(line[1..], at, mem)
  {
    hide *;
    var x, b: nat;
    at, x := Meet(line, i);
    mem, b := ByteChanged(line[0], at, x);
    RestMisses(line, i, at, x);
    ReadDiffers(line[1..], i - 1, at, Next(line[0], at, mem), x, b);
  }

  /** Names and a memory with which the first store is missed. */
  lemma Missed(line: seq<Instr>) returns (at: map<Value, Word>, mem: Memory)
    requires AreAccesses(line) && line != [] && IsSizedStore(line[0]) && !Harmless(line)
    ensures AreAccesses(line[1..])
    ensures Results(line[1..], at, Next(line[0], at, mem)) != Results(line[1..], at, mem)
         || End(line[1..], at, Next(line[0], at, mem)) != End(line[1..], at, mem)
  {
    hide Writes, Next, Guarded, Covered, IsAccess, Bytes, Results, End;
    if !Covered(line) {
      at, mem := MissedInTheEnd(line);
    } else {
      var i: nat :| 0 < i < |line| && IsPlainLoad(line[i]) && !Guarded(line, i);
      at, mem := MissedByLoad(line, i);
    }
  }

  lemma FirstRuns(line: seq<Instr>, at: map<Value, Word>, mem: Memory, results: seq<Word>, end: Memory)
    requires AreAccesses(line) && line != [] && IsSizedStore(line[0])
    ensures AreAccesses(line[1..])
    ensures LineRun(ByteMachine(), line, at, mem, [Word(0, 0)] + results, end)
            <==> results == Results(line[1..], at, Next(line[0], at, mem))
                 && end == End(line[1..], at, Next(line[0], at, mem))
    ensures LineRun(ByteMachine(), line[1..], at, mem, results, end)
            <==> results == Results(line[1..], at, mem) && end == End(line[1..], at, mem)
  {
    hide LineRun, ByteMachine, Next;
    LineRuns(line, at, mem, [Word(0, 0)] + results, end);
    LineRuns(line[1..], at, mem, results, end);
    assert ([Word(0, 0)] + results)[1..] == results;
    assert Results(line, at, mem)[1..] == Results(line[1..], at, Next(line[0], at, mem));
    assert Results(line, at, mem)[0] == Word(0, 0);
    assert Results(line, at, mem) == [Word(0, 0)] + Results(line[1..], at, Next(line[0], at, mem));
  }

  /**
   The first store may be left out, whatever the names stand for and memory holds, exactly when
   it writes nothing, or a later store to its name is at least as wide and each load reads
   nothing or comes after a store that decides what it reads.
   */
  lemma UnnoticedExactly(line: seq<Instr>)
    requires AreAccesses(line) && line != [] && IsSizedStore(line[0])
    ensures Unnoticed(line) <==> Harmless(line)
  {
    hide LineRun, ByteMachine, Next, Harmless, Results, End, IsAccess;
    if Harmless(line) {
      forall at: map<Value, Word>, mem: Memory, results: seq<Word>, end: Memory
        ensures LineRun(ByteMachine(), line, at, mem, [Word(0, 0)] + results, end)
                <==> LineRun(ByteMachine(), line[1..], at, mem, results, end)
      {
        FirstRuns(line, at, mem, results, end);
        HarmlessUnnoticed(line, at, mem);
      }
    } else {
      var at, mem := Missed(line);
      var results, end := Results(line[1..], at, mem), End(line[1..], at, mem);
      FirstRuns(line, at, mem, results, end);
      assert LineRun(ByteMachine(), line[1..], at, mem, results, end);
    }
  }
}
