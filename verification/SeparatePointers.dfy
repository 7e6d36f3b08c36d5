/**
 Lines of stores and loads by pointers that do not overlap, on the byte machine: exactly when
 a store may be left out, and that the scan for dead stores then changes nothing that is
 loaded, nor memory.
 */
module SeparatePointers {
  import opened IR
  import opened Erasure
  import opened DeadCode
  import opened DeadStores
  import opened DeadStoreChains
  import opened ByteMemory
  import opened DeadStoreLines
  import opened AliasedLoads

  predicate NoOverlap(a: Instr, b: Instr, at: map<Value, Word>)
    requires IsAccess(a) && IsAccess(b)
  {
    || Held(at, Address(a)).bits + Bytes(a) <= Held(at, Address(b)).bits
    || Held(at, Address(b)).bits + Bytes(b) <= Held(at, Address(a)).bits
  }

  /** Accesses by different names touch different bytes. */
  ghost predicate Separate(line: seq<Instr>, at: map<Value, Word>)
    requires AreAccesses(line)
  {
    forall i, j | 0 <= i < |line| && 0 <= j < |line| && Address(line[i]) != Address(line[j]) ::
      NoOverlap(line[i], line[j], at)
  }

  /** Without its first store the line loads and leaves the same, wherever its names stand apart. */
  ghost predicate UnnoticedApart(line: seq<Instr>)
    requires AreAccesses(line) && line != []
  {
    forall at: map<Value, Word>, mem: Memory, results: seq<Word>, end: Memory | Separate(line, at) ::
      LineRun(ByteMachine(), line, at, mem, [Word(0, 0)] + results, end)
      <==> LineRun(ByteMachine(), line[1..], at, mem, results, end)
  }

  /** A later store to the name is wide enough, and loads by the name come after stores that decide what they read. */
  ghost predicate HarmlessApart(line: seq<Instr>)
    requires AreAccesses(line) && line != [] && IsSizedStore(line[0])
  {
    || Bytes(line[0]) == 0
    || (Covered(line)
        && forall i: nat | 0 < i < |line| && IsPlainLoad(line[i]) && Address(line[i]) == Address(line[0]) ::
             Guarded(line, i))
  }

  // ----- Enough

  lemma ApartMisses(line: seq<Instr>, i: nat, at: map<Value, Word>)
    requires AreAccesses(line) && 0 < i < |line| && Separate(line, at) && Address(line[i]) != Address(line[0])
    ensures Misses(line, i, at)
  {
    assert NoOverlap(line[0], line[i], at);
  }

  lemma ApartUnnoticed(line: seq<Instr>, at: map<Value, Word>, mem: Memory)
    requires AreAccesses(line) && line != [] && IsSizedStore(line[0]) && HarmlessApart(line) && Separate(line, at)
    ensures AreAccesses(line[1..])
    ensures Results(line[1..], at, Next(line[0], at, mem)) == Results(line[1..], at, mem)
    ensures End(line[1..], at, Next(line[0], at, mem)) == End(line[1..], at, mem)
  {
    hide Misses, Guarded, Covered, Separate, IsAccess, Bytes, Next, Results, End;
    if Bytes(line[0]) != 0 {
      forall i: nat | 0 < i < |line| && IsPlainLoad(line[i])
        ensures Guarded(line, i) || Misses(line, i, at)
      {
        if Address(line[i]) != Address(line[0]) { ApartMisses(line, i, at); }
      }
    }
    CoveredUnnoticed(line, at, mem);
  }

  // ----- And needed

  /** Each name at a multiple of the gap, that of its last access. */
  function Spread(line: seq<Instr>, gap: nat): map<Value, Word>
    requires AreAccesses(line)
  {
    if line == [] then map[]
    else Spread(line[..|line| - 1], gap)[Address(Last(line)) := Word(64, |line| * gap)]
  }

  lemma {:induction false} SpreadAt(line: seq<Instr>, gap: nat, i: nat) returns (k: nat)
    requires AreAccesses(line) && i < |line|
    ensures k < |line| && Address(line[k]) == Address(line[i])
    ensures Held(Spread(line, gap), Address(line[i])) == Word(64, (k + 1) * gap)
    decreases |line|
  {
    hide *;
    SpreadNext(line, gap);
    if Address(line[i]) == Address(Last(line)) {
      k := |line| - 1;
      HeldNow(Spread(line[..k], gap), Address(line[i]), Word(64, |line| * gap), Address(line[i]));
    } else {
      assert i < |line| - 1;
      k := SpreadAt(line[..|line| - 1], gap, i);
      HeldNow(Spread(line[..|line| - 1], gap), Address(Last(line)), Word(64, |line| * gap), Address(line[i]));
    }
  }

  lemma SpreadNext(line: seq<Instr>, gap: nat)
    requires AreAccesses(line) && line != []
    ensures AreAccesses(line[..|line| - 1]) && IsAccess(Last(line)) && Last(line) == line[|line| - 1]
    ensures forall i | 0 <= i < |line| :: IsAccess(line[i])
    ensures Spread(line, gap) == Spread(line[..|line| - 1], gap)[Address(Last(line)) := Word(64, |line| * gap)]
  {
    hide IsAccess, Address;
  }

  lemma HeldNow(at: map<Value, Word>, v: Value, w: Word, x: Value)
    ensures Held(at[v := w], x) == if x == v then w else Held(at, x)
  {
  }

  lemma SpreadSeparate(line: seq<Instr>)
    requires AreAccesses(line)
    ensures Separate(line, Spread(line, Farthest(line)))
  {
    var gap := Farthest(line);
    var at := Spread(line, gap);
    hide IsAccess, Bytes, Spread;
    forall i, j | 0 <= i < |line| && 0 <= j < |line| && Address(line[i]) != Address(line[j])
      ensures NoOverlap(line[i], line[j], at)
    {
      var k := SpreadAt(line, gap, i);
      var n := SpreadAt(line, gap, j);
      FurtherOn(k, n, gap);
      FurtherOn(n, k, gap);
    }
  }

  lemma {:induction false} FurtherOn(k: nat, n: nat, gap: nat)
    ensures k < n ==> (k + 1) * gap + gap <= (n + 1) * gap
    decreases n
  {
    if k < n {
      FurtherOn(k, n - 1, gap);
      assert (n + 1) * gap == n * gap + gap;
    }
  }

  /** A byte of the first store that no store before the i-th access writes, and that the i-th reads. */
  lemma OwnByte(line: seq<Instr>, at: map<Value, Word>, i: nat, n: nat) returns (x: nat)
    requires AreAccesses(line) && 0 < i <= |line| && IsSizedStore(line[0]) && Separate(line, at) && 0 < n
    requires n <= Bytes(line[0])
    requires forall j | 0 < j < i && IsSizedStore(line[j]) && Address(line[j]) == Address(line[0]) :: Bytes(line[j]) < n
    ensures x == Held(at, Address(line[0])).bits + n - 1 && Writes(line[0], at, x)
    ensures forall j | 0 < j < i :: !Writes(line[j], at, x)
  {
    hide Bytes, IsAccess;
    x := Held(at, Address(line[0])).bits + n - 1;
    forall j | 0 < j < i
      ensures !Writes(line[j], at, x)
    {
      if Address(line[j]) != Address(line[0]) { assert NoOverlap(line[0], line[j], at); }
    }
  }

  lemma MissedAtTheEnd(line: seq<Instr>, at: map<Value, Word>) returns (mem: Memory)
    requires AreAccesses(line) && line != [] && IsSizedStore(line[0]) && Bytes(line[0]) > 0 && !Covered(line)
    requires Separate(line, at)
    ensures AreAccesses(line[1..])
    ensures End(line[1..], at, Next(line[0], at, mem)) != End(line[1..], at, mem)
  {
    assert forall j | 0 < j < |line| && IsSizedStore(line[j]) && Address(line[j]) == Address(line[0]) ::
        Bytes(line[j]) < Bytes(line[0]);
    hide *;
    var b: nat;
    var x := OwnByte(line, at, |line|, Bytes(line[0]));
    mem, b := ByteChanged(line[0], at, x);
    RestMisses(line, |line|, at, x);
    EndDiffers(line[1..], at, Next(line[0], at, mem), x, b);
  }

  lemma MissedByOwnLoad(line: seq<Instr>, i: nat, at: map<Value, Word>) returns (mem: Memory)
    requires AreAccesses(line) && 0 < i < |line| && IsSizedStore(line[0]) && Bytes(line[0]) > 0
    requires IsPlainLoad(line[i]) && Address(line[i]) == Address(line[0]) && !Guarded(line, i) && Separate(line, at)
    ensures AreAccesses(line[1..])
    ensures Results(line[1..], at, Next(line[0], at, mem)) != Results(line[1..], at, mem)
  {
    var n := if Bytes(line[i]) < Bytes(line[0]) then Bytes(line[i]) else Bytes(line[0]);
    forall j | 0 < j < i && IsSizedStore(line[j]) && Address(line[j]) == Address(line[0])
      ensures Bytes(line[j]) < n
    {
      assert !Decides(line[j], line[0], line[i]);
    }
    assert n > 0;
    hide *;
    var b: nat;
    var x := OwnByte(line, at, i, n);
    mem, b := ByteChanged(line[0], at, x);
    RestMisses(line, i, at, x);
    ReadDiffers(line[1..], i - 1, at, Next(line[0], at, mem), x, b);
  }

  lemma MissedApart(line: seq<Instr>) returns (at: map<Value, Word>, mem: Memory)
    requires AreAccesses(line) && line != [] && IsSizedStore(line[0]) && !HarmlessApart(line)
    ensures AreAccesses(line[1..]) && Separate(line, at)
    ensures Results(line[1..], at, Next(line[0], at, mem)) != Results(line[1..], at, mem)
         || End(line[1..], at, Next(line[0], at, mem)) != End(line[1..], at, mem)
  {
    at := Spread(line, Farthest(line));
    SpreadSeparate(line);
    hide Separate, Spread, Next, Guarded, Covered, IsAccess, Bytes, Results, End;
    if !Covered(line) {
      mem := MissedAtTheEnd(line, at);
    } else {
      var i: nat :| 0 < i < |line| && IsPlainLoad(line[i]) && Address(line[i]) == Address(line[0]) && !Guarded(line, i);
      mem := MissedByOwnLoad(line, i, at);
    }
  }

  /**
   Where pointers of different names do not overlap, the first store of a line may be left out
   exactly when it writes nothing, or a later store to its name is at least as wide and each load
   by its name reads nothing or comes after a store that decides what it reads.
   */
  lemma UnnoticedApartExactly(line: seq<Instr>)
    requires AreAccesses(line) && line != [] && IsSizedStore(line[0])
    ensures UnnoticedApart(line) <==> HarmlessApart(line)
  {
    hide LineRun, ByteMachine, Next, HarmlessApart, Results, End, IsAccess, Separate;
    if HarmlessApart(line) {
      forall at: map<Value, Word>, mem: Memory, results: seq<Word>, end: Memory | Separate(line, at)
        ensures LineRun(ByteMachine(), line, at, mem, [Word(0, 0)] + results, end)
                <==> LineRun(ByteMachine(), line[1..], at, mem, results, end)
      {
        FirstRuns(line, at, mem, results, end);
        ApartUnnoticed(line, at, mem);
      }
    } else {
      var at, mem := MissedApart(line);
      var results, end := Results(line[1..], at, mem), End(line[1..], at, mem);
      FirstRuns(line, at, mem, results, end);
      assert LineRun(ByteMachine(), line[1..], at, mem, results, end);
    }
  }

  // ----- The scan

  ghost predicate OnlyAccesses(list: seq<Id>, code: map<Id, Instr>) {
    forall id | id in list :: id in code && IsAccess(code[id])
  }

  function Accesses(list: seq<Id>, code: map<Id, Instr>): (line: seq<Instr>)
    requires OnlyAccesses(list, code)
    ensures |line| == |list| && AreAccesses(line)
    ensures forall i | 0 <= i < |list| :: line[i] == code[list[i]]
  {
    seq(|list|, i requires 0 <= i < |list| => code[list[i]])
  }

  /** No store is followed by a narrower one to its name. */
  ghost predicate NeverNarrower(list: seq<Id>, code: map<Id, Instr>)
    requires OnlyAccesses(list, code)
  {
    forall k, j | 0 <= k < j < |list| && IsSizedStore(code[list[k]]) && IsSizedStore(code[list[j]])
      && Address(code[list[j]]) == Address(code[list[k]]) :: Bytes(code[list[j]]) >= Bytes(code[list[k]])
  }

  lemma AccessKinds(instr: Instr)
    requires IsAccess(instr)
    ensures IsSizedStore(instr) || IsPlainLoad(instr)
    ensures IsPlainLoad(instr) ==> IsLoad(instr.op) && |instr.operands| == 1 && Address(instr) == instr.operands[0]
                                   && !IsStore(instr.op) && LoadsFrom(instr, Address(instr))
    ensures IsSizedStore(instr) ==> IsStore(instr.op) && |instr.operands| == 2 && Address(instr) == instr.operands[1]
                                    && !IsLoad(instr.op) && !IsPlainLoad(instr)
  {
  }

  /** The store that the scan takes to make store k superfluous: no load by the name comes before it. */
  lemma NextOwnStore(list: seq<Id>, code: map<Id, Instr>, k: nat) returns (j: nat)
    requires OnlyAccesses(list, code) && IsDeadStore(list, code, k)
    ensures k < j < |list|
    ensures forall i: nat | i < |list| :: list[i] in code && IsAccess(code[list[i]])
    ensures IsSizedStore(code[list[k]]) && IsSizedStore(code[list[j]])
    ensures Address(code[list[j]]) == Address(code[list[k]])
    ensures forall i | k < i < j && IsPlainLoad(code[list[i]]) :: Address(code[list[i]]) != Address(code[list[k]])
  {
    var ptr := code[list[k]].operands[1];
    j :| k + 1 <= j < |list| && StoresTo(code[list[j]], ptr) && Undisturbed(list, code, k + 1, j, ptr);
    hide IsAccess, IsLoad, IsStore, IsPlainLoad, IsSizedStore, Overwritten;
    forall i: nat | i < |list|
      ensures list[i] in code && IsAccess(code[list[i]])
    {
      assert list[i] in list;
    }
    AccessKinds(code[list[k]]);
    AccessKinds(code[list[j]]);
    forall i | k < i < j && IsPlainLoad(code[list[i]])
      ensures Address(code[list[i]]) != ptr
    {
      AccessKinds(code[list[i]]);
    }
  }

  /** Where no narrower store follows, what the scan takes for dead may go. */
  lemma DeadIsHarmless(list: seq<Id>, code: map<Id, Instr>, k: nat)
    requires OnlyAccesses(list, code) && NeverNarrower(list, code) && IsDeadStore(list, code, k)
    ensures k < |list| && list[k] in code && IsSizedStore(code[list[k]])
    ensures AreAccesses(Accesses(list, code)[k..]) && HarmlessApart(Accesses(list, code)[k..])
  {
    hide IsAccess, IsPlainLoad, IsSizedStore, Bytes, Address, IsDeadStore;
    var j := NextOwnStore(list, code, k);
    var line := Accesses(list, code)[k..];
    assert line[0] == code[list[k]] && line[j - k] == code[list[j]];
    assert Covered(line);
    forall i: nat | 0 < i < |line| && IsPlainLoad(line[i]) && Address(line[i]) == Address(line[0])
      ensures Guarded(line, i)
    {
      assert line[i] == code[list[k + i]];
      KindsApart(line[i]);
      assert k + i > j;
      assert Decides(line[j - k], line[0], line[i]);
    }
  }

  lemma KindsApart(instr: Instr)
    ensures !(IsPlainLoad(instr) && IsSizedStore(instr))
  {
  }

  /** Of the listed accesses, those in the set are stores that may be left out. */
  ghost predicate MayGo(list: seq<Id>, code: map<Id, Instr>, dead: set<Id>)
    requires OnlyAccesses(list, code)
  {
    forall k: nat | k < |list| && list[k] in dead :: GoesAt(list, code, k)
  }

  ghost predicate GoesAt(list: seq<Id>, code: map<Id, Instr>, k: nat)
    requires OnlyAccesses(list, code) && k < |list|
  {
    assert list[k] in list;
    IsSizedStore(code[list[k]]) && HarmlessApart(Accesses(list, code)[k..])
  }

  /** The results of what is kept. */
  function KeepResults(list: seq<Id>, results: seq<Word>, dead: set<Id>): seq<Word>
    requires |results| == |list|
  {
    if list == [] then []
    else (if list[0] in dead then [] else [results[0]]) + KeepResults(list[1..], results[1..], dead)
  }

  /** Leaving out stores of the list that may go. */
  lemma {:induction false} LeftOutApart(list: seq<Id>, code: map<Id, Instr>, dead: set<Id>, at: map<Value, Word>,
                                        mem: Memory)
    requires OnlyAccesses(list, code) && Separate(Accesses(list, code), at)
    requires MayGo(list, code, dead)
    ensures OnlyAccesses(Keep(list, dead), code)
    ensures var kept, line := Accesses(Keep(list, dead), code), Accesses(list, code);
            && Results(kept, at, mem) == KeepResults(list, Results(line, at, mem), dead)
            && End(kept, at, mem) == End(line, at, mem)
    decreases |list|
  {
    KeepMembers(list, dead);
    if list != [] {
      var id, rest := list[0], list[1..];
      var line := Accesses(list, code);
      assert list == [id] + rest;
      RestOf(list, code, dead, at);
      hide *;
      var next := if id in dead then mem else Next(code[id], at, mem);
      LeftOutApart(rest, code, dead, at, next);
      FirstOf(list, code, at, mem);
      KeptFirst(list, code, dead);
      if id in dead {
        FirstGoes(list, code, dead);
        ApartUnnoticed(line, at, mem);
      } else {
        FirstOf(Keep(list, dead), code, at, mem);
      }
      KeptResultsFirst(list, Results(line, at, mem), dead);
    } else {
      assert Keep(list, dead) == [];
    }
  }

  lemma FirstAccess(list: seq<Id>, code: map<Id, Instr>)
    requires OnlyAccesses(list, code) && list != []
    ensures list[0] in code && IsAccess(code[list[0]]) && OnlyAccesses(list[1..], code)
    ensures Accesses(list[1..], code) == Accesses(list, code)[1..]
  {
    hide IsAccess;
    assert list[0] in list;
    assert forall id | id in list[1..] :: id in list;
    assert Accesses(list[1..], code) == Accesses(list, code)[1..];
  }

  lemma SeparateRest(line: seq<Instr>, at: map<Value, Word>)
    requires AreAccesses(line) && Separate(line, at) && line != []
    ensures AreAccesses(line[1..]) && Separate(line[1..], at)
  {
    hide IsAccess, NoOverlap, Address;
    var rest := line[1..];
    assert forall i | 0 <= i < |rest| :: rest[i] == line[i + 1];
  }

  lemma RestOf(list: seq<Id>, code: map<Id, Instr>, dead: set<Id>, at: map<Value, Word>)
    requires OnlyAccesses(list, code) && Separate(Accesses(list, code), at) && list != []
    requires MayGo(list, code, dead)
    ensures list[0] in code && IsAccess(code[list[0]]) && OnlyAccesses(list[1..], code)
    ensures Accesses(list[1..], code) == Accesses(list, code)[1..] && Separate(Accesses(list[1..], code), at)
    ensures MayGo(list[1..], code, dead)
  {
    var line, rest := Accesses(list, code), list[1..];
    hide IsAccess, IsSizedStore, HarmlessApart, NoOverlap, Address;
    FirstAccess(list, code);
    SeparateRest(line, at);
    hide Separate, OnlyAccesses, AreAccesses;
    forall k: nat | k < |rest| && rest[k] in dead
      ensures GoesAt(rest, code, k)
    {
      assert rest[k] == list[k + 1] && line[1..][k..] == line[k + 1..];
      assert GoesAt(list, code, k + 1);
    }
  }

  lemma FirstOf(list: seq<Id>, code: map<Id, Instr>, at: map<Value, Word>, mem: Memory)
    requires OnlyAccesses(list, code) && list != []
    ensures list[0] in code && IsAccess(code[list[0]]) && OnlyAccesses(list[1..], code)
    ensures var line, rest := Accesses(list, code), Accesses(list[1..], code);
            && line != [] && line[0] == code[list[0]] && rest == line[1..]
            && Results(line, at, mem)
               == [Result(code[list[0]], at, mem)] + Results(rest, at, Next(code[list[0]], at, mem))
            && End(line, at, mem) == End(rest, at, Next(code[list[0]], at, mem))
  {
    hide IsAccess, Result, Next;
    FirstAccess(list, code);
  }

  lemma FirstGoes(list: seq<Id>, code: map<Id, Instr>, dead: set<Id>)
    requires OnlyAccesses(list, code) && MayGo(list, code, dead) && list != [] && list[0] in dead
    ensures var line := Accesses(list, code); line != [] && IsSizedStore(line[0]) && HarmlessApart(line)
  {
    hide IsAccess, IsSizedStore, HarmlessApart;
    assert GoesAt(list, code, 0) && Accesses(list, code)[0..] == Accesses(list, code);
  }

  lemma KeptFirst(list: seq<Id>, code: map<Id, Instr>, dead: set<Id>)
    requires list != []
    ensures list[0] in dead ==> Keep(list, dead) == Keep(list[1..], dead)
    ensures list[0] !in dead ==>
              Keep(list, dead) != [] && Keep(list, dead)[0] == list[0] && Keep(list, dead)[1..] == Keep(list[1..], dead)
  {
  }

  lemma KeptResultsFirst(list: seq<Id>, results: seq<Word>, dead: set<Id>)
    requires |results| == |list| && list != []
    ensures KeepResults(list, results, dead)
         == (if list[0] in dead then [] else [results[0]]) + KeepResults(list[1..], results[1..], dead)
  {
  }

  /**
   The scan for dead stores over stores and loads by pointers that do not overlap: where no store
   is followed by a narrower one to its name, everything that stays loads what it did, and memory
   ends the same.
   */
  lemma ScanKeepsLoads(list: seq<Id>, code: map<Id, Instr>, at: map<Value, Word>, mem: Memory)
    requires OnlyAccesses(list, code) && NeverNarrower(list, code) && Separate(Accesses(list, code), at)
    requires forall i, j | 0 <= i < j < |list| :: list[i] != list[j]
    ensures var dead := DeadStoresFrom(list, code, 0);
            && OnlyAccesses(Keep(list, dead), code)
            && var kept, line := Accesses(Keep(list, dead), code), Accesses(list, code);
               && Results(kept, at, mem) == KeepResults(list, Results(line, at, mem), dead)
               && End(kept, at, mem) == End(line, at, mem)
  {
    hide IsDeadStore, DeadStoresFrom, HarmlessApart, NeverNarrower, Separate, IsAccess, IsSizedStore, Keep, Results,
         End;
    forall k: nat | k < |list| && list[k] in DeadStoresFrom(list, code, 0)
      ensures GoesAt(list, code, k)
    {
      DeadHere(list, code, k);
      DeadIsHarmless(list, code, k);
    }
    LeftOutApart(list, code, DeadStoresFrom(list, code, 0), at, mem);
  }
}
