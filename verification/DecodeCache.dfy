/**
  The decoded-instruction cache of the PDP-11 emulator (the fetch at the head of
  run1 in 7run/PDP11/VM.inst.cpp), and when executing with the cache is executing
  with fresh decoding: with a split image always, otherwise as long as no store
  hits the bytes from which an instruction was decoded.
 */
module DecodeCache {
  import opened PdpDecode
  import opened PdpMachine

  /** A decoder that looks at no more than the extent of what it makes. */
  ghost predicate Local(decode: (seq<int>, nat) -> OpCode) {
    forall t, t': seq<int>, a: nat :: SameOn(t, t', a, Extent(decode(t, a))) ==> Agree(decode, t, t', a)
  }

  /** Every instruction has a length. */
  ghost predicate Decodes(decode: (seq<int>, nat) -> OpCode) {
    forall t: seq<int>, a: nat :: !decode(t, a).Empty()
  }

  predicate Agree(decode: (seq<int>, nat) -> OpCode, t: seq<int>, t': seq<int>, a: nat) {
    decode(t, a) == decode(t', a)
  }

  /** How instructions are decoded, what they do up to their store, and what they do. */
  datatype Emulator = Emulator(decode: (seq<int>, nat) -> OpCode, begin: (Machine, OpCode) -> Done,
      exec: (Machine, OpCode) -> Machine)

  ghost predicate Stores(begin: (Machine, OpCode) -> Done, exec: (Machine, OpCode) -> Machine) {
    forall m: Machine, op: OpCode :: StoresAt(begin, exec, m, op)
  }

  predicate StoresAt(begin: (Machine, OpCode) -> Done, exec: (Machine, OpCode) -> Machine, m: Machine, op: OpCode) {
    MemKept(m, begin(m, op).m) && exec(m, op) == Store(begin(m, op))
  }

  type SoundEmulator = e: Emulator | Local(e.decode) && Decodes(e.decode)
      && Stores(e.begin, e.exec) ghost witness IdleIsSound()

  function UndefinedAt(t: seq<int>, a: nat): OpCode {
    UndefOp
  }

  function Idle(m: Machine, op: OpCode): Done {
    NoStore(m)
  }

  function IdleStored(m: Machine, op: OpCode): Machine {
    Store(Idle(m, op))
  }

  ghost function IdleIsSound(): (e: Emulator)
    ensures Local(e.decode) && Decodes(e.decode) && Stores(e.begin, e.exec)
  {
    assert forall m: Machine, op: OpCode :: StoresAt(Idle, IdleStored, m, op);
    Emulator(UndefinedAt, Idle, IdleStored)
  }

  /** run1 without a cache. */
  function Step(emu: SoundEmulator, m: Machine): Machine {
    emu.exec(m, emu.decode(m.text, m.Pc()))
  }

  /** run2 for at most n instructions, without a cache. */
  function Run(emu: SoundEmulator, m: Machine, n: nat): Machine {
    if n == 0 then m
    else
      var before := Run(emu, m, n - 1);
      if before.exited then before else Step(emu, before)
  }

  // -------------------------------------------------------------------- cache

  datatype Cached = Cached(m: Machine, cache: seq<OpCode>)

  /** run1 with a cache: what is there is taken, whatever the text is now. */
  function CachedStep(emu: SoundEmulator, s: Cached): (s': Cached)
    requires |s.cache| == SIZE
    ensures |s'.cache| == SIZE
  {
    var pc := s.m.Pc();
    var entry := if s.cache[pc].Empty() then emu.decode(s.m.text, pc) else s.cache[pc];
    Cached(emu.exec(s.m, entry), s.cache[pc := entry])
  }

  function CachedRun(emu: SoundEmulator, m: Machine, n: nat): (s: Cached)
    ensures |s.cache| == SIZE
  {
    if n == 0 then Cached(m, seq(SIZE, _ => NoOp))
    else
      var before := CachedRun(emu, m, n - 1);
      if before.m.exited then before else CachedStep(emu, before)
  }

  class VM {
    const emu: SoundEmulator
    const cache: array<OpCode>
    var m: Machine

    constructor (emu: SoundEmulator, m: Machine)
      ensures this.emu == emu && fresh(cache) && cache.Length == SIZE && Now() == CachedRun(emu, m, 0)
    {
      this.emu, this.m := emu, m;
      cache := new OpCode[SIZE](_ => NoOp);
    }

    ghost function Now(): Cached
      reads this, cache
    {
      Cached(m, cache[..])
    }

    /** The source's run1 with its cache. */
    method Run1()
      requires cache.Length == SIZE
      modifies this, cache
      ensures Now() == CachedStep(emu, old(Now()))
    {
      var pc := m.Pc();
      ghost var was := cache[..];
      if cache[pc].Empty() { cache[pc] := emu.decode(m.text, pc); }
      assert cache[..] == was[pc := cache[pc]];
      m := emu.exec(m, cache[pc]);
    }

    /** The source's run2, for n instructions at most. */
    method Run2(n: nat, ghost m0: Machine)
      requires cache.Length == SIZE && Now() == CachedRun(emu, m0, 0)
      modifies this, cache
      ensures Now() == CachedRun(emu, m0, n)
    {
      var k := 0;
      while k < n && !m.exited
        invariant 0 <= k <= n && Now() == CachedRun(emu, m0, k)
      {
        Run1();
        k := k + 1;
      }
      if k < n { StoppedUntil(emu, m0, k, n - k); }
    }
  }

  ghost predicate StoppedAt(emu: SoundEmulator, m: Machine, k: nat, n: nat) {
    CachedRun(emu, m, n) == CachedRun(emu, m, k)
  }

  lemma {:induction false} StoppedUntil(emu: SoundEmulator, m: Machine, k: nat, d: nat)
    requires CachedRun(emu, m, k).m.exited
    ensures StoppedAt(emu, m, k, k + d)
    decreases d
  {
    if d > 0 { StoppedUntil(emu, m, k, d - 1); }
  }

  // ---------------------------------------------------------------- the entries

  /** The entry that step k of the run with the cache uses. */
  function EntryUsed(emu: SoundEmulator, s: Cached): OpCode
    requires |s.cache| == SIZE
  {
    if s.cache[s.m.Pc()].Empty() then emu.decode(s.m.text, s.m.Pc()) else s.cache[s.m.Pc()]
  }

  /** Is it what would be decoded now? */
  ghost predicate UsesFresh(emu: SoundEmulator, m: Machine, k: nat) {
    var s := CachedRun(emu, m, k);
    !s.m.exited ==> EntryUsed(emu, s) == emu.decode(s.m.text, s.m.Pc())
  }

  ghost predicate AllFresh(emu: SoundEmulator, m: Machine, n: nat) {
    forall k :: 0 <= k < n ==> UsesFresh(emu, m, k)
  }

  /** What is decoded at the place where step i is, when step k comes, in the run without a cache. */
  function DecodedAt(emu: SoundEmulator, m: Machine, i: nat, k: nat): OpCode {
    emu.decode(Run(emu, m, k).text, Run(emu, m, i).Pc())
  }

  /** If step k executes what step i has executed, is it still the same instruction? */
  ghost predicate Again(emu: SoundEmulator, m: Machine, i: nat, k: nat) {
    !Run(emu, m, k).exited && Run(emu, m, i).Pc() == Run(emu, m, k).Pc() ==>
      DecodedAt(emu, m, i, k) == DecodedAt(emu, m, i, i)
  }

  /** Whatever is executed again in the first n steps still decodes as it did before. */
  ghost predicate Stable(emu: SoundEmulator, m: Machine, n: nat) {
    forall i, k :: 0 <= i < k < n ==> Again(emu, m, i, k)
  }

  /** Entry a is what was decoded at some step before n. */
  ghost predicate EntryFrom(emu: SoundEmulator, m: Machine, n: nat, entry: OpCode, a: nat) {
    exists i :: 0 <= i < n && MadeAt(emu, m, i, entry, a)
  }

  ghost predicate MadeAt(emu: SoundEmulator, m: Machine, i: nat, entry: OpCode, a: nat) {
    !Run(emu, m, i).exited && Run(emu, m, i).Pc() == a && entry == DecodedAt(emu, m, i, i)
  }

  /** The cache has an entry for every address that was executed, and for no other. */
  ghost predicate CacheIs(emu: SoundEmulator, m: Machine, n: nat, cache: seq<OpCode>) {
    && |cache| == SIZE
    && (forall a :: 0 <= a < SIZE && !cache[a].Empty() ==> EntryFrom(emu, m, n, cache[a], a))
    && forall i :: 0 <= i < n && !Run(emu, m, i).exited ==> !cache[Run(emu, m, i).Pc()].Empty()
  }

  /** The run with the cache has come as far as the one without. */
  ghost predicate KeepsUp(emu: SoundEmulator, m: Machine, n: nat) {
    CachedRun(emu, m, n).m == Run(emu, m, n) && CacheIs(emu, m, n, CachedRun(emu, m, n).cache)
  }

  lemma {:induction false} ExitedStays(emu: SoundEmulator, m: Machine, i: nat, n: nat)
    requires i <= n && Run(emu, m, i).exited
    ensures Run(emu, m, n) == Run(emu, m, i)
    decreases n
  {
    if i < n { ExitedStays(emu, m, i, n - 1); }
  }

  lemma {:induction false} LaterFrom(emu: SoundEmulator, m: Machine, n: nat, entry: OpCode, a: nat)
    requires EntryFrom(emu, m, n, entry, a)
    ensures EntryFrom(emu, m, n + 1, entry, a)
  {
    var i :| 0 <= i < n && MadeAt(emu, m, i, entry, a);
    assert i < n + 1 && MadeAt(emu, m, i, entry, a);
  }

  /** Step n uses what is decoded afresh exactly if that is what was decoded there before. */
  lemma {:induction false} FreshHere(emu: SoundEmulator, m: Machine, n: nat)
    requires KeepsUp(emu, m, n) && Stable(emu, m, n)
    ensures UsesFresh(emu, m, n) <==> forall i :: 0 <= i < n ==> Again(emu, m, i, n)
  {
    var s := CachedRun(emu, m, n);
    var pc := s.m.Pc();
    if !s.m.exited {
      if s.cache[pc].Empty() {
        forall i | 0 <= i < n ensures Again(emu, m, i, n) {
          if Run(emu, m, i).exited { ExitedStays(emu, m, i, n); }
        }
      } else {
        var i :| 0 <= i < n && MadeAt(emu, m, i, s.cache[pc], pc);
        if UsesFresh(emu, m, n) {
          forall j | 0 <= j < n ensures Again(emu, m, j, n) {
            if Run(emu, m, j).Pc() == pc { SameBefore(emu, m, n, i, j); }
          }
        } else {
          assert !Again(emu, m, i, n);
        }
      }
    }
  }

  lemma {:induction false} SameBefore(emu: SoundEmulator, m: Machine, n: nat, i: nat, j: nat)
    requires Stable(emu, m, n) && i < n && j < n && Run(emu, m, i).Pc() == Run(emu, m, j).Pc()
    requires !Run(emu, m, n).exited
    ensures DecodedAt(emu, m, i, i) == DecodedAt(emu, m, j, j)
  {
    if Run(emu, m, i).exited { ExitedStays(emu, m, i, n); }
    if Run(emu, m, j).exited { ExitedStays(emu, m, j, n); }
    if i < j { assert Again(emu, m, i, j); } else if j < i { assert Again(emu, m, j, i); }
  }

  lemma {:induction false} KeepsUpNext(emu: SoundEmulator, m: Machine, n: nat)
    requires KeepsUp(emu, m, n) && UsesFresh(emu, m, n)
    ensures KeepsUp(emu, m, n + 1)
  {
    var s := CachedRun(emu, m, n);
    if s.m.exited {
      forall a | 0 <= a < SIZE && !s.cache[a].Empty() ensures EntryFrom(emu, m, n + 1, s.cache[a], a) {
        LaterFrom(emu, m, n, s.cache[a], a);
      }
    } else {
      NextCache(emu, m, n, s.cache);
    }
  }

  lemma {:induction false} NextCache(emu: SoundEmulator, m: Machine, n: nat, cache: seq<OpCode>)
    requires CacheIs(emu, m, n, cache) && !Run(emu, m, n).exited
    ensures var pc := Run(emu, m, n).Pc(); CacheIs(emu, m, n + 1, cache[pc := DecodedAt(emu, m, n, n)])
  {
    var pc, entry := Run(emu, m, n).Pc(), DecodedAt(emu, m, n, n);
    var next := cache[pc := entry];
    forall a | 0 <= a < SIZE && !next[a].Empty() ensures EntryFrom(emu, m, n + 1, next[a], a) {
      if a == pc { assert MadeAt(emu, m, n, entry, pc); } else { LaterFrom(emu, m, n, cache[a], a); }
    }
  }

  lemma {:induction false} StableLast(emu: SoundEmulator, m: Machine, n: nat)
    ensures Stable(emu, m, n + 1) <==> Stable(emu, m, n) && forall i :: 0 <= i < n ==> Again(emu, m, i, n)
    ensures AllFresh(emu, m, n + 1) <==> AllFresh(emu, m, n) && UsesFresh(emu, m, n)
  {
  }

  lemma {:induction false} FreshNext(emu: SoundEmulator, m: Machine, n: nat)
    requires AllFresh(emu, m, n) <==> Stable(emu, m, n)
    requires Stable(emu, m, n) ==> KeepsUp(emu, m, n)
    ensures AllFresh(emu, m, n + 1) <==> Stable(emu, m, n + 1)
    ensures Stable(emu, m, n + 1) ==> KeepsUp(emu, m, n + 1)
  {
    StableLast(emu, m, n);
    if Stable(emu, m, n) {
      FreshHere(emu, m, n);
      if UsesFresh(emu, m, n) { KeepsUpNext(emu, m, n); }
    }
  }

  /**
    The run with the cache always uses what fresh decoding gives exactly if whatever
    is executed again still decodes as it did before; and then the two runs are the same.
   */
  lemma {:induction false} FreshExactly(emu: SoundEmulator, m: Machine, n: nat)
    ensures AllFresh(emu, m, n) <==> Stable(emu, m, n)
    ensures Stable(emu, m, n) ==> KeepsUp(emu, m, n)
    decreases n
  {
    if n == 0 {
      NothingYet(emu, m);
    } else {
      FreshExactly(emu, m, n - 1);
      FreshNext(emu, m, n - 1);
    }
  }

  lemma {:induction false} NothingYet(emu: SoundEmulator, m: Machine)
    ensures AllFresh(emu, m, 0) && Stable(emu, m, 0) && KeepsUp(emu, m, 0)
  {
  }

  // ----------------------------------------------------- bytes that stay the same

  /** The bytes from which the instruction at a was decoded are the same. */
  ghost predicate Untouched(emu: SoundEmulator, text: seq<int>, text': seq<int>, a: nat) {
    SameOn(text, text', a, Extent(emu.decode(text, a)))
  }

  /** In the run without a cache, step n leaves the bytes of all instructions that were executed up to then alone. */
  ghost predicate Clean(emu: SoundEmulator, m: Machine, n: nat) {
    forall i :: 0 <= i <= n ==> CleanAt(emu, m, i, n)
  }

  ghost predicate CleanAt(emu: SoundEmulator, m: Machine, i: nat, n: nat) {
    Untouched(emu, Run(emu, m, n).text, Run(emu, m, n + 1).text, Run(emu, m, i).Pc())
  }

  /** The store that the next step makes. */
  function NextStore(emu: SoundEmulator, m: Machine): Done {
    if m.exited then NoStore(m) else emu.begin(m, emu.decode(m.text, m.Pc()))
  }

  predicate Apart(d: Done, a: nat, n: nat) {
    |d.bytes| == 0 || d.at + |d.bytes| <= a || a + n <= d.at
  }

  /** The store of step n is apart from the bytes of the instruction that step i executed. */
  ghost predicate StoreMisses(emu: SoundEmulator, m: Machine, i: nat, n: nat) {
    Apart(NextStore(emu, Run(emu, m, n)), Run(emu, m, i).Pc(),
        Extent(emu.decode(Run(emu, m, n).text, Run(emu, m, i).Pc())))
  }

  lemma {:induction false} PutApart(t: seq<int>, d: Done, a: nat, n: nat)
    requires Apart(d, a, n)
    ensures SameOn(t, Put(t, d.at, d.bytes), a, n)
  {
  }

  lemma {:induction false} StepStores(emu: SoundEmulator, m: Machine)
    ensures var d := NextStore(emu, m); MemKept(m, d.m)
    ensures !m.exited ==> Step(emu, m) == Store(NextStore(emu, m))
  {
    assert StoresAt(emu.begin, emu.exec, m, emu.decode(m.text, m.Pc()));
  }

  lemma {:induction false} MissesIsClean(emu: SoundEmulator, m: Machine, n: nat)
    requires m.split || forall i :: 0 <= i <= n ==> StoreMisses(emu, m, i, n)
    ensures Clean(emu, m, n)
  {
    SplitText(emu, m, n);
    SplitText(emu, m, n + 1);
    forall i | 0 <= i <= n ensures CleanAt(emu, m, i, n) {
      var now := Run(emu, m, n);
      var a := Run(emu, m, i).Pc();
      if !m.split && !now.exited {
        assert StoreMisses(emu, m, i, n);
        StepStores(emu, now);
        PutApart(now.text, NextStore(emu, now), a, Extent(emu.decode(now.text, a)));
      }
    }
  }

  lemma {:induction false} SplitText(emu: SoundEmulator, m: Machine, n: nat)
    ensures var m' := Run(emu, m, n); m'.split == m.split && (m.split ==> m'.text == m.text)
    decreases n
  {
    if n > 0 {
      SplitText(emu, m, n - 1);
      StepStores(emu, Run(emu, m, n - 1));
    }
  }

  lemma {:induction false} DecodesSame(emu: SoundEmulator, m: Machine, i: nat, k: nat)
    requires i <= k && forall j :: i <= j < k ==> CleanAt(emu, m, i, j)
    ensures DecodedAt(emu, m, i, k) == DecodedAt(emu, m, i, i)
    decreases k
  {
    if i < k {
      DecodesSame(emu, m, i, k - 1);
      assert CleanAt(emu, m, i, k - 1);
      assert Agree(emu.decode, Run(emu, m, k - 1).text, Run(emu, m, k).text, Run(emu, m, i).Pc());
    }
  }

  /** If no step touches the bytes of what was executed, everything decodes as before. */
  lemma {:induction false} CleanIsStable(emu: SoundEmulator, m: Machine, n: nat)
    requires forall k :: 0 <= k < n ==> Clean(emu, m, k)
    ensures Stable(emu, m, n)
  {
    forall i, k | 0 <= i < k < n ensures Again(emu, m, i, k) {
      forall j | i <= j < k ensures CleanAt(emu, m, i, j) { assert Clean(emu, m, j); }
      DecodesSame(emu, m, i, k);
    }
  }

  /** Every store of the first n steps is apart from the bytes of every instruction that was executed up to it. */
  ghost predicate StoresMiss(emu: SoundEmulator, m: Machine, n: nat) {
    forall k :: 0 <= k < n ==> StoreMissesAll(emu, m, k)
  }

  ghost predicate StoreMissesAll(emu: SoundEmulator, m: Machine, k: nat) {
    forall i :: 0 <= i <= k ==> StoreMisses(emu, m, i, k)
  }

  /** Running with the cache is running with fresh decoding, if the image is split or no store hits what was decoded. */
  lemma {:induction false} MissesIsFresh(emu: SoundEmulator, m: Machine, n: nat)
    requires m.split || StoresMiss(emu, m, n)
    ensures Stable(emu, m, n) && AllFresh(emu, m, n) && CachedRun(emu, m, n).m == Run(emu, m, n)
  {
    forall k | 0 <= k < n ensures Clean(emu, m, k) {
      if !m.split { assert StoreMissesAll(emu, m, k); }
      MissesIsClean(emu, m, k);
    }
    CleanIsStable(emu, m, n);
    FreshExactly(emu, m, n);
  }

  predicate RunsAs(others: Others, e: Emulator, m: Machine, op: OpCode) {
    e.begin(m, op) == Begin(others, m, op) && e.exec(m, op) == Store(Begin(others, m, op))
  }

  /** The emulator for the PDP-11. */
  ghost function Pdp11(others: Others): (e: SoundEmulator)
    ensures e.decode == Decode
    ensures forall m: Machine, op: OpCode :: RunsAs(others, e, m, op)
  {
    DecodeIsLocal();
    DecodeIsWhole();
    var begin: (Machine, OpCode) -> Done := (m: Machine, op: OpCode) => Begin(others, m, op);
    var exec: (Machine, OpCode) -> Machine := (m: Machine, op: OpCode) => Store(Begin(others, m, op));
    assert forall m: Machine, op: OpCode :: StoresAt(begin, exec, m, op);
    var e := Emulator(Decode, begin, exec);
    assert forall m: Machine, op: OpCode :: RunsAs(others, e, m, op);
    e
  }

  lemma {:induction false} DecodeIsWhole()
    ensures Decodes(Decode)
  {
  }

  lemma {:induction false} DecodeIsLocal()
    ensures Local(Decode)
  {
    forall t, t': seq<int>, a: nat | SameOn(t, t', a, Extent(Decode(t, a))) ensures Agree(Decode, t, t', a) {
      DecodeLocal(t, t', a);
    }
  }

  /** run2 with the cache, of any program. */
  method RunCached(emu: SoundEmulator, m: Machine, n: nat) returns (m': Machine)
    ensures m' == CachedRun(emu, m, n).m
    ensures Stable(emu, m, n) ==> m' == Run(emu, m, n)
  {
    var vm := new VM(emu, m);
    vm.Run2(n, m);
    m' := vm.m;
    FreshExactly(emu, m, n);
  }
}
