/**
  Not everything in core: the second pass reads each module again and writes its
  sections out, as a whole or, if there is no room, block by block (handle_relos
  in Ack-5.5/ld/finish.c, wrt_nulls in Ack-5.5/ld/write.c).
 */
module ReRead {
  import opened Bytes
  import opened Names
  import opened Relocation
  import opened LinkModel
  import opened LinkAppend
  import opened TwoSteps
  import opened Strategies
  import opened Pieces
  import opened Relocating
  import opened EntryFormat
  import opened NameFormat
  import opened Placement
  import opened WriteLog
  import ObjectWriter

  const BUFSIZ := 1024

  // ------------------------------------------------------ one block of bytes

  lemma BlockNext(env: Env, m: Module, origin: seq<int>, i: nat, s: nat, off: nat, n: nat)
    requires i < |m.relos|
    ensures var r := m.relos[i];
      BlockPatches(env, m, origin, m.relos[..i + 1], s, off, n) ==
        if InBlock(r, s, off, n)
        then BlockPatches(env, m, origin, m.relos[..i], s, off, n) + [From(PatchOf(env, m, origin, r), off)]
        else BlockPatches(env, m, origin, m.relos[..i], s, off, n)
    ensures OnBlock(m.relos[..i + 1], s, off, n) ==
      if InBlock(m.relos[i], s, off, n) then OnBlock(m.relos[..i], s, off, n) + [m.relos[i]]
          else OnBlock(m.relos[..i], s, off, n)
  {
    PrefixLast(m.relos, i);
  }

  lemma WholeNext(env: Env, m: Module, origin: seq<int>, i: nat, s: nat)
    requires i < |m.relos|
    ensures var r := m.relos[i];
      PatchesOn(env, m, origin, m.relos[..i + 1], s) ==
        if r.sect == s then PatchesOn(env, m, origin, m.relos[..i], s) + [PatchOf(env, m, origin, r)]
        else PatchesOn(env, m, origin, m.relos[..i], s)
    ensures OnSection(m.relos[..i + 1], s) ==
      if m.relos[i].sect == s then OnSection(m.relos[..i], s) + [m.relos[i]] else OnSection(m.relos[..i], s)
  {
    PrefixLast(m.relos, i);
  }

  /** The buffer after the changes ps. */
  ghost predicate Changed(was: seq<byte>, ps: seq<Patch>, is_: seq<byte>) {
    AllWithin(ps, |was|) && is_ == ApplyAll(was, ps)
  }

  lemma ChangedNext(was: seq<byte>, ps: seq<Patch>, is_: seq<byte>, p: Patch, next: seq<byte>)
    requires Changed(was, ps, is_) && p.Within(|was|) && next == Apply(is_, p)
    ensures Changed(was, ps + [p], next)
  {
    ApplyAllLast(was, ps, p);
  }

  /** The entries rs, as they are for the output. */
  ghost predicate Rewrote(env: Env, m: Module, origin: seq<int>, rs: seq<Relo>, news: seq<Relo>) {
    news == NewRelosOf(env, m, origin, rs)
  }

  lemma RewroteNext(env: Env, m: Module, origin: seq<int>, rs: seq<Relo>, news: seq<Relo>, r: Relo, r': Relo)
    requires Rewrote(env, m, origin, rs, news) && r' == NewRelo(env, m, origin, r)
    ensures Rewrote(env, m, origin, rs + [r], news + [r'])
  {
  }

  /** Is the datum of this entry in the block? */
  predicate InBlock(r: Relo, s: nat, off: nat, n: nat) {
    r.sect == s && off <= r.addr < off + n
  }

  lemma ClearInBlock(m: Module, i: nat, s: nat, off: nat, n: nat)
    requires WellFormed(m) && i < |m.relos| && Clear(m.relos, s, off + n) && InBlock(m.relos[i], s, off, n)
    ensures m.relos[i].t.Legal() && m.relos[i].addr - off + m.relos[i].t.size <= n
  {
    assert ReloOk(m.relos[i], m);
  }

  /** The buffer and the rewritten entries when the first i entries have been seen. */
  ghost predicate BlockDone(env: Env, m: Module, origin: seq<int>, s: nat, off: nat, n: nat, i: nat, was: seq<byte>,
      is_: seq<byte>, news: seq<Relo>) {
    && i <= |m.relos|
    && Changed(was, BlockPatches(env, m, origin, m.relos[..i], s, off, n), is_)
    && Rewrote(env, m, origin, OnBlock(m.relos[..i], s, off, n), news)
  }

  lemma BlockDoneHere(env: Env, m: Module, origin: seq<int>, s: nat, off: nat, n: nat, i: nat,
                      was: seq<byte>, is_: seq<byte>, news: seq<Relo>, next: seq<byte>, r': Relo)
    requires i < |m.relos| && BlockDone(env, m, origin, s, off, n, i, was, is_, news) && InBlock(m.relos[i], s, off, n)
    requires var p := From(PatchOf(env, m, origin, m.relos[i]), off); p.Within(|was|) && next == Apply(is_, p)
    requires r' == NewRelo(env, m, origin, m.relos[i])
    ensures BlockDone(env, m, origin, s, off, n, i + 1, was, next, news + [r'])
  {
    BlockNext(env, m, origin, i, s, off, n);
    ChangedNext(was, BlockPatches(env, m, origin, m.relos[..i], s, off, n), is_,
        From(PatchOf(env, m, origin, m.relos[i]), off), next);
    RewroteNext(env, m, origin, OnBlock(m.relos[..i], s, off, n), news, m.relos[i], r');
  }

  lemma BlockDoneElsewhere(env: Env, m: Module, origin: seq<int>, s: nat, off: nat, n: nat, i: nat, was: seq<byte>,
      is_: seq<byte>, news: seq<Relo>)
    requires i < |m.relos| && BlockDone(env, m, origin, s, off, n, i, was, is_, news) && !InBlock(m.relos[i], s, off, n)
    ensures BlockDone(env, m, origin, s, off, n, i + 1, was, is_, news)
  {
    BlockNext(env, m, origin, i, s, off, n);
  }

  lemma BlockDoneStart(env: Env, m: Module, origin: seq<int>, s: nat, off: nat, n: nat, was: seq<byte>)
    ensures BlockDone(env, m, origin, s, off, n, 0, was, was, [])
  {
    assert m.relos[..0] == [];
  }

  lemma BlockDoneEnd(env: Env, m: Module, origin: seq<int>, s: nat, off: nat, n: nat, was: seq<byte>, is_: seq<byte>,
      news: seq<Relo>)
    requires BlockDone(env, m, origin, s, off, n, |m.relos|, was, is_, news)
    ensures Changed(was, BlockPatches(env, m, origin, m.relos, s, off, n), is_)
    ensures news == NewRelosOf(env, m, origin, OnBlock(m.relos, s, off, n))
  {
    assert m.relos[..|m.relos|] == m.relos;
  }

  /** Relocate the block of n bytes from byte off of section s on. */
  method RelocateBlock(env: Env, m: Module, origin: seq<int>, buf: array<byte>, s: nat, off: nat, n: nat)
      returns (news: seq<Relo>)
    requires WellFormed(m) && n <= buf.Length && Clear(m.relos, s, off + n)
    modifies buf
    ensures Changed(old(buf[..]), BlockPatches(env, m, origin, m.relos, s, off, n), buf[..])
    ensures news == NewRelosOf(env, m, origin, OnBlock(m.relos, s, off, n))
  {
    news := [];
    var i := 0;
    BlockDoneStart(env, m, origin, s, off, n, buf[..]);
    while i < |m.relos|
      invariant 0 <= i <= |m.relos| && BlockDone(env, m, origin, s, off, n, i, old(buf[..]), buf[..], news)
    {
      var r := m.relos[i];
      if r.sect == s && off <= r.addr && r.addr < off + n {
        ghost var before := buf[..];
        ClearInBlock(m, i, s, off, n);
        var r' := Relocate(env, m, origin, buf, 0, r, off);
        BlockDoneHere(env, m, origin, s, off, n, i, old(buf[..]), before, news, buf[..], r');
        news := news + [r'];
      } else {
        BlockDoneElsewhere(env, m, origin, s, off, n, i, old(buf[..]), buf[..], news);
      }
      i := i + 1;
    }
    BlockDoneEnd(env, m, origin, s, off, n, old(buf[..]), buf[..], news);
  }

  /** Relocate a section of which all bytes are in the buffer. */
  method RelocateWhole(env: Env, m: Module, origin: seq<int>, buf: array<byte>, s: nat) returns (news: seq<Relo>)
    requires WellFormed(m) && buf.Length == |DataOf(m, s)|
    modifies buf
    ensures Changed(old(buf[..]), PatchesOn(env, m, origin, m.relos, s), buf[..])
    ensures news == NewRelosOf(env, m, origin, OnSection(m.relos, s))
  {
    news := [];
    var i := 0;
    while i < |m.relos|
      invariant 0 <= i <= |m.relos|
      invariant Changed(old(buf[..]), PatchesOn(env, m, origin, m.relos[..i], s), buf[..])
      invariant Rewrote(env, m, origin, OnSection(m.relos[..i], s), news)
    {
      var r := m.relos[i];
      WholeNext(env, m, origin, i, s);
      if r.sect == s {
        ghost var before := buf[..];
        assert ReloOk(m.relos[i], m);
        var r' := Relocate(env, m, origin, buf, 0, r, 0);
        ChangedNext(old(buf[..]), PatchesOn(env, m, origin, m.relos[..i], s), before, PatchOf(env, m, origin, r),
            buf[..]);
        RewroteNext(env, m, origin, OnSection(m.relos[..i], s), news, r, r');
        news := news + [r'];
      }
      i := i + 1;
    }
    assert m.relos[..i] == m.relos;
  }

  /** Read n bytes of a section into the buffer. */
  method ReadEmit(data: seq<byte>, off: nat, n: nat, buf: array<byte>)
    requires off + n <= |data| && n <= buf.Length
    modifies buf
    ensures buf[..n] == data[off .. off + n]
  {
    var i := 0;
    while i < n
      invariant 0 <= i <= n
      invariant forall j :: 0 <= j < i ==> buf[j] == data[off + j]
    {
      buf[i] := data[off + i];
      i := i + 1;
    }
  }

  lemma ChangedFront(was: seq<byte>, ps: seq<Patch>, is_: seq<byte>, n: nat)
    requires Changed(was, ps, is_) && n <= |was| && AllWithin(ps, n)
    ensures is_[..n] == ApplyAll(was[..n], ps)
  {
    ApplyAllLeft(was[..n], was[n..], ps);
    assert was == was[..n] + was[n..];
  }

  /** Read n bytes of a section into the buffer and relocate them. */
  method ReadBlock(env: Env, m: Module, origin: seq<int>, s: nat, buf: array<byte>, off: nat, n: nat)
      returns (news: seq<Relo>)
    requires WellFormed(m) && n <= buf.Length && off + n <= |DataOf(m, s)| && Clear(m.relos, s, off + n)
    requires AllWithin(BlockPatches(env, m, origin, m.relos, s, off, n), n)
    modifies buf
    ensures buf[..n] == BlockData(env, m, origin, s, off, n)
    ensures news == NewRelosOf(env, m, origin, OnBlock(m.relos, s, off, n))
  {
    ReadEmit(DataOf(m, s), off, n, buf);
    ghost var was := buf[..];
    assert was[..n] == DataOf(m, s)[off .. off + n];
    news := RelocateBlock(env, m, origin, buf, s, off, n);
    ChangedFront(was, BlockPatches(env, m, origin, m.relos, s, off, n), buf[..], n);
    assert buf[..][..n] == buf[..n];
  }

  /** The n bytes from byte off of section s on, relocated. */
  function BlockData(env: Env, m: Module, origin: seq<int>, s: nat, off: nat, n: nat): seq<byte>
    requires off + n <= |DataOf(m, s)|
  {
    var ps := BlockPatches(env, m, origin, m.relos, s, off, n);
    if AllWithin(ps, n) then ApplyAll(DataOf(m, s)[off .. off + n], ps) else []
  }

  // ------------------------------------------------------------ one section

  /** The first `off` bytes of section s of the module, relocated. */
  function Front(env: Env, m: Module, origin: seq<int>, s: nat, off: nat): seq<byte>
    requires off <= |DataOf(m, s)|
  {
    var ps := Below(PatchesOn(env, m, origin, m.relos, s), off);
    if AllWithin(ps, off) then ApplyAll(DataOf(m, s)[..off], ps) else []
  }

  lemma FrontStart(env: Env, m: Module, origin: seq<int>, s: nat)
    requires WellFormed(m)
    ensures Front(env, m, origin, s, 0) == [] && AllAside(PatchesOn(env, m, origin, m.relos, s), 0)
  {
  }

  lemma FrontEnd(env: Env, m: Module, origin: seq<int>, s: nat)
    requires WellFormed(m)
    ensures Front(env, m, origin, s, |DataOf(m, s)|) == PatchedData(env, m, origin, s)
  {
    var ps := PatchesOn(env, m, origin, m.relos, s);
    PatchesWithin(env, m, origin, s);
    BelowAll(ps, |DataOf(m, s)|);
    assert DataOf(m, s)[..|DataOf(m, s)|] == DataOf(m, s);
  }

  lemma FrontNext(env: Env, m: Module, origin: seq<int>, s: nat, off: nat, n: nat)
    requires WellFormed(m) && off + n <= |DataOf(m, s)|
    requires AllAside(PatchesOn(env, m, origin, m.relos, s), off) && Clear(m.relos, s, off + n)
    ensures AllAside(PatchesOn(env, m, origin, m.relos, s), off + n)
    ensures AllWithin(BlockPatches(env, m, origin, m.relos, s, off, n), n)
    ensures Front(env, m, origin, s, off + n)
         == Front(env, m, origin, s, off) + BlockData(env, m, origin, s, off, n)
  {
    PatchesWithin(env, m, origin, s);
    ClearAside(env, m, origin, m.relos, s, off + n);
    BlockIsBetween(env, m, origin, m.relos, s, off, n);
    ApplyBlock(DataOf(m, s), PatchesOn(env, m, origin, m.relos, s), off, n);
  }

  // ------------------------------------------------------- several modules

  /** A block size for every section of every module. */
  predicate Matches(ms: seq<Module>, blks: seq<seq<nat>>) {
    |blks| == |ms| && forall k :: 0 <= k < |ms| ==> |blks[k]| == |ms[k].sects|
  }

  /** The relocation table that is written; blks says which sections were done in blocks. */
  function WrittenRelos(env: Env, ms: seq<Module>, blks: seq<seq<nat>>): seq<Relo>
    requires Matches(ms, blks)
  {
    if |ms| == 0 then []
    else
      var n := |ms| - 1;
      WrittenRelos(env, ms[..n], blks[..n]) + NewRelosOf(env, ms[n], Origins(ms[..n]), Order(ms[n], blks[n], |blks[n]|))
  }

  lemma WrittenLast(env: Env, ms: seq<Module>, blks: seq<seq<nat>>, m: Module, blk: seq<nat>)
    requires Matches(ms, blks) && |blk| == |m.sects|
    ensures WrittenRelos(env, ms + [m], blks + [blk]) == WrittenRelos(env, ms, blks)
        + NewRelosOf(env, m, Origins(ms), Order(m, blk, |blk|))
  {
    assert (ms + [m])[..|ms|] == ms && (blks + [blk])[..|ms|] == blks;
  }

  // ---------------------------------------------------------------- the visits

  /** The zeros that are owed to section s. */
  function Gap(env: Env, ms: seq<Module>, s: nat): nat {
    var n := |Content(env, ms, s)|;
    if n < Origin(ms, s) then Origin(ms, s) - n else 0
  }

  /** What module m brings to section s after the modules ms. */
  function Portion(env: Env, ms: seq<Module>, m: Module, s: nat): seq<byte> {
    Zeros(Gap(env, ms, s)) + PatchedData(env, m, Origins(ms), s)
  }

  /** What the modules ms and the first n sections of m bring, one section after the other. */
  function BroughtUpTo(env: Env, ms: seq<Module>, m: Module, n: nat): seq<Visit>
    decreases |ms|, n + 1
  {
    if n == 0 then BroughtBy(env, ms)
    else if |DataOf(m, n - 1)| > 0 then BroughtUpTo(env, ms, m, n - 1) + [Visit(n - 1, Portion(env, ms, m, n - 1))]
    else BroughtUpTo(env, ms, m, n - 1)
  }

  /** What the modules bring, module by module. */
  function BroughtBy(env: Env, ms: seq<Module>): seq<Visit>
    decreases |ms|, 0
  {
    if |ms| == 0 then []
    else BroughtUpTo(env, ms[..|ms| - 1], ms[|ms| - 1], |ms[|ms| - 1].sects|)
  }

  /** The visits of the pass that reads the modules again. */
  function VisitsOf(env: Env, ms: seq<Module>): seq<Visit> {
    Merged(BroughtBy(env, ms))
  }

  /** No datum of the module lies in two blocks, in the sections that are done in blocks. */
  ghost predicate BlocksClear(m: Module, blks: seq<nat>) {
    && |blks| == |m.sects|
    && forall s :: 0 <= s < |blks| ==> blks[s] > 0 ==> NoneStraddles(m.relos, s, 0, |DataOf(m, s)|, blks[s])
  }

  // -------------------------------------------------------------- the output

  class Writer {
    /** The calls of the object writer so far; with keep, relocation entries are written. */
    var calls: seq<ObjectWriter.Call>
    const keep: bool
    /** Where the next string of a name goes in the file. */
    var offChar: nat
    var zeros: seq<nat>
    var origin: seq<int>
    /** What the calls have brought to the sections, and the entries and names that they have written. */
    ghost var track: Track
    ghost var relos: seq<Relo>
    ghost var entries: seq<seq<byte>>
    ghost var names: seq<Name>
    ghost const firstChar: nat
    ghost var recs: seq<seq<byte>>
    ghost var text: seq<byte>

    constructor (keep: bool, offChar: nat)
      ensures Log() && Named([]) && this.keep == keep && firstChar == offChar && calls == []
      ensures track == Track(seq(MAXSECT, _ => []), []) && relos == [] && names == []
      ensures zeros == seq(MAXSECT, _ => 0) && origin == Zeroes(MAXSECT)
    {
      this.keep, this.offChar, firstChar := keep, offChar, offChar;
      calls, relos, entries, names, recs, text := [], [], [], [], [], [];
      track := Track(seq(MAXSECT, _ => []), []);
      zeros := seq(MAXSECT, _ => 0);
      origin := Zeroes(MAXSECT);
      LoggedNothing();
      NoNames(offChar);
      WrittenForIs(keep, [], []);
    }

    ghost predicate Log()
      reads this`calls, this`track, this`relos, this`entries, this`recs, this`text
    {
      Logged(calls, track, entries, recs, text) && WrittenFor(keep, relos, entries)
    }

    /** The names have been written, and the strings of the names ns. */
    ghost predicate Named(ns: seq<Name>)
      reads this`names, this`offChar, this`recs, this`text
    {
      NamesAre(names, ns, firstChar, recs, text, offChar)
    }

    /** wr_outsect. */
    method OutSect(s: nat)
      requires Log() && s < MAXSECT
      modifies this`calls, this`track
      ensures Log() && track == old(track).Entered(s) && track.Here(s)
    {
      LoggedSect(calls, track, entries, recs, text, s);
      EnteredHere(track, s);
      calls := calls + [ObjectWriter.Sect(s)];
      track := track.Entered(s);
    }

    /** wr_emit. */
    method Emit(ghost s: nat, b: seq<byte>)
      requires Log() && track.Here(s)
      modifies this`calls, this`track
      ensures Log() && track == old(track).Brought(b) && track.Here(s)
    {
      LoggedEmit(calls, track, entries, recs, text, b);
      BroughtHere(track, s, b);
      calls := calls + [ObjectWriter.Emit(b)];
      track := track.Brought(b);
    }

    /** wr_relo for one entry, if entries have to be written. */
    method OutRelo(r: Relo)
      requires Log()
      modifies this`calls, this`relos, this`entries
      ensures Log() && relos == old(relos) + [r]
    {
      WrittenForLast(keep, relos, entries, r);
      if keep {
        LoggedRelos(calls, track, entries, recs, text, [EntryBytes(r)]);
        calls := calls + [ObjectWriter.Relo([EntryBytes(r)])];
        entries := entries + [EntryBytes(r)];
      }
      relos := relos + [r];
    }

    method OutRelos(news: seq<Relo>)
      requires Log()
      modifies this`calls, this`relos, this`entries
      ensures Log() && relos == old(relos) + news
    {
      var i := 0;
      assert relos + news[..0] == relos;
      while i < |news|
        invariant 0 <= i <= |news| && Log() && relos == old(relos) + news[..i]
      {
        OutRelo(news[i]);
        OneMore(old(relos), news, i);
        i := i + 1;
      }
      assert news[..i] == news;
    }

    /** The source's wrt_nulls. */
    method WriteNulls(s: nat, cnt: nat)
      requires Log() && s < MAXSECT
      modifies this`calls, this`track
      ensures Log() && track == old(track).Entered(s).Brought(Zeros(cnt)) && track.Here(s)
    {
      OutSect(s);
      EmitZeros(s, cnt);
    }

    method EmitZeros(ghost s: nat, cnt: nat)
      requires Log() && track.Here(s)
      modifies this`calls, this`track
      ensures Log() && track == old(track).Brought(Zeros(cnt)) && track.Here(s)
    {
      var left := cnt;
      BroughtHere(track, s, []);
      assert Zeros(0) == [];
      while left > 0
        invariant 0 <= left <= cnt && Log() && track == old(track).Brought(Zeros(cnt - left)) && track.Here(s)
      {
        var n := if left >= BUFSIZ then BUFSIZ else left;
        BroughtTwice(old(track), s, Zeros(cnt - left), Zeros(n));
        MoreZeros(cnt - left, n);
        Emit(s, Zeros(n));
        left := left - n;
      }
    }

    /** The source's wrt_emit. */
    method WriteEmit(s: nat, b: seq<byte>)
      requires Log() && track.Here(s)
      modifies this`calls, this`track
      ensures Log() && track == old(track).Brought(b) && track.Here(s)
    {
      EnteredHere(track, s);
      OutSect(s);
      Emit(s, b);
    }

    /** Relocate and write a section that fits in core. */
    method EmitWhole(env: Env, m: Module, s: nat)
      requires WellFormed(m) && Log() && track.Here(s)
      modifies this`calls, this`track, this`relos, this`entries
      ensures Log() && track == old(track).Brought(PatchedData(env, m, origin, s)) && track.Here(s)
      ensures relos == old(relos) + NewRelosOf(env, m, origin, OnSection(m.relos, s))
    {
      var data := DataOf(m, s);
      var buf := new byte[|data|];
      ReadEmit(data, 0, |data|, buf);
      assert buf[..] == data;
      var news := RelocateWhole(env, m, origin, buf, s);
      PatchesWithin(env, m, origin, s);
      OutRelos(news);
      WriteEmit(s, buf[..]);
    }

    /** Relocate and write one block of a section; the buffer is read anew for each. */
    method EmitBlock(env: Env, m: Module, s: nat, buf: array<byte>, off: nat, n: nat)
      requires WellFormed(m) && Log() && track.Here(s) && n <= buf.Length && off + n <= |DataOf(m, s)|
      requires AllWithin(BlockPatches(env, m, origin, m.relos, s, off, n), n) && Clear(m.relos, s, off + n)
      modifies this`calls, this`track, this`relos, this`entries, buf
      ensures Log() && track == old(track).Brought(BlockData(env, m, origin, s, off, n)) && track.Here(s)
      ensures relos == old(relos) + NewRelosOf(env, m, origin, OnBlock(m.relos, s, off, n))
    {
      var news := ReadBlock(env, m, origin, s, buf, off, n);
      OutRelos(news);
      WriteEmit(s, buf[..n]);
    }

    /** When the bytes before sf of section s have been written in blocks, after `was` and the entries wasRelos. */
    ghost predicate InBlocks(env: Env, m: Module, s: nat, sf: nat, blk: nat, done: seq<Relo>, was: Track,
        wasRelos: seq<Relo>)
      reads this`track, this`relos, this`entries, this`origin
    {
      BlocksAt(env, m, origin, s, sf, blk, done, was, wasRelos, track, relos)
    }

    /** Relocate and write the next block. */
    method NextBlock(env: Env, m: Module, s: nat, blk: nat, buf: array<byte>, sf: nat,
                     ghost done: seq<Relo>, ghost was: Track, ghost wasRelos: seq<Relo>) returns (sz2: nat)
      requires WellFormed(m) && Log() && sf < |DataOf(m, s)| && 0 < blk <= buf.Length
      requires InBlocks(env, m, s, sf, blk, done, was, wasRelos)
      modifies this`calls, this`track, this`relos, this`entries, buf
      ensures Log() && sz2 == Least(blk, |DataOf(m, s)| - sf)
      ensures InBlocks(env, m, s, sf + sz2, blk, done + OnBlock(m.relos, s, sf, sz2), was, wasRelos)
    {
      var sz := |DataOf(m, s)| - sf;
      sz2 := if sz > blk then blk else sz;
      BlocksNext(env, m, origin, s, sf, sz2, blk, done, was, wasRelos, track, relos);
      EmitBlock(env, m, s, buf, sf, sz2);
    }

    /** Relocate and write a section in blocks of blk bytes. */
    method EmitBlocks(env: Env, m: Module, s: nat, blk: nat)
      requires WellFormed(m) && Log() && track.Here(s) && blk > 0
      requires NoneStraddles(m.relos, s, 0, |DataOf(m, s)|, blk)
      modifies this`calls, this`track, this`relos, this`entries
      ensures Log() && track == old(track).Brought(PatchedData(env, m, origin, s)) && track.Here(s)
      ensures relos == old(relos) + NewRelosOf(env, m, origin, ByBlocks(m.relos, s, 0, |DataOf(m, s)|, blk))
    {
      var sf := 0;
      var buf := new byte[blk];
      ghost var done: seq<Relo> := [];
      BlocksStart(env, m, origin, s, blk, track, relos);
      while sf < |DataOf(m, s)|
        invariant 0 <= sf <= |DataOf(m, s)| && fresh(buf)
        invariant Log() && InBlocks(env, m, s, sf, blk, done, old(track), old(relos))
      {
        var sz2 := NextBlock(env, m, s, blk, buf, sf, done, old(track), old(relos));
        done := done + OnBlock(m.relos, s, sf, sz2);
        sf := sf + sz2;
      }
      BlocksEnd(env, m, origin, s, blk, done, old(track), old(relos), track, relos);
    }

    /** The zeros of the gap and the bytes of section s. */
    method EmitSection(env: Env, m: Module, s: nat, blk: nat)
      requires WellFormed(m) && Log() && s < |m.sects| && |zeros| == MAXSECT
      requires blk > 0 ==> NoneStraddles(m.relos, s, 0, |DataOf(m, s)|, blk)
      modifies this`calls, this`track, this`relos, this`entries, this`zeros
      ensures Log() && SectionPut(env, m, origin, s, old(track), old(zeros), track, zeros)
      ensures relos == old(relos) + NewRelosOf(env, m, origin, SectionOrder(m, s, blk))
    {
      if |m.sects[s].data| > 0 { EmitFull(env, m, s, blk); } else { EmitEmpty(env, m, s, blk); }
    }

    method EmitFull(env: Env, m: Module, s: nat, blk: nat)
      requires WellFormed(m) && Log() && s < |m.sects| && |zeros| == MAXSECT && |DataOf(m, s)| > 0
      requires blk > 0 ==> NoneStraddles(m.relos, s, 0, |DataOf(m, s)|, blk)
      modifies this`calls, this`track, this`relos, this`entries, this`zeros
      ensures Log() && SectionPut(env, m, origin, s, old(track), old(zeros), track, zeros)
      ensures relos == old(relos) + NewRelosOf(env, m, origin, SectionOrder(m, s, blk))
    {
      EmitBytes(env, m, s, blk);
      zeros := zeros[s := 0];
      zeros := zeros[s := zeros[s] + SizeOf(m, s) - |DataOf(m, s)|];
    }

    method EmitEmpty(env: Env, m: Module, s: nat, blk: nat)
      requires WellFormed(m) && Log() && s < |m.sects| && |zeros| == MAXSECT && |DataOf(m, s)| == 0
      modifies this`zeros
      ensures Log() && SectionPut(env, m, origin, s, track, old(zeros), track, zeros)
      ensures relos == relos + NewRelosOf(env, m, origin, SectionOrder(m, s, blk))
    {
      NoEntries(env, m, origin, s, blk, relos);
      zeros := zeros[s := zeros[s] + SizeOf(m, s)];
    }


    /** The zeros of the gap and the bytes of a section that has some. */
    method EmitBytes(env: Env, m: Module, s: nat, blk: nat)
      requires WellFormed(m) && Log() && s < MAXSECT == |zeros| && |DataOf(m, s)| > 0
      requires blk > 0 ==> NoneStraddles(m.relos, s, 0, |DataOf(m, s)|, blk)
      modifies this`calls, this`track, this`relos, this`entries
      ensures Log() && track == old(track).Put(s, Zeros(zeros[s]), PatchedData(env, m, origin, s))
      ensures relos == old(relos) + NewRelosOf(env, m, origin, SectionOrder(m, s, blk))
    {
      EnteredHere(track, s);
      WriteNulls(s, zeros[s]);
      if blk == 0 { EmitWhole(env, m, s); } else { EmitBlocks(env, m, s, blk); }
    }

    /** handle_relos for one module. */
    method HandleRelos(env: Env, m: Module, blks: seq<nat>, ghost ms: seq<Module>)
      requires WellFormed(m) && BlocksClear(m, blks)
      requires SectionsWritten(env, ms) && origin == Origins(ms)
      modifies this`calls, this`track, this`relos, this`entries, this`zeros
      ensures SectionsWritten(env, ms + [m])
      ensures relos == old(relos) + NewRelosOf(env, m, origin, Order(m, blks, |blks|))
    {
      var s := 0;
      HandledNothing(env, m, blks, ms);
      while s < |m.sects|
        invariant 0 <= s <= |m.sects| && Handled(env, m, blks, ms, s, old(relos))
      {
        HandleSection(env, m, blks, s, ms, old(relos));
        s := s + 1;
      }
      HandledAll(env, m, blks, ms, old(relos));
    }

    /** When the first s sections of m have been written, after entries `was`. */
    ghost predicate Handled(env: Env, m: Module, blks: seq<nat>, ms: seq<Module>, s: nat, was: seq<Relo>)
      reads this`calls, this`track, this`relos, this`entries, this`recs, this`text, this`zeros, this`origin
    {
      && s <= |blks| && Log() && track.visits == Merged(BroughtUpTo(env, ms, m, s))
      && HoldUpTo(Some(env), ms, m, s, track.out, zeros)
      && relos == was + NewRelosOf(env, m, origin, Order(m, blks, s))
    }

    lemma HandledAll(env: Env, m: Module, blks: seq<nat>, ms: seq<Module>, was: seq<Relo>)
      requires WellFormed(m) && |blks| == |m.sects| && Handled(env, m, blks, ms, |blks|, was)
      ensures SectionsWritten(env, ms + [m])
      ensures relos == was + NewRelosOf(env, m, origin, Order(m, blks, |blks|))
    {
      HoldUpToAll(Some(env), ms, m, track.out, zeros);
      WithLast(ms, m);
    }

    lemma HandledNothing(env: Env, m: Module, blks: seq<nat>, ms: seq<Module>)
      requires SectionsWritten(env, ms)
      ensures Handled(env, m, blks, ms, 0, relos)
    {
      PlusNothing(relos);
    }

    method HandleSection(env: Env, m: Module, blks: seq<nat>, s: nat, ghost ms: seq<Module>, ghost was: seq<Relo>)
      requires WellFormed(m) && BlocksClear(m, blks) && s < |m.sects|
      requires Handled(env, m, blks, ms, s, was) && origin == Origins(ms)
      modifies this`calls, this`track, this`relos, this`entries, this`zeros
      ensures Handled(env, m, blks, ms, s + 1, was)
    {
      ghost var before, owed := track, zeros;
      EmitSection(env, m, s, blks[s]);
      SectionHandled(env, ms, m, s, before, owed, track, zeros);
      OrderNext(env, m, origin, blks, s, was);
    }

    // names

    /** wr_string, and the place of the next string. */
    method OutText(b: seq<byte>)
      requires Log()
      modifies this`calls, this`offChar, this`text
      ensures Log() && text == old(text) + b && offChar == old(offChar) + |b|
    {
      LoggedText(calls, track, entries, recs, text, b);
      calls := calls + [ObjectWriter.Text(b)];
      text := text + b;
      offChar := offChar + |b|;
    }

    /** wr_name. */
    method OutRecords(records: seq<seq<byte>>)
      requires Log() && AllTwelve(records)
      modifies this`calls, this`recs
      ensures Log() && recs == old(recs) + records
    {
      LoggedNames(calls, track, entries, recs, text, records);
      calls := calls + [ObjectWriter.Name(records)];
      recs := recs + records;
    }

    /** The source's wrt_name, without the record. */
    method OutString(n: Name, ghost ns: seq<Name>) returns (foff: nat)
      requires Log() && Named(ns)
      modifies this`calls, this`offChar, this`text
      ensures Log() && Named(ns + [n]) && foff == FileOffset(n, old(offChar))
    {
      StringWritten(names, ns, n, firstChar, recs, text, offChar);
      if |n.str| > 0 {
        foff := offChar;
        OutText(StringOf(n));
      } else {
        PlusNothing(text);
        foff := 0;
      }
    }

    /** wr_name for names of which the strings have been written. */
    method OutNames(ns: seq<Name>, foffs: seq<nat>)
      requires Log() && Named(ns) && foffs == NewOffs(names, ns, firstChar)
      modifies this`calls, this`names, this`recs
      ensures Log() && Named([]) && names == old(names) + ns
    {
      RecordsWritten(names, ns, firstChar, recs, text, offChar);
      OutRecords(RecordsAt(ns, foffs));
      names := names + ns;
    }

    /** The string of one more name, the record of which comes later. */
    method SaveLocal(n: Name, saved: seq<Name>, foffs: seq<nat>) returns (saved': seq<Name>, foffs': seq<nat>)
      requires Log() && Named(saved) && foffs == NewOffs(names, saved, firstChar)
      modifies this`calls, this`offChar, this`text
      ensures Log() && Named(saved') && saved' == saved + [n] && foffs' == NewOffs(names, saved', firstChar)
    {
      ghost var off := offChar;
      var foff := OutString(n, saved);
      NewOffsLast(names, saved, n, firstChar, off, foffs, foff);
      saved', foffs' := saved + [n], foffs + [foff];
    }

    /** One name: saved if it is local. */
    method PutLocal(base: seq<int>, ns: seq<Name>, i: nat, was: seq<Name>, wasOffs: seq<nat>)
        returns (saved: seq<Name>, foffs: seq<nat>)
      requires i < |ns| && Log() && Named(was) && wasOffs == NewOffs(names, was, firstChar)
      requires was == Saved(ns, origin, base, i)
      modifies this`calls, this`offChar, this`text
      ensures Log() && Named(saved) && foffs == NewOffs(names, saved, firstChar)
      ensures saved == Saved(ns, origin, base, i + 1)
    {
      var n := ns[i];
      saved, foffs := was, wasOffs;
      if !n.ext && !n.sct {
        n := NameRelocate(n, origin);
        n := NameRelocate(n, base);
        saved, foffs := SaveLocal(n, was, wasOffs);
      }
      SavedNext(ns, origin, base, i, was, n, saved);
    }

    method PutStrings(base: seq<int>, ns: seq<Name>) returns (saved: seq<Name>, foffs: seq<nat>)
      requires Log() && Named([])
      modifies this`calls, this`offChar, this`text
      ensures Log() && Named(saved) && foffs == NewOffs(names, saved, firstChar)
      ensures saved == Saved(ns, origin, base, |ns|)
    {
      saved, foffs := [], [];
      var i := 0;
      while i < |ns|
        invariant 0 <= i <= |ns| && Log() && Named(saved) && foffs == NewOffs(names, saved, firstChar)
        invariant saved == Saved(ns, origin, base, i)
      {
        saved, foffs := PutLocal(base, ns, i, saved, foffs);
        i := i + 1;
      }
    }

    /** The source's put_locals. */
    method PutLocals(env: Env, m: Module)
      requires Log() && Named([])
      modifies this`calls, this`offChar, this`names, this`recs, this`text
      ensures Log() && Named([])
      ensures names == old(names) + RelocateAll(LocalsOf(RelocateAll(m.names, origin)), env.base)
    {
      SavedAll(m.names, origin, env.base);
      var saved, foffs := PutStrings(env.base, m.names);
      OutNames(saved, foffs);
    }

    /** The global names and their strings, which are in core. */
    method OutGlobals(globals: seq<Name>)
      requires Log() && Named([]) && firstChar > 0
      modifies this`calls, this`offChar, this`names, this`recs, this`text
      ensures Log() && Named([]) && names == old(names) + globals
    {
      var offs, chars := SaveNames(globals);
      GlobalsWritten(names, globals, firstChar, recs, text, offChar);
      var foffs := NameCpy(offs, offChar, globals);
      OutRecords(RecordsAt(globals, foffs));
      OutText(chars[1..]);
      names := names + globals;
    }

    /** The source's wrt_name, with the record. */
    method OutName(n: Name)
      requires Log() && Named([])
      modifies this`calls, this`offChar, this`names, this`recs, this`text
      ensures Log() && Named([]) && names == old(names) + [n]
    {
      ghost var off := offChar;
      var foff := OutString(n, []);
      NewOffsLast(names, [], n, firstChar, off, [], foff);
      assert [] + [n] == [n] && [] + [foff] == [foff];
      OutNames([n], [foff]);
    }

    /** The source's end_write. */
    method EndWrite(globals: seq<Name>, base: seq<int>, nsect: nat)
      requires Log() && Named([]) && firstChar > 0 && nsect <= |base|
      modifies this`calls, this`offChar, this`names, this`recs, this`text
      ensures Log() && Named([]) && names == old(names) + globals + SectionNames(base, nsect)
    {
      OutGlobals(globals);
      var s := 0;
      PlusNothing(names);
      assert SectionNames(base, nsect)[..0] == [];
      while s < nsect
        invariant 0 <= s <= nsect && Log() && Named([])
        invariant names == old(names) + globals + SectionNames(base, nsect)[..s]
      {
        OneMore(old(names) + globals, SectionNames(base, nsect), s);
        OutName(SectionName(s, base[s]));
        s := s + 1;
      }
      assert SectionNames(base, nsect)[..s] == SectionNames(base, nsect);
    }

    // modules

    method ComputeOrigins(m: Module, ghost ms: seq<Module>)
      requires |m.sects| <= MAXSECT && origin == Origins(ms)
      modifies this`origin
      ensures origin == Origins(ms + [m])
    {
      var s := 0;
      while s < |m.sects|
        invariant 0 <= s <= |m.sects| && |origin| == MAXSECT
        invariant forall j :: 0 <= j < MAXSECT ==> origin[j] == Origin(ms, j) + if j < s then SizeOf(m, j) else 0
      {
        origin := origin[s := origin[s] + SizeOf(m, s)];
        s := s + 1;
      }
      assert (ms + [m])[..|ms + [m]| - 1] == ms;
      forall j | 0 <= j < MAXSECT ensures origin[j] == Origins(ms + [m])[j] {}
    }

    /** The sections of the modules ms have been written. */
    ghost predicate SectionsWritten(env: Env, ms: seq<Module>)
      reads this`calls, this`track, this`relos, this`entries, this`recs, this`text, this`zeros
    {
      Log() && track.visits == VisitsOf(env, ms) && AllHold(Some(env), ms, track.out, zeros)
    }

    /** What has been written when the modules ms have been finished. */
    ghost predicate Written(env: Env, ms: seq<Module>, blks: seq<seq<nat>>)
      reads this
    {
      && SectionsWritten(env, ms) && Named([]) && origin == Origins(ms)
      && names == RelocateAll(Locals(ms), env.base)
      && Matches(ms, blks)
      && relos == WrittenRelos(env, ms, blks)
    }

    /** The source's finish for one more module. */
    method Finish(env: Env, m: Module, blk: seq<nat>, ghost ms: seq<Module>, ghost blks: seq<seq<nat>>)
      requires Written(env, ms, blks) && WellFormed(m) && BlocksClear(m, blk)
      modifies this
      ensures Written(env, ms + [m], blks + [blk])
    {
      HandleRelos(env, m, blk, ms);
      PutLocals(env, m);
      ComputeOrigins(m, ms);
      Finished(env, m, blk, ms, blks);
    }

    lemma Finished(env: Env, m: Module, blk: seq<nat>, ms: seq<Module>, blks: seq<seq<nat>>)
      requires Matches(ms, blks) && |blk| == |m.sects| && SectionsWritten(env, ms + [m]) && Named([])
          && origin == Origins(ms + [m])
      requires names == RelocateAll(Locals(ms), env.base)
          + RelocateAll(LocalsOf(RelocateAll(m.names, Origins(ms))), env.base)
      requires relos == WrittenRelos(env, ms, blks) + NewRelosOf(env, m, Origins(ms), Order(m, blk, |blk|))
      ensures Written(env, ms + [m], blks + [blk])
    {
      WrittenLast(env, ms, blks, m, blk);
      LocalsLast(env, ms, m);
    }
  }

  /** The local names among the first i, moved by the origins and by the bases. */
  function Saved(ns: seq<Name>, origin: seq<int>, base: seq<int>, i: nat): seq<Name>
    requires i <= |ns|
  {
    if i == 0 then []
    else if IsLocal(ns[i - 1])
    then Saved(ns, origin, base, i - 1) + [NameRelocate(NameRelocate(ns[i - 1], origin), base)]
    else Saved(ns, origin, base, i - 1)
  }

  lemma {:induction false} SavedNext(ns: seq<Name>, origin: seq<int>, base: seq<int>, i: nat, was: seq<Name>, n: Name,
      now: seq<Name>)
    requires i < |ns| && was == Saved(ns, origin, base, i)
    requires now == if IsLocal(ns[i]) then was + [n] else was
    requires IsLocal(ns[i]) ==> n == NameRelocate(NameRelocate(ns[i], origin), base)
    ensures now == Saved(ns, origin, base, i + 1)
  {
  }

  predicate IsLocal(n: Name) {
    !n.ext && !n.sct
  }

  lemma {:induction false} SavedIs(ns: seq<Name>, origin: seq<int>, base: seq<int>, i: nat)
    requires i <= |ns|
    ensures Saved(ns, origin, base, i) == RelocateAll(LocalsOf(RelocateAll(ns, origin)[..i]), base)
    decreases i
  {
    if i > 0 {
      var moved := RelocateAll(ns, origin);
      SavedIs(ns, origin, base, i - 1);
      PrefixLast(moved, i - 1);
      RelocateAllAppend(LocalsOf(moved[..i - 1]), [moved[i - 1]], base);
    }
  }

  lemma {:induction false} SavedAll(ns: seq<Name>, origin: seq<int>, base: seq<int>)
    ensures Saved(ns, origin, base, |ns|) == RelocateAll(LocalsOf(RelocateAll(ns, origin)), base)
  {
    SavedIs(ns, origin, base, |ns|);
    assert RelocateAll(ns, origin)[..|ns|] == RelocateAll(ns, origin);
  }

  /** What one section of a module comes to. */
  ghost predicate SectionPut(env: Env, m: Module, origin: seq<int>, s: nat, was: Track, owed: seq<nat>, now: Track,
      zeros: seq<nat>) {
    && s < MAXSECT == |owed| && was.Valid() && |DataOf(m, s)| <= SizeOf(m, s)
    && (if |DataOf(m, s)| > 0
        then
          && now == was.Put(s, Zeros(owed[s]), PatchedData(env, m, origin, s))
          && zeros == owed[s := SizeOf(m, s) - |DataOf(m, s)|]
        else now == was && zeros == owed[s := owed[s] + SizeOf(m, s)])
  }

  lemma {:induction false} SectionHandled(env: Env, ms: seq<Module>, m: Module, s: nat, was: Track, owed: seq<nat>,
      now: Track, zeros: seq<nat>)
    requires HoldUpTo(Some(env), ms, m, s, was.out, owed) && was.visits == Merged(BroughtUpTo(env, ms, m, s))
    requires WellFormed(m) && SectionPut(env, m, Origins(ms), s, was, owed, now, zeros)
    ensures HoldUpTo(Some(env), ms, m, s + 1, now.out, zeros) && now.visits == Merged(BroughtUpTo(env, ms, m, s + 1))
  {
    assert PieceOk(Some(env), ms, was.out[s], owed[s], s);
    SectionHeld(env, ms, m, s, was, owed, now, zeros);
    SectionVisited(env, ms, m, s, was, owed[s], now);
  }

  lemma {:induction false} SectionVisited(env: Env, ms: seq<Module>, m: Module, s: nat, was: Track, owed: nat,
      now: Track)
    requires was.Valid() && s < MAXSECT && was.visits == Merged(BroughtUpTo(env, ms, m, s)) && owed == Gap(env, ms, s)
    requires now == if |DataOf(m, s)| > 0 then was.Put(s, Zeros(owed), PatchedData(env, m, Origins(ms), s)) else was
    ensures now.visits == Merged(BroughtUpTo(env, ms, m, s + 1))
  {
    if |DataOf(m, s)| > 0 {
      PutVisits(was, s, Zeros(owed), PatchedData(env, m, Origins(ms), s));
      MergedLast(BroughtUpTo(env, ms, m, s), Visit(s, Portion(env, ms, m, s)));
    }
  }

  lemma {:induction false} SectionHeld(env: Env, ms: seq<Module>, m: Module, s: nat, was: Track, owed: seq<nat>,
      now: Track, zeros: seq<nat>)
    requires HoldUpTo(Some(env), ms, m, s, was.out, owed)
    requires WellFormed(m) && SectionPut(env, m, Origins(ms), s, was, owed, now, zeros)
    ensures HoldUpTo(Some(env), ms, m, s + 1, now.out, zeros)
  {
    PutDone(env, ms, m, s, was, owed, now, zeros);
    HoldUpToNext(Some(env), ms, m, s, was.out, owed, now.out[s], zeros[s]);
  }

  lemma {:induction false} PutDone(env: Env, ms: seq<Module>, m: Module, s: nat, was: Track, owed: seq<nat>, now: Track,
      zeros: seq<nat>)
    requires WellFormed(m) && SectionPut(env, m, Origins(ms), s, was, owed, now, zeros)
    ensures |now.out| == MAXSECT == |zeros| && PutAt(Some(env), ms, m, s, was.out[s], owed[s], now.out[s], zeros[s])
    ensures now.out == was.out[s := now.out[s]] && zeros == owed[s := zeros[s]]
  {
    PutTogether(env, ms, m, s, was.out[s], owed[s]);
    PutBytes(was, s, Zeros(owed[s]), PatchedData(env, m, Origins(ms), s));
  }

  lemma PutTogether(env: Env, ms: seq<Module>, m: Module, s: nat, piece: seq<byte>, zero: nat)
    requires WellFormed(m) && s < MAXSECT
    ensures |DataOf(m, s)| > 0 ==>
        PutAt(Some(env), ms, m, s, piece, zero, piece + (Zeros(zero) + PatchedData(env, m, Origins(ms), s)),
      SizeOf(m, s) - |DataOf(m, s)|)
    ensures |DataOf(m, s)| == 0 ==> PutAt(Some(env), ms, m, s, piece, zero, piece, zero + SizeOf(m, s))
  {
    var d := PatchedData(env, m, Origins(ms), s);
    assert Pad(piece, |piece| + zero) == piece + Zeros(zero);
    Associate(piece, Zeros(zero), d);
  }

  lemma LocalsLast(env: Env, ms: seq<Module>, m: Module)
    ensures RelocateAll(Locals(ms + [m]), env.base)
         == RelocateAll(Locals(ms), env.base) + RelocateAll(LocalsOf(RelocateAll(m.names, Origins(ms))), env.base)
  {
    assert (ms + [m])[..|ms + [m]| - 1] == ms;
    RelocateAllAppend(Locals(ms), LocalsOf(RelocateAll(m.names, Origins(ms))), env.base);
  }

  /** The names of the output, as this pass writes them. */
  function WrittenNames(env: Env, ms: seq<Module>): seq<Name>
    requires env.nsect <= |env.base|
  {
    RelocateAll(Locals(ms), env.base) + env.globals + SectionNames(env.base, env.nsect)
  }

  /** The bytes of all sections. */
  function Contents(env: Env, ms: seq<Module>): (r: seq<seq<byte>>)
    ensures |r| == MAXSECT && forall s :: 0 <= s < MAXSECT ==> r[s] == Content(env, ms, s)
  {
    seq(MAXSECT, s requires 0 <= s < MAXSECT => Content(env, ms, s))
  }

  /** The second pass over all modules, reading them again: the calls that it makes of the object writer. */
  method ReReadCalls(env: Env, ms: seq<Module>, blks: seq<seq<nat>>, keep: bool, offChar: nat)
      returns (calls: seq<ObjectWriter.Call>)
    requires AllWellFormed(ms) && Matches(ms, blks) && forall k :: 0 <= k < |ms| ==> BlocksClear(ms[k], blks[k])
    requires env.nsect <= |env.base| && offChar > 0
    ensures var names := WrittenNames(env, ms);
      Logged(calls, Track(Contents(env, ms), VisitsOf(env, ms)),
             if keep then Entries(WrittenRelos(env, ms, blks)) else [], NameRecs(names, offChar), Strings(names))
  {
    var w := new Writer(keep, offChar);
    FinishAll(w, env, ms, blks);
    w.EndWrite(env.globals, env.base, env.nsect);
    AllContent(env, ms, w.track.out, w.zeros);
    WrittenForIs(keep, w.relos, w.entries);
    NamesDone(w.names, offChar, w.recs, w.text, w.offChar);
    calls := w.calls;
  }

  method FinishAll(w: Writer, env: Env, ms: seq<Module>, blks: seq<seq<nat>>)
    requires AllWellFormed(ms) && Matches(ms, blks) && forall k :: 0 <= k < |ms| ==> BlocksClear(ms[k], blks[k])
    requires w.Written(env, [], [])
    modifies w
    ensures w.Written(env, ms, blks)
  {
    var k := 0;
    while k < |ms|
      invariant 0 <= k <= |ms| && w.Written(env, ms[..k], blks[..k])
    {
      FinishNext(w, env, ms, blks, k);
      k := k + 1;
    }
    assert ms[..k] == ms && blks[..k] == blks;
  }

  method FinishNext(w: Writer, env: Env, ms: seq<Module>, blks: seq<seq<nat>>, k: nat)
    requires Matches(ms, blks) && k < |ms| && WellFormed(ms[k]) && BlocksClear(ms[k], blks[k])
    requires w.Written(env, ms[..k], blks[..k])
    modifies w
    ensures w.Written(env, ms[..k + 1], blks[..k + 1])
  {
    UpTo(ms, k);
    UpTo(blks, k);
    w.Finish(env, ms[k], blks[k], ms[..k], blks[..k]);
  }

  lemma NoEntries(env: Env, m: Module, origin: seq<int>, s: nat, blk: nat, was: seq<Relo>)
    requires |DataOf(m, s)| == 0
    ensures was + NewRelosOf(env, m, origin, SectionOrder(m, s, blk)) == was
  {
    assert SectionOrder(m, s, blk) == [];
  }

  lemma OrderNext(env: Env, m: Module, origin: seq<int>, blks: seq<nat>, s: nat, was: seq<Relo>)
    requires s < |blks|
    ensures was + NewRelosOf(env, m, origin, Order(m, blks, s))
        + NewRelosOf(env, m, origin, SectionOrder(m, s, blks[s]))
         == was + NewRelosOf(env, m, origin, Order(m, blks, s + 1))
  {
    NewRelosAppend(env, m, origin, Order(m, blks, s), SectionOrder(m, s, blks[s]));
    Associate(was, NewRelosOf(env, m, origin, Order(m, blks, s)),
        NewRelosOf(env, m, origin, SectionOrder(m, s, blks[s])));
  }

  lemma AllContent(env: Env, ms: seq<Module>, pieces: seq<seq<byte>>, zeros: seq<nat>)
    requires AllHold(Some(env), ms, pieces, zeros)
    ensures pieces == Contents(env, ms)
  {
    forall s | 0 <= s < MAXSECT ensures pieces[s] == Content(env, ms, s) {
      assert PieceOk(Some(env), ms, pieces[s], zeros[s], s);
    }
  }

  lemma OneMore<T>(a: seq<T>, b: seq<T>, i: nat)
    requires i < |b|
    ensures a + b[..i] + [b[i]] == a + b[..i + 1]
  {
  }

  lemma MoreZeros(k: nat, n: nat)
    ensures Zeros(k) + Zeros(n) == Zeros(k + n)
  {
  }

  // ---------------------------------------------------------- block by block

  /**
    The first `off` bytes of the module's section have been written after `was`, and
    the entries for them after wasRelos.
   */
  ghost predicate BlocksAt(env: Env, m: Module, origin: seq<int>, s: nat, off: nat, blk: nat, done: seq<Relo>,
      was: Track, wasRelos: seq<Relo>, now: Track, relos: seq<Relo>) {
    && was.Here(s) && now.Here(s) && off <= |DataOf(m, s)|
    && AllAside(PatchesOn(env, m, origin, m.relos, s), off)
    && now == was.Brought(Front(env, m, origin, s, off))
    && EntriesUpTo(env, m, origin, s, off, blk, done, wasRelos, relos)
  }

  /** `was` with the entries `done` of the blocks before `off` written after it. */
  ghost predicate EntriesUpTo(env: Env, m: Module, origin: seq<int>, s: nat, off: nat, blk: nat, done: seq<Relo>,
      was: seq<Relo>, is_: seq<Relo>) {
    && blk > 0
    && NoneStraddles(m.relos, s, off, |DataOf(m, s)|, blk)
    && done + ByBlocks(m.relos, s, off, |DataOf(m, s)|, blk) == ByBlocks(m.relos, s, 0, |DataOf(m, s)|, blk)
    && is_ == was + NewRelosOf(env, m, origin, done)
  }

  lemma BlocksStart(env: Env, m: Module, origin: seq<int>, s: nat, blk: nat, k: Track, relos: seq<Relo>)
    requires WellFormed(m) && k.Here(s) && blk > 0 && NoneStraddles(m.relos, s, 0, |DataOf(m, s)|, blk)
    ensures BlocksAt(env, m, origin, s, 0, blk, [], k, relos, k, relos)
  {
    FrontStart(env, m, origin, s);
    BroughtHere(k, s, []);
    assert [] + ByBlocks(m.relos, s, 0, |DataOf(m, s)|, blk) == ByBlocks(m.relos, s, 0, |DataOf(m, s)|, blk);
    assert relos + [] == relos;
  }

  lemma BlocksEnd(env: Env, m: Module, origin: seq<int>, s: nat, blk: nat, done: seq<Relo>, was: Track,
      wasRelos: seq<Relo>, now: Track, relos: seq<Relo>)
    requires WellFormed(m) && BlocksAt(env, m, origin, s, |DataOf(m, s)|, blk, done, was, wasRelos, now, relos)
    ensures now == was.Brought(PatchedData(env, m, origin, s)) && now.Here(s)
    ensures relos == wasRelos + NewRelosOf(env, m, origin, ByBlocks(m.relos, s, 0, |DataOf(m, s)|, blk))
  {
    FrontEnd(env, m, origin, s);
    assert done + [] == done;
  }

  lemma EntriesNext(env: Env, m: Module, origin: seq<int>, s: nat, off: nat, blk: nat, done: seq<Relo>,
      was: seq<Relo>, is_: seq<Relo>)
    requires EntriesUpTo(env, m, origin, s, off, blk, done, was, is_) && off < |DataOf(m, s)|
    ensures var n := Least(blk, |DataOf(m, s)| - off);
      var block := OnBlock(m.relos, s, off, n);
      Clear(m.relos, s, off + n) && EntriesUpTo(env, m, origin, s, off + n, blk, done + block, was, is_
          + NewRelosOf(env, m, origin, block))
  {
    var n := Least(blk, |DataOf(m, s)| - off);
    var block := OnBlock(m.relos, s, off, n);
    NewRelosAppend(env, m, origin, done, block);
    Associate(was, NewRelosOf(env, m, origin, done), NewRelosOf(env, m, origin, block));
    Associate(done, block, ByBlocks(m.relos, s, off + n, |DataOf(m, s)|, blk));
  }

  lemma BlocksNext(env: Env, m: Module, origin: seq<int>, s: nat, off: nat, n: nat, blk: nat, done: seq<Relo>,
      was: Track, wasRelos: seq<Relo>, now: Track, relos: seq<Relo>)
    requires WellFormed(m) && off < |DataOf(m, s)| && n == Least(blk, |DataOf(m, s)| - off)
    requires BlocksAt(env, m, origin, s, off, blk, done, was, wasRelos, now, relos)
    ensures AllWithin(BlockPatches(env, m, origin, m.relos, s, off, n), n) && Clear(m.relos, s, off + n) && now.Here(s)
    ensures var block := OnBlock(m.relos, s, off, n);
      BlocksAt(env, m, origin, s, off + n, blk, done + block, was, wasRelos,
               now.Brought(BlockData(env, m, origin, s, off, n)),
               relos + NewRelosOf(env, m, origin, block))
  {
    EntriesNext(env, m, origin, s, off, blk, done, wasRelos, relos);
    FrontNext(env, m, origin, s, off, n);
    BroughtTwice(was, s, Front(env, m, origin, s, off), BlockData(env, m, origin, s, off, n));
    BroughtHere(now, s, BlockData(env, m, origin, s, off, n));
  }
}
