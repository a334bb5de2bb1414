/**
  The files that the two strategies write, from the modules and the options to the
  last byte: all in core, or reading the modules again. In core the sections come
  in order, and the file is that of the link. Reading again, they come module by
  module, and all is in its place exactly if the shared cursor of the object writer
  is, at every entry, where the section goes on.
 */
module StrategyFiles {
  import opened Bytes
  import opened Names
  import opened LinkModel
  import opened Layout
  import opened EntryFormat
  import opened NameFormat
  import opened Placement
  import opened WriteLog
  import opened OutputFile
  import opened FileImage
  import opened FileNumbers
  import opened FileReading
  import opened CoreFile
  import opened LinkPasses
  import opened VisitShapes
  import opened Tours
  import opened Agreement
  import ObjectWriter
  import ReRead

  predicate Keeps(o: Options, ms: seq<Module>) {
    Relocatable(o, Globals(ms)) || o.cflag
  }

  // -------------------------------------------------------------- in core

  /** From the modules to the file, with all in core. */
  method LinkToFile(o: Options, ms: seq<Module>) returns (ok: bool, f: seq<byte>)
    requires AllWellFormed(ms) && PlainNames(ms)
    ensures NSect(ms) <= MAXSECT && ok == (Relocatable(o, Globals(ms)) || BasesAligned(o, NSect(ms)))
    ensures ok ==> f == FileOf(Link(o, ms)) && FileSays(f, Link(o, ms))
  {
    var out, nlocals;
    ok, out, nlocals := LinkAll(o, ms);
    f := [];
    if ok { f := OutputInCore(out, nlocals, o.rflag || o.cflag || out.unresolved); }
  }

  // -------------------------------------------------------- reading them again

  /** What is linked when the modules are read again; blks says which sections were done in blocks. */
  function LinkAgain(o: Options, ms: seq<Module>, blks: seq<seq<nat>>): Output
    requires NSect(ms) <= MAXSECT && ReRead.Matches(ms, blks)
  {
    var env := EnvOf(o, ms);
    Link(o, ms).(names := ReRead.WrittenNames(env, ms),
        relos := if Keeps(o, ms) then ReRead.WrittenRelos(env, ms, blks) else [])
  }

  /** The section table as it is before the second pass. */
  function HeadsBefore(o: Options, p: Prepared): (r: seq<SectHead>)
    requires p.env.nsect <= MAXSECT == |p.env.base| == |p.full| == |p.flen|
    requires forall s :: 0 <= s < MAXSECT ==> p.flen[s] >= 0
    ensures |r| == p.env.nsect
  {
    seq(p.env.nsect, s requires 0 <= s < p.env.nsect =>
      if p.rflag then SectHead(0, p.full[s], p.flen[s], 0)
      else SectHead(p.env.base[s], p.full[s], p.flen[s], LignOf(o, s)))
  }

  lemma HeadsKnown(o: Options, ms: seq<Module>, p: Prepared)
    requires AllWellFormed(ms) && NSect(ms) <= MAXSECT && IsPrepared(p, o, ms)
    ensures p.env.nsect <= MAXSECT == |p.env.base| == |p.full| == |p.flen|
    ensures forall s :: 0 <= s < MAXSECT ==> p.flen[s] >= 0
    ensures HeadsBefore(o, p) == Heads(OutSections(o, ms))
  {
    forall s | 0 <= s < NSect(ms) ensures HeadsBefore(o, p)[s] == Heads(OutSections(o, ms))[s] {
      ContentLength(p.env, ms, s);
    }
  }

  lemma {:induction false} NoContent(env: Env, ms: seq<Module>, s: nat)
    requires s >= NSect(ms)
    ensures Content(env, ms, s) == []
    decreases |ms|
  {
    if |ms| > 0 { NoContent(env, ms[..|ms| - 1], s); }
  }

  lemma ContentsAre(o: Options, ms: seq<Module>)
    requires NSect(ms) <= MAXSECT
    ensures Datas(OutSections(o, ms)) == ReRead.Contents(EnvOf(o, ms), ms)
  {
    forall s | NSect(ms) <= s < MAXSECT ensures Content(EnvOf(o, ms), ms, s) == [] {
      NoContent(EnvOf(o, ms), ms, s);
    }
  }

  lemma {:induction false} OutRelosLength(env: Env, ms: seq<Module>)
    ensures |OutRelos(env, ms)| == RelosOf(ms)
    decreases |ms|
  {
    if |ms| > 0 { OutRelosLength(env, ms[..|ms| - 1]); }
  }

  lemma {:induction false} RoomMoved(ns: seq<Name>, base: seq<int>)
    ensures Room(RelocateAll(ns, base)) == Room(ns) && Strings(RelocateAll(ns, base)) == Strings(ns)
    decreases |ns|
  {
    if |ns| > 0 {
      RoomMoved(ns[..|ns| - 1], base);
      assert RelocateAll(ns, base)[..|ns| - 1] == RelocateAll(ns[..|ns| - 1], base);
    }
  }

  lemma {:induction false} SectionsNameless(base: seq<int>, n: nat)
    requires n <= |base|
    ensures Room(SectionNames(base, n)) == 0
    decreases n
  {
    if n > 0 {
      SectionsNameless(base, n - 1);
      assert SectionNames(base, n)[..n - 1] == SectionNames(base, n - 1);
    }
  }

  /** What the header says is known before the second pass. */
  lemma CountsKnown(o: Options, ms: seq<Module>, blks: seq<seq<nat>>, p: Prepared)
    requires AllWellFormed(ms) && NSect(ms) <= MAXSECT && IsPrepared(p, o, ms) && ReRead.Matches(ms, blks)
    ensures var out := LinkAgain(o, ms, blks);
      && |out.relos| == (if p.rflag || o.cflag then p.nrelo else 0)
      && |out.names| == |p.saved| + |p.env.globals| + p.env.nsect
      && Room(out.names) == Room(p.saved) + Room(p.env.globals)
  {
    OutRelosLength(p.env, ms);
    EntriesAgree(p.env, ms, blks);
    Agreement.SameLengths(ms, ReRead.WrittenRelos(p.env, ms, blks), OutRelos(p.env, ms));
    var locals, names := RelocateAll(p.saved, p.env.base), SectionNames(p.env.base, p.env.nsect);
    RoomMoved(p.saved, p.env.base);
    RoomAppend(locals + p.env.globals, names);
    RoomAppend(locals, p.env.globals);
    SectionsNameless(p.env.base, p.env.nsect);
  }

  /** Both passes, up to the calls of the object writer; none of it depends on where these put the bytes. */
  method CallsAgain(o: Options, ms: seq<Module>, blks: seq<seq<nat>>)
      returns (ok: bool, calls: seq<ObjectWriter.Call>, hs: seq<SectHead>, head: Head)
    requires AllWellFormed(ms) && PlainNames(ms) && NSect(ms) <= MAXSECT
    requires ReRead.Matches(ms, blks) && forall k :: 0 <= k < |ms| ==> ReRead.BlocksClear(ms[k], blks[k])
    ensures ok == (Relocatable(o, Globals(ms)) || BasesAligned(o, NSect(ms)))
    ensures ok ==> Again(o, ms, blks, calls, hs, head)
  {
    var p;
    ok, p := Prepare(o, ms);
    calls, hs, head := [], [], Head(false, 0, 0, 0, 0, 0);
    if ok {
      hs, head := HeadsAgain(o, ms, blks, p);
      calls := SecondPass(o, ms, blks, p.env, p.rflag || o.cflag, NamesStart(hs, head.nrelo, head.nname));
    }
  }

  /** beginoutput. */
  method HeadsAgain(o: Options, ms: seq<Module>, ghost blks: seq<seq<nat>>, p: Prepared)
      returns (hs: seq<SectHead>, head: Head)
    requires AllWellFormed(ms) && NSect(ms) <= MAXSECT && IsPrepared(p, o, ms) && ReRead.Matches(ms, blks)
    ensures var out := LinkAgain(o, ms, blks);
      hs == Heads(out.sects) && head == HeadOf(out.unresolved, hs, |out.relos|, out.names)
  {
    HeadsKnown(o, ms, p);
    CountsKnown(o, ms, blks, p);
    hs := HeadsBefore(o, p);
    head := Head(p.unresolved, |hs|, if p.rflag || o.cflag then p.nrelo else 0,
        |p.saved| + |p.env.globals| + p.env.nsect, Emitted(hs), Room(p.saved) + Room(p.env.globals));
  }

  method SecondPass(o: Options, ms: seq<Module>, blks: seq<seq<nat>>, env: Env, keep: bool, offChar: nat)
      returns (calls: seq<ObjectWriter.Call>)
    requires AllWellFormed(ms) && NSect(ms) <= MAXSECT && env == EnvOf(o, ms) && keep == Keeps(o, ms)
    requires ReRead.Matches(ms, blks) && forall k :: 0 <= k < |ms| ==> ReRead.BlocksClear(ms[k], blks[k])
    requires var out := LinkAgain(o, ms, blks); offChar == NamesStart(Heads(out.sects), |out.relos|, |out.names|)
    ensures var im := ImageFor(LinkAgain(o, ms, blks));
      && im.Valid() && im.Lengths() == Flens(Heads(OutSections(o, ms)))
      && Logged(calls, Track(im.out, ReRead.VisitsOf(env, ms)), im.recs, im.names, im.text)
  {
    ImageAgain(o, ms, blks);
    ContentsAre(o, ms);
    calls := ReRead.ReReadCalls(env, ms, blks, keep, offChar);
  }

  /** These are the calls for the image, and what its header and section table say. */
  ghost predicate Again(o: Options, ms: seq<Module>, blks: seq<seq<nat>>, calls: seq<ObjectWriter.Call>,
      hs: seq<SectHead>, head: Head)
    requires NSect(ms) <= MAXSECT && ReRead.Matches(ms, blks)
  {
    var out := LinkAgain(o, ms, blks);
    var im := ImageFor(out);
    && hs == Heads(out.sects) && head == HeadOf(out.unresolved, hs, |out.relos|, out.names)
    && im.Valid() && im.Lengths() == Flens(hs)
    && Logged(calls, Track(im.out, ReRead.VisitsOf(EnvOf(o, ms), ms)), im.recs, im.names, im.text)
  }

  /** From the modules to the file, reading them again, if all ends meet. */
  method LinkAgainToFile(o: Options, ms: seq<Module>, blks: seq<seq<nat>>) returns (ok: bool, f: seq<byte>)
    requires AllWellFormed(ms) && PlainNames(ms) && NSect(ms) <= MAXSECT
    requires ReRead.Matches(ms, blks) && forall k :: 0 <= k < |ms| ==> ReRead.BlocksClear(ms[k], blks[k])
    requires AllFit(FileOffsets(Heads(OutSections(o, ms))), ReRead.VisitsOf(EnvOf(o, ms), ms))
    ensures ok == (Relocatable(o, Globals(ms)) || BasesAligned(o, NSect(ms)))
    ensures ok ==> f == FileOf(LinkAgain(o, ms, blks)) && FileSays(f, LinkAgain(o, ms, blks))
  {
    var calls, hs, head;
    ok, calls, hs, head := CallsAgain(o, ms, blks);
    f := [];
    if ok {
      ghost var im, visits := ImageFor(LinkAgain(o, ms, blks)), ReRead.VisitsOf(EnvOf(o, ms), ms);
      BringOf(EnvOf(o, ms), ms);
      FileOffsetsAre(hs);
      FileTells(LinkAgain(o, ms, blks));
      f := WriteFile(HeadBytes(head), TableBytes(hs), FileOffsets(hs), Emitted(hs), head.nrelo, head.nname, calls, im,
          visits, false);
    }
  }

  /** The same whether or not the ends meet, as long as no visit leaves the part of its cursor. */
  method LinkAgainAnyway(o: Options, ms: seq<Module>, blks: seq<seq<nat>>) returns (ok: bool, f: seq<byte>)
    requires AllWellFormed(ms) && PlainNames(ms) && NSect(ms) <= MAXSECT
    requires ReRead.Matches(ms, blks) && forall k :: 0 <= k < |ms| ==> ReRead.BlocksClear(ms[k], blks[k])
    requires var im, visits := ImageFor(LinkAgain(o, ms, blks)), ReRead.VisitsOf(EnvOf(o, ms), ms);
      im.Valid() && AllThere(visits) && AllVisitsStay(PartsFor(im), StartedPens(im), visits)
    ensures ok == (Relocatable(o, Globals(ms)) || BasesAligned(o, NSect(ms)))
    ensures var im, visits := ImageFor(LinkAgain(o, ms, blks)), ReRead.VisitsOf(EnvOf(o, ms), ms);
      ok ==> forall c :: 0 <= c < ObjectWriter.SECTCNT ==>
        ObjectWriter.PartShown(f, Toured(StartedPens(im), visits).img, PartsFor(im), c)
  {
    var calls, hs, head;
    ok, calls, hs, head := CallsAgain(o, ms, blks);
    f := [];
    if ok {
      FileOffsetsAre(hs);
      f := WriteAnyway(HeadBytes(head), TableBytes(hs), FileOffsets(hs), Emitted(hs), head.nrelo, head.nname, calls,
          ImageFor(LinkAgain(o, ms, blks)), ReRead.VisitsOf(EnvOf(o, ms), ms));
    }
  }

  lemma ImageAgain(o: Options, ms: seq<Module>, blks: seq<seq<nat>>)
    requires NSect(ms) <= MAXSECT && ReRead.Matches(ms, blks)
    ensures var im := ImageFor(LinkAgain(o, ms, blks));
      && im.Valid() && im.Lengths() == Flens(Heads(OutSections(o, ms))) && im.out == Datas(OutSections(o, ms))
      && im.recs == if Keeps(o, ms) then Entries(ReRead.WrittenRelos(EnvOf(o, ms), ms, blks)) else []
  {
    var a := LinkAgain(o, ms, blks);
    ImageIsValid(a.unresolved, Heads(a.sects), Datas(a.sects), a.relos, a.names);
  }

  /**
    Reading again, every byte goes to its place exactly if, by the lengths and file
    offsets of the sections, every shared section that is entered from section 0
    or 1 goes on where the cursor was left.
   */
  lemma AgainExactly(o: Options, ms: seq<Module>, blks: seq<seq<nat>>, calls: seq<ObjectWriter.Call>, hs: seq<SectHead>,
      head: Head)
    requires AllWellFormed(ms) && NSect(ms) <= MAXSECT && ReRead.Matches(ms, blks)
        && Again(o, ms, blks, calls, hs, head)
    ensures var im := ImageFor(LinkAgain(o, ms, blks));
      && Tiled(im.Pieces()).Valid() && ObjectWriter.AllSized(calls)
      && (AllInPlace(calls, im)
          <==> AllFit(FileOffsets(Heads(OutSections(o, ms))), ReRead.VisitsOf(EnvOf(o, ms), ms)))
  {
    var im, visits := ImageFor(LinkAgain(o, ms, blks)), ReRead.VisitsOf(EnvOf(o, ms), ms);
    BringOf(EnvOf(o, ms), ms);
    InPlaceExactly(calls, im, visits);
    OffsetsAre(im);
    FileOffsetsAre(hs);
    LoggedIs(calls, Track(im.out, visits), im.recs, im.names, im.text);
  }
}
