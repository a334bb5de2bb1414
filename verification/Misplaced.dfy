/**
  Two small links that are read again: one in which bytes go to a wrong place, and
  one that is right although the sections do not come in the writer's order.
 */
module Misplaced {
  import opened Bytes
  import opened FileCursor
  import opened LinkModel
  import opened Strategies
  import opened Layout
  import opened Placement
  import opened OutputFile
  import opened FileImage
  import opened LinkPasses
  import opened Tours
  import opened StrategyFiles
  import opened ObjectWriter
  import ReRead

  const NoOptions := Options(false, false, false, map[], map[])

  /** A module with a byte in each of the sections 0, 2 and 3. */
  const FourSections := Module([Section(1, 1, [1]), Section(0, 1, []), Section(1, 1, [2]), Section(1, 1, [3])], [], [])

  /** With bytes in the sections 0 and 2, and in 0 and 3. */
  const TextAndTwo := Module([Section(1, 1, [1]), Section(0, 1, []), Section(1, 1, [2])], [], [])
  const TextAndThree := Module([Section(1, 1, [1]), Section(0, 1, []), Section(0, 1, []), Section(1, 1, [3])], [], [])

  // -------------------------------------------------------- what they bring

  lemma {:induction false} NotPatched(env: Env, m: Module, origin: seq<int>, s: nat)
    requires m.relos == []
    ensures PatchedData(env, m, origin, s) == DataOf(m, s)
  {
    var ps := PatchesOn(env, m, origin, m.relos, s);
    assert OnSection(m.relos, s) == [];
    assert ps == [];
  }

  lemma {:induction false} PortionIs(env: Env, ms: seq<Module>, m: Module, s: nat)
    requires m.relos == [] && |Raw(ms, s)| == Origin(ms, s)
    ensures ReRead.Portion(env, ms, m, s) == DataOf(m, s)
  {
    NotPatched(env, m, Origins(ms), s);
    ContentLength(env, ms, s);
    assert Zeros(0) + DataOf(m, s) == DataOf(m, s);
  }

  /** The visit to section s of m, if it has bytes there. */
  function There(m: Module, s: nat): seq<Visit> {
    if |DataOf(m, s)| > 0 then [Visit(s, DataOf(m, s))] else []
  }

  lemma {:induction false} BroughtNext(env: Env, ms: seq<Module>, m: Module, n: nat)
    requires n > 0 && m.relos == [] && |Raw(ms, n - 1)| == Origin(ms, n - 1)
    ensures ReRead.BroughtUpTo(env, ms, m, n) == ReRead.BroughtUpTo(env, ms, m, n - 1) + There(m, n - 1)
  {
    PortionIs(env, ms, m, n - 1);
    PlusNothing(ReRead.BroughtUpTo(env, ms, m, n - 1));
  }

  lemma {:induction false} MergedOther(vs: seq<Visit>, v: Visit)
    requires Merged(vs) == vs && (|vs| > 0 ==> vs[|vs| - 1].sect != v.sect)
    ensures Merged(vs + [v]) == vs + [v]
  {
    MergedLast(vs, v);
    assert [] + v.bytes == v.bytes;
    WithLast(vs, Visit(v.sect, []));
  }

  lemma TwoOf(a: Module, b: Module)
    ensures [a, b][..1] == [a] && [a][..0] == []
  {
  }

  lemma FourRaw(s: nat)
    requires s < 4
    ensures |Raw([FourSections], s)| == Origin([FourSections], s) && |Raw([], s)| == Origin([], s)
  {
    TwoOf(FourSections, FourSections);
  }

  lemma {:induction false} FourBring(env: Env, ms: seq<Module>)
    requires ms == [] || ms == [FourSections]
    ensures ReRead.BroughtUpTo(env, ms, FourSections, 4)
         == ReRead.BroughtBy(env, ms) + [Visit(0, [1]), Visit(2, [2]), Visit(3, [3])]
  {
    var m, b := FourSections, ReRead.BroughtBy(env, ms);
    FourRaw(0);
    FourRaw(1);
    FourRaw(2);
    FourRaw(3);
    BroughtNext(env, ms, m, 1);
    BroughtNext(env, ms, m, 2);
    BroughtNext(env, ms, m, 3);
    BroughtNext(env, ms, m, 4);
    assert There(m, 0) == [Visit(0, [1])] && There(m, 1) == [] && There(m, 2) == [Visit(2, [2])]
        && There(m, 3) == [Visit(3, [3])];
    assert b + [Visit(0, [1])] + [] + [Visit(2, [2])] + [Visit(3, [3])]
        == b + [Visit(0, [1]), Visit(2, [2]), Visit(3, [3])];
  }

  const FourVisits := [Visit(0, [1]), Visit(2, [2]), Visit(3, [3]), Visit(0, [1]), Visit(2, [2]), Visit(3, [3])]

  lemma {:induction false} FourVisitsAre(env: Env)
    ensures ReRead.VisitsOf(env, [FourSections, FourSections]) == FourVisits
  {
    var m := FourSections;
    TwoOf(m, m);
    FourBring(env, []);
    FourBring(env, [m]);
    assert ReRead.BroughtBy(env, [m]) == [Visit(0, [1]), Visit(2, [2]), Visit(3, [3])];
    assert ReRead.BroughtBy(env, [m, m]) == FourVisits;
    FourMerged();
  }

  lemma {:induction false} MergedThree(vs: seq<Visit>, a: Visit, b: Visit, c: Visit)
    requires Merged(vs) == vs && (|vs| > 0 ==> vs[|vs| - 1].sect != a.sect) && a.sect != b.sect && b.sect != c.sect
    ensures Merged(vs + [a, b, c]) == vs + [a, b, c]
  {
    MergedOther(vs, a);
    MergedOther(vs + [a], b);
    MergedOther(vs + [a] + [b], c);
    assert vs + [a] + [b] + [c] == vs + [a, b, c];
  }

  lemma {:induction false} FourMerged()
    ensures Merged(FourVisits) == FourVisits
  {
    var a, b, c := Visit(0, [1]), Visit(2, [2]), Visit(3, [3]);
    MergedThree([], a, b, c);
    MergedThree([] + [a, b, c], a, b, c);
    assert FourVisits == [] + [a, b, c] + [a, b, c];
  }

  // ------------------------------------------------------------- where it goes

  /** What matters of the pens here. */
  ghost predicate Stand(ph: Pens, sect: nat, off2: nat, off3: nat, start: nat, n0: nat, n2: nat, img: seq<byte>) {
    && ph.Valid() && ph.sect == sect && ph.off[2] == off2 && ph.off[3] == off3 && ph.start == start
    && ph.next[0] == n0 && ph.next[2] == n2 && ph.img[2] == img
  }

  lemma InText(ph: Pens, sect: nat, off2: nat, off3: nat, start: nat, n0: nat, n2: nat, img: seq<byte>, b: seq<byte>)
    requires Stand(ph, sect, off2, off3, start, n0, n2, img)
    ensures Stand(ph.Move(0).Do(Emit(b)), 0, off2, off3, start, n0 + |b|, n2, img) && ph.Move(0).next[0] == n0
  {
  }

  /** From section 0 the cursor is not moved. */
  lemma EnteredFromText(ph: Pens, off2: nat, off3: nat, start: nat, n0: nat, n2: nat, img: seq<byte>, b: seq<byte>)
    requires Stand(ph, 0, off2, off3, start, n0, n2, img) && n2 + |b| < WBUFSIZ && start < WBUFSIZ
    ensures Stand(ph.Move(2).Do(Emit(b)), 2, off2, off3, start, n0, n2 + |b|, WriteAt(img, n2, b))
        && ph.Move(2).next[2] == n2
  {
    assert Floor(start) == 0;
  }

  lemma FromTwoToThree(ph: Pens, off2: nat, off3: nat, start: nat, n0: nat, n2: nat, img: seq<byte>, b: seq<byte>)
    requires Stand(ph, 2, off2, off3, start, n0, n2, img) && off3 + |b| < WBUFSIZ
    ensures Stand(ph.Move(3).Do(Emit(b)), 3, n2, off3, off3, n0, off3 + |b|, WriteAt(img, off3, b))
        && ph.Move(3).next[2] == off3
  {
    assert Floor(off3) == 0;
  }

  lemma TourNext(ph: Pens, vs: seq<Visit>, k: nat)
    requires ph.Valid() && AllThere(vs) && k < |vs|
    ensures AllThere(vs[..k]) && AllThere(vs[..k + 1])
    ensures Toured(ph, vs[..k + 1]) == Toured(ph, vs[..k]).Move(vs[k].sect).Do(Emit(vs[k].bytes))
  {
    assert vs[..k + 1][..k] == vs[..k];
  }

  /** The shared part as it is written. */
  function Shared(): seq<byte> {
    WriteAt(WriteAt(WriteAt(WriteAt([], 102, [2]), 104, [3]), 105, [2]), 104, [3])
  }

  lemma SharedIs()
    ensures |Shared()| == 106 && Shared()[102..106] == [2, 0, 3, 2]
  {
    var a := WriteAt([], 102, [2]);
    var b := WriteAt(a, 104, [3]);
    var c := WriteAt(b, 105, [2]);
    assert |a| == 103 && a[102] == 2;
    assert |b| == 105 && b[102] == 2 && b[103] == 0 && b[104] == 3;
    assert |c| == 106 && c[102] == 2 && c[103] == 0 && c[104] == 3 && c[105] == 2;
  }

  /** The pens after the first k visits. */
  ghost predicate After(ph: Pens, k: nat, sect: nat, off2: nat, off3: nat, start: nat, n0: nat, n2: nat,
      img: seq<byte>) {
    && ph.Valid() && k <= 6 && AllThere(FourVisits[..k])
    && Stand(Toured(ph, FourVisits[..k]), sect, off2, off3, start, n0, n2, img)
  }

  lemma AllFourThere(k: nat)
    requires k <= 6
    ensures AllThere(FourVisits) && AllThere(FourVisits[..k])
  {
  }

  /** Where each visit starts to write. */
  const Places: seq<nat> := [100, 102, 104, 101, 105, 104]

  /** Visit k starts to write there. */
  ghost predicate StartsAt(ph: Pens, k: nat, pos: nat) {
    && ph.Valid() && k < 6 && AllThere(FourVisits[..k]) && FourVisits[k].sect < MAXSECT
    && Toured(ph, FourVisits[..k]).Move(FourVisits[k].sect).next[PartOf(FourVisits[k].sect)] == pos
  }

  lemma {:induction false} TextVisit(ph: Pens, k: nat, sect: nat, off2: nat, off3: nat, start: nat, n0: nat, n2: nat,
      img: seq<byte>)
    requires k < 6 && FourVisits[k] == Visit(0, [1]) && After(ph, k, sect, off2, off3, start, n0, n2, img)
    ensures After(ph, k + 1, 0, off2, off3, start, n0 + 1, n2, img) && StartsAt(ph, k, n0)
  {
    AllFourThere(k + 1);
    TourNext(ph, FourVisits, k);
    InText(Toured(ph, FourVisits[..k]), sect, off2, off3, start, n0, n2, img, [1]);
  }

  lemma {:induction false} SecondVisit(ph: Pens, k: nat, off2: nat, off3: nat, start: nat, n0: nat, n2: nat,
      img: seq<byte>)
    requires k < 6 && FourVisits[k] == Visit(2, [2]) && After(ph, k, 0, off2, off3, start, n0, n2, img)
    requires n2 < 1000 && start < 1000
    ensures After(ph, k + 1, 2, off2, off3, start, n0, n2 + 1, WriteAt(img, n2, [2])) && StartsAt(ph, k, n2)
  {
    AllFourThere(k + 1);
    TourNext(ph, FourVisits, k);
    EnteredFromText(Toured(ph, FourVisits[..k]), off2, off3, start, n0, n2, img, [2]);
  }

  lemma {:induction false} ThirdVisit(ph: Pens, k: nat, off2: nat, off3: nat, start: nat, n0: nat, n2: nat,
      img: seq<byte>)
    requires k < 6 && FourVisits[k] == Visit(3, [3]) && After(ph, k, 2, off2, off3, start, n0, n2, img) && off3 < 1000
    ensures After(ph, k + 1, 3, n2, off3, off3, n0, off3 + 1, WriteAt(img, off3, [3])) && StartsAt(ph, k, off3)
  {
    AllFourThere(k + 1);
    TourNext(ph, FourVisits, k);
    FromTwoToThree(Toured(ph, FourVisits[..k]), off2, off3, start, n0, n2, img, [3]);
  }

  lemma {:induction false} FirstModule(ph: Pens)
    requires Stand(ph, 0, 102, 104, 102, 100, 102, [])
    ensures After(ph, 3, 3, 103, 104, 104, 101, 105, WriteAt(WriteAt([], 102, [2]), 104, [3]))
    ensures StartsAt(ph, 0, 100) && StartsAt(ph, 1, 102) && StartsAt(ph, 2, 104)
  {
    AllFourThere(0);
    assert FourVisits[..0] == [];
    TextVisit(ph, 0, 0, 102, 104, 102, 100, 102, []);
    SecondVisit(ph, 1, 102, 104, 102, 101, 102, []);
    ThirdVisit(ph, 2, 102, 104, 102, 101, 103, WriteAt([], 102, [2]));
  }

  lemma {:induction false} SecondModule(ph: Pens, img: seq<byte>)
    requires After(ph, 3, 3, 103, 104, 104, 101, 105, img)
    ensures After(ph, 6, 3, 106, 104, 104, 102, 105, WriteAt(WriteAt(img, 105, [2]), 104, [3]))
    ensures StartsAt(ph, 3, 101) && StartsAt(ph, 4, 105) && StartsAt(ph, 5, 104)
  {
    TextVisit(ph, 3, 3, 103, 104, 104, 101, 105, img);
    SecondVisit(ph, 4, 103, 104, 104, 102, 105, img);
    ThirdVisit(ph, 5, 103, 104, 104, 102, 106, WriteAt(img, 105, [2]));
  }

  /** The section table has section 2 at 102 and section 3 at 104. */
  lemma {:induction false} FourTour(ph: Pens)
    requires Stand(ph, 0, 102, 104, 102, 100, 102, [])
    ensures AllThere(FourVisits) && Toured(ph, FourVisits).img[2] == Shared()
    ensures forall j :: 0 <= j < 6 ==> StartsAt(ph, j, Places[j])
  {
    AllFourThere(0);
    FirstModule(ph);
    SecondModule(ph, WriteAt(WriteAt([], 102, [2]), 104, [3]));
    forall j | 0 <= j < 6 ensures StartsAt(ph, j, Places[j]) {
      if j < 3 { assert j == 0 || j == 1 || j == 2; } else { assert j == 3 || j == 4 || j == 5; }
    }
    assert FourVisits[..6] == FourVisits;
  }

  /** Parts with section 0 up to 102 and the shared sections from there to 106. */
  predicate Holding(p: Parts) {
    |p.lo| == |p.hi| == NPARTS && p.lo[0] == 0 && p.hi[0] == 102 && p.lo[2] == 102 && p.hi[2] == 106
  }

  lemma {:induction false} OneStays(p: Parts, ph: Pens, k: nat, pos: nat)
    requires Holding(p) && AllThere(FourVisits) && StartsAt(ph, k, pos)
    requires pos + 1 <= if FourVisits[k].sect == 0 then 102 else 106
    requires FourVisits[k].sect == 0 || 102 <= pos
    ensures VisitStays(p, ph, FourVisits, k)
  {
  }

  lemma {:induction false} FourStay(p: Parts, ph: Pens)
    requires Stand(ph, 0, 102, 104, 102, 100, 102, []) && Holding(p)
    ensures AllThere(FourVisits) && AllVisitsStay(p, ph, FourVisits)
  {
    FourTour(ph);
    forall j | 0 <= j < |FourVisits| ensures VisitStays(p, ph, FourVisits, j) { OneStays(p, ph, j, Places[j]); }
  }

  // ------------------------------------------------------------- in the file

  lemma {:induction false} KnownContent(o: Options, ms: seq<Module>, blks: seq<seq<nat>>)
    requires NSect(ms) <= MAXSECT && ReRead.Matches(ms, blks)
    ensures var im := ImageFor(LinkAgain(o, ms, blks));
      && im.Valid() && |im.table| == NSect(ms) == |im.Lengths()|
      && forall s :: 0 <= s < NSect(ms) ==>
        im.out[s] == Content(EnvOf(o, ms), ms, s) && im.Lengths()[s] == |Content(EnvOf(o, ms), ms, s)|
  {
    ImageAgain(o, ms, blks);
  }

  lemma {:induction false} TwoContent(env: Env, ms: seq<Module>, s: nat)
    requires ms == [FourSections, FourSections] && s < 4
    ensures Content(env, ms, s) == DataOf(FourSections, s) + DataOf(FourSections, s)
  {
    var m := FourSections;
    TwoOf(m, m);
    FourRaw(s);
    NotPatched(env, m, Origins([]), s);
    NotPatched(env, m, Origins([m]), s);
    assert Content(env, [m], s) == DataOf(m, s);
    ContentLength(env, [m], s);
  }

  /** Two modules with bytes in the sections 0, 2 and 3, which are not done in blocks. */
  ghost predicate TwoWhole(ms: seq<Module>, blks: seq<seq<nat>>) {
    ms == [FourSections, FourSections] && blks == [[0, 0, 0, 0], [0, 0, 0, 0]]
  }

  lemma {:induction false} TwoSections(ms: seq<Module>)
    requires ms == [FourSections, FourSections]
    ensures NSect(ms) == 4
  {
    var m := FourSections;
    TwoOf(m, m);
    assert NSect([]) == 0;
    assert NSect([m]) == 4;
  }

  lemma {:induction false} TwoGood(ms: seq<Module>, blks: seq<seq<nat>>)
    requires TwoWhole(ms, blks)
    ensures AllWellFormed(ms) && PlainNames(ms) && NSect(ms) == 4 && ReRead.Matches(ms, blks)
    ensures forall k :: 0 <= k < |ms| ==> ReRead.BlocksClear(ms[k], blks[k])
    ensures BasesAligned(NoOptions, 4)
  {
    TwoSections(ms);
    assert WellFormed(FourSections);
    assert ReRead.BlocksClear(FourSections, [0, 0, 0, 0]);
  }

  /** An image with what these modules have. */
  ghost predicate HasTwo(im: Image) {
    && im.Valid() && |im.table| == 4 && im.Lengths() == [2, 0, 2, 2]
    && im.out[2] == [2, 2] && im.out[3] == [3, 3]
  }

  lemma {:induction false} TwoImage(o: Options, ms: seq<Module>, blks: seq<seq<nat>>)
    requires TwoWhole(ms, blks) && NSect(ms) == 4 && ReRead.Matches(ms, blks)
    ensures HasTwo(ImageFor(LinkAgain(o, ms, blks)))
  {
    KnownContent(o, ms, blks);
    TwoData(EnvOf(o, ms), ms);
    TwoHas(ImageFor(LinkAgain(o, ms, blks)));
  }

  lemma {:induction false} TwoData(env: Env, ms: seq<Module>)
    requires ms == [FourSections, FourSections]
    ensures Content(env, ms, 0) == [1] + [1] && Content(env, ms, 1) == []
    ensures Content(env, ms, 2) == [2] + [2] && Content(env, ms, 3) == [3] + [3]
  {
    TwoContent(env, ms, 0);
    TwoContent(env, ms, 1);
    TwoContent(env, ms, 2);
    TwoContent(env, ms, 3);
  }

  lemma {:induction false} TwoHas(im: Image)
    requires im.Valid() && |im.table| == 4
    requires im.out[0] == [1] + [1] && im.out[1] == [] && im.out[2] == [2] + [2] && im.out[3] == [3] + [3]
    ensures HasTwo(im)
  {
  }

  lemma {:induction false} TwoSums(a: seq<int>)
    requires a == [2, 0, 2, 2]
    ensures Offsets(EmitStart(4), a, 4) == [100, 102, 102, 104] && EmitStart(4) + Sum(a) == 106
  {
    assert Prefix(a, 0) == [] && Prefix(a, 4) == a;
    SumLast(a, 0);
    SumLast(a, 1);
    SumLast(a, 2);
    SumLast(a, 3);
  }

  lemma {:induction false} TwoOffsets(im: Image)
    requires HasTwo(im)
    ensures Foff(im) == [100, 102, 102, 104] && TableAt(im, 0) == 106
  {
    TwoSums(im.Lengths());
    OffsetsAre(im);
  }

  lemma {:induction false} TwoStart(im: Image)
    requires HasTwo(im)
    ensures Stand(StartedPens(im), 0, 102, 104, 102, 100, 102, [])
  {
    TwoOffsets(im);
    ConcatLength(im.table, SZ_SECT);
  }

  lemma {:induction false} TwoParts(im: Image)
    requires HasTwo(im)
    ensures Holding(PartsFor(im))
  {
    TwoOffsets(im);
    assert StartOf(im.Pieces(), 1) == Foff(im)[1] && StartOf(im.Pieces(), 2) == Foff(im)[2];
  }

  lemma {:induction false} SentLast(vs: seq<Visit>, v: Visit, s: nat)
    ensures Sent(vs + [v], s) == if v.sect == s then Sent(vs, s) + v.bytes else Sent(vs, s)
    ensures LastShared(vs + [v]) == if v.sect >= SHARED then v.sect else LastShared(vs)
  {
    WithLast(vs, v);
  }

  /** The ends do not meet: section 2 is entered again where section 3 has come to. */
  lemma {:induction false} TwoDoNotFit()
    ensures !AllFit([100, 102, 102, 104], FourVisits)
  {
    var vs, a, b, c := FourVisits, Visit(0, [1]), Visit(2, [2]), Visit(3, [3]);
    assert vs[..4] == [] + [a] + [b] + [c] + [a];
    forall s | s == 2 || s == 3 ensures |Sent(vs[..4], s)| == 1 {
      SentLast([], a, s);
      SentLast([] + [a], b, s);
      SentLast([] + [a] + [b], c, s);
      SentLast([] + [a] + [b] + [c], a, s);
    }
    SentLast([] + [a] + [b], c, 0);
    SentLast([] + [a] + [b] + [c], a, 0);
    assert !EntryFits([100, 102, 102, 104], vs, 4);
  }

  lemma {:induction false} TwoWrong(o: Options, ms: seq<Module>)
    requires ms == [FourSections, FourSections]
    ensures NSect(ms) <= MAXSECT
    ensures !AllFit(FileOffsets(Heads(OutSections(o, ms))), ReRead.VisitsOf(EnvOf(o, ms), ms))
  {
    TwoPlaces(o, ms);
    FourVisitsAre(EnvOf(o, ms));
    TwoDoNotFit();
  }

  lemma {:induction false} TwoPlaces(o: Options, ms: seq<Module>)
    requires ms == [FourSections, FourSections]
    ensures NSect(ms) <= MAXSECT && FileOffsets(Heads(OutSections(o, ms))) == [100, 102, 102, 104]
  {
    TwoSections(ms);
    var hs := Heads(OutSections(o, ms));
    TwoData(EnvOf(o, ms), ms);
    forall s | 0 <= s < 4 ensures Flens(hs)[s] == [2, 0, 2, 2][s] {
      assert s == 0 || s == 1 || s == 2 || s == 3;
    }
    assert Flens(hs) == [2, 0, 2, 2];
    TwoSums(Flens(hs));
    FileOffsetsAre(hs);
  }

  /** What the file would have to be. */
  lemma {:induction false} TwoRight(im: Image)
    requires HasTwo(im)
    ensures |im.Flat()| >= 106 && im.Flat()[102..106] == [2, 2, 3, 3]
  {
    TwoOffsets(im);
    ConcatHolds(im.Pieces(), 2);
    ConcatHolds(im.Pieces(), 3);
    assert StartOf(im.Pieces(), 2) == Foff(im)[2] && StartOf(im.Pieces(), 3) == Foff(im)[3];
    TwoShown(im.Flat(), [2, 2], [3, 3]);
  }

  lemma {:induction false} TwoShown(f: seq<byte>, a: seq<byte>, b: seq<byte>)
    requires a == [2, 2] && b == [3, 3] && Holds(f, 102, a) && Holds(f, 104, b)
    ensures |f| >= 106 && f[102..106] == [2, 2, 3, 3]
  {
    assert HoldsAt(f, 102, a, 0) && HoldsAt(f, 102, a, 1);
    assert HoldsAt(f, 104, b, 0) && HoldsAt(f, 104, b, 1);
  }

  /**
    Two modules with bytes in the sections 0, 2 and 3: read again, they make a file
    in which the second byte of section 2 is missing and stands in place of the
    second byte of section 3.
   */
  method TwoModules(ms: seq<Module>, blks: seq<seq<nat>>) returns (ok: bool, f: seq<byte>)
    requires TwoWhole(ms, blks)
    ensures NSect(ms) <= MAXSECT && ReRead.Matches(ms, blks)
    ensures ok && |f| >= 106 && f[102..106] == [2, 0, 3, 2]
    ensures var right := FileOf(LinkAgain(NoOptions, ms, blks)); |right| >= 106 && right[102..106] == [2, 2, 3, 3]
  {
    TwoGood(ms, blks);
    TwoImage(NoOptions, ms, blks);
    ghost var im, visits := ImageFor(LinkAgain(NoOptions, ms, blks)), ReRead.VisitsOf(EnvOf(NoOptions, ms), ms);
    TwoStart(im);
    TwoParts(im);
    TwoRight(im);
    FourVisitsAre(EnvOf(NoOptions, ms));
    FourStay(PartsFor(im), StartedPens(im));
    FourTour(StartedPens(im));
    ok, f := LinkAgainAnyway(NoOptions, ms, blks);
    SharedShown(f, Toured(StartedPens(im), visits).img, PartsFor(im));
  }

  lemma {:induction false} SharedShown(f: seq<byte>, imgs: seq<seq<byte>>, p: Parts)
    requires p.Valid() && |imgs| == NPARTS && PartShown(f, imgs, p, 2) && imgs[2] == Shared() && Holding(p)
    ensures |f| >= 106 && f[102..106] == [2, 0, 3, 2]
  {
    SharedIs();
    assert ShowsAt(f, imgs[2], 102) && ShowsAt(f, imgs[2], 103) && ShowsAt(f, imgs[2], 104) && ShowsAt(f, imgs[2], 105);
    assert Shared()[102..106][0] == Shared()[102] && Shared()[102..106][1] == Shared()[103];
    assert Shared()[102..106][2] == Shared()[104] && Shared()[102..106][3] == Shared()[105];
  }

  // --------------------------------------------------- out of order, but right

  lemma {:induction false} LuckyRaw(ms: seq<Module>, s: nat)
    requires (ms == [] || ms == [TextAndTwo]) && s < 4
    ensures |Raw(ms, s)| == Origin(ms, s)
  {
    TwoOf(TextAndTwo, TextAndThree);
  }

  lemma {:induction false} LuckyFirst(env: Env)
    ensures ReRead.BroughtBy(env, [TextAndTwo]) == [Visit(0, [1]), Visit(2, [2])]
  {
    var m := TextAndTwo;
    LuckyRaw([], 0);
    LuckyRaw([], 1);
    LuckyRaw([], 2);
    BroughtNext(env, [], m, 1);
    BroughtNext(env, [], m, 2);
    BroughtNext(env, [], m, 3);
    assert There(m, 0) == [Visit(0, [1])] && There(m, 1) == [] && There(m, 2) == [Visit(2, [2])];
    assert [m][..0] == [];
  }

  lemma {:induction false} LuckySecond(env: Env, ms: seq<Module>)
    requires ms == [TextAndTwo]
    ensures ReRead.BroughtUpTo(env, ms, TextAndThree, 4) == ReRead.BroughtBy(env, ms) + [Visit(0, [1])]
        + [Visit(3, [3])]
  {
    var m, b := TextAndThree, ReRead.BroughtBy(env, ms);
    LuckyRaw(ms, 0);
    LuckyRaw(ms, 1);
    LuckyRaw(ms, 2);
    LuckyRaw(ms, 3);
    BroughtNext(env, ms, m, 1);
    BroughtNext(env, ms, m, 2);
    BroughtNext(env, ms, m, 3);
    BroughtNext(env, ms, m, 4);
    assert There(m, 0) == [Visit(0, [1])] && There(m, 1) == [] && There(m, 2) == [] && There(m, 3) == [Visit(3, [3])];
    assert b + [Visit(0, [1])] + [] + [] + [Visit(3, [3])] == b + [Visit(0, [1])] + [Visit(3, [3])];
  }

  lemma {:induction false} LuckyVisits(env: Env, ms: seq<Module>)
    requires ms == [TextAndTwo, TextAndThree]
    ensures ReRead.VisitsOf(env, ms) == [] + [Visit(0, [1])] + [Visit(2, [2])] + [Visit(0, [1])] + [Visit(3, [3])]
  {
    var a, b, c := Visit(0, [1]), Visit(2, [2]), Visit(3, [3]);
    LuckyFirst(env);
    LuckySecond(env, [TextAndTwo]);
    assert ms[..1] == [TextAndTwo];
    assert [a, b] == [] + [a] + [b];
    assert Merged([]) == [];
    MergedOther([], a);
    MergedOther([] + [a], b);
    MergedOther([] + [a] + [b], a);
    MergedOther([] + [a] + [b] + [a], c);
  }

  lemma {:induction false} LuckySects(ms: seq<Module>)
    requires ms == [TextAndTwo, TextAndThree]
    ensures NSect(ms) == 4
  {
    assert ms[..1] == [TextAndTwo] && [TextAndTwo][..0] == [];
    assert NSect([]) == 0 && NSect([TextAndTwo]) == 3;
  }

  lemma {:induction false} LuckyLengths(env: Env, ms: seq<Module>, s: nat)
    requires ms == [TextAndTwo, TextAndThree] && s < 4
    ensures |Content(env, ms, s)| == [2, 0, 1, 1][s]
  {
    assert ms[..1] == [TextAndTwo] && [TextAndTwo][..0] == [];
    LuckyRaw([TextAndTwo], s);
    assert |Raw([TextAndTwo], s)| == |DataOf(TextAndTwo, s)|;
    ContentLength(env, ms, s);
  }

  lemma {:induction false} LuckyOffsets(o: Options, ms: seq<Module>)
    requires ms == [TextAndTwo, TextAndThree]
    ensures NSect(ms) <= MAXSECT && FileOffsets(Heads(OutSections(o, ms))) == [100, 102, 102, 103]
  {
    LuckySects(ms);
    var hs := Heads(OutSections(o, ms));
    forall s | 0 <= s < 4 ensures Flens(hs)[s] == [2, 0, 1, 1][s] { LuckyLengths(EnvOf(o, ms), ms, s); }
    assert Flens(hs) == [2, 0, 1, 1];
    LuckySums(Flens(hs));
    FileOffsetsAre(hs);
  }

  lemma {:induction false} LuckySums(a: seq<int>)
    requires a == [2, 0, 1, 1]
    ensures Offsets(EmitStart(4), a, 4) == [100, 102, 102, 103]
  {
    assert Prefix(a, 0) == [];
    SumLast(a, 0);
    SumLast(a, 1);
    SumLast(a, 2);
  }

  /** Section 3 is entered where the cursor was left, at the end of section 2: it starts right there. */
  lemma {:induction false} Lucky(o: Options, ms: seq<Module>)
    requires ms == [TextAndTwo, TextAndThree]
    ensures NSect(ms) <= MAXSECT
    ensures AllFit(FileOffsets(Heads(OutSections(o, ms))), ReRead.VisitsOf(EnvOf(o, ms), ms))
    ensures !AllSame(ReRead.VisitsOf(EnvOf(o, ms), ms))
  {
    LuckyOffsets(o, ms);
    LuckyVisits(EnvOf(o, ms), ms);
    LuckyEntries([100, 102, 102, 103], ReRead.VisitsOf(EnvOf(o, ms), ms));
  }

  lemma {:induction false} LuckyEntries(lo: seq<nat>, vs: seq<Visit>)
    requires lo == [100, 102, 102, 103]
        && vs == [] + [Visit(0, [1])] + [Visit(2, [2])] + [Visit(0, [1])] + [Visit(3, [3])]
    ensures AllFit(lo, vs) && !AllSame(vs)
  {
    var a, b, c := Visit(0, [1]), Visit(2, [2]), Visit(3, [3]);
    assert vs[..1] == [] + [a] && vs[..3] == [] + [a] + [b] + [a];
    forall s | s == 2 || s == 3 ensures |Sent(vs[..3], s)| == 3 - s && LastShared(vs[..1]) == LastShared(vs[..3]) == 2 {
      SentLast([], a, s);
      SentLast([] + [a], b, s);
      SentLast([] + [a] + [b], a, s);
    }
    assert EndAt(lo, vs[..3], 3) == 103 == EndAt(lo, vs[..3], 2);
    assert LastShared([]) == SHARED;
    assert EntryFits(lo, vs, 0) && EntryFits(lo, vs, 2) && EntryFits(lo, vs, 3);
    assert EntryFits(lo, vs, 1);
    assert !EntrySame(vs, 3);
  }
}
