/**
  The output file as a whole: where complete_sections (Ack-5.5/ld/main.c) and
  the OFF_ macros of out.h put everything, and what the file is when the object
  writer has been given all of it, in whatever order.
 */
module OutputFile {
  import opened Bytes
  import opened FileCursor
  import opened ObjectWriter
  import opened Regions
  import opened Placement
  import opened WriteLog
  import opened Layout

  const SZ_RELO := 8
  const SZ_NAME := 12

  /** What goes into the file: header, section table, sections, entries, names and strings. */
  datatype Image = Image(header: seq<byte>, table: seq<seq<byte>>, out: seq<seq<byte>>, recs: seq<seq<byte>>,
      names: seq<seq<byte>>, text: seq<byte>) {
    ghost predicate Valid() {
      && |header| == SZ_HEAD && AllOf(table, SZ_SECT) && AllOf(recs, SZ_RELO) && AllOf(names, SZ_NAME)
      && |table| <= MAXSECT == |out|
      && forall s :: |table| <= s < MAXSECT ==> out[s] == []
    }

    /** What comes before the bytes of section 0. */
    function Front(): seq<byte> {
      header + Concat(table)
    }

    function Lengths(): (r: seq<int>)
      requires |table| <= |out|
      ensures |r| == |table| && forall s :: 0 <= s < |r| ==> r[s] == |out[s]|
    {
      seq(|table|, s requires 0 <= s < |table| => |out[s]|)
    }

    /** What each region gets. */
    function Pieces(): (r: seq<seq<byte>>)
      requires |out| == MAXSECT
      ensures |r| == NREGION && r[0] == Front() + out[0] && forall s :: 1 <= s < MAXSECT ==> r[s] == out[s]
      ensures r[MAXSECT] == Concat(recs) && r[MAXSECT + 1] == Concat(names) && r[MAXSECT + 2] == text
    {
      [Front() + out[0]] + out[1..] + [Concat(recs), Concat(names), text]
    }

    /** The whole file, piece after piece. */
    function Flat(): seq<byte>
      requires |out| == MAXSECT
    {
      Concat(Pieces())
    }
  }

  predicate AllOf(recs: seq<seq<byte>>, size: nat) {
    forall i :: 0 <= i < |recs| ==> |recs[i]| == size
  }

  // -------------------------------------------------------------- the regions

  /** Where piece t starts if each follows the one before it. */
  function StartOf(pieces: seq<seq<byte>>, t: nat): nat
    requires t <= |pieces|
  {
    if t == 0 then 0 else StartOf(pieces, t - 1) + |pieces[t - 1]|
  }

  function Tiled(pieces: seq<seq<byte>>): (p: Plan)
    requires |pieces| == NREGION
    ensures |p.lo| == |p.len| == NREGION
    ensures forall t :: 0 <= t < NREGION ==> p.lo[t] == StartOf(pieces, t) && p.len[t] == |pieces[t]|
  {
    Plan(seq(NREGION, t requires 0 <= t < NREGION => StartOf(pieces, t)),
        seq(NREGION, t requires 0 <= t < NREGION => |pieces[t]|))
  }

  lemma TiledValid(pieces: seq<seq<byte>>)
    requires |pieces| == NREGION
    ensures Tiled(pieces).Valid() && Within(Tiled(pieces), pieces)
  {
    var p := Tiled(pieces);
    forall t | 0 <= t < NREGION - 1 ensures p.InOrder(t) { assert p.lo[t + 1] == StartOf(pieces, t + 1); }
  }

  lemma HoldsNext(f: seq<byte>, at: nat, w: seq<byte>)
    requires at <= |f| && Holds(f, at, w)
    ensures at + |w| <= |f| && f[..at + |w|] == f[..at] + w
  {
    if |w| > 0 { assert HoldsAt(f, at, w, |w| - 1); }
    forall i | 0 <= i < |w| ensures f[at + i] == w[i] { assert HoldsAt(f, at, w, i); }
  }

  /** A file in which every region is full is the pieces one after the other. */
  lemma {:induction false} FullIsFlat(f: seq<byte>, pieces: seq<seq<byte>>, n: nat)
    requires |pieces| == NREGION && FileOk(f, Tiled(pieces), pieces) && n <= NREGION
    ensures StartOf(pieces, n) <= |f| && f[..StartOf(pieces, n)] == Concat(pieces[..n])
    decreases n
  {
    if n > 0 {
      FullIsFlat(f, pieces, n - 1);
      ConcatNext(pieces, n - 1);
      assert RegionOk(f, Tiled(pieces), pieces, n - 1);
      HoldsNext(f, StartOf(pieces, n - 1), pieces[n - 1]);
    }
  }

  lemma FileIsFlat(f: seq<byte>, im: Image)
    requires im.Valid() && FileOk(f, Tiled(im.Pieces()), im.Pieces())
    ensures f == im.Flat()
  {
    var pieces := im.Pieces();
    FullIsFlat(f, pieces, NREGION);
    assert pieces[..NREGION] == pieces;
    assert f[..StartOf(pieces, NREGION)] == f;
  }

  lemma {:induction false} ConcatLength(recs: seq<seq<byte>>, size: nat)
    requires AllOf(recs, size)
    ensures |Concat(recs)| == |recs| * size
    decreases |recs|
  {
    if |recs| > 0 {
      ConcatLength(recs[..|recs| - 1], size);
      OneMore(|recs| - 1, size);
    }
  }

  lemma OneMore(n: nat, size: nat)
    ensures (n + 1) * size == n * size + size
  {
  }

  lemma {:induction false} ConcatHolds(pieces: seq<seq<byte>>, t: nat)
    requires t < |pieces|
    ensures Holds(Concat(pieces), StartOf(pieces, t), pieces[t]) && |Concat(pieces)| == StartOf(pieces, |pieces|)
    decreases |pieces|
  {
    var n := |pieces| - 1;
    StartPrefix(pieces, n);
    ConcatStart(pieces[..n]);
    var c := Concat(pieces[..n]);
    if t < n {
      ConcatHolds(pieces[..n], t);
      StartPrefix(pieces, t);
      assert StartOf(pieces[..n], t) == StartOf(pieces, t);
      forall i | 0 <= i < |pieces[t]| ensures HoldsAt(c + pieces[n], StartOf(pieces, t), pieces[t], i) {
        assert HoldsAt(c, StartOf(pieces, t), pieces[t], i);
      }
    } else {
      forall i | 0 <= i < |pieces[n]| ensures HoldsAt(c + pieces[n], StartOf(pieces, n), pieces[n], i) {}
    }
  }

  lemma {:induction false} StartPrefix(pieces: seq<seq<byte>>, t: nat)
    requires t <= |pieces|
    ensures forall n :: t <= n <= |pieces| ==> StartOf(pieces[..n], t) == StartOf(pieces, t)
    decreases t
  {
    if t > 0 { StartPrefix(pieces, t - 1); }
  }

  lemma {:induction false} ConcatStart(pieces: seq<seq<byte>>)
    ensures |Concat(pieces)| == StartOf(pieces, |pieces|)
    decreases |pieces|
  {
    if |pieces| > 0 {
      ConcatStart(pieces[..|pieces| - 1]);
      StartPrefix(pieces, |pieces| - 1);
    }
  }

  // ------------------------------------------------------------- the offsets

  /** Where the sections' bytes start. */
  function EmitStart(nsect: nat): nat {
    SZ_HEAD + nsect * SZ_SECT
  }

  /** The section offsets are where the regions start. */
  lemma {:induction false} SectionStarts(im: Image, t: nat)
    requires im.Valid() && 1 <= t <= MAXSECT
    ensures StartOf(im.Pieces(), t) == EmitStart(|im.table|)
        + Sum(Prefix(im.Lengths(), if t <= |im.table| then t else |im.table|))
    decreases t
  {
    var r, n, len := im.Pieces(), |im.table|, im.Lengths();
    ConcatLength(im.table, SZ_SECT);
    if t == 1 {
      assert StartOf(r, 1) == StartOf(r, 0) + |r[0]|;
      assert Prefix(len, 0) == [];
      if n > 0 { SumLast(len, 0); }
    } else {
      SectionStarts(im, t - 1);
      assert r[t - 1] == im.out[t - 1];
      if t <= n { SumLast(len, t - 1); }
    }
  }

  /** The file offsets of the sections and the tables. */
  function Foff(im: Image): (r: seq<nat>)
    requires |im.table| <= MAXSECT == |im.out|
    ensures |r| == |im.table|
  {
    seq(|im.table|, s requires 0 <= s < |im.table| => if s == 0 then EmitStart(|im.table|) else StartOf(im.Pieces(), s))
  }

  function TableAt(im: Image, k: nat): nat
    requires |im.out| == MAXSECT && k < 3
  {
    StartOf(im.Pieces(), MAXSECT + k)
  }

  /** What complete_sections and wr_ohead compute. */
  lemma OffsetsAre(im: Image)
    requires im.Valid()
    ensures Foff(im) == Offsets(EmitStart(|im.table|), im.Lengths(), |im.table|)
    ensures TableAt(im, 0) == EmitStart(|im.table|) + Sum(im.Lengths())
    ensures TableAt(im, 1) == TableAt(im, 0) + |im.recs| * SZ_RELO
    ensures TableAt(im, 2) == TableAt(im, 1) + |im.names| * SZ_NAME
  {
    var r, n := im.Pieces(), |im.table|;
    assert Prefix(im.Lengths(), 0) == [];
    forall s | 0 <= s < n ensures Foff(im)[s] == EmitStart(n) + Sum(Prefix(im.Lengths(), s)) {
      if s > 0 { SectionStarts(im, s); }
    }
    SectionStarts(im, MAXSECT);
    assert Prefix(im.Lengths(), n) == im.Lengths();
    assert StartOf(r, MAXSECT + 1) == StartOf(r, MAXSECT) + |r[MAXSECT]|;
    assert StartOf(r, MAXSECT + 2) == StartOf(r, MAXSECT + 1) + |r[MAXSECT + 1]|;
    ConcatLength(im.recs, SZ_RELO);
    ConcatLength(im.names, SZ_NAME);
  }

  lemma OffsetsFit(im: Image)
    requires im.Valid()
    ensures Fits(Tiled(im.Pieces()), Foff(im), TableAt(im, 0), TableAt(im, 1), TableAt(im, 2))
  {
    TiledValid(im.Pieces());
  }

  // ------------------------------------------------------------- the calls

  /** What the calls give when the header and the table have been written before. */
  lemma {:induction false} GivenAfter(front: seq<byte>, calls: seq<Call>)
    requires AllSized(calls)
    ensures var a, b := Given(Plain(0, Nothing()[0 := front]), calls), Given(Plain(0, Nothing()), calls);
      a.sect == b.sect && a.given == b.given[0 := front + b.given[0]]
    decreases |calls|
  {
    if |calls| == 0 {
      assert front + [] == front;
    } else {
      var init, c := calls[..|calls| - 1], calls[|calls| - 1];
      GivenAfter(front, init);
      var b := Given(Plain(0, Nothing()), init);
      if c.Emit? && b.sect == 0 { Associate(front, b.given[0], c.b); }
    }
  }

  /** The header and the table are there. */
  function Started(im: Image): Plain {
    Plain(0, Nothing()[0 := im.Front()])
  }

  function StartedPens(im: Image): (ph: Pens)
    requires |im.table| <= MAXSECT == |im.out|
    ensures ph.Valid()
  {
    Begun(im.header, im.table, Foff(im), TableAt(im, 0), TableAt(im, 1), TableAt(im, 2))
  }

  lemma ImageGiven(calls: seq<Call>, im: Image, visits: seq<Visit>)
    requires im.Valid() && Logged(calls, Track(im.out, visits), im.recs, im.names, im.text)
    ensures Given(Started(im), calls).given == im.Pieces()
  {
    LoggedIs(calls, Track(im.out, visits), im.recs, im.names, im.text);
    GivenAfter(im.Front(), calls);
    var b := Gone(im.out, im.recs, im.names, im.text);
    assert b[0 := im.Front() + b[0]] == im.Pieces();
  }

  lemma StartFresh(im: Image, strict: bool)
    requires im.Valid()
    ensures Fresh(Tiled(im.Pieces()), |im.table|, Started(im), StartedPens(im), strict)
  {
    OffsetsFit(im);
    BegunFresh(Tiled(im.Pieces()), im.header, im.table, Foff(im), TableAt(im, 0), TableAt(im, 1), TableAt(im, 2),
        strict);
  }

  /** Does every byte of these calls go where the image has it? */
  ghost predicate AllInPlace(calls: seq<Call>, im: Image)
    requires im.Valid() && AllSized(calls) && Tiled(im.Pieces()).Valid()
  {
    AllOwn(Tiled(im.Pieces()), Started(im), StartedPens(im), calls)
  }

  /** Only sections that there are can be brought something. */
  lemma VisitsThere(calls: seq<Call>, im: Image, visits: seq<Visit>)
    requires im.Valid() && Logged(calls, Track(im.out, visits), im.recs, im.names, im.text) && AllBring(visits)
    ensures forall j :: 0 <= j < |visits| ==> visits[j].sect < |im.table|
  {
    LoggedIs(calls, Track(im.out, visits), im.recs, im.names, im.text);
    forall j | 0 <= j < |visits| ensures visits[j].sect < |im.table| {
      assert Brings(visits, j);
      SentPrefix(visits, j);
      JourneySized(calls, j);
      SentIsGiven(Plain(0, Nothing()), calls, visits[j].sect);
      assert [] + Sent(visits, visits[j].sect) == im.out[visits[j].sect];
    }
  }

  /** Whether the ends meet can be told from the offsets of the sections. */
  lemma {:induction false} FitsByOffsets(im: Image, visits: seq<Visit>)
    requires im.Valid() && forall j :: 0 <= j < |visits| ==> visits[j].sect < |im.table|
    ensures AllFit(Tiled(im.Pieces()).lo, visits) <==> AllFit(Foff(im), visits)
  {
    var a, b := Tiled(im.Pieces()).lo, Foff(im);
    assert SameShared(a, b, |im.table|);
    if AllFit(a, visits) { SameEnds(a, b, |im.table|, visits); }
    if AllFit(b, visits) { SameEnds(b, a, |im.table|, visits); }
  }

  /** Do the two say the same of the shared sections that there are? */
  predicate SameShared(a: seq<nat>, b: seq<nat>, n: nat) {
    n <= |a| && n <= |b| && forall s :: SHARED <= s < n ==> a[s] == b[s]
  }

  lemma {:induction false} SameEnds(a: seq<nat>, b: seq<nat>, n: nat, visits: seq<Visit>)
    requires SameShared(a, b, n) && forall j :: 0 <= j < |visits| ==> visits[j].sect < n
    requires AllFit(a, visits)
    ensures AllFit(b, visits)
  {
    forall j | 0 <= j < |visits| ensures EntryFits(b, visits, j) {
      assert EntryFits(a, visits, j);
      SharedThere(visits[..j], n);
    }
  }

  lemma {:induction false} SharedThere(vs: seq<Visit>, n: nat)
    requires forall j :: 0 <= j < |vs| ==> vs[j].sect < n
    ensures LastShared(vs) < n || LastShared(vs) == SHARED
    decreases |vs|
  {
    if |vs| > 0 { SharedThere(vs[..|vs| - 1], n); }
  }

  /**
    If every visit brings something: all bytes go where the image has them exactly
    if, by the offsets of the sections and what was brought before, every shared
    section that is entered from section 0 or 1 ends where the cursor was left.
   */
  lemma InPlaceExactly(calls: seq<Call>, im: Image, visits: seq<Visit>)
    requires im.Valid() && Logged(calls, Track(im.out, visits), im.recs, im.names, im.text) && AllBring(visits)
    ensures Tiled(im.Pieces()).Valid() && (AllInPlace(calls, im) <==> AllFit(Foff(im), visits))
  {
    TiledValid(im.Pieces());
    LoggedIs(calls, Track(im.out, visits), im.recs, im.names, im.text);
    StartFresh(im, false);
    ImageGiven(calls, im, visits);
    VisitsThere(calls, im, visits);
    FitsByOffsets(im, visits);
    OwnExactly(Tiled(im.Pieces()), |im.table|, Started(im), StartedPens(im), calls);
  }

  /** begin_write and the calls: the file is all of it, piece after piece. */
  method WriteFile(header: seq<byte>, table: seq<seq<byte>>, foff: seq<nat>, nemit: nat, nrelo: nat, nname: nat,
      calls: seq<Call>, ghost im: Image, ghost visits: seq<Visit>, ghost strict: bool) returns (f: seq<byte>)
    requires im.Valid() && header == im.header && table == im.table && nrelo == |im.recs| && nname == |im.names|
    requires foff == Offsets(EmitStart(|table|), im.Lengths(), |table|) && nemit == Sum(im.Lengths())
    requires Logged(calls, Track(im.out, visits), im.recs, im.names, im.text)
    requires if strict then AllSame(visits) else AllBring(visits) && AllFit(foff, visits)
    ensures f == im.Flat()
  {
    var relo := SZ_HEAD + |table| * SZ_SECT + nemit;
    var name := relo + nrelo * SZ_RELO;
    OffsetsAre(im);
    OffsetsFit(im);
    TiledValid(im.Pieces());
    ImageGiven(calls, im, visits);
    LoggedIs(calls, Track(im.out, visits), im.recs, im.names, im.text);
    if !strict {
      VisitsThere(calls, im, visits);
      FitsByOffsets(im, visits);
    }
    f := WritePlaced(header, table, foff, relo, name, name + nname * SZ_NAME, calls, Tiled(im.Pieces()), strict);
    FileIsFlat(f, im);
  }
}
