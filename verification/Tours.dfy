/**
  What the file is when the sections are visited in any order, right or wrong: it
  depends on the visits only, and can be told visit by visit.
 */
module Tours {
  import opened Bytes
  import opened FileCursor
  import opened ObjectWriter
  import opened Regions
  import opened Placement
  import opened WriteLog
  import opened Layout
  import opened OutputFile

  predicate AllThere(vs: seq<Visit>) {
    forall j :: 0 <= j < |vs| ==> vs[j].sect < MAXSECT
  }

  /** The pens after the visits. */
  function Toured(ph: Pens, vs: seq<Visit>): (r: Pens)
    requires ph.Valid() && AllThere(vs)
    ensures r.Valid()
  {
    if |vs| == 0 then ph
    else
      var v := vs[|vs| - 1];
      Toured(ph, vs[..|vs| - 1]).Move(v.sect).Do(Emit(v.bytes))
  }

  /** The same but for the cursors of the tables. */
  ghost predicate SameSections(a: Pens, b: Pens)
    requires a.Valid() && b.Valid()
  {
    && a.sect == b.sect && a.off == b.off && a.start == b.start
    && a.next[..SECTCNT] == b.next[..SECTCNT] && a.img[..SECTCNT] == b.img[..SECTCNT]
  }

  /** There is no whole buffer in the shared cursor. */
  predicate Settled(ph: Pens)
    requires ph.Valid()
  {
    StartAfter(ph.start, ph.next[SHARED]) == ph.start
  }

  lemma StartTwice(start: nat, n: nat, m: nat)
    requires n <= m
    ensures StartAfter(StartAfter(start, n), m) == StartAfter(start, m) && StartAfter(start, start) == start
  {
  }

  lemma SettledDo(ph: Pens, c: Call)
    requires ph.Valid() && Settled(ph) && Sized(c)
    ensures Settled(ph.Do(c))
  {
    if c.Emit? { StartTwice(ph.start, ph.next[SHARED] + |c.b|, ph.next[SHARED] + |c.b|); }
    if c.Sect? { StartTwice(ph.off[c.s], ph.off[c.s], ph.off[c.s]); }
  }

  lemma WriteTwice(ph: Pens, c: nat, a: seq<byte>, b: seq<byte>)
    requires ph.Valid() && c < NPARTS
    ensures ph.Write(c, a).Write(c, b) == ph.Write(c, a + b)
  {
    WriteAtAppend(ph.img[c], ph.next[c], a, b);
  }

  /** Written in two goes or in one. */
  lemma EmitTwice(ph: Pens, a: seq<byte>, b: seq<byte>)
    requires ph.Valid()
    ensures ph.Do(Emit(a)).Do(Emit(b)) == ph.Do(Emit(a + b))
  {
    WriteTwice(ph, PartOf(ph.sect), a, b);
    StartTwice(ph.start, ph.next[SHARED] + |a|, ph.next[SHARED] + |a| + |b|);
  }

  lemma EmitNothing(ph: Pens)
    requires ph.Valid() && Settled(ph)
    ensures ph.Do(Emit([])) == ph
  {
    NothingWritten(ph, PartOf(ph.sect));
  }

  lemma SameDo(a: Pens, b: Pens, c: Call)
    requires a.Valid() && b.Valid() && SameSections(a, b) && Sized(c)
    ensures SameSections(a.Do(c), if c.Sect? || c.Emit? then b.Do(c) else b)
  {
    assert forall d :: 0 <= d < SECTCNT ==> a.next[d] == a.next[..SECTCNT][d] && b.next[d] == b.next[..SECTCNT][d];
    assert forall d :: 0 <= d < SECTCNT ==> a.img[d] == a.img[..SECTCNT][d] && b.img[d] == b.img[..SECTCNT][d];
  }

  /** The calls come to what their visits come to. */
  lemma {:induction false} PennedIsToured(ph: Pens, calls: seq<Call>)
    requires ph.Valid() && Settled(ph) && ph.sect == 0 && AllSized(calls)
    ensures AllThere(Journey(calls)) && SameSections(Penned(ph, calls), Toured(ph, Journey(calls)))
    ensures Settled(Toured(ph, Journey(calls))) && Toured(ph, Journey(calls)).sect == LastOf(Journey(calls))
    decreases |calls|
  {
    if |calls| > 0 {
      var init, c := calls[..|calls| - 1], calls[|calls| - 1];
      PennedIsToured(ph, init);
      assert Sized(c);
      SameDo(Penned(ph, init), Toured(ph, Journey(init)), c);
      match c
      case Sect(s) => TouredEnter(ph, Journey(init), s);
      case Emit(b) => TouredBring(ph, Journey(init), b);
      case _ =>
    }
  }

  lemma TouredEnter(ph: Pens, vs: seq<Visit>, s: nat)
    requires ph.Valid() && AllThere(vs) && Settled(Toured(ph, vs)) && Toured(ph, vs).sect == LastOf(vs) && s < MAXSECT
    ensures var now := Enter(vs, s);
      AllThere(now) && Toured(ph, now) == Toured(ph, vs).Do(Sect(s)) && Settled(Toured(ph, now))
          && Toured(ph, now).sect == s
  {
    var now, at := Enter(vs, s), Toured(ph, vs);
    SettledDo(at, Sect(s));
    if now != vs {
      WithLast(vs, Visit(s, []));
      EmitNothing(at.Move(s));
    }
  }

  lemma TouredBring(ph: Pens, vs: seq<Visit>, b: seq<byte>)
    requires ph.Valid() && ph.sect == 0 && AllThere(vs) && Settled(Toured(ph, vs)) && Toured(ph, vs).sect == LastOf(vs)
    ensures var now := Bring(vs, b);
      && AllThere(now) && Toured(ph, now) == Toured(ph, vs).Do(Emit(b)) && Settled(Toured(ph, now))
      && Toured(ph, now).sect == LastOf(now)
  {
    SettledDo(Toured(ph, vs), Emit(b));
    if |vs| == 0 {
      WithLast([], Visit(0, b));
      assert [] + [Visit(0, b)] == [Visit(0, b)];
    } else {
      var front, v := vs[..|vs| - 1], vs[|vs| - 1];
      WithLast(front, Visit(v.sect, v.bytes + b));
      EmitTwice(Toured(ph, front).Move(v.sect), v.bytes, b);
    }
  }

  // --------------------------------------------------------- within the parts

  /** Does visit j write within the part of its cursor? */
  predicate VisitStays(p: Parts, ph: Pens, vs: seq<Visit>, j: nat)
    requires |p.lo| == |p.hi| == NPARTS && ph.Valid() && AllThere(vs) && j < |vs|
  {
    var c := PartOf(vs[j].sect);
    p.InPart(c, Toured(ph, vs[..j]).Move(vs[j].sect).next[c], |vs[j].bytes|)
  }

  predicate AllVisitsStay(p: Parts, ph: Pens, vs: seq<Visit>)
    requires |p.lo| == |p.hi| == NPARTS && ph.Valid() && AllThere(vs)
  {
    forall j :: 0 <= j < |vs| ==> VisitStays(p, ph, vs, j)
  }

  lemma {:induction false} StaysBefore(p: Parts, ph: Pens, was: seq<Visit>, now: seq<Visit>, j: nat)
    requires |p.lo| == |p.hi| == NPARTS && ph.Valid() && AllThere(now) && AllThere(was) && j < |was| <= |now|
    requires VisitStays(p, ph, now, j) && was[..j] == now[..j]
    requires was[j].sect == now[j].sect && |was[j].bytes| <= |now[j].bytes|
    ensures VisitStays(p, ph, was, j)
  {
  }

  /** The last visit may have brought less. */
  predicate LessThan(was: seq<Visit>, now: seq<Visit>) {
    && |was| <= |now|
    && forall j :: 0 <= j < |was| ==>
      was[..j] == now[..j] && was[j].sect == now[j].sect && |was[j].bytes| <= |now[j].bytes|
  }

  lemma {:induction false} VisitedLess(vs: seq<Visit>, c: Call)
    ensures LessThan(vs, Visited(vs, c))
  {
    var now := Visited(vs, c);
    forall j | 0 <= j < |vs| ensures vs[..j] == now[..j] {}
  }

  lemma {:induction false} StaysLess(p: Parts, ph: Pens, was: seq<Visit>, now: seq<Visit>)
    requires |p.lo| == |p.hi| == NPARTS && ph.Valid() && AllThere(now) && LessThan(was, now)
        && AllVisitsStay(p, ph, now)
    ensures AllThere(was) && AllVisitsStay(p, ph, was)
  {
    forall j | 0 <= j < |was| ensures was[j].sect < MAXSECT { assert was[j].sect == now[j].sect; }
    forall j | 0 <= j < |was| ensures VisitStays(p, ph, was, j) {
      assert VisitStays(p, ph, now, j);
      StaysBefore(p, ph, was, now, j);
    }
  }

  /** Calls whose visits stay within their parts stay there, too. */
  lemma {:induction false} EmitStays(p: Parts, ph: Pens, calls: seq<Call>, k: nat)
    requires p.Valid() && ph.Valid() && Settled(ph) && ph.sect == 0 && AllSized(calls) && k < |calls| && calls[k].Emit?
    requires AllThere(Journey(calls)) && AllVisitsStay(p, ph, Journey(calls))
    ensures StaysAt(p, ph, calls, k)
    decreases |calls|
  {
    var init, c := calls[..|calls| - 1], calls[|calls| - 1];
    if k < |init| {
      VisitedLess(Journey(init), c);
      StaysLess(p, ph, Journey(init), Journey(calls));
      EmitStays(p, ph, init, k);
      assert init[..k] == calls[..k];
      assert StaysAt(p, ph, init, k);
    } else {
      LastStays(p, ph, init, c.b);
    }
  }

  lemma LastStays(p: Parts, ph: Pens, init: seq<Call>, b: seq<byte>)
    requires p.Valid() && ph.Valid() && Settled(ph) && ph.sect == 0 && AllSized(init)
    requires AllThere(Bring(Journey(init), b)) && AllVisitsStay(p, ph, Bring(Journey(init), b))
    ensures p.Stays(Penned(ph, init), Emit(b))
  {
    var vs, now := Journey(init), Bring(Journey(init), b);
    PennedIsToured(ph, init);
    var at := Toured(ph, vs);
    var c := PartOf(at.sect);
    assert Penned(ph, init).next[c] == Penned(ph, init).next[..SECTCNT][c] == at.next[..SECTCNT][c] == at.next[c];
    assert VisitStays(p, ph, now, |now| - 1);
    if |vs| == 0 {
      assert now[..0] == [];
    } else {
      assert now[..|now| - 1] == vs[..|vs| - 1];
    }
  }

  // ---------------------------------------------------------------- the tables

  predicate TableRight(p: Plan, st: Plain, ph: Pens, t: nat)
    requires p.Valid() && st.Valid() && ph.Valid() && MAXSECT <= t < NREGION
  {
    ph.next[CursorOf(t)] == p.lo[t] + |st.given[t]|
  }

  predicate TablesRight(p: Plan, st: Plain, ph: Pens)
    requires p.Valid() && st.Valid() && ph.Valid()
  {
    forall t :: MAXSECT <= t < NREGION ==> TableRight(p, st, ph, t)
  }

  lemma TablesDo(p: Plan, st: Plain, ph: Pens, c: Call)
    requires p.Valid() && st.Valid() && ph.Valid() && TablesRight(p, st, ph) && Sized(c)
    ensures TablesRight(p, st.Do(c), ph.Do(c))
  {
    forall t | MAXSECT <= t < NREGION ensures TableRight(p, st.Do(c), ph.Do(c), t) { assert TableRight(p, st, ph, t); }
  }

  lemma {:induction false} TablesKept(p: Plan, st: Plain, ph: Pens, calls: seq<Call>)
    requires p.Valid() && st.Valid() && ph.Valid() && TablesRight(p, st, ph) && AllSized(calls)
    ensures TablesRight(p, Given(st, calls), Penned(ph, calls))
    decreases |calls|
  {
    if |calls| > 0 {
      TablesKept(p, st, ph, calls[..|calls| - 1]);
      TablesDo(p, Given(st, calls[..|calls| - 1]), Penned(ph, calls[..|calls| - 1]), calls[|calls| - 1]);
    }
  }

  lemma {:induction false} TableStays(p: Plan, st: Plain, ph: Pens, calls: seq<Call>, k: nat)
    requires p.Valid() && PartsOf(p).Valid() && st.Valid() && ph.Valid() && TablesRight(p, st, ph) && AllSized(calls)
    requires Within(p, Given(st, calls).given) && k < |calls| && !calls[k].Sect? && !calls[k].Emit?
    ensures StaysAt(PartsOf(p), ph, calls, k)
  {
    var at, c := Given(st, calls[..k]), calls[k];
    var t := RegionFor(at.sect, c);
    TablesKept(p, st, ph, calls[..k]);
    assert TableRight(p, at, Penned(ph, calls[..k]), t);
    RegionInPart(p, t);
    assert calls[..k + 1][..k] == calls[..k];
    GivenGrows(st, calls, k + 1);
    WithinLess(p, Given(st, calls[..k + 1]).given, Given(st, calls).given);
    assert |Given(st, calls[..k + 1]).given[t]| <= p.len[t];
  }

  // ------------------------------------------------------------ the whole file

  lemma {:induction false} StartedRight(im: Image)
    requires im.Valid()
    ensures Tiled(im.Pieces()).Valid() && PartsOf(Tiled(im.Pieces())).Valid()
    ensures TablesRight(Tiled(im.Pieces()), Started(im), StartedPens(im))
    ensures Settled(StartedPens(im)) && StartedPens(im).sect == 0
  {
    var p := Tiled(im.Pieces());
    TiledValid(im.Pieces());
    PartsValid(p);
    StartFresh(im, false);
    forall t | MAXSECT <= t < NREGION ensures TableRight(p, Started(im), StartedPens(im), t) {
      assert CursorRight(p, |im.table|, Started(im), StartedPens(im), CursorOf(t));
    }
  }

  /** The parts of the file for these pieces. */
  function PartsFor(im: Image): (p: Parts)
    requires im.Valid()
    ensures p.Valid()
  {
    TiledValid(im.Pieces());
    PartsValid(Tiled(im.Pieces()));
    PartsOf(Tiled(im.Pieces()))
  }

  /** If the visits stay within the parts, so do the calls. */
  lemma {:induction false} AllCallsStay(calls: seq<Call>, im: Image, visits: seq<Visit>)
    requires im.Valid() && Logged(calls, Track(im.out, visits), im.recs, im.names, im.text)
    requires AllThere(visits) && AllVisitsStay(PartsFor(im), StartedPens(im), visits)
    ensures AllSized(calls) && AllStay(PartsFor(im), StartedPens(im), calls)
  {
    var p, ph := Tiled(im.Pieces()), StartedPens(im);
    StartedRight(im);
    LoggedIs(calls, Track(im.out, visits), im.recs, im.names, im.text);
    ImageGiven(calls, im, visits);
    forall k | 0 <= k < |calls| ensures StaysAt(PartsOf(p), ph, calls, k) {
      if calls[k].Emit? {
        EmitStays(PartsOf(p), ph, calls, k);
      } else if !calls[k].Sect? {
        TableStays(p, Started(im), ph, calls, k);
      }
    }
  }

  /**
    In any order that stays within the parts: the file shows the bytes of the
    sections where the visits, one after the other, have written them.
   */
  method WriteAnyway(header: seq<byte>, table: seq<seq<byte>>, foff: seq<nat>, nemit: nat, nrelo: nat, nname: nat,
      calls: seq<Call>, ghost im: Image, ghost visits: seq<Visit>) returns (f: seq<byte>)
    requires im.Valid() && header == im.header && table == im.table && nrelo == |im.recs| && nname == |im.names|
    requires foff == Offsets(EmitStart(|table|), im.Lengths(), |table|) && nemit == Sum(im.Lengths())
    requires Logged(calls, Track(im.out, visits), im.recs, im.names, im.text)
    requires AllThere(visits) && AllVisitsStay(PartsFor(im), StartedPens(im), visits)
    ensures forall c :: 0 <= c < SECTCNT ==> PartShown(f, Toured(StartedPens(im), visits).img, PartsFor(im), c)
  {
    var relo := SZ_HEAD + |table| * SZ_SECT + nemit;
    var name := relo + nrelo * SZ_RELO;
    var char_ := name + nname * SZ_NAME;
    OffsetsAre(im);
    assert foff == Foff(im) && relo == TableAt(im, 0) && name == TableAt(im, 1) && char_ == TableAt(im, 2);
    f := WritePieces(header, table, foff, relo, name, char_, calls, im, visits);
  }

  method WritePieces(header: seq<byte>, table: seq<seq<byte>>, foff: seq<nat>, relo: nat, name: nat, char_: nat,
      calls: seq<Call>, ghost im: Image, ghost visits: seq<Visit>) returns (f: seq<byte>)
    requires im.Valid() && header == im.header && table == im.table && foff == Foff(im)
    requires relo == TableAt(im, 0) && name == TableAt(im, 1) && char_ == TableAt(im, 2)
    requires Logged(calls, Track(im.out, visits), im.recs, im.names, im.text)
    requires AllThere(visits) && AllVisitsStay(PartsFor(im), StartedPens(im), visits)
    ensures forall c :: 0 <= c < SECTCNT ==> PartShown(f, Toured(StartedPens(im), visits).img, PartsFor(im), c)
  {
    FrontFits(im);
    AllCallsStay(calls, im, visits);
    f := WriteObject(header, table, foff, relo, name, char_, calls, PartsFor(im));
    ToursShown(f, calls, im, visits);
  }

  lemma {:induction false} FrontFits(im: Image)
    requires im.Valid()
    ensures PartsFor(im).lo[0] == 0 && |im.header| + |Concat(im.table)| <= PartsFor(im).hi[0]
  {
    var p := Tiled(im.Pieces());
    TiledValid(im.Pieces());
    RegionsApart(p, 0, 1);
    assert |im.Pieces()[0]| == |im.header| + |Concat(im.table)| + |im.out[0]|;
  }

  lemma {:induction false} ToursShown(f: seq<byte>, calls: seq<Call>, im: Image, visits: seq<Visit>)
    requires im.Valid() && Logged(calls, Track(im.out, visits), im.recs, im.names, im.text) && AllThere(visits)
    requires AllShown(f, Penned(StartedPens(im), calls).img, PartsFor(im))
    ensures forall c :: 0 <= c < SECTCNT ==> PartShown(f, Toured(StartedPens(im), visits).img, PartsFor(im), c)
  {
    var p, ph := PartsFor(im), StartedPens(im);
    LoggedIs(calls, Track(im.out, visits), im.recs, im.names, im.text);
    StartedRight(im);
    PennedIsToured(ph, calls);
    forall c | 0 <= c < SECTCNT ensures PartShown(f, Toured(ph, visits).img, p, c) {
      assert PartShown(f, Penned(ph, calls).img, p, c);
      assert Penned(ph, calls).img[c] == Penned(ph, calls).img[..SECTCNT][c] == Toured(ph, visits).img[..SECTCNT][c];
    }
  }
}
