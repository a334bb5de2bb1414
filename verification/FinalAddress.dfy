/**
  What a link without -r puts in the bytes of the output: which bytes change,
  and to what; where the bytes of a module are; the values of defined names.
 */
module FinalAddress {
  import opened Bytes
  import opened Names
  import opened Relocation
  import opened LinkModel
  import opened LinkAppend
  import opened TwoSteps
  import opened PartialModule
  import opened PartialLink
  import opened Layout

  // ------------------------------------------------------ between the passes

  method AddCommons(sizes: seq<int>, common: seq<int>) returns (full: seq<int>)
    requires |sizes| == |common|
    ensures |full| == |sizes| && forall s :: 0 <= s < |sizes| ==> full[s] == sizes[s] + common[s]
  {
    full := [];
    while |full| < |sizes|
      invariant |full| <= |sizes| && forall s :: 0 <= s < |full| ==> full[s] == sizes[s] + common[s]
    {
      full := full + [sizes[|full|] + common[|full|]];
    }
  }

  lemma FullNatural(ms: seq<Module>)
    requires AllWellFormed(ms) && NSect(ms) <= MAXSECT
    ensures NonNegative(FullSizes(Globals(ms), Origins(ms)))
  {
    GlobalsOk(ms);
    var gs := Globals(ms);
    forall k | 0 <= k < |gs| ensures gs[k].com ==> gs[k].valu >= 0 { assert NameOk(gs[k], NSect(ms)); }
    forall s | 0 <= s < MAXSECT ensures FullSizes(gs, Origins(ms))[s] >= 0 { CommonSizeGrows(gs, 0, |gs|, s); }
  }

  /**
    norm_commons, complete_sections and change_names: the names and bases of the
    second pass, unless a base is not aligned.
   */
  method BetweenPasses(o: Options, names: array<Name>, sizes: seq<int>, flen: seq<int>, nsect: nat,
      ghost ms: seq<Module>)
    returns (ok: bool, rflag: bool, base: seq<int>, full: seq<int>)
    requires AllWellFormed(ms) && nsect == NSect(ms) <= MAXSECT
    requires names[..] == Globals(ms) && sizes == Origins(ms) && flen == Lengths(ms)
    modifies names
    ensures ok == (Relocatable(o, Globals(ms)) || BasesAligned(o, nsect))
    ensures ok ==> names[..] == EnvOf(o, ms).globals && base == EnvOf(o, ms).base
    ensures rflag == Relocatable(o, Globals(ms)) && full == if rflag then sizes else FullSizes(Globals(ms), sizes)
  {
    ok := true;
    GlobalsPlaceable(ms);
    var common;
    rflag, common := NormCommons(names, o.rflag, sizes);
    if rflag {
      base, full := Zeroes(MAXSECT), sizes;
      return;
    }
    full := AddCommons(sizes, common);
    assert full == FullSizes(Globals(ms), sizes);
    FullNatural(ms);
    var natural: seq<nat> := full;
    var foff;
    ok, base, foff := CompleteSections(o, nsect, natural, flen);
    base := base + Zeroes(MAXSECT - nsect);
    if ok && !o.nflag { ChangeNames(names, base); }
  }

  lemma GlobalsPlaceable(ms: seq<Module>)
    requires AllWellFormed(ms) && NSect(ms) <= MAXSECT
    ensures Placeable(Globals(ms), MAXSECT)
  {
    GlobalsOk(ms);
    forall i | 0 <= i < |Globals(ms)| ensures NameOk(Globals(ms)[i], MAXSECT) {
      assert NameOk(Globals(ms)[i], NSect(ms));
    }
  }

  // -------------------------------------------------------- the final bytes

  ghost predicate ByteIs(c: seq<byte>, at: nat, v: byte) {
    at < |c| && c[at] == v
  }

  /** Where module k's part of section s is in the output. */
  lemma {:induction false} ContentSlice(env: Env, ms: seq<Module>, k: nat, s: nat)
    requires AllWellFormed(ms) && k < |ms| && |DataOf(ms[k], s)| > 0
    ensures Holds(Content(env, ms, s), Origin(ms[..k], s), PatchedData(env, ms[k], Origins(ms[..k]), s))
    decreases |ms|
  {
    var init, last := ms[..|ms| - 1], ms[|ms| - 1];
    InitLast(ms, k);
    if k < |init| {
      ContentSlice(env, init, k, s);
      SliceKept(env, init, last, s, Origin(ms[..k], s), PatchedData(env, ms[k], Origins(ms[..k]), s));
    } else {
      SlicePlaced(env, init, last, s);
    }
  }

  lemma InitLast(ms: seq<Module>, k: nat)
    requires k < |ms|
    ensures var init, last := ms[..|ms| - 1], ms[|ms| - 1];
      && ms == init + [last]
      && (if k < |init| then init[..k] == ms[..k] && init[k] == ms[k] else init == ms[..k] && last == ms[k])
  {
  }

  lemma SliceKept(env: Env, init: seq<Module>, last: Module, s: nat, at: nat, d: seq<byte>)
    requires Holds(Content(env, init, s), at, d)
    ensures Holds(Content(env, init + [last], s), at, d)
  {
    ContentLast(env, init + [last], init, last, s);
    AppendKeeps(Content(env, init, s), Origin(init, s), PatchedData(env, last, Origins(init), s), at, d);
  }

  lemma SlicePlaced(env: Env, init: seq<Module>, last: Module, s: nat)
    requires AllWellFormed(init) && |DataOf(last, s)| > 0
    ensures Holds(Content(env, init + [last], s), Origin(init, s), PatchedData(env, last, Origins(init), s))
  {
    ContentLast(env, init + [last], init, last, s);
    ContentIs(env, init, s);
    ContentFromBound(env, [], init, s);
    AppendPlaces(Content(env, init, s), Origin(init, s), PatchedData(env, last, Origins(init), s));
  }

  lemma AppendKeeps(a: seq<byte>, m: nat, b: seq<byte>, at: nat, d: seq<byte>)
    requires Holds(a, at, d)
    ensures Holds(Append(a, m, b), at, d)
  {
    forall i | 0 <= i < |d| ensures HoldsAt(Append(a, m, b), at, d, i) { assert HoldsAt(a, at, d, i); }
  }

  lemma AppendPlaces(a: seq<byte>, m: nat, b: seq<byte>)
    requires |a| <= m && |b| > 0
    ensures Holds(Append(a, m, b), m, b)
  {
  }

  /** What the tables of the second pass have for what an entry of module k refers to. */
  function Referred(env: Env, ms: seq<Module>, k: nat, nami: nat): int
    requires k < |ms|
  {
    var m := ms[k];
    if nami >= |m.names| then 0
    else if m.names[nami].sct then
      var s := m.names[nami].typ - S_MIN;
      At(Origins(ms[..k]), s) + At(env.base, s)
    else
      match Find(env.globals, m.names[nami].str)
      case None => 0
      case Some(g) => g.valu
  }

  /** Nothing is left to be resolved. */
  ghost predicate AllDefined(gs: seq<Name>) {
    forall i :: 0 <= i < |gs| ==> KindOf(gs[i]) == Defined && gs[i].ext
  }

  lemma FinalAllDefined(o: Options, ms: seq<Module>)
    requires AllWellFormed(ms) && NSect(ms) <= MAXSECT && !Relocatable(o, Globals(ms))
    ensures AllDefined(EnvOf(o, ms).globals)
  {
    var gs := Globals(ms);
    GlobalsOk(ms);
    GlobalsShape(ms);
    forall i | 0 <= i < |gs| ensures KindOf(EnvOf(o, ms).globals[i]) == Defined && EnvOf(o, ms).globals[i].ext {
      assert NameOk(gs[i], NSect(ms)) && !IsUndefined(gs[i]) && gs[i].ext;
      PlacedDefined(gs, Origins(ms), i, NSect(ms));
    }
  }

  lemma PlacedDefined(gs: seq<Name>, sizes: seq<int>, i: nat, nsect: nat)
    requires i < |gs| && NameOk(gs[i], nsect) && nsect <= |sizes| && !IsUndefined(gs[i]) && gs[i].ext
    ensures KindOf(Placed(gs, sizes, i)) == Defined && Placed(gs, sizes, i).ext
    ensures forall base: seq<int> ::
        KindOf(NameRelocate(Placed(gs, sizes, i), base)) == Defined && NameRelocate(Placed(gs, sizes, i), base).ext
  {
  }

  lemma DeltaIsReferred(env: Env, ms: seq<Module>, k: nat, nami: nat)
    requires k < |ms| && AllDefined(env.globals)
    ensures AddRelo(env, ms[k], Origins(ms[..k]), nami).delta == Referred(env, ms, k, nami)
  {
  }

  /** The old value of the datum of entry r, less the final address of its own part if it is pc-relative. */
  function OldValue(env: Env, ms: seq<Module>, k: nat, r: Relo): int
    requires k < |ms| && WellFormed(ms[k]) && r in ms[k].relos
  {
    Entry(ms[k], r);
    GetValu(DataOf(ms[k], r.sect)[r.addr .. r.addr + r.t.size], r.t)
    - if r.t.pc then At(Origins(ms[..k]), r.sect) + At(env.base, r.sect) else 0
  }

  /** What becomes of the datum of entry r of module k. */
  function FinalValue(env: Env, ms: seq<Module>, k: nat, r: Relo): int
    requires k < |ms| && WellFormed(ms[k]) && r in ms[k].relos
  {
    OldValue(env, ms, k, r) + Referred(env, ms, k, r.nami)
  }

  lemma Entry(m: Module, r: Relo)
    requires WellFormed(m) && r in m.relos
    ensures r.t.Legal() && r.sect < |m.sects| && r.addr + r.t.size <= |DataOf(m, r.sect)| && |DataOf(m, r.sect)| > 0
  {
    var i :| 0 <= i < |m.relos| && m.relos[i] == r;
    assert ReloOk(m.relos[i], m);
  }

  lemma PatchOfEntry(env: Env, m: Module, origin: seq<int>, r: Relo) returns (j: nat)
    requires r in m.relos
    ensures j < |PatchesOn(env, m, origin, m.relos, r.sect)|
        && PatchesOn(env, m, origin, m.relos, r.sect)[j] == PatchOf(env, m, origin, r)
  {
    var i :| 0 <= i < |m.relos| && m.relos[i] == r;
    OnSectionHas(m.relos, r.sect, i);
    j :| 0 <= j < |OnSection(m.relos, r.sect)| && OnSection(m.relos, r.sect)[j] == r;
  }

  /** What is put for an entry of module k. */
  function FinalBytes(env: Env, ms: seq<Module>, k: nat, r: Relo): seq<byte>
    requires k < |ms| && WellFormed(ms[k]) && r in ms[k].relos
  {
    Entry(ms[k], r);
    PutValu(FinalValue(env, ms, k, r), r.t)
  }

  /** In the output, the datum of entry r of module k is w. */
  ghost predicate DatumIs(env: Env, ms: seq<Module>, k: nat, r: Relo, w: seq<byte>)
    requires k < |ms|
  {
    Holds(Content(env, ms, r.sect), Origin(ms[..k], r.sect) + r.addr, w)
  }

  /** The datum holds what the tables have. */
  ghost predicate DatumPut(env: Env, ms: seq<Module>, k: nat, r: Relo)
    requires k < |ms| && WellFormed(ms[k]) && r in ms[k].relos
  {
    DatumIs(env, ms, k, r, FinalBytes(env, ms, k, r))
  }

  /** What the tables have ends up in the datum, modulo its width. */
  lemma {:induction false} DatumByTables(o: Options, ms: seq<Module>, k: nat, r: Relo)
    requires AllWellFormed(ms) && NSect(ms) <= MAXSECT && !Relocatable(o, Globals(ms)) && k < |ms| && r in ms[k].relos
    ensures r.t.Legal() && |FinalBytes(EnvOf(o, ms), ms, k, r)| == r.t.size
    ensures GetValu(FinalBytes(EnvOf(o, ms), ms, k, r), r.t) == Wrap(FinalValue(EnvOf(o, ms), ms, k, r), r.t.size)
    ensures DatumPut(EnvOf(o, ms), ms, k, r)
  {
    FinalAllDefined(o, ms);
    Entry(ms[k], r);
    GetPut(FinalValue(EnvOf(o, ms), ms, k, r), r.t);
    DatumIn(EnvOf(o, ms), ms, k, r);
  }

  lemma DatumIn(env: Env, ms: seq<Module>, k: nat, r: Relo)
    requires AllWellFormed(ms) && AllDefined(env.globals) && k < |ms| && r in ms[k].relos
    ensures DatumPut(env, ms, k, r)
  {
    Entry(ms[k], r);
    DatumInPart(env, ms, k, r);
    DatumPlaced(env, ms, k, r, FinalBytes(env, ms, k, r));
  }

  lemma DatumPlaced(env: Env, ms: seq<Module>, k: nat, r: Relo, w: seq<byte>)
    requires AllWellFormed(ms) && k < |ms| && |DataOf(ms[k], r.sect)| > 0
        && Holds(PatchedData(env, ms[k], Origins(ms[..k]), r.sect), r.addr, w)
    ensures DatumIs(env, ms, k, r, w)
  {
    ContentSlice(env, ms, k, r.sect);
    HoldsWithin(Content(env, ms, r.sect), Origin(ms[..k], r.sect), PatchedData(env, ms[k], Origins(ms[..k]), r.sect),
        r.addr, w);
  }

  lemma {:induction false} DatumInPart(env: Env, ms: seq<Module>, k: nat, r: Relo)
    requires AllWellFormed(ms) && AllDefined(env.globals) && k < |ms| && r in ms[k].relos
    ensures Holds(PatchedData(env, ms[k], Origins(ms[..k]), r.sect), r.addr, FinalBytes(env, ms, k, r))
  {
    var m, origin := ms[k], Origins(ms[..k]);
    Entry(m, r);
    var j := PatchDone(env, m, origin, r);
    DeltaIsReferred(env, ms, k, r.nami);
    DatumWithin(PatchedData(env, m, origin, r.sect), PatchesOn(env, m, origin, m.relos, r.sect)[j]);
  }

  /** The change for an entry has been made, and no other has touched its datum. */
  lemma {:induction false} PatchDone(env: Env, m: Module, origin: seq<int>, r: Relo) returns (j: nat)
    requires WellFormed(m) && r in m.relos
    ensures var ps, d := PatchesOn(env, m, origin, m.relos, r.sect), PatchedData(env, m, origin, r.sect);
      && j < |ps| && ps[j] == PatchOf(env, m, origin, r) && ps[j].Within(|d|)
      && Datum(d, ps[j]) == Relocation.Changed(DataOf(m, r.sect), ps[j])
  {
    var ps := PatchesOn(env, m, origin, m.relos, r.sect);
    PatchesWithin(env, m, origin, r.sect);
    PatchesDisjoint(env, m, origin, m.relos, r.sect);
    j := PatchOfEntry(env, m, origin, r);
    ApplyAllDatum(DataOf(m, r.sect), ps, j);
  }

  lemma DatumWithin(d: seq<byte>, p: Patch)
    requires p.Within(|d|)
    ensures Holds(d, p.addr, Datum(d, p))
  {
  }

  /** A byte that belongs to no datum of its module is not changed. */
  lemma ByteFinal(env: Env, ms: seq<Module>, k: nat, s: nat, i: nat)
    requires AllWellFormed(ms) && k < |ms| && i < |DataOf(ms[k], s)|
    requires forall r :: r in ms[k].relos && r.sect == s ==> !(r.addr <= i < r.addr + r.t.size)
    ensures ByteIs(Content(env, ms, s), Origin(ms[..k], s) + i, DataOf(ms[k], s)[i])
  {
    ContentSlice(env, ms, k, s);
    ByteInPart(env, ms[k], Origins(ms[..k]), s, i);
    WithinByte(Content(env, ms, s), Origin(ms[..k], s), PatchedData(env, ms[k], Origins(ms[..k]), s), i,
        DataOf(ms[k], s)[i]);
  }

  lemma WithinByte(c: seq<byte>, at: nat, d: seq<byte>, i: nat, v: byte)
    requires Holds(c, at, d) && i < |d| && d[i] == v
    ensures ByteIs(c, at + i, v)
  {
    assert HoldsAt(c, at, d, i);
  }

  lemma ByteInPart(env: Env, m: Module, origin: seq<int>, s: nat, i: nat)
    requires WellFormed(m) && i < |DataOf(m, s)|
    requires forall r :: r in m.relos && r.sect == s ==> !(r.addr <= i < r.addr + r.t.size)
    ensures PatchedData(env, m, origin, s)[i] == DataOf(m, s)[i]
  {
    PatchesWithin(env, m, origin, s);
    var ps := PatchesOn(env, m, origin, m.relos, s);
    forall j | 0 <= j < |ps| ensures !ps[j].Covers(i) { var j', _ := OnSectionFrom(m.relos, s, j, j); }
    ApplyAllUncovered(DataOf(m, s), ps, i);
  }

  // -------------------------------------------------- the addresses of names

  lemma {:induction false} GatheredIn(ms: seq<Module>, j: nat, i: nat) returns (e: nat)
    requires j < |ms| && i < |ms[j].names| && ms[j].names[i].ext
    ensures e < |Externals(ms)| && Externals(ms)[e] == NameRelocate(ms[j].names[i], Origins(ms[..j]))
    decreases |ms|
  {
    var init, last := ms[..|ms| - 1], ms[|ms| - 1];
    if j < |init| {
      e := GatheredIn(init, j, i);
      assert init[..j] == ms[..j];
    } else {
      assert init == ms[..j];
      var own := RelocateAll(last.names, Origins(init));
      ExternalListed(own, i);
      var h :| 0 <= h < |ExternalsOf(own)| && ExternalsOf(own)[h] == own[i];
      e := |Externals(init)| + h;
    }
  }

  /** A name that one module defines is found in the table with that definition. */
  lemma DefinitionFound(ms: seq<Module>, j: nat, i: nat)
    requires j < |ms| && i < |ms[j].names| && ms[j].names[i].ext && KindOf(ms[j].names[i]) == Defined
    requires OneDefinition(Externals(ms), ms[j].names[i].str)
    ensures Find(Globals(ms), ms[j].names[i].str) == Some(NameRelocate(ms[j].names[i], Origins(ms[..j])))
  {
    var ns, str := Externals(ms), ms[j].names[i].str;
    var e := GatheredIn(ms, j, i);
    ExternalsExternal(ms);
    SaidMeaning(ns, str);
    EnterAllFind([], ns, str);
    assert KindOf(ns[e]) == Defined && ns[e].str == str;
    assert Mentions(ns, str, Defined);
    var said := Said(ns, str);
    assert said != None by { assert ns[e].str == str; }
    assert Find([], str) == None;
    assert said != None ==> KindOf(said.value) == Defined;
    var first :| 0 <= first < |ns| && ns[first] == said.value && said.value.str == str && KindOf(said.value) == Defined
      && forall h :: 0 <= h < first && ns[h].str == str ==> KindOf(ns[h]) != Defined;
    assert first == e;
  }

  /**
    A defined name ends up at its address: its offset, where its part went and,
    without -n, the base of the section.
   */
  lemma DefinitionAddress(o: Options, ms: seq<Module>, j: nat, i: nat, s: nat)
    requires NSect(ms) <= MAXSECT && !Relocatable(o, Globals(ms)) && s < MAXSECT
    requires j < |ms| && i < |ms[j].names| && ms[j].names[i].ext && KindOf(ms[j].names[i]) == Defined
    requires ms[j].names[i].typ == S_MIN + s && OneDefinition(Externals(ms), ms[j].names[i].str)
    ensures var n, env := ms[j].names[i], EnvOf(o, ms);
      Find(env.globals, n.str) == Some(n.(valu := n.valu + Origin(ms[..j], s) + if o.nflag then 0 else env.base[s]))
  {
    var n := ms[j].names[i];
    DefinitionFound(ms, j, i);
    RelocatedTwiceAt(n, Origins(ms[..j]), EnvOf(o, ms).base, s);
    FinalDefined(o, ms, n.str, NameRelocate(n, Origins(ms[..j])));
  }
}
