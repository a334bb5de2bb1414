/**
  The output of `-r` as a module for a later link: it is well formed again, and
  it takes the place of its parts in the sizes and names of that link.
 */
module PartialModule {
  import opened Bytes
  import opened Names
  import opened LinkModel
  import opened LinkAppend
  import opened TwoSteps

  /** No external name is defined both here and there. */
  ghost predicate NoCommonDefinition(ms: seq<Module>, ns: seq<Module>) {
    forall str: string :: !(DefinedIn(ms, str) && DefinedIn(ns, str))
  }

  predicate DefinedIn(ms: seq<Module>, str: string) {
    var found := Find(Globals(ms), str);
    found.Some? && KindOf(found.value) == Defined
  }

  /** The setting: qs are linked with -r first; r are the options for that. */
  datatype Split = Split(ps: seq<Module>, qs: seq<Module>, ss: seq<Module>, r: Options, o: Options) {
    ghost predicate Valid() {
      && AllWellFormed(ps) && AllWellFormed(qs) && AllWellFormed(ss)
      && NSect(qs) <= MAXSECT
      && r.rflag
    }

    function Part(): Module
      requires NSect(qs) <= MAXSECT
    {
      AsModule(Link(r, qs))
    }

    function PartEnv(): Env
      requires NSect(qs) <= MAXSECT
    {
      EnvOf(r, qs)
    }

    function Flat(): seq<Module> { ps + qs + ss }

    function Nested(): seq<Module>
      requires NSect(qs) <= MAXSECT
    {
      ps + [Part()] + ss
    }
  }

  // ----------------------------------------------- the part as a module

  lemma PartShape(t: Split)
    requires t.Valid()
    ensures |t.Part().sects| == NSect(t.qs)
    ensures t.PartEnv() == Env(Globals(t.qs), Zeroes(MAXSECT), |Locals(t.qs)|, NSect(t.qs))
    ensures t.Part().names == Locals(t.qs) + Globals(t.qs) + SectionNames(Zeroes(MAXSECT), NSect(t.qs))
    ensures t.Part().relos == OutRelos(t.PartEnv(), t.qs)
    ensures forall s :: 0 <= s < NSect(t.qs) ==>
        t.Part().sects[s] == Section(Origin(t.qs, s), 0, Content(t.PartEnv(), t.qs, s))
  {
  }

  lemma PartSize(t: Split, s: nat)
    requires t.Valid()
    ensures SizeOf(t.Part(), s) == Origin(t.qs, s)
  {
    PartShape(t);
    if s >= NSect(t.qs) { OriginBeyond(t.qs, s); }
  }

  lemma OriginSingle(m: Module, s: nat)
    ensures Origin([m], s) == SizeOf(m, s)
  {
    assert [m][..0] == [];
  }

  lemma PartOrigins(t: Split)
    requires t.Valid()
    ensures Origins([t.Part()]) == Origins(t.qs)
  {
    forall s | 0 <= s < MAXSECT ensures Origins([t.Part()])[s] == Origins(t.qs)[s] {
      PartSize(t, s);
      OriginSingle(t.Part(), s);
    }
  }

  lemma PartData(t: Split, s: nat)
    requires t.Valid()
    ensures DataOf(t.Part(), s) == ContentFrom(t.PartEnv(), [], t.qs, s)
  {
    PartShape(t);
    ContentIs(t.PartEnv(), t.qs, s);
    if s >= NSect(t.qs) {
      ContentFromBound(t.PartEnv(), [], t.qs, s);
      OriginBeyond(t.qs, s);
    }
  }

  // ------------------------------------------------ sizes and names agree

  lemma PrefixOrigins(t: Split)
    requires t.Valid()
    ensures Origins(t.ps + [t.Part()]) == Origins(t.ps + t.qs)
  {
    PartOrigins(t);
    OriginsAppend(t.ps, [t.Part()]);
    OriginsAppend(t.ps, t.qs);
  }

  lemma SameOrigins(t: Split)
    requires t.Valid()
    ensures Origins(t.Nested()) == Origins(t.Flat())
  {
    PrefixOrigins(t);
    OriginsAppend(t.ps + [t.Part()], t.ss);
    OriginsAppend(t.ps + t.qs, t.ss);
  }

  lemma SameNSect(t: Split)
    requires t.Valid()
    ensures NSect(t.Nested()) == NSect(t.Flat()) <= MAXSECT
  {
    PartShape(t);
    assert [t.Part()][..0] == [];
    assert NSect([t.Part()]) == NSect(t.qs);
    NSectAppend(t.ps, [t.Part()]);
    NSectAppend(t.ps + [t.Part()], t.ss);
    NSectAppend(t.ps, t.qs);
    NSectAppend(t.ps + t.qs, t.ss);
    NSectBound(t.ps);
    NSectBound(t.ss);
  }

  lemma PartExternals(t: Split)
    requires t.Valid()
    ensures ExternalsOf(t.Part().names) == Globals(t.qs) && LocalsOf(t.Part().names) == Locals(t.qs)
  {
    PartShape(t);
    var ls, gs, ns := Locals(t.qs), Globals(t.qs), SectionNames(Zeroes(MAXSECT), NSect(t.qs));
    LocalsLocal(t.qs);
    GlobalsShape(t.qs);
    LocalsOfAll(ls);
    ExternalsOfAll(gs);
    SectionsOfAll(ns);
    ExternalsOfAppend(ls + gs, ns);
    ExternalsOfAppend(ls, gs);
    LocalsOfAppend(ls + gs, ns);
    LocalsOfAppend(ls, gs);
  }

  lemma SingleNames(m: Module)
    ensures Externals([m]) == ExternalsOf(m.names) && Locals([m]) == LocalsOf(m.names)
  {
    assert [m][..0] == [];
    RelocatedByNothing(m.names);
  }

  lemma RelocatedByNothing(ns: seq<Name>)
    ensures RelocateAll(ns, Origins([])) == ns
  {
  }

  lemma SameLocals(t: Split)
    requires t.Valid()
    ensures Locals(t.Nested()) == Locals(t.Flat())
  {
    SingleNames(t.Part());
    PartExternals(t);
    LocalsAppend(t.ps, [t.Part()]);
    LocalsAppend(t.ps, t.qs);
    LocalsAppend(t.ps + [t.Part()], t.ss);
    LocalsAppend(t.ps + t.qs, t.ss);
    PrefixOrigins(t);
  }

  /** The names of the part join those before it as its own table lists them. */
  lemma PrefixGlobals(t: Split)
    requires t.Valid()
    ensures Globals(t.ps + t.qs) == EnterAll(Globals(t.ps), RelocateAll(Globals(t.qs), Origins(t.ps)))
  {
    var origin := Origins(t.ps);
    ExternalsAppend(t.ps, t.qs);
    GlobalsShape(t.ps);
    EnterAllAppend([], Externals(t.ps), RelocateAll(Externals(t.qs), origin));
    EnterAllRelocated([], Externals(t.qs), origin);
    assert RelocateAll([], origin) == [];
    RelocatedExternal(t.qs, origin);
    EnterAllTwice(Globals(t.ps), RelocateAll(Externals(t.qs), origin));
  }

  lemma SamePrefixGlobals(t: Split)
    requires t.Valid()
    ensures Globals(t.ps + [t.Part()]) == Globals(t.ps + t.qs)
  {
    SingleNames(t.Part());
    PartExternals(t);
    ExternalsAppend(t.ps, [t.Part()]);
    EnterAllAppend([], Externals(t.ps), RelocateAll(Globals(t.qs), Origins(t.ps)));
    PrefixGlobals(t);
  }

  lemma RelocatedExternal(ms: seq<Module>, origin: seq<int>)
    ensures AllExternal(RelocateAll(Externals(ms), origin))
  {
    ExternalsExternal(ms);
  }

  lemma SameGlobals(t: Split)
    requires t.Valid()
    ensures Globals(t.Nested()) == Globals(t.Flat())
  {
    SamePrefixGlobals(t);
    PrefixOrigins(t);
    ExternalsAppend(t.ps + [t.Part()], t.ss);
    ExternalsAppend(t.ps + t.qs, t.ss);
    var later := RelocateAll(Externals(t.ss), Origins(t.ps + t.qs));
    EnterAllAppend([], Externals(t.ps + [t.Part()]), later);
    EnterAllAppend([], Externals(t.ps + t.qs), later);
  }

  lemma SameEnv(t: Split)
    requires t.Valid()
    ensures NSect(t.Nested()) == NSect(t.Flat()) <= MAXSECT && EnvOf(t.o, t.Nested()) == EnvOf(t.o, t.Flat())
  {
    SameNSect(t);
    SameOrigins(t);
    SameGlobals(t);
    SameLocals(t);
  }

  // ------------------------------------------------ the part is well formed

  ghost predicate AllNamesOk(ns: seq<Name>, nsect: nat) {
    forall i :: 0 <= i < |ns| ==> NameOk(ns[i], nsect)
  }

  lemma NamesOkRelocated(ns: seq<Name>, nsect: nat, origin: seq<int>)
    requires AllNamesOk(ns, nsect)
    ensures AllNamesOk(RelocateAll(ns, origin), nsect)
  {
  }

  lemma {:induction false} NamesOkChosen(ns: seq<Name>, nsect: nat)
    requires AllNamesOk(ns, nsect)
    ensures AllNamesOk(ExternalsOf(ns), nsect) && AllNamesOk(LocalsOf(ns), nsect)
    decreases |ns|
  {
    if |ns| > 0 { NamesOkChosen(ns[..|ns| - 1], nsect); }
  }

  lemma {:induction false} NamesOkGathered(ms: seq<Module>, nsect: nat)
    requires AllWellFormed(ms) && NSect(ms) <= nsect
    ensures AllNamesOk(Externals(ms), nsect) && AllNamesOk(Locals(ms), nsect)
    decreases |ms|
  {
    if |ms| > 0 {
      var init, last := ms[..|ms| - 1], ms[|ms| - 1];
      NamesOkGathered(init, nsect);
      NSectCovers(ms, |ms| - 1);
      assert AllNamesOk(last.names, nsect);
      NamesOkRelocated(last.names, nsect, Origins(init));
      NamesOkChosen(RelocateAll(last.names, Origins(init)), nsect);
    }
  }

  lemma {:induction false} NamesOkEntered(ns: seq<Name>, nsect: nat)
    requires AllNamesOk(ns, nsect)
    ensures AllNamesOk(EnterAll([], ns), nsect)
    decreases |ns|
  {
    if |ns| > 0 { NamesOkEntered(ns[..|ns| - 1], nsect); }
  }

  lemma GlobalsOk(ms: seq<Module>)
    requires AllWellFormed(ms)
    ensures AllNamesOk(Globals(ms), NSect(ms))
  {
    NamesOkGathered(ms, NSect(ms));
    NamesOkEntered(Externals(ms), NSect(ms));
  }

  lemma PartNamesOk(t: Split)
    requires t.Valid()
    ensures AllNamesOk(t.Part().names, NSect(t.qs))
  {
    PartShape(t);
    GlobalsOk(t.qs);
    NamesOkGathered(t.qs, NSect(t.qs));
  }

  // every external name has its entry

  lemma {:induction false} ExternalListed(ns: seq<Name>, i: nat)
    requires i < |ns| && ns[i].ext
    ensures ns[i] in ExternalsOf(ns)
    decreases |ns|
  {
    if i < |ns| - 1 { ExternalListed(ns[..|ns| - 1], i); }
  }

  lemma {:induction false} ExternalGathered(ms: seq<Module>, k: nat, i: nat)
    requires k < |ms| && i < |ms[k].names| && ms[k].names[i].ext
    ensures ms[k].names[i].str in Strs(Externals(ms))
    decreases |ms|
  {
    var init, last := ms[..|ms| - 1], ms[|ms| - 1];
    if k < |ms| - 1 {
      ExternalGathered(init, k, i);
      var j :| 0 <= j < |Externals(init)| && Strs(Externals(init))[j] == ms[k].names[i].str;
      assert Strs(Externals(ms))[j] == ms[k].names[i].str;
    } else {
      var own := RelocateAll(last.names, Origins(init));
      ExternalListed(own, i);
      var j :| 0 <= j < |ExternalsOf(own)| && ExternalsOf(own)[j] == own[i];
      assert Strs(Externals(ms))[|Externals(init)| + j] == ms[k].names[i].str;
    }
  }

  lemma ExternalFound(ms: seq<Module>, k: nat, i: nat)
    requires k < |ms| && i < |ms[k].names| && ms[k].names[i].ext
    ensures IndexOf(Globals(ms), ms[k].names[i].str) < |Globals(ms)|
  {
    ExternalGathered(ms, k, i);
    EnterAllStrs([], Externals(ms));
    AddStrsHas(Strs([]), Strs(Externals(ms)), ms[k].names[i].str);
    var j :| 0 <= j < |Globals(ms)| && Strs(Globals(ms))[j] == ms[k].names[i].str;
    assert Globals(ms)[j].str == ms[k].names[i].str;
  }

  // where its relocation entries lead

  /** An entry of module k of the part, as `-r` rewrote it. */
  function Rewritten(t: Split, k: nat, r: Relo): Relo
    requires k < |t.qs| && NSect(t.qs) <= MAXSECT
  {
    NewRelo(t.PartEnv(), t.qs[k], Origins(t.qs[..k]), r)
  }

  function PartTarget(t: Split, k: nat, nami: nat): Target
    requires k < |t.qs| && NSect(t.qs) <= MAXSECT
  {
    AddRelo(t.PartEnv(), t.qs[k], Origins(t.qs[..k]), nami)
  }

  predicate NamesASymbol(ns: seq<Name>, i: int) {
    0 <= i <= |ns| && (i < |ns| ==> ns[i].sct || ns[i].ext)
  }

  lemma PartIndex(t: Split, i: nat)
    requires t.Valid() && i < |Globals(t.qs)|
    ensures t.PartEnv().nlocals + i < |t.Part().names| && t.Part().names[t.PartEnv().nlocals + i] == Globals(t.qs)[i]
  {
    PartShape(t);
  }

  lemma PartSectIndex(t: Split, s: nat)
    requires t.Valid() && s < NSect(t.qs)
    ensures t.PartEnv().SectIndex(s) < |t.Part().names| && t.Part().names[t.PartEnv().SectIndex(s)] == SectionName(s, 0)
  {
    PartShape(t);
  }

  lemma PartAbsIndex(t: Split)
    requires t.Valid()
    ensures t.PartEnv().AbsIndex() == |t.Part().names|
  {
    PartShape(t);
  }

  lemma PartTargetOk(t: Split, k: nat, i: nat)
    requires t.Valid() && k < |t.qs| && i < |t.qs[k].relos|
    ensures NamesASymbol(t.Part().names, PartTarget(t, k, t.qs[k].relos[i].nami).index)
  {
    var m := t.qs[k];
    var nami := m.relos[i].nami;
    assert ReloOk(m.relos[i], m);
    PartAbsIndex(t);
    NSectCovers(t.qs, k);
    if nami < |m.names| {
      var local := m.names[nami];
      assert NameOk(local, |m.sects|);
      if local.sct {
        PartSectIndex(t, local.typ - S_MIN);
      } else {
        ExternalFound(t.qs, k, nami);
        var j := IndexOf(Globals(t.qs), local.str);
        GlobalsOk(t.qs);
        GlobalsShape(t.qs);
        var g := Globals(t.qs)[j];
        assert NameOk(g, NSect(t.qs));
        PartIndex(t, j);
        if !IsCommon(g) && !IsUndefined(g) && g.typ != S_ABS { PartSectIndex(t, g.typ - S_MIN); }
      }
    }
  }

  lemma RewrittenOk(t: Split, k: nat, i: nat)
    requires t.Valid() && k < |t.qs| && i < |t.qs[k].relos|
    ensures var r, r' := t.qs[k].relos[i], Rewritten(t, k, t.qs[k].relos[i]);
      && r'.t == r.t && r.t.Legal() && r'.sect == r.sect < NSect(t.qs)
      && r'.addr == r.addr + Origin(t.qs[..k], r.sect)
      && r'.nami == PartTarget(t, k, r.nami).index && NamesASymbol(t.Part().names, r'.nami)
      && r.addr + r.t.size <= |DataOf(t.qs[k], r.sect)| <= SizeOf(t.qs[k], r.sect)
  {
    assert ReloOk(t.qs[k].relos[i], t.qs[k]);
    NSectCovers(t.qs, k);
    PartTargetOk(t, k, i);
  }

  // the places in the part that its entries change

  /** What the entries of the first k modules keep to. */
  ghost predicate PlacedBelow(t: Split, k: nat, rs: seq<Relo>)
    requires k <= |t.qs| && NSect(t.qs) <= MAXSECT
  {
    forall i :: 0 <= i < |rs| ==> PlacedAt(t, k, rs[i])
  }

  ghost predicate PlacedAt(t: Split, k: nat, r: Relo)
    requires k <= |t.qs| && NSect(t.qs) <= MAXSECT
  {
    && r.t.Legal() && r.sect < NSect(t.qs) && NamesASymbol(t.Part().names, r.nami)
    && r.addr + r.t.size <= |ContentFrom(t.PartEnv(), [], t.qs[..k], r.sect)|
  }

  lemma PartContentLast(t: Split, k: nat, s: nat)
    requires t.Valid() && k < |t.qs|
    ensures ContentFrom(t.PartEnv(), [], t.qs[..k + 1], s)
         == Append(ContentFrom(t.PartEnv(), [], t.qs[..k], s), Origin(t.qs[..k], s),
             PatchedData(t.PartEnv(), t.qs[k], Origins(t.qs[..k]), s))
  {
    PrefixLast(t.qs, k);
    assert [] + t.qs[..k] == t.qs[..k];
  }

  lemma PartRelosLast(t: Split, k: nat)
    requires t.Valid() && k < |t.qs|
    ensures OutRelos(t.PartEnv(), t.qs[..k + 1]) == OutRelos(t.PartEnv(), t.qs[..k])
        + NewRelos(t.PartEnv(), t.qs[k], Origins(t.qs[..k]))
  {
    PrefixLast(t.qs, k);
  }

  lemma PlacedFurther(t: Split, k: nat, r: Relo)
    requires t.Valid() && k < |t.qs| && PlacedAt(t, k, r)
    ensures PlacedAt(t, k + 1, r)
  {
    PartContentLast(t, k, r.sect);
  }

  lemma PlacedNew(t: Split, k: nat, i: nat)
    requires t.Valid() && k < |t.qs| && i < |t.qs[k].relos|
    ensures PlacedAt(t, k + 1, Rewritten(t, k, t.qs[k].relos[i]))
  {
    RewrittenOk(t, k, i);
    PartContentLast(t, k, t.qs[k].relos[i].sect);
  }

  lemma PlacedApart(t: Split, k: nat, r: Relo, i: nat)
    requires t.Valid() && k < |t.qs| && i < |t.qs[k].relos| && PlacedAt(t, k, r)
    ensures Apart(r, Rewritten(t, k, t.qs[k].relos[i]))
  {
    RewrittenOk(t, k, i);
    ContentFromBound(t.PartEnv(), [], t.qs[..k], r.sect);
  }

  lemma RewrittenApart(t: Split, k: nat, i: nat, j: nat)
    requires t.Valid() && k < |t.qs| && i < j < |t.qs[k].relos|
    ensures Apart(Rewritten(t, k, t.qs[k].relos[i]), Rewritten(t, k, t.qs[k].relos[j]))
  {
    RewrittenOk(t, k, i);
    RewrittenOk(t, k, j);
    assert Apart(t.qs[k].relos[i], t.qs[k].relos[j]);
  }

  lemma PlacedStep(t: Split, k: nat, old_: seq<Relo>, new_: seq<Relo>)
    requires t.Valid() && k < |t.qs| && PlacedBelow(t, k, old_) && AllApart(old_)
    requires new_ == NewRelos(t.PartEnv(), t.qs[k], Origins(t.qs[..k]))
    ensures PlacedBelow(t, k + 1, old_) && PlacedBelow(t, k + 1, new_)
    ensures AllApart(old_ + new_)
  {
    forall i | 0 <= i < |old_| ensures PlacedAt(t, k + 1, old_[i]) {
      assert PlacedAt(t, k, old_[i]);
      PlacedFurther(t, k, old_[i]);
    }
    forall i | 0 <= i < |new_| ensures PlacedAt(t, k + 1, new_[i]) { PlacedNew(t, k, i); }
    forall i, j | 0 <= i < |old_| && 0 <= j < |new_| ensures Apart(old_[i], new_[j]) {
      assert PlacedAt(t, k, old_[i]);
      PlacedApart(t, k, old_[i], j);
    }
    forall i, j | 0 <= i < j < |new_| ensures Apart(new_[i], new_[j]) { RewrittenApart(t, k, i, j); }
    ApartAppend(old_, new_);
  }

  lemma PlacedOneMore(t: Split, k: nat)
    requires t.Valid() && k < |t.qs| && PlacedBelow(t, k, OutRelos(t.PartEnv(), t.qs[..k]))
        && AllApart(OutRelos(t.PartEnv(), t.qs[..k]))
    ensures PlacedBelow(t, k + 1, OutRelos(t.PartEnv(), t.qs[..k + 1]))
        && AllApart(OutRelos(t.PartEnv(), t.qs[..k + 1]))
  {
    var old_, new_ := OutRelos(t.PartEnv(), t.qs[..k]), NewRelos(t.PartEnv(), t.qs[k], Origins(t.qs[..k]));
    PlacedStep(t, k, old_, new_);
    PartRelosLast(t, k);
    PlacedAppend(t, k + 1, old_, new_);
  }

  lemma PlacedAppend(t: Split, k: nat, a: seq<Relo>, b: seq<Relo>)
    requires k <= |t.qs| && NSect(t.qs) <= MAXSECT && PlacedBelow(t, k, a) && PlacedBelow(t, k, b)
    ensures PlacedBelow(t, k, a + b)
  {
  }

  lemma {:induction false} PartRelosPlaced(t: Split, k: nat)
    requires t.Valid() && k <= |t.qs|
    ensures PlacedBelow(t, k, OutRelos(t.PartEnv(), t.qs[..k]))
    ensures AllApart(OutRelos(t.PartEnv(), t.qs[..k]))
    decreases k
  {
    if k > 0 {
      PartRelosPlaced(t, k - 1);
      PlacedOneMore(t, k - 1);
    }
  }

  lemma ApartAppend(a: seq<Relo>, b: seq<Relo>)
    requires AllApart(a) && AllApart(b) && forall i, j :: 0 <= i < |a| && 0 <= j < |b| ==> Apart(a[i], b[j])
    ensures AllApart(a + b)
  {
  }

  /** What `-r` writes can be linked again. */
  lemma PartWellFormed(t: Split)
    requires t.Valid()
    ensures WellFormed(t.Part())
  {
    var m := t.Part();
    PartShape(t);
    PartNamesOk(t);
    assert t.qs[..|t.qs|] == t.qs;
    PartRelosPlaced(t, |t.qs|);
    forall s | 0 <= s < |m.sects| ensures |m.sects[s].data| <= m.sects[s].size {
      PartData(t, s);
      ContentFromBound(t.PartEnv(), [], t.qs, s);
    }
    forall i | 0 <= i < |m.relos| ensures ReloOk(m.relos[i], m) {
      assert PlacedAt(t, |t.qs|, m.relos[i]);
      PartData(t, m.relos[i].sect);
    }
    forall i | 0 <= i < |m.names| ensures NameOk(m.names[i], |m.sects|) {}
  }
}
