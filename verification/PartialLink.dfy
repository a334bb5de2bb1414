/**
  Partial linking is transparent: linking the output of `-r` on some modules,
  among others, gives what linking all the modules at once gives. With -n it
  does so exactly if no datum misses a section base.
 */
module PartialLink {
  import opened Bytes
  import opened Names
  import opened LinkModel
  import opened LinkAppend
  import opened PartialModule

  // ------------------------------------------- names that the part defines

  lemma DefinedInPrefix(t: Split, str: string, g: Name)
    requires t.Valid() && NoCommonDefinition(t.ps, t.qs)
    requires Find(Globals(t.qs), str) == Some(g) && KindOf(g) == Defined
    ensures Find(Globals(t.ps + t.qs), str) == Some(NameRelocate(g, Origins(t.ps)))
  {
    var own := RelocateAll(Globals(t.qs), Origins(t.ps));
    PrefixGlobals(t);
    GlobalsShape(t.ps);
    GlobalsShape(t.qs);
    EnterAllFind(Globals(t.ps), own, str);
    SaidOfTable(own, str);
    RelocatedIndex(Globals(t.qs), Origins(t.ps), str);
    assert DefinedIn(t.qs, str);
  }

  lemma DefinedThrough(t: Split, str: string, g: Name)
    requires t.Valid() && NoCommonDefinition(t.ps, t.qs)
    requires Find(Globals(t.qs), str) == Some(g) && KindOf(g) == Defined
    ensures Find(Globals(t.Flat()), str) == Some(NameRelocate(g, Origins(t.ps)))
  {
    DefinedInPrefix(t, str, g);
    var later := RelocateAll(Externals(t.ss), Origins(t.ps + t.qs));
    ExternalsAppend(t.ps + t.qs, t.ss);
    EnterAllAppend([], Externals(t.ps + t.qs), later);
    GlobalsShape(t.ps + t.qs);
    RelocatedExternal(t.ss, Origins(t.ps + t.qs));
    EnterAllFind(Globals(t.ps + t.qs), later, str);
  }

  // ---------------------------------------------------------- final values

  lemma PlacedIndex(gs: seq<Name>, sizes: seq<int>, str: string)
    ensures IndexOf(PlaceCommons(gs, sizes), str) == IndexOf(gs, str)
  {
    var p := PlaceCommons(gs, sizes);
    var i, j := IndexOf(gs, str), IndexOf(p, str);
    assert forall k :: 0 <= k < |gs| ==> p[k].str == gs[k].str;
    if i < |gs| { assert p[i].str == str; }
    if j < |gs| { assert gs[j].str == str; }
  }

  lemma FinalIndex(o: Options, ms: seq<Module>, str: string)
    requires NSect(ms) <= MAXSECT
    ensures |EnvOf(o, ms).globals| == |Globals(ms)|
    ensures IndexOf(EnvOf(o, ms).globals, str) == IndexOf(Globals(ms), str)
  {
    PlacedIndex(Globals(ms), Origins(ms), str);
    RelocatedIndex(PlaceCommons(Globals(ms), Origins(ms)), EnvOf(o, ms).base, str);
  }

  /** Do the values of names leave out the bases of their sections? */
  predicate WithoutBases(o: Options, ms: seq<Module>) {
    o.nflag && !Relocatable(o, Globals(ms))
  }

  /** The final value of a name that is defined and not common. */
  lemma FinalDefined(o: Options, ms: seq<Module>, str: string, g: Name)
    requires NSect(ms) <= MAXSECT && Find(Globals(ms), str) == Some(g) && KindOf(g) == Defined
    ensures var final := EnvOf(o, ms);
      Find(final.globals, str) == Some(if WithoutBases(o, ms) then g else NameRelocate(g, final.base))
  {
    FinalIndex(o, ms, str);
    var i := IndexOf(Globals(ms), str);
    assert Placed(Globals(ms), Origins(ms), i) == g;
    if Relocatable(o, Globals(ms)) { RelocatedByZeroes(g, MAXSECT); }
  }

  lemma RelocatedByZeroes(g: Name, n: nat)
    ensures NameRelocate(g, Zeroes(n)) == g
  {
  }

  // ------------------------------------------- relocating in one or two steps

  /** What -n leaves out of a datum that refers to a name that the part defined in a section. */
  function Missed(t: Split, m: Module, nami: nat): int
    requires NSect(t.Flat()) <= MAXSECT
  {
    if !WithoutBases(t.o, t.Flat()) || nami >= |m.names| || m.names[nami].sct then 0
    else
      match Find(Globals(t.qs), m.names[nami].str)
      case None => 0
      case Some(g) => if KindOf(g) == Defined && g.typ != S_ABS then At(EnvOf(t.o, t.Flat()).base, g.typ - S_MIN) else 0
  }

  function Later(t: Split, i: nat): Target
    requires NSect(t.qs) <= MAXSECT && NSect(t.Flat()) <= MAXSECT
  {
    AddRelo(EnvOf(t.o, t.Flat()), t.Part(), Origins(t.ps), i)
  }

  function AtOnce(t: Split, k: nat, nami: nat): Target
    requires k < |t.qs| && NSect(t.Flat()) <= MAXSECT
  {
    AddRelo(EnvOf(t.o, t.Flat()), t.qs[k], Origins(t.ps + t.qs[..k]), nami)
  }

  ghost predicate Agrees(t: Split, k: nat, nami: nat)
    requires k < |t.qs| && NSect(t.qs) <= MAXSECT && NSect(t.Flat()) <= MAXSECT
  {
    var first, once := PartTarget(t, k, nami), AtOnce(t, k, nami);
    && first.index >= 0
    && Later(t, first.index) == Target(once.delta + Missed(t, t.qs[k], nami) - first.delta, once.index)
  }

  lemma LaterByName(t: Split, i: nat)
    requires t.Valid() && NSect(t.Flat()) <= MAXSECT && i < |t.Part().names| && !t.Part().names[i].sct
    ensures Later(t, i) == ByName(EnvOf(t.o, t.Flat()), t.Part().names[i].str)
  {
  }

  lemma LaterBySection(t: Split, s: nat)
    requires t.Valid() && NSect(t.Flat()) <= MAXSECT && s < NSect(t.qs)
    ensures Later(t, t.PartEnv().SectIndex(s)) == BySection(EnvOf(t.o, t.Flat()), Origins(t.ps), s)
  {
    PartSectIndex(t, s);
  }

  lemma AgreesOnSection(t: Split, k: nat, nami: nat)
    requires t.Valid() && NSect(t.Flat()) <= MAXSECT && k < |t.qs| && nami < |t.qs[k].names| && t.qs[k].names[nami].sct
    ensures Agrees(t, k, nami)
  {
    var m := t.qs[k];
    var s := m.names[nami].typ - S_MIN;
    assert NameOk(m.names[nami], |m.sects|);
    NSectCovers(t.qs, k);
    PartShape(t);
    LaterBySection(t, s);
    OriginAppend(t.ps, t.qs[..k], s);
  }

  lemma AgreesOnAbsolute(t: Split, k: nat, nami: nat)
    requires t.Valid() && NSect(t.Flat()) <= MAXSECT && k < |t.qs| && nami == |t.qs[k].names|
    ensures Agrees(t, k, nami)
  {
    PartAbsIndex(t);
  }

  /** The entry in the part's own table for an external name of module k. */
  function PartEntry(t: Split, str: string): Option<Name> {
    Find(Globals(t.qs), str)
  }

  lemma ByNameDefined(env: Env, str: string, g: Name)
    requires Find(env.globals, str) == Some(g) && g.ext && KindOf(g) == Defined
    ensures ByName(env, str) == Target(g.valu, if g.typ == S_ABS then env.AbsIndex() else env.SectIndex(g.typ - S_MIN))
  {
  }

  lemma ByNamePending(env: Env, str: string, g: Name)
    requires Find(env.globals, str) == Some(g) && g.ext && KindOf(g) != Defined
    ensures ByName(env, str) == Target(0, env.nlocals + IndexOf(env.globals, str))
  {
  }

  lemma AgreesOnPending(t: Split, k: nat, nami: nat, g: Name)
    requires t.Valid() && NSect(t.Flat()) <= MAXSECT && k < |t.qs| && nami < |t.qs[k].names| && !t.qs[k].names[nami].sct
    requires PartEntry(t, t.qs[k].names[nami].str) == Some(g) && g.ext && KindOf(g) != Defined
    ensures Agrees(t, k, nami)
  {
    var i := IndexOf(Globals(t.qs), g.str);
    PartShape(t);
    ByNamePending(t.PartEnv(), g.str, g);
    PartIndex(t, i);
    PendingNotSection(t, i);
    var first := Target(0, t.PartEnv().nlocals + i);
    LaterByName(t, first.index);
    OnceByName(t, k, nami);
    AgreesWhen(t, k, nami, first, Later(t, first.index), AtOnce(t, k, nami), 0);
  }

  lemma PendingNotSection(t: Split, i: nat)
    requires t.Valid() && i < |Globals(t.qs)|
    ensures !Globals(t.qs)[i].sct
  {
    GlobalsOk(t.qs);
    GlobalsShape(t.qs);
    assert NameOk(Globals(t.qs)[i], NSect(t.qs));
  }

  lemma FirstDefined(t: Split, k: nat, nami: nat, g: Name)
    requires t.Valid() && k < |t.qs| && nami < |t.qs[k].names| && !t.qs[k].names[nami].sct
    requires PartEntry(t, t.qs[k].names[nami].str) == Some(g) && g.ext && KindOf(g) == Defined
    ensures PartTarget(t, k, nami)
        == Target(g.valu, if g.typ == S_ABS then t.PartEnv().AbsIndex() else t.PartEnv().SectIndex(g.typ - S_MIN))
  {
    PartShape(t);
    ByNameDefined(t.PartEnv(), g.str, g);
  }

  lemma MissedDefined(t: Split, m: Module, nami: nat, g: Name)
    requires NSect(t.Flat()) <= MAXSECT && nami < |m.names| && !m.names[nami].sct
    requires PartEntry(t, m.names[nami].str) == Some(g) && KindOf(g) == Defined
    ensures Missed(t, m, nami) ==
        if WithoutBases(t.o, t.Flat()) && g.typ != S_ABS then At(EnvOf(t.o, t.Flat()).base, g.typ - S_MIN) else 0
  {
  }

  lemma LaterAbsolute(t: Split)
    requires t.Valid() && NSect(t.Flat()) <= MAXSECT
    ensures Later(t, t.PartEnv().AbsIndex()) == Target(0, EnvOf(t.o, t.Flat()).AbsIndex())
  {
    PartAbsIndex(t);
  }

  lemma OnceByName(t: Split, k: nat, nami: nat)
    requires NSect(t.Flat()) <= MAXSECT && k < |t.qs| && nami < |t.qs[k].names| && !t.qs[k].names[nami].sct
    ensures AtOnce(t, k, nami) == ByName(EnvOf(t.o, t.Flat()), t.qs[k].names[nami].str)
  {
  }

  lemma AgreesWhen(t: Split, k: nat, nami: nat, first: Target, later: Target, once: Target, missed: int)
    requires NSect(t.qs) <= MAXSECT && NSect(t.Flat()) <= MAXSECT && k < |t.qs|
    requires PartTarget(t, k, nami) == first && first.index >= 0 && Later(t, first.index) == later
    requires AtOnce(t, k, nami) == once && Missed(t, t.qs[k], nami) == missed
    requires later == Target(once.delta + missed - first.delta, once.index)
    ensures Agrees(t, k, nami)
  {
  }

  lemma AgreesOnDefinedAbsolute(t: Split, k: nat, nami: nat, g: Name)
    requires t.Valid() && NSect(t.Flat()) <= MAXSECT && NoCommonDefinition(t.ps, t.qs)
    requires k < |t.qs| && nami < |t.qs[k].names| && !t.qs[k].names[nami].sct
    requires PartEntry(t, t.qs[k].names[nami].str) == Some(g) && g.ext && KindOf(g) == Defined && g.typ == S_ABS
    ensures Agrees(t, k, nami)
  {
    FirstDefined(t, k, nami, g);
    OnceAbsolute(t, g.str, g);
    OnceByName(t, k, nami);
    MissedDefined(t, t.qs[k], nami, g);
    LaterAbsolute(t);
    var first := Target(g.valu, t.PartEnv().AbsIndex());
    AgreesWhen(t, k, nami, first, Later(t, first.index), AtOnce(t, k, nami), 0);
  }

  lemma AgreesOnDefinedInSection(t: Split, k: nat, nami: nat, g: Name, s: nat)
    requires t.Valid() && NSect(t.Flat()) <= MAXSECT && NoCommonDefinition(t.ps, t.qs)
    requires k < |t.qs| && nami < |t.qs[k].names| && !t.qs[k].names[nami].sct
    requires PartEntry(t, t.qs[k].names[nami].str) == Some(g) && g.ext && KindOf(g) == Defined && g.typ == S_MIN + s
        && s < NSect(t.qs)
    ensures Agrees(t, k, nami)
  {
    FirstDefined(t, k, nami, g);
    OnceInSection(t, g.str, g, s);
    OnceByName(t, k, nami);
    MissedDefined(t, t.qs[k], nami, g);
    LaterBySection(t, s);
    var first := Target(g.valu, t.PartEnv().SectIndex(s));
    AgreesWhen(t, k, nami, first, Later(t, first.index), AtOnce(t, k, nami), Missed(t, t.qs[k], nami));
  }

  lemma FinalAbsolute(t: Split, str: string, g: Name)
    requires t.Valid() && NSect(t.Flat()) <= MAXSECT && NoCommonDefinition(t.ps, t.qs)
    requires PartEntry(t, str) == Some(g) && KindOf(g) == Defined && g.typ == S_ABS
    ensures Find(EnvOf(t.o, t.Flat()).globals, str) == Some(g)
  {
    DefinedThrough(t, str, g);
    FinalDefined(t.o, t.Flat(), str, g);
  }

  lemma RelocatedTwiceAt(g: Name, a: seq<int>, b: seq<int>, s: nat)
    requires KindOf(g) == Defined && g.typ == S_MIN + s && s < |a| && s < |b|
    ensures NameRelocate(g, a) == g.(valu := g.valu + a[s])
    ensures NameRelocate(NameRelocate(g, a), b) == g.(valu := g.valu + a[s] + b[s])
    ensures KindOf(NameRelocate(g, a)) == Defined
  {
  }

  /** The address that a name of the part gets. */
  function Address(t: Split, g: Name, s: nat): int
    requires NSect(t.Flat()) <= MAXSECT && s < MAXSECT
  {
    g.valu + Origins(t.ps)[s] + if WithoutBases(t.o, t.Flat()) then 0 else EnvOf(t.o, t.Flat()).base[s]
  }

  lemma FinalInSection(t: Split, str: string, g: Name, s: nat)
    requires t.Valid() && NSect(t.Flat()) <= MAXSECT && NoCommonDefinition(t.ps, t.qs)
    requires PartEntry(t, str) == Some(g) && KindOf(g) == Defined && g.typ == S_MIN + s && s < MAXSECT
    ensures Find(EnvOf(t.o, t.Flat()).globals, str) == Some(g.(valu := Address(t, g, s)))
  {
    DefinedThrough(t, str, g);
    RelocatedTwiceAt(g, Origins(t.ps), EnvOf(t.o, t.Flat()).base, s);
    FinalDefined(t.o, t.Flat(), str, NameRelocate(g, Origins(t.ps)));
  }

  lemma OnceAbsolute(t: Split, str: string, g: Name)
    requires t.Valid() && NSect(t.Flat()) <= MAXSECT && NoCommonDefinition(t.ps, t.qs)
    requires PartEntry(t, str) == Some(g) && g.ext && KindOf(g) == Defined && g.typ == S_ABS
    ensures ByName(EnvOf(t.o, t.Flat()), str) == Target(g.valu, EnvOf(t.o, t.Flat()).AbsIndex())
  {
    FinalAbsolute(t, str, g);
    ByNameDefined(EnvOf(t.o, t.Flat()), str, g);
  }

  lemma OnceInSection(t: Split, str: string, g: Name, s: nat)
    requires t.Valid() && NSect(t.Flat()) <= MAXSECT && NoCommonDefinition(t.ps, t.qs)
    requires PartEntry(t, str) == Some(g) && g.ext && KindOf(g) == Defined && g.typ == S_MIN + s && s < MAXSECT
    ensures ByName(EnvOf(t.o, t.Flat()), str) == Target(Address(t, g, s), EnvOf(t.o, t.Flat()).SectIndex(s))
  {
    FinalInSection(t, str, g, s);
    ByNameDefined(EnvOf(t.o, t.Flat()), str, g.(valu := Address(t, g, s)));
  }

  lemma Retarget(t: Split, k: nat, i: nat)
    requires t.Valid() && NSect(t.Flat()) <= MAXSECT && NoCommonDefinition(t.ps, t.qs) && k < |t.qs|
        && i < |t.qs[k].relos|
    ensures Agrees(t, k, t.qs[k].relos[i].nami)
  {
    var m := t.qs[k];
    var nami := m.relos[i].nami;
    assert ReloOk(m.relos[i], m);
    if nami == |m.names| {
      AgreesOnAbsolute(t, k, nami);
    } else if m.names[nami].sct {
      AgreesOnSection(t, k, nami);
    } else {
      ExternalFound(t.qs, k, nami);
      var j := IndexOf(Globals(t.qs), m.names[nami].str);
      var g := Globals(t.qs)[j];
      GlobalsShape(t.qs);
      GlobalsOk(t.qs);
      assert NameOk(g, NSect(t.qs));
      if KindOf(g) != Defined {
        AgreesOnPending(t, k, nami, g);
      } else if g.typ == S_ABS {
        AgreesOnDefinedAbsolute(t, k, nami, g);
      } else {
        AgreesOnDefinedInSection(t, k, nami, g, g.typ - S_MIN);
      }
    }
  }
}
