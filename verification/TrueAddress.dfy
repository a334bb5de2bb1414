/**
  Does a link without -r put the right addresses in? The address of what a
  relocation entry refers to is said in terms of the modules; the datum holds its
  old value plus that address, exactly if -n has not kept the base of a section
  out of it.
 */
module TrueAddress {
  import opened Bytes
  import opened Names
  import opened Relocation
  import opened LinkModel
  import opened LinkAppend
  import opened PartialModule
  import opened PartialLink
  import opened PartialLimits
  import opened Layout
  import opened FinalAddress

  /** The section in which an entry's name ends up, or -1 if it has none or is a section's own. */
  function NamedSection(ms: seq<Module>, k: nat, nami: nat): int
    requires k < |ms|
  {
    var m := ms[k];
    if nami >= |m.names| || m.names[nami].sct then -1
    else
      match Find(Globals(ms), m.names[nami].str)
      case None => -1
      case Some(g) => if g.typ == S_ABS || g.typ == S_UND then -1 else g.typ - S_MIN
  }

  /** The offset in section s of a name that ends up there: common names come after the modules' parts. */
  function OffsetIn(ms: seq<Module>, str: string, g: Name): int {
    if IsCommon(g) then Origin(ms, Sect(g)) + CommonSize(Globals(ms), IndexOf(Globals(ms), str), Sect(g)) else g.valu
  }

  function Sect(g: Name): nat {
    if g.typ >= S_MIN then g.typ - S_MIN else 0
  }

  /** The final address of what an entry of module k refers to, when the sections start at the bases. */
  function Address(ms: seq<Module>, base: seq<int>, k: nat, nami: nat): int
    requires k < |ms|
  {
    var m := ms[k];
    if nami >= |m.names| then 0
    else if m.names[nami].sct then
      var s := m.names[nami].typ - S_MIN;
      At(Origins(ms[..k]), s) + At(base, s)
    else
      match Find(Globals(ms), m.names[nami].str)
      case None => 0
      case Some(g) => if g.typ == S_ABS || g.typ == S_UND then g.valu
          else OffsetIn(ms, m.names[nami].str, g) + At(base, g.typ - S_MIN)
  }

  /** What -n leaves out. */
  function LeftOut(o: Options, ms: seq<Module>, k: nat, nami: nat): int
    requires NSect(ms) <= MAXSECT && k < |ms|
  {
    if o.nflag then At(EnvOf(o, ms).base, NamedSection(ms, k, nami)) else 0
  }

  /** A name as the second pass has it. */
  function InTable(o: Options, base: seq<int>, ms: seq<Module>, str: string, g: Name): Name {
    if g.typ == S_ABS || g.typ == S_UND then g
    else g.(valu := OffsetIn(ms, str, g) + if o.nflag then 0 else At(base, g.typ - S_MIN), com := false)
  }

  lemma {:induction false} GlobalOk(ms: seq<Module>, str: string, g: Name)
    requires AllWellFormed(ms) && NSect(ms) <= MAXSECT && Find(Globals(ms), str) == Some(g)
    ensures NameOk(g, MAXSECT) && g.ext && (!AnyUndefined(Globals(ms)) ==> !IsUndefined(g))
  {
    GlobalsOk(ms);
    GlobalsShape(ms);
    assert NameOk(g, NSect(ms));
  }

  /** Between the passes: common names are placed, and bases added without -n. */
  function Final(gs: seq<Name>, sizes: seq<int>, base: seq<int>, nflag: bool): seq<Name> {
    if nflag then PlaceCommons(gs, sizes) else RelocateAll(PlaceCommons(gs, sizes), base)
  }

  lemma {:induction false} FinalFind(gs: seq<Name>, sizes: seq<int>, base: seq<int>, nflag: bool, str: string)
    requires |sizes| == |base| && Find(gs, str) != None
    ensures var i := IndexOf(gs, str);
      Find(Final(gs, sizes, base, nflag), str)
          == Some(if nflag then Placed(gs, sizes, i) else NameRelocate(Placed(gs, sizes, i), base))
  {
    PlacedIndex(gs, sizes, str);
    RelocatedIndex(PlaceCommons(gs, sizes), base, str);
  }

  lemma {:induction false} EnvFinal(o: Options, ms: seq<Module>)
    requires NSect(ms) <= MAXSECT && !Relocatable(o, Globals(ms))
    ensures EnvOf(o, ms).globals == Final(Globals(ms), Origins(ms), EnvOf(o, ms).base, o.nflag)
        && |EnvOf(o, ms).base| == MAXSECT
  {
  }

  lemma {:induction false} PlacedAt(ms: seq<Module>, base: seq<int>, o: Options, str: string, g: Name)
    requires Find(Globals(ms), str) == Some(g) && g.ext && NameOk(g, MAXSECT) && !IsUndefined(g) && |base| == MAXSECT
    ensures var placed := Placed(Globals(ms), Origins(ms), IndexOf(Globals(ms), str));
      (if o.nflag then placed else NameRelocate(placed, base)) == InTable(o, base, ms, str, g)
  {
  }

  lemma {:induction false} TableGlobal(o: Options, ms: seq<Module>, str: string, g: Name)
    requires AllWellFormed(ms) && NSect(ms) <= MAXSECT && !Relocatable(o, Globals(ms))
        && Find(Globals(ms), str) == Some(g)
    ensures Find(EnvOf(o, ms).globals, str) == Some(InTable(o, EnvOf(o, ms).base, ms, str, g))
  {
    GlobalOk(ms, str, g);
    EnvFinal(o, ms);
    FinalFind(Globals(ms), Origins(ms), EnvOf(o, ms).base, o.nflag, str);
    PlacedAt(ms, EnvOf(o, ms).base, o, str, g);
  }

  lemma {:induction false} TablesHaveName(o: Options, ms: seq<Module>, str: string)
    requires AllWellFormed(ms) && NSect(ms) <= MAXSECT && !Relocatable(o, Globals(ms))
    ensures var g, base := Find(Globals(ms), str), EnvOf(o, ms).base;
      Find(EnvOf(o, ms).globals, str) == if g == None then None else Some(InTable(o, base, ms, str, g.value))
  {
    FinalIndex(o, ms, str);
    match Find(Globals(ms), str)
    case None =>
    case Some(g) => TableGlobal(o, ms, str, g);
  }

  /** The tables of the second pass have the address, but for the base that -n leaves out. */
  lemma {:induction false} TablesHaveAddress(o: Options, ms: seq<Module>, k: nat, nami: nat)
    requires AllWellFormed(ms) && NSect(ms) <= MAXSECT && !Relocatable(o, Globals(ms)) && k < |ms|
    ensures Referred(EnvOf(o, ms), ms, k, nami) == Address(ms, EnvOf(o, ms).base, k, nami) - LeftOut(o, ms, k, nami)
  {
    if nami < |ms[k].names| && !ms[k].names[nami].sct { TablesHaveName(o, ms, ms[k].names[nami].str); }
  }

  lemma {:induction false} HoldsOne(c: seq<byte>, at: nat, d: seq<byte>, d': seq<byte>)
    requires Holds(c, at, d) && |d| == |d'|
    ensures Holds(c, at, d') <==> d == d'
  {
    if Holds(c, at, d') {
      forall i | 0 <= i < |d| ensures d[i] == d'[i] { assert HoldsAt(c, at, d, i) && HoldsAt(c, at, d', i); }
    }
  }

  lemma {:induction false} LessLeftOut(v: int, b: int, t: RelType)
    requires t.Legal()
    ensures PutValu(v - b, t) == PutValu(v, t) <==> Wrap(b, t.size) == 0
  {
    PutSame(v - b, v, t);
    CongruentMod(b, 0, v - b, t.size);
    assert v - b + b == v && v - b + 0 == v - b;
    CongruentMod(b, 0, 0, t.size);
    assert 0 + b == b;
  }

  lemma {:induction false} Shown(c: seq<byte>, at: nat, v: int, b: int, t: RelType)
    requires t.Legal() && Holds(c, at, PutValu(v - b, t))
    ensures Holds(c, at, PutValu(v, t)) <==> Wrap(b, t.size) == 0
  {
    LessLeftOut(v, b, t);
    GetPut(v, t);
    GetPut(v - b, t);
    HoldsOne(c, at, PutValu(v - b, t), PutValu(v, t));
  }

  /** The bytes of the right value of an entry's datum. */
  function RightBytes(env: Env, ms: seq<Module>, k: nat, r: Relo): seq<byte>
    requires k < |ms| && WellFormed(ms[k]) && r in ms[k].relos
  {
    Entry(ms[k], r);
    PutValu(OldValue(env, ms, k, r) + Address(ms, env.base, k, r.nami), r.t)
  }

  /** The datum of entry r of module k holds its old value plus the final address of what it refers to. */
  ghost predicate DatumRight(env: Env, ms: seq<Module>, k: nat, r: Relo)
    requires k < |ms| && WellFormed(ms[k]) && r in ms[k].relos
  {
    DatumIs(env, ms, k, r, RightBytes(env, ms, k, r))
  }

  /**
    The datum of an entry holds its old value plus the final address of what it
    refers to, exactly if -n is absent, or the entry does not refer to a name
    in a section, or the section's base is 0 in the width of the datum.
   */
  lemma {:induction false} DatumFinal(o: Options, ms: seq<Module>, k: nat, r: Relo)
    requires AllWellFormed(ms) && NSect(ms) <= MAXSECT && !Relocatable(o, Globals(ms)) && k < |ms| && r in ms[k].relos
    ensures DatumRight(EnvOf(o, ms), ms, k, r) <==>
      || !o.nflag || NamedSection(ms, k, r.nami) == -1
      || Wrap(At(EnvOf(o, ms).base, NamedSection(ms, k, r.nami)), r.t.size) == 0
  {
    ValueFinal(o, ms, k, r);
    NamedNatural(ms, k, r.nami);
  }

  /** The same for what the tables leave out, whatever that is. */
  lemma {:induction false} ValueFinal(o: Options, ms: seq<Module>, k: nat, r: Relo)
    requires AllWellFormed(ms) && NSect(ms) <= MAXSECT && !Relocatable(o, Globals(ms)) && k < |ms| && r in ms[k].relos
    ensures DatumRight(EnvOf(o, ms), ms, k, r)
      <==> Wrap(LeftOut(o, ms, k, r.nami), r.t.size) == 0
  {
    DatumByTables(o, ms, k, r);
    TablesHaveAddress(o, ms, k, r.nami);
    LeftOutShows(EnvOf(o, ms), ms, k, r, LeftOut(o, ms, k, r.nami));
  }

  lemma {:induction false} RightIs(env: Env, ms: seq<Module>, k: nat, r: Relo, b: int) returns (v: int)
    requires k < |ms| && WellFormed(ms[k]) && r in ms[k].relos
    requires Referred(env, ms, k, r.nami) == Address(ms, env.base, k, r.nami) - b
    ensures r.t.Legal() && RightBytes(env, ms, k, r) == PutValu(v, r.t)
        && FinalBytes(env, ms, k, r) == PutValu(v - b, r.t)
  {
    Entry(ms[k], r);
    v := OldValue(env, ms, k, r) + Address(ms, env.base, k, r.nami);
  }

  lemma {:induction false} LeftOutShows(env: Env, ms: seq<Module>, k: nat, r: Relo, b: int)
    requires k < |ms| && WellFormed(ms[k]) && r in ms[k].relos && DatumPut(env, ms, k, r)
    requires Referred(env, ms, k, r.nami) == Address(ms, env.base, k, r.nami) - b
    ensures DatumRight(env, ms, k, r) <==> Wrap(b, r.t.size) == 0
  {
    var v := RightIs(env, ms, k, r, b);
    ShownAt(env, ms, k, r, v, b);
  }

  lemma {:induction false} ShownAt(env: Env, ms: seq<Module>, k: nat, r: Relo, v: int, b: int)
    requires k < |ms| && r.t.Legal() && DatumIs(env, ms, k, r, PutValu(v - b, r.t))
    ensures DatumIs(env, ms, k, r, PutValu(v, r.t)) <==> Wrap(b, r.t.size) == 0
  {
    Shown(Content(env, ms, r.sect), Origin(ms[..k], r.sect) + r.addr, v, b, r.t);
  }

  lemma {:induction false} NamedNatural(ms: seq<Module>, k: nat, nami: nat)
    requires AllWellFormed(ms) && NSect(ms) <= MAXSECT && k < |ms|
    ensures -1 <= NamedSection(ms, k, nami)
  {
    GlobalsOk(ms);
    if nami < |ms[k].names| {
      var i := IndexOf(Globals(ms), ms[k].names[nami].str);
      if i < |Globals(ms)| { assert NameOk(Globals(ms)[i], NSect(ms)); }
    }
  }

  // ------------------------------------------------- what the addresses are

  /** A name that one module defines in a section: its offset, where that module's part went, and the section's base. */
  lemma {:induction false} AddressOfDefinition(ms: seq<Module>, base: seq<int>, k: nat, nami: nat, j: nat, i: nat,
      s: nat)
    requires k < |ms| && nami < |ms[k].names| && !ms[k].names[nami].sct
    requires j < |ms| && i < |ms[j].names| && ms[j].names[i].ext && KindOf(ms[j].names[i]) == Defined
    requires ms[j].names[i].str == ms[k].names[nami].str && OneDefinition(Externals(ms), ms[j].names[i].str)
    requires ms[j].names[i].typ == S_MIN + s && s < MAXSECT == |base|
    ensures NamedSection(ms, k, nami) == s
    ensures Address(ms, base, k, nami) == ms[j].names[i].valu + Origin(ms[..j], s) + base[s]
  {
    DefinitionFound(ms, j, i);
  }

  /** A name that one module defines as absolute: its value. */
  lemma {:induction false} AddressOfAbsolute(ms: seq<Module>, base: seq<int>, k: nat, nami: nat, j: nat, i: nat)
    requires k < |ms| && nami < |ms[k].names| && !ms[k].names[nami].sct
    requires j < |ms| && i < |ms[j].names| && ms[j].names[i].ext && KindOf(ms[j].names[i]) == Defined
    requires ms[j].names[i].str == ms[k].names[nami].str && OneDefinition(Externals(ms), ms[j].names[i].str)
    requires ms[j].names[i].typ == S_ABS
    ensures NamedSection(ms, k, nami) == -1 && Address(ms, base, k, nami) == ms[j].names[i].valu
  {
    DefinitionFound(ms, j, i);
  }

  /**
    A name that is only common: room of the largest size that is asked for, after
    all modules' parts of the section and after the common names before it.
   */
  lemma {:induction false} AddressOfCommon(ms: seq<Module>, base: seq<int>, k: nat, nami: nat)
      returns (size: int, s: nat)
    requires AllWellFormed(ms) && NSect(ms) <= MAXSECT && k < |ms| && nami < |ms[k].names| && !ms[k].names[nami].sct
    requires Mentions(Externals(ms), ms[k].names[nami].str, Common)
        && !Mentions(Externals(ms), ms[k].names[nami].str, Defined)
    ensures LargestCommon(Externals(ms), ms[k].names[nami].str, size) && NamedSection(ms, k, nami) == s < MAXSECT
    ensures var before := CommonSize(Globals(ms), IndexOf(Globals(ms), ms[k].names[nami].str), s);
      Address(ms, base, k, nami) == At(base, s) + Origin(ms, s) + before
      && before + size <= CommonSize(Globals(ms), |Globals(ms)|, s)
  {
    var ns, str, gs := Externals(ms), ms[k].names[nami].str, Globals(ms);
    ExternalsExternal(ms);
    SaidMeaning(ns, str);
    EnterAllFind([], ns, str);
    var i :| 0 <= i < |ns| && ns[i].str == str && KindOf(ns[i]) == Common;
    assert Find([], str) == None;
    var g := Said(ns, str).value;
    assert Find(gs, str) == Some(g) && KindOf(g) == Common;
    GlobalOk(ms, str, g);
    size, s := g.valu, g.typ - S_MIN;
    NaturalCommons(ms);
    CommonSizeGrows(gs, IndexOf(gs, str) + 1, |gs|, s);
  }

  lemma {:induction false} NaturalCommons(ms: seq<Module>)
    requires AllWellFormed(ms) && NSect(ms) <= MAXSECT
    ensures forall k :: 0 <= k < |Globals(ms)| && Globals(ms)[k].com ==> Globals(ms)[k].valu >= 0
  {
    GlobalsOk(ms);
    forall k | 0 <= k < |Globals(ms)| && Globals(ms)[k].com ensures Globals(ms)[k].valu >= 0 {
      assert NameOk(Globals(ms)[k], NSect(ms));
    }
  }

  // -------------------------------------------------------- a base left out

  /**
    A two-byte reference to a name at the start of section 0, linked with -n
    -b0:0x1000: the datum is not the address.
   */
  lemma {:induction false} BaseLeftOut()
    ensures var x := Defines(S_MIN, 0);
      var m, o := Refers(x), PartialLimits.Plain(true, 0x1000);
      && AllWellFormed([m]) && NSect([m]) <= MAXSECT && !Relocatable(o, Globals([m])) && EnvOf(o, [m]).base[0] == 0x1000
      && Address([m], EnvOf(o, [m]).base, 0, 0) == 0x1000
      && !DatumRight(EnvOf(o, [m]), [m], 0, m.relos[0])
  {
    var x := Defines(S_MIN, 0);
    var m, o := Refers(x), PartialLimits.Plain(true, 0x1000);
    RefersWellFormed(x);
    OneModuleEnv(m, x, 0x1000);
    GlobalsSingle(m, x);
    FindSingle(x);
    assert NamedSection([m], 0, 0) == 0;
    assert m.relos[0] in [m][0].relos;
    DatumFinal(o, [m], 0, m.relos[0]);
    assert Wrap(0x1000, 2) == 0x1000;
  }
}
