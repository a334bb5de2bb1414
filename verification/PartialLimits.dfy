/** A concrete link for which partial linking is not transparent. */
module PartialLimits {
  import opened Bytes
  import opened Names
  import opened Relocation
  import opened LinkModel
  import opened PartialModule
  import opened PartialLink
  import opened PartialTheorem

  function Defines(typ: int, valu: int): Name {
    Name("x", typ, true, false, false, 0, 0, valu)
  }

  /** One section of two bytes, one name and one two-byte reference to it. */
  function Refers(n: Name): Module {
    Module([Section(2, 1, [0, 0])], [n], [Relo(RelType(2, false, false, false), 0, 0, 0)])
  }

  lemma RefersWellFormed(n: Name)
    requires n.ext && !n.com && !n.sct && (n.typ == S_ABS || n.typ == S_MIN)
    ensures WellFormed(Refers(n))
  {
    var m := Refers(n);
    forall i | 0 <= i < |m.relos| ensures ReloOk(m.relos[i], m) {}
  }

  lemma GlobalsSingle(m: Module, n: Name)
    requires m.names == [n] && n.ext
    ensures Globals([m]) == [n]
  {
    SingleNames(m);
    assert [n][..0] == [];
    assert ExternalsOf([n]) == [n];
    assert EnterAll([], [n]) == Enter([], n);
  }

  lemma NSectSingle(m: Module)
    ensures NSect([m]) == |m.sects|
  {
    assert [m][..0] == [];
  }

  function Plain(nflag: bool, base: nat): Options {
    Options(false, false, nflag, map[0 := base], map[])
  }

  function Partial(): Options {
    Options(true, false, false, map[], map[])
  }

  // ----------------------------------------------------------- a base missed

  lemma FirstBase(o: Options, sizes: seq<int>, base: nat)
    requires |sizes| == MAXSECT && o == Plain(true, base)
    ensures BasesTo(o, sizes, 1) == [base]
  {
    assert BasesTo(o, sizes, 0) == [];
  }

  lemma OneModuleEnv(m: Module, x: Name, base: nat)
    requires m.names == [x] && |m.sects| == 1 && x.ext && KindOf(x) == Defined
    ensures NSect([m]) == 1 && !Relocatable(Plain(true, base), Globals([m]))
        && EnvOf(Plain(true, base), [m]).base[0] == base
  {
    NSectSingle(m);
    GlobalsSingle(m, x);
    FirstBase(Plain(true, base), FullSizes(Globals([m]), Origins([m])), base);
  }

  lemma FindSingle(x: Name)
    ensures Find([x], x.str) == Some(x)
  {
    assert [x][0] == x;
  }

  lemma BaseMissedBy(t: Split, m: Module, x: Name, base: nat)
    requires t.ps == [] && t.qs == [m] && t.ss == [] && t.o == Plain(true, base)
    requires m.names == [x] && |m.sects| == 1 && x.ext && !x.sct && x.typ == S_MIN && KindOf(x) == Defined
    ensures NSect(t.Flat()) == 1 && Missed(t, m, 0) == base
  {
    assert t.Flat() == [m];
    OneModuleEnv(m, x, base);
    GlobalsSingle(m, x);
    FindSingle(x);
    MissedDefined(t, m, 0, x);
  }

  lemma NothingBeforeDefined(ms: seq<Module>)
    ensures NoCommonDefinition([], ms)
  {
    assert Globals([]) == [];
  }

  lemma SingleSound(t: Split, m: Module)
    requires t.ps == [] && t.qs == [m] && t.ss == [] && t.r == Partial() && WellFormed(m)
    ensures Sound(t)
  {
    NSectSingle(m);
    NothingBeforeDefined([m]);
    SameNSect(t);
  }

  lemma MissesBase(t: Split, m: Module, x: Name, base: nat)
    requires t.ps == [] && t.qs == [m] && t.ss == [] && t.o == Plain(true, base)
    requires m == Refers(x) && x.ext && !x.sct && x.typ == S_MIN && KindOf(x) == Defined && 0 < base < 0x1_0000
    ensures NSect(t.Flat()) == 1 && !NothingMissed(t)
  {
    BaseMissedBy(t, m, x, base);
    assert Wrap(base, 2) == base;
    assert !MissesNone(t, 0, 0);
  }

  lemma BaseMissedIn(t: Split, m: Module, x: Name, base: nat)
    requires t == Split([], [m], [], Partial(), Plain(true, base))
    requires x == Defines(S_MIN, 0) && m == Refers(x) && 0 < base < 0x1_0000
    ensures Sound(t) && NSect(t.Nested()) <= MAXSECT && Link(t.o, t.Nested()) != Link(t.o, t.Flat())
  {
    RefersWellFormed(x);
    SingleSound(t, m);
    MissesBase(t, m, x, base);
    PartialLinkTransparent(t);
  }

  /** With -n, a later link at another base than 0 misses it. */
  lemma BaseMissed() returns (t: Split)
    ensures Sound(t) && t.o.nflag && NSect(t.Nested()) <= MAXSECT && Link(t.o, t.Nested()) != Link(t.o, t.Flat())
  {
    var x := Defines(S_MIN, 0);
    var m := Refers(x);
    t := Split([], [m], [], Partial(), Plain(true, 0x1000));
    BaseMissedIn(t, m, x, 0x1000);
  }
}
