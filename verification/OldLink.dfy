/**
  The two passes of the older linker (v6/ld.c): load1 collects definitions and
  can reject a library member, middle fixes the origins, and load2 computes every
  address again.
 */
module OldLink {
  import opened OldSymbols

  /** The sizes in a module's header, and its symbols. */
  datatype Module = Module(tsize: int, dsize: int, bsize: int, syms: seq<Symbol>)

  /** Text, data and bss: sizes, origins or relocation constants. */
  datatype Sizes = Sizes(t: int, d: int, b: int)

  function Even(n: int): int {
    Word(n + 1) - Word(n + 1) % 2
  }

  /** readhdr, and what load1 and load2 add to ctrel, cdrel and cbrel. */
  function Rel(m: Module, at: Sizes): Sizes {
    Sizes(Word(at.t), Word(at.d - Even(m.tsize)), Word(at.b - (Even(m.tsize) + Even(m.dsize))))
  }

  function Plus(m: Module, at: Sizes): Sizes {
    Sizes(Word(at.t + Even(m.tsize)), Word(at.d + Even(m.dsize)), Word(at.b + Even(m.bsize)))
  }

  /** The source's symreloc. */
  function Reloc(s: Symbol, rel: Sizes): Symbol {
    if s.stype == TEXT || s.stype == EXTERN + TEXT then s.(svalue := Word(s.svalue + rel.t))
    else if s.stype == DATA || s.stype == EXTERN + DATA then s.(svalue := Word(s.svalue + rel.d))
    else if s.stype == BSS || s.stype == EXTERN + BSS then s.(svalue := Word(s.svalue + rel.b))
    else if s.stype == EXTERN + UNDEF then s
    else if IsExtern(s.stype) then s.(stype := EXTERN + ABS)
    else s
  }

  // -------------------------------------------------------------- the first pass

  /** Does a mention define a symbol that was known and undefined? */
  predicate Redefines(tab: seq<Symbol>, s: Symbol) {
    var i := IndexOf(tab, s.name);
    && i < |tab| && tab[i].stype == EXTERN + UNDEF && s.stype != EXTERN + UNDEF
    && !(tab[i].svalue != 0 && s.stype == EXTERN + TEXT)
  }

  /** The table after one more mention of an external symbol. */
  function Mention(tab: seq<Symbol>, s: Symbol): (r: seq<Symbol>)
    ensures |tab| <= |r| <= |tab| + 1
    ensures forall k :: 0 <= k < |tab| ==> r[k].name == tab[k].name
  {
    var i := IndexOf(tab, s.name);
    if i == |tab| then tab + [s]
    else if tab[i].stype != EXTERN + UNDEF then tab
    else if s.stype == EXTERN + UNDEF then
      if Signed(s.svalue) > Signed(tab[i].svalue) then tab[i := tab[i].(svalue := s.svalue)] else tab
    else if tab[i].svalue != 0 && s.stype == EXTERN + TEXT then tab
    else tab[i := tab[i].(stype := s.stype, svalue := s.svalue)]
  }

  /** The table after the first n symbols of m. */
  function Tab(tab: seq<Symbol>, m: Module, rel: Sizes, n: nat): (r: seq<Symbol>)
    requires n <= |m.syms|
    ensures |tab| <= |r|
    ensures forall k :: 0 <= k < |tab| ==> r[k].name == tab[k].name
  {
    if n == 0 then tab
    else if IsExtern(m.syms[n - 1].stype) then Mention(Tab(tab, m, rel, n - 1), Reloc(m.syms[n - 1], rel))
    else Tab(tab, m, rel, n - 1)
  }

  function NDef(tab: seq<Symbol>, m: Module, rel: Sizes, n: nat): nat
    requires n <= |m.syms|
  {
    if n == 0 then 0
    else
      NDef(tab, m, rel, n - 1)
      + if IsExtern(m.syms[n - 1].stype) && Redefines(Tab(tab, m, rel, n - 1), Reloc(m.syms[n - 1], rel)) then 1 else 0
  }

  lemma {:induction false} TabGrows(tab: seq<Symbol>, m: Module, rel: Sizes, n: nat, n': nat)
    requires n <= n' <= |m.syms|
    ensures |Tab(tab, m, rel, n)| <= |Tab(tab, m, rel, n')|
    decreases n'
  {
    if n < n' { TabGrows(tab, m, rel, n, n' - 1); }
  }

  // the table in core

  class Table {
    const symtab: array<Symbol>
    const hshtab: array<int>
    var symp: nat
    ghost var pos: seq<nat>

    ghost predicate Valid()
      reads this, symtab, hshtab
    {
      symtab.Length == NSYM && hshtab.Length == NSLOT && symp <= NSYM && TableOk(symtab[..symp], hshtab[..], pos)
    }

    ghost function Contents(): seq<Symbol>
      requires Valid()
      reads this, symtab, hshtab
    {
      symtab[..symp]
    }

    constructor ()
      ensures Valid() && Contents() == [] && fresh(symtab) && fresh(hshtab)
    {
      symtab := new Symbol[NSYM](_ => Symbol([], 0, 0));
      hshtab := new int[NSLOT](_ => -1);
      symp := 0;
      pos := [];
    }

    /** The source's lookup. */
    method Lookup(name: seq<int>) returns (hp: nat)
      requires Valid()
      ensures hp < NSLOT
      ensures hshtab[hp] == -1 ==>
          IndexOf(Contents(), name) == |Contents()| && Searched(Contents(), hshtab[..], name, hp)
      ensures hshtab[hp] != -1 ==> hshtab[hp] == IndexOf(Contents(), name) < |Contents()|
    {
      ghost var e := EmptySlot(Contents(), hshtab[..], pos);
      hp := ComputeHash(name);
      while hshtab[hp] != -1 && symtab[hshtab[hp]].name != name
        invariant hp < NSLOT && Searched(Contents(), hshtab[..], name, hp)
        decreases Distance(hp, e)
      {
        SearchedNext(Contents(), hshtab[..], name, hp, e);
        hp := hp + 1;
        if hp >= NSLOT { hp := 0; }
      }
      if hshtab[hp] == -1 {
        NotThere(Contents(), hshtab[..], pos, name, hp);
      } else {
        There(Contents(), hshtab[..], pos, name, hp);
      }
    }

    /** The source's enter, and filling the slot. */
    method Enter(hp: nat, s: Symbol) returns (ok: bool)
      requires Valid() && hp < NSLOT && hshtab[hp] == -1 && Searched(Contents(), hshtab[..], s.name, hp)
      modifies this, symtab, hshtab
      ensures ok == (|old(Contents())| < NSYM)
      ensures ok ==>
          Valid() && Contents() == old(Contents()) + [s] && hshtab[..] == old(hshtab[..])[hp := |old(Contents())|]
    {
      if symp >= NSYM { return false; }
      EnterOk(Contents(), hshtab[..], pos, s, hp);
      symtab[symp] := s;
      hshtab[hp] := symp;
      symp := symp + 1;
      pos := pos + [hp];
      assert symtab[..symp] == old(Contents()) + [s];
      assert hshtab[..] == old(hshtab[..])[hp := |old(Contents())|];
      ok := true;
    }

    method Change(i: nat, s: Symbol)
      requires Valid() && i < symp && symtab[i].name == s.name
      modifies symtab
      ensures Valid() && Contents() == old(Contents())[i := s]
    {
      ghost var was := Contents();
      symtab[i] := s;
      assert symtab[..symp] == was[i := s];
      SameNamesOk(was, symtab[..symp], hshtab[..], pos);
    }

    /** One external symbol of load1: the slot that it took, if any, and whether it defined something. */
    method Note(s: Symbol) returns (ok: bool, hp: nat, new_: bool, def: bool)
      requires Valid()
      modifies this, symtab, hshtab
      ensures ok == (|Mention(old(Contents()), s)| <= NSYM)
      ensures ok ==> Valid() && Contents() == Mention(old(Contents()), s) && def == Redefines(old(Contents()), s)
      ensures ok && !new_ ==> hshtab[..] == old(hshtab[..])
      ensures ok && new_ ==>
          hp < NSLOT && old(hshtab[..])[hp] == -1 && hshtab[..] == old(hshtab[..])[hp := |old(Contents())|]
    {
      hp := Lookup(s.name);
      ok, new_, def := true, false, false;
      if hshtab[hp] == -1 {
        new_ := true;
        ok := Enter(hp, s);
        return;
      }
      var i := hshtab[hp];
      var sp := symtab[i];
      if sp.stype != EXTERN + UNDEF { return; }
      if s.stype == EXTERN + UNDEF {
        if Signed(s.svalue) > Signed(sp.svalue) { Change(i, sp.(svalue := s.svalue)); }
        return;
      }
      if sp.svalue != 0 && s.stype == EXTERN + TEXT { return; }
      def := true;
      Change(i, sp.(stype := s.stype, svalue := s.svalue));
    }

    /** Slots that have been filled since. */
    ghost predicate OnlyNew(was: seq<int>, local: seq<nat>)
      requires |was| == NSLOT
      reads hshtab
    {
      && hshtab.Length == NSLOT
      && (forall j :: 0 <= j < |local| ==> local[j] < NSLOT && was[local[j]] == -1)
      && forall q :: 0 <= q < NSLOT && hshtab[q] != was[q] ==> q in local
    }

    /** Take back the entries of a member that is rejected. */
    method TakeBack(top: nat, local: seq<nat>, ghost was: seq<int>, ghost tab: seq<Symbol>, ghost wasPos: seq<nat>)
      requires Valid() && |was| == NSLOT && OnlyNew(was, local)
      requires top == |tab| <= symp && TableOk(tab, was, wasPos)
      requires forall k :: 0 <= k < top ==> symtab[k].name == tab[k].name
      modifies this, hshtab
      ensures Valid() && hshtab[..] == was && symp == top && Contents() == old(Contents())[..top]
    {
      symp := top;
      var cp := |local|;
      while cp > 0
        invariant 0 <= cp <= |local| && symp == top
        invariant OnlyNew(was, local[..cp])
      {
        assert local[..cp] == local[..cp - 1] + [local[cp - 1]];
        cp := cp - 1;
        hshtab[local[cp]] := -1;
      }
      pos := wasPos;
      assert hshtab[..] == was;
      SameNamesOk(tab, symtab[..symp], was, wasPos);
    }

    /** What load1 has done with the first n symbols. */
    ghost predicate Noted(tab: seq<Symbol>, was: seq<int>, m: Module, rel: Sizes, n: nat, ndef: nat, local: seq<nat>)
      requires n <= |m.syms| && |was| == NSLOT
      reads this, symtab, hshtab
    {
      Valid() && Contents() == Tab(tab, m, rel, n) && ndef == NDef(tab, m, rel, n) && OnlyNew(was, local)
    }

    method NoteAll(m: Module, rel: Sizes) returns (ok: bool, ndef: nat, local: seq<nat>)
      requires Valid()
      modifies this, symtab, hshtab
      ensures ok == (|Tab(old(Contents()), m, rel, |m.syms|)| <= NSYM)
      ensures ok ==> Noted(old(Contents()), old(hshtab[..]), m, rel, |m.syms|, ndef, local)
    {
      ghost var tab, was := Contents(), hshtab[..];
      ok, ndef, local := true, 0, [];
      var n := 0;
      while n < |m.syms|
        invariant 0 <= n <= |m.syms| && Noted(tab, was, m, rel, n, ndef, local)
      {
        if IsExtern(m.syms[n].stype) {
          var hp, new_, def;
          ok, hp, new_, def := Note(Reloc(m.syms[n], rel));
          if !ok {
            TabGrows(tab, m, rel, n + 1, |m.syms|);
            return;
          }
          if new_ { local := local + [hp]; }
          if def { ndef := ndef + 1; }
        }
        n := n + 1;
      }
    }

    /** The source's load1; it ends the program if the table is full. */
    method Load1(m: Module, sizes: Sizes, libflg: bool) returns (ok: bool, loaded: bool)
      requires Valid()
      modifies this, symtab, hshtab
      ensures var tab := old(Contents());
        && ok == (|Tab(tab, m, Rel(m, sizes), |m.syms|)| <= NSYM)
        && (ok ==> Valid() && loaded == Accepts(tab, m, sizes, libflg) && Contents() == Loaded(tab, m, sizes, libflg))
      ensures ok && !loaded ==> hshtab[..] == old(hshtab[..]) && symp == old(symp)
    {
      ghost var tab, was, wasPos := Contents(), hshtab[..], pos;
      var ssymp := symp;
      var ndef, local;
      ok, ndef, local := NoteAll(m, Rel(m, sizes));
      loaded := !libflg || ndef > 0;
      if ok && !loaded { TakeBack(ssymp, local, was, tab, wasPos); }
    }
  }

  predicate Accepts(tab: seq<Symbol>, m: Module, sizes: Sizes, libflg: bool) {
    !libflg || NDef(tab, m, Rel(m, sizes), |m.syms|) > 0
  }

  /** The table after load1. */
  function Loaded(tab: seq<Symbol>, m: Module, sizes: Sizes, libflg: bool): seq<Symbol> {
    var all := Tab(tab, m, Rel(m, sizes), |m.syms|);
    if Accepts(tab, m, sizes, libflg) then all else all[..|tab|]
  }

  // ------------------------------------------------- what a rejection leaves

  /** An undefined symbol after the first n symbols of m: the largest size that was mentioned. */
  function Enlarged(s: Symbol, m: Module, n: nat): Symbol
    requires n <= |m.syms|
  {
    if n == 0 then s
    else
      var before, c := Enlarged(s, m, n - 1), m.syms[n - 1];
      if s.stype == c.stype == EXTERN + UNDEF && c.name == s.name && Signed(c.svalue) > Signed(before.svalue)
      then before.(svalue := c.svalue) else before
  }

  lemma IndexOfFirst(tab: seq<Symbol>, tab': seq<Symbol>, k: nat)
    requires Unique(tab) && k < |tab| <= |tab'| && forall i :: 0 <= i < |tab| ==> tab'[i].name == tab[i].name
    ensures IndexOf(tab', tab[k].name) == k
  {
    assert IndexOf(tab', tab[k].name) <= k;
  }

  /** Without definitions, every symbol that was there gets the largest size that is mentioned. */
  lemma {:induction false} NoDefinitions(tab: seq<Symbol>, m: Module, rel: Sizes, n: nat, k: nat)
    requires Unique(tab) && n <= |m.syms| && k < |tab| && NDef(tab, m, rel, n) == 0
    ensures Tab(tab, m, rel, n)[k] == Enlarged(tab[k], m, n) && Enlarged(tab[k], m, n).stype == tab[k].stype
    decreases n
  {
    if n > 0 {
      NoDefinitions(tab, m, rel, n - 1, k);
      IndexOfFirst(tab, Tab(tab, m, rel, n - 1), k);
    }
  }

  /** A common symbol for which there is an undefined entry of a smaller size. */
  predicate Enlarges(tab: seq<Symbol>, c: Symbol) {
    var i := IndexOf(tab, c.name);
    c.stype == EXTERN + UNDEF && i < |tab| && tab[i].stype == EXTERN + UNDEF && Signed(c.svalue) > Signed(tab[i].svalue)
  }

  predicate AnyEnlarges(tab: seq<Symbol>, m: Module) {
    exists n :: 0 <= n < |m.syms| && Enlarges(tab, m.syms[n])
  }

  lemma {:induction false} EnlargedIf(tab: seq<Symbol>, m: Module, n: nat, k: nat)
    requires Unique(tab) && k < |tab| && n <= |m.syms|
    ensures Signed(Enlarged(tab[k], m, n).svalue) >= Signed(tab[k].svalue)
    ensures forall j :: 0 <= j < n && m.syms[j].name == tab[k].name && Enlarges(tab, m.syms[j]) ==>
        Signed(Enlarged(tab[k], m, n).svalue) > Signed(tab[k].svalue)
    ensures Enlarged(tab[k], m, n) != tab[k] ==> AnyEnlarges(tab, m)
    decreases n
  {
    if n > 0 {
      EnlargedIf(tab, m, n - 1, k);
      IndexOfFirst(tab, tab, k);
      var before, c := Enlarged(tab[k], m, n - 1), m.syms[n - 1];
      if Enlarged(tab[k], m, n) != tab[k] && before == tab[k] { assert Enlarges(tab, m.syms[n - 1]); }
    }
  }

  /**
    A rejected member leaves the largest sizes that it mentions with the undefined
    symbols; the table is as it was exactly if none of these is larger.
   */
  lemma {:induction false} RejectionLeaves(tab: seq<Symbol>, m: Module, sizes: Sizes, libflg: bool)
    requires Unique(tab) && !Accepts(tab, m, sizes, libflg)
    ensures |Loaded(tab, m, sizes, libflg)| == |tab|
    ensures forall k :: 0 <= k < |tab| ==> Loaded(tab, m, sizes, libflg)[k] == Enlarged(tab[k], m, |m.syms|)
    ensures Loaded(tab, m, sizes, libflg) == tab <==> !AnyEnlarges(tab, m)
  {
    var now := Loaded(tab, m, sizes, libflg);
    forall k | 0 <= k < |tab| ensures now[k] == Enlarged(tab[k], m, |m.syms|) {
      NoDefinitions(tab, m, Rel(m, sizes), |m.syms|, k);
    }
    if !AnyEnlarges(tab, m) {
      forall k | 0 <= k < |tab| ensures now[k] == tab[k] { EnlargedIf(tab, m, |m.syms|, k); }
    } else {
      var n :| 0 <= n < |m.syms| && Enlarges(tab, m.syms[n]);
      EnlargedIf(tab, m, |m.syms|, IndexOf(tab, m.syms[n].name));
    }
  }

  /** A library member with the common symbol _x, and the table of a program that mentions it. */
  const X := [95, 120, 0, 0, 0, 0, 0, 0]
  const CommonMember := Module(0, 0, 0, [Symbol(X, EXTERN + UNDEF, 4)])
  const Mentioned := [Symbol(X, EXTERN + UNDEF, 0)]

  /** The member is rejected, and the symbol has got its size. */
  lemma {:induction false} CommonRejected(sizes: Sizes)
    ensures !Accepts(Mentioned, CommonMember, sizes, true)
    ensures Loaded(Mentioned, CommonMember, sizes, true) == [Symbol(X, EXTERN + UNDEF, 4)]
  {
    var tab, m, rel := Mentioned, CommonMember, Rel(CommonMember, sizes);
    assert Tab(tab, m, rel, 0) == tab && NDef(tab, m, rel, 0) == 0;
    assert IndexOf(tab, X) == 0;
    assert Tab(tab, m, rel, 1) == [Symbol(X, EXTERN + UNDEF, 4)];
    assert NDef(tab, m, rel, 1) == 0;
  }

  // ----------------------------------------------------------- the two passes

  /** A file on the command line, or a member of a library. */
  datatype Input = Input(m: Module, libflg: bool)

  /** The occurrence in the loaded modules that a table entry comes from. */
  datatype Origin = Origin(mod: nat, sym: nat)

  /** The state of the first pass. */
  datatype Pass = Pass(tab: seq<Symbol>, from: seq<Origin>, loaded: seq<Module>)

  /** The sizes of the first k modules that are loaded. */
  function Total(ms: seq<Module>, k: nat): Sizes
    requires k <= |ms|
  {
    if k == 0 then Sizes(0, 0, 0) else Plus(ms[k - 1], Total(ms, k - 1))
  }

  /** Where the entries come from, after the first n symbols of module number k. */
  function From(tab: seq<Symbol>, from: seq<Origin>, m: Module, rel: Sizes, k: nat, n: nat): (r: seq<Origin>)
    requires n <= |m.syms| && |from| == |tab|
    ensures |r| == |Tab(tab, m, rel, n)|
  {
    if n == 0 then from
    else
      var before, s := From(tab, from, m, rel, k, n - 1), Reloc(m.syms[n - 1], rel);
      var t := Tab(tab, m, rel, n - 1);
      if !IsExtern(m.syms[n - 1].stype) then before
      else if IndexOf(t, s.name) == |t| then before + [Origin(k, n - 1)]
      else if Redefines(t, s) then before[IndexOf(t, s.name) := Origin(k, n - 1)]
      else before
  }

  function Step(p: Pass, a: Input): (r: Pass)
    requires |p.from| == |p.tab|
    ensures |r.from| == |r.tab|
  {
    var sizes := Total(p.loaded, |p.loaded|);
    var from := From(p.tab, p.from, a.m, Rel(a.m, sizes), |p.loaded|, |a.m.syms|);
    if Accepts(p.tab, a.m, sizes, a.libflg)
    then Pass(Loaded(p.tab, a.m, sizes, a.libflg), from, p.loaded + [a.m])
    else Pass(Loaded(p.tab, a.m, sizes, a.libflg), from[..|p.tab|], p.loaded)
  }

  function FirstPass(inputs: seq<Input>): (r: Pass)
    ensures |r.from| == |r.tab|
  {
    if |inputs| == 0 then Pass([], [], []) else Step(FirstPass(inputs[..|inputs| - 1]), inputs[|inputs| - 1])
  }

  // the passes in place

  /** The table never overflows. */
  predicate NeverFull(inputs: seq<Input>) {
    |inputs| == 0 ||
    var p, a := FirstPass(inputs[..|inputs| - 1]), inputs[|inputs| - 1];
    && NeverFull(inputs[..|inputs| - 1])
    && |Tab(p.tab, a.m, Rel(a.m, Total(p.loaded, |p.loaded|)), |a.m.syms|)| <= NSYM
  }

  lemma {:induction false} FullStays(inputs: seq<Input>, k: nat)
    requires k <= |inputs| && NeverFull(inputs)
    ensures NeverFull(inputs[..k])
    decreases |inputs|
  {
    if k == |inputs| {
      assert inputs[..k] == inputs;
    } else {
      FullStays(inputs[..|inputs| - 1], k);
      assert inputs[..|inputs| - 1][..k] == inputs[..k];
    }
  }

  method RunStep(t: Table, sizes: Sizes, a: Input, ghost p: Pass) returns (ok: bool, sizes': Sizes)
    requires t.Valid() && t.Contents() == p.tab && |p.from| == |p.tab| && sizes == Total(p.loaded, |p.loaded|)
    modifies t, t.symtab, t.hshtab
    ensures ok == (|Tab(p.tab, a.m, Rel(a.m, sizes), |a.m.syms|)| <= NSYM)
    ensures ok ==> t.Valid() && t.Contents() == Step(p, a).tab
    ensures ok ==> sizes' == Total(Step(p, a).loaded, |Step(p, a).loaded|)
  {
    var loaded;
    ok, loaded := t.Load1(a.m, sizes, a.libflg);
    TotalPrefix(p.loaded, a.m, |p.loaded|);
    sizes' := if loaded then Plus(a.m, sizes) else sizes;
  }

  /** The first pass over all inputs: load1 for each, and the sizes of those that are loaded. */
  method RunFirstPass(inputs: seq<Input>) returns (ok: bool, t: Table, sizes: Sizes)
    ensures ok == NeverFull(inputs)
    ensures ok ==> t.Valid() && t.Contents() == FirstPass(inputs).tab
    ensures ok ==> sizes == Total(FirstPass(inputs).loaded, |FirstPass(inputs).loaded|)
  {
    t := new Table();
    ok, sizes := true, Sizes(0, 0, 0);
    var k := 0;
    while k < |inputs|
      invariant 0 <= k <= |inputs| && fresh(t) && fresh(t.symtab) && fresh(t.hshtab)
      invariant NeverFull(inputs[..k]) && t.Valid() && t.Contents() == FirstPass(inputs[..k]).tab
      invariant sizes == Total(FirstPass(inputs[..k]).loaded, |FirstPass(inputs[..k]).loaded|)
    {
      assert inputs[..k + 1][..k] == inputs[..k];
      ok, sizes := RunStep(t, sizes, inputs[k], FirstPass(inputs[..k]));
      if !ok {
        if NeverFull(inputs) { FullStays(inputs, k + 1); }
        return;
      }
      k := k + 1;
    }
    assert inputs[..k] == inputs;
  }

  /** An entry that is defined is what its occurrence says, relocated as in the first pass. */
  predicate EntryFrom(s: Symbol, o: Origin, ms: seq<Module>) {
    s.stype != EXTERN + UNDEF ==>
      && o.mod < |ms| && o.sym < |ms[o.mod].syms|
      && IsExtern(ms[o.mod].syms[o.sym].stype)
      && s == Reloc(ms[o.mod].syms[o.sym], Rel(ms[o.mod], Total(ms, o.mod)))
  }

  ghost predicate AllFrom(tab: seq<Symbol>, from: seq<Origin>, ms: seq<Module>) {
    |from| == |tab| && forall e :: 0 <= e < |tab| ==> EntryFrom(tab[e], from[e], ms)
  }

  lemma {:induction false} TotalPrefix(ms: seq<Module>, m: Module, k: nat)
    requires k <= |ms|
    ensures Total(ms + [m], k) == Total(ms, k)
    decreases k
  {
    if k > 0 { TotalPrefix(ms, m, k - 1); }
  }

  lemma LongerFrom(tab: seq<Symbol>, from: seq<Origin>, ms: seq<Module>, m: Module)
    requires AllFrom(tab, from, ms)
    ensures AllFrom(tab, from, ms + [m])
  {
    forall e | 0 <= e < |tab| ensures EntryFrom(tab[e], from[e], ms + [m]) {
      assert EntryFrom(tab[e], from[e], ms);
      if tab[e].stype != EXTERN + UNDEF { TotalPrefix(ms, m, from[e].mod); }
    }
  }

  lemma {:induction false} ModuleFrom(tab: seq<Symbol>, from: seq<Origin>, ms: seq<Module>, m: Module, n: nat)
    requires n <= |m.syms| && AllFrom(tab, from, ms + [m])
    ensures AllFrom(Tab(tab, m, Rel(m, Total(ms, |ms|)), n), From(tab, from, m, Rel(m, Total(ms, |ms|)), |ms|, n), ms
        + [m])
    decreases n
  {
    if n > 0 {
      ModuleFrom(tab, from, ms, m, n - 1);
      MentionFrom(tab, from, ms, m, n - 1);
    }
  }

  lemma MentionFrom(tab: seq<Symbol>, from: seq<Origin>, ms: seq<Module>, m: Module, n: nat)
    requires n < |m.syms| && |from| == |tab|
    requires AllFrom(Tab(tab, m, Rel(m, Total(ms, |ms|)), n), From(tab, from, m, Rel(m, Total(ms, |ms|)), |ms|, n), ms
        + [m])
    ensures AllFrom(Tab(tab, m, Rel(m, Total(ms, |ms|)), n + 1),
        From(tab, from, m, Rel(m, Total(ms, |ms|)), |ms|, n + 1), ms + [m])
  {
    var rel := Rel(m, Total(ms, |ms|));
    var t, f := Tab(tab, m, rel, n), From(tab, from, m, rel, |ms|, n);
    var t', f' := Tab(tab, m, rel, n + 1), From(tab, from, m, rel, |ms|, n + 1);
    TotalPrefix(ms, m, |ms|);
    forall e | 0 <= e < |t'| ensures EntryFrom(t'[e], f'[e], ms + [m]) {
      if e < |t| { assert EntryFrom(t[e], f[e], ms + [m]); }
    }
  }

  lemma {:induction false} FirstPassFrom(inputs: seq<Input>)
    ensures AllFrom(FirstPass(inputs).tab, FirstPass(inputs).from, FirstPass(inputs).loaded)
    decreases |inputs|
  {
    if |inputs| > 0 {
      var p, a := FirstPass(inputs[..|inputs| - 1]), inputs[|inputs| - 1];
      FirstPassFrom(inputs[..|inputs| - 1]);
      FirstPassUnique(inputs[..|inputs| - 1]);
      StepFrom(p, a);
    }
  }

  lemma {:induction false} EnlargedUndefined(s: Symbol, m: Module, n: nat)
    requires n <= |m.syms|
    ensures Enlarged(s, m, n).stype == s.stype && (s.stype != EXTERN + UNDEF ==> Enlarged(s, m, n) == s)
    decreases n
  {
    if n > 0 { EnlargedUndefined(s, m, n - 1); }
  }

  lemma {:induction false} MentionUnique(tab: seq<Symbol>, s: Symbol)
    requires Unique(tab)
    ensures Unique(Mention(tab, s))
  {
  }

  lemma {:induction false} TabUnique(tab: seq<Symbol>, m: Module, rel: Sizes, n: nat)
    requires Unique(tab) && n <= |m.syms|
    ensures Unique(Tab(tab, m, rel, n))
    decreases n
  {
    if n > 0 {
      TabUnique(tab, m, rel, n - 1);
      MentionUnique(Tab(tab, m, rel, n - 1), Reloc(m.syms[n - 1], rel));
    }
  }

  lemma {:induction false} FirstPassUnique(inputs: seq<Input>)
    ensures Unique(FirstPass(inputs).tab)
    decreases |inputs|
  {
    if |inputs| > 0 {
      var p, a := FirstPass(inputs[..|inputs| - 1]), inputs[|inputs| - 1];
      FirstPassUnique(inputs[..|inputs| - 1]);
      TabUnique(p.tab, a.m, Rel(a.m, Total(p.loaded, |p.loaded|)), |a.m.syms|);
    }
  }

  lemma StepFrom(p: Pass, a: Input)
    requires Unique(p.tab) && AllFrom(p.tab, p.from, p.loaded)
    ensures AllFrom(Step(p, a).tab, Step(p, a).from, Step(p, a).loaded)
  {
    var sizes := Total(p.loaded, |p.loaded|);
    LongerFrom(p.tab, p.from, p.loaded, a.m);
    ModuleFrom(p.tab, p.from, p.loaded, a.m, |a.m.syms|);
    if !Accepts(p.tab, a.m, sizes, a.libflg) {
      RejectedFrom(p, a.m);
      RejectionLeaves(p.tab, a.m, sizes, a.libflg);
      var q := Step(p, a);
      forall e | 0 <= e < |q.tab| ensures EntryFrom(q.tab[e], q.from[e], q.loaded) {
        assert EntryFrom(p.tab[e], p.from[e], p.loaded);
        NoDefinitions(p.tab, a.m, Rel(a.m, sizes), |a.m.syms|, e);
        EnlargedUndefined(p.tab[e], a.m, |a.m.syms|);
      }
    }
  }

  lemma RejectedFrom(p: Pass, m: Module)
    requires |p.from| == |p.tab| && NDef(p.tab, m, Rel(m, Total(p.loaded, |p.loaded|)), |m.syms|) == 0
    ensures From(p.tab, p.from, m, Rel(m, Total(p.loaded, |p.loaded|)), |p.loaded|, |m.syms|)[..|p.tab|] == p.from
  {
    FromKept(p, m, Rel(m, Total(p.loaded, |p.loaded|)), |m.syms|);
  }

  lemma {:induction false} FromKept(p: Pass, m: Module, rel: Sizes, n: nat)
    requires |p.from| == |p.tab| && n <= |m.syms| && NDef(p.tab, m, rel, n) == 0
    ensures From(p.tab, p.from, m, rel, |p.loaded|, n)[..|p.tab|] == p.from
    decreases n
  {
    if n > 0 { FromKept(p, m, rel, n - 1); }
  }

  // ------------------------------------------------------------- final addresses

  /** middle: the origins of text, data and bss, for the total sizes and the common bytes. */
  function Origins(nflag: bool, iflag: bool, total: Sizes, csize: int): Sizes {
    var tsize := if nflag || iflag then Word(total.t + 63) - Word(total.t + 63) % 64 else total.t;
    var dorigin := if iflag then 0 else if nflag then Word(tsize + 8191) - Word(tsize + 8191) % 8192 else tsize;
    Sizes(0, dorigin, Word(dorigin + total.d + csize))
  }

  /** middle: the final value of a symbol that was defined in the first pass. */
  function Final(s: Symbol, o: Sizes): Symbol {
    if s.stype == EXTERN + TEXT then s.(svalue := Word(s.svalue + o.t))
    else if s.stype == EXTERN + DATA then s.(svalue := Word(s.svalue + o.d))
    else if s.stype == EXTERN + BSS then s.(svalue := Word(s.svalue + o.b))
    else s
  }

  /** The origins when load2 comes to module k. */
  function OriginsAt(o: Sizes, ms: seq<Module>, k: nat): Sizes
    requires k <= |ms|
  {
    if k == 0 then o else Plus(ms[k - 1], OriginsAt(o, ms, k - 1))
  }

  /** What load2 computes for symbol i of module k. */
  function SecondPass(o: Sizes, ms: seq<Module>, k: nat, i: nat): Symbol
    requires k < |ms| && i < |ms[k].syms|
  {
    Reloc(ms[k].syms[i], Rel(ms[k], OriginsAt(o, ms, k)))
  }

  /** Everything lies further by the origins. */
  predicate Shifted(o: Sizes, a: Sizes, b: Sizes) {
    Word(a.t) == Word(o.t + b.t) && Word(a.d) == Word(o.d + b.d) && Word(a.b) == Word(o.b + b.b)
  }

  lemma {:induction false} OriginsAtIs(o: Sizes, ms: seq<Module>, k: nat)
    requires k <= |ms|
    ensures Shifted(o, OriginsAt(o, ms, k), Total(ms, k))
    decreases k
  {
    if k > 0 {
      OriginsAtIs(o, ms, k - 1);
      PlusShifted(ms[k - 1], o, OriginsAt(o, ms, k - 1), Total(ms, k - 1));
    }
  }

  lemma PlusShifted(m: Module, o: Sizes, a: Sizes, b: Sizes)
    requires Shifted(o, a, b)
    ensures Shifted(o, Plus(m, a), Plus(m, b))
  {
    AddBoth(a.t, o.t, b.t, Even(m.tsize));
    AddBoth(a.d, o.d, b.d, Even(m.dsize));
    AddBoth(a.b, o.b, b.b, Even(m.bsize));
  }

  lemma AddBoth(a: int, o: int, b: int, x: int)
    requires Word(a) == Word(o + b)
    ensures Word(Word(a + x)) == Word(o + Word(b + x))
  {
  }

  lemma SameValue(v: int, a: int, o: int, b: int, x: int)
    requires Word(a) == Word(o + b)
    ensures Word(v + Word(a - x)) == Word(Word(v + Word(b - x)) + o)
  {
  }

  /**
    The second pass finds again, for the occurrence that a defined entry comes
    from, exactly the entry's final type and value; so it is not `multiply defined`.
   */
  lemma PassesAgree(inputs: seq<Input>, o: Sizes, e: nat)
    requires e < |FirstPass(inputs).tab| && FirstPass(inputs).tab[e].stype != EXTERN + UNDEF
    ensures var p := FirstPass(inputs);
      && p.from[e].mod < |p.loaded| && p.from[e].sym < |p.loaded[p.from[e].mod].syms|
      && SecondPass(o, p.loaded, p.from[e].mod, p.from[e].sym) == Final(p.tab[e], o)
  {
    var p := FirstPass(inputs);
    FirstPassFrom(inputs);
    assert EntryFrom(p.tab[e], p.from[e], p.loaded);
    EntryAgain(p.tab[e], p.from[e], p.loaded, o);
  }

  lemma EntryAgain(s: Symbol, f: Origin, ms: seq<Module>, o: Sizes)
    requires s.stype != EXTERN + UNDEF && EntryFrom(s, f, ms)
    ensures SecondPass(o, ms, f.mod, f.sym) == Final(s, o)
  {
    OriginsAtIs(o, ms, f.mod);
    ReadAgain(ms[f.mod], ms[f.mod].syms[f.sym], OriginsAt(o, ms, f.mod), Total(ms, f.mod), o);
  }

  lemma ReadAgain(m: Module, s: Symbol, a: Sizes, b: Sizes, o: Sizes)
    requires IsExtern(s.stype) && Reloc(s, Rel(m, b)).stype != EXTERN + UNDEF
    requires Shifted(o, a, b)
    ensures Reloc(s, Rel(m, a)) == Final(Reloc(s, Rel(m, b)), o)
  {
    SameValue(s.svalue, a.t, o.t, b.t, 0);
    SameValue(s.svalue, a.d, o.d, b.d, Even(m.tsize));
    SameValue(s.svalue, a.b, o.b, b.b, Even(m.tsize) + Even(m.dsize));
  }
}
