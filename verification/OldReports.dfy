/**
  What the older linker (v6/ld.c) tells its user: which names are undefined, which
  are multiply defined; and where that is not what the modules say.
 */
module OldReports {
  import opened OldSymbols
  import opened OldLink
  import opened OldMiddle

  // ------------------------------------------------------------- undefined names

  /** Does the module mention a size for this name that is larger than none? */
  predicate SizesIt(m: Module, name: seq<int>) {
    exists n :: 0 <= n < |m.syms| && IsSize(m.syms[n], name)
  }

  predicate IsSize(c: Symbol, name: seq<int>) {
    c.stype == EXTERN + UNDEF && c.name == name && Signed(c.svalue) > 0
  }

  /**
    A rejected member takes a name off the list of the missing ones, which middle
    reports, exactly if it has the name as a common symbol.
   */
  lemma {:induction false} RejectedHides(tab: seq<Symbol>, m: Module, sizes: Sizes, libflg: bool, k: nat)
    requires Unique(tab) && !Accepts(tab, m, sizes, libflg) && k < |tab| && Missing(tab, k)
    ensures |Loaded(tab, m, sizes, libflg)| == |tab|
    ensures Missing(Loaded(tab, m, sizes, libflg), k) <==> !SizesIt(m, tab[k].name)
    ensures IsCommon(Loaded(tab, m, sizes, libflg)[k]) <==> SizesIt(m, tab[k].name)
  {
    var now := Loaded(tab, m, sizes, libflg);
    RejectionLeaves(tab, m, sizes, libflg);
    EnlargedIf(tab, m, |m.syms|, k);
    EnlargedUndefined(tab[k], m, |m.syms|);
    OthersStay(tab, now);
    IndexOfFirst(tab, tab, k);
    if SizesIt(m, tab[k].name) {
      var n :| 0 <= n < |m.syms| && IsSize(m.syms[n], tab[k].name);
      assert Enlarges(tab, m.syms[n]);
    } else {
      NoSize(tab[k], m, |m.syms|);
    }
  }

  lemma {:induction false} NoSize(s: Symbol, m: Module, n: nat)
    requires n <= |m.syms| && s.svalue == 0 && !SizesIt(m, s.name)
    ensures Enlarged(s, m, n) == s
    decreases n
  {
    if n > 0 {
      NoSize(s, m, n - 1);
      assert !IsSize(m.syms[n - 1], s.name);
    }
  }

  lemma {:induction false} OthersStay(tab: seq<Symbol>, now: seq<Symbol>)
    requires |tab| == |now| && forall k :: 0 <= k < |tab| ==> now[k].name == tab[k].name
    ensures forall name :: IndexOf(now, name) == IndexOf(tab, name)
    decreases |tab|
  {
    if |tab| > 0 {
      forall k | 0 <= k < |tab[1..]| ensures now[1..][k].name == tab[1..][k].name {
        assert now[k + 1].name == tab[k + 1].name;
      }
      OthersStay(tab[1..], now[1..]);
    }
  }

  /** A program that mentions _x, and a library member that has it as a common symbol. */
  const Mentions := Input(Module(0, 0, 0, [Symbol(X, EXTERN + UNDEF, 0)]), false)

  /** Alone, _x is missing; after the member, which is not loaded, _x is common: nothing is reported. */
  lemma {:induction false} MissingHidden()
    ensures var p := FirstPass([Mentions]); AnyMissing(p.tab) && |p.loaded| == 1
    ensures var p := FirstPass([Mentions, Input(CommonMember, true)]);
      !AnyMissing(p.tab) && p.loaded == [Mentions.m] && p.tab == [Symbol(X, EXTERN + UNDEF, 4)]
  {
    var a, b := Mentions, Input(CommonMember, true);
    assert [a][..0] == [] && [a, b][..1] == [a];
    FirstOfTwo();
    var p := FirstPass([a]);
    CommonRejected(Total(p.loaded, |p.loaded|));
    assert Missing(p.tab, 0);
    assert FirstPass([a, b]) == Step(p, b);
  }

  lemma {:induction false} FirstOfTwo()
    ensures FirstPass([Mentions]).tab == Mentioned && FirstPass([Mentions]).loaded == [Mentions.m]
  {
    var m, rel := Mentions.m, Rel(Mentions.m, Sizes(0, 0, 0));
    assert [Mentions][..0] == [];
    assert FirstPass([Mentions]) == Step(Pass([], [], []), Mentions);
    assert Tab([], m, rel, 0) == [];
    assert IndexOf([], X) == 0;
    assert Tab([], m, rel, 1) == [] + [Symbol(X, EXTERN + UNDEF, 0)];
  }

  // ------------------------------------------------------ multiply defined names

  /** An external symbol that is defined where it occurs. */
  predicate IsDefinition(c: Symbol) {
    IsExtern(c.stype) && c.stype != EXTERN + UNDEF
  }

  /** The symbol is in the table; only text can be defined and the entry not. */
  predicate Known(tab: seq<Symbol>, c: Symbol) {
    var e := IndexOf(tab, c.name);
    e < |tab| && (IsDefinition(c) && tab[e].stype == EXTERN + UNDEF ==> c.stype == EXTERN + TEXT)
  }

  predicate KnownIn(tab: seq<Symbol>, m: Module, i: nat)
    requires i < |m.syms|
  {
    IsExtern(m.syms[i].stype) ==> Known(tab, m.syms[i])
  }

  ghost predicate AllKnown(tab: seq<Symbol>, ms: seq<Module>) {
    forall k, i :: 0 <= k < |ms| && 0 <= i < |ms[k].syms| ==> KnownIn(tab, ms[k], i)
  }

  /** The table later on: what was defined stays. */
  predicate Later(tab: seq<Symbol>, tab': seq<Symbol>) {
    && |tab| <= |tab'|
    && forall k :: 0 <= k < |tab| ==>
      tab'[k].name == tab[k].name && (tab[k].stype != EXTERN + UNDEF ==> tab'[k] == tab[k])
  }

  lemma IndexLater(tab: seq<Symbol>, tab': seq<Symbol>, name: seq<int>)
    requires Later(tab, tab') && IndexOf(tab, name) < |tab|
    ensures IndexOf(tab', name) == IndexOf(tab, name)
  {
    var e := IndexOf(tab, name);
    assert tab'[e].name == name;
    assert forall i :: 0 <= i < e ==> tab'[i].name == tab[i].name;
  }

  lemma KnownLater(tab: seq<Symbol>, tab': seq<Symbol>, c: Symbol)
    requires Later(tab, tab') && Known(tab, c)
    ensures Known(tab', c)
  {
    IndexLater(tab, tab', c.name);
  }

  lemma {:induction false} MentionKnows(tab: seq<Symbol>, c: Symbol, rel: Sizes)
    requires IsExtern(c.stype)
    ensures Later(tab, Mention(tab, Reloc(c, rel))) && Known(Mention(tab, Reloc(c, rel)), c)
  {
    var s := Reloc(c, rel);
    var now := Mention(tab, s);
    if IndexOf(tab, c.name) == |tab| {
      assert now[|tab|] == s && IndexOf(now, c.name) == |tab|;
    } else {
      IndexLater(tab, now, c.name);
    }
  }

  lemma {:induction false} TabKnows(tab: seq<Symbol>, m: Module, rel: Sizes, n: nat)
    requires n <= |m.syms|
    ensures Later(tab, Tab(tab, m, rel, n))
    ensures forall i :: 0 <= i < n ==> KnownIn(Tab(tab, m, rel, n), m, i)
    decreases n
  {
    if n > 0 {
      var was, now := Tab(tab, m, rel, n - 1), Tab(tab, m, rel, n);
      TabKnows(tab, m, rel, n - 1);
      if IsExtern(m.syms[n - 1].stype) {
        MentionKnows(was, m.syms[n - 1], rel);
        forall i | 0 <= i < n ensures KnownIn(now, m, i) {
          if i < n - 1 && IsExtern(m.syms[i].stype) {
            assert KnownIn(was, m, i);
            KnownLater(was, now, m.syms[i]);
          }
        }
      } else {
        forall i | 0 <= i < n ensures KnownIn(now, m, i) { if i < n - 1 { assert KnownIn(was, m, i); } }
      }
    }
  }

  lemma AllKnownLater(tab: seq<Symbol>, tab': seq<Symbol>, ms: seq<Module>)
    requires AllKnown(tab, ms) && Later(tab, tab')
    ensures AllKnown(tab', ms)
  {
    forall k, i | 0 <= k < |ms| && 0 <= i < |ms[k].syms| ensures KnownIn(tab', ms[k], i) {
      assert KnownIn(tab, ms[k], i);
      if IsExtern(ms[k].syms[i].stype) { KnownLater(tab, tab', ms[k].syms[i]); }
    }
  }

  lemma {:induction false} RejectedLater(tab: seq<Symbol>, m: Module, sizes: Sizes, libflg: bool)
    requires Unique(tab) && !Accepts(tab, m, sizes, libflg)
    ensures Later(tab, Loaded(tab, m, sizes, libflg))
  {
    RejectionLeaves(tab, m, sizes, libflg);
    forall k | 0 <= k < |tab| ensures tab[k].stype != EXTERN + UNDEF ==> Loaded(tab, m, sizes, libflg)[k] == tab[k] {
      EnlargedUndefined(tab[k], m, |m.syms|);
    }
  }

  lemma {:induction false} FirstPassKnows(inputs: seq<Input>)
    ensures AllKnown(FirstPass(inputs).tab, FirstPass(inputs).loaded)
    decreases |inputs|
  {
    if |inputs| > 0 {
      var p, a := FirstPass(inputs[..|inputs| - 1]), inputs[|inputs| - 1];
      FirstPassKnows(inputs[..|inputs| - 1]);
      FirstPassUnique(inputs[..|inputs| - 1]);
      var sizes := Total(p.loaded, |p.loaded|);
      if Accepts(p.tab, a.m, sizes, a.libflg) {
        TabKnows(p.tab, a.m, Rel(a.m, sizes), |a.m.syms|);
        AllKnownLater(p.tab, Step(p, a).tab, p.loaded);
      } else {
        RejectedLater(p.tab, a.m, sizes, a.libflg);
        AllKnownLater(p.tab, Step(p, a).tab, p.loaded);
      }
    }
  }

  /** The same type and value. */
  predicate SameDefinition(a: Symbol, b: Symbol) {
    a.stype == b.stype && a.svalue == b.svalue
  }

  /** What comes out of symreloc for a definition. */
  predicate Relocated(s: Symbol) {
    || s.stype == EXTERN + ABS
    || ((s.stype == EXTERN + TEXT || s.stype == EXTERN + DATA || s.stype == EXTERN + BSS) && Word(s.svalue) == s.svalue)
  }

  lemma RelocatedIs(c: Symbol, rel: Sizes)
    requires IsDefinition(c)
    ensures Relocated(Reloc(c, rel)) && (Reloc(c, rel).stype == EXTERN + TEXT ==> c.stype == EXTERN + TEXT)
    ensures c.stype == EXTERN + TEXT ==> Reloc(c, rel).stype == EXTERN + TEXT
  {
  }

  lemma AddedSame(a: int, b: int, o: int)
    requires Word(a) == a && Word(b) == b
    ensures Word(a + o) == Word(b + o) <==> a == b
  {
  }

  lemma FinalSame(a: Symbol, b: Symbol, o: Sizes)
    requires Relocated(a) && Relocated(b)
    ensures SameDefinition(Final(a, o), Final(b, o)) <==> SameDefinition(a, b)
  {
    if a.stype == b.stype && a.stype != EXTERN + ABS {
      AddedSame(a.svalue, b.svalue, o.t);
      AddedSame(a.svalue, b.svalue, o.d);
      AddedSame(a.svalue, b.svalue, o.b);
    }
  }

  /** load2 reports symbol i of module k of those that are loaded. */
  predicate Reported(p: Pass, f: Flags, k: nat, i: nat)
    requires k < |p.loaded| && i < |p.loaded[k].syms| && IndexOf(p.tab, p.loaded[k].syms[i].name) < |p.tab|
  {
    var total, f' := Total(p.loaded, |p.loaded|), FlagsFor(p.tab, f);
    !SameDefinition(SecondPass(OriginsFor(p.tab, total, f'), p.loaded, k, i),
        Middle(p.tab, total, f', IndexOf(p.tab, p.loaded[k].syms[i].name)))
  }

  /** The name is _etext, of no size, and the value is the end of the text. */
  predicate IsTextEnd(p: Pass, f: Flags, k: nat, i: nat)
    requires k < |p.loaded| && i < |p.loaded[k].syms| && IndexOf(p.tab, p.loaded[k].syms[i].name) < |p.tab|
  {
    var e := IndexOf(p.tab, p.loaded[k].syms[i].name);
    && e == IndexOf(p.tab, ETEXT) && p.tab[e].svalue == 0 && Assigns(FlagsFor(p.tab, f))
    && Word(AsRead(p, k, i).svalue) == Word(Total(p.loaded, |p.loaded|).t)
  }

  /** What load1 has made of symbol i of module k. */
  function AsRead(p: Pass, k: nat, i: nat): Symbol
    requires k < |p.loaded| && i < |p.loaded[k].syms|
  {
    Reloc(p.loaded[k].syms[i], Rel(p.loaded[k], Total(p.loaded, k)))
  }

  /**
    When load2 reports a definition: if the name got defined in the first pass,
    exactly if type or value are not those of the table. If it stayed undefined, all
    its definitions are text, and they are all reported, even if there is only one
    (unless it is the very name and value that the linker itself gives to the end of
    the text).
   */
  lemma {:induction false} Reports(inputs: seq<Input>, f: Flags, k: nat, i: nat)
    requires k < |FirstPass(inputs).loaded| && i < |FirstPass(inputs).loaded[k].syms|
    requires IsDefinition(FirstPass(inputs).loaded[k].syms[i])
    ensures var p := FirstPass(inputs);
      var c := p.loaded[k].syms[i];
      var e := IndexOf(p.tab, c.name);
      && e < |p.tab|
      && (p.tab[e].stype != EXTERN + UNDEF ==> (Reported(p, f, k, i) <==> !SameDefinition(AsRead(p, k, i), p.tab[e])))
      && (p.tab[e].stype == EXTERN + UNDEF ==>
          c.stype == EXTERN + TEXT && (Reported(p, f, k, i) <==> !IsTextEnd(p, f, k, i)))
  {
    var p := FirstPass(inputs);
    var c, total, f' := p.loaded[k].syms[i], Total(p.loaded, |p.loaded|), FlagsFor(p.tab, f);
    var e, o := IndexOf(p.tab, c.name), OriginsFor(p.tab, total, f');
    FirstPassKnows(inputs);
    assert KnownIn(p.tab, p.loaded[k], i);
    RelocatedIs(c, Rel(p.loaded[k], Total(p.loaded, k)));
    OriginsAtIs(o, p.loaded, k);
    ReadAgain(p.loaded[k], c, OriginsAt(o, p.loaded, k), Total(p.loaded, k), o);
    assert SecondPass(o, p.loaded, k, i) == Final(AsRead(p, k, i), o);
    if p.tab[e].stype != EXTERN + UNDEF { DefinedFinal(inputs, f, e, AsRead(p, k, i)); }
  }

  lemma {:induction false} DefinedFinal(inputs: seq<Input>, f: Flags, e: nat, s: Symbol)
    requires e < |FirstPass(inputs).tab| && FirstPass(inputs).tab[e].stype != EXTERN + UNDEF && Relocated(s)
    ensures var p := FirstPass(inputs);
      var total, f' := Total(p.loaded, |p.loaded|), FlagsFor(p.tab, f);
      SameDefinition(Final(s, OriginsFor(p.tab, total, f')), Middle(p.tab, total, f', e)) ==
        SameDefinition(s, p.tab[e])
  {
    var p := FirstPass(inputs);
    var total, f' := Total(p.loaded, |p.loaded|), FlagsFor(p.tab, f);
    FirstPassFrom(inputs);
    assert EntryFrom(p.tab[e], p.from[e], p.loaded);
    var from := p.from[e];
    RelocatedIs(p.loaded[from.mod].syms[from.sym], Rel(p.loaded[from.mod], Total(p.loaded, from.mod)));
    MiddleAgrees(inputs, f, e);
    PassesAgree(inputs, OriginsFor(p.tab, total, f'), e);
    FinalSame(s, p.tab[e], OriginsFor(p.tab, total, f'));
  }

  /** A module with the common symbol _x, and one that defines it, in its text. */
  const HasCommon := Input(CommonMember, false)
  const HasText := Input(Module(0, 0, 0, [Symbol(X, EXTERN + TEXT, 0)]), false)

  /** The only definition of _x is reported as one too many. */
  lemma {:induction false} OnlyDefinition(f: Flags)
    ensures var p := FirstPass([HasCommon, HasText]);
      && p.loaded == [HasCommon.m, HasText.m] && p.tab == [Symbol(X, EXTERN + UNDEF, 4)]
      && Reported(p, f, 1, 0)
  {
    var a, b := HasCommon, HasText;
    assert [a][..0] == [] && [a, b][..1] == [a];
    CommonFirst();
    var p := FirstPass([a]);
    var rel := Rel(b.m, Total(p.loaded, |p.loaded|));
    assert FirstPass([a, b]) == Step(p, b);
    assert Tab(p.tab, b.m, rel, 0) == p.tab && IndexOf(p.tab, X) == 0;
    assert Tab(p.tab, b.m, rel, 1) == p.tab;
    Reports([a, b], f, 1, 0);
  }

  lemma {:induction false} CommonFirst()
    ensures FirstPass([HasCommon]).tab == [Symbol(X, EXTERN + UNDEF, 4)]
        && FirstPass([HasCommon]).loaded == [HasCommon.m]
  {
    var m, rel := HasCommon.m, Rel(HasCommon.m, Sizes(0, 0, 0));
    assert [HasCommon][..0] == [];
    assert FirstPass([HasCommon]) == Step(Pass([], [], []), HasCommon);
    assert Tab([], m, rel, 0) == [];
    assert IndexOf([], X) == 0;
    assert Tab([], m, rel, 1) == [] + [Symbol(X, EXTERN + UNDEF, 4)];
  }
}
