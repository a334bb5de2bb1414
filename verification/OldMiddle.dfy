/**
  Between the passes of the older linker (middle in v6/ld.c): whether the output
  stays relocatable, where common symbols go, the origins of the sections, and
  the final values of the symbols; the second pass finds the same values again.
 */
module OldMiddle {
  import opened OldSymbols
  import opened OldLink

  const COMM := 5

  /** The names _etext, _edata and _end, filled up to eight characters. */
  const ETEXT := [95, 101, 116, 101, 120, 116, 0, 0]
  const EDATA := [95, 101, 100, 97, 116, 97, 0, 0]
  const END := [95, 101, 110, 100, 0, 0, 0, 0]

  /** The options -r, -d, -n, -i and -s. */
  datatype Flags = Flags(r: bool, d: bool, n: bool, i: bool, s: bool)

  /** Undefined, of no size, and none of the three names that the linker defines. */
  predicate Missing(tab: seq<Symbol>, k: nat)
    requires k < |tab|
  {
    && tab[k].stype == EXTERN + UNDEF && tab[k].svalue == 0
    && k != IndexOf(tab, END) && k != IndexOf(tab, EDATA) && k != IndexOf(tab, ETEXT)
  }

  predicate AnyMissing(tab: seq<Symbol>) {
    exists k :: 0 <= k < |tab| && Missing(tab, k)
  }

  /** With something missing the output can only be linked again, and the other options are dropped. */
  function FlagsFor(tab: seq<Symbol>, f: Flags): Flags {
    if !f.r && AnyMissing(tab) then Flags(true, false, false, false, false) else f
  }

  predicate IsCommon(s: Symbol) {
    s.stype == EXTERN + UNDEF && s.svalue != 0
  }

  /** The common bytes among the first k symbols. */
  function CommonBytes(tab: seq<Symbol>, k: nat): nat
    requires k <= |tab|
  {
    if k == 0 then 0 else CommonBytes(tab, k - 1) + if IsCommon(tab[k - 1]) then Even(tab[k - 1].svalue) else 0
  }

  /** A symbol once commons have been assigned, and the linker's own names defined. */
  function Assigned(tab: seq<Symbol>, total: Sizes, k: nat): Symbol
    requires k < |tab|
  {
    var s := tab[k];
    if IsCommon(s) then s.(stype := EXTERN + COMM, svalue := Word(CommonBytes(tab, k)))
    else if s.stype != EXTERN + UNDEF then s
    else if k == IndexOf(tab, ETEXT) then s.(stype := EXTERN + TEXT, svalue := total.t)
    else if k == IndexOf(tab, EDATA) then s.(stype := EXTERN + DATA, svalue := total.d)
    else if k == IndexOf(tab, END) then s.(stype := EXTERN + BSS, svalue := total.b)
    else s
  }

  predicate Assigns(f: Flags) {
    f.d || !f.r
  }

  function AssignedIf(tab: seq<Symbol>, total: Sizes, f: Flags, k: nat): Symbol
    requires k < |tab|
  {
    if Assigns(f) then Assigned(tab, total, k) else tab[k]
  }

  function CommonSize(tab: seq<Symbol>, f: Flags): int {
    if Assigns(f) then Word(CommonBytes(tab, |tab|)) else 0
  }

  /** The origins of text, data and bss. */
  function OriginsFor(tab: seq<Symbol>, total: Sizes, f: Flags): Sizes {
    Origins(f.n, f.i, total, CommonSize(tab, f))
  }

  /** Common symbols become bss, before the bss of the modules. */
  function Settled(s: Symbol, o: Sizes, corigin: int): Symbol {
    if s.stype == EXTERN + COMM then s.(stype := EXTERN + BSS, svalue := Word(s.svalue + corigin)) else Final(s, o)
  }

  /** The whole of middle, for the flags that are left. */
  function Middle(tab: seq<Symbol>, total: Sizes, f: Flags, k: nat): Symbol
    requires k < |tab|
  {
    var o := OriginsFor(tab, total, f);
    Settled(AssignedIf(tab, total, f, k), o, Word(o.d + total.d))
  }

  // ------------------------------------------------------------------ in place

  method FindName(symtab: array<Symbol>, name: seq<int>) returns (i: nat)
    ensures i == IndexOf(symtab[..], name)
  {
    i := 0;
    while i < symtab.Length && symtab[i].name != name
      invariant 0 <= i <= symtab.Length && forall k :: 0 <= k < i ==> symtab[k].name != name
    {
      i := i + 1;
    }
    IndexIs(symtab[..], name, i);
  }

  lemma {:induction false} IndexIs(tab: seq<Symbol>, name: seq<int>, i: nat)
    requires i <= |tab| && (forall k :: 0 <= k < i ==> tab[k].name != name) && (i < |tab| ==> tab[i].name == name)
    ensures IndexOf(tab, name) == i
  {
  }

  method Check(symtab: array<Symbol>, f: Flags) returns (f': Flags)
    ensures f' == FlagsFor(symtab[..], f)
  {
    f' := f;
    if f.r { return; }
    var end := FindName(symtab, END);
    var edata := FindName(symtab, EDATA);
    var etext := FindName(symtab, ETEXT);
    var k := 0;
    while k < symtab.Length
      invariant 0 <= k <= symtab.Length && forall j :: 0 <= j < k ==> !Missing(symtab[..], j)
    {
      var s := symtab[k];
      if s.stype == EXTERN + UNDEF && s.svalue == 0 && k != end && k != edata && k != etext {
        assert Missing(symtab[..], k);
        return Flags(true, false, false, false, false);
      }
      assert !Missing(symtab[..], k);
      k := k + 1;
    }
  }

  /** Assign common locations. */
  method AssignCommons(symtab: array<Symbol>, ghost total: Sizes) returns (csize: int)
    modifies symtab
    ensures csize == Word(CommonBytes(old(symtab[..]), symtab.Length))
    ensures forall j :: 0 <= j < symtab.Length ==>
      symtab[j] == if IsCommon(old(symtab[j])) then Assigned(old(symtab[..]), total, j) else old(symtab[j])
  {
    csize := 0;
    var k := 0;
    ghost var tab := symtab[..];
    while k < symtab.Length
      invariant 0 <= k <= symtab.Length && csize == Word(CommonBytes(tab, k))
      invariant forall j :: 0 <= j < symtab.Length ==>
          symtab[j] == if j < k && IsCommon(tab[j]) then Assigned(tab, total, j) else tab[j]
    {
      var t := symtab[k].svalue;
      if symtab[k].stype == EXTERN + UNDEF && t != 0 {
        t := Even(t);
        symtab[k] := symtab[k].(svalue := csize, stype := EXTERN + COMM);
        csize := Word(csize + t);
      }
      k := k + 1;
    }
  }

  /** The linker's own name is defined, if it is there and undefined. */
  method Define(symtab: array<Symbol>, k: nat, stype: int, svalue: int)
    modifies symtab
    ensures forall j :: 0 <= j < symtab.Length ==>
      symtab[j] == if j == k && old(symtab[j]).stype == EXTERN + UNDEF
          then old(symtab[j]).(stype := stype, svalue := svalue) else old(symtab[j])
  {
    if k < symtab.Length && symtab[k].stype == EXTERN + UNDEF {
      symtab[k] := symtab[k].(stype := stype, svalue := svalue);
    }
  }

  method Assign(symtab: array<Symbol>, total: Sizes) returns (csize: int)
    modifies symtab
    ensures csize == Word(CommonBytes(old(symtab[..]), symtab.Length))
    ensures forall k :: 0 <= k < symtab.Length ==> symtab[k] == Assigned(old(symtab[..]), total, k)
  {
    var etext := FindName(symtab, ETEXT);
    var edata := FindName(symtab, EDATA);
    var end := FindName(symtab, END);
    csize := AssignCommons(symtab, total);
    Define(symtab, etext, EXTERN + TEXT, total.t);
    Define(symtab, edata, EXTERN + DATA, total.d);
    Define(symtab, end, EXTERN + BSS, total.b);
  }

  method Settle(symtab: array<Symbol>, o: Sizes, corigin: int)
    modifies symtab
    ensures forall k :: 0 <= k < symtab.Length ==> symtab[k] == Settled(old(symtab[k]), o, corigin)
  {
    var k := 0;
    while k < symtab.Length
      invariant 0 <= k <= symtab.Length
      invariant forall j :: 0 <= j < symtab.Length ==>
          symtab[j] == if j < k then Settled(old(symtab[j]), o, corigin) else old(symtab[j])
    {
      symtab[k] := Settled(symtab[k], o, corigin);
      k := k + 1;
    }
  }

  // -------------------------------------------------------------- what it means

  /** After load1 and middle, load2 finds for every defined symbol exactly the value that middle gave it. */
  lemma {:induction false} MiddleAgrees(inputs: seq<Input>, f: Flags, e: nat)
    requires e < |FirstPass(inputs).tab| && FirstPass(inputs).tab[e].stype != EXTERN + UNDEF
    ensures var p := FirstPass(inputs);
      var total, f' := Total(p.loaded, |p.loaded|), FlagsFor(p.tab, f);
      && p.from[e].mod < |p.loaded| && p.from[e].sym < |p.loaded[p.from[e].mod].syms|
      && SecondPass(OriginsFor(p.tab, total, f'), p.loaded, p.from[e].mod, p.from[e].sym) == Middle(p.tab, total, f', e)
  {
    var p := FirstPass(inputs);
    FirstPassFrom(inputs);
    assert EntryFrom(p.tab[e], p.from[e], p.loaded);
    PassesAgree(inputs, OriginsFor(p.tab, Total(p.loaded, |p.loaded|), FlagsFor(p.tab, f)), e);
  }

  lemma {:induction false} CommonBytesGrow(tab: seq<Symbol>, i: nat, j: nat)
    requires i <= j <= |tab|
    ensures CommonBytes(tab, i) <= CommonBytes(tab, j)
    decreases j
  {
    if i < j { CommonBytesGrow(tab, i, j - 1); }
  }

  /** If they fit in the address space, common symbols get room of their own, between the data and the modules' bss. */
  lemma {:induction false} CommonsApart(tab: seq<Symbol>, total: Sizes, i: nat, j: nat)
    requires i < j <= |tab| && IsCommon(tab[i]) && 0 < tab[i].svalue < 0x1_0000 - 1
        && CommonBytes(tab, |tab|) < 0x1_0000
    ensures Assigned(tab, total, i).svalue + tab[i].svalue <= CommonBytes(tab, j)
    ensures j < |tab| && IsCommon(tab[j]) ==>
        Assigned(tab, total, i).svalue + tab[i].svalue <= Assigned(tab, total, j).svalue
    ensures CommonBytes(tab, j) <= Word(CommonBytes(tab, |tab|))
  {
    CommonBytesGrow(tab, i + 1, j);
    CommonBytesGrow(tab, j, |tab|);
  }
}
