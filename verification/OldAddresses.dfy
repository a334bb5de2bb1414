/**
  Where everything is in the output of the older linker (v6/ld.c): the parts of
  module number k lie after those of the modules before it, and the symbols and
  words that refer to them get their addresses there.
 */
module OldAddresses {
  import opened OldSymbols
  import opened OldLink
  import opened OldMiddle
  import opened OldOrigins

  /** The next even number. */
  function EvenUp(n: int): int {
    n + n % 2
  }

  function TextBefore(ms: seq<Module>, k: nat): int
    requires k <= |ms|
  {
    if k == 0 then 0 else TextBefore(ms, k - 1) + EvenUp(ms[k - 1].tsize)
  }

  function DataBefore(ms: seq<Module>, k: nat): int
    requires k <= |ms|
  {
    if k == 0 then 0 else DataBefore(ms, k - 1) + EvenUp(ms[k - 1].dsize)
  }

  function BssBefore(ms: seq<Module>, k: nat): int
    requires k <= |ms|
  {
    if k == 0 then 0 else BssBefore(ms, k - 1) + EvenUp(ms[k - 1].bsize)
  }

  /**
    A module counts its addresses through its text, its data and its bss; each of
    them goes after those of the modules before. This is where the byte at `addr`
    of the given section goes, for module k.
   */
  function Place(ms: seq<Module>, o: Sizes, k: nat, section: int, addr: int): int
    requires k < |ms|
  {
    var text, data := EvenUp(ms[k].tsize), EvenUp(ms[k].dsize);
    if section == TEXT then TextBefore(ms, k) + addr
    else if section == DATA then o.d + DataBefore(ms, k) + (addr - text)
    else if section == BSS then o.b + BssBefore(ms, k) + (addr - text - data)
    else addr
  }

  /** The same in sixteen bits. */
  predicate Same(a: int, b: int) {
    (a - b) % 0x1_0000 == 0
  }

  lemma SameIs(a: int, b: int)
    ensures Same(a, b) <==> Word(a) == Word(b)
  {
  }

  lemma SameAdd(a: int, b: int, x: int, y: int)
    requires Same(a, b) && Same(x, y)
    ensures Same(a + x, b + y) && Same(a - x, b - y)
  {
  }

  lemma SameWord(a: int, b: int)
    requires Same(a, b)
    ensures Same(Word(a), b)
  {
  }

  lemma EvenSame(n: int)
    ensures Same(Even(n), EvenUp(n))
  {
    EvenIs(n);
  }

  /** All the sizes of load1, and the origins of load2, are the sums. */
  predicate Sums(a: Sizes, o: Sizes, ms: seq<Module>, k: nat)
    requires k <= |ms|
  {
    Same(a.t, o.t + TextBefore(ms, k)) && Same(a.d, o.d + DataBefore(ms, k)) && Same(a.b, o.b + BssBefore(ms, k))
  }

  lemma Further(a: int, b: int, size: int)
    requires Same(a, b)
    ensures Same(Word(a + Even(size)), b + EvenUp(size))
  {
    EvenSame(size);
    SameAdd(a, b, Even(size), EvenUp(size));
    SameWord(a + Even(size), b + EvenUp(size));
  }

  lemma {:induction false} SumsNext(m: Module, a: Sizes, o: Sizes, ms: seq<Module>, k: nat)
    requires k < |ms| && m == ms[k] && Sums(a, o, ms, k)
    ensures Sums(Plus(m, a), o, ms, k + 1)
  {
    Further(a.t, o.t + TextBefore(ms, k), m.tsize);
    Further(a.d, o.d + DataBefore(ms, k), m.dsize);
    Further(a.b, o.b + BssBefore(ms, k), m.bsize);
  }

  lemma {:induction false} OriginsSum(o: Sizes, ms: seq<Module>, k: nat)
    requires k <= |ms|
    ensures Sums(OriginsAt(o, ms, k), o, ms, k)
    decreases k
  {
    if k > 0 {
      OriginsSum(o, ms, k - 1);
      SumsNext(ms[k - 1], OriginsAt(o, ms, k - 1), o, ms, k - 1);
    }
  }

  /** The sizes that middle works with. */
  lemma {:induction false} TotalSums(ms: seq<Module>, k: nat)
    requires k <= |ms|
    ensures Sums(Total(ms, k), Sizes(0, 0, 0), ms, k)
    ensures IsWord(Total(ms, k).t) && IsWord(Total(ms, k).d) && IsWord(Total(ms, k).b)
    decreases k
  {
    if k > 0 {
      TotalSums(ms, k - 1);
      SumsNext(ms[k - 1], Total(ms, k - 1), Sizes(0, 0, 0), ms, k - 1);
    }
  }

  /** What is added to an address in the text, the data and the bss of the module. */
  predicate Moves(rel: Sizes, ms: seq<Module>, o: Sizes, k: nat)
    requires k < |ms|
  {
    && Same(rel.t, Place(ms, o, k, TEXT, 0)) && Same(rel.d, Place(ms, o, k, DATA, 0))
    && Same(rel.b, Place(ms, o, k, BSS, 0))
  }

  lemma Back(a: int, b: int, x: int, y: int)
    requires Same(a, b) && Same(x, y)
    ensures Same(Word(a - x), b - y)
  {
    SameAdd(a, b, x, y);
    SameWord(a - x, b - y);
  }

  lemma {:induction false} RelMoves(m: Module, a: Sizes, rel: Sizes, ms: seq<Module>, o: Sizes, k: nat)
    requires k < |ms| && m == ms[k] && Sums(a, o, ms, k) && o.t == 0 && rel == Rel(m, a)
    ensures Moves(rel, ms, o, k)
  {
    EvenSame(m.tsize);
    EvenSame(m.dsize);
    SameAdd(Even(m.tsize), EvenUp(m.tsize), Even(m.dsize), EvenUp(m.dsize));
    SameWord(a.t, TextBefore(ms, k));
    Back(a.d, o.d + DataBefore(ms, k), Even(m.tsize), EvenUp(m.tsize));
    Back(a.b, o.b + BssBefore(ms, k), Even(m.tsize) + Even(m.dsize), EvenUp(m.tsize) + EvenUp(m.dsize));
  }

  lemma {:induction false} ModuleMoves(o: Sizes, ms: seq<Module>, k: nat)
    requires k < |ms| && o.t == 0
    ensures Moves(Rel(ms[k], OriginsAt(o, ms, k)), ms, o, k)
  {
    OriginsSum(o, ms, k);
    RelMoves(ms[k], OriginsAt(o, ms, k), Rel(ms[k], OriginsAt(o, ms, k)), ms, o, k);
  }

  // ----------------------------------------------------------------- the symbols

  /** The section of a type, external or not. */
  function SectionOf(stype: int): int {
    if stype >= EXTERN then stype - EXTERN else stype
  }

  predicate InSection(stype: int) {
    SectionOf(stype) == TEXT || SectionOf(stype) == DATA || SectionOf(stype) == BSS
  }

  /** What a symbol of module k is in the output: one in a section is where its byte is. */
  predicate SymbolPlaced(s: Symbol, c: Symbol, ms: seq<Module>, o: Sizes, k: nat)
    requires k < |ms|
  {
    && s.name == c.name
    && (InSection(c.stype) ==>
        s.stype == c.stype && s.svalue == Word(Place(ms, o, k, SectionOf(c.stype), c.svalue)))
    && (!InSection(c.stype) ==>
        s.svalue == c.svalue
        && s.stype == if IsExtern(c.stype) && c.stype != EXTERN + UNDEF then EXTERN + ABS else c.stype)
  }

  lemma {:induction false} RelocPlaces(c: Symbol, rel: Sizes, ms: seq<Module>, o: Sizes, k: nat)
    requires k < |ms| && Moves(rel, ms, o, k)
    ensures SymbolPlaced(Reloc(c, rel), c, ms, o, k)
  {
    if InSection(c.stype) {
      var sect := SectionOf(c.stype);
      var move := if sect == TEXT then rel.t else if sect == DATA then rel.d else rel.b;
      PlaceAdds(ms, o, k, sect, 0, c.svalue);
      SameAdd(move, Place(ms, o, k, sect, 0), c.svalue, c.svalue);
      SameIs(c.svalue + move, Place(ms, o, k, sect, c.svalue));
    }
  }

  lemma {:induction false} PlaceAdds(ms: seq<Module>, o: Sizes, k: nat, section: int, addr: int, more: int)
    requires k < |ms|
    ensures Place(ms, o, k, section, addr + more) == Place(ms, o, k, section, addr) + more
  {
  }

  /** What load2 computes for every symbol. */
  lemma {:induction false} SecondPassPlaces(o: Sizes, ms: seq<Module>, k: nat, i: nat)
    requires k < |ms| && i < |ms[k].syms| && o.t == 0
    ensures SymbolPlaced(SecondPass(o, ms, k, i), ms[k].syms[i], ms, o, k)
  {
    ModuleMoves(o, ms, k);
    RelocPlaces(ms[k].syms[i], Rel(ms[k], OriginsAt(o, ms, k)), ms, o, k);
  }

  /** The types that there can be in the table: undefined, absolute, or in a section. */
  predicate KnownType(stype: int) {
    EXTERN + UNDEF <= stype <= EXTERN + BSS
  }

  lemma {:induction false} RelocTypes(c: Symbol, rel: Sizes)
    requires IsExtern(c.stype)
    ensures KnownType(Reloc(c, rel).stype)
  {
  }

  lemma {:induction false} MiddleTypes(tab: seq<Symbol>, total: Sizes, f: Flags, e: nat)
    requires e < |tab| && KnownType(tab[e].stype)
    ensures KnownType(Middle(tab, total, f, e).stype)
  {
  }

  lemma {:induction false} TableTypes(inputs: seq<Input>, e: nat)
    requires e < |FirstPass(inputs).tab|
    ensures KnownType(FirstPass(inputs).tab[e].stype)
  {
    var p := FirstPass(inputs);
    FirstPassFrom(inputs);
    assert EntryFrom(p.tab[e], p.from[e], p.loaded);
    if p.tab[e].stype != EXTERN + UNDEF {
      var m := p.loaded[p.from[e].mod];
      RelocTypes(m.syms[p.from[e].sym], Rel(m, Total(p.loaded, p.from[e].mod)));
    }
  }

  /**
    After both passes a symbol that the modules define is where the place of its
    definition has gone.
   */
  lemma {:induction false} DefinedPlaced(inputs: seq<Input>, f: Flags, total: Sizes, e: nat)
    requires var p := FirstPass(inputs);
      e < |p.tab| && p.tab[e].stype != EXTERN + UNDEF && total == Total(p.loaded, |p.loaded|)
    ensures var p, f' := FirstPass(inputs), FlagsFor(FirstPass(inputs).tab, f);
      && p.from[e].mod < |p.loaded| && p.from[e].sym < |p.loaded[p.from[e].mod].syms|
      && SymbolPlaced(Middle(p.tab, total, f', e), p.loaded[p.from[e].mod].syms[p.from[e].sym], p.loaded,
        OriginsFor(p.tab, total, f'), p.from[e].mod)
  {
    var p, f' := FirstPass(inputs), FlagsFor(FirstPass(inputs).tab, f);
    MiddleAgrees(inputs, f, e);
    TotalSums(p.loaded, |p.loaded|);
    OriginsRight(p.tab, total, f');
    SecondPassPlaces(OriginsFor(p.tab, total, f'), p.loaded, p.from[e].mod, p.from[e].sym);
  }

  /** Every symbol that the modules define is where the place of its definition has gone. */
  ghost predicate AllPlaced(p: Pass, o: Sizes, now: seq<Symbol>) {
    && |now| == |p.tab| == |p.from|
    && forall e :: 0 <= e < |now| && p.tab[e].stype != EXTERN + UNDEF ==> EntryPlaced(now[e], p.from[e], p.loaded, o)
  }

  predicate EntryPlaced(s: Symbol, from: Origin, ms: seq<Module>, o: Sizes) {
    && from.mod < |ms| && from.sym < |ms[from.mod].syms|
    && SymbolPlaced(s, ms[from.mod].syms[from.sym], ms, o, from.mod)
  }

  /** The table has the types that there are. */
  predicate TypesKnown(now: seq<Symbol>) {
    forall e :: 0 <= e < |now| ==> KnownType(now[e].stype)
  }

  /** What the second pass starts with. */
  lemma {:induction false} AfterMiddle(inputs: seq<Input>, f: Flags, total: Sizes, now: seq<Symbol>, o: Sizes)
    requires var p := FirstPass(inputs);
      && total == Total(p.loaded, |p.loaded|) && Laid(p.tab, total, FlagsFor(p.tab, f), now)
      && o == OriginsFor(p.tab, total, FlagsFor(p.tab, f))
    ensures IsWord(total.t) && OriginsSay(o, total, FlagsFor(FirstPass(inputs).tab, f))
    ensures TypesKnown(now) && AllPlaced(FirstPass(inputs), o, now)
  {
    var p, f' := FirstPass(inputs), FlagsFor(FirstPass(inputs).tab, f);
    TotalSums(p.loaded, |p.loaded|);
    OriginsRight(p.tab, total, f');
    forall e | 0 <= e < |now|
      ensures KnownType(now[e].stype)
      ensures p.tab[e].stype != EXTERN + UNDEF ==> EntryPlaced(now[e], p.from[e], p.loaded, o)
    {
      TableTypes(inputs, e);
      MiddleTypes(p.tab, total, f', e);
      if p.tab[e].stype != EXTERN + UNDEF { DefinedPlaced(inputs, f, total, e); }
    }
  }
}
