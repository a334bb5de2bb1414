/**
  The second pass of the older linker over one module (load2 in v6/ld.c): its
  symbols are read again, to number the external ones; then every word of text and
  data gets the address in the output of what it refers to.
 */
module OldWords {
  import opened OldSymbols
  import opened OldLink
  import opened OldAddresses
  import opened OldReports
  import PageCache
  import PageLoad

  const NSYMPR := 500

  // ----------------------------------------------------------- reading them again

  predicate IsUndefined(c: Symbol) {
    c.stype == EXTERN + UNDEF
  }

  ghost predicate HasNumber(locals: seq<PageLoad.Local>, i: int) {
    exists j :: 0 <= j < |locals| && locals[j].num == i
  }

  /** The number of an undefined symbol of the module, and the symbol's place in the table. */
  predicate NumberOk(tab: seq<Symbol>, m: Module, l: PageLoad.Local) {
    && 0 <= l.num < |m.syms| && IsUndefined(m.syms[l.num])
    && l.sym == IndexOf(tab, m.syms[l.num].name) < |tab|
  }

  /** Exactly the undefined symbols among the first n have their numbers. */
  ghost predicate Numbered(tab: seq<Symbol>, m: Module, n: nat, locals: seq<PageLoad.Local>)
    requires n <= |m.syms|
  {
    && (forall j :: 0 <= j < |locals| ==> NumberOk(tab, m, locals[j]) && locals[j].num < n)
    && (forall i :: 0 <= i < n && IsUndefined(m.syms[i]) ==> HasNumber(locals, i))
  }

  function UndefinedIn(m: Module, n: nat): nat
    requires n <= |m.syms|
  {
    if n == 0 then 0 else UndefinedIn(m, n - 1) + if IsUndefined(m.syms[n - 1]) then 1 else 0
  }

  lemma {:induction false} UndefinedGrows(m: Module, i: nat, n: nat)
    requires i <= n <= |m.syms|
    ensures UndefinedIn(m, i) <= UndefinedIn(m, n)
    decreases n
  {
    if i < n { UndefinedGrows(m, i, n - 1); }
  }

  predicate NameThere(tab: seq<Symbol>, c: Symbol) {
    IsExtern(c.stype) ==> IndexOf(tab, c.name) < |tab|
  }

  /** A definition that is not what the table has. */
  predicate Differs(tab: seq<Symbol>, c: Symbol, rel: Sizes)
    requires NameThere(tab, c)
  {
    IsDefinition(c) && !SameDefinition(Reloc(c, rel), tab[IndexOf(tab, c.name)])
  }

  /** The name is there, and a definition of it that differs from the table is reported. */
  predicate ReportOk(tab: seq<Symbol>, c: Symbol, rel: Sizes, reported: bool) {
    NameThere(tab, c) && (reported <==> Differs(tab, c, rel))
  }

  /** Exactly the definitions among the first n that differ from the table are reported. */
  ghost predicate ReportedAll(tab: seq<Symbol>, m: Module, rel: Sizes, n: nat, reported: set<nat>)
    requires n <= |m.syms|
  {
    && (forall i :: i in reported ==> i < n)
    && (forall i :: 0 <= i < n ==> ReportOk(tab, m.syms[i], rel, i in reported))
  }

  lemma {:induction false} HasMore(locals: seq<PageLoad.Local>, l: PageLoad.Local, i: int)
    requires HasNumber(locals, i) || i == l.num
    ensures HasNumber(locals + [l], i)
  {
    var more := locals + [l];
    if i == l.num {
      assert more[|locals|].num == i;
    } else {
      var j :| 0 <= j < |locals| && locals[j].num == i;
      assert more[j].num == i;
    }
  }

  lemma {:induction false} NumberedNext(tab: seq<Symbol>, m: Module, n: nat, locals: seq<PageLoad.Local>,
    l: PageLoad.Local)
    requires n < |m.syms| && Numbered(tab, m, n, locals) && l.num == n && NumberOk(tab, m, l)
    ensures Numbered(tab, m, n + 1, locals + [l])
  {
    forall i | 0 <= i < n + 1 && IsUndefined(m.syms[i]) ensures HasNumber(locals + [l], i) {
      HasMore(locals, l, i);
    }
  }

  lemma {:induction false} ReportedNext(tab: seq<Symbol>, m: Module, rel: Sizes, n: nat, reported: set<nat>,
    differs: bool)
    requires n < |m.syms| && ReportedAll(tab, m, rel, n, reported) && ReportOk(tab, m.syms[n], rel, differs)
    ensures ReportedAll(tab, m, rel, n + 1, if differs then reported + {n} else reported)
  {
    var now := if differs then reported + {n} else reported;
    forall i | 0 <= i < n + 1 ensures ReportOk(tab, m.syms[i], rel, i in now) {
      if i < n { assert ReportOk(tab, m.syms[i], rel, i in reported); }
    }
  }

  /** One symbol: whether its name is there, at which place, and whether it is undefined or differs. */
  method ReadSymbol(t: Table, c: Symbol, rel: Sizes) returns (ok: bool, sp: nat, undef: bool, differs: bool)
    requires t.Valid()
    ensures ok <==> NameThere(t.Contents(), c)
    ensures undef <==> IsUndefined(c)
    ensures ok ==> ReportOk(t.Contents(), c, rel, differs)
    ensures ok && undef ==> sp == IndexOf(t.Contents(), c.name) < |t.Contents()|
  {
    ok, sp, undef, differs := true, 0, c.stype == EXTERN + UNDEF, false;
    var cursym := Reloc(c, rel);
    if !IsExtern(cursym.stype) { return; }
    var hp := t.Lookup(cursym.name);
    if t.hshtab[hp] == -1 {
      ok := false;
      return;
    }
    sp := t.hshtab[hp];
    if cursym.stype != EXTERN + UNDEF {
      differs := cursym.stype != t.symtab[sp].stype || cursym.svalue != t.symtab[sp].svalue;
    }
  }

  /**
    The symbols of a module are read again. It ends the program exactly if a name is
    not in the table or there are too many undefined ones.
   */
  method ReadSymbols(t: Table, m: Module, rel: Sizes)
    returns (ok: bool, locals: seq<PageLoad.Local>, reported: set<nat>)
    requires t.Valid()
    ensures ok <==>
        (forall i :: 0 <= i < |m.syms| ==> NameThere(t.Contents(), m.syms[i])) && UndefinedIn(m, |m.syms|) <= NSYMPR
    ensures ok ==> Numbered(t.Contents(), m, |m.syms|, locals)
    ensures ok ==> ReportedAll(t.Contents(), m, rel, |m.syms|, reported)
  {
    ghost var tab := t.Contents();
    ok, locals, reported := true, [], {};
    var symno := 0;
    while symno < |m.syms|
      invariant 0 <= symno <= |m.syms| && |locals| == UndefinedIn(m, symno) <= NSYMPR
      invariant Numbered(tab, m, symno, locals) && ReportedAll(tab, m, rel, symno, reported)
    {
      var sp, undef, differs;
      ok, sp, undef, differs := ReadSymbol(t, m.syms[symno], rel);
      if !ok { return; }
      if undef {
        if |locals| >= NSYMPR {
          UndefinedGrows(m, symno + 1, |m.syms|);
          return false, locals, reported;
        }
        NumberedNext(tab, m, symno, locals, PageLoad.Local(symno, sp));
        locals := locals + [PageLoad.Local(symno, sp)];
      }
      ReportedNext(tab, m, rel, symno, reported, differs);
      if differs { reported := reported + {symno}; }
      symno := symno + 1;
    }
  }

  // -------------------------------------------------------------------- the words

  /** The types and values of the table. */
  function ValuesOf(now: seq<Symbol>): (r: seq<PageLoad.Symbol>)
    ensures |r| == |now|
    ensures forall e :: 0 <= e < |now| ==> r[e] == PageLoad.Symbol(now[e].stype, now[e].svalue)
  {
    if |now| == 0 then []
    else ValuesOf(now[..|now| - 1]) + [PageLoad.Symbol(now[|now| - 1].stype, now[|now| - 1].svalue)]
  }

  /** What load2td works with for the text or the data of a module whose addresses move by rel. */
  function ContextOf(rel: Sizes, now: seq<Symbol>, own: int, nsym: int, locals: seq<PageLoad.Local>): PageLoad.Context {
    PageLoad.Context(if own == DATA then rel.d else rel.t, rel.t, rel.d, rel.b, nsym, locals, ValuesOf(now))
  }

  /**
    What must become of the word at address `at` in the text or the data of module k.
    If its relocation word is odd it is relative to where it is itself. Taken from
    there, it refers to a byte of the module, which has its place in the output, or to
    so many bytes from an external symbol; and so does the new word, from where that is.
   */
  ghost predicate WordPlaced(ms: seq<Module>, o: Sizes, now: seq<Symbol>, k: nat, own: int, nsym: int, at: int,
    t: int, r: int, q: PageLoad.Pair)
    requires k < |ms|
  {
    var here, there := if r % 2 == 1 then at else 0, if r % 2 == 1 then Place(ms, o, k, own, at) else 0;
    var kind := (r / 2) % 8;
    var sect := if kind == 1 then TEXT else if kind == 2 then DATA else BSS;
    && 0 <= q.t < 0x1_0000
    && if 1 <= kind <= 3 then Same(there + q.t, Place(ms, o, k, sect, here + t)) && q.r == r
      else if kind == 4 then Refers(ms[k], now, nsym, (r / 16) % 0x1000, here + t, there + q.t, r, q.r)
      else Same(there + q.t, here + t) && q.r == r
  }

  /** The reference is to symbol number num of the module. */
  ghost predicate Refers(m: Module, now: seq<Symbol>, nsym: int, num: int, was: int, is_: int, r: int, r': int) {
    && 0 <= num < |m.syms| && IsUndefined(m.syms[num]) && IndexOf(now, m.syms[num].name) < |now|
    && var e := IndexOf(now, m.syms[num].name);
      && r' % 2 == r % 2
      && if IsUndefined(now[e])
        then Same(is_, was) && (r' / 2) % 8 == 4 && r' / 16 == (nsym + e) % 0x1000
        else
          && Same(is_, now[e].svalue + was)
          && r' / 2 == if now[e].stype == EXTERN + ABS then 0 else if now[e].stype == EXTERN + TEXT then 1
            else if now[e].stype == EXTERN + DATA then 2 else 3
  }

  lemma {:induction false} WordSame(t: int, t': int, add: int, pc: int, target: int, place: int, here: int, there: int)
    requires PageLoad.Moved(t, t', add - pc) && Same(add, target) && Same(pc, place) && there == place + here
    ensures Same(there + t', target + (here + t))
  {
    SameAdd(add, target, pc, place);
  }

  /** The module's own numbers, as load2 has collected them. */
  lemma {:induction false} FoundLocal(tab: seq<Symbol>, m: Module, c: PageLoad.Context, num: int, s: nat)
    requires Numbered(tab, m, |m.syms|, c.locals) && PageLoad.StandsFor(c, num, s)
    ensures 0 <= num < |m.syms| && IsUndefined(m.syms[num]) && s == IndexOf(tab, m.syms[num].name) < |tab|
  {
    var i :| 0 <= i < |c.locals| && PageLoad.FirstLocal(c, num, s, i);
    assert NumberOk(tab, m, c.locals[i]);
  }

  /** All shifts are as the places say. */
  predicate ShiftsRight(c: PageLoad.Context, ms: seq<Module>, o: Sizes, k: nat, own: int)
    requires k < |ms|
  {
    && Moves(Sizes(c.ctrel, c.cdrel, c.cbrel), ms, o, k)
    && Same(c.creloc, Place(ms, o, k, own, 0))
  }

  lemma {:induction false} ContextShifts(ms: seq<Module>, o: Sizes, now: seq<Symbol>, k: nat, own: int, nsym: int,
    locals: seq<PageLoad.Local>)
    requires k < |ms| && o.t == 0 && (own == TEXT || own == DATA)
    ensures ShiftsRight(ContextOf(Rel(ms[k], OriginsAt(o, ms, k)), now, own, nsym, locals), ms, o, k, own)
  {
    ModuleMoves(o, ms, k);
  }

  /** The table as load2td has it. */
  predicate TableSame(c: PageLoad.Context, now: seq<Symbol>) {
    |c.symtab| == |now| && forall e :: 0 <= e < |now| ==> c.symtab[e] == PageLoad.Symbol(now[e].stype, now[e].svalue)
  }

  lemma {:induction false} ReferenceRight(m: Module, now: seq<Symbol>, c: PageLoad.Context, t: int, r: int,
    q: PageLoad.Pair, here: int, there: int)
    requires TypesKnown(now) && TableSame(c, now) && Numbered(now, m, |m.syms|, c.locals)
    requires (r / 2) % 8 == 4 && PageLoad.Right(c, t, r, q)
    requires Same(if r % 2 == 1 then c.creloc else 0, there - here)
    ensures 0 <= q.t < 0x1_0000 && Refers(m, now, c.nsym, (r / 16) % 0x1000, here + t, there + q.t, r, q.r)
  {
    var pc := if r % 2 == 1 then c.creloc else 0;
    var num := (r / 16) % 0x1000;
    var s: nat :| PageLoad.StandsFor(c, num, s) && PageLoad.RightSymbol(c, t, r, q, pc, s);
    FoundLocal(now, m, c, num, s);
    assert KnownType(now[s].stype);
    if IsUndefined(now[s]) {
      WordSame(t, q.t, 0, pc, 0, there - here, here, there);
    } else {
      WordSame(t, q.t, now[s].svalue, pc, now[s].svalue, there - here, here, there);
    }
  }

  lemma {:induction false} SectionRight(ms: seq<Module>, o: Sizes, c: PageLoad.Context, k: nat, kind: int, t: int,
    t': int, pc: int, here: int, there: int)
    requires k < |ms| && Moves(Sizes(c.ctrel, c.cdrel, c.cbrel), ms, o, k) && 1 <= kind <= 3
    requires Same(pc, there - here)
    requires PageLoad.Moved(t, t', (if kind == 1 then c.ctrel else if kind == 2 then c.cdrel else c.cbrel) - pc)
    ensures Same(there + t',
        Place(ms, o, k, if kind == 1 then TEXT else if kind == 2 then DATA else BSS, here + t))
  {
    var sect := if kind == 1 then TEXT else if kind == 2 then DATA else BSS;
    var add := if kind == 1 then c.ctrel else if kind == 2 then c.cdrel else c.cbrel;
    PlaceAdds(ms, o, k, sect, 0, here + t);
    WordSame(t, t', add, pc, Place(ms, o, k, sect, 0), there - here, here, there);
  }

  /** Every word that is right for the context is one that is right for the output. */
  lemma {:induction false} WordRight(ms: seq<Module>, o: Sizes, now: seq<Symbol>, c: PageLoad.Context, k: nat, own: int,
    at: int, t: int, r: int, q: PageLoad.Pair)
    requires k < |ms| && ShiftsRight(c, ms, o, k, own) && (own == TEXT || own == DATA)
    requires TypesKnown(now) && TableSame(c, now) && Numbered(now, ms[k], |ms[k].syms|, c.locals)
    requires PageLoad.Right(c, t, r, q)
    ensures WordPlaced(ms, o, now, k, own, c.nsym, at, t, r, q)
  {
    var pc := if r % 2 == 1 then c.creloc else 0;
    var here, there := if r % 2 == 1 then at else 0, if r % 2 == 1 then Place(ms, o, k, own, at) else 0;
    var kind := (r / 2) % 8;
    PlaceAdds(ms, o, k, own, 0, at);
    assert Same(pc, there - here);
    if kind == 4 {
      ReferenceRight(ms[k], now, c, t, r, q, here, there);
    } else if 1 <= kind <= 3 {
      SectionRight(ms, o, c, k, kind, t, q.t, pc, here, there);
    } else {
      WordSame(t, q.t, 0, pc, 0, there - here, here, there);
    }
  }

  // ------------------------------------------------------------------- the module

  /** Word number j of the part: its address in the module, and what becomes of it. */
  ghost predicate WordAt(ms: seq<Module>, o: Sizes, now: seq<Symbol>, k: nat, own: int, nsym: int, file: seq<int>,
    tp: nat, rp: nat, out: seq<PageLoad.Pair>, j: nat)
    requires k < |ms| && j < |out|
  {
    && tp + j < |file| && rp + j < |file|
    && WordPlaced(ms, o, now, k, own, nsym, (if own == DATA then EvenUp(ms[k].tsize) else 0) + 2 * j,
      file[tp + j], file[rp + j], out[j])
  }

  /** All words of the part. */
  ghost predicate PartPlaced(ms: seq<Module>, o: Sizes, now: seq<Symbol>, k: nat, own: int, nsym: int,
    file: seq<int>, tp: nat, rp: nat, out: seq<PageLoad.Pair>)
    requires k < |ms|
  {
    forall j :: 0 <= j < |out| ==> WordAt(ms, o, now, k, own, nsym, file, tp, rp, out, j)
  }

  lemma {:induction false} PartRight(ms: seq<Module>, o: Sizes, now: seq<Symbol>, k: nat, own: int, nsym: int,
    locals: seq<PageLoad.Local>, c: PageLoad.Context, file: seq<int>, tp: nat, rp: nat, out: seq<PageLoad.Pair>)
    requires k < |ms| && o.t == 0 && (own == TEXT || own == DATA) && TypesKnown(now)
    requires Numbered(now, ms[k], |ms[k].syms|, locals)
    requires c == ContextOf(Rel(ms[k], OriginsAt(o, ms, k)), now, own, nsym, locals)
    requires PageLoad.AllRight(c, file, tp, rp, out)
    ensures PartPlaced(ms, o, now, k, own, nsym, file, tp, rp, out)
  {
    ContextShifts(ms, o, now, k, own, nsym, locals);
    forall j | 0 <= j < |out| ensures WordAt(ms, o, now, k, own, nsym, file, tp, rp, out, j) {
      assert PageLoad.RightAt(c, file, tp, rp, out, j);
      WordRight(ms, o, now, c, k, own, (if own == DATA then EvenUp(ms[k].tsize) else 0) + 2 * j, file[tp + j],
        file[rp + j], out[j]);
    }
  }

  /** How many words a stream finds from a place on, of so many bytes. */
  function WordsThere(file: seq<int>, at: nat, bytes: int): nat {
    if at >= |file| then 0 else (bytes / 2) % 0x8000
  }

  /** One part of a module: the streams are set to its words and its relocation words. */
  method LoadPart(m: PageCache.Cache, c: PageLoad.Context, bno: nat, text: nat, reloc: nat, bytes: int)
    returns (ok: bool, out: seq<PageLoad.Pair>)
    requires m.Valid() && text < 0x1_0000 && reloc < 0x1_0000 && bytes >= 0
    modifies m.text, m.reloc, m.page0, m.page1, m.fpage, m.page0.buff, m.page1.buff
    ensures ok ==> m.Valid() && |out| == WordsThere(m.file, PageCache.PAGE * bno + text, bytes)
    ensures ok ==> PageLoad.AllRight(c, m.file, PageCache.PAGE * bno + text, PageCache.PAGE * bno + reloc, out)
  {
    m.Dseek(m.text, bno, text, bytes);
    m.Dseek(m.reloc, bno, reloc, bytes);
    ok, out := PageLoad.Load2td(m, c);
  }

  /** The parts of a module in the file, by word from the end of its header: text, data and their relocation words. */
  function PartAt(off: nat, words: int): (at: nat)
    ensures at < 0x1_0000
  {
    (off + words) % 0x1_0000
  }

  /** One part of module k, at the words `text` and `reloc` from block `bno` on. */
  method PlacePart(m: PageCache.Cache, rel: Sizes, symtab: seq<Symbol>, own: int, nsym: int,
    locals: seq<PageLoad.Local>, bno: nat, text: nat, reloc: nat, bytes: int,
    ghost ms: seq<Module>, ghost o: Sizes, ghost k: nat)
    returns (ok: bool, out: seq<PageLoad.Pair>)
    requires m.Valid() && text < 0x1_0000 && reloc < 0x1_0000 && bytes >= 0
    requires k < |ms| && o.t == 0 && (own == TEXT || own == DATA) && TypesKnown(symtab)
    requires Numbered(symtab, ms[k], |ms[k].syms|, locals) && rel == Rel(ms[k], OriginsAt(o, ms, k))
    modifies m.text, m.reloc, m.page0, m.page1, m.fpage, m.page0.buff, m.page1.buff
    ensures ok ==> m.Valid() && |out| == WordsThere(m.file, PageCache.PAGE * bno + text, bytes)
    ensures ok ==>
        PartPlaced(ms, o, symtab, k, own, nsym, m.file, PageCache.PAGE * bno + text, PageCache.PAGE * bno + reloc, out)
  {
    var c := ContextOf(rel, symtab, own, nsym, locals);
    ok, out := LoadPart(m, c, bno, text, reloc, bytes);
    if ok {
      PartRight(ms, o, symtab, k, own, nsym, locals, c, m.file, PageCache.PAGE * bno + text,
        PageCache.PAGE * bno + reloc, out);
    }
  }

  /** The text and the data of module k are where the module has them in the file, and become what they should. */
  ghost predicate ModulePlaced(ms: seq<Module>, o: Sizes, now: seq<Symbol>, k: nat, nsym: int, file: seq<int>,
    bno: nat, off: nat, text: seq<PageLoad.Pair>, data: seq<PageLoad.Pair>)
    requires k < |ms|
  {
    var b, st, sd := PageCache.PAGE * bno, Even(ms[k].tsize), Even(ms[k].dsize);
    && |text| == WordsThere(file, b + PartAt(off, 0), st)
    && |data| == WordsThere(file, b + PartAt(off, st / 2), sd)
    && PartPlaced(ms, o, now, k, TEXT, nsym, file, b + PartAt(off, 0), b + PartAt(off, (st + sd) / 2), text)
    && PartPlaced(ms, o, now, k, DATA, nsym, file, b + PartAt(off, st / 2), b + PartAt(off, st + sd / 2), data)
  }

  method PlaceParts(m: PageCache.Cache, rel: Sizes, symtab: seq<Symbol>, nsym: int, locals: seq<PageLoad.Local>,
    bno: nat, off: nat, st: int, sd: int, ghost ms: seq<Module>, ghost o: Sizes, ghost k: nat)
    returns (ok: bool, text: seq<PageLoad.Pair>, data: seq<PageLoad.Pair>)
    requires m.Valid() && k < |ms| && st == Even(ms[k].tsize) && sd == Even(ms[k].dsize) && o.t == 0
    requires Numbered(symtab, ms[k], |ms[k].syms|, locals) && rel == Rel(ms[k], OriginsAt(o, ms, k))
    requires TypesKnown(symtab)
    modifies m.text, m.reloc, m.page0, m.page1, m.fpage, m.page0.buff, m.page1.buff
    ensures ok ==> ModulePlaced(ms, o, symtab, k, nsym, m.file, bno, off, text, data)
  {
    data := [];
    ok, text := PlacePart(m, rel, symtab, TEXT, nsym, locals, bno, PartAt(off, 0), PartAt(off, (st + sd) / 2), st,
      ms, o, k);
    if !ok { return; }
    ok, data := PlacePart(m, rel, symtab, DATA, nsym, locals, bno, PartAt(off, st / 2), PartAt(off, st + sd / 2), sd,
      ms, o, k);
  }

  /**
    The source's load2 for module k, whose header ends at word `off` from block `bno`
    on, when the table is as middle has left it: every word of text and of data has
    what it refers to at its place in the output.
   */
  method Load2(m: PageCache.Cache, t: Table, mod: Module, at: Sizes, nsym: int, bno: nat, off: nat,
    ghost ms: seq<Module>, ghost o: Sizes, ghost k: nat)
    returns (ok: bool, text: seq<PageLoad.Pair>, data: seq<PageLoad.Pair>, reported: set<nat>)
    requires m.Valid() && t.Valid() && TypesKnown(t.Contents())
    requires k < |ms| && mod == ms[k] && at == OriginsAt(o, ms, k) && o.t == 0
    modifies m.text, m.reloc, m.page0, m.page1, m.fpage, m.page0.buff, m.page1.buff
    ensures ok ==> ReportedAll(old(t.Contents()), mod, Rel(mod, at), |mod.syms|, reported)
    ensures ok ==> ModulePlaced(ms, o, old(t.Contents()), k, nsym, m.file, bno, off, text, data)
  {
    var rel, symtab := Rel(mod, at), t.symtab[..t.symp];
    var locals;
    text, data := [], [];
    ok, locals, reported := ReadSymbols(t, mod, rel);
    if !ok { return; }
    ok, text, data := PlaceParts(m, rel, symtab, nsym, locals, bno, off, Even(mod.tsize), Even(mod.dsize), ms, o, k);
  }
}
