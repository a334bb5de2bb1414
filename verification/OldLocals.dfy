/**
  The local symbols in the output of the older linker (v6/ld.c): load1 counts them,
  load2 writes them, and the external symbols come after them; which is where an
  undefined reference says that its symbol is.
 */
module OldLocals {
  import opened OldSymbols
  import opened OldLink
  import opened OldOrigins
  import opened OldAddresses

  /** The bytes of a symbol in the file. */
  const SYMBYTES := 12

  /** The type of the symbol for a file's name. */
  const FILESYM := 31

  /** The options -s, -x and -X. */
  datatype Strip = Strip(all: bool, locals: bool, generated: bool)

  /** A local symbol; with -X none that begins with L. */
  predicate IsKept(c: Symbol, generated: bool) {
    !IsExtern(c.stype) && (!generated || |c.name| == 0 || c.name[0] != 'L' as int)
  }

  /** How many are kept of the first n. */
  function KeptIn(m: Module, generated: bool, n: nat): nat
    requires n <= |m.syms|
  {
    if n == 0 then 0 else KeptIn(m, generated, n - 1) + if IsKept(m.syms[n - 1], generated) then 1 else 0
  }

  /** load1: the bytes of the symbols that load2 will write for the module, with that for its name. */
  method CountLocals(m: Module, generated: bool) returns (nloc: int)
    ensures nloc == Word(SYMBYTES * (1 + KeptIn(m, generated, |m.syms|)))
  {
    nloc := SYMBYTES;
    var n := 0;
    while n < |m.syms|
      invariant 0 <= n <= |m.syms| && nloc == Word(SYMBYTES * (1 + KeptIn(m, generated, n)))
    {
      var c := m.syms[n];
      if !IsExtern(c.stype) && (!generated || |c.name| == 0 || c.name[0] != 'L' as int) {
        WordsAdd(SYMBYTES * (1 + KeptIn(m, generated, n)), SYMBYTES);
        nloc := Word(nloc + SYMBYTES);
      }
      n := n + 1;
    }
  }

  /** Each symbol of the module that is kept is in its turn, with its place in the output. */
  ghost predicate Listed(ms: seq<Module>, o: Sizes, k: nat, generated: bool, n: nat, out: seq<Symbol>)
    requires k < |ms| && n <= |ms[k].syms|
  {
    && |out| == KeptIn(ms[k], generated, n)
    && forall i :: 0 <= i < n && IsKept(ms[k].syms[i], generated) ==> ListedAt(ms, o, k, generated, out, i)
  }

  predicate ListedAt(ms: seq<Module>, o: Sizes, k: nat, generated: bool, out: seq<Symbol>, i: nat)
    requires k < |ms| && i < |ms[k].syms|
  {
    && KeptIn(ms[k], generated, i) < |out|
    && SymbolPlaced(out[KeptIn(ms[k], generated, i)], ms[k].syms[i], ms, o, k)
  }

  /** load2: the symbols that are written for the module. */
  method WriteLocals(m: Module, rel: Sizes, generated: bool, ghost ms: seq<Module>, ghost o: Sizes, ghost k: nat)
    returns (out: seq<Symbol>)
    requires k < |ms| && m == ms[k] && o.t == 0 && rel == Rel(m, OriginsAt(o, ms, k))
    ensures Listed(ms, o, k, generated, |m.syms|, out)
  {
    out := [];
    var n := 0;
    ModuleMoves(o, ms, k);
    while n < |m.syms|
      invariant 0 <= n <= |m.syms| && Listed(ms, o, k, generated, n, out)
    {
      ghost var was := out;
      var cursym := Reloc(m.syms[n], rel);
      RelocPlaces(m.syms[n], rel, ms, o, k);
      if !IsExtern(cursym.stype) && (!generated || |cursym.name| == 0 || cursym.name[0] != 'L' as int) {
        out := out + [cursym];
      }
      ListedNext(ms, o, k, generated, n, was, out);
      n := n + 1;
    }
  }

  lemma {:induction false} ListedNext(ms: seq<Module>, o: Sizes, k: nat, generated: bool, n: nat, was: seq<Symbol>,
    out: seq<Symbol>)
    requires k < |ms| && n < |ms[k].syms| && Listed(ms, o, k, generated, n, was)
    requires if IsKept(ms[k].syms[n], generated)
      then |out| == |was| + 1 && out[..|was|] == was && SymbolPlaced(out[|was|], ms[k].syms[n], ms, o, k)
      else out == was
    ensures Listed(ms, o, k, generated, n + 1, out)
  {
    forall i | 0 <= i < n + 1 && IsKept(ms[k].syms[i], generated) ensures ListedAt(ms, o, k, generated, out, i) {
      if i < n {
        assert ListedAt(ms, o, k, generated, was, i);
        assert out[..|was|][KeptIn(ms[k], generated, i)] == out[KeptIn(ms[k], generated, i)];
      }
    }
  }

  // --------------------------------------------------------------- all the modules

  /** The symbols for the first k modules: one for each file, and those that are kept. */
  function Before(ms: seq<Module>, generated: bool, k: nat): (n: nat)
    requires k <= |ms|
  {
    if k == 0 then 0 else Before(ms, generated, k - 1) + 1 + KeptIn(ms[k - 1], generated, |ms[k - 1].syms|)
  }

  /** load1 and middle: the number of the first external symbol; as long as the size of the table is a short. */
  method CountAll(ms: seq<Module>, strip: Strip) returns (nsym: int)
    ensures SYMBYTES * Before(ms, strip.generated, |ms|) < 0x8000 ==>
        nsym == if strip.all || strip.locals then 0 else Before(ms, strip.generated, |ms|)
  {
    var ssize, k := 0, 0;
    while k < |ms|
      invariant 0 <= k <= |ms| && ssize == Word(SYMBYTES * Before(ms, strip.generated, k))
    {
      var nloc := CountLocals(ms[k], strip.generated);
      WordsAdd(SYMBYTES * Before(ms, strip.generated, k),
        SYMBYTES * (1 + KeptIn(ms[k], strip.generated, |ms[k].syms|)));
      WordsAdd(ssize, SYMBYTES * (1 + KeptIn(ms[k], strip.generated, |ms[k].syms|)));
      ssize := Word(ssize + nloc);
      k := k + 1;
    }
    if strip.all || strip.locals { ssize := 0; }
    nsym := ssize / SYMBYTES;
  }

  /** The symbols for module k are at their place in the table: that for its file, and those that are kept. */
  ghost predicate ModuleListed(ms: seq<Module>, o: Sizes, names: seq<seq<int>>, generated: bool,
    out: seq<Symbol>, k: nat)
    requires k < |ms| == |names|
  {
    && Before(ms, generated, k) + 1 <= Before(ms, generated, k + 1) <= |out|
    && out[Before(ms, generated, k)] == Symbol(names[k], FILESYM, Word(TextBefore(ms, k)))
    && Listed(ms, o, k, generated, |ms[k].syms|, out[Before(ms, generated, k) + 1 .. Before(ms, generated, k + 1)])
  }

  lemma {:induction false} ModuleLonger(ms: seq<Module>, o: Sizes, names: seq<seq<int>>, generated: bool,
    out: seq<Symbol>, more: seq<Symbol>, k: nat)
    requires k < |ms| == |names| && ModuleListed(ms, o, names, generated, out, k)
    ensures ModuleListed(ms, o, names, generated, out + more, k)
  {
    var from, to := Before(ms, generated, k) + 1, Before(ms, generated, k + 1);
    assert (out + more)[from .. to] == out[from .. to];
  }

  lemma {:induction false} ModuleAdded(ms: seq<Module>, o: Sizes, names: seq<seq<int>>, generated: bool,
    out: seq<Symbol>, kept: seq<Symbol>, file: Symbol, k: nat)
    requires k < |ms| == |names| && |out| == Before(ms, generated, k)
    requires file == Symbol(names[k], FILESYM, Word(TextBefore(ms, k)))
    requires Listed(ms, o, k, generated, |ms[k].syms|, kept)
    ensures ModuleListed(ms, o, names, generated, out + [file] + kept, k)
  {
    var all := out + [file] + kept;
    assert all[|out| + 1 .. |out| + 1 + |kept|] == kept;
  }

  lemma {:induction false} AllAdded(ms: seq<Module>, o: Sizes, names: seq<seq<int>>, generated: bool,
    out: seq<Symbol>, kept: seq<Symbol>, file: Symbol, k: nat)
    requires k < |ms| == |names| && |out| == Before(ms, generated, k)
    requires forall i :: 0 <= i < k ==> ModuleListed(ms, o, names, generated, out, i)
    requires file == Symbol(names[k], FILESYM, Word(TextBefore(ms, k)))
    requires Listed(ms, o, k, generated, |ms[k].syms|, kept)
    ensures forall i :: 0 <= i <= k ==> ModuleListed(ms, o, names, generated, out + [file] + kept, i)
  {
    assert out + ([file] + kept) == out + [file] + kept;
    forall i | 0 <= i < k ensures ModuleListed(ms, o, names, generated, out + [file] + kept, i) {
      ModuleLonger(ms, o, names, generated, out, [file] + kept, i);
    }
    ModuleAdded(ms, o, names, generated, out, kept, file, k);
  }

  /** load2, and the end of finishout: the symbols of all modules, and after them the table. */
  method WriteAll(ms: seq<Module>, o: Sizes, names: seq<seq<int>>, now: seq<Symbol>, strip: Strip, nsym: int)
    returns (out: seq<Symbol>)
    requires |names| == |ms| && o.t == 0 && !strip.all
    requires nsym == if strip.all || strip.locals then 0 else Before(ms, strip.generated, |ms|)
    ensures |out| == nsym + |now| && forall e :: 0 <= e < |now| ==> out[nsym + e] == now[e]
    ensures !strip.locals ==> forall k :: 0 <= k < |ms| ==> ModuleListed(ms, o, names, strip.generated, out, k)
  {
    out := [];
    if !strip.locals {
      out := WriteModules(ms, o, names, strip.generated);
      forall k | 0 <= k < |ms| ensures ModuleListed(ms, o, names, strip.generated, out + now, k) {
        ModuleLonger(ms, o, names, strip.generated, out, now, k);
      }
    }
    out := out + now;
  }

  method WriteModules(ms: seq<Module>, o: Sizes, names: seq<seq<int>>, generated: bool) returns (out: seq<Symbol>)
    requires |names| == |ms| && o.t == 0
    ensures |out| == Before(ms, generated, |ms|)
    ensures forall k :: 0 <= k < |ms| ==> ModuleListed(ms, o, names, generated, out, k)
  {
    out := [];
    var k, at := 0, o;
    while k < |ms|
      invariant 0 <= k <= |ms| && at == OriginsAt(o, ms, k) && |out| == Before(ms, generated, k)
      invariant forall i :: 0 <= i < k ==> ModuleListed(ms, o, names, generated, out, i)
    {
      var kept := WriteLocals(ms[k], Rel(ms[k], at), generated, ms, o, k);
      var file := Symbol(names[k], FILESYM, Word(at.t));
      OriginsSum(o, ms, k);
      SameIs(at.t, TextBefore(ms, k));
      AllAdded(ms, o, names, generated, out, kept, file, k);
      out := out + [file] + kept;
      at := Plus(ms[k], at);
      k := k + 1;
    }
  }
}
