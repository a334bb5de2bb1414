/**
  Both passes of Ack-5.5/ld, one after the other, with everything in core: what
  comes out is Link of the modules and the options.
 */
module LinkPasses {
  import opened Bytes
  import opened Names
  import opened LinkModel
  import opened LinkAppend
  import opened Layout
  import opened FinalAddress
  import InCore
  import SymbolTable

  /** C strings have no nul before their end. */
  ghost predicate PlainNames(ms: seq<Module>) {
    forall k, i :: 0 <= k < |ms| && 0 <= i < |ms[k].names| ==> SymbolTable.NoNul(ms[k].names[i].str)
  }

  // -------------------------------------------------------------- the first pass

  class FirstPass {
    const totals: Totals
    const table: SymbolTable.Table
    var locals: seq<Name>

    constructor ()
      ensures Valid([]) && fresh(totals) && fresh(table) && fresh(table.hashtable)
    {
      totals := new Totals();
      var signed: bool := *;
      table := new SymbolTable.Table(signed);
      locals := [];
    }

    ghost predicate Valid(ms: seq<Module>)
      reads this, totals, table, table.hashtable
    {
      totals.Counts(ms) && table.Valid() && table.glob == Globals(ms) && locals == Locals(ms)
    }

    /** The names of one module: external ones are looked up and combined, local ones are saved. */
    method GetNames(m: Module, origin: seq<int>)
      requires table.Valid() && forall i :: 0 <= i < |m.names| ==> SymbolTable.NoNul(m.names[i].str)
      modifies this`locals, table, table.hashtable
      ensures table.Valid()
      ensures table.glob == EnterAll(old(table.glob), ExternalsOf(RelocateAll(m.names, origin)))
      ensures locals == old(locals) + LocalsOf(RelocateAll(m.names, origin))
    {
      ghost var moved := RelocateAll(m.names, origin);
      var i := 0;
      assert moved[..0] == [] && locals + [] == locals;
      while i < |m.names|
        invariant 0 <= i <= |m.names| && table.Valid()
        invariant table.glob == EnterAll(old(table.glob), ExternalsOf(moved[..i]))
        invariant locals == old(locals) + LocalsOf(moved[..i])
      {
        var n := NameRelocate(m.names[i], origin);
        ChosenNext(moved, i);
        if n.ext {
          EnterOne(old(table.glob), ExternalsOf(moved[..i]), n);
          table.GetExternal(n);
        } else if !n.sct {
          Associate(old(locals), LocalsOf(moved[..i]), [n]);
          locals := locals + [n];
        }
        i := i + 1;
      }
      assert moved[..i] == moved;
    }

    /** process and extract for one module. */
    method Extract(m: Module, memit: nat, ghost ms: seq<Module>)
      requires Valid(ms) && WellFormed(m) && memit == EmitOf(m, |m.sects|)
      requires forall i :: 0 <= i < |m.names| ==> SymbolTable.NoNul(m.names[i].str)
      modifies this`locals, totals, table, table.hashtable
      ensures Valid(ms + [m])
    {
      GetNames(m, totals.size);
      totals.Process(m, memit, ms);
      NamesNext(ms, m);
    }
  }

  lemma {:induction false} ChosenNext(ns: seq<Name>, i: nat)
    requires i < |ns|
    ensures ExternalsOf(ns[..i + 1]) == if ns[i].ext then ExternalsOf(ns[..i]) + [ns[i]] else ExternalsOf(ns[..i])
    ensures LocalsOf(ns[..i + 1]) == if !ns[i].ext && !ns[i].sct then LocalsOf(ns[..i]) + [ns[i]] else LocalsOf(ns[..i])
  {
    assert ns[..i + 1][..i] == ns[..i];
  }

  lemma {:induction false} EnterOne(table: seq<Name>, ns: seq<Name>, n: Name)
    ensures EnterAll(table, ns + [n]) == Enter(EnterAll(table, ns), n)
  {
    assert (ns + [n])[..|ns|] == ns;
  }

  lemma {:induction false} NamesNext(ms: seq<Module>, m: Module)
    ensures var own := RelocateAll(m.names, Origins(ms));
      Globals(ms + [m]) == EnterAll(Globals(ms), ExternalsOf(own)) && Locals(ms + [m]) == Locals(ms) + LocalsOf(own)
  {
    assert (ms + [m])[..|ms + [m]| - 1] == ms;
    EnterAllAppend([], Externals(ms), ExternalsOf(RelocateAll(m.names, Origins(ms))));
  }

  method CountEmit(m: Module) returns (memit: nat)
    ensures memit == EmitOf(m, |m.sects|)
  {
    memit := 0;
    var s := 0;
    while s < |m.sects|
      invariant 0 <= s <= |m.sects| && memit == EmitOf(m, s)
    {
      memit := memit + |m.sects[s].data|;
      s := s + 1;
    }
  }

  method ExtractNext(f: FirstPass, m: Module, ghost ms: seq<Module>)
    requires f.Valid(ms) && WellFormed(m) && forall i :: 0 <= i < |m.names| ==> SymbolTable.NoNul(m.names[i].str)
    modifies f`locals, f.totals, f.table, f.table.hashtable
    ensures f.Valid(ms + [m])
  {
    var memit := CountEmit(m);
    f.Extract(m, memit, ms);
  }

  method RunFirstPass(ms: seq<Module>) returns (f: FirstPass)
    requires AllWellFormed(ms) && PlainNames(ms)
    ensures f.Valid(ms)
  {
    f := new FirstPass();
    var k := 0;
    while k < |ms|
      invariant 0 <= k <= |ms| && fresh(f) && fresh(f.totals) && fresh(f.table) && fresh(f.table.hashtable)
          && f.Valid(ms[..k])
    {
      UpTo(ms, k);
      ExtractNext(f, ms[k], ms[..k]);
      k := k + 1;
    }
    assert ms[..k] == ms;
  }

  // ------------------------------------------------------------- the whole link

  method FindUndefined(names: seq<Name>) returns (found: bool)
    ensures found == AnyUndefined(names)
  {
    var i := 0;
    while i < |names|
      invariant 0 <= i <= |names| && forall k :: 0 <= k < i ==> !IsUndefined(names[k])
    {
      if IsUndefined(names[i]) { return true; }
      i := i + 1;
    }
    found := false;
  }

  /** The section table, with the bytes of each section. */
  method MakeSections(o: Options, rflag: bool, base: seq<int>, full: seq<int>, emit: seq<array<byte>>, n: nat)
      returns (sects: seq<OutSection>)
    requires n <= |base| && n <= |full| && n <= |emit|
    ensures |sects| == n
    ensures forall s :: 0 <= s < n ==>
      sects[s] == if rflag then OutSection(0, full[s], 0, emit[s][..])
          else OutSection(base[s], full[s], LignOf(o, s), emit[s][..])
  {
    sects := [];
    while |sects| < n
      invariant |sects| <= n
      invariant forall s :: 0 <= s < |sects| ==>
        sects[s] == if rflag then OutSection(0, full[s], 0, emit[s][..])
            else OutSection(base[s], full[s], LignOf(o, s), emit[s][..])
    {
      var s := |sects|;
      sects := sects + [if rflag then OutSection(0, full[s], 0, emit[s][..])
          else OutSection(base[s], full[s], LignOf(o, s), emit[s][..])];
    }
  }

  /** change_names for the local names, which are in core as well. */
  method MoveLocals(o: Options, rflag: bool, locals: seq<Name>, base: seq<int>) returns (names: seq<Name>)
    ensures names == if rflag || o.nflag then locals else RelocateAll(locals, base)
  {
    names := locals;
    if !rflag && !o.nflag {
      var a := new Name[|locals|](i requires 0 <= i < |locals| => locals[i]);
      assert a[..] == locals;
      ChangeNames(a, base);
      names := a[..];
    }
  }

  method RunSecondPass(o: Options, ms: seq<Module>, env: Env, rflag: bool, full: seq<int>, saved: seq<Name>,
      unresolved: bool) returns (out: Output)
    requires AllWellFormed(ms) && NSect(ms) <= MAXSECT && env == EnvOf(o, ms) && saved == Locals(ms)
    requires rflag == Relocatable(o, Globals(ms)) && unresolved == AnyUndefined(Globals(ms))
    requires full == if rflag then Origins(ms) else FullSizes(Globals(ms), Origins(ms))
    ensures out == Link(o, ms)
  {
    var emit, relos := InCore.LinkInCore(env, ms);
    var locals := MoveLocals(o, rflag, saved, env.base);
    var sects := MakeSections(o, rflag, env.base, full, emit, env.nsect);
    assert sects == OutSections(o, ms);
    out := Output(sects, locals + env.globals
        + SectionNames(env.base, env.nsect), if rflag || o.cflag then relos else [], unresolved);
  }

  /** What is known between the passes. */
  datatype Prepared = Prepared(env: Env, rflag: bool, full: seq<int>, flen: seq<int>, nrelo: nat, saved: seq<Name>,
      unresolved: bool)

  ghost predicate IsPrepared(p: Prepared, o: Options, ms: seq<Module>)
    requires NSect(ms) <= MAXSECT
  {
    && p.env == EnvOf(o, ms) && p.rflag == Relocatable(o, Globals(ms))
    && p.full == (if p.rflag then Origins(ms) else FullSizes(Globals(ms), Origins(ms)))
    && p.flen == Lengths(ms) && p.nrelo == RelosOf(ms)
    && p.saved == Locals(ms) && p.unresolved == AnyUndefined(Globals(ms))
  }

  /** The first pass, and what comes between the passes. It fails if a base that was asked for is not aligned. */
  method Prepare(o: Options, ms: seq<Module>) returns (ok: bool, p: Prepared)
    requires AllWellFormed(ms) && PlainNames(ms)
    ensures NSect(ms) <= MAXSECT
    ensures ok == (Relocatable(o, Globals(ms)) || BasesAligned(o, NSect(ms)))
    ensures ok ==> IsPrepared(p, o, ms)
  {
    NSectBound(ms);
    var f := RunFirstPass(ms);
    var globals := new Name[|f.table.glob|](i requires 0 <= i < |f.table.glob| reads f.table, f => f.table.glob[i]);
    assert globals[..] == Globals(ms);
    var unresolved := FindUndefined(globals[..]);
    var rflag, base, full;
    ok, rflag, base, full := BetweenPasses(o, globals, f.totals.size, f.totals.flen, f.totals.nsect, ms);
    p := Prepared(Env(globals[..], base, |f.locals|, f.totals.nsect), rflag, full, f.totals.flen, f.totals.nrelo,
        f.locals, unresolved);
  }

  /** The link editor: both passes, with all in core. */
  method LinkAll(o: Options, ms: seq<Module>) returns (ok: bool, out: Output, nlocals: nat)
    requires AllWellFormed(ms) && PlainNames(ms)
    ensures NSect(ms) <= MAXSECT
    ensures ok == (Relocatable(o, Globals(ms)) || BasesAligned(o, NSect(ms)))
    ensures ok ==> out == Link(o, ms) && nlocals == |Locals(ms)|
  {
    var p;
    ok, p := Prepare(o, ms);
    out, nlocals := Output([], [], [], false), 0;
    if ok {
      out := RunSecondPass(o, ms, p.env, p.rflag, p.full, p.saved, p.unresolved);
      nlocals := |p.saved|;
    }
  }
}
