/**
  What the name table and the relocation entries of a link say: whether anything is
  missing, which name belongs to each section, where local names are, and what every
  entry refers to.
 */
module OutputNames {
  import opened Bytes
  import opened Names
  import opened LinkModel
  import opened LinkAppend
  import opened PartialModule
  import opened PartialLink
  import opened TrueAddress
  import opened Archive

  // --------------------------------------------------------------- what is missing

  /** The output says that references are unresolved exactly if a name is mentioned and not defined. */
  lemma {:induction false} UnresolvedIs(o: Options, ms: seq<Module>)
    requires NSect(ms) <= MAXSECT
    ensures Link(o, ms).unresolved <==> exists str :: SomeMention(ms, str) && !SomeDefine(ms, str)
  {
    var gs := Globals(ms);
    GlobalsShape(ms);
    if Link(o, ms).unresolved {
      var i :| 0 <= i < |gs| && IsUndefined(gs[i]);
      FindAt(gs, i);
      WantedIs(ms, gs[i].str);
      assert SomeMention(ms, gs[i].str) && !SomeDefine(ms, gs[i].str);
    }
    if str :| SomeMention(ms, str) && !SomeDefine(ms, str) {
      WantedIs(ms, str);
      assert IsUndefined(gs[IndexOf(gs, str)]);
    }
  }

  // -------------------------------------------------------------- section names

  /** Name number n of the output is that of section s: without a string, with the base of the section. */
  predicate IsSectionName(out: Output, n: int, s: int) {
    && 0 <= n < |out.names| && 0 <= s < |out.sects|
    && var name := out.names[n];
      && name.str == "" && name.typ == 2 + s && name.sct && !name.ext && !name.com
      && name.etc == 0 && name.desc == 0 && name.valu == out.sects[s].base
  }

  lemma {:induction false} BaseInTable(o: Options, ms: seq<Module>, s: nat)
    requires NSect(ms) <= MAXSECT && s < NSect(ms)
    ensures EnvOf(o, ms).base[s] == OutSections(o, ms)[s].base
  {
  }

  lemma NamesLength(o: Options, ms: seq<Module>)
    requires NSect(ms) <= MAXSECT
    ensures |OutLocals(o, ms)| == EnvOf(o, ms).nlocals
    ensures |Link(o, ms).names| == EnvOf(o, ms).AbsIndex()
  {
  }

  /** The last names of the output are those of its sections. */
  lemma {:induction false} SectionNamesTell(o: Options, ms: seq<Module>, s: nat)
    requires NSect(ms) <= MAXSECT && s < NSect(ms)
    ensures var out := Link(o, ms);
      |out.sects| == NSect(ms) <= |out.names| && IsSectionName(out, |out.names| - NSect(ms) + s, s)
      && EnvOf(o, ms).SectIndex(s) == |out.names| - NSect(ms) + s
  {
    BaseInTable(o, ms, s);
    NamesLength(o, ms);
  }

  // ------------------------------------------------------------------ the entries

  /** How many entries the first k modules have. */
  function EntriesBefore(ms: seq<Module>, k: nat): nat
    requires k <= |ms|
  {
    if k == 0 then 0 else EntriesBefore(ms, k - 1) + |ms[k - 1].relos|
  }

  lemma {:induction false} EntriesOfPrefix(ms: seq<Module>, n: nat, k: nat)
    requires k <= n <= |ms|
    ensures EntriesBefore(ms[..n], k) == EntriesBefore(ms, k)
    decreases k
  {
    if k > 0 { EntriesOfPrefix(ms, n, k - 1); }
  }

  lemma {:induction false} EntryKept(env: Env, init: seq<Module>, last: Module, j: nat)
    requires j < |OutRelos(env, init)|
    ensures j < |OutRelos(env, init + [last])| && OutRelos(env, init + [last])[j] == OutRelos(env, init)[j]
  {
    WithLast(init, last);
  }

  lemma {:induction false} EntryLast(env: Env, init: seq<Module>, last: Module, i: nat)
    requires i < |last.relos|
    ensures |OutRelos(env, init)| + i < |OutRelos(env, init + [last])|
    ensures OutRelos(env, init + [last])[|OutRelos(env, init)| + i] ==
        NewRelo(env, last, Origins(init), last.relos[i])
  {
    WithLast(init, last);
  }

  lemma {:induction false} EntryPlace(env: Env, ms: seq<Module>, k: nat, i: nat)
    requires k < |ms| && i < |ms[k].relos|
    ensures EntriesBefore(ms, k) + i < |OutRelos(env, ms)|
    ensures OutRelos(env, ms)[EntriesBefore(ms, k) + i] == NewRelo(env, ms[k], Origins(ms[..k]), ms[k].relos[i])
    decreases |ms|
  {
    var n := |ms| - 1;
    var init, last := ms[..n], ms[n];
    assert ms == init + [last];
    EntriesOfPrefix(ms, n, k);
    if k < n {
      assert init[..k] == ms[..k];
      EntryPlace(env, init, k, i);
      EntryKept(env, init, last, EntriesBefore(ms, k) + i);
    } else {
      EntriesLength(env, init);
      EntryLast(env, init, last, i);
    }
  }

  lemma {:induction false} EntriesLength(env: Env, ms: seq<Module>)
    ensures |OutRelos(env, ms)| == EntriesBefore(ms, |ms|)
    decreases |ms|
  {
    if |ms| > 0 {
      EntriesLength(env, ms[..|ms| - 1]);
      EntriesOfPrefix(ms, |ms| - 1, |ms| - 1);
    }
  }

  /**
    Index n of the output's names is what an entry of module m refers to that names
    `nami`: the end of the table if it is absolute; the section's name, or that of the
    section in which a defined name lies; and the name itself while it is undefined,
    or common in an output that is to be linked again.
   */
  ghost predicate Leads(gs: seq<Name>, again: bool, m: Module, nami: nat, out: Output, n: int) {
    if nami >= |m.names| then n == |out.names|
    else if m.names[nami].sct then IsSectionName(out, n, m.names[nami].typ - S_MIN)
    else
      match Find(gs, m.names[nami].str)
      case None => false
      case Some(g) => LeadsTo(out, g, again, n)
  }

  predicate LeadsTo(out: Output, g: Name, again: bool, n: int) {
    if IsUndefined(g) || (IsCommon(g) && again)
    then 0 <= n < |out.names| && out.names[n].str == g.str && out.names[n].ext
    else if g.typ == S_ABS then n == |out.names|
    else IsSectionName(out, n, g.typ - S_MIN)
  }

  /** What the second pass knows of a name that the first pass knows. */
  predicate InFinal(again: bool, g: Name, g': Name) {
    && g'.typ == g.typ && g'.ext == g.ext && g'.str == g.str
    && (IsCommon(g') ==> IsCommon(g) && again) && (again ==> g' == g)
  }

  /** The names of the output: the local ones, then the global ones as the second pass has them, then the sections'. */
  ghost predicate TableIs(gs: seq<Name>, again: bool, out: Output, env: Env) {
    && |env.globals| == |gs| && |out.names| == env.AbsIndex()
    && (forall s :: 0 <= s < env.nsect ==> IsSectionName(out, env.SectIndex(s), s))
    && (forall i :: 0 <= i < |gs| ==> out.names[env.nlocals + i] == env.globals[i])
    && (forall i :: 0 <= i < |gs| ==> InFinal(again, gs[i], env.globals[i]) && gs[i].ext && NameOk(gs[i], env.nsect))
  }

  lemma {:induction false} GlobalAt(o: Options, ms: seq<Module>, i: nat)
    requires NSect(ms) <= MAXSECT && i < |Globals(ms)|
    ensures var out, env := Link(o, ms), EnvOf(o, ms);
      |env.globals| == |Globals(ms)| && env.nlocals + i < |out.names| && out.names[env.nlocals + i] == env.globals[i]
  {
    FinalIndex(o, ms, "");
    NamesLength(o, ms);
  }

  lemma {:induction false} RelocatableGlobals(o: Options, ms: seq<Module>)
    requires NSect(ms) <= MAXSECT && Relocatable(o, Globals(ms))
    ensures EnvOf(o, ms).globals == Globals(ms)
  {
  }

  lemma {:induction false} FinalName(o: Options, ms: seq<Module>, i: nat)
    requires AllWellFormed(ms) && NSect(ms) <= MAXSECT && i < |Globals(ms)| == |EnvOf(o, ms).globals|
    ensures InFinal(Relocatable(o, Globals(ms)), Globals(ms)[i], EnvOf(o, ms).globals[i])
  {
    if Relocatable(o, Globals(ms)) {
      RelocatableGlobals(o, ms);
    } else {
      var g := Globals(ms)[i];
      GlobalsShape(ms);
      FindAt(Globals(ms), i);
      GlobalOk(ms, g.str, g);
      TableGlobal(o, ms, g.str, g);
      FinalIndex(o, ms, g.str);
    }
  }

  lemma {:induction false} LinkTable(o: Options, ms: seq<Module>, again: bool, out: Output, env: Env)
    requires AllWellFormed(ms) && NSect(ms) <= MAXSECT
    requires again == Relocatable(o, Globals(ms)) && out == Link(o, ms) && env == EnvOf(o, ms)
    ensures TableIs(Globals(ms), again, out, env) && env.nsect == NSect(ms)
  {
    FinalIndex(o, ms, "");
    NamesLength(o, ms);
    GlobalsShape(ms);
    GlobalsOk(ms);
    forall s | 0 <= s < NSect(ms) ensures IsSectionName(out, env.SectIndex(s), s) { SectionNamesTell(o, ms, s); }
    forall i | 0 <= i < |Globals(ms)|
      ensures out.names[env.nlocals + i] == env.globals[i] && InFinal(again, Globals(ms)[i], env.globals[i])
    {
      GlobalAt(o, ms, i);
      FinalName(o, ms, i);
    }
  }

  /** The index of a name in the second pass, seen from the output. */
  lemma {:induction false} NamedLeads(gs: seq<Name>, again: bool, out: Output, env: Env, str: string)
    requires TableIs(gs, again, out, env) && IndexOf(gs, str) < |gs|
    ensures LeadsTo(out, gs[IndexOf(gs, str)], again, ByName(env, str).index)
  {
    var i, j := IndexOf(gs, str), IndexOf(env.globals, str);
    assert forall k :: 0 <= k < |gs| ==> env.globals[k].str == gs[k].str;
    assert env.globals[i].str == str;
    assert i == j;
  }

  lemma {:induction false} AllLead(gs: seq<Name>, again: bool, out: Output, env: Env, m: Module, origin: seq<int>,
    nami: nat)
    requires TableIs(gs, again, out, env) && |m.sects| <= env.nsect && nami <= |m.names|
    requires nami < |m.names| ==> NameOk(m.names[nami], |m.sects|)
    requires nami < |m.names| && !m.names[nami].sct ==> IndexOf(gs, m.names[nami].str) < |gs|
    ensures Leads(gs, again, m, nami, out, AddRelo(env, m, origin, nami).index)
  {
    if nami < |m.names| && !m.names[nami].sct { NamedLeads(gs, again, out, env, m.names[nami].str); }
  }

  lemma {:induction false} SectsIn(ms: seq<Module>, k: nat)
    requires k < |ms|
    ensures |ms[k].sects| <= NSect(ms)
    decreases |ms|
  {
    if k < |ms| - 1 { SectsIn(ms[..|ms| - 1], k); }
  }

  /** Entry i of module k, in the output's table: its datum is in the module's part, and it leads to what it did. */
  ghost predicate EntryTold(ms: seq<Module>, again: bool, k: nat, r: Relo, q: Relo, out: Output)
    requires k < |ms|
  {
    && q.t == r.t && q.sect == r.sect && q.addr == Origin(ms[..k], r.sect) + r.addr
    && Leads(Globals(ms), again, ms[k], r.nami, out, q.nami)
  }

  lemma {:induction false} EntryLeads(ms: seq<Module>, again: bool, k: nat, i: nat, out: Output, env: Env)
    requires AllWellFormed(ms) && k < |ms| && i < |ms[k].relos|
    requires TableIs(Globals(ms), again, out, env) && env.nsect == NSect(ms) <= MAXSECT
    ensures EntryTold(ms, again, k, ms[k].relos[i], NewRelo(env, ms[k], Origins(ms[..k]), ms[k].relos[i]), out)
  {
    var m, r := ms[k], ms[k].relos[i];
    assert WellFormed(m) && ReloOk(r, m);
    SectsIn(ms, k);
    if r.nami < |m.names| {
      assert NameOk(m.names[r.nami], |m.sects|);
      if m.names[r.nami].ext { ExternalFound(ms, k, r.nami); }
    }
    AllLead(Globals(ms), again, out, env, m, Origins(ms[..k]), r.nami);
  }

  lemma {:induction false} OutputEntries(o: Options, ms: seq<Module>)
    requires NSect(ms) <= MAXSECT
    ensures Link(o, ms).relos
      == if o.rflag || o.cflag || Link(o, ms).unresolved then OutRelos(EnvOf(o, ms), ms) else []
  {
  }

  lemma {:induction false} AllTold(ms: seq<Module>, again: bool, k: nat, i: nat, out: Output, env: Env)
    requires AllWellFormed(ms) && k < |ms| && i < |ms[k].relos|
    requires TableIs(Globals(ms), again, out, env) && env.nsect == NSect(ms) <= MAXSECT
    requires out.relos == OutRelos(env, ms)
    ensures |out.relos| == EntriesBefore(ms, |ms|) > EntriesBefore(ms, k) + i
    ensures EntryTold(ms, again, k, ms[k].relos[i], out.relos[EntriesBefore(ms, k) + i], out)
  {
    EntriesLength(env, ms);
    EntryPlace(env, ms, k, i);
    EntryLeads(ms, again, k, i, out, env);
  }

  /**
    The output has entries exactly if it is to be linked again, or with -c; then it
    has those of all modules, in their order.
   */
  lemma {:induction false} EntriesTell(o: Options, ms: seq<Module>, k: nat, i: nat, again: bool, out: Output)
    requires AllWellFormed(ms) && NSect(ms) <= MAXSECT && k < |ms| && i < |ms[k].relos|
    requires out == Link(o, ms) && again == (o.rflag || out.unresolved)
    ensures !again && !o.cflag ==> out.relos == []
    ensures again || o.cflag ==>
        |out.relos| == EntriesBefore(ms, |ms|) > EntriesBefore(ms, k) + i
        && EntryTold(ms, again, k, ms[k].relos[i], out.relos[EntriesBefore(ms, k) + i], out)
  {
    var env := EnvOf(o, ms);
    OutputEntries(o, ms);
    if again || o.cflag {
      LinkTable(o, ms, again, out, env);
      AllTold(ms, again, k, i, out, env);
    }
  }

  // -------------------------------------------------------------- the local names

  lemma {:induction false} LocalListed(ns: seq<Name>, i: nat)
    requires i < |ns| && !ns[i].ext && !ns[i].sct
    ensures ns[i] in LocalsOf(ns)
    decreases |ns|
  {
    if i < |ns| - 1 { LocalListed(ns[..|ns| - 1], i); }
  }

  lemma {:induction false} LocalGathered(ms: seq<Module>, k: nat, i: nat)
    requires k < |ms| && i < |ms[k].names| && !ms[k].names[i].ext && !ms[k].names[i].sct
    ensures NameRelocate(ms[k].names[i], Origins(ms[..k])) in Locals(ms)
    decreases |ms|
  {
    var init, last := ms[..|ms| - 1], ms[|ms| - 1];
    if k < |ms| - 1 {
      LocalGathered(init, k, i);
      assert init[..k] == ms[..k];
    } else {
      LocalListed(RelocateAll(last.names, Origins(init)), i);
      assert RelocateAll(last.names, Origins(init))[i] in LocalsOf(RelocateAll(last.names, Origins(init)));
    }
  }

  lemma {:induction false} MovedIn(ns: seq<Name>, base: seq<int>, n: Name, s: nat)
    requires n in ns && s < |base| && n.typ == S_MIN + s && !n.com
    ensures n.(valu := n.valu + base[s]) in RelocateAll(ns, base)
  {
    var i :| 0 <= i < |ns| && ns[i] == n;
    assert RelocateAll(ns, base)[i] == n.(valu := n.valu + base[s]);
  }

  lemma {:induction false} OutLocalsIs(o: Options, ms: seq<Module>, ns: seq<Name>, base: seq<int>)
    requires NSect(ms) <= MAXSECT && ns == Locals(ms) && base == EnvOf(o, ms).base
    ensures OutLocals(o, ms) == if Relocatable(o, Globals(ms)) || o.nflag then ns else RelocateAll(ns, base)
    ensures Relocatable(o, Globals(ms)) ==> forall s :: 0 <= s < |base| ==> base[s] == 0
  {
  }

  lemma {:induction false} MovedOrNot(ns: seq<Name>, out: seq<Name>, base: seq<int>, moves: bool, n: Name, s: nat,
    final: Name)
    requires n in ns && s < |base| && n.typ == S_MIN + s && !n.com
    requires out == if moves then RelocateAll(ns, base) else ns
    requires final == if moves then n.(valu := n.valu + base[s]) else n
    ensures final in out
  {
    if moves { MovedIn(ns, base, n, s); }
  }

  lemma {:induction false} LocalFinal(o: Options, ms: seq<Module>, n: Name, s: nat, final: Name)
    requires NSect(ms) <= MAXSECT && n in Locals(ms) && s < NSect(ms) && n.typ == S_MIN + s && !n.com
    requires final == n.(valu := n.valu + if o.nflag then 0 else OutSections(o, ms)[s].base)
    ensures final in OutLocals(o, ms)
  {
    var base, ns := EnvOf(o, ms).base, Locals(ms);
    BaseInTable(o, ms, s);
    OutLocalsIs(o, ms, ns, base);
    MovedOrNot(ns, OutLocals(o, ms), base, !Relocatable(o, Globals(ms)) && !o.nflag, n, s, final);
  }

  lemma {:induction false} LocalsWritten(o: Options, ms: seq<Module>, n: Name)
    requires NSect(ms) <= MAXSECT && n in OutLocals(o, ms)
    ensures n in Link(o, ms).names
  {
  }

  lemma NameIn(m: Module, i: nat, n: Name, ms: seq<Module>, k: nat)
    requires AllWellFormed(ms) && k < |ms| && m == ms[k] && i < |m.names| && n == m.names[i]
    ensures NameOk(n, |m.sects|)
  {
    assert WellFormed(m);
  }

  /**
    A local name of module k is in the output, further by where the module's part of
    its section is, and by the section's base but with -n.
   */
  lemma {:induction false} LocalTells(o: Options, ms: seq<Module>, k: nat, i: nat, n: Name, s: nat, final: Name)
    requires AllWellFormed(ms) && NSect(ms) <= MAXSECT && k < |ms| && i < |ms[k].names| && n == ms[k].names[i]
    requires !n.ext && !n.sct && n.typ == S_MIN + s && s < NSect(ms)
    requires final.valu == n.valu + Origin(ms[..k], s) + (if o.nflag then 0 else OutSections(o, ms)[s].base)
    requires final == n.(valu := final.valu)
    ensures final in Link(o, ms).names
  {
    NameIn(ms[k], i, n, ms, k);
    LocalGathered(ms, k, i);
    var moved := n.(valu := n.valu + Origin(ms[..k], s));
    assert NameRelocate(n, Origins(ms[..k])) == moved;
    LocalFinal(o, ms, moved, s, final);
    LocalsWritten(o, ms, final);
  }
}
