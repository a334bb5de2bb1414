/**
  The two strategies agree: the same bytes (both write Content), the same
  relocation entries up to their order within a module, and the same names
  unless -n meets a base that is not 0.
 */
module Agreement {
  import opened Bytes
  import opened Names
  import opened LinkModel
  import opened LinkAppend
  import opened PartialLink
  import opened Strategies
  import opened ReRead
  import opened PartialModule
  import opened PartialLimits

  // ------------------------------------------------- the relocation entries

  function Count(rs: seq<Relo>, x: Relo): nat {
    multiset(rs)[x]
  }

  lemma CountAppend(a: seq<Relo>, b: seq<Relo>, x: Relo)
    ensures Count(a + b, x) == Count(a, x) + Count(b, x)
  {
  }

  lemma CountLast(rs: seq<Relo>, x: Relo)
    requires |rs| > 0
    ensures Count(rs, x) == Count(rs[..|rs| - 1], x) + if rs[|rs| - 1] == x then 1 else 0
  {
    assert rs == rs[..|rs| - 1] + [rs[|rs| - 1]];
  }

  lemma {:induction false} OnSectionCount(rs: seq<Relo>, s: nat, x: Relo)
    ensures Count(OnSection(rs, s), x) == if x.sect == s then Count(rs, x) else 0
    decreases |rs|
  {
    if |rs| > 0 {
      OnSectionCount(rs[..|rs| - 1], s, x);
      CountLast(rs, x);
      CountAppend(OnSection(rs[..|rs| - 1], s), [rs[|rs| - 1]], x);
    }
  }

  lemma {:induction false} OnBlockCount(rs: seq<Relo>, s: nat, off: nat, n: nat, x: Relo)
    ensures Count(OnBlock(rs, s, off, n), x) == if InBlock(x, s, off, n) then Count(rs, x) else 0
    decreases |rs|
  {
    if |rs| > 0 {
      OnBlockCount(rs[..|rs| - 1], s, off, n, x);
      CountLast(rs, x);
      CountAppend(OnBlock(rs[..|rs| - 1], s, off, n), [rs[|rs| - 1]], x);
    }
  }

  lemma {:induction false} ByBlocksCount(rs: seq<Relo>, s: nat, off: nat, len: nat, blk: nat, x: Relo)
    requires blk > 0
    ensures Count(ByBlocks(rs, s, off, len, blk), x) == if x.sect == s && off <= x.addr < len then Count(rs, x) else 0
    decreases if len > off then len - off else 0
  {
    if off < len {
      var n := Least(blk, len - off);
      OnBlockCount(rs, s, off, n, x);
      ByBlocksCount(rs, s, off + n, len, blk, x);
      CountAppend(OnBlock(rs, s, off, n), ByBlocks(rs, s, off + n, len, blk), x);
    }
  }

  lemma SectionOrderCount(m: Module, s: nat, blk: nat, x: Relo)
    requires WellFormed(m)
    ensures Count(SectionOrder(m, s, blk), x) == if x.sect == s then Count(m.relos, x) else 0
  {
    OnSectionCount(m.relos, s, x);
    if blk > 0 { ByBlocksCount(m.relos, s, 0, |DataOf(m, s)|, blk, x); }
    if x in m.relos {
      var i :| 0 <= i < |m.relos| && m.relos[i] == x;
      assert ReloOk(m.relos[i], m);
    }
  }

  /** How often x is met in the first n sections. */
  function Expected(m: Module, n: nat, x: Relo): nat {
    if x.sect < n then Count(m.relos, x) else 0
  }

  ghost predicate Counted(m: Module, blks: seq<nat>, n: nat, x: Relo)
    requires n <= |blks|
  {
    Count(Order(m, blks, n), x) == Expected(m, n, x)
  }

  lemma {:induction false} OrderCount(m: Module, blks: seq<nat>, n: nat, x: Relo)
    requires WellFormed(m) && n <= |blks|
    ensures Counted(m, blks, n, x)
    decreases n
  {
    if n == 0 {
      NothingCounted(m, blks, x);
    } else {
      OrderCount(m, blks, n - 1, x);
      OrderCountStep(m, blks, n - 1, x);
    }
  }

  lemma {:induction false} NothingCounted(m: Module, blks: seq<nat>, x: Relo)
    ensures Counted(m, blks, 0, x)
  {
  }

  lemma {:induction false} OrderCountStep(m: Module, blks: seq<nat>, n: nat, x: Relo)
    requires WellFormed(m) && n < |blks| && Counted(m, blks, n, x)
    ensures Counted(m, blks, n + 1, x)
  {
    OrderCountNext(m, blks, n, x);
    SectionOrderCount(m, n, blks[n], x);
  }

  lemma OrderCountNext(m: Module, blks: seq<nat>, n: nat, x: Relo)
    requires n < |blks|
    ensures Count(Order(m, blks, n + 1), x) == Count(Order(m, blks, n), x) + Count(SectionOrder(m, n, blks[n]), x)
  {
    CountAppend(Order(m, blks, n), SectionOrder(m, n, blks[n]), x);
  }

  /** Section by section and block by block, every entry is met once. */
  lemma OrderComplete(m: Module, blks: seq<nat>)
    requires WellFormed(m) && |blks| == |m.sects|
    ensures multiset(Order(m, blks, |blks|)) == multiset(m.relos)
  {
    forall x: Relo ensures multiset(Order(m, blks, |blks|))[x] == multiset(m.relos)[x] {
      OrderCount(m, blks, |blks|, x);
      assert Counted(m, blks, |blks|, x);
      assert Count(Order(m, blks, |blks|), x) == multiset(Order(m, blks, |blks|))[x];
      assert Count(m.relos, x) == multiset(m.relos)[x];
      if x in m.relos {
        var i :| 0 <= i < |m.relos| && m.relos[i] == x;
        assert ReloOk(m.relos[i], m);
      }
    }
  }

  lemma Remove(b: seq<Relo>, x: Relo) returns (i: nat)
    requires x in b
    ensures i < |b| && b[i] == x && multiset(b[..i] + b[i + 1..]) == multiset(b) - multiset{x}
  {
    i :| 0 <= i < |b| && b[i] == x;
    assert b == b[..i] + [x] + b[i + 1..];
  }

  /** Rewriting entries commutes with putting them in another order. */
  lemma {:induction false} NewRelosPermuted(env: Env, m: Module, origin: seq<int>, a: seq<Relo>, b: seq<Relo>)
    requires multiset(a) == multiset(b)
    ensures multiset(NewRelosOf(env, m, origin, a)) == multiset(NewRelosOf(env, m, origin, b))
    decreases |a|
  {
    SameLength(a, b);
    if |a| > 0 {
      var x, init := a[|a| - 1], a[..|a| - 1];
      InitOf(a);
      assert x in multiset(b);
      var i := Remove(b, x);
      NewRelosPermuted(env, m, origin, init, b[..i] + b[i + 1..]);
      PermutedStep(env, m, origin, init, x, b, i);
    }
  }

  lemma InitOf(a: seq<Relo>)
    requires |a| > 0
    ensures a == a[..|a| - 1] + [a[|a| - 1]] && multiset(a[..|a| - 1]) == multiset(a) - multiset{a[|a| - 1]}
        && a[|a| - 1] in multiset(a)
  {
    assert a == a[..|a| - 1] + [a[|a| - 1]];
  }

  lemma PermutedStep(env: Env, m: Module, origin: seq<int>, init: seq<Relo>, x: Relo, b: seq<Relo>, i: nat)
    requires i < |b| && b[i] == x
    requires multiset(NewRelosOf(env, m, origin, init)) == multiset(NewRelosOf(env, m, origin, b[..i] + b[i + 1..]))
    ensures multiset(NewRelosOf(env, m, origin, init + [x])) == multiset(NewRelosOf(env, m, origin, b))
  {
    NewRelosMiddle(env, m, origin, init, x, []);
    NewRelosMiddle(env, m, origin, b[..i], x, b[i + 1..]);
    assert b == b[..i] + [x] + b[i + 1..];
    assert init + [x] + [] == init + [x] && init + [] == init;
  }

  lemma NewRelosMiddle(env: Env, m: Module, origin: seq<int>, a: seq<Relo>, x: Relo, b: seq<Relo>)
    ensures multiset(NewRelosOf(env, m, origin, a + [x] + b)) == multiset(NewRelosOf(env, m, origin, a + b))
        + multiset{NewRelo(env, m, origin, x)}
  {
    NewRelosAppend(env, m, origin, a + [x], b);
    NewRelosAppend(env, m, origin, a, [x]);
    NewRelosAppend(env, m, origin, a, b);
  }

  /** The same table, module by module, up to the order within each. */
  ghost predicate SameUpToOrder(ms: seq<Module>, a: seq<Relo>, b: seq<Relo>) {
    if |ms| == 0 then a == b == []
    else
      var n := |ms[|ms| - 1].relos|;
      && n <= |a| == |b|
      && multiset(a[|a| - n..]) == multiset(b[|b| - n..])
      && SameUpToOrder(ms[..|ms| - 1], a[..|a| - n], b[..|b| - n])
  }

  lemma {:induction false} EntriesAgree(env: Env, ms: seq<Module>, blks: seq<seq<nat>>)
    requires AllWellFormed(ms) && Matches(ms, blks)
    ensures SameUpToOrder(ms, WrittenRelos(env, ms, blks), OutRelos(env, ms))
    decreases |ms|
  {
    if |ms| > 0 {
      var n := |ms| - 1;
      EntriesAgree(env, ms[..n], blks[..n]);
      OrderComplete(ms[n], blks[n]);
      var origin := Origins(ms[..n]);
      var order := Order(ms[n], blks[n], |blks[n]|);
      NewRelosPermuted(env, ms[n], origin, order, ms[n].relos);
      SameLength(order, ms[n].relos);
      LastPart(WrittenRelos(env, ms[..n], blks[..n]), NewRelosOf(env, ms[n], origin, order));
      LastPart(OutRelos(env, ms[..n]), NewRelosOf(env, ms[n], origin, ms[n].relos));
      SameLengths(ms[..n], WrittenRelos(env, ms[..n], blks[..n]), OutRelos(env, ms[..n]));
    }
  }

  lemma SameLength(a: seq<Relo>, b: seq<Relo>)
    requires multiset(a) == multiset(b)
    ensures |a| == |b|
  {
    assert |multiset(a)| == |a| && |multiset(b)| == |b|;
  }

  lemma LastPart(a: seq<Relo>, b: seq<Relo>)
    ensures (a + b)[..|a + b| - |b|] == a && (a + b)[|a + b| - |b|..] == b
  {
  }

  lemma SameLengths(ms: seq<Module>, a: seq<Relo>, b: seq<Relo>)
    requires SameUpToOrder(ms, a, b)
    ensures |a| == |b|
  {
  }

  // -------------------------------------------------------------- the names

  /** Is this a name that is saved with the local names, in a section that does not start at 0? */
  predicate SavedAway(n: Name, base: seq<int>) {
    !n.ext && !n.sct && !n.com && n.typ >= S_MIN && At(base, n.typ - S_MIN) != 0
  }

  predicate AnyAway(ns: seq<Name>, base: seq<int>) {
    exists i :: 0 <= i < |ns| && SavedAway(ns[i], base)
  }

  /** Does some module have such a name? */
  predicate AnyModuleAway(ms: seq<Module>, base: seq<int>) {
    exists k :: 0 <= k < |ms| && AnyAway(ms[k].names, base)
  }

  lemma LocalMoves(n: Name, base: seq<int>)
    requires NameOk(n, MAXSECT) && !n.ext && !n.sct
    ensures NameRelocate(n, base) != n <==> SavedAway(n, base)
  {
  }

  ghost predicate AllOk(ns: seq<Name>) {
    forall i :: 0 <= i < |ns| ==> NameOk(ns[i], MAXSECT)
  }

  lemma AnyAwayLast(ns: seq<Name>, base: seq<int>)
    requires |ns| > 0
    ensures AnyAway(ns, base) <==> AnyAway(ns[..|ns| - 1], base) || SavedAway(ns[|ns| - 1], base)
  {
    var init := ns[..|ns| - 1];
    if AnyAway(init, base) {
      var i :| 0 <= i < |init| && SavedAway(init[i], base);
      assert ns[i] == init[i];
    }
    if AnyAway(ns, base) && !SavedAway(ns[|ns| - 1], base) {
      var i :| 0 <= i < |ns| && SavedAway(ns[i], base);
      assert init[i] == ns[i];
    }
  }

  lemma RelocateAllLast(ns: seq<Name>, n: Name, base: seq<int>)
    ensures RelocateAll(ns + [n], base) == RelocateAll(ns, base) + [NameRelocate(n, base)]
  {
  }

  lemma {:induction false} LocalsOfMove(ns: seq<Name>, base: seq<int>)
    requires AllOk(ns)
    ensures RelocateAll(LocalsOf(ns), base) != LocalsOf(ns) <==> AnyAway(ns, base)
    decreases |ns|
  {
    if |ns| > 0 {
      var init, n := ns[..|ns| - 1], ns[|ns| - 1];
      LocalsOfMove(init, base);
      AnyAwayLast(ns, base);
      if !n.ext && !n.sct {
        LocalMoves(n, base);
        RelocateAllLast(LocalsOf(init), n, base);
        SameEnd(RelocateAll(LocalsOf(init), base), NameRelocate(n, base), LocalsOf(init), n);
      }
    }
  }

  /** Moving a module within its sections changes nothing in this. */
  lemma AwayRelocated(ns: seq<Name>, origin: seq<int>, base: seq<int>)
    requires AllOk(ns)
    ensures AllOk(RelocateAll(ns, origin)) && (AnyAway(RelocateAll(ns, origin), base) <==> AnyAway(ns, base))
  {
    var moved := RelocateAll(ns, origin);
    forall i | 0 <= i < |ns| ensures NameOk(moved[i], MAXSECT) && (SavedAway(moved[i], base)
        <==> SavedAway(ns[i], base)) {
      assert NameOk(ns[i], MAXSECT);
    }
    if AnyAway(ns, base) {
      var i :| 0 <= i < |ns| && SavedAway(ns[i], base);
      assert SavedAway(moved[i], base);
    }
  }

  lemma AnyModuleLast(init: seq<Module>, m: Module, base: seq<int>)
    ensures AnyModuleAway(init + [m], base) <==> AnyModuleAway(init, base) || AnyAway(m.names, base)
  {
    var ms := init + [m];
    if AnyModuleAway(init, base) {
      var k :| 0 <= k < |init| && AnyAway(init[k].names, base);
      assert AnyAway(ms[k].names, base);
    }
    if AnyAway(m.names, base) { assert AnyAway(ms[|init|].names, base); }
  }

  lemma NamesOk(m: Module)
    requires WellFormed(m)
    ensures AllOk(m.names)
  {
    forall i | 0 <= i < |m.names| ensures NameOk(m.names[i], MAXSECT) { assert NameOk(m.names[i], |m.sects|); }
  }

  lemma {:induction false} LocalsMove(ms: seq<Module>, base: seq<int>)
    requires AllWellFormed(ms)
    ensures RelocateAll(Locals(ms), base) != Locals(ms) <==> AnyModuleAway(ms, base)
    decreases |ms|
  {
    if |ms| > 0 {
      var init, m := ms[..|ms| - 1], ms[|ms| - 1];
      LocalsMove(init, base);
      assert ms == init + [m];
      AnyModuleLast(init, m, base);
      NamesOk(m);
      AwayRelocated(m.names, Origins(init), base);
      var own := LocalsOf(RelocateAll(m.names, Origins(init)));
      LocalsOfMove(RelocateAll(m.names, Origins(init)), base);
      RelocateAllAppend(Locals(init), own, base);
      SamePieces(RelocateAll(Locals(init), base), RelocateAll(own, base), Locals(init), own);
    }
  }

  /**
    The names agree exactly if -n is absent, or the output is relocatable, or no
    module has a name to be saved in a section that does not start at 0: the
    re-reading pass adds the bases to local names even with -n.
   */
  lemma NamesAgree(o: Options, ms: seq<Module>)
    requires AllWellFormed(ms) && NSect(ms) <= MAXSECT
    ensures RelocateAll(Locals(ms), EnvOf(o, ms).base) == OutLocals(o, ms)
      <==> !o.nflag || Relocatable(o, Globals(ms)) || !AnyModuleAway(ms, EnvOf(o, ms).base)
  {
    var base := EnvOf(o, ms).base;
    if Relocatable(o, Globals(ms)) {
      forall i | 0 <= i < |Locals(ms)| ensures RelocateAll(Locals(ms), base)[i] == Locals(ms)[i] {
        RelocatedByZeroes(Locals(ms)[i], MAXSECT);
      }
    } else if o.nflag {
      LocalsMove(ms, base);
    }
  }

  /** A module with one local name, in its only section. */
  const HasLocal := Module([Section(2, 1, [0, 0])], [Name("x", S_MIN, false, false, false, 0, 0, 0)], [])

  lemma LocalOfSingle()
    ensures Locals([HasLocal]) == [Name("x", S_MIN, false, false, false, 0, 0, 0)] && Globals([HasLocal]) == []
    ensures WellFormed(HasLocal) && NSect([HasLocal]) == 1
  {
    var m := HasLocal;
    SingleNames(m);
    NSectSingle(m);
    assert m.names[..0] == [];
    assert LocalsOf(m.names) == m.names && ExternalsOf(m.names) == [];
    assert EnterAll([], []) == [];
  }

  /** With -n and a base of 0x1000 the local name is 0 in core, and 0x1000 when the module is read again. */
  lemma NamesDiffer()
    ensures var o, ms := Plain(true, 0x1000), [HasLocal];
      && AllWellFormed(ms) && NSect(ms) <= MAXSECT && EnvOf(o, ms).base[0] == 0x1000
      && OutLocals(o, ms)[0].valu == 0 && RelocateAll(Locals(ms), EnvOf(o, ms).base)[0].valu == 0x1000
  {
    LocalOfSingle();
    var o, ms := Plain(true, 0x1000), [HasLocal];
    assert !Relocatable(o, Globals(ms));
    FirstBase(o, FullSizes(Globals(ms), Origins(ms)), 0x1000);
  }
}
