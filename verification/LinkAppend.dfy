/** How what linking computes for two lists of modules composes. */
module LinkAppend {
  import opened Bytes
  import opened Names
  import opened LinkModel

  // ----------------------------------------------------------------- sizes

  lemma {:induction false} OriginAppend(ms: seq<Module>, ns: seq<Module>, s: nat)
    ensures Origin(ms + ns, s) == Origin(ms, s) + Origin(ns, s)
    decreases |ns|
  {
    if |ns| == 0 {
      assert ms + ns == ms;
    } else {
      OriginAppend(ms, ns[..|ns| - 1], s);
      assert (ms + ns)[..|ms + ns| - 1] == ms + ns[..|ns| - 1];
    }
  }

  lemma OriginsAppend(ms: seq<Module>, ns: seq<Module>)
    ensures Origins(ms + ns) == Plus(Origins(ns), Origins(ms))
  {
    forall s | 0 <= s < MAXSECT ensures Origins(ms + ns)[s] == Plus(Origins(ns), Origins(ms))[s] {
      OriginAppend(ms, ns, s);
    }
  }

  lemma {:induction false} NSectAppend(ms: seq<Module>, ns: seq<Module>)
    ensures NSect(ms + ns) == if NSect(ns) > NSect(ms) then NSect(ns) else NSect(ms)
    decreases |ns|
  {
    if |ns| == 0 {
      assert ms + ns == ms;
    } else {
      NSectAppend(ms, ns[..|ns| - 1]);
      assert (ms + ns)[..|ms + ns| - 1] == ms + ns[..|ns| - 1];
    }
  }

  lemma {:induction false} NSectBound(ms: seq<Module>)
    requires AllWellFormed(ms)
    ensures NSect(ms) <= MAXSECT
    decreases |ms|
  {
    if |ms| > 0 { NSectBound(ms[..|ms| - 1]); }
  }

  lemma {:induction false} NSectCovers(ms: seq<Module>, k: nat)
    requires k < |ms|
    ensures |ms[k].sects| <= NSect(ms)
    decreases |ms|
  {
    if k < |ms| - 1 { NSectCovers(ms[..|ms| - 1], k); }
  }

  /** No module has a section beyond the last one. */
  lemma {:induction false} OriginBeyond(ms: seq<Module>, s: nat)
    requires s >= NSect(ms)
    ensures Origin(ms, s) == 0
    decreases |ms|
  {
    if |ms| > 0 { OriginBeyond(ms[..|ms| - 1], s); }
  }

  // ----------------------------------------------------------------- names

  lemma {:induction false} ExternalsOfAppend(a: seq<Name>, b: seq<Name>)
    ensures ExternalsOf(a + b) == ExternalsOf(a) + ExternalsOf(b)
    decreases |b|
  {
    if |b| == 0 {
      assert a + b == a;
    } else {
      ExternalsOfAppend(a, b[..|b| - 1]);
      assert (a + b)[..|a + b| - 1] == a + b[..|b| - 1];
    }
  }

  lemma {:induction false} LocalsOfAppend(a: seq<Name>, b: seq<Name>)
    ensures LocalsOf(a + b) == LocalsOf(a) + LocalsOf(b)
    decreases |b|
  {
    if |b| == 0 {
      assert a + b == a;
    } else {
      LocalsOfAppend(a, b[..|b| - 1]);
      assert (a + b)[..|a + b| - 1] == a + b[..|b| - 1];
    }
  }

  lemma RelocateAllAppend(a: seq<Name>, b: seq<Name>, origin: seq<int>)
    ensures RelocateAll(a + b, origin) == RelocateAll(a, origin) + RelocateAll(b, origin)
  {
  }

  lemma {:induction false} ExternalsOfRelocated(ns: seq<Name>, origin: seq<int>)
    ensures ExternalsOf(RelocateAll(ns, origin)) == RelocateAll(ExternalsOf(ns), origin)
    decreases |ns|
  {
    if |ns| > 0 {
      var init := ns[..|ns| - 1];
      ExternalsOfRelocated(init, origin);
      assert RelocateAll(ns, origin)[..|ns| - 1] == RelocateAll(init, origin);
      RelocateAllAppend(ExternalsOf(init), [ns[|ns| - 1]], origin);
      assert RelocateAll([ns[|ns| - 1]], origin) == [NameRelocate(ns[|ns| - 1], origin)];
    }
  }

  lemma {:induction false} LocalsOfRelocated(ns: seq<Name>, origin: seq<int>)
    ensures LocalsOf(RelocateAll(ns, origin)) == RelocateAll(LocalsOf(ns), origin)
    decreases |ns|
  {
    if |ns| > 0 {
      var init := ns[..|ns| - 1];
      LocalsOfRelocated(init, origin);
      assert RelocateAll(ns, origin)[..|ns| - 1] == RelocateAll(init, origin);
      RelocateAllAppend(LocalsOf(init), [ns[|ns| - 1]], origin);
      assert RelocateAll([ns[|ns| - 1]], origin) == [NameRelocate(ns[|ns| - 1], origin)];
    }
  }

  lemma ExternalsOfLater(ms: seq<Module>, ns: seq<Module>, m: Module)
    ensures ExternalsOf(RelocateAll(m.names, Origins(ms + ns)))
        == RelocateAll(ExternalsOf(RelocateAll(m.names, Origins(ns))), Origins(ms))
  {
    OriginsAppend(ms, ns);
    RelocateTwice(m.names, Origins(ns), Origins(ms));
    ExternalsOfRelocated(RelocateAll(m.names, Origins(ns)), Origins(ms));
  }

  lemma {:induction false} ExternalsAppend(ms: seq<Module>, ns: seq<Module>)
    ensures Externals(ms + ns) == Externals(ms) + RelocateAll(Externals(ns), Origins(ms))
    decreases |ns|
  {
    if |ns| == 0 {
      assert ms + ns == ms;
    } else {
      var init, last := ns[..|ns| - 1], ns[|ns| - 1];
      ExternalsAppend(ms, init);
      assert (ms + ns)[..|ms + ns| - 1] == ms + init;
      ExternalsOfLater(ms, init, last);
      var own := ExternalsOf(RelocateAll(last.names, Origins(init)));
      RelocateAllAppend(Externals(init), own, Origins(ms));
      Associate(Externals(ms), RelocateAll(Externals(init), Origins(ms)), RelocateAll(own, Origins(ms)));
    }
  }

  lemma LocalsOfLater(ms: seq<Module>, ns: seq<Module>, m: Module)
    ensures LocalsOf(RelocateAll(m.names, Origins(ms + ns)))
        == RelocateAll(LocalsOf(RelocateAll(m.names, Origins(ns))), Origins(ms))
  {
    OriginsAppend(ms, ns);
    RelocateTwice(m.names, Origins(ns), Origins(ms));
    LocalsOfRelocated(RelocateAll(m.names, Origins(ns)), Origins(ms));
  }

  lemma {:induction false} LocalsAppend(ms: seq<Module>, ns: seq<Module>)
    ensures Locals(ms + ns) == Locals(ms) + RelocateAll(Locals(ns), Origins(ms))
    decreases |ns|
  {
    if |ns| == 0 {
      assert ms + ns == ms;
    } else {
      var init, last := ns[..|ns| - 1], ns[|ns| - 1];
      LocalsAppend(ms, init);
      assert (ms + ns)[..|ms + ns| - 1] == ms + init;
      LocalsOfLater(ms, init, last);
      var own := LocalsOf(RelocateAll(last.names, Origins(init)));
      RelocateAllAppend(Locals(init), own, Origins(ms));
      Associate(Locals(ms), RelocateAll(Locals(init), Origins(ms)), RelocateAll(own, Origins(ms)));
    }
  }

  lemma {:induction false} ExternalsOfExternal(ns: seq<Name>)
    ensures AllExternal(ExternalsOf(ns))
    decreases |ns|
  {
    if |ns| > 0 { ExternalsOfExternal(ns[..|ns| - 1]); }
  }

  lemma {:induction false} ExternalsExternal(ms: seq<Module>)
    ensures AllExternal(Externals(ms))
    decreases |ms|
  {
    if |ms| > 0 {
      ExternalsExternal(ms[..|ms| - 1]);
      ExternalsOfExternal(RelocateAll(ms[|ms| - 1].names, Origins(ms[..|ms| - 1])));
    }
  }

  lemma GlobalsShape(ms: seq<Module>)
    ensures Unique(Globals(ms)) && AllExternal(Globals(ms))
  {
    ExternalsExternal(ms);
    EnterAllUnique([], Externals(ms));
    EnterAllExternal([], Externals(ms));
  }

  ghost predicate AllLocal(ns: seq<Name>) {
    forall i :: 0 <= i < |ns| ==> !ns[i].ext && !ns[i].sct
  }

  lemma {:induction false} LocalsOfLocal(ns: seq<Name>)
    ensures AllLocal(LocalsOf(ns))
    decreases |ns|
  {
    if |ns| > 0 { LocalsOfLocal(ns[..|ns| - 1]); }
  }

  lemma {:induction false} LocalsLocal(ms: seq<Module>)
    ensures AllLocal(Locals(ms))
    decreases |ms|
  {
    if |ms| > 0 {
      LocalsLocal(ms[..|ms| - 1]);
      LocalsOfLocal(RelocateAll(ms[|ms| - 1].names, Origins(ms[..|ms| - 1])));
    }
  }

  lemma {:induction false} ExternalsOfAll(ns: seq<Name>)
    requires AllExternal(ns)
    ensures ExternalsOf(ns) == ns && LocalsOf(ns) == []
    decreases |ns|
  {
    if |ns| > 0 {
      ExternalsOfAll(ns[..|ns| - 1]);
      assert ns == ns[..|ns| - 1] + [ns[|ns| - 1]];
    }
  }

  lemma {:induction false} LocalsOfAll(ns: seq<Name>)
    requires AllLocal(ns)
    ensures LocalsOf(ns) == ns && ExternalsOf(ns) == []
    decreases |ns|
  {
    if |ns| > 0 {
      LocalsOfAll(ns[..|ns| - 1]);
      assert ns == ns[..|ns| - 1] + [ns[|ns| - 1]];
    }
  }

  lemma {:induction false} SectionsOfAll(ns: seq<Name>)
    requires forall i :: 0 <= i < |ns| ==> !ns[i].ext && ns[i].sct
    ensures LocalsOf(ns) == [] && ExternalsOf(ns) == []
    decreases |ns|
  {
    if |ns| > 0 { SectionsOfAll(ns[..|ns| - 1]); }
  }

  // --------------------------------------------------------------- contents

  /** What is emitted for `ms`, linked after `pre`, in section s. */
  function ContentFrom(env: Env, pre: seq<Module>, ms: seq<Module>, s: nat): seq<byte> {
    if |ms| == 0 then []
    else
      var init := ms[..|ms| - 1];
      Append(ContentFrom(env, pre, init, s), Origin(init, s), PatchedData(env, ms[|ms| - 1], Origins(pre + init), s))
  }

  /** b placed at n, if there is anything to place. */
  function Append(a: seq<byte>, n: nat, b: seq<byte>): seq<byte> {
    if |b| > 0 then Pad(a, n) + b else a
  }

  lemma PadRight(a: seq<byte>, b: seq<byte>, n: nat)
    ensures Pad(a + b, |a| + n) == a + Pad(b, n)
  {
  }

  lemma PadFurther(a: seq<byte>, m: nat, b: seq<byte>, n: nat)
    requires |a| <= m && |b| == 0
    ensures Pad(a, m + n) == Pad(a, m) + Pad(b, n)
  {
  }

  lemma AppendTwice(a: seq<byte>, m: nat, b: seq<byte>, n: nat, c: seq<byte>)
    requires |a| <= m && |b| <= n
    ensures Append(Append(a, m, b), m + n, c) == Append(a, m, Append(b, n, c))
  {
    if |c| > 0 {
      var p := Pad(a, m);
      if |b| > 0 { PadRight(p, b, n); } else { PadFurther(a, m, b, n); }
      Associate(p, Pad(b, n), c);
    }
  }

  lemma {:induction false} ContentFromBound(env: Env, pre: seq<Module>, ms: seq<Module>, s: nat)
    requires AllWellFormed(ms)
    ensures |ContentFrom(env, pre, ms, s)| <= Origin(ms, s)
    decreases |ms|
  {
    if |ms| > 0 { ContentFromBound(env, pre, ms[..|ms| - 1], s); }
  }

  lemma {:induction false} ContentIs(env: Env, ms: seq<Module>, s: nat)
    ensures Content(env, ms, s) == ContentFrom(env, [], ms, s)
    decreases |ms|
  {
    if |ms| > 0 {
      ContentIs(env, ms[..|ms| - 1], s);
      assert [] + ms[..|ms| - 1] == ms[..|ms| - 1];
    }
  }

  lemma SplitLast<T>(a: seq<T>, b: seq<T>)
    requires |b| > 0
    ensures a + b == a + b[..|b| - 1] + [b[|b| - 1]]
  {
  }

  lemma ContentLast(env: Env, ms: seq<Module>, init: seq<Module>, last: Module, s: nat)
    requires ms == init + [last]
    ensures Content(env, ms, s) == Append(Content(env, init, s), Origin(init, s),
        PatchedData(env, last, Origins(init), s))
  {
    assert ms[..|ms| - 1] == init;
  }

  lemma {:induction false} ContentAppend(env: Env, ms: seq<Module>, ns: seq<Module>, s: nat)
    requires AllWellFormed(ms) && AllWellFormed(ns)
    ensures Content(env, ms + ns, s) == Append(Content(env, ms, s), Origin(ms, s), ContentFrom(env, ms, ns, s))
    decreases |ns|
  {
    if |ns| == 0 {
      assert ms + ns == ms;
    } else {
      var init, last := ns[..|ns| - 1], ns[|ns| - 1];
      ContentAppend(env, ms, init, s);
      SplitLast(ms, ns);
      ContentLast(env, ms + ns, ms + init, last, s);
      OriginAppend(ms, init, s);
      ContentIs(env, ms, s);
      ContentFromBound(env, [], ms, s);
      ContentFromBound(env, ms, init, s);
      AppendTwice(Content(env, ms, s), Origin(ms, s), ContentFrom(env, ms, init, s), Origin(init, s),
          PatchedData(env, last, Origins(ms + init), s));
    }
  }

  /** Only the sizes of what was linked before matter. */
  lemma {:induction false} ContentFromSame(env: Env, pre: seq<Module>, pre': seq<Module>, ms: seq<Module>, s: nat)
    requires Origins(pre) == Origins(pre')
    ensures ContentFrom(env, pre, ms, s) == ContentFrom(env, pre', ms, s)
    decreases |ms|
  {
    if |ms| > 0 {
      var init := ms[..|ms| - 1];
      ContentFromSame(env, pre, pre', init, s);
      OriginsAppend(pre, init);
      OriginsAppend(pre', init);
    }
  }

  // ------------------------------------------------------------ relocations

  function OutRelosFrom(env: Env, pre: seq<Module>, ms: seq<Module>): seq<Relo> {
    if |ms| == 0 then []
    else OutRelosFrom(env, pre, ms[..|ms| - 1]) + NewRelos(env, ms[|ms| - 1], Origins(pre + ms[..|ms| - 1]))
  }

  lemma OutRelosLast(env: Env, init: seq<Module>, last: Module)
    ensures OutRelos(env, init + [last]) == OutRelos(env, init) + NewRelos(env, last, Origins(init))
  {
    assert (init + [last])[..|init + [last]| - 1] == init;
  }

  lemma {:induction false} OutRelosAppend(env: Env, ms: seq<Module>, ns: seq<Module>)
    ensures OutRelos(env, ms + ns) == OutRelos(env, ms) + OutRelosFrom(env, ms, ns)
    decreases |ns|
  {
    if |ns| == 0 {
      assert ms + ns == ms;
    } else {
      var init, last := ns[..|ns| - 1], ns[|ns| - 1];
      OutRelosAppend(env, ms, init);
      SplitLast(ms, ns);
      OutRelosLast(env, ms + init, last);
      Associate(OutRelos(env, ms), OutRelosFrom(env, ms, init), NewRelos(env, last, Origins(ms + init)));
    }
  }

  lemma {:induction false} OutRelosIs(env: Env, ms: seq<Module>)
    ensures OutRelos(env, ms) == OutRelosFrom(env, [], ms)
    decreases |ms|
  {
    if |ms| > 0 {
      OutRelosIs(env, ms[..|ms| - 1]);
      assert [] + ms[..|ms| - 1] == ms[..|ms| - 1];
    }
  }

  lemma {:induction false} OutRelosFromSame(env: Env, pre: seq<Module>, pre': seq<Module>, ms: seq<Module>)
    requires Origins(pre) == Origins(pre')
    ensures OutRelosFrom(env, pre, ms) == OutRelosFrom(env, pre', ms)
    decreases |ms|
  {
    if |ms| > 0 {
      var init := ms[..|ms| - 1];
      OutRelosFromSame(env, pre, pre', init);
      OriginsAppend(pre, init);
      OriginsAppend(pre', init);
    }
  }

  lemma NewRelosAppend(env: Env, m: Module, origin: seq<int>, a: seq<Relo>, b: seq<Relo>)
    ensures NewRelosOf(env, m, origin, a + b) == NewRelosOf(env, m, origin, a) + NewRelosOf(env, m, origin, b)
  {
  }

  lemma {:induction false} OnSectionAppend(a: seq<Relo>, b: seq<Relo>, s: nat)
    ensures OnSection(a + b, s) == OnSection(a, s) + OnSection(b, s)
    decreases |b|
  {
    if |b| == 0 {
      assert a + b == a;
    } else {
      OnSectionAppend(a, b[..|b| - 1], s);
      assert (a + b)[..|a + b| - 1] == a + b[..|b| - 1];
    }
  }

  lemma PatchesOnAppend(env: Env, m: Module, origin: seq<int>, a: seq<Relo>, b: seq<Relo>, s: nat)
    ensures PatchesOn(env, m, origin, a + b, s) == PatchesOn(env, m, origin, a, s) + PatchesOn(env, m, origin, b, s)
  {
    OnSectionAppend(a, b, s);
  }

  /** The entries for a section are entries of the table, in the same order. */
  lemma {:induction false} OnSectionFrom(rs: seq<Relo>, s: nat, i: nat, j: nat) returns (i': nat, j': nat)
    requires i <= j < |OnSection(rs, s)|
    ensures i' <= j' < |rs| && rs[i'] == OnSection(rs, s)[i] && rs[j'] == OnSection(rs, s)[j]
        && rs[i'].sect == rs[j'].sect == s
    ensures i < j ==> i' < j'
    decreases |rs|
  {
    var n := |rs| - 1;
    var before := OnSection(rs[..n], s);
    if j < |before| {
      i', j' := OnSectionFrom(rs[..n], s, i, j);
    } else if i < j {
      i', j' := OnSectionFrom(rs[..n], s, i, i);
      j' := n;
    } else {
      i', j' := n, n;
    }
  }

  lemma {:induction false} OnSectionHas(rs: seq<Relo>, s: nat, k: nat)
    requires k < |rs| && rs[k].sect == s
    ensures rs[k] in OnSection(rs, s)
    decreases |rs|
  {
    if k < |rs| - 1 { OnSectionHas(rs[..|rs| - 1], s, k); }
  }
}
