/**
  Relocating the bytes of a list of modules in two steps, first among themselves
  and then as one module, or in one step; for any environments whatever.
 */
module TwoSteps {
  import opened Bytes
  import opened Relocation
  import opened LinkModel
  import opened LinkAppend

  ghost predicate AllApart(rs: seq<Relo>) {
    forall i, j :: 0 <= i < j < |rs| ==> Apart(rs[i], rs[j])
  }

  lemma PrefixLast<T>(s: seq<T>, k: nat)
    requires k < |s|
    ensures s[..k + 1][..k] == s[..k] && |s[..k + 1]| == k + 1 && s[..k + 1][k] == s[k]
  {
  }

  /** qs become `part` in the environment `first`, and that follows ps in `final`. */
  datatype Steps = Steps(first: Env, final: Env, part: Module, ps: seq<Module>, qs: seq<Module>) {
    /** Where module k is placed, by itself and in the final output. */
    function Own(k: nat): seq<int>
      requires k <= |qs|
    {
      Origins(qs[..k])
    }

    function All(k: nat): seq<int>
      requires k <= |qs|
    {
      Origins(ps + qs[..k])
    }

    /** What the first step, the later one and the single one do for an entry of module k. */
    function FirstPatch(k: nat, r: Relo): Patch
      requires k < |qs|
    {
      PatchOf(first, qs[k], Own(k), r)
    }

    function Rewritten(k: nat, r: Relo): Relo
      requires k < |qs|
    {
      NewRelo(first, qs[k], Own(k), r)
    }

    function LaterPatch(r: Relo): Patch {
      PatchOf(final, part, Origins(ps), r)
    }

    function OncePatch(k: nat, r: Relo): Patch
      requires k < |qs|
    {
      PatchOf(final, qs[k], All(k), r)
    }

    /** The later change of an entry, at the address that module k has for it. */
    function MovedPatch(k: nat, r: Relo): Patch
      requires k < |qs|
    {
      Patch(r.t, r.addr, LaterPatch(Rewritten(k, r)).delta)
    }

    predicate Lands(k: nat, r: Relo)
      requires k < |qs|
    {
      LaterPatch(Rewritten(k, r)) == Shift(MovedPatch(k, r), Origin(qs[..k], r.sect))
    }

    /** Do two steps change the datum by as much as one? */
    predicate Exact(k: nat, r: Relo)
      requires k < |qs|
    {
      AddsUpAt(FirstPatch(k, r), MovedPatch(k, r), OncePatch(k, r))
    }

    ghost predicate AllLand(k: nat)
      requires k < |qs|
    {
      forall i :: 0 <= i < |qs[k].relos| ==> Lands(k, qs[k].relos[i])
    }

    ghost predicate Valid() {
      AllWellFormed(qs) && forall k :: 0 <= k < |qs| ==> AllLand(k)
    }
  }

  // ------------------------------------------------------------ one module

  function EntriesOn(d: Steps, k: nat, s: nat): seq<Relo>
    requires k < |d.qs|
  {
    OnSection(d.qs[k].relos, s)
  }

  /** The three lists of changes to module k's part of section s. */
  function FirstOn(d: Steps, k: nat, s: nat): seq<Patch>
    requires k < |d.qs|
  {
    PatchesOn(d.first, d.qs[k], d.Own(k), d.qs[k].relos, s)
  }

  function OnceOn(d: Steps, k: nat, s: nat): seq<Patch>
    requires k < |d.qs|
  {
    PatchesOn(d.final, d.qs[k], d.All(k), d.qs[k].relos, s)
  }

  function LaterOn(d: Steps, k: nat, s: nat): (r: seq<Patch>)
    requires k < |d.qs|
    ensures |r| == |EntriesOn(d, k, s)| && forall i :: 0 <= i < |r| ==> r[i] == d.MovedPatch(k, EntriesOn(d, k, s)[i])
  {
    var rs := EntriesOn(d, k, s);
    seq(|rs|, i requires 0 <= i < |rs| => d.MovedPatch(k, rs[i]))
  }

  ghost predicate ExactOn(d: Steps, k: nat, s: nat)
    requires k < |d.qs|
  {
    forall i :: 0 <= i < |EntriesOn(d, k, s)| ==> d.Exact(k, EntriesOn(d, k, s)[i])
  }

  lemma ModuleAddsUp(d: Steps, k: nat, s: nat)
    requires k < |d.qs|
    ensures Together(FirstOn(d, k, s), LaterOn(d, k, s), OnceOn(d, k, s))
    ensures AddsUp(FirstOn(d, k, s), LaterOn(d, k, s), OnceOn(d, k, s)) <==> ExactOn(d, k, s)
  {
    forall i | 0 <= i < |EntriesOn(d, k, s)|
      ensures AddsUpAt(FirstOn(d, k, s)[i], LaterOn(d, k, s)[i], OnceOn(d, k, s)[i])
          <==> d.Exact(k, EntriesOn(d, k, s)[i])
    {
    }
  }

  // the changes to one module lie in its part and apart from each other

  lemma PatchesDisjoint(env: Env, m: Module, origin: seq<int>, rs: seq<Relo>, s: nat)
    requires AllApart(rs)
    ensures Disjoint(PatchesOn(env, m, origin, rs, s))
  {
    var ps := PatchesOn(env, m, origin, rs, s);
    forall i, j | 0 <= i < j < |ps| ensures Separate(ps[i], ps[j]) {
      var i', j' := OnSectionFrom(rs, s, i, j);
      assert Apart(rs[i'], rs[j']);
    }
  }

  lemma PatchesWithin(env: Env, m: Module, origin: seq<int>, s: nat)
    requires WellFormed(m)
    ensures AllWithin(PatchesOn(env, m, origin, m.relos, s), |DataOf(m, s)|)
  {
    var ps := PatchesOn(env, m, origin, m.relos, s);
    forall k | 0 <= k < |ps| ensures ps[k].Within(|DataOf(m, s)|) {
      var i, _ := OnSectionFrom(m.relos, s, k, k);
      assert ReloOk(m.relos[i], m);
    }
  }

  lemma WithinTogether(ps: seq<Patch>, qs: seq<Patch>, rs: seq<Patch>, n: int)
    requires Together(ps, qs, rs) && AllWithin(ps, n)
    ensures AllWithin(qs, n)
  {
    forall k | 0 <= k < |qs| ensures qs[k].Within(n) { assert TogetherAt(ps[k], qs[k], rs[k]) && ps[k].Within(n); }
  }

  function FirstData(d: Steps, k: nat, s: nat): seq<byte>
    requires k < |d.qs|
  {
    PatchedData(d.first, d.qs[k], d.Own(k), s)
  }

  function OnceData(d: Steps, k: nat, s: nat): seq<byte>
    requires k < |d.qs|
  {
    PatchedData(d.final, d.qs[k], d.All(k), s)
  }

  // ------------------------------------------------- changes and appending

  lemma PadSame(a: seq<byte>, a': seq<byte>, n: nat)
    requires |a| == |a'|
    ensures Pad(a, n) == Pad(a', n) <==> a == a'
  {
    if |a| < n { SamePieces(a, Zeros(n - |a|), a', Zeros(n - |a|)); }
  }

  /** Appending is one-to-one in what is appended to and in what is appended. */
  lemma AppendSame(a: seq<byte>, b: seq<byte>, a': seq<byte>, b': seq<byte>, n: nat)
    requires |a| == |a'| && |b| == |b'|
    ensures |Append(a, n, b)| == |Append(a', n, b')|
    ensures Append(a, n, b) == Append(a', n, b') <==> a == a' && b == b'
  {
    PadSame(a, a', n);
    SamePieces(Pad(a, n), b, Pad(a', n), b');
  }

  lemma ApplyAllPad(a: seq<byte>, n: nat, ps: seq<Patch>)
    requires AllWithin(ps, |a|)
    ensures AllWithin(ps, |Pad(a, n)|) && ApplyAll(Pad(a, n), ps) == Pad(ApplyAll(a, ps), n)
  {
    if |a| < n { ApplyAllLeft(a, Zeros(n - |a|), ps); }
  }

  /** Changes to what is appended to and to what is appended. */
  lemma ApplyAllAppended(a: seq<byte>, n: nat, b: seq<byte>, ps: seq<Patch>, qs: seq<Patch>)
    requires |a| <= n && AllWithin(ps, |a|) && AllWithin(qs, |b|) && (|b| == 0 ==> qs == [])
    ensures AllWithin(ps + ShiftAll(qs, n), |Append(a, n, b)|)
    ensures ApplyAll(Append(a, n, b), ps + ShiftAll(qs, n)) == Append(ApplyAll(a, ps), n, ApplyAll(b, qs))
  {
    if |b| > 0 {
      ApplyAllPad(a, n, ps);
      ApplyAllBeside(Pad(a, n), b, ps, qs);
    } else {
      assert ps + ShiftAll(qs, n) == ps;
    }
  }

  /** Bytes, changes to them, and the bytes that these should make, if `right`. */
  datatype Change = Change(a: seq<byte>, ps: seq<Patch>, c: seq<byte>, right: bool) {
    predicate Exact() {
      && AllWithin(ps, |a|)
      && |c| == |a|
      && (ApplyAll(a, ps) == c <==> right)
    }

    function Then(n: nat, next: Change): Change {
      Change(Append(a, n, next.a), ps + ShiftAll(next.ps, n), Append(c, n, next.c), right && next.right)
    }
  }

  lemma NothingToChange(ps: seq<Patch>)
    requires AllWithin(ps, 0)
    ensures ps == []
  {
    assert |ps| > 0 ==> ps[0].Within(0);
  }

  lemma ExactThen(x: Change, n: nat, y: Change)
    requires |x.a| <= n && x.Exact() && y.Exact()
    ensures x.Then(n, y).Exact()
  {
    if |y.a| == 0 { NothingToChange(y.ps); }
    ApplyAllAppended(x.a, n, y.a, x.ps, y.ps);
    AppendSame(ApplyAll(x.a, x.ps), ApplyAll(y.a, y.ps), x.c, y.c, n);
  }

  /** What the later step makes of module k. */
  ghost function ModuleChange(d: Steps, k: nat, s: nat): Change
    requires k < |d.qs|
  {
    Change(FirstData(d, k, s), LaterOn(d, k, s), OnceData(d, k, s), ExactOn(d, k, s))
  }

  /** One module's part of a section: patched twice or at once. */
  lemma ModuleExact(d: Steps, k: nat, s: nat)
    requires d.Valid() && k < |d.qs|
    ensures ModuleChange(d, k, s).Exact()
  {
    var m := d.qs[k];
    ModuleAddsUp(d, k, s);
    PatchesWithin(d.first, m, d.Own(k), s);
    PatchesWithin(d.final, m, d.All(k), s);
    WithinTogether(FirstOn(d, k, s), LaterOn(d, k, s), OnceOn(d, k, s), |DataOf(m, s)|);
    PatchesDisjoint(d.first, m, d.Own(k), m.relos, s);
    ApplyTwice(DataOf(m, s), FirstOn(d, k, s), LaterOn(d, k, s), OnceOn(d, k, s));
  }

  // ----------------------------------------------------- changes in a row

  /** The first k of the changes cs, one after the other at the places ns. */
  function Chain(cs: seq<Change>, ns: seq<nat>, k: nat): Change
    requires k <= |cs| == |ns|
  {
    if k == 0 then Change([], [], [], true) else Chain(cs, ns, k - 1).Then(ns[k - 1], cs[k - 1])
  }

  predicate Appends(all: seq<seq<byte>>, ns: seq<nat>, k: nat, b: seq<byte>)
    requires k < |ns| == |all| - 1
  {
    all[k + 1] == Append(all[k], ns[k], b)
  }

  lemma AppendsNext(all: seq<seq<byte>>, ns: seq<nat>, k: nat, b: seq<byte>, before: seq<byte>)
    requires k < |ns| == |all| - 1 && Appends(all, ns, k, b) && all[k] == before
    ensures Append(before, ns[k], b) == all[k + 1]
  {
  }

  lemma {:induction false} ChainStarts(cs: seq<Change>, ns: seq<nat>, all: seq<seq<byte>>, n: nat)
    requires n <= |cs| == |ns| == |all| - 1 && all[0] == []
    requires forall k :: 0 <= k < |cs| ==> Appends(all, ns, k, cs[k].a)
    ensures Chain(cs, ns, n).a == all[n]
    decreases n
  {
    if n > 0 {
      ChainStarts(cs, ns, all, n - 1);
      AppendsNext(all, ns, n - 1, cs[n - 1].a, Chain(cs, ns, n - 1).a);
    }
  }

  /** Is there room for the first k changes? */
  predicate Fits(cs: seq<Change>, ns: seq<nat>, k: nat)
    requires k < |ns| == |cs|
  {
    |Chain(cs, ns, k).a| <= ns[k]
  }

  lemma {:induction false} ChainExact(cs: seq<Change>, ns: seq<nat>, n: nat)
    requires n <= |cs| == |ns|
    requires forall k :: 0 <= k < |cs| ==> cs[k].Exact()
    requires forall k :: 0 <= k < |cs| ==> Fits(cs, ns, k)
    ensures Chain(cs, ns, n).Exact()
    decreases n
  {
    if n > 0 {
      ChainExact(cs, ns, n - 1);
      assert Fits(cs, ns, n - 1);
      var x, y := Chain(cs, ns, n - 1), cs[n - 1];
      assert y.Exact();
      ExactThen(x, ns[n - 1], y);
    }
  }

  lemma {:induction false} ChainMakes(cs: seq<Change>, ns: seq<nat>, all: seq<seq<byte>>, n: nat)
    requires n <= |cs| == |ns| == |all| - 1 && all[0] == []
    requires forall k :: 0 <= k < |cs| ==> Appends(all, ns, k, cs[k].c)
    ensures Chain(cs, ns, n).c == all[n]
    decreases n
  {
    if n > 0 {
      ChainMakes(cs, ns, all, n - 1);
      AppendsNext(all, ns, n - 1, cs[n - 1].c, Chain(cs, ns, n - 1).c);
    }
  }

  predicate Adds(all: seq<seq<Patch>>, ns: seq<nat>, k: nat, ps: seq<Patch>)
    requires k < |ns| == |all| - 1
  {
    all[k + 1] == all[k] + ShiftAll(ps, ns[k])
  }

  lemma AddsNext(all: seq<seq<Patch>>, ns: seq<nat>, k: nat, ps: seq<Patch>, before: seq<Patch>)
    requires k < |ns| == |all| - 1 && Adds(all, ns, k, ps) && all[k] == before
    ensures before + ShiftAll(ps, ns[k]) == all[k + 1]
  {
  }

  lemma {:induction false} ChainPatches(cs: seq<Change>, ns: seq<nat>, all: seq<seq<Patch>>, n: nat)
    requires n <= |cs| == |ns| == |all| - 1 && all[0] == []
    requires forall k :: 0 <= k < |cs| ==> Adds(all, ns, k, cs[k].ps)
    ensures Chain(cs, ns, n).ps == all[n]
    decreases n
  {
    if n > 0 {
      ChainPatches(cs, ns, all, n - 1);
      AddsNext(all, ns, n - 1, cs[n - 1].ps, Chain(cs, ns, n - 1).ps);
    }
  }

  lemma {:induction false} ChainRight(cs: seq<Change>, ns: seq<nat>, n: nat)
    requires n <= |cs| == |ns|
    ensures Chain(cs, ns, n).right <==> forall k :: 0 <= k < n ==> cs[k].right
    decreases n
  {
    if n > 0 { ChainRight(cs, ns, n - 1); }
  }

  // ------------------------------------------------------ the whole section

  lemma {:induction false} OnSectionMapped(env: Env, m: Module, origin: seq<int>, rs: seq<Relo>, rs': seq<Relo>, s: nat)
    requires |rs| == |rs'| && forall i :: 0 <= i < |rs| ==> rs'[i] == NewRelo(env, m, origin, rs[i])
    ensures |OnSection(rs', s)| == |OnSection(rs, s)|
    ensures forall i :: 0 <= i < |OnSection(rs, s)| ==>
        OnSection(rs', s)[i] == NewRelo(env, m, origin, OnSection(rs, s)[i])
    decreases |rs|
  {
    if |rs| > 0 { OnSectionMapped(env, m, origin, rs[..|rs| - 1], rs'[..|rs| - 1], s); }
  }

  lemma LaterOfModule(d: Steps, k: nat, s: nat)
    requires d.Valid() && k < |d.qs|
    ensures PatchesOn(d.final, d.part, Origins(d.ps), NewRelos(d.first, d.qs[k], d.Own(k)), s)
         == ShiftAll(LaterOn(d, k, s), Origin(d.qs[..k], s))
  {
    OnSectionMapped(d.first, d.qs[k], d.Own(k), d.qs[k].relos, NewRelos(d.first, d.qs[k], d.Own(k)), s);
    forall i | 0 <= i < |EntriesOn(d, k, s)|
      ensures d.LaterPatch(d.Rewritten(k, EntriesOn(d, k, s)[i])) == ShiftAll(LaterOn(d, k, s), Origin(d.qs[..k], s))[i]
    {
      var j, _ := OnSectionFrom(d.qs[k].relos, s, i, i);
      assert d.AllLand(k) && d.Lands(k, d.qs[k].relos[j]);
    }
  }

  function LaterAll(d: Steps, ms: seq<Module>, s: nat): seq<Patch> {
    PatchesOn(d.final, d.part, Origins(d.ps), OutRelos(d.first, ms), s)
  }

  lemma LaterAllLast(d: Steps, k: nat, s: nat)
    requires d.Valid() && k < |d.qs|
    ensures LaterAll(d, d.qs[..k + 1], s) == LaterAll(d, d.qs[..k], s)
        + ShiftAll(LaterOn(d, k, s), Origin(d.qs[..k], s))
  {
    PrefixLast(d.qs, k);
    LaterOfModule(d, k, s);
    PatchesOnAppend(d.final, d.part, Origins(d.ps), OutRelos(d.first, d.qs[..k]),
        NewRelos(d.first, d.qs[k], d.Own(k)), s);
  }

  lemma ContentFromLast(env: Env, pre: seq<Module>, ms: seq<Module>, k: nat, s: nat)
    requires k < |ms|
    ensures ContentFrom(env, pre, ms[..k + 1], s)
         == Append(ContentFrom(env, pre, ms[..k], s), Origin(ms[..k], s),
             PatchedData(env, ms[k], Origins(pre + ms[..k]), s))
  {
    PrefixLast(ms, k);
  }

  /** All that the later step makes of the modules. */
  ghost function Changes(d: Steps, s: nat): (cs: seq<Change>)
    ensures |cs| == |d.qs| && forall k :: 0 <= k < |cs| ==> cs[k] == ModuleChange(d, k, s)
  {
    seq(|d.qs|, k requires 0 <= k < |d.qs| => ModuleChange(d, k, s))
  }

  function Places(ms: seq<Module>, s: nat): (ns: seq<nat>)
    ensures |ns| == |ms| && forall k :: 0 <= k < |ns| ==> ns[k] == Origin(ms[..k], s)
  {
    seq(|ms|, k requires 0 <= k < |ms| => Origin(ms[..k], s))
  }

  function Contents(env: Env, pre: seq<Module>, ms: seq<Module>, s: nat): (all: seq<seq<byte>>)
    ensures |all| == |ms| + 1 && forall k :: 0 <= k < |all| ==> all[k] == ContentFrom(env, pre, ms[..k], s)
  {
    seq(|ms| + 1, k requires 0 <= k < |ms| + 1 => ContentFrom(env, pre, ms[..k], s))
  }

  lemma ContentsAppend(env: Env, pre: seq<Module>, ms: seq<Module>, k: nat, s: nat)
    requires k < |ms|
    ensures Appends(Contents(env, pre, ms, s), Places(ms, s), k, PatchedData(env, ms[k], Origins(pre + ms[..k]), s))
  {
    ContentFromLast(env, pre, ms, k, s);
  }

  ghost function WholeChain(d: Steps, s: nat): Change {
    Chain(Changes(d, s), Places(d.qs, s), |d.qs|)
  }

  lemma NothingBefore<T>(ms: seq<T>)
    ensures [] + ms == ms
  {
  }

  lemma FirstAppends(d: Steps, k: nat, s: nat)
    requires AllWellFormed(d.qs) && k < |d.qs|
    ensures Appends(Contents(d.first, [], d.qs, s), Places(d.qs, s), k, FirstData(d, k, s))
    ensures |Contents(d.first, [], d.qs, s)[k]| <= Places(d.qs, s)[k]
  {
    ContentsAppend(d.first, [], d.qs, k, s);
    NothingBefore(d.qs[..k]);
    ContentFromBound(d.first, [], d.qs[..k], s);
  }

  lemma ChainOf(d: Steps, s: nat, n: nat)
    requires AllWellFormed(d.qs) && n <= |d.qs|
    ensures Chain(Changes(d, s), Places(d.qs, s), n).a == Contents(d.first, [], d.qs, s)[n]
  {
    var cs, ns, all := Changes(d, s), Places(d.qs, s), Contents(d.first, [], d.qs, s);
    forall k | 0 <= k < |cs| ensures Appends(all, ns, k, cs[k].a) { FirstAppends(d, k, s); }
    ChainStarts(cs, ns, all, n);
  }

  lemma ExactChain(d: Steps, s: nat)
    requires d.Valid()
    ensures WholeChain(d, s).a == ContentFrom(d.first, [], d.qs, s) && WholeChain(d, s).Exact()
  {
    var cs, ns, all := Changes(d, s), Places(d.qs, s), Contents(d.first, [], d.qs, s);
    forall k | 0 <= k < |cs| ensures cs[k].Exact() { ModuleExact(d, k, s); }
    forall k | 0 <= k < |cs| ensures Fits(cs, ns, k) {
      ChainOf(d, s, k);
      FirstAppends(d, k, s);
    }
    ChainExact(cs, ns, |d.qs|);
    ChainOf(d, s, |d.qs|);
    assert d.qs[..|d.qs|] == d.qs;
  }

  lemma MadeByChain(d: Steps, s: nat)
    ensures WholeChain(d, s).c == ContentFrom(d.final, d.ps, d.qs, s)
  {
    var cs, ns, all := Changes(d, s), Places(d.qs, s), Contents(d.final, d.ps, d.qs, s);
    forall k | 0 <= k < |cs| ensures Appends(all, ns, k, cs[k].c) { ContentsAppend(d.final, d.ps, d.qs, k, s); }
    ChainMakes(cs, ns, all, |d.qs|);
    assert d.qs[..|d.qs|] == d.qs;
  }

  function AllLater(d: Steps, s: nat): (all: seq<seq<Patch>>)
    ensures |all| == |d.qs| + 1 && forall k :: 0 <= k < |all| ==> all[k] == LaterAll(d, d.qs[..k], s)
  {
    seq(|d.qs| + 1, k requires 0 <= k < |d.qs| + 1 => LaterAll(d, d.qs[..k], s))
  }

  lemma PatchesOfChain(d: Steps, s: nat)
    requires d.Valid()
    ensures WholeChain(d, s).ps == LaterAll(d, d.qs, s)
  {
    var cs, ns, all := Changes(d, s), Places(d.qs, s), AllLater(d, s);
    forall k | 0 <= k < |cs| ensures Adds(all, ns, k, cs[k].ps) { LaterAllLast(d, k, s); }
    ChainPatches(cs, ns, all, |d.qs|);
    assert d.qs[..|d.qs|] == d.qs;
  }

  ghost predicate AllExact(d: Steps, s: nat) {
    forall k :: 0 <= k < |d.qs| ==> ExactOn(d, k, s)
  }

  lemma RightOfChain(d: Steps, s: nat)
    ensures WholeChain(d, s).right == AllExact(d, s)
  {
    ChainRight(Changes(d, s), Places(d.qs, s), |d.qs|);
    forall k | 0 <= k < |d.qs| ensures Changes(d, s)[k].right == ExactOn(d, k, s) {}
  }

  /**
    A section of the part, changed by its own entries, is what one step makes of it,
    exactly if every entry is exact.
   */
  lemma TwoStepsAsOne(d: Steps, s: nat)
    requires d.Valid()
    ensures Change(ContentFrom(d.first, [], d.qs, s), LaterAll(d, d.qs, s), ContentFrom(d.final, d.ps, d.qs, s),
        AllExact(d, s)).Exact()
  {
    ExactChain(d, s);
    MadeByChain(d, s);
    PatchesOfChain(d, s);
    RightOfChain(d, s);
  }
}
