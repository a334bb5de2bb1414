/**
  What is counted in the first pass (process in Ack-5.5/ld/extract.c), and where
  everything goes after it (norm_commons, complete_sections and change_names in
  Ack-5.5/ld/main.c).
 */
module Layout {
  import opened Bytes
  import opened Names
  import opened LinkModel
  import opened Strategies

  const SZ_HEAD := 20
  const SZ_SECT := 20

  // ----------------------------------------------------------------- counting

  function Sum(a: seq<int>): int {
    if |a| == 0 then 0 else Sum(a[..|a| - 1]) + a[|a| - 1]
  }

  lemma {:induction false} SumUpdate(a: seq<int>, i: nat, v: int)
    requires i < |a|
    ensures Sum(a[i := v]) == Sum(a) - a[i] + v
    decreases |a|
  {
    if i < |a| - 1 {
      SumUpdate(a[..|a| - 1], i, v);
      assert a[i := v][..|a| - 1] == a[..|a| - 1][i := v];
    } else {
      assert a[i := v][..|a| - 1] == a[..|a| - 1];
    }
  }

  lemma {:induction false} SumZeroes(n: nat)
    ensures Sum(Zeroes(n)) == 0
    decreases n
  {
    if n > 0 {
      SumZeroes(n - 1);
      assert Zeroes(n)[..n - 1] == Zeroes(n - 1);
    }
  }

  /** The bytes that the first n sections of m have in its file. */
  function EmitOf(m: Module, n: nat): nat
    requires n <= |m.sects|
  {
    if n == 0 then 0 else EmitOf(m, n - 1) + |m.sects[n - 1].data|
  }

  lemma {:induction false} ContentLength(env: Env, ms: seq<Module>, s: nat)
    ensures |Content(env, ms, s)| == |Raw(ms, s)|
    decreases |ms|
  {
    if |ms| > 0 { ContentLength(env, ms[..|ms| - 1], s); }
  }

  /** The bytes that the output has for each section. */
  function Lengths(ms: seq<Module>): (r: seq<int>)
    ensures |r| == MAXSECT && forall s :: 0 <= s < MAXSECT ==> r[s] == |Raw(ms, s)|
  {
    seq(MAXSECT, s requires 0 <= s < MAXSECT => |Raw(ms, s)|)
  }

  function RelosOf(ms: seq<Module>): nat {
    if |ms| == 0 then 0 else RelosOf(ms[..|ms| - 1]) + |ms[|ms| - 1].relos|
  }

  /** The length of section s when m is added. */
  function LengthNext(ms: seq<Module>, m: Module, s: nat): int {
    if |DataOf(m, s)| > 0 then Origin(ms, s) + |DataOf(m, s)| else |Raw(ms, s)|
  }

  lemma LengthsLast(ms: seq<Module>, m: Module, s: nat)
    requires AllWellFormed(ms)
    ensures |Raw(ms + [m], s)| == LengthNext(ms, m, s)
    ensures Origin(ms + [m], s) == Origin(ms, s) + SizeOf(m, s)
  {
    RawLast(ms, m, s);
    RawBound(ms, s);
    assert (ms + [m])[..|ms + [m]| - 1] == ms;
  }

  /** The output's header and section table in the first pass. */
  class Totals {
    var nsect: nat
    var nrelo: nat
    var nemit: int
    var size: seq<int>
    var flen: seq<int>

    ghost predicate Counts(ms: seq<Module>)
      reads this
    {
      && AllWellFormed(ms)
      && nsect == NSect(ms) && nrelo == RelosOf(ms)
      && size == Origins(ms) && flen == Lengths(ms)
      && nemit == Sum(flen)
    }

    constructor ()
      ensures Counts([])
    {
      nsect, nrelo, nemit := 0, 0, 0;
      size, flen := Zeroes(MAXSECT), Zeroes(MAXSECT);
      SumZeroes(MAXSECT);
      new;
      assert size == Origins([]) && flen == Lengths([]);
    }

    /** The source's process; memit is the number of bytes that the module's header promises. */
    method Process(m: Module, memit: nat, ghost ms: seq<Module>)
      requires Counts(ms) && WellFormed(m) && memit == EmitOf(m, |m.sects|)
      modifies this
      ensures Counts(ms + [m])
    {
      nrelo := nrelo + |m.relos|;
      nemit := nemit + memit;
      if |m.sects| > nsect { nsect := |m.sects|; }
      assert size == SizesUpTo(ms, m, 0) && flen == LengthsUpTo(ms, m, 0);
      AddSections(m, ms);
      CountedAll(ms, m);
      assert (ms + [m])[..|ms + [m]| - 1] == ms;
    }

    /** What the bytes counted exceed the sections' lengths by. */
    ghost function Excess(): int
      reads this
    {
      nemit - Sum(flen)
    }

    ghost predicate AddedUpTo(ms: seq<Module>, m: Module, n: nat)
      reads this
    {
      size == SizesUpTo(ms, m, n) && flen == LengthsUpTo(ms, m, n)
    }

    method AddSection(m: Module, s: nat, ghost ms: seq<Module>)
      requires s < |m.sects| <= MAXSECT && AddedUpTo(ms, m, s)
      modifies this`size, this`flen, this`nemit
      ensures AddedUpTo(ms, m, s + 1) && Excess() == old(Excess()) - |DataOf(m, s)|
    {
      var len := |m.sects[s].data|;
      SumUpdate(flen, s, size[s] + len);
      UpToNext(ms, m, s);
      if len > 0 {
        nemit := nemit + (size[s] - flen[s]);
        flen := flen[s := size[s] + len];
      }
      size := size[s := size[s] + SizeOf(m, s)];
    }

    method AddSections(m: Module, ghost ms: seq<Module>)
      requires |m.sects| <= MAXSECT && AddedUpTo(ms, m, 0)
      modifies this`size, this`flen, this`nemit
      ensures AddedUpTo(ms, m, |m.sects|) && Excess() == old(Excess()) - EmitOf(m, |m.sects|)
    {
      var s := 0;
      while s < |m.sects|
        invariant 0 <= s <= |m.sects| && AddedUpTo(ms, m, s)
        invariant Excess() == old(Excess()) - EmitOf(m, s)
      {
        AddSection(m, s, ms);
        s := s + 1;
      }
    }
  }

  /** The sizes and lengths when the first n sections of m have been added. */
  function SizesUpTo(ms: seq<Module>, m: Module, n: nat): (r: seq<int>)
    ensures |r| == MAXSECT && forall s :: 0 <= s < MAXSECT ==> r[s] == Origin(ms, s) + if s < n then SizeOf(m, s) else 0
  {
    seq(MAXSECT, s requires 0 <= s < MAXSECT => Origin(ms, s) + if s < n then SizeOf(m, s) else 0)
  }

  function LengthsUpTo(ms: seq<Module>, m: Module, n: nat): (r: seq<int>)
    ensures |r| == MAXSECT && forall s :: 0 <= s < MAXSECT ==>
        r[s] == if s < n then LengthNext(ms, m, s) else |Raw(ms, s)|
  {
    seq(MAXSECT, s requires 0 <= s < MAXSECT => if s < n then LengthNext(ms, m, s) else |Raw(ms, s)|)
  }

  lemma UpToNext(ms: seq<Module>, m: Module, n: nat)
    requires n < MAXSECT
    ensures SizesUpTo(ms, m, n + 1) == SizesUpTo(ms, m, n)[n := SizesUpTo(ms, m, n)[n] + SizeOf(m, n)]
    ensures LengthsUpTo(ms, m, n + 1)
         == if |DataOf(m, n)| > 0 then LengthsUpTo(ms, m, n)[n := SizesUpTo(ms, m, n)[n] + |DataOf(m, n)|]
             else LengthsUpTo(ms, m, n)
  {
    var a, b := LengthsUpTo(ms, m, n + 1), LengthsUpTo(ms, m, n);
    if |DataOf(m, n)| > 0 { assert a == b[n := SizesUpTo(ms, m, n)[n] + |DataOf(m, n)|]; } else { assert a == b; }
  }

  lemma CountedAll(ms: seq<Module>, m: Module)
    requires AllWellFormed(ms) && WellFormed(m)
    ensures SizesUpTo(ms, m, |m.sects|) == Origins(ms + [m]) && LengthsUpTo(ms, m, |m.sects|) == Lengths(ms + [m])
  {
    forall j | 0 <= j < MAXSECT
      ensures SizesUpTo(ms, m, |m.sects|)[j] == Origins(ms + [m])[j]
          && LengthsUpTo(ms, m, |m.sects|)[j] == Lengths(ms + [m])[j]
    {
      LengthsLast(ms, m, j);
    }
  }

  // ------------------------------------------------------------ common names

  /** Where common names can be placed. */
  ghost predicate Placeable(gs: seq<Name>, nsect: nat) {
    forall i :: 0 <= i < |gs| ==> NameOk(gs[i], nsect)
  }

  /** What the names are when the first n have been placed. */
  function PlacedUpTo(gs: seq<Name>, sizes: seq<int>, n: nat): (r: seq<Name>)
    requires n <= |gs|
    ensures |r| == |gs| && forall i :: 0 <= i < |gs| ==> r[i] == if i < n then Placed(gs, sizes, i) else gs[i]
  {
    seq(|gs|, i requires 0 <= i < |gs| => if i < n then Placed(gs, sizes, i) else gs[i])
  }

  function CommonSizes(gs: seq<Name>, n: nat, nsect: nat): (r: seq<int>)
    requires n <= |gs|
    ensures |r| == nsect && forall s :: 0 <= s < nsect ==> r[s] == CommonSize(gs, n, s)
  {
    seq(nsect, s requires 0 <= s < nsect => CommonSize(gs, n, s))
  }

  /** The source's norm_commons: in place, unless the output has to be relocatable. */
  method NormCommons(names: array<Name>, rflag: bool, sizes: seq<int>) returns (rflag': bool, common: seq<int>)
    requires Placeable(names[..], |sizes|)
    modifies names
    ensures rflag' == (rflag || AnyUndefined(old(names[..])))
    ensures rflag' ==> names[..] == old(names[..]) && common == Zeroes(|sizes|)
    ensures !rflag' ==> names[..] == PlaceCommons(old(names[..]), sizes)
                        && common == CommonSizes(old(names[..]), names.Length, |sizes|)
  {
    rflag' := rflag;
    common := Zeroes(|sizes|);
    var i := 0;
    while i < names.Length && !rflag'
      invariant 0 <= i <= names.Length
      invariant rflag' ==> rflag || exists k :: 0 <= k < names.Length && IsUndefined(names[..][k])
      invariant !rflag' ==> !rflag && forall k :: 0 <= k < i ==> !IsUndefined(names[..][k])
    {
      if IsUndefined(names[i]) {
        assert IsUndefined(names[..][i]);
        rflag' := true;
      }
      i := i + 1;
    }
    if rflag' { return; }
    i := 0;
    assert PlacedUpTo(names[..], sizes, 0) == names[..];
    while i < names.Length
      invariant 0 <= i <= names.Length
      invariant names[..] == PlacedUpTo(old(names[..]), sizes, i)
      invariant common == CommonSizes(old(names[..]), i, |sizes|)
    {
      var n := names[i];
      assert n == names[..][i] == old(names[..])[i];
      assert NameOk(n, |sizes|);
      if n.typ != S_ABS && IsCommon(n) {
        var s := n.typ - S_MIN;
        names[i] := n.(valu := sizes[s] + common[s], com := false);
        common := common[s := common[s] + n.valu];
      }
      i := i + 1;
    }
  }

  // ------------------------------------------------------- sections in memory

  function Prefix(a: seq<int>, n: nat): seq<int>
    requires n <= |a|
  {
    a[..n]
  }

  lemma SumLast(a: seq<int>, n: nat)
    requires n < |a|
    ensures Sum(Prefix(a, n + 1)) == Sum(Prefix(a, n)) + a[n]
  {
    assert a[..n + 1][..n] == a[..n];
  }

  /** Where the bytes of each section go in the file. */
  function Offsets(start: int, flen: seq<int>, n: nat): (r: seq<int>)
    requires n <= |flen|
    ensures |r| == n && forall s :: 0 <= s < n ==> r[s] == start + Sum(Prefix(flen, s))
  {
    seq(n, s requires 0 <= s < n => start + Sum(Prefix(flen, s)))
  }

  /** Each section's bytes follow those of the one before it, up to the relocation table. */
  lemma OffsetsTile(start: int, flen: seq<int>, n: nat)
    requires 0 < n <= |flen|
    ensures var r := Offsets(start, flen, n);
      && r[0] == start
      && (forall s :: 0 <= s < n - 1 ==> r[s + 1] == r[s] + flen[s])
      && r[n - 1] + flen[n - 1] == start + Sum(Prefix(flen, n))
  {
    forall s | 0 <= s < n - 1 ensures Offsets(start, flen, n)[s + 1] == Offsets(start, flen, n)[s] + flen[s] {
      SumLast(flen, s);
    }
    SumLast(flen, n - 1);
  }

  /** Are the bases that were asked for multiples of the alignments? */
  predicate BaseAligned(o: Options, s: nat) {
    s in o.bases && LignOf(o, s) > 0 ==> o.bases[s] % LignOf(o, s) == 0
  }

  predicate BasesAligned(o: Options, n: nat) {
    forall s :: 0 <= s < n ==> BaseAligned(o, s)
  }

  /** Where the section after the first k would start, before rounding. */
  function EndOf(base: seq<int>, full: seq<int>, k: nat): int
    requires k <= |base| && k <= |full|
  {
    if k == 0 then 0 else base[k - 1] + full[k - 1]
  }

  method AlignTo(o: Options, s: nat, end: nat) returns (ok: bool, base: nat)
    ensures ok == BaseAligned(o, s)
    ensures ok ==> base == BaseOf(o, s, end)
  {
    var lign := LignOf(o, s);
    ok, base := true, end;
    if s in o.bases {
      base := o.bases[s];
      if lign > 0 && base % lign != 0 { ok := false; }
    } else if lign > 0 {
      base := base + (lign - 1);
      RoundUpIs(end, lign);
      base := base - base % lign;
      if lign == 1 { OneDivides(end); }
    }
  }

  lemma OneDivides(n: nat)
    ensures n % 1 == 0
  {
  }

  /** What is known when the first s sections have been placed. */
  ghost predicate CompletedUpTo(o: Options, full: seq<nat>, flen: seq<int>, start: int, s: nat, base: seq<int>,
      foff: seq<int>, end: int, at: int) {
    && s <= |full| && s <= |flen|
    && BasesAligned(o, s)
    && base == BasesTo(o, full, s) && 0 <= end == EndOf(base, full, s)
    && foff == Offsets(start, flen, s) && at == start + Sum(Prefix(flen, s))
  }

  lemma CompletedNext(o: Options, full: seq<nat>, flen: seq<int>, start: int, s: nat, base: seq<int>, foff: seq<int>,
      end: int, at: int)
    requires CompletedUpTo(o, full, flen, start, s, base, foff, end, at) && s < |full| && s < |flen|
        && BaseAligned(o, s)
    ensures var b := BaseOf(o, s, end);
      CompletedUpTo(o, full, flen, start, s + 1, base + [b], foff + [at], b + full[s], at + flen[s])
  {
    SumLast(flen, s);
    assert Offsets(start, flen, s + 1) == Offsets(start, flen, s) + [at];
    var b := BaseOf(o, s, end);
    assert BasesTo(o, full, s + 1) == base + [b];
    assert (base + [b])[s] == b && b >= 0;
  }

  /** The source's complete_sections, when the output is not relocatable. */
  method CompleteSections(o: Options, nsect: nat, full: seq<nat>, flen: seq<int>)
      returns (ok: bool, base: seq<int>, foff: seq<int>)
    requires nsect <= |full| && nsect <= |flen|
    ensures ok == BasesAligned(o, nsect)
    ensures ok ==> base == BasesTo(o, full, nsect) && foff == Offsets(SZ_HEAD + nsect * SZ_SECT, flen, nsect)
    ensures ok ==> forall k :: 0 <= k < nsect ==> PlacedRight(o.bases, o.ligns, full, base, k)
  {
    ok, base, foff := true, [], [];
    var at := SZ_HEAD + nsect * SZ_SECT;
    ghost var start := at;
    var end := 0;
    var s := 0;
    assert Prefix(flen, 0) == [];
    while s < nsect
      invariant 0 <= s <= nsect && ok
      invariant CompletedUpTo(o, full, flen, start, s, base, foff, end, at)
    {
      var b;
      ok, b := AlignTo(o, s, end);
      if !ok {
        assert !BaseAligned(o, s);
        return;
      }
      CompletedNext(o, full, flen, start, s, base, foff, end, at);
      foff := foff + [at];
      at := at + flen[s];
      base := base + [b];
      end := b + full[s];
      s := s + 1;
    }
    forall k | 0 <= k < nsect ensures PlacedRight(o.bases, o.ligns, full, base, k) { BasePlaced(o, full, nsect, k); }
  }

  /** The source's change_names. */
  method ChangeNames(names: array<Name>, base: seq<int>)
    modifies names
    ensures names[..] == RelocateAll(old(names[..]), base)
  {
    var i := 0;
    while i < names.Length
      invariant 0 <= i <= names.Length
      invariant forall k :: 0 <= k < names.Length ==>
          names[k] == if k < i then NameRelocate(old(names[k]), base) else old(names[k])
    {
      names[i] := NameRelocate(names[i], base);
      i := i + 1;
    }
  }

  // ---------------------------------------------------- what the layout keeps

  lemma {:induction false} BasesToPrefix(o: Options, sizes: seq<int>, k: nat, n: nat)
    requires k <= n <= |sizes|
    ensures BasesTo(o, sizes, n)[..k] == BasesTo(o, sizes, k)
    decreases n
  {
    if k < n {
      BasesToPrefix(o, sizes, k, n - 1);
      assert BasesTo(o, sizes, n)[..n - 1] == BasesTo(o, sizes, n - 1);
      assert BasesTo(o, sizes, n)[..k] == BasesTo(o, sizes, n)[..n - 1][..k];
    } else {
      assert BasesTo(o, sizes, n)[..n] == BasesTo(o, sizes, n);
    }
  }

  lemma BaseAt(o: Options, sizes: seq<int>, n: nat, k: nat)
    requires k < n <= |sizes|
    ensures BasesTo(o, sizes, n)[k] == BaseOf(o, k, if k == 0 then 0 else BasesTo(o, sizes, n)[k - 1] + sizes[k - 1])
  {
    BasesToPrefix(o, sizes, k + 1, n);
    BasesToPrefix(o, sizes, k, n);
    assert BasesTo(o, sizes, n)[k] == BasesTo(o, sizes, n)[..k + 1][k];
    if k > 0 { assert BasesTo(o, sizes, n)[k - 1] == BasesTo(o, sizes, n)[..k][k - 1]; }
  }

  /**
    Section k is where it was asked to be; otherwise at the least multiple of its
    alignment, which is 1 if none was asked for, that is not below the end of the
    section before it.
   */
  predicate PlacedRight(bases: map<nat, nat>, ligns: map<nat, nat>, sizes: seq<int>, base: seq<int>, k: nat)
    requires k < |base| <= |sizes|
  {
    var end := if k == 0 then 0 else base[k - 1] + sizes[k - 1];
    var lign := if k in ligns then ligns[k] else 1;
    if k in bases then base[k] == bases[k]
    else if lign == 0 then base[k] == end
    else end <= base[k] < end + lign && base[k] % lign == 0
  }

  lemma {:induction false} BasePlaced(o: Options, sizes: seq<int>, n: nat, k: nat)
    requires k < n <= |sizes| && NonNegative(sizes)
    ensures PlacedRight(o.bases, o.ligns, sizes, BasesTo(o, sizes, n), k)
  {
    var b := BasesTo(o, sizes, n);
    BasesNonNegative(o, sizes, n);
    BaseAt(o, sizes, n, k);
    if k !in o.bases && LignOf(o, k) > 0 { AlignedUp(if k == 0 then 0 else b[k - 1] + sizes[k - 1], LignOf(o, k)); }
  }

  ghost predicate NonNegative(a: seq<int>) {
    forall i :: 0 <= i < |a| ==> a[i] >= 0
  }

  lemma {:induction false} BasesNonNegative(o: Options, sizes: seq<int>, n: nat)
    requires n <= |sizes| && NonNegative(sizes)
    ensures NonNegative(BasesTo(o, sizes, n))
    decreases n
  {
    if n > 0 { BasesNonNegative(o, sizes, n - 1); }
  }

  /** Sections that no -b pins down come after those before them, without overlap. */
  lemma {:induction false} SectionsDisjoint(o: Options, sizes: seq<int>, n: nat, i: nat, j: nat)
    requires i < j < n <= |sizes| && NonNegative(sizes)
    requires forall k :: i < k <= j ==> k !in o.bases
    ensures var b := BasesTo(o, sizes, n); b[i] + sizes[i] <= b[j]
    decreases j
  {
    var b := BasesTo(o, sizes, n);
    BasesNonNegative(o, sizes, n);
    BaseAt(o, sizes, n, j);
    if i < j - 1 { SectionsDisjoint(o, sizes, n, i, j - 1); }
  }

  /** Every section is aligned exactly if the bases that were asked for are. */
  lemma SectionsAligned(o: Options, sizes: seq<int>, n: nat)
    requires n <= |sizes| && NonNegative(sizes)
    ensures BasesAligned(o, n) <==> forall k :: 0 <= k < n && LignOf(o, k) > 0 ==>
        BasesTo(o, sizes, n)[k] % LignOf(o, k) == 0
  {
    var b := BasesTo(o, sizes, n);
    BasesNonNegative(o, sizes, n);
    forall k | 0 <= k < n && LignOf(o, k) > 0 ensures BaseAligned(o, k) <==> b[k] % LignOf(o, k) == 0 {
      BaseAt(o, sizes, n, k);
      if k !in o.bases { AlignedUp(if k == 0 then 0 else b[k - 1] + sizes[k - 1], LignOf(o, k)); }
    }
  }

  lemma AlignedUp(n: nat, lign: nat)
    requires lign > 0
    ensures AlignUp(n, lign) % lign == 0 && n <= AlignUp(n, lign) < n + lign
  {
    RoundUpIs(n, lign);
    if lign == 1 { OneDivides(n); }
  }

  lemma {:induction false} CommonSizeGrows(gs: seq<Name>, i: nat, j: nat, s: int)
    requires i <= j <= |gs| && forall k :: 0 <= k < |gs| ==> (gs[k].com ==> gs[k].valu >= 0)
    ensures CommonSize(gs, i, s) <= CommonSize(gs, j, s)
    ensures i < j && CommonIn(gs[i], s) ==> CommonSize(gs, i, s) + gs[i].valu <= CommonSize(gs, j, s)
    decreases j
  {
    if i < j { CommonSizeGrows(gs, i, j - 1, s); }
  }

  /** Common names get ranges inside their section, after all modules' parts, and apart from each other. */
  lemma CommonsDisjoint(gs: seq<Name>, sizes: seq<int>, i: nat, j: nat)
    requires Placeable(gs, |sizes|) && i < |gs| && j < |gs| && i != j
    requires IsCommon(gs[i]) && IsCommon(gs[j])
    ensures var s, r := gs[i].typ - S_MIN, PlaceCommons(gs, sizes);
      && sizes[s] <= r[i].valu && r[i].valu + gs[i].valu <= FullSizes(gs, sizes)[s]
      && KindOf(r[i]) == Defined
      && (gs[j].typ == gs[i].typ ==> r[i].valu + gs[i].valu <= r[j].valu || r[j].valu + gs[j].valu <= r[i].valu)
  {
    assert NameOk(gs[i], |sizes|) && NameOk(gs[j], |sizes|);
    var s := gs[i].typ - S_MIN;
    forall k | 0 <= k < |gs| ensures gs[k].com ==> gs[k].valu >= 0 { assert NameOk(gs[k], |sizes|); }
    CommonSizeGrows(gs, 0, i, s);
    CommonSizeGrows(gs, i, |gs|, s);
    if i < j { CommonSizeGrows(gs, i, j, s); } else { CommonSizeGrows(gs, j, i, s); }
  }
}
