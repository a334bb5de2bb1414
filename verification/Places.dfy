/**
  Where a link puts everything in memory, said of sizes, alignments and bases: the
  parts of the modules follow one another, then the common names, and the sections
  lie as close as their alignments let them.
 */
module Places {
  import opened Bytes
  import opened Names
  import opened LinkModel
  import opened Layout
  import opened FinalAddress

  // ------------------------------------------------------------ the parts

  /** n is the least multiple of the alignment that is not below size; alignments 0 and 1 change nothing. */
  predicate LeastFor(size: nat, lign: nat, n: int) {
    if lign <= 1 then n == size else size <= n < size + lign && n % lign == 0
  }

  /** Each module's part of a section starts where that of the one before it ends. */
  lemma {:induction false} PartsAbut(ms: seq<Module>, k: nat, s: nat)
    requires k < |ms|
    ensures Origin([], s) == 0
    ensures s < |ms[k].sects| ==>
        LeastFor(ms[k].sects[s].size, ms[k].sects[s].lign, Origin(ms[..k + 1], s) - Origin(ms[..k], s))
    ensures s >= |ms[k].sects| ==> Origin(ms[..k + 1], s) == Origin(ms[..k], s)
  {
    UpTo(ms, k);
    WithLast(ms[..k], ms[k]);
    if s < |ms[k].sects| && ms[k].sects[s].lign > 0 { AlignedUp(ms[k].sects[s].size, ms[k].sects[s].lign); }
  }

  // ------------------------------------------------------- the common names

  /** No common name of section s lies between the names i and j. */
  predicate NoneBetween(gs: seq<Name>, i: nat, j: nat, s: int)
    requires i <= j <= |gs|
  {
    forall k :: i <= k < j ==> !CommonIn(gs[k], s)
  }

  lemma {:induction false} NoneAdded(gs: seq<Name>, i: nat, j: nat, s: int)
    requires i <= j <= |gs| && NoneBetween(gs, i, j, s)
    ensures CommonSize(gs, j, s) == CommonSize(gs, i, s)
    decreases j
  {
    if i < j { NoneAdded(gs, i, j - 1, s); }
  }

  /**
    The first common name of a section comes right after the modules' parts, every
    other right after the one before it, and the section ends with the last one; a
    section without common names ends with the modules' parts.
   */
  lemma {:induction false} CommonsAbut(gs: seq<Name>, sizes: seq<int>, i: nat, j: nat, s: nat)
    requires s < |sizes| && i < j <= |gs| && CommonIn(gs[i], s)
    ensures var r, full := PlaceCommons(gs, sizes), FullSizes(gs, sizes);
      && (NoneBetween(gs, 0, i, s) ==> r[i].valu == sizes[s])
      && (j < |gs| && CommonIn(gs[j], s) && NoneBetween(gs, i + 1, j, s) ==> r[j].valu == r[i].valu + gs[i].valu)
      && (NoneBetween(gs, i + 1, |gs|, s) ==> full[s] == r[i].valu + gs[i].valu)
  {
    if NoneBetween(gs, 0, i, s) { NoneAdded(gs, 0, i, s); }
    if NoneBetween(gs, i + 1, j, s) { NoneAdded(gs, i + 1, j, s); }
    if NoneBetween(gs, i + 1, |gs|, s) { NoneAdded(gs, i + 1, |gs|, s); }
  }

  lemma {:induction false} NoCommons(gs: seq<Name>, sizes: seq<int>, s: nat)
    requires s < |sizes| && NoneBetween(gs, 0, |gs|, s)
    ensures FullSizes(gs, sizes)[s] == sizes[s]
  {
    NoneAdded(gs, 0, |gs|, s);
  }

  // ------------------------------------------------------------ the sections

  /** What the output's section table says of bases, sizes and alignments. */
  function BasesIn(sects: seq<OutSection>): (r: seq<int>)
    ensures |r| == |sects| && forall s :: 0 <= s < |r| ==> r[s] == sects[s].base
  {
    seq(|sects|, s requires 0 <= s < |sects| => sects[s].base)
  }

  function SizesIn(sects: seq<OutSection>): (r: seq<int>)
    ensures |r| == |sects| && forall s :: 0 <= s < |r| ==> r[s] == sects[s].size
  {
    seq(|sects|, s requires 0 <= s < |sects| => sects[s].size)
  }

  /** The section table of a link that is not relocatable. */
  lemma {:induction false} TableIs(o: Options, ms: seq<Module>, full: seq<int>, k: nat)
    requires NSect(ms) <= MAXSECT && !Relocatable(o, Globals(ms)) && k < NSect(ms)
    requires full == FullSizes(Globals(ms), Origins(ms))
    ensures OutSections(o, ms)[k].base == BasesTo(o, full, NSect(ms))[k]
    ensures OutSections(o, ms)[k].size == full[k]
    ensures OutSections(o, ms)[k].lign == if k in o.ligns then o.ligns[k] else 1
  {
  }

  lemma PlacedSame(o: Options, full: seq<int>, base: seq<int>, sects: seq<OutSection>, k: nat)
    requires k < |sects| == |base| <= |full| && PlacedRight(o.bases, o.ligns, full, base, k)
    requires sects[k].base == base[k]
    requires k > 0 ==> sects[k - 1].base == base[k - 1] && sects[k - 1].size == full[k - 1]
    ensures PlacedRight(o.bases, o.ligns, SizesIn(sects), BasesIn(sects), k)
  {
  }

  /** A link places every section by the sizes that its section table has; a relocatable one has no bases. */
  lemma {:induction false} SectionsPlaced(o: Options, ms: seq<Module>, s: nat)
    requires AllWellFormed(ms) && NSect(ms) <= MAXSECT && s < NSect(ms)
    ensures var sects := Link(o, ms).sects;
      if Relocatable(o, Globals(ms))
      then sects[s].base == 0 && sects[s].size == Origin(ms, s) && sects[s].lign == 0
      else
        && PlacedRight(o.bases, o.ligns, SizesIn(sects), BasesIn(sects), s)
        && sects[s].size == FullSizes(Globals(ms), Origins(ms))[s]
        && sects[s].lign == if s in o.ligns then o.ligns[s] else 1
  {
    if !Relocatable(o, Globals(ms)) {
      var full, n := FullSizes(Globals(ms), Origins(ms)), NSect(ms);
      FullNatural(ms);
      BasePlaced(o, full, n, s);
      TableIs(o, ms, full, s);
      if s > 0 { TableIs(o, ms, full, s - 1); }
      PlacedSame(o, full, BasesTo(o, full, n), OutSections(o, ms), s);
    }
  }

  /** With no options at all, the sections follow one another from 0 on. */
  lemma {:induction false} SectionsAbut(o: Options, ms: seq<Module>, s: nat)
    requires AllWellFormed(ms) && NSect(ms) <= MAXSECT && s < NSect(ms) && !Relocatable(o, Globals(ms))
    requires s !in o.bases && s !in o.ligns
    ensures var sects := Link(o, ms).sects;
      sects[s].base == if s == 0 then 0 else sects[s - 1].base + sects[s - 1].size
  {
    SectionsPlaced(o, ms, s);
  }
}
