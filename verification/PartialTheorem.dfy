/**
  The main theorem on partial linking: the whole output of the later link is the
  same, exactly if no entry of the part misses a base.
 */
module PartialTheorem {
  import opened Bytes
  import opened Relocation
  import opened LinkModel
  import opened LinkAppend
  import opened TwoSteps
  import opened PartialModule
  import opened PartialLink

  /** A split within the limits, with nothing defined both in the part and before it. */
  ghost predicate Sound(t: Split) {
    t.Valid() && NSect(t.Flat()) <= MAXSECT && NoCommonDefinition(t.ps, t.qs)
  }

  function StepsOf(t: Split): Steps
    requires NSect(t.qs) <= MAXSECT && NSect(t.Flat()) <= MAXSECT
  {
    Steps(t.PartEnv(), EnvOf(t.o, t.Flat()), t.Part(), t.ps, t.qs)
  }

  // ------------------------------------------------------- one relocation

  lemma EntryLands(t: Split, k: nat, i: nat)
    requires t.Valid() && NSect(t.Flat()) <= MAXSECT && k < |t.qs| && i < |t.qs[k].relos|
    ensures StepsOf(t).Lands(k, t.qs[k].relos[i])
  {
    RewrittenOk(t, k, i);
  }

  lemma StepsValid(t: Split)
    requires t.Valid() && NSect(t.Flat()) <= MAXSECT
    ensures StepsOf(t).Valid()
  {
    forall k | 0 <= k < |t.qs| ensures StepsOf(t).AllLand(k) {
      forall i | 0 <= i < |t.qs[k].relos| ensures StepsOf(t).Lands(k, t.qs[k].relos[i]) { EntryLands(t, k, i); }
    }
  }

  lemma DeltasOf(t: Split, k: nat, i: nat)
    requires Sound(t) && k < |t.qs| && i < |t.qs[k].relos|
    ensures var d, r := StepsOf(t), t.qs[k].relos[i];
      d.FirstPatch(k, r).delta + d.MovedPatch(k, r).delta == d.OncePatch(k, r).delta + Missed(t, t.qs[k], r.nami)
  {
    var r := t.qs[k].relos[i];
    Retarget(t, k, i);
    RewrittenOk(t, k, i);
    OriginAppend(t.ps, t.qs[..k], r.sect);
    PartShape(t);
  }

  /** Does an entry of module k lose nothing that its datum has room for? */
  predicate MissesNone(t: Split, k: nat, i: nat)
    requires NSect(t.Flat()) <= MAXSECT && k < |t.qs| && i < |t.qs[k].relos|
  {
    Wrap(Missed(t, t.qs[k], t.qs[k].relos[i].nami), t.qs[k].relos[i].t.size) == 0
  }

  /** With -n: no datum of the part refers to a name of the part in a section whose base it would miss. */
  ghost predicate NothingMissed(t: Split)
    requires NSect(t.Flat()) <= MAXSECT
  {
    forall k, i :: 0 <= k < |t.qs| && 0 <= i < |t.qs[k].relos| ==> MissesNone(t, k, i)
  }

  lemma ExactIs(t: Split, k: nat, i: nat)
    requires Sound(t) && k < |t.qs| && i < |t.qs[k].relos|
    ensures StepsOf(t).Exact(k, t.qs[k].relos[i]) <==> MissesNone(t, k, i)
  {
    DeltasOf(t, k, i);
    var d, r := StepsOf(t), t.qs[k].relos[i];
    AddsUpBy(d.FirstPatch(k, r), d.MovedPatch(k, r), d.OncePatch(k, r), Missed(t, t.qs[k], r.nami));
  }

  lemma AddsUpBy(p: Patch, q: Patch, r: Patch, missed: int)
    requires p.delta + q.delta == r.delta + missed
    ensures AddsUpAt(p, q, r) <==> Wrap(missed, p.t.size) == 0
  {
    assert p.delta + q.delta - r.delta == missed;
  }

  // ------------------------------------------------------------ the bytes

  /** The part relocated as a module of the later link. */
  lemma PartPatched(t: Split, s: nat)
    requires t.Valid() && NSect(t.Flat()) <= MAXSECT
    ensures var twice, once := PatchedData(EnvOf(t.o, t.Flat()), t.Part(), Origins(t.ps), s),
        ContentFrom(EnvOf(t.o, t.Flat()), t.ps, t.qs, s);
      && |twice| == |once|
      && (twice == once <==> AllExact(StepsOf(t), s))
  {
    StepsValid(t);
    TwoStepsAsOne(StepsOf(t), s);
    PartData(t, s);
    PartShape(t);
  }

  function SectionBytes(t: Split, part: seq<byte>, s: nat): seq<byte>
    requires NSect(t.Flat()) <= MAXSECT
  {
    var env := EnvOf(t.o, t.Flat());
    Append(Append(Content(env, t.ps, s), Origin(t.ps, s), part), Origin(t.ps + t.qs, s),
        ContentFrom(env, t.ps + t.qs, t.ss, s))
  }

  lemma FlatBytes(t: Split, s: nat)
    requires t.Valid() && NSect(t.Flat()) <= MAXSECT
    ensures Content(EnvOf(t.o, t.Flat()), t.Flat(), s)
        == SectionBytes(t, ContentFrom(EnvOf(t.o, t.Flat()), t.ps, t.qs, s), s)
  {
    var env := EnvOf(t.o, t.Flat());
    ContentAppend(env, t.ps, t.qs, s);
    ContentAppend(env, t.ps + t.qs, t.ss, s);
  }

  lemma NestedBytes(t: Split, s: nat)
    requires t.Valid() && NSect(t.Flat()) <= MAXSECT
    ensures Content(EnvOf(t.o, t.Flat()), t.Nested(), s)
        == SectionBytes(t, PatchedData(EnvOf(t.o, t.Flat()), t.Part(), Origins(t.ps), s), s)
  {
    var env := EnvOf(t.o, t.Flat());
    PartWellFormed(t);
    PrefixOrigins(t);
    ContentLast(env, t.ps + [t.Part()], t.ps, t.Part(), s);
    ContentAppend(env, t.ps + [t.Part()], t.ss, s);
    ContentFromSame(env, t.ps + [t.Part()], t.ps + t.qs, t.ss, s);
    assert Origin(t.ps + [t.Part()], s) == Origin(t.ps + t.qs, s) by {
      OriginAppend(t.ps, [t.Part()], s);
      OriginAppend(t.ps, t.qs, s);
      OriginSingle(t.Part(), s);
      PartSize(t, s);
    }
  }

  lemma SectionBytesSame(t: Split, a: seq<byte>, b: seq<byte>, s: nat)
    requires NSect(t.Flat()) <= MAXSECT && |a| == |b|
    ensures SectionBytes(t, a, s) == SectionBytes(t, b, s) <==> a == b
  {
    var env := EnvOf(t.o, t.Flat());
    var before, later := Content(env, t.ps, s), ContentFrom(env, t.ps + t.qs, t.ss, s);
    AppendSame(before, a, before, b, Origin(t.ps, s));
    AppendSame(Append(before, Origin(t.ps, s), a), later, Append(before, Origin(t.ps, s), b), later,
        Origin(t.ps + t.qs, s));
  }

  /** One section of the output. */
  lemma SectionSame(t: Split, s: nat)
    requires t.Valid() && NSect(t.Flat()) <= MAXSECT
    ensures Content(EnvOf(t.o, t.Flat()), t.Nested(), s) == Content(EnvOf(t.o, t.Flat()), t.Flat(), s)
        <==> AllExact(StepsOf(t), s)
  {
    PartPatched(t, s);
    FlatBytes(t, s);
    NestedBytes(t, s);
    SectionBytesSame(t, PatchedData(EnvOf(t.o, t.Flat()), t.Part(), Origins(t.ps), s),
        ContentFrom(EnvOf(t.o, t.Flat()), t.ps, t.qs, s), s);
  }

  lemma ExactEverywhere(t: Split)
    requires Sound(t)
    ensures (forall s :: 0 <= s < NSect(t.Flat()) ==> AllExact(StepsOf(t), s)) <==> NothingMissed(t)
  {
    if NothingMissed(t) {
      forall s | 0 <= s < NSect(t.Flat()) ensures AllExact(StepsOf(t), s) { MissedNowhere(t, s); }
    }
    if forall s :: 0 <= s < NSect(t.Flat()) ==> AllExact(StepsOf(t), s) {
      forall k, i | 0 <= k < |t.qs| && 0 <= i < |t.qs[k].relos| ensures MissesNone(t, k, i) {
        EntrySection(t, k, i);
        assert AllExact(StepsOf(t), t.qs[k].relos[i].sect);
        MissedNotHere(t, k, i);
      }
    }
  }

  lemma MissedNowhere(t: Split, s: nat)
    requires Sound(t) && NothingMissed(t)
    ensures AllExact(StepsOf(t), s)
  {
    var d := StepsOf(t);
    forall k | 0 <= k < |t.qs| ensures ExactOn(d, k, s) {
      forall i | 0 <= i < |EntriesOn(d, k, s)| ensures d.Exact(k, EntriesOn(d, k, s)[i]) {
        var j, _ := OnSectionFrom(t.qs[k].relos, s, i, i);
        assert MissesNone(t, k, j);
        ExactIs(t, k, j);
      }
    }
  }

  lemma EntrySection(t: Split, k: nat, i: nat)
    requires t.Valid() && k < |t.qs| && i < |t.qs[k].relos|
    ensures t.qs[k].relos[i].sect < NSect(t.Flat())
  {
    assert ReloOk(t.qs[k].relos[i], t.qs[k]);
    NSectCovers(t.qs, k);
    NSectAppend(t.ps, t.qs);
    NSectAppend(t.ps + t.qs, t.ss);
  }

  lemma MissedNotHere(t: Split, k: nat, i: nat)
    requires Sound(t) && k < |t.qs| && i < |t.qs[k].relos| && AllExact(StepsOf(t), t.qs[k].relos[i].sect)
    ensures MissesNone(t, k, i)
  {
    var d, r := StepsOf(t), t.qs[k].relos[i];
    OnSectionHas(t.qs[k].relos, r.sect, i);
    assert ExactOn(d, k, r.sect);
    var j :| 0 <= j < |EntriesOn(d, k, r.sect)| && EntriesOn(d, k, r.sect)[j] == r;
    assert d.Exact(k, EntriesOn(d, k, r.sect)[j]);
    ExactIs(t, k, i);
  }

  // ------------------------------------------------- the relocation table

  lemma EntrySame(t: Split, k: nat, i: nat)
    requires Sound(t) && k < |t.qs| && i < |t.qs[k].relos|
    ensures var env, r := EnvOf(t.o, t.Flat()), t.qs[k].relos[i];
      NewRelo(env, t.Part(), Origins(t.ps), Rewritten(t, k, r)) == NewRelo(env, t.qs[k], Origins(t.ps + t.qs[..k]), r)
  {
    Retarget(t, k, i);
    RewrittenOk(t, k, i);
    OriginAppend(t.ps, t.qs[..k], t.qs[k].relos[i].sect);
  }

  lemma ModuleEntriesSame(t: Split, k: nat)
    requires Sound(t) && k < |t.qs|
    ensures NewRelosOf(EnvOf(t.o, t.Flat()), t.Part(), Origins(t.ps),
        NewRelos(t.PartEnv(), t.qs[k], Origins(t.qs[..k])))
         == NewRelos(EnvOf(t.o, t.Flat()), t.qs[k], Origins(t.ps + t.qs[..k]))
  {
    var env := EnvOf(t.o, t.Flat());
    var news := NewRelos(t.PartEnv(), t.qs[k], Origins(t.qs[..k]));
    forall i | 0 <= i < |t.qs[k].relos|
      ensures NewRelo(env, t.Part(), Origins(t.ps), news[i])
          == NewRelo(env, t.qs[k], Origins(t.ps + t.qs[..k]), t.qs[k].relos[i])
    {
      EntrySame(t, k, i);
    }
  }

  lemma OutRelosFromLast(env: Env, pre: seq<Module>, ms: seq<Module>, k: nat)
    requires k < |ms|
    ensures OutRelosFrom(env, pre, ms[..k + 1]) == OutRelosFrom(env, pre, ms[..k])
        + NewRelos(env, ms[k], Origins(pre + ms[..k]))
  {
    PrefixLast(ms, k);
  }

  /** The table of the first k modules of the part, relocated in one step. */
  ghost predicate PrefixEntriesSame(t: Split, k: nat)
    requires NSect(t.qs) <= MAXSECT && NSect(t.Flat()) <= MAXSECT && k <= |t.qs|
  {
    NewRelosOf(EnvOf(t.o, t.Flat()), t.Part(), Origins(t.ps), OutRelos(t.PartEnv(), t.qs[..k]))
        == OutRelosFrom(EnvOf(t.o, t.Flat()), t.ps, t.qs[..k])
  }

  lemma OneMoreSame(t: Split, k: nat)
    requires Sound(t) && k < |t.qs| && PrefixEntriesSame(t, k)
    ensures PrefixEntriesSame(t, k + 1)
  {
    PartRelosLast(t, k);
    OutRelosFromLast(EnvOf(t.o, t.Flat()), t.ps, t.qs, k);
    ModuleEntriesSame(t, k);
    NewRelosAppend(EnvOf(t.o, t.Flat()), t.Part(), Origins(t.ps), OutRelos(t.PartEnv(), t.qs[..k]),
      NewRelos(t.PartEnv(), t.qs[k], Origins(t.qs[..k])));
  }

  lemma {:induction false} PartEntriesSame(t: Split, k: nat)
    requires Sound(t) && k <= |t.qs|
    ensures PrefixEntriesSame(t, k)
    decreases k
  {
    if k > 0 {
      PartEntriesSame(t, k - 1);
      OneMoreSame(t, k - 1);
    }
  }

  lemma PartNewRelos(t: Split)
    requires Sound(t)
    ensures NewRelos(EnvOf(t.o, t.Flat()), t.Part(), Origins(t.ps)) == OutRelosFrom(EnvOf(t.o, t.Flat()), t.ps, t.qs)
  {
    PartEntriesSame(t, |t.qs|);
    PartShape(t);
    assert t.qs[..|t.qs|] == t.qs;
  }

  lemma RelosSame(t: Split)
    requires Sound(t)
    ensures OutRelos(EnvOf(t.o, t.Flat()), t.Nested()) == OutRelos(EnvOf(t.o, t.Flat()), t.Flat())
  {
    var env := EnvOf(t.o, t.Flat());
    OutRelosAppend(env, t.ps, t.qs);
    OutRelosAppend(env, t.ps + t.qs, t.ss);
    OutRelosAppend(env, t.ps + [t.Part()], t.ss);
    OutRelosLast(env, t.ps, t.Part());
    PartNewRelos(t);
    PrefixOrigins(t);
    OutRelosFromSame(env, t.ps + [t.Part()], t.ps + t.qs, t.ss);
  }

  // ------------------------------------------------------- the whole output

  lemma SectionsSame(t: Split)
    requires t.Valid() && NSect(t.Nested()) == NSect(t.Flat()) <= MAXSECT
    ensures OutSections(t.o, t.Nested()) == OutSections(t.o, t.Flat())
      <==> forall s :: 0 <= s < NSect(t.Flat()) ==> AllExact(StepsOf(t), s)
  {
    SameEnv(t);
    SameGlobals(t);
    SameOrigins(t);
    var a, b := OutSections(t.o, t.Nested()), OutSections(t.o, t.Flat());
    forall s | 0 <= s < NSect(t.Flat()) ensures a[s] == b[s] <==> AllExact(StepsOf(t), s) { SectionSame(t, s); }
    assert a == b <==> forall s :: 0 <= s < NSect(t.Flat()) ==> a[s] == b[s];
  }

  /** Everything but the bytes of the sections is always the same. */
  lemma RestSame(t: Split)
    requires Sound(t) && NSect(t.Nested()) <= MAXSECT
    ensures Link(t.o, t.Nested()).(sects := []) == Link(t.o, t.Flat()).(sects := [])
  {
    SameEnv(t);
    SameGlobals(t);
    SameLocals(t);
    RelosSame(t);
  }

  /**
    Partial linking is transparent, exactly if no datum misses a base: the same
    bytes, sizes, bases, names and relocation entries.
   */
  lemma PartialLinkTransparent(t: Split)
    requires Sound(t)
    ensures NSect(t.Nested()) <= MAXSECT
    ensures Link(t.o, t.Nested()) == Link(t.o, t.Flat()) <==> NothingMissed(t)
  {
    SameNSect(t);
    SectionsSame(t);
    ExactEverywhere(t);
    RestSame(t);
    var a, b := Link(t.o, t.Nested()), Link(t.o, t.Flat());
    assert a.sects == OutSections(t.o, t.Nested()) && b.sects == OutSections(t.o, t.Flat());
    assert a == a.(sects := []).(sects := a.sects) && b == b.(sects := []).(sects := b.sects);
  }

  /** Without -n it always is. */
  lemma PartialLinkAlways(t: Split)
    requires Sound(t) && !t.o.nflag
    ensures NSect(t.Nested()) <= MAXSECT
    ensures Link(t.o, t.Nested()) == Link(t.o, t.Flat())
  {
    forall k, i | 0 <= k < |t.qs| && 0 <= i < |t.qs[k].relos| ensures MissesNone(t, k, i) {}
    PartialLinkTransparent(t);
  }
}
