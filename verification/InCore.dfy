/**
  Everything in core: the first pass grows a piece per section (putemitindex in
  Ack-5.5/ld/scan.c), the second changes the pieces and the relocation table in
  place (handle_relos in Ack-5.5/ld/finish.c).
 */
module InCore {
  import opened Bytes
  import opened Relocation
  import opened LinkModel
  import opened LinkAppend
  import opened TwoSteps
  import opened Strategies
  import opened Pieces
  import opened Relocating

  // ------------------------------------------------- between raw and linked

  /** Section s when the first k modules have been relocated. */
  function Half(env: Env, ms: seq<Module>, k: nat, s: nat): seq<byte> {
    if |ms| == 0 then []
    else
      var init, last := ms[..|ms| - 1], ms[|ms| - 1];
      Append(Half(env, init, k, s), Origin(init, s),
          if |init| < k then PatchedData(env, last, Origins(init), s) else DataOf(last, s))
  }

  lemma {:induction false} HalfRaw(env: Env, ms: seq<Module>, s: nat)
    ensures Half(env, ms, 0, s) == Raw(ms, s)
    decreases |ms|
  {
    if |ms| > 0 { HalfRaw(env, ms[..|ms| - 1], s); }
  }

  lemma {:induction false} HalfContent(env: Env, ms: seq<Module>, k: nat, s: nat)
    requires k >= |ms|
    ensures Half(env, ms, k, s) == Content(env, ms, s)
    decreases |ms|
  {
    if |ms| > 0 { HalfContent(env, ms[..|ms| - 1], k, s); }
  }

  lemma {:induction false} HalfBound(env: Env, ms: seq<Module>, k: nat, s: nat)
    requires AllWellFormed(ms)
    ensures |Half(env, ms, k, s)| <= Origin(ms, s)
    decreases |ms|
  {
    if |ms| > 0 { HalfBound(env, ms[..|ms| - 1], k, s); }
  }

  lemma {:induction false} HalfBefore(env: Env, ms: seq<Module>, k: nat, s: nat)
    requires k >= |ms|
    ensures Half(env, ms, k, s) == Half(env, ms, k + 1, s)
    decreases |ms|
  {
    if |ms| > 0 { HalfBefore(env, ms[..|ms| - 1], k, s); }
  }

  /** The changes to module k's part of section s, where that part is. */
  function Moved(env: Env, ms: seq<Module>, k: nat, i: nat, s: nat): seq<Patch>
    requires k < |ms| && i <= |ms[k].relos|
  {
    ShiftAll(PatchesOn(env, ms[k], Origins(ms[..k]), ms[k].relos[..i], s), Origin(ms[..k], s))
  }

  lemma {:induction false} OnSectionPrefix(rs: seq<Relo>, i: nat, s: nat)
    requires i <= |rs|
    ensures |OnSection(rs[..i], s)| <= |OnSection(rs, s)|
        && OnSection(rs[..i], s) == OnSection(rs, s)[..|OnSection(rs[..i], s)|]
  {
    assert rs == rs[..i] + rs[i..];
    OnSectionAppend(rs[..i], rs[i..], s);
  }

  lemma PrefixWithin(env: Env, m: Module, origin: seq<int>, i: nat, s: nat)
    requires WellFormed(m) && i <= |m.relos|
    ensures AllWithin(PatchesOn(env, m, origin, m.relos[..i], s), |DataOf(m, s)|)
  {
    PatchesWithin(env, m, origin, s);
    OnSectionPrefix(m.relos, i, s);
    var ps, all := PatchesOn(env, m, origin, m.relos[..i], s), PatchesOn(env, m, origin, m.relos, s);
    forall j | 0 <= j < |ps| ensures ps[j].Within(|DataOf(m, s)|) { assert ps[j] == all[j]; }
  }

  lemma ShiftedWithin(ps: seq<Patch>, n: nat, len: int, all: int)
    requires AllWithin(ps, len) && (len > 0 ==> n + len <= all)
    ensures AllWithin(ShiftAll(ps, n), all)
  {
    forall j | 0 <= j < |ps| ensures ShiftAll(ps, n)[j].Within(all) { assert ps[j].Within(len); }
  }

  /** There is room for module k's part in the section. */
  lemma {:induction false} PartFits(env: Env, ms: seq<Module>, k: nat, h: nat, s: nat)
    requires k < |ms|
    ensures |DataOf(ms[k], s)| > 0 ==> Origin(ms[..k], s) + |DataOf(ms[k], s)| <= |Half(env, ms, h, s)|
    decreases |ms|
  {
    var init := ms[..|ms| - 1];
    if k < |init| {
      PartFits(env, init, k, h, s);
      assert init[..k] == ms[..k];
    } else {
      assert init == ms[..k];
    }
  }

  lemma MovedWithin(env: Env, ms: seq<Module>, k: nat, i: nat, s: nat)
    requires AllWellFormed(ms) && k < |ms| && i <= |ms[k].relos|
    ensures AllWithin(Moved(env, ms, k, i, s), |Half(env, ms, k, s)|)
  {
    PrefixWithin(env, ms[k], Origins(ms[..k]), i, s);
    PartFits(env, ms, k, k, s);
    ShiftedWithin(PatchesOn(env, ms[k], Origins(ms[..k]), ms[k].relos[..i], s), Origin(ms[..k], s),
        |DataOf(ms[k], s)|, |Half(env, ms, k, s)|);
  }

  lemma ApplyAllAppendLater(a: seq<byte>, n: nat, b: seq<byte>, ps: seq<Patch>)
    requires AllWithin(ps, |a|)
    ensures AllWithin(ps, |Append(a, n, b)|) && ApplyAll(Append(a, n, b), ps) == Append(ApplyAll(a, ps), n, b)
  {
    if |b| > 0 {
      ApplyAllPad(a, n, ps);
      ApplyAllLeft(Pad(a, n), b, ps);
    }
  }

  lemma ApplyAllAppendLast(a: seq<byte>, n: nat, b: seq<byte>, qs: seq<Patch>)
    requires |a| <= n && AllWithin(qs, |b|)
    ensures AllWithin(ShiftAll(qs, n), |Append(a, n, b)|)
    ensures ApplyAll(Append(a, n, b), ShiftAll(qs, n)) == Append(a, n, ApplyAll(b, qs))
  {
    if |b| == 0 { NothingToChange(qs); }
    ApplyAllAppended(a, n, b, [], qs);
    assert [] + ShiftAll(qs, n) == ShiftAll(qs, n);
  }

  /** Changing module k's part in place moves on to the next module. */
  lemma {:induction false} HalfNext(env: Env, ms: seq<Module>, k: nat, s: nat)
    requires AllWellFormed(ms) && k < |ms|
    ensures HalfDone(env, ms, k, s)
    decreases |ms|
  {
    var init, last := ms[..|ms| - 1], ms[|ms| - 1];
    assert ms == init + [last];
    if k < |init| {
      HalfNext(env, init, k, s);
      HalfEarlier(env, init, last, k, s);
    } else {
      HalfLast(env, init, last, s);
    }
  }

  /** The changes of all entries of module k make the next half of section s. */
  ghost predicate HalfDone(env: Env, ms: seq<Module>, k: nat, s: nat)
    requires k < |ms|
  {
    && AllWithin(Moved(env, ms, k, |ms[k].relos|, s), |Half(env, ms, k, s)|)
    && ApplyAll(Half(env, ms, k, s), Moved(env, ms, k, |ms[k].relos|, s)) == Half(env, ms, k + 1, s)
  }

  lemma {:induction false} HalfEarlier(env: Env, init: seq<Module>, last: Module, k: nat, s: nat)
    requires k < |init| && HalfDone(env, init, k, s)
    ensures HalfDone(env, init + [last], k, s)
  {
    var ms := init + [last];
    assert init[..k] == ms[..k] && ms[..|ms| - 1] == init;
    ApplyAllAppendLater(Half(env, init, k, s), Origin(init, s), DataOf(last, s),
        Moved(env, init, k, |init[k].relos|, s));
  }

  lemma {:induction false} HalfLast(env: Env, init: seq<Module>, last: Module, s: nat)
    requires AllWellFormed(init) && WellFormed(last)
    ensures HalfDone(env, init + [last], |init|, s)
  {
    var k, ms := |init|, init + [last];
    assert ms[..k] == init && ms[..|ms| - 1] == init;
    assert last.relos[..|last.relos|] == last.relos;
    HalfBefore(env, init, k, s);
    HalfBound(env, init, k, s);
    PatchesWithin(env, last, Origins(init), s);
    ApplyAllAppendLast(Half(env, init, k, s), Origin(init, s), DataOf(last, s),
        PatchesOn(env, last, Origins(init), last.relos, s));
  }

  /** Section s when i entries of module k have been handled as well. */
  function Progress(env: Env, ms: seq<Module>, k: nat, i: nat, s: nat): (b: seq<byte>)
    requires k < |ms| && i <= |ms[k].relos|
    ensures |b| == |Half(env, ms, k, s)|
  {
    var b, ps := Half(env, ms, k, s), Moved(env, ms, k, i, s);
    if AllWithin(ps, |b|) then ApplyAll(b, ps) else b
  }

  lemma ProgressStart(env: Env, ms: seq<Module>, k: nat, s: nat)
    requires k < |ms|
    ensures Progress(env, ms, k, 0, s) == Half(env, ms, k, s)
  {
    assert ms[k].relos[..0] == [];
  }

  lemma ProgressEnd(env: Env, ms: seq<Module>, k: nat, s: nat)
    requires AllWellFormed(ms) && k < |ms|
    ensures Progress(env, ms, k, |ms[k].relos|, s) == Half(env, ms, k + 1, s)
  {
    HalfNext(env, ms, k, s);
  }

  lemma MovedNext(env: Env, ms: seq<Module>, k: nat, i: nat, s: nat)
    requires k < |ms| && i < |ms[k].relos|
    ensures Moved(env, ms, k, i + 1, s) ==
      if ms[k].relos[i].sect == s
      then Moved(env, ms, k, i, s) + [Shift(PatchOf(env, ms[k], Origins(ms[..k]), ms[k].relos[i]), Origin(ms[..k], s))]
      else Moved(env, ms, k, i, s)
  {
    PrefixLast(ms[k].relos, i);
  }

  lemma ProgressNext(env: Env, ms: seq<Module>, k: nat, i: nat, s: nat)
    requires AllWellFormed(ms) && k < |ms| && i < |ms[k].relos|
    ensures ms[k].relos[i].sect != s ==> Progress(env, ms, k, i + 1, s) == Progress(env, ms, k, i, s)
    ensures ms[k].relos[i].sect == s ==>
      var p := Shift(PatchOf(env, ms[k], Origins(ms[..k]), ms[k].relos[i]), Origin(ms[..k], s));
      p.Within(|Progress(env, ms, k, i, s)|) && Progress(env, ms, k, i + 1, s) == Apply(Progress(env, ms, k, i, s), p)
  {
    MovedNext(env, ms, k, i, s);
    MovedWithin(env, ms, k, i, s);
    MovedWithin(env, ms, k, i + 1, s);
    if ms[k].relos[i].sect == s {
      var ps, p := Moved(env, ms, k, i, s),
          Shift(PatchOf(env, ms[k], Origins(ms[..k]), ms[k].relos[i]), Origin(ms[..k], s));
      assert (ps + [p])[|ps|] == p;
      ApplyAllLast(Half(env, ms, k, s), ps, p);
    }
  }

  // ----------------------------------------------------- relocation entries

  function AllRelos(ms: seq<Module>): seq<Relo> {
    if |ms| == 0 then [] else AllRelos(ms[..|ms| - 1]) + ms[|ms| - 1].relos
  }

  lemma {:induction false} AllRelosLength(env: Env, ms: seq<Module>)
    ensures |OutRelos(env, ms)| == |AllRelos(ms)|
    decreases |ms|
  {
    if |ms| > 0 { AllRelosLength(env, ms[..|ms| - 1]); }
  }

  lemma {:induction false} AllRelosAt(ms: seq<Module>, k: nat)
    requires k < |ms|
    ensures |AllRelos(ms[..k])| + |ms[k].relos| <= |AllRelos(ms)|
    ensures AllRelos(ms)[|AllRelos(ms[..k])|..|AllRelos(ms[..k])| + |ms[k].relos|] == ms[k].relos
    decreases |ms|
  {
    var init := ms[..|ms| - 1];
    if k < |init| {
      AllRelosAt(init, k);
      assert init[..k] == ms[..k];
      var n := |AllRelos(ms[..k])|;
      SliceOfPrefix(AllRelos(init), ms[|ms| - 1].relos, n, n + |ms[k].relos|);
    } else {
      assert init == ms[..k];
    }
  }

  lemma SliceOfPrefix<T>(a: seq<T>, b: seq<T>, i: nat, j: nat)
    requires i <= j <= |a|
    ensures (a + b)[i..j] == a[i..j]
  {
  }

  /** The table when i entries of module k have been rewritten. */
  function Table(env: Env, ms: seq<Module>, k: nat, i: nat): seq<Relo>
    requires k < |ms| && i <= |ms[k].relos|
  {
    var n := |AllRelos(ms[..k])| + i;
    OutRelos(env, ms[..k]) + NewRelosOf(env, ms[k], Origins(ms[..k]), ms[k].relos[..i])
    + if n <= |AllRelos(ms)| then AllRelos(ms)[n..] else []
  }

  lemma TableNext(env: Env, ms: seq<Module>, k: nat, i: nat)
    requires k < |ms| && i < |ms[k].relos|
    ensures var n := |AllRelos(ms[..k])| + i;
      && n < |Table(env, ms, k, i)|
      && Table(env, ms, k, i)[n] == ms[k].relos[i]
      && Table(env, ms, k, i + 1) == Table(env, ms, k, i)[n := NewRelo(env, ms[k], Origins(ms[..k]), ms[k].relos[i])]
  {
    var n := |AllRelos(ms[..k])| + i;
    AllRelosLength(env, ms[..k]);
    AllRelosAt(ms, k);
    assert AllRelos(ms)[n] == ms[k].relos[i] by {
      assert AllRelos(ms)[|AllRelos(ms[..k])|..|AllRelos(ms[..k])| + |ms[k].relos|][i] == ms[k].relos[i];
    }
    var head := OutRelos(env, ms[..k]);
    var x := NewRelo(env, ms[k], Origins(ms[..k]), ms[k].relos[i]);
    assert NewRelosOf(env, ms[k], Origins(ms[..k]), ms[k].relos[..i + 1])
        == NewRelosOf(env, ms[k], Origins(ms[..k]), ms[k].relos[..i]) + [x];
    UpdateMiddle(head + NewRelosOf(env, ms[k], Origins(ms[..k]), ms[k].relos[..i]), AllRelos(ms), n, x);
    Associate(head, NewRelosOf(env, ms[k], Origins(ms[..k]), ms[k].relos[..i]), [x]);
  }

  lemma UpdateMiddle<T>(a: seq<T>, b: seq<T>, n: nat, x: T)
    requires |a| == n < |b|
    ensures (a + b[n..])[n := x] == a + [x] + b[n + 1..]
  {
  }

  lemma TableEnd(env: Env, ms: seq<Module>, k: nat)
    requires k < |ms|
    ensures k + 1 < |ms| ==> Table(env, ms, k, |ms[k].relos|) == Table(env, ms, k + 1, 0)
    ensures k + 1 == |ms| ==> Table(env, ms, k, |ms[k].relos|) == OutRelos(env, ms)
  {
    PrefixLast(ms, k);
    var head := OutRelos(env, ms[..k + 1]);
    var n := |AllRelos(ms[..k])| + |ms[k].relos|;
    assert ms[k].relos[..|ms[k].relos|] == ms[k].relos;
    assert |AllRelos(ms[..k + 1])| == n;
    AllRelosAt(ms, k);
    assert Table(env, ms, k, |ms[k].relos|) == head + AllRelos(ms)[n..];
    if k + 1 < |ms| {
      assert ms[k + 1].relos[..0] == [];
      assert NewRelosOf(env, ms[k + 1], Origins(ms[..k + 1]), []) == [];
      assert head + [] == head;
    } else {
      assert ms[..k + 1] == ms;
      assert AllRelos(ms)[n..] == [];
      assert head + [] == head;
    }
  }

  lemma TableStart(env: Env, ms: seq<Module>)
    requires |ms| > 0
    ensures Table(env, ms, 0, 0) == AllRelos(ms)
  {
    assert ms[..0] == [] && ms[0].relos[..0] == [];
  }

  // --------------------------------------------------------- the first pass

  /** Does `own` say where module k's parts are, as far as they have bytes? */
  ghost predicate Indexes(ms: seq<Module>, own: seq<nat>, k: nat)
    requires k < |ms|
  {
    && |own| == |ms[k].sects|
    && forall s :: 0 <= s < |own| && |ms[k].sects[s].data| > 0 ==> own[s] == Origin(ms[..k], s)
  }

  lemma IndexesKept(ms: seq<Module>, m: Module, own: seq<nat>, k: nat)
    requires k < |ms| && Indexes(ms, own, k)
    ensures Indexes(ms + [m], own, k)
  {
    assert (ms + [m])[..k] == ms[..k];
  }

  ghost predicate AllIndexed(ms: seq<Module>, index: seq<seq<nat>>, reloindex: seq<nat>) {
    && |index| == |reloindex| == |ms|
    && (forall k :: 0 <= k < |ms| ==> Indexes(ms, index[k], k))
    && forall k :: 0 <= k < |ms| ==> reloindex[k] == |AllRelos(ms[..k])|
  }

  /** Does `own` say where m's first parts go? */
  ghost predicate IndexesNew(ms: seq<Module>, m: Module, own: seq<nat>) {
    && |own| <= |m.sects|
    && forall s :: 0 <= s < |own| && |m.sects[s].data| > 0 ==> own[s] == Origin(ms, s)
  }

  lemma AllIndexedNext(ms: seq<Module>, m: Module, index: seq<seq<nat>>, reloindex: seq<nat>, own: seq<nat>)
    requires AllIndexed(ms, index, reloindex) && |own| == |m.sects| && IndexesNew(ms, m, own)
    ensures AllIndexed(ms + [m], index + [own], reloindex + [|AllRelos(ms)|])
  {
    forall k | 0 <= k < |ms + [m]|
      ensures Indexes(ms + [m], (index + [own])[k], k)
          && (reloindex + [|AllRelos(ms)|])[k] == |AllRelos((ms + [m])[..k])|
    {
      if k < |ms| {
        IndexesKept(ms, m, index[k], k);
        assert (ms + [m])[..k] == ms[..k];
      } else {
        assert (ms + [m])[..k] == ms;
      }
    }
  }

  // -------------------------------------------------------- the second pass

  /** All sections when k modules have been relocated. */
  function Halves(env: Env, ms: seq<Module>, k: nat): (r: seq<seq<byte>>)
    ensures |r| == MAXSECT && forall s :: 0 <= s < MAXSECT ==> r[s] == Half(env, ms, k, s)
  {
    seq(MAXSECT, s requires 0 <= s < MAXSECT => Half(env, ms, k, s))
  }

  function Progresses(env: Env, ms: seq<Module>, k: nat, i: nat): (r: seq<seq<byte>>)
    requires k < |ms| && i <= |ms[k].relos|
    ensures |r| == MAXSECT && forall s :: 0 <= s < MAXSECT ==> r[s] == Progress(env, ms, k, i, s)
  {
    seq(MAXSECT, s requires 0 <= s < MAXSECT => Progress(env, ms, k, i, s))
  }

  lemma ProgressesStart(env: Env, ms: seq<Module>, k: nat)
    requires k < |ms|
    ensures Progresses(env, ms, k, 0) == Halves(env, ms, k)
  {
    forall s | 0 <= s < MAXSECT ensures Progress(env, ms, k, 0, s) == Half(env, ms, k, s) {
      ProgressStart(env, ms, k, s);
    }
  }

  lemma ProgressesEnd(env: Env, ms: seq<Module>, k: nat)
    requires AllWellFormed(ms) && k < |ms|
    ensures Progresses(env, ms, k, |ms[k].relos|) == Halves(env, ms, k + 1)
  {
    forall s | 0 <= s < MAXSECT ensures Progresses(env, ms, k, |ms[k].relos|)[s] == Halves(env, ms, k + 1)[s] {
      ProgressEnd(env, ms, k, s);
    }
  }

  /** The change that entry i of module k makes to its section's piece. */
  function Change(env: Env, ms: seq<Module>, k: nat, i: nat): Patch
    requires k < |ms| && i < |ms[k].relos|
  {
    Shift(PatchOf(env, ms[k], Origins(ms[..k]), ms[k].relos[i]), Origin(ms[..k], ms[k].relos[i].sect))
  }

  lemma ProgressesNext(env: Env, ms: seq<Module>, k: nat, i: nat)
    requires AllWellFormed(ms) && k < |ms| && i < |ms[k].relos|
    ensures var sect, before := ms[k].relos[i].sect, Progresses(env, ms, k, i);
      && sect < MAXSECT && Change(env, ms, k, i).Within(|before[sect]|)
      && Progresses(env, ms, k, i + 1) == before[sect := Apply(before[sect], Change(env, ms, k, i))]
  {
    assert ReloOk(ms[k].relos[i], ms[k]);
    var sect, before := ms[k].relos[i].sect, Progresses(env, ms, k, i);
    ProgressNext(env, ms, k, i, sect);
    var after := before[sect := Apply(before[sect], Change(env, ms, k, i))];
    forall s | 0 <= s < MAXSECT ensures Progresses(env, ms, k, i + 1)[s] == after[s] { ProgressNext(env, ms, k, i, s); }
  }

  // ------------------------------------------------------------- the passes

  class Linker {
    var ms: seq<Module>
    var grown: seq<seq<byte>>
    var zeros: seq<nat>
    var index: seq<seq<nat>>
    var reloindex: seq<nat>
    var relos: seq<Relo>
    var origin: seq<int>
    var emit: seq<array<byte>>

    /** The state in the first pass. */
    ghost predicate Scanned()
      reads this
    {
      AllWellFormed(ms) && AllHold(None, ms, grown, zeros) && AllIndexed(ms, index, reloindex) && relos == AllRelos(ms)
    }

    constructor ()
      ensures Scanned() && ms == []
    {
      ms, index, reloindex, relos, emit := [], [], [], [], [];
      grown := seq(MAXSECT, _ => []);
      zeros := seq(MAXSECT, _ => 0);
      origin := Zeroes(MAXSECT);
    }

    /** The source's putemitindex, and reading the bytes. */
    method PutEmitIndex(m: Module, s: nat) returns (at: nat)
      requires s < |grown| == |zeros| && s < |m.sects| && |m.sects[s].data| <= m.sects[s].size
      modifies this`grown, this`zeros
      ensures |grown| == |zeros| == |old(grown)| && grown == old(grown)[s := grown[s]]
          && zeros == old(zeros)[s := zeros[s]]
      ensures PutAt(None, ms, m, s, old(grown[s]), old(zeros[s]), grown[s], zeros[s])
      ensures |m.sects[s].data| > 0 ==> at == |old(grown[s])| + old(zeros[s])
    {
      var size, data := SizeOf(m, s), m.sects[s].data;
      var flen, zero, piece := |data|, zeros[s], grown[s];
      if flen > 0 && zero > 0 {
        while zero > 0
          invariant 0 <= zero <= zeros[s]
          invariant piece == grown[s] + Zeros(zeros[s] - zero)
        {
          piece := piece + [0];
          zero := zero - 1;
        }
      }
      zero := zero + size - flen;
      zeros := zeros[s := zero];
      at := |piece|;
      piece := piece + data;
      grown := grown[s := piece];
    }

    method PutEmitIndices(m: Module) returns (own: seq<nat>)
      requires AllHold(None, ms, grown, zeros) && WellFormed(m)
      modifies this`grown, this`zeros
      ensures AllHold(None, ms + [m], grown, zeros) && |own| == |m.sects| && IndexesNew(ms, m, own)
    {
      own := [];
      var s := 0;
      while s < |m.sects|
        invariant 0 <= s <= |m.sects| <= MAXSECT && |own| == s
        invariant HoldUpTo(None, ms, m, s, grown, zeros) && IndexesNew(ms, m, own)
      {
        ghost var pieces, owed := grown, zeros;
        assert PieceOk(None, ms, pieces[s], owed[s], s);
        var at := PutEmitIndex(m, s);
        HoldUpToNext(None, ms, m, s, pieces, owed, grown[s], zeros[s]);
        own := own + [at];
        s := s + 1;
      }
      HoldUpToAll(None, ms, m, grown, zeros);
    }

    /** Read one more module. */
    method Scan(m: Module)
      requires Scanned() && WellFormed(m)
      modifies this
      ensures Scanned() && ms == old(ms) + [m]
      ensures emit == old(emit) && origin == old(origin)
    {
      var own := PutEmitIndices(m);
      WellFormedLast(ms, m);
      AllIndexedNext(ms, m, index, reloindex, own);
      AllRelosLast(ms, m);
      reloindex := reloindex + [|relos|];
      relos := relos + m.relos;
      index := index + [own];
      ms := ms + [m];
    }

    /** The sections' bytes in the second pass. */
    ghost function Sections(): (r: seq<seq<byte>>)
      reads this, emit
      ensures |r| == |emit| && forall s :: 0 <= s < |emit| ==> r[s] == emit[s][..]
    {
      seq(|emit|, s requires 0 <= s < |emit| reads this, emit => emit[s][..])
    }

    ghost predicate Distinct()
      reads this
    {
      |emit| == MAXSECT && forall s, t :: 0 <= s < t < |emit| ==> emit[s] != emit[t]
    }

    /** The state in the second pass, when k modules have been finished. */
    ghost predicate Linked(env: Env, k: nat)
      reads this, emit
    {
      && AllWellFormed(ms) && AllIndexed(ms, index, reloindex)
      && k <= |ms|
      && relos == (if k < |ms| then Table(env, ms, k, 0) else OutRelos(env, ms))
      && origin == Origins(ms[..k])
      && Distinct() && Sections() == Halves(env, ms, k)
    }

    /** The pieces keep their place from here on. */
    method FixPieces()
      requires |grown| == MAXSECT
      modifies this`emit
      ensures Distinct() && fresh(emit) && Sections() == grown
    {
      emit := [];
      var s := 0;
      while s < MAXSECT
        invariant 0 <= s <= MAXSECT && |emit| == s
        invariant fresh(emit)
        invariant forall i, j :: 0 <= i < j < s ==> emit[i] != emit[j]
        invariant forall j :: 0 <= j < s ==> emit[j][..] == grown[j]
      {
        var piece := grown[s];
        var a := new byte[|piece|](i requires 0 <= i < |piece| => piece[i]);
        assert a[..] == piece;
        emit := emit + [a];
        s := s + 1;
      }
    }

    method BeginSecondPass(env: Env)
      requires Scanned()
      modifies this
      ensures Linked(env, 0) && ms == old(ms) && fresh(emit)
    {
      FixPieces();
      origin := Zeroes(MAXSECT);
      RawHalves(env, ms, grown, zeros);
      if |ms| > 0 { TableStart(env, ms); }
      NothingPlaced(ms);
    }

    /** Relocate one entry in the piece of its section. */
    method RelocateIn(env: Env, m: Module, at: nat, r: Relo) returns (r': Relo)
      requires Distinct() && r.sect < MAXSECT && Shift(PatchOf(env, m, origin, r), at).Within(|Sections()[r.sect]|)
      modifies emit
      ensures Sections() == old(Sections())[r.sect := Apply(old(Sections())[r.sect],
          Shift(PatchOf(env, m, origin, r), at))]
      ensures r' == NewRelo(env, m, origin, r)
    {
      r' := Relocate(env, m, origin, emit[r.sect], at, r, 0);
    }

    /** The state when i entries of module k have been handled. */
    ghost predicate Handled(env: Env, k: nat, i: nat)
      reads this, emit
    {
      && k < |ms| && i <= |ms[k].relos|
      && AllWellFormed(ms) && AllIndexed(ms, index, reloindex)
      && origin == Origins(ms[..k]) && relos == Table(env, ms, k, i)
      && Distinct() && Sections() == Progresses(env, ms, k, i)
    }

    /** handle_relos for the entry i of module k. */
    method HandleRelo(env: Env, k: nat, i: nat)
      requires Handled(env, k, i) && i < |ms[k].relos|
      modifies this`relos, emit
      ensures Handled(env, k, i + 1)
    {
      TableNext(env, ms, k, i);
      var walk := reloindex[k] + i;
      var r := relos[walk];
      EntryPlace(ms, k, i, index[k]);
      var at := index[k][r.sect];
      RelocatedNext(env, ms, k, i, origin, at, r);
      ghost var before := Sections();
      assert before == Progresses(env, ms, k, i);
      var r' := RelocateIn(env, ms[k], at, r);
      relos := relos[walk := r'];
    }

    /** handle_relos for module k. */
    method HandleRelos(env: Env, k: nat)
      requires Handled(env, k, 0)
      modifies this`relos, emit
      ensures Handled(env, k, |ms[k].relos|)
    {
      var i := 0;
      while i < |ms[k].relos|
        invariant 0 <= i <= |ms[k].relos| && Handled(env, k, i)
      {
        HandleRelo(env, k, i);
        i := i + 1;
      }
    }

    /** The source's finish for module k. */
    method Finish(env: Env, k: nat)
      requires Linked(env, k) && k < |ms|
      modifies this`relos, this`origin, emit
      ensures Linked(env, k + 1)
      ensures ms == old(ms) && emit == old(emit)
    {
      ProgressesStart(env, ms, k);
      HandleRelos(env, k);
      TableEnd(env, ms, k);
      ProgressesEnd(env, ms, k);
      ComputeOrigins(k);
    }

    /** The source's compute_origins. */
    method ComputeOrigins(k: nat)
      requires k < |ms| && |ms[k].sects| <= MAXSECT && origin == Origins(ms[..k])
      modifies this`origin
      ensures origin == Origins(ms[..k + 1])
    {
      var m := ms[k];
      var s := 0;
      while s < |m.sects|
        invariant 0 <= s <= |m.sects| && |origin| == MAXSECT
        invariant forall j :: 0 <= j < MAXSECT ==> origin[j] == Origin(ms[..k], j) + if j < s then SizeOf(m, j) else 0
      {
        origin := origin[s := origin[s] + SizeOf(m, s)];
        s := s + 1;
      }
      PrefixLast(ms, k);
      forall j | 0 <= j < MAXSECT ensures origin[j] == Origins(ms[..k + 1])[j] {}
    }
  }

  lemma WellFormedLast(ms: seq<Module>, m: Module)
    requires AllWellFormed(ms) && WellFormed(m)
    ensures AllWellFormed(ms + [m])
  {
  }

  lemma AllRelosLast(ms: seq<Module>, m: Module)
    ensures AllRelos(ms + [m]) == AllRelos(ms) + m.relos
  {
    assert (ms + [m])[..|ms + [m]| - 1] == ms;
  }

  lemma RawHalves(env: Env, ms: seq<Module>, pieces: seq<seq<byte>>, zeros: seq<nat>)
    requires AllHold(None, ms, pieces, zeros)
    ensures pieces == Halves(env, ms, 0)
  {
    forall s | 0 <= s < MAXSECT ensures pieces[s] == Half(env, ms, 0, s) {
      HalfRaw(env, ms, s);
      assert PieceOk(None, ms, pieces[s], zeros[s], s);
    }
  }

  lemma NothingPlaced(ms: seq<Module>)
    ensures Zeroes(MAXSECT) == Origins(ms[..0])
  {
  }

  /** An entry's section has bytes, so that its index is its origin. */
  lemma EntryPlace(ms: seq<Module>, k: nat, i: nat, own: seq<nat>)
    requires AllWellFormed(ms) && k < |ms| && i < |ms[k].relos| && Indexes(ms, own, k)
    ensures var r := ms[k].relos[i]; r.t.Legal() && r.sect < |own| && own[r.sect] == Origin(ms[..k], r.sect)
  {
    assert ReloOk(ms[k].relos[i], ms[k]);
  }

  lemma RelocatedNext(env: Env, ms: seq<Module>, k: nat, i: nat, origin: seq<int>, at: nat, r: Relo)
    requires AllWellFormed(ms) && k < |ms| && i < |ms[k].relos|
    requires origin == Origins(ms[..k]) && r == ms[k].relos[i] && at == Origin(ms[..k], r.sect)
    ensures var p, before := Shift(PatchOf(env, ms[k], origin, r), at), Progresses(env, ms, k, i);
      && r.sect < MAXSECT && p.Within(|before[r.sect]|)
      && Progresses(env, ms, k, i + 1) == before[r.sect := Apply(before[r.sect], p)]
  {
    ProgressesNext(env, ms, k, i);
  }

  method ScanAll(l: Linker, ms: seq<Module>)
    requires AllWellFormed(ms) && l.Scanned() && l.ms == []
    modifies l
    ensures l.Scanned() && l.ms == ms
  {
    var k := 0;
    while k < |ms|
      invariant 0 <= k <= |ms| && l.Scanned() && l.ms == ms[..k]
    {
      l.Scan(ms[k]);
      k := k + 1;
    }
  }

  method FinishAll(l: Linker, env: Env)
    requires l.Linked(env, 0)
    modifies l, l.emit
    ensures l.Linked(env, |l.ms|) && l.ms == old(l.ms)
  {
    var k := 0;
    while k < |l.ms|
      invariant 0 <= k <= |l.ms| && l.ms == old(l.ms) && l.emit == old(l.emit) && l.Linked(env, k)
    {
      l.Finish(env, k);
      k := k + 1;
    }
  }

  lemma AllHalvesDone(env: Env, ms: seq<Module>)
    ensures forall s :: 0 <= s < MAXSECT ==> Halves(env, ms, |ms|)[s] == Content(env, ms, s)
  {
    forall s | 0 <= s < MAXSECT ensures Halves(env, ms, |ms|)[s] == Content(env, ms, s) {
      HalfContent(env, ms, |ms|, s);
    }
  }

  /** Both passes over the modules, everything in core. */
  method LinkInCore(env: Env, ms: seq<Module>) returns (emit: seq<array<byte>>, relos: seq<Relo>)
    requires AllWellFormed(ms)
    ensures |emit| == MAXSECT && forall s :: 0 <= s < MAXSECT ==> emit[s][..] == Content(env, ms, s)
    ensures relos == OutRelos(env, ms)
  {
    var l := new Linker();
    ScanAll(l, ms);
    l.BeginSecondPass(env);
    FinishAll(l, env);
    AllHalvesDone(env, ms);
    emit, relos := l.emit, l.relos;
    forall s | 0 <= s < MAXSECT ensures emit[s][..] == Content(env, ms, s) { assert l.Sections()[s] == emit[s][..]; }
  }
}
