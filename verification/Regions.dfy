/**
  Where everything of an object file goes, and writing that puts every byte at
  its place: what the object writer is for.
 */
module Regions {
  import opened Bytes
  import opened FileCursor
  import opened ObjectWriter

  const NREGION := 67

  /**
    Region t < MAXSECT is for section t (region 0 begins with the header and the
    section table), the last three are for the tables.
   */
  datatype Plan = Plan(lo: seq<nat>, len: seq<nat>) {
    predicate Valid() {
      |lo| == NREGION && |len| == NREGION && forall t :: 0 <= t < NREGION - 1 ==> InOrder(t)
    }

    predicate InOrder(t: nat)
      requires |lo| == NREGION && |len| == NREGION && t < NREGION - 1
    {
      lo[t] + len[t] <= lo[t + 1]
    }
  }

  lemma {:induction false} RegionsApart(p: Plan, s: nat, t: nat)
    requires p.Valid() && s < t < NREGION
    ensures p.lo[s] + p.len[s] <= p.lo[t]
    decreases t
  {
    assert p.InOrder(t - 1);
    if s < t - 1 { RegionsApart(p, s, t - 1); }
  }

  lemma HoldsKept(f: seq<byte>, at: nat, w: seq<byte>, pos: nat, b: seq<byte>)
    requires Holds(f, at, w) && (pos + |b| <= at || at + |w| <= pos)
    ensures Holds(WriteAt(f, pos, b), at, w)
  {
    forall i | 0 <= i < |w| ensures HoldsAt(WriteAt(f, pos, b), at, w, i) { assert HoldsAt(f, at, w, i); }
  }

  lemma HoldsMore(f: seq<byte>, at: nat, w: seq<byte>, b: seq<byte>)
    requires Holds(f, at, w)
    ensures Holds(WriteAt(f, at + |w|, b), at, w + b)
  {
    var g := WriteAt(f, at + |w|, b);
    forall i | 0 <= i < |w + b| ensures HoldsAt(g, at, w + b, i) {
      if i < |w| { assert HoldsAt(f, at, w, i); }
    }
  }

  ghost predicate RegionOk(f: seq<byte>, p: Plan, done: seq<seq<byte>>, t: nat)
    requires p.Valid() && |done| == NREGION && t < NREGION
  {
    |done[t]| <= p.len[t] && Holds(f, p.lo[t], done[t])
  }

  /** Every region holds what has been written to it, and nothing is beyond the last one. */
  ghost predicate FileOk(f: seq<byte>, p: Plan, done: seq<seq<byte>>) {
    && p.Valid() && |done| == NREGION && |f| <= p.lo[NREGION - 1] + p.len[NREGION - 1]
    && forall t :: 0 <= t < NREGION ==> RegionOk(f, p, done, t)
  }

  // ------------------------------------------------------ cursors and regions

  /** The cursor for a region. */
  function CursorOf(t: nat): nat {
    if t < MAXSECT then PartOf(t) else t - MAXSECT + PARTRELO
  }

  /** The regions of one cursor are all right in its image. */
  ghost predicate PartOk(f: seq<byte>, p: Plan, done: seq<seq<byte>>, c: nat)
    requires p.Valid() && |done| == NREGION
  {
    forall t :: 0 <= t < NREGION && CursorOf(t) == c ==> RegionOk(f, p, done, t)
  }

  lemma PartOkWrite(f: seq<byte>, p: Plan, done: seq<seq<byte>>, t: nat, pos: nat, w: seq<byte>)
    requires p.Valid() && |done| == NREGION && t < NREGION && PartOk(f, p, done, CursorOf(t))
    requires |done[t]| + |w| <= p.len[t] && (|w| == 0 || pos == p.lo[t] + |done[t]|)
    ensures PartOk(WriteAt(f, pos, w), p, done[t := done[t] + w], CursorOf(t))
  {
    var g, next := WriteAt(f, pos, w), done[t := done[t] + w];
    assert RegionOk(f, p, done, t);
    forall s | 0 <= s < NREGION && CursorOf(s) == CursorOf(t) ensures RegionOk(g, p, next, s) {
      assert RegionOk(f, p, done, s);
      if |w| == 0 {
        assert g == f && next[s] == done[s];
      } else if s == t {
        HoldsMore(f, p.lo[t], done[t], w);
      } else {
        if s < t { RegionsApart(p, s, t); } else { RegionsApart(p, t, s); }
        HoldsKept(f, p.lo[s], done[s], pos, w);
      }
    }
  }

  lemma PartOkElsewhere(f: seq<byte>, p: Plan, done: seq<seq<byte>>, t: nat, w: seq<byte>, c: nat)
    requires p.Valid() && |done| == NREGION && t < NREGION && PartOk(f, p, done, c) && c != CursorOf(t)
    ensures PartOk(f, p, done[t := done[t] + w], c)
  {
    var next := done[t := done[t] + w];
    forall s | 0 <= s < NREGION && CursorOf(s) == c ensures RegionOk(f, p, next, s) { assert RegionOk(f, p, done, s); }
  }

  /** The parts of the file for the cursors. */
  function PartsOf(p: Plan): (r: Parts)
    requires p.Valid()
    ensures |r.lo| == |r.hi| == NPARTS
  {
    Parts([p.lo[0], p.lo[1], p.lo[2], p.lo[MAXSECT], p.lo[MAXSECT + 1], p.lo[MAXSECT + 2]],
          [p.lo[1], p.lo[2], p.lo[MAXSECT], p.lo[MAXSECT + 1], p.lo[MAXSECT + 2],
           p.lo[MAXSECT + 2] + p.len[MAXSECT + 2]])
  }

  lemma PartsValid(p: Plan)
    requires p.Valid()
    ensures PartsOf(p).Valid()
  {
    RegionsApart(p, 0, 1);
    RegionsApart(p, 1, 2);
    RegionsApart(p, 2, MAXSECT);
    RegionsApart(p, MAXSECT, MAXSECT + 1);
    RegionsApart(p, MAXSECT + 1, MAXSECT + 2);
  }

  /** A region lies in the part of its cursor. */
  lemma RegionInPart(p: Plan, t: nat)
    requires p.Valid() && t < NREGION
    ensures CursorOf(t) < NPARTS && PartsOf(p).lo[CursorOf(t)] <= p.lo[t]
        && p.lo[t] + p.len[t] <= PartsOf(p).hi[CursorOf(t)]
  {
    if 2 < t < MAXSECT { RegionsApart(p, 2, t); }
    if t < NREGION - 1 { RegionsApart(p, t, t + 1); }
    if 2 <= t < MAXSECT { RegionsApart(p, t, MAXSECT); }
  }

  /** A file that shows right images is right. */
  lemma ShownIsOk(f: seq<byte>, p: Plan, imgs: seq<seq<byte>>, done: seq<seq<byte>>)
    requires p.Valid() && PartsOf(p).Valid() && |imgs| == NPARTS && |done| == NREGION && AllShown(f, imgs, PartsOf(p))
    requires forall c :: 0 <= c < NPARTS ==> PartOk(imgs[c], p, done, c)
    ensures FileOk(f, p, done)
  {
    forall t | 0 <= t < NREGION ensures RegionOk(f, p, done, t) {
      RegionInPart(p, t);
      var c := CursorOf(t);
      assert PartOk(imgs[c], p, done, c) && RegionOk(imgs[c], p, done, t) && PartShown(f, imgs, PartsOf(p), c);
      forall i | 0 <= i < |done[t]| ensures HoldsAt(f, p.lo[t], done[t], i) {
        assert HoldsAt(imgs[c], p.lo[t], done[t], i) && ShowsAt(f, imgs[c], p.lo[t] + i);
      }
    }
  }

  // ------------------------------------------------------- writing in its place

  /** What every region has been given, and the current section. */
  datatype Plain = Plain(sect: nat, given: seq<seq<byte>>) {
    predicate Valid() {
      sect < MAXSECT && |given| == NREGION
    }

    function Add(t: nat, b: seq<byte>): Plain
      requires Valid() && t < NREGION
    {
      this.(given := given[t := given[t] + b])
    }

    function Do(c: Call): (r: Plain)
      requires Valid() && Sized(c)
      ensures r.Valid()
    {
      if c.Sect? then this.(sect := c.s) else Add(RegionFor(sect, c), BytesOf(c))
    }
  }

  /** Where the bytes of a call belong. */
  function RegionFor(sect: nat, c: Call): (t: nat)
    ensures sect < MAXSECT ==> t < NREGION && (!c.Sect? ==> CursorOf(t) == CursorFor(sect, c))
  {
    match c
    case Sect(s) => sect
    case Emit(b) => sect
    case Relo(recs) => MAXSECT
    case Name(recs) => MAXSECT + 1
    case Text(b) => MAXSECT + 2
  }

  /** Everything that is given stays within its region. */
  predicate Within(p: Plan, given: seq<seq<byte>>) {
    |p.len| == |given| == NREGION && forall t :: 0 <= t < NREGION ==> |given[t]| <= p.len[t]
  }

  /** What the calls give. */
  function Given(st: Plain, calls: seq<Call>): (r: Plain)
    requires st.Valid() && AllSized(calls)
    ensures r.Valid()
  {
    if |calls| == 0 then st else Given(st, calls[..|calls| - 1]).Do(calls[|calls| - 1])
  }

  predicate NoMore(a: seq<seq<byte>>, b: seq<seq<byte>>) {
    |a| == |b| && forall t :: 0 <= t < |a| ==> |a[t]| <= |b[t]|
  }

  lemma {:induction false} GivenGrows(st: Plain, calls: seq<Call>, k: nat)
    requires st.Valid() && AllSized(calls) && k <= |calls|
    ensures NoMore(Given(st, calls[..k]).given, Given(st, calls).given)
    decreases |calls|
  {
    if k == |calls| {
      assert calls[..k] == calls;
    } else {
      GivenGrows(st, calls[..|calls| - 1], k);
      assert calls[..|calls| - 1][..k] == calls[..k];
    }
  }

  lemma WithinLess(p: Plan, a: seq<seq<byte>>, b: seq<seq<byte>>)
    requires NoMore(a, b) && Within(p, b)
    ensures Within(p, a)
  {
  }

  function Nothing(): (r: seq<seq<byte>>)
    ensures |r| == NREGION && forall t :: 0 <= t < NREGION ==> r[t] == []
  {
    seq(NREGION, _ => [])
  }
}
