/**
  What the linker's two strategies have in common: the bytes as read, the
  changes that fall in one block of a section, and the order of the entries.
 */
module Strategies {
  import opened Bytes
  import opened Relocation
  import opened LinkModel
  import opened LinkAppend

  // ---------------------------------------------------------- bytes as read

  /** Section s with zeros in the gaps, before relocation. */
  function Raw(ms: seq<Module>, s: nat): seq<byte> {
    if |ms| == 0 then []
    else Append(Raw(ms[..|ms| - 1], s), Origin(ms[..|ms| - 1], s), DataOf(ms[|ms| - 1], s))
  }

  lemma {:induction false} RawBound(ms: seq<Module>, s: nat)
    requires AllWellFormed(ms)
    ensures |Raw(ms, s)| <= Origin(ms, s)
    decreases |ms|
  {
    if |ms| > 0 { RawBound(ms[..|ms| - 1], s); }
  }

  lemma RawLast(init: seq<Module>, last: Module, s: nat)
    ensures Raw(init + [last], s) == Append(Raw(init, s), Origin(init, s), DataOf(last, s))
  {
    assert (init + [last])[..|init + [last]| - 1] == init;
  }

  // ------------------------------------------------------ cutting a section

  /** Does the change lie on one side of the cut? */
  predicate Aside(p: Patch, cut: nat) {
    p.addr + p.t.size <= cut || p.addr >= cut
  }

  predicate AllAside(ps: seq<Patch>, cut: nat) {
    forall i :: 0 <= i < |ps| ==> Aside(ps[i], cut)
  }

  function Below(ps: seq<Patch>, cut: nat): seq<Patch> {
    if |ps| == 0 then []
    else
      var before := Below(ps[..|ps| - 1], cut);
      if ps[|ps| - 1].addr < cut then before + [ps[|ps| - 1]] else before
  }

  /** The changes from the cut on, relative to it. */
  function Above(ps: seq<Patch>, cut: nat): seq<Patch> {
    if |ps| == 0 then []
    else
      var before, p := Above(ps[..|ps| - 1], cut), ps[|ps| - 1];
      if p.addr >= cut then before + [p.(addr := p.addr - cut)] else before
  }

  lemma {:induction false} SidesWithin(ps: seq<Patch>, cut: nat, n: nat)
    requires AllAside(ps, cut) && AllWithin(ps, cut + n)
    ensures AllWithin(Below(ps, cut), cut) && AllWithin(Above(ps, cut), n)
    decreases |ps|
  {
    if |ps| > 0 {
      SidesWithin(ps[..|ps| - 1], cut, n);
      assert Aside(ps[|ps| - 1], cut) && ps[|ps| - 1].Within(cut + n);
    }
  }

  lemma ApplyAside(a: seq<byte>, b: seq<byte>, p: Patch)
    requires Aside(p, |a|) && p.Within(|a| + |b|)
    ensures p.addr < |a| ==> p.Within(|a|) && Apply(a + b, p) == Apply(a, p) + b
    ensures p.addr >= |a| ==>
        p.(addr := p.addr - |a|).Within(|b|) && Apply(a + b, p) == a + Apply(b, p.(addr := p.addr - |a|))
  {
    if p.addr < |a| {
      ApplyLeft(a, b, p);
    } else {
      ApplyRight(a, b, p.(addr := p.addr - |a|));
    }
  }

  lemma ApplyAllLast(data: seq<byte>, ps: seq<Patch>, p: Patch)
    requires AllWithin(ps, |data|) && p.Within(|data|)
    ensures AllWithin(ps + [p], |data|) && ApplyAll(data, ps + [p]) == Apply(ApplyAll(data, ps), p)
  {
    assert (ps + [p])[..|ps + [p]| - 1] == ps;
  }

  /** Two parts, changed. */
  function BothSides(a: seq<byte>, b: seq<byte>, ps: seq<Patch>, qs: seq<Patch>): seq<byte>
    requires AllWithin(ps, |a|) && AllWithin(qs, |b|)
  {
    ApplyAll(a, ps) + ApplyAll(b, qs)
  }

  lemma BothSidesNext(a: seq<byte>, b: seq<byte>, ps: seq<Patch>, qs: seq<Patch>, p: Patch)
    requires AllWithin(ps, |a|) && AllWithin(qs, |b|) && Aside(p, |a|) && p.Within(|a| + |b|)
    ensures p.addr < |a| ==>
        AllWithin(ps + [p], |a|) && Apply(BothSides(a, b, ps, qs), p) == BothSides(a, b, ps + [p], qs)
    ensures p.addr >= |a| ==>
      var q := p.(addr := p.addr - |a|);
      AllWithin(qs + [q], |b|) && Apply(BothSides(a, b, ps, qs), p) == BothSides(a, b, ps, qs + [q])
  {
    ApplyAside(ApplyAll(a, ps), ApplyAll(b, qs), p);
    if p.addr < |a| {
      ApplyAllLast(a, ps, p);
    } else {
      ApplyAllLast(b, qs, p.(addr := p.addr - |a|));
    }
  }

  /** Changing both sides is changing the whole. */
  lemma {:induction false} ApplyCut(a: seq<byte>, b: seq<byte>, ps: seq<Patch>)
    requires AllAside(ps, |a|) && AllWithin(ps, |a| + |b|)
    ensures AllWithin(Below(ps, |a|), |a|) && AllWithin(Above(ps, |a|), |b|)
    ensures ApplyAll(a + b, ps) == BothSides(a, b, Below(ps, |a|), Above(ps, |a|))
    decreases |ps|
  {
    SidesWithin(ps, |a|, |b|);
    if |ps| > 0 {
      var init, p := ps[..|ps| - 1], ps[|ps| - 1];
      ApplyCut(a, b, init);
      assert Aside(p, |a|) && p.Within(|a| + |b|);
      assert ApplyAll(a + b, ps) == Apply(ApplyAll(a + b, init), p);
      BothSidesNext(a, b, Below(init, |a|), Above(init, |a|), p);
    }
  }

  lemma {:induction false} BelowBelow(ps: seq<Patch>, cut: nat, further: nat)
    requires cut <= further
    ensures Below(Below(ps, further), cut) == Below(ps, cut)
    decreases |ps|
  {
    if |ps| > 0 {
      var init, p := ps[..|ps| - 1], ps[|ps| - 1];
      BelowBelow(init, cut, further);
      if p.addr < further { assert (Below(init, further) + [p])[..|Below(init, further)|] == Below(init, further); }
    }
  }

  lemma {:induction false} BelowAside(ps: seq<Patch>, cut: nat, c: nat)
    requires AllAside(ps, c)
    ensures AllAside(Below(ps, cut), c)
    decreases |ps|
  {
    if |ps| > 0 {
      BelowAside(ps[..|ps| - 1], cut, c);
      assert Aside(ps[|ps| - 1], c);
    }
  }

  lemma {:induction false} BelowAll(ps: seq<Patch>, cut: nat)
    requires AllWithin(ps, cut)
    ensures Below(ps, cut) == ps
    decreases |ps|
  {
    if |ps| > 0 {
      assert ps[|ps| - 1].Within(cut);
      BelowAll(ps[..|ps| - 1], cut);
      assert ps == ps[..|ps| - 1] + [ps[|ps| - 1]];
    }
  }

  /** The changes to the block of n bytes from `cut` on, relative to it. */
  function Between(ps: seq<Patch>, cut: nat, n: nat): seq<Patch> {
    Above(Below(ps, cut + n), cut)
  }

  /** One more block changed. */
  lemma ApplyBlock(data: seq<byte>, ps: seq<Patch>, cut: nat, n: nat)
    requires cut + n <= |data| && AllWithin(ps, |data|) && AllAside(ps, cut) && AllAside(ps, cut + n)
    ensures AllWithin(Below(ps, cut), cut) && AllWithin(Below(ps, cut + n), cut + n)
        && AllWithin(Between(ps, cut, n), n)
    ensures ApplyAll(data[..cut + n], Below(ps, cut + n))
         == ApplyAll(data[..cut], Below(ps, cut)) + ApplyAll(data[cut .. cut + n], Between(ps, cut, n))
  {
    SidesWithin(ps, cut, |data| - cut);
    SidesWithin(ps, cut + n, |data| - (cut + n));
    BelowAside(ps, cut + n, cut);
    BelowBelow(ps, cut, cut + n);
    ApplyCut(data[..cut], data[cut .. cut + n], Below(ps, cut + n));
    assert data[..cut + n] == data[..cut] + data[cut .. cut + n];
  }

  // ------------------------------------------------- the entries of a block

  /** The entries for section s whose data start in the n bytes from `off` on. */
  function OnBlock(rs: seq<Relo>, s: nat, off: nat, n: nat): seq<Relo> {
    if |rs| == 0 then []
    else
      var before, r := OnBlock(rs[..|rs| - 1], s, off, n), rs[|rs| - 1];
      if r.sect == s && off <= r.addr < off + n then before + [r] else before
  }

  /** A change of the bytes from `off` on. */
  function From(p: Patch, off: nat): Patch {
    if p.addr >= off then p.(addr := p.addr - off) else p
  }

  function BlockPatches(env: Env, m: Module, origin: seq<int>, rs: seq<Relo>, s: nat, off: nat, n: nat): (r: seq<Patch>)
    ensures |r| == |OnBlock(rs, s, off, n)|
    ensures forall i :: 0 <= i < |r| ==> r[i] == From(PatchOf(env, m, origin, OnBlock(rs, s, off, n)[i]), off)
  {
    var own := OnBlock(rs, s, off, n);
    seq(|own|, i requires 0 <= i < |own| => From(PatchOf(env, m, origin, own[i]), off))
  }

  lemma BetweenLast(ps: seq<Patch>, p: Patch, cut: nat, n: nat)
    ensures Between(ps + [p], cut, n)
        == if cut <= p.addr < cut + n then Between(ps, cut, n) + [From(p, cut)] else Between(ps, cut, n)
  {
    assert (ps + [p])[..|ps + [p]| - 1] == ps;
    var below := Below(ps, cut + n);
    if p.addr < cut + n { assert (below + [p])[..|below + [p]| - 1] == below; }
  }

  lemma {:induction false} BlockIsBetween(env: Env, m: Module, origin: seq<int>, rs: seq<Relo>, s: nat, off: nat,
      n: nat)
    ensures BlockPatches(env, m, origin, rs, s, off, n) == Between(PatchesOn(env, m, origin, rs, s), off, n)
    decreases |rs|
  {
    if |rs| > 0 {
      var init, r := rs[..|rs| - 1], rs[|rs| - 1];
      BlockIsBetween(env, m, origin, init, s, off, n);
      if r.sect == s {
        assert PatchesOn(env, m, origin, rs, s) == PatchesOn(env, m, origin, init, s) + [PatchOf(env, m, origin, r)];
        BetweenLast(PatchesOn(env, m, origin, init, s), PatchOf(env, m, origin, r), off, n);
      } else {
        assert PatchesOn(env, m, origin, rs, s) == PatchesOn(env, m, origin, init, s);
      }
    }
  }

  function Least(a: nat, b: nat): nat {
    if a < b then a else b
  }

  /** The entries for section s, block by block from `off` on. */
  function ByBlocks(rs: seq<Relo>, s: nat, off: nat, len: nat, blk: nat): seq<Relo>
    requires blk > 0
    decreases if len > off then len - off else 0
  {
    if off >= len then []
    else OnBlock(rs, s, off, Least(blk, len - off)) + ByBlocks(rs, s, off + Least(blk, len - off), len, blk)
  }

  /** No datum lies in two blocks. */
  predicate NoneStraddles(rs: seq<Relo>, s: nat, off: nat, len: nat, blk: nat)
    requires blk > 0
    decreases if len > off then len - off else 0
  {
    off >= len || (Clear(rs, s, off + Least(blk, len - off))
        && NoneStraddles(rs, s, off + Least(blk, len - off), len, blk))
  }

  predicate Clear(rs: seq<Relo>, s: nat, cut: nat) {
    forall i :: 0 <= i < |rs| && rs[i].sect == s ==> rs[i].addr + rs[i].t.size <= cut || rs[i].addr >= cut
  }

  lemma ClearAside(env: Env, m: Module, origin: seq<int>, rs: seq<Relo>, s: nat, cut: nat)
    requires Clear(rs, s, cut)
    ensures AllAside(PatchesOn(env, m, origin, rs, s), cut)
  {
    var ps := PatchesOn(env, m, origin, rs, s);
    forall i | 0 <= i < |ps| ensures Aside(ps[i], cut) { var j, _ := OnSectionFrom(rs, s, i, i); }
  }

  // ------------------------------------------------- the order of the entries

  /** How the re-reading pass comes across the entries for section s; blk is 0 if it was read as a whole. */
  function SectionOrder(m: Module, s: nat, blk: nat): seq<Relo> {
    if |DataOf(m, s)| == 0 then []
    else if blk == 0 then OnSection(m.relos, s)
    else ByBlocks(m.relos, s, 0, |DataOf(m, s)|, blk)
  }

  function Order(m: Module, blks: seq<nat>, n: nat): seq<Relo>
    requires n <= |blks|
  {
    if n == 0 then [] else Order(m, blks, n - 1) + SectionOrder(m, n - 1, blks[n - 1])
  }
}
