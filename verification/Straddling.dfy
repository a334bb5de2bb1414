/**
  What the pass that reads the modules again needs of the blocks in which it reads
  a section: that no datum lies in two of them.
 */
module Straddling {
  import opened LinkModel
  import opened Relocation
  import opened Strategies
  import opened ReRead

  lemma {:induction false} OnBlockHas(rs: seq<Relo>, s: nat, off: nat, n: nat, i: nat) returns (j: nat)
    requires i < |rs| && InBlock(rs[i], s, off, n)
    ensures j < |OnBlock(rs, s, off, n)| && OnBlock(rs, s, off, n)[j] == rs[i]
    decreases |rs|
  {
    if i < |rs| - 1 {
      j := OnBlockHas(rs[..|rs| - 1], s, off, n, i);
    } else {
      j := |OnBlock(rs[..|rs| - 1], s, off, n)|;
    }
  }

  lemma {:induction false} OnBlockFrom(rs: seq<Relo>, s: nat, off: nat, n: nat, j: nat) returns (i: nat)
    requires j < |OnBlock(rs, s, off, n)|
    ensures i < |rs| && rs[i] == OnBlock(rs, s, off, n)[j] && InBlock(rs[i], s, off, n)
    decreases |rs|
  {
    if j < |OnBlock(rs[..|rs| - 1], s, off, n)| {
      i := OnBlockFrom(rs[..|rs| - 1], s, off, n, j);
    } else {
      i := |rs| - 1;
    }
  }

  /** Relocating a block stays within the n bytes that were read exactly if no datum crosses its end. */
  lemma {:induction false} BlockFits(env: Env, m: Module, origin: seq<int>, s: nat, off: nat, n: nat)
    requires WellFormed(m) && Clear(m.relos, s, off)
    ensures AllWithin(BlockPatches(env, m, origin, m.relos, s, off, n), n) <==> Clear(m.relos, s, off + n)
  {
    var ps := BlockPatches(env, m, origin, m.relos, s, off, n);
    if Clear(m.relos, s, off + n) {
      forall j | 0 <= j < |ps| ensures ps[j].Within(n) {
        var i := OnBlockFrom(m.relos, s, off, n, j);
        assert ReloOk(m.relos[i], m);
      }
    }
    if AllWithin(ps, n) {
      forall i | 0 <= i < |m.relos| && m.relos[i].sect == s
        ensures m.relos[i].addr + m.relos[i].t.size <= off + n || m.relos[i].addr >= off + n
      {
        if InBlock(m.relos[i], s, off, n) {
          var j := OnBlockHas(m.relos, s, off, n, i);
          assert ps[j].Within(n);
        }
      }
    }
  }

  /** The same for all blocks from `off` on. */
  predicate BlocksWithin(env: Env, m: Module, origin: seq<int>, s: nat, off: nat, len: nat, blk: nat)
    requires blk > 0
    decreases if len > off then len - off else 0
  {
    off >= len ||
    var n := Least(blk, len - off);
    && AllWithin(BlockPatches(env, m, origin, m.relos, s, off, n), n)
    && BlocksWithin(env, m, origin, s, off + n, len, blk)
  }

  /** In all blocks relocation stays within what was read exactly if no datum lies in two of them. */
  lemma {:induction false} BlocksFit(env: Env, m: Module, origin: seq<int>, s: nat, off: nat, len: nat, blk: nat)
    requires WellFormed(m) && blk > 0 && Clear(m.relos, s, off)
    ensures BlocksWithin(env, m, origin, s, off, len, blk) <==> NoneStraddles(m.relos, s, off, len, blk)
    decreases if len > off then len - off else 0
  {
    if off < len {
      var n := Least(blk, len - off);
      BlockFits(env, m, origin, s, off, n);
      if Clear(m.relos, s, off + n) { BlocksFit(env, m, origin, s, off + n, len, blk); }
    }
  }
}
