/**
  Saving a name's string (savechar in Ack-5.5/ld/save.c): it is copied out of the
  current module, which the allocation of its new place may move.
 */
module Saving {
  import opened Bytes
  import opened CoreMemory
  import opened Compaction
  import opened CoreManager

  /** The current module has this string, and its closing nul, at the offset. */
  ghost predicate StringIn(b: seq<byte>, m: Piece, pos: int, off: nat, s: seq<byte>) {
    && 0 <= pos && 0 <= m.base <= m.base + m.full <= |b| && off + |s| < m.full - pos
    && (forall i :: 0 <= i < |s| ==> ModuleByte(b, m, pos, off + i) == s[i] != 0)
    && ModuleByte(b, m, pos, off + |s|) == 0
  }

  /** The piece has the string and its nul at the offset. */
  ghost predicate SavedAt(b: seq<byte>, m: Piece, off: nat, s: seq<byte>) {
    && 0 <= m.base <= m.base + off + |s| < |b|
    && (forall i :: 0 <= i < |s| ==> ByteAt(b, m, off + i) == s[i])
    && ByteAt(b, m, off + |s|) == 0
  }

  lemma StringKept(b: seq<byte>, m: Piece, pos: int, b': seq<byte>, m': Piece, pos': int, off: nat, s: seq<byte>)
    requires ModuleKept(b, m, pos, b', m', pos', 0) && StringIn(b, m, pos, off, s)
    ensures StringIn(b', m', pos', off, s)
  {
    forall i | 0 <= i < |s| ensures ModuleByte(b', m', pos', off + i) == s[i] {
      assert ModuleByte(b', m', pos', off + i) == ModuleByte(b, m, pos, off + i);
    }
    assert ModuleByte(b', m', pos', off + |s|) == ModuleByte(b, m, pos, off + |s|);
  }

  /** Only bytes of a piece past the offset n have changed. */
  ghost predicate ChangedPast(b: seq<byte>, b': seq<byte>, m: Piece, n: int) {
    |b'| == |b| && forall i :: 0 <= i < |b| && !(m.base + n <= i < m.base + m.full) ==> b'[i] == b[i]
  }

  lemma ChangedPastKept(b0: seq<byte>, ms0: seq<Piece>, pos0: int, b: seq<byte>, b': seq<byte>, ms: seq<Piece>,
      pos: int, brk: int, k: nat, n: nat)
    requires Kept(b0, ms0, pos0, b, ms, pos, k, n) && Tiled(ms, brk) && brk <= |b| && k < NMEMS && k != ALLOMODL
        && !Released(k)
    requires 0 <= ms0[k].full && ChangedPast(b, b', ms[k], ms[k].full - n)
    ensures Kept(b0, ms0, pos0, b', ms, pos, k, n)
  {
    TiledApart(ms, brk);
    TiledWithin(ms, brk, |b|);
    forall i | 0 <= i < NMEMS && i != ALLOMODL && !Released(i)
        ensures GrownAt(b0, ms0[i], b', ms[i], if i == k then n else 0) {
      assert GrownAt(b0, ms0[i], b, ms[i], if i == k then n else 0);
      PieceKept(b, b', ms, brk, i, k, ms[k].full - n, ms0[i].full);
      forall o | 0 <= o < ms0[i].full ensures ByteAt(b', ms[i], o) == ByteAt(b0, ms0[i], o) {
        assert ByteAt(b', ms[i], o) == ByteAt(b, ms[i], o);
      }
    }
    var m0, m := ms0[ALLOMODL], ms[ALLOMODL];
    PieceKept(b, b', ms, brk, ALLOMODL, k, ms[k].full - n, m.full);
    forall o | 0 <= o < m0.full - pos0 ensures ModuleByte(b', m, pos, o) == ModuleByte(b0, m0, pos0, o) {
      assert ByteAt(b', m, pos + o) == ByteAt(b, m, pos + o);
      assert ModuleByte(b, m, pos, o) == ModuleByte(b0, m0, pos0, o);
    }
  }

  /** The bytes in use of other pieces, and those before the change, are untouched. */
  lemma PieceKept(b: seq<byte>, b': seq<byte>, ms: seq<Piece>, brk: int, i: nat, k: nat, n: int, used: int)
    requires Tiled(ms, brk) && brk <= |b| && i < NMEMS && k < NMEMS && 0 <= n && ChangedPast(b, b', ms[k], n)
    requires 0 <= used <= ms[i].full && (i == k ==> used <= n)
    ensures 0 <= ms[i].base <= ms[i].base + used <= |b|
    ensures forall o :: 0 <= o < used ==> ByteAt(b', ms[i], o) == ByteAt(b, ms[i], o)
  {
    TiledApart(ms, brk);
    TiledWithin(ms, brk, |b|);
    assert Sane(ms[i], brk) && Sane(ms[k], brk);
  }

  /** strlen of a string in the current module. */
  method StringLength(c: Core, off: nat, ghost s: seq<byte>) returns (len: nat)
    requires |c.mems| == NMEMS && StringIn(c.Bytes(), c.mems[ALLOMODL], c.corePosition, off, s)
    ensures len == |s|
  {
    var at := c.mems[ALLOMODL].base + c.corePosition + off;
    len := 0;
    ghost var b, m, pos := c.Bytes(), c.mems[ALLOMODL], c.corePosition;
    assert ModuleByte(b, m, pos, off + |s|) == 0;
    while c.bytes[at + len] != 0
      invariant 0 <= len <= |s|
      invariant len < |s| ==> ModuleByte(b, m, pos, off + len) == s[len] != 0
      decreases |s| - len
    {
      len := len + 1;
    }
  }

  /** The source's strcpy, from the current module to the end of piece k. */
  method CopyString(c: Core, k: nat, newoff: nat, off: nat, ghost s: seq<byte>)
    requires c.Valid() && k < NMEMS && k != ALLOMODL
    requires StringIn(c.Bytes(), c.mems[ALLOMODL], c.corePosition, off, s)
    requires newoff + |s| + 1 == c.mems[k].full
    modifies c.bytes
    ensures SavedAt(c.Bytes(), c.mems[k], newoff, s) && ChangedPast(old(c.Bytes()), c.Bytes(), c.mems[k], newoff)
  {
    ghost var b, m, pos := c.Bytes(), c.mems[ALLOMODL], c.corePosition;
    TiledApart(c.mems, c.brk);
    TiledWithin(c.mems, c.brk, c.bytes.Length);
    assert Sane(c.mems[k], c.brk) && Sane(m, c.brk);
    var from, to := c.mems[ALLOMODL].base + c.corePosition + off, c.mems[k].base + newoff;
    ghost var start := to;
    var i := 0;
    assert ModuleByte(b, m, pos, off + |s|) == 0;
    while c.bytes[from + i] != 0
      invariant 0 <= i <= |s|
      invariant i < |s| ==> ModuleByte(b, m, pos, off + i) == s[i] != 0
      invariant forall j :: 0 <= j < i ==> c.bytes[to + j] == s[j]
      invariant forall j :: 0 <= j < c.bytes.Length && !(to <= j < to + i) ==> c.bytes[j] == b[j]
      decreases |s| - i
    {
      c.bytes[to + i] := c.bytes[from + i];
      i := i + 1;
    }
    c.bytes[to + i] := 0;
    forall j | 0 <= j < |s| ensures ByteAt(c.Bytes(), c.mems[k], newoff + j) == s[j] { assert c.bytes[to + j] == s[j]; }
  }

  /**
    The source's savechar for the piece of global names: the string is there
    afterwards, and everything that was there before still is.
   */
  method SaveChar(c: Core, off: nat, ghost s: seq<byte>) returns (newoff: Offset)
    requires c.Valid() && c.MayGrow(ALLOGCHR) && c.alloctype == Normal && c.pass == First
    requires 0 <= c.corePosition <= c.mems[ALLOMODL].full
    requires off > 0 ==> StringIn(c.Bytes(), c.mems[ALLOMODL], c.corePosition, off, s)
    modifies c`brk, c`refused, c`mems, c`incore, c`corePosition, c`alloctype, c.bytes
    ensures c.Valid()
    ensures off == 0 ==> newoff == Off(0) && c.mems == old(c.mems) && c.Bytes() == old(c.Bytes())
    ensures off > 0 && newoff.Off? ==> SavedAt(c.Bytes(), c.mems[ALLOGCHR], newoff.value, s)
    ensures off > 0 ==>
        Kept(old(c.Bytes()), old(c.mems), old(c.corePosition), c.Bytes(), c.mems, c.corePosition, ALLOGCHR,
                             if newoff.Off? then |s| + 1 else 0)
    ensures off > 0 && newoff.BadOff? ==> Available(c.mems, ALLOGCHR, Forced) < |s| + 1
  {
    if off == 0 { return Off(0); }
    ghost var b0, ms0, pos0 := c.Bytes(), c.mems, c.corePosition;
    assert Sane(ms0[ALLOGCHR], c.brk);
    var len := StringLength(c, off, s);
    newoff := c.HardAlloc(ALLOGCHR, len + 1);
    match newoff
    case BadOff =>
    case Off(at) =>
      StringKept(b0, ms0[ALLOMODL], pos0, c.Bytes(), c.mems[ALLOMODL], c.corePosition, off, s);
      ghost var b := c.Bytes();
      CopyString(c, ALLOGCHR, at, off, s);
      ChangedPastKept(b0, ms0, pos0, b, c.Bytes(), c.mems, c.corePosition, c.brk, ALLOGCHR, len + 1);
  }

  lemma {:induction false} ChangedPastGrown(b0: seq<byte>, ms0: seq<Piece>, b: seq<byte>, b': seq<byte>,
      ms: seq<Piece>, brk: int, k: nat, n: nat)
    requires Grown(b0, ms0, b, ms, k, n) && Tiled(ms, brk) && brk <= |b| && k < NMEMS
        && ChangedPast(b, b', ms[k], ms[k].full - n)
    requires forall i :: 0 <= i < |ms0| ==> 0 <= ms0[i].full
    ensures Grown(b0, ms0, b', ms, k, n)
  {
    forall i | 0 <= i < |ms0| ensures GrownAt(b0, ms0[i], b', ms[i], if i == k then n else 0) {
      assert GrownAt(b0, ms0[i], b, ms[i], if i == k then n else 0);
      PieceKept(b, b', ms, brk, i, k, ms[k].full - n, ms0[i].full);
      forall o | 0 <= o < ms0[i].full ensures ByteAt(b', ms[i], o) == ByteAt(b0, ms0[i], o) {
        assert ByteAt(b', ms[i], o) == ByteAt(b, ms[i], o);
      }
    }
  }

  /**
    savechar for the piece of local names, which are saved only as long as all is in
    core: without room for the string it is not, and nothing is lost.
   */
  method SaveLocalChar(c: Core, off: nat, ghost s: seq<byte>) returns (newoff: Offset)
    requires c.Valid() && c.MayGrow(ALLOLCHR) && c.pass == First
    requires 0 <= c.corePosition <= c.mems[ALLOMODL].full
    requires off > 0 ==> StringIn(c.Bytes(), c.mems[ALLOMODL], c.corePosition, off, s)
    modifies c`brk, c`refused, c`mems, c`incore, c.bytes
    ensures c.Valid()
    ensures off == 0 ==> newoff == Off(0)
    ensures off == 0 || !old(c.incore) ==>
        c.mems == old(c.mems) && c.Bytes() == old(c.Bytes()) && c.incore == old(c.incore)
    ensures off > 0 && newoff.Off? ==> SavedAt(c.Bytes(), c.mems[ALLOLCHR], newoff.value, s) && c.incore
    ensures off > 0 && newoff.Off? ==> Grown(old(c.Bytes()), old(c.mems), c.Bytes(), c.mems, ALLOLCHR, |s| + 1)
    ensures newoff.BadOff? ==> !c.incore
    ensures newoff.BadOff? && old(c.incore) ==>
        SameLive(old(c.Bytes()), old(c.mems), c.Bytes(), c.mems)
        && Available(c.mems, ALLOLCHR, c.alloctype) < Need(c.mems[ALLOLCHR], |s| + 1, c.alloctype)
  {
    if off == 0 { return Off(0); }
    ghost var b0, ms0, pos := c.Bytes(), c.mems, c.corePosition;
    TiledWithin(ms0, c.brk, c.bytes.Length);
    assert Sane(ms0[ALLOLCHR], c.brk);
    var len := StringLength(c, off, s);
    if !c.incore { return BadOff; }
    newoff := c.Alloc(ALLOLCHR, len + 1);
    match newoff
    case BadOff =>
    case Off(at) =>
      LocalString(b0, ms0, c.Bytes(), c.mems, c.brk, pos, off, s);
      ghost var b := c.Bytes();
      assert GrownAt(b0, ms0[ALLOLCHR], b, c.mems[ALLOLCHR], len + 1);
      CopyString(c, ALLOLCHR, at, off, s);
      ChangedPastGrown(b0, ms0, b, c.Bytes(), c.mems, c.brk, ALLOLCHR, len + 1);
  }

  lemma {:induction false} LocalString(b0: seq<byte>, ms0: seq<Piece>, b: seq<byte>, ms: seq<Piece>, brk: int,
      pos: int, off: nat, s: seq<byte>)
    requires |ms0| == NMEMS && Within(ms0, |b0|) && Grown(b0, ms0, b, ms, ALLOLCHR, |s| + 1)
    requires Tiled(ms, brk) && brk <= |b| && 0 <= pos <= ms0[ALLOMODL].full
    requires StringIn(b0, ms0[ALLOMODL], pos, off, s)
    ensures StringIn(b, ms[ALLOMODL], pos, off, s)
  {
    TiledWithin(ms, brk, |b|);
    GrownKept(b0, ms0, b, ms, pos, ALLOLCHR, |s| + 1);
    StringKept(b0, ms0[ALLOMODL], pos, b, ms[ALLOMODL], pos, off, s);
  }
}
