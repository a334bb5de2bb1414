/**
  The link editor's memory manager (Ack-5.5/ld/memory.c), as values: where the
  pieces of core lie, what they hold, and what each operation does to them.
  The operations themselves are in CoreManager.

  All of core is one byte array, cut into NMEMS contiguous pieces. A piece is
  known by its number and a datum in it by its offset, because pieces are moved
  up and down whenever one of them has to grow.
 */
module CoreMemory {
  import opened Bytes

  const ALLOEMIT := 0
  const ALLORELO := 64
  const ALLOLOCL := 65
  const ALLOGLOB := 66
  const ALLOLCHR := 67
  const ALLOGCHR := 68
  const ALLOSYMB := 69
  const ALLOARCH := 70
  const ALLOMODL := 71
  const ALLORANL := 72
  const NMEMS := 73

  const GRANULE := 64
  const INCRSIZE := 256
  const ALIGN := 8
  const AT_LEAST := 2 * ALIGN
  const INTSIZE := 4

  datatype Piece = Piece(base: int, full: int, left: int) {
    function End(): int { base + full + left }
    function Cap(): int { full + left }
  }

  datatype Flag = Normal | Freeze | Forced
  type AllocFlag = f: Flag | f != Freeze witness Normal
  datatype Pass = First | Second
  datatype Offset = BadOff | Off(value: nat)

  function RoundUpGranule(n: nat): (r: nat)
    ensures n <= r < n + GRANULE && r % GRANULE == 0
  {
    ((n + GRANULE - 1) / GRANULE) * GRANULE
  }

  function RoundUpIncr(n: nat): (r: nat)
    ensures n <= r < n + INCRSIZE && r % INCRSIZE == 0
  {
    ((n + INCRSIZE - 1) / INCRSIZE) * INCRSIZE
  }

  /** The source's int_align. */
  function IntAlign(n: nat): (r: nat)
    ensures n <= r < n + INTSIZE && r % INTSIZE == 0
  {
    ((n + INTSIZE - 1) / INTSIZE) * INTSIZE
  }

  // ---------------------------------------------------------------- layout

  ghost predicate Sane(m: Piece, brk: int) {
    0 <= m.base && 0 <= m.full && 0 <= m.left && m.End() <= brk
  }

  /** No piece reaches into a later one. */
  ghost predicate Apart(ms: seq<Piece>) {
    forall i, j :: 0 <= i < j < |ms| ==> ms[i].End() <= ms[j].base
  }

  /** The pieces follow each other without gaps, below the break. */
  ghost predicate Tiled(ms: seq<Piece>, brk: int) {
    && |ms| == NMEMS
    && (forall i :: 0 <= i < NMEMS ==> Sane(ms[i], brk))
    && (forall i :: 0 <= i < NMEMS - 1 ==> Adjacent(ms, i))
  }

  ghost predicate Adjacent(ms: seq<Piece>, i: nat)
    requires i + 1 < |ms|
  {
    ms[i].End() == ms[i + 1].base
  }

  /**
    n is a multiple of ALIGN. Stated by recursion so that the layout proofs, in
    which it occurs for every piece, need no modular arithmetic.
   */
  ghost predicate Multiple(n: int)
    decreases if n < 0 then -n else n
  {
    n == 0 || (n >= ALIGN && Multiple(n - ALIGN)) || (n <= -ALIGN && Multiple(n + ALIGN))
  }

  lemma {:induction false} MultipleIs(n: int)
    ensures Multiple(n) <==> n % ALIGN == 0
    decreases if n < 0 then -n else n
  {
    if n >= ALIGN { MultipleIs(n - ALIGN); }
    else if n <= -ALIGN { MultipleIs(n + ALIGN); }
  }

  ghost predicate OnBoundary(m: Piece) {
    Multiple(m.base) && Multiple(m.Cap())
  }

  ghost predicate Aligned(ms: seq<Piece>) {
    forall i :: 0 <= i < |ms| ==> OnBoundary(ms[i])
  }

  lemma {:induction false} TiledOrder(ms: seq<Piece>, brk: int, i: nat, j: nat)
    requires Tiled(ms, brk) && i < j < NMEMS
    ensures ms[i].End() <= ms[j].base
    decreases j
  {
    if i < j - 1 {
      TiledOrder(ms, brk, i, j - 1);
      assert Sane(ms[j - 1], brk);
    }
    assert Adjacent(ms, j - 1);
  }

  lemma TiledApart(ms: seq<Piece>, brk: int)
    requires Tiled(ms, brk)
    ensures Apart(ms)
  {
    forall i, j | 0 <= i < j < NMEMS ensures ms[i].End() <= ms[j].base { TiledOrder(ms, brk, i, j); }
  }

  // -------------------------------------------------------------- contents

  /** The byte that an offset in a piece denotes. */
  function ByteAt(b: seq<byte>, m: Piece, offset: int): byte
    requires 0 <= m.base + offset < |b|
  {
    b[m.base + offset]
  }

  /** Every (piece, offset) pair in use denotes the same byte in both states. */
  ghost predicate SameLive(b: seq<byte>, ms: seq<Piece>, b': seq<byte>, ms': seq<Piece>) {
    && |ms| == |ms'|
    && forall i :: 0 <= i < |ms| ==> SameBytes(b, ms[i], b', ms'[i])
  }

  ghost predicate SameBytes(b: seq<byte>, m: Piece, b': seq<byte>, m': Piece) {
    && 0 <= m.base <= m.base + m.full <= |b|
    && 0 <= m'.base <= m'.base + m'.full <= |b'|
    && m.full == m'.full
    && forall o :: 0 <= o < m.full ==> ByteAt(b', m', o) == ByteAt(b, m, o)
  }

  /** The first `n` offsets of a piece denote the same bytes in both states. */
  ghost predicate KeptBytes(b: seq<byte>, m: Piece, b': seq<byte>, m': Piece, n: int) {
    && 0 <= m.base <= m.base + n <= |b|
    && 0 <= m'.base <= m'.base + n <= |b'|
    && forall o :: 0 <= o < n ==> ByteAt(b', m', o) == ByteAt(b, m, o)
  }

  lemma SameLiveTrans(b: seq<byte>, ms: seq<Piece>, b1: seq<byte>, ms1: seq<Piece>, b2: seq<byte>, ms2: seq<Piece>)
    requires SameLive(b, ms, b1, ms1) && SameLive(b1, ms1, b2, ms2)
    ensures SameLive(b, ms, b2, ms2)
  {
    forall i | 0 <= i < |ms| ensures SameBytes(b, ms[i], b2, ms2[i]) {
      assert SameBytes(b, ms[i], b1, ms1[i]) && SameBytes(b1, ms1[i], b2, ms2[i]);
      forall o | 0 <= o < ms[i].full ensures ByteAt(b2, ms2[i], o) == ByteAt(b, ms[i], o) {
        assert ByteAt(b1, ms1[i], o) == ByteAt(b, ms[i], o);
      }
    }
  }

  /** Piece `k` has `n` more bytes in use; every old byte is still there. */
  ghost predicate Grown(b: seq<byte>, ms: seq<Piece>, b': seq<byte>, ms': seq<Piece>, k: nat, n: nat) {
    && |ms'| == |ms|
    && forall i :: 0 <= i < |ms| ==> GrownAt(b, ms[i], b', ms'[i], if i == k then n else 0)
  }

  ghost predicate GrownAt(b: seq<byte>, m: Piece, b': seq<byte>, m': Piece, n: nat) {
    m'.full == m.full + n && KeptBytes(b, m, b', m', m.full)
  }

  /** `n` bytes from `src` copied to `dst`, as if through a buffer. */
  ghost function Blit(b: seq<byte>, src: int, dst: int, n: nat): (r: seq<byte>)
    requires 0 <= src <= src + n <= |b| && 0 <= dst <= dst + n <= |b|
    ensures |r| == |b|
  {
    seq(|b|, i requires 0 <= i < |b| => if dst <= i < dst + n then b[i - dst + src] else b[i])
  }

  /** Bytes dst .. dst + full of piece k's new place are used by no other piece. */
  ghost predicate Room(ms: seq<Piece>, k: nat, dst: int, limit: int)
    requires k < |ms|
  {
    && 0 <= dst && dst + ms[k].full <= limit
    && forall i {:trigger ms[i]} :: 0 <= i < |ms| && i != k ==>
        ms[i].base + ms[i].full <= dst || dst + ms[k].full <= ms[i].base
  }

  /** Moving one piece into space that no other piece uses keeps everything. */
  lemma MoveKeeps(b0: seq<byte>, ms0: seq<Piece>, b: seq<byte>, ms: seq<Piece>, k: nat, dst: int)
    requires SameLive(b0, ms0, b, ms) && k < |ms| && Room(ms, k, dst, |b|)
    ensures 0 <= ms[k].base <= ms[k].base + ms[k].full <= |b|
    ensures SameLive(b0, ms0, Blit(b, ms[k].base, dst, ms[k].full), ms[k := ms[k].(base := dst)])
  {
    assert SameBytes(b0, ms0[k], b, ms[k]);
    var b' := Blit(b, ms[k].base, dst, ms[k].full);
    var ms' := ms[k := ms[k].(base := dst)];
    forall i | 0 <= i < |ms| ensures SameBytes(b0, ms0[i], b', ms'[i]) {
      assert SameBytes(b0, ms0[i], b, ms[i]);
      forall o | 0 <= o < ms[i].full ensures ByteAt(b', ms'[i], o) == ByteAt(b, ms[i], o) {}
    }
  }

  // ---------------------------------------------- what the operations compute

  /** The pieces above `piece` moved up by `incr` bytes, which `piece` gets. */
  ghost function MovedUp(ms: seq<Piece>, piece: nat, incr: int): (r: seq<Piece>)
    requires piece < |ms|
    ensures |r| == |ms|
  {
    seq(|ms|, i requires 0 <= i < |ms| =>
      if i < piece then ms[i]
      else if i == piece then ms[i].(left := ms[i].left + incr)
      else ms[i].(base := ms[i].base + incr))
  }

  lemma ModSum(a: int, b: int)
    requires a % ALIGN == 0 && b % ALIGN == 0
    ensures (a + b) % ALIGN == 0 && (a - b) % ALIGN == 0
  {
  }

  lemma AlignSum(a: int, b: int)
    requires Multiple(a) && Multiple(b)
    ensures Multiple(a + b) && Multiple(a - b)
  {
    MultipleIs(a);
    MultipleIs(b);
    ModSum(a, b);
    MultipleIs(a + b);
    MultipleIs(a - b);
  }

  // ------------------------------------------------- why the moves are safe

  lemma SameLiveRefl(b: seq<byte>, ms: seq<Piece>, brk: int)
    requires Tiled(ms, brk) && brk <= |b|
    ensures SameLive(b, ms, b, ms)
  {
    forall i | 0 <= i < |ms| ensures SameBytes(b, ms[i], b, ms[i]) { assert Sane(ms[i], brk); }
  }

  lemma MovedUpFrom(ms0: seq<Piece>, ms: seq<Piece>, piece: nat, incr: nat)
    requires piece < |ms0| && RaisedTo(ms0, ms, piece, incr)
    ensures ms[piece := ms[piece].(left := ms[piece].left + incr)] == MovedUp(ms0, piece, incr)
  {
  }

  lemma MovedUpTiled(ms: seq<Piece>, brk: int, piece: nat, incr: nat)
    requires Tiled(ms, brk) && piece < NMEMS
    ensures Tiled(MovedUp(ms, piece, incr), brk + incr)
  {
    var r := MovedUp(ms, piece, incr);
    forall i | 0 <= i < NMEMS ensures Sane(r[i], brk + incr) { assert Sane(ms[i], brk); }
    forall i | 0 <= i < NMEMS - 1 ensures Adjacent(r, i) { assert Adjacent(ms, i); }
  }

  lemma MovedUpAligned(ms: seq<Piece>, piece: nat, incr: nat)
    requires Aligned(ms) && piece < |ms| && Multiple(incr)
    ensures Aligned(MovedUp(ms, piece, incr))
  {
    forall i | 0 <= i < |ms| ensures OnBoundary(MovedUp(ms, piece, incr)[i]) {
      assert OnBoundary(ms[i]);
      AlignSum(ms[i].base, incr);
      AlignSum(ms[i].Cap(), incr);
    }
  }

  /** The pieces above k have been moved up, the others not. */
  ghost predicate RaisedTo(ms0: seq<Piece>, ms: seq<Piece>, k: nat, incr: int) {
    && |ms| == |ms0|
    && forall j {:trigger ms[j]} :: 0 <= j < |ms| ==>
        ms[j] == if j <= k then ms0[j] else ms0[j].(base := ms0[j].base + incr)
  }

  lemma RoomAbove(ms0: seq<Piece>, brk: int, ms: seq<Piece>, k: nat, incr: nat)
    requires Tiled(ms0, brk) && 0 < k < NMEMS && RaisedTo(ms0, ms, k, incr)
    ensures 0 <= ms[k].base && 0 <= ms[k].full && Room(ms, k, ms[k].base + incr, brk + incr)
  {
    assert Sane(ms0[k], brk);
    forall i | 0 <= i < NMEMS && i != k
      ensures ms[i].base + ms[i].full <= ms[k].base + incr || ms[k].base + incr + ms[k].full <= ms[i].base
    {
      assert Sane(ms0[i], brk);
      if i < k { TiledOrder(ms0, brk, i, k); } else { TiledOrder(ms0, brk, k, i); }
    }
  }

  lemma TiledWider(ms: seq<Piece>, brk: int, brk': int)
    requires Tiled(ms, brk) && brk <= brk'
    ensures Tiled(ms, brk')
  {
    forall i | 0 <= i < NMEMS ensures Sane(ms[i], brk') { assert Sane(ms[i], brk); }
    forall i | 0 <= i < NMEMS - 1 ensures Adjacent(ms, i) {}
  }

  /** How much is free in a piece does not matter for its bytes. */
  lemma KeepLeft(b: seq<byte>, ms: seq<Piece>, b': seq<byte>, ms': seq<Piece>, k: nat, left: int)
    requires SameLive(b, ms, b', ms') && k < |ms'|
    ensures SameLive(b, ms, b', ms'[k := ms'[k].(left := left)])
  {
    forall i | 0 <= i < |ms| ensures SameBytes(b, ms[i], b', ms'[k := ms'[k].(left := left)][i]) {
      assert SameBytes(b, ms[i], b', ms'[i]);
    }
  }

  lemma IncrMultiple(n: nat)
    ensures Multiple(RoundUpIncr(n))
  {
    assert RoundUpIncr(n) % ALIGN == 0;
    MultipleIs(RoundUpIncr(n));
  }

  /** What is left of a request stays a multiple of ALIGN as it shrinks. */
  lemma SmallerRequest(n: int)
    requires Multiple(n)
    ensures Multiple(n - INCRSIZE)
  {
    MultipleIs(INCRSIZE);
    AlignSum(n, INCRSIZE);
  }

  function ChargedPiece(m: Piece, n: int): Piece {
    Piece(m.base, m.full + n, m.left - n)
  }

  lemma Charged(b: seq<byte>, ms: seq<Piece>, b': seq<byte>, ms1: seq<Piece>, ms': seq<Piece>, k: nat, n: nat)
    requires SameLive(b, ms, b', ms1) && k < |ms| && ms' == ms1[k := ChargedPiece(ms1[k], n)]
    ensures Grown(b, ms, b', ms', k, n)
  {
    forall i | 0 <= i < |ms| ensures GrownAt(b, ms[i], b', ms'[i], if i == k then n else 0) {
      assert SameBytes(b, ms[i], b', ms1[i]);
      forall o | 0 <= o < ms[i].full ensures ByteAt(b', ms'[i], o) == ByteAt(b, ms[i], o) {
        assert ByteAt(b', ms1[i], o) == ByteAt(b, ms[i], o);
      }
    }
  }

  /** Only the division of a piece into used and free has changed. */
  lemma ResplitValid(ms: seq<Piece>, brk: int, k: nat, m: Piece)
    requires Tiled(ms, brk) && Aligned(ms) && k < NMEMS
    requires m.base == ms[k].base && m.Cap() == ms[k].Cap() && 0 <= m.full && 0 <= m.left
    ensures Tiled(ms[k := m], brk) && Aligned(ms[k := m])
  {
    var ms' := ms[k := m];
    forall i | 0 <= i < NMEMS ensures Sane(ms'[i], brk) && OnBoundary(ms'[i]) {
      assert Sane(ms[i], brk) && OnBoundary(ms[i]);
    }
    forall i | 0 <= i < NMEMS - 1 ensures Adjacent(ms', i) { assert Adjacent(ms, i); }
  }

  // ------------------------------------------- what outlives a lack of core

  /** Pieces that are emptied when core runs out. */
  predicate Released(i: int) {
    i != ALLOGLOB && i != ALLOGCHR && i != ALLOSYMB && i != ALLOARCH && i != ALLOMODL && i != ALLORANL
  }

  /** Pieces that the second pass can do without. */
  predicate Dropped(i: int) {
    i != ALLOGLOB && i != ALLOGCHR && i != ALLOSYMB && i != ALLOARCH
  }

  function EmptiedPiece(m: Piece): Piece {
    Piece(m.base, 0, m.full + m.left)
  }

  /** How many bytes an allocation takes. */
  function Charge(piece: nat, size: nat): (n: nat)
    ensures size <= n < size + INTSIZE
  {
    if piece == ALLOMODL || piece == ALLORANL then IntAlign(size) else size
  }

  /**
    The symbol table, the archive positions, the ranlib table and the current
    module, which starts at `pos` in its piece, are all still there; `piece` has
    `n` more bytes.
   */
  ghost predicate Kept(b: seq<byte>, ms: seq<Piece>, pos: int, b': seq<byte>, ms': seq<Piece>, pos': int, piece: nat,
      n: nat) {
    && |ms| == |ms'| == NMEMS
    && (forall i :: 0 <= i < NMEMS && i != ALLOMODL && !Released(i) ==>
        GrownAt(b, ms[i], b', ms'[i], if i == piece then n else 0))
    && ModuleKept(b, ms[ALLOMODL], pos, b', ms'[ALLOMODL], pos', if piece == ALLOMODL then n else 0)
  }

  /** A byte of the current module, the source's modulptr(offset). */
  function ModuleByte(b: seq<byte>, m: Piece, pos: int, offset: int): byte
    requires 0 <= m.base + pos + offset < |b|
  {
    b[m.base + pos + offset]
  }

  ghost predicate ModuleKept(b: seq<byte>, m: Piece, pos: int, b': seq<byte>, m': Piece, pos': int, n: nat) {
    && 0 <= pos <= m.full && 0 <= pos' <= m'.full
    && m'.full - pos' == m.full - pos + n
    && 0 <= m.base <= m.base + m.full <= |b|
    && 0 <= m'.base <= m'.base + m'.full <= |b'|
    && forall o :: 0 <= o < m.full - pos ==> ModuleByte(b', m', pos', o) == ModuleByte(b, m, pos, o)
  }

  ghost predicate Within(ms: seq<Piece>, limit: int) {
    forall i :: 0 <= i < |ms| ==> 0 <= ms[i].base && 0 <= ms[i].full && ms[i].base + ms[i].full <= limit
  }

  lemma TiledWithin(ms: seq<Piece>, brk: int, limit: int)
    requires Tiled(ms, brk) && brk <= limit
    ensures Within(ms, limit)
  {
    forall i | 0 <= i < |ms| ensures 0 <= ms[i].base && 0 <= ms[i].full && ms[i].base + ms[i].full <= limit {
      assert Sane(ms[i], brk);
    }
  }

  lemma GrownKept(b: seq<byte>, ms: seq<Piece>, b': seq<byte>, ms': seq<Piece>, pos: int, piece: nat, n: nat)
    requires Grown(b, ms, b', ms', piece, n) && |ms| == NMEMS && Within(ms, |b|) && Within(ms', |b'|)
    requires 0 <= pos <= ms[ALLOMODL].full
    ensures Kept(b, ms, pos, b', ms', pos, piece, n)
  {
    var m, m' := ms[ALLOMODL], ms'[ALLOMODL];
    assert GrownAt(b, m, b', m', if piece == ALLOMODL then n else 0);
    forall o | 0 <= o < m.full - pos ensures ModuleByte(b', m', pos, o) == ModuleByte(b, m, pos, o) {
      assert ByteAt(b', m', pos + o) == ByteAt(b, m, pos + o);
    }
  }

  lemma SameLiveGrown(b: seq<byte>, ms: seq<Piece>, b': seq<byte>, ms': seq<Piece>, piece: nat)
    requires SameLive(b, ms, b', ms')
    ensures Grown(b, ms, b', ms', piece, 0)
  {
    forall i | 0 <= i < |ms| ensures GrownAt(b, ms[i], b', ms'[i], 0) { assert SameBytes(b, ms[i], b', ms'[i]); }
  }

  lemma GrownAtTrans(b: seq<byte>, m: Piece, b1: seq<byte>, m1: Piece, b2: seq<byte>, m2: Piece, n1: nat, n2: nat)
    requires 0 <= m.full && GrownAt(b, m, b1, m1, n1) && GrownAt(b1, m1, b2, m2, n2)
    ensures GrownAt(b, m, b2, m2, n1 + n2)
  {
    forall o | 0 <= o < m.full ensures ByteAt(b2, m2, o) == ByteAt(b, m, o) {
      assert ByteAt(b1, m1, o) == ByteAt(b, m, o) && ByteAt(b2, m2, o) == ByteAt(b1, m1, o);
    }
  }

  lemma KeptTrans(b: seq<byte>, ms: seq<Piece>, pos: int, b1: seq<byte>, ms1: seq<Piece>, pos1: int,
                  b2: seq<byte>, ms2: seq<Piece>, pos2: int, piece: nat, n: nat)
    requires Within(ms, |b|) && Kept(b, ms, pos, b1, ms1, pos1, piece, 0)
        && Kept(b1, ms1, pos1, b2, ms2, pos2, piece, n)
    ensures Kept(b, ms, pos, b2, ms2, pos2, piece, n)
  {
    forall i | 0 <= i < NMEMS && i != ALLOMODL && !Released(i)
        ensures GrownAt(b, ms[i], b2, ms2[i], if i == piece then n else 0) {
      assert GrownAt(b, ms[i], b1, ms1[i], if i == piece then 0 else 0);
      GrownAtTrans(b, ms[i], b1, ms1[i], b2, ms2[i], 0, if i == piece then n else 0);
    }
    var m, m1, m2 := ms[ALLOMODL], ms1[ALLOMODL], ms2[ALLOMODL];
    forall o | 0 <= o < m.full - pos ensures ModuleByte(b2, m2, pos2, o) == ModuleByte(b, m, pos, o) {
      assert ModuleByte(b1, m1, pos1, o) == ModuleByte(b, m, pos, o)
          && ModuleByte(b2, m2, pos2, o) == ModuleByte(b1, m1, pos1, o);
    }
  }

  /** A name, a name's string, a symbol or an archive position is never lost. */
  ghost predicate Preserved(b: seq<byte>, ms: seq<Piece>, b': seq<byte>, ms': seq<Piece>) {
    && |ms| == |ms'| == NMEMS
    && forall i :: 0 <= i < NMEMS && !Dropped(i) ==> Extends(b, ms[i], b', ms'[i])
  }

  ghost predicate Extends(b: seq<byte>, m: Piece, b': seq<byte>, m': Piece) {
    m.full <= m'.full && KeptBytes(b, m, b', m', m.full)
  }

  lemma ExtendsTrans(b: seq<byte>, m: Piece, b1: seq<byte>, m1: Piece, b2: seq<byte>, m2: Piece)
    requires Extends(b, m, b1, m1) && Extends(b1, m1, b2, m2)
    ensures Extends(b, m, b2, m2)
  {
    forall o | 0 <= o < m.full ensures ByteAt(b2, m2, o) == ByteAt(b, m, o) {
      assert ByteAt(b1, m1, o) == ByteAt(b, m, o) && ByteAt(b2, m2, o) == ByteAt(b1, m1, o);
    }
  }

  lemma PreservedTrans(b: seq<byte>, ms: seq<Piece>, b1: seq<byte>, ms1: seq<Piece>, b2: seq<byte>, ms2: seq<Piece>)
    requires Preserved(b, ms, b1, ms1) && Preserved(b1, ms1, b2, ms2)
    ensures Preserved(b, ms, b2, ms2)
  {
    forall i | 0 <= i < NMEMS && !Dropped(i) ensures Extends(b, ms[i], b2, ms2[i]) {
      assert Extends(b, ms[i], b1, ms1[i]) && Extends(b1, ms1[i], b2, ms2[i]);
      ExtendsTrans(b, ms[i], b1, ms1[i], b2, ms2[i]);
    }
  }

  lemma GrownPreserved(b: seq<byte>, ms: seq<Piece>, b': seq<byte>, ms': seq<Piece>, piece: nat, n: nat)
    requires |ms| == NMEMS && Grown(b, ms, b', ms', piece, n)
    ensures Preserved(b, ms, b', ms')
  {
    forall i | 0 <= i < NMEMS && !Dropped(i) ensures Extends(b, ms[i], b', ms'[i]) {
      assert GrownAt(b, ms[i], b', ms'[i], if i == piece then n else 0);
    }
  }

  lemma KeptPreserved(b: seq<byte>, ms: seq<Piece>, pos: int, b': seq<byte>, ms': seq<Piece>, pos': int, piece: nat,
      n: nat)
    requires Kept(b, ms, pos, b', ms', pos', piece, n)
    ensures Preserved(b, ms, b', ms')
  {
    forall i | 0 <= i < NMEMS && !Dropped(i) ensures Extends(b, ms[i], b', ms'[i]) {
      assert GrownAt(b, ms[i], b', ms'[i], if i == piece then n else 0);
    }
  }

  lemma ShrunkPreserved(b: seq<byte>, ms: seq<Piece>, piece: nat, m: Piece)
    requires |ms| == NMEMS && Within(ms, |b|) && piece < NMEMS && Dropped(piece)
    ensures Preserved(b, ms, b, ms[piece := m])
  {
    forall i | 0 <= i < NMEMS && !Dropped(i) ensures Extends(b, ms[i], b, ms[piece := m][i]) {
      assert ms[piece := m][i] == ms[i];
    }
  }

  // ---------------------------------------------------------------- the start

  predicate HoldsStrings(i: nat) {
    i == ALLOLCHR || i == ALLOGCHR
  }

  /**
    The first byte of a string area is unused, so that a name without a string
    differs from one that has the first string.
   */
  function InitialPiece(i: nat, base: int, left: nat): Piece {
    var cap := if HoldsStrings(i) && left == 0 then ALIGN else left;
    if HoldsStrings(i) then Piece(base, 1, cap - 1) else Piece(base, 0, cap)
  }

  /** The first k pieces, laid out one after the other from `start`. */
  ghost predicate InitialTable(ms: seq<Piece>, lefts: seq<nat>, start: int, k: nat) {
    && |ms| == k <= |lefts|
    && forall i :: 0 <= i < k ==> InitialAt(ms, lefts, start, i)
  }

  ghost predicate InitialAt(ms: seq<Piece>, lefts: seq<nat>, start: int, i: nat)
    requires i < |ms| <= |lefts|
  {
    ms[i] == InitialPiece(i, if i == 0 then start else ms[i - 1].End(), lefts[i])
  }

  lemma InitialNext(ms: seq<Piece>, lefts: seq<nat>, start: int, k: nat, m: Piece)
    requires InitialTable(ms, lefts, start, k) && k < |lefts|
    requires m == InitialPiece(k, if k == 0 then start else ms[k - 1].End(), lefts[k])
    ensures InitialTable(ms + [m], lefts, start, k + 1)
  {
    var ms' := ms + [m];
    forall i | 0 <= i < |ms'| ensures InitialAt(ms', lefts, start, i) {
      if i < k { assert InitialAt(ms, lefts, start, i); }
    }
  }

  /** Where the first k pieces end. */
  function InitialEnd(lefts: seq<nat>, start: nat, k: nat): (e: nat)
    requires k <= |lefts|
    ensures e >= start
  {
    if k == 0 then start
    else InitialEnd(lefts, start, k - 1) + if HoldsStrings(k - 1) && lefts[k - 1] == 0 then ALIGN else lefts[k - 1]
  }

  lemma {:induction false} InitialEndIs(ms: seq<Piece>, lefts: seq<nat>, start: nat, k: nat)
    requires InitialTable(ms, lefts, start, |ms|) && 0 < k <= |ms|
    ensures ms[k - 1].End() == InitialEnd(lefts, start, k)
    decreases k
  {
    assert InitialAt(ms, lefts, start, k - 1);
    if k > 1 { InitialEndIs(ms, lefts, start, k - 1); }
  }

  /** With no free space asked for, only the two string areas take any. */
  lemma {:induction false} SmallestEnd(start: nat, k: nat)
    requires k <= NMEMS
    ensures InitialEnd(NoLefts(), start, k)
         == start + (if k > ALLOLCHR then ALIGN else 0) + if k > ALLOGCHR then ALIGN else 0
    decreases k
  {
    if k > 0 { SmallestEnd(start, k - 1); }
  }

  function NoLefts(): (lefts: seq<nat>)
    ensures |lefts| == NMEMS && forall i :: 0 <= i < NMEMS ==> lefts[i] == 0
  {
    seq(NMEMS, _ => 0)
  }

  lemma {:induction false} InitialBounds(ms: seq<Piece>, lefts: seq<nat>, start: int, brk: int, k: nat, i: nat)
    requires InitialTable(ms, lefts, start, k) && i < k && 0 <= start && ms[k - 1].End() <= brk
    requires Multiple(start) && forall j :: 0 <= j < |lefts| ==> Multiple(lefts[j])
    ensures start <= ms[i].base && 0 <= ms[i].full && 0 <= ms[i].left && OnBoundary(ms[i])
    decreases i
  {
    assert InitialAt(ms, lefts, start, i);
    MultipleIs(ALIGN);
    if i > 0 {
      InitialBounds(ms, lefts, start, brk, k, i - 1);
      AlignSum(ms[i - 1].base, ms[i - 1].Cap());
    }
    assert lefts[i] % ALIGN == 0 by { MultipleIs(lefts[i]); }
  }

  lemma {:induction false} InitialEnds(ms: seq<Piece>, lefts: seq<nat>, start: int, brk: int, k: nat, i: nat)
    requires InitialTable(ms, lefts, start, k) && i < k && 0 <= start && ms[k - 1].End() <= brk
    requires Multiple(start) && forall j :: 0 <= j < |lefts| ==> Multiple(lefts[j])
    ensures ms[i].End() <= brk
    decreases k - i
  {
    if i < k - 1 {
      InitialEnds(ms, lefts, start, brk, k, i + 1);
      InitialBounds(ms, lefts, start, brk, k, i + 1);
      assert InitialAt(ms, lefts, start, i + 1);
    }
  }

  lemma InitialValid(ms: seq<Piece>, lefts: seq<nat>, start: int, brk: int)
    requires InitialTable(ms, lefts, start, NMEMS) && 0 <= start && ms[NMEMS - 1].End() <= brk
    requires Multiple(start) && forall j :: 0 <= j < |lefts| ==> Multiple(lefts[j])
    ensures Tiled(ms, brk) && Aligned(ms)
  {
    forall i | 0 <= i < NMEMS ensures Sane(ms[i], brk) && OnBoundary(ms[i]) {
      InitialBounds(ms, lefts, start, brk, NMEMS, i);
      InitialEnds(ms, lefts, start, brk, NMEMS, i);
    }
    forall i | 0 <= i < NMEMS - 1 ensures Adjacent(ms, i) {
      assert InitialAt(ms, lefts, start, i + 1);
    }
  }
}
