/** What a run of uses of the memory manager leaves of each piece. */
module CoreRuns {
  import opened Bytes
  import opened CoreMemory

  /**
    A use of the memory manager by the rest of the linker. Offsets in the module
    piece are those of the current module; CallSkip is the scanner's skip_modul.
   */
  datatype Call =
    | CallAlloc(piece: nat, size: nat)
    | CallHardAlloc(piece: nat, size: nat)
    | CallCoreFree(piece: nat, offset: nat)
    | CallDealloc(piece: nat)
    | CallSkip(size: nat)

  /** How much of the first n bytes of a piece a use leaves; for the module piece, of the current module. */
  function Cut(c: Call, piece: nat, n: int): (r: int)
    ensures r <= n && (n >= 0 ==> r >= 0)
  {
    match c
    case CallCoreFree(p, offset) => if p == piece && offset < n then offset else n
    case CallDealloc(p) => if p == piece && n > 0 then 0 else n
    case CallSkip(_) => if piece == ALLOMODL && n > 0 then 0 else n
    case _ => n
  }

  /** The same when everything is kept in core: a module that is skipped is saved. */
  function CutInCore(c: Call, piece: nat, n: int): (r: int)
    ensures r <= n && (n >= 0 ==> r >= 0)
  {
    if c.CallSkip? then n else Cut(c, piece, n)
  }

  /** What a run leaves: everything below the lowest offset that it frees. */
  function Floor(calls: seq<Call>, piece: nat, n: int): (r: int)
    ensures r <= n && (n >= 0 ==> r >= 0)
  {
    if |calls| == 0 then n else Cut(calls[|calls| - 1], piece, Floor(calls[..|calls| - 1], piece, n))
  }

  function FloorInCore(calls: seq<Call>, piece: nat, n: int): (r: int)
    ensures r <= n && (n >= 0 ==> r >= 0)
  {
    if |calls| == 0 then n else CutInCore(calls[|calls| - 1], piece, FloorInCore(calls[..|calls| - 1], piece, n))
  }

  /** The first n bytes of a piece are still in use and the same. */
  ghost predicate KeptTo(b: seq<byte>, m: Piece, b': seq<byte>, m': Piece, n: int) {
    n <= m.full && n <= m'.full && KeptBytes(b, m, b', m', n)
  }

  /** The first n bytes of the current module are. */
  ghost predicate ModuleKeptTo(b: seq<byte>, m: Piece, pos: int, b': seq<byte>, m': Piece, pos': int, n: int) {
    && 0 <= pos && 0 <= pos' && 0 <= m.base && 0 <= m'.base
    && 0 <= n <= m.full - pos && n <= m'.full - pos'
    && m.base + m.full <= |b| && m'.base + m'.full <= |b'|
    && forall o :: 0 <= o < n ==> ModuleByte(b', m', pos', o) == ModuleByte(b, m, pos, o)
  }

  /** All bytes that a piece has in use, where the current module starts at pos in the module piece. */
  function InUse(ms: seq<Piece>, i: nat, pos: int): int
    requires i < |ms|
  {
    if i == ALLOMODL then ms[i].full - pos else ms[i].full
  }

  function Start(i: nat, pos: int): int {
    if i == ALLOMODL then pos else 0
  }

  /** Piece i has what the run leaves of it, saved modules included. */
  ghost predicate AllKept(calls: seq<Call>, b: seq<byte>, ms: seq<Piece>, pos: int, b': seq<byte>, ms': seq<Piece>,
      i: nat)
    requires i < |ms| == |ms'|
  {
    KeptTo(b, ms[i], b', ms'[i], Start(i, pos) + FloorInCore(calls, i, InUse(ms, i, pos)))
  }

  /**
    The ranlib table and the current module are there below the lowest offset
    that was freed; as long as everything is in core, so is every piece.
   */
  ghost predicate RunKept(calls: seq<Call>, b: seq<byte>, ms: seq<Piece>, pos: int, b': seq<byte>, ms': seq<Piece>,
      pos': int, incore: bool) {
    && |ms| == |ms'| == NMEMS
    && KeptTo(b, ms[ALLORANL], b', ms'[ALLORANL], Floor(calls, ALLORANL, ms[ALLORANL].full))
    && ModuleKeptTo(b, ms[ALLOMODL], pos, b', ms'[ALLOMODL], pos', Floor(calls, ALLOMODL, ms[ALLOMODL].full - pos))
    && (incore ==> pos <= pos' && forall i :: 0 <= i < NMEMS ==> AllKept(calls, b, ms, pos, b', ms', i))
  }

  lemma KeptToTrans(b: seq<byte>, m: Piece, b1: seq<byte>, m1: Piece, b2: seq<byte>, m2: Piece, n: int, n1: int,
      n2: int)
    requires KeptTo(b, m, b1, m1, n) && KeptTo(b1, m1, b2, m2, n1) && 0 <= n2 <= n && n2 <= n1
    ensures KeptTo(b, m, b2, m2, n2)
  {
    forall o | 0 <= o < n2 ensures ByteAt(b2, m2, o) == ByteAt(b, m, o) {
      assert ByteAt(b1, m1, o) == ByteAt(b, m, o) && ByteAt(b2, m2, o) == ByteAt(b1, m1, o);
    }
  }

  lemma ModuleKeptToTrans(b: seq<byte>, m: Piece, pos: int, b1: seq<byte>, m1: Piece, pos1: int, b2: seq<byte>,
      m2: Piece, pos2: int, n: int, n1: int, n2: int)
    requires ModuleKeptTo(b, m, pos, b1, m1, pos1, n) && ModuleKeptTo(b1, m1, pos1, b2, m2, pos2, n1) && 0 <= n2 <= n
        && n2 <= n1
    ensures ModuleKeptTo(b, m, pos, b2, m2, pos2, n2)
  {
    forall o | 0 <= o < n2 ensures ModuleByte(b2, m2, pos2, o) == ModuleByte(b, m, pos, o) {
      assert ModuleByte(b1, m1, pos1, o) == ModuleByte(b, m, pos, o)
          && ModuleByte(b2, m2, pos2, o) == ModuleByte(b1, m1, pos1, o);
    }
  }

  lemma FloorNext(calls: seq<Call>, c: Call, piece: nat, n: int)
    ensures Floor(calls + [c], piece, n) == Cut(c, piece, Floor(calls, piece, n))
    ensures FloorInCore(calls + [c], piece, n) == CutInCore(c, piece, FloorInCore(calls, piece, n))
  {
    assert (calls + [c])[..|calls|] == calls;
  }

  lemma FloorOne(c: Call, piece: nat, n: int)
    ensures Floor([c], piece, n) == Cut(c, piece, n) && FloorInCore([c], piece, n) == CutInCore(c, piece, n)
  {
    assert [c] == [] + [c];
    FloorNext([], c, piece, n);
  }

  lemma CutMonotone(c: Call, piece: nat, n: int, n': int)
    requires n <= n'
    ensures Cut(c, piece, n) <= Cut(c, piece, n') && CutInCore(c, piece, n) <= CutInCore(c, piece, n')
  {
  }

  lemma AllKeptNext(calls: seq<Call>, c: Call, b: seq<byte>, ms: seq<Piece>, pos: int, b1: seq<byte>, ms1: seq<Piece>,
      pos1: int, b2: seq<byte>, ms2: seq<Piece>, i: nat)
    requires i < NMEMS == |ms| == |ms1| == |ms2| && 0 <= pos <= pos1 && 0 <= InUse(ms, i, pos)
    requires AllKept(calls, b, ms, pos, b1, ms1, i) && AllKept([c], b1, ms1, pos1, b2, ms2, i)
    ensures AllKept(calls + [c], b, ms, pos, b2, ms2, i)
  {
    FloorNext(calls, c, i, InUse(ms, i, pos));
    FloorOne(c, i, InUse(ms1, i, pos1));
    var n, n1 := FloorInCore(calls, i, InUse(ms, i, pos)), InUse(ms1, i, pos1);
    CutLater(c, i, n, n1, Start(i, pos1) - Start(i, pos));
    KeptToTrans(b, ms[i], b1, ms1[i], b2, ms2[i], Start(i, pos) + n, Start(i, pos1)
        + CutInCore(c, i, n1), Start(i, pos) + CutInCore(c, i, n));
  }

  /** Offsets are counted from a later start by d. */
  lemma CutLater(c: Call, piece: nat, n: int, n1: int, d: nat)
    requires n <= n1 + d
    ensures CutInCore(c, piece, n) <= d + CutInCore(c, piece, n1)
  {
  }

  /** One more use. */
  lemma RunKeptNext(calls: seq<Call>, c: Call, b: seq<byte>, ms: seq<Piece>, pos: int, b1: seq<byte>, ms1: seq<Piece>,
      pos1: int, incore1: bool, b2: seq<byte>, ms2: seq<Piece>, pos2: int, incore2: bool)
    requires RunKept(calls, b, ms, pos, b1, ms1, pos1, incore1) && RunKept([c], b1, ms1, pos1, b2, ms2, pos2, incore2)
    requires (incore2 ==> incore1) && 0 <= pos && forall i :: 0 <= i < NMEMS ==> 0 <= InUse(ms, i, pos)
    ensures RunKept(calls + [c], b, ms, pos, b2, ms2, pos2, incore2)
  {
    var r, r1 := ms[ALLORANL], ms1[ALLORANL];
    assert InUse(ms, ALLORANL, pos) == r.full;
    FloorNext(calls, c, ALLORANL, r.full);
    FloorOne(c, ALLORANL, r1.full);
    var n := Floor(calls, ALLORANL, r.full);
    CutMonotone(c, ALLORANL, n, r1.full);
    KeptToTrans(b, r, b1, r1, b2, ms2[ALLORANL], n, Cut(c, ALLORANL, r1.full), Cut(c, ALLORANL, n));
    ModuleNext(calls, c, b, ms, pos, b1, ms1, pos1, b2, ms2, pos2);
    if incore2 {
      forall i | 0 <= i < NMEMS ensures AllKept(calls + [c], b, ms, pos, b2, ms2, i) {
        assert AllKept(calls, b, ms, pos, b1, ms1, i) && AllKept([c], b1, ms1, pos1, b2, ms2, i);
        assert 0 <= InUse(ms, i, pos);
        AllKeptNext(calls, c, b, ms, pos, b1, ms1, pos1, b2, ms2, i);
      }
    }
  }

  lemma ModuleNext(calls: seq<Call>, c: Call, b: seq<byte>, ms: seq<Piece>, pos: int, b1: seq<byte>, ms1: seq<Piece>,
      pos1: int, b2: seq<byte>, ms2: seq<Piece>, pos2: int)
    requires |ms| == |ms1| == |ms2| == NMEMS
    requires ModuleKeptTo(b, ms[ALLOMODL], pos, b1, ms1[ALLOMODL], pos1,
        Floor(calls, ALLOMODL, ms[ALLOMODL].full - pos))
    requires ModuleKeptTo(b1, ms1[ALLOMODL], pos1, b2, ms2[ALLOMODL], pos2,
        Floor([c], ALLOMODL, ms1[ALLOMODL].full - pos1))
    ensures ModuleKeptTo(b, ms[ALLOMODL], pos, b2, ms2[ALLOMODL], pos2,
        Floor(calls + [c], ALLOMODL, ms[ALLOMODL].full - pos))
  {
    var n, n1 := Floor(calls, ALLOMODL, ms[ALLOMODL].full - pos), ms1[ALLOMODL].full - pos1;
    FloorNext(calls, c, ALLOMODL, ms[ALLOMODL].full - pos);
    FloorOne(c, ALLOMODL, n1);
    CutMonotone(c, ALLOMODL, n, n1);
    ModuleKeptToTrans(b, ms[ALLOMODL], pos, b1, ms1[ALLOMODL], pos1, b2, ms2[ALLOMODL], pos2, n, Cut(c, ALLOMODL, n1),
        Cut(c, ALLOMODL, n));
  }

  lemma KeptLess(b: seq<byte>, m: Piece, b': seq<byte>, m': Piece, n: int, n': int)
    requires KeptTo(b, m, b', m', n) && 0 <= n' <= n
    ensures KeptTo(b, m, b', m', n')
  {
  }

  /** A use that is not made. */
  lemma RunKeptIdle(calls: seq<Call>, c: Call, b: seq<byte>, ms: seq<Piece>, pos: int, b1: seq<byte>, ms1: seq<Piece>,
      pos1: int, incore1: bool)
    requires RunKept(calls, b, ms, pos, b1, ms1, pos1, incore1) && 0 <= pos
        && forall i :: 0 <= i < NMEMS ==> 0 <= InUse(ms, i, pos)
    ensures RunKept(calls + [c], b, ms, pos, b1, ms1, pos1, incore1)
  {
    FloorNext(calls, c, ALLORANL, ms[ALLORANL].full);
    FloorNext(calls, c, ALLOMODL, ms[ALLOMODL].full - pos);
    assert InUse(ms, ALLORANL, pos) == ms[ALLORANL].full;
    if incore1 {
      forall i | 0 <= i < NMEMS ensures AllKept(calls + [c], b, ms, pos, b1, ms1, i) {
        assert AllKept(calls, b, ms, pos, b1, ms1, i) && 0 <= InUse(ms, i, pos);
        FloorNext(calls, c, i, InUse(ms, i, pos));
        var n := FloorInCore(calls, i, InUse(ms, i, pos));
        KeptLess(b, ms[i], b1, ms1[i], Start(i, pos) + n, Start(i, pos) + CutInCore(c, i, n));
      }
    }
  }

  // ---------------------------------------------------------------- single uses

  lemma NothingKept(b: seq<byte>, ms: seq<Piece>, pos: int, incore: bool)
    requires |ms| == NMEMS && Within(ms, |b|) && 0 <= pos <= ms[ALLOMODL].full
    ensures RunKept([], b, ms, pos, b, ms, pos, incore)
  {
    forall i | 0 <= i < NMEMS ensures AllKept([], b, ms, pos, b, ms, i) {}
  }

  /** A use that only adds to a piece. */
  lemma GrownRunKept(c: Call, b: seq<byte>, ms: seq<Piece>, pos: int, b': seq<byte>, ms': seq<Piece>, k: nat, n: nat,
      incore: bool)
    requires (c.CallAlloc? || c.CallHardAlloc?) && |ms| == NMEMS && Grown(b, ms, b', ms', k, n)
    requires Within(ms, |b|) && Within(ms', |b'|) && 0 <= pos <= ms[ALLOMODL].full
    ensures RunKept([c], b, ms, pos, b', ms', pos, incore)
  {
    forall i | 0 <= i < NMEMS
      ensures KeptTo(b, ms[i], b', ms'[i], ms[i].full) && FloorInCore([c], i, InUse(ms, i, pos)) == InUse(ms, i, pos)
    {
      assert GrownAt(b, ms[i], b', ms'[i], if i == k then n else 0);
      FloorOne(c, i, InUse(ms, i, pos));
    }
    forall i | 0 <= i < NMEMS ensures AllKept([c], b, ms, pos, b', ms', i) {}
    FloorOne(c, ALLORANL, ms[ALLORANL].full);
    FloorOne(c, ALLOMODL, ms[ALLOMODL].full - pos);
    assert KeptTo(b, ms[ALLOMODL], b', ms'[ALLOMODL], ms[ALLOMODL].full);
    forall o | 0 <= o < ms[ALLOMODL].full - pos
        ensures ModuleByte(b', ms'[ALLOMODL], pos, o) == ModuleByte(b, ms[ALLOMODL], pos, o) {
      assert ByteAt(b', ms'[ALLOMODL], pos + o) == ByteAt(b, ms[ALLOMODL], pos + o);
    }
  }

  /** A use that may have released what is only there for convenience. */
  lemma KeptRunKept(c: Call, b: seq<byte>, ms: seq<Piece>, pos: int, b': seq<byte>, ms': seq<Piece>, pos': int,
      k: nat, n: nat)
    requires c.CallHardAlloc? && Kept(b, ms, pos, b', ms', pos', k, n) && 0 <= ms[ALLORANL].full
    ensures RunKept([c], b, ms, pos, b', ms', pos', false)
  {
    assert GrownAt(b, ms[ALLORANL], b', ms'[ALLORANL], if ALLORANL == k then n else 0);
    FloorOne(c, ALLORANL, ms[ALLORANL].full);
    FloorOne(c, ALLOMODL, ms[ALLOMODL].full - pos);
  }

  /** A use that gives back what piece k has from offset p on. */
  lemma ShrunkRunKept(c: Call, b: seq<byte>, ms: seq<Piece>, pos: int, ms': seq<Piece>, k: nat, p: int, incore: bool)
    requires |ms| == NMEMS && Within(ms, |b|) && 0 <= pos <= ms[ALLOMODL].full && k < NMEMS
    requires 0 <= p <= ms[k].full && ms' == ms[k := Piece(ms[k].base, p, ms[k].Cap() - p)]
    requires (c.CallCoreFree? && c.piece == k && p == Start(k, pos) + c.offset)
        || (c.CallDealloc? && c.piece == k && k != ALLOMODL && p == 0)
    ensures RunKept([c], b, ms, pos, b, ms', pos, incore)
  {
    forall i | 0 <= i < NMEMS ensures AllKept([c], b, ms, pos, b, ms', i) { FloorOne(c, i, InUse(ms, i, pos)); }
    FloorOne(c, ALLORANL, ms[ALLORANL].full);
    FloorOne(c, ALLOMODL, ms[ALLOMODL].full - pos);
  }

  /** A module that is saved. */
  lemma SkippedRunKept(c: Call, b: seq<byte>, ms: seq<Piece>, pos: int, pos': int, incore: bool)
    requires c.CallSkip? && |ms| == NMEMS && Within(ms, |b|) && 0 <= pos <= pos' <= ms[ALLOMODL].full
    ensures RunKept([c], b, ms, pos, b, ms, pos', incore)
  {
    forall i | 0 <= i < NMEMS ensures AllKept([c], b, ms, pos, b, ms, i) { FloorOne(c, i, InUse(ms, i, pos)); }
    FloorOne(c, ALLORANL, ms[ALLORANL].full);
    FloorOne(c, ALLOMODL, ms[ALLOMODL].full - pos);
  }

  /** A module that is given up. */
  lemma GivenUpRunKept(c: Call, b: seq<byte>, ms: seq<Piece>, pos: int, ms': seq<Piece>)
    requires c.CallSkip? && |ms| == NMEMS && Within(ms, |b|) && 0 <= pos <= ms[ALLOMODL].full
    requires ms' == ms[ALLOMODL := EmptiedPiece(ms[ALLOMODL])]
    ensures RunKept([c], b, ms, pos, b, ms', 0, false)
  {
    FloorOne(c, ALLORANL, ms[ALLORANL].full);
    FloorOne(c, ALLOMODL, ms[ALLOMODL].full - pos);
  }
}
