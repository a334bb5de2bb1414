/**
  Compaction (Ack-5.5/ld/memory.c:173-349): how much each piece may give up, the
  layout that the moves leave behind, and why no byte in use is overwritten on
  the way.
 */
module Compaction {
  import opened Bytes
  import opened CoreMemory

  /** How many free bytes a piece keeps for itself. */
  function Keep(m: Piece, flag: Flag): int {
    if flag != Normal then 0
    else if m.full / 4 == 0 then m.left / 2 else m.full / 4
  }

  /** The largest multiple of ALIGN that is not above n. */
  function AlignDown(n: nat): (r: nat)
    ensures r <= n < r + ALIGN
  {
    if n < ALIGN then 0 else ALIGN + AlignDown(n - ALIGN)
  }

  lemma {:induction false} AlignDownAligned(n: nat)
    ensures Multiple(AlignDown(n))
  {
    if n >= ALIGN {
      AlignDownAligned(n - ALIGN);
    }
  }

  /** How many free bytes compaction may take away from a piece. */
  function Give(m: Piece, flag: Flag): (g: nat)
    ensures 0 <= m.left && 0 <= m.full ==> g <= m.left
  {
    var spare := m.left - Keep(m, flag);
    if spare >= 0 then AlignDown(spare) else 0
  }

  lemma GiveSame(m: Piece, m': Piece, flag: Flag)
    requires m.full == m'.full && m.left == m'.left
    ensures Give(m, flag) == Give(m', flag)
  {
  }

  lemma GiveAligned(m: Piece, flag: Flag)
    ensures Multiple(Give(m, flag))
  {
    var spare := m.left - Keep(m, flag);
    if spare >= 0 { AlignDownAligned(spare); }
  }

  /** What compaction has to find: in NORMAL mode a bit more than asked for. */
  function Need(m: Piece, incr: int, flag: Flag): int {
    if flag == Normal && incr < (m.full + incr) / 4 then (m.full + incr) / 4 else incr
  }

  ghost function Gives(ms: seq<Piece>, flag: Flag): (g: seq<nat>)
    ensures |g| == |ms|
    ensures forall i :: 0 <= i < |ms| ==> g[i] == Give(ms[i], flag)
  {
    seq(|ms|, i requires 0 <= i < |ms| => Give(ms[i], flag))
  }

  /** Every piece owns the free bytes it offers. */
  ghost predicate Owns(ms: seq<Piece>, g: seq<nat>) {
    |g| == |ms| && forall i :: 0 <= i < |ms| ==> OwnsAt(ms, g, i)
  }

  ghost predicate OwnsAt(ms: seq<Piece>, g: seq<nat>, i: nat)
    requires i < |ms| == |g|
  {
    g[i] <= ms[i].left
  }

  lemma GivesOwned(ms: seq<Piece>, brk: int, flag: Flag)
    requires Tiled(ms, brk)
    ensures Owns(ms, Gives(ms, flag))
  {
    forall i | 0 <= i < |ms| ensures OwnsAt(ms, Gives(ms, flag), i) { assert Sane(ms[i], brk); }
  }

  ghost predicate AllAligned(g: seq<nat>) {
    forall i :: 0 <= i < |g| ==> Multiple(g[i])
  }

  lemma GivesAligned(ms: seq<Piece>, flag: Flag)
    ensures AllAligned(Gives(ms, flag))
  {
    forall i | 0 <= i < |ms| ensures Multiple(Gives(ms, flag)[i]) { GiveAligned(ms[i], flag); }
  }

  // ---------------------------------------------------------------- amounts

  ghost function Sum(g: seq<nat>, lo: nat, hi: nat): nat
    requires hi <= |g|
    decreases hi
  {
    if hi <= lo then 0 else Sum(g, lo, hi - 1) + g[hi - 1]
  }

  lemma {:induction false} SumFront(g: seq<nat>, lo: nat, hi: nat)
    requires lo < hi <= |g|
    ensures Sum(g, lo, hi) == g[lo] + Sum(g, lo + 1, hi)
    decreases hi
  {
    if lo + 1 < hi { SumFront(g, lo, hi - 1); }
  }

  lemma {:induction false} SumSplit(g: seq<nat>, lo: nat, mid: nat, hi: nat)
    requires lo <= mid <= hi <= |g|
    ensures Sum(g, lo, hi) == Sum(g, lo, mid) + Sum(g, mid, hi)
    decreases hi
  {
    if mid < hi { SumSplit(g, lo, mid, hi - 1); }
  }

  /** Everything compaction could ever offer `piece`. */
  ghost function Available(ms: seq<Piece>, piece: nat, flag: Flag): int
    requires piece < |ms|
  {
    ms[piece].left + Sum(Gives(ms, flag), 0, piece) + Sum(Gives(ms, flag), piece + 1, |ms|)
  }

  /**
    Pieces lo .. hi take part: as few as possible, and none above `piece` if the
    ones below offer enough.
   */
  ghost predicate PlanOf(ms: seq<Piece>, piece: nat, need: int, flag: Flag, lo: nat, hi: nat) {
    && |ms| == NMEMS && lo <= piece <= hi < NMEMS
    && Suffices(Gives(ms, flag), ms[piece].left, piece, need, lo, hi)
  }

  ghost predicate Suffices(g: seq<nat>, left: int, piece: nat, need: int, lo: nat, hi: nat)
    requires lo <= piece <= hi < |g|
  {
    if hi == piece then
      && lo < piece
      && left + Sum(g, lo, piece) >= need
      && (lo + 1 < piece ==> left + Sum(g, lo + 1, piece) < need)
    else
      && lo == 0
      && (0 < piece ==> left + Sum(g, 0, piece) < need)
      && left + Sum(g, 0, piece) + Sum(g, piece + 1, hi + 1) >= need
      && (piece + 1 < hi ==> left + Sum(g, 0, piece) + Sum(g, piece + 1, hi) < need)
  }

  lemma PlanAvailable(g: seq<nat>, left: int, piece: nat, need: int, lo: nat, hi: nat)
    requires lo <= piece <= hi < |g| && Suffices(g, left, piece, need, lo, hi)
    ensures left + Sum(g, 0, piece) + Sum(g, piece + 1, |g|) >= need
  {
    SumSplit(g, 0, lo, piece);
    SumSplit(g, piece + 1, hi + 1, |g|);
  }

  ghost predicate OffersBelow(g: seq<nat>, left: int, piece: nat, need: int, gain: int, min: nat)
    requires piece < |g|
  {
    && min <= piece
    && (min == piece ==> gain == left + Sum(g, 0, piece) && (0 < piece ==> gain < need))
    && (min < piece ==>
        gain == left + Sum(g, min, piece) && gain >= need && (min + 1 < piece ==> left + Sum(g, min + 1, piece) < need))
  }

  ghost predicate OffersAbove(g: seq<nat>, from: int, piece: nat, need: int, gain: int, max: nat)
    requires piece < |g|
  {
    && piece <= max < |g|
    && (max == piece ==> gain == from + Sum(g, piece + 1, |g|) && (piece + 1 < |g| ==> gain < need))
    && (max > piece ==>
        gain == from + Sum(g, piece + 1, max + 1) && gain >= need
        && (piece + 1 < max ==> from + Sum(g, piece + 1, max) < need))
  }

  /** Both scans together find enough exactly if there is enough. */
  lemma PlanComplete(ms: seq<Piece>, piece: nat, need: int, flag: Flag, below: int, min: nat, above: int, max: nat)
    requires |ms| == NMEMS && piece < NMEMS
    requires OffersBelow(Gives(ms, flag), ms[piece].left, piece, need, below, min)
    requires if min == piece then OffersAbove(Gives(ms, flag), below, piece, need, above, max)
        else max == piece && above == below
    ensures Available(ms, piece, flag) >= need <==> above >= need
    ensures above >= need ==> PlanOf(ms, piece, need, flag, if min == piece then 0 else min, max)
  {
    var g := Gives(ms, flag);
    if min < piece { SumSplit(g, 0, min, piece); }
    else if max > piece { SumSplit(g, piece + 1, max + 1, NMEMS); }
  }

  /**
    One moving pass: `piece` wants `need` bytes; pieces lo .. hi take part, i
    giving g[i]; `all` means that every one of them gives, needed or not.
   */
  datatype Job = Job(g: seq<nat>, piece: nat, lo: nat, hi: nat, need: int, all: bool) {
    ghost predicate Fits(ms: seq<Piece>) {
      Owns(ms, g) && lo <= piece < |ms| && hi < |ms|
    }
  }

  ghost function JobOf(ms: seq<Piece>, piece: nat, lo: nat, hi: nat, need: int, flag: Flag): (j: Job)
    requires |ms| == NMEMS && lo <= piece < NMEMS && hi < NMEMS
  {
    Job(Gives(ms, flag), piece, lo, hi, need, flag == Freeze)
  }

  /** Bytes gained from lo .. k-1, in that order, stopping once it is enough. */
  ghost function Down(j: Job, k: nat): nat
    requires k <= |j.g|
    decreases k
  {
    if k <= j.lo then 0
    else
      var d := Down(j, k - 1);
      if j.all || d < j.need then d + j.g[k - 1] else d
  }

  /** Bytes gained from hi .. k, in that order, on top of `gain`. */
  ghost function Up(j: Job, gain: int, k: nat): nat
    requires j.hi < |j.g|
    decreases j.hi + 1 - k
  {
    if k > j.hi then 0
    else
      var u := Up(j, gain, k + 1);
      if j.all || gain + u < j.need then u + j.g[k] else u
  }

  /** Taking from below collects all there is, unless it reaches `need` first. */
  lemma {:induction false} DownBound(j: Job, k: nat)
    requires j.lo <= k <= |j.g|
    ensures Down(j, k) <= Sum(j.g, j.lo, k)
    ensures Down(j, k) >= j.need || Down(j, k) == Sum(j.g, j.lo, k)
    decreases k
  {
    if k > j.lo { DownBound(j, k - 1); }
  }

  lemma {:induction false} UpBound(j: Job, gain: int, k: nat)
    requires j.hi < |j.g| && k <= j.hi + 1
    ensures Up(j, gain, k) <= Sum(j.g, k, j.hi + 1)
    ensures gain + Up(j, gain, k) >= j.need || Up(j, gain, k) == Sum(j.g, k, j.hi + 1)
    decreases j.hi + 1 - k
  {
    if k <= j.hi {
      UpBound(j, gain, k + 1);
      SumFront(j.g, k, j.hi + 1);
    }
  }

  lemma {:induction false} DownAligned(j: Job, k: nat)
    requires AllAligned(j.g) && k <= |j.g|
    ensures Multiple(Down(j, k))
    decreases k
  {
    if k > j.lo {
      DownAligned(j, k - 1);
      AlignSum(Down(j, k - 1), j.g[k - 1]);
    }
  }

  lemma {:induction false} UpAligned(j: Job, gain: int, k: nat)
    requires AllAligned(j.g) && j.hi < |j.g|
    ensures Multiple(Up(j, gain, k))
    decreases j.hi + 1 - k
  {
    if k <= j.hi {
      UpAligned(j, gain, k + 1);
      AlignSum(Up(j, gain, k + 1), j.g[k]);
    }
  }

  // ------------------------------------------------------------ new layout

  ghost function Gain(ms: seq<Piece>, j: Job): int
    requires j.Fits(ms)
  {
    Down(j, j.piece) + ms[j.piece].left
  }

  ghost function Lowered(ms: seq<Piece>, j: Job, i: nat): Piece
    requires j.Fits(ms) && i < |ms|
  {
    Piece(ms[i].base - Down(j, i), ms[i].full, ms[i].left - (Down(j, i + 1) - Down(j, i)))
  }

  ghost function Raised(ms: seq<Piece>, j: Job, i: nat): Piece
    requires j.Fits(ms) && i < |ms|
  {
    var gain := Gain(ms, j);
    Piece(ms[i].base + Up(j, gain, i), ms[i].full, ms[i].left - (Up(j, gain, i) - Up(j, gain, i + 1)))
  }

  ghost function Enlarged(ms: seq<Piece>, j: Job): Piece
    requires j.Fits(ms)
  {
    var gain := Gain(ms, j);
    var up := if gain < j.need then Up(j, gain, j.piece + 1) else 0;
    Piece(ms[j.piece].base - Down(j, j.piece), ms[j.piece].full, gain + up)
  }

  ghost function CompactedPiece(ms: seq<Piece>, j: Job, i: nat): Piece
    requires j.Fits(ms) && i < |ms|
  {
    if i < j.piece then Lowered(ms, j, i)
    else if i == j.piece then Enlarged(ms, j)
    else if Gain(ms, j) < j.need then Raised(ms, j, i)
    else ms[i]
  }

  /** The layout that the moving pass leaves behind. */
  ghost function Compacted(ms: seq<Piece>, j: Job): (r: seq<Piece>)
    requires j.Fits(ms)
    ensures |r| == |ms|
    ensures forall i :: 0 <= i < |ms| ==> r[i] == CompactedPiece(ms, j, i)
  {
    seq(|ms|, i requires 0 <= i < |ms| => CompactedPiece(ms, j, i))
  }

  /**
    The plan and the moves agree: whenever the scan over lo .. hi found enough
    to offer, the moving pass, which takes in another order and stops early,
    ends with at least `need` free bytes in the piece.
   */
  lemma PlanSuffices(ms: seq<Piece>, j: Job)
    requires j.Fits(ms) && 0 <= ms[j.piece].left && j.piece <= j.hi
    requires ms[j.piece].left + Sum(j.g, j.lo, j.piece) + Sum(j.g, j.piece + 1, j.hi + 1) >= j.need
    ensures Compacted(ms, j)[j.piece].left >= j.need
  {
    DownBound(j, j.piece);
    UpBound(j, Gain(ms, j), j.piece + 1);
  }

  // ---------------------------------------------------- the tiling is kept

  lemma DownTakes(ms: seq<Piece>, brk: int, j: Job, i: nat)
    requires Tiled(ms, brk) && j.Fits(ms) && i < NMEMS
    ensures Down(j, i) <= Down(j, i + 1) <= Down(j, i) + ms[i].left
  {
    assert Sane(ms[i], brk) && OwnsAt(ms, j.g, i);
  }

  lemma UpTakes(ms: seq<Piece>, brk: int, j: Job, gain: int, i: nat)
    requires Tiled(ms, brk) && j.Fits(ms) && i < NMEMS
    ensures Up(j, gain, i + 1) <= Up(j, gain, i) <= Up(j, gain, i + 1) + ms[i].left
  {
    assert Sane(ms[i], brk) && OwnsAt(ms, j.g, i);
  }

  /** What is gained below piece k lies below piece k. */
  lemma {:induction false} DownFits(ms: seq<Piece>, brk: int, j: Job, i: nat, k: nat)
    requires Tiled(ms, brk) && j.Fits(ms) && i < k < NMEMS
    ensures Down(j, i + 1) <= Down(j, k)
    ensures ms[i].End() - Down(j, i + 1) <= ms[k].base - Down(j, k)
    decreases k
  {
    DownTakes(ms, brk, j, k - 1);
    assert Sane(ms[k - 1], brk) && Adjacent(ms, k - 1);
    if i + 1 < k { DownFits(ms, brk, j, i, k - 1); }
  }

  lemma {:induction false} DownBelow(ms: seq<Piece>, brk: int, j: Job, k: nat)
    requires Tiled(ms, brk) && j.Fits(ms) && k < NMEMS
    ensures Down(j, k) <= ms[k].base
    decreases k
  {
    assert Sane(ms[k], brk);
    if k > 0 {
      DownBelow(ms, brk, j, k - 1);
      DownTakes(ms, brk, j, k - 1);
      assert Sane(ms[k - 1], brk) && Adjacent(ms, k - 1);
    }
  }

  /** A raised piece stays below the next raised one, and below the break. */
  lemma {:induction false} UpFits(ms: seq<Piece>, brk: int, j: Job, gain: int, k: nat, i: nat)
    requires Tiled(ms, brk) && j.Fits(ms) && k < i < NMEMS
    ensures ms[k].End() + Up(j, gain, k + 1) <= ms[i].base + Up(j, gain, i)
    decreases i
  {
    UpTakes(ms, brk, j, gain, i - 1);
    assert Sane(ms[i - 1], brk) && Adjacent(ms, i - 1);
    if k + 1 < i { UpFits(ms, brk, j, gain, k, i - 1); }
  }

  lemma {:induction false} UpBelow(ms: seq<Piece>, brk: int, j: Job, gain: int, k: nat)
    requires Tiled(ms, brk) && j.Fits(ms) && k < NMEMS
    ensures ms[k].End() + Up(j, gain, k + 1) <= brk
  {
    UpTakes(ms, brk, j, gain, NMEMS - 1);
    assert Sane(ms[NMEMS - 1], brk);
    if k < NMEMS - 1 {
      UpFits(ms, brk, j, gain, k, NMEMS - 1);
    }
  }

  lemma CompactedSane(ms: seq<Piece>, brk: int, j: Job, i: nat)
    requires Tiled(ms, brk) && j.Fits(ms) && i < NMEMS
    ensures Sane(CompactedPiece(ms, j, i), brk)
  {
    assert Sane(ms[i], brk);
    DownTakes(ms, brk, j, i);
    UpTakes(ms, brk, j, Gain(ms, j), i);
    DownBelow(ms, brk, j, i);
    UpBelow(ms, brk, j, Gain(ms, j), i);
  }

  lemma CompactedTiled(ms: seq<Piece>, brk: int, j: Job)
    requires Tiled(ms, brk) && j.Fits(ms)
    ensures Tiled(Compacted(ms, j), brk)
  {
    var r := Compacted(ms, j);
    forall i | 0 <= i < NMEMS - 1 ensures Adjacent(r, i) { assert Adjacent(ms, i); }
    forall i | 0 <= i < NMEMS ensures Sane(r[i], brk) { CompactedSane(ms, brk, j, i); }
  }

  lemma LoweredBoundary(ms: seq<Piece>, j: Job, i: nat)
    requires j.Fits(ms) && AllAligned(j.g) && i < |ms| && OnBoundary(ms[i])
    ensures OnBoundary(Lowered(ms, j, i))
  {
    DownAligned(j, i);
    DownAligned(j, i + 1);
    AlignSum(ms[i].base, Down(j, i));
    AlignSum(Down(j, i + 1), Down(j, i));
    AlignSum(ms[i].Cap(), Down(j, i + 1) - Down(j, i));
  }

  lemma RaisedBoundary(ms: seq<Piece>, j: Job, i: nat)
    requires j.Fits(ms) && AllAligned(j.g) && i < |ms| && OnBoundary(ms[i])
    ensures OnBoundary(Raised(ms, j, i))
  {
    var u, u' := Up(j, Gain(ms, j), i), Up(j, Gain(ms, j), i + 1);
    UpAligned(j, Gain(ms, j), i);
    UpAligned(j, Gain(ms, j), i + 1);
    AlignSum(ms[i].base, u);
    AlignSum(u, u');
    AlignSum(ms[i].Cap(), u - u');
  }

  lemma EnlargedBoundary(ms: seq<Piece>, j: Job)
    requires j.Fits(ms) && AllAligned(j.g) && OnBoundary(ms[j.piece])
    ensures OnBoundary(Enlarged(ms, j))
  {
    var d, u := Down(j, j.piece), Up(j, Gain(ms, j), j.piece + 1);
    DownAligned(j, j.piece);
    UpAligned(j, Gain(ms, j), j.piece + 1);
    AlignSum(ms[j.piece].base, d);
    AlignSum(ms[j.piece].Cap(), d);
    AlignSum(ms[j.piece].Cap() + d, u);
  }

  lemma CompactedAligned(ms: seq<Piece>, j: Job)
    requires j.Fits(ms) && AllAligned(j.g) && Aligned(ms)
    ensures Aligned(Compacted(ms, j))
  {
    forall i | 0 <= i < |ms| ensures OnBoundary(Compacted(ms, j)[i]) {
      if i < j.piece { LoweredBoundary(ms, j, i); }
      else if i == j.piece { EnlargedBoundary(ms, j); }
      else { RaisedBoundary(ms, j, i); }
    }
  }

  // ------------------------------------------------------ the bytes are kept

  /** A moving pass under way: what it started from and what it has to do. */
  datatype PassData = PassData(b: seq<byte>, ms: seq<Piece>, brk: int, flag: Flag, j: Job)

  ghost predicate Sound(c: PassData) {
    && Tiled(c.ms, c.brk) && c.brk <= |c.b|
    && c.j.lo <= c.j.piece <= c.j.hi < NMEMS
    && c.j == JobOf(c.ms, c.j.piece, c.j.lo, c.j.hi, c.j.need, c.flag)
    && c.j.Fits(c.ms)
  }

  function EmptyPieces(): (ms: seq<Piece>)
    ensures Tiled(ms, 0)
  {
    seq(NMEMS, _ => Piece(0, 0, 0))
  }

  ghost function IdlePass(): (c: PassData)
    ensures Sound(c)
  {
    GivesOwned(EmptyPieces(), 0, Normal);
    PassData([], EmptyPieces(), 0, Normal, JobOf(EmptyPieces(), 0, 0, 0, 0, Normal))
  }

  type MovingPass = c: PassData | Sound(c) ghost witness IdlePass()

  /** Halfway down: the pieces before k have been moved; all kept their bytes. */
  ghost predicate HalfDown(c: MovingPass, b: seq<byte>, ms: seq<Piece>, k: nat) {
    && SameLive(c.b, c.ms, b, ms)
    && forall i :: 0 <= i < |ms| ==> HalfDownAt(c, ms, k, i)
  }

  ghost predicate HalfDownAt(c: MovingPass, ms: seq<Piece>, k: nat, i: nat)
    requires i < |ms| == |c.ms|
  {
    ms[i] == if i < k then Lowered(c.ms, c.j, i) else c.ms[i]
  }

  /** Halfway up: all below `piece` and the pieces after k have been moved. */
  ghost predicate HalfUp(c: MovingPass, b: seq<byte>, ms: seq<Piece>, k: nat) {
    && SameLive(c.b, c.ms, b, ms)
    && forall i :: 0 <= i < |ms| ==> HalfUpAt(c, ms, k, i)
  }

  ghost predicate HalfUpAt(c: MovingPass, ms: seq<Piece>, k: nat, i: nat)
    requires i < |ms| == |c.ms|
  {
    ms[i] ==
      if i < c.j.piece then Lowered(c.ms, c.j, i)
      else if i == c.j.piece then Piece(c.ms[i].base - Down(c.j, i), c.ms[i].full, 0)
      else if i <= k then c.ms[i]
      else Raised(c.ms, c.j, i)
  }

  lemma RoomBelow(c: MovingPass, b: seq<byte>, ms: seq<Piece>, k: nat)
    requires k < NMEMS && HalfDown(c, b, ms, k)
    ensures ms[k] == c.ms[k] && Down(c.j, k) <= ms[k].base
    ensures Room(ms, k, ms[k].base - Down(c.j, k), c.brk)
  {
    assert Sane(c.ms[k], c.brk) && HalfDownAt(c, ms, k, k);
    DownBelow(c.ms, c.brk, c.j, k);
    forall i | 0 <= i < NMEMS && i != k
      ensures ms[i].base + ms[i].full <= ms[k].base - Down(c.j, k)
          || ms[k].base - Down(c.j, k) + ms[k].full <= ms[i].base
    {
      assert Sane(c.ms[i], c.brk) && HalfDownAt(c, ms, k, i);
      if i < k {
        DownTakes(c.ms, c.brk, c.j, i);
        DownFits(c.ms, c.brk, c.j, i, k);
      } else {
        TiledOrder(c.ms, c.brk, k, i);
      }
    }
  }

  lemma RoomAfter(c: MovingPass, b: seq<byte>, ms: seq<Piece>, k: nat)
    requires c.j.piece < k < NMEMS && HalfUp(c, b, ms, k)
    ensures ms[k] == c.ms[k] && Room(ms, k, ms[k].base + Up(c.j, Gain(c.ms, c.j), k), c.brk)
  {
    var gain := Gain(c.ms, c.j);
    assert Sane(c.ms[k], c.brk) && HalfUpAt(c, ms, k, k);
    UpTakes(c.ms, c.brk, c.j, gain, k);
    UpBelow(c.ms, c.brk, c.j, gain, k);
    forall i | 0 <= i < NMEMS && i != k
      ensures ms[i].base + ms[i].full <= ms[k].base + Up(c.j, gain, k)
          || ms[k].base + Up(c.j, gain, k) + ms[k].full <= ms[i].base
    {
      assert Sane(c.ms[i], c.brk) && HalfUpAt(c, ms, k, i);
      if i < k { TiledOrder(c.ms, c.brk, i, k); } else { UpFits(c.ms, c.brk, c.j, gain, k, i); }
    }
  }

  lemma RoomSame(ms: seq<Piece>, ms': seq<Piece>, k: nat, dst: int, limit: int)
    requires k < |ms| && Room(ms, k, dst, limit)
    requires |ms'| == |ms| && forall i :: 0 <= i < |ms| ==> ms'[i].base == ms[i].base && ms'[i].full == ms[i].full
    ensures Room(ms', k, dst, limit)
  {
  }

  /** The two tables differ at k at most. */
  ghost predicate OnlyAt(ms: seq<Piece>, ms': seq<Piece>, k: nat) {
    |ms'| == |ms| && forall i :: 0 <= i < |ms| && i != k ==> ms'[i] == ms[i]
  }

  lemma HalfDownStart(c: MovingPass)
    ensures HalfDown(c, c.b, c.ms, c.j.lo)
  {
    SameLiveRefl(c.b, c.ms, c.brk);
    forall i | 0 <= i < NMEMS ensures HalfDownAt(c, c.ms, c.j.lo, i) {}
  }

  lemma HalfDownStep(c: MovingPass, b: seq<byte>, ms: seq<Piece>, b': seq<byte>, ms': seq<Piece>, k: nat, next: nat)
    requires k < NMEMS && next == k + 1 && HalfDown(c, b, ms, k) && SameLive(c.b, c.ms, b', ms')
    requires OnlyAt(ms, ms', k) && ms'[k] == Lowered(c.ms, c.j, k)
    ensures HalfDown(c, b', ms', next)
  {
    forall i | 0 <= i < NMEMS ensures HalfDownAt(c, ms', next, i) { assert HalfDownAt(c, ms, k, i); }
  }

  lemma HalfDownDone(c: MovingPass, b: seq<byte>, ms: seq<Piece>, b': seq<byte>, ms': seq<Piece>, top: nat)
    requires HalfDown(c, b, ms, c.j.piece) && SameLive(c.b, c.ms, b', ms') && top == NMEMS - 1
    requires OnlyAt(ms, ms', c.j.piece)
    requires ms'[c.j.piece] == Piece(c.ms[c.j.piece].base - Down(c.j, c.j.piece), c.ms[c.j.piece].full, 0)
    ensures HalfUp(c, b', ms', top)
  {
    forall i | 0 <= i < NMEMS ensures HalfUpAt(c, ms', top, i) { assert HalfDownAt(c, ms, c.j.piece, i); }
  }

  /** Nothing above hi is ever raised. */
  lemma HalfUpStart(c: MovingPass, b: seq<byte>, ms: seq<Piece>)
    requires HalfUp(c, b, ms, NMEMS - 1)
    ensures HalfUp(c, b, ms, c.j.hi)
  {
    forall i | 0 <= i < NMEMS ensures HalfUpAt(c, ms, c.j.hi, i) { assert HalfUpAt(c, ms, NMEMS - 1, i); }
  }

  lemma HalfUpStep(c: MovingPass, b: seq<byte>, ms: seq<Piece>, b': seq<byte>, ms': seq<Piece>, k: nat, next: nat)
    requires c.j.piece < k < NMEMS && next == k - 1 && HalfUp(c, b, ms, k) && SameLive(c.b, c.ms, b', ms')
    requires OnlyAt(ms, ms', k) && ms'[k] == Raised(c.ms, c.j, k)
    ensures HalfUp(c, b', ms', next)
  {
    forall i | 0 <= i < NMEMS ensures HalfUpAt(c, ms', next, i) { assert HalfUpAt(c, ms, k, i); }
  }

  lemma HalfUpDone(c: MovingPass, b: seq<byte>, ms: seq<Piece>, ms': seq<Piece>, k: nat, total: int)
    requires k == (if Gain(c.ms, c.j) < c.j.need then c.j.piece else NMEMS - 1) && HalfUp(c, b, ms, k)
    requires total == Gain(c.ms, c.j)
        + if Gain(c.ms, c.j) < c.j.need then Up(c.j, Gain(c.ms, c.j), c.j.piece + 1) else 0
    requires OnlyAt(ms, ms', c.j.piece) && ms'[c.j.piece] == ms[c.j.piece].(left := total)
    ensures ms' == Compacted(c.ms, c.j)
  {
    forall i | 0 <= i < NMEMS ensures ms'[i] == CompactedPiece(c.ms, c.j, i) { assert HalfUpAt(c, ms, k, i); }
  }

  lemma DownTakesGive(c: MovingPass, k: nat)
    requires c.j.lo <= k < NMEMS
    ensures Down(c.j, k + 1) == Down(c.j, k) + if c.j.all || Down(c.j, k) < c.j.need then Give(c.ms[k], c.flag) else 0
  {
  }

  lemma UpTakesGive(c: MovingPass, gain: int, k: nat)
    requires k <= c.j.hi
    ensures Up(c.j, gain, k) == Up(c.j, gain, k + 1)
        + if c.j.all || gain + Up(c.j, gain, k + 1) < c.j.need then Give(c.ms[k], c.flag) else 0
  {
  }

  lemma {:induction false} DownGrows(j: Job, i: nat, k: nat)
    requires i <= k <= |j.g|
    ensures Down(j, i) <= Down(j, k)
    decreases k
  {
    if i < k { DownGrows(j, i, k - 1); }
  }

  /**
    What compaction answers and where the pieces then lie. It succeeds exactly
    when there is enough; FREEZE packs everything below the last piece.
   */
  ghost predicate CompactResult(ms: seq<Piece>, piece: nat, incr: nat, flag: Flag, ok: bool, ms': seq<Piece>)
    requires |ms| == |ms'| == NMEMS && piece < NMEMS
  {
    var need := Need(ms[piece], incr, flag);
    && (ok <==> Available(ms, piece, flag) >= need)
    && (!ok ==> ms' == ms)
    && (ok ==> ms'[piece].left >= incr)
    && (ok ==> exists lo, hi :: Moves(ms, piece, need, flag, lo, hi, ms'))
  }

  ghost predicate Moves(ms: seq<Piece>, piece: nat, need: int, flag: Flag, lo: nat, hi: nat, ms': seq<Piece>)
    requires |ms| == NMEMS && piece < NMEMS
  {
    && lo <= piece <= hi < NMEMS
    && (if flag == Freeze then lo == 0 && hi == NMEMS - 1 else PlanOf(ms, piece, need, flag, lo, hi))
    && JobOf(ms, piece, lo, hi, need, flag).Fits(ms)
    && ms' == Compacted(ms, JobOf(ms, piece, lo, hi, need, flag))
  }

  lemma CompactDone(c: MovingPass, ms': seq<Piece>, incr: nat)
    requires Aligned(c.ms) && ms' == Compacted(c.ms, c.j) && c.j.need == Need(c.ms[c.j.piece], incr, c.flag)
    requires if c.flag == Freeze then incr == 0 && c.j.lo == 0 && c.j.hi == NMEMS - 1
        else PlanOf(c.ms, c.j.piece, c.j.need, c.flag, c.j.lo, c.j.hi)
    ensures Tiled(ms', c.brk) && Aligned(ms') && CompactResult(c.ms, c.j.piece, incr, c.flag, true, ms')
  {
    GivesAligned(c.ms, c.flag);
    CompactedTiled(c.ms, c.brk, c.j);
    CompactedAligned(c.ms, c.j);
    assert Sane(c.ms[c.j.piece], c.brk);
    PlanSuffices(c.ms, c.j);
    if c.flag != Freeze { PlanAvailable(c.j.g, c.ms[c.j.piece].left, c.j.piece, c.j.need, c.j.lo, c.j.hi); }
    assert Moves(c.ms, c.j.piece, c.j.need, c.flag, c.j.lo, c.j.hi, ms');
  }

  // -------------------------------------------------------- the second pass

  /** Nothing below the module piece has anything left to give. */
  ghost predicate Frozen(ms: seq<Piece>) {
    |ms| == NMEMS && forall i :: 0 <= i < ALLOMODL ==> Spent(ms[i], i)
  }

  ghost predicate Spent(m: Piece, i: nat) {
    m.left < ALIGN && (Released(i) ==> m.full == 0)
  }

  lemma SpentGivesNothing(m: Piece, flag: Flag)
    requires 0 <= m.left < ALIGN && 0 <= m.full
    ensures Give(m, flag) == 0
  {
  }

  lemma {:induction false} FrozenGivesNothing(ms: seq<Piece>, brk: int, j: Job, flag: Flag, k: nat)
    requires Tiled(ms, brk) && Frozen(ms) && j.g == Gives(ms, flag) && k <= ALLOMODL
    ensures Down(j, k) == 0
  {
    if k > 0 {
      FrozenGivesNothing(ms, brk, j, flag, k - 1);
      assert Sane(ms[k - 1], brk) && Spent(ms[k - 1], k - 1);
      SpentGivesNothing(ms[k - 1], flag);
    }
  }

  /** Where the pieces up to the module piece lie, and what is free in the lower ones. */
  ghost predicate SamePlace(ms: seq<Piece>, ms': seq<Piece>) {
    && |ms| == |ms'| == NMEMS
    && ms'[ALLOMODL].base == ms[ALLOMODL].base
    && forall i {:trigger ms'[i]} :: 0 <= i < ALLOMODL ==> ms'[i] == ms[i]
  }

  lemma FrozenStays(ms: seq<Piece>, ms': seq<Piece>)
    requires Frozen(ms) && SamePlace(ms, ms')
    ensures Frozen(ms')
  {
    forall i | 0 <= i < ALLOMODL ensures Spent(ms'[i], i) { assert Spent(ms[i], i); }
  }

  lemma FrozenCompact(ms: seq<Piece>, brk: int, incr: nat, flag: Flag, ok: bool, ms': seq<Piece>)
    requires Tiled(ms, brk) && Frozen(ms) && |ms'| == NMEMS && flag != Freeze
    requires CompactResult(ms, ALLOMODL, incr, flag, ok, ms')
    ensures SamePlace(ms, ms')
  {
    if ok {
      var need := Need(ms[ALLOMODL], incr, flag);
      var lo, hi :| Moves(ms, ALLOMODL, need, flag, lo, hi, ms');
      FrozenMoves(ms, brk, need, flag, lo, hi, ms');
    }
  }

  lemma FrozenMoves(ms: seq<Piece>, brk: int, need: int, flag: Flag, lo: nat, hi: nat, ms': seq<Piece>)
    requires Tiled(ms, brk) && Frozen(ms) && flag != Freeze && Moves(ms, ALLOMODL, need, flag, lo, hi, ms')
    ensures SamePlace(ms, ms')
  {
    var j := JobOf(ms, ALLOMODL, lo, hi, need, flag);
    FrozenGivesNothing(ms, brk, j, flag, ALLOMODL);
    forall i | 0 <= i < ALLOMODL ensures ms'[i] == ms[i] {
      FrozenGivesNothing(ms, brk, j, flag, i);
      FrozenGivesNothing(ms, brk, j, flag, i + 1);
      assert ms'[i] == CompactedPiece(ms, j, i);
    }
    assert ms'[ALLOMODL] == CompactedPiece(ms, j, ALLOMODL);
  }

  lemma MovedUpSamePlace(ms: seq<Piece>, incr: int)
    requires |ms| == NMEMS
    ensures SamePlace(ms, MovedUp(ms, ALLOMODL, incr))
  {
  }

  lemma SamePlaceTrans(ms: seq<Piece>, ms1: seq<Piece>, ms2: seq<Piece>)
    requires SamePlace(ms, ms1) && SamePlace(ms1, ms2)
    ensures SamePlace(ms, ms2)
  {
  }

  /** All pieces that only matter while everything fits in core are emptied. */
  ghost predicate EmptiedUpTo(ms0: seq<Piece>, ms: seq<Piece>, k: nat) {
    && |ms| == |ms0|
    && forall i {:trigger ms[i]} :: 0 <= i < |ms| ==>
        ms[i] == if i < k && Released(i) then EmptiedPiece(ms0[i]) else ms0[i]
  }

  lemma EmptiedKept(b: seq<byte>, ms0: seq<Piece>, ms: seq<Piece>, pos: int, piece: nat)
    requires |ms0| == NMEMS && EmptiedUpTo(ms0, ms, NMEMS) && Within(ms0, |b|) && 0 <= pos <= ms0[ALLOMODL].full
    ensures Kept(b, ms0, pos, b, ms, pos, piece, 0)
  {
    forall i | 0 <= i < NMEMS && i != ALLOMODL && !Released(i)
        ensures GrownAt(b, ms0[i], b, ms[i], if i == piece then 0 else 0) {
      assert ms[i] == ms0[i];
    }
    assert ms[ALLOMODL] == ms0[ALLOMODL];
  }

  lemma EmptiedFrozen(ms0: seq<Piece>, ms: seq<Piece>)
    requires Frozen(ms0) && EmptiedUpTo(ms0, ms, NMEMS)
    ensures SamePlace(ms0, ms) && Frozen(ms)
  {
    forall i | 0 <= i < ALLOMODL ensures ms[i] == ms0[i] { assert Spent(ms0[i], i); }
    assert ms[ALLOMODL] == ms0[ALLOMODL];
    FrozenStays(ms0, ms);
  }

  /** The current module has moved to the start of its piece. */
  ghost predicate ModuleFirst(b0: seq<byte>, ms0: seq<Piece>, pos: int, b: seq<byte>, ms: seq<Piece>)
    requires |ms0| == NMEMS && 0 <= pos <= ms0[ALLOMODL].full && 0 <= ms0[ALLOMODL].base
        && ms0[ALLOMODL].base + ms0[ALLOMODL].full <= |b0|
  {
    var m := ms0[ALLOMODL];
    && b == Blit(b0, m.base + pos, m.base, m.full - pos)
    && ms == ms0[ALLOMODL := Piece(m.base, m.full - pos, m.left + pos)]
  }

  lemma ModuleFirstKept(b0: seq<byte>, ms0: seq<Piece>, brk: int, pos: int, b: seq<byte>, ms: seq<Piece>, piece: nat)
    requires Tiled(ms0, brk) && brk <= |b0| && Within(ms0, |b0|) && 0 <= pos <= ms0[ALLOMODL].full
    requires ModuleFirst(b0, ms0, pos, b, ms)
    ensures Kept(b0, ms0, pos, b, ms, 0, piece, 0)
  {
    var m := ms0[ALLOMODL];
    forall i | 0 <= i < NMEMS && i != ALLOMODL && !Released(i)
        ensures GrownAt(b0, ms0[i], b, ms[i], if i == piece then 0 else 0) {
      if i < ALLOMODL { TiledOrder(ms0, brk, i, ALLOMODL); } else { TiledOrder(ms0, brk, ALLOMODL, i); }
      assert Sane(ms0[i], brk) && Sane(m, brk);
      forall o | 0 <= o < ms0[i].full ensures ByteAt(b, ms[i], o) == ByteAt(b0, ms0[i], o) {}
    }
    forall o | 0 <= o < m.full - pos ensures ModuleByte(b, ms[ALLOMODL], 0, o) == ModuleByte(b0, m, pos, o) {}
  }

  // ------------------------------------------------------------ freezing

  ghost predicate DroppedUpTo(ms0: seq<Piece>, ms: seq<Piece>, k: nat) {
    && |ms| == |ms0|
    && forall i {:trigger ms[i]} :: 0 <= i < |ms| ==>
        ms[i] == if i < k && Dropped(i) then EmptiedPiece(ms0[i]) else ms0[i]
  }

  /** With FREEZE every lower piece gives all it can. */
  lemma {:induction false} FreezeTakesAll(ms: seq<Piece>, brk: int, j: Job, i: nat)
    requires Tiled(ms, brk) && i < NMEMS - 1 && j == JobOf(ms, NMEMS - 1, 0, NMEMS - 1, 0, Freeze)
    ensures j.Fits(ms) && 0 <= Lowered(ms, j, i).left < ALIGN
  {
    GivesOwned(ms, brk, Freeze);
    assert Sane(ms[i], brk);
    DownTakes(ms, brk, j, i);
  }

  lemma FreezeFrozen(ms0: seq<Piece>, ms: seq<Piece>, brk: int, ms': seq<Piece>)
    requires Tiled(ms, brk) && |ms'| == NMEMS && DroppedUpTo(ms0, ms, NMEMS)
        && CompactResult(ms, NMEMS - 1, 0, Freeze, true, ms')
    ensures Frozen(ms')
    ensures forall i :: 0 <= i < NMEMS && Dropped(i) ==> ms'[i].full == 0
  {
    var j := JobOf(ms, NMEMS - 1, 0, NMEMS - 1, 0, Freeze);
    FreezeMoved(ms, ms', j);
    forall i | 0 <= i < ALLOMODL ensures Spent(ms'[i], i) {
      FreezeTakesAll(ms, brk, j, i);
      assert ms'[i] == CompactedPiece(ms, j, i) && (Dropped(i) ==> ms[i].full == 0);
    }
    forall i | 0 <= i < NMEMS && Dropped(i) ensures ms'[i].full == 0 {
      assert ms'[i] == CompactedPiece(ms, j, i) && ms[i].full == 0;
    }
  }

  lemma FreezeMoved(ms: seq<Piece>, ms': seq<Piece>, j: Job)
    requires |ms| == |ms'| == NMEMS && j == JobOf(ms, NMEMS - 1, 0, NMEMS - 1, 0, Freeze)
    requires CompactResult(ms, NMEMS - 1, 0, Freeze, true, ms')
    ensures j.Fits(ms) && ms' == Compacted(ms, j)
  {
    var lo, hi :| Moves(ms, NMEMS - 1, 0, Freeze, lo, hi, ms');
  }

  /** What the second pass starts with when not everything fitted in core. */
  ghost predicate FreezeResult(b: seq<byte>, ms: seq<Piece>, b': seq<byte>, ms': seq<Piece>) {
    && |ms| == |ms'| == NMEMS
    && Frozen(ms')
    && (forall i :: 0 <= i < NMEMS && !Dropped(i) ==> SameBytes(b, ms[i], b', ms'[i]))
    && (forall i :: 0 <= i < NMEMS && Dropped(i) ==> ms'[i].full == 0)
  }

  lemma FreezeDone(b: seq<byte>, ms0: seq<Piece>, ms: seq<Piece>, brk: int, b': seq<byte>, ms': seq<Piece>, ok: bool)
    requires Tiled(ms, brk) && |ms0| == |ms'| == NMEMS && DroppedUpTo(ms0, ms, NMEMS) && SameLive(b, ms, b', ms')
    requires CompactResult(ms, NMEMS - 1, 0, Freeze, ok, ms')
    ensures FreezeResult(b, ms0, b', ms')
  {
    assert Sane(ms[NMEMS - 1], brk);
    FreezeFrozen(ms0, ms, brk, ms');
    forall i | 0 <= i < NMEMS && !Dropped(i) ensures SameBytes(b, ms0[i], b', ms'[i]) {
      assert SameBytes(b, ms[i], b', ms'[i]) && ms[i] == ms0[i];
    }
  }
}
