/**
  What compaction leaves to the pieces (Ack-5.5/ld/memory.c:173-307), said in numbers
  of bytes: in NORMAL mode nobody gives everything away, and the piece that asks gets
  a bit more than it needs.
 */
module Reserves {
  import opened Bytes
  import opened CoreMemory
  import opened Compaction

  /** The least multiple of w from n on. */
  predicate LeastMultiple(r: int, w: int, n: int)
    requires w > 0
  {
    r % w == 0 && n <= r < n + w
  }

  /** The break moves by 64 bytes, the system is asked for 256, and modules and the ranlib table take multiples of 4. */
  lemma Granules(n: nat, i: nat)
    ensures if i == 71 || i == 72 then LeastMultiple(Charge(i, n), 4, n) else Charge(i, n) == n
    ensures LeastMultiple(RoundUpGranule(n), 64, n)
    ensures LeastMultiple(RoundUpIncr(n), 256, n)
    ensures LeastMultiple(IntAlign(n), 4, n)
  {
  }

  /**
    By number: contents of sections up to 63, entries, local names, global names, local
    and global strings, symbols, archive positions, modules and the ranlib table. What
    the second pass reads again may go when core runs out, and with it, between the
    passes, the modules and the ranlib table.
   */
  lemma WhatGoes(i: nat)
    requires i < 73
    ensures NMEMS == 73 && MAXSECT == 64
    ensures Released(i) <==> i <= 65 || i == 67
    ensures Dropped(i) <==> i <= 65 || i == 67 || i >= 71
  {
  }

  /**
    With `left` bytes free: in NORMAL mode a piece of at least four bytes keeps a
    quarter of what it uses, a smaller one half of what it has free, rounded down;
    otherwise it keeps nothing; and up to seven bytes more, for all moves are by
    multiples of eight.
   */
  predicate KeepsReserve(m: Piece, flag: Flag, left: int) {
    if flag != Normal then 0 <= left < 8
    else if m.full >= 4 then m.full < 4 * left + 4 && 4 * left <= m.full + 28
    else m.left < 2 * left + 2 && 2 * left <= m.left + 14
  }

  /** It has less than it would keep. */
  predicate BelowReserve(m: Piece, flag: Flag) {
    flag == Normal && m.full >= 4 && 4 * m.left + 4 <= m.full
  }

  lemma {:induction false} AlignDownIs(n: nat)
    ensures AlignDown(n) % 8 == 0
  {
    AlignDownAligned(n);
    MultipleIs(AlignDown(n));
  }

  lemma {:induction false} GiveIs(m: Piece, flag: Flag, g: int)
    requires 0 <= m.full && 0 <= m.left && g == Give(m, flag)
    ensures 0 <= g <= m.left && g % 8 == 0
    ensures BelowReserve(m, flag) ==> g == 0
    ensures !BelowReserve(m, flag) ==> KeepsReserve(m, flag, m.left - g)
  {
    if m.left >= Keep(m, flag) { AlignDownIs(m.left - Keep(m, flag)); }
  }

  /** In NORMAL mode as much as is needed, and enough that a quarter of what is then used stays free. */
  lemma NeedIs(m: Piece, incr: int, flag: Flag, need: int)
    requires 0 <= m.full && 0 <= incr && need == Need(m, incr, flag)
    ensures need >= incr && (flag != Normal ==> need == incr)
    ensures flag == Normal ==> m.full + incr < 4 * need + 4 && (need > incr ==> 4 * need <= m.full + incr)
  {
  }

  lemma {:induction false} DownOnce(ms: seq<Piece>, j: Job, i: nat)
    requires j.Fits(ms) && i < |ms|
    ensures Down(j, i + 1) - Down(j, i) == 0 || Down(j, i + 1) - Down(j, i) == j.g[i]
  {
    if i + 1 <= j.lo { assert Down(j, i) == 0; }
  }

  lemma {:induction false} UpOnce(ms: seq<Piece>, j: Job, gain: int, i: nat)
    requires j.Fits(ms) && i < |ms|
    ensures Up(j, gain, i) - Up(j, gain, i + 1) == 0 || Up(j, gain, i) - Up(j, gain, i + 1) == j.g[i]
  {
  }

  /** Another piece gives all that it offers, or nothing. */
  lemma {:induction false} OthersGive(ms: seq<Piece>, j: Job, i: nat)
    requires j.Fits(ms) && i < |ms| && i != j.piece
    ensures var m' := Compacted(ms, j)[i];
      m'.full == ms[i].full && (m'.left == ms[i].left || m'.left == ms[i].left - j.g[i])
  {
    DownOnce(ms, j, i);
    UpOnce(ms, j, Gain(ms, j), i);
    assert Compacted(ms, j)[i] == CompactedPiece(ms, j, i);
  }

  lemma {:induction false} OtherKeeps(ms: seq<Piece>, brk: int, piece: nat, need: int, flag: Flag, lo: nat, hi: nat,
    ms': seq<Piece>, k: nat)
    requires Tiled(ms, brk) && |ms'| == NMEMS && piece < NMEMS && k < NMEMS && k != piece
    requires Moves(ms, piece, need, flag, lo, hi, ms')
    ensures ms'[k].full == ms[k].full
    ensures ms'[k].left == ms[k].left || (!BelowReserve(ms[k], flag) && KeepsReserve(ms[k], flag, ms'[k].left))
  {
    var j := JobOf(ms, piece, lo, hi, need, flag);
    assert Sane(ms[k], brk);
    OthersGive(ms, j, k);
    GiveIs(ms[k], flag, j.g[k]);
  }

  lemma {:induction false} AskerGets(ms: seq<Piece>, brk: int, piece: nat, need: int, flag: Flag, lo: nat, hi: nat,
    ms': seq<Piece>)
    requires Tiled(ms, brk) && |ms'| == NMEMS && piece < NMEMS && flag != Freeze
    requires Moves(ms, piece, need, flag, lo, hi, ms')
    ensures ms'[piece].left >= need
  {
    assert Sane(ms[piece], brk);
    PlanSuffices(ms, JobOf(ms, piece, lo, hi, need, flag));
  }

  /**
    After compaction every other piece has what it had, or its reserve; and in NORMAL
    mode at least a quarter of what the asking piece is then to use is free in it.
   */
  lemma {:induction false} ReservesKept(ms: seq<Piece>, brk: int, piece: nat, incr: nat, flag: Flag, ms': seq<Piece>)
    requires Tiled(ms, brk) && |ms'| == NMEMS && piece < NMEMS
    requires CompactResult(ms, piece, incr, flag, true, ms')
    ensures forall k :: 0 <= k < NMEMS && k != piece ==>
        ms'[k].full == ms[k].full
        && (ms'[k].left == ms[k].left || (!BelowReserve(ms[k], flag) && KeepsReserve(ms[k], flag, ms'[k].left)))
    ensures ms'[piece].left >= incr
    ensures flag == Normal ==> ms[piece].full + incr < 4 * ms'[piece].left + 4
  {
    var need := Need(ms[piece], incr, flag);
    var lo, hi :| Moves(ms, piece, need, flag, lo, hi, ms');
    forall k | 0 <= k < NMEMS && k != piece
      ensures ms'[k].full == ms[k].full
      ensures ms'[k].left == ms[k].left || (!BelowReserve(ms[k], flag) && KeepsReserve(ms[k], flag, ms'[k].left))
    {
      OtherKeeps(ms, brk, piece, need, flag, lo, hi, ms', k);
    }
    assert Sane(ms[piece], brk);
    NeedIs(ms[piece], incr, flag, need);
    if flag == Normal { AskerGets(ms, brk, piece, need, flag, lo, hi, ms'); }
  }
}
