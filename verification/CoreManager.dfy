/**
  The memory manager's operations (Ack-5.5/ld/memory.c) on one array of bytes.
  Bytes beyond the break are not ours; the array ends where the system stops
  granting more.
 */
module CoreManager {
  import opened Bytes
  import opened CoreMemory
  import opened Compaction
  import opened CoreRuns

  class Core {
    const bytes: array<byte>
    var mems: seq<Piece>
    var brk: int              // BASE in the source
    var refused: nat          // smallest request the system ever refused
    var incore: bool
    var corePosition: int
    var pass: Pass
    var alloctype: AllocFlag

    ghost predicate Valid()
      reads this
    {
      && Tiled(mems, brk)
      && Aligned(mems)
      && brk <= bytes.Length
    }

    ghost function Bytes(): seq<byte>
      reads bytes
    {
      bytes[..]
    }

    /**
      Starts with the given free space per piece, if the break, which begins at
      `start`, can be raised so far; otherwise with as little as possible. With not
      even that much the source ends the program.
     */
    constructor InitCore(limit: nat, start: nat, lefts: seq<nat>)
      requires |lefts| == NMEMS && Multiple(start) && forall i :: 0 <= i < NMEMS ==> Multiple(lefts[i])
      requires start + RoundUpGranule(AT_LEAST) <= limit
      ensures Valid() && corePosition == 0 && pass == First && alloctype == Normal && fresh(bytes)
      ensures incore == (start + RoundUpGranule(InitialEnd(lefts, start, NMEMS) - start) <= limit)
      ensures InitialTable(mems, if incore then lefts else NoLefts(), start, NMEMS)
      ensures bytes.Length == limit
    {
      var ms, end := InitialPieces(start, lefts);
      bytes := new byte[limit];
      mems, brk, refused := ms, start, 0;
      incore, corePosition, pass, alloctype := true, 0, First, Normal;
      new;
      SmallestEnd(start, NMEMS);
      MultipleIs(0);
      var ok := SBreak(end - start);
      if !ok {
        incore := false;
        ok := SBreak(AT_LEAST);
        ms, end := InitialPieces(start, NoLefts());
        mems := ms;
      }
      InitialValid(mems, if incore then lefts else NoLefts(), start, brk);
    }

    // ------------------------------------------------------------ the break

    /** Asks the system for `incr` more bytes; remembers what was refused. */
    method SBreak(incr: int) returns (ok: bool)
      requires incr > 0
      modifies this`brk, this`refused
      ensures ok <==>
          (old(refused) == 0 || RoundUpGranule(incr) <= old(refused)) && old(brk) + RoundUpGranule(incr) <= bytes.Length
      ensures ok ==> brk == old(brk) + RoundUpGranule(incr) && refused == old(refused)
      ensures !ok ==> brk == old(brk)
      ensures !ok ==> refused == if 0 < old(refused) < RoundUpGranule(incr) then old(refused) else RoundUpGranule(incr)
    {
      var inc := RoundUpGranule(incr);
      if (refused != 0 && refused < inc) || brk + inc > bytes.Length {
        if refused == 0 || refused > inc { refused := inc; }
        return false;
      }
      brk := brk + inc;
      return true;
    }

    // --------------------------------------------------------- moving pieces

    /** Copies from low to high, for a new place below the old one. */
    method CopyForward(src: int, dst: int, n: nat)
      requires 0 <= dst <= src && src + n <= bytes.Length
      modifies bytes
      ensures Bytes() == Blit(old(Bytes()), src, dst, n)
    {
      ghost var b0 := bytes[..];
      var from, to, size := src, dst, n;
      while size > 0
        invariant 0 <= size <= n && from == src + (n - size) && to == dst + (n - size)
        invariant forall i :: dst <= i < to ==> bytes[i] == b0[i - dst + src]
        invariant forall i :: 0 <= i < bytes.Length && !(dst <= i < to) ==> bytes[i] == b0[i]
      {
        bytes[to] := bytes[from];
        to, from, size := to + 1, from + 1, size - 1;
      }
      assert bytes[..] == Blit(b0, src, dst, n);
    }

    /** Copies from high to low, for a new place above the old one. */
    method CopyBackward(src: int, dst: int, n: nat)
      requires 0 <= src <= dst && dst + n <= bytes.Length
      modifies bytes
      ensures Bytes() == Blit(old(Bytes()), src, dst, n)
    {
      ghost var b0 := bytes[..];
      var from, to, size := src + n, dst + n, n;
      while size > 0
        invariant 0 <= size <= n && from == src + size && to == dst + size
        invariant forall i :: to <= i < dst + n ==> bytes[i] == b0[i - dst + src]
        invariant forall i :: 0 <= i < bytes.Length && !(to <= i < dst + n) ==> bytes[i] == b0[i]
      {
        to, from := to - 1, from - 1;
        bytes[to] := bytes[from];
        size := size - 1;
      }
      assert bytes[..] == Blit(b0, src, dst, n);
    }

    /** Moves a piece `dist` bytes down. */
    method CopyDown(k: nat, dist: int)
      requires k < |mems| && 0 <= dist <= mems[k].base && 0 <= mems[k].full
      requires mems[k].base + mems[k].full <= bytes.Length
      modifies this`mems, bytes
      ensures mems == old(mems)[k := old(mems)[k].(base := old(mems)[k].base - dist)]
      ensures Bytes() == Blit(old(Bytes()), old(mems)[k].base, old(mems)[k].base - dist, old(mems)[k].full)
    {
      CopyForward(mems[k].base, mems[k].base - dist, mems[k].full);
      mems := mems[k := mems[k].(base := mems[k].base - dist)];
    }

    /** Moves a piece `dist` bytes up. */
    method CopyUp(k: nat, dist: int)
      requires k < |mems| && 0 <= dist && 0 <= mems[k].base && 0 <= mems[k].full
      requires mems[k].base + dist + mems[k].full <= bytes.Length
      modifies this`mems, bytes
      ensures mems == old(mems)[k := old(mems)[k].(base := old(mems)[k].base + dist)]
      ensures Bytes() == Blit(old(Bytes()), old(mems)[k].base, old(mems)[k].base + dist, old(mems)[k].full)
    {
      CopyBackward(mems[k].base, mems[k].base + dist, mems[k].full);
      mems := mems[k := mems[k].(base := mems[k].base + dist)];
    }

    /** Asks for `incr` bytes, or else for as many as the system will give. */
    method SBreakMost(incr: int) returns (gain: nat)
      requires Multiple(incr)
      modifies this`brk, this`refused
      ensures Multiple(gain) && (gain == 0 || gain <= incr)
      ensures gain == 0 ==> brk == old(brk)
      ensures old(brk) + gain <= brk && (old(brk) <= bytes.Length ==> brk <= bytes.Length)
    {
      var want := incr;
      while want > 0
        invariant want <= incr && Multiple(want)
        invariant brk == old(brk)
      {
        var ok := SBreak(want);
        if ok { break; }
        SmallerRequest(want);
        want := want - INCRSIZE;
      }
      gain := if want <= 0 then 0 else want;
    }

    /** Sets what is free in a piece. */
    method Credit(piece: nat, left: int, ghost b0: seq<byte>, ghost ms0: seq<Piece>)
      requires piece < |mems| && SameLive(b0, ms0, Bytes(), mems)
      modifies this`mems
      ensures mems == old(mems)[piece := old(mems)[piece].(left := left)]
      ensures SameLive(b0, ms0, Bytes(), mems)
    {
      KeepLeft(b0, ms0, bytes[..], mems, piece, left);
      mems := mems[piece := mems[piece].(left := left)];
    }

    /** Moves piece k down where there is room; every piece keeps its bytes. */
    method LowerPiece(k: nat, dist: nat, ghost b0: seq<byte>, ghost ms0: seq<Piece>)
      requires k < |mems| && SameLive(b0, ms0, Bytes(), mems) && Room(mems, k, mems[k].base - dist, bytes.Length)
      modifies this`mems, bytes
      ensures mems == old(mems)[k := old(mems)[k].(base := old(mems)[k].base - dist)]
      ensures SameLive(b0, ms0, Bytes(), mems)
    {
      MoveKeeps(b0, ms0, bytes[..], mems, k, mems[k].base - dist);
      assert SameBytes(b0, ms0[k], bytes[..], mems[k]);
      CopyDown(k, dist);
    }

    /** Moves piece k up where there is room; every piece keeps its bytes. */
    method RaisePiece(k: nat, dist: nat, ghost b0: seq<byte>, ghost ms0: seq<Piece>)
      requires k < |mems| && SameLive(b0, ms0, Bytes(), mems) && Room(mems, k, mems[k].base + dist, bytes.Length)
      modifies this`mems, bytes
      ensures mems == old(mems)[k := old(mems)[k].(base := old(mems)[k].base + dist)]
      ensures SameLive(b0, ms0, Bytes(), mems)
    {
      MoveKeeps(b0, ms0, bytes[..], mems, k, mems[k].base + dist);
      assert SameBytes(b0, ms0[k], bytes[..], mems[k]);
      CopyUp(k, dist);
    }

    /** Moves every piece above `piece` up by `incr` bytes. */
    method RaiseAbove(piece: nat, incr: nat)
      requires piece < NMEMS && Tiled(mems, brk - incr) && brk <= bytes.Length
      modifies this`mems, bytes
      ensures RaisedTo(old(mems), mems, piece, incr)
      ensures SameLive(old(Bytes()), old(mems), Bytes(), mems)
    {
      ghost var b0, ms0 := bytes[..], mems;
      SameLiveRefl(b0, ms0, brk - incr);
      var k := NMEMS - 1;
      while k > piece
        invariant piece <= k < NMEMS && |mems| == NMEMS
        invariant RaisedTo(ms0, mems, k, incr)
        invariant SameLive(b0, ms0, bytes[..], mems)
        modifies this`mems, bytes
      {
        RoomAbove(ms0, brk - incr, mems, k, incr);
        RaisePiece(k, incr, b0, ms0);
        k := k - 1;
      }
    }

    /** Gives `piece` up to `incr` new bytes from the system. */
    method MoveUp(piece: nat, incr: int) returns (gain: nat)
      requires Valid() && piece < NMEMS && Multiple(incr)
      modifies this`brk, this`refused, this`mems, bytes
      ensures Valid()
      ensures gain == 0 || gain <= incr
      ensures Multiple(gain)
      ensures mems == MovedUp(old(mems), piece, gain)
      ensures SameLive(old(Bytes()), old(mems), Bytes(), mems)
    {
      ghost var ms0, brk0 := mems, brk;
      gain := SBreakMost(incr);
      SameLiveRefl(bytes[..], ms0, brk0);
      MovedUpTiled(ms0, brk0, piece, gain);
      MovedUpAligned(ms0, piece, gain);
      if gain == 0 {
        assert MovedUp(ms0, piece, 0) == ms0;
        return;
      }
      TiledWider(ms0, brk0, brk - gain);
      TiledWider(MovedUp(ms0, piece, gain), brk0 + gain, brk);
      Widen(piece, gain);
    }

    /** `piece` gets the bytes that become free when all above it move up. */
    method Widen(piece: nat, gain: nat)
      requires piece < NMEMS && Tiled(mems, brk - gain) && brk <= bytes.Length
      modifies this`mems, bytes
      ensures mems == MovedUp(old(mems), piece, gain)
      ensures SameLive(old(Bytes()), old(mems), Bytes(), mems)
    {
      ghost var b0, ms0 := bytes[..], mems;
      RaiseAbove(piece, gain);
      MovedUpFrom(ms0, mems, piece, gain);
      Credit(piece, mems[piece].left + gain, b0, ms0);
    }

    /** What the lower pieces offer: the fewest of them that suffice, or all. */
    method PlanBelow(piece: nat, need: int, flag: Flag) returns (gain: int, min: nat)
      requires Valid() && piece < NMEMS
      ensures OffersBelow(Gives(mems, flag), mems[piece].left, piece, need, gain, min)
    {
      ghost var g, left := Gives(mems, flag), mems[piece].left;
      min, gain := piece, mems[piece].left;
      var k := piece;
      while k > 0
        invariant 0 <= k <= piece && min == piece
        invariant gain == left + Sum(g, k, piece)
        invariant k < piece ==> gain < need
      {
        k := k - 1;
        gain := gain + Give(mems[k], flag);
        SumFront(g, k, piece);
        if gain >= need {
          min := k;
          break;
        }
      }
    }

    /** What the higher pieces add to `from`: the fewest that suffice, or all. */
    method PlanAbove(piece: nat, from: int, need: int, flag: Flag) returns (gain: int, max: nat)
      requires Valid() && piece < NMEMS
      ensures OffersAbove(Gives(mems, flag), from, piece, need, gain, max)
    {
      ghost var g := Gives(mems, flag);
      max, gain := piece, from;
      var k := piece + 1;
      while k <= NMEMS - 1
        invariant piece + 1 <= k <= NMEMS && max == piece
        invariant gain == from + Sum(g, piece + 1, k)
        invariant piece + 1 < k ==> gain < need
      {
        gain := gain + Give(mems[k], flag);
        k := k + 1;
        if gain >= need {
          max := k - 1;
          break;
        }
      }
    }

    /** First check that moving will result in enough space. */
    method PlanMoves(piece: nat, need: int, flag: Flag) returns (enough: bool, min: nat, max: nat)
      requires Valid() && piece < NMEMS
      ensures enough <==> Available(mems, piece, flag) >= need
      ensures min <= piece < NMEMS && max < NMEMS
      ensures enough ==> PlanOf(mems, piece, need, flag, min, max)
    {
      var gain;
      gain, min := PlanBelow(piece, need, flag);
      max := piece;
      ghost var below, lo := gain, min;
      ghost var above, hi := gain, max;
      if min == piece {
        gain, max := PlanAbove(piece, gain, need, flag);
        above, hi := gain, max;
        min := 0;
        if max == piece { max := 0; }
      }
      enough := gain >= need;
      PlanComplete(mems, piece, need, flag, below, lo, above, hi);
    }

    /** Takes what piece k can spare, unless there is enough already. */
    method Take(k: nat, gain: nat, wanted: bool, flag: Flag, ghost b0: seq<byte>, ghost ms0: seq<Piece>)
        returns (gain': nat)
      requires k < |mems| && SameLive(b0, ms0, Bytes(), mems)
      modifies this`mems
      ensures gain' == gain + if wanted then Give(old(mems)[k], flag) else 0
      ensures mems == old(mems)[k := old(mems)[k].(left := old(mems)[k].left - (gain' - gain))]
      ensures SameLive(b0, ms0, Bytes(), mems)
    {
      gain' := gain;
      if wanted {
        var size := Give(mems[k], flag);
        gain' := gain + size;
        Credit(k, mems[k].left - size, b0, ms0);
      }
    }

    /** Moves piece k down by the bytes gained so far, if any. */
    method SlideOneDown(k: nat, gain: nat, ghost c: MovingPass)
      requires c.brk <= bytes.Length && k < NMEMS && gain == Down(c.j, k) && HalfDown(c, Bytes(), mems, k)
      modifies this`mems, bytes
      ensures mems == old(mems)[k := c.ms[k].(base := c.ms[k].base - gain)]
      ensures SameLive(c.b, c.ms, Bytes(), mems)
    {
      RoomBelow(c, bytes[..], mems, k);
      if gain > 0 { LowerPiece(k, gain, c.b, c.ms); }
    }

    /** One step of the downward pass. */
    method StepDown(k: nat, gain: nat, need: int, flag: Flag, ghost c: MovingPass) returns (gain': nat)
      requires c.brk <= bytes.Length && c.j.need == need && c.flag == flag
      requires c.j.lo <= k < NMEMS && gain == Down(c.j, k) && HalfDown(c, Bytes(), mems, k)
      modifies this`mems, bytes
      ensures gain' == Down(c.j, k + 1) && HalfDown(c, Bytes(), mems, k + 1)
    {
      ghost var b1, ms1 := bytes[..], mems;
      SlideOneDown(k, gain, c);
      GiveSame(c.ms[k], mems[k], flag);
      DownTakesGive(c, k);
      gain' := Take(k, gain, flag == Freeze || gain < need, flag, c.b, c.ms);
      HalfDownStep(c, b1, ms1, bytes[..], mems, k, k + 1);
    }

    /** Memory is inserted before the pieces min .. piece. */
    method SlideDown(piece: nat, min: nat, need: int, flag: Flag, ghost c: MovingPass) returns (gain: int)
      requires c.brk <= bytes.Length && c.j.piece == piece && c.j.lo == min && c.j.need == need && c.flag == flag
      requires mems == c.ms && Bytes() == c.b
      requires pass == First || Down(c.j, piece) == 0
      modifies this`mems, bytes
      ensures gain == Gain(c.ms, c.j) && HalfUp(c, Bytes(), mems, NMEMS - 1)
    {
      HalfDownStart(c);
      var d: nat := 0;
      var k := min;
      while k < piece
        invariant min <= k <= piece && d == Down(c.j, k)
        invariant HalfDown(c, Bytes(), mems, k)
        modifies this`mems, bytes
      {
        DownGrows(c.j, k, piece);
        assert pass == First || d == 0;
        d := StepDown(k, d, need, flag, c);
        k := k + 1;
      }
      gain := FinishDown(piece, d, c);
    }

    /** Now for `piece` itself: what is free in it counts too. */
    method FinishDown(piece: nat, d: nat, ghost c: MovingPass) returns (gain: int)
      requires c.brk <= bytes.Length && c.j.piece == piece && d == Down(c.j, piece) && HalfDown(c, Bytes(), mems, piece)
      modifies this`mems, bytes
      ensures gain == Gain(c.ms, c.j) && HalfUp(c, Bytes(), mems, NMEMS - 1)
    {
      ghost var b1, ms1 := bytes[..], mems;
      SlideOneDown(piece, d, c);
      gain := d + mems[piece].left;
      Credit(piece, 0, c.b, c.ms);
      HalfDownDone(c, b1, ms1, bytes[..], mems, NMEMS - 1);
    }

    /** One step of the upward pass. */
    method StepUp(k: nat, up: nat, gain: int, need: int, flag: Flag, ghost c: MovingPass) returns (up': nat)
      requires c.brk <= bytes.Length && c.j.need == need && c.flag == flag
      requires c.j.piece < k <= c.j.hi && gain == Gain(c.ms, c.j) && up == Up(c.j, gain, k + 1)
          && HalfUp(c, Bytes(), mems, k)
      modifies this`mems, bytes
      ensures up' == Up(c.j, gain, k) && HalfUp(c, Bytes(), mems, k - 1)
    {
      ghost var b1, ms1 := bytes[..], mems;
      RoomAfter(c, b1, ms1, k);
      UpTakesGive(c, gain, k);
      up' := Take(k, up, flag == Freeze || gain + up < need, flag, c.b, c.ms);
      RoomSame(ms1, mems, k, ms1[k].base + up', c.brk);
      if up' > 0 { RaisePiece(k, up', c.b, c.ms); }
      HalfUpStep(c, b1, ms1, bytes[..], mems, k, k - 1);
    }

    /** Memory is appended after `piece`: the pieces max .. piece+1 move up. */
    method SlideUp(piece: nat, max: nat, gain: int, need: int, flag: Flag, ghost c: MovingPass) returns (up: nat)
      requires c.brk <= bytes.Length && c.j.piece == piece && c.j.hi == max && c.j.need == need && c.flag == flag
      requires gain == Gain(c.ms, c.j) && HalfUp(c, Bytes(), mems, NMEMS - 1)
      modifies this`mems, bytes
      ensures up == Up(c.j, gain, piece + 1) && HalfUp(c, Bytes(), mems, piece)
    {
      up := 0;
      var k := max;
      HalfUpStart(c, bytes[..], mems);
      while k > piece
        invariant piece <= k <= max && up == Up(c.j, gain, k + 1)
        invariant HalfUp(c, Bytes(), mems, k)
        modifies this`mems, bytes
      {
        up := StepUp(k, up, gain, need, flag, c);
        k := k - 1;
      }
    }

    /** The moving part of compaction over the pieces min .. max. */
    method Slide(piece: nat, min: nat, max: nat, need: int, flag: Flag, ghost c: MovingPass)
      requires c.brk <= bytes.Length && c.flag == flag
      requires c.j.piece == piece && c.j.lo == min && c.j.hi == max && c.j.need == need
      requires mems == c.ms && Bytes() == c.b
      requires pass == First || Down(c.j, piece) == 0
      modifies this`mems, bytes
      ensures mems == Compacted(c.ms, c.j) && SameLive(c.b, c.ms, Bytes(), mems)
    {
      var gain := SlideDown(piece, min, need, flag, c);
      var up := 0;
      if gain < need { up := SlideUp(piece, max, gain, need, flag, c); }
      ghost var ms1 := mems;
      Credit(piece, gain + up, c.b, c.ms);
      HalfUpDone(c, bytes[..], ms1, mems, if gain < need then piece else NMEMS - 1, gain + up);
    }

    /** The moving part, once it is known what takes part. */
    method Rearrange(piece: nat, incr: nat, min: nat, max: nat, flag: Flag)
      requires Valid() && piece < NMEMS && min <= piece <= max < NMEMS
      requires pass == Second ==> flag != Freeze && piece == ALLOMODL && Frozen(mems)
      requires if flag == Freeze then incr == 0 && min == 0 && max == NMEMS - 1
               else PlanOf(mems, piece, Need(mems[piece], incr, flag), flag, min, max)
      modifies this`mems, bytes
      ensures Valid() && CompactResult(old(mems), piece, incr, flag, true, mems)
      ensures SameLive(old(Bytes()), old(mems), Bytes(), mems)
    {
      var need := Need(mems[piece], incr, flag);
      GivesOwned(mems, brk, flag);
      ghost var c: MovingPass := PassData(bytes[..], mems, brk, flag, JobOf(mems, piece, min, max, need, flag));
      if pass == Second { FrozenGivesNothing(c.ms, c.brk, c.j, flag, piece); }
      Slide(piece, min, max, need, flag, c);
      CompactDone(c, mems, incr);
    }

    /**
      Gathers the free bytes of other pieces for `piece`: first from the lower
      ones, then from the higher ones. Nothing moves unless it is enough.
     */
    method Compact(piece: nat, incr: nat, flag: Flag) returns (ok: bool)
      requires Valid() && piece < NMEMS
      requires flag == Freeze ==> incr == 0 && piece == NMEMS - 1
      requires pass == Second ==> flag != Freeze && piece == ALLOMODL && Frozen(mems)
      modifies this`mems, bytes
      ensures Valid() && CompactResult(old(mems), piece, incr, flag, ok, mems)
      ensures !ok ==> Bytes() == old(Bytes())
      ensures SameLive(old(Bytes()), old(mems), Bytes(), mems)
    {
      var min, max := 0, NMEMS - 1;
      if flag != Freeze {
        var enough;
        enough, min, max := PlanMoves(piece, Need(mems[piece], incr, flag), flag);
        if !enough {
          SameLiveRefl(bytes[..], mems, brk);
          return false;
        }
      }
      Rearrange(piece, incr, min, max, flag);
      return true;
    }

    // ------------------------------------------------------------- allocation

    /** In the second pass only the module piece grows, and core is frozen. */
    ghost predicate MayGrow(piece: nat)
      reads this
    {
      piece < NMEMS && (pass == Second ==> !incore && piece == ALLOMODL && Frozen(mems))
    }

    /** Gets room from the system, if possible doubling the piece. */
    method FromSystem(piece: nat, size: nat) returns (ok: bool)
      requires Valid() && piece < NMEMS
      modifies this`brk, this`refused, this`mems, bytes
      ensures Valid()
      ensures SameLive(old(Bytes()), old(mems), Bytes(), mems)
      ensures ok ==> mems[piece].left >= size
      ensures piece == ALLOMODL ==> SamePlace(old(mems), mems)
    {
      ghost var b0, ms0 := bytes[..], mems;
      var left, full := mems[piece].left, mems[piece].full;
      SameLiveRefl(b0, ms0, brk);
      if size <= left { return true; }
      var incr := RoundUpIncr(size - left);
      IncrMultiple(size - left);
      if incr < left + full {
        assert OnBoundary(mems[piece]);
        var more := MoveUp(piece, left + full);
        if piece == ALLOMODL { MovedUpSamePlace(ms0, more); }
        AlignSum(incr, more);
        incr := incr - more;
        if incr <= 0 { return true; }
      }
      ok := LastRequest(piece, incr, b0, ms0);
    }

    /** All of `incr` bytes, or as many of them as the system has. */
    method LastRequest(piece: nat, incr: nat, ghost b0: seq<byte>, ghost ms0: seq<Piece>) returns (ok: bool)
      requires Valid() && piece < NMEMS && Multiple(incr) && SameLive(b0, ms0, Bytes(), mems)
      requires piece == ALLOMODL ==> SamePlace(ms0, mems)
      modifies this`brk, this`refused, this`mems, bytes
      ensures Valid() && SameLive(b0, ms0, Bytes(), mems)
      ensures ok ==> mems[piece].left >= old(mems)[piece].left + incr
      ensures piece == ALLOMODL ==> SamePlace(ms0, mems)
    {
      ghost var b1, ms1 := bytes[..], mems;
      var gain := MoveUp(piece, incr);
      SameLiveTrans(b0, ms0, b1, ms1, bytes[..], mems);
      if piece == ALLOMODL {
        MovedUpSamePlace(ms1, gain);
        SamePlaceTrans(ms0, ms1, mems);
      }
      ok := gain == incr;
    }

    /** Makes room for `size` more bytes in `piece`, from the system or by compaction. */
    method FindRoom(piece: nat, size: nat) returns (ok: bool)
      requires Valid() && MayGrow(piece)
      modifies this`brk, this`refused, this`mems, bytes
      ensures Valid()
      ensures SameLive(old(Bytes()), old(mems), Bytes(), mems)
      ensures ok ==> mems[piece].left >= size
      ensures !ok ==> Available(mems, piece, alloctype) < Need(mems[piece], size, alloctype)
      ensures pass == Second ==> SamePlace(old(mems), mems)
    {
      ghost var b0, ms0 := bytes[..], mems;
      ok := FromSystem(piece, size);
      if !ok {
        ghost var b1, ms1 := bytes[..], mems;
        if pass == Second { FrozenStays(ms0, ms1); }
        ok := Compact(piece, size, alloctype);
        SameLiveTrans(b0, ms0, b1, ms1, bytes[..], mems);
        if pass == Second {
          FrozenCompact(ms1, brk, size, alloctype, ok, mems);
          SamePlaceTrans(ms0, ms1, mems);
        }
      }
    }

    /**
      Adds `size` bytes to those in use in `piece`. The offset of the new area is
      returned; it remains valid however often the piece is moved.
     */
    method Alloc(piece: nat, size: nat) returns (ret: Offset)
      requires Valid() && MayGrow(piece)
      modifies this`brk, this`refused, this`mems, this`incore, bytes
      ensures Valid()
      ensures ret.Off? ==> ret.value == old(mems)[piece].full && incore == old(incore)
      ensures ret.Off? ==> Grown(old(Bytes()), old(mems), Bytes(), mems, piece, Charge(piece, size))
      ensures ret.BadOff? ==> !incore && SameLive(old(Bytes()), old(mems), Bytes(), mems)
      ensures ret.BadOff? ==> Available(mems, piece, alloctype) < Need(mems[piece], Charge(piece, size), alloctype)
      ensures pass == Second ==> SamePlace(old(mems), mems) && Frozen(mems)
    {
      ghost var b0, ms0 := bytes[..], mems;
      assert Sane(mems[piece], brk);
      var full: nat := mems[piece].full;
      if size == 0 {
        SameLiveRefl(b0, ms0, brk);
        Charged(b0, ms0, b0, ms0, mems, piece, 0);
        return Off(full);
      }
      var n := Charge(piece, size);
      var ok := FindRoom(piece, n);
      if pass == Second { FrozenStays(ms0, mems); }
      if ok {
        Use(piece, n, b0, ms0);
        return Off(full);
      } else {
        incore := false;
        return BadOff;
      }
    }

    /** Charges `n` free bytes of `piece` as used. */
    method Use(piece: nat, n: nat, ghost b0: seq<byte>, ghost ms0: seq<Piece>)
      requires Valid() && piece < NMEMS && mems[piece].left >= n && SameLive(b0, ms0, Bytes(), mems)
      requires pass == Second ==> piece == ALLOMODL && SamePlace(ms0, mems) && Frozen(mems)
      modifies this`mems
      ensures Valid() && Grown(b0, ms0, Bytes(), mems, piece, n)
      ensures pass == Second ==> SamePlace(ms0, mems) && Frozen(mems)
    {
      ghost var ms1 := mems;
      assert Sane(mems[piece], brk);
      ResplitValid(mems, brk, piece, ChargedPiece(mems[piece], n));
      mems := mems[piece := ChargedPiece(mems[piece], n)];
      Charged(b0, ms0, bytes[..], ms1, mems, piece, n);
      if pass == Second {
        SamePlaceTrans(ms0, ms1, mems);
        FrozenStays(ms1, mems);
      }
    }

    // ----------------------------------------------------------- giving back

    /** The piece is no longer needed; compaction can use all of it. */
    method Dealloc(piece: nat)
      requires Valid() && piece < NMEMS
      requires piece != ALLOGLOB && piece != ALLOGCHR && piece != ALLOSYMB && piece != ALLOARCH
      modifies this`mems
      ensures Valid() && mems == old(mems)[piece := EmptiedPiece(old(mems)[piece])]
    {
      assert Sane(mems[piece], brk);
      ResplitValid(mems, brk, piece, EmptiedPiece(mems[piece]));
      mems := mems[piece := EmptiedPiece(mems[piece])];
    }

    /** Gives back everything from offset `p` of the piece on. */
    method CoreFree(piece: nat, p: nat)
      requires Valid() && piece < NMEMS && p < mems[piece].full
      modifies this`mems
      ensures Valid()
      ensures mems == old(mems)[piece := Piece(old(mems)[piece].base, p, old(mems)[piece].Cap() - p)]
    {
      var n := mems[piece].full - p;
      assert Sane(mems[piece], brk);
      ResplitValid(mems, brk, piece, ChargedPiece(mems[piece], -n));
      mems := mems[piece := ChargedPiece(mems[piece], -n)];
    }

    /** Deallocates what is not needed when core is scarce. */
    method DeallocReleased()
      requires Valid()
      modifies this`mems
      ensures Valid() && EmptiedUpTo(old(mems), mems, NMEMS)
    {
      ghost var ms0 := mems;
      var i := 0;
      while i < NMEMS
        invariant 0 <= i <= NMEMS && Valid() && EmptiedUpTo(ms0, mems, i)
      {
        if Released(i) { Dealloc(i); }
        i := i + 1;
      }
    }

    /** Overwrites the saved modules with the current one. */
    method FreeSavedModuls()
      requires Valid() && 0 <= corePosition <= mems[ALLOMODL].full
      modifies this`mems, this`corePosition, bytes
      ensures Valid() && corePosition == 0
      ensures Sane(old(mems)[ALLOMODL], bytes.Length)
      ensures ModuleFirst(old(Bytes()), old(mems), old(corePosition), Bytes(), mems)
    {
      var m := mems[ALLOMODL];
      assert Sane(m, brk);
      CopyForward(m.base + corePosition, m.base, m.full - corePosition);
      ResplitValid(mems, brk, ALLOMODL, Piece(m.base, m.full - corePosition, m.left + corePosition));
      ModuleSlid(old(Bytes()), mems, brk, corePosition);
      mems := mems[ALLOMODL := Piece(m.base, m.full - corePosition, m.left + corePosition)];
      corePosition := 0;
    }

    /** One attempt of HardAlloc, seen from its start. */
    method TryAlloc(piece: nat, size: nat, ghost b0: seq<byte>, ghost ms0: seq<Piece>, ghost pos0: int)
        returns (ret: Offset)
      requires Valid() && MayGrow(piece) && 0 <= corePosition <= mems[ALLOMODL].full
      requires Within(ms0, |b0|) && Kept(b0, ms0, pos0, Bytes(), mems, corePosition, piece, 0)
      modifies this`brk, this`refused, this`mems, this`incore, bytes
      ensures Valid() && corePosition <= mems[ALLOMODL].full
      ensures Kept(b0, ms0, pos0, Bytes(), mems, corePosition, piece, if ret.Off? then Charge(piece, size) else 0)
      ensures ret.Off? ==> ret.value + Charge(piece, size) == mems[piece].full && incore == old(incore)
      ensures ret.BadOff? ==>
          !incore && Available(mems, piece, alloctype) < Need(mems[piece], Charge(piece, size), alloctype)
      ensures pass == Second ==> SamePlace(old(mems), mems) && Frozen(mems)
    {
      ret := FirstTry(piece, size, b0, ms0, pos0);
    }

    /** The same, with what it does to all pieces. */
    method FirstTry(piece: nat, size: nat, ghost b0: seq<byte>, ghost ms0: seq<Piece>, ghost pos0: int)
        returns (ret: Offset)
      requires Valid() && MayGrow(piece) && 0 <= corePosition <= mems[ALLOMODL].full
      requires Within(ms0, |b0|) && Kept(b0, ms0, pos0, Bytes(), mems, corePosition, piece, 0)
      modifies this`brk, this`refused, this`mems, this`incore, bytes
      ensures Valid() && corePosition <= mems[ALLOMODL].full
      ensures Kept(b0, ms0, pos0, Bytes(), mems, corePosition, piece, if ret.Off? then Charge(piece, size) else 0)
      ensures ret.Off? ==> ret.value + Charge(piece, size) == mems[piece].full && incore == old(incore)
      ensures ret.Off? ==> Grown(old(Bytes()), old(mems), Bytes(), mems, piece, Charge(piece, size))
      ensures ret.BadOff? ==>
          !incore && Available(mems, piece, alloctype) < Need(mems[piece], Charge(piece, size), alloctype)
      ensures pass == Second ==> SamePlace(old(mems), mems) && Frozen(mems)
    {
      ghost var b1, ms1 := bytes[..], mems;
      ret := Alloc(piece, size);
      ghost var n := if ret.Off? then Charge(piece, size) else 0;
      if ret.BadOff? { SameLiveGrown(b1, ms1, bytes[..], mems, piece); }
      TriedKept(b0, ms0, pos0, b1, ms1, old(brk), corePosition, bytes[..], mems, brk, piece, n);
    }

    /** Releases what only matters while everything is kept in core. */
    method ReleaseAll(ghost piece: nat)
      requires Valid() && 0 <= corePosition <= mems[ALLOMODL].full
      modifies this`mems, this`corePosition, bytes
      ensures Valid() && corePosition == 0
      ensures Kept(old(Bytes()), old(mems), old(corePosition), Bytes(), mems, 0, piece, 0)
      ensures Frozen(old(mems)) && old(corePosition) == 0 ==> SamePlace(old(mems), mems) && Frozen(mems)
    {
      ghost var b0, ms0, pos0 := bytes[..], mems, corePosition;
      TiledWithin(ms0, brk, bytes.Length);
      DeallocReleased();
      ghost var ms1 := mems;
      EmptiedKept(b0, ms0, ms1, pos0, piece);
      TiledWithin(ms1, brk, bytes.Length);
      FreeSavedModuls();
      ModuleFirstKept(b0, ms1, brk, pos0, bytes[..], mems, piece);
      KeptTrans(b0, ms0, pos0, b0, ms1, pos0, bytes[..], mems, 0, piece, 0);
      if Frozen(ms0) && pos0 == 0 { EmptiedFrozen(ms0, ms1); }
    }

    /**
      Same as Alloc, but for a piece which really needs it: if the first attempt
      fails, what other pieces hold only for convenience is released.
     */
    method HardAlloc(piece: nat, size: nat) returns (ret: Offset)
      requires Valid() && MayGrow(piece) && !Released(piece) && alloctype == Normal
      requires 0 <= corePosition <= mems[ALLOMODL].full && (pass == Second ==> corePosition == 0)
      modifies this`brk, this`refused, this`mems, this`incore, this`corePosition, this`alloctype, bytes
      ensures Valid() && alloctype == Normal
      ensures Kept(old(Bytes()), old(mems), old(corePosition), Bytes(), mems, corePosition, piece,
          if ret.Off? then Charge(piece, size) else 0)
      ensures ret.Off? ==> ret.value + Charge(piece, size) == mems[piece].full
      ensures ret.BadOff? ==> !incore && Available(mems, piece, Forced) < Charge(piece, size)
      ensures pass == Second ==> SamePlace(old(mems), mems) && Frozen(mems) && corePosition == 0 && !incore
      ensures incore ==> ret.Off? && old(incore) && corePosition == old(corePosition)
      ensures incore ==> Grown(old(Bytes()), old(mems), Bytes(), mems, piece, Charge(piece, size))
    {
      ghost var b0, ms0, pos0 := bytes[..], mems, corePosition;
      TiledWithin(ms0, brk, bytes.Length);
      SameLiveRefl(b0, ms0, brk);
      SameLiveGrown(b0, ms0, b0, ms0, piece);
      GrownKept(b0, ms0, b0, ms0, pos0, piece, 0);
      ret := FirstTry(piece, size, b0, ms0, pos0);
      if ret.Off? { return; }
      ret := HardRetry(piece, size, b0, ms0, pos0);
    }

    /** What an attempt leaves when not all is in core any more, seen from the start of HardAlloc. */
    ghost predicate Attempted(piece: nat, size: nat, b0: seq<byte>, ms0: seq<Piece>, pos0: int, ret: Offset)
      reads this, bytes
    {
      && Valid() && MayGrow(piece) && !incore && 0 <= corePosition <= mems[ALLOMODL].full
      && Within(ms0, |b0|)
      && Kept(b0, ms0, pos0, Bytes(), mems, corePosition, piece, if ret.Off? then Charge(piece, size) else 0)
      && (ret.Off? ==> ret.value + Charge(piece, size) == mems[piece].full)
      && (pass == Second ==> SamePlace(ms0, mems) && corePosition == 0)
    }

    /** The second and third attempt, after releasing. */
    method HardRetry(piece: nat, size: nat, ghost b0: seq<byte>, ghost ms0: seq<Piece>, ghost pos0: int)
        returns (ret: Offset)
      requires Attempted(piece, size, b0, ms0, pos0, BadOff) && alloctype == Normal
      modifies this`brk, this`refused, this`mems, this`incore, this`corePosition, this`alloctype, bytes
      ensures Attempted(piece, size, b0, ms0, pos0, ret) && alloctype == Normal
      ensures ret.BadOff? ==> Available(mems, piece, Forced) < Charge(piece, size)
    {
      ReleaseFor(piece, size, b0, ms0, pos0);
      ret := TryAgain(piece, size, b0, ms0, pos0);
      if ret.BadOff? {
        alloctype := Forced;
        ret := TryAgain(piece, size, b0, ms0, pos0);
        alloctype := Normal;
      }
    }

    method ReleaseFor(ghost piece: nat, ghost size: nat, ghost b0: seq<byte>, ghost ms0: seq<Piece>, ghost pos0: int)
      requires Attempted(piece, size, b0, ms0, pos0, BadOff)
      modifies this`mems, this`corePosition, bytes
      ensures Attempted(piece, size, b0, ms0, pos0, BadOff)
    {
      ghost var b1, ms1, pos1 := bytes[..], mems, corePosition;
      ReleaseAll(piece);
      KeptTrans(b0, ms0, pos0, b1, ms1, pos1, bytes[..], mems, 0, piece, 0);
      if pass == Second { SamePlaceTrans(ms0, ms1, mems); }
    }

    method TryAgain(piece: nat, size: nat, ghost b0: seq<byte>, ghost ms0: seq<Piece>, ghost pos0: int)
        returns (ret: Offset)
      requires Attempted(piece, size, b0, ms0, pos0, BadOff)
      modifies this`brk, this`refused, this`mems, this`incore, bytes
      ensures Attempted(piece, size, b0, ms0, pos0, ret)
      ensures ret.BadOff? ==> Available(mems, piece, alloctype) < Need(mems[piece], Charge(piece, size), alloctype)
    {
      ghost var ms1 := mems;
      ret := TryAlloc(piece, size, b0, ms0, pos0);
      if pass == Second { SamePlaceTrans(ms0, ms1, mems); }
    }

    // ---------------------------------------------------- between the passes

    method DeallocDropped()
      requires Valid()
      modifies this`mems
      ensures Valid() && DroppedUpTo(old(mems), mems, NMEMS)
    {
      ghost var ms0 := mems;
      var i := 0;
      while i < NMEMS
        invariant 0 <= i <= NMEMS && Valid() && DroppedUpTo(ms0, mems, i)
      {
        if Dropped(i) { Dealloc(i); }
        i := i + 1;
      }
    }

    /**
      If core has run out, packs what the second pass needs, so that none of it,
      nor the start of the module piece, will ever have to be moved again.
     */
    method FreezeCore()
      requires Valid() && pass == First
      modifies this`mems, this`corePosition, bytes
      ensures Valid() && corePosition == 0
      ensures incore ==> mems == old(mems) && Bytes() == old(Bytes())
      ensures !incore ==> FreezeResult(old(Bytes()), old(mems), Bytes(), mems)
    {
      corePosition := 0;
      if !incore { Pack(); }
    }

    method Pack()
      requires Valid() && pass == First
      modifies this`mems, bytes
      ensures Valid() && FreezeResult(old(Bytes()), old(mems), Bytes(), mems)
    {
      ghost var b0, ms0 := bytes[..], mems;
      DeallocDropped();
      ghost var ms1 := mems;
      var ok := Compact(NMEMS - 1, 0, Freeze);
      FreezeDone(b0, ms0, ms1, brk, bytes[..], mems, ok);
    }

    // ------------------------------------------------------------ whole runs

    /** What holds between two uses of the memory manager, in either pass. */
    ghost predicate Ready()
      reads this
    {
      && Valid() && alloctype == Normal
      && 0 <= corePosition <= mems[ALLOMODL].full
      && (pass == Second ==> !incore && Frozen(mems) && corePosition == 0)
    }

    /** The uses that the linker makes of the memory manager. */
    predicate Proper(c: Call)
      requires |mems| == NMEMS
      reads this
    {
      match c
      case CallAlloc(piece, _) => piece < NMEMS && (pass == Second ==> piece == ALLOMODL)
      case CallHardAlloc(piece, _) => piece < NMEMS && !Released(piece) && (pass == Second ==> piece == ALLOMODL)
      case CallCoreFree(piece, offset) =>
        && piece < NMEMS && Dropped(piece) && (pass == Second ==> piece == ALLOMODL)
        && Start(piece, corePosition) + offset < mems[piece].full
      case CallDealloc(piece) => pass == First && piece < NMEMS && piece != ALLOMODL && Dropped(piece)
      case CallSkip(size) => incore ==> corePosition + IntAlign(size) <= mems[ALLOMODL].full
    }

    /** What one use promises to a run. */
    twostate predicate Did(c: Call)
      requires old(|mems|) == NMEMS && |mems| == NMEMS
      reads this, bytes
    {
      && Preserved(old(Bytes()), old(mems), Bytes(), mems)
      && RunKept([c], old(Bytes()), old(mems), old(corePosition), Bytes(), mems, corePosition, incore)
      && (incore ==> old(incore))
      && (pass == Second ==> SamePlace(old(mems), mems))
    }

    method Perform(c: Call)
      requires Ready() && Proper(c)
      modifies this`brk, this`refused, this`mems, this`incore, this`corePosition, this`alloctype, bytes
      ensures Ready() && Did(c)
    {
      match c {
        case CallAlloc(piece, size) => PerformAlloc(piece, size);
        case CallHardAlloc(piece, size) => PerformHardAlloc(piece, size);
        case CallCoreFree(piece, offset) => PerformCoreFree(piece, offset);
        case CallDealloc(piece) => PerformDealloc(piece);
        case CallSkip(size) => SkipModul(size);
      }
    }

    method PerformHardAlloc(piece: nat, size: nat)
      requires Ready() && Proper(CallHardAlloc(piece, size))
      modifies this`brk, this`refused, this`mems, this`incore, this`corePosition, this`alloctype, bytes
      ensures Ready() && Did(CallHardAlloc(piece, size))
    {
      ghost var b0, ms0, pos0 := bytes[..], mems, corePosition;
      TiledWithin(ms0, brk, bytes.Length);
      var ret := HardAlloc(piece, size);
      TiledWithin(mems, brk, bytes.Length);
      ghost var n := if ret.Off? then Charge(piece, size) else 0;
      KeptPreserved(b0, ms0, pos0, bytes[..], mems, corePosition, piece, n);
      if incore {
        GrownRunKept(CallHardAlloc(piece, size), b0, ms0, pos0, bytes[..], mems, piece, n, true);
      } else {
        KeptRunKept(CallHardAlloc(piece, size), b0, ms0, pos0, bytes[..], mems, corePosition, piece, n);
      }
    }

    method PerformCoreFree(piece: nat, offset: nat)
      requires Ready() && Proper(CallCoreFree(piece, offset))
      modifies this`mems
      ensures Ready() && Did(CallCoreFree(piece, offset))
    {
      ghost var ms0 := mems;
      TiledWithin(ms0, brk, bytes.Length);
      var p := if piece == ALLOMODL then corePosition + offset else offset;
      CoreFree(piece, p);
      ShrunkPreserved(bytes[..], ms0, piece, mems[piece]);
      ShrunkRunKept(CallCoreFree(piece, offset), bytes[..], ms0, corePosition, mems, piece, p, incore);
      if pass == Second { FrozenStays(ms0, mems); }
    }

    method PerformDealloc(piece: nat)
      requires Ready() && Proper(CallDealloc(piece))
      modifies this`mems
      ensures Ready() && Did(CallDealloc(piece))
    {
      ghost var ms0 := mems;
      TiledWithin(ms0, brk, bytes.Length);
      Dealloc(piece);
      ShrunkPreserved(bytes[..], ms0, piece, mems[piece]);
      ShrunkRunKept(CallDealloc(piece), bytes[..], ms0, corePosition, mems, piece, 0, incore);
    }

    /** The scanner's skip_modul: the current module is saved, or given up if not everything is in core. */
    method SkipModul(size: nat)
      requires Ready() && Proper(CallSkip(size))
      modifies this`mems, this`corePosition
      ensures Ready() && Did(CallSkip(size))
    {
      ghost var ms0, pos0 := mems, corePosition;
      TiledWithin(ms0, brk, bytes.Length);
      if incore {
        corePosition := corePosition + IntAlign(size);
        ShrunkPreserved(bytes[..], ms0, ALLOMODL, ms0[ALLOMODL]);
        SkippedRunKept(CallSkip(size), bytes[..], ms0, pos0, corePosition, incore);
      } else {
        Dealloc(ALLOMODL);
        corePosition := 0;
        ShrunkPreserved(bytes[..], ms0, ALLOMODL, mems[ALLOMODL]);
        GivenUpRunKept(CallSkip(size), bytes[..], ms0, pos0, mems);
        if pass == Second { FrozenStays(ms0, mems); }
      }
    }

    method PerformAlloc(piece: nat, size: nat)
      requires Ready() && Proper(CallAlloc(piece, size))
      modifies this`brk, this`refused, this`mems, this`incore, bytes
      ensures Ready() && Did(CallAlloc(piece, size))
    {
      ghost var b0, ms0 := bytes[..], mems;
      TiledWithin(ms0, brk, bytes.Length);
      var ret := Alloc(piece, size);
      TiledWithin(mems, brk, bytes.Length);
      ghost var n := if ret.Off? then Charge(piece, size) else 0;
      if ret.BadOff? { SameLiveGrown(b0, ms0, bytes[..], mems, piece); }
      GrownPreserved(b0, ms0, bytes[..], mems, piece, n);
      GrownRunKept(CallAlloc(piece, size), b0, ms0, corePosition, bytes[..], mems, piece, n, incore);
      assert GrownAt(b0, ms0[ALLOMODL], bytes[..], mems[ALLOMODL], if ALLOMODL == piece then n else 0);
    }

    /** What a run has kept so far. */
    ghost predicate Ran(calls: seq<Call>, b0: seq<byte>, ms0: seq<Piece>, pos0: int)
      reads this, bytes
    {
      && Ready() && |ms0| == NMEMS
      && Preserved(b0, ms0, Bytes(), mems)
      && RunKept(calls, b0, ms0, pos0, Bytes(), mems, corePosition, incore)
      && (pass == Second ==> SamePlace(ms0, mems))
    }

    /** One more use of a run, if the linker would make it. */
    method RunOne(c: Call, ghost calls: seq<Call>, ghost b0: seq<byte>, ghost ms0: seq<Piece>, ghost pos0: int)
      requires Ran(calls, b0, ms0, pos0) && 0 <= pos0
      requires forall i :: 0 <= i < NMEMS ==> 0 <= InUse(ms0, i, pos0)
      modifies this`brk, this`refused, this`mems, this`incore, this`corePosition, this`alloctype, bytes
      ensures Ran(calls + [c], b0, ms0, pos0) && (incore ==> old(incore))
    {
      ghost var b1, ms1, pos1, incore1 := bytes[..], mems, corePosition, incore;
      if Proper(c) {
        Perform(c);
        PreservedTrans(b0, ms0, b1, ms1, bytes[..], mems);
        if pass == Second { SamePlaceTrans(ms0, ms1, mems); }
        RunKeptNext(calls, c, b0, ms0, pos0, b1, ms1, pos1, incore1, bytes[..], mems, corePosition, incore);
      } else {
        RunKeptIdle(calls, c, b0, ms0, pos0, b1, ms1, pos1, incore1);
      }
    }

    /**
      Any run of uses, each made only where the linker would make it: in both
      passes nothing permanent is lost; the ranlib table and the current module
      are lost only from the lowest offset on that is freed; as long as everything
      is in core that holds for every piece; and in the second pass neither the
      pieces below the module piece nor its start ever move.
     */
    method Run(calls: seq<Call>)
      requires Ready()
      modifies this`brk, this`refused, this`mems, this`incore, this`corePosition, this`alloctype, bytes
      ensures Ready() && Preserved(old(Bytes()), old(mems), Bytes(), mems)
      ensures RunKept(calls, old(Bytes()), old(mems), old(corePosition), Bytes(), mems, corePosition, incore)
      ensures incore ==> old(incore)
      ensures pass == Second ==> SamePlace(old(mems), mems)
    {
      ghost var b0, ms0, pos0 := bytes[..], mems, corePosition;
      SameLiveRefl(b0, ms0, brk);
      SameLiveGrown(b0, ms0, b0, ms0, 0);
      GrownPreserved(b0, ms0, b0, ms0, 0, 0);
      TiledWithin(ms0, brk, bytes.Length);
      NothingKept(b0, ms0, pos0, incore);
      var k := 0;
      while k < |calls|
        invariant 0 <= k <= |calls| && Ran(calls[..k], b0, ms0, pos0) && (incore ==> old(incore))
      {
        RunOne(calls[k], calls[..k], b0, ms0, pos0);
        assert calls[..k] + [calls[k]] == calls[..k + 1];
        k := k + 1;
      }
      assert calls[..k] == calls;
    }

    /** Freezing is what makes the second pass ready. */
    method BeginSecondPass()
      requires Ready() && pass == First && !incore
      modifies this`mems, this`corePosition, this`pass, bytes
      ensures Ready() && pass == Second && Preserved(old(Bytes()), old(mems), Bytes(), mems)
    {
      ghost var b0, ms0 := bytes[..], mems;
      FreezeCore();
      assert Sane(mems[ALLOMODL], brk);
      forall i | 0 <= i < NMEMS && !Dropped(i) ensures Extends(b0, ms0[i], bytes[..], mems[i]) {
        assert SameBytes(b0, ms0[i], bytes[..], mems[i]);
      }
      pass := Second;
    }
  }

  /** The pieces, one after the other. */
  method InitialPieces(start: nat, lefts: seq<nat>) returns (ms: seq<Piece>, end: nat)
    requires |lefts| == NMEMS
    ensures InitialTable(ms, lefts, start, NMEMS) && end == InitialEnd(lefts, start, NMEMS) == ms[NMEMS - 1].End()
    ensures end > start
  {
    ms, end := [], start;
    var k := 0;
    while k < NMEMS
      invariant 0 <= k <= NMEMS && InitialTable(ms, lefts, start, k) && end == InitialEnd(lefts, start, k)
      invariant end == if k == 0 then start else ms[k - 1].End()
      invariant start + (if k > ALLOLCHR then 1 else 0) + (if k > ALLOGCHR then 1 else 0) <= end
    {
      var m := InitialPiece(k, end, lefts[k]);
      InitialNext(ms, lefts, start, k, m);
      ms := ms + [m];
      end := m.End();
      k := k + 1;
    }
  }

  /** The current module, moved to the start of its piece. */
  lemma {:induction false} ModuleSlid(b: seq<byte>, ms: seq<Piece>, brk: int, pos: int)
    requires Tiled(ms, brk) && brk <= |b| && 0 <= pos <= ms[ALLOMODL].full
    ensures var m := ms[ALLOMODL];
      && 0 <= m.base <= m.base + pos && m.base + m.full <= |b|
      && ModuleFirst(b, ms, pos, Blit(b, m.base + pos, m.base, m.full - pos),
                     ms[ALLOMODL := Piece(m.base, m.full - pos, m.left + pos)])
  {
    TiledWithin(ms, brk, |b|);
  }

  lemma {:induction false} TriedKept(b0: seq<byte>, ms0: seq<Piece>, pos0: int, b1: seq<byte>, ms1: seq<Piece>,
      brk1: int, pos: int, b2: seq<byte>, ms2: seq<Piece>, brk2: int, piece: nat, n: nat)
    requires Within(ms0, |b0|) && Kept(b0, ms0, pos0, b1, ms1, pos, piece, 0) && Grown(b1, ms1, b2, ms2, piece, n)
    requires Tiled(ms1, brk1) && Tiled(ms2, brk2) && brk1 <= |b1| && brk2 <= |b2|
    requires 0 <= pos <= ms1[ALLOMODL].full && piece < NMEMS
    ensures Kept(b0, ms0, pos0, b2, ms2, pos, piece, n) && pos <= ms2[ALLOMODL].full
    ensures ms2[piece].full == ms1[piece].full + n
  {
    TiledWithin(ms1, brk1, |b1|);
    TiledWithin(ms2, brk2, |b2|);
    GrownKept(b1, ms1, b2, ms2, pos, piece, n);
    KeptTrans(b0, ms0, pos0, b1, ms1, pos, b2, ms2, pos, piece, n);
    assert GrownAt(b1, ms1[piece], b2, ms2[piece], n);
    assert GrownAt(b1, ms1[ALLOMODL], b2, ms2[ALLOMODL], if ALLOMODL == piece then n else 0);
  }
}
