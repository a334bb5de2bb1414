/**
  The multi-part object writer (Ack-5.5/lib/wr.c): several cursors on one file,
  of which the last of the sections' is shared by all sections from SECTCNT - 1
  on. Whatever the order of the calls, it refines a writer without buffers that
  keeps the same offsets.
 */
module ObjectWriter {
  import opened Bytes
  import opened FileCursor

  const SECTCNT := 3
  const PARTRELO := 3
  const PARTNAME := 4
  const PARTCHAR := 5
  const NPARTS := 6
  const SHARED := SECTCNT - 1

  function PartOf(s: nat): nat {
    if s >= SHARED then SHARED else s
  }

  // ------------------------------------------------------ without the buffers

  /** wr_outsect, wr_emit, wr_relo, wr_name and wr_string; the records are encoded. */
  datatype Call =
    | Sect(s: nat)
    | Emit(b: seq<byte>)
    | Relo(recs: seq<seq<byte>>)
    | Name(recs: seq<seq<byte>>)
    | Text(b: seq<byte>)

  predicate Sized(c: Call) {
    match c
    case Sect(s) => s < MAXSECT
    case Relo(recs) => forall i :: 0 <= i < |recs| ==> |recs[i]| == 8
    case Name(recs) => forall i :: 0 <= i < |recs| ==> |recs[i]| == 12
    case _ => true
  }

  /**
    The current section, the offsets noted for the sections, where the shared
    cursor's buffer starts; and of each cursor where the next byte goes and what
    it has written, as a file of its own.
   */
  datatype Pens = Pens(sect: nat, off: seq<nat>, start: nat, next: seq<nat>, img: seq<seq<byte>>) {
    predicate Valid() {
      sect < MAXSECT && |off| == MAXSECT && |next| == |img| == NPARTS
    }

    function Write(c: nat, b: seq<byte>): (r: Pens)
      requires Valid() && c < NPARTS
      ensures r.Valid()
    {
      this.(next := next[c := next[c] + |b|], img := img[c := WriteAt(img[c], next[c], b)])
    }

    /** The offset of the current section is noted whenever a buffer of the shared cursor is written. */
    function Noted(): (r: Pens)
      requires Valid()
      ensures r.Valid()
    {
      var at := StartAfter(start, next[SHARED]);
      this.(start := at, off := if at != start then off[sect := at] else off)
    }

    /** wr_outsect: only from one section of the shared cursor to another is it moved. */
    function Move(s: nat): (r: Pens)
      requires Valid() && s < MAXSECT
      ensures r.Valid()
    {
      if s != sect && s >= SHARED && sect >= SHARED
      then this.(sect := s, off := off[sect := next[SHARED]], start := off[s], next := next[SHARED := off[s]])
      else this.(sect := s)
    }

    function Do(c: Call): (r: Pens)
      requires Valid() && Sized(c)
      ensures r.Valid()
    {
      match c
      case Sect(s) => Move(s)
      case Emit(b) => if sect >= SHARED then Write(SHARED, b).Noted() else Write(sect, b)
      case Relo(recs) => Write(PARTRELO, Concat(recs))
      case Name(recs) => Write(PARTNAME, Concat(recs))
      case Text(b) => Write(PARTCHAR, b)
    }
  }

  /** What a call writes, and with which cursor. */
  function CursorFor(sect: nat, c: Call): nat {
    match c
    case Sect(s) => 0
    case Emit(b) => PartOf(sect)
    case Relo(recs) => PARTRELO
    case Name(recs) => PARTNAME
    case Text(b) => PARTCHAR
  }

  function BytesOf(c: Call): seq<byte> {
    match c
    case Sect(s) => []
    case Emit(b) => b
    case Relo(recs) => Concat(recs)
    case Name(recs) => Concat(recs)
    case Text(b) => b
  }

  // --------------------------------------------------------- parts of the file

  /** The part of the file that is for each cursor; parts do not overlap. */
  datatype Parts = Parts(lo: seq<nat>, hi: seq<nat>) {
    predicate Valid() {
      && |lo| == |hi| == NPARTS && lo[NPARTS - 1] <= hi[NPARTS - 1]
      && forall c, d :: 0 <= c < d < NPARTS ==> hi[c] <= lo[d]
    }

    predicate InPart(c: nat, pos: nat, n: nat)
      requires |lo| == |hi| == NPARTS && c < NPARTS
    {
      n == 0 || (lo[c] <= pos && pos + n <= hi[c])
    }

    /** Does the call stay within its cursor's part? */
    predicate Stays(ph: Pens, c: Call)
      requires |lo| == |hi| == NPARTS && ph.Valid()
    {
      InPart(CursorFor(ph.sect, c), ph.next[CursorFor(ph.sect, c)], |BytesOf(c)|)
    }
  }

  function ByteOf(f: seq<byte>, i: nat): byte {
    if i < |f| then f[i] else 0
  }

  /** Within this range the file has what the image has. */
  ghost predicate Shows(f: seq<byte>, img: seq<byte>, lo: nat, hi: nat) {
    forall i :: lo <= i < hi ==> ShowsAt(f, img, i)
  }

  ghost predicate ShowsAt(f: seq<byte>, img: seq<byte>, i: nat) {
    ByteOf(f, i) == ByteOf(img, i) && (i < |img| ==> i < |f|)
  }

  lemma ShowsWrite(f: seq<byte>, img: seq<byte>, lo: nat, hi: nat, pos: nat, w: seq<byte>)
    requires Shows(f, img, lo, hi) && (|w| == 0 || (lo <= pos && pos + |w| <= hi))
    ensures Shows(WriteAt(f, pos, w), WriteAt(img, pos, w), lo, hi)
  {
    forall i | lo <= i < hi ensures ShowsAt(WriteAt(f, pos, w), WriteAt(img, pos, w), i) { assert ShowsAt(f, img, i); }
  }

  lemma ShowsElsewhere(f: seq<byte>, img: seq<byte>, lo: nat, hi: nat, pos: nat, w: seq<byte>)
    requires Shows(f, img, lo, hi) && (|w| == 0 || hi <= pos || pos + |w| <= lo)
    ensures Shows(WriteAt(f, pos, w), img, lo, hi)
  {
    forall i | lo <= i < hi ensures ShowsAt(WriteAt(f, pos, w), img, i) { assert ShowsAt(f, img, i); }
  }

  /** The file has what the images have, part by part, and nothing beyond. */
  ghost predicate AllShown(f: seq<byte>, imgs: seq<seq<byte>>, p: Parts)
    requires p.Valid() && |imgs| == NPARTS
  {
    |f| <= p.hi[NPARTS - 1] && forall c :: 0 <= c < NPARTS ==> PartShown(f, imgs, p, c)
  }

  ghost predicate PartShown(f: seq<byte>, imgs: seq<seq<byte>>, p: Parts, c: nat)
    requires p.Valid() && |imgs| == NPARTS && c < NPARTS
  {
    Shows(f, imgs[c], p.lo[c], p.hi[c])
  }

  lemma PartWritten(f: seq<byte>, imgs: seq<seq<byte>>, p: Parts, c: nat, pos: nat, w: seq<byte>)
    requires p.Valid() && |imgs| == NPARTS && c < NPARTS && AllShown(f, imgs, p) && p.InPart(c, pos, |w|)
    ensures AllShown(WriteAt(f, pos, w), imgs[c := WriteAt(imgs[c], pos, w)], p)
  {
    var g, next := WriteAt(f, pos, w), imgs[c := WriteAt(imgs[c], pos, w)];
    forall d | 0 <= d < NPARTS ensures PartShown(g, next, p, d) {
      assert PartShown(f, imgs, p, d);
      if d == c {
        ShowsWrite(f, imgs[c], p.lo[c], p.hi[c], pos, w);
      } else {
        ShowsElsewhere(f, imgs[d], p.lo[d], p.hi[d], pos, w);
      }
    }
  }

  lemma TookImage(img: seq<byte>, f: seq<byte>, pos: nat, pend: seq<byte>, b: seq<byte>, w: seq<byte>, f': seq<byte>,
      pos': nat, pend': seq<byte>)
    requires Took(f, pos, pend, b, w, f', pos', pend')
    ensures WriteAt(WriteAt(img, pos, w), pos', pend') == WriteAt(WriteAt(img, pos, pend), pos + |pend|, b)
  {
    WriteAtAppend(img, pos, w, pend');
    WriteAtAppend(img, pos, pend, b);
  }

  // ---------------------------------------------------------------- the writer

  /** A cursor with these pending bytes at pos, after the image `flushed`, is where the pens say. */
  ghost predicate PenAt(p: Parts, c: nat, ph: Pens, flushed: seq<byte>, pos: nat, pend: seq<byte>)
    requires p.Valid() && ph.Valid() && c < NPARTS
  {
    ph.next[c] == pos + |pend| && ph.img[c] == WriteAt(flushed, pos, pend) && p.InPart(c, pos, |pend|)
  }

  lemma PenTaken(p: Parts, c: nat, ph: Pens, flushed: seq<byte>, f: seq<byte>, pos: nat, pend: seq<byte>, b: seq<byte>,
      w: seq<byte>, f': seq<byte>, pos': nat, pend': seq<byte>)
    requires p.Valid() && ph.Valid() && c < NPARTS && PenAt(p, c, ph, flushed, pos, pend)
    requires p.InPart(c, ph.next[c], |b|) && Took(f, pos, pend, b, w, f', pos', pend')
    ensures p.InPart(c, pos, |w|) && PenAt(p, c, ph.Write(c, b), WriteAt(flushed, pos, w), pos', pend')
  {
    TookLengths(f, pos, pend, b, w, f', pos', pend');
    TookImage(flushed, f, pos, pend, b, w, f', pos', pend');
    PenMoved(p, c, ph, flushed, pos, pend, b, w, pos', pend');
  }

  lemma PenMoved(p: Parts, c: nat, ph: Pens, flushed: seq<byte>, pos: nat, pend: seq<byte>, b: seq<byte>, w: seq<byte>,
      pos': nat, pend': seq<byte>)
    requires p.Valid() && ph.Valid() && c < NPARTS && PenAt(p, c, ph, flushed, pos, pend)
        && p.InPart(c, ph.next[c], |b|)
    requires |pend| + |b| == |w| + |pend'| && pos' == pos + |w|
    requires WriteAt(WriteAt(flushed, pos, w), pos', pend') == WriteAt(WriteAt(flushed, pos, pend), pos + |pend|, b)
    ensures p.InPart(c, pos, |w|) && PenAt(p, c, ph.Write(c, b), WriteAt(flushed, pos, w), pos', pend')
  {
  }

  ghost predicate Distinct(cs: seq<Cursor>) {
    forall c, d :: 0 <= c < d < |cs| ==> cs[c] != cs[d] && cs[c].buf != cs[d].buf
  }

  ghost predicate AllIdle(cs: seq<Cursor>)
    reads cs, set c | 0 <= c < |cs| :: cs[c].buf
  {
    forall c :: 0 <= c < |cs| ==> cs[c].Valid() && cs[c].Pending() == []
  }

  method NewCursors() returns (cs: seq<Cursor>)
    ensures |cs| == NPARTS && Distinct(cs) && AllIdle(cs)
    ensures forall c :: 0 <= c < NPARTS ==> fresh(cs[c]) && fresh(cs[c].buf)
  {
    cs := [];
    while |cs| < NPARTS
      invariant |cs| <= NPARTS && Distinct(cs) && AllIdle(cs)
      invariant forall c :: 0 <= c < |cs| ==> fresh(cs[c]) && fresh(cs[c].buf)
    {
      var c := new Cursor();
      cs := cs + [c];
    }
  }

  class Writer {
    const file: File
    const parts: seq<Cursor>
    var offset: seq<nat>
    var sectionnr: nat
    /** Which parts are for whom, and what each cursor has written so far. */
    ghost var plan: Parts
    ghost var flushed: seq<seq<byte>>

    /** The source's wr_open: nothing has been placed yet. */
    constructor ()
      ensures Apart() && fresh(file) && file.bytes == [] && AllIdle(parts)
      ensures forall c :: 0 <= c < NPARTS ==> fresh(parts[c]) && fresh(parts[c].buf)
      ensures sectionnr == 0 && offset == seq(MAXSECT, _ => 0)
    {
      file := new File();
      var cs := NewCursors();
      parts := cs;
      offset := seq(MAXSECT, _ => 0);
      sectionnr := 0;
    }

    ghost predicate Apart()
      reads this
    {
      |parts| == NPARTS && Distinct(parts)
    }

    /** Cursor c is where the pens say, and all that it has taken is written or pending. */
    ghost predicate CursorAt(c: nat, ph: Pens)
      reads this`plan, this`flushed, parts[c], parts[c].buf
      requires |parts| == NPARTS && c < NPARTS && |flushed| == NPARTS && plan.Valid() && ph.Valid()
    {
      parts[c].Valid() && PenAt(plan, c, ph, flushed[c], parts[c].currpos, parts[c].Pending())
    }

    ghost predicate OffsetsAt(ph: Pens)
      reads this`offset
    {
      |offset| == MAXSECT == |ph.off| && forall t :: SHARED <= t < MAXSECT ==> offset[t] == ph.off[t]
    }

    ghost predicate Basic()
      reads this
    {
      Apart() && plan.Valid() && |flushed| == NPARTS && |offset| == MAXSECT && sectionnr < MAXSECT
    }

    /** The file has what has been written, and nothing else. */
    ghost predicate FileShown()
      reads this, file
      requires Basic()
    {
      AllShown(file.bytes, flushed, plan)
    }

    /** The writer is where the pens are. */
    ghost predicate At(ph: Pens)
      reads this, file, parts, set c | 0 <= c < |parts| :: parts[c].buf
    {
      && Basic() && ph.Valid() && FileShown()
      && sectionnr == ph.sect && OffsetsAt(ph)
      && parts[SHARED].Aligned() && parts[SHARED].currpos == ph.start
      && forall c :: 0 <= c < NPARTS ==> CursorAt(c, ph)
    }

    /** Note what cursor c has taken: b, of which with earlier bytes w has been written. */
    ghost method NoteTaken(c: nat, b: seq<byte>, w: seq<byte>, ph: Pens, f: seq<byte>, pos: nat, pend: seq<byte>)
      requires Basic() && ph.Valid() && c < NPARTS && AllShown(f, flushed, plan)
      requires forall d :: 0 <= d < NPARTS && d != c ==> CursorAt(d, ph)
      requires parts[c].Valid() && PenAt(plan, c, ph, flushed[c], pos, pend) && plan.InPart(c, ph.next[c], |b|)
      requires Took(f, pos, pend, b, w, file.bytes, parts[c].currpos, parts[c].Pending())
      modifies this`flushed
      ensures Basic() && FileShown()
      ensures forall d :: 0 <= d < NPARTS ==> CursorAt(d, ph.Write(c, b))
    {
      PenTaken(plan, c, ph, flushed[c], f, pos, pend, b, w, file.bytes, parts[c].currpos, parts[c].Pending());
      PartWritten(f, flushed, plan, c, pos, w);
      flushed := flushed[c := WriteAt(flushed[c], pos, w)];
      assert CursorAt(c, ph.Write(c, b));
      forall d | 0 <= d < NPARTS && d != c ensures CursorAt(d, ph.Write(c, b)) { assert old(CursorAt(d, ph)); }
    }

    /** OUTWRITE for the part of cursor c. */
    method Give(c: nat, b: seq<byte>, ghost ph: Pens)
      requires At(ph) && c < NPARTS && (c < SECTCNT ==> c == PartOf(sectionnr)) && plan.InPart(c, ph.next[c], |b|)
      modifies this, file, parts[c], parts[c].buf
      ensures plan == old(plan) && At(if c == SHARED then ph.Write(c, b).Noted() else ph.Write(c, b))
    {
      assert CursorAt(c, ph);
      var pos := parts[c].currpos;
      Take(c, b, ph);
      if c < SECTCNT && parts[c].currpos != pos { offset := offset[sectionnr := parts[c].currpos]; }
      if c == SHARED {
        forall d | 0 <= d < NPARTS ensures CursorAt(d, ph.Write(c, b).Noted()) { assert CursorAt(d, ph.Write(c, b)); }
      }
    }

    /** The bytes are taken, before an offset is noted. */
    method Take(c: nat, b: seq<byte>, ghost ph: Pens)
      requires Basic() && ph.Valid() && FileShown() && c < NPARTS && plan.InPart(c, ph.next[c], |b|)
      requires forall d :: 0 <= d < NPARTS ==> CursorAt(d, ph)
      modifies this`flushed, file, parts[c], parts[c].buf
      ensures Basic() && FileShown() && forall d :: 0 <= d < NPARTS ==> CursorAt(d, ph.Write(c, b))
      ensures old(parts[c].Aligned()) ==>
        parts[c].Aligned() && parts[c].currpos == StartAfter(old(parts[c].currpos), ph.Write(c, b).next[c])
    {
      assert CursorAt(c, ph);
      ghost var f, pos, pend := file.bytes, parts[c].currpos, parts[c].Pending();
      ghost var w := parts[c].OutWrite(file, b);
      NoteTaken(c, b, w, ph, f, pos, pend);
    }

    /** wr_sect, wr_relo and wr_name for records that are already encoded. */
    method GiveRecords(c: nat, recs: seq<seq<byte>>, size: nat, ghost ph: Pens)
      requires At(ph) && c < NPARTS && c != SHARED && (c < SHARED ==> c == sectionnr)
      requires 0 < size <= WBUFSIZ && forall i :: 0 <= i < |recs| ==> |recs[i]| == size
      requires plan.InPart(c, ph.next[c], |Concat(recs)|)
      modifies this, file, parts[c], parts[c].buf
      ensures plan == old(plan) && At(ph.Write(c, Concat(recs)))
    {
      assert CursorAt(c, ph);
      var pos := parts[c].currpos;
      ghost var f, pend := file.bytes, parts[c].Pending();
      ghost var w := parts[c].PutRecords(file, recs, size);
      NoteTaken(c, Concat(recs), w, ph, f, pos, pend);
      if c < SECTCNT && parts[c].currpos != pos { offset := offset[sectionnr := parts[c].currpos]; }
    }

    /** Write what is pending for cursor c. */
    method FlushPart(c: nat, ghost ph: Pens)
      requires Basic() && ph.Valid() && FileShown() && c < NPARTS && forall d :: 0 <= d < NPARTS ==> CursorAt(d, ph)
      modifies this`flushed, file, parts[c]
      ensures Basic() && plan == old(plan) && FileShown() && forall d :: 0 <= d < NPARTS ==> CursorAt(d, ph)
      ensures parts[c].Valid() && parts[c].Pending() == [] && parts[c].currpos == ph.next[c]
    {
      assert CursorAt(c, ph);
      ghost var f, pos, pend := file.bytes, parts[c].currpos, parts[c].Pending();
      ghost var w := parts[c].FlushOut(file);
      NoteTaken(c, [], w, ph, f, pos, pend);
      NothingWritten(ph, c);
    }

    /** The source's wr_outsect. */
    method OutSect(s: nat, ghost ph: Pens)
      requires At(ph) && s < MAXSECT
      modifies this, file, parts[SHARED]
      ensures plan == old(plan) && At(ph.Move(s))
    {
      if s != sectionnr && s >= SHARED && sectionnr >= SHARED {
        FlushPart(SHARED, ph);
        offset := offset[sectionnr := parts[SHARED].currpos];
        MoveShared(s, ph);
        sectionnr := s;
      } else {
        SetSection(s, ph);
      }
    }

    method SetSection(s: nat, ghost ph: Pens)
      requires At(ph) && s < MAXSECT
      modifies this`sectionnr
      ensures At(ph.(sect := s))
    {
      sectionnr := s;
      forall c | 0 <= c < NPARTS ensures CursorAt(c, ph.(sect := s)) { assert old(CursorAt(c, ph)); }
    }

    /** The shared cursor goes to the offset of section s. */
    method MoveShared(s: nat, ghost ph: Pens)
      requires Basic() && ph.Valid() && FileShown() && sectionnr == ph.sect && SHARED <= s < MAXSECT
          && s != sectionnr >= SHARED
      requires forall d :: 0 <= d < NPARTS ==> CursorAt(d, ph)
      requires parts[SHARED].Valid() && parts[SHARED].Pending() == [] && OffsetsAt(ph.Move(s))
      modifies parts[SHARED]
      ensures Basic() && FileShown() && parts[SHARED].Aligned() && parts[SHARED].currpos == ph.Move(s).start
      ensures forall d :: 0 <= d < NPARTS ==> CursorAt(d, ph.Move(s))
    {
      assert CursorAt(SHARED, ph);
      parts[SHARED].BeginSeek(offset[s], true);
      forall c | 0 <= c < NPARTS && c != SHARED ensures CursorAt(c, ph.Move(s)) { assert old(CursorAt(c, ph)); }
    }

    /** The source's wr_close. */
    method Close(ghost ph: Pens)
      requires At(ph)
      modifies this, file, parts
      ensures AllShown(file.bytes, ph.img, old(plan))
    {
      var c := 0;
      while c < NPARTS
        invariant 0 <= c <= NPARTS && plan == old(plan)
        invariant Basic() && FileShown() && forall d :: 0 <= d < NPARTS ==> CursorAt(d, ph)
        invariant forall d :: 0 <= d < c ==> parts[d].Valid() && parts[d].Pending() == []
      {
        FlushPart(c, ph);
        c := c + 1;
      }
      forall d | 0 <= d < NPARTS ensures ph.img[d] == flushed[d] { assert CursorAt(d, ph); }
      assert ph.img == flushed;
    }

    /** The cursors are placed at the parts that there are. */
    method SeekParts(foff: seq<nat>, relo: nat, name: nat, char_: nat)
      requires Apart() && AllIdle(parts)
      modifies parts
      ensures AllIdle(parts) && parts[SHARED].Aligned()
      ensures forall c :: 0 <= c < NPARTS ==> parts[c].currpos == SeekTo(c, foff, relo, name, char_)
    {
      var c := 0;
      while c < NPARTS
        invariant 0 <= c <= NPARTS && AllIdle(parts)
        invariant c > SHARED ==> parts[SHARED].Aligned()
        invariant forall d :: 0 <= d < c ==> parts[d].currpos == SeekTo(d, foff, relo, name, char_)
      {
        parts[c].BeginSeek(SeekTo(c, foff, relo, name, char_), c < PARTRELO);
        c := c + 1;
      }
    }

    /** The offsets of the sections that there are. */
    method SetOffsets(foff: seq<nat>)
      requires |foff| <= MAXSECT && offset == seq(MAXSECT, _ => 0)
      modifies this`offset
      ensures offset == foff + seq(MAXSECT - |foff|, _ => 0)
    {
      var s := 0;
      while s < |foff|
        invariant 0 <= s <= |foff| && |offset| == MAXSECT
        invariant forall t :: 0 <= t < MAXSECT ==> offset[t] == if t < s then foff[t] else 0
      {
        offset := offset[s := foff[s]];
        s := s + 1;
      }
    }

    /** Everything is placed. */
    method SeekAll(foff: seq<nat>, relo: nat, name: nat, char_: nat, ghost p: Parts)
      requires Apart() && AllIdle(parts) && file.bytes == [] && p.Valid()
      requires sectionnr == 0 && offset == seq(MAXSECT, _ => 0) && |foff| <= MAXSECT
      modifies this, parts
      ensures plan == p && At(Placed(foff, relo, name, char_))
    {
      SeekParts(foff, relo, name, char_);
      SetOffsets(foff);
      plan, flushed := p, seq(NPARTS, _ => []);
      forall c | 0 <= c < NPARTS ensures CursorAt(c, Placed(foff, relo, name, char_)) {
        assert parts[c].Pending() == [];
      }
      forall c | 0 <= c < NPARTS ensures PartShown([], flushed, plan, c) {}
    }

    /** wr_ohead and wr_sect: the header and the section table go before section 0. */
    method Begin(header: seq<byte>, table: seq<seq<byte>>, foff: seq<nat>, relo: nat, name: nat, char_: nat,
        ghost p: Parts)
      requires Apart() && AllIdle(parts) && file.bytes == [] && p.Valid()
      requires sectionnr == 0 && offset == seq(MAXSECT, _ => 0) && |foff| <= MAXSECT
      requires forall i :: 0 <= i < |table| ==> |table[i]| == 20
      requires p.lo[0] == 0 && |header| + |Concat(table)| <= p.hi[0]
      modifies this, file, parts, set c | 0 <= c < |parts| :: parts[c].buf
      ensures plan == p && At(Begun(header, table, foff, relo, name, char_))
    {
      ghost var ph := Placed(foff, relo, name, char_);
      SeekAll(foff, relo, name, char_, p);
      Give(0, header, ph);
      GiveRecords(0, table, 20, ph.Write(0, header));
    }
  }

  lemma TookLengths(f: seq<byte>, pos: nat, pend: seq<byte>, b: seq<byte>, w: seq<byte>, f': seq<byte>, pos': nat,
      pend': seq<byte>)
    requires Took(f, pos, pend, b, w, f', pos', pend')
    ensures |pend| + |b| == |w| + |pend'| && pos' == pos + |w| && f' == WriteAt(f, pos, w)
  {
    assert |pend + b| == |w + pend'|;
  }

  lemma NothingWritten(ph: Pens, c: nat)
    requires ph.Valid() && c < NPARTS
    ensures ph.Write(c, []) == ph
  {
  }

  function SeekTo(c: nat, foff: seq<nat>, relo: nat, name: nat, char_: nat): nat {
    if c == 0 then 0
    else if c < SECTCNT then (if c < |foff| then foff[c] else 0)
    else if c == PARTRELO then relo
    else if c == PARTNAME then name
    else char_
  }

  /** Nothing has been written. */
  function Placed(foff: seq<nat>, relo: nat, name: nat, char_: nat): (r: Pens)
    requires |foff| <= MAXSECT
    ensures r.Valid()
  {
    Pens(0, foff + seq(MAXSECT - |foff|, _ => 0), SeekTo(SHARED, foff, relo, name, char_),
         seq(NPARTS, c requires 0 <= c < NPARTS => SeekTo(c, foff, relo, name, char_)), seq(NPARTS, _ => []))
  }

  /** The header and the table have been written. */
  function Begun(header: seq<byte>, table: seq<seq<byte>>, foff: seq<nat>, relo: nat, name: nat, char_: nat): (r: Pens)
    requires |foff| <= MAXSECT
    ensures r.Valid()
  {
    Placed(foff, relo, name, char_).Write(0, header).Write(0, Concat(table))
  }

  // ------------------------------------------------------- runs of the calls

  /** The pens after the calls, one after the other. */
  function Penned(ph: Pens, calls: seq<Call>): (r: Pens)
    requires ph.Valid() && AllSized(calls)
    ensures r.Valid()
  {
    if |calls| == 0 then ph else Penned(ph, calls[..|calls| - 1]).Do(calls[|calls| - 1])
  }

  predicate AllSized(calls: seq<Call>) {
    forall i :: 0 <= i < |calls| ==> Sized(calls[i])
  }

  /** Every call stays within its cursor's part. */
  ghost predicate AllStay(p: Parts, ph: Pens, calls: seq<Call>)
    requires p.Valid() && ph.Valid() && AllSized(calls)
  {
    forall k :: 0 <= k < |calls| ==> StaysAt(p, ph, calls, k)
  }

  ghost predicate StaysAt(p: Parts, ph: Pens, calls: seq<Call>, k: nat)
    requires p.Valid() && ph.Valid() && AllSized(calls) && k < |calls|
  {
    p.Stays(Penned(ph, calls[..k]), calls[k])
  }

  method Perform(w: Writer, c: Call, ghost ph: Pens)
    requires w.At(ph) && Sized(c) && w.plan.Stays(ph, c)
    modifies w, w.file, w.parts, set c | 0 <= c < |w.parts| :: w.parts[c].buf
    ensures w.plan == old(w.plan) && w.At(ph.Do(c))
  {
    match c
    case Sect(s) => w.OutSect(s, ph);
    case Emit(b) => w.Give(PartOf(w.sectionnr), b, ph);
    case Relo(recs) => w.GiveRecords(PARTRELO, recs, 8, ph);
    case Name(recs) => w.GiveRecords(PARTNAME, recs, 12, ph);
    case Text(b) => w.Give(PARTCHAR, b, ph);
  }

  method PerformAll(w: Writer, calls: seq<Call>, ghost ph: Pens)
    requires w.At(ph) && AllSized(calls) && AllStay(w.plan, ph, calls)
    modifies w, w.file, w.parts, set c | 0 <= c < |w.parts| :: w.parts[c].buf
    ensures w.plan == old(w.plan) && w.At(Penned(ph, calls))
  {
    var i := 0;
    while i < |calls|
      invariant 0 <= i <= |calls| && w.plan == old(w.plan) && w.At(Penned(ph, calls[..i]))
    {
      assert StaysAt(w.plan, ph, calls, i);
      Perform(w, calls[i], Penned(ph, calls[..i]));
      assert calls[..i + 1][..i] == calls[..i];
      i := i + 1;
    }
    assert calls[..i] == calls;
  }

  /**
    A whole run, in any order that stays within the parts: every part of the file
    is what its cursor has written, without the buffers, and nothing is beyond.
   */
  method WriteObject(header: seq<byte>, table: seq<seq<byte>>, foff: seq<nat>, relo: nat, name: nat, char_: nat,
      calls: seq<Call>, ghost p: Parts) returns (f: seq<byte>)
    requires p.Valid() && |foff| <= MAXSECT && AllSized(calls)
    requires forall i :: 0 <= i < |table| ==> |table[i]| == 20
    requires p.lo[0] == 0 && |header| + |Concat(table)| <= p.hi[0]
    requires AllStay(p, Begun(header, table, foff, relo, name, char_), calls)
    ensures AllShown(f, Penned(Begun(header, table, foff, relo, name, char_), calls).img, p)
  {
    ghost var ph := Begun(header, table, foff, relo, name, char_);
    var w := new Writer();
    w.Begin(header, table, foff, relo, name, char_, p);
    PerformAll(w, calls, ph);
    w.Close(Penned(ph, calls));
    f := w.file.bytes;
  }
}
