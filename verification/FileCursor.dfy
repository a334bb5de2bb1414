/**
  One buffered cursor on the output file (struct fil, __wr_flush, OUTWRITE and
  BEGINSEEK in Ack-5.5/lib/wr.c), with a file descriptor of its own.
 */
module FileCursor {
  import opened Bytes

  const WBUFSIZ := 1024

  /** The file after the bytes b have been written at pos. */
  function WriteAt(f: seq<byte>, pos: nat, b: seq<byte>): (r: seq<byte>)
    ensures |r| == if |b| > 0 && pos + |b| > |f| then pos + |b| else |f|
  {
    if |b| == 0 then f
    else
      seq(if pos + |b| > |f| then pos + |b| else |f|, i requires 0 <= i =>
        if pos <= i < pos + |b| then b[i - pos] else if i < |f| then f[i] else 0)
  }

  lemma WriteAtAppend(f: seq<byte>, pos: nat, a: seq<byte>, b: seq<byte>)
    ensures WriteAt(WriteAt(f, pos, a), pos + |a|, b) == WriteAt(f, pos, a + b)
  {
    var one, two := WriteAt(f, pos, a + b), WriteAt(WriteAt(f, pos, a), pos + |a|, b);
    if |a| == 0 {
      assert a + b == b;
    } else if |b| == 0 {
      assert a + b == a;
    } else {
      assert |one| == |two|;
      forall i | 0 <= i < |one| ensures one[i] == two[i] {
        if pos <= i < pos + |a| + |b| { assert one[i] == (a + b)[i - pos]; }
      }
    }
  }

  class File {
    var bytes: seq<byte>

    constructor ()
      ensures bytes == []
    {
      bytes := [];
    }

    method Write(pos: nat, b: seq<byte>)
      modifies this
      ensures bytes == WriteAt(old(bytes), pos, b)
    {
      bytes := WriteAt(bytes, pos, b);
    }
  }

  /** The multiple of the buffer size at or below n. */
  function Floor(n: nat): (m: nat)
    ensures m <= n < m + WBUFSIZ
  {
    n - n % WBUFSIZ
  }

  /** Where the first pending byte of an aligned cursor is, when bytes up to next have been given. */
  function StartAfter(start: nat, next: nat): nat {
    if next < Floor(start) + WBUFSIZ then start else Floor(next)
  }

  /** At the start of a buffer: still where it was, or at the end of the first one. */
  predicate OnGrid(start: nat, mid: nat) {
    mid % WBUFSIZ == 0 && (mid == start || mid == Floor(start) + WBUFSIZ)
  }

  lemma FromGrid(start: nat, mid: nat, next: nat)
    requires OnGrid(start, mid) && mid <= next
    ensures StartAfter(start, next) == Floor(next)
  {
  }

  class Cursor {
    var cnt: nat
    var pbegin: nat
    var pnow: nat
    var currpos: nat
    const buf: array<byte>

    ghost predicate Valid()
      reads this, buf
    {
      buf.Length == WBUFSIZ && pbegin <= pnow && cnt <= WBUFSIZ && pnow + cnt == WBUFSIZ
    }

    /** Do the buffers end at multiples of their size? */
    ghost predicate Aligned()
      reads this
    {
      pbegin == currpos % WBUFSIZ && pnow < WBUFSIZ
    }

    /** Where the next byte will go. */
    ghost function Next(): nat
      reads this, buf
      requires Valid()
    {
      currpos + |Pending()|
    }

    /** What has been given to the cursor and has not been written. */
    ghost function Pending(): seq<byte>
      reads this, buf
      requires Valid()
    {
      buf[pbegin .. pnow]
    }

    constructor ()
      ensures Valid() && Pending() == [] && currpos == 0 && fresh(buf)
    {
      buf := new byte[WBUFSIZ];
      cnt, pbegin, pnow, currpos := WBUFSIZ, 0, 0, 0;
    }

    /** The source's BEGINSEEK; the first buffer ends at a multiple of its size, if aligned. */
    method BeginSeek(o: nat, aligned: bool)
      requires Valid()
      modifies this
      ensures Valid() && Pending() == [] && currpos == o && (aligned ==> Aligned())
    {
      currpos := o;
      cnt := WBUFSIZ - if aligned then o % WBUFSIZ else 0;
      pbegin := WBUFSIZ - cnt;
      pnow := pbegin;
    }

    /** The source's __wr_flush. */
    method Flush(file: File)
      requires Valid()
      modifies this, file
      ensures Valid() && Pending() == [] && cnt == WBUFSIZ && pbegin == 0
      ensures currpos == old(currpos) + |old(Pending())|
      ensures file.bytes == WriteAt(old(file.bytes), old(currpos), old(Pending()))
    {
      if pnow > pbegin {
        file.Write(currpos, buf[pbegin .. pnow]);
        currpos := currpos + (pnow - pbegin);
      }
      cnt, pbegin, pnow := WBUFSIZ, 0, 0;
    }

    /** Copy b into the buffer. */
    method Fill(b: seq<byte>)
      requires Valid() && |b| <= cnt
      modifies this`cnt, this`pnow, buf
      ensures Valid() && Pending() == old(Pending()) + b && cnt == old(cnt) - |b|
    {
      var i := 0;
      while i < |b|
        invariant 0 <= i <= |b| && Valid() && cnt == old(cnt) && pnow == old(pnow)
        invariant forall j :: pbegin <= j < pnow ==> buf[j] == old(buf[j])
        invariant forall j :: 0 <= j < i ==> buf[pnow + j] == b[j]
      {
        buf[pnow + i] := b[i];
        i := i + 1;
      }
      ghost var was := old(Pending());
      pnow := pnow + |b|;
      cnt := cnt - |b|;
      ghost var now := Pending();
      forall j | 0 <= j < |now| ensures now[j] == (was + b)[j] {
        if j >= |was| { assert buf[old(pnow) + (j - |was|)] == b[j - |was|]; }
      }
    }

    /** Write b past the buffer, when nothing is pending. */
    method Direct(file: File, b: seq<byte>)
      requires Valid() && Pending() == []
      modifies this`currpos, file
      ensures Valid() && Pending() == [] && currpos == old(currpos) + |b|
      ensures file.bytes == WriteAt(old(file.bytes), old(currpos), b)
    {
      file.Write(currpos, b);
      currpos := currpos + |b|;
    }

    /** Write out what is pending and then b. */
    method WriteThrough(file: File, b: seq<byte>) returns (ghost w: seq<byte>)
      requires Valid()
      modifies this, file
      ensures Valid() && Pending() == [] && cnt == WBUFSIZ && pbegin == 0
      ensures Took(old(file.bytes), old(currpos), old(Pending()), b, w, file.bytes, currpos, Pending())
      ensures currpos == old(Next()) + |b|
    {
      ghost var f, pos, pend := file.bytes, currpos, Pending();
      Flush(file);
      if b != [] { Direct(file, b); }
      WriteAtAppend(f, pos, pend, b);
      w := pend + b;
      assert w + [] == w;
    }

    method FillIn(b: seq<byte>, ghost f: seq<byte>)
      requires Valid() && |b| <= cnt
      modifies this`cnt, this`pnow, buf
      ensures Valid() && cnt == old(cnt) - |b|
      ensures Took(f, currpos, old(Pending()), b, [], f, currpos, Pending())
    {
      Fill(b);
      assert [] + Pending() == Pending();
    }

    /** When the buffer has been started: fill it up, or write through to its end and leave the rest. */
    method Start(file: File, b: seq<byte>) returns (done: seq<byte>, rest: seq<byte>, ghost w: seq<byte>)
      requires Valid()
      modifies this, buf, file
      ensures Valid() && done + rest == b && Next() == old(Next()) + |done|
      ensures Took(old(file.bytes), old(currpos), old(Pending()), done, w, file.bytes, currpos, Pending())
      ensures rest != [] ==> cnt == WBUFSIZ
      ensures old(Aligned()) && (cnt == 0 || cnt == WBUFSIZ) ==> OnGrid(old(currpos), Next())
      ensures old(Aligned()) && 0 < cnt < WBUFSIZ ==> Aligned() && currpos == StartAfter(old(currpos), Next())
    {
      if cnt == WBUFSIZ {
        done, rest, w := [], b, [];
        TookNothing(file.bytes, currpos, Pending());
      } else if |b| > cnt {
        done, rest := b[..cnt], b[cnt..];
        w := WriteThrough(file, done);
      } else {
        done, rest, w := b, [], [];
        FillIn(b, file.bytes);
      }
    }

    /** With an empty buffer, or one that has just been filled: whole buffers go out at once. */
    method Rest(file: File, b: seq<byte>) returns (ghost w: seq<byte>)
      requires Valid()
      modifies this, buf, file
      ensures Valid() && Next() == old(Next()) + |b|
      ensures Took(old(file.bytes), old(currpos), old(Pending()), b, w, file.bytes, currpos, Pending())
      ensures old(Next()) % WBUFSIZ == 0 ==> Aligned() && currpos == Floor(Next())
    {
      ghost var f, pos, pend := file.bytes, currpos, Pending();
      var m := Floor(|b|);
      w := WriteThrough(file, b[..m]);
      ghost var f', pos', pend' := file.bytes, currpos, Pending();
      FillIn(b[m..], file.bytes);
      TookThen(f, pos, pend, b[..m], w, f', pos', pend', b[m..], [], file.bytes, currpos, Pending());
      assert w + [] == w && b[..m] + b[m..] == b;
    }

    /** The source's OUTWRITE. */
    method OutWrite(file: File, b: seq<byte>) returns (ghost w: seq<byte>)
      requires Valid()
      modifies this, buf, file
      ensures Valid() && Next() == old(Next()) + |b|
      ensures Took(old(file.bytes), old(currpos), old(Pending()), b, w, file.bytes, currpos, Pending())
      ensures old(Aligned()) ==> Aligned() && currpos == StartAfter(old(currpos), Next())
    {
      ghost var f, pos, pend := file.bytes, currpos, Pending();
      var done, rest;
      done, rest, w := Start(file, b);
      if cnt == 0 || cnt == WBUFSIZ {
        ghost var f', pos', pend' := file.bytes, currpos, Pending();
        ghost var w';
        w' := Rest(file, rest);
        TookThen(f, pos, pend, done, w, f', pos', pend', rest, w', file.bytes, currpos, Pending());
        if old(Aligned()) { FromGrid(pos, pos' + |pend'|, Next()); }
        w := w + w';
      } else {
        assert done + [] == done;
      }
    }

    method FlushOut(file: File) returns (ghost w: seq<byte>)
      requires Valid()
      modifies this, file
      ensures Valid() && cnt == WBUFSIZ && Pending() == [] && currpos == old(Next())
      ensures Took(old(file.bytes), old(currpos), old(Pending()), [], w, file.bytes, currpos, Pending())
    {
      w := Pending();
      Flush(file);
      assert w + [] == w;
    }

    /** The first k records have been taken since the state f, pos and pend. */
    ghost predicate Taken(file: File, f: seq<byte>, pos: nat, pend: seq<byte>, recs: seq<seq<byte>>, k: nat,
        w: seq<byte>)
      requires k <= |recs|
      reads this, buf, file
    {
      Valid() && Took(f, pos, pend, Concat(recs[..k]), w, file.bytes, currpos, Pending())
    }

    method PutRecord(file: File, recs: seq<seq<byte>>, k: nat, ghost f: seq<byte>, ghost pos: nat,
        ghost pend: seq<byte>, ghost w: seq<byte>)
      requires k < |recs| && Taken(file, f, pos, pend, recs, k, w) && |recs[k]| <= cnt
      modifies this`cnt, this`pnow, buf
      ensures Taken(file, f, pos, pend, recs, k + 1, w) && cnt == old(cnt) - |recs[k]|
    {
      ghost var pos', pend' := currpos, Pending();
      FillIn(recs[k], file.bytes);
      TookThen(f, pos, pend, Concat(recs[..k]), w, file.bytes, pos', pend', recs[k], [], file.bytes, currpos,
          Pending());
      assert w + [] == w;
      ConcatNext(recs, k);
    }

    /** As many records as fit. */
    method PutSome(file: File, recs: seq<seq<byte>>, size: nat, k: nat, ghost f: seq<byte>, ghost pos: nat,
        ghost pend: seq<byte>, ghost w: seq<byte>)
      returns (k': nat)
      requires k <= |recs| && Taken(file, f, pos, pend, recs, k, w)
      requires 0 < size && forall i :: 0 <= i < |recs| ==> |recs[i]| == size
      modifies this`cnt, this`pnow, buf
      ensures k <= k' <= |recs| && Taken(file, f, pos, pend, recs, k', w)
      ensures k < |recs| && old(cnt) >= size ==> k < k'
    {
      var i := Fitting(cnt, size);
      if i > |recs| - k { i := |recs| - k; }
      k' := k;
      ghost var n := i;
      while i > 0
        invariant 0 <= i <= Fitting(cnt, size) && k' == k + n - i && k + n <= |recs|
        invariant Taken(file, f, pos, pend, recs, k', w)
      {
        PutRecord(file, recs, k', f, pos, pend, w);
        k' := k' + 1;
        i := i - 1;
      }
    }

    /** wr_sect, wr_relo and wr_name: records that are encoded in the buffer, as many as fit between flushes. */
    method PutRecords(file: File, recs: seq<seq<byte>>, size: nat) returns (ghost w: seq<byte>)
      requires Valid() && 0 < size <= WBUFSIZ && forall i :: 0 <= i < |recs| ==> |recs[i]| == size
      modifies this, buf, file
      ensures Valid()
      ensures Took(old(file.bytes), old(currpos), old(Pending()), Concat(recs), w, file.bytes, currpos, Pending())
    {
      ghost var f, pos, pend := file.bytes, currpos, Pending();
      TookNothing(f, pos, pend);
      w := [];
      var k := 0;
      while k < |recs|
        invariant 0 <= k <= |recs| && Taken(file, f, pos, pend, recs, k, w)
        decreases |recs| - k, if cnt < size then 1 else 0
      {
        k := PutSome(file, recs, size, k, f, pos, pend, w);
        if k < |recs| {
          ghost var f', pos', pend' := file.bytes, currpos, Pending();
          ghost var w' := FlushOut(file);
          TookThen(f, pos, pend, Concat(recs[..k]), w, f', pos', pend', [], w', file.bytes, currpos, Pending());
          assert Concat(recs[..k]) + [] == Concat(recs[..k]);
          w := w + w';
        }
      }
      assert recs[..k] == recs;
    }
  }

  /** How many records of `size` bytes fit in cnt bytes. */
  function Fitting(cnt: nat, size: nat): (i: nat)
    requires size > 0
    ensures i > 0 <==> cnt >= size
    decreases cnt
  {
    if cnt < size then 0 else 1 + Fitting(cnt - size, size)
  }

  function Concat(recs: seq<seq<byte>>): seq<byte> {
    if |recs| == 0 then [] else Concat(recs[..|recs| - 1]) + recs[|recs| - 1]
  }

  lemma ConcatNext(recs: seq<seq<byte>>, k: nat)
    requires k < |recs|
    ensures Concat(recs[..k + 1]) == Concat(recs[..k]) + recs[k]
  {
    assert recs[..k + 1][..k] == recs[..k];
  }

  /**
    Of the pending bytes `pend` and the new bytes b, the first ones, w, have been
    written at pos and the others are pending.
   */
  ghost predicate Took(f: seq<byte>, pos: nat, pend: seq<byte>, b: seq<byte>, w: seq<byte>, f': seq<byte>, pos': nat,
      pend': seq<byte>) {
    && pend + b == w + pend'
    && f' == WriteAt(f, pos, w)
    && pos' == pos + |w|
  }

  lemma TookNothing(f: seq<byte>, pos: nat, pend: seq<byte>)
    ensures Took(f, pos, pend, [], [], f, pos, pend)
  {
    assert pend + [] == pend && [] + pend == pend;
  }

  /** First b, then c. */
  lemma TookThen(f: seq<byte>, pos: nat, pend: seq<byte>, b: seq<byte>, w: seq<byte>, f': seq<byte>, pos': nat,
      pend': seq<byte>, c: seq<byte>, w': seq<byte>, f'': seq<byte>, pos'': nat, pend'': seq<byte>)
    requires Took(f, pos, pend, b, w, f', pos', pend') && Took(f', pos', pend', c, w', f'', pos'', pend'')
    ensures Took(f, pos, pend, b + c, w + w', f'', pos'', pend'')
  {
    WriteAtAppend(f, pos, w, w');
    Associate(pend, b, c);
    Associate(w, pend', c);
    Associate(w, w', pend'');
  }
}
