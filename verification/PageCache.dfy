/**
  The input of the older linker (v6/ld.c): two streams of words that share two
  pages, with reference counts (dseek, get, mget and the pick-up code that
  load2td copies from get).
 */
module PageCache {
  const PAGE := 256

  /** How many words a file has from block b on, at most a page. */
  function Avail(file: seq<int>, b: int): (n: nat)
    ensures n <= PAGE
  {
    var left := |file| - PAGE * b;
    if left < 0 then 0 else if left > PAGE then PAGE else left
  }

  lemma AvailLeft(file: seq<int>, b: int, o: nat)
    requires o < PAGE
    ensures Avail(file, b) <= o <==> PAGE * b + o >= |file|
  {
  }

  class Page {
    var nuser: int
    var bno: int
    var nibuf: int
    const buff: array<int>

    constructor ()
      ensures bno == -1 && nuser == 0 && buff.Length == PAGE && fresh(buff)
    {
      buff := new int[PAGE];
      bno, nuser, nibuf := -1, 0, 0;
    }

    /** The page has nothing yet, or the words of its block. */
    ghost predicate Loaded(file: seq<int>)
      reads this`bno, this`nibuf, buff
    {
      && buff.Length == PAGE && bno >= -1
      && (bno >= 0 ==> nibuf == Avail(file, bno) && forall j :: 0 <= j < nibuf ==> Word(file, j))
    }

    ghost predicate Word(file: seq<int>, j: nat)
      requires buff.Length == PAGE && j < PAGE
      reads this`bno, buff
    {
      0 <= PAGE * bno + j < |file| && buff[j] == file[PAGE * bno + j]
    }

    /** Seek to the block and read it, as much as there is. */
    method Load(file: seq<int>, b: nat)
      requires buff.Length == PAGE
      modifies this`bno, this`nibuf, buff
      ensures Loaded(file) && bno == b
    {
      bno := b;
      var n := Avail(file, b);
      var i := 0;
      while i < n
        invariant 0 <= i <= n && bno == b
        invariant forall j :: 0 <= j < i ==> buff[j] == file[PAGE * b + j]
      {
        buff[i] := file[PAGE * b + i];
        i := i + 1;
      }
      nibuf := n;
      forall j | 0 <= j < n ensures Word(file, j) {}
    }

    method Copy(file: seq<int>, from: nat, n: nat) returns (ws: seq<int>)
      requires Loaded(file) && bno >= 0 && 0 < n && from + n <= nibuf
      ensures PAGE * bno + from + n <= |file| && ws == file[PAGE * bno + from .. PAGE * bno + from + n]
    {
      ws := [];
      var p := from;
      ghost var start := PAGE * bno + from;
      assert Word(file, from + n - 1);
      while |ws| < n
        invariant |ws| <= n && p == from + |ws| && start + n <= |file|
        invariant ws == file[start .. start + |ws|]
      {
        assert Word(file, p);
        ws := ws + [buff[p]];
        p := p + 1;
      }
    }
  }

  class Stream {
    var ptr: nat
    var bno: nat
    var nibuf: int
    var size: int
    var pno: Page

    constructor (p: Page)
      ensures pno == p && size == 0
    {
      pno := p;
      ptr, bno, nibuf, size := 0, 0, 0, 0;
    }

    /** The index in the file of the next word. */
    ghost function Pos(): nat
      reads this
    {
      PAGE * bno + ptr
    }
  }

  class Cache {
    const file: seq<int>
    const page0: Page
    const page1: Page
    const fpage: Page
    const text: Stream
    const reloc: Stream

    ghost predicate Shape()
      reads this
    {
      && page0 != page1 && page0 != fpage && page1 != fpage && text != reloc
      && page0.buff != page1.buff
    }

    /** A stream is at its place in a page, or it is exhausted. */
    ghost predicate StreamOk(s: Stream)
      reads this, s, page0`bno, page0`nibuf, page1`bno, page1`nibuf, fpage`bno, fpage`nibuf
    {
      && (s.pno == page0 || s.pno == page1 || s.pno == fpage)
      && (s.pno == fpage ==> s.size <= 0)
      && (s.pno != fpage ==> s.bno == s.pno.bno && s.nibuf == s.pno.nibuf - s.ptr && (s.size > 0 ==> s.nibuf >= 0))
    }

    function Users(p: Page): int
      reads text, reloc
    {
      (if text.pno == p then 1 else 0) + (if reloc.pno == p then 1 else 0)
    }

    ghost predicate Counted()
      reads page0, page1, fpage, text, reloc
    {
      page0.nuser == Users(page0) && page1.nuser == Users(page1) && fpage.nuser == Users(fpage)
    }

    ghost predicate PagesOk()
      reads this, page0`bno, page0`nibuf, page0.buff, page1`bno, page1`nibuf, page1.buff
    {
      Shape() && page0.Loaded(file) && page1.Loaded(file) && (page0.bno == page1.bno ==> page0.bno == -1)
    }

    ghost predicate Valid()
      reads this, page0, page1, fpage, text, reloc, page0.buff, page1.buff
    {
      PagesOk() && StreamOk(text) && StreamOk(reloc) && Counted()
    }

    /** The three counts always sum to two. */
    lemma TwoUsers()
      requires Valid()
      ensures page0.nuser + page1.nuser + fpage.nuser == 2
    {
    }

    /** The source's getfile: nothing is in core yet. */
    constructor (f: seq<int>)
      ensures Valid() && file == f
      ensures fresh(page0) && fresh(page1) && fresh(fpage) && fresh(text) && fresh(reloc) && fresh(page0.buff)
          && fresh(page1.buff)
    {
      file := f;
      page0 := new Page();
      page1 := new Page();
      var fp := new Page();
      fpage := fp;
      text := new Stream(fp);
      reloc := new Stream(fp);
      new;
      fpage.nuser := 2;
    }

    /** The other stream goes on where it was. */
    twostate predicate Undisturbed(s: Stream)
      reads s
    {
      s.pno == old(s.pno) && s.bno == old(s.bno) && s.ptr == old(s.ptr) && s.nibuf == old(s.nibuf)
          && s.size == old(s.size)
    }

    ghost function Other(s: Stream): Stream
    {
      if s == text then reloc else text
    }

    /** The page for block b: one that has it, or one that nobody uses, which is then loaded. */
    method FindPage(b: nat) returns (p: Page)
      requires PagesOk()
      requires page0.nuser == 0 || page1.nuser == 0
      modifies page0`bno, page0`nibuf, page0.buff, page1`bno, page1`nibuf, page1.buff
      ensures PagesOk()
      ensures (p == page0 || p == page1) && p.bno == b
      ensures forall q: Page :: (q == page0 || q == page1) && old(q.nuser) > 0 ==>
          q.bno == old(q.bno) && q.nibuf == old(q.nibuf)
    {
      p := page0;
      if p.bno != b {
        p := page1;
        if p.bno != b {
          if p.nuser != 0 { p := page0; }
          if page0.nuser == 0 && page1.nuser == 0 && page0.bno < page1.bno { p := page0; }
          p.Load(file, b);
        }
      }
    }

    /** The words that a size in bytes stands for. */
    function Words(s: int): nat {
      (s / 2) % 0x8000
    }

    /** The counts when the stream has no page. */
    ghost predicate CountedBut(sp: Stream)
      reads page0, page1, fpage, text, reloc
    {
      && page0.nuser == (if Other(sp).pno == page0 then 1 else 0)
      && page1.nuser == (if Other(sp).pno == page1 then 1 else 0)
      && fpage.nuser == (if Other(sp).pno == fpage then 1 else 0)
    }

    method Release(sp: Stream)
      requires ValidBut(sp)
      modifies page0`nuser, page1`nuser, fpage`nuser
      ensures PagesOk() && CountedBut(sp) && StreamOk(Other(sp))
      ensures page0.nuser == 0 || page1.nuser == 0
    {
      sp.pno.nuser := sp.pno.nuser - 1;
    }

    method Place(sp: Stream, p: Page, o: nat, s: int)
      requires PagesOk() && (sp == text || sp == reloc)
      requires (p == page0 || p == page1) && p.bno >= 0 && o < PAGE
      modifies sp
      ensures StreamOk(sp) && sp.pno == p && sp.Pos() == PAGE * p.bno + o
      ensures sp.size == if sp.Pos() >= |file| then 0 else if s != -1 then Words(s) else old(sp.size)
      ensures sp.size > 0 ==> sp.nibuf > 0
    {
      sp.bno := p.bno;
      sp.pno := p;
      sp.ptr := o;
      if s != -1 { sp.size := Words(s); }
      sp.nibuf := p.nibuf - o;
      AvailLeft(file, p.bno, o);
      if sp.nibuf <= 0 { sp.size := 0; }
    }

    method Attach(sp: Stream, p: Page, o: nat, s: int)
      requires PagesOk() && CountedBut(sp) && StreamOk(Other(sp)) && (sp == text || sp == reloc)
      requires (p == page0 || p == page1) && p.bno >= 0 && o < PAGE
      modifies sp, p`nuser
      ensures Valid() && sp.pno == p && sp.Pos() == PAGE * p.bno + o
      ensures sp.size == if sp.Pos() >= |file| then 0 else if s != -1 then Words(s) else old(sp.size)
      ensures sp.size > 0 ==> sp.nibuf > 0
    {
      Place(sp, p, o, s);
      p.nuser := p.nuser + 1;
    }

    /** Valid, but for the stream's own fields. */
    ghost predicate ValidBut(sp: Stream)
      reads this, page0, page1, fpage, text, reloc, page0.buff, page1.buff, sp
    {
      && PagesOk() && (sp == text || sp == reloc) && StreamOk(Other(sp)) && Counted()
      && (sp.pno == page0 || sp.pno == page1 || sp.pno == fpage)
    }

    /** The source's dseek. */
    method Dseek(sp: Stream, ab: nat, o: nat, s: int)
      requires ValidBut(sp) && o < 0x1_0000
      modifies sp, page0, page1, fpage, page0.buff, page1.buff
      ensures Valid() && sp.Pos() == PAGE * ab + o && sp.pno != fpage
      ensures sp.size == if sp.Pos() >= |file| then 0 else if s != -1 then Words(s) else old(sp.size)
      ensures sp.size > 0 ==> sp.nibuf > 0
      ensures Undisturbed(Other(sp))
    {
      var p := Change(sp, ab + o / PAGE);
      Attach(sp, p, o % PAGE, s);
    }

    /** The stream leaves its page, and gets the one for block b. */
    method Change(sp: Stream, b: nat) returns (p: Page)
      requires ValidBut(sp)
      modifies page0, page1, fpage`nuser, page0.buff, page1.buff
      ensures PagesOk() && CountedBut(sp) && StreamOk(Other(sp))
      ensures (p == page0 || p == page1) && p.bno == b
    {
      Release(sp);
      p := FindPage(b);
    }

    /** Are there n more words for the stream? */
    ghost predicate Has(sp: Stream, n: nat)
      reads this, sp
    {
      sp.size >= n && sp.Pos() + n <= |file|
    }

    /** Give up the page of a stream that is exhausted. */
    method Detach(sp: Stream)
      requires Valid() && (sp == text || sp == reloc) && sp.pno != fpage && sp.size == 0
      modifies sp`pno, page0`nuser, page1`nuser, fpage`nuser
      ensures Valid()
    {
      fpage.nuser := fpage.nuser + 1;
      sp.pno.nuser := sp.pno.nuser - 1;
      sp.pno := fpage;
    }

    method Advance(sp: Stream)
      requires Valid() && (sp == text || sp == reloc) && sp.pno != fpage && sp.size > 0 && sp.nibuf > 0
      modifies sp`nibuf, sp`size, sp`ptr
      ensures Valid() && sp.Pos() == old(sp.Pos()) + 1 && sp.size == old(sp.size) - 1
    {
      sp.nibuf := sp.nibuf - 1;
      sp.size := sp.size - 1;
      sp.ptr := sp.ptr + 1;
    }

    /** The word at the stream's place in its page. */
    method Fetch(sp: Stream) returns (w: int)
      requires Valid() && (sp == text || sp == reloc) && sp.pno != fpage && sp.size > 0 && sp.nibuf > 0
      ensures sp.Pos() < |file| && w == file[sp.Pos()]
    {
      assert sp.pno.Word(file, sp.ptr);
      w := sp.pno.buff[sp.ptr];
    }

    method Take(sp: Stream) returns (w: int)
      requires Valid() && (sp == text || sp == reloc) && sp.pno != fpage && sp.size > 0 && sp.nibuf > 0
      modifies sp, page0`nuser, page1`nuser, fpage`nuser
      ensures Valid() && old(sp.Pos()) < |file| && w == file[old(sp.Pos())]
      ensures sp.Pos() == old(sp.Pos()) + 1 && sp.size == old(sp.size) - 1
    {
      w := Fetch(sp);
      Advance(sp);
      if sp.size == 0 { Detach(sp); }
    }

    /** On to the next page, if the stream is at the end of its own. */
    method Renew(sp: Stream)
      requires Valid() && (sp == text || sp == reloc)
      modifies sp, page0, page1, fpage, page0.buff, page1.buff
      ensures sp.size > 0 <==> old(Has(sp, 1))
      ensures sp.size > 0 ==>
          Valid() && sp.pno != fpage && sp.nibuf > 0 && sp.Pos() == old(sp.Pos()) && sp.size == old(sp.size)
      ensures Undisturbed(Other(sp))
    {
      if sp.pno != fpage { AvailLeft(file, sp.pno.bno, 0); }
      if sp.nibuf - 1 < 0 {
        Dseek(sp, sp.bno + 1, 0, -1);
      } else if sp.size > 0 {
        assert sp.pno.Word(file, sp.ptr);
      }
    }

    /** The source's get; without a word it ends the program. */
    method Get(sp: Stream) returns (ok: bool, w: int)
      requires Valid() && (sp == text || sp == reloc)
      modifies sp, page0, page1, fpage, page0.buff, page1.buff
      ensures ok <==> old(Has(sp, 1))
      ensures ok ==> Valid() && w == file[old(sp.Pos())] && sp.Pos() == old(sp.Pos()) + 1 && sp.size == old(sp.size) - 1
      ensures ok ==> Undisturbed(Other(sp))
    {
      w := 0;
      Renew(sp);
      ok := sp.size - 1 >= 0;
      if ok { w := Take(sp); }
    }

    /** Words of the page in one go, when there are enough in it and more to come. */
    method CopyOut(sp: Stream, n: nat) returns (ws: seq<int>)
      requires Valid() && (sp == text || sp == reloc) && sp.size > n > 0 && sp.nibuf >= n
      modifies sp`nibuf, sp`size, sp`ptr
      ensures Valid() && old(sp.Pos()) + n <= |file| && ws == file[old(sp.Pos()) .. old(sp.Pos()) + n]
      ensures sp.Pos() == old(sp.Pos()) + n && sp.size == old(sp.size) - n
    {
      ws := sp.pno.Copy(file, sp.ptr, n);
      AdvanceBy(sp, n);
    }

    method AdvanceBy(sp: Stream, n: nat)
      requires Valid() && (sp == text || sp == reloc) && sp.pno != fpage && sp.size > n && sp.nibuf >= n
      modifies sp`nibuf, sp`size, sp`ptr
      ensures Valid() && sp.Pos() == old(sp.Pos()) + n && sp.size == old(sp.size) - n
    {
      sp.nibuf := sp.nibuf - n;
      sp.size := sp.size - n;
      sp.ptr := sp.ptr + n;
    }

    /** The source's mget: as many calls of get, whichever way it goes. */
    method Mget(n: nat) returns (ok: bool, ws: seq<int>)
      requires Valid() && n > 0
      modifies text, page0, page1, fpage, page0.buff, page1.buff
      ensures ok <==> old(Has(text, n))
      ensures ok ==> Valid() && ws == file[old(text.Pos()) .. old(text.Pos()) + n]
      ensures ok ==> text.Pos() == old(text.Pos()) + n && text.size == old(text.size) - n
      ensures ok ==> Undisturbed(reloc)
    {
      if text.nibuf - n >= 0 && text.size - n > 0 {
        ok := true;
        ws := CopyOut(text, n);
        return;
      }
      ok, ws := GetMany(n);
    }

    method GetMany(n: nat) returns (ok: bool, ws: seq<int>)
      requires Valid() && n > 0
      modifies text, page0, page1, fpage, page0.buff, page1.buff
      ensures ok <==> old(Has(text, n))
      ensures ok ==> Valid() && ws == file[old(text.Pos()) .. old(text.Pos()) + n]
      ensures ok ==> text.Pos() == old(text.Pos()) + n && text.size == old(text.size) - n
      ensures ok ==> Undisturbed(reloc)
    {
      ok, ws := true, [];
      while |ws| < n
        invariant |ws| <= n && ok && Valid() && Undisturbed(reloc)
        invariant text.Pos() == old(text.Pos()) + |ws| && text.size == old(text.size) - |ws|
        invariant |ws| > 0 ==> old(Has(text, |ws|))
        invariant |ws| > 0 ==> ws == file[old(text.Pos()) .. old(text.Pos()) + |ws|]
      {
        var w;
        ok, w := Get(text);
        if !ok { return; }
        ws := ws + [w];
      }
    }

    /** load2td's copy of get: `more` is false if the stream is exhausted. */
    method PickUp(sp: Stream) returns (more: bool, ok: bool, w: int)
      requires Valid() && (sp == text || sp == reloc)
      modifies sp, page0, page1, fpage, page0.buff, page1.buff
      ensures more <==> old(sp.size) > 0
      ensures !more ==> Valid()
      ensures more ==> (ok <==> old(Has(sp, 1)))
      ensures more && ok ==>
          Valid() && w == file[old(sp.Pos())] && sp.Pos() == old(sp.Pos()) + 1 && sp.size == old(sp.size) - 1
      ensures more && ok ==> Undisturbed(Other(sp))
    {
      more, ok, w := true, true, 0;
      if sp.size - 1 <= 0 {
        if sp.size - 1 < 0 {
          more := false;
          return;
        }
        ok, w := Get(sp);
      } else if sp.nibuf - 1 < 0 {
        ok, w := Get(sp);
      } else {
        w := Fetch(sp);
        Advance(sp);
      }
    }
  }
}
