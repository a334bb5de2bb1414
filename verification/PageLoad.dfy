/**
  Copying the text and data of a module while its relocation words are read from
  the other stream (load2td in v6/ld.c).
 */
module PageLoad {
  import opened Bytes
  import opened PageCache

  const RTEXT := 2
  const RDATA := 4
  const RBSS := 6
  const REXT := 8
  const EXTERN := 32
  const UNDEF := 0
  const ABS := 1

  datatype Symbol = Symbol(stype: int, svalue: int)

  /** A word of the module's symbol numbering and the symbol that it stands for. */
  datatype Local = Local(num: int, sym: nat)

  datatype Pair = Pair(t: int, r: int)

  function Word(v: int): int {
    v % 0x1_0000
  }

  /** What load2td knows: the origins, the symbols and the module's own numbering. */
  datatype Context = Context(creloc: int, ctrel: int, cdrel: int, cbrel: int, nsym: int, locals: seq<Local>,
      symtab: seq<Symbol>) {
    /** The source's lookloc. */
    function LookLoc(r: int, i: nat): Option<nat>
      requires i <= |locals|
      decreases |locals| - i
    {
      if i == |locals| then None
      else if locals[i].num == (r / 16) % 0x1000 then Some(locals[i].sym)
      else LookLoc(r, i + 1)
    }

    /** One word and its relocation word, for the output. */
    function Fix(t: int, r: int): Option<Pair> {
      var kind := r % 16 - r % 2;
      var pc := if r % 2 == 1 then creloc else 0;
      if kind == RTEXT then Some(Pair(Word(t + ctrel - pc), r))
      else if kind == RDATA then Some(Pair(Word(t + cdrel - pc), r))
      else if kind == RBSS then Some(Pair(Word(t + cbrel - pc), r))
      else if kind == REXT then
        match LookLoc(r, 0)
        case None => None
        case Some(s) =>
          if s >= |symtab| then None
          else if symtab[s].stype == EXTERN + UNDEF then Some(Pair(Word(t - pc), Word(r % 2 + (nsym + s) * 16 + REXT)))
          else Some(Pair(Word(t + symtab[s].svalue - pc), Word(r % 2 + (symtab[s].stype - (EXTERN + ABS)) * 2)))
      else Some(Pair(Word(t - pc), r))
    }
  }

  /** A word has moved by d, in sixteen bits. */
  predicate Moved(t: int, t': int, d: int) {
    0 <= t' < 0x1_0000 && (t' - t - d) % 0x1_0000 == 0
  }

  /** The symbol that the module's own number stands for. */
  ghost predicate StandsFor(c: Context, num: int, s: nat) {
    exists i :: 0 <= i < |c.locals| && FirstLocal(c, num, s, i)
  }

  ghost predicate FirstLocal(c: Context, num: int, s: nat, i: nat)
    requires i < |c.locals|
  {
    c.locals[i] == Local(num, s) && forall j :: 0 <= j < i ==> c.locals[j].num != num
  }

  /**
    What becomes of a word and its relocation word: it moves as what it refers to
    has moved, less what its own place has moved if it is relative to that. A
    reference to a defined symbol becomes one to the symbol's section; one to an
    undefined symbol names the symbol's place in the output's symbol table.
   */
  ghost predicate Right(c: Context, t: int, r: int, q: Pair) {
    var pc := if r % 2 == 1 then c.creloc else 0;
    var kind := (r / 2) % 8;
    if kind == 1 then Moved(t, q.t, c.ctrel - pc) && q.r == r
    else if kind == 2 then Moved(t, q.t, c.cdrel - pc) && q.r == r
    else if kind == 3 then Moved(t, q.t, c.cbrel - pc) && q.r == r
    else if kind == 4 then exists s :: StandsFor(c, (r / 16) % 0x1000, s) && RightSymbol(c, t, r, q, pc, s)
    else Moved(t, q.t, -pc) && q.r == r
  }

  predicate RightSymbol(c: Context, t: int, r: int, q: Pair, pc: int, s: nat) {
    && s < |c.symtab| && q.r % 2 == r % 2
    && var stype := c.symtab[s].stype;
      if stype == EXTERN + UNDEF
      then Moved(t, q.t, -pc) && (q.r / 2) % 8 == 4 && q.r / 16 == (c.nsym + s) % 0x1000
      else
        && Moved(t, q.t, c.symtab[s].svalue - pc)
        && (EXTERN + ABS <= stype <= EXTERN + 4 ==> q.r / 2 == stype - (EXTERN + ABS))
  }

  lemma WordMoved(t: int, d: int)
    ensures Moved(t, Word(t + d), d)
  {
    var v := t + d;
    assert Word(v) - v == -((v / 0x1_0000) * 0x1_0000);
  }

  lemma {:induction false} LookedUp(c: Context, r: int, i: nat)
    requires i <= |c.locals| && forall j :: 0 <= j < i ==> c.locals[j].num != (r / 16) % 0x1000
    ensures c.LookLoc(r, i).Some? ==> StandsFor(c, (r / 16) % 0x1000, c.LookLoc(r, i).value)
    decreases |c.locals| - i
  {
    if i < |c.locals| {
      if c.locals[i].num == (r / 16) % 0x1000 {
        assert FirstLocal(c, (r / 16) % 0x1000, c.locals[i].sym, i);
      } else {
        LookedUp(c, r, i + 1);
      }
    }
  }

  lemma KindIs(r: int)
    ensures r % 16 - r % 2 == 2 * ((r / 2) % 8)
  {
  }

  lemma SlotBits(r: int, n: int, w: int)
    requires 0 <= r < 2 && w == 16 * n + REXT + r
    ensures w % 2 == r && (w / 2) % 8 == 4 && w / 16 == n
  {
  }

  lemma LowWord(n: int, low: int)
    requires 0 <= low < 16
    ensures Word(16 * n + low) == 16 * (n % 0x1000) + low
  {
    var q := n / 0x1000;
    assert 16 * n + low == q * 0x1_0000 + (16 * (n % 0x1000) + low);
  }

  lemma SlotWord(r: int, n: int)
    requires 0 <= r < 2
    ensures var w := Word(r + n * 16 + REXT); w % 2 == r && (w / 2) % 8 == 4 && w / 16 == n % 0x1000
  {
    LowWord(n, REXT + r);
    SlotBits(r, n % 0x1000, Word(r + n * 16 + REXT));
  }

  lemma SectionWord(r: int, kind: int)
    requires 0 <= r < 2
    ensures var w := Word(r + kind * 2); w % 2 == r && (0 <= kind < 4 ==> w / 2 == kind)
  {
  }

  lemma {:induction false} FixIsRight(c: Context, t: int, r: int)
    requires c.Fix(t, r).Some?
    ensures Right(c, t, r, c.Fix(t, r).value)
  {
    var q := c.Fix(t, r).value;
    var pc := if r % 2 == 1 then c.creloc else 0;
    KindIs(r);
    WordMoved(t, c.ctrel - pc);
    WordMoved(t, c.cdrel - pc);
    WordMoved(t, c.cbrel - pc);
    WordMoved(t, -pc);
    if (r / 2) % 8 == 4 {
      var s := c.LookLoc(r, 0).value;
      LookedUp(c, r, 0);
      WordMoved(t, c.symtab[s].svalue - pc);
      SlotWord(r % 2, c.nsym + s);
      SectionWord(r % 2, c.symtab[s].stype - (EXTERN + ABS));
      assert RightSymbol(c, t, r, q, pc, s);
    }
  }

  /** Can all n words from tp on be fixed by those from rp on? */
  ghost predicate Fixable(c: Context, file: seq<int>, tp: nat, rp: nat, n: nat) {
    forall k :: 0 <= k < n ==> FixableAt(c, file, tp, rp, k)
  }

  ghost predicate FixableAt(c: Context, file: seq<int>, tp: nat, rp: nat, k: nat) {
    tp + k < |file| && rp + k < |file| && c.Fix(file[tp + k], file[rp + k]).Some?
  }

  ghost predicate Fixed(c: Context, file: seq<int>, tp: nat, rp: nat, out: seq<Pair>) {
    forall k :: 0 <= k < |out| ==> FixableAt(c, file, tp, rp, k) && c.Fix(file[tp + k], file[rp + k]) == Some(out[k])
  }

  /** One round of the loop: a word of text and its relocation word. */
  method Round(m: Cache, c: Context) returns (more: bool, ok: bool, p: Pair)
    requires m.Valid()
    modifies m.text, m.reloc, m.page0, m.page1, m.fpage, m.page0.buff, m.page1.buff
    ensures more <==> old(m.text.size) > 0
    ensures !more ==> m.Valid()
    ensures more ==>
        (ok <==>
        old(m.Has(m.text, 1)) && old(m.Has(m.reloc, 1))
        && FixableAt(c, m.file, old(m.text.Pos()), old(m.reloc.Pos()), 0))
    ensures more && ok ==> m.Valid() && Fixed(c, m.file, old(m.text.Pos()), old(m.reloc.Pos()), [p])
    ensures more && ok ==> m.text.Pos() == old(m.text.Pos()) + 1 && m.text.size == old(m.text.size) - 1
    ensures more && ok ==> m.reloc.Pos() == old(m.reloc.Pos()) + 1 && m.reloc.size == old(m.reloc.size) - 1
  {
    p := Pair(0, 0);
    var t, r;
    more, ok, t := m.PickUp(m.text);
    if !more || !ok { return; }
    var left;
    left, ok, r := m.PickUp(m.reloc);
    if !left || !ok {
      ok := false;
      return;
    }
    var fixed := c.Fix(t, r);
    match fixed
    case None => ok := false;
    case Some(q) => p := q;
  }

  /**
    The whole of load2td: word k comes from word k of either stream, however the
    streams share the pages; it ends the program exactly if a word or a symbol is
    missing.
   */
  method Load2td(m: Cache, c: Context) returns (ok: bool, out: seq<Pair>)
    requires m.Valid() && m.text.size >= 0
    modifies m.text, m.reloc, m.page0, m.page1, m.fpage, m.page0.buff, m.page1.buff
    ensures ok <==>
        old(m.text.size) == 0 || (old(m.reloc.size) >= old(m.text.size)
        && Fixable(c, m.file, old(m.text.Pos()), old(m.reloc.Pos()), old(m.text.size)))
    ensures ok ==> |out| == old(m.text.size) && Fixed(c, m.file, old(m.text.Pos()), old(m.reloc.Pos()), out)
    ensures ok ==> AllRight(c, m.file, old(m.text.Pos()), old(m.reloc.Pos()), out)
    ensures ok ==> m.Valid()
  {
    ok, out := true, [];
    ghost var tp, rp, n := m.text.Pos(), m.reloc.Pos(), m.text.size;
    while true
      invariant ok && |out| <= n && m.Valid()
      invariant m.text.Pos() == tp + |out| && m.text.size == n - |out|
      invariant m.reloc.Pos() == rp + |out| && m.reloc.size == old(m.reloc.size) - |out|
      invariant |out| > 0 ==> |out| <= old(m.reloc.size)
      invariant Fixed(c, m.file, tp, rp, out)
      decreases n - |out|
    {
      ghost var k := |out|;
      var more, p;
      more, ok, p := Round(m, c);
      if !more {
        ok := true;
        FixedRight(c, m.file, tp, rp, out);
        return;
      }
      if !ok {
        assert old(m.reloc.size) >= n ==> !FixableAt(c, m.file, tp, rp, k);
        return;
      }
      FixedNext(c, m.file, tp, rp, out, p);
      out := out + [p];
    }
  }

  /** Every word and its relocation word have become what they should. */
  ghost predicate AllRight(c: Context, file: seq<int>, tp: nat, rp: nat, out: seq<Pair>) {
    forall k :: 0 <= k < |out| ==> RightAt(c, file, tp, rp, out, k)
  }

  ghost predicate RightAt(c: Context, file: seq<int>, tp: nat, rp: nat, out: seq<Pair>, k: nat)
    requires k < |out|
  {
    tp + k < |file| && rp + k < |file| && Right(c, file[tp + k], file[rp + k], out[k])
  }

  lemma {:induction false} FixedRight(c: Context, file: seq<int>, tp: nat, rp: nat, out: seq<Pair>)
    requires Fixed(c, file, tp, rp, out)
    ensures AllRight(c, file, tp, rp, out)
  {
    forall k | 0 <= k < |out| ensures RightAt(c, file, tp, rp, out, k) {
      assert FixableAt(c, file, tp, rp, k);
      FixIsRight(c, file[tp + k], file[rp + k]);
    }
  }

  lemma FixedNext(c: Context, file: seq<int>, tp: nat, rp: nat, out: seq<Pair>, p: Pair)
    requires Fixed(c, file, tp, rp, out) && Fixed(c, file, tp + |out|, rp + |out|, [p])
    ensures Fixed(c, file, tp, rp, out + [p])
  {
    var all := out + [p];
    forall k | 0 <= k < |all| ensures FixableAt(c, file, tp, rp, k)
        && c.Fix(file[tp + k], file[rp + k]) == Some(all[k]) {
      if k == |out| { assert FixableAt(c, file, tp + |out|, rp + |out|, 0) && [p][0] == p; }
    }
  }
}
