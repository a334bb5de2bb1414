/**
  Where the older linker puts things (middle in v6/ld.c): the origins of the
  sections by the options, the common symbols between the data and the bss of the
  modules, and the names of the three ends.
 */
module OldOrigins {
  import opened OldSymbols
  import opened OldLink
  import opened OldMiddle

  /** A size or an address, in sixteen bits. */
  predicate IsWord(n: int) {
    0 <= n < 0x1_0000
  }

  /** The least multiple of w from n on, in sixteen bits. */
  predicate RoundedUp(v: int, w: int, n: int)
    requires w > 0
  {
    IsWord(v) && v % w == 0 && (v - n) % 0x1_0000 < w
  }

  lemma EvenIs(n: int)
    ensures RoundedUp(Even(n), 2, n) && Even(n) == Word(n + n % 2)
  {
  }

  /** Text is at 0; data is after it, or on a new page with -n, or at 0 with -i. */
  predicate OriginsSay(o: Sizes, total: Sizes, f: Flags) {
    && o.t == 0
    && (f.i ==> o.d == 0)
    && (!f.i && f.n ==> RoundedUp(o.d, 8192, total.t))
    && (!f.i && !f.n ==> o.d == total.t)
  }

  lemma Page(t: int)
    requires IsWord(t)
    ensures var up := Word(t + 63) - Word(t + 63) % 64; RoundedUp(Word(up + 8191) - Word(up + 8191) % 8192, 8192, t)
  {
  }

  lemma {:induction false} OriginsRight(tab: seq<Symbol>, total: Sizes, f: Flags)
    requires IsWord(total.t)
    ensures OriginsSay(OriginsFor(tab, total, f), total, f)
  {
    Page(total.t);
  }

  // ----------------------------------------------------------------- the commons

  predicate GetsRoom(tab: seq<Symbol>, f: Flags, k: int) {
    0 <= k < |tab| && Assigns(f) && IsCommon(tab[k])
  }

  /** No common symbols from i up to but without j. */
  predicate NoneFrom(tab: seq<Symbol>, f: Flags, i: int, j: int) {
    forall k :: i <= k < j ==> !GetsRoom(tab, f, k)
  }

  /** The second of two places begins where the first ends, when its size is made even. */
  predicate Abuts(v: int, size: int, v': int) {
    RoundedUp(Word(v' - v), 2, size)
  }

  /**
    The common symbols become bss. The first is where the data ends, every other one
    where the one before it ends; and the bss of the modules is where the last ends.
   */
  ghost predicate CommonsSay(tab: seq<Symbol>, f: Flags, now: seq<Symbol>, end: int, bss: int)
    requires |now| == |tab|
  {
    && (forall k :: GetsRoom(tab, f, k) ==> now[k].stype == EXTERN + BSS)
    && (forall k :: GetsRoom(tab, f, k) && NoneFrom(tab, f, 0, k) ==> now[k].svalue == Word(end))
    && (forall i, j :: GetsRoom(tab, f, i) && GetsRoom(tab, f, j) && i < j && NoneFrom(tab, f, i + 1, j) ==>
        Abuts(now[i].svalue, tab[i].svalue, now[j].svalue))
    && (forall k :: GetsRoom(tab, f, k) && NoneFrom(tab, f, k + 1, |tab|) ==>
        Abuts(now[k].svalue, tab[k].svalue, bss))
    && (NoneFrom(tab, f, 0, |tab|) ==> bss == Word(end))
  }

  /** The table after middle. */
  ghost predicate Laid(tab: seq<Symbol>, total: Sizes, f: Flags, now: seq<Symbol>) {
    |now| == |tab| && forall k :: 0 <= k < |tab| ==> now[k] == Middle(tab, total, f, k)
  }

  /** Every common symbol lies as far from the end of the data as those before it take. */
  ghost predicate InOrder(tab: seq<Symbol>, f: Flags, now: seq<Symbol>, end: int, bss: int) {
    && |now| == |tab|
    && (forall k :: GetsRoom(tab, f, k) ==>
        now[k].stype == EXTERN + BSS && now[k].svalue == Word(end + CommonBytes(tab, k)))
    && bss == Word(end + if Assigns(f) then CommonBytes(tab, |tab|) else 0)
  }

  lemma WordAdd(a: int, b: int)
    ensures Word(Word(a) + b) == Word(a + b)
  {
  }

  lemma WordsAdd(a: int, b: int)
    ensures Word(Word(a) + Word(b)) == Word(a + b) && Word(Word(a) + b) == Word(a + b) == Word(a + Word(b))
  {
    WordAdd(a, b);
    WordAdd(b, a);
    WordAdd(b, Word(a));
  }

  lemma {:induction false} CommonValue(tab: seq<Symbol>, total: Sizes, f: Flags, k: nat)
    requires GetsRoom(tab, f, k)
    ensures Middle(tab, total, f, k).stype == EXTERN + BSS
    ensures Middle(tab, total, f, k).svalue == Word(OriginsFor(tab, total, f).d + total.d + CommonBytes(tab, k))
  {
    var end := OriginsFor(tab, total, f).d + total.d;
    WordsAdd(CommonBytes(tab, k), end);
  }

  lemma {:induction false} LaidInOrder(tab: seq<Symbol>, total: Sizes, f: Flags, now: seq<Symbol>, o: Sizes)
    requires Laid(tab, total, f, now) && o == OriginsFor(tab, total, f)
    ensures InOrder(tab, f, now, o.d + total.d, o.b)
  {
    forall k | GetsRoom(tab, f, k)
      ensures now[k].stype == EXTERN + BSS && now[k].svalue == Word(o.d + total.d + CommonBytes(tab, k))
    {
      CommonValue(tab, total, f, k);
    }
    WordsAdd(o.d + total.d, CommonBytes(tab, |tab|));
  }

  lemma {:induction false} NoneTake(tab: seq<Symbol>, f: Flags, i: nat, j: nat)
    requires Assigns(f) && i <= j <= |tab| && NoneFrom(tab, f, i, j)
    ensures CommonBytes(tab, i) == CommonBytes(tab, j)
    decreases j
  {
    if i < j {
      assert !GetsRoom(tab, f, j - 1);
      NoneTake(tab, f, i, j - 1);
    }
  }

  lemma AbutsIs(end: int, c: int, size: int)
    ensures Abuts(Word(end + c), size, Word(end + (c + Even(size))))
  {
    EvenIs(size);
    Difference(end + c, Even(size));
  }

  lemma Difference(a: int, b: int)
    requires IsWord(b)
    ensures Word(Word(a + b) - Word(a)) == b
  {
  }

  /** Where the next part begins, if all common symbols between are told. */
  lemma {:induction false} NextPart(tab: seq<Symbol>, f: Flags, end: int, i: nat, j: nat)
    requires GetsRoom(tab, f, i) && i < j <= |tab| && NoneFrom(tab, f, i + 1, j)
    ensures Abuts(Word(end + CommonBytes(tab, i)), tab[i].svalue, Word(end + CommonBytes(tab, j)))
  {
    NoneTake(tab, f, i + 1, j);
    AbutsIs(end, CommonBytes(tab, i), tab[i].svalue);
  }

  lemma {:induction false} CommonsFollow(tab: seq<Symbol>, f: Flags, now: seq<Symbol>, end: int, bss: int)
    requires InOrder(tab, f, now, end, bss)
    ensures CommonsSay(tab, f, now, end, bss)
  {
    forall k | GetsRoom(tab, f, k)
      ensures NoneFrom(tab, f, 0, k) ==> now[k].svalue == Word(end)
      ensures NoneFrom(tab, f, k + 1, |tab|) ==> Abuts(now[k].svalue, tab[k].svalue, bss)
    {
      if NoneFrom(tab, f, 0, k) { NoneTake(tab, f, 0, k); }
      if NoneFrom(tab, f, k + 1, |tab|) { NextPart(tab, f, end, k, |tab|); }
    }
    forall i, j | GetsRoom(tab, f, i) && GetsRoom(tab, f, j) && i < j && NoneFrom(tab, f, i + 1, j)
      ensures Abuts(now[i].svalue, tab[i].svalue, now[j].svalue)
    {
      NextPart(tab, f, end, i, j);
    }
    if Assigns(f) && NoneFrom(tab, f, 0, |tab|) { NoneTake(tab, f, 0, |tab|); }
  }

  /** What middle leaves, told without its own sums. */
  lemma {:induction false} CommonsRight(tab: seq<Symbol>, total: Sizes, f: Flags, now: seq<Symbol>, o: Sizes)
    requires Laid(tab, total, f, now) && o == OriginsFor(tab, total, f)
    ensures CommonsSay(tab, f, now, o.d + total.d, o.b)
  {
    LaidInOrder(tab, total, f, now, o);
    CommonsFollow(tab, f, now, o.d + total.d, o.b);
  }

  lemma {:induction false} BssLater(tab: seq<Symbol>, total: Sizes, f: Flags, e: nat)
    requires e < |tab| && tab[e].stype == EXTERN + BSS
    ensures Middle(tab, total, f, e) == tab[e].(svalue := Word(tab[e].svalue + OriginsFor(tab, total, f).b))
  {
  }

  lemma {:induction false} CommonBelow(tab: seq<Symbol>, f: Flags, now: seq<Symbol>, end: int, bss: int, i: nat)
    requires InOrder(tab, f, now, end, bss) && GetsRoom(tab, f, i) && 0 < tab[i].svalue < 0x1_0000 - 1
    requires 0 <= end && end + CommonBytes(tab, |tab|) < 0x1_0000
    ensures end <= now[i].svalue && now[i].svalue + tab[i].svalue <= bss
  {
    EvenIs(tab[i].svalue);
    CommonBytesGrow(tab, i + 1, |tab|);
  }

  /**
    In a program that fits in the address space, a common symbol lies after the data
    and before the bss of the modules, and so before every symbol in it.
   */
  lemma {:induction false} CommonsBeforeBss(tab: seq<Symbol>, total: Sizes, f: Flags, now: seq<Symbol>, o: Sizes,
    i: nat)
    requires Laid(tab, total, f, now) && o == OriginsFor(tab, total, f) && IsWord(total.t) && IsWord(total.d)
    requires GetsRoom(tab, f, i) && 0 < tab[i].svalue < 0x1_0000 - 1
    requires o.d + total.d + CommonBytes(tab, |tab|) < 0x1_0000
    ensures o.d + total.d <= now[i].svalue && now[i].svalue + tab[i].svalue <= o.b
    ensures forall e :: 0 <= e < |tab| && tab[e].stype == EXTERN + BSS && 0 <= tab[e].svalue < 0x1_0000 - o.b ==>
        now[i].svalue + tab[i].svalue <= now[e].svalue
  {
    LaidInOrder(tab, total, f, now, o);
    OriginsRight(tab, total, f);
    CommonBelow(tab, f, now, o.d + total.d, o.b, i);
    forall e | 0 <= e < |tab| && tab[e].stype == EXTERN + BSS && 0 <= tab[e].svalue < 0x1_0000 - o.b
      ensures now[i].svalue + tab[i].svalue <= now[e].svalue
    {
      BssLater(tab, total, f, e);
    }
  }

  /**
    With something missing the output is to be linked again: data and bss follow the
    text at once, and common symbols, like the linker's own names, stay as they are.
   */
  lemma {:induction false} MissingStays(tab: seq<Symbol>, total: Sizes, f: Flags, f': Flags, now: seq<Symbol>, o: Sizes)
    requires !f.r && IsWord(total.t) && f' == FlagsFor(tab, f)
    requires Laid(tab, total, f', now) && o == OriginsFor(tab, total, f')
    ensures f'.r <==> AnyMissing(tab)
    ensures AnyMissing(tab) ==> !f'.s && o == Sizes(0, total.t, Word(total.t + total.d))
    ensures AnyMissing(tab) ==> forall k :: 0 <= k < |tab| && tab[k].stype == EXTERN + UNDEF ==> now[k] == tab[k]
    ensures !AnyMissing(tab) ==> f' == f
  {
  }

  // ------------------------------------------------------------------- the ends

  /** A name in eight characters. */
  predicate Spells(name: seq<int>, s: string) {
    |name| == 8 >= |s| && forall i :: 0 <= i < 8 ==> name[i] == if i < |s| then s[i] as int else 0
  }

  /** Mentioned, without a size, and not defined: the linker's to define. */
  predicate Open(tab: seq<Symbol>, f: Flags, k: nat, s: string) {
    k < |tab| && Assigns(f) && tab[k].stype == EXTERN + UNDEF && tab[k].svalue == 0 && Spells(tab[k].name, s)
  }

  lemma OwnNames(name: seq<int>)
    ensures Spells(name, "_etext") ==> name == ETEXT
    ensures Spells(name, "_edata") ==> name == EDATA
    ensures Spells(name, "_end") ==> name == END
  {
  }

  lemma {:induction false} EndValue(tab: seq<Symbol>, total: Sizes, f: Flags, k: nat, o: Sizes)
    requires Unique(tab) && k < |tab| && o == OriginsFor(tab, total, f)
    requires Assigns(f) && tab[k].stype == EXTERN + UNDEF && tab[k].svalue == 0
    ensures var s := Middle(tab, total, f, k);
      && (tab[k].name == ETEXT ==> s.stype == EXTERN + TEXT && s.svalue == Word(o.t + total.t))
      && (tab[k].name == EDATA ==> s.stype == EXTERN + DATA && s.svalue == Word(o.d + total.d))
      && (tab[k].name == END ==> s.stype == EXTERN + BSS && s.svalue == Word(o.b + total.b))
  {
    IndexAt(tab, k);
    var s := Middle(tab, total, f, k);
    assert ETEXT[1] == EDATA[1] == 101;
  }

  /** The end of the text, of the data and of the bss. */
  lemma {:induction false} EndsRight(tab: seq<Symbol>, total: Sizes, f: Flags, now: seq<Symbol>, o: Sizes, k: nat)
    requires Laid(tab, total, f, now) && o == OriginsFor(tab, total, f) && IsWord(total.t)
    requires Unique(tab) && k < |tab|
    ensures Open(tab, f, k, "_etext") ==> now[k].stype == EXTERN + TEXT && now[k].svalue == total.t
    ensures Open(tab, f, k, "_edata") ==> now[k].stype == EXTERN + DATA && now[k].svalue == Word(o.d + total.d)
    ensures Open(tab, f, k, "_end") ==> now[k].stype == EXTERN + BSS && now[k].svalue == Word(o.b + total.b)
  {
    OwnNames(tab[k].name);
    OriginsRight(tab, total, f);
    if Assigns(f) && tab[k].stype == EXTERN + UNDEF && tab[k].svalue == 0 { EndValue(tab, total, f, k, o); }
  }

  // -------------------------------------------------------------------- in place

  /** The source's middle. */
  method RunMiddle(symtab: array<Symbol>, total: Sizes, f: Flags) returns (f': Flags, o: Sizes)
    requires IsWord(total.t)
    modifies symtab
    ensures f' == FlagsFor(old(symtab[..]), f) && o == OriginsFor(old(symtab[..]), total, f')
    ensures Laid(old(symtab[..]), total, f', symtab[..])
    ensures OriginsSay(o, total, f') && CommonsSay(old(symtab[..]), f', symtab[..], o.d + total.d, o.b)
  {
    ghost var tab := symtab[..];
    f' := Check(symtab, f);
    var csize := 0;
    if Assigns(f') { csize := Assign(symtab, total); }
    o := Origins(f'.n, f'.i, total, csize);
    Settle(symtab, o, Word(o.d + total.d));
    OriginsRight(tab, total, f');
    CommonsRight(tab, total, f', symtab[..], o);
  }
}
