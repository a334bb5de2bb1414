/**
  The symbol table of the older linker (v6/ld.c: lookup, enter, symreloc and
  load1): open addressing over NSYM + 2 slots, and speculative entries that are
  taken back when a library member is rejected.
 */
module OldSymbols {
  const NSYM := 501
  const NSLOT := 503

  const EXTERN := 32
  const UNDEF := 0
  const ABS := 1
  const TEXT := 2
  const DATA := 3
  const BSS := 4

  /** Sixteen-bit words. */
  function Word(v: int): (w: int)
    ensures 0 <= w < 0x1_0000
  {
    v % 0x1_0000
  }

  function Signed(w: int): int {
    if w >= 0x8000 then w - 0x1_0000 else w
  }

  /** A name is eight characters. */
  datatype Symbol = Symbol(name: seq<int>, stype: int, svalue: int)

  predicate IsExtern(stype: int) {
    (stype / EXTERN) % 2 == 1
  }

  // ---------------------------------------------------------------- the names

  function HashSum(name: seq<int>): int {
    if |name| == 0 then 0 else Word(2 * HashSum(name[..|name| - 1]) + name[|name| - 1])
  }

  /** The slot where the search for a name starts. */
  function Hash(name: seq<int>): (h: nat)
    ensures 2 <= h < NSLOT
  {
    HashSum(name) % 0x8000 % NSYM + 2
  }

  method ComputeHash(name: seq<int>) returns (h: nat)
    ensures h == Hash(name)
  {
    var i := 0;
    var k := 0;
    while k < |name|
      invariant 0 <= k <= |name| && i == HashSum(name[..k])
    {
      assert name[..k + 1][..k] == name[..k];
      i := Word(2 * i + name[k]);
      k := k + 1;
    }
    assert name[..k] == name;
    h := i % 0x8000 % NSYM + 2;
  }

  function IndexOf(tab: seq<Symbol>, name: seq<int>): (i: nat)
    ensures i <= |tab|
    ensures i < |tab| ==> tab[i].name == name
    ensures forall k :: 0 <= k < i ==> tab[k].name != name
  {
    if |tab| == 0 then 0 else if tab[0].name == name then 0 else 1 + IndexOf(tab[1..], name)
  }

  ghost predicate Unique(tab: seq<Symbol>) {
    forall i, j :: 0 <= i < j < |tab| ==> tab[i].name != tab[j].name
  }

  lemma IndexAt(tab: seq<Symbol>, i: nat)
    requires Unique(tab) && i < |tab|
    ensures IndexOf(tab, tab[i].name) == i
  {
  }

  // ---------------------------------------------------------------- the slots

  function Next(q: nat): (r: nat)
    requires q < NSLOT
    ensures r < NSLOT
  {
    if q + 1 >= NSLOT then 0 else q + 1
  }

  /** Is slot q on the way from slot h to slot j, going round? */
  predicate OnWay(h: nat, j: nat, q: nat) {
    if h <= j then h <= q < j else h <= q < NSLOT || q < j
  }

  function Distance(q: nat, e: nat): nat
    requires q < NSLOT && e < NSLOT
  {
    if e >= q then e - q else e + NSLOT - q
  }

  /** All symbols are in slots, found from their hash without passing an empty one or one that is taken later. */
  ghost predicate SlotOk(tab: seq<Symbol>, slots: seq<int>, pos: seq<nat>, k: nat)
    requires |slots| == NSLOT && |pos| == |tab| && k < |tab|
  {
    && pos[k] < NSLOT && slots[pos[k]] == k
    && forall q :: 0 <= q < NSLOT && OnWay(Hash(tab[k].name), pos[k], q) ==> 0 <= slots[q] < k
  }

  ghost predicate TableOk(tab: seq<Symbol>, slots: seq<int>, pos: seq<nat>) {
    && |slots| == NSLOT && |pos| == |tab| <= NSYM && Unique(tab)
    && (forall q :: 0 <= q < NSLOT ==> -1 <= slots[q] < |tab|)
    && (forall q :: 0 <= q < NSLOT && slots[q] >= 0 ==> pos[slots[q]] == q)
    && forall k :: 0 <= k < |tab| ==> SlotOk(tab, slots, pos, k)
  }

  function UpTo(n: nat): (r: set<nat>)
    ensures forall q :: q in r <==> 0 <= q < n
  {
    if n == 0 then {} else UpTo(n - 1) + {n - 1}
  }

  lemma {:induction false} UpToSize(n: nat)
    ensures |UpTo(n)| == n
    decreases n
  {
    if n > 0 { UpToSize(n - 1); }
  }

  function Values(pos: seq<nat>): (r: set<nat>)
    ensures forall k :: 0 <= k < |pos| ==> pos[k] in r
  {
    if |pos| == 0 then {} else Values(pos[..|pos| - 1]) + {pos[|pos| - 1]}
  }

  lemma {:induction false} FewValues(pos: seq<nat>)
    ensures |Values(pos)| <= |pos|
    decreases |pos|
  {
    if |pos| > 0 { FewValues(pos[..|pos| - 1]); }
  }

  lemma {:induction false} Fewer(a: set<nat>, b: set<nat>)
    requires a <= b
    ensures |a| <= |b|
    decreases b
  {
    if a != {} {
      var x :| x in a;
      Fewer(a - {x}, b - {x});
    }
  }

  /** There are two slots more than symbols, so that every search ends. */
  lemma EmptySlot(tab: seq<Symbol>, slots: seq<int>, pos: seq<nat>) returns (e: nat)
    requires TableOk(tab, slots, pos)
    ensures e < NSLOT && slots[e] == -1
  {
    if forall q :: 0 <= q < NSLOT ==> slots[q] >= 0 {
      var a, b := UpTo(NSLOT), Values(pos);
      forall q | q in a ensures q in b {
        assert slots[q] >= 0 && pos[slots[q]] == q;
      }
      Fewer(a, b);
      UpToSize(NSLOT);
      FewValues(pos);
      assert false;
    }
    e :| 0 <= e < NSLOT && slots[e] == -1;
  }

  // ---------------------------------------------------------------- searching

  /** Slots from h up to hp hold other names. */
  ghost predicate Searched(tab: seq<Symbol>, slots: seq<int>, name: seq<int>, hp: nat)
    requires |slots| == NSLOT
  {
    forall q :: 0 <= q < NSLOT && OnWay(Hash(name), hp, q) ==> 0 <= slots[q] < |tab| && tab[slots[q]].name != name
  }

  lemma SearchedNext(tab: seq<Symbol>, slots: seq<int>, name: seq<int>, hp: nat, e: nat)
    requires |slots| == NSLOT && hp < NSLOT && e < NSLOT && slots[e] == -1
    requires Searched(tab, slots, name, hp) && 0 <= slots[hp] < |tab| && tab[slots[hp]].name != name
    ensures Searched(tab, slots, name, Next(hp)) && Distance(Next(hp), e) < Distance(hp, e)
  {
    var h := Hash(name);
    assert !OnWay(h, hp, e);
    forall q | 0 <= q < NSLOT && OnWay(h, Next(hp), q) ensures 0 <= slots[q] < |tab| && tab[slots[q]].name != name {
      assert OnWay(h, hp, q) || q == hp;
    }
  }

  lemma OneWay(h: nat, i: nat, j: nat)
    requires h < NSLOT && i < NSLOT && j < NSLOT
    ensures i == j || OnWay(h, i, j) || OnWay(h, j, i)
  {
  }

  lemma NotThere(tab: seq<Symbol>, slots: seq<int>, pos: seq<nat>, name: seq<int>, hp: nat)
    requires TableOk(tab, slots, pos) && hp < NSLOT && slots[hp] == -1 && Searched(tab, slots, name, hp)
    ensures IndexOf(tab, name) == |tab|
  {
    var k := IndexOf(tab, name);
    if k < |tab| {
      assert SlotOk(tab, slots, pos, k);
      OneWay(Hash(name), hp, pos[k]);
    }
  }

  lemma There(tab: seq<Symbol>, slots: seq<int>, pos: seq<nat>, name: seq<int>, hp: nat)
    requires TableOk(tab, slots, pos) && hp < NSLOT && 0 <= slots[hp] && tab[slots[hp]].name == name
    ensures IndexOf(tab, name) == slots[hp]
  {
    IndexAt(tab, slots[hp]);
  }

  // ------------------------------------------------------ entering, taking back

  lemma EnterOk(tab: seq<Symbol>, slots: seq<int>, pos: seq<nat>, s: Symbol, hp: nat)
    requires TableOk(tab, slots, pos) && |tab| < NSYM && hp < NSLOT && slots[hp] == -1
        && Searched(tab, slots, s.name, hp)
    ensures TableOk(tab + [s], slots[hp := |tab|], pos + [hp])
  {
    var t, u, p := tab + [s], slots[hp := |tab|], pos + [hp];
    NotThere(tab, slots, pos, s.name, hp);
    forall k | 0 <= k < |t| ensures SlotOk(t, u, p, k) {
      if k < |tab| { assert SlotOk(tab, slots, pos, k); }
    }
  }

  /** Changing types and values does not matter to the slots. */
  lemma SameNamesOk(tab: seq<Symbol>, tab': seq<Symbol>, slots: seq<int>, pos: seq<nat>)
    requires TableOk(tab, slots, pos) && |tab'| == |tab| && forall k :: 0 <= k < |tab| ==> tab'[k].name == tab[k].name
    ensures TableOk(tab', slots, pos)
  {
    forall k | 0 <= k < |tab'| ensures SlotOk(tab', slots, pos, k) { assert SlotOk(tab, slots, pos, k); }
  }
}
