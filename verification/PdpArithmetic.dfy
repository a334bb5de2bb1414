/**
  What the PDP-11 emulator's arithmetic does (run1 in 7run/PDP11/VM.inst.cpp), by
  the numbers that the operands' places hold before and afterwards; where its flags
  and its stores are not the machine's.
 */
module PdpArithmetic {
  import opened PdpDecode
  import opened PdpMachine
  import opened PdpPlaces

  predicate IsShort(v: int) {
    -0x8000 <= v < 0x8000
  }

  /** The flags as they are set. */
  predicate FlagsAre(d: Done, z: bool, n: bool, c: bool, v: bool) {
    d.m.z == z && d.m.n == n && d.m.c == c && d.m.v == v
  }

  lemma ShortIs(v: int)
    ensures IsShort(Short(v)) && Word(Short(v)) == Word(v) && (IsShort(v) ==> Short(v) == v)
    ensures Short(v) < 0 <==> Word(v) >= 0x8000
  {
  }

  // ---------------------------------------------------------------- one operand

  /** A signed number x has been made t, which may be more than the place can hold. */
  predicate Becomes(d: Done, y: int, t: int, carry: bool) {
    y == Word(t) && FlagsAre(d, y == 0, t < 0, carry, !IsShort(t))
  }

  /** From x to y, by the instruction that has the number k. */
  predicate SingleDone(m: Machine, d: Done, k: int, x: int, y: int) {
    var c := if m.c then 1 else 0;
    if k == 40 then y == 0 && FlagsAre(d, true, false, false, false)
    else if k == 41 then x + y == 0xFFFF && FlagsAre(d, false, y >= 0x8000, true, false)
    else if k == 42 then Becomes(d, y, Short(x) + 1, m.c)
    else if k == 43 then Becomes(d, y, Short(x) - 1, m.c)
    else if k == 44 then Becomes(d, y, -Short(x), x != 0)
    else if k == 45 then Becomes(d, y, Short(x) + c, x + c == 0x1_0000)
    else if k == 46 then Becomes(d, y, Short(x) - c, x - c == -1)
    else y == x && FlagsAre(d, x == 0, x >= 0x8000, false, false)
  }

  /** What is stored, for the number x. */
  function ValueFor(m: Machine, k: int, x: int): int {
    var c := if m.c then 1 else 0;
    if k == 40 then 0 else if k == 41 then -x - 1 else if k == 42 then Short(x) + 1 else if k == 43 then Short(x) - 1
    else if k == 44 then -Short(x) else if k == 45 then Short(x) + c else Short(x) - c
  }

  /** The flags that the source computes, from the value that it stores. */
  predicate RawFlags(m: Machine, d: Done, k: int, x: int, val: int) {
    if k == 40 then FlagsAre(d, true, false, false, false)
    else if k == 41 then FlagsAre(d, val == 0, x < 0x8000, true, false)
    else if k == 42 then FlagsAre(d, val == 0, val < 0, m.c, val == 0x8000)
    else if k == 43 then FlagsAre(d, val == 0, val < 0, m.c, val == -0x8001)
    else if k == 44 then FlagsAre(d, val == 0, val < 0, val != 0, val == 0x8000)
    else if k == 45 then FlagsAre(d, val == 0, val < 0, m.c && val == 0, val == 0x8000)
    else FlagsAre(d, val == 0, val < 0, m.c && val == -1, val == -0x8001)
  }

  /** The store s, with the flags. */
  predicate RawSet(m: Machine, s: Done, d: Done, k: int, x: int, val: int) {
    if k == 40 then d == SetFlags(s, true, false, false, false)
    else if k == 41 then d == SetFlags(s, val == 0, x < 0x8000, true, false)
    else if k == 42 then d == SetFlags(s, val == 0, val < 0, m.c, val == 0x8000)
    else if k == 43 then d == SetFlags(s, val == 0, val < 0, m.c, val == -0x8001)
    else if k == 44 then d == SetFlags(s, val == 0, val < 0, val != 0, val == 0x8000)
    else if k == 45 then d == SetFlags(s, val == 0, val < 0, m.c && val == 0, val == 0x8000)
    else d == SetFlags(s, val == 0, val < 0, m.c && val == -1, val == -0x8001)
  }

  lemma {:induction false} SingleSets(m: Machine, o: Operand, k: int, x: int, val: int)
    requires 40 <= k < 44 && x == Get16(m, o, true).v && val == ValueFor(m, k, x)
    ensures RawSet(m, Set16(m, o, val), Single(m, o, k), k, x, val)
  {
  }

  lemma {:induction false} SingleAdds(m: Machine, o: Operand, k: int, x: int, val: int)
    requires 44 <= k < 47 && x == Get16(m, o, true).v && val == ValueFor(m, k, x)
    ensures RawSet(m, Set16(m, o, val), Single(m, o, k), k, x, val)
  {
  }

  lemma {:induction false} SingleIs(m: Machine, o: Operand, k: int, x: int, val: int)
    requires 40 <= k < 47 && x == Get16(m, o, true).v && val == ValueFor(m, k, x)
    ensures RawSet(m, Set16(m, o, val), Single(m, o, k), k, x, val)
  {
    if k < 44 { SingleSets(m, o, k, x, val); } else { SingleAdds(m, o, k, x, val); }
  }

  lemma {:induction false} RawSetFlags(m: Machine, s: Done, d: Done, k: int, x: int, val: int)
    requires RawSet(m, s, d, k, x, val)
    ensures SameStore(s, d) && RawFlags(m, d, k, x, val)
  {
  }

  lemma {:induction false} SingleRaw(m: Machine, o: Operand, k: int, x: int, val: int, d: Done)
    requires 40 <= k < 47 && x == Get16(m, o, true).v && val == ValueFor(m, k, x) && d == Single(m, o, k)
    ensures SameStore(Set16(m, o, val), d) && RawFlags(m, d, k, x, val)
  {
    SingleIs(m, o, k, x, val);
    RawSetFlags(m, Set16(m, o, val), d, k, x, val);
  }

  lemma ZeroWord(v: int)
    requires -0x8001 <= v <= 0x8000
    ensures v == 0 <==> Word(v) == 0
  {
  }

  lemma {:induction false} RawRight(m: Machine, d: Done, k: int, x: int, val: int)
    requires 40 <= k < 47 && 0 <= x < SIZE && val == ValueFor(m, k, x) && RawFlags(m, d, k, x, val)
    ensures SingleDone(m, d, k, x, Word(val))
  {
    if k >= 42 { ZeroWord(val); }
  }

  /** clr, com, inc, dec, neg, adc, sbc and tst. */
  lemma {:induction false} SingleDoes(m: Machine, o: Operand, k: int, x: int, d: Done)
    requires 40 <= k < 48 && HasPlace(m, o) && x == Held(m, PlaceOf(m, o)) && d == Single(m, o, k)
    ensures SingleDone(m, d, k, x, Held(Store(d), PlaceOf(m, o)))
  {
    if k < 47 {
      GetHeld(m, o, true);
      SingleRaw(m, o, k, x, ValueFor(m, k, x), d);
      RawRight(m, d, k, x, ValueFor(m, k, x));
      SetHeld(m, o, ValueFor(m, k, x), d);
    } else {
      GetHeld(m, o, false);
      ShortIs(x);
    }
  }

  /**
    Where a number gets too large, and only there, N is not the sign of what is
    stored, and blt is taken for the wrong side.
   */
  lemma SignRight(d: Done, y: int, t: int, carry: bool)
    requires Becomes(d, y, t, carry) && -0x8001 <= t <= 0x8000
    ensures (d.m.n <==> y >= 0x8000) <==> !d.m.v
    ensures (BranchIf(d.m, 5) <==> t < 0) <==> !d.m.v
    ensures (BranchIf(d.m, 4) <==> t >= 0) <==> !d.m.v
  {
  }

  /** inc of 0x7FFF: what is stored is negative and N says that it is not; blt is taken though the sum is positive. */
  lemma {:induction false} IncTooLarge(m: Machine, o: Operand, k: int, x: int, d: Done)
    requires k == 42 && x == 0x7FFF && HasPlace(m, o) && Held(m, PlaceOf(m, o)) == x && d == Single(m, o, k)
    ensures Held(Store(d), PlaceOf(m, o)) == 0x8000 && !d.m.n && BranchIf(d.m, 5)
  {
    SingleDoes(m, o, k, x, d);
    TooLarge(d, Held(Store(d), PlaceOf(m, o)), Short(x) + 1, m.c);
  }

  lemma TooLarge(d: Done, y: int, t: int, carry: bool)
    requires Becomes(d, y, t, carry) && t == 0x8000
    ensures y == 0x8000 && !d.m.n && BranchIf(d.m, 5)
  {
  }

  /** com never sets Z, which is right exactly if it does not make 0. */
  lemma {:induction false} ComZero(m: Machine, o: Operand, x: int, d: Done)
    requires HasPlace(m, o) && x == Held(m, PlaceOf(m, o)) && d == Single(m, o, 41)
    ensures (d.m.z <==> Held(Store(d), PlaceOf(m, o)) == 0) <==> x != 0xFFFF
  {
    SingleDoes(m, o, 41, x, d);
  }

  // --------------------------------------------------------------- two operands

  /** Bit number i. */
  predicate Bit(n: nat, i: nat) {
    if i == 0 then n % 2 == 1 else Bit(n / 2, i - 1)
  }

  lemma {:induction false} AndBits(a: nat, b: nat, i: nat)
    ensures Bit(And(a, b), i) <==> Bit(a, i) && Bit(b, i)
    ensures And(a, b) <= a && And(a, b) <= b
    decreases a
  {
    if a == 0 || b == 0 {
      NoBits(i);
    } else {
      AndHalf(a, b);
      AndBits(a / 2, b / 2, if i > 0 then i - 1 else 0);
    }
  }

  lemma {:induction false} NoBits(i: nat)
    ensures !Bit(0, i)
    decreases i
  {
    if i > 0 { NoBits(i - 1); }
  }

  lemma Odds(x: int, y: int)
    requires 0 <= x < 2 && 0 <= y < 2
    ensures x * y == if x == 1 && y == 1 then 1 else 0
  {
    if x == 1 { assert x * y == y; } else { assert x * y == 0; }
  }

  lemma {:induction false} AndHalf(a: nat, b: nat)
    requires a > 0 && b > 0
    ensures And(a, b) / 2 == And(a / 2, b / 2) && (And(a, b) % 2 == 1 <==> a % 2 == 1 && b % 2 == 1)
  {
    Odds(a % 2, b % 2);
    Halves(And(a, b), And(a / 2, b / 2), (a % 2) * (b % 2));
  }

  lemma Halves(n: int, half: int, low: int)
    requires n == 2 * half + low && 0 <= low < 2
    ensures n / 2 == half && n % 2 == low
  {
  }

  /** What is in d and not in s; what is in either. */
  lemma {:induction false} ClearBits(s: nat, d: nat, i: nat)
    ensures And(s, d) <= d && (Bit(d - And(s, d), i) <==> Bit(d, i) && !Bit(s, i))
    ensures And(s, d) <= s + d && (Bit(s + d - And(s, d), i) <==> Bit(s, i) || Bit(d, i))
    decreases s
  {
    AndBits(s, d, i);
    if s == 0 || d == 0 {
      NoBits(i);
    } else {
      AndHalf(s, d);
      AndBits(s / 2, d / 2, 0);
      if i > 0 { ClearBits(s / 2, d / 2, i - 1); }
      Split(s, d, And(s, d));
    }
  }

  lemma Split(s: nat, d: nat, a: nat)
    requires a % 2 == 1 <==> s % 2 == 1 && d % 2 == 1
    requires a <= s && a <= d && a / 2 <= s / 2 && a / 2 <= d / 2
    ensures (d - a) / 2 == d / 2 - a / 2 && ((d - a) % 2 == 1 <==> d % 2 == 1 && s % 2 == 0)
    ensures (s + d - a) / 2 == s / 2 + d / 2 - a / 2 && ((s + d - a) % 2 == 1 <==> d % 2 == 1 || s % 2 == 1)
  {
  }

  /** From y to y', by the instruction that has the number k, with the source x. */
  predicate DoubleDone(m: Machine, d: Done, k: int, x: int, y: int, y': int)
    requires x >= 0 && y >= 0
  {
    if k == 1 then y' == x && FlagsAre(d, x == 0, x >= 0x8000, m.c, false)
    else if k == 2 then
      y' == y && FlagsAre(d, x == y, Word(x - y) >= 0x8000, x < y, !IsShort(Short(x) - Short(y)))
    else if k == 3 then y' == y && FlagsAre(d, And(x, y) == 0, And(x, y) >= 0x8000, m.c, false)
    else if k == 4 then y' == y - And(x, y) && FlagsAre(d, y' == 0, y' >= 0x8000, m.c, false)
    else if k == 5 then y' == x + y - And(x, y) && FlagsAre(d, y' == 0, y' >= 0x8000, m.c, false)
    else y' == Word(x + y) && FlagsAre(d, y' == 0, y' >= 0x8000, x + y >= SIZE, !IsShort(Short(x) + Short(y)))
  }

  lemma {:induction false} GetIsWord(m: Machine, o: Operand, nomove: bool)
    ensures 0 <= Get16(m, o, nomove).v < SIZE
  {
  }

  /** What is stored, for the numbers x and y. */
  function StoredFor(k: int, x: nat, y: nat): int {
    if k == 1 then x else if k == 4 then y - And(x, y) else if k == 5 then x + y - And(x, y) else Short(x) + Short(y)
  }

  /** The flags that the source computes. */
  predicate DoubleFlags(m: Machine, d: Done, k: int, x: nat, y: nat, val: int) {
    if k == 1 then FlagsAre(d, x == 0, Short(x) < 0, m.c, false)
    else if k == 6 then FlagsAre(d, Short(val) == 0, Short(val) < 0, x + y >= SIZE, val != Short(val))
    else FlagsAre(d, val == 0, val >= 0x8000, m.c, false)
  }

  predicate RawDouble(m: Machine, s: Done, d: Done, k: int, x: nat, y: nat, val: int) {
    if k == 1 then d == SetFlags(s, x == 0, Short(x) < 0, m.c, false)
    else if k == 6 then d == SetFlags(s, Short(val) == 0, Short(val) < 0, x + y >= SIZE, val != Short(val))
    else d == SetFlags(s, val == 0, val >= 0x8000, m.c, false)
  }

  lemma {:induction false} MoveOrAddIs(m: Machine, op: OpCode, k: int, s: Got, x: nat, y: nat, val: int)
    requires k == 1 || k == 6
    requires s == Get16(m, op.opr1, false) && x == s.v && y == Get16(s.m, op.opr2, true).v
    requires val == StoredFor(k, x, y)
    ensures RawDouble(m, Set16(s.m, op.opr2, val), Double(m, op, k), k, x, y, val)
  {
  }

  lemma {:induction false} BitsIs(m: Machine, op: OpCode, k: int, s: Got, x: nat, y: nat, val: int)
    requires k == 4 || k == 5
    requires s == Get16(m, op.opr1, false) && x == s.v && y == Get16(s.m, op.opr2, true).v
    requires val == StoredFor(k, x, y)
    ensures RawDouble(m, Set16(s.m, op.opr2, val), Double(m, op, k), k, x, y, val)
  {
  }

  lemma {:induction false} DoubleIs(m: Machine, op: OpCode, k: int, s: Got, x: nat, y: nat, val: int)
    requires k == 1 || 4 <= k <= 6
    requires s == Get16(m, op.opr1, false) && x == s.v && y == Get16(s.m, op.opr2, true).v
    requires val == StoredFor(k, x, y)
    ensures RawDouble(m, Set16(s.m, op.opr2, val), Double(m, op, k), k, x, y, val)
  {
    if k == 1 || k == 6 { MoveOrAddIs(m, op, k, s, x, y, val); } else { BitsIs(m, op, k, s, x, y, val); }
  }

  lemma {:induction false} RawDoubleFlags(m: Machine, s: Done, d: Done, k: int, x: nat, y: nat, val: int)
    requires RawDouble(m, s, d, k, x, y, val)
    ensures SameStore(s, d) && DoubleFlags(m, d, k, x, y, val)
  {
  }

  lemma SumIs(x: int, y: int)
    requires 0 <= x < SIZE && 0 <= y < SIZE
    ensures var val := Short(x) + Short(y);
      && Word(val) == Word(x + y) && (Short(val) == 0 <==> Word(val) == 0)
      && (Short(val) < 0 <==> Word(val) >= 0x8000) && (val == Short(val) <==> IsShort(val))
  {
  }

  lemma DifferenceIs(x: int, y: int)
    requires 0 <= x < SIZE && 0 <= y < SIZE
    ensures var val := Short(x) - Short(y);
      && Word(val) == Word(x - y) && (Short(val) == 0 <==> x == y)
      && (Short(val) < 0 <==> Word(x - y) >= 0x8000) && (val == Short(val) <==> IsShort(val))
  {
  }

  lemma {:induction false} SumRight(m: Machine, d: Done, k: int, x: nat, y: nat, val: int)
    requires k == 6 && x < SIZE && y < SIZE && val == Short(x) + Short(y) && DoubleFlags(m, d, k, x, y, val)
    ensures DoubleDone(m, d, k, x, y, Word(val))
  {
    SumIs(x, y);
  }

  lemma {:induction false} StoredRight(m: Machine, d: Done, k: int, x: nat, y: nat, val: int)
    requires k == 1 || 4 <= k <= 6
    requires x < SIZE && y < SIZE && val == StoredFor(k, x, y) && DoubleFlags(m, d, k, x, y, val)
    requires 4 <= k <= 5 ==> 0 <= val < SIZE
    ensures DoubleDone(m, d, k, x, y, Word(val))
  {
    if k == 6 { SumRight(m, d, k, x, y, val); } else { ShortIs(x); }
  }

  /** and, or and their bits fit in a word. */
  lemma {:induction false} BitsFit(x: nat, y: nat)
    requires x < SIZE && y < SIZE
    ensures 0 <= y - And(x, y) < SIZE && 0 <= x + y - And(x, y) < SIZE
  {
    AndBits(x, y, 0);
    assert TwoTo(2) == 4 && TwoTo(4) == 16 && TwoTo(6) == 64 && TwoTo(8) == 256 && TwoTo(10) == 1024;
    assert TwoTo(12) == 4096 && TwoTo(14) == 16384 && TwoTo(16) == SIZE;
    OrFits(x, y, 16);
  }

  function TwoTo(k: nat): nat {
    if k == 0 then 1 else 2 * TwoTo(k - 1)
  }

  lemma {:induction false} OrFits(x: nat, y: nat, k: nat)
    requires x < TwoTo(k) && y < TwoTo(k)
    ensures x + y - And(x, y) < TwoTo(k)
    decreases k
  {
    if x > 0 && y > 0 {
      AndHalf(x, y);
      OrFits(x / 2, y / 2, k - 1);
    }
  }

  lemma {:induction false} GetHeldAfter(m: Machine, o: Operand, d: Done)
    requires HasPlace(m, o) && d.bytes == [] && d.m.r == Get16(m, o, false).m.r && MemKept(m, d.m)
    ensures Held(Store(d), PlaceOf(m, o)) == Held(m, PlaceOf(m, o))
  {
    StoreMem(d);
    if o.mode != 0 { PutNone(m.Mem(), d.at); }
  }

  lemma PutNone(t: seq<int>, at: nat)
    ensures Put(t, at, []) == t
  {
  }

  lemma {:induction false} ComparesIs(m: Machine, op: OpCode, k: int, s: Got, x: nat, y: nat, d: Done)
    requires k == 2 || k == 3
    requires s == Get16(m, op.opr1, false) && x == s.v && y == Get16(s.m, op.opr2, false).v && x < SIZE && y < SIZE
    requires d == Double(m, op, k)
    ensures d.bytes == [] && d.m.r == Get16(s.m, op.opr2, false).m.r && DoubleDone(m, d, k, x, y, y)
  {
    if k == 2 { DifferenceIs(x, y); }
  }

  /** mov, cmp, bit, bic, bis and add; y is what the second place holds when the first operand has been read. */
  lemma {:induction false} DoubleDoes(m: Machine, op: OpCode, k: int, s: Got, x: nat, y: nat, d: Done)
    requires 1 <= k <= 6 && s == Get16(m, op.opr1, false) && x == s.v && HasPlace(s.m, op.opr2)
    requires y == Held(s.m, PlaceOf(s.m, op.opr2)) && d == Double(m, op, k)
    ensures DoubleDone(m, d, k, x, y, Held(Store(d), PlaceOf(s.m, op.opr2)))
  {
    GetIsWord(m, op.opr1, false);
    GetIsWord(s.m, op.opr2, true);
    GetHeld(s.m, op.opr2, true);
    if k == 2 || k == 3 {
      GetHeld(s.m, op.opr2, false);
      ComparesIs(m, op, k, s, x, y, d);
      GetHeldAfter(s.m, op.opr2, d);
    } else {
      var val := StoredFor(k, x, y);
      BitsFit(x, y);
      DoubleIs(m, op, k, s, x, y, val);
      RawDoubleFlags(m, Set16(s.m, op.opr2, val), d, k, x, y, val);
      StoredRight(m, d, k, x, y, val);
      SetHeld(s.m, op.opr2, val, d);
    }
  }

  // ------------------------------------------------------------------------ sub

  /** Does the operand move its register when it is evaluated? */
  predicate Moving(o: Operand) {
    2 <= o.mode <= 5 && o.reg < PC
  }

  lemma {:induction false} SubIs(m: Machine, op: OpCode, s: Got, x: nat, g: Got, y: nat, d: Done)
    requires s == Get16(m, op.opr1, false) && x == s.v && g == Get16(s.m, op.opr2, false) && y == g.v
    requires d == Double(m, op, 14) && x < SIZE && y < SIZE
    ensures SameStore(Set16(g.m, op.opr2, Short(y) - Short(x)), d)
    ensures FlagsAre(d, y == x, Word(y - x) >= 0x8000, y < x, !IsShort(Short(y) - Short(x)))
  {
    DifferenceIs(y, x);
  }

  lemma {:induction false} PlaceStays(m: Machine, o: Operand)
    requires HasPlace(m, o) && !Moving(o)
    ensures var g := Get16(m, o, false); HasPlace(g.m, o) && PlaceOf(g.m, o) == PlaceOf(m, o)
  {
  }

  /**
    sub evaluates its second operand twice: the difference is stored where that is
    the second time. For an operand that does not move its register this is the place
    that was read.
   */
  lemma {:induction false} SubDoes(m: Machine, op: OpCode, s: Got, x: nat, g: Got, y: nat, d: Done)
    requires s == Get16(m, op.opr1, false) && x == s.v && HasPlace(s.m, op.opr2) && g == Get16(s.m, op.opr2, false)
    requires y == Held(s.m, PlaceOf(s.m, op.opr2)) && d == Double(m, op, 14)
    ensures FlagsAre(d, y == x, Word(y - x) >= 0x8000, y < x, !IsShort(Short(y) - Short(x)))
    ensures HasPlace(g.m, op.opr2) ==> Held(Store(d), PlaceOf(g.m, op.opr2)) == Word(y - x)
    ensures !Moving(op.opr2) ==> Held(Store(d), PlaceOf(s.m, op.opr2)) == Word(y - x)
  {
    GetIsWord(m, op.opr1, false);
    GetIsWord(s.m, op.opr2, false);
    GetHeld(s.m, op.opr2, false);
    SubIs(m, op, s, x, g, y, d);
    assert Word(Short(y) - Short(x)) == Word(y - x) by { DifferenceIs(y, x); }
    if HasPlace(g.m, op.opr2) { SetHeld(g.m, op.opr2, Short(y) - Short(x), d); }
    if !Moving(op.opr2) { PlaceStays(s.m, op.opr2); }
  }

  lemma {:induction false} OtherWord(d: Done, mem: seq<int>, a: nat)
    requires a + 1 < |mem| == SIZE && d.m.Mem() == mem && |d.bytes| <= 2 && (d.at + 2 <= a || a + 2 <= d.at)
    ensures Read16(Store(d), a) == Word(ReadWord(mem, a))
  {
    StoreMem(d);
    var r := Put(mem, d.at, d.bytes);
    assert r[a] == mem[a] && r[a + 1] == mem[a + 1];
  }

  lemma {:induction false} MovedPlace(m: Machine, o: Operand, g: Got)
    requires HasPlace(m, o) && Moving(o) && (o.mode == 2 || o.mode == 4) && o.w && g == Get16(m, o, false)
    ensures var a := Addr(m, o, true).v;
      0 <= a < SIZE - 1 && PlaceOf(m, o) == InMemory(a)
      && Addr(g.m, o, false).v == Word(if o.mode == 2 then a + 2 else a - 2)
  {
  }

  lemma {:induction false} StoredAt(m: Machine, o: Operand, v: int, d: Done, at: nat)
    requires o.mode != 0 && SameStore(Set16(m, o, v), d) && Addr(m, o, false).v == at < SIZE
    ensures d.at == at && |d.bytes| == 2
  {
  }

  lemma Apart(a: int, at: int, plus: bool)
    requires 0 <= a < SIZE - 1 && at == Word(if plus then a + 2 else a - 2)
    ensures at + 2 <= a || a + 2 <= at
  {
  }

  lemma SameDifference(x: int, y: int)
    requires 0 <= x < SIZE && 0 <= y < SIZE
    ensures y == Word(y - x) <==> x == 0
  {
  }

  /** Once the register has moved, a store to the operand leaves the place that was read as it was. */
  lemma {:induction false} StoredBeside(m: Machine, o: Operand, g: Got, v: int, d: Done)
    requires HasPlace(m, o) && Moving(o) && (o.mode == 2 || o.mode == 4) && o.w && g == Get16(m, o, false)
    requires SameStore(Set16(g.m, o, v), d)
    ensures Held(Store(d), PlaceOf(m, o)) == Held(m, PlaceOf(m, o))
  {
    MovedPlace(m, o, g);
    var a := Addr(m, o, true).v;
    var at := Word(if o.mode == 2 then a + 2 else a - 2);
    StoredAt(g.m, o, v, d, at);
    Apart(a, at, o.mode == 2);
    OtherWord(d, m.Mem(), a);
  }

  /** For (r)+ and -(r) that is the next word or the one before: at the place that was read nothing is subtracted. */
  lemma {:induction false} SubBeside(m: Machine, op: OpCode, s: Got, x: nat, g: Got, y: nat, d: Done)
    requires s == Get16(m, op.opr1, false) && x == s.v && HasPlace(s.m, op.opr2) && g == Get16(s.m, op.opr2, false)
    requires y == Held(s.m, PlaceOf(s.m, op.opr2)) && d == Double(m, op, 14)
    requires Moving(op.opr2) && (op.opr2.mode == 2 || op.opr2.mode == 4) && op.opr2.w
    ensures Held(Store(d), PlaceOf(s.m, op.opr2)) == y
    ensures Held(Store(d), PlaceOf(s.m, op.opr2)) == Word(y - x) <==> x == 0
  {
    GetIsWord(m, op.opr1, false);
    GetIsWord(s.m, op.opr2, false);
    GetHeld(s.m, op.opr2, false);
    SubIs(m, op, s, x, g, y, d);
    StoredBeside(s.m, op.opr2, g, Short(y) - Short(x), d);
    SameDifference(x, y);
  }
}
