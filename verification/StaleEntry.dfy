/**
  A program that stores into an instruction of its loop, started as the loader
  starts it: without a cache the new instruction is executed, with the cache the
  new word selects what is done but the old operands are used.
 */
module StaleEntry {
  import opened PdpDecode
  import opened PdpMachine
  import opened DecodeCache

  const LENGTH := 14

  /** The stack pointer under the argument count and one argument of one letter. */
  const STACK := 0xFFF8

  /** mov $1, r1; then, again and again: clr r0; mov $0x0a01, *$4; br 4. The word 0x0a01 is clr r1. */
  const WORDS := [0xC1, 0x15, 0x01, 0x00, 0x00, 0x0A, 0xDF, 0x15, 0x01, 0x0A, 0x04, 0x00, 0xFB, 0x01]

  /** The argument count, where the argument is, and the argument. */
  const ARGUMENTS := [0x01, 0x00, 0xFE, 0xFF, 0x00, 0x00, 0x61, 0x00]

  function ProgramByte(i: nat): int {
    if i < LENGTH then WORDS[i] else if STACK <= i < SIZE then ARGUMENTS[i - STACK] else 0
  }

  function Program(): (t: seq<int>)
    ensures |t| == SIZE && forall i :: 0 <= i < SIZE ==> t[i] == ProgramByte(i)
  {
    seq(SIZE, i requires 0 <= i < SIZE => ProgramByte(i))
  }

  /** What the text is when the word at 4 has been overwritten. */
  function Overwritten(): (t: seq<int>)
    ensures |t| == SIZE
  {
    Put(Program(), 4, [0x01, 0x0A])
  }

  /** r1, the place in the program, flags and text; r0 and the other registers are 0, but for the stack pointer. */
  function Mach(r1: int, pc: int, z: bool, text: seq<int>): Machine
    requires 0 <= r1 < SIZE && 0 <= pc < SIZE && |text| == SIZE
  {
    State([0, r1, 0, 0, 0, 0, STACK, pc], z, false, false, false, text, Blank().data, false, LENGTH, false)
  }

  const MOVE := OpCode(4, "mov", Operand(2, 2, 7, 1, true), Operand(0, 0, 1, 0, true))
  const STORE := OpCode(6, "mov", Operand(2, 2, 7, 0x0A01, true), Operand(2, 3, 7, 4, true))
  const BR := OpCode(2, "br", Address(4), NoOperand)

  function Clr(k: int): OpCode {
    OpCode(2, "clr", Operand(0, 0, k, 0, true), NoOperand)
  }

  // ------------------------------------------------------------------ decoding

  lemma DecodeMove(t: seq<int>)
    requires ReadWord(t, 0) == 0x15C1 && ReadWord(t, 2) == 1
    ensures Decode(t, 0) == MOVE
  {
  }

  lemma DecodeClr(t: seq<int>, k: int)
    requires 0 <= k < 6 && ReadWord(t, 4) == 0x0A00 + k
    ensures Decode(t, 4) == Clr(k)
  {
    var w := 0x0A00 + k;
    assert (w / 4096) % 16 == 0 && (w / 64) % 64 == 40 && (w / 8) % 8 == 0 && w % 8 == k;
  }

  lemma DecodeStore(t: seq<int>)
    requires ReadWord(t, 6) == 0x15DF && ReadWord(t, 8) == 0x0A01 && ReadWord(t, 10) == 4
    ensures Decode(t, 6) == STORE
  {
  }

  lemma DecodeBr(t: seq<int>)
    requires ReadWord(t, 12) == 0x01FB
    ensures Decode(t, 12) == BR
  {
  }

  lemma Words()
    ensures var t := Program();
      && ReadWord(t, 0) == 0x15C1 && ReadWord(t, 2) == 1 && ReadWord(t, 4) == 0x0A00
      && ReadWord(t, 6) == 0x15DF && ReadWord(t, 8) == 0x0A01 && ReadWord(t, 10) == 4
    ensures ReadWord(Overwritten(), 4) == 0x0A01 && ReadWord(Overwritten(), 12) == 0x01FB
  {
  }

  // ----------------------------------------------------------------- executing

  lemma PutNothing(t: seq<int>, at: nat)
    ensures Put(t, at, []) == t
  {
  }

  lemma SetPc(r1: int, pc: int, z: bool, t: seq<int>, to: int)
    requires 0 <= r1 < SIZE && 0 <= pc < SIZE && 0 <= to < SIZE && |t| == SIZE
    ensures SetR(Mach(r1, pc, z, t), PC, to) == Mach(r1, to, z, t)
  {
  }

  lemma MoveDone(others: Others, t: seq<int>)
    requires |t| == SIZE
    ensures Instr(others, Mach(0, 4, false, t), MOVE, 0x15C1) == NoStore(Mach(1, 4, false, t))
  {
    var w, m := 0x15C1, Mach(0, 4, false, t);
    assert (w / 4096) % 16 == 1;
    assert Get16(m, MOVE.opr1, false) == Got(m, 1);
    assert SetR(m, 1, 1) == Mach(1, 4, false, t);
  }

  lemma DoMove(others: Others, t: seq<int>)
    requires |t| == SIZE && ReadWord(t, 0) == 0x15C1
    ensures Store(Begin(others, Mach(0, 0, false, t), MOVE)) == Mach(1, 4, false, t)
  {
    SetPc(0, 0, false, t, 4);
    MoveDone(others, t);
    PutNothing(t, 0);
  }

  /** The word selects clr, the entry says of what. */
  lemma DoClr(others: Others, z: bool, t: seq<int>, w: int, k: int)
    requires |t| == SIZE && 0x0A00 <= w < 0x0A06 && ReadWord(t, 4) == w && (k == 0 || k == 1)
    ensures Store(Begin(others, Mach(1, 4, z, t), Clr(k))) == Mach(if k == 0 then 1 else 0, 6, true, t)
  {
    assert (w / 4096) % 16 == 0 && (w / 64) % 64 == 40;
    PutNothing(t, 0);
  }

  lemma StoreDone(others: Others, m: Machine)
    requires !m.split
    ensures Instr(others, m, STORE, 0x15DF) == Done(Flags(m, false, false, m.c, false), 4, [0x01, 0x0A])
  {
    var w := 0x15DF;
    assert (w / 4096) % 16 == 1;
    assert Get16(m, STORE.opr1, false) == Got(m, 0x0A01);
    assert Set16(m, STORE.opr2, 0x0A01) == Done(m, 4, [0x01, 0x0A]);
  }

  lemma DoStore(others: Others, t: seq<int>)
    requires |t| == SIZE && ReadWord(t, 6) == 0x15DF
    ensures Store(Begin(others, Mach(1, 6, true, t), STORE)) == Mach(1, 12, false, Put(t, 4, [0x01, 0x0A]))
  {
    SetPc(1, 6, true, t, 12);
    StoreDone(others, Mach(1, 12, true, t));
  }

  lemma BrDone(others: Others, m: Machine)
    ensures Instr(others, m, BR, 0x01FB) == NoStore(SetR(m, PC, 4))
  {
    var w := 0x01FB;
    assert (w / 4096) % 16 == 0 && (w / 64) % 64 == 7;
  }

  lemma DoBr(others: Others, t: seq<int>)
    requires |t| == SIZE && ReadWord(t, 12) == 0x01FB
    ensures Store(Begin(others, Mach(1, 12, false, t), BR)) == Mach(1, 4, false, t)
  {
    SetPc(1, 12, false, t, 14);
    BrDone(others, Mach(1, 14, false, t));
    SetPc(1, 14, false, t, 4);
    PutNothing(t, 0);
  }

  // ------------------------------------------------------------------- running

  const Start := Mach(0, 0, false, Program())

  /** The machine after n steps, up to the fourth. */
  function After(n: nat): Machine
    requires n <= 4
  {
    if n == 0 then Start
    else if n == 1 then Mach(1, 4, false, Program())
    else if n == 2 then Mach(1, 6, true, Program())
    else if n == 3 then Mach(1, 12, false, Overwritten())
    else Mach(1, 4, false, Overwritten())
  }

  function OpAt(n: nat): OpCode
    requires n < 4
  {
    if n == 0 then MOVE else if n == 1 then Clr(0) else if n == 2 then STORE else BR
  }

  /** What each of these steps decodes and does. */
  lemma EachStep(others: Others, n: nat)
    requires n < 4
    ensures var emu := Pdp11(others);
      emu.decode(After(n).text, After(n).Pc()) == OpAt(n) && emu.exec(After(n), OpAt(n)) == After(n + 1)
  {
    var emu := Pdp11(others);
    Words();
    assert RunsAs(others, emu, After(n), OpAt(n));
    if n == 0 {
      DecodeMove(Program());
      DoMove(others, Program());
    } else if n == 1 {
      DecodeClr(Program(), 0);
      DoClr(others, false, Program(), 0x0A00, 0);
    } else if n == 2 {
      DecodeStore(Program());
      DoStore(others, Program());
    } else {
      DecodeBr(Overwritten());
      DoBr(others, Overwritten());
    }
  }

  lemma {:induction false} FreshFour(others: Others, n: nat)
    requires n <= 4
    ensures Run(Pdp11(others), Start, n) == After(n)
    decreases n
  {
    if n > 0 {
      FreshFour(others, n - 1);
      EachStep(others, n - 1);
    }
  }

  /** Without a cache, the instruction at 4 is then clr r1. */
  lemma {:induction false} FreshClearsR1(others: Others)
    ensures Run(Pdp11(others), Start, 5).r[1] == 0
  {
    var emu := Pdp11(others);
    FreshFour(others, 4);
    Words();
    DecodeClr(Overwritten(), 1);
    DoClr(others, false, Overwritten(), 0x0A01, 1);
    assert RunsAs(others, emu, After(4), Clr(1));
  }

  /** The cache after n steps. */
  function Cache(n: nat): (c: seq<OpCode>)
    requires n <= 4
    ensures |c| == SIZE
  {
    if n == 0 then seq(SIZE, _ => NoOp) else Cache(n - 1)[After(n - 1).Pc() := OpAt(n - 1)]
  }

  lemma {:induction false} NotYet(n: nat)
    requires n < 4
    ensures Cache(n)[After(n).Pc()].Empty() && Cache(4)[4] == Clr(0)
  {
    assert After(0).Pc() == 0 && After(1).Pc() == 4 && After(2).Pc() == 6 && After(3).Pc() == 12;
    assert Cache(1) == Cache(0)[0 := MOVE] && Cache(2) == Cache(1)[4 := Clr(0)];
    assert Cache(3) == Cache(2)[6 := STORE] && Cache(4) == Cache(3)[12 := BR];
  }

  lemma {:induction false} CachedFour(others: Others, n: nat)
    requires n <= 4
    ensures CachedRun(Pdp11(others), Start, n) == Cached(After(n), Cache(n))
    decreases n
  {
    if n > 0 {
      CachedFour(others, n - 1);
      EachStep(others, n - 1);
      NotYet(n - 1);
    }
  }

  /**
    With the cache, r0 is cleared again and r1 is not: the two runs differ, as the
    instruction at 4 is executed again and no longer decodes as it did.
   */
  lemma {:induction false} CachedKeepsR1(others: Others)
    ensures CachedRun(Pdp11(others), Start, 5).m.r[1] == 1
    ensures CachedRun(Pdp11(others), Start, 5).m != Run(Pdp11(others), Start, 5)
    ensures Stable(Pdp11(others), Start, 4) && !Stable(Pdp11(others), Start, 5)
    ensures !StoresMiss(Pdp11(others), Start, 4)
  {
    var emu := Pdp11(others);
    CachedFour(others, 4);
    NotYet(0);
    Words();
    DoClr(others, false, Overwritten(), 0x0A01, 0);
    assert RunsAs(others, emu, After(4), Clr(0));
    FreshClearsR1(others);
    FreshExactly(emu, Start, 5);
    FourStable(others);
    StoreHits(others);
  }

  /** No instruction is executed twice in the first four steps. */
  lemma {:induction false} FourStable(others: Others)
    ensures Stable(Pdp11(others), Start, 4)
  {
    var emu := Pdp11(others);
    forall i, k | 0 <= i < k < 4 ensures Again(emu, Start, i, k) {
      FreshFour(others, i);
      FreshFour(others, k);
    }
  }

  /** The store of the third step hits what the second executed. */
  lemma {:induction false} StoreHits(others: Others)
    ensures !StoresMiss(Pdp11(others), Start, 4)
  {
    var emu := Pdp11(others);
    FreshFour(others, 1);
    FreshFour(others, 2);
    EachStep(others, 2);
    EachStep(others, 1);
    assert RunsAs(others, emu, After(2), STORE);
    assert !StoreMisses(emu, Start, 1, 2);
    assert !StoreMissesAll(emu, Start, 2);
  }
}
