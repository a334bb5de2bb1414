/**
  Instructions of the PDP-11 emulator from their word in memory to what they do
  (disasm1 in disasm.cpp and run1 in VM.inst.cpp in 7run/PDP11): where branches go,
  and what they decide after a comparison.
 */
module PdpBranches {
  import opened PdpDecode
  import opened PdpMachine
  import opened PdpPlaces
  import opened PdpArithmetic

  // ------------------------------------------------------------------ what decides

  /** After cmp x, y: br to ble by the signed numbers, bhi, blos, bcc and bcs by the unsigned ones. */
  lemma ComparedBranches(m: Machine, d: Done, x: int, y: int)
    requires 0 <= x < SIZE && 0 <= y < SIZE && DoubleDone(m, d, 2, x, y, y)
    ensures BranchIf(d.m, 1) && (BranchIf(d.m, 2) <==> x != y) && (BranchIf(d.m, 3) <==> x == y)
    ensures BranchIf(d.m, 4) <==> Short(x) >= Short(y)
    ensures BranchIf(d.m, 5) <==> Short(x) < Short(y)
    ensures BranchIf(d.m, 6) <==> Short(x) > Short(y)
    ensures BranchIf(d.m, 7) <==> Short(x) <= Short(y)
    ensures (BranchFlag(d.m, 2) <==> x > y) && (BranchFlag(d.m, 3) <==> x <= y)
    ensures (BranchFlag(d.m, 6) <==> x >= y) && (BranchFlag(d.m, 7) <==> x < y)
  {
    DifferenceIs(x, y);
  }

  /** After add x, y: by the sum of the signed numbers, however large; bcs by that of the unsigned ones. */
  lemma AddedBranches(m: Machine, d: Done, x: int, y: int, y': int)
    requires 0 <= x < SIZE && 0 <= y < SIZE && DoubleDone(m, d, 6, x, y, y')
    ensures BranchIf(d.m, 4) <==> Short(x) + Short(y) >= 0
    ensures BranchIf(d.m, 5) <==> Short(x) + Short(y) < 0
    ensures (BranchFlag(d.m, 7) <==> x + y >= SIZE) && (BranchFlag(d.m, 5) <==> !IsShort(Short(x) + Short(y)))
  {
    SumIs(x, y);
  }

  /** After tst x: by the signed number. */
  lemma TestedBranches(m: Machine, d: Done, x: int)
    requires 0 <= x < SIZE && SingleDone(m, d, 47, x, x)
    ensures (BranchIf(d.m, 3) <==> x == 0) && (BranchIf(d.m, 5) <==> Short(x) < 0)
    ensures (BranchIf(d.m, 6) <==> Short(x) > 0) && (BranchFlag(d.m, 0) <==> Short(x) >= 0)
    ensures (BranchFlag(d.m, 1) <==> Short(x) < 0) && !BranchFlag(d.m, 5) && BranchFlag(d.m, 4)
  {
  }

  // ------------------------------------------------------------ where it goes on

  /** Has the machine room to go on with an instruction of so many bytes? */
  predicate CanGoOn(m: Machine, len: nat) {
    m.Pc() + len <= SIZE && R(m, SP) >= m.brksize
  }

  /** The upper byte of a branch. */
  predicate IsBranch(high: int) {
    1 <= high <= 7 || 0x80 <= high <= 0x87
  }

  predicate Taken(m: Machine, high: int) {
    if high == 1 then true
    else if high == 2 then !m.z
    else if high == 3 then m.z
    else if high == 4 then m.n == m.v
    else if high == 5 then m.n != m.v
    else if high == 6 then !m.z && m.n == m.v
    else if high == 7 then m.z || m.n != m.v
    else if high == 0x80 then !m.n
    else if high == 0x81 then m.n
    else if high == 0x82 then !m.c && !m.z
    else if high == 0x83 then m.c || m.z
    else if high == 0x84 then !m.v
    else if high == 0x85 then m.v
    else if high == 0x86 then !m.c
    else m.c
  }

  lemma Quarters(w: int, high: int, low: int)
    requires w == 256 * high + low && 0 <= low < 256
    ensures w / 64 == 4 * high + low / 64 && 0 <= low / 64 < 4 && w / 4096 == high / 16 && w % 256 == low
  {
  }

  lemma QuarterOf(q: int, high: int, rest: int)
    requires q == 4 * high + rest && 0 <= rest < 4
    ensures q % 64 / 4 == high % 16
  {
  }

  lemma BranchFields(w: int, high: int, low: int)
    requires w == 256 * high + low && 0 <= low < 256 && IsBranch(high)
    ensures w % 256 == low && (w / 64) % 64 / 4 == high % 16 && (w / 64) % 64 < 32
    ensures (w / 4096) % 16 == (if high < 8 then 0 else 8) && (high < 8 ==> (w / 64) % 64 >= 4)
  {
    Quarters(w, high, low);
    QuarterOf(w / 64, high, low / 64);
  }

  lemma {:induction false} BranchDecodes(text: seq<int>, pc: nat, w: int, high: int, low: int)
    requires w == ReadWord(text, pc) == 256 * high + low && 0 <= low < 256 && IsBranch(high)
    ensures Decode(text, pc).len == 2 && Decode(text, pc).opr1.value == pc + 2 + 2 * Signed(low)
  {
    BranchFields(w, high, low);
  }

  lemma {:induction false} BranchDoes(others: Others, m: Machine, op: OpCode, w: int, high: int, low: int)
    requires w == 256 * high + low && 0 <= low < 256 && IsBranch(high)
    ensures Instr(others, m, op, w) == NoStore(if Taken(m, high) then SetR(m, PC, op.opr1.value) else m)
  {
    BranchFields(w, high, low);
  }

  lemma {:induction false} BeginIs(others: Others, m: Machine, op: OpCode, w: int, to: int, m1: Machine)
    requires to == m.Pc() + op.len && CanGoOn(m, op.len) && w == ReadWord(m.text, m.Pc()) && m1 == SetR(m, PC, to)
    ensures Begin(others, m, op) == Instr(others, m1, op, w)
  {
  }

  lemma SetTwice(m: Machine, a: int, b: int)
    ensures SetR(SetR(m, PC, a), PC, b) == SetR(m, PC, b)
  {
    assert m.r[PC := Word(a)][PC := Word(b)] == m.r[PC := Word(b)];
  }

  lemma TakenSame(m: Machine, a: int, high: int)
    ensures Taken(SetR(m, PC, a), high) == Taken(m, high)
  {
  }

  lemma {:induction false} BranchGoes(others: Others, m: Machine, op: OpCode, pc: int, w: int, high: int, low: int,
    to: int)
    requires w == 256 * high + low && 0 <= low < 256 && IsBranch(high) && op.opr1.value == to
    ensures Instr(others, SetR(m, PC, pc), op, w) == NoStore(SetR(m, PC, if Taken(m, high) then to else pc))
  {
    BranchDoes(others, SetR(m, PC, pc), op, w, high, low);
    TakenSame(m, pc, high);
    SetTwice(m, pc, to);
  }

  lemma {:induction false} BranchRuns(others: Others, m: Machine, op: OpCode, w: int, high: int, low: int, to: int)
    requires w == ReadWord(m.text, m.Pc()) == 256 * high + low && 0 <= low < 256 && IsBranch(high)
    requires CanGoOn(m, 2) && op.len == 2 && op.opr1.value == to
    ensures Begin(others, m, op) == NoStore(SetR(m, PC, if Taken(m, high) then to else m.Pc() + 2))
  {
    BeginIs(others, m, op, w, m.Pc() + 2, SetR(m, PC, m.Pc() + 2));
    BranchGoes(others, m, op, m.Pc() + 2, w, high, low, to);
  }

  /** A branch, fetched, decoded and executed: it goes on two bytes further, and by twice its offset if it is taken. */
  lemma {:induction false} BranchExecutes(others: Others, m: Machine, w: int, high: int, low: int, d: Done)
    requires w == ReadWord(m.text, m.Pc()) == 256 * high + low && 0 <= low < 256 && IsBranch(high)
    requires CanGoOn(m, 2) && d == Begin(others, m, Decode(m.text, m.Pc()))
    ensures d == NoStore(SetR(m, PC, if Taken(m, high) then m.Pc() + 2 + 2 * Signed(low) else m.Pc() + 2))
  {
    BranchDecodes(m.text, m.Pc(), w, high, low);
    BranchRuns(others, m, Decode(m.text, m.Pc()), w, high, low, m.Pc() + 2 + 2 * Signed(low));
  }

  // ------------------------------------------------------------------------ sob

  lemma SobFields(w: int, reg: int, low: int)
    requires w == 0x7E00 + 64 * reg + low && 0 <= low < 64 && 0 <= reg < 8
    ensures (w / 4096) % 16 == 7 && (w / 512) % 8 == 7 && (w / 64) % 8 == reg && w % 64 == low
  {
  }

  lemma {:induction false} SobDecodes(text: seq<int>, pc: nat, w: int, reg: int, low: int)
    requires w == ReadWord(text, pc) == 0x7E00 + 64 * reg + low && 0 <= low < 64 && 0 <= reg < 8
    ensures var op := Decode(text, pc); op.len == 2 && op.opr1.reg == reg && op.opr2.value == low
  {
    SobFields(w, reg, low);
  }

  lemma {:induction false} SobInstr(others: Others, m: Machine, op: OpCode, w: int, reg: int, low: int)
    requires w == 0x7E00 + 64 * reg + low && 0 <= low < 64 && 0 <= reg < PC
    ensures Instr(others, m, op, w) == Sob(m, op)
  {
    SobFields(w, reg, low);
  }

  lemma SetOne(m: Machine, reg: int, v: int, m1: Machine)
    requires 0 <= reg < PC && m1 == SetR(m, reg, v)
    ensures R(m1, reg) == Word(v) && forall k :: 0 <= k < 8 && k != reg ==> R(m1, k) == R(m, k)
  {
  }

  lemma {:induction false} SobDoes(m: Machine, op: OpCode, reg: int, low: int, d: Done)
    requires 0 <= low < 64 && 0 <= reg < PC && op.opr1.reg == reg && op.opr2.value == low && d == Sob(m, op)
    ensures d.bytes == [] && R(d.m, reg) == Word(R(m, reg) - 1)
    ensures R(d.m, PC) == Word(R(m, PC) - if R(d.m, reg) == 0 then 0 else 2 * low)
    ensures forall k :: 0 <= k < PC && k != reg ==> R(d.m, k) == R(m, k)
  {
    var less := SetR(m, reg, R(m, reg) - 1);
    SetOne(m, reg, R(m, reg) - 1, less);
    PcSet(less, R(less, PC) - low * 2, SetR(less, PC, R(less, PC) - low * 2));
  }

  lemma {:induction false} SobRuns(others: Others, m: Machine, op: OpCode, w: int, reg: int, low: int, d: Done)
    requires w == ReadWord(m.text, m.Pc()) == 0x7E00 + 64 * reg + low && 0 <= low < 64 && 0 <= reg < PC
    requires CanGoOn(m, 2) && op.len == 2 && op.opr1.reg == reg && op.opr2.value == low && d == Begin(others, m, op)
    ensures d.bytes == [] && R(d.m, reg) == Word(R(m, reg) - 1)
    ensures R(d.m, PC) == Word(m.Pc() + 2 - if R(d.m, reg) == 0 then 0 else 2 * low)
    ensures forall k :: 0 <= k < PC && k != reg ==> R(d.m, k) == R(m, k)
  {
    var m1 := SetR(m, PC, m.Pc() + 2);
    BeginIs(others, m, op, w, m.Pc() + 2, m1);
    SobInstr(others, m1, op, w, reg, low);
    SobDoes(m1, op, reg, low, d);
    PcSet(m, m.Pc() + 2, m1);
    Further(m.Pc() + 2, if R(d.m, reg) == 0 then 0 else 2 * low);
  }

  lemma PcSet(m: Machine, a: int, m1: Machine)
    requires m1 == SetR(m, PC, a)
    ensures R(m1, PC) == Word(a) && forall k :: 0 <= k < PC ==> R(m1, k) == R(m, k)
  {
  }

  lemma Further(a: int, b: int)
    ensures Word(Word(a) - b) == Word(a - b)
  {
  }

  /** sob takes one from a register, and goes back by twice its offset until that is 0. */
  lemma {:induction false} SobExecutes(others: Others, m: Machine, w: int, reg: int, low: int, d: Done)
    requires w == ReadWord(m.text, m.Pc()) == 0x7E00 + 64 * reg + low && 0 <= low < 64 && 0 <= reg < PC
    requires CanGoOn(m, 2) && d == Begin(others, m, Decode(m.text, m.Pc()))
    ensures d.bytes == [] && R(d.m, reg) == Word(R(m, reg) - 1)
    ensures R(d.m, PC) == Word(m.Pc() + 2 - if R(d.m, reg) == 0 then 0 else 2 * low)
    ensures forall k :: 0 <= k < PC && k != reg ==> R(d.m, k) == R(m, k)
  {
    SobDecodes(m.text, m.Pc(), w, reg, low);
    SobRuns(others, m, Decode(m.text, m.Pc()), w, reg, low, d);
  }

  // ------------------------------------------------------ one operand and two

  predicate DoubleOp(op: OpCode, o1: Operand, o2: Operand) {
    op.len == 2 + o1.len + o2.len && op.opr1 == o1 && op.opr2 == o2
  }

  /** The words of an instruction follow each other: the first, those of the source, those of the destination. */
  lemma {:induction false} DoubleDecodes(text: seq<int>, pc: nat, w: int, k: int, o1: Operand, o2: Operand)
    requires w == ReadWord(text, pc) && (w / 4096) % 16 == k && (1 <= k <= 6 || k == 14)
    requires o1 == OperandAt(text, pc + 2, pc + 2, w / 64)
    requires o2 == OperandAt(text, pc + 2 + o1.len, pc + 2 + o1.len, w)
    ensures DoubleOp(Decode(text, pc), o1, o2)
  {
  }

  /** What the words of an operand say, if its register is not the program counter. */
  lemma {:induction false} OperandSays(text: seq<int>, at: nat, modr: int, o: Operand)
    requires o == OperandAt(text, at, at, modr)
    ensures o.mode == (modr / 8) % 8 && o.reg == modr % 8 && o.w
    ensures o.reg != PC ==> o.len == if o.mode >= 6 then 2 else 0
    ensures o.reg != PC && o.mode >= 6 ==> IsShort(o.value) && Word(o.value) == Word(ReadWord(text, at))
  {
    ShortIs(ReadWord(text, at));
  }

  lemma {:induction false} DoubleInstr(others: Others, m: Machine, op: OpCode, w: int, k: int)
    requires (w / 4096) % 16 == k && (1 <= k <= 6 || k == 14)
    ensures Instr(others, m, op, w) == Double(m, op, k)
  {
  }

  lemma {:induction false} DoubleBegins(others: Others, m: Machine, w: int, k: int, op: OpCode, o1: Operand,
    o2: Operand, m1: Machine)
    requires w == ReadWord(m.text, m.Pc()) && (w / 4096) % 16 == k && 1 <= k <= 6 && DoubleOp(op, o1, o2)
    requires CanGoOn(m, 2 + o1.len + o2.len) && m1 == SetR(m, PC, m.Pc() + 2 + o1.len + o2.len)
    ensures Begin(others, m, op) == Double(m1, op, k)
  {
    BeginIs(others, m, op, w, m.Pc() + 2 + o1.len + o2.len, m1);
    DoubleInstr(others, m1, op, w, k);
  }

  lemma {:induction false} DoubleRuns(k: int, op: OpCode, o1: Operand, o2: Operand, m1: Machine, s: Got, p: Place,
    d: Done)
    requires 1 <= k <= 6 && DoubleOp(op, o1, o2) && d == Double(m1, op, k)
    requires s == Get16(m1, o1, false) && HasPlace(s.m, o2) && p == PlaceOf(s.m, o2)
    ensures 0 <= s.v < SIZE && Held(s.m, p) >= 0 && DoubleDone(m1, d, k, s.v, Held(s.m, p), Held(Store(d), p))
  {
    GetIsWord(m1, op.opr1, false);
    DoubleDoes(m1, op, k, s, s.v, Held(s.m, p), d);
  }

  /** mov, cmp, bit, bic, bis and add, from the words in memory: m1 is the machine with the counter behind them. */
  lemma {:induction false} DoubleExecutes(others: Others, m: Machine, w: int, k: int, o1: Operand, o2: Operand,
    m1: Machine, s: Got, p: Place, d: Done)
    requires w == ReadWord(m.text, m.Pc()) && (w / 4096) % 16 == k && 1 <= k <= 6
    requires o1 == OperandAt(m.text, m.Pc() + 2, m.Pc() + 2, w / 64)
    requires o2 == OperandAt(m.text, m.Pc() + 2 + o1.len, m.Pc() + 2 + o1.len, w)
    requires CanGoOn(m, 2 + o1.len + o2.len) && m1 == SetR(m, PC, m.Pc() + 2 + o1.len + o2.len)
    requires s == Get16(m1, o1, false) && HasPlace(s.m, o2) && p == PlaceOf(s.m, o2)
    requires d == Begin(others, m, Decode(m.text, m.Pc()))
    ensures 0 <= s.v < SIZE && Held(s.m, p) >= 0 && DoubleDone(m1, d, k, s.v, Held(s.m, p), Held(Store(d), p))
  {
    DoubleDecodes(m.text, m.Pc(), w, k, o1, o2);
    DoubleBegins(others, m, w, k, Decode(m.text, m.Pc()), o1, o2, m1);
    DoubleRuns(k, Decode(m.text, m.Pc()), o1, o2, m1, s, p, d);
  }

  lemma SingleFields(w: int, k: int)
    requires 0 <= w < SIZE && w / 64 == k && 40 <= k < 48
    ensures (w / 4096) % 16 == 0 && (w / 64) % 64 == k
  {
  }

  lemma {:induction false} SingleDecodes(text: seq<int>, pc: nat, w: int, k: int, o: Operand)
    requires w == ReadWord(text, pc) && 0 <= w < SIZE && w / 64 == k && 40 <= k < 48
    requires o == OperandAt(text, pc + 2, pc + 2, w)
    ensures Decode(text, pc).len == 2 + o.len && Decode(text, pc).opr1 == o
  {
    SingleFields(w, k);
  }

  lemma {:induction false} SingleInstr(others: Others, m: Machine, op: OpCode, w: int, k: int)
    requires 0 <= w < SIZE && w / 64 == k && 40 <= k < 48
    ensures Instr(others, m, op, w) == Single(m, op.opr1, k)
  {
    SingleFields(w, k);
  }

  lemma {:induction false} SingleRuns(others: Others, m: Machine, w: int, k: int, op: OpCode, m1: Machine, p: Place,
    d: Done)
    requires w == ReadWord(m.text, m.Pc()) && 0 <= w < SIZE && w / 64 == k && 40 <= k < 48
    requires CanGoOn(m, op.len) && m1 == SetR(m, PC, m.Pc() + op.len) && d == Begin(others, m, op)
    requires HasPlace(m1, op.opr1) && p == PlaceOf(m1, op.opr1)
    ensures SingleDone(m1, d, k, Held(m1, p), Held(Store(d), p))
  {
    BeginIs(others, m, op, w, m.Pc() + op.len, m1);
    SingleInstr(others, m1, op, w, k);
    SingleDoes(m1, op.opr1, k, Held(m1, p), d);
  }

  /** clr, com, inc, dec, neg, adc, sbc and tst, from the words in memory. */
  lemma {:induction false} SingleExecutes(others: Others, m: Machine, w: int, k: int, o: Operand, m1: Machine, p: Place,
    d: Done)
    requires w == ReadWord(m.text, m.Pc()) && 0 <= w < SIZE && w / 64 == k && 40 <= k < 48
    requires o == OperandAt(m.text, m.Pc() + 2, m.Pc() + 2, w)
    requires CanGoOn(m, 2 + o.len) && m1 == SetR(m, PC, m.Pc() + 2 + o.len)
    requires HasPlace(m1, o) && p == PlaceOf(m1, o) && d == Begin(others, m, Decode(m.text, m.Pc()))
    ensures SingleDone(m1, d, k, Held(m1, p), Held(Store(d), p))
  {
    SingleDecodes(m.text, m.Pc(), w, k, o);
    SingleRuns(others, m, w, k, Decode(m.text, m.Pc()), m1, p, d);
  }
}
