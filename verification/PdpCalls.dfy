/**
  Jumps, calls and returns of the PDP-11 emulator, and the instructions that set and
  clear flags, from their word in memory (disasm.cpp and VM.inst.cpp in 7run/PDP11).
 */
module PdpCalls {
  import opened PdpDecode
  import opened PdpMachine
  import opened PdpBranches

  // --------------------------------------------------------------------- fields

  lemma SixBits(w: int, k: int)
    requires 0 <= w < SIZE && w / 64 == k && 0 <= k < 64
    ensures (w / 4096) % 16 == 0 && (w / 64) % 64 == k
  {
  }

  // ------------------------------------------------------------------------ jmp

  lemma {:induction false} JmpDecodes(text: seq<int>, pc: nat, w: int, o: Operand)
    requires w == ReadWord(text, pc) && 0 <= w < SIZE && w / 64 == 1 && o == OperandAt(text, pc + 2, pc + 2, w)
    ensures Decode(text, pc).len == 2 + o.len && Decode(text, pc).opr1 == o
  {
    SixBits(w, 1);
  }

  lemma {:induction false} JmpInstr(others: Others, m: Machine, op: OpCode, w: int)
    requires 0 <= w < SIZE && w / 64 == 1
    ensures Instr(others, m, op, w) == Jump(Addr(m, op.opr1, false).m, Addr(m, op.opr1, false).v, true)
  {
    SixBits(w, 1);
  }

  lemma {:induction false} JmpRuns(others: Others, m: Machine, w: int, op: OpCode, o: Operand, m1: Machine)
    requires w == ReadWord(m.text, m.Pc()) && 0 <= w < SIZE && w / 64 == 1 && op.len == 2 + o.len && op.opr1 == o
    requires CanGoOn(m, 2 + o.len) && m1 == SetR(m, PC, m.Pc() + 2 + o.len)
    ensures Begin(others, m, op) == Jump(Addr(m1, o, false).m, Addr(m1, o, false).v, true)
  {
    BeginIs(others, m, op, w, m.Pc() + 2 + o.len, m1);
    JmpInstr(others, m1, op, w);
  }

  /** jmp goes on at the address of its operand. */
  lemma {:induction false} JmpExecutes(others: Others, m: Machine, w: int, o: Operand, m1: Machine, to: Got, d: Done)
    requires w == ReadWord(m.text, m.Pc()) && 0 <= w < SIZE && w / 64 == 1
    requires o == OperandAt(m.text, m.Pc() + 2, m.Pc() + 2, w)
    requires CanGoOn(m, 2 + o.len) && m1 == SetR(m, PC, m.Pc() + 2 + o.len) && to == Addr(m1, o, false)
    requires d == Begin(others, m, Decode(m.text, m.Pc()))
    ensures d.bytes == [] && R(d.m, PC) == Word(to.v) && forall k :: 0 <= k < PC ==> R(d.m, k) == R(to.m, k)
  {
    JmpDecodes(m.text, m.Pc(), w, o);
    JmpRuns(others, m, w, Decode(m.text, m.Pc()), o, m1);
    PcSet(to.m, to.v, SetR(to.m, PC, to.v));
  }

  // ------------------------------------------------------------------------ jsr

  lemma JsrFields(w: int, reg: int)
    requires 0 <= w < SIZE && w / 512 == 4 && reg == (w / 64) % 8
    ensures (w / 4096) % 16 == 0 && (w / 64) % 64 == 32 + reg
  {
  }

  lemma {:induction false} JsrDecodes(text: seq<int>, pc: nat, w: int, reg: int, o: Operand)
    requires w == ReadWord(text, pc) && 0 <= w < SIZE && w / 512 == 4 && reg == (w / 64) % 8
    requires o == OperandAt(text, pc + 2, pc + 2, w)
    ensures var op := Decode(text, pc); op.len == 2 + o.len && op.opr1.reg == reg && op.opr2 == o
  {
    JsrFields(w, reg);
  }

  lemma {:induction false} JsrInstr(others: Others, m: Machine, op: OpCode, w: int, reg: int)
    requires 0 <= w < SIZE && w / 512 == 4 && reg == (w / 64) % 8
    ensures Instr(others, m, op, w) == Jsr(m, op)
  {
    JsrFields(w, reg);
  }

  lemma {:induction false} JsrRuns(others: Others, m: Machine, w: int, reg: int, op: OpCode, o: Operand, m1: Machine,
    to: Got)
    requires w == ReadWord(m.text, m.Pc()) && 0 <= w < SIZE && w / 512 == 4 && reg == (w / 64) % 8
    requires op.len == 2 + o.len && op.opr1.reg == reg && op.opr2 == o
    requires CanGoOn(m, 2 + o.len) && m1 == SetR(m, PC, m.Pc() + 2 + o.len) && to == Addr(m1, o, false)
    ensures Begin(others, m, op) == Call(to.m, reg, to.v)
  {
    BeginIs(others, m, op, w, m.Pc() + 2 + o.len, m1);
    JsrInstr(others, m1, op, w, reg);
  }

  lemma {:induction false} CallGoes(m: Machine, reg: int, to: int)
    requires 0 <= reg < 8 && reg != SP
    ensures R(Call(m, reg, to).m, PC) == Word(to)
  {
  }

  /**
    jsr goes on at the address of its operand; what was after it is in the link
    register, whose old value is on the stack.
   */
  lemma {:induction false} JsrExecutes(others: Others, m: Machine, w: int, reg: int, o: Operand, m1: Machine, to: Got,
    d: Done)
    requires w == ReadWord(m.text, m.Pc()) && 0 <= w < SIZE && w / 512 == 4 && reg == (w / 64) % 8 && reg != SP
    requires o == OperandAt(m.text, m.Pc() + 2, m.Pc() + 2, w)
    requires CanGoOn(m, 2 + o.len) && m1 == SetR(m, PC, m.Pc() + 2 + o.len) && to == Addr(m1, o, false)
    requires d == Begin(others, m, Decode(m.text, m.Pc()))
    ensures R(d.m, PC) == Word(to.v) && (reg != PC ==> R(d.m, reg) == R(to.m, PC))
    ensures R(d.m, SP) == d.at == Word(R(to.m, SP) - 2) && d.bytes == [Low(R(to.m, reg)), Low(R(to.m, reg) / 256)]
    ensures forall k :: 0 <= k < PC && k != SP && k != reg ==> R(d.m, k) == R(to.m, k)
  {
    JsrDecodes(m.text, m.Pc(), w, reg, o);
    JsrRuns(others, m, w, reg, Decode(m.text, m.Pc()), o, m1, to);
    CalledRegisters(to.m, reg, to.v);
    CallGoes(to.m, reg, to.v);
  }

  // ----------------------------------------------------------------- rts and mark

  lemma RtsFields(w: int, reg: int)
    requires w == 0x80 + reg && 0 <= reg < 8
    ensures (w / 4096) % 16 == 0 && (w / 64) % 64 == 2 && (w / 8) % 8 == 0 && w % 8 == reg
  {
  }

  lemma {:induction false} RtsDecodes(text: seq<int>, pc: nat, w: int, reg: int)
    requires w == ReadWord(text, pc) == 0x80 + reg && 0 <= reg < 8
    ensures Decode(text, pc).len == 2 && Decode(text, pc).opr1.reg == reg
  {
    RtsFields(w, reg);
  }

  lemma {:induction false} RtsRuns(others: Others, m: Machine, w: int, reg: int, op: OpCode, m1: Machine)
    requires w == ReadWord(m.text, m.Pc()) == 0x80 + reg && 0 <= reg < 8 && op.len == 2 && op.opr1.reg == reg
    requires CanGoOn(m, 2) && m1 == SetR(m, PC, m.Pc() + 2)
    ensures Begin(others, m, op) == Rts(m1, reg)
  {
    RtsFields(w, reg);
    BeginIs(others, m, op, w, m.Pc() + 2, m1);
  }

  lemma SameReads(m: Machine, a: int, m1: Machine, at: int)
    requires m1 == SetR(m, PC, a)
    ensures Read16(m1, at) == Read16(m, at)
  {
  }

  lemma {:induction false} RtsDoes(m: Machine, m1: Machine, a: int, reg: int, d: Done)
    requires 0 <= reg < PC && reg != SP && m1 == SetR(m, PC, a) && d == Rts(m1, reg)
    ensures R(d.m, PC) == R(m, reg) && R(d.m, reg) == Read16(m, R(m, SP)) && R(d.m, SP) == Word(R(m, SP) + 2)
    ensures forall k :: 0 <= k < PC && k != SP && k != reg ==> R(d.m, k) == R(m, k)
  {
    ReturnedRegisters(m1, reg);
    PcSet(m, a, m1);
    SameReads(m, a, m1, R(m, SP));
  }

  /** rts goes on where the link register says, which gets its value from the stack. */
  lemma {:induction false} RtsExecutes(others: Others, m: Machine, w: int, reg: int, d: Done)
    requires w == ReadWord(m.text, m.Pc()) == 0x80 + reg && 0 <= reg < PC && reg != SP
    requires CanGoOn(m, 2) && d == Begin(others, m, Decode(m.text, m.Pc()))
    ensures R(d.m, PC) == R(m, reg) && R(d.m, reg) == Read16(m, R(m, SP)) && R(d.m, SP) == Word(R(m, SP) + 2)
    ensures forall k :: 0 <= k < PC && k != SP && k != reg ==> R(d.m, k) == R(m, k)
  {
    var m1 := SetR(m, PC, m.Pc() + 2);
    RtsDecodes(m.text, m.Pc(), w, reg);
    RtsRuns(others, m, w, reg, Decode(m.text, m.Pc()), m1);
    RtsDoes(m, m1, m.Pc() + 2, reg, d);
  }

  lemma MarkFields(w: int, n: int)
    requires w == 0xD00 + n && 0 <= n < 64
    ensures (w / 4096) % 16 == 0 && (w / 64) % 64 == 52 && w % 64 == n
  {
  }

  lemma {:induction false} MarkDecodes(text: seq<int>, pc: nat, w: int, n: int)
    requires w == ReadWord(text, pc) == 0xD00 + n && 0 <= n < 64
    ensures Decode(text, pc).len == 2
  {
    MarkFields(w, n);
  }

  lemma {:induction false} MarkRuns(others: Others, m: Machine, w: int, n: int, op: OpCode, m1: Machine)
    requires w == ReadWord(m.text, m.Pc()) == 0xD00 + n && 0 <= n < 64 && op.len == 2
    requires CanGoOn(m, 2) && m1 == SetR(m, PC, m.Pc() + 2)
    ensures Begin(others, m, op) == Mark(m1, w)
  {
    MarkFields(w, n);
    BeginIs(others, m, op, w, m.Pc() + 2, m1);
  }

  lemma {:induction false} MarkDoes(m: Machine, w: int, n: int, sp: int, d: Done)
    requires w == 0xD00 + n && 0 <= n < 64 && sp == Word(R(m, SP) + 2 * n) && d == Mark(m, w)
    ensures d.bytes == [] && R(d.m, PC) == R(m, 5) && R(d.m, 5) == Read16(m, sp) && R(d.m, SP) == Word(sp + 2)
    ensures forall k :: 0 <= k < 5 ==> R(d.m, k) == R(m, k)
  {
    MarkFields(w, n);
  }

  /** mark takes n words off the stack, goes on where r5 says, and gets r5 from the stack. */
  lemma {:induction false} MarkExecutes(others: Others, m: Machine, w: int, n: int, sp: int, d: Done)
    requires w == ReadWord(m.text, m.Pc()) == 0xD00 + n && 0 <= n < 64 && sp == Word(R(m, SP) + 2 * n)
    requires CanGoOn(m, 2) && d == Begin(others, m, Decode(m.text, m.Pc()))
    ensures d.bytes == [] && R(d.m, PC) == R(m, 5) && R(d.m, 5) == Read16(m, sp) && R(d.m, SP) == Word(sp + 2)
    ensures forall k :: 0 <= k < 5 ==> R(d.m, k) == R(m, k)
  {
    var m1 := SetR(m, PC, m.Pc() + 2);
    MarkDecodes(m.text, m.Pc(), w, n);
    MarkRuns(others, m, w, n, Decode(m.text, m.Pc()), m1);
    MarkDoes(m1, w, n, sp, d);
    PcSet(m, m.Pc() + 2, m1);
  }

  // ------------------------------------------------------------------ the flags

  /** nop, cl* and se*: bits for N, Z, V and C, after 0xA0 to clear them and after 0xB0 to set them. */
  predicate IsCode(w: int, set_: bool, n: bool, z: bool, v: bool, c: bool) {
    var bits := (if n then 8 else 0) + (if z then 4 else 0) + (if v then 2 else 0) + if c then 1 else 0;
    w == bits + if set_ then 0xB0 else 0xA0
  }

  lemma CodeFields(w: int, set_: bool, n: bool, z: bool, v: bool, c: bool)
    requires IsCode(w, set_, n, z, v, c)
    ensures (w / 4096) % 16 == 0 && (w / 64) % 64 == 2 && 4 <= (w / 8) % 8 < 8
    ensures ((w / 16) % 2 == 1 <==> set_) && (w % 2 == 1 <==> c) && ((w / 2) % 2 == 1 <==> v)
    ensures ((w / 4) % 2 == 1 <==> z) && ((w / 8) % 2 == 1 <==> n)
  {
  }

  lemma {:induction false} CodeDecodes(text: seq<int>, pc: nat, w: int, set_: bool, n: bool, z: bool, v: bool, c: bool)
    requires w == ReadWord(text, pc) && IsCode(w, set_, n, z, v, c)
    ensures Decode(text, pc).len == 2
  {
    CodeFields(w, set_, n, z, v, c);
  }

  lemma {:induction false} CodeRuns(others: Others, m: Machine, w: int, op: OpCode, m1: Machine, set_: bool, n: bool,
    z: bool, v: bool, c: bool)
    requires w == ReadWord(m.text, m.Pc()) && IsCode(w, set_, n, z, v, c) && op.len == 2
    requires CanGoOn(m, 2) && m1 == SetR(m, PC, m.Pc() + 2)
    ensures Begin(others, m, op) == SetClear(m1, w)
  {
    CodeFields(w, set_, n, z, v, c);
    BeginIs(others, m, op, w, m.Pc() + 2, m1);
  }

  /** Exactly the flags whose bits are there are set or cleared. */
  lemma {:induction false} CodeExecutes(others: Others, m: Machine, w: int, set_: bool, n: bool, z: bool, v: bool,
    c: bool, d: Done)
    requires w == ReadWord(m.text, m.Pc()) && IsCode(w, set_, n, z, v, c)
    requires CanGoOn(m, 2) && d == Begin(others, m, Decode(m.text, m.Pc()))
    ensures d.bytes == []
    ensures d.m.n == (if n then set_ else m.n) && d.m.z == if z then set_ else m.z
    ensures d.m.v == (if v then set_ else m.v) && d.m.c == if c then set_ else m.c
    ensures d.m.r == SetR(m, PC, m.Pc() + 2).r
  {
    CodeDecodes(m.text, m.Pc(), w, set_, n, z, v, c);
    CodeRuns(others, m, w, Decode(m.text, m.Pc()), SetR(m, PC, m.Pc() + 2), set_, n, z, v, c);
    CodeFields(w, set_, n, z, v, c);
  }
}
