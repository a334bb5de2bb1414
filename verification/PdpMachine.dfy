/**
  What the PDP-11 emulator's instructions do (run1 in 7run/PDP11/VM.inst.cpp,
  addr, get16, set16 and the like in VM.h and VM.cpp). Every instruction changes
  registers and flags, and stores at one place of memory at most.
 */
module PdpMachine {
  import opened PdpDecode

  const SP := 6
  const PC := 7

  /** Without separate data space, data are stored in the text. */
  datatype State = State(r: seq<int>, z: bool, n: bool, c: bool, v: bool, text: seq<int>, data: seq<int>, split: bool,
      brksize: int, exited: bool) {
    predicate Valid() {
      |r| == 8 && |text| == |data| == SIZE && forall i :: 0 <= i < 8 ==> 0 <= r[i] < SIZE
    }

    function Pc(): (pc: nat)
      requires Valid()
      ensures pc < SIZE
    {
      r[PC]
    }

    /** The memory that the instructions read and write. */
    function Mem(): seq<int> {
      if split then data else text
    }
  }

  function Blank(): (s: State)
    ensures s.Valid()
  {
    State(seq(8, _ => 0), false, false, false, false, seq(SIZE, _ => 0), seq(SIZE, _ => 0), false, 0, false)
  }

  type Machine = s: State | s.Valid() witness Blank()

  /** The same memory. */
  predicate MemKept(m: Machine, m': Machine) {
    m'.split == m.split && m'.text == m.text && m'.data == m.data && m'.brksize == m.brksize
  }

  /** The machine before its store: bytes to be stored at `at`. */
  datatype Done = Done(m: Machine, at: nat, bytes: seq<int>)

  datatype Got = Got(m: Machine, v: int)

  // ------------------------------------------------------- numbers, registers

  function Word(v: int): int { v % 0x1_0000 }

  function Low(v: int): int { v % 256 }

  /** int8_t. */
  function Signed(v: int): int {
    if v % 256 >= 128 then v % 256 - 256 else v % 256
  }

  /** Bitwise and of natural numbers. */
  function And(a: nat, b: nat): nat
    decreases a
  {
    if a == 0 || b == 0 then 0 else 2 * And(a / 2, b / 2) + (a % 2) * (b % 2)
  }

  function Natural(v: int): nat {
    if v >= 0 then v else 0
  }

  function R(m: Machine, k: int): (v: int)
    ensures 0 <= v < SIZE
  {
    if 0 <= k < 8 then m.r[k] else 0
  }

  function SetR(m: Machine, k: int, v: int): (m': Machine)
    ensures MemKept(m, m')
  {
    if 0 <= k < 8 then m.(r := m.r[k := Word(v)]) else m
  }

  function Flags(m: Machine, z: bool, n: bool, c: bool, v: bool): (m': Machine)
    ensures MemKept(m, m')
  {
    m.(z := z, n := n, c := c, v := v)
  }

  function Read8(m: Machine, a: int): int { Low(ByteAt(m.Mem(), Word(a))) }

  function Read16(m: Machine, a: int): int { Word(ReadWord(m.Mem(), Word(a))) }

  // ----------------------------------------------------------------- operands

  /** How far an operand moves its register. */
  function Diff(o: Operand): int {
    if o.w || (o.mode != 0 && o.reg >= 6) || o.mode == 3 || o.mode == 5 then 2 else 1
  }

  /** The source's addr: the address of an operand, or -1; registers move unless nomove. */
  function Addr(m: Machine, o: Operand, nomove: bool): (g: Got)
    ensures MemKept(m, g.m)
  {
    if o.reg == PC then
      if o.mode == 3 || o.mode == 6 then Got(m, o.value)
      else if o.mode == 7 then Got(m, Read16(m, o.value))
      else Got(m, -1)
    else
      var inc := if nomove then m else SetR(m, o.reg, R(m, o.reg) + Diff(o));
      var dec := if nomove then m else SetR(m, o.reg, R(m, o.reg) - Diff(o));
      match o.mode
      case 1 => Got(m, R(m, o.reg))
      case 2 => Got(inc, R(m, o.reg))
      case 3 => Got(inc, Read16(m, R(m, o.reg)))
      case 4 => Got(dec, Word(R(m, o.reg) - Diff(o)))
      case 5 => Got(dec, Read16(m, R(m, o.reg) - Diff(o)))
      case 6 => Got(m, Word(R(m, o.reg) + o.value))
      case 7 => Got(m, Read16(m, R(m, o.reg) + o.value))
      case _ => Got(m, -1)
  }

  function Get16(m: Machine, o: Operand, nomove: bool): (g: Got)
    ensures MemKept(m, g.m)
  {
    if o.mode == 0 && o.reg != PC then Got(m, R(m, o.reg))
    else
      var a := Addr(m, o, nomove);
      Got(a.m, if a.v < 0 then Word(o.value) else Read16(a.m, a.v))
  }

  function Get8(m: Machine, o: Operand, nomove: bool): (g: Got)
    ensures MemKept(m, g.m)
  {
    if o.mode == 0 && o.reg != PC then Got(m, Low(R(m, o.reg)))
    else
      var a := Addr(m, o, nomove);
      Got(a.m, if a.v < 0 then Low(o.value) else Read8(a.m, a.v))
  }

  function Set16(m: Machine, o: Operand, v: int): (d: Done)
    ensures MemKept(m, d.m)
  {
    if o.mode == 0 then Done(SetR(m, o.reg, v), 0, [])
    else
      var a := Addr(m, o, false);
      if a.v >= 0 then Done(a.m, Word(a.v), [Low(v), Low(v / 256)]) else Done(a.m, 0, [])
  }

  /** With sx, the value is extended to the whole register. */
  function Set8(m: Machine, o: Operand, v: int, sx: bool): (d: Done)
    ensures MemKept(m, d.m)
  {
    if o.mode == 0 then Done(SetR(m, o.reg, if sx then Signed(v) else R(m, o.reg) - Low(R(m, o.reg)) + Low(v)), 0, [])
    else
      var a := Addr(m, o, false);
      if a.v >= 0 then Done(a.m, Word(a.v), [Low(v)]) else Done(a.m, 0, [])
  }

  function SetFlags(d: Done, z: bool, n: bool, c: bool, v: bool): (d': Done)
    ensures MemKept(d.m, d'.m) && d'.at == d.at && d'.bytes == d.bytes
  {
    d.(m := Flags(d.m, z, n, c, v))
  }

  function NoStore(m: Machine): (d: Done)
    ensures d.m == m && d.bytes == []
  {
    Done(m, 0, [])
  }

  // ------------------------------------------------------------- instructions

  /** clr, com, inc, dec, neg, adc, sbc and tst: k as in the word. */
  function Single(m: Machine, o: Operand, k: int): (d: Done)
    requires 40 <= k < 48
    ensures MemKept(m, d.m)
  {
    if k == 40 then SetFlags(Set16(m, o, 0), true, false, false, false)
    else if k == 47 then
      var g := Get16(m, o, false);
      NoStore(Flags(g.m, g.v == 0, Short(g.v) < 0, false, false))
    else
      var x := Get16(m, o, true).v;
      var c := if m.c then 1 else 0;
      if k == 41 then
        SetFlags(Set16(m, o, -x - 1), -x - 1 == 0, x < 0x8000, true, false)
      else if k == 42 then
        var val := Short(x) + 1;
        SetFlags(Set16(m, o, val), val == 0, val < 0, m.c, val == 0x8000)
      else if k == 43 then
        var val := Short(x) - 1;
        SetFlags(Set16(m, o, val), val == 0, val < 0, m.c, val == -0x8001)
      else if k == 44 then
        var val := -Short(x);
        SetFlags(Set16(m, o, val), val == 0, val < 0, val != 0, val == 0x8000)
      else if k == 45 then
        var val := Short(x) + c;
        SetFlags(Set16(m, o, val), val == 0, val < 0, m.c && val == 0, val == 0x8000)
      else
        var val := Short(x) - c;
        SetFlags(Set16(m, o, val), val == 0, val < 0, m.c && val == -1, val == -0x8001)
  }

  /** mov, cmp, bit, bic, bis and add; and sub, as 14. */
  function Double(m: Machine, op: OpCode, k: int): (d: Done)
    requires 1 <= k <= 6 || k == 14
    ensures MemKept(m, d.m)
  {
    var src := Get16(m, op.opr1, false);
    if k == 1 then SetFlags(Set16(src.m, op.opr2, src.v), src.v == 0, Short(src.v) < 0, m.c, false)
    else if k == 2 then
      var dst := Get16(src.m, op.opr2, false);
      var val := Short(src.v) - Short(dst.v);
      NoStore(Flags(dst.m, Short(val) == 0, Short(val) < 0, src.v < dst.v, val != Short(val)))
    else if k == 3 then
      var dst := Get16(src.m, op.opr2, false);
      var val := And(Natural(src.v), Natural(dst.v));
      NoStore(Flags(dst.m, val == 0, val >= 0x8000, m.c, false))
    else if k == 14 then
      var dst := Get16(src.m, op.opr2, false);
      var val := Short(dst.v) - Short(src.v);
      SetFlags(Set16(dst.m, op.opr2, val), Short(val) == 0, Short(val) < 0, dst.v < src.v, val != Short(val))
    else
      var dst := Get16(src.m, op.opr2, true).v;
      if k == 6 then
        var val := Short(src.v) + Short(dst);
        SetFlags(Set16(src.m, op.opr2, val), Short(val) == 0, Short(val) < 0, src.v
            + dst >= 0x1_0000, val != Short(val))
      else
        var both := And(Natural(src.v), Natural(dst));
        var val := if k == 4 then dst - both else src.v + dst - both;
        SetFlags(Set16(src.m, op.opr2, val), val == 0, val >= 0x8000, m.c, false)
  }

  function Jump(m: Machine, to: int, if_: bool): (d: Done)
    ensures MemKept(m, d.m) && d.bytes == []
  {
    NoStore(if if_ then SetR(m, PC, to) else m)
  }

  /** br to ble. */
  function BranchIf(m: Machine, k: int): bool {
    if k == 1 then true
    else if k == 2 then !m.z
    else if k == 3 then m.z
    else if k == 4 then m.n == m.v
    else if k == 5 then m.n != m.v
    else if k == 6 then !(m.z || m.n != m.v)
    else m.z || m.n != m.v
  }

  /** bpl to bcs. */
  function BranchFlag(m: Machine, k: int): bool {
    if k == 0 then !m.n
    else if k == 1 then m.n
    else if k == 2 then !(m.c || m.z)
    else if k == 3 then m.c || m.z
    else if k == 4 then !m.v
    else if k == 5 then m.v
    else if k == 6 then !m.c
    else m.c
  }

  function Jsr(m: Machine, op: OpCode): (d: Done)
    ensures MemKept(m, d.m)
  {
    var to := Addr(m, op.opr2, false);
    Call(to.m, op.opr1.reg, to.v)
  }

  function Call(m: Machine, reg: int, to: int): (d: Done)
    ensures MemKept(m, d.m)
  {
    var down := SetR(m, SP, R(m, SP) - 2);
    var link := SetR(down, reg, R(down, PC));
    Done(SetR(link, PC, to), R(down, SP), [Low(R(down, reg)), Low(R(down, reg) / 256)])
  }

  function Rts(m: Machine, reg: int): (d: Done)
    ensures MemKept(m, d.m)
  {
    var back := SetR(m, PC, R(m, reg));
    var popped := SetR(back, reg, Read16(back, R(back, SP)));
    NoStore(SetR(popped, SP, R(popped, SP) + 2))
  }

  /** Setting and clearing of flags. */
  function SetClear(m: Machine, w: int): (d: Done)
    ensures MemKept(m, d.m)
  {
    var f := (w / 16) % 2 == 1;
    NoStore(Flags(m, if (w / 4) % 2 == 1 then f else m.z, if (w / 8) % 2 == 1 then f else m.n,
                  if w % 2 == 1 then f else m.c, if (w / 2) % 2 == 1 then f else m.v))
  }

  function Swab(m: Machine, o: Operand): (d: Done)
    ensures MemKept(m, d.m)
  {
    var x := Get16(m, o, true).v;
    var val := Low(x) * 256 + Low(x / 256);
    SetFlags(Set16(m, o, val), val == 0, val >= 0x8000, false, false)
  }

  function Sxt(m: Machine, o: Operand): (d: Done)
    ensures MemKept(m, d.m)
  {
    SetFlags(Set16(m, o, if m.n then -1 else 0), !m.n, m.n, m.c, m.v)
  }

  function Mark(m: Machine, w: int): (d: Done)
    ensures MemKept(m, d.m)
  {
    var up := SetR(m, SP, R(m, SP) + 2 * (w % 64));
    var back := SetR(up, PC, R(up, 5));
    var popped := SetR(back, 5, Read16(back, R(back, SP)));
    NoStore(SetR(popped, SP, R(popped, SP) + 2))
  }

  function Sob(m: Machine, op: OpCode): (d: Done)
    ensures MemKept(m, d.m)
  {
    var less := SetR(m, op.opr1.reg, R(m, op.opr1.reg) - 1);
    Jump(less, R(less, PC) - op.opr2.value * 2, R(less, op.opr1.reg) != 0)
  }

  /** clrb, incb, decb and tstb. */
  function SingleByte(m: Machine, o: Operand, k: int): (d: Done)
    requires k == 40 || k == 42 || k == 43 || k == 47
    ensures MemKept(m, d.m)
  {
    if k == 40 then SetFlags(Set8(m, o, 0, false), true, false, false, false)
    else if k == 47 then
      var g := Get8(m, o, false);
      NoStore(Flags(g.m, g.v == 0, Signed(g.v) < 0, false, false))
    else
      var val := Signed(Get8(m, o, true).v) + if k == 42 then 1 else -1;
      SetFlags(Set8(m, o, val, false), val == 0, val < 0, m.c, if k == 42 then val == 0x80 else val == -0x81)
  }

  function Movb(m: Machine, op: OpCode): (d: Done)
    ensures MemKept(m, d.m)
  {
    var src := Get8(m, op.opr1, false);
    SetFlags(Set8(src.m, op.opr2, src.v, true), src.v == 0, Signed(src.v) < 0, m.c, false)
  }

  function Cmpb(m: Machine, op: OpCode): (d: Done)
    ensures MemKept(m, d.m)
  {
    var src := Get8(m, op.opr1, false);
    var dst := Get8(src.m, op.opr2, false);
    var val := Signed(src.v) - Signed(dst.v);
    NoStore(Flags(dst.m, Signed(val) == 0, Signed(val) < 0, src.v < dst.v, val != Signed(val)))
  }

  /** What is not implemented. */
  function Stop(m: Machine): (d: Done)
    ensures MemKept(m, d.m)
  {
    NoStore(m.(exited := true))
  }

  /** The instructions that are not modelled, the system calls among them: registers, flags, and one store. */
  type Others = o: (Machine, OpCode, int) -> Done | Keeping(o) ghost witness DoNothing

  ghost predicate Keeping(o: (Machine, OpCode, int) -> Done) {
    forall m: Machine, op: OpCode, w: int :: MemKept(m, o(m, op, w).m)
  }

  function DoNothing(m: Machine, op: OpCode, w: int): Done {
    NoStore(m)
  }

  function Other(others: Others, m: Machine, op: OpCode, w: int): (d: Done)
    ensures MemKept(m, d.m)
  {
    assert MemKept(m, others(m, op, w).m);
    others(m, op, w)
  }

  function InstrLow(others: Others, m: Machine, op: OpCode, w: int): (d: Done)
    ensures MemKept(m, d.m)
  {
    var k := (w / 64) % 64;
    if k == 0 then Stop(m)
    else if k == 1 then Jump(Addr(m, op.opr1, false).m, Addr(m, op.opr1, false).v, true)
    else if k == 2 then
      var j := (w / 8) % 8;
      if j == 0 then Rts(m, op.opr1.reg) else if j >= 4 then SetClear(m, w) else Stop(m)
    else if k == 3 then Swab(m, op.opr1)
    else if k < 32 then Jump(m, op.opr1.value, BranchIf(m, k / 4))
    else if k < 40 then Jsr(m, op)
    else if k < 48 then Single(m, op.opr1, k)
    else if k < 52 then Other(others, m, op, w)
    else if k == 52 then Mark(m, w)
    else if k == 55 then Sxt(m, op.opr1)
    else Stop(m)
  }

  function InstrHigh(others: Others, m: Machine, op: OpCode, w: int): (d: Done)
    ensures MemKept(m, d.m)
  {
    var k := (w / 64) % 64;
    if k < 32 then Jump(m, op.opr1.value, BranchFlag(m, k / 4))
    else if k == 40 || k == 42 || k == 43 || k == 47 then SingleByte(m, op.opr1, k)
    else Other(others, m, op, w)
  }

  /** The switch in run1, on the word in memory; the operands are as decoded. */
  function Instr(others: Others, m: Machine, op: OpCode, w: int): (d: Done)
    ensures MemKept(m, d.m)
  {
    var k := (w / 4096) % 16;
    if k == 0 then InstrLow(others, m, op, w)
    else if k <= 6 || k == 14 then Double(m, op, k)
    else if k == 7 && (w / 512) % 8 == 7 then Sob(m, op)
    else if k == 8 then InstrHigh(others, m, op, w)
    else if k == 9 then Movb(m, op)
    else if k == 10 then Cmpb(m, op)
    else Other(others, m, op, w)
  }

  // -------------------------------------------------------------------- store

  /** Memory with the bytes put at `at`; what would lie beyond the end is dropped. */
  function Put(mem: seq<int>, at: nat, bytes: seq<int>): (r: seq<int>)
    ensures |r| == |mem|
    ensures forall i :: 0 <= i < |mem| ==> r[i] == if at <= i < at + |bytes| then bytes[i - at] else mem[i]
  {
    seq(|mem|, i requires 0 <= i < |mem| => if at <= i < at + |bytes| then bytes[i - at] else mem[i])
  }

  function Store(d: Done): (m: Machine)
    ensures d.m.split ==> m.text == d.m.text
    ensures m.split == d.m.split && m.r == d.m.r
  {
    if d.m.split then d.m.(data := Put(d.m.data, d.at, d.bytes)) else d.m.(text := Put(d.m.text, d.at, d.bytes))
  }

  // --------------------------------------------------------------------- run1

  /** run1 once the instruction has been decoded as op, up to its store. */
  function Begin(others: Others, m: Machine, op: OpCode): (d: Done)
    ensures MemKept(m, d.m)
  {
    var pc := m.Pc();
    if pc + op.len > SIZE || m.r[SP] < m.brksize then NoStore(m.(exited := true))
    else Instr(others, SetR(m, PC, pc + op.len), op, ReadWord(m.text, pc))
  }

  // ---------------------------------------------------------- call and return

  lemma {:induction false} WordPut(mem: seq<int>, at: nat, v: int)
    requires at + 1 < |mem| && 0 <= v < SIZE
    ensures Word(ReadWord(Put(mem, at, [Low(v), Low(v / 256)]), at)) == v
  {
  }

  lemma {:induction false} CalledRegisters(m: Machine, reg: int, to: int)
    requires 0 <= reg < 8 && reg != SP
    ensures var d := Call(m, reg, to);
      && R(d.m, SP) == d.at == Word(R(m, SP) - 2) && d.bytes == [Low(R(m, reg)), Low(R(m, reg) / 256)]
      && (reg != PC ==> R(d.m, reg) == R(m, PC))
      && forall k :: 0 <= k < 8 && k != SP && k != PC && k != reg ==> d.m.r[k] == m.r[k]
  {
  }

  lemma {:induction false} ReturnedRegisters(m: Machine, reg: int)
    requires 0 <= reg < 8 && reg != SP
    ensures var m' := Rts(m, reg).m;
      && m'.r[reg] == Read16(m, R(m, SP)) && R(m', SP) == Word(R(m, SP) + 2)
      && (reg != PC ==> R(m', PC) == R(m, reg))
      && forall k :: 0 <= k < 8 && k != SP && k != PC && k != reg ==> m'.r[k] == m.r[k]
  {
  }

  lemma {:induction false} StoreMem(d: Done)
    ensures Store(d).Mem() == Put(d.m.Mem(), d.at, d.bytes)
  {
  }

  /** The saved register is on the stack. */
  lemma {:induction false} Pushed(d: Done, mem: seq<int>, sp: nat, v: int)
    requires d.at == sp && d.bytes == [Low(v), Low(v / 256)] && 0 <= v < SIZE && sp < SIZE - 1 && d.m.Mem() == mem
        && |mem| == SIZE
    ensures Read16(Store(d), sp) == v
  {
    StoreMem(d);
    WordPut(mem, sp, v);
  }

  /** What rts needs of the machine that the subroutine leaves. */
  lemma {:induction false} ReturnsTo(m: Machine, called: Machine, reg: int)
    requires 0 <= reg < 8 && reg != SP && R(called, SP) == Word(R(m, SP) - 2)
    requires Read16(called, R(called, SP)) == R(m, reg) && (reg != PC ==> R(called, reg) == R(m, PC))
    requires forall k :: 0 <= k < 8 && k != SP && k != PC && k != reg ==> called.r[k] == m.r[k]
    ensures Rts(called, reg).m.r == m.r
  {
    ReturnedRegisters(called, reg);
    SameRegisters(m.r, Rts(called, reg).m.r);
  }

  /**
    rts undoes jsr: all registers are as they were once the operand had been
    evaluated, unless the stack pointer is 1.
   */
  lemma {:induction false} CallReturns(m: Machine, reg: int, to: int)
    requires 0 <= reg < 8 && reg != SP && R(m, SP) != 1
    ensures Rts(Store(Call(m, reg, to)), reg).m.r == m.r
  {
    var d := Call(m, reg, to);
    CalledRegisters(m, reg, to);
    Pushed(d, m.Mem(), Word(R(m, SP) - 2), R(m, reg));
    ReturnsTo(m, Store(d), reg);
  }

  lemma {:induction false} SameRegisters(a: seq<int>, b: seq<int>)
    requires |a| == |b| == 8 && a[SP] == b[SP] && a[PC] == b[PC]
        && forall k :: 0 <= k < 8 && k != SP && k != PC ==> a[k] == b[k]
    ensures a == b
  {
  }
}
