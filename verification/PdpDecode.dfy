/** The PDP-11 emulator's decoder (disasm.cpp and Operand.cpp in 7run/PDP11). */
module PdpDecode {
  const SIZE := 0x1_0000

  /** Modes 8 and 9 are immediate values and addresses; an empty operand has length -1. */
  datatype Operand = Operand(len: int, mode: int, reg: int, value: int, w: bool)

  datatype OpCode = OpCode(len: nat, mne: string, opr1: Operand, opr2: Operand) {
    predicate Empty() { len == 0 }
  }

  const NoOperand := Operand(-1, 0, 0, 0, true)
  const NoOp := OpCode(0, "", NoOperand, NoOperand)
  const UndefOp := OpCode(2, "(undefined)", NoOperand, NoOperand)

  function Reg(r: int): Operand { Operand(0, 0, r % 8, 0, true) }

  function Imm(v: int): Operand { Operand(0, 8, 7, v, true) }

  function Address(v: int): Operand { Operand(0, 9, 7, v, true) }

  function Op(len: nat, mne: string): OpCode { OpCode(len, mne, NoOperand, NoOperand) }

  // ------------------------------------------------------------------ decoding

  /** The byte at a; there is nothing beyond the end. */
  function ByteAt(text: seq<int>, a: nat): int {
    if a < |text| then text[a] else 0
  }

  function ReadWord(text: seq<int>, a: nat): int {
    ByteAt(text, a) + 256 * ByteAt(text, a + 1)
  }

  function Short(v: int): int {
    if v % 0x1_0000 >= 0x8000 then v % 0x1_0000 - 0x1_0000 else v % 0x1_0000
  }

  /** The constructor of an operand from its word, if it has one, at mem. */
  function OperandAt(text: seq<int>, mem: nat, pc: int, modr: int): (r: Operand)
    ensures r.len == 0 || r.len == 2
  {
    var mode, reg := (modr / 8) % 8, modr % 8;
    if reg == 7 && mode == 0 then Operand(0, mode, reg, pc, true)
    else if reg == 7 && mode == 1 then Operand(0, mode, reg, ReadWord(text, mem), true)
    else if reg == 7 && (mode == 2 || mode == 3) then Operand(2, mode, reg, ReadWord(text, mem), true)
    else if reg == 7 && mode >= 6 then Operand(2, mode, reg, (pc + 2 + ReadWord(text, mem)) % 0x1_0000, true)
    else if mode < 6 then Operand(0, mode, reg, 0, true)
    else Operand(2, mode, reg, Short(ReadWord(text, mem)), true)
  }

  function SrcDst(text: seq<int>, addr: nat, w: int, mne: string): OpCode {
    var opr1 := OperandAt(text, addr + 2, addr + 2, w / 64);
    var offset := 2 + opr1.len;
    var opr2 := OperandAt(text, addr + offset, addr + offset, w);
    OpCode(offset + opr2.len, mne, opr1, opr2)
  }

  function ModR(text: seq<int>, addr: nat, w: int, mne: string): OpCode {
    var opr := OperandAt(text, addr + 2, addr + 2, w);
    OpCode(2 + opr.len, mne, opr, NoOperand)
  }

  function RDst(text: seq<int>, addr: nat, w: int, mne: string): OpCode {
    var opr := OperandAt(text, addr + 2, addr + 2, w);
    OpCode(2 + opr.len, mne, Reg(w / 64), opr)
  }

  function SrcR(text: seq<int>, addr: nat, w: int, mne: string): OpCode {
    var opr := OperandAt(text, addr + 2, addr + 2, w);
    OpCode(2 + opr.len, mne, opr, Reg(w / 64))
  }

  function Branch(addr: nat, w: int, mne: string): OpCode {
    var d := w % 256;
    OpCode(2, mne, Address(addr + 2 + (if d >= 128 then d - 256 else d) * 2), NoOperand)
  }

  function Bytes(op: OpCode): OpCode {
    op.(opr1 := op.opr1.(w := false), opr2 := op.opr2.(w := false))
  }

  function Byte1(op: OpCode): OpCode {
    op.(opr1 := op.opr1.(w := false))
  }

  const CONTROL := ["halt", "wait", "rti", "bpt", "iot", "reset", "rtt"]
  const CLEARS := ["nop", "clc", "clv", "clvc", "clz", "clzc", "clzv", "clzvc", "cln", "clnc", "clnv", "clnvc",
      "clnz", "clnzc", "clnzv", "ccc"]
  const SETS := ["", "sec", "sev", "sevc", "sez", "sezc", "sezv", "sezvc", "sen", "senc", "senv", "senvc", "senz",
      "senzc", "senzv", "scc"]
  const SINGLES := ["clr", "com", "inc", "dec", "neg", "adc", "sbc", "tst", "ror", "rol", "asr", "asl"]
  const BRANCHES := ["", "br", "bne", "beq", "bge", "blt", "bgt", "ble"]
  const FLAGBRANCHES := ["bpl", "bmi", "bhi", "blos", "bvc", "bvs", "bcc", "bcs"]
  const DOUBLES := ["", "mov", "cmp", "bit", "bic", "bis"]

  /** Words below 010000 (octal): control, branches and single operands. */
  function DecodeLow(text: seq<int>, addr: nat, w: int): OpCode {
    var k := (w / 64) % 64;
    if k == 0 then (if w % 64 < 7 then Op(2, CONTROL[w % 64]) else UndefOp)
    else if k == 1 then ModR(text, addr, w, "jmp")
    else if k == 2 then
      var j := (w / 8) % 8;
      if j == 0 then OpCode(2, "rts", Reg(w % 8), NoOperand)
      else if j == 3 then OpCode(2, "spl", Imm(w % 8), NoOperand)
      else if j == 4 || j == 5 then Op(2, CLEARS[w % 16])
      else if (j == 6 || j == 7) && w % 16 != 0 then Op(2, SETS[w % 16])
      else UndefOp
    else if k == 3 then ModR(text, addr, w, "swab")
    else if k < 32 then Branch(addr, w, BRANCHES[k / 4])
    else if k < 40 then RDst(text, addr, w, "jsr")
    else if k < 52 then ModR(text, addr, w, SINGLES[k - 40])
    else if k == 52 then OpCode(2, "mark", Imm(w % 64), NoOperand)
    else if k == 53 then ModR(text, addr, w, "mfpi")
    else if k == 54 then ModR(text, addr, w, "mtpi")
    else if k == 55 then ModR(text, addr, w, "sxt")
    else UndefOp
  }

  function DecodeExtended(text: seq<int>, addr: nat, w: int): OpCode {
    var k := (w / 512) % 8;
    if k == 0 then SrcR(text, addr, w, "mul")
    else if k == 1 then SrcR(text, addr, w, "div")
    else if k == 2 then SrcR(text, addr, w, "ash")
    else if k == 3 then SrcR(text, addr, w, "ashc")
    else if k == 4 then RDst(text, addr, w, "xor")
    else if k == 7 then OpCode(2, "sob", Reg(w / 64), Imm(w % 64))
    else UndefOp
  }

  function DecodeHigh(text: seq<int>, addr: nat, w: int): OpCode {
    var k := (w / 64) % 64;
    if k < 32 then Branch(addr, w, FLAGBRANCHES[k / 4])
    else if k < 36 then OpCode(2, "emt", Imm(w % 256), NoOperand)
    else if k < 40 then OpCode(2, "sys", Imm(w % 256), NoOperand)
    else if k < 52 then Byte1(ModR(text, addr, w, SINGLES[k - 40] + "b"))
    else if k == 53 then ModR(text, addr, w, "mfpd")
    else if k == 54 then ModR(text, addr, w, "mtpd")
    else UndefOp
  }

  /** The source's disasm1. */
  function Decode(text: seq<int>, addr: nat): (op: OpCode)
    ensures 2 <= op.len <= 6
  {
    var w := ReadWord(text, addr);
    var k := (w / 4096) % 16;
    if k == 0 then DecodeLow(text, addr, w)
    else if k <= 5 then SrcDst(text, addr, w, DOUBLES[k])
    else if k == 6 then SrcDst(text, addr, w, "add")
    else if k == 7 then DecodeExtended(text, addr, w)
    else if k == 8 then DecodeHigh(text, addr, w)
    else if k <= 13 then Bytes(SrcDst(text, addr, w, DOUBLES[k - 8] + "b"))
    else if k == 14 then SrcDst(text, addr, w, "sub")
    else if w == 0xf009 then Op(2, "setd")
    else UndefOp
  }

  // ----------------------------------------------------------------- locality

  /** The same n bytes from a on. */
  predicate SameOn(t: seq<int>, t': seq<int>, a: nat, n: nat) {
    forall i :: a <= i < a + n ==> ByteAt(t, i) == ByteAt(t', i)
  }

  /** Has this operand been made from the word at its place? One of mode 1 on the pc has, though it takes no room. */
  predicate Reads(o: Operand) {
    o.len == 2 || (o.reg == 7 && o.mode == 1)
  }

  /** How many bytes the decoder has looked at. */
  function Extent(op: OpCode): (n: nat)
    ensures 2 <= n
  {
    var before := if op.opr1.len > 0 then op.opr1.len else 0;
    if Reads(op.opr2) then 2 + before + 2 else if Reads(op.opr1) then 4 else 2
  }

  lemma SameWord(t: seq<int>, t': seq<int>, a: nat, n: nat, k: nat)
    requires SameOn(t, t', a, n) && k + 2 <= n
    ensures ReadWord(t, a + k) == ReadWord(t', a + k)
  {
    assert ByteAt(t, a + k) == ByteAt(t', a + k) && ByteAt(t, a + k + 1) == ByteAt(t', a + k + 1);
  }

  lemma OperandLocal(t: seq<int>, t': seq<int>, mem: nat, pc: int, modr: int)
    requires Reads(OperandAt(t, mem, pc, modr)) ==> ReadWord(t, mem) == ReadWord(t', mem)
    ensures OperandAt(t, mem, pc, modr) == OperandAt(t', mem, pc, modr)
  {
  }

  lemma SrcDstLocal(t: seq<int>, t': seq<int>, a: nat, w: int, mne: string)
    requires SameOn(t, t', a, Extent(SrcDst(t, a, w, mne)))
    ensures SrcDst(t, a, w, mne) == SrcDst(t', a, w, mne)
  {
    var op := SrcDst(t, a, w, mne);
    var offset := 2 + op.opr1.len;
    if Reads(op.opr1) { SameWord(t, t', a, Extent(op), 2); }
    OperandLocal(t, t', a + 2, a + 2, w / 64);
    if Reads(op.opr2) { SameWord(t, t', a, Extent(op), offset); }
    OperandLocal(t, t', a + offset, a + offset, w);
  }

  /** The same for what has one operand that is made from memory; extent 4 if it is. */
  lemma OneOperandLocal(t: seq<int>, t': seq<int>, a: nat, w: int, op: OpCode)
    requires op.opr1 == OperandAt(t, a + 2, a + 2, w) || (op.opr2 == OperandAt(t, a + 2, a + 2, w) && op.opr1.len == 0)
    requires SameOn(t, t', a, Extent(op))
    ensures OperandAt(t, a + 2, a + 2, w) == OperandAt(t', a + 2, a + 2, w)
  {
    if Reads(OperandAt(t, a + 2, a + 2, w)) { SameWord(t, t', a, Extent(op), 2); }
    OperandLocal(t, t', a + 2, a + 2, w);
  }

  lemma LowLocal(t: seq<int>, t': seq<int>, a: nat, w: int)
    requires SameOn(t, t', a, Extent(DecodeLow(t, a, w)))
    ensures DecodeLow(t, a, w) == DecodeLow(t', a, w)
  {
    var k := (w / 64) % 64;
    if k == 1 || k == 3 || 32 <= k < 52 || 53 <= k < 56 { OneOperandLocal(t, t', a, w, DecodeLow(t, a, w)); }
  }

  lemma ExtendedLocal(t: seq<int>, t': seq<int>, a: nat, w: int)
    requires SameOn(t, t', a, Extent(DecodeExtended(t, a, w)))
    ensures DecodeExtended(t, a, w) == DecodeExtended(t', a, w)
  {
    if (w / 512) % 8 < 5 { OneOperandLocal(t, t', a, w, DecodeExtended(t, a, w)); }
  }

  lemma HighLocal(t: seq<int>, t': seq<int>, a: nat, w: int)
    requires SameOn(t, t', a, Extent(DecodeHigh(t, a, w)))
    ensures DecodeHigh(t, a, w) == DecodeHigh(t', a, w)
  {
    var k := (w / 64) % 64;
    if 40 <= k < 52 {
      OneOperandLocal(t, t', a, w, ModR(t, a, w, SINGLES[k - 40] + "b"));
    } else if k == 53 || k == 54 {
      OneOperandLocal(t, t', a, w, DecodeHigh(t, a, w));
    }
  }

  /** What is decoded depends on no more than the bytes that the decoder has looked at. */
  lemma DecodeLocal(t: seq<int>, t': seq<int>, a: nat)
    requires SameOn(t, t', a, Extent(Decode(t, a)))
    ensures Decode(t, a) == Decode(t', a)
  {
    SameWord(t, t', a, Extent(Decode(t, a)), 0);
    var w := ReadWord(t, a);
    var k := (w / 4096) % 16;
    if k == 0 { LowLocal(t, t', a, w); }
    else if k <= 5 { SrcDstLocal(t, t', a, w, DOUBLES[k]); }
    else if k == 6 { SrcDstLocal(t, t', a, w, "add"); }
    else if k == 7 { ExtendedLocal(t, t', a, w); }
    else if k == 8 { HighLocal(t, t', a, w); }
    else if k <= 13 { SrcDstLocal(t, t', a, w, DOUBLES[k - 8] + "b"); }
    else if k == 14 { SrcDstLocal(t, t', a, w, "sub"); }
  }

  /** The room of an operand. */
  function Room(o: Operand): nat {
    if o.len > 0 then o.len else 0
  }

  /** An instruction is as long as its word and the words of its operands. */
  predicate WellMade(op: OpCode) {
    && (op.opr1.len == 2 || Room(op.opr1) == 0) && (op.opr2.len == 2 || Room(op.opr2) == 0)
    && op.len == 2 + Room(op.opr1) + Room(op.opr2)
  }

  lemma LowWellMade(text: seq<int>, addr: nat, w: int)
    ensures WellMade(DecodeLow(text, addr, w))
  {
  }

  lemma HighWellMade(text: seq<int>, addr: nat, w: int)
    ensures WellMade(DecodeHigh(text, addr, w)) && WellMade(DecodeExtended(text, addr, w))
  {
  }

  lemma SrcDstWellMade(text: seq<int>, addr: nat, w: int, mne: string)
    ensures WellMade(SrcDst(text, addr, w, mne)) && WellMade(Bytes(SrcDst(text, addr, w, mne)))
  {
  }

  lemma DecodeWellMade(text: seq<int>, addr: nat)
    ensures WellMade(Decode(text, addr))
  {
    var w := ReadWord(text, addr);
    var k := (w / 4096) % 16;
    LowWellMade(text, addr, w);
    HighWellMade(text, addr, w);
    if 1 <= k <= 5 { SrcDstWellMade(text, addr, w, DOUBLES[k]); }
    if 9 <= k <= 13 { SrcDstWellMade(text, addr, w, DOUBLES[k - 8] + "b"); }
    SrcDstWellMade(text, addr, w, "add");
    SrcDstWellMade(text, addr, w, "sub");
  }

  /** An operand of mode 1 on the pc is read without taking room. */
  predicate ReadsBeyond(o: Operand) {
    o.reg == 7 && o.mode == 1 && o.len != 2
  }

  /** The decoder looks at the instruction, and at the word after it exactly for an operand of mode 1 on the pc. */
  lemma ExtentIs(text: seq<int>, addr: nat)
    ensures var op := Decode(text, addr);
      Extent(op) == op.len
        + if ReadsBeyond(op.opr2) || (ReadsBeyond(op.opr1) && Room(op.opr2) == 0) then 2 else 0
  {
    DecodeWellMade(text, addr);
  }
}
