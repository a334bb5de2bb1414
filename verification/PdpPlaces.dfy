/**
  Operands of the PDP-11 emulator (Operand.cpp, VM.h and addr in VM.cpp in
  7run/PDP11) as the machine's own rule has them: an operand is a register or a
  place in memory, the program counter is a register like the others.
 */
module PdpPlaces {
  import opened PdpDecode
  import opened PdpMachine

  // -------------------------------------------------------------------- the rule

  /** The address of an operand, and what its register is afterwards. */
  datatype Found = Found(at: int, reg: int)

  /** The modes but the first, for a register r, the index word x and operands of `size` bytes. */
  function Rule(m: Machine, mode: int, r: int, x: int, size: int): Found {
    match mode
    case 1 => Found(r, r)
    case 2 => Found(r, Word(r + size))
    case 3 => Found(Read16(m, r), Word(r + 2))
    case 4 => Found(Word(r - size), Word(r - size))
    case 5 => Found(Read16(m, r - 2), Word(r - 2))
    case 6 => Found(Word(r + x), r)
    case _ => Found(Read16(m, r + x), r)
  }

  /** Words, and what the stack and program counters point to, have two bytes. */
  function SizeOf(o: Operand): int {
    if o.w || o.reg >= SP then 2 else 1
  }

  /** The index word, if the operand has one. */
  function IndexOf(o: Operand): int {
    if o.mode >= 6 then o.value else 0
  }

  predicate ByRule(m: Machine, o: Operand)
    requires 0 <= o.reg < PC
  {
    var g, f := Addr(m, o, false), Rule(m, o.mode, R(m, o.reg), IndexOf(o), SizeOf(o));
    g.v == f.at && g.m.r == m.r[o.reg := f.reg] && Addr(m, o, true) == Got(m, f.at)
  }

  lemma {:induction false} MovingByRule(m: Machine, o: Operand)
    requires 0 <= o.reg < PC && 2 <= o.mode <= 5
    ensures ByRule(m, o)
  {
  }

  lemma {:induction false} StillByRule(m: Machine, o: Operand)
    requires 0 <= o.reg < PC && (o.mode == 1 || o.mode == 6 || o.mode == 7)
    ensures ByRule(m, o)
  {
    assert m.r[o.reg := R(m, o.reg)] == m.r;
  }

  /** By the rule, for every register but the program counter. */
  lemma {:induction false} AddrByRule(m: Machine, o: Operand)
    requires 0 <= o.reg < PC && 1 <= o.mode <= 7
    ensures var g, f := Addr(m, o, false), Rule(m, o.mode, R(m, o.reg), IndexOf(o), SizeOf(o));
      g.v == f.at && g.m.r == m.r[o.reg := f.reg] && Addr(m, o, true) == Got(m, f.at)
  {
    if 2 <= o.mode <= 5 { MovingByRule(m, o); } else { StillByRule(m, o); }
  }

  /** How far the program counter is, when an operand has been read that begins at pc. */
  function After(mode: int, pc: int): int {
    if mode >= 6 then pc + 2 else pc
  }

  predicate BytesOnly(text: seq<int>) {
    forall i :: 0 <= i < |text| ==> 0 <= text[i] < 256
  }

  /** The operand as it is made for a mode on the program counter, from the word that stands there. */
  lemma {:induction false} PcOperand(text: seq<int>, pc: nat, modr: int, mode: int)
    requires modr % 8 == PC && (modr / 8) % 8 == mode
    ensures var o, x := OperandAt(text, pc, pc, modr), ReadWord(text, pc);
      && o.reg == PC && o.mode == mode
      && (mode == 0 ==> o.value == pc) && (1 <= mode <= 3 ==> o.value == x)
      && (mode >= 6 ==> o.value == Word(pc + 2 + x))
  {
  }

  /** What an operand on the program counter gives, as the rule has it, by the word x at pc. */
  predicate GivesByRule(m: Machine, pc: nat, o: Operand, x: int, nomove: bool) {
    var g := Get16(m, o, nomove);
    && g.m == m
    && (o.mode == 0 ==> g.v == Word(pc))
    && (1 <= o.mode <= 3 || 6 <= o.mode <= 7 ==> g.v == Read16(m, Rule(m, o.mode, After(o.mode, pc), x, 2).at))
  }

  lemma {:induction false} PcNear(m: Machine, pc: nat, o: Operand, x: int, nomove: bool)
    requires o.reg == PC && 1 <= o.mode <= 3 && o.value == x && 0 <= x < SIZE && pc < SIZE && x == ReadWord(m.Mem(), pc)
    ensures GivesByRule(m, pc, o, x, nomove)
  {
    if o.mode == 3 { assert Read16(m, pc) == x; }
  }

  lemma {:induction false} PcFar(m: Machine, pc: nat, o: Operand, x: int, nomove: bool)
    requires o.reg == PC && (o.mode == 0 || 4 <= o.mode <= 7)
    requires (o.mode == 0 ==> o.value == pc) && (o.mode >= 6 ==> o.value == Word(pc + 2 + x))
    ensures GivesByRule(m, pc, o, x, nomove)
  {
  }

  /**
    An operand on the program counter is made from the text where it stands; what it
    gives is what the rule gives, with the counter after the words that are read, but
    for the modes 4 and 5, which are not there.
   */
  lemma {:induction false} PcByRule(m: Machine, pc: nat, modr: int, nomove: bool)
    requires m.Mem() == m.text && BytesOnly(m.text) && pc + 1 < SIZE && modr % 8 == PC
    ensures var o := OperandAt(m.text, pc, pc, modr);
      o.reg == PC && o.mode == (modr / 8) % 8 && GivesByRule(m, pc, o, ReadWord(m.text, pc), nomove)
  {
    var o, x, mode := OperandAt(m.text, pc, pc, modr), ReadWord(m.text, pc), (modr / 8) % 8;
    PcOperand(m.text, pc, modr, mode);
    if 1 <= mode <= 3 { PcNear(m, pc, o, x, nomove); } else { PcFar(m, pc, o, x, nomove); }
  }

  // ------------------------------------------------------------------ the places

  datatype Place = InRegister(k: int) | InMemory(a: int)

  function PlaceOf(m: Machine, o: Operand): Place {
    if o.mode == 0 then InRegister(o.reg) else InMemory(Word(Addr(m, o, true).v))
  }

  /** A word that can be read and written. */
  predicate HasPlace(m: Machine, o: Operand) {
    if o.mode == 0 then 0 <= o.reg < PC
    else 0 <= o.reg < 8 && Addr(m, o, true).v >= 0 && Word(Addr(m, o, true).v) + 1 < SIZE
  }

  function Held(m: Machine, p: Place): int {
    match p
    case InRegister(k) => R(m, k)
    case InMemory(a) => Read16(m, a)
  }

  lemma {:induction false} SameAddress(m: Machine, o: Operand)
    ensures Addr(m, o, true) == Got(m, Addr(m, o, false).v)
  {
  }

  /** Reading an operand gives what its place holds. */
  lemma {:induction false} GetHeld(m: Machine, o: Operand, nomove: bool)
    requires HasPlace(m, o)
    ensures Get16(m, o, nomove).v == Held(m, PlaceOf(m, o)) == Held(Get16(m, o, true).m, PlaceOf(m, o))
  {
    SameAddress(m, o);
  }

  lemma {:induction false} PutWord(mem: seq<int>, a: nat, v: int)
    requires a + 1 < |mem|
    ensures Word(ReadWord(Put(mem, a, [Low(v), Low(v / 256)]), a)) == Word(v)
  {
    var r := Put(mem, a, [Low(v), Low(v / 256)]);
    assert ByteAt(r, a) == Low(v) && ByteAt(r, a + 1) == Low(v / 256);
    Bytes2(v);
  }

  lemma Bytes2(v: int)
    ensures Low(v) + 256 * Low(v / 256) == Word(v)
  {
  }

  /** After writing a register, it holds the value. */
  lemma {:induction false} SetRegister(m: Machine, o: Operand, v: int, d: Done)
    requires o.mode == 0 && 0 <= o.reg < PC && d.bytes == [] && d.m.r == m.r[o.reg := Word(v)]
    ensures Held(Store(d), InRegister(o.reg)) == Word(v)
  {
  }

  lemma {:induction false} SetMemory(d: Done, mem: seq<int>, a: nat, v: int)
    requires d.at == a && d.bytes == [Low(v), Low(v / 256)] && a + 1 < |mem| == SIZE && d.m.Mem() == mem
    ensures Held(Store(d), InMemory(a)) == Word(v)
  {
    PutWord(mem, a, v);
    StoreMem(d);
  }

  /** The same store, whatever the flags. */
  predicate SameStore(d: Done, d': Done) {
    d.bytes == d'.bytes && d.at == d'.at && d.m.r == d'.m.r && MemKept(d.m, d'.m)
  }

  lemma {:induction false} SetIsRegister(m: Machine, o: Operand, v: int, s: Done)
    requires o.mode == 0 && 0 <= o.reg < PC && s == Set16(m, o, v)
    ensures s.bytes == [] && s.m.r == m.r[o.reg := Word(v)]
  {
  }

  lemma {:induction false} AddrRegisters(m: Machine, o: Operand)
    requires 0 <= o.reg < 8
    ensures forall k :: 0 <= k < 8 && k != o.reg ==> Addr(m, o, false).m.r[k] == m.r[k]
  {
  }

  lemma {:induction false} SetIsMemory(m: Machine, o: Operand, v: int, s: Done)
    requires HasPlace(m, o) && o.mode != 0 && s == Set16(m, o, v)
    ensures s.bytes == [Low(v), Low(v / 256)] && PlaceOf(m, o) == InMemory(s.at) && s.at + 1 < SIZE
    ensures forall k :: 0 <= k < 8 && k != o.reg ==> s.m.r[k] == m.r[k]
  {
    SameAddress(m, o);
    AddrRegisters(m, o);
  }

  /** After writing, the place holds the value, and nothing else in memory or among the registers is written. */
  lemma {:induction false} SetHeld(m: Machine, o: Operand, v: int, d: Done)
    requires HasPlace(m, o) && SameStore(Set16(m, o, v), d)
    ensures Held(Store(d), PlaceOf(m, o)) == Word(v)
    ensures d.bytes != [] ==> d.bytes == [Low(v), Low(v / 256)] && PlaceOf(m, o) == InMemory(d.at)
    ensures forall k :: 0 <= k < 8 && k != o.reg ==> Store(d).r[k] == m.r[k]
  {
    if o.mode == 0 {
      SetIsRegister(m, o, v, Set16(m, o, v));
      SetRegister(m, o, v, d);
    } else {
      SetIsMemory(m, o, v, Set16(m, o, v));
      SetMemory(d, m.Mem(), d.at, v);
    }
  }
}
