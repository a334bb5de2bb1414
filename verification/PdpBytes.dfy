/**
  Byte instructions of the PDP-11 emulator (get8 and set8 in 7run/PDP11/VM.h, and
  run1 in VM.inst.cpp), swab and sxt, by what the operands' places hold.
 */
module PdpBytes {
  import opened PdpDecode
  import opened PdpMachine
  import opened PdpPlaces
  import opened PdpArithmetic

  /** A byte that can be read and written. */
  predicate HasByte(m: Machine, o: Operand) {
    if o.mode == 0 then 0 <= o.reg < PC else 0 <= o.reg < 8 && Addr(m, o, true).v >= 0
  }

  /** The byte at a place: of a register the lower one. */
  function HeldByte(m: Machine, p: Place): int {
    match p
    case InRegister(k) => Low(R(m, k))
    case InMemory(a) => Read8(m, a)
  }

  lemma {:induction false} GetByteHeld(m: Machine, o: Operand, nomove: bool)
    requires HasByte(m, o)
    ensures 0 <= Get8(m, o, nomove).v == HeldByte(m, PlaceOf(m, o)) < 256
  {
    SameAddress(m, o);
  }

  lemma {:induction false} SetByteRegister(m: Machine, o: Operand, v: int, sx: bool, d: Done)
    requires o.mode == 0 && 0 <= o.reg < PC && SameStore(Set8(m, o, v, sx), d)
    ensures d.bytes == [] && R(Store(d), o.reg) == (if sx then Word(Signed(v)) else R(m, o.reg) / 256 * 256 + Low(v))
  {
    Upper(R(m, o.reg), v);
  }

  lemma Upper(r: int, v: int)
    requires 0 <= r < SIZE
    ensures Word(r - Low(r) + Low(v)) == r / 256 * 256 + Low(v)
    ensures Low(r / 256 * 256 + Low(v)) == Low(v) && Low(Word(Signed(v))) == Low(v)
  {
  }

  lemma {:induction false} SetByteMemory(m: Machine, o: Operand, v: int, sx: bool, d: Done)
    requires HasByte(m, o) && o.mode != 0 && SameStore(Set8(m, o, v, sx), d)
    ensures PlaceOf(m, o) == InMemory(d.at) && d.bytes == [Low(v)] && d.at < SIZE
  {
    SameAddress(m, o);
  }

  lemma {:induction false} ByteStored(d: Done, mem: seq<int>, v: int)
    requires d.bytes == [Low(v)] && d.at < |mem| == SIZE && d.m.Mem() == mem
    ensures HeldByte(Store(d), InMemory(d.at)) == Low(v)
  {
    StoreMem(d);
    assert ByteAt(Put(mem, d.at, d.bytes), d.at) == Low(v);
  }

  /** A byte is put at its place: in a register the upper one stays, or becomes the sign; in memory no other changes. */
  lemma {:induction false} SetByteHeld(m: Machine, o: Operand, v: int, sx: bool, d: Done)
    requires HasByte(m, o) && SameStore(Set8(m, o, v, sx), d)
    ensures HeldByte(Store(d), PlaceOf(m, o)) == Low(v)
    ensures o.mode == 0 ==>
        d.bytes == [] && R(Store(d), o.reg) == if sx then Word(Signed(v)) else R(m, o.reg) / 256 * 256 + Low(v)
    ensures o.mode != 0 ==> d.bytes == [Low(v)] && PlaceOf(m, o) == InMemory(d.at)
  {
    if o.mode == 0 {
      SetByteRegister(m, o, v, sx, d);
      Upper(R(m, o.reg), v);
    } else {
      SetByteMemory(m, o, v, sx, d);
      ByteStored(d, m.Mem(), v);
    }
  }

  // --------------------------------------------------------------- instructions

  lemma {:induction false} MovbSets(m: Machine, op: OpCode, s: Got, x: int, d: Done)
    requires s == Get8(m, op.opr1, false) && x == s.v && 0 <= x < 256 && d == Movb(m, op)
    ensures SameStore(Set8(s.m, op.opr2, x, true), d) && FlagsAre(d, x == 0, x >= 128, m.c, false)
  {
  }

  lemma ByteExtended(x: int)
    requires 0 <= x < 256
    ensures Low(x) == x && Word(Signed(x)) == if x >= 128 then 0xFF00 + x else x
  {
  }

  /** movb: x is the source byte. */
  lemma {:induction false} MovbDoes(m: Machine, op: OpCode, s: Got, x: int, d: Done)
    requires s == Get8(m, op.opr1, false) && x == s.v && 0 <= x < 256 && HasByte(s.m, op.opr2) && d == Movb(m, op)
    ensures HeldByte(Store(d), PlaceOf(s.m, op.opr2)) == x && FlagsAre(d, x == 0, x >= 128, m.c, false)
    ensures op.opr2.mode == 0 ==> R(Store(d), op.opr2.reg) == if x >= 128 then 0xFF00 + x else x
  {
    MovbSets(m, op, s, x, d);
    ByteExtended(x);
    SetByteHeld(s.m, op.opr2, x, true, d);
  }

  predicate IsSignedByte(v: int) {
    -128 <= v < 128
  }

  lemma ByteDifference(x: int, y: int)
    requires 0 <= x < 256 && 0 <= y < 256
    ensures var val := Signed(x) - Signed(y);
      && (Signed(val) == 0 <==> x == y) && (Signed(val) < 0 <==> Low(x - y) >= 128)
      && (val == Signed(val) <==> IsSignedByte(val))
  {
  }

  lemma {:induction false} CmpbSets(m: Machine, op: OpCode, s: Got, x: int, y: int, val: int, d: Done)
    requires s == Get8(m, op.opr1, false) && x == s.v && y == Get8(s.m, op.opr2, false).v && d == Cmpb(m, op)
    requires val == Signed(x) - Signed(y)
    ensures d.bytes == [] && FlagsAre(d, Signed(val) == 0, Signed(val) < 0, x < y, val != Signed(val))
  {
  }

  lemma {:induction false} CmpbDoes(m: Machine, op: OpCode, s: Got, x: int, y: int, d: Done)
    requires s == Get8(m, op.opr1, false) && x == s.v && y == Get8(s.m, op.opr2, false).v && d == Cmpb(m, op)
    requires 0 <= x < 256 && 0 <= y < 256
    ensures d.bytes == [] && FlagsAre(d, x == y, Low(x - y) >= 128, x < y, !IsSignedByte(Signed(x) - Signed(y)))
  {
    CmpbSets(m, op, s, x, y, Signed(x) - Signed(y), d);
    ByteDifference(x, y);
  }

  /** After cmpb x, y: br to ble by the signed bytes, bhi, blos, bcc and bcs by the unsigned ones. */
  lemma {:induction false} ComparedBytes(m: Machine, op: OpCode, s: Got, x: int, y: int, d: Done)
    requires s == Get8(m, op.opr1, false) && x == s.v && y == Get8(s.m, op.opr2, false).v && d == Cmpb(m, op)
    requires 0 <= x < 256 && 0 <= y < 256
    ensures (BranchIf(d.m, 2) <==> x != y) && (BranchIf(d.m, 3) <==> x == y)
    ensures (BranchIf(d.m, 4) <==> Signed(x) >= Signed(y)) && (BranchIf(d.m, 5) <==> Signed(x) < Signed(y))
    ensures (BranchIf(d.m, 6) <==> Signed(x) > Signed(y)) && (BranchIf(d.m, 7) <==> Signed(x) <= Signed(y))
    ensures (BranchFlag(d.m, 2) <==> x > y) && (BranchFlag(d.m, 3) <==> x <= y)
    ensures (BranchFlag(d.m, 6) <==> x >= y) && (BranchFlag(d.m, 7) <==> x < y)
  {
    CmpbDoes(m, op, s, x, y, d);
  }

  /** A signed byte has been made t, which may be more than a byte can hold. */
  predicate ByteBecomes(d: Done, y: int, t: int, carry: bool) {
    y == Low(t) && FlagsAre(d, y == 0, t < 0, carry, !IsSignedByte(t))
  }

  /** From x to y, by the instruction that has the number k. */
  predicate SingleByteDone(m: Machine, d: Done, k: int, x: int, y: int) {
    if k == 40 then y == 0 && FlagsAre(d, true, false, false, false)
    else if k == 42 then ByteBecomes(d, y, Signed(x) + 1, m.c)
    else if k == 43 then ByteBecomes(d, y, Signed(x) - 1, m.c)
    else y == x && FlagsAre(d, x == 0, x >= 128, false, false)
  }

  lemma LowZero(v: int)
    requires -129 <= v <= 128
    ensures v == 0 <==> Low(v) == 0
  {
  }

  lemma {:induction false} SingleByteStores(m: Machine, o: Operand, k: int, x: int, v: int, d: Done)
    requires k == 40 || k == 42 || k == 43
    requires x == Get8(m, o, true).v && d == SingleByte(m, o, k)
    requires v == if k == 40 then 0 else Signed(x) + if k == 42 then 1 else -1
    ensures SameStore(Set8(m, o, v, false), d) && SingleByteDone(m, d, k, x, Low(v))
  {
    LowZero(v);
  }

  /** clrb, incb, decb and tstb. */
  lemma {:induction false} SingleByteDoes(m: Machine, o: Operand, k: int, x: int, d: Done)
    requires k == 40 || k == 42 || k == 43 || k == 47
    requires HasByte(m, o) && x == HeldByte(m, PlaceOf(m, o)) && d == SingleByte(m, o, k)
    ensures k != 47 ==> SingleByteDone(m, d, k, x, HeldByte(Store(d), PlaceOf(m, o)))
    ensures k == 47 ==> d.bytes == [] && SingleByteDone(m, d, k, x, x)
  {
    GetByteHeld(m, o, true);
    GetByteHeld(m, o, false);
    if k != 47 {
      var v := if k == 40 then 0 else Signed(x) + if k == 42 then 1 else -1;
      SingleByteStores(m, o, k, x, v, d);
      SetByteHeld(m, o, v, false, d);
    }
  }

  lemma SwabSets(m: Machine, o: Operand, x: int, v: int, d: Done)
    requires x == Get16(m, o, true).v && d == Swab(m, o) && v == Low(x) * 256 + Low(x / 256)
    ensures SameStore(Set16(m, o, v), d) && FlagsAre(d, v == 0, v >= 0x8000, false, false)
  {
  }

  lemma Swapped(x: int, v: int)
    requires 0 <= x < SIZE && v == Low(x) * 256 + Low(x / 256)
    ensures v == Word(v) && v % 256 == x / 256 && v / 256 == x % 256
  {
  }

  /** swab exchanges the bytes of a word; Z and N are by the whole of it. */
  lemma {:induction false} SwabDoes(m: Machine, o: Operand, x: int, y: int, d: Done)
    requires HasPlace(m, o) && x == Held(m, PlaceOf(m, o)) && d == Swab(m, o) && y == Held(Store(d), PlaceOf(m, o))
    ensures y % 256 == x / 256 && y / 256 == x % 256 && FlagsAre(d, y == 0, y >= 0x8000, false, false)
  {
    var v := Low(x) * 256 + Low(x / 256);
    GetHeld(m, o, true);
    GetIsWord(m, o, true);
    SwabSets(m, o, x, v, d);
    SetHeld(m, o, v, d);
    Swapped(x, v);
  }

  /** sxt fills a word with the sign that N has. */
  lemma {:induction false} SxtDoes(m: Machine, o: Operand, d: Done)
    requires HasPlace(m, o) && d == Sxt(m, o)
    ensures Held(Store(d), PlaceOf(m, o)) == (if m.n then 0xFFFF else 0) && FlagsAre(d, !m.n, m.n, m.c, m.v)
  {
    SetHeld(m, o, if m.n then -1 else 0, d);
  }
}
