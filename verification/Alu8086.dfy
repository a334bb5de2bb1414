/**
  Adding and subtracting numbers of many bytes or words with the 8086 emulator
  (7run/i8086: the add, adc, sub and sbb cases of VM.inst.cpp, Operand.h, VM.h).
 */
module Alu8086 {
  /** One more than the largest operand of a byte or a word instruction. */
  function Range(w: bool): (r: int)
    ensures r == 0x100 || r == 0x1_0000
  {
    if w then 0x1_0000 else 0x100
  }

  /** What uint16_t or uint8_t keeps of a value. */
  function Unsigned(v: int, w: bool): (u: int)
    ensures 0 <= u < Range(w)
  {
    if w then v % 0x1_0000 else v % 0x100
  }

  /** What int16_t or int8_t makes of a value. */
  function Signed(v: int, w: bool): (s: int)
  {
    var u := Unsigned(v, w);
    if u >= Range(w) / 2 then u - Range(w) else u
  }

  /** A value that is not far away is wrapped by adding or subtracting the range. */
  function Near(v: int, range: int): int {
    if v < -range then v + 2 * range else if v < 0 then v + range else if v < range then v else v - range
  }

  lemma UnsignedNear(v: int, w: bool)
    requires -2 * Range(w) <= v < 2 * Range(w)
    ensures Unsigned(v, w) == Near(v, Range(w))
  {
    if w { NearWord(v); } else { NearByte(v); }
  }

  lemma NearWord(v: int)
    requires -0x2_0000 <= v < 0x2_0000
    ensures v % 0x1_0000 == Near(v, 0x1_0000)
  {
  }

  lemma NearByte(v: int)
    requires -0x200 <= v < 0x200
    ensures v % 0x100 == Near(v, 0x100)
  {
  }

  /** The signed reading of a wrapped value. */
  function SignedOf(u: int, range: int): int {
    if 2 * u >= range then u - range else u
  }

  lemma SignedIs(v: int, w: bool)
    requires -2 * Range(w) <= v < 2 * Range(w)
    ensures Signed(v, w) == SignedOf(Near(v, Range(w)), Range(w))
  {
    UnsignedNear(v, w);
  }

  lemma LowDigit(u: int, w: bool)
    requires IsOperand(u, w)
    ensures Signed(u, w) % 16 == u % 16
  {
    SignedIs(u, w);
    if w { Digit16(u); } else { Digit8(u); }
  }

  lemma Digit16(u: int)
    ensures (u - 0x1_0000) % 16 == u % 16
  {
  }

  lemma Digit8(u: int)
    ensures (u - 0x100) % 16 == u % 16
  {
  }

  /** The carry formulas, for a range and a carry that comes in. */
  lemma AddFacts(range: int, a: int, b: int, c: bool)
    requires range == 0x100 || range == 0x1_0000
    requires 0 <= a < range && 0 <= b < range
    ensures var src := SignedOf(b, range);
      var val := SignedOf(a, range) + src + Bit(c);
      var r := Near(val, range);
      && -2 * range <= val < 2 * range
      && r + (if a > r || (c && src + 1 == 0) then range else 0) == a + b + Bit(c)
      && (val != SignedOf(r, range)) == (SignedOf(r, range) != SignedOf(a, range) + SignedOf(b, range) + Bit(c))
  {
  }

  lemma SubFacts(range: int, a: int, b: int, c: bool)
    requires range == 0x100 || range == 0x1_0000
    requires 0 <= a < range && 0 <= b < range
    ensures var src := SignedOf(b, range);
      var val := SignedOf(a, range) - src - Bit(c);
      var r := Near(val, range);
      && -2 * range <= val < 2 * range
      && r - (if a < Near(src + Bit(c), range) || (c && src + 1 == 0) then range else 0) == a - b - Bit(c)
  {
  }

  predicate IsOperand(u: int, w: bool) {
    0 <= u < Range(w)
  }

  function Bit(c: bool): int {
    if c then 1 else 0
  }

  lemma SumFacts(a: int, b: int, c: bool, w: bool)
    requires IsOperand(a, w) && IsOperand(b, w)
    ensures var val := Signed(a, w) + Signed(b, w) + Bit(c);
      var r := Unsigned(val, w);
      && r + (if a > r || (c && Signed(b, w) + 1 == 0) then Range(w) else 0) == a + b + Bit(c)
      && Signed(r, w) == Signed(val, w)
    ensures Signed(a, w) % 16 == a % 16 && Signed(b, w) % 16 == b % 16
  {
    var val := Signed(a, w) + Signed(b, w) + Bit(c);
    SignedIs(a, w);
    SignedIs(b, w);
    AddFacts(Range(w), a, b, c);
    UnsignedNear(val, w);
    SignedIs(val, w);
    SignedIs(Near(val, Range(w)), w);
    LowDigit(a, w);
    LowDigit(b, w);
  }

  lemma DifferenceFacts(a: int, b: int, c: bool, w: bool)
    requires IsOperand(a, w) && IsOperand(b, w)
    ensures var val := Signed(a, w) - Signed(b, w) - Bit(c);
      var r := Unsigned(val, w);
      && r - (if a < Unsigned(Signed(b, w) + Bit(c), w) || (c && Signed(b, w) + 1 == 0) then Range(w) else 0)
          == a - b - Bit(c)
      && Signed(r, w) == Signed(val, w)
    ensures Signed(a, w) % 16 == a % 16 && Signed(b, w) % 16 == b % 16
  {
    var val := Signed(a, w) - Signed(b, w) - Bit(c);
    SignedIs(a, w);
    SignedIs(b, w);
    SubFacts(Range(w), a, b, c);
    UnsignedNear(val, w);
    UnsignedNear(Signed(b, w) + Bit(c), w);
    SignedIs(val, w);
    SignedIs(Near(val, Range(w)), w);
    LowDigit(a, w);
    LowDigit(b, w);
  }

  /** The flags of the emulator; the operands are passed and the result is given back. */
  class Cpu {
    var OF: bool
    var SF: bool
    var ZF: bool
    var AF: bool
    var CF: bool

    constructor ()
    {
      OF, SF, ZF, AF, CF := false, false, false, false, false;
    }

    /** setf8 and setf16, and the operand's assignment. */
    method SetF(val: int, w: bool) returns (r: int)
      modifies this
      ensures r == Unsigned(val, w) && CF == old(CF) && AF == old(AF)
      ensures OF == (val != Signed(val, w)) && SF == (Signed(val, w) < 0) && ZF == (r == 0)
    {
      OF := val != Signed(val, w);
      SF := Signed(val, w) < 0;
      ZF := Signed(val, w) == 0;
      r := Unsigned(val, w);
    }

    method Add(opr1: int, opr2: int, w: bool) returns (r: int)
      requires IsOperand(opr1, w) && IsOperand(opr2, w)
      modifies this
      ensures IsOperand(r, w) && r + (if CF then Range(w) else 0) == opr1 + opr2
      ensures OF == (Signed(r, w) != Signed(opr1, w) + Signed(opr2, w))
      ensures AF == (opr1 % 16 + opr2 % 16 > 15)
    {
      var dst, src := Signed(opr1, w), Signed(opr2, w);
      var val := dst + src;
      SumFacts(opr1, opr2, false, w);
      AF := dst % 16 + src % 16 > 15;
      CF := opr1 > Unsigned(val, w);
      r := SetF(val, w);
    }

    method Adc(opr1: int, opr2: int, w: bool) returns (r: int)
      requires IsOperand(opr1, w) && IsOperand(opr2, w)
      modifies this
      ensures IsOperand(r, w) && r + (if CF then Range(w) else 0) == opr1 + opr2 + Bit(old(CF))
      ensures OF == (Signed(r, w) != Signed(opr1, w) + Signed(opr2, w) + Bit(old(CF)))
      ensures AF == (opr1 % 16 + opr2 % 16 + Bit(old(CF)) > 15)
    {
      var dst, src := Signed(opr1, w), Signed(opr2, w);
      var val := dst + src + Bit(CF);
      SumFacts(opr1, opr2, CF, w);
      AF := dst % 16 + src % 16 + Bit(CF) > 15;
      CF := opr1 > Unsigned(val, w) || (CF && src + 1 == 0);
      r := SetF(val, w);
    }

    method Sub(opr1: int, opr2: int, w: bool) returns (r: int)
      requires IsOperand(opr1, w) && IsOperand(opr2, w)
      modifies this
      ensures IsOperand(r, w) && r - (if CF then Range(w) else 0) == opr1 - opr2
      ensures OF == (Signed(r, w) != Signed(opr1, w) - Signed(opr2, w))
      ensures AF == (opr1 % 16 < opr2 % 16)
    {
      var dst, src := Signed(opr1, w), Signed(opr2, w);
      var val := dst - src;
      DifferenceFacts(opr1, opr2, false, w);
      AF := dst % 16 - src % 16 < 0;
      CF := opr1 < Unsigned(src, w);
      r := SetF(val, w);
    }

    method Sbb(opr1: int, opr2: int, w: bool) returns (r: int)
      requires IsOperand(opr1, w) && IsOperand(opr2, w)
      modifies this
      ensures IsOperand(r, w) && r - (if CF then Range(w) else 0) == opr1 - opr2 - Bit(old(CF))
      ensures OF == (Signed(r, w) != Signed(opr1, w) - Signed(opr2, w) - Bit(old(CF)))
      ensures AF == (opr1 % 16 - opr2 % 16 - Bit(old(CF)) < 0)
    {
      var dst, src := Signed(opr1, w), Signed(opr2, w);
      var val := dst - src - Bit(CF);
      DifferenceFacts(opr1, opr2, CF, w);
      AF := dst % 16 - src % 16 - Bit(CF) < 0;
      CF := opr1 < Unsigned(src + Bit(CF), w) || (CF && src + 1 == 0);
      r := SetF(val, w);
    }

    /** ADD on the lowest part and ADC on the others, in place. */
    method AddNumber(x: array<int>, y: seq<int>, w: bool)
      requires 0 < |y| == x.Length && AllOperands(x[..], w) && AllOperands(y, w)
      modifies this, x
      ensures AllOperands(x[..], w)
      ensures Value(x[..], w) + Carried(CF, x.Length, w) == Value(old(x[..]), w) + Value(y, w)
      ensures !OF <==> SignedValue(x[..], w) == SignedValue(old(x[..]), w) + SignedValue(y, w)
    {
      ghost var was := x[..];
      var i := 0;
      while i < x.Length
        invariant 0 <= i <= x.Length && Summed(x[..], was, y, i, CF, OF, w)
      {
        ghost var before, c := x[..], i > 0 && CF;
        assert before[i] == was[i];
        var r;
        if i == 0 { r := Add(x[i], y[i], w); } else { r := Adc(x[i], y[i], w); }
        x[i] := r;
        assert x[..] == before[i := r];
        SumNext(before, was, y, i, c, r, CF, OF, w);
        i := i + 1;
      }
      assert x[..] == x[..i] && was == was[..i] && y == y[..i];
    }

    /** SUB on the lowest part and SBB on the others, in place. */
    method SubNumber(x: array<int>, y: seq<int>, w: bool)
      requires 0 < |y| == x.Length && AllOperands(x[..], w) && AllOperands(y, w)
      modifies this, x
      ensures AllOperands(x[..], w)
      ensures Value(x[..], w) - Carried(CF, x.Length, w) == Value(old(x[..]), w) - Value(y, w)
      ensures !OF <==> SignedValue(x[..], w) == SignedValue(old(x[..]), w) - SignedValue(y, w)
    {
      ghost var was := x[..];
      var i := 0;
      while i < x.Length
        invariant 0 <= i <= x.Length && Subtracted(x[..], was, y, i, CF, OF, w)
      {
        ghost var before, c := x[..], i > 0 && CF;
        assert before[i] == was[i];
        var r;
        if i == 0 { r := Sub(x[i], y[i], w); } else { r := Sbb(x[i], y[i], w); }
        x[i] := r;
        assert x[..] == before[i := r];
        DifferenceNext(before, was, y, i, c, r, CF, OF, w);
        i := i + 1;
      }
      assert x[..] == x[..i] && was == was[..i] && y == y[..i];
    }
  }

  // ------------------------------------------------------- numbers of many parts

  predicate AllOperands(s: seq<int>, w: bool) {
    forall i :: 0 <= i < |s| ==> IsOperand(s[i], w)
  }

  /** v times the k-th power of the range. */
  function Scale(v: int, k: nat, w: bool): int {
    if k == 0 then v else if w then 0x1_0000 * Scale(v, k - 1, w) else 0x100 * Scale(v, k - 1, w)
  }

  /** The number that the parts stand for, the lowest part first. */
  function Value(s: seq<int>, w: bool): int {
    if |s| == 0 then 0 else Value(s[..|s| - 1], w) + Scale(s[|s| - 1], |s| - 1, w)
  }

  /** The same with a sign in the last part. */
  function SignedValue(s: seq<int>, w: bool): int {
    if |s| == 0 then 0 else Value(s[..|s| - 1], w) + Scale(Signed(s[|s| - 1], w), |s| - 1, w)
  }

  /** A carry out of n parts. */
  function Carried(c: bool, n: nat, w: bool): int {
    if c then Scale(1, n, w) else 0
  }

  lemma {:induction false} ScaleAdd(a: int, b: int, k: nat, w: bool)
    ensures Scale(a + b, k, w) == Scale(a, k, w) + Scale(b, k, w)
    ensures Scale(a - b, k, w) == Scale(a, k, w) - Scale(b, k, w)
    decreases k
  {
    if k > 0 { ScaleAdd(a, b, k - 1, w); }
  }

  lemma {:induction false} ScaleRange(k: nat, w: bool)
    ensures Scale(Range(w), k, w) == Scale(1, k + 1, w) && Scale(0, k, w) == 0
    decreases k
  {
    if k > 0 { ScaleRange(k - 1, w); }
  }

  lemma {:induction false} ScaleZero(v: int, k: nat, w: bool)
    ensures Scale(v, k, w) == 0 <==> v == 0
    decreases k
  {
    if k > 0 { ScaleZero(v, k - 1, w); }
  }

  lemma ScaleSame(a: int, b: int, k: nat, w: bool)
    ensures Scale(a, k, w) == Scale(b, k, w) <==> a == b
  {
    ScaleAdd(a, b, k, w);
    ScaleZero(a - b, k, w);
  }

  /** The first i parts have been replaced by operands, the others not yet. */
  ghost predicate Halfway(x: seq<int>, was: seq<int>, i: nat, w: bool) {
    |x| == |was| && AllOperands(x, w) && forall j :: i <= j < |x| ==> x[j] == was[j]
  }

  /** What the first i instructions of an addition have done. */
  ghost predicate Summed(x: seq<int>, was: seq<int>, y: seq<int>, i: nat, c: bool, o: bool, w: bool) {
    && i <= |was| == |y| && Halfway(x, was, i, w)
    && Value(x[..i], w) + Carried(i > 0 && c, i, w) == Value(was[..i], w) + Value(y[..i], w)
    && (i > 0 ==> (!o <==> SignedValue(x[..i], w) == SignedValue(was[..i], w) + SignedValue(y[..i], w)))
  }

  ghost predicate Subtracted(x: seq<int>, was: seq<int>, y: seq<int>, i: nat, c: bool, o: bool, w: bool) {
    && i <= |was| == |y| && Halfway(x, was, i, w)
    && Value(x[..i], w) - Carried(i > 0 && c, i, w) == Value(was[..i], w) - Value(y[..i], w)
    && (i > 0 ==> (!o <==> SignedValue(x[..i], w) == SignedValue(was[..i], w) - SignedValue(y[..i], w)))
  }

  lemma ValueNext(s: seq<int>, i: nat, w: bool)
    requires i < |s|
    ensures Value(s[..i + 1], w) == Value(s[..i], w) + Scale(s[i], i, w)
    ensures SignedValue(s[..i + 1], w) == Value(s[..i], w) + Scale(Signed(s[i], w), i, w)
  {
    assert s[..i + 1][..i] == s[..i];
  }

  lemma {:induction false} ScaleSum(a: int, b: int, d: int, k: nat, w: bool)
    ensures Scale(a + b + d, k, w) == Scale(a, k, w) + Scale(b, k, w) + Scale(d, k, w)
    decreases k
  {
    if k > 0 { ScaleSum(a, b, d, k - 1, w); }
  }

  lemma {:induction false} ScaleDifference(a: int, b: int, d: int, k: nat, w: bool)
    ensures Scale(a - b - d, k, w) == Scale(a, k, w) - Scale(b, k, w) - Scale(d, k, w)
    decreases k
  {
    if k > 0 { ScaleDifference(a, b, d, k - 1, w); }
  }

  lemma CarriedIn(c: bool, i: nat, w: bool)
    ensures Scale(Bit(c), i, w) == Carried(c, i, w)
  {
    if !c { ScaleRange(i, w); }
  }

  lemma CarriedOut(r: int, c': bool, i: nat, w: bool)
    ensures Scale(r + if c' then Range(w) else 0, i, w) == Scale(r, i, w) + Carried(c', i + 1, w)
    ensures Scale(r - if c' then Range(w) else 0, i, w) == Scale(r, i, w) - Carried(c', i + 1, w)
  {
    if c' {
      ScaleAdd(r, Range(w), i, w);
      ScaleRange(i, w);
    }
  }

  lemma ScaledSum(r: int, c': bool, a: int, b: int, c: bool, i: nat, w: bool)
    requires r + (if c' then Range(w) else 0) == a + b + Bit(c)
    ensures Scale(r, i, w) + Carried(c', i + 1, w) == Scale(a, i, w) + Scale(b, i, w) + Carried(c, i, w)
  {
    CarriedOut(r, c', i, w);
    ScaleSum(a, b, Bit(c), i, w);
    CarriedIn(c, i, w);
  }

  lemma ScaledDifference(r: int, c': bool, a: int, b: int, c: bool, i: nat, w: bool)
    requires r - (if c' then Range(w) else 0) == a - b - Bit(c)
    ensures Scale(r, i, w) - Carried(c', i + 1, w) == Scale(a, i, w) - Scale(b, i, w) - Carried(c, i, w)
  {
    CarriedOut(r, c', i, w);
    ScaleDifference(a, b, Bit(c), i, w);
    CarriedIn(c, i, w);
  }

  lemma ScaledTotal(s: int, a: int, b: int, c: bool, i: nat, w: bool)
    ensures s == a + b + Bit(c) <==> Scale(s, i, w) == Scale(a, i, w) + Scale(b, i, w) + Carried(c, i, w)
  {
    ScaleSum(a, b, Bit(c), i, w);
    CarriedIn(c, i, w);
    ScaleSame(s, a + b + Bit(c), i, w);
  }

  lemma ScaledRest(s: int, a: int, b: int, c: bool, i: nat, w: bool)
    ensures s == a - b - Bit(c) <==> Scale(s, i, w) == Scale(a, i, w) - Scale(b, i, w) - Carried(c, i, w)
  {
    ScaleDifference(a, b, Bit(c), i, w);
    CarriedIn(c, i, w);
    ScaleSame(s, a - b - Bit(c), i, w);
  }

  lemma PartsNext(x: seq<int>, was: seq<int>, y: seq<int>, i: nat, r: int, w: bool)
    requires i < |x| == |was| == |y|
    ensures Value(x[i := r][..i + 1], w) == Value(x[..i], w) + Scale(r, i, w)
    ensures SignedValue(x[i := r][..i + 1], w) == Value(x[..i], w) + Scale(Signed(r, w), i, w)
    ensures Value(was[..i + 1], w) == Value(was[..i], w) + Scale(was[i], i, w)
    ensures SignedValue(was[..i + 1], w) == Value(was[..i], w) + Scale(Signed(was[i], w), i, w)
    ensures Value(y[..i + 1], w) == Value(y[..i], w) + Scale(y[i], i, w)
    ensures SignedValue(y[..i + 1], w) == Value(y[..i], w) + Scale(Signed(y[i], w), i, w)
  {
    assert x[i := r][..i] == x[..i];
    ValueNext(x[i := r], i, w);
    ValueNext(was, i, w);
    ValueNext(y, i, w);
  }

  lemma SumNext(x: seq<int>, was: seq<int>, y: seq<int>, i: nat, c: bool, r: int, c': bool, o': bool, w: bool)
    requires i < |was| == |y| && Halfway(x, was, i, w) && IsOperand(r, w)
    requires Value(x[..i], w) + Carried(c, i, w) == Value(was[..i], w) + Value(y[..i], w)
    requires r + (if c' then Range(w) else 0) == was[i] + y[i] + Bit(c)
    requires o' == (Signed(r, w) != Signed(was[i], w) + Signed(y[i], w) + Bit(c))
    ensures Summed(x[i := r], was, y, i + 1, c', o', w)
  {
    PartsNext(x, was, y, i, r, w);
    ScaledSum(r, c', was[i], y[i], c, i, w);
    ScaledTotal(Signed(r, w), Signed(was[i], w), Signed(y[i], w), c, i, w);
  }

  lemma DifferenceNext(x: seq<int>, was: seq<int>, y: seq<int>, i: nat, c: bool, r: int, c': bool, o': bool, w: bool)
    requires i < |was| == |y| && Halfway(x, was, i, w) && IsOperand(r, w)
    requires Value(x[..i], w) - Carried(c, i, w) == Value(was[..i], w) - Value(y[..i], w)
    requires r - (if c' then Range(w) else 0) == was[i] - y[i] - Bit(c)
    requires o' == (Signed(r, w) != Signed(was[i], w) - Signed(y[i], w) - Bit(c))
    ensures Subtracted(x[i := r], was, y, i + 1, c', o', w)
  {
    PartsNext(x, was, y, i, r, w);
    ScaledDifference(r, c', was[i], y[i], c, i, w);
    ScaledRest(Signed(r, w), Signed(was[i], w), Signed(y[i], w), c, i, w);
  }
}
