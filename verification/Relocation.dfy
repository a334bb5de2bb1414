/**
  Relocatable data (Ack-5.5/ld/relocate.c): 1, 2 or 4 bytes in one of the byte
  and word orders, and how their value is picked up and put back.
 */
module Relocation {
  import opened Bytes

  /** The bits of or_type: the length, and the RELPC, RELBR and RELWR flags. */
  datatype RelType = RelType(size: nat, pc: bool, br: bool, wr: bool) {
    predicate Legal() { size == 1 || size == 2 || size == 4 }
  }

  /** One past the largest value of a datum of n bytes. */
  function Range(n: nat): (r: int)
    ensures r > 0
  {
    if n == 1 then 0x100 else if n == 2 then 0x1_0000 else 0x1_0000_0000
  }

  /** What a datum of n bytes keeps of a value. */
  function Wrap(v: int, n: nat): (w: int)
    ensures 0 <= w < Range(n)
  {
    if n == 1 then v % 0x100 else if n == 2 then v % 0x1_0000 else v % 0x1_0000_0000
  }

  function Byte(v: int): byte {
    (v % 256) as byte
  }

  /** What an unsigned short keeps of a value. */
  function Short(v: int): (w: int)
    ensures 0 <= w < 0x1_0000
  {
    v % 0x1_0000
  }

  /** With RELBR the high order byte has the lowest address. */
  function GetWord(first: byte, second: byte, br: bool): (w: int)
    ensures 0 <= w < 0x1_0000
  {
    if br then first as int * 256 + second as int else second as int * 256 + first as int
  }

  function PutWord(w: int, br: bool): (b: seq<byte>)
    ensures |b| == 2
  {
    if br then [Byte(w / 256), Byte(w)] else [Byte(w), Byte(w / 256)]
  }

  /** With RELWR the high order word has the lowest address. */
  function GetLong(word0: int, word1: int, wr: bool): int {
    if wr then word0 * 0x1_0000 + word1 else word1 * 0x1_0000 + word0
  }

  function GetValu(addr: seq<byte>, t: RelType): int
    requires t.Legal() && |addr| == t.size
  {
    if t.size == 1 then addr[0] as int
    else if t.size == 2 then GetWord(addr[0], addr[1], t.br)
    else GetLong(GetWord(addr[0], addr[1], t.br), GetWord(addr[2], addr[3], t.br), t.wr)
  }

  function PutValu(valu: int, t: RelType): (addr: seq<byte>)
    requires t.Legal()
    ensures |addr| == t.size
  {
    if t.size == 1 then [Byte(valu)]
    else if t.size == 2 then PutWord(valu, t.br)
    else
      var word0 := Short(if t.wr then valu / 0x1_0000 else valu);
      var word1 := Short(if t.wr then valu else valu / 0x1_0000);
      PutWord(word0, t.br) + PutWord(word1, t.br)
  }

  lemma GetPutWord(v: int, br: bool)
    ensures var b := PutWord(v, br); GetWord(b[0], b[1], br) == v % 0x1_0000
  {
  }

  lemma BytesOfWord(hi: int, lo: int)
    requires 0 <= hi < 256 && 0 <= lo < 256
    ensures (hi * 256 + lo) / 256 == hi && (hi * 256 + lo) % 256 == lo && hi % 256 == hi
  {
  }

  lemma PutGetWord(first: byte, second: byte, br: bool)
    ensures PutWord(GetWord(first, second, br), br) == [first, second]
  {
    BytesOfWord(first as int, second as int);
    BytesOfWord(second as int, first as int);
  }

  lemma LongOf(v: int, wr: bool)
    ensures GetLong(Short(if wr then v / 0x1_0000 else v), Short(if wr then v else v / 0x1_0000), wr)
        == v % 0x1_0000_0000
  {
  }

  lemma WordsOf(word0: int, word1: int, wr: bool)
    requires 0 <= word0 < 0x1_0000 && 0 <= word1 < 0x1_0000
    ensures var v := GetLong(word0, word1, wr);
      && 0 <= v < 0x1_0000_0000
      && Short(if wr then v / 0x1_0000 else v) == word0
      && Short(if wr then v else v / 0x1_0000) == word1
  {
  }

  lemma ShortModulo(v: int)
    ensures Short(v) % 0x1_0000 == Short(v)
  {
  }

  /** What is put is what is got, modulo the width, in every byte and word order. */
  lemma GetPut(v: int, t: RelType)
    requires t.Legal()
    ensures GetValu(PutValu(v, t), t) == Wrap(v, t.size)
  {
    if t.size == 2 {
      GetPutWord(v, t.br);
    } else if t.size == 4 {
      var word0 := Short(if t.wr then v / 0x1_0000 else v);
      var word1 := Short(if t.wr then v else v / 0x1_0000);
      GetPutWord(word0, t.br);
      GetPutWord(word1, t.br);
      ShortModulo(if t.wr then v / 0x1_0000 else v);
      ShortModulo(if t.wr then v else v / 0x1_0000);
      LongOf(v, t.wr);
    }
  }

  /** Every datum is the representation of its value. */
  lemma PutGet(addr: seq<byte>, t: RelType)
    requires t.Legal() && |addr| == t.size
    ensures PutValu(GetValu(addr, t), t) == addr
    ensures 0 <= GetValu(addr, t) < Range(t.size)
  {
    if t.size == 2 {
      PutGetWord(addr[0], addr[1], t.br);
    } else if t.size == 4 {
      WordsOf(GetWord(addr[0], addr[1], t.br), GetWord(addr[2], addr[3], t.br), t.wr);
      PutGetWord(addr[0], addr[1], t.br);
      PutGetWord(addr[2], addr[3], t.br);
      assert addr == [addr[0], addr[1]] + [addr[2], addr[3]];
    }
  }

  /** Values that agree modulo the width have the same representation. */
  lemma PutModulo(v: int, w: int, t: RelType)
    requires t.Legal() && Wrap(v, t.size) == Wrap(w, t.size)
    ensures PutValu(v, t) == PutValu(w, t)
  {
    GetPut(v, t);
    GetPut(w, t);
    PutGet(PutValu(v, t), t);
    PutGet(PutValu(w, t), t);
  }

  /** The bytes of a datum amount to the value, each with the weight of its place. */
  predicate Amounts(b: seq<byte>, t: RelType, v: int)
    requires t.Legal() && |b| == t.size
  {
    if t.size == 1 then v == b[0] as int
    else if t.size == 2 then
      if t.br then v == 0x100 * b[0] as int + b[1] as int else v == b[0] as int + 0x100 * b[1] as int
    else if !t.br && !t.wr then
      v == b[0] as int + 0x100 * b[1] as int + 0x1_0000 * b[2] as int + 0x100_0000 * b[3] as int
    else if t.br && !t.wr then
      v == 0x100 * b[0] as int + b[1] as int + 0x100_0000 * b[2] as int + 0x1_0000 * b[3] as int
    else if !t.br then
      v == 0x1_0000 * b[0] as int + 0x100_0000 * b[1] as int + b[2] as int + 0x100 * b[3] as int
    else
      v == 0x100_0000 * b[0] as int + 0x1_0000 * b[1] as int + 0x100 * b[2] as int + b[3] as int
  }

  /** What is got is what the bytes amount to. */
  lemma GetAmounts(b: seq<byte>, t: RelType)
    requires t.Legal() && |b| == t.size
    ensures Amounts(b, t, GetValu(b, t))
  {
  }

  /** What is put amounts to the value, as far as the datum has room. */
  lemma PutAmounts(v: int, t: RelType)
    requires t.Legal()
    ensures Amounts(PutValu(v, t), t, Wrap(v, t.size))
  {
    GetAmounts(PutValu(v, t), t);
    GetPut(v, t);
  }

  // ---------------------------------------------------------------- patches

  /** A change by `delta` of the datum at `addr`. */
  datatype Patch = Patch(t: RelType, addr: nat, delta: int) {
    predicate Within(n: int) { t.Legal() && addr + t.size <= n }
    predicate Covers(i: int) { addr <= i < addr + t.size }
  }

  function Datum(data: seq<byte>, p: Patch): seq<byte>
    requires p.Within(|data|)
  {
    data[p.addr .. p.addr + p.t.size]
  }

  function Changed(data: seq<byte>, p: Patch): (d: seq<byte>)
    requires p.Within(|data|)
    ensures |d| == p.t.size
  {
    PutValu(GetValu(Datum(data, p), p.t) + p.delta, p.t)
  }

  function Apply(data: seq<byte>, p: Patch): (r: seq<byte>)
    requires p.Within(|data|)
    ensures |r| == |data|
  {
    seq(|data|, i requires 0 <= i < |data| => if p.Covers(i) then Changed(data, p)[i - p.addr] else data[i])
  }

  /** The datum then amounts to what it did and the delta, as far as it has room; no other byte changes. */
  lemma {:induction false} ApplyAmounts(data: seq<byte>, p: Patch, v: int)
    requires p.Within(|data|) && Amounts(Datum(data, p), p.t, v)
    ensures Amounts(Datum(Apply(data, p), p), p.t, Wrap(v + p.delta, p.t.size))
    ensures forall i :: 0 <= i < |data| && !p.Covers(i) ==> Apply(data, p)[i] == data[i]
  {
    GetAmounts(Datum(data, p), p.t);
    PutAmounts(v + p.delta, p.t);
    assert Datum(Apply(data, p), p) == Changed(data, p);
  }

  predicate AllWithin(ps: seq<Patch>, n: int) {
    forall k :: 0 <= k < |ps| ==> ps[k].Within(n)
  }

  /** One patch after the other. */
  function ApplyAll(data: seq<byte>, ps: seq<Patch>): (r: seq<byte>)
    requires AllWithin(ps, |data|)
    ensures |r| == |data|
  {
    if |ps| == 0 then data else Apply(ApplyAll(data, ps[..|ps| - 1]), ps[|ps| - 1])
  }

  predicate Separate(p: Patch, q: Patch) {
    p.addr + p.t.size <= q.addr || q.addr + q.t.size <= p.addr
  }

  predicate Disjoint(ps: seq<Patch>) {
    forall j, k :: 0 <= j < k < |ps| ==> Separate(ps[j], ps[k])
  }

  lemma {:induction false} ApplyAllUncovered(data: seq<byte>, ps: seq<Patch>, i: nat)
    requires AllWithin(ps, |data|) && i < |data| && forall k :: 0 <= k < |ps| ==> !ps[k].Covers(i)
    ensures ApplyAll(data, ps)[i] == data[i]
    decreases |ps|
  {
    if |ps| > 0 { ApplyAllUncovered(data, ps[..|ps| - 1], i); }
  }

  lemma {:induction false} DatumKept(data: seq<byte>, ps: seq<Patch>, q: Patch)
    requires AllWithin(ps, |data|) && q.Within(|data|) && forall k :: 0 <= k < |ps| ==> Separate(ps[k], q)
    ensures Datum(ApplyAll(data, ps), q) == Datum(data, q)
  {
    forall i | q.addr <= i < q.addr + q.t.size ensures ApplyAll(data, ps)[i] == data[i] {
      forall k | 0 <= k < |ps| ensures !ps[k].Covers(i) { assert Separate(ps[k], q); }
      ApplyAllUncovered(data, ps, i);
    }
  }

  lemma ApplySeparate(data: seq<byte>, p: Patch, q: Patch)
    requires p.Within(|data|) && q.Within(|data|) && Separate(p, q)
    ensures Datum(Apply(data, p), q) == Datum(data, q)
  {
  }

  lemma ApplySelf(data: seq<byte>, p: Patch)
    requires p.Within(|data|)
    ensures Datum(Apply(data, p), p) == Changed(data, p)
  {
  }

  lemma ChangedSame(a: seq<byte>, b: seq<byte>, p: Patch)
    requires p.Within(|a|) && |b| == |a| && Datum(a, p) == Datum(b, p)
    ensures Changed(a, p) == Changed(b, p)
  {
  }

  /** Each datum is changed once, from its original value. */
  lemma {:induction false} ApplyAllDatum(data: seq<byte>, ps: seq<Patch>, k: nat)
    requires AllWithin(ps, |data|) && Disjoint(ps) && k < |ps|
    ensures Datum(ApplyAll(data, ps), ps[k]) == Changed(data, ps[k])
    decreases |ps|
  {
    var n := |ps| - 1;
    var rest, last := ps[..n], ps[n];
    var before := ApplyAll(data, rest);
    if k == n {
      forall j | 0 <= j < n ensures Separate(rest[j], last) { assert Separate(ps[j], ps[n]); }
      DatumKept(data, rest, last);
      ApplySelf(before, last);
      ChangedSame(before, data, last);
    } else {
      ApplyAllDatum(data, rest, k);
      assert Separate(ps[k], ps[n]);
      ApplySeparate(before, last, ps[k]);
    }
  }

  /** The same places. */
  predicate Together(ps: seq<Patch>, qs: seq<Patch>, rs: seq<Patch>) {
    && |ps| == |qs| == |rs|
    && forall k :: 0 <= k < |ps| ==> TogetherAt(ps[k], qs[k], rs[k])
  }

  predicate TogetherAt(p: Patch, q: Patch, r: Patch) {
    p.t == q.t == r.t && p.addr == q.addr == r.addr
  }

  /** The deltas add up, modulo the width of each datum. */
  predicate AddsUp(ps: seq<Patch>, qs: seq<Patch>, rs: seq<Patch>)
    requires |ps| == |qs| == |rs|
  {
    forall k :: 0 <= k < |ps| ==> AddsUpAt(ps[k], qs[k], rs[k])
  }

  predicate AddsUpAt(p: Patch, q: Patch, r: Patch) {
    Congruent(p.delta + q.delta, r.delta, p.t.size)
  }

  predicate Congruent(v: int, w: int, n: nat) {
    Wrap(v - w, n) == 0
  }

  lemma ModAdd1(a: int, b: int)
    ensures (a % 0x100 + b) % 0x100 == (a + b) % 0x100
  {
  }

  lemma ModAdd2(a: int, b: int)
    ensures (a % 0x1_0000 + b) % 0x1_0000 == (a + b) % 0x1_0000
  {
  }

  lemma ModAdd4(a: int, b: int)
    ensures (a % 0x1_0000_0000 + b) % 0x1_0000_0000 == (a + b) % 0x1_0000_0000
  {
  }

  lemma ModAdd(a: int, b: int, n: nat)
    ensures Wrap(Wrap(a, n) + b, n) == Wrap(a + b, n)
  {
    if n == 1 { ModAdd1(a, b); } else if n == 2 { ModAdd2(a, b); } else { ModAdd4(a, b); }
  }

  lemma CongruentMod(v: int, w: int, u: int, n: nat)
    ensures Congruent(v, w, n) <==> Wrap(u + v, n) == Wrap(u + w, n)
  {
    if n == 1 { CongruentMod1(v, w, u); } else if n == 2 { CongruentMod2(v, w, u); } else { CongruentMod4(v, w, u); }
  }

  lemma CongruentMod1(v: int, w: int, u: int)
    ensures (v - w) % 0x100 == 0 <==> (u + v) % 0x100 == (u + w) % 0x100
  {
  }

  lemma CongruentMod2(v: int, w: int, u: int)
    ensures (v - w) % 0x1_0000 == 0 <==> (u + v) % 0x1_0000 == (u + w) % 0x1_0000
  {
  }

  lemma CongruentMod4(v: int, w: int, u: int)
    ensures (v - w) % 0x1_0000_0000 == 0 <==> (u + v) % 0x1_0000_0000 == (u + w) % 0x1_0000_0000
  {
  }

  lemma PutSame(v: int, w: int, t: RelType)
    requires t.Legal()
    ensures PutValu(v, t) == PutValu(w, t) <==> Wrap(v, t.size) == Wrap(w, t.size)
  {
    GetPut(v, t);
    GetPut(w, t);
    if Wrap(v, t.size) == Wrap(w, t.size) { PutModulo(v, w, t); }
  }

  lemma AddTwice(v: int, p: int, q: int, r: int, n: nat)
    ensures Wrap(Wrap(v + p, n) + q, n) == Wrap(v + r, n) <==> Congruent(p + q, r, n)
  {
    ModAdd(v + p, q, n);
    CongruentMod(p + q, r, v, n);
    assert v + (p + q) == v + p + q;
  }

  lemma PutTwice(v: int, p: int, q: int, r: int, t: RelType)
    requires t.Legal()
    ensures PutValu(GetValu(PutValu(v + p, t), t) + q, t) == PutValu(v + r, t) <==> Congruent(p + q, r, t.size)
  {
    GetPut(v + p, t);
    AddTwice(v, p, q, r, t.size);
    PutSame(Wrap(v + p, t.size) + q, v + r, t);
  }

  lemma ChangedTwice(data: seq<byte>, p: Patch, mid: seq<byte>, q: Patch, r: Patch)
    requires p.Within(|data|) && |mid| == |data| && TogetherAt(p, q, r) && Datum(mid, p) == Changed(data, p)
    ensures Changed(mid, q) == Changed(data, r) <==> AddsUpAt(p, q, r)
  {
    var v := GetValu(Datum(data, p), p.t);
    assert Datum(mid, q) == Datum(mid, p) && Datum(data, r) == Datum(data, p);
    PutTwice(v, p.delta, q.delta, r.delta, p.t);
  }

  /** Where one datum ends up. */
  lemma DatumTwice(data: seq<byte>, ps: seq<Patch>, qs: seq<Patch>, rs: seq<Patch>, k: nat)
    requires AllWithin(ps, |data|) && AllWithin(qs, |data|) && AllWithin(rs, |data|) && Disjoint(ps)
        && Together(ps, qs, rs)
    requires k < |ps|
    ensures Datum(ApplyAll(ApplyAll(data, ps), qs), qs[k]) == Datum(ApplyAll(data, rs), rs[k])
        <==> AddsUpAt(ps[k], qs[k], rs[k])
  {
    var mid := ApplyAll(data, ps);
    forall i, j | 0 <= i < j < |ps| ensures Separate(qs[i], qs[j]) && Separate(rs[i], rs[j]) {
      assert Separate(ps[i], ps[j]) && TogetherAt(ps[i], qs[i], rs[i]) && TogetherAt(ps[j], qs[j], rs[j]);
    }
    assert TogetherAt(ps[k], qs[k], rs[k]);
    ApplyAllDatum(data, ps, k);
    ApplyAllDatum(mid, qs, k);
    ApplyAllDatum(data, rs, k);
    ChangedTwice(data, ps[k], mid, qs[k], rs[k]);
  }

  /** Patching twice is patching once exactly if the deltas add up, modulo each datum's width. */
  lemma ApplyTwice(data: seq<byte>, ps: seq<Patch>, qs: seq<Patch>, rs: seq<Patch>)
    requires AllWithin(ps, |data|) && AllWithin(qs, |data|) && AllWithin(rs, |data|) && Disjoint(ps)
        && Together(ps, qs, rs)
    ensures ApplyAll(ApplyAll(data, ps), qs) == ApplyAll(data, rs) <==> AddsUp(ps, qs, rs)
  {
    if AddsUp(ps, qs, rs) {
      SameTwice(data, ps, qs, rs);
    } else {
      var k :| 0 <= k < |ps| && !AddsUpAt(ps[k], qs[k], rs[k]);
      DatumTwice(data, ps, qs, rs, k);
      assert TogetherAt(ps[k], qs[k], rs[k]);
      SamePlaceSame(ApplyAll(ApplyAll(data, ps), qs), ApplyAll(data, rs), qs[k], rs[k]);
    }
  }

  lemma SamePlaceSame(a: seq<byte>, b: seq<byte>, p: Patch, q: Patch)
    requires |a| == |b| && p.Within(|a|) && p.t == q.t && p.addr == q.addr && Datum(a, p) != Datum(b, q)
    ensures a != b
  {
  }

  lemma SameTwice(data: seq<byte>, ps: seq<Patch>, qs: seq<Patch>, rs: seq<Patch>)
    requires AllWithin(ps, |data|) && AllWithin(qs, |data|) && AllWithin(rs, |data|) && Disjoint(ps)
        && Together(ps, qs, rs)
    requires AddsUp(ps, qs, rs)
    ensures ApplyAll(ApplyAll(data, ps), qs) == ApplyAll(data, rs)
  {
    var twice, once := ApplyAll(ApplyAll(data, ps), qs), ApplyAll(data, rs);
    forall i | 0 <= i < |data| ensures twice[i] == once[i] { ByteTwice(data, ps, qs, rs, i); }
  }

  lemma ByteTwice(data: seq<byte>, ps: seq<Patch>, qs: seq<Patch>, rs: seq<Patch>, i: nat)
    requires AllWithin(ps, |data|) && AllWithin(qs, |data|) && AllWithin(rs, |data|) && Disjoint(ps)
        && Together(ps, qs, rs)
    requires AddsUp(ps, qs, rs) && i < |data|
    ensures ApplyAll(ApplyAll(data, ps), qs)[i] == ApplyAll(data, rs)[i]
  {
    var mid := ApplyAll(data, ps);
    if k :| 0 <= k < |ps| && ps[k].Covers(i) {
      assert TogetherAt(ps[k], qs[k], rs[k]) && AddsUpAt(ps[k], qs[k], rs[k]);
      DatumTwice(data, ps, qs, rs, k);
      DatumByte(ApplyAll(mid, qs), qs[k], i);
      DatumByte(ApplyAll(data, rs), rs[k], i);
    } else {
      forall k | 0 <= k < |ps| ensures !qs[k].Covers(i) && !rs[k].Covers(i) {
        assert TogetherAt(ps[k], qs[k], rs[k]) && !ps[k].Covers(i);
      }
      ApplyAllUncovered(data, ps, i);
      ApplyAllUncovered(mid, qs, i);
      ApplyAllUncovered(data, rs, i);
    }
  }

  lemma DatumByte(data: seq<byte>, p: Patch, i: int)
    requires p.Within(|data|) && p.Covers(i)
    ensures data[i] == Datum(data, p)[i - p.addr]
  {
  }

  // ------------------------------------------------- patches and placement

  function Shift(p: Patch, n: nat): Patch {
    p.(addr := p.addr + n)
  }

  function ShiftAll(ps: seq<Patch>, n: nat): (r: seq<Patch>)
    ensures |r| == |ps| && forall k :: 0 <= k < |ps| ==> r[k] == Shift(ps[k], n)
  {
    seq(|ps|, k requires 0 <= k < |ps| => Shift(ps[k], n))
  }

  lemma ApplyLeft(a: seq<byte>, b: seq<byte>, p: Patch)
    requires p.Within(|a|)
    ensures p.Within(|a + b|) && Apply(a + b, p) == Apply(a, p) + b
  {
    assert Datum(a + b, p) == Datum(a, p);
  }

  lemma ApplyRight(a: seq<byte>, b: seq<byte>, p: Patch)
    requires p.Within(|b|)
    ensures Shift(p, |a|).Within(|a + b|) && Apply(a + b, Shift(p, |a|)) == a + Apply(b, p)
  {
    var q, ab := Shift(p, |a|), a + b;
    assert Datum(ab, q) == Datum(b, p);
    var c := Changed(b, p);
    assert Changed(ab, q) == c;
    forall i | 0 <= i < |ab| ensures Apply(ab, q)[i] == (a + Apply(b, p))[i] {
      if i >= |a| { assert Apply(b, p)[i - |a|] == if p.Covers(i - |a|) then c[i - |a| - p.addr] else b[i - |a|]; }
    }
  }

  lemma {:induction false} ApplyAllLeft(a: seq<byte>, b: seq<byte>, ps: seq<Patch>)
    requires AllWithin(ps, |a|)
    ensures AllWithin(ps, |a + b|) && ApplyAll(a + b, ps) == ApplyAll(a, ps) + b
    decreases |ps|
  {
    if |ps| > 0 {
      ApplyAllLeft(a, b, ps[..|ps| - 1]);
      ApplyLeft(ApplyAll(a, ps[..|ps| - 1]), b, ps[|ps| - 1]);
    }
  }

  lemma {:induction false} ApplyAllRight(a: seq<byte>, b: seq<byte>, ps: seq<Patch>)
    requires AllWithin(ps, |b|)
    ensures AllWithin(ShiftAll(ps, |a|), |a + b|) && ApplyAll(a + b, ShiftAll(ps, |a|)) == a + ApplyAll(b, ps)
    decreases |ps|
  {
    var qs := ShiftAll(ps, |a|);
    forall k | 0 <= k < |ps| ensures qs[k].Within(|a + b|) { assert ps[k].Within(|b|); }
    if |ps| > 0 {
      var n := |ps| - 1;
      ApplyAllRight(a, b, ps[..n]);
      assert qs[..n] == ShiftAll(ps[..n], |a|);
      ApplyRight(a, ApplyAll(b, ps[..n]), ps[n]);
    }
  }

  lemma {:induction false} ApplyAllAppend(data: seq<byte>, ps: seq<Patch>, qs: seq<Patch>)
    requires AllWithin(ps, |data|) && AllWithin(qs, |data|)
    ensures AllWithin(ps + qs, |data|) && ApplyAll(data, ps + qs) == ApplyAll(ApplyAll(data, ps), qs)
    decreases |qs|
  {
    forall k | 0 <= k < |ps + qs| ensures (ps + qs)[k].Within(|data|) {
      if k < |ps| { assert ps[k].Within(|data|); } else { assert qs[k - |ps|].Within(|data|); }
    }
    if |qs| > 0 {
      var n := |qs| - 1;
      ApplyAllAppend(data, ps, qs[..n]);
      assert (ps + qs)[..|ps + qs| - 1] == ps + qs[..n];
    } else {
      assert ps + qs == ps;
    }
  }

  /** Two patched pieces side by side. */
  lemma ApplyAllBeside(a: seq<byte>, b: seq<byte>, ps: seq<Patch>, qs: seq<Patch>)
    requires AllWithin(ps, |a|) && AllWithin(qs, |b|)
    ensures AllWithin(ps + ShiftAll(qs, |a|), |a + b|)
    ensures ApplyAll(a + b, ps + ShiftAll(qs, |a|)) == ApplyAll(a, ps) + ApplyAll(b, qs)
  {
    ApplyAllLeft(a, b, ps);
    ApplyAllRight(ApplyAll(a, ps), b, qs);
    forall k | 0 <= k < |qs| ensures ShiftAll(qs, |a|)[k].Within(|a + b|) { assert qs[k].Within(|b|); }
    ApplyAllAppend(a + b, ps, ShiftAll(qs, |a|));
  }
}
