/** Relocation in place, on the bytes of a section or of a block of one. */
module Relocating {
  import opened Bytes
  import opened Relocation
  import opened LinkModel
  import opened Strategies

  /** The bytes with v put at `at`. */
  function Put(b: seq<byte>, at: nat, v: int, t: RelType): (r: seq<byte>)
    requires t.Legal() && at + t.size <= |b|
    ensures |r| == |b|
  {
    seq(|b|, i requires 0 <= i < |b| => if at <= i < at + t.size then PutValu(v, t)[i - at] else b[i])
  }

  method PutWordAt(buf: array<byte>, at: nat, w: int, br: bool)
    requires at + 2 <= buf.Length
    modifies buf
    ensures buf[at] == PutWord(w, br)[0] && buf[at + 1] == PutWord(w, br)[1]
    ensures forall i :: 0 <= i < buf.Length && i != at && i != at + 1 ==> buf[i] == old(buf[i])
  {
    if br {
      buf[at] := Byte(w / 256);
      buf[at + 1] := Byte(w);
    } else {
      buf[at] := Byte(w);
      buf[at + 1] := Byte(w / 256);
    }
  }

  /** The source's putvalu. */
  method PutValuAt(buf: array<byte>, at: nat, valu: int, t: RelType)
    requires t.Legal() && at + t.size <= buf.Length
    modifies buf
    ensures buf[..] == Put(old(buf[..]), at, valu, t)
    ensures Amounts(buf[at .. at + t.size], t, Wrap(valu, t.size))
  {
    PutAmounts(valu, t);
    if t.size == 1 {
      buf[at] := Byte(valu);
      assert PutValu(valu, t) == [Byte(valu)];
    } else if t.size == 2 {
      PutWordAt(buf, at, valu, t.br);
      assert PutValu(valu, t) == PutWord(valu, t.br);
    } else {
      var word0, word1;
      if t.wr {
        word0 := Short(valu / 0x1_0000);
        word1 := Short(valu);
      } else {
        word0 := Short(valu);
        word1 := Short(valu / 0x1_0000);
      }
      PutWordAt(buf, at, word0, t.br);
      PutWordAt(buf, at + 2, word1, t.br);
      assert PutValu(valu, t) == PutWord(word0, t.br) + PutWord(word1, t.br);
    }
    assert buf[at .. at + t.size] == PutValu(valu, t);
  }

  lemma PutIsApply(b: seq<byte>, p: Patch, v: int)
    requires p.Within(|b|) && v == GetValu(Datum(b, p), p.t) + p.delta
    ensures Put(b, p.addr, v, p.t) == Apply(b, p)
  {
  }

  /**
    The source's relocate: buf holds a section, placed at `at`, from its byte
    `off` on. The entry is given back as it is for the output.
   */
  method Relocate(env: Env, m: Module, origin: seq<int>, buf: array<byte>, at: nat, r: Relo, off: nat)
      returns (r': Relo)
    requires r.t.Legal() && off <= r.addr && at + r.addr - off + r.t.size <= buf.Length
    modifies buf
    ensures buf[..] == Apply(old(buf[..]), Shift(From(PatchOf(env, m, origin, r), off), at))
    ensures r' == NewRelo(env, m, origin, r)
  {
    var addr := at + r.addr - off;
    var valu := GetValu(buf[addr .. addr + r.t.size], r.t);
    var index: int;
    if r.nami < |m.names| {
      var target := AddRelo(env, m, origin, r.nami);
      valu := valu + target.delta;
      index := target.index;
    } else {
      index := env.AbsIndex();
    }
    if r.t.pc { valu := valu - (At(origin, r.sect) + At(env.base, r.sect)); }
    ghost var p := Shift(From(PatchOf(env, m, origin, r), off), at);
    assert Datum(buf[..], p) == buf[addr .. addr + r.t.size];
    PutIsApply(buf[..], p, valu);
    PutValuAt(buf, addr, valu, r.t);
    var moved := r.addr + At(origin, r.sect);
    r' := Relo(r.t, r.sect, if index >= 0 then index else 0, if moved >= 0 then moved else 0);
  }
}
