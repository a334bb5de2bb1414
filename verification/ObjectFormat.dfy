/**
  Records of the object format on file and in core (put2, put4, get2 and get4 in
  Ack-5.5/lib/obj.h, the wr_ and rd_ routines of wr.c and rd.c): what is written
  is read again, and the reader's expansion of packed records into wider structs,
  backwards and in the same place, never spoils a byte that it has yet to read.
 */
module ObjectFormat {
  import opened Bytes
  import opened FileCursor
  import opened Regions

  // ----------------------------------------------------------------- integers

  /** The w bytes of a value, the lowest first. */
  function Put(v: int, w: nat): (b: seq<byte>)
    ensures |b| == w
    decreases w
  {
    if w == 0 then [] else [(v % 256) as byte] + Put(v / 256, w - 1)
  }

  function Get(b: seq<byte>): int {
    if |b| == 0 then 0 else b[0] as int + 256 * Get(b[1..])
  }

  /** How many values w bytes have. */
  function Pow256(w: nat): (p: int)
    ensures p > 0
  {
    if w == 0 then 1 else 256 * Pow256(w - 1)
  }

  /** Does a value need no more than w bytes? */
  predicate Fits(v: int, w: nat) {
    0 <= v < Pow256(w)
  }

  /** What is got back is the value modulo 256^w; so a value is got back exactly if it fits. */
  lemma {:induction false} GetPut(v: int, w: nat)
    ensures Get(Put(v, w)) == v % Pow256(w)
    ensures Get(Put(v, w)) == v <==> Fits(v, w)
    decreases w
  {
    if w > 0 {
      GetPut(v / 256, w - 1);
      assert Put(v, w)[1..] == Put(v / 256, w - 1);
      RestModulo(v, Pow256(w - 1));
    }
  }

  lemma RestModulo(v: int, p: int)
    requires p > 0
    ensures v % (256 * p) == v % 256 + 256 * ((v / 256) % p)
  {
    var q, m := (v / 256) / p, v % 256 + 256 * ((v / 256) % p);
    assert v / 256 == p * q + (v / 256) % p;
    assert v == q * (256 * p) + m;
    RestIs(v, 256 * p, q, m);
  }

  lemma RestIs(v: int, d: int, q: int, m: int)
    requires v == q * d + m && 0 <= m < d
    ensures v % d == m
  {
    var a, b := v / d, v % d;
    assert v == d * a + b;
    assert (q - a) * d == b - m;
    NoMultiple(q - a, d, b - m);
  }

  lemma AtLeastOnce(k: int, d: int)
    requires k >= 1 && d > 0
    ensures k * d >= d && -k * d == -(k * d)
  {
    assert (k - 1) * d >= 0;
  }

  lemma NoMultiple(k: int, d: int, x: int)
    requires k * d == x && -d < x < d
    ensures x == 0
  {
    if k >= 1 {
      AtLeastOnce(k, d);
    } else if k <= -1 {
      AtLeastOnce(-k, d);
    }
  }

  /** Two values have the same bytes exactly if they are the same modulo 256^w. */
  lemma {:induction false} PutSame(a: int, b: int, w: nat)
    ensures Put(a, w) == Put(b, w) <==> a % Pow256(w) == b % Pow256(w)
    decreases w
  {
    if w > 0 {
      PutSame(a / 256, b / 256, w - 1);
      RestModulo(a, Pow256(w - 1));
      RestModulo(b, Pow256(w - 1));
      var x, y := Put(a, w), Put(b, w);
      assert x[1..] == Put(a / 256, w - 1) && y[1..] == Put(b / 256, w - 1);
      if x == y { assert x[0] == y[0]; }
    }
  }

  lemma {:induction false} PowWider(w: nat, w': nat)
    requires w <= w'
    ensures Pow256(w) <= Pow256(w')
    decreases w'
  {
    if w < w' { PowWider(w, w' - 1); }
  }

  lemma {:induction false} GetFits(b: seq<byte>)
    ensures Fits(Get(b), |b|)
    decreases |b|
  {
    if |b| > 0 { GetFits(b[1..]); }
  }

  // ------------------------------------------------------------------ layouts

  /** A field takes psize bytes on file; in the struct it takes wsize bytes at woff. */
  datatype Field = Field(psize: nat, woff: nat, wsize: nat)

  datatype Layout = Layout(fields: seq<Field>, width: nat) {
    /** Where field k starts in the packed record. */
    function Off(k: nat): nat
      requires k <= |fields|
    {
      if k == 0 then 0 else Off(k - 1) + fields[k - 1].psize
    }

    function Packed(): nat {
      Off(|fields|)
    }

    predicate FieldOk(k: nat)
      requires k < |fields|
    {
      && fields[k].psize <= fields[k].wsize
      && Off(k) <= fields[k].woff
      && fields[k].woff + fields[k].wsize <= (if k + 1 < |fields| then fields[k + 1].woff else width)
    }

    /** Fields come in the same order and are not narrower than on file. */
    predicate Valid() {
      |fields| > 0 && forall k :: 0 <= k < |fields| ==> FieldOk(k)
    }
  }

  /** or_type, or_sect, or_nami and or_addr where a long takes eight bytes. */
  const RELO := Layout([Field(1, 0, 1), Field(1, 1, 1), Field(2, 2, 2), Field(4, 8, 8)], 16)

  /** on_foff, on_type, on_desc and on_valu. */
  const NAME := Layout([Field(4, 0, 8), Field(2, 8, 2), Field(2, 10, 2), Field(4, 16, 8)], 24)

  /** os_base, os_size, os_foff, os_flen and os_lign. */
  const SECT := Layout([Field(4, 0, 8), Field(4, 8, 8), Field(4, 16, 8), Field(4, 24, 8), Field(4, 32, 8)], 40)

  /** oh_magic to oh_nname, oh_nemit and oh_nchar. */
  const HEAD := Layout([Field(2, 0, 2), Field(2, 2, 2), Field(2, 4, 2), Field(2, 6, 2), Field(2, 8, 2),
      Field(2, 10, 2), Field(4, 16, 8), Field(4, 24, 8)], 32)

  lemma LayoutsValid()
    ensures RELO.Valid() && NAME.Valid() && SECT.Valid() && HEAD.Valid()
    ensures RELO.Packed() == 8 && NAME.Packed() == 12 && SECT.Packed() == 20 && HEAD.Packed() == 20
  {
    assert RELO.Off(0) == 0 && RELO.Off(1) == 1 && RELO.Off(2) == 2 && RELO.Off(3) == 4;
    assert NAME.Off(0) == 0 && NAME.Off(1) == 4 && NAME.Off(2) == 6 && NAME.Off(3) == 8;
    assert SECT.Off(0) == 0 && SECT.Off(1) == 4 && SECT.Off(2) == 8 && SECT.Off(3) == 12 && SECT.Off(4) == 16;
    assert HEAD.Off(0) == 0 && HEAD.Off(1) == 2 && HEAD.Off(2) == 4 && HEAD.Off(3) == 6 && HEAD.Off(4) == 8
        && HEAD.Off(5) == 10;
    assert HEAD.Off(6) == 12 && HEAD.Off(7) == 16;
  }

  lemma {:induction false} OffWithin(l: Layout, k: nat)
    requires l.Valid() && k < |l.fields|
    ensures l.fields[k].woff + l.fields[k].wsize <= l.width
    ensures k + 1 < |l.fields| ==> l.fields[k].woff + l.fields[k].wsize <= l.fields[k + 1].woff
    decreases |l.fields| - k
  {
    assert l.FieldOk(k);
    if k + 1 < |l.fields| { OffWithin(l, k + 1); }
  }

  lemma PackedNarrow(l: Layout)
    requires l.Valid()
    ensures l.Packed() <= l.width
  {
    assert l.FieldOk(|l.fields| - 1);
  }

  // ------------------------------------------------------ expansion in place

  /** n times w. */
  function Times(n: nat, w: nat): nat {
    if n == 0 then 0 else Times(n - 1, w) + w
  }

  lemma {:induction false} TimesNarrow(n: nat, a: nat, b: nat)
    requires a <= b
    ensures Times(n, a) <= Times(n, b)
    decreases n
  {
    if n > 0 { TimesNarrow(n - 1, a, b); }
  }

  lemma {:induction false} TimesGrows(i: nat, n: nat, w: nat)
    requires i < n
    ensures Times(i, w) + w <= Times(n, w)
    decreases n
  {
    if i < n - 1 { TimesGrows(i, n - 1, w); }
  }

  /** The packed field k of the record that starts at `from`. */
  function PackedField(file: seq<byte>, from: nat, l: Layout, k: nat): int
    requires k < |l.fields| && from + l.Off(k) + l.fields[k].psize <= |file|
  {
    Get(file[from + l.Off(k) .. from + l.Off(k) + l.fields[k].psize])
  }

  /** The struct at `to` has the value of the packed field k. */
  ghost predicate Expanded(file: seq<byte>, from: nat, m: seq<byte>, to: nat, l: Layout, k: nat) {
    && k < |l.fields| && from + l.Off(k) + l.fields[k].psize <= |file|
    && Holds(m, to + l.fields[k].woff, Put(PackedField(file, from, l, k), l.fields[k].wsize))
  }

  /** Store a value in the bytes of a field. */
  method Store(mem: array<byte>, at: nat, v: int, w: nat)
    requires at + w <= mem.Length
    modifies mem
    ensures Holds(mem[..], at, Put(v, w))
    ensures forall j :: 0 <= j < mem.Length && !(at <= j < at + w) ==> mem[j] == old(mem[j])
  {
    var i, rest := 0, v;
    while i < w
      invariant 0 <= i <= w && Put(rest, w - i) == Put(v, w)[i..]
      invariant forall j :: 0 <= j < i ==> mem[at + j] == Put(v, w)[j]
      invariant forall j :: 0 <= j < mem.Length && !(at <= j < at + w) ==> mem[j] == old(mem[j])
    {
      assert Put(rest, w - i)[0] == Put(v, w)[i];
      assert Put(rest / 256, w - i - 1) == Put(rest, w - i)[1..] == Put(v, w)[i + 1..];
      mem[at + i] := (rest % 256) as byte;
      rest := rest / 256;
      i := i + 1;
    }
    forall j | 0 <= j < w ensures HoldsAt(mem[..], at, Put(v, w), j) {}
  }

  lemma {:induction false} FieldsInOrder(l: Layout, k: nat, k': nat)
    requires l.Valid() && k < k' < |l.fields|
    ensures l.fields[k].woff + l.fields[k].wsize <= l.fields[k'].woff
    decreases k'
  {
    assert l.FieldOk(k' - 1);
    if k < k' - 1 { FieldsInOrder(l, k, k' - 1); }
  }

  lemma {:induction false} OffUpTo(l: Layout, k: nat, n: nat)
    requires k <= n <= |l.fields|
    ensures l.Off(k) <= l.Off(n)
    decreases n
  {
    if k < n { OffUpTo(l, k, n - 1); }
  }

  /** The first n bytes are still those of the file. */
  ghost predicate Intact(m: seq<byte>, file: seq<byte>, n: nat) {
    n <= |m| && n <= |file| && forall j :: 0 <= j < n ==> m[j] == file[j]
  }

  lemma IntactField(m: seq<byte>, file: seq<byte>, from: nat, l: Layout, k: nat)
    requires k < |l.fields| && Intact(m, file, from + l.Off(k) + l.fields[k].psize)
    ensures PackedField(m, from, l, k) == PackedField(file, from, l, k)
  {
    var at, n := from + l.Off(k), l.fields[k].psize;
    assert m[at .. at + n] == file[at .. at + n];
  }

  /** Fields from k on have been expanded. */
  ghost predicate ExpandedFrom(file: seq<byte>, from: nat, m: seq<byte>, to: nat, l: Layout, k: nat) {
    forall k' :: k <= k' < |l.fields| ==> Expanded(file, from, m, to, l, k')
  }

  lemma HoldsUnder(m: seq<byte>, m': seq<byte>, at: nat, b: seq<byte>)
    requires Holds(m, at, b) && |m'| == |m| && forall j :: at <= j < at + |b| && j < |m| ==> m'[j] == m[j]
    ensures Holds(m', at, b)
  {
    forall j | 0 <= j < |b| ensures HoldsAt(m', at, b, j) { assert HoldsAt(m, at, b, j); }
  }

  lemma FieldsKept(file: seq<byte>, from: nat, m: seq<byte>, m': seq<byte>, to: nat, l: Layout, k: nat)
    requires l.Valid() && k < |l.fields| && ExpandedFrom(file, from, m, to, l, k + 1) && |m'| == |m|
    requires forall j :: 0 <= j < |m| && !(to + l.fields[k].woff <= j < to + l.fields[k].woff + l.fields[k].wsize) ==>
        m'[j] == m[j]
    ensures ExpandedFrom(file, from, m', to, l, k + 1)
  {
    forall k' | k + 1 <= k' < |l.fields| ensures Expanded(file, from, m', to, l, k') {
      assert Expanded(file, from, m, to, l, k');
      FieldsInOrder(l, k, k');
      HoldsUnder(m, m', to + l.fields[k'].woff, Put(PackedField(file, from, l, k'), l.fields[k'].wsize));
    }
  }

  /** One field, read and stored. */
  method ExpandField(mem: array<byte>, from: nat, to: nat, l: Layout, k: nat, ghost file: seq<byte>)
    requires l.Valid() && k < |l.fields| && from <= to && to + l.width <= mem.Length
    requires Intact(mem[..], file, from + l.Off(k) + l.fields[k].psize)
        && ExpandedFrom(file, from, mem[..], to, l, k + 1)
    modifies mem
    ensures Intact(mem[..], file, from + l.Off(k)) && ExpandedFrom(file, from, mem[..], to, l, k)
    ensures forall j :: to + l.width <= j < mem.Length ==> mem[j] == old(mem[j])
  {
    ghost var was := mem[..];
    assert l.FieldOk(k);
    OffWithin(l, k);
    IntactField(was, file, from, l, k);
    var at := from + l.Off(k);
    var v := Get(mem[at .. at + l.fields[k].psize]);
    assert was[at .. at + l.fields[k].psize] == mem[at .. at + l.fields[k].psize];
    Store(mem, to + l.fields[k].woff, v, l.fields[k].wsize);
    FieldsKept(file, from, was, mem[..], to, l, k);
    assert Expanded(file, from, mem[..], to, l, k);
  }

  /** One record, its last field first. */
  method ExpandRecord(mem: array<byte>, from: nat, to: nat, l: Layout, ghost file: seq<byte>)
    requires l.Valid() && from <= to && to + l.width <= mem.Length && Intact(mem[..], file, from + l.Packed())
    modifies mem
    ensures Intact(mem[..], file, from) && ExpandedFrom(file, from, mem[..], to, l, 0)
    ensures forall j :: to + l.width <= j < mem.Length ==> mem[j] == old(mem[j])
  {
    var k := |l.fields|;
    while k > 0
      invariant 0 <= k <= |l.fields|
      invariant Intact(mem[..], file, from + l.Off(k)) && ExpandedFrom(file, from, mem[..], to, l, k)
      invariant forall j :: to + l.width <= j < mem.Length ==> mem[j] == old(mem[j])
    {
      k := k - 1;
      ExpandField(mem, from, to, l, k, file);
    }
  }

  ghost predicate RecordsFrom(file: seq<byte>, m: seq<byte>, l: Layout, i: nat, n: nat) {
    forall r :: i <= r < n ==> RecordAt(file, m, l, r)
  }

  ghost predicate RecordAt(file: seq<byte>, m: seq<byte>, l: Layout, r: nat) {
    ExpandedFrom(file, Times(r, l.Packed()), m, Times(r, l.width), l, 0)
  }

  lemma RecordsKept(file: seq<byte>, m: seq<byte>, m': seq<byte>, l: Layout, i: nat, n: nat)
    requires l.Valid() && RecordsFrom(file, m, l, i, n) && |m'| == |m|
    requires forall j :: Times(i, l.width) <= j < |m| ==> m'[j] == m[j]
    ensures RecordsFrom(file, m', l, i, n)
  {
    forall r | i <= r < n ensures RecordAt(file, m', l, r) {
      assert RecordAt(file, m, l, r);
      if i < r { TimesGrows(i, r, l.width); }
      forall k | 0 <= k < |l.fields| ensures Expanded(file, Times(r, l.Packed()), m', Times(r, l.width), l, k) {
        assert Expanded(file, Times(r, l.Packed()), m, Times(r, l.width), l, k);
        HoldsUnder(m, m', Times(r, l.width)
            + l.fields[k].woff, Put(PackedField(file, Times(r, l.Packed()), l, k), l.fields[k].wsize));
      }
    }
  }

  /** rd_sect, rd_relo and rd_name, once the packed records have been read: the last record first. */
  method ExpandTable(mem: array<byte>, n: nat, l: Layout, ghost file: seq<byte>)
    requires l.Valid() && Times(n, l.width) <= mem.Length && Intact(mem[..], file, Times(n, l.Packed()))
    modifies mem
    ensures RecordsFrom(file, mem[..], l, 0, n)
  {
    var i, c, s := n, Times(n, l.Packed()), Times(n, l.width);
    PackedNarrow(l);
    while i > 0
      invariant 0 <= i <= n && c == Times(i, l.Packed()) && s == Times(i, l.width) <= mem.Length
      invariant Intact(mem[..], file, c) && RecordsFrom(file, mem[..], l, i, n)
    {
      ghost var was := mem[..];
      i := i - 1;
      c := c - l.Packed();
      s := s - l.width;
      TimesNarrow(i, l.Packed(), l.width);
      ExpandRecord(mem, c, s, l, file);
      RecordsKept(file, was, mem[..], l, i + 1, n);
      assert RecordAt(file, mem[..], l, i);
    }
  }

  // --------------------------------------------------------------- round trip

  predicate Shaped(rec: seq<int>, l: Layout) {
    |rec| == |l.fields|
  }

  /** The first k fields of a record, packed (put2, put4). */
  function Encode(rec: seq<int>, l: Layout, k: nat): (b: seq<byte>)
    requires Shaped(rec, l) && k <= |l.fields|
    ensures |b| == l.Off(k)
  {
    if k == 0 then [] else Encode(rec, l, k - 1) + Put(rec[k - 1], l.fields[k - 1].psize)
  }

  /** A whole record. */
  function Record(rec: seq<int>, l: Layout): (b: seq<byte>)
    requires Shaped(rec, l)
    ensures |b| == l.Packed()
  {
    Encode(rec, l, |l.fields|)
  }

  ghost predicate AllShaped(recs: seq<seq<int>>, l: Layout) {
    forall i :: 0 <= i < |recs| ==> Shaped(recs[i], l)
  }

  /** A table as the wr_ routines write it. */
  function EncodeAll(recs: seq<seq<int>>, l: Layout, n: nat): (b: seq<byte>)
    requires AllShaped(recs, l) && n <= |recs|
    ensures |b| == Times(n, l.Packed())
  {
    if n == 0 then [] else EncodeAll(recs, l, n - 1) + Encode(recs[n - 1], l, |l.fields|)
  }

  lemma HoldsLonger(m: seq<byte>, c: seq<byte>, at: nat, b: seq<byte>)
    requires Holds(m, at, b)
    ensures Holds(m + c, at, b)
  {
    forall j | 0 <= j < |b| ensures HoldsAt(m + c, at, b, j) { assert HoldsAt(m, at, b, j); }
  }

  lemma HoldsAfter(a: seq<byte>, m: seq<byte>, at: nat, b: seq<byte>)
    requires Holds(m, at, b)
    ensures Holds(a + m, |a| + at, b)
  {
    var n, from := a + m, |a| + at;
    forall j | 0 <= j < |b| ensures HoldsAt(n, from, b, j) { assert HoldsAt(m, at, b, j); }
  }

  lemma HoldsIs(m: seq<byte>, at: nat, b: seq<byte>)
    requires Holds(m, at, b) && |b| > 0
    ensures at + |b| <= |m| && m[at .. at + |b|] == b
  {
    assert HoldsAt(m, at, b, |b| - 1);
    forall j | 0 <= j < |b| ensures m[at .. at + |b|][j] == b[j] { assert HoldsAt(m, at, b, j); }
  }

  lemma HoldsItself(b: seq<byte>)
    ensures Holds(b, 0, b)
  {
    forall j | 0 <= j < |b| ensures HoldsAt(b, 0, b, j) {}
  }

  lemma {:induction false} FieldEncoded(rec: seq<int>, l: Layout, k: nat, n: nat)
    requires Shaped(rec, l) && k < n <= |l.fields|
    ensures Holds(Encode(rec, l, n), l.Off(k), Put(rec[k], l.fields[k].psize))
    decreases n
  {
    var last := Put(rec[n - 1], l.fields[n - 1].psize);
    if k < n - 1 {
      FieldEncoded(rec, l, k, n - 1);
      HoldsLonger(Encode(rec, l, n - 1), last, l.Off(k), Put(rec[k], l.fields[k].psize));
    } else {
      HoldsItself(last);
      HoldsAfter(Encode(rec, l, k), last, 0, last);
    }
  }

  lemma {:induction false} RecordEncoded(recs: seq<seq<int>>, l: Layout, i: nat, n: nat)
    requires AllShaped(recs, l) && i < n <= |recs|
    ensures Holds(EncodeAll(recs, l, n), Times(i, l.Packed()), Encode(recs[i], l, |l.fields|))
    decreases n
  {
    if i < n - 1 {
      RecordEncoded(recs, l, i, n - 1);
      EarlierEncoded(recs, l, i, n - 1);
    } else {
      LastEncoded(recs, l, i);
    }
  }

  lemma {:induction false} EarlierEncoded(recs: seq<seq<int>>, l: Layout, i: nat, n: nat)
    requires AllShaped(recs, l) && i < n < |recs|
    requires Holds(EncodeAll(recs, l, n), Times(i, l.Packed()), Encode(recs[i], l, |l.fields|))
    ensures Holds(EncodeAll(recs, l, n + 1), Times(i, l.Packed()), Encode(recs[i], l, |l.fields|))
  {
    HoldsLonger(EncodeAll(recs, l, n), Encode(recs[n], l, |l.fields|), Times(i, l.Packed()),
        Encode(recs[i], l, |l.fields|));
  }

  lemma {:induction false} LastEncoded(recs: seq<seq<int>>, l: Layout, i: nat)
    requires AllShaped(recs, l) && i < |recs|
    ensures Holds(EncodeAll(recs, l, i + 1), Times(i, l.Packed()), Encode(recs[i], l, |l.fields|))
  {
    var last := Encode(recs[i], l, |l.fields|);
    HoldsItself(last);
    HoldsAfter(EncodeAll(recs, l, i), last, 0, last);
  }

  /** Field k of record i is where the reader looks for it. */
  lemma FieldInTable(m: seq<byte>, recs: seq<seq<int>>, l: Layout, i: nat, k: nat)
    requires AllShaped(recs, l) && i < |recs| && k < |l.fields| && l.fields[k].psize > 0
    requires Holds(m, 0, EncodeAll(recs, l, |recs|))
    ensures var at := Times(i, l.Packed()) + l.Off(k);
      at + l.fields[k].psize <= |m|
          && PackedField(m, Times(i, l.Packed()), l, k) == Get(Put(recs[i][k], l.fields[k].psize))
  {
    RecordEncoded(recs, l, i, |recs|);
    FieldEncoded(recs[i], l, k, |l.fields|);
    HoldsWithin(m, 0, EncodeAll(recs, l, |recs|), Times(i, l.Packed()), Encode(recs[i], l, |l.fields|));
    FieldThere(m, Times(i, l.Packed()), recs[i], l, k);
  }

  lemma FieldThere(m: seq<byte>, from: nat, rec: seq<int>, l: Layout, k: nat)
    requires Shaped(rec, l) && k < |l.fields| && l.fields[k].psize > 0
    requires Holds(m, from, Encode(rec, l, |l.fields|))
        && Holds(Encode(rec, l, |l.fields|), l.Off(k), Put(rec[k], l.fields[k].psize))
    ensures from + l.Off(k) + l.fields[k].psize <= |m|
        && PackedField(m, from, l, k) == Get(Put(rec[k], l.fields[k].psize))
  {
    HoldsWithin(m, from, Encode(rec, l, |l.fields|), l.Off(k), Put(rec[k], l.fields[k].psize));
    HoldsIs(m, from + l.Off(k), Put(rec[k], l.fields[k].psize));
  }

  /** Field k of struct i in core. */
  ghost predicate FieldIs(m: seq<byte>, l: Layout, i: nat, k: nat, v: int)
    requires k < |l.fields|
  {
    var at := Times(i, l.width) + l.fields[k].woff;
    at + l.fields[k].wsize <= |m| && Get(m[at .. at + l.fields[k].wsize]) == v
  }

  lemma ExpandedField(file: seq<byte>, from: nat, m: seq<byte>, l: Layout, i: nat, k: nat)
    requires l.Valid() && Expanded(file, from, m, Times(i, l.width), l, k) && l.fields[k].psize > 0
    ensures FieldIs(m, l, i, k, PackedField(file, from, l, k))
  {
    var f, at := l.fields[k], from + l.Off(k);
    assert l.FieldOk(k);
    var v := PackedField(file, from, l, k);
    HoldsIs(m, Times(i, l.width) + f.woff, Put(v, f.wsize));
    GetFits(file[at .. at + f.psize]);
    PowWider(f.psize, f.wsize);
    GetPut(v, f.wsize);
  }

  /** No field is empty. */
  predicate AllSized(l: Layout) {
    forall k :: 0 <= k < |l.fields| ==> l.fields[k].psize > 0
  }

  /**
    A table of any length that was written at `off` is read back, field by field,
    as far as the values fit in their fields.
   */
  method ReadTable(f: seq<byte>, off: nat, n: nat, l: Layout, ghost recs: seq<seq<int>>) returns (mem: array<byte>)
    requires l.Valid() && AllSized(l) && AllShaped(recs, l) && |recs| == n
    requires off + Times(n, l.Packed()) <= |f| && Holds(f, off, EncodeAll(recs, l, n))
    ensures forall i, k :: 0 <= i < n && 0 <= k < |l.fields| ==> FieldRead(mem[..], l, i, k, recs[i][k])
  {
    PackedNarrow(l);
    TimesNarrow(n, l.Packed(), l.width);
    var size := Times(n, l.Packed());
    mem := new byte[Times(n, l.width)];
    var j := 0;
    while j < size
      invariant 0 <= j <= size
      invariant forall h :: 0 <= h < j ==> mem[h] == f[off + h]
    {
      mem[j] := f[off + j];
      j := j + 1;
    }
    ghost var file := f[off .. off + size];
    ExpandTable(mem, n, l, file);
    TableStarts(f, off, EncodeAll(recs, l, n));
    forall i, k | 0 <= i < n && 0 <= k < |l.fields| ensures FieldRead(mem[..], l, i, k, recs[i][k]) {
      assert RecordAt(file, mem[..], l, i);
      ReadField(file, mem[..], recs, l, i, k);
    }
  }

  lemma TableStarts(f: seq<byte>, off: nat, b: seq<byte>)
    requires Holds(f, off, b) && off + |b| <= |f|
    ensures Holds(f[off .. off + |b|], 0, b)
  {
    var part := f[off .. off + |b|];
    forall j | 0 <= j < |b| ensures HoldsAt(part, 0, b, j) { assert HoldsAt(f, off, b, j); }
  }

  /** The field has what the file's field has room for, and that is v exactly if v fits. */
  ghost predicate FieldRead(m: seq<byte>, l: Layout, i: nat, k: nat, v: int)
    requires k < |l.fields|
  {
    && FieldIs(m, l, i, k, v % Pow256(l.fields[k].psize))
    && (FieldIs(m, l, i, k, v) <==> Fits(v, l.fields[k].psize))
  }

  lemma ReadField(file: seq<byte>, m: seq<byte>, recs: seq<seq<int>>, l: Layout, i: nat, k: nat)
    requires l.Valid() && AllSized(l) && AllShaped(recs, l) && i < |recs| && k < |l.fields|
    requires Holds(file, 0, EncodeAll(recs, l, |recs|)) && RecordAt(file, m, l, i)
    ensures FieldRead(m, l, i, k, recs[i][k])
  {
    assert Expanded(file, Times(i, l.Packed()), m, Times(i, l.width), l, k);
    ExpandedField(file, Times(i, l.Packed()), m, l, i, k);
    FieldInTable(file, recs, l, i, k);
    GetPut(recs[i][k], l.fields[k].psize);
  }

  /** The value -1 of a name comes back as the largest of four bytes, as a long has more. */
  lemma ValueMinusOne(m: seq<byte>, i: nat)
    requires FieldRead(m, NAME, i, 3, -1)
    ensures FieldIs(m, NAME, i, 3, 0xFFFF_FFFF) && !FieldIs(m, NAME, i, 3, -1) && !Fits(-1, 4)
  {
    assert Pow256(1) == 256 && Pow256(2) == 0x1_0000 && Pow256(3) == 0x100_0000 && Pow256(4) == 0x1_0000_0000;
  }

  // ----------------------------------------------------- the writer's records

  /** The records as the writer gets them. */
  function Records(recs: seq<seq<int>>, l: Layout): (r: seq<seq<byte>>)
    requires AllShaped(recs, l)
    ensures |r| == |recs| && forall i :: 0 <= i < |r| ==> r[i] == Encode(recs[i], l, |l.fields|)
  {
    seq(|recs|, i requires 0 <= i < |recs| => Encode(recs[i], l, |l.fields|))
  }

  lemma {:induction false} ConcatIsTable(recs: seq<seq<int>>, l: Layout, n: nat)
    requires AllShaped(recs, l) && n <= |recs|
    ensures Concat(Records(recs, l)[..n]) == EncodeAll(recs, l, n)
    decreases n
  {
    if n > 0 {
      ConcatIsTable(recs, l, n - 1);
      ConcatNext(Records(recs, l), n - 1);
    }
  }

  /** A region of a written file that was given nothing but these records holds their table. */
  lemma RegionHolds(f: seq<byte>, p: Plan, given: seq<seq<byte>>, t: nat, recs: seq<seq<int>>, l: Layout)
    requires FileOk(f, p, given) && t < NREGION && AllShaped(recs, l) && given[t] == Concat(Records(recs, l))
    ensures Holds(f, p.lo[t], EncodeAll(recs, l, |recs|))
  {
    assert RegionOk(f, p, given, t);
    ConcatIsTable(recs, l, |recs|);
    assert Records(recs, l)[..|recs|] == Records(recs, l);
  }
}
