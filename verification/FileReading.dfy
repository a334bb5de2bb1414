/** The file for an output says what the output has, to whoever reads its numbers. */
module FileReading {
  import opened Bytes
  import opened FileCursor
  import opened Names
  import opened Relocation
  import opened LinkModel
  import opened Layout
  import opened ObjectFormat
  import opened EntryFormat
  import opened NameFormat
  import opened OutputFile
  import opened FileImage
  import opened FileNumbers

  // ----------------------------------------------------------------- numbers

  lemma {:induction false} OneThere(f: seq<byte>, at: nat, v: int)
    requires Holds(f, at, Put(v, 1))
    ensures at < |f| && f[at] as int == v % 256
  {
    assert HoldsAt(f, at, Put(v, 1), 0);
  }

  lemma {:induction false} TwoThere(f: seq<byte>, at: nat, v: int)
    requires Holds(f, at, Put(v, 2))
    ensures at + 2 <= |f| && Two(f, at) == InTwo(v)
  {
    var b := Put(v, 2);
    assert b[1..] == Put(v / 256, 1);
    assert b[1] == b[1..][0];
    assert HoldsAt(f, at, b, 0) && HoldsAt(f, at, b, 1);
  }

  lemma {:induction false} PutFour(v: int)
    ensures Put(v, 4) == Put(v, 2) + Put(v / 256 / 256, 2)
  {
    var b, c, e := Put(v, 4), Put(v / 256, 3), Put(v / 256 / 256, 2);
    assert b == [(v % 256) as byte] + c && c == [(v / 256 % 256) as byte] + e;
    assert Put(v, 2) == [(v % 256) as byte] + Put(v / 256, 1) && Put(v / 256, 1) == [(v / 256 % 256) as byte] + [];
    Associate([(v % 256) as byte], [(v / 256 % 256) as byte], e);
  }

  lemma TwoTwos(v: int)
    ensures v / 256 / 256 == v / 0x1_0000 && InTwo(v) + 0x1_0000 * InTwo(v / 0x1_0000) == InFour(v)
  {
  }

  lemma {:induction false} FourThere(f: seq<byte>, at: nat, v: int)
    requires Holds(f, at, Put(v, 4))
    ensures at + 4 <= |f| && Four(f, at) == InFour(v)
  {
    var lo, hi := Put(v, 2), Put(v / 0x1_0000, 2);
    PutFour(v);
    TwoTwos(v);
    HoldsItself(lo);
    HoldsItself(hi);
    HoldsLonger(lo, hi, 0, lo);
    HoldsAfter(lo, hi, 0, hi);
    HoldsWithin(f, at, lo + hi, 0, lo);
    HoldsWithin(f, at, lo + hi, 2, hi);
    TwoThere(f, at, v);
    TwoThere(f, at + 2, v / 0x1_0000);
  }

  lemma {:induction false} FieldIn(f: seq<byte>, at: nat, rec: seq<int>, l: ObjectFormat.Layout, k: nat)
    requires Shaped(rec, l) && k < |l.fields| && Holds(f, at, Record(rec, l))
    ensures Holds(f, at + l.Off(k), Put(rec[k], l.fields[k].psize))
  {
    FieldEncoded(rec, l, k, |l.fields|);
    HoldsWithin(f, at, Record(rec, l), l.Off(k), Put(rec[k], l.fields[k].psize));
  }

  lemma HeadOffs()
    ensures HEAD.Off(0) == 0 && HEAD.Off(1) == 2 && HEAD.Off(2) == 4 && HEAD.Off(3) == 6
    ensures HEAD.Off(4) == 8 && HEAD.Off(5) == 10 && HEAD.Off(6) == 12 && HEAD.Off(7) == 16
  {
  }

  lemma SectOffs()
    ensures SECT.Off(0) == 0 && SECT.Off(1) == 4 && SECT.Off(2) == 8 && SECT.Off(3) == 12 && SECT.Off(4) == 16
  {
  }

  lemma TableOffs()
    ensures RELO.Off(0) == 0 && RELO.Off(1) == 1 && RELO.Off(2) == 2 && RELO.Off(3) == 4
    ensures NAME.Off(0) == 0 && NAME.Off(1) == 4 && NAME.Off(2) == 6 && NAME.Off(3) == 8
  {
  }

  lemma {:induction false} TwoIn(f: seq<byte>, at: nat, rec: seq<int>, l: ObjectFormat.Layout, k: nat)
    requires Shaped(rec, l) && k < |l.fields| && Holds(f, at, Record(rec, l)) && l.fields[k].psize == 2
    ensures at + l.Off(k) + 2 <= |f| && Two(f, at + l.Off(k)) == InTwo(rec[k])
  {
    FieldIn(f, at, rec, l, k);
    TwoThere(f, at + l.Off(k), rec[k]);
  }

  lemma {:induction false} FourIn(f: seq<byte>, at: nat, rec: seq<int>, l: ObjectFormat.Layout, k: nat)
    requires Shaped(rec, l) && k < |l.fields| && Holds(f, at, Record(rec, l)) && l.fields[k].psize == 4
    ensures at + l.Off(k) + 4 <= |f| && Four(f, at + l.Off(k)) == InFour(rec[k])
  {
    FieldIn(f, at, rec, l, k);
    FourThere(f, at + l.Off(k), rec[k]);
  }

  // ------------------------------------------------------------ the records

  ghost predicate IsHeadBytes(h: Head, b: seq<byte>) {
    b == HeadBytes(h)
  }

  /** These are the bytes of the header. */
  ghost predicate HeadEncodes(b: seq<byte>, h: Head) {
    forall c :: IsHeadBytes(h, c) ==> b == c
  }

  lemma {:induction false} HeadTells(f: seq<byte>, h: Head, b: seq<byte>)
    requires Holds(f, 0, b) && HeadEncodes(b, h)
    ensures |f| >= 20 && Two(f, 0) == 0x0201 && Two(f, 2) == 0 && Two(f, 4) == if h.unresolved then 4 else 0
    ensures Two(f, 6) == InTwo(h.nsect) && Two(f, 8) == InTwo(h.nrelo) && Two(f, 10) == InTwo(h.nname)
    ensures Four(f, 12) == InFour(h.nemit) && Four(f, 16) == InFour(h.nchar)
  {
    assert IsHeadBytes(h, HeadBytes(h));
    var rec := [O_MAGIC, O_STAMP, if h.unresolved then HF_LINK else 0, h.nsect, h.nrelo, h.nname, h.nemit, h.nchar];
    HeadOffs();
    TwoIn(f, 0, rec, HEAD, 0);
    TwoIn(f, 0, rec, HEAD, 1);
    TwoIn(f, 0, rec, HEAD, 2);
    TwoIn(f, 0, rec, HEAD, 3);
    TwoIn(f, 0, rec, HEAD, 4);
    TwoIn(f, 0, rec, HEAD, 5);
    FourIn(f, 0, rec, HEAD, 6);
    FourIn(f, 0, rec, HEAD, 7);
  }

  ghost predicate IsSectBytes(h: SectHead, foff: int, b: seq<byte>) {
    b == SectBytes(h, foff)
  }

  /** These are the bytes of the section table for the section. */
  ghost predicate SectEncodes(b: seq<byte>, h: SectHead, foff: int) {
    forall c :: IsSectBytes(h, foff, c) ==> b == c
  }

  lemma {:induction false} SectTells(f: seq<byte>, at: nat, h: SectHead, foff: int, b: seq<byte>)
    requires Holds(f, at, b) && SectEncodes(b, h, foff)
    ensures at + 20 <= |f| && Four(f, at) == InFour(h.base) && Four(f, at + 4) == InFour(h.size)
    ensures Four(f, at + 8) == InFour(foff) && Four(f, at + 12) == InFour(h.flen) && Four(f, at + 16) == InFour(h.lign)
  {
    assert IsSectBytes(h, foff, SectBytes(h, foff));
    var rec := [h.base, h.size, foff, h.flen, h.lign];
    SectOffs();
    FourIn(f, at, rec, SECT, 0);
    FourIn(f, at, rec, SECT, 1);
    FourIn(f, at, rec, SECT, 2);
    FourIn(f, at, rec, SECT, 3);
    FourIn(f, at, rec, SECT, 4);
  }

  /** The type byte of an entry. */
  lemma TypeTells(t: RelType)
    requires t.Legal()
    ensures TypeSays(TypeBits(t), t)
  {
  }

  ghost predicate IsEntryBytes(r: LinkModel.Relo, b: seq<byte>) {
    b == EntryBytes(r)
  }

  /** These are the bytes of the entry. */
  ghost predicate Encodes(b: seq<byte>, r: LinkModel.Relo) {
    forall c :: IsEntryBytes(r, c) ==> b == c
  }

  lemma {:induction false} EntryEncodes(r: LinkModel.Relo, b: seq<byte>)
    requires b == EntryBytes(r)
    ensures Encodes(b, r)
  {
  }

  lemma {:induction false} EntryNumbers(f: seq<byte>, at: nat, r: LinkModel.Relo, b: seq<byte>)
    requires Holds(f, at, b) && Encodes(b, r)
    ensures at + 8 <= |f| && f[at] as int == TypeBits(r.t) % 256 && f[at + 1] as int == (2 + r.sect) % 256
    ensures Two(f, at + 2) == InTwo(r.nami) && Four(f, at + 4) == InFour(r.addr)
  {
    assert IsEntryBytes(r, EntryBytes(r));
    var rec := FieldsOf(r);
    TableOffs();
    FieldIn(f, at, rec, RELO, 0);
    FieldIn(f, at, rec, RELO, 1);
    OneThere(f, at, rec[0]);
    OneThere(f, at + 1, rec[1]);
    TwoIn(f, at, rec, RELO, 2);
    FourIn(f, at, rec, RELO, 3);
  }

  lemma {:induction false} TypeByte(b: int, t: RelType)
    requires t.Legal() && b == TypeBits(t) % 256
    ensures TypeSays(b, t)
  {
    TypeTells(t);
  }

  lemma {:induction false} EntryTells(f: seq<byte>, at: nat, r: LinkModel.Relo, b: seq<byte>)
    requires Holds(f, at, b) && Encodes(b, r)
    ensures FileNumbers.EntryAt(f, at, r)
  {
    EntryNumbers(f, at, r, b);
    if r.t.Legal() { TypeByte(f[at] as int, r.t); }
  }

  /** The other bits of a type word, apart from S_COM. */
  lemma EtcParts(etc: int) returns (k: int, l: int)
    requires 0 <= etc < 0x1_0000 && etc % 0x200 == 0 && !Bit(etc, 0x1000)
    ensures etc == 0x2000 * k + 0x200 * l && 0 <= k < 8 && 0 <= l < 8
  {
    k, l := etc / 0x2000, etc % 0x1000 / 0x200;
    assert etc / 0x1000 == 2 * k;
  }

  lemma LowParts(w: int, k: int, c: int, l: int, s: int, e: int, typ: int)
    requires w == 0x2000 * k + 0x1000 * c + 0x200 * l + 0x100 * s + 0x80 * e + typ
    requires 0 <= typ < 0x80 && 0 <= e < 2 && 0 <= s < 2 && 0 <= l < 8 && 0 <= c < 2 && 0 <= k < 8
    ensures w % 0x80 == typ && (w / 0x80) % 2 == e
  {
    assert w / 0x80 == 2 * (0x20 * k + 0x10 * c + 2 * l + s) + e;
  }

  lemma HighParts(w: int, k: int, c: int, l: int, s: int, e: int, typ: int)
    requires w == 0x2000 * k + 0x1000 * c + 0x200 * l + 0x100 * s + 0x80 * e + typ
    requires 0 <= typ < 0x80 && 0 <= e < 2 && 0 <= s < 2 && 0 <= l < 8 && 0 <= c < 2 && 0 <= k < 8
    ensures 0 <= w < 0x1_0000 && (w / 0x100) % 2 == s && (w / 0x1000) % 2 == c
  {
    assert w / 0x100 == 2 * (0x10 * k + 8 * c + l) + s;
    assert w / 0x1000 == 2 * k + c;
  }

  /** The type word of a name. */
  lemma {:induction false} WordTells(n: Name)
    requires BitsApart(n)
    ensures WordSays(InTwo(TypeWord(n)), n)
  {
    var k, l := EtcParts(n.etc);
    var e, s, c := if n.ext then 1 else 0, if n.sct then 1 else 0, if n.com then 1 else 0;
    var w := 0x2000 * k + 0x1000 * c + 0x200 * l + 0x100 * s + 0x80 * e + n.typ;
    assert TypeWord(n) == w;
    LowParts(w, k, c, l, s, e, n.typ);
    HighParts(w, k, c, l, s, e, n.typ);
  }

  ghost predicate IsNameBytes(n: Name, place: nat, b: seq<byte>) {
    b == NameBytes(n, FileOffset(n, place))
  }

  /** These are the bytes of the name, with the place of its string. */
  ghost predicate NameEncodes(b: seq<byte>, n: Name, place: nat) {
    forall c :: IsNameBytes(n, place, c) ==> b == c
  }

  lemma {:induction false} BytesEncode(n: Name, place: nat, b: seq<byte>)
    requires b == NameBytes(n, FileOffset(n, place))
    ensures NameEncodes(b, n, place)
  {
  }

  lemma {:induction false} NameTells(f: seq<byte>, at: nat, n: Name, place: nat, b: seq<byte>)
    requires Holds(f, at, b) && NameEncodes(b, n, place)
    ensures NameAt(f, at, n, place)
  {
    assert IsNameBytes(n, place, NameBytes(n, FileOffset(n, place)));
    var rec := NameFields(n, FileOffset(n, place));
    if BitsApart(n) { WordTells(n); }
    TableOffs();
    FourIn(f, at, rec, NAME, 0);
    TwoIn(f, at, rec, NAME, 1);
    TwoIn(f, at, rec, NAME, 2);
    FourIn(f, at, rec, NAME, 3);
  }

  // ------------------------------------------------------- where they are

  lemma {:induction false} SizedStart(recs: seq<seq<byte>>, size: nat, i: nat)
    requires AllOf(recs, size) && i <= |recs|
    ensures StartOf(recs, i) == i * size
    decreases i
  {
    if i > 0 {
      SizedStart(recs, size, i - 1);
      OneMore(i - 1, size);
    }
  }

  lemma {:induction false} RecordIn(f: seq<byte>, at: nat, recs: seq<seq<byte>>, size: nat, i: nat)
    requires AllOf(recs, size) && i < |recs| && Holds(f, at, Concat(recs))
    ensures Holds(f, at + i * size, recs[i])
  {
    ConcatHolds(recs, i);
    SizedStart(recs, size, i);
    HoldsWithin(f, at, Concat(recs), i * size, recs[i]);
  }

  lemma {:induction false} PieceIn(im: Image, k: nat)
    requires im.Valid() && k < |im.Pieces()|
    ensures Holds(im.Flat(), StartOf(im.Pieces(), k), im.Pieces()[k])
    ensures |im.Flat()| == StartOf(im.Pieces(), |im.Pieces()|)
  {
    ConcatHolds(im.Pieces(), k);
  }

  lemma {:induction false} FrontIn(im: Image)
    requires im.Valid()
    ensures Holds(im.Flat(), 0, im.header) && Holds(im.Flat(), SZ_HEAD, Concat(im.table))
  {
    var f, first := im.Flat(), im.Pieces()[0];
    PieceIn(im, 0);
    assert first == im.header + Concat(im.table) + im.out[0];
    HoldsItself(im.header);
    HoldsItself(Concat(im.table));
    HoldsAfter(im.header, Concat(im.table), 0, Concat(im.table));
    HoldsLonger(im.header, Concat(im.table), 0, im.header);
    HoldsLonger(im.header + Concat(im.table), im.out[0], 0, im.header);
    HoldsLonger(im.header + Concat(im.table), im.out[0], SZ_HEAD, Concat(im.table));
    HoldsWithin(f, 0, first, 0, im.header);
    HoldsWithin(f, 0, first, SZ_HEAD, Concat(im.table));
  }

  lemma {:induction false} DataIn(im: Image, s: nat)
    requires im.Valid() && s < |im.table|
    ensures Holds(im.Flat(), Foff(im)[s], im.out[s])
  {
    PieceIn(im, s);
    if s == 0 {
      var front, first := im.Front(), im.Pieces()[0];
      ConcatLength(im.table, SZ_SECT);
      HoldsItself(im.out[0]);
      HoldsAfter(front, im.out[0], 0, im.out[0]);
      HoldsWithin(im.Flat(), 0, first, |front|, im.out[0]);
    }
  }

  lemma {:induction false} TablesIn(im: Image)
    requires im.Valid()
    ensures Holds(im.Flat(), TableAt(im, 0), Concat(im.recs)) && Holds(im.Flat(), TableAt(im, 1), Concat(im.names))
    ensures Holds(im.Flat(), TableAt(im, 2), im.text) && |im.Flat()| == TableAt(im, 2) + |im.text|
  {
    PieceIn(im, MAXSECT);
    PieceIn(im, MAXSECT + 1);
    PieceIn(im, MAXSECT + 2);
  }

  // ------------------------------------------------------------- the lengths

  lemma {:induction false} DataLast(a: seq<OutSection>, x: OutSection)
    ensures DataLength(a + [x]) == DataLength(a) + |x.data|
    decreases |a|
  {
    if |a| == 0 {
      assert [] + [x] == [x] && [x][1..] == [];
    } else {
      DataLast(a[1..], x);
      assert (a + [x])[1..] == a[1..] + [x];
    }
  }

  lemma {:induction false} DataIsSum(sects: seq<OutSection>)
    ensures Sum(Flens(Heads(sects))) == DataLength(sects)
    decreases |sects|
  {
    if |sects| > 0 {
      var n := |sects| - 1;
      DataIsSum(sects[..n]);
      DataLast(sects[..n], sects[n]);
      assert sects == sects[..n] + [sects[n]];
      assert Flens(Heads(sects))[..n] == Flens(Heads(sects[..n]));
    }
  }

  lemma {:induction false} DataBefore(sects: seq<OutSection>, s: nat)
    requires s <= |sects|
    ensures Sum(Prefix(Flens(Heads(sects)), s)) == DataLength(sects[..s])
  {
    assert Prefix(Flens(Heads(sects)), s) == Flens(Heads(sects[..s]));
    DataIsSum(sects[..s]);
  }

  lemma {:induction false} TextLast(a: seq<Name>, x: Name)
    ensures TextLength(a + [x]) == TextLength(a) + if |x.str| == 0 then 0 else |x.str| + 1
    decreases |a|
  {
    if |a| == 0 {
      assert [] + [x] == [x] && [x][1..] == [];
    } else {
      TextLast(a[1..], x);
      assert (a + [x])[1..] == a[1..] + [x];
    }
  }

  lemma {:induction false} TextIsRoom(names: seq<Name>)
    ensures TextLength(names) == Room(names)
    decreases |names|
  {
    if |names| > 0 {
      var n := |names| - 1;
      TextIsRoom(names[..n]);
      TextLast(names[..n], names[n]);
      assert names == names[..n] + [names[n]];
    }
  }

  // --------------------------------------------------------------- the strings

  lemma {:induction false} StringHeld(names: seq<Name>, i: nat)
    requires i < |names|
    ensures Holds(Strings(names), Room(names[..i]), StringOf(names[i]))
    decreases |names|
  {
    var n := |names| - 1;
    if i < n {
      StringHeld(names[..n], i);
      assert names[..n][..i] == names[..i] && names[..n][i] == names[i];
      HoldsLonger(Strings(names[..n]), StringOf(names[n]), Room(names[..i]), StringOf(names[i]));
    } else {
      LastString(Strings(names[..n]), StringOf(names[n]));
    }
  }

  lemma LastString(a: seq<byte>, b: seq<byte>)
    ensures Holds(a + b, |a|, b)
  {
    HoldsItself(b);
    HoldsAfter(a, b, 0, b);
  }

  lemma {:induction false} CharIs(s: string, j: nat)
    requires j < |s|
    ensures CharBytes(s)[j] as int == s[j] as int % 256
    decreases |s|
  {
    if j < |s| - 1 { CharIs(s[..|s| - 1], j); }
  }

  lemma {:induction false} StringIn(f: seq<byte>, at: nat, n: Name)
    requires |n.str| > 0 && Holds(f, at, StringOf(n))
    ensures StringThere(f, at, n.str)
  {
    var b := StringOf(n);
    assert HoldsAt(f, at, b, |n.str|);
    forall j | 0 <= j < |n.str| ensures CharThere(f, at, n.str, j) {
      assert HoldsAt(f, at, b, j);
      CharIs(n.str, j);
    }
  }

  // ------------------------------------------------------------ in the image

  lemma {:induction false} DataLaid(im: Image, lens: seq<int>, s: nat, at: nat, b: seq<byte>)
    requires im.Valid() && lens == im.Lengths() && s < |im.table|
    requires at == 20 + 20 * |im.table| + Sum(Prefix(lens, s)) && b == im.out[s]
    ensures Holds(im.Flat(), at, b)
  {
    OffsetsAre(im);
    DataIn(im, s);
  }

  lemma {:induction false} TableLaid(im: Image, s: nat)
    requires im.Valid() && s < |im.table|
    ensures Holds(im.Flat(), 20 + 20 * s, im.table[s])
  {
    FrontIn(im);
    RecordIn(im.Flat(), SZ_HEAD, im.table, SZ_SECT, s);
  }

  lemma {:induction false} EntryLaid(im: Image, total: nat, i: nat, at: nat, b: seq<byte>)
    requires im.Valid() && total == Sum(im.Lengths()) && i < |im.recs|
    requires at == 20 + 20 * |im.table| + total + 8 * i && b == im.recs[i]
    ensures Holds(im.Flat(), at, b)
  {
    OffsetsAre(im);
    TablesIn(im);
    RecordIn(im.Flat(), TableAt(im, 0), im.recs, SZ_RELO, i);
  }

  lemma {:induction false} NameLaid(im: Image, total: nat, i: nat, at: nat, b: seq<byte>)
    requires im.Valid() && total == Sum(im.Lengths()) && i < |im.names|
    requires at == 20 + 20 * |im.table| + total + 8 * |im.recs| + 12 * i && b == im.names[i]
    ensures Holds(im.Flat(), at, b)
  {
    OffsetsAre(im);
    TablesIn(im);
    RecordIn(im.Flat(), TableAt(im, 1), im.names, SZ_NAME, i);
  }

  lemma {:induction false} TextLaid(im: Image, total: nat)
    requires im.Valid() && total == Sum(im.Lengths())
    ensures var at := 20 + 20 * |im.table| + total + 8 * |im.recs| + 12 * |im.names|;
      Holds(im.Flat(), at, im.text) && |im.Flat()| == at + |im.text|
  {
    OffsetsAre(im);
    TablesIn(im);
  }

  // --------------------------------------------------- in the file for an output

  /** Where the entries, the records of names and the strings are. */
  function EntriesAt(out: Output): nat {
    20 + 20 * |out.sects| + DataLength(out.sects)
  }

  function NamesAt(out: Output): nat {
    EntriesAt(out) + 8 * |out.relos|
  }

  function TextAt(out: Output): nat {
    NamesAt(out) + 12 * |out.names|
  }

  /** Where the string of name i is. */
  function StringAt(out: Output, i: nat): nat
    requires i < |out.names|
  {
    TextAt(out) + TextLength(out.names[..i])
  }

  /** The image has what the output has. */
  ghost predicate Shows(im: Image, out: Output) {
    && im.Valid() && im.Lengths() == Flens(Heads(out.sects)) && |im.table| == |out.sects| && |im.recs| == |out.relos|
    && |im.names| == |out.names| && im.text == Strings(out.names)
    && HeadEncodes(im.header, HeadOf(out.unresolved, Heads(out.sects), |out.relos|, out.names))
    && (forall s :: 0 <= s < |out.sects| ==> im.out[s] == out.sects[s].data)
    && (forall s :: 0 <= s < |out.sects| ==> RowIs(im, out, s))
    && (forall i :: 0 <= i < |out.relos| ==> EntryIs(im, out, i))
    && (forall i :: 0 <= i < |out.names| ==> NameIs(im, out, i))
  }

  ghost predicate RowIs(im: Image, out: Output, s: nat)
    requires s < |out.sects| && s < |im.table|
  {
    SectEncodes(im.table[s], Heads(out.sects)[s], FileOffsets(Heads(out.sects))[s])
  }

  ghost predicate EntryIs(im: Image, out: Output, i: nat)
    requires i < |out.relos| && i < |im.recs|
  {
    Encodes(im.recs[i], out.relos[i])
  }

  ghost predicate NameIs(im: Image, out: Output, i: nat)
    requires i < |out.names| && i < |im.names|
  {
    NameEncodes(im.names[i], out.names[i], StringAt(out, i))
  }

  lemma {:induction false} EntriesShown(out: Output)
    ensures |ImageFor(out).recs| == |out.relos| && forall i :: 0 <= i < |out.relos| ==> EntryIs(ImageFor(out), out, i)
  {
    forall i | 0 <= i < |out.relos| ensures EntryIs(ImageFor(out), out, i) {
      EntryFormat.EntryAt(out.relos, i);
      EntryEncodes(out.relos[i], Entries(out.relos)[i]);
    }
  }

  lemma {:induction false} NameShown(recs: seq<seq<byte>>, out: Output, i: nat)
    requires i < |out.names| && recs == NameRecs(out.names, TextAt(out))
    ensures NameEncodes(recs[i], out.names[i], StringAt(out, i))
  {
    TextIsRoom(out.names[..i]);
    NameRecordAt(out.names, TextAt(out), i);
    BytesEncode(out.names[i], StringAt(out, i), recs[i]);
  }

  lemma {:induction false} NamesShown(out: Output)
    ensures |ImageFor(out).names| == |out.names| && forall i :: 0 <= i < |out.names| ==> NameIs(ImageFor(out), out, i)
  {
    NamesStartIs(out);
    forall i | 0 <= i < |out.names| ensures NameIs(ImageFor(out), out, i) {
      NameShown(ImageFor(out).names, out, i);
    }
  }

  lemma {:induction false} ImageShows(out: Output)
    requires |out.sects| <= MAXSECT
    ensures Shows(ImageFor(out), out)
  {
    ImageIsValid(out.unresolved, Heads(out.sects), Datas(out.sects), out.relos, out.names);
    EntriesShown(out);
    NamesShown(out);
    forall s | 0 <= s < |out.sects| ensures RowIs(ImageFor(out), out, s) {}
  }

  lemma {:induction false} DataHeld(im: Image, out: Output, s: nat)
    requires Shows(im, out) && s < |out.sects|
    ensures Holds(im.Flat(), 20 + 20 * |out.sects| + DataLength(out.sects[..s]), out.sects[s].data)
  {
    var lens, place := Flens(Heads(out.sects)), 20 + 20 * |out.sects| + DataLength(out.sects[..s]);
    PlaceIs(out.sects, s, lens, place);
    DataLaid(im, lens, s, place, out.sects[s].data);
  }

  lemma {:induction false} PlaceIs(sects: seq<OutSection>, s: nat, lens: seq<int>, place: nat)
    requires s < |sects| && lens == Flens(Heads(sects)) && place == 20 + 20 * |sects| + DataLength(sects[..s])
    ensures |lens| == |sects| && place == 20 + 20 * |sects| + Sum(Prefix(lens, s))
  {
    DataBefore(sects, s);
  }

  lemma {:induction false} EntryHeld(im: Image, out: Output, i: nat)
    requires Shows(im, out) && i < |out.relos|
    ensures Holds(im.Flat(), EntriesAt(out) + 8 * i, im.recs[i])
  {
    DataIsSum(out.sects);
    EntryLaid(im, DataLength(out.sects), i, EntriesAt(out) + 8 * i, im.recs[i]);
  }

  lemma {:induction false} NameHeld(im: Image, out: Output, i: nat)
    requires Shows(im, out) && i < |out.names|
    ensures Holds(im.Flat(), NamesAt(out) + 12 * i, im.names[i])
  {
    DataIsSum(out.sects);
    NameLaid(im, DataLength(out.sects), i, NamesAt(out) + 12 * i, im.names[i]);
  }

  lemma {:induction false} NamesStartIs(out: Output)
    ensures NamesStart(Heads(out.sects), |out.relos|, |out.names|) == TextAt(out)
  {
    DataIsSum(out.sects);
  }

  lemma {:induction false} NameRecordAt(names: seq<Name>, at: nat, i: nat)
    requires i < |names|
    ensures NameRecs(names, at)[i] == NameBytes(names[i], FileOffset(names[i], at + Room(names[..i])))
  {
    RecordOf(names, Offs(names, at), i);
    OffsAt(names, i, at);
  }

  lemma {:induction false} RecordOf(names: seq<Name>, offs: seq<nat>, i: nat)
    requires |names| == |offs| && i < |names|
    ensures RecordsAt(names, offs)[i] == NameBytes(names[i], offs[i])
    decreases |names|
  {
    if i < |names| - 1 { RecordOf(names[..|names| - 1], offs[..|names| - 1], i); }
  }

  lemma {:induction false} TextHeld(im: Image, out: Output)
    requires Shows(im, out)
    ensures Holds(im.Flat(), TextAt(out), Strings(out.names)) && |im.Flat()| == TextAt(out) + TextLength(out.names)
  {
    DataIsSum(out.sects);
    TextIsRoom(out.names);
    TextLaid(im, DataLength(out.sects));
  }

  // ----------------------------------------------------------------- in any file

  lemma {:induction false} HeaderFrom(f: seq<byte>, out: Output, b: seq<byte>)
    requires |out.sects| <= MAXSECT && Holds(f, 0, b)
    requires HeadEncodes(b, HeadOf(out.unresolved, Heads(out.sects), |out.relos|, out.names))
    ensures HeaderSays(f, out)
  {
    HeadTells(f, HeadOf(out.unresolved, Heads(out.sects), |out.relos|, out.names), b);
    DataIsSum(out.sects);
    TextIsRoom(out.names);
  }

  lemma {:induction false} SectionFrom(f: seq<byte>, out: Output, s: nat, b: seq<byte>)
    requires |out.sects| <= MAXSECT && s < |out.sects| && Holds(f, 20 + 20 * s, b)
    requires SectEncodes(b, Heads(out.sects)[s], FileOffsets(Heads(out.sects))[s])
    requires Holds(f, 20 + 20 * |out.sects| + DataLength(out.sects[..s]), out.sects[s].data)
    ensures SectionSays(f, out, s)
  {
    SectTells(f, 20 + 20 * s, Heads(out.sects)[s], FileOffsets(Heads(out.sects))[s], b);
    FileOffsetsAre(Heads(out.sects));
    DataBefore(out.sects, s);
  }

  /** If the counts have room, the tables are where the header's numbers say. */
  lemma {:induction false} TablesFrom(f: seq<byte>, out: Output)
    requires HeaderSays(f, out) && |out.sects| <= MAXSECT && CountsFit(out)
    ensures OffRelo(f) == EntriesAt(out) && OffName(f) == NamesAt(out) && OffChar(f) == TextAt(out)
  {
  }

  lemma {:induction false} StringFrom(f: seq<byte>, at: nat, names: seq<Name>, i: nat)
    requires i < |names| && |names[i].str| > 0 && Holds(f, at, Strings(names))
    ensures StringThere(f, at + TextLength(names[..i]), names[i].str)
  {
    TextIsRoom(names[..i]);
    StringHeld(names, i);
    HoldsWithin(f, at, Strings(names), Room(names[..i]), StringOf(names[i]));
    StringIn(f, at + Room(names[..i]), names[i]);
  }

  lemma {:induction false} TablesTell(im: Image, out: Output)
    requires Shows(im, out) && |out.sects| <= MAXSECT && CountsFit(out) && HeaderSays(im.Flat(), out)
    ensures |im.Flat()| == OffChar(im.Flat()) + TextLength(out.names)
    ensures forall i :: 0 <= i < |out.relos| ==>
        FileNumbers.EntryAt(im.Flat(), OffRelo(im.Flat()) + 8 * i, out.relos[i])
    ensures forall i :: 0 <= i < |out.names| ==> NameSays(im.Flat(), out, i)
  {
    TablesFrom(im.Flat(), out);
    TextHeld(im, out);
    forall i | 0 <= i < |out.relos| ensures FileNumbers.EntryAt(im.Flat(), OffRelo(im.Flat()) + 8 * i, out.relos[i]) {
      EntryFound(im, out, i);
    }
    forall i | 0 <= i < |out.names| ensures NameSays(im.Flat(), out, i) { NameFound(im, out, im.Flat(), i); }
  }

  lemma {:induction false} EntryFound(im: Image, out: Output, i: nat)
    requires Shows(im, out) && i < |out.relos|
    ensures FileNumbers.EntryAt(im.Flat(), EntriesAt(out) + 8 * i, out.relos[i])
  {
    EntryHeld(im, out, i);
    assert EntryIs(im, out, i);
    EntryTells(im.Flat(), EntriesAt(out) + 8 * i, out.relos[i], im.recs[i]);
  }

  lemma {:induction false} NameFound(im: Image, out: Output, f: seq<byte>, i: nat)
    requires Shows(im, out) && i < |out.names| && f == im.Flat() && |f| >= 20
    requires OffName(f) == NamesAt(out) && OffChar(f) == TextAt(out) && Holds(f, TextAt(out), Strings(out.names))
    ensures NameSays(f, out, i)
  {
    NameHeld(im, out, i);
    assert NameIs(im, out, i);
    NameFrom(f, out, i, im.names[i]);
  }

  lemma {:induction false} NameFrom(f: seq<byte>, out: Output, i: nat, b: seq<byte>)
    requires |f| >= 20 && i < |out.names| && Holds(f, NamesAt(out) + 12 * i, b)
    requires NameEncodes(b, out.names[i], StringAt(out, i)) && Holds(f, TextAt(out), Strings(out.names))
    requires OffName(f) == NamesAt(out) && OffChar(f) == TextAt(out)
    ensures NameSays(f, out, i)
  {
    NameTells(f, NamesAt(out) + 12 * i, out.names[i], StringAt(out, i), b);
    if |out.names[i].str| > 0 { StringFrom(f, TextAt(out), out.names, i); }
  }

  lemma {:induction false} ImageTells(im: Image, out: Output)
    requires Shows(im, out) && |out.sects| <= MAXSECT
    ensures FileSays(im.Flat(), out)
  {
    var f := im.Flat();
    FrontIn(im);
    HeaderFrom(f, out, im.header);
    forall s | 0 <= s < |out.sects| ensures SectionSays(f, out, s) {
      assert RowIs(im, out, s);
      TableLaid(im, s);
      DataHeld(im, out, s);
      SectionFrom(f, out, s, im.table[s]);
    }
    if CountsFit(out) { TablesTell(im, out); }
  }

  /** All that the file says is what the output has. */
  lemma {:induction false} FileTells(out: Output)
    requires |out.sects| <= MAXSECT
    ensures FileSays(FileOf(out), out)
  {
    ImageShows(out);
    ImageTells(ImageFor(out), out);
  }
}
