/**
  The two files compared, byte by byte: they differ in the order of the entries,
  and where the bases of local names are left out of one of them.
 */
module FilesAgree {
  import opened Bytes
  import opened FileCursor
  import opened Names
  import opened LinkModel
  import opened ObjectFormat
  import opened NameFormat
  import opened EntryFormat
  import opened WriteLog
  import opened OutputFile
  import opened FileImage
  import opened Agreement
  import opened StrategyFiles
  import ReRead

  // -------------------------------------------------------- records of names

  predicate AllSameRecord(a: seq<Name>, b: seq<Name>) {
    |a| == |b| && forall i :: 0 <= i < |a| ==> SameRecord(a[i], b[i])
  }

  lemma {:induction false} RecordsSame(a: seq<Name>, b: seq<Name>, offs: seq<nat>)
    requires |a| == |b| == |offs|
    ensures RecordsAt(a, offs) == RecordsAt(b, offs) <==> AllSameRecord(a, b)
    decreases |a|
  {
    if |a| > 0 {
      var n := |a| - 1;
      RecordsSame(a[..n], b[..n], offs[..n]);
      RecordsLast(a, b, offs);
      AllSameLast(a, b);
    }
  }

  lemma {:induction false} RecordsLast(a: seq<Name>, b: seq<Name>, offs: seq<nat>)
    requires |a| == |b| == |offs| > 0
    ensures var n := |a| - 1;
      (RecordsAt(a, offs) == RecordsAt(b, offs)) ==
        (RecordsAt(a[..n], offs[..n]) == RecordsAt(b[..n], offs[..n]) && SameRecord(a[n], b[n]))
  {
    var n := |a| - 1;
    SameBytes(a[n], b[n], offs[n]);
    SameEnd(RecordsAt(a[..n], offs[..n]), NameBytes(a[n], offs[n]), RecordsAt(b[..n], offs[..n]),
        NameBytes(b[n], offs[n]));
  }

  lemma AllSameLast(a: seq<Name>, b: seq<Name>)
    requires |a| == |b| > 0
    ensures AllSameRecord(a, b) <==> AllSameRecord(a[..|a| - 1], b[..|a| - 1]) && SameRecord(a[|a| - 1], b[|a| - 1])
  {
    var x, y := a[..|a| - 1], b[..|a| - 1];
    if AllSameRecord(x, y) && SameRecord(a[|a| - 1], b[|a| - 1]) {
      forall i | 0 <= i < |a| ensures SameRecord(a[i], b[i]) {
        if i < |x| { assert SameRecord(x[i], y[i]); }
      }
    }
  }

  lemma AllSameAppend(a: seq<Name>, b: seq<Name>, c: seq<Name>)
    requires |a| == |b|
    ensures AllSameRecord(a + c, b + c) <==> AllSameRecord(a, b)
  {
    if AllSameRecord(a, b) {
      forall i | 0 <= i < |a + c| ensures SameRecord((a + c)[i], (b + c)[i]) {
        if i < |a| { assert SameRecord(a[i], b[i]); }
      }
    }
    if AllSameRecord(a + c, b + c) {
      forall i | 0 <= i < |a| ensures SameRecord(a[i], b[i]) { assert SameRecord((a + c)[i], (b + c)[i]); }
    }
  }

  // ------------------------------------------------------------- four bytes

  /** What of the bases can be seen in the four bytes of a value. */
  function FourBytes(base: seq<int>): (r: seq<int>)
    ensures |r| == |base| && forall s :: 0 <= s < |r| ==> r[s] == base[s] % 0x1_0000_0000
  {
    seq(|base|, s requires 0 <= s < |base| => base[s] % 0x1_0000_0000)
  }

  lemma FourBytesSame(a: int, b: int)
    ensures Put(a, 4) == Put(b, 4) <==> a % 0x1_0000_0000 == b % 0x1_0000_0000
  {
    PutSame(a, b, 4);
    assert Pow256(1) == 256 && Pow256(2) == 0x1_0000 && Pow256(3) == 0x100_0000 && Pow256(4) == 0x1_0000_0000;
  }

  /** Adding a base leaves the record as it was exactly if it adds nothing to the four bytes. */
  lemma {:induction false} SameMoved(n: Name, base: seq<int>)
    ensures SameRecord(n, NameRelocate(n, base)) <==> NameRelocate(n, FourBytes(base)) == n
  {
    SameButValue(n, NameRelocate(n, base));
    AddedNothing(n.valu, At(base, n.typ - S_MIN));
  }

  lemma {:induction false} SameButValue(n: Name, m: Name)
    requires m == n.(valu := m.valu)
    ensures SameRecord(n, m) <==> n.valu % 0x1_0000_0000 == m.valu % 0x1_0000_0000
  {
    FourBytesSame(n.valu, m.valu);
    assert TypeWord(n) == TypeWord(m);
  }

  lemma AddedNothing(v: int, b: int)
    ensures v % 0x1_0000_0000 == (v + b) % 0x1_0000_0000 <==> b % 0x1_0000_0000 == 0
  {
  }

  lemma {:induction false} AllSameMoved(ns: seq<Name>, base: seq<int>)
    ensures AllSameRecord(ns, RelocateAll(ns, base)) <==> RelocateAll(ns, FourBytes(base)) == ns
  {
    forall i | 0 <= i < |ns|
      ensures SameRecord(ns[i], RelocateAll(ns, base)[i]) <==> RelocateAll(ns, FourBytes(base))[i] == ns[i]
    {
      SameMoved(ns[i], base);
    }
    if RelocateAll(ns, FourBytes(base)) == ns {
      forall i | 0 <= i < |ns| ensures SameRecord(ns[i], RelocateAll(ns, base)[i]) {
        assert RelocateAll(ns, FourBytes(base))[i] == ns[i];
      }
    }
  }

  // ---------------------------------------------------------------- the files

  /** Does some module have a local name in a section whose base shows in four bytes, left out by -n? */
  predicate NamesDisagree(o: Options, ms: seq<Module>)
    requires NSect(ms) <= MAXSECT
  {
    o.nflag && !Relocatable(o, Globals(ms)) && AnyModuleAway(ms, FourBytes(EnvOf(o, ms).base))
  }

  lemma {:induction false} LocalsSame(o: Options, ms: seq<Module>)
    requires AllWellFormed(ms) && NSect(ms) <= MAXSECT
    ensures |OutLocals(o, ms)| == |Locals(ms)|
    ensures AllSameRecord(OutLocals(o, ms), RelocateAll(Locals(ms), EnvOf(o, ms).base)) <==> !NamesDisagree(o, ms)
  {
    var base := EnvOf(o, ms).base;
    if o.nflag && !Relocatable(o, Globals(ms)) {
      AllSameMoved(Locals(ms), base);
      LocalsMove(ms, FourBytes(base));
    } else {
      NamesAgree(o, ms);
    }
  }

  /** The records of the names are the same exactly then, and their strings always. */
  lemma {:induction false} NameRegions(o: Options, ms: seq<Module>, blks: seq<seq<nat>>, at: nat)
    requires AllWellFormed(ms) && NSect(ms) <= MAXSECT && ReRead.Matches(ms, blks)
    ensures var a, b := Link(o, ms).names, LinkAgain(o, ms, blks).names;
      && |a| == |b| && Room(a) == Room(b) && Strings(a) == Strings(b)
      && (NameRecs(a, at) == NameRecs(b, at) <==> !NamesDisagree(o, ms))
  {
    var env := EnvOf(o, ms);
    var x, y, g, s := OutLocals(o, ms), RelocateAll(Locals(ms), env.base), env.globals,
        SectionNames(env.base, env.nsect);
    LocalsSame(o, ms);
    AllSameAppend(x + g, y + g, s);
    AllSameAppend(x, y, g);
    SameStrings(o, ms, env.base);
    SameStrAppend(x, y, g);
    SameStrAppend(x + g, y + g, s);
    OffsSame(x + g + s, y + g + s, at);
    RecordsSame(x + g + s, y + g + s, Offs(x + g + s, at));
    StringsAppend(x + g, s);
    StringsAppend(y + g, s);
    StringsAppend(x, g);
    StringsAppend(y, g);
  }

  lemma {:induction false} SameStrings(o: Options, ms: seq<Module>, base: seq<int>)
    requires NSect(ms) <= MAXSECT && base == EnvOf(o, ms).base
    ensures Strings(OutLocals(o, ms)) == Strings(RelocateAll(Locals(ms), base))
    ensures AllSameStr(OutLocals(o, ms), RelocateAll(Locals(ms), base))
  {
    RoomMoved(Locals(ms), base);
  }

  predicate SameStr(a: Name, b: Name) {
    a.str == b.str
  }

  predicate AllSameStr(a: seq<Name>, b: seq<Name>) {
    |a| == |b| && forall i :: 0 <= i < |a| ==> SameStr(a[i], b[i])
  }

  lemma SameStrAppend(a: seq<Name>, b: seq<Name>, c: seq<Name>)
    requires AllSameStr(a, b)
    ensures AllSameStr(a + c, b + c)
  {
    forall i | 0 <= i < |a + c| ensures SameStr((a + c)[i], (b + c)[i]) {
      if i < |a| { assert SameStr(a[i], b[i]); }
    }
  }

  lemma {:induction false} OffsSame(a: seq<Name>, b: seq<Name>, at: nat)
    requires AllSameStr(a, b)
    ensures Offs(a, at) == Offs(b, at) && Room(a) == Room(b)
    decreases |a|
  {
    if |a| > 0 {
      var n := |a| - 1;
      forall i | 0 <= i < n ensures SameStr(a[..n][i], b[..n][i]) { assert SameStr(a[i], b[i]); }
      OffsSame(a[..n], b[..n], at);
      assert SameStr(a[n], b[n]);
    }
  }

  lemma {:induction false} ConcatSame(a: seq<seq<byte>>, b: seq<seq<byte>>, size: nat)
    requires AllOf(a, size) && AllOf(b, size) && |a| == |b|
    ensures Concat(a) == Concat(b) <==> a == b
    decreases |a|
  {
    if |a| > 0 {
      var n := |a| - 1;
      ConcatSame(a[..n], b[..n], size);
      ConcatLength(a[..n], size);
      ConcatLength(b[..n], size);
      SamePieces(Concat(a[..n]), a[n], Concat(b[..n]), b[n]);
      SameEnd(a[..n], a[n], b[..n], b[n]);
      assert a == a[..n] + [a[n]] && b == b[..n] + [b[n]];
    }
  }

  /** Two images with all the same but the entries and names: the files are the same exactly if these are. */
  lemma {:induction false} FlatSame(a: Image, b: Image)
    requires a.Valid() && b.Valid() && a.header == b.header && a.table == b.table && a.out == b.out && a.text == b.text
    requires |a.recs| == |b.recs| && |a.names| == |b.names|
    ensures a.Flat() == b.Flat() <==> a.recs == b.recs && a.names == b.names
  {
    FlatParts(a);
    FlatParts(b);
    var x, x', y, y' := Concat(a.recs), Concat(b.recs), Concat(a.names), Concat(b.names);
    ConcatLength(a.recs, SZ_RELO);
    ConcatLength(b.recs, SZ_RELO);
    ConcatLength(a.names, SZ_NAME);
    ConcatLength(b.names, SZ_NAME);
    ConcatSame(a.recs, b.recs, SZ_RELO);
    ConcatSame(a.names, b.names, SZ_NAME);
    SamePieces(Before(a) + x + y, a.text, Before(b) + x' + y', b.text);
    SamePieces(Before(a) + x, y, Before(b) + x', y');
    SamePieces(Before(a), x, Before(b), x');
  }

  /** What comes before the entries. */
  function Before(im: Image): seq<byte>
    requires |im.out| == MAXSECT
  {
    Concat([im.Front() + im.out[0]] + im.out[1..])
  }

  lemma {:induction false} FlatParts(im: Image)
    requires |im.out| == MAXSECT
    ensures im.Flat() == Before(im) + Concat(im.recs) + Concat(im.names) + im.text
  {
    var pieces := [im.Front() + im.out[0]] + im.out[1..];
    ConcatLast(pieces, Concat(im.recs));
    ConcatLast(pieces + [Concat(im.recs)], Concat(im.names));
    ConcatLast(pieces + [Concat(im.recs)] + [Concat(im.names)], im.text);
    assert im.Pieces() == pieces + [Concat(im.recs)] + [Concat(im.names)] + [im.text];
  }

  /**
    The files of the two strategies are the same exactly if the entries come in the
    same order and -n leaves out no base that shows in a local name. Up to order the
    entries are always the same.
   */
  lemma {:induction false} FilesSame(o: Options, ms: seq<Module>, blks: seq<seq<nat>>)
    requires AllWellFormed(ms) && NSect(ms) <= MAXSECT && ReRead.Matches(ms, blks)
    ensures var a, b := Link(o, ms), LinkAgain(o, ms, blks);
      FileOf(a) == FileOf(b) <==> Entries(a.relos) == Entries(b.relos) && !NamesDisagree(o, ms)
    ensures Keeps(o, ms) ==> SameUpToOrder(ms, LinkAgain(o, ms, blks).relos, Link(o, ms).relos)
    ensures !Keeps(o, ms) ==> Link(o, ms).relos == LinkAgain(o, ms, blks).relos == []
  {
    var env, a, b := EnvOf(o, ms), Link(o, ms), LinkAgain(o, ms, blks);
    EntriesAgree(env, ms, blks);
    Agreement.SameLengths(ms, ReRead.WrittenRelos(env, ms, blks), OutRelos(env, ms));
    NameRegions(o, ms, blks, NamesStart(Heads(a.sects), |a.relos|, |a.names|));
    ImagesValid(o, ms, blks);
    FlatSame(ImageFor(a), ImageFor(b));
  }

  lemma {:induction false} ImagesValid(o: Options, ms: seq<Module>, blks: seq<seq<nat>>)
    requires NSect(ms) <= MAXSECT && ReRead.Matches(ms, blks)
    ensures ImageFor(Link(o, ms)).Valid() && ImageFor(LinkAgain(o, ms, blks)).Valid()
  {
    var a, b := Link(o, ms), LinkAgain(o, ms, blks);
    ImageIsValid(a.unresolved, Heads(a.sects), Datas(a.sects), a.relos, a.names);
    ImageIsValid(b.unresolved, Heads(b.sects), Datas(b.sects), b.relos, b.names);
  }
}
