/**
  Names as the object format has them: records with an offset into the string
  area, which are made in core by namecpy (Ack-5.5/ld/memory.c) and one by one by
  wrt_name (Ack-5.5/ld/write.c).
 */
module NameFormat {
  import opened Bytes
  import opened Names
  import opened ObjectFormat

  const S_EXT := 0x80
  const S_SCT := 0x100
  const S_COM := 0x1000

  /** on_type: the S_TYP field, the S_EXT, S_SCT and S_COM bits, and the others. */
  function TypeWord(n: Name): int {
    n.typ + (if n.ext then S_EXT else 0) + (if n.sct then S_SCT else 0) + (if n.com then S_COM else 0) + n.etc
  }

  /** The string of a name with its nul; a name without a string has none. */
  function StringOf(n: Name): (b: seq<byte>)
    ensures |b| == StringRoom(n)
  {
    if |n.str| == 0 then [] else CharBytes(n.str) + [0]
  }

  function CharBytes(s: string): (b: seq<byte>)
    ensures |b| == |s|
  {
    if |s| == 0 then [] else CharBytes(s[..|s| - 1]) + [(s[|s| - 1] as int % 256) as byte]
  }

  function Strings(ns: seq<Name>): (b: seq<byte>)
    ensures |b| == Room(ns)
  {
    if |ns| == 0 then [] else Strings(ns[..|ns| - 1]) + StringOf(ns[|ns| - 1])
  }

  /** How many bytes the strings take. */
  function Room(ns: seq<Name>): nat {
    if |ns| == 0 then 0 else Room(ns[..|ns| - 1]) + StringRoom(ns[|ns| - 1])
  }

  function StringRoom(n: Name): nat {
    if |n.str| == 0 then 0 else |n.str| + 1
  }

  /** on_foff, on_type, on_desc and on_valu. */
  function NameFields(n: Name, foff: nat): seq<int> {
    [foff, TypeWord(n), n.desc, n.valu]
  }

  function NameBytes(n: Name, foff: nat): (b: seq<byte>)
    ensures |b| == 12
  {
    LayoutsValid();
    Record(NameFields(n, foff), NAME)
  }

  /** Where the string of a name is, if it has one. */
  function FileOffset(n: Name, at: nat): nat {
    if |n.str| == 0 then 0 else at
  }

  /** The offsets of the strings, if they follow one another from `at` on. */
  function Offs(ns: seq<Name>, at: nat): (r: seq<nat>)
    ensures |r| == |ns|
  {
    if |ns| == 0 then [] else Offs(ns[..|ns| - 1], at) + [FileOffset(ns[|ns| - 1], at + Room(ns[..|ns| - 1]))]
  }

  /** The records of names with these offsets. */
  function RecordsAt(ns: seq<Name>, offs: seq<nat>): (r: seq<seq<byte>>)
    requires |ns| == |offs|
    ensures |r| == |ns|
  {
    if |ns| == 0 then []
    else
      var n := |ns| - 1;
      RecordsAt(ns[..n], offs[..n]) + [NameBytes(ns[n], offs[n])]
  }

  function NameRecs(ns: seq<Name>, at: nat): (r: seq<seq<byte>>)
    ensures |r| == |ns|
  {
    RecordsAt(ns, Offs(ns, at))
  }

  lemma {:induction false} RecordsAtAppend(a: seq<Name>, x: seq<nat>, b: seq<Name>, y: seq<nat>)
    requires |a| == |x| && |b| == |y|
    ensures RecordsAt(a + b, x + y) == RecordsAt(a, x) + RecordsAt(b, y)
    decreases |b|
  {
    if |b| == 0 {
      PlusNothing(a);
      PlusNothing(x);
    } else {
      RecordsAtAppend(a, x, b[..|b| - 1], y[..|b| - 1]);
      assert (a + b)[..|a + b| - 1] == a + b[..|b| - 1] && (x + y)[..|a + b| - 1] == x + y[..|b| - 1];
    }
  }

  predicate AllTwelve(recs: seq<seq<byte>>) {
    forall i :: 0 <= i < |recs| ==> |recs[i]| == 12
  }

  lemma {:induction false} RecordsSized(ns: seq<Name>, offs: seq<nat>)
    requires |ns| == |offs|
    ensures AllTwelve(RecordsAt(ns, offs))
    decreases |ns|
  {
    if |ns| > 0 { RecordsSized(ns[..|ns| - 1], offs[..|ns| - 1]); }
  }

  lemma {:induction false} StringsAppend(a: seq<Name>, b: seq<Name>)
    ensures Strings(a + b) == Strings(a) + Strings(b)
    decreases |b|
  {
    if |b| == 0 {
      assert a + b == a;
    } else {
      StringsAppend(a, b[..|b| - 1]);
      Associate(Strings(a), Strings(b[..|b| - 1]), StringOf(b[|b| - 1]));
      assert (a + b)[..|a + b| - 1] == a + b[..|b| - 1];
    }
  }

  lemma {:induction false} RoomAppend(a: seq<Name>, b: seq<Name>)
    ensures Room(a + b) == Room(a) + Room(b)
    decreases |b|
  {
    if b == [] {
      PlusNothing(a);
    } else {
      RoomAppend(a, b[..|b| - 1]);
      assert (a + b)[..|a + b| - 1] == a + b[..|b| - 1];
    }
  }

  lemma {:induction false} OffsAppend(a: seq<Name>, b: seq<Name>, at: nat)
    ensures Offs(a + b, at) == Offs(a, at) + Offs(b, at + Room(a))
    decreases |b|
  {
    if b == [] {
      PlusNothing(a);
    } else {
      OffsAppend(a, b[..|b| - 1], at);
      RoomAppend(a, b[..|b| - 1]);
      assert (a + b)[..|a + b| - 1] == a + b[..|b| - 1];
    }
  }

  lemma {:induction false} StringsLast(ns: seq<Name>, n: Name)
    ensures Strings(ns + [n]) == Strings(ns) + StringOf(n) && Room(ns + [n]) == Room(ns) + StringRoom(n)
  {
    WithLast(ns, n);
  }

  lemma {:induction false} OffsLast(ns: seq<Name>, n: Name, at: nat)
    ensures Offs(ns + [n], at) == Offs(ns, at) + [FileOffset(n, at + Room(ns))]
  {
    WithLast(ns, n);
  }

  lemma {:induction false} PrefixStrings(ns: seq<Name>, i: nat)
    requires i < |ns|
    ensures Strings(ns[..i + 1]) == Strings(ns[..i]) + StringOf(ns[i])
  {
    UpTo(ns, i);
    WithLast(ns[..i], ns[i]);
  }

  lemma {:induction false} PrefixOffs(ns: seq<Name>, i: nat, at: nat)
    requires i < |ns|
    ensures Offs(ns[..i + 1], at) == Offs(ns[..i], at) + [FileOffset(ns[i], at + Room(ns[..i]))]
  {
    UpTo(ns, i);
    WithLast(ns[..i], ns[i]);
  }

  // --------------------------------------------------------------- made in core

  /** Names and their strings, put into the pieces for them; the first byte of the characters is not used. */
  method SaveNames(ns: seq<Name>) returns (offs: seq<nat>, chars: seq<byte>)
    ensures offs == Offs(ns, 1) && chars == [0] + Strings(ns)
  {
    offs, chars := [], [0];
    var i := 0;
    assert [0] + Strings(ns[..0]) == [0];
    while i < |ns|
      invariant 0 <= i <= |ns| && offs == Offs(ns[..i], 1) && chars == [0] + Strings(ns[..i])
    {
      PrefixStrings(ns, i);
      PrefixOffs(ns, i, 1);
      Associate([0], Strings(ns[..i]), StringOf(ns[i]));
      offs := offs + [if |ns[i].str| == 0 then 0 else |chars|];
      chars := chars + StringOf(ns[i]);
      i := i + 1;
    }
    assert ns[..i] == ns;
  }

  /** The source's namecpy: offsets in the piece become offsets in the file. */
  method NameCpy(offs: seq<nat>, offchar: nat, ghost ns: seq<Name>) returns (foffs: seq<nat>)
    requires offs == Offs(ns, 1) && offchar > 0
    ensures foffs == Offs(ns, offchar)
  {
    foffs := [];
    var i := 0;
    while i < |offs|
      invariant 0 <= i <= |offs| && foffs == Offs(ns[..i], offchar)
    {
      OffsAt(ns, i, 1);
      PrefixOffs(ns, i, offchar);
      var foff := if offs[i] != 0 then offs[i] + offchar - 1 else 0;
      assert foff == FileOffset(ns[i], offchar + Room(ns[..i]));
      foffs := foffs + [foff];
      i := i + 1;
    }
    assert ns[..i] == ns;
  }

  lemma {:induction false} OffsAt(ns: seq<Name>, i: nat, at: nat)
    requires i < |ns|
    ensures Offs(ns, at)[i] == FileOffset(ns[i], at + Room(ns[..i]))
    decreases |ns|
  {
    if i < |ns| - 1 {
      OffsAt(ns[..|ns| - 1], i, at);
      assert ns[..|ns| - 1][..i] == ns[..i];
    }
  }

  // -------------------------------------------------------- written one by one

  /** Where the strings of ns are, after those of `names`. */
  function NewOffs(names: seq<Name>, ns: seq<Name>, first: nat): (r: seq<nat>)
    ensures |r| == |ns|
  {
    Offs(ns, first + Room(names))
  }

  /** Records and text for `names`, and the strings of ns; the next string goes to `off`. */
  ghost predicate NamesAre(names: seq<Name>, ns: seq<Name>, first: nat, recs: seq<seq<byte>>, text: seq<byte>,
      off: nat) {
    && recs == NameRecs(names, first) && text == Strings(names) + Strings(ns)
    && off == first + Room(names) + Room(ns)
  }

  lemma NoNames(first: nat)
    ensures NamesAre([], [], first, [], [], first)
  {
  }

  lemma {:induction false} StringWritten(names: seq<Name>, ns: seq<Name>, n: Name, first: nat, recs: seq<seq<byte>>,
      text: seq<byte>, off: nat)
    requires NamesAre(names, ns, first, recs, text, off)
    ensures NamesAre(names, ns + [n], first, recs, text + StringOf(n), off + StringRoom(n))
  {
    StringsLast(ns, n);
    Associate(Strings(names), Strings(ns), StringOf(n));
  }

  lemma {:induction false} NewOffsLast(names: seq<Name>, ns: seq<Name>, n: Name, first: nat, off: nat,
      foffs: seq<nat>, foff: nat)
    requires foffs == NewOffs(names, ns, first) && off == first + Room(names) + Room(ns) && foff == FileOffset(n, off)
    ensures foffs + [foff] == NewOffs(names, ns + [n], first)
  {
    OffsLast(ns, n, first + Room(names));
  }

  lemma {:induction false} TextWritten(names: seq<Name>, ns: seq<Name>, text: seq<byte>)
    requires text == Strings(names) + Strings(ns)
    ensures text == Strings(names + ns) + Strings([]) && Room(names + ns) + Room([]) == Room(names) + Room(ns)
  {
    StringsAppend(names, ns);
    RoomAppend(names, ns);
    PlusNothing(text);
  }

  lemma {:induction false} RecsWritten(names: seq<Name>, ns: seq<Name>, first: nat)
    ensures NameRecs(names + ns, first) == NameRecs(names, first) + RecordsAt(ns, NewOffs(names, ns, first))
  {
    OffsAppend(names, ns, first);
    RecordsAtAppend(names, Offs(names, first), ns, NewOffs(names, ns, first));
  }

  lemma {:induction false} RecordsWritten(names: seq<Name>, ns: seq<Name>, first: nat, recs: seq<seq<byte>>,
      text: seq<byte>, off: nat)
    requires NamesAre(names, ns, first, recs, text, off)
    ensures var news := RecordsAt(ns, NewOffs(names, ns, first));
      NamesAre(names + ns, [], first, recs + news, text, off) && AllTwelve(news)
  {
    RecsWritten(names, ns, first);
    RecordsSized(ns, NewOffs(names, ns, first));
    TextWritten(names, ns, text);
  }

  /** Records of the names ns, then their strings. */
  lemma {:induction false} GlobalsWritten(names: seq<Name>, ns: seq<Name>, first: nat, recs: seq<seq<byte>>,
      text: seq<byte>, off: nat)
    requires NamesAre(names, [], first, recs, text, off)
    ensures var news := RecordsAt(ns, Offs(ns, off));
      NamesAre(names + ns, [], first, recs + news, text + Strings(ns), off + Room(ns)) && AllTwelve(news)
    ensures ([0] + Strings(ns))[1..] == Strings(ns)
  {
    PlusNothing(Strings(names));
    assert off == first + Room(names) && text == Strings(names);
    assert Offs(ns, off) == NewOffs(names, ns, first);
    RecsWritten(names, ns, first);
    RecordsSized(ns, Offs(ns, off));
    TextWritten(names, ns, text + Strings(ns));
  }

  lemma {:induction false} NamesDone(names: seq<Name>, first: nat, recs: seq<seq<byte>>, text: seq<byte>, off: nat)
    requires NamesAre(names, [], first, recs, text, off)
    ensures recs == NameRecs(names, first) && text == Strings(names)
  {
    PlusNothing(Strings(names));
  }

  // --------------------------------------------------------- what the bytes tell

  /** Two names have the same record at every place exactly if their words are the same in the widths of the format. */
  predicate SameRecord(a: Name, b: Name) {
    && Put(TypeWord(a), 2) == Put(TypeWord(b), 2) && Put(a.desc, 2) == Put(b.desc, 2)
        && Put(a.valu, 4) == Put(b.valu, 4)
  }

  lemma {:induction false} EncodeNext(x: seq<int>, l: Layout, k: nat, b: seq<byte>)
    requires Shaped(x, l) && k < |l.fields| && Encode(x, l, k) == b
    ensures Encode(x, l, k + 1) == b + Put(x[k], l.fields[k].psize)
  {
  }

  lemma {:induction false} NameEncoded(n: Name, foff: nat)
    ensures NameBytes(n, foff) == Put(foff, 4) + Put(TypeWord(n), 2) + Put(n.desc, 2) + Put(n.valu, 4)
  {
    var x := NameFields(n, foff);
    EncodeNext(x, NAME, 0, []);
    assert [] + Put(foff, 4) == Put(foff, 4);
    EncodeNext(x, NAME, 1, Put(foff, 4));
    EncodeNext(x, NAME, 2, Put(foff, 4) + Put(TypeWord(n), 2));
    EncodeNext(x, NAME, 3, Put(foff, 4) + Put(TypeWord(n), 2) + Put(n.desc, 2));
  }

  lemma {:induction false} SameBytes(a: Name, b: Name, foff: nat)
    ensures NameBytes(a, foff) == NameBytes(b, foff) <==> SameRecord(a, b)
  {
    NameEncoded(a, foff);
    NameEncoded(b, foff);
    var x, y := Put(foff, 4) + Put(TypeWord(a), 2), Put(foff, 4) + Put(TypeWord(b), 2);
    SamePieces(Put(foff, 4), Put(TypeWord(a), 2), Put(foff, 4), Put(TypeWord(b), 2));
    SamePieces(x, Put(a.desc, 2), y, Put(b.desc, 2));
    SamePieces(x + Put(a.desc, 2), Put(a.valu, 4), y + Put(b.desc, 2), Put(b.valu, 4));
  }
}
