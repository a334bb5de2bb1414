/** The file that write_bytes (Ack-5.5/ld/memory.c) makes when all is in core. */
module CoreFile {
  import opened Bytes
  import opened Names
  import opened LinkModel
  import opened EntryFormat
  import opened NameFormat
  import opened Placement
  import opened WriteLog
  import opened OutputFile
  import opened FileImage
  import opened FileNumbers
  import opened FileReading
  import ObjectWriter

  /** The visits that bring each section its bytes, in order. */
  function InTurn(pieces: seq<seq<byte>>, k: nat): (r: seq<Visit>)
    requires k <= |pieces|
    ensures |r| == k && forall s :: 0 <= s < k ==> r[s] == Visit(s, pieces[s])
  {
    seq(k, s requires 0 <= s < k => Visit(s, pieces[s]))
  }

  lemma {:induction false} InTurnSame(pieces: seq<seq<byte>>)
    ensures AllSame(InTurn(pieces, |pieces|))
  {
    var vs := InTurn(pieces, |pieces|);
    forall j | 0 <= j < |vs| ensures EntrySame(vs, j) {
      if j == ObjectWriter.SHARED { LowLastShared(vs[..j]); }
    }
  }

  lemma {:induction false} LowLastShared(vs: seq<Visit>)
    requires forall j :: 0 <= j < |vs| ==> vs[j].sect < ObjectWriter.SHARED
    ensures LastShared(vs) == ObjectWriter.SHARED
    decreases |vs|
  {
    if |vs| > 0 { LowLastShared(vs[..|vs| - 1]); }
  }

  /** The first k pieces. */
  function FirstOnes(out: seq<seq<byte>>, k: nat): (r: seq<seq<byte>>)
    requires k <= |out|
    ensures |r| == |out| && forall s :: 0 <= s < |out| ==> r[s] == if s < k then out[s] else []
  {
    seq(|out|, s requires 0 <= s < |out| => if s < k then out[s] else [])
  }

  lemma {:induction false} PieceWritten(calls: seq<ObjectWriter.Call>, out: seq<seq<byte>>, k: nat)
    requires |out| == MAXSECT && k < MAXSECT && Logged(calls, Track(FirstOnes(out, k), InTurn(out, k)), [], [], [])
    ensures Logged(calls + [ObjectWriter.Sect(k)] + [ObjectWriter.Emit(out[k])],
                Track(FirstOnes(out, k + 1), InTurn(out, k + 1)), [], [], [])
  {
    var was := Track(FirstOnes(out, k), InTurn(out, k));
    LoggedSect(calls, was, [], [], [], k);
    LoggedEmit(calls + [ObjectWriter.Sect(k)], was.Entered(k), [], [], [], out[k]);
    assert was.visits + [Visit(k, out[k])] == InTurn(out, k + 1);
    assert [] + out[k] == out[k];
    assert was.out[k := out[k]] == FirstOnes(out, k + 1);
  }

  method WriteSections(emit: seq<seq<byte>>) returns (calls: seq<ObjectWriter.Call>)
    requires |emit| == MAXSECT
    ensures Logged(calls, Track(emit, InTurn(emit, MAXSECT)), [], [], [])
  {
    calls := [];
    var s := 0;
    LoggedNothing();
    assert FirstOnes(emit, 0) == seq(MAXSECT, _ => []) && InTurn(emit, 0) == [];
    while s < MAXSECT
      invariant 0 <= s <= MAXSECT && Logged(calls, Track(FirstOnes(emit, s), InTurn(emit, s)), [], [], [])
    {
      PieceWritten(calls, emit, s);
      calls := calls + [ObjectWriter.Sect(s)] + [ObjectWriter.Emit(emit[s])];
      s := s + 1;
    }
    assert FirstOnes(emit, MAXSECT) == emit;
  }

  lemma {:induction false} RecordsLogged(calls: seq<ObjectWriter.Call>, k: Track, relos: seq<seq<byte>>,
      a: seq<seq<byte>>, b: seq<seq<byte>>, recs: seq<seq<byte>>)
    requires Logged(calls, k, relos, [], []) && AllTwelve(a) && AllTwelve(b) && recs == a + b
    ensures Logged(calls + [ObjectWriter.Name(a)] + [ObjectWriter.Name(b)], k, relos, recs, [])
  {
    LoggedNames(calls, k, relos, [], [], a);
    assert [] + a == a;
    LoggedNames(calls + [ObjectWriter.Name(a)], k, relos, a, [], b);
  }

  lemma {:induction false} TextsLogged(calls: seq<ObjectWriter.Call>, k: Track, relos: seq<seq<byte>>,
      recs: seq<seq<byte>>, a: seq<byte>, b: seq<byte>, text: seq<byte>)
    requires Logged(calls, k, relos, recs, []) && text == a + b
    ensures Logged(calls + [ObjectWriter.Text(a)] + [ObjectWriter.Text(b)], k, relos, recs, text)
  {
    LoggedText(calls, k, relos, recs, [], a);
    assert [] + a == a;
    LoggedText(calls + [ObjectWriter.Text(a)], k, relos, recs, a, b);
  }

  /** Local names and global names have areas of their own, in which their strings were saved. */
  method WriteNames(calls: seq<ObjectWriter.Call>, locals: seq<Name>, globals: seq<Name>, offchar: nat, ghost k: Track,
      ghost relos: seq<seq<byte>>) returns (more: seq<ObjectWriter.Call>)
    requires offchar > 0 && Logged(calls, k, relos, [], [])
    ensures Logged(more, k, relos, NameRecs(locals + globals, offchar), Strings(locals + globals))
  {
    var localOffs, localChars := SaveNames(locals);
    var globalOffs, globalChars := SaveNames(globals);
    var nlchars := |localChars| - 1;
    var foffs := NameCpy(localOffs, offchar, locals);
    var goffs := NameCpy(globalOffs, offchar + nlchars, globals);
    NameParts(locals, globals, offchar, foffs, goffs, localChars[1..], globalChars[1..]);
    var a, b := RecordsAt(locals, foffs), RecordsAt(globals, goffs);
    RecordsLogged(calls, k, relos, a, b, NameRecs(locals + globals, offchar));
    more := calls + [ObjectWriter.Name(a)] + [ObjectWriter.Name(b)];
    TextsLogged(more, k, relos, NameRecs(locals + globals, offchar), localChars[1..], globalChars[1..],
        Strings(locals + globals));
    more := more + [ObjectWriter.Text(localChars[1..])] + [ObjectWriter.Text(globalChars[1..])];
  }

  lemma {:induction false} NameParts(locals: seq<Name>, globals: seq<Name>, offchar: nat, foffs: seq<nat>,
      goffs: seq<nat>, x: seq<byte>, y: seq<byte>)
    requires foffs == Offs(locals, offchar) && goffs == NewOffs(locals, globals, offchar)
    requires x == Strings(locals) && y == Strings(globals)
    ensures AllTwelve(RecordsAt(locals, foffs)) && AllTwelve(RecordsAt(globals, goffs))
    ensures NameRecs(locals + globals, offchar) == RecordsAt(locals, foffs) + RecordsAt(globals, goffs)
    ensures Strings(locals + globals) == x + y
  {
    RecordsSized(locals, foffs);
    RecordsSized(globals, goffs);
    RecsWritten(locals, globals, offchar);
    StringsAppend(locals, globals);
  }

  /** The source's write_bytes, but for the header and the section table. */
  method WriteBytes(out: Output, nlocals: nat, keep: bool) returns (calls: seq<ObjectWriter.Call>)
    requires nlocals <= |out.names| && (!keep ==> out.relos == [])
    ensures var im := ImageFor(out);
      Logged(calls, Track(im.out, InTurn(im.out, MAXSECT)), im.recs, im.names, im.text)
  {
    var emit := Datas(out.sects);
    calls := WriteSections(emit);
    if keep {
      EntriesSized(out.relos);
      LoggedRelos(calls, Track(emit, InTurn(emit, MAXSECT)), [], [], [], Entries(out.relos));
      assert [] + Entries(out.relos) == Entries(out.relos);
      calls := calls + [ObjectWriter.Relo(Entries(out.relos))];
    }
    var offchar := NamesStart(Heads(out.sects), |out.relos|, |out.names|);
    var locals, globals := out.names[..nlocals], out.names[nlocals..];
    assert out.names == locals + globals;
    calls := WriteNames(calls, locals, globals, offchar, Track(emit, InTurn(emit, MAXSECT)), Entries(out.relos));
  }

  /** beginoutput and endoutput when all is in core. */
  method OutputInCore(out: Output, nlocals: nat, keep: bool) returns (f: seq<byte>)
    requires |out.sects| <= MAXSECT && nlocals <= |out.names| && (!keep ==> out.relos == [])
    ensures f == FileOf(out) && FileSays(f, out)
  {
    FileTells(out);
    var hs := Heads(out.sects);
    var calls := WriteBytes(out, nlocals, keep);
    ghost var im := ImageFor(out);
    ImageIsValid(out.unresolved, hs, Datas(out.sects), out.relos, out.names);
    InTurnSame(im.out);
    var header := HeadBytes(HeadOf(out.unresolved, hs, |out.relos|, out.names));
    FileOffsetsAre(hs);
    f := WriteFile(header, TableBytes(hs), FileOffsets(hs), Emitted(hs), |out.relos|,
        |out.names|, calls, im, InTurn(im.out, MAXSECT), true);
  }
}
