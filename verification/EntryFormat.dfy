/** Relocation entries as the object format has them. */
module EntryFormat {
  import opened Bytes
  import Names
  import opened Relocation
  import opened LinkModel
  import opened ObjectFormat

  /** or_type: the length and the RELPC, RELBR and RELWR bits. */
  function TypeBits(t: RelType): int {
    t.size + (if t.pc then 8 else 0) + (if t.br then 16 else 0) + (if t.wr then 32 else 0)
  }

  /** or_type, or_sect, or_nami and or_addr. */
  function FieldsOf(r: LinkModel.Relo): seq<int> {
    [TypeBits(r.t), Names.S_MIN + r.sect, r.nami, r.addr]
  }

  function EntryBytes(r: LinkModel.Relo): (b: seq<byte>)
    ensures |b| == 8
  {
    LayoutsValid();
    Encode(FieldsOf(r), RELO, 4)
  }

  function Entries(rs: seq<LinkModel.Relo>): (b: seq<seq<byte>>)
    ensures |b| == |rs|
  {
    if |rs| == 0 then [] else Entries(rs[..|rs| - 1]) + [EntryBytes(rs[|rs| - 1])]
  }

  lemma {:induction false} EntriesLast(rs: seq<LinkModel.Relo>, r: LinkModel.Relo)
    ensures Entries(rs + [r]) == Entries(rs) + [EntryBytes(r)]
  {
    WithLast(rs, r);
  }

  lemma {:induction false} EntryAt(rs: seq<LinkModel.Relo>, i: nat)
    requires i < |rs|
    ensures Entries(rs)[i] == EntryBytes(rs[i])
    decreases |rs|
  {
    if i < |rs| - 1 { EntryAt(rs[..|rs| - 1], i); }
  }

  /** All entries take eight bytes. */
  predicate AllEight(recs: seq<seq<byte>>) {
    forall i :: 0 <= i < |recs| ==> |recs[i]| == 8
  }

  lemma {:induction false} EntriesSized(rs: seq<LinkModel.Relo>)
    ensures AllEight(Entries(rs))
    decreases |rs|
  {
    if |rs| > 0 { EntriesSized(rs[..|rs| - 1]); }
  }

  ghost predicate IsEntries(rs: seq<LinkModel.Relo>, b: seq<seq<byte>>) {
    b == Entries(rs)
  }

  /** What has been written for the entries rs, if entries are kept at all. */
  ghost predicate WrittenFor(keep: bool, rs: seq<LinkModel.Relo>, recs: seq<seq<byte>>) {
    forall b :: IsEntries(rs, b) ==> recs == if keep then b else []
  }

  lemma WrittenForIs(keep: bool, rs: seq<LinkModel.Relo>, recs: seq<seq<byte>>)
    ensures WrittenFor(keep, rs, recs) <==> recs == if keep then Entries(rs) else []
  {
    assert IsEntries(rs, Entries(rs));
  }

  lemma {:induction false} WrittenForLast(keep: bool, rs: seq<LinkModel.Relo>, recs: seq<seq<byte>>, r: LinkModel.Relo)
    requires WrittenFor(keep, rs, recs)
    ensures WrittenFor(keep, rs + [r], if keep then recs + [EntryBytes(r)] else recs)
  {
    WrittenForIs(keep, rs, recs);
    EntriesLast(rs, r);
  }

  /** What the entries are to the reader of the table. */
  lemma EntriesAreRecords(rs: seq<LinkModel.Relo>, recs: seq<seq<int>>)
    requires |recs| == |rs| && forall i :: 0 <= i < |rs| ==> recs[i] == FieldsOf(rs[i])
    ensures AllShaped(recs, RELO) && Records(recs, RELO) == Entries(rs)
  {
    forall i | 0 <= i < |rs| ensures Records(recs, RELO)[i] == Entries(rs)[i] { EntryAt(rs, i); }
  }
}
