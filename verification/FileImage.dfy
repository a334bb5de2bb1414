/**
  The output file for what the link editor computes, with the header and the
  section table of beginoutput and complete_sections (Ack-5.5/ld/output.c, main.c).
 */
module FileImage {
  import opened Bytes
  import opened Names
  import opened LinkModel
  import opened Layout
  import opened ObjectFormat
  import opened EntryFormat
  import opened NameFormat
  import opened OutputFile
  import ObjectWriter

  const O_MAGIC := 0x0201
  const O_STAMP := 0
  const HF_LINK := 4

  /** What the section table says of a section, but for its place in the file. */
  datatype SectHead = SectHead(base: int, size: int, flen: nat, lign: int)

  function Flens(hs: seq<SectHead>): (r: seq<int>)
    ensures |r| == |hs| && forall k :: 0 <= k < |hs| ==> r[k] == hs[k].flen
  {
    seq(|hs|, k requires 0 <= k < |hs| => hs[k].flen)
  }

  /** The counts in the header. */
  datatype Head = Head(unresolved: bool, nsect: nat, nrelo: nat, nname: nat, nemit: int, nchar: nat)

  function HeadBytes(h: Head): (b: seq<byte>)
    ensures |b| == SZ_HEAD
  {
    LayoutsValid();
    Record([O_MAGIC, O_STAMP, if h.unresolved then HF_LINK else 0, h.nsect, h.nrelo, h.nname, h.nemit, h.nchar], HEAD)
  }

  function SectBytes(h: SectHead, foff: int): (b: seq<byte>)
    ensures |b| == SZ_SECT
  {
    LayoutsValid();
    Record([h.base, h.size, foff, h.flen, h.lign], SECT)
  }

  /** The section table: the bytes of each section follow those of the one before it. */
  function TableBytes(hs: seq<SectHead>): (r: seq<seq<byte>>)
    ensures |r| == |hs| && AllOf(r, SZ_SECT)
  {
    seq(|hs|, k requires 0 <= k < |hs| => SectBytes(hs[k], FileOffsets(hs)[k]))
  }

  /** OFF_CHAR. */
  function CharStart(nsect: nat, nemit: nat, nrelo: nat, nname: nat): nat {
    EmitStart(nsect) + nemit + nrelo * SZ_RELO + nname * SZ_NAME
  }

  // ---------------------------------------------------------------- the image

  predicate SectsFit(hs: seq<SectHead>, out: seq<seq<byte>>) {
    && |hs| <= MAXSECT == |out|
    && (forall s :: 0 <= s < |hs| ==> hs[s].flen == |out[s]|)
    && forall s :: |hs| <= s < MAXSECT ==> out[s] == []
  }

  lemma {:induction false} LengthsNatural(hs: seq<SectHead>)
    ensures Sum(Flens(hs)) >= 0
    decreases |hs|
  {
    if |hs| > 0 {
      LengthsNatural(hs[..|hs| - 1]);
      assert Flens(hs)[..|hs| - 1] == Flens(hs[..|hs| - 1]);
    }
  }

  function Emitted(hs: seq<SectHead>): nat {
    LengthsNatural(hs);
    Sum(Flens(hs))
  }

  lemma {:induction false} OffsetNatural(hs: seq<SectHead>, k: nat)
    requires k < |hs|
    ensures Offsets(EmitStart(|hs|), Flens(hs), |hs|)[k] >= 0
  {
    LengthsNatural(hs[..k]);
    assert Prefix(Flens(hs), k) == Flens(hs[..k]);
  }

  function SectOffset(hs: seq<SectHead>, k: nat): nat
    requires k < |hs|
  {
    OffsetNatural(hs, k);
    Offsets(EmitStart(|hs|), Flens(hs), |hs|)[k]
  }

  /** The file offsets of the sections. */
  function FileOffsets(hs: seq<SectHead>): (r: seq<nat>)
    ensures |r| == |hs|
  {
    seq(|hs|, k requires 0 <= k < |hs| => SectOffset(hs, k))
  }

  lemma {:induction false} FileOffsetsAre(hs: seq<SectHead>)
    ensures FileOffsets(hs) == Offsets(EmitStart(|hs|), Flens(hs), |hs|)
  {
  }

  function HeadOf(unresolved: bool, hs: seq<SectHead>, nrelo: nat, names: seq<Name>): Head {
    Head(unresolved, |hs|, nrelo, |names|, Emitted(hs), Room(names))
  }

  function NamesStart(hs: seq<SectHead>, nrelo: nat, nname: nat): nat {
    CharStart(|hs|, Emitted(hs), nrelo, nname)
  }

  /** All that goes into the file, with the counts that begin_write has. */
  function ImageOf(unresolved: bool, hs: seq<SectHead>, out: seq<seq<byte>>, relos: seq<Relo>,
      names: seq<Name>): Image {
    Image(HeadBytes(HeadOf(unresolved, hs, |relos|, names)), TableBytes(hs), out, Entries(relos),
        NameRecs(names, NamesStart(hs, |relos|, |names|)), Strings(names))
  }

  lemma {:induction false} ImageIsValid(unresolved: bool, hs: seq<SectHead>, out: seq<seq<byte>>, relos: seq<Relo>,
      names: seq<Name>)
    requires SectsFit(hs, out)
    ensures var im := ImageOf(unresolved, hs, out, relos, names); im.Valid() && im.Lengths() == Flens(hs)
  {
    var im := ImageOf(unresolved, hs, out, relos, names);
    RecordsSized(names, Offs(names, NamesStart(hs, |relos|, |names|)));
    EntriesSized(relos);
    assert AllOf(im.names, SZ_NAME) && AllOf(im.recs, SZ_RELO);
  }

  function Heads(sects: seq<OutSection>): (r: seq<SectHead>)
    ensures |r| == |sects|
  {
    seq(|sects|, s requires 0 <= s < |sects| =>
      SectHead(sects[s].base, sects[s].size, |sects[s].data|, sects[s].lign))
  }

  /** The bytes of all the sections that there could be. */
  function Datas(sects: seq<OutSection>): (r: seq<seq<byte>>)
    ensures |r| == MAXSECT
    ensures forall s :: 0 <= s < MAXSECT ==> r[s] == if s < |sects| then sects[s].data else []
  {
    seq(MAXSECT, s requires 0 <= s < MAXSECT => if s < |sects| then sects[s].data else [])
  }

  function ImageFor(out: Output): Image {
    ImageOf(out.unresolved, Heads(out.sects), Datas(out.sects), out.relos, out.names)
  }

  /** The object file for an output. */
  function FileOf(out: Output): seq<byte> {
    ImageFor(out).Flat()
  }
}
