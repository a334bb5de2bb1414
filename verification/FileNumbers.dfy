/**
  What a reader finds in an object file (Ack-5.5/include/out.h): numbers of two and
  of four bytes, the lowest byte first, and from the numbers in the header where the
  tables begin.
 */
module FileNumbers {
  import opened Bytes
  import opened Names
  import opened Relocation
  import opened LinkModel

  function Two(f: seq<byte>, at: nat): int
    requires at + 2 <= |f|
  {
    f[at] as int + 0x100 * f[at + 1] as int
  }

  function Four(f: seq<byte>, at: nat): int
    requires at + 4 <= |f|
  {
    f[at] as int + 0x100 * f[at + 1] as int + 0x1_0000 * f[at + 2] as int + 0x100_0000 * f[at + 3] as int
  }

  /** What two and four bytes keep of a number. */
  function InTwo(v: int): int { v % 0x1_0000 }

  function InFour(v: int): int { v % 0x1_0000_0000 }

  predicate Bit(n: int, weight: int)
    requires weight > 0
  {
    (n / weight) % 2 == 1
  }

  // OFF_EMIT, OFF_RELO, OFF_NAME and OFF_CHAR

  function OffEmit(f: seq<byte>): (off: nat)
    requires |f| >= 20
  {
    20 + Two(f, 6) * 20
  }

  function OffRelo(f: seq<byte>): (off: nat)
    requires |f| >= 20
  {
    OffEmit(f) + Four(f, 12)
  }

  function OffName(f: seq<byte>): (off: nat)
    requires |f| >= 20
  {
    OffRelo(f) + Two(f, 8) * 8
  }

  function OffChar(f: seq<byte>): (off: nat)
    requires |f| >= 20
  {
    OffName(f) + Two(f, 10) * 12
  }

  // ------------------------------------------------- what the file says of a link

  /** How many bytes all sections have. */
  function DataLength(sects: seq<OutSection>): nat {
    if |sects| == 0 then 0 else |sects[0].data| + DataLength(sects[1..])
  }

  /** How many bytes the strings take, each with its nul; an empty one takes none. */
  function TextLength(names: seq<Name>): nat {
    if |names| == 0 then 0 else (if |names[0].str| == 0 then 0 else |names[0].str| + 1) + TextLength(names[1..])
  }

  predicate HeaderSays(f: seq<byte>, out: Output) {
    && |f| >= 20
    && Two(f, 0) == 0x0201 && Two(f, 2) == 0
    && Two(f, 4) == (if out.unresolved then 4 else 0)
    && Two(f, 6) == |out.sects|
    && Two(f, 8) == InTwo(|out.relos|)
    && Two(f, 10) == InTwo(|out.names|)
    && Four(f, 12) == InFour(DataLength(out.sects))
    && Four(f, 16) == InFour(TextLength(out.names))
  }

  /** Base, size, place in the file, length in the file and alignment. */
  predicate SectionAt(f: seq<byte>, at: nat, sect: OutSection, place: nat) {
    && at + 20 <= |f|
    && Four(f, at) == InFour(sect.base) && Four(f, at + 4) == InFour(sect.size)
    && Four(f, at + 8) == InFour(place) && Four(f, at + 12) == InFour(|sect.data|)
    && Four(f, at + 16) == InFour(sect.lign)
  }

  /** Section s is in the section table, and its bytes are where that says. */
  ghost predicate SectionSays(f: seq<byte>, out: Output, s: nat)
    requires s < |out.sects|
  {
    var place := 20 + 20 * |out.sects| + DataLength(out.sects[..s]);
    SectionAt(f, 20 + 20 * s, out.sects[s], place) && Holds(f, place, out.sects[s].data)
  }

  /** The counts have room in the header. */
  predicate CountsFit(out: Output) {
    |out.relos| < 0x1_0000 && |out.names| < 0x1_0000 && DataLength(out.sects) < 0x1_0000_0000
  }

  /** The type's bits, the section, the index and the address of an entry. */
  predicate EntryAt(f: seq<byte>, at: nat, r: Relo) {
    && at + 8 <= |f|
    && (r.t.Legal() ==> TypeSays(f[at] as int, r.t))
    && (r.sect < 254 ==> f[at + 1] as int == 2 + r.sect)
    && Two(f, at + 2) == InTwo(r.nami) && Four(f, at + 4) == InFour(r.addr)
  }

  /** RELSZ, RELPC, RELBR and RELWR. */
  predicate TypeSays(b: int, t: RelType) {
    && 0 <= b < 64 && b % 8 == t.size
    && (Bit(b, 8) <==> t.pc) && (Bit(b, 16) <==> t.br) && (Bit(b, 32) <==> t.wr)
  }

  /** The parts of on_type are apart: the others bits are not among those that have a meaning here. */
  predicate BitsApart(n: Name) {
    0 <= n.typ < 0x80 && 0 <= n.etc < 0x1_0000 && n.etc % 0x200 == 0 && !Bit(n.etc, 0x1000)
  }

  /** The place of the string, the type's parts, the description and the value of a name. */
  predicate NameAt(f: seq<byte>, at: nat, n: Name, place: nat) {
    && at + 12 <= |f|
    && Four(f, at) == (if |n.str| == 0 then 0 else InFour(place))
    && (BitsApart(n) ==> WordSays(Two(f, at + 4), n))
    && Two(f, at + 6) == InTwo(n.desc) && Four(f, at + 8) == InFour(n.valu)
  }

  /** Name i is in the table of names, and its string is where that says. */
  ghost predicate NameSays(f: seq<byte>, out: Output, i: nat)
    requires |f| >= 20 && i < |out.names|
  {
    var n, place := out.names[i], OffChar(f) + TextLength(out.names[..i]);
    NameAt(f, OffName(f) + 12 * i, n, place) && (|n.str| > 0 ==> StringThere(f, place, n.str))
  }

  ghost predicate StringThere(f: seq<byte>, at: nat, s: string) {
    && at + |s| < |f| && f[at + |s|] == 0
    && forall j :: 0 <= j < |s| ==> CharThere(f, at, s, j)
  }

  ghost predicate CharThere(f: seq<byte>, at: nat, s: string, j: nat)
    requires j < |s|
  {
    at + j < |f| && f[at + j] as int == s[j] as int % 256
  }

  /** S_TYP, S_EXT, S_SCT, S_COM and the rest. */
  predicate WordSays(w: int, n: Name) {
    && w % 0x80 == n.typ && (Bit(w, 0x80) <==> n.ext) && (Bit(w, 0x100) <==> n.sct) && (Bit(w, 0x1000) <==> n.com)
    && w - n.typ - (if n.ext then 0x80 else 0) - (if n.sct then 0x100 else 0) - (if n.com then 0x1000 else 0) == n.etc
  }

  /** All that the file says; the tables are found by the numbers in the header. */
  ghost predicate FileSays(f: seq<byte>, out: Output) {
    && HeaderSays(f, out)
    && (forall s :: 0 <= s < |out.sects| ==> SectionSays(f, out, s))
    && (CountsFit(out) ==>
      && |f| == OffChar(f) + TextLength(out.names)
      && (forall i :: 0 <= i < |out.relos| ==> EntryAt(f, OffRelo(f) + 8 * i, out.relos[i]))
      && (forall i :: 0 <= i < |out.names| ==> NameSays(f, out, i)))
  }
}
