/**
  What linking computes, as a function of the modules and the options: the two
  passes of Ack-5.5/ld (extract.c, main.c, relocate.c, finish.c, output.c) on
  values. LinkPasses has the passes themselves.
 */
module LinkModel {
  import opened Bytes
  import opened Names
  import opened Relocation

  /** os_size, os_lign and the os_flen bytes that the file has for it. */
  datatype Section = Section(size: nat, lign: nat, data: seq<byte>)

  /** A relocation entry; `sect` counts sections from 0, `nami` indexes names. */
  datatype Relo = Relo(t: RelType, sect: nat, nami: nat, addr: nat)

  datatype Module = Module(sects: seq<Section>, names: seq<Name>, relos: seq<Relo>)

  // ------------------------------------------------------ well-formed modules

  predicate NameOk(n: Name, nsect: nat) {
    && (n.typ == S_UND || n.typ == S_ABS || S_MIN <= n.typ < S_MIN + nsect)
    && (n.com ==> n.ext && n.typ >= S_MIN && n.valu >= 0)
    && (n.sct ==> !n.ext && n.typ >= S_MIN)
  }

  /** The datum lies in its section; the name is a section or external name. */
  predicate ReloOk(r: Relo, m: Module) {
    && r.t.Legal() && r.sect < |m.sects|
    && r.addr + r.t.size <= |m.sects[r.sect].data|
    && r.nami <= |m.names|
    && (r.nami < |m.names| ==> m.names[r.nami].sct || m.names[r.nami].ext)
  }

  predicate Apart(r: Relo, q: Relo) {
    r.sect == q.sect ==> r.addr + r.t.size <= q.addr || q.addr + q.t.size <= r.addr
  }

  /** What the assemblers and the linker itself promise of their output. */
  ghost predicate WellFormed(m: Module) {
    && |m.sects| <= MAXSECT
    && (forall s :: 0 <= s < |m.sects| ==> |m.sects[s].data| <= m.sects[s].size)
    && (forall i :: 0 <= i < |m.names| ==> NameOk(m.names[i], |m.sects|))
    && (forall i :: 0 <= i < |m.relos| ==> ReloOk(m.relos[i], m))
    && (forall i, j :: 0 <= i < j < |m.relos| ==> Apart(m.relos[i], m.relos[j]))
  }

  ghost predicate AllWellFormed(ms: seq<Module>) {
    forall k :: 0 <= k < |ms| ==> WellFormed(ms[k])
  }

  // ---------------------------------------------------------------- sizes

  /** The least multiple of lign that is not below n. */
  function RoundUp(n: nat, lign: nat): (r: nat)
    requires lign > 0
    ensures n <= r < n + lign
    decreases n
  {
    if n == 0 then 0 else if n <= lign then lign else lign + RoundUp(n - lign, lign)
  }

  /** Rounding as the source computes it. */
  lemma {:induction false} RoundUpIs(n: nat, lign: nat)
    requires lign > 0
    ensures RoundUp(n, lign) == (n + lign - 1) - (n + lign - 1) % lign
    ensures RoundUp(n, lign) % lign == 0
    decreases n
  {
    var m := n + lign - 1;
    if n == 0 {
      SmallRemainder(m, lign);
      SmallRemainder(0, lign);
    } else if n <= lign {
      RemainderLess(m, lign);
      SmallRemainder(m - lign, lign);
      RemainderLess(lign, lign);
      SmallRemainder(0, lign);
    } else {
      RoundUpIs(n - lign, lign);
      RemainderLess(m, lign);
      RemainderLess(RoundUp(n, lign), lign);
    }
  }

  lemma SmallRemainder(m: nat, lign: nat)
    requires m < lign
    ensures m % lign == m
  {
  }

  lemma RemainderLess(m: nat, lign: nat)
    requires m >= lign > 0
    ensures m % lign == (m - lign) % lign
  {
    var d, x := m / lign, m % lign;
    var d', x' := (m - lign) / lign, (m - lign) % lign;
    assert m == d * lign + x && m - lign == d' * lign + x';
    assert (d - d' - 1) * lign == x' - x;
    AtLeastOne(d - d' - 1, lign);
  }

  lemma AtLeastOne(k: int, lign: nat)
    ensures k >= 1 ==> k * lign >= lign
    ensures k <= -1 ==> k * lign + lign <= 0
  {
    if k >= 1 { assert k * lign == (k - 1) * lign + lign; }
    if k <= -1 { assert k * lign == -((-k - 1) * lign) - lign; }
  }

  function AlignUp(n: nat, lign: nat): (r: nat)
    ensures n <= r
  {
    if lign > 1 then RoundUp(n, lign) else n
  }

  /** The room that a module takes in a section. */
  function SizeOf(m: Module, s: nat): nat {
    if s < |m.sects| then AlignUp(m.sects[s].size, m.sects[s].lign) else 0
  }

  function DataOf(m: Module, s: nat): seq<byte> {
    if s < |m.sects| then m.sects[s].data else []
  }

  /** Where the next module's part of section s starts. */
  function Origin(ms: seq<Module>, s: nat): nat {
    if |ms| == 0 then 0 else Origin(ms[..|ms| - 1], s) + SizeOf(ms[|ms| - 1], s)
  }

  function Origins(ms: seq<Module>): (o: seq<int>)
    ensures |o| == MAXSECT && forall s :: 0 <= s < MAXSECT ==> o[s] == Origin(ms, s)
  {
    seq(MAXSECT, s requires 0 <= s < MAXSECT => Origin(ms, s))
  }

  function NSect(ms: seq<Module>): nat {
    if |ms| == 0 then 0
    else
      var n := NSect(ms[..|ms| - 1]);
      if |ms[|ms| - 1].sects| > n then |ms[|ms| - 1].sects| else n
  }

  // ---------------------------------------------------------------- names

  function ExternalsOf(ns: seq<Name>): seq<Name> {
    if |ns| == 0 then []
    else
      var rest := ExternalsOf(ns[..|ns| - 1]);
      if ns[|ns| - 1].ext then rest + [ns[|ns| - 1]] else rest
  }

  /** Names that are not external but must appear in the output. */
  function LocalsOf(ns: seq<Name>): seq<Name> {
    if |ns| == 0 then []
    else
      var rest := LocalsOf(ns[..|ns| - 1]);
      if !ns[|ns| - 1].ext && !ns[|ns| - 1].sct then rest + [ns[|ns| - 1]] else rest
  }

  function Externals(ms: seq<Module>): seq<Name> {
    if |ms| == 0 then []
    else Externals(ms[..|ms| - 1]) + ExternalsOf(RelocateAll(ms[|ms| - 1].names, Origins(ms[..|ms| - 1])))
  }

  function Locals(ms: seq<Module>): seq<Name> {
    if |ms| == 0 then []
    else Locals(ms[..|ms| - 1]) + LocalsOf(RelocateAll(ms[|ms| - 1].names, Origins(ms[..|ms| - 1])))
  }

  /** The global table after the first pass. */
  function Globals(ms: seq<Module>): seq<Name> {
    EnterAll([], Externals(ms))
  }

  // ----------------------------------------------------- between the passes

  /** The flags -r, -c and -n, and the -b and -a options. */
  datatype Options = Options(rflag: bool, cflag: bool, nflag: bool, bases: map<nat, nat>, ligns: map<nat, nat>)

  predicate AnyUndefined(gs: seq<Name>) {
    exists i :: 0 <= i < |gs| && IsUndefined(gs[i])
  }

  /** With undefined names the output can only be linked again. */
  predicate Relocatable(o: Options, gs: seq<Name>) {
    o.rflag || AnyUndefined(gs)
  }

  predicate CommonIn(n: Name, s: int) {
    IsCommon(n) && n.typ == S_MIN + s
  }

  /** The common bytes of section s among the first n names. */
  function CommonSize(gs: seq<Name>, n: nat, s: int): int
    requires n <= |gs|
  {
    if n == 0 then 0
    else CommonSize(gs, n - 1, s) + if CommonIn(gs[n - 1], s) then gs[n - 1].valu else 0
  }

  /** A common name gets an address after the normal part of its section. */
  function Placed(gs: seq<Name>, sizes: seq<int>, i: nat): Name
    requires i < |gs|
  {
    var s := gs[i].typ - S_MIN;
    if IsCommon(gs[i]) && 0 <= s < |sizes|
    then gs[i].(valu := sizes[s] + CommonSize(gs, i, s), com := false)
    else gs[i]
  }

  function PlaceCommons(gs: seq<Name>, sizes: seq<int>): (r: seq<Name>)
    ensures |r| == |gs| && forall i :: 0 <= i < |gs| ==> r[i] == Placed(gs, sizes, i)
  {
    seq(|gs|, i requires 0 <= i < |gs| => Placed(gs, sizes, i))
  }

  function FullSizes(gs: seq<Name>, sizes: seq<int>): (r: seq<int>)
    ensures |r| == |sizes| && forall s :: 0 <= s < |sizes| ==> r[s] == sizes[s] + CommonSize(gs, |gs|, s)
  {
    seq(|sizes|, s requires 0 <= s < |sizes| => sizes[s] + CommonSize(gs, |gs|, s))
  }

  function LignOf(o: Options, s: nat): nat {
    if s in o.ligns then o.ligns[s] else 1
  }

  /** Where section k starts when the one before it ends at `end`. */
  function BaseOf(o: Options, k: nat, end: int): int {
    if k in o.bases then o.bases[k] else if end >= 0 then AlignUp(end, LignOf(o, k)) else end
  }

  /** The bases of the first k sections. */
  function BasesTo(o: Options, sizes: seq<int>, k: nat): (b: seq<int>)
    requires k <= |sizes|
    ensures |b| == k
  {
    if k == 0 then []
    else
      var before := BasesTo(o, sizes, k - 1);
      before + [BaseOf(o, k - 1, if k == 1 then 0 else before[k - 2] + sizes[k - 2])]
  }

  function Zeroes(n: nat): (z: seq<int>)
    ensures |z| == n && forall i :: 0 <= i < n ==> z[i] == 0
  {
    seq(n, _ => 0)
  }

  /** Section bases; a relocatable output has none. */
  function Bases(o: Options, gs: seq<Name>, sizes: seq<int>, nsect: nat): (b: seq<int>)
    requires nsect <= |sizes|
    ensures |b| == |sizes|
  {
    if Relocatable(o, gs) then Zeroes(|sizes|)
    else BasesTo(o, FullSizes(gs, sizes), nsect) + Zeroes(|sizes| - nsect)
  }

  // ---------------------------------------------------------------- second pass

  /** What the second pass knows: final names and bases. */
  datatype Env = Env(globals: seq<Name>, base: seq<int>, nlocals: nat, nsect: nat) {
    /** The index of the first name that is not a section name. */
    function AbsIndex(): nat { nlocals + |globals| + nsect }
    function SectIndex(s: int): int { nlocals + |globals| + s }
  }

  function EnvOf(o: Options, ms: seq<Module>): Env
    requires NSect(ms) <= MAXSECT
  {
    var gs, sizes := Globals(ms), Origins(ms);
    var base := Bases(o, gs, sizes, NSect(ms));
    var final :=
      if Relocatable(o, gs) then gs
      else if o.nflag then PlaceCommons(gs, sizes)
      else RelocateAll(PlaceCommons(gs, sizes), base);
    Env(final, base, |Locals(ms)|, NSect(ms))
  }

  datatype Target = Target(delta: int, index: int)

  function At(a: seq<int>, s: int): int {
    if 0 <= s < |a| then a[s] else 0
  }

  /** What to add for an external name, and its index in the output. */
  function ByName(env: Env, str: string): Target {
    var i := IndexOf(env.globals, str);
    if i == |env.globals| then Target(0, env.AbsIndex())
    else
      var g := env.globals[i];
      if IsCommon(g) || IsUndefined(g) then Target(0, env.nlocals + i)
      else if g.typ == S_ABS then Target(g.valu, env.AbsIndex())
      else Target(g.valu, env.SectIndex(g.typ - S_MIN))
  }

  /** The same for a section name. */
  function BySection(env: Env, origin: seq<int>, s: int): Target {
    Target(At(origin, s) + At(env.base, s), env.SectIndex(s))
  }

  /** The source's addrelo, and its caller's case for a name past the table. */
  function AddRelo(env: Env, m: Module, origin: seq<int>, nami: nat): Target {
    if nami < |m.names| then
      if m.names[nami].sct then BySection(env, origin, m.names[nami].typ - S_MIN) else ByName(env, m.names[nami].str)
    else Target(0, env.AbsIndex())
  }

  function PatchOf(env: Env, m: Module, origin: seq<int>, r: Relo): Patch {
    var pc := if r.t.pc then At(origin, r.sect) + At(env.base, r.sect) else 0;
    Patch(r.t, r.addr, AddRelo(env, m, origin, r.nami).delta - pc)
  }

  function NewRelo(env: Env, m: Module, origin: seq<int>, r: Relo): Relo {
    var index, addr := AddRelo(env, m, origin, r.nami).index, r.addr + At(origin, r.sect);
    Relo(r.t, r.sect, if index >= 0 then index else 0, if addr >= 0 then addr else 0)
  }

  /** The entries for section s. */
  function OnSection(rs: seq<Relo>, s: nat): seq<Relo> {
    if |rs| == 0 then []
    else
      var before := OnSection(rs[..|rs| - 1], s);
      if rs[|rs| - 1].sect == s then before + [rs[|rs| - 1]] else before
  }

  /** The changes that the entries rs make in section s. */
  function PatchesOn(env: Env, m: Module, origin: seq<int>, rs: seq<Relo>, s: nat): (r: seq<Patch>)
    ensures |r| == |OnSection(rs, s)|
    ensures forall i :: 0 <= i < |r| ==> r[i] == PatchOf(env, m, origin, OnSection(rs, s)[i])
  {
    var own := OnSection(rs, s);
    seq(|own|, i requires 0 <= i < |own| => PatchOf(env, m, origin, own[i]))
  }

  function NewRelosOf(env: Env, m: Module, origin: seq<int>, rs: seq<Relo>): (r: seq<Relo>)
    ensures |r| == |rs| && forall i :: 0 <= i < |r| ==> r[i] == NewRelo(env, m, origin, rs[i])
  {
    seq(|rs|, i requires 0 <= i < |rs| => NewRelo(env, m, origin, rs[i]))
  }

  function NewRelos(env: Env, m: Module, origin: seq<int>): (r: seq<Relo>) {
    NewRelosOf(env, m, origin, m.relos)
  }

  /** Section s of one module, relocated. */
  function PatchedData(env: Env, m: Module, origin: seq<int>, s: nat): (d: seq<byte>)
    ensures |d| == |DataOf(m, s)|
  {
    var ps := PatchesOn(env, m, origin, m.relos, s);
    if AllWithin(ps, |DataOf(m, s)|) then ApplyAll(DataOf(m, s), ps) else DataOf(m, s)
  }

  /** The bytes of section s: gaps between modules are filled with zeros. */
  function Content(env: Env, ms: seq<Module>, s: nat): seq<byte> {
    if |ms| == 0 then []
    else
      var init := ms[..|ms| - 1];
      var d := PatchedData(env, ms[|ms| - 1], Origins(init), s);
      if |d| > 0 then Pad(Content(env, init, s), Origin(init, s)) + d else Content(env, init, s)
  }

  function Pad(b: seq<byte>, n: nat): (r: seq<byte>)
    ensures |r| == if |b| < n then n else |b|
  {
    if |b| < n then b + Zeros(n - |b|) else b
  }

  function OutRelos(env: Env, ms: seq<Module>): seq<Relo> {
    if |ms| == 0 then []
    else OutRelos(env, ms[..|ms| - 1]) + NewRelos(env, ms[|ms| - 1], Origins(ms[..|ms| - 1]))
  }

  // ---------------------------------------------------------------- output

  datatype OutSection = OutSection(base: int, size: int, lign: nat, data: seq<byte>)

  datatype Output = Output(sects: seq<OutSection>, names: seq<Name>, relos: seq<Relo>, unresolved: bool)

  function SectionName(s: nat, base: int): Name {
    Name("", S_MIN + s, false, false, true, 0, 0, base)
  }

  function SectionNames(base: seq<int>, n: nat): (r: seq<Name>)
    requires n <= |base|
    ensures |r| == n && forall s :: 0 <= s < n ==> r[s] == SectionName(s, base[s])
  {
    seq(n, s requires 0 <= s < n => SectionName(s, base[s]))
  }

  function OutSections(o: Options, ms: seq<Module>): (r: seq<OutSection>)
    requires NSect(ms) <= MAXSECT
    ensures |r| == NSect(ms)
  {
    var gs, sizes, env := Globals(ms), Origins(ms), EnvOf(o, ms);
    seq(NSect(ms), s requires 0 <= s < NSect(ms) =>
      if Relocatable(o, gs) then OutSection(0, sizes[s], 0, Content(env, ms, s))
      else OutSection(env.base[s], FullSizes(gs, sizes)[s], LignOf(o, s), Content(env, ms, s)))
  }

  function OutLocals(o: Options, ms: seq<Module>): seq<Name>
    requires NSect(ms) <= MAXSECT
  {
    if Relocatable(o, Globals(ms)) || o.nflag then Locals(ms) else RelocateAll(Locals(ms), EnvOf(o, ms).base)
  }

  /** Linking: both passes. */
  function Link(o: Options, ms: seq<Module>): Output
    requires NSect(ms) <= MAXSECT
  {
    var env := EnvOf(o, ms);
    Output(
      OutSections(o, ms),
      OutLocals(o, ms) + env.globals + SectionNames(env.base, NSect(ms)),
      if Relocatable(o, Globals(ms)) || o.cflag then OutRelos(env, ms) else [],
      AnyUndefined(Globals(ms)))
  }

  /** The output as the input of a later link. */
  function AsModule(out: Output): Module {
    Module(
      seq(|out.sects|, s requires 0 <= s < |out.sects| =>
        Section(if out.sects[s].size >= 0 then out.sects[s].size else 0, out.sects[s].lign, out.sects[s].data)),
      out.names, out.relos)
  }
}
