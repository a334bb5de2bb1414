/**
  Name resolution (Ack-5.5/ld/extract.c:166-250): what the linker knows about an
  external name, and how one more mention of it adds to that knowledge.
 */
module Names {
  import opened Bytes

  const S_UND := 0
  const S_ABS := 1
  const S_MIN := 2

  /**
    A name table entry. `typ` is the S_TYP field of on_type; `ext`, `com` and
    `sct` are the S_EXT, S_COM and S_SCT bits and `etc` stands for the others.
   */
  datatype Name = Name(str: string, typ: int, ext: bool, com: bool, sct: bool, etc: int, desc: int, valu: int)

  predicate IsUndefined(n: Name) { n.ext && n.typ == S_UND }

  predicate IsCommon(n: Name) { n.ext && n.com }

  function Transfer(src: Name, dst: Name): Name {
    src.(str := dst.str)
  }

  function Redefine(new_: Name, old_: Name): Name {
    if !IsCommon(old_) then old_
    else if IsCommon(new_) then (if new_.valu > old_.valu then old_.(valu := new_.valu) else old_)
    else Transfer(new_, old_)
  }

  /** The old entry after one more mention of the name. */
  function Combine(old_: Name, new_: Name): Name {
    if IsUndefined(new_) then old_
    else if IsUndefined(old_) then Transfer(new_, old_)
    else Redefine(new_, old_)
  }

  // -------------------------------------------------------- the global table

  /** The index of the entry for a name, or the length of the table. */
  function IndexOf(table: seq<Name>, str: string): (i: nat)
    ensures i <= |table|
    ensures i < |table| ==> table[i].str == str
    ensures forall k :: 0 <= k < i ==> table[k].str != str
  {
    if |table| == 0 then 0
    else if table[0].str == str then 0
    else 1 + IndexOf(table[1..], str)
  }

  function Find(table: seq<Name>, str: string): Option<Name> {
    var i := IndexOf(table, str);
    if i < |table| then Some(table[i]) else None
  }

  /** Enter a new name, or add to what is known about an old one. */
  function Enter(table: seq<Name>, n: Name): seq<Name> {
    var i := IndexOf(table, n.str);
    if i == |table| then table + [n] else table[i := Combine(table[i], n)]
  }

  function EnterAll(table: seq<Name>, ns: seq<Name>): seq<Name> {
    if |ns| == 0 then table else Enter(EnterAll(table, ns[..|ns| - 1]), ns[|ns| - 1])
  }

  ghost predicate Unique(table: seq<Name>) {
    forall i, j :: 0 <= i < j < |table| ==> table[i].str != table[j].str
  }

  ghost predicate AllExternal(ns: seq<Name>) {
    forall i :: 0 <= i < |ns| ==> ns[i].ext
  }

  lemma {:induction false} EnterAllAppend(table: seq<Name>, ms: seq<Name>, ns: seq<Name>)
    ensures EnterAll(table, ms + ns) == EnterAll(EnterAll(table, ms), ns)
    decreases |ns|
  {
    if |ns| == 0 {
      assert ms + ns == ms;
    } else {
      var k := |ns| - 1;
      EnterAllAppend(table, ms, ns[..k]);
      assert (ms + ns)[..|ms + ns| - 1] == ms + ns[..k];
    }
  }

  lemma {:induction false} EnterAllUnique(table: seq<Name>, ns: seq<Name>)
    requires Unique(table)
    ensures Unique(EnterAll(table, ns))
    decreases |ns|
  {
    if |ns| > 0 { EnterAllUnique(table, ns[..|ns| - 1]); }
  }

  // ----------------------------------------------------- one name at a time

  /** Combine, where nothing may be known yet. */
  function Join(a: Option<Name>, b: Option<Name>): Option<Name> {
    match (a, b)
    case (None, _) => b
    case (_, None) => a
    case (Some(x), Some(y)) => Some(Combine(x, y))
  }

  predicate OnlyExternal(a: Option<Name>, str: string) {
    a.None? || (a.value.ext && a.value.str == str)
  }

  /** Knowledge about one name can be put together in any grouping. */
  lemma JoinAssociative(a: Option<Name>, b: Option<Name>, c: Option<Name>, str: string)
    requires OnlyExternal(a, str) && OnlyExternal(b, str) && OnlyExternal(c, str)
    ensures Join(Join(a, b), c) == Join(a, Join(b, c))
  {
  }

  /** What a list of mentions says about one name. */
  function Said(ns: seq<Name>, str: string): Option<Name> {
    if |ns| == 0 then None
    else
      var last := ns[|ns| - 1];
      var before := Said(ns[..|ns| - 1], str);
      if last.str == str then Join(before, Some(last)) else before
  }

  lemma {:induction false} SaidExternal(ns: seq<Name>, str: string)
    requires AllExternal(ns)
    ensures OnlyExternal(Said(ns, str), str)
    decreases |ns|
  {
    if |ns| > 0 { SaidExternal(ns[..|ns| - 1], str); }
  }

  lemma {:induction false} FindAt(table: seq<Name>, i: nat)
    requires Unique(table) && i < |table|
    ensures IndexOf(table, table[i].str) == i && Find(table, table[i].str) == Some(table[i])
  {
  }

  lemma EnterFind(table: seq<Name>, n: Name, str: string)
    requires Unique(table)
    ensures Find(Enter(table, n), str) == if n.str == str then Join(Find(table, str), Some(n)) else Find(table, str)
  {
    var i := IndexOf(table, n.str);
    var t := Enter(table, n);
    var k := IndexOf(t, str);
    var k0 := IndexOf(table, str);
    if i == |table| {
      if str == n.str { assert t[|table|].str == str; }
      if k0 < |table| { assert t[k0].str == str; }
    } else {
      assert forall j :: 0 <= j < |table| ==> t[j].str == table[j].str;
      if k0 < |table| { assert t[k0].str == str; }
    }
  }

  /** The table is, name by name, the join of what it was and what was said. */
  lemma {:induction false} EnterAllFind(table: seq<Name>, ns: seq<Name>, str: string)
    requires Unique(table) && AllExternal(table) && AllExternal(ns)
    ensures Find(EnterAll(table, ns), str) == Join(Find(table, str), Said(ns, str))
    decreases |ns|
  {
    if |ns| > 0 {
      var init, last := ns[..|ns| - 1], ns[|ns| - 1];
      EnterAllFind(table, init, str);
      EnterAllUnique(table, init);
      EnterFind(EnterAll(table, init), last, str);
      SaidExternal(init, str);
      if last.str == str { JoinAssociative(Find(table, str), Said(init, str), Some(last), str); }
    }
  }

  // ------------------------------------------------------ order of entering

  function Strs(ns: seq<Name>): (r: seq<string>)
    ensures |r| == |ns| && forall i :: 0 <= i < |ns| ==> r[i] == ns[i].str
  {
    seq(|ns|, i requires 0 <= i < |ns| => ns[i].str)
  }

  function AddStr(ss: seq<string>, s: string): seq<string> {
    if s in ss then ss else ss + [s]
  }

  function AddStrs(ss: seq<string>, ts: seq<string>): seq<string> {
    if |ts| == 0 then ss else AddStr(AddStrs(ss, ts[..|ts| - 1]), ts[|ts| - 1])
  }

  lemma {:induction false} AddStrsHas(ss: seq<string>, ts: seq<string>, s: string)
    ensures s in AddStrs(ss, ts) <==> s in ss || s in ts
    decreases |ts|
  {
    if |ts| > 0 {
      AddStrsHas(ss, ts[..|ts| - 1], s);
      assert ts == ts[..|ts| - 1] + [ts[|ts| - 1]];
    }
  }

  lemma {:induction false} AddStrsTwice(ss: seq<string>, ts: seq<string>)
    ensures AddStrs(ss, AddStrs([], ts)) == AddStrs(ss, ts)
    decreases |ts|
  {
    if |ts| > 0 {
      var init, x := ts[..|ts| - 1], ts[|ts| - 1];
      var d := AddStrs([], init);
      AddStrsTwice(ss, init);
      if x in d {
        AddStrsHas(ss, d, x);
      } else {
        assert (d + [x])[..|d + [x]| - 1] == d;
      }
    }
  }

  lemma {:induction false} EnterAllStrs(table: seq<Name>, ns: seq<Name>)
    ensures Strs(EnterAll(table, ns)) == AddStrs(Strs(table), Strs(ns))
    decreases |ns|
  {
    if |ns| == 0 {
      assert Strs(ns) == [];
    } else {
      var init, x := ns[..|ns| - 1], ns[|ns| - 1];
      EnterAllStrs(table, init);
      assert Strs(ns)[..|ns| - 1] == Strs(init);
      EnterStrs(EnterAll(table, init), x);
    }
  }

  lemma EnterStrs(table: seq<Name>, n: Name)
    ensures Strs(Enter(table, n)) == AddStr(Strs(table), n.str)
  {
    var i := IndexOf(table, n.str);
    if i < |table| {
      assert Strs(table)[i] == n.str;
    } else {
      assert forall k :: 0 <= k < |table| ==> Strs(table)[k] != n.str;
    }
  }

  /** A table is determined by its order and by what it says of each name. */
  lemma TableDetermined(s: seq<Name>, t: seq<Name>)
    requires Unique(s) && Unique(t) && Strs(s) == Strs(t)
    requires forall i :: 0 <= i < |s| ==> Find(s, s[i].str) == Find(t, s[i].str)
    ensures s == t
  {
    forall i | 0 <= i < |s| ensures s[i] == t[i] {
      assert Strs(s)[i] == Strs(t)[i];
      FindAt(s, i);
      FindAt(t, i);
    }
  }

  lemma {:induction false} SaidOfTable(table: seq<Name>, str: string)
    requires Unique(table)
    ensures Said(table, str) == Find(table, str)
    decreases |table|
  {
    if |table| > 0 {
      var init, last := table[..|table| - 1], table[|table| - 1];
      SaidOfTable(init, str);
      if last.str == str {
        FindAt(table, |table| - 1);
      } else {
        IndexOfPrefix(init, table, str);
      }
    }
  }

  lemma {:induction false} IndexOfPrefix(init: seq<Name>, table: seq<Name>, str: string)
    requires |table| == |init| + 1 && table[..|init|] == init && table[|init|].str != str
    ensures Find(init, str) == Find(table, str)
    decreases |init|
  {
    var i, j := IndexOf(init, str), IndexOf(table, str);
    if i < |init| { assert table[i] == init[i]; }
    if j < |init| { assert init[j] == table[j]; }
  }

  lemma {:induction false} EnterAllExternal(table: seq<Name>, ns: seq<Name>)
    requires AllExternal(table) && AllExternal(ns)
    ensures AllExternal(EnterAll(table, ns))
    decreases |ns|
  {
    if |ns| > 0 { EnterAllExternal(table, ns[..|ns| - 1]); }
  }

  /**
    Names that were first collected in a table of their own add just as much, in
    the same order: what partial linking relies on.
   */
  lemma EnterAllTwice(table: seq<Name>, ns: seq<Name>)
    requires Unique(table) && AllExternal(table) && AllExternal(ns)
    ensures EnterAll(table, EnterAll([], ns)) == EnterAll(table, ns)
  {
    var own := EnterAll([], ns);
    EnterAllUnique([], ns);
    EnterAllExternal([], ns);
    EnterAllUnique(table, own);
    EnterAllUnique(table, ns);
    assert Strs([]) == [];
    EnterAllStrs([], ns);
    EnterAllStrs(table, own);
    EnterAllStrs(table, ns);
    AddStrsTwice(Strs(table), Strs(ns));
    var s, t := EnterAll(table, own), EnterAll(table, ns);
    forall i | 0 <= i < |s| ensures Find(s, s[i].str) == Find(t, s[i].str) {
      var str := s[i].str;
      EnterAllFind(table, own, str);
      EnterAllFind(table, ns, str);
      EnterAllFind([], ns, str);
      SaidOfTable(own, str);
    }
    TableDetermined(s, t);
  }

  // ------------------------------------------------------- meaning of names

  datatype Kind = Undefined | Common | Defined

  function KindOf(n: Name): Kind {
    if n.typ == S_UND then Undefined else if n.com then Common else Defined
  }

  predicate Mentions(ns: seq<Name>, str: string, k: Kind) {
    exists i :: 0 <= i < |ns| && ns[i].str == str && KindOf(ns[i]) == k
  }

  predicate LargestCommon(ns: seq<Name>, str: string, size: int) {
    && (exists i :: 0 <= i < |ns| && ns[i].str == str && KindOf(ns[i]) == Common && ns[i].valu == size)
    && (forall i :: 0 <= i < |ns| && ns[i].str == str && KindOf(ns[i]) == Common ==> ns[i].valu <= size)
  }

  predicate FirstDefinition(ns: seq<Name>, str: string, n: Name) {
    exists i :: 0 <= i < |ns| && ns[i] == n && n.str == str && KindOf(n) == Defined
      && forall j :: 0 <= j < i && ns[j].str == str ==> KindOf(ns[j]) != Defined
  }

  /**
    What the linker ends up believing of a name: defined if any mention defines
    it, and then by the first that does; else common if any mention is, and then
    with the largest size; else undefined if it is mentioned at all.
   */
  ghost predicate Meaning(ns: seq<Name>, str: string, said: Option<Name>) {
    match said
    case None => forall i :: 0 <= i < |ns| ==> ns[i].str != str
    case Some(n) =>
      if Mentions(ns, str, Defined) then FirstDefinition(ns, str, n)
      else if Mentions(ns, str, Common) then KindOf(n) == Common && LargestCommon(ns, str, n.valu)
      else KindOf(n) == Undefined && Mentions(ns, str, Undefined)
  }

  lemma MentionsLonger(ns: seq<Name>, n: Name, str: string, k: Kind)
    ensures Mentions(ns + [n], str, k) <==> Mentions(ns, str, k) || (n.str == str && KindOf(n) == k)
  {
    if Mentions(ns, str, k) {
      var i :| 0 <= i < |ns| && ns[i].str == str && KindOf(ns[i]) == k;
      assert (ns + [n])[i] == ns[i];
    }
    if n.str == str && KindOf(n) == k { assert (ns + [n])[|ns|] == n; }
  }

  lemma LargestCommonLonger(ns: seq<Name>, n: Name, str: string, size: int)
    requires LargestCommon(ns, str, size)
    ensures n.str != str || KindOf(n) != Common || n.valu <= size ==> LargestCommon(ns + [n], str, size)
    ensures n.str == str && KindOf(n) == Common && n.valu > size ==> LargestCommon(ns + [n], str, n.valu)
  {
    var i :| 0 <= i < |ns| && ns[i].str == str && KindOf(ns[i]) == Common && ns[i].valu == size;
    assert (ns + [n])[i] == ns[i] && (ns + [n])[|ns|] == n;
  }

  lemma FirstDefinitionLonger(ns: seq<Name>, n: Name, str: string, d: Name)
    requires FirstDefinition(ns, str, d)
    ensures FirstDefinition(ns + [n], str, d)
  {
    var i :| 0 <= i < |ns| && ns[i] == d && d.str == str && KindOf(d) == Defined
      && forall j :: 0 <= j < i && ns[j].str == str ==> KindOf(ns[j]) != Defined;
    assert (ns + [n])[i] == d;
  }

  lemma {:induction false} SaidMeaning(ns: seq<Name>, str: string)
    requires AllExternal(ns)
    ensures Meaning(ns, str, Said(ns, str))
    decreases |ns|
  {
    if |ns| > 0 {
      var init, last := ns[..|ns| - 1], ns[|ns| - 1];
      assert ns == init + [last];
      SaidMeaning(init, str);
      SaidExternal(init, str);
      MentionsLonger(init, last, str, Defined);
      MentionsLonger(init, last, str, Common);
      MentionsLonger(init, last, str, Undefined);
      MeaningStep(init, last, str, Said(init, str));
    }
  }

  lemma MeaningStep(ns: seq<Name>, n: Name, str: string, said: Option<Name>)
    requires AllExternal(ns) && n.ext && OnlyExternal(said, str) && Meaning(ns, str, said)
    ensures Meaning(ns + [n], str, if n.str == str then Join(said, Some(n)) else said)
  {
    var all := ns + [n];
    MentionsLonger(ns, n, str, Defined);
    MentionsLonger(ns, n, str, Common);
    MentionsLonger(ns, n, str, Undefined);
    assert all[|ns|] == n;
    if said.Some? {
      if Mentions(ns, str, Defined) {
        FirstDefinitionLonger(ns, n, str, said.value);
      } else if Mentions(ns, str, Common) {
        LargestCommonLonger(ns, n, str, said.value.valu);
      }
    }
  }

  ghost predicate OneDefinition(ns: seq<Name>, str: string) {
    forall i, j :: 0 <= i < j < |ns| && ns[i].str == str && ns[j].str == str && KindOf(ns[i]) == Defined ==>
        KindOf(ns[j]) != Defined
  }

  lemma SameMentions(ns: seq<Name>, ns': seq<Name>, str: string, k: Kind)
    requires multiset(ns) == multiset(ns') && Mentions(ns, str, k)
    ensures Mentions(ns', str, k)
  {
    var i :| 0 <= i < |ns| && ns[i].str == str && KindOf(ns[i]) == k;
    assert ns[i] in multiset(ns');
  }

  lemma SameLargest(ns: seq<Name>, ns': seq<Name>, str: string, size: int, size': int)
    requires multiset(ns) == multiset(ns') && LargestCommon(ns, str, size) && LargestCommon(ns', str, size')
    ensures size <= size'
  {
    var i :| 0 <= i < |ns| && ns[i].str == str && KindOf(ns[i]) == Common && ns[i].valu == size;
    assert ns[i] in multiset(ns');
  }

  lemma SameDefinition(ns: seq<Name>, ns': seq<Name>, str: string, d: Name, d': Name)
    requires multiset(ns) == multiset(ns') && OneDefinition(ns, str) && FirstDefinition(ns, str, d)
        && FirstDefinition(ns', str, d')
    ensures d == d'
  {
    var i :| 0 <= i < |ns| && ns[i] == d && d.str == str && KindOf(d) == Defined
      && forall j :: 0 <= j < i && ns[j].str == str ==> KindOf(ns[j]) != Defined;
    assert d' in multiset(ns);
    var j :| 0 <= j < |ns| && ns[j] == d';
  }

  /** With at most one definition, the order of the modules does not matter. */
  lemma OrderIrrelevant(ns: seq<Name>, ns': seq<Name>, str: string)
    requires multiset(ns) == multiset(ns') && AllExternal(ns) && OneDefinition(ns, str)
    ensures match (Said(ns, str), Said(ns', str))
            case (None, None) => true
            case (Some(n), Some(n')) =>
              && KindOf(n) == KindOf(n')
              && (KindOf(n) == Common ==> n.valu == n'.valu)
              && (KindOf(n) == Defined ==> n == n')
            case (_, _) => false
  {
    assert AllExternal(ns') by {
      forall i | 0 <= i < |ns'| ensures ns'[i].ext { assert ns'[i] in multiset(ns); }
    }
    SaidMeaning(ns, str);
    SaidMeaning(ns', str);
    forall k: Kind ensures Mentions(ns, str, k) <==> Mentions(ns', str, k) {
      if Mentions(ns, str, k) { SameMentions(ns, ns', str, k); }
      if Mentions(ns', str, k) { SameMentions(ns', ns, str, k); }
    }
    match (Said(ns, str), Said(ns', str))
    case (None, None) =>
    case (None, Some(n')) => assert exists k :: Mentions(ns', str, k);
    case (Some(n), None) =>
    case (Some(n), Some(n')) =>
      if Mentions(ns, str, Defined) {
        SameDefinition(ns, ns', str, n, n');
      } else if Mentions(ns, str, Common) {
        SameLargest(ns, ns', str, n.valu, n'.valu);
        SameLargest(ns', ns, str, n'.valu, n.valu);
      }
  }

  // -------------------------------------------------------------- relocation

  /** The source's namerelocate: names in sections move with their section. */
  function NameRelocate(n: Name, origin: seq<int>): Name {
    if n.typ == S_UND || n.typ == S_ABS || n.com then n
    else if 0 <= n.typ - S_MIN < |origin| then n.(valu := n.valu + origin[n.typ - S_MIN])
    else n
  }

  function RelocateAll(ns: seq<Name>, origin: seq<int>): (r: seq<Name>)
    ensures |r| == |ns| && forall i :: 0 <= i < |ns| ==> r[i] == NameRelocate(ns[i], origin)
  {
    seq(|ns|, i requires 0 <= i < |ns| => NameRelocate(ns[i], origin))
  }

  lemma {:induction false} RelocatedIndex(table: seq<Name>, origin: seq<int>, str: string)
    ensures IndexOf(RelocateAll(table, origin), str) == IndexOf(table, str)
  {
    var t := RelocateAll(table, origin);
    var i, j := IndexOf(table, str), IndexOf(t, str);
    if i < |table| { assert t[i].str == str; }
    if j < |table| { assert table[j].str == str; }
  }

  lemma CombineRelocated(o: Name, n: Name, origin: seq<int>)
    ensures Combine(NameRelocate(o, origin), NameRelocate(n, origin)) == NameRelocate(Combine(o, n), origin)
  {
  }

  /** Relocating the mentions relocates the table that they make. */
  lemma {:induction false} EnterAllRelocated(table: seq<Name>, ns: seq<Name>, origin: seq<int>)
    ensures EnterAll(RelocateAll(table, origin), RelocateAll(ns, origin)) == RelocateAll(EnterAll(table, ns), origin)
    decreases |ns|
  {
    if |ns| > 0 {
      var init, last := ns[..|ns| - 1], ns[|ns| - 1];
      EnterAllRelocated(table, init, origin);
      assert RelocateAll(ns, origin)[..|ns| - 1] == RelocateAll(init, origin);
      var t := EnterAll(table, init);
      RelocatedIndex(t, origin, last.str);
      var i := IndexOf(t, last.str);
      if i < |t| { CombineRelocated(t[i], last, origin); }
      assert RelocateAll(Enter(t, last), origin) == Enter(RelocateAll(t, origin), NameRelocate(last, origin));
    }
  }

  function Plus(a: seq<int>, b: seq<int>): (c: seq<int>)
    requires |a| == |b|
    ensures |c| == |a| && forall i :: 0 <= i < |a| ==> c[i] == a[i] + b[i]
  {
    seq(|a|, i requires 0 <= i < |a| => a[i] + b[i])
  }

  lemma RelocateTwice(ns: seq<Name>, a: seq<int>, b: seq<int>)
    requires |a| == |b|
    ensures RelocateAll(RelocateAll(ns, a), b) == RelocateAll(ns, Plus(a, b))
  {
  }
}
