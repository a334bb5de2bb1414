/**
  Archive search (Ack-5.5/ld/archive.c): the table of contents is scanned again
  and again until nothing more is resolved; the second pass replays the positions.
 */
module Archive {
  import opened Bytes
  import opened Names
  import opened LinkModel
  import opened LinkAppend

  const ENDLIB := 0

  /** A line of the table of contents: the member at pos defines the name. */
  datatype Ran = Ran(name: string, pos: int)

  datatype Library = Library(table: seq<Ran>, members: map<int, Module>)

  // ------------------------------------------------------------ what is known

  predicate IsMention(m: Module, str: string, i: nat) {
    i < |m.names| && m.names[i].ext && m.names[i].str == str
  }

  /** Does the module mention the name, or define it (perhaps as common)? */
  ghost predicate MentionsName(m: Module, str: string) {
    exists i: nat :: IsMention(m, str, i)
  }

  ghost predicate DefinesName(m: Module, str: string) {
    exists i: nat :: IsMention(m, str, i) && KindOf(m.names[i]) != Undefined
  }

  ghost predicate SomeMention(ms: seq<Module>, str: string) {
    exists k :: 0 <= k < |ms| && MentionsName(ms[k], str)
  }

  ghost predicate SomeDefine(ms: seq<Module>, str: string) {
    exists k :: 0 <= k < |ms| && DefinesName(ms[k], str)
  }

  /** Is the name known and not defined? */
  predicate Wanted(ms: seq<Module>, str: string) {
    var found := Find(Globals(ms), str);
    found.Some? && IsUndefined(found.value)
  }

  /** Is anything known, and is it a definition? */
  predicate Defined(o: Option<Name>) {
    o.Some? && KindOf(o.value) != Undefined
  }

  lemma {:induction false} SaidAppend(a: seq<Name>, b: seq<Name>, str: string)
    requires AllExternal(a) && AllExternal(b)
    ensures Said(a + b, str) == Join(Said(a, str), Said(b, str))
    decreases |b|
  {
    if |b| == 0 {
      assert a + b == a;
    } else {
      var init, last := b[..|b| - 1], b[|b| - 1];
      SaidAppend(a, init, str);
      assert (a + b)[..|a + b| - 1] == a + init;
      SaidExternal(a, str);
      SaidExternal(init, str);
      if last.str == str { JoinAssociative(Said(a, str), Said(init, str), Some(last), str); }
    }
  }

  lemma JoinKnown(a: Option<Name>, b: Option<Name>, str: string)
    requires OnlyExternal(a, str) && OnlyExternal(b, str)
    ensures Join(a, b).Some? <==> a.Some? || b.Some?
    ensures Defined(Join(a, b)) <==> Defined(a) || Defined(b)
  {
  }

  ghost predicate ListMentions(ns: seq<Name>, str: string) {
    exists i :: 0 <= i < |ns| && ns[i].ext && ns[i].str == str
  }

  ghost predicate ListDefines(ns: seq<Name>, str: string) {
    exists i :: 0 <= i < |ns| && ns[i].ext && ns[i].str == str && KindOf(ns[i]) != Undefined
  }

  lemma ListLonger(ns: seq<Name>, n: Name, str: string)
    ensures ListMentions(ns + [n], str) <==> ListMentions(ns, str) || (n.ext && n.str == str)
    ensures ListDefines(ns + [n], str) <==> ListDefines(ns, str) || (n.ext && n.str == str && KindOf(n) != Undefined)
  {
    var all := ns + [n];
    assert all[|ns|] == n;
    if ListMentions(ns, str) {
      var i :| 0 <= i < |ns| && ns[i].ext && ns[i].str == str;
      assert all[i] == ns[i];
    }
    if ListDefines(ns, str) {
      var i :| 0 <= i < |ns| && ns[i].ext && ns[i].str == str && KindOf(ns[i]) != Undefined;
      assert all[i] == ns[i];
    }
  }

  lemma {:induction false} OwnMentions(ns: seq<Name>, str: string)
    ensures Said(ExternalsOf(ns), str).Some? <==> ListMentions(ns, str)
    ensures Defined(Said(ExternalsOf(ns), str)) <==> ListDefines(ns, str)
    decreases |ns|
  {
    if |ns| > 0 {
      var init, last := ns[..|ns| - 1], ns[|ns| - 1];
      OwnMentions(init, str);
      assert ns == init + [last];
      ListLonger(init, last, str);
      var e := ExternalsOf(init);
      ExternalsOfExternal(init);
      SaidExternal(e, str);
      if last.ext {
        assert (e + [last])[..|e + [last]| - 1] == e;
        if last.str == str { JoinKnown(Said(e, str), Some(last), str); }
      }
    }
  }

  lemma ListIsModule(m: Module, origin: seq<int>, str: string)
    ensures ListMentions(RelocateAll(m.names, origin), str) <==> MentionsName(m, str)
    ensures ListDefines(RelocateAll(m.names, origin), str) <==> DefinesName(m, str)
  {
    var ns := RelocateAll(m.names, origin);
    if MentionsName(m, str) {
      var i: nat :| IsMention(m, str, i);
      assert ns[i].ext && ns[i].str == str;
    }
    if DefinesName(m, str) {
      var i: nat :| IsMention(m, str, i) && KindOf(m.names[i]) != Undefined;
      assert ns[i].ext && ns[i].str == str && KindOf(ns[i]) != Undefined;
    }
    if ListMentions(ns, str) {
      var i :| 0 <= i < |ns| && ns[i].ext && ns[i].str == str;
      assert IsMention(m, str, i);
    }
    if ListDefines(ns, str) {
      var i :| 0 <= i < |ns| && ns[i].ext && ns[i].str == str && KindOf(ns[i]) != Undefined;
      assert IsMention(m, str, i) && KindOf(m.names[i]) != Undefined;
    }
  }

  lemma SomeLonger(ms: seq<Module>, m: Module, str: string)
    ensures SomeMention(ms + [m], str) <==> SomeMention(ms, str) || MentionsName(m, str)
    ensures SomeDefine(ms + [m], str) <==> SomeDefine(ms, str) || DefinesName(m, str)
  {
    var all := ms + [m];
    assert all[|ms|] == m;
    if SomeMention(ms, str) {
      var k :| 0 <= k < |ms| && MentionsName(ms[k], str);
      assert all[k] == ms[k];
    }
    if SomeDefine(ms, str) {
      var k :| 0 <= k < |ms| && DefinesName(ms[k], str);
      assert all[k] == ms[k];
    }
  }

  lemma {:induction false} SaidIs(ms: seq<Module>, str: string)
    ensures Said(Externals(ms), str).Some? <==> SomeMention(ms, str)
    ensures Defined(Said(Externals(ms), str)) <==> SomeDefine(ms, str)
    decreases |ms|
  {
    if |ms| > 0 {
      var init, last := ms[..|ms| - 1], ms[|ms| - 1];
      SaidIs(init, str);
      assert ms == init + [last];
      SomeLonger(init, last, str);
      var own := RelocateAll(last.names, Origins(init));
      ListIsModule(last, Origins(init), str);
      OwnMentions(own, str);
      ExternalsExternal(init);
      ExternalsOfExternal(own);
      SaidAppend(Externals(init), ExternalsOf(own), str);
      SaidExternal(Externals(init), str);
      SaidExternal(ExternalsOf(own), str);
      JoinKnown(Said(Externals(init), str), Said(ExternalsOf(own), str), str);
    }
  }

  /** What is wanted does not depend on the order in which modules came. */
  lemma WantedIs(ms: seq<Module>, str: string)
    ensures Wanted(ms, str) <==> SomeMention(ms, str) && !SomeDefine(ms, str)
  {
    SaidIs(ms, str);
    ExternalsExternal(ms);
    EnterAllFind([], Externals(ms), str);
    SaidExternal(Externals(ms), str);
  }

  // ---------------------------------------------------------------- searching

  /** Every line of the table is true. */
  ghost predicate Truthful(lib: Library) {
    forall r :: r in lib.table ==> r.pos != ENDLIB && r.pos in lib.members && DefinesName(lib.members[r.pos], r.name)
  }

  function MemberAt(lib: Library, p: int): Module {
    if p in lib.members then lib.members[p] else Module([], [], [])
  }

  function Members(lib: Library, ps: seq<int>): (r: seq<Module>)
    ensures |r| == |ps| && forall i :: 0 <= i < |ps| ==> r[i] == MemberAt(lib, ps[i])
  {
    seq(|ps|, i requires 0 <= i < |ps| => MemberAt(lib, ps[i]))
  }

  ghost predicate Listed(lib: Library, p: int) {
    exists r :: r in lib.table && r.pos == p
  }

  /** Positions of members that are listed, no two of them the same. */
  ghost predicate Picked(lib: Library, ps: seq<int>) {
    && (forall i :: 0 <= i < |ps| ==> Listed(lib, ps[i]) && ps[i] in lib.members)
    && forall i, j :: 0 <= i < j < |ps| ==> ps[i] != ps[j]
  }

  function Positions(table: seq<Ran>): (r: set<int>)
    ensures forall x :: x in table ==> x.pos in r
  {
    if |table| == 0 then {} else {table[0].pos} + Positions(table[1..])
  }

  lemma {:induction false} PickedFew(lib: Library, ps: seq<int>, all: set<int>)
    requires Picked(lib, ps) && forall i :: 0 <= i < |ps| ==> ps[i] in all
    ensures |ps| <= |all|
    decreases |ps|
  {
    if |ps| > 0 {
      var n := |ps| - 1;
      PickedFew(lib, ps[..n], all - {ps[n]});
    }
  }

  lemma LoadedDefines(lib: Library, ms0: seq<Module>, ps: seq<int>, i: nat, str: string)
    requires i < |ps|
    ensures DefinesName(MemberAt(lib, ps[i]), str) ==> SomeDefine(ms0 + Members(lib, ps), str)
  {
    assert (ms0 + Members(lib, ps))[|ms0| + i] == MemberAt(lib, ps[i]);
  }

  /** A member that is wanted has not been loaded yet. */
  lemma WantedIsNew(lib: Library, ms0: seq<Module>, ps: seq<int>, r: Ran)
    requires Truthful(lib) && Picked(lib, ps) && r in lib.table && Wanted(ms0 + Members(lib, ps), r.name)
    ensures Picked(lib, ps + [r.pos])
  {
    WantedIs(ms0 + Members(lib, ps), r.name);
    forall i | 0 <= i < |ps| ensures ps[i] != r.pos { LoadedDefines(lib, ms0, ps, i, r.name); }
    assert Listed(lib, r.pos);
  }

  // ------------------------------------------------------- the least solution

  /** Is a member needed for something that the modules or these members mention? */
  ghost predicate Demands(lib: Library, ms0: seq<Module>, c: set<int>, r: Ran) {
    && r in lib.table && !SomeDefine(ms0, r.name)
    && (SomeMention(ms0, r.name) || exists q :: q in c && MentionsName(MemberAt(lib, q), r.name))
  }

  ghost predicate Closed(lib: Library, ms0: seq<Module>, c: set<int>) {
    forall r :: Demands(lib, ms0, c, r) ==> r.pos in c
  }

  function SetOf(ps: seq<int>): (r: set<int>)
    ensures forall x :: x in r <==> x in ps
  {
    if |ps| == 0 then {} else {ps[0]} + SetOf(ps[1..])
  }

  /** Every closed set has these members. */
  ghost predicate InEveryClosed(lib: Library, ms0: seq<Module>, ps: seq<int>) {
    forall c: set<int> :: Closed(lib, ms0, c) ==> SetOf(ps) <= c
  }

  lemma SomeOf(lib: Library, ms0: seq<Module>, ps: seq<int>, str: string)
    ensures SomeMention(ms0 + Members(lib, ps), str)
        <==> SomeMention(ms0, str) || exists q :: q in SetOf(ps) && MentionsName(MemberAt(lib, q), str)
    ensures SomeDefine(ms0 + Members(lib, ps), str)
        <==> SomeDefine(ms0, str) || exists q :: q in SetOf(ps) && DefinesName(MemberAt(lib, q), str)
  {
    var all := ms0 + Members(lib, ps);
    forall k | 0 <= k < |all| ensures k < |ms0|
        || (ps[k - |ms0|] in SetOf(ps) && all[k] == MemberAt(lib, ps[k - |ms0|])) {}
    if SomeMention(ms0, str) {
      var k :| 0 <= k < |ms0| && MentionsName(ms0[k], str);
      assert all[k] == ms0[k];
    }
    if SomeDefine(ms0, str) {
      var k :| 0 <= k < |ms0| && DefinesName(ms0[k], str);
      assert all[k] == ms0[k];
    }
    forall q | q in SetOf(ps) ensures exists k :: 0 <= k < |all| && all[k] == MemberAt(lib, q) {
      var i :| 0 <= i < |ps| && ps[i] == q;
      assert all[|ms0| + i] == MemberAt(lib, q);
    }
  }

  lemma OnlyDemanded(lib: Library, ms0: seq<Module>, ps: seq<int>, r: Ran)
    requires InEveryClosed(lib, ms0, ps) && r in lib.table && Wanted(ms0 + Members(lib, ps), r.name)
    ensures InEveryClosed(lib, ms0, ps + [r.pos])
  {
    WantedIs(ms0 + Members(lib, ps), r.name);
    SomeOf(lib, ms0, ps, r.name);
    forall c: set<int> | Closed(lib, ms0, c) ensures SetOf(ps + [r.pos]) <= c {
      assert SetOf(ps) <= c;
      assert Demands(lib, ms0, c, r);
    }
  }

  /** The table says all that its members define, and nothing is defined twice. */
  ghost predicate Exact(lib: Library) {
    && (forall r, str :: r in lib.table && DefinesName(MemberAt(lib, r.pos), str) ==> Ran(str, r.pos) in lib.table)
    && forall r, r' :: r in lib.table && r' in lib.table && r.name == r'.name ==> r.pos == r'.pos
  }

  ghost predicate NothingWanted(lib: Library, ms: seq<Module>) {
    forall i :: 0 <= i < |lib.table| ==> !Wanted(ms, lib.table[i].name)
  }

  lemma DoneIsClosed(lib: Library, ms0: seq<Module>, ps: seq<int>)
    requires Picked(lib, ps) && Exact(lib) && NothingWanted(lib, ms0 + Members(lib, ps))
    ensures Closed(lib, ms0, SetOf(ps))
  {
    forall r | Demands(lib, ms0, SetOf(ps), r) ensures r.pos in SetOf(ps) {
      SomeOf(lib, ms0, ps, r.name);
      WantedIs(ms0 + Members(lib, ps), r.name);
      var i :| 0 <= i < |lib.table| && lib.table[i] == r;
      assert !Wanted(ms0 + Members(lib, ps), lib.table[i].name);
      var q :| q in SetOf(ps) && DefinesName(MemberAt(lib, q), r.name);
      var j :| 0 <= j < |ps| && ps[j] == q;
      assert Listed(lib, q);
    }
  }

  /** What is loaded depends on what the tables say, not on their order. */
  lemma LoadedIsLeast(lib: Library, lib': Library, ms0: seq<Module>, ps: seq<int>, ps': seq<int>)
    requires lib.members == lib'.members && forall r :: r in lib.table <==> r in lib'.table
    requires Closed(lib, ms0, SetOf(ps)) && InEveryClosed(lib, ms0, ps)
    requires Closed(lib', ms0, SetOf(ps')) && InEveryClosed(lib', ms0, ps')
    ensures SetOf(ps) == SetOf(ps')
  {
    assert Closed(lib, ms0, SetOf(ps')) by {
      forall r | Demands(lib, ms0, SetOf(ps'), r) ensures r.pos in SetOf(ps') {
        assert Demands(lib', ms0, SetOf(ps'), r);
      }
    }
    assert Closed(lib', ms0, SetOf(ps)) by {
      forall r | Demands(lib', ms0, SetOf(ps), r) ensures r.pos in SetOf(ps) { assert Demands(lib, ms0, SetOf(ps), r); }
    }
  }

  // -------------------------------------------------------------------- arch

  /** One scan of the table of contents: the positions of the members that it loads. */
  method Scan(lib: Library, ms0: seq<Module>, ps0: seq<int>) returns (resolved: bool, ps: seq<int>)
    requires Truthful(lib) && Picked(lib, ps0) && InEveryClosed(lib, ms0, ps0)
    ensures Picked(lib, ps) && InEveryClosed(lib, ms0, ps) && |ps0| <= |ps| && ps[..|ps0|] == ps0
    ensures resolved ==> |ps0| < |ps|
    ensures !resolved ==> ps == ps0 && NothingWanted(lib, ms0 + Members(lib, ps))
  {
    resolved, ps := false, ps0;
    var i := 0;
    while i < |lib.table|
      invariant 0 <= i <= |lib.table|
      invariant Picked(lib, ps) && InEveryClosed(lib, ms0, ps) && |ps0| <= |ps| && ps[..|ps0|] == ps0
      invariant resolved ==> |ps0| < |ps|
      invariant !resolved ==> ps == ps0 && forall j :: 0 <= j < i ==> !Wanted(ms0 + Members(lib, ps), lib.table[j].name)
    {
      var r := lib.table[i];
      if !Wanted(ms0 + Members(lib, ps), r.name) {
        i := i + 1;
        continue;
      }
      resolved := true;
      i := i + 1;
      while i < |lib.table| && lib.table[i].pos == r.pos
        invariant 0 <= i <= |lib.table|
      {
        i := i + 1;
      }
      WantedIsNew(lib, ms0, ps, r);
      OnlyDemanded(lib, ms0, ps, r);
      ps := ps + [r.pos];
    }
  }

  /**
    The source's arch: rescan until nothing is resolved. Nothing that the table
    could provide is left undefined, no member is loaded twice, and if the table
    is exact then the least closed set is loaded.
   */
  method Arch(lib: Library, ms0: seq<Module>) returns (ms: seq<Module>, ps: seq<int>)
    requires Truthful(lib)
    ensures ms == ms0 + Members(lib, ps) && Picked(lib, ps)
    ensures NothingWanted(lib, ms)
    ensures InEveryClosed(lib, ms0, ps)
    ensures Exact(lib) ==> Closed(lib, ms0, SetOf(ps))
  {
    ps := [];
    var resolved := true;
    ghost var all := Positions(lib.table);
    while resolved
      invariant Picked(lib, ps) && InEveryClosed(lib, ms0, ps)
      invariant |ps| <= |all|
      invariant !resolved ==> NothingWanted(lib, ms0 + Members(lib, ps))
      decreases |all| - |ps|, resolved
    {
      resolved, ps := Scan(lib, ms0, ps);
      AllListed(lib, ps);
      PickedFew(lib, ps, all);
    }
    ms := ms0 + Members(lib, ps);
    if Exact(lib) { DoneIsClosed(lib, ms0, ps); }
  }

  lemma AllListed(lib: Library, ps: seq<int>)
    requires Picked(lib, ps)
    ensures forall i :: 0 <= i < |ps| ==> ps[i] in Positions(lib.table)
  {
    forall i | 0 <= i < |ps| ensures ps[i] in Positions(lib.table) {
      assert Listed(lib, ps[i]);
    }
  }

  // ------------------------------------------------------------ the second pass

  /** The positions of each archive's members, each list closed by ENDLIB. */
  function Flatten(groups: seq<seq<int>>): seq<int> {
    if |groups| == 0 then [] else Flatten(groups[..|groups| - 1]) + groups[|groups| - 1] + [ENDLIB]
  }

  lemma {:induction false} FlattenSlice(groups: seq<seq<int>>, k: nat)
    requires k < |groups|
    ensures var at := |Flatten(groups[..k])|;
      && at + |groups[k]| < |Flatten(groups)| && Flatten(groups)[at + |groups[k]|] == ENDLIB
      && Flatten(groups)[at .. at + |groups[k]|] == groups[k]
      && |Flatten(groups[..k + 1])| == at + |groups[k]| + 1
    decreases |groups|
  {
    var init := groups[..|groups| - 1];
    assert groups[..k + 1][..k] == groups[..k];
    if k < |init| {
      FlattenSlice(init, k);
      assert init[..k] == groups[..k] && init[..k + 1] == groups[..k + 1];
      var at := |Flatten(groups[..k])|;
      assert Flatten(groups)[at .. at + |groups[k]|] == Flatten(init)[at .. at + |groups[k]|];
    } else {
      assert init == groups[..k];
    }
  }

  class Notes {
    var positions: seq<int>
    var posindex: nat

    constructor ()
      ensures positions == [] && posindex == 0
    {
      positions, posindex := [], 0;
    }

    /** The source's notelib. */
    method NoteLib(pos: int)
      modifies this`positions
      ensures positions == old(positions) + [pos]
    {
      positions := positions + [pos];
    }

    /** The calls of notelib for one archive. */
    method NoteArchive(ps: seq<int>, ghost groups: seq<seq<int>>)
      requires positions == Flatten(groups)
      modifies this`positions
      ensures positions == Flatten(groups + [ps])
    {
      var i := 0;
      assert ps[..0] == [];
      while i < |ps|
        invariant 0 <= i <= |ps| && positions == Flatten(groups) + ps[..i]
      {
        NoteLib(ps[i]);
        i := i + 1;
      }
      NoteLib(ENDLIB);
      assert ps[..i] == ps && (groups + [ps])[..|groups|] == groups;
    }

    /** The source's arch2: the members of the next archive, in the order of the first pass. */
    method Arch2(ghost groups: seq<seq<int>>, ghost k: nat) returns (ps: seq<int>)
      requires k < |groups| && positions == Flatten(groups) && posindex == |Flatten(groups[..k])|
          && ENDLIB !in groups[k]
      modifies this`posindex
      ensures ps == groups[k] && posindex == |Flatten(groups[..k + 1])|
    {
      FlattenSlice(groups, k);
      ps := [];
      var localpos := posindex;
      ghost var slice := positions[posindex .. posindex + |groups[k]|];
      forall j | 0 <= j < |groups[k]| ensures slice[j] == groups[k][j] == positions[posindex + j] {}
      while positions[localpos] != ENDLIB
        invariant localpos == posindex + |ps| && |ps| <= |groups[k]| && ps == groups[k][..|ps|]
        decreases |groups[k]| - |ps|
      {
        ps := ps + [positions[localpos]];
        localpos := localpos + 1;
      }
      posindex := localpos + 1;
    }
  }
}
