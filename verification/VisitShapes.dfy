/**
  The visits of the pass that reads the modules again, as far as they are known
  before it: which sections, and how many bytes. That is enough to tell whether
  the shared cursor of the object writer is always where it should be.
 */
module VisitShapes {
  import opened Bytes
  import opened LinkModel
  import opened Layout
  import opened Placement
  import opened ReRead
  import ObjectWriter

  predicate SameVisit(v: Visit, w: Visit) {
    v.sect == w.sect && |v.bytes| == |w.bytes|
  }

  /** The same sections, and as many bytes. */
  predicate SameShape(vs: seq<Visit>, ws: seq<Visit>) {
    |vs| == |ws| && forall j :: 0 <= j < |vs| ==> SameVisit(vs[j], ws[j])
  }

  lemma ShapePrefix(vs: seq<Visit>, ws: seq<Visit>, j: nat)
    requires SameShape(vs, ws) && j <= |vs|
    ensures SameShape(vs[..j], ws[..j])
  {
    forall i | 0 <= i < j ensures SameVisit(vs[..j][i], ws[..j][i]) { assert SameVisit(vs[i], ws[i]); }
  }

  lemma {:induction false} ShapeSent(vs: seq<Visit>, ws: seq<Visit>, s: nat)
    requires SameShape(vs, ws)
    ensures |Sent(vs, s)| == |Sent(ws, s)| && LastShared(vs) == LastShared(ws) && LastOf(vs) == LastOf(ws)
    decreases |vs|
  {
    if |vs| > 0 {
      ShapePrefix(vs, ws, |vs| - 1);
      ShapeSent(vs[..|vs| - 1], ws[..|vs| - 1], s);
      assert SameVisit(vs[|vs| - 1], ws[|vs| - 1]);
    }
  }

  lemma FitsByShape(lo: seq<nat>, vs: seq<Visit>, ws: seq<Visit>)
    requires SameShape(vs, ws) && AllFit(lo, vs)
    ensures AllFit(lo, ws)
  {
    forall j | 0 <= j < |ws| ensures EntryFits(lo, ws, j) {
      assert EntryFits(lo, vs, j);
      assert SameVisit(vs[j], ws[j]);
      if j > 0 { assert SameVisit(vs[j - 1], ws[j - 1]); }
      ShapePrefix(vs, ws, j);
      ShapeSent(vs[..j], ws[..j], vs[j].sect);
      ShapeSent(vs[..j], ws[..j], LastShared(vs[..j]));
    }
  }

  lemma ShapeNext(vs: seq<Visit>, ws: seq<Visit>, s: nat, a: seq<byte>, b: seq<byte>, vs': seq<Visit>, ws': seq<Visit>)
    requires SameShape(vs, ws) && |a| == |b| && vs' == Bring(Enter(vs, s), a) && ws' == Bring(Enter(ws, s), b)
    ensures SameShape(vs', ws')
  {
    if |vs| > 0 { assert SameVisit(vs[|vs| - 1], ws[|ws| - 1]); }
    forall j | 0 <= j < |vs'| ensures SameVisit(vs'[j], ws'[j]) {
      if j < |vs| { assert SameVisit(vs[j], ws[j]); }
    }
  }

  lemma {:induction false} ShapeMerged(vs: seq<Visit>, ws: seq<Visit>)
    requires SameShape(vs, ws)
    ensures SameShape(Merged(vs), Merged(ws))
    decreases |vs|
  {
    if |vs| > 0 {
      var v, w, front, front' := vs[|vs| - 1], ws[|ws| - 1], vs[..|vs| - 1], ws[..|ws| - 1];
      ShapePrefix(vs, ws, |vs| - 1);
      ShapeMerged(front, front');
      assert SameVisit(v, w);
      ShapeNext(Merged(front), Merged(front'), v.sect, v.bytes, w.bytes, Merged(vs), Merged(ws));
    }
  }

  lemma ShapeLast(vs: seq<Visit>, ws: seq<Visit>, v: Visit, w: Visit, vs': seq<Visit>, ws': seq<Visit>)
    requires SameShape(vs, ws) && SameVisit(v, w) && vs' == vs + [v] && ws' == ws + [w]
    ensures SameShape(vs', ws')
  {
    forall j | 0 <= j < |vs'| ensures SameVisit(vs'[j], ws'[j]) {
      if j < |vs| { assert SameVisit(vs[j], ws[j]); }
    }
  }

  // --------------------------------------------------------- of the second pass

  lemma {:induction false} SamePortion(env: Env, env': Env, ms: seq<Module>, m: Module, s: nat)
    ensures SameVisit(Visit(s, Portion(env, ms, m, s)), Visit(s, Portion(env', ms, m, s)))
    ensures |Portion(env, ms, m, s)| >= |DataOf(m, s)|
  {
    ContentLength(env, ms, s);
    ContentLength(env', ms, s);
  }

  /** What the second pass finds out changes nothing in the shape. */
  lemma {:induction false} ShapeUpTo(env: Env, env': Env, ms: seq<Module>, m: Module, n: nat)
    ensures SameShape(BroughtUpTo(env, ms, m, n), BroughtUpTo(env', ms, m, n))
    decreases |ms|, n + 1
  {
    if n == 0 {
      ShapeBy(env, env', ms);
    } else {
      ShapeUpTo(env, env', ms, m, n - 1);
      ShapeOne(env, env', ms, m, n);
    }
  }

  lemma {:induction false} ShapeOne(env: Env, env': Env, ms: seq<Module>, m: Module, n: nat)
    requires n > 0 && SameShape(BroughtUpTo(env, ms, m, n - 1), BroughtUpTo(env', ms, m, n - 1))
    ensures SameShape(BroughtUpTo(env, ms, m, n), BroughtUpTo(env', ms, m, n))
  {
    if |DataOf(m, n - 1)| > 0 {
      SamePortion(env, env', ms, m, n - 1);
      ShapeLast(BroughtUpTo(env, ms, m, n - 1), BroughtUpTo(env', ms, m, n - 1),
          Visit(n - 1, Portion(env, ms, m, n - 1)),
          Visit(n - 1, Portion(env', ms, m, n - 1)), BroughtUpTo(env, ms, m, n), BroughtUpTo(env', ms, m, n));
    }
  }

  lemma {:induction false} ShapeBy(env: Env, env': Env, ms: seq<Module>)
    ensures SameShape(BroughtBy(env, ms), BroughtBy(env', ms))
    decreases |ms|, 0
  {
    if |ms| > 0 { ShapeUpTo(env, env', ms[..|ms| - 1], ms[|ms| - 1], |ms[|ms| - 1].sects|); }
  }

  lemma ShapeOf(env: Env, env': Env, ms: seq<Module>)
    ensures SameShape(VisitsOf(env, ms), VisitsOf(env', ms))
  {
    ShapeBy(env, env', ms);
    ShapeMerged(BroughtBy(env, ms), BroughtBy(env', ms));
  }

  /** So whether all ends meet can be told with any names and bases. */
  lemma FitsAnyway(lo: seq<nat>, env: Env, env': Env, ms: seq<Module>)
    ensures AllFit(lo, VisitsOf(env, ms)) <==> AllFit(lo, VisitsOf(env', ms))
  {
    ShapeOf(env, env', ms);
    ShapeOf(env', env, ms);
    if AllFit(lo, VisitsOf(env, ms)) {
      FitsByShape(lo, VisitsOf(env, ms), VisitsOf(env', ms));
    }
    if AllFit(lo, VisitsOf(env', ms)) {
      FitsByShape(lo, VisitsOf(env', ms), VisitsOf(env, ms));
    }
  }

  lemma BringsMore(vs: seq<Visit>, s: nat, b: seq<byte>, now: seq<Visit>)
    requires AllBring(vs) && |b| > 0 && now == Bring(Enter(vs, s), b)
    ensures AllBring(now)
  {
    forall j | 0 <= j < |now| ensures Brings(now, j) {
      if j < |vs| { assert Brings(vs, j); }
    }
  }

  lemma {:induction false} BringMerged(vs: seq<Visit>)
    requires AllBring(vs)
    ensures AllBring(Merged(vs))
    decreases |vs|
  {
    if |vs| > 0 {
      var v, front := vs[|vs| - 1], vs[..|vs| - 1];
      forall j | 0 <= j < |front| ensures Brings(front, j) { assert Brings(vs, j); }
      assert Brings(vs, |vs| - 1);
      BringMerged(front);
      BringsMore(Merged(front), v.sect, v.bytes, Merged(vs));
    }
  }

  lemma BringLast(vs: seq<Visit>, v: Visit, now: seq<Visit>)
    requires AllBring(vs) && |v.bytes| > 0 && now == vs + [v]
    ensures AllBring(now)
  {
    forall j | 0 <= j < |now| ensures Brings(now, j) {
      if j < |vs| { assert Brings(vs, j); }
    }
  }

  lemma {:induction false} BringOne(env: Env, ms: seq<Module>, m: Module, n: nat)
    requires n > 0 && AllBring(BroughtUpTo(env, ms, m, n - 1))
    ensures AllBring(BroughtUpTo(env, ms, m, n))
  {
    if |DataOf(m, n - 1)| > 0 {
      SamePortion(env, env, ms, m, n - 1);
      BringLast(BroughtUpTo(env, ms, m, n - 1), Visit(n - 1, Portion(env, ms, m, n - 1)), BroughtUpTo(env, ms, m, n));
    }
  }

  /** Only sections for which a module has bytes are visited. */
  lemma {:induction false} BringUpTo(env: Env, ms: seq<Module>, m: Module, n: nat)
    ensures AllBring(BroughtUpTo(env, ms, m, n))
    decreases |ms|, n + 1
  {
    if n == 0 {
      BringBy(env, ms);
    } else {
      BringUpTo(env, ms, m, n - 1);
      BringOne(env, ms, m, n);
    }
  }

  lemma {:induction false} BringBy(env: Env, ms: seq<Module>)
    ensures AllBring(BroughtBy(env, ms))
    decreases |ms|, 0
  {
    if |ms| > 0 { BringUpTo(env, ms[..|ms| - 1], ms[|ms| - 1], |ms[|ms| - 1].sects|); }
  }

  lemma BringOf(env: Env, ms: seq<Module>)
    ensures AllBring(VisitsOf(env, ms))
  {
    BringBy(env, ms);
    BringMerged(BroughtBy(env, ms));
  }

  // ------------------------------------------------- three sections are enough

  /** No module has bytes beyond section 2. */
  predicate ThreeSections(ms: seq<Module>) {
    forall k, s :: 0 <= k < |ms| && ObjectWriter.SECTCNT <= s < MAXSECT ==> |DataOf(ms[k], s)| == 0
  }

  predicate AllLow(vs: seq<Visit>) {
    forall j :: 0 <= j < |vs| ==> vs[j].sect < ObjectWriter.SECTCNT
  }

  lemma {:induction false} LowMerged(vs: seq<Visit>)
    requires AllLow(vs)
    ensures AllLow(Merged(vs))
    decreases |vs|
  {
    if |vs| > 0 { LowMerged(vs[..|vs| - 1]); }
  }

  lemma {:induction false} LowUpTo(env: Env, ms: seq<Module>, m: Module, n: nat)
    requires AllWellFormed(ms) && ThreeSections(ms) && n <= MAXSECT
    requires forall s :: ObjectWriter.SECTCNT <= s < MAXSECT ==> |DataOf(m, s)| == 0
    ensures AllLow(BroughtUpTo(env, ms, m, n))
    decreases |ms|, n + 1
  {
    if n == 0 { LowBy(env, ms); } else { LowUpTo(env, ms, m, n - 1); }
  }

  lemma {:induction false} LowBy(env: Env, ms: seq<Module>)
    requires AllWellFormed(ms) && ThreeSections(ms)
    ensures AllLow(BroughtBy(env, ms))
    decreases |ms|, 0
  {
    if |ms| > 0 {
      assert WellFormed(ms[|ms| - 1]);
      LowUpTo(env, ms[..|ms| - 1], ms[|ms| - 1], |ms[|ms| - 1].sects|);
    }
  }

  lemma {:induction false} LowShared(vs: seq<Visit>)
    requires AllLow(vs)
    ensures LastShared(vs) == ObjectWriter.SHARED
    decreases |vs|
  {
    if |vs| > 0 { LowShared(vs[..|vs| - 1]); }
  }

  /** With bytes in the first three sections only, as most assemblers have it, reading again is always right. */
  lemma ThreeSectionsRight(env: Env, lo: seq<nat>, ms: seq<Module>)
    requires AllWellFormed(ms) && ThreeSections(ms)
    ensures AllFit(lo, VisitsOf(env, ms))
  {
    LowBy(env, ms);
    LowMerged(BroughtBy(env, ms));
    LowFits(lo, VisitsOf(env, ms));
  }

  lemma LowFits(lo: seq<nat>, vs: seq<Visit>)
    requires AllLow(vs)
    ensures AllFit(lo, vs)
  {
    forall j | 0 <= j < |vs| ensures EntryFits(lo, vs, j) { LowShared(vs[..j]); }
  }
}
