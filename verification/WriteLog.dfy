/**
  The calls that a pass makes of the object writer, and what they come to: what
  they give to every region, and the sections that they visit.
 */
module WriteLog {
  import opened Bytes
  import opened FileCursor
  import opened ObjectWriter
  import opened Regions
  import opened Placement

  /** The regions when `out` has gone to the sections, and records and text to the tables. */
  function Gone(out: seq<seq<byte>>, relos: seq<seq<byte>>, names: seq<seq<byte>>, text: seq<byte>): (r: seq<seq<byte>>)
    requires |out| == MAXSECT
    ensures |r| == NREGION && r[MAXSECT] == Concat(relos) && r[MAXSECT + 1] == Concat(names) && r[MAXSECT + 2] == text
    ensures forall s :: 0 <= s < MAXSECT ==> r[s] == out[s]
  {
    out + [Concat(relos), Concat(names), text]
  }

  /** What has gone to the sections, and the visits that brought it. */
  datatype Track = Track(out: seq<seq<byte>>, visits: seq<Visit>) {
    predicate Valid() {
      |out| == MAXSECT && LastOf(visits) < MAXSECT
    }

    /** On the way, at section s. */
    predicate Here(s: nat) {
      Valid() && |visits| > 0 && LastOf(visits) == s
    }

    function Entered(s: nat): Track {
      this.(visits := Enter(visits, s))
    }

    function Brought(b: seq<byte>): Track
      requires Valid()
    {
      var s := LastOf(visits);
      Track(out[s := out[s] + b], Bring(visits, b))
    }

    /** Go to section s and write a and then b. */
    function Put(s: nat, a: seq<byte>, b: seq<byte>): Track
      requires Valid() && s < MAXSECT
    {
      Entered(s).Brought(a).Brought(b)
    }
  }

  lemma EnteredHere(k: Track, s: nat)
    requires k.Valid() && s < MAXSECT
    ensures k.Entered(s).Here(s) && (k.Here(s) ==> k.Entered(s) == k)
  {
  }

  lemma BroughtHere(k: Track, s: nat, b: seq<byte>)
    requires k.Here(s)
    ensures k.Brought(b).Here(s) && k.Brought([]) == k
  {
    PlusNothing(k.out[s]);
    PlusNothing(k.visits[|k.visits| - 1].bytes);
  }

  lemma BroughtTwice(k: Track, s: nat, a: seq<byte>, b: seq<byte>)
    requires k.Here(s)
    ensures k.Brought(a).Here(s) && k.Brought(a).Brought(b) == k.Brought(a + b)
  {
    Associate(k.out[s], a, b);
    Associate(k.visits[|k.visits| - 1].bytes, a, b);
  }

  lemma PutVisits(k: Track, s: nat, a: seq<byte>, b: seq<byte>)
    requires k.Valid() && s < MAXSECT
    ensures k.Put(s, a, b).visits == Bring(Enter(k.visits, s), a + b)
  {
    EnteredHere(k, s);
    BroughtTwice(k.Entered(s), s, a, b);
  }

  lemma PutBytes(k: Track, s: nat, a: seq<byte>, b: seq<byte>)
    requires k.Valid() && s < MAXSECT
    ensures k.Put(s, a, b).out == k.out[s := k.out[s] + (a + b)]
  {
    EnteredHere(k, s);
    BroughtTwice(k.Entered(s), s, a, b);
  }

  /** What the calls come to. */
  ghost predicate Comes(calls: seq<Call>, st: Plain, vs: seq<Visit>) {
    AllSized(calls) && st == Given(Plain(0, Nothing()), calls) && vs == Journey(calls)
  }

  /** The calls have brought this. */
  ghost predicate Logged(calls: seq<Call>, k: Track, relos: seq<seq<byte>>, names: seq<seq<byte>>, text: seq<byte>) {
    && AllSized(calls) && k.Valid()
    && forall st, vs :: Comes(calls, st, vs) ==>
        st == Plain(LastOf(k.visits), Gone(k.out, relos, names, text)) && vs == k.visits
  }

  lemma LoggedIs(calls: seq<Call>, k: Track, relos: seq<seq<byte>>, names: seq<seq<byte>>, text: seq<byte>)
    requires Logged(calls, k, relos, names, text)
    ensures AllSized(calls) && Given(Plain(0, Nothing()), calls)
        == Plain(LastOf(k.visits), Gone(k.out, relos, names, text))
    ensures Journey(calls) == k.visits
  {
    assert Comes(calls, Given(Plain(0, Nothing()), calls), Journey(calls));
  }

  lemma LoggedNothing()
    ensures Logged([], Track(seq(MAXSECT, _ => []), []), [], [], [])
  {
    assert Gone(seq(MAXSECT, _ => []), [], [], []) == Nothing();
  }

  lemma CallLast(calls: seq<Call>, c: Call)
    requires AllSized(calls) && Sized(c)
    ensures AllSized(calls + [c]) && Given(Plain(0, Nothing()), calls + [c]) == Given(Plain(0, Nothing()), calls).Do(c)
    ensures Journey(calls + [c]) == Visited(Journey(calls), c)
  {
    assert (calls + [c])[..|calls|] == calls;
  }

  lemma LoggedSect(calls: seq<Call>, k: Track, relos: seq<seq<byte>>, names: seq<seq<byte>>, text: seq<byte>,
      s: nat)
    requires Logged(calls, k, relos, names, text) && s < MAXSECT
    ensures Logged(calls + [Sect(s)], k.Entered(s), relos, names, text)
  {
    LoggedIs(calls, k, relos, names, text);
    CallLast(calls, Sect(s));
    SentEnter(k.visits, s, 0);
  }

  lemma {:induction false} GoneEmit(out: seq<seq<byte>>, relos: seq<seq<byte>>, names: seq<seq<byte>>,
      text: seq<byte>, s: nat, b: seq<byte>)
    requires |out| == MAXSECT && s < MAXSECT
    ensures Gone(out, relos, names, text)[s := out[s] + b] == Gone(out[s := out[s] + b], relos, names, text)
  {
  }

  lemma {:induction false} LoggedEmit(calls: seq<Call>, k: Track, relos: seq<seq<byte>>, names: seq<seq<byte>>,
      text: seq<byte>, b: seq<byte>)
    requires Logged(calls, k, relos, names, text)
    ensures Logged(calls + [Emit(b)], k.Brought(b), relos, names, text)
  {
    LoggedIs(calls, k, relos, names, text);
    CallLast(calls, Emit(b));
    SentBring(k.visits, b, 0);
    GoneEmit(k.out, relos, names, text, LastOf(k.visits), b);
  }

  lemma ConcatLast(recs: seq<seq<byte>>, r: seq<byte>)
    ensures Concat(recs + [r]) == Concat(recs) + r
  {
    assert (recs + [r])[..|recs|] == recs;
  }

  lemma {:induction false} ConcatAppend(a: seq<seq<byte>>, b: seq<seq<byte>>)
    ensures Concat(a + b) == Concat(a) + Concat(b)
    decreases |b|
  {
    if |b| == 0 {
      PlusNothing(a);
    } else {
      ConcatAppend(a, b[..|b| - 1]);
      assert (a + b)[..|a + b| - 1] == a + b[..|b| - 1];
    }
  }

  /** The tables, with any number of records in one call. */
  lemma LoggedRelos(calls: seq<Call>, k: Track, relos: seq<seq<byte>>, names: seq<seq<byte>>, text: seq<byte>,
      recs: seq<seq<byte>>)
    requires Logged(calls, k, relos, names, text) && Sized(Relo(recs))
    ensures Logged(calls + [Relo(recs)], k, relos + recs, names, text)
  {
    LoggedIs(calls, k, relos, names, text);
    CallLast(calls, Relo(recs));
    ConcatAppend(relos, recs);
    assert Gone(k.out, relos, names, text)[MAXSECT := Concat(relos) + Concat(recs)]
        == Gone(k.out, relos + recs, names, text);
  }

  lemma LoggedNames(calls: seq<Call>, k: Track, relos: seq<seq<byte>>, names: seq<seq<byte>>, text: seq<byte>,
      recs: seq<seq<byte>>)
    requires Logged(calls, k, relos, names, text) && Sized(Name(recs))
    ensures Logged(calls + [Name(recs)], k, relos, names + recs, text)
  {
    LoggedIs(calls, k, relos, names, text);
    CallLast(calls, Name(recs));
    ConcatAppend(names, recs);
    assert Gone(k.out, relos, names, text)[MAXSECT + 1 := Concat(names) + Concat(recs)]
        == Gone(k.out, relos, names + recs, text);
  }

  lemma LoggedText(calls: seq<Call>, k: Track, relos: seq<seq<byte>>, names: seq<seq<byte>>, text: seq<byte>,
      b: seq<byte>)
    requires Logged(calls, k, relos, names, text)
    ensures Logged(calls + [Text(b)], k, relos, names, text + b)
  {
    LoggedIs(calls, k, relos, names, text);
    CallLast(calls, Text(b));
    assert Gone(k.out, relos, names, text)[MAXSECT + 2 := text + b] == Gone(k.out, relos, names, text + b);
  }
}
