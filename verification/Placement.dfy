/**
  When does every byte that is given to the object writer go to its own place?
  That depends on the sections that are visited and on how much each visit
  brings: a shared section that is entered from section 0 or 1 goes on where the
  shared cursor was left.
 */
module Placement {
  import opened Bytes
  import opened FileCursor
  import opened ObjectWriter
  import opened Regions

  // ------------------------------------------------------------------ visits

  /** A stay at a section, and what is written there. */
  datatype Visit = Visit(sect: nat, bytes: seq<byte>)

  function LastOf(vs: seq<Visit>): nat {
    if |vs| == 0 then 0 else vs[|vs| - 1].sect
  }

  function Enter(vs: seq<Visit>, s: nat): seq<Visit> {
    if |vs| > 0 && vs[|vs| - 1].sect == s then vs else vs + [Visit(s, [])]
  }

  function Bring(vs: seq<Visit>, b: seq<byte>): seq<Visit> {
    if |vs| == 0 then [Visit(0, b)]
    else
      var last := vs[|vs| - 1];
      vs[..|vs| - 1] + [Visit(last.sect, last.bytes + b)]
  }

  function Visited(vs: seq<Visit>, c: Call): seq<Visit> {
    if c.Sect? then Enter(vs, c.s) else if c.Emit? then Bring(vs, c.b) else vs
  }

  /** Visits that follow one another at the same section are one. */
  function Merged(vs: seq<Visit>): seq<Visit> {
    if |vs| == 0 then []
    else
      var v := vs[|vs| - 1];
      Bring(Enter(Merged(vs[..|vs| - 1]), v.sect), v.bytes)
  }

  lemma MergedLast(vs: seq<Visit>, v: Visit)
    ensures Merged(vs + [v]) == Bring(Enter(Merged(vs), v.sect), v.bytes)
  {
    WithLast(vs, v);
  }

  /** The visits that the calls make. */
  function Journey(calls: seq<Call>): seq<Visit> {
    if |calls| == 0 then [] else Visited(Journey(calls[..|calls| - 1]), calls[|calls| - 1])
  }

  /** What the visits bring to section s. */
  function Sent(vs: seq<Visit>, s: nat): seq<byte> {
    if |vs| == 0 then []
    else
      var v := vs[|vs| - 1];
      if v.sect == s then Sent(vs[..|vs| - 1], s) + v.bytes else Sent(vs[..|vs| - 1], s)
  }

  /** The shared section that was visited last. */
  function LastShared(vs: seq<Visit>): (r: nat)
    ensures r >= SHARED
  {
    if |vs| == 0 then SHARED
    else if vs[|vs| - 1].sect >= SHARED then vs[|vs| - 1].sect
    else LastShared(vs[..|vs| - 1])
  }

  /** Does visit j come to a shared section from one that is not? */
  predicate Entering(vs: seq<Visit>, j: nat)
    requires j < |vs|
  {
    vs[j].sect >= SHARED && (j == 0 || vs[j - 1].sect < SHARED)
  }

  /** The end of what the section has, if it starts at this place. */
  function EndAt(lo: seq<nat>, vs: seq<Visit>, s: nat): nat {
    (if s < |lo| then lo[s] else 0) + |Sent(vs, s)|
  }

  /** If so, is the end of the section where the shared cursor was left? */
  predicate EntryFits(lo: seq<nat>, vs: seq<Visit>, j: nat)
    requires j < |vs|
  {
    Entering(vs, j) ==> EndAt(lo, vs[..j], vs[j].sect) == EndAt(lo, vs[..j], LastShared(vs[..j]))
  }

  predicate AllFit(lo: seq<nat>, vs: seq<Visit>) {
    forall j :: 0 <= j < |vs| ==> EntryFits(lo, vs, j)
  }

  /** Is the section itself the one where the cursor was left? */
  predicate EntrySame(vs: seq<Visit>, j: nat)
    requires j < |vs|
  {
    Entering(vs, j) ==> vs[j].sect == LastShared(vs[..j])
  }

  predicate AllSame(vs: seq<Visit>) {
    forall j :: 0 <= j < |vs| ==> EntrySame(vs, j)
  }

  predicate Brings(vs: seq<Visit>, j: nat)
    requires j < |vs|
  {
    |vs[j].bytes| > 0
  }

  predicate AllBring(vs: seq<Visit>) {
    forall j :: 0 <= j < |vs| ==> Brings(vs, j)
  }

  // ------------------------------------------------------- visits, one by one

  /** The visits `now` go on from `was`: the last one may have brought more. */
  predicate GoesOn(was: seq<Visit>, now: seq<Visit>) {
    && |was| <= |now|
    && (|was| > 0 ==> was[..|was| - 1] == now[..|was| - 1] && was[|was| - 1].sect == now[|was| - 1].sect)
    && (|was| > 0 && |was| < |now| ==> was == now[..|was|])
  }

  lemma VisitedGoesOn(vs: seq<Visit>, c: Call)
    ensures GoesOn(vs, Visited(vs, c))
  {
  }

  lemma SameGoesOn(was: seq<Visit>, now: seq<Visit>)
    requires GoesOn(was, now) && AllSame(now)
    ensures AllSame(was)
  {
    forall j | 0 <= j < |was| ensures EntrySame(was, j) {
      assert EntrySame(now, j);
      assert was[..j] == now[..j];
    }
  }

  /** A new visit fits exactly if all before and its entry do. */
  lemma FitsOneMore(lo: seq<nat>, vs: seq<Visit>, v: Visit)
    ensures AllFit(lo, vs + [v]) <==> AllFit(lo, vs) && EntryFits(lo, vs + [v], |vs|)
  {
    var now := vs + [v];
    forall j | 0 <= j < |vs| ensures EntryFits(lo, now, j) <==> EntryFits(lo, vs, j) { assert now[..j] == vs[..j]; }
    if AllFit(lo, now) {
      forall j | 0 <= j < |vs| ensures EntryFits(lo, vs, j) { assert EntryFits(lo, now, j); }
    }
  }

  lemma FitsMore(lo: seq<nat>, vs: seq<Visit>, b: seq<byte>)
    ensures AllFit(lo, Bring(vs, b)) <==> AllFit(lo, vs)
  {
    var now := Bring(vs, b);
    forall j | 0 <= j < |vs| ensures EntryFits(lo, now, j) <==> EntryFits(lo, vs, j) { assert now[..j] == vs[..j]; }
    if AllFit(lo, now) {
      forall j | 0 <= j < |vs| ensures EntryFits(lo, vs, j) { assert EntryFits(lo, now, j); }
    }
  }

  lemma SentEnter(vs: seq<Visit>, t: nat, s: nat)
    ensures Sent(Enter(vs, t), s) == Sent(vs, s) && LastOf(Enter(vs, t)) == t
    ensures LastShared(Enter(vs, t)) == if t >= SHARED then t else LastShared(vs)
  {
    if Enter(vs, t) != vs { assert (vs + [Visit(t, [])])[..|vs|] == vs; }
  }

  lemma SentBring(vs: seq<Visit>, b: seq<byte>, s: nat)
    ensures Sent(Bring(vs, b), s) == if s == LastOf(vs) then Sent(vs, s) + b else Sent(vs, s)
    ensures LastOf(Bring(vs, b)) == LastOf(vs) && LastShared(Bring(vs, b)) == LastShared(vs)
  {
    var now := Bring(vs, b);
    if |vs| > 0 {
      assert now[..|now| - 1] == vs[..|vs| - 1];
      if s == LastOf(vs) { Associate(Sent(vs[..|vs| - 1], s), vs[|vs| - 1].bytes, b); }
    } else {
      assert now[..0] == [] && [] + b == b;
    }
  }

  // ---------------------------------------------------------------- the state

  /** Plain and pens agree: every cursor is where its next byte belongs, and what was given is in the images. */
  ghost predicate CursorRight(p: Plan, n: nat, st: Plain, ph: Pens, c: nat)
    requires p.Valid() && st.Valid() && ph.Valid() && c < NPARTS
  {
    var t := if c < SECTCNT then c else c - PARTRELO + MAXSECT;
    c != SHARED && (0 < c < SHARED ==> c < n) ==> ph.next[c] == p.lo[t] + |st.given[t]|
  }

  ghost predicate OffsetRight(p: Plan, st: Plain, ph: Pens, sh: nat, strict: bool, t: nat)
    requires p.Valid() && st.Valid() && ph.Valid() && t < MAXSECT
  {
    t != sh && (strict || |st.given[t]| < p.len[t]) ==> ph.off[t] == p.lo[t] + |st.given[t]|
  }

  ghost predicate Images(p: Plan, st: Plain, ph: Pens)
    requires p.Valid() && st.Valid() && ph.Valid()
  {
    forall c :: 0 <= c < NPARTS ==> PartOk(ph.img[c], p, st.given, c)
  }

  /** n sections; sh is the shared section at whose end the cursor is. With strict, that of no other is ever met. */
  ghost predicate Tracks(p: Plan, n: nat, st: Plain, ph: Pens, sh: nat, strict: bool) {
    && p.Valid() && st.Valid() && ph.Valid() && n <= MAXSECT && Within(p, st.given)
    && (forall t :: n <= t < MAXSECT && t > 0 ==> p.len[t] == 0)
    && st.sect == ph.sect && SHARED <= sh < MAXSECT && (st.sect >= SHARED ==> sh == st.sect)
    && (forall c :: 0 <= c < NPARTS ==> CursorRight(p, n, st, ph, c))
    && (strict || sh < n || n <= SHARED)
    && (sh < n ==> ph.next[SHARED] == p.lo[sh] + |st.given[sh]|)
    && (forall t :: SHARED <= t < n ==> OffsetRight(p, st, ph, sh, strict, t))
    && Images(p, st, ph)
  }

  /** The bytes of a call go where they belong. */
  ghost predicate Own(p: Plan, st: Plain, ph: Pens, c: Call)
    requires p.Valid() && st.Valid() && ph.Valid()
  {
    |BytesOf(c)| > 0 ==>
        ph.next[CursorFor(ph.sect, c)] == p.lo[RegionFor(st.sect, c)] + |st.given[RegionFor(st.sect, c)]|
  }

  lemma ImagesGiven(p: Plan, st: Plain, ph: Pens, t: nat, w: seq<byte>)
    requires p.Valid() && st.Valid() && ph.Valid() && Images(p, st, ph) && t < NREGION
        && |st.given[t]| + |w| <= p.len[t]
    requires |w| > 0 ==> ph.next[CursorOf(t)] == p.lo[t] + |st.given[t]|
    ensures Images(p, st.Add(t, w), ph.Write(CursorOf(t), w))
  {
    var done, img := st.given[t := st.given[t] + w], ph.Write(CursorOf(t), w).img;
    forall c | 0 <= c < NPARTS ensures PartOk(img[c], p, done, c) {
      assert PartOk(ph.img[c], p, st.given, c);
      if c == CursorOf(t) {
        PartOkWrite(ph.img[c], p, st.given, t, ph.next[c], w);
      } else {
        PartOkElsewhere(ph.img[c], p, st.given, t, w, c);
      }
    }
  }

  lemma GiveOwn(p: Plan, n: nat, st: Plain, ph: Pens, sh: nat, strict: bool, c: Call)
    requires Tracks(p, n, st, ph, sh, strict) && Sized(c) && Within(p, st.Do(c).given)
    ensures Own(p, st, ph, c)
  {
    if !c.Sect? {
      var t, k := RegionFor(st.sect, c), CursorFor(st.sect, c);
      assert |st.Do(c).given[t]| <= p.len[t];
      assert CursorRight(p, n, st, ph, k);
    }
  }

  lemma GiveOther(p: Plan, n: nat, st: Plain, ph: Pens, sh: nat, strict: bool, t: nat, w: seq<byte>)
    requires Tracks(p, n, st, ph, sh, strict) && t < NREGION && |st.given[t]| + |w| <= p.len[t]
    requires CursorOf(t) != SHARED && (|w| > 0 ==> ph.next[CursorOf(t)] == p.lo[t] + |st.given[t]|)
    ensures Tracks(p, n, st.Add(t, w), ph.Write(CursorOf(t), w), sh, strict)
  {
    var st', ph' := st.Add(t, w), ph.Write(CursorOf(t), w);
    ImagesGiven(p, st, ph, t, w);
    forall c | 0 <= c < NPARTS ensures CursorRight(p, n, st', ph', c) { assert CursorRight(p, n, st, ph, c); }
    forall u | SHARED <= u < n ensures OffsetRight(p, st', ph', sh, strict, u) {
      assert OffsetRight(p, st, ph, sh, strict, u);
    }
  }

  lemma GiveShared(p: Plan, n: nat, st: Plain, ph: Pens, sh: nat, strict: bool, w: seq<byte>)
    requires Tracks(p, n, st, ph, sh, strict) && st.sect >= SHARED && |st.given[st.sect]| + |w| <= p.len[st.sect]
    ensures Tracks(p, n, st.Add(st.sect, w), ph.Write(SHARED, w).Noted(), sh, strict)
  {
    var st', ph' := st.Add(st.sect, w), ph.Write(SHARED, w).Noted();
    ImagesGiven(p, st, ph, st.sect, w);
    forall c | 0 <= c < NPARTS ensures CursorRight(p, n, st', ph', c) { assert CursorRight(p, n, st, ph, c); }
    forall u | SHARED <= u < n ensures OffsetRight(p, st', ph', sh, strict, u) {
      assert OffsetRight(p, st, ph, sh, strict, u);
    }
  }

  lemma GiveTracks(p: Plan, n: nat, st: Plain, ph: Pens, sh: nat, strict: bool, c: Call)
    requires Tracks(p, n, st, ph, sh, strict) && Sized(c) && !c.Sect? && Within(p, st.Do(c).given)
    ensures Tracks(p, n, st.Do(c), ph.Do(c), sh, strict)
  {
    var t := RegionFor(st.sect, c);
    assert |st.Do(c).given[t]| <= p.len[t];
    GiveOwn(p, n, st, ph, sh, strict, c);
    if CursorOf(t) == SHARED {
      GiveShared(p, n, st, ph, sh, strict, BytesOf(c));
    } else {
      GiveOther(p, n, st, ph, sh, strict, t, BytesOf(c));
    }
  }

  /** What a move needs: a section with room, or nothing unknown; and for an entry, that the ends meet. */
  predicate MayMove(p: Plan, st: Plain, sh: nat, strict: bool, s: nat)
    requires p.Valid() && st.Valid() && s < MAXSECT && sh < MAXSECT
  {
    s >= SHARED && s != st.sect ==>
      if st.sect >= SHARED then strict || |st.given[s]| < p.len[s]
      else s == sh || (!strict && |st.given[s]| < p.len[s] && p.lo[s] + |st.given[s]| == p.lo[sh] + |st.given[sh]|)
  }

  lemma MoveTracks(p: Plan, n: nat, st: Plain, ph: Pens, sh: nat, strict: bool, s: nat)
    requires Tracks(p, n, st, ph, sh, strict) && s < MAXSECT && MayMove(p, st, sh, strict, s)
    ensures Tracks(p, n, st.Do(Sect(s)), ph.Move(s), if s >= SHARED then s else sh, strict)
  {
    var st', ph', sh' := st.Do(Sect(s)), ph.Move(s), if s >= SHARED then s else sh;
    forall c | 0 <= c < NPARTS ensures CursorRight(p, n, st', ph', c) && PartOk(ph'.img[c], p, st'.given, c) {
      assert CursorRight(p, n, st, ph, c) && PartOk(ph.img[c], p, st.given, c);
    }
    if SHARED <= s < n { assert OffsetRight(p, st, ph, sh, strict, s); }
    forall u | SHARED <= u < n ensures OffsetRight(p, st', ph', sh', strict, u) {
      assert OffsetRight(p, st, ph, sh, strict, u);
      if u == sh && u != sh' && st.sect < SHARED { NoTwoEnds(p, st.given, u, s); }
    }
  }

  /** Two regions with room do not end at the same place. */
  lemma NoTwoEnds(p: Plan, given: seq<seq<byte>>, u: nat, s: nat)
    requires p.Valid() && |given| == NREGION && u < NREGION && s < NREGION && u != s
    requires |given[s]| < p.len[s] && p.lo[s] + |given[s]| == p.lo[u] + |given[u]|
    ensures |given[u]| >= p.len[u]
  {
    if u < s { RegionsApart(p, u, s); } else { RegionsApart(p, s, u); }
  }

  // ------------------------------------------------------------------ all calls

  ghost predicate OwnAt(p: Plan, st: Plain, ph: Pens, calls: seq<Call>, k: nat)
    requires p.Valid() && st.Valid() && ph.Valid() && AllSized(calls) && k < |calls|
  {
    Own(p, Given(st, calls[..k]), Penned(ph, calls[..k]), calls[k])
  }

  /** All bytes of all calls go where they belong. */
  ghost predicate AllOwn(p: Plan, st: Plain, ph: Pens, calls: seq<Call>)
    requires p.Valid() && st.Valid() && ph.Valid() && AllSized(calls)
  {
    forall k :: 0 <= k < |calls| ==> OwnAt(p, st, ph, calls, k)
  }

  lemma AllOwnLast(p: Plan, st: Plain, ph: Pens, init: seq<Call>, c: Call)
    requires p.Valid() && st.Valid() && ph.Valid() && AllSized(init) && Sized(c)
    ensures AllSized(init + [c])
    ensures AllOwn(p, st, ph, init + [c]) <==> AllOwn(p, st, ph, init) && Own(p, Given(st, init), Penned(ph, init), c)
  {
    var calls := init + [c];
    forall k | 0 <= k < |init| ensures OwnAt(p, st, ph, calls, k) <==> OwnAt(p, st, ph, init, k) {
      assert calls[..k] == init[..k];
    }
    assert calls[..|init|] == init;
    if AllOwn(p, st, ph, calls) {
      forall k | 0 <= k < |init| ensures OwnAt(p, st, ph, init, k) { assert OwnAt(p, st, ph, calls, k); }
      assert OwnAt(p, st, ph, calls, |init|);
    }
  }

  /** The journey tells what the sections have been given. */
  lemma {:induction false} SentIsGiven(st: Plain, calls: seq<Call>, s: nat)
    requires st.Valid() && AllSized(calls) && s < MAXSECT && st.sect == 0
    ensures Given(st, calls).sect == LastOf(Journey(calls))
    ensures Given(st, calls).given[s] == st.given[s] + Sent(Journey(calls), s)
    decreases |calls|
  {
    if |calls| == 0 {
      assert st.given[s] + [] == st.given[s];
    } else {
      var init, c := calls[..|calls| - 1], calls[|calls| - 1];
      SentIsGiven(st, init, s);
      match c
      case Sect(u) => SentEnter(Journey(init), u, s);
      case Emit(b) =>
        SentBring(Journey(init), b, s);
        Associate(st.given[s], Sent(Journey(init), s), b);
      case _ =>
    }
  }

  /** There is room for what visit j to a shared section brings. */
  predicate RoomAt(p: Plan, vs: seq<Visit>, j: nat)
    requires j < |vs|
  {
    vs[j].sect >= SHARED ==> vs[j].sect < |p.len| && |Sent(vs[..j], vs[j].sect)| < p.len[vs[j].sect]
  }

  /** Every visit has room, and all but perhaps the last bring something. */
  predicate Roomy(p: Plan, vs: seq<Visit>) {
    (forall j :: 0 <= j < |vs| ==> RoomAt(p, vs, j)) && forall j :: 0 <= j < |vs| - 1 ==> Brings(vs, j)
  }

  lemma RoomyBefore(p: Plan, vs: seq<Visit>, c: Call)
    requires Roomy(p, Visited(vs, c))
    ensures Roomy(p, vs)
  {
    var now := Visited(vs, c);
    VisitedGoesOn(vs, c);
    forall j | 0 <= j < |vs| ensures RoomAt(p, vs, j) {
      assert RoomAt(p, now, j);
      assert vs[..j] == now[..j];
    }
    forall j | 0 <= j < |vs| - 1 ensures Brings(vs, j) { assert Brings(now, j); }
  }

  /** Nothing has been sent to the shared sections, and all is in its place. */
  ghost predicate Fresh(p: Plan, n: nat, st: Plain, ph: Pens, strict: bool) {
    Tracks(p, n, st, ph, SHARED, strict) && st.sect == 0 && forall t :: SHARED <= t < MAXSECT ==> st.given[t] == []
  }

  /** A shared section has been entered where the cursor is not, and nothing has been written there. */
  ghost predicate Astray(p: Plan, st: Plain, ph: Pens, vs: seq<Visit>)
    requires p.Valid() && st.Valid() && ph.Valid()
  {
    && |vs| > 0 && !Brings(vs, |vs| - 1) && st.sect == ph.sect == LastOf(vs) >= SHARED
    && ph.next[SHARED] != p.lo[st.sect] + |st.given[st.sect]|
  }

  /** The state is what the visits have made of it. */
  ghost predicate Linked(st: Plain, vs: seq<Visit>) {
    st.Valid() && st.sect == LastOf(vs) && forall t :: SHARED <= t < MAXSECT ==> SentTo(st, vs, t)
  }

  predicate SentTo(st: Plain, vs: seq<Visit>, t: nat)
    requires st.Valid() && t < MAXSECT
  {
    st.given[t] == Sent(vs, t)
  }

  /** What is known after these visits: all fits, or all did until now, or something went wrong. */
  ghost predicate Known(p: Plan, n: nat, own: bool, st: Plain, ph: Pens, vs: seq<Visit>)
    requires p.Valid() && st.Valid() && ph.Valid()
  {
    if AllFit(p.lo, vs) then own && Tracks(p, n, st, ph, LastShared(vs), false) else !own || Astray(p, st, ph, vs)
  }

  /** To another section. */
  lemma MovesOn(p: Plan, n: nat, st: Plain, ph: Pens, vs: seq<Visit>, s: nat)
    requires Tracks(p, n, st, ph, LastShared(vs), false) && Linked(st, vs) && s < MAXSECT
        && Enter(vs, s) == vs + [Visit(s, [])]
    requires RoomAt(p, Enter(vs, s), |vs|)
    ensures EntryFits(p.lo, Enter(vs, s), |vs|) ==>
        Tracks(p, n, st.Do(Sect(s)), ph.Move(s), LastShared(Enter(vs, s)), false)
    ensures !EntryFits(p.lo, Enter(vs, s), |vs|) ==> Astray(p, st.Do(Sect(s)), ph.Move(s), Enter(vs, s))
  {
    var now, sh := Enter(vs, s), LastShared(vs);
    SentEnter(vs, s, s);
    assert now[..|vs|] == vs;
    assert SentTo(st, vs, sh);
    if s >= SHARED { assert SentTo(st, vs, s); }
    if EntryFits(p.lo, now, |vs|) { MoveTracks(p, n, st, ph, sh, false, s); }
  }

  lemma KnownMove(p: Plan, n: nat, own: bool, st: Plain, ph: Pens, vs: seq<Visit>, s: nat)
    requires p.Valid() && ph.Valid() && Linked(st, vs) && s < MAXSECT && Known(p, n, own, st, ph, vs)
        && ph.sect == st.sect
    requires Roomy(p, Enter(vs, s))
    ensures Known(p, n, own, st.Do(Sect(s)), ph.Move(s), Enter(vs, s))
  {
    if Enter(vs, s) != vs {
      FitsOneMore(p.lo, vs, Visit(s, []));
      assert RoomAt(p, Enter(vs, s), |vs|);
      if AllFit(p.lo, vs) {
        MovesOn(p, n, st, ph, vs, s);
      } else if |vs| > 0 {
        assert Brings(Enter(vs, s), |vs| - 1);
      }
    }
  }

  lemma KnownEmit(p: Plan, n: nat, own: bool, st: Plain, ph: Pens, vs: seq<Visit>, b: seq<byte>)
    requires p.Valid() && ph.Valid() && Linked(st, vs) && Known(p, n, own, st, ph, vs) && ph.sect == st.sect
    requires Within(p, st.Do(Emit(b)).given)
    ensures Known(p, n, own && Own(p, st, ph, Emit(b)), st.Do(Emit(b)), ph.Do(Emit(b)), Bring(vs, b))
  {
    SentBring(vs, b, 0);
    if |vs| > 0 { FitsMore(p.lo, vs, b); }
    if AllFit(p.lo, vs) {
      GiveOwn(p, n, st, ph, LastShared(vs), false, Emit(b));
      GiveTracks(p, n, st, ph, LastShared(vs), false, Emit(b));
    } else if own {
      AstrayEmit(p, st, ph, vs, b);
    }
  }

  lemma AstrayEmit(p: Plan, st: Plain, ph: Pens, vs: seq<Visit>, b: seq<byte>)
    requires p.Valid() && st.Valid() && ph.Valid() && Astray(p, st, ph, vs)
    ensures if |b| > 0 then !Own(p, st, ph, Emit(b)) else Astray(p, st.Do(Emit(b)), ph.Do(Emit(b)), Bring(vs, b))
  {
  }

  lemma KnownOther(p: Plan, n: nat, own: bool, st: Plain, ph: Pens, vs: seq<Visit>, c: Call)
    requires p.Valid() && ph.Valid() && Linked(st, vs) && Known(p, n, own, st, ph, vs)
    requires Sized(c) && !c.Sect? && !c.Emit? && Within(p, st.Do(c).given)
    ensures Known(p, n, own && Own(p, st, ph, c), st.Do(c), ph.Do(c), vs)
  {
    if AllFit(p.lo, vs) {
      GiveOwn(p, n, st, ph, LastShared(vs), false, c);
      GiveTracks(p, n, st, ph, LastShared(vs), false, c);
    }
  }

  lemma LinkedStep(st: Plain, vs: seq<Visit>, c: Call)
    requires Linked(st, vs) && Sized(c)
    ensures Linked(st.Do(c), Visited(vs, c))
  {
    forall t | SHARED <= t < MAXSECT ensures SentTo(st.Do(c), Visited(vs, c), t) {
      assert SentTo(st, vs, t);
      if c.Sect? { SentEnter(vs, c.s, t); }
      if c.Emit? { SentBring(vs, c.b, t); }
    }
    if c.Emit? { SentBring(vs, c.b, 0); }
  }

  lemma {:induction false} SectsAgree(st: Plain, ph: Pens, calls: seq<Call>)
    requires st.Valid() && ph.Valid() && AllSized(calls) && st.sect == ph.sect
    ensures Given(st, calls).sect == Penned(ph, calls).sect
    decreases |calls|
  {
    if |calls| > 0 { SectsAgree(st, ph, calls[..|calls| - 1]); }
  }

  lemma {:induction false} AlwaysKnown(p: Plan, n: nat, st0: Plain, ph0: Pens, calls: seq<Call>)
    requires Fresh(p, n, st0, ph0, false) && AllSized(calls)
    requires Within(p, Given(st0, calls).given) && Roomy(p, Journey(calls))
    ensures Known(p, n, AllOwn(p, st0, ph0, calls), Given(st0, calls), Penned(ph0, calls), Journey(calls))
    ensures Linked(Given(st0, calls), Journey(calls))
    decreases |calls|
  {
    if |calls| > 0 {
      var init, c := calls[..|calls| - 1], calls[|calls| - 1];
      assert calls == init + [c];
      var st, ph, vs := Given(st0, init), Penned(ph0, init), Journey(init);
      RoomyBefore(p, vs, c);
      GivenGrows(st0, calls, |init|);
      WithinLess(p, st.given, Given(st0, calls).given);
      AlwaysKnown(p, n, st0, ph0, init);
      AllOwnLast(p, st0, ph0, init, c);
      SectsAgree(st0, ph0, init);
      LinkedStep(st, vs, c);
      KnownStep(p, n, AllOwn(p, st0, ph0, init), st, ph, vs, c);
    }
  }

  lemma KnownStep(p: Plan, n: nat, own: bool, st: Plain, ph: Pens, vs: seq<Visit>, c: Call)
    requires p.Valid() && ph.Valid() && Linked(st, vs) && Known(p, n, own, st, ph, vs) && ph.sect == st.sect
    requires Sized(c) && Roomy(p, Visited(vs, c)) && Within(p, st.Do(c).given)
    ensures Known(p, n, own && Own(p, st, ph, c), st.Do(c), ph.Do(c), Visited(vs, c))
  {
    if c.Sect? {
      KnownMove(p, n, own, st, ph, vs, c.s);
    } else if c.Emit? {
      KnownEmit(p, n, own, st, ph, vs, c.b);
    } else {
      KnownOther(p, n, own, st, ph, vs, c);
    }
  }

  /**
    If every visit brings something: all bytes go where they belong exactly if at
    each entry the cursor is at the end of the section that is entered.
   */
  lemma OwnExactly(p: Plan, n: nat, st0: Plain, ph0: Pens, calls: seq<Call>)
    requires Fresh(p, n, st0, ph0, false) && AllSized(calls) && Within(p, Given(st0, calls).given)
        && AllBring(Journey(calls))
    ensures AllOwn(p, st0, ph0, calls) <==> AllFit(p.lo, Journey(calls))
    ensures AllFit(p.lo, Journey(calls)) ==>
      Tracks(p, n, Given(st0, calls), Penned(ph0, calls), LastShared(Journey(calls)), false)
  {
    BringsRoom(p, st0, calls);
    AlwaysKnown(p, n, st0, ph0, calls);
    var vs := Journey(calls);
    if |vs| > 0 { assert Brings(vs, |vs| - 1); }
  }

  lemma {:induction false} SentPrefix(vs: seq<Visit>, j: nat)
    requires j < |vs|
    ensures |Sent(vs[..j], vs[j].sect)| + |vs[j].bytes| <= |Sent(vs, vs[j].sect)|
    decreases |vs|
  {
    var init := vs[..|vs| - 1];
    if j < |init| {
      SentPrefix(init, j);
      assert init[..j] == vs[..j];
    }
  }

  lemma BringsRoom(p: Plan, st0: Plain, calls: seq<Call>)
    requires st0.Valid() && st0.sect == 0 && AllSized(calls) && Within(p, Given(st0, calls).given)
        && AllBring(Journey(calls))
    ensures Roomy(p, Journey(calls))
  {
    var vs := Journey(calls);
    forall j | 0 <= j < |vs| ensures RoomAt(p, vs, j) && Brings(vs, j) {
      assert Brings(vs, j);
      SentPrefix(vs, j);
      JourneySized(calls, j);
      SentIsGiven(st0, calls, vs[j].sect);
    }
  }

  lemma {:induction false} JourneySized(calls: seq<Call>, j: nat)
    requires AllSized(calls) && j < |Journey(calls)|
    ensures Journey(calls)[j].sect < MAXSECT
    decreases |calls|
  {
    var init := calls[..|calls| - 1];
    if j < |Journey(init)| { JourneySized(init, j); }
    assert Sized(calls[|calls| - 1]);
  }

  /** Entered only where it was left, the cursor is always right, even if visits bring nothing. */
  lemma {:induction false} SameIsOwn(p: Plan, n: nat, st0: Plain, ph0: Pens, calls: seq<Call>)
    requires Fresh(p, n, st0, ph0, true) && AllSized(calls)
    requires Within(p, Given(st0, calls).given) && AllSame(Journey(calls))
    ensures AllOwn(p, st0, ph0, calls)
        && Tracks(p, n, Given(st0, calls), Penned(ph0, calls), LastShared(Journey(calls)), true)
    decreases |calls|
  {
    if |calls| > 0 {
      var init, c := calls[..|calls| - 1], calls[|calls| - 1];
      assert calls == init + [c];
      VisitedGoesOn(Journey(init), c);
      SameGoesOn(Journey(init), Journey(calls));
      GivenGrows(st0, calls, |init|);
      WithinLess(p, Given(st0, init).given, Given(st0, calls).given);
      SameIsOwn(p, n, st0, ph0, init);
      AllOwnLast(p, st0, ph0, init, c);
      SentIsGiven(st0, init, 0);
      SameStep(p, n, Given(st0, init), Penned(ph0, init), Journey(init), c);
    }
  }

  lemma SameStep(p: Plan, n: nat, st: Plain, ph: Pens, vs: seq<Visit>, c: Call)
    requires Tracks(p, n, st, ph, LastShared(vs), true) && st.sect == LastOf(vs) && Sized(c)
    requires AllSame(Visited(vs, c)) && Within(p, st.Do(c).given)
    ensures Own(p, st, ph, c) && Tracks(p, n, st.Do(c), ph.Do(c), LastShared(Visited(vs, c)), true)
  {
    GiveOwn(p, n, st, ph, LastShared(vs), true, c);
    if c.Sect? {
      var now := Enter(vs, c.s);
      SentEnter(vs, c.s, 0);
      if now != vs {
        assert EntrySame(now, |vs|);
        assert now[..|vs|] == vs;
      }
      MoveTracks(p, n, st, ph, LastShared(vs), true, c.s);
    } else {
      if c.Emit? { SentBring(vs, c.b, 0); }
      GiveTracks(p, n, st, ph, LastShared(vs), true, c);
    }
  }

  // --------------------------------------------------------------- the whole file

  /** The plan has the sections and tables at these offsets, and no section that is not there. */
  ghost predicate Fits(p: Plan, foff: seq<nat>, relo: nat, name: nat, char_: nat) {
    && p.Valid() && |foff| <= MAXSECT
    && p.lo[0] == 0 && p.lo[MAXSECT] == relo && p.lo[MAXSECT + 1] == name && p.lo[MAXSECT + 2] == char_
    && forall t :: 1 <= t < MAXSECT ==> if t < |foff| then foff[t] == p.lo[t] else p.len[t] == 0
  }

  /** Before the first call. */
  lemma BegunFresh(p: Plan, header: seq<byte>, table: seq<seq<byte>>, foff: seq<nat>, relo: nat, name: nat, char_: nat,
      strict: bool)
    requires Fits(p, foff, relo, name, char_) && |header| + |Concat(table)| <= p.len[0]
    ensures Fresh(p, |foff|, Plain(0, Nothing()[0 := header + Concat(table)]),
        Begun(header, table, foff, relo, name, char_), strict)
  {
    var n, front := |foff|, header + Concat(table);
    var st, ph := Plain(0, Nothing()), Placed(foff, relo, name, char_);
    assert Within(p, st.given);
    forall c | 0 <= c < NPARTS ensures CursorRight(p, n, st, ph, c) && PartOk(ph.img[c], p, st.given, c) {
      forall t | 0 <= t < NREGION && CursorOf(t) == c ensures RegionOk(ph.img[c], p, st.given, t) {}
    }
    forall t | SHARED <= t < n ensures OffsetRight(p, st, ph, SHARED, strict, t) {}
    GiveOther(p, n, st, ph, SHARED, strict, 0, header);
    GiveOther(p, n, st.Add(0, header), ph.Write(0, header), SHARED, strict, 0, Concat(table));
    Associate([], header, Concat(table));
    assert [] + header + Concat(table) == front;
    assert st.Add(0, header).Add(0, Concat(table)) == Plain(0, Nothing()[0 := front]);
  }

  /** Calls that go where they belong stay within the parts. */
  lemma OwnStay(p: Plan, st0: Plain, ph0: Pens, calls: seq<Call>)
    requires p.Valid() && PartsOf(p).Valid() && st0.Valid() && ph0.Valid() && AllSized(calls) && st0.sect == ph0.sect
    requires AllOwn(p, st0, ph0, calls) && Within(p, Given(st0, calls).given)
    ensures AllStay(PartsOf(p), ph0, calls)
  {
    forall k | 0 <= k < |calls| ensures StaysAt(PartsOf(p), ph0, calls, k) {
      assert OwnAt(p, st0, ph0, calls, k);
      var st, c := Given(st0, calls[..k]), calls[k];
      SectsAgree(st0, ph0, calls[..k]);
      var t := RegionFor(st.sect, c);
      RegionInPart(p, t);
      assert calls[..k + 1][..k] == calls[..k];
      GivenGrows(st0, calls, k + 1);
      WithinLess(p, Given(st0, calls[..k + 1]).given, Given(st0, calls).given);
      if !c.Sect? { assert |Given(st0, calls[..k + 1]).given[t]| <= p.len[t]; }
    }
  }

  /** If all goes where it belongs, the file has in every region exactly what was given to it. */
  method WritePlaced(header: seq<byte>, table: seq<seq<byte>>, foff: seq<nat>, relo: nat, name: nat, char_: nat,
      calls: seq<Call>, ghost p: Plan, ghost strict: bool) returns (f: seq<byte>)
    requires Fits(p, foff, relo, name, char_) && AllSized(calls)
    requires (forall i :: 0 <= i < |table| ==> |table[i]| == 20) && |header| + |Concat(table)| <= p.len[0]
    requires Within(p, Given(Plain(0, Nothing()[0 := header + Concat(table)]), calls).given)
    requires if strict then AllSame(Journey(calls)) else AllBring(Journey(calls)) && AllFit(p.lo, Journey(calls))
    ensures FileOk(f, p, Given(Plain(0, Nothing()[0 := header + Concat(table)]), calls).given)
  {
    ghost var st0, ph0 := Plain(0, Nothing()[0 := header + Concat(table)]),
        Begun(header, table, foff, relo, name, char_);
    PartsValid(p);
    RegionsApart(p, 0, 1);
    BegunFresh(p, header, table, foff, relo, name, char_, strict);
    if strict { SameIsOwn(p, |foff|, st0, ph0, calls); } else { OwnExactly(p, |foff|, st0, ph0, calls); }
    OwnStay(p, st0, ph0, calls);
    f := WriteObject(header, table, foff, relo, name, char_, calls, PartsOf(p));
    ShownIsOk(f, p, Penned(ph0, calls).img, Given(st0, calls).given);
  }
}
