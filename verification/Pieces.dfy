/**
  The bytes of the sections, gathered module by module with zeros in the gaps: as
  they are read when all is in core, or as they are written when it is not.
 */
module Pieces {
  import opened Bytes
  import opened LinkModel
  import opened LinkAppend
  import opened Strategies

  /** Section s: raw, or relocated with what the second pass knows. */
  function Gathered(env: Option<Env>, ms: seq<Module>, s: nat): seq<byte> {
    if env.None? then Raw(ms, s) else Content(env.value, ms, s)
  }

  /** What module m adds to it. */
  function Added(env: Option<Env>, ms: seq<Module>, m: Module, s: nat): (d: seq<byte>)
    ensures |d| == |DataOf(m, s)|
  {
    if env.None? then DataOf(m, s) else PatchedData(env.value, m, Origins(ms), s)
  }

  /** What there is of section s and the zeros owed to it. */
  ghost predicate PieceOk(env: Option<Env>, ms: seq<Module>, piece: seq<byte>, zero: nat, s: nat) {
    piece == Gathered(env, ms, s) && |piece| + zero == Origin(ms, s)
  }

  ghost predicate AllHold(env: Option<Env>, ms: seq<Module>, pieces: seq<seq<byte>>, zeros: seq<nat>) {
    |pieces| == |zeros| == MAXSECT && forall s :: 0 <= s < MAXSECT ==> PieceOk(env, ms, pieces[s], zeros[s], s)
  }

  /** The same when the first n sections of m have been added. */
  ghost predicate HoldUpTo(env: Option<Env>, ms: seq<Module>, m: Module, n: nat, pieces: seq<seq<byte>>,
      zeros: seq<nat>) {
    && |pieces| == |zeros| == MAXSECT
    && (forall s :: 0 <= s < n <= MAXSECT ==> PieceOk(env, ms + [m], pieces[s], zeros[s], s))
    && forall s :: n <= s < MAXSECT ==> PieceOk(env, ms, pieces[s], zeros[s], s)
  }

  /** A section has been added. */
  ghost predicate PutAt(env: Option<Env>, ms: seq<Module>, m: Module, s: nat, piece: seq<byte>, zero: nat,
      piece': seq<byte>, zero': nat) {
    && piece' == Append(piece, |piece| + zero, Added(env, ms, m, s))
    && |piece'| + zero' == |piece| + zero + SizeOf(m, s)
  }

  lemma {:induction false} HoldsNext(env: Option<Env>, ms: seq<Module>, m: Module, piece: seq<byte>, zero: nat,
      piece': seq<byte>, zero': nat, s: nat)
    requires PieceOk(env, ms, piece, zero, s) && PutAt(env, ms, m, s, piece, zero, piece', zero')
    ensures PieceOk(env, ms + [m], piece', zero', s)
  {
    if env.None? { RawLast(ms, m, s); } else { ContentLast(env.value, ms + [m], ms, m, s); }
    WithLast(ms, m);
  }

  lemma {:induction false} HoldUpToNext(env: Option<Env>, ms: seq<Module>, m: Module, n: nat, pieces: seq<seq<byte>>,
      zeros: seq<nat>, piece': seq<byte>, zero': nat)
    requires n < MAXSECT && HoldUpTo(env, ms, m, n, pieces, zeros)
    requires PutAt(env, ms, m, n, pieces[n], zeros[n], piece', zero')
    ensures HoldUpTo(env, ms, m, n + 1, pieces[n := piece'], zeros[n := zero'])
  {
    HoldsNext(env, ms, m, pieces[n], zeros[n], piece', zero', n);
  }

  lemma {:induction false} HoldUpToAll(env: Option<Env>, ms: seq<Module>, m: Module, pieces: seq<seq<byte>>,
      zeros: seq<nat>)
    requires |m.sects| <= MAXSECT && HoldUpTo(env, ms, m, |m.sects|, pieces, zeros)
    ensures AllHold(env, ms + [m], pieces, zeros)
  {
    forall s | |m.sects| <= s < MAXSECT ensures PieceOk(env, ms + [m], pieces[s], zeros[s], s) {
      assert |Added(env, ms, m, s)| == 0;
      HoldsNext(env, ms, m, pieces[s], zeros[s], pieces[s], zeros[s], s);
    }
  }
}
