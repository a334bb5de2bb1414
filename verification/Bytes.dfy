/** What all modules share: bytes, options, a limit of the object format. */
module Bytes {

  newtype byte = b: int | 0 <= b < 256

  datatype Option<T> = None | Some(value: T)

  const MAXSECT := 64

  function Zeros(n: nat): (z: seq<byte>)
    ensures |z| == n && forall i :: 0 <= i < n ==> z[i] == 0
  {
    seq(n, _ => 0)
  }

  lemma Associate<T>(a: seq<T>, b: seq<T>, c: seq<T>)
    ensures (a + b) + c == a + (b + c)
  {
  }

  lemma PlusNothing<T>(a: seq<T>)
    ensures a + [] == a
  {
  }

  lemma WithLast<T>(init: seq<T>, x: T)
    ensures |init + [x]| == |init| + 1 && (init + [x])[..|init + [x]| - 1] == init
        && (init + [x])[|init + [x]| - 1] == x
  {
  }

  lemma UpTo<T>(s: seq<T>, i: nat)
    requires i < |s|
    ensures s[..i + 1] == s[..i] + [s[i]] && s[..0] == [] && s[..|s|] == s
  {
  }

  /** Are the bytes w in f at this place? */
  ghost predicate Holds(f: seq<byte>, at: nat, w: seq<byte>) {
    forall i :: 0 <= i < |w| ==> HoldsAt(f, at, w, i)
  }

  ghost predicate HoldsAt(f: seq<byte>, at: nat, w: seq<byte>, i: nat)
    requires i < |w|
  {
    at + i < |f| && f[at + i] == w[i]
  }

  lemma HoldsWithin(m: seq<byte>, at: nat, b: seq<byte>, i: nat, c: seq<byte>)
    requires Holds(m, at, b) && Holds(b, i, c)
    ensures Holds(m, at + i, c)
  {
    var from := at + i;
    forall j | 0 <= j < |c| ensures HoldsAt(m, from, c, j) { assert HoldsAt(b, i, c, j) && HoldsAt(m, at, b, i + j); }
  }

  lemma SamePieces<T>(a: seq<T>, b: seq<T>, a': seq<T>, b': seq<T>)
    requires |a| == |a'|
    ensures a + b == a' + b' <==> a == a' && b == b'
  {
    if a + b == a' + b' {
      assert a == (a + b)[..|a|] && a' == (a' + b')[..|a'|];
      assert b == (a + b)[|a|..] && b' == (a' + b')[|a'|..];
    }
  }

  lemma SameEnd<T>(a: seq<T>, x: T, b: seq<T>, y: T)
    requires |a| == |b|
    ensures a + [x] == b + [y] <==> a == b && x == y
  {
    SamePieces(a, [x], b, [y]);
  }
}
