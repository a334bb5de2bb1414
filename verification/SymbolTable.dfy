/**
  The chained hash table of the linker (Ack-5.5/ld/sym.c, and getexternal in
  extract.c) over pieces that are addressed by offset: it represents the table
  of global names exactly.
 */
module SymbolTable {
  import opened Names

  const NHASH := 307
  const BADOFF := -1

  /** sy_name and sy_next. */
  datatype Symb = Symb(name: nat, next: int)

  /** The source's hash, in an unsigned short. */
  /** The value of a character, where char has a sign or where it has none. */
  function CharValue(signed: bool, c: char): int {
    var v := c as int % 256;
    if signed && v >= 128 then v - 256 else v
  }

  function HashSum(signed: bool, s: string): nat {
    if |s| == 0 then 0 else (4 * HashSum(signed, s[..|s| - 1]) + CharValue(signed, s[|s| - 1])) % 0x1_0000
  }

  function Hash(signed: bool, s: string): (h: nat)
    ensures h < NHASH
  {
    HashSum(signed, s) % NHASH
  }

  method ComputeHash(signed: bool, s: string) returns (h: nat)
    ensures h == Hash(signed, s)
  {
    h := 0;
    var i := 0;
    while i < |s|
      invariant 0 <= i <= |s| && h == HashSum(signed, s[..i])
    {
      assert s[..i + 1][..i] == s[..i];
      h := (h * 4) % 0x1_0000;
      AddLater(HashSum(signed, s[..i]), CharValue(signed, s[i]));
      h := (h + CharValue(signed, s[i])) % 0x1_0000;
      i := i + 1;
    }
    assert s[..i] == s;
    h := h % NHASH;
  }

  lemma AddLater(a: nat, c: int)
    ensures ((a * 4) % 0x1_0000 + c) % 0x1_0000 == (4 * a + c) % 0x1_0000
  {
  }

  // ------------------------------------------------------------------ strings

  ghost predicate NoNul(s: string) {
    forall i :: 0 <= i < |s| ==> s[i] != '\0'
  }

  /** The piece of characters has s at this offset, with its closing nul. */
  ghost predicate StringAt(gchr: string, off: nat, s: string) {
    && off + |s| < |gchr| && gchr[off + |s|] == '\0' && NoNul(s)
    && forall i :: 0 <= i < |s| ==> CharAt(gchr, off, s, i)
  }

  ghost predicate CharAt(gchr: string, off: nat, s: string, i: nat)
    requires i < |s|
  {
    off + i < |gchr| && gchr[off + i] == s[i]
  }

  /** The comparison in searchname: t is the string that is looked for. */
  method SameString(t: string, gchr: string, off: nat, ghost s: string) returns (same: bool)
    requires NoNul(t) && StringAt(gchr, off, s)
    ensures same <==> s == t
  {
    var i := 0;
    while i < |t| && t[i] == gchr[off + i]
      invariant 0 <= i <= |t| && i <= |s|
      invariant forall j :: 0 <= j < i ==> t[j] == s[j]
    {
      if i < |s| { assert CharAt(gchr, off, s, i); }
      i := i + 1;
    }
    same := i == |t| && gchr[off + i] == '\0';
    if i < |s| { assert CharAt(gchr, off, s, i); }
  }

  // ------------------------------------------------------------------- chains

  ghost predicate NextOk(symb: seq<Symb>) {
    forall k :: 0 <= k < |symb| ==> BADOFF <= symb[k].next < k
  }

  /** Is symbol k on the chain from `start`? */
  ghost predicate OnChain(symb: seq<Symb>, start: int, k: nat)
    requires NextOk(symb) && start < |symb|
    decreases start + 1
  {
    0 <= start && (start == k || OnChain(symb, symb[start].next, k))
  }

  lemma {:induction false} OnLongerChain(symb: seq<Symb>, s: Symb, start: int, k: nat)
    requires NextOk(symb) && NextOk(symb + [s]) && start < |symb| && OnChain(symb, start, k)
    ensures OnChain(symb + [s], start, k)
    decreases start + 1
  {
    if start != k { OnLongerChain(symb, s, symb[start].next, k); }
  }

  ghost predicate SymbolOk(signed: bool, glob: seq<Name>, foff: seq<nat>, gchr: string, symb: seq<Symb>,
      heads: seq<int>, k: nat)
    requires |symb| == |glob| == |foff| && |heads| == NHASH && k < |glob| && NextOk(symb) && HeadsOk(heads, |glob|)
  {
    && symb[k].name == k
    && StringAt(gchr, foff[k], glob[k].str)
    && OnChain(symb, heads[Hash(signed, glob[k].str)], k)
  }

  ghost predicate HeadsOk(heads: seq<int>, n: nat) {
    |heads| == NHASH && forall h :: 0 <= h < NHASH ==> BADOFF <= heads[h] < n
  }

  ghost predicate Represents(signed: bool, glob: seq<Name>, foff: seq<nat>, gchr: string, symb: seq<Symb>,
      heads: seq<int>) {
    && |symb| == |glob| == |foff| && Unique(glob) && NextOk(symb) && HeadsOk(heads, |glob|)
    && forall k :: 0 <= k < |glob| ==> SymbolOk(signed, glob, foff, gchr, symb, heads, k)
  }

  lemma StringKept(gchr: string, more: string, off: nat, s: string)
    requires StringAt(gchr, off, s)
    ensures StringAt(gchr + more, off, s)
  {
    forall i | 0 <= i < |s| ensures CharAt(gchr + more, off, s, i) { assert CharAt(gchr, off, s, i); }
  }

  lemma StringSaved(gchr: string, s: string)
    requires NoNul(s)
    ensures StringAt(gchr + s + ['\0'], |gchr|, s)
  {
    forall i | 0 <= i < |s| ensures CharAt(gchr + s + ['\0'], |gchr|, s, i) {}
  }

  lemma EnterRepresents(signed: bool, glob: seq<Name>, foff: seq<nat>, gchr: string, symb: seq<Symb>, heads: seq<int>,
      n: Name)
    requires Represents(signed, glob, foff, gchr, symb, heads) && NoNul(n.str) && IndexOf(glob, n.str) == |glob|
    ensures Represents(signed, glob + [n], foff + [|gchr|], gchr + n.str + ['\0'], symb
        + [Symb(|glob|, heads[Hash(signed, n.str)])], heads[Hash(signed, n.str) := |glob|])
  {
    var g, f, c := glob + [n], foff + [|gchr|], gchr + n.str + ['\0'];
    var s, h := symb + [Symb(|glob|, heads[Hash(signed, n.str)])], heads[Hash(signed, n.str) := |glob|];
    forall k | 0 <= k < |g| ensures SymbolOk(signed, g, f, c, s, h, k) {
      if k < |glob| {
        assert SymbolOk(signed, glob, foff, gchr, symb, heads, k);
        StringKept(gchr, n.str + ['\0'], foff[k], glob[k].str);
        assert gchr + (n.str + ['\0']) == c;
        OnLongerChain(symb, s[|glob|], heads[Hash(signed, glob[k].str)], k);
      } else {
        StringSaved(gchr, n.str);
      }
    }
  }

  lemma ChangeRepresents(signed: bool, glob: seq<Name>, foff: seq<nat>, gchr: string, symb: seq<Symb>,
      heads: seq<int>, i: nat, n: Name)
    requires Represents(signed, glob, foff, gchr, symb, heads) && i < |glob| && n.str == glob[i].str
    ensures Represents(signed, glob[i := n], foff, gchr, symb, heads)
  {
    var g := glob[i := n];
    forall k | 0 <= k < |g| ensures SymbolOk(signed, g, foff, gchr, symb, heads, k) {
      assert SymbolOk(signed, glob, foff, gchr, symb, heads, k);
    }
  }

  // -------------------------------------------------------------------- table

  class Table {
    const hashtable: array<int>
    /** Does char have a sign? */
    const signed: bool
    var symb: seq<Symb>
    var glob: seq<Name>
    var foff: seq<nat>
    var gchr: string

    ghost predicate Valid()
      reads this, hashtable
    {
      hashtable.Length == NHASH && Represents(signed, glob, foff, gchr, symb, hashtable[..])
    }

    /** The source's init_symboltable. */
    constructor (signed: bool)
      ensures Valid() && glob == [] && fresh(hashtable)
    {
      this.signed := signed;
      hashtable := new int[NHASH](_ => BADOFF);
      symb, glob, foff, gchr := [], [], [], ['\0'];
    }

    /** The source's searchname: the index of the name, or BADOFF. */
    method SearchName(str: string) returns (i: int)
      requires Valid() && NoNul(str)
      ensures BADOFF <= i < |glob|
      ensures if i == BADOFF then IndexOf(glob, str) == |glob| else IndexOf(glob, str) == i
    {
      ghost var k := IndexOf(glob, str);
      var h := ComputeHash(signed, str);
      i := hashtable[h];
      if k < |glob| { assert SymbolOk(signed, glob, foff, gchr, symb, hashtable[..], k); }
      while i != BADOFF
        invariant BADOFF <= i < |symb|
        invariant k < |glob| ==> OnChain(symb, i, k)
        decreases i
      {
        assert SymbolOk(signed, glob, foff, gchr, symb, hashtable[..], i);
        var name := symb[i].name;
        var same := SameString(str, gchr, foff[name], glob[name].str);
        if same {
          FindAt(glob, i);
          return;
        }
        i := symb[i].next;
      }
    }

    /** The source's entername. */
    method EnterName(n: Name)
      requires Valid() && NoNul(n.str) && IndexOf(glob, n.str) == |glob|
      modifies this, hashtable
      ensures Valid() && glob == old(glob) + [n]
    {
      EnterRepresents(signed, glob, foff, gchr, symb, hashtable[..], n);
      var h := ComputeHash(signed, n.str);
      ghost var heads := hashtable[..];
      foff := foff + [|gchr|];
      gchr := gchr + n.str + ['\0'];
      symb := symb + [Symb(|glob|, hashtable[h])];
      hashtable[h] := |glob|;
      glob := glob + [n];
      assert hashtable[..] == heads[h := |old(glob)|];
    }

    /** The source's getexternal: one more mention of an external name. */
    method GetExternal(n: Name)
      requires Valid() && NoNul(n.str)
      modifies this, hashtable
      ensures Valid() && glob == Enter(old(glob), n)
    {
      var i := SearchName(n.str);
      if i == BADOFF {
        EnterName(n);
      } else if !IsUndefined(n) {
        ChangeRepresents(signed, glob, foff, gchr, symb, hashtable[..], i, Combine(glob[i], n));
        if IsUndefined(glob[i]) {
          glob := glob[i := Transfer(n, glob[i])];
        } else {
          glob := glob[i := Redefine(n, glob[i])];
        }
      } else {
        assert glob[i := glob[i]] == glob;
      }
    }

    /** All external names of a list of mentions. */
    method GetAll(ns: seq<Name>)
      requires Valid() && forall i :: 0 <= i < |ns| ==> NoNul(ns[i].str)
      modifies this, hashtable
      ensures Valid() && glob == EnterAll(old(glob), ns)
    {
      var i := 0;
      while i < |ns|
        invariant 0 <= i <= |ns| && Valid() && glob == EnterAll(old(glob), ns[..i])
      {
        GetExternal(ns[i]);
        assert ns[..i + 1][..i] == ns[..i];
        i := i + 1;
      }
      assert ns[..i] == ns;
    }
  }
}
