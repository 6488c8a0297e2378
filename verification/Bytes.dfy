/** Bytes, little-endian words, and writing a block of bytes into a buffer. */
module Bytes {
  type byte = x: int | 0 <= x < 256

  type u32 = x: int | 0 <= x < 0x1_0000_0000

  /** BSONObjMaxInternalSize, 16 MB and 16 KB: a longer object makes the constructor of BSONObj throw. */
  const MAX_INTERNAL: nat := 16793600

  /** What separates the segments of a name. */
  const DOT: byte := 46

  datatype Option<+T> = None | Some(value: T)

  /** The number whose little-endian bytes are `b`. */
  function Num(b: seq<byte>): nat {
    if b == [] then 0 else var low: int := b[0]; low + 256 * Num(b[1..])
  }

  /** The `n` low bytes of `v`, least significant first. */
  function LE(v: nat, n: nat): (b: seq<byte>)
    ensures |b| == n
  {
    if n == 0 then [] else [v % 256] + LE(v / 256, n - 1)
  }

  function Pow256(n: nat): nat {
    if n == 0 then 1 else 256 * Pow256(n - 1)
  }

  lemma NumBound(b: seq<byte>)
    ensures Num(b) < Pow256(|b|)
  {
  }

  lemma {:induction false} NumLE(v: nat, n: nat)
    requires v < Pow256(n)
    ensures Num(LE(v, n)) == v
  {
    if n > 0 {
      NumLE(v / 256, n - 1);
      assert LE(v, n)[1..] == LE(v / 256, n - 1);
    }
  }

  lemma {:induction false} NumInjective(b: seq<byte>, c: seq<byte>)
    requires |b| == |c| && Num(b) == Num(c)
    ensures b == c
  {
    if b != [] {
      NumInjective(b[1..], c[1..]);
      assert b == [b[0]] + b[1..] && c == [c[0]] + c[1..];
    }
  }

  lemma Pow4()
    ensures Pow256(4) == 0x1_0000_0000
  {
    assert Pow256(2) == 65536;
  }

  /** The unsigned int a load at `off` reads. */
  function U32(s: seq<byte>, off: nat): u32
    requires off + 4 <= |s|
    decreases |s|
  {
    if off > 0 then U32(s[1..], off - 1)
    else
      NumBound(s[..4]); Pow4();
      Num(s[..4])
  }

  lemma {:induction false} U32Is(s: seq<byte>, off: nat)
    requires off + 4 <= |s|
    ensures U32(s, off) == Num(s[off..off + 4])
    decreases |s|
  {
    if off > 0 {
      U32Is(s[1..], off - 1);
      assert s[1..][off - 1..off + 3] == s[off..off + 4];
    }
  }

  /** The four bytes of a word, least significant first. */
  function LE32(v: u32): (b: seq<byte>)
    ensures |b| == 4 && U32(b, 0) == v
  {
    WordBytes(v);
    var b: seq<byte> :| |b| == 4 && U32(b, 0) == v; b
  }

  lemma {:induction false} WordBytes(v: u32)
    ensures exists b: seq<byte> :: |b| == 4 && U32(b, 0) == v
    ensures forall b: seq<byte>, c: seq<byte> :: |b| == 4 && |c| == 4 && U32(b, 0) == v && U32(c, 0) == v ==> b == c
  {
    Pow4();
    NumLE(v, 4);
    U32Is(LE(v, 4), 0);
    assert LE(v, 4)[0..4] == LE(v, 4);
    assert |LE(v, 4)| == 4 && U32(LE(v, 4), 0) == v;
    forall b: seq<byte>, c: seq<byte> | |b| == 4 && |c| == 4 && U32(b, 0) == v && U32(c, 0) == v
      ensures b == c
    {
      U32Is(b, 0);
      U32Is(c, 0);
      assert b[0..4] == b && c[0..4] == c;
      NumInjective(b, c);
    }
  }

  /** `s` with the bytes `b` copied over it from `off` on (memcpy). */
  function Put(s: seq<byte>, off: nat, b: seq<byte>): (r: seq<byte>)
    requires off + |b| <= |s|
    ensures |r| == |s|
    ensures forall k :: 0 <= k < |s| ==> r[k] == if off <= k < off + |b| then b[k - off] else s[k]
  {
    s[..off] + b + s[off + |b|..]
  }

  /** A word depends only on its own four bytes. */
  lemma SameWord(s: seq<byte>, off: nat, t: seq<byte>, at: nat)
    requires off + 4 <= |s| && at + 4 <= |t|
    requires forall k :: off <= k < off + 4 ==> s[k] == t[at + (k - off)]
    ensures U32(s, off) == U32(t, at)
  {
    U32Is(s, off);
    U32Is(t, at);
    assert s[off..off + 4] == t[at..at + 4];
  }

  /** Storing a word and loading it back gives the word. */
  lemma ReadBack(s: seq<byte>, off: nat, v: u32)
    requires off + 4 <= |s|
    ensures U32(Put(s, off, LE32(v)), off) == v
  {
    SameWord(Put(s, off, LE32(v)), off, LE32(v), 0);
  }

  /** memcpy of `b` into memory. */
  method CopyIn(mem: array<byte>, off: nat, b: seq<byte>)
    requires off + |b| <= mem.Length
    modifies mem
    ensures mem[..] == Put(old(mem[..]), off, b)
  {
    for k := 0 to |b|
      invariant forall j :: 0 <= j < mem.Length ==>
        mem[j] == if off <= j < off + k then b[j - off] else old(mem[..])[j]
    {
      mem[off + k] := b[k];
    }
  }
}
