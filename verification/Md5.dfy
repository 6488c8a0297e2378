/**
 MD5 over a message fed in pieces (RFC 1321). The block function of section 3.4 is a parameter; what
 is proved is everything around it: buffering, the two-word bit counter, and the padding.
 */
module Md5 {
  import opened Bytes

  datatype Abcd = Abcd(a: u32, b: u32, c: u32, d: u32)

  type Process = (Abcd, seq<byte>) -> Abcd

  const INIT: Abcd := Abcd(0x67452301, 0xefcdab89, 0x98badcfe, 0x10325476)

  // ---------------------------------------------------------------- the definition of RFC 1321

  /** `n` modulo 64, by counting off blocks. */
  function Rem(n: nat): (r: nat)
    ensures r < 64 && r <= n
  {
    if n < 64 then n else Rem(n - 64)
  }

  lemma {:induction false} RemIs(n: nat)
    ensures Rem(n) == n % 64
  {
    if n >= 64 {
      RemIs(n - 64);
    }
  }

  lemma {:induction false} RemPlus(d: nat, r: nat)
    requires Rem(d) == 0 && r < 64
    ensures Rem(d + r) == r
  {
    if d > 0 {
      RemPlus(d - 64, r);
    }
  }

  lemma {:induction false} RemWhole(n: nat)
    ensures Rem(n - Rem(n)) == 0
  {
    if n >= 64 {
      RemWhole(n - 64);
    }
  }

  /** The block function applied to the 64-byte blocks of `m` in turn. */
  function Fold(f: Process, h: Abcd, m: seq<byte>): Abcd
    requires Rem(|m|) == 0
    decreases |m|
  {
    if |m| == 0 then h else Fold(f, f(h, m[..64]), m[64..])
  }

  function Zeros(n: nat): (z: seq<byte>)
    ensures |z| == n
  {
    if n == 0 then [] else Zeros(n - 1) + [0]
  }

  /** Zero bytes after the 0x80 that bring a message of `n` bytes to 56 modulo 64. */
  function Gap(n: nat): (g: nat)
    ensures g < 64 && Rem(n + 1 + g) == 56
  {
    RemIs(n + 1 + (55 - n) % 64);
    (55 - n) % 64
  }

  /** The bit length modulo 2^64, low word first. */
  function BitLength(n: nat): (w: seq<byte>)
    ensures |w| == 8
  {
    LE32(8 * n % 0x1_0000_0000) + LE32(8 * n / 0x1_0000_0000 % 0x1_0000_0000)
  }

  /** Sections 3.1 and 3.2: a one bit, zeros, then the bit length. */
  function Padded(m: seq<byte>): (p: seq<byte>)
    ensures Rem(|p|) == 0
  {
    RemEnd(|m| + 1 + Gap(|m|));
    m + [0x80] + Zeros(Gap(|m|)) + BitLength(|m|)
  }

  lemma {:induction false} RemEnd(n: nat)
    requires Rem(n) == 56
    ensures Rem(n + 8) == 0
  {
    if n >= 64 {
      RemEnd(n - 64);
    }
  }

  function Output(h: Abcd): seq<byte> {
    LE32(h.a) + LE32(h.b) + LE32(h.c) + LE32(h.d)
  }

  function Digest(f: Process, m: seq<byte>): seq<byte> {
    Output(Fold(f, INIT, Padded(m)))
  }

  lemma {:induction false} FoldOn(f: Process, h: Abcd, m: seq<byte>, b: seq<byte>)
    requires Rem(|m|) == 0 && |b| == 64
    ensures Rem(|m| + 64) == 0 && Fold(f, h, m + b) == f(Fold(f, h, m), b)
    decreases |m|
  {
    if |m| == 0 {
      assert m + b == b && b[..64] == b && b[64..] == [];
    } else {
      assert (m + b)[..64] == m[..64] && (m + b)[64..] == m[64..] + b;
      FoldOn(f, f(h, m[..64]), m[64..], b);
    }
  }

  // ---------------------------------------------------------------- the counter

  lemma Words(x: nat, q: nat, r: nat)
    requires x == 0x1_0000_0000 * q + r && r < 0x1_0000_0000
    ensures x % 0x1_0000_0000 == r && x / 0x1_0000_0000 == q
  {
  }

  lemma SameMod(x: int, y: int, k: int)
    requires x == y + 64 * k
    ensures x % 64 == y % 64
  {
    assert x == 64 * (y / 64 + k) + y % 64;
  }

  /** Adding to the two words, with a carry, keeps them 8 times the length modulo 2^64. */
  lemma {:induction false} CountAdds(n: nat, nbytes: nat, low: nat, high: nat)
    requires nbytes < 0x8000_0000
    requires low == (8 * n % 0x1_0000_0000 + 8 * nbytes % 0x1_0000_0000) % 0x1_0000_0000
    requires high == 8 * n / 0x1_0000_0000 % 0x1_0000_0000 + nbytes / 0x2000_0000
                     + if low < 8 * nbytes % 0x1_0000_0000 then 1 else 0
    ensures low == 8 * (n + nbytes) % 0x1_0000_0000
    ensures high % 0x1_0000_0000 == 8 * (n + nbytes) / 0x1_0000_0000 % 0x1_0000_0000
  {
    var q, r := 8 * n / 0x1_0000_0000, 8 * n % 0x1_0000_0000;
    var u, s := nbytes / 0x2000_0000, 8 * (nbytes % 0x2000_0000);
    Words(8 * nbytes, u, s);
    var carry := if r + s >= 0x1_0000_0000 then 1 else 0;
    Words(r + s, carry, r + s - carry * 0x1_0000_0000);
    Words(8 * (n + nbytes), q + u + carry, r + s - carry * 0x1_0000_0000);
  }

  /** The low word knows how much of the buffer is in use. */
  lemma {:induction false} OffsetIs(n: nat)
    ensures 8 * n % 0x1_0000_0000 / 8 % 64 == Rem(n)
  {
    RemIs(n);
    var k, j := n / 0x2000_0000, n % 0x2000_0000;
    Words(8 * n, k, 8 * j);
    SameMod(n, j, k * 0x80_0000);
  }

  lemma {:induction false} PadLength(n: nat, low: nat)
    requires low == 8 * n % 0x1_0000_0000
    ensures (55 - low / 8) % 64 == Gap(n)
  {
    OffsetIs(n);
    RemIs(n);
    var k := n / 64 - low / 8 / 64;
    assert 55 - low / 8 == 55 - n + 64 * k;
    SameMod(55 - low / 8, 55 - n, k);
  }

  /** The state after message `m`: whole blocks digested, the tail in the buffer, the bits counted. */
  ghost predicate Holds(f: Process, m: seq<byte>, low: nat, high: nat, abcd: Abcd, buf: seq<byte>) {
    && low == 8 * |m| % 0x1_0000_0000 && high == 8 * |m| / 0x1_0000_0000 % 0x1_0000_0000
    && Absorbed(f, m, abcd, buf)
  }

  ghost predicate Absorbed(f: Process, m: seq<byte>, abcd: Abcd, buf: seq<byte>) {
    Blocks(f, m, |m| - Rem(|m|), abcd) && |buf| == 64 && buf[..Rem(|m|)] == m[|m| - Rem(|m|)..]
  }

  /** The first `d` bytes of `m` are digested. */
  ghost predicate Blocks(f: Process, m: seq<byte>, d: int, abcd: Abcd) {
    0 <= d <= |m| && Rem(d) == 0 && abcd == Fold(f, INIT, m[..d])
  }

  lemma {:induction false} NextBlock(f: Process, m: seq<byte>, d: int, abcd: Abcd, b: seq<byte>)
    requires Blocks(f, m, d, abcd) && d + 64 <= |m| && b == m[d..d + 64]
    ensures Blocks(f, m, d + 64, f(abcd, b))
  {
    FoldOn(f, INIT, m[..d], b);
    assert m[..d + 64] == m[..d] + b;
  }

  /** What is left over after the whole blocks is the tail. */
  lemma {:induction false} Tail(m: seq<byte>, data: seq<byte>, p: nat, buf: seq<byte>)
    requires p <= |data| && |data| - p < 64 && Rem(|m| + p) == 0 && |buf| == 64 && buf[..|data| - p] == data[p..]
    ensures Rem(|m + data|) == |data| - p
    ensures buf[..Rem(|m + data|)] == (m + data)[|m + data| - Rem(|m + data|)..]
  {
    RemPlus(|m| + p, |data| - p);
    assert (m + data)[|m| + p..] == data[p..];
  }

  /** The first `n` bytes of the static pad array: 0x80 and zeros. */
  function Pad(n: nat): (p: seq<byte>)
    requires 0 < n
    ensures |p| == n
  {
    [0x80] + Zeros(n - 1)
  }

  lemma {:induction false} PaddedIs(m: seq<byte>, n: nat)
    requires n == Gap(|m|) + 1
    ensures Padded(m) == m + Pad(n) + BitLength(|m|) && Padded(m)[..|Padded(m)|] == Padded(m)
  {
    assert m + Pad(n) + BitLength(|m|) == m + [0x80] + Zeros(Gap(|m|)) + BitLength(|m|);
  }

  lemma FedStays(fed: seq<byte>, data: seq<byte>, n: nat)
    requires n <= |fed|
    ensures (fed + data)[..n] == fed[..n]
  {
  }

  /** The buffer once part of the data is copied behind what it held. */
  lemma Filled(fed: seq<byte>, data: seq<byte>, offset: nat, copy: nat, was: seq<byte>, now: seq<byte>)
    requires offset <= |fed| && copy <= |data| && offset + copy <= |was| && was[..offset] == fed[|fed| - offset..]
    requires now == Put(was, offset, data[..copy])
    ensures now[..offset + copy] == (fed + data)[|fed| - offset..|fed| + copy]
  {
    assert now[..offset] == was[..offset];
    assert now[offset..offset + copy] == data[..copy];
    assert now[..offset + copy] == now[..offset] + now[offset..offset + copy];
    assert (fed + data)[|fed| - offset..|fed| + copy] == fed[|fed| - offset..] + data[..copy];
  }

  class Md5State {
    var low: u32    // count[0]
    var high: u32   // count[1]
    var abcd: Abcd
    const buf: array<byte>
    const f: Process
    ghost var fed: seq<byte>   // the message so far

    ghost predicate Valid()
      reads this, buf
    {
      Holds(f, fed, low, high, abcd, buf[..])
    }

    constructor (f: Process)
      ensures Valid() && fed == [] && this.f == f && fresh(buf)
    {
      this.f := f;
      low, high, abcd, fed := 0, 0, INIT, [];
      buf := new byte[64](_ => 0);
    }

    /** md5_append: its length is an int, to which the buffer offset is added. */
    method Append(data: seq<byte>)
      requires Valid() && |data| + Rem(|fed|) < 0x8000_0000
      modifies this, buf
      ensures Valid() && fed == old(fed) + data
    {
      if data == [] {
        assert fed == fed + data;
        return;
      }
      OffsetIs(|fed|);
      var offset: nat := low as int / 8 % 64;
      Count(|data|);
      Absorb(data, offset);
      fed := fed + data;
    }

    method Absorb(data: seq<byte>, offset: nat)
      requires offset == Rem(|fed|) && Blocks(f, fed, |fed| - offset, abcd)
      requires buf.Length == 64 && buf[..offset] == fed[|fed| - offset..]
      modifies this`abcd, buf
      ensures Absorbed(f, fed + data, abcd, buf[..])
    {
      var p := Fill(data, offset);
      if offset == 0 || offset + |data| >= 64 {
        p := WholeBlocks(data, p);
        CopyIn(buf, 0, data[p..]);
        Tail(fed, data, p, buf[..]);
      } else {
        RemPlus(|fed| - offset, offset + |data|);
      }
    }

    /** Count the bits of `nbytes` more bytes. */
    method Count(nbytes: nat)
      requires nbytes < 0x8000_0000
      requires low == 8 * |fed| % 0x1_0000_0000 && high == 8 * |fed| / 0x1_0000_0000 % 0x1_0000_0000
      modifies this`low, this`high
      ensures low == 8 * (|fed| + nbytes) % 0x1_0000_0000
      ensures high == 8 * (|fed| + nbytes) / 0x1_0000_0000 % 0x1_0000_0000
    {
      var nbits := 8 * nbytes % 0x1_0000_0000;
      var carried := high as int + nbytes / 0x2000_0000;
      low := (low as int + nbits) % 0x1_0000_0000;
      if low < nbits {
        carried := carried + 1;
      }
      high := carried % 0x1_0000_0000;
      CountAdds(|fed|, nbytes, low, carried);
    }

    /** Complete the block begun in the buffer; it is digested once it is full. */
    method Fill(data: seq<byte>, offset: nat) returns (p: nat)
      requires offset == Rem(|fed|) && Blocks(f, fed, |fed| - offset, abcd)
      requires buf.Length == 64 && buf[..offset] == fed[|fed| - offset..]
      modifies this`abcd, buf
      ensures p <= |data| && buf.Length == 64
      ensures if 0 < offset && offset + |data| < 64 then
          Blocks(f, fed + data, |fed| - offset, abcd) && buf[..offset + |data|] == (fed + data)[|fed| - offset..]
        else Blocks(f, fed + data, |fed| + p, abcd)
    {
      ghost var all := fed + data;
      RemWhole(|fed|);
      FedStays(fed, data, |fed| - offset);
      if offset == 0 {
        return 0;
      }
      var copy := if offset + |data| > 64 then 64 - offset else |data|;
      ghost var was := buf[..];
      CopyIn(buf, offset, data[..copy]);
      Filled(fed, data, offset, copy, was, buf[..]);
      if offset + copy < 64 {
        return 0;
      }
      NextBlock(f, all, |fed| - offset, abcd, buf[..]);
      abcd := f(abcd, buf[..]);
      p := copy;
    }

    /** Digest whole blocks straight from the data. */
    method WholeBlocks(data: seq<byte>, from: nat) returns (p: nat)
      requires from <= |data| && Blocks(f, fed + data, |fed| + from, abcd)
      modifies this`abcd
      ensures p <= |data| && |data| - p < 64 && Blocks(f, fed + data, |fed| + p, abcd)
    {
      p := from;
      while |data| - p >= 64
        invariant p <= |data| && Blocks(f, fed + data, |fed| + p, abcd)
      {
        NextBlock(f, fed + data, |fed| + p, abcd, data[p..p + 64]);
        abcd := f(abcd, data[p..p + 64]);
        p := p + 64;
      }
    }

    /** md5_finish: the length is saved before the padding changes it. */
    method Finish() returns (digest: seq<byte>)
      requires Valid()
      modifies this, buf
      ensures digest == Digest(f, old(fed))
    {
      ghost var m := fed;
      var length := LE32(low) + LE32(high);
      assert length == BitLength(|m|);
      PadLength(|fed|, low);
      var n := (55 - low as int / 8) % 64 + 1;
      Append(Pad(n));
      Append(length);
      PaddedIs(m, n);
      digest := Output(abcd);
    }
  }

  function Flat(pieces: seq<seq<byte>>): seq<byte> {
    if pieces == [] then [] else Flat(pieces[..|pieces| - 1]) + pieces[|pieces| - 1]
  }

  lemma FlatOn(pieces: seq<seq<byte>>, i: nat)
    requires i < |pieces|
    ensures Flat(pieces[..i + 1]) == Flat(pieces[..i]) + pieces[i]
  {
    assert pieces[..i + 1][..i] == pieces[..i];
  }

  /** However a message is cut, feeding the pieces in turn gives the digest of the whole. */
  method DigestOf(f: Process, pieces: seq<seq<byte>>) returns (digest: seq<byte>)
    requires forall i :: 0 <= i < |pieces| ==> |pieces[i]| + 63 < 0x8000_0000
    ensures digest == Digest(f, Flat(pieces))
  {
    var md5 := new Md5State(f);
    for i := 0 to |pieces|
      invariant md5.Valid() && md5.fed == Flat(pieces[..i]) && md5.f == f && fresh(md5) && fresh(md5.buf)
    {
      FlatOn(pieces, i);
      md5.Append(pieces[i]);
    }
    assert pieces[..|pieces|] == pieces;
    digest := md5.Finish();
  }
}
