/**
 Base64 (section 4 of RFC 4648): the two tables, and the two loops over groups. The loops are proved for
 every alphabet whose two tables are inverse to each other, and the tables of the code to be such.
 */
module Base64 {
  type octet = bv8

  const PAD: octet := 61   // '='

  /** The alphabet: A to Z, a to z, 0 to 9, + and /. */
  function Letter(x: octet): octet
    requires x < 64
  {
    if x < 26 then x + 65 else if x < 52 then x + 71 else if x < 62 then x - 4 else if x == 62 then 43 else 47
  }

  predicate IsLetter(c: octet) {
    65 <= c <= 90 || 97 <= c <= 122 || 48 <= c <= 57 || c == 43 || c == 47
  }

  /** The letter of the low six bits. */
  function E(x: octet): octet {
    Letter(x & 0x3F)
  }

  /** What the decode table holds for `c`: zero for what is no letter. */
  function D(c: octet): (x: octet)
    ensures x < 64
  {
    if 65 <= c <= 90 then c - 65 else if 97 <= c <= 122 then c - 71
    else if 48 <= c <= 57 then c + 4 else if c == 43 then 62 else if c == 47 then 63 else 0
  }

  /** The two tables, and which characters are letters. */
  datatype Alphabet = Alphabet(e: octet -> octet, decode: octet -> octet, letter: octet -> bool)

  ghost predicate Inverse(t: Alphabet) {
    && (forall x :: t.decode(t.e(x)) == x & 0x3F && t.letter(t.e(x)))
    && (forall c :: t.decode(c) < 64)
    && (forall c :: t.letter(c) ==> c != PAD)
    && (forall c, x :: t.letter(c) && x & 0x3F == t.decode(c) ==> t.e(x) == c)
    && t.decode(PAD) == 0
  }

  const STANDARD: Alphabet := Alphabet(E, D, IsLetter)

  /** The tables of the code are inverse to each other. */
  lemma StandardInverse()
    ensures Inverse(STANDARD)
  {
    forall x
      ensures STANDARD.decode(STANDARD.e(x)) == x & 0x3F && STANDARD.letter(STANDARD.e(x))
    {
      DecodesLetter(x);
    }
    forall c, x | STANDARD.letter(c) && x & 0x3F == STANDARD.decode(c)
      ensures STANDARD.e(x) == c
    {
      EncodesAs(c, x);
    }
  }

  lemma DecodesLetter(x: octet)
    ensures D(E(x)) == x & 0x3F && IsLetter(E(x))
  {
  }

  lemma EncodesAs(c: octet, x: octet)
    requires IsLetter(c) && x & 0x3F == D(c)
    ensures E(x) == c
  {
  }

  lemma SameIndex(c: octet, d: octet)
    ensures c as int == d as int <==> c == d
  {
  }

  lemma NextLetter(c: octet, i: octet)
    requires i < 64
    ensures IsLetter(c) && D(c) < i + 1 <==> (IsLetter(c) && D(c) < i) || c == Letter(i)
    ensures D(Letter(i)) == i
  {
  }

  /** The table when the letters below `n` are entered. */
  ghost predicate Entered(decode: seq<octet>, n: octet) {
    |decode| == 256 && forall c: octet :: decode[c as int] == if IsLetter(c) && D(c) < n then D(c) else 0
  }

  lemma EnterNext(decode: seq<octet>, i: octet)
    requires i < 64 && Entered(decode, i)
    ensures Entered(decode[Letter(i) as int := i], i + 1)
  {
    forall c: octet
      ensures decode[Letter(i) as int := i][c as int] == if IsLetter(c) && D(c) < i + 1 then D(c) else 0
    {
      NextLetter(c, i);
      SameIndex(c, Letter(i));
    }
  }

  /** The constructor's loop: every entry zero, then one per letter. */
  method FillTable() returns (decode: array<octet>)
    ensures decode.Length == 256 && forall c: octet :: decode[..][c as int] == D(c)
  {
    decode := new octet[256](_ => 0);
    assert decode[..] == seq(256, _ => 0);
    var i: octet := 0;
    while i < 64
      invariant i <= 64 && Entered(decode[..], i)
      decreases 64 - i
    {
      EnterNext(decode[..], i);
      decode[Letter(i) as int] := i;
      i := i + 1;
    }
  }

  // ---------------------------------------------------------------- groups

  /** Three bytes as four letters. */
  function Group3(t: Alphabet, a: octet, b: octet, c: octet): seq<octet> {
    [t.e(a >> 2), t.e((a << 4) | ((b >> 4) & 0xF)), t.e(((b & 0xF) << 2) | ((c >> 6) & 0x3)), t.e(c & 0x3F)]
  }

  function Group2(t: Alphabet, a: octet, b: octet): seq<octet> {
    [t.e(a >> 2), t.e((a << 4) | ((b >> 4) & 0xF)), t.e((b & 0xF) << 2), PAD]
  }

  function Group1(t: Alphabet, a: octet): seq<octet> {
    [t.e(a >> 2), t.e(a << 4), PAD, PAD]
  }

  /** The three bytes four sextets paste into. */
  function Paste(w: octet, x: octet, y: octet, z: octet): seq<octet> {
    [((w << 2) & 0xFC) | ((x >> 4) & 0x3), ((x << 4) & 0xF0) | ((y >> 2) & 0xF), ((y << 6) & 0xC0) | (z & 0x3F)]
  }

  function Buf(t: Alphabet, s: seq<octet>): (b: seq<octet>)
    requires |s| == 4
    ensures |b| == 3
  {
    Paste(t.decode(s[0]), t.decode(s[1]), t.decode(s[2]), t.decode(s[3]))
  }

  function Ungroup(t: Alphabet, s: seq<octet>): (b: seq<octet>)
    requires |s| == 4
  {
    Buf(t, s)[..if s[3] != PAD then 3 else if s[2] != PAD then 2 else 1]
  }

  /** A group encode can make: four letters, or with padding whose unused bits are zero. */
  predicate Canonical4(t: Alphabet, s: seq<octet>)
    requires |s| == 4
  {
    && t.letter(s[0]) && t.letter(s[1])
    && if s[3] != PAD then t.letter(s[2]) && t.letter(s[3])
       else if s[2] != PAD then t.letter(s[2]) && t.decode(s[2]) & 0x3 == 0
       else t.decode(s[1]) & 0xF == 0
  }

  /** Cutting three bytes into four sextets and pasting them loses nothing. */
  lemma Cut(a: octet, b: octet, c: octet, w: octet, x: octet, y: octet, z: octet)
    requires w == a >> 2 && x == (a << 4) | ((b >> 4) & 0xF)
    requires y == ((b & 0xF) << 2) | ((c >> 6) & 0x3) && z == c & 0x3F
    ensures Paste(w & 0x3F, x & 0x3F, y & 0x3F, z & 0x3F) == [a, b, c]
  {
  }

  lemma {:induction false} Group3Back(t: Alphabet, a: octet, b: octet, c: octet)
    requires Inverse(t)
    ensures Ungroup(t, Group3(t, a, b, c)) == [a, b, c] && Canonical4(t, Group3(t, a, b, c)) && Group3(t, a, b, c)[3] != PAD
  {
    Cut(a, b, c, a >> 2, (a << 4) | ((b >> 4) & 0xF), ((b & 0xF) << 2) | ((c >> 6) & 0x3), c & 0x3F);
  }

  lemma {:induction false} Group2Back(t: Alphabet, a: octet, b: octet)
    requires Inverse(t)
    ensures Ungroup(t, Group2(t, a, b)) == [a, b] && Canonical4(t, Group2(t, a, b))
  {
    var w, x, y := a >> 2, (a << 4) | ((b >> 4) & 0xF), (b & 0xF) << 2;
    Cut2(a, b, w, x, y);
    PaddedGroup(t, [t.e(w), t.e(x), t.e(y), PAD], w, x, y);
  }

  lemma Cut2(a: octet, b: octet, w: octet, x: octet, y: octet)
    requires w == a >> 2 && x == (a << 4) | ((b >> 4) & 0xF) && y == (b & 0xF) << 2
    ensures Paste(w & 0x3F, x & 0x3F, y & 0x3F, 0) == [a, b, 0] && (y & 0x3F) & 0x3 == 0
  {
  }

  lemma PaddedGroup(t: Alphabet, s: seq<octet>, w: octet, x: octet, y: octet)
    requires Inverse(t) && s == [t.e(w), t.e(x), t.e(y), PAD] && (y & 0x3F) & 0x3 == 0
    ensures Buf(t, s) == Paste(w & 0x3F, x & 0x3F, y & 0x3F, 0) && Canonical4(t, s) && s[2] != PAD
  {
  }

  lemma {:induction false} Group1Back(t: Alphabet, a: octet)
    requires Inverse(t)
    ensures Ungroup(t, Group1(t, a)) == [a] && Canonical4(t, Group1(t, a))
  {
    Cut2(a, 0, a >> 2, a << 4, 0);
    Low4(a);
  }

  lemma Low4(a: octet)
    ensures ((a << 4) & 0x3F) & 0xF == 0
  {
  }

  /** Pasting four sextets into three bytes and cutting again gives the sextets. */
  lemma Pasted(w: octet, x: octet, y: octet, z: octet, a: octet, b: octet, c: octet)
    requires w < 64 && x < 64 && y < 64 && z < 64 && Paste(w, x, y, z) == [a, b, c]
    ensures (a >> 2) & 0x3F == w && ((a << 4) | ((b >> 4) & 0xF)) & 0x3F == x
    ensures (((b & 0xF) << 2) | ((c >> 6) & 0x3)) & 0x3F == y && (c & 0x3F) & 0x3F == z
    ensures y & 0x3 == 0 ==> ((b & 0xF) << 2) & 0x3F == y
    ensures x & 0xF == 0 ==> (a << 4) & 0x3F == x
  {
    assert a == Paste(w, x, y, z)[0] && b == Paste(w, x, y, z)[1] && c == Paste(w, x, y, z)[2];
  }

  lemma Sextet(t: Alphabet, c: octet)
    requires Inverse(t)
    ensures t.decode(c) < 64
  {
  }

  lemma EncodesTo(t: Alphabet, c: octet, x: octet)
    requires Inverse(t) && t.letter(c) && x & 0x3F == t.decode(c)
    ensures t.e(x) == c
  {
  }

  /** A canonical group is the encoding of its own bytes. */
  lemma {:induction false} Regroup(t: Alphabet, s: seq<octet>, b: seq<octet>)
    requires Inverse(t) && |s| == 4 && Canonical4(t, s) && b == Buf(t, s)
    ensures s == if s[3] != PAD then Group3(t, b[0], b[1], b[2])
                 else if s[2] != PAD then Group2(t, b[0], b[1]) else Group1(t, b[0])
  {
    Sextet(t, s[0]);
    Sextet(t, s[1]);
    Sextet(t, s[2]);
    Sextet(t, s[3]);
    Pasted(t.decode(s[0]), t.decode(s[1]), t.decode(s[2]), t.decode(s[3]), b[0], b[1], b[2]);
    EncodesTo(t, s[0], b[0] >> 2);
    if s[3] != PAD {
      Regroup3(t, s, b);
    } else if s[2] != PAD {
      Regroup2(t, s, b);
    } else {
      EncodesTo(t, s[1], b[0] << 4);
    }
  }

  lemma {:induction false} Regroup3(t: Alphabet, s: seq<octet>, b: seq<octet>)
    requires Inverse(t) && |s| == 4 && Canonical4(t, s) && |b| == 3 && s[3] != PAD
    requires t.e(b[0] >> 2) == s[0] && ((b[0] << 4) | ((b[1] >> 4) & 0xF)) & 0x3F == t.decode(s[1])
    requires (((b[1] & 0xF) << 2) | ((b[2] >> 6) & 0x3)) & 0x3F == t.decode(s[2]) && (b[2] & 0x3F) & 0x3F == t.decode(s[3])
    ensures s == Group3(t, b[0], b[1], b[2])
  {
    EncodesTo(t, s[1], (b[0] << 4) | ((b[1] >> 4) & 0xF));
    EncodesTo(t, s[2], ((b[1] & 0xF) << 2) | ((b[2] >> 6) & 0x3));
    EncodesTo(t, s[3], b[2] & 0x3F);
  }

  lemma {:induction false} Regroup2(t: Alphabet, s: seq<octet>, b: seq<octet>)
    requires Inverse(t) && |s| == 4 && Canonical4(t, s) && |b| == 3 && s[3] == PAD != s[2]
    requires t.e(b[0] >> 2) == s[0] && ((b[0] << 4) | ((b[1] >> 4) & 0xF)) & 0x3F == t.decode(s[1])
    requires ((b[1] & 0xF) << 2) & 0x3F == t.decode(s[2])
    ensures s == Group2(t, b[0], b[1])
  {
    EncodesTo(t, s[1], (b[0] << 4) | ((b[1] >> 4) & 0xF));
    EncodesTo(t, s[2], (b[1] & 0xF) << 2);
  }

  // ---------------------------------------------------------------- whole strings

  function Encode(t: Alphabet, d: seq<octet>): (s: seq<octet>)
    ensures |s| % 4 == 0
  {
    if |d| == 0 then []
    else if |d| == 1 then Group1(t, d[0])
    else if |d| == 2 then Group2(t, d[0], d[1])
    else Group3(t, d[0], d[1], d[2]) + Encode(t, d[3..])
  }

  /** Four characters for every three bytes begun. */
  lemma {:induction false} EncodeLength(t: Alphabet, d: seq<octet>)
    ensures |Encode(t, d)| == 4 * ((|d| + 2) / 3)
  {
    if |d| >= 3 {
      EncodeLength(t, d[3..]);
    }
  }

  function Decode(t: Alphabet, s: seq<octet>): seq<octet>
    requires |s| % 4 == 0
  {
    if |s| == 0 then [] else Ungroup(t, s[..4]) + Decode(t, s[4..])
  }

  /** Groups of four letters, of which the last may be padded, with its unused bits zero. */
  predicate Canonical(t: Alphabet, s: seq<octet>)
    requires |s| % 4 == 0
  {
    |s| == 0 || (Canonical4(t, s[..4]) && (|s| > 4 ==> s[3] != PAD) && Canonical(t, s[4..]))
  }

  lemma {:induction false} LastGroup(t: Alphabet, g: seq<octet>)
    requires |g| == 4
    ensures Decode(t, g) == Ungroup(t, g) && Canonical(t, g) == Canonical4(t, g)
  {
    assert g[..4] == g && g[4..] == [];
  }

  /** Decoding inverts encoding on every byte string. */
  lemma {:induction false} DecodeEncode(t: Alphabet, d: seq<octet>)
    requires Inverse(t)
    ensures Canonical(t, Encode(t, d)) && Decode(t, Encode(t, d)) == d
  {
    if |d| == 1 {
      Group1Back(t, d[0]);
      LastGroup(t, Group1(t, d[0]));
    } else if |d| == 2 {
      Group2Back(t, d[0], d[1]);
      LastGroup(t, Group2(t, d[0], d[1]));
    } else if |d| >= 3 {
      DecodeEncode(t, d[3..]);
      Group3Back(t, d[0], d[1], d[2]);
      MoreGroups(t, Group3(t, d[0], d[1], d[2]), Encode(t, d[3..]));
      assert d == [d[0], d[1], d[2]] + d[3..];
    }
  }

  lemma {:induction false} MoreGroups(t: Alphabet, g: seq<octet>, s: seq<octet>)
    requires |g| == 4 && |s| % 4 == 0 && g[3] != PAD
    ensures Decode(t, g + s) == Ungroup(t, g) + Decode(t, s)
    ensures Canonical(t, g + s) == (Canonical4(t, g) && Canonical(t, s))
  {
    assert (g + s)[..4] == g && (g + s)[4..] == s;
  }

  /** Encoding gives back a decoded string exactly when that string is canonical. */
  lemma {:induction false} EncodeDecodeIff(t: Alphabet, s: seq<octet>)
    requires Inverse(t) && |s| % 4 == 0
    ensures Encode(t, Decode(t, s)) == s <==> Canonical(t, s)
  {
    DecodeEncode(t, Decode(t, s));
    if Canonical(t, s) {
      EncodeDecode(t, s);
    }
  }

  lemma {:induction false} GroupFirst(t: Alphabet, b: seq<octet>, rest: seq<octet>)
    requires |b| == 3
    ensures Encode(t, b + rest) == Group3(t, b[0], b[1], b[2]) + Encode(t, rest)
  {
    assert (b + rest)[3..] == rest;
  }

  lemma {:induction false} FirstDecoded(t: Alphabet, s: seq<octet>)
    requires |s| % 4 == 0 && 4 <= |s| && s[3] != PAD
    ensures Decode(t, s) == Buf(t, s[..4]) + Decode(t, s[4..])
    ensures Canonical(t, s) ==> Canonical4(t, s[..4]) && Canonical(t, s[4..])
  {
  }

  lemma {:induction false} LastDecoded(t: Alphabet, s: seq<octet>)
    requires |s| % 4 == 0 && 4 <= |s| && s[3] == PAD && Canonical(t, s)
    ensures |s| == 4 && Canonical4(t, s) && Decode(t, s) == Ungroup(t, s)
  {
    assert s[4..] == [] && s == s[..4];
    LastGroup(t, s);
  }

  lemma {:induction false} EncodeDecode(t: Alphabet, s: seq<octet>)
    requires Inverse(t) && |s| % 4 == 0 && Canonical(t, s)
    ensures Encode(t, Decode(t, s)) == s
  {
    if |s| > 0 {
      if s[3] != PAD {
        var g, b := s[..4], Buf(t, s[..4]);
        assert s == g + s[4..];
        FirstDecoded(t, s);
        Regroup(t, g, b);
        EncodeDecode(t, s[4..]);
        GroupFirst(t, b, Decode(t, s[4..]));
      } else {
        LastDecoded(t, s);
        Regroup(t, s, Buf(t, s));
      }
    }
  }

  /** With the tables of the code: decoding inverts encoding on every byte sequence. */
  lemma {:induction false} StandardDecodeEncode(d: seq<octet>)
    ensures Decode(STANDARD, Encode(STANDARD, d)) == d
  {
    StandardInverse();
    DecodeEncode(STANDARD, d);
  }

  /** And encoding inverts decoding exactly on canonical strings. */
  lemma {:induction false} StandardEncodeDecodeIff(s: seq<octet>)
    requires |s| % 4 == 0
    ensures Encode(STANDARD, Decode(STANDARD, s)) == s <==> Canonical(STANDARD, s)
  {
    StandardInverse();
    EncodeDecodeIff(STANDARD, s);
  }

  // ---------------------------------------------------------------- the loops

  /** The body of encode's loop: the letters of the bytes at `start`, without padding. */
  method EmitGroup(t: Alphabet, start: seq<octet>) returns (g: seq<octet>)
    requires 0 < |start|
    ensures |start| == 1 ==> g + [PAD, PAD] == Group1(t, start[0])
    ensures |start| == 2 ==> g + [PAD] == Group2(t, start[0], start[1])
    ensures |start| > 2 ==> g == Group3(t, start[0], start[1], start[2])
  {
    g := [t.e(start[0] >> 2)];
    var temp := start[0] << 4;
    if |start| == 1 {
      g := g + [t.e(temp)];
      return;
    }
    temp := temp | ((start[1] >> 4) & 0xF);
    g := g + [t.e(temp)];
    temp := (start[1] & 0xF) << 2;
    if |start| == 2 {
      g := g + [t.e(temp)];
      return;
    }
    temp := temp | ((start[2] >> 6) & 0x3);
    g := g + [t.e(temp)];
    g := g + [t.e(start[2] & 0x3F)];
  }

  lemma EncodeStep(t: Alphabet, d: seq<octet>, g: seq<octet>, out: seq<octet>)
    requires 0 < |d|
    requires |d| == 1 ==> g + [PAD, PAD] == Group1(t, d[0])
    requires |d| == 2 ==> g + [PAD] == Group2(t, d[0], d[1])
    requires |d| > 2 ==> g == Group3(t, d[0], d[1], d[2])
    ensures out + Encode(t, d) == out + g + if |d| == 1 then [PAD, PAD] else if |d| == 2 then [PAD] else Encode(t, d[3..])
  {
  }

  /** What is appended once the loop is left. */
  function Padding(n: nat): seq<octet> {
    if n % 3 == 1 then [PAD, PAD] else if n % 3 == 2 then [PAD] else []
  }

  method EncodeTo(t: Alphabet, ss: seq<octet>, data: seq<octet>) returns (out: seq<octet>)
    ensures out == ss + Encode(t, data)
  {
    out := ss;
    var left := data;
    ghost var k := 0;
    while left != []
      invariant |data| == 3 * k + |left|
      invariant ss + Encode(t, data) == out + Encode(t, left)
      decreases |left|
    {
      var g := EmitGroup(t, left);
      EncodeStep(t, left, g, out);
      out := out + g;
      if |left| < 3 {
        PaddingOf(k, |left|);
        return out + Padding(|data|);
      }
      left, k := left[3..], k + 1;
    }
    PaddingOf(k, 0);
    out := out + Padding(|data|);
  }

  lemma PaddingOf(k: nat, left: nat)
    requires left < 3
    ensures Padding(3 * k + left) == if left == 1 then [PAD, PAD] else if left == 2 then [PAD] else []
  {
  }

  method DecodeTo(t: Alphabet, ss: seq<octet>, s: seq<octet>) returns (out: seq<octet>)
    requires |s| % 4 == 0
    ensures out == ss + Decode(t, s)
  {
    out := ss;
    var i := 0;
    while i < |s|
      invariant i <= |s| && i % 4 == 0 && out + Decode(t, s[i..]) == ss + Decode(t, s)
    {
      var start := s[i..i + 4];
      var buf := Buf(t, start);
      var len := 3;
      if start[3] == PAD {
        len := 2;
        if start[2] == PAD {
          len := 1;
        }
      }
      assert s[i..][..4] == start && s[i..][4..] == s[i + 4..];
      out := out + buf[..len];
      i := i + 4;
    }
  }
}
