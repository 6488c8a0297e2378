/**
 The formats by their own documents: bytes, letters and digits as the standards print them. The other
 modules speak of constants and tables by name; here each is what it has to be.
 */
module KnownAnswers {
  import opened Bytes
  import Base64
  import Bson
  import BsonBuild
  import Dms
  import Index
  import Json
  import JsonString
  import LexNum
  import Md5
  import Ordering
  import TypeOrder

  // ---------------------------------------------------------------- words

  /** Words are little-endian. */
  lemma {:induction false} WordIs(a: byte, b: byte, c: byte, d: byte, v: u32)
    requires v == a + 0x100 * b as int + 0x1_0000 * c as int + 0x100_0000 * d as int
    ensures LE32(v) == [a, b, c, d]
  {
    var w: seq<byte> := [a, b, c, d];
    var x, y, z: seq<byte> := [b, c, d], [c, d], [d];
    assert z[1..] == [] && Num(z) == d;
    assert y[1..] == z && Num(y) == c as int + 256 * d as int;
    assert x[1..] == y && Num(x) == b as int + 256 * Num(y);
    assert w[1..] == x && Num(w) == a as int + 256 * Num(x);
    assert w[0..4] == w;
    U32Is(w, 0);
    WordBytes(v);
  }

  // ---------------------------------------------------------------- MD5 (RFC 1321)

  /** Section 3.3: the four words, low-order bytes first. */
  lemma {:induction false} Md5Init()
    ensures Md5.Output(Md5.INIT) ==
      [0x01, 0x23, 0x45, 0x67, 0x89, 0xab, 0xcd, 0xef, 0xfe, 0xdc, 0xba, 0x98, 0x76, 0x54, 0x32, 0x10]
  {
    WordIs(0x01, 0x23, 0x45, 0x67, Md5.INIT.a);
    WordIs(0x89, 0xab, 0xcd, 0xef, Md5.INIT.b);
    WordIs(0xfe, 0xdc, 0xba, 0x98, Md5.INIT.c);
    WordIs(0x76, 0x54, 0x32, 0x10, Md5.INIT.d);
  }

  lemma {:induction false} AllZeros(n: nat)
    ensures forall i :: 0 <= i < n ==> Md5.Zeros(n)[i] == 0
  {
    if n > 0 {
      AllZeros(n - 1);
    }
  }

  lemma {:induction false} NumOfWord(v: u32)
    ensures Num(LE32(v)) == v
  {
    U32Is(LE32(v), 0);
    assert LE32(v)[0..4] == LE32(v);
  }

  lemma {:induction false} LengthIs(n: nat)
    ensures Num(Md5.BitLength(n)) == 8 * n % 0x1_0000_0000_0000_0000
  {
    var low, q := 8 * n % 0x1_0000_0000, 8 * n / 0x1_0000_0000;
    var w := Md5.BitLength(n);
    NumOfWord(low);
    NumOfWord(q % 0x1_0000_0000);
    TypeOrder.NumJoins(w, 4);
    assert w[..4] == LE32(low) && w[4..] == LE32(q % 0x1_0000_0000);
    Pow4();
    TwoWords(8 * n, low, q, q % 0x1_0000_0000, q / 0x1_0000_0000);
  }

  lemma TwoWords(x: nat, low: nat, q: nat, high: nat, over: nat)
    requires x == low + 0x1_0000_0000 * q && low < 0x1_0000_0000 && q == high + 0x1_0000_0000 * over && high < 0x1_0000_0000
    ensures low + 0x1_0000_0000 * high == x % 0x1_0000_0000_0000_0000
  {
    assert x == (low + 0x1_0000_0000 * high) + 0x1_0000_0000_0000_0000 * over;
  }

  /**
   Sections 3.1 and 3.2: the message, a one bit, as few zeros as bring it to 8 bytes less than a multiple of
   64, and 8 times its length, in 8 bytes, low-order byte first.
   */
  lemma {:induction false} Md5Padding(m: seq<byte>)
    ensures var p := Md5.Padded(m);
      && |p| % 64 == 0 && |m| + 9 <= |p| < |m| + 9 + 64
      && p[..|m|] == m && p[|m|] == 0x80 && (forall i :: |m| < i < |p| - 8 ==> p[i] == 0)
      && Num(p[|p| - 8..]) == 8 * |m| % 0x1_0000_0000_0000_0000
  {
    var p, g, n := Md5.Padded(m), Md5.Gap(|m|), |m|;
    Md5.RemIs(|p|);
    AllZeros(g);
    LengthIs(n);
    assert p == m + [0x80] + Md5.Zeros(g) + Md5.BitLength(n);
    assert p[|p| - 8..] == Md5.BitLength(n);
    assert forall i :: n < i < |p| - 8 ==> p[i] == Md5.Zeros(g)[i - n - 1];
  }

  // ---------------------------------------------------------------- hexadecimal digits and escapes (RFC 8259)

  /** 0 to 9, a to f; and with capitals. */
  const DIGITS: seq<byte> := [48, 49, 50, 51, 52, 53, 54, 55, 56, 57, 97, 98, 99, 100, 101, 102]
  const CAPITALS: seq<byte> := [48, 49, 50, 51, 52, 53, 54, 55, 56, 57, 65, 66, 67, 68, 69, 70]

  /** The value of a hexadecimal digit, in either case, is its place; the small ones are written. */
  lemma {:induction false} HexDigits(n: nat)
    requires n < 16
    ensures JsonString.HexValue(DIGITS[n]) == Some(n) == JsonString.HexValue(CAPITALS[n])
    ensures JsonString.HexDigit(n) == DIGITS[n]
  {
  }

  predicate IsDigit(c: byte, n: nat) {
    n < 16 && (c == DIGITS[n] || c == CAPITALS[n])
  }

  lemma {:induction false} DigitValue(n: nat, c: byte)
    requires IsDigit(c, n)
    ensures n < 16 && JsonString.HexValue(c) == Some(n)
  {
    HexDigits(n);
  }

  /** Nothing else is one. */
  lemma {:induction false} NoOtherDigits(c: byte)
    ensures JsonString.HexValue(c).Some? ==> c in DIGITS || c in CAPITALS
  {
    if 48 <= c <= 57 {
      assert c == DIGITS[c - 48];
    } else if 97 <= c <= 102 {
      assert c == DIGITS[c - 87];
    } else if 65 <= c <= 70 {
      assert c == CAPITALS[c - 55];
    }
  }

  /** Section 7: `u` and four digits, of either case, stand for the code point they write, read as UTF-8. */
  lemma {:induction false} CodePoint(a: nat, b: nat, c: nat, d: nat, t: seq<byte>, rest: seq<byte>)
    requires |t| == 4 && IsDigit(t[0], a) && IsDigit(t[1], b) && IsDigit(t[2], c) && IsDigit(t[3], d)
    ensures a < 16 && b < 16 && c < 16 && d < 16
    ensures JsonString.Unescaped([117] + t + rest) == Some((JsonString.Utf8(4096 * a + 256 * b + 16 * c + d), rest))
  {
    DigitValue(a, t[0]);
    DigitValue(b, t[1]);
    DigitValue(c, t[2]);
    DigitValue(d, t[3]);
    FourDigits(a, b, c, d, t, rest);
  }

  lemma {:induction false} FourDigits(a: nat, b: nat, c: nat, d: nat, t: seq<byte>, rest: seq<byte>)
    requires |t| == 4 && a < 16 && b < 16 && c < 16 && d < 16
    requires JsonString.HexValue(t[0]) == Some(a) && JsonString.HexValue(t[1]) == Some(b)
    requires JsonString.HexValue(t[2]) == Some(c) && JsonString.HexValue(t[3]) == Some(d)
    ensures JsonString.Unescaped([117] + t + rest) == Some((JsonString.Utf8(4096 * a + 256 * b + 16 * c + d), rest))
  {
    JsonString.UnitIsUtf8(16 * a + b, 16 * c + d);
    ReadDigits(16 * a + b, 16 * c + d, t, rest);
  }

  lemma {:induction false} ReadDigits(first: byte, second: byte, t: seq<byte>, rest: seq<byte>)
    requires |t| == 4 && JsonString.Hex4(t) == Some((first, second))
    ensures JsonString.Unescaped([117] + t + rest) == Some((JsonString.Unit(first, second), rest))
  {
    var s := [117] + t + rest;
    var u := s[1..];
    assert u[0] == t[0] && u[1] == t[1] && u[2] == t[2] && u[3] == t[3];
    assert s[5..] == rest;
  }

  /** UTF-8 of a code point below 2^16 (section 3 of RFC 3629): é is two bytes, the euro sign three. */
  lemma Utf8Samples()
    ensures JsonString.Utf8(0x7A) == [0x7A] && JsonString.Utf8(0xE9) == [0xC3, 0xA9] && JsonString.Utf8(0x20AC) == [0xE2, 0x82, 0xAC]
  {
  }

  /** What is written after a backslash (92): quote and backslash themselves, a letter, or a code point. */
  lemma {:induction false} Escapes(c: byte)
    ensures c == 34 || c == 92 ==> JsonString.EscapeByte(c, false) == [92, c]
    ensures JsonString.EscapeByte(8, false) == [92, 98] && JsonString.EscapeByte(9, false) == [92, 116]
    ensures JsonString.EscapeByte(10, false) == [92, 110] && JsonString.EscapeByte(12, false) == [92, 102]
    ensures JsonString.EscapeByte(13, false) == [92, 114]
    ensures c < 32 && c !in {8, 9, 10, 12, 13} ==> JsonString.EscapeByte(c, false) == [92, 117, 48, 48, DIGITS[c / 16], DIGITS[c % 16]]
    ensures 32 <= c && c != 34 && c != 92 ==> JsonString.EscapeByte(c, false) == [c]
    ensures JsonString.EscapeByte(c, true) == if c == 47 then [92, 47] else JsonString.EscapeByte(c, false)
  {
    if c < 32 {
      HexDigits(c / 16);
      HexDigits(c % 16);
    }
  }

  /** What they are read as; any other letter stands for itself, but an `x` (120) or a digit is refused. */
  lemma {:induction false} Unescapes(c: byte, rest: seq<byte>)
    ensures JsonString.Unescaped([98] + rest) == Some(([8], rest)) && JsonString.Unescaped([116] + rest) == Some(([9], rest))
    ensures JsonString.Unescaped([110] + rest) == Some(([10], rest)) && JsonString.Unescaped([102] + rest) == Some(([12], rest))
    ensures JsonString.Unescaped([114] + rest) == Some(([13], rest)) && JsonString.Unescaped([118] + rest) == Some(([11], rest))
    ensures c !in {98, 102, 110, 114, 116, 117, 118, 120} && !(48 <= c <= 57) ==> JsonString.Unescaped([c] + rest) == Some(([c], rest))
    ensures c == 120 || 48 <= c <= 57 ==> JsonString.Unescaped([c] + rest) == None
  {
    assert ([98] + rest)[1..] == rest && ([116] + rest)[1..] == rest && ([110] + rest)[1..] == rest;
    assert ([102] + rest)[1..] == rest && ([114] + rest)[1..] == rest && ([118] + rest)[1..] == rest;
    assert ([c] + rest)[1..] == rest;
  }

  /** Inside a string: control characters are refused, the quote ends it, any other byte stands for itself; it has to end. */
  lemma {:induction false} InString(c: byte, rest: seq<byte>)
    ensures JsonString.Inside([], 34) == None && JsonString.Inside([34] + rest, 34) == Some(([], rest))
    ensures c < 32 ==> JsonString.Inside([c] + rest, 34) == None
    ensures 32 <= c && c != 34 && c != 92 && JsonString.Inside(rest, 34).Some? ==>
      JsonString.Inside([c] + rest, 34) == Some(([c] + JsonString.Inside(rest, 34).value.0, JsonString.Inside(rest, 34).value.1))
  {
    assert ([c] + rest)[1..] == rest && ([34] + rest)[1..] == rest;
  }

  // ---------------------------------------------------------------- JSON values (RFC 8259)

  /** Numbers are decimal, most significant digit first. */
  lemma {:induction false} Decimals()
    ensures Json.PrintInt(0) == [48] && Json.PrintInt(305) == [51, 48, 53] && Json.PrintInt(-42) == [45, 52, 50]
    ensures LexNum.Value([48, 51, 48, 53]) == 305
  {
    assert Json.Decimal(3) == [51] && Json.Decimal(30) == [51, 48];
    assert [48, 51, 48, 53][..3] == [48, 51, 48] && [48, 51, 48][..2] == [48, 51] && [48, 51][..1] == [48] && [48][..0] == [];
  }

  lemma {:induction false} ReadsDigits(d: seq<byte>, rest: seq<byte>)
    requires LexNum.Digits(d) && 0 < |d| < 19 && (rest != [] ==> !LexNum.IsNumber(rest[0]))
    ensures Json.ParseDigits(d + rest) == Some((LexNum.Value(d), rest)) && LexNum.Value(d) < 0x8000_0000_0000_0000
  {
    var t := d + rest;
    assert forall i :: 0 <= i < |d| ==> t[i] == d[i];
    LexNum.RunIs(t, |d|);
    LexNum.ValueBounds(d);
    LexNum.PowGrows(|d|, 18);
    Json.Pow19();
    assert LexNum.Pow10(19) == 10 * LexNum.Pow10(18);
    assert t[..|d|] == d && t[|d|..] == rest;
  }

  /** No more than 19 digits are read. */
  lemma {:induction false} NineteenDigits(d: seq<byte>, rest: seq<byte>)
    requires LexNum.Digits(d) && |d| == 19
    ensures Json.ParseDigits(d + rest) == Some((LexNum.Value(d), rest))
  {
    var t := d + rest;
    var n := LexNum.DigitRun(t);
    assert forall i :: 0 <= i < 19 ==> t[i] == d[i];
    assert t[..19] == d && t[19..] == rest;
  }

  /** An integer is read with a sign or without one, as many digits as there are up to 19, if it fits a long long. */
  lemma {:induction false} ReadsInteger(d: seq<byte>, rest: seq<byte>)
    requires LexNum.Digits(d) && 0 < |d| < 19 && (rest != [] ==> !LexNum.IsNumber(rest[0]))
    ensures Json.ParseInteger(d + rest) == Some((LexNum.Value(d), rest)) == Json.ParseInteger([43] + d + rest)
    ensures var n: int := LexNum.Value(d);
      Json.ParseInteger([45] + d + rest) == Some((0 - n, rest))
  {
    var t := d + rest;
    ReadsDigits(d, rest);
    assert t[0] == d[0];
    assert [43] + d + rest == [43] + t && [45] + d + rest == [45] + t;
    assert ([43] + t)[1..] == t && ([45] + t)[1..] == t;
  }

  /** What counts as space: tab, line feed, vertical tab, form feed, carriage return, space. */
  lemma Spaces(c: byte)
    ensures Json.IsSpace(c) <==> c in {9, 10, 11, 12, 13, 32}
  {
  }

  /** Names that are not names of fields: $oid, $binary, $type, $date, $regex, $options. */
  lemma Reserved(name: seq<byte>)
    ensures Json.Reserved(name) <==> name != [] && name[0] == 36 && name[1..] in {
      [111, 105, 100], [98, 105, 110, 97, 114, 121], [116, 121, 112, 101], [100, 97, 116, 101],
      [114, 101, 103, 101, 120], [111, 112, 116, 105, 111, 110, 115] }
  {
    if name != [] {
      assert name == [name[0]] + name[1..];
    }
  }

  /** Section 3: true, false and null. */
  lemma {:induction false} Words(b: byte)
    ensures Json.PrintValue(Bson.Raw(8, [b]), 0) == if b == 0 then [102, 97, 108, 115, 101] else [116, 114, 117, 101]
    ensures Json.PrintValue(Bson.Raw(10, []), 0) == [110, 117, 108, 108]
  {
  }

  /** A member: the name in quotes, a colon with a space on either side, the value. */
  lemma {:induction false} Member(n: seq<byte>, v: Bson.Value)
    requires Json.PrintableDoc([Bson.Field(n, v)])
    ensures Json.Printable(v)
    ensures Json.PrintMember(Bson.Field(n, v), 0) == [34] + JsonString.Escaped(n, false) + [34, 32, 58, 32] + Json.PrintValue(v, 0)
  {
    assert Json.PrintMember(Bson.Field(n, v), 0) == Json.Quoted(n) + [32, 58, 32] + Json.PrintValue(v, 0);
    assert Json.Quoted(n) + [32, 58, 32] == [34] + JsonString.Escaped(n, false) + [34, 32, 58, 32];
  }

  /** An object on one line: members between braces, a comma and a space between them. */
  lemma {:induction false} TwoMembers(f: Bson.Field, g: Bson.Field)
    requires Json.PrintableDoc([f]) && Json.PrintableDoc([g])
    ensures Json.PrintableDoc([f, g]) && Json.PrintDoc([], 0) == [123, 125]
    ensures Json.PrintDoc([f, g], 0) == [123, 32] + Json.PrintMember(f, 0) + [44, 32] + Json.PrintMember(g, 0) + [32, 125]
  {
    assert [f, g][1..] == [g];
    assert Json.PrintMembers([g], 0) == Json.PrintMember(g, 0) + [] == Json.PrintMember(g, 0);
    assert Json.PrintMembers([f, g], 0) == Json.PrintMember(f, 0) + ([44] + [32] + Json.PrintMember(g, 0));
  }

  /** An array on one line. */
  lemma {:induction false} TwoElements(n: seq<byte>, v: Bson.Value, m: seq<byte>, w: Bson.Value)
    requires Json.Printable(v) && Json.Printable(w)
    ensures Json.PrintableList([Bson.Field(n, v), Bson.Field(m, w)])
    ensures Json.PrintList([Bson.Field(n, v), Bson.Field(m, w)], 0) ==
      [91, 32] + Json.PrintValue(v, 0) + [44, 32] + Json.PrintValue(w, 0) + [32, 93]
    ensures Json.PrintList([], 0) == [91, 93]
  {
    var f, g := Bson.Field(n, v), Bson.Field(m, w);
    assert [f, g][1..] == [g];
    assert Json.PrintElements([g], 0) == [] + Json.PrintValue(w, 0) + [] == Json.PrintValue(w, 0);
    assert Json.PrintElements([f, g], 0) == [] + Json.PrintValue(v, 0) + ([44, 32] + Json.PrintValue(w, 0));
  }

  /** Pretty printing breaks lines, two spaces deeper at each level, before the members but the first and before every element. */
  lemma {:induction false} Indented(f: Bson.Field, g: Bson.Field)
    requires Json.PrintableDoc([f]) && Json.PrintableDoc([g])
    ensures Json.PrintableDoc([f, g]) && Json.PrintableList([f])
    ensures Json.PrintDoc([f, g], 2) == [123, 32] + Json.PrintMember(f, 2) + [44, 10, 32, 32, 32, 32] + Json.PrintMember(g, 2) + [32, 125]
    ensures Json.PrintList([f], 2) == [91, 32] + ([10, 32, 32, 32, 32] + Json.PrintValue(f.value, 3)) + [32, 93]
    ensures Json.Deeper(0) == 0
  {
    Break2();
    assert [f, g][1..] == [g];
    assert Json.PrintMembers([g], 2) == Json.PrintMember(g, 2) + [] == Json.PrintMember(g, 2);
    assert Json.PrintMembers([f, g], 2) == Json.PrintMember(f, 2) + ([44] + [10, 32, 32, 32, 32] + Json.PrintMember(g, 2));
    assert Json.PrintElements([f], 2) == [10, 32, 32, 32, 32] + Json.PrintValue(f.value, 3) + [];
  }

  lemma {:induction false} Break2()
    ensures Json.Break(2) == [10, 32, 32, 32, 32]
  {
    assert Json.Spaces(2) == [32, 32];
    assert Json.Spaces(3) == [32, 32, 32];
    assert Json.Spaces(4) == [32, 32, 32, 32];
  }

  /** A name without quotes starts with a letter, a dollar sign or an underscore, and goes on with these and digits. */
  lemma {:induction false} BareName(t: seq<byte>, rest: seq<byte>)
    requires t != [] && !(48 <= t[0] <= 57)
    requires forall i :: 0 <= i < |t| ==> 65 <= t[i] <= 90 || 97 <= t[i] <= 122 || t[i] in {36, 95} || 48 <= t[i] <= 57
    requires rest != [] ==> !(65 <= rest[0] <= 90 || 97 <= rest[0] <= 122 || rest[0] in {36, 95} || 48 <= rest[0] <= 57)
    ensures Json.ParseName(t + rest) == Some((t, rest))
  {
    NameRuns(t, rest);
    assert (t + rest)[..|t|] == t && (t + rest)[|t|..] == rest;
  }

  lemma {:induction false} NameRuns(t: seq<byte>, rest: seq<byte>)
    requires forall i :: 0 <= i < |t| ==> Json.NameStart(t[i]) || 48 <= t[i] <= 57
    requires rest != [] ==> !(Json.NameStart(rest[0]) || 48 <= rest[0] <= 57)
    ensures Json.NameRun(t + rest) == |t|
  {
    if t == [] {
      assert t + rest == rest;
    } else {
      assert (t + rest)[1..] == t[1..] + rest;
      NameRuns(t[1..], rest);
    }
  }

  // ---------------------------------------------------------------- BSON (bsonspec.org)

  /** The types by their numbers, and the sizes of those of one size. */
  lemma {:induction false} Types(tag: byte)
    ensures Bson.FixedSize(tag) ==
      if tag in {6, 10, 127, 255} then Some(0) else if tag == 8 then Some(1) else if tag == 16 then Some(4)
      else if tag in {1, 9, 17, 18} then Some(8) else if tag == 7 then Some(12) else None
    ensures Bson.IsStr(tag) <==> tag in {2, 13, 14}
    ensures Bson.IsDoc(tag) <==> tag in {3, 4}
    ensures forall t, d :: Bson.Tag(Bson.Bin(t, d)) == 5
    ensures forall a, b :: Bson.Tag(Bson.Regex(a, b)) == 11
    ensures forall n, o :: Bson.Tag(Bson.Ref(n, o)) == 12
    ensures forall c, d :: Bson.Tag(Bson.Scoped(c, d)) == 15
  {
  }

  lemma {:induction false} SizeIs(n: byte)
    ensures Bson.W(n) == [n, 0, 0, 0]
  {
    WordIs(n, 0, 0, 0, n);
  }

  lemma {:induction false} OneField(f: Bson.Field)
    ensures Bson.EncodeFields([f]) == Bson.EncodeField(f)
  {
    assert [f][1..] == [];
    assert Bson.EncodeFields([f]) == Bson.EncodeField(f) + [];
  }

  /** {"hello": "world"}, from the samples of bsonspec.org. */
  lemma {:induction false} HelloWorld()
    ensures var hello: seq<byte>, world: seq<byte> := [104, 101, 108, 108, 111], [119, 111, 114, 108, 100];
      Bson.EncodeDoc([Bson.Field(hello, Bson.Str(2, world))]) ==
      [0x16, 0, 0, 0, 0x02] + hello + [0, 6, 0, 0, 0] + world + [0, 0]
  {
    var hello: seq<byte>, world: seq<byte> := [104, 101, 108, 108, 111], [119, 111, 114, 108, 100];
    var f := Bson.Field(hello, Bson.Str(2, world));
    OneField(f);
    SizeIs(6);
    SizeIs(0x16);
    assert Bson.EncodeField(f) == [2] + hello + [0] + ([6, 0, 0, 0] + (world + [0]));
  }

  /** An int, an object id or a boolean: type, name, bytes; least significant byte first. */
  lemma {:induction false} Year()
    ensures Bson.EncodeField(Bson.Field([50], Bson.Raw(16, Json.IntRaw(1986)))) == [0x10, 0x32, 0, 0xC2, 0x07, 0, 0]
  {
    WordIs(0xC2, 0x07, 0, 0, 1986);
  }

  /** Binary data: its length, the subtype, the bytes. A regular expression: two strings that end in a zero. */
  lemma {:induction false} DataAndRegex()
    ensures Bson.EncodeValue(Bson.Bin(0x80, [1, 2, 3])) == [3, 0, 0, 0, 0x80, 1, 2, 3]
    ensures Bson.EncodeValue(Bson.Regex([97], [105, 109])) == [97, 0, 105, 109, 0]
  {
    SizeIs(3);
    assert Bson.CString([97]) == [97, 0] && Bson.CString([105, 109]) == [105, 109, 0];
  }

  /** A reference: the name as a string, the object id. */
  lemma {:induction false} Reference(oid: seq<byte>)
    ensures Bson.EncodeValue(Bson.Ref([97, 98], oid)) == [3, 0, 0, 0, 97, 98, 0] + oid
  {
    SizeIs(3);
    assert Bson.CString([97, 98]) == [97, 98, 0];
  }

  lemma {:induction false} NoFields()
    ensures Bson.EncodeDoc([]) == [5, 0, 0, 0, 0]
  {
    SizeIs(5);
  }

  /** Code with scope: the size of all, the code as a string, the scope as an object. */
  lemma {:induction false} CodeWithScope()
    ensures Bson.EncodeValue(Bson.Scoped([120], [])) == [15, 0, 0, 0, 2, 0, 0, 0, 120, 0, 5, 0, 0, 0, 0]
  {
    SizeIs(2);
    SizeIs(15);
    NoFields();
    assert Bson.CString([120]) == [120, 0];
    assert [15, 0, 0, 0] + [2, 0, 0, 0] + [120, 0] + [5, 0, 0, 0, 0] == [15, 0, 0, 0, 2, 0, 0, 0, 120, 0, 5, 0, 0, 0, 0];
  }

  /** The words of an int and of a long are those of the integer in two's complement. */
  lemma {:induction false} Integers(m: int)
    ensures -0x8000_0000 <= m < 0x8000_0000 ==> TypeOrder.TwosComplement(Json.IntRaw(m)) == m
    ensures Json.FitsLong(m) ==> TypeOrder.TwosComplement(Json.LongRaw(m)) == m
  {
    if -0x8000_0000 <= m < 0x8000_0000 {
      TypeOrder.IntIs(Json.IntRaw(m));
    }
    if Json.FitsLong(m) {
      var low, high := Json.Unsigned(m) % 0x1_0000_0000, Json.Unsigned(m) / 0x1_0000_0000;
      var raw := Json.LongRaw(m);
      SameWord(raw, 0, LE32(low), 0);
      SameWord(raw, 4, LE32(high), 0);
      TypeOrder.LongIs(raw);
    }
  }

  lemma {:induction false} IntegerBytes()
    ensures Json.IntRaw(-2) == [0xFE, 0xFF, 0xFF, 0xFF] && Json.IntRaw(1) == [1, 0, 0, 0]
  {
    WordIs(0xFE, 0xFF, 0xFF, 0xFF, 0xFFFF_FFFE);
    WordIs(1, 0, 0, 0, 1);
  }

  /** In a key pattern an int or a long descends exactly if it is negative. */
  lemma {:induction false} NegativeDescends(m: int)
    ensures -0x8000_0000 <= m < 0x8000_0000 ==> (Ordering.Descends(Bson.Raw(16, Json.IntRaw(m))) <==> m < 0)
    ensures Json.FitsLong(m) ==> (Ordering.Descends(Bson.Raw(18, Json.LongRaw(m))) <==> m < 0)
  {
    Integers(m);
  }

  /** Bit 0 of a mask is its lowest, bit 31 its highest; each is twice the one before. */
  lemma {:induction false} MaskBits(i: nat)
    ensures Ordering.Bit(0) == 1 && Ordering.Bit(31) == 0x8000_0000 && Ordering.Bit(i + 1) == Ordering.Bit(i) << 1
  {
    Ordering.TopBit();
    Ordering.NextBit(i, i + 1);
  }

  // ---------------------------------------------------------------- base64 (RFC 4648)

  /** Table 1 of section 4: A (65) from 0 on, a (97) from 26 on, 0 (48) from 52 on, each letter followed by the next; + and /. */
  lemma Letters(x: Base64.octet)
    ensures var e := Base64.STANDARD.e;
      e(0) == 65 && e(26) == 97 && e(52) == 48 && e(62) == 43 && e(63) == 47 && Base64.PAD == 61
    ensures x < 25 || 26 <= x < 51 || 52 <= x < 61 ==> Base64.STANDARD.e(x + 1) == Base64.STANDARD.e(x) + 1
  {
  }

  /** Section 10: "", "f", "fo", "foo". */
  lemma {:induction false} Foo()
    ensures Base64.Encode(Base64.STANDARD, []) == []
    ensures Base64.Encode(Base64.STANDARD, [102]) == [90, 103, 61, 61]
    ensures Base64.Encode(Base64.STANDARD, [102, 111]) == [90, 109, 56, 61]
    ensures Base64.Encode(Base64.STANDARD, [102, 111, 111]) == [90, 109, 57, 118]
  {
    assert Base64.Encode(Base64.STANDARD, []) == [];
    var foo: seq<Base64.octet> := [102, 111, 111];
    assert foo[3..] == [];
  }

  // ---------------------------------------------------------------- limits

  /** A buffer starts with 512 bytes and doubles; where that is not enough it gets the bytes asked for and 16 KB. */
  lemma Growth(size: nat, l: nat)
    requires 0 < size
    ensures BsonBuild.Capacity(0, l) == if l <= 512 then 512 else l + 16 * 1024
    ensures BsonBuild.Capacity(size, l) == if l <= 2 * size then 2 * size else l + 16 * 1024
  {
  }

  /** BSONObjMaxInternalSize, BufferMaxSize, the pages of a segment, the buckets of the index, maxLoops. */
  lemma Limits()
    ensures MAX_INTERNAL == 16 * 1024 * 1024 + 16 * 1024 && BsonBuild.BUFFER_MAX == 64 * 1024 * 1024
    ensures Dms.PAGES_PER_SEGMENT == 32 && Index.BUCKETS == 1000 && LexNum.MAX_LOOPS == 1024 * 1024
  {
  }
}
