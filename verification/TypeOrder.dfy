/** The order of elements, said of type numbers, integers and bytes. */
module TypeOrder {
  import opened Bytes
  import opened Bson
  import opened Order
  import opened WoCompare

  // ---------------------------------------------------------------- between types

  /**
   The types in order: the least key; undefined; null; numbers; strings and symbols; objects; arrays;
   binary data; object ids; booleans; dates and timestamps; regular expressions; references; code; code
   with scope; the greatest key.
   */
  const TYPES: seq<seq<byte>> := [
    [255], [6], [10], [1, 16, 18], [2, 14], [3], [4], [5], [7], [8], [9, 17], [11], [12], [13], [15], [127]
  ]

  ghost predicate InPlace(v: Value, i: nat) {
    i < |TYPES| && Tag(v) in TYPES[i]
  }

  lemma {:induction false} EveryTypeIsIn(v: Value) returns (i: nat)
    requires ValueOk(v)
    ensures InPlace(v, i)
  {
    var t := Tag(v);
    i := if t == 255 then 0 else if t == 6 then 1 else if t == 10 then 2 else if t == 1 || t == 16 || t == 18 then 3
         else if t == 2 || t == 14 then 4 else if t == 3 then 5 else if t == 4 then 6 else if t == 5 then 7
         else if t == 7 then 8 else if t == 8 then 9 else if t == 9 || t == 17 then 10 else if t == 11 then 11
         else if t == 12 then 12 else if t == 13 then 13 else if t == 15 then 14 else 15;
  }

  lemma {:induction false} RankIs(v: Value, i: nat)
    requires InPlace(v, i)
    ensures i < 16 && CanonicalType(Tag(v)) == if i == 0 then -1 else if i == 15 then 127 else 5 * (i - 1)
  {
  }

  /** Fields whose types have different places compare as the places, whatever their names and values. */
  lemma {:induction false} TypesDecide(l: Field, i: nat, r: Field, j: nat, names: bool, d: Rounding)
    requires ValueOk(l.value) && ValueOk(r.value) && NoDouble(l.value) && NoDouble(r.value)
    requires InPlace(l.value, i) && InPlace(r.value, j) && i != j
    ensures Sign(CompareElements(l, r, names, d)) == if i < j then -1 else 1
  {
    RankIs(l.value, i);
    RankIs(r.value, j);
  }

  /** Fields whose types have the same place compare by name, if names count, and then by value. */
  lemma {:induction false} NameThenValue(l: Field, r: Field, i: nat, names: bool, d: Rounding)
    requires ValueOk(l.value) && ValueOk(r.value) && NoDouble(l.value) && NoDouble(r.value)
    requires InPlace(l.value, i) && InPlace(r.value, i)
    ensures CanonicalType(Tag(l.value)) == CanonicalType(Tag(r.value))
    ensures names && Shown(l.name) != Shown(r.name) ==>
      Sign(CompareElements(l, r, names, d)) == if Before(Shown(l.name), Shown(r.name)) then -1 else 1
    ensures !names || Shown(l.name) == Shown(r.name) ==> CompareElements(l, r, names, d) == CompareValues(l.value, r.value, d)
  {
    RankIs(l.value, i);
    RankIs(r.value, i);
    StringsBefore(l.name, r.name);
  }

  // ---------------------------------------------------------------- bytes and strings

  /** At the first difference the one has the smaller byte, or it ends there and the other does not. */
  ghost predicate Before(a: seq<byte>, b: seq<byte>) {
    exists k: nat :: DiffersAt(a, b, k) && (k == |a| || (k < |b| && a[k] < b[k]))
  }

  ghost predicate DiffersAt(a: seq<byte>, b: seq<byte>, k: nat) {
    && k <= |a| && k <= |b| && !(k == |a| == |b|) && (k < |a| && k < |b| ==> a[k] != b[k])
    && forall i: nat :: i < k ==> a[i] == b[i]
  }

  lemma {:induction false} FirstDifference(a: seq<byte>, b: seq<byte>) returns (k: nat)
    requires a != b
    ensures DiffersAt(a, b, k)
    ensures CmpBytes(a, b) == if k == |a| || (k < |b| && a[k] < b[k]) then -1 else 1
  {
    if a == [] || b == [] || a[0] != b[0] {
      k := 0;
    } else {
      var x, y := a[1..], b[1..];
      assert a == [a[0]] + x && b == [b[0]] + y;
      k := FirstDifference(x, y);
      forall i: nat | i < k + 1
        ensures a[i] == b[i]
      {
        assert i > 0 ==> x[i - 1] == y[i - 1];
      }
      k := k + 1;
    }
  }

  lemma {:induction false} OnlyOne(a: seq<byte>, b: seq<byte>, k: nat, n: nat)
    requires DiffersAt(a, b, k) && DiffersAt(a, b, n)
    ensures k == n
  {
  }

  /** The comparison of bytes is by their first difference, as unsigned numbers. */
  lemma {:induction false} BytesBefore(a: seq<byte>, b: seq<byte>)
    ensures CmpBytes(a, b) == if a == b then 0 else if Before(a, b) then -1 else 1
    ensures a != b ==> Before(a, b) != Before(b, a)
  {
    if a == b {
      Same(a);
    } else {
      var k := FirstDifference(a, b);
      forall n: nat | DiffersAt(a, b, n) || DiffersAt(b, a, n)
        ensures n == k
      {
        assert DiffersAt(a, b, n);
        OnlyOne(a, b, n, k);
      }
      assert DiffersAt(b, a, k);
    }
  }

  lemma {:induction false} Same(a: seq<byte>)
    ensures CmpBytes(a, a) == 0
  {
    if a != [] {
      Same(a[1..]);
    }
  }

  /** What a string shows: the bytes in front of its first zero byte, or all if there is none. */
  ghost function Shown(s: seq<byte>): (t: seq<byte>)
    ensures t <= s && (forall i :: 0 <= i < |t| ==> t[i] != 0) && (|t| < |s| ==> s[|t|] == 0)
  {
    if s == [] || s[0] == 0 then [] else [s[0]] + Shown(s[1..])
  }

  lemma {:induction false} CutShows(s: seq<byte>)
    ensures Cut(s) == Shown(s)
  {
    if s != [] && s[0] != 0 {
      CutShows(s[1..]);
      assert s == [s[0]] + s[1..];
    }
  }

  lemma {:induction false} StringsBefore(a: seq<byte>, b: seq<byte>)
    ensures StrCmp(a, b) == if Shown(a) == Shown(b) then 0 else if Before(Shown(a), Shown(b)) then -1 else 1
  {
    CutShows(a);
    CutShows(b);
    BytesBefore(Shown(a), Shown(b));
  }

  // ---------------------------------------------------------------- within a type

  /** Least significant byte first, in two's complement. */
  function TwosComplement(raw: seq<byte>): int {
    if raw == [] || raw[|raw| - 1] < 128 then Num(raw) else Num(raw) - Pow256(|raw|)
  }

  lemma {:induction false} Top(raw: seq<byte>)
    requires raw != []
    ensures Num(raw) == Num(raw[..|raw| - 1]) + Pow256(|raw| - 1) * raw[|raw| - 1]
  {
    if |raw| > 1 {
      Top(raw[1..]);
      assert raw[1..][..|raw| - 2] == raw[..|raw| - 1][1..];
    }
  }

  lemma {:induction false} TopBitIs(raw: seq<byte>, half: nat)
    requires raw != [] && Pow256(|raw|) == 2 * half && Pow256(|raw|) == 256 * Pow256(|raw| - 1)
    ensures raw[|raw| - 1] < 128 <==> Num(raw) < half
  {
    var n := |raw| - 1;
    var p := Pow256(n);
    Top(raw);
    NumBound(raw[..n]);
    HighPart(Num(raw[..n]), p, raw[n]);
  }

  lemma {:induction false} HighPart(low: nat, p: nat, high: byte)
    requires low < p
    ensures high < 128 <==> low + p * high < 128 * p
  {
    if high < 128 {
      Times(p, high, 127);
    } else {
      Times(p, 128, high);
    }
  }

  lemma Times(p: nat, a: nat, b: nat)
    requires a <= b
    ensures p * a <= p * b
  {
  }

  lemma Pow8()
    ensures Pow256(8) == 0x1_0000_0000_0000_0000
  {
    assert Pow256(4) == 0x1_0000_0000 by { Pow4(); }
    assert Pow256(6) == 0x1_0000_0000_0000;
  }

  lemma {:induction false} Halves(raw: seq<byte>)
    requires |raw| == 8
    ensures U64(raw) == Num(raw)
  {
    U32Is(raw, 0);
    U32Is(raw, 4);
    NumJoins(raw, 4);
    Pow4();
    assert raw[0..4] == raw[..4] && raw[4..8] == raw[4..];
  }

  lemma Spread(x: nat, a: nat, p: nat, b: nat)
    ensures x + 256 * (a + p * b) == x + 256 * a + 256 * p * b
  {
  }

  lemma {:induction false} NumJoins(raw: seq<byte>, k: nat)
    requires k <= |raw|
    ensures Num(raw) == Num(raw[..k]) + Pow256(k) * Num(raw[k..])
  {
    if k > 0 {
      NumJoins(raw[1..], k - 1);
      assert raw[1..][..k - 1] == raw[..k][1..] && raw[1..][k - 1..] == raw[k..];
      Spread(raw[0], Num(raw[..k][1..]), Pow256(k - 1), Num(raw[k..]));
    } else {
      assert raw[0..] == raw;
    }
  }

  lemma {:induction false} IntIs(raw: seq<byte>)
    requires |raw| == 4
    ensures I32(raw) == TwosComplement(raw)
  {
    U32Is(raw, 0);
    assert raw[0..4] == raw;
    Pow4();
    TopBitIs(raw, 0x8000_0000);
  }

  lemma {:induction false} LongIs(raw: seq<byte>)
    requires |raw| == 8
    ensures I64(raw) == TwosComplement(raw)
  {
    Halves(raw);
    Pow8();
    TopBitIs(raw, 0x8000_0000_0000_0000);
  }

  /** Ints (16) and longs (18) compare as the integers their bytes stand for, whatever their widths. */
  lemma {:induction false} NumbersInOrder(l: Value, r: Value, d: Rounding)
    requires Rounds(d) && ValueOk(l) && ValueOk(r) && l.Raw? && r.Raw? && l.tag in {16, 18} && r.tag in {16, 18}
    ensures NoDouble(l) && NoDouble(r) && CanonicalType(Tag(l)) == CanonicalType(Tag(r))
    ensures Sign(CompareValues(l, r, d)) == Sign(TwosComplement(l.raw) - TwosComplement(r.raw))
  {
    IntegerIs(l);
    IntegerIs(r);
    NumbersCompare(l.tag, l.raw, r.tag, r.raw, d);
  }

  lemma {:induction false} IntegerIs(v: Value)
    requires ValueOk(v) && v.Raw? && v.tag in {16, 18}
    ensures Integer(v.tag, v.raw) == TwosComplement(v.raw)
  {
    if v.tag == 16 {
      IntIs(v.raw);
    } else {
      LongIs(v.raw);
    }
  }

  /** There are such roundings: that which rounds nothing. */
  lemma {:induction false} ExactRounds()
    ensures Rounds((n: int) => n as real)
  {
  }

  /** Dates (9) and timestamps (17) compare as unsigned numbers of eight bytes. */
  lemma {:induction false} DatesInOrder(l: Value, r: Value, d: Rounding)
    requires ValueOk(l) && ValueOk(r) && l.Raw? && r.Raw? && l.tag in {9, 17} && r.tag in {9, 17}
    ensures NoDouble(l) && NoDouble(r) && CanonicalType(Tag(l)) == CanonicalType(Tag(r))
    ensures CompareValues(l, r, d) == Sign(Num(l.raw) - Num(r.raw))
  {
    Halves(l.raw);
    Halves(r.raw);
  }

  /** Booleans (8) compare by their byte, a signed char; so false, 0, comes before true, 1. */
  lemma {:induction false} BoolsInOrder(l: Value, r: Value, d: Rounding)
    requires ValueOk(l) && ValueOk(r) && l.Raw? && r.Raw? && l.tag == 8 && r.tag == 8
    ensures Sign(CompareValues(l, r, d)) == Sign(TwosComplement(l.raw) - TwosComplement(r.raw))
  {
    assert Num(l.raw[1..]) == 0 && Num(r.raw[1..]) == 0 && Pow256(1) == 256;
  }

  /** Values of the types that have but one are equal: least and greatest key, undefined and null. */
  lemma {:induction false} NothingToOrder(l: Value, r: Value, d: Rounding)
    requires ValueOk(l) && ValueOk(r) && l.Raw? && r.Raw? && l.tag == r.tag && l.tag in {255, 6, 10, 127}
    ensures NoDouble(l) && NoDouble(r) && CompareValues(l, r, d) == 0
  {
  }

  /** Object ids (7) compare by their twelve bytes. */
  lemma {:induction false} IdsInOrder(l: Value, r: Value, d: Rounding)
    requires ValueOk(l) && ValueOk(r) && l.Raw? && r.Raw? && l.tag == 7 && r.tag == 7
    ensures CompareValues(l, r, d) == if l.raw == r.raw then 0 else if Before(l.raw, r.raw) then -1 else 1
  {
    BytesBefore(l.raw, r.raw);
  }

  /** Strings (2) and symbols (14), and code (13), compare by what they show. */
  lemma {:induction false} StringsInOrder(l: Value, r: Value, d: Rounding)
    requires l.Str? && r.Str? && ((l.tag in {2, 14} && r.tag in {2, 14}) || (l.tag == 13 && r.tag == 13))
    ensures ValueOk(l) && ValueOk(r) && CanonicalType(Tag(l)) == CanonicalType(Tag(r))
    ensures CompareValues(l, r, d) == if Shown(l.s) == Shown(r.s) then 0 else if Before(Shown(l.s), Shown(r.s)) then -1 else 1
  {
    StringsBefore(l.s, r.s);
  }

  /** Binary data (5): the shorter first, then by subtype, then by the bytes. */
  lemma {:induction false} BinsInOrder(l: Value, r: Value, d: Rounding)
    requires l.Bin? && r.Bin?
    ensures Sign(CompareValues(l, r, d)) ==
      if |l.data| != |r.data| then (if |l.data| < |r.data| then -1 else 1)
      else if l.subtype != r.subtype then (if l.subtype < r.subtype then -1 else 1)
      else if l.data == r.data then 0 else if Before(l.data, r.data) then -1 else 1
  {
    var x, y := [l.subtype] + l.data, [r.subtype] + r.data;
    assert x[1..] == l.data && y[1..] == r.data;
    BytesBefore(l.data, r.data);
  }

  lemma {:induction false} AfterSame(p: seq<byte>, a: seq<byte>, b: seq<byte>)
    ensures CmpBytes(p + a, p + b) == CmpBytes(a, b)
  {
    if p == [] {
      assert p + a == a && p + b == b;
    } else {
      assert (p + a)[1..] == p[1..] + a && (p + b)[1..] == p[1..] + b;
      AfterSame(p[1..], a, b);
    }
  }

  /** References (12): the shorter name first, then by the bytes of the name, then by those of the id. */
  lemma {:induction false} RefsInOrder(l: Value, r: Value, d: Rounding)
    requires ValueOk(l) && ValueOk(r) && l.Ref? && r.Ref?
    ensures Sign(CompareValues(l, r, d)) ==
      if |l.ns| != |r.ns| then (if |l.ns| < |r.ns| then -1 else 1)
      else if l.ns != r.ns then (if Before(l.ns, r.ns) then -1 else 1)
      else if l.oid == r.oid then 0 else if Before(l.oid, r.oid) then -1 else 1
  {
    if |l.ns| == |r.ns| {
      var w := W(|l.ns| + 1);
      var x, y := [0] + l.oid, [0] + r.oid;
      assert EncodeValue(l) == w + (l.ns + x) && EncodeValue(r) == w + (r.ns + y);
      AfterSame(w, l.ns + x, r.ns + y);
      PartsCompare(l.ns, x, r.ns, y);
      AfterSame([0], l.oid, r.oid);
      BytesBefore(l.ns, r.ns);
      BytesBefore(l.oid, r.oid);
    }
  }

  lemma {:induction false} PartsCompare(a: seq<byte>, x: seq<byte>, b: seq<byte>, y: seq<byte>)
    requires |a| == |b|
    ensures CmpBytes(a + x, b + y) == if a == b then CmpBytes(x, y) else CmpBytes(a, b)
  {
    if a == [] {
      assert a + x == x && b + y == y;
    } else {
      assert (a + x)[1..] == a[1..] + x && (b + y)[1..] == b[1..] + y;
      assert a == [a[0]] + a[1..] && b == [b[0]] + b[1..];
      PartsCompare(a[1..], x, b[1..], y);
    }
  }

  /** Regular expressions (11): by the pattern, then by the flags. */
  lemma {:induction false} RegexesInOrder(l: Value, r: Value, d: Rounding)
    requires ValueOk(l) && ValueOk(r) && l.Regex? && r.Regex?
    ensures CompareValues(l, r, d) ==
      if l.pattern != r.pattern then (if Before(l.pattern, r.pattern) then -1 else 1)
      else if l.flags == r.flags then 0 else if Before(l.flags, r.flags) then -1 else 1
  {
    ShowsAll(l.pattern);
    ShowsAll(l.flags);
    ShowsAll(r.pattern);
    ShowsAll(r.flags);
    StringsBefore(l.pattern, r.pattern);
    StringsBefore(l.flags, r.flags);
  }

  lemma {:induction false} ShowsAll(s: seq<byte>)
    requires NulFree(s)
    ensures Shown(s) == s
  {
  }

  /**
   Code with scope (15) without a NUL in the code: by the code, then by what the scope shows as a string,
   the non-zero bytes its size begins with.
   */
  lemma {:induction false} ScopedInOrder(l: Value, r: Value, d: Rounding)
    requires ValueOk(l) && ValueOk(r) && l.Scoped? && r.Scoped? && NulFree(l.code) && NulFree(r.code)
    ensures CompareValues(l, r, d) ==
      if l.code != r.code then (if Before(l.code, r.code) then -1 else 1)
      else
        var x, y := Shown(EncodeDoc(l.scope)), Shown(EncodeDoc(r.scope));
        if x == y then 0 else if Before(x, y) then -1 else 1
  {
    ShowsAll(l.code);
    ShowsAll(r.code);
    ScopeFollows(l.code, l.scope);
    ScopeFollows(r.code, r.scope);
    StringsBefore(l.code, r.code);
    StringsBefore(EncodeDoc(l.scope), EncodeDoc(r.scope));
  }

  lemma {:induction false} ScopeFollows(code: seq<byte>, scope: seq<Field>)
    requires NulFree(code)
    ensures ScopeData(code, scope) == EncodeDoc(scope)
  {
    StrLenIs(code, []);
    assert CString(code) + [] == CString(code);
    assert Cut(CString(code)) == code;
  }

  // ---------------------------------------------------------------- documents

  /** Objects (3), and arrays (4), compare as documents do, names counting. */
  lemma {:induction false} DocsInOrder(l: Value, r: Value, d: Rounding)
    requires ValueOk(l) && ValueOk(r) && NoDouble(l) && NoDouble(r) && l.Doc? && r.Doc? && l.tag == r.tag
    ensures CompareValues(l, r, d) == CompareFields(l.fields, r.fields, Up(), 0, true, d)
  {
  }

  lemma {:induction false} AllOk(fs: seq<Field>, i: nat)
    requires FieldsOk(fs) && NoDoubles(fs) && i < |fs|
    ensures ValueOk(fs[i].value) && NoDouble(fs[i].value)
  {
    if i > 0 {
      AllOk(fs[1..], i - 1);
    }
  }

  /** What is left out are doubles (1), at any depth of objects and arrays. */
  lemma {:induction false} DoublesLeftOut(v: Value, fs: seq<Field>)
    ensures v.Raw? ==> (NoDouble(v) <==> v.tag != 1)
    ensures v.Doc? ==> (NoDouble(v) <==> NoDoubles(v.fields))
    ensures !v.Raw? && !v.Doc? ==> NoDouble(v)
    ensures NoDoubles(fs) <==> forall i :: 0 <= i < |fs| ==> NoDouble(fs[i].value)
  {
    if fs != [] {
      DoublesLeftOut(v, fs[1..]);
      assert forall i :: 0 < i < |fs| ==> fs[i] == fs[1..][i - 1];
    }
  }

  /** How the elements at `i` compare. */
  ghost function AtPlace(l: seq<Field>, r: seq<Field>, i: nat, names: bool, d: Rounding): int
    requires FieldsOk(l) && FieldsOk(r) && NoDoubles(l) && NoDoubles(r) && i < |l| && i < |r|
  {
    AllOk(l, i);
    AllOk(r, i);
    CompareElements(l[i], r[i], names, d)
  }

  /** The first `k` elements of both compare equal. */
  ghost predicate EqualTo(l: seq<Field>, r: seq<Field>, k: nat, names: bool, d: Rounding)
    requires FieldsOk(l) && FieldsOk(r) && NoDoubles(l) && NoDoubles(r)
  {
    k <= |l| && k <= |r| && forall i: nat :: i < k ==> AtPlace(l, r, i, names, d) == 0
  }

  lemma {:induction false} AtTails(l: seq<Field>, r: seq<Field>, i: nat, x: seq<Field>, y: seq<Field>, names: bool, d: Rounding)
    requires FieldsOk(l) && FieldsOk(r) && NoDoubles(l) && NoDoubles(r) && i + 1 < |l| && i + 1 < |r|
    requires x == l[1..] && y == r[1..]
    ensures AtPlace(x, y, i, names, d) == AtPlace(l, r, i + 1, names, d)
  {
    assert x[i] == l[i + 1] && y[i] == r[i + 1];
  }

  lemma {:induction false} HeadsDecide(l: seq<Field>, r: seq<Field>, x: seq<Field>, y: seq<Field>, desc: Pattern, pos: nat, names: bool, d: Rounding)
    requires FieldsOk(l) && FieldsOk(r) && NoDoubles(l) && NoDoubles(r) && l != [] && r != [] && x == l[1..] && y == r[1..]
    ensures CompareFields(l, r, desc, pos, names, d) ==
      var c := AtPlace(l, r, 0, names, d);
      if c == 0 then CompareFields(x, y, desc, pos + 1, names, d) else if desc(pos) then -c else c
  {
  }

  /** Equal first elements are passed over. */
  lemma {:induction false} TailsEqual(l: seq<Field>, r: seq<Field>, x: seq<Field>, y: seq<Field>, k: nat, names: bool, d: Rounding)
    requires FieldsOk(l) && FieldsOk(r) && NoDoubles(l) && NoDoubles(r) && 0 < k && EqualTo(l, r, k, names, d)
    requires x == l[1..] && y == r[1..]
    ensures EqualTo(x, y, k - 1, names, d)
  {
    forall i: nat | i < k - 1
      ensures AtPlace(x, y, i, names, d) == 0
    {
      AtTails(l, r, i, x, y, names, d);
    }
  }

  /** The first elements that differ decide, turned round if their position descends. */
  lemma {:induction false} ElementDecides(l: seq<Field>, r: seq<Field>, desc: Pattern, pos: nat, k: nat, c: int, names: bool, d: Rounding)
    requires FieldsOk(l) && FieldsOk(r) && NoDoubles(l) && NoDoubles(r) && k < |l| && k < |r|
    requires EqualTo(l, r, k, names, d) && AtPlace(l, r, k, names, d) == c != 0
    ensures CompareFields(l, r, desc, pos, names, d) == if desc(pos + k) then -c else c
    decreases k
  {
    var x, y := l[1..], r[1..];
    HeadsDecide(l, r, x, y, desc, pos, names, d);
    if k > 0 {
      PassedOver(l, r, x, y, k, c, names, d);
      ElementDecides(x, y, desc, pos + 1, k - 1, c, names, d);
    }
  }

  lemma {:induction false} PassedOver(l: seq<Field>, r: seq<Field>, x: seq<Field>, y: seq<Field>, k: nat, c: int, names: bool, d: Rounding)
    requires FieldsOk(l) && FieldsOk(r) && NoDoubles(l) && NoDoubles(r) && 0 < k < |l| && k < |r|
    requires EqualTo(l, r, k, names, d) && AtPlace(l, r, k, names, d) == c && x == l[1..] && y == r[1..]
    ensures FieldsOk(x) && FieldsOk(y) && NoDoubles(x) && NoDoubles(y) && AtPlace(l, r, 0, names, d) == 0
    ensures EqualTo(x, y, k - 1, names, d) && AtPlace(x, y, k - 1, names, d) == c
  {
    TailsEqual(l, r, x, y, k, names, d);
    AtTails(l, r, k - 1, x, y, names, d);
  }

  /** If none differ, the one with fewer elements comes first, in either direction. */
  lemma {:induction false} LengthDecides(l: seq<Field>, r: seq<Field>, desc: Pattern, pos: nat, names: bool, d: Rounding)
    requires FieldsOk(l) && FieldsOk(r) && NoDoubles(l) && NoDoubles(r)
    requires EqualTo(l, r, if |l| < |r| then |l| else |r|, names, d)
    ensures CompareFields(l, r, desc, pos, names, d) == Sign(|l| - |r|)
    decreases |l|
  {
    if l != [] && r != [] {
      var x, y := l[1..], r[1..];
      HeadsDecide(l, r, x, y, desc, pos, names, d);
      assert AtPlace(l, r, 0, names, d) == 0;
      TailsEqual(l, r, x, y, if |l| < |r| then |l| else |r|, names, d);
      LengthDecides(x, y, desc, pos + 1, names, d);
    }
  }
}
