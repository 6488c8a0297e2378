/** woCompare and compareElementValues, and the order they come down to when no doubles occur. */
module WoCompare {
  import opened Bytes
  import opened Bson
  import opened Order

  // ---------------------------------------------------------------- the comparison

  function CanonicalType(tag: byte): int {
    if tag == MINKEY then -1
    else if tag == MAXKEY then 127
    else if tag == UNDEFINED then 0
    else if tag == NULL then 5
    else if IsNumber(tag) then 10
    else if tag == STRING || tag == SYMBOL then 15
    else if tag == OBJECT then 20
    else if tag == ARRAY then 25
    else if tag == BINDATA then 30
    else if tag == OID then 35
    else if tag == BOOL then 40
    else if tag == DATE || tag == TIMESTAMP then 45
    else if tag == REGEX then 50
    else if tag == DBREF then 55
    else if tag == CODE then 60
    else 65
  }

  predicate IsNumber(tag: byte) { tag == DOUBLE || tag == INT || tag == LONG }

  function Signed8(b: byte): int { if b < 128 then b else b - 256 }

  function I32(raw: seq<byte>): int
    requires |raw| == 4
  {
    var u: int := U32(raw, 0);
    if u < 0x8000_0000 then u else u - 0x1_0000_0000
  }

  function U64(raw: seq<byte>): nat
    requires |raw| == 8
  {
    U32(raw, 0) as int + 0x1_0000_0000 * U32(raw, 4)
  }

  function I64(raw: seq<byte>): int
    requires |raw| == 8
  {
    if U64(raw) < 0x8000_0000_0000_0000 then U64(raw) else U64(raw) - 0x1_0000_0000_0000_0000
  }

  /** memcmp of blocks of equal length, strcmp of strings: the first difference, as unsigned bytes. */
  function CmpBytes(a: seq<byte>, b: seq<byte>): int {
    if a == [] || b == [] then Sign(|a| - |b|)
    else if a[0] != b[0] then (if a[0] < b[0] then -1 else 1)
    else CmpBytes(a[1..], b[1..])
  }

  /** What a C string shows: all up to the first NUL. */
  function Cut(s: seq<byte>): seq<byte> {
    match StrLen(s) case None => s case Some(k) => s[..k]
  }

  function StrCmp(a: seq<byte>, b: seq<byte>): int { CmpBytes(Cut(a), Cut(b)) }

  /** What codeWScopeScopeData() shows: it starts after the first NUL of the code. */
  function ScopeData(code: seq<byte>, scope: seq<Field>): seq<byte> {
    var m := CString(code) + EncodeDoc(scope);
    m[|Cut(CString(code))|..][1..]
  }

  /** An integer as the double nearest to it, in the rounding of the machine. */
  type Rounding = int -> real

  /** Rounding keeps order, and is exact as far as 2^53. */
  ghost predicate Rounds(d: Rounding) {
    && (forall m, n :: m <= n ==> d(m) <= d(n))
    && (forall n :: -0x20_0000_0000_0000 <= n <= 0x20_0000_0000_0000 ==> d(n) == n as real)
  }

  function Integer(tag: byte, raw: seq<byte>): int
    requires tag == INT || tag == LONG
    requires FixedSize(tag) == Some(|raw|)
  {
    if tag == INT then I32(raw) else I64(raw)
  }

  function SignR(x: real): int { if x < 0.0 then -1 else if x > 0.0 then 1 else 0 }

  /** Two integers of any width: exactly if both are long, else as doubles. */
  function CompareNumbers(lt: byte, l: seq<byte>, rt: byte, r: seq<byte>, d: Rounding): int
    requires (lt == INT || lt == LONG) && (rt == INT || rt == LONG)
    requires FixedSize(lt) == Some(|l|) && FixedSize(rt) == Some(|r|)
  {
    if lt == LONG && rt == LONG then Sign(I64(l) - I64(r))
    else SignR(d(Integer(lt, l)) - d(Integer(rt, r)))
  }

  /** compareElementValues, called with types of equal rank; doubles are not compared here. */
  function CompareValues(l: Value, r: Value, d: Rounding): int
    requires ValueOk(l) && ValueOk(r) && NoDouble(l) && NoDouble(r)
    requires CanonicalType(Tag(l)) == CanonicalType(Tag(r))
    decreases l, 0
  {
    match l
    case Raw(tag, raw) =>
      if tag == BOOL then Signed8(raw[0]) - Signed8(r.raw[0])
      else if tag == TIMESTAMP || tag == DATE then Sign(U64(raw) - U64(r.raw))
      else if tag == INT || tag == LONG then CompareNumbers(tag, raw, r.tag, r.raw, d)
      else if tag == OID then CmpBytes(raw, r.raw)
      else 0
    case Str(_, s) => StrCmp(s, r.s)
    case Doc(_, fields) => CompareFields(fields, r.fields, Up(), 0, true, d)
    case Ref(_, _) =>
      if |EncodeValue(l)| != |EncodeValue(r)| then |EncodeValue(l)| - |EncodeValue(r)|
      else CmpBytes(EncodeValue(l), EncodeValue(r))
    case Bin(subtype, data) =>
      if |data| != |r.data| then |data| - |r.data| else CmpBytes([subtype] + data, [r.subtype] + r.data)
    case Regex(pattern, flags) =>
      if StrCmp(pattern, r.pattern) != 0 then StrCmp(pattern, r.pattern) else StrCmp(flags, r.flags)
    case Scoped(code, scope) =>
      if StrCmp(code, r.code) != 0 then StrCmp(code, r.code)
      else StrCmp(ScopeData(code, scope), ScopeData(r.code, r.scope))
  }

  /** No position descends. */
  function Up(): Pattern { _ => false }

  /** BSONElement::woCompare. */
  function CompareElements(l: Field, r: Field, names: bool, d: Rounding): int
    requires ValueOk(l.value) && ValueOk(r.value) && NoDouble(l.value) && NoDouble(r.value)
    decreases l, 1
  {
    var x := CanonicalType(Tag(l.value)) - CanonicalType(Tag(r.value));
    if x != 0 then x
    else if names && StrCmp(l.name, r.name) != 0 then StrCmp(l.name, r.name)
    else CompareValues(l.value, r.value, d)
  }

  /** BSONObj::woCompare: element by element, each in the direction of its position. */
  function CompareFields(l: seq<Field>, r: seq<Field>, desc: Pattern, pos: nat, names: bool, d: Rounding): int
    requires FieldsOk(l) && FieldsOk(r) && NoDoubles(l) && NoDoubles(r)
    decreases l, 2
  {
    if l == [] then (if r == [] then 0 else -1)
    else if r == [] then 1
    else
      var x := CompareElements(l[0], r[0], names, d);
      var y := if desc(pos) then -x else x;
      if y != 0 then y else CompareFields(l[1..], r[1..], desc, pos + 1, names, d)
  }

  predicate NoDouble(v: Value)
    decreases v, 0
  {
    match v
    case Raw(tag, _) => tag != DOUBLE
    case Doc(_, fields) => NoDoubles(fields)
    case _ => true
  }

  predicate NoDoubles(fs: seq<Field>)
    decreases fs, 1
  {
    fs == [] || (NoDouble(fs[0].value) && NoDoubles(fs[1..]))
  }

  // ---------------------------------------------------------------- the order

  function BytesKey(s: seq<byte>): seq<Key> {
    if s == [] then [] else [I(s[0])] + BytesKey(s[1..])
  }

  /** What a value counts as among values of its rank. */
  function ValueKey(v: Value): Key
    requires ValueOk(v) && NoDouble(v)
    decreases v, 0
  {
    match v
    case Raw(tag, raw) =>
      if tag == BOOL then I(Signed8(raw[0]))
      else if tag == TIMESTAMP || tag == DATE then I(U64(raw))
      else if tag == INT || tag == LONG then I(Integer(tag, raw))
      else if tag == OID then L(BytesKey(raw))
      else I(0)
    case Str(_, s) => L(BytesKey(Cut(s)))
    case Doc(_, fields) => L(FieldKeys(fields, true))
    case Ref(_, _) => L([I(|EncodeValue(v)|), L(BytesKey(EncodeValue(v)))])
    case Bin(subtype, data) => L([I(|data|), L(BytesKey([subtype] + data))])
    case Regex(pattern, flags) => L([L(BytesKey(Cut(pattern))), L(BytesKey(Cut(flags)))])
    case Scoped(code, scope) => L([L(BytesKey(Cut(code))), L(BytesKey(Cut(ScopeData(code, scope))))])
  }

  /** Rank of the type, then the name if names count, then the value. */
  function FieldKey(f: Field, names: bool): Key
    requires ValueOk(f.value) && NoDouble(f.value)
    decreases f, 1
  {
    L([I(CanonicalType(Tag(f.value))), if names then L(BytesKey(Cut(f.name))) else I(0), ValueKey(f.value)])
  }

  function FieldKeys(fs: seq<Field>, names: bool): seq<Key>
    requires FieldsOk(fs) && NoDoubles(fs)
    decreases fs, 2
  {
    if fs == [] then [] else [FieldKey(fs[0], names)] + FieldKeys(fs[1..], names)
  }

  lemma {:induction false} BytesCmp(a: seq<byte>, b: seq<byte>)
    ensures CmpBytes(a, b) == CmpList(BytesKey(a), BytesKey(b))
  {
    if a != [] && b != [] {
      BytesCmp(a[1..], b[1..]);
      assert BytesKey(a)[1..] == BytesKey(a[1..]) && BytesKey(b)[1..] == BytesKey(b[1..]);
    } else {
      assert |BytesKey(a)| == 0 <==> a == [];
      assert |BytesKey(b)| == 0 <==> b == [];
    }
  }

  /** A 32-bit and a 64-bit integer compare as doubles just as they do as integers. */
  lemma {:induction false} NumbersCompare(lt: byte, l: seq<byte>, rt: byte, r: seq<byte>, d: Rounding)
    requires Rounds(d) && (lt == INT || lt == LONG) && (rt == INT || rt == LONG)
    requires FixedSize(lt) == Some(|l|) && FixedSize(rt) == Some(|r|)
    ensures CompareNumbers(lt, l, rt, r, d) == Sign(Integer(lt, l) - Integer(rt, r))
  {
    if lt == INT {
      ExactOnOneSide(Integer(lt, l), Integer(rt, r), d);
    } else if rt == INT {
      ExactOnOneSide(Integer(rt, r), Integer(lt, l), d);
    }
  }

  lemma {:induction false} ExactOnOneSide(m: int, n: int, d: Rounding)
    requires Rounds(d) && -0x8000_0000 <= m < 0x8000_0000
    ensures m < n ==> d(m) < d(n)
    ensures n < m ==> d(n) < d(m)
    ensures m == n ==> d(m) == d(n)
  {
    assert d(m) == m as real && d(m + 1) == (m + 1) as real && d(m - 1) == (m - 1) as real;
    if m < n {
      assert d(m + 1) <= d(n);
    } else if n < m {
      assert d(n) <= d(m - 1);
    }
  }

  lemma {:induction false} RawCompare(l: Value, r: Value, d: Rounding)
    requires Rounds(d) && l.Raw? && r.Raw? && ValueOk(l) && ValueOk(r) && NoDouble(l) && NoDouble(r)
    requires CanonicalType(Tag(l)) == CanonicalType(Tag(r))
    ensures Sign(CompareValues(l, r, d)) == Cmp(ValueKey(l), ValueKey(r))
  {
    if l.tag == INT || l.tag == LONG {
      NumbersCompare(l.tag, l.raw, r.tag, r.raw, d);
    } else if l.tag == OID {
      BytesCmp(l.raw, r.raw);
    }
  }

  lemma {:induction false} RefCompare(l: Value, r: Value, d: Rounding)
    requires l.Ref? && r.Ref? && ValueOk(l) && ValueOk(r)
    ensures Sign(CompareValues(l, r, d)) == Cmp(ValueKey(l), ValueKey(r))
  {
    var x, y := EncodeValue(l), EncodeValue(r);
    Pairs(I(|x|), L(BytesKey(x)), I(|y|), L(BytesKey(y)));
    BytesCmp(x, y);
  }

  lemma {:induction false} BinCompare(l: Value, r: Value, d: Rounding)
    requires l.Bin? && r.Bin?
    ensures Sign(CompareValues(l, r, d)) == Cmp(ValueKey(l), ValueKey(r))
  {
    var x, y := [l.subtype] + l.data, [r.subtype] + r.data;
    Pairs(I(|l.data|), L(BytesKey(x)), I(|r.data|), L(BytesKey(y)));
    BytesCmp(x, y);
  }

  lemma {:induction false} TwoStrings(a: seq<byte>, b: seq<byte>, c: seq<byte>, d: seq<byte>)
    ensures Sign(if StrCmp(a, c) != 0 then StrCmp(a, c) else StrCmp(b, d))
         == Cmp(L([L(BytesKey(Cut(a))), L(BytesKey(Cut(b)))]), L([L(BytesKey(Cut(c))), L(BytesKey(Cut(d)))]))
  {
    Pairs(L(BytesKey(Cut(a))), L(BytesKey(Cut(b))), L(BytesKey(Cut(c))), L(BytesKey(Cut(d))));
    BytesCmp(Cut(a), Cut(c));
    BytesCmp(Cut(b), Cut(d));
  }

  /** compareElementValues gives the order of the keys. */
  lemma {:induction false} ValuesCompare(l: Value, r: Value, d: Rounding)
    requires Rounds(d) && ValueOk(l) && ValueOk(r) && NoDouble(l) && NoDouble(r)
    requires CanonicalType(Tag(l)) == CanonicalType(Tag(r))
    ensures Sign(CompareValues(l, r, d)) == Cmp(ValueKey(l), ValueKey(r))
    decreases l, 0
  {
    match l
    case Raw(_, _) => RawCompare(l, r, d);
    case Str(_, s) => BytesCmp(Cut(s), Cut(r.s));
    case Doc(_, fields) =>
      FieldsCompare(fields, r.fields, Up(), 0, true, d);
      Ascending(FieldKeys(fields, true), FieldKeys(r.fields, true), Up(), 0);
    case Ref(_, _) => RefCompare(l, r, d);
    case Bin(_, _) => BinCompare(l, r, d);
    case Regex(pattern, flags) => TwoStrings(pattern, flags, r.pattern, r.flags);
    case Scoped(code, scope) => TwoStrings(code, ScopeData(code, scope), r.code, ScopeData(r.code, r.scope));
  }

  lemma {:induction false} ElementsCompare(l: Field, r: Field, names: bool, d: Rounding)
    requires Rounds(d) && ValueOk(l.value) && ValueOk(r.value) && NoDouble(l.value) && NoDouble(r.value)
    ensures Sign(CompareElements(l, r, names, d)) == Cmp(FieldKey(l, names), FieldKey(r, names))
    decreases l, 1
  {
    var lt, rt := CanonicalType(Tag(l.value)), CanonicalType(Tag(r.value));
    var ln := if names then L(BytesKey(Cut(l.name))) else I(0);
    var rn := if names then L(BytesKey(Cut(r.name))) else I(0);
    Triples(I(lt), ln, ValueKey(l.value), I(rt), rn, ValueKey(r.value));
    BytesCmp(Cut(l.name), Cut(r.name));
    if lt == rt {
      ValuesCompare(l.value, r.value, d);
    }
  }

  /** woCompare, under any directions, gives the order of the lists of keys under those directions. */
  lemma {:induction false} FieldsCompare(l: seq<Field>, r: seq<Field>, desc: Pattern, pos: nat, names: bool, d: Rounding)
    requires Rounds(d) && FieldsOk(l) && FieldsOk(r) && NoDoubles(l) && NoDoubles(r)
    ensures Sign(CompareFields(l, r, desc, pos, names, d)) == CmpBy(FieldKeys(l, names), FieldKeys(r, names), desc, pos)
    decreases l, 2
  {
    if l != [] && r != [] {
      ElementsCompare(l[0], r[0], names, d);
      FieldsCompare(l[1..], r[1..], desc, pos + 1, names, d);
      assert FieldKeys(l, names)[1..] == FieldKeys(l[1..], names) && FieldKeys(r, names)[1..] == FieldKeys(r[1..], names);
    }
  }

  /**
   On documents without doubles woCompare is a total preorder, whatever positions descend and whether
   or not names count: swapping the sides swaps the sign, and it is transitive.
   */
  lemma {:induction false} TotalPreorder(a: seq<Field>, b: seq<Field>, c: seq<Field>, desc: Pattern, names: bool, d: Rounding)
    requires Rounds(d) && FieldsOk(a) && FieldsOk(b) && FieldsOk(c) && NoDoubles(a) && NoDoubles(b) && NoDoubles(c)
    ensures Sign(CompareFields(b, a, desc, 0, names, d)) == -Sign(CompareFields(a, b, desc, 0, names, d))
    ensures CompareFields(a, b, desc, 0, names, d) <= 0 && CompareFields(b, c, desc, 0, names, d) <= 0
            ==> CompareFields(a, c, desc, 0, names, d) <= 0
    ensures CompareFields(a, b, desc, 0, names, d) == 0 <==> FieldKeys(a, names) == FieldKeys(b, names)
  {
    var x, y, z := FieldKeys(a, names), FieldKeys(b, names), FieldKeys(c, names);
    FieldsCompare(a, b, desc, 0, names, d);
    FieldsCompare(b, a, desc, 0, names, d);
    FieldsCompare(b, c, desc, 0, names, d);
    FieldsCompare(a, c, desc, 0, names, d);
    MirrorBy(x, y, desc, 0);
    if CmpBy(x, y, desc, 0) <= 0 && CmpBy(y, z, desc, 0) <= 0 {
      TransitiveBy(x, y, z, desc, 0);
    }
  }
}
