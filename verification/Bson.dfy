/**
 BSON documents as trees and as bytes: the encoding (bsonspec.org), the two functions that size an
 element, and reading a document back element by element.
 */
module Bson {
  import opened Bytes

  // ---------------------------------------------------------------- documents

  const DOUBLE: byte := 1
  const STRING: byte := 2
  const OBJECT: byte := 3
  const ARRAY: byte := 4
  const BINDATA: byte := 5
  const UNDEFINED: byte := 6
  const OID: byte := 7
  const BOOL: byte := 8
  const DATE: byte := 9
  const NULL: byte := 10
  const REGEX: byte := 11
  const DBREF: byte := 12
  const CODE: byte := 13
  const SYMBOL: byte := 14
  const CODEWSCOPE: byte := 15
  const INT: byte := 16
  const TIMESTAMP: byte := 17
  const LONG: byte := 18
  const MAXKEY: byte := 127
  const MINKEY: byte := 255   // -1 as a char

  /** Raw is a value whose size its type fixes. */
  datatype Value =
    | Raw(tag: byte, raw: seq<byte>)
    | Str(tag: byte, s: seq<byte>)
    | Doc(tag: byte, fields: seq<Field>)
    | Bin(subtype: byte, data: seq<byte>)
    | Regex(pattern: seq<byte>, flags: seq<byte>)
    | Ref(ns: seq<byte>, oid: seq<byte>)
    | Scoped(code: seq<byte>, scope: seq<Field>)

  datatype Field = Field(name: seq<byte>, value: Value)

  function Tag(v: Value): byte {
    match v
    case Raw(tag, _) => tag
    case Str(tag, _) => tag
    case Doc(tag, _) => tag
    case Bin(_, _) => BINDATA
    case Regex(_, _) => REGEX
    case Ref(_, _) => DBREF
    case Scoped(_, _) => CODEWSCOPE
  }

  function FixedSize(tag: byte): Option<nat> {
    if tag == UNDEFINED || tag == NULL || tag == MAXKEY || tag == MINKEY then Some(0)
    else if tag == BOOL then Some(1)
    else if tag == INT then Some(4)
    else if tag == TIMESTAMP || tag == DATE || tag == DOUBLE || tag == LONG then Some(8)
    else if tag == OID then Some(12)
    else None
  }

  predicate IsStr(tag: byte) { tag == STRING || tag == CODE || tag == SYMBOL }

  predicate IsDoc(tag: byte) { tag == OBJECT || tag == ARRAY }

  /** No NUL inside, as StringData asks of names. */
  predicate NulFree(s: seq<byte>) {
    forall i :: 0 <= i < |s| ==> s[i] != 0
  }

  predicate ValueOk(v: Value) {
    match v
    case Raw(tag, raw) => FixedSize(tag) == Some(|raw|)
    case Str(tag, _) => IsStr(tag)
    case Doc(tag, fields) => IsDoc(tag) && FieldsOk(fields)
    case Bin(_, _) => true
    case Regex(pattern, flags) => NulFree(pattern) && NulFree(flags)
    case Ref(_, oid) => |oid| == 12
    case Scoped(_, scope) => FieldsOk(scope)
  }

  predicate FieldsOk(fs: seq<Field>) {
    fs == [] || (NulFree(fs[0].name) && ValueOk(fs[0].value) && FieldsOk(fs[1..]))
  }

  // ---------------------------------------------------------------- bytes

  /** What storing `n` in a 32-bit int keeps of it. */
  function Wrap(n: nat): u32 {
    if n < 0x1_0000_0000 then n else Wrap(n - 0x1_0000_0000)
  }

  function W(n: nat): (b: seq<byte>)
    ensures |b| == 4 && (n < 0x1_0000_0000 ==> U32(b, 0) == n)
  {
    LE32(Wrap(n))
  }

  function CString(s: seq<byte>): (b: seq<byte>)
    ensures |b| == |s| + 1
  {
    s + [0]
  }

  function EncodeValue(v: Value): seq<byte> {
    match v
    case Raw(_, raw) => raw
    case Str(_, s) => W(|s| + 1) + CString(s)
    case Doc(_, fields) => EncodeDoc(fields)
    case Bin(subtype, data) => W(|data|) + [subtype] + data
    case Regex(pattern, flags) => CString(pattern) + CString(flags)
    case Ref(ns, oid) => W(|ns| + 1) + CString(ns) + oid
    case Scoped(code, scope) =>
      var doc := EncodeDoc(scope);
      W(4 + 4 + |code| + 1 + |doc|) + W(|code| + 1) + CString(code) + doc
  }

  function EncodeField(f: Field): (b: seq<byte>)
    ensures |b| == 1 + |f.name| + 1 + |EncodeValue(f.value)|
  {
    [Tag(f.value)] + CString(f.name) + EncodeValue(f.value)
  }

  function EncodeFields(fs: seq<Field>): seq<byte>
    decreases fs, 0
  {
    if fs == [] then [] else EncodeField(fs[0]) + EncodeFields(fs[1..])
  }

  /** Size, elements, end-of-object. */
  function EncodeDoc(fs: seq<Field>): (b: seq<byte>)
    ensures |b| == 4 + |EncodeFields(fs)| + 1
    decreases fs, 1
  {
    W(4 + |EncodeFields(fs)| + 1) + EncodeFields(fs) + [0]
  }

  // ---------------------------------------------------------------- sizes

  /** strlen, on memory that ends. */
  function StrLen(m: seq<byte>): (n: Option<nat>)
    ensures n.Some? ==> n.value < |m| && m[n.value] == 0 && NulFree(m[..n.value])
  {
    if m == [] then None
    else if m[0] == 0 then Some(0)
    else match StrLen(m[1..]) case None => None case Some(n) => Some(n + 1)
  }

  /** strnlen: -1 if there is no NUL among the first `n` bytes. */
  function StrNLen(m: seq<byte>, n: int): (r: int)
    ensures -1 <= r < |m| && (0 <= r ==> r < n && StrLen(m) == Some(r))
  {
    match StrLen(m) case Some(k) => if k < n then k else -1 case None => -1
  }

  /** How a value of this type says how long it is. */
  function ValueSize(tag: byte, m: seq<byte>): Option<nat> {
    if FixedSize(tag).Some? then FixedSize(tag)
    else if tag == REGEX then
      match StrLen(m)
      case None => None
      case Some(len1) =>
        match StrLen(m[len1 + 1..])
        case None => None
        case Some(len2) => Some(len1 + 1 + len2 + 1)
    else if |m| < 4 then None
    else if IsStr(tag) then Some(U32(m, 0) + 4)
    else if tag == DBREF then Some(U32(m, 0) + 4 + 12)
    else if tag == CODEWSCOPE || IsDoc(tag) then Some(U32(m, 0))
    else if tag == BINDATA then Some(U32(m, 0) + 4 + 1)
    else None
  }

  /** size(): of the element that starts the memory `m`. */
  function Size(m: seq<byte>): Option<nat>
    requires m != []
  {
    if m[0] == 0 then Some(1)
    else
      match StrLen(m[1..])
      case None => None
      case Some(k) =>
        match ValueSize(m[0], m[1 + k + 1..])
        case None => None
        case Some(x) => Some(x + k + 1 + 1)
  }

  /** size(maxLen), of an element constructed with maxLen; None where it asserts. */
  function SizeWithin(m: seq<byte>, maxLen: nat): Option<int>
    requires 0 < maxLen <= |m|
  {
    if m[0] == 0 then Some(1)
    else
      var k := StrNLen(m[1..], maxLen - 1);
      if k == -1 then None
      else
        match ValueSizeWithin(m[0], m[1 + k + 1..], maxLen - (k + 1) - 1)
        case None => None
        case Some(x) => Some(x + k + 1 + 1)
  }

  function ValueSizeWithin(tag: byte, m: seq<byte>, remain: int): Option<int>
    requires remain <= |m|
  {
    if FixedSize(tag).Some? then Some(FixedSize(tag).value)
    else if tag == REGEX then
      var len1 := StrNLen(m, remain);
      var len2 := StrNLen(m[len1 + 1..], remain - len1 - 1);
      Some(len1 + 1 + len2 + 1)
    else if !(IsStr(tag) || tag == DBREF || tag == CODEWSCOPE || IsDoc(tag) || tag == BINDATA) then None
    else if remain <= 3 then None
    else Some(U32(m, 0) + if IsStr(tag) then 4 else if tag == DBREF then 4 + 12 else if tag == BINDATA then 4 + 1 else 0)
  }

  lemma {:induction false} StrLenIs(s: seq<byte>, rest: seq<byte>)
    requires NulFree(s)
    ensures StrLen(CString(s) + rest) == Some(|s|)
  {
    var m := CString(s) + rest;
    if s != [] {
      StrLenIs(s[1..], rest);
      assert m[1..] == CString(s[1..]) + rest;
    }
  }

  lemma {:induction false} FirstWord(n: nat, rest: seq<byte>)
    requires n < 0x1_0000_0000
    ensures U32(W(n) + rest, 0) == n
  {
    SameWord(W(n) + rest, 0, W(n), 0);
  }

  lemma {:induction false} WordFirst(tag: byte, n: nat, tail: seq<byte>, m: seq<byte>, plus: nat)
    requires n < 0x1_0000_0000 && m == W(n) + tail && FixedSize(tag) == None && tag != REGEX
    requires plus == if IsStr(tag) then 4 else if tag == DBREF then 16 else if tag == BINDATA then 5 else 0
    requires IsStr(tag) || IsDoc(tag) || tag == DBREF || tag == BINDATA || tag == CODEWSCOPE
    ensures ValueSize(tag, m) == Some(n + plus)
    ensures forall remain :: 3 < remain <= |m| ==> ValueSizeWithin(tag, m, remain) == Some(n + plus)
  {
    FirstWord(n, tail);
  }

  /** A built value says its own extent, whatever follows it, and however it is asked. */
  ghost predicate Sized(v: Value, rest: seq<byte>) {
    var n := |EncodeValue(v)|;
    && ValueSize(Tag(v), EncodeValue(v) + rest) == Some(n)
    && forall remain :: n <= remain <= n + |rest| ==> ValueSizeWithin(Tag(v), EncodeValue(v) + rest, remain) == Some(n)
  }

  lemma {:induction false} StrSized(tag: byte, s: seq<byte>, rest: seq<byte>)
    requires IsStr(tag) && |EncodeValue(Str(tag, s))| < 0x8000_0000
    ensures Sized(Str(tag, s), rest)
  {
    var m := EncodeValue(Str(tag, s)) + rest;
    assert m == W(|s| + 1) + (CString(s) + rest);
    WordFirst(tag, |s| + 1, CString(s) + rest, m, 4);
  }

  lemma {:induction false} DocSized(tag: byte, fields: seq<Field>, rest: seq<byte>)
    requires IsDoc(tag) && |EncodeDoc(fields)| < 0x8000_0000
    ensures Sized(Doc(tag, fields), rest)
  {
    var tail := EncodeFields(fields) + [0] + rest;
    assert EncodeDoc(fields) + rest == W(|EncodeDoc(fields)|) + tail;
    WordFirst(tag, |EncodeDoc(fields)|, tail, EncodeDoc(fields) + rest, 0);
  }

  lemma {:induction false} BinSized(subtype: byte, data: seq<byte>, rest: seq<byte>)
    requires |EncodeValue(Bin(subtype, data))| < 0x8000_0000
    ensures Sized(Bin(subtype, data), rest)
  {
    var m := EncodeValue(Bin(subtype, data)) + rest;
    assert m == W(|data|) + ([subtype] + data + rest);
    WordFirst(BINDATA, |data|, [subtype] + data + rest, m, 5);
  }

  lemma {:induction false} RefSized(ns: seq<byte>, oid: seq<byte>, rest: seq<byte>)
    requires |oid| == 12 && |EncodeValue(Ref(ns, oid))| < 0x8000_0000
    ensures Sized(Ref(ns, oid), rest)
  {
    var m := EncodeValue(Ref(ns, oid)) + rest;
    assert m == W(|ns| + 1) + (CString(ns) + oid + rest);
    WordFirst(DBREF, |ns| + 1, CString(ns) + oid + rest, m, 16);
  }

  lemma Five(a: seq<byte>, b: seq<byte>, c: seq<byte>, d: seq<byte>, rest: seq<byte>)
    ensures a + b + c + d + rest == a + (b + c + d + rest)
  {
  }

  lemma {:induction false} ScopedSized(code: seq<byte>, scope: seq<Field>, rest: seq<byte>)
    requires |EncodeValue(Scoped(code, scope))| < 0x8000_0000
    ensures Sized(Scoped(code, scope), rest)
  {
    var doc := EncodeDoc(scope);
    var n := 4 + 4 + |code| + 1 + |doc|;
    Five(W(n), W(|code| + 1), CString(code), doc, rest);
    WordFirst(CODEWSCOPE, n, W(|code| + 1) + CString(code) + doc + rest, EncodeValue(Scoped(code, scope)) + rest, 0);
  }

  lemma {:induction false} BothStrings(pattern: seq<byte>, flags: seq<byte>, rest: seq<byte>, m: seq<byte>)
    requires NulFree(pattern) && NulFree(flags) && m == CString(pattern) + CString(flags) + rest
    ensures StrLen(m) == Some(|pattern|) && StrLen(m[|pattern| + 1..]) == Some(|flags|)
  {
    assert m == CString(pattern) + (CString(flags) + rest);
    StrLenIs(pattern, CString(flags) + rest);
    assert m[|pattern| + 1..] == CString(flags) + rest;
    StrLenIs(flags, rest);
  }

  lemma {:induction false} RegexSized(pattern: seq<byte>, flags: seq<byte>, rest: seq<byte>)
    requires NulFree(pattern) && NulFree(flags)
    ensures Sized(Regex(pattern, flags), rest)
  {
    BothStrings(pattern, flags, rest, EncodeValue(Regex(pattern, flags)) + rest);
  }

  lemma {:induction false} ValueSized(v: Value, rest: seq<byte>)
    requires ValueOk(v) && |EncodeValue(v)| < 0x8000_0000
    ensures Sized(v, rest)
  {
    match v
    case Raw(_, _) =>
    case Str(tag, s) => StrSized(tag, s, rest);
    case Doc(tag, fields) => DocSized(tag, fields, rest);
    case Bin(subtype, data) => BinSized(subtype, data, rest);
    case Regex(pattern, flags) => RegexSized(pattern, flags, rest);
    case Ref(ns, oid) => RefSized(ns, oid, rest);
    case Scoped(code, scope) => ScopedSized(code, scope, rest);
  }

  lemma SizeIs(m: seq<byte>, k: nat, x: nat)
    requires m != [] && m[0] != 0 && StrLen(m[1..]) == Some(k) && ValueSize(m[0], m[1 + k + 1..]) == Some(x)
    ensures Size(m) == Some(x + k + 1 + 1)
  {
  }

  lemma NameLength(t: seq<byte>, k: nat, n: int)
    requires StrLen(t) == Some(k) && k < n
    ensures StrNLen(t, n) == k
  {
  }

  lemma ElementParts(f: Field, rest: seq<byte>, m: seq<byte>, v: seq<byte>)
    requires m == EncodeField(f) + rest && v == EncodeValue(f.value) + rest
    ensures m != [] && m[0] == Tag(f.value) && m[1..] == CString(f.name) + v && m[1 + |f.name| + 1..] == v
  {
    assert m[1..] == CString(f.name) + v;
    assert m[1 + |f.name| + 1..] == m[1..][|f.name| + 1..];
  }

  /** Both sizes of a built element are its extent, whenever the limit reaches that far. */
  lemma {:induction false} SizesAgree(f: Field, rest: seq<byte>, maxLen: nat)
    requires NulFree(f.name) && ValueOk(f.value) && |EncodeField(f)| < 0x8000_0000
    requires |EncodeField(f)| <= maxLen <= |EncodeField(f)| + |rest|
    ensures Tag(f.value) != 0
    ensures Size(EncodeField(f) + rest) == Some(|EncodeField(f)|) == SizeWithin(EncodeField(f) + rest, maxLen)
  {
    var m, k, x := EncodeField(f) + rest, |f.name|, |EncodeValue(f.value)|;
    var v := EncodeValue(f.value) + rest;
    ElementParts(f, rest, m, v);
    StrLenIs(f.name, v);
    ValueSized(f.value, rest);
    TagNotZero(f.value);
    SizeIs(m, k, x);
    assert ValueSizeWithin(Tag(f.value), v, maxLen - (k + 1) - 1) == Some(x);
    NameLength(m[1..], k, maxLen - 1);
  }

  lemma TagNotZero(v: Value)
    requires ValueOk(v)
    ensures Tag(v) != 0
  {
  }
}
