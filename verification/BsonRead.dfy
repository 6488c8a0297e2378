/** Reading documents: the iterator, decoding by it, looking a field up, and the validity check. */
module BsonRead {
  import opened Bytes
  import opened Bson

  // ---------------------------------------------------------------- decoding

  /** What an element of this type holds in its value bytes. */
  function DecodeValue(tag: byte, w: seq<byte>): Option<Value>
    decreases |w|, 1
  {
    if FixedSize(tag).Some? then (if |w| == FixedSize(tag).value then Some(Raw(tag, w)) else None)
    else if IsStr(tag) then (if |w| < 5 then None else Some(Str(tag, w[4..|w| - 1])))
    else if IsDoc(tag) then
      match DecodeDoc(w) case None => None case Some(fs) => Some(Doc(tag, fs))
    else if tag == BINDATA then (if |w| < 5 then None else Some(Bin(w[4], w[5..])))
    else if tag == REGEX then
      match StrLen(w)
      case None => None
      case Some(k) => if |w| < k + 2 then None else Some(Regex(w[..k], w[k + 1..|w| - 1]))
    else if tag == DBREF then (if |w| < 17 then None else Some(Ref(w[4..|w| - 13], w[|w| - 12..])))
    else if tag == CODEWSCOPE && 8 <= |w| && 0 < U32(w, 4) && 8 + U32(w, 4) <= |w| then
      match DecodeDoc(w[8 + U32(w, 4)..])
      case None => None
      case Some(scope) => Some(Scoped(w[8..8 + U32(w, 4) - 1], scope))
    else None
  }

  function DecodeDoc(b: seq<byte>): Option<seq<Field>>
    decreases |b|, 0
  {
    if |b| < 5 || U32(b, 0) != |b| then None else DecodeFields(b[4..])
  }

  /** `while ( i.more() ) i.next()` over what is left of an object, its last byte included. */
  function DecodeFields(m: seq<byte>): Option<seq<Field>>
    decreases |m|, 0
  {
    if |m| == 0 then None
    else if |m| == 1 then Some([])
    else if m[0] == 0 then None
    else
      match Size(m)
      case None => None
      case Some(n) =>
        if n >= |m| then None
        else
          match StrLen(m[1..])
          case None => None
          case Some(k) =>
            if 1 + k + 1 > n then None
            else
              match DecodeValue(m[0], m[1 + k + 1..n])
              case None => None
              case Some(v) =>
                match DecodeFields(m[n..])
                case None => None
                case Some(fs) => Some([Field(m[1..1 + k], v)] + fs)
  }

  lemma {:induction false} DecodeStr(tag: byte, s: seq<byte>)
    requires IsStr(tag)
    ensures DecodeValue(tag, EncodeValue(Str(tag, s))) == Some(Str(tag, s))
  {
    var w := EncodeValue(Str(tag, s));
    assert w == W(|s| + 1) + s + [0] && w[4..|w| - 1] == s;
  }

  lemma {:induction false} DecodeBin(subtype: byte, data: seq<byte>)
    ensures DecodeValue(BINDATA, EncodeValue(Bin(subtype, data))) == Some(Bin(subtype, data))
  {
    var w := EncodeValue(Bin(subtype, data));
    assert w[4] == subtype && w[5..] == data;
  }

  lemma {:induction false} DecodeRegex(pattern: seq<byte>, flags: seq<byte>)
    requires NulFree(pattern)
    ensures DecodeValue(REGEX, EncodeValue(Regex(pattern, flags))) == Some(Regex(pattern, flags))
  {
    var w := EncodeValue(Regex(pattern, flags));
    StrLenIs(pattern, CString(flags));
    assert w[..|pattern|] == pattern && w[|pattern| + 1..|w| - 1] == flags;
  }

  lemma {:induction false} DecodeRef(ns: seq<byte>, oid: seq<byte>)
    requires |oid| == 12
    ensures DecodeValue(DBREF, EncodeValue(Ref(ns, oid))) == Some(Ref(ns, oid))
  {
    var w := EncodeValue(Ref(ns, oid));
    assert w == W(|ns| + 1) + ns + [0] + oid;
    assert w[4..|w| - 13] == ns && w[|w| - 12..] == oid;
  }

  lemma {:induction false} DecodeScoped(code: seq<byte>, scope: seq<Field>)
    requires |EncodeValue(Scoped(code, scope))| < 0x8000_0000 && DecodeDoc(EncodeDoc(scope)) == Some(scope)
    ensures DecodeValue(CODEWSCOPE, EncodeValue(Scoped(code, scope))) == Some(Scoped(code, scope))
  {
    ScopedParts(code, scope);
    ReadScoped(EncodeValue(Scoped(code, scope)), |code| + 1, code, scope);
  }

  lemma {:induction false} ScopedParts(code: seq<byte>, scope: seq<Field>)
    requires |code| + 1 < 0x8000_0000
    ensures var w := EncodeValue(Scoped(code, scope));
      && |w| == 8 + |code| + 1 + |EncodeDoc(scope)| && U32(w, 4) == |code| + 1
      && w[8 + (|code| + 1)..] == EncodeDoc(scope) && w[8..8 + |code|] == code && w[8 + |code|] == 0
  {
    var doc, n := EncodeDoc(scope), |code| + 1;
    var w := EncodeValue(Scoped(code, scope));
    assert w == W(4 + 4 + |code| + 1 + |doc|) + W(n) + code + [0] + doc;
    SameWord(w, 4, W(n), 0);
  }

  lemma {:induction false} ReadScoped(w: seq<byte>, n: nat, code: seq<byte>, scope: seq<Field>)
    requires 8 <= |w| && U32(w, 4) == n > 0 && 8 + n <= |w| && w[8..8 + n - 1] == code
    requires DecodeDoc(w[8 + n..]) == Some(scope)
    ensures DecodeValue(CODEWSCOPE, w) == Some(Scoped(code, scope))
  {
  }

  lemma {:induction false} DecodeEncodeValue(v: Value)
    requires ValueOk(v) && |EncodeValue(v)| < 0x8000_0000
    ensures DecodeValue(Tag(v), EncodeValue(v)) == Some(v)
    decreases v, 0
  {
    match v
    case Raw(_, _) =>
    case Str(tag, s) => DecodeStr(tag, s);
    case Doc(tag, fields) => DecodeEncode(fields);
    case Bin(subtype, data) => DecodeBin(subtype, data);
    case Regex(pattern, flags) => DecodeRegex(pattern, flags);
    case Ref(ns, oid) => DecodeRef(ns, oid);
    case Scoped(code, scope) => DecodeEncode(scope); DecodeScoped(code, scope);
  }

  /** Reading a built document back, by the sizes its elements declare, gives the document. */
  lemma {:induction false} DecodeEncode(fs: seq<Field>)
    requires FieldsOk(fs) && |EncodeDoc(fs)| < 0x8000_0000
    ensures DecodeDoc(EncodeDoc(fs)) == Some(fs)
    decreases fs, 1
  {
    var b := EncodeDoc(fs);
    assert b == W(|b|) + (EncodeFields(fs) + [0]) && b[4..] == EncodeFields(fs) + [0];
    FirstWord(|b|, EncodeFields(fs) + [0]);
    DecodeEncodeFields(fs);
  }

  lemma {:induction false} DecodeEncodeFields(fs: seq<Field>)
    requires FieldsOk(fs) && |EncodeFields(fs)| < 0x8000_0000
    ensures DecodeFields(EncodeFields(fs) + [0]) == Some(fs)
    decreases fs, 0
  {
    if fs == [] {
      assert EncodeFields(fs) + [0] == [0];
    } else {
      EncodeCons(fs);
      DecodeEncodeValue(fs[0].value);
      DecodeEncodeFields(fs[1..]);
      DecodeStep(fs[0], EncodeFields(fs[1..]) + [0], fs[1..]);
    }
  }

  lemma {:induction false} EncodeCons(fs: seq<Field>)
    requires fs != []
    ensures EncodeFields(fs) + [0] == EncodeField(fs[0]) + (EncodeFields(fs[1..]) + [0])
    ensures |EncodeField(fs[0])| + |EncodeFields(fs[1..])| == |EncodeFields(fs)|
    ensures fs == [fs[0]] + fs[1..]
  {
  }

  lemma {:induction false} DecodeStep(f: Field, rest: seq<byte>, fs: seq<Field>)
    requires NulFree(f.name) && ValueOk(f.value) && |EncodeField(f)| < 0x8000_0000 && rest != []
    requires DecodeValue(Tag(f.value), EncodeValue(f.value)) == Some(f.value) && DecodeFields(rest) == Some(fs)
    ensures DecodeFields(EncodeField(f) + rest) == Some([f] + fs)
  {
    var m, n, k := EncodeField(f) + rest, |EncodeField(f)|, |f.name|;
    SizesAgree(f, rest, n);
    FieldParts(f, rest);
    ReadOne(m, n, k, f.value, fs);
  }

  /** Where the type, the name and the value of a built element lie. */
  lemma {:induction false} FieldParts(f: Field, rest: seq<byte>)
    requires NulFree(f.name)
    ensures var m, n, k := EncodeField(f) + rest, |EncodeField(f)|, |f.name|;
      && m[0] == Tag(f.value) && StrLen(m[1..]) == Some(k) && m[1..1 + k] == f.name
      && m[1 + k + 1..n] == EncodeValue(f.value) && m[n..] == rest
  {
    var m, n, k := EncodeField(f) + rest, |EncodeField(f)|, |f.name|;
    StrLenIs(f.name, EncodeValue(f.value) + rest);
    assert m[1..] == CString(f.name) + (EncodeValue(f.value) + rest);
  }

  lemma {:induction false} ReadOne(m: seq<byte>, n: nat, k: nat, v: Value, fs: seq<Field>)
    requires 1 < |m| && m[0] != 0 && Size(m) == Some(n) && n < |m| && StrLen(m[1..]) == Some(k) && 1 + k + 1 <= n
    requires DecodeValue(m[0], m[1 + k + 1..n]) == Some(v) && DecodeFields(m[n..]) == Some(fs)
    ensures DecodeFields(m) == Some([Field(m[1..1 + k], v)] + fs)
  {
  }

  // ---------------------------------------------------------------- the iterator

  function EncodeEach(fs: seq<Field>): (es: seq<seq<byte>>)
    ensures |es| == |fs| && forall i :: 0 <= i < |fs| ==> es[i] == EncodeField(fs[i])
  {
    if fs == [] then [] else [EncodeField(fs[0])] + EncodeEach(fs[1..])
  }

  /** An iterator over a built object; `left` is what it has yet to come to. */
  class BsonObjIterator {
    const memory: seq<byte>
    const theEnd: nat
    var pos: nat
    ghost var left: seq<Field>
    ghost const after: seq<byte>

    ghost predicate Valid()
      reads this
    {
      && FieldsOk(left) && |memory| < 0x8000_0000
      && pos <= |memory| && memory[pos..] == EncodeFields(left) + [0] + after
      && theEnd == pos + |EncodeFields(left)|
    }

    constructor (memory: seq<byte>, ghost fs: seq<Field>)
      requires FieldsOk(fs) && EncodeDoc(fs) <= memory && |memory| < 0x8000_0000
      ensures Valid() && left == fs && this.memory == memory
    {
      BuiltMemory(memory, fs);
      this.memory := memory;
      pos := 4;
      theEnd := U32(memory, 0) - 1;
      left := fs;
      after := memory[|EncodeDoc(fs)|..];
    }

    predicate More()
      reads this
    {
      pos < theEnd
    }

    /** Both forms of next: the element that comes next, its extent exactly its own. */
    method Next(checkEnd: bool) returns (e: seq<byte>)
      requires Valid() && More()
      modifies this`pos, this`left
      ensures old(left) != [] && e == EncodeField(old(left)[0])
      ensures Valid() && left == old(left)[1..]
    {
      LeftIff(left);
      NextElement(left, after, memory[pos..]);
      var n := SizeOf(memory[pos..], theEnd + 1 - pos, checkEnd, left[0], EncodeFields(left[1..]) + [0] + after);
      e := Step(n);
    }

    method Step(n: nat) returns (e: seq<byte>)
      requires pos + n <= |memory| && left != []
      modifies this`pos, this`left
      ensures e == memory[old(pos)..][..n] && pos == old(pos) + n && left == old(left)[1..]
      ensures memory[pos..] == memory[old(pos)..][n..]
    {
      e := memory[pos..][..n];
      pos := pos + n;
      left := left[1..];
    }
  }

  lemma LeftIff(left: seq<Field>)
    ensures |EncodeFields(left)| == 0 <==> left == []
  {
    if left != [] {
      assert |EncodeField(left[0])| > 0;
    }
  }

  lemma {:induction false} BuiltMemory(memory: seq<byte>, fs: seq<Field>)
    requires EncodeDoc(fs) <= memory && |memory| < 0x8000_0000
    ensures U32(memory, 0) == |EncodeDoc(fs)| && memory[4..] == EncodeFields(fs) + [0] + memory[|EncodeDoc(fs)|..]
  {
    var n := |EncodeDoc(fs)|;
    var tail := EncodeFields(fs) + [0] + memory[n..];
    FirstWord(n, tail);
    assert memory == EncodeDoc(fs) + memory[n..];
    assert memory == W(n) + tail;
  }

  lemma Regroup(a: seq<byte>, b: seq<byte>, c: seq<byte>, d: seq<byte>)
    ensures (a + b) + c + d == a + (b + c + d)
  {
  }

  lemma {:induction false} NextElement(left: seq<Field>, after: seq<byte>, m: seq<byte>)
    requires left != [] && FieldsOk(left) && m == EncodeFields(left) + [0] + after
    ensures NulFree(left[0].name) && ValueOk(left[0].value) && FieldsOk(left[1..])
    ensures |EncodeField(left[0])| + |EncodeFields(left[1..])| == |EncodeFields(left)|
    ensures m == EncodeField(left[0]) + (EncodeFields(left[1..]) + [0] + after)
  {
    Regroup(EncodeField(left[0]), EncodeFields(left[1..]), [0], after);
  }

  /** size() or size(maxLen), as next() asks for it. */
  method SizeOf(m: seq<byte>, maxLen: nat, checkEnd: bool, ghost f: Field, ghost rest: seq<byte>) returns (n: nat)
    requires NulFree(f.name) && ValueOk(f.value) && |m| < 0x8000_0000 && |EncodeField(f)| <= maxLen <= |m|
    requires m == EncodeField(f) + rest
    ensures n == |EncodeField(f)| && m[..n] == EncodeField(f) && m[n..] == rest
  {
    FieldThen(f, rest, m, maxLen);
    var size := if checkEnd then SizeWithin(m, maxLen) else Size(m);
    n := size.value;
  }

  lemma {:induction false} FieldThen(f: Field, rest: seq<byte>, m: seq<byte>, maxLen: nat)
    requires NulFree(f.name) && ValueOk(f.value) && |m| < 0x8000_0000 && |EncodeField(f)| <= maxLen <= |m|
    requires m == EncodeField(f) + rest
    ensures Size(m) == Some(|EncodeField(f)|) == SizeWithin(m, maxLen)
    ensures m[..|EncodeField(f)|] == EncodeField(f) && m[|EncodeField(f)|..] == rest
  {
    SizesAgree(f, rest, maxLen);
  }

  /** Iterating yields exactly the appended elements, in order. */
  method ReadAll(memory: seq<byte>, ghost fs: seq<Field>) returns (es: seq<seq<byte>>)
    requires FieldsOk(fs) && EncodeDoc(fs) <= memory && |memory| < 0x8000_0000
    ensures es == EncodeEach(fs)
  {
    var it := new BsonObjIterator(memory, fs);
    es := [];
    while it.More()
      invariant it.Valid() && es + EncodeEach(it.left) == EncodeEach(fs) && fresh(it)
      decreases |it.left|
    {
      var e := it.Next(false);
      es := es + [e];
    }
    LeftIff(it.left);
  }

  // ---------------------------------------------------------------- looking a field up

  /** The first field of the name. */
  function Lookup(fs: seq<Field>, name: seq<byte>): Option<Field> {
    if fs == [] then None else if fs[0].name == name then Some(fs[0]) else Lookup(fs[1..], name)
  }

  /** The name of an element, as fieldName() and strcmp see it. */
  function NameOf(e: seq<byte>): seq<byte>
    requires |e| > 1
  {
    match StrLen(e[1..]) case None => e[1..] case Some(k) => e[1..1 + k]
  }

  lemma {:induction false} NameIs(f: Field)
    requires NulFree(f.name)
    ensures NameOf(EncodeField(f)) == f.name
  {
    FieldParts(f, []);
    assert EncodeField(f) + [] == EncodeField(f);
  }

  /** getField: the first element of that name, or the end-of-object element. */
  method GetField(memory: seq<byte>, name: seq<byte>, ghost fs: seq<Field>) returns (e: seq<byte>)
    requires FieldsOk(fs) && EncodeDoc(fs) <= memory && |memory| < 0x8000_0000
    ensures e == match Lookup(fs, name) case None => [0] case Some(f) => EncodeField(f)
  {
    var it := new BsonObjIterator(memory, fs);
    while it.More()
      invariant it.Valid() && Lookup(it.left, name) == Lookup(fs, name) && fresh(it)
      decreases |it.left|
    {
      ghost var left := it.left;
      e := it.Next(false);
      NameIs(left[0]);
      if NameOf(e) == name {
        return;
      }
    }
    LeftIff(it.left);
    e := [0];
  }
}
