/** BSONObj::valid(), with what it throws and catches, and which built documents it accepts. */
module BsonValid {
  import opened Bytes
  import opened Bson
  import opened BsonRead


  // ---------------------------------------------------------------- the check, on bytes

  /** validate() of an element of this type, then valid() of the object in it, if there is one. */
  function ValueValid(tag: byte, v: seq<byte>): bool
    decreases |v|, 2
  {
    if IsStr(tag) || tag == DBREF then
      4 <= |v| && var x := U32(v, 0); 0 < x < MAX_INTERNAL && 4 + x <= |v| && v[4 + x - 1] == 0
    else if tag == CODEWSCOPE then
      ScopeFits(v) && ValidDoc(v[8 + U32(v, 4)..])
    else if IsDoc(tag) then ValidDoc(v)
    else true
  }

  /** The arithmetic validate() does on a code with scope. */
  predicate ScopeFits(v: seq<byte>) {
    && 8 <= |v| && var total: nat, size: nat := U32(v, 0), U32(v, 4);
    && 8 <= total < 0x8000_0000 && 0 < size && size + 8 <= total
    && StrNLen(v[8..], size) == size - 1
    && size + 12 <= total && size + 12 <= |v| && total == 8 + size + U32(v, 8 + size)
  }

  /** A BSONObj can be made of the bytes, and valid() accepts it. */
  function ValidDoc(b: seq<byte>): bool
    decreases |b|, 1
  {
    4 <= |b| && var size: nat := U32(b, 0); 4 < size <= MAX_INTERNAL && size <= |b| && ValidFrom(b[4..size])
  }

  /** The loop, over what is left of the object, its end included; false where something throws. */
  function ValidFrom(m: seq<byte>): bool
    decreases |m|, 0
  {
    m != [] &&
    match SizeWithin(m, |m|)
    case None => false
    case Some(n) =>
      if m[0] == 0 then n == |m|
      else
        match StrLen(m[1..])
        case None => false
        case Some(k) => 1 + k + 1 <= n <= |m| && ValueValid(m[0], m[1 + k + 1..n]) && ValidFrom(m[n..])
  }

  /** valid(), with its loop. */
  method Valid(memory: seq<byte>) returns (ok: bool)
    ensures ok == ValidDoc(memory)
    decreases |memory|, 1
  {
    if |memory| < 4 {
      return false;
    }
    var size: nat := U32(memory, 0);
    if size <= 4 || size > MAX_INTERNAL || size > |memory| {
      return false;
    }
    ok := ValidElements(memory[4..size]);
  }

  /** The loop, over what the iterator has left. */
  method ValidElements(m: seq<byte>) returns (ok: bool)
    ensures ok == ValidFrom(m)
    decreases |m|, 1
  {
    var left := m;
    while left != []
      invariant |left| <= |m| && ValidFrom(left) == ValidFrom(m)
      decreases |left|
    {
      var verdict, n := CheckElement(left);
      if verdict.Some? {
        return verdict.value;
      }
      left := left[n..];
    }
    return false;
  }

  /** The body of the loop: a verdict, or the size of an element that passed. */
  method CheckElement(m: seq<byte>) returns (verdict: Option<bool>, n: nat)
    requires m != []
    ensures verdict.Some? ==> verdict.value == ValidFrom(m)
    ensures verdict == None ==> 0 < n <= |m| && ValidFrom(m) == ValidFrom(m[n..])
    decreases |m|, 0
  {
    n := 0;
    var size := SizeWithin(m, |m|);
    if size == None {
      return Some(false), n;
    }
    if m[0] == 0 {
      return Some(size.value == |m|), n;
    }
    var k := StrLen(m[1..]);
    if k == None || 1 + k.value + 1 > size.value || size.value > |m| {
      return Some(false), n;
    }
    n := size.value;
    var fine := ValidateValue(m[0], m[1 + k.value + 1..n]);
    verdict := if fine then None else Some(false);
  }

  method ValidateValue(tag: byte, v: seq<byte>) returns (ok: bool)
    ensures ok == ValueValid(tag, v)
    decreases |v|, 2
  {
    if IsStr(tag) || tag == DBREF {
      if |v| < 4 {
        return false;
      }
      var x := U32(v, 0);
      if x == 0 || x >= MAX_INTERNAL || 4 + x > |v| {
        return false;
      }
      ok := v[4 + x - 1] == 0;
    } else if tag == CODEWSCOPE {
      if !ScopeFits(v) {
        return false;
      }
      ok := Valid(v[8 + U32(v, 4)..]);
    } else if IsDoc(tag) {
      ok := Valid(v);
    } else {
      ok := true;
    }
  }

  // ---------------------------------------------------------------- what built documents it accepts

  /** No code with scope has a NUL inside its code. */
  predicate CodesOk(fs: seq<Field>)
    decreases fs, 1
  {
    fs == [] || (CodeOk(fs[0].value) && CodesOk(fs[1..]))
  }

  predicate CodeOk(v: Value)
    decreases v, 0
  {
    match v
    case Doc(_, fields) => CodesOk(fields)
    case Scoped(code, scope) => NulFree(code) && CodesOk(scope)
    case _ => true
  }

  lemma {:induction false} StrBuilt(tag: byte, s: seq<byte>, tail: seq<byte>, v: seq<byte>)
    requires (IsStr(tag) || tag == DBREF) && |s| + 1 < MAX_INTERNAL && v == W(|s| + 1) + CString(s) + tail
    ensures ValueValid(tag, v)
  {
    FirstWord(|s| + 1, CString(s) + tail);
    assert v == W(|s| + 1) + (CString(s) + tail) && v[4 + |s|] == 0;
  }

  lemma {:induction false} NulAt(s: seq<byte>, rest: seq<byte>)
    ensures StrNLen(CString(s) + rest, |s| + 1) == |s| <==> NulFree(s)
  {
    assert (CString(s) + rest)[..|s|] == s;
    if NulFree(s) {
      StrLenIs(s, rest);
    }
  }

  lemma {:induction false} FitsIff(v: seq<byte>, size: nat, code: seq<byte>, doc: seq<byte>)
    requires |v| == 8 + size + |doc| < 0x8000_0000 && 4 <= |doc| && size == |code| + 1
    requires U32(v, 0) == |v| && U32(v, 4) == size && U32(v, 8 + size) == |doc| && v[8..] == CString(code) + doc
    ensures ScopeFits(v) <==> NulFree(code)
  {
    NulAt(code, doc);
  }

  lemma {:induction false} ScopeBuilt(code: seq<byte>, scope: seq<Field>)
    requires |EncodeValue(Scoped(code, scope))| <= MAX_INTERNAL
    ensures ScopeFits(EncodeValue(Scoped(code, scope))) <==> NulFree(code)
    ensures U32(EncodeValue(Scoped(code, scope)), 4) == |code| + 1
    ensures EncodeValue(Scoped(code, scope))[8 + (|code| + 1)..] == EncodeDoc(scope)
  {
    var v, doc, size := EncodeValue(Scoped(code, scope)), EncodeDoc(scope), |code| + 1;
    ScopedParts(code, scope);
    ScopeWord(v, 8 + size, scope);
    TotalWord(v, 4 + 4 + |code| + 1 + |doc|, size, code, doc);
    FitsIff(v, size, code, doc);
  }

  lemma TotalWord(v: seq<byte>, total: nat, size: nat, code: seq<byte>, doc: seq<byte>)
    requires total < 0x8000_0000 && v == W(total) + W(size) + CString(code) + doc
    ensures U32(v, 0) == total && v[8..] == CString(code) + doc
  {
    FirstWord(total, W(size) + CString(code) + doc);
    assert v == W(total) + (W(size) + CString(code) + doc);
  }

  lemma {:induction false} ScopeWord(v: seq<byte>, at: nat, scope: seq<Field>)
    requires at <= |v| && v[at..] == EncodeDoc(scope) && |EncodeDoc(scope)| < 0x8000_0000
    ensures at + 4 <= |v| && U32(v, at) == |EncodeDoc(scope)|
  {
    BuiltMemory(EncodeDoc(scope), scope);
    SameWord(v, at, EncodeDoc(scope), 0) by { assert forall k :: at <= k < at + 4 ==> v[k] == v[at..][k - at]; }
  }

  lemma {:induction false} ValueBuilt(v: Value)
    requires ValueOk(v) && |EncodeValue(v)| <= MAX_INTERNAL
    ensures ValueValid(Tag(v), EncodeValue(v)) <==> CodeOk(v)
    decreases v, 0
  {
    match v
    case Raw(_, _) =>
    case Str(tag, s) => StrBuilt(tag, s, [], EncodeValue(v)); assert W(|s| + 1) + CString(s) + [] == W(|s| + 1) + CString(s);
    case Doc(tag, fields) => BuiltValid(fields);
    case Bin(_, _) =>
    case Regex(_, _) =>
    case Ref(ns, oid) => StrBuilt(DBREF, ns, oid, EncodeValue(v));
    case Scoped(code, scope) => ScopeBuilt(code, scope); BuiltValid(scope);
  }

  lemma {:induction false} ValidStep(f: Field, rest: seq<byte>)
    requires NulFree(f.name) && ValueOk(f.value) && |EncodeField(f) + rest| < 0x8000_0000
    ensures ValidFrom(EncodeField(f) + rest) <==> ValueValid(Tag(f.value), EncodeValue(f.value)) && ValidFrom(rest)
  {
    var m, n, k := EncodeField(f) + rest, |EncodeField(f)|, |f.name|;
    SizesAgree(f, rest, |m|);
    FieldParts(f, rest);
    ValidOne(m, n, k);
  }

  lemma {:induction false} ValidOne(m: seq<byte>, n: nat, k: nat)
    requires m != [] && m[0] != 0 && SizeWithin(m, |m|) == Some(n) && StrLen(m[1..]) == Some(k) && 1 + k + 1 <= n <= |m|
    ensures ValidFrom(m) <==> ValueValid(m[0], m[1 + k + 1..n]) && ValidFrom(m[n..])
  {
  }

  /**
   valid() accepts a built document exactly when no code with scope in it, however deep, has a NUL in
   its code. (A larger document is refused before that, by the constructor of BSONObj.)
   */
  lemma {:induction false} BuiltValid(fs: seq<Field>)
    requires FieldsOk(fs) && |EncodeDoc(fs)| <= MAX_INTERNAL
    ensures ValidDoc(EncodeDoc(fs)) <==> CodesOk(fs)
    decreases fs, 1
  {
    var b := EncodeDoc(fs);
    BuiltMemory(b, fs);
    assert b[4..|b|] == EncodeFields(fs) + [0];
    FieldsBuilt(fs);
  }

  lemma {:induction false} FieldsBuilt(fs: seq<Field>)
    requires FieldsOk(fs) && |EncodeFields(fs)| < MAX_INTERNAL
    ensures ValidFrom(EncodeFields(fs) + [0]) <==> CodesOk(fs)
    decreases fs, 0
  {
    if fs == [] {
      assert EncodeFields(fs) + [0] == [0];
    } else {
      EncodeCons(fs);
      ValidStep(fs[0], EncodeFields(fs[1..]) + [0]);
      ValueBuilt(fs[0].value);
      FieldsBuilt(fs[1..]);
    }
  }

  // ---------------------------------------------------------------- what is accepted of any bytes

  /** The bytes begin with a built string, not too long. */
  predicate IsString(v: seq<byte>, s: seq<byte>) {
    |s| + 1 < 16793600 && W(|s| + 1) + s + [0] <= v
  }

  /** A string, or the name of a reference, is accepted exactly if the bytes begin with a built string. */
  lemma {:induction false} StringAccepted(tag: byte, v: seq<byte>)
    requires IsStr(tag) || tag == DBREF
    ensures ValueValid(tag, v) <==> exists s: seq<byte> :: IsString(v, s)
  {
    if ValueValid(tag, v) {
      StringParts(tag, v, v[4..4 + U32(v, 0) - 1]);
    }
    forall s: seq<byte> | IsString(v, s)
      ensures ValueValid(tag, v)
    {
      PartsString(tag, v, s, W(|s| + 1) + s + [0]);
    }
  }

  lemma {:induction false} StringParts(tag: byte, v: seq<byte>, s: seq<byte>)
    requires (IsStr(tag) || tag == DBREF) && ValueValid(tag, v) && s == v[4..4 + U32(v, 0) - 1]
    ensures IsString(v, s)
  {
    var x := U32(v, 0);
    StartsWith(v, x);
    assert v[..4 + x] == v[..4] + s + [0];
  }

  lemma {:induction false} PartsString(tag: byte, v: seq<byte>, s: seq<byte>, b: seq<byte>)
    requires (IsStr(tag) || tag == DBREF) && |s| + 1 < 16793600 && b == W(|s| + 1) + s + [0] && b <= v
    ensures ValueValid(tag, v)
  {
    SameWord(v, 0, W(|s| + 1), 0);
    assert v[4 + |s|] == b[4 + |s|] == 0;
  }

  lemma {:induction false} StartsWith(v: seq<byte>, x: u32)
    requires 4 <= |v| && U32(v, 0) == x
    ensures v[..4] == W(x)
  {
    SameWord(v, 0, v[..4], 0);
    WordBytes(x);
  }

  /**
   Code with scope is accepted exactly if the bytes begin with their size, the code as a built string, and
   the object; without a NUL in the code, and the object accepted.
   */
  lemma {:induction false} ScopeAccepted(v: seq<byte>)
    ensures ValueValid(CODEWSCOPE, v) <==> exists code: seq<byte>, doc: seq<byte> :: IsScoped(v, code, doc)
  {
    if ValueValid(CODEWSCOPE, v) {
      ScopeParts(v);
    }
    forall code: seq<byte>, doc: seq<byte> | IsScoped(v, code, doc)
      ensures ValueValid(CODEWSCOPE, v)
    {
      PartsScope(v, code, doc);
    }
  }

  predicate IsScoped(v: seq<byte>, code: seq<byte>, doc: seq<byte>) {
    && 4 <= |doc| && NulFree(code) && ValidDoc(doc) && 8 + |code| + 1 + U32(doc, 0) < 0x8000_0000
    && v == W(8 + |code| + 1 + U32(doc, 0)) + W(|code| + 1) + code + [0] + doc
  }

  lemma {:induction false} ScopeParts(v: seq<byte>)
    requires ValueValid(CODEWSCOPE, v)
    ensures exists code: seq<byte>, doc: seq<byte> :: IsScoped(v, code, doc)
  {
    var total, size := U32(v, 0), U32(v, 4);
    var code, doc := v[8..8 + size - 1], v[8 + size..];
    assert v[8..][..size - 1] == code && v[8..][size - 1] == 0;
    SameWord(v, 8 + size, doc, 0);
    Assembled(v, total, size, code, doc);
  }

  lemma {:induction false} Assembled(v: seq<byte>, total: u32, size: u32, code: seq<byte>, doc: seq<byte>)
    requires 8 <= |v| && U32(v, 0) == total && U32(v, 4) == size && 8 + size + 4 <= |v| && 0 < size
    requires code == v[8..8 + size - 1] && v[8 + size - 1] == 0 && doc == v[8 + size..]
    requires NulFree(code) && ValidDoc(doc) && total == 8 + size + U32(doc, 0) < 0x8000_0000
    ensures IsScoped(v, code, doc)
  {
    StartsWith(v, total);
    SecondWord(v, size);
    Whole(v, code, doc);
  }

  lemma {:induction false} SecondWord(v: seq<byte>, x: u32)
    requires 8 <= |v| && U32(v, 4) == x
    ensures v[4..8] == W(x)
  {
    SameWord(v, 4, v[4..8], 0);
    WordBytes(x);
  }

  lemma Whole(v: seq<byte>, code: seq<byte>, doc: seq<byte>)
    requires 8 + |code| < |v| && code == v[8..8 + |code|] && v[8 + |code|] == 0 && doc == v[8 + |code| + 1..]
    ensures v == v[..4] + v[4..8] + code + [0] + doc
  {
  }

  lemma {:induction false} PartsScope(v: seq<byte>, code: seq<byte>, doc: seq<byte>)
    requires IsScoped(v, code, doc)
    ensures ValueValid(CODEWSCOPE, v)
  {
    var total, size := 8 + |code| + 1 + U32(doc, 0), |code| + 1;
    SameWord(v, 0, W(total), 0);
    SameWord(v, 4, W(size), 0);
    SameWord(v, 8 + size, doc, 0);
    assert v[8..] == CString(code) + doc;
    StrLenIs(code, doc);
    assert v[8 + size..] == doc;
  }
}
