/** jsonString with its loops, and the grammar with its actions, which build the document as they read. */
module JsonBuild {
  import opened Bytes
  import opened Bson
  import opened BsonBuild
  import opened Dotted
  import opened JsonString
  import opened Json
  import opened EmbeddedBuilder
  import LexNum

  // ---------------------------------------------------------------- printing

  method JsonValue(v: Value, pretty: nat) returns (s: Text)
    requires Printable(v)
    ensures s == PrintValue(v, pretty)
    decreases v, 0
  {
    match v
    case Raw(tag, raw) =>
      s := PrintValue(v, pretty);
    case Str(_, bytes) =>
      s := Escape(bytes, false);
      s := [QUOTE] + s + [QUOTE];
    case Doc(tag, fields) =>
      if tag == OBJECT {
        s := JsonDoc(fields, pretty);
      } else {
        s := JsonList(fields, pretty);
      }
  }

  /** BSONObj::jsonString. */
  method JsonDoc(fs: seq<Field>, pretty: nat) returns (s: Text)
    requires PrintableDoc(fs)
    ensures s == PrintDoc(fs, pretty)
    decreases fs, 2
  {
    if fs == [] {
      return [OPEN, CLOSE];
    }
    s := [OPEN, SPACE];
    var left := fs;
    while true
      invariant left != [] && |left| <= |fs| && PrintableDoc(left)
      invariant forall f :: f in left ==> f in fs
      invariant s + PrintMembers(left, pretty) == [OPEN, SPACE] + PrintMembers(fs, pretty)
      decreases |left|
    {
      assert left[0] in fs;
      var member := JsonMember(left[0], pretty);
      if |left| == 1 {
        s := s + member;
        break;
      }
      Onward(s, member, [COMMA], Gap(pretty), PrintMembers(left[1..], pretty));
      s := s + member + [COMMA] + Gap(pretty);
      left := left[1..];
    }
    s := s + [SPACE, CLOSE];
  }

  lemma Onward(s: Text, t: Text, comma: Text, gap: Text, more: Text)
    ensures s + t + comma + gap + more == s + (t + (comma + gap + more))
  {
  }

  /** BSONElement::jsonString with the name. */
  method JsonMember(f: Field, pretty: nat) returns (s: Text)
    requires NulFree(f.name) && !Dollar(f.name) && Printable(f.value)
    ensures s == PrintMember(f, pretty)
    decreases f, 1
  {
    var name := Escape(f.name, false);
    var value := JsonValue(f.value, Deeper(pretty));
    s := [QUOTE] + name + [QUOTE] + [SPACE, COLON, SPACE] + value;
  }

  method JsonList(fs: seq<Field>, pretty: nat) returns (s: Text)
    requires PrintableList(fs)
    ensures s == PrintList(fs, pretty)
    decreases fs, 2
  {
    if fs == [] {
      return [OPEN_LIST, CLOSE_LIST];
    }
    s := [OPEN_LIST, SPACE];
    var left := fs;
    while true
      invariant left != [] && |left| <= |fs| && PrintableList(left)
      invariant forall f :: f in left ==> f in fs
      invariant s + PrintElements(left, pretty) == [OPEN_LIST, SPACE] + PrintElements(fs, pretty)
      decreases |left|
    {
      assert left[0] in fs;
      var element := JsonElement(left[0].value, pretty);
      if |left| == 1 {
        LastElement(s, Break(pretty), PrintValue(left[0].value, Deeper(pretty)));
        s := s + element;
        break;
      }
      NextElement(s, Break(pretty), PrintValue(left[0].value, Deeper(pretty)), PrintElements(left[1..], pretty));
      s := s + element + [COMMA, SPACE];
      left := left[1..];
    }
    s := s + [SPACE, CLOSE_LIST];
  }

  method JsonElement(v: Value, pretty: nat) returns (s: Text)
    requires Printable(v)
    ensures s == Break(pretty) + PrintValue(v, Deeper(pretty))
    decreases v, 1
  {
    var value := JsonValue(v, Deeper(pretty));
    s := Break(pretty) + value;
  }

  lemma LastElement(s: Text, line: Text, t: Text)
    ensures s + (line + t) == s + (line + t + [])
  {
  }

  lemma NextElement(s: Text, line: Text, t: Text, more: Text)
    ensures s + (line + t) + [COMMA, SPACE] + more == s + (line + t + ([COMMA, SPACE] + more))
  {
  }

  // ---------------------------------------------------------------- reading into builders

  /** A nested object or array no longer than BSONObj allows. */
  predicate Allowed(v: Value) {
    v.Doc? ==> |EncodeDoc(v.fields)| <= MAX_INTERNAL
  }

  /**
   What the rules for a value have done when they match: the value is appended under the name, unless an
   object or array in it is longer than BSONObj allows.
   */
  ghost predicate Took(s: Text, name: seq<byte>, ok: bool, rest: Text, was: seq<byte>, threw: bool, now: seq<byte>, throws: bool) {
    && ok == ParseValue(s).Some?
    && (ok ==> rest == ParseValue(s).value.1 && Appended(was, threw, now, throws, EncodeField(Field(name, ParseValue(s).value.0))))
    && (ok && !throws ==> Allowed(ParseValue(s).value.0))
  }

  /** The value rule: a leaf is appended, an object or an array gets a builder of its own on the same buffer. */
  method ReadValue(o: BsonObjBuilder, name: seq<byte>, s: Text) returns (ok: bool, rest: Text)
    requires o.b.Valid() && (!o.b.thrown ==> 4 <= o.b.l)
    modifies o.b, o.b.data
    ensures o.b.Valid() && (o.b.data == old(o.b.data) || fresh(o.b.data))
    ensures Took(s, name, ok, rest, old(o.b.Contents()), old(o.b.thrown), o.b.Contents(), o.b.thrown)
    decreases |s|, 3
  {
    var t := Skip(s);
    rest := [];
    if Starts(t, OPEN_LIST) {
      ok, rest := ReadNested(o, ARRAY, name, t);
    } else if Starts(t, OPEN) && !Extension(t) {
      NoLiteral(t);
      ok, rest := ReadNested(o, OBJECT, name, t);
    } else {
      var leaf := ReadLeaf(t);
      ok := leaf.Some?;
      if ok {
        rest := leaf.value.1;
        BuildField(o, Field(name, leaf.value.0));
      }
    }
  }

  lemma NoLiteral(t: Text)
    requires Starts(t, OPEN)
    ensures !(TRUE <= t) && !(FALSE <= t) && !(NULLS <= t)
  {
    assert TRUE[0] != t[0] && FALSE[0] != t[0] && NULLS[0] != t[0];
  }

  /** stringEnd, intValue, trueValue, falseValue and nullValue. */
  method ReadLeaf(t: Text) returns (r: Option<(Value, Text)>)
    requires !Starts(t, OPEN_LIST) && !(Starts(t, OPEN) && !Extension(t))
    ensures r == ValueAt(t) && (r.Some? ==> !r.value.0.Doc?)
  {
    if t == [] {
      return None;
    }
    if t[0] == QUOTE || t[0] == 39 {
      var inside := Inside(t[1..], t[0]);
      return match inside case None => None case Some((x, rest)) => Some((Str(STRING, x), rest));
    }
    if t[0] == MINUS || t[0] == 43 || LexNum.IsNumber(t[0]) {
      return ParseNumber(t);
    }
    if TRUE <= t {
      return Some((Raw(BOOL, [1]), t[4..]));
    }
    if FALSE <= t {
      return Some((Raw(BOOL, [0]), t[5..]));
    }
    if NULLS <= t {
      return Some((Raw(NULL, []), t[4..]));
    }
    return None;
  }

  /** What is inside the braces or brackets. */
  function ParseNested(tag: byte, s: Text): (r: Option<(seq<Field>, Text)>)
    ensures r.Some? ==> |r.value.1| < |s|
  {
    if tag == ARRAY then ParseList(s) else ParseDoc(s)
  }

  /** pushObject or pushArray, the inside, and pop, which ends in the constructor of BSONObj. */
  method ReadNested(o: BsonObjBuilder, tag: byte, name: seq<byte>, t: Text) returns (ok: bool, rest: Text)
    requires o.b.Valid() && (!o.b.thrown ==> 4 <= o.b.l) && t != [] && (tag == OBJECT || tag == ARRAY)
    modifies o.b, o.b.data
    ensures o.b.Valid() && (o.b.data == old(o.b.data) || fresh(o.b.data))
    ensures ok == ParseNested(tag, t[1..]).Some?
    ensures ok ==> rest == ParseNested(tag, t[1..]).value.1
    ensures ok ==>
      Appended(old(o.b.Contents()), old(o.b.thrown), o.b.Contents(), o.b.thrown,
               EncodeField(Field(name, Doc(tag, ParseNested(tag, t[1..]).value.0))))
    ensures ok && !o.b.thrown ==> Allowed(Doc(tag, ParseNested(tag, t[1..]).value.0))
    decreases |t|, 2
  {
    ghost var was, threw := o.b.Contents(), o.b.thrown;
    o.AppendHeader(tag, name);
    ghost var mid, throws := o.b.Contents(), o.b.thrown;
    ok, rest := ReadInside(o.b, tag, t[1..]);
    if ok {
      ghost var fs := ParseNested(tag, t[1..]).value.0;
      AppendedTwice(was, threw, mid, throws, o.b.Contents(), o.b.thrown, [tag] + CString(name), EncodeDoc(fs));
      assert EncodeField(Field(name, Doc(tag, fs))) == [tag] + CString(name) + EncodeDoc(fs);
    }
  }

  method ReadInside(b: BufBuilder, tag: byte, s: Text) returns (ok: bool, rest: Text)
    requires b.Valid() && (!b.thrown ==> 4 <= b.l)
    modifies b, b.data
    ensures b.Valid() && (b.data == old(b.data) || fresh(b.data))
    ensures ok == ParseNested(tag, s).Some?
    ensures ok ==> rest == ParseNested(tag, s).value.1
    ensures ok ==>
      Appended(old(b.Contents()), old(b.thrown), b.Contents(), b.thrown, EncodeDoc(ParseNested(tag, s).value.0))
    ensures ok && !b.thrown ==> Allowed(Doc(tag, ParseNested(tag, s).value.0))
    decreases |s|, 6
  {
    ghost var was, threw := b.Contents(), b.thrown;
    var o := new BsonObjBuilder(b);
    ghost var begun, failed := b.Contents(), b.thrown;
    ghost var fs: seq<Field> := [];
    ok, rest, fs := ReadFields(o, tag, s);
    if ok {
      assert !b.thrown ==> begun == was + begun[|was|..];
      o.Done(was, threw, fs);
      assert !b.thrown ==> b.l == |was| + |EncodeDoc(fs)|;
      b.Construct(o.offset);
    }
  }

  /** The members or elements up to the closing brace or bracket, if there are any. */
  method ReadFields(o: BsonObjBuilder, tag: byte, s: Text) returns (ok: bool, rest: Text, ghost fs: seq<Field>)
    requires o.b.Valid() && (!o.b.thrown ==> 4 <= o.b.l)
    modifies o.b, o.b.data
    ensures o.b.Valid() && (o.b.data == old(o.b.data) || fresh(o.b.data))
    ensures ok == ParseNested(tag, s).Some?
    ensures ok ==> ParseNested(tag, s) == Some((fs, rest))
    ensures ok ==> Appended(old(o.b.Contents()), old(o.b.thrown), o.b.Contents(), o.b.thrown, EncodeFields(fs))
    decreases |s|, 5
  {
    var u := Skip(s);
    var close := if tag == ARRAY then CLOSE_LIST else CLOSE;
    if Starts(u, close) {
      ok, rest, fs := true, u[1..], [];
      Nothing(o.b.Contents(), o.b.thrown);
      return;
    }
    if tag == ARRAY {
      ok, rest, fs := ReadElements(o, s);
    } else {
      ok, rest, fs := ReadMembers(o, s);
    }
    if ok {
      ok := Starts(rest, close);
      rest := if ok then rest[1..] else rest;
    }
  }

  lemma Nothing(content: seq<byte>, thrown: bool)
    ensures Appended(content, thrown, content, thrown, EncodeFields([]))
  {
  }

  lemma {:induction false} OneAppended(was: seq<byte>, threw: bool, mid: seq<byte>, throws: bool, now: seq<byte>, thrown: bool,
      fs: seq<Field>, f: Field)
    requires Appended(was, threw, mid, throws, EncodeFields(fs)) && Appended(mid, throws, now, thrown, EncodeField(f))
    ensures Appended(was, threw, now, thrown, EncodeFields(fs + [f]))
  {
    OneMore(fs, f);
    AppendedTwice(was, threw, mid, throws, now, thrown, EncodeFields(fs), EncodeField(f));
  }

  /** Reading on from `left` after `done` gives what reading all of `s` does. */
  ghost predicate MembersGoOn(s: Text, done: seq<Field>, left: Text) {
    ParseMembers(s) == match ParseMembers(left) case None => None case Some((fs, rest)) => Some((done + fs, rest))
  }

  lemma MembersStart(s: Text)
    ensures MembersGoOn(s, [], s) && ElementsGoOn(s, [], s, 0)
  {
    if ParseMembers(s).Some? {
      assert [] + ParseMembers(s).value.0 == ParseMembers(s).value.0;
    }
    if ParseElements(s, 0).Some? {
      assert [] + ParseElements(s, 0).value.0 == ParseElements(s, 0).value.0;
    }
  }

  lemma {:induction false} MembersTurn(s: Text, done: seq<Field>, left: Text, f: Field, u: Text)
    requires MembersGoOn(s, done, left) && ParseMembers(left) == MoreMembers(f, u)
    ensures Starts(u, COMMA) ==> MembersGoOn(s, done + [f], u[1..])
    ensures !Starts(u, COMMA) ==> ParseMembers(s) == Some((done + [f], u))
  {
    if Starts(u, COMMA) && ParseMembers(u[1..]).Some? {
      Associates(done, [f], ParseMembers(u[1..]).value.0);
    }
  }

  method ReadMembers(o: BsonObjBuilder, s: Text) returns (ok: bool, rest: Text, ghost done: seq<Field>)
    requires o.b.Valid() && (!o.b.thrown ==> 4 <= o.b.l)
    modifies o.b, o.b.data
    ensures o.b.Valid() && (o.b.data == old(o.b.data) || fresh(o.b.data))
    ensures ok == ParseMembers(s).Some?
    ensures ok ==> ParseMembers(s) == Some((done, rest))
    ensures ok ==> Appended(old(o.b.Contents()), old(o.b.thrown), o.b.Contents(), o.b.thrown, EncodeFields(done))
    decreases |s|, 4
  {
    var left := s;
    done := [];
    ghost var was, threw := o.b.Contents(), o.b.thrown;
    Nothing(was, threw);
    MembersStart(s);
    while true
      invariant o.b.Valid() && (o.b.data == old(o.b.data) || fresh(o.b.data)) && |left| <= |s|
      invariant MembersGoOn(s, done, left)
      invariant Appended(was, threw, o.b.Contents(), o.b.thrown, EncodeFields(done))
      decreases |left|
    {
      var head := ParseName(Skip(left));
      if head == None || !Starts(Skip(head.value.1), COLON) {
        return false, [], done;
      }
      ghost var mid, throws := o.b.Contents(), o.b.thrown;
      var more;
      ghost var start := Skip(head.value.1)[1..];
      ok, more := ReadValue(o, head.value.0, Skip(head.value.1)[1..]);
      if !ok {
        return false, [], done;
      }
      ghost var f := Field(head.value.0, ParseValue(start).value.0);
      OneAppended(was, threw, mid, throws, o.b.Contents(), o.b.thrown, done, f);
      rest := Skip(more);
      MembersTurn(s, done, left, f, rest);
      done := done + [f];
      if !Starts(rest, COMMA) {
        return true, rest, done;
      }
      left := rest[1..];
    }
  }

  ghost predicate ElementsGoOn(s: Text, done: seq<Field>, left: Text, index: nat) {
    ParseElements(s, 0) == match ParseElements(left, index) case None => None case Some((fs, rest)) => Some((done + fs, rest))
  }

  lemma {:induction false} ElementsTurn(s: Text, done: seq<Field>, left: Text, index: nat, v: Value, more: Text)
    requires ElementsGoOn(s, done, left, index) && ParseValue(left) == Some((v, more))
    ensures Starts(Skip(more), COMMA) ==> ElementsGoOn(s, done + [Field(Decimal(index), v)], Skip(more)[1..], index + 1)
    ensures !Starts(Skip(more), COMMA) ==> ParseElements(s, 0) == Some((done + [Field(Decimal(index), v)], Skip(more)))
  {
    var u := Skip(more);
    if Starts(u, COMMA) && ParseElements(u[1..], index + 1).Some? {
      Associates(done, [Field(Decimal(index), v)], ParseElements(u[1..], index + 1).value.0);
    }
  }

  /** arrayNext counts the elements, nameFromIndex names them. */
  method ReadElements(o: BsonObjBuilder, s: Text) returns (ok: bool, rest: Text, ghost done: seq<Field>)
    requires o.b.Valid() && (!o.b.thrown ==> 4 <= o.b.l)
    modifies o.b, o.b.data
    ensures o.b.Valid() && (o.b.data == old(o.b.data) || fresh(o.b.data))
    ensures ok == ParseElements(s, 0).Some?
    ensures ok ==> ParseElements(s, 0) == Some((done, rest))
    ensures ok ==> Appended(old(o.b.Contents()), old(o.b.thrown), o.b.Contents(), o.b.thrown, EncodeFields(done))
    decreases |s|, 4
  {
    var left, index := s, 0;
    done := [];
    ghost var was, threw := o.b.Contents(), o.b.thrown;
    Nothing(was, threw);
    MembersStart(s);
    while true
      invariant o.b.Valid() && (o.b.data == old(o.b.data) || fresh(o.b.data)) && |left| <= |s|
      invariant ElementsGoOn(s, done, left, index)
      invariant Appended(was, threw, o.b.Contents(), o.b.thrown, EncodeFields(done))
      decreases |left|
    {
      ghost var mid, throws := o.b.Contents(), o.b.thrown;
      var more;
      ok, more := ReadValue(o, Decimal(index), left);
      if !ok {
        return false, [], done;
      }
      ghost var f := Field(Decimal(index), ParseValue(left).value.0);
      OneAppended(was, threw, mid, throws, o.b.Contents(), o.b.thrown, done, f);
      rest := Skip(more);
      ElementsTurn(s, done, left, index, f.value, more);
      done := done + [f];
      if !Starts(rest, COMMA) {
        return true, rest, done;
      }
      left, index := rest[1..], index + 1;
    }
  }

  /**
   fromjson: the bytes of the document the text reads as; it fails exactly where the text does not read, or the
   document is longer than BSONObj allows.
   */
  method ReadJson(text: Text) returns (doc: seq<byte>, ok: bool)
    ensures ok <==> FromJson(text).Some? && |EncodeDoc(FromJson(text).value)| <= MAX_INTERNAL
    ensures ok ==> doc == EncodeDoc(FromJson(text).value)
  {
    doc := [];
    if text == [] {
      doc, ok := Build([]);
      return;
    }
    var t := Skip(text);
    if !Starts(t, OPEN) {
      return [], false;
    }
    var b := new BufBuilder(512 + 4);
    b.Write(W(0));
    var rest;
    ok, rest := ReadInside(b, OBJECT, t[1..]);
    ok := ok && Skip(rest) == [] && !b.thrown;
    if ok {
      doc := b.data[4..b.l];
      assert doc == b.Contents()[4..];
    }
  }
}
