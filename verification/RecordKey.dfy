/** The key of a record: its `_id`, if that is a 32-bit integer or a string. */
module RecordKey {
  import opened Bytes
  import Bson
  import opened BsonRead
  import Page
  import Index
  import Rtn
  import Runs

  const ID: seq<byte> := [95, 105, 100]   // "_id"

  /** What _processData makes of the fields of a record. */
  function KeyIn(fs: seq<Bson.Field>): Option<Index.Key> {
    match Lookup(fs, ID)
    case None => None
    case Some(f) =>
      if Bson.Tag(f.value) == Bson.INT || Bson.Tag(f.value) == Bson.STRING
      then Some(Index.Key(Bson.Tag(f.value), Bson.EncodeValue(f.value)))
      else None
  }

  function KeyOf(record: seq<byte>): Option<Index.Key> {
    match DecodeDoc(record) case None => None case Some(fs) => KeyIn(fs)
  }

  /** A built document is a record, and its key is its `_id`: the type byte and the value bytes. */
  lemma {:induction false} KeyOfBuilt(fs: seq<Bson.Field>)
    requires Bson.FieldsOk(fs) && |Bson.EncodeDoc(fs)| < 0x8000_0000
    ensures Page.IsObj(Bson.EncodeDoc(fs)) && KeyOf(Bson.EncodeDoc(fs)) == KeyIn(fs)
  {
    DecodeEncode(fs);
    BuiltMemory(Bson.EncodeDoc(fs), fs);
  }

  /**
   The `_id` of a document: the value of the first field named by the bytes 95, 105, 100, if that is a
   32-bit integer (type 16) or a string (type 2).
   */
  ghost predicate IsId(fs: seq<Bson.Field>, v: Bson.Value) {
    && ((v.Raw? && v.tag == 16) || (v.Str? && v.tag == 2))
    && exists i: nat :: i < |fs| && FirstNamed(fs, i) && fs[i].value == v
  }

  ghost predicate FirstNamed(fs: seq<Bson.Field>, i: nat)
    requires i < |fs|
  {
    fs[i].name == [95, 105, 100] && forall j: nat :: j < i ==> fs[j].name != [95, 105, 100]
  }

  /** The type byte, and the four bytes of an integer, or length, characters and NUL of a string. */
  function KeyFor(v: Bson.Value): Index.Key
    requires v.Raw? || v.Str?
  {
    match v
    case Raw(_, raw) => Index.Key(16, raw)
    case Str(_, s) => Index.Key(2, Bson.W(|s| + 1) + s + [0])
  }

  lemma {:induction false} LookupFirst(fs: seq<Bson.Field>, i: nat)
    requires i < |fs| && FirstNamed(fs, i)
    ensures Lookup(fs, [95, 105, 100]) == Some(fs[i])
  {
    if i > 0 {
      var rest := fs[1..];
      assert forall j: nat :: j < |rest| ==> rest[j] == fs[j + 1];
      LookupFirst(rest, i - 1);
    }
  }

  lemma {:induction false} FirstIs(fs: seq<Bson.Field>) returns (i: nat)
    requires Lookup(fs, [95, 105, 100]).Some?
    ensures i < |fs| && FirstNamed(fs, i) && Lookup(fs, [95, 105, 100]) == Some(fs[i])
  {
    if fs[0].name == [95, 105, 100] {
      i := 0;
    } else {
      var k := FirstIs(fs[1..]);
      assert forall j: nat :: j < |fs[1..]| ==> fs[1..][j] == fs[j + 1];
      i := k + 1;
    }
  }

  /** A built document has the key of its `_id`, and none exactly if it has no `_id` of these two types. */
  lemma {:induction false} KeyIsId(fs: seq<Bson.Field>)
    requires Bson.FieldsOk(fs) && |Bson.EncodeDoc(fs)| < 0x8000_0000
    ensures forall v :: IsId(fs, v) ==> KeyOf(Bson.EncodeDoc(fs)) == Some(KeyFor(v))
    ensures KeyOf(Bson.EncodeDoc(fs)).Some? ==> exists v :: IsId(fs, v)
  {
    KeyOfBuilt(fs);
    forall v | IsId(fs, v)
      ensures KeyIn(fs) == Some(KeyFor(v))
    {
      var i: nat :| i < |fs| && FirstNamed(fs, i) && fs[i].value == v;
      LookupFirst(fs, i);
      assert v.Str? ==> Bson.W(|v.s| + 1) + v.s + [0] == Bson.W(|v.s| + 1) + Bson.CString(v.s);
    }
    if KeyIn(fs).Some? {
      var i := FirstIs(fs);
      LookupOk(fs, ID);
      assert IsId(fs, fs[i].value);
    }
  }

  lemma {:induction false} KeysDiffer(v: Bson.Value, w: Bson.Value)
    requires (v.Raw? && v.tag == 16) || (v.Str? && v.tag == 2)
    requires (w.Raw? && w.tag == 16) || (w.Str? && w.tag == 2)
    requires KeyFor(v) == KeyFor(w)
    ensures v == w
  {
    if v.Str? {
      var x, y := KeyFor(v).val, KeyFor(w).val;
      assert |x| == |v.s| + 5 && |y| == |w.s| + 5;
      assert x[4..|x| - 1] == v.s && y[4..|y| - 1] == w.s;
    }
  }

  /** Two documents have the same key exactly if they have the same `_id`, in type and in value. */
  lemma {:induction false} SameKeyIff(fs: seq<Bson.Field>, gs: seq<Bson.Field>)
    requires Bson.FieldsOk(fs) && |Bson.EncodeDoc(fs)| < 0x8000_0000
    requires Bson.FieldsOk(gs) && |Bson.EncodeDoc(gs)| < 0x8000_0000
    ensures KeyOf(Bson.EncodeDoc(fs)).Some? && KeyOf(Bson.EncodeDoc(fs)) == KeyOf(Bson.EncodeDoc(gs))
      <==> exists v :: IsId(fs, v) && IsId(gs, v)
  {
    KeyIsId(fs);
    KeyIsId(gs);
    if KeyOf(Bson.EncodeDoc(fs)).Some? && KeyOf(Bson.EncodeDoc(fs)) == KeyOf(Bson.EncodeDoc(gs)) {
      var v :| IsId(fs, v);
      var w :| IsId(gs, w);
      KeysDiffer(v, w);
    }
  }

  /** _processData: the element found by getField, its type checked, its value compared as bytes. */
  method ProcessData(record: seq<byte>, ghost fs: seq<Bson.Field>) returns (key: Option<Index.Key>)
    requires Bson.FieldsOk(fs) && record == Bson.EncodeDoc(fs) && |record| < 0x8000_0000
    ensures key == KeyOf(record)
    ensures forall v :: IsId(fs, v) ==> key == Some(KeyFor(v))
    ensures key.Some? ==> exists v :: IsId(fs, v)
  {
    KeyIsId(fs);
    KeyOfBuilt(fs);
    ghost var found := Lookup(fs, ID);
    if found.Some? {
      LookupOk(fs, ID);
      FieldParts(found.value, []);
      assert Bson.EncodeField(found.value) + [] == Bson.EncodeField(found.value);
    }
    var e := GetField(record, ID, fs);
    if e[0] != Bson.INT && e[0] != Bson.STRING {
      return None;
    }
    var k := Bson.StrLen(e[1..]);
    key := Some(Index.Key(e[0], e[1 + k.value + 1..]));
  }

  lemma {:induction false} LookupOk(fs: seq<Bson.Field>, name: seq<byte>)
    requires Bson.FieldsOk(fs) && Lookup(fs, name).Some?
    ensures Bson.NulFree(Lookup(fs, name).value.name) && Bson.ValueOk(Lookup(fs, name).value.value)
  {
    if fs[0].name != name {
      LookupOk(fs[1..], name);
    }
  }

  /** The requests of a run whose records are built documents. */
  ghost predicate OfDocuments(ops: seq<Rtn.Op>) {
    forall op :: op in ops && op.Insert? ==>
      |op.rec| < 0x8000_0000 && exists fs :: Bson.FieldsOk(fs) && op.rec == Bson.EncodeDoc(fs)
  }

  /**
   Over documents the store is a map from `_id` values to documents: what StoreIsAMap says of every
   way to read a key, for the one the code uses.
   */
  lemma {:induction false} DocumentStoreIsAMap(hash: Index.Key -> nat, room: nat, ops: seq<Rtn.Op>)
    requires OfDocuments(ops)
    ensures var env := Rtn.Env(KeyOf, hash);
      Rtn.Sane(Runs.New(room)) && (forall op :: op in ops ==> Runs.Proper(op))
      && Runs.Conforms(env, map[], ops, Runs.Run(env, Runs.New(room), ops, 8))
  {
    forall op | op in ops
      ensures Runs.Proper(op)
    {
      if op.Insert? {
        var fs :| Bson.FieldsOk(fs) && op.rec == Bson.EncodeDoc(fs);
        KeyOfBuilt(fs);
      }
    }
    Runs.StoreIsAMap(Rtn.Env(KeyOf, hash), room, ops);
  }
}
