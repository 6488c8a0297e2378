/** Reading the key of a document through a pointer to its `_id` element, as the index does. */
module DocPointers {
  import opened Bytes
  import Bson
  import opened BsonRead
  import opened RecordKey
  import P = PointerKeys
  import PointerRuns
  import Index
  import Rtn
  import Runs

  /** How far behind the size of the document its `_id` element begins. */
  function Before(fs: seq<Bson.Field>): nat {
    if fs == [] || fs[0].name == ID then 0 else |Bson.EncodeField(fs[0])| + Before(fs[1..])
  }

  function IdAt(record: seq<byte>): nat {
    match DecodeDoc(record) case None => 0 case Some(fs) => 4 + Before(fs)
  }

  /** type(), and value() over valuesize() bytes, of an element that is an int or a string; no key otherwise. */
  function KeyAt(mem: seq<byte>): Index.Key {
    if mem == [] then Index.Key(0, [])
    else
      match Bson.StrLen(mem[1..])
      case None => Index.Key(0, [])
      case Some(k) =>
        var v := mem[1 + k + 1..];
        if mem[0] == Bson.INT && 4 <= |v| then Index.Key(Bson.INT, v[..4])
        else if mem[0] == Bson.STRING && 4 <= |v| && 4 + U32(v, 0) <= |v| then Index.Key(Bson.STRING, v[..4 + U32(v, 0)])
        else Index.Key(0, [])
  }

  function ById(): P.Reading {
    P.Reading(IdAt, KeyAt)
  }

  lemma {:induction false} ElementShows(f: Bson.Field, rest: seq<byte>)
    requires Bson.NulFree(f.name) && Bson.ValueOk(f.value) && |Bson.EncodeField(f)| < 0x8000_0000
    requires Bson.Tag(f.value) == Bson.INT || Bson.Tag(f.value) == Bson.STRING
    ensures KeyAt(Bson.EncodeField(f) + rest) == Index.Key(Bson.Tag(f.value), Bson.EncodeValue(f.value))
  {
    var m, n, k, w := Bson.EncodeField(f) + rest, |Bson.EncodeField(f)|, |f.name|, Bson.EncodeValue(f.value);
    FieldParts(f, rest);
    assert m[1 + k + 1..] == m[1 + k + 1..n] + m[n..] == w + rest;
    if Bson.Tag(f.value) == Bson.STRING {
      assert w == Bson.W(|f.value.s| + 1) + Bson.CString(f.value.s);
      SameWord(w + rest, 0, Bson.W(|f.value.s| + 1), 0);
    }
    assert (w + rest)[..|w|] == w;
  }

  /** Where the element of the name begins, and what follows it. */
  lemma {:induction false} ElementHere(fs: seq<Bson.Field>) returns (rest: seq<byte>)
    requires Lookup(fs, ID).Some?
    ensures Before(fs) <= |Bson.EncodeFields(fs)|
    ensures Bson.EncodeFields(fs)[Before(fs)..] == Bson.EncodeField(Lookup(fs, ID).value) + rest
  {
    if fs[0].name == ID {
      rest := Bson.EncodeFields(fs[1..]);
    } else {
      rest := ElementHere(fs[1..]);
      var e, more := Bson.EncodeField(fs[0]), Bson.EncodeFields(fs[1..]);
      assert (e + more)[|e| + Before(fs[1..])..] == more[Before(fs[1..])..];
    }
  }

  /** The key of a built document is what a pointer to its `_id` shows, whatever follows the document. */
  lemma {:induction false} DocumentReads(fs: seq<Bson.Field>, hash: Index.Key -> nat)
    requires Bson.FieldsOk(fs) && |Bson.EncodeDoc(fs)| < 0x8000_0000
    ensures P.Reads(Rtn.Env(KeyOf, hash), ById(), Bson.EncodeDoc(fs))
  {
    KeyOfBuilt(fs);
    DecodeEncode(fs);
    if KeyIn(fs).Some? {
      var f := Lookup(fs, ID).value;
      LookupOk(fs, ID);
      var rest := ElementHere(fs);
      LookupSmall(fs);
      FromId(fs, f, rest, hash);
    }
  }

  lemma {:induction false} LookupSmall(fs: seq<Bson.Field>)
    requires Lookup(fs, ID).Some?
    ensures |Bson.EncodeField(Lookup(fs, ID).value)| <= |Bson.EncodeFields(fs)|
  {
    if fs[0].name != ID {
      LookupSmall(fs[1..]);
    }
  }

  lemma {:induction false} FromId(fs: seq<Bson.Field>, f: Bson.Field, rest: seq<byte>, hash: Index.Key -> nat)
    requires Bson.NulFree(f.name) && Bson.ValueOk(f.value) && |Bson.EncodeField(f)| < 0x8000_0000
    requires Bson.Tag(f.value) == Bson.INT || Bson.Tag(f.value) == Bson.STRING
    requires KeyOf(Bson.EncodeDoc(fs)) == Some(Index.Key(Bson.Tag(f.value), Bson.EncodeValue(f.value)))
    requires IdAt(Bson.EncodeDoc(fs)) == 4 + Before(fs) && Before(fs) <= |Bson.EncodeFields(fs)|
    requires Bson.EncodeFields(fs)[Before(fs)..] == Bson.EncodeField(f) + rest
    ensures P.Reads(Rtn.Env(KeyOf, hash), ById(), Bson.EncodeDoc(fs))
  {
    var rec, at := Bson.EncodeDoc(fs), 4 + Before(fs);
    assert rec[at..] == Bson.EncodeFields(fs)[Before(fs)..] + [0] by {
      assert rec[4..] == Bson.EncodeFields(fs) + [0];
      assert rec[at..] == rec[4..][Before(fs)..];
    }
    forall tail
      ensures KeyAt(rec[at..] + tail) == KeyOf(rec).value
    {
      assert rec[at..] + tail == Bson.EncodeField(f) + (rest + [0] + tail);
      ElementShows(f, rest + [0] + tail);
    }
  }

  lemma {:induction false} DocumentsLegible(hash: Index.Key -> nat, ops: seq<Rtn.Op>)
    requires OfDocuments(ops)
    ensures (forall op :: op in ops ==> Runs.Proper(op)) && PointerRuns.AllLegible(Rtn.Env(KeyOf, hash), ById(), ops)
  {
    forall op | op in ops && op.Insert?
      ensures Runs.Proper(op) && P.Reads(Rtn.Env(KeyOf, hash), ById(), op.rec)
    {
      var fs :| Bson.FieldsOk(fs) && op.rec == Bson.EncodeDoc(fs);
      KeyOfBuilt(fs);
      DocumentReads(fs, hash);
    }
  }

  /**
   Over documents, its keys read through pointers to their `_id`, the store is a map on every run from a
   new file whose inserts move no record; with the stride as written too, if none compacts a page with
   live records.
   */
  lemma {:induction false} PointerStoreOfDocuments(hash: Index.Key -> nat, room: nat, ops: seq<Rtn.Op>)
    requires OfDocuments(ops) && (forall op :: op in ops ==> Runs.Proper(op)) && Rtn.Sane(Runs.New(room))
    requires PointerRuns.StillRun(Rtn.Env(KeyOf, hash), Runs.New(room), ops)
    ensures P.Shaped(P.New(room))
    ensures var env := Rtn.Env(KeyOf, hash);
      && Runs.Conforms(env, map[], ops, P.Run(env, ById(), P.New(room), ops, 8))
      && (Runs.SparedRun(env, Runs.New(room), ops) ==>
            Runs.Conforms(env, map[], ops, P.Run(env, ById(), P.New(room), ops, 0)))
  {
    var env := Rtn.Env(KeyOf, hash);
    DocumentsLegible(hash, ops);
    PointerRuns.NewPoints(env, ById(), room);
    PointerRuns.PointerRunAgrees(env, ById(), Runs.New(room), P.New(room), map[], ops);
    if Runs.SparedRun(env, Runs.New(room), ops) {
      PointerRuns.AsWrittenAgrees(env, ById(), Runs.New(room), P.New(room), map[], ops);
    }
  }
}
