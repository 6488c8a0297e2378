/** Runs of the store over documents: it answers as a finite map from `_id` values to documents. */
module DocRuns {
  import opened Bytes
  import opened Bson
  import opened RecordKey
  import Index
  import Page
  import Refinement
  import Rtn
  import Runs

  datatype Request = Insert(doc: seq<Field>) | Find(doc: seq<Field>) | Remove(doc: seq<Field>) | Reopen

  type Docs = map<Value, seq<Field>>

  /** Documents whose names have no NUL and whose size fits a signed int. */
  predicate Built(q: Request) {
    q.Reopen? || (FieldsOk(q.doc) && |EncodeDoc(q.doc)| < 0x8000_0000)
  }

  /** The bytes handed to the store. */
  function OpOf(q: Request): Rtn.Op {
    match q
    case Insert(doc) => Rtn.Insert(EncodeDoc(doc))
    case Find(doc) => Rtn.Find(EncodeDoc(doc))
    case Remove(doc) => Rtn.Remove(EncodeDoc(doc))
    case Reopen => Rtn.Reopen
  }

  function OpsOf(qs: seq<Request>): (ops: seq<Rtn.Op>)
    ensures |ops| == |qs| && forall i :: 0 <= i < |qs| ==> ops[i] == OpOf(qs[i])
  {
    if qs == [] then [] else [OpOf(qs[0])] + OpsOf(qs[1..])
  }

  /** What a map from `_id` values to documents may reply to a request for the document of `_id` v. */
  predicate Allowed(m: Docs, q: Request, v: Value, reply: Rtn.Reply) {
    match q
    case Insert(_) => if v in m then reply == Rtn.IdExists else reply == Rtn.Done || reply == Rtn.SysError
    case Find(_) => reply == if v in m then Rtn.Got(EncodeDoc(m[v])) else Rtn.InvalidArg
    case Remove(_) => reply == if v in m then Rtn.Done else Rtn.InvalidArg
    case Reopen => true
  }

  function After(m: Docs, q: Request, v: Value, reply: Rtn.Reply): Docs {
    if q.Insert? && reply == Rtn.Done then m[v := q.doc]
    else if q.Remove? && reply == Rtn.Done then m - {v}
    else m
  }

  /** The replies are those of such a map; a document without an `_id` is refused and changes nothing. */
  ghost predicate Conforms(m: Docs, qs: seq<Request>, replies: seq<Rtn.Reply>)
    decreases |qs|
  {
    if qs == [] || replies == [] then qs == [] && replies == []
    else if qs[0].Reopen? then replies[0] == Rtn.Done && Conforms(m, qs[1..], replies[1..])
    else if exists v :: IsId(qs[0].doc, v) then
      exists v :: IsId(qs[0].doc, v) && Allowed(m, qs[0], v, replies[0]) && Conforms(After(m, qs[0], v, replies[0]), qs[1..], replies[1..])
    else replies[0] == Rtn.InvalidArg && Conforms(m, qs[1..], replies[1..])
  }

  predicate Keyed(v: Value) {
    (v.Raw? && v.tag == 16) || (v.Str? && v.tag == 2)
  }

  /** The table of bytes holds, under the keys of `_id` values, what the map of documents holds. */
  ghost predicate Related(t: Refinement.Table, m: Docs) {
    forall v :: Keyed(v) ==> (v in m <==> KeyFor(v) in t) && (v in m ==> t[KeyFor(v)] == EncodeDoc(m[v]))
  }

  lemma {:induction false} Adds(t: Refinement.Table, m: Docs, v: Value, doc: seq<Field>)
    requires Related(t, m) && Keyed(v)
    ensures Related(t[KeyFor(v) := EncodeDoc(doc)], m[v := doc])
  {
    forall w | Keyed(w) && KeyFor(w) == KeyFor(v)
      ensures w == v
    {
      KeysDiffer(w, v);
    }
  }

  lemma {:induction false} TakesOut(t: Refinement.Table, m: Docs, v: Value)
    requires Related(t, m) && Keyed(v)
    ensures Related(t - {KeyFor(v)}, m - {v})
  {
    forall w | Keyed(w) && KeyFor(w) == KeyFor(v)
      ensures w == v
    {
      KeysDiffer(w, v);
    }
  }

  lemma {:induction false} StepIs(env: Rtn.Env, t: Refinement.Table, m: Docs, q: Request, v: Value, reply: Rtn.Reply)
    requires env.keyOf == KeyOf && Related(t, m) && Built(q) && !q.Reopen? && IsId(q.doc, v)
    requires Runs.Allowed(env, t, OpOf(q), reply)
    ensures Allowed(m, q, v, reply)
    ensures Related(Runs.After(env, t, OpOf(q), reply), After(m, q, v, reply))
  {
    KeyIsId(q.doc);
    assert Keyed(v);
    match q
    case Insert(doc) => Adds(t, m, v, doc);
    case Find(_) =>
    case Remove(_) => TakesOut(t, m, v);
  }

  lemma {:induction false} ConformsToo(env: Rtn.Env, t: Refinement.Table, m: Docs, qs: seq<Request>, replies: seq<Rtn.Reply>)
    requires env.keyOf == KeyOf && Related(t, m) && forall q :: q in qs ==> Built(q)
    requires Runs.Conforms(env, t, OpsOf(qs), replies)
    ensures Conforms(m, qs, replies)
    decreases |qs|
  {
    if qs != [] {
      var q, reply := qs[0], replies[0];
      assert q in qs && Built(q);
      assert OpsOf(qs)[1..] == OpsOf(qs[1..]);
      if !q.Reopen? && exists v :: IsId(q.doc, v) {
        var v :| IsId(q.doc, v);
        StepIs(env, t, m, q, v, reply);
        ConformsToo(env, Runs.After(env, t, OpOf(q), reply), After(m, q, v, reply), qs[1..], replies[1..]);
      } else {
        if !q.Reopen? {
          KeyIsId(q.doc);
        }
        ConformsToo(env, t, m, qs[1..], replies[1..]);
      }
    }
  }

  lemma {:induction false} AreDocuments(qs: seq<Request>)
    requires forall q :: q in qs ==> Built(q)
    ensures OfDocuments(OpsOf(qs))
  {
    forall op | op in OpsOf(qs) && op.Insert?
      ensures |op.rec| < 0x8000_0000 && exists fs :: FieldsOk(fs) && op.rec == EncodeDoc(fs)
    {
      var i :| 0 <= i < |qs| && OpsOf(qs)[i] == op;
      assert OpOf(qs[i]) == op && Built(qs[i]) && FieldsOk(qs[i].doc);
    }
  }

  /**
   From a new file, for every hash function, every disk size and every sequence of requests, the store
   answers as a finite map from the values of `_id` to documents: two documents are the same entry
   exactly if their `_id`s agree in type and value.
   */
  lemma {:induction false} StoreIsAMap(hash: Index.Key -> nat, room: nat, qs: seq<Request>)
    requires forall q :: q in qs ==> Built(q)
    ensures var env := Rtn.Env(KeyOf, hash);
      Rtn.Sane(Runs.New(room)) && (forall op :: op in OpsOf(qs) ==> Runs.Proper(op))
      && Conforms(map[], qs, Runs.Run(env, Runs.New(room), OpsOf(qs), 8))
  {
    AreDocuments(qs);
    DocumentStoreIsAMap(hash, room, OpsOf(qs));
    ConformsToo(Rtn.Env(KeyOf, hash), map[], map[], qs, Runs.Run(Rtn.Env(KeyOf, hash), Runs.New(room), OpsOf(qs), 8));
  }
}
