/**
 The store: rtnInsert, rtnFind and rtnRemove over the index and the storage file, and reopening.
 How a key is read from a record and how keys are hashed are parameters.
 */
module Rtn {
  import opened Bytes
  import opened Page
  import opened PageBytes
  import opened Dms
  import DmsOps
  import Index
  import FreeMap
  import opened Refinement

  datatype Env = Env(keyOf: KeyOf, hash: Key -> nat)

  datatype Store = Store(file: File, index: seq<seq<Index.Entry>>)

  datatype Reply = Done | Got(data: seq<byte>) | IdExists | InvalidArg | SysError

  datatype Op = Insert(rec: seq<byte>) | Find(query: seq<byte>) | Remove(query: seq<byte>) | Reopen

  /** File and index are each in order. */
  predicate Sane(s: Store) {
    Dms.Valid(s.file) && Index.Valid(s.index)
  }

  /** Multimap and buckets are in order, whatever the pages hold: all that the operations need to run. */
  predicate Shaped(s: Store) {
    FreeMap.Sorted(s.file.free) && Index.Ordered(s.index)
  }

  /** The store as an index over records. */
  function PairOf(env: Env, s: Store): (a: Pair)
    requires Sane(s)
    ensures forall key :: a.find(key) == Index.Find(s.index, env.hash, key)
    ensures forall rid :: a.rec(rid) == Record(s.file, rid)
  {
    Pair((key: Key) => Index.Find(s.index, env.hash, key), (rid: RecordID) => Record(s.file, rid))
  }

  /** The invariant of every reachable store. */
  ghost predicate Valid(env: Env, s: Store) {
    Sane(s) && Consistent(env.keyOf, PairOf(env, s))
  }

  /** The store holds exactly the entries of `m`. */
  ghost predicate Represents(env: Env, s: Store, m: Table) {
    Valid(env, s) && Models(PairOf(env, s), m)
  }

  // ---------------------------------------------------------------- the three operations

  function RtnInsert(env: Env, s: Store, rec: seq<byte>, hdr: nat): (r: (Store, Reply))
    requires Shaped(s) && |rec| < MAX_OBJECT && hdr <= RECORD
    ensures Shaped(r.0)
  {
    match env.keyOf(rec)
    case None => (s, InvalidArg)
    case Some(key) =>
      if Index.Find(s.index, env.hash, key).Some? then (s, IdExists) else WriteRecord(env, s, rec, hdr)
  }

  function WriteRecord(env: Env, s: Store, rec: seq<byte>, hdr: nat): (r: (Store, Reply))
    requires Shaped(s) && |rec| < MAX_OBJECT
    ensures Shaped(r.0)
  {
    match DmsOps.Insert(s.file, rec, hdr)
    case Failed(f) => (s.(file := f), SysError)
    case Stored(f, rid) => CreateIndex(env, s.(file := f), rid)
  }

  /** createIndex is handed the record as it lies in the page. */
  function CreateIndex(env: Env, s: Store, rid: RecordID): (r: (Store, Reply))
    requires Index.Ordered(s.index)
    ensures r.0.file == s.file && Index.Ordered(r.0.index)
  {
    match DmsOps.Find(s.file, rid)
    case Refused => (s, SysError)
    case Found(out) =>
      match env.keyOf(out)
      case None => (s, InvalidArg)
      case Some(key) => (s.(index := Index.Create(s.index, env.hash, key, rid)), Done)
  }

  function RtnFind(env: Env, s: Store, query: seq<byte>): Reply
    requires Shaped(s)
  {
    match env.keyOf(query)
    case None => InvalidArg
    case Some(key) =>
      match Index.Find(s.index, env.hash, key)
      case None => InvalidArg
      case Some(rid) =>
        match DmsOps.Find(s.file, rid)
        case Refused => SysError
        case Found(data) => Got(data)
  }

  function RtnRemove(env: Env, s: Store, query: seq<byte>): (r: (Store, Reply))
    requires Shaped(s)
    ensures Shaped(r.0)
  {
    match env.keyOf(query) case None => (s, InvalidArg) case Some(key) => RemoveKey(env, s, key)
  }

  /** The entry leaves the index first; for a valid store the record then goes too. */
  function RemoveKey(env: Env, s: Store, key: Key): (r: (Store, Reply))
    requires Shaped(s)
    ensures Shaped(r.0)
  {
    match Index.Find(s.index, env.hash, key)
    case None => (s, InvalidArg)
    case Some(rid) => DropRecord(Store(s.file, Index.Remove(s.index, env.hash, key)), rid)
  }

  function DropRecord(s: Store, rid: RecordID): (t: (Store, Reply))
    requires FreeMap.Sorted(s.file.free)
    ensures FreeMap.Sorted(t.0.file.free) && t.0.index == s.index
  {
    var r := DmsOps.Remove(s.file, rid);
    (s.(file := r.0), if r.1 then Done else SysError)
  }

  /** A successful insert grows the pair by the record. */
  lemma {:induction false} InsertGrows(env: Env, s: Store, rec: seq<byte>, key: Key, f: File, at: RecordID)
    requires Sane(s) && env.keyOf(rec) == Some(key) && Index.Find(s.index, env.hash, key) == None
    requires IsObj(rec) && |rec| < MAX_OBJECT && DmsOps.Insert(s.file, rec, RECORD) == Stored(f, at)
    ensures CreateIndex(env, s.(file := f), at) == (Store(f, Index.Create(s.index, env.hash, key, at)), Done)
    ensures Sane(Store(f, Index.Create(s.index, env.hash, key, at)))
    ensures Grown(env.keyOf, PairOf(env, s), PairOf(env, Store(f, Index.Create(s.index, env.hash, key, at))), key, rec, at)
  {
    DmsOps.InsertKeeps(s.file, rec);
    DmsOps.FindKeeps(f, at);
    Index.CreateGrows(s.index, env.hash, key, at);
  }

  lemma {:induction false} InsertFails(env: Env, s: Store, rec: seq<byte>, f: File)
    requires Sane(s) && IsObj(rec) && |rec| < MAX_OBJECT && DmsOps.Insert(s.file, rec, RECORD) == Failed(f)
    ensures Sane(s.(file := f))
    ensures SameRecords(PairOf(env, s), PairOf(env, s.(file := f))) && SameIndex(PairOf(env, s), PairOf(env, s.(file := f)))
  {
    DmsOps.InsertKeeps(s.file, rec);
  }

  /** rtnInsert refuses a record without key or with a key in use; else it adds it if there is a place, and else changes nothing. */
  lemma {:induction false} InsertStep(env: Env, s: Store, rec: seq<byte>, m: Table)
    requires Represents(env, s, m) && IsObj(rec) && |rec| < MAX_OBJECT
    ensures var r := RtnInsert(env, s, rec, RECORD);
      match env.keyOf(rec)
      case None => r.1 == InvalidArg && Represents(env, r.0, m)
      case Some(key) =>
        if key in m then r.1 == IdExists && Represents(env, r.0, m)
        else if DmsOps.HasPlace(s.file, |rec|) then r.1 == Done && Represents(env, r.0, m[key := rec])
        else r.1 == SysError && Represents(env, r.0, m)
  {
    if env.keyOf(rec).Some? {
      var key := env.keyOf(rec).value;
      var a := PairOf(env, s);
      assert Serves(a, m, key) && a.find(key) == Index.Find(s.index, env.hash, key);
      if a.find(key) == None {
        DmsOps.StoredIff(s.file, rec);
        match DmsOps.Insert(s.file, rec, RECORD)
        case Failed(f) =>
          InsertFails(env, s, rec, f);
          SameServes(env.keyOf, a, PairOf(env, s.(file := f)), m);
        case Stored(f, at) =>
          InsertGrows(env, s, rec, key, f, at);
          GrownModels(env.keyOf, a, PairOf(env, Store(f, Index.Create(s.index, env.hash, key, at))), key, rec, at, m);
      }
    }
  }

  /** rtnFind returns exactly the bytes inserted under the key. */
  lemma {:induction false} FindStep(env: Env, s: Store, query: seq<byte>, m: Table)
    requires Represents(env, s, m)
    ensures RtnFind(env, s, query) ==
      match env.keyOf(query)
      case None => InvalidArg
      case Some(key) => if key in m then Got(m[key]) else InvalidArg
  {
    if env.keyOf(query).Some? {
      var key := env.keyOf(query).value;
      var a := PairOf(env, s);
      assert Serves(a, m, key) && a.find(key) == Index.Find(s.index, env.hash, key);
      if a.find(key).Some? {
        assert a.rec(a.find(key).value) == Record(s.file, a.find(key).value);
        DmsOps.FindKeeps(s.file, a.find(key).value);
      }
    }
  }

  lemma {:induction false} DropShrinks(env: Env, s: Store, key: Key, at: RecordID)
    requires Sane(s) && Index.Find(s.index, env.hash, key) == Some(at) && Record(s.file, at).Some?
    ensures var t := DropRecord(Store(s.file, Index.Remove(s.index, env.hash, key)), at);
      t.1 == Done && Sane(t.0) && Shrunk(PairOf(env, s), PairOf(env, t.0), key, at)
  {
    DmsOps.RemoveKeeps(s.file, at);
    Index.RemoveShrinks(s.index, env.hash, key);
  }

  /** rtnRemove takes out the key asked for and no other. */
  lemma {:induction false} RemoveStep(env: Env, s: Store, query: seq<byte>, m: Table)
    requires Represents(env, s, m)
    ensures var r := RtnRemove(env, s, query);
      match env.keyOf(query)
      case None => r.1 == InvalidArg && Represents(env, r.0, m)
      case Some(key) =>
        if key in m then r.1 == Done && Represents(env, r.0, m - {key})
        else r.1 == InvalidArg && Represents(env, r.0, m)
  {
    if env.keyOf(query).Some? {
      var key := env.keyOf(query).value;
      var a := PairOf(env, s);
      assert Serves(a, m, key) && a.find(key) == Index.Find(s.index, env.hash, key);
      if a.find(key).Some? {
        var at := a.find(key).value;
        assert a.rec(at) == Record(s.file, at);
        DropShrinks(env, s, key, at);
        ShrunkModels(env.keyOf, a, PairOf(env, RtnRemove(env, s, query).0), key, at, m);
      }
    }
  }
}
