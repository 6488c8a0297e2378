/**
 An index over records, seen as two functions: from a key to a record id, and from a record id to
 bytes. What it takes for the pair to behave as one finite map, and which changes keep it so.
 */
module Refinement {
  import opened Bytes
  import opened Dms
  import Index

  type Key = Index.Key
  type KeyOf = seq<byte> -> Option<Key>
  type Table = map<Key, seq<byte>>

  datatype Pair = Pair(find: Key -> Option<RecordID>, rec: RecordID -> Option<seq<byte>>)

  predicate HasKey(keyOf: KeyOf, a: Pair, rid: RecordID, key: Key) {
    a.rec(rid).Some? && keyOf(a.rec(rid).value) == Some(key)
  }

  /** The index leads from a key to the record that has it, for every key and every record. */
  ghost predicate Consistent(keyOf: KeyOf, a: Pair) {
    && (forall key, rid :: a.find(key) == Some(rid) <==> HasKey(keyOf, a, rid, key))
    && (forall rid :: a.rec(rid).Some? ==> keyOf(a.rec(rid).value).Some?)
  }

  /** The pair answers for `key` as the map does. */
  predicate Serves(a: Pair, m: Table, key: Key) {
    match a.find(key)
    case Some(rid) => key in m && a.rec(rid) == Some(m[key])
    case None => key !in m
  }

  ghost predicate Models(a: Pair, m: Table) {
    forall key :: Serves(a, m, key)
  }

  ghost predicate SameRecords(a: Pair, b: Pair) {
    forall rid :: a.rec(rid) == b.rec(rid)
  }

  ghost predicate SameIndex(a: Pair, b: Pair) {
    forall key :: a.find(key) == b.find(key)
  }

  lemma {:induction false} SameServes(keyOf: KeyOf, a: Pair, b: Pair, m: Table)
    requires Consistent(keyOf, a) && SameRecords(a, b) && SameIndex(a, b) && Models(a, m)
    ensures Consistent(keyOf, b) && Models(b, m)
  {
    forall key, rid
      ensures b.find(key) == Some(rid) <==> HasKey(keyOf, b, rid, key)
    {
      assert a.find(key) == Some(rid) <==> HasKey(keyOf, a, rid, key);
    }
    forall key
      ensures Serves(b, m, key)
    {
      assert Serves(a, m, key);
    }
  }

  /** `b` has one more record than `a`, under a fresh key and a fresh id. */
  ghost predicate Grown(keyOf: KeyOf, a: Pair, b: Pair, key: Key, data: seq<byte>, at: RecordID) {
    && keyOf(data) == Some(key) && a.find(key) == None && a.rec(at) == None
    && (forall rid :: b.rec(rid) == if rid == at then Some(data) else a.rec(rid))
    && (forall k :: b.find(k) == if k == key then Some(at) else a.find(k))
  }

  lemma {:induction false} GrownModels(keyOf: KeyOf, a: Pair, b: Pair, key: Key, data: seq<byte>, at: RecordID, m: Table)
    requires Consistent(keyOf, a) && Grown(keyOf, a, b, key, data, at) && Models(a, m)
    ensures Consistent(keyOf, b) && Models(b, m[key := data])
  {
    forall k, rid
      ensures b.find(k) == Some(rid) <==> HasKey(keyOf, b, rid, k)
    {
      assert a.find(k) == Some(rid) <==> HasKey(keyOf, a, rid, k);
      assert a.find(key) == Some(rid) <==> HasKey(keyOf, a, rid, key);
    }
    var grown := m[key := data];
    forall k
      ensures Serves(b, grown, k)
    {
      assert Serves(a, m, k);
    }
  }

  /** `b` lacks the record that `a` has under the key. */
  ghost predicate Shrunk(a: Pair, b: Pair, key: Key, at: RecordID) {
    && a.find(key) == Some(at)
    && (forall rid :: b.rec(rid) == if rid == at then None else a.rec(rid))
    && (forall k :: b.find(k) == if k == key then None else a.find(k))
  }

  lemma {:induction false} ShrunkModels(keyOf: KeyOf, a: Pair, b: Pair, key: Key, at: RecordID, m: Table)
    requires Consistent(keyOf, a) && Shrunk(a, b, key, at) && Models(a, m)
    ensures Consistent(keyOf, b) && Models(b, m - {key})
  {
    assert HasKey(keyOf, a, at, key);
    forall k, rid
      ensures b.find(k) == Some(rid) <==> HasKey(keyOf, b, rid, k)
    {
      assert a.find(k) == Some(rid) <==> HasKey(keyOf, a, rid, k);
      assert a.find(key) == Some(rid) <==> HasKey(keyOf, a, rid, key);
    }
    forall k
      ensures Serves(b, m - {key}, k)
    {
      assert Serves(a, m, k);
      if k != key && a.find(k).Some? {
        assert HasKey(keyOf, a, a.find(k).value, k);
      }
    }
  }
}
