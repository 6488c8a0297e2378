/**
 The hash index from record keys to record ids. A bucket is a multimap from hash numbers to
 entries, kept as a sequence sorted by hash with equal hashes in insertion order. The hash function
 is a parameter: nothing here depends on it.
 */
module Index {
  import opened Bytes
  import opened Dms

  const BUCKETS: int := 1000

  /** The type byte and the value bytes of an `_id` element: what the scan loops compare. */
  datatype Key = Key(tag: byte, val: seq<byte>)

  datatype Entry = Entry(hash: nat, key: Key, rid: RecordID)

  type Hash = Key -> nat

  predicate Sorted(b: seq<Entry>) {
    forall i, j :: 0 <= i < j < |b| ==> b[i].hash <= b[j].hash
  }

  /** First position whose hash is at least `h`: where equal_range starts. */
  function LowerBound(b: seq<Entry>, h: nat): (n: nat)
    requires Sorted(b)
    ensures n <= |b|
    ensures forall i :: 0 <= i < n ==> b[i].hash < h
    ensures forall i :: n <= i < |b| ==> h <= b[i].hash
  {
    if b == [] || h <= b[0].hash then 0 else 1 + LowerBound(b[1..], h)
  }

  /** The scan of an equal_range from position `i` for an entry with the key; |b| if there is none. */
  function Scan(b: seq<Entry>, h: nat, key: Key, i: nat): (n: nat)
    requires Sorted(b) && i <= |b| && (i < |b| ==> h <= b[i].hash)
    ensures i <= n <= |b| && (n < |b| ==> b[n].hash == h && b[n].key == key)
    ensures forall j :: i <= j < n && b[j].hash == h ==> b[j].key != key
    decreases |b| - i
  {
    if i == |b| || b[i].hash != h then |b|
    else if b[i].key == key then i
    else Scan(b, h, key, i + 1)
  }

  function Search(b: seq<Entry>, h: nat, key: Key): (n: nat)
    requires Sorted(b)
    ensures n <= |b| && (n < |b| ==> b[n].hash == h && b[n].key == key)
    ensures forall j :: 0 <= j < n && b[j].hash == h ==> b[j].key != key
  {
    Scan(b, h, key, LowerBound(b, h))
  }

  /** multimap::insert: after the entries of the same hash. */
  function Insert(b: seq<Entry>, e: Entry): seq<Entry>
    requires Sorted(b)
  {
    var n := LowerBound(b, e.hash + 1);
    b[..n] + [e] + b[n..]
  }

  function Erase(b: seq<Entry>, n: nat): seq<Entry>
    requires n < |b|
  {
    b[..n] + b[n + 1..]
  }

  lemma InsertOrdered(b: seq<Entry>, e: Entry)
    requires Sorted(b)
    ensures Sorted(Insert(b, e))
  {
    var n, c := LowerBound(b, e.hash + 1), Insert(b, e);
    assert forall i :: 0 <= i < |c| ==> c[i] == if i < n then b[i] else if i == n then e else b[i - 1];
  }

  lemma EraseOrdered(b: seq<Entry>, n: nat)
    requires Sorted(b) && n < |b|
    ensures Sorted(Erase(b, n))
  {
    var c := Erase(b, n);
    assert forall i :: 0 <= i < |c| ==> c[i] == if i < n then b[i] else b[i + 1];
  }

  /** What a bucket holds for a key. */
  function Get(b: seq<Entry>, h: nat, key: Key): Option<RecordID>
    requires Sorted(b)
  {
    var n := Search(b, h, key);
    if n < |b| then Some(b[n].rid) else None
  }

  /** At most one entry for each pair of hash and key. */
  predicate Unique(b: seq<Entry>) {
    forall i, j :: 0 <= i < j < |b| ==> b[i].hash != b[j].hash || b[i].key != b[j].key
  }

  /** A lookup finds exactly the entry that is there. */
  lemma {:induction false} GetIff(b: seq<Entry>, h: nat, key: Key, rid: RecordID)
    requires Sorted(b) && Unique(b)
    ensures Get(b, h, key) == Some(rid) <==> Entry(h, key, rid) in b
    ensures Get(b, h, key) == None ==> Entry(h, key, rid) !in b
  {
    var n := Search(b, h, key);
    if n < |b| && Entry(h, key, rid) in b {
      var j :| 0 <= j < |b| && b[j] == Entry(h, key, rid);
      assert !(n < j) && !(j < n);
    }
  }

  lemma {:induction false} InsertMembers(b: seq<Entry>, e: Entry, x: Entry)
    requires Sorted(b)
    ensures x in Insert(b, e) <==> x in b || x == e
  {
    var n := LowerBound(b, e.hash + 1);
    assert b == b[..n] + b[n..];
    assert x in b <==> x in b[..n] || x in b[n..];
  }

  lemma {:induction false} InsertAt(b: seq<Entry>, e: Entry, n: nat, c: seq<Entry>)
    requires Sorted(b) && Unique(b) && n <= |b| && c == b[..n] + [e] + b[n..]
    requires forall i :: 0 <= i < n ==> b[i].hash <= e.hash
    requires forall i :: n <= i < |b| ==> e.hash <= b[i].hash
    requires forall i :: 0 <= i < |b| ==> b[i].hash != e.hash || b[i].key != e.key
    ensures Sorted(c) && Unique(c)
  {
    assert forall i :: 0 <= i < |c| ==> c[i] == if i < n then b[i] else if i == n then e else b[i - 1];
  }

  lemma {:induction false} InsertSorted(b: seq<Entry>, e: Entry)
    requires Sorted(b) && Unique(b) && Get(b, e.hash, e.key) == None
    ensures Sorted(Insert(b, e)) && Unique(Insert(b, e))
    ensures forall x :: x in Insert(b, e) <==> x in b || x == e
  {
    assert Search(b, e.hash, e.key) == |b|;
    InsertAt(b, e, LowerBound(b, e.hash + 1), Insert(b, e));
    forall x
      ensures x in Insert(b, e) <==> x in b || x == e
    {
      InsertMembers(b, e, x);
    }
  }

  lemma {:induction false} EraseSorted(b: seq<Entry>, n: nat)
    requires Sorted(b) && Unique(b) && n < |b|
    ensures Sorted(Erase(b, n)) && Unique(Erase(b, n))
    ensures forall x :: x in Erase(b, n) <==> x in b && x != b[n]
  {
    var c := Erase(b, n);
    assert forall i :: 0 <= i < |c| ==> c[i] == if i < n then b[i] else b[i + 1];
    forall x | x in b && x != b[n]
      ensures x in c
    {
      var i :| 0 <= i < |b| && b[i] == x;
      assert c[if i < n then i else i - 1] == x;
    }
  }

  lemma {:induction false} InsertGet(b: seq<Entry>, e: Entry, h: nat, key: Key)
    requires Sorted(b) && Unique(b) && Get(b, e.hash, e.key) == None
    ensures Sorted(Insert(b, e)) && Unique(Insert(b, e))
    ensures Get(Insert(b, e), h, key) == if h == e.hash && key == e.key then Some(e.rid) else Get(b, h, key)
  {
    InsertSorted(b, e);
    SameAnswer(Insert(b, e), h, key, if h == e.hash && key == e.key then Some(e.rid) else Get(b, h, key)) by {
      forall rid
        ensures (if h == e.hash && key == e.key then Some(e.rid) else Get(b, h, key)) == Some(rid)
          <==> Entry(h, key, rid) in Insert(b, e)
      {
        GetIff(b, h, key, rid);
      }
    }
  }

  lemma {:induction false} SameAnswer(b: seq<Entry>, h: nat, key: Key, answer: Option<RecordID>)
    requires Sorted(b) && Unique(b)
    requires forall rid :: answer == Some(rid) <==> Entry(h, key, rid) in b
    ensures Get(b, h, key) == answer
  {
    match Get(b, h, key)
    case Some(rid) => GetIff(b, h, key, rid);
    case None => if answer.Some? { GetIff(b, h, key, answer.value); }
  }

  lemma {:induction false} EraseGet(b: seq<Entry>, n: nat, h: nat, key: Key)
    requires Sorted(b) && Unique(b) && n < |b|
    ensures Sorted(Erase(b, n)) && Unique(Erase(b, n))
    ensures Get(Erase(b, n), h, key) == if h == b[n].hash && key == b[n].key then None else Get(b, h, key)
  {
    EraseSorted(b, n);
    SameAnswer(Erase(b, n), h, key, if h == b[n].hash && key == b[n].key then None else Get(b, h, key)) by {
      forall rid
        ensures (if h == b[n].hash && key == b[n].key then None else Get(b, h, key)) == Some(rid)
          <==> Entry(h, key, rid) in Erase(b, n)
      {
        GetIff(b, h, key, rid);
        GetIff(b, h, key, b[n].rid);
      }
    }
  }

  // ---------------------------------------------------------------- the manager

  predicate Valid(x: seq<seq<Entry>>) {
    |x| == BUCKETS && forall i {:trigger Sorted(x[i])} {:trigger Unique(x[i])} :: 0 <= i < |x| ==> Sorted(x[i]) && Unique(x[i])
  }

  /** Each bucket in the order of the hashes; what a multimap is, whatever was put in. */
  predicate Ordered(x: seq<seq<Entry>>) {
    |x| == BUCKETS && forall i :: 0 <= i < |x| ==> Sorted(x[i])
  }

  function Empty(): (x: seq<seq<Entry>>)
    ensures Valid(x) && Ordered(x)
  {
    seq(BUCKETS, _ => [])
  }

  function Bucket(hash: Hash, key: Key): nat { hash(key) % 1000 }

  /** ixmBucketManager::findIndex; isIDExist asks whether it is there. */
  function Find(x: seq<seq<Entry>>, hash: Hash, key: Key): Option<RecordID>
    requires Ordered(x)
  {
    Get(x[Bucket(hash, key)], hash(key), key)
  }

  function Create(x: seq<seq<Entry>>, hash: Hash, key: Key, rid: RecordID): (y: seq<seq<Entry>>)
    requires Ordered(x)
    ensures Ordered(y)
  {
    var b := Bucket(hash, key);
    InsertOrdered(x[b], Entry(hash(key), key, rid));
    x[b := Insert(x[b], Entry(hash(key), key, rid))]
  }

  function Remove(x: seq<seq<Entry>>, hash: Hash, key: Key): (y: seq<seq<Entry>>)
    requires Ordered(x)
    ensures Ordered(y)
  {
    var b := Bucket(hash, key);
    var n := Search(x[b], hash(key), key);
    if n < |x[b]| then
      EraseOrdered(x[b], n);
      x[b := Erase(x[b], n)]
    else x
  }

  lemma {:induction false} CreateFinds(x: seq<seq<Entry>>, hash: Hash, key: Key, rid: RecordID, other: Key)
    requires Valid(x) && Find(x, hash, key) == None
    ensures Valid(Create(x, hash, key, rid))
    ensures Find(Create(x, hash, key, rid), hash, other) == if other == key then Some(rid) else Find(x, hash, other)
  {
    var b := Bucket(hash, key);
    InsertGet(x[b], Entry(hash(key), key, rid), hash(other), other);
  }

  /** Creating an entry for an absent key adds that key and disturbs no other, whatever the hash. */
  lemma {:induction false} CreateGrows(x: seq<seq<Entry>>, hash: Hash, key: Key, rid: RecordID)
    requires Valid(x) && Find(x, hash, key) == None
    ensures Valid(Create(x, hash, key, rid))
    ensures forall k :: Find(Create(x, hash, key, rid), hash, k) == if k == key then Some(rid) else Find(x, hash, k)
  {
    CreateFinds(x, hash, key, rid, key);
    forall k
      ensures Find(Create(x, hash, key, rid), hash, k) == if k == key then Some(rid) else Find(x, hash, k)
    {
      CreateFinds(x, hash, key, rid, k);
    }
  }

  lemma {:induction false} RemoveFinds(x: seq<seq<Entry>>, hash: Hash, key: Key, other: Key)
    requires Valid(x)
    ensures Valid(Remove(x, hash, key))
    ensures Find(Remove(x, hash, key), hash, other) == if other == key then None else Find(x, hash, other)
  {
    var b := Bucket(hash, key);
    var n := Search(x[b], hash(key), key);
    if n < |x[b]| {
      EraseGet(x[b], n, hash(other), other);
    }
  }

  /** Removing a key removes that key and no other, whatever the hash. */
  lemma {:induction false} RemoveShrinks(x: seq<seq<Entry>>, hash: Hash, key: Key)
    requires Valid(x)
    ensures Valid(Remove(x, hash, key))
    ensures forall k :: Find(Remove(x, hash, key), hash, k) == if k == key then None else Find(x, hash, k)
  {
    RemoveFinds(x, hash, key, key);
    forall k
      ensures Find(Remove(x, hash, key), hash, k) == if k == key then None else Find(x, hash, k)
    {
      RemoveFinds(x, hash, key, k);
    }
  }
}
