/** The bucket manager object: the index changed in place, its equal_range scanned by loops. */
module Ixm {
  import opened Bytes
  import opened Dms
  import opened Index

  /** The scan loop shared by isIDExist, findIndex and removeIndex. */
  method ScanRange(b: seq<Entry>, h: nat, key: Key) returns (n: nat)
    requires Sorted(b)
    ensures n == Search(b, h, key)
  {
    n := LowerBound(b, h);
    while n < |b| && b[n].hash == h
      invariant n <= |b| && (n < |b| ==> h <= b[n].hash)
      invariant Scan(b, h, key, n) == Search(b, h, key)
    {
      if b[n].key == key {
        return;
      }
      n := n + 1;
    }
    n := |b|;
  }

  lemma InsertHolds(b: seq<Entry>, e: Entry)
    requires Sorted(b)
    ensures multiset(Insert(b, e)) == multiset(b) + multiset{e}
  {
    PutIn(b, LowerBound(b, e.hash + 1), e, Insert(b, e));
  }

  lemma PutIn(b: seq<Entry>, n: nat, e: Entry, c: seq<Entry>)
    requires n <= |b| && c == b[..n] + [e] + b[n..]
    ensures multiset(c) == multiset(b) + multiset{e}
  {
    Joined(b[..n], b[n..], b);
    Joined(b[..n] + [e], b[n..], c);
  }

  lemma Joined(l: seq<Entry>, r: seq<Entry>, b: seq<Entry>)
    requires b == l + r
    ensures multiset(b) == multiset(l) + multiset(r)
  {
  }

  lemma EraseHolds(b: seq<Entry>, n: nat)
    requires n < |b|
    ensures multiset(Erase(b, n)) == multiset(b) - multiset{b[n]}
  {
    assert b == (b[..n] + [b[n]]) + b[n + 1..];
    assert multiset(b) == multiset(b[..n]) + multiset{b[n]} + multiset(b[n + 1..]);
  }

  class BucketManager {
    var bucket: seq<seq<Entry>>

    constructor ()
      ensures bucket == Empty()
    {
      bucket := Empty();
    }

    /** findIndex; isIDExist makes the same scan. */
    method FindIndex(hash: Hash, key: Key) returns (rid: Option<RecordID>)
      requires Index.Valid(bucket)
      ensures rid == Find(bucket, hash, key)
    {
      var b := bucket[Bucket(hash, key)];
      var n := ScanRange(b, hash(key), key);
      rid := if n < |b| then Some(b[n].rid) else None;
    }

    method CreateIndex(hash: Hash, key: Key, rid: RecordID)
      requires Index.Valid(bucket)
      modifies this
      ensures bucket == Create(old(bucket), hash, key, rid) && Ordered(bucket)
      ensures forall j :: 0 <= j < BUCKETS && j != Bucket(hash, key) ==> bucket[j] == old(bucket)[j]
      ensures multiset(bucket[Bucket(hash, key)])
           == multiset(old(bucket)[Bucket(hash, key)]) + multiset{Entry(hash(key), key, rid)}
    {
      var i := Bucket(hash, key);
      InsertHolds(bucket[i], Entry(hash(key), key, rid));
      bucket := bucket[i := Insert(bucket[i], Entry(hash(key), key, rid))];
    }

    method RemoveIndex(hash: Hash, key: Key) returns (rid: Option<RecordID>)
      requires Index.Valid(bucket)
      modifies this
      ensures rid == Find(old(bucket), hash, key) && bucket == Remove(old(bucket), hash, key) && Ordered(bucket)
      ensures forall j :: 0 <= j < BUCKETS && j != Bucket(hash, key) ==> bucket[j] == old(bucket)[j]
      ensures multiset(bucket[Bucket(hash, key)])
           == multiset(old(bucket)[Bucket(hash, key)])
              - if rid == None then multiset{} else multiset{Entry(hash(key), key, rid.value)}
    {
      var i := Bucket(hash, key);
      var n := ScanRange(bucket[i], hash(key), key);
      if n == |bucket[i]| {
        return None;
      }
      rid := Some(bucket[i][n].rid);
      EraseHolds(bucket[i], n);
      bucket := bucket[i := Erase(bucket[i], n)];
    }
  }
}
