/**
 The index as it is written: an entry holds no key but a raw pointer to the key in the record's page, and
 every lookup reads the key through it.
 */
module PointerKeys {
  import opened Bytes
  import opened Page
  import opened PageBytes
  import opened PageOps
  import opened Dms
  import opened Refinement
  import opened Rtn
  import opened Reopen
  import opened Runs
  import opened Reachable
  import opened LiteralStride
  import DmsOps
  import Index
  import FreeMap

  /** Where in a record the key begins, and the key that memory shows from a place on. */
  datatype Reading = Reading(at: seq<byte> -> nat, keyAt: seq<byte> -> Key)

  /** From that place of the record on, whatever follows it, memory shows the record's key. */
  ghost predicate Reads(env: Env, rd: Reading, rec: seq<byte>) {
    env.keyOf(rec).Some? ==>
      rd.at(rec) <= |rec| && forall tail :: rd.keyAt(rec[rd.at(rec)..] + tail) == env.keyOf(rec).value
  }

  /** An entry: the hash, the place of the key in the record's page, and the record's id. */
  datatype Ptr = Ptr(hash: nat, off: nat, rid: RecordID)

  type Buckets = seq<seq<Ptr>>

  /** What the pointer of an entry shows. */
  function ShownAt(rd: Reading, pages: seq<page>, e: Ptr): Key {
    if e.rid.page < |pages| && e.off <= PAGE_SIZE then
      rd.keyAt(pages[e.rid.page][e.off..] + Behind(pages, e.rid.page))
    else Index.Key(0, [])
  }

  function SeenIn(rd: Reading, pages: seq<page>, b: seq<Ptr>): (s: seq<Index.Entry>)
    ensures |s| == |b|
    ensures forall i :: 0 <= i < |s| ==> s[i] == Index.Entry(b[i].hash, ShownAt(rd, pages, b[i]), b[i].rid)
  {
    if b == [] then []
    else [Index.Entry(b[0].hash, ShownAt(rd, pages, b[0]), b[0].rid)] + SeenIn(rd, pages, b[1..])
  }

  /** The index that lookups see. */
  function Seen(rd: Reading, pages: seq<page>, x: Buckets): (s: seq<seq<Index.Entry>>)
    ensures |s| == |x| && forall i :: 0 <= i < |s| ==> s[i] == SeenIn(rd, pages, x[i])
  {
    if x == [] then [] else [SeenIn(rd, pages, x[0])] + Seen(rd, pages, x[1..])
  }

  predicate InOrder(b: seq<Ptr>) {
    forall i, j :: 0 <= i < j < |b| ==> b[i].hash <= b[j].hash
  }

  predicate Ordered(x: Buckets) {
    |x| == Index.BUCKETS && forall i :: 0 <= i < |x| ==> InOrder(x[i])
  }

  lemma SeenOrdered(rd: Reading, pages: seq<page>, x: Buckets)
    requires Ordered(x)
    ensures Index.Ordered(Seen(rd, pages, x))
  {
    forall i | 0 <= i < |x|
      ensures Index.Sorted(SeenIn(rd, pages, x[i]))
    {
      assert InOrder(x[i]);
    }
  }

  /** findIndex, the keys being read through the pointers. */
  function Find(rd: Reading, pages: seq<page>, x: Buckets, hash: Index.Hash, key: Key): Option<RecordID>
    requires Ordered(x)
  {
    SeenOrdered(rd, pages, x);
    Index.Find(Seen(rd, pages, x), hash, key)
  }

  /** The position of the first entry with a greater hash. */
  function Upper(b: seq<Ptr>, h: nat): (n: nat)
    ensures n <= |b| && (forall i :: 0 <= i < n ==> b[i].hash <= h) && (n < |b| ==> h < b[n].hash)
  {
    if b == [] || h < b[0].hash then 0 else 1 + Upper(b[1..], h)
  }

  function Insert(b: seq<Ptr>, e: Ptr): seq<Ptr> {
    var n := Upper(b, e.hash);
    b[..n] + [e] + b[n..]
  }

  lemma InsertInOrder(b: seq<Ptr>, e: Ptr)
    requires InOrder(b)
    ensures InOrder(Insert(b, e))
  {
    var n := Upper(b, e.hash);
    AboveUpper(b, e.hash, n);
    PutInOrder(b[..n], e, b[n..], Insert(b, e));
  }

  lemma AboveUpper(b: seq<Ptr>, h: nat, n: nat)
    requires InOrder(b) && n == Upper(b, h)
    ensures forall i :: n <= i < |b| ==> h < b[i].hash
  {
  }

  lemma PutInOrder(l: seq<Ptr>, e: Ptr, r: seq<Ptr>, c: seq<Ptr>)
    requires InOrder(l) && InOrder(r) && c == l + [e] + r
    requires (forall i :: 0 <= i < |l| ==> l[i].hash <= e.hash) && forall i :: 0 <= i < |r| ==> e.hash < r[i].hash
    ensures InOrder(c)
  {
  }

  function Erase(b: seq<Ptr>, n: nat): seq<Ptr>
    requires n < |b|
  {
    b[..n] + b[n + 1..]
  }

  lemma EraseInOrder(b: seq<Ptr>, n: nat)
    requires InOrder(b) && n < |b|
    ensures InOrder(Erase(b, n))
  {
    var c := Erase(b, n);
    assert forall i :: 0 <= i < |c| ==> c[i] == if i < n then b[i] else b[i + 1];
  }

  /** createIndex: the pointer goes to the bucket of the key's hash. */
  function Create(x: Buckets, i: nat, e: Ptr): (y: Buckets)
    requires Ordered(x) && i < Index.BUCKETS
    ensures Ordered(y)
  {
    InsertInOrder(x[i], e);
    x[i := Insert(x[i], e)]
  }

  /** removeIndex: what the scan finds is erased. */
  function Remove(rd: Reading, pages: seq<page>, x: Buckets, hash: Index.Hash, key: Key): (y: Buckets)
    requires Ordered(x)
    ensures Ordered(y)
  {
    SeenOrdered(rd, pages, x);
    var i := Index.Bucket(hash, key);
    var n := Index.Search(Seen(rd, pages, x)[i], hash(key), key);
    if n < |x[i]| then
      EraseInOrder(x[i], n);
      x[i := Erase(x[i], n)]
    else x
  }

  /** The scan loop, reading each key through its pointer. */
  method FindIndex(rd: Reading, pages: seq<page>, x: Buckets, hash: Index.Hash, key: Key) returns (rid: Option<RecordID>)
    requires Ordered(x)
    ensures rid == Find(rd, pages, x, hash, key)
  {
    var b := x[Index.Bucket(hash, key)];
    ghost var s := SeenIn(rd, pages, b);
    SeenOrdered(rd, pages, x);
    assert Index.Sorted(s);
    var n := Index.LowerBound(SeenIn(rd, pages, b), hash(key));
    while n < |b| && b[n].hash == hash(key)
      invariant n <= |b| && (n < |b| ==> hash(key) <= s[n].hash)
      invariant Index.Scan(s, hash(key), key, n) == Index.Search(s, hash(key), key)
    {
      if ShownAt(rd, pages, b[n]) == key {
        return Some(b[n].rid);
      }
      n := n + 1;
    }
    rid := None;
  }

  // ---------------------------------------------------------------- when lookups agree

  /** The entries `b` was created for: the same hashes and ids, each entry with its key. */
  predicate Matches(b: seq<Ptr>, c: seq<Index.Entry>) {
    |b| == |c| && forall i :: 0 <= i < |b| ==> b[i].hash == c[i].hash && b[i].rid == c[i].rid
  }

  predicate Show(rd: Reading, pages: seq<page>, b: seq<Ptr>, c: seq<Index.Entry>) {
    |b| == |c| && forall j :: 0 <= j < |b| ==> ShownAt(rd, pages, b[j]) == c[j].key
  }

  /** Every pointer shows the key it was created for. */
  predicate AllShow(rd: Reading, pages: seq<page>, x: Buckets, idx: seq<seq<Index.Entry>>) {
    |x| == |idx| && forall i :: 0 <= i < |x| ==> Show(rd, pages, x[i], idx[i])
  }

  /** Each entry lies where its key's hash says, and no two of a bucket have one record. */
  predicate Filed(hash: Index.Hash, idx: seq<seq<Index.Entry>>) {
    forall i, e :: 0 <= i < |idx| && e in idx[i] ==> e.hash == hash(e.key) && i == Index.Bucket(hash, e.key)
  }

  predicate Apart(idx: seq<seq<Index.Entry>>) {
    forall i, j, k :: 0 <= i < |idx| && 0 <= j < k < |idx[i]| ==> idx[i][j].rid != idx[i][k].rid
  }

  lemma {:induction false} AllShowSeen(rd: Reading, pages: seq<page>, x: Buckets, idx: seq<seq<Index.Entry>>)
    requires |x| == |idx| && forall i :: 0 <= i < |x| ==> Matches(x[i], idx[i])
    requires AllShow(rd, pages, x, idx)
    ensures Seen(rd, pages, x) == idx
  {
    forall i | 0 <= i < |x|
      ensures SeenIn(rd, pages, x[i]) == idx[i]
    {
      assert Matches(x[i], idx[i]) && Show(rd, pages, x[i], idx[i]);
    }
  }

  /** In one bucket: the entry the pointers lead to shows the key, and only that entry has the id. */
  lemma {:induction false} LedTo(rd: Reading, pages: seq<page>, b: seq<Ptr>, j: nat, h: nat, key: Key)
    requires j < |b| && (forall i :: 0 <= i < |b| && i != j ==> b[i].rid != b[j].rid)
    requires Index.Sorted(SeenIn(rd, pages, b)) && Index.Get(SeenIn(rd, pages, b), h, key) == Some(b[j].rid)
    ensures ShownAt(rd, pages, b[j]) == key
  {
    var n := Index.Search(SeenIn(rd, pages, b), h, key);
    assert b[n].rid == b[j].rid;
  }

  lemma {:induction false} FiledFinds(c: seq<Index.Entry>, j: nat)
    requires Index.Sorted(c) && Index.Unique(c) && j < |c|
    ensures Index.Get(c, c[j].hash, c[j].key) == Some(c[j].rid)
  {
    assert Index.Entry(c[j].hash, c[j].key, c[j].rid) == c[j];
    Index.GetIff(c, c[j].hash, c[j].key, c[j].rid);
  }

  lemma {:induction false} MustShowIn(rd: Reading, pages: seq<page>, b: seq<Ptr>, c: seq<Index.Entry>, j: nat)
    requires Index.Sorted(c) && Index.Unique(c) && Matches(b, c) && j < |c|
    requires forall i, k :: 0 <= i < k < |c| ==> c[i].rid != c[k].rid
    requires Index.Sorted(SeenIn(rd, pages, b))
    requires Index.Get(SeenIn(rd, pages, b), c[j].hash, c[j].key) == Index.Get(c, c[j].hash, c[j].key)
    ensures ShownAt(rd, pages, b[j]) == c[j].key
  {
    FiledFinds(c, j);
    forall i | 0 <= i < |b| && i != j
      ensures b[i].rid != b[j].rid
    {
      assert b[i].rid == c[i].rid && b[j].rid == c[j].rid;
    }
    LedTo(rd, pages, b, j, c[j].hash, c[j].key);
  }

  lemma {:induction false} MustShow(rd: Reading, pages: seq<page>, x: Buckets, idx: seq<seq<Index.Entry>>, hash: Index.Hash, i: nat, j: nat)
    requires Ordered(x) && Index.Valid(idx) && Filed(hash, idx) && Apart(idx)
    requires i < |x| && j < |x[i]| && Matches(x[i], idx[i])
    requires Find(rd, pages, x, hash, idx[i][j].key) == Index.Find(idx, hash, idx[i][j].key)
    ensures ShownAt(rd, pages, x[i][j]) == idx[i][j].key
  {
    assert Index.Sorted(idx[i]) && Index.Unique(idx[i]) && InOrder(x[i]) && idx[i][j] in idx[i];
    MustShowIn(rd, pages, x[i], idx[i], j);
  }

  /**
   Lookups through pointers give, for all keys, what the index by values gives exactly when every
   pointer still shows the key of its record.
   */
  lemma {:induction false} LookupsAgreeIff(rd: Reading, pages: seq<page>, x: Buckets, idx: seq<seq<Index.Entry>>, hash: Index.Hash)
    requires Ordered(x) && Index.Valid(idx) && Filed(hash, idx) && Apart(idx)
    requires forall i :: 0 <= i < |x| ==> Matches(x[i], idx[i])
    ensures (forall key :: Find(rd, pages, x, hash, key) == Index.Find(idx, hash, key)) <==> AllShow(rd, pages, x, idx)
  {
    if AllShow(rd, pages, x, idx) {
      AllShowSeen(rd, pages, x, idx);
    }
    if forall key :: Find(rd, pages, x, hash, key) == Index.Find(idx, hash, key) {
      forall i | 0 <= i < |x|
        ensures Show(rd, pages, x[i], idx[i])
      {
        assert Matches(x[i], idx[i]);
        forall j | 0 <= j < |x[i]|
          ensures ShownAt(rd, pages, x[i][j]) == idx[i][j].key
        {
          MustShow(rd, pages, x, idx, hash, i, j);
        }
      }
    }
  }

  // ---------------------------------------------------------------- the store with such an index

  datatype PStore = PStore(file: File, index: Buckets)

  predicate Shaped(s: PStore) {
    FreeMap.Sorted(s.file.free) && Ordered(s.index)
  }

  /** Where the data of a record begin in its page. */
  function Place(pages: seq<page>, rid: RecordID): nat {
    if rid.page < |pages| && HEADER + 4 * rid.slot + 4 <= PAGE_SIZE then SlotAt(pages[rid.page], rid.slot) + RECORD else 0
  }

  function RtnInsert(env: Env, rd: Reading, s: PStore, rec: seq<byte>, hdr: nat): (r: (PStore, Reply))
    requires Shaped(s) && |rec| < MAX_OBJECT && hdr <= RECORD
    ensures Shaped(r.0)
  {
    match env.keyOf(rec)
    case None => (s, InvalidArg)
    case Some(key) =>
      if Find(rd, s.file.pages, s.index, env.hash, key).Some? then (s, IdExists)
      else
        match DmsOps.Insert(s.file, rec, hdr)
        case Failed(f) => (s.(file := f), SysError)
        case Stored(f, rid) => CreateIndex(env, rd, s.(file := f), rid)
  }

  /** createIndex keeps a pointer into the record as it lies in the page. */
  function CreateIndex(env: Env, rd: Reading, s: PStore, rid: RecordID): (r: (PStore, Reply))
    requires Shaped(s)
    ensures Shaped(r.0)
  {
    match DmsOps.Find(s.file, rid)
    case Refused => (s, SysError)
    case Found(out) =>
      match env.keyOf(out)
      case None => (s, InvalidArg)
      case Some(key) => (s.(index := Entered(env, rd, s.file.pages, s.index, rid, out, key)), Done)
  }

  function Entered(env: Env, rd: Reading, pages: seq<page>, x: Buckets, rid: RecordID, rec: seq<byte>, key: Key): (y: Buckets)
    requires Ordered(x)
    ensures Ordered(y)
  {
    Create(x, Index.Bucket(env.hash, key), Ptr(env.hash(key), Place(pages, rid) + rd.at(rec), rid))
  }

  function RtnFind(env: Env, rd: Reading, s: PStore, query: seq<byte>): Reply
    requires Shaped(s)
  {
    match env.keyOf(query)
    case None => InvalidArg
    case Some(key) =>
      match Find(rd, s.file.pages, s.index, env.hash, key)
      case None => InvalidArg
      case Some(rid) =>
        match DmsOps.Find(s.file, rid)
        case Refused => SysError
        case Found(data) => Got(data)
  }

  function RtnRemove(env: Env, rd: Reading, s: PStore, query: seq<byte>): (r: (PStore, Reply))
    requires Shaped(s)
    ensures Shaped(r.0)
  {
    match env.keyOf(query)
    case None => (s, InvalidArg)
    case Some(key) =>
      match Find(rd, s.file.pages, s.index, env.hash, key)
      case None => (s, InvalidArg)
      case Some(rid) =>
        var r := DmsOps.Remove(s.file, rid);
        (PStore(r.0, Remove(rd, s.file.pages, s.index, env.hash, key)), if r.1 then Done else SysError)
  }

  /** The inner loop of _loadData. */
  function LoadSlots(env: Env, rd: Reading, pages: seq<page>, id: nat, k: nat, x: Buckets): (r: Option<Buckets>)
    requires id < |pages| && k <= NumSlots(pages[id]) && TableFits(pages[id]) && Ordered(x)
    ensures r.Some? ==> Ordered(r.value)
    decreases NumSlots(pages[id]) - k
  {
    if k == NumSlots(pages[id]) then Some(x)
    else if SlotAt(pages[id], k) == EMPTY then LoadSlots(env, rd, pages, id, k + 1, x)
    else
      match ObjectAt(pages[id], Behind(pages, id), SlotAt(pages[id], k))
      case None => None
      case Some(data) =>
        match env.keyOf(data)
        case None => None
        case Some(key) =>
          if Find(rd, pages, x, env.hash, key).Some? then None
          else LoadSlots(env, rd, pages, id, k + 1, Entered(env, rd, pages, x, RecordID(id, k), data, key))
  }

  datatype Rebuilt = Rebuilt(free: seq<FreeMap.Entry>, index: Buckets)

  function LoadPages(env: Env, rd: Reading, pages: seq<page>, i: nat, free: seq<FreeMap.Entry>, x: Buckets): (r: Option<Rebuilt>)
    requires i <= |pages| && (forall j :: 0 <= j < |pages| ==> TableFits(pages[j])) && FreeMap.Sorted(free) && Ordered(x)
    ensures r.Some? ==> FreeMap.Sorted(r.value.free) && Ordered(r.value.index)
    decreases |pages| - i
  {
    if i == |pages| then Some(Rebuilt(free, x))
    else
      match LoadSlots(env, rd, pages, i, 0, x)
      case None => None
      case Some(y) => LoadPages(env, rd, pages, i + 1, FreeMap.Added(free, EntryOf(pages, i)), y)
  }

  function Empty(): (x: Buckets)
    ensures Ordered(x) && forall i :: 0 <= i < |x| ==> x[i] == []
  {
    seq(Index.BUCKETS, _ => [])
  }

  function ReopenStep(env: Env, rd: Reading, s: PStore): (r: (PStore, Reply))
    requires Shaped(s)
    ensures Shaped(r.0)
  {
    if exists i :: 0 <= i < |s.file.pages| && !TableFits(s.file.pages[i]) then (s, SysError)
    else
      match LoadPages(env, rd, s.file.pages, 0, [], Empty())
      case None => (s, SysError)
      case Some(l) => (PStore(s.file.(free := l.free), l.index), Done)
  }

  function Step(env: Env, rd: Reading, s: PStore, op: Op, hdr: nat): (r: (PStore, Reply))
    requires Shaped(s) && Proper(op) && hdr <= RECORD
    ensures Shaped(r.0)
  {
    match op
    case Insert(rec) => RtnInsert(env, rd, s, rec, hdr)
    case Find(query) => (s, RtnFind(env, rd, s, query))
    case Remove(query) => RtnRemove(env, rd, s, query)
    case Reopen => ReopenStep(env, rd, s)
  }

  /** The replies of a run. */
  ghost function Run(env: Env, rd: Reading, s: PStore, ops: seq<Op>, hdr: nat): seq<Reply>
    requires Shaped(s) && (forall op :: op in ops ==> Proper(op)) && hdr <= RECORD
    decreases |ops|
  {
    if ops == [] then []
    else
      var r := Step(env, rd, s, ops[0], hdr);
      [r.1] + Run(env, rd, r.0, ops[1..], hdr)
  }

  function New(room: nat): PStore {
    PStore(Runs.New(room).file, Empty())
  }
}
