/** Runs of the store with pointers to keys: as long as no insert moves a record it answers as a map. */
module PointerRuns {
  import opened Bytes
  import opened Page
  import opened PageBytes
  import opened PageOps
  import opened Dms
  import opened Refinement
  import opened Rtn
  import opened Reopen
  import opened Runs
  import opened Reachable
  import opened LiteralStride
  import opened StaleKeys
  import P = PointerKeys
  import DmsOps
  import Index
  import FreeMap

  type Entries = seq<seq<Index.Entry>>

  // ---------------------------------------------------------------- the pointers of an index

  /** Where the key of a record begins in its page. */
  function KeyPlace(rd: P.Reading, f: File, rid: RecordID): nat {
    match Record(f, rid) case None => 0 case Some(rec) => P.Place(f.pages, rid) + rd.at(rec)
  }

  function PtrOf(rd: P.Reading, f: File, e: Index.Entry): P.Ptr {
    P.Ptr(e.hash, KeyPlace(rd, f, e.rid), e.rid)
  }

  function PtrsIn(rd: P.Reading, f: File, b: seq<Index.Entry>): (c: seq<P.Ptr>)
    ensures |c| == |b| && forall i :: 0 <= i < |c| ==> c[i] == PtrOf(rd, f, b[i])
  {
    if b == [] then [] else [PtrOf(rd, f, b[0])] + PtrsIn(rd, f, b[1..])
  }

  /** The index by values, each key replaced by a pointer to it. */
  function Ptrs(rd: P.Reading, f: File, idx: Entries): (x: P.Buckets)
    ensures |x| == |idx| && forall i :: 0 <= i < |x| ==> x[i] == PtrsIn(rd, f, idx[i])
  {
    if idx == [] then [] else [PtrsIn(rd, f, idx[0])] + Ptrs(rd, f, idx[1..])
  }

  predicate HasRecord(env: Env, f: File, e: Index.Entry) {
    Record(f, e.rid).Some? && env.keyOf(Record(f, e.rid).value) == Some(e.key)
  }

  predicate KeyedIn(env: Env, f: File, b: seq<Index.Entry>) {
    forall e :: e in b ==> HasRecord(env, f, e)
  }

  /** Every entry stands for a record with its key. */
  predicate Keyed(env: Env, f: File, idx: Entries) {
    forall i :: 0 <= i < |idx| ==> KeyedIn(env, f, idx[i])
  }

  /** The keys of all records can be read through pointers. */
  ghost predicate Legible(env: Env, rd: P.Reading, f: File) {
    forall rid :: Record(f, rid).Some? ==> P.Reads(env, rd, Record(f, rid).value)
  }

  lemma {:induction false} PtrsOrdered(rd: P.Reading, f: File, idx: Entries)
    requires Index.Ordered(idx)
    ensures P.Ordered(Ptrs(rd, f, idx))
  {
    forall i | 0 <= i < |idx|
      ensures P.InOrder(Ptrs(rd, f, idx)[i])
    {
      assert Index.Sorted(idx[i]);
    }
  }

  /** Memory from the key's place on shows the key, whatever follows the record. */
  lemma {:induction false} ShowsKey(env: Env, rd: P.Reading, f: File, e: Index.Entry)
    requires Dms.Valid(f) && HasRecord(env, f, e) && P.Reads(env, rd, Record(f, e.rid).value)
    ensures P.ShownAt(rd, f.pages, PtrOf(rd, f, e)) == e.key
  {
    var p, rec := f.pages[e.rid.page], Record(f, e.rid).value;
    var off := RecordAt(p, e.rid.slot, rec);
    var tail := RestOf(p, off, rec, rd.at(rec), Behind(f.pages, e.rid.page));
    assert rd.keyAt(rec[rd.at(rec)..] + tail) == e.key;
  }

  lemma {:induction false} RecordAt(p: page, slot: nat, rec: seq<byte>) returns (off: nat)
    requires PageBytes.Valid(p) && slot < NumSlots(p) && Contents(p)[slot] == Some(rec)
    ensures HEADER + 4 * slot + 4 <= PAGE_SIZE && off == SlotAt(p, slot) + RECORD
    ensures off + |rec| <= PAGE_SIZE && p[off..off + |rec|] == rec
  {
    var c := Decode(p).cells[slot];
    assert View(Decode(p))[slot] == Some(rec) && Holds(p, slot, c);
    off := c.off + RECORD;
    assert p[off..off + |rec|] == p[c.off..c.off + |c.ext|][RECORD..];
  }

  lemma RestOf(p: page, off: nat, rec: seq<byte>, at: nat, behind: seq<byte>) returns (tail: seq<byte>)
    requires off + |rec| <= PAGE_SIZE && p[off..off + |rec|] == rec && at <= |rec|
    ensures p[off + at..] + behind == rec[at..] + tail
  {
    tail := p[off + |rec|..] + behind;
    assert p[off..] == rec + p[off + |rec|..];
    assert p[off..][at..] == p[off + at..];
  }

  /** What lookups see through the pointers is the index by values. */
  lemma {:induction false} SeenIs(env: Env, rd: P.Reading, f: File, idx: Entries)
    requires Dms.Valid(f) && Keyed(env, f, idx) && Legible(env, rd, f)
    ensures P.Seen(rd, f.pages, Ptrs(rd, f, idx)) == idx
  {
    forall i | 0 <= i < |idx|
      ensures P.SeenIn(rd, f.pages, PtrsIn(rd, f, idx[i])) == idx[i]
    {
      assert KeyedIn(env, f, idx[i]);
      SeenInIs(env, rd, f, idx[i]);
    }
  }

  lemma {:induction false} SeenInIs(env: Env, rd: P.Reading, f: File, b: seq<Index.Entry>)
    requires Dms.Valid(f) && KeyedIn(env, f, b) && Legible(env, rd, f)
    ensures P.SeenIn(rd, f.pages, PtrsIn(rd, f, b)) == b
  {
    forall j | 0 <= j < |b|
      ensures P.ShownAt(rd, f.pages, PtrOf(rd, f, b[j])) == b[j].key
    {
      assert HasRecord(env, f, b[j]);
      ShowsKey(env, rd, f, b[j]);
    }
  }

  // ---------------------------------------------------------------- changes of the index

  lemma {:induction false} InsertPtr(rd: P.Reading, f: File, b: seq<Index.Entry>, e: Index.Entry)
    requires Index.Sorted(b)
    ensures PtrsIn(rd, f, Index.Insert(b, e)) == P.Insert(PtrsIn(rd, f, b), PtrOf(rd, f, e))
  {
    var n := Index.LowerBound(b, e.hash + 1);
    var c := PtrsIn(rd, f, b)[..n] + [PtrOf(rd, f, e)] + PtrsIn(rd, f, b)[n..];
    PtrsPutIn(rd, f, b, e, n, c, Index.Insert(b, e));
    UpperHere(rd, f, b, e, n);
    InsertIs(PtrsIn(rd, f, b), PtrOf(rd, f, e), n, c);
  }

  lemma {:induction false} UpperHere(rd: P.Reading, f: File, b: seq<Index.Entry>, e: Index.Entry, n: nat)
    requires Index.Sorted(b) && n == Index.LowerBound(b, e.hash + 1)
    ensures P.Upper(PtrsIn(rd, f, b), e.hash) == n
  {
    UpperIs(PtrsIn(rd, f, b), e.hash, n);
  }

  lemma InsertIs(c: seq<P.Ptr>, e: P.Ptr, n: nat, d: seq<P.Ptr>)
    requires P.Upper(c, e.hash) == n && d == c[..n] + [e] + c[n..]
    ensures P.Insert(c, e) == d
  {
  }

  lemma {:induction false} UpperIs(c: seq<P.Ptr>, h: nat, n: nat)
    requires n <= |c| && (forall i :: 0 <= i < n ==> c[i].hash <= h) && (n < |c| ==> h < c[n].hash)
    ensures P.Upper(c, h) == n
  {
    if n > 0 {
      UpperIs(c[1..], h, n - 1);
    }
  }

  lemma {:induction false} PtrsPutIn(rd: P.Reading, f: File, b: seq<Index.Entry>, e: Index.Entry, n: nat, c: seq<P.Ptr>, d: seq<Index.Entry>)
    requires n <= |b| && d == b[..n] + [e] + b[n..]
    requires c == PtrsIn(rd, f, b)[..n] + [PtrOf(rd, f, e)] + PtrsIn(rd, f, b)[n..]
    ensures PtrsIn(rd, f, d) == c
  {
    PtrsCut(rd, f, b, n);
    PtrsThree(rd, f, b[..n], e, b[n..], d);
  }

  lemma {:induction false} PtrsCut(rd: P.Reading, f: File, b: seq<Index.Entry>, n: nat)
    requires n <= |b|
    ensures PtrsIn(rd, f, b[..n]) == PtrsIn(rd, f, b)[..n] && PtrsIn(rd, f, b[n..]) == PtrsIn(rd, f, b)[n..]
  {
  }

  lemma {:induction false} PtrsThree(rd: P.Reading, f: File, l: seq<Index.Entry>, e: Index.Entry, r: seq<Index.Entry>, b: seq<Index.Entry>)
    requires b == l + [e] + r
    ensures PtrsIn(rd, f, b) == PtrsIn(rd, f, l) + [PtrOf(rd, f, e)] + PtrsIn(rd, f, r)
  {
  }

  lemma {:induction false} CreatePtr(rd: P.Reading, f: File, idx: Entries, hash: Index.Hash, key: Key, rid: RecordID)
    requires Index.Ordered(idx) && P.Ordered(Ptrs(rd, f, idx))
    ensures Ptrs(rd, f, Index.Create(idx, hash, key, rid))
         == P.Create(Ptrs(rd, f, idx), Index.Bucket(hash, key), PtrOf(rd, f, Index.Entry(hash(key), key, rid)))
  {
    var b := Index.Bucket(hash, key);
    assert Index.Sorted(idx[b]);
    InsertPtr(rd, f, idx[b], Index.Entry(hash(key), key, rid));
  }

  lemma {:induction false} ErasePtr(rd: P.Reading, f: File, b: seq<Index.Entry>, n: nat)
    requires n < |b|
    ensures PtrsIn(rd, f, Index.Erase(b, n)) == P.Erase(PtrsIn(rd, f, b), n)
  {
  }

  lemma {:induction false} RemovePtr(rd: P.Reading, f: File, idx: Entries, hash: Index.Hash, key: Key)
    requires Index.Ordered(idx) && P.Ordered(Ptrs(rd, f, idx)) && P.Seen(rd, f.pages, Ptrs(rd, f, idx)) == idx
    ensures Ptrs(rd, f, Index.Remove(idx, hash, key)) == P.Remove(rd, f.pages, Ptrs(rd, f, idx), hash, key)
  {
    var b := Index.Bucket(hash, key);
    var n := Index.Search(idx[b], hash(key), key);
    if n < |idx[b]| {
      ErasePtr(rd, f, idx[b], n);
    }
  }

  lemma {:induction false} CreateFiled(env: Env, f: File, idx: Entries, key: Key, rid: RecordID)
    requires Index.Valid(idx) && Index.Find(idx, env.hash, key) == None && P.Filed(env.hash, idx) && Keyed(env, f, idx)
    requires HasRecord(env, f, Index.Entry(env.hash(key), key, rid))
    ensures var y := Index.Create(idx, env.hash, key, rid); Index.Valid(y) && P.Filed(env.hash, y) && Keyed(env, f, y)
  {
    var b := Index.Bucket(env.hash, key);
    Index.CreateGrows(idx, env.hash, key, rid);
    Index.InsertSorted(idx[b], Index.Entry(env.hash(key), key, rid));
    assert KeyedIn(env, f, idx[b]);
  }

  lemma {:induction false} RemoveFiled(env: Env, f: File, idx: Entries, key: Key)
    requires Index.Valid(idx) && P.Filed(env.hash, idx) && Keyed(env, f, idx)
    ensures var y := Index.Remove(idx, env.hash, key); Index.Valid(y) && P.Filed(env.hash, y) && Keyed(env, f, y)
  {
    var b := Index.Bucket(env.hash, key);
    var n := Index.Search(idx[b], env.hash(key), key);
    Index.RemoveShrinks(idx, env.hash, key);
    assert KeyedIn(env, f, idx[b]);
    if n < |idx[b]| {
      Index.EraseSorted(idx[b], n);
    }
  }

  /** The records that the entries stand for, and their places, are the same in both files. */
  predicate SameFor(f: File, g: File, idx: Entries) {
    forall i, e :: 0 <= i < |idx| && e in idx[i] ==>
      Record(g, e.rid) == Record(f, e.rid) && P.Place(g.pages, e.rid) == P.Place(f.pages, e.rid)
  }

  lemma {:induction false} Repoint(env: Env, rd: P.Reading, f: File, g: File, idx: Entries)
    requires Keyed(env, f, idx) && SameFor(f, g, idx)
    ensures Ptrs(rd, g, idx) == Ptrs(rd, f, idx) && Keyed(env, g, idx)
  {
    forall i | 0 <= i < |idx|
      ensures PtrsIn(rd, g, idx[i]) == PtrsIn(rd, f, idx[i]) && KeyedIn(env, g, idx[i])
    {
      assert KeyedIn(env, f, idx[i]);
      RepointIn(rd, f, g, idx[i]);
    }
  }

  lemma {:induction false} RepointIn(rd: P.Reading, f: File, g: File, b: seq<Index.Entry>)
    requires forall e :: e in b ==> Record(g, e.rid) == Record(f, e.rid) && P.Place(g.pages, e.rid) == P.Place(f.pages, e.rid)
    ensures PtrsIn(rd, g, b) == PtrsIn(rd, f, b)
  {
    forall j | 0 <= j < |b|
      ensures PtrOf(rd, g, b[j]) == PtrOf(rd, f, b[j])
    {
      assert b[j] in b;
    }
  }

  // ---------------------------------------------------------------- inserts that move nothing

  /** An insert of this size moves no record of the page. */
  predicate Unmoved(p: page, size: nat)
    requires PageBytes.Valid(p)
  {
    PageExtents(p);
    !MustCompact(p, size) || GapFree(p)
  }

  predicate Still(f: File, size: nat)
    requires Dms.Valid(f)
  {
    match FindSpot(f, size)
    case None => true
    case Some(id) => Unmoved(f.pages[id], size)
  }

  lemma {:induction false} UnmovedSlot(p: page, data: seq<byte>, k: nat)
    requires PageBytes.Valid(p) && IsObj(data) && |data| < MAX_OBJECT && Unmoved(p, |data|)
    requires k < NumSlots(p) && Contents(p)[k] != None
    ensures HEADER + 4 * k + 4 <= PAGE_SIZE && SlotAt(InsertInto(p, data, RECORD).p, k) == SlotAt(p, k)
  {
    var q := InsertInto(p, data, RECORD).p;
    PointersSurvive(p, data);
    InsertIntoKeeps(p, data);
    assert Contents(p)[k] == View(Decode(p))[k];
    CellOf(p, k);
    assert Decode(q).cells[k] == Decode(p).cells[k];
    CellOf(q, k);
  }

  lemma {:induction false} FreshStill(f: File, size: nat)
    requires Dms.Valid(f) && f.room > 0 && FindSpot(f, size) == None && Dms.Valid(Extended(f))
    ensures Still(Extended(f), size)
  {
    FindPageBestFit(f.pages, f.free, size);
    FindPageBestFit(Extended(f).pages, Extended(f).free, size);
    match FindSpot(Extended(f), size)
    case None =>
    case Some(id) => NewPage(f, id);
  }

  /** The places of all records are what they were. */
  ghost predicate SamePlaces(f: File, g: File) {
    forall rid :: Record(f, rid) != None ==> P.Place(g.pages, rid) == P.Place(f.pages, rid)
  }

  lemma {:induction false} StillPage(f: File, id: nat, data: seq<byte>, g: File)
    requires Dms.Valid(f) && id < |f.pages| && IsObj(data) && |data| < MAX_OBJECT && Unmoved(f.pages[id], |data|)
    requires g.pages == f.pages[id := InsertInto(f.pages[id], data, RECORD).p]
    ensures SamePlaces(f, g)
  {
    forall rid | Record(f, rid) != None
      ensures P.Place(g.pages, rid) == P.Place(f.pages, rid)
    {
      if rid.page == id {
        UnmovedSlot(f.pages[id], data, rid.slot);
      }
    }
  }

  lemma {:induction false} StillInsert(f: File, data: seq<byte>)
    requires Dms.Valid(f) && IsObj(data) && |data| < MAX_OBJECT && Still(f, |data|)
    ensures SamePlaces(f, DmsOps.Insert(f, data, RECORD).file)
    decreases f.room
  {
    DmsOps.InsertUnfolds(f, data, RECORD);
    match FindSpot(f, |data|)
    case None =>
      if f.room > 0 {
        ExtendedKeeps(f);
        FreshStill(f, |data|);
        StillInsert(Extended(f), data);
        StillExtended(f, DmsOps.Insert(Extended(f), data, RECORD).file);
      }
    case Some(id) => StillPage(f, id, data, DmsOps.Insert(f, data, RECORD).file);
  }

  lemma {:induction false} StillExtended(f: File, g: File)
    requires Dms.Valid(f) && f.room > 0 && SamePlaces(Extended(f), g)
    ensures SamePlaces(f, g)
  {
    ExtendedKeeps(f);
    forall rid | Record(f, rid) != None
      ensures P.Place(g.pages, rid) == P.Place(f.pages, rid)
    {
      PrefixPlace(f.pages, Extended(f).pages, rid);
    }
  }

  lemma PrefixPlace(pages: seq<page>, more: seq<page>, rid: RecordID)
    requires rid.page < |pages| <= |more| && more[rid.page] == pages[rid.page]
    ensures P.Place(more, rid) == P.Place(pages, rid)
  {
  }

  // ---------------------------------------------------------------- the steps

  /** The store with pointers is the store with values, each key replaced by a pointer to it. */
  ghost predicate Pointing(env: Env, rd: P.Reading, s: Store, t: P.PStore) {
    && Sane(s) && t.file == s.file && t.index == Ptrs(rd, s.file, s.index)
    && P.Filed(env.hash, s.index) && Keyed(env, s.file, s.index) && Legible(env, rd, s.file)
  }

  /** So its lookups find the same. */
  lemma {:induction false} SameFind(env: Env, rd: P.Reading, s: Store, t: P.PStore, key: Key)
    requires Pointing(env, rd, s, t)
    ensures P.Shaped(t) && P.Find(rd, t.file.pages, t.index, env.hash, key) == Index.Find(s.index, env.hash, key)
  {
    PtrsOrdered(rd, s.file, s.index);
    SeenIs(env, rd, s.file, s.index);
  }

  lemma {:induction false} EntriesApart(env: Env, f: File, idx: Entries)
    requires Index.Valid(idx) && P.Filed(env.hash, idx) && Keyed(env, f, idx)
    ensures P.Apart(idx)
  {
    forall i, j, k | 0 <= i < |idx| && 0 <= j < k < |idx[i]|
      ensures idx[i][j].rid != idx[i][k].rid
    {
      assert Index.Unique(idx[i]) && KeyedIn(env, f, idx[i]) && idx[i][j] in idx[i] && idx[i][k] in idx[i];
      assert HasRecord(env, f, idx[i][j]) && HasRecord(env, f, idx[i][k]);
    }
  }

  /**
   Whatever the pages come to hold, the pointers of a store lead lookups, for all keys, where the index by
   values does exactly as long as each of them shows the key it was made for.
   */
  lemma {:induction false} LookupsAfter(env: Env, rd: P.Reading, s: Store, t: P.PStore, pages: seq<page>)
    requires Pointing(env, rd, s, t)
    ensures P.Shaped(t)
    ensures (forall key :: P.Find(rd, pages, t.index, env.hash, key) == Index.Find(s.index, env.hash, key))
            <==> P.AllShow(rd, pages, t.index, s.index)
  {
    PtrsOrdered(rd, s.file, s.index);
    EntriesApart(env, s.file, s.index);
    P.LookupsAgreeIff(rd, pages, t.index, s.index, env.hash);
  }

  lemma {:induction false} EntriesKept(env: Env, f: File, g: File, idx: Entries)
    requires Keyed(env, f, idx) && SamePlaces(f, g)
    requires forall rid :: Record(f, rid) != None ==> Record(g, rid) == Record(f, rid)
    ensures SameFor(f, g, idx)
  {
    forall i, e | 0 <= i < |idx| && e in idx[i]
      ensures Record(g, e.rid) == Record(f, e.rid) && P.Place(g.pages, e.rid) == P.Place(f.pages, e.rid)
    {
      assert KeyedIn(env, f, idx[i]) && HasRecord(env, f, e);
    }
  }

  /** Nothing is moved by the insert: the pointers there are stay as they are. */
  lemma {:induction false} PointersStay(env: Env, rd: P.Reading, s: Store, rec: seq<byte>)
    requires Sane(s) && Keyed(env, s.file, s.index) && IsObj(rec) && |rec| < MAX_OBJECT && Still(s.file, |rec|)
    ensures var g := DmsOps.Insert(s.file, rec, RECORD).file;
      Ptrs(rd, g, s.index) == Ptrs(rd, s.file, s.index) && Keyed(env, g, s.index)
  {
    var g := DmsOps.Insert(s.file, rec, RECORD).file;
    DmsOps.InsertKeeps(s.file, rec);
    StillInsert(s.file, rec);
    EntriesKept(env, s.file, g, s.index);
    Repoint(env, rd, s.file, g, s.index);
  }

  lemma {:induction false} LegibleAfter(env: Env, rd: P.Reading, f: File, rec: seq<byte>)
    requires Dms.Valid(f) && Legible(env, rd, f) && P.Reads(env, rd, rec) && IsObj(rec) && |rec| < MAX_OBJECT
    ensures Legible(env, rd, DmsOps.Insert(f, rec, RECORD).file)
  {
    DmsOps.InsertKeeps(f, rec);
    var r := DmsOps.Insert(f, rec, RECORD);
    forall rid | Record(r.file, rid).Some?
      ensures P.Reads(env, rd, Record(r.file, rid).value)
    {
      if !(r.Stored? && rid == r.rid) {
        assert Record(r.file, rid) == Record(f, rid);
      }
    }
  }

  /** The new record's entry: a pointer to the key in it. */
  lemma {:induction false} EntersPtr(env: Env, rd: P.Reading, g: File, idx: Entries, x: P.Buckets, at: RecordID, rec: seq<byte>, key: Key)
    requires Dms.Valid(g) && Index.Valid(idx) && x == Ptrs(rd, g, idx) && P.Ordered(x) && FreeMap.Sorted(g.free)
    requires Record(g, at) == Some(rec) && env.keyOf(rec) == Some(key)
    ensures P.CreateIndex(env, rd, P.PStore(g, x), at) == (P.PStore(g, Ptrs(rd, g, Index.Create(idx, env.hash, key, at))), Done)
  {
    DmsOps.FindKeeps(g, at);
    CreateIndexIs(env, rd, P.PStore(g, x), at, rec, key);
    EnteredIs(env, rd, g, idx, at, rec, key);
  }

  lemma CreateIndexIs(env: Env, rd: P.Reading, t: P.PStore, at: RecordID, rec: seq<byte>, key: Key)
    requires P.Shaped(t) && DmsOps.Find(t.file, at) == Found(rec) && env.keyOf(rec) == Some(key)
    ensures P.CreateIndex(env, rd, t, at) == (t.(index := P.Entered(env, rd, t.file.pages, t.index, at, rec, key)), Done)
  {
  }

  lemma {:induction false} EnteredIs(env: Env, rd: P.Reading, f: File, idx: Entries, at: RecordID, rec: seq<byte>, key: Key)
    requires Index.Ordered(idx) && P.Ordered(Ptrs(rd, f, idx)) && Record(f, at) == Some(rec)
    ensures P.Entered(env, rd, f.pages, Ptrs(rd, f, idx), at, rec, key) == Ptrs(rd, f, Index.Create(idx, env.hash, key, at))
  {
    CreatePtr(rd, f, idx, env.hash, key, at);
    EnteredPtr(env, rd, f, Ptrs(rd, f, idx), at, rec, key);
  }

  lemma EnteredPtr(env: Env, rd: P.Reading, f: File, x: P.Buckets, at: RecordID, rec: seq<byte>, key: Key)
    requires P.Ordered(x) && Record(f, at) == Some(rec)
    ensures P.Entered(env, rd, f.pages, x, at, rec, key)
         == P.Create(x, Index.Bucket(env.hash, key), PtrOf(rd, f, Index.Entry(env.hash(key), key, at)))
  {
  }

  lemma {:induction false} StoredPoints(env: Env, rd: P.Reading, s: Store, t: P.PStore, rec: seq<byte>, key: Key, g: File, at: RecordID)
    requires Pointing(env, rd, s, t) && IsObj(rec) && |rec| < MAX_OBJECT && Still(s.file, |rec|) && P.Reads(env, rd, rec)
    requires env.keyOf(rec) == Some(key) && Index.Find(s.index, env.hash, key) == None
    requires DmsOps.Insert(s.file, rec, RECORD) == Stored(g, at) && P.Ordered(t.index) && Dms.Valid(g)
    ensures var u := Store(g, Index.Create(s.index, env.hash, key, at));
      P.CreateIndex(env, rd, t.(file := g), at) == (P.PStore(g, Ptrs(rd, g, u.index)), Done)
      && Pointing(env, rd, u, P.PStore(g, Ptrs(rd, g, u.index)))
  {
    DmsOps.InsertKeeps(s.file, rec);
    PointersStay(env, rd, s, rec);
    LegibleAfter(env, rd, s.file, rec);
    EntersPtr(env, rd, g, s.index, t.index, at, rec, key);
    CreateFiled(env, g, s.index, key, at);
  }

  lemma {:induction false} FailedPoints(env: Env, rd: P.Reading, s: Store, t: P.PStore, rec: seq<byte>, g: File)
    requires Pointing(env, rd, s, t) && IsObj(rec) && |rec| < MAX_OBJECT && Still(s.file, |rec|) && P.Reads(env, rd, rec)
    requires DmsOps.Insert(s.file, rec, RECORD) == Failed(g)
    ensures Pointing(env, rd, s.(file := g), t.(file := g))
  {
    DmsOps.InsertKeeps(s.file, rec);
    PointersStay(env, rd, s, rec);
    LegibleAfter(env, rd, s.file, rec);
  }

  /** An insert under a key not in use. */
  lemma {:induction false} PointWrite(env: Env, rd: P.Reading, s: Store, t: P.PStore, rec: seq<byte>, key: Key)
    requires Pointing(env, rd, s, t) && IsObj(rec) && |rec| < MAX_OBJECT && Still(s.file, |rec|) && P.Reads(env, rd, rec)
    requires P.Shaped(t) && env.keyOf(rec) == Some(key) && Index.Find(s.index, env.hash, key) == None
    ensures P.Find(rd, t.file.pages, t.index, env.hash, key) == None
    ensures var r, u := Rtn.RtnInsert(env, s, rec, RECORD), P.RtnInsert(env, rd, t, rec, RECORD);
      r.1 == u.1 && Pointing(env, rd, r.0, u.0)
  {
    SameFind(env, rd, s, t, key);
    match DmsOps.Insert(s.file, rec, RECORD)
    case Failed(g) => FailedPoints(env, rd, s, t, rec, g);
    case Stored(g, at) =>
      InsertGrows(env, s, rec, key, g, at);
      StoredPoints(env, rd, s, t, rec, key, g, at);
  }

  lemma {:induction false} PointInsert(env: Env, rd: P.Reading, s: Store, t: P.PStore, rec: seq<byte>)
    requires Pointing(env, rd, s, t) && IsObj(rec) && |rec| < MAX_OBJECT && Still(s.file, |rec|) && P.Reads(env, rd, rec)
    requires P.Shaped(t)
    ensures var r, u := Rtn.RtnInsert(env, s, rec, RECORD), P.RtnInsert(env, rd, t, rec, RECORD);
      r.1 == u.1 && Pointing(env, rd, r.0, u.0)
  {
    if env.keyOf(rec).Some? {
      var key := env.keyOf(rec).value;
      if Index.Find(s.index, env.hash, key) == None {
        PointWrite(env, rd, s, t, rec, key);
      } else {
        SameFind(env, rd, s, t, key);
      }
    }
  }

  lemma {:induction false} PointFind(env: Env, rd: P.Reading, s: Store, t: P.PStore, query: seq<byte>)
    requires Pointing(env, rd, s, t) && P.Shaped(t)
    ensures P.RtnFind(env, rd, t, query) == Rtn.RtnFind(env, s, query)
  {
    if env.keyOf(query).Some? {
      SameFind(env, rd, s, t, env.keyOf(query).value);
      SameAnswer(env, rd, s, t, query, env.keyOf(query).value);
    }
  }

  lemma SameAnswer(env: Env, rd: P.Reading, s: Store, t: P.PStore, query: seq<byte>, key: Key)
    requires P.Shaped(t) && Rtn.Shaped(s) && t.file == s.file && env.keyOf(query) == Some(key)
    requires P.Find(rd, t.file.pages, t.index, env.hash, key) == Index.Find(s.index, env.hash, key)
    ensures P.RtnFind(env, rd, t, query) == Rtn.RtnFind(env, s, query)
  {
  }

  /** Taking a record out of its page moves no other. */
  lemma {:induction false} DropPlaces(f: File, at: RecordID, other: RecordID)
    requires Dms.Valid(f) && Record(f, at).Some? && Record(f, other).Some? && other != at
    ensures P.Place(DmsOps.Remove(f, at).0.pages, other) == P.Place(f.pages, other)
  {
    RemovedKeeps(f.pages[at.page], at.slot);
    if other.page == at.page {
      RemovedOffsets(f.pages[at.page], at.slot, other.slot);
    }
  }

  /** No other entry stands for the record that is taken out. */
  lemma {:induction false} NotAt(env: Env, f: File, idx: Entries, key: Key, at: RecordID, i: nat, e: Index.Entry)
    requires Index.Valid(idx) && P.Filed(env.hash, idx) && Keyed(env, f, idx) && i < |idx| && e in idx[i]
    requires Record(f, at).Some? && env.keyOf(Record(f, at).value) == Some(key) && Index.Find(idx, env.hash, key) == None
    ensures Record(f, e.rid).Some? && e.rid != at
  {
    assert KeyedIn(env, f, idx[i]) && HasRecord(env, f, e);
    Index.GetIff(idx[i], e.hash, e.key, e.rid);
  }

  lemma {:induction false} DropKeeps(env: Env, rd: P.Reading, f: File, idx: Entries, key: Key, at: RecordID)
    requires Dms.Valid(f) && Index.Valid(idx) && P.Filed(env.hash, idx) && Keyed(env, f, idx) && Legible(env, rd, f)
    requires Record(f, at).Some? && env.keyOf(Record(f, at).value) == Some(key) && Index.Find(idx, env.hash, key) == None
    ensures var g := DmsOps.Remove(f, at).0;
      SameFor(f, g, idx) && Legible(env, rd, g)
  {
    var g := DmsOps.Remove(f, at).0;
    DmsOps.RemoveKeeps(f, at);
    forall i, e | 0 <= i < |idx| && e in idx[i]
      ensures Record(g, e.rid) == Record(f, e.rid) && P.Place(g.pages, e.rid) == P.Place(f.pages, e.rid)
    {
      NotAt(env, f, idx, key, at, i, e);
      DropPlaces(f, at, e.rid);
    }
    forall rid | Record(g, rid).Some?
      ensures P.Reads(env, rd, Record(g, rid).value)
    {
      assert Record(g, rid) == Record(f, rid);
    }
  }

  /** The record a found entry stands for has the key. */
  lemma {:induction false} FoundHas(env: Env, s: Store, m: Table, key: Key, at: RecordID)
    requires Represents(env, s, m) && Index.Find(s.index, env.hash, key) == Some(at)
    ensures Record(s.file, at).Some? && env.keyOf(Record(s.file, at).value) == Some(key)
  {
    var a := PairOf(env, s);
    assert a.find(key) == Some(at);
    assert HasKey(env.keyOf, a, at, key) && a.rec(at) == Record(s.file, at);
  }

  lemma {:induction false} DroppedPoints(env: Env, rd: P.Reading, s: Store, t: P.PStore, m: Table, key: Key, at: RecordID)
    requires Pointing(env, rd, s, t) && Represents(env, s, m) && Index.Find(s.index, env.hash, key) == Some(at) && P.Shaped(t)
    ensures var g, y := DmsOps.Remove(s.file, at).0, Index.Remove(s.index, env.hash, key);
      Sane(Store(g, y)) && Pointing(env, rd, Store(g, y), P.PStore(g, P.Remove(rd, s.file.pages, t.index, env.hash, key)))
  {
    var f, y := s.file, Index.Remove(s.index, env.hash, key);
    FoundHas(env, s, m, key, at);
    DmsOps.RemoveKeeps(f, at);
    Index.RemoveShrinks(s.index, env.hash, key);
    RemoveFiled(env, f, s.index, key);
    SeenIs(env, rd, f, s.index);
    RemovePtr(rd, f, s.index, env.hash, key);
    DropKeeps(env, rd, f, y, key, at);
    Repoint(env, rd, f, DmsOps.Remove(f, at).0, y);
  }

  lemma {:induction false} PointRemove(env: Env, rd: P.Reading, s: Store, t: P.PStore, m: Table, query: seq<byte>)
    requires Pointing(env, rd, s, t) && Represents(env, s, m) && P.Shaped(t)
    ensures var r, u := Rtn.RtnRemove(env, s, query), P.RtnRemove(env, rd, t, query);
      r.1 == u.1 && Pointing(env, rd, r.0, u.0)
  {
    if env.keyOf(query).Some? {
      var key := env.keyOf(query).value;
      SameFind(env, rd, s, t, key);
      match Index.Find(s.index, env.hash, key)
      case None =>
      case Some(at) =>
        DroppedPoints(env, rd, s, t, m, key, at);
        SameDrop(env, rd, s, t, query, key, at);
    }
  }

  lemma SameDrop(env: Env, rd: P.Reading, s: Store, t: P.PStore, query: seq<byte>, key: Key, at: RecordID)
    requires P.Shaped(t) && Rtn.Shaped(s) && t.file == s.file && env.keyOf(query) == Some(key)
    requires P.Find(rd, t.file.pages, t.index, env.hash, key) == Index.Find(s.index, env.hash, key) == Some(at)
    ensures var r, u, g := Rtn.RtnRemove(env, s, query), P.RtnRemove(env, rd, t, query), DmsOps.Remove(s.file, at).0;
      && r.1 == u.1 && r.0 == Store(g, Index.Remove(s.index, env.hash, key))
      && u.0 == P.PStore(g, P.Remove(rd, s.file.pages, t.index, env.hash, key))
  {
  }

  // ---------------------------------------------------------------- reopening

  /** The part of the index loaded so far, by values and by pointers. */
  ghost predicate Loading(env: Env, f: File, y: Entries) {
    Index.Valid(y) && P.Filed(env.hash, y) && Keyed(env, f, y)
  }

  lemma {:induction false} LoadEnters(env: Env, rd: P.Reading, f: File, y: Entries, at: RecordID, data: seq<byte>, key: Key)
    requires Dms.Valid(f) && Loading(env, f, y) && Record(f, at) == Some(data) && env.keyOf(data) == Some(key)
    requires Index.Find(y, env.hash, key) == None
    ensures Loading(env, f, Index.Create(y, env.hash, key, at)) && P.Ordered(Ptrs(rd, f, y))
    ensures Ptrs(rd, f, Index.Create(y, env.hash, key, at)) == P.Entered(env, rd, f.pages, Ptrs(rd, f, y), at, data, key)
  {
    PtrsOrdered(rd, f, y);
    CreateFiled(env, f, y, key, at);
    EnteredIs(env, rd, f, y, at, data, key);
  }

  lemma {:induction false} LoadFinds(env: Env, rd: P.Reading, f: File, y: Entries, key: Key)
    requires Dms.Valid(f) && Legible(env, rd, f) && Loading(env, f, y)
    ensures P.Ordered(Ptrs(rd, f, y)) && P.Find(rd, f.pages, Ptrs(rd, f, y), env.hash, key) == Index.Find(y, env.hash, key)
  {
    PtrsOrdered(rd, f, y);
    SeenIs(env, rd, f, y);
  }

  ghost predicate SlotsAgree(env: Env, rd: P.Reading, f: File, id: nat, k: nat, y: Entries)
    requires id < |f.pages| && TableFits(f.pages[id]) && k <= NumSlots(f.pages[id]) && Index.Valid(y) && P.Ordered(Ptrs(rd, f, y))
  {
    match Reopen.LoadSlots(env, f.pages[id], Behind(f.pages, id), id, k, y)
    case None => P.LoadSlots(env, rd, f.pages, id, k, Ptrs(rd, f, y)) == None
    case Some(z) => P.LoadSlots(env, rd, f.pages, id, k, Ptrs(rd, f, y)) == Some(Ptrs(rd, f, z)) && Loading(env, f, z)
  }

  /** Page `id` with `left` slots still to load, from slot `k` on. */
  predicate SlotsLeft(f: File, id: nat, k: nat, left: nat) {
    id < |f.pages| && TableFits(f.pages[id]) && k + left == NumSlots(f.pages[id])
  }

  lemma {:induction false} LoadSlotsAgree(env: Env, rd: P.Reading, f: File, id: nat, k: nat, left: nat, y: Entries)
    requires Dms.Valid(f) && Legible(env, rd, f) && Loading(env, f, y) && SlotsLeft(f, id, k, left) && P.Ordered(Ptrs(rd, f, y))
    ensures SlotsAgree(env, rd, f, id, k, y)
    decreases left, 2
  {
    if left == 0 {
      NoneLeft(env, rd, f, id, k, y);
    } else if SlotAt(f.pages[id], k) == EMPTY {
      LoadDead(env, rd, f, id, k, left, y);
    } else {
      LoadRecord(env, rd, f, id, k, left, y);
    }
  }

  lemma NoneLeft(env: Env, rd: P.Reading, f: File, id: nat, k: nat, y: Entries)
    requires SlotsLeft(f, id, k, 0) && Loading(env, f, y) && P.Ordered(Ptrs(rd, f, y))
    ensures SlotsAgree(env, rd, f, id, k, y)
  {
  }

  lemma {:induction false} LoadDead(env: Env, rd: P.Reading, f: File, id: nat, k: nat, left: nat, y: Entries)
    requires Dms.Valid(f) && Legible(env, rd, f) && Loading(env, f, y) && SlotsLeft(f, id, k, left) && P.Ordered(Ptrs(rd, f, y))
    requires 0 < left && SlotAt(f.pages[id], k) == EMPTY
    ensures SlotsAgree(env, rd, f, id, k, y)
    decreases left, 0
  {
    LoadSlotsAgree(env, rd, f, id, k + 1, left - 1, y);
    SkipsDead(env, rd, f, id, k, y);
  }

  lemma SkipsDead(env: Env, rd: P.Reading, f: File, id: nat, k: nat, y: Entries)
    requires id < |f.pages| && TableFits(f.pages[id]) && k < NumSlots(f.pages[id]) && Index.Valid(y) && P.Ordered(Ptrs(rd, f, y))
    requires SlotAt(f.pages[id], k) == EMPTY && SlotsAgree(env, rd, f, id, k + 1, y)
    ensures SlotsAgree(env, rd, f, id, k, y)
  {
  }

  /** A record is refused by both, or entered by both, under its key and as a pointer to it. */
  lemma {:induction false} LoadRecord(env: Env, rd: P.Reading, f: File, id: nat, k: nat, left: nat, y: Entries)
    requires Dms.Valid(f) && Legible(env, rd, f) && Loading(env, f, y) && SlotsLeft(f, id, k, left) && P.Ordered(Ptrs(rd, f, y))
    requires 0 < left && SlotAt(f.pages[id], k) != EMPTY
    ensures SlotsAgree(env, rd, f, id, k, y)
    decreases left, 0
  {
    FindReads(f.pages[id], Behind(f.pages, id), k);
    var at, data := RecordID(id, k), Contents(f.pages[id])[k].value;
    assert Record(f, at) == Some(data);
    if env.keyOf(data).Some? {
      var key := env.keyOf(data).value;
      LoadFinds(env, rd, f, y, key);
      if Index.Find(y, env.hash, key) == None {
        LoadEnters(env, rd, f, y, at, data, key);
        LoadSlotsAgree(env, rd, f, id, k + 1, left - 1, Index.Create(y, env.hash, key, at));
        EntersRecord(env, rd, f, id, k, y, data, key);
      } else {
        RefusesRecord(env, rd, f, id, k, y, data);
      }
    } else {
      RefusesRecord(env, rd, f, id, k, y, data);
    }
  }

  lemma EntersRecord(env: Env, rd: P.Reading, f: File, id: nat, k: nat, y: Entries, data: seq<byte>, key: Key)
    requires id < |f.pages| && TableFits(f.pages[id]) && k < NumSlots(f.pages[id]) && Index.Valid(y) && P.Ordered(Ptrs(rd, f, y))
    requires SlotAt(f.pages[id], k) != EMPTY && ObjectAt(f.pages[id], Behind(f.pages, id), SlotAt(f.pages[id], k)) == Some(data)
    requires env.keyOf(data) == Some(key) && Index.Find(y, env.hash, key) == None
    requires P.Find(rd, f.pages, Ptrs(rd, f, y), env.hash, key) == None
    requires var z := Index.Create(y, env.hash, key, RecordID(id, k));
      && Index.Valid(z) && P.Ordered(Ptrs(rd, f, z)) && SlotsAgree(env, rd, f, id, k + 1, z)
      && Ptrs(rd, f, z) == P.Entered(env, rd, f.pages, Ptrs(rd, f, y), RecordID(id, k), data, key)
    ensures SlotsAgree(env, rd, f, id, k, y)
  {
  }

  lemma RefusesRecord(env: Env, rd: P.Reading, f: File, id: nat, k: nat, y: Entries, data: seq<byte>)
    requires id < |f.pages| && TableFits(f.pages[id]) && k < NumSlots(f.pages[id]) && Index.Valid(y) && P.Ordered(Ptrs(rd, f, y))
    requires SlotAt(f.pages[id], k) != EMPTY && ObjectAt(f.pages[id], Behind(f.pages, id), SlotAt(f.pages[id], k)) == Some(data)
    requires match env.keyOf(data)
      case None => true
      case Some(key) =>
        Index.Find(y, env.hash, key).Some? && P.Find(rd, f.pages, Ptrs(rd, f, y), env.hash, key).Some?
    ensures SlotsAgree(env, rd, f, id, k, y)
  {
  }

  lemma {:induction false} LoadPagesAgree(env: Env, rd: P.Reading, f: File, i: nat, free: seq<FreeMap.Entry>, y: Entries)
    requires Dms.Valid(f) && Legible(env, rd, f) && Loading(env, f, y) && i <= |f.pages| && FreeMap.Sorted(free)
    requires forall j :: 0 <= j < |f.pages| ==> TableFits(f.pages[j])
    ensures P.Ordered(Ptrs(rd, f, y))
    ensures match Reopen.LoadPages(env, f.pages, i, free, y)
      case None => P.LoadPages(env, rd, f.pages, i, free, Ptrs(rd, f, y)) == None
      case Some(l) =>
        && P.LoadPages(env, rd, f.pages, i, free, Ptrs(rd, f, y)) == Some(P.Rebuilt(l.free, Ptrs(rd, f, l.index)))
        && Loading(env, f, l.index)
    decreases |f.pages| - i
  {
    PtrsOrdered(rd, f, y);
    if i < |f.pages| {
      LoadSlotsAgree(env, rd, f, i, 0, NumSlots(f.pages[i]), y);
      var z := Reopen.LoadSlots(env, f.pages[i], Behind(f.pages, i), i, 0, y);
      if z.Some? {
        LoadPagesAgree(env, rd, f, i + 1, FreeMap.Added(free, EntryOf(f.pages, i)), z.value);
      }
    }
  }

  lemma NothingLoaded(env: Env, rd: P.Reading, f: File)
    ensures Loading(env, f, Index.Empty()) && Ptrs(rd, f, Index.Empty()) == P.Empty()
  {
  }

  lemma {:induction false} PointReopen(env: Env, rd: P.Reading, s: Store, t: P.PStore)
    requires Pointing(env, rd, s, t) && Rtn.Valid(env, s) && P.Shaped(t)
    ensures var r, u := Runs.ReopenStep(env, s), P.ReopenStep(env, rd, t);
      r.1 == u.1 && Sane(r.0) && Pointing(env, rd, r.0, u.0)
  {
    ReopenRebuilds(env, s);
    var l := LoadedPoints(env, rd, s.file);
    Reopened(env, rd, s.file, s.file.(free := l.free), l.index);
  }

  lemma {:induction false} LoadedPoints(env: Env, rd: P.Reading, f: File) returns (l: Reopen.Loaded)
    requires Dms.Valid(f) && Legible(env, rd, f) && forall j :: 0 <= j < |f.pages| ==> TableFits(f.pages[j])
    requires Reopen.LoadPages(env, f.pages, 0, [], Index.Empty()).Some?
    ensures Reopen.LoadPages(env, f.pages, 0, [], Index.Empty()) == Some(l) && Loading(env, f, l.index)
    ensures P.LoadPages(env, rd, f.pages, 0, [], P.Empty()) == Some(P.Rebuilt(l.free, Ptrs(rd, f, l.index)))
  {
    NothingLoaded(env, rd, f);
    LoadPagesAgree(env, rd, f, 0, [], Index.Empty());
    l := Reopen.LoadPages(env, f.pages, 0, [], Index.Empty()).value;
  }

  /** Only the multimap is another. */
  lemma {:induction false} Reopened(env: Env, rd: P.Reading, f: File, g: File, idx: Entries)
    requires Keyed(env, f, idx) && Legible(env, rd, f) && g.pages == f.pages
    ensures Ptrs(rd, g, idx) == Ptrs(rd, f, idx) && Keyed(env, g, idx) && Legible(env, rd, g)
  {
    assert forall rid :: Record(g, rid) == Record(f, rid);
    Repoint(env, rd, f, g, idx);
  }

  // ---------------------------------------------------------------- the runs

  /** The records of a run can be read through pointers. */
  ghost predicate AllLegible(env: Env, rd: P.Reading, ops: seq<Op>) {
    forall op :: op in ops && op.Insert? ==> P.Reads(env, rd, op.rec)
  }

  /** No insert of the run moves a record. */
  ghost predicate StillRun(env: Env, s: Store, ops: seq<Op>)
    requires Sane(s) && forall op :: op in ops ==> Proper(op)
    decreases |ops|
  {
    ops != [] ==>
      && (ops[0].Insert? ==> Still(s.file, |ops[0].rec|))
      && (Sane(Runs.Step(env, s, ops[0], RECORD).0) ==> StillRun(env, Runs.Step(env, s, ops[0], RECORD).0, ops[1..]))
  }

  lemma {:induction false} PointStep(env: Env, rd: P.Reading, s: Store, t: P.PStore, m: Table, op: Op)
    requires Pointing(env, rd, s, t) && Represents(env, s, m) && Proper(op) && P.Shaped(t)
    requires op.Insert? ==> Still(s.file, |op.rec|) && P.Reads(env, rd, op.rec)
    ensures var r, u := Runs.Step(env, s, op, RECORD), P.Step(env, rd, t, op, RECORD);
      r.1 == u.1 && Pointing(env, rd, r.0, u.0)
  {
    match op
    case Insert(rec) => PointInsert(env, rd, s, t, rec);
    case Find(query) => PointFind(env, rd, s, t, query);
    case Remove(query) => PointRemove(env, rd, s, t, m, query);
    case Reopen => PointReopen(env, rd, s, t);
  }

  lemma {:induction false} RunPOn(env: Env, rd: P.Reading, t: P.PStore, ops: seq<Op>, hdr: nat, r: (P.PStore, Reply))
    requires P.Shaped(t) && (forall op :: op in ops ==> Proper(op)) && hdr <= RECORD && ops != []
    requires r == P.Step(env, rd, t, ops[0], hdr)
    ensures P.Run(env, rd, t, ops, hdr) == [r.1] + P.Run(env, rd, r.0, ops[1..], hdr)
  {
  }

  /**
   From any store that holds `m`, its keys read through pointers: a run in which no insert moves a record
   replies as the map `m` would.
   */
  lemma {:induction false} PointerRunAgrees(env: Env, rd: P.Reading, s: Store, t: P.PStore, m: Table, ops: seq<Op>)
    requires Pointing(env, rd, s, t) && Represents(env, s, m) && P.Shaped(t)
    requires (forall op :: op in ops ==> Proper(op)) && AllLegible(env, rd, ops) && StillRun(env, s, ops)
    ensures P.Run(env, rd, t, ops, RECORD) == Runs.Run(env, s, ops, RECORD)
    ensures Conforms(env, m, ops, P.Run(env, rd, t, ops, RECORD))
    decreases |ops|
  {
    RunConforms(env, s, m, ops);
    if ops != [] {
      var r, u := Runs.Step(env, s, ops[0], RECORD), P.Step(env, rd, t, ops[0], RECORD);
      StepConforms(env, s, m, ops[0]);
      PointStep(env, rd, s, t, m, ops[0]);
      PointerRunAgrees(env, rd, r.0, u.0, After(env, m, ops[0], r.1), ops[1..]);
      RunOn(env, s, ops, RECORD, r);
      RunPOn(env, rd, t, ops, RECORD, u);
    }
  }

  lemma {:induction false} NewPoints(env: Env, rd: P.Reading, room: nat)
    ensures Represents(env, Runs.New(room), map[]) && Pointing(env, rd, Runs.New(room), P.New(room)) && P.Shaped(P.New(room))
  {
    NewHolds(env, room);
    NothingLoaded(env, rd, Runs.New(room).file);
  }

  /** With pointers to keys the store is a map on every run from a new file whose inserts move no record. */
  lemma {:induction false} PointerStoreIsAMap(env: Env, rd: P.Reading, room: nat, ops: seq<Op>)
    requires (forall op :: op in ops ==> Proper(op)) && AllLegible(env, rd, ops)
    requires Sane(Runs.New(room)) && StillRun(env, Runs.New(room), ops)
    ensures P.Shaped(P.New(room)) && Conforms(env, map[], ops, P.Run(env, rd, P.New(room), ops, RECORD))
  {
    NewPoints(env, rd, room);
    PointerRunAgrees(env, rd, Runs.New(room), P.New(room), map[], ops);
  }

  // ---------------------------------------------------------------- the code as written

  lemma {:induction false} LiteralPStep(env: Env, rd: P.Reading, t: P.PStore, op: Op)
    requires P.Shaped(t) && Proper(op) && Dms.Valid(t.file) && (op.Insert? ==> Spared(t.file, |op.rec|))
    ensures P.Step(env, rd, t, op, 0) == P.Step(env, rd, t, op, RECORD)
  {
    if op.Insert? {
      LiteralInsertAgrees(t.file, op.rec);
    }
  }

  /**
   With pointers and with the stride as written: a run whose inserts move no record and compact no page
   that holds one replies as the map would.
   */
  lemma {:induction false} AsWrittenAgrees(env: Env, rd: P.Reading, s: Store, t: P.PStore, m: Table, ops: seq<Op>)
    requires Pointing(env, rd, s, t) && Represents(env, s, m) && P.Shaped(t)
    requires (forall op :: op in ops ==> Proper(op)) && AllLegible(env, rd, ops)
    requires StillRun(env, s, ops) && SparedRun(env, s, ops)
    ensures P.Run(env, rd, t, ops, 0) == P.Run(env, rd, t, ops, RECORD)
    ensures Conforms(env, m, ops, P.Run(env, rd, t, ops, 0))
    decreases |ops|
  {
    PointerRunAgrees(env, rd, s, t, m, ops);
    if ops != [] {
      var r, u := Runs.Step(env, s, ops[0], RECORD), P.Step(env, rd, t, ops[0], RECORD);
      StepConforms(env, s, m, ops[0]);
      PointStep(env, rd, s, t, m, ops[0]);
      LiteralPStep(env, rd, t, ops[0]);
      AsWrittenAgrees(env, rd, r.0, u.0, After(env, m, ops[0], r.1), ops[1..]);
      RunPOn(env, rd, t, ops, RECORD, u);
      RunPOn(env, rd, t, ops, 0, u);
    }
  }

  /** One operation on the store with pointers. */
  function Pointer(env: Env, rd: P.Reading, hdr: nat): Stepper<P.PStore>
    requires hdr <= RECORD
  {
    (t, op) => if P.Shaped(t) && Proper(op) then P.Step(env, rd, t, op, hdr) else (t, SysError)
  }

  lemma {:induction false} RunIsP(env: Env, rd: P.Reading, t: P.PStore, ops: seq<Op>, hdr: nat)
    requires P.Shaped(t) && (forall op :: op in ops ==> Proper(op)) && hdr <= RECORD
    ensures P.Run(env, rd, t, ops, hdr) == RunOf(Pointer(env, rd, hdr), t, ops)
    decreases |ops|
  {
    if ops != [] {
      RunIsP(env, rd, P.Step(env, rd, t, ops[0], hdr).0, ops[1..], hdr);
      RunPOn(env, rd, t, ops, hdr, P.Step(env, rd, t, ops[0], hdr));
    }
  }

  /** One calm operation, with either stride. */
  lemma {:induction false} CalmStep(env: Env, rd: P.Reading, hdr: nat, s: Store, t: P.PStore, m: Table, op: Op)
    requires Pointing(env, rd, s, t) && Represents(env, s, m) && Proper(op) && P.Shaped(t) && (hdr == 0 || hdr == RECORD)
    requires op.Insert? ==> Calm(s.file, |op.rec|) && P.Reads(env, rd, op.rec)
    ensures var r, u := Runs.Step(env, s, op, RECORD), P.Step(env, rd, t, op, hdr);
      r.1 == u.1 && Pointing(env, rd, r.0, u.0)
  {
    PointStep(env, rd, s, t, m, op);
    LiteralPStep(env, rd, t, op);
  }

  /** A run that compacts nothing leads to the same pointers with either stride. */
  lemma {:induction false} CalmPoints(env: Env, rd: P.Reading, hdr: nat, s: Store, t: P.PStore, m: Table,
      ops: seq<Op>, replies: seq<Reply>, u: Store) returns (v: P.PStore)
    requires Pointing(env, rd, s, t) && Represents(env, s, m) && P.Shaped(t) && (hdr == 0 || hdr == RECORD)
    requires AllLegible(env, rd, ops) && CalmTo(env, s, ops, u) && Leads(Stepping(env, RECORD), s, ops, replies, u)
    ensures Leads(Pointer(env, rd, hdr), t, ops, replies, v) && Pointing(env, rd, u, v) && P.Shaped(v)
    decreases |ops|
  {
    if ops == [] {
      v := t;
    } else {
      var r, w := Runs.Step(env, s, ops[0], RECORD), P.Step(env, rd, t, ops[0], hdr);
      CalmStep(env, rd, hdr, s, t, m, ops[0]);
      StepConforms(env, s, m, ops[0]);
      v := CalmPoints(env, rd, hdr, r.0, w.0, After(env, m, ops[0], r.1), ops[1..], replies[1..], u);
      LeadsFirst(Pointer(env, rd, hdr), t, ops, replies, v, w);
    }
  }

  lemma LeadsFirst<S>(step: Stepper<S>, s: S, ops: seq<Op>, replies: seq<Reply>, t: S, r: (S, Reply))
    requires ops != [] && replies != [] && r == step(s, ops[0]) && r.1 == replies[0]
    requires Leads(step, r.0, ops[1..], replies[1..], t)
    ensures Leads(step, s, ops, replies, t)
  {
  }
}
