/** _loadData: rebuilding the index and the free-space multimap from the pages of a file. */
module Reopen {
  import opened Bytes
  import opened Page
  import opened PageBytes
  import opened Dms
  import opened Refinement
  import opened Rtn
  import Index
  import FreeMap

  type Buckets = seq<seq<Index.Entry>>

  predicate TableFits(p: page) {
    HEADER + 4 * NumSlots(p) <= PAGE_SIZE
  }

  /** The inner loop over one page's slots; None where the code reports an error. */
  function LoadSlots(env: Env, p: page, tail: seq<byte>, id: nat, k: nat, x: Buckets): (r: Option<Buckets>)
    requires Index.Valid(x) && k <= NumSlots(p) && TableFits(p)
    ensures r.Some? ==> Index.Valid(r.value)
    decreases NumSlots(p) - k
  {
    if k == NumSlots(p) then Some(x)
    else if SlotAt(p, k) == EMPTY then LoadSlots(env, p, tail, id, k + 1, x)
    else
      match ObjectAt(p, tail, SlotAt(p, k))
      case None => None
      case Some(data) =>
        match env.keyOf(data)
        case None => None
        case Some(key) =>
          if Index.Find(x, env.hash, key).Some? then None
          else
            Index.CreateGrows(x, env.hash, key, RecordID(id, k));
            LoadSlots(env, p, tail, id, k + 1, Index.Create(x, env.hash, key, RecordID(id, k)))
  }

  datatype Loaded = Loaded(free: seq<FreeMap.Entry>, index: Buckets)

  /** The loop over all pages of all segments. */
  function LoadPages(env: Env, pages: seq<page>, i: nat, free: seq<FreeMap.Entry>, x: Buckets): (r: Option<Loaded>)
    requires forall j :: 0 <= j < |pages| ==> TableFits(pages[j])
    requires i <= |pages| && FreeMap.Sorted(free) && Index.Valid(x)
    ensures r.Some? ==> FreeMap.Sorted(r.value.free) && Index.Valid(r.value.index)
    ensures r.Some? && multiset(free) == multiset(Entries(pages[..i])) ==> multiset(r.value.free) == multiset(Entries(pages))
    decreases |pages| - i
  {
    if i == |pages| then
      assert pages[..i] == pages;
      Some(Loaded(free, x))
    else
      NextEntry(pages, i);
      match LoadSlots(env, pages[i], Behind(pages, i), i, 0, x)
      case None => None
      case Some(y) => LoadPages(env, pages, i + 1, FreeMap.Added(free, EntryOf(pages, i)), y)
  }

  lemma {:induction false} NextEntry(pages: seq<page>, i: nat)
    requires i < |pages|
    ensures multiset(Entries(pages[..i + 1])) == multiset(Entries(pages[..i])) + multiset{EntryOf(pages, i)}
  {
    assert Entries(pages[..i + 1]) == Entries(pages[..i]) + [EntryOf(pages, i)];
  }

  predicate Before(rid: RecordID, id: nat, k: nat) {
    rid.page < id || (rid.page == id && rid.slot < k)
  }

  /** The index built so far answers exactly for the records visited so far. */
  ghost predicate Upto(env: Env, a: Pair, x: Buckets, id: nat, k: nat)
    requires Index.Valid(x)
  {
    forall key, rid :: Index.Find(x, env.hash, key) == Some(rid) <==> a.find(key) == Some(rid) && Before(rid, id, k)
  }

  lemma {:induction false} PassDead(env: Env, a: Pair, x: Buckets, id: nat, k: nat)
    requires Consistent(env.keyOf, a) && Index.Valid(x) && Upto(env, a, x, id, k)
    requires a.rec(RecordID(id, k)) == None
    ensures Upto(env, a, x, id, k + 1)
  {
    forall key, rid
      ensures Index.Find(x, env.hash, key) == Some(rid) <==> a.find(key) == Some(rid) && Before(rid, id, k + 1)
    {
      assert a.find(key) == Some(rid) <==> HasKey(env.keyOf, a, rid, key);
    }
  }

  lemma {:induction false} PassLive(env: Env, a: Pair, x: Buckets, id: nat, k: nat, key: Key)
    requires Consistent(env.keyOf, a) && Index.Valid(x) && Upto(env, a, x, id, k)
    requires HasKey(env.keyOf, a, RecordID(id, k), key)
    ensures Index.Find(x, env.hash, key) == None
    ensures Index.Valid(Index.Create(x, env.hash, key, RecordID(id, k)))
    ensures Upto(env, a, Index.Create(x, env.hash, key, RecordID(id, k)), id, k + 1)
  {
    KeyUnseen(env, a, x, id, k, key);
    Index.CreateGrows(x, env.hash, key, RecordID(id, k));
    PassCreated(env, a, x, Index.Create(x, env.hash, key, RecordID(id, k)), id, k, key);
  }

  lemma {:induction false} KeyUnseen(env: Env, a: Pair, x: Buckets, id: nat, k: nat, key: Key)
    requires Consistent(env.keyOf, a) && Index.Valid(x) && Upto(env, a, x, id, k)
    requires HasKey(env.keyOf, a, RecordID(id, k), key)
    ensures Index.Find(x, env.hash, key) == None
  {
    assert a.find(key) == Some(RecordID(id, k));
    assert forall rid :: Index.Find(x, env.hash, key) == Some(rid) ==> a.find(key) == Some(rid) && Before(rid, id, k);
  }

  lemma {:induction false} PassCreated(env: Env, a: Pair, x: Buckets, y: Buckets, id: nat, k: nat, key: Key)
    requires Consistent(env.keyOf, a) && Index.Valid(x) && Upto(env, a, x, id, k) && Index.Valid(y)
    requires HasKey(env.keyOf, a, RecordID(id, k), key)
    requires forall other ::
      Index.Find(y, env.hash, other) == if other == key then Some(RecordID(id, k)) else Index.Find(x, env.hash, other)
    ensures Upto(env, a, y, id, k + 1)
  {
    forall other, rid
      ensures Index.Find(y, env.hash, other) == Some(rid) <==> a.find(other) == Some(rid) && Before(rid, id, k + 1)
    {
      assert a.find(other) == Some(rid) <==> HasKey(env.keyOf, a, rid, other);
    }
  }

  lemma {:induction false} StepDead(env: Env, p: page, tail: seq<byte>, id: nat, k: nat, x: Buckets)
    requires Index.Valid(x) && k < NumSlots(p) && TableFits(p) && SlotAt(p, k) == EMPTY
    ensures LoadSlots(env, p, tail, id, k, x) == LoadSlots(env, p, tail, id, k + 1, x)
  {
  }

  lemma {:induction false} StepLive(env: Env, p: page, tail: seq<byte>, id: nat, k: nat, x: Buckets, data: seq<byte>, key: Key)
    requires Index.Valid(x) && k < NumSlots(p) && TableFits(p) && SlotAt(p, k) != EMPTY
    requires ObjectAt(p, tail, SlotAt(p, k)) == Some(data) && env.keyOf(data) == Some(key)
    requires Index.Find(x, env.hash, key) == None && Index.Valid(Index.Create(x, env.hash, key, RecordID(id, k)))
    ensures LoadSlots(env, p, tail, id, k, x)
         == LoadSlots(env, p, tail, id, k + 1, Index.Create(x, env.hash, key, RecordID(id, k)))
  {
  }

  /** Slot `k` of page `id` holds what the pair says. */
  predicate Stored(a: Pair, p: page, tail: seq<byte>, id: nat, k: nat)
    requires TableFits(p) && k < NumSlots(p)
  {
    if SlotAt(p, k) == EMPTY then a.rec(RecordID(id, k)) == None
    else ObjectAt(p, tail, SlotAt(p, k)) == a.rec(RecordID(id, k)) != None
  }

  /** One slot of a page: its record, if any, is brought into the index. */
  lemma {:induction false} SlotStep(env: Env, a: Pair, p: page, tail: seq<byte>, id: nat, k: nat, x: Buckets) returns (y: Buckets)
    requires Consistent(env.keyOf, a) && TableFits(p) && k < NumSlots(p) && Stored(a, p, tail, id, k)
    requires Index.Valid(x) && Upto(env, a, x, id, k)
    ensures Index.Valid(y) && Upto(env, a, y, id, k + 1)
    ensures LoadSlots(env, p, tail, id, k, x) == LoadSlots(env, p, tail, id, k + 1, y)
  {
    if SlotAt(p, k) == EMPTY {
      y := x;
      PassDead(env, a, x, id, k);
      StepDead(env, p, tail, id, k, x);
    } else {
      var data := a.rec(RecordID(id, k)).value;
      var key := env.keyOf(data).value;
      y := Index.Create(x, env.hash, key, RecordID(id, k));
      PassLive(env, a, x, id, k, key);
      StepLive(env, p, tail, id, k, x, data, key);
    }
  }

  /** Loading one page of a consistent file succeeds and brings in exactly its live records. */
  lemma {:induction false} SlotsRebuild(env: Env, a: Pair, p: page, tail: seq<byte>, id: nat, k: nat, x: Buckets) returns (y: Buckets)
    requires Consistent(env.keyOf, a) && TableFits(p)
    requires forall j :: 0 <= j < NumSlots(p) ==> Stored(a, p, tail, id, j)
    requires k <= NumSlots(p) && Index.Valid(x) && Upto(env, a, x, id, k)
    ensures LoadSlots(env, p, tail, id, k, x) == Some(y) && Index.Valid(y) && Upto(env, a, y, id, NumSlots(p))
    decreases NumSlots(p) - k
  {
    if k == NumSlots(p) {
      y := x;
    } else {
      var z := SlotStep(env, a, p, tail, id, k, x);
      y := SlotsRebuild(env, a, p, tail, id, k + 1, z);
    }
  }

  lemma {:induction false} PageDone(env: Env, a: Pair, x: Buckets, id: nat, n: nat)
    requires Index.Valid(x) && Upto(env, a, x, id, n)
    requires Consistent(env.keyOf, a) && forall rid: RecordID :: rid.page == id && n <= rid.slot ==> a.rec(rid) == None
    ensures Upto(env, a, x, id + 1, 0)
  {
    forall key, rid
      ensures Index.Find(x, env.hash, key) == Some(rid) <==> a.find(key) == Some(rid) && Before(rid, id + 1, 0)
    {
      assert a.find(key) == Some(rid) <==> HasKey(env.keyOf, a, rid, key);
    }
  }

  /** The pair's records are those of the pages. */
  ghost predicate Covers(a: Pair, pages: seq<page>) {
    && (forall i :: 0 <= i < |pages| ==> TableFits(pages[i]))
    && (forall i, k :: 0 <= i < |pages| && 0 <= k < NumSlots(pages[i]) ==> Stored(a, pages[i], Behind(pages, i), i, k))
    && (forall rid: RecordID :: rid.page >= |pages| || rid.slot >= NumSlots(pages[rid.page]) ==> a.rec(rid) == None)
  }

  lemma {:induction false} PagesRebuild(env: Env, a: Pair, pages: seq<page>, i: nat, free: seq<FreeMap.Entry>, x: Buckets)
    requires Consistent(env.keyOf, a) && Covers(a, pages)
    requires i <= |pages| && FreeMap.Sorted(free) && Index.Valid(x) && Upto(env, a, x, i, 0)
    ensures LoadPages(env, pages, i, free, x).Some?
    ensures Upto(env, a, LoadPages(env, pages, i, free, x).value.index, |pages|, 0)
    decreases |pages| - i
  {
    if i < |pages| {
      var y := SlotsRebuild(env, a, pages[i], Behind(pages, i), i, 0, x);
      PageDone(env, a, y, i, NumSlots(pages[i]));
      PagesRebuild(env, a, pages, i + 1, FreeMap.Added(free, EntryOf(pages, i)), y);
    }
  }

  lemma {:induction false} FileCovers(env: Env, s: Store)
    requires Sane(s)
    ensures Covers(PairOf(env, s), s.file.pages)
  {
    var a := PairOf(env, s);
    forall i | 0 <= i < |s.file.pages|
      ensures TableFits(s.file.pages[i])
      ensures forall k :: 0 <= k < NumSlots(s.file.pages[i]) ==> Stored(a, s.file.pages[i], Behind(s.file.pages, i), i, k)
    {
      PageCovers(a, s.file.pages[i], Behind(s.file.pages, i), i) by {
        forall k | 0 <= k < NumSlots(s.file.pages[i])
          ensures a.rec(RecordID(i, k)) == Contents(s.file.pages[i])[k]
        {
          assert a.rec(RecordID(i, k)) == Record(s.file, RecordID(i, k));
        }
      }
    }
  }

  lemma {:induction false} PageCovers(a: Pair, p: page, tail: seq<byte>, id: nat)
    requires PageBytes.Valid(p) && forall k :: 0 <= k < NumSlots(p) ==> a.rec(RecordID(id, k)) == Contents(p)[k]
    ensures TableFits(p) && forall k :: 0 <= k < NumSlots(p) ==> Stored(a, p, tail, id, k)
  {
    forall k | 0 <= k < NumSlots(p)
      ensures Stored(a, p, tail, id, k)
    {
      FindReads(p, tail, k);
      assert a.rec(RecordID(id, k)) == Contents(p)[k];
    }
  }

  /** init on an existing file: map the pages, then load them. */
  function Open(env: Env, segments: nat, pages: seq<page>, room: nat, blank: page): (r: Option<Store>)
    requires forall j :: 0 <= j < |pages| ==> TableFits(pages[j])
    ensures r.Some? ==> Shaped(r.value)
  {
    match LoadPages(env, pages, 0, [], Index.Empty())
    case None => None
    case Some(l) => Some(Store(File(segments, pages, l.free, room, blank), l.index))
  }

  lemma {:induction false} LoadedIndex(env: Env, a: Pair, pages: seq<page>)
    requires Consistent(env.keyOf, a) && Covers(a, pages)
    ensures var l := LoadPages(env, pages, 0, [], Index.Empty());
      l.Some? && forall key :: Index.Find(l.value.index, env.hash, key) == a.find(key)
  {
    EmptyFinds(env, a);
    PagesRebuild(env, a, pages, 0, [], Index.Empty());
    var x := LoadPages(env, pages, 0, [], Index.Empty()).value.index;
    forall key
      ensures Index.Find(x, env.hash, key) == a.find(key)
    {
      SameFinds(env, a, x, pages, key);
    }
  }

  lemma {:induction false} LoadedFile(s: Store, l: Loaded)
    requires Sane(s) && FreeMap.Sorted(l.free) && multiset(l.free) == multiset(Entries(s.file.pages))
    ensures Dms.Valid(s.file.(free := l.free))
  {
  }

  /**
   Reopening the file of any reachable store meets no duplicate key, and gives an index that answers
   every key, and a multimap with the same entries, as the ones held before.
   */
  lemma {:induction false} ReopenRebuilds(env: Env, s: Store)
    requires Rtn.Valid(env, s)
    ensures forall j :: 0 <= j < |s.file.pages| ==> TableFits(s.file.pages[j])
    ensures var o := Open(env, s.file.segments, s.file.pages, s.file.room, s.file.blank);
      && o.Some? && Sane(o.value) && o.value.file.pages == s.file.pages
      && multiset(o.value.file.free) == multiset(s.file.free)
      && (forall key :: Index.Find(o.value.index, env.hash, key) == Index.Find(s.index, env.hash, key))
  {
    FileCovers(env, s);
    LoadedIndex(env, PairOf(env, s), s.file.pages);
    LoadedFile(s, LoadPages(env, s.file.pages, 0, [], Index.Empty()).value);
  }

  lemma {:induction false} EmptyFinds(env: Env, a: Pair)
    ensures Upto(env, a, Index.Empty(), 0, 0)
  {
  }

  lemma {:induction false} SameFinds(env: Env, a: Pair, x: Buckets, pages: seq<page>, key: Key)
    requires Consistent(env.keyOf, a) && Index.Valid(x) && Upto(env, a, x, |pages|, 0) && Covers(a, pages)
    ensures Index.Find(x, env.hash, key) == a.find(key)
  {
    match a.find(key) {
      case None =>
      case Some(rid) =>
        assert HasKey(env.keyOf, a, rid, key);
        assert Before(rid, |pages|, 0);
    }
  }
}
