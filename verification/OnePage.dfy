/** A new file while its records fit one page, and a record refused although the other pages are empty. */
module OnePage {
  import opened Bytes
  import opened Page
  import opened PageBytes
  import opened PageOps
  import opened Dms
  import opened Refinement
  import opened Rtn
  import opened Runs
  import DmsOps
  import Index
  import FreeMap

  // ---------------------------------------------------------------- a file with one page in use

  /** All pages but one are fresh, and the disk is full. */
  predicate Lone(f: File, id: nat) {
    Dms.Valid(f) && f.room == 0 && id < |f.pages| && OthersFresh(f.pages, id)
  }

  predicate OthersFresh(pages: seq<page>, id: nat) {
    forall i: nat :: i < |pages| && i != id ==> pages[i] == Formatted()
  }

  lemma OthersStay(pages: seq<page>, id: nat, q: page)
    requires id < |pages| && OthersFresh(pages, id)
    ensures OthersFresh(pages[id := q], id)
  {
  }

  lemma {:induction false} Picks(f: File, id: nat, size: nat)
    requires Lone(f, id) && size < FreeSpace(f.pages[id]) < PAGE_SIZE - HEADER
    ensures FindPage(f.free, size) == Some(id)
  {
    EmptyPage();
    FindPageBestFit(f.pages, f.free, size);
  }

  lemma {:induction false} ReplacedLone(f: File, id: nat, q: page)
    requires Lone(f, id) && PageBytes.Valid(q)
    ensures Lone(DmsOps.Replaced(f, id, q), id) && DmsOps.Replaced(f, id, q).pages[id] == q
  {
    DmsOps.ReplacedValid(f, id, q);
    OthersStay(f.pages, id, q);
  }

  /** An insert goes to the page in use as long as that has room. */
  lemma {:induction false} GoesThere(f: File, id: nat, data: seq<byte>) returns (g: File)
    requires Lone(f, id) && IsObj(data) && |data| < MAX_OBJECT
    requires |data| + 12 <= FreeSpace(f.pages[id]) < PAGE_SIZE - HEADER
    ensures DmsOps.Insert(f, data, RECORD) == Stored(g, RecordID(id, NumSlots(f.pages[id])))
    ensures Lone(g, id) && Contents(g.pages[id]) == Contents(f.pages[id]) + [Some(data)] && |g.pages| == |f.pages|
    ensures FreeSpace(g.pages[id]) == FreeSpace(f.pages[id]) - |data| - 12
  {
    Picks(f, id, |data|);
    DmsOps.InsertUnfolds(f, data, RECORD);
    InsertIntoKeeps(f.pages[id], data);
    g := DmsOps.Replaced(f, id, InsertInto(f.pages[id], data, RECORD).p);
    ReplacedLone(f, id, InsertInto(f.pages[id], data, RECORD).p);
  }

  /** What fits a fresh page goes to one, of a file that has no other. */
  lemma {:induction false} GoesToFresh(f: File, id: nat, data: seq<byte>) returns (g: File)
    requires Lone(f, id) && f.pages[id] == Formatted() && FindPage(f.free, |data|) == Some(id)
    requires IsObj(data) && |data| + 12 <= PAGE_SIZE - HEADER
    ensures DmsOps.Insert(f, data, RECORD) == Stored(g, RecordID(id, 0)) && Lone(g, id) && |g.pages| == |f.pages|
    ensures Contents(g.pages[id]) == [Some(data)] && FreeSpace(g.pages[id]) == PAGE_SIZE - HEADER - |data| - 12
  {
    EmptyPage();
    DmsOps.InsertUnfolds(f, data, RECORD);
    InsertIntoKeeps(f.pages[id], data);
    var q := InsertInto(f.pages[id], data, RECORD).p;
    g := DmsOps.Replaced(f, id, q);
    ReplacedLone(f, id, q);
    assert Contents(q) == [] + [Some(data)];
  }

  lemma {:induction false} EndOf(m: seq<FreeMap.Entry>, space: nat)
    requires FreeMap.Sorted(m) && forall i :: 0 <= i < |m| ==> m[i].space <= space
    ensures FreeMap.UpperBound(m, space) == |m|
  {
    if m != [] {
      EndOf(m[1..], space);
    }
  }

  lemma GoesLast(m: seq<FreeMap.Entry>, e: FreeMap.Entry)
    requires FreeMap.Sorted(m) && forall i :: 0 <= i < |m| ==> m[i].space <= e.space
    ensures FreeMap.Added(m, e) == m + [e]
  {
    assert m[..|m|] == m && m[|m|..] == [];
    EndOf(m, e.space);
  }

  predicate NoneAbove(m: seq<FreeMap.Entry>, space: nat) {
    forall i :: 0 <= i < |m| ==> m[i].space <= space
  }

  lemma OneMoreEntry(m: seq<FreeMap.Entry>, e: FreeMap.Entry, more: seq<FreeMap.Entry>)
    ensures NoneAbove(m, e.space) ==> NoneAbove(m + [e], e.space)
    ensures (m + [e]) + more == m + ([e] + more)
  {
  }

  /** Entries of fresh pages go behind all that are there. */
  lemma {:induction false} AddPagesBehind(free: seq<FreeMap.Entry>, first: nat, end: nat)
    requires FreeMap.Sorted(free) && first <= end && NoneAbove(free, PAGE_SIZE - HEADER)
    ensures AddPages(free, first, end) == free + FreshEntries(first, end)
    decreases end - first
  {
    if first == end {
      assert free + [] == free;
    } else {
      var e := FreeMap.Entry(PAGE_SIZE - HEADER, first);
      GoesLast(free, e);
      OneMoreEntry(free, e, FreshEntries(first + 1, end));
      AddPagesBehind(free + [e], first + 1, end);
    }
  }

  lemma {:induction false} FirstFits(m: seq<FreeMap.Entry>, size: nat)
    requires FreeMap.Sorted(m) && m != [] && size < m[0].space
    ensures FindPage(m, size) == Some(m[0].page)
  {
    assert FreeMap.UpperBound(m, size) == 0;
  }

  lemma {:induction false} FirstAdded(free: seq<FreeMap.Entry>, first: nat, end: nat, m: seq<FreeMap.Entry>)
    requires free == [] && first < end && m == AddPages(free, first, end)
    ensures m != [] && m[0] == FreeMap.Entry(PAGE_SIZE - HEADER, first)
  {
    AddPagesBehind(free, first, end);
    assert free + FreshEntries(first, end) == FreshEntries(first, end);
  }

  /** The first page of all is the first one in the multimap. */
  lemma {:induction false} FirstOfAll(f: File, size: nat)
    requires f.free == [] && f.room > 0 && size < PAGE_SIZE - HEADER
    ensures FindPage(Extended(f).free, size) == Some(0)
  {
    FreeExtended(f);
    FirstAdded(f.free, |f.free|, |f.free| + PAGES_PER_SEGMENT, Extended(f).free);
    FirstFits(Extended(f).free, size);
  }

  lemma FreeExtended(f: File)
    requires FreeMap.Sorted(f.free) && f.room > 0
    ensures Extended(f).free == AddPages(f.free, |f.free|, |f.free| + PAGES_PER_SEGMENT) && FreeMap.Sorted(Extended(f).free)
  {
  }

  lemma {:induction false} FreshSpot(f: File, size: nat)
    requires f == New(1).file && size < PAGE_SIZE - HEADER
    ensures Dms.Valid(f) && Calm(f, size) && FindPage(f.free, size) == None
    ensures Lone(Extended(f), 0) && Extended(f).pages[0] == Formatted() && FindPage(Extended(f).free, size) == Some(0)
    ensures |Extended(f).pages| == 32
  {
    NewFile(1, Formatted());
    FindPageBestFit(f.pages, f.free, size);
    FirstOfAll(f, size);
    ExtendedKeeps(f);
    NewPages(f);
  }

  lemma {:induction false} NewPages(f: File)
    requires f == New(1).file && Dms.Valid(f)
    ensures forall i: nat :: i < |Extended(f).pages| ==> Extended(f).pages[i] == Formatted()
  {
    forall i: nat | i < |Extended(f).pages|
      ensures Extended(f).pages[i] == Formatted()
    {
      NewPage(f, i);
    }
  }

  /** The first insert of all extends the file and goes to its first page. */
  lemma {:induction false} GoesFirst(f: File, data: seq<byte>) returns (g: File)
    requires f == New(1).file && IsObj(data) && |data| + 12 <= PAGE_SIZE - HEADER
    ensures Dms.Valid(f) && Calm(f, |data|)
    ensures DmsOps.Insert(f, data, RECORD) == Stored(g, RecordID(0, 0)) && Lone(g, 0) && |g.pages| == 32
    ensures Contents(g.pages[0]) == [Some(data)] && FreeSpace(g.pages[0]) == PAGE_SIZE - HEADER - |data| - 12
  {
    FreshSpot(f, |data|);
    DmsOps.InsertUnfolds(f, data, RECORD);
    g := GoesToFresh(Extended(f), 0, data);
  }

  lemma {:induction false} EmptyPage()
    ensures PageBytes.Valid(Formatted()) && Contents(Formatted()) == [] && NumSlots(Formatted()) == 0
    ensures FreeSpace(Formatted()) == PAGE_SIZE - HEADER
  {
    FormattedValid();
    assert |Decode(Formatted()).cells| == 0;
    assert |Contents(Formatted())| == 0;
  }

  lemma {:induction false} StoreInsert(env: Env, s: Store, m: Table, rec: seq<byte>, key: Key, g: File, at: RecordID)
    requires Represents(env, s, m) && env.keyOf(rec) == Some(key) && key !in m
    requires IsObj(rec) && |rec| < MAX_OBJECT && DmsOps.Insert(s.file, rec, RECORD) == Stored(g, at)
    ensures var r := Step(env, s, Op.Insert(rec), RECORD);
      && r.1 == Done && r.0.file == g && Represents(env, r.0, m[key := rec])
      && forall k :: Index.Find(r.0.index, env.hash, k) == if k == key then Some(at) else Index.Find(s.index, env.hash, k)
  {
    var a := PairOf(env, s);
    assert Serves(a, m, key) && a.find(key) == Index.Find(s.index, env.hash, key);
    InsertGrows(env, s, rec, key, g, at);
    Index.CreateGrows(s.index, env.hash, key, at);
    StepConforms(env, s, m, Op.Insert(rec));
  }

  /**
   Best fit by the record's size alone, on a run: a first record of 4,194,244 bytes leaves 20 bytes
   on its page, and then a record of 14 bytes is refused although 31 pages are empty.
   */
  lemma {:induction false} RefusedWithEmptyPages(env: Env, a: seq<byte>, b: seq<byte>) returns (s: Store)
    requires IsObj(a) && |a| == 4194244 && IsObj(b) && |b| == 14
    requires env.keyOf(a).Some? && env.keyOf(b).Some? && env.keyOf(a) != env.keyOf(b)
    ensures Sane(New(1)) && Step(env, New(1), Op.Insert(a), RECORD) == (s, Done) && Sane(s)
    ensures |s.file.pages| == 32 && forall i: nat :: 0 < i < 32 ==> FreeSpace(s.file.pages[i]) == PAGE_SIZE - HEADER
    ensures Step(env, s, Op.Insert(b), RECORD).1 == SysError
  {
    NewHolds(env, 1);
    EmptyPage();
    var f := GoesFirst(New(1).file, a);
    StoreInsert(env, New(1), map[], a, env.keyOf(a).value, f, RecordID(0, 0));
    s := Step(env, New(1), Op.Insert(a), RECORD).0;
    NotIndexed(env, s, map[][env.keyOf(a).value := a], env.keyOf(b).value);
    Refuses(env, s, b);
  }

  lemma {:induction false} Refuses(env: Env, s: Store, b: seq<byte>)
    requires Sane(s) && Lone(s.file, 0) && |s.file.pages| == 32 && FreeSpace(s.file.pages[0]) == 20
    requires IsObj(b) && |b| == 14 && env.keyOf(b).Some? && Index.Find(s.index, env.hash, env.keyOf(b).value) == None
    ensures Step(env, s, Op.Insert(b), RECORD).1 == SysError
  {
    EmptyPage();
    DmsOps.RefusedDespiteRoom(s.file, b, 0, 1);
  }

  lemma {:induction false} NotIndexed(env: Env, s: Store, m: Table, key: Key)
    requires Represents(env, s, m) && key !in m
    ensures Index.Find(s.index, env.hash, key) == None
  {
    var a := PairOf(env, s);
    assert Serves(a, m, key);
    assert a.find(key) == Index.Find(s.index, env.hash, key);
  }
}
