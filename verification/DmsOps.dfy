/** insert, remove and find of the storage file. */
module DmsOps {
  import opened Bytes
  import opened Page
  import opened PageBytes
  import opened PageOps
  import opened FreeMap
  import opened Dms

  /** The file with page `id` rewritten and its entry moved by _updateFreeSpace. */
  function Replaced(f: File, id: nat, q: page): File
    requires Sorted(f.free) && id < |f.pages|
  {
    f.(pages := f.pages[id := q],
       free := Added(Erased(f.free, EntryOf(f.pages, id)), Entry(FreeSpace(q), id)))
  }

  lemma {:induction false} ReplacedCatalogue(pages: seq<page>, free: seq<Entry>, id: nat, q: page)
    requires Catalogued(pages, free) && id < |pages|
    ensures Catalogued(pages[id := q], Added(Erased(free, EntryOf(pages, id)), Entry(FreeSpace(q), id)))
    ensures FreeSpace(q) == FreeSpace(pages[id]) ==> Catalogued(pages[id := q], free)
  {
    assert Entries(pages[id := q]) == Entries(pages)[id := Entry(FreeSpace(q), id)];
    assert EntryOf(pages, id) in multiset(Entries(pages));
  }

  lemma {:induction false} ReplacedPages(f: File, id: nat, q: page)
    requires Dms.Valid(f) && id < |f.pages| && PageBytes.Valid(q)
    ensures forall p :: p in f.pages[id := q] ==> PageBytes.Valid(p)
  {
  }

  lemma {:induction false} ReplacedValid(f: File, id: nat, q: page)
    requires Dms.Valid(f) && id < |f.pages| && PageBytes.Valid(q)
    ensures Dms.Valid(Replaced(f, id, q))
  {
    ReplacedPages(f, id, q);
    ReplacedCatalogue(f.pages, f.free, id, q);
  }

  lemma {:induction false} RewrittenValid(f: File, id: nat, q: page)
    requires Dms.Valid(f) && id < |f.pages| && PageBytes.Valid(q) && FreeSpace(q) == FreeSpace(f.pages[id])
    ensures Dms.Valid(f.(pages := f.pages[id := q]))
  {
    ReplacedPages(f, id, q);
    ReplacedCatalogue(f.pages, f.free, id, q);
  }

  /** Rewriting a page changes the records of that page only. */
  lemma {:induction false} ReplacedRecord(f: File, g: File, id: nat, q: page, rid: RecordID)
    requires id < |f.pages| && g.pages == f.pages[id := q]
    ensures Record(g, rid) == if rid.page == id then InSlot(q, rid.slot) else Record(f, rid)
  {
  }

  // ---------------------------------------------------------------- insert

  /** dmsFile::insert, with its retry loop. */
  function Insert(f: File, data: seq<byte>, hdr: nat): (r: Dms.Inserted)
    requires Sorted(f.free) && |data| < MAX_OBJECT
    ensures Sorted(r.file.free)
    decreases f.room
  {
    match FindPage(f.free, |data|)
    case None => if f.room == 0 then Failed(f) else Insert(Extended(f), data, hdr)
    case Some(id) => if id >= |f.pages| then Failed(f) else Outcome(f, id, InsertInto(f.pages[id], data, hdr))
  }

  /** One turn of the retry loop. */
  lemma {:induction false} InsertUnfolds(f: File, data: seq<byte>, hdr: nat)
    requires Dms.Valid(f) && |data| < MAX_OBJECT
    ensures match FindPage(f.free, |data|)
      case None =>
        if f.room == 0 then Insert(f, data, hdr) == Failed(f)
        else Dms.Valid(Extended(f)) && Insert(f, data, hdr) == Insert(Extended(f), data, hdr)
      case Some(id) =>
        && id < |f.pages| && PageBytes.Valid(f.pages[id])
        && Insert(f, data, hdr) == Outcome(f, id, InsertInto(f.pages[id], data, hdr))
  {
    FindPageBestFit(f.pages, f.free, |data|);
    if FindPage(f.free, |data|) == None && f.room > 0 {
      ExtendedValid(f);
    }
  }

  /** What every caller of insert relies on. */
  ghost predicate InsertSpec(f: File, data: seq<byte>, r: Dms.Inserted)
    requires Dms.Valid(f)
  {
    && Dms.Valid(r.file)
    && (r.Stored? ==> Record(f, r.rid) == None && Record(r.file, r.rid) == Some(data))
    && forall rid :: (r.Stored? ==> rid != r.rid) ==> Record(r.file, rid) == Record(f, rid)
  }

  /** The outcome of insert once the page is chosen. */
  function Outcome(f: File, id: nat, r: PageResult): Dms.Inserted
    requires Sorted(f.free) && id < |f.pages|
  {
    if r.ok then Stored(Replaced(f, id, r.p), RecordID(id, NumSlots(f.pages[id])))
    else Failed(f.(pages := f.pages[id := r.p]))
  }

  /** A page result that holds one record more, or the same ones. */
  predicate Took(p: page, data: seq<byte>, r: PageResult)
    requires PageBytes.Valid(p)
  {
    && PageBytes.Valid(r.p) && Contents(r.p) == (if r.ok then Contents(p) + [Some(data)] else Contents(p))
    && (!r.ok ==> FreeSpace(r.p) == FreeSpace(p))
  }

  lemma {:induction false} OutcomeValid(f: File, data: seq<byte>, id: nat, r: PageResult)
    requires Dms.Valid(f) && id < |f.pages| && Took(f.pages[id], data, r)
    ensures Dms.Valid(Outcome(f, id, r).file)
  {
    if r.ok {
      ReplacedValid(f, id, r.p);
    } else {
      RewrittenValid(f, id, r.p);
    }
  }

  lemma ContentsLength(p: page)
    requires PageBytes.Valid(p)
    ensures |Contents(p)| == NumSlots(p)
  {
  }

  lemma {:induction false} TookSlot(p: page, data: seq<byte>, r: PageResult, slot: nat)
    requires PageBytes.Valid(p) && Took(p, data, r)
    ensures InSlot(r.p, slot) == if r.ok && slot == NumSlots(p) then Some(data) else InSlot(p, slot)
  {
    ContentsLength(p);
    ContentsLength(r.p);
  }

  lemma {:induction false} OutcomeRecord(f: File, data: seq<byte>, id: nat, r: PageResult, g: File, rid: RecordID)
    requires id < |f.pages| && PageBytes.Valid(f.pages[id]) && Took(f.pages[id], data, r) && g.pages == f.pages[id := r.p]
    ensures Record(g, rid) == if r.ok && rid == RecordID(id, NumSlots(f.pages[id])) then Some(data) else Record(f, rid)
  {
    ReplacedRecord(f, g, id, r.p, rid);
    TookSlot(f.pages[id], data, r, rid.slot);
  }

  lemma {:induction false} OutcomeSpec(f: File, data: seq<byte>, id: nat, r: PageResult)
    requires Dms.Valid(f) && id < |f.pages| && Took(f.pages[id], data, r)
    ensures InsertSpec(f, data, Outcome(f, id, r))
  {
    var o := Outcome(f, id, r);
    OutcomeValid(f, data, id, r);
    forall rid: RecordID
      ensures o.Stored? && rid == o.rid ==> Record(f, rid) == None && Record(o.file, rid) == Some(data)
      ensures (o.Stored? ==> rid != o.rid) ==> Record(o.file, rid) == Record(f, rid)
    {
      OutcomeRecord(f, data, id, r, o.file, rid);
    }
  }

  lemma {:induction false} InsertIntoPage(f: File, data: seq<byte>, id: nat)
    requires Dms.Valid(f) && IsObj(data) && |data| < MAX_OBJECT && id < |f.pages|
    ensures InsertSpec(f, data, Outcome(f, id, InsertInto(f.pages[id], data, RECORD)))
  {
    InsertIntoKeeps(f.pages[id], data);
    OutcomeSpec(f, data, id, InsertInto(f.pages[id], data, RECORD));
  }

  /** Insert adds exactly the record it reports, under an id not in use, or changes no record. */
  lemma {:induction false} InsertKeeps(f: File, data: seq<byte>)
    requires Dms.Valid(f) && IsObj(data) && |data| < MAX_OBJECT
    ensures InsertSpec(f, data, Insert(f, data, RECORD))
    decreases f.room
  {
    FindPageBestFit(f.pages, f.free, |data|);
    match FindPage(f.free, |data|)
    case None =>
      if f.room > 0 {
        ExtendedKeeps(f);
        InsertKeeps(Extended(f), data);
      }
    case Some(id) =>
      InsertIntoPage(f, data, id);
  }

  /** What becomes of an insert of `size` bytes, in terms of the counters of the pages. */
  predicate Fate(f: File, size: nat, r: Dms.Inserted)
    requires Sorted(f.free)
  {
    var fit := FindPage(f.free, size);
    if size < PAGE_SIZE - HEADER then
      && r.file.segments == f.segments + (if fit == None && f.room > 0 then 1 else 0)
      && (r.Stored? <==> match fit
            case Some(id) => id < |f.pages| && size + 12 <= FreeSpace(f.pages[id])
            case None => f.room > 0 && size + 12 <= PAGE_SIZE - HEADER)
    else
      r == Failed(r.file) && r.file.segments == f.segments + f.room && r.file.room == 0
  }

  lemma {:induction false} FateOfFit(f: File, data: seq<byte>, id: nat)
    requires Dms.Valid(f) && IsObj(data) && |data| < MAX_OBJECT && FindPage(f.free, |data|) == Some(id)
    requires id < |f.pages| && |data| < FreeSpace(f.pages[id])
    ensures Fate(f, |data|, Outcome(f, id, InsertInto(f.pages[id], data, RECORD)))
  {
    InsertIntoKeeps(f.pages[id], data);
    UsedNat(Decode(f.pages[id]), NumSlots(f.pages[id]), 0);
  }

  lemma {:induction false} FateOfExtension(f: File, size: nat, r: Dms.Inserted)
    requires Dms.Valid(f) && f.room > 0 && FindPage(f.free, size) == None
    requires Sorted(Extended(f).free) && Fate(Extended(f), size, r)
    ensures Fate(f, size, r)
  {
    if size < PAGE_SIZE - HEADER {
      FreshFits(f, size);
    }
  }

  /** After an extension for want of a page, the best fit is a fresh page. */
  lemma {:induction false} FreshFits(f: File, size: nat)
    requires Dms.Valid(f) && f.room > 0 && FindPage(f.free, size) == None && size < PAGE_SIZE - HEADER
    ensures FindPage(Extended(f).free, size).Some?
    ensures var id := FindPage(Extended(f).free, size).value;
      id < |Extended(f).pages| && FreeSpace(Extended(f).pages[id]) == PAGE_SIZE - HEADER
  {
    ExtendedKeeps(f);
    FindPageBestFit(f.pages, f.free, size);
    FreshChosen(f.pages, Extended(f).pages, Extended(f).free, size);
  }

  lemma {:induction false} FreshChosen(pages: seq<page>, more: seq<page>, free: seq<Entry>, size: nat)
    requires Catalogued(more, free) && |pages| < |more| && size < PAGE_SIZE - HEADER
    requires forall i :: 0 <= i < |pages| ==> more[i] == pages[i] && FreeSpace(pages[i]) <= size
    requires forall i :: |pages| <= i < |more| ==> FreeSpace(more[i]) == PAGE_SIZE - HEADER
    ensures FindPage(free, size).Some?
    ensures FindPage(free, size).value < |more| && FreeSpace(more[FindPage(free, size).value]) == PAGE_SIZE - HEADER
  {
    FindPageBestFit(more, free, size);
    assert FreeSpace(more[|pages|]) == PAGE_SIZE - HEADER;
  }

  /**
   For a record smaller than a fresh page's free space the retry loop extends the file at most once,
   and insert succeeds exactly when the best-fitting page (a fresh one if there is none) also has
   room for the 12 bytes of record header and slot. For any larger record it takes up all the disk
   and fails.
   */
  lemma {:induction false} InsertFate(f: File, data: seq<byte>)
    requires Dms.Valid(f) && IsObj(data) && |data| < MAX_OBJECT
    ensures Fate(f, |data|, Insert(f, data, RECORD))
    decreases f.room
  {
    InsertUnfolds(f, data, RECORD);
    if FindPage(f.free, |data|) == None && f.room > 0 {
      InsertFate(Extended(f), data);
    }
    FateOf(f, data, Insert(f, data, RECORD));
  }

  lemma {:induction false} FateOf(f: File, data: seq<byte>, r: Dms.Inserted)
    requires Dms.Valid(f) && IsObj(data) && |data| < MAX_OBJECT
    requires match FindPage(f.free, |data|)
      case None => if f.room == 0 then r == Failed(f) else Sorted(Extended(f).free) && Fate(Extended(f), |data|, r)
      case Some(id) => id < |f.pages| && r == Outcome(f, id, InsertInto(f.pages[id], data, RECORD))
    ensures Fate(f, |data|, r)
  {
    match FindPage(f.free, |data|)
    case None =>
      if f.room > 0 {
        FateOfExtension(f, |data|, r);
      }
    case Some(id) =>
      FindPageBestFit(f.pages, f.free, |data|);
      FateOfFit(f, data, id);
  }

  /**
   Best fit by the record's size alone can refuse a record that fits: it does so whenever some page
   has more free than the record's size but less than 12 bytes more, whatever room other pages have.
   */
  lemma {:induction false} RefusedDespiteRoom(f: File, data: seq<byte>, tight: nat, roomy: nat)
    requires Dms.Valid(f) && IsObj(data) && |data| < MAX_OBJECT && tight < |f.pages| && roomy < |f.pages|
    requires |data| < FreeSpace(f.pages[tight]) < |data| + 12 <= FreeSpace(f.pages[roomy])
    ensures Insert(f, data, RECORD).Failed?
    ensures InsertInto(f.pages[roomy], data, RECORD).ok
  {
    FindPageBestFit(f.pages, f.free, |data|);
    InsertFate(f, data);
    assert PageBytes.Valid(f.pages[roomy]);
    InsertIntoKeeps(f.pages[roomy], data);
    assert PageBytes.Valid(f.pages[tight]);
    UsedNat(Decode(f.pages[tight]), NumSlots(f.pages[tight]), 0);
  }

  /** A page has the size to spare but not the 12 bytes more. */
  predicate Tight(f: File, size: nat) {
    exists i :: 0 <= i < |f.pages| && size < FreeSpace(f.pages[i]) < size + 12
  }

  /** As long as some page has more than the size free, insert is refused exactly when some page is tight. */
  lemma {:induction false} RefusedIff(f: File, data: seq<byte>)
    requires Dms.Valid(f) && IsObj(data) && |data| < MAX_OBJECT
    requires exists i :: 0 <= i < |f.pages| && |data| < FreeSpace(f.pages[i])
    ensures Insert(f, data, RECORD).Failed? <==> Tight(f, |data|)
  {
    FindPageBestFit(f.pages, f.free, |data|);
    var id := FindPage(f.free, |data|).value;
    assert PageBytes.Valid(f.pages[id]);
    UsedNat(Decode(f.pages[id]), NumSlots(f.pages[id]), 0);
    InsertFate(f, data);
  }

  /**
   Insert finds a place: if some page has more than the size free, no page has the size but not the 12 bytes
   more; if none has, the disk has room for a segment, and the record fits a fresh page.
   */
  predicate HasPlace(f: File, size: nat) {
    if exists i :: 0 <= i < |f.pages| && size < FreeSpace(f.pages[i]) then !Tight(f, size)
    else f.room > 0 && size + 12 <= 4194276
  }

  /** And exactly then it succeeds. */
  lemma {:induction false} StoredIff(f: File, data: seq<byte>)
    requires Dms.Valid(f) && IsObj(data) && |data| < MAX_OBJECT
    ensures Insert(f, data, RECORD).Stored? <==> HasPlace(f, |data|)
  {
    if exists i :: 0 <= i < |f.pages| && |data| < FreeSpace(f.pages[i]) {
      RefusedIff(f, data);
    } else {
      FindPageBestFit(f.pages, f.free, |data|);
      InsertFate(f, data);
    }
  }

  // ---------------------------------------------------------------- remove and find

  /** dmsFile::remove. */
  function Remove(f: File, rid: RecordID): (File, bool)
    requires Sorted(f.free)
  {
    if rid.page >= |f.pages| then (f, false) else Withdrawn(f, rid.page, RemoveFrom(f.pages[rid.page], rid.slot))
  }

  /** The outcome of remove on the record's page. */
  function Withdrawn(f: File, id: nat, r: PageResult): (File, bool)
    requires Sorted(f.free) && id < |f.pages|
  {
    if r.ok then (Replaced(f, id, r.p), true) else (f, false)
  }

  lemma {:induction false} DroppedRecord(f: File, rid: RecordID, q: page, g: File, other: RecordID)
    requires rid.page < |f.pages| && PageBytes.Valid(f.pages[rid.page]) && rid.slot < NumSlots(f.pages[rid.page])
    requires PageBytes.Valid(q) && Contents(q) == Contents(f.pages[rid.page])[rid.slot := None]
    requires g.pages == f.pages[rid.page := q]
    ensures Record(g, other) == if other == rid then None else Record(f, other)
  {
    ReplacedRecord(f, g, rid.page, q, other);
    DroppedSlot(f.pages[rid.page], q, rid.slot, other.slot);
  }

  lemma {:induction false} DroppedSlot(p: page, q: page, slot: nat, other: nat)
    requires PageBytes.Valid(p) && slot < NumSlots(p) && PageBytes.Valid(q) && Contents(q) == Contents(p)[slot := None]
    ensures InSlot(q, other) == if other == slot then None else InSlot(p, other)
  {
    ContentsLength(p);
    ContentsLength(q);
  }

  /** Removing a live record drops that record and no other. */
  lemma {:induction false} RemoveKeeps(f: File, rid: RecordID)
    requires Dms.Valid(f) && Record(f, rid).Some?
    ensures Remove(f, rid).1 && Dms.Valid(Remove(f, rid).0)
    ensures forall other :: Record(Remove(f, rid).0, other) == if other == rid then None else Record(f, other)
  {
    RemovedKeeps(f.pages[rid.page], rid.slot);
    var q := Removed(f.pages[rid.page], rid.slot);
    ReplacedValid(f, rid.page, q);
    forall other: RecordID
      ensures Record(Replaced(f, rid.page, q), other) == if other == rid then None else Record(f, other)
    {
      DroppedRecord(f, rid, q, Replaced(f, rid.page, q), other);
    }
  }

  /** dmsFile::find. */
  function Find(f: File, rid: RecordID): Lookup {
    if rid.page >= |f.pages| then Refused else FindRecord(f.pages[rid.page], Behind(f.pages, rid.page), rid.slot)
  }

  lemma {:induction false} FindKeeps(f: File, rid: RecordID)
    requires Dms.Valid(f) && Record(f, rid).Some?
    ensures Find(f, rid) == Found(Record(f, rid).value)
  {
    FindReads(f.pages[rid.page], Behind(f.pages, rid.page), rid.slot);
  }
}
