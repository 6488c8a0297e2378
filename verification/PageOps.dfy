/** What dmsFile does to one page: compaction on demand, insert, remove. */
module PageOps {
  import opened Bytes
  import opened Page
  import opened PageBytes
  import opened Compaction

  /** A page as _extendSegment formats it: zeroed, then a header copied over its start. */
  function Formatted(): page {
    WithHeader(seq(PAGE_SIZE, _ => 0), START)
  }

  /** Magic, page size and flag, as bytes. */
  const START: seq<byte> := [0x50, 0x41, 0x47, 0x45, 0, 0, 0x40, 0, 0, 0, 0, 0]

  function WithHeader(p: page, start: seq<byte>): page
    requires |start| == 12
  {
    Counters(Put(p, 0, start), 0, HEADER, PAGE_SIZE, PAGE_SIZE - HEADER)
  }

  lemma {:induction false} WithHeaderRep(p: page, start: seq<byte>)
    requires |start| == 12 && start[..4] == MAGIC
    ensures Rep(WithHeader(p, start), FRESH)
  {
    assert Put(p, 0, start)[..4] == start[..4];
  }

  lemma {:induction false} FormattedValid()
    ensures Valid(Formatted()) && Decode(Formatted()) == FRESH
  {
    FreshWF();
    WithHeaderRep(seq(PAGE_SIZE, _ => 0), START);
    DecodeRep(Formatted(), FRESH);
  }

  /** _recoverSpace; a page with a slot that points out of it is left alone. */
  function Compact(p: page, hdr: nat): page {
    match Loop(Visit(p, PAGE_SIZE, false), 0, hdr)
    case None => p
    case Some(v) => SetField(v.p, 24, v.right)
  }

  lemma {:induction false} CompactCounters(p: page, hdr: nat)
    requires Valid(p) && hdr <= RECORD
    ensures var q := Compact(p, hdr);
      && q[..4] == MAGIC && NumSlots(q) == NumSlots(p) && SlotOffset(q) == SlotOffset(p) && FreeSpace(q) == FreeSpace(p)
      && FreeOffset(q) == PAGE_SIZE - Used(Decode(p).cells, NumSlots(p), hdr)
  {
    var e := CompactRuns(p, hdr);
  }

  lemma {:induction false} CompactRuns(p: page, hdr: nat) returns (e: Visit)
    requires Valid(p) && hdr <= RECORD
    ensures Loop(Visit(p, PAGE_SIZE, false), 0, hdr) == Some(e) && Underway(p, Decode(p), hdr, e, NumSlots(p))
  {
    LoopStarts(p, Decode(p), hdr);
    e := LoopCompacts(p, Decode(p), hdr);
  }

  /** With insert's stride: every slot keeps its record, and all free space becomes one gap. */
  lemma {:induction false} CompactKeeps(p: page)
    requires Valid(p)
    ensures var q := Compact(p, RECORD);
      && Valid(q) && Contents(q) == Contents(p) && Decode(q) == Packed(Decode(p))
      && FreeSpace(q) <= FreeOffset(q) - SlotOffset(q)
  {
    var v := CompactRuns(p, RECORD);
    PackedWF(Decode(p));
    PackedHeader(v.p, Decode(p), v.right);
    DecodeRep(Compact(p, RECORD), Packed(Decode(p)));
  }

  /**
   The stride of the code as written keeps a page sound, with its contents, exactly when the page
   holds no live record at all: the free offset it computes lies 8 bytes too high for each one.
   */
  lemma {:induction false} LiteralCompactIff(p: page)
    requires Valid(p)
    ensures Valid(Compact(p, 0)) && Contents(Compact(p, 0)) == Contents(p)
            <==> forall k :: 0 <= k < NumSlots(p) ==> Contents(p)[k] == None
    ensures (forall k :: 0 <= k < NumSlots(p) ==> Contents(p)[k] == None) ==> Compact(p, 0) == Compact(p, RECORD)
  {
    if k :| 0 <= k < NumSlots(p) && Contents(p)[k] != None {
      LiteralFails(p, k);
    } else {
      LiteralHarmless(p);
    }
  }

  lemma {:induction false} LiteralHarmless(p: page)
    requires Valid(p) && forall k :: 0 <= k < NumSlots(p) ==> Contents(p)[k] == None
    ensures Compact(p, 0) == Compact(p, RECORD)
    ensures Valid(Compact(p, 0)) && Contents(Compact(p, 0)) == Contents(p)
  {
    NothingLive(p);
    CompactKeeps(p);
  }

  lemma {:induction false} NothingLive(p: page)
    requires Valid(p) && forall k :: 0 <= k < NumSlots(p) ==> Contents(p)[k] == None
    ensures Compact(p, 0) == SetField(p, 24, PAGE_SIZE) == Compact(p, RECORD)
  {
    NoSlots(p);
    LoopDead(Visit(p, PAGE_SIZE, false), 0, 0);
    LoopDead(Visit(p, PAGE_SIZE, false), 0, RECORD);
  }

  lemma {:induction false} NoSlots(p: page)
    requires Valid(p) && forall k :: 0 <= k < NumSlots(p) ==> Contents(p)[k] == None
    ensures HEADER + 4 * NumSlots(p) <= PAGE_SIZE && forall k :: 0 <= k < NumSlots(p) ==> SlotAt(p, k) == EMPTY
  {
    forall k | 0 <= k < NumSlots(p)
      ensures SlotAt(p, k) == EMPTY
    {
      assert Contents(p)[k] == None;
      assert Holds(p, k, Decode(p).cells[k]);
    }
  }

  lemma {:induction false} LiteralFails(p: page, k: nat)
    requires Valid(p) && k < NumSlots(p) && Contents(p)[k] != None
    ensures !(Valid(Compact(p, 0)) && Contents(Compact(p, 0)) == Contents(p))
  {
    CompactCounters(p, 0);
    TooHigh(p, Compact(p, 0), k);
  }

  /** A free offset that counts no record headers does not leave room for the records. */
  lemma {:induction false} TooHigh(p: page, q: page, k: nat)
    requires Valid(p) && k < NumSlots(p) && Contents(p)[k] != None
    requires FreeOffset(q) == PAGE_SIZE - Used(Decode(p).cells, NumSlots(p), 0)
    ensures !(Valid(q) && Contents(q) == Contents(p))
  {
    if Valid(q) && Contents(q) == Contents(p) {
      assert View(Decode(p))[k] == Contents(p)[k];
      LiteralOverlaps(Decode(p), Decode(q), k);
    }
  }

  lemma {:induction false} UsedGap(cells: seq<Cell>, n: nat, k: nat)
    requires k < n <= |cells| && cells[k].At?
    ensures Used(cells, n, 0) + RECORD <= Used(cells, n, RECORD)
    decreases n
  {
    if k < n - 1 {
      UsedGap(cells, n - 1, k);
    } else {
      UsedMonotone(cells, n - 1);
    }
  }

  lemma {:induction false} UsedMonotone(cells: seq<Cell>, n: nat)
    requires n <= |cells|
    ensures Used(cells, n, 0) <= Used(cells, n, RECORD)
  {
    if n > 0 {
      UsedMonotone(cells, n - 1);
    }
  }

  lemma {:induction false} LiteralOverlaps(a: Layout, b: Layout, k: nat)
    requires WF(a) && WF(b) && View(a) == View(b) && k < |a.cells| && a.cells[k].At?
    ensures b.freeOffset < PAGE_SIZE - Used(a.cells, |a.cells|, 0)
  {
    forall j | 0 <= j < |a.cells|
      ensures a.cells[j].At? == b.cells[j].At? && (a.cells[j].At? ==> |a.cells[j].ext| == |b.cells[j].ext|)
    {
      assert View(a)[j] == View(b)[j];
    }
    UsedSame(a.cells, b.cells, |a.cells|, RECORD);
    UsedGap(a.cells, |a.cells|, k);
    Stacked(b, |b.cells|, b.freeOffset);
  }

  // ---------------------------------------------------------------- insert

  /** The guard of step 3 of insert. */
  predicate MustCompact(p: page, size: nat) {
    FreeSpace(p) > FreeOffset(p) - SlotOffset(p) && SlotOffset(p) + size + 12 > FreeOffset(p)
  }

  /** The page after step 3. */
  function Readied(p: page, size: nat, hdr: nat): page {
    if MustCompact(p, size) then Compact(p, hdr) else p
  }

  /** Whenever the counter covers a record, step 3 leaves a gap for it; it never loses anything. */
  lemma {:induction false} ReadiedKeeps(p: page, size: nat)
    requires Valid(p)
    ensures var q := Readied(p, size, RECORD);
      && Valid(q) && Contents(q) == Contents(p) && FreeSpace(q) == FreeSpace(p)
      && (size + 12 <= FreeSpace(p) ==> HasRoom(q, size))
  {
    CompactKeeps(p);
    CompactBounds(p, RECORD);
  }

  datatype PageResult = PageResult(p: page, ok: bool)

  /** Steps 2 to 5 of insert on the page chosen; ok is false where the code reports EDB_SYS. */
  function InsertInto(p: page, data: seq<byte>, hdr: nat): PageResult
    requires |data| < 0x8000_0000
  {
    if p[..4] != MAGIC then PageResult(p, false) else Placed(Readied(p, |data|, hdr), data)
  }

  function Placed(p: page, data: seq<byte>): PageResult
    requires |data| < 0x8000_0000
  {
    if HasRoom(p, |data|) then PageResult(Inserted(p, data), true) else PageResult(p, false)
  }

  lemma {:induction false} CompactBounds(p: page, hdr: nat)
    requires Valid(p) && hdr <= RECORD
    ensures FreeOffset(p) <= PAGE_SIZE && FreeOffset(Compact(p, hdr)) <= PAGE_SIZE
    ensures HEADER <= SlotOffset(p) && NumSlots(p) < PAGE_SIZE
  {
    UsedNat(Decode(p), NumSlots(p), hdr);
    CompactCounters(p, hdr);
  }

  lemma {:induction false} UsedNat(a: Layout, n: nat, cost: nat)
    requires InPlace(a) && n <= |a.cells|
    ensures 0 <= Used(a.cells, n, cost)
  {
    if n > 0 {
      UsedNat(a, n - 1, cost);
    }
  }

  lemma {:induction false} InsertedKeeps(p: page, data: seq<byte>)
    requires Valid(p) && IsObj(data) && |data| < 0x8000_0000 && HasRoom(p, |data|)
    ensures Valid(Inserted(p, data))
    ensures Contents(Inserted(p, data)) == Contents(p) + [Some(data)]
    ensures FreeSpace(Inserted(p, data)) == FreeSpace(p) - |data| - 12
  {
    var a := Decode(p);
    InsertedRep(p, a, data);
    AppendedWF(a, RecordBytes(data));
    DecodeRep(Inserted(p, data), Appended(a, RecordBytes(data)));
  }

  /**
   Insert into a page takes place exactly when the free-space counter covers the record, its header
   and its slot: the check of the gap never fails once the check of the counter has passed.
   */
  lemma {:induction false} InsertIntoKeeps(p: page, data: seq<byte>)
    requires Valid(p) && IsObj(data) && |data| < 0x8000_0000
    ensures var r := InsertInto(p, data, RECORD);
      && Valid(r.p) && r.ok == (|data| + 12 <= FreeSpace(p))
      && Contents(r.p) == (if r.ok then Contents(p) + [Some(data)] else Contents(p))
      && FreeSpace(r.p) == (if r.ok then FreeSpace(p) - |data| - 12 else FreeSpace(p))
  {
    ReadiedKeeps(p, |data|);
    PlacedKeeps(p, Readied(p, |data|, RECORD), data, InsertInto(p, data, RECORD));
  }

  lemma {:induction false} PlacedKeeps(p: page, q: page, data: seq<byte>, r: PageResult)
    requires Valid(p) && Valid(q) && IsObj(data) && |data| < 0x8000_0000
    requires Contents(q) == Contents(p) && FreeSpace(q) == FreeSpace(p)
    requires |data| + 12 <= FreeSpace(p) ==> HasRoom(q, |data|)
    requires r == Placed(q, data)
    ensures Valid(r.p) && r.ok == (|data| + 12 <= FreeSpace(p))
    ensures Contents(r.p) == if r.ok then Contents(p) + [Some(data)] else Contents(p)
    ensures FreeSpace(r.p) == if r.ok then FreeSpace(p) - |data| - 12 else FreeSpace(p)
  {
    if HasRoom(q, |data|) {
      InsertedKeeps(q, data);
    }
  }

  predicate HasLive(p: page)
    requires Valid(p)
  {
    exists k :: 0 <= k < NumSlots(p) && Contents(p)[k] != None
  }

  /** As written, an insert is sound exactly when it does not compact a page with live records. */
  lemma {:induction false} LiteralInsertIff(p: page, data: seq<byte>)
    requires Valid(p) && IsObj(data) && |data| < 0x8000_0000
    ensures Valid(InsertInto(p, data, RECORD).p)
    ensures Valid(InsertInto(p, data, 0).p) && Contents(InsertInto(p, data, 0).p) == Contents(InsertInto(p, data, RECORD).p)
            <==> !(MustCompact(p, |data|) && HasLive(p))
    ensures !(MustCompact(p, |data|) && HasLive(p)) ==> InsertInto(p, data, 0) == InsertInto(p, data, RECORD)
  {
    InsertIntoKeeps(p, data);
    if MustCompact(p, |data|) && HasLive(p) {
      LiteralInsertBreaks(p, data);
    } else {
      LiteralInsertSame(p, data);
    }
  }

  lemma {:induction false} LiteralInsertSame(p: page, data: seq<byte>)
    requires Valid(p) && |data| < 0x8000_0000 && !(MustCompact(p, |data|) && HasLive(p))
    ensures InsertInto(p, data, 0) == InsertInto(p, data, RECORD)
  {
    if MustCompact(p, |data|) {
      NothingLive(p);
    }
  }

  lemma {:induction false} LiteralInsertBreaks(p: page, data: seq<byte>)
    requires Valid(p) && IsObj(data) && |data| < 0x8000_0000 && MustCompact(p, |data|) && HasLive(p)
    requires Valid(InsertInto(p, data, RECORD).p)
    requires Contents(InsertInto(p, data, RECORD).p)
          == (if |data| + 12 <= FreeSpace(p) then Contents(p) + [Some(data)] else Contents(p))
    ensures !(Valid(InsertInto(p, data, 0).p) && Contents(InsertInto(p, data, 0).p) == Contents(InsertInto(p, data, RECORD).p))
  {
    var k :| 0 <= k < NumSlots(p) && Contents(p)[k] != None;
    CompactCounters(p, 0);
    BreaksAt(p, Compact(p, 0), data, k, InsertInto(p, data, 0), InsertInto(p, data, RECORD).p);
  }

  lemma {:induction false} BreaksAt(p: page, q: page, data: seq<byte>, k: nat, r: PageResult, right: page)
    requires Valid(p) && IsObj(data) && |data| < 0x8000_0000 && k < NumSlots(p) && Contents(p)[k] != None
    requires NumSlots(q) == NumSlots(p) && SlotOffset(q) == SlotOffset(p) && FreeSpace(q) == FreeSpace(p)
    requires FreeOffset(q) == PAGE_SIZE - Used(Decode(p).cells, NumSlots(p), 0)
    requires r == Placed(q, data) && Valid(right)
    requires Contents(right) == if |data| + 12 <= FreeSpace(p) then Contents(p) + [Some(data)] else Contents(p)
    ensures !(Valid(r.p) && Contents(r.p) == Contents(right))
  {
    LowRoom(Decode(p), NumSlots(p));
    UsedNat(Decode(p), NumSlots(p), 0);
    if HasRoom(q, |data|) {
      InsertedBytes(q, data, RecordBytes(data), FreeOffset(q) - RECORD - |data|);
      LiteralInsertFails(p, r.p, data, k);
    } else {
      TooHigh(p, q, k);
    }
  }

  /** The gap the written code believes in is never less than the real one. */
  lemma {:induction false} LowRoom(a: Layout, n: nat)
    requires WF(a) && n == |a.cells|
    ensures a.freeSpace <= PAGE_SIZE - Used(a.cells, n, 0) - HEADER - 4 * n
  {
  }

  lemma {:induction false} LiteralInsertFails(p: page, r: page, data: seq<byte>, k: nat)
    requires Valid(p) && k < NumSlots(p) && Contents(p)[k] != None
    requires FreeOffset(r) == PAGE_SIZE - Used(Decode(p).cells, NumSlots(p), 0) - RECORD - |data|
    ensures !(Valid(r) && Contents(r) == Contents(p) + [Some(data)])
  {
    if Valid(r) && Contents(r) == Contents(p) + [Some(data)] {
      assert View(Decode(p))[k] == Contents(p)[k];
      InsertedOver(Decode(p), Decode(r), data, k);
    }
  }

  lemma {:induction false} InsertedOver(a: Layout, b: Layout, data: seq<byte>, k: nat)
    requires WF(a) && WF(b) && k < |a.cells| && a.cells[k].At?
    requires b.freeOffset == PAGE_SIZE - Used(a.cells, |a.cells|, 0) - RECORD - |data|
    ensures View(b) != View(a) + [Some(data)]
  {
    if View(b) == View(a) + [Some(data)] {
      OneMore(a, b, data);
      UsedGap(a.cells, |a.cells|, k);
      Stacked(b, |b.cells|, b.freeOffset);
    }
  }

  lemma {:induction false} OneMore(a: Layout, b: Layout, data: seq<byte>)
    requires InPlace(a) && InPlace(b) && View(b) == View(a) + [Some(data)]
    ensures Used(b.cells, |b.cells|, RECORD) == Used(a.cells, |a.cells|, RECORD) + |data| + RECORD
  {
    forall j | 0 <= j < |a.cells|
      ensures a.cells[j].At? == b.cells[j].At? && (a.cells[j].At? ==> |a.cells[j].ext| == |b.cells[j].ext|)
    {
      assert View(a)[j] == View(b)[j];
    }
    UsedSame(a.cells, b.cells, |a.cells|, RECORD);
    assert View(b)[|a.cells|] == Some(data);
  }

  /** The bytes slot `k` points at, and their place, after an insert. */
  lemma {:induction false} InsertIntoCell(p: page, data: seq<byte>, k: nat)
    requires Valid(p) && IsObj(data) && |data| < 0x8000_0000 && k < NumSlots(p)
    ensures Valid(InsertInto(p, data, RECORD).p) && k < NumSlots(InsertInto(p, data, RECORD).p)
    ensures Decode(InsertInto(p, data, RECORD).p).cells[k]
         == if MustCompact(p, |data|) then PackedCell(Decode(p), k) else Decode(p).cells[k]
  {
    InsertIntoKeeps(p, data);
    CompactKeeps(p);
    var p1 := Readied(p, |data|, RECORD);
    if |data| + 12 <= FreeSpace(p) {
      ReadiedKeeps(p, |data|);
      InsertedCell(p1, data, k);
    }
  }

  lemma {:induction false} InsertedCell(p: page, data: seq<byte>, k: nat)
    requires Valid(p) && IsObj(data) && |data| < 0x8000_0000 && HasRoom(p, |data|) && k < NumSlots(p)
    ensures k < NumSlots(Inserted(p, data))
    ensures Valid(Inserted(p, data)) && Decode(Inserted(p, data)).cells[k] == Decode(p).cells[k]
  {
    var a := Decode(p);
    InsertedKeeps(p, data);
    InsertedRep(p, a, data);
    AppendedWF(a, RecordBytes(data));
    DecodeRep(Inserted(p, data), Appended(a, RecordBytes(data)));
  }

  /** Every slot of `p` points, on `q`, at the same place and the same bytes. */
  predicate SamePlaces(p: page, q: page) {
    forall k :: 0 <= k < |Decode(p).cells| ==> k < |Decode(q).cells| && Decode(q).cells[k] == Decode(p).cells[k]
  }

  /** Every live record is where compaction would put it. */
  predicate AlreadyPacked(a: Layout)
    requires WF(a)
  {
    forall k :: 0 <= k < |a.cells| ==> PackedCell(a, k) == a.cells[k]
  }

  /**
   Raw pointers into a page, such as the index as written keeps to record keys, survive an insert
   exactly when it does not compact the page or finds every live record packed already.
   */
  lemma {:induction false} PointersSurviveIff(p: page, data: seq<byte>)
    requires Valid(p) && IsObj(data) && |data| < 0x8000_0000
    ensures SamePlaces(p, InsertInto(p, data, RECORD).p) <==> !MustCompact(p, |data|) || AlreadyPacked(Decode(p))
  {
    var q := InsertInto(p, data, RECORD).p;
    forall k | 0 <= k < NumSlots(p)
      ensures k < |Decode(q).cells|
      ensures Decode(q).cells[k] == if MustCompact(p, |data|) then PackedCell(Decode(p), k) else Decode(p).cells[k]
    {
      InsertIntoCell(p, data, k);
    }
    PlacesIff(p, q, MustCompact(p, |data|));
  }

  lemma {:induction false} PlacesIff(p: page, q: page, compacted: bool)
    requires Valid(p) && forall k :: 0 <= k < NumSlots(p) ==>
      k < |Decode(q).cells| && Decode(q).cells[k] == if compacted then PackedCell(Decode(p), k) else Decode(p).cells[k]
    ensures SamePlaces(p, q) <==> !compacted || AlreadyPacked(Decode(p))
  {
  }

  // ---------------------------------------------------------------- remove

  /** Where slot `i` points, there is a record header whose size can be given back. */
  predicate Droppable(p: page, i: nat) {
    && HEADER + 4 * i + 4 <= PAGE_SIZE && SlotAt(p, i) != EMPTY
    && HEADER <= SlotAt(p, i) && SlotAt(p, i) + RECORD <= PAGE_SIZE
    && FreeSpace(p) + U32(p, SlotAt(p, i)) <= PAGE_SIZE
  }

  /**
   remove on the record's page. The bound on the slot is `>`, as the code has it: the word after the
   slot table passes for a slot. One that points out of the page is taken as refused.
   */
  function RemoveFrom(p: page, slot: nat): PageResult {
    if slot > NumSlots(p) || !Droppable(p, slot) then PageResult(p, false) else PageResult(Removed(p, slot), true)
  }

  lemma {:induction false} RemovedKeeps(p: page, slot: nat)
    requires Valid(p) && slot < NumSlots(p)
    ensures Droppable(p, slot) <==> Contents(p)[slot] != None
    ensures Droppable(p, slot) ==>
      && Valid(Removed(p, slot)) && Contents(Removed(p, slot)) == Contents(p)[slot := None]
      && FreeSpace(Removed(p, slot)) == FreeSpace(p) + |Contents(p)[slot].value|
  {
    var a := Decode(p);
    assert Holds(p, slot, a.cells[slot]);
    if a.cells[slot].At? {
      RemovedRep(p, a, slot);
      DroppedWF(a, slot);
      DecodeRep(Removed(p, slot), Dropped(a, slot));
    }
  }
}
