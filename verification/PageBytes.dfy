/** The bytes of a page: reading a layout out of them, and the byte writes of insert and remove. */
module PageBytes {
  import opened Bytes
  import opened Page

  const EMPTY: u32 := 0xFFFF_FFFF
  const DROPPED: u32 := 1
  const MAGIC: seq<byte> := [0x50, 0x41, 0x47, 0x45]

  type page = p: seq<byte> | |p| == PAGE_SIZE witness seq(PAGE_SIZE, _ => 0)

  function NumSlots(p: page): u32 { U32(p, 12) }
  function SlotOffset(p: page): u32 { U32(p, 16) }
  function FreeSpace(p: page): u32 { U32(p, 20) }
  function FreeOffset(p: page): u32 { U32(p, 24) }

  function SlotAt(p: page, i: nat): u32
    requires HEADER + 4 * i + 4 <= PAGE_SIZE
  {
    U32(p, HEADER + 4 * i)
  }

  /** Slot `i` of the page is in state `c`. */
  predicate Holds(p: page, i: nat, c: Cell)
    requires HEADER + 4 * i + 4 <= PAGE_SIZE
  {
    match c
    case Dead => SlotAt(p, i) == EMPTY
    case At(off, ext) => SlotAt(p, i) == off && off + |ext| <= PAGE_SIZE && p[off..off + |ext|] == ext
  }

  /** The bytes of `p` are those of a page laid out as `a`. */
  predicate Rep(p: page, a: Layout) {
    && p[..4] == MAGIC
    && NumSlots(p) == |a.cells|
    && SlotOffset(p) == HEADER + 4 * |a.cells| <= PAGE_SIZE
    && FreeSpace(p) == a.freeSpace
    && FreeOffset(p) == a.freeOffset
    && forall k :: 0 <= k < |a.cells| ==> Holds(p, k, a.cells[k])
  }

  function CellAt(p: page, i: nat): Cell
    requires HEADER + 4 * i + 4 <= PAGE_SIZE
  {
    var off := SlotAt(p, i);
    if off + RECORD <= PAGE_SIZE && off + RECORD + U32(p, off) <= PAGE_SIZE then
      At(off, p[off..off + RECORD + U32(p, off)])
    else Dead
  }

  /** The layout read back from the bytes. */
  function Decode(p: page): (a: Layout)
    ensures |a.cells| == if HEADER + 4 * NumSlots(p) <= PAGE_SIZE then NumSlots(p) else 0
    ensures forall k :: 0 <= k < |a.cells| ==> a.cells[k] == CellAt(p, k)
  {
    var n: nat := if HEADER + 4 * NumSlots(p) <= PAGE_SIZE then NumSlots(p) else 0;
    Layout(seq(n, i requires 0 <= i < n => CellAt(p, i)), FreeSpace(p), FreeOffset(p))
  }

  /** The invariant of a page, on its bytes. */
  predicate Valid(p: page) {
    Rep(p, Decode(p)) && WF(Decode(p))
  }

  function Contents(p: page): seq<Option<seq<byte>>>
    requires Valid(p)
  {
    View(Decode(p))
  }

  lemma {:induction false} CellRead(p: page, k: nat, c: Cell)
    requires HEADER + 4 * k + 4 <= PAGE_SIZE && Holds(p, k, c) && (c.At? ==> Sound(c.ext))
    ensures CellAt(p, k) == c
  {
    if c.At? {
      SameWord(p, c.off, c.ext, 0) by { assert p[c.off..c.off + |c.ext|] == c.ext; }
      assert SlotAt(p, k) == c.off && c.off + RECORD + U32(p, c.off) == c.off + |c.ext|;
    }
  }

  /** A layout of sound records is determined by the bytes. */
  lemma {:induction false} DecodeRep(p: page, a: Layout)
    requires Rep(p, a) && InPlace(a)
    ensures Decode(p) == a
  {
    forall k | 0 <= k < |a.cells|
      ensures CellAt(p, k) == a.cells[k]
    {
      CellRead(p, k, a.cells[k]);
    }
  }

  // ---------------------------------------------------------------- frames

  lemma {:induction false} HoldsKept(p: page, q: page, i: nat, c: Cell)
    requires HEADER + 4 * i + 4 <= PAGE_SIZE && Holds(p, i, c)
    requires forall k :: HEADER + 4 * i <= k < HEADER + 4 * i + 4 ==> p[k] == q[k]
    requires c.At? ==> forall k :: c.off <= k < c.off + |c.ext| ==> p[k] == q[k]
    ensures Holds(q, i, c)
  {
    SameWord(p, HEADER + 4 * i, q, HEADER + 4 * i);
    if c.At? {
      assert p[c.off..c.off + |c.ext|] == q[c.off..c.off + |c.ext|];
    }
  }

  predicate SameHeader(p: page, q: page) {
    && p[..4] == q[..4] && NumSlots(p) == NumSlots(q) && SlotOffset(p) == SlotOffset(q)
    && FreeSpace(p) == FreeSpace(q) && FreeOffset(p) == FreeOffset(q)
  }

  /** Copy bytes into the page past its header. */
  function PutBody(p: page, off: nat, b: seq<byte>): (q: page)
    requires HEADER <= off && off + |b| <= PAGE_SIZE
    ensures SameHeader(p, q)
    ensures forall k :: 0 <= k < PAGE_SIZE ==> q[k] == if off <= k < off + |b| then b[k - off] else p[k]
  {
    var q := Put(p, off, b);
    SameWord(p, 12, q, 12); SameWord(p, 16, q, 16); SameWord(p, 20, q, 20); SameWord(p, 24, q, 24);
    q
  }

  /** Store an unsigned int past the header. */
  function PutWord(p: page, off: nat, v: u32): (q: page)
    requires HEADER <= off && off + 4 <= PAGE_SIZE
    ensures SameHeader(p, q) && U32(q, off) == v
    ensures forall k :: 0 <= k < PAGE_SIZE && !(off <= k < off + 4) ==> q[k] == p[k]
  {
    SameWord(PutBody(p, off, LE32(v)), off, LE32(v), 0);
    PutBody(p, off, LE32(v))
  }

  /** Store one of the four counters of the header. */
  function SetField(p: page, at: nat, v: u32): (q: page)
    requires at in {12, 16, 20, 24}
    ensures q[..4] == p[..4] && U32(q, at) == v
    ensures forall w :: w in {12, 16, 20, 24} && w != at ==> U32(q, w) == U32(p, w)
    ensures forall k :: HEADER <= k < PAGE_SIZE ==> q[k] == p[k]
  {
    var q := Put(p, at, LE32(v));
    ReadBack(p, at, v);
    assert forall w :: w in {12, 16, 20, 24} && w != at ==> U32(q, w) == U32(p, w) by {
      forall w | w in {12, 16, 20, 24} && w != at ensures U32(q, w) == U32(p, w) { SameWord(p, w, q, w); }
    }
    q
  }

  // ---------------------------------------------------------------- insert

  /** The record as insert lays it down: size, flag, then the object's bytes. */
  function RecordBytes(data: seq<byte>): (ext: seq<byte>)
    requires |data| < 0x8000_0000
    ensures |ext| == RECORD + |data| && ext[RECORD..] == data
    ensures IsObj(data) ==> Sound(ext)
  {
    var ext := LE32(|data|) + LE32(0) + data;
    SameWord(ext, 0, LE32(|data|), 0);
    SameWord(ext, 4, LE32(0), 0);
    ext
  }

  /** Both checks of insert pass, on counters that lie in the page. */
  predicate HasRoom(p: page, size: nat) {
    && size + 12 <= FreeSpace(p) && size + 12 <= FreeOffset(p) - SlotOffset(p)
    && HEADER <= SlotOffset(p) && FreeOffset(p) <= PAGE_SIZE && NumSlots(p) < PAGE_SIZE
  }

  /** Slot, record header and record bytes, then the four header counters. */
  function Inserted(p: page, data: seq<byte>): page
    requires |data| < 0x8000_0000 && HasRoom(p, |data|)
  {
    Written(p, RecordBytes(data), NumSlots(p) + 1, SlotOffset(p), FreeOffset(p) - RECORD - |data|, FreeSpace(p) - (|data| + 12))
  }

  /** The writes of insert, in their order. */
  function Written(p: page, ext: seq<byte>, slots: u32, table: u32, off: u32, space: u32): page
    requires HEADER <= table && table + 4 <= PAGE_SIZE && HEADER <= off && off + |ext| <= PAGE_SIZE
  {
    Counters(PutBody(PutWord(p, table, off), off, ext), slots, table + 4, off, space)
  }

  /** The four counters of the header, stored in the order insert stores them. */
  function Counters(p: page, slots: u32, table: u32, low: u32, space: u32): (q: page)
    ensures q[..4] == p[..4] && NumSlots(q) == slots && SlotOffset(q) == table
    ensures FreeOffset(q) == low && FreeSpace(q) == space
    ensures forall k :: HEADER <= k < PAGE_SIZE ==> q[k] == p[k]
  {
    SetField(SetField(SetField(SetField(p, 12, slots), 16, table), 24, low), 20, space)
  }

  /** `q` differs from `p`, past the header, only in one word at `table` and in `len` bytes at `off`. */
  predicate WroteOnly(p: page, q: page, table: int, off: int, len: nat) {
    forall k :: HEADER <= k < PAGE_SIZE && !(table <= k < table + 4) && !(off <= k < off + len) ==> q[k] == p[k]
  }

  lemma InsertedIs(p: page, data: seq<byte>, slots: u32, table: u32, low: u32, space: u32)
    requires |data| < 0x8000_0000 && HasRoom(p, |data|)
    requires slots == NumSlots(p) && table == SlotOffset(p) && low == FreeOffset(p) && space == FreeSpace(p)
    ensures Inserted(p, data)
         == Written(p, RecordBytes(data), slots + 1, table, low - RECORD - |data|, space - (|data| + 12))
  {
  }

  lemma WrittenBytes(p: page, q: page, ext: seq<byte>, slots: u32, table: u32, off: u32, space: u32)
    requires HEADER <= table && table + 4 <= off && off + |ext| <= PAGE_SIZE
    requires q == Written(p, ext, slots, table, off, space)
    ensures q[..4] == p[..4] && NumSlots(q) == slots && SlotOffset(q) == table + 4
    ensures FreeOffset(q) == off && FreeSpace(q) == space
    ensures q[table..table + 4] == LE32(off) && q[off..off + |ext|] == ext
    ensures WroteOnly(p, q, table, off, |ext|)
  {
  }

  lemma InsertedBytes(p: page, data: seq<byte>, ext: seq<byte>, off: u32)
    requires |data| < 0x8000_0000 && HasRoom(p, |data|) && ext == RecordBytes(data) && off == FreeOffset(p) - RECORD - |data|
    ensures off + |ext| <= PAGE_SIZE
    ensures var q, table := Inserted(p, data), SlotOffset(p);
      && q[..4] == p[..4] && NumSlots(q) == NumSlots(p) + 1 && SlotOffset(q) == table + 4
      && FreeOffset(q) == off && FreeSpace(q) == FreeSpace(p) - |data| - 12
      && q[table..table + 4] == LE32(off) && q[off..off + |ext|] == ext
      && WroteOnly(p, q, table, off, |ext|)
  {
    InsertedIs(p, data, NumSlots(p), SlotOffset(p), FreeOffset(p), FreeSpace(p));
    WrittenBytes(p, Inserted(p, data), ext, NumSlots(p) + 1, SlotOffset(p), off, FreeSpace(p) - (|data| + 12));
  }

  lemma {:induction false} KeptBelow(p: page, q: page, table: int, off: int, len: nat, i: nat, c: Cell)
    requires WroteOnly(p, q, table, off, len)
    requires HEADER + 4 * i + 4 <= table && table + 4 <= off && off + len <= PAGE_SIZE
    requires Holds(p, i, c) && (c.At? ==> HEADER <= c.off)
    requires c.At? ==> off + len <= c.off
    ensures Holds(q, i, c)
  {
    HoldsKept(p, q, i, c);
  }

  lemma {:induction false} InsertedSlots(p: page, q: page, a: Layout, ext: seq<byte>)
    requires Rep(p, a) && InPlace(a) && RECORD <= |ext|
    requires HEADER + 4 * |a.cells| + 4 + |ext| <= a.freeOffset <= PAGE_SIZE
    requires var off, table := a.freeOffset - |ext|, SlotOffset(p);
      q[table..table + 4] == LE32(off) && q[off..off + |ext|] == ext && WroteOnly(p, q, table, off, |ext|)
    ensures forall k :: 0 <= k < |a.cells| ==> Holds(q, k, a.cells[k])
    ensures Holds(q, |a.cells|, At(a.freeOffset - |ext|, ext))
  {
    var n, off := |a.cells|, a.freeOffset - |ext|;
    SameWord(q, HEADER + 4 * n, LE32(off), 0) by { assert q[HEADER + 4 * n..HEADER + 4 * n + 4] == LE32(off); }
    forall k | 0 <= k < n
      ensures Holds(q, k, a.cells[k])
    {
      assert Holds(p, k, a.cells[k]);
      KeptBelow(p, q, SlotOffset(p), off, |ext|, k, a.cells[k]);
    }
  }

  lemma {:induction false} InsertedRep(p: page, a: Layout, data: seq<byte>)
    requires Rep(p, a) && WF(a) && |data| < 0x8000_0000 && HasRoom(p, |data|)
    ensures Rep(Inserted(p, data), Appended(a, RecordBytes(data)))
  {
    var off: u32 := FreeOffset(p) - RECORD - |data|;
    var ext := RecordBytes(data);
    InsertedBytes(p, data, ext, off);
    GrownRep(p, Inserted(p, data), a, ext, off);
  }

  lemma {:induction false} GrownRep(p: page, q: page, a: Layout, ext: seq<byte>, off: u32)
    requires Rep(p, a) && InPlace(a) && RECORD <= |ext| && off == a.freeOffset - |ext|
    requires HEADER + 4 * |a.cells| + 4 <= off && a.freeOffset <= PAGE_SIZE
    requires q[..4] == p[..4] && NumSlots(q) == NumSlots(p) + 1 && SlotOffset(q) == SlotOffset(p) + 4
    requires FreeOffset(q) == off && FreeSpace(q) == a.freeSpace - |ext| - 4
    requires q[SlotOffset(p)..SlotOffset(p) + 4] == LE32(off) && q[off..off + |ext|] == ext
    requires WroteOnly(p, q, SlotOffset(p), off, |ext|)
    ensures Rep(q, Appended(a, ext))
  {
    InsertedSlots(p, q, a, ext);
    RepGrown(q, a.cells, At(a.freeOffset - |ext|, ext), Appended(a, ext));
  }

  lemma {:induction false} RepGrown(q: page, cells: seq<Cell>, c: Cell, b: Layout)
    requires q[..4] == MAGIC && NumSlots(q) == |cells| + 1 && SlotOffset(q) == HEADER + 4 * |cells| + 4 <= PAGE_SIZE
    requires b == Layout(cells + [c], FreeSpace(q), FreeOffset(q))
    requires (forall k :: 0 <= k < |cells| ==> Holds(q, k, cells[k])) && Holds(q, |cells|, c)
    ensures Rep(q, b)
  {
  }

  // ---------------------------------------------------------------- remove

  /** Tombstone the slot, flag the record as dropped, give back the record's own size. */
  function Removed(p: page, i: nat): page
    requires HEADER + 4 * i + 4 <= PAGE_SIZE
    requires HEADER <= SlotAt(p, i) && SlotAt(p, i) + RECORD <= PAGE_SIZE
    requires FreeSpace(p) + U32(p, SlotAt(p, i)) <= PAGE_SIZE
  {
    var off := SlotAt(p, i);
    Tombstoned(p, HEADER + 4 * i, off + 4, FreeSpace(p) + U32(p, off))
  }

  /** The writes of remove, in their order. */
  function Tombstoned(p: page, slot: nat, flag: nat, space: u32): page
    requires HEADER <= slot && slot + 4 <= PAGE_SIZE && HEADER <= flag && flag + 4 <= PAGE_SIZE
  {
    SetField(PutWord(PutWord(p, slot, EMPTY), flag, DROPPED), 20, space)
  }

  lemma {:induction false} RemovedRep(p: page, a: Layout, i: nat)
    requires Rep(p, a) && WF(a) && i < |a.cells| && a.cells[i].At?
    ensures HEADER <= SlotAt(p, i) && SlotAt(p, i) + RECORD <= PAGE_SIZE
    ensures FreeSpace(p) + U32(p, SlotAt(p, i)) <= PAGE_SIZE
    ensures Rep(Removed(p, i), Dropped(a, i))
  {
    var c := a.cells[i];
    assert Holds(p, i, c);
    SameWord(p, c.off, c.ext, 0) by { assert p[c.off..c.off + |c.ext|] == c.ext; }
    DropFits(a, i);
    RemovedBytes(p, i);
    RemovedSlots(p, Removed(p, i), a, i);
  }

  lemma {:induction false} RemovedSlots(p: page, q: page, a: Layout, i: nat)
    requires Rep(p, a) && InPlace(a) && i < |a.cells| && a.cells[i].At? && Descending(a.cells)
    requires HEADER + 4 * |a.cells| <= a.freeOffset
    requires WroteOnly(p, q, HEADER + 4 * i, a.cells[i].off + 4, 4)
    ensures forall k :: 0 <= k < |a.cells| && k != i ==> Holds(q, k, a.cells[k])
  {
    forall k | 0 <= k < |a.cells| && k != i
      ensures Holds(q, k, a.cells[k])
    {
      assert Holds(p, k, a.cells[k]);
      HoldsKept(p, q, k, a.cells[k]);
    }
  }

  lemma {:induction false} RemovedBytes(p: page, i: nat)
    requires HEADER + 4 * i + 4 <= PAGE_SIZE && HEADER + 4 * i + 4 <= SlotAt(p, i) && SlotAt(p, i) + RECORD <= PAGE_SIZE
    requires FreeSpace(p) + U32(p, SlotAt(p, i)) <= PAGE_SIZE
    ensures var q, off := Removed(p, i), SlotAt(p, i);
      && q[..4] == p[..4] && NumSlots(q) == NumSlots(p) && SlotOffset(q) == SlotOffset(p)
      && FreeOffset(q) == FreeOffset(p) && FreeSpace(q) == FreeSpace(p) + U32(p, off)
      && SlotAt(q, i) == EMPTY && WroteOnly(p, q, HEADER + 4 * i, off + 4, 4)
  {
    var p1 := PutWord(p, HEADER + 4 * i, EMPTY);
    SameWord(Removed(p, i), HEADER + 4 * i, p1, HEADER + 4 * i);
  }

  lemma {:induction false} DropFits(a: Layout, i: nat)
    requires WF(a) && i < |a.cells| && a.cells[i].At?
    ensures a.freeSpace + |a.cells[i].ext| - RECORD <= PAGE_SIZE
  {
    UsedDrop(a.cells, i, |a.cells|, 0);
    UsedGrows(Dropped(a, i), |a.cells|, |a.cells|);
  }

  // ---------------------------------------------------------------- find

  datatype Lookup = Found(data: seq<byte>) | Refused

  /** BSONObj on memory: as many bytes as its own first word says; None where the constructor throws or memory ends. */
  function ObjectIn(mem: seq<byte>, at: nat): Option<seq<byte>> {
    if at + 4 > |mem| || U32(mem, at) == 0 || U32(mem, at) > MAX_INTERNAL || at + U32(mem, at) > |mem| then None
    else Some(mem[at..at + U32(mem, at)])
  }

  /** The object behind the record header at `off`; `tail` is the memory that follows the page. */
  function ObjectAt(p: page, tail: seq<byte>, off: nat): Option<seq<byte>> {
    ObjectIn(p + tail, off + RECORD)
  }

  /**
   _searchSlot and find on one page, with the memory that follows it: no check keeps the copy in the
   page. The slot bound is `>`, as the code has it.
   */
  function FindRecord(p: page, tail: seq<byte>, slot: nat): Lookup {
    if slot > NumSlots(p) || HEADER + 4 * slot + 4 > PAGE_SIZE then Refused
    else
      var off := SlotAt(p, slot);
      if off == EMPTY || off + RECORD > PAGE_SIZE + |tail| then Refused
      else if U32(p + tail, off + 4) == DROPPED then Refused
      else match ObjectAt(p, tail, off) case Some(data) => Found(data) case None => Refused
  }

  /** An object that lies in the page is read the same whatever follows. */
  lemma {:induction false} ObjectHere(p: page, tail: seq<byte>, off: nat, ext: seq<byte>)
    requires off + |ext| <= PAGE_SIZE && p[off..off + |ext|] == ext && Sound(ext)
    ensures U32(p + tail, off + 4) == 0 && ObjectAt(p, tail, off) == Some(ext[RECORD..])
  {
    var mem := p + tail;
    assert mem[off..off + |ext|] == ext;
    SameWord(mem, off + 4, ext, 4);
    SameWord(mem, off + RECORD, ext[RECORD..], 0);
    assert mem[off + RECORD..off + |ext|] == ext[RECORD..];
  }

  lemma {:induction false} FindHolds(p: page, tail: seq<byte>, slot: nat, c: Cell)
    requires slot < NumSlots(p) && HEADER + 4 * slot + 4 <= PAGE_SIZE
    requires Holds(p, slot, c) && (c.At? ==> Sound(c.ext))
    ensures FindRecord(p, tail, slot) == match c case At(_, ext) => Found(ext[RECORD..]) case Dead => Refused
    ensures match c case At(off, ext) => ObjectAt(p, tail, off) == Some(ext[RECORD..]) case Dead => SlotAt(p, slot) == EMPTY
  {
    if c.At? {
      ObjectHere(p, tail, c.off, c.ext);
    }
  }

  /** An issued slot reads back what it stores, and is refused once dropped, whatever follows the page. */
  lemma {:induction false} FindReads(p: page, tail: seq<byte>, slot: nat)
    requires Valid(p) && slot < NumSlots(p)
    ensures FindRecord(p, tail, slot) ==
            match Contents(p)[slot] case Some(data) => Found(data) case None => Refused
    ensures SlotAt(p, slot) == EMPTY <==> Contents(p)[slot] == None
    ensures SlotAt(p, slot) != EMPTY ==> ObjectAt(p, tail, SlotAt(p, slot)) == Contents(p)[slot]
  {
    assert Holds(p, slot, Decode(p).cells[slot]);
    FindHolds(p, tail, slot, Decode(p).cells[slot]);
  }
}
