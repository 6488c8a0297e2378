/** The page operations in place, on a mapped page of memory. */
module PageMemory {
  import opened Bytes
  import opened Page
  import opened PageBytes
  import opened Compaction
  import opened PageOps

  /** memmove: source and destination may overlap. */
  method MemMove(mem: array<byte>, to: nat, from: nat, n: nat)
    requires to + n <= mem.Length && from + n <= mem.Length
    modifies mem
    ensures mem[..] == Put(old(mem[..]), to, old(mem[from..from + n]))
  {
    forall k | 0 <= k < n {
      mem[to + k] := mem[from + k];
    }
  }

  /** Load of an unsigned int. */
  method Load32(mem: array<byte>, off: nat) returns (v: u32)
    requires off + 4 <= mem.Length
    ensures v == U32(mem[..], off)
  {
    v := U32(mem[..], off);
  }

  /** Move slot `i`'s record up to end at `right`, and point the slot at it. */
  method MoveRecord(mem: array<byte>, i: nat, slot: nat, right: nat, stride: nat)
    requires mem.Length == PAGE_SIZE && HEADER + 4 * i + 4 <= PAGE_SIZE && slot == SlotAt(mem[..], i)
    requires slot + stride <= PAGE_SIZE && HEADER <= right && right + stride <= PAGE_SIZE
    modifies mem
    ensures mem[..] == Moved(old(mem[..]), i, right, stride)
  {
    MemMove(mem, right, slot, stride);
    CopyIn(mem, HEADER + 4 * i, LE32(right));
  }

  /** _recoverSpace, on a page on which its loop stays in the page. */
  method RecoverSpace(mem: array<byte>, hdr: nat)
    requires mem.Length == PAGE_SIZE && Loop(Visit(mem[..], PAGE_SIZE, false), 0, hdr).Some?
    modifies mem
    ensures mem[..] == Compact(old(mem[..]), hdr)
  {
    var right := RecoverSlots(mem, hdr, Loop(Visit(mem[..], PAGE_SIZE, false), 0, hdr).value);
    CopyIn(mem, 24, LE32(right));
  }

  /** Its loop. */
  method RecoverSlots(mem: array<byte>, hdr: nat, ghost end: Visit) returns (right: nat)
    requires mem.Length == PAGE_SIZE && Loop(Visit(mem[..], PAGE_SIZE, false), 0, hdr) == Some(end)
    modifies mem
    ensures mem[..] == end.p && right == end.right <= PAGE_SIZE
  {
    var recovering := false;
    right := PAGE_SIZE;
    var numSlots := Load32(mem, 12);
    for i := 0 to numSlots
      invariant numSlots == NumSlots(mem[..]) && right <= PAGE_SIZE
      invariant Loop(Visit(mem[..], right, recovering), i, hdr) == Some(end)
    {
      right, recovering := RecoverSlot(mem, i, right, recovering, hdr);
    }
  }

  /** The body of the loop. */
  method RecoverSlot(mem: array<byte>, i: nat, right: nat, recovering: bool, hdr: nat)
    returns (right': nat, recovering': bool)
    requires mem.Length == PAGE_SIZE && Turn(Visit(mem[..], right, recovering), i, hdr).Some?
    modifies mem
    ensures Some(Visit(mem[..], right', recovering')) == Turn(Visit(old(mem[..]), right, recovering), i, hdr)
  {
    ghost var v := Visit(mem[..], right, recovering);
    var slot := Load32(mem, HEADER + 4 * i);
    if slot == EMPTY {
      return right, true;
    }
    var size := Load32(mem, slot);
    TurnPasses(v, i, hdr, hdr + size);
    right' := PassRecord(mem, i, slot, right, recovering, hdr + size);
    recovering' := recovering;
  }

  method PassRecord(mem: array<byte>, i: nat, slot: nat, right: nat, recovering: bool, stride: nat) returns (right': nat)
    requires mem.Length == PAGE_SIZE && Pass(Visit(mem[..], right, recovering), i, stride).Some? && slot == SlotAt(mem[..], i)
    modifies mem
    ensures Some(Visit(mem[..], right', recovering)) == Pass(Visit(old(mem[..]), right, recovering), i, stride)
  {
    right' := right - stride;
    if recovering {
      MoveRecord(mem, i, slot, right', stride);
    }
  }

  method StoreField(mem: array<byte>, at: nat, v: u32)
    requires mem.Length == PAGE_SIZE && at in {12, 16, 20, 24}
    modifies mem
    ensures mem[..] == SetField(old(mem[..]), at, v)
  {
    CopyIn(mem, at, LE32(v));
  }

  method CopyBody(mem: array<byte>, off: nat, b: seq<byte>)
    requires mem.Length == PAGE_SIZE && HEADER <= off && off + |b| <= PAGE_SIZE
    modifies mem
    ensures mem[..] == PutBody(old(mem[..]), off, b)
  {
    CopyIn(mem, off, b);
  }

  method StoreWord(mem: array<byte>, off: nat, v: u32)
    requires mem.Length == PAGE_SIZE && HEADER <= off && off + 4 <= PAGE_SIZE
    modifies mem
    ensures mem[..] == PutWord(old(mem[..]), off, v)
  {
    CopyIn(mem, off, LE32(v));
  }

  method StoreCounters(mem: array<byte>, slots: u32, table: u32, low: u32, space: u32)
    requires mem.Length == PAGE_SIZE
    modifies mem
    ensures mem[..] == Counters(old(mem[..]), slots, table, low, space)
  {
    StoreField(mem, 12, slots);
    StoreField(mem, 16, table);
    StoreField(mem, 24, low);
    StoreField(mem, 20, space);
  }

  method WriteRecord(mem: array<byte>, ext: seq<byte>, slots: u32, table: u32, off: u32, space: u32)
    requires mem.Length == PAGE_SIZE
    requires HEADER <= table && table + 4 <= PAGE_SIZE && HEADER <= off && off + |ext| <= PAGE_SIZE
    modifies mem
    ensures mem[..] == Written(old(mem[..]), ext, slots, table, off, space)
  {
    StoreWord(mem, table, off);
    CopyBody(mem, off, ext);
    StoreCounters(mem, slots, table + 4, off, space);
  }

  /** Slot, record header, record and counters of a new record. */
  method AppendRecord(mem: array<byte>, data: seq<byte>)
    requires mem.Length == PAGE_SIZE && |data| < 0x8000_0000 && HasRoom(mem[..], |data|)
    modifies mem
    ensures mem[..] == Inserted(old(mem[..]), data)
  {
    ghost var p: page := mem[..];
    var slots := Load32(mem, 12);
    var table := Load32(mem, 16);
    var space := Load32(mem, 20);
    var low := Load32(mem, 24);
    InsertedIs(p, data, slots, table, low, space);
    WriteRecord(mem, RecordBytes(data), slots + 1, table, low - RECORD - |data|, space - (|data| + 12));
  }

  /** Steps 2 to 5 of insert on the chosen page. */
  method InsertRecord(mem: array<byte>, data: seq<byte>, hdr: nat) returns (ok: bool)
    requires mem.Length == PAGE_SIZE && |data| < 0x8000_0000 && Loop(Visit(mem[..], PAGE_SIZE, false), 0, hdr).Some?
    modifies mem
    ensures PageResult(mem[..], ok) == InsertInto(old(mem[..]), data, hdr)
  {
    if mem[..4] != MAGIC {
      assert mem[..][..4] == mem[..4];
      return false;
    }
    assert mem[..][..4] == mem[..4];
    MakeRoom(mem, |data|, hdr);
    if !HasRoom(mem[..], |data|) {
      return false;
    }
    AppendRecord(mem, data);
    return true;
  }

  method MakeRoom(mem: array<byte>, size: nat, hdr: nat)
    requires mem.Length == PAGE_SIZE && Loop(Visit(mem[..], PAGE_SIZE, false), 0, hdr).Some?
    modifies mem
    ensures mem[..] == Readied(old(mem[..]), size, hdr)
  {
    var slotOffset := Load32(mem, 16);
    var freeSpace := Load32(mem, 20);
    var freeOffset := Load32(mem, 24);
    if freeSpace > freeOffset - slotOffset && slotOffset + size + 12 > freeOffset {
      RecoverSpace(mem, hdr);
    }
  }

  /** Tombstone a slot and give back its record's size. */
  method DropRecord(mem: array<byte>, slot: nat) returns (ok: bool)
    requires mem.Length == PAGE_SIZE
    modifies mem
    ensures PageResult(mem[..], ok) == RemoveFrom(old(mem[..]), slot)
  {
    var numSlots := Load32(mem, 12);
    if slot > numSlots || !Droppable(mem[..], slot) {
      return false;
    }
    TombStone(mem, slot);
    return true;
  }

  method TombStone(mem: array<byte>, slot: nat)
    requires mem.Length == PAGE_SIZE && Droppable(mem[..], slot)
    modifies mem
    ensures mem[..] == Removed(old(mem[..]), slot)
  {
    ghost var p: page := mem[..];
    var off := Load32(mem, HEADER + 4 * slot);
    var size := Load32(mem, off);
    var space := Load32(mem, 20);
    TombstonedIs(p, slot, off, size, space);
    WriteTombstone(mem, HEADER + 4 * slot, off + 4, space + size);
  }

  lemma TombstonedIs(p: page, slot: nat, off: u32, size: u32, space: u32)
    requires Droppable(p, slot) && off == SlotAt(p, slot) && size == U32(p, off) && space == FreeSpace(p)
    ensures Tombstoned(p, HEADER + 4 * slot, off + 4, space + size) == Removed(p, slot)
  {
  }

  method WriteTombstone(mem: array<byte>, slot: nat, flag: nat, space: u32)
    requires mem.Length == PAGE_SIZE && HEADER <= slot && slot + 4 <= PAGE_SIZE && HEADER <= flag && flag + 4 <= PAGE_SIZE
    modifies mem
    ensures mem[..] == Tombstoned(old(mem[..]), slot, flag, space)
  {
    StoreWord(mem, slot, EMPTY);
    StoreWord(mem, flag, DROPPED);
    StoreField(mem, 20, space);
  }

  /** _searchSlot, the check of find, and the copy of the record, which may reach into the `tail` behind the page. */
  method ReadRecord(mem: array<byte>, tail: seq<byte>, slot: nat) returns (r: Lookup)
    requires mem.Length == PAGE_SIZE
    ensures r == FindRecord(mem[..], tail, slot)
  {
    var numSlots := Load32(mem, 12);
    if slot > numSlots || HEADER + 4 * slot + 4 > PAGE_SIZE {
      return Refused;
    }
    var off := Load32(mem, HEADER + 4 * slot);
    if off == EMPTY || off + RECORD > PAGE_SIZE + |tail| {
      return Refused;
    }
    var flag := U32(mem[..] + tail, off + 4);
    if flag == DROPPED {
      return Refused;
    }
    var found := CopyOut(mem, tail, off);
    match found
    case None => r := Refused;
    case Some(data) => r := Found(data);
  }

  /** BSONObj at a record, copied out: as many bytes as its first word says. */
  method CopyOut(mem: array<byte>, tail: seq<byte>, off: nat) returns (found: Option<seq<byte>>)
    requires mem.Length == PAGE_SIZE
    ensures found == ObjectAt(mem[..], tail, off)
  {
    var all, at := mem[..] + tail, off + RECORD;
    if at + 4 > |all| {
      return None;
    }
    var size := U32(all, at);
    if size == 0 || size > MAX_INTERNAL || at + size > |all| {
      return None;
    }
    found := Some(all[at..at + size]);
  }
}
