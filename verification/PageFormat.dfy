/** The bytes of a page: its header when it is fresh, and what an insert and a remove write, at their offsets. */
module PageFormat {
  import opened Bytes
  import opened Page
  import opened PageBytes
  import opened PageOps

  /** The bytes of the header in front of the counters stay. */
  lemma {:induction false} FrontStays(p: page, slots: u32, table: u32, low: u32, space: u32)
    ensures Counters(p, slots, table, low, space)[..12] == p[..12]
  {
    var q := SetField(p, 12, slots);
    var r := SetField(q, 16, table);
    var s := SetField(r, 24, low);
    assert q[..12] == p[..12] && r[..12] == q[..12] && s[..12] == r[..12];
  }

  /** "PAGE", the size of a page, flag 0, no slots, the slot table at 28, 4,194,276 bytes free, up to 4,194,304; then zeros. */
  lemma {:induction false} FreshPage()
    ensures Formatted()[..12] == [80, 65, 71, 69, 0, 0, 64, 0, 0, 0, 0, 0]
    ensures U32(Formatted(), 12) == 0 && U32(Formatted(), 16) == 28
    ensures U32(Formatted(), 20) == 4194276 && U32(Formatted(), 24) == 4194304
    ensures forall k :: 28 <= k < |Formatted()| ==> Formatted()[k] == 0
  {
    var zeros: page := seq(PAGE_SIZE, _ => 0);
    FrontStays(Put(zeros, 0, START), 0, HEADER, PAGE_SIZE, PAGE_SIZE - HEADER);
    assert Put(zeros, 0, START)[..12] == START;
  }

  /** The bytes from `off` on are those of a record: its size, its flag, the object. */
  predicate RecordAt(q: page, off: nat, flag: u32, data: seq<byte>) {
    off + 8 + |data| <= |q| && U32(q, off) == |data| && U32(q, off + 4) == flag && q[off + 8..off + 8 + |data|] == data
  }

  lemma {:induction false} LaysRecord(q: page, off: nat, data: seq<byte>, ext: seq<byte>)
    requires |data| < 0x8000_0000 && ext == RecordBytes(data) && off + |ext| <= PAGE_SIZE && q[off..off + |ext|] == ext
    ensures RecordAt(q, off, 0, data)
  {
    var x := q[off..off + |ext|];
    assert ext == LE32(|data|) + LE32(0) + data;
    SameWord(ext, 0, LE32(|data|), 0);
    SameWord(ext, 4, LE32(0), 0);
    SameWord(q, off, x, 0);
    SameWord(q, off + 4, x, 4);
    assert q[off + 8..off + 8 + |data|] == x[8..];
  }

  /**
   An insert: the four counters of the header, the slot behind the table, and the record in front of the
   lowest, with flag 0.
   */
  lemma {:induction false} InsertWrites(p: page, data: seq<byte>, off: u32, slot: nat)
    requires |data| < 0x8000_0000 && HasRoom(p, |data|) && 28 + 4 * U32(p, 12) == U32(p, 16) == slot
    requires off == U32(p, 24) - 8 - |data|
    ensures var q := Inserted(p, data);
      && U32(q, 12) == U32(p, 12) + 1 && U32(q, 16) == U32(p, 16) + 4
      && U32(q, 20) == U32(p, 20) - |data| - 12 && U32(q, 24) == off
      && slot + 4 <= |q| && U32(q, slot) == off && RecordAt(q, off, 0, data)
  {
    var ext, q := RecordBytes(data), Inserted(p, data);
    InsertedBytes(p, data, ext, off);
    LaysRecord(q, off, data, ext);
    SlotIs(q, slot, off);
  }

  lemma {:induction false} SlotIs(q: page, slot: nat, off: u32)
    requires slot + 4 <= PAGE_SIZE && q[slot..slot + 4] == LE32(off)
    ensures U32(q, slot) == off
  {
    SameWord(q, slot, q[slot..slot + 4], 0);
  }

  /** A remove: the slot is all ones, the record's flag 1, and its size is free again; nothing else changes. */
  lemma {:induction false} RemoveWrites(p: page, i: nat, slot: nat, off: nat)
    requires slot == 28 + 4 * i && slot + 4 <= off && off + 8 <= 4194304 && off == U32(p, slot)
    requires U32(p, 20) + U32(p, off) <= 4194304
    ensures var q := Removed(p, i);
      && U32(q, slot) == 0xFFFF_FFFF && U32(q, off + 4) == 1 && U32(q, 20) == U32(p, 20) + U32(p, off)
      && U32(q, 12) == U32(p, 12) && U32(q, 16) == U32(p, 16) && U32(q, 24) == U32(p, 24)
      && forall k :: 28 <= k < 4194304 && !(slot <= k < slot + 4) && !(off + 4 <= k < off + 8) ==> q[k] == p[k]
  {
    var p1 := PutWord(p, slot, EMPTY);
    var p2 := PutWord(p1, off + 4, DROPPED);
    var q := Removed(p, i);
    SameWord(p2, slot, p1, slot);
    SameWord(q, slot, p2, slot);
    SameWord(q, off + 4, p2, off + 4);
  }
}
