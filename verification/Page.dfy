/**
 The layout of a slotted page: a 28-byte header, a table of 4-byte slots growing up from it,
 and record extents growing down from the end of the page. This module reasons about offsets
 only; PageBytes ties a layout to the bytes of a page.
 */
module Page {
  import opened Bytes

  const PAGE_SIZE: int := 4194304
  const HEADER: int := 28   // sizeof(dmsPageHeader)
  const RECORD: int := 8    // sizeof(dmsRecord)
  const SLOT: int := 4      // sizeof(SLOTOFF)

  /** A slot: a tombstone, or the place and the bytes (record header included) of a record. */
  datatype Cell = Dead | At(off: nat, ext: seq<byte>)

  datatype Layout = Layout(cells: seq<Cell>, freeSpace: int, freeOffset: int)

  /** What a byte string handed over as a BSONObj promises: its first word is its length. */
  predicate IsObj(data: seq<byte>) {
    5 <= |data| && U32(data, 0) == |data|
  }

  /** A record extent as insert writes it: the record's size, flag 0, a BSON object. */
  predicate Sound(ext: seq<byte>) {
    RECORD <= |ext| && U32(ext, 0) == |ext| - RECORD && U32(ext, 4) == 0 && IsObj(ext[RECORD..])
  }

  /** Bytes taken by the live extents among the first `n` slots, counting `cost` per record header. */
  function Used(cells: seq<Cell>, n: nat, cost: nat): int
    requires n <= |cells|
  {
    if n == 0 then 0
    else Used(cells, n - 1, cost) + if cells[n - 1].At? then |cells[n - 1].ext| - RECORD + cost else 0
  }

  predicate AllLive(cells: seq<Cell>, n: nat)
    requires n <= |cells|
  {
    forall k :: 0 <= k < n ==> cells[k].At?
  }

  /** Extents lie between the free offset and the page end and hold what insert wrote. */
  predicate InPlace(a: Layout) {
    forall k :: 0 <= k < |a.cells| && a.cells[k].At? ==>
      Sound(a.cells[k].ext) && a.freeOffset <= a.cells[k].off && a.cells[k].off + |a.cells[k].ext| <= PAGE_SIZE
  }

  /** Live extents descend strictly with the slot number, hence never overlap. */
  predicate Descending(cells: seq<Cell>) {
    forall j, k :: 0 <= j < k < |cells| && cells[j].At? && cells[k].At? ==>
      cells[k].off + |cells[k].ext| <= cells[j].off
  }

  /** The records before the first tombstone are packed against the page end. */
  predicate PrefixPacked(a: Layout) {
    && (forall k {:trigger AllLive(a.cells, k)} :: 0 <= k < |a.cells| && AllLive(a.cells, k) && a.cells[k].At? ==>
          a.cells[k].off == PAGE_SIZE - Used(a.cells, k, RECORD) - |a.cells[k].ext|)
    && (AllLive(a.cells, |a.cells|) ==> a.freeOffset == PAGE_SIZE - Used(a.cells, |a.cells|, RECORD))
  }

  /** Every byte is accounted for; a dropped record's slot and header stay charged for ever. */
  predicate Conserved(a: Layout) {
    a.freeSpace + Used(a.cells, |a.cells|, 0) + 12 * |a.cells| + HEADER == PAGE_SIZE
  }

  /** The invariant of every page of every reachable store. */
  predicate WF(a: Layout) {
    && HEADER + 4 * |a.cells| <= a.freeOffset <= PAGE_SIZE
    && 0 <= a.freeSpace
    && InPlace(a)
    && Descending(a.cells)
    && PrefixPacked(a)
    && Conserved(a)
  }

  /** What the page stores: one entry per slot ever issued, None for a dropped one. */
  function View(a: Layout): (v: seq<Option<seq<byte>>>)
    requires InPlace(a)
    ensures |v| == |a.cells|
    ensures forall k :: 0 <= k < |v| ==>
      v[k] == if a.cells[k].At? then Some(a.cells[k].ext[RECORD..]) else None
  {
    ViewUpTo(a, |a.cells|)
  }

  function ViewUpTo(a: Layout, n: nat): (v: seq<Option<seq<byte>>>)
    requires InPlace(a) && n <= |a.cells|
    ensures |v| == n
    ensures forall k :: 0 <= k < n ==>
      v[k] == if a.cells[k].At? then Some(a.cells[k].ext[RECORD..]) else None
  {
    if n == 0 then []
    else ViewUpTo(a, n - 1) + [if a.cells[n - 1].At? then Some(a.cells[n - 1].ext[RECORD..]) else None]
  }

  // ---------------------------------------------------------------- sums

  lemma {:induction false} UsedSame(c: seq<Cell>, d: seq<Cell>, n: nat, cost: nat)
    requires n <= |c| && n <= |d|
    requires forall k :: 0 <= k < n ==> c[k].At? == d[k].At? && (c[k].At? ==> |c[k].ext| == |d[k].ext|)
    ensures Used(c, n, cost) == Used(d, n, cost)
  {
    if n > 0 {
      UsedSame(c, d, n - 1, cost);
    }
  }

  /** Below `bound`, the live extents of the first `n` slots stack up without exceeding the page. */
  lemma {:induction false} Stacked(a: Layout, n: nat, bound: int)
    requires InPlace(a) && Descending(a.cells) && n <= |a.cells| && bound <= PAGE_SIZE
    requires forall k :: 0 <= k < n && a.cells[k].At? ==> bound <= a.cells[k].off
    ensures bound + Used(a.cells, n, RECORD) <= PAGE_SIZE
  {
    if n > 0 {
      var c := a.cells[n - 1];
      Stacked(a, n - 1, if c.At? then c.off + |c.ext| else bound);
    }
  }

  lemma {:induction false} UsedCost(cells: seq<Cell>, n: nat)
    requires n <= |cells|
    ensures Used(cells, n, RECORD) <= Used(cells, n, 0) + 8 * n
    ensures AllLive(cells, n) ==> Used(cells, n, RECORD) == Used(cells, n, 0) + 8 * n
  {
    if n > 0 {
      UsedCost(cells, n - 1);
    }
  }

  lemma {:induction false} UsedGrows(a: Layout, m: nat, n: nat)
    requires InPlace(a) && m <= n <= |a.cells|
    ensures 0 <= Used(a.cells, m, RECORD) <= Used(a.cells, n, RECORD)
    ensures 0 <= Used(a.cells, m, 0) <= Used(a.cells, n, 0)
    decreases m + n
  {
    if m < n {
      UsedGrows(a, m, n - 1);
    } else if 0 < m {
      UsedGrows(a, m - 1, m - 1);
    }
  }

  /** Replacing one record by a tombstone takes exactly its share out of the sum. */
  lemma {:induction false} UsedDrop(cells: seq<Cell>, i: nat, n: nat, cost: nat)
    requires i < |cells| && n <= |cells| && cells[i].At?
    ensures Used(cells[i := Dead], n, cost) ==
            Used(cells, n, cost) - if i < n then |cells[i].ext| - RECORD + cost else 0
  {
    if n > 0 {
      UsedDrop(cells, i, n - 1, cost);
    }
  }

  // ---------------------------------------------------------------- operations

  /** A page as _extendSegment formats it. */
  const FRESH: Layout := Layout([], PAGE_SIZE - HEADER, PAGE_SIZE)

  lemma FreshWF()
    ensures WF(FRESH) && View(FRESH) == []
  {
  }

  function Appended(a: Layout, ext: seq<byte>): Layout
    requires |ext| <= a.freeOffset
  {
    Layout(a.cells + [At(a.freeOffset - |ext|, ext)], a.freeSpace - |ext| - SLOT, a.freeOffset - |ext|)
  }

  lemma {:induction false} AppendedPacked(a: Layout, b: Layout, ext: seq<byte>)
    requires PrefixPacked(a) && |ext| <= a.freeOffset && b == Appended(a, ext)
    ensures PrefixPacked(b)
  {
    var n := |a.cells|;
    UsedSame(a.cells, b.cells, n, RECORD);
    forall m | 0 <= m < |b.cells| && AllLive(b.cells, m) && b.cells[m].At?
      ensures b.cells[m].off == PAGE_SIZE - Used(b.cells, m, RECORD) - |b.cells[m].ext|
    {
      assert AllLive(a.cells, m) by { assert forall k :: 0 <= k < m ==> b.cells[k].At? && a.cells[k] == b.cells[k]; }
      UsedSame(a.cells, b.cells, m, RECORD);
    }
    if AllLive(b.cells, n + 1) {
      assert AllLive(a.cells, n) by { assert forall k :: 0 <= k < n ==> b.cells[k].At? && a.cells[k] == b.cells[k]; }
      assert b.cells[n].At?;
    }
  }

  lemma {:induction false} AppendedWF(a: Layout, ext: seq<byte>)
    requires WF(a) && Sound(ext)
    requires HEADER + 4 * |a.cells| + SLOT + |ext| <= a.freeOffset && |ext| + SLOT <= a.freeSpace
    ensures WF(Appended(a, ext))
    ensures View(Appended(a, ext)) == View(a) + [Some(ext[RECORD..])]
  {
    var b := Appended(a, ext);
    UsedSame(a.cells, b.cells, |a.cells|, 0);
    AppendedPacked(a, b, ext);
    assert InPlace(b);
    assert Descending(b.cells);
  }

  function Dropped(a: Layout, i: nat): Layout
    requires i < |a.cells| && a.cells[i].At?
  {
    a.(cells := a.cells[i := Dead], freeSpace := a.freeSpace + |a.cells[i].ext| - RECORD)
  }

  lemma {:induction false} DroppedWF(a: Layout, i: nat)
    requires WF(a) && i < |a.cells| && a.cells[i].At?
    ensures WF(Dropped(a, i))
    ensures View(Dropped(a, i)) == View(a)[i := None]
  {
    var b := Dropped(a, i);
    UsedDrop(a.cells, i, |a.cells|, 0);
    assert !b.cells[i].At?;
    forall m | 0 <= m < |b.cells| && AllLive(b.cells, m) && b.cells[m].At?
      ensures b.cells[m].off == PAGE_SIZE - Used(b.cells, m, RECORD) - |b.cells[m].ext|
    {
      assert m < i;
      assert AllLive(a.cells, m) by { assert forall k :: 0 <= k < m ==> b.cells[k].At? && a.cells[k] == b.cells[k]; }
      UsedSame(a.cells, b.cells, m, RECORD);
    }
  }

  /** Slot `k` after compaction: the same bytes, packed in slot order against the page end. */
  function PackedCell(a: Layout, k: nat): Cell
    requires WF(a) && k < |a.cells|
  {
    if a.cells[k].At? then
      Fits(a, k);
      At(PAGE_SIZE - Used(a.cells, k, RECORD) - |a.cells[k].ext|, a.cells[k].ext)
    else Dead
  }

  /** The slots when compaction has passed the first `i` of them. */
  function Packing(a: Layout, i: nat): (c: seq<Cell>)
    requires WF(a) && i <= |a.cells|
    ensures |c| == |a.cells|
    ensures forall k :: 0 <= k < |c| ==> c[k] == if k < i then PackedCell(a, k) else a.cells[k]
  {
    seq(i, k requires 0 <= k < i => PackedCell(a, k)) + a.cells[i..]
  }

  /** Extent `n` lies below everything the earlier extents take, all of it above the slot table. */
  lemma {:induction false} Fits(a: Layout, n: nat)
    requires WF(a) && n <= |a.cells|
    ensures 0 <= Used(a.cells, n, RECORD) <= PAGE_SIZE - a.freeOffset
    ensures n < |a.cells| && a.cells[n].At? ==>
      a.cells[n].off + |a.cells[n].ext| <= PAGE_SIZE - Used(a.cells, n, RECORD)
  {
    Stacked(a, n, a.freeOffset);
    UsedGrows(a, n, n);
    if n < |a.cells| && a.cells[n].At? {
      Stacked(a, n, a.cells[n].off + |a.cells[n].ext|);
    }
  }

  function Packed(a: Layout): Layout
    requires WF(a)
  {
    a.(cells := Packing(a, |a.cells|), freeOffset := PAGE_SIZE - Used(a.cells, |a.cells|, RECORD))
  }

  lemma {:induction false} PackedPlace(a: Layout, k: nat)
    requires WF(a) && k < |a.cells| && a.cells[k].At?
    ensures PackedCell(a, k).off + |a.cells[k].ext| <= PAGE_SIZE
    ensures PAGE_SIZE - Used(a.cells, |a.cells|, RECORD) <= PackedCell(a, k).off
  {
    UsedGrows(a, k + 1, |a.cells|);
    UsedGrows(a, k, k);
  }

  lemma {:induction false} PackedBelow(a: Layout, j: nat, k: nat)
    requires WF(a) && j < k < |a.cells| && a.cells[j].At? && a.cells[k].At?
    ensures PackedCell(a, k).off + |a.cells[k].ext| <= PackedCell(a, j).off
  {
    UsedGrows(a, j + 1, k);
  }

  lemma {:induction false} PackedOrder(a: Layout)
    requires WF(a)
    ensures InPlace(Packed(a)) && Descending(Packed(a).cells)
  {
    var b := Packed(a);
    forall k | 0 <= k < |b.cells| && b.cells[k].At?
      ensures Sound(b.cells[k].ext) && b.freeOffset <= b.cells[k].off && b.cells[k].off + |b.cells[k].ext| <= PAGE_SIZE
    {
      PackedPlace(a, k);
    }
    forall j, k | 0 <= j < k < |b.cells| && b.cells[j].At? && b.cells[k].At?
      ensures b.cells[k].off + |b.cells[k].ext| <= b.cells[j].off
    {
      PackedBelow(a, j, k);
    }
  }

  /** Compaction keeps the invariant and the contents, and the gap it opens covers the free space. */
  lemma {:induction false} PackedWF(a: Layout)
    requires WF(a)
    ensures WF(Packed(a)) && View(Packed(a)) == View(a)
    ensures Packed(a).freeSpace <= Packed(a).freeOffset - HEADER - 4 * |a.cells|
  {
    var b := Packed(a);
    var n := |a.cells|;
    Fits(a, n);
    UsedSame(a.cells, b.cells, n, RECORD);
    UsedSame(a.cells, b.cells, n, 0);
    UsedCost(a.cells, n);
    PackedOrder(a);
    forall k | 0 <= k < n && b.cells[k].At?
      ensures b.cells[k].off == PAGE_SIZE - Used(b.cells, k, RECORD) - |b.cells[k].ext|
    {
      UsedSame(a.cells, b.cells, k, RECORD);
    }
    assert PrefixPacked(b);
  }
}
