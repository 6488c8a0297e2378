/**
 In-place compaction of a page's bytes. `hdr` is what a step adds to a record's own size when it
 strides and moves: 8, the record header insert lays down, or 0, as the code is written.
 */
module Compaction {
  import opened Bytes
  import opened Page
  import opened PageBytes

  /** Slots from `i` on are as `cells` says, and their records lie below `right`. */
  predicate Pending(p: page, cells: seq<Cell>, i: nat, right: int) {
    && i <= |cells| == NumSlots(p) && HEADER + 4 * |cells| <= right <= PAGE_SIZE
    && Descending(cells)
    && (forall k :: i <= k < |cells| ==> Holds(p, k, cells[k]))
    && (forall k :: i <= k < |cells| && cells[k].At? ==>
          && RECORD <= |cells[k].ext| && U32(cells[k].ext, 0) == |cells[k].ext| - RECORD
          && HEADER + 4 * |cells| <= cells[k].off && cells[k].off + |cells[k].ext| <= right)
  }

  lemma {:induction false} PendingSize(p: page, cells: seq<Cell>, i: nat, right: int)
    requires Pending(p, cells, i, right) && i < |cells|
    ensures SlotAt(p, i) == EMPTY <==> cells[i] == Dead
    ensures cells[i].At? ==> SlotAt(p, i) == cells[i].off && U32(p, cells[i].off) == |cells[i].ext| - RECORD
  {
    var c := cells[i];
    assert Holds(p, i, c);
    if c.At? {
      SameWord(p, c.off, c.ext, 0) by { assert p[c.off..c.off + |c.ext|] == c.ext; }
    }
  }

  /** memmove `stride` bytes of slot `i`'s record to `to`, and point the slot there. */
  function Moved(p: page, i: nat, to: nat, stride: nat): page
    requires HEADER + 4 * i + 4 <= PAGE_SIZE && SlotAt(p, i) + stride <= PAGE_SIZE
    requires HEADER <= to && to + stride <= PAGE_SIZE
  {
    var off := SlotAt(p, i);
    PutBody(PutBody(p, to, p[off..off + stride]), HEADER + 4 * i, LE32(to))
  }

  lemma {:induction false} MovedBytes(p: page, i: nat, to: nat, stride: nat)
    requires HEADER + 4 * i + 4 <= to && to + stride <= PAGE_SIZE && SlotAt(p, i) + stride <= PAGE_SIZE
    ensures var q := Moved(p, i, to, stride);
      && SameHeader(p, q) && WroteOnly(p, q, HEADER + 4 * i, to, stride)
      && SlotAt(q, i) == to && q[to..to + stride] == p[SlotAt(p, i)..SlotAt(p, i) + stride]
  {
    SameWord(Moved(p, i, to, stride), HEADER + 4 * i, LE32(to), 0);
  }

  /** A move never reaches a slot or record that is still to be visited. */
  lemma {:induction false} MovedPending(p: page, q: page, cells: seq<Cell>, i: nat, right: int, stride: nat)
    requires Pending(p, cells, i, right) && i < |cells| && cells[i].At? && stride <= |cells[i].ext|
    requires SameHeader(p, q) && WroteOnly(p, q, HEADER + 4 * i, right - stride, stride)
    ensures Pending(q, cells, i + 1, right - stride)
  {
    forall k | i < k < |cells|
      ensures Holds(q, k, cells[k])
    {
      assert Holds(p, k, cells[k]);
      HoldsKept(p, q, k, cells[k]);
    }
  }

  predicate HoldsAll(p: page, c: seq<Cell>) {
    HEADER + 4 * |c| <= PAGE_SIZE && forall k :: 0 <= k < |c| ==> Holds(p, k, c[k])
  }

  /** Bytes `lo..hi` of the page belong to the slot table or to no record other than slot `i`'s. */
  predicate Clear(c: seq<Cell>, i: nat, lo: int, hi: int) {
    && HEADER + 4 * |c| <= lo
    && forall k :: 0 <= k < |c| && k != i && c[k].At? ==>
         HEADER + 4 * |c| <= c[k].off && (c[k].off + |c[k].ext| <= lo || hi <= c[k].off)
  }

  /** Moving a record onto clear bytes changes the place of that record and nothing else. */
  lemma {:induction false} MovedHolds(p: page, c: seq<Cell>, i: nat, to: nat)
    requires HoldsAll(p, c) && i < |c| && c[i].At? && to + |c[i].ext| <= PAGE_SIZE
    requires Clear(c, i, to, to + |c[i].ext|) && SlotAt(p, i) == c[i].off
    ensures HoldsAll(Moved(p, i, to, |c[i].ext|), c[i := At(to, c[i].ext)])
  {
    var q := Moved(p, i, to, |c[i].ext|);
    MovedBytes(p, i, to, |c[i].ext|);
    assert Holds(p, i, c[i]);
    forall k | 0 <= k < |c| && k != i
      ensures Holds(q, k, c[k])
    {
      assert Holds(p, k, c[k]);
      HoldsKept(p, q, k, c[k]);
    }
  }

  lemma {:induction false} PackingStep(a: Layout, i: nat)
    requires WF(a) && i < |a.cells|
    ensures Packing(a, i)[i] == a.cells[i]
    ensures Packing(a, i + 1) == Packing(a, i)[i := PackedCell(a, i)]
  {
  }

  /** A tombstone, or a record of the prefix before the first tombstone, is in its place already. */
  lemma {:induction false} PrefixStays(a: Layout, i: nat)
    requires WF(a) && i < |a.cells| && (a.cells[i].Dead? || AllLive(a.cells, i))
    ensures Packing(a, i + 1) == Packing(a, i)
  {
    assert PackedCell(a, i) == a.cells[i];
    PackingStep(a, i);
  }

  lemma {:induction false} PlaceOf(a: Layout, k: nat)
    requires WF(a) && k < |a.cells| && a.cells[k].At?
    ensures PackedCell(a, k).off + |a.cells[k].ext| == PAGE_SIZE - Used(a.cells, k, RECORD)
    ensures PackedCell(a, k).off == PAGE_SIZE - Used(a.cells, k + 1, RECORD)
    ensures HEADER + 4 * |a.cells| <= a.freeOffset <= a.cells[k].off <= PackedCell(a, k).off
    ensures RECORD <= |a.cells[k].ext|
  {
    Fits(a, k);
  }

  lemma {:induction false} ClearOf(a: Layout, i: nat, k: nat)
    requires WF(a) && i < |a.cells| && a.cells[i].At? && k < |a.cells| && a.cells[k].At?
    ensures i < k ==> a.cells[k].off + |a.cells[k].ext| <= PackedCell(a, i).off
    ensures k < i ==> PackedCell(a, i).off + |a.cells[i].ext| <= PackedCell(a, k).off
  {
    PlaceOf(a, i);
    PlaceOf(a, k);
    if k < i {
      UsedGrows(a, k + 1, i);
    }
  }

  lemma {:induction false} PackingClear(a: Layout, i: nat)
    requires WF(a) && i < |a.cells| && a.cells[i].At?
    ensures Clear(Packing(a, i), i, PackedCell(a, i).off, PackedCell(a, i).off + |a.cells[i].ext|)
  {
    PlaceOf(a, i);
    var c := Packing(a, i);
    forall k | 0 <= k < |a.cells| && k != i && c[k].At?
      ensures HEADER + 4 * |c| <= c[k].off
      ensures c[k].off + |c[k].ext| <= PackedCell(a, i).off || PackedCell(a, i).off + |a.cells[i].ext| <= c[k].off
    {
      PlaceOf(a, k);
      ClearOf(a, i, k);
    }
  }

  /** The bytes hold what compaction of `a` should have produced when it has passed `i` slots. */
  predicate Midway(p: page, a: Layout, i: nat, right: int)
    requires WF(a) && i <= |a.cells|
  {
    && p[..4] == MAGIC && NumSlots(p) == |a.cells| && SlotOffset(p) == HEADER + 4 * |a.cells|
    && FreeSpace(p) == a.freeSpace && right == PAGE_SIZE - Used(a.cells, i, RECORD)
    && HoldsAll(p, Packing(a, i))
  }

  lemma {:induction false} MidwayPending(p: page, a: Layout, i: nat, right: int)
    requires WF(a) && i <= |a.cells| && Midway(p, a, i, right)
    ensures Pending(p, a.cells, i, right)
  {
    Fits(a, i);
    forall k | i <= k < |a.cells|
      ensures Holds(p, k, a.cells[k])
      ensures a.cells[k].At? ==> a.cells[k].off + |a.cells[k].ext| <= right
    {
      assert Packing(a, i)[k] == a.cells[k];
      Fits(a, k);
      UsedGrows(a, i, k);
    }
  }

  lemma {:induction false} MidwayRoom(p: page, a: Layout, i: nat, right: int)
    requires WF(a) && i < |a.cells| && a.cells[i].At? && Midway(p, a, i, right)
    ensures SlotAt(p, i) == a.cells[i].off && a.cells[i].off + |a.cells[i].ext| <= PAGE_SIZE
    ensures HEADER + 4 * |a.cells| <= right - |a.cells[i].ext| == PackedCell(a, i).off
    ensures right <= PAGE_SIZE
  {
    assert Packing(a, i)[i] == a.cells[i];
    assert Holds(p, i, a.cells[i]);
    PlaceOf(a, i);
    Fits(a, i);
  }

  /** Moving slot `i` with insert's stride brings exactly its extent to exactly its packed place. */
  lemma {:induction false} MovedMidway(p: page, q: page, a: Layout, i: nat, right: nat, to: nat)
    requires WF(a) && i < |a.cells| && a.cells[i].At? && Midway(p, a, i, right) && to == right - |a.cells[i].ext|
    requires SlotAt(p, i) + |a.cells[i].ext| <= PAGE_SIZE
    requires HEADER + 4 * |a.cells| <= to && right <= PAGE_SIZE
    requires q == Moved(p, i, to, |a.cells[i].ext|)
    ensures Midway(q, a, i + 1, to)
  {
    MidwayRoom(p, a, i, right);
    PackingClear(a, i);
    MovedBytes(p, i, to, |a.cells[i].ext|);
    MovedHolds(p, Packing(a, i), i, to);
    PackingStep(a, i);
    assert PackedCell(a, i) == At(to, a.cells[i].ext);
    MidwayNext(p, q, a, i, right, to);
  }

  lemma {:induction false} MidwayNext(p: page, q: page, a: Layout, i: nat, right: nat, to: nat)
    requires WF(a) && i < |a.cells| && a.cells[i].At? && Midway(p, a, i, right) && to == right - |a.cells[i].ext|
    requires SameHeader(p, q) && HoldsAll(q, Packing(a, i + 1))
    ensures Midway(q, a, i + 1, to)
  {
  }

  lemma {:induction false} PackedHeader(p: page, a: Layout, right: nat)
    requires WF(a) && Midway(p, a, |a.cells|, right) && right <= PAGE_SIZE
    ensures Rep(SetField(p, 24, right), Packed(a))
  {
    var q := SetField(p, 24, right);
    var c := Packing(a, |a.cells|);
    forall k | 0 <= k < |c|
      ensures Holds(q, k, c[k])
    {
      assert Holds(p, k, c[k]);
      if c[k].At? {
        PlaceOf(a, k);
      }
      HoldsKept(p, q, k, c[k]);
    }
  }

  lemma {:induction false} MidwayPassed(p: page, a: Layout, i: nat, right: int)
    requires WF(a) && i < |a.cells| && (a.cells[i].Dead? || AllLive(a.cells, i)) && Midway(p, a, i, right)
    ensures Midway(p, a, i + 1, if a.cells[i].At? then right - |a.cells[i].ext| else right)
  {
    PrefixStays(a, i);
  }

  /** `i` slots are compacted as they should be; nothing is moved before the first tombstone. */
  predicate OnCourse(p: page, a: Layout, i: nat, right: int, moving: bool)
    requires WF(a) && i <= |a.cells|
  {
    Midway(p, a, i, right) && (moving || AllLive(a.cells, i))
  }

  predicate CanTurn(p: page, i: nat, right: nat, stride: nat) {
    HEADER + 4 * i + 4 <= right - stride && right <= PAGE_SIZE && SlotAt(p, i) + stride <= PAGE_SIZE
  }

  /** What the loop of _recoverSpace holds when it comes to a slot. */
  datatype Visit = Visit(p: page, right: nat, moving: bool)

  /** Pass the record of slot `i`, moving it if a tombstone has been met; None if it would leave the page. */
  function Pass(v: Visit, i: nat, stride: nat): (w: Option<Visit>)
    ensures w.Some? ==> NumSlots(w.value.p) == NumSlots(v.p) && w.value.right <= v.right
  {
    if !CanTurn(v.p, i, v.right, stride) then None
    else Some(Visit(if v.moving then Moved(v.p, i, v.right - stride, stride) else v.p, v.right - stride, v.moving))
  }

  /** The body of the loop of _recoverSpace at slot `i`; None if the slot points out of the page. */
  function Turn(v: Visit, i: nat, hdr: nat): (w: Option<Visit>)
    ensures w.Some? ==> NumSlots(w.value.p) == NumSlots(v.p) && w.value.right <= v.right
  {
    if HEADER + 4 * i + 4 > PAGE_SIZE then None
    else if SlotAt(v.p, i) == EMPTY then Some(v.(moving := true))
    else if SlotAt(v.p, i) + 4 > PAGE_SIZE then None
    else Pass(v, i, hdr + U32(v.p, SlotAt(v.p, i)))
  }

  /** The loop from slot `i` on. */
  function Loop(v: Visit, i: nat, hdr: nat): (w: Option<Visit>)
    ensures w.Some? ==> w.value.right <= v.right
    decreases NumSlots(v.p) - i
  {
    if i >= NumSlots(v.p) then Some(v)
    else match Turn(v, i, hdr) case None => None case Some(w) => Loop(w, i + 1, hdr)
  }

  /** Nothing to move on a page of tombstones. */
  lemma {:induction false} LoopDead(v: Visit, i: nat, hdr: nat)
    requires HEADER + 4 * NumSlots(v.p) <= PAGE_SIZE
    requires forall k :: i <= k < NumSlots(v.p) ==> SlotAt(v.p, k) == EMPTY
    ensures Loop(v, i, hdr).Some? && Loop(v, i, hdr).value.p == v.p && Loop(v, i, hdr).value.right == v.right
    decreases NumSlots(v.p) - i
  {
    if i < NumSlots(v.p) {
      LoopDead(v.(moving := true), i + 1, hdr);
    }
  }

  lemma {:induction false} RecoverDead(p: page, a: Layout, i: nat, right: nat, moving: bool)
    requires WF(a) && Pending(p, a.cells, i, right) && i < |a.cells| && SlotAt(p, i) == EMPTY
    ensures Pending(p, a.cells, i + 1, right)
    ensures OnCourse(p, a, i, right, moving) ==> OnCourse(p, a, i + 1, right, true)
  {
    PendingSize(p, a.cells, i, right);
    if Midway(p, a, i, right) {
      MidwayPassed(p, a, i, right);
    }
  }

  lemma {:induction false} TurnRoom(p: page, a: Layout, i: nat, right: nat, stride: nat)
    requires Pending(p, a.cells, i, right) && i < |a.cells| && a.cells[i].At? && stride <= |a.cells[i].ext|
    ensures HEADER + 4 * |a.cells| <= right - stride && SlotAt(p, i) + stride <= PAGE_SIZE
  {
    PendingSize(p, a.cells, i, right);
  }

  lemma {:induction false} TurnMoves(p: page, q: page, a: Layout, i: nat, right: nat, stride: nat)
    requires WF(a) && Pending(p, a.cells, i, right) && i < |a.cells| && a.cells[i].At? && stride <= |a.cells[i].ext|
    requires HEADER + 4 * |a.cells| <= right - stride && SlotAt(p, i) + stride <= PAGE_SIZE
    requires q == Moved(p, i, right - stride, stride)
    ensures Pending(q, a.cells, i + 1, right - stride) && SameHeader(p, q)
    ensures stride == |a.cells[i].ext| && Midway(p, a, i, right) ==> Midway(q, a, i + 1, right - stride)
  {
    MovedBytes(p, i, right - stride, stride);
    MovedPending(p, q, a.cells, i, right, stride);
    if stride == |a.cells[i].ext| && Midway(p, a, i, right) {
      MovedMidway(p, q, a, i, right, right - stride);
    }
  }

  /** The loop has come to slot `i` of a page that began as `p`; with insert's stride it is on course. */
  ghost predicate Underway(p: page, a: Layout, hdr: nat, v: Visit, i: nat)
    requires WF(a)
  {
    && i <= |a.cells| && Pending(v.p, a.cells, i, v.right) && SameHeader(p, v.p)
    && v.right == PAGE_SIZE - Used(a.cells, i, hdr)
    && (hdr == RECORD ==> OnCourse(v.p, a, i, v.right, v.moving))
  }

  lemma {:induction false} TurnPasses(v: Visit, i: nat, hdr: nat, stride: nat)
    requires HEADER + 4 * i + 4 <= PAGE_SIZE && SlotAt(v.p, i) != EMPTY && SlotAt(v.p, i) + 4 <= PAGE_SIZE
    requires stride == hdr + U32(v.p, SlotAt(v.p, i))
    ensures Turn(v, i, hdr) == Pass(v, i, stride)
  {
  }

  lemma {:induction false} MovingTurn(p: page, a: Layout, hdr: nat, v: Visit, i: nat, stride: nat, q: page)
    requires WF(a) && Underway(p, a, hdr, v, i) && hdr <= RECORD && i < |a.cells| && a.cells[i].At? && v.moving
    requires stride == hdr + |a.cells[i].ext| - RECORD && SlotAt(v.p, i) + stride <= PAGE_SIZE
    requires HEADER + 4 * |a.cells| <= v.right - stride && q == Moved(v.p, i, v.right - stride, stride)
    ensures Underway(p, a, hdr, Visit(q, v.right - stride, true), i + 1)
  {
    TurnMoves(v.p, q, a, i, v.right, stride);
  }

  lemma {:induction false} StillTurn(p: page, a: Layout, hdr: nat, v: Visit, i: nat, stride: nat)
    requires WF(a) && Underway(p, a, hdr, v, i) && hdr <= RECORD && i < |a.cells| && a.cells[i].At? && !v.moving
    requires stride == hdr + |a.cells[i].ext| - RECORD && HEADER + 4 * |a.cells| <= v.right - stride
    ensures Underway(p, a, hdr, Visit(v.p, v.right - stride, false), i + 1)
  {
    if hdr == RECORD {
      MidwayPassed(v.p, a, i, v.right);
    }
  }

  lemma {:induction false} LiveTurn(p: page, a: Layout, hdr: nat, v: Visit, i: nat, stride: nat) returns (w: Visit)
    requires WF(a) && Underway(p, a, hdr, v, i) && hdr <= RECORD && i < |a.cells| && a.cells[i].At?
    requires SlotAt(v.p, i) == a.cells[i].off != EMPTY && U32(v.p, SlotAt(v.p, i)) == |a.cells[i].ext| - RECORD
    requires stride == hdr + |a.cells[i].ext| - RECORD
    ensures Turn(v, i, hdr) == Some(w) && Underway(p, a, hdr, w, i + 1)
  {
    TurnRoom(v.p, a, i, v.right, stride);
    TurnPasses(v, i, hdr, stride);
    w := Pass(v, i, stride).value;
    if v.moving {
      MovingTurn(p, a, hdr, v, i, stride, w.p);
    } else {
      StillTurn(p, a, hdr, v, i, stride);
    }
  }

  lemma {:induction false} DeadTurn(p: page, a: Layout, hdr: nat, v: Visit, i: nat)
    requires WF(a) && Underway(p, a, hdr, v, i) && i < |a.cells| && SlotAt(v.p, i) == EMPTY
    ensures Turn(v, i, hdr) == Some(v.(moving := true)) && Underway(p, a, hdr, v.(moving := true), i + 1)
  {
    PendingSize(v.p, a.cells, i, v.right);
    RecoverDead(v.p, a, i, v.right, v.moving);
  }

  /** Every turn of the loop succeeds and keeps it underway. */
  lemma {:induction false} TurnKeeps(p: page, a: Layout, hdr: nat, v: Visit, i: nat) returns (w: Visit)
    requires WF(a) && Underway(p, a, hdr, v, i) && hdr <= RECORD && i < |a.cells|
    ensures Turn(v, i, hdr) == Some(w) && Underway(p, a, hdr, w, i + 1)
  {
    PendingSize(v.p, a.cells, i, v.right);
    if SlotAt(v.p, i) == EMPTY {
      w := v.(moving := true);
      DeadTurn(p, a, hdr, v, i);
    } else {
      w := LiveTurn(p, a, hdr, v, i, hdr + |a.cells[i].ext| - RECORD);
    }
  }

  /** What holds when the loop starts and is kept by each turn holds when it ends. */
  lemma {:induction false} LoopKeeps(v: Visit, i: nat, hdr: nat, inv: (Visit, nat) -> bool) returns (e: Visit)
    requires i <= NumSlots(v.p) && inv(v, i)
    requires forall w: Visit, k: nat {:trigger Turn(w, k, hdr)} :: inv(w, k) && k < NumSlots(w.p) ==>
      Turn(w, k, hdr).Some? && inv(Turn(w, k, hdr).value, k + 1)
    ensures Loop(v, i, hdr) == Some(e) && inv(e, NumSlots(e.p))
    decreases NumSlots(v.p) - i
  {
    if i == NumSlots(v.p) {
      e := v;
    } else {
      e := LoopKeeps(Turn(v, i, hdr).value, i + 1, hdr, inv);
    }
  }

  /** The loop runs to its end, and with insert's stride leaves every record in its packed place. */
  lemma {:induction false} LoopCompacts(p: page, a: Layout, hdr: nat) returns (e: Visit)
    requires WF(a) && Underway(p, a, hdr, Visit(p, PAGE_SIZE, false), 0) && hdr <= RECORD
    ensures Loop(Visit(p, PAGE_SIZE, false), 0, hdr) == Some(e) && Underway(p, a, hdr, e, |a.cells|)
  {
    forall w: Visit, k: nat | Underway(p, a, hdr, w, k) && k < NumSlots(w.p)
      ensures Turn(w, k, hdr).Some? && Underway(p, a, hdr, Turn(w, k, hdr).value, k + 1)
    {
      var x := TurnKeeps(p, a, hdr, w, k);
    }
    e := LoopKeeps(Visit(p, PAGE_SIZE, false), 0, hdr, (w: Visit, k: nat) => Underway(p, a, hdr, w, k));
  }

  lemma {:induction false} LoopStarts(p: page, a: Layout, hdr: nat)
    requires Rep(p, a) && WF(a)
    ensures Underway(p, a, hdr, Visit(p, PAGE_SIZE, false), 0)
  {
    assert Packing(a, 0) == a.cells;
    MidwayPending(p, a, 0, PAGE_SIZE);
  }
}
