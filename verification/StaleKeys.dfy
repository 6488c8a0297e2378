/**
 When the records of a page, and so the raw pointers to keys that the index keeps, stay where they are
 during an insert: the condition on the slot table.
 */
module StaleKeys {
  import opened Bytes
  import opened Page
  import opened PageBytes
  import opened PageOps
  import opened Dms
  import opened Reachable

  // ---------------------------------------------------------------- exactly when pointers survive

  /** Where the live record before slot `k` starts; the end of the page if there is none. */
  function EndFor(p: page, k: nat): nat
    requires HEADER + 4 * k <= PAGE_SIZE
  {
    if k == 0 then PAGE_SIZE else if LiveAt(p, k - 1) then SlotAt(p, k - 1) else EndFor(p, k - 1)
  }

  /** Each live record ends where the live record before it begins, the first one at the end of the page. */
  predicate GapFree(p: page)
    requires HEADER + 4 * NumSlots(p) <= PAGE_SIZE && InBounds(p)
  {
    forall k: nat :: k < NumSlots(p) && LiveAt(p, k) ==> RecordEnd(p, k) == EndFor(p, k)
  }

  predicate InPlaceUpTo(a: Layout, n: nat)
    requires n <= |a.cells|
  {
    forall k: nat :: k < n && a.cells[k].At? ==> a.cells[k].off + |a.cells[k].ext| == PAGE_SIZE - Used(a.cells, k, RECORD)
  }

  /** The first `k` slots are those of the layout. */
  predicate Tabled(p: page, a: Layout, k: nat) {
    k <= |a.cells| && HEADER + 4 * k <= PAGE_SIZE
    && forall j: nat :: j < k ==> LiveAt(p, j) == a.cells[j].At? && (a.cells[j].At? ==> SlotAt(p, j) == a.cells[j].off)
  }

  lemma {:induction false} IsTabled(p: page, k: nat)
    requires PageBytes.Valid(p) && k <= NumSlots(p)
    ensures Tabled(p, Decode(p), k)
  {
    PageExtents(p);
    forall j: nat | j < k
      ensures LiveAt(p, j) == Decode(p).cells[j].At? && (Decode(p).cells[j].At? ==> SlotAt(p, j) == Decode(p).cells[j].off)
    {
      CellOf(p, j);
    }
  }

  lemma {:induction false} EndIs(p: page, a: Layout, k: nat)
    requires PageBytes.Valid(p) && a == Decode(p) && k <= NumSlots(p) && HEADER + 4 * k <= PAGE_SIZE && InPlaceUpTo(a, k)
    ensures EndFor(p, k) == PAGE_SIZE - Used(a.cells, k, RECORD)
  {
    IsTabled(p, k);
    EndTabled(p, a, k);
  }

  lemma {:induction false} EndTabled(p: page, a: Layout, k: nat)
    requires Tabled(p, a, k) && InPlaceUpTo(a, k)
    ensures EndFor(p, k) == PAGE_SIZE - Used(a.cells, k, RECORD)
  {
    if k > 0 {
      if LiveAt(p, k - 1) {
        EndLive(p, a, k);
      } else {
        FewerInPlace(a, k);
        EndTabled(p, a, k - 1);
        EndDead(p, a, k);
      }
    }
  }

  lemma FewerInPlace(a: Layout, k: nat)
    requires 0 < k <= |a.cells| && InPlaceUpTo(a, k)
    ensures InPlaceUpTo(a, k - 1)
  {
  }

  lemma EndLive(p: page, a: Layout, k: nat)
    requires 0 < k <= |a.cells| && HEADER + 4 * k <= PAGE_SIZE && InPlaceUpTo(a, k) && LiveAt(p, k - 1)
    requires a.cells[k - 1].At? && SlotAt(p, k - 1) == a.cells[k - 1].off
    ensures EndFor(p, k) == PAGE_SIZE - Used(a.cells, k, RECORD)
  {
    UsedStep(a.cells, k);
  }

  lemma EndDead(p: page, a: Layout, k: nat)
    requires 0 < k <= |a.cells| && HEADER + 4 * k <= PAGE_SIZE && !LiveAt(p, k - 1) && !a.cells[k - 1].At?
    requires EndFor(p, k - 1) == PAGE_SIZE - Used(a.cells, k - 1, RECORD)
    ensures EndFor(p, k) == PAGE_SIZE - Used(a.cells, k, RECORD)
  {
    UsedStep(a.cells, k);
  }

  lemma UsedStep(cells: seq<Cell>, n: nat)
    requires 0 < n <= |cells|
    ensures Used(cells, n, RECORD) == Used(cells, n - 1, RECORD) + if cells[n - 1].At? then |cells[n - 1].ext| else 0
  {
  }

  lemma {:induction false} NextInPlace(p: page, a: Layout, k: nat)
    requires PageBytes.Valid(p) && a == Decode(p) && k < NumSlots(p) && InPlaceUpTo(a, k) && HEADER + 4 * k + 4 <= PAGE_SIZE
    requires a.cells[k].At? ==> a.cells[k].off + |a.cells[k].ext| == EndFor(p, k)
    ensures InPlaceUpTo(a, k + 1)
  {
    EndIs(p, a, k);
    OneFurther(a, k);
  }

  lemma OneFurther(a: Layout, k: nat)
    requires k < |a.cells| && InPlaceUpTo(a, k)
    requires a.cells[k].At? ==> a.cells[k].off + |a.cells[k].ext| == PAGE_SIZE - Used(a.cells, k, RECORD)
    ensures InPlaceUpTo(a, k + 1)
  {
  }

  lemma {:induction false} GapFreeUpTo(p: page, a: Layout, n: nat)
    requires PageBytes.Valid(p) && a == Decode(p) && HEADER + 4 * NumSlots(p) <= PAGE_SIZE && InBounds(p) && GapFree(p)
    requires n <= NumSlots(p)
    ensures InPlaceUpTo(a, n)
  {
    if n > 0 {
      GapFreeUpTo(p, a, n - 1);
      CellOf(p, n - 1);
      NextInPlace(p, a, n - 1);
    }
  }

  lemma {:induction false} InPlaceGapFree(p: page, a: Layout)
    requires PageBytes.Valid(p) && a == Decode(p) && HEADER + 4 * NumSlots(p) <= PAGE_SIZE && InBounds(p)
    requires InPlaceUpTo(a, NumSlots(p))
    ensures GapFree(p)
  {
    forall k: nat | k < NumSlots(p) && LiveAt(p, k)
      ensures RecordEnd(p, k) == EndFor(p, k)
    {
      CellOf(p, k);
      EndIs(p, a, k);
    }
  }

  lemma {:induction false} PackedInPlace(a: Layout)
    requires WF(a)
    ensures AlreadyPacked(a) <==> InPlaceUpTo(a, |a.cells|)
  {
    forall k: nat | k < |a.cells|
      ensures PackedCell(a, k) == a.cells[k] <==>
        (a.cells[k].At? ==> a.cells[k].off + |a.cells[k].ext| == PAGE_SIZE - Used(a.cells, k, RECORD))
    {
    }
  }

  /** Compaction has nothing to do exactly on pages without gaps. */
  lemma {:induction false} PackedIff(p: page)
    requires PageBytes.Valid(p)
    ensures HEADER + 4 * NumSlots(p) <= PAGE_SIZE && InBounds(p)
    ensures AlreadyPacked(Decode(p)) <==> GapFree(p)
  {
    PageExtents(p);
    PackedInPlace(Decode(p));
    if GapFree(p) {
      GapFreeUpTo(p, Decode(p), NumSlots(p));
    } else if InPlaceUpTo(Decode(p), NumSlots(p)) {
      InPlaceGapFree(p, Decode(p));
    }
  }

  /**
   Raw pointers into a page survive an insert exactly when it does not compact the page or there are
   no gaps between the live records.
   */
  lemma {:induction false} PointersSurvive(p: page, data: seq<byte>)
    requires PageBytes.Valid(p) && IsObj(data) && |data| < MAX_OBJECT
    ensures HEADER + 4 * NumSlots(p) <= PAGE_SIZE && InBounds(p)
    ensures SamePlaces(p, InsertInto(p, data, RECORD).p) <==> !MustCompact(p, |data|) || GapFree(p)
  {
    PackedIff(p);
    PointersSurviveIff(p, data);
  }
}
