/** What holds of the bytes of every page of every store a run can reach. */
module Reachable {
  import opened Bytes
  import opened Page
  import opened PageBytes
  import opened PageOps
  import opened Dms
  import opened Refinement
  import opened Rtn
  import opened Runs

  /** The store a run ends in. */
  ghost function Final(env: Env, s: Store, ops: seq<Op>): (t: Store)
    requires Shaped(s) && forall op :: op in ops ==> Proper(op)
    decreases |ops|
  {
    if ops == [] then s
    else Final(env, Step(env, s, ops[0], RECORD).0, ops[1..])
  }

  lemma {:induction false} FinalHolds(env: Env, s: Store, m: Table, ops: seq<Op>) returns (n: Table)
    requires Represents(env, s, m) && forall op :: op in ops ==> Proper(op)
    ensures Represents(env, Final(env, s, ops), n)
    decreases |ops|
  {
    if ops == [] {
      n := m;
    } else {
      var r := Step(env, s, ops[0], RECORD);
      StepConforms(env, s, m, ops[0]);
      n := FinalHolds(env, r.0, After(env, m, ops[0], r.1), ops[1..]);
    }
  }

  /** The end of the record slot `k` points at: header, then as many bytes as the header says. */
  function RecordEnd(p: page, k: nat): nat
    requires HEADER + 4 * k + 4 <= PAGE_SIZE && SlotAt(p, k) + 4 <= PAGE_SIZE
  {
    SlotAt(p, k) + 8 + U32(p, SlotAt(p, k))
  }

  predicate LiveAt(p: page, k: nat)
    requires HEADER + 4 * k + 4 <= PAGE_SIZE
  {
    SlotAt(p, k) != EMPTY
  }

  /** Records lie between the free offset and the end of the page. */
  predicate InBounds(p: page)
    requires HEADER + 4 * NumSlots(p) <= PAGE_SIZE
  {
    forall k :: 0 <= k < NumSlots(p) && LiveAt(p, k) ==>
      FreeOffset(p) <= SlotAt(p, k) && SlotAt(p, k) + 8 <= PAGE_SIZE && RecordEnd(p, k) <= PAGE_SIZE
  }

  /** A record of a later slot ends where one of an earlier slot starts, or below. */
  predicate Disjoint(p: page)
    requires HEADER + 4 * NumSlots(p) <= PAGE_SIZE && InBounds(p)
  {
    forall j, k :: 0 <= j < k < NumSlots(p) && LiveAt(p, j) && LiveAt(p, k) ==> RecordEnd(p, k) <= SlotAt(p, j)
  }

  /** Bytes of the live records among the first `n` slots, without their headers. */
  function LiveBytes(p: page, n: nat): nat
    requires n <= NumSlots(p) && HEADER + 4 * NumSlots(p) <= PAGE_SIZE && InBounds(p)
  {
    if n == 0 then 0 else LiveBytes(p, n - 1) + if LiveAt(p, n - 1) then U32(p, SlotAt(p, n - 1)) else 0
  }

  lemma {:induction false} CellOf(p: page, k: nat)
    requires PageBytes.Valid(p) && k < NumSlots(p)
    ensures HEADER + 4 * k + 4 <= PAGE_SIZE && LiveAt(p, k) == Decode(p).cells[k].At?
    ensures LiveAt(p, k) ==>
      && FreeOffset(p) <= SlotAt(p, k) == Decode(p).cells[k].off
      && SlotAt(p, k) + 8 <= PAGE_SIZE && RecordEnd(p, k) == SlotAt(p, k) + |Decode(p).cells[k].ext| <= PAGE_SIZE
      && U32(p, SlotAt(p, k)) == |Decode(p).cells[k].ext| - RECORD
  {
    var c := Decode(p).cells[k];
    assert Holds(p, k, c);
    if c.At? {
      SameWord(p, c.off, c.ext, 0) by { assert p[c.off..c.off + |c.ext|] == c.ext; }
    }
  }

  lemma {:induction false} LiveBytesUsed(p: page, n: nat)
    requires PageBytes.Valid(p) && n <= NumSlots(p) && HEADER + 4 * NumSlots(p) <= PAGE_SIZE && InBounds(p)
    ensures LiveBytes(p, n) == Used(Decode(p).cells, n, 0)
  {
    if n > 0 {
      LiveBytesUsed(p, n - 1);
      CellOf(p, n - 1);
    }
  }

  lemma {:induction false} PageExtents(p: page)
    requires PageBytes.Valid(p)
    ensures HEADER + 4 * NumSlots(p) <= PAGE_SIZE && InBounds(p) && Disjoint(p)
  {
    forall k | 0 <= k < NumSlots(p) && LiveAt(p, k)
      ensures FreeOffset(p) <= SlotAt(p, k) && SlotAt(p, k) + 8 <= PAGE_SIZE && RecordEnd(p, k) <= PAGE_SIZE
    {
      CellOf(p, k);
    }
    forall j, k | 0 <= j < k < NumSlots(p) && LiveAt(p, j) && LiveAt(p, k)
      ensures RecordEnd(p, k) <= SlotAt(p, j)
    {
      CellOf(p, j);
      CellOf(p, k);
    }
  }

  /** The layout of a page, on its bytes; every byte is free, in a record, or charged to a slot. */
  predicate LaidOut(p: page) {
    && SlotOffset(p) == 28 + 4 * NumSlots(p) <= FreeOffset(p) <= 4194304
    && InBounds(p) && Disjoint(p)
    && FreeSpace(p) + LiveBytes(p, NumSlots(p)) + 12 * NumSlots(p) + 28 == 4194304
  }

  lemma {:induction false} ValidLaidOut(p: page)
    requires PageBytes.Valid(p)
    ensures LaidOut(p)
  {
    PageExtents(p);
    LiveBytesUsed(p, NumSlots(p));
  }

  /**
   After any run from a new file every page is laid out as it should be, and the free-space multimap
   holds exactly one entry per page, keyed by the counter in that page's header.
   */
  lemma {:induction false} PagesOfRuns(env: Env, room: nat, ops: seq<Op>)
    requires forall op :: op in ops ==> Proper(op)
    ensures Sane(New(room))
    ensures var f := Final(env, New(room), ops).file;
      (forall i :: 0 <= i < |f.pages| ==> LaidOut(f.pages[i])) && Catalogued(f.pages, f.free)
  {
    NewHolds(env, room);
    var m := FinalHolds(env, New(room), map[], ops);
    SaneLaidOut(Final(env, New(room), ops).file);
  }

  lemma {:induction false} SaneLaidOut(f: File)
    requires Dms.Valid(f)
    ensures (forall i :: 0 <= i < |f.pages| ==> LaidOut(f.pages[i])) && Catalogued(f.pages, f.free)
  {
    forall i | 0 <= i < |f.pages|
      ensures LaidOut(f.pages[i])
    {
      ValidLaidOut(f.pages[i]);
    }
  }
}
