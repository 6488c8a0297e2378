/**
 The storage file as a value: its pages, its free-space multimap, and how many more segments the
 disk can take (the one thing about the operating system the code's behaviour depends on).
 */
module Dms {
  import opened Bytes
  import opened Page
  import opened PageBytes
  import opened PageOps
  import opened FreeMap

  const PAGES_PER_SEGMENT: int := 32
  const MAX_OBJECT: int := 0x8000_0000   // objsize() is a signed int

  datatype RecordID = RecordID(page: nat, slot: nat)

  /** `blank` is the image a page has once _extendSegment has mapped it and copied the header to it. */
  datatype File = File(segments: nat, pages: seq<page>, free: seq<Entry>, room: nat, blank: page)

  datatype Inserted = Stored(file: File, rid: RecordID) | Failed(file: File)

  function EntryOf(pages: seq<page>, i: nat): Entry
    requires i < |pages|
  {
    Entry(FreeSpace(pages[i]), i)
  }

  /** One entry per page, keyed by the page's own counter. */
  function Entries(pages: seq<page>): (e: seq<Entry>)
    ensures |e| == |pages| && forall i :: 0 <= i < |e| ==> e[i] == EntryOf(pages, i)
  {
    if |pages| == 0 then [] else Entries(pages[..|pages| - 1]) + [EntryOf(pages, |pages| - 1)]
  }

  /** The multimap holds exactly one entry per page, keyed by that page's counter. */
  predicate Catalogued(pages: seq<page>, free: seq<Entry>) {
    Sorted(free) && multiset(free) == multiset(Entries(pages))
  }

  predicate Valid(f: File) {
    && (forall i {:trigger PageBytes.Valid(f.pages[i])} :: 0 <= i < |f.pages| ==> PageBytes.Valid(f.pages[i]))
    && PageBytes.Valid(f.blank) && NumSlots(f.blank) == 0 && FreeSpace(f.blank) == PAGE_SIZE - HEADER
    && |f.pages| == 32 * f.segments
    && Catalogued(f.pages, f.free)
  }

  /** The record in a slot of a page, if any. */
  function InSlot(p: page, slot: nat): Option<seq<byte>> {
    if PageBytes.Valid(p) && slot < NumSlots(p) then Contents(p)[slot] else None
  }

  /** The record an id stands for, if any. */
  function Record(f: File, rid: RecordID): Option<seq<byte>> {
    if rid.page < |f.pages| then InSlot(f.pages[rid.page], rid.slot) else None
  }

  lemma InFree(pages: seq<page>, free: seq<Entry>, e: Entry)
    requires Catalogued(pages, free)
    ensures e in free <==> e.page < |pages| && e == EntryOf(pages, e.page)
    ensures |free| == |pages|
  {
    assert e in free <==> e in multiset(free);
    assert e in Entries(pages) <==> e in multiset(Entries(pages));
    if e.page < |pages| {
      assert Entries(pages)[e.page] == EntryOf(pages, e.page);
    }
    assert |free| == |multiset(free)| && |Entries(pages)| == |multiset(Entries(pages))|;
  }

  /** The memory that follows page `id`: the later pages of its segment, mapped one behind the other. */
  function Behind(pages: seq<page>, id: nat): seq<byte>
    decreases |pages| - id
  {
    if id + 1 >= |pages| || (id + 1) % 32 == 0 then [] else pages[id + 1] + Behind(pages, id + 1)
  }

  // ---------------------------------------------------------------- choosing a page

  /** _findPage: the first page under a key greater than the size asked for. */
  function FindPage(free: seq<Entry>, size: nat): Option<nat>
    requires Sorted(free)
  {
    var n := UpperBound(free, size);
    if n < |free| then Some(free[n].page) else None
  }

  /** Best fit: the least counter above the size; none only if no page has more than the size. */
  lemma {:induction false} FindPageBestFit(pages: seq<page>, free: seq<Entry>, size: nat)
    requires Catalogued(pages, free)
    ensures match FindPage(free, size)
      case Some(id) =>
        && id < |pages| && size < FreeSpace(pages[id])
        && (forall i :: 0 <= i < |pages| && size < FreeSpace(pages[i]) ==> FreeSpace(pages[id]) <= FreeSpace(pages[i]))
      case None => forall i :: 0 <= i < |pages| ==> FreeSpace(pages[i]) <= size
  {
    var n := UpperBound(free, size);
    if n < |free| {
      InFree(pages, free, free[n]);
    }
    forall i | 0 <= i < |pages| && size < FreeSpace(pages[i])
      ensures n < |free| && free[n].space <= FreeSpace(pages[i])
    {
      InFree(pages, free, EntryOf(pages, i));
      var j :| 0 <= j < |free| && free[j] == EntryOf(pages, i);
    }
  }

  // ---------------------------------------------------------------- growing the file

  /** The entries of fresh pages numbered from `first` up to `end`. */
  function FreshEntries(first: nat, end: nat): (e: seq<Entry>)
    requires first <= end
    ensures |e| == end - first && forall i :: 0 <= i < |e| ==> e[i] == Entry(PAGE_SIZE - HEADER, first + i)
    decreases end - first
  {
    if first == end then [] else [Entry(PAGE_SIZE - HEADER, first)] + FreshEntries(first + 1, end)
  }

  /** The loop of _extendSegment that enters each new page. */
  function AddPages(free: seq<Entry>, first: nat, end: nat): (r: seq<Entry>)
    requires Sorted(free) && first <= end
    ensures Sorted(r)
    decreases end - first
  {
    if first == end then free
    else AddPages(Added(free, Entry(PAGE_SIZE - HEADER, first)), first + 1, end)
  }

  lemma {:induction false} AddPagesAdds(free: seq<Entry>, first: nat, end: nat)
    requires Sorted(free) && first <= end
    ensures multiset(AddPages(free, first, end)) == multiset(free) + multiset(FreshEntries(first, end))
    decreases end - first
  {
    if first < end {
      AddPagesAdds(Added(free, Entry(PAGE_SIZE - HEADER, first)), first + 1, end);
    }
  }

  /** The file grown to `n` pages. */
  function GrownTo(pages: seq<page>, blank: page, n: nat): (r: seq<page>)
    requires |pages| <= n
    ensures |r| == n
    decreases n - |pages|
  {
    if |pages| == n then pages else GrownTo(pages + [blank], blank, n)
  }

  lemma {:induction false} GrownToIs(pages: seq<page>, blank: page, n: nat, i: nat)
    requires |pages| <= n && i < n
    ensures GrownTo(pages, blank, n)[i] == if i < |pages| then pages[i] else blank
    decreases n - |pages|
  {
    if |pages| < n {
      GrownToIs(pages + [blank], blank, n, i);
    }
  }

  lemma {:induction false} GrownToAll(pages: seq<page>, blank: page, n: nat)
    requires |pages| <= n
    ensures forall i :: 0 <= i < n ==> GrownTo(pages, blank, n)[i] == if i < |pages| then pages[i] else blank
  {
    forall i | 0 <= i < n
      ensures GrownTo(pages, blank, n)[i] == if i < |pages| then pages[i] else blank
    {
      GrownToIs(pages, blank, n, i);
    }
  }

  /** The new pages are numbered from the size of the multimap on. */
  function Extended(f: File): File
    requires Sorted(f.free) && 0 < f.room
  {
    f.(segments := f.segments + 1,
       pages := GrownTo(f.pages, f.blank, |f.pages| + PAGES_PER_SEGMENT),
       free := AddPages(f.free, |f.free|, |f.free| + PAGES_PER_SEGMENT),
       room := f.room - 1)
  }

  lemma {:induction false} GrownEntries(pages: seq<page>, blank: page, g: seq<page>)
    requires FreeSpace(blank) == PAGE_SIZE - HEADER && |pages| <= |g|
    requires forall i :: 0 <= i < |g| ==> g[i] == if i < |pages| then pages[i] else blank
    ensures multiset(Entries(g)) == multiset(Entries(pages)) + multiset(FreshEntries(|pages|, |g|))
  {
    assert Entries(g) == Entries(pages) + FreshEntries(|pages|, |g|);
  }

  lemma {:induction false} GrownCatalogue(pages: seq<page>, free: seq<Entry>, blank: page, n: nat)
    requires Catalogued(pages, free) && FreeSpace(blank) == PAGE_SIZE - HEADER && |pages| <= n
    ensures |free| == |pages| && Catalogued(GrownTo(pages, blank, n), AddPages(free, |pages|, n))
  {
    InFree(pages, free, Entry(0, 0));
    AddPagesAdds(free, |pages|, n);
    GrownToAll(pages, blank, n);
    GrownEntries(pages, blank, GrownTo(pages, blank, n));
  }

  lemma {:induction false} ExtendedPages(f: File)
    requires Valid(f) && 0 < f.room
    ensures forall i :: 0 <= i < |Extended(f).pages| ==> PageBytes.Valid(Extended(f).pages[i])
  {
    GrownToAll(f.pages, f.blank, |f.pages| + PAGES_PER_SEGMENT);
  }

  lemma {:induction false} ExtendedCatalogue(f: File)
    requires Valid(f) && 0 < f.room
    ensures Catalogued(Extended(f).pages, Extended(f).free) && |Extended(f).pages| == 32 * (f.segments + 1)
  {
    GrownCatalogue(f.pages, f.free, f.blank, |f.pages| + PAGES_PER_SEGMENT);
  }

  lemma {:induction false} ExtendedValid(f: File)
    requires Valid(f) && 0 < f.room
    ensures Valid(Extended(f))
  {
    ExtendedPages(f);
    ExtendedCatalogue(f);
  }

  lemma {:induction false} ExtendedRecord(f: File, rid: RecordID)
    requires Sorted(f.free) && 0 < f.room && NumSlots(f.blank) == 0
    ensures Record(Extended(f), rid) == Record(f, rid)
  {
    var n := |f.pages| + PAGES_PER_SEGMENT;
    GrownToAll(f.pages, f.blank, n);
    GrownRecord(f, GrownTo(f.pages, f.blank, n), Extended(f), rid);
  }

  lemma {:induction false} GrownRecord(f: File, pages: seq<page>, g: File, rid: RecordID)
    requires |f.pages| <= |pages| && g.pages == pages && NumSlots(f.blank) == 0
    requires forall i :: 0 <= i < |pages| ==> pages[i] == if i < |f.pages| then f.pages[i] else f.blank
    ensures Record(g, rid) == Record(f, rid)
  {
  }

  /** Extending numbers the new pages without gap or clash, and touches no record. */
  lemma {:induction false} ExtendedKeeps(f: File)
    requires Valid(f) && 0 < f.room
    ensures Valid(Extended(f)) && |Extended(f).pages| == |f.pages| + PAGES_PER_SEGMENT
    ensures forall rid :: Record(Extended(f), rid) == Record(f, rid)
    ensures forall i :: |f.pages| <= i < |f.pages| + PAGES_PER_SEGMENT ==> FreeSpace(Extended(f).pages[i]) == PAGE_SIZE - HEADER
    ensures forall i :: 0 <= i < |f.pages| ==> Extended(f).pages[i] == f.pages[i]
  {
    ExtendedValid(f);
    GrownToAll(f.pages, f.blank, |f.pages| + PAGES_PER_SEGMENT);
    forall rid: RecordID
      ensures Record(Extended(f), rid) == Record(f, rid)
    {
      ExtendedRecord(f, rid);
    }
  }
}
