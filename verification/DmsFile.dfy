/** The storage file object: mapped pages, segment count and free-space multimap, changed in place. */
module DmsFile {
  import opened Bytes
  import opened Page
  import opened PageBytes
  import opened PageOps
  import opened PageMemory
  import opened FreeMap
  import opened Dms
  import DmsOps

  type Mem = array<byte>

  /** Each page has its own page of memory. */
  ghost predicate Mapped(body: seq<Mem>) {
    && (forall i :: 0 <= i < |body| ==> body[i].Length == PAGE_SIZE)
    && (forall i, j :: 0 <= i < j < |body| ==> body[i] != body[j])
  }

  ghost function Pages(body: seq<Mem>): (p: seq<page>)
    requires Mapped(body)
    reads body
    ensures |p| == |body| && forall i :: 0 <= i < |p| ==> p[i] == body[i][..]
  {
    if body == [] then []
    else
      var n := |body| - 1;
      assert Mapped(body[..n]);
      Pages(body[..n]) + [body[n][..]]
  }

  function Reported(f: File, rid: Option<RecordID>): Dms.Inserted {
    match rid case None => Failed(f) case Some(r) => Stored(f, r)
  }

  lemma PageChanged(body: seq<Mem>, was: seq<page>, id: nat)
    requires Mapped(body) && id < |body| == |was|
    requires forall i :: 0 <= i < |body| && i != id ==> body[i][..] == was[i]
    ensures Pages(body) == was[id := body[id][..]]
  {
  }

  lemma Joined(body: seq<Mem>, was: seq<page>, blank: page)
    requires Mapped(body) && |was| <= |body|
    requires forall i :: 0 <= i < |was| ==> body[i][..] == was[i]
    requires forall i :: |was| <= i < |body| ==> body[i][..] == blank
    ensures Pages(body) == GrownTo(was, blank, |body|)
  {
    GrownToAll(was, blank, |body|);
  }

  lemma ExtendedIs(f: File, g: File)
    requires Sorted(f.free) && 0 < f.room && |f.free| == |f.pages|
    requires g.segments == f.segments + 1 && g.room == f.room - 1 && g.blank == f.blank
    requires g.pages == GrownTo(f.pages, f.blank, |f.pages| + PAGES_PER_SEGMENT)
    requires g.free == AddPages(f.free, |f.free|, |f.free| + PAGES_PER_SEGMENT)
    ensures g == Extended(f)
  {
  }

  /** The multimap with the page's entry moved from one key to another. */
  function Moved(free: seq<Entry>, id: nat, was: nat, now: nat): (r: seq<Entry>)
    requires Sorted(free)
    ensures Sorted(r)
  {
    Added(Erased(free, Entry(was, id)), Entry(now, id))
  }

  lemma OutcomeIs(f: File, g: File, id: nat, r: PageResult, rid: Option<RecordID>)
    requires Sorted(f.free) && id < |f.pages| && r.ok == rid.Some?
    requires g.segments == f.segments && g.room == f.room && g.blank == f.blank && g.pages == f.pages[id := r.p]
    requires rid.Some? ==> rid.value == RecordID(id, NumSlots(f.pages[id]))
    requires g.free == if rid == None then f.free else Moved(f.free, id, FreeSpace(f.pages[id]), FreeSpace(r.p))
    ensures Reported(g, rid) == DmsOps.Outcome(f, id, r)
  {
  }

  lemma WithdrawnIs(f: File, g: File, id: nat, r: PageResult)
    requires Sorted(f.free) && id < |f.pages| && (!r.ok ==> r.p == f.pages[id])
    requires g.segments == f.segments && g.room == f.room && g.blank == f.blank && g.pages == f.pages[id := r.p]
    requires g.free == if !r.ok then f.free else Moved(f.free, id, FreeSpace(f.pages[id]), FreeSpace(r.p))
    ensures (g, r.ok) == DmsOps.Withdrawn(f, id, r)
  {
    assert f.pages[id := f.pages[id]] == f.pages;
  }

  /** From `f`, insert comes to `want`. */
  ghost predicate Leads(f: File, data: seq<byte>, hdr: nat, want: Dms.Inserted) {
    Dms.Valid(f) && |data| < MAX_OBJECT && hdr <= RECORD && DmsOps.Insert(f, data, hdr) == want
  }

  /** `want` is what writing to page `id` comes to, or failure if there is none. */
  ghost predicate Chosen(f: File, want: Dms.Inserted, data: seq<byte>, hdr: nat, id: Option<nat>) {
    match id
    case None => want == Failed(f)
    case Some(i) =>
      && Sorted(f.free) && i < |f.pages| && PageBytes.Valid(f.pages[i]) && |data| < MAX_OBJECT && hdr <= RECORD
      && want == DmsOps.Outcome(f, i, InsertInto(f.pages[i], data, hdr))
  }

  /** A good file is good still once it has had to be extended. */
  ghost predicate Extends(good: File -> bool, size: nat) {
    forall f :: good(f) ==>
      Sorted(f.free) && |f.free| == |f.pages| && (FindPage(f.free, size) == None && 0 < f.room ==> good(Extended(f)))
  }

  /** From a good file that needs no extension, or can have none, the page is chosen rightly. */
  ghost predicate Serves(good: File -> bool, data: seq<byte>, hdr: nat, want: Dms.Inserted) {
    forall f :: good(f) ==>
      Sorted(f.free) && ((FindPage(f.free, |data|) == None ==> f.room == 0) ==> Chosen(f, want, data, hdr, FindPage(f.free, |data|)))
  }

  lemma LeadsServes(good: File -> bool, data: seq<byte>, hdr: nat, want: Dms.Inserted)
    requires forall f :: good(f) ==> Leads(f, data, hdr, want)
    requires forall f :: Leads(f, data, hdr, want) ==> good(f)
    ensures Extends(good, |data|) && Serves(good, data, hdr, want)
  {
    forall f | good(f)
      ensures Sorted(f.free) && |f.free| == |f.pages|
      ensures FindPage(f.free, |data|) == None && 0 < f.room ==> good(Extended(f))
      ensures (FindPage(f.free, |data|) == None ==> f.room == 0) ==> Chosen(f, want, data, hdr, FindPage(f.free, |data|))
    {
      LeadsOn(f, data, hdr, want);
    }
  }

  lemma LeadsOn(f: File, data: seq<byte>, hdr: nat, want: Dms.Inserted)
    requires Leads(f, data, hdr, want)
    ensures Sorted(f.free) && |f.free| == |f.pages|
    ensures FindPage(f.free, |data|) == None && 0 < f.room ==> Leads(Extended(f), data, hdr, want)
    ensures (FindPage(f.free, |data|) == None ==> f.room == 0) ==> Chosen(f, want, data, hdr, FindPage(f.free, |data|))
  {
    DmsOps.InsertUnfolds(f, data, hdr);
    InFree(f.pages, f.free, Entry(0, 0));
  }

  class DmsFile {
    var body: seq<Mem>
    var segments: nat
    var freeSpaceMap: seq<Entry>
    var room: nat
    const blank: page

    ghost predicate Shape()
      reads this
    {
      Mapped(body) && Sorted(freeSpaceMap)
    }

    ghost function State(): File
      requires Shape()
      reads this, body
    {
      File(segments, Pages(body), freeSpaceMap, room, blank)
    }

    constructor (room: nat, blank: page)
      ensures Shape() && State() == File(0, [], [], room, blank) && this.blank == blank
    {
      this.body, this.segments, this.freeSpaceMap := [], 0, [];
      this.room, this.blank := room, blank;
    }

    /** _updateFreeSpace, once the page's counter has been changed from `was` to `now`. */
    method UpdateFreeSpace(id: nat, was: nat, now: nat)
      requires Shape()
      modifies this`freeSpaceMap
      ensures Shape() && freeSpaceMap == Moved(old(freeSpaceMap), id, was, now)
      ensures multiset(freeSpaceMap) == multiset(old(freeSpaceMap)) - multiset{Entry(was, id)} + multiset{Entry(now, id)}
    {
      freeSpaceMap := Erased(freeSpaceMap, Entry(was, id));
      freeSpaceMap := Added(freeSpaceMap, Entry(now, id));
    }

    /** _extendSegment: 32 more pages, each mapped and given the blank image, then entered. */
    method ExtendSegment()
      requires Shape() && 0 < room && |freeSpaceMap| == |body|
      modifies this
      ensures Shape() && State() == Extended(old(State()))
      ensures old(body) <= body && fresh(set m | m in body && m !in old(body))
    {
      ghost var f := State();
      GrowFields();
      ExtendedIs(f, State());
    }

    method GrowFields()
      requires Shape() && 0 < room && |freeSpaceMap| == |body|
      modifies this
      ensures Shape() && segments == old(segments) + 1 && room == old(room) - 1
      ensures Pages(body) == GrownTo(old(Pages(body)), blank, |old(body)| + PAGES_PER_SEGMENT)
      ensures freeSpaceMap == AddPages(old(freeSpaceMap), |old(freeSpaceMap)|, |old(freeSpaceMap)| + PAGES_PER_SEGMENT)
      ensures old(body) <= body && fresh(set m | m in body && m !in old(body))
    {
      AddSegment();
      EnterPages(|freeSpaceMap|, |freeSpaceMap| + PAGES_PER_SEGMENT);
      segments := segments + 1;
      room := room - 1;
    }

    method AddSegment()
      requires Mapped(body)
      modifies this`body
      ensures Mapped(body) && Pages(body) == GrownTo(old(Pages(body)), blank, |old(body)| + PAGES_PER_SEGMENT)
      ensures old(body) <= body && fresh(set m | m in body && m !in old(body))
    {
      var more := MapSegment(blank);
      ghost var was := Pages(body);
      assert forall m :: m in more ==> m !in body;
      body := body + more;
      Joined(body, was, blank);
    }

    /** The whole of insert once the page is found: rewrite it in place and move its entry. */
    method InsertAt(id: nat, data: seq<byte>, hdr: nat) returns (rid: Option<RecordID>)
      requires Shape() && id < |body| && PageBytes.Valid(body[id][..]) && |data| < MAX_OBJECT && hdr <= RECORD
      modifies this`freeSpaceMap, body[id]
      ensures Shape() && Reported(State(), rid) == DmsOps.Outcome(old(State()), id, InsertInto(old(Pages(body)[id]), data, hdr))
    {
      ghost var f, p := State(), Pages(body)[id];
      rid := WriteAt(id, data, hdr);
      OutcomeIs(f, State(), id, InsertInto(p, data, hdr), rid);
    }

    method WriteAt(id: nat, data: seq<byte>, hdr: nat) returns (rid: Option<RecordID>)
      requires Shape() && id < |body| && PageBytes.Valid(body[id][..]) && |data| < MAX_OBJECT && hdr <= RECORD
      modifies this`freeSpaceMap, body[id]
      ensures Shape() && PageResult(body[id][..], rid.Some?) == InsertInto(old(body[id][..]), data, hdr)
      ensures Pages(body) == old(Pages(body))[id := body[id][..]]
      ensures rid.Some? ==> rid.value == RecordID(id, U32(old(body[id][..]), 12))
      ensures freeSpaceMap ==
        if rid == None then old(freeSpaceMap)
        else Moved(old(freeSpaceMap), id, U32(old(body[id][..]), 20), U32(body[id][..], 20))
    {
      var space, slot := U32(body[id][..], 20), U32(body[id][..], 12);
      var ok := Rewrite(id, data, hdr);
      rid := None;
      if ok {
        rid := Some(RecordID(id, slot));
        MoveEntry(id, space);
      }
    }

    method MoveEntry(id: nat, was: nat)
      requires Shape() && id < |body|
      modifies this`freeSpaceMap
      ensures Shape() && Pages(body) == old(Pages(body))
      ensures freeSpaceMap == Moved(old(freeSpaceMap), id, was, U32(body[id][..], 20))
    {
      var now := Load32(body[id], 20);
      UpdateFreeSpace(id, was, now);
    }

    method Rewrite(id: nat, data: seq<byte>, hdr: nat) returns (ok: bool)
      requires Shape() && id < |body| && PageBytes.Valid(body[id][..]) && |data| < MAX_OBJECT && hdr <= RECORD
      modifies body[id]
      ensures PageResult(body[id][..], ok) == InsertInto(old(body[id][..]), data, hdr)
      ensures Pages(body) == old(Pages(body))[id := body[id][..]]
    {
      ghost var was := Pages(body);
      ghost var end := CompactRuns(body[id][..], hdr);
      ok := InsertRecord(body[id], data, hdr);
      PageChanged(body, was, id);
    }

    /** insert, with its retry loop. */
    method Insert(data: seq<byte>, hdr: nat) returns (rid: Option<RecordID>)
      requires Shape() && Dms.Valid(State()) && |data| < MAX_OBJECT && hdr <= RECORD
      modifies this, body
      ensures Shape() && Reported(State(), rid) == DmsOps.Insert(old(State()), data, hdr)
      ensures fresh(set m | m in body && m !in old(body))
    {
      ghost var want := DmsOps.Insert(State(), data, hdr);
      ghost var good := f => Leads(f, data, hdr, want);
      LeadsServes(good, data, hdr, want);
      rid := InsertServed(data, hdr, want, good);
    }

    method InsertServed(data: seq<byte>, hdr: nat, ghost want: Dms.Inserted, ghost good: File -> bool)
      returns (rid: Option<RecordID>)
      requires Shape() && good(State()) && Extends(good, |data|) && Serves(good, data, hdr, want)
      modifies this, body
      ensures Shape() && Reported(State(), rid) == want
      ensures fresh(set m | m in body && m !in old(body))
    {
      var id := ChoosePage(|data|, good);
      assert Chosen(State(), want, data, hdr, id);
      rid := InsertChosen(id, data, hdr, want);
    }

    method InsertChosen(id: Option<nat>, data: seq<byte>, hdr: nat, ghost want: Dms.Inserted) returns (rid: Option<RecordID>)
      requires Shape() && Chosen(State(), want, data, hdr, id)
      modifies this`freeSpaceMap, body
      ensures Shape() && Reported(State(), rid) == want
    {
      match id
      case None => rid := None;
      case Some(i) => rid := InsertAt(i, data, hdr);
    }

    /** Extend the file until a page is found; none only once the disk is full. */
    method ChoosePage(size: nat, ghost good: File -> bool) returns (id: Option<nat>)
      requires Shape() && good(State()) && Extends(good, size)
      modifies this
      ensures Shape() && good(State()) && id == FindPage(freeSpaceMap, size) && (id == None ==> room == 0)
      ensures fresh(set m | m in body && m !in old(body))
    {
      id := FindPage(freeSpaceMap, size);
      while id == None && room > 0
        invariant Shape() && good(State()) && id == FindPage(freeSpaceMap, size)
        invariant fresh(set m | m in body && m !in old(body))
        decreases room
      {
        ExtendSegment();
        id := FindPage(freeSpaceMap, size);
      }
    }

    /** remove. */
    method Remove(rid: RecordID) returns (ok: bool)
      requires Shape()
      modifies this`freeSpaceMap, body
      ensures Shape() && (State(), ok) == DmsOps.Remove(old(State()), rid) && body == old(body)
    {
      if rid.page >= |body| {
        return false;
      }
      ghost var f, r := State(), RemoveFrom(Pages(body)[rid.page], rid.slot);
      ok := RemoveAt(rid.page, rid.slot);
      WithdrawnIs(f, State(), rid.page, r);
    }

    method RemoveAt(id: nat, slot: nat) returns (ok: bool)
      requires Shape() && id < |body|
      modifies this`freeSpaceMap, body[id]
      ensures Shape() && PageResult(body[id][..], ok) == RemoveFrom(old(body[id][..]), slot)
      ensures Pages(body) == old(Pages(body))[id := body[id][..]]
      ensures freeSpaceMap ==
        if !ok then old(freeSpaceMap) else Moved(old(freeSpaceMap), id, U32(old(body[id][..]), 20), U32(body[id][..], 20))
    {
      var space := U32(body[id][..], 20);
      ok := DropAt(id, slot);
      if ok {
        MoveEntry(id, space);
      }
    }

    method DropAt(id: nat, slot: nat) returns (ok: bool)
      requires Shape() && id < |body|
      modifies body[id]
      ensures PageResult(body[id][..], ok) == RemoveFrom(old(body[id][..]), slot)
      ensures Pages(body) == old(Pages(body))[id := body[id][..]]
    {
      ghost var was := Pages(body);
      ok := DropRecord(body[id], slot);
      PageChanged(body, was, id);
    }

    /** find. */
    method Find(rid: RecordID) returns (r: Lookup)
      requires Shape()
      ensures r == DmsOps.Find(State(), rid)
    {
      if rid.page >= |body| {
        return Refused;
      }
      var tail := Following(rid.page);
      r := ReadRecord(body[rid.page], tail, rid.slot);
    }

    /** The memory that follows a page in its segment. */
    method Following(id: nat) returns (tail: seq<byte>)
      requires Shape()
      ensures tail == Behind(Pages(body), id)
    {
      tail := [];
      var i := id;
      while i + 1 < |body| && (i + 1) % 32 != 0
        invariant id <= i && tail + Behind(Pages(body), i) == Behind(Pages(body), id)
        decreases |body| - i
      {
        i := i + 1;
        assert (tail + body[i][..]) + Behind(Pages(body), i) == tail + (body[i][..] + Behind(Pages(body), i));
        tail := tail + body[i][..];
      }
      assert tail + [] == tail;
    }

    /** Enter a mapped page under the counter in its header. */
    method EnterPage(id: nat)
      requires Shape() && id < |body|
      modifies this`freeSpaceMap
      ensures Shape() && Pages(body) == old(Pages(body))
      ensures freeSpaceMap == Added(old(freeSpaceMap), EntryOf(Pages(body), id))
    {
      var space := Load32(body[id], 20);
      freeSpaceMap := Added(freeSpaceMap, Entry(space, id));
    }

    /** Enter fresh pages `first` up to `end` in the multimap. */
    method EnterPages(first: nat, end: nat)
      requires Sorted(freeSpaceMap) && first <= end
      modifies this`freeSpaceMap
      ensures freeSpaceMap == AddPages(old(freeSpaceMap), first, end)
    {
      var i := first;
      while i < end
        invariant first <= i <= end && Sorted(freeSpaceMap)
        invariant AddPages(freeSpaceMap, i, end) == AddPages(old(freeSpaceMap), first, end)
      {
        freeSpaceMap := Added(freeSpaceMap, Entry(PAGE_SIZE - HEADER, i));
        i := i + 1;
      }
    }
  }

  /** Map a segment of pages and copy the blank image to each. */
  method MapSegment(blank: page) returns (more: seq<Mem>)
    ensures |more| == PAGES_PER_SEGMENT && Mapped(more) && fresh(set m | m in more)
    ensures forall m :: m in more ==> m[..] == blank
  {
    more := [];
    while |more| < PAGES_PER_SEGMENT
      invariant |more| <= PAGES_PER_SEGMENT && Mapped(more) && fresh(set m | m in more)
      invariant forall m :: m in more ==> m[..] == blank
    {
      var mem := MapPage(blank);
      more := more + [mem];
    }
  }

  method MapPage(blank: page) returns (mem: Mem)
    ensures fresh(mem) && mem.Length == PAGE_SIZE && mem[..] == blank
  {
    mem := new byte[PAGE_SIZE](i requires 0 <= i < PAGE_SIZE => blank[i]);
  }
}
