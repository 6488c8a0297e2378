/**
 The stride of _recoverSpace as written, on a run: two records, the first removed, and an insert that
 compacts. The second record then sticks out of its page, and find reads on into the next page.
 */
module LiteralStride {
  import opened Bytes
  import opened Page
  import opened PageBytes
  import opened Compaction
  import opened PageOps
  import opened Dms
  import opened Refinement
  import opened Rtn
  import opened Runs
  import opened Reachable
  import opened OnePage
  import DmsOps
  import Index
  import FreeMap

  // ---------------------------------------------------------------- one page

  /** Without a tombstone all free space is in the gap, and insert does not compact. */
  lemma {:induction false} NoTombstone(p: page, size: nat)
    requires PageBytes.Valid(p) && forall k :: 0 <= k < NumSlots(p) ==> Contents(p)[k] != None
    ensures FreeOffset(p) - SlotOffset(p) == FreeSpace(p) && !MustCompact(p, size)
  {
    var a := Decode(p);
    forall k | 0 <= k < |a.cells|
      ensures a.cells[k].At?
    {
      assert View(a)[k] == Contents(p)[k];
    }
    UsedCost(a.cells, |a.cells|);
  }

  /** Removing a record changes neither the slot table's end nor the free offset nor another slot. */
  lemma {:induction false} RemovedOffsets(p: page, slot: nat, other: nat)
    requires PageBytes.Valid(p) && slot < NumSlots(p) && Contents(p)[slot] != None
    requires other < NumSlots(p) && other != slot && Contents(p)[other] != None
    ensures Droppable(p, slot) && HEADER + 4 * other + 4 <= PAGE_SIZE
    ensures var q := Removed(p, slot);
      SlotOffset(q) == SlotOffset(p) && FreeOffset(q) == FreeOffset(p) && SlotAt(q, other) == SlotAt(p, other)
  {
    var a := Decode(p);
    RemovedKeeps(p, slot);
    assert View(a)[slot] == Contents(p)[slot] && View(a)[other] == Contents(p)[other];
    RemovedRep(p, a, slot);
    assert Holds(p, other, a.cells[other]) && Holds(Removed(p, slot), other, Dropped(a, slot).cells[other]);
  }

  /** The second of two records is packed below the first. */
  lemma {:induction false} SecondPlace(p: page, a: seq<byte>, b: seq<byte>)
    requires PageBytes.Valid(p) && Contents(p) == [Some(a), Some(b)]
    ensures NumSlots(p) == 2 && SlotAt(p, 1) == PAGE_SIZE - |a| - |b| - 16
  {
    var l := Decode(p);
    assert |l.cells| == |Contents(p)| == 2 && View(l)[0] == Some(a) && View(l)[1] == Some(b);
    assert l.cells[0].At? && l.cells[1].At? && AllLive(l.cells, 1);
    assert Used(l.cells, 0, RECORD) == 0 && Used(l.cells, 1, RECORD) == |a| + 8;
    assert Holds(p, 1, l.cells[1]);
  }

  lemma {:induction false} FirstGone(p: page, a: seq<byte>, b: seq<byte>)
    requires PageBytes.Valid(p) && Contents(p) == [Some(a), Some(b)]
    ensures NumSlots(p) == 2 && Droppable(p, 0)
    ensures var q := Removed(p, 0);
      && PageBytes.Valid(q) && Contents(q) == [None, Some(b)] && FreeSpace(q) == FreeSpace(p) + |a|
      && FreeOffset(q) - SlotOffset(q) == FreeSpace(p) && SlotAt(q, 1) == PAGE_SIZE - |a| - |b| - 16
  {
    SecondPlace(p, a, b);
    NoTombstone(p, 0);
    RemovedKeeps(p, 0);
    RemovedOffsets(p, 0, 1);
    assert [Some(a), Some(b)][0 := None] == [None, Some(b)];
  }

  /** Two slots, the first dropped. */
  predicate OneLeft(p: page, b: seq<byte>) {
    PageBytes.Valid(p) && Contents(p) == [None, Some(b)] && 12 <= |b|
  }

  lemma {:induction false} OneLeftIs(p: page, b: seq<byte>) returns (off: nat, ext: seq<byte>)
    requires OneLeft(p, b)
    ensures NumSlots(p) == 2 && SlotOffset(p) == 36 && FreeSpace(p) == PAGE_SIZE - |b| - 52
    ensures SlotAt(p, 0) == EMPTY && SlotAt(p, 1) == off && 36 <= off && off + |ext| <= PAGE_SIZE && p[off..off + |ext|] == ext
    ensures IsRecord(ext, b)
  {
    var a := Decode(p);
    assert |a.cells| == |Contents(p)| == 2;
    assert View(a)[0] == None && View(a)[1] == Some(b);
    assert a.cells[0] == Dead && a.cells[1].At?;
    off, ext := a.cells[1].off, a.cells[1].ext;
    assert Holds(p, 0, a.cells[0]) && Holds(p, 1, a.cells[1]);
    SameWord(ext, 8, b, 0) by { assert b == ext[8..]; }
    assert Used(a.cells, 0, 0) == 0;
    assert Used(a.cells, 1, 0) == 0 && Used(a.cells, 2, 0) == |b|;
  }

  lemma {:induction false} CompactsTo(p: page, size: nat, off: nat)
    requires NumSlots(p) == 2 && SlotAt(p, 0) == EMPTY && SlotAt(p, 1) == off && 36 <= off && off + size + 8 <= PAGE_SIZE
    requires U32(p, off) == size && 12 <= size
    ensures Compact(p, 0) == SetField(Moved(p, 1, PAGE_SIZE - size, size), 24, PAGE_SIZE - size)
  {
    var v1 := Visit(p, PAGE_SIZE, true);
    assert Turn(Visit(p, PAGE_SIZE, false), 0, 0) == Some(v1);
    TurnPasses(v1, 1, 0, size);
    var v2 := Visit(Moved(p, 1, PAGE_SIZE - size, size), PAGE_SIZE - size, true);
    assert Pass(v1, 1, size) == Some(v2);
    assert Loop(v2, 2, 0) == Some(v2);
    assert Loop(v1, 1, 0) == Some(v2);
  }

  /** Slot 1 points at all of `ext` but its last 8 bytes, and there the page ends. */
  predicate Sticks(q: page, to: nat, ext: seq<byte>) {
    12 <= |ext| && to + |ext| == PAGE_SIZE + 8 && SlotAt(q, 1) == to && forall i :: 0 <= i < |ext| - 8 ==> q[to + i] == ext[i]
  }

  lemma {:induction false} MovedContent(p: page, size: nat, off: nat, ext: seq<byte>, q: page)
    requires SlotAt(p, 1) == off && 36 <= off && off + |ext| <= PAGE_SIZE && p[off..off + |ext|] == ext && |ext| == 8 + size
    requires 12 <= size <= PAGE_SIZE - 36 && q == SetField(Moved(p, 1, PAGE_SIZE - size, size), 24, PAGE_SIZE - size)
    ensures Sticks(q, PAGE_SIZE - size, ext)
  {
    var to := PAGE_SIZE - size;
    var m := Moved(p, 1, to, size);
    MovedBytes(p, 1, to, size);
    SameWord(q, HEADER + 4, m, HEADER + 4);
    SliceAt(m, to, size, p, off, ext);
  }

  lemma SliceAt(m: seq<byte>, to: nat, size: nat, p: seq<byte>, off: nat, ext: seq<byte>)
    requires to + size <= |m| && off + |ext| <= |p| && size <= |ext|
    requires m[to..to + size] == p[off..off + size] && p[off..off + |ext|] == ext
    ensures forall i :: 0 <= i < size ==> m[to + i] == ext[i]
  {
    forall i | 0 <= i < size
      ensures m[to + i] == ext[i]
    {
      assert m[to + i] == m[to..to + size][i] == p[off..off + size][i] == p[off..off + |ext|][i];
    }
  }

  lemma {:induction false} StillSticks(q: page, r: page, to: nat, ext: seq<byte>, off: nat)
    requires Sticks(q, to, ext) && 40 <= off <= to && WroteOnly(q, r, 36, off, to - off)
    ensures Sticks(r, to, ext)
  {
    SameWord(r, HEADER + 4, q, HEADER + 4);
  }

  /** What insert wrote for `b`. */
  predicate IsRecord(ext: seq<byte>, b: seq<byte>) {
    && |ext| == 8 + |b| && ext[8..] == b && 12 <= |b| <= MAX_INTERNAL
    && U32(ext, 0) == |b| && U32(ext, 4) == 0 && U32(ext, 8) == |b|
  }

  /** The record sticks out of the page: no page any more. */
  lemma {:induction false} SticksOut(r: page, to: nat, ext: seq<byte>, b: seq<byte>)
    requires Sticks(r, to, ext) && IsRecord(ext, b) && 1 < NumSlots(r)
    ensures !PageBytes.Valid(r)
  {
    SameWord(r, to, ext, 0);
    if PageBytes.Valid(r) {
      CellOf(r, 1);
    }
  }

  /** And find reads on behind it: the last 8 bytes come from there. */
  lemma {:induction false} ReadsOn(r: page, tail: seq<byte>, to: nat, ext: seq<byte>, b: seq<byte>)
    requires Sticks(r, to, ext) && IsRecord(ext, b) && 1 < NumSlots(r) && 8 <= |tail|
    ensures FindRecord(r, tail, 1) == Found(b[..|b| - 8] + tail[..8])
  {
    var mem := r + tail;
    SameWord(mem, to + 4, ext, 4);
    SameWord(mem, to + 8, ext, 8);
    Straddles(r, tail, to, ext, b);
  }

  lemma Straddles(r: page, tail: seq<byte>, to: nat, ext: seq<byte>, b: seq<byte>)
    requires Sticks(r, to, ext) && |ext| == 8 + |b| && ext[8..] == b && 12 <= |b| && 8 <= |tail|
    ensures to + 8 + |b| == PAGE_SIZE + 8 && (r + tail)[to + 8..to + 8 + |b|] == b[..|b| - 8] + tail[..8]
  {
    forall i | 0 <= i < |b| - 8
      ensures (r + tail)[to + 8 + i] == b[i]
    {
      assert (r + tail)[to + 8 + i] == ext[8 + i] == ext[8..][i];
    }
  }

  /** The page after the insert of `c`: `c` is in slot 2, slot 1 sticks out. */
  ghost predicate Broken(r: page, b: seq<byte>, c: seq<byte>) {
    && !PageBytes.Valid(r) && 12 <= |b|
    && (forall tail: seq<byte> :: 8 <= |tail| ==> FindRecord(r, tail, 1) == Found(b[..|b| - 8] + tail[..8]))
    && (forall tail :: FindRecord(r, tail, 2) == Found(c))
  }

  /** The insert that compacts such a page breaks it: `b` is read back with its last 8 bytes from behind the page. */
  lemma {:induction false} InsertBreaks(p: page, b: seq<byte>, c: seq<byte>)
    requires OneLeft(p, b) && IsObj(c) && |c| < MAX_OBJECT && |c| + 12 <= FreeSpace(p) && MustCompact(p, |c|)
    ensures InsertInto(p, c, 0).ok && Broken(InsertInto(p, c, 0).p, b, c)
  {
    var off, ext := OneLeftIs(p, b);
    SameWord(p, off, ext, 0);
    CompactsTo(p, |b|, off);
    MovedContent(p, |b|, off, ext, Compact(p, 0));
    CompactCounters(p, 0);
    BreaksAfter(p, Compact(p, 0), b, ext, c);
  }

  lemma {:induction false} BreaksAfter(p: page, q: page, b: seq<byte>, ext: seq<byte>, c: seq<byte>)
    requires PageBytes.Valid(p) && |c| + 12 <= FreeSpace(p) == PAGE_SIZE - |b| - 52 && MustCompact(p, |c|) && q == Compact(p, 0)
    requires Sticks(q, PAGE_SIZE - |b|, ext) && IsRecord(ext, b) && IsObj(c) && FreeOffset(q) == PAGE_SIZE - |b|
    requires NumSlots(q) == 2 && SlotOffset(q) == 36 && FreeSpace(q) == FreeSpace(p)
    ensures InsertInto(p, c, 0).ok && Broken(InsertInto(p, c, 0).p, b, c)
  {
    GoesIn(p, q, c);
    InsertedBreaks(q, b, ext, c, PageBytes.Inserted(q, c), PAGE_SIZE - |b| - 8 - |c|);
  }

  lemma GoesIn(p: page, q: page, c: seq<byte>)
    requires PageBytes.Valid(p) && |c| < MAX_OBJECT && MustCompact(p, |c|) && q == Compact(p, 0) && HasRoom(q, |c|)
    ensures InsertInto(p, c, 0) == PageResult(PageBytes.Inserted(q, c), true)
  {
  }

  lemma {:induction false} InsertedBreaks(q: page, b: seq<byte>, ext: seq<byte>, c: seq<byte>, r: page, low: u32)
    requires |b| <= PAGE_SIZE && Sticks(q, PAGE_SIZE - |b|, ext) && IsRecord(ext, b) && IsObj(c) && |c| < MAX_OBJECT && HasRoom(q, |c|)
    requires NumSlots(q) == 2 && SlotOffset(q) == 36 && FreeOffset(q) == PAGE_SIZE - |b| && low == FreeOffset(q) - 8 - |c|
    requires r == PageBytes.Inserted(q, c)
    ensures Broken(r, b, c)
  {
    InsertedBytes(q, c, RecordBytes(c), low);
    StillSticks(q, r, PAGE_SIZE - |b|, ext, low);
    SticksOut(r, PAGE_SIZE - |b|, ext, b);
    BothRead(r, PAGE_SIZE - |b|, ext, b, low, c);
  }

  lemma {:induction false} BothRead(r: page, to: nat, ext: seq<byte>, b: seq<byte>, low: u32, c: seq<byte>)
    requires Sticks(r, to, ext) && IsRecord(ext, b) && NumSlots(r) == 3 && IsObj(c) && |c| < MAX_OBJECT
    requires r[36..40] == LE32(low) && low + 8 + |c| <= PAGE_SIZE && r[low..low + 8 + |c|] == RecordBytes(c)
    ensures forall tail: seq<byte> :: 8 <= |tail| ==> FindRecord(r, tail, 1) == Found(b[..|b| - 8] + tail[..8])
    ensures forall tail :: FindRecord(r, tail, 2) == Found(c)
  {
    forall tail: seq<byte> | 8 <= |tail|
      ensures FindRecord(r, tail, 1) == Found(b[..|b| - 8] + tail[..8])
    {
      ReadsOn(r, tail, to, ext, b);
    }
    forall tail
      ensures FindRecord(r, tail, 2) == Found(c)
    {
      ReadsC(r, tail, low, c);
    }
  }

  lemma {:induction false} ReadsC(r: page, tail: seq<byte>, low: u32, c: seq<byte>)
    requires NumSlots(r) == 3 && IsObj(c) && |c| < MAX_OBJECT
    requires r[36..40] == LE32(low) && low + 8 + |c| <= PAGE_SIZE && r[low..low + 8 + |c|] == RecordBytes(c)
    ensures FindRecord(r, tail, 2) == Found(c)
  {
    SameWord(r, 36, LE32(low), 0) by { assert r[36..40] == LE32(low); }
    FindHolds(r, tail, 2, At(low, RecordBytes(c)));
  }

  // ---------------------------------------------------------------- the run

  type Stepper<!S> = (S, Op) -> (S, Reply)

  /** One operation. */
  function Stepping(env: Env, hdr: nat): Stepper<Store>
    requires hdr <= RECORD
  {
    (s, op) => if Shaped(s) && Proper(op) then Step(env, s, op, hdr) else (s, SysError)
  }

  /** The operations, from `s`, get these replies and lead to `t`. */
  predicate Leads<S(==)>(step: Stepper<S>, s: S, ops: seq<Op>, replies: seq<Reply>, t: S)
    decreases |ops|
  {
    if ops == [] || replies == [] then ops == [] && replies == [] && s == t
    else
      var r := step(s, ops[0]);
      r.1 == replies[0] && Leads(step, r.0, ops[1..], replies[1..], t)
  }

  /** The replies of a run. */
  function RunOf<S>(step: Stepper<S>, s: S, ops: seq<Op>): seq<Reply>
    decreases |ops|
  {
    if ops == [] then []
    else [step(s, ops[0]).1] + RunOf(step, step(s, ops[0]).0, ops[1..])
  }

  lemma {:induction false} RunIs(env: Env, s: Store, ops: seq<Op>, hdr: nat)
    requires Shaped(s) && (forall op :: op in ops ==> Proper(op)) && hdr <= RECORD
    ensures Run(env, s, ops, hdr) == RunOf(Stepping(env, hdr), s, ops)
    decreases |ops|
  {
    if ops != [] {
      RunIs(env, Step(env, s, ops[0], hdr).0, ops[1..], hdr);
    }
  }

  lemma {:induction false} LeadsOn<S>(step: Stepper<S>, s: S, ops: seq<Op>, replies: seq<Reply>,
      u: S, op: Op, t: S, reply: Reply)
    requires Leads(step, s, ops, replies, u) && step(u, op) == (t, reply)
    ensures Leads(step, s, ops + [op], replies + [reply], t)
    decreases |ops|
  {
    if ops == [] {
      assert [op][1..] == [] && [reply][1..] == [];
      assert ops + [op] == [op] && replies + [reply] == [reply];
    } else {
      LeadsOn(step, step(s, ops[0]).0, ops[1..], replies[1..], u, op, t, reply);
      assert (ops + [op])[1..] == ops[1..] + [op] && (replies + [reply])[1..] == replies[1..] + [reply];
    }
  }

  lemma {:induction false} RunHead<S>(step: Stepper<S>, s: S, op: Op, more: seq<Op>, t: S, reply: Reply)
    requires step(s, op) == (t, reply)
    ensures RunOf(step, s, [op] + more) == [reply] + RunOf(step, t, more)
  {
    assert ([op] + more)[0] == op && ([op] + more)[1..] == more;
  }

  /** Every run that starts so goes on from there. */
  lemma {:induction false} LeadsRun<S>(step: Stepper<S>, s: S, ops: seq<Op>, replies: seq<Reply>,
      t: S, rest: seq<Op>)
    requires Leads(step, s, ops, replies, t)
    ensures RunOf(step, s, ops + rest) == replies + RunOf(step, t, rest)
    decreases |ops|
  {
    if ops == [] {
      assert ops + rest == rest && replies + RunOf(step, t, rest) == RunOf(step, t, rest);
    } else {
      var u := step(s, ops[0]).0;
      LeadsRun(step, u, ops[1..], replies[1..], t, rest);
      RunHead(step, s, ops[0], ops[1..] + rest, u, replies[0]);
      FirstOff(ops, rest);
      FirstOff(replies, RunOf(step, t, rest));
    }
  }

  lemma FirstOff<T>(s: seq<T>, t: seq<T>)
    requires s != []
    ensures [s[0]] + (s[1..] + t) == s + t
  {
  }

  lemma {:induction false} StoreRemove(env: Env, s: Store, m: Table, query: seq<byte>, key: Key, at: RecordID)
    requires Represents(env, s, m) && env.keyOf(query) == Some(key) && key in m
    requires Index.Find(s.index, env.hash, key) == Some(at)
    ensures var r := Step(env, s, Op.Remove(query), RECORD);
      && r.1 == Done && r.0.file == DmsOps.Remove(s.file, at).0 && Represents(env, r.0, m - {key})
      && forall k :: Index.Find(r.0.index, env.hash, k) == if k == key then None else Index.Find(s.index, env.hash, k)
  {
    StepConforms(env, s, m, Op.Remove(query));
    Index.RemoveShrinks(s.index, env.hash, key);
  }

  /** A store that the operations lead to under either stride. */
  ghost predicate Comes(env: Env, ops: seq<Op>, replies: seq<Reply>, t: Store, m: Table) {
    && Leads(Stepping(env, 0), New(1), ops, replies, t) && Leads(Stepping(env, RECORD), New(1), ops, replies, t)
    && Represents(env, t, m) && CalmTo(env, New(1), ops, t)
  }

  lemma {:induction false} ComesOn(env: Env, ops: seq<Op>, replies: seq<Reply>, s: Store, m: Table, op: Op, t: Store, reply: Reply)
    requires Comes(env, ops, replies, s, m) && Proper(op) && (op.Insert? ==> Calm(s.file, |op.rec|))
    requires Step(env, s, op, RECORD) == (t, reply) == Step(env, s, op, 0)
    ensures Comes(env, ops + [op], replies + [reply], t, After(env, m, op, reply))
  {
    StepConforms(env, s, m, op);
    LeadsOn(Stepping(env, 0), New(1), ops, replies, s, op, t, reply);
    LeadsOn(Stepping(env, RECORD), New(1), ops, replies, s, op, t, reply);
    CalmOn(env, New(1), ops, s, op, t);
  }

  lemma {:induction false} ComesInsert(env: Env, ops: seq<Op>, replies: seq<Reply>, s: Store, m: Table,
      rec: seq<byte>, key: Key, g: File, at: RecordID) returns (t: Store)
    requires Comes(env, ops, replies, s, m) && env.keyOf(rec) == Some(key) && key !in m && IsObj(rec) && |rec| < MAX_OBJECT
    requires Calm(s.file, |rec|) && DmsOps.Insert(s.file, rec, RECORD) == Stored(g, at)
    ensures Comes(env, ops + [Op.Insert(rec)], replies + [Done], t, m[key := rec]) && t.file == g
    ensures forall k :: Index.Find(t.index, env.hash, k) == if k == key then Some(at) else Index.Find(s.index, env.hash, k)
  {
    StoreInsert(env, s, m, rec, key, g, at);
    LiteralStepAgrees(env, s, Op.Insert(rec));
    t := Step(env, s, Op.Insert(rec), RECORD).0;
    ComesOn(env, ops, replies, s, m, Op.Insert(rec), t, Done);
  }

  lemma {:induction false} ComesRemove(env: Env, ops: seq<Op>, replies: seq<Reply>, s: Store, m: Table,
      query: seq<byte>, key: Key, at: RecordID) returns (t: Store)
    requires Comes(env, ops, replies, s, m) && env.keyOf(query) == Some(key) && key in m
    requires Index.Find(s.index, env.hash, key) == Some(at)
    ensures Comes(env, ops + [Op.Remove(query)], replies + [Done], t, m - {key})
    ensures Sane(s) && t.file == DmsOps.Remove(s.file, at).0
    ensures forall k :: Index.Find(t.index, env.hash, k) == if k == key then None else Index.Find(s.index, env.hash, k)
  {
    StoreRemove(env, s, m, query, key, at);
    LiteralStepAgrees(env, s, Op.Remove(query));
    t := Step(env, s, Op.Remove(query), RECORD).0;
    ComesOn(env, ops, replies, s, m, Op.Remove(query), t, Done);
  }

  // ---------------------------------------------------------------- what happens in the file

  lemma {:induction false} SecondFits(f: File, id: nat, a: seq<byte>, b: seq<byte>) returns (g: File)
    requires Lone(f, id) && Contents(f.pages[id]) == [Some(a)]
    requires IsObj(b) && |b| < MAX_OBJECT && |b| + 12 <= FreeSpace(f.pages[id]) < PAGE_SIZE - HEADER
    ensures Calm(f, |b|) && DmsOps.Insert(f, b, RECORD) == Stored(g, RecordID(id, 1))
    ensures Lone(g, id) && Contents(g.pages[id]) == [Some(a), Some(b)] && |g.pages| == |f.pages|
    ensures FreeSpace(g.pages[id]) == FreeSpace(f.pages[id]) - |b| - 12
  {
    Unhindered(f, id, a, |b|);
    g := GoesThere(f, id, b);
    assert [Some(a)] + [Some(b)] == [Some(a), Some(b)];
  }

  lemma {:induction false} Unhindered(f: File, id: nat, a: seq<byte>, size: nat)
    requires Lone(f, id) && Contents(f.pages[id]) == [Some(a)] && size < FreeSpace(f.pages[id]) < PAGE_SIZE - HEADER
    ensures NumSlots(f.pages[id]) == 1 && Calm(f, size)
  {
    assert NumSlots(f.pages[id]) == |Contents(f.pages[id])| == 1;
    NoTombstone(f.pages[id], size);
    Picks(f, id, size);
  }

  lemma {:induction false} FirstGoes(f: File, id: nat, a: seq<byte>, b: seq<byte>)
    requires Lone(f, id) && Contents(f.pages[id]) == [Some(a), Some(b)]
    ensures var g := DmsOps.Remove(f, RecordID(id, 0)).0;
      && Lone(g, id) && Contents(g.pages[id]) == [None, Some(b)] && |g.pages| == |f.pages|
      && FreeSpace(g.pages[id]) == FreeSpace(f.pages[id]) + |a|
      && FreeOffset(g.pages[id]) - SlotOffset(g.pages[id]) == FreeSpace(f.pages[id])
      && SlotAt(g.pages[id], 1) == PAGE_SIZE - |a| - |b| - 16
  {
    FirstGone(f.pages[id], a, b);
    ReplacedLone(f, id, PageBytes.Removed(f.pages[id], 0));
  }

  lemma {:induction false} InsertsA(env: Env, ops: seq<Op>, replies: seq<Reply>, s: Store, m: Table, a: seq<byte>, ka: Key)
    returns (t: Store)
    requires Comes(env, ops, replies, s, m) && s.file == New(1).file && ka !in m
    requires IsObj(a) && |a| + 12 <= PAGE_SIZE - HEADER && env.keyOf(a) == Some(ka)
    ensures Comes(env, ops + [Op.Insert(a)], replies + [Done], t, m[ka := a])
    ensures Lone(t.file, 0) && Index.Find(t.index, env.hash, ka) == Some(RecordID(0, 0)) && |t.file.pages| == 32
    ensures Contents(t.file.pages[0]) == [Some(a)] && FreeSpace(t.file.pages[0]) == PAGE_SIZE - HEADER - |a| - 12
  {
    var f := GoesFirst(s.file, a);
    t := ComesInsert(env, ops, replies, s, m, a, ka, f, RecordID(0, 0));
  }

  lemma {:induction false} InsertsB(env: Env, ops: seq<Op>, replies: seq<Reply>, s: Store, m: Table, id: nat,
      a: seq<byte>, ka: Key, b: seq<byte>, kb: Key) returns (t: Store)
    requires Comes(env, ops, replies, s, m) && kb !in m && kb != ka
    requires Lone(s.file, id) && Contents(s.file.pages[id]) == [Some(a)]
    requires Index.Find(s.index, env.hash, ka) == Some(RecordID(id, 0)) && env.keyOf(b) == Some(kb)
    requires IsObj(b) && |b| < MAX_OBJECT && |b| + 12 <= FreeSpace(s.file.pages[id]) < PAGE_SIZE - HEADER
    ensures Comes(env, ops + [Op.Insert(b)], replies + [Done], t, m[kb := b])
    ensures Lone(t.file, id) && Contents(t.file.pages[id]) == [Some(a), Some(b)] && |t.file.pages| == |s.file.pages|
    ensures Index.Find(t.index, env.hash, ka) == Some(RecordID(id, 0)) && Index.Find(t.index, env.hash, kb) == Some(RecordID(id, 1))
    ensures FreeSpace(t.file.pages[id]) == FreeSpace(s.file.pages[id]) - |b| - 12
  {
    var g := SecondFits(s.file, id, a, b);
    t := ComesInsert(env, ops, replies, s, m, b, kb, g, RecordID(id, 1));
  }

  lemma {:induction false} RemovesA(env: Env, ops: seq<Op>, replies: seq<Reply>, s: Store, m: Table, id: nat,
      a: seq<byte>, ka: Key, b: seq<byte>, kb: Key) returns (t: Store)
    requires Comes(env, ops, replies, s, m) && ka in m && kb != ka
    requires Lone(s.file, id) && Contents(s.file.pages[id]) == [Some(a), Some(b)] && env.keyOf(a) == Some(ka)
    requires Index.Find(s.index, env.hash, ka) == Some(RecordID(id, 0)) && Index.Find(s.index, env.hash, kb) == Some(RecordID(id, 1))
    ensures Comes(env, ops + [Op.Remove(a)], replies + [Done], t, m - {ka})
    ensures Lone(t.file, id) && Contents(t.file.pages[id]) == [None, Some(b)] && |t.file.pages| == |s.file.pages|
    ensures Index.Find(t.index, env.hash, kb) == Some(RecordID(id, 1))
    ensures FreeSpace(t.file.pages[id]) == FreeSpace(s.file.pages[id]) + |a|
    ensures FreeOffset(t.file.pages[id]) - SlotOffset(t.file.pages[id]) == FreeSpace(s.file.pages[id])
    ensures SlotAt(t.file.pages[id], 1) == PAGE_SIZE - |a| - |b| - 16
  {
    t := ComesRemove(env, ops, replies, s, m, a, ka, RecordID(id, 0));
    FirstGoes(s.file, id, a, b);
  }

  /** Two records of 2,000,000 bytes, the first removed again: what the operations lead to. */
  ghost predicate Opened(env: Env, s: Store, b: seq<byte>, kb: Key) {
    && Sane(s) && Lone(s.file, 0) && |s.file.pages| == 32 && OneLeft(s.file.pages[0], b)
    && Index.Find(s.index, env.hash, kb) == Some(RecordID(0, 1))
    && FreeSpace(s.file.pages[0]) == 2194252 && FreeOffset(s.file.pages[0]) - SlotOffset(s.file.pages[0]) == 194252
    && SlotAt(s.file.pages[0], 1) == 194288
  }

  lemma {:induction false} Opens(env: Env, ops: seq<Op>, replies: seq<Reply>, s: Store, m: Table,
      a: seq<byte>, ka: Key, b: seq<byte>, kb: Key, all: seq<Op>, done: seq<Reply>) returns (t: Store)
    requires Comes(env, ops, replies, s, m) && s.file == New(1).file && ka !in m && kb !in m && kb != ka
    requires IsObj(a) && |a| == 2000000 && IsObj(b) && |b| == 2000000 && env.keyOf(a) == Some(ka) && env.keyOf(b) == Some(kb)
    requires all == ops + [Op.Insert(a)] + [Op.Insert(b)] + [Op.Remove(a)] && done == replies + [Done] + [Done] + [Done]
    ensures Comes(env, all, done, t, m[ka := a][kb := b] - {ka}) && Opened(env, t, b, kb)
  {
    var s1 := InsertsA(env, ops, replies, s, m, a, ka);
    t := OpensOn(env, ops + [Op.Insert(a)], replies + [Done], s1, m[ka := a], a, ka, b, kb, all, done);
  }

  lemma {:induction false} OpensOn(env: Env, ops: seq<Op>, replies: seq<Reply>, s: Store, m: Table,
      a: seq<byte>, ka: Key, b: seq<byte>, kb: Key, all: seq<Op>, done: seq<Reply>) returns (t: Store)
    requires Comes(env, ops, replies, s, m) && ka in m && kb !in m && kb != ka
    requires Lone(s.file, 0) && Index.Find(s.index, env.hash, ka) == Some(RecordID(0, 0)) && |s.file.pages| == 32
    requires Contents(s.file.pages[0]) == [Some(a)] && FreeSpace(s.file.pages[0]) == PAGE_SIZE - HEADER - |a| - 12
    requires IsObj(a) && |a| == 2000000 && IsObj(b) && |b| == 2000000 && env.keyOf(a) == Some(ka) && env.keyOf(b) == Some(kb)
    requires all == ops + [Op.Insert(b)] + [Op.Remove(a)] && done == replies + [Done] + [Done]
    ensures Comes(env, all, done, t, m[kb := b] - {ka}) && Opened(env, t, b, kb)
  {
    var s2 := InsertsB(env, ops, replies, s, m, 0, a, ka, b, kb);
    t := RemovesA(env, ops + [Op.Insert(b)], replies + [Done], s2, m[kb := b], 0, a, ka, b, kb);
    IsOpened(env, t, b, kb);
  }

  lemma IsOpened(env: Env, t: Store, b: seq<byte>, kb: Key)
    requires Sane(t) && Lone(t.file, 0) && |t.file.pages| == 32 && Contents(t.file.pages[0]) == [None, Some(b)] && |b| == 2000000
    requires Index.Find(t.index, env.hash, kb) == Some(RecordID(0, 1)) && SlotAt(t.file.pages[0], 1) == 194288
    requires FreeSpace(t.file.pages[0]) == 2194252 && FreeOffset(t.file.pages[0]) - SlotOffset(t.file.pages[0]) == 194252
    ensures Opened(env, t, b, kb)
  {
  }

  lemma {:induction false} NothingYet(env: Env)
    ensures Comes(env, [], [], New(1), map[])
  {
    NewHolds(env, 1);
  }

  lemma OnlyB(a: seq<byte>, ka: Key, b: seq<byte>, kb: Key)
    requires ka != kb
    ensures map[][ka := a][kb := b] - {ka} == map[kb := b]
  {
  }

  lemma Three<T>(s: seq<T>, u: T, v: T, w: T)
    requires s == [u, v, w]
    ensures s == [] + [u] + [v] + [w]
  {
  }

  /** The same from a new file. */
  lemma {:induction false} OpensNew(env: Env, a: seq<byte>, b: seq<byte>, ops: seq<Op>, replies: seq<Reply>) returns (s: Store)
    requires IsObj(a) && |a| == 2000000 && IsObj(b) && |b| == 2000000
    requires env.keyOf(a).Some? && env.keyOf(b).Some? && env.keyOf(a) != env.keyOf(b)
    requires ops == [Op.Insert(a), Op.Insert(b), Op.Remove(a)] && replies == [Done, Done, Done]
    ensures Comes(env, ops, replies, s, map[env.keyOf(b).value := b]) && Opened(env, s, b, env.keyOf(b).value)
  {
    var ka, kb := env.keyOf(a).value, env.keyOf(b).value;
    NothingYet(env);
    Three(ops, Op.Insert(a), Op.Insert(b), Op.Remove(a));
    Three(replies, Done, Done, Done);
    s := Opens(env, [], [], New(1), map[], a, ka, b, kb, ops, replies);
    OnlyB(a, ka, b, kb);
  }

  // ---------------------------------------------------------------- what the insert of c does

  /** The magic and the size in the header of the next page: what find reads for the last 8 bytes of `b`. */
  const NEXT: seq<byte> := [0x50, 0x41, 0x47, 0x45, 0, 0, 0x40, 0]

  lemma {:induction false} FormattedStarts()
    ensures Formatted()[..8] == NEXT
  {
    var zeros: page := seq(PAGE_SIZE, _ => 0);
    StartKept(Put(zeros, 0, START));
    assert Put(zeros, 0, START)[..8] == START[..8] == NEXT;
  }

  lemma StartKept(p: page)
    ensures Counters(p, 0, HEADER, PAGE_SIZE, PAGE_SIZE - HEADER)[..8] == p[..8]
  {
  }

  lemma {:induction false} NextPage(pages: seq<page>, q: page)
    requires |pages| == 32 && OthersFresh(pages, 0)
    ensures 8 <= |Behind(pages[0 := q], 0)| && Behind(pages[0 := q], 0)[..8] == NEXT
  {
    FormattedStarts();
    var more := pages[0 := q];
    assert more[1] == Formatted() && Behind(more, 0) == more[1] + Behind(more, 1);
    assert (more[1] + Behind(more, 1))[..8] == more[1][..8];
  }

  /** The insert of `c` compacts that page while `b` is live on it, and as written breaks it. */
  lemma {:induction false} FileBreaks(f: File, b: seq<byte>, c: seq<byte>) returns (g: File)
    requires Lone(f, 0) && |f.pages| == 32 && OneLeft(f.pages[0], b) && IsObj(c) && |c| == 1500000
    requires FreeSpace(f.pages[0]) == 2194252 && FreeOffset(f.pages[0]) - SlotOffset(f.pages[0]) == 194252
    ensures MustCompact(f.pages[0], |c|) && HasLive(f.pages[0])
    ensures DmsOps.Insert(f, c, 0) == Stored(g, RecordID(0, 2)) && !Dms.Valid(g)
    ensures DmsOps.Find(g, RecordID(0, 1)) == Found(b[..|b| - 8] + NEXT) && DmsOps.Find(g, RecordID(0, 2)) == Found(c)
  {
    OneLeftLives(f.pages[0], b);
    InsertBreaks(f.pages[0], b, c);
    var q := InsertInto(f.pages[0], c, 0).p;
    g := GoesTo(f, c, 0, q);
    NextPage(f.pages, q);
    Shows(g, q, b, c);
  }

  lemma {:induction false} OneLeftLives(p: page, b: seq<byte>)
    requires OneLeft(p, b)
    ensures NumSlots(p) == 2 && HasLive(p)
  {
    assert NumSlots(p) == |Contents(p)| == 2 && Contents(p)[1] == Some(b);
  }

  lemma {:induction false} GoesTo(f: File, c: seq<byte>, hdr: nat, q: page) returns (g: File)
    requires Lone(f, 0) && |c| < MAX_OBJECT && |c| < FreeSpace(f.pages[0]) < PAGE_SIZE - HEADER
    requires NumSlots(f.pages[0]) == 2 && InsertInto(f.pages[0], c, hdr) == PageResult(q, true)
    ensures DmsOps.Insert(f, c, hdr) == Stored(g, RecordID(0, 2)) && g.pages == f.pages[0 := q] && FreeMap.Sorted(g.free)
  {
    Picks(f, 0, |c|);
    DmsOps.InsertUnfolds(f, c, hdr);
    g := DmsOps.Replaced(f, 0, q);
  }

  lemma {:induction false} Shows(g: File, q: page, b: seq<byte>, c: seq<byte>)
    requires |g.pages| == 32 && g.pages[0] == q && Broken(q, b, c) && 12 <= |b|
    requires 8 <= |Behind(g.pages, 0)| && Behind(g.pages, 0)[..8] == NEXT
    ensures !Dms.Valid(g)
    ensures DmsOps.Find(g, RecordID(0, 1)) == Found(b[..|b| - 8] + NEXT) && DmsOps.Find(g, RecordID(0, 2)) == Found(c)
  {
  }

  /** The step as written: `c` is stored and entered, and `b` is still in the index. */
  lemma {:induction false} Breaks(env: Env, s: Store, b: seq<byte>, kb: Key, c: seq<byte>, kc: Key) returns (t: Store)
    requires Opened(env, s, b, kb) && IsObj(c) && |c| == 1500000 && env.keyOf(c) == Some(kc) && kc != kb
    requires Index.Find(s.index, env.hash, kc) == None
    ensures Step(env, s, Op.Insert(c), 0) == (t, Done) && Shaped(t) && !Sane(t)
    ensures MustCompact(s.file.pages[0], |c|) && HasLive(s.file.pages[0])
    ensures Index.Find(t.index, env.hash, kb) == Some(RecordID(0, 1))
    ensures DmsOps.Find(t.file, RecordID(0, 1)) == Found(b[..|b| - 8] + NEXT)
  {
    var g := FileBreaks(s.file, b, c);
    Index.CreateGrows(s.index, env.hash, kc, RecordID(0, 2));
    t := Store(g, Index.Create(s.index, env.hash, kc, RecordID(0, 2)));
  }

  /** Three records under keys of their own, as the run needs them. */
  predicate Records(env: Env, a: seq<byte>, b: seq<byte>, c: seq<byte>) {
    && IsObj(a) && |a| == 2000000 && IsObj(b) && |b| == 2000000 && IsObj(c) && |c| == 1500000
    && env.keyOf(a).Some? && env.keyOf(b).Some? && env.keyOf(c).Some?
    && env.keyOf(a) != env.keyOf(b) && env.keyOf(c) != env.keyOf(b)
  }

  /**
   From a new file: insert `a`, insert `b`, remove `a`. The insert of `c` that follows compacts the page
   of `b` while `b` is live; as written it leaves no valid page, and the last 8 bytes of `b` are now read
   from the header of the next page.
   */
  lemma {:induction false} LosesB(env: Env, a: seq<byte>, b: seq<byte>, c: seq<byte>, ops: seq<Op>, replies: seq<Reply>)
    returns (s: Store, t: Store)
    requires Records(env, a, b, c) && ops == [Op.Insert(a), Op.Insert(b), Op.Remove(a)] && replies == [Done, Done, Done]
    ensures Leads(Stepping(env, 0), New(1), ops, replies, s) && Sane(s) && |s.file.pages| == 32
    ensures MustCompact(s.file.pages[0], |c|) && HasLive(s.file.pages[0])
    ensures Step(env, s, Op.Insert(c), 0) == (t, Done) && !Sane(t)
    ensures Step(env, t, Op.Find(b), 0) == (t, Got(b[..|b| - 8] + NEXT))
  {
    var kb, kc := env.keyOf(b).value, env.keyOf(c).value;
    s := OpensNew(env, a, b, ops, replies);
    NotIndexed(env, s, map[kb := b], kc);
    t := Breaks(env, s, b, kb, c, kc);
    Answers(env, t, b, kb, RecordID(0, 1), b[..|b| - 8] + NEXT);
  }

  lemma Answers(env: Env, t: Store, query: seq<byte>, key: Key, at: RecordID, x: seq<byte>)
    requires Shaped(t) && env.keyOf(query) == Some(key) && Index.Find(t.index, env.hash, key) == Some(at)
    requires DmsOps.Find(t.file, at) == Found(x)
    ensures Step(env, t, Op.Find(query), 0) == (t, Got(x))
  {
  }

  // ---------------------------------------------------------------- the replies of the run

  lemma {:induction false} TwoMore<S>(step: Stepper<S>, s: S, op: Op, t: S, x: Reply, last: Op, y: Reply)
    requires step(s, op) == (t, x) && step(t, last).1 == y
    ensures RunOf(step, s, [op, last]) == [x, y]
  {
    RunHead(step, s, op, [last], t, x);
    RunHead(step, t, last, [], step(t, last).0, y);
    assert [op, last] == [op] + [last] && [last] == [last] + [];
    assert RunOf(step, step(t, last).0, []) == [];
  }

  lemma {:induction false} Continued(env: Env, s: Store, first: seq<Op>, replies: seq<Reply>, rest: seq<Op>, more: seq<Reply>, ops: seq<Op>)
    requires Leads(Stepping(env, 0), New(1), first, replies, s) && RunOf(Stepping(env, 0), s, rest) == more
    requires ops == first + rest && Shaped(New(1)) && forall o :: o in ops ==> Proper(o)
    ensures Run(env, New(1), ops, 0) == replies + more
  {
    LeadsRun(Stepping(env, 0), New(1), first, replies, s, rest);
    RunIs(env, New(1), ops, 0);
  }

  /** The replies of the run as written. */
  lemma {:induction false} LiteralReplies(env: Env, a: seq<byte>, b: seq<byte>, c: seq<byte>, ops: seq<Op>, last: Reply)
    requires Records(env, a, b, c) && ops == [Op.Insert(a), Op.Insert(b), Op.Remove(a), Op.Insert(c), Op.Find(b)]
    requires (forall o :: o in ops ==> Proper(o)) && last == Got(b[..|b| - 8] + NEXT)
    ensures Run(env, New(1), ops, 0) == [Done, Done, Done, Done, last]
  {
    var first, replies := [Op.Insert(a), Op.Insert(b), Op.Remove(a)], [Done, Done, Done];
    var s, t := LosesB(env, a, b, c, first, replies);
    TwoMore(Stepping(env, 0), s, Op.Insert(c), t, Done, Op.Find(b), last);
    Continued(env, s, first, replies, [Op.Insert(c), Op.Find(b)], [Done, last], ops);
  }

  /** What the map answers: `b` itself. */
  lemma {:induction false} MapAnswers(env: Env, a: seq<byte>, b: seq<byte>, c: seq<byte>, ops: seq<Op>, x: seq<byte>)
    requires Records(env, a, b, c) && ops == [Op.Insert(a), Op.Insert(b), Op.Remove(a), Op.Insert(c), Op.Find(b)]
    ensures Conforms(env, map[], ops, [Done, Done, Done, Done, Got(x)]) <==> x == b
  {
    var ka, kb, kc := env.keyOf(a).value, env.keyOf(b).value, env.keyOf(c).value;
    var m1: Table := map[ka := a];
    var m2, m3 := m1[kb := b], m1[kb := b] - {ka};
    var m4 := m3[kc := c];
    assert After(env, map[], ops[0], Done) == m1;
    ConformsHead(env, map[], ops, [Done, Done, Done, Done, Got(x)]);
    ConformsHead(env, m1, ops[1..], [Done, Done, Done, Got(x)]);
    ConformsHead(env, m2, ops[2..], [Done, Done, Got(x)]);
    ConformsHead(env, m3, ops[3..], [Done, Got(x)]);
    ConformsHead(env, m4, ops[4..], [Got(x)]);
    assert ops[5..] == [] && [Got(x)][1..] == [];
  }

  lemma {:induction false} ConformsHead(env: Env, m: Table, ops: seq<Op>, replies: seq<Reply>)
    requires ops != [] && replies != []
    ensures Conforms(env, m, ops, replies)
      <==> Allowed(env, m, ops[0], replies[0]) && Conforms(env, After(env, m, ops[0], replies[0]), ops[1..], replies[1..])
  {
  }

  lemma EndsWith(b: seq<byte>, end: seq<byte>)
    requires |end| <= |b|
    ensures b[..|b| - |end|] + end == b <==> b[|b| - |end|..] == end
  {
    assert b == b[..|b| - |end|] + b[|b| - |end|..];
    assert (b[..|b| - |end|] + end)[|b| - |end|..] == end;
  }

  /**
   With the stride as written: insert `a`, insert `b`, remove `a`, insert `c`, find `b`. The replies are
   those of a map exactly when `b` ends with the 8 bytes the next page begins with; with insert's stride
   they always are.
   */
  lemma {:induction false} LiteralRunFails(env: Env, a: seq<byte>, b: seq<byte>, c: seq<byte>, ops: seq<Op>)
    requires Records(env, a, b, c) && ops == [Op.Insert(a), Op.Insert(b), Op.Remove(a), Op.Insert(c), Op.Find(b)]
    ensures forall o :: o in ops ==> Proper(o)
    ensures Run(env, New(1), ops, 0) == [Done, Done, Done, Done, Got(b[..|b| - 8] + NEXT)]
    ensures Conforms(env, map[], ops, Run(env, New(1), ops, 0)) <==> b[|b| - 8..] == NEXT
    ensures Conforms(env, map[], ops, Run(env, New(1), ops, RECORD))
  {
    LiteralReplies(env, a, b, c, ops, Got(b[..|b| - 8] + NEXT));
    MapAnswers(env, a, b, c, ops, b[..|b| - 8] + NEXT);
    EndsWith(b, NEXT);
    StoreIsAMap(env, 1, ops);
  }
}
