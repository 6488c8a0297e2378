/**
 Two runs over documents, from a new file: insert `a`, insert `b`, remove `a`, insert `c`, find `b`. The insert
 of `c` compacts the page of `b`. With the stride as written find answers other bytes than `b`; with pointers to
 keys it does not find `b` at all.
 */
module StaleRuns {
  import opened Bytes
  import opened Page
  import opened PageBytes
  import opened Compaction
  import opened PageOps
  import opened Dms
  import opened Refinement
  import opened Rtn
  import opened Runs
  import opened OnePage
  import opened LiteralStride
  import opened PointerRuns
  import P = PointerKeys
  import Bson
  import BsonRead
  import RecordKey
  import DocPointers
  import DmsOps
  import Index
  import FreeMap

  // ---------------------------------------------------------------- such documents

  const NAME: seq<byte> := [112]   // "p"

  /** A document with an integer key and as many zeros as make it `n` bytes long. */
  function Filled(raw: seq<byte>, n: nat): seq<Bson.Field>
    requires |raw| == 4 && 22 <= n
  {
    [Bson.Field(RecordKey.ID, Bson.Raw(Bson.INT, raw)), Bson.Field(NAME, Bson.Bin(0, seq(n - 22, _ => 0)))]
  }

  lemma {:induction false} FilledBytes(raw: seq<byte>, n: nat, zeros: seq<byte>)
    requires |raw| == 4 && 22 <= n && zeros == seq(n - 22, _ => 0)
    ensures Bson.EncodeFields(Filled(raw, n)) ==
      [Bson.INT] + (RecordKey.ID + [0]) + raw + ([Bson.BINDATA] + (NAME + [0]) + (Bson.W(n - 22) + [0] + zeros))
  {
    var fs := Filled(raw, n);
    assert fs[1..][1..] == [] && fs[1..] == [fs[1]];
    assert Bson.EncodeFields(fs[1..]) == Bson.EncodeField(fs[1]) + [];
  }

  lemma {:induction false} FilledOk(raw: seq<byte>, n: nat)
    requires |raw| == 4 && 22 <= n
    ensures Bson.FieldsOk(Filled(raw, n))
  {
    var fs := Filled(raw, n);
    assert fs[1..][1..] == [] && fs[1..] == [fs[1]];
    assert Bson.FieldsOk(fs[1..][1..]);
    assert Bson.FixedSize(Bson.INT) == Some(4);
    assert Bson.FieldsOk(fs[1..]);
  }

  /** It is a record with that key; past its first 21 bytes it is all zeros. */
  lemma {:induction false} FilledRecord(raw: seq<byte>, n: nat)
    requires |raw| == 4 && 22 <= n < 0x8000_0000
    ensures Bson.FieldsOk(Filled(raw, n))
    ensures var d := Bson.EncodeDoc(Filled(raw, n));
      && |d| == n && IsObj(d) && RecordKey.KeyOf(d) == Some(Index.Key(Bson.INT, raw)) && d[4] == Bson.INT
      && DocPointers.IdAt(d) == 4 && forall i :: 21 <= i < n ==> d[i] == 0
  {
    var fs := Filled(raw, n);
    FilledOk(raw, n);
    FilledBytes(raw, n, seq(n - 22, _ => 0));
    RecordKey.KeyOfBuilt(fs);
    BsonRead.DecodeEncode(fs);
  }

  lemma AreDocuments(x: seq<Bson.Field>, y: seq<Bson.Field>, z: seq<Bson.Field>, a: seq<byte>, b: seq<byte>, c: seq<byte>, ops: seq<Op>)
    requires Bson.FieldsOk(x) && Bson.FieldsOk(y) && Bson.FieldsOk(z) && |a| < MAX_OBJECT && |b| < MAX_OBJECT && |c| < MAX_OBJECT
    requires a == Bson.EncodeDoc(x) && b == Bson.EncodeDoc(y) && c == Bson.EncodeDoc(z)
    requires ops == [Op.Insert(a), Op.Insert(b), Op.Remove(a), Op.Insert(c), Op.Find(b)]
    ensures RecordKey.OfDocuments(ops)
  {
  }

  /**
   LiteralRunFails is about documents too: for the way the code reads keys, and any hash function, there is
   a run that with the stride as written does not answer as a map.
   */
  lemma {:induction false} LiteralStoreIsNoMap(hash: Key -> nat) returns (ops: seq<Op>)
    ensures RecordKey.OfDocuments(ops) && (forall op :: op in ops ==> Proper(op)) && Sane(New(1))
    ensures var env := Env(RecordKey.KeyOf, hash); !Conforms(env, map[], ops, Run(env, New(1), ops, 0))
  {
    var x, y, z := Filled([1, 0, 0, 0], 2000000), Filled([2, 0, 0, 0], 2000000), Filled([3, 0, 0, 0], 1500000);
    FilledRecord([1, 0, 0, 0], 2000000);
    FilledRecord([2, 0, 0, 0], 2000000);
    FilledRecord([3, 0, 0, 0], 1500000);
    NewFile(1, Formatted());
    ops := FailingRun(Env(RecordKey.KeyOf, hash), x, y, z, Bson.EncodeDoc(x), Bson.EncodeDoc(y), Bson.EncodeDoc(z));
  }

  lemma {:induction false} FailingRun(env: Env, x: seq<Bson.Field>, y: seq<Bson.Field>, z: seq<Bson.Field>,
      a: seq<byte>, b: seq<byte>, c: seq<byte>) returns (ops: seq<Op>)
    requires Bson.FieldsOk(x) && Bson.FieldsOk(y) && Bson.FieldsOk(z)
    requires a == Bson.EncodeDoc(x) && b == Bson.EncodeDoc(y) && c == Bson.EncodeDoc(z) && Records(env, a, b, c)
    requires b[|b| - 1] == 0 && b[|b| - 8] == 0
    ensures RecordKey.OfDocuments(ops) && (forall op :: op in ops ==> Proper(op)) && Shaped(New(1))
    ensures !Conforms(env, map[], ops, Run(env, New(1), ops, 0))
  {
    ops := [Op.Insert(a), Op.Insert(b), Op.Remove(a), Op.Insert(c), Op.Find(b)];
    AreDocuments(x, y, z, a, b, c, ops);
    LiteralRunFails(env, a, b, c, ops);
    assert b[|b| - 8..][0] == 0 != NEXT[0];
  }

  // ---------------------------------------------------------------- the page of b when c comes

  lemma {:induction false} UsedOne(p: page, b: seq<byte>, hdr: nat)
    requires OneLeft(p, b)
    ensures NumSlots(p) == 2 && Used(Decode(p).cells, 2, hdr) == hdr + |b|
  {
    var a := Decode(p);
    assert |a.cells| == |Contents(p)| == 2 && View(a)[0] == None && View(a)[1] == Some(b);
    assert a.cells[0] == Dead && a.cells[1].At?;
    assert Used(a.cells, 0, hdr) == 0;
    assert Used(a.cells, 1, hdr) == 0;
  }

  /** `c` in slot 2, its record beginning at `low`. */
  predicate HoldsC(q: page, low: u32, c: seq<byte>) {
    && NumSlots(q) == 3 && IsObj(c) && |c| < MAX_OBJECT
    && q[36..40] == LE32(low) && low + 8 + |c| <= PAGE_SIZE && q[low..low + 8 + |c|] == RecordBytes(c)
  }

  /** With either stride the insert of `c` compacts the page, and its record covers the bytes where `b` lay. */
  lemma {:induction false} Covers(p: page, b: seq<byte>, c: seq<byte>, hdr: nat) returns (q: page, low: u32)
    requires OneLeft(p, b) && |b| == 2000000 && IsObj(c) && |c| == 2100000 && (hdr == 0 || hdr == RECORD)
    requires FreeSpace(p) == 2194252 && FreeOffset(p) - SlotOffset(p) == 194252
    ensures InsertInto(p, c, hdr) == PageResult(q, true) && low == 94296 - hdr && HoldsC(q, low, c)
  {
    var off, ext := OneLeftIs(p, b);
    CompactCounters(p, hdr);
    UsedOne(p, b, hdr);
    q, low := PutC(p, Compact(p, hdr), c, hdr);
  }

  lemma {:induction false} PutC(p: page, r: page, c: seq<byte>, hdr: nat) returns (q: page, low: u32)
    requires PageBytes.Valid(p) && MustCompact(p, |c|) && r == Compact(p, hdr) && (hdr == 0 || hdr == RECORD)
    requires NumSlots(r) == 2 && SlotOffset(r) == 36 && FreeSpace(r) == 2194252 && FreeOffset(r) == 2194304 - hdr
    requires IsObj(c) && |c| == 2100000
    ensures InsertInto(p, c, hdr) == PageResult(q, true) && low == 94296 - hdr && HoldsC(q, low, c)
  {
    low := 94296 - hdr;
    q := PageBytes.Inserted(r, c);
    InsertedBytes(r, c, RecordBytes(c), low);
  }

  /** The record's data, and the key in it. */
  lemma {:induction false} CData(q: page, low: u32, c: seq<byte>)
    requires HoldsC(q, low, c)
    ensures SlotAt(q, 2) == low && q[low + 8..low + 8 + |c|] == c
    ensures forall tail :: FindRecord(q, tail, 2) == Found(c)
  {
    SameWord(q, 36, LE32(low), 0) by { assert q[36..40] == LE32(low); }
    assert q[low + 8..low + 8 + |c|] == q[low..low + 8 + |c|][8..];
    forall tail
      ensures FindRecord(q, tail, 2) == Found(c)
    {
      ReadsC(q, tail, low, c);
    }
  }

  /** Where the key of `b` lay there is a zero now. */
  lemma {:induction false} ZeroThere(q: page, low: u32, c: seq<byte>, hdr: nat)
    requires HoldsC(q, low, c) && low == 94296 - hdr && |c| == 2100000 && (hdr == 0 || hdr == RECORD)
    requires forall i :: 21 <= i < |c| ==> c[i] == 0
    ensures q[194300] == 0
  {
    CData(q, low, c);
    assert q[194300] == q[low + 8..low + 8 + |c|][194292 - low];
  }

  // ---------------------------------------------------------------- the file and its pointers

  lemma {:induction false} FileTakesC(f: File, b: seq<byte>, c: seq<byte>, hdr: nat) returns (g: File, q: page, low: u32)
    requires Lone(f, 0) && OneLeft(f.pages[0], b) && |b| == 2000000 && IsObj(c) && |c| == 2100000
    requires FreeSpace(f.pages[0]) == 2194252 && FreeOffset(f.pages[0]) - SlotOffset(f.pages[0]) == 194252
    requires hdr == 0 || hdr == RECORD
    ensures DmsOps.Insert(f, c, hdr) == Stored(g, RecordID(0, 2)) && g.pages == f.pages[0 := q] && FreeMap.Sorted(g.free)
    ensures low == 94296 - hdr && HoldsC(q, low, c) && DmsOps.Find(g, RecordID(0, 2)) == Found(c)
  {
    q, low := Covers(f.pages[0], b, c, hdr);
    OneLeftLives(f.pages[0], b);
    g := GoesTo(f, c, hdr, q);
    CData(q, low, c);
  }

  /** `b` is the only record of the file. */
  lemma {:induction false} OnlyRecord(f: File, b: seq<byte>, rid: RecordID)
    requires Lone(f, 0) && OneLeft(f.pages[0], b) && Record(f, rid).Some?
    ensures rid == RecordID(0, 1)
  {
    EmptyPage();
    assert |Contents(f.pages[0])| == NumSlots(f.pages[0]);
  }

  /** A pointer to that place shows no key. */
  lemma {:induction false} ShowsNothing(pages: seq<page>, e: P.Ptr)
    requires e.rid == RecordID(0, 1) && e.off == 194300 && 0 < |pages| && pages[0][194300] == 0
    ensures P.ShownAt(DocPointers.ById(), pages, e) == Index.Key(0, [])
  {
    var mem := pages[0][194300..] + Behind(pages, 0);
    assert mem[0] == 0;
  }

  /** No pointer of the index shows the key. */
  predicate NoneShows(rd: P.Reading, pages: seq<page>, x: P.Buckets, key: Key) {
    forall i, e :: 0 <= i < |x| && e in x[i] ==> P.ShownAt(rd, pages, e) != key
  }

  lemma {:induction false} NotFound(rd: P.Reading, pages: seq<page>, x: P.Buckets, hash: Index.Hash, key: Key)
    requires P.Ordered(x) && NoneShows(rd, pages, x, key)
    ensures P.Find(rd, pages, x, hash, key) == None
  {
    P.SeenOrdered(rd, pages, x);
    var i := Index.Bucket(hash, key);
    var s := P.SeenIn(rd, pages, x[i]);
    forall j | 0 <= j < |s|
      ensures s[j].key != key
    {
      assert x[i][j] in x[i];
    }
  }

  lemma {:induction false} EnteredShows(rd: P.Reading, pages: seq<page>, x: P.Buckets, i: nat, e: P.Ptr, key: Key)
    requires P.Ordered(x) && i < Index.BUCKETS && NoneShows(rd, pages, x, key) && P.ShownAt(rd, pages, e) != key
    ensures NoneShows(rd, pages, P.Create(x, i, e), key)
  {
    var n := P.Upper(x[i], e.hash);
    assert x[i] == x[i][..n] + x[i][n..];
    forall k, d | 0 <= k < |x| && d in P.Create(x, i, e)[k]
      ensures P.ShownAt(rd, pages, d) != key
    {
      assert d == e || d in x[k];
    }
  }

  /** All pointers of the store were to the one record `b`, and now show nothing. */
  lemma {:induction false} OldShowNothing(env: Env, s: Store, t: P.PStore, b: seq<byte>, pages: seq<page>, key: Key)
    requires Pointing(env, DocPointers.ById(), s, t) && Lone(s.file, 0) && OneLeft(s.file.pages[0], b)
    requires SlotAt(s.file.pages[0], 1) == 194288 && DocPointers.IdAt(b) == 4 && key.tag != 0
    requires 0 < |pages| && pages[0][194300] == 0
    ensures NoneShows(DocPointers.ById(), pages, t.index, key)
  {
    var rd, idx := DocPointers.ById(), s.index;
    forall i, e | 0 <= i < |t.index| && e in t.index[i]
      ensures P.ShownAt(rd, pages, e) != key
    {
      var j :| 0 <= j < |t.index[i]| && t.index[i][j] == e;
      assert KeyedIn(env, s.file, idx[i]) && HasRecord(env, s.file, idx[i][j]);
      OnlyRecord(s.file, b, idx[i][j].rid);
      assert Record(s.file, RecordID(0, 1)) == Some(b);
      ShowsNothing(pages, e);
    }
  }

  /** The new pointer shows the key of `c`. */
  lemma {:induction false} NewShowsC(env: Env, rd: P.Reading, pages: seq<page>, q: page, low: u32, c: seq<byte>, h: nat, key: Key)
    requires 0 < |pages| && pages[0] == q && HoldsC(q, low, c) && P.Reads(env, rd, c) && env.keyOf(c) == Some(key)
    ensures P.ShownAt(rd, pages, P.Ptr(h, P.Place(pages, RecordID(0, 2)) + rd.at(c), RecordID(0, 2))) == key
  {
    CData(q, low, c);
    var tail := RestOf(q, low + 8, c, rd.at(c), Behind(pages, 0));
    assert rd.keyAt(c[rd.at(c)..] + tail) == key;
  }

  // ---------------------------------------------------------------- the run

  /** Three such documents with keys of their own, `c` long enough to cover the place of `b`. */
  predicate Wide(env: Env, a: seq<byte>, b: seq<byte>, c: seq<byte>) {
    && IsObj(a) && |a| == 2000000 && IsObj(b) && |b| == 2000000 && IsObj(c) && |c| == 2100000
    && env.keyOf(a).Some? && env.keyOf(b).Some? && env.keyOf(c).Some?
    && env.keyOf(a) != env.keyOf(b) && env.keyOf(c) != env.keyOf(b)
    && env.keyOf(b).value.tag != 0 && DocPointers.IdAt(b) == 4 && forall i :: 21 <= i < |c| ==> c[i] == 0
  }

  /** The insert of `c`: `c` is stored and entered, and from then on no pointer shows the key of `b`. */
  lemma {:induction false} TakesC(env: Env, s: Store, t: P.PStore, a: seq<byte>, b: seq<byte>, c: seq<byte>, hdr: nat)
    returns (u: P.PStore)
    requires Wide(env, a, b, c) && Opened(env, s, b, env.keyOf(b).value) && Pointing(env, DocPointers.ById(), s, t) && P.Shaped(t)
    requires Index.Find(s.index, env.hash, env.keyOf(c).value) == None && P.Reads(env, DocPointers.ById(), c)
    requires hdr == 0 || hdr == RECORD
    ensures P.Step(env, DocPointers.ById(), t, Op.Insert(c), hdr) == (u, Done) && P.Shaped(u)
    ensures P.Find(DocPointers.ById(), u.file.pages, u.index, env.hash, env.keyOf(b).value) == None
  {
    var rd, kb, kc := DocPointers.ById(), env.keyOf(b).value, env.keyOf(c).value;
    SameFind(env, rd, s, t, kc);
    var g, q, low := FileTakesC(s.file, b, c, hdr);
    ZeroThere(q, low, c, hdr);
    u := CreateC(env, rd, t.(file := g), c, kc);
    InsertStores(env, rd, t, c, kc, g, RecordID(0, 2), hdr);
    OldShowNothing(env, s, t, b, g.pages, kb);
    KeyGone(env, rd, t, g.pages, q, low, c, kc, kb, u);
  }

  /** Where the key of a new record lies. */
  function NewPtr(env: Env, rd: P.Reading, pages: seq<page>, c: seq<byte>, kc: Key): P.Ptr {
    P.Ptr(env.hash(kc), P.Place(pages, RecordID(0, 2)) + rd.at(c), RecordID(0, 2))
  }

  lemma {:induction false} KeyGone(env: Env, rd: P.Reading, t: P.PStore, pages: seq<page>, q: page, low: u32,
      c: seq<byte>, kc: Key, kb: Key, u: P.PStore)
    requires P.Ordered(t.index) && NoneShows(rd, pages, t.index, kb) && kc != kb
    requires 0 < |pages| && pages[0] == q && HoldsC(q, low, c) && P.Reads(env, rd, c) && env.keyOf(c) == Some(kc)
    requires u.index == P.Create(t.index, Index.Bucket(env.hash, kc), NewPtr(env, rd, pages, c, kc))
    ensures P.Find(rd, pages, u.index, env.hash, kb) == None
  {
    NewShowsC(env, rd, pages, q, low, c, env.hash(kc), kc);
    EnteredShows(rd, pages, t.index, Index.Bucket(env.hash, kc), NewPtr(env, rd, pages, c, kc), kb);
    NotFound(rd, pages, u.index, env.hash, kb);
  }

  lemma {:induction false} CreateC(env: Env, rd: P.Reading, t: P.PStore, c: seq<byte>, kc: Key) returns (u: P.PStore)
    requires P.Shaped(t) && env.keyOf(c) == Some(kc) && DmsOps.Find(t.file, RecordID(0, 2)) == Found(c)
    ensures P.CreateIndex(env, rd, t, RecordID(0, 2)) == (u, Done) && u.file == t.file
    ensures u.index == P.Create(t.index, Index.Bucket(env.hash, kc), NewPtr(env, rd, t.file.pages, c, kc))
  {
    CreateIndexIs(env, rd, t, RecordID(0, 2), c, kc);
    u := t.(index := P.Entered(env, rd, t.file.pages, t.index, RecordID(0, 2), c, kc));
  }

  lemma InsertStores(env: Env, rd: P.Reading, t: P.PStore, rec: seq<byte>, key: Key, g: File, at: RecordID, hdr: nat)
    requires P.Shaped(t) && Proper(Op.Insert(rec)) && env.keyOf(rec) == Some(key) && hdr <= RECORD && FreeMap.Sorted(g.free)
    requires P.Find(rd, t.file.pages, t.index, env.hash, key) == None && DmsOps.Insert(t.file, rec, hdr) == Stored(g, at)
    ensures P.Step(env, rd, t, Op.Insert(rec), hdr) == P.CreateIndex(env, rd, t.(file := g), at)
  {
  }

  lemma {:induction false} ContinuedP(env: Env, rd: P.Reading, hdr: nat, first: seq<Op>, replies: seq<Reply>, t: P.PStore,
      rest: seq<Op>, more: seq<Reply>, ops: seq<Op>)
    requires hdr <= RECORD && P.Shaped(P.New(1)) && Leads(Pointer(env, rd, hdr), P.New(1), first, replies, t)
    requires RunOf(Pointer(env, rd, hdr), t, rest) == more && ops == first + rest && forall o :: o in ops ==> Proper(o)
    ensures P.Run(env, rd, P.New(1), ops, hdr) == replies + more
  {
    LeadsRun(Pointer(env, rd, hdr), P.New(1), first, replies, t, rest);
    RunIsP(env, rd, P.New(1), ops, hdr);
  }

  /** The store with pointers after insert `a`, insert `b`, remove `a`, from a new file. */
  lemma {:induction false} OpensP(env: Env, a: seq<byte>, b: seq<byte>, c: seq<byte>, hdr: nat, ops: seq<Op>, replies: seq<Reply>)
    returns (s: Store, t: P.PStore)
    requires Wide(env, a, b, c) && (hdr == 0 || hdr == RECORD) && AllLegible(env, DocPointers.ById(), ops)
    requires ops == [Op.Insert(a), Op.Insert(b), Op.Remove(a)] && replies == [Done, Done, Done]
    ensures Leads(Pointer(env, DocPointers.ById(), hdr), P.New(1), ops, replies, t) && P.Shaped(P.New(1)) && P.Shaped(t)
    ensures Opened(env, s, b, env.keyOf(b).value) && Pointing(env, DocPointers.ById(), s, t)
    ensures Index.Find(s.index, env.hash, env.keyOf(c).value) == None
  {
    s := OpensNew(env, a, b, ops, replies);
    NewPoints(env, DocPointers.ById(), 1);
    t := CalmPoints(env, DocPointers.ById(), hdr, New(1), P.New(1), map[], ops, replies, s);
    NotIndexed(env, s, map[env.keyOf(b).value := b], env.keyOf(c).value);
  }

  lemma AnswersNone(env: Env, rd: P.Reading, u: P.PStore, query: seq<byte>, hdr: nat)
    requires P.Shaped(u) && hdr <= RECORD && env.keyOf(query).Some?
    requires P.Find(rd, u.file.pages, u.index, env.hash, env.keyOf(query).value) == None
    ensures P.Step(env, rd, u, Op.Find(query), hdr) == (u, InvalidArg)
  {
  }

  lemma FirstThree(env: Env, rd: P.Reading, v: Op, w: Op, x: Op, y: Op, z: Op, ops: seq<Op>)
    requires ops == [v, w, x, y, z] && AllLegible(env, rd, ops)
    ensures AllLegible(env, rd, [v, w, x]) && ops == [v, w, x] + [y, z] && y in ops
  {
  }

  /** The last two replies. */
  lemma {:induction false} StaleEnd(env: Env, s: Store, t: P.PStore, a: seq<byte>, b: seq<byte>, c: seq<byte>, hdr: nat)
    requires Wide(env, a, b, c) && Opened(env, s, b, env.keyOf(b).value) && Pointing(env, DocPointers.ById(), s, t) && P.Shaped(t)
    requires Index.Find(s.index, env.hash, env.keyOf(c).value) == None && P.Reads(env, DocPointers.ById(), c)
    requires hdr == 0 || hdr == RECORD
    ensures RunOf(Pointer(env, DocPointers.ById(), hdr), t, [Op.Insert(c), Op.Find(b)]) == [Done, InvalidArg]
  {
    var u := TakesC(env, s, t, a, b, c, hdr);
    EndsNone(env, DocPointers.ById(), t, u, b, c, hdr);
  }

  lemma {:induction false} EndsNone(env: Env, rd: P.Reading, t: P.PStore, u: P.PStore, b: seq<byte>, c: seq<byte>, hdr: nat)
    requires P.Shaped(t) && P.Shaped(u) && hdr <= RECORD && env.keyOf(b).Some? && Proper(Op.Insert(c))
    requires P.Step(env, rd, t, Op.Insert(c), hdr) == (u, Done)
    requires P.Find(rd, u.file.pages, u.index, env.hash, env.keyOf(b).value) == None
    ensures RunOf(Pointer(env, rd, hdr), t, [Op.Insert(c), Op.Find(b)]) == [Done, InvalidArg]
  {
    AnswersNone(env, rd, u, b, hdr);
    TwoMore(Pointer(env, rd, hdr), t, Op.Insert(c), u, Done, Op.Find(b), InvalidArg);
  }

  lemma {:induction false} StaleLeads(env: Env, a: seq<byte>, b: seq<byte>, c: seq<byte>, hdr: nat, ops: seq<Op>, replies: seq<Reply>)
    returns (t: P.PStore)
    requires Wide(env, a, b, c) && (hdr == 0 || hdr == RECORD) && AllLegible(env, DocPointers.ById(), ops)
    requires ops == [Op.Insert(a), Op.Insert(b), Op.Remove(a)] && replies == [Done, Done, Done]
    requires P.Reads(env, DocPointers.ById(), c)
    ensures P.Shaped(P.New(1)) && Leads(Pointer(env, DocPointers.ById(), hdr), P.New(1), ops, replies, t)
    ensures RunOf(Pointer(env, DocPointers.ById(), hdr), t, [Op.Insert(c), Op.Find(b)]) == [Done, InvalidArg]
  {
    var s;
    s, t := OpensP(env, a, b, c, hdr, ops, replies);
    StaleEnd(env, s, t, a, b, c, hdr);
  }

  lemma AllProper(a: seq<byte>, b: seq<byte>, c: seq<byte>, ops: seq<Op>)
    requires IsObj(a) && |a| < MAX_OBJECT && IsObj(b) && |b| < MAX_OBJECT && IsObj(c) && |c| < MAX_OBJECT
    requires ops == [Op.Insert(a), Op.Insert(b), Op.Remove(a), Op.Insert(c), Op.Find(b)]
    ensures forall o :: o in ops ==> Proper(o)
  {
  }

  /**
   With pointers to keys, and either stride: insert `a`, insert `b`, remove `a`, insert `c`, find `b`. `b` is
   not found, although the store holds it.
   */
  lemma {:induction false} StaleReplies(env: Env, a: seq<byte>, b: seq<byte>, c: seq<byte>, hdr: nat, ops: seq<Op>)
    requires Wide(env, a, b, c) && (hdr == 0 || hdr == RECORD) && AllLegible(env, DocPointers.ById(), ops)
    requires ops == [Op.Insert(a), Op.Insert(b), Op.Remove(a), Op.Insert(c), Op.Find(b)]
    ensures (forall o :: o in ops ==> Proper(o)) && P.Shaped(P.New(1))
    ensures P.Run(env, DocPointers.ById(), P.New(1), ops, hdr) == [Done, Done, Done, Done, InvalidArg]
  {
    var first, replies := [Op.Insert(a), Op.Insert(b), Op.Remove(a)], [Done, Done, Done];
    FirstThree(env, DocPointers.ById(), Op.Insert(a), Op.Insert(b), Op.Remove(a), Op.Insert(c), Op.Find(b), ops);
    AllProper(a, b, c, ops);
    var t := StaleLeads(env, a, b, c, hdr, first, replies);
    ContinuedP(env, DocPointers.ById(), hdr, first, replies, t, [Op.Insert(c), Op.Find(b)], [Done, InvalidArg], ops);
    Fourth();
  }

  lemma Fourth()
    ensures [Done, Done, Done] + [Done, InvalidArg] == [Done, Done, Done, Done, InvalidArg]
  {
  }

  /** What the map answers to the last request is `b`. */
  lemma {:induction false} MapFinds(env: Env, a: seq<byte>, b: seq<byte>, c: seq<byte>, ops: seq<Op>)
    requires Wide(env, a, b, c) && ops == [Op.Insert(a), Op.Insert(b), Op.Remove(a), Op.Insert(c), Op.Find(b)]
    ensures !Conforms(env, map[], ops, [Done, Done, Done, Done, InvalidArg])
  {
    var ka, kb, kc := env.keyOf(a).value, env.keyOf(b).value, env.keyOf(c).value;
    var m1: Table := map[ka := a];
    var m3 := m1[kb := b] - {ka};
    ConformsHead(env, map[], ops, [Done, Done, Done, Done, InvalidArg]);
    ConformsHead(env, m1, ops[1..], [Done, Done, Done, InvalidArg]);
    ConformsHead(env, m1[kb := b], ops[2..], [Done, Done, InvalidArg]);
    ConformsHead(env, m3, ops[3..], [Done, InvalidArg]);
    ConformsHead(env, m3[kc := c], ops[4..], [InvalidArg]);
    assert kb in m3[kc := c];
  }

  lemma {:induction false} FilledWide(hash: Key -> nat, a: seq<byte>, b: seq<byte>, c: seq<byte>)
    requires a == Bson.EncodeDoc(Filled([1, 0, 0, 0], 2000000)) && b == Bson.EncodeDoc(Filled([2, 0, 0, 0], 2000000))
    requires c == Bson.EncodeDoc(Filled([3, 0, 0, 0], 2100000))
    ensures Bson.FieldsOk(Filled([1, 0, 0, 0], 2000000)) && Bson.FieldsOk(Filled([2, 0, 0, 0], 2000000))
    ensures Bson.FieldsOk(Filled([3, 0, 0, 0], 2100000)) && Wide(Env(RecordKey.KeyOf, hash), a, b, c)
  {
    FilledRecord([1, 0, 0, 0], 2000000);
    FilledRecord([2, 0, 0, 0], 2000000);
    FilledRecord([3, 0, 0, 0], 2100000);
  }

  /** For every hash function there are such documents: with either stride the index as written loses one. */
  lemma {:induction false} PointerStoreIsNoMap(hash: Key -> nat, hdr: nat) returns (ops: seq<Op>)
    requires hdr == 0 || hdr == RECORD
    ensures RecordKey.OfDocuments(ops) && (forall op :: op in ops ==> Proper(op)) && P.Shaped(P.New(1))
    ensures var env := Env(RecordKey.KeyOf, hash);
      && P.Run(env, DocPointers.ById(), P.New(1), ops, hdr) == [Done, Done, Done, Done, InvalidArg]
      && !Conforms(env, map[], ops, [Done, Done, Done, Done, InvalidArg])
  {
    var x, y, z := Filled([1, 0, 0, 0], 2000000), Filled([2, 0, 0, 0], 2000000), Filled([3, 0, 0, 0], 2100000);
    FilledWide(hash, Bson.EncodeDoc(x), Bson.EncodeDoc(y), Bson.EncodeDoc(z));
    ops := LosingRun(hash, hdr, x, y, z, Bson.EncodeDoc(x), Bson.EncodeDoc(y), Bson.EncodeDoc(z));
  }

  lemma {:induction false} LosingRun(hash: Key -> nat, hdr: nat, x: seq<Bson.Field>, y: seq<Bson.Field>, z: seq<Bson.Field>,
      a: seq<byte>, b: seq<byte>, c: seq<byte>) returns (ops: seq<Op>)
    requires Bson.FieldsOk(x) && Bson.FieldsOk(y) && Bson.FieldsOk(z) && (hdr == 0 || hdr == RECORD)
    requires a == Bson.EncodeDoc(x) && b == Bson.EncodeDoc(y) && c == Bson.EncodeDoc(z) && Wide(Env(RecordKey.KeyOf, hash), a, b, c)
    ensures RecordKey.OfDocuments(ops) && (forall op :: op in ops ==> Proper(op)) && P.Shaped(P.New(1))
    ensures var env := Env(RecordKey.KeyOf, hash);
      && P.Run(env, DocPointers.ById(), P.New(1), ops, hdr) == [Done, Done, Done, Done, InvalidArg]
      && !Conforms(env, map[], ops, [Done, Done, Done, Done, InvalidArg])
  {
    var env := Env(RecordKey.KeyOf, hash);
    ops := [Op.Insert(a), Op.Insert(b), Op.Remove(a), Op.Insert(c), Op.Find(b)];
    AreDocuments(x, y, z, a, b, c, ops);
    DocPointers.DocumentsLegible(hash, ops);
    StaleReplies(env, a, b, c, hdr, ops);
    MapFinds(env, a, b, c, ops);
  }
}
