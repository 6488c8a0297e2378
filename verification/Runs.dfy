/** Whole runs of the store: any sequence of inserts, finds, removes and reopenings of the file. */
module Runs {
  import opened Bytes
  import opened Page
  import opened PageBytes
  import opened PageOps
  import opened Dms
  import opened Refinement
  import opened Rtn
  import opened Reopen
  import DmsOps
  import Index
  import FreeMap

  /** A caller hands over BSON objects; their size fits a signed int. */
  predicate Proper(op: Op) {
    op.Insert? ==> IsObj(op.rec) && |op.rec| < MAX_OBJECT
  }

  function Step(env: Env, s: Store, op: Op, hdr: nat): (r: (Store, Reply))
    requires Shaped(s) && Proper(op) && hdr <= RECORD
    ensures Shaped(r.0)
  {
    match op
    case Insert(rec) => RtnInsert(env, s, rec, hdr)
    case Find(query) => (s, RtnFind(env, s, query))
    case Remove(query) => RtnRemove(env, s, query)
    case Reopen => ReopenStep(env, s)
  }

  function ReopenStep(env: Env, s: Store): (r: (Store, Reply))
    requires Shaped(s)
    ensures Shaped(r.0)
  {
    if exists i :: 0 <= i < |s.file.pages| && !TableFits(s.file.pages[i]) then (s, SysError)
    else match Open(env, s.file.segments, s.file.pages, s.file.room, s.file.blank)
    case None => (s, SysError)
    case Some(t) => (t, Done)
  }

  /** The replies of a run. */
  ghost function Run(env: Env, s: Store, ops: seq<Op>, hdr: nat): seq<Reply>
    requires Shaped(s) && (forall op :: op in ops ==> Proper(op)) && hdr <= RECORD
    decreases |ops|
  {
    if ops == [] then []
    else
      var r := Step(env, s, ops[0], hdr);
      [r.1] + Run(env, r.0, ops[1..], hdr)
  }

  // ---------------------------------------------------------------- what a map would do

  /** The replies a map allows; only an insert under a fresh key may fail for want of space. */
  predicate Allowed(env: Env, m: Table, op: Op, reply: Reply) {
    match op
    case Insert(rec) =>
      (match env.keyOf(rec)
       case None => reply == InvalidArg
       case Some(key) => if key in m then reply == IdExists else reply == Done || reply == SysError)
    case Find(query) =>
      reply == (match env.keyOf(query)
                case None => InvalidArg
                case Some(key) => if key in m then Got(m[key]) else InvalidArg)
    case Remove(query) =>
      reply == (match env.keyOf(query)
                case None => InvalidArg
                case Some(key) => if key in m then Done else InvalidArg)
    case Reopen => reply == Done
  }

  /** Only a reply of success changes the map, and only at the key of the request. */
  function After(env: Env, m: Table, op: Op, reply: Reply): Table {
    if reply != Done then m
    else
      match op
      case Insert(rec) => (match env.keyOf(rec) case None => m case Some(key) => m[key := rec])
      case Remove(query) => (match env.keyOf(query) case None => m case Some(key) => m - {key})
      case Find(_) => m
      case Reopen => m
  }

  predicate Conforms(env: Env, m: Table, ops: seq<Op>, replies: seq<Reply>)
    decreases |ops|
  {
    if ops == [] || replies == [] then ops == [] && replies == []
    else Allowed(env, m, ops[0], replies[0]) && Conforms(env, After(env, m, ops[0], replies[0]), ops[1..], replies[1..])
  }

  lemma {:induction false} ReopenHolds(env: Env, s: Store, m: Table)
    requires Represents(env, s, m)
    ensures ReopenStep(env, s).1 == Done && Represents(env, ReopenStep(env, s).0, m)
  {
    ReopenRebuilds(env, s);
    assert forall j :: 0 <= j < |s.file.pages| ==> TableFits(s.file.pages[j]);
    var t := ReopenStep(env, s).0;
    SamePages(s.file, t.file);
    SameServes(env.keyOf, PairOf(env, s), PairOf(env, t), m);
  }

  lemma {:induction false} SamePages(f: File, g: File)
    requires Dms.Valid(f) && Dms.Valid(g) && f.pages == g.pages
    ensures forall rid :: Record(f, rid) == Record(g, rid)
  {
  }

  lemma {:induction false} StepConforms(env: Env, s: Store, m: Table, op: Op)
    requires Represents(env, s, m) && Proper(op)
    ensures var r := Step(env, s, op, RECORD);
      Allowed(env, m, op, r.1) && Represents(env, r.0, After(env, m, op, r.1))
  {
    match op
    case Insert(rec) => InsertStep(env, s, rec, m);
    case Find(query) => FindStep(env, s, query, m);
    case Remove(query) => RemoveStep(env, s, query, m);
    case Reopen => ReopenHolds(env, s, m);
  }

  /** From any state that holds `m`, every run replies as the map `m` would. */
  lemma {:induction false} RunConforms(env: Env, s: Store, m: Table, ops: seq<Op>)
    requires Represents(env, s, m) && forall op :: op in ops ==> Proper(op)
    ensures Conforms(env, m, ops, Run(env, s, ops, RECORD))
    decreases |ops|
  {
    if ops != [] {
      var r := Step(env, s, ops[0], RECORD);
      StepConforms(env, s, m, ops[0]);
      RunConforms(env, r.0, After(env, m, ops[0], r.1), ops[1..]);
      var rest := Run(env, r.0, ops[1..], RECORD);
      assert Run(env, s, ops, RECORD) == [r.1] + rest;
      assert ([r.1] + rest)[1..] == rest;
    }
  }

  /** A new store on a disk with room for `room` segments. */
  function New(room: nat): Store {
    Store(File(0, [], [], room, Formatted()), Index.Empty())
  }

  lemma {:induction false} NewHolds(env: Env, room: nat)
    ensures Represents(env, New(room), map[])
  {
    NewFile(room, Formatted());
    NewPair(env, New(room));
  }

  lemma {:induction false} NewFile(room: nat, blank: page)
    requires blank == Formatted()
    ensures Dms.Valid(File(0, [], [], room, blank))
  {
    FormattedValid();
  }

  lemma {:induction false} NewPair(env: Env, s: Store)
    requires Sane(s) && s.file.pages == [] && s.index == Index.Empty()
    ensures Represents(env, s, map[])
  {
    EmptyPair(env, PairOf(env, s)) by {
      forall key
        ensures Index.Find(s.index, env.hash, key) == None
      {
        NothingFound(env.hash, key);
      }
    }
  }

  lemma {:induction false} NothingFound(hash: Key -> nat, key: Key)
    ensures Index.Find(Index.Empty(), hash, key) == None
  {
  }

  lemma {:induction false} EmptyPair(env: Env, a: Pair)
    requires forall key :: a.find(key) == None
    requires forall rid :: a.rec(rid) == None
    ensures Consistent(env.keyOf, a) && Models(a, map[])
  {
  }

  /**
   The main theorem: from a new file, for every way of reading keys, every hash function, every disk
   size and every sequence of operations, the store answers as a finite map from keys to records.
   */
  lemma {:induction false} StoreIsAMap(env: Env, room: nat, ops: seq<Op>)
    requires forall op :: op in ops ==> Proper(op)
    ensures Sane(New(room)) && Conforms(env, map[], ops, Run(env, New(room), ops, RECORD))
  {
    NewHolds(env, room);
    RunConforms(env, New(room), map[], ops);
  }

  // ---------------------------------------------------------------- the code as written

  /** The page chosen for an insert is not one that gets compacted while it holds live records. */
  predicate Spared(f: File, size: nat)
    requires Dms.Valid(f)
  {
    match FindSpot(f, size)
    case None => true
    case Some(id) => !(MustCompact(f.pages[id], size) && HasLive(f.pages[id]))
  }

  /** The page chosen for an insert is not compacted. */
  predicate Calm(f: File, size: nat)
    requires Dms.Valid(f)
  {
    match FindSpot(f, size)
    case None => true
    case Some(id) => !MustCompact(f.pages[id], size)
  }

  /** The operations lead from `s` to `t`, each of them fine where it is made. */
  predicate Along<S(==)>(next: (S, Op) -> S, fine: (S, Op) -> bool, s: S, ops: seq<Op>, t: S)
    decreases |ops|
  {
    if ops == [] then s == t else fine(s, ops[0]) && Along(next, fine, next(s, ops[0]), ops[1..], t)
  }

  lemma {:induction false} AlongOn<S>(next: (S, Op) -> S, fine: (S, Op) -> bool, s: S, ops: seq<Op>, t: S, op: Op, u: S)
    requires Along(next, fine, s, ops, t) && fine(t, op) && next(t, op) == u
    ensures Along(next, fine, s, ops + [op], u)
    decreases |ops|
  {
    if ops == [] {
      assert [op][1..] == [] && ops + [op] == [op];
    } else {
      AlongOn(next, fine, next(s, ops[0]), ops[1..], t, op, u);
      assert (ops + [op])[1..] == ops[1..] + [op];
    }
  }

  function Next(env: Env): (Store, Op) -> Store {
    (s, op) => if Shaped(s) && Proper(op) then Step(env, s, op, RECORD).0 else s
  }

  /** A proper operation that compacts no page. */
  function CalmHere(): (Store, Op) -> bool {
    (s, op) => Sane(s) && Proper(op) && (op.Insert? ==> Calm(s.file, |op.rec|))
  }

  /** The operations lead from `s` to `t`, and none of their inserts compacts a page. */
  ghost predicate CalmTo(env: Env, s: Store, ops: seq<Op>, t: Store) {
    Along(Next(env), CalmHere(), s, ops, t)
  }

  lemma {:induction false} CalmOn(env: Env, s: Store, ops: seq<Op>, t: Store, op: Op, u: Store)
    requires Sane(t) && CalmTo(env, s, ops, t) && Proper(op)
    requires (op.Insert? ==> Calm(t.file, |op.rec|)) && Step(env, t, op, RECORD).0 == u
    ensures CalmTo(env, s, ops + [op], u)
  {
    AlongOn(Next(env), CalmHere(), s, ops, t, op, u);
  }

  function FindSpot(f: File, size: nat): (r: Option<nat>)
    requires Dms.Valid(f)
    ensures r.Some? ==> r.value < |f.pages|
  {
    FindPageBestFit(f.pages, f.free, size);
    FindPage(f.free, size)
  }

  /** A spared insert does the same with the written stride as with the right one. */
  lemma {:induction false} LiteralInsertAgrees(f: File, data: seq<byte>)
    requires Dms.Valid(f) && IsObj(data) && |data| < MAX_OBJECT && Spared(f, |data|)
    ensures DmsOps.Insert(f, data, 0) == DmsOps.Insert(f, data, RECORD)
    decreases f.room
  {
    DmsOps.InsertUnfolds(f, data, 0);
    DmsOps.InsertUnfolds(f, data, RECORD);
    match FindSpot(f, |data|)
    case None =>
      if f.room > 0 {
        FreshSpared(f, |data|);
        LiteralInsertAgrees(Extended(f), data);
      }
    case Some(id) => LiteralInsertSame(f.pages[id], data);
  }

  lemma {:induction false} FreshSpared(f: File, size: nat)
    requires Dms.Valid(f) && f.room > 0 && FindSpot(f, size) == None && Dms.Valid(Extended(f))
    ensures Spared(Extended(f), size)
  {
    FindPageBestFit(f.pages, f.free, size);
    FindPageBestFit(Extended(f).pages, Extended(f).free, size);
    match FindSpot(Extended(f), size)
    case None =>
    case Some(id) => NewPage(f, id);
  }

  lemma {:induction false} NewPage(f: File, id: nat)
    requires FreeMap.Sorted(f.free) && f.room > 0 && id < |Extended(f).pages|
    ensures Extended(f).pages[id] == if id < |f.pages| then f.pages[id] else f.blank
  {
    GrownToIs(f.pages, f.blank, |f.pages| + PAGES_PER_SEGMENT, id);
  }

  /** Every insert of the run is spared. */
  ghost predicate SparedRun(env: Env, s: Store, ops: seq<Op>)
    requires Sane(s) && forall op :: op in ops ==> Proper(op)
    decreases |ops|
  {
    ops != [] ==>
      && (ops[0].Insert? ==> Spared(s.file, |ops[0].rec|))
      && (Sane(Step(env, s, ops[0], RECORD).0) ==> SparedRun(env, Step(env, s, ops[0], RECORD).0, ops[1..]))
  }

  lemma {:induction false} LiteralStepAgrees(env: Env, s: Store, op: Op)
    requires Sane(s) && Proper(op) && (op.Insert? ==> Spared(s.file, |op.rec|))
    ensures Step(env, s, op, 0) == Step(env, s, op, RECORD)
  {
    if op.Insert? {
      LiteralInsertAgrees(s.file, op.rec);
    }
  }

  lemma {:induction false} RunOn(env: Env, s: Store, ops: seq<Op>, hdr: nat, r: (Store, Reply))
    requires Shaped(s) && (forall op :: op in ops ==> Proper(op)) && hdr <= RECORD && ops != []
    requires r == Step(env, s, ops[0], hdr)
    ensures Run(env, s, ops, hdr) == [r.1] + Run(env, r.0, ops[1..], hdr)
  {
  }

  /** On spared runs the code as written answers as a map too. */
  lemma {:induction false} LiteralRunAgrees(env: Env, s: Store, m: Table, ops: seq<Op>)
    requires Represents(env, s, m) && (forall op :: op in ops ==> Proper(op)) && SparedRun(env, s, ops)
    ensures Run(env, s, ops, 0) == Run(env, s, ops, RECORD) && Conforms(env, m, ops, Run(env, s, ops, 0))
    decreases |ops|
  {
    RunConforms(env, s, m, ops);
    if ops != [] {
      var r := Step(env, s, ops[0], RECORD);
      StepConforms(env, s, m, ops[0]);
      LiteralStepAgrees(env, s, ops[0]);
      LiteralRunAgrees(env, r.0, After(env, m, ops[0], r.1), ops[1..]);
      RunOn(env, s, ops, 0, r);
      RunOn(env, s, ops, RECORD, r);
    }
  }
}
