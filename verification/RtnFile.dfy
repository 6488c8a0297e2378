/** The rtn object over a storage file and a bucket manager, both changed in place. */
module RtnFile {
  import opened Bytes
  import opened PageBytes
  import opened Dms
  import opened Refinement
  import opened Rtn
  import opened DmsFile
  import opened Ixm
  import DmsOps
  import FreeMap
  import Index
  import opened Reopen
  import opened PageMemory

  lemma WriteIs(env: Env, s: Store, f: File, rec: seq<byte>, hdr: nat, rid: Option<RecordID>)
    requires Sane(s) && |rec| < MAX_OBJECT && Reported(f, rid) == DmsOps.Insert(s.file, rec, hdr)
    ensures Rtn.WriteRecord(env, s, rec, hdr)
         == if rid == None then (s.(file := f), SysError) else Rtn.CreateIndex(env, s.(file := f), rid.value)
  {
  }

  predicate TablesFit(pages: seq<page>) {
    forall j :: 0 <= j < |pages| ==> TableFits(pages[j])
  }

  lemma AllLoaded(env: Env, pages: seq<page>, free: seq<FreeMap.Entry>, x: Buckets)
    requires TablesFit(pages) && FreeMap.Sorted(free) && Index.Valid(x)
    ensures LoadPages(env, pages, |pages|, free, x) == Some(Loaded(free, x))
  {
  }

  class RtnFile {
    const env: Env
    const file: DmsFile
    const index: BucketManager

    ghost predicate Shape()
      reads this, file
    {
      file.Shape()
    }

    ghost function State(): Store
      requires Shape()
      reads this, file, file.body, index
    {
      Store(file.State(), index.bucket)
    }

    constructor (env: Env, room: nat, blank: page)
      ensures Shape() && State() == Store(File(0, [], [], room, blank), Index.Empty())
      ensures this.env == env && fresh(file) && fresh(index) && file.body == []
    {
      this.env := env;
      this.file := new DmsFile(room, blank);
      this.index := new BucketManager();
    }

    method RtnInsert(rec: seq<byte>, hdr: nat) returns (reply: Reply)
      requires Shape() && Sane(State()) && |rec| < MAX_OBJECT && hdr <= 8
      modifies file, file.body, index
      ensures Shape() && (State(), reply) == Rtn.RtnInsert(env, old(State()), rec, hdr)
      ensures fresh(set m | m in file.body && m !in old(file.body))
    {
      match env.keyOf(rec)
      case None => return InvalidArg;
      case Some(key) =>
        var exist := index.FindIndex(env.hash, key);
        if exist.Some? {
          return IdExists;
        }
        reply := WriteRecord(rec, hdr);
    }

    method WriteRecord(rec: seq<byte>, hdr: nat) returns (reply: Reply)
      requires Shape() && Sane(State()) && |rec| < MAX_OBJECT && hdr <= 8
      modifies file, file.body, index
      ensures Shape() && (State(), reply) == Rtn.WriteRecord(env, old(State()), rec, hdr)
      ensures fresh(set m | m in file.body && m !in old(file.body))
    {
      ghost var s := State();
      var rid := file.Insert(rec, hdr);
      WriteIs(env, s, file.State(), rec, hdr, rid);
      reply := IndexRecord(rid);
    }

    method IndexRecord(rid: Option<RecordID>) returns (reply: Reply)
      requires Shape() && Index.Valid(index.bucket)
      modifies index
      ensures Shape() && (State(), reply) ==
        if rid == None then (old(State()), SysError) else Rtn.CreateIndex(env, old(State()), rid.value)
    {
      if rid == None {
        return SysError;
      }
      reply := CreateIndex(rid.value);
    }

    /** createIndex on the record as it lies in the page. */
    method CreateIndex(rid: RecordID) returns (reply: Reply)
      requires Shape() && Index.Valid(index.bucket)
      modifies index
      ensures Shape() && (State(), reply) == Rtn.CreateIndex(env, old(State()), rid)
    {
      var found := file.Find(rid);
      match found
      case Refused => return SysError;
      case Found(out) =>
        match env.keyOf(out)
        case None => return InvalidArg;
        case Some(key) =>
          index.CreateIndex(env.hash, key, rid);
          return Done;
    }

    method RtnFind(query: seq<byte>) returns (reply: Reply)
      requires Shape() && Sane(State())
      ensures reply == Rtn.RtnFind(env, State(), query)
    {
      match env.keyOf(query)
      case None => return InvalidArg;
      case Some(key) =>
        var rid := index.FindIndex(env.hash, key);
        if rid == None {
          return InvalidArg;
        }
        var found := file.Find(rid.value);
        match found
        case Refused => return SysError;
        case Found(data) => return Got(data);
    }

    method RtnRemove(query: seq<byte>) returns (reply: Reply)
      requires Shape() && Sane(State())
      modifies file, file.body, index
      ensures Shape() && (State(), reply) == Rtn.RtnRemove(env, old(State()), query)
      ensures file.body == old(file.body)
    {
      match env.keyOf(query)
      case None => return InvalidArg;
      case Some(key) =>
        reply := RemoveKey(key);
    }

    method RemoveKey(key: Key) returns (reply: Reply)
      requires Shape() && Sane(State())
      modifies file, file.body, index
      ensures Shape() && (State(), reply) == Rtn.RemoveKey(env, old(State()), key)
      ensures file.body == old(file.body)
    {
      var rid := index.RemoveIndex(env.hash, key);
      if rid == None {
        return InvalidArg;
      }
      reply := DropRecord(rid.value);
    }

    method DropRecord(rid: RecordID) returns (reply: Reply)
      requires Shape() && Dms.Valid(file.State())
      modifies file, file.body
      ensures Shape() && (State(), reply) == Rtn.DropRecord(old(State()), rid)
      ensures file.body == old(file.body)
    {
      var ok := file.Remove(rid);
      reply := if ok then Done else SysError;
    }

    /** _loadData, over the pages mapped by init. */
    method LoadData() returns (ok: bool)
      requires Shape() && TablesFit(Pages(file.body))
      requires file.freeSpaceMap == [] && index.bucket == Index.Empty()
      modifies file`freeSpaceMap, index
      ensures Shape() && Pages(file.body) == old(Pages(file.body))
      ensures match LoadPages(env, Pages(file.body), 0, [], Index.Empty())
        case None => !ok
        case Some(l) => ok && l == Loaded(file.freeSpaceMap, index.bucket)
    {
      ok := LoadFrom(0);
    }

    /** The loop over the pages. */
    method LoadFrom(first: nat) returns (ok: bool)
      requires Shape() && first <= |file.body| && TablesFit(Pages(file.body)) && Index.Valid(index.bucket)
      modifies file`freeSpaceMap, index
      ensures Shape() && Pages(file.body) == old(Pages(file.body))
      ensures match LoadPages(env, Pages(file.body), first, old(file.freeSpaceMap), old(index.bucket))
        case None => !ok
        case Some(l) => ok && l == Loaded(file.freeSpaceMap, index.bucket)
    {
      ghost var pages, free, x := Pages(file.body), file.freeSpaceMap, index.bucket;
      var i := first;
      while i < |file.body|
        invariant first <= i <= |file.body| && Shape() && Pages(file.body) == pages && Index.Valid(index.bucket)
        invariant LoadPages(env, pages, first, free, x) == LoadPages(env, pages, i, file.freeSpaceMap, index.bucket)
      {
        ok := LoadNext(i);
        if !ok {
          return;
        }
        i := i + 1;
      }
      AllLoaded(env, pages, file.freeSpaceMap, index.bucket);
      ok := true;
    }

    method LoadNext(i: nat) returns (ok: bool)
      requires Shape() && i < |file.body| && TablesFit(Pages(file.body)) && Index.Valid(index.bucket)
      modifies file`freeSpaceMap, index
      ensures Shape() && Pages(file.body) == old(Pages(file.body)) && Index.Valid(index.bucket)
      ensures LoadPages(env, Pages(file.body), i, old(file.freeSpaceMap), old(index.bucket))
           == if ok then LoadPages(env, Pages(file.body), i + 1, file.freeSpaceMap, index.bucket) else None
    {
      ghost var x := index.bucket;
      file.EnterPage(i);
      ok := LoadPage(i);
    }

    /** The loop over the slots of one page. */
    method LoadPage(id: nat) returns (ok: bool)
      requires Shape() && id < |file.body| && TableFits(file.body[id][..]) && Index.Valid(index.bucket)
      modifies index
      ensures match LoadSlots(env, file.body[id][..], Behind(Pages(file.body), id), id, 0, old(index.bucket))
        case None => !ok && Index.Valid(index.bucket)
        case Some(y) => ok && index.bucket == y
    {
      ghost var p: page := file.body[id][..];
      ghost var x := index.bucket;
      var tail := file.Following(id);
      var numSlots := U32(file.body[id][..], 12);
      for k := 0 to numSlots
        invariant Index.Valid(index.bucket) && numSlots == NumSlots(p) && p == file.body[id][..]
        invariant LoadSlots(env, p, tail, id, 0, x) == LoadSlots(env, p, tail, id, k, index.bucket)
      {
        ok := LoadSlot(id, tail, k);
        if !ok {
          return;
        }
      }
      return true;
    }

    /** One slot: skip a tombstone, refuse a duplicate, enter a record. */
    method LoadSlot(id: nat, tail: seq<byte>, k: nat) returns (ok: bool)
      requires Shape() && id < |file.body| && TableFits(file.body[id][..]) && k < NumSlots(file.body[id][..])
      requires Index.Valid(index.bucket)
      modifies index
      ensures Index.Valid(index.bucket)
      ensures LoadSlots(env, file.body[id][..], tail, id, k, old(index.bucket))
           == if ok then LoadSlots(env, file.body[id][..], tail, id, k + 1, index.bucket) else None
    {
      var off := U32(file.body[id][..], 28 + 4 * k);
      if off == EMPTY {
        return true;
      }
      var found := CopyOut(file.body[id], tail, off);
      if found == None {
        return false;
      }
      match env.keyOf(found.value)
      case None => return false;
      case Some(key) =>
        var exist := index.FindIndex(env.hash, key);
        if exist.Some? {
          return false;
        }
        Index.CreateGrows(index.bucket, env.hash, key, RecordID(id, k));
        index.CreateIndex(env.hash, key, RecordID(id, k));
        return true;
    }
  }
}
