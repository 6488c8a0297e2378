/** Building documents: the growing buffer, and builders that share it and patch their sizes into it. */
module BsonBuild {
  import opened Bytes
  import opened Bson

  const BUFFER_MAX: nat := 67108864
  /** A reference count and the longest object: up to here neither the buffer nor the constructor of BSONObj throws. */
  const SAFE: nat := MAX_INTERNAL + 4

  /** The capacity grow_reallocate asks for. */
  function Capacity(size: nat, l: nat): nat {
    var a := if size == 0 then 512 else 2 * size;
    if l > a then l + 16384 else a
  }

  /** `thrown` stands for the exception in flight: nothing is written once it is set. */
  class BufBuilder {
    var data: array<byte>
    var l: nat
    var thrown: bool

    ghost predicate Valid()
      reads this
    {
      l <= data.Length <= BUFFER_MAX
    }

    ghost function Contents(): seq<byte>
      requires Valid()
      reads this, data
    {
      data[..l]
    }

    constructor (initsize: nat)
      requires initsize <= BUFFER_MAX
      ensures Valid() && Contents() == [] && !thrown && fresh(data)
    {
      data := new byte[initsize](_ => 0);
      l := 0;
      thrown := false;
    }

    /** The state after a write of `n` bytes: done, or refused because the buffer would exceed 64 MB. */
    ghost predicate Grew(was: nat, size: nat, failed: bool, n: nat)
      reads this
    {
      thrown == (failed || (was + n > size && Capacity(size, was + n) > BUFFER_MAX))
    }

    /** grow: room for `n` more bytes, whose values are whatever is there. */
    method Grow(n: nat)
      requires Valid()
      modifies this
      ensures Valid() && (data == old(data) || fresh(data)) && Grew(old(l), old(data.Length), old(thrown), n)
      ensures if thrown then l == old(l) && data == old(data)
              else l == old(l) + n && data[..old(l)] == old(data[..l])
    {
      if thrown {
        return;
      }
      if l + n > data.Length {
        var a := Capacity(data.Length, l + n);
        if a > BUFFER_MAX {
          thrown := true;
          return;
        }
        Reallocate(a);
      }
      l := l + n;
    }

    method Reallocate(a: nat)
      requires Valid() && data.Length <= a <= BUFFER_MAX
      modifies this`data
      ensures Valid() && fresh(data) && data.Length == a && Contents() == old(Contents())
    {
      var more := new byte[a](i requires 0 <= i < a reads this, data => if i < data.Length then data[i] else 0);
      data := more;
    }

    /** appendNum, appendBuf and appendStr all come to this. */
    method Write(s: seq<byte>)
      requires Valid()
      modifies this, data
      ensures Valid() && (data == old(data) || fresh(data)) && Grew(old(l), old(data.Length), old(thrown), |s|)
      ensures Appended(old(Contents()), old(thrown), Contents(), thrown, s)
    {
      var at := l;
      Grow(|s|);
      if !thrown {
        ghost var was := data[..];
        CopyIn(data, at, s);
        assert data[..l] == was[..at] + s;
      }
    }

    /** done() and obj() end in the constructor of BSONObj, here of the object from `at` to the end. */
    method Construct(at: nat)
      requires Valid() && (!thrown ==> at <= l)
      modifies this`thrown
      ensures Valid() && thrown == (old(thrown) || l - at > MAX_INTERNAL)
    {
      if !thrown && l - at > MAX_INTERNAL {
        thrown := true;
      }
    }

    /** Store an int over four bytes written before. */
    method Patch(at: nat, n: nat)
      requires Valid() && at + 4 <= l
      modifies data
      ensures Valid() && Contents() == old(Contents())[..at] + W(n) + old(Contents())[at + 4..]
    {
      CopyIn(data, at, W(n));
    }
  }

  /** `s` has been appended, unless something threw; nothing throws while the whole stays below the safe size. */
  ghost predicate Appended(was: seq<byte>, threw: bool, now: seq<byte>, throws: bool, s: seq<byte>) {
    && (threw ==> throws)
    && (!throws ==> now == was + s)
    && (!threw && |was| + |s| <= SAFE ==> !throws)
  }

  lemma AppendedTwice(a: seq<byte>, ta: bool, b: seq<byte>, tb: bool, c: seq<byte>, tc: bool, s: seq<byte>, t: seq<byte>)
    requires Appended(a, ta, b, tb, s) && Appended(b, tb, c, tc, t)
    ensures Appended(a, ta, c, tc, s + t)
  {
  }

  lemma SafeGrows(l: nat, size: nat, n: nat)
    ensures l + n <= SAFE ==> !(l + n > size && Capacity(size, l + n) > BUFFER_MAX)
  {
  }

  /** Behind the end-of-object byte nothing is left but to patch the size, and nothing has thrown that need not. */
  lemma DoneSafe(was: seq<byte>, threw: bool, mid: seq<byte>, failed: bool, room: seq<byte>, now: seq<byte>, throws: bool, fs: seq<Field>)
    requires Appended(mid, failed, now, throws, [0]) && (threw ==> failed)
    requires !failed ==> |room| == 4 && mid == was + room + EncodeFields(fs)
    requires !threw && |was| + |EncodeDoc(fs)| <= SAFE ==> !failed
    ensures threw ==> throws
    ensures !throws ==> |room| == 4 && now == was + room + EncodeFields(fs) + [0]
    ensures !threw && |was| + |EncodeDoc(fs)| <= SAFE ==> !throws
  {
  }

  lemma Patched(was: seq<byte>, room: seq<byte>, fs: seq<Field>, now: seq<byte>)
    requires |room| == 4 && now == was + room + EncodeFields(fs) + [0]
    ensures now[..|was|] + W(|now| - |was|) + now[|was| + 4..] == was + EncodeDoc(fs)
  {
    assert now == was + room + (EncodeFields(fs) + [0]);
    Around(was, room, EncodeFields(fs) + [0], now);
    var size := W(4 + |EncodeFields(fs)| + 1);
    assert EncodeDoc(fs) == size + (EncodeFields(fs) + [0]);
    assert was + size + (EncodeFields(fs) + [0]) == was + (size + (EncodeFields(fs) + [0]));
  }

  lemma Around(was: seq<byte>, room: seq<byte>, body: seq<byte>, now: seq<byte>)
    requires now == was + room + body
    ensures now[..|was|] == was && now[|was| + |room|..] == body && |now| == |was| + |room| + |body|
  {
  }

  /** A builder of an object that starts at `offset` of a buffer it may share with the builders around it. */
  class BsonObjBuilder {
    const b: BufBuilder
    const offset: nat
    var doneCalled: bool

    /** Leaves room for the size, to be known later. */
    constructor (b: BufBuilder)
      requires b.Valid()
      modifies b
      ensures this.b == b && offset == old(b.l) && !doneCalled
      ensures b.Valid() && (b.data == old(b.data) || fresh(b.data))
      ensures (old(b.thrown) ==> b.thrown) && (!old(b.thrown) && offset + 4 <= SAFE ==> !b.thrown)
      ensures !b.thrown ==> b.l == offset + 4 && b.Contents()[..offset] == old(b.Contents())
    {
      this.b := b;
      offset := b.l;
      doneCalled := false;
      new;
      b.Grow(4);
      SafeGrows(offset, old(b.data.Length), 4);
    }

    /** The type and the name of an element. */
    method AppendHeader(tag: byte, name: seq<byte>)
      requires b.Valid()
      modifies b, b.data
      ensures b.Valid() && (b.data == old(b.data) || fresh(b.data))
      ensures Appended(old(b.Contents()), old(b.thrown), b.Contents(), b.thrown, [tag] + CString(name))
    {
      ghost var was, threw := b.Contents(), b.thrown;
      b.Write([tag]);
      ghost var mid, throws := b.Contents(), b.thrown;
      b.Write(CString(name));
      AppendedTwice(was, threw, mid, throws, b.Contents(), b.thrown, [tag], CString(name));
    }

    /** _done: the end-of-object element, then the size into the room left for it. */
    method Done(ghost was: seq<byte>, ghost threw: bool, ghost fs: seq<Field>)
      requires b.Valid() && !doneCalled && offset == |was|
      requires threw ==> b.thrown
      requires !b.thrown ==> offset + 4 <= b.l && b.Contents() == was + b.Contents()[offset..offset + 4] + EncodeFields(fs)
      requires !threw && |was| + |EncodeDoc(fs)| <= SAFE ==> !b.thrown
      modifies this, b, b.data
      ensures b.Valid() && (b.data == old(b.data) || fresh(b.data)) && doneCalled
      ensures Appended(was, threw, b.Contents(), b.thrown, EncodeDoc(fs))
    {
      doneCalled := true;
      ghost var mid, failed := b.Contents(), b.thrown;
      ghost var room := if b.thrown then [] else b.Contents()[offset..offset + 4];
      b.Write([0]);
      DoneSafe(was, threw, mid, failed, room, b.Contents(), b.thrown, fs);
      if !b.thrown {
        Patched(was, room, fs, b.Contents());
        b.Patch(offset, b.l - offset);
      }
    }
  }

  /** The fields appended one after the other, sub-objects through builders of their own on the same buffer. */
  method BuildFields(o: BsonObjBuilder, fs: seq<Field>)
    requires o.b.Valid()
    modifies o.b, o.b.data
    ensures o.b.Valid() && (o.b.data == old(o.b.data) || fresh(o.b.data))
    ensures Appended(old(o.b.Contents()), old(o.b.thrown), o.b.Contents(), o.b.thrown, EncodeFields(fs))
    decreases fs, 0
  {
    if fs != [] {
      ghost var was, threw := o.b.Contents(), o.b.thrown;
      BuildField(o, fs[0]);
      ghost var mid, throws := o.b.Contents(), o.b.thrown;
      BuildFields(o, fs[1..]);
      AppendedTwice(was, threw, mid, throws, o.b.Contents(), o.b.thrown, EncodeField(fs[0]), EncodeFields(fs[1..]));
    }
  }

  method BuildField(o: BsonObjBuilder, f: Field)
    requires o.b.Valid()
    modifies o.b, o.b.data
    ensures o.b.Valid() && (o.b.data == old(o.b.data) || fresh(o.b.data))
    ensures Appended(old(o.b.Contents()), old(o.b.thrown), o.b.Contents(), o.b.thrown, EncodeField(f))
    decreases f, 1
  {
    ghost var was, threw := o.b.Contents(), o.b.thrown;
    o.AppendHeader(Tag(f.value), f.name);
    ghost var mid, throws := o.b.Contents(), o.b.thrown;
    BuildValue(o.b, f.value);
    AppendedTwice(was, threw, mid, throws, o.b.Contents(), o.b.thrown, [Tag(f.value)] + CString(f.name), EncodeValue(f.value));
  }

  method BuildValue(b: BufBuilder, v: Value)
    requires b.Valid()
    modifies b, b.data
    ensures b.Valid() && (b.data == old(b.data) || fresh(b.data))
    ensures Appended(old(b.Contents()), old(b.thrown), b.Contents(), b.thrown, EncodeValue(v))
    decreases v, 0
  {
    match v
    case Raw(_, raw) => b.Write(raw);
    case Str(_, s) => WriteTwo(b, W(|s| + 1), CString(s));
    case Doc(_, fields) => BuildObject(b, fields);
    case Bin(subtype, data) => WriteThree(b, W(|data|), [subtype], data);
    case Regex(pattern, flags) => WriteTwo(b, CString(pattern), CString(flags));
    case Ref(ns, oid) => WriteThree(b, W(|ns| + 1), CString(ns), oid);
    case Scoped(code, scope) => BuildScoped(b, code, scope);
  }

  /** appendCodeWScope, of a scope object built on its own. */
  method BuildScoped(b: BufBuilder, code: seq<byte>, scope: seq<Field>)
    requires b.Valid()
    modifies b, b.data
    ensures b.Valid() && (b.data == old(b.data) || fresh(b.data))
    ensures Appended(old(b.Contents()), old(b.thrown), b.Contents(), b.thrown, EncodeValue(Scoped(code, scope)))
    decreases scope, 3
  {
    var doc, ok := Build(scope);
    if !ok {
      b.thrown := true;
      ScopeTooBig(b.Contents(), code, scope);
      return;
    }
    var total := W(4 + 4 + |code| + 1 + |doc|);
    ghost var was, threw := b.Contents(), b.thrown;
    b.Write(total);
    ghost var mid, throws := b.Contents(), b.thrown;
    WriteThree(b, W(|code| + 1), CString(code), doc);
    AppendedTwice(was, threw, mid, throws, b.Contents(), b.thrown, total, W(|code| + 1) + CString(code) + doc);
    assert EncodeValue(Scoped(code, scope)) == total + (W(|code| + 1) + CString(code) + doc);
  }

  lemma ScopeTooBig(was: seq<byte>, code: seq<byte>, scope: seq<Field>)
    requires |EncodeDoc(scope)| + 4 > SAFE
    ensures |was| + |EncodeValue(Scoped(code, scope))| > SAFE
  {
  }

  method WriteTwo(b: BufBuilder, s: seq<byte>, t: seq<byte>)
    requires b.Valid()
    modifies b, b.data
    ensures b.Valid() && (b.data == old(b.data) || fresh(b.data))
    ensures Appended(old(b.Contents()), old(b.thrown), b.Contents(), b.thrown, s + t)
  {
    ghost var was, threw := b.Contents(), b.thrown;
    b.Write(s);
    ghost var mid, throws := b.Contents(), b.thrown;
    b.Write(t);
    AppendedTwice(was, threw, mid, throws, b.Contents(), b.thrown, s, t);
  }

  method WriteThree(b: BufBuilder, s: seq<byte>, t: seq<byte>, u: seq<byte>)
    requires b.Valid()
    modifies b, b.data
    ensures b.Valid() && (b.data == old(b.data) || fresh(b.data))
    ensures Appended(old(b.Contents()), old(b.thrown), b.Contents(), b.thrown, s + t + u)
  {
    ghost var was, threw := b.Contents(), b.thrown;
    WriteTwo(b, s, t);
    ghost var mid, throws := b.Contents(), b.thrown;
    b.Write(u);
    AppendedTwice(was, threw, mid, throws, b.Contents(), b.thrown, s + t, u);
  }

  /** An object at the end of the buffer, by a builder that shares it. */
  method BuildObject(b: BufBuilder, fs: seq<Field>)
    requires b.Valid()
    modifies b, b.data
    ensures b.Valid() && (b.data == old(b.data) || fresh(b.data))
    ensures Appended(old(b.Contents()), old(b.thrown), b.Contents(), b.thrown, EncodeDoc(fs))
    decreases fs, 1
  {
    ghost var was, threw := b.Contents(), b.thrown;
    var o := new BsonObjBuilder(b);
    ghost var begun := b.Contents();
    BuildFields(o, fs);
    assert !b.thrown ==> begun == was + begun[|was|..];
    o.Done(was, threw, fs);
  }

  /** A builder with a buffer of its own: a zero reference count, then the object, and obj(). */
  method Build(fs: seq<Field>) returns (doc: seq<byte>, ok: bool)
    ensures ok <==> |EncodeDoc(fs)| <= MAX_INTERNAL
    ensures ok ==> doc == EncodeDoc(fs)
    decreases fs, 2
  {
    var b := new BufBuilder(512 + 4);
    b.Write(W(0));
    BuildObject(b, fs);
    assert !b.thrown ==> b.l == 4 + |EncodeDoc(fs)|;
    b.Construct(4);
    ok := !b.thrown;
    doc := [];
    if ok {
      doc := b.data[4..b.l];
      assert doc == b.Contents()[4..];
    }
  }
}
