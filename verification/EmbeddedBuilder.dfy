/** nested2dotted and dotted2nested as they run: over the buffer that all the builders share. */
module EmbeddedBuilder {
  import opened Bytes
  import opened Bson
  import opened BsonBuild
  import opened Dotted

  lemma {:induction false} FieldsAppend(a: seq<Field>, c: seq<Field>)
    ensures EncodeFields(a + c) == EncodeFields(a) + EncodeFields(c)
  {
    if a == [] {
      assert a + c == c;
    } else {
      FieldsAppend(a[1..], c);
      assert (a + c)[1..] == a[1..] + c;
      Associates(EncodeField(a[0]), EncodeFields(a[1..]), EncodeFields(c));
    }
  }

  lemma {:induction false} OneMore(a: seq<Field>, f: Field)
    ensures EncodeFields(a + [f]) == EncodeFields(a) + EncodeField(f)
  {
    FieldsAppend(a, [f]);
    assert [f][1..] == [] && EncodeField(f) + [] == EncodeField(f);
  }

  /** nested2dotted: the fields go to the builder under their dotted names. */
  method NestedToDotted(o: BsonObjBuilder, fs: seq<Field>, base: Name)
    requires o.b.Valid()
    modifies o.b, o.b.data
    ensures o.b.Valid() && (o.b.data == old(o.b.data) || fresh(o.b.data))
    ensures Appended(old(o.b.Contents()), old(o.b.thrown), o.b.Contents(), o.b.thrown, EncodeFields(Dotted.Dotted(fs, base)))
    decreases fs, 0
  {
    if fs != [] {
      ghost var was, threw := o.b.Contents(), o.b.thrown;
      FieldToDotted(o, fs[0], base);
      ghost var mid, throws := o.b.Contents(), o.b.thrown;
      NestedToDotted(o, fs[1..], base);
      ghost var head, tail := DottedField(fs[0], base), Dotted.Dotted(fs[1..], base);
      FieldsAppend(head, tail);
      AppendedTwice(was, threw, mid, throws, o.b.Contents(), o.b.thrown, EncodeFields(head), EncodeFields(tail));
    }
  }

  method FieldToDotted(o: BsonObjBuilder, f: Field, base: Name)
    requires o.b.Valid()
    modifies o.b, o.b.data
    ensures o.b.Valid() && (o.b.data == old(o.b.data) || fresh(o.b.data))
    ensures Appended(old(o.b.Contents()), old(o.b.thrown), o.b.Contents(), o.b.thrown, EncodeFields(DottedField(f, base)))
    decreases f, 1
  {
    if f.value.Doc? && f.value.tag == OBJECT {
      NestedToDotted(o, f.value.fields, base + f.name + [DOT]);
    } else {
      BuildField(o, Field(base + f.name, f.value));
      OneMore([], Field(base + f.name, f.value));
      assert [] + [Field(base + f.name, f.value)] == DottedField(f, base);
    }
  }

  // ---------------------------------------------------------------- the stack of builders

  datatype Entry = Entry(name: Name, builder: BsonObjBuilder)

  /** The names of the builders above the root, each with its dot. */
  function Trail(bs: seq<Entry>): Name {
    if |bs| <= 1 then [] else Trail(bs[..|bs| - 1]) + bs[|bs| - 1].name + [DOT]
  }

  /** The stack has the builders of `st`, on the one buffer. */
  ghost predicate Matches(b: BufBuilder, st: Levels, bs: seq<Entry>) {
    && bs != [] && bs[|bs| - 1].builder.b == b
    && match st
       case Root(_) => |bs| == 1
       case Sub(outer, name, _) => |bs| > 1 && bs[|bs| - 1].name == name && Matches(b, outer, bs[..|bs| - 1])
  }

  /** The bytes of the open builders: each has its type and name before its room for a size, and its fields behind. */
  ghost predicate Laid(st: Levels, bs: seq<Entry>, content: seq<byte>, base: seq<byte>)
    requires bs != []
    decreases st
  {
    match st
    case Root(fields) => content == base + EncodeFields(fields)
    case Sub(outer, name, fields) =>
      var at := bs[|bs| - 1].builder.offset;
      && |bs| > 1 && 2 + |name| <= at && at + 4 <= |content|
      && content[at - 2 - |name|..at] == [OBJECT] + CString(name)
      && content[at + 4..] == EncodeFields(fields)
      && Laid(outer, bs[..|bs| - 1], content[..at - 2 - |name|], base)
  }

  /** How long it will be once all are closed. */
  function Weight(st: Levels): nat {
    match st
    case Root(fields) => |EncodeFields(fields)|
    case Sub(outer, name, fields) => Weight(outer) + 2 + |name| + 4 + |EncodeFields(fields)| + 1
  }

  lemma {:induction false} LaidLength(st: Levels, bs: seq<Entry>, content: seq<byte>, base: seq<byte>)
    requires bs != [] && Laid(st, bs, content, base)
    ensures |content| + Depth(st) == |base| + Weight(st)
    decreases st
  {
    if st.Sub? {
      LaidLength(st.outer, bs[..|bs| - 1], content[..bs[|bs| - 1].builder.offset - 2 - |st.name|], base);
    }
  }

  lemma Further(content: seq<byte>, more: seq<byte>, before: nat, at: nat)
    requires before <= at && at + 4 <= |content|
    ensures (content + more)[before..at] == content[before..at]
    ensures (content + more)[at + 4..] == content[at + 4..] + more
    ensures (content + more)[..before] == content[..before]
  {
  }

  lemma {:induction false} LaidAdd(st: Levels, bs: seq<Entry>, content: seq<byte>, base: seq<byte>, f: Field)
    requires bs != [] && Laid(st, bs, content, base)
    ensures Laid(Add(st, f), bs, content + EncodeField(f), base)
    ensures Weight(Add(st, f)) == Weight(st) + |EncodeField(f)|
  {
    OneMore(st.fields, f);
    if st.Root? {
      Associates(base, EncodeFields(st.fields), EncodeField(f));
    } else {
      LaidMore(st, st.fields + [f], bs, content, base, EncodeField(f));
    }
  }

  lemma {:induction false} LaidMore(st: Levels, fields: seq<Field>, bs: seq<Entry>, content: seq<byte>, base: seq<byte>, more: seq<byte>)
    requires st.Sub? && bs != [] && Laid(st, bs, content, base)
    requires EncodeFields(fields) == EncodeFields(st.fields) + more
    ensures Laid(Sub(st.outer, st.name, fields), bs, content + more, base)
  {
    var at := bs[|bs| - 1].builder.offset;
    Further(content, more, at - 2 - |st.name|, at);
  }

  lemma {:induction false} LaidPush(st: Levels, bs: seq<Entry>, content: seq<byte>, base: seq<byte>, e: Entry, more: seq<byte>)
    requires bs != [] && Laid(st, bs, content, base)
    requires e.builder.offset == |content| + 2 + |e.name| && |more| == e.builder.offset + 4
    requires more[..e.builder.offset] == content + ([OBJECT] + CString(e.name))
    ensures Laid(Sub(st, e.name, []), bs + [e], more, base)
  {
    var at := e.builder.offset;
    assert (bs + [e])[..|bs|] == bs;
    assert more[..|content|] == more[..at][..|content|] == content;
    assert more[|content|..at] == more[..at][|content|..] == [OBJECT] + CString(e.name);
    assert more[at + 4..] == [];
  }

  lemma ClosedField(before: seq<byte>, was: seq<byte>, name: Name, fields: seq<Field>)
    requires before <= was && was[|before|..] == [OBJECT] + CString(name)
    ensures before + EncodeField(Field(name, Doc(OBJECT, fields))) == was + EncodeDoc(fields)
  {
    var head := [OBJECT] + CString(name);
    assert EncodeField(Field(name, Doc(OBJECT, fields))) == head + EncodeDoc(fields);
    assert was == before + head;
    Associates(before, head, EncodeDoc(fields));
  }

  lemma {:induction false} LaidPop(st: Levels, bs: seq<Entry>, content: seq<byte>, base: seq<byte>, was: seq<byte>)
    requires st.Sub? && bs != [] && Laid(st, bs, content, base)
    requires was == content[..bs[|bs| - 1].builder.offset]
    ensures |bs| > 1 && Laid(Pop(st), bs[..|bs| - 1], was + EncodeDoc(st.fields), base)
  {
    var before := content[..|was| - 2 - |st.name|];
    LaidAdd(st.outer, bs[..|bs| - 1], before, base, Field(st.name, Doc(OBJECT, st.fields)));
    assert was[|before|..] == content[|before|..|was|];
    ClosedField(before, was, st.name, st.fields);
  }

  lemma {:induction false} PopWeight(st: Levels)
    requires st.Sub?
    ensures Weight(Pop(st)) == Weight(st)
  {
    OneMore(st.outer.fields, Field(st.name, Doc(OBJECT, st.fields)));
  }

  lemma {:induction false} CloseWeight(st: Levels)
    ensures |EncodeFields(Close(st))| == Weight(st)
    decreases Depth(st)
  {
    if st.Sub? {
      PopWeight(st);
      PopDepth(st);
      CloseWeight(Pop(st));
    }
  }

  lemma {:induction false} MatchesPath(b: BufBuilder, st: Levels, bs: seq<Entry>)
    requires Matches(b, st, bs)
    ensures Path(st) == Trail(bs) && Depth(st) == |bs| - 1
  {
    if st.Sub? {
      MatchesPath(b, st.outer, bs[..|bs| - 1]);
    }
  }

  lemma {:induction false} MatchesAdd(b: BufBuilder, st: Levels, bs: seq<Entry>, f: Field)
    requires Matches(b, st, bs)
    ensures Matches(b, Add(st, f), bs)
  {
  }

  /** An object, if it is one, no longer than BSONObj allows. */
  predicate Small(f: Field) {
    f.value.Doc? && f.value.tag == OBJECT ==> |EncodeDoc(f.value.fields)| <= MAX_INTERNAL
  }

  predicate AllSmall(fs: seq<Field>) {
    forall f :: f in fs ==> Small(f)
  }

  predicate LevelsSmall(st: Levels) {
    AllSmall(st.fields) && (st.Sub? ==> LevelsSmall(st.outer))
  }

  lemma AddSmall(st: Levels, f: Field)
    requires LevelsSmall(st) && Small(f)
    ensures LevelsSmall(Add(st, f))
  {
  }

  lemma {:induction false} WeightDepth(st: Levels)
    ensures Depth(st) <= Weight(st)
  {
    if st.Sub? {
      WeightDepth(st.outer);
    }
  }

  /**
   Unless something threw, the bytes are those of the builders, and no object closed so far is too long; and
   nothing throws below the safe size.
   */
  ghost predicate Sound(st: Levels, bs: seq<Entry>, content: seq<byte>, thrown: bool, base: seq<byte>, threw: bool)
    requires bs != []
  {
    && (!thrown ==> Laid(st, bs, content, base) && LevelsSmall(st) && 4 <= |base|)
    && (threw ==> thrown) && (!threw && |base| + Weight(st) <= SAFE ==> !thrown)
  }

  lemma {:induction false} SoundAdd(st: Levels, bs: seq<Entry>, was: seq<byte>, failed: bool,
      base: seq<byte>, threw: bool, f: Field, now: seq<byte>, fails: bool)
    requires bs != [] && Sound(st, bs, was, failed, base, threw)
    requires Appended(was, failed, now, fails, EncodeField(f)) && Small(f)
    ensures Sound(Add(st, f), bs, now, fails, base, threw)
  {
    OneMore(st.fields, f);
    if !failed {
      LaidLength(st, bs, was, base);
      LaidAdd(st, bs, was, base, f);
    }
  }

  lemma {:induction false} SoundPush(st: Levels, bs: seq<Entry>, was: seq<byte>, failed: bool,
      base: seq<byte>, threw: bool, e: Entry, mid: seq<byte>, stopped: bool, now: seq<byte>, fails: bool)
    requires bs != [] && Sound(st, bs, was, failed, base, threw)
    requires Appended(was, failed, mid, stopped, [OBJECT] + CString(e.name))
    requires e.builder.offset == |mid|
    requires (stopped ==> fails) && (!stopped && |mid| + 4 <= SAFE ==> !fails)
    requires !fails ==> |now| == |mid| + 4 && now[..|mid|] == mid
    ensures Sound(Sub(st, e.name, []), bs + [e], now, fails, base, threw)
  {
    if !failed {
      LaidLength(st, bs, was, base);
      if !fails {
        LaidPush(st, bs, was, base, e, now);
      }
    }
  }

  lemma {:induction false} SoundPop(st: Levels, bs: seq<Entry>, was: seq<byte>, failed: bool,
      base: seq<byte>, threw: bool, before: seq<byte>, now: seq<byte>, fails: bool)
    requires st.Sub? && |bs| > 1 && Sound(st, bs, was, failed, base, threw)
    requires !failed ==> bs[|bs| - 1].builder.offset <= |was| && before == was[..bs[|bs| - 1].builder.offset]
    requires Appended(before, failed, now, fails, EncodeDoc(st.fields)) && (!fails ==> |EncodeDoc(st.fields)| <= MAX_INTERNAL)
    ensures Sound(Pop(st), bs[..|bs| - 1], now, fails, base, threw)
  {
    PopWeight(st);
    if !failed {
      LaidLength(st, bs, was, base);
      LaidPop(st, bs, was, base, before);
      if !fails {
        AddSmall(st.outer, Field(st.name, Doc(OBJECT, st.fields)));
      }
    }
  }

  /** What _done asks of the bytes of the builder it closes. */
  lemma {:induction false} DoneFits(st: Levels, bs: seq<Entry>, content: seq<byte>, failed: bool, at: nat,
      base: seq<byte>, threw: bool, before: seq<byte>)
    requires st.Sub? && bs != [] && Sound(st, bs, content, failed, base, threw) && at == bs[|bs| - 1].builder.offset
    requires before == Before(content, at)
    ensures |bs| > 1 || failed
    ensures !failed ==> at + 4 <= |content| && before == content[..at] && 4 <= |before|
    ensures !failed ==> content == before + content[at..at + 4] + EncodeFields(st.fields)
  {
    if !failed {
      LaidLength(st.outer, bs[..|bs| - 1], content[..at - 2 - |st.name|], base);
      WeightDepth(st.outer);
    }
  }

  /** The bytes before an offset; after a failed write there may be fewer. */
  ghost function Before(content: seq<byte>, at: nat): (p: seq<byte>)
    ensures |p| == at
  {
    if at <= |content| then content[..at] else seq(at, _ => 0)
  }

  /** subobjStart and a builder for what comes. */
  method OpenBuilder(top: BsonObjBuilder, name: Name, ghost st: Levels, ghost bs: seq<Entry>, ghost base: seq<byte>, ghost threw: bool)
    returns (e: Entry)
    requires top.b.Valid() && bs != [] && Sound(st, bs, top.b.Contents(), top.b.thrown, base, threw)
    modifies top.b, top.b.data
    ensures top.b.Valid() && (top.b.data == old(top.b.data) || fresh(top.b.data))
    ensures e.name == name && e.builder.b == top.b && fresh(e.builder) && !e.builder.doneCalled
    ensures Sound(Sub(st, name, []), bs + [e], top.b.Contents(), top.b.thrown, base, threw)
  {
    ghost var was, failed := top.b.Contents(), top.b.thrown;
    top.AppendHeader(OBJECT, name);
    ghost var mid, stopped := top.b.Contents(), top.b.thrown;
    var o := new BsonObjBuilder(top.b);
    e := Entry(name, o);
    SoundPush(st, bs, was, failed, base, threw, e, mid, stopped, top.b.Contents(), top.b.thrown);
  }

  method CloseBuilder(top: BsonObjBuilder, ghost st: Levels, ghost bs: seq<Entry>, ghost base: seq<byte>, ghost threw: bool)
    requires top.b.Valid() && !top.doneCalled && st.Sub? && |bs| > 1 && bs[|bs| - 1].builder == top
    requires Sound(st, bs, top.b.Contents(), top.b.thrown, base, threw)
    modifies top, top.b, top.b.data
    ensures top.b.Valid() && (top.b.data == old(top.b.data) || fresh(top.b.data))
    ensures Sound(Pop(st), bs[..|bs| - 1], top.b.Contents(), top.b.thrown, base, threw)
  {
    ghost var was, failed := top.b.Contents(), top.b.thrown;
    ghost var before := Before(was, top.offset);
    DoneFits(st, bs, was, failed, top.offset, base, threw, before);
    top.Done(before, failed, st.fields);
    assert !top.b.thrown ==> top.b.l == |before| + |EncodeDoc(st.fields)|;
    top.b.Construct(top.offset);
    SoundPop(st, bs, was, failed, base, threw, before, top.b.Contents(), top.b.thrown);
  }

  lemma {:induction false} MatchesPop(b: BufBuilder, st: Levels, bs: seq<Entry>)
    requires Matches(b, st, bs) && st.Sub?
    ensures |bs| > 1 && Matches(b, Pop(st), bs[..|bs| - 1])
  {
    MatchesAdd(b, st.outer, bs[..|bs| - 1], Field(st.name, Doc(OBJECT, st.fields)));
  }

  // ---------------------------------------------------------------- names against the stack

  lemma {:induction false} TrailStep(bs: seq<Entry>, k: nat)
    requires 1 <= k < |bs|
    ensures Trail(bs[..k + 1]) == Trail(bs[..k]) + bs[k].name + [DOT]
  {
    assert bs[..k + 1][..k] == bs[..k];
  }

  lemma {:induction false} TrailPrefix(bs: seq<Entry>, k: nat)
    requires 1 <= k <= |bs|
    ensures Trail(bs[..k]) <= Trail(bs)
    decreases |bs|
  {
    if k < |bs| {
      var front := bs[..|bs| - 1];
      TrailPrefix(front, k);
      assert front[..k] == bs[..k];
      assert Trail(front) <= Trail(bs);
    } else {
      assert bs[..k] == bs;
    }
  }

  /** Some builder's path is the name and its dot. */
  ghost predicate EndsAt(bs: seq<Entry>, name: Name) {
    exists k: nat :: 2 <= k <= |bs| && Trail(bs[..k]) == name + [DOT]
  }

  lemma {:induction false} ThrowsIff(b: BufBuilder, st: Levels, bs: seq<Entry>, name: Name)
    requires Matches(b, st, bs)
    ensures Throws(st, name) <==> EndsAt(bs, name)
  {
    if st.Sub? {
      var front := bs[..|bs| - 1];
      MatchesPath(b, st, bs);
      ThrowsIff(b, st.outer, front, name);
      assert bs[..|bs|] == bs;
      if EndsAt(front, name) {
        var k: nat :| 2 <= k <= |front| && Trail(front[..k]) == name + [DOT];
        assert front[..k] == bs[..k];
      }
      if EndsAt(bs, name) {
        var k: nat :| 2 <= k <= |bs| && Trail(bs[..k]) == name + [DOT];
        if k < |bs| {
          assert front[..k] == bs[..k];
        }
      }
    }
  }

  lemma {:induction false} StopsHere(bs: seq<Entry>, i: nat, rest: Name, name: Name)
    requires 1 <= i < |bs| && Trail(bs[..i]) + rest == name
    requires !(bs[i].name <= rest && (|rest| == |bs[i].name| || rest[|bs[i].name|] == DOT))
    ensures !(Trail(bs[..i + 1]) <= name + [DOT])
  {
    TrailStep(bs, i);
    var base, n := Trail(bs[..i]), bs[i].name;
    if base + n + [DOT] <= name + [DOT] {
      Tails(base, n, rest);
    }
  }

  lemma {:induction false} FitsHere(bs: seq<Entry>, i: nat, rest: Name, name: Name)
    requires 1 <= i < |bs| && Trail(bs[..i]) + rest == name && bs[i].name <= rest
    requires |rest| == |bs[i].name| || rest[|bs[i].name|] == DOT
    ensures |rest| > |bs[i].name| ==> Trail(bs[..i + 1]) + rest[|bs[i].name| + 1..] == name
    ensures |rest| == |bs[i].name| ==> EndsAt(bs, name)
  {
    TrailStep(bs, i);
    var n := |bs[i].name|;
    if |rest| > n {
      assert rest == bs[i].name + [DOT] + rest[n + 1..];
    } else {
      assert rest == bs[i].name && Trail(bs[..i + 1]) == name + [DOT];
    }
  }

  lemma Tails(base: Name, n: Name, rest: Name)
    requires base + n + [DOT] <= base + rest + [DOT]
    ensures n <= rest && (|rest| == |n| || rest[|n|] == DOT)
  {
    var a, c := base + n + [DOT], base + rest + [DOT];
    assert forall i :: 0 <= i < |n| ==> n[i] == a[|base| + i] == c[|base| + i] == rest[i];
    assert |rest| > |n| ==> rest[|n|] == c[|base| + |n|] == a[|base| + |n|] == DOT;
  }

  lemma {:induction false} NotHere(bs: seq<Entry>, i: nat, k: nat, name: Name)
    requires 1 <= i <= |bs| && 2 <= k <= |bs| && Trail(bs[..i]) <= name
    requires i < |bs| ==> !(Trail(bs[..i + 1]) <= name + [DOT])
    ensures Trail(bs[..k]) != name + [DOT]
  {
    if k <= i {
      TrailPrefix(bs[..i], k);
      assert bs[..i][..k] == bs[..k];
    } else {
      TrailPrefix(bs[..k], i + 1);
      assert bs[..k][..i + 1] == bs[..i + 1];
    }
  }

  /** A stack that stops fitting the name at `i` does not throw. */
  lemma {:induction false} DoesNotThrow(b: BufBuilder, st: Levels, bs: seq<Entry>, i: nat, name: Name)
    requires Matches(b, st, bs) && 1 <= i <= |bs| && Trail(bs[..i]) <= name
    requires i < |bs| ==> !(Trail(bs[..i + 1]) <= name + [DOT])
    ensures !Throws(st, name)
  {
    ThrowsIff(b, st, bs, name);
    if EndsAt(bs, name) {
      var k: nat :| 2 <= k <= |bs| && Trail(bs[..k]) == name + [DOT];
      NotHere(bs, i, k, name);
    }
  }

  /** The first loop of prepareContext: how many builders fit the name, and what is left of it; the exception of substr. */
  method Strip(bs: seq<Entry>, name: Name, ghost b: BufBuilder, ghost st: Levels) returns (i: nat, rest: Name, ok: bool)
    requires Matches(b, st, bs)
    ensures ok == !Throws(st, name)
    ensures 1 <= i <= |bs| && Trail(bs[..i]) + rest == name
    ensures ok && i < |bs| ==> !(Trail(bs[..i + 1]) <= name + [DOT])
  {
    i, rest := 1, name;
    while i < |bs| && bs[i].name <= rest && (|rest| == |bs[i].name| || rest[|bs[i].name|] == DOT)
      invariant 1 <= i <= |bs| && Trail(bs[..i]) + rest == name
    {
      FitsHere(bs, i, rest, name);
      if |rest| == |bs[i].name| {
        ThrowsIff(b, st, bs, name);
        return i, rest, false;
      }
      i, rest := i + 1, rest[|bs[i].name| + 1..];
    }
    if i < |bs| {
      StopsHere(bs, i, rest, name);
    }
    DoesNotThrow(b, st, bs, i, name);
    ok := true;
  }

  // ---------------------------------------------------------------- the class

  predicate Distinct(bs: seq<Entry>) {
    forall j: nat, k: nat :: j < k < |bs| ==> bs[j].builder != bs[k].builder
  }

  predicate Among(bs: seq<Entry>, subs: set<BsonObjBuilder>) {
    forall k: nat :: 1 <= k < |bs| ==> bs[k].builder in subs
  }

  predicate Unfinished(bs: seq<Entry>, subs: set<BsonObjBuilder>)
    requires Among(bs, subs)
    reads subs
  {
    forall k: nat :: 1 <= k < |bs| ==> !bs[k].builder.doneCalled
  }

  lemma Pushed(bs: seq<Entry>, e: Entry, subs: set<BsonObjBuilder>)
    requires bs != [] && Among(bs, subs) && Unfinished(bs, subs) && Distinct(bs)
    requires !e.builder.doneCalled && forall k: nat :: k < |bs| ==> bs[k].builder != e.builder
    ensures Among(bs + [e], subs + {e.builder}) && Unfinished(bs + [e], subs + {e.builder}) && Distinct(bs + [e])
    ensures (bs + [e])[..|bs|] == bs
  {
  }

  lemma Popped(bs: seq<Entry>, subs: set<BsonObjBuilder>)
    requires |bs| > 1 && Among(bs, subs) && Distinct(bs) && forall k: nat :: 1 <= k < |bs| - 1 ==> !bs[k].builder.doneCalled
    ensures Among(bs[..|bs| - 1], subs) && Unfinished(bs[..|bs| - 1], subs) && Distinct(bs[..|bs| - 1])
  {
  }

  class EmbeddedBuilder {
    const b: BufBuilder
    var builders: seq<Entry>
    /** All builders opened here. */
    ghost var subs: set<BsonObjBuilder>
    ghost var st: Levels
    ghost const base: seq<byte>
    ghost const threw: bool

    ghost predicate Valid()
      reads this, b, b.data, subs
    {
      && b.Valid() && Matches(b, st, builders)
      && Among(builders, subs) && Unfinished(builders, subs) && Distinct(builders)
      && Sound(st, builders, b.Contents(), b.thrown, base, threw)
    }

    constructor (o: BsonObjBuilder)
      requires o.b.Valid() && (!o.b.thrown ==> 4 <= o.b.l)
      ensures Valid() && st == Root([]) && b == o.b && base == o.b.Contents() && threw == o.b.thrown
      ensures builders == [Entry([], o)] && subs == {}
    {
      b := o.b;
      builders := [Entry([], o)];
      subs := {};
      st := Root([]);
      base := o.b.Contents();
      threw := o.b.thrown;
    }

    /** appendAs of the builder on top, of a name without open dots. */
    method Append(f: Field)
      requires Valid() && Small(f)
      modifies this`st, b, b.data
      ensures Valid() && st == Add(old(st), f) && (b.data == old(b.data) || fresh(b.data))
    {
      ghost var was, failed := b.Contents(), b.thrown;
      BuildField(builders[|builders| - 1].builder, f);
      SoundAdd(st, builders, was, failed, base, threw, f, b.Contents(), b.thrown);
      MatchesAdd(b, st, builders, f);
      st := Add(st, f);
    }

    method AddBuilder(name: Name)
      requires Valid()
      modifies this, b, b.data
      ensures Valid() && st == Sub(old(st), name, []) && (b.data == old(b.data) || fresh(b.data))
      ensures |builders| == |old(builders)| + 1 && builders[..|old(builders)|] == old(builders)
      ensures fresh(subs - old(subs)) && old(subs) <= subs
    {
      var e := OpenTop(name);
      subs := subs + {e.builder};
      builders := builders + [e];
      st := Sub(st, name, []);
    }

    /** subobjStart, and a builder for the object. */
    method OpenTop(name: Name) returns (e: Entry)
      requires Valid()
      modifies b, b.data
      ensures b.Valid() && (b.data == old(b.data) || fresh(b.data)) && fresh(e.builder)
      ensures Matches(b, Sub(st, name, []), builders + [e]) && (builders + [e])[..|builders|] == builders
      ensures Among(builders + [e], subs + {e.builder}) && Unfinished(builders + [e], subs + {e.builder}) && Distinct(builders + [e])
      ensures Sound(Sub(st, name, []), builders + [e], b.Contents(), b.thrown, base, threw)
    {
      e := OpenBuilder(builders[|builders| - 1].builder, name, st, builders, base, threw);
      Pushed(builders, e, subs);
    }

    method PopBuilder()
      requires Valid() && st.Sub?
      modifies this`builders, this`st, b, b.data, subs
      ensures Valid() && st == Pop(old(st)) && builders == old(builders)[..|old(builders)| - 1]
      ensures b.data == old(b.data) || fresh(b.data)
    {
      CloseTop(builders[..|builders| - 1]);
      builders := builders[..|builders| - 1];
      st := Pop(st);
    }

    /** back()->done(). */
    method CloseTop(ghost front: seq<Entry>)
      requires Valid() && st.Sub? && front == builders[..|builders| - 1]
      modifies b, b.data, subs
      ensures b.Valid() && (b.data == old(b.data) || fresh(b.data))
      ensures Matches(b, Pop(st), front) && Among(front, subs) && Unfinished(front, subs) && Distinct(front)
      ensures Sound(Pop(st), front, b.Contents(), b.thrown, base, threw)
    {
      MatchesPop(b, st, builders);
      CloseBuilder(builders[|builders| - 1].builder, st, builders, base, threw);
      Popped(builders, subs);
    }

    /** The second loop: the builders the name is not inside of are closed. */
    method PopTo(i: nat, ghost name: Name)
      requires Valid() && 1 <= i <= |builders| && Trail(builders[..i]) <= name
      requires i < |builders| ==> !(Trail(builders[..i + 1]) <= name)
      modifies this`builders, this`st, b, b.data, subs
      ensures Valid() && (b.data == old(b.data) || fresh(b.data))
      ensures builders == old(builders)[..i] && st == Shut(old(st), name)
    {
      ghost var bs := builders;
      assert bs[..|bs|] == bs;
      while |builders| > i
        invariant i <= |builders| <= |bs| && builders == bs[..|builders|] && Valid()
        invariant b.data == old(b.data) || fresh(b.data)
        invariant Shut(st, name) == Shut(old(st), name)
        decreases |builders|
      {
        assert builders[..i + 1] == bs[..i + 1];
        NotInside(b, st, builders, i, name);
        PopBuilder();
      }
      MatchesPath(b, st, builders);
    }

    /** The third loop: a builder for each segment. */
    method OpenAll(name: Name) returns (last: Name)
      requires Valid()
      modifies this, b, b.data
      ensures Valid() && (b.data == old(b.data) || fresh(b.data))
      ensures fresh(subs - old(subs)) && old(subs) <= subs
      ensures (st, last) == Open(old(st), name)
    {
      var next;
      next, last := SplitDot(name);
      OpensMore(st, name, next, last);
      while next != []
        invariant Valid() && (b.data == old(b.data) || fresh(b.data))
        invariant fresh(subs - old(subs)) && old(subs) <= subs
        invariant Opening(old(st), name, st, next, last)
        decreases |last|, |next|
      {
        AddBuilder(next);
        ghost var left := last;
        next, last := SplitDot(last);
        OpensMore(st, left, next, last);
      }
    }

    method PrepareContext(name: Name) returns (last: Name, ok: bool)
      requires Valid()
      modifies this, b, b.data, subs
      ensures Valid() && (b.data == old(b.data) || fresh(b.data))
      ensures fresh(subs - old(subs)) && old(subs) <= subs
      ensures ok == !Throws(old(st), name)
      ensures ok ==> (st, last) == Prepare(old(st), name)
    {
      var i, rest;
      i, rest, ok := Strip(builders, name, b, st);
      last := rest;
      if ok {
        last := ShutAndOpen(i, rest, name);
      }
    }

    /** The second loop and the third. */
    method ShutAndOpen(i: nat, rest: Name, ghost name: Name) returns (last: Name)
      requires Valid() && 1 <= i <= |builders| && Trail(builders[..i]) + rest == name
      requires i < |builders| ==> !(Trail(builders[..i + 1]) <= name + [DOT])
      modifies this, b, b.data, subs
      ensures Valid() && (b.data == old(b.data) || fresh(b.data))
      ensures fresh(subs - old(subs)) && old(subs) <= subs
      ensures (st, last) == Prepare(old(st), name)
    {
      PopTo(i, name);
      MatchesPath(b, st, builders);
      last := OpenAll(rest);
    }

    method AppendAs(f: Field) returns (ok: bool)
      requires Valid() && Small(f)
      modifies this, b, b.data, subs
      ensures Valid() && (b.data == old(b.data) || fresh(b.data))
      ensures fresh(subs - old(subs)) && old(subs) <= subs
      ensures if ok then Step(old(st), f) == Some(st) else Step(old(st), f) == None
    {
      var last;
      if f.value.Doc? && f.value.tag == OBJECT && f.value.fields == [] {
        last, ok := PrepareContext(f.name + FOO);
        return;
      }
      last, ok := PrepareContext(f.name);
      if ok {
        Append(Field(last, f.value));
      }
    }

    method Done()
      requires Valid()
      modifies this`builders, this`st, b, b.data, subs
      ensures Valid() && (b.data == old(b.data) || fresh(b.data))
      ensures st == Root(Close(old(st)))
    {
      MatchesPath(b, st, builders);
      while |builders| > 1
        invariant Valid() && (b.data == old(b.data) || fresh(b.data))
        invariant Close(st) == Close(old(st))
        decreases |builders|
      {
        PopDepth(st);
        PopBuilder();
      }
    }
  }

  method BsonToMap(d: seq<Field>) returns (m: seq<Field>)
    ensures m == Sorted(d)
  {
    m := [];
    for i := 0 to |d|
      invariant AssignAll(m, d[i..]) == Sorted(d)
    {
      assert d[i..][1..] == d[i + 1..];
      m := Assign(m, d[i]);
    }
  }

  method AppendAll(eb: EmbeddedBuilder, fs: seq<Field>)
    requires eb.Valid() && Run(eb.st, fs).Some? && AllSmall(fs)
    modifies eb, eb.b, eb.b.data, eb.subs
    ensures eb.Valid() && (eb.b.data == old(eb.b.data) || fresh(eb.b.data))
    ensures fresh(eb.subs - old(eb.subs)) && old(eb.subs) <= eb.subs
    ensures Run(old(eb.st), fs) == Some(eb.st)
  {
    var i := 0;
    while i < |fs|
      invariant i <= |fs| && eb.Valid() && (eb.b.data == old(eb.b.data) || fresh(eb.b.data))
      invariant fresh(eb.subs - old(eb.subs)) && old(eb.subs) <= eb.subs
      invariant Run(old(eb.st), fs) == Run(eb.st, fs[i..])
    {
      AppendNth(eb, fs, i);
      i := i + 1;
    }
  }

  method AppendNth(eb: EmbeddedBuilder, fs: seq<Field>, i: nat)
    requires eb.Valid() && i < |fs| && Run(eb.st, fs[i..]).Some? && AllSmall(fs)
    modifies eb, eb.b, eb.b.data, eb.subs
    ensures eb.Valid() && (eb.b.data == old(eb.b.data) || fresh(eb.b.data))
    ensures fresh(eb.subs - old(eb.subs)) && old(eb.subs) <= eb.subs
    ensures Run(old(eb.st), fs[i..]) == Run(eb.st, fs[i + 1..])
  {
    RunAt(eb.st, fs, i);
    var ok := eb.AppendAs(fs[i]);
  }

  lemma RunAt(st: Levels, fs: seq<Field>, i: nat)
    requires i < |fs| && Run(st, fs[i..]).Some?
    ensures Step(st, fs[i]).Some? && Run(st, fs[i..]) == Run(Step(st, fs[i]).value, fs[i + 1..])
  {
    RunIs(st, fs[i..]);
    assert fs[i..][1..] == fs[i + 1..];
  }

  lemma Finished(b: BufBuilder, bs: seq<Entry>, fields: seq<Field>, content: seq<byte>, thrown: bool, base: seq<byte>, threw: bool)
    requires bs != [] && Sound(Root(fields), bs, content, thrown, base, threw)
    ensures Appended(base, threw, content, thrown, EncodeFields(fields)) && (!thrown ==> AllSmall(fields))
  {
  }

  lemma {:induction false} PartsSmall(d: seq<Field>)
    requires |EncodeFields(d)| <= MAX_INTERNAL
    ensures AllSmall(d)
  {
    if d != [] {
      PartsSmall(d[1..]);
      assert d[0].value.Doc? ==> EncodeValue(d[0].value) == EncodeDoc(d[0].value.fields);
      assert d == [d[0]] + d[1..];
    }
  }

  lemma {:induction false} AssignedSmall(m: seq<Field>, f: Field)
    requires AllSmall(m) && Small(f)
    ensures AllSmall(Assign(m, f))
  {
    if m != [] {
      assert m == [m[0]] + m[1..];
      AssignedSmall(m[1..], f);
    }
  }

  lemma {:induction false} SortedSmall(m: seq<Field>, d: seq<Field>)
    requires AllSmall(m) && AllSmall(d)
    ensures AllSmall(AssignAll(m, d))
    decreases d
  {
    if d != [] {
      assert d == [d[0]] + d[1..];
      AssignedSmall(m, d[0]);
      SortedSmall(Assign(m, d[0]), d[1..]);
    }
  }

  /**
   The bytes appended are those of the nested form, whatever the document. There is no exception while all
   stays within the safe size; and unless there is one, no sub-object got longer than BSONObj allows.
   */
  method DottedToNested(o: BsonObjBuilder, d: seq<Field>)
    requires o.b.Valid() && (!o.b.thrown ==> 4 <= o.b.l) && |EncodeDoc(d)| <= MAX_INTERNAL
    modifies o.b, o.b.data
    ensures o.b.Valid() && (o.b.data == old(o.b.data) || fresh(o.b.data))
    ensures Nested(d).Some?
    ensures Appended(old(o.b.Contents()), old(o.b.thrown), o.b.Contents(), o.b.thrown, EncodeFields(Nested(d).value))
    ensures !o.b.thrown ==> AllSmall(Nested(d).value)
  {
    NestedDotted(d);
    PartsSmall(d);
    SortedSmall([], d);
    var sorted := BsonToMap(d);
    var eb := new EmbeddedBuilder(o);
    AppendAll(eb, sorted);
    eb.Done();
    Finished(o.b, eb.builders, eb.st.fields, o.b.Contents(), o.b.thrown, eb.base, eb.threw);
  }

  /** Opening goes on from here. */
  ghost predicate Opening(was: Levels, name: Name, st: Levels, next: Name, last: Name) {
    Open(was, name) == if next == [] then (st, last) else Open(Sub(st, next, []), last)
  }

  lemma OpensMore(st: Levels, name: Name, next: Name, last: Name)
    requires match FindDot(name)
      case None => next == [] && last == name
      case Some(p) => next == name[..p] && last == name[p + 1..]
    ensures Opening(st, name, st, next, last)
  {
  }

  /** A builder that does not fit the name is closed for it. */
  lemma {:induction false} NotInside(b: BufBuilder, st: Levels, bs: seq<Entry>, i: nat, name: Name)
    requires Matches(b, st, bs) && 1 <= i < |bs| && !(Trail(bs[..i + 1]) <= name)
    ensures st.Sub? && Shut(st, name) == Shut(Pop(st), name)
  {
    MatchesPath(b, st, bs);
    TrailPrefix(bs, i + 1);
    PopDepth(st);
  }

  /** splitDot: the text before the first dot, which is then cut off. */
  method SplitDot(str: Name) returns (segment: Name, rest: Name)
    ensures match FindDot(str)
      case None => segment == [] && rest == str
      case Some(p) => segment == str[..p] && rest == str[p + 1..]
  {
    match FindDot(str)
    case None => segment, rest := [], str;
    case Some(p) => segment, rest := str[..p], str[p + 1..];
  }
}
