/** What dotted2nested makes of empty objects: they stay, each under its name, unless the name ends in an empty segment. */
module EmptyObjects {
  import opened Bytes
  import opened Bson
  import opened BsonRead
  import opened Dotted
  import opened DottedNames
  import TypeOrder

  // ---------------------------------------------------------------- leaves

  /** The fields a document comes down to, under their dotted names: all but the non-empty objects. */
  function Leaves(fs: seq<Field>, base: Name): seq<Field> {
    if fs == [] then [] else LeavesOf(fs[0], base) + Leaves(fs[1..], base)
  }

  function LeavesOf(f: Field, base: Name): seq<Field> {
    if f.value.Doc? && f.value.tag == 3 && f.value.fields != [] then Leaves(f.value.fields, base + f.name + [46])
    else [Field(base + f.name, f.value)]
  }

  lemma {:induction false} LeavesAppend(a: seq<Field>, f: Field, base: Name)
    ensures Leaves(a + [f], base) == Leaves(a, base) + LeavesOf(f, base)
  {
    if a == [] {
      assert [f][1..] == [];
    } else {
      LeavesAppend(a[1..], f, base);
      assert (a + [f])[1..] == a[1..] + [f];
    }
  }

  /** What is in the open builders. */
  function Inside(st: Levels): seq<Field> {
    match st
    case Root(fields) => Leaves(fields, [])
    case Sub(outer, _, fields) => Inside(outer) + Leaves(fields, Path(st))
  }

  /** And the builder opened last itself, while nothing is in it. */
  function Kept(st: Levels): seq<Field> {
    Inside(st) + if st.Sub? && st.fields == [] then [Field(Path(st.outer) + st.name, Doc(OBJECT, []))] else []
  }

  lemma AddKeeps(st: Levels, f: Field)
    ensures Inside(Add(st, f)) == Inside(st) + LeavesOf(f, Path(st)) == Kept(Add(st, f))
  {
    LeavesAppend(st.fields, f, Path(st));
    assert Path(Add(st, f)) == Path(st);
    match st
    case Root(_) =>
    case Sub(outer, _, fields) => Associates(Inside(outer), Leaves(fields, Path(st)), LeavesOf(f, Path(st)));
  }

  lemma PopKeeps(st: Levels)
    requires st.Sub?
    ensures Kept(Pop(st)) == Kept(st) == Inside(Pop(st))
  {
    AddKeeps(st.outer, Field(st.name, Doc(OBJECT, st.fields)));
  }

  lemma {:induction false} ShutKeeps(st: Levels, name: Name)
    ensures Kept(Shut(st, name)) == Kept(st)
    ensures Shut(st, name) == st || Kept(st) == Inside(Shut(st, name))
    decreases Depth(st)
  {
    if st.Sub? && !(Path(st) <= name) {
      PopKeeps(st);
      PopDepth(st);
      ShutKeeps(Pop(st), name);
    }
  }

  lemma {:induction false} CloseKeeps(st: Levels)
    ensures Leaves(Close(st), []) == Kept(st)
    decreases Depth(st)
  {
    if st.Sub? {
      PopKeeps(st);
      PopDepth(st);
      CloseKeeps(Pop(st));
    }
  }

  lemma {:induction false} OpenKeeps(st: Levels, name: Name)
    ensures Inside(Open(st, name).0) == Inside(st)
    decreases |name|
  {
    match FindDot(name)
    case None =>
    case Some(p) =>
      if p > 0 {
        OpenKeeps(Sub(st, name[..p], []), name[p + 1..]);
        assert Inside(Sub(st, name[..p], [])) == Inside(st) + [] == Inside(st);
      }
  }

  // ---------------------------------------------------------------- one empty object

  /** The last segment is not empty. */
  predicate Firm(name: Name) { name != [] && name[|name| - 1] != 46 }

  lemma {:induction false} OpenFirm(st: Levels, m: Name)
    requires Whole(m) && Firm(m)
    ensures var u := Open(st, m + FOO).0;
      u.Sub? && u.fields == [] && Path(u.outer) + u.name == Path(st) + m
    decreases |m|
  {
    match FindDot(m)
    case None => OpenLast(st, m);
    case Some(p) =>
      var rest := m[p + 1..];
      OpenMore(st, m, p, rest);
      WholeFrom(m, p);
      OpenFirm(Sub(st, m[..p], []), rest);
      Dotted.NameIs(Path(st), m, p);
  }

  lemma {:induction false} OpenSegment(st: Levels, name: Name, a: Name, rest: Name)
    requires name == a + [DOT] + rest && a != [] && DOT !in a
    ensures Open(st, name) == Open(Sub(st, a, []), rest)
  {
    FirstDot(a, rest);
    assert name[..|a|] == a && name[|a| + 1..] == rest;
  }

  lemma {:induction false} OpenLast(st: Levels, m: Name)
    requires m != [] && DOT !in m
    ensures Open(st, m + FOO).0 == Sub(st, m, [])
  {
    var foo := FOO[1..];
    assert m + FOO == m + [DOT] + foo;
    OpenSegment(st, m + FOO, m, foo);
    FooLeft(Sub(st, m, []));
  }

  lemma {:induction false} OpenMore(st: Levels, m: Name, p: nat, rest: Name)
    requires Whole(m) && Firm(m) && FindDot(m) == Some(p) && rest == m[p + 1..]
    ensures 0 < p && Firm(rest) && Open(st, m + FOO) == Open(Sub(st, m[..p], []), rest + FOO)
  {
    assert m == m[..p] + [DOT] + rest;
    assert m + FOO == m[..p] + [DOT] + (rest + FOO);
    OpenSegment(st, m + FOO, m[..p], rest + FOO);
  }

  lemma FooLeft(st: Levels)
    ensures Open(st, FOO[1..]).0 == st
  {
    assert DOT !in FOO[1..];
  }

  lemma {:induction false} ShutPath(st: Levels, name: Name)
    ensures Path(Shut(st, name)) <= Path(st)
    decreases Depth(st)
  {
    if st.Sub? && !(Path(st) <= name) {
      PopDepth(st);
      PopPath(st);
      ShutPath(Pop(st), name);
      assert Path(st.outer) <= Path(st);
    }
  }

  /** The builders of the names before stop short of the name. */
  lemma {:induction false} ShutShort(st: Levels, last: Name, name: Name)
    requires Named(st) && Firm(name) && (st.Root? || (Path(st) <= last + [DOT] && Less(last, name)))
    ensures Path(Shut(st, name + FOO)) <= name && Path(Shut(st, name + FOO)) != name
  {
    var t := Shut(st, name + FOO);
    ShutPath(st, name + FOO);
    ShutHolds(st, name + FOO);
    PathEnds(t);
    FooIsIn(Path(t), name);
    if |Path(t)| > |name| {
      assert Path(t) == name + [DOT];
      LastOff(name, last);
      PrefixNotAfter(name, last);
      assert false;
    }
    assert (name + [DOT])[..|Path(t)|] == name[..|Path(t)|];
  }

  lemma PathEnds(st: Levels)
    ensures Path(st) != [] ==> Path(st)[|Path(st)| - 1] == DOT
  {
  }

  lemma {:induction false} WholeTail(name: Name, path: Name)
    requires Whole(name) && path <= name && (path != [] ==> path[|path| - 1] == DOT)
    ensures Whole(name[|path|..])
  {
    var m := name[|path|..];
    assert forall i :: 0 <= i < |m| ==> m[i] == name[|path| + i];
    if path != [] && m != [] {
      assert name[|path| - 1] == path[|path| - 1];
    }
  }

  lemma {:induction false} EmptyKeeps(st: Levels, last: Name, f: Field)
    requires Named(st) && IsEmptySub(f.value) && Whole(f.name) && Firm(f.name) && Step(st, f).Some?
    requires st.Root? || (Path(st) <= last + [DOT] && Less(last, f.name))
    ensures Kept(Step(st, f).value) == Inside(Shut(st, Prepared(f))) + [f]
    ensures Path(Step(st, f).value) == f.name + [DOT]
  {
    var t := Shut(st, f.name + FOO);
    ShutShort(st, last, f.name);
    PathEnds(t);
    WholeTail(f.name, Path(t));
    var m := f.name[|Path(t)|..];
    assert (f.name + FOO)[|Path(t)|..] == m + FOO && Path(t) + m == f.name;
    OpenFirm(t, m);
    OpenKeeps(t, m + FOO);
  }

  lemma {:induction false} FieldKeeps(st: Levels, f: Field)
    requires Named(st) && !IsEmptySub(f.value) && Step(st, f).Some? && Kept(st) == Inside(Shut(st, f.name))
    ensures Kept(Step(st, f).value) == Kept(st) + LeavesOf(Field(Squeezed(f.name), f.value), [])
    ensures Step(st, f).value.fields != []
  {
    var t := Shut(st, f.name);
    var rest := f.name[|Path(t)|..];
    var (u, segment) := Open(t, rest);
    OpenKeeps(t, rest);
    PrepareHolds(st, f.name);
    AddKeeps(u, Field(segment, f.value));
    LeavesWhole(Path(u), segment, Squeezed(f.name), f.value);
  }

  lemma LeavesWhole(base: Name, name: Name, whole: Name, v: Value)
    requires base + name == whole
    ensures LeavesOf(Field(name, v), base) == LeavesOf(Field(whole, v), [])
  {
    assert [] + whole == whole;
    assert base + name + [46] == [] + whole + [46];
  }

  // ---------------------------------------------------------------- all of a document

  /** What a field comes to. */
  function LeafShare(f: Field): seq<Field> { LeavesOf(Field(Squeezed(f.name), f.value), []) }

  function LeafShares(fs: seq<Field>): seq<Field> {
    if fs == [] then [] else LeafShare(fs[0]) + LeafShares(fs[1..])
  }

  /** Empty objects have whole names that end in no empty segment, and no later name goes on from theirs with a dot. */
  predicate Lasting(fs: seq<Field>) {
    fs == [] || (
      Lasting(fs[1..]) &&
      (IsEmptySub(fs[0].value) ==>
        Whole(fs[0].name) && Firm(fs[0].name) && forall i: nat :: i < |fs[1..]| ==> !(fs[0].name + [46] <= fs[1..][i].name)))
  }

  /** If nothing is in the last builder, it is that of the name before, and the next name is not inside of it. */
  ghost predicate Settled(st: Levels, last: Name, fs: seq<Field>) {
    st.Sub? && st.fields == [] ==> Path(st) == last + [46] && forall i: nat :: i < |fs| ==> !(last + [46] <= fs[i].name)
  }

  lemma {:induction false} ShutsIt(st: Levels, last: Name, fs: seq<Field>)
    requires fs != [] && Settled(st, last, fs) && (st.Root? || Less(last, fs[0].name))
    ensures Kept(st) == Inside(Shut(st, Prepared(fs[0])))
  {
    var f := fs[0];
    ShutKeeps(st, Prepared(f));
    if st.Sub? && st.fields == [] && Path(st) <= Prepared(f) {
      if IsEmptySub(f.value) {
        FooIsIn(Path(st), f.name);
        GoesOn(last, f.name);
        Compared(last, f.name);
      }
      assert false;
    }
    assert Inside(st) + [] == Inside(st);
  }

  lemma {:induction false} StepKeeps(st: Levels, last: Name, fs: seq<Field>)
    requires Named(st) && fs != [] && Settled(st, last, fs) && Lasting(fs) && Step(st, fs[0]).Some?
    requires st.Root? || (Path(st) <= last + [DOT] && Less(last, fs[0].name))
    ensures Kept(Step(st, fs[0]).value) == Kept(st) + LeafShare(fs[0])
    ensures Settled(Step(st, fs[0]).value, fs[0].name, fs[1..])
  {
    var f := fs[0];
    ShutsIt(st, last, fs);
    if IsEmptySub(f.value) {
      EmptyKeeps(st, last, f);
      SqueezedIff(f.name);
      assert LeafShare(f) == [f] by {
        assert [] + f.name == f.name;
      }
    } else {
      FieldKeeps(st, f);
    }
  }

  lemma {:induction false} RunKeeps(st: Levels, last: Name, fs: seq<Field>)
    requires Named(st) && Ascending(fs) && Settled(st, last, fs) && Lasting(fs) && Run(st, fs).Some?
    requires st.Root? || (Path(st) <= last + [DOT] && (fs != [] ==> Less(last, fs[0].name)))
    ensures Kept(Run(st, fs).value) == Kept(st) + LeafShares(fs)
    decreases fs
  {
    if fs == [] {
      assert Kept(st) + [] == Kept(st);
    } else {
      RunIs(st, fs);
      StepKeeps(st, last, fs);
      StepHolds(st, fs[0]);
      StepInside(st, fs[0]);
      RunKeeps(Step(st, fs[0]).value, fs[0].name, fs[1..]);
      Associates(Kept(st), LeafShare(fs[0]), LeafShares(fs[1..]));
    }
  }

  /**
   For every document whose empty objects have whole names that end in no empty segment, and are not gone
   on from: the nested form has, in the order of the names, all of its fields, the empty objects too.
   */
  lemma {:induction false} NestedLeaves(d: seq<Field>)
    requires Lasting(Sorted(d))
    ensures Nested(d).Some? && Leaves(Nested(d).value, []) == LeafShares(Sorted(d))
  {
    NestedDotted(d);
    Sorts(d, []);
    RunKeeps(Root([]), [], Sorted(d));
    CloseKeeps(Run(Root([]), Sorted(d)).value);
    assert Kept(Root([])) + LeafShares(Sorted(d)) == LeafShares(Sorted(d));
  }

  // ---------------------------------------------------------------- each of them

  /** An empty object that is there stays, while no name goes on from its own. */
  lemma {:induction false} StepHas(st: Levels, e: Field, f: Field)
    requires e in Kept(st) && IsEmptySub(e.value) && Step(st, f).Some? && !(e.name + [46] <= Prepared(f))
    ensures e in Kept(Step(st, f).value)
  {
    var name := Prepared(f);
    var t := Shut(st, name);
    ShutKeeps(st, name);
    OpenKeeps(t, name[|Path(t)|..]);
    AddKeeps(Prepare(st, name).0, Field(Prepare(st, name).1, f.value));
  }

  lemma {:induction false} RunHas(st: Levels, e: Field, fs: seq<Field>)
    requires e in Kept(st) && IsEmptySub(e.value) && Run(st, fs).Some?
    requires forall i: nat :: i < |fs| ==> !(e.name + [46] <= Prepared(fs[i]))
    ensures e in Kept(Run(st, fs).value)
    decreases fs
  {
    if fs != [] {
      RunIs(st, fs);
      StepHas(st, e, fs[0]);
      assert forall i: nat :: i < |fs[1..]| ==> fs[1..][i] == fs[i + 1];
      RunHas(Step(st, fs[0]).value, e, fs[1..]);
    }
  }

  /** No name to come, with what an empty object adds to it, goes on from `name`. */
  lemma {:induction false} NoneGoesOn(name: Name, fs: seq<Field>)
    requires Clear(name, fs)
    ensures forall i: nat :: i < |fs| ==> !(name + [46] <= Prepared(fs[i]))
  {
    forall i: nat | i < |fs|
      ensures !(name + [46] <= Prepared(fs[i]))
    {
      if name + [46] <= Prepared(fs[i]) {
        if IsEmptySub(fs[i].value) {
          FooIsIn(name + [46], fs[i].name);
        }
        assert false;
      }
    }
  }

  lemma {:induction false} ComesToHave(st: Levels, last: Name, fs: seq<Field>, k: nat)
    requires Named(st) && Ascending(fs) && Apart(fs) && Run(st, fs).Some? && k < |fs|
    requires st.Root? || (Path(st) <= last + [DOT] && Less(last, fs[0].name))
    requires IsEmptySub(fs[k].value) && Whole(fs[k].name) && Firm(fs[k].name)
    ensures fs[k] in Kept(Run(st, fs).value)
    decreases fs
  {
    RunIs(st, fs);
    StepHolds(st, fs[0]);
    StepInside(st, fs[0]);
    var t := Step(st, fs[0]).value;
    if k == 0 {
      EmptyKeeps(st, last, fs[0]);
      NoneGoesOn(fs[0].name, fs[1..]);
      RunHas(t, fs[0], fs[1..]);
    } else {
      assert fs[1..][k - 1] == fs[k];
      ComesToHave(t, fs[0].name, fs[1..], k - 1);
    }
  }

  // ---------------------------------------------------------------- found by the dotted name

  lemma {:induction false} LeafFrom(fs: seq<Field>, base: Name, e: Field) returns (i: nat)
    requires e in Leaves(fs, base)
    ensures i < |fs| && e in LeavesOf(fs[i], base)
  {
    if e in LeavesOf(fs[0], base) {
      i := 0;
    } else {
      i := LeafFrom(fs[1..], base, e);
      i := i + 1;
    }
  }

  lemma {:induction false} LeafName(fs: seq<Field>, base: Name, e: Field)
    requires e in Leaves(fs, base)
    ensures base <= e.name
    decreases fs
  {
    var i := LeafFrom(fs, base, e);
    var f := fs[i];
    if IsSub(f.value) && f.value.fields != [] {
      LeafName(f.value.fields, base + f.name + [46], e);
      assert base <= base + f.name + [46];
    }
  }

  /** In a tidy document getFieldDotted finds every leaf under its name. */
  lemma {:induction false} FindsLeaf(fs: seq<Field>, base: Name, e: Field, rest: Name)
    requires Tidy(fs) && e in Leaves(fs, base) && e.name == base + rest
    ensures GetDotted(fs, rest).Some? && GetDotted(fs, rest).value.value == e.value
    decreases fs
  {
    var i := LeafFrom(fs, base, e);
    var f := fs[i];
    LooksUp(fs, i);
    if IsSub(f.value) && f.value.fields != [] {
      var inner := base + f.name + [DOT];
      LeafName(f.value.fields, inner, e);
      var tail := e.name[|inner|..];
      assert e.name == inner + tail;
      RestIs(base, f.name, rest, tail);
      FirstDot(f.name, tail);
      DotNotFound(fs, rest);
      assert rest[..|f.name|] == f.name && rest[|f.name| + 1..] == tail;
      FindsLeaf(f.value.fields, inner, e, tail);
    } else {
      RestSame(base, f.name, rest);
    }
  }

  lemma {:induction false} SharesHas(fs: seq<Field>, e: Field)
    requires e in fs && FlatField(e) && WholeField(e)
    ensures e in Shares(fs)
  {
    if fs[0] == e {
      SqueezedIff(e.name);
      assert [] + e.name == e.name;
      assert Share(e) == [e];
    } else {
      SharesHas(fs[1..], e);
    }
  }

  // ---------------------------------------------------------------- names that end in an empty segment

  /** Builders have names. */
  predicate SubsNamed(fs: seq<Field>) {
    fs == [] || (SubNamed(fs[0]) && SubsNamed(fs[1..]))
  }

  predicate SubNamed(f: Field) {
    IsSub(f.value) ==> f.name != [] && SubsNamed(f.value.fields)
  }

  predicate AllNamed(st: Levels) {
    SubsNamed(st.fields) && (st.Sub? ==> st.name != [] && AllNamed(st.outer))
  }

  lemma {:induction false} AddNamed(fs: seq<Field>, f: Field)
    requires SubsNamed(fs) && SubNamed(f)
    ensures SubsNamed(fs + [f])
  {
    if fs == [] {
      assert [f][1..] == [];
    } else {
      AddNamed(fs[1..], f);
      assert (fs + [f])[1..] == fs[1..] + [f];
    }
  }

  lemma {:induction false} ShutNamed(st: Levels, name: Name)
    requires AllNamed(st)
    ensures AllNamed(Shut(st, name))
    decreases Depth(st)
  {
    if st.Sub? && !(Path(st) <= name) {
      AddNamed(st.outer.fields, Field(st.name, Doc(OBJECT, st.fields)));
      PopDepth(st);
      ShutNamed(Pop(st), name);
    }
  }

  lemma {:induction false} OpenNamed(st: Levels, name: Name)
    requires AllNamed(st)
    ensures AllNamed(Open(st, name).0)
    decreases |name|
  {
    match FindDot(name)
    case None =>
    case Some(p) =>
      if p > 0 {
        OpenNamed(Sub(st, name[..p], []), name[p + 1..]);
      }
  }

  lemma {:induction false} CloseNamed(st: Levels)
    requires AllNamed(st)
    ensures SubsNamed(Close(st))
    decreases Depth(st)
  {
    if st.Sub? {
      AddNamed(st.outer.fields, Field(st.name, Doc(OBJECT, st.fields)));
      PopDepth(st);
      CloseNamed(Pop(st));
    }
  }

  lemma {:induction false} RunNamed(st: Levels, fs: seq<Field>)
    requires AllNamed(st) && All(fs, SimpleField) && Run(st, fs).Some?
    ensures AllNamed(Run(st, fs).value)
    decreases fs
  {
    if fs != [] {
      RunIs(st, fs);
      var f := fs[0];
      var name := Prepared(f);
      var t := Shut(st, name);
      ShutNamed(st, name);
      OpenNamed(t, name[|Path(t)|..]);
      if !IsEmptySub(f.value) {
        AddNamed(Prepare(st, name).0.fields, Field(Prepare(st, name).1, f.value));
      }
      RunNamed(Step(st, f).value, fs[1..]);
    }
  }

  lemma {:induction false} FoundAt(fs: seq<Field>, name: Name) returns (i: nat)
    requires Lookup(fs, name).Some?
    ensures i < |fs| && fs[i] == Lookup(fs, name).value && fs[i].name == name
  {
    if fs[0].name == name {
      i := 0;
    } else {
      i := FoundAt(fs[1..], name);
      i := i + 1;
    }
  }

  lemma {:induction false} NamedAt(fs: seq<Field>, i: nat)
    requires SubsNamed(fs) && i < |fs|
    ensures SubNamed(fs[i])
  {
    if i > 0 {
      NamedAt(fs[1..], i - 1);
    }
  }

  lemma {:induction false} DottedHas(fs: seq<Field>, base: Name, i: nat, e: Field)
    requires i < |fs| && e in DottedField(fs[i], base)
    ensures e in Dotted.Dotted(fs, base)
  {
    if i > 0 {
      DottedHas(fs[1..], base, i - 1, e);
    }
  }

  lemma {:induction false} FoundHere(fs: seq<Field>, base: Name, name: Name) returns (e: Field)
    requires Tidy(fs) && SubsNamed(fs) && !Firm(name) && Lookup(fs, name).Some?
    ensures e in Dotted.Dotted(fs, base) && e.name == base + name
  {
    var i := FoundAt(fs, name);
    LooksUp(fs, i);
    NamedAt(fs, i);
    assert name != [] ==> DOT in name;
    e := Field(base + name, fs[i].value);
    DottedHas(fs, base, i, e);
  }

  /** What is found under a name that ends in an empty segment is a field of the dotted form, or lies in an array that is. */
  lemma {:induction false} FoundUnder(fs: seq<Field>, base: Name, name: Name) returns (e: Field)
    requires Tidy(fs) && SubsNamed(fs) && !Firm(name) && GetDotted(fs, name).Some?
    ensures e in Dotted.Dotted(fs, base) && (e.name == base + name || e.name + [DOT] <= base + name)
    decreases |name|
  {
    if Lookup(fs, name).Some? {
      e := FoundHere(fs, base, name);
    } else {
      var p := FindDot(name).value;
      var f := Lookup(fs, name[..p]).value;
      var rest := name[p + 1..];
      var i := FoundAt(fs, name[..p]);
      SegmentFits(base, name, p, base + name);
      if IsSub(f.value) {
        LooksUp(fs, i);
        NamedAt(fs, i);
        assert !Firm(rest);
        e := FoundUnder(f.value.fields, base + f.name + [DOT], rest);
        DottedHas(fs, base, i, e);
      } else {
        e := Field(base + f.name, f.value);
        DottedHas(fs, base, i, e);
      }
    }
  }

  /** An entry of the dotted form of the nested form is a field of the document that is not an empty object. */
  lemma {:induction false} SharesAre(fs: seq<Field>, e: Field)
    requires All(fs, SimpleField) && All(fs, WholeField) && e in Shares(fs)
    ensures e in fs && !IsEmptySub(e.value)
  {
    if IsEmptySub(fs[0].value) {
      EmptyShare(fs[0]);
    } else {
      SqueezedIff(fs[0].name);
      assert [] + fs[0].name == fs[0].name;
      assert Share(fs[0]) == [fs[0]];
    }
    if e in Shares(fs[1..]) {
      SharesAre(fs[1..], e);
    }
  }

  lemma {:induction false} LookupIs(fs: seq<Field>, e: Field)
    requires Ascending(fs) && e in fs
    ensures Lookup(fs, e.name) == Some(e)
  {
    if fs[0] != e {
      BeforeAll(fs);
      var i: nat :| i < |fs[1..]| && fs[1..][i] == e;
      Compared(fs[0].name, e.name);
      assert |fs| > 1;
      LookupIs(fs[1..], e);
    }
  }

  /** An empty object under a name that ends in an empty segment is not found. */
  lemma {:induction false} NotFound(d: seq<Field>, e: Field)
    requires All(d, SimpleField) && All(d, WholeField) && PrefixFree(d)
    requires e in Sorted(d) && IsEmptySub(e.value) && !Firm(e.name)
    ensures Nested(d).Some? && GetDotted(Nested(d).value, e.name) == None
  {
    NestedDotted(d);
    Sorts(d, e.name);
    SortedAll([], d, SimpleField);
    SortedAll([], d, WholeField);
    SortedFree(d);
    IsTidy(d);
    var st := Run(Root([]), Sorted(d)).value;
    RunNamed(Root([]), Sorted(d));
    CloseNamed(st);
    if GetDotted(Nested(d).value, e.name).Some? {
      var g := FoundUnder(Nested(d).value, [], e.name);
      assert [] + e.name == e.name;
      SharesAre(Sorted(d), g);
      LookupIs(Sorted(d), e);
      LookupIs(Sorted(d), g);
      assert false;
    }
  }

  lemma {:induction false} IsFound(d: seq<Field>, e: Field)
    requires All(d, SimpleField) && All(d, WholeField) && PrefixFree(d)
    requires e in Sorted(d) && (IsEmptySub(e.value) ==> Firm(e.name))
    ensures Nested(d).Some? && GetDotted(Nested(d).value, e.name).Some?
    ensures GetDotted(Nested(d).value, e.name).value.value == e.value
  {
    NestedDotted(d);
    Sorts(d, e.name);
    SortedAll([], d, SimpleField);
    SortedAll([], d, WholeField);
    SortedFree(d);
    AreApart(Sorted(d));
    IsTidy(d);
    assert [] + e.name == e.name;
    var k: nat :| k < |Sorted(d)| && Sorted(d)[k] == e;
    AllAt(Sorted(d), SimpleField, k);
    AllAt(Sorted(d), WholeField, k);
    if IsEmptySub(e.value) {
      ComesToHave(Root([]), [], Sorted(d), k);
      CloseKeeps(Run(Root([]), Sorted(d)).value);
      FindsLeaf(Nested(d).value, [], e, e.name);
    } else {
      SharesHas(Sorted(d), e);
      Finds(Nested(d).value, [], e, e.name);
    }
  }

  /**
   For documents without sub-objects but empty ones, whose names are whole and do not go on from each other
   with a dot: getFieldDotted finds under every name, in the nested form, the value that came last of that
   name; an empty object exactly if the name does not end in an empty segment.
   */
  lemma {:induction false} FindsIff(d: seq<Field>, i: nat)
    requires All(d, SimpleField) && All(d, WholeField) && PrefixFree(d) && i < |d|
    ensures Nested(d).Some? && Latest(d, d[i].name).Some?
    ensures var v, found := Latest(d, d[i].name).value.value, GetDotted(Nested(d).value, d[i].name);
      if v == Doc(3, []) && (d[i].name == [] || d[i].name[|d[i].name| - 1] == 46) then found == None
      else found.Some? && found.value.value == v
  {
    var e := InSorted(d, i);
    if IsEmptySub(e.value) && !Firm(e.name) {
      NotFound(d, e);
    } else {
      IsFound(d, e);
    }
  }

  /** A document of one field that opens one builder. */
  lemma {:induction false} One(f: Field, name: Name, fs: seq<Field>)
    requires Step(Root([]), f) == Some(Sub(Root([]), name, fs))
    ensures Nested([f]) == Some([Field(name, Doc(3, fs))])
  {
    var st := Sub(Root([]), name, fs);
    var g := Field(name, Doc(OBJECT, fs));
    assert Pop(st) == Root([g]) by { assert [] + [g] == [g]; }
    assert Close(Root([g])) == [g];
    var d := [f];
    assert d[1..] == [];
    assert Assign([], f) == d && Sorted(d) == AssignAll(d, d[1..]) == d;
    assert Run(st, d[1..]) == Some(st);
  }

  /** One empty object alone comes back as it is, if its name is not empty and has no dot. */
  lemma {:induction false} Alone(n: Name)
    requires n != [] && 46 !in n
    ensures Nested([Field(n, Doc(3, []))]) == Some([Field(n, Doc(3, []))])
  {
    OpenLast(Root([]), n);
    assert (n + FOO)[0..] == n + FOO;
    One(Field(n, Doc(3, [])), n, []);
  }

  /** A dot separates the name of an object from that of a field in it. */
  lemma {:induction false} OneDot(a: Name, b: Name, v: Value)
    requires a != [] && 46 !in a && 46 !in b && !IsSub(v)
    ensures Nested([Field(a + [46] + b, v)]) == Some([Field(a, Doc(3, [Field(b, v)]))])
  {
    var name := a + [46] + b;
    OpenSegment(Root([]), name, a, b);
    assert name[0..] == name;
    var t := Sub(Root([]), a, []);
    assert Open(t, b) == (t, b) && Prepare(Root([]), name) == (t, b);
    assert [] + [Field(b, v)] == [Field(b, v)];
    assert Add(t, Field(b, v)) == Sub(Root([]), a, [Field(b, v)]);
    One(Field(name, v), a, [Field(b, v)]);
  }

  /** Names that end in an empty segment lose their empty object: "" leaves nothing, "a." an object `a`. */
  lemma {:induction false} Lost()
    ensures Nested([Field([], Doc(3, []))]) == Some([])
    ensures Nested([Field([97, 46], Doc(3, []))]) == Some([Field([97], Doc(3, []))])
  {
    var f, g := Field([], Doc(3, [])), Field([97, 46], Doc(3, []));
    assert [f][1..] == [] && Sorted([f]) == AssignAll([f], [f][1..]) == [f];
    assert f.name + FOO == FOO && FOO[0..] == FOO;
    assert Step(Root([]), f) == Some(Root([]));
    assert Run(Root([]), [f]) == Run(Root([]), [f][1..]);
    var name := g.name + FOO;
    OpenSegment(Root([]), name, [97], [46, 102, 111, 111]);
    assert name == [97] + [DOT] + [46, 102, 111, 111] && name[0..] == name;
    One(g, [97], []);
  }

  // ---------------------------------------------------------------- order and loss, of names

  /** The fields are taken in the order of their names, byte by byte; of one name the last is taken. */
  lemma {:induction false} TakenInOrder(d: seq<Field>, i: nat, j: nat)
    requires i < j < |Sorted(d)|
    ensures TypeOrder.Before(Sorted(d)[i].name, Sorted(d)[j].name)
  {
    Sorts(d, []);
    InOrder(Sorted(d), i, j);
    TypeOrder.BytesBefore(Sorted(d)[i].name, Sorted(d)[j].name);
  }

  lemma {:induction false} InOrder(fs: seq<Field>, i: nat, j: nat)
    requires Ascending(fs) && i < j < |fs|
    ensures Less(fs[i].name, fs[j].name)
  {
    if i == 0 {
      BeforeAll(fs);
      assert fs[1..][j - 1] == fs[j];
    } else {
      InOrder(fs[1..], i - 1, j - 1);
    }
  }

  /** What is lost of a name that is not whole: a leading dot, or the second of the first two in a row. */
  lemma {:induction false} DotLost(a: Name, b: Name)
    requires Whole(a) && Firm(a)
    ensures Squeezed([46] + b) == b && Squeezed(a + [46, 46] + b) == a + [46] + b
    decreases |a|
  {
    assert ([46] + b)[1..] == b;
    match FindDot(a)
    case None =>
      assert a + [46, 46] + b == a + [DOT] + ([46] + b);
      SqueezedAfter(a, [46] + b);
    case Some(p) =>
      var head, rest := a[..p], a[p + 1..];
      assert a == head + [DOT] + rest;
      WholeFrom(a, p);
      DotLost(rest, b);
      SqueezedAfter(head, rest + [46, 46] + b);
      HeadsOff(head, rest, b);
  }

  lemma HeadsOff(head: Name, rest: Name, b: Name)
    ensures head + [46] + rest + [46, 46] + b == head + [46] + (rest + [46, 46] + b)
    ensures head + [46] + rest + [46] + b == head + [46] + (rest + [46] + b)
  {
  }
}
